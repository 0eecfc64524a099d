# Verification of the huawei-solar-proxy core

A Dafny 4.11 model of the Modbus caching proxy, and proofs about it. One poller and any number
of connection handlers share a register cache (one SQLite table, one connection) and one
mutex-protected Modbus client. Source paths and lines below refer to the repository root.

`dafny verify dfyconfig.toml` checks everything.

| file | what it models |
|---|---|
| `Words.dfy` | bytes, 16-bit registers, big-endian conversion |
| `Timestamps.dfy` | RFC3339Nano text of an instant (with the Gregorian calendar), text order against time order |
| `Dates.dfy` | reading the text back: it names the date and time of the instant |
| `Registers.dfy` | the register table as sorted rows, the map it refines, `RegisterCache` |
| `History.dfy` | what a sequence of committed transactions and sweeps leaves in the table, key by key |
| `Client.dfy` | the serialised, paced client and the log of the device connection |
| `Proxy.dfy`, `Interleavings.dfy` | poller and handlers as a step system; what holds in every interleaving |
| `Freshness.dfy`, `Age.dfy` | exactly when a cached value can still be replaced by an older one, and exactly when it can be too old |
| `Schedules.dfy`, `StaleRead.dfy` | building runs of the step system; a run that breaks read-your-writes |
| `Config.dfy` | validation, the two tiers, the unit-by-group lists |
| `Reader.dfy`, `Poller.dfy` | `readGroup`, `InitialScan`, `Run` |
| `Frames.dfy`, `Server.dfy` | MBAP framing, responses, handlers, a whole connection |
| `Requests.dfy` | what each request comes to, byte by byte |
| `Handlers.dfy`, `Cycles.dfy` | request handlers, `readGroup` and poll cycles are runs of the step system |
| `StatusPage.dfy` | the grouping loops of the status page |

## How the model is set up

Objects that the source updates in place are classes (`RegisterCache`, `InverterClient`,
`ReaderLoop`, `Conn`, `ModbusServer`), and their loops are loops; each method is proved against a
function of its inputs and old state, and the properties are proved about those functions.
`Proxy` is a step system over one shared state: every step is one action of one thread chosen
by the scheduler, with locks taken and released as separate steps. Its table steps are the same
functions (`Apply`, `ApplyAll`, `Sweep`, `Window`) that `RegisterCache` is proved against, its
log is judged by the same predicates as the client's, and `Handlers` and `Cycles` prove that what
a handler, a `readGroup` call or a poll cycle does is a run of it.

The methods of `ReaderLoop` and `ModbusServer` run among other threads: each of their inputs says
what the others have committed to the table by then (`others`, `othersThen`).

Device replies, database faults, cancellation, clock readings and the schedule are inputs.
Assumptions about them, each written where it is used:

- a successful register read returns exactly two bytes per register;
- sleeping lasts at least the requested time, and clock readings do not decrease;
- a SQLite transaction is atomic, and one that fails changes nothing;
- the clock, and the clock less the TTL, lie in the years 0000 to 9999.

A database file keeps the rows of an earlier process, so the table at start-up is any table.

In `Proxy` threads may do more than the program does: the poller reads, sweeps and flushes what
it likes in any order. Lookups, sweeps and transactions may fail. What is proved of every run
holds of the program's runs among them.

Where the code does less than one might expect, the model follows the code:

- Text order is not time order. RFC3339Nano trims trailing zeros, so half past a second sorts
  before the second itself (`Timestamps.ReversalWitness`). `Timestamps.TextOrder` says exactly when.
- Read-your-writes does not hold: a poller sample taken before a write can be flushed after it
  (`StaleRead.ReadYourWritesFails`). A cached value is safe from older ones under every schedule if
  and only if no thread's unflushed samples of its register end in an older one
  (`Freshness.StaysFresh`); `Freshness.StaleValuesGone` says when that is so for good.
- An entry can be older than the TTL plus a second right after a sweep, if its writer read its
  clock and then waited for the database past the sweep. A write keeps the bound, wherever sweeps
  fall, if and only if it gets the database within the TTL plus a second of reading its clock
  (`Age.BoundedIffPrompt`); the wait is what counts, because no sweep can fall between the begin
  and the commit of a transaction.
- Sweeps are at least the slow interval apart by the reader's `lastSlowPoll`. The sweeps themselves
  are sure to be, if and only if no time passed between stamp and sweep, or the flush after the
  sweep began an interval later (`Poller.SpacedIff`).
- `BatchSet` only logs a failed transaction, and the initial scan does not read those groups again.
  No work is lost if and only if every pass that has anything to flush commits it
  (`Poller.ScanKeepsWork`).
- Nothing paces the first exchange after a reconnect; pacing is claimed between exchanges only.
- The README of the repository says that all values are cached in memory and that the server starts
  after the initial scan; the code keeps them in SQLite and starts the server first. The model follows the code.

## Model

| member | source | states |
|---|---|---|
| Words.BytesToUint16 | cache.go:206-212 | the loop yields the big-endian registers of the data |
| Words.Uint16ToBytes | cache.go:291-296 | the loop yields the big-endian bytes of the registers |
| Words.WordsOfBytesOf | cache.go:206-212 | decoding undoes encoding, for every register list |
| Words.BytesOfWordsOf | cache.go:291-296 | encoding undoes decoding exactly for even lengths; an odd last byte is lost |
| Words.BigEndian | cache.go:206-212 | a register is 256 times its first byte plus its second |
| Words.BigEndianBytes | cache.go:291-296 | its bytes are the quotient and the remainder by 256 |
| Timestamps.TextOrder | cache.go:182 | for all instants of years 0000-9999: text order is time order unless the seconds agree and one printed fraction is a proper prefix of the other, where it is reversed |
| Timestamps.PrefixIsEarlier | cache.go:312 | the prefix belongs to the earlier instant, so that case really is a reversal |
| Timestamps.FractionOrder | cache.go:226 | order of trimmed fractions within one second |
| Timestamps.SecondOrder | cache.go:226 | the fixed-width date and clock text orders like the second it names, leap years included |
| Timestamps.FormatInjective | cache.go:182 | the text determines the instant |
| Timestamps.TextOrderError | cache.go:312 | comparing texts is wrong by less than a second, in either direction |
| Timestamps.ReversalWitness | cache.go:182 | a concrete reversed pair |
| Timestamps.TextLessMeaning | cache.go:126 | texts compare at the first difference; a proper prefix comes first |
| Dates.TextNamesInstant | cache.go:182 | for every instant in range: the text is well formed, and the date and time read from its fields, by a closed formula of the Gregorian calendar, are the instant |
| Dates.RangeOfYears | cache.go:182 | the range is the days of the years 0000 to 9999 |
| Registers.UpsertRefines | cache.go:101-102 | the upsert keeps keys sorted and unique and is a map update |
| Registers.SelectRefines | cache.go:108 | a selection keeps order and is a restriction of the map |
| Registers.RangeCount | cache.go:277-279 | the row count reaches `count` iff the whole range is cached, because keys are unique |
| Registers.ApplyLookup | cache.go:191-198 | what one run of upserts leaves under each key; addresses do not wrap at 16 bits |
| Registers.CommitsLaw | cache.go:184-202 | a transaction commits iff neither its begin, nor any statement, nor its commit fails |
| Registers.UpsertsLaw | cache.go:236-244 | one statement for each register of each write |
| Registers.RegisterCache.constructor | cache.go:88-96 | starts with the rows already in the database; timestamps are RFC3339Nano texts |
| Registers.RegisterCache.ExecRun | cache.go:236-243 | fails exactly if a failing statement lies in its span, else applies the run |
| Registers.RegisterCache.Set | cache.go:181-203 | all of the run with one timestamp if the transaction commits, else no change |
| Registers.RegisterCache.SetFromBytes | cache.go:215-217 | the same for raw bytes |
| Registers.RegisterCache.ExecRuns | cache.go:235-244 | the runs of a batch left to right, or failure exactly at a failing statement among them |
| Registers.RegisterCache.BatchSet | cache.go:221-249 | the writes left to right if the transaction commits, else no change |
| Registers.RegisterCache.ScanRows | cache.go:261-279 | the row loop with its `found` counter and error exits |
| Registers.RegisterCache.Get | cache.go:253-281 | the exact window iff every key in it is present; under any fault that or nothing |
| Registers.RegisterCache.GetBytes | cache.go:285-297 | the same as bytes |
| Registers.RegisterCache.DeleteStale | cache.go:311-320 | removes exactly the entries whose text is below the cutoff's and counts them |
| Registers.RegisterCache.DeleteBelow | cache.go:126 | the statement itself |
| History.ReplayByKey | cache.go:221-249 | whole-table transactions and sweeps act on each key separately: the table holds what the key's author wrote |
| History.PresentIffStands | cache.go:101-102 | a key is present iff it was there at start-up and nothing touched it, or some operation was the last to write it and no later sweep caught it; it has that value and time |
| History.LastCoveringWins | cache.go:235-244 | in one batch the last write covering a key wins |
| History.NoTornValues | cache.go:219-249 | a group that every write covers entirely or not at all is absent, or as found at start-up, or present from one write of one transaction |
| History.OneTimestamp | cache.go:226-244 | such a group stays whole: one timestamp, and swept together or not at all |
| History.AppliedHolds | cache.go:191-198 | after a write its registers are cached |
| History.StaysCached | cache.go:253-281 | a cached range stays cached until a sweep removes one of its rows |
| History.ReadThrough | server.go:155-158 | any sub-range of a committed write is served until a sweep removes a row of it |
| History.ReadThroughValue | server.go:155-158 | with the written value wherever no later transaction wrote |
| Age.BoundedAge | reader.go:263-268 | in every reachable state, age below TTL + 1 s + time since any sweep, for every entry whose transaction, if later than the sweep, waited less than TTL + 1 s for the database |
| Age.BoundedIffPrompt | cache.go:182-184 | a write keeps that bound in every run, wherever sweeps fall, iff it gets the database within TTL + 1 s of reading its clock; the TTL is any number of hours |
| Age.SweepError | cache.go:311-320 | what a sweep surely keeps and surely removes |
| Age.LateRun | cache.go:182-203 | for every longer wait, a reachable run with the entry that is too old |
| Age.SweepStep | cache.go:311-320 | in the running proxy, a sweep removes what is a second or more older than the TTL by the reading it set out with, and keeps what is a second or more younger |
| Age.FlushSetsOut | cache.go:226 | a flush stamps its registers with the clock as it sets out |
| Age.FlushBegins | cache.go:228 | its transaction begins when it gets the connection |
| Age.SweepSetsOut | cache.go:312 | a sweep's cutoff is the clock as it sets out, less the TTL |
| Client.PauseLaw | client.go:48-57 | the pause ends now or `pause` after the last exchange, whichever is later; without one, now |
| Client.InverterClient.EnforcePause | client.go:48-57 | the gap brings the next exchange exactly there, in terms of `lastRead` and `pauseMs` |
| Client.InverterClient.ReadRegisters | client.go:61-70 | one more exchange, with the unit asked for, and the log stays ordered, paced and rightly addressed |
| Client.InverterClient.WriteSingleRegister | client.go:73-82 | the same for a single write |
| Client.InverterClient.WriteMultipleRegisters | client.go:85-94 | the same for a multiple write |
| Client.InverterClient.Complete | client.go:67-69 | the exchange goes to whatever `SlaveId` names, and its end is noted |
| Client.InverterClient.Reconnect | client.go:98-104 | logs a reset and forgets the last exchange |
| Client.ExchangeKeepsLog | client.go:61-70 | an exchange started no earlier than the pause allows keeps the log ordered, paced and rightly addressed |
| Client.ResetKeepsLog | client.go:98-104 | a reset keeps it too |
| Client.PacedApart | client.go:48-57 | pacing between any two exchanges that no reset separates |
| Proxy.InvStep | client.go:61-104 | every step of every thread keeps the locks, the wire discipline, the origin of all samples and the table equal to its history |
| Proxy.InvRun | reader.go:207-272 | so does every schedule |
| Proxy.ReachableInv | reader.go:197-284 | so every reachable state has them |
| Proxy.WireClient | client.go:65-69 | a client step keeps slave id, pause and log right |
| Proxy.TableGrows | cache.go:200-202 | when a transaction or a sweep changes the table, no other thread is inside a scan or a transaction, and the table stays equal to its history |
| Proxy.GatherIsWindow | cache.go:261-279 | a scan row by row yields the window of the table it ran over |
| Interleavings.MutualExclusion | client.go:61-104 | at most one thread at the device, at most one in a transaction or scan: the one recorded as holding the lock |
| Interleavings.DeviceDiscipline | client.go:61-94 | device operations never overlap, go to the caller's unit, and start a pause after the previous exchange |
| Interleavings.PauseStep | client.go:48-57 | the pause of any thread is what is left since the last exchange of any |
| Interleavings.SendStep | client.go:66-68 | a call goes out when its pause is over and not before |
| Interleavings.SubmitStep | server.go:137-149 | a handler reads from the device only the range its lookup has just missed |
| Interleavings.Provenance | reader.go:222-235 | every cached value was found at start-up and not touched since, or was read from, or accepted by, exactly its unit and address |
| Interleavings.SnapshotRead | cache.go:253-281 | a lookup returns the window of one committed table, no older than its request, or nothing if it fails |
| Interleavings.UntornLookup | cache.go:219-220 | a lookup never returns a torn multi-register value: a group that every write covers entirely or not at all is as found at start-up, or from one write that the version looked at holds for all of it |
| Interleavings.StepShape | reader.go:266-272 | a step moves one thread and rewrites no history; the table changes by commits and sweeps only |
| Freshness.OldSamplesShrink | reader.go:213-220 | a flush or drop rids a thread of old samples and no step brings them back |
| Freshness.OutstandingComes | reader.go:271-272 | from any state, a schedule that finishes the lock holders and then puts exactly the last of a thread's unflushed samples of a register into the table |
| Freshness.NoneHoldsOldRun | server.go:183-191 | if no thread is in that position, none ever will be, and a fresh value stays fresh |
| Freshness.StaysFresh | server.go:183-191 | in every reachable state: a fresh value stays fresh under every schedule iff no thread is in that position |
| Freshness.Unloaded | reader.go:271-272 | a thread that has flushed or dropped what it had holds nothing old |
| Freshness.StaleValuesGone | server.go:183-191 | over runs: once every thread with an older sample has flushed or dropped it, and one later batch with the register commits, the cached value is never again one sampled before the write |
| Interleavings.DeadlockFree | cache.go:47 | whatever a busy thread waits for, the thread it waits on can step, or sleeps for at most the pause |
| StaleRead.ReadYourWritesFails | reader.go:271-272 | from any table at start-up, a reachable run in which the cache goes from the accepted value back to the older sample |
| Config.Validate | config.go:102-133 | accepts exactly the good configurations; an error says what is wrong first |
| Config.AcceptedLaw | config.go:102-133 | what is accepted, check by check |
| Config.Split | reader.go:47-54 | the loop yields the two tiers |
| Config.TierKeepsOrder | reader.go:47-54 | a tier lists its groups by increasing position, each once, and no other |
| Config.TiersPermute | reader.go:47-54 | for an accepted configuration the tiers together are a permutation of the groups |
| Config.PairsAt | reader.go:217-218 | group-major, then unit order: all units of a group are consecutive |
| Config.PairsOnce | reader.go:150-154 | distinct units and items give every combination once |
| Config.ScanListComplete | reader.go:145-154 | the scan list holds each unit and group position exactly once |
| Reader.ReadGroup | reader.go:59-122 | outcome and action trace are those of the deciding attempt, for every sequence of answers |
| Reader.ReadGroupTrace | reader.go:59-122 | at most three reads, separated only by completed backoffs; reconnects counted; at most six seconds of backoff; two seconds after a mid-loop reconnect |
| Reader.ReadGroupResult | reader.go:75-121 | success iff some attempt succeeds after only retryable errors; a non-retryable error ends it at once |
| Reader.AttemptLaw | reader.go:68-119 | for each attempt reached, what follows its read, by the four classes of its error: 3 s for busy or timeout, else reconnect and 2 s, reconnect at the end, or nothing |
| Reader.OutcomeLaw | reader.go:59-122 | and what the call returns there, cancellation included |
| Poller.BatchExact | reader.go:222-235 | a batch holds one write per successful read, in read order, and nothing else |
| Poller.PassSplits | reader.go:159-177 | a pass splits its jobs into read and failed |
| Poller.PendingKeepsOrder | reader.go:182 | what stays pending are earlier pending jobs at increasing positions |
| Poller.ScanConserves | reader.go:156-189 | after each pass every entry of the original list has been read exactly once or is pending exactly once |
| Poller.ScanKeepsWork | reader.go:178-182 | every entry is stored by a committed transaction or still pending iff every pass with anything to flush commits it |
| Poller.LostWorkWitness | reader.go:178-182 | a finished scan of one job that was read, is not pending and is not in the table |
| Poller.StoredAt | reader.go:168-178 | a stored entry has a committed pass with the write of its data in its batch |
| Poller.StoredIsCached | reader.go:178 | the registers of that write are in the table after the pass, and stay until written or swept |
| Poller.ScanTries | reader.go:156-189 | each entry is tried once per pass until it is read, and never again |
| Poller.PassesLaw | reader.go:156-189 | a scan is over after three passes, or earlier if nothing is left |
| Poller.ReaderLoop.constructor | reader.go:40-57 | the reader's plan is the split configuration with its intervals in nanoseconds |
| Poller.ReaderLoop.ReadJob | reader.go:222-235 | one readGroup call and what it adds to the batch |
| Poller.ReaderLoop.DoPass | reader.go:156-178 | one pass reads each pending job once and flushes in one transaction |
| Poller.ReaderLoop.CollectPairs | reader.go:149-154 | the loops that build the pending list |
| Poller.ReaderLoop.InitialScan | reader.go:144-193 | chained passes until nothing is pending or three are done, on every pattern of errors |
| Poller.ReaderLoop.PollGroups | reader.go:217-237 | the nested loops read every pair once in order; they stop exactly where cancellation is seen |
| Poller.ReaderLoop.PollCycle | reader.go:212-262 | fast groups always, slow groups iff the interval has elapsed |
| Poller.CycleReadsPlan | reader.go:217-262 | call by call: fast groups in order for all units in turn, then slow ones iff due, one write per answered call with its unit, address and words, and no other |
| Poller.StoppedLaw | reader.go:219-221 | a cycle is cut short iff cancellation is seen at its start or before one of its reads |
| Poller.CycleWrites | reader.go:263-272 | what the cycle writes is in the table at its end with the time of the flush |
| Poller.CycleKeeps | reader.go:263-272 | what it does not write it removes iff slow groups were due and the sweep finds it below the cutoff |
| Poller.ReaderLoop.FinishCycle | reader.go:263-277 | a sweep after slow groups, then one transaction with the whole batch |
| Poller.ReaderLoop.Cycle | reader.go:206-283 | a finished cycle flushes exactly its successful reads; a cancelled one changes nothing |
| Poller.ReaderLoop.Run | reader.go:197-284 | the table and the cycle count after any number of cycles among other threads |
| Poller.SweepSpacing | reader.go:240-268 | consecutive sweeps: at least the interval apart by the reader's stamps; by their own clock readings less than the interval (at most 0, if it is not positive) plus a flush, a fast pass, a slow pass and the time from stamp to sweep apart |
| Poller.FirstSweep | reader.go:204-240 | the first sweep comes in the first cycle that finds the interval elapsed since the loop started |
| Poller.SpacedIff | reader.go:263-266 | however the run goes on, the next sweep is at least the interval later iff no time passed from stamp to sweep or the flush began that late |
| Poller.SweepsTooSoon | reader.go:263-266 | otherwise it can come too soon in a cycle in which every read is answered |
| Poller.CloseSweepsWitness | reader.go:263-266 | for every plan with a positive interval, a run that meets this |
| Frames.SplitStream | server.go:67-120 | a concatenation of good frames is recovered exactly, whatever follows |
| Frames.SplitIsPrefix | server.go:67-120 | what is recovered is a prefix of the stream, ending where no good frame is complete |
| Frames.BadHeaderStops | server.go:90-98 | the first bad header stops all later processing |
| Frames.HeaderMeaning | server.go:85-98 | protocol 0 and length 2 to 256, in terms of the header bytes |
| Frames.ResponseDecodes | server.go:238-284 | every response is one frame with the request's identifiers and a correct length, and decodes to what was encoded |
| Frames.ReadResponseExact | server.go:238-250 | a client gets a read response of any size back as encoded iff it has at most 253 bytes of data |
| Server.Conn.ReadFull | server.go:78 | fills a buffer over any chunking, or fails exactly if the stream is too short |
| Server.SendReadResponse | server.go:238-250 | appends exactly the encoded response |
| Server.SendException | server.go:252-260 | the same, with bit 7 of the function code set |
| Server.SendWriteSingleResponse | server.go:262-272 | the same |
| Server.SendWriteMultipleResponse | server.go:274-284 | the same |
| Server.ModbusServer.HandleReadRegisters | server.go:123-163 | cache, forward or exception, with table, answer and device calls in every case |
| Server.ModbusServer.StoreBytes | server.go:156 | caches raw bytes in one transaction |
| Server.ModbusServer.HandleWriteSingleRegister | server.go:165-195 | forward, then cache and echo, or an exception and no change |
| Server.ModbusServer.HandleWriteMultipleRegisters | server.go:197-234 | the same for many registers, with the 8-bit slice bound of the code |
| Server.ModbusServer.Dispatch | server.go:107-119 | the handler for each function code, illegal function otherwise |
| Server.ModbusServer.NextFrame | server.go:77-105 | takes the next good frame off the stream, or finds there is none |
| Server.ModbusServer.HandleConnection | server.go:63-121 | table and output depend on the byte stream and on what others commit, not on the chunks; every frame is handled in order until the first bad one or cancellation |
| Server.HandledFits | server.go:132-141 | every answer fits one frame |
| Server.OneAnswerEach | server.go:63-121 | the output splits into exactly one answer per handled request, in order, with its transaction and unit |
| Server.AnswerDecodes | server.go:238-284 | each answer decodes to the response to its request |
| Server.CacheHit | server.go:137-143 | a cached range is answered without device traffic or table change |
| Server.ForwardStores | server.go:147-157 | a forwarded read leaves its registers in the table if its transaction commits, and otherwise nothing |
| Server.ServedAfterForward | server.go:145-158 | after a forwarded read whose transaction commits, any sub-range is answered from the cache until a sweep removes a row of it |
| Server.WriteMultipleExact | server.go:203-231 | the slice bound does not overflow; device and cache get exactly the request's registers |
| Requests.ReadLaw | server.go:123-163 | hit, forward or refuse, with calls, answer, code and table in each case, for function codes 3 and 4 |
| Requests.WriteSingleLaw | server.go:165-195 | address and value of the request go to the device, into the echo and into the cache; codes 3 and 4 otherwise |
| Requests.WriteMultipleLaw | server.go:197-234 | the same for many registers |
| Requests.OtherLaw | server.go:115-118 | any other function code gets code 1 and changes nothing |
| Requests.RequestBytes | server.go:77-105 | which bytes of the stream are the next request, and its fields |
| Requests.ResponseBytes | server.go:238-284 | every byte of every response |
| Requests.ChunksConcat | server.go:78 | a stream is the concatenation of its chunks |
| Handlers.HandlerRuns | server.go:107-119 | every request, with other threads running between its lookup, its device call and its transaction: the handler's own steps make exactly the device call, and leave the table, that its specification gives |
| Cycles.ReadGroupRuns | reader.go:59-122 | by its own steps thread 0 makes exactly the reads, with their answers, and the reconnects of a readGroup call, each next read a whole backoff after the exchange or reconnect before it |
| Cycles.ItemsAreTrace | reader.go:59-122 | these are readGroup's trace without its backoffs |
| Cycles.CycleRuns | reader.go:212-272 | a poll cycle is a run of thread 0, whatever time things take: its log shows the cycle's reads and reconnects in order, and it leaves the table of the cycle's specification for the clock readings of the run |
| Cycles.CycleWiresPlan | reader.go:217-262 | a cycle's traffic call by call: fast groups in order for all units in turn, then slow ones iff due |
| Cycles.GroupAsks | reader.go:67 | every read of a call asks for exactly its unit, address and count |
| StatusPage.Place | web.go:143-154 | first match wins, over overlapping and wrapping ranges |
| StatusPage.GroupRange | web.go:104 | a group holds its whole range if its address plus its count is at most 65535, and nothing otherwise |
| StatusPage.Assign | web.go:109-155 | every bucket of every unit gets its registers in table order |
| StatusPage.BucketsPartition | web.go:127-155 | every register of a unit is in exactly one bucket |
| StatusPage.MembersInOrder | web.go:127-155 | a bucket lists exactly its registers, at increasing positions of the table |
| StatusPage.PageInOrder | web.go:127-155 | so by increasing key |

## Left out

- Sockets, HTTP, the HTML template, logging, signals, YAML and JSON parsing: libraries; their results are inputs here.
- SQLite internals, pragmas, schema migration, prepared statements, `Close`, `Size`, `All`: only what the SQL statements mean, and transaction atomicity, is modelled.
- The goburrow client and Go's error wrapping: an answer is data or an error with four possibly overlapping classes.
- `ListenAndServe` and `main`: connections exist from the start as idle threads; start-up order is not modelled.
- The register name table, dashboard decoding and `defaultRegisterGroups`: finite data and display code.
- `LoadHAOptions`: it does not reject duplicate unit ids, so the uniqueness of the scan list is not claimed for it.
- `lastCycleTime`, `lastCycleDur` and `Stats`: readings for display.
- The status page's final list of active groups and dashboards: display code.
- Liveness and fairness: only safety, bounds and the absence of deadlock are proved.
- 64-bit overflow of durations computed from configuration values: intervals are unbounded integers here.
- Handlers.HandlerRuns: other threads run between the three stretches of a handler and not inside one; `Proxy` interleaves every step.
- Cycles.CycleRuns: for a poller that nobody interrupts.
- Poller.ReaderLoop.Run: covers any finite number of cycles of the endless loop.
- Timestamps.TextOrder: years outside 0000 to 9999, whose text is not four digits, are not covered.
