/**
 The proxy as a step system: one poller (thread 0) and any number of connection handlers share
 the client mutex, the client's `SlaveId` and `lastRead`, the single database connection and
 the register table. Every step is one action of one thread, picked by the scheduler; device
 replies, the passing of time and the failures of the database come with the action. A handler
 or poller here may do more than the code does: the poller reads, sweeps and flushes what it
 likes, in any order.
 */
module Proxy {
  import opened Words
  import opened Timestamps
  import opened Registers
  import opened History
  import opened Client

  datatype Query = Query(unit: uint8, address: uint16, count: uint16)

  /** Where a thread stands. */
  datatype Pc =
    | Ready
    // cache lookup
    | WantScan(q: Query, since: nat)                       // waits for the connection
    | Scanning(q: Query, since: nat, version: nat, got: seq<Option<uint16>>)
    | Answered(q: Query, since: nat, version: nat, failed: bool, result: Option<seq<uint16>>)
    // device call
    | WantClient(call: Call)                               // waits for the mutex
    | Locked(call: Call)
    | Addressed(call: Call)                                // SlaveId is set
    | Pausing(call: Call, until: int)                      // in enforcePause
    | OnWire(call: Call, start: int)
    | Replied(call: Call, event: nat)                      // before lastRead is noted and the mutex released
    | WantReset
    | Resetting
    // cache update
    | WantCommit(at: nat, stamp: string)                   // clock read, waits for the connection
    | InTx(at: nat, stamp: string, begun: nat, done: nat, tx: Store)
    | WantSweep(at: nat, cutoff: string)                   // clock read, waits for the connection
    | Asleep(until: int)

  /** `batch` holds what the thread has read or written but not yet put into the table. */
  datatype Thread = Thread(pc: Pc, batch: seq<Sample>)

  /** When an operation on the table read its clock, and when it got the connection. */
  datatype OpTime = OpTime(at: nat, begun: nat)

  datatype State = State(
    pause: int, ttl: int,
    threads: seq<Thread>,
    now: nat,
    mutex: Option<nat>, slaveId: uint8, lastRead: Option<int>,
    conn: Option<nat>, table: Store,
    initial: Store,                                        // the table found at start-up
    committed: seq<CacheOp>, clocks: seq<OpTime>,          // history of the table
    log: seq<Event>)                                       // history of the device connection

  datatype Action =
    | Tick(d: nat)
    | Ask(q: Query) | OpenScan | ScanRow | CloseScan | FailScan
    | Submit(call: Call) | Lock | SetSlave | Pause | Send | Receive(reply: Reply) | Unlock
    | AskReset | LockReset | DoReset
    | StartFlush | BeginTx | ExecWrite | CommitTx | Rollback | Drop
    | StartSweep | DoSweep | FailSweep
    | Nap(d: nat) | Wake

  function Set(s: State, i: nat, t: Thread): State
    requires i < |s.threads|
  {
    s.(threads := s.threads[i := t])
  }

  function Goto(s: State, i: nat, pc: Pc): State
    requires i < |s.threads|
  {
    Set(s, i, s.threads[i].(pc := pc))
  }

  predicate IsPoller(i: nat) { i == 0 }

  /** What a successful exchange puts into the cache. */
  function WriteOf(call: Call, data: seq<uint8>): PendingWrite {
    match call
    case Read(unit, address, _) => PendingWrite(unit, address, WordsOf(data))
    case WriteSingle(unit, address, value) => PendingWrite(unit, address, [value])
    case WriteMultiple(unit, address, _, payload) => PendingWrite(unit, address, WordsOf(payload))
  }

  predicate MaySubmit(i: nat, t: Thread, call: Call) {
    if IsPoller(i) then t.pc.Ready? && call.Read?
    else if call.Read? then
      // only forwarded after a miss of exactly this range
      t.pc.Answered? && t.pc.result.None? && t.batch == [] && call == Read(t.pc.q.unit, t.pc.q.address, t.pc.q.count)
    else t.pc.Ready? && t.batch == []
  }

  /** A successful read returns exactly the registers asked for. */
  predicate PossibleReply(call: Call, reply: Reply) {
    call.Read? && reply.Data? ==> |reply.bytes| == 2 * call.count
  }

  function Cell(m: Store, k: Key): Option<uint16> { if k in m then Some(m[k].value) else None }

  /** nil unless every register of the range was found */
  function Gather(got: seq<Option<uint16>>): (r: Option<seq<uint16>>)
    ensures r.Some? <==> forall i :: 0 <= i < |got| ==> got[i].Some?
    ensures r.Some? ==> |r.value| == |got| && forall i :: 0 <= i < |got| ==> got[i] == Some(r.value[i])
  {
    if got == [] then Some([])
    else
      var front := Gather(got[..|got| - 1]);
      if front.Some? && got[|got| - 1].Some? then Some(front.value + [got[|got| - 1].value]) else None
  }

  // ---------- steps ----------

  function LookupStep(s: State, i: nat, a: Action): Option<State>
    requires i < |s.threads|
  {
    var t := s.threads[i];
    match (a, t.pc)
    case (Ask(q), Ready) =>
      if IsPoller(i) || t.batch != [] then None else Some(Goto(s, i, WantScan(q, |s.committed|)))
    case (OpenScan, WantScan(q, since)) =>
      if s.conn.Some? then None
      else Some(Goto(s, i, Scanning(q, since, |s.committed|, [])).(conn := Some(i)))
    case (ScanRow, Scanning(q, since, version, got)) =>
      if |got| >= q.count then None
      else Some(Goto(s, i, Scanning(q, since, version, got + [Cell(s.table, Key(q.unit, q.address + |got|))])))
    case (CloseScan, Scanning(q, since, version, got)) =>
      if |got| < q.count then None
      else Some(Goto(s, i, Answered(q, since, version, false, Gather(got))).(conn := None))
    case (FailScan, WantScan(q, since)) =>
      Some(Goto(s, i, Answered(q, since, since, true, None)))
    case (FailScan, Scanning(q, since, version, _)) =>
      Some(Goto(s, i, Answered(q, since, version, true, None)).(conn := None))
    case _ => None
  }

  function ClientStep(s: State, i: nat, a: Action): Option<State>
    requires i < |s.threads|
  {
    var t := s.threads[i];
    match (a, t.pc)
    case (Submit(call), _) =>
      if MaySubmit(i, t, call) then Some(Goto(s, i, WantClient(call))) else None
    case (Lock, WantClient(call)) =>
      if s.mutex.Some? then None else Some(Goto(s, i, Locked(call)).(mutex := Some(i)))
    case (SetSlave, Locked(call)) =>
      Some(Goto(s, i, Addressed(call)).(slaveId := call.unit))
    case (Pause, Addressed(call)) =>
      Some(Goto(s, i, Pausing(call, PauseEnd(s.lastRead, s.pause, s.now))))
    case (Send, Pausing(call, until)) =>
      if s.now < until then None else Some(Goto(s, i, OnWire(call, s.now)))
    case (Receive(reply), OnWire(call, start)) =>
      if !PossibleReply(call, reply) then None
      else Some(Goto(s, i, Replied(call, |s.log|)).(log := s.log + [Exchange(call, s.slaveId, start, s.now, reply)]))
    case (Unlock, Replied(call, event)) =>
      if event >= |s.log| || !s.log[event].Exchange? then None
      else
        var sampled := match s.log[event].reply
                       case Data(bytes) => [Sample(WriteOf(call, bytes), event)]
                       case Failed(_) => [];
        Some(Set(s, i, Thread(Ready, t.batch + sampled)).(mutex := None, lastRead := Some(s.now)))
    case (AskReset, Ready) =>
      if IsPoller(i) then Some(Goto(s, i, WantReset)) else None
    case (LockReset, WantReset) =>
      if s.mutex.Some? then None else Some(Goto(s, i, Resetting).(mutex := Some(i)))
    case (DoReset, Resetting) =>
      Some(Goto(s, i, Ready).(mutex := None, lastRead := None, log := s.log + [Reset(s.now)]))
    case (Nap(d), Ready) =>
      if IsPoller(i) then Some(Goto(s, i, Asleep(s.now + d))) else None
    case (Wake, Asleep(until)) =>
      Some(Goto(s, i, Ready))                              // a cancelled context wakes early
    case _ => None
  }

  function TableStep(s: State, i: nat, a: Action): Option<State>
    requires i < |s.threads|
  {
    var t := s.threads[i];
    match (a, t.pc)
    case (StartFlush, Ready) =>
      if t.batch == [] then None else Some(Goto(s, i, WantCommit(s.now, Format(s.now))))
    case (BeginTx, WantCommit(at, stamp)) =>
      if s.conn.Some? then None else Some(Goto(s, i, InTx(at, stamp, s.now, 0, s.table)).(conn := Some(i)))
    case (ExecWrite, InTx(at, stamp, begun, done, tx)) =>
      if done >= |t.batch| then None
      else Some(Goto(s, i, InTx(at, stamp, begun, done + 1, Apply(tx, t.batch[done].write, stamp))))
    case (CommitTx, InTx(at, stamp, begun, done, tx)) =>
      if done < |t.batch| then None
      else Some(Set(s, i, Thread(Ready, [])).(conn := None, table := tx,
                                               committed := s.committed + [Commit(t.batch, stamp)],
                                               clocks := s.clocks + [OpTime(at, begun)]))
    case (Rollback, WantCommit(_, _)) => Some(Set(s, i, Thread(Ready, [])))
    case (Rollback, InTx(_, _, _, _, _)) => Some(Set(s, i, Thread(Ready, [])).(conn := None))
    case (Drop, Ready) => Some(Set(s, i, Thread(Ready, [])))
    case (Drop, Answered(_, _, _, _, _)) => Some(Set(s, i, Thread(Ready, [])))
    case (StartSweep, Ready) =>
      if IsPoller(i) && s.now >= s.ttl then Some(Goto(s, i, WantSweep(s.now, Format(s.now - s.ttl)))) else None
    case (DoSweep, WantSweep(at, cutoff)) =>
      if s.conn.Some? then None
      else Some(Goto(s, i, Ready).(table := Sweep(s.table, cutoff),
                                   committed := s.committed + [Expire(cutoff)],
                                   clocks := s.clocks + [OpTime(at, s.now)]))
    case (FailSweep, WantSweep(_, _)) => Some(Goto(s, i, Ready))
    case _ => None
  }

  predicate IsLookup(a: Action) { a.Ask? || a.OpenScan? || a.ScanRow? || a.CloseScan? || a.FailScan? }

  predicate IsUpdate(a: Action) {
    || a.StartFlush? || a.BeginTx? || a.ExecWrite? || a.CommitTx? || a.Rollback? || a.Drop?
    || a.StartSweep? || a.DoSweep? || a.FailSweep?
  }

  function Next(s: State, i: nat, a: Action): Option<State> {
    if a.Tick? then Some(s.(now := s.now + a.d))
    else if i >= |s.threads| then None
    else if IsLookup(a) then LookupStep(s, i, a)
    else if IsUpdate(a) then TableStep(s, i, a)
    else ClientStep(s, i, a)
  }

  /** Every thread idle, and the table as an earlier process left it. */
  function Init(pause: int, ttl: int, threads: nat, now: nat, table: Store): State {
    State(pause, ttl, seq(threads, _ => Thread(Ready, [])), now, None, 0, None, None, table, table, [], [], [])
  }

  /** The state after a schedule, if every step of it was possible. */
  function Run(s: State, schedule: seq<(nat, Action)>): Option<State>
    decreases |schedule|
  {
    if schedule == [] then Some(s)
    else match Next(s, schedule[0].0, schedule[0].1)
         case None => None
         case Some(s') => Run(s', schedule[1..])
  }

  // ---------- locks ----------

  predicate HoldsClient(pc: Pc) {
    pc.Locked? || pc.Addressed? || pc.Pausing? || pc.OnWire? || pc.Replied? || pc.Resetting?
  }

  predicate HoldsConn(pc: Pc) { pc.Scanning? || pc.InTx? }

  /** Exactly the recorded holder is inside each critical section. */
  ghost predicate LockInv(s: State) {
    && (s.mutex.Some? ==> s.mutex.value < |s.threads|)
    && (s.conn.Some? ==> s.conn.value < |s.threads|)
    && (forall i :: 0 <= i < |s.threads| ==> (HoldsClient(s.threads[i].pc) <==> s.mutex == Some(i)))
    && (forall i :: 0 <= i < |s.threads| ==> (HoldsConn(s.threads[i].pc) <==> s.conn == Some(i)))
  }

  /** The lock state after thread i moves to `t`. */
  function Relock(lock: Option<nat>, i: nat, held: bool): Option<nat> {
    if held then Some(i) else if lock == Some(i) then None else lock
  }

  lemma LockUpdate(s: State, s': State, i: nat, t: Thread)
    requires LockInv(s) && i < |s.threads| && s'.threads == s.threads[i := t]
    requires HoldsClient(t.pc) ==> s.mutex == None || s.mutex == Some(i)
    requires HoldsConn(t.pc) ==> s.conn == None || s.conn == Some(i)
    requires s'.mutex == Relock(s.mutex, i, HoldsClient(t.pc))
    requires s'.conn == Relock(s.conn, i, HoldsConn(t.pc))
    ensures LockInv(s')
  {
  }

  lemma LockLookup(s: State, i: nat, a: Action)
    requires LockInv(s) && i < |s.threads| && LookupStep(s, i, a).Some?
    ensures LockInv(LookupStep(s, i, a).value)
  {
    var s' := LookupStep(s, i, a).value;
    LockUpdate(s, s', i, s'.threads[i]);
  }

  lemma LockClient(s: State, i: nat, a: Action)
    requires LockInv(s) && i < |s.threads| && ClientStep(s, i, a).Some?
    ensures LockInv(ClientStep(s, i, a).value)
  {
    var s' := ClientStep(s, i, a).value;
    LockUpdate(s, s', i, s'.threads[i]);
  }

  lemma LockTable(s: State, i: nat, a: Action)
    requires LockInv(s) && i < |s.threads| && TableStep(s, i, a).Some?
    ensures LockInv(TableStep(s, i, a).value)
  {
    hide Format, Apply, Sweep;
    var s' := TableStep(s, i, a).value;
    LockUpdate(s, s', i, s'.threads[i]);
  }

  // ---------- the device connection ----------

  ghost predicate HolderOk(s: State, pc: Pc) {
    match pc
    case Addressed(call) => s.slaveId == call.unit
    case Pausing(call, until) =>
      && s.slaveId == call.unit && until <= s.now + (if s.pause > 0 then s.pause else 0)
      && (s.lastRead.Some? ==> s.lastRead.value + s.pause <= until)
    case OnWire(call, start) =>
      && s.slaveId == call.unit && start <= s.now
      && (LastEnd(s.log).Some? ==> LastEnd(s.log).value <= start)
      && (s.lastRead.Some? ==> s.lastRead.value + s.pause <= start)
    case Replied(call, event) =>
      event + 1 == |s.log| && s.log[event].Exchange? && s.log[event].call == call
    case _ => true
  }

  predicate InReply(s: State) {
    s.mutex.Some? && s.mutex.value < |s.threads| && s.threads[s.mutex.value].pc.Replied?
  }

  ghost predicate WireInv(s: State) {
    && GoodLog(s.log, s.pause)
    && (LastEnd(s.log).Some? ==> LastEnd(s.log).value <= s.now)
    && (s.lastRead.Some? ==> s.lastRead.value <= s.now)
    && (s.mutex.Some? && s.mutex.value < |s.threads| ==> HolderOk(s, s.threads[s.mutex.value].pc))
    && (!InReply(s) ==> Remembers(s.log, s.lastRead))
  }

  lemma WireFrame(s: State, s': State, i: nat, t: Thread)
    requires LockInv(s) && WireInv(s) && i < |s.threads| && s'.threads == s.threads[i := t]
    requires s'.mutex == s.mutex && s'.slaveId == s.slaveId && s'.lastRead == s.lastRead && s'.log == s.log
    requires s'.pause == s.pause && s'.now == s.now
    requires !HoldsClient(s.threads[i].pc)
    ensures WireInv(s')
  {
  }

  lemma WireReceive(s: State, i: nat, reply: Reply)
    requires LockInv(s) && WireInv(s) && i < |s.threads| && ClientStep(s, i, Receive(reply)).Some?
    ensures WireInv(ClientStep(s, i, Receive(reply)).value)
  {
    hide Ordered, Paced, RightUnit, WriteOf, PossibleReply, PauseEnd, MaySubmit;
    var pc := s.threads[i].pc;
    ExchangeKeepsLog(s.log, s.pause, s.lastRead, Exchange(pc.call, s.slaveId, pc.start, s.now, reply));
  }

  lemma WireReset(s: State, i: nat)
    requires LockInv(s) && WireInv(s) && i < |s.threads| && ClientStep(s, i, DoReset).Some?
    ensures WireInv(ClientStep(s, i, DoReset).value)
  {
    hide Ordered, Paced, RightUnit, WriteOf, PossibleReply, PauseEnd, MaySubmit;
    ResetKeepsLog(s.log, s.pause, s.now);
  }

  lemma WireClient(s: State, i: nat, a: Action)
    requires LockInv(s) && WireInv(s) && i < |s.threads| && ClientStep(s, i, a).Some?
    ensures WireInv(ClientStep(s, i, a).value)
  {
    hide Ordered, Paced, RightUnit, WriteOf, PossibleReply;
    var s' := ClientStep(s, i, a).value;
    if a.Receive? {
      WireReceive(s, i, a.reply);
    } else if a.DoReset? {
      WireReset(s, i);
    } else if !HoldsClient(s.threads[i].pc) && s'.mutex == s.mutex {
      WireFrame(s, s', i, s'.threads[i]);
    }
  }

  lemma WireLookup(s: State, i: nat, a: Action)
    requires LockInv(s) && WireInv(s) && i < |s.threads| && LookupStep(s, i, a).Some?
    ensures WireInv(LookupStep(s, i, a).value)
  {
    var s' := LookupStep(s, i, a).value;
    WireFrame(s, s', i, s'.threads[i]);
  }

  lemma WireTable(s: State, i: nat, a: Action)
    requires LockInv(s) && WireInv(s) && i < |s.threads| && TableStep(s, i, a).Some?
    ensures WireInv(TableStep(s, i, a).value)
  {
    hide Format, Apply, Sweep, Ordered, Paced, RightUnit;
    var s' := TableStep(s, i, a).value;
    WireFrame(s, s', i, s'.threads[i]);
  }

  // ---------- where values come from ----------

  predicate FromLog(log: seq<Event>, x: Sample) {
    && x.source < |log| && log[x.source].Exchange? && log[x.source].reply.Data?
    && x.write == WriteOf(log[x.source].call, log[x.source].reply.bytes)
  }

  predicate AllFromLog(log: seq<Event>, xs: seq<Sample>) {
    forall j :: 0 <= j < |xs| ==> FromLog(log, xs[j])
  }

  ghost predicate SourceInv(s: State) {
    && (forall i :: 0 <= i < |s.threads| ==> AllFromLog(s.log, s.threads[i].batch))
    && (forall c :: 0 <= c < |s.committed| && s.committed[c].Commit? ==> AllFromLog(s.log, s.committed[c].samples))
  }

  lemma SourceClient(s: State, i: nat, a: Action)
    requires LockInv(s) && WireInv(s) && SourceInv(s) && i < |s.threads| && ClientStep(s, i, a).Some?
    ensures SourceInv(ClientStep(s, i, a).value)
  {
    hide GoodLog, WordsOf, MaySubmit, PossibleReply, PauseEnd, Remembers;
    var s' := ClientStep(s, i, a).value;
    assert forall xs :: AllFromLog(s.log, xs) ==> AllFromLog(s'.log, xs);
  }

  lemma SourceLookup(s: State, i: nat, a: Action)
    requires SourceInv(s) && i < |s.threads| && LookupStep(s, i, a).Some?
    ensures SourceInv(LookupStep(s, i, a).value)
  {
  }

  lemma SourceTable(s: State, i: nat, a: Action)
    requires SourceInv(s) && i < |s.threads| && TableStep(s, i, a).Some?
    ensures SourceInv(TableStep(s, i, a).value)
  {
    hide Format, Apply, Sweep;
  }

  // ---------- the table ----------

  ghost predicate ThreadOk(s: State, t: Thread) {
    match t.pc
    case InTx(_, stamp, _, done, tx) => done <= |t.batch| && tx == ApplyAll(s.table, Writes(t.batch[..done]), stamp)
    case WantScan(q, since) => t.batch == [] && since <= |s.committed|
    case Scanning(q, since, version, got) =>
      && t.batch == [] && since <= version == |s.committed| && |got| <= q.count
      && forall j :: 0 <= j < |got| ==> got[j] == Cell(s.table, Key(q.unit, q.address + j))
    case Answered(q, since, version, failed, result) =>
      && t.batch == [] && since <= version <= |s.committed|
      && result == if failed then None
                   else Window(Replay(s.initial, s.committed[..version]), q.unit, q.address, q.count)
    case _ => true
  }

  ghost predicate TableInv(s: State) {
    && s.table == Replay(s.initial, s.committed)
    && forall i :: 0 <= i < |s.threads| ==> ThreadOk(s, s.threads[i])
  }

  lemma GatherIsWindow(m: Store, q: Query, got: seq<Option<uint16>>)
    requires |got| == q.count && forall j :: 0 <= j < |got| ==> got[j] == Cell(m, Key(q.unit, q.address + j))
    ensures Gather(got) == Window(m, q.unit, q.address, q.count)
  {
    if Gather(got).Some? {
      forall a | q.address <= a < q.address + q.count
        ensures Key(q.unit, a) in m && m[Key(q.unit, a)].value == Gather(got).value[a - q.address]
      {
        assert got[a - q.address] == Cell(m, Key(q.unit, q.address + (a - q.address)));
      }
      WindowIs(m, q.unit, q.address, Gather(got).value);
    } else {
      var j :| 0 <= j < |got| && got[j].None?;
      assert Key(q.unit, q.address + j) !in m;
    }
  }

  lemma TableFrame(s: State, s': State, i: nat, t: Thread)
    requires TableInv(s) && i < |s.threads| && s'.threads == s.threads[i := t]
    requires s'.table == s.table && s'.committed == s.committed && s'.initial == s.initial
    requires ThreadOk(s', t)
    ensures TableInv(s')
  {
    forall j | 0 <= j < |s'.threads|
      ensures ThreadOk(s', s'.threads[j])
    {
      assert j != i ==> ThreadOk(s, s.threads[j]);
    }
  }

  lemma TableLookup(s: State, i: nat, a: Action)
    requires TableInv(s) && i < |s.threads| && LookupStep(s, i, a).Some?
    ensures TableInv(LookupStep(s, i, a).value)
  {
    var s' := LookupStep(s, i, a).value;
    var pc := s.threads[i].pc;
    assert ThreadOk(s, s.threads[i]);
    if a.CloseScan? {
      GatherIsWindow(s.table, pc.q, pc.got);
      assert s.committed[..|s.committed|] == s.committed;
    }
    TableFrame(s, s', i, s'.threads[i]);
  }

  lemma ApplyNext(m: Store, xs: seq<Sample>, n: nat, stamp: string)
    requires n < |xs|
    ensures ApplyAll(m, Writes(xs[..n + 1]), stamp) == Apply(ApplyAll(m, Writes(xs[..n]), stamp), xs[n].write, stamp)
  {
    hide Apply;
    assert xs[..n + 1][..n] == xs[..n];
    assert Writes(xs[..n + 1])[..n] == Writes(xs[..n]);
  }

  lemma TableTx(s: State, i: nat, a: Action)
    requires TableInv(s) && i < |s.threads| && TableStep(s, i, a).Some?
    requires TableStep(s, i, a).value.committed == s.committed
    ensures TableInv(TableStep(s, i, a).value)
  {
    hide Format, Apply, Sweep, Window, Cell, Replay, Writes;
    var s' := TableStep(s, i, a).value;
    var t := s.threads[i];
    assert ThreadOk(s, t);
    if a.ExecWrite? {
      ApplyNext(s.table, t.batch, t.pc.done, t.pc.stamp);
    } else if a.BeginTx? {
      assert Writes(t.batch[..0]) == [];
    }
    TableFrame(s, s', i, s'.threads[i]);
  }

  /** Nobody is inside a transaction or a scan when the history grows. */
  lemma TableGrows(s: State, s': State, i: nat, t: Thread, op: CacheOp)
    requires LockInv(s) && TableInv(s) && i < |s.threads| && s'.threads == s.threads[i := t] && t.pc.Ready?
    requires s.conn.Some? ==> s.conn == Some(i)
    requires s'.committed == s.committed + [op] && s'.table == Effect(s.table, op) && s'.initial == s.initial
    ensures TableInv(s') && forall j :: 0 <= j < |s.threads| && j != i ==> !HoldsConn(s.threads[j].pc)
  {
    ReplayAppend(s.initial, s.committed, op);
    forall j | 0 <= j < |s'.threads|
      ensures ThreadOk(s', s'.threads[j])
    {
      if j != i {
        assert ThreadOk(s, s.threads[j]) && !HoldsConn(s.threads[j].pc);
        if s.threads[j].pc.Answered? {
          var version := s.threads[j].pc.version;
          assert s'.committed[..version] == s.committed[..version];
        }
      }
    }
  }

  lemma TableClient(s: State, i: nat, a: Action)
    requires TableInv(s) && i < |s.threads| && ClientStep(s, i, a).Some?
    ensures TableInv(ClientStep(s, i, a).value)
  {
    var s' := ClientStep(s, i, a).value;
    TableFrame(s, s', i, s'.threads[i]);
  }

  lemma TableUpdate(s: State, i: nat, a: Action)
    requires LockInv(s) && TableInv(s) && i < |s.threads| && TableStep(s, i, a).Some?
    ensures TableInv(TableStep(s, i, a).value)
  {
    hide Format;
    var s' := TableStep(s, i, a).value;
    var t := s.threads[i];
    assert ThreadOk(s, t);
    if a.CommitTx? {
      assert t.batch[..t.pc.done] == t.batch;
      TableGrows(s, s', i, s'.threads[i], Commit(t.batch, t.pc.stamp));
    } else if a.DoSweep? {
      TableGrows(s, s', i, s'.threads[i], Expire(t.pc.cutoff));
    } else {
      TableTx(s, i, a);
    }
  }

  // ---------- clock readings ----------

  /** All of `clocks` got the connection by `begun`. */
  predicate AllBegun(clocks: seq<OpTime>, begun: nat) {
    forall c :: 0 <= c < |clocks| ==> clocks[c].begun <= begun
  }

  ghost predicate PcTimes(s: State, pc: Pc) {
    match pc
    case WantCommit(at, stamp) => stamp == Format(at) && at <= s.now
    case InTx(at, stamp, begun, _, _) => stamp == Format(at) && at <= begun <= s.now && AllBegun(s.clocks, begun)
    case WantSweep(at, cutoff) => s.ttl <= at <= s.now && cutoff == Format(at - s.ttl)
    case _ => true
  }

  /** What operation `op` on the table wrote or compared with is what its clock reading says. */
  ghost predicate OpTimes(op: CacheOp, time: OpTime, ttl: int) {
    && time.at <= time.begun
    && (op.Commit? ==> op.stamp == Format(time.at))
    && (op.Expire? ==> ttl <= time.at && op.cutoff == Format(time.at - ttl))
  }

  /** The history of the table is in the order in which its operations got the connection. */
  ghost predicate TimeInv(s: State) {
    && |s.clocks| == |s.committed| && AllBegun(s.clocks, s.now)
    && (forall c :: 0 <= c < |s.clocks| ==> OpTimes(s.committed[c], s.clocks[c], s.ttl))
    && (forall c, d :: 0 <= c < d < |s.clocks| ==> s.clocks[c].begun <= s.clocks[d].begun)
    && (forall i :: 0 <= i < |s.threads| ==> PcTimes(s, s.threads[i].pc))
  }

  lemma TimeFrame(s: State, s': State, i: nat, t: Thread)
    requires TimeInv(s) && i < |s.threads| && s'.threads == s.threads[i := t]
    requires s'.clocks == s.clocks && s'.committed == s.committed && s'.ttl == s.ttl && s'.now == s.now
    requires PcTimes(s', t.pc)
    ensures TimeInv(s')
  {
    hide Format;
    forall j | 0 <= j < |s'.threads|
      ensures PcTimes(s', s'.threads[j].pc)
    {
      assert j != i ==> PcTimes(s, s.threads[j].pc);
    }
  }

  lemma TimeGrows(s: State, s': State, i: nat, t: Thread, op: CacheOp, time: OpTime)
    requires LockInv(s) && TimeInv(s) && i < |s.threads| && s'.threads == s.threads[i := t] && t.pc.Ready?
    requires s.conn.Some? ==> s.conn == Some(i)
    requires s'.committed == s.committed + [op] && s'.clocks == s.clocks + [time] && s'.ttl == s.ttl && s'.now == s.now
    requires OpTimes(op, time, s.ttl) && AllBegun(s.clocks, time.begun) && time.begun <= s.now
    ensures TimeInv(s')
  {
    hide Format;
    forall j | 0 <= j < |s'.threads|
      ensures PcTimes(s', s'.threads[j].pc)
    {
      if j != i {
        assert PcTimes(s, s.threads[j].pc) && !HoldsConn(s.threads[j].pc);
      }
    }
  }

  lemma TimeUpdate(s: State, i: nat, a: Action)
    requires LockInv(s) && TimeInv(s) && i < |s.threads| && TableStep(s, i, a).Some?
    ensures TimeInv(TableStep(s, i, a).value)
  {
    hide Format, Apply, Sweep;
    var s' := TableStep(s, i, a).value;
    var t := s.threads[i];
    assert PcTimes(s, t.pc);
    if a.CommitTx? {
      TimeGrows(s, s', i, s'.threads[i], Commit(t.batch, t.pc.stamp), OpTime(t.pc.at, t.pc.begun));
    } else if a.DoSweep? {
      TimeGrows(s, s', i, s'.threads[i], Expire(t.pc.cutoff), OpTime(t.pc.at, s.now));
    } else {
      TimeFrame(s, s', i, s'.threads[i]);
    }
  }

  lemma TimeLookup(s: State, i: nat, a: Action)
    requires TimeInv(s) && i < |s.threads| && LookupStep(s, i, a).Some?
    ensures TimeInv(LookupStep(s, i, a).value)
  {
    var s' := LookupStep(s, i, a).value;
    TimeFrame(s, s', i, s'.threads[i]);
  }

  lemma TimeClient(s: State, i: nat, a: Action)
    requires TimeInv(s) && i < |s.threads| && ClientStep(s, i, a).Some?
    ensures TimeInv(ClientStep(s, i, a).value)
  {
    var s' := ClientStep(s, i, a).value;
    TimeFrame(s, s', i, s'.threads[i]);
  }

  // ---------- every reachable state ----------

  ghost predicate Inv(s: State) {
    LockInv(s) && WireInv(s) && SourceInv(s) && TableInv(s) && TimeInv(s)
  }

  lemma WireTick(s: State, d: nat)
    requires WireInv(s)
    ensures WireInv(s.(now := s.now + d))
  {
    hide Ordered, Paced, RightUnit;
  }

  lemma TableTick(s: State, d: nat)
    requires TableInv(s)
    ensures TableInv(s.(now := s.now + d))
  {
    hide ApplyAll, Replay, Window;
    assert forall t :: ThreadOk(s, t) ==> ThreadOk(s.(now := s.now + d), t);
  }

  lemma TimeTick(s: State, d: nat)
    requires TimeInv(s)
    ensures TimeInv(s.(now := s.now + d))
  {
    hide Format;
    assert forall pc :: PcTimes(s, pc) ==> PcTimes(s.(now := s.now + d), pc);
  }

  lemma InvTick(s: State, d: nat)
    requires Inv(s)
    ensures Inv(s.(now := s.now + d))
  {
    hide WireInv, TableInv, TimeInv, AllFromLog, HoldsClient, HoldsConn;
    WireTick(s, d);
    TableTick(s, d);
    TimeTick(s, d);
  }

  lemma InvStep(s: State, i: nat, a: Action)
    requires Inv(s) && Next(s, i, a).Some?
    ensures Inv(Next(s, i, a).value)
  {
    hide LockInv, WireInv, SourceInv, TableInv, TimeInv, LookupStep, ClientStep, TableStep;
    if a.Tick? {
      InvTick(s, a.d);
    } else if IsLookup(a) {
      LockLookup(s, i, a);
      WireLookup(s, i, a);
      SourceLookup(s, i, a);
      TableLookup(s, i, a);
      TimeLookup(s, i, a);
    } else if IsUpdate(a) {
      LockTable(s, i, a);
      WireTable(s, i, a);
      SourceTable(s, i, a);
      TableUpdate(s, i, a);
      TimeUpdate(s, i, a);
    } else {
      LockClient(s, i, a);
      WireClient(s, i, a);
      SourceClient(s, i, a);
      TableClient(s, i, a);
      TimeClient(s, i, a);
    }
  }

  lemma {:induction false} InvRun(s: State, schedule: seq<(nat, Action)>)
    requires Inv(s) && Run(s, schedule).Some?
    ensures Inv(Run(s, schedule).value)
    decreases |schedule|
  {
    if schedule != [] {
      InvStep(s, schedule[0].0, schedule[0].1);
      InvRun(Next(s, schedule[0].0, schedule[0].1).value, schedule[1..]);
    }
  }

  ghost predicate Reachable(s: State) {
    exists pause, ttl, threads: nat, now: nat, table, schedule ::
      Run(Init(pause, ttl, threads, now, table), schedule) == Some(s)
  }

  lemma InitInv(pause: int, ttl: int, threads: nat, now: nat, table: Store)
    ensures Inv(Init(pause, ttl, threads, now, table))
  {
    hide Format, Apply, Window;
  }

  lemma ReachableInv(s: State)
    requires Reachable(s)
    ensures Inv(s)
  {
    hide Inv, Init, Run;
    var pause, ttl, threads: nat, now: nat, table, schedule :|
      Run(Init(pause, ttl, threads, now, table), schedule) == Some(s);
    InitInv(pause, ttl, threads, now, table);
    InvRun(Init(pause, ttl, threads, now, table), schedule);
  }
}
