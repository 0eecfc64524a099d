/**
 The reader as thread 0 of the step system: one call of readGroup, with its retries, reconnects
 and backoffs, and one whole poll cycle are runs of Proxy by that thread alone, and take the time
 that the pauses, the device and the backoffs take.
 */
module Cycles {
  import opened Words
  import opened Timestamps
  import opened Registers
  import opened History
  import opened Client
  import opened Proxy
  import opened Schedules
  import opened Config
  import opened Reader
  import opened Poller

  /** The poller between two actions. */
  predicate IdlePoller(s: State) { Quiet(s) && s.threads != [] && s.threads[0].pc.Ready? }

  /** Only the poller's batch, the clock, the client and its log have changed. */
  ghost predicate Polled(s: State, s': State) {
    && IdlePoller(s') && SameTable(s, s') && s.log <= s'.log && s.now <= s'.now
    && s.threads != [] && s'.threads == s.threads[0 := s'.threads[0]]
  }

  lemma PolledTwice(s: State, s1: State, s2: State)
    requires IdlePoller(s) && (s1 == s || Polled(s, s1)) && (s2 == s1 || Polled(s1, s2))
    ensures Polled(s, s2)
    ensures IdlePoller(s2) && SameTable(s, s2) && s.now <= s2.now && s2.threads == s.threads[0 := s2.threads[0]]
  {
  }

  function ReadCall(job: Job): Call { Read(job.unit, job.item.address, job.item.count) }

  // ---------- what the log shows ----------

  /** An event of the device connection without its times. */
  datatype Item = Asked(call: Call, reply: Reply) | Reconnected

  function ItemOf(e: Event): Item {
    if e.Exchange? then Asked(e.call, e.reply) else Reconnected
  }

  function Items(log: seq<Event>): seq<Item> {
    seq(|log|, n requires 0 <= n < |log| => ItemOf(log[n]))
  }

  lemma ItemsConcat(a: seq<Event>, b: seq<Event>)
    ensures Items(a + b) == Items(a) + Items(b)
  {
  }

  predicate HasReconnect(script: Script, i: nat)
    requires i < MAX_RETRIES
  {
    DoReconnect in Acts(script, i)
  }

  /** What attempt i of a readGroup call does on the connection. */
  function AttemptItems(job: Job, script: Script, i: nat): seq<Item>
    requires i < MAX_RETRIES
  {
    [Asked(ReadCall(job), script[i].reply)] + if HasReconnect(script, i) then [Reconnected] else []
  }

  /** Attempts 0 to i. */
  function GroupItems(job: Job, script: Script, i: nat): seq<Item>
    requires i < MAX_RETRIES
  {
    (if i == 0 then [] else GroupItems(job, script, i - 1)) + AttemptItems(job, script, i)
  }

  /** The backoff that a next attempt has to wait for after event e. */
  function RestAfter(e: Event): nat {
    (if e.Reset? then RECONNECT_BACKOFF else DEVICE_BUSY_BACKOFF) * NANOS_PER_SECOND
  }

  /** Every read from event number `from` + 1 on starts a whole backoff after what comes before it in the log. */
  ghost predicate Spaced(log: seq<Event>, from: nat) {
    forall n :: from < n < |log| && log[n].Exchange? ==> log[n].start >= EndOf(log[n - 1]) + RestAfter(log[n - 1])
  }

  /** The same for a read that starts now. */
  ghost predicate RestedNow(s: State) {
    s.log != [] ==> s.now >= EndOf(s.log[|s.log| - 1]) + RestAfter(s.log[|s.log| - 1])
  }

  // ---------- one attempt ----------

  lemma ResetLocked(start: State, s: State) returns (s': State)
    requires Leads({0}, start, s) && IdlePoller(s)
    ensures Leads({0}, start, s') && s' == Goto(s, 0, Resetting).(mutex := Some(0))
  {
    hide Leads, WriteOf;
    var s1 := LeadsByClient({0}, start, s, 0, AskReset);
    s' := LeadsByClient({0}, start, s1, 0, LockReset);
    GotoTwice(s, 0, WantReset, Resetting);
  }

  lemma ReconnectRuns(start: State, s: State) returns (s': State)
    requires Leads({0}, start, s) && IdlePoller(s)
    ensures Leads({0}, start, s') && Polled(s, s') && s'.threads == s.threads
    ensures s'.log == s.log + [Reset(s.now)] && s'.now == s.now
  {
    hide Leads, WriteOf;
    var s1 := ResetLocked(start, s);
    s' := LeadsByClient({0}, start, s1, 0, DoReset);
  }

  /** A completed backoff takes its whole time; cancellation cuts it short. */
  lemma BackoffRuns(start: State, s: State, seconds: nat, completed: bool) returns (s': State)
    requires Leads({0}, start, s) && IdlePoller(s)
    ensures Leads({0}, start, s') && Polled(s, s') && s'.threads == s.threads && s'.log == s.log
    ensures s'.now == s.now + if completed then seconds * NANOS_PER_SECOND else 0
  {
    hide Leads, WriteOf;
    var d := seconds * NANOS_PER_SECOND;
    var s1 := LeadsByClient({0}, start, s, 0, Nap(d));
    var s2 := LeadsByTime({0}, start, s1, s1.now + if completed then d else 0);
    s' := LeadsByClient({0}, start, s2, 0, Wake);
  }

  function BatchAfter(batch: seq<Sample>, job: Job, reply: Reply, event: nat): seq<Sample> {
    if reply.Data? then batch + [Sample(WriteOf(ReadCall(job), reply.bytes), event)] else batch
  }

  predicate HonestScript(job: Job, script: Script) {
    forall i :: 0 <= i < MAX_RETRIES ==> PossibleReply(ReadCall(job), script[i].reply)
  }

  /** The events of attempt i when its read starts at t. */
  function AttemptEvents(job: Job, script: Script, i: nat, t: int, took: nat): seq<Event>
    requires i < MAX_RETRIES
  {
    [Exchange(ReadCall(job), job.unit, t, t + took, script[i].reply)]
    + if HasReconnect(script, i) then [Reset(t + took)] else []
  }

  /** The backoff, if attempt i ends with one that is completed. */
  function RestOf(script: Script, i: nat): nat
    requires i < MAX_RETRIES
  {
    var last := Acts(script, i)[|Acts(script, i)| - 1];
    if last.Backoff? && last.completed then last.seconds * NANOS_PER_SECOND else 0
  }

  /** One attempt, with what follows it. */
  lemma AttemptRuns(start: State, s: State, job: Job, script: Script, i: nat, took: nat) returns (s': State, t: int)
    requires Leads({0}, start, s) && IdlePoller(s) && i < MAX_RETRIES && HonestScript(job, script)
    ensures Leads({0}, start, s') && Polled(s, s')
    ensures t >= s.now && s'.log == s.log + AttemptEvents(job, script, i, t, took)
    ensures s'.now == t + took + RestOf(script, i)
    ensures s'.threads[0].batch == BatchAfter(s.threads[0].batch, job, script[i].reply, |s.log|)
  {
    hide Leads, WriteOf, PauseEnd;
    t := PauseEnd(s.lastRead, s.pause, s.now);
    s' := MakeCall({0}, start, s, 0, ReadCall(job), script[i].reply, took);
    if HasReconnect(script, i) {
      s' := ReconnectRuns(start, s');
    }
    var last := Acts(script, i)[|Acts(script, i)| - 1];
    if last.Backoff? {
      s' := BackoffRuns(start, s', last.seconds, last.completed);
    }
  }

  /** An attempt that is followed by another keeps the log spaced and leaves it rested. */
  lemma AttemptSpaced(log: seq<Event>, from: nat, job: Job, script: Script, i: nat, t: int, took: nat)
    requires i < MAX_RETRIES && from <= |log| && Spaced(log, from)
    requires from < |log| ==> t >= EndOf(log[|log| - 1]) + RestAfter(log[|log| - 1])
    ensures var after := log + AttemptEvents(job, script, i, t, took);
            && Spaced(after, from) && Items(after) == Items(log) + AttemptItems(job, script, i)
            && (i < MAX_RETRIES - 1 && Continues(script[i]) ==>
                  t + took + RestOf(script, i) == EndOf(after[|after| - 1]) + RestAfter(after[|after| - 1]))
  {
    ItemsConcat(log, AttemptEvents(job, script, i, t, took));
  }

  // ---------- one readGroup call ----------

  /** How long the device takes for each exchange, by its number in the log. */
  type Durations = nat -> nat

  lemma {:induction false} AttemptsRun(start: State, s: State, job: Job, script: Script, i: nat, took: Durations)
    returns (s': State)
    requires Leads({0}, start, s) && IdlePoller(s) && i <= Deciding(script) && HonestScript(job, script)
    ensures Leads({0}, start, s') && Polled(s, s')
    ensures Items(s'.log) == Items(s.log) + GroupItems(job, script, i) && |s.log| < |s'.log| && Spaced(s'.log, |s.log|)
    ensures i < MAX_RETRIES - 1 && Continues(script[i]) ==> RestedNow(s')
    ensures script[i].reply.Failed? ==> s'.threads[0].batch == s.threads[0].batch
    ensures script[i].reply.Data? ==>
              exists event :: s'.threads[0].batch == BatchAfter(s.threads[0].batch, job, script[i].reply, event)
  {
    hide Leads, Acts, RestOf, RestAfter, SameTable, WriteOf;
    DecidingIs(script);
    var t;
    if i == 0 {
      s', t := AttemptRuns(start, s, job, script, 0, took(|s.log|));
      AttemptSpaced(s.log, |s.log|, job, script, 0, t, took(|s.log|));
    } else {
      assert Continues(script[i - 1]);
      var s1 := AttemptsRun(start, s, job, script, i - 1, took);
      s', t := AttemptRuns(start, s1, job, script, i, took(|s1.log|));
      AttemptSpaced(s1.log, |s.log|, job, script, i, t, took(|s1.log|));
      PolledTwice(s, s1, s');
    }
  }

  predicate Honest(job: Job, e: GroupEnv) { HonestScript(job, e.script) }

  /** What a readGroup call does on the connection. */
  function CallItems(job: Job, e: GroupEnv): seq<Item> {
    if e.cancelled then [] else GroupItems(job, e.script, Deciding(e.script))
  }

  /**
   readGroup, for every sequence of answers and however long the device takes: by its own steps
   thread 0 makes exactly the reads and reconnects of the call, each next read a whole backoff
   after the exchange or the reconnect before it, and adds to its batch what the call returns.
   */
  lemma ReadGroupRuns(start: State, s: State, job: Job, e: GroupEnv, took: Durations) returns (s': State)
    requires Leads({0}, start, s) && IdlePoller(s) && Honest(job, e)
    ensures Leads({0}, start, s') && Polled(s, s')
    ensures Items(s'.log) == Items(s.log) + CallItems(job, e) && Spaced(s'.log, |s.log|)
    ensures Writes(s'.threads[0].batch) == Writes(s.threads[0].batch) + Contribution(job, [Sampled(e)], 0)
  {
    hide Leads, Acts;
    if e.cancelled {
      s' := s;
      PolledTwice(s, s, s);
    } else {
      s' := AttemptsRun(start, s, job, e.script, Deciding(e.script), took);
      var d := Deciding(e.script);
      if e.script[d].reply.Data? {
        var event :| s'.threads[0].batch == BatchAfter(s.threads[0].batch, job, e.script[d].reply, event);
      }
    }
  }

  function ActsOf(items: seq<Item>): seq<Act> {
    seq(|items|, n requires 0 <= n < |items| => if items[n].Asked? then DoRead else DoReconnect)
  }

  function WithoutBackoffs(trace: seq<Act>): seq<Act> {
    if trace == [] then []
    else WithoutBackoffs(trace[..|trace| - 1]) + if trace[|trace| - 1].Backoff? then [] else [trace[|trace| - 1]]
  }

  lemma {:induction false} WithoutBackoffsConcat(a: seq<Act>, b: seq<Act>)
    ensures WithoutBackoffs(a + b) == WithoutBackoffs(a) + WithoutBackoffs(b)
    decreases |b|
  {
    if b == [] {
      assert a + b == a;
    } else {
      WithoutBackoffsConcat(a, b[..|b| - 1]);
      assert (a + b)[..|a + b| - 1] == a + b[..|b| - 1];
    }
  }

  lemma ActsOfConcat(a: seq<Item>, b: seq<Item>)
    ensures ActsOf(a + b) == ActsOf(a) + ActsOf(b)
  {
  }

  lemma AttemptIsActs(job: Job, script: Script, i: nat)
    requires i < MAX_RETRIES
    ensures ActsOf(AttemptItems(job, script, i)) == WithoutBackoffs(Acts(script, i))
  {
    hide WithoutBackoffs;
    var acts := Acts(script, i);
    var rest := if |acts| == 1 then [] else [acts[|acts| - 1]];
    var reconnect := if HasReconnect(script, i) && |acts| == 3 then [DoReconnect] else [];
    assert acts == [DoRead] + reconnect + rest;
    WithoutBackoffsConcat([DoRead] + reconnect, rest);
    WithoutBackoffsConcat([DoRead], reconnect);
    WithoutBackoffsOne([DoRead]);
    WithoutBackoffsOne(reconnect);
    WithoutBackoffsOne(rest);
  }

  lemma WithoutBackoffsOne(acts: seq<Act>)
    requires |acts| <= 1
    ensures WithoutBackoffs(acts) == if acts == [] || acts[0].Backoff? then [] else acts
  {
    if acts != [] {
      assert acts[..0] == [];
    }
  }

  /** These items are readGroup's trace without its backoffs, each read with the answer it got. */
  lemma {:induction false} ItemsAreTrace(job: Job, script: Script, i: nat)
    requires i < MAX_RETRIES
    ensures ActsOf(GroupItems(job, script, i)) == WithoutBackoffs(Trace(script, i))
  {
    hide Acts, AttemptItems, ActsOf, WithoutBackoffs;
    AttemptIsActs(job, script, i);
    if i == 0 {
      assert GroupItems(job, script, 0) == AttemptItems(job, script, 0) && Trace(script, 0) == Acts(script, 0);
    } else {
      ItemsAreTrace(job, script, i - 1);
      ActsOfConcat(GroupItems(job, script, i - 1), AttemptItems(job, script, i));
      WithoutBackoffsConcat(Trace(script, i - 1), Acts(script, i));
    }
  }

  // ---------- the reads of a cycle ----------

  predicate HonestCalls(jobs: seq<Job>, calls: seq<GroupEnv>, first: nat) {
    forall n :: 0 <= n < |jobs| && first + n < |calls| ==> Honest(jobs[n], calls[first + n])
  }

  /** What the readGroup calls for the first m jobs do on the connection. */
  function JobsItems(jobs: seq<Job>, calls: seq<GroupEnv>, first: nat, m: nat): seq<Item>
    requires m <= |jobs|
  {
    if m == 0 then []
    else JobsItems(jobs, calls, first, m - 1)
         + if first + m - 1 < |calls| then CallItems(jobs[m - 1], calls[first + m - 1]) else []
  }

  /** The reads of a list of jobs, one after the other. */
  lemma {:induction false} JobsRun(start: State, s: State, jobs: seq<Job>, calls: seq<GroupEnv>, first: nat, m: nat,
                                   took: Durations) returns (s': State)
    requires Leads({0}, start, s) && IdlePoller(s) && m <= |jobs| && HonestCalls(jobs, calls, first)
    ensures Leads({0}, start, s') && Polled(s, s') && Items(s'.log) == Items(s.log) + JobsItems(jobs, calls, first, m)
    ensures Writes(s'.threads[0].batch) == Writes(s.threads[0].batch) + Batch(jobs, Samples(calls), first, m)
  {
    hide Leads, Honest, Contribution, CallItems, Writes, Polled, Sampled, Samples, Items, Spaced, SameTable, Quiet;
    if m == 0 {
      s' := s;
      PolledTwice(s, s, s);
    } else {
      var s1 := JobsRun(start, s, jobs, calls, first, m - 1, took);
      OneJob(jobs, calls, first, m - 1);
      PolledTwice(s, s1, s1);
      s' := s1;
      if first + m - 1 < |calls| {
        s' := ReadGroupRuns(start, s1, jobs[m - 1], calls[first + m - 1], took);
        PolledTwice(s, s1, s');
      }
      assert Writes(s'.threads[0].batch)
          == Writes(s1.threads[0].batch) + Contribution(jobs[m - 1], Samples(calls), first + m - 1);
    }
  }

  lemma OneJob(jobs: seq<Job>, calls: seq<GroupEnv>, first: nat, n: nat)
    requires n < |jobs|
    ensures Contribution(jobs[n], Samples(calls), first + n)
         == if first + n < |calls| then Contribution(jobs[n], [Sampled(calls[first + n])], 0) else []
  {
    hide WordsOf, Samples, Sampled;
    SamplesAt(calls, first + n);
  }

  // ---------- the end of a cycle ----------

  lemma SweepRuns(start: State, s: State, fails: bool) returns (s': State)
    requires Leads({0}, start, s) && IdlePoller(s) && s.now >= s.ttl
    ensures Leads({0}, start, s') && IdlePoller(s') && s'.threads == s.threads && s'.now == s.now && s'.ttl == s.ttl
            && s'.log == s.log
    ensures s'.table == if fails then s.table else Sweep(s.table, Format(s.now - s.ttl))
  {
    hide Leads, Format, WriteOf;
    var s1 := LeadsByUpdate({0}, start, s, 0, StartSweep);
    s' := LeadsByUpdate({0}, start, s1, 0, if fails then FailSweep else DoSweep);
  }

  /** Thread 0 has upserted the first n samples of its batch. */
  function Upserting(s: State, at: nat, begun: nat, n: nat): Pc
    requires s.threads != [] && n <= |s.threads[0].batch|
  {
    InTx(at, Format(at), begun, n, ApplyAll(s.table, Writes(s.threads[0].batch[..n]), Format(at)))
  }

  lemma ExecOne(s: State, at: nat, begun: nat, n: nat)
    requires s.threads != [] && n < |s.threads[0].batch| && s.threads[0].pc == Upserting(s, at, begun, n)
    ensures TableStep(s, 0, ExecWrite) == Some(Goto(s, 0, Upserting(s, at, begun, n + 1)))
  {
    hide Format, Apply, ApplyAll, Writes;
    ApplyNext(s.table, s.threads[0].batch, n, Format(at));
  }

  /** The upserts of a transaction, from sample n on. */
  lemma {:induction false} ExecAll(start: State, s: State, at: nat, begun: nat, n: nat) returns (s': State)
    requires Leads({0}, start, s) && s.threads != [] && n <= |s.threads[0].batch|
             && s.threads[0].pc == Upserting(s, at, begun, n)
    ensures Leads({0}, start, s') && s' == Goto(s, 0, Upserting(s, at, begun, |s.threads[0].batch|))
    decreases |s.threads[0].batch| - n
  {
    hide Leads, TableStep, Upserting;
    if n == |s.threads[0].batch| {
      s' := s;
    } else {
      ExecOne(s, at, begun, n);
      var s1 := LeadsByUpdate({0}, start, s, 0, ExecWrite);
      SameUpserting(s, s1, at, begun);
      s' := ExecAll(start, s1, at, begun, n + 1);
      GotoTwice(s, 0, s1.threads[0].pc, s'.threads[0].pc);
    }
  }

  lemma SameUpserting(s: State, s': State, at: nat, begun: nat)
    requires s.threads != [] && s'.threads != [] && s'.threads[0].batch == s.threads[0].batch && s'.table == s.table
    ensures forall n :: 0 <= n <= |s.threads[0].batch| ==> Upserting(s', at, begun, n) == Upserting(s, at, begun, n)
  {
  }

  lemma BeginRuns(start: State, s: State) returns (s': State)
    requires Leads({0}, start, s) && IdlePoller(s) && s.threads[0].batch != []
    ensures Leads({0}, start, s') && s' == Goto(s, 0, Upserting(s, s.now, s.now, 0)).(conn := Some(0))
  {
    hide Leads, Format, Apply, WriteOf;
    assert s.threads[0].batch[..0] == [];
    var s1 := LeadsByUpdate({0}, start, s, 0, StartFlush);
    s' := LeadsByUpdate({0}, start, s1, 0, BeginTx);
    GotoTwice(s, 0, s1.threads[0].pc, s'.threads[0].pc);
  }

  lemma CommitRuns(start: State, s: State) returns (s': State)
    requires Leads({0}, start, s) && IdlePoller(s) && s.threads[0].batch != []
    ensures Leads({0}, start, s') && IdlePoller(s') && s'.threads == s.threads[0 := Thread(Ready, [])]
    ensures s'.now == s.now && s'.log == s.log
    ensures s'.table == ApplyAll(s.table, Writes(s.threads[0].batch), Format(s.now))
  {
    hide Leads, Format, ApplyAll, WriteOf, Writes;
    var s1 := BeginRuns(start, s);
    SameUpserting(s, s1, s.now, s.now);
    var s2 := ExecAll(start, s1, s.now, s.now, 0);
    var xs := s.threads[0].batch;
    assert xs[..|xs|] == xs;
    s' := LeadsByUpdate({0}, start, s2, 0, CommitTx);
  }

  lemma FlushRuns(start: State, s: State, fault: WriteFault) returns (s': State)
    requires Leads({0}, start, s) && IdlePoller(s)
    ensures Leads({0}, start, s') && IdlePoller(s') && s'.threads == s.threads[0 := Thread(Ready, [])]
    ensures s'.now == s.now && s'.log == s.log
    ensures s'.table == AfterBatch(s.table, Writes(s.threads[0].batch), Format(s.now), fault)
  {
    hide Leads, Format, Apply, Upserts, WriteOf;
    var xs := s.threads[0].batch;
    if xs == [] {
      s' := s;
    } else if Commits(fault, Upserts(Writes(xs))) {
      s' := CommitRuns(start, s);
    } else {
      var s1 := LeadsByUpdate({0}, start, s, 0, StartFlush);
      s' := LeadsByUpdate({0}, start, s1, 0, Rollback);
    }
  }

  // ---------- a whole cycle ----------

  function CycleItems(p: Plan, e: CycleEnv, slow: bool): seq<Item> {
    var fast, rest := FastJobs(p), SlowJobs(p);
    JobsItems(fast, e.calls, 0, |fast|) + if slow then JobsItems(rest, e.calls, |fast|, |rest|) else []
  }

  /** How many exchanges and reconnects a readGroup call comes to. */
  function CallSize(e: GroupEnv): nat {
    if e.cancelled then 0 else |WithoutBackoffs(Trace(e.script, Deciding(e.script)))|
  }

  /** How many the first n calls of the cycle come to. */
  function OffsetTo(calls: seq<GroupEnv>, n: nat): nat {
    if n == 0 then 0 else OffsetTo(calls, n - 1) + if n - 1 < |calls| then CallSize(calls[n - 1]) else 0
  }

  /** The items of call n, after those of the calls before it, are those of a readGroup call for `job`. */
  predicate WiredAt(calls: seq<GroupEnv>, n: nat, job: Job, items: seq<Item>) {
    n < |calls| ==>
      && OffsetTo(calls, n) + CallSize(calls[n]) <= |items|
      && items[OffsetTo(calls, n)..OffsetTo(calls, n) + CallSize(calls[n])] == CallItems(job, calls[n])
  }

  ghost predicate WiresGroups(p: Plan, calls: seq<GroupEnv>, groups: seq<Group>, first: nat, items: seq<Item>) {
    forall g, u :: 0 <= g < |groups| && 0 <= u < |p.units| ==>
      WiredAt(calls, first + (g * |p.units| + u), UnitItem(p.units[u], groups[g]), items)
  }

  /**
   What a cycle does on the connection: the fast groups in order, each for all units in turn, then
   the slow ones if due.
   */
  ghost predicate WiresPlan(p: Plan, e: CycleEnv, slow: bool, items: seq<Item>) {
    && |items| == OffsetTo(e.calls, (|p.fast| + if slow then |p.slow| else 0) * |p.units|)
    && WiresGroups(p, e.calls, p.fast, 0, items)
    && (slow ==> WiresGroups(p, e.calls, p.slow, |p.fast| * |p.units|, items))
  }

  lemma CallItemsSize(job: Job, e: GroupEnv)
    ensures |CallItems(job, e)| == CallSize(e)
  {
    ItemsAreTrace(job, e.script, Deciding(e.script));
  }

  /** Every read of a readGroup call asks for exactly its group. */
  lemma {:induction false} GroupAsks(job: Job, script: Script, i: nat, item: Item)
    requires i < MAX_RETRIES && item in GroupItems(job, script, i)
    ensures item.Asked? ==>
              && item.call == Read(job.unit, job.item.address, job.item.count)
              && exists n :: 0 <= n <= i && item.reply == script[n].reply
  {
    if item in AttemptItems(job, script, i) {
      assert item.Asked? ==> item.reply == script[i].reply;
    } else {
      GroupAsks(job, script, i - 1, item);
    }
  }

  lemma {:induction false} JobsItemsSize(jobs: seq<Job>, calls: seq<GroupEnv>, first: nat, m: nat)
    requires m <= |jobs|
    ensures |JobsItems(jobs, calls, first, m)| == OffsetTo(calls, first + m) - OffsetTo(calls, first)
  {
    hide CallItems, CallSize;
    if m > 0 {
      JobsItemsSize(jobs, calls, first, m - 1);
      if first + m - 1 < |calls| {
        CallItemsSize(jobs[m - 1], calls[first + m - 1]);
      }
    }
  }

  lemma {:induction false} JobsItemsPrefix(jobs: seq<Job>, calls: seq<GroupEnv>, first: nat, n: nat, m: nat)
    requires n <= m <= |jobs|
    ensures JobsItems(jobs, calls, first, n) <= JobsItems(jobs, calls, first, m)
  {
    hide CallItems;
    if n < m {
      JobsItemsPrefix(jobs, calls, first, n, m - 1);
    }
  }

  lemma JobWiredAt(jobs: seq<Job>, calls: seq<GroupEnv>, first: nat, n: nat)
    requires n < |jobs| && first + n < |calls|
    ensures var k := OffsetTo(calls, first + n) - OffsetTo(calls, first);
            var items := JobsItems(jobs, calls, first, |jobs|);
            && 0 <= k && k + CallSize(calls[first + n]) <= |items|
            && items[k..k + CallSize(calls[first + n])] == CallItems(jobs[n], calls[first + n])
  {
    hide CallItems, CallSize;
    JobsItemsSize(jobs, calls, first, n);
    JobsItemsPrefix(jobs, calls, first, n + 1, |jobs|);
    CallItemsSize(jobs[n], calls[first + n]);
    var items, front := JobsItems(jobs, calls, first, |jobs|), JobsItems(jobs, calls, first, n);
    var up := front + CallItems(jobs[n], calls[first + n]);
    assert JobsItems(jobs, calls, first, n + 1) == up && items[..|up|] == up;
    assert items[|front|..|up|] == up[|front|..];
  }

  lemma CycleItemsSize(p: Plan, e: CycleEnv, slow: bool)
    ensures |CycleItems(p, e, slow)| == OffsetTo(e.calls, (|p.fast| + if slow then |p.slow| else 0) * |p.units|)
    ensures |JobsItems(FastJobs(p), e.calls, 0, |FastJobs(p)|)| == OffsetTo(e.calls, |p.fast| * |p.units|)
    ensures |FastJobs(p)| == |p.fast| * |p.units| && |SlowJobs(p)| == |p.slow| * |p.units|
  {
    hide JobsItems, PairsTo, Pairs, OffsetTo;
    PlanSizes(p);
    JobsItemsSize(FastJobs(p), e.calls, 0, |FastJobs(p)|);
    JobsItemsSize(SlowJobs(p), e.calls, |FastJobs(p)|, |SlowJobs(p)|);
    NoOffset(e.calls);
  }

  /** A cycle's traffic, in terms of its groups and units. */
  lemma CycleWiresPlan(p: Plan, e: CycleEnv, slow: bool)
    ensures WiresPlan(p, e, slow, CycleItems(p, e, slow))
  {
    hide JobsItems, Pairs, WiresGroups, OffsetTo;
    CycleItemsSize(p, e, slow);
    FastWired(p, e, slow);
    if slow {
      SlowWired(p, e);
    }
  }

  lemma FastWired(p: Plan, e: CycleEnv, slow: bool)
    ensures WiresGroups(p, e.calls, p.fast, 0, CycleItems(p, e, slow))
  {
    hide JobsItems, Pairs, WiresGroups, OffsetTo;
    var items, front := CycleItems(p, e, slow), JobsItems(FastJobs(p), e.calls, 0, |FastJobs(p)|);
    NoOffset(e.calls);
    WiresPart(p, e.calls, p.fast, 0, [], front, items[|front|..]);
    assert [] + front + items[|front|..] == items;
  }

  lemma SlowWired(p: Plan, e: CycleEnv)
    ensures WiresGroups(p, e.calls, p.slow, |p.fast| * |p.units|, CycleItems(p, e, true))
  {
    hide JobsItems, Pairs, WiresGroups, OffsetTo;
    CycleItemsSize(p, e, true);
    var front := JobsItems(FastJobs(p), e.calls, 0, |FastJobs(p)|);
    var part := JobsItems(SlowJobs(p), e.calls, |FastJobs(p)|, |SlowJobs(p)|);
    WiresPart(p, e.calls, p.slow, |FastJobs(p)|, front, part, []);
    assert front + part + [] == CycleItems(p, e, true);
  }

  lemma NoOffset(calls: seq<GroupEnv>)
    ensures OffsetTo(calls, 0) == 0
  {
  }

  lemma WiresPart(p: Plan, calls: seq<GroupEnv>, groups: seq<Group>, first: nat,
                  front: seq<Item>, part: seq<Item>, back: seq<Item>)
    requires |front| == OffsetTo(calls, first)
    requires part == JobsItems(Pairs(groups, p.units), calls, first, |Pairs(groups, p.units)|)
    ensures WiresGroups(p, calls, groups, first, front + part + back)
  {
    hide JobsItems, Pairs, WiredAt, OffsetTo;
    forall g, u | 0 <= g < |groups| && 0 <= u < |p.units|
      ensures WiredAt(calls, first + (g * |p.units| + u), UnitItem(p.units[u], groups[g]), front + part + back)
    {
      WiredInPart(groups, p.units, calls, first, g, u, front, part, back);
    }
  }

  /** A part of the traffic with something before and after it. */
  lemma WiredInPart(groups: seq<Group>, units: seq<uint8>, calls: seq<GroupEnv>, first: nat, g: nat, u: nat,
                    front: seq<Item>, part: seq<Item>, back: seq<Item>)
    requires g < |groups| && u < |units| && |front| == OffsetTo(calls, first)
    requires part == JobsItems(Pairs(groups, units), calls, first, |Pairs(groups, units)|)
    ensures WiredAt(calls, first + (g * |units| + u), UnitItem(units[u], groups[g]), front + part + back)
  {
    hide JobsItems, CallItems, CallSize, PairsTo;
    var n, jobs := g * |units| + u, Pairs(groups, units);
    PairsAt(groups, units, |groups|, g, u);
    if first + n < |calls| {
      JobWiredAt(jobs, calls, first, n);
      var k, size := OffsetTo(calls, first + n), CallSize(calls[first + n]);
      assert (front + part + back)[k..k + size] == part[k - |front|..k - |front| + size];
    }
  }

  /**
   How long things take: each exchange, the time from the reader's stamp to the sweep's clock
   reading, and from there to the flush's.
   */
  datatype Pace = Pace(took: Durations, toSweep: nat, toFlush: nat)

  /** `e` with the clock readings of a cycle that runs alone. */
  function Timed(e: CycleEnv, start: nat, check: nat, slowDone: nat, pace: Pace, slow: bool): CycleEnv {
    var sweep := if slow then slowDone + pace.toSweep else slowDone;
    e.(start := start, check := check, slowDone := slowDone, sweep := sweep, flush := sweep + pace.toFlush,
       others := [], othersThen := [])
  }

  /** The reads of a cycle; whether the slow groups are due is decided by the clock after the fast ones. */
  lemma ReadsRun(start: State, s: State, p: Plan, e: CycleEnv, lastSlow: nat, took: Durations)
    returns (s': State, check: nat, slow: bool)
    requires Leads({0}, start, s) && IdlePoller(s) && s.threads[0].batch == []
    requires HonestCalls(FastJobs(p) + SlowJobs(p), e.calls, 0)
    ensures Leads({0}, start, s') && Polled(s, s') && s.now <= check <= s'.now && (!slow ==> check == s'.now)
    ensures slow <==> check - lastSlow >= p.slowInterval
    ensures Writes(s'.threads[0].batch) == CycleBatch(p, e, slow)
            && Items(s'.log) == Items(s.log) + CycleItems(p, e, slow)
  {
    hide Leads, Honest, HonestCalls, Batch, FastJobs, SlowJobs, Samples, JobsItems, Items, IdlePoller, SameTable,
         Writes, Polled;
    var fast, rest := FastJobs(p), SlowJobs(p);
    HonestBoth(fast, rest, e.calls);
    s' := JobsRun(start, s, fast, e.calls, 0, |fast|, took);
    PolledTwice(s, s', s');
    check, slow := s'.now, s'.now - lastSlow >= p.slowInterval;
    if slow {
      var s1 := s';
      s' := JobsRun(start, s1, rest, e.calls, |fast|, |rest|, took);
      PolledTwice(s, s1, s');
      PolledTwice(s1, s', s');
    }
  }

  lemma FlushedAlone(p: Plan, m: Store, e: CycleEnv, lastSlow: nat, slow: bool)
    requires e.sweep - p.ttl >= 0 && e.others == e.othersThen == [] && slow == Due(p, e, lastSlow)
    ensures CycleTable(p, Format, m, e, lastSlow)
         == AfterBatch(if slow && !e.sweepFails then Sweep(m, Format(e.sweep - p.ttl)) else m,
                       CycleBatch(p, e, slow), Format(e.flush), e.fault)
  {
    hide Format, Sweep, AfterBatch, CycleBatch;
  }

  /** The end of a cycle: the sweep if slow groups were read, then the flush. */
  lemma EndRuns(start: State, s: State, p: Plan, e: CycleEnv, slow: bool, pace: Pace) returns (s': State)
    requires Leads({0}, start, s) && IdlePoller(s) && s.now >= s.ttl == p.ttl
    ensures Leads({0}, start, s') && IdlePoller(s') && s'.threads == s.threads[0 := Thread(Ready, [])]
            && s'.log == s.log
    ensures var sweep := if slow then s.now + pace.toSweep else s.now;
            && s'.now == sweep + pace.toFlush
            && s'.table == AfterBatch(if slow && !e.sweepFails then Sweep(s.table, Format(sweep - p.ttl)) else s.table,
                                      Writes(s.threads[0].batch), Format(s'.now), e.fault)
  {
    hide Leads, Format, Sweep, AfterBatch, Writes;
    s' := s;
    if slow {
      s' := LeadsByTime({0}, start, s', s'.now + pace.toSweep);
      s' := SweepRuns(start, s', e.sweepFails);
    }
    s' := LeadsByTime({0}, start, s', s'.now + pace.toFlush);
    s' := FlushRuns(start, s', e.fault);
  }

  /**
   A whole poll cycle: the fast reads, the slow ones if by then they are due, the sweep and the
   flush are a run of the step system by thread 0. Its log shows exactly the reads and reconnects
   of its readGroup calls, in order, and it leaves in the table what the cycle's own
   specification says for the clock readings of that run.
   */
  lemma CycleRuns(s: State, p: Plan, e: CycleEnv, lastSlow: nat, pace: Pace)
    returns (s': State, check: nat, slowDone: nat)
    requires IdlePoller(s) && s.threads[0].batch == [] && s.now >= s.ttl == p.ttl
    requires HonestCalls(FastJobs(p) + SlowJobs(p), e.calls, 0)
    ensures Leads({0}, s, s') && IdlePoller(s') && s'.threads == s.threads && s.now <= check <= slowDone
    ensures var slow := check - lastSlow >= p.slowInterval;
            var timed := Timed(e, s.now, check, slowDone, pace, slow);
            && slow == Due(p, timed, lastSlow) && timed.sweep >= p.ttl && s'.now == timed.flush
            && Items(s'.log) == Items(s.log) + CycleItems(p, e, slow)
            && s'.table == CycleTable(p, Format, s.table, timed, lastSlow)
  {
    hide Leads, Format, Sweep, AfterBatch, HonestCalls, CycleItems, FastJobs, SlowJobs, Writes, Items, CycleTable,
         CycleBatch;
    LeadsNowhere({0}, s);
    var slow;
    var s1;
    s1, check, slow := ReadsRun(s, s, p, e, lastSlow, pace.took);
    slowDone := s1.now;
    s' := EndRuns(s, s1, p, e, slow, pace);
    var timed := Timed(e, s.now, check, slowDone, pace, slow);
    SameReads(p, e, timed, slow);
    FlushedAlone(p, s.table, timed, lastSlow, slow);
  }

  lemma SameReads(p: Plan, e: CycleEnv, timed: CycleEnv, slow: bool)
    requires timed.calls == e.calls
    ensures CycleBatch(p, timed, slow) == CycleBatch(p, e, slow)
  {
  }

  lemma HonestBoth(a: seq<Job>, b: seq<Job>, calls: seq<GroupEnv>)
    requires HonestCalls(a + b, calls, 0)
    ensures HonestCalls(a, calls, 0) && HonestCalls(b, calls, |a|)
  {
    hide Honest;
    forall n | 0 <= n < |a| && n < |calls|
      ensures Honest(a[n], calls[n])
    {
      assert (a + b)[n] == a[n];
    }
    forall n | 0 <= n < |b| && |a| + n < |calls|
      ensures Honest(b[n], calls[|a| + n])
    {
      assert (a + b)[|a| + n] == b[n];
    }
  }
}
