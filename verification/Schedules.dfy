/** Runs of the step system, put together from runs of single threads. */
module Schedules {
  import opened Words
  import opened Timestamps
  import opened Registers
  import opened History
  import opened Client
  import opened Proxy

  lemma {:induction false} RunConcat(s: State, a: seq<(nat, Action)>, b: seq<(nat, Action)>)
    requires Run(s, a).Some?
    ensures Run(s, a + b) == Run(Run(s, a).value, b)
    decreases |a|
  {
    if a == [] {
      assert a + b == b;
    } else {
      var s' := Next(s, a[0].0, a[0].1).value;
      RunConcat(s', a[1..], b);
      assert (a + b)[1..] == a[1..] + b;
    }
  }

  /** Steps of the threads in `who`, and the passing of time. */
  predicate StepsBy(schedule: seq<(nat, Action)>, who: set<nat>) {
    forall n :: 0 <= n < |schedule| ==> schedule[n].1.Tick? || schedule[n].0 in who
  }

  ghost predicate Leads(who: set<nat>, s: State, s': State) {
    exists schedule :: StepsBy(schedule, who) && Run(s, schedule) == Some(s')
  }

  lemma LeadsOn(who: set<nat>, start: State, s: State, i: nat, a: Action) returns (s': State)
    requires Leads(who, start, s) && (i in who || a.Tick?) && Next(s, i, a).Some?
    ensures Leads(who, start, s') && Next(s, i, a) == Some(s')
  {
    var schedule :| StepsBy(schedule, who) && Run(start, schedule) == Some(s);
    s' := Next(s, i, a).value;
    RunConcat(start, schedule, [(i, a)]);
    assert Run(s', []) == Some(s');
    assert [(i, a)][1..] == [];
    assert Run(start, schedule + [(i, a)]) == Some(s');
  }

  lemma LeadsByClient(who: set<nat>, start: State, s: State, i: nat, a: Action) returns (s': State)
    requires Leads(who, start, s) && i in who && i < |s.threads| && !a.Tick? && !IsLookup(a) && !IsUpdate(a)
             && ClientStep(s, i, a).Some?
    ensures Leads(who, start, s') && ClientStep(s, i, a) == Some(s')
  {
    s' := LeadsOn(who, start, s, i, a);
  }

  lemma LeadsByUpdate(who: set<nat>, start: State, s: State, i: nat, a: Action) returns (s': State)
    requires Leads(who, start, s) && i in who && i < |s.threads| && IsUpdate(a) && TableStep(s, i, a).Some?
    ensures Leads(who, start, s') && TableStep(s, i, a) == Some(s')
  {
    s' := LeadsOn(who, start, s, i, a);
  }

  lemma LeadsByLookup(who: set<nat>, start: State, s: State, i: nat, a: Action) returns (s': State)
    requires Leads(who, start, s) && i in who && i < |s.threads| && IsLookup(a) && LookupStep(s, i, a).Some?
    ensures Leads(who, start, s') && LookupStep(s, i, a) == Some(s')
  {
    s' := LeadsOn(who, start, s, i, a);
  }

  lemma LeadsByTime(who: set<nat>, start: State, s: State, until: nat) returns (s': State)
    requires Leads(who, start, s) && s.now <= until
    ensures Leads(who, start, s') && s' == s.(now := until)
  {
    s' := LeadsOn(who, start, s, 0, Tick(until - s.now));
  }

  /** A state in which nobody holds a lock. */
  predicate Quiet(s: State) { s.mutex == None && s.conn == None }

  lemma GotoTwice(s: State, i: nat, a: Pc, b: Pc)
    requires i < |s.threads|
    ensures Goto(Goto(s, i, a), i, b) == Goto(s, i, b)
  {
  }

  /** A thread can take the mutex and address its unit, ... */
  lemma Address(who: set<nat>, start: State, s: State, i: nat, call: Call) returns (s': State)
    requires Leads(who, start, s) && i in who && i < |s.threads| && Quiet(s) && MaySubmit(i, s.threads[i], call)
    ensures Leads(who, start, s')
    ensures s' == Goto(s, i, Addressed(call)).(mutex := Some(i), slaveId := call.unit)
  {
    hide Leads, WriteOf, Apply;
    var s1 := LeadsByClient(who, start, s, i, Submit(call));
    var s2 := LeadsByClient(who, start, s1, i, Lock);
    GotoTwice(s, i, WantClient(call), Locked(call));
    assert s2 == Goto(s, i, Locked(call)).(mutex := Some(i));
    s' := LeadsByClient(who, start, s2, i, SetSlave);
    GotoTwice(s, i, Locked(call), Addressed(call));
  }

  /** ... get its call onto the wire when the pause is over, ... */
  lemma Dial(who: set<nat>, start: State, s: State, i: nat, call: Call) returns (s': State)
    requires Leads(who, start, s) && i in who && i < |s.threads| && Quiet(s) && MaySubmit(i, s.threads[i], call)
    ensures Leads(who, start, s')
    ensures var t := PauseEnd(s.lastRead, s.pause, s.now);
            t >= s.now && s' == Goto(s, i, OnWire(call, t)).(mutex := Some(i), slaveId := call.unit, now := t)
  {
    hide Leads, WriteOf, Apply;
    var until: nat := PauseEnd(s.lastRead, s.pause, s.now);
    var s1 := Address(who, start, s, i, call);
    var s2 := LeadsByClient(who, start, s1, i, Pause);
    GotoTwice(s, i, Addressed(call), Pausing(call, until));
    assert s2 == Goto(s, i, Pausing(call, until)).(mutex := Some(i), slaveId := call.unit);
    var s3 := LeadsByTime(who, start, s2, until);
    s' := LeadsByClient(who, start, s3, i, Send);
    GotoTwice(s, i, Pausing(call, until), OnWire(call, until));
  }

  predicate SameTable(s: State, s': State) {
    && s'.table == s.table && s'.committed == s.committed && s'.clocks == s.clocks
    && s'.ttl == s.ttl && s'.pause == s.pause && s'.initial == s.initial
  }

  /** ... and, when the device answers after `took` nanoseconds, finish it. */
  lemma MakeCall(who: set<nat>, start: State, s: State, i: nat, call: Call, reply: Reply, took: nat) returns (s': State)
    requires Leads(who, start, s) && i in who && i < |s.threads| && Quiet(s) && MaySubmit(i, s.threads[i], call)
    requires PossibleReply(call, reply)
    ensures Leads(who, start, s') && Quiet(s') && SameTable(s, s')
    ensures var t := PauseEnd(s.lastRead, s.pause, s.now);
            && t >= s.now && s'.now == t + took && s'.lastRead == Some(t + took)
            && s'.log == s.log + [Exchange(call, call.unit, t, t + took, reply)]
    ensures s'.threads == s.threads[i := Thread(Ready, s.threads[i].batch
                          + if reply.Data? then [Sample(WriteOf(call, reply.bytes), |s.log|)] else [])]
  {
    hide Leads, WriteOf, Apply, PauseEnd;
    s' := Dial(who, start, s, i, call);
    s' := LeadsByTime(who, start, s', s'.now + took);
    s' := LeadsByClient(who, start, s', i, Receive(reply));
    s' := LeadsByClient(who, start, s', i, Unlock);
  }

  /** An idle thread can flush a batch of one sample alone. */
  lemma Flush(who: set<nat>, start: State, s: State, i: nat, x: Sample) returns (s': State)
    requires Leads(who, start, s) && i in who && i < |s.threads| && Quiet(s) && s.threads[i] == Thread(Ready, [x])
    ensures Leads(who, start, s') && Quiet(s')
    ensures s'.threads == s.threads[i := Thread(Ready, [])]
    ensures s'.table == Apply(s.table, x.write, Format(s.now)) && s'.log == s.log && s'.now == s.now
  {
    hide Format, Apply, Leads, WriteOf;
    var s1 := LeadsByUpdate(who, start, s, i, StartFlush);
    var s2 := LeadsByUpdate(who, start, s1, i, BeginTx);
    GotoTwice(s, i, WantCommit(s.now, Format(s.now)), InTx(s.now, Format(s.now), s.now, 0, s.table));
    s' := FinishFlush(who, start, s2, i, x, s.now, s.now);
  }

  /** ... and so can one that waits for the database. */
  lemma FinishFlush(who: set<nat>, start: State, s: State, i: nat, x: Sample, at: nat, begun: nat) returns (s': State)
    requires Leads(who, start, s) && i in who && i < |s.threads|
    requires s.threads[i] == Thread(InTx(at, Format(at), begun, 0, s.table), [x])
    ensures Leads(who, start, s')
    ensures s' == Set(s, i, Thread(Ready, [])).(conn := None, table := Apply(s.table, x.write, Format(at)),
                                                committed := s.committed + [Commit([x], Format(at))],
                                                clocks := s.clocks + [OpTime(at, begun)])
  {
    hide Leads, WriteOf, Format, Apply;
    var s1 := LeadsByUpdate(who, start, s, i, ExecWrite);
    s' := LeadsByUpdate(who, start, s1, i, CommitTx);
  }

  lemma LeadsNowhere(who: set<nat>, s: State)
    ensures Leads(who, s, s)
  {
    assert StepsBy([], who) && Run(s, []) == Some(s);
  }
}
