/**
 The handlers of the server as threads of the step system. A handler works in up to three
 stretches: it looks into the table, calls the device, and stores what came of it. Each stretch
 is a run of Proxy by that thread alone; between them other threads run as they please.
 */
module Handlers {
  import opened Words
  import opened Timestamps
  import opened Registers
  import opened History
  import opened Client
  import opened Proxy
  import opened Interleavings
  import opened Schedules
  import opened Frames
  import opened Server

  /** A handler between two requests. */
  predicate IdleHandler(s: State, i: nat) {
    Quiet(s) && 0 < i < |s.threads| && s.threads[i] == Thread(Ready, [])
  }

  // ---------- what other threads do in between ----------

  predicate NoneBy(schedule: seq<(nat, Action)>, i: nat) {
    forall n :: 0 <= n < |schedule| ==> schedule[n].1.Tick? || schedule[n].0 != i
  }

  /** Threads other than i have run, have committed `ops` to the table, and hold no lock. */
  ghost predicate Meantime(s: State, s': State, i: nat, ops: seq<CacheOp>) {
    exists schedule ::
      NoneBy(schedule, i) && Run(s, schedule) == Some(s') && Quiet(s') && s'.committed == s.committed + ops
  }

  lemma {:induction false} OthersKeep(s: State, schedule: seq<(nat, Action)>, i: nat)
    requires NoneBy(schedule, i) && Run(s, schedule).Some? && i < |s.threads|
    ensures var s' := Run(s, schedule).value;
            |s'.threads| == |s.threads| && s'.threads[i] == s.threads[i] && s'.initial == s.initial
    decreases |schedule|
  {
    hide Next;
    if schedule != [] {
      var (j, a) := schedule[0];
      StepShape(s, j, a);
      OthersKeep(Next(s, j, a).value, schedule[1..], i);
    }
  }

  lemma {:induction false} ReplayConcat(m: Store, a: seq<CacheOp>, b: seq<CacheOp>)
    ensures Replay(m, a + b) == Replay(Replay(m, a), b)
    decreases |b|
  {
    hide Effect;
    if b == [] {
      assert a + b == a;
    } else {
      var front, last := b[..|b| - 1], b[|b| - 1];
      assert a + b == (a + front) + [last];
      ReplayAppend(m, a + front, last);
      ReplayConcat(m, a, front);
    }
  }

  lemma MeantimeKeeps(s: State, s': State, i: nat, ops: seq<CacheOp>)
    requires Inv(s) && i < |s.threads| && Meantime(s, s', i, ops)
    ensures Inv(s') && |s'.threads| == |s.threads| && s'.threads[i] == s.threads[i]
    ensures s'.table == Replay(s.table, ops)
  {
    hide Run, LockInv, WireInv, SourceInv, TimeInv, Replay, ThreadOk;
    var schedule :|
      NoneBy(schedule, i) && Run(s, schedule) == Some(s') && Quiet(s') && s'.committed == s.committed + ops;
    InvRun(s, schedule);
    OthersKeep(s, schedule, i);
    ReplayConcat(s.initial, s.committed, ops);
  }

  // ---------- looking into the table ----------

  function Cells(m: Store, q: Query, n: nat): seq<Option<uint16>> {
    seq(n, j requires 0 <= j < n => Cell(m, Key(q.unit, q.address + j)))
  }

  /** The row loop of a lookup, from row n on. */
  lemma {:induction false} ScanAll(who: set<nat>, start: State, s: State, i: nat, q: Query, v: nat, n: nat)
    returns (s': State)
    requires Leads(who, start, s) && i in who && i < |s.threads| && n <= q.count
    requires s.threads[i].pc == Scanning(q, v, v, Cells(s.table, q, n))
    ensures Leads(who, start, s') && s' == Goto(s, i, Scanning(q, v, v, Cells(s.table, q, q.count)))
    decreases q.count - n
  {
    hide Leads, Cell;
    if n == q.count {
      s' := s;
    } else {
      var s1 := LeadsByLookup(who, start, s, i, ScanRow);
      assert Cells(s.table, q, n) + [Cell(s.table, Key(q.unit, q.address + n))] == Cells(s.table, q, n + 1);
      s' := ScanAll(who, start, s1, i, q, v, n + 1);
      GotoTwice(s, i, s1.threads[i].pc, s'.threads[i].pc);
    }
  }

  /** A lookup answers with the window of the table, or with nothing if the query fails. */
  lemma Lookup(who: set<nat>, start: State, s: State, i: nat, q: Query, fails: bool) returns (s': State)
    requires Leads(who, start, s) && i in who && IdleHandler(s, i)
    ensures Leads(who, start, s')
    ensures var v := |s.committed|;
            s' == Goto(s, i, Answered(q, v, v, fails,
                                      if fails then None else Window(s.table, q.unit, q.address, q.count)))
  {
    hide Leads, Cell, Window, Gather;
    var v := |s.committed|;
    var s1 := LeadsByLookup(who, start, s, i, Ask(q));
    if fails {
      s' := LeadsByLookup(who, start, s1, i, FailScan);
    } else {
      var s2 := LeadsByLookup(who, start, s1, i, OpenScan);
      assert Cells(s.table, q, 0) == [];
      var s3 := ScanAll(who, start, s2, i, q, v, 0);
      var cells := Cells(s.table, q, q.count);
      GatherIsWindow(s.table, q, cells);
      s' := LeadsByLookup(who, start, s3, i, CloseScan);
    }
  }

  /** The device calls a request comes to, at most one. */
  function CallsFor(m: Store, forward: bool, f: Frame, e: FrameEnv): seq<Call>
    requires GoodFrame(f)
  {
    Handle(m, forward, f, e, "").calls
  }

  /** The first stretch: thread i is done, or about to call the device; all else is as it was. */
  predicate Looked(s: State, s': State, i: nat, calls: seq<Call>) {
    && Quiet(s') && 0 < i < |s.threads| == |s'.threads| && s' == Set(s, i, s'.threads[i]) && s'.threads[i].batch == []
    && |calls| <= 1
    && if calls == [] then s'.threads[i].pc.Ready? else MaySubmit(i, s'.threads[i], calls[0])
  }

  lemma ReadLooks(s: State, i: nat, forward: bool, f: Frame, e: FrameEnv) returns (s': State)
    requires IdleHandler(s, i) && GoodFrame(f) && (f.pdu[0] == 0x03 || f.pdu[0] == 0x04)
    ensures Leads({i}, s, s') && Looked(s, s', i, CallsFor(s.table, forward, f, e))
  {
    hide Leads, Stored, At, BytesOf, WordsOf, Cached;
    LeadsNowhere({i}, s);
    s' := s;
    if |f.pdu| >= 5 && 0 < At(f.pdu, 3) <= 125 {
      var q := Query(f.unit, At(f.pdu, 1), At(f.pdu, 3));
      s' := Lookup({i}, s, s, i, q, e.queryFails);
      if s'.threads[i].pc.result.Some? || !forward || !e.connected {
        s' := LeadsByUpdate({i}, s, s', i, Drop);
      }
    }
  }

  lemma Looks(s: State, i: nat, forward: bool, f: Frame, e: FrameEnv) returns (s': State)
    requires IdleHandler(s, i) && GoodFrame(f)
    ensures Leads({i}, s, s') && Looked(s, s', i, CallsFor(s.table, forward, f, e))
  {
    hide Leads, Stored, At, WordsOf, HandleRead;
    if f.pdu[0] == 0x03 || f.pdu[0] == 0x04 {
      s' := ReadLooks(s, i, forward, f, e);
    } else {
      LeadsNowhere({i}, s);
      s' := s;
    }
  }

  // ---------- calling the device ----------

  /**
   The device was called and answered after `took`; after `delay` more the handler waits for the
   database, or it is done.
   */
  predicate Called(s: State, s': State, i: nat, call: Call, reply: Reply, took: nat, delay: nat) {
    var t := PauseEnd(s.lastRead, s.pause, s.now);
    && Quiet(s') && 0 < i < |s.threads| && |s'.threads| == |s.threads| && SameTable(s, s')
    && s'.log == s.log + [Exchange(call, call.unit, t, t + took, reply)] && s'.now == t + took + delay
    && s'.threads[i] == match reply
                        case Failed(_) => Thread(Ready, [])
                        case Data(bytes) =>
                          Thread(WantCommit(s'.now, Format(s'.now)), [Sample(WriteOf(call, bytes), |s.log|)])
  }

  lemma Calls(s: State, i: nat, call: Call, reply: Reply, took: nat, delay: nat) returns (s': State)
    requires Quiet(s) && 0 < i < |s.threads| && s.threads[i].batch == [] && MaySubmit(i, s.threads[i], call)
    requires PossibleReply(call, reply)
    ensures Leads({i}, s, s') && Called(s, s', i, call, reply, took, delay)
  {
    hide Leads, Format, WriteOf, PauseEnd;
    LeadsNowhere({i}, s);
    s' := MakeCall({i}, s, s, i, call, reply, took);
    s' := LeadsByTime({i}, s, s', s'.now + delay);
    if reply.Data? {
      s' := LeadsByUpdate({i}, s, s', i, StartFlush);
    }
  }

  // ---------- storing the result ----------

  /** The waiting transaction of thread i got through, or failed. */
  predicate Finished(s: State, s': State, i: nat, w: PendingWrite, stamp: string, fault: WriteFault) {
    && IdleHandler(s', i) && s'.log == s.log
    && s'.table == if Commits(fault, |w.values|) then Apply(s.table, w, stamp) else s.table
  }

  lemma Stores(s: State, i: nat, x: Sample, at: nat, fault: WriteFault) returns (s': State)
    requires Quiet(s) && 0 < i < |s.threads| && s.threads[i] == Thread(WantCommit(at, Format(at)), [x])
    ensures Leads({i}, s, s') && Finished(s, s', i, x.write, Format(at), fault)
  {
    hide Leads, Format, Apply;
    LeadsNowhere({i}, s);
    if Commits(fault, |x.write.values|) {
      var s1 := LeadsByUpdate({i}, s, s, i, BeginTx);
      s' := FinishFlush({i}, s, s1, i, x, at, s.now);
    } else {
      s' := LeadsByUpdate({i}, s, s, i, Rollback);
    }
  }

  // ---------- a whole request ----------

  /** From s, once others have committed `ops`, thread i can finish its request, leaving `table`. */
  ghost predicate CanFinish(s: State, i: nat, ops: seq<CacheOp>, table: Store) {
    forall s1 :: Meantime(s, s1, i, ops) ==> exists s2 :: Ends(s1, s2, i, table)
  }

  ghost predicate Ends(s: State, s': State, i: nat, table: Store) {
    Leads({i}, s, s') && IdleHandler(s', i) && s'.log == s.log && s'.table == table
  }

  /** The inputs of a request, and how long its device call takes and its clock reading comes after that. */
  datatype Request = Request(f: Frame, e: FrameEnv, took: nat, delay: nat)

  /**
   From s, where the request r has looked into the table `m`: once others have committed `before`,
   thread i can make its call and get the answer in r; if that is data, then once others have
   committed `after`, it can finish with the table that the handler's specification gives.
   */
  ghost predicate CanProceed(s: State, i: nat, m: Store, forward: bool, r: Request, call: Call,
                             before: seq<CacheOp>, after: seq<CacheOp>)
    requires GoodFrame(r.f)
  {
    forall s1 :: Meantime(s, s1, i, before) ==>
      exists s2 ::
        && Leads({i}, s1, s2) && Called(s1, s2, i, call, r.e.reply, r.took, r.delay)
        && (r.e.reply.Data? ==>
              CanFinish(s2, i, after,
                        Handle(m, forward, r.f, r.e.(othersThen := before + after), Format(s2.now)).table))
  }

  /**
   Every request of every kind, with other threads running in between: thread i can take the
   stretches that the server's handler consists of, makes exactly the device call that the
   handler's specification says, and leaves the table that it says.
   */
  lemma HandlerRuns(s: State, i: nat, forward: bool, r: Request) returns (s': State)
    requires Inv(s) && IdleHandler(s, i) && GoodFrame(r.f) && HonestReply(r.f, r.e)
    ensures Leads({i}, s, s') && Looked(s, s', i, CallsFor(s.table, forward, r.f, r.e))
    ensures forall stamp, ops ::
              var h := Handle(s.table, forward, r.f, r.e.(othersThen := ops), stamp);
              h.calls == CallsFor(s.table, forward, r.f, r.e) && (h.calls == [] ==> h.table == s.table)
    ensures var calls := CallsFor(s.table, forward, r.f, r.e);
            calls != [] ==> forall before, after :: CanProceed(s', i, s.table, forward, r, calls[0], before, after)
  {
    hide Leads, Looked, CallsFor, Handle, CanProceed;
    s' := Looks(s, i, forward, r.f, r.e);
    CallsAlike(s.table, forward, r.f, r.e);
    var calls := CallsFor(s.table, forward, r.f, r.e);
    if calls != [] {
      LeadsInv({i}, s, s');
      forall before, after
        ensures CanProceed(s', i, s.table, forward, r, calls[0], before, after)
      {
        Proceeds(s, s', i, forward, r, before, after);
      }
    }
  }

  lemma LeadsInv(who: set<nat>, s: State, s': State)
    requires Inv(s) && Leads(who, s, s')
    ensures Inv(s')
  {
    hide Inv, Run;
    var schedule :| StepsBy(schedule, who) && Run(s, schedule) == Some(s');
    InvRun(s, schedule);
  }

  lemma CallsAlike(m: Store, forward: bool, f: Frame, e: FrameEnv)
    requires GoodFrame(f)
    ensures forall stamp, ops ::
              var h := Handle(m, forward, f, e.(othersThen := ops), stamp);
              h.calls == CallsFor(m, forward, f, e) && (h.calls == [] ==> h.table == m)
  {
    hide Stored, At, WordsOf, BytesOf, Cached;
  }

  /** What the specification stores after a call that is answered with data. */
  lemma StoredAfterCall(m: Store, forward: bool, f: Frame, e: FrameEnv, stamp: string)
    requires GoodFrame(f) && CallsFor(m, forward, f, e) != [] && HonestReply(f, e)
    ensures PossibleReply(CallsFor(m, forward, f, e)[0], e.reply)
    ensures e.reply.Data? ==>
              Handle(m, forward, f, e, stamp).table
              == Stored(m, WriteOf(CallsFor(m, forward, f, e)[0], e.reply.bytes), stamp, e)
  {
    hide Stored, At, WordsOf, BytesOf, Cached;
  }

  lemma Proceeds(s: State, s': State, i: nat, forward: bool, r: Request, before: seq<CacheOp>, after: seq<CacheOp>)
    requires Inv(s') && GoodFrame(r.f) && HonestReply(r.f, r.e) && CallsFor(s.table, forward, r.f, r.e) != []
    requires Looked(s, s', i, CallsFor(s.table, forward, r.f, r.e))
    ensures CanProceed(s', i, s.table, forward, r, CallsFor(s.table, forward, r.f, r.e)[0], before, after)
  {
    hide Leads, Handle, HonestReply, Inv, Meantime, CallsFor, MaySubmit, PossibleReply, Format, CanFinish, Called;
    var call := CallsFor(s.table, forward, r.f, r.e)[0];
    StoredAfterCall(s.table, forward, r.f, r.e, "");
    forall s1 | Meantime(s', s1, i, before)
      ensures exists s2 ::
        && Leads({i}, s1, s2) && Called(s1, s2, i, call, r.e.reply, r.took, r.delay)
        && (r.e.reply.Data? ==>
              CanFinish(s2, i, after,
                        Handle(s.table, forward, r.f, r.e.(othersThen := before + after), Format(s2.now)).table))
    {
      MeantimeKeeps(s', s1, i, before);
      MeantimeQuiet(s', s1, i, before);
      var s2 := Calls(s1, i, call, r.e.reply, r.took, r.delay);
      LeadsInv({i}, s1, s2);
      if r.e.reply.Data? {
        CallThenFinish(s.table, s1, s2, i, forward, r, call, before, after);
      }
    }
  }

  lemma MeantimeQuiet(s: State, s': State, i: nat, ops: seq<CacheOp>)
    requires Meantime(s, s', i, ops)
    ensures Quiet(s')
  {
  }

  lemma CallThenFinish(m: Store, s1: State, s2: State, i: nat, forward: bool, r: Request, call: Call,
                       before: seq<CacheOp>, after: seq<CacheOp>)
    requires Inv(s2) && GoodFrame(r.f) && HonestReply(r.f, r.e) && r.e.reply.Data?
    requires CallsFor(m, forward, r.f, r.e) != [] && call == CallsFor(m, forward, r.f, r.e)[0]
    requires Called(s1, s2, i, call, r.e.reply, r.took, r.delay) && s1.table == Replay(m, before)
    ensures CanFinish(s2, i, after, Handle(m, forward, r.f, r.e.(othersThen := before + after), Format(s2.now)).table)
  {
    hide Leads, Handle, HonestReply, Inv, Meantime, CallsFor, Format, WriteOf, PauseEnd, Apply, Replay, PossibleReply;
    var e := r.e.(othersThen := before + after);
    var w := WriteOf(call, r.e.reply.bytes);
    SameRequest(m, forward, r.f, r.e, before + after);
    StoredAfterCall(m, forward, r.f, e, Format(s2.now));
    ReplayConcat(m, before, after);
    forall s3 | Meantime(s2, s3, i, after)
      ensures exists s4 :: Ends(s3, s4, i, Handle(m, forward, r.f, e, Format(s2.now)).table)
    {
      MeantimeKeeps(s2, s3, i, after);
      MeantimeQuiet(s2, s3, i, after);
      var s4 := Stores(s3, i, Sample(w, |s1.log|), s2.now, e.fault);
      assert Ends(s3, s4, i, Handle(m, forward, r.f, e, Format(s2.now)).table);
    }
  }

  lemma SameRequest(m: Store, forward: bool, f: Frame, e: FrameEnv, ops: seq<CacheOp>)
    requires GoodFrame(f)
    ensures CallsFor(m, forward, f, e.(othersThen := ops)) == CallsFor(m, forward, f, e)
    ensures HonestReply(f, e) ==> HonestReply(f, e.(othersThen := ops))
  {
    hide Handle, At;
    CallsAlike(m, forward, f, e);
  }
}
