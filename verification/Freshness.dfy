/**
 Read-your-writes does not hold: a sample taken before a write can be flushed after it. This
 module says exactly when a cached value can still be replaced by one sampled before a given
 exchange, and when that is over for good.
 */
module Freshness {
  import opened Words
  import opened Timestamps
  import opened Registers
  import opened History
  import opened Client
  import opened Proxy
  import opened Interleavings

  /** The sample a finished exchange is about to hand its thread. */
  function OnTheWay(s: State, pc: Pc): seq<Sample> {
    if pc.Replied? && pc.event < |s.log| && s.log[pc.event].Exchange? && s.log[pc.event].reply.Data?
    then [Sample(WriteOf(pc.call, s.log[pc.event].reply.bytes), pc.event)]
    else []
  }

  /** What thread i would put under k if it flushed everything it has now. */
  function Outstanding(s: State, i: nat, k: Key): Option<Sample>
    requires i < |s.threads|
  {
    LastCovering(s.threads[i].batch + OnTheWay(s, s.threads[i].pc), k)
  }

  /** Thread i holds a value of k, sampled before exchange w, that it has not flushed. */
  predicate HoldsOld(s: State, i: nat, k: Key, w: nat)
    requires i < |s.threads|
  {
    Outstanding(s, i, k).Some? && Outstanding(s, i, k).value.source < w
  }

  predicate NoneHoldsOld(s: State, k: Key, w: nat) {
    forall i :: 0 <= i < |s.threads| ==> !HoldsOld(s, i, k, w)
  }

  /** The cached value of k, if any, was not sampled before exchange w. */
  predicate Fresh(s: State, k: Key, w: nat) {
    var o := Author(s.initial, s.committed, k);
    o.Some? ==> o.value.Written? && w <= o.value.sample.source
  }

  /** Throwing away or flushing everything a thread has. */
  predicate Unloads(a: Action) { a.CommitTx? || a.Rollback? || a.Drop? }

  lemma LastOfBoth(xs: seq<Sample>, x: Sample, k: Key)
    ensures LastCovering(xs + [x], k) == if Covers(x.write, k) then Some(x) else LastCovering(xs, k)
  {
    assert (xs + [x])[..|xs|] == xs;
  }

  lemma ClientHoldsOld(s: State, i: nat, a: Action, k: Key, w: nat)
    requires i < |s.threads| && ClientStep(s, i, a).Some? && w <= |s.log| && !HoldsOld(s, i, k, w)
    ensures !HoldsOld(ClientStep(s, i, a).value, i, k, w)
  {
    hide LastCovering, WriteOf, PossibleReply, PauseEnd;
    var s' := ClientStep(s, i, a).value;
    var t, t' := s.threads[i], s'.threads[i];
    assert t.batch + [] == t.batch && t'.batch + [] == t'.batch;
    if a.Receive? {
      if a.reply.Data? {
        LastOfBoth(t.batch, Sample(WriteOf(t.pc.call, a.reply.bytes), |s.log|), k);
      }
    } else if a.Unlock? {
      assert t'.batch == t.batch + OnTheWay(s, t.pc) && OnTheWay(s', t'.pc) == [];
      assert Outstanding(s', i, k) == Outstanding(s, i, k);
    }
  }

  lemma UpdateHoldsOld(s: State, i: nat, a: Action, k: Key, w: nat)
    requires i < |s.threads| && TableStep(s, i, a).Some?
    requires !HoldsOld(s, i, k, w) || Unloads(a)
    ensures !HoldsOld(TableStep(s, i, a).value, i, k, w)
  {
    hide Format, Apply, Sweep;
    var s' := TableStep(s, i, a).value;
    assert s'.threads[i].batch == s.threads[i].batch || s'.threads[i].batch == [];
  }

  /**
   Threads let go of old samples and never take up new ones: a flush (committed or failed) or
   a drop rids the thread of everything older than w, and no step of any thread brings it back.
   */
  lemma OldSamplesShrink(s: State, i: nat, a: Action, j: nat, k: Key, w: nat)
    requires Inv(s) && Next(s, i, a).Some? && j < |s.threads| && w <= |s.log|
    requires !HoldsOld(s, j, k, w) || (i == j && Unloads(a))
    ensures j < |Next(s, i, a).value.threads| && !HoldsOld(Next(s, i, a).value, j, k, w)
  {
    hide Inv, TableStep, ClientStep, LookupStep, LastCovering, HoldsOld;
    StepShape(s, i, a);
    if i == j && !a.Tick? {
      if IsUpdate(a) {
        UpdateHoldsOld(s, i, a, k, w);
      } else if IsLookup(a) {
        LookupHoldsOld(s, i, a, k, w);
      } else {
        ClientHoldsOld(s, i, a, k, w);
      }
    } else {
      OthersHoldOld(s, Next(s, i, a).value, j, k, w);
    }
  }

  lemma LookupHoldsOld(s: State, i: nat, a: Action, k: Key, w: nat)
    requires i < |s.threads| && LookupStep(s, i, a).Some? && !HoldsOld(s, i, k, w)
    ensures !HoldsOld(LookupStep(s, i, a).value, i, k, w)
  {
    hide LastCovering, Gather, Cell;
  }

  lemma OthersHoldOld(s: State, s': State, j: nat, k: Key, w: nat)
    requires Inv(s) && j < |s.threads| && |s'.threads| == |s.threads| && s'.threads[j] == s.threads[j]
             && s.log <= s'.log
    ensures HoldsOld(s', j, k, w) <==> HoldsOld(s, j, k, w)
  {
    hide LastCovering, GoodLog, SourceInv, TableInv, TimeInv;
    assert s.threads[j].pc.Replied? ==> s.mutex == Some(j) && s.threads[j].pc.event < |s.log|;
    assert OnTheWay(s', s'.threads[j].pc) == OnTheWay(s, s.threads[j].pc);
  }

  // ---------- a state in which nobody holds an old sample ----------

  lemma AuthorAppend(m: Store, ops: seq<CacheOp>, op: CacheOp, k: Key)
    ensures Author(m, ops + [op], k) ==
            match op
            case Commit(samples, stamp) =>
              (match LastCovering(samples, k) case Some(x) => Some(Written(x, stamp)) case None => Author(m, ops, k))
            case Expire(cutoff) =>
              if Author(m, ops, k).Some? && TextLess(Author(m, ops, k).value.stamp, cutoff) then None
              else Author(m, ops, k)
  {
    assert (ops + [op])[..|ops|] == ops;
  }

  /**
   A commit is what changes freshness: afterwards it is that of the last sample of k in the batch,
   if there is one.
   */
  lemma CommitFreshness(s: State, i: nat, k: Key, w: nat)
    requires Next(s, i, CommitTx).Some?
    ensures Fresh(Next(s, i, CommitTx).value, k, w) <==>
            match LastCovering(s.threads[i].batch, k)
            case Some(x) => w <= x.source
            case None => Fresh(s, k, w)
  {
    AuthorAppend(s.initial, s.committed, Commit(s.threads[i].batch, s.threads[i].pc.stamp), k);
  }

  lemma FreshStep(s: State, i: nat, a: Action, k: Key, w: nat)
    requires Next(s, i, a).Some? && Fresh(s, k, w)
    requires i < |s.threads| ==> !HoldsOld(s, i, k, w)
    ensures Fresh(Next(s, i, a).value, k, w)
  {
    hide Apply, Sweep, Format, Gather, WriteOf;
    if a.CommitTx? {
      CommitFreshness(s, i, k, w);
      assert s.threads[i].batch + [] == s.threads[i].batch;
    } else if a.DoSweep? {
      AuthorAppend(s.initial, s.committed, Expire(s.threads[i].pc.cutoff), k);
    } else {
      StepShape(s, i, a);
    }
  }

  lemma {:induction false} NoneHoldsOldRun(s: State, schedule: seq<(nat, Action)>, k: Key, w: nat)
    requires Inv(s) && w <= |s.log| && NoneHoldsOld(s, k, w) && Run(s, schedule).Some?
    ensures NoneHoldsOld(Run(s, schedule).value, k, w)
    ensures Fresh(s, k, w) ==> Fresh(Run(s, schedule).value, k, w)
    decreases |schedule|
  {
    hide Inv, Next, HoldsOld, Fresh;
    if schedule != [] {
      var (i, a) := schedule[0];
      var s' := Next(s, i, a).value;
      StepShape(s, i, a);
      InvStep(s, i, a);
      forall j | 0 <= j < |s.threads|
        ensures !HoldsOld(s', j, k, w)
      {
        OldSamplesShrink(s, i, a, j, k, w);
      }
      if Fresh(s, k, w) {
        FreshStep(s, i, a, k, w);
      }
      NoneHoldsOldRun(s', schedule[1..], k, w);
    }
  }

  // ---------- a state in which somebody does ----------

  /** How many steps get a thread back to Ready, at most, if the device and the database fail it. */
  function StepsLeft(s: State, pc: Pc): nat {
    match pc
    case WantClient(_) => 7
    case Locked(_) => 6
    case Addressed(_) => 5
    case Pausing(_, until) => if s.now < until then 4 else 3
    case OnWire(_, _) => 2
    case Replied(_, _) => 1
    case WantReset => 2
    case _ => 1
  }

  function ClientWait(s: State, i: nat): nat
    requires i < |s.threads|
  {
    if WaitsForClient(s.threads[i].pc) && s.mutex.Some? && s.mutex.value < |s.threads|
    then StepsLeft(s, s.threads[s.mutex.value].pc) else 0
  }

  /** How many steps get what thread i holds into the table, at most. */
  function Distance(s: State, i: nat): nat
    requires i < |s.threads|
  {
    var t := s.threads[i];
    match t.pc
    case InTx(_, _, _, done, _) => if done <= |t.batch| then |t.batch| - done else 0
    case WantCommit(_, _) => |t.batch| + 1 + if s.conn.Some? then 1 else 0
    case Ready => |t.batch| + 3
    case pc => |t.batch| + 5 + StepsLeft(s, pc) + ClientWait(s, i)
  }

  /** What gets thread j on its way without giving it a new sample. */
  function Forced(s: State, j: nat): Action
    requires j < |s.threads|
  {
    var t := s.threads[j];
    match t.pc
    case Ready => StartFlush
    case Scanning(_, _, _, _) => FailScan
    case WantSweep(_, _) => FailSweep
    case Pausing(_, until) => if s.now < until then Tick(until - s.now) else Send
    case _ => NextMove(t)
  }

  /** One step towards a flush by thread i: its own, or that of the thread whose lock it wants. */
  function Forcing(s: State, i: nat): (nat, Action)
    requires Inv(s) && i < |s.threads|
  {
    var pc := s.threads[i].pc;
    if WaitsForClient(pc) && s.mutex.Some? then (s.mutex.value, Forced(s, s.mutex.value))
    else if pc.WantCommit? && s.conn.Some?
    then (s.conn.value, if s.threads[s.conn.value].pc.InTx? then Rollback else FailScan)
    else (i, Forced(s, i))
  }

  predicate AboutToCommit(t: Thread) { t.pc.InTx? && t.pc.done == |t.batch| }

  predicate CanForce(s: State, j: nat)
    requires j < |s.threads|
  {
    var pc := s.threads[j].pc;
    HoldsClient(pc) || pc.Asleep? || (WaitsForClient(pc) && s.mutex.None?)
  }

  lemma ForcedMoves(s: State, j: nat)
    requires Inv(s) && j < |s.threads| && CanForce(s, j)
    ensures Next(s, j, Forced(s, j)).Some?
    ensures HoldsClient(s.threads[j].pc) ==> s.mutex == Some(j)
  {
    hide SourceInv, TableInv, TimeInv, GoodLog, WriteOf, Remembers;
    assert HoldsClient(s.threads[j].pc) ==> s.mutex == Some(j) && HolderOk(s, s.threads[j].pc);
    if !InPause(s, s.threads[j].pc) {
      ClientMoves(s, j);
    }
  }

  /** What thread j and its lock become: still in its exchange but closer to its end, or done with it. */
  ghost predicate Advanced(s: State, j: nat, s': State)
    requires j < |s.threads| && j < |s'.threads|
  {
    var t, t' := s.threads[j], s'.threads[j];
    && t'.batch + OnTheWay(s', t'.pc) == t.batch + OnTheWay(s, t.pc)
    && if HoldsClient(t'.pc)
       then s'.mutex == Some(j) && t'.batch == t.batch && StepsLeft(s', t'.pc) < StepsLeft(s, t.pc)
       else t'.pc.Ready? && (HoldsClient(t.pc) ==> s'.mutex == None)
  }

  lemma TickAdvances(s: State, j: nat)
    requires j < |s.threads| && s.threads[j].pc.Pausing? && s.now < s.threads[j].pc.until && s.mutex == Some(j)
    ensures Advanced(s, j, s.(now := s.now + (s.threads[j].pc.until - s.now)))
  {
  }

  lemma StepAdvances(s: State, j: nat, a: Action)
    requires j < |s.threads| && CanForce(s, j) && ClientStep(s, j, a).Some?
    requires a.Receive? ==> a.reply.Failed?
    requires HoldsClient(s.threads[j].pc) ==> s.mutex == Some(j)
    ensures var s' := ClientStep(s, j, a).value;
            |s'.threads| == |s.threads| && s'.conn == s.conn && Advanced(s, j, s')
  {
    hide WriteOf, PauseEnd;
  }

  lemma ForcedAdvances(s: State, j: nat)
    requires j < |s.threads| && CanForce(s, j) && Next(s, j, Forced(s, j)).Some?
    requires HoldsClient(s.threads[j].pc) ==> s.mutex == Some(j)
    ensures var s' := Next(s, j, Forced(s, j)).value;
            |s'.threads| == |s.threads| && s'.conn == s.conn && Advanced(s, j, s')
  {
    hide ClientStep, LookupStep, TableStep, Advanced;
    if Forced(s, j).Tick? {
      TickAdvances(s, j);
    } else {
      StepAdvances(s, j, Forced(s, j));
    }
  }

  lemma ForcedClient(s: State, j: nat)
    requires Inv(s) && j < |s.threads| && CanForce(s, j)
    ensures Next(s, j, Forced(s, j)).Some?
    ensures var s' := Next(s, j, Forced(s, j)).value;
            && |s'.threads| == |s.threads| && s'.conn == s.conn && s.log <= s'.log
            && (forall i :: 0 <= i < |s.threads| && i != j ==> s'.threads[i] == s.threads[i])
            && Advanced(s, j, s')
  {
    hide Inv, Next, Forced, Advanced, CanForce;
    ForcedMoves(s, j);
    ForcedAdvances(s, j);
    StepShape(s, j, Forced(s, j));
  }

  /** One forcing step is possible, comes closer to the flush, and leaves thread i what it holds. */
  ghost predicate Closer(s: State, i: nat, s': State, k: Key)
    requires i < |s.threads|
  {
    && |s'.threads| == |s.threads| && s.log <= s'.log
    && Outstanding(s', i, k) == Outstanding(s, i, k) && Distance(s', i) < Distance(s, i)
  }

  lemma ForceHolder(s: State, i: nat, k: Key)
    requires Inv(s) && i < |s.threads| && WaitsForClient(s.threads[i].pc) && s.mutex.Some?
    ensures Next(s, s.mutex.value, Forced(s, s.mutex.value)).Some?
    ensures Closer(s, i, Next(s, s.mutex.value, Forced(s, s.mutex.value)).value, k)
  {
    hide SourceInv, TableInv, TimeInv, WireInv, Next, Forced;
    var j := s.mutex.value;
    assert HoldsClient(s.threads[j].pc) && j != i;
    ForcedClient(s, j);
  }

  lemma FreeConn(s: State, i: nat, k: Key)
    requires Inv(s) && i < |s.threads| && s.threads[i].pc.WantCommit? && s.conn.Some?
    ensures Next(s, Forcing(s, i).0, Forcing(s, i).1).Some?
    ensures Closer(s, i, Next(s, Forcing(s, i).0, Forcing(s, i).1).value, k)
  {
    hide SourceInv, TableInv, TimeInv, WireInv, LastCovering;
    var j := s.conn.value;
    assert HoldsConn(s.threads[j].pc) && j != i;
  }

  lemma ForceClient(s: State, i: nat, k: Key)
    requires Inv(s) && i < |s.threads|
    requires CanForce(s, i)
    ensures Next(s, i, Forced(s, i)).Some?
    ensures Closer(s, i, Next(s, i, Forced(s, i)).value, k)
  {
    hide Inv, Next, Forced, LastCovering;
    ForcedClient(s, i);
    var s' := Next(s, i, Forced(s, i)).value;
    if s'.threads[i].pc.Ready? {
      assert OnTheWay(s', s'.threads[i].pc) == [];
      assert |s'.threads[i].batch| <= |s.threads[i].batch| + 1;
    }
  }

  lemma ForceUpdate(s: State, i: nat, k: Key)
    requires Inv(s) && i < |s.threads|
    requires var t := s.threads[i];
             (t.pc.Ready? && t.batch != []) || (t.pc.WantCommit? && s.conn.None?) || t.pc.WantSweep?
             || (t.pc.InTx? && !AboutToCommit(t))
    ensures Next(s, i, Forced(s, i)).Some?
    ensures Closer(s, i, Next(s, i, Forced(s, i)).value, k)
  {
    hide SourceInv, TimeInv, WireInv, LockInv, LastCovering, Format, Apply;
    assert ThreadOk(s, s.threads[i]);
  }

  lemma ForcingStep(s: State, i: nat, k: Key)
    requires Inv(s) && i < |s.threads| && Outstanding(s, i, k).Some? && !AboutToCommit(s.threads[i])
    ensures Next(s, Forcing(s, i).0, Forcing(s, i).1).Some?
    ensures Closer(s, i, Next(s, Forcing(s, i).0, Forcing(s, i).1).value, k)
  {
    hide Next, Forced, Closer, LockInv, WireInv, SourceInv, TimeInv;
    var t := s.threads[i];
    assert ThreadOk(s, t);
    if WaitsForClient(t.pc) && s.mutex.Some? {
      ForceHolder(s, i, k);
    } else if t.pc.WantCommit? && s.conn.Some? {
      FreeConn(s, i, k);
    } else if HoldsClient(t.pc) || t.pc.Asleep? || WaitsForClient(t.pc) {
      ForceClient(s, i, k);
    } else {
      ForceUpdate(s, i, k);
    }
  }

  /** The entry under k, if any, comes from sample x. */
  predicate Shows(s: State, k: Key, x: Sample) {
    var o := Author(s.initial, s.committed, k);
    o.Some? && o.value.Written? && o.value.sample == x
  }

  /** What a thread has outstanding it can get into the table, whatever the others are in the middle of. */
  lemma {:induction false} OutstandingComes(s: State, i: nat, k: Key) returns (schedule: seq<(nat, Action)>)
    requires Inv(s) && i < |s.threads| && Outstanding(s, i, k).Some?
    ensures Run(s, schedule).Some? && Shows(Run(s, schedule).value, k, Outstanding(s, i, k).value)
    decreases Distance(s, i)
  {
    hide Inv, Next, Shows, LastCovering;
    if AboutToCommit(s.threads[i]) {
      assert s.threads[i].batch + [] == s.threads[i].batch;
      CommitMoves(s, i);
      CommitShows(s, i, k);
      schedule := [(i, CommitTx)];
      assert Run(Next(s, i, CommitTx).value, schedule[1..]) == Some(Next(s, i, CommitTx).value);
    } else {
      var (j, a) := Forcing(s, i);
      ForcingStep(s, i, k);
      InvStep(s, j, a);
      var rest := OutstandingComes(Next(s, j, a).value, i, k);
      schedule := [(j, a)] + rest;
      assert schedule[1..] == rest;
    }
  }

  lemma CommitShows(s: State, i: nat, k: Key)
    requires Next(s, i, CommitTx).Some? && LastCovering(s.threads[i].batch, k).Some?
    ensures Shows(Next(s, i, CommitTx).value, k, LastCovering(s.threads[i].batch, k).value)
  {
    hide Format;
    AuthorAppend(s.initial, s.committed, Commit(s.threads[i].batch, s.threads[i].pc.stamp), k);
  }

  lemma CommitMoves(s: State, i: nat)
    requires i < |s.threads| && AboutToCommit(s.threads[i])
    ensures Next(s, i, CommitTx).Some?
  {
  }

  // ---------- exactly when ----------

  ghost predicate AlwaysFresh(s: State, k: Key, w: nat) {
    forall schedule :: Run(s, schedule).Some? ==> Fresh(Run(s, schedule).value, k, w)
  }

  /**
   A fresh value of k stays fresh under every schedule if and only if no thread's unflushed
   samples of k, the one on its way included, end in one taken before exchange w.
   */
  lemma StaysFresh(s: State, k: Key, w: nat)
    requires Reachable(s) && w <= |s.log| && Fresh(s, k, w)
    ensures AlwaysFresh(s, k, w) <==> NoneHoldsOld(s, k, w)
  {
    hide Fresh, Outstanding, Run;
    ReachableInv(s);
    if NoneHoldsOld(s, k, w) {
      forall schedule | Run(s, schedule).Some?
        ensures Fresh(Run(s, schedule).value, k, w)
      {
        NoneHoldsOldRun(s, schedule, k, w);
      }
    } else {
      var i :| 0 <= i < |s.threads| && HoldsOld(s, i, k, w);
      var schedule := OutstandingComes(s, i, k);
      NotFresh(Run(s, schedule).value, k, w, Outstanding(s, i, k).value);
    }
  }

  lemma NotFresh(s: State, k: Key, w: nat, x: Sample)
    requires Shows(s, k, x) && x.source < w
    ensures !Fresh(s, k, w)
  {
  }

  // ---------- when old values are gone ----------

  predicate UnloadsIn(schedule: seq<(nat, Action)>, i: nat) {
    exists n :: 0 <= n < |schedule| && schedule[n].0 == i && Unloads(schedule[n].1)
  }

  /** A thread that held nothing old, or has flushed or dropped what it had, holds nothing old. */
  lemma {:induction false} Unloaded(s: State, schedule: seq<(nat, Action)>, i: nat, k: Key, w: nat)
    requires Inv(s) && w <= |s.log| && i < |s.threads| && Run(s, schedule).Some?
    requires !HoldsOld(s, i, k, w) || UnloadsIn(schedule, i)
    ensures i < |Run(s, schedule).value.threads| && !HoldsOld(Run(s, schedule).value, i, k, w)
    decreases |schedule|
  {
    hide Inv, Next, HoldsOld;
    if schedule != [] {
      var (j, a) := schedule[0];
      var s' := Next(s, j, a).value;
      StepShape(s, j, a);
      InvStep(s, j, a);
      if !HoldsOld(s, i, k, w) || (j == i && Unloads(a)) {
        OldSamplesShrink(s, j, a, i, k, w);
      } else {
        var n :| 0 <= n < |schedule| && schedule[n].0 == i && Unloads(schedule[n].1);
        assert schedule[1..][n - 1] == schedule[n];
      }
      Unloaded(s', schedule[1..], i, k, w);
    }
  }

  /**
   Let s0 be a state in which exchange w, an accepted write, is in the log. Let every thread that
   holds an older sample of k flush or drop it, then let one batch with a sample of k commit, and
   let any schedule follow: the cache holds no value of k sampled before w.
   */
  lemma StaleValuesGone(s0: State, before: seq<(nat, Action)>, s1: State, i: nat, s2: State,
                        after: seq<(nat, Action)>, s3: State, k: Key, w: nat)
    requires Reachable(s0) && w < |s0.log| && Run(s0, before) == Some(s1)
    requires forall j :: 0 <= j < |s0.threads| ==> !HoldsOld(s0, j, k, w) || UnloadsIn(before, j)
    requires Next(s1, i, CommitTx) == Some(s2) && LastCovering(s1.threads[i].batch, k).Some?
    requires Run(s2, after) == Some(s3)
    ensures NoneHoldsOld(s1, k, w) && Fresh(s3, k, w)
    ensures k in s3.table ==> exists j :: w <= j < |s3.log| && Carries(s3.log[j], k, s3.table[k].value)
  {
    hide Inv, HoldsOld, Run, Next, Fresh, LastCovering, Carries;
    ReachableInv(s0);
    RunShape(s0, before);
    forall j | 0 <= j < |s1.threads|
      ensures !HoldsOld(s1, j, k, w)
    {
      Unloaded(s0, before, j, k, w);
    }
    InvRun(s0, before);
    FlushedFresh(s1, i, s2, k, w);
    NoneHoldsOldRun(s2, after, k, w);
    InvRun(s2, after);
    FreshValue(s3, k, w);
  }

  lemma {:induction false} RunShape(s: State, schedule: seq<(nat, Action)>)
    requires Run(s, schedule).Some?
    ensures |Run(s, schedule).value.threads| == |s.threads| && |s.log| <= |Run(s, schedule).value.log|
    decreases |schedule|
  {
    hide Next;
    if schedule != [] {
      StepShape(s, schedule[0].0, schedule[0].1);
      RunShape(Next(s, schedule[0].0, schedule[0].1).value, schedule[1..]);
    }
  }

  lemma FlushedFresh(s: State, i: nat, s': State, k: Key, w: nat)
    requires Inv(s) && w <= |s.log| && NoneHoldsOld(s, k, w)
    requires Next(s, i, CommitTx) == Some(s') && LastCovering(s.threads[i].batch, k).Some?
    ensures Inv(s') && w <= |s'.log| && NoneHoldsOld(s', k, w) && Fresh(s', k, w)
  {
    hide Inv, Fresh, LastCovering, Author, Apply, WriteOf;
    InvStep(s, i, CommitTx);
    CommitFreshness(s, i, k, w);
    assert !HoldsOld(s, i, k, w) && s.threads[i].batch + [] == s.threads[i].batch;
    assert Run(s', []) == Some(s') && [(i, CommitTx)][1..] == [];
    NoneHoldsOldRun(s, [(i, CommitTx)], k, w);
  }

  lemma FreshValue(s: State, k: Key, w: nat)
    requires Inv(s) && Fresh(s, k, w)
    ensures k in s.table ==> exists j :: w <= j < |s.log| && Carries(s.log[j], k, s.table[k].value)
  {
    hide Inv, Carries, Author;
    if k in s.table {
      AuthorCarries(s, k);
      var j := Author(s.initial, s.committed, k).value.sample.source;
      assert Carries(s.log[j], k, s.table[k].value);
    }
  }
}
