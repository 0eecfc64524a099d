/** What holds in every interleaving of the poller and the handlers. */
module Interleavings {
  import opened Words
  import opened Timestamps
  import opened Registers
  import opened History
  import opened Client
  import opened Proxy

  // ---------- exclusion, addressing, pacing ----------

  /**
   At most one thread is at the device, and at most one is inside a transaction or a scan: the
   recorded holder of that lock.
   */
  lemma MutualExclusion(s: State, i: nat, j: nat)
    requires Reachable(s) && i < |s.threads| && j < |s.threads|
    ensures HoldsClient(s.threads[i].pc) && HoldsClient(s.threads[j].pc) ==> i == j
    ensures HoldsConn(s.threads[i].pc) && HoldsConn(s.threads[j].pc) ==> i == j
    ensures HoldsClient(s.threads[i].pc) <==> s.mutex == Some(i)
    ensures HoldsConn(s.threads[i].pc) <==> s.conn == Some(i)
  {
    ReachableInv(s);
  }

  /**
   The whole history of the device connection is ordered, paced and correctly addressed, and so is
   the exchange under way.
   */
  lemma DeviceDiscipline(s: State)
    requires Reachable(s)
    ensures Ordered(s.log) && Paced(s.log, s.pause) && RightUnit(s.log)
    ensures forall i :: 0 <= i < |s.threads| && s.threads[i].pc.OnWire? ==>
              && s.slaveId == s.threads[i].pc.call.unit
              && forall e :: e in s.log ==> EndOf(e) <= s.threads[i].pc.start
    ensures forall i :: 0 <= i < |s.threads| && s.threads[i].pc.OnWire? && s.log != []
                        && s.log[|s.log| - 1].Exchange? ==>
              s.log[|s.log| - 1].end + s.pause <= s.threads[i].pc.start
  {
    hide SourceInv, TableInv, TimeInv;
    ReachableInv(s);
    forall i, e | 0 <= i < |s.threads| && s.threads[i].pc.OnWire? && e in s.log
      ensures EndOf(e) <= s.threads[i].pc.start
    {
      var n :| 0 <= n < |s.log| && s.log[n] == e;
      assert s.mutex == Some(i);
      if n < |s.log| - 1 {
        assert EndOf(s.log[n]) <= s.log[|s.log| - 1].start;
      }
    }
    forall i | 0 <= i < |s.threads| && s.threads[i].pc.OnWire?
      ensures s.mutex == Some(i)
    {
    }
  }

  /**
   How long a thread pauses is fixed by the last exchange of anyone: what is left of the pause
   since then, if anything.
   */
  lemma PauseStep(s: State, i: nat)
    requires Next(s, i, Pause).Some?
    ensures var pc := Next(s, i, Pause).value.threads[i].pc;
            && pc.Pausing?
            && match s.lastRead
               case None => pc.until == s.now
               case Some(t) =>
                 && pc.until >= s.now && pc.until >= t + s.pause
                 && (pc.until == s.now || pc.until == t + s.pause)
  {
    PauseLaw(s.lastRead, s.pause, s.now);
  }

  /** The call goes out when the pause is over and not before. */
  lemma SendStep(s: State, i: nat)
    requires i < |s.threads| && s.threads[i].pc.Pausing?
    ensures Next(s, i, Send).Some? <==> s.threads[i].pc.until <= s.now
  {
  }

  /**
   The poller only reads; a handler reads nothing but a range that its lookup has just missed, and
   holds no sample when it calls.
   */
  lemma SubmitStep(s: State, i: nat, call: Call)
    requires Next(s, i, Submit(call)).Some?
    ensures i == 0 ==> call.Read?
    ensures i != 0 ==> s.threads[i].batch == []
    ensures i != 0 && call.Read? ==>
              var pc := s.threads[i].pc;
              && pc.Answered? && pc.result.None?
              && call.unit == pc.q.unit && call.address == pc.q.address && call.count == pc.q.count
  {
  }

  // ---------- provenance ----------

  /** The register that starts at byte 2 * n of `bytes`, high byte first. */
  predicate RegisterAt(bytes: seq<uint8>, n: nat, value: uint16) {
    2 * n + 1 < |bytes| && value as int == 256 * bytes[2 * n] as int + bytes[2 * n + 1] as int
  }

  /** The value an exchange read or wrote for k: what its bytes say at k's place, or the value written to k. */
  ghost predicate Carries(e: Event, k: Key, value: uint16) {
    && e.Exchange? && e.reply.Data? && e.slave == k.unit && e.call.unit == k.unit && k.address >= e.call.address
    && match e.call
       case Read(_, address, _) => RegisterAt(e.reply.bytes, k.address - address, value)
       case WriteSingle(_, address, written) => k.address == address && value == written
       case WriteMultiple(_, address, _, data) => RegisterAt(data, k.address - address, value)
  }

  lemma WriteCarries(e: Event, k: Key)
    requires e.Exchange? && e.reply.Data? && e.slave == e.call.unit && Covers(WriteOf(e.call, e.reply.bytes), k)
    ensures Carries(e, k, WriteOf(e.call, e.reply.bytes).values[k.address - WriteOf(e.call, e.reply.bytes).address])
  {
    var n := k.address - WriteOf(e.call, e.reply.bytes).address;
    if e.call.Read? {
      BigEndian(e.reply.bytes, n);
    } else if e.call.WriteMultiple? {
      BigEndian(e.call.data, n);
    }
  }

  lemma AuthorCarries(s: State, k: Key)
    requires Inv(s) && k in s.table
    ensures Author(s.initial, s.committed, k).Some?
    ensures match Author(s.initial, s.committed, k).value
            case Found(_) => Kept(s.initial, s.committed, k) && s.table[k] == s.initial[k]
            case Written(x, _) => x.source < |s.log| && Carries(s.log[x.source], k, s.table[k].value)
  {
    hide LockInv, SourceInv, TimeInv, Replay, LastCovering, Ordered, Paced, Carries;
    ReplayByKey(s.initial, s.committed, k);
    AuthorKept(s.initial, s.committed, k);
    if Author(s.initial, s.committed, k).value.Written? {
      var c := AuthorStands(s.initial, s.committed, k);
      AuthorFromLog(s, k, c);
      WriteCarries(s.log[OriginIn(s.committed[c], k).sample.source], k);
    }
  }

  /**
   Every cached value was found in the table at start-up and has not been touched since, or was
   read from, or accepted by, exactly that unit and address: the exchange that its author names.
   */
  lemma Provenance(s: State, k: Key)
    requires Reachable(s) && k in s.table
    ensures Author(s.initial, s.committed, k).Some?
    ensures match Author(s.initial, s.committed, k).value
            case Found(_) => Kept(s.initial, s.committed, k) && s.table[k] == s.initial[k]
            case Written(x, _) => x.source < |s.log| && Carries(s.log[x.source], k, s.table[k].value)
  {
    hide Inv, Author, Carries;
    ReachableInv(s);
    AuthorCarries(s, k);
  }

  lemma AuthorFromLog(s: State, k: Key, c: nat)
    requires Inv(s) && Stands(s.committed, k, c)
    ensures FromLog(s.log, OriginIn(s.committed[c], k).sample)
  {
    var xs := s.committed[c].samples;
    LastCoveringIn(xs, k);
    assert AllFromLog(s.log, xs);
  }

  lemma {:induction false} LastCoveringIn(xs: seq<Sample>, k: Key)
    requires LastCovering(xs, k).Some?
    ensures LastCovering(xs, k).value in xs
    decreases |xs|
  {
    if !Covers(xs[|xs| - 1].write, k) {
      LastCoveringIn(xs[..|xs| - 1], k);
    }
  }

  // ---------- range reads are snapshots ----------

  /** Thread i moved, and no history was rewritten; the table and its history changed only if `grows`. */
  ghost predicate OneMoved(s: State, i: nat, s': State, grows: bool) {
    && s.committed <= s'.committed && s.log <= s'.log && s'.initial == s.initial
    && (grows || (s'.committed == s.committed && s'.table == s.table))
    && |s'.threads| == |s.threads|
    && forall j :: 0 <= j < |s.threads| && j != i ==> s'.threads[j] == s.threads[j]
  }

  lemma LookupShape(s: State, i: nat, a: Action)
    requires i < |s.threads| && LookupStep(s, i, a).Some?
    ensures OneMoved(s, i, LookupStep(s, i, a).value, false)
  {
    hide Gather, Cell;
  }

  lemma TableShape(s: State, i: nat, a: Action)
    requires i < |s.threads| && TableStep(s, i, a).Some?
    ensures OneMoved(s, i, TableStep(s, i, a).value, a.CommitTx? || a.DoSweep?)
  {
    hide Sweep, Apply, Format;
  }

  lemma ClientShape(s: State, i: nat, a: Action)
    requires i < |s.threads| && ClientStep(s, i, a).Some?
    ensures OneMoved(s, i, ClientStep(s, i, a).value, false)
  {
    hide PauseEnd, WriteOf, MaySubmit, PossibleReply;
  }

  /** A step moves one thread, no step rewrites history, and only commits and sweeps touch the table. */
  lemma StepShape(s: State, i: nat, a: Action)
    requires Next(s, i, a).Some?
    ensures var s' := Next(s, i, a).value;
            && s.committed <= s'.committed && s.log <= s'.log && s'.initial == s.initial
            && (a.CommitTx? || a.DoSweep? || (s'.committed == s.committed && s'.table == s.table))
            && |s'.threads| == |s.threads|
            && forall j :: 0 <= j < |s.threads| && (a.Tick? || j != i) ==> s'.threads[j] == s.threads[j]
  {
    hide LookupStep, TableStep, ClientStep;
    if !a.Tick? {
      if IsLookup(a) {
        LookupShape(s, i, a);
      } else if IsUpdate(a) {
        TableShape(s, i, a);
      } else {
        ClientShape(s, i, a);
      }
    }
  }

  /**
   A lookup answers from one committed version of the table, no older than its request: the
   whole window, or nothing if the window is not all there or the query failed.
   */
  lemma SnapshotRead(s: State, i: nat)
    requires Reachable(s) && i < |s.threads| && s.threads[i].pc.Answered?
    ensures var t := s.threads[i].pc;
            && t.since <= t.version <= |s.committed|
            && t.result == if t.failed then None
                           else Window(Replay(s.initial, s.committed[..t.version]), t.q.unit, t.q.address, t.q.count)
  {
    ReachableInv(s);
    assert ThreadOk(s, s.threads[i]);
  }

  predicate InQuery(q: Query, group: set<Key>) {
    forall k :: k in group ==> k.unit == q.unit && q.address <= k.address < q.address + q.count
  }

  /** All of `group` as one write gave it. */
  ghost predicate ReadsOneWrite(q: Query, values: seq<uint16>, group: set<Key>, x: Sample)
    requires |values| == q.count && InQuery(q, group)
  {
    forall k :: k in group ==>
      Covers(x.write, k) && values[k.address - q.address] == x.write.values[k.address - x.write.address]
  }

  /** All of `group` as it was found at start-up. */
  ghost predicate ReadsFound(q: Query, values: seq<uint16>, group: set<Key>, m: Store)
    requires |values| == q.count && InQuery(q, group)
  {
    forall k :: k in group ==> k in m && values[k.address - q.address] == m[k].value
  }

  /** All of `group` is what one write of one of the operations `ops` put into the table, and no later one touched. */
  ghost predicate ReadsCommitted(m: Store, ops: seq<CacheOp>, q: Query, values: seq<uint16>, group: set<Key>)
    requires |values| == q.count && InQuery(q, group)
  {
    exists c, x :: GroupWrittenBy(m, ops, group, c, x) && ReadsOneWrite(q, values, group, x)
  }

  /**
   A lookup never returns a torn value: a group that every write covers as a whole or not at all
   comes from one write, the one that the version looked at has for all of the group, or is all
   as it was found at start-up.
   */
  lemma UntornLookup(s: State, i: nat, group: set<Key>)
    requires Reachable(s) && i < |s.threads| && s.threads[i].pc.Answered? && s.threads[i].pc.result.Some?
    requires Whole(s.initial, group) && Respects(s.committed, group) && group != {} && InQuery(s.threads[i].pc.q, group)
    ensures var t := s.threads[i].pc;
            && t.version <= |s.committed| && |t.result.value| == t.q.count
            && (ReadsFound(t.q, t.result.value, group, s.initial)
                || ReadsCommitted(s.initial, s.committed[..t.version], t.q, t.result.value, group))
  {
    SnapshotRead(s, i);
    var t := s.threads[i].pc;
    WindowUntorn(s.initial, s.committed[..t.version], t.q, group, t.result.value);
  }

  lemma WindowUntorn(m: Store, ops: seq<CacheOp>, q: Query, group: set<Key>, values: seq<uint16>)
    requires Whole(m, group) && Respects(ops, group) && group != {} && InQuery(q, group)
    requires Window(Replay(m, ops), q.unit, q.address, q.count) == Some(values)
    ensures |values| == q.count && (ReadsFound(q, values, group, m) || ReadsCommitted(m, ops, q, values, group))
  {
    hide Replay, Respects, WrittenBy, ReadsOneWrite, Whole;
    var k :| k in group;
    assert k == Key(q.unit, k.address);
    NoTornValues(m, ops, group);
    assert !GroupAbsent(Replay(m, ops), group);
    if GroupKept(m, Replay(m, ops), group) {
      KeptRead(m, Replay(m, ops), q, values, group);
    } else {
      var c, x :| GroupWrittenBy(m, ops, group, c, x);
      OneWriteRead(m, ops, q, values, group, c, x);
    }
  }

  lemma KeptRead(m: Store, table: Store, q: Query, values: seq<uint16>, group: set<Key>)
    requires InQuery(q, group) && GroupKept(m, table, group)
    requires Window(table, q.unit, q.address, q.count) == Some(values)
    ensures |values| == q.count && ReadsFound(q, values, group, m)
  {
    forall l | l in group
      ensures l in m && values[l.address - q.address] == m[l].value
    {
      assert values[l.address - q.address] == table[Key(q.unit, q.address + (l.address - q.address))].value;
    }
  }

  lemma OneWriteRead(m: Store, ops: seq<CacheOp>, q: Query, values: seq<uint16>, group: set<Key>, c: nat, x: Sample)
    requires InQuery(q, group) && GroupWrittenBy(m, ops, group, c, x)
    requires Window(Replay(m, ops), q.unit, q.address, q.count) == Some(values)
    ensures |values| == q.count && ReadsOneWrite(q, values, group, x)
  {
    hide Replay, Stands;
    forall l | l in group
      ensures Covers(x.write, l) && values[l.address - q.address] == x.write.values[l.address - x.write.address]
    {
      assert WrittenBy(m, ops, l, c, x);
      assert values[l.address - q.address] == Replay(m, ops)[Key(q.unit, q.address + (l.address - q.address))].value;
    }
  }

  // ---------- no deadlock ----------

  predicate WaitsForClient(pc: Pc) { pc.WantClient? || pc.WantReset? }

  predicate WaitsForConn(pc: Pc) { pc.WantScan? || pc.WantCommit? || pc.WantSweep? }

  predicate InPause(s: State, pc: Pc) { pc.Pausing? && s.now < pc.until }

  /** The next thing a busy thread does; on the wire, that is up to the device. */
  function NextMove(t: Thread): Action
    requires !t.pc.Ready?
  {
    match t.pc
    case WantScan(_, _) => OpenScan
    case Scanning(q, _, _, got) => if |got| < q.count then ScanRow else CloseScan
    case Answered(_, _, _, _, _) => Drop
    case WantClient(_) => Lock
    case Locked(_) => SetSlave
    case Addressed(_) => Pause
    case Pausing(_, _) => Send
    case OnWire(_, _) => Receive(Failed(Failure(false, true, false, false)))
    case Replied(_, _) => Unlock
    case WantReset => LockReset
    case Resetting => DoReset
    case WantCommit(_, _) => BeginTx
    case InTx(_, _, _, done, _) => if done < |t.batch| then ExecWrite else CommitTx
    case WantSweep(_, _) => DoSweep
    case Asleep(_) => Wake
  }

  predicate CanMove(s: State, i: nat)
    requires i < |s.threads|
  {
    !s.threads[i].pc.Ready? && Next(s, i, NextMove(s.threads[i])).Some?
  }

  /** The thread that i waits for: the holder of the lock it wants, or itself. */
  function WaitsOn(s: State, i: nat): nat
    requires i < |s.threads|
  {
    var pc := s.threads[i].pc;
    if WaitsForClient(pc) && s.mutex.Some? then s.mutex.value
    else if WaitsForConn(pc) && s.conn.Some? then s.conn.value
    else i
  }

  lemma LookupMoves(s: State, i: nat)
    requires i < |s.threads|
    requires (s.threads[i].pc.WantScan? && s.conn.None?) || s.threads[i].pc.Scanning?
    ensures LookupStep(s, i, NextMove(s.threads[i])).Some?
  {
  }

  lemma UpdateMoves(s: State, i: nat)
    requires i < |s.threads|
    requires WaitsForConn(s.threads[i].pc) && !s.threads[i].pc.WantScan? ==> s.conn.None?
    requires s.threads[i].pc.Answered? || s.threads[i].pc.WantCommit? || s.threads[i].pc.InTx?
             || s.threads[i].pc.WantSweep?
    ensures TableStep(s, i, NextMove(s.threads[i])).Some?
  {
  }

  lemma ClientMoves(s: State, i: nat)
    requires i < |s.threads| && (HoldsClient(s.threads[i].pc) ==> HolderOk(s, s.threads[i].pc))
    requires HoldsClient(s.threads[i].pc) || (WaitsForClient(s.threads[i].pc) && s.mutex.None?)
             || s.threads[i].pc.Asleep?
    requires !InPause(s, s.threads[i].pc)
    ensures ClientStep(s, i, NextMove(s.threads[i])).Some?
  {
  }

  lemma MovesUnlessBlocked(s: State, i: nat)
    requires Inv(s) && i < |s.threads| && !s.threads[i].pc.Ready?
    requires WaitsForClient(s.threads[i].pc) ==> s.mutex.None?
    requires WaitsForConn(s.threads[i].pc) ==> s.conn.None?
    requires !InPause(s, s.threads[i].pc)
    ensures CanMove(s, i)
  {
    hide SourceInv, TableInv, TimeInv, GoodLog, LookupStep, TableStep, ClientStep;
    var pc := s.threads[i].pc;
    if pc.WantScan? || pc.Scanning? {
      LookupMoves(s, i);
    } else if HoldsClient(pc) || WaitsForClient(pc) || pc.Asleep? {
      assert HoldsClient(pc) ==> s.mutex == Some(i);
      ClientMoves(s, i);
    } else {
      UpdateMoves(s, i);
    }
  }

  /** A step that takes thread i itself somewhere else. */
  predicate Advances(s: State, i: nat, a: Action)
    requires i < |s.threads|
  {
    && !a.Tick? && Next(s, i, a).Some? && i < |Next(s, i, a).value.threads|
    && Next(s, i, a).value.threads[i] != s.threads[i]
  }

  lemma LookupAdvances(s: State, i: nat, a: Action)
    requires i < |s.threads| && LookupStep(s, i, a).Some?
    ensures i < |LookupStep(s, i, a).value.threads| && LookupStep(s, i, a).value.threads[i] != s.threads[i]
  {
    hide Gather, Cell;
  }

  lemma TableAdvances(s: State, i: nat, a: Action)
    requires i < |s.threads| && TableStep(s, i, a).Some? && !s.threads[i].pc.Ready?
    ensures i < |TableStep(s, i, a).value.threads| && TableStep(s, i, a).value.threads[i] != s.threads[i]
  {
    hide Format, Apply, Sweep;
  }

  lemma ClientAdvances(s: State, i: nat, a: Action)
    requires i < |s.threads| && ClientStep(s, i, a).Some?
    ensures i < |ClientStep(s, i, a).value.threads| && ClientStep(s, i, a).value.threads[i] != s.threads[i]
  {
    hide WriteOf, PauseEnd, PossibleReply;
  }

  lemma MoveAdvances(s: State, i: nat)
    requires i < |s.threads| && CanMove(s, i)
    ensures Advances(s, i, NextMove(s.threads[i]))
  {
    hide LookupStep, TableStep, ClientStep;
    var a := NextMove(s.threads[i]);
    if IsLookup(a) {
      LookupAdvances(s, i, a);
    } else if IsUpdate(a) {
      TableAdvances(s, i, a);
    } else {
      ClientAdvances(s, i, a);
    }
  }

  /**
   Waiting chains have length one: whatever a busy thread waits for, the thread it waits on
   can step, awaits the device, or sleeps for at most the pause; it holds one lock and wants none.
   */
  lemma DeadlockFree(s: State, i: nat)
    requires Reachable(s) && i < |s.threads| && !s.threads[i].pc.Ready?
    ensures var j := WaitsOn(s, i);
            && j < |s.threads|
            && (j == i || (WaitsForClient(s.threads[i].pc) && s.mutex == Some(j))
                || (WaitsForConn(s.threads[i].pc) && s.conn == Some(j)))
            && ((CanMove(s, j) && Advances(s, j, NextMove(s.threads[j])))
                || (InPause(s, s.threads[j].pc)
                    && s.threads[j].pc.until <= s.now + if s.pause > 0 then s.pause else 0))
  {
    ReachableInv(s);
    var j := WaitsOn(s, i);
    if !InPause(s, s.threads[j].pc) {
      MovesUnlessBlocked(s, j);
      MoveAdvances(s, j);
    } else {
      assert s.mutex == Some(j) && HolderOk(s, s.threads[j].pc);
    }
  }
}
