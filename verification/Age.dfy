/**
 How old a cached entry can be. Sweeps compare texts, so they are off by less than a second; and
 an entry whose writer read its clock and then waited for the database can be older still.
 */
module Age {
  import opened Words
  import opened Timestamps
  import opened Registers
  import opened History
  import opened Client
  import opened Proxy
  import opened Schedules

  lemma SweepLookup(m: Store, k: Key, cutoff: string)
    requires k in m
    ensures k in Sweep(m, cutoff) <==> !TextLess(m[k].updatedAt, cutoff)
  {
  }

  /**
   A sweep keeps every entry of age up to ttl - 1 s, removes every one of age ttl + 1 s or more,
   and goes by whole seconds between.
   */
  lemma SweepError(m: Store, k: Key, at: nat, sweep: int, ttl: int, cutoff: nat)
    requires k in m && InRange(at) && m[k].updatedAt == Format(at)
    requires cutoff == sweep - ttl && InRange(cutoff)
    ensures sweep - at >= ttl + NANOS_PER_SECOND ==> k !in Sweep(m, Format(cutoff))
    ensures sweep - at <= ttl - NANOS_PER_SECOND ==> k in Sweep(m, Format(cutoff))
    ensures Second(at) < Second(cutoff) ==> k !in Sweep(m, Format(cutoff))
    ensures Second(at) > Second(cutoff) ==> k in Sweep(m, Format(cutoff))
  {
    SweepLookup(m, k, Format(cutoff));
    TextOrderError(at, cutoff);
  }

  // ---------- in every reachable state ----------

  /** The clock, and the clock less the TTL, lie in the years 0000 to 9999. */
  predicate ClockOk(s: State) { InRange(s.now) && InRange(s.now - s.ttl) }

  /** An entry written at `at` is younger than the TTL plus a second plus the time since sweep n. */
  predicate WithinBound(s: State, at: nat, n: nat)
    requires n < |s.clocks|
  {
    s.now - at < s.ttl + NANOS_PER_SECOND + (s.now - s.clocks[n].at)
  }

  predicate IsSweep(s: State, n: nat) { n < |s.committed| == |s.clocks| && s.committed[n].Expire? }

  lemma SurvivorBound(s: State, n: nat, at: nat)
    requires TimeInv(s) && ClockOk(s) && IsSweep(s, n)
    requires InRange(at) && !TextLess(Format(at), s.committed[n].cutoff)
    ensures WithinBound(s, at, n)
  {
    hide Format, TextLess;
    assert OpTimes(s.committed[n], s.clocks[n], s.ttl) && s.clocks[n].begun <= s.now;
    TextOrderError(at, s.clocks[n].at - s.ttl);
  }

  /** A flush reads the clock when it sets out, ... */
  lemma FlushSetsOut(s: State, i: nat)
    requires i < |s.threads| && Next(s, i, StartFlush).Some?
    ensures Next(s, i, StartFlush).value == Goto(s, i, WantCommit(s.now, Format(s.now)))
  {
    hide Format;
  }

  /** ... its transaction begins when it gets the connection, ... */
  lemma FlushBegins(s: State, i: nat)
    requires i < |s.threads| && s.threads[i].pc.WantCommit? && Next(s, i, BeginTx).Some?
    ensures var pc := s.threads[i].pc;
            Next(s, i, BeginTx).value == Goto(s, i, InTx(pc.at, pc.stamp, s.now, 0, s.table)).(conn := Some(i))
  {
    hide Format;
  }

  /** ... and a sweep too reads the clock when it sets out. */
  lemma SweepSetsOut(s: State, i: nat)
    requires i < |s.threads| && Next(s, i, StartSweep).Some?
    ensures s.now >= s.ttl && Next(s, i, StartSweep).value == Goto(s, i, WantSweep(s.now, Format(s.now - s.ttl)))
  {
    hide Format;
  }

  /**
   What a sweep of the running proxy does to an entry written at `at`, by the clock reading it
   set out with: older than the TTL by a second or more and the entry goes, younger by a second
   or more and it stays as it was.
   */
  lemma SweepStep(s: State, i: nat, k: Key, at: nat)
    requires Reachable(s) && Next(s, i, DoSweep).Some? && i < |s.threads| && s.threads[i].pc.WantSweep?
    requires k in s.table && InRange(at) && s.table[k].updatedAt == Format(at) && InRange(s.threads[i].pc.at - s.ttl)
    ensures var sweep, after := s.threads[i].pc.at, Next(s, i, DoSweep).value.table;
            && (sweep - at >= s.ttl + 1_000_000_000 ==> k !in after)
            && (sweep - at <= s.ttl - 1_000_000_000 ==> k in after && after[k] == s.table[k])
  {
    hide Format, TextLess, InRange, LockInv, WireInv, SourceInv, TableInv, Reachable;
    ReachableInv(s);
    assert PcTimes(s, s.threads[i].pc);
    SweepError(s.table, k, at, s.threads[i].pc.at, s.ttl, s.threads[i].pc.at - s.ttl);
  }

  /** How long the transaction of operation c waited for the database after it had read its clock. */
  function Waited(s: State, c: nat): int
    requires c < |s.clocks|
  {
    s.clocks[c].begun - s.clocks[c].at
  }

  /** Operation c on the table has its effect after operation n: then it got the connection after n's clock reading. */
  lemma LaterBegun(s: State, n: nat, c: nat)
    requires TimeInv(s) && n < c < |s.committed|
    ensures s.clocks[n].at <= s.clocks[c].begun
  {
    hide Format;
    assert OpTimes(s.committed[n], s.clocks[n], s.ttl) && s.clocks[n].begun <= s.clocks[c].begun;
  }

  lemma StandingBound(s: State, k: Key, c: nat, n: nat)
    requires TimeInv(s) && ClockOk(s) && IsSweep(s, n) && Stands(s.committed, k, c)
    requires n < c ==> Waited(s, c) < s.ttl + NANOS_PER_SECOND
    ensures WithinBound(s, s.clocks[c].at, n)
  {
    hide Format, TextLess;
    assert OpTimes(s.committed[c], s.clocks[c], s.ttl) && s.clocks[c].begun <= s.now;
    if n < c {
      LaterBegun(s, n, c);
    } else {
      assert n != c && !Expires(s.committed[n], s.committed[c].stamp);
      SurvivorBound(s, n, s.clocks[c].at);
    }
  }

  /**
   In every reachable state every entry, those found at start-up included, is younger than the
   TTL plus a second plus the time since any sweep, provided that its transaction, if it came
   after that sweep, waited less than the TTL plus a second for the database.
   */
  lemma BoundedAge(s: State, k: Key, at: nat, n: nat)
    requires Reachable(s) && ClockOk(s) && IsSweep(s, n)
    requires k in s.table && InRange(at) && s.table[k].updatedAt == Format(at)
    requires forall c: nat :: Stands(s.committed, k, c) && n < c && c < |s.clocks| ==>
             Waited(s, c) < s.ttl + NANOS_PER_SECOND
    ensures WithinBound(s, at, n)
  {
    hide Format, TextLess, InRange, LockInv, WireInv, SourceInv, Replay;
    ReachableInv(s);
    PresentIffStands(s.initial, s.committed, k);
    if Kept(s.initial, s.committed, k) {
      assert !Expires(s.committed[n], s.initial[k].updatedAt);
      SurvivorBound(s, n, at);
    } else {
      var c: nat :| Stands(s.committed, k, c);
      assert OpTimes(s.committed[c], s.clocks[c], s.ttl);
      SameReading(s, s.clocks[c].at, at);
      StandingBound(s, k, c, n);
    }
  }

  lemma SameReading(s: State, t: nat, u: nat)
    requires InRange(s.now) && t <= s.now && InRange(u) && Format(t) == Format(u)
    ensures t == u
  {
    hide Format;
    FormatInjective(t, u);
  }

  // ---------- exactly when ----------

  /**
   In no run, wherever sweeps fall, is an entry too old that was written with clock reading `at`
   by a transaction begun at `begun`.
   */
  ghost predicate AlwaysBounded(ttl: int, at: nat, begun: nat) {
    forall s, k, c: nat, n: nat ::
      Reachable(s) && s.ttl == ttl && ClockOk(s) && IsSweep(s, n)
      && Stands(s.committed, k, c) && c < |s.clocks| && s.clocks[c] == OpTime(at, begun)
      ==> WithinBound(s, at, n)
  }

  /**
   A writer can tell: what it writes keeps the bound, wherever sweeps fall, if and only if it
   got hold of the database within the TTL, a number of hours, plus a second of reading its clock.
   */
  lemma BoundedIffPrompt(hours: int, at: nat, begun: nat)
    requires at <= begun && InRange(begun) && InRange(begun - hours * 3_600_000_000_000)
    ensures AlwaysBounded(hours * 3_600_000_000_000, at, begun)
       <==> begun - at < hours * 3_600_000_000_000 + 1_000_000_000
  {
    hide Format, TextLess, InRange, LockInv, WireInv, SourceInv, TableInv, Reachable, Stands;
    var ttl := hours * 3_600_000_000_000;
    if begun - at < ttl + NANOS_PER_SECOND {
      forall s, k, c: nat, n: nat |
          Reachable(s) && s.ttl == ttl && ClockOk(s) && IsSweep(s, n)
          && Stands(s.committed, k, c) && c < |s.clocks| && s.clocks[c] == OpTime(at, begun)
        ensures WithinBound(s, at, n)
      {
        ReachableInv(s);
        StandingBound(s, k, c, n);
      }
    } else {
      var s := LateRun(ttl, at, begun);
      assert !WithinBound(s, at, 0);
    }
  }

  /**
   A handler writes a register and reads its clock; the poller sweeps; only then does the handler
   get the database.
   */
  lemma LateRun(ttl: int, at: nat, begun: nat) returns (s: State)
    requires at <= begun && InRange(begun) && InRange(begun - ttl)
    ensures Reachable(s) && s.ttl == ttl && s.now == begun && ClockOk(s)
    ensures IsSweep(s, 0) && s.clocks == [OpTime(begun, begun), OpTime(at, begun)]
    ensures Stands(s.committed, Key(1, 0), 1)
  {
    hide Format, Leads, WriteOf, Apply, Sweep, Run;
    var who: set<nat> := {0, 1};
    var start := Init(0, ttl, 2, at, map[]);
    LeadsNowhere(who, start);
    var call := WriteSingle(1, 0, 7);
    s := MakeCall(who, start, start, 1, call, Data([]), 0);
    var x := Sample(WriteOf(call, []), 0);
    s := LeadsByUpdate(who, start, s, 1, StartFlush);
    s := LeadsByTime(who, start, s, begun);
    s := SweepNow(who, start, s);
    s := LeadsByUpdate(who, start, s, 1, BeginTx);
    s := FinishFlush(who, start, s, 1, x, at, begun);
    ReachableFromInit(who, s, ttl, at);
    OneSample(call, x);
  }

  lemma SweepNow(who: set<nat>, start: State, s: State) returns (s': State)
    requires Leads(who, start, s) && 0 in who && s.threads != [] && s.threads[0].pc.Ready? && s.conn == None
             && s.now >= s.ttl
    ensures Leads(who, start, s')
    ensures s' == Goto(s, 0, Ready).(table := Sweep(s.table, Format(s.now - s.ttl)),
                                     committed := s.committed + [Expire(Format(s.now - s.ttl))],
                                     clocks := s.clocks + [OpTime(s.now, s.now)])
  {
    hide Format, Leads, WriteOf, Apply, Sweep;
    var s1 := LeadsByUpdate(who, start, s, 0, StartSweep);
    s' := LeadsByUpdate(who, start, s1, 0, DoSweep);
    GotoTwice(s, 0, s1.threads[0].pc, Ready);
  }

  lemma ReachableFromInit(who: set<nat>, s: State, ttl: int, now: nat)
    requires Leads(who, Init(0, ttl, 2, now, map[]), s)
    ensures Reachable(s)
  {
  }

  lemma OneSample(call: Call, x: Sample)
    requires call == WriteSingle(1, 0, 7) && x == Sample(WriteOf(call, []), 0)
    ensures LastCovering([x], Key(1, 0)) == Some(x)
  {
  }
}
