/** The reader's two loops over groups and units: the initial scan and the poll cycle. */
module Poller {
  import opened Words
  import opened Timestamps
  import opened Registers
  import opened History
  import opened Client
  import opened Config
  import opened Reader

  type Job = UnitItem<Group>

  /** What one call of readGroup meets. */
  datatype GroupEnv = GroupEnv(cancelled: bool, script: Script)

  /**
   What successive readGroup calls return: data, or None for an error. Past the end of the list
   the context is cancelled.
   */
  type Answers = seq<Option<seq<uint8>>>

  function Sampled(e: GroupEnv): Option<seq<uint8>> {
    if !e.cancelled && Result(e.script).Values? then Some(Result(e.script).bytes) else None
  }

  function Samples(calls: seq<GroupEnv>): Answers {
    if calls == [] then [] else Samples(calls[..|calls| - 1]) + [Sampled(calls[|calls| - 1])]
  }

  lemma {:induction false} SamplesAt(calls: seq<GroupEnv>, n: nat)
    ensures |Samples(calls)| == |calls|
    ensures n < |calls| ==> Samples(calls)[n] == Sampled(calls[n])
    decreases |calls|
  {
    if calls != [] {
      SamplesAt(calls[..|calls| - 1], n);
    }
  }

  predicate Succeeds(answers: Answers, n: nat) { n < |answers| && answers[n].Some? }

  /** What the n-th readGroup call, if it is for `job`, adds to the batch. */
  function Contribution(job: Job, answers: Answers, n: nat): seq<PendingWrite> {
    if Succeeds(answers, n) then [PendingWrite(job.unit, job.item.address, WordsOf(answers[n].value))] else []
  }

  /** The successful reads of the first m jobs, in order, when their readGroup calls are numbered from `first`. */
  function Batch(jobs: seq<Job>, answers: Answers, first: nat, m: nat): seq<PendingWrite>
    requires m <= |jobs|
  {
    if m == 0 then [] else Batch(jobs, answers, first, m - 1) + Contribution(jobs[m - 1], answers, first + m - 1)
  }

  function Successes(answers: Answers, first: nat, m: nat): nat {
    if m == 0 then 0 else Successes(answers, first, m - 1) + if Succeeds(answers, first + m - 1) then 1 else 0
  }

  /** A batch holds one write for each successful read, in the order of the reads, and nothing else. */
  lemma {:induction false} BatchExact(jobs: seq<Job>, answers: Answers, first: nat, m: nat, j: nat)
    requires m <= |jobs|
    ensures |Batch(jobs, answers, first, m)| == Successes(answers, first, m)
    ensures j < m && Succeeds(answers, first + j) ==>
              && Successes(answers, first, j) < |Batch(jobs, answers, first, m)|
              && [Batch(jobs, answers, first, m)[Successes(answers, first, j)]]
                 == Contribution(jobs[j], answers, first + j)
  {
    if m > 0 {
      BatchExact(jobs, answers, first, m - 1, j);
    }
  }

  // ---------- initial scan ----------

  function JobsRead<T>(jobs: seq<T>, answers: Answers, first: nat, m: nat): seq<T>
    requires m <= |jobs|
  {
    if m == 0 then []
    else
      var front := JobsRead(jobs, answers, first, m - 1);
      if Succeeds(answers, first + m - 1) then front + [jobs[m - 1]] else front
  }

  function JobsFailed<T>(jobs: seq<T>, answers: Answers, first: nat, m: nat): seq<T>
    requires m <= |jobs|
  {
    if m == 0 then []
    else
      var front := JobsFailed(jobs, answers, first, m - 1);
      if Succeeds(answers, first + m - 1) then front else front + [jobs[m - 1]]
  }

  /** The positions in [0, m) of the failed jobs. */
  function FailedPositions(answers: Answers, first: nat, m: nat): seq<nat> {
    if m == 0 then []
    else
      var front := FailedPositions(answers, first, m - 1);
      if Succeeds(answers, first + m - 1) then front else front + [m - 1]
  }

  /** One pass splits its jobs in two, ... */
  lemma {:induction false} PassSplits<T>(jobs: seq<T>, answers: Answers, first: nat, m: nat)
    requires m <= |jobs|
    ensures multiset(JobsRead(jobs, answers, first, m)) + multiset(JobsFailed(jobs, answers, first, m))
            == multiset(jobs[..m])
  {
    if m > 0 {
      PassSplits(jobs, answers, first, m - 1);
      var done, failed := JobsRead(jobs, answers, first, m - 1), JobsFailed(jobs, answers, first, m - 1);
      assert jobs[..m] == jobs[..m - 1] + [jobs[m - 1]];
      assert multiset(done + [jobs[m - 1]]) == multiset(done) + multiset{jobs[m - 1]};
      assert multiset(failed + [jobs[m - 1]]) == multiset(failed) + multiset{jobs[m - 1]};
    }
  }

  /** ... and keeps the order of those that fail: they are the jobs at increasing positions. */
  lemma {:induction false} PassKeepsOrder(jobs: seq<Job>, answers: Answers, first: nat, m: nat)
    requires m <= |jobs|
    ensures var ps := FailedPositions(answers, first, m);
            && |JobsFailed(jobs, answers, first, m)| == |ps|
            && (forall i :: 0 <= i < |ps| ==> ps[i] < m && JobsFailed(jobs, answers, first, m)[i] == jobs[ps[i]])
            && (forall i, j :: 0 <= i < j < |ps| ==> ps[i] < ps[j])
            && (forall q :: 0 <= q < m ==> (q in ps <==> !Succeeds(answers, first + q)))
  {
    hide Succeeds;
    if m > 0 {
      PassKeepsOrder(jobs, answers, first, m - 1);
    }
  }

  datatype Pass = Pass(tried: seq<Job>, first: nat, failed: seq<Job>, batch: seq<PendingWrite>)

  /** A pass calls readGroup once for each of its jobs. */
  predicate PassOk(p: Pass, answers: Answers) {
    && p.failed == JobsFailed(p.tried, answers, p.first, |p.tried|)
    && p.batch == Batch(p.tried, answers, p.first, |p.tried|)
  }

  predicate Follows(p: Pass, q: Pass) {
    p.failed != [] && q.tried == p.failed && q.first == p.first + |p.tried|
  }

  /** Each pass tries, in order, exactly what the one before it failed to read. */
  predicate Chained(jobs: seq<Job>, answers: Answers, passes: seq<Pass>) {
    && (passes != [] ==> passes[0].tried == jobs && passes[0].first == 0)
    && (forall n :: 0 <= n < |passes| ==> PassOk(passes[n], answers))
    && (forall n :: 0 < n < |passes| ==> Follows(passes[n - 1], passes[n]))
  }

  /** The scan ran to its end: nothing is pending, or all passes are used up. */
  predicate ScanDone(passes: seq<Pass>) {
    1 <= |passes| <= INITIAL_SCAN_PASSES && (|passes| < INITIAL_SCAN_PASSES ==> passes[|passes| - 1].failed == [])
  }

  /** What other threads commit before a transaction, its clock reading and its fate. */
  datatype CommitEnv = CommitEnv(others: seq<CacheOp>, now: nat, fault: WriteFault)

  function AfterBatch(m: Store, batch: seq<PendingWrite>, stamp: string, fault: WriteFault): Store {
    if Commits(fault, Upserts(batch)) then ApplyAll(m, batch, stamp) else m
  }

  /** The table after n passes: one transaction each, with those of other threads in between. */
  function FlushAll(m: Store, passes: seq<Pass>, text: nat -> string, commits: seq<CommitEnv>, n: nat): Store
    requires n <= |passes| && n <= |commits|
  {
    if n == 0 then m
    else
      var found := Replay(FlushAll(m, passes, text, commits, n - 1), commits[n - 1].others);
      AfterBatch(found, passes[n - 1].batch, text(commits[n - 1].now), commits[n - 1].fault)
  }

  lemma {:induction false} FlushPrefix(m: Store, passes: seq<Pass>, p: Pass, text: nat -> string,
                                       commits: seq<CommitEnv>, n: nat)
    requires n <= |passes| && n <= |commits|
    ensures FlushAll(m, passes + [p], text, commits, n) == FlushAll(m, passes, text, commits, n)
  {
    if n > 0 {
      FlushPrefix(m, passes, p, text, commits, n - 1);
    }
  }

  function Pending(jobs: seq<Job>, passes: seq<Pass>, n: nat): seq<Job>
    requires n <= |passes|
  {
    if n == 0 then jobs else passes[n - 1].failed
  }

  lemma PassTries(jobs: seq<Job>, answers: Answers, passes: seq<Pass>, n: nat)
    requires Chained(jobs, answers, passes) && n < |passes|
    ensures passes[n].tried == Pending(jobs, passes, n) && PassOk(passes[n], answers)
  {
    if n > 0 {
      assert Follows(passes[n - 1], passes[n]);
    }
  }

  /** A scan is over after three passes, or earlier if nothing is left. */
  lemma PassesLaw(passes: seq<Pass>)
    ensures ScanDone(passes) <==> passes != [] && (|passes| == 3 || (|passes| < 3 && passes[|passes| - 1].failed == []))
  {
  }

  /** What a pass leaves pending are jobs that were pending before it, in the same order. */
  lemma PendingKeepsOrder(jobs: seq<Job>, answers: Answers, passes: seq<Pass>, n: nat)
    requires Chained(jobs, answers, passes) && n < |passes|
    ensures var before, after := Pending(jobs, passes, n), Pending(jobs, passes, n + 1);
            var ps := FailedPositions(answers, passes[n].first, |before|);
            && |after| == |ps|
            && (forall i :: 0 <= i < |ps| ==> ps[i] < |before| && after[i] == before[ps[i]])
            && (forall i, j :: 0 <= i < j < |ps| ==> ps[i] < ps[j])
            && (forall q :: 0 <= q < |before| ==> (q in ps <==> !Succeeds(answers, passes[n].first + q)))
  {
    hide JobsFailed, FailedPositions, Succeeds, Batch, Chained;
    PassTries(jobs, answers, passes, n);
    PassKeepsOrder(passes[n].tried, answers, passes[n].first, |passes[n].tried|);
  }

  // ---------- what becomes of each entry of the list ----------

  /** The entries of a list, named by position, so that equal jobs are told apart. */
  function Places(total: nat): seq<nat> { seq(total, i => i) }

  /** The entries pending after n passes. */
  function PendingPlaces(total: nat, answers: Answers, passes: seq<Pass>, n: nat): seq<nat>
    requires n <= |passes|
  {
    if n == 0 then Places(total)
    else
      var tried := PendingPlaces(total, answers, passes, n - 1);
      JobsFailed(tried, answers, passes[n - 1].first, |tried|)
  }

  /** The entries that pass n reads. */
  function PlacesReadIn(total: nat, answers: Answers, passes: seq<Pass>, n: nat): seq<nat>
    requires n < |passes|
  {
    var tried := PendingPlaces(total, answers, passes, n);
    JobsRead(tried, answers, passes[n].first, |tried|)
  }

  function PlacesRead(total: nat, answers: Answers, passes: seq<Pass>, n: nat): seq<nat>
    requires n <= |passes|
  {
    if n == 0 then [] else PlacesRead(total, answers, passes, n - 1) + PlacesReadIn(total, answers, passes, n - 1)
  }

  predicate PassCommits(p: Pass, commit: CommitEnv) { Commits(commit.fault, Upserts(p.batch)) }

  /** The entries read in a pass whose transaction committed. */
  function PlacesStored(total: nat, answers: Answers, passes: seq<Pass>, commits: seq<CommitEnv>, n: nat): seq<nat>
    requires n <= |passes| && n <= |commits|
  {
    if n == 0 then []
    else PlacesStored(total, answers, passes, commits, n - 1)
         + if PassCommits(passes[n - 1], commits[n - 1]) then PlacesReadIn(total, answers, passes, n - 1) else []
  }

  predicate Located(jobs: seq<Job>, some: seq<Job>, places: seq<nat>) {
    |some| == |places| && forall i :: 0 <= i < |some| ==> places[i] < |jobs| && some[i] == jobs[places[i]]
  }

  lemma {:induction false} PassLocated(jobs: seq<Job>, tried: seq<Job>, places: seq<nat>, answers: Answers,
                                       first: nat, m: nat)
    requires Located(jobs, tried, places) && m <= |tried|
    ensures Located(jobs, JobsFailed(tried, answers, first, m), JobsFailed(places, answers, first, m))
    ensures Located(jobs, JobsRead(tried, answers, first, m), JobsRead(places, answers, first, m))
    ensures |JobsRead(places, answers, first, m)| == Successes(answers, first, m)
  {
    if m > 0 {
      PassLocated(jobs, tried, places, answers, first, m - 1);
    }
  }

  /** The pending places are those of the pending jobs. */
  lemma {:induction false} PendingLocated(jobs: seq<Job>, answers: Answers, passes: seq<Pass>, n: nat)
    requires Chained(jobs, answers, passes) && n <= |passes|
    ensures Located(jobs, Pending(jobs, passes, n), PendingPlaces(|jobs|, answers, passes, n))
  {
    hide JobsFailed, JobsRead, Successes, Batch;
    if n > 0 {
      PendingLocated(jobs, answers, passes, n - 1);
      PassTries(jobs, answers, passes, n - 1);
      var p := passes[n - 1];
      PassLocated(jobs, p.tried, PendingPlaces(|jobs|, answers, passes, n - 1), answers, p.first, |p.tried|);
    }
  }

  lemma {:induction false} EachPlaceOnce(total: nat, q: nat)
    ensures multiset(Places(total))[q] == if q < total then 1 else 0
  {
    if total > 0 {
      EachPlaceOnce(total - 1, q);
      assert Places(total) == Places(total - 1) + [total - 1];
    }
  }

  lemma {:induction false} PlacesSplit(total: nat, answers: Answers, passes: seq<Pass>, n: nat)
    requires n <= |passes|
    ensures multiset(PlacesRead(total, answers, passes, n)) + multiset(PendingPlaces(total, answers, passes, n))
         == multiset(Places(total))
  {
    hide JobsRead, JobsFailed, Places;
    if n > 0 {
      PlacesSplit(total, answers, passes, n - 1);
      var tried := PendingPlaces(total, answers, passes, n - 1);
      PassSplits(tried, answers, passes[n - 1].first, |tried|);
      assert tried[..|tried|] == tried;
      var read := PlacesRead(total, answers, passes, n - 1);
      assert multiset(read + PlacesReadIn(total, answers, passes, n - 1))
          == multiset(read) + multiset(PlacesReadIn(total, answers, passes, n - 1));
    }
  }

  /** After every pass, each entry of the list has been read exactly once or is pending exactly once. */
  lemma ScanConserves(jobs: seq<Job>, answers: Answers, passes: seq<Pass>, n: nat, q: nat)
    requires Chained(jobs, answers, passes) && n <= |passes| && q < |jobs|
    ensures multiset(PlacesRead(|jobs|, answers, passes, n))[q]
            + multiset(PendingPlaces(|jobs|, answers, passes, n))[q] == 1
    ensures Located(jobs, Pending(jobs, passes, n), PendingPlaces(|jobs|, answers, passes, n))
  {
    PlacesSplit(|jobs|, answers, passes, n);
    EachPlaceOnce(|jobs|, q);
    PendingLocated(jobs, answers, passes, n);
  }

  /** What is stored is some of what is read, ... */
  lemma {:induction false} StoredAreRead(total: nat, answers: Answers, passes: seq<Pass>, commits: seq<CommitEnv>,
                                         n: nat)
    requires n <= |passes| && n <= |commits|
    ensures multiset(PlacesStored(total, answers, passes, commits, n))
         <= multiset(PlacesRead(total, answers, passes, n))
  {
    hide PassCommits, PlacesReadIn;
    if n > 0 {
      StoredAreRead(total, answers, passes, commits, n - 1);
      var all := PlacesRead(total, answers, passes, n - 1);
      var stored := PlacesStored(total, answers, passes, commits, n - 1);
      var last := PlacesReadIn(total, answers, passes, n - 1);
      assert multiset(all + last) == multiset(all) + multiset(last);
      assert multiset(stored + last) == multiset(stored) + multiset(last);
    }
  }

  /** ... and all of it if and only if no pass loses anything. */
  lemma {:induction false} AllStored(total: nat, answers: Answers, passes: seq<Pass>, commits: seq<CommitEnv>, n: nat)
    requires n <= |passes| && n <= |commits|
    ensures |PlacesStored(total, answers, passes, commits, n)| <= |PlacesRead(total, answers, passes, n)|
    ensures |PlacesStored(total, answers, passes, commits, n)| == |PlacesRead(total, answers, passes, n)|
       <==> forall c :: 0 <= c < n && PlacesReadIn(total, answers, passes, c) != [] ==>
           PassCommits(passes[c], commits[c])
  {
    hide PassCommits, PlacesReadIn;
    if n > 0 {
      AllStored(total, answers, passes, commits, n - 1);
    }
  }

  lemma SameMultiset(a: seq<nat>, b: seq<nat>)
    requires multiset(a) <= multiset(b)
    ensures multiset(a) == multiset(b) <==> |a| == |b|
  {
    assert |multiset(a)| == |a| && |multiset(b)| == |b|;
    assert multiset(b) == multiset(a) + (multiset(b) - multiset(a));
  }

  /**
   No work is lost (each entry is stored by a committed transaction or still pending) if and
   only if every pass that has anything to flush manages to commit it: a failed flush is not
   tried again.
   */
  lemma ScanKeepsWork(jobs: seq<Job>, answers: Answers, passes: seq<Pass>, commits: seq<CommitEnv>, n: nat)
    requires Chained(jobs, answers, passes) && n <= |passes| && n <= |commits|
    ensures multiset(PlacesStored(|jobs|, answers, passes, commits, n))
            + multiset(PendingPlaces(|jobs|, answers, passes, n))
         == multiset(Places(|jobs|))
       <==> forall c :: 0 <= c < n && passes[c].batch != [] ==> PassCommits(passes[c], commits[c])
  {
    PlacesSplit(|jobs|, answers, passes, n);
    StoredAreRead(|jobs|, answers, passes, commits, n);
    AllStored(|jobs|, answers, passes, commits, n);
    SameMultiset(PlacesStored(|jobs|, answers, passes, commits, n), PlacesRead(|jobs|, answers, passes, n));
    forall c | 0 <= c < n
      ensures |PlacesReadIn(|jobs|, answers, passes, c)| == |passes[c].batch|
    {
      PendingLocated(jobs, answers, passes, c);
      PassTries(jobs, answers, passes, c);
      var p := passes[c];
      PassLocated(jobs, p.tried, PendingPlaces(|jobs|, answers, passes, c), answers, p.first, |p.tried|);
      BatchExact(p.tried, answers, p.first, |p.tried|, 0);
    }
    Cancel(multiset(PlacesStored(|jobs|, answers, passes, commits, n)),
           multiset(PlacesRead(|jobs|, answers, passes, n)),
           multiset(PendingPlaces(|jobs|, answers, passes, n)));
  }

  lemma Cancel(a: multiset<nat>, b: multiset<nat>, c: multiset<nat>)
    ensures a + c == b + c <==> a == b
  {
    assert (a + c) - c == a && (b + c) - c == b;
  }

  /**
   A run that meets it: one job, read at the first attempt, whose transaction does not commit. The
   scan is over, and the table as before.
   */
  lemma LostWorkWitness(job: Job, text: nat -> string, m: Store)
    returns (answers: Answers, passes: seq<Pass>, commits: seq<CommitEnv>)
    ensures Chained([job], answers, passes) && ScanDone(passes) && |passes| == |commits| == 1
    ensures PlacesRead(1, answers, passes, 1) == [0] && PlacesStored(1, answers, passes, commits, 1) == []
    ensures PendingPlaces(1, answers, passes, 1) == [] && FlushAll(m, passes, text, commits, 1) == m
  {
    hide PendingPlaces, PlacesRead, PlacesStored, Upserts;
    answers := [Some(seq(2 * job.item.count as int, _ => 0))];
    passes := [Pass([job], 0, [], Contribution(job, answers, 0))];
    commits := [CommitEnv([], 0, CommitFails)];
    OneRead([job], answers);
    OneBatch(job, answers);
    PlacesOfOne(answers, passes, commits);
    assert FlushAll(m, passes, text, commits, 0) == m && Replay(m, []) == m;
  }

  lemma PlacesOfOne(answers: Answers, passes: seq<Pass>, commits: seq<CommitEnv>)
    requires |passes| == |commits| == 1 && passes[0].first == 0 && Succeeds(answers, 0)
             && !PassCommits(passes[0], commits[0])
    ensures PlacesRead(1, answers, passes, 1) == [0] && PlacesStored(1, answers, passes, commits, 1) == []
    ensures PendingPlaces(1, answers, passes, 1) == []
  {
    hide PassCommits;
    OneRead([0 as nat], answers);
    assert Places(1) == [0] && PendingPlaces(1, answers, passes, 0) == [0];
    assert PlacesRead(1, answers, passes, 0) == [] && PlacesStored(1, answers, passes, commits, 0) == [];
  }

  lemma OneRead<T>(jobs: seq<T>, answers: Answers)
    requires |jobs| == 1 && Succeeds(answers, 0)
    ensures JobsRead(jobs, answers, 0, 1) == jobs && JobsFailed(jobs, answers, 0, 1) == []
  {
    assert JobsRead(jobs, answers, 0, 0) == [] && JobsFailed(jobs, answers, 0, 0) == [];
  }

  lemma OneBatch(job: Job, answers: Answers)
    ensures Batch([job], answers, 0, 1) == Contribution(job, answers, 0)
  {
    assert Batch([job], answers, 0, 0) == [];
  }

  // ---------- what is stored is in the table ----------

  lemma {:induction false} ReadAt<T>(jobs: seq<T>, answers: Answers, first: nat, m: nat, x: T) returns (j: nat)
    requires m <= |jobs| && x in JobsRead(jobs, answers, first, m)
    ensures j < m && Succeeds(answers, first + j) && jobs[j] == x
  {
    if Succeeds(answers, first + m - 1) && jobs[m - 1] == x {
      j := m - 1;
    } else {
      j := ReadAt(jobs, answers, first, m - 1, x);
    }
  }

  /**
   Every register of a batch is in the table afterwards, with the batch's timestamp and the value
   of the last write that covers it.
   */
  lemma {:induction false} BatchCached(m: Store, batch: seq<PendingWrite>, stamp: string, j: nat, k: Key)
    requires j < |batch| && Covers(batch[j], k)
    ensures var after := ApplyAll(m, batch, stamp);
            && k in after && after[k].updatedAt == stamp
            && ((forall l :: j < l < |batch| ==> !Covers(batch[l], k)) ==>
                  after[k].value == batch[j].values[k.address - batch[j].address])
    decreases |batch|
  {
    hide Apply;
    var n := |batch| - 1;
    ApplyLookup(ApplyAll(m, batch[..n], stamp), batch[n], stamp, k);
    if j < n {
      BatchCached(m, batch[..n], stamp, j, k);
    }
  }

  /**
   What the scan has stored of entry q: pass c read `data` for it and put that into the table as
   write j of its batch.
   */
  ghost predicate StoredBy(jobs: seq<Job>, passes: seq<Pass>, commits: seq<CommitEnv>, q: nat, c: nat, j: nat,
                           data: seq<uint8>)
    requires q < |jobs|
  {
    && c < |passes| && c < |commits| && PassCommits(passes[c], commits[c]) && j < |passes[c].batch|
    && passes[c].batch[j] == PendingWrite(jobs[q].unit, jobs[q].item.address, WordsOf(data))
  }

  /** An entry read in a pass is in the batch of that pass. */
  lemma ReadInBatch(jobs: seq<Job>, answers: Answers, passes: seq<Pass>, c: nat, q: nat)
    returns (j: nat, data: seq<uint8>)
    requires Chained(jobs, answers, passes) && c < |passes| && q < |jobs|
    requires q in PlacesReadIn(|jobs|, answers, passes, c)
    ensures j < |passes[c].batch| && Some(data) in answers
    ensures passes[c].batch[j] == PendingWrite(jobs[q].unit, jobs[q].item.address, WordsOf(data))
  {
    hide JobsRead, JobsFailed, Batch, Chained, Successes;
    var p := passes[c];
    PassTries(jobs, answers, passes, c);
    PendingLocated(jobs, answers, passes, c);
    var tried := PendingPlaces(|jobs|, answers, passes, c);
    var i := ReadAt(tried, answers, p.first, |tried|, q);
    BatchExact(p.tried, answers, p.first, |p.tried|, i);
    j := Successes(answers, p.first, i);
    data := answers[p.first + i].value;
    assert [p.batch[j]] == Contribution(p.tried[i], answers, p.first + i);
  }

  lemma {:induction false} StoredAt(jobs: seq<Job>, answers: Answers, passes: seq<Pass>, commits: seq<CommitEnv>,
                                    n: nat, q: nat)
    returns (c: nat, j: nat, data: seq<uint8>)
    requires Chained(jobs, answers, passes) && n <= |passes| && n <= |commits| && q < |jobs|
    requires q in PlacesStored(|jobs|, answers, passes, commits, n)
    ensures c < n && StoredBy(jobs, passes, commits, q, c, j, data)
    ensures Some(data) in answers
  {
    hide PassCommits, PlacesReadIn, Chained;
    c := n - 1;
    if PassCommits(passes[c], commits[c]) && q in PlacesReadIn(|jobs|, answers, passes, c) {
      j, data := ReadInBatch(jobs, answers, passes, c, q);
    } else {
      c, j, data := StoredAt(jobs, answers, passes, commits, n - 1, q);
    }
  }

  /** ... and there it stays, until an operation writes the register or a sweep removes it. */
  lemma StoredIsCached(m: Store, jobs: seq<Job>, passes: seq<Pass>, text: nat -> string, commits: seq<CommitEnv>,
                       q: nat, c: nat, j: nat, data: seq<uint8>, k: Key, later: seq<CacheOp>)
    requires q < |jobs| && StoredBy(jobs, passes, commits, q, c, j, data) && Covers(passes[c].batch[j], k)
    ensures var after := FlushAll(m, passes, text, commits, c + 1);
            && k in after && after[k].updatedAt == text(commits[c].now)
            && ((forall l :: j < l < |passes[c].batch| ==> !Covers(passes[c].batch[l], k)) ==>
                  after[k].value == WordsOf(data)[k.address - jobs[q].item.address])
            && (Kept(after, later, k) ==> k in Replay(after, later) && Replay(after, later)[k] == after[k])
  {
    hide ApplyAll, Replay, Upserts;
    var found := Replay(FlushAll(m, passes, text, commits, c), commits[c].others);
    BatchCached(found, passes[c].batch, text(commits[c].now), j, k);
    PresentIffStands(FlushAll(m, passes, text, commits, c + 1), later, k);
  }

  /** How often the first n passes hand entry q to readGroup. */
  function Tries(total: nat, answers: Answers, passes: seq<Pass>, q: nat, n: nat): nat
    requires n <= |passes|
  {
    if n == 0 then 0
    else Tries(total, answers, passes, q, n - 1) + multiset(PendingPlaces(total, answers, passes, n - 1))[q]
  }

  lemma {:induction false} ReadStays(total: nat, answers: Answers, passes: seq<Pass>, d: nat, n: nat, q: nat)
    requires d < n <= |passes| && q in PlacesReadIn(total, answers, passes, d)
    ensures q in PlacesRead(total, answers, passes, n) && q in PendingPlaces(total, answers, passes, d)
  {
    hide JobsRead, JobsFailed;
    if d < n - 1 {
      ReadStays(total, answers, passes, d, n - 1, q);
    } else {
      var tried := PendingPlaces(total, answers, passes, d);
      PassSplits(tried, answers, passes[d].first, |tried|);
      assert tried[..|tried|] == tried;
      assert q in multiset(PlacesReadIn(total, answers, passes, d));
      assert q in multiset(tried);
    }
  }

  /** Each entry is handed to readGroup once per pass until it is read, and never again. */
  lemma {:induction false} ScanTries(jobs: seq<Job>, answers: Answers, passes: seq<Pass>, q: nat, n: nat)
    requires Chained(jobs, answers, passes) && n <= |passes| && q < |jobs|
    ensures Tries(|jobs|, answers, passes, q, n) <= n
    ensures q in PendingPlaces(|jobs|, answers, passes, n) ==> Tries(|jobs|, answers, passes, q, n) == n
    ensures forall d :: 0 <= d < n && q in PlacesReadIn(|jobs|, answers, passes, d) ==>
            Tries(|jobs|, answers, passes, q, n) == d + 1
  {
    hide PlacesReadIn, Chained, PendingPlaces, PlacesRead, Pending;
    if n > 0 {
      ScanTries(jobs, answers, passes, q, n - 1);
      ScanConserves(jobs, answers, passes, n - 1, q);
      if q in PendingPlaces(|jobs|, answers, passes, n) {
        StillPending(|jobs|, answers, passes, q, n);
      }
      forall d | 0 <= d < n && q in PlacesReadIn(|jobs|, answers, passes, d)
        ensures Tries(|jobs|, answers, passes, q, n) == d + 1
      {
        ReadStays(|jobs|, answers, passes, d, d + 1, q);
        if d < n - 1 {
          ReadStays(|jobs|, answers, passes, d, n - 1, q);
        }
      }
    }
  }

  lemma StillPending(total: nat, answers: Answers, passes: seq<Pass>, q: nat, n: nat)
    requires 0 < n <= |passes| && q in PendingPlaces(total, answers, passes, n)
    ensures q in PendingPlaces(total, answers, passes, n - 1)
  {
    var tried := PendingPlaces(total, answers, passes, n - 1);
    PassSplits(tried, answers, passes[n - 1].first, |tried|);
    assert tried[..|tried|] == tried;
    assert q in multiset(PendingPlaces(total, answers, passes, n));
    assert q in multiset(tried);
  }

  lemma Distribute(n: nat, m: nat)
    ensures (n + 1) * m == n * m + m
  {
  }

  function NextFirst(passes: seq<Pass>): nat {
    if passes == [] then 0 else passes[|passes| - 1].first + |passes[|passes| - 1].tried|
  }

  lemma ChainGrows(jobs: seq<Job>, answers: Answers, passes: seq<Pass>, p: Pass)
    requires Chained(jobs, answers, passes) && (passes != [] ==> passes[|passes| - 1].failed != [])
    requires PassOk(p, answers) && p.tried == Pending(jobs, passes, |passes|) && p.first == NextFirst(passes)
    ensures Chained(jobs, answers, passes + [p])
  {
    var longer := passes + [p];
    forall n | 0 < n < |longer|
      ensures Follows(longer[n - 1], longer[n])
    {
      if n < |passes| {
        assert Follows(passes[n - 1], passes[n]);
      }
    }
  }

  // ---------- the poll cycle ----------

  /**
   Inputs of one cycle: whether the context is found cancelled at its start, else before which
   read; its readGroup calls; its clock readings in order; what other threads commit since the
   cycle before, until the sweep, and between sweep and flush.
   */
  datatype CycleEnv = CycleEnv(stopped: bool, limit: nat, calls: seq<GroupEnv>,
                               start: nat, check: nat, slowDone: nat, sweep: nat, sweepFails: bool, flush: nat,
                               fault: WriteFault, others: seq<CacheOp>, othersThen: seq<CacheOp>)

  datatype Plan = Plan(units: seq<uint8>, fast: seq<Group>, slow: seq<Group>, slowInterval: int, ttl: int)

  function FastJobs(p: Plan): seq<Job> { Pairs(p.fast, p.units) }

  function SlowJobs(p: Plan): seq<Job> { Pairs(p.slow, p.units) }

  predicate Due(p: Plan, e: CycleEnv, lastSlow: nat) { e.check - lastSlow >= p.slowInterval }

  function NextSlow(p: Plan, e: CycleEnv, lastSlow: nat): nat {
    if Due(p, e, lastSlow) then e.slowDone else lastSlow
  }

  /**
   Every fast group for every unit, and every slow group for every unit if due: the reads that
   succeeded, in that order.
   */
  function CycleBatch(p: Plan, e: CycleEnv, slow: bool): seq<PendingWrite> {
    var fast, rest := FastJobs(p), SlowJobs(p);
    Batch(fast, Samples(e.calls), 0, |fast|) + if slow then Batch(rest, Samples(e.calls), |fast|, |rest|) else []
  }

  /** A sweep, if slow groups were read, then one transaction with the whole batch. */
  function Flushed(p: Plan, text: nat -> string, m: Store, e: CycleEnv, slow: bool, batch: seq<PendingWrite>): Store
    requires e.sweep - p.ttl >= 0
  {
    var found := Replay(m, e.others);
    var swept := if slow && !e.sweepFails then Sweep(found, text(e.sweep - p.ttl)) else found;
    AfterBatch(Replay(swept, e.othersThen), batch, text(e.flush), e.fault)
  }

  function CycleTable(p: Plan, text: nat -> string, m: Store, e: CycleEnv, lastSlow: nat): Store
    requires e.sweep - p.ttl >= 0
  {
    var slow := Due(p, e, lastSlow);
    Flushed(p, text, m, e, slow, CycleBatch(p, e, slow))
  }

  predicate Uninterrupted(p: Plan, e: CycleEnv, lastSlow: nat) {
    && !e.stopped
    && (|FastJobs(p)| == 0 || |FastJobs(p)| <= e.limit)
    && (Due(p, e, lastSlow) && |SlowJobs(p)| > 0 ==> |FastJobs(p)| + |SlowJobs(p)| <= e.limit)
  }

  // ---------- what a cycle reads, call by call ----------

  predicate Answered(e: CycleEnv, n: nat) { n < |e.calls| && Sampled(e.calls[n]).Some? }

  /** How many of the first n readGroup calls of the cycle are answered. */
  function AnsweredTo(e: CycleEnv, n: nat): nat {
    if n == 0 then 0 else AnsweredTo(e, n - 1) + if Answered(e, n - 1) then 1 else 0
  }

  /**
   Call n, if answered, has its registers in the batch under `unit` and `address`, after those of
   the calls before it.
   */
  predicate InBatch(e: CycleEnv, n: nat, unit: uint8, address: uint16, batch: seq<PendingWrite>) {
    Answered(e, n) ==>
      && AnsweredTo(e, n) < |batch|
      && batch[AnsweredTo(e, n)] == PendingWrite(unit, address, WordsOf(Sampled(e.calls[n]).value))
  }

  /** From call number `first` on, the calls are for the groups in order, each for all units in turn. */
  ghost predicate ReadsGroups(p: Plan, e: CycleEnv, groups: seq<Group>, first: nat, batch: seq<PendingWrite>) {
    forall g, u :: 0 <= g < |groups| && 0 <= u < |p.units| ==>
      InBatch(e, first + (g * |p.units| + u), p.units[u], groups[g].address, batch)
  }

  /**
   The batch of a cycle: the answered calls for the fast groups, then those for the slow ones if
   they are due, and nothing else.
   */
  ghost predicate ReadsPlan(p: Plan, e: CycleEnv, slow: bool, batch: seq<PendingWrite>) {
    && |batch| == AnsweredTo(e, (|p.fast| + if slow then |p.slow| else 0) * |p.units|)
    && ReadsGroups(p, e, p.fast, 0, batch)
    && (slow ==> ReadsGroups(p, e, p.slow, |p.fast| * |p.units|, batch))
  }

  lemma {:induction false} AnsweredCounts(e: CycleEnv, first: nat, m: nat)
    ensures AnsweredTo(e, first + m) == AnsweredTo(e, first) + Successes(Samples(e.calls), first, m)
    ensures forall n :: first <= n < first + m ==> (Succeeds(Samples(e.calls), n) <==> Answered(e, n))
  {
    if m > 0 {
      AnsweredCounts(e, first, m - 1);
      SamplesAt(e.calls, first + m - 1);
    }
  }

  lemma CallInBatch(p: Plan, e: CycleEnv, groups: seq<Group>, first: nat, g: nat, u: nat)
    requires g < |groups| && u < |p.units|
    ensures var n := g * |p.units| + u;
            var jobs := Pairs(groups, p.units);
            var part := Batch(jobs, Samples(e.calls), first, |jobs|);
            n < |jobs| && (Answered(e, first + n) ==>
              var k := AnsweredTo(e, first + n) - AnsweredTo(e, first);
              && 0 <= k < |part|
              && part[k] == PendingWrite(p.units[u], groups[g].address, WordsOf(Sampled(e.calls[first + n]).value)))
  {
    hide Samples, Sampled, PairsTo, Batch, Successes;
    var n, jobs := g * |p.units| + u, Pairs(groups, p.units);
    PairsAt(groups, p.units, |groups|, g, u);
    AnsweredCounts(e, first, n);
    AnsweredCounts(e, first + n, 1);
    SamplesAt(e.calls, first + n);
    BatchExact(jobs, Samples(e.calls), first, |jobs|, n);
  }

  /** A cycle's batch, in terms of its groups and units. */
  lemma CycleReadsPlan(p: Plan, e: CycleEnv, slow: bool)
    ensures ReadsPlan(p, e, slow, CycleBatch(p, e, slow))
  {
    hide Samples, Sampled, Answered, AnsweredTo, Batch, Successes, PairsTo, Pairs;
    var batch := CycleBatch(p, e, slow);
    var fast, rest := Pairs(p.fast, p.units), Pairs(p.slow, p.units);
    var front := Batch(fast, Samples(e.calls), 0, |fast|);
    PlanSizes(p);
    PartSizes(p, e);
    forall g, u | 0 <= g < |p.fast| && 0 <= u < |p.units|
      ensures InBatch(e, 0 + (g * |p.units| + u), p.units[u], p.fast[g].address, batch)
    {
      CallInBatch(p, e, p.fast, 0, g, u);
    }
    if slow {
      forall g, u | 0 <= g < |p.slow| && 0 <= u < |p.units|
        ensures InBatch(e, |p.fast| * |p.units| + (g * |p.units| + u), p.units[u], p.slow[g].address, batch)
      {
        CallInBatch(p, e, p.slow, |fast|, g, u);
        AnsweredGrows(e, |fast|, g * |p.units| + u);
      }
    }
  }

  lemma PlanSizes(p: Plan)
    ensures |Pairs(p.fast, p.units)| == |p.fast| * |p.units| && |Pairs(p.slow, p.units)| == |p.slow| * |p.units|
    ensures (|p.fast| + |p.slow|) * |p.units| == |p.fast| * |p.units| + |p.slow| * |p.units|
  {
    PairsAt(p.fast, p.units, |p.fast|, 0, 0);
    PairsAt(p.slow, p.units, |p.slow|, 0, 0);
  }

  lemma PartSizes(p: Plan, e: CycleEnv)
    ensures var fast, rest := Pairs(p.fast, p.units), Pairs(p.slow, p.units);
            && AnsweredTo(e, 0) == 0
            && |Batch(fast, Samples(e.calls), 0, |fast|)| == AnsweredTo(e, |fast|)
            && |Batch(rest, Samples(e.calls), |fast|, |rest|)| == AnsweredTo(e, |fast| + |rest|) - AnsweredTo(e, |fast|)
  {
    hide Samples, Sampled, PairsTo, Pairs;
    var fast, rest := Pairs(p.fast, p.units), Pairs(p.slow, p.units);
    AnsweredCounts(e, 0, |fast|);
    AnsweredCounts(e, |fast|, |rest|);
    BatchExact(fast, Samples(e.calls), 0, |fast|, 0);
    BatchExact(rest, Samples(e.calls), |fast|, |rest|, 0);
  }

  lemma AnsweredGrows(e: CycleEnv, n: nat, m: nat)
    ensures AnsweredTo(e, n) <= AnsweredTo(e, n + m)
  {
    AnsweredCounts(e, n, m);
  }

  /** When a cycle is cut short: at its start, or before one of its reads. */
  lemma StoppedLaw(p: Plan, e: CycleEnv, lastSlow: nat)
    ensures var fast, slow := |p.fast| * |p.units|, |p.slow| * |p.units|;
            !Uninterrupted(p, e, lastSlow) <==>
              || e.stopped
              || (0 < fast && e.limit < fast)
              || (e.check - lastSlow >= p.slowInterval && 0 < slow && e.limit < fast + slow)
  {
    hide PairsTo, Pairs;
    PlanSizes(p);
  }

  // ---------- the reader object ----------

  class ReaderLoop {
    const plan: Plan
    const cache: RegisterCache
    var cycleCount: nat

    constructor (cfg: Config, cache: RegisterCache)
      ensures this.cache == cache && cycleCount == 0
      ensures plan.units == cfg.unitIds && plan.fast == Tier(cfg.groups, "fast")
              && plan.slow == Tier(cfg.groups, "slow")
      ensures plan.slowInterval == cfg.slowIntervalS * NANOS_PER_SECOND
              && plan.ttl == cfg.cacheTtlH * 3600 * NANOS_PER_SECOND
      ensures plan.slowInterval == cfg.slowIntervalS * 1_000_000_000 && plan.ttl == cfg.cacheTtlH * 3_600_000_000_000
    {
      var fast, slow := Split(cfg.groups);
      plan := Plan(cfg.unitIds, fast, slow, cfg.slowIntervalS * NANOS_PER_SECOND,
                   cfg.cacheTtlH * 3600 * NANOS_PER_SECOND);
      this.cache := cache;
      cycleCount := 0;
    }

    /** readGroup and the conversion of what it read, if it read anything. */
    method ReadJob(job: Job, calls: seq<GroupEnv>, n: nat) returns (writes: seq<PendingWrite>)
      ensures writes == Contribution(job, Samples(calls), n) && (|writes| > 0 <==> Succeeds(Samples(calls), n))
    {
      SamplesAt(calls, n);
      if n >= |calls| {
        return [];
      }
      var outcome, trace := ReadGroup(calls[n].cancelled, calls[n].script);
      if !outcome.Values? {
        return [];
      }
      var values := BytesToUint16(outcome.bytes);
      return [PendingWrite(job.unit, job.item.address, values)];
    }

    /** One pass of the scan, and its transaction. */
    method DoPass(pending: seq<Job>, calls: seq<GroupEnv>, first: nat, commit: CommitEnv) returns (p: Pass)
      requires cache.Valid()
      modifies cache
      ensures cache.Valid() && PassOk(p, Samples(calls)) && p.tried == pending && p.first == first
      ensures cache.Table() == AfterBatch(Replay(old(cache.Table()), commit.others), p.batch,
                                          cache.text(commit.now), commit.fault)
    {
      hide Sorted, Contents, Samples;
      var failed, batch := [], [];
      for i := 0 to |pending|
        invariant failed == JobsFailed(pending, Samples(calls), first, i)
        invariant batch == Batch(pending, Samples(calls), first, i)
        invariant cache.Valid() && cache.Table() == old(cache.Table())
      {
        var writes := ReadJob(pending[i], calls, first + i);
        batch := batch + writes;
        if |writes| == 0 {
          failed := failed + [pending[i]];
        }
      }
      Meanwhile(cache, commit.others);
      cache.BatchSet(batch, commit.now, commit.fault);
      return Pass(pending, first, failed, batch);
    }

    method InitialScan(calls: seq<GroupEnv>, commits: seq<CommitEnv>) returns (passes: seq<Pass>)
      requires cache.Valid() && |commits| == INITIAL_SCAN_PASSES
      modifies cache
      ensures Chained(Pairs(plan.fast + plan.slow, plan.units), Samples(calls), passes) && ScanDone(passes)
      ensures cache.Valid() && cache.Table() == FlushAll(old(cache.Table()), passes, cache.text, commits, |passes|)
    {
      var jobs := CollectPairs(plan.fast + plan.slow, plan.units);
      var pending := jobs;
      passes := [];
      var pass := 1;
      while pass <= INITIAL_SCAN_PASSES
        invariant 1 <= pass == |passes| + 1 <= INITIAL_SCAN_PASSES + 1
        invariant Chained(jobs, Samples(calls), passes) && pending == Pending(jobs, passes, |passes|)
        invariant passes != [] ==> pending != []
        invariant cache.Valid() && cache.Table() == FlushAll(old(cache.Table()), passes, cache.text, commits, |passes|)
      {
        var p := DoPass(pending, calls, NextFirst(passes), commits[pass - 1]);
        ChainGrows(jobs, Samples(calls), passes, p);
        FlushPrefix(old(cache.Table()), passes, p, cache.text, commits, |passes|);
        passes := passes + [p];
        if |p.failed| == 0 {
          break;
        }
        pending := p.failed;
        pass := pass + 1;
      }
    }

    method CollectPairs(groups: seq<Group>, units: seq<uint8>) returns (pending: seq<Job>)
      ensures pending == Pairs(groups, units)
    {
      pending := [];
      for g := 0 to |groups|
        invariant pending == PairsTo(groups, units, g)
      {
        for u := 0 to |units|
          invariant pending == PairsTo(groups, units, g) + ForUnits(units, groups[g])[..u]
        {
          pending := pending + [UnitItem(units[u], groups[g])];
        }
        assert ForUnits(units, groups[g])[..|units|] == ForUnits(units, groups[g]);
      }
    }

    /**
     Answers each group across all units before the next group, from readGroup call number
     `first`; gives up where the context is found cancelled.
     */
    method PollGroups(groups: seq<Group>, e: CycleEnv, first: nat) returns (stopped: bool, batch: seq<PendingWrite>)
      ensures var n := |Pairs(groups, plan.units)|;
              && (stopped <==> n > 0 && e.limit < first + n)
              && (!stopped ==> batch == Batch(Pairs(groups, plan.units), Samples(e.calls), first, n))
    {
      hide Contribution, Samples, PairsTo;
      ghost var jobs := Pairs(groups, plan.units);
      PairsAt(groups, plan.units, |groups|, 0, 0);
      batch := [];
      var n := 0;
      for g := 0 to |groups|
        invariant n == g * |plan.units| <= |jobs|
        invariant n > 0 ==> first + n <= e.limit
        invariant batch == Batch(jobs, Samples(e.calls), first, n)
      {
        Distribute(g, |plan.units|);
        Fits(g, |groups|, |plan.units|);
        for u := 0 to |plan.units|
          invariant n == g * |plan.units| + u
          invariant n > 0 ==> first + n <= e.limit
          invariant batch == Batch(jobs, Samples(e.calls), first, n)
        {
          if first + n >= e.limit {
            return true, batch;
          }
          PairsAt(groups, plan.units, |groups|, g, u);
          var writes := ReadJob(UnitItem(plan.units[u], groups[g]), e.calls, first + n);
          batch := batch + writes;
          n := n + 1;
        }
      }
      return false, batch;
    }

    /** The reads of one cycle: fast groups, and slow ones when due. */
    method PollCycle(e: CycleEnv, lastSlow: nat) returns (stopped: bool, slow: bool, batch: seq<PendingWrite>)
      ensures stopped <==> !Uninterrupted(plan, e, lastSlow)
      ensures !stopped ==> slow == Due(plan, e, lastSlow) && batch == CycleBatch(plan, e, slow)
      ensures !stopped ==> (slow <==> e.check - lastSlow >= plan.slowInterval) && ReadsPlan(plan, e, slow, batch)
    {
      hide ReadsPlan;
      slow, batch := false, [];
      if e.stopped {
        return true, slow, batch;
      }
      stopped, batch := PollGroups(plan.fast, e, 0);
      if stopped {
        return;
      }
      slow := e.check - lastSlow >= plan.slowInterval;
      if slow {
        var more;
        stopped, more := PollGroups(plan.slow, e, |Pairs(plan.fast, plan.units)|);
        batch := batch + more;
      }
      CycleReadsPlan(plan, e, slow);
    }

    /** One cycle. Stopping early does nothing to the table; finishing flushes one batch. */
    method Cycle(e: CycleEnv, lastSlow: nat) returns (stopped: bool, nextSlow: nat)
      requires cache.Valid() && e.sweep - plan.ttl >= 0
      modifies this, cache
      ensures cache.Valid()
      ensures stopped <==> !Uninterrupted(plan, e, lastSlow)
      ensures stopped ==> cache.Table() == old(cache.Table()) && cycleCount == old(cycleCount) && nextSlow == lastSlow
      ensures !stopped ==>
                && cache.Table() == CycleTable(plan, cache.text, old(cache.Table()), e, lastSlow)
                && nextSlow == NextSlow(plan, e, lastSlow) && cycleCount == old(cycleCount) + 1
    {
      hide Sorted, Contents, Flushed, CycleBatch;
      nextSlow := lastSlow;
      var slow, batch;
      stopped, slow, batch := PollCycle(e, lastSlow);
      if stopped {
        return;
      }
      if slow {
        nextSlow := e.slowDone;
      }
      FinishCycle(e, slow, batch);
    }

    /** The end of a cycle: sweep after slow groups, flush, count. */
    method FinishCycle(e: CycleEnv, slow: bool, batch: seq<PendingWrite>)
      requires cache.Valid() && e.sweep - plan.ttl >= 0
      modifies this, cache
      ensures cache.Valid() && cache.Table() == Flushed(plan, cache.text, old(cache.Table()), e, slow, batch)
      ensures cycleCount == old(cycleCount) + 1
    {
      hide Sorted, Contents, Upserts, ApplyAll, Sweep;
      Meanwhile(cache, e.others);
      if slow {
        var deleted := cache.DeleteStale(e.sweep, plan.ttl, e.sweepFails);
      }
      Meanwhile(cache, e.othersThen);
      cache.BatchSet(batch, e.flush, e.fault);
      cycleCount := cycleCount + 1;
    }

    /** The endless loop, for as many cycles as there are inputs. */
    method Run(started: nat, cycles: seq<CycleEnv>) returns (done: nat)
      requires cache.Valid() && forall c :: 0 <= c < |cycles| ==> cycles[c].sweep - plan.ttl >= 0
      modifies this, cache
      ensures cache.Valid() && done <= |cycles|
      ensures RanThrough(plan, started, cycles, done)
      ensures done < |cycles| ==> !Uninterrupted(plan, cycles[done], SlowBefore(plan, started, cycles, done))
      ensures cache.Table() == RunTable(plan, cache.text, old(cache.Table()), started, cycles, done)
      ensures cycleCount == old(cycleCount) + done
    {
      hide Sorted, Contents, CycleTable, Uninterrupted;
      var lastSlow := started;
      done := 0;
      while done < |cycles|
        invariant cache.Valid() && done <= |cycles| && lastSlow == SlowBefore(plan, started, cycles, done)
        invariant RanThrough(plan, started, cycles, done)
        invariant cache.Table() == RunTable(plan, cache.text, old(cache.Table()), started, cycles, done)
        invariant cycleCount == old(cycleCount) + done
      {
        var stopped;
        stopped, lastSlow := Cycle(cycles[done], lastSlow);
        if stopped {
          return;
        }
        done := done + 1;
      }
    }
  }

  lemma {:induction false} Fits(g: nat, groups: nat, units: nat)
    requires g < groups
    ensures g * units + units <= groups * units
    decreases groups
  {
    Distribute(groups - 1, units);
    if g < groups - 1 {
      Fits(g, groups - 1, units);
    }
  }

  /** The value of lastSlowPoll at the start of cycle n. */
  function SlowBefore(p: Plan, started: nat, cycles: seq<CycleEnv>, n: nat): nat
    requires n <= |cycles|
  {
    if n == 0 then started else NextSlow(p, cycles[n - 1], SlowBefore(p, started, cycles, n - 1))
  }

  /** Cycles 0 to n - 1 were not cut short. */
  predicate RanThrough(p: Plan, started: nat, cycles: seq<CycleEnv>, n: nat)
    requires n <= |cycles|
  {
    n == 0 || (RanThrough(p, started, cycles, n - 1)
               && Uninterrupted(p, cycles[n - 1], SlowBefore(p, started, cycles, n - 1)))
  }

  function RunTable(p: Plan, text: nat -> string, m: Store, started: nat, cycles: seq<CycleEnv>, n: nat): Store
    requires n <= |cycles| && forall c :: 0 <= c < n ==> cycles[c].sweep - p.ttl >= 0
  {
    if n == 0 then m
    else CycleTable(p, text, RunTable(p, text, m, started, cycles, n - 1), cycles[n - 1],
                    SlowBefore(p, started, cycles, n - 1))
  }

  // ---------- what a cycle leaves in the table ----------

  /** Some write of the batch covers k. */
  predicate Covered(batch: seq<PendingWrite>, k: Key) {
    exists j :: 0 <= j < |batch| && Covers(batch[j], k)
  }

  /** What the cycle writes is there at its end, with the time of its flush: the sweep comes before the flush. */
  lemma CycleWrites(p: Plan, text: nat -> string, m: Store, e: CycleEnv, lastSlow: nat, k: Key)
    requires e.sweep - p.ttl >= 0
    requires var batch := CycleBatch(p, e, Due(p, e, lastSlow)); Covered(batch, k) && Commits(e.fault, Upserts(batch))
    ensures var after := CycleTable(p, text, m, e, lastSlow);
            k in after && after[k].updatedAt == text(e.flush)
  {
    hide CycleBatch, ApplyAll, Sweep, Replay, Upserts;
    var batch := CycleBatch(p, e, Due(p, e, lastSlow));
    var j :| 0 <= j < |batch| && Covers(batch[j], k);
    var found := Replay(m, e.others);
    var swept := if Due(p, e, lastSlow) && !e.sweepFails then Sweep(found, text(e.sweep - p.ttl)) else found;
    BatchCached(Replay(swept, e.othersThen), batch, text(e.flush), j, k);
  }

  lemma {:induction false} NotInBatch(m: Store, batch: seq<PendingWrite>, stamp: string, k: Key)
    requires !Covered(batch, k)
    ensures var after := ApplyAll(m, batch, stamp); (k in after <==> k in m) && (k in m ==> after[k] == m[k])
    decreases |batch|
  {
    hide Apply;
    if batch != [] {
      var n := |batch| - 1;
      assert !Covers(batch[n], k);
      assert forall j :: 0 <= j < n ==> batch[..n][j] == batch[j];
      NotInBatch(m, batch[..n], stamp, k);
      ApplyLookup(ApplyAll(m, batch[..n], stamp), batch[n], stamp, k);
    }
  }

  /** What it does not write, it removes exactly if slow groups were due and the sweep finds it below its cutoff. */
  lemma CycleKeeps(p: Plan, text: nat -> string, m: Store, e: CycleEnv, lastSlow: nat, k: Key)
    requires e.sweep - p.ttl >= 0 && e.othersThen == []
    requires var batch := CycleBatch(p, e, Due(p, e, lastSlow)); !Covered(batch, k) || !Commits(e.fault, Upserts(batch))
    ensures var found, after := Replay(m, e.others), CycleTable(p, text, m, e, lastSlow);
            var sweeps := e.check - lastSlow >= p.slowInterval && !e.sweepFails;
            && (k in after <==> k in found && !(sweeps && TextLess(found[k].updatedAt, text(e.sweep - p.ttl))))
            && (k in after ==> after[k] == found[k])
  {
    hide CycleBatch, ApplyAll, Upserts;
    var batch := CycleBatch(p, e, Due(p, e, lastSlow));
    var found := Replay(m, e.others);
    var swept := if Due(p, e, lastSlow) && !e.sweepFails then Sweep(found, text(e.sweep - p.ttl)) else found;
    assert Replay(swept, e.othersThen) == swept;
    if !Covered(batch, k) {
      NotInBatch(swept, batch, text(e.flush), k);
    }
  }

  // ---------- how often the table is swept ----------

  /** Clock readings do not decrease, within a cycle and from one to the next. */
  ghost predicate Clocked(started: nat, cycles: seq<CycleEnv>) {
    && (cycles != [] ==> started <= cycles[0].start)
    && (forall c :: 0 <= c < |cycles| ==>
          cycles[c].start <= cycles[c].check <= cycles[c].slowDone <= cycles[c].sweep <= cycles[c].flush)
    && (forall c :: 0 < c < |cycles| ==> cycles[c - 1].flush <= cycles[c].start)
  }

  /** Cycle c gets as far as its sweep. */
  predicate SweepsAt(p: Plan, started: nat, cycles: seq<CycleEnv>, c: nat)
    requires c < |cycles|
  {
    RanThrough(p, started, cycles, c + 1) && Due(p, cycles[c], SlowBefore(p, started, cycles, c))
  }

  lemma {:induction false} RanEarlier(p: Plan, started: nat, cycles: seq<CycleEnv>, c: nat, n: nat)
    requires c <= n <= |cycles| && RanThrough(p, started, cycles, n)
    ensures RanThrough(p, started, cycles, c)
  {
    if c < n {
      RanEarlier(p, started, cycles, c, n - 1);
    }
  }

  lemma {:induction false} SlowSince(p: Plan, started: nat, cycles: seq<CycleEnv>, i: nat, n: nat)
    requires i < n <= |cycles| && SweepsAt(p, started, cycles, i) && RanThrough(p, started, cycles, n)
    requires forall c :: i < c < n ==> !SweepsAt(p, started, cycles, c)
    ensures SlowBefore(p, started, cycles, n) == cycles[i].slowDone
  {
    if n > i + 1 {
      assert !SweepsAt(p, started, cycles, n - 1);
      SlowSince(p, started, cycles, i, n - 1);
    }
  }

  /** The slow groups were just read when the loop starts: they are first due an interval later, and then at once. */
  lemma {:induction false} FirstSweep(p: Plan, started: nat, cycles: seq<CycleEnv>, n: nat)
    requires n < |cycles| && RanThrough(p, started, cycles, n + 1)
    requires forall c :: 0 <= c < n ==> cycles[c].check - started < p.slowInterval
    ensures SweepsAt(p, started, cycles, n) <==> cycles[n].check - started >= p.slowInterval
    ensures SlowBefore(p, started, cycles, n) == started
  {
    if n > 0 {
      FirstSweep(p, started, cycles, n - 1);
    }
  }

  /** Cycle k sweeps next after cycle i. */
  predicate NextSweep(p: Plan, started: nat, cycles: seq<CycleEnv>, i: nat, k: nat) {
    && i < k < |cycles| && SweepsAt(p, started, cycles, i) && SweepsAt(p, started, cycles, k)
    && forall c :: i < c < k ==> !SweepsAt(p, started, cycles, c)
  }

  /** From the end of the reads of cycle c, or of its sweep if it has one, to the start of the next cycle. */
  function FlushTime(p: Plan, started: nat, cycles: seq<CycleEnv>, c: nat): int
    requires c + 1 < |cycles|
  {
    cycles[c + 1].start - if SweepsAt(p, started, cycles, c) then cycles[c].sweep else cycles[c].check
  }

  function FastTime(e: CycleEnv): int { e.check - e.start }

  function SlowTime(e: CycleEnv): int { e.slowDone - e.check }

  function StampToSweep(e: CycleEnv): int { e.sweep - e.slowDone }

  /**
   Consecutive sweeps, in cycles i < k. The reader's own stamps (lastSlowPoll) are at least the
   slow interval apart, the sweeps themselves the interval less the time from stamp to sweep;
   and the sweeps are less than the interval plus one flush, one fast pass, one slow pass and
   the time from stamp to sweep apart.
   */
  lemma SweepSpacing(p: Plan, started: nat, cycles: seq<CycleEnv>, i: nat, k: nat)
    requires Clocked(started, cycles) && NextSweep(p, started, cycles, i, k)
    ensures cycles[k].slowDone - cycles[i].slowDone >= p.slowInterval
    ensures cycles[k].sweep - cycles[i].sweep >= p.slowInterval - StampToSweep(cycles[i])
    ensures cycles[k].sweep - cycles[i].sweep
         <= (if p.slowInterval > 0 then p.slowInterval - 1 else 0)
            + FlushTime(p, started, cycles, k - 1) + FastTime(cycles[k]) + SlowTime(cycles[k]) + StampToSweep(cycles[k])
  {
    SlowSince(p, started, cycles, i, k);
    if k - 1 > i {
      RanEarlier(p, started, cycles, k - 1, k + 1);
      SlowSince(p, started, cycles, i, k - 1);
      assert !SweepsAt(p, started, cycles, k - 1);
    }
  }

  /** Each readGroup call of a whole cycle returns the registers it asks for. */
  predicate AllAnswered(p: Plan, e: CycleEnv) {
    var jobs := FastJobs(p) + SlowJobs(p);
    |e.calls| == |jobs|
    && forall n :: 0 <= n < |jobs| ==>
         Sampled(e.calls[n]).Some? && |Sampled(e.calls[n]).value| == 2 * jobs[n].item.count
  }

  /** `more` goes on from `cycles` up to and including the next sweep. */
  ghost predicate GoesOn(p: Plan, started: nat, cycles: seq<CycleEnv>, more: seq<CycleEnv>)
    requires cycles != []
  {
    && more != [] && Clocked(started, cycles + more)
    && NextSweep(p, started, cycles + more, |cycles| - 1, |cycles + more| - 1)
  }

  /** From the sweep of the last of `cycles` to that of the last of `more`. */
  function SweepGap(cycles: seq<CycleEnv>, more: seq<CycleEnv>): int
    requires cycles != [] && more != []
  {
    more[|more| - 1].sweep - cycles[|cycles| - 1].sweep
  }

  /** However the run goes on, reads failing or not, the next sweep is at least the slow interval later. */
  ghost predicate AlwaysSpaced(p: Plan, started: nat, cycles: seq<CycleEnv>)
    requires cycles != []
  {
    forall more: seq<CycleEnv> :: GoesOn(p, started, cycles, more) ==> SweepGap(cycles, more) >= p.slowInterval
  }

  lemma {:induction false} SamePrefix(p: Plan, started: nat, cycles: seq<CycleEnv>, more: seq<CycleEnv>, n: nat)
    requires n <= |cycles|
    ensures SlowBefore(p, started, cycles + more, n) == SlowBefore(p, started, cycles, n)
    ensures RanThrough(p, started, cycles + more, n) <==> RanThrough(p, started, cycles, n)
  {
    if n > 0 {
      SamePrefix(p, started, cycles, more, n - 1);
    }
  }

  function GoodAnswer(count: uint16): GroupEnv {
    GroupEnv(false, seq(MAX_RETRIES, _ => Attempt(Data(seq(2 * count as int, _ => 0)), false)))
  }

  /** A cycle in which every read is answered and the clock shows t throughout. */
  function QuickCycle(p: Plan, t: nat): CycleEnv {
    var jobs := FastJobs(p) + SlowJobs(p);
    CycleEnv(false, |jobs|, seq(|jobs|, n requires 0 <= n < |jobs| => GoodAnswer(jobs[n].item.count)),
             t, t, t, t, false, t, NoWriteFault, [], [])
  }

  lemma QuickCycleWhole(p: Plan, t: nat, lastSlow: nat)
    ensures Uninterrupted(p, QuickCycle(p, t), lastSlow) && AllAnswered(p, QuickCycle(p, t))
  {
    hide Pairs;
    var jobs := FastJobs(p) + SlowJobs(p);
    forall n | 0 <= n < |jobs|
      ensures Sampled(QuickCycle(p, t).calls[n]).Some?
              && |Sampled(QuickCycle(p, t).calls[n]).value| == 2 * jobs[n].item.count
    {
      assert QuickCycle(p, t).calls[n] == GoodAnswer(jobs[n].item.count);
    }
  }

  /** The flush after a sweep, or the stamp before it, makes up for the time between stamp and sweep. */
  predicate SweepOnTime(p: Plan, e: CycleEnv) {
    StampToSweep(e) == 0 || e.flush - e.sweep >= p.slowInterval
  }

  /**
   After a sweep the next one is sure to come at least the slow interval later if and only if
   no time passed between the reader's stamp and the sweep, or the flush after it began that late.
   */
  lemma SpacedIff(p: Plan, started: nat, cycles: seq<CycleEnv>)
    requires cycles != [] && Clocked(started, cycles) && SweepsAt(p, started, cycles, |cycles| - 1)
    ensures AlwaysSpaced(p, started, cycles) <==> SweepOnTime(p, cycles[|cycles| - 1])
  {
    var i := |cycles| - 1;
    if SweepOnTime(p, cycles[i]) {
      forall more: seq<CycleEnv> | GoesOn(p, started, cycles, more)
        ensures SweepGap(cycles, more) >= p.slowInterval
      {
        var all := cycles + more;
        SweepSpacing(p, started, all, i, |all| - 1);
        FlushedBefore(started, all, i, |all| - 1);
      }
    } else {
      var e := SweepsTooSoon(p, started, cycles);
    }
  }

  /** Otherwise the next sweep can come too soon with every read of every group answered. */
  lemma SweepsTooSoon(p: Plan, started: nat, cycles: seq<CycleEnv>) returns (e: CycleEnv)
    requires cycles != [] && Clocked(started, cycles) && SweepsAt(p, started, cycles, |cycles| - 1)
    requires !SweepOnTime(p, cycles[|cycles| - 1])
    ensures GoesOn(p, started, cycles, [e]) && AllAnswered(p, e) && SweepGap(cycles, [e]) < p.slowInterval
  {
    hide Pairs;
    var last := cycles[|cycles| - 1];
    var t: nat := if last.flush >= last.slowDone + p.slowInterval then last.flush else last.slowDone + p.slowInterval;
    e := QuickCycle(p, t);
    SweepsSoon(p, started, cycles, t);
    QuickCycleWhole(p, t, 0);
  }

  /** A run that meets it: one nanosecond between the reader's stamp and its first sweep. */
  lemma CloseSweepsWitness(p: Plan) returns (cycles: seq<CycleEnv>)
    requires p.slowInterval > 0
    ensures cycles != [] && Clocked(0, cycles) && SweepsAt(p, 0, cycles, |cycles| - 1) && AllAnswered(p, cycles[0])
    ensures !AlwaysSpaced(p, 0, cycles)
  {
    hide Uninterrupted, AllAnswered;
    var t := p.slowInterval;
    var e := QuickCycle(p, t).(sweep := t + 1, flush := t + 1);
    QuickCycleWhole(p, t, 0);
    LateSweepWhole(p, t, 0);
    cycles := [e];
    SpacedIff(p, 0, cycles);
  }

  lemma LateSweepWhole(p: Plan, t: nat, lastSlow: nat)
    requires Uninterrupted(p, QuickCycle(p, t), lastSlow) && AllAnswered(p, QuickCycle(p, t))
    ensures var e := QuickCycle(p, t).(sweep := t + 1, flush := t + 1);
            Uninterrupted(p, e, lastSlow) && AllAnswered(p, e)
  {
    hide Pairs, Sampled, GoodAnswer;
  }

  lemma {:induction false} FlushedBefore(started: nat, cycles: seq<CycleEnv>, i: nat, k: nat)
    requires Clocked(started, cycles) && i < k < |cycles|
    ensures cycles[i].flush <= cycles[k].start
    decreases k
  {
    assert cycles[k - 1].flush <= cycles[k].start;
    if i < k - 1 {
      FlushedBefore(started, cycles, i, k - 1);
    }
  }

  lemma SweepsSoon(p: Plan, started: nat, cycles: seq<CycleEnv>, t: nat)
    requires cycles != [] && Clocked(started, cycles) && SweepsAt(p, started, cycles, |cycles| - 1)
    requires t >= cycles[|cycles| - 1].flush && t >= cycles[|cycles| - 1].slowDone + p.slowInterval
    ensures GoesOn(p, started, cycles, [QuickCycle(p, t)])
  {
    hide Uninterrupted, AllAnswered;
    var n := |cycles|;
    var all := cycles + [QuickCycle(p, t)];
    SamePrefix(p, started, cycles, [QuickCycle(p, t)], n);
    SamePrefix(p, started, cycles, [QuickCycle(p, t)], n - 1);
    SlowSince(p, started, cycles, n - 1, n);
    QuickCycleWhole(p, t, SlowBefore(p, started, all, n));
  }
}
