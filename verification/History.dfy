/**
 What a sequence of committed cache operations leaves in the table. Every committed write is
 recorded with the number of the device operation its values came from, so that a cached value
 can be traced back to the device.
 */
module History {
  import opened Words
  import opened Timestamps
  import opened Registers

  datatype Sample = Sample(write: PendingWrite, source: nat)

  /** A committed transaction with its timestamp, or a sweep of everything below `cutoff`. */
  datatype CacheOp = Commit(samples: seq<Sample>, stamp: string) | Expire(cutoff: string)

  function Writes(samples: seq<Sample>): (ws: seq<PendingWrite>)
    ensures |ws| == |samples|
    ensures forall i :: 0 <= i < |ws| ==> ws[i] == samples[i].write
  {
    if samples == [] then [] else Writes(samples[..|samples| - 1]) + [samples[|samples| - 1].write]
  }

  function Effect(m: Store, op: CacheOp): Store {
    match op
    case Commit(samples, stamp) => ApplyAll(m, Writes(samples), stamp)
    case Expire(cutoff) => Sweep(m, cutoff)
  }

  /** The table after `ops`, from the table `m` found at start-up. */
  function Replay(m: Store, ops: seq<CacheOp>): Store {
    if ops == [] then m else Effect(Replay(m, ops[..|ops| - 1]), ops[|ops| - 1])
  }

  // ---------- who wrote an entry ----------

  /** An entry was in the table to begin with, or a sample put it there. */
  datatype Origin = Found(stamp: string) | Written(sample: Sample, stamp: string)

  function LastCovering(samples: seq<Sample>, k: Key): (s: Option<Sample>)
    ensures s.Some? ==> Covers(s.value.write, k)
  {
    if samples == [] then None
    else if Covers(samples[|samples| - 1].write, k) then Some(samples[|samples| - 1])
    else LastCovering(samples[..|samples| - 1], k)
  }

  /** Where the entry under `k` comes from, looking at one key only. */
  function Author(m: Store, ops: seq<CacheOp>, k: Key): (o: Option<Origin>)
    ensures o.Some? && o.value.Written? ==> Covers(o.value.sample.write, k)
    ensures o.Some? && o.value.Found? ==> k in m && o.value.stamp == m[k].updatedAt
  {
    if ops == [] then if k in m then Some(Found(m[k].updatedAt)) else None
    else
      var before := Author(m, ops[..|ops| - 1], k);
      match ops[|ops| - 1]
      case Commit(samples, stamp) =>
        (match LastCovering(samples, k)
         case Some(s) => Some(Written(s, stamp))
         case None => before)
      case Expire(cutoff) =>
        if before.Some? && TextLess(before.value.stamp, cutoff) then None else before
  }

  function EntryFrom(m: Store, o: Origin, k: Key): Entry
    requires if o.Written? then Covers(o.sample.write, k) else k in m
  {
    if o.Written? then Entry(o.sample.write.values[k.address - o.sample.write.address], o.stamp) else m[k]
  }

  lemma {:induction false} ApplyAllLookup(m: Store, samples: seq<Sample>, stamp: string, k: Key)
    ensures var after := ApplyAll(m, Writes(samples), stamp);
            match LastCovering(samples, k)
            case Some(s) => k in after && after[k] == EntryFrom(m, Written(s, stamp), k)
            case None => (k in after <==> k in m) && (k in m ==> after[k] == m[k])
    decreases |samples|
  {
    if samples != [] {
      var front, last := samples[..|samples| - 1], samples[|samples| - 1];
      assert Writes(samples)[..|samples| - 1] == Writes(front);
      ApplyAllLookup(m, front, stamp, k);
      ApplyLookup(ApplyAll(m, Writes(front), stamp), last.write, stamp, k);
    }
  }

  /** Whole-table transactions act on each key separately: the table holds exactly what each key's author wrote. */
  lemma {:induction false} ReplayByKey(m: Store, ops: seq<CacheOp>, k: Key)
    ensures k in Replay(m, ops) <==> Author(m, ops, k).Some?
    ensures Author(m, ops, k).Some? ==> Replay(m, ops)[k] == EntryFrom(m, Author(m, ops, k).value, k)
    decreases |ops|
  {
    hide ApplyAll, Writes, LastCovering;
    if ops != [] {
      var front, last := ops[..|ops| - 1], ops[|ops| - 1];
      ReplayByKey(m, front, k);
      if last.Commit? {
        ApplyAllLookup(Replay(m, front), last.samples, last.stamp, k);
      }
    }
  }

  // ---------- the author, described by position ----------

  predicate Touches(op: CacheOp, k: Key) {
    op.Commit? && LastCovering(op.samples, k).Some?
  }

  predicate Expires(op: CacheOp, stamp: string) {
    op.Expire? && TextLess(stamp, op.cutoff)
  }

  function OriginIn(op: CacheOp, k: Key): (o: Origin)
    requires Touches(op, k)
    ensures o.Written? && Covers(o.sample.write, k)
  {
    Written(LastCovering(op.samples, k).value, op.stamp)
  }

  /** Operation i is the last one to write k, and no sweep since has removed what it wrote. */
  predicate Stands(ops: seq<CacheOp>, k: Key, i: nat) {
    && i < |ops| && Touches(ops[i], k)
    && forall j :: i < j < |ops| ==> !Touches(ops[j], k) && !Expires(ops[j], ops[i].stamp)
  }

  /** k was in the table to begin with, and nothing has written or removed it since. */
  predicate Kept(m: Store, ops: seq<CacheOp>, k: Key) {
    && k in m
    && forall j :: 0 <= j < |ops| ==> !Touches(ops[j], k) && !Expires(ops[j], m[k].updatedAt)
  }

  /** Within one transaction the last covering write wins. */
  lemma {:induction false} LastCoveringWins(samples: seq<Sample>, k: Key, j: nat)
    requires j < |samples| && Covers(samples[j].write, k)
    requires forall j' :: j < j' < |samples| ==> !Covers(samples[j'].write, k)
    ensures LastCovering(samples, k) == Some(samples[j])
    decreases |samples|
  {
    if j < |samples| - 1 {
      assert !Covers(samples[|samples| - 1].write, k);
      LastCoveringWins(samples[..|samples| - 1], k, j);
    }
  }

  lemma {:induction false} AuthorStands(m: Store, ops: seq<CacheOp>, k: Key) returns (i: nat)
    requires Author(m, ops, k).Some? && Author(m, ops, k).value.Written?
    ensures Stands(ops, k, i) && Author(m, ops, k) == Some(OriginIn(ops[i], k))
    decreases |ops|
  {
    i := |ops| - 1;
    if !Touches(ops[i], k) {
      i := AuthorStands(m, ops[..i], k);
    }
  }

  lemma {:induction false} StandsAuthor(m: Store, ops: seq<CacheOp>, k: Key, i: nat)
    requires Stands(ops, k, i)
    ensures Author(m, ops, k) == Some(OriginIn(ops[i], k))
    decreases |ops|
  {
    var n := |ops| - 1;
    if i < n {
      assert !Touches(ops[n], k);
      StandsAuthor(m, ops[..n], k, i);
    }
  }

  lemma {:induction false} AuthorKept(m: Store, ops: seq<CacheOp>, k: Key)
    ensures Kept(m, ops, k) <==> Author(m, ops, k).Some? && Author(m, ops, k).value.Found?
    decreases |ops|
  {
    if ops != [] {
      var front, last := ops[..|ops| - 1], ops[|ops| - 1];
      AuthorKept(m, front, k);
      assert Kept(m, ops, k) <==> Kept(m, front, k) && !Touches(last, k) && !Expires(last, m[k].updatedAt);
    }
  }

  /**
   An entry is present exactly when it has been kept, or some operation stands for its key; then
   it is that operation's value and time.
   */
  lemma PresentIffStands(m: Store, ops: seq<CacheOp>, k: Key)
    ensures k in Replay(m, ops) <==> Kept(m, ops, k) || exists i: nat :: Stands(ops, k, i)
    ensures Kept(m, ops, k) ==> Replay(m, ops)[k] == m[k]
    ensures forall i: nat :: Stands(ops, k, i) ==> Replay(m, ops)[k] == EntryFrom(m, OriginIn(ops[i], k), k)
  {
    ReplayByKey(m, ops, k);
    AuthorKept(m, ops, k);
    if Author(m, ops, k).Some? && Author(m, ops, k).value.Written? {
      var i := AuthorStands(m, ops, k);
    }
    forall i: nat | Stands(ops, k, i)
      ensures Author(m, ops, k) == Some(OriginIn(ops[i], k))
    {
      StandsAuthor(m, ops, k, i);
    }
  }

  // ---------- multi-register values are never torn ----------

  predicate CoversAll(w: PendingWrite, group: set<Key>) { forall k :: k in group ==> Covers(w, k) }

  predicate CoversNone(w: PendingWrite, group: set<Key>) { forall k :: k in group ==> !Covers(w, k) }

  ghost predicate Respects(ops: seq<CacheOp>, group: set<Key>) {
    forall i, j :: 0 <= i < |ops| && ops[i].Commit? && 0 <= j < |ops[i].samples| ==>
      CoversAll(ops[i].samples[j].write, group) || CoversNone(ops[i].samples[j].write, group)
  }

  lemma {:induction false} SameLastCovering(samples: seq<Sample>, group: set<Key>, k: Key, l: Key)
    requires forall j :: 0 <= j < |samples| ==>
             CoversAll(samples[j].write, group) || CoversNone(samples[j].write, group)
    requires k in group && l in group
    ensures LastCovering(samples, k) == LastCovering(samples, l)
    decreases |samples|
  {
    if samples != [] {
      SameLastCovering(samples[..|samples| - 1], group, k, l);
    }
  }

  /** The group is in the table as a whole, with one timestamp, or not at all. */
  predicate Whole(m: Store, group: set<Key>) {
    forall k, l :: k in group && l in group && k in m ==> l in m && m[k].updatedAt == m[l].updatedAt
  }

  lemma {:induction false} SameAuthor(m: Store, ops: seq<CacheOp>, group: set<Key>, k: Key, l: Key)
    requires Whole(m, group) && Respects(ops, group) && k in group && l in group
    ensures Author(m, ops, k) == Author(m, ops, l)
    decreases |ops|
  {
    if ops != [] {
      SameAuthor(m, ops[..|ops| - 1], group, k, l);
      if ops[|ops| - 1].Commit? {
        SameLastCovering(ops[|ops| - 1].samples, group, k, l);
      }
    }
  }

  /** The entry under k is what operation i wrote there, out of sample `source`. */
  predicate WrittenBy(m: Store, ops: seq<CacheOp>, k: Key, i: nat, source: Sample) {
    && Stands(ops, k, i) && OriginIn(ops[i], k).sample == source
    && k in Replay(m, ops) && Replay(m, ops)[k] == EntryFrom(m, OriginIn(ops[i], k), k)
  }

  predicate GroupWrittenBy(m: Store, ops: seq<CacheOp>, group: set<Key>, i: nat, source: Sample) {
    forall k :: k in group ==> WrittenBy(m, ops, k, i, source)
  }

  predicate GroupAbsent(table: Store, group: set<Key>) { forall k :: k in group ==> k !in table }

  predicate GroupKept(m: Store, table: Store, group: set<Key>) {
    forall k :: k in group ==> k in m && k in table && table[k] == m[k]
  }

  /**
   If every write covers all of `group` or none of it, then after any operations the group is
   absent as a whole, or all as it was found at start-up, or present as a whole and written by
   one write of one transaction, the last that covered any of it.
   */
  lemma NoTornValues(m: Store, ops: seq<CacheOp>, group: set<Key>)
    requires Whole(m, group) && Respects(ops, group) && group != {}
    ensures GroupAbsent(Replay(m, ops), group) || GroupKept(m, Replay(m, ops), group)
         || (exists i, source :: GroupWrittenBy(m, ops, group, i, source))
  {
    var k :| k in group;
    forall l | l in group
      ensures Author(m, ops, l) == Author(m, ops, k) && (l in Replay(m, ops) <==> Author(m, ops, l).Some?)
      ensures Author(m, ops, l).Some? ==> Replay(m, ops)[l] == EntryFrom(m, Author(m, ops, l).value, l)
    {
      SameAuthor(m, ops, group, k, l);
      ReplayByKey(m, ops, l);
    }
    if Author(m, ops, k).Some? && Author(m, ops, k).value.Written? {
      var i := AuthorStands(m, ops, k);
      forall l | l in group
        ensures WrittenBy(m, ops, l, i, OriginIn(ops[i], k).sample)
      {
        SameTouches(ops, group, k, l);
      }
      assert GroupWrittenBy(m, ops, group, i, OriginIn(ops[i], k).sample);
    }
  }

  /** In particular the registers of a present group carry one timestamp, so every sweep removes all of them or none. */
  lemma OneTimestamp(m: Store, ops: seq<CacheOp>, group: set<Key>, cutoff: string)
    requires Whole(m, group) && Respects(ops, group)
    ensures Whole(Replay(m, ops), group) && Whole(Replay(m, ops + [Expire(cutoff)]), group)
  {
    forall k, l | k in group && l in group
      ensures Author(m, ops, k) == Author(m, ops, l)
      ensures k in Replay(m, ops) <==> l in Replay(m, ops)
      ensures k in Replay(m, ops) ==> Replay(m, ops)[k].updatedAt == Replay(m, ops)[l].updatedAt
    {
      SameAuthor(m, ops, group, k, l);
      ReplayByKey(m, ops, k);
      ReplayByKey(m, ops, l);
    }
    ReplayAppend(m, ops, Expire(cutoff));
  }

  lemma SameTouches(ops: seq<CacheOp>, group: set<Key>, k: Key, l: Key)
    requires Respects(ops, group) && k in group && l in group
    ensures forall i :: 0 <= i < |ops| ==> Touches(ops[i], k) == Touches(ops[i], l)
    ensures forall i :: 0 <= i < |ops| && Touches(ops[i], k) ==> OriginIn(ops[i], k) == OriginIn(ops[i], l)
  {
    forall i | 0 <= i < |ops| && ops[i].Commit?
      ensures LastCovering(ops[i].samples, k) == LastCovering(ops[i].samples, l)
    {
      SameLastCovering(ops[i].samples, group, k, l);
    }
  }

  // ---------- read-through ----------

  lemma ReplayAppend(m: Store, ops: seq<CacheOp>, op: CacheOp)
    ensures Replay(m, ops + [op]) == Effect(Replay(m, ops), op)
  {
    assert (ops + [op])[..|ops|] == ops;
  }

  /** No sweep among `later` removes a row of [address, address + count). */
  ghost predicate NoRowExpires(m: Store, later: seq<CacheOp>, unit: uint8, address: nat, count: nat) {
    forall i :: 0 <= i < |later| && later[i].Expire? ==>
      forall a :: address <= a < address + count && Key(unit, a) in Replay(m, later[..i]) ==>
        !TextLess(Replay(m, later[..i])[Key(unit, a)].updatedAt, later[i].cutoff)
  }

  lemma {:induction false} StaysCached(m: Store, later: seq<CacheOp>, unit: uint8, address: nat, count: nat)
    requires Cached(m, unit, address, count)
    requires NoRowExpires(m, later, unit, address, count)
    ensures Cached(Replay(m, later), unit, address, count)
    decreases |later|
  {
    hide ApplyAll, Writes, LastCovering, Apply;
    if later != [] {
      var n := |later| - 1;
      var front := later[..n];
      assert forall i :: 0 <= i < n ==> later[..i] == front[..i];
      StaysCached(m, front, unit, address, count);
      if later[n].Commit? {
        forall a | address <= a < address + count
          ensures Key(unit, a) in Replay(m, later)
        {
          ApplyAllLookup(Replay(m, front), later[n].samples, later[n].stamp, Key(unit, a));
        }
      }
    }
  }

  predicate Untouched(later: seq<CacheOp>, k: Key) { forall op :: op in later ==> !Touches(op, k) }

  lemma {:induction false} KeepsEntry(m: Store, later: seq<CacheOp>, k: Key)
    requires Untouched(later, k) && k in Replay(m, later)
    ensures k in m && Replay(m, later)[k] == m[k]
    decreases |later|
  {
    if later != [] {
      var front, last := later[..|later| - 1], later[|later| - 1];
      assert last in later;
      if last.Commit? {
        ApplyAllLookup(Replay(m, front), last.samples, last.stamp, k);
      }
      KeepsEntry(m, front, k);
    }
  }

  /** The table has every register of `w` with the value `w` gave it. */
  ghost predicate Holds(table: Store, w: PendingWrite) {
    forall k :: Covers(w, k) ==> k in table && table[k].value == w.values[k.address - w.address]
  }

  lemma AppliedHolds(m: Store, w: PendingWrite, stamp: string)
    ensures Holds(Apply(m, w, stamp), w)
  {
    forall k | Covers(w, k)
      ensures k in Apply(m, w, stamp) && Apply(m, w, stamp)[k].value == w.values[k.address - w.address]
    {
      ApplyLookup(m, w, stamp, k);
    }
  }

  /**
   Once a write is in the table, any sub-range of it is served from the table until a sweep
   removes a row of that sub-range.
   */
  lemma ReadThrough(m: Store, w: PendingWrite, later: seq<CacheOp>, address: nat, count: nat)
    requires Holds(m, w)
    requires w.address <= address && address + count <= w.address + |w.values|
    requires NoRowExpires(m, later, w.unit, address, count)
    ensures Window(Replay(m, later), w.unit, address, count).Some?
  {
    forall a | address <= a < address + count
      ensures Key(w.unit, a) in m
    {
      assert Covers(w, Key(w.unit, a));
    }
    StaysCached(m, later, w.unit, address, count);
  }

  /** ... and each register served that no later transaction wrote still has the value it was given. */
  lemma ReadThroughValue(m: Store, w: PendingWrite, later: seq<CacheOp>, address: nat, count: nat, i: nat)
    requires Holds(m, w)
    requires w.address <= address && address + count <= w.address + |w.values| && i < count
    requires Untouched(later, Key(w.unit, address + i))
    requires Window(Replay(m, later), w.unit, address, count).Some?
    ensures Window(Replay(m, later), w.unit, address, count).value[i] == w.values[address + i - w.address]
  {
    hide Replay, Untouched;
    KeepsEntry(m, later, Key(w.unit, address + i));
    assert Covers(w, Key(w.unit, address + i));
  }

  // ---------- other threads ----------

  /** Lets other threads' committed operations happen to the table. */
  method Meanwhile(cache: RegisterCache, ops: seq<CacheOp>)
    requires cache.Valid()
    modifies cache
    ensures cache.Valid() && cache.Table() == Replay(old(cache.Table()), ops)
  {
    for i := 0 to |ops|
      invariant cache.Valid() && cache.Table() == Replay(old(cache.Table()), ops[..i])
    {
      assert ops[..i + 1] == ops[..i] + [ops[i]];
      ReplayAppend(old(cache.Table()), ops[..i], ops[i]);
      match ops[i] {
        case Commit(samples, stamp) =>
          var ok, tx := cache.ExecRuns(Writes(samples), stamp, NoWriteFault);
          cache.rows := tx;
        case Expire(cutoff) =>
          var deleted := cache.DeleteBelow(cutoff);
      }
    }
    assert ops[..|ops|] == ops;
  }
}
