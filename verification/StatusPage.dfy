/** How the status page (web.go) sorts the cached registers into the configured groups. */
module StatusPage {
  import opened Words
  import opened Registers
  import opened Config

  /** A register as All() reports it: its address is cut to 16 bits. */
  datatype CachedRegister = CachedRegister(unit: uint8, address: uint16, value: uint16, updatedAt: string)

  function Cut(n: nat): uint16 { n % 0x1_0000 }

  /** The table, ordered by unit and address. */
  function All(rows: seq<Registers.Row>): seq<CachedRegister> {
    seq(|rows|, i requires 0 <= i < |rows| =>
      CachedRegister(rows[i].key.unit, Cut(rows[i].key.address), rows[i].entry.value, rows[i].entry.updatedAt))
  }

  /** The end of a group's range is a 16-bit sum, so it can lie below the start. */
  predicate InGroup(g: Group, address: uint16) {
    g.address <= address < Cut(g.address + g.count)
  }

  /** So a group that reaches past address 65534 holds nothing, and any other its whole range. */
  lemma GroupRange(g: Group, address: uint16)
    ensures InGroup(g, address) <==>
            && g.address as int + g.count as int <= 65535
            && g.address as int <= address as int < g.address as int + g.count as int
  {
  }

  /** The bucket of an address: the first group that has it, or None. */
  function Bucket(groups: seq<Group>, address: uint16): (b: Option<nat>)
    ensures b.Some? ==> b.value < |groups| && InGroup(groups[b.value], address)
    ensures forall i :: 0 <= i < |groups| && (b.None? || i < b.value) ==> !InGroup(groups[i], address)
  {
    FirstFrom(groups, address, 0)
  }

  function FirstFrom(groups: seq<Group>, address: uint16, from: nat): (b: Option<nat>)
    requires from <= |groups|
    ensures b.Some? ==> from <= b.value < |groups| && InGroup(groups[b.value], address)
    ensures forall i :: from <= i < |groups| && (b.None? || i < b.value) ==> !InGroup(groups[i], address)
    decreases |groups| - from
  {
    if from == |groups| then None
    else if InGroup(groups[from], address) then Some(from)
    else FirstFrom(groups, address, from + 1)
  }

  predicate Belongs(groups: seq<Group>, unit: uint8, b: Option<nat>, reg: CachedRegister) {
    reg.unit == unit && Bucket(groups, reg.address) == b
  }

  /** The first n registers that belong to bucket b of `unit`, in table order. */
  function Members(groups: seq<Group>, unit: uint8, b: Option<nat>, regs: seq<CachedRegister>,
                   n: nat): seq<CachedRegister>
    requires n <= |regs|
  {
    if n == 0 then []
    else
      var front := Members(groups, unit, b, regs, n - 1);
      if Belongs(groups, unit, b, regs[n - 1]) then front + [regs[n - 1]] else front
  }

  /** Their positions in the table. */
  function MemberPositions(groups: seq<Group>, unit: uint8, b: Option<nat>, regs: seq<CachedRegister>, n: nat): seq<nat>
    requires n <= |regs|
  {
    if n == 0 then []
    else
      var front := MemberPositions(groups, unit, b, regs, n - 1);
      if Belongs(groups, unit, b, regs[n - 1]) then front + [n - 1] else front
  }

  /** A bucket lists, at increasing positions of the table, every register that belongs to it and no other. */
  lemma {:induction false} MembersInOrder(groups: seq<Group>, unit: uint8, b: Option<nat>, regs: seq<CachedRegister>,
                                          n: nat)
    requires n <= |regs|
    ensures var ps := MemberPositions(groups, unit, b, regs, n);
            && |ps| == |Members(groups, unit, b, regs, n)|
            && (forall i :: 0 <= i < |ps| ==> ps[i] < n && Members(groups, unit, b, regs, n)[i] == regs[ps[i]])
            && (forall i, j :: 0 <= i < j < |ps| ==> ps[i] < ps[j])
            && (forall p :: 0 <= p < n ==> (p in ps <==> Belongs(groups, unit, b, regs[p])))
  {
    hide Belongs;
    if n > 0 {
      MembersInOrder(groups, unit, b, regs, n - 1);
    }
  }

  /** So a bucket of the page shows the rows of the table that belong to it by increasing key. */
  lemma PageInOrder(groups: seq<Group>, unit: uint8, b: Option<nat>, rows: seq<Registers.Row>, i: nat, j: nat)
    requires Sorted(rows)
    ensures var ps := MemberPositions(groups, unit, b, All(rows), |rows|);
            i < j < |ps| ==>
              && 0 <= ps[i] < ps[j] < |rows|
              && rows[ps[i]].key.unit == unit == rows[ps[j]].key.unit
              && rows[ps[i]].key.address < rows[ps[j]].key.address
  {
    hide Sorted;
    var ps := MemberPositions(groups, unit, b, All(rows), |rows|);
    MembersInOrder(groups, unit, b, All(rows), |rows|);
    if i < j < |ps| {
      SortedPair(rows, ps[i], ps[j]);
    }
  }

  function OfUnit(unit: uint8, regs: seq<CachedRegister>, n: nat): seq<CachedRegister>
    requires n <= |regs|
  {
    if n == 0 then []
    else
      var front := OfUnit(unit, regs, n - 1);
      if regs[n - 1].unit == unit then front + [regs[n - 1]] else front
  }

  /** The registers of buckets Some(0) to Some(g - 1) together. */
  function Grouped(groups: seq<Group>, unit: uint8, regs: seq<CachedRegister>, n: nat, g: nat): multiset<CachedRegister>
    requires n <= |regs|
  {
    if g == 0 then multiset{}
    else Grouped(groups, unit, regs, n, g - 1) + multiset(Members(groups, unit, Some(g - 1), regs, n))
  }

  lemma MembersGrow(groups: seq<Group>, unit: uint8, b: Option<nat>, regs: seq<CachedRegister>, n: nat)
    requires 0 < n <= |regs|
    ensures multiset(Members(groups, unit, b, regs, n))
         == multiset(Members(groups, unit, b, regs, n - 1))
            + if Belongs(groups, unit, b, regs[n - 1]) then multiset{regs[n - 1]} else multiset{}
  {
  }

  lemma {:induction false} GroupedGrows(groups: seq<Group>, unit: uint8, regs: seq<CachedRegister>, n: nat, g: nat)
    requires 0 < n <= |regs|
    ensures var b := Bucket(groups, regs[n - 1].address);
            Grouped(groups, unit, regs, n, g) == Grouped(groups, unit, regs, n - 1, g)
              + if regs[n - 1].unit == unit && b.Some? && b.value < g then multiset{regs[n - 1]} else multiset{}
  {
    hide Bucket, Members;
    if g > 0 {
      GroupedGrows(groups, unit, regs, n, g - 1);
      MembersGrow(groups, unit, Some(g - 1), regs, n);
      var b, r := Bucket(groups, regs[n - 1].address), regs[n - 1];
      var front, before := Grouped(groups, unit, regs, n, g - 1), Grouped(groups, unit, regs, n - 1, g - 1);
      var more := multiset(Members(groups, unit, Some(g - 1), regs, n));
      var less := multiset(Members(groups, unit, Some(g - 1), regs, n - 1));
      if r.unit == unit && b == Some(g - 1) {
        assert front == before && more == less + multiset{r};
      } else {
        assert more == less;
      }
    }
  }

  /** Every register of a unit is in exactly one of its buckets, overlapping and wrapping ranges included. */
  lemma {:induction false} BucketsPartition(groups: seq<Group>, unit: uint8, regs: seq<CachedRegister>, n: nat)
    requires n <= |regs|
    ensures Grouped(groups, unit, regs, n, |groups|) + multiset(Members(groups, unit, None, regs, n))
         == multiset(OfUnit(unit, regs, n))
  {
    hide Members, Grouped, InGroup;
    if n == 0 {
      NothingGrouped(groups, unit, regs, |groups|);
      NoneYet(groups, unit, None, regs, 0);
    } else {
      BucketsPartition(groups, unit, regs, n - 1);
      GroupedGrows(groups, unit, regs, n, |groups|);
      MembersGrow(groups, unit, None, regs, n);
    }
  }

  lemma {:induction false} NothingGrouped(groups: seq<Group>, unit: uint8, regs: seq<CachedRegister>, g: nat)
    ensures Grouped(groups, unit, regs, 0, g) == multiset{}
  {
    if g > 0 {
      NothingGrouped(groups, unit, regs, g - 1);
    }
  }

  type Buckets = seq<seq<CachedRegister>>

  function Empty(groups: seq<Group>): Buckets { seq(|groups|, _ => []) }

  function Rest(m: map<uint8, seq<CachedRegister>>, unit: uint8): seq<CachedRegister> {
    if unit in m then m[unit] else []
  }

  ghost predicate Filled(groups: seq<Group>, unit: uint8, regs: seq<CachedRegister>, n: nat, buckets: Buckets)
    requires n <= |regs|
  {
    |buckets| == |groups| && forall i :: 0 <= i < |groups| ==> buckets[i] == Members(groups, unit, Some(i), regs, n)
  }

  lemma {:induction false} NoneYet(groups: seq<Group>, unit: uint8, b: Option<nat>, regs: seq<CachedRegister>, n: nat)
    requires n <= |regs| && forall m :: 0 <= m < n ==> regs[m].unit != unit
    ensures Members(groups, unit, b, regs, n) == []
  {
    if n > 0 {
      NoneYet(groups, unit, b, regs, n - 1);
    }
  }

  lemma EmptyFilled(groups: seq<Group>, unit: uint8, regs: seq<CachedRegister>, n: nat)
    requires n <= |regs| && forall m :: 0 <= m < n ==> regs[m].unit != unit
    ensures Filled(groups, unit, regs, n, Empty(groups))
  {
    forall i | 0 <= i < |groups| {
      NoneYet(groups, unit, Some(i), regs, n);
    }
  }

  /** Puts one register where it belongs. */
  method Place(groups: seq<Group>, buckets: Buckets, reg: CachedRegister) returns (found: bool, after: Buckets)
    requires |buckets| == |groups|
    ensures found <==> Bucket(groups, reg.address).Some?
    ensures after == if found then buckets[Bucket(groups, reg.address).value :=
            buckets[Bucket(groups, reg.address).value] + [reg]]
                     else buckets
  {
    found, after := false, buckets;
    for i := 0 to |groups|
      invariant !found && after == buckets
      invariant forall j :: 0 <= j < i ==> !InGroup(groups[j], reg.address)
    {
      if InGroup(groups[i], reg.address) {
        after := buckets[i := buckets[i] + [reg]];
        found := true;
        break;
      }
    }
  }

  lemma FilledGrows(groups: seq<Group>, unit: uint8, regs: seq<CachedRegister>, n: nat, buckets: Buckets,
                    after: Buckets)
    requires n < |regs| && Filled(groups, unit, regs, n, buckets)
    requires var b := Bucket(groups, regs[n].address);
             after == if regs[n].unit == unit && b.Some? then buckets[b.value := buckets[b.value] + [regs[n]]]
                      else buckets
    ensures Filled(groups, unit, regs, n + 1, after)
  {
    hide InGroup;
  }

  /** The grouping loops of the status page. */
  method Assign(groups: seq<Group>, units: seq<uint8>, regs: seq<CachedRegister>)
    returns (byUnit: map<uint8, Buckets>, ungrouped: map<uint8, seq<CachedRegister>>)
    ensures forall u :: u in units || (exists m :: 0 <= m < |regs| && regs[m].unit == u) ==> u in byUnit
    ensures forall u :: u in byUnit ==> Filled(groups, u, regs, |regs|, byUnit[u])
    ensures forall u :: Rest(ungrouped, u) == Members(groups, u, None, regs, |regs|)
  {
    hide Bucket, Filled;
    byUnit, ungrouped := map[], map[];
    for i := 0 to |units|
      invariant forall u :: u in byUnit <==> u in units[..i]
      invariant forall u :: u in byUnit ==> Filled(groups, u, regs, 0, byUnit[u])
    {
      EmptyFilled(groups, units[i], regs, 0);
      byUnit := byUnit[units[i] := Empty(groups)];
    }
    assert units[..|units|] == units;
    for n := 0 to |regs|
      invariant forall u :: u in units ==> u in byUnit
      invariant forall m :: 0 <= m < n ==> regs[m].unit in byUnit
      invariant forall u :: u in byUnit ==> Filled(groups, u, regs, n, byUnit[u])
      invariant forall u :: Rest(ungrouped, u) == Members(groups, u, None, regs, n)
    {
      var reg := regs[n];
      if reg.unit !in byUnit {
        EmptyFilled(groups, reg.unit, regs, n);
        byUnit := byUnit[reg.unit := Empty(groups)];
      }
      ghost var before := byUnit;
      FilledSize(groups, reg.unit, regs, n, byUnit[reg.unit]);
      var found, buckets := Place(groups, byUnit[reg.unit], reg);
      byUnit := byUnit[reg.unit := buckets];
      if !found {
        ungrouped := ungrouped[reg.unit := Rest(ungrouped, reg.unit) + [reg]];
      }
      forall u | u in byUnit
        ensures Filled(groups, u, regs, n + 1, byUnit[u])
      {
        FilledGrows(groups, u, regs, n, before[u], byUnit[u]);
      }
    }
  }

  lemma FilledSize(groups: seq<Group>, unit: uint8, regs: seq<CachedRegister>, n: nat, buckets: Buckets)
    requires n <= |regs| && Filled(groups, unit, regs, n, buckets)
    ensures |buckets| == |groups|
  {
  }
}
