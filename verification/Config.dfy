/** The parsed configuration (config.go), its validation, and the lists the reader derives from it. */
module Config {
  import opened Words

  datatype Group = Group(name: string, address: uint16, count: uint16, poll: string)

  datatype Config = Config(
    host: string,
    unitIds: seq<uint8>,
    readPauseMs: int,
    slowIntervalS: int,
    cacheTtlH: int,
    forwardUnknownReads: bool,
    groups: seq<Group>)

  datatype ConfigError =
    | HostMissing | GroupsMissing | UnitsMissing
    | DuplicateUnit(unit: uint8)
    | CountZero(index: nat) | CountTooLarge(index: nat) | BadPoll(index: nat)

  predicate Distinct<T(==)>(s: seq<T>) {
    forall i, j :: 0 <= i < j < |s| ==> s[i] != s[j]
  }

  predicate GoodGroup(g: Group) {
    0 < g.count <= 125 && (g.poll == "fast" || g.poll == "slow")
  }

  predicate Accepted(cfg: Config) {
    && cfg.host != "" && cfg.groups != [] && cfg.unitIds != []
    && Distinct(cfg.unitIds)
    && forall i :: 0 <= i < |cfg.groups| ==> GoodGroup(cfg.groups[i])
  }

  /** A host, groups and units are given, no unit twice, and every group is one Modbus read of a known tier. */
  lemma AcceptedLaw(cfg: Config)
    ensures Accepted(cfg) <==>
              && cfg.host != "" && |cfg.groups| > 0 && |cfg.unitIds| > 0
              && (forall i, j :: 0 <= i < j < |cfg.unitIds| ==> cfg.unitIds[i] != cfg.unitIds[j])
              && (forall g :: g in cfg.groups ==> 1 <= g.count <= 125 && (g.poll == "fast" || g.poll == "slow"))
  {
    assert forall i :: 0 <= i < |cfg.groups| ==> cfg.groups[i] in cfg.groups;
  }

  /** What each error says, including that every earlier check passed. */
  predicate Explains(cfg: Config, error: ConfigError) {
    match error
    case HostMissing => cfg.host == ""
    case GroupsMissing => cfg.host != "" && cfg.groups == []
    case UnitsMissing => cfg.host != "" && cfg.groups != [] && cfg.unitIds == []
    case DuplicateUnit(unit) =>
      && cfg.host != "" && cfg.groups != []
      && exists j :: 0 <= j < |cfg.unitIds| && cfg.unitIds[j] == unit && RepeatsAt(cfg.unitIds, j)
    case CountZero(i) => FirstBadGroup(cfg, i) && cfg.groups[i].count == 0
    case CountTooLarge(i) => FirstBadGroup(cfg, i) && cfg.groups[i].count > 125
    case BadPoll(i) => FirstBadGroup(cfg, i) && 0 < cfg.groups[i].count <= 125
  }

  /** The first position whose id has been listed before. */
  predicate RepeatsAt(units: seq<uint8>, j: nat)
    requires j < |units|
  {
    units[j] in units[..j] && Distinct(units[..j])
  }

  predicate FirstBadGroup(cfg: Config, i: nat) {
    && cfg.host != "" && cfg.unitIds != [] && Distinct(cfg.unitIds)
    && i < |cfg.groups| && !GoodGroup(cfg.groups[i])
    && forall j :: 0 <= j < i ==> GoodGroup(cfg.groups[j])
  }

  /** The checks that LoadConfig makes after parsing, in its order; the first failure is reported. */
  method Validate(cfg: Config) returns (error: Option<ConfigError>)
    ensures error == None <==> Accepted(cfg)
    ensures error.Some? ==> Explains(cfg, error.value)
  {
    if cfg.host == "" {
      return Some(HostMissing);
    }
    if |cfg.groups| == 0 {
      return Some(GroupsMissing);
    }
    if |cfg.unitIds| == 0 {
      return Some(UnitsMissing);
    }
    var seen: set<uint8> := {};
    for i := 0 to |cfg.unitIds|
      invariant forall u :: u in seen <==> u in cfg.unitIds[..i]
      invariant forall j, k :: 0 <= j < k < i ==> cfg.unitIds[j] != cfg.unitIds[k]
    {
      if cfg.unitIds[i] in seen {
        return Some(DuplicateUnit(cfg.unitIds[i]));
      }
      assert forall j :: 0 <= j < i ==> cfg.unitIds[j] in cfg.unitIds[..i];
      seen := seen + {cfg.unitIds[i]};
    }
    for i := 0 to |cfg.groups|
      invariant forall j :: 0 <= j < i ==> GoodGroup(cfg.groups[j])
    {
      var g := cfg.groups[i];
      if g.count == 0 {
        return Some(CountZero(i));
      }
      if g.count > 125 {
        return Some(CountTooLarge(i));
      }
      if g.poll != "fast" && g.poll != "slow" {
        return Some(BadPoll(i));
      }
    }
    return None;
  }

  // ---------- the two tiers ----------

  /** The groups of one tier, in configuration order. */
  function Tier(groups: seq<Group>, poll: string): seq<Group> {
    if groups == [] then []
    else Tier(groups[..|groups| - 1], poll)
         + if groups[|groups| - 1].poll == poll then [groups[|groups| - 1]] else []
  }

  /** Their positions in the configuration. */
  function TierPositions(groups: seq<Group>, poll: string): seq<nat> {
    if groups == [] then []
    else TierPositions(groups[..|groups| - 1], poll)
         + if groups[|groups| - 1].poll == poll then [|groups| - 1] else []
  }

  /** NewReader's loop. */
  method Split(groups: seq<Group>) returns (fast: seq<Group>, slow: seq<Group>)
    ensures fast == Tier(groups, "fast") && slow == Tier(groups, "slow")
  {
    fast, slow := [], [];
    for i := 0 to |groups|
      invariant fast == Tier(groups[..i], "fast") && slow == Tier(groups[..i], "slow")
    {
      assert groups[..i + 1][..i] == groups[..i];
      var g := groups[i];
      if g.poll == "fast" {
        fast := fast + [g];
      } else if g.poll == "slow" {
        slow := slow + [g];
      }
    }
    assert groups[..|groups|] == groups;
  }

  /** A tier lists its positions in increasing order, each group of that tier once and no other. */
  lemma {:induction false} TierKeepsOrder(groups: seq<Group>, poll: string)
    ensures var ps := TierPositions(groups, poll);
            && |ps| == |Tier(groups, poll)|
            && (forall i :: 0 <= i < |ps| ==> ps[i] < |groups| && Tier(groups, poll)[i] == groups[ps[i]])
            && (forall i, j :: 0 <= i < j < |ps| ==> ps[i] < ps[j])
            && (forall p :: 0 <= p < |groups| ==> (p in ps <==> groups[p].poll == poll))
    decreases |groups|
  {
    if groups != [] {
      TierKeepsOrder(groups[..|groups| - 1], poll);
    }
  }

  lemma TierGrows(front: seq<Group>, last: Group, poll: string)
    ensures multiset(Tier(front + [last], poll))
         == multiset(Tier(front, poll)) + if last.poll == poll then multiset{last} else multiset{}
  {
    assert (front + [last])[..|front|] == front;
  }

  /** For an accepted configuration the two tiers together are a permutation of the groups. */
  lemma {:induction false} TiersPermute(groups: seq<Group>)
    requires forall i :: 0 <= i < |groups| ==> GoodGroup(groups[i])
    ensures multiset(Tier(groups, "fast")) + multiset(Tier(groups, "slow")) == multiset(groups)
    decreases |groups|
  {
    if groups != [] {
      var front, last := groups[..|groups| - 1], groups[|groups| - 1];
      TiersPermute(front);
      assert groups == front + [last];
      TierGrows(front, last, "fast");
      TierGrows(front, last, "slow");
      assert GoodGroup(last);
      assert "fast" != "slow" by {
        assert "fast"[0] != "slow"[0];
      }
    }
  }

  // ---------- unit by group lists ----------

  datatype UnitItem<T> = UnitItem(unit: uint8, item: T)

  function ForUnits<T>(units: seq<uint8>, item: T): seq<UnitItem<T>> {
    seq(|units|, i requires 0 <= i < |units| => UnitItem(units[i], item))
  }

  /** The first n items, one after the other, each for all units in turn. */
  function PairsTo<T>(items: seq<T>, units: seq<uint8>, n: nat): seq<UnitItem<T>>
    requires n <= |items|
  {
    if n == 0 then [] else PairsTo(items, units, n - 1) + ForUnits(units, items[n - 1])
  }

  function Pairs<T>(items: seq<T>, units: seq<uint8>): seq<UnitItem<T>> {
    PairsTo(items, units, |items|)
  }

  /** Group-major, then unit order: all units of one group are consecutive. */
  lemma {:induction false} PairsAt<T>(items: seq<T>, units: seq<uint8>, n: nat, g: nat, u: nat)
    requires n <= |items|
    ensures |PairsTo(items, units, n)| == n * |units|
    ensures g < n && u < |units| ==> 0 <= g * |units| + u < |PairsTo(items, units, n)|
                                     && PairsTo(items, units, n)[g * |units| + u] == UnitItem(units[u], items[g])
  {
    if n > 0 {
      PairsAt(items, units, n - 1, g, u);
      assert n * |units| == (n - 1) * |units| + |units|;
    }
  }

  /** Distinct units and items make a list without repetitions that holds every combination. */
  lemma {:induction false} PairsOnce<T(!new)>(items: seq<T>, units: seq<uint8>, n: nat)
    requires Distinct(units) && Distinct(items) && n <= |items|
    ensures Distinct(PairsTo(items, units, n))
    ensures forall x :: x in PairsTo(items, units, n) <==> x.unit in units && x.item in items[..n]
  {
    if n > 0 {
      PairsOnce(items, units, n - 1);
      var last := ForUnits(units, items[n - 1]);
      forall x
        ensures x in last <==> x.unit in units && x.item == items[n - 1]
      {
        if x.unit in units && x.item == items[n - 1] {
          var i :| 0 <= i < |units| && units[i] == x.unit;
          assert last[i] == x;
        }
      }
      assert items[..n] == items[..n - 1] + [items[n - 1]];
      assert items[n - 1] !in items[..n - 1];
    }
  }

  /** The list InitialScan starts from: fast groups, then slow ones, each for all units. */
  function ScanList(groups: seq<Group>, units: seq<uint8>): seq<UnitItem<Group>> {
    Pairs(Tier(groups, "fast") + Tier(groups, "slow"), units)
  }

  function ScanPositions(groups: seq<Group>): seq<nat> {
    TierPositions(groups, "fast") + TierPositions(groups, "slow")
  }

  predicate AtPosition(groups: seq<Group>, x: UnitItem<Group>, y: UnitItem<nat>) {
    y.item < |groups| && x == UnitItem(y.unit, groups[y.item])
  }

  lemma {:induction false} PairsMap(groups: seq<Group>, positions: seq<nat>, items: seq<Group>, units: seq<uint8>,
                                    n: nat)
    requires |items| == |positions| && n <= |items|
    requires forall i :: 0 <= i < |items| ==> positions[i] < |groups| && items[i] == groups[positions[i]]
    ensures |PairsTo(items, units, n)| == |PairsTo<nat>(positions, units, n)|
    ensures forall m :: 0 <= m < |PairsTo(items, units, n)| ==>
              AtPosition(groups, PairsTo(items, units, n)[m], PairsTo<nat>(positions, units, n)[m])
  {
    if n > 0 {
      PairsMap(groups, positions, items, units, n - 1);
    }
  }

  lemma PositionsOnce(groups: seq<Group>)
    requires forall i :: 0 <= i < |groups| ==> GoodGroup(groups[i])
    ensures Distinct(ScanPositions(groups))
    ensures forall p: nat :: p in ScanPositions(groups) <==> p < |groups|
  {
    var fast, slow := TierPositions(groups, "fast"), TierPositions(groups, "slow");
    TierKeepsOrder(groups, "fast");
    TierKeepsOrder(groups, "slow");
    forall i, j | 0 <= i < |fast| && 0 <= j < |slow|
      ensures fast[i] != slow[j]
    {
      assert fast[i] in fast && slow[j] in slow;
    }
    forall p: nat
      ensures p in fast + slow <==> p < |groups|
    {
      if p < |groups| {
        assert GoodGroup(groups[p]);
      }
    }
  }

  lemma ScanListMatches(groups: seq<Group>, units: seq<uint8>)
    ensures |ScanList(groups, units)| == |Pairs<nat>(ScanPositions(groups), units)|
    ensures forall n :: 0 <= n < |ScanList(groups, units)| ==>
              AtPosition(groups, ScanList(groups, units)[n], Pairs<nat>(ScanPositions(groups), units)[n])
  {
    TierKeepsOrder(groups, "fast");
    TierKeepsOrder(groups, "slow");
    PairsMap(groups, ScanPositions(groups), Tier(groups, "fast") + Tier(groups, "slow"), units,
             |ScanPositions(groups)|);
  }

  /** For an accepted configuration the scan list holds each unit and group position exactly once. */
  lemma ScanListComplete(cfg: Config)
    requires Accepted(cfg)
    ensures var positions := Pairs<nat>(ScanPositions(cfg.groups), cfg.unitIds);
            && Distinct(positions)
            && (forall x :: x in positions <==> x.unit in cfg.unitIds && x.item < |cfg.groups|)
            && |ScanList(cfg.groups, cfg.unitIds)| == |positions|
            && forall n :: 0 <= n < |positions| ==>
               AtPosition(cfg.groups, ScanList(cfg.groups, cfg.unitIds)[n], positions[n])
  {
    PositionsOnce(cfg.groups);
    PairsOnce<nat>(ScanPositions(cfg.groups), cfg.unitIds, |ScanPositions(cfg.groups)|);
    assert ScanPositions(cfg.groups)[..|ScanPositions(cfg.groups)|] == ScanPositions(cfg.groups);
    ScanListMatches(cfg.groups, cfg.unitIds);
  }
}
