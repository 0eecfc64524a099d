/**
 The register table (cache.go): rows keyed by (unit, address), kept sorted, and the map they
 stand for. Addresses inside the table are integers, so a run of registers that starts near
 0xFFFF goes past it instead of wrapping.
 */
module Registers {
  import opened Words
  import opened Timestamps

  datatype Key = Key(unit: uint8, address: nat)

  datatype Entry = Entry(value: uint16, updatedAt: string)

  datatype Row = Row(key: Key, entry: Entry)

  type Store = map<Key, Entry>

  datatype PendingWrite = PendingWrite(unit: uint8, address: uint16, values: seq<uint16>)

  // ---------- the map view ----------

  predicate Covers(w: PendingWrite, k: Key) {
    k.unit == w.unit && w.address <= k.address < w.address + |w.values|
  }

  function KeysOf(w: PendingWrite): set<Key> {
    set a: nat | w.address <= a < w.address + |w.values| :: Key(w.unit, a)
  }

  /** `m` after every register of `w` has been upserted with one timestamp. */
  function Apply(m: Store, w: PendingWrite, stamp: string): Store {
    map k | k in m.Keys + KeysOf(w) ::
      if Covers(w, k) then Entry(w.values[k.address - w.address], stamp) else m[k]
  }

  /** `m` after the writes of a batch, left to right. */
  function ApplyAll(m: Store, ws: seq<PendingWrite>, stamp: string): Store {
    if ws == [] then m else Apply(ApplyAll(m, ws[..|ws| - 1], stamp), ws[|ws| - 1], stamp)
  }

  /** `m` without the entries whose timestamp text is below `cutoff`. */
  function Sweep(m: Store, cutoff: string): Store {
    map k | k in m && !TextLess(m[k].updatedAt, cutoff) :: m[k]
  }

  predicate Cached(m: Store, unit: uint8, address: nat, count: nat) {
    forall a | address <= a < address + count :: Key(unit, a) in m
  }

  /** The registers [address, address + count) of a unit, or None unless all are present. */
  function Window(m: Store, unit: uint8, address: nat, count: nat): Option<seq<uint16>> {
    if Cached(m, unit, address, count)
    then Some(seq<uint16>(count, i requires 0 <= i < count => m[Key(unit, address + i)].value))
    else None
  }

  lemma ApplyLookup(m: Store, w: PendingWrite, stamp: string, k: Key)
    ensures k in Apply(m, w, stamp) <==> k in m || Covers(w, k)
    ensures Covers(w, k) ==> Apply(m, w, stamp)[k] == Entry(w.values[k.address - w.address], stamp)
    ensures k in m && !Covers(w, k) ==> Apply(m, w, stamp)[k] == m[k]
  {
    if Covers(w, k) {
      assert k in KeysOf(w);
    }
  }

  // ---------- the sorted rows ----------

  predicate KeyLess(a: Key, b: Key) {
    a.unit < b.unit || (a.unit == b.unit && a.address < b.address)
  }

  /** The map that the rows stand for. */
  ghost function Contents(rows: seq<Row>): Store {
    if rows == [] then map[] else Contents(rows[1..])[rows[0].key := rows[0].entry]
  }

  ghost predicate AllAbove(k: Key, m: Store) {
    forall l :: l in m ==> KeyLess(k, l)
  }

  /** Strictly increasing keys. */
  ghost predicate Sorted(rows: seq<Row>) {
    rows == [] || (AllAbove(rows[0].key, Contents(rows[1..])) && Sorted(rows[1..]))
  }

  /** INSERT ... ON CONFLICT(unit_id, address) DO UPDATE, for one row. */
  function Upsert(rows: seq<Row>, row: Row): seq<Row> {
    if rows == [] || KeyLess(row.key, rows[0].key) then [row] + rows
    else if rows[0].key == row.key then [row] + rows[1..]
    else [rows[0]] + Upsert(rows[1..], row)
  }

  /** The rows that satisfy `p`, in order. */
  function Select(rows: seq<Row>, p: Row -> bool): seq<Row> {
    if rows == [] then [] else (if p(rows[0]) then [rows[0]] else []) + Select(rows[1..], p)
  }

  lemma {:induction false} RowInContents(rows: seq<Row>, i: nat)
    requires Sorted(rows) && i < |rows|
    ensures rows[i].key in Contents(rows) && Contents(rows)[rows[i].key] == rows[i].entry
  {
    if i > 0 {
      RowInContents(rows[1..], i - 1);
    }
  }

  lemma {:induction false} ContentsRow(rows: seq<Row>, k: Key) returns (i: nat)
    requires k in Contents(rows)
    ensures i < |rows| && rows[i].key == k
  {
    if rows[0].key == k {
      i := 0;
    } else {
      i := ContentsRow(rows[1..], k);
      i := i + 1;
    }
  }

  lemma {:induction false} SortedPair(rows: seq<Row>, i: nat, j: nat)
    requires Sorted(rows) && i < j < |rows|
    ensures KeyLess(rows[i].key, rows[j].key)
  {
    RowInContents(rows[1..], j - 1);
    if i > 0 {
      SortedPair(rows[1..], i - 1, j - 1);
    }
  }

  /** An upsert keeps keys sorted and unique, and is a map update. */
  lemma {:induction false} UpsertRefines(rows: seq<Row>, row: Row)
    requires Sorted(rows)
    ensures Sorted(Upsert(rows, row))
    ensures Contents(Upsert(rows, row)) == Contents(rows)[row.key := row.entry]
  {
    var after := Upsert(rows, row);
    if rows == [] || KeyLess(row.key, rows[0].key) {
      assert after[1..] == rows;
    } else if rows[0].key == row.key {
      assert after[1..] == rows[1..];
    } else {
      UpsertRefines(rows[1..], row);
      assert after[1..] == Upsert(rows[1..], row);
    }
  }

  /** The part of `m` whose rows satisfy `p`. */
  ghost function Restrict(m: Store, p: Row -> bool): Store {
    map k | k in m && p(Row(k, m[k])) :: m[k]
  }

  /** A selection keeps order, and is a restriction of the map. */
  lemma {:induction false} SelectRefines(rows: seq<Row>, p: Row -> bool)
    requires Sorted(rows)
    ensures Sorted(Select(rows, p))
    ensures Contents(Select(rows, p)) == Restrict(Contents(rows), p)
  {
    if rows != [] {
      SelectRefines(rows[1..], p);
      if p(rows[0]) {
        assert Select(rows, p)[1..] == Select(rows[1..], p);
      } else {
        assert Select(rows, p) == Select(rows[1..], p);
      }
    }
  }

  // ---------- counting a range ----------

  ghost predicate Increasing(rows: seq<Row>) {
    forall i, j :: 0 <= i < j < |rows| ==> rows[i].key.address < rows[j].key.address
  }

  predicate Within(rows: seq<Row>, lo: nat, hi: nat) {
    forall i :: 0 <= i < |rows| ==> lo <= rows[i].key.address < hi
  }

  predicate HasAddress(rows: seq<Row>, a: nat) {
    exists i :: 0 <= i < |rows| && rows[i].key.address == a
  }

  /** Strictly increasing addresses in [lo, hi) number at most hi - lo, and reach it only as lo, lo+1, ... */
  lemma {:induction false} IncreasingFits(rows: seq<Row>, lo: nat, hi: nat)
    requires lo <= hi && Increasing(rows) && Within(rows, lo, hi)
    ensures |rows| <= hi - lo
    ensures |rows| == hi - lo ==> forall i :: 0 <= i < |rows| ==> rows[i].key.address == lo + i
    decreases |rows|
  {
    if rows != [] {
      IncreasingFits(rows[..|rows| - 1], lo, rows[|rows| - 1].key.address);
    }
  }

  /** Where the rows of a range go in a buffer for it: each to a place of its own, and in order if they fill it. */
  lemma PlacesOf(rows: seq<Row>, address: nat, count: nat)
    requires Increasing(rows) && Within(rows, address, address + count)
    ensures |rows| <= count && forall i :: 0 <= i < |rows| ==> 0 <= rows[i].key.address - address < count
    ensures forall i, j :: 0 <= i < j < |rows| ==> rows[i].key.address != rows[j].key.address
    ensures |rows| == count ==> forall i :: 0 <= i < |rows| ==> rows[i].key.address == address + i
  {
    IncreasingFits(rows, address, address + count);
  }

  /** If they include all of [lo, hi), there are exactly hi - lo of them. */
  lemma {:induction false} IncreasingCovers(rows: seq<Row>, lo: nat, hi: nat)
    requires lo <= hi && Increasing(rows) && Within(rows, lo, hi)
    requires forall a :: lo <= a < hi ==> HasAddress(rows, a)
    ensures |rows| == hi - lo
    decreases hi - lo
  {
    IncreasingFits(rows, lo, hi);
    if lo < hi {
      assert HasAddress(rows, hi - 1);
      var last := |rows| - 1;
      assert rows[last].key.address == hi - 1;
      forall a | lo <= a < hi - 1
        ensures HasAddress(rows[..last], a)
      {
        assert HasAddress(rows, a);
        var i :| 0 <= i < |rows| && rows[i].key.address == a;
        assert rows[..last][i] == rows[i];
      }
      IncreasingCovers(rows[..last], lo, hi - 1);
    }
  }

  function InSpan(unit: uint8, lo: nat, hi: nat): Row -> bool {
    (row: Row) => row.key.unit == unit && lo <= row.key.address < hi
  }

  /** The rows of SELECT ... WHERE unit_id = ? AND address >= ? AND address < ? ORDER BY address. */
  function RangeRows(rows: seq<Row>, unit: uint8, lo: nat, hi: nat): seq<Row> {
    Select(rows, InSpan(unit, lo, hi))
  }

  /** `found` lists, by increasing address, exactly the entries of `m` in [lo, hi) of `unit`. */
  ghost predicate IsRange(m: Store, found: seq<Row>, unit: uint8, lo: nat, hi: nat) {
    && Increasing(found) && Within(found, lo, hi)
    && (forall i :: 0 <= i < |found| ==>
          && found[i].key.unit == unit && found[i].key in m && m[found[i].key] == found[i].entry)
    && (forall a :: lo <= a < hi && Key(unit, a) in m ==> HasAddress(found, a))
  }

  lemma RangeRowsFound(rows: seq<Row>, found: seq<Row>, unit: uint8, lo: nat, hi: nat)
    requires Sorted(rows) && found == RangeRows(rows, unit, lo, hi)
    ensures IsRange(Contents(rows), found, unit, lo, hi)
  {
    SelectRefines(rows, InSpan(unit, lo, hi));
    forall i | 0 <= i < |found|
      ensures found[i].key in Contents(found) && Contents(found)[found[i].key] == found[i].entry
    {
      RowInContents(found, i);
    }
    forall i, j | 0 <= i < j < |found|
      ensures KeyLess(found[i].key, found[j].key)
    {
      SortedPair(found, i, j);
    }
    forall a | lo <= a < hi && Key(unit, a) in Contents(rows)
      ensures HasAddress(found, a)
    {
      var i := ContentsRow(found, Key(unit, a));
    }
  }

  /** The row count tells whether the whole range is cached, because keys are unique. */
  lemma RangeCount(m: Store, found: seq<Row>, unit: uint8, address: nat, count: nat)
    requires IsRange(m, found, unit, address, address + count)
    ensures |found| <= count
    ensures |found| == count <==> Cached(m, unit, address, count)
    ensures |found| == count ==> forall i :: 0 <= i < count ==> found[i].key == Key(unit, address + i)
  {
    IncreasingFits(found, address, address + count);
    if Cached(m, unit, address, count) {
      IncreasingCovers(found, address, address + count);
    } else if |found| == count {
      forall a | address <= a < address + count
        ensures Key(unit, a) in m
      {
        assert found[a - address].key.address == a;
      }
    }
  }

  lemma WindowIs(m: Store, unit: uint8, address: nat, values: seq<uint16>)
    requires forall a :: address <= a < address + |values| ==>
             Key(unit, a) in m && m[Key(unit, a)].value == values[a - address]
    ensures Window(m, unit, address, |values|) == Some(values)
  {
    assert Window(m, unit, address, |values|).value == values;
  }

  lemma WindowOfRange(m: Store, found: seq<Row>, unit: uint8, address: nat, values: seq<uint16>)
    requires IsRange(m, found, unit, address, address + |values|) && |found| == |values|
    requires forall i :: 0 <= i < |values| ==> values[i] == found[i].entry.value
    ensures Window(m, unit, address, |values|) == Some(values)
  {
    RangeCount(m, found, unit, address, |values|);
    forall a | address <= a < address + |values|
      ensures Key(unit, a) in m && m[Key(unit, a)].value == values[a - address]
    {
      assert found[a - address].key == Key(unit, a);
    }
    WindowIs(m, unit, address, values);
  }

  // ---------- the cache object ----------

  /** Where a write transaction fails, if it does. */
  datatype WriteFault = NoWriteFault | BeginFails | ExecFails(at: nat) | CommitFails

  /** Where a query fails, if it does; StopsAt ends the row iteration early without an error. */
  datatype ReadFault = NoReadFault | QueryFails | ScanFails(at: nat) | StopsAt(at: nat)

  /** Whether a transaction of `n` upserts commits. */
  predicate Commits(fault: WriteFault, n: nat) {
    fault.NoWriteFault? || (fault.ExecFails? && n <= fault.at)
  }

  function Upserts(ws: seq<PendingWrite>): nat {
    if ws == [] then 0 else Upserts(ws[..|ws| - 1]) + |ws[|ws| - 1].values|
  }

  /** A transaction commits if nothing fails: not its begin, none of its n statements, not its commit. */
  lemma CommitsLaw(n: nat)
    ensures Commits(NoWriteFault, n) && !Commits(BeginFails, n) && !Commits(CommitFails, n)
    ensures forall at: nat :: Commits(ExecFails(at), n) <==> !(at < n)
  {
  }

  /** One statement for each register of each run. */
  lemma {:induction false} UpsertsLaw(a: seq<PendingWrite>, b: seq<PendingWrite>)
    ensures Upserts(a + b) == Upserts(a) + Upserts(b)
    ensures forall w: PendingWrite :: Upserts([w]) == |w.values|
    decreases |b|
  {
    forall w: PendingWrite
      ensures Upserts([w]) == |w.values|
    {
      assert [w][..0] == [] && Upserts([w][..0]) == 0;
    }
    if b == [] {
      assert a + b == a;
    } else {
      UpsertsLaw(a, b[..|b| - 1]);
      assert (a + b)[..|a + b| - 1] == a + b[..|b| - 1];
    }
  }

  class RegisterCache {
    var rows: seq<Row>
    const text: nat -> string                              // how a clock reading is stored

    ghost predicate Valid()
      reads this
    {
      Sorted(rows)
    }

    ghost function Table(): Store
      requires Valid()
      reads this
    {
      Contents(rows)
    }

    /** Opens a database: the rows of an earlier process are still there. */
    constructor (existing: seq<Row>)
      requires Sorted(existing)
      ensures Valid() && Table() == Contents(existing) && text == Format
    {
      rows := existing;
      text := Format;
    }

    /** Upserts one run of registers inside a transaction; `fault` and `done` decide where it fails. */
    method ExecRun(tx: seq<Row>, w: PendingWrite, stamp: string, fault: WriteFault, done: nat)
      returns (ok: bool, tx': seq<Row>)
      requires Sorted(tx)
      ensures ok <==> !(fault.ExecFails? && done <= fault.at < done + |w.values|)
      ensures Sorted(tx') && (ok ==> Contents(tx') == Apply(Contents(tx), w, stamp))
    {
      tx' := tx;
      assert Contents(tx) == Apply(Contents(tx), w.(values := w.values[..0]), stamp);
      for i := 0 to |w.values|
        invariant Sorted(tx')
        invariant fault.ExecFails? ==> !(done <= fault.at < done + i)
        invariant Contents(tx') == Apply(Contents(tx), w.(values := w.values[..i]), stamp)
      {
        if fault.ExecFails? && fault.at == done + i {
          return false, tx';
        }
        var row := Row(Key(w.unit, w.address + i), Entry(w.values[i], stamp));
        UpsertRefines(tx', row);
        ApplyOneMore(Contents(tx), w, stamp, i);
        tx' := Upsert(tx', row);
      }
      assert w.(values := w.values[..|w.values|]) == w;
      ok := true;
    }

    method Set(unit: uint8, address: uint16, values: seq<uint16>, now: nat, fault: WriteFault)
      requires Valid()
      modifies this
      ensures Valid()
      ensures Table() == if Commits(fault, |values|)
                         then Apply(old(Table()), PendingWrite(unit, address, values), text(now))
                         else old(Table())
    {
      if fault.BeginFails? {
        return;
      }
      var ok, tx := ExecRun(rows, PendingWrite(unit, address, values), text(now), fault, 0);
      if !ok || fault.CommitFails? {
        return;
      }
      rows := tx;
    }

    method SetFromBytes(unit: uint8, address: uint16, data: seq<uint8>, now: nat, fault: WriteFault)
      requires Valid()
      modifies this
      ensures Valid()
      ensures Table() == if Commits(fault, |data| / 2)
                         then Apply(old(Table()), PendingWrite(unit, address, WordsOf(data)), text(now))
                         else old(Table())
    {
      var values := BytesToUint16(data);
      WordsOfAt(data, 0);
      Set(unit, address, values, now, fault);
    }

    /** All runs of a batch, left to right, inside one transaction. */
    method ExecRuns(writes: seq<PendingWrite>, stamp: string, fault: WriteFault) returns (ok: bool, tx: seq<Row>)
      requires Valid()
      ensures ok <==> !(fault.ExecFails? && fault.at < Upserts(writes))
      ensures ok ==> Sorted(tx) && Contents(tx) == ApplyAll(Table(), writes, stamp)
    {
      tx := rows;
      var done := 0;
      for i := 0 to |writes|
        invariant Sorted(tx)
        invariant done == Upserts(writes[..i])
        invariant fault.ExecFails? ==> done <= fault.at
        invariant Contents(tx) == ApplyAll(Table(), writes[..i], stamp)
      {
        assert writes[..i + 1][..i] == writes[..i];
        ok, tx := ExecRun(tx, writes[i], stamp, fault, done);
        if !ok {
          UpsertsMonotone(writes, i + 1);
          return;
        }
        done := done + |writes[i].values|;
      }
      assert writes[..|writes|] == writes;
      ok := true;
    }

    method BatchSet(writes: seq<PendingWrite>, now: nat, fault: WriteFault)
      requires Valid()
      modifies this
      ensures Valid()
      ensures Table() == if Commits(fault, Upserts(writes))
                         then ApplyAll(old(Table()), writes, text(now))
                         else old(Table())
    {
      if |writes| == 0 || fault.BeginFails? {
        return;
      }
      var ok, tx := ExecRuns(writes, text(now), fault);
      if !ok || fault.CommitFails? {
        return;
      }
      rows := tx;
    }

    /** The row loop of Get. */
    method ScanRows(selected: seq<Row>, address: uint16, count: uint16, fault: ReadFault)
      returns (result: Option<seq<uint16>>)
      requires Increasing(selected) && Within(selected, address, address + count)
      ensures fault.NoReadFault? && |selected| == count ==> result.Some?
      ensures result.Some? ==> |selected| == count == |result.value|
                               && forall i :: 0 <= i < count ==> result.value[i] == selected[i].entry.value
    {
      hide KeyLess, Increasing, Within;
      PlacesOf(selected, address, count);
      var buffer := new uint16[count](_ => 0);
      var found := 0;
      var n := 0;
      while n < |selected| && fault != StopsAt(n)
        invariant 0 <= n <= |selected| && found == n
        invariant forall i :: 0 <= i < n ==> buffer[selected[i].key.address - address] == selected[i].entry.value
        decreases |selected| - n
      {
        if fault == ScanFails(n) {
          return None;
        }
        var index := selected[n].key.address - address;
        if 0 <= index < count {
          buffer[index] := selected[n].entry.value;
          found := found + 1;
        }
        n := n + 1;
      }
      if found != count {
        return None;
      }
      return Some(buffer[..]);
    }

    /** All or nothing; no fault can make it return anything but the whole current range. */
    method Get(unit: uint8, address: uint16, count: uint16, fault: ReadFault) returns (result: Option<seq<uint16>>)
      requires Valid()
      ensures fault.NoReadFault? ==> result == Window(Table(), unit, address, count)
      ensures result == None || result == Window(Table(), unit, address, count)
      ensures fault.QueryFails? ==> result == None
    {
      if fault.QueryFails? {
        return None;
      }
      var selected := RangeRows(rows, unit, address, address + count);
      RangeRowsFound(rows, selected, unit, address, address + count);
      RangeCount(Table(), selected, unit, address, count);
      result := ScanRows(selected, address, count, fault);
      if result.Some? {
        WindowOfRange(Table(), selected, unit, address, result.value);
      }
    }

    method GetBytes(unit: uint8, address: uint16, count: uint16, fault: ReadFault) returns (data: Option<seq<uint8>>)
      requires Valid()
      ensures data.Some? ==> Window(Table(), unit, address, count).Some?
                             && data.value == BytesOf(Window(Table(), unit, address, count).value)
      ensures fault.NoReadFault? ==> (data.Some? <==> Cached(Table(), unit, address, count))
      ensures fault.QueryFails? ==> data == None
    {
      var values := Get(unit, address, count, fault);
      if values == None {
        return None;
      }
      var bytes := Uint16ToBytes(values.value);
      return Some(bytes);
    }

    /** `fails` if the statement is not executed. */
    method DeleteStale(now: nat, maxAge: int, fails: bool) returns (deleted: nat)
      requires Valid()
      requires now - maxAge >= 0
      modifies this
      ensures Valid() && Table() == if fails then old(Table()) else Sweep(old(Table()), text(now - maxAge))
      ensures deleted == |old(Table())| - |Table()|
    {
      var cutoff := text(now - maxAge);
      if fails {
        return 0;
      }
      deleted := DeleteBelow(cutoff);
    }

    /** The prepared DELETE statement; returns the number of rows affected. */
    method DeleteBelow(cutoff: string) returns (deleted: nat)
      requires Valid()
      modifies this
      ensures Valid() && Table() == Sweep(old(Table()), cutoff)
      ensures deleted == |old(Table())| - |Table()|
    {
      var kept := Select(rows, (row: Row) => !TextLess(row.entry.updatedAt, cutoff));
      SelectRefines(rows, (row: Row) => !TextLess(row.entry.updatedAt, cutoff));
      RowCount(rows);
      RowCount(kept);
      SelectShorter(rows, (row: Row) => !TextLess(row.entry.updatedAt, cutoff));
      deleted := |rows| - |kept|;
      rows := kept;
    }
  }

  lemma ApplyOneMore(m: Store, w: PendingWrite, stamp: string, i: nat)
    requires i < |w.values|
    ensures Apply(m, w.(values := w.values[..i + 1]), stamp)
         == Apply(m, w.(values := w.values[..i]), stamp)[Key(w.unit, w.address + i) := Entry(w.values[i], stamp)]
  {
    var more, less, key := w.(values := w.values[..i + 1]), w.(values := w.values[..i]), Key(w.unit, w.address + i);
    assert KeysOf(more) == KeysOf(less) + {key};
  }

  lemma {:induction false} UpsertsMonotone(ws: seq<PendingWrite>, i: nat)
    requires i <= |ws|
    ensures Upserts(ws[..i]) <= Upserts(ws)
    decreases |ws|
  {
    if i < |ws| {
      assert ws[..|ws| - 1][..i] == ws[..i];
      UpsertsMonotone(ws[..|ws| - 1], i);
    } else {
      assert ws[..i] == ws;
    }
  }

  lemma {:induction false} RowCount(rows: seq<Row>)
    requires Sorted(rows)
    ensures |Contents(rows)| == |rows|
  {
    if rows != [] {
      RowCount(rows[1..]);
      assert rows[0].key !in Contents(rows[1..]);
    }
  }

  lemma {:induction false} SelectShorter(rows: seq<Row>, p: Row -> bool)
    ensures |Select(rows, p)| <= |rows|
  {
    if rows != [] {
      SelectShorter(rows[1..], p);
    }
  }
}
