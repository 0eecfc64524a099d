/**
 What the server does with each kind of request, in terms of the bytes of the request: the call
 to the device, the answer, and the table.
 */
module Requests {
  import opened Words
  import opened Registers
  import opened History
  import opened Client
  import opened Frames
  import opened Server

  /** The 16-bit field at byte i, high byte first. */
  function Field(b: seq<uint8>, i: nat): uint16
    requires i + 1 < |b|
  {
    256 * b[i] as int + b[i + 1] as int
  }

  /** The n 16-bit fields from byte i on. */
  function Fields(b: seq<uint8>, i: nat, n: nat): seq<uint16>
    requires i + 2 * n <= |b|
  {
    seq(n, j requires 0 <= j < n => Field(b, i + 2 * j))
  }

  /** `after` is `before` with `values` under the addresses from `address` on of `unit`, and nothing else changed. */
  ghost predicate TableSets(before: Store, after: Store, unit: uint8, address: nat, values: seq<uint16>,
                            stamp: string) {
    forall k: Key ::
      if k.unit == unit && address <= k.address < address + |values|
      then k in after && after[k] == Entry(values[k.address - address], stamp)
      else (k in after <==> k in before) && (k in before ==> after[k] == before[k])
  }

  /**
   The table that other threads have left becomes the one with the values if the transaction
   commits, else it stays.
   */
  ghost predicate Stores(m: Store, after: Store, unit: uint8, address: nat, values: seq<uint16>, e: FrameEnv,
                         stamp: string) {
    if Commits(e.fault, |values|) then TableSets(Replay(m, e.othersThen), after, unit, address, values, stamp)
    else after == Replay(m, e.othersThen)
  }

  lemma StoredSets(m: Store, w: PendingWrite, e: FrameEnv, stamp: string)
    ensures Stores(m, Stored(m, w, stamp, e), w.unit, w.address, w.values, e, stamp)
  {
    hide Apply, Replay;
    var before := Replay(m, e.othersThen);
    forall k: Key
      ensures k in Apply(before, w, stamp) <==> k in before || Covers(w, k)
      ensures Covers(w, k) ==> Apply(before, w, stamp)[k] == Entry(w.values[k.address - w.address], stamp)
      ensures k in before && !Covers(w, k) ==> Apply(before, w, stamp)[k] == before[k]
    {
      ApplyLookup(before, w, stamp, k);
    }
  }

  lemma WordsAreFields(b: seq<uint8>)
    ensures WordsOf(b) == Fields(b, 0, |b| / 2)
  {
    forall i: nat
      ensures |WordsOf(b)| == |b| / 2
      ensures i < |b| / 2 ==> WordsOf(b)[i] == Field(b, 2 * i)
    {
      BigEndian(b, i);
    }
  }

  lemma SliceFields(b: seq<uint8>, i: nat, n: nat)
    requires i + 2 * n <= |b|
    ensures WordsOf(b[i..i + 2 * n]) == Fields(b, i, n)
  {
    WordsAreFields(b[i..i + 2 * n]);
  }

  // ---------- write single register ----------

  /** 06, address, value: written through to the device, echoed and cached. */
  lemma WriteSingleLaw(m: Store, forward: bool, f: Frame, e: FrameEnv, stamp: string)
    requires GoodFrame(f) && f.pdu[0] == 0x06
    ensures var h := Handle(m, forward, f, e, stamp);
            if |f.pdu| < 5 then h == Handled(m, ExceptionResponse(0x06, 3), [])
            else if !e.connected then h == Handled(m, ExceptionResponse(0x06, 4), [])
            else
              var address, value := Field(f.pdu, 1), Field(f.pdu, 3);
              && h.calls == [WriteSingle(f.unit, address, value)]
              && match e.reply
                 case Failed(_) => h.response == ExceptionResponse(0x06, 4) && h.table == m
                 case Data(_) =>
                   && h.response == WriteSingleResponse(address, value)
                   && Stores(m, h.table, f.unit, address, [value], e, stamp)
  {
    hide Stored, Stores;
    if |f.pdu| >= 5 {
      StoredSets(m, PendingWrite(f.unit, Field(f.pdu, 1), [Field(f.pdu, 3)]), e, stamp);
    }
  }

  // ---------- write multiple registers ----------

  /** 10, address, count, byte count, data. */
  lemma WriteMultipleLaw(m: Store, forward: bool, f: Frame, e: FrameEnv, stamp: string)
    requires GoodFrame(f) && f.pdu[0] == 0x10
    ensures var h := Handle(m, forward, f, e, stamp);
            if |f.pdu| < 6 || f.pdu[5] as int != 2 * Field(f.pdu, 3) as int || |f.pdu| < 6 + f.pdu[5] as int
            then h == Handled(m, ExceptionResponse(0x10, 3), [])
            else if !e.connected then h == Handled(m, ExceptionResponse(0x10, 4), [])
            else
              var address, count := Field(f.pdu, 1), Field(f.pdu, 3);
              && h.calls == [WriteMultiple(f.unit, address, count, f.pdu[6..6 + 2 * count as int])]
              && match e.reply
                 case Failed(_) => h.response == ExceptionResponse(0x10, 4) && h.table == m
                 case Data(_) =>
                   && h.response == WriteMultipleResponse(address, count)
                   && Stores(m, h.table, f.unit, address, Fields(f.pdu, 6, count), e, stamp)
  {
    hide Stored, Stores, WordsOf;
    if |f.pdu| >= 6 && f.pdu[5] as int == 2 * Field(f.pdu, 3) as int && |f.pdu| >= 6 + f.pdu[5] as int {
      var count := Field(f.pdu, 3);
      SliceFields(f.pdu, 6, count);
      StoredSets(m, PendingWrite(f.unit, Field(f.pdu, 1), Fields(f.pdu, 6, count)), e, stamp);
    }
  }

  // ---------- read registers ----------

  /** The whole range is cached, and the lookup does not fail. */
  predicate Hit(m: Store, unit: uint8, address: nat, count: nat, e: FrameEnv) {
    !e.queryFails && forall a :: address <= a < address + count ==> Key(unit, a) in m
  }

  /** The bytes are the cached registers, high byte first. */
  predicate Shows(m: Store, unit: uint8, address: nat, count: nat, bytes: seq<uint8>) {
    && |bytes| == 2 * count
    && forall i :: 0 <= i < count ==>
         Key(unit, address + i) in m && m[Key(unit, address + i)].value == Field(bytes, 2 * i)
  }

  lemma HitShows(m: Store, unit: uint8, address: nat, count: nat)
    requires Cached(m, unit, address, count)
    ensures Shows(m, unit, address, count, BytesOf(Window(m, unit, address, count).value))
  {
    var values := Window(m, unit, address, count).value;
    forall i: nat
      ensures |BytesOf(values)| == 2 * count
      ensures i < count ==> Field(BytesOf(values), 2 * i) == values[i]
    {
      BigEndianBytes(values, i);
    }
  }

  lemma HitIsCached(m: Store, unit: uint8, address: nat, count: nat, e: FrameEnv)
    ensures Hit(m, unit, address, count, e) <==> !e.queryFails && Cached(m, unit, address, count)
  {
  }

  /** 03 or 04, address, count: from the table, else from the device if reads are forwarded, else refused. */
  lemma ReadLaw(m: Store, forward: bool, f: Frame, e: FrameEnv, stamp: string)
    requires GoodFrame(f) && (f.pdu[0] == 0x03 || f.pdu[0] == 0x04)
    ensures var h := Handle(m, forward, f, e, stamp);
            var fc := f.pdu[0];
            if |f.pdu| < 5 || Field(f.pdu, 3) == 0 || Field(f.pdu, 3) > 125
            then h == Handled(m, ExceptionResponse(fc, 3), [])
            else
              var address, count := Field(f.pdu, 1), Field(f.pdu, 3);
              if Hit(m, f.unit, address, count, e)
              then
                && h.calls == [] && h.table == m
                && h.response.ReadResponse? && h.response.fc == fc
                && Shows(m, f.unit, address, count, h.response.data)
              else if !forward || !e.connected then h == Handled(m, ExceptionResponse(fc, 2), [])
              else
                && h.calls == [Read(f.unit, address, count)]
                && match e.reply
                   case Failed(_) => h.response == ExceptionResponse(fc, 4) && h.table == m
                   case Data(bytes) =>
                     && h.response == ReadResponse(fc, bytes)
                     && Stores(m, h.table, f.unit, address, Fields(bytes, 0, |bytes| / 2), e, stamp)
  {
    hide Stored, Stores, WordsOf, BytesOf, Cached, Hit, Shows;
    if |f.pdu| >= 5 {
      var address, count := Field(f.pdu, 1), Field(f.pdu, 3);
      HitIsCached(m, f.unit, address, count, e);
      if Cached(m, f.unit, address, count) {
        HitShows(m, f.unit, address, count);
      }
      if e.reply.Data? {
        WordsAreFields(e.reply.bytes);
        StoredSets(m, PendingWrite(f.unit, address, WordsOf(e.reply.bytes)), e, stamp);
      }
    }
  }

  // ---------- anything else ----------

  lemma OtherLaw(m: Store, forward: bool, f: Frame, e: FrameEnv, stamp: string)
    requires GoodFrame(f) && f.pdu[0] != 0x03 && f.pdu[0] != 0x04 && f.pdu[0] != 0x06 && f.pdu[0] != 0x10
    ensures Handle(m, forward, f, e, stamp) == Handled(m, ExceptionResponse(f.pdu[0], 1), [])
  {
  }

  // ---------- requests and answers as bytes ----------

  /** Where the next request is in the stream: header fields at bytes 0, 2, 4 and 6, then `length` - 1 bytes of PDU. */
  lemma RequestBytes(stream: seq<uint8>)
    ensures Split(stream) ==
            if |stream| < 7 || Field(stream, 2) != 0 || !(2 <= Field(stream, 4) <= 256)
               || |stream| < 6 + Field(stream, 4) as int
            then []
            else
              var length: int := Field(stream, 4);
              [Frame(Field(stream, 0), stream[6], stream[7..6 + length])] + Split(stream[6 + length..])
  {
    hide At, Field;
    if |stream| >= 7 {
      HeaderMeaning(stream);
      AtIsField(stream, 0);
      AtIsField(stream, 2);
      AtIsField(stream, 4);
    }
  }

  lemma AtIsField(b: seq<uint8>, i: nat)
    requires i + 1 < |b|
    ensures At(b, i) == Field(b, i)
  {
  }

  /** What goes out, byte by byte. */
  lemma ResponseBytes(tx: uint16, unit: uint8, r: Response)
    ensures var b := EncodeResponse(tx, unit, r);
            && |b| >= 9 && Field(b, 0) == tx && Field(b, 2) == 0 && b[6] == unit
            && Field(b, 4) as int == (|b| - 6) % 65536
            && match r
               case ReadResponse(fc, data) =>
                 |b| == 9 + |data| && b[7] == fc && b[8] as int == |data| % 256 && b[9..] == data
               case ExceptionResponse(fc, code) =>
                 |b| == 9 && b[7] >= 128 && b[7] % 128 == fc % 128 && b[8] == code
               case WriteSingleResponse(address, value) =>
                 |b| == 12 && b[7] == 6 && Field(b, 8) == address && Field(b, 10) == value
               case WriteMultipleResponse(address, count) =>
                 |b| == 12 && b[7] == 16 && Field(b, 8) == address && Field(b, 10) == count
  {
  }

  /** The bytes arrive in chunks, and all that counts is their concatenation. */
  lemma {:induction false} ChunksConcat(a: seq<seq<uint8>>, b: seq<seq<uint8>>)
    ensures Flat(a + b) == Flat(a) + Flat(b)
    ensures forall c: seq<uint8> :: Flat([c]) == c
  {
    forall c: seq<uint8>
      ensures Flat([c]) == c
    {
      assert [c][1..] == [];
    }
    if a == [] {
      assert a + b == b;
    } else {
      ChunksConcat(a[1..], b);
      assert (a + b)[1..] == a[1..] + b;
    }
  }
}
