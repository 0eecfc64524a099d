/** Bytes and 16-bit registers, and the big-endian conversions between them. */
module Words {
  type uint8 = x: int | 0 <= x < 0x100
  type uint16 = x: int | 0 <= x < 0x1_0000

  datatype Option<+T> = None | Some(value: T)

  function High(w: uint16): uint8 { w / 0x100 }

  function Low(w: uint16): uint8 { w % 0x100 }

  function Join(hi: uint8, lo: uint8): uint16 { hi as int * 0x100 + lo as int }

  /** The registers in a big-endian byte string; a trailing odd byte is dropped. */
  function WordsOf(data: seq<uint8>): (ws: seq<uint16>)
  {
    if |data| < 2 then [] else [Join(data[0], data[1])] + WordsOf(data[2..])
  }

  /** The big-endian bytes of a list of registers. */
  function BytesOf(ws: seq<uint16>): (data: seq<uint8>)
  {
    if ws == [] then [] else [High(ws[0]), Low(ws[0])] + BytesOf(ws[1..])
  }

  lemma {:induction false} WordsOfAt(data: seq<uint8>, i: nat)
    ensures |WordsOf(data)| == |data| / 2
    ensures i < |data| / 2 ==> WordsOf(data)[i] == Join(data[2 * i], data[2 * i + 1])
    decreases |data|
  {
    if |data| >= 2 {
      WordsOfAt(data[2..], if i == 0 then 0 else i - 1);
    }
  }

  /** The registers are big-endian: high byte first. */
  lemma BigEndian(data: seq<uint8>, i: nat)
    ensures |WordsOf(data)| == |data| / 2
    ensures i < |data| / 2 ==> WordsOf(data)[i] as int == 256 * data[2 * i] as int + data[2 * i + 1] as int
  {
    WordsOfAt(data, i);
  }

  lemma {:induction false} BytesOfAt(ws: seq<uint16>, i: nat)
    ensures |BytesOf(ws)| == 2 * |ws|
    ensures i < |ws| ==> BytesOf(ws)[2 * i] == High(ws[i]) && BytesOf(ws)[2 * i + 1] == Low(ws[i])
  {
    if ws != [] {
      BytesOfAt(ws[1..], if i == 0 then 0 else i - 1);
    }
  }

  /** Decoding undoes encoding for every list of registers. */
  lemma {:induction false} WordsOfBytesOf(ws: seq<uint16>)
    ensures WordsOf(BytesOf(ws)) == ws
  {
    if ws != [] {
      var rest := BytesOf(ws[1..]);
      assert BytesOf(ws)[2..] == rest;
      WordsOfBytesOf(ws[1..]);
    }
  }

  /** So are the bytes. */
  lemma BigEndianBytes(ws: seq<uint16>, i: nat)
    ensures |BytesOf(ws)| == 2 * |ws|
    ensures i < |ws| ==>
              BytesOf(ws)[2 * i] as int == ws[i] as int / 256 && BytesOf(ws)[2 * i + 1] as int == ws[i] as int % 256
  {
    BytesOfAt(ws, i);
  }

  lemma HighLowJoin(hi: uint8, lo: uint8)
    ensures High(Join(hi, lo)) == hi && Low(Join(hi, lo)) == lo
  {
  }

  /** Encoding undoes decoding exactly for the byte strings of even length. */
  lemma {:induction false} BytesOfWordsOf(data: seq<uint8>)
    ensures BytesOf(WordsOf(data)) == data[..|data| / 2 * 2]
    ensures BytesOf(WordsOf(data)) == data <==> |data| % 2 == 0
    decreases |data|
  {
    hide Join, High, Low;
    if |data| >= 2 {
      BytesOfWordsOf(data[2..]);
      HighLowJoin(data[0], data[1]);
      assert WordsOf(data)[1..] == WordsOf(data[2..]);
      var n := |data| / 2 * 2;
      assert data[..n] == [data[0], data[1]] + data[2..][..n - 2];
      WordsOfAt(data, 0);
      BytesOfAt(WordsOf(data), 0);
      if |data| % 2 == 0 {
        assert data[..n] == data;
      }
    }
  }

  method BytesToUint16(data: seq<uint8>) returns (values: seq<uint16>)
    ensures values == WordsOf(data)
  {
    var buffer := new uint16[|data| / 2];
    WordsOfAt(data, 0);
    for i := 0 to buffer.Length
      invariant forall k :: 0 <= k < i ==> buffer[k] == WordsOf(data)[k]
    {
      WordsOfAt(data, i);
      var hi: int, lo: int := data[i * 2], data[i * 2 + 1];
      buffer[i] := hi * 0x100 + lo;
    }
    return buffer[..];
  }

  method Uint16ToBytes(values: seq<uint16>) returns (data: seq<uint8>)
    ensures data == BytesOf(values)
  {
    var buffer := new uint8[|values| * 2];
    BytesOfAt(values, 0);
    for i := 0 to |values|
      invariant forall k :: 0 <= k < 2 * i ==> buffer[k] == BytesOf(values)[k]
    {
      BytesOfAt(values, i);
      buffer[i * 2] := values[i] / 0x100;
      buffer[i * 2 + 1] := values[i] % 0x100;
    }
    return buffer[..];
  }
}
