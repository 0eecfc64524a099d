/**
 Modbus TCP framing (server.go): the MBAP header of section 3.1.3 of the MODBUS Messaging on
 TCP/IP Implementation Guide V1.0b, with the limits this server puts on it, and the responses
 of sections 6.3, 6.4, 6.6, 6.12 and 7 of the MODBUS Application Protocol Specification V1.1b3.
 */
module Frames {
  import opened Words

  const MAX_LENGTH: nat := 256

  datatype Frame = Frame(tx: uint16, unit: uint8, pdu: seq<uint8>)

  /** What fits the server's limits: a PDU of 1 to 255 bytes, an MBAP length of 2 to 256. */
  predicate GoodFrame(f: Frame) { 1 <= |f.pdu| <= MAX_LENGTH - 1 }

  function At(b: seq<uint8>, i: nat): uint16
    requires i + 1 < |b|
  {
    Join(b[i], b[i + 1])
  }

  /** The header for `length` bytes after the length field, the unit among them. */
  function Header(tx: uint16, protocol: uint16, length: uint16, unit: uint8): (b: seq<uint8>)
    ensures |b| == 7
  {
    [High(tx), Low(tx), High(protocol), Low(protocol), High(length), Low(length), unit]
  }

  lemma JoinHighLow(w: uint16)
    ensures Join(High(w), Low(w)) == w
  {
  }

  lemma HeaderFields(tx: uint16, protocol: uint16, length: uint16, unit: uint8, rest: seq<uint8>)
    ensures var b := Header(tx, protocol, length, unit) + rest;
            At(b, 0) == tx && At(b, 2) == protocol && At(b, 4) == length && b[6] == unit && b[7..] == rest
  {
    hide Join, High, Low;
    JoinHighLow(tx);
    JoinHighLow(protocol);
    JoinHighLow(length);
  }

  function EncodeFrame(f: Frame): seq<uint8>
    requires |f.pdu| < 0xFFFF
  {
    Header(f.tx, 0, |f.pdu| + 1, f.unit) + f.pdu
  }

  /** Protocol 0 and a length of 2 to 256, told from the header's bytes. */
  predicate GoodHeader(b: seq<uint8>)
    requires |b| >= 7
  {
    b[2] == 0 && b[3] == 0 && ((b[4] == 0 && b[5] >= 2) || (b[4] == 1 && b[5] == 0))
  }

  /** The bytes a good header announces, from the unit on. */
  function Announced(b: seq<uint8>): nat
    requires |b| >= 7
  {
    if b[4] == 0 then b[5] else MAX_LENGTH
  }

  lemma HeaderMeaning(b: seq<uint8>)
    requires |b| >= 7
    ensures GoodHeader(b) <==> At(b, 2) == 0 && 2 <= At(b, 4) <= MAX_LENGTH
    ensures GoodHeader(b) ==> Announced(b) == At(b, 4)
  {
    hide Join;
    SmallJoin(b[2], b[3]);
    SmallJoin(b[4], b[5]);
  }

  lemma SmallJoin(hi: uint8, lo: uint8)
    ensures Join(hi, lo) == 0 <==> hi == 0 && lo == 0
    ensures 2 <= Join(hi, lo) <= MAX_LENGTH <==> (hi == 0 && lo >= 2) || (hi == 1 && lo == 0)
    ensures hi == 0 ==> Join(hi, lo) == lo
    ensures hi == 1 && lo == 0 ==> Join(hi, lo) == MAX_LENGTH
  {
  }

  /** The frames that the server takes out of a byte stream, up to the first bad header or the end of the stream. */
  function Split(stream: seq<uint8>): seq<Frame> {
    if |stream| < 7 || !GoodHeader(stream) || |stream| < 6 + Announced(stream) then []
    else [Frame(At(stream, 0), stream[6], stream[7..6 + Announced(stream)])] + Split(stream[6 + Announced(stream)..])
  }

  function Stream(fs: seq<Frame>): seq<uint8>
    requires forall i :: 0 <= i < |fs| ==> GoodFrame(fs[i])
  {
    if fs == [] then [] else assert GoodFrame(fs[0]); EncodeFrame(fs[0]) + Stream(fs[1..])
  }

  lemma SplitOne(f: Frame, rest: seq<uint8>)
    requires GoodFrame(f)
    ensures Split(EncodeFrame(f) + rest) == [f] + Split(rest)
  {
    hide Join, High, Low;
    var stream := EncodeFrame(f) + rest;
    var n := 6 + (|f.pdu| + 1);
    assert stream == Header(f.tx, 0, |f.pdu| + 1, f.unit) + (f.pdu + rest);
    HeaderFields(f.tx, 0, |f.pdu| + 1, f.unit, f.pdu + rest);
    HeaderMeaning(stream);
    assert stream[7..n] == f.pdu;
    assert stream[n..] == rest;
  }

  /** A concatenation of good frames is taken apart into exactly those frames, whatever comes after it. */
  lemma {:induction false} SplitStream(fs: seq<Frame>, rest: seq<uint8>)
    requires forall i :: 0 <= i < |fs| ==> GoodFrame(fs[i])
    ensures Split(Stream(fs) + rest) == fs + Split(rest)
  {
    hide EncodeFrame, GoodHeader, At, Split;
    if fs == [] {
      assert [] + rest == rest;
      assert fs + Split(rest) == Split(rest);
    } else {
      SplitStream(fs[1..], rest);
      SplitOne(fs[0], Stream(fs[1..]) + rest);
      assert Stream(fs) + rest == EncodeFrame(fs[0]) + (Stream(fs[1..]) + rest);
      assert fs + Split(rest) == [fs[0]] + (fs[1..] + Split(rest));
    }
  }

  /**
   Conversely, what is taken out is a prefix of the stream, frame by frame, and it ends where no
   further good frame is complete.
   */
  lemma {:induction false} SplitIsPrefix(stream: seq<uint8>) returns (rest: seq<uint8>)
    ensures forall i :: 0 <= i < |Split(stream)| ==> GoodFrame(Split(stream)[i])
    ensures stream == Stream(Split(stream)) + rest
    ensures |rest| < 7 || !GoodHeader(rest) || |rest| < 6 + Announced(rest)
    decreases |stream|
  {
    hide At, EncodeFrame;
    if |stream| < 7 || !GoodHeader(stream) || |stream| < 6 + Announced(stream) {
      return stream;
    }
    var n := 6 + Announced(stream);
    rest := SplitIsPrefix(stream[n..]);
    HeaderBack(stream);
    assert Split(stream)[1..] == Split(stream[n..]);
    assert stream == stream[..n] + stream[n..];
    assert stream[n..] == Stream(Split(stream[n..])) + rest;
  }

  lemma HeaderBack(stream: seq<uint8>)
    requires |stream| >= 7 && GoodHeader(stream) && |stream| >= 6 + Announced(stream)
    ensures var f := Frame(At(stream, 0), stream[6], stream[7..6 + Announced(stream)]);
            GoodFrame(f) && EncodeFrame(f) == stream[..6 + Announced(stream)]
  {
    hide Join, High, Low;
    var n := 6 + Announced(stream);
    HeaderMeaning(stream);
    HighLowJoin(stream[0], stream[1]);
    HighLowJoin(stream[2], stream[3]);
    HighLowJoin(stream[4], stream[5]);
    assert Header(At(stream, 0), At(stream, 2), At(stream, 4), stream[6]) == stream[..7];
    assert stream[..7] + stream[7..n] == stream[..n];
  }

  /** The first bad header stops everything: nothing after it is looked at. */
  lemma BadHeaderStops(fs: seq<Frame>, header: seq<uint8>, rest: seq<uint8>)
    requires forall i :: 0 <= i < |fs| ==> GoodFrame(fs[i])
    requires |header| == 7 && (At(header, 2) != 0 || At(header, 4) < 2 || At(header, 4) > MAX_LENGTH)
    ensures Split(Stream(fs) + (header + rest)) == fs
  {
    hide Join;
    HeaderMeaning(header);
    SplitStream(fs, header + rest);
    var bad := header + rest;
    assert bad[2] == header[2] && bad[3] == header[3] && bad[4] == header[4] && bad[5] == header[5];
    assert Split(bad) == [];
    assert fs + [] == fs;
  }

  // ---------- responses ----------

  datatype Response =
    | ReadResponse(fc: uint8, data: seq<uint8>)
    | ExceptionResponse(fc: uint8, code: uint8)
    | WriteSingleResponse(address: uint16, value: uint16)
    | WriteMultipleResponse(address: uint16, count: uint16)

  /** fc with bit 7 set. */
  function ErrorCode(fc: uint8): uint8 { fc % 0x80 + 0x80 }

  function ToByte(n: nat): uint8 { n % 0x100 }

  function ToWord(n: nat): uint16 { n % 0x1_0000 }

  function ResponsePdu(r: Response): (pdu: seq<uint8>)
    ensures |pdu| >= 2
  {
    match r
    case ReadResponse(fc, data) => [fc, ToByte(|data|)] + data
    case ExceptionResponse(fc, code) => [ErrorCode(fc), code]
    case WriteSingleResponse(address, value) => [0x06, High(address), Low(address), High(value), Low(value)]
    case WriteMultipleResponse(address, count) => [0x10, High(address), Low(address), High(count), Low(count)]
  }

  /** The bytes sent, with the conversions to uint8 and uint16 that the code makes. */
  function EncodeResponse(tx: uint16, unit: uint8, r: Response): seq<uint8> {
    match r
    case ReadResponse(_, data) => Header(tx, 0, ToWord(3 + |data|), unit) + ResponsePdu(r)
    case ExceptionResponse(_, _) => Header(tx, 0, 3, unit) + ResponsePdu(r)
    case _ => Header(tx, 0, 6, unit) + ResponsePdu(r)
  }

  /** How a client reads a response PDU. */
  function DecodeResponse(pdu: seq<uint8>): Option<Response> {
    if |pdu| == 2 && pdu[0] >= 0x80 then Some(ExceptionResponse(pdu[0] - 0x80, pdu[1]))
    else if |pdu| >= 2 && (pdu[0] == 0x03 || pdu[0] == 0x04) && pdu[1] == |pdu| - 2
    then Some(ReadResponse(pdu[0], pdu[2..]))
    else if |pdu| == 5 && pdu[0] == 0x06 then Some(WriteSingleResponse(At(pdu, 1), At(pdu, 3)))
    else if |pdu| == 5 && pdu[0] == 0x10 then Some(WriteMultipleResponse(At(pdu, 1), At(pdu, 3)))
    else None
  }

  /** Responses the server sends: read data only for function codes 3 and 4, and at most what one frame holds. */
  predicate GoodResponse(r: Response) {
    r.ReadResponse? ==> (r.fc == 0x03 || r.fc == 0x04) && |r.data| <= 253
  }

  /** What a client can recover: everything, except bit 7 of the function code in an exception. */
  function Recovered(r: Response): Response {
    if r.ExceptionResponse? then ExceptionResponse(r.fc % 0x80, r.code) else r
  }

  /** Every response is one good frame that carries the request's identifiers and decodes to what was encoded. */
  lemma ResponseDecodes(tx: uint16, unit: uint8, r: Response) returns (f: Frame)
    requires GoodResponse(r)
    ensures f == Frame(tx, unit, ResponsePdu(r)) && GoodFrame(f)
    ensures EncodeFrame(f) == EncodeResponse(tx, unit, r) && DecodeResponse(f.pdu) == Some(Recovered(r))
    ensures At(EncodeResponse(tx, unit, r), 4) == |EncodeResponse(tx, unit, r)| - 6
  {
    hide Join, High, Low;
    var pdu := ResponsePdu(r);
    f := Frame(tx, unit, pdu);
    PduDecodes(r);
    HeaderFields(tx, 0, |pdu| + 1, unit, pdu);
  }

  lemma PduDecodes(r: Response)
    requires GoodResponse(r)
    ensures DecodeResponse(ResponsePdu(r)) == Some(Recovered(r))
    ensures r.ReadResponse? ==> ToWord(3 + |r.data|) == 3 + |r.data|
  {
    hide Join, High, Low;
    match r
    case ReadResponse(fc, data) =>
      assert ResponsePdu(r)[2..] == data;
    case ExceptionResponse(_, _) =>
    case WriteSingleResponse(address, value) =>
      JoinHighLow(address);
      JoinHighLow(value);
    case WriteMultipleResponse(address, count) =>
      JoinHighLow(address);
      JoinHighLow(count);
  }

  /** A read response of any size: a client gets back what was encoded exactly up to 253 bytes of data. */
  lemma ReadResponseExact(tx: uint16, unit: uint8, fc: uint8, data: seq<uint8>)
    requires fc == 0x03 || fc == 0x04
    ensures |data| <= 253 <==>
            var fs := Split(EncodeResponse(tx, unit, ReadResponse(fc, data)));
            && |fs| == 1 && fs[0].tx == tx && fs[0].unit == unit
            && DecodeResponse(fs[0].pdu) == Some(ReadResponse(fc, data))
  {
    hide At, Join, High, Low, EncodeFrame;
    var stream := EncodeResponse(tx, unit, ReadResponse(fc, data));
    if |data| <= 253 {
      var f := ResponseDecodes(tx, unit, ReadResponse(fc, data));
      SplitOne(f, []);
      assert stream + [] == stream;
    } else {
      var rest := SplitIsPrefix(stream);
    }
  }
}
