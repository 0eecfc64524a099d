/** The Modbus TCP server (server.go): reading frames off a connection and answering them. */
module Server {
  import opened Words
  import opened Registers
  import opened Client
  import opened Frames
  import opened History

  /**
   What handling one frame meets: cancellation seen before it; what other threads commit before
   it; the client, the database and the device; what other threads commit until it writes to
   the table; the clock.
   */
  datatype FrameEnv = FrameEnv(cancelled: bool, others: seq<CacheOp>, connected: bool, queryFails: bool, reply: Reply,
                               othersThen: seq<CacheOp>, now: nat, fault: WriteFault)

  /** The table afterwards, the answer, and the calls made to the device. */
  datatype Handled = Handled(table: Store, response: Response, calls: seq<Call>)

  const ILLEGAL_FUNCTION: uint8 := 0x01
  const ILLEGAL_ADDRESS: uint8 := 0x02
  const ILLEGAL_VALUE: uint8 := 0x03
  const DEVICE_FAILURE: uint8 := 0x04

  /** One transaction with one run of registers, on what other threads have made of the table by then. */
  function Stored(m: Store, w: PendingWrite, stamp: string, e: FrameEnv): Store {
    var found := Replay(m, e.othersThen);
    if Commits(e.fault, |w.values|) then Apply(found, w, stamp) else found
  }

  function HandleRead(m: Store, forward: bool, unit: uint8, pdu: seq<uint8>, e: FrameEnv, stamp: string): Handled
    requires |pdu| >= 1
  {
    var fc := pdu[0];
    if |pdu| < 5 then Handled(m, ExceptionResponse(fc, ILLEGAL_VALUE), [])
    else
      var address, count := At(pdu, 1), At(pdu, 3);
      if count == 0 || count > 125 then Handled(m, ExceptionResponse(fc, ILLEGAL_VALUE), [])
      else if !e.queryFails && Cached(m, unit, address, count)
      then Handled(m, ReadResponse(fc, BytesOf(Window(m, unit, address, count).value)), [])
      else if forward && e.connected then
        match e.reply
        case Data(bytes) =>
          Handled(Stored(m, PendingWrite(unit, address, WordsOf(bytes)), stamp, e),
                  ReadResponse(fc, bytes), [Read(unit, address, count)])
        case Failed(_) => Handled(m, ExceptionResponse(fc, DEVICE_FAILURE), [Read(unit, address, count)])
      else Handled(m, ExceptionResponse(fc, ILLEGAL_ADDRESS), [])
  }

  function HandleWriteSingle(m: Store, unit: uint8, pdu: seq<uint8>, e: FrameEnv, stamp: string): Handled {
    if |pdu| < 5 then Handled(m, ExceptionResponse(0x06, ILLEGAL_VALUE), [])
    else if !e.connected then Handled(m, ExceptionResponse(0x06, DEVICE_FAILURE), [])
    else
      var address, value := At(pdu, 1), At(pdu, 3);
      var call := WriteSingle(unit, address, value);
      if e.reply.Failed? then Handled(m, ExceptionResponse(0x06, DEVICE_FAILURE), [call])
      else Handled(Stored(m, PendingWrite(unit, address, [value]), stamp, e),
                   WriteSingleResponse(address, value), [call])
  }

  function HandleWriteMultiple(m: Store, unit: uint8, pdu: seq<uint8>, e: FrameEnv, stamp: string): Handled {
    if |pdu| < 6 then Handled(m, ExceptionResponse(0x10, ILLEGAL_VALUE), [])
    else
      var address, count := At(pdu, 1), At(pdu, 3);
      var byteCount: nat := pdu[5];
      if byteCount != count as int * 2 || |pdu| < 6 + byteCount
      then Handled(m, ExceptionResponse(0x10, ILLEGAL_VALUE), [])
      else if !e.connected then Handled(m, ExceptionResponse(0x10, DEVICE_FAILURE), [])
      else
        var data := pdu[6..6 + byteCount];
        var call := WriteMultiple(unit, address, count, data);
        if e.reply.Failed? then Handled(m, ExceptionResponse(0x10, DEVICE_FAILURE), [call])
        else Handled(Stored(m, PendingWrite(unit, address, WordsOf(data)), stamp, e),
                     WriteMultipleResponse(address, count), [call])
  }

  function Handle(m: Store, forward: bool, f: Frame, e: FrameEnv, stamp: string): Handled
    requires GoodFrame(f)
  {
    var fc := f.pdu[0];
    if fc == 0x03 || fc == 0x04 then HandleRead(m, forward, f.unit, f.pdu, e, stamp)
    else if fc == 0x06 then HandleWriteSingle(m, f.unit, f.pdu, e, stamp)
    else if fc == 0x10 then HandleWriteMultiple(m, f.unit, f.pdu, e, stamp)
    else Handled(m, ExceptionResponse(fc, ILLEGAL_FUNCTION), [])
  }

  // ---------- a whole connection ----------

  /**
   How many frames are handled before the context is seen cancelled; inputs past the end of the
   list count as that.
   */
  function Allowed(envs: seq<FrameEnv>): (n: nat)
    ensures n <= |envs|
  {
    if envs == [] || envs[0].cancelled then 0 else 1 + Allowed(envs[1..])
  }

  predicate GoodFrames(fs: seq<Frame>) { forall i :: 0 <= i < |fs| ==> GoodFrame(fs[i]) }

  /** The table after the first n frames, and what other threads committed in between. */
  function TableAfter(m: Store, text: nat -> string, forward: bool, fs: seq<Frame>, envs: seq<FrameEnv>, n: nat): Store
    requires n <= |fs| && n <= |envs| && GoodFrames(fs)
    decreases n, 0
  {
    if n == 0 then m
    else Nth(m, text, forward, fs, envs, n - 1).table
  }

  /** The table that frame n finds. */
  function TableFor(m: Store, text: nat -> string, forward: bool, fs: seq<Frame>, envs: seq<FrameEnv>, n: nat): Store
    requires n < |fs| && n < |envs| && GoodFrames(fs)
    decreases n, 1
  {
    Replay(TableAfter(m, text, forward, fs, envs, n), envs[n].others)
  }

  /** What handling frame n gives, after those before it. */
  function Nth(m: Store, text: nat -> string, forward: bool, fs: seq<Frame>, envs: seq<FrameEnv>, n: nat): Handled
    requires n < |fs| && n < |envs| && GoodFrames(fs)
    decreases n, 2
  {
    Handle(TableFor(m, text, forward, fs, envs, n), forward, fs[n], envs[n], text(envs[n].now))
  }

  /** The bytes sent for the first n frames: for each one answer, with its transaction and unit. */
  function Output(m: Store, text: nat -> string, forward: bool, fs: seq<Frame>, envs: seq<FrameEnv>, n: nat): seq<uint8>
    requires n <= |fs| && n <= |envs| && GoodFrames(fs)
  {
    if n == 0 then []
    else Output(m, text, forward, fs, envs, n - 1)
         + EncodeResponse(fs[n - 1].tx, fs[n - 1].unit, Nth(m, text, forward, fs, envs, n - 1).response)
  }

  /** A byte stream that arrives in chunks, and what has been written to it. */
  class Conn {
    var chunks: seq<seq<uint8>>
    var out: seq<uint8>

    constructor (chunks: seq<seq<uint8>>)
      ensures this.chunks == chunks && out == []
    {
      this.chunks := chunks;
      out := [];
    }

    /** io.ReadFull: fills a buffer of n bytes, over as many chunks as it takes. */
    method ReadFull(n: nat) returns (ok: bool, data: seq<uint8>)
      modifies this`chunks
      ensures ok <==> |Flat(old(chunks))| >= n
      ensures ok ==> data == Flat(old(chunks))[..n] && Flat(chunks) == Flat(old(chunks))[n..]
    {
      data := [];
      while |data| < n && |chunks| > 0
        invariant |data| <= n && data + Flat(chunks) == Flat(old(chunks))
        decreases |chunks|, if |chunks| > 0 then |chunks[0]| else 0
      {
        var taken := if |chunks[0]| <= n - |data| then |chunks[0]| else n - |data|;
        FlatTake(data, chunks, taken);
        data := data + chunks[0][..taken];
        chunks := if taken == |chunks[0]| then chunks[1..] else [chunks[0][taken..]] + chunks[1..];
      }
      ok := |data| == n;
    }
  }

  function Flat(chunks: seq<seq<uint8>>): seq<uint8> {
    if chunks == [] then [] else chunks[0] + Flat(chunks[1..])
  }

  lemma FlatTake(data: seq<uint8>, chunks: seq<seq<uint8>>, n: nat)
    requires |chunks| > 0 && n <= |chunks[0]|
    ensures var rest := if n == |chunks[0]| then chunks[1..] else [chunks[0][n..]] + chunks[1..];
            data + Flat(chunks) == (data + chunks[0][..n]) + Flat(rest)
  {
    var head, tail := chunks[0], Flat(chunks[1..]);
    if n < |head| {
      assert ([head[n..]] + chunks[1..])[1..] == chunks[1..];
      assert head + tail == head[..n] + (head[n..] + tail);
    } else {
      assert head[..n] == head;
    }
  }

  // ---------- encoders ----------

  function AppendUint16(b: seq<uint8>, w: uint16): seq<uint8> { b + [High(w), Low(w)] }

  method SendReadResponse(conn: Conn, tx: uint16, unit: uint8, fc: uint8, data: seq<uint8>)
    modifies conn`out
    ensures conn.out == old(conn.out) + EncodeResponse(tx, unit, ReadResponse(fc, data))
  {
    var byteCount := ToByte(|data|);
    var resp := AppendUint16([], tx);
    resp := AppendUint16(resp, 0);
    resp := AppendUint16(resp, ToWord(3 + |data|));
    resp := resp + [unit, fc, byteCount];
    resp := resp + data;
    assert resp == EncodeResponse(tx, unit, ReadResponse(fc, data));
    conn.out := conn.out + resp;
  }

  method SendException(conn: Conn, tx: uint16, unit: uint8, fc: uint8, code: uint8)
    modifies conn`out
    ensures conn.out == old(conn.out) + EncodeResponse(tx, unit, ExceptionResponse(fc, code))
  {
    var resp := AppendUint16([], tx);
    resp := AppendUint16(resp, 0);
    resp := AppendUint16(resp, 3);
    resp := resp + [unit, ErrorCode(fc), code];
    assert resp == EncodeResponse(tx, unit, ExceptionResponse(fc, code));
    conn.out := conn.out + resp;
  }

  method SendWriteSingleResponse(conn: Conn, tx: uint16, unit: uint8, address: uint16, value: uint16)
    modifies conn`out
    ensures conn.out == old(conn.out) + EncodeResponse(tx, unit, WriteSingleResponse(address, value))
  {
    var resp := AppendUint16([], tx);
    resp := AppendUint16(resp, 0);
    resp := AppendUint16(resp, 6);
    resp := resp + [unit, 0x06];
    resp := AppendUint16(resp, address);
    resp := AppendUint16(resp, value);
    assert resp == EncodeResponse(tx, unit, WriteSingleResponse(address, value));
    conn.out := conn.out + resp;
  }

  method SendWriteMultipleResponse(conn: Conn, tx: uint16, unit: uint8, address: uint16, count: uint16)
    modifies conn`out
    ensures conn.out == old(conn.out) + EncodeResponse(tx, unit, WriteMultipleResponse(address, count))
  {
    var resp := AppendUint16([], tx);
    resp := AppendUint16(resp, 0);
    resp := AppendUint16(resp, 6);
    resp := resp + [unit, 0x10];
    resp := AppendUint16(resp, address);
    resp := AppendUint16(resp, count);
    assert resp == EncodeResponse(tx, unit, WriteMultipleResponse(address, count));
    conn.out := conn.out + resp;
  }

  // ---------- the server object ----------

  class ModbusServer {
    const forward: bool
    const cache: RegisterCache

    constructor (forward: bool, cache: RegisterCache)
      ensures this.forward == forward && this.cache == cache
    {
      this.forward := forward;
      this.cache := cache;
    }

    method HandleReadRegisters(conn: Conn, tx: uint16, unit: uint8, fc: uint8, pdu: seq<uint8>, e: FrameEnv)
      returns (calls: seq<Call>)
      requires cache.Valid() && |pdu| >= 1 && fc == pdu[0]
      modifies conn`out, cache
      ensures cache.Valid()
      ensures var h := HandleRead(old(cache.Table()), forward, unit, pdu, e, cache.text(e.now));
              && cache.Table() == h.table && calls == h.calls
              && conn.out == old(conn.out) + EncodeResponse(tx, unit, h.response)
    {
      hide Sorted, Contents, At, Cached, EncodeResponse, Stored, BytesOf;
      calls := [];
      if |pdu| < 5 {
        SendException(conn, tx, unit, fc, ILLEGAL_VALUE);
        return;
      }
      var address, count := At(pdu, 1), At(pdu, 3);
      if count == 0 || count > 125 {
        SendException(conn, tx, unit, fc, ILLEGAL_VALUE);
        return;
      }
      var data := cache.GetBytes(unit, address, count, if e.queryFails then QueryFails else NoReadFault);
      if data.Some? {
        SendReadResponse(conn, tx, unit, fc, data.value);
        return;
      }
      if forward && e.connected {
        calls := [Read(unit, address, count)];
        if e.reply.Failed? {
          SendException(conn, tx, unit, fc, DEVICE_FAILURE);
          return;
        }
        StoreBytes(unit, address, e.reply.bytes, e);
        SendReadResponse(conn, tx, unit, fc, e.reply.bytes);
        return;
      }
      SendException(conn, tx, unit, fc, ILLEGAL_ADDRESS);
    }

    method StoreBytes(unit: uint8, address: uint16, data: seq<uint8>, e: FrameEnv)
      requires cache.Valid()
      modifies cache
      ensures cache.Valid()
      ensures cache.Table() == Stored(old(cache.Table()), PendingWrite(unit, address, WordsOf(data)),
                                      cache.text(e.now), e)
    {
      hide Sorted, Contents, Apply;
      WordsOfAt(data, 0);
      Meanwhile(cache, e.othersThen);
      cache.SetFromBytes(unit, address, data, e.now, e.fault);
    }

    method HandleWriteSingleRegister(conn: Conn, tx: uint16, unit: uint8, pdu: seq<uint8>, e: FrameEnv)
      returns (calls: seq<Call>)
      requires cache.Valid()
      modifies conn`out, cache
      ensures cache.Valid()
      ensures var h := HandleWriteSingle(old(cache.Table()), unit, pdu, e, cache.text(e.now));
              && cache.Table() == h.table && calls == h.calls
              && conn.out == old(conn.out) + EncodeResponse(tx, unit, h.response)
    {
      hide Sorted, Contents, At, EncodeResponse, Apply;
      calls := [];
      if |pdu| < 5 {
        SendException(conn, tx, unit, 0x06, ILLEGAL_VALUE);
        return;
      }
      var address, value := At(pdu, 1), At(pdu, 3);
      if !e.connected {
        SendException(conn, tx, unit, 0x06, DEVICE_FAILURE);
        return;
      }
      calls := [WriteSingle(unit, address, value)];
      if e.reply.Failed? {
        SendException(conn, tx, unit, 0x06, DEVICE_FAILURE);
        return;
      }
      Meanwhile(cache, e.othersThen);
      cache.Set(unit, address, [value], e.now, e.fault);
      SendWriteSingleResponse(conn, tx, unit, address, value);
    }

    /** The slice bound 6+byteCount is computed in 8 bits; a PDU from the framer is too short for it to overflow. */
    method HandleWriteMultipleRegisters(conn: Conn, tx: uint16, unit: uint8, pdu: seq<uint8>, e: FrameEnv)
      returns (calls: seq<Call>)
      requires cache.Valid() && |pdu| <= MAX_LENGTH - 1
      modifies conn`out, cache
      ensures cache.Valid()
      ensures var h := HandleWriteMultiple(old(cache.Table()), unit, pdu, e, cache.text(e.now));
              && cache.Table() == h.table && calls == h.calls
              && conn.out == old(conn.out) + EncodeResponse(tx, unit, h.response)
    {
      hide Sorted, Contents, At, EncodeResponse, Stored;
      calls := [];
      if |pdu| < 6 {
        SendException(conn, tx, unit, 0x10, ILLEGAL_VALUE);
        return;
      }
      var address, count := At(pdu, 1), At(pdu, 3);
      var byteCount: nat := pdu[5];
      var expected: int := count as int * 2;
      if byteCount != expected || |pdu| < 6 + byteCount {
        SendException(conn, tx, unit, 0x10, ILLEGAL_VALUE);
        return;
      }
      var data := pdu[6..ToByte(6 + byteCount)];
      if !e.connected {
        SendException(conn, tx, unit, 0x10, DEVICE_FAILURE);
        return;
      }
      calls := [WriteMultiple(unit, address, count, data)];
      if e.reply.Failed? {
        SendException(conn, tx, unit, 0x10, DEVICE_FAILURE);
        return;
      }
      StoreBytes(unit, address, data, e);
      SendWriteMultipleResponse(conn, tx, unit, address, count);
    }

    method Dispatch(conn: Conn, f: Frame, e: FrameEnv) returns (calls: seq<Call>)
      requires cache.Valid() && GoodFrame(f)
      modifies conn`out, cache
      ensures cache.Valid()
      ensures var h := Handle(old(cache.Table()), forward, f, e, cache.text(e.now));
              && cache.Table() == h.table && calls == h.calls
              && conn.out == old(conn.out) + EncodeResponse(f.tx, f.unit, h.response)
    {
      hide Sorted, Contents, EncodeResponse, HandleRead, HandleWriteSingle, HandleWriteMultiple;
      var fc := f.pdu[0];
      if fc == 0x03 || fc == 0x04 {
        calls := HandleReadRegisters(conn, f.tx, f.unit, fc, f.pdu, e);
      } else if fc == 0x06 {
        calls := HandleWriteSingleRegister(conn, f.tx, f.unit, f.pdu, e);
      } else if fc == 0x10 {
        calls := HandleWriteMultipleRegisters(conn, f.tx, f.unit, f.pdu, e);
      } else {
        calls := [];
        SendException(conn, f.tx, f.unit, fc, ILLEGAL_FUNCTION);
      }
    }

    /** Reads the next frame; None where the connection is to be closed. */
    method NextFrame(conn: Conn) returns (f: Option<Frame>)
      modifies conn`chunks
      ensures f.None? <==> Split(Flat(old(conn.chunks))) == []
      ensures f.Some? ==> Split(Flat(old(conn.chunks))) == [f.value] + Split(Flat(conn.chunks)) && GoodFrame(f.value)
    {
      hide Join, High, Low, Flat;
      ghost var stream := Flat(conn.chunks);
      var ok, header := conn.ReadFull(7);
      if !ok {
        return None;
      }
      HeaderOf(stream);
      HeaderMeaning(stream);
      var tx, protocol, length, unit := At(header, 0), At(header, 2), At(header, 4), header[6];
      if protocol != 0 {
        return None;
      }
      if length < 2 || length > MAX_LENGTH {
        return None;
      }
      var pdu;
      ok, pdu := conn.ReadFull(length - 1);
      if !ok {
        return None;
      }
      assert stream[7..][..length - 1] == stream[7..6 + length];
      assert stream[7..][length - 1..] == stream[6 + length..];
      return Some(Frame(tx, unit, pdu));
    }

    /** `envs` are the inputs of successive frames. */
    method HandleConnection(conn: Conn, envs: seq<FrameEnv>) returns (handled: nat)
      requires cache.Valid()
      modifies conn, cache
      ensures cache.Valid()
      ensures var fs := Split(Flat(old(conn.chunks)));
              && handled == (if |fs| < Allowed(envs) then |fs| else Allowed(envs)) && GoodFrames(fs)
              && (forall i :: 0 <= i < handled ==> !envs[i].cancelled)
              && (handled < |fs| && handled < |envs| ==> envs[handled].cancelled)
              && cache.Table() == TableAfter(old(cache.Table()), cache.text, forward, fs, envs, handled)
              && conn.out == old(conn.out) + Output(old(cache.Table()), cache.text, forward, fs, envs, handled)
    {
      hide Sorted, Contents, Handle, EncodeResponse, Split, Allowed;
      ghost var fs := Split(Flat(conn.chunks));
      AllGood(Flat(conn.chunks));
      handled := 0;
      while handled < |envs| && !envs[handled].cancelled
        invariant cache.Valid() && handled <= |fs| && handled <= |envs|
        invariant forall i :: 0 <= i < handled ==> !envs[i].cancelled
        invariant Split(Flat(conn.chunks)) == fs[handled..]
        invariant cache.Table() == TableAfter(old(cache.Table()), cache.text, forward, fs, envs, handled)
        invariant conn.out == old(conn.out) + Output(old(cache.Table()), cache.text, forward, fs, envs, handled)
        decreases |envs| - handled
      {
        var f := NextFrame(conn);
        if f.None? {
          break;
        }
        assert f.value == fs[handled];
        Meanwhile(cache, envs[handled].others);
        assert cache.Table() == TableFor(old(cache.Table()), cache.text, forward, fs, envs, handled);
        var calls := Dispatch(conn, f.value, envs[handled]);
        handled := handled + 1;
      }
      AllowedIs(envs, handled);
    }
  }

  lemma HeaderOf(stream: seq<uint8>)
    requires |stream| >= 7
    ensures var b := stream[..7];
            At(b, 0) == At(stream, 0) && At(b, 2) == At(stream, 2) && At(b, 4) == At(stream, 4) && b[6] == stream[6]
  {
    hide Join;
  }

  lemma AllGood(stream: seq<uint8>)
    ensures GoodFrames(Split(stream))
  {
    var rest := SplitIsPrefix(stream);
  }

  lemma {:induction false} AllowedIs(envs: seq<FrameEnv>, n: nat)
    requires n <= |envs| && forall i :: 0 <= i < n ==> !envs[i].cancelled
    ensures n <= Allowed(envs)
    ensures n == |envs| || envs[n].cancelled ==> n == Allowed(envs)
  {
    if n > 0 {
      AllowedIs(envs[1..], n - 1);
    }
  }

  // ---------- what clients can rely on ----------

  predicate IsRead(f: Frame) { |f.pdu| >= 5 && (f.pdu[0] == 0x03 || f.pdu[0] == 0x04) }

  /** The device answers a forwarded read with exactly the registers asked for. */
  predicate HonestReply(f: Frame, e: FrameEnv) {
    e.reply.Data? && IsRead(f) ==> |e.reply.bytes| == 2 * At(f.pdu, 3)
  }

  /**
   Answers that fit a frame: read data comes from a range of at most 125 registers, and the device
   returns what was asked for.
   */
  lemma HandledFits(m: Store, forward: bool, f: Frame, e: FrameEnv, stamp: string)
    requires GoodFrame(f)
    requires HonestReply(f, e)
    ensures GoodResponse(Handle(m, forward, f, e, stamp).response)
  {
    hide At, Stored, BytesOf, Cached;
    if |f.pdu| >= 5 && Cached(m, f.unit, At(f.pdu, 1), At(f.pdu, 3)) {
      BytesOfAt(Window(m, f.unit, At(f.pdu, 1), At(f.pdu, 3)).value, 0);
    }
  }

  predicate HonestReplies(fs: seq<Frame>, envs: seq<FrameEnv>) {
    forall i :: 0 <= i < |fs| && i < |envs| ==> HonestReply(fs[i], envs[i])
  }

  /** The answer frames to the first n requests, each with its request's transaction and unit. */
  function Answers(m: Store, text: nat -> string, forward: bool, fs: seq<Frame>, envs: seq<FrameEnv>,
                   n: nat): seq<Frame>
    requires n <= |fs| && n <= |envs| && GoodFrames(fs)
  {
    if n == 0 then []
    else Answers(m, text, forward, fs, envs, n - 1)
         + [Frame(fs[n - 1].tx, fs[n - 1].unit, ResponsePdu(Nth(m, text, forward, fs, envs, n - 1).response))]
  }

  lemma {:induction false} AnswersAt(m: Store, text: nat -> string, forward: bool, fs: seq<Frame>,
                                     envs: seq<FrameEnv>, n: nat, i: nat)
    requires n <= |fs| && n <= |envs| && GoodFrames(fs)
    ensures |Answers(m, text, forward, fs, envs, n)| == n
    ensures i < n ==> Answers(m, text, forward, fs, envs, n)[i]
                      == Frame(fs[i].tx, fs[i].unit, ResponsePdu(Nth(m, text, forward, fs, envs, i).response))
  {
    hide Nth, ResponsePdu;
    if n > 0 {
      AnswersAt(m, text, forward, fs, envs, n - 1, i);
    }
  }

  lemma {:induction false} StreamSnoc(fs: seq<Frame>, f: Frame)
    requires GoodFrames(fs) && GoodFrame(f)
    ensures GoodFrames(fs + [f]) && Stream(fs + [f]) == Stream(fs) + EncodeFrame(f)
  {
    hide EncodeFrame;
    if fs == [] {
      assert Stream([f]) == EncodeFrame(f) + Stream([f][1..]);
      assert [f][1..] == [];
    } else {
      assert (fs + [f])[1..] == fs[1..] + [f];
      StreamSnoc(fs[1..], f);
    }
  }

  /**
   A client that takes the server's output apart by the same framing finds exactly one answer
   for each request handled, in the order of the requests, each with its request's
   transaction and unit.
   */
  lemma {:induction false} OneAnswerEach(m: Store, text: nat -> string, forward: bool, fs: seq<Frame>,
                                         envs: seq<FrameEnv>, n: nat)
    requires n <= |fs| && n <= |envs| && GoodFrames(fs) && HonestReplies(fs, envs)
    ensures GoodFrames(Answers(m, text, forward, fs, envs, n))
    ensures Output(m, text, forward, fs, envs, n) == Stream(Answers(m, text, forward, fs, envs, n))
    ensures Split(Output(m, text, forward, fs, envs, n)) == Answers(m, text, forward, fs, envs, n)
  {
    hide Handle, EncodeResponse, EncodeFrame, TableFor, At, ResponsePdu, Split;
    if n > 0 {
      OneAnswerEach(m, text, forward, fs, envs, n - 1);
      var h := Nth(m, text, forward, fs, envs, n - 1);
      HandledFits(TableFor(m, text, forward, fs, envs, n - 1), forward, fs[n - 1], envs[n - 1], text(envs[n - 1].now));
      var f := ResponseDecodes(fs[n - 1].tx, fs[n - 1].unit, h.response);
      StreamSnoc(Answers(m, text, forward, fs, envs, n - 1), f);
    }
    var answers := Answers(m, text, forward, fs, envs, n);
    SplitStream(answers, []);
    assert Stream(answers) + [] == Stream(answers) && answers + Split([]) == answers + [] by {
      NothingLeft();
    }
  }

  lemma NothingLeft()
    ensures Split([]) == []
  {
  }

  /** What the client decodes from answer i is the response to request i. */
  lemma AnswerDecodes(m: Store, text: nat -> string, forward: bool, fs: seq<Frame>, envs: seq<FrameEnv>, n: nat, i: nat)
    requires i < n <= |fs| && n <= |envs| && GoodFrames(fs) && HonestReplies(fs, envs)
    ensures |Split(Output(m, text, forward, fs, envs, n))| == n
    ensures var f := Split(Output(m, text, forward, fs, envs, n))[i];
            && f.tx == fs[i].tx && f.unit == fs[i].unit
            && DecodeResponse(f.pdu) == Some(Recovered(Nth(m, text, forward, fs, envs, i).response))
  {
    hide Handle, EncodeResponse, EncodeFrame, TableFor, At, ResponsePdu, Split, DecodeResponse, Recovered, Output;
    OneAnswerEach(m, text, forward, fs, envs, n);
    AnswersAt(m, text, forward, fs, envs, n, i);
    HandledFits(TableFor(m, text, forward, fs, envs, i), forward, fs[i], envs[i], text(envs[i].now));
    var f := ResponseDecodes(fs[i].tx, fs[i].unit, Nth(m, text, forward, fs, envs, i).response);
  }

  /** A cached range is answered without the device and without changing the table. */
  lemma CacheHit(m: Store, forward: bool, unit: uint8, pdu: seq<uint8>, e: FrameEnv, stamp: string)
    requires |pdu| >= 5 && 1 <= At(pdu, 3) <= 125 && !e.queryFails
    requires Window(m, unit, At(pdu, 1), At(pdu, 3)).Some?
    ensures var h := HandleRead(m, forward, unit, pdu, e, stamp);
            && h.calls == [] && h.table == m
            && h.response.ReadResponse? && WordsOf(h.response.data) == Window(m, unit, At(pdu, 1), At(pdu, 3)).value
  {
    WordsOfBytesOf(Window(m, unit, At(pdu, 1), At(pdu, 3)).value);
  }

  /** `e` answers the request in `pdu`, forwarded to the device, with the registers asked for. */
  predicate Forwarded(m: Store, forward: bool, unit: uint8, pdu: seq<uint8>, e: FrameEnv, stamp: string) {
    && |pdu| >= 5 && HandleRead(m, forward, unit, pdu, e, stamp).calls != []
    && e.reply.Data? && |e.reply.bytes| == 2 * At(pdu, 3)
  }

  function ForwardedWrite(unit: uint8, pdu: seq<uint8>, e: FrameEnv): PendingWrite
    requires |pdu| >= 5 && e.reply.Data?
  {
    PendingWrite(unit, At(pdu, 1), WordsOf(e.reply.bytes))
  }

  /**
   A forwarded read leaves its registers in the table if its transaction commits, and otherwise
   nothing of its own.
   */
  lemma ForwardStores(m: Store, forward: bool, unit: uint8, pdu: seq<uint8>, e: FrameEnv, stamp: string)
    requires Forwarded(m, forward, unit, pdu, e, stamp)
    ensures |ForwardedWrite(unit, pdu, e).values| == At(pdu, 3)
    ensures var after := HandleRead(m, forward, unit, pdu, e, stamp).table;
            if Commits(e.fault, At(pdu, 3)) then Holds(after, ForwardedWrite(unit, pdu, e))
            else after == Replay(m, e.othersThen)
  {
    hide At;
    WordsOfAt(e.reply.bytes, 0);
    AppliedHolds(Replay(m, e.othersThen), ForwardedWrite(unit, pdu, e), stamp);
  }

  /** The answer comes from the table alone, and gives the registers of `w` that nothing in `later` wrote. */
  ghost predicate ServedAs(h: Handled, table: Store, w: PendingWrite, address: nat, count: nat, later: seq<CacheOp>) {
    && h.calls == [] && h.table == table && h.response.ReadResponse? && |WordsOf(h.response.data)| == count
    && w.address <= address && address + count <= w.address + |w.values|
    && forall i :: 0 <= i < count && Untouched(later, Key(w.unit, address + i)) ==>
         WordsOf(h.response.data)[i] == w.values[address + i - w.address]
  }

  /**
   Read-through: after a successful forwarded read whose transaction commits, a request for any
   sub-range is answered from the table, with no device call, until a sweep removes a row of
   the sub-range; registers that no later transaction wrote come back as forwarded.
   */
  lemma ServedAfterForward(m: Store, forward: bool, unit: uint8, first: seq<uint8>, e0: FrameEnv, stamp0: string,
                           later: seq<CacheOp>, pdu: seq<uint8>, e: FrameEnv, stamp: string)
    requires Forwarded(m, forward, unit, first, e0, stamp0) && Commits(e0.fault, At(first, 3))
    requires |pdu| >= 5 && 1 <= At(pdu, 3) <= 125 && !e.queryFails
    requires At(first, 1) <= At(pdu, 1)
    requires At(pdu, 1) as int + At(pdu, 3) as int <= At(first, 1) as int + At(first, 3) as int
    requires NoRowExpires(HandleRead(m, forward, unit, first, e0, stamp0).table, later, unit, At(pdu, 1), At(pdu, 3))
    ensures var table := Replay(HandleRead(m, forward, unit, first, e0, stamp0).table, later);
            ServedAs(HandleRead(table, forward, unit, pdu, e, stamp), table, ForwardedWrite(unit, first, e0),
                     At(pdu, 1), At(pdu, 3), later)
  {
    hide At, Holds, HandleRead, NoRowExpires, ServedAs, Replay, WordsOf;
    ForwardStores(m, forward, unit, first, e0, stamp0);
    ServedFromTable(HandleRead(m, forward, unit, first, e0, stamp0).table, ForwardedWrite(unit, first, e0), later,
                    forward, pdu, e, stamp);
  }

  lemma ServedFromTable(m: Store, w: PendingWrite, later: seq<CacheOp>, forward: bool, pdu: seq<uint8>, e: FrameEnv,
                        stamp: string)
    requires Holds(m, w)
    requires |pdu| >= 5 && 1 <= At(pdu, 3) <= 125 && !e.queryFails
    requires w.address <= At(pdu, 1) && At(pdu, 1) as int + At(pdu, 3) as int <= w.address + |w.values|
    requires NoRowExpires(m, later, w.unit, At(pdu, 1), At(pdu, 3))
    ensures ServedAs(HandleRead(Replay(m, later), forward, w.unit, pdu, e, stamp), Replay(m, later), w,
                     At(pdu, 1), At(pdu, 3), later)
  {
    hide At, Holds, Replay, NoRowExpires, HandleRead, Untouched, WordsOf;
    ReadThrough(m, w, later, At(pdu, 1), At(pdu, 3));
    CacheHit(Replay(m, later), forward, w.unit, pdu, e, stamp);
    forall i: nat | i < At(pdu, 3) && Untouched(later, Key(w.unit, At(pdu, 1) as int + i))
      ensures Window(Replay(m, later), w.unit, At(pdu, 1), At(pdu, 3)).value[i]
              == w.values[At(pdu, 1) as int + i - w.address]
    {
      ReadThroughValue(m, w, later, At(pdu, 1), At(pdu, 3), i);
    }
  }

  /**
   Write Multiple: whatever the framer lets through, a request that gets past the checks
   carries exactly its `count` registers, at most 124 of them, and those are what goes to the
   device and, once accepted, into the table.
   */
  lemma WriteMultipleExact(m: Store, unit: uint8, pdu: seq<uint8>, e: FrameEnv, stamp: string)
    requires 6 <= |pdu| <= MAX_LENGTH - 1 && e.connected
    requires pdu[5] as int == At(pdu, 3) as int * 2 && |pdu| >= 6 + pdu[5] as int
    ensures ToByte(6 + pdu[5] as int) as int == 6 + pdu[5] as int && pdu[5] <= 248
    ensures var h := HandleWriteMultiple(m, unit, pdu, e, stamp);
            var address, count := At(pdu, 1), At(pdu, 3);
            var values := WordsOf(pdu[6..6 + pdu[5] as int]);
            && |values| == count
            && (forall i :: 0 <= i < count ==> values[i] == At(pdu, 6 + 2 * i))
            && h.calls == [WriteMultiple(unit, address, count, pdu[6..6 + pdu[5] as int])]
            && BytesOf(values) == pdu[6..6 + pdu[5] as int]
            && (e.reply.Data? && e.fault.NoWriteFault? ==>
               h.table == Apply(Replay(m, e.othersThen), PendingWrite(unit, address, values), stamp))
            && (e.reply.Failed? ==> h.table == m && h.response == ExceptionResponse(0x10, DEVICE_FAILURE))
  {
    hide Apply, Join;
    var data := pdu[6..6 + pdu[5] as int];
    BytesOfWordsOf(data);
    forall i: nat
      ensures |WordsOf(data)| == |data| / 2
      ensures i < |data| / 2 ==> WordsOf(data)[i] == At(pdu, 6 + 2 * i)
    {
      WordsOfAt(data, i);
    }
  }
}
