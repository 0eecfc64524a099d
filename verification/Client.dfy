/**
 The shared inverter client (client.go): device calls, what the device answered, and the log of
 what went over the wire. Times are nanoseconds.
 */
module Client {
  import opened Words

  datatype Call =
    | Read(unit: uint8, address: uint16, count: uint16)
    | WriteSingle(unit: uint8, address: uint16, value: uint16)
    | WriteMultiple(unit: uint8, address: uint16, count: uint16, data: seq<uint8>)

  /** The error predicates of the client; one error may satisfy several of them. */
  datatype Failure = Failure(busy: bool, timeout: bool, mismatch: bool, connection: bool)

  datatype Reply = Data(bytes: seq<uint8>) | Failed(failure: Failure)

  datatype Event =
    | Exchange(call: Call, slave: uint8, start: int, end: int, reply: Reply)
    | Reset(start: int)

  function EndOf(e: Event): int { if e.Exchange? then e.end else e.start }

  /** Device operations do not overlap: each starts after all earlier ones have ended. */
  ghost predicate Ordered(log: seq<Event>) {
    && (forall i :: 0 <= i < |log| ==> log[i].start <= EndOf(log[i]))
    && (forall i, j :: 0 <= i < j < |log| ==> EndOf(log[i]) <= log[j].start)
  }

  /** Consecutive exchanges are at least `pause` apart. */
  ghost predicate Paced(log: seq<Event>, pause: int) {
    forall i, j :: 0 <= i && j == i + 1 < |log| && log[i].Exchange? && log[j].Exchange? ==>
      log[i].end + pause <= log[j].start
  }

  /** Every exchange went to the unit its caller asked for. */
  ghost predicate RightUnit(log: seq<Event>) {
    forall i :: 0 <= i < |log| && log[i].Exchange? ==> log[i].slave == log[i].call.unit
  }

  /** Pacing holds between any two exchanges, adjacent or not, that no reset separates. */
  lemma PacedApart(log: seq<Event>, pause: int, i: nat, j: nat)
    requires Ordered(log) && Paced(log, pause)
    requires i < j < |log| && forall n :: i <= n <= j ==> log[n].Exchange?
    ensures log[i].end + pause <= log[j].start
  {
    var next := i + 1;
    assert log[i].end + pause <= log[next].start <= EndOf(log[next]);
  }

  /** When an operation may start: nothing to wait for after a reset, otherwise `pause` after the last one. */
  function PauseEnd(lastRead: Option<int>, pause: int, now: int): int {
    match lastRead
    case None => now
    case Some(t) => if pause - (now - t) > 0 then now + (pause - (now - t)) else now
  }

  /** A pause runs from the last exchange, not from now: it is over at once if the client was idle that long. */
  lemma PauseLaw(lastRead: Option<int>, pause: int, now: int)
    ensures match lastRead
            case None => PauseEnd(lastRead, pause, now) == now
            case Some(t) =>
              var end := PauseEnd(lastRead, pause, now);
              end >= now && end >= t + pause && (end == now || end == t + pause)
  {
  }

  function LastEnd(log: seq<Event>): Option<int> {
    if log == [] then None else Some(EndOf(log[|log| - 1]))
  }

  /** `lastRead` is unset after a reset, and otherwise not before the end of the last exchange. */
  ghost predicate Remembers(log: seq<Event>, lastRead: Option<int>) {
    if log == [] || log[|log| - 1].Reset? then lastRead.None?
    else lastRead.Some? && log[|log| - 1].end <= lastRead.value
  }

  ghost predicate GoodLog(log: seq<Event>, pause: int) {
    Ordered(log) && Paced(log, pause) && RightUnit(log)
  }

  /** One more exchange, started no earlier than PauseEnd allows, keeps the log good. */
  lemma ExchangeKeepsLog(log: seq<Event>, pause: int, lastRead: Option<int>, e: Event)
    requires GoodLog(log, pause) && Remembers(log, lastRead)
    requires e.Exchange? && e.slave == e.call.unit && e.start <= e.end
    requires LastEnd(log).Some? ==> LastEnd(log).value <= e.start
    requires lastRead.Some? ==> lastRead.value + pause <= e.start
    ensures GoodLog(log + [e], pause)
  {
    var n := |log|;
    forall i | 0 <= i < n
      ensures EndOf(log[i]) <= e.start
    {
      if i < n - 1 {
        assert EndOf(log[i]) <= log[n - 1].start <= EndOf(log[n - 1]);
      }
    }
  }

  lemma ResetKeepsLog(log: seq<Event>, pause: int, at: int)
    requires GoodLog(log, pause)
    requires LastEnd(log).Some? ==> LastEnd(log).value <= at
    ensures GoodLog(log + [Reset(at)], pause) && Remembers(log + [Reset(at)], None)
  {
    var n := |log|;
    forall i | 0 <= i < n
      ensures EndOf(log[i]) <= at
    {
      if i < n - 1 {
        assert EndOf(log[i]) <= log[n - 1].start <= EndOf(log[n - 1]);
      }
    }
  }

  // ---------- the client object ----------

  /** Clock readings of one call, in the order they are taken, and the device's answer. */
  datatype Wire = Wire(asked: int, start: int, end: int, noted: int, reply: Reply)

  const NANOS_PER_MS := 1_000_000

  /** An InverterClient whose methods run to completion, as its mutex makes them; the log records what it did. */
  class InverterClient {
    var slaveId: uint8
    var lastRead: Option<int>
    const pauseMs: int
    ghost var log: seq<Event>
    ghost var clock: int

    ghost predicate Valid()
      reads this
    {
      && GoodLog(log, pauseMs * NANOS_PER_MS) && Remembers(log, lastRead)
      && (log != [] ==> EndOf(log[|log| - 1]) <= clock)
    }

    /** Clock readings do not decrease, and sleeping takes at least the requested time. */
    ghost predicate Possible(w: Wire)
      reads this
    {
      && clock <= w.asked <= w.start <= w.end <= w.noted
      && PauseEnd(lastRead, pauseMs * NANOS_PER_MS, w.asked) <= w.start
    }

    constructor (pauseMs: int)
      ensures Valid() && log == [] && this.pauseMs == pauseMs
    {
      this.pauseMs := pauseMs;
      slaveId := 0;
      lastRead := None;
      log, clock := [], 0;
    }

    /** Returns how long to sleep; zero or less means not at all. */
    method EnforcePause(now: int) returns (gap: int)
      ensures now + (if gap > 0 then gap else 0) == PauseEnd(lastRead, pauseMs * NANOS_PER_MS, now)
      ensures lastRead.None? ==> gap <= 0
      ensures lastRead.Some? ==>
                var end := now + if gap > 0 then gap else 0;
                var due := lastRead.value + pauseMs * 1_000_000;
                end >= now && end >= due && (end == now || end == due)
    {
      if lastRead.None? {
        return 0;
      }
      var elapsed := now - lastRead.value;
      gap := pauseMs * NANOS_PER_MS - elapsed;
    }

    method ReadRegisters(unit: uint8, address: uint16, count: uint16, w: Wire) returns (reply: Reply)
      requires Valid() && Possible(w)
      modifies this
      ensures Valid() && reply == w.reply
      ensures log == old(log) + [Exchange(Read(unit, address, count), unit, w.start, w.end, w.reply)]
      ensures lastRead == Some(w.noted) && slaveId == unit && clock == w.noted
    {
      slaveId := unit;
      var gap := EnforcePause(w.asked);
      assert gap > 0 ==> w.asked + gap <= w.start;
      reply := Complete(Read(unit, address, count), w);
    }

    method WriteSingleRegister(unit: uint8, address: uint16, value: uint16, w: Wire) returns (reply: Reply)
      requires Valid() && Possible(w)
      modifies this
      ensures Valid() && reply == w.reply
      ensures log == old(log) + [Exchange(WriteSingle(unit, address, value), unit, w.start, w.end, w.reply)]
      ensures lastRead == Some(w.noted) && slaveId == unit && clock == w.noted
    {
      slaveId := unit;
      var gap := EnforcePause(w.asked);
      assert gap > 0 ==> w.asked + gap <= w.start;
      reply := Complete(WriteSingle(unit, address, value), w);
    }

    method WriteMultipleRegisters(unit: uint8, address: uint16, count: uint16, data: seq<uint8>, w: Wire)
      returns (reply: Reply)
      requires Valid() && Possible(w)
      modifies this
      ensures Valid() && reply == w.reply
      ensures log == old(log) + [Exchange(WriteMultiple(unit, address, count, data), unit, w.start, w.end, w.reply)]
      ensures lastRead == Some(w.noted) && slaveId == unit && clock == w.noted
    {
      slaveId := unit;
      var gap := EnforcePause(w.asked);
      assert gap > 0 ==> w.asked + gap <= w.start;
      reply := Complete(WriteMultiple(unit, address, count, data), w);
    }

    /** The wire exchange itself, sent to whatever unit `slaveId` names, and the note of when it ended. */
    method Complete(call: Call, w: Wire) returns (reply: Reply)
      requires Valid() && Possible(w) && slaveId == call.unit
      modifies this`lastRead, this`log, this`clock
      ensures Valid() && reply == w.reply && lastRead == Some(w.noted) && clock == w.noted
      ensures log == old(log) + [Exchange(call, slaveId, w.start, w.end, w.reply)]
    {
      ExchangeKeepsLog(log, pauseMs * NANOS_PER_MS, lastRead, Exchange(call, slaveId, w.start, w.end, w.reply));
      log := log + [Exchange(call, slaveId, w.start, w.end, w.reply)];
      lastRead := Some(w.noted);
      clock := w.noted;
      return w.reply;
    }

    method Reconnect(now: int)
      requires Valid() && clock <= now
      modifies this
      ensures Valid() && lastRead == None && log == old(log) + [Reset(now)] && slaveId == old(slaveId)
    {
      ResetKeepsLog(log, pauseMs * NANOS_PER_MS, now);
      lastRead := None;
      log := log + [Reset(now)];
      clock := now;
    }
  }
}
