/**
 The reader (reader.go): reading one group with retries, the initial scan, and the poll cycle.
 What the device answers, when the context is cancelled and what the clock shows are inputs.
 */
module Reader {
  import opened Words
  import opened Client

  const MAX_RETRIES: nat := 3
  const DEVICE_BUSY_BACKOFF: nat := 3      // seconds
  const RECONNECT_BACKOFF: nat := 2        // seconds
  const INITIAL_SCAN_PASSES: nat := 3

  // ---------- reading one group ----------

  /** The device's answer to one attempt, and whether cancellation cuts short the backoff after it, if there is one. */
  datatype Attempt = Attempt(reply: Reply, cancelled: bool)

  type Script = s: seq<Attempt> | |s| == MAX_RETRIES
    witness seq(MAX_RETRIES, _ => Attempt(Data([]), false))

  datatype Outcome = Values(bytes: seq<uint8>) | DeviceError(failure: Failure) | Cancelled

  datatype Act = DoRead | DoReconnect | Backoff(seconds: nat, completed: bool)

  predicate BacksOff(f: Failure) { f.busy || f.timeout }

  predicate Reconnects(f: Failure) { !BacksOff(f) && (f.mismatch || f.connection) }

  predicate Retryable(f: Failure) { f.busy || f.timeout || f.mismatch || f.connection }

  method ReadGroup(cancelled: bool, script: Script) returns (outcome: Outcome, trace: seq<Act>)
    ensures cancelled ==> outcome == Cancelled && trace == []
    ensures !cancelled ==> outcome == Result(script) && trace == Trace(script, Deciding(script))
  {
    trace := [];
    if cancelled {
      return Cancelled, trace;
    }
    var lastErr := Failure(false, false, false, false);
    var attempt := 1;
    while attempt <= MAX_RETRIES
      invariant 1 <= attempt <= MAX_RETRIES + 1
      invariant forall i :: 0 <= i < attempt - 1 ==> script[i].reply.Failed? && Retryable(script[i].reply.failure)
      invariant forall i :: 0 <= i < attempt - 1 && i < MAX_RETRIES - 1 ==> !script[i].cancelled
      invariant attempt > 1 ==> lastErr == script[attempt - 2].reply.failure
      invariant attempt <= MAX_RETRIES ==> trace == if attempt == 1 then [] else Trace(script, attempt - 2)
      invariant attempt > MAX_RETRIES ==> trace + [DoReconnect] == Trace(script, MAX_RETRIES - 1)
    {
      trace := trace + [DoRead];
      var a := script[attempt - 1];
      if a.reply.Data? {
        return Values(a.reply.bytes), trace;
      }
      lastErr := a.reply.failure;
      if BacksOff(lastErr) {
        if attempt < MAX_RETRIES {
          trace := trace + [Backoff(DEVICE_BUSY_BACKOFF, !a.cancelled)];
          if a.cancelled {
            return Cancelled, trace;
          }
        }
      } else if lastErr.mismatch || lastErr.connection {
        if attempt < MAX_RETRIES {
          trace := trace + [DoReconnect];
          trace := trace + [Backoff(RECONNECT_BACKOFF, !a.cancelled)];
          if a.cancelled {
            return Cancelled, trace;
          }
        }
      } else {
        break;
      }
      attempt := attempt + 1;
    }
    if lastErr.busy || lastErr.timeout || lastErr.mismatch || lastErr.connection {
      trace := trace + [DoReconnect];
    }
    return DeviceError(lastErr), trace;
  }

  /** An attempt that readGroup follows with another one. */
  predicate Continues(a: Attempt) {
    a.reply.Failed? && Retryable(a.reply.failure) && !a.cancelled
  }

  /** The attempt that decides: the first that does not continue, or else the last. */
  function Deciding(script: Script): (d: nat)
    ensures d < MAX_RETRIES
  {
    if !Continues(script[0]) then 0 else if !Continues(script[1]) then 1 else 2
  }

  lemma DecidingIs(script: Script)
    ensures forall i :: 0 <= i < Deciding(script) ==> Continues(script[i])
    ensures Deciding(script) == MAX_RETRIES - 1 || !Continues(script[Deciding(script)])
  {
  }

  /** What is done at attempt i. */
  function Acts(script: Script, i: nat): seq<Act>
    requires i < MAX_RETRIES
  {
    match script[i].reply
    case Data(_) => [DoRead]
    case Failed(f) =>
      if !Retryable(f) then [DoRead]
      else if i == MAX_RETRIES - 1 then [DoRead, DoReconnect]
      else if BacksOff(f) then [DoRead, Backoff(DEVICE_BUSY_BACKOFF, !script[i].cancelled)]
      else [DoRead, DoReconnect, Backoff(RECONNECT_BACKOFF, !script[i].cancelled)]
  }

  function Trace(script: Script, i: nat): seq<Act>
    requires i < MAX_RETRIES
  {
    (if i == 0 then [] else Trace(script, i - 1)) + Acts(script, i)
  }

  function Result(script: Script): Outcome {
    var d := Deciding(script);
    match script[d].reply
    case Data(bytes) => Values(bytes)
    case Failed(f) => if Retryable(f) && d < MAX_RETRIES - 1 then Cancelled else DeviceError(f)
  }

  function Count(trace: seq<Act>, act: Act): nat { multiset(trace)[act] }

  function BackoffTotal(trace: seq<Act>): nat {
    if trace == [] then 0
    else BackoffTotal(trace[..|trace| - 1]) + if trace[|trace| - 1].Backoff? then trace[|trace| - 1].seconds else 0
  }

  /**
   Connection-class errors that are not also busy or timeout errors, on attempts 0 to i other than
   the last possible one.
   */
  function MidReconnects(script: Script, i: nat): nat
    requires i < MAX_RETRIES
  {
    (if i == 0 then 0 else MidReconnects(script, i - 1)) + if MidReconnect(script, i) then 1 else 0
  }

  /**
   A read follows nothing but a completed backoff, and a reconnect between attempts is followed by
   its own backoff.
   */
  predicate WellSpaced(trace: seq<Act>) {
    forall t :: 0 <= t < |trace| ==>
      && (trace[t].DoRead? && t > 0 ==> trace[t - 1].Backoff? && trace[t - 1].completed)
      && (trace[t].DoReconnect? && t + 1 < |trace| ==>
            trace[t + 1].Backoff? && trace[t + 1].seconds == RECONNECT_BACKOFF)
  }

  predicate RunsOut(script: Script, i: nat)
    requires i < MAX_RETRIES
  {
    i == MAX_RETRIES - 1 && script[i].reply.Failed? && Retryable(script[i].reply.failure)
  }

  predicate MidReconnect(script: Script, i: nat)
    requires i < MAX_RETRIES
  {
    i < MAX_RETRIES - 1 && script[i].reply.Failed? && Reconnects(script[i].reply.failure)
  }

  lemma ActsCounts(script: Script, i: nat)
    requires i < MAX_RETRIES
    ensures Count(Acts(script, i), DoRead) == 1
    ensures Count(Acts(script, i), DoReconnect) == if MidReconnect(script, i) || RunsOut(script, i) then 1 else 0
  {
  }

  lemma {:induction false} TraceCounts(script: Script, i: nat)
    requires i < MAX_RETRIES
    ensures Count(Trace(script, i), DoRead) == i + 1
    ensures Count(Trace(script, i), DoReconnect) == MidReconnects(script, i) + if RunsOut(script, i) then 1 else 0
  {
    ActsCounts(script, i);
    if i > 0 {
      TraceCounts(script, i - 1);
    }
  }

  lemma {:induction false} TraceTotal(script: Script, i: nat)
    requires i < MAX_RETRIES
    ensures BackoffTotal(Trace(script, i)) <= DEVICE_BUSY_BACKOFF * (if i < MAX_RETRIES - 1 then i + 1 else i)
  {
    var front := if i == 0 then [] else Trace(script, i - 1);
    if i > 0 {
      TraceTotal(script, i - 1);
    }
    TotalConcat(front, Acts(script, i));
    ActsTotal(script, i);
  }

  lemma ActsTotal(script: Script, i: nat)
    requires i < MAX_RETRIES
    ensures BackoffTotal(Acts(script, i)) <= if i < MAX_RETRIES - 1 then DEVICE_BUSY_BACKOFF else 0
  {
    var acts := Acts(script, i);
    TotalConcat([DoRead], acts[1..]);
    assert acts == [DoRead] + acts[1..];
    if |acts| == 3 {
      assert acts == [DoRead] + [DoReconnect] + [acts[2]];
      TotalConcat([DoRead] + [DoReconnect], [acts[2]]);
      TotalConcat([DoRead], [DoReconnect]);
    }
  }

  lemma {:induction false} TotalConcat(a: seq<Act>, b: seq<Act>)
    ensures BackoffTotal(a + b) == BackoffTotal(a) + BackoffTotal(b)
    decreases |b|
  {
    if b == [] {
      assert a + b == a;
    } else {
      TotalConcat(a, b[..|b| - 1]);
      assert (a + b)[..|a + b| - 1] == a + b[..|b| - 1];
    }
  }

  predicate EndsRested(trace: seq<Act>) {
    trace == [] || (trace[|trace| - 1].Backoff? && trace[|trace| - 1].completed)
  }

  lemma SpacedConcat(a: seq<Act>, b: seq<Act>)
    requires WellSpaced(a) && WellSpaced(b) && EndsRested(a)
    ensures WellSpaced(a + b)
  {
  }

  lemma ActsSpaced(script: Script, i: nat)
    requires i < MAX_RETRIES
    ensures WellSpaced(Acts(script, i))
    ensures i < MAX_RETRIES - 1 && Continues(script[i]) ==> EndsRested(Acts(script, i))
    ensures script[i].reply.Failed? && !Retryable(script[i].reply.failure) ==> Acts(script, i) == [DoRead]
  {
  }

  lemma {:induction false} TraceSpaced(script: Script, i: nat)
    requires i <= Deciding(script)
    ensures WellSpaced(Trace(script, i))
    ensures i < MAX_RETRIES - 1 && Continues(script[i]) ==> EndsRested(Trace(script, i))
  {
    ActsSpaced(script, i);
    DecidingIs(script);
    var front := if i == 0 then [] else Trace(script, i - 1);
    if i > 0 {
      TraceSpaced(script, i - 1);
      assert Continues(script[i - 1]);
    }
    SpacedConcat(front, Acts(script, i));
  }

  /**
   What readGroup does on the wire, for every sequence of answers: at most three reads, which
   nothing but completed backoffs separate; as many reconnects as connection-class errors on
   non-final attempts, plus one when retries run out on a retryable error; at most six seconds
   of requested backoff.
   */
  lemma ReadGroupTrace(script: Script)
    ensures var d := Deciding(script);
            && Count(Trace(script, d), DoRead) == d + 1 <= MAX_RETRIES
            && WellSpaced(Trace(script, d))
            && Count(Trace(script, d), DoReconnect) == MidReconnects(script, d) + (if RunsOut(script, d) then 1 else 0)
            && BackoffTotal(Trace(script, d)) <= 6
  {
    var d := Deciding(script);
    TraceCounts(script, d);
    TraceTotal(script, d);
    TraceSpaced(script, d);
  }

  /**
   What readGroup returns: success exactly when some attempt succeeds after nothing but
   retryable errors with completed backoffs, and then that attempt's data; a non-retryable
   error reached that way is returned at once, and no action follows it.
   */
  lemma ReadGroupResult(script: Script)
    ensures Result(script).Values? <==>
              exists i :: 0 <= i < MAX_RETRIES && script[i].reply.Data?
                          && forall j :: 0 <= j < i ==> Continues(script[j])
    ensures forall i :: 0 <= i < MAX_RETRIES && script[i].reply.Data?
                        && (forall j :: 0 <= j < i ==> Continues(script[j])) ==>
              Result(script) == Values(script[i].reply.bytes)
    ensures forall i :: 0 <= i < MAX_RETRIES && script[i].reply.Failed? && !Retryable(script[i].reply.failure)
                        && (forall j :: 0 <= j < i ==> Continues(script[j])) ==>
              && Result(script) == DeviceError(script[i].reply.failure)
              && Trace(script, Deciding(script)) == (if i == 0 then [] else Trace(script, i - 1)) + [DoRead]
  {
    var d := Deciding(script);
    DecidingIs(script);
    if script[d].reply.Data? {
      assert script[d].reply.Data? && forall j :: 0 <= j < d ==> Continues(script[j]);
    }
  }

  // ---------- which error leads to which action ----------

  /** An attempt after which the call goes on: it failed in one of the four ways, and its backoff was not cut short. */
  predicate GoesOnAfter(a: Attempt) {
    && a.reply.Failed? && !a.cancelled
    && (a.reply.failure.busy || a.reply.failure.timeout || a.reply.failure.mismatch || a.reply.failure.connection)
  }

  predicate Reached(script: Script, i: nat) {
    i < 3 && forall j :: 0 <= j < i ==> GoesOnAfter(script[j])
  }

  /** `acts` is the end of the trace, or is followed by the read of the next attempt if the backoff is completed. */
  predicate Then(trace: seq<Act>, p: nat, acts: seq<Act>, goesOn: bool) {
    var q := p + |acts|;
    && q <= |trace| && trace[p..q] == acts
    && if goesOn then q < |trace| && trace[q] == DoRead else q == |trace|
  }

  /** What follows the read at position p of the trace, the (i+1)-th of the call. */
  predicate FollowedBy(trace: seq<Act>, p: nat, i: nat, a: Attempt) {
    match a.reply
    case Data(_) => Then(trace, p, [DoRead], false)
    case Failed(f) =>
      if !f.busy && !f.timeout && !f.mismatch && !f.connection then Then(trace, p, [DoRead], false)
      else if i == 2 then Then(trace, p, [DoRead, DoReconnect], false)
      else if f.busy || f.timeout then Then(trace, p, [DoRead, Backoff(3, !a.cancelled)], !a.cancelled)
      else Then(trace, p, [DoRead, DoReconnect, Backoff(2, !a.cancelled)], !a.cancelled)
  }

  lemma ReachedIs(script: Script, i: nat)
    requires i < MAX_RETRIES
    ensures Reached(script, i) <==> i <= Deciding(script)
  {
  }

  /** What comes before attempt i in a trace. */
  function Before(script: Script, i: nat): seq<Act>
    requires i < MAX_RETRIES
  {
    if i == 0 then [] else Trace(script, i - 1)
  }

  lemma {:induction false} SplitTrace(script: Script, i: nat, d: nat) returns (tail: seq<Act>)
    requires i <= d < MAX_RETRIES
    ensures Trace(script, d) == Before(script, i) + Acts(script, i) + tail
    ensures if i == d then tail == [] else tail != [] && tail[0] == DoRead
  {
    tail := [];
    if i < d {
      tail := SplitTrace(script, i, d - 1);
      tail := tail + Acts(script, d);
    }
  }

  /**
   Every attempt that is reached makes a read, the (i+1)-th, at a position of the trace, and
   what follows it depends on the error alone: a busy or timed-out device is left alone for 3
   seconds on a non-final attempt; any other broken exchange leads to a reconnect and 2 seconds;
   the final attempt ends in a reconnect if its error is of any of the four kinds; an error of
   no kind ends the call at once, and so does data.
   */
  lemma AttemptLaw(script: Script, i: nat) returns (p: nat)
    requires Reached(script, i)
    ensures var trace := Trace(script, Deciding(script));
            p < |trace| && multiset(trace[..p])[DoRead] == i && FollowedBy(trace, p, i, script[i])
  {
    hide Acts, Trace, Deciding;
    p := AttemptAt(script, i);
    ActsAre(script, i);
  }

  /** Where attempt i stands in the trace, and whether another attempt comes after it. */
  lemma AttemptAt(script: Script, i: nat) returns (p: nat)
    requires Reached(script, i)
    ensures var trace := Trace(script, Deciding(script));
            && p < |trace| && multiset(trace[..p])[DoRead] == i
            && Then(trace, p, Acts(script, i), i != 2 && GoesOnAfter(script[i]))
  {
    hide Acts, Trace, Deciding, GoesOnAfter;
    var d := Deciding(script);
    AttemptIsLast(script, i);
    var tail := SplitTrace(script, i, d);
    p := |Before(script, i)|;
    ReadsBefore(script, i);
    assert Trace(script, d)[..p] == Before(script, i);
  }

  lemma ReadsBefore(script: Script, i: nat)
    requires i < MAX_RETRIES
    ensures multiset(Before(script, i))[DoRead] == i
  {
    if i > 0 {
      TraceCounts(script, i - 1);
    }
  }

  lemma AttemptIsLast(script: Script, i: nat)
    requires Reached(script, i)
    ensures i <= Deciding(script) < MAX_RETRIES && (i < Deciding(script) <==> i != 2 && GoesOnAfter(script[i]))
    ensures Acts(script, i) != []
  {
  }

  lemma ActsAre(script: Script, i: nat)
    requires i < 3
    ensures match script[i].reply
            case Data(_) => Acts(script, i) == [DoRead]
            case Failed(f) =>
              if !f.busy && !f.timeout && !f.mismatch && !f.connection then Acts(script, i) == [DoRead]
              else if i == 2 then Acts(script, i) == [DoRead, DoReconnect]
              else if f.busy || f.timeout then Acts(script, i) == [DoRead, Backoff(3, !script[i].cancelled)]
              else Acts(script, i) == [DoRead, DoReconnect, Backoff(2, !script[i].cancelled)]
  {
  }

  /** What the call returns at an attempt that is reached and does not lead to another. */
  lemma OutcomeLaw(script: Script, i: nat)
    requires Reached(script, i) && (i < 2 ==> !GoesOnAfter(script[i]))
    ensures match script[i].reply
            case Data(bytes) => Result(script) == Values(bytes)
            case Failed(f) =>
              if i < 2 && (f.busy || f.timeout || f.mismatch || f.connection) then Result(script) == Cancelled
              else Result(script) == DeviceError(f)
  {
    ReachedIs(script, i);
    DecidingIs(script);
    assert i == Deciding(script);
  }
}
