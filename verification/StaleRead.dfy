/** Read-your-writes does not hold: a concrete run of the poller and one handler breaks it. */
module StaleRead {
  import opened Words
  import opened Timestamps
  import opened Registers
  import opened History
  import opened Client
  import opened Proxy
  import opened Schedules

  ghost const POLLER_AND_HANDLER: set<nat> := {0, 1}

  lemma ShowsAfter(m: Store, unit: uint8, address: uint16, value: uint16, stamp: string)
    ensures Window(Apply(m, PendingWrite(unit, address, [value]), stamp), unit, address, 1) == Some([value])
  {
    var w := PendingWrite(unit, address, [value]);
    ApplyLookup(m, w, stamp, Key(unit, address));
    WindowIs(Apply(m, w, stamp), unit, address, [value]);
  }

  lemma ReachableFromStart(s: State, ttl: int, m: Store)
    requires Leads(POLLER_AND_HANDLER, Init(0, ttl, 2, 0, m), s)
    ensures Reachable(s)
  {
  }

  /** The cache shows what the device accepted, and later what was sampled before. */
  ghost predicate GoesBack(s: State, s': State, unit: uint8, address: uint16, sampled: uint16, written: uint16) {
    && Reachable(s) && Leads(POLLER_AND_HANDLER, s, s') && s'.log == s.log
    && |s.log| == 2 && s.log[1].Exchange? && s.log[1].reply.Data?
       && s.log[1].call == WriteSingle(unit, address, written)
    && Window(s.table, unit, address, 1) == Some([written])
    && Window(s'.table, unit, address, 1) == Some([sampled])
  }

  /**
   Whatever the table at start-up, the poller samples a register, a handler writes it and caches
   what it wrote, then the poller flushes.
   */
  lemma ReadYourWritesFails(ttl: int, m: Store, unit: uint8, address: uint16, sampled: uint16, written: uint16)
    ensures exists s, s' :: GoesBack(s, s', unit, address, sampled, written)
  {
    hide Apply, Leads, WordsOf, BytesOf, Run, Format, Window;
    var who := POLLER_AND_HANDLER;
    var start := Init(0, ttl, 2, 0, m);
    LeadsNowhere(who, start);
    var bytes := BytesOf([sampled]);
    BytesOfAt([sampled], 0);
    WordsOfBytesOf([sampled]);
    var read, write := Read(unit, address, 1), WriteSingle(unit, address, written);
    var s := MakeCall(who, start, start, 0, read, Data(bytes), 0);
    s := MakeCall(who, start, s, 1, write, Data([]), 0);
    ShowsAfter(s.table, unit, address, written, Format(s.now));
    s := Flush(who, start, s, 1, Sample(WriteOf(write, []), 1));
    ReachableFromStart(s, ttl, m);
    LeadsNowhere(who, s);
    ShowsAfter(s.table, unit, address, sampled, Format(s.now));
    var s' := Flush(who, s, s, 0, Sample(WriteOf(read, bytes), 0));
    assert GoesBack(s, s', unit, address, sampled, written);
  }
}
