/**
 * Properties of the bootloader re-entry hooks over whole runs: series of DTR
 * levels fed to the edge detector, and interleavings of setup requests and
 * receive events up to the first terminal outcome.
 */
module UsbSerialProperties {
  import opened UsbSerial

  /** State after SET_CONTROL_LINE_STATE requests carrying the DTR levels `levels`, in order. */
  function RunLevels(s: ResetState, levels: seq<bool>): (r: ResetState)
    ensures levels == [] ==> r == s
    ensures levels != [] ==> r != DtrUnset
    decreases levels
  {
    if levels == [] then s else RunLevels(NextState(s, levels[0]), levels[1..])
  }

  /** One more level at the end is one more transition. */
  lemma {:induction false} RunLevelsSnoc(s: ResetState, levels: seq<bool>, dtr: bool)
    ensures RunLevels(s, levels + [dtr]) == NextState(RunLevels(s, levels), dtr)
    decreases levels
  {
    if levels == [] {
      assert levels + [dtr] == [dtr];
    } else {
      assert (levels + [dtr])[1..] == levels[1..] + [dtr];
      RunLevelsSnoc(NextState(s, levels[0]), levels[1..], dtr);
    }
  }

  /** After a non-empty series the detector is high exactly when the last level was asserted. */
  lemma {:induction false} RunLevelsHigh(s: ResetState, levels: seq<bool>)
    ensures RunLevels(s, levels) == DtrHigh <==>
              if levels == [] then s == DtrHigh else levels[|levels| - 1]
  {
    if levels != [] {
      var init := levels[..|levels| - 1];
      assert levels == init + [levels[|levels| - 1]];
      RunLevelsSnoc(s, init, levels[|levels| - 1]);
    }
  }

  /**
   * A series ends in DtrNegEdge exactly when its last level is deasserted and
   * the detector was high just before: the level before it was asserted, or,
   * for a single level, the detector started high.
   */
  lemma {:induction false} NegEdgeOnlyAfterHigh(s: ResetState, levels: seq<bool>)
    ensures RunLevels(s, levels) == DtrNegEdge <==>
              if levels == [] then s == DtrNegEdge
              else !levels[|levels| - 1] && (if |levels| == 1 then s == DtrHigh else levels[|levels| - 2])
  {
    if levels != [] {
      var init := levels[..|levels| - 1];
      assert levels == init + [levels[|levels| - 1]];
      RunLevelsSnoc(s, init, levels[|levels| - 1]);
      RunLevelsHigh(s, init);
      if |levels| >= 2 {
        assert init[|init| - 1] == levels[|levels| - 2];
      }
    }
  }

  /**
   * From power-up the falling edge is seen exactly when the last two levels
   * were asserted then deasserted; power-up defaults never arm the scanner.
   */
  lemma {:induction false} PowerUpNegEdge(levels: seq<bool>)
    ensures RunLevels(DtrUnset, levels) == DtrNegEdge <==>
              |levels| >= 2 && levels[|levels| - 2] && !levels[|levels| - 1]
  {
    NegEdgeOnlyAfterHigh(DtrUnset, levels);
  }

  /** The same level twice in a row never leaves a falling edge pending. */
  lemma RepeatedLevelNeverNegEdge(s: ResetState, dtr: bool)
    ensures NextState(NextState(s, dtr), dtr) == if dtr then DtrHigh else DtrLow
  {
  }

  /** Single shot: once a receive event has returned, the next one does nothing. */
  lemma SingleShot(s: ResetState, rx1: seq<byte>, rx2: seq<byte>)
    ensures RxStep(s, rx1).outcome == Continue ==>
              RxStep(s, rx1).state != DtrNegEdge &&
              RxStep(RxStep(s, rx1).state, rx2) == Step(RxStep(s, rx1).state, Continue)
  {
  }

  /** Fewer than four buffered bytes on the edge: no jump, and the edge is spent. */
  lemma ShortBufferForfeitsEdge(rx: seq<byte>)
    requires |rx| < MagicLength
    ensures RxStep(DtrNegEdge, rx) == Step(DtrLow, Continue)
  {
  }

  /** Whatever precedes it, a marker at the very end of the buffer is found. */
  lemma MarkerAtEndFound(prefix: seq<byte>)
    ensures RxStep(DtrNegEdge, prefix + Magic) == Step(DtrLow, BootloaderJump)
  {
  }

  /**
   * The limitation of the receive hook: one to three bytes queued after the
   * marker always hide it, because the peeked window then starts inside the
   * marker at a byte other than '1'.
   */
  lemma {:induction false} TrailingBytesHideMarker(prefix: seq<byte>, trailing: seq<byte>)
    requires 1 <= |trailing| < MagicLength
    ensures RxStep(DtrNegEdge, prefix + Magic + trailing) == Step(DtrLow, Continue)
  {
    var rx := prefix + Magic + trailing;
    assert rx[|rx| - MagicLength] == Magic[|trailing|];
  }

  /** Changing any one byte of a matching window turns the match into a mismatch. */
  lemma SingleByteMismatch(rx: seq<byte>, k: nat, b: byte)
    requires MarkerAtTail(rx)
    requires k < MagicLength && b != rx[|rx| - MagicLength + k]
    ensures RxStep(DtrNegEdge, rx[|rx| - MagicLength + k := b]) == Step(DtrLow, Continue)
  {
  }

  /** What the CDC-ACM stack delivers to the hooks. */
  datatype Event =
    | Setup(request: byte, dtr: bool, baud: nat)   // interface-setup hook, with DTR and baud at that moment
    | DataAvailable(rx: seq<byte>)                 // receive hook, with the buffered bytes at that moment

  /** A SET_CONTROL_LINE_STATE request with DTR deasserted. */
  predicate IsDtrDrop(e: Event)
  {
    e.Setup? && e.request == SetControlLineState && !e.dtr
  }

  /** One event handled by its hook. */
  function Apply(s: ResetState, e: Event): (r: Step)
    ensures r.outcome == WatchdogReset ==> IsDtrDrop(e) && s == DtrHigh
    ensures r.outcome == BootloaderJump ==> e.DataAvailable? && s == DtrNegEdge
    ensures !IsDtrDrop(e) && s != DtrNegEdge ==> r.state != DtrNegEdge
  {
    match e
    case Setup(request, dtr, baud) => SetupStep(s, request, dtr, baud)
    case DataAvailable(rx) => RxStep(s, rx)
  }

  /** Events handled in order, stopping at the first outcome that does not return. */
  function Run(s: ResetState, events: seq<Event>): Step
    decreases events
  {
    if events == [] then
      Step(s, Continue)
    else
      var first := Apply(s, events[0]);
      if first.outcome != Continue then first else Run(first.state, events[1..])
  }

  /** Without a DTR drop no reset of either kind can happen, and no edge becomes pending. */
  lemma {:induction false} NoResetWithoutDtrDrop(s: ResetState, events: seq<Event>)
    requires s != DtrNegEdge
    requires forall k :: 0 <= k < |events| ==> !IsDtrDrop(events[k])
    ensures Run(s, events).outcome == Continue
    ensures Run(s, events).state != DtrNegEdge
    decreases events
  {
    if events != [] {
      var first := Apply(s, events[0]);
      assert !IsDtrDrop(events[0]);
      NoResetWithoutDtrDrop(first.state, events[1..]);
    }
  }

  /**
   * A bootloader jump in a run comes from a receive event whose buffer ends
   * with the marker, handled while a falling edge was pending: the run up to
   * that event returned with the edge pending, and the event itself jumped.
   */
  lemma {:induction false} JumpNeedsMarkerAtTail(s: ResetState, events: seq<Event>)
    requires Run(s, events).outcome == BootloaderJump
    ensures exists k :: 0 <= k < |events| && events[k].DataAvailable? && MarkerAtTail(events[k].rx) &&
              Run(s, events[..k]) == Step(DtrNegEdge, Continue) &&
              Run(s, events[..k + 1]) == Step(DtrLow, BootloaderJump)
    decreases events
  {
    var first := Apply(s, events[0]);
    if first.outcome == BootloaderJump {
      assert events[..0] == [];
      assert events[..1] == [events[0]];
      assert events[0].DataAvailable? && MarkerAtTail(events[0].rx);
      assert Run(s, events[..0]) == Step(DtrNegEdge, Continue);
      assert Run(s, events[..1]) == Step(DtrLow, BootloaderJump);
    } else {
      JumpNeedsMarkerAtTail(first.state, events[1..]);
      var rest := events[1..];
      var k :| 0 <= k < |rest| && rest[k].DataAvailable? && MarkerAtTail(rest[k].rx) &&
                Run(first.state, rest[..k]) == Step(DtrNegEdge, Continue) &&
                Run(first.state, rest[..k + 1]) == Step(DtrLow, BootloaderJump);
      assert events[k + 1] == rest[k];
      assert events[..k + 1][0] == events[0] && events[..k + 1][1..] == rest[..k];
      assert events[..k + 2][0] == events[0] && events[..k + 2][1..] == rest[..k + 1];
      assert Run(s, events[..k + 1]) == Step(DtrNegEdge, Continue);
      assert Run(s, events[..k + 2]) == Step(DtrLow, BootloaderJump);
    }
  }

  /** A terminal outcome ends the run: later events are never handled. */
  lemma {:induction false} TerminalIsFinal(s: ResetState, events: seq<Event>, later: seq<Event>)
    requires Run(s, events).outcome != Continue
    ensures Run(s, events + later) == Run(s, events)
    decreases events
  {
    if events != [] {
      var first := Apply(s, events[0]);
      assert (events + later)[0] == events[0];
      if first.outcome == Continue {
        assert (events + later)[1..] == events[1..] + later;
        TerminalIsFinal(first.state, events[1..], later);
      }
    }
  }

  /** At 1200 baud a DTR drop from high resets through the watchdog, whatever data follows. */
  lemma WatchdogPreemptsScan(later: seq<Event>)
    ensures Run(DtrHigh, [Setup(SetControlLineState, false, BootloaderBaud)] + later)
              == Step(DtrNegEdge, WatchdogReset)
  {
  }
}
