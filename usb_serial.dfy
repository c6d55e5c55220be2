/**
 * Bootloader re-entry hooks of the USB virtual serial port.
 *
 * The CDC-ACM stack calls two hooks from its (non-nested) interrupt handler:
 * the interface-setup hook on every class request, and the receive hook
 * whenever data has arrived. Together they watch for a falling edge on DTR
 * and then for the in-band marker "1EAF" at the tail of the receive buffer.
 * The hardware actions that never return (arming the independent watchdog
 * and spinning, forging an exception frame that resumes in a reset routine)
 * are modelled as terminal Outcome values.
 */
module UsbSerial {

  type byte = bv8

  /** The DTR edge detector (reset_state_t); DtrUnset is the power-on value. */
  datatype ResetState = DtrUnset | DtrHigh | DtrNegEdge | DtrLow

  /**
   * How a hook invocation ends. Continue: the hook returns normally.
   * WatchdogReset: the independent watchdog is armed and the CPU spins until it fires.
   * BootloaderJump: control is transferred to the reset routine, which resets the chip.
   * Neither of the last two ever returns.
   */
  datatype Outcome = Continue | WatchdogReset | BootloaderJump

  /** The state after one hook invocation together with how the invocation ended. */
  datatype Step = Step(state: ResetState, outcome: Outcome)

  /** Request code of SET_CONTROL_LINE_STATE (USB CDC PSTN subclass, request 22h). */
  const SetControlLineState: byte := 0x22

  /** Line speed that, together with a falling DTR edge, asks for a watchdog reset. */
  const BootloaderBaud: nat := 1200

  /** The in-band reset marker "1EAF". */
  const Magic: seq<byte> := [0x31, 0x45, 0x41, 0x46]
  const MagicLength: nat := |Magic|

  /**
   * Transition of the edge detector on a control-line update.
   * Asserting DTR always leads to DtrHigh; deasserting it leads to DtrNegEdge
   * exactly when DTR was high before, and to DtrLow otherwise.
   */
  function NextState(s: ResetState, dtr: bool): (r: ResetState)
    ensures dtr ==> r == DtrHigh
    ensures !dtr && s != DtrHigh ==> r == DtrLow
    ensures r == DtrNegEdge <==> s == DtrHigh && !dtr
    ensures r != DtrUnset
  {
    match s
    case DtrUnset => if dtr then DtrHigh else DtrLow
    case DtrHigh => if dtr then DtrHigh else DtrNegEdge
    case DtrNegEdge => if dtr then DtrHigh else DtrLow
    case DtrLow => if dtr then DtrHigh else DtrLow
  }

  /**
   * Effect of the interface-setup hook on the edge detector: requests other
   * than SET_CONTROL_LINE_STATE change nothing; otherwise the state moves by
   * NextState, and the watchdog path is taken when the new state is the
   * falling edge and the line speed is 1200 baud.
   */
  function SetupStep(s: ResetState, request: byte, dtr: bool, baud: nat): (r: Step)
    ensures request != SetControlLineState ==> r == Step(s, Continue)
    ensures request == SetControlLineState ==> r.state == NextState(s, dtr)
    ensures r.outcome != BootloaderJump
    ensures r.outcome == WatchdogReset <==>
              request == SetControlLineState && baud == BootloaderBaud && s == DtrHigh && !dtr
  {
    if request != SetControlLineState then
      Step(s, Continue)
    else
      var next := NextState(s, dtr);
      Step(next, if baud == BootloaderBaud && next == DtrNegEdge then WatchdogReset else Continue)
  }

  /** The last four buffered bytes (the window peeked at offset available - 4) are the marker. */
  predicate MarkerAtTail(rx: seq<byte>)
  {
    |rx| >= MagicLength && rx[|rx| - MagicLength..] == Magic
  }

  /**
   * Effect of the receive hook: it acts only on a pending falling edge, which
   * it always consumes (the state becomes DtrLow), and jumps to the bootloader
   * exactly when each of the last four buffered bytes equals the marker's.
   */
  function RxStep(s: ResetState, rx: seq<byte>): (r: Step)
    ensures s != DtrNegEdge ==> r == Step(s, Continue)
    ensures s == DtrNegEdge ==> r.state == DtrLow
    ensures r.outcome != WatchdogReset
    ensures r.outcome == BootloaderJump <==>
              s == DtrNegEdge && |rx| >= MagicLength &&
              forall i :: 0 <= i < MagicLength ==> rx[|rx| - MagicLength + i] == Magic[i]
  {
    if s != DtrNegEdge then
      Step(s, Continue)
    else
      Step(DtrLow, if MarkerAtTail(rx) then BootloaderJump else Continue)
  }

  /**
   * The receive buffer owned by the CDC-ACM stack: the bytes received from the
   * host and not yet read by the application.
   */
  class RxQueue {
    var unread: seq<byte>

    constructor ()
      ensures unread == []
    {
      unread := [];
    }

    /** The host delivers bytes; the stack appends them to the buffer. */
    method Receive(bytes: seq<byte>)
      modifies this
      ensures unread == old(unread) + bytes
    {
      unread := unread + bytes;
    }
  }

  /** The edge detector shared by both hooks (the file-scope reset_state). */
  class ResetMonitor {
    var resetState: ResetState

    constructor ()
      ensures resetState == DtrUnset
    {
      resetState := DtrUnset;
    }

    /**
     * Interface-setup hook. `request` is the class request code, `dtr` the
     * DTR level and `baud` the line speed the stack reports at this moment.
     */
    method IfaceSetupHook(request: byte, dtr: bool, baud: nat) returns (outcome: Outcome)
      modifies this
      ensures Step(resetState, outcome) == SetupStep(old(resetState), request, dtr, baud)
      ensures request != SetControlLineState ==> resetState == old(resetState) && outcome == Continue
      ensures outcome == WatchdogReset <==>
                request == SetControlLineState && baud == BootloaderBaud && resetState == DtrNegEdge
    {
      outcome := Continue;
      if request != SetControlLineState {
        return;
      }
      match resetState {
        case DtrUnset => resetState := if dtr then DtrHigh else DtrLow;
        case DtrHigh => resetState := if dtr then DtrHigh else DtrNegEdge;
        case DtrNegEdge => resetState := if dtr then DtrHigh else DtrLow;
        case DtrLow => resetState := if dtr then DtrHigh else DtrLow;
      }
      if baud == BootloaderBaud && resetState == DtrNegEdge {
        // The independent watchdog is armed with a short reload and the CPU spins.
        outcome := WatchdogReset;
      }
    }

    /**
     * Receive hook. It peeks, without consuming, the four bytes at offset
     * available - 4 of the stack's buffer and compares them with the marker,
     * bailing out at the first mismatch.
     */
    method RxHook(queue: RxQueue) returns (outcome: Outcome)
      modifies this
      ensures unchanged(queue)
      ensures Step(resetState, outcome) == RxStep(old(resetState), queue.unread)
      ensures old(resetState) != DtrNegEdge ==> resetState == old(resetState) && outcome == Continue
      ensures old(resetState) == DtrNegEdge ==> resetState == DtrLow
      ensures outcome == BootloaderJump <==> old(resetState) == DtrNegEdge && MarkerAtTail(queue.unread)
    {
      outcome := Continue;
      if resetState == DtrNegEdge {
        resetState := DtrLow;
        var available := |queue.unread|;
        if available >= MagicLength {
          var chkBuf := queue.unread[available - MagicLength .. available];
          for i := 0 to MagicLength
            invariant forall j :: 0 <= j < i ==> chkBuf[j] == Magic[j]
          {
            if chkBuf[i] != Magic[i] {
              assert !MarkerAtTail(queue.unread);
              return;
            }
          }
          assert chkBuf == Magic;
          // Forge an exception frame that resumes in the reset routine.
          outcome := BootloaderJump;
        }
      }
    }
  }

  /**
   * The host drops DTR after raising it and then sends "XY1EAF": the marker
   * is the last four bytes, so the receive hook jumps to the bootloader.
   */
  method TailMarkerScenario() returns (raise: Outcome, drop: Outcome, scan: Outcome)
    ensures raise == Continue && drop == Continue
    ensures scan == BootloaderJump
  {
    var monitor := new ResetMonitor();
    var queue := new RxQueue();
    raise := monitor.IfaceSetupHook(SetControlLineState, true, 115200);
    drop := monitor.IfaceSetupHook(SetControlLineState, false, 115200);
    queue.Receive([0x58, 0x59, 0x31, 0x45, 0x41, 0x46]);
    scan := monitor.RxHook(queue);
  }

  /**
   * Same edge, but the buffer holds "1EAFXY": the window is "AFXY", nothing
   * happens, the edge is spent, and a second receive event does nothing
   * even after the host sends the marker again.
   */
  method HeadMarkerScenario() returns (first: Outcome, second: Outcome, buffered: seq<byte>)
    ensures first == Continue && second == Continue
    ensures buffered == [0x31, 0x45, 0x41, 0x46, 0x58, 0x59] + Magic
  {
    var monitor := new ResetMonitor();
    var queue := new RxQueue();
    var o := monitor.IfaceSetupHook(SetControlLineState, true, 9600);
    o := monitor.IfaceSetupHook(SetControlLineState, false, 9600);
    queue.Receive([0x31, 0x45, 0x41, 0x46, 0x58, 0x59]);
    assert queue.unread[|queue.unread| - MagicLength] != Magic[0];  // the window starts at 'A'
    first := monitor.RxHook(queue);
    queue.Receive(Magic);
    second := monitor.RxHook(queue);
    buffered := queue.unread;
  }

  /**
   * At 1200 baud the falling edge itself arms the watchdog, before any
   * receive event could scan for the marker; from power-up a first low DTR
   * does not.
   */
  method WatchdogScenario() returns (first: Outcome, raise: Outcome, drop: Outcome)
    ensures first == Continue && raise == Continue
    ensures drop == WatchdogReset
  {
    var monitor := new ResetMonitor();
    first := monitor.IfaceSetupHook(SetControlLineState, false, BootloaderBaud);
    raise := monitor.IfaceSetupHook(SetControlLineState, true, BootloaderBaud);
    drop := monitor.IfaceSetupHook(SetControlLineState, false, BootloaderBaud);
  }
}
