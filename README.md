# Bootloader re-entry of the USB virtual serial port

This project models the bootloader re-entry logic of the USB virtual serial
port in `usb/usb_serial.cpp`. The logic lets a host put the microcontroller back
into its bootloader without a reset button. The CDC-ACM USB stack calls two
hooks from its interrupt handler:

- `ifaceSetupHook` runs on every class request. On SET_CONTROL_LINE_STATE it
  moves the DTR edge detector `reset_state` through `DTR_UNSET`, `DTR_HIGH`,
  `DTR_NEGEDGE` and `DTR_LOW`. When a falling edge is seen at 1200 baud, it
  arms the independent watchdog and spins until the chip resets.
- `rxHook` runs when data arrives. It acts only while a falling edge is
  pending, and it spends that edge at once. With at least four bytes buffered,
  it peeks the last four bytes without consuming them. If they are `"1EAF"`,
  it forges an exception frame that resumes in a routine that resets the chip.

The model has two modules:

- `UsbSerial` (`usb_serial.dfy`) holds the following:
  - the states (`ResetState`) and the ways a hook invocation can end
    (`Outcome`: `Continue`, `WatchdogReset`, `BootloaderJump`);
  - the transition function `NextState` and the per-hook specification
    functions `SetupStep` and `RxStep`;
  - the class `ResetMonitor`, whose field `resetState` is the file-scope
    `reset_state` and whose methods `IfaceSetupHook` and `RxHook` are the two
    hooks, proved against `SetupStep` and `RxStep`;
  - the class `RxQueue`, standing in for the stack's receive buffer;
  - three client methods that replay host sessions through the class.
- `UsbSerialProperties` (`usb_serial_properties.dfy`) holds properties over
  whole runs. These cover series of DTR levels (`RunLevels`) and interleaved
  hook events up to the first terminal outcome (`Run`).

The two actions that never return are modelled as terminal `Outcome` values.
These are the watchdog arming with `while (1)` and the exception-frame forgery
that resumes in `wait_reset`, which calls `NVIC_SystemReset`.

Inputs the hooks read from the stack become parameters:

- the request byte;
- the DTR level (the source tests a byte for non-zero; the model takes a `bool`);
- the negotiated baud rate;
- the receive buffer's unread bytes.

`SetControlLineState` is 0x22. That is the SET_CONTROL_LINE_STATE request code
of the USB CDC PSTN subclass specification. `usb_cdcacm.h`, which defines it,
is not part of this model.

## Model

| member | source | states |
|---|---|---|
| `UsbSerial.NextState` | usb/usb_serial.cpp:183-196 | asserting DTR always gives DTR_HIGH; deasserting gives DTR_NEGEDGE exactly when the state was DTR_HIGH, otherwise DTR_LOW; DTR_UNSET is never re-entered |
| `UsbSerial.SetupStep` | usb/usb_serial.cpp:172-208 | a request other than SET_CONTROL_LINE_STATE leaves the state unchanged and returns; otherwise the state moves by the transition table; the watchdog path is taken iff the request is SET_CONTROL_LINE_STATE, baud is 1200 and DTR falls from DTR_HIGH; this hook never jumps to the bootloader |
| `UsbSerial.RxStep` | usb/usb_serial.cpp:222-243 | outside DTR_NEGEDGE nothing changes; in DTR_NEGEDGE the state always becomes DTR_LOW; the bootloader jump happens iff the state was DTR_NEGEDGE, at least 4 bytes are buffered and each byte at offset available-4+i equals magic[i] |
| `UsbSerial.ResetMonitor.constructor` | usb/usb_serial.cpp:170 | the detector starts in DTR_UNSET |
| `UsbSerial.ResetMonitor.IfaceSetupHook` | usb/usb_serial.cpp:172-208 | the new state and outcome are those of `SetupStep` on the old state; a non-matching request changes nothing; the watchdog reset is taken iff the request matched, baud is 1200 and the new state is DTR_NEGEDGE |
| `UsbSerial.ResetMonitor.RxHook` | usb/usb_serial.cpp:222-271 | the receive buffer is unchanged whatever the result; the new state and outcome are those of `RxStep`; the state is DTR_LOW afterwards whenever it was DTR_NEGEDGE; the jump happens iff the edge was pending and the last four buffered bytes are "1EAF" |
| `UsbSerial.TailMarkerScenario` | usb/usb_serial.cpp:183-242 | DTR raised, then dropped, then "XY1EAF" received: both setup requests return, and the receive hook jumps to the bootloader |
| `UsbSerial.HeadMarkerScenario` | usb/usb_serial.cpp:223-242 | same edge with "1EAFXY" buffered: no jump; a later "1EAF" at the tail is not seen either, since the edge is spent; the buffered bytes are exactly what the host sent |
| `UsbSerial.WatchdogScenario` | usb/usb_serial.cpp:183-207 | at 1200 baud a first low DTR from power-up returns, raising returns, and the following drop takes the watchdog path |
| `UsbSerialProperties.RunLevels` | usb/usb_serial.cpp:183-196 | after a non-empty series of control-line updates the state is never DTR_UNSET |
| `UsbSerialProperties.RunLevelsSnoc` | usb/usb_serial.cpp:183-196 | appending one DTR level to a series applies one more transition to its final state |
| `UsbSerialProperties.RunLevelsHigh` | usb/usb_serial.cpp:183-196 | after a non-empty series the state is DTR_HIGH iff the last level was asserted |
| `UsbSerialProperties.NegEdgeOnlyAfterHigh` | usb/usb_serial.cpp:180-196 | a series ends in DTR_NEGEDGE iff its last level is deasserted and the one before it asserted (or, for one level, the start state was DTR_HIGH) |
| `UsbSerialProperties.PowerUpNegEdge` | usb/usb_serial.cpp:170-196 | from power-up DTR_UNSET, DTR_NEGEDGE is reached iff the last two levels were asserted then deasserted, so power-up defaults never arm the scanner |
| `UsbSerialProperties.RepeatedLevelNeverNegEdge` | usb/usb_serial.cpp:188-194 | the same level twice in a row ends in DTR_HIGH (asserted) or DTR_LOW (deasserted), never DTR_NEGEDGE |
| `UsbSerialProperties.SingleShot` | usb/usb_serial.cpp:225-226 | after a receive event that returns, no edge is pending and the next receive event does nothing, whatever is buffered |
| `UsbSerialProperties.ShortBufferForfeitsEdge` | usb/usb_serial.cpp:225-228 | with fewer than 4 bytes buffered on a pending edge there is no jump and the state is already DTR_LOW |
| `UsbSerialProperties.MarkerAtEndFound` | usb/usb_serial.cpp:231-242 | any buffer ending in "1EAF" triggers the jump on a pending edge, whatever bytes precede the marker |
| `UsbSerialProperties.TrailingBytesHideMarker` | usb/usb_serial.cpp:223-242 | one to three bytes queued after the marker always hide it: no jump, and the edge is spent |
| `UsbSerialProperties.SingleByteMismatch` | usb/usb_serial.cpp:238-242 | changing any one of the last four bytes of a matching buffer gives no jump |
| `UsbSerialProperties.Apply` | usb/usb_serial.cpp:53-54 | of the two registered hooks, only a DTR drop from DTR_HIGH can take the watchdog path, and only a receive event on a pending edge can jump; without a DTR drop and with no edge pending, no edge becomes pending |
| `UsbSerialProperties.NoResetWithoutDtrDrop` | usb/usb_serial.cpp:183-207 | a run of events with no SET_CONTROL_LINE_STATE carrying a low DTR, started with no edge pending, resets neither way and leaves no edge pending |
| `UsbSerialProperties.JumpNeedsMarkerAtTail` | usb/usb_serial.cpp:225-243 | a run that ends in the bootloader jump has a receive event k whose buffer ends in "1EAF", such that the run up to k returns with DTR_NEGEDGE pending and the run through k jumps, leaving DTR_LOW |
| `UsbSerialProperties.TerminalIsFinal` | usb/usb_serial.cpp:198-207 | once a run reaches a watchdog reset or a bootloader jump, later events are never handled |
| `UsbSerialProperties.WatchdogPreemptsScan` | usb/usb_serial.cpp:198-207 | at 1200 baud a DTR drop from DTR_HIGH takes the watchdog path at once, whatever receive events would follow |

## Left out

- The inline-assembly exception frame and `bx lr`, `wait_reset`'s delay loop and `NVIC_SystemReset`, and the IWDG register sequence with `while (1)`. These are CPU and hardware actions that never return. Each is the terminal outcome `BootloaderJump` or `WatchdogReset`.
- `USBSerial::begin` and `USBSerial::end`: enabling and disabling the CDC-ACM function is stack plumbing. The hook registration at lines 53-54 is kept only as the mapping from event to hook in `Apply`.
- The pass-through serial API (`write`, `read`, `peek`, `flush`, `available`, `availableForWrite`, `pending`, `isConnected`, `getDTR`, `getRTS`). These are thin wrappers over stack functions that are not part of this model. Their loops end only if the stack makes progress. Both `write` overloads return 0 whatever they send.
- The stack's receive buffer is a sequence of unread bytes, not the stack's ring buffer. `usb_cdcacm_data_available` and `usb_cdcacm_peek_ex` are not part of this model. The hook reads the buffered length once and slices the last four bytes. The source calls `usb_cdcacm_data_available` twice; the two calls agree because the buffer cannot change inside the interrupt.
- Interrupt-context concurrency: the two hooks are treated as serialised calls on one object, which the non-nested USB interrupt guarantees.
- The 32-bit width of the baud rate is not modelled: it is only compared with 1200.
- The receive hook compares only the last four buffered bytes (lines 228-242), never an earlier window. This is modelled as written; `TrailingBytesHideMarker` states the consequence.
- The stack's NAK-after-RX flow control is not modelled. The endpoint withholds further packets until the application has read the waiting bytes, so with unread bytes queued a marker sent later never reaches the buffer; the comment at lines 223-224 names this. The model's `DataAvailable` events accept any buffer, including unread bytes followed by a marker from a later packet, which the stack would not deliver. `MarkerAtEndFound` is about the hook alone.
