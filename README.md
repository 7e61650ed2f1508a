# ps2toUsb: a verified model of the PS/2 driver, key translation and macro engine

ps2toUsb is AVR firmware that connects a PS/2 keyboard to a USB host. A clock-edge
interrupt handler collects keyboard frames into a 32-byte ring buffer. `ps2ReadPoll`
decodes scan code set 2 into modifier bits and keycodes. The main loop keeps the list
of held keys and turns it into eight-byte USB boot keyboard reports through
`convertTable`. A small macro engine can record those reports and replay them,
driven by hotkeys and showing its state with a chase light on the keyboard LEDs. The
host's LED state travels the other way and reaches the keyboard through `sendps2`.

This project models that core in Dafny and proves what it does.

- `common.dfy` (module Common): byte and word types, constant-count shifts, `Repeat`.
- `parity.dfy` (Parity): `calc_parity` as written, against a count of one bits.
- `rxqueue.dfy` (RxQueue): the receive ring buffer seen as a bounded FIFO of non-zero bytes.
- `ps2frame.dfy` (Ps2Frame): the receive bit assembly, the frame decision and the
  transmit levels of the handler, on registers and 11-bit frames.
- `decoder.dfy` (ScanDecoder): the KEY, EXTKEY and EXTKEY2 decoder of `ps2ReadPoll`
  as a step function over the mode and the 9-bit `kb_register`.
- `ps2state.dfy` (Ps2State): every driver global as one value, and the handler,
  `sendps2`, `ps2SetLeds` and `ps2ReadPoll` as functions on it.
- `ps2kbd.dfy` (Ps2Kbd): the driver as the firmware keeps it. Class `RxRing` holds the
  32-slot array and its two indices. Class `Ps2Port` holds the handler's globals as
  fields. Every method is proved to move the state as module Ps2State says.
- `translate.dfy` (Translate): `convertTable`, `ignoreStrangePs2` and the LED remap.
- `keyset.dfy` (KeySet): the six-slot pressed-key list, its press, release and clear
  operations, and its array loops.
- `macro.dfy` (Macro): `macroStop`, `UsbAlternateHook`, `UpdateUsbKeystate`,
  `macroExecute` and `rx1FifoCallback` as functions over `g_Macro`, the LED flags and
  two logs: the bytes given to `ps2SetLeds` and the reports given to `KeyboardToUsb`.
- `mainloop.dfy` (MainLoop): one pass of the main loop as a function of its variables
  and of the list clear, the `memset` as written or the intended one.
- `bridge.dfy` (Bridge): class `Bridge` holds the main loop's state the way the
  firmware does. That state is the pressed-key array, `g_Macro` with its array of 40
  steps, and the flags. Each method is proved to follow modules Macro and MainLoop.

C's unsigned arithmetic is modelled with bit-vectors: `uint8_t` is `bv8`, `kb_register`
is `bv16`, and keycodes and timestamps are `bv32`. Wrap-around and unsigned comparison
are therefore exact: stored delays, deadlines such as `timestamp + 60000`, and the error
counters all wrap. The clock is a parameter `now`, one value for each pass of the main
loop. The firmware reads `timestampGet()` at the top of a pass and again inside it; the
model gives all of those readings the pass's value (see "Timing" under "## Left out").
The keyboard is a parameter as well. Each attempt of `sendps2` is answered by
a sequence of data-line levels, clocked into the real receive path. Whether the bus went
idle before a send is the boolean `busIdle`.

Where the source's comments and its code differ, the model follows the code:

- The stop-bit test at src/ps2kbd.c:342 is commented "Check start and stop bits", but
  only the stop bit is checked (`Ps2Frame.StartBitIgnored`).
- `g_rxAct` is not cleared before a send waits for the acknowledgement. An unsolicited
  0xFA that arrived earlier ends the next send after one frame
  (`Ps2State.StaleAckEndsSend`).

## Model

The stop edge's two steps, `Ps2State.StoreStop` (src/ps2kbd.c:341) and `Ps2State.EndFrame` (src/ps2kbd.c:368-371), have no rows of their own.
`Ps2State.StopEdge` is built from them, and its row covers them. `Ps2State.ElevenEdges` and `Ps2State.ReceiveFrameEffect` state their effect.

| member | source | states |
|---|---|---|
| Parity.CalcParity | src/ps2kbd.c:104-112 | the folded parity is a single bit |
| Parity.CalcParityCountsOnes | src/ps2kbd.c:104-112 | `calc_parity(x)` is 1 exactly when x has an odd number of one bits |
| Parity.ReceiverAcceptsExactlyOddFrames | src/ps2kbd.c:346 | the receiver's parity test (reject when the parity bit equals `calc_parity`) passes exactly the odd-parity frames, both directions |
| Parity.TransmitterSendsOddFrames | src/ps2kbd.c:283-293 | the parity level the transmitter drives always completes an odd-parity frame |
| RxQueue.Enqueue | src/ps2kbd.c:83-102 | a put keeps the queue within 32 bytes and flags overflow exactly when the queue is full |
| RxQueue.Dequeue | src/ps2kbd.c:68-81 | a get returns 0 exactly when the buffer is empty (or its head is the empty mark) |
| RxQueue.RunIsLosslessFifo | src/ps2kbd.c:68-102 | over any interleaving of puts and gets without a flagged overflow, the bytes taken out and the bytes still queued are the starting queue followed by every non-zero byte put, in order |
| RxQueue.NoOverflowWithinCapacity | src/ps2kbd.c:83-102 | puts that fit in the free space never flag overflow and append exactly their non-zero bytes |
| Ps2Kbd.RxRing.constructor | src/ps2kbd.c:59-66 | the zeroed ring is a valid empty queue without overflow |
| Ps2Kbd.RxRing.Get | src/ps2kbd.c:68-81 | `ps2RxGet` on the array returns the oldest byte, or 0 and no change when the read slot is empty, clears the slot, moves the read index round modulo 32, and keeps the ring valid |
| Ps2Kbd.RxRing.Put | src/ps2kbd.c:83-102 | `ps2RxPut` on the array: an occupied write slot raises overflow and changes nothing, a zero byte is not stored, any other byte is appended at the write index, which moves round modulo 32 |
| Ps2Kbd.RxRing.TakeOverflow | src/ps2kbd.c:413-418 | the overflow flag is reported and cleared, the contents untouched |
| Ps2Frame.RxShift | src/ps2kbd.c:323-338 | each receive edge 0..9 advances the bit count by one |
| Ps2Frame.RxRun | src/ps2kbd.c:323-338 | a run of receive edges advances the count by the run's length |
| Ps2Frame.DataPrefix | src/ps2kbd.c:325-331 | after edges 0..k, `rcv_byte` holds frame bits 1..k least significant first and `ssp` the start bit |
| Ps2Frame.AssembleFrame | src/ps2kbd.c:323-338 | ten edges from a reset state leave the frame's byte in `rcv_byte`, the start bit in `ssp` bit 0 and the parity bit in `ssp` bit 2 |
| Ps2Frame.VerdictOfFrame | src/ps2kbd.c:341-367 | the decision is a framing error exactly when the stop bit is low, otherwise a parity fault exactly when the frame is not odd, otherwise the byte is accepted |
| Ps2Frame.ReceiveFrame | src/ps2kbd.c:323-367 | the 11 edges of a frame assemble its byte and yield the protocol's reading of the frame |
| Ps2Frame.StartBitIgnored | src/ps2kbd.c:342 | frames differing only in the start bit get the same decision |
| Ps2Frame.TxDrive | src/ps2kbd.c:273-297 | transmit edges 0..9 drive one level each, edge 10 none |
| Ps2Frame.TxLevels | src/ps2kbd.c:273-297 | the first n edges of a frame drive min(n, 10) levels |
| Ps2Frame.TxLevelsAt | src/ps2kbd.c:273-297 | entry k of the driven levels is what edge k drives |
| Ps2Frame.TransmitFrame | src/ps2kbd.c:273-297 | a sent frame drives the data bits least significant first, then a parity level making the frame odd, then a released stop bit |
| Ps2Frame.TransmitThenReceive | src/ps2kbd.c:273-297 | the host's low start bit, the levels of a sent frame and a high stop bit are read back by the protocol as the byte sent |
| ScanDecoder.ExtendedCode | src/ps2kbd.c:475 | the extended keycode is 0xE000 plus the scan code |
| ScanDecoder.Release | src/ps2kbd.c:478-481 | every release emission leaves KUP clear and reports the whole new register as event 2 |
| ScanDecoder.Press | src/ps2kbd.c:511-515 | every press emission reports event 1 with KUP clear |
| ScanDecoder.DecodeExtKey2 | src/ps2kbd.c:423-454 | every emission of EXTKEY2 is well formed |
| ScanDecoder.DecodeExtKey | src/ps2kbd.c:455-517 | every emission of EXTKEY is well formed |
| ScanDecoder.DecodeKey | src/ps2kbd.c:518-605 | every emission of KEY mode is well formed |
| ScanDecoder.DecodeStep | src/ps2kbd.c:419-606 | every emitting path leaves KUP clear, emits event 1 or 2 and reports the new register |
| ScanDecoder.DecodeRun | src/ps2kbd.c:419-606 | the register stays a 9-bit value over any run |
| ScanDecoder.KeyModePrefixes | src/ps2kbd.c:549-558 | in KEY mode 0xF0 only sets KUP, 0xE0 enters EXTKEY, 0xE1 enters EXTKEY2, none emits |
| ScanDecoder.KeyModeModifier | src/ps2kbd.c:520-570 | the four KEY-mode modifier codes set exactly their bit on press and clear exactly their bit and KUP on release, with the keycode untouched |
| ScanDecoder.KeyModePlainKey | src/ps2kbd.c:536-603 | every other KEY-mode code is emitted as the plain keycode, as a press or (with KUP) a release |
| ScanDecoder.ExtendedPress | src/ps2kbd.c:483-516 | after 0xE0, the four extended modifier codes set their bit, other codes except 0xF0 are pressed as the 0xE0-tagged keycode, 0xF0 sets KUP |
| ScanDecoder.ExtendedRelease | src/ps2kbd.c:456-482 | after 0xE0 with KUP, a modifier code clears its bit and any other is released as the tagged keycode, back in KEY mode |
| ScanDecoder.RunAppend | src/ps2kbd.c:419-606 | decoding a concatenation is decoding the parts in turn: the mode and register are the decoder's whole memory |
| ScanDecoder.PausePress | src/ps2kbd.c:440-446 | E1 14 77 is one press of 0xE11477 |
| ScanDecoder.PauseReleaseTail | src/ps2kbd.c:424-437 | 14 F0 77 in EXTKEY2 with KUP set ends the pause release |
| ScanDecoder.PauseRelease | src/ps2kbd.c:423-454 | E1 F0 14 F0 77 is one release of 0xE11477 with KUP consumed |
| ScanDecoder.ExtKey2Abort | src/ps2kbd.c:433-452 | an unexpected byte in EXTKEY2 returns to KEY mode with KUP clear and no event |
| ScanDecoder.ReleaseLeftCtrl | src/ps2kbd.c:530-545 | F0 14 releases left Ctrl |
| ScanDecoder.DoubleRelease | src/ps2kbd.c:530-545 | releasing an already released modifier leaves the bitmap as it was |
| ScanDecoder.PlainKeyRelease | src/ps2kbd.c:520-545 | F0 sc releases a plain key |
| ScanDecoder.PlainKeyRoundTrip | src/ps2kbd.c:518-605 | sc then F0 sc decodes to one press and one release of the same keycode with unchanged modifiers |
| ScanDecoder.ExtendedKeyPressRun | src/ps2kbd.c:483-516 | E0 sc presses the extended key |
| ScanDecoder.ExtendedReleaseTail | src/ps2kbd.c:456-489 | F0 sc in EXTKEY releases the extended key |
| ScanDecoder.ExtendedKeyReleaseRun | src/ps2kbd.c:455-517 | E0 F0 sc releases the extended key |
| ScanDecoder.ExtendedKeyRoundTrip | src/ps2kbd.c:455-517 | E0 sc then E0 F0 sc decodes to one press and one release of the same extended keycode |
| Ps2State.KeyboardFrame | src/ps2kbd.c:270-376 | a keyboard frame has 11 bits |
| Ps2State.Judge | src/ps2kbd.c:342-367 | judging a frame keeps the bounds and touches neither the registers, the direction, the logs nor the decoder |
| Ps2State.TxEdge | src/ps2kbd.c:272-308 | a transmit edge keeps the bounds, starts no frame and leaves the decoder alone |
| Ps2State.StopEdge | src/ps2kbd.c:339-372 | the stop edge keeps the bounds, starts no frame and leaves the decoder alone |
| Ps2State.Edge | src/ps2kbd.c:270-376 | the handler keeps the bounds, starts no frame and never touches the decoder |
| Ps2State.EdgeRun | src/ps2kbd.c:270-376 | the same for any run of edges |
| Ps2State.RxEdges | src/ps2kbd.c:323-338 | while receiving, the handler only shifts the receive registers |
| Ps2State.JudgeEffect | src/ps2kbd.c:342-367 | judging has the protocol's effect: framing error counted; parity fault after a send marks a bad acknowledgement, otherwise counts a parity error and requests a resend; 0xFA acknowledges; every other byte is queued or flags overflow; nothing else changes |
| Ps2State.FrameEffectIgnoresRx | src/ps2kbd.c:368-371 | the frame effect does not depend on the receive registers, which are reset afterwards |
| Ps2State.TenEdges | src/ps2kbd.c:323-338 | the first ten edges of a frame assemble its byte and verdict and change nothing else |
| Ps2State.ElevenEdges | src/ps2kbd.c:323-372 | eleven edges are the judging of the frame's meaning followed by the receiver reset |
| Ps2State.ReceiveFrameEffect | src/ps2kbd.c:323-372 | a received frame leaves the receiver idle with `g_NextByteIsAct` clear and has the protocol's effect for that frame |
| Ps2State.EdgeRunAppend | src/ps2kbd.c:270-376 | running the handler over two runs of edges in turn is running it over the two joined |
| Ps2State.OneFrameReachesQueue | src/ps2kbd.c:323-372 | one frame received from the idle receiver queues its byte unless it is 0xFA, 0 or rejected; the overflow flag rises only when the buffer is full, never falls, and the receiver ends idle |
| Ps2State.FramesReachQueue | src/ps2kbd.c:323-372 | any run of 11-edge frames from the idle receiver: without overflow the queue grows by exactly the accepted bytes other than 0xFA and 0, in frame order; the flag is unchanged while they fit; the receiver ends idle |
| Ps2State.TxEdgeStep | src/ps2kbd.c:272-308 | each transmit edge drives the next level, the eleventh hands the line back to the receiver expecting an acknowledgement |
| Ps2State.TxEdges | src/ps2kbd.c:272-310 | while sending, the handler ignores the data line |
| Ps2State.TransmitFrameEffect | src/ps2kbd.c:272-310 | eleven edges clock the whole frame out |
| Ps2State.StartTx | src/ps2kbd.c:166-191 | a send attempt loads the registers and switches to sending |
| Ps2State.Attempt | src/ps2kbd.c:166-206 | each attempt starts exactly one frame of the byte |
| Ps2State.ClearBadParity | src/ps2kbd.c:207-221 | after an unacknowledged attempt, no bad-parity mark remains and nothing else changes |
| Ps2State.Tries | src/ps2kbd.c:163-224 | the retry loop keeps the bounds |
| Ps2State.TriesStep | src/ps2kbd.c:207-223 | an unacknowledged attempt with tries left is followed by the rest of the loop |
| Ps2State.TriesStop | src/ps2kbd.c:207-224 | an acknowledged or last attempt ends the loop with `g_rxAct` cleared |
| Ps2State.TriesBounded | src/ps2kbd.c:163-224 | the loop sends the byte one to `tries` times and exits with `g_rxAct` 0 |
| Ps2State.SendResult | src/ps2kbd.c:140-162 | a send of anything but 0xFF on a bus that never went idle changes nothing |
| Ps2State.SendAttempts | src/ps2kbd.c:127-226 | `sendps2` sends the byte one to three times and returns with `g_rxAct` 0 |
| Ps2State.ResetNeverWaits | src/ps2kbd.c:140 | 0xFF is sent whether or not the bus is idle |
| Ps2State.AckedAtFirstAttempt | src/ps2kbd.c:163-212 | a well-formed 0xFA reply to the first frame ends the send after one attempt, with the frame's levels driven once and the queue untouched |
| Ps2State.SilentKeyboard | src/ps2kbd.c:163-224 | a keyboard that never answers gets the byte three times |
| Ps2State.StaleAckEndsSend | src/ps2kbd.c:202-212 | an acknowledgement left over from before the send ends it after one frame |
| Ps2State.SetLedsResult | src/ps2kbd.c:610-613 | `ps2SetLeds` keeps the bounds |
| Ps2State.SetLedsSendsCommandThenBits | src/ps2kbd.c:610-613 | on an idle bus, 0xED goes out one to three times, then the LED bits one to three times |
| Ps2State.PollResult | src/ps2kbd.c:399-608 | a reported overflow is cleared by the same poll |
| Ps2State.ParityErrorRequestsResend | src/ps2kbd.c:407-412 | a pending resend request makes the poll send 0xFE first, when the bus goes idle |
| Ps2State.OverflowReportedOnce | src/ps2kbd.c:413-418 | a raised overflow flag is returned by exactly one poll |
| Ps2State.EmptyPollEmitsNothing | src/ps2kbd.c:419-420 | a poll of an empty buffer emits no event and leaves the decoder as it was |
| Ps2State.PollRun | src/ps2kbd.c:399-608 | repeated polls keep the bounds |
| Ps2State.PollsDecodeQueue | src/ps2kbd.c:419-606 | n polls emit exactly what the decoder emits for the first n queued scan codes, in order, and leave the rest queued |
| Ps2Kbd.Ps2Port.constructor | src/ps2kbd.c:47-66 | the driver starts in the initial state |
| Ps2Kbd.Ps2Port.SendEdge | src/ps2kbd.c:272-310 | the transmit half of the handler on the fields follows `TxEdge` |
| Ps2Kbd.Ps2Port.ReceiveBit | src/ps2kbd.c:323-338 | receive edges 0..9 on the fields follow `RxShift` |
| Ps2Kbd.Ps2Port.CountFramingError | src/ps2kbd.c:342-345 | `framing_error` follows the framing-error judgement |
| Ps2Kbd.Ps2Port.ParityFaultSeen | src/ps2kbd.c:346-356 | a parity fault follows its judgement |
| Ps2Kbd.Ps2Port.AcceptByte | src/ps2kbd.c:357-367 | an accepted byte is an acknowledgement or goes into the ring buffer |
| Ps2Kbd.Ps2Port.JudgeFrame | src/ps2kbd.c:342-367 | the frame decision on the fields follows `Judge` |
| Ps2Kbd.Ps2Port.StoreStopBit | src/ps2kbd.c:340-341 | the stop bit is ORed into `ssp` |
| Ps2Kbd.Ps2Port.ResetReceiver | src/ps2kbd.c:368-371 | the receiver reset follows `EndFrame` |
| Ps2Kbd.Ps2Port.StopBit | src/ps2kbd.c:339-372 | the stop-bit edge follows `StopEdge` |
| Ps2Kbd.Ps2Port.ClockEdge | src/ps2kbd.c:270-376 | one run of the interrupt handler follows `Edge` |
| Ps2Kbd.Ps2Port.ClockOut | src/ps2kbd.c:194-197 | the wait while sending ends with the whole frame clocked out |
| Ps2Kbd.Ps2Port.ClockIn | src/ps2kbd.c:202-206 | the reply edges during the acknowledgement wait follow `EdgeRun` |
| Ps2Kbd.Ps2Port.LoadTx | src/ps2kbd.c:166-191 | loading the transmit registers follows `StartTx` |
| Ps2Kbd.Ps2Port.Attempt | src/ps2kbd.c:166-206 | one attempt on the fields follows `Ps2State.Attempt` |
| Ps2Kbd.Ps2Port.ForgetBadParity | src/ps2kbd.c:217-221 | the bad-parity mark is cleared as `ClearBadParity` says |
| Ps2Kbd.Ps2Port.Round | src/ps2kbd.c:164-223 | one pass of the retry loop either ends it as `Tries` says or leaves the rest of the loop equal to the whole |
| Ps2Kbd.Ps2Port.Send | src/ps2kbd.c:127-226 | `sendps2` on the fields follows `SendResult` |
| Ps2Kbd.Ps2Port.ReadPoll | src/ps2kbd.c:399-608 | `ps2ReadPoll` on the fields follows `PollResult`, returning its overflow flag and event |
| Ps2Kbd.Ps2Port.SetLeds | src/ps2kbd.c:610-613 | `ps2SetLeds` on the fields follows `SetLedsResult` |
| Translate.ConvertTable | src/main.c:526-676 | no keycode is translated to 0 |
| Translate.UnsupportedExactlyUnmapped | src/main.c:526-676 | 0xFF comes back exactly for the keycodes without a case, whatever the modifiers |
| Translate.AltPrintScreen | src/main.c:597-602 | 0x84 gives 0x46 when an ALT bit is held and 0x7C otherwise; every other keycode ignores the modifiers |
| Translate.RebootKeyCode | src/main.c:666 | only 0x17 gives the reboot usage 0x9A |
| Translate.RecordKeyCode | src/main.c:660 | only 0x5C gives the record usage 0x7E |
| Translate.ReplayKeyCode | src/main.c:648 | only 0x28 gives the replay usage 0x72 |
| Translate.BlinkKeyCode | src/main.c:649 | only 0x20 gives the blink usage 0x73 |
| Translate.TypingKeyUsages | src/main.c:530-566 | A, Z, 1, 0 and Enter get their HID usages 0x04, 0x1D, 0x1E, 0x27, 0x28 |
| Translate.FunctionKeyUsages | src/main.c:584-604 | F1, F12 and pause get 0x3A, 0x45 and 0x48 |
| Translate.ArrowKeyUsages | src/main.c:612-615 | the arrow keys get 0x4F to 0x52 |
| Translate.IgnoreStrangePs2 | src/main.c:679-691 | an ignored code is non-zero and has no case of its own |
| Translate.IgnoredAreFakeShifts | src/main.c:679-691 | the ignored codes are exactly 0xE012 and 0xE059 |
| Translate.IgnoredAreUnsupported | src/main.c:679-691 | ignored codes translate to 0xFF |
| Translate.LedRemap | src/main.c:880-884 | USB num, caps and scroll lock map to PS/2 bits 1, 2 and 0, each in both directions, and no other bit is set |
| Translate.LedRemapInjective | src/main.c:880-884 | only the three lock bits matter, and different lock states give different PS/2 bits |
| KeySet.Find | src/main.c:984-990 | the index found is the first slot holding the code; none exactly when the code is absent |
| KeySet.PressKey | src/main.c:982-1000 | a press keeps six slots |
| KeySet.ReleaseKey | src/main.c:1007-1022 | a release keeps six slots |
| KeySet.PressEffect | src/main.c:982-1000 | a press changes the list exactly when the code is new and a slot is free, and then only the first free slot, which now holds it |
| KeySet.ReleaseEffect | src/main.c:1007-1022 | a release frees exactly the slot holding the code, reports whether it was held, and in a list without duplicates the code is gone |
| KeySet.PressKeepsDistinct | src/main.c:982-1000 | a press never puts a code into two slots |
| KeySet.ReleaseKeepsDistinct | src/main.c:1007-1022 | a release never puts a code into two slots |
| KeySet.PressThenRelease | src/main.c:982-1022 | pressing a new key and releasing it restores the list |
| KeySet.MemsetAsWritten | src/main.c:974 | the byte-count `memset` zeroes slot 0 and the low half of slot 1 and leaves slots 2 to 5 as they were |
| KeySet.MemsetLeavesKeysHeld | src/main.c:974 | with A, pause and B held, the as-written clear leaves B held and leaves the keycode 0xE10000 |
| KeySet.MemsetCanDuplicate | src/main.c:974 | on a list without duplicates the as-written clear can leave slot 1 equal to slot 2 |
| KeySet.ClearAll | src/main.c:974 | the intended clear frees every slot |
| KeySet.ClearAllReleasesEverything | src/main.c:974 | after the intended clear no key is held and the list has no duplicates |
| KeySet.PressIn | src/main.c:983-1000 | the two press loops on the array do what `PressKey` says |
| KeySet.ReleaseIn | src/main.c:1008-1019 | the release loop on the array does what `ReleaseKey` says |
| KeySet.ClearIn | src/main.c:974 | the array clear does what `ClearAll` says |
| KeySet.ClearKeys | src/main.c:974 | either clear frees slot 0; the one as written keeps the high half of slot 1 and slots 2 to 5, the intended one frees all six |
| KeySet.MemsetIn | src/main.c:974 | the `memset` on the array does what `MemsetAsWritten` says |
| KeySet.ClearKeysIn | src/main.c:974 | the chosen clear on the array does what `ClearKeys` says |
| Macro.SetLeds | src/main.c:711 | `ps2SetLeds` appends one byte to the LED log and changes nothing else |
| Macro.SendReport | src/main.c:776 | `KeyboardToUsb` appends one report to the report log and changes nothing else |
| Macro.MacroStop | src/main.c:693-697 | the host's LED byte goes to the keyboard and the engine stops, the bounds restored |
| Macro.ToggleBlink | src/main.c:705-714 | the blink hotkey flips blink mode and leaves the macro state alone |
| Macro.Hook | src/main.c:699-757 | the hook halts exactly on usage 0x9A, otherwise keeps the bounds and sends no report |
| Macro.ModeKeys | src/main.c:715-756 | the record, replay and abort logic keeps the bounds and sends no report |
| Macro.RecordHotkey | src/main.c:716-733 | Find is swallowed with the modifiers; when stopped it starts an empty recording at LED phase 0, otherwise it stops the engine and restores the host's LEDs |
| Macro.ReplayHotkey | src/main.c:734-751 | F23 is swallowed with the modifiers; when stopped it starts a replay at step 0 due now, otherwise it stops the engine |
| Macro.OtherKeysStopReplay | src/main.c:705-756 | every other key passes through, F24 zeroed and intercepted, and stops a replay while leaving recording and the stopped state alone |
| Macro.Report | src/main.c:760-775 | the report is the modifier byte, a zero byte, the packed usages and zeros, eight bytes |
| Macro.ConvertTableHotkeyRows | src/main.c:648-666 | each hotkey usage comes from one keycode of the table |
| Macro.PackFrom | src/main.c:762-774 | the slot loop keeps the bounds, packs at most one usage per slot, packs only usages other than 0 and 0xFF, and sends no report |
| Macro.Usages | src/main.c:762-774 | the reference usages of a list are at most one per slot |
| Macro.UsagesAreKeys | src/main.c:767 | the reference usages contain neither 0 nor 0xFF |
| Macro.HookPassesKey | src/main.c:699-757 | a key that is no hotkey passes the hook untouched outside a replay |
| Macro.PackWithoutHotkeys | src/main.c:762-774 | without hotkeys and outside a replay the loop packs exactly the reference usages, in slot order, and changes nothing else |
| Macro.PackStepWithoutHotkeys | src/main.c:763-773 | one slot of that loop appends its usage, if any, and nothing else |
| Macro.PackInReplay | src/main.c:762-774 | in a replay the loop packs the same usages and modifiers as outside one, sends no report, and stops the replay exactly when a remaining slot holds a key |
| Macro.PackHeldInReplay | src/main.c:762-774 | from the first held key of a replay on, the replay is stopped and the loop packs as outside a replay |
| Macro.PackStepInReplay | src/main.c:752-755 | that key passes the hook untouched, which stops the replay |
| Macro.PackNoKeys | src/main.c:762-774 | empty slots add nothing and change nothing |
| Macro.PackHaltsOnRebootKey | src/main.c:762-774 | the loop halts exactly when a remaining slot holds the reboot keycode 0x17 |
| Macro.RecordStep | src/main.c:784-805 | recording keeps the bounds, sends no report and leaves the flags alone |
| Macro.UpdateUsbKeystate | src/main.c:759-806 | unless it halts, exactly one eight-byte report is sent and the bounds are kept |
| Macro.UpdateWithoutHotkeys | src/main.c:759-806 | without hotkeys the report sent is the modifiers, 0, the usages of the held keys in slot order and zeros; in a replay the same report goes out and the replay stops exactly when some slot holds a key |
| Macro.UpdateHaltsOnRebootKey | src/main.c:759-806 | the report is not sent exactly when the reboot key is held |
| Macro.RecordAppends | src/main.c:784-798 | a recorded step lands in slot `maxIndex` with delay 0 first and a third of the elapsed time later, and the count goes up by one |
| Macro.RecordStopsWhenFull | src/main.c:797-803 | recording stops, with the host's LEDs restored, exactly when the 40th slot is filled |
| Macro.RecordSkips | src/main.c:784-786 | outside recording, and for an empty first report, nothing is stored |
| Macro.LedBits | src/main.c:813-830 | a stopped engine or an out-of-range phase lights nothing |
| Macro.NextPhase | src/main.c:832-835 | the phase stays below 3 |
| Macro.LedTick | src/main.c:810-838 | the chase touches only the LED phase, the LED deadline and the LED log, and keeps the bounds |
| Macro.LedTickDue | src/main.c:810-838 | a due tick lights the phase's LED, advances the phase modulo 3 and moves the deadline 166 ms on |
| Macro.LedChaseCycle | src/main.c:810-838 | three due ticks light the three LEDs in the mode's order, return to the same phase and move the deadline 498 ms |
| Macro.ChasePatterns | src/main.c:815-830 | the replay pattern is 2, 4, 1 and the recording pattern 1, 4, 2 |
| Macro.ReplayTick | src/main.c:840-866 | replay keeps the bounds; what it sends and when is stated by ReplayAdvances, ReplayEnds and ReplayWaits |
| Macro.Execute | src/main.c:808-868 | `macroExecute` returns true exactly when a replay was running, and outside a replay does only the LED chase |
| Macro.ExecuteAt | src/main.c:808-868 | passes at any sequence of clock readings keep the bounds |
| Macro.Sent | src/main.c:844 | the replayed bytes of a range of steps, one per step, in order |
| Macro.ReplayInOrder | src/main.c:840-856 | k passes in the middle of a replay, each reaching its step's deadline, send the next k recorded steps in recorded order and keep replaying; the next step is then due at the start plus the stored delays of the k steps after the first, wrapping |
| Macro.ReplayAdvances | src/main.c:841-856 | one due pass sends the current step, moves to the next and adds the next step's stored delay to the deadline, wrapping |
| Macro.ReplayEnds | src/main.c:852-863 | the last step is sent, then `[0, 0]` unless it was a two-byte report without modifiers, and the engine stops with the host's LEDs |
| Macro.ReplayWaits | src/main.c:841 | a step is not sent before its deadline: the pass keeps the reports, the mode, the index, the deadline, the count and the memory |
| Macro.ExecuteAlike | src/main.c:808-868 | a pass from two states that agree on the reports and on the macro state apart from the LED chase leaves two such states |
| Macro.ReplayTickAlike | src/main.c:840-866 | the same for the replay part alone |
| Macro.ExecuteAtAlike | src/main.c:808-868 | the same for any run of passes |
| Macro.ExecuteAtAppend | src/main.c:808-868 | passes over two runs of clock readings in turn are the passes over the two joined |
| Macro.IdlePass | src/main.c:840-841 | a pass with no step due, or with no replay running, changes only the LED chase |
| Macro.IdlePassInserted | src/main.c:808-868 | such a pass inserted anywhere into a run leaves every later report and the replay state as without it |
| Macro.RecordRun | src/main.c:784-805 | recording a run of keystrokes keeps the bounds and sends nothing |
| Macro.Replayed | src/main.c:844 | what replay sends for keystroke j is the first `dataBytes` bytes of its report |
| Macro.RecordRunStores | src/main.c:784-805 | a recording from an empty memory stores keystroke j in slot j as its data bytes with pause 0 for the first and a third of the gap for the others, counts them and keeps recording below 40 |
| Macro.DeadlinesArePaced | src/main.c:853-855 | with the keystrokes stored, the replay deadline of step j is the paced time of keystroke j |
| Macro.PacedOnTime | src/main.c:841-855 | clock readings that reach the paced times reach every replay deadline |
| Macro.HotkeysStartReplay | src/main.c:716-746 | Find ends a recording and F23 then starts its replay at step 0, due at once, with the recorded steps untouched and nothing sent |
| Macro.ReplayAll | src/main.c:840-865 | a replay from step 0 whose passes reach every deadline sends every step in order, then `[0, 0]` unless the last was one, and stops |
| Macro.LastPass | src/main.c:852-863 | the pass after all but the last step sends the last one and stops |
| Macro.SentIsReplayed | src/main.c:784-844 | the stored steps replay as exactly the keystrokes' data bytes, and the last is a bare release exactly when the last keystroke was |
| Macro.RecordThenReplay | src/main.c:716-865 | keystrokes recorded from an empty memory, stopped with Find and replayed with F23, are sent again in recorded order, each as its first `dataBytes` bytes, over passes each reaching the next keystroke's paced time (a third of the recorded gap after the one before), then `[0, 0]` unless the last was a bare release, and the engine stops; with IdlePassInserted, passes before a deadline may come between them |
| Macro.HostLeds | src/main.c:870-887 | an empty report changes nothing; otherwise the remapped bits are stored and flagged |
| MainLoop.Polled | src/main.c:966-970 | without a decoded event the poll's outputs stay 0 |
| MainLoop.KeyEvent | src/main.c:969-1027 | the key handling keeps six slots, with either clear |
| MainLoop.ApplyHostLeds | src/main.c:1049-1056 | with a pending host LED update and no macro running, the LED byte is sent and the flag cleared; otherwise nothing changes |
| MainLoop.FallbackStep | src/main.c:1028-1044 | the fallback step keeps the list's length |
| MainLoop.KeysAfter | src/main.c:969-1044 | a pass keeps six slots |
| MainLoop.MainStep | src/main.c:964-1056 | a pass, with the clear as written or the intended one, keeps the bounds; the list, deadline and `modifierOld` are those of the key handling and fallback steps |
| MainLoop.PressHandling | src/main.c:980-1005 | a press leaves the code held unless it was new and the list full, asks for a report exactly when it was inserted or the modifiers changed, and arms the deadline at now + 60000 |
| MainLoop.UnlistedKeyHandling | src/main.c:980-1027 | a press or release with keycode 0 or a fake shift leaves the list alone, reports exactly when the modifiers changed, and a press arms the deadline at now + 60000 while a release keeps it |
| MainLoop.ReleaseHandling | src/main.c:1006-1027 | a release frees only the code's slot, asks for a report exactly when it was held outside a replay or the modifiers changed, and keeps the deadline |
| MainLoop.OverflowClears | src/main.c:971-979 | an overflow zeroes slot 0 and the modifiers, drops the event and forces a report; as written slot 1 keeps its high half and slots 2 to 5 stay, the intended clear frees all six |
| MainLoop.KeysStayDistinct | src/main.c:969-1044 | with the intended clear, no pass puts a keycode into two slots |
| MainLoop.FallbackClears | src/main.c:1032-1044 | once the deadline has passed, slot 0 and the modifiers are zeroed, a report forced and the deadline set to 0xFFFFFFFF; as written slot 1 keeps its high half and slots 2 to 5 stay, the intended clear frees all six |
| MainLoop.EmptyListReport | src/main.c:759-776 | an empty list is reported as eight zero bytes |
| MainLoop.ReplayHoldsFallback | src/main.c:1028-1044 | while a replay runs the deadline is now + 1000 and the keys are kept, except in the last second of the 32-bit clock, where the sum wraps and the list is cleared |
| MainLoop.OverflowPassAsWritten | src/main.c:964-1047 | as written, a pass after an overflow with A, pause and B held keeps B and a pause remnant 0xE10000 and reports B's usage |
| MainLoop.RemnantUsages | src/main.c:759-775 | that remnant list packs into a report holding B's usage 0x05 only |
| MainLoop.OverflowPassIntended | src/main.c:964-1047 | with the intended clear, the same pass frees every slot and sends the all-released report |
| MainLoop.MainStepHalts | src/main.c:1045-1047 | a pass halts exactly when it reports while the reboot keycode is held |
| MainLoop.HostLedsReachKeyboard | src/main.c:964-1056 | an LED report from the host reaches the keyboard, remapped, at the end of the next pass without a macro, key event or expired deadline; that pass sends no report and keeps the list |
| Bridge.Bridge.constructor | src/main.c:951-961 | the globals and loop locals start zeroed, the deadline at 0xFFFFFFFF, with the clear chosen |
| Bridge.Bridge.MacroStop | src/main.c:693-697 | `macroStop` on the fields follows `Macro.MacroStop` |
| Bridge.Bridge.UsbAlternateHook | src/main.c:699-757 | the hook on the fields follows `Macro.Hook`, returning its usage, modifiers and intercept flag, or halting |
| Bridge.Bridge.BlinkKey | src/main.c:705-714 | the blink key on the fields follows `ToggleBlink` |
| Bridge.Bridge.ModeKeys | src/main.c:715-756 | the mode keys on the fields follow `Macro.ModeKeys` |
| Bridge.Bridge.RecordStep | src/main.c:784-805 | recording into the step array follows `Macro.RecordStep` |
| Bridge.Bridge.UpdateUsbKeystate | src/main.c:759-806 | `UpdateUsbKeystate` on the arrays follows `Macro.UpdateUsbKeystate` and leaves the key array alone |
| Bridge.Bridge.PackSlot | src/main.c:763-774 | one slot of the loop on the fields follows `PackFrom` |
| Bridge.Bridge.SendReport | src/main.c:775-805 | the report is sent and recorded as `Macro.SendReport` and `Macro.RecordStep` say |
| Bridge.Bridge.LedTick | src/main.c:810-838 | the chase on the fields follows `Macro.LedTick` |
| Bridge.Bridge.ChaseBits | src/main.c:815-830 | the two switches give `LedBits` |
| Bridge.Bridge.ReplayTick | src/main.c:840-866 | replay on the fields follows `Macro.ReplayTick` |
| Bridge.Bridge.MacroExecute | src/main.c:808-868 | `macroExecute` on the fields follows `Execute` |
| Bridge.Bridge.Rx1FifoCallback | src/main.c:870-887 | the callback follows `HostLeds` |
| Bridge.Bridge.KeyHandling | src/main.c:964-1027 | the key handling on the array follows `KeyEvent` with the bridge's clear |
| Bridge.Bridge.Expire | src/main.c:1028-1044 | the deadline handling on the array follows `FallbackStep` with the bridge's clear |
| Bridge.Bridge.ApplyHostLeds | src/main.c:1049-1056 | the LED application follows `MainLoop.ApplyHostLeds` |
| Bridge.Bridge.KeysAndMacro | src/main.c:964-1044 | the first part of a pass follows `KeysAfter` and `Execute` |
| Bridge.Bridge.MainStep | src/main.c:964-1056 | one pass on the fields follows `MainLoop.MainStep`, halting exactly when it does |

## Left out

- Timing: every `_delay_us`/`_delay_ms` and the watchdog resets are delays only.
  - The firmware reads the clock four times within a pass:
    - src/main.c:965, at the top of the pass;
    - src/main.c:727, when Find starts a recording (`ledTimestamp`);
    - src/main.c:744, when F23 starts a replay (`time`);
    - src/main.c:789, for every recorded step (`delayMs` and `time`).
  - The model gives all four readings the pass's `now`.
  - Stored delays and the replay start are therefore measured in pass time.
  - The model ignores the time spent inside the pass before a reading: the
    `_delay_ms(POLLINTERVAL + 2)` of `KeyboardToUsb` (src/main.c:365), which comes
    before the reading at src/main.c:789, and any LED-chase `ps2SetLeds` that
    `macroExecute` made earlier in the pass.
  - So a delay the firmware stores is a third of the gap between two readings at
    src/main.c:789. `Macro.RecordAppends`, `Macro.RecordRunStores` and
    `Macro.RecordThenReplay` state it as a third of the gap between two passes.
- `framing_error` (src/ps2kbd.c:114-125) masks the clock interrupt for 8 ms and then
  clears its flag, so clock edges in that pause are lost. The edge sequences given to
  the handler stand for the edges that survive; which edges the pause swallows is not
  modelled.
- Pin and register writes: the GPIO, interrupt-enable and data-direction writes of the
  handler, `sendps2` and `parity_error` are not modelled. The only exception is the
  level the handler drives on the data line, which is logged.
- Concurrency: the interrupt handler is a method called once per clock edge, not a
  concurrent actor. `cli`/`sei` sections are not modelled.
- The idle-detection loop of `sendps2` (src/ps2kbd.c:140-162) is the parameter `busIdle`.
- Ps2Kbd.Ps2Port.ClockOut: the `while (sr == TX)` wait (src/ps2kbd.c:194-197) never
  tests its timeout. The model has the keyboard clock all eleven edges and claims
  nothing about a keyboard that stops clocking.
- The acknowledgement wait of `sendps2` (src/ps2kbd.c:202-206): its 25 ms timeout is
  modelled as the end of the reply sequence given for that attempt.
- `getresponse`, `resetKbd` and `ps2ReadInit`'s keyboard reset with their `while(1)`
  watchdog resets: hardware handshakes, outside the translation core.
- Usage 0x9A (the `while(1)` at src/main.c:703) is modelled as "halts": `None` from
  the functions and `rebooted` from the methods.
- Blink mode, the heartbeat LED, pings and reset-event logging of the main loop
  (src/main.c:1057-1087): GPIO and logging only. `g_BlinkMode` itself is toggled.
- `printf_P` logging, including the "unsupported keycode" message, produces no state.
- The `LOCAL_LED_CONTROL` branches of `ps2ReadPoll` are compiled out.
- `KeyboardToUsb` and `ps2SetLeds` in modules Macro and Bridge are appends to ghost
  logs of reports and LED bytes. Module Ps2State models `ps2SetLeds` down to the frames.
  The two are not wired together, and the event `ps2ReadPoll` returns enters
  `Bridge.MainStep` as parameters.
- Macro.Step: a recorded step keeps its first `messageLen` bytes only. The stale bytes
  beyond them in the firmware's `usb` array are never sent.
- The main loop takes the list clear as a parameter (`KeySet.Clear`): `AsWritten` is
  the firmware's `memset`, `Intended` the clear of all six slots (see Findings).
- MainLoop.KeysStayDistinct: proved for the intended clear only. On an arbitrary list
  the as-written clear can make the masked slot 1 equal another slot
  (KeySet.MemsetCanDuplicate); which keycodes the decoder can list, which would rule
  that out in the firmware, is not stated as an invariant.
- USB descriptor handling, endpoint plumbing, the USB controller driver and the UART
  are not part of this model.

## Findings

| source | as written | input that shows it | evidently intended | confidence | as-written member | corrected member |
|---|---|---|---|---|---|---|
| src/main.c:974 | `memset(keycodePressed, 0, MAXKEYS)`, here and at line 1040, clears MAXKEYS = 6 bytes of the 24-byte `uint32_t` array: on the little-endian AVR, slot 0 and the two low bytes of slot 1 | keys `[0x1C, 0xE11477, 0x32, 0, 0, 0]` (A, pause, B) become `[0, 0xE10000, 0x32, 0, 0, 0]`: B stays held after an overflow or the fallback timeout, and a keycode no key has appears | all six slots freed (`sizeof(keycodePressed)` bytes) | not executed | KeySet.MemsetAsWritten, KeySet.MemsetLeavesKeysHeld, MainLoop.OverflowPassAsWritten | KeySet.ClearAll, KeySet.ClearAllReleasesEverything, MainLoop.OverflowPassIntended, MainLoop.KeysStayDistinct |
