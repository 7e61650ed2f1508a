/** The PS/2 driver of src/ps2kbd.c as the firmware keeps it: globals updated in
    place, a 32-slot receive ring buffer that marks empty slots with 0, a clock-edge
    handler, `sendps2` with its retry loop, and `ps2ReadPoll`. Every method is proved
    to move the driver's state exactly as the pure model of module Ps2State says;
    what that model amounts to is proved there. */
module Ps2Kbd {
  import opened Common
  import opened Parity
  import opened RxQueue
  import opened Ps2Frame
  import opened ScanDecoder
  import opened Ps2State

  /** `BUFFERENTRIES`. */
  const Entries: nat := 32

  /** How many slots slot `j` lies after the read index, going round the ring. */
  function Offset(read: nat, j: nat): (k: nat)
    requires read < Entries && j < Entries
    ensures k < Entries
  {
    if j >= read then j - read else j + Entries - read
  }

  /** The slot `n` places after the read index. */
  function SlotAfter(read: nat, n: nat): (j: nat)
    requires read < Entries && n <= Entries
    ensures j < Entries
  {
    if read + n >= Entries then read + n - Entries else read + n
  }

  /** What slot `j` must hold when the queue `q` starts at the read index: its element
      at that distance, or the empty mark 0. */
  ghost function Expected(read: nat, q: seq<byte>, j: nat): byte
    requires read < Entries && j < Entries
  {
    if Offset(read, j) < |q| then q[Offset(read, j)] else 0
  }

  /** `g_rxbuffer` with `g_rxbufferRead`, `g_rxbufferWrite` and `g_rxOverflow`: the ring
      buffer between the clock-edge handler, which puts, and the poller, which gets. */
  class RxRing {
    const buffer: array<byte>
    var readIdx: nat
    var writeIdx: nat
    var overflow: bool
    /** The queue the slots hold, oldest first. */
    ghost var contents: seq<byte>

    /** The slots hold `contents` from the read index on, no zero among them, and 0
        everywhere else; the write index is the first free slot (the read index again
        when all 32 are taken). */
    ghost predicate Valid()
      reads this, buffer
    {
      buffer.Length == Entries && readIdx < Entries && |contents| <= Entries &&
      writeIdx == SlotAfter(readIdx, |contents|) &&
      (forall i :: 0 <= i < |contents| ==> contents[i] != 0) &&
      (forall j :: 0 <= j < Entries ==> buffer[j] == Expected(readIdx, contents, j))
    }

    /** All slots zero, both indices 0. */
    constructor ()
      ensures Valid() && contents == [] && !overflow
    {
      buffer := new byte[Entries](_ => 0);
      readIdx, writeIdx, overflow := 0, 0, false;
      contents := [];
    }

    /** `ps2RxGet` (src/ps2kbd.c:68-81): the oldest byte, or 0 when the slot at the read
        index is empty; the slot is cleared and the read index moves round. */
    method Get() returns (val: byte)
      requires Valid()
      modifies this, buffer
      ensures Valid()
      ensures (val, contents) == Dequeue(old(contents)) && overflow == old(overflow)
    {
      val := buffer[readIdx];
      if val != 0 {
        buffer[readIdx] := 0;
        ghost var r := readIdx;
        readIdx := if readIdx + 1 == Entries then 0 else readIdx + 1;
        contents := contents[1..];
        forall j | 0 <= j < Entries
          ensures buffer[j] == Expected(readIdx, contents, j)
        {
          if j != r {
            assert Offset(readIdx, j) == Offset(r, j) - 1;
          }
        }
      }
    }

    /** `ps2RxPut` (src/ps2kbd.c:83-102): a byte goes into the slot at the write index
        when that slot is empty, and is dropped when it is 0; an occupied slot raises
        `g_rxOverflow`. */
    method Put(data: byte)
      requires Valid()
      modifies this, buffer
      ensures Valid()
      ensures var (q, full) := Enqueue(old(contents), data);
              contents == q && overflow == (old(overflow) || full)
    {
      assert |contents| < Entries ==> Offset(readIdx, writeIdx) == |contents|;
      var val := buffer[writeIdx];
      if val == 0 {
        if data != 0 {
          buffer[writeIdx] := data;
          ghost var w := writeIdx;
          writeIdx := if writeIdx + 1 == Entries then 0 else writeIdx + 1;
          contents := contents + [data];
          forall j | 0 <= j < Entries
            ensures buffer[j] == Expected(readIdx, contents, j)
          {
            if j != w {
              assert Offset(readIdx, j) != |contents| - 1;
            }
          }
        }
      } else {
        overflow := true;
      }
    }

    /** What the poller does with `g_rxOverflow`: report it and clear it. */
    method TakeOverflow() returns (was: bool)
      requires Valid()
      modifies this
      ensures Valid()
      ensures was == old(overflow) && !overflow && contents == old(contents)
    {
      was := overflow;
      overflow := false;
    }
  }

  class Ps2Port {
    const ring: RxRing
    var act: Ack
    /** `rcv_byte`, `rcv_bitcount`, `ssp`. */
    var rcvByte: byte
    var rcvBitcount: nat
    var ssp: byte
    /** `send_bitcount`, `send_byte`, `send_parity`, `sr`. */
    var sendBitcount: nat
    var sendByte: byte
    var sendParity: byte
    var sr: Direction
    /** `parity_errors`, `framing_errors`, `g_requestResend`, `g_NextByteIsAct`. */
    var parityErrors: byte
    var framingErrors: byte
    var requestResend: bool
    var nextByteIsAct: bool
    /** `mode` and the static `kb_register` of `ps2ReadPoll`. */
    var mode: Ps2Mode
    var kbRegister: bv16
    /** The logs of driven levels and started frames. */
    ghost var driven: seq<bool>
    ghost var sent: seq<byte>

    /** The driver's state as a value of the model. */
    ghost function Snapshot(): Port
      reads this, ring
    {
      Port(Buffer(ring.contents, ring.overflow), Link(sr, act, nextByteIsAct),
           RxRegs(rcvBitcount, rcvByte, ssp), TxRegs(sendBitcount, sendByte, sendParity),
           Errors(parityErrors, framingErrors, requestResend), DecoderRegs(mode, kbRegister),
           Log(driven, sent))
    }

    ghost predicate Valid()
      reads this, ring, ring.buffer
    {
      ring.Valid() && rcvBitcount <= 10 && sendBitcount <= 10 && NineBits(kbRegister)
    }

    /** The static initialisers and `ps2ReadInit` without the keyboard reset. */
    constructor ()
      ensures Valid() && Snapshot() == Initial
    {
      ring := new RxRing();
      act := NoAck;
      rcvByte, rcvBitcount, ssp := 0, 0, 0;
      sendBitcount, sendByte, sendParity, sr := 0, 0, 0, Rx;
      parityErrors, framingErrors, requestResend, nextByteIsAct := 0, 0, false, false;
      mode, kbRegister := Key, 0;
      driven, sent := [], [];
    }

    /** The transmit half of the handler (src/ps2kbd.c:272-308). */
    method SendEdge()
      requires Valid() && sr == Tx
      modifies this
      ensures Valid()
      ensures Snapshot() == TxEdge(old(Snapshot()))
    {
      driven := driven + TxDrive(sendBitcount, sendByte, sendParity);
      if sendBitcount < 10 {
        sendBitcount := sendBitcount + 1;
      } else {
        sendBitcount := 0;
        sr := Rx;
        rcvBitcount := 0;
        nextByteIsAct := true;
      }
    }

    /** Receive edges 0..9 (src/ps2kbd.c:323-338): the start bit into `ssp` bit 0, data
        bit `rcv_bitcount - 1` into `rcv_byte`, the parity bit into `ssp` bit 2. */
    method ReceiveBit(high: bool)
      requires Valid() && rcvBitcount <= 9
      modifies this
      ensures Valid()
      ensures Snapshot() == old(Snapshot()).(rx := RxShift(old(Snapshot()).rx, high))
    {
      var result := BitValue(high);
      if 1 <= rcvBitcount <= 8 {
        rcvByte := rcvByte | Shl(result, rcvBitcount - 1);
      } else if rcvBitcount == 0 {
        ssp := result;
      } else {
        ssp := ssp | (result << 2);
      }
      rcvBitcount := rcvBitcount + 1;
    }

    /** `framing_error` (src/ps2kbd.c:342-345, 115-125): the count goes up; its pause is
        timing only. */
    method CountFramingError()
      requires Valid()
      modifies this
      ensures Valid()
      ensures Snapshot() == Judge(old(Snapshot()), FramingError)
    {
      framingErrors := framingErrors + 1;
    }

    /** A parity fault (src/ps2kbd.c:346-356): `g_rxAct` becomes 2 when an
        acknowledgement is expected, and `parity_error` runs otherwise. */
    method ParityFaultSeen()
      requires Valid()
      modifies this
      ensures Valid()
      ensures Snapshot() == Judge(old(Snapshot()), ParityFault)
    {
      if nextByteIsAct {
        act := AckBadParity;
      } else {
        parityErrors := parityErrors + 1;
        requestResend := true;
      }
    }

    /** A good frame (src/ps2kbd.c:357-367): 0xFA sets `g_rxAct` to 1, every other byte
        goes to `ps2RxPut`. */
    method AcceptByte(b: byte)
      requires Valid()
      modifies this, ring, ring.buffer
      ensures Valid()
      ensures Snapshot() == Judge(old(Snapshot()), Accepted(b))
    {
      if b == 0xFA {
        act := AckOk;
      } else {
        ring.Put(b);
      }
    }

    /** The decision on a completed frame (src/ps2kbd.c:342-367). */
    method JudgeFrame(verdict: FrameVerdict)
      requires Valid()
      modifies this, ring, ring.buffer
      ensures Valid()
      ensures Snapshot() == Judge(old(Snapshot()), verdict)
    {
      match verdict
      case FramingError => CountFramingError();
      case ParityFault => ParityFaultSeen();
      case Accepted(b) => AcceptByte(b);
    }

    /** The stop bit ORed into `ssp` bit 1 (src/ps2kbd.c:340-341). */
    method StoreStopBit(high: bool)
      requires Valid()
      modifies this
      ensures Valid()
      ensures Snapshot() == StoreStop(old(Snapshot()), high)
    {
      var result := BitValue(high);
      ssp := ssp | (result << 1);
    }

    /** The receiver reset after a frame (src/ps2kbd.c:368-371). */
    method ResetReceiver()
      requires Valid()
      modifies this
      ensures Valid()
      ensures Snapshot() == EndFrame(old(Snapshot()))
    {
      rcvBitcount := 0;
      rcvByte := 0;
      nextByteIsAct := false;
    }

    /** The stop-bit edge (src/ps2kbd.c:339-372): the stop bit completes `ssp`, the
        frame is judged, and `rcv_bitcount`, `rcv_byte` and `g_NextByteIsAct` are
        reset. */
    method StopBit(high: bool)
      requires Valid() && rcvBitcount == 10
      modifies this, ring, ring.buffer
      ensures Valid()
      ensures Snapshot() == StopEdge(old(Snapshot()), high)
    {
      StoreStopBit(high);
      JudgeFrame(Verdict(rcvByte, ssp));
      ResetReceiver();
    }

    /** `ISR(PS2INTVECT)` (src/ps2kbd.c:270-376), one falling clock edge with `high` the
        level read on the data line. */
    method ClockEdge(high: bool)
      requires Valid()
      modifies this, ring, ring.buffer
      ensures Valid()
      ensures Snapshot() == Edge(old(Snapshot()), high)
    {
      if sr == Tx {
        SendEdge();
      } else if rcvBitcount <= 9 {
        ReceiveBit(high);
      } else {
        StopBit(high);
      }
    }

    /** The inner `while (sr == TX)` of `sendps2` (src/ps2kbd.c:194-197): it waits while
        the handler clocks the frame out, one keyboard clock edge per pass; the data line
        is not read while sending. The loop's timeout is never part of its condition, so
        it only ends because the keyboard clocks all eleven edges. */
    method ClockOut()
      requires Valid() && sr == Tx && sendBitcount == 0
      modifies this, ring, ring.buffer
      ensures Valid()
      ensures Snapshot() == TxDone(old(Snapshot()))
    {
      ghost var s0 := Snapshot();
      while sr == Tx
        invariant Valid()
        invariant sr == Tx ==> sendBitcount <= 10 && Snapshot() == Sending(s0, sendBitcount)
        invariant sr == Rx ==> Snapshot() == TxDone(s0)
        decreases if sr == Tx then 11 - sendBitcount else 0
      {
        TxEdgeStep(s0, sendBitcount);
        ClockEdge(true);
      }
    }

    /** The edges the keyboard clocks while `sendps2` waits for `g_rxAct`. */
    method ClockIn(reply: seq<bool>)
      requires Valid()
      modifies this, ring, ring.buffer
      ensures Valid()
      ensures Snapshot() == EdgeRun(old(Snapshot()), reply)
    {
      ghost var s0 := Snapshot();
      var k := 0;
      while k < |reply|
        invariant Valid() && 0 <= k <= |reply|
        invariant Snapshot() == EdgeRun(s0, reply[..k])
      {
        ClockEdge(reply[k]);
        EdgeRunSnoc(s0, reply[..k], reply[k]);
        assert reply[..k + 1] == reply[..k] + [reply[k]];
        k := k + 1;
      }
      assert reply[..k] == reply;
    }

    /** The transmit registers loaded with the byte and its `calc_parity`, and the
        handler switched to sending (src/ps2kbd.c:166-191). */
    method LoadTx(data: byte)
      requires Valid()
      modifies this
      ensures Valid()
      ensures Snapshot() == StartTx(old(Snapshot()), data)
    {
      sendBitcount := 0;
      sendByte := data;
      sendParity := CalcParity(data);
      sr := Tx;
      sent := sent + [data];
    }

    /** One attempt of `sendps2` (src/ps2kbd.c:166-206): load the transmit registers
        with the byte and its `calc_parity`, pull the clock and data lines low and hand
        the line to the handler, wait for the frame to be clocked out, then let the
        keyboard's reply edges `reply` arrive. */
    method Attempt(data: byte, reply: seq<bool>)
      requires Valid()
      modifies this, ring, ring.buffer
      ensures Valid()
      ensures Snapshot() == Ps2State.Attempt(old(Snapshot()), data, reply)
    {
      LoadTx(data);
      ClockOut();
      ClockIn(reply);
    }

    /** A bad-parity mark left by the reply is cleared (src/ps2kbd.c:217-221). */
    method ForgetBadParity()
      requires Valid()
      modifies this
      ensures Valid()
      ensures Snapshot() == ClearBadParity(old(Snapshot()))
    {
      if act == AckBadParity {
        act := NoAck;
      }
    }

    /** One pass of the retry loop of `sendps2` (src/ps2kbd.c:164-223) with `tries`
        attempts left, the keyboard answering with the edges `replies[i]`: an attempt,
        then the decision on `g_rxAct`. `done` says whether the loop ends here. */
    method Round(data: byte, replies: seq<seq<bool>>, tries: nat, i: nat) returns (done: bool)
      requires Valid() && 1 <= tries <= 3
      modifies this, ring, ring.buffer
      ensures Valid()
      ensures done ==> act == NoAck && Snapshot() == Tries(old(Snapshot()), data, replies, tries, i)
      ensures !done ==> 2 <= tries &&
                        Tries(Snapshot(), data, replies, tries - 1, i + 1) == Tries(old(Snapshot()), data, replies, tries, i)
    {
      ghost var s := Snapshot();
      var reply := if i < |replies| then replies[i] else [];
      assert reply == ReplyAt(replies, i);
      Attempt(data, reply);
      if act == AckOk {
        TriesStop(s, data, replies, tries, i);
        act := NoAck;
        return true;
      }
      ForgetBadParity();
      if tries == 1 {
        TriesStop(s, data, replies, tries, i);
        return true;
      }
      TriesStep(s, data, replies, tries, i);
      return false;
    }

    /** `sendps2` (src/ps2kbd.c:127-226): unless the byte is the reset command 0xFF, give
        up when the bus never went idle (`busIdle`); then up to three attempts, the `i`th
        answered by the reply edges `replies[i]`; `g_rxAct` is cleared at the end. */
    method Send(data: byte, busIdle: bool, replies: seq<seq<bool>>)
      requires Valid()
      modifies this, ring, ring.buffer
      ensures Valid()
      ensures Snapshot() == SendResult(old(Snapshot()), data, busIdle, replies)
    {
      if data != 0xFF && !busIdle {
        return;
      }
      ghost var start := Snapshot();
      var tries: nat := 3;
      var i: nat := 0;
      while true
        invariant Valid() && 1 <= tries <= 3
        invariant Tries(Snapshot(), data, replies, tries, i) == Tries(start, data, replies, 3, 0)
        decreases tries
      {
        var done := Round(data, replies, tries, i);
        if done {
          break;
        }
        tries := tries - 1;
        i := i + 1;
      }
      act := NoAck;
    }

    /** `ps2ReadPoll` (src/ps2kbd.c:399-608): honour a resend request with 0xFE, report
        and clear a raised overflow flag, then take at most one scan code from the ring
        buffer and decode it, returning the event it writes through its out-parameters. */
    method ReadPoll(busIdle: bool, replies: seq<seq<bool>>) returns (overflowed: bool, emit: Option<Emission>)
      requires Valid()
      modifies this, ring, ring.buffer
      ensures Valid()
      ensures var r := PollResult(old(Snapshot()), busIdle, replies);
              Snapshot() == r.port && overflowed == r.overflow && emit == r.emit
    {
      overflowed := false;
      if requestResend {
        requestResend := false;
        Send(0xFE, busIdle, replies);
      }
      overflowed := ring.TakeOverflow();
      var scancode := ring.Get();
      emit := None;
      if scancode != 0 {
        var d := DecodeStep(mode, kbRegister, scancode);
        mode := d.mode;
        kbRegister := d.reg;
        emit := d.emit;
      }
    }

    /** `ps2SetLeds` (src/ps2kbd.c:610-613): the command 0xED, then the LED bits. */
    method SetLeds(ledBits: byte, idle1: bool, replies1: seq<seq<bool>>, idle2: bool, replies2: seq<seq<bool>>)
      requires Valid()
      modifies this, ring, ring.buffer
      ensures Valid()
      ensures Snapshot() == SetLedsResult(old(Snapshot()), ledBits, idle1, replies1, idle2, replies2)
    {
      Send(0xED, idle1, replies1);
      Send(ledBits, idle2, replies2);
    }
  }
}
