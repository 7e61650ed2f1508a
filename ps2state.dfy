/** The whole state of the PS/2 driver (src/ps2kbd.c) as one value, and what the
    clock-edge handler, `sendps2` and `ps2ReadPoll` do to it, as pure functions.
    The class Ps2Kbd.Ps2Port keeps the same state in fields and is proved to follow
    these functions exactly; the lemmas here say what they amount to over a frame,
    a command and a run of polls. */
module Ps2State {
  import opened Common
  import opened Parity
  import opened RxQueue
  import opened Ps2Frame
  import opened ScanDecoder

  /** `g_rxAct`: 0 nothing, 1 the keyboard acknowledged (0xFA), 2 the reply to a command
      had bad parity. */
  datatype Ack = NoAck | AckOk | AckBadParity

  /** `enum rxtxstate`: whether the clock-edge handler is sending or receiving. */
  datatype Direction = Tx | Rx

  /** The transmit registers `send_bitcount`, `send_byte` and `send_parity`. */
  datatype TxRegs = TxRegs(count: nat, data: byte, parity: byte)

  /** The receive ring buffer seen as a FIFO, and `g_rxOverflow`. */
  datatype Buffer = Buffer(queue: seq<byte>, overflow: bool)

  /** The handshake between the handler and `sendps2`: `sr`, `g_rxAct` and
      `g_NextByteIsAct`. */
  datatype Link = Link(sr: Direction, act: Ack, nextByteIsAct: bool)

  /** `parity_errors`, `framing_errors` and `g_requestResend`. */
  datatype Errors = Errors(parity: byte, framing: byte, requestResend: bool)

  /** The decoder state of `ps2ReadPoll`: `mode` and `kb_register`. */
  datatype DecoderRegs = DecoderRegs(mode: Ps2Mode, reg: bv16)

  /** The data-line level the host drives at each transmit edge, and the byte of every
      frame `sendps2` starts; the firmware keeps neither. */
  datatype Log = Log(driven: seq<bool>, sent: seq<byte>)

  /** Every global of the driver, grouped by the part of the driver that uses it. */
  datatype Port = Port(buf: Buffer, link: Link, rx: RxRegs, tx: TxRegs, errs: Errors,
                       dec: DecoderRegs, log: Log)

  /** The bounds every reachable state keeps. */
  predicate PortOk(p: Port)
  {
    |p.buf.queue| <= Capacity && p.rx.count <= 10 && p.tx.count <= 10 && NineBits(p.dec.reg)
  }

  /** The state after `ps2ReadInit` and the static initialisers. */
  const Initial: Port := Port(Buffer([], false), Link(Rx, NoAck, false), RxRegs(0, 0, 0),
                              TxRegs(0, 0, 0), Errors(0, 0, false), DecoderRegs(Key, 0), Log([], []))

  /** The frame a keyboard clocks out for byte `b`: start bit low, the data bits least
      significant first, odd parity, stop bit high. */
  function KeyboardFrame(b: byte): (f: seq<bool>)
    ensures |f| == 11
  {
    [false] + TxLevels(b, CalcParity(b), 11)
  }

  /** What the eleventh receive edge does with a judged frame (src/ps2kbd.c:342-367):
      count a framing error; on a parity fault mark a bad acknowledgement when an
      acknowledgement is expected and otherwise count a parity error and ask for a
      resend (`parity_error`); take 0xFA as an acknowledgement; queue every other byte. */
  function Judge(p: Port, v: FrameVerdict): (p': Port)
    requires PortOk(p)
    ensures PortOk(p')
    ensures p'.rx == p.rx && p'.tx == p.tx && p'.link.sr == p.link.sr
    ensures p'.link.nextByteIsAct == p.link.nextByteIsAct && p'.log == p.log && p'.dec == p.dec
  {
    match v
    case FramingError => p.(errs := p.errs.(framing := p.errs.framing + 1))
    case ParityFault =>
      if p.link.nextByteIsAct then p.(link := p.link.(act := AckBadParity))
      else p.(errs := p.errs.(parity := p.errs.parity + 1, requestResend := true))
    case Accepted(b) =>
      if b == 0xFA then p.(link := p.link.(act := AckOk))
      else
        var (q, full) := Enqueue(p.buf.queue, b);
        p.(buf := Buffer(q, p.buf.overflow || full))
  }

  /** A clock edge while sending (src/ps2kbd.c:272-308): the level for `send_bitcount` is
      driven, and after the eleventh edge the line is handed back to the receiver, which
      expects the acknowledgement next. `rcv_byte` is left as it was. */
  function TxEdge(p: Port): (p': Port)
    requires PortOk(p)
    ensures PortOk(p')
    ensures p'.log.sent == p.log.sent && p'.dec == p.dec
  {
    var p1 := p.(log := p.log.(driven := p.log.driven + TxDrive(p.tx.count, p.tx.data, p.tx.parity)));
    if p.tx.count < 10 then p1.(tx := p.tx.(count := p.tx.count + 1))
    else p1.(tx := p.tx.(count := 0), link := p.link.(sr := Rx, nextByteIsAct := true),
             rx := p.rx.(count := 0))
  }

  /** The stop bit ORed into `ssp` bit 1 (src/ps2kbd.c:341). */
  function StoreStop(p: Port, high: bool): (p': Port)
    requires PortOk(p)
    ensures PortOk(p')
  {
    p.(rx := p.rx.(ssp := WithStop(p.rx.ssp, high)))
  }

  /** The end of a received frame (src/ps2kbd.c:368-371): `rcv_bitcount`, `rcv_byte` and
      `g_NextByteIsAct` are reset. */
  function EndFrame(p: Port): (p': Port)
    requires PortOk(p)
    ensures PortOk(p')
  {
    p.(rx := RxRegs(0, 0, p.rx.ssp), link := p.link.(nextByteIsAct := false))
  }

  /** The eleventh receive edge (src/ps2kbd.c:339-372): the stop bit completes `ssp`, the
      frame is judged on `rcv_byte` and `ssp`, and the receiver is reset. */
  function StopEdge(p: Port, high: bool): (p': Port)
    requires PortOk(p)
    ensures PortOk(p')
    ensures p'.log.sent == p.log.sent && p'.dec == p.dec
  {
    var p1 := StoreStop(p, high);
    EndFrame(Judge(p1, Verdict(p1.rx.data, p1.rx.ssp)))
  }

  /** One falling clock edge, i.e. one run of `ISR(PS2INTVECT)` (src/ps2kbd.c:270-376),
      with `high` the level sampled on the data line. The handler never touches the
      decoder state nor starts a frame. */
  function Edge(p: Port, high: bool): (p': Port)
    requires PortOk(p)
    ensures PortOk(p')
    ensures p'.log.sent == p.log.sent && p'.dec == p.dec
  {
    if p.link.sr == Tx then TxEdge(p)
    else if p.rx.count <= 9 then p.(rx := RxShift(p.rx, high))
    else StopEdge(p, high)
  }

  /** The edges `levels`, in order. */
  function EdgeRun(p: Port, levels: seq<bool>): (p': Port)
    requires PortOk(p)
    ensures PortOk(p')
    ensures p'.log.sent == p.log.sent && p'.dec == p.dec
    decreases |levels|
  {
    if levels == [] then p else Edge(EdgeRun(p, levels[..|levels| - 1]), levels[|levels| - 1])
  }

  /** One more edge appended to a run is one more handler call. */
  lemma EdgeRunSnoc(p: Port, levels: seq<bool>, high: bool)
    requires PortOk(p)
    ensures EdgeRun(p, levels + [high]) == Edge(EdgeRun(p, levels), high)
  {
    assert (levels + [high])[..|levels|] == levels;
  }

  /** While a frame is being received, the handler only shifts the receive registers. */
  lemma {:induction false} RxEdges(p: Port, levels: seq<bool>)
    requires PortOk(p) && p.link.sr == Rx && p.rx.count + |levels| <= 10
    ensures EdgeRun(p, levels) == p.(rx := RxRun(p.rx, levels))
    decreases |levels|
  {
    if levels != [] {
      RxEdges(p, levels[..|levels| - 1]);
    }
  }

  /** The effect of a judged frame, as the protocol describes it: a framing error is
      counted; a parity fault right after a transmission marks a bad acknowledgement and
      otherwise counts a parity error and asks for a resend; 0xFA is an
      acknowledgement; every other byte is queued, or raises the overflow flag on a full
      queue. Nothing else changes. */
  predicate FrameEffect(p: Port, p': Port, v: FrameVerdict)
    requires |p.buf.queue| <= Capacity
  {
    p'.tx == p.tx && p'.log == p.log && p'.link.sr == p.link.sr && p'.dec == p.dec &&
    match v
    case FramingError =>
      p'.errs.framing == p.errs.framing + 1 && p'.errs.parity == p.errs.parity &&
      p'.errs.requestResend == p.errs.requestResend && p'.buf == p.buf && p'.link.act == p.link.act
    case ParityFault =>
      p'.buf == p.buf && p'.errs.framing == p.errs.framing &&
      (p.link.nextByteIsAct ==> p'.link.act == AckBadParity && p'.errs == p.errs) &&
      (!p.link.nextByteIsAct ==> p'.link.act == p.link.act && p'.errs.parity == p.errs.parity + 1 &&
                                 p'.errs.requestResend)
    case Accepted(b) =>
      p'.errs == p.errs &&
      (b == 0xFA ==> p'.link.act == AckOk && p'.buf == p.buf) &&
      (b != 0xFA ==> p'.link.act == p.link.act && p'.buf.queue == Enqueue(p.buf.queue, b).0 &&
                     p'.buf.overflow == (p.buf.overflow || Enqueue(p.buf.queue, b).1))
  }

  /** `Judge` has the effect `FrameEffect` describes. */
  lemma JudgeEffect(p: Port, v: FrameVerdict)
    requires PortOk(p)
    ensures FrameEffect(p, Judge(p, v), v)
  {
    match v
    case FramingError =>
    case ParityFault => JudgeParityFault(p);
    case Accepted(b) => JudgeAccepted(p, b);
  }

  lemma JudgeParityFault(p: Port)
    requires PortOk(p)
    ensures FrameEffect(p, Judge(p, ParityFault), ParityFault)
  {
    if p.link.nextByteIsAct {
      assert Judge(p, ParityFault) == p.(link := p.link.(act := AckBadParity));
    } else {
      assert Judge(p, ParityFault) == p.(errs := p.errs.(parity := p.errs.parity + 1, requestResend := true));
    }
  }

  lemma JudgeAccepted(p: Port, b: byte)
    requires PortOk(p)
    ensures FrameEffect(p, Judge(p, Accepted(b)), Accepted(b))
  {
    if b == 0xFA {
      assert Judge(p, Accepted(b)) == p.(link := p.link.(act := AckOk));
    } else {
      var (q, full) := Enqueue(p.buf.queue, b);
      assert Judge(p, Accepted(b)) == p.(buf := Buffer(q, p.buf.overflow || full));
    }
  }

  /** `FrameEffect` looks neither at the receive registers of the state before nor at
      the receive registers and `g_NextByteIsAct` of the state after. */
  lemma FrameEffectIgnoresRx(p: Port, r: RxRegs, p': Port, r': RxRegs, expectAck: bool, v: FrameVerdict)
    requires |p.buf.queue| <= Capacity && FrameEffect(p.(rx := r), p', v)
    ensures FrameEffect(p, p'.(rx := r', link := p'.link.(nextByteIsAct := expectAck)), v)
  {
    match v
    case FramingError =>
    case ParityFault =>
    case Accepted(b) =>
  }

  /** The first ten edges of a frame assemble its byte and its verdict. */
  lemma TenEdges(p: Port, f: seq<bool>)
    requires PortOk(p) && p.link.sr == Rx && p.rx.count == 0 && p.rx.data == 0 && |f| == 11
    ensures var q := EdgeRun(p, f[..10]);
            q == p.(rx := q.rx) && q.rx.count == 10 && PortOk(q) &&
            Verdict(q.rx.data, WithStop(q.rx.ssp, f[10])) == FrameMeaning(f)
  {
    RxEdges(p, f[..10]);
    ReceiveFrame(f, p.rx.ssp);
  }

  /** Eleven edges carrying a frame `f`, received from the idle state, are the judging
      of the frame's meaning after the first ten edges, with the receive registers
      reset. */
  lemma ElevenEdges(p: Port, f: seq<bool>)
    requires PortOk(p) && p.link.sr == Rx && p.rx.count == 0 && p.rx.data == 0 && |f| == 11
    ensures var q := EdgeRun(p, f[..10]);
            var q1 := q.(rx := q.rx.(ssp := WithStop(q.rx.ssp, f[10])));
            q1 == p.(rx := q1.rx) && PortOk(q1) &&
            EdgeRun(p, f) == EndFrame(Judge(q1, FrameMeaning(f)))
  {
    TenEdges(p, f);
    assert f[..10] + [f[10]] == f;
    EdgeRunSnoc(p, f[..10], f[10]);
  }

  /** Eleven edges carrying a frame `f`, received from the idle state: the registers end
      idle again, and the effect is the one the protocol gives the frame. */
  lemma ReceiveFrameEffect(p: Port, f: seq<bool>)
    requires PortOk(p) && p.link.sr == Rx && p.rx.count == 0 && p.rx.data == 0 && |f| == 11
    ensures var p' := EdgeRun(p, f);
            p'.rx.count == 0 && p'.rx.data == 0 && !p'.link.nextByteIsAct &&
            FrameEffect(p, p', FrameMeaning(f))
  {
    ElevenEdges(p, f);
    var q := EdgeRun(p, f[..10]);
    var q1 := q.(rx := q.rx.(ssp := WithStop(q.rx.ssp, f[10])));
    var judged := Judge(q1, FrameMeaning(f));
    JudgeEffect(q1, FrameMeaning(f));
    FrameEffectIgnoresRx(p, q1.rx, judged, RxRegs(0, 0, q1.rx.ssp), false, FrameMeaning(f));
  }

  /** A run of edges split in two is the second part run after the first. */
  lemma {:induction false} EdgeRunAppend(p: Port, a: seq<bool>, b: seq<bool>)
    requires PortOk(p)
    ensures EdgeRun(p, a + b) == EdgeRun(EdgeRun(p, a), b)
    decreases |b|
  {
    if b == [] {
      assert a + b == a;
    } else {
      var b0, x := b[..|b| - 1], b[|b| - 1];
      assert a + b == (a + b0) + [x];
      EdgeRunSnoc(p, a + b0, x);
      EdgeRunAppend(p, a, b0);
    }
  }

  /** The edges of frames received one after the other. */
  function Concat(frames: seq<seq<bool>>): seq<bool>
    decreases |frames|
  {
    if frames == [] then [] else Concat(frames[..|frames| - 1]) + frames[|frames| - 1]
  }

  /** Every frame is eleven levels long. */
  predicate Frames(frames: seq<seq<bool>>)
  {
    forall i :: 0 <= i < |frames| ==> |frames[i]| == 11
  }

  /** The byte a frame hands to the ring buffer: an accepted byte that is neither the
      acknowledgement 0xFA nor 0, the buffer's empty mark. */
  function FrameBytes(f: seq<bool>): seq<byte>
    requires |f| == 11
  {
    match FrameMeaning(f)
    case Accepted(b) => if b != 0xFA && b != 0 then [b] else []
    case _ => []
  }

  /** The bytes a run of frames hands to the ring buffer, in order. */
  function Delivered(frames: seq<seq<bool>>): seq<byte>
    requires Frames(frames)
    decreases |frames|
  {
    if frames == [] then [] else Delivered(frames[..|frames| - 1]) + FrameBytes(frames[|frames| - 1])
  }

  /** One frame received from the idle state, seen from the buffer: its byte is queued
      unless the flag goes up, the flag goes up only on a full buffer and never comes
      down, and the receiver ends idle. */
  lemma OneFrameReachesQueue(p: Port, f: seq<bool>)
    requires PortOk(p) && p.link.sr == Rx && p.rx.count == 0 && p.rx.data == 0 && |f| == 11
    ensures var p' := EdgeRun(p, f);
            (!p'.buf.overflow ==> p'.buf.queue == p.buf.queue + FrameBytes(f)) &&
            (|p.buf.queue| + |FrameBytes(f)| < Capacity ==> p'.buf.overflow == p.buf.overflow) &&
            (p.buf.overflow ==> p'.buf.overflow) &&
            p'.link.sr == Rx && p'.rx.count == 0 && p'.rx.data == 0
  {
    ReceiveFrameEffect(p, f);
    var p' := EdgeRun(p, f);
    match FrameMeaning(f)
    case FramingError =>
      assert p'.buf == p.buf;
    case ParityFault =>
      assert p'.buf == p.buf;
    case Accepted(b) =>
      if b == 0xFA {
        assert p'.buf == p.buf;
      } else if b == 0 {
        assert !p'.buf.overflow ==> p'.buf.queue == p.buf.queue;
      } else {
        assert !p'.buf.overflow ==> p'.buf.queue == p.buf.queue + [b];
      }
  }

  /** Any run of 11-edge frames received from the idle state: while the overflow flag
      stays down, every accepted byte other than 0xFA and 0 is queued exactly once and
      in the order of its frame; the flag stays as it was when the buffer never
      fills; and the receiver ends idle. */
  lemma {:induction false} FramesReachQueue(p: Port, frames: seq<seq<bool>>)
    requires PortOk(p) && p.link.sr == Rx && p.rx.count == 0 && p.rx.data == 0 && Frames(frames)
    ensures var p' := EdgeRun(p, Concat(frames));
            (!p'.buf.overflow ==> p'.buf.queue == p.buf.queue + Delivered(frames)) &&
            (|p.buf.queue| + |Delivered(frames)| < Capacity ==> p'.buf.overflow == p.buf.overflow) &&
            (p.buf.overflow ==> p'.buf.overflow) &&
            p'.link.sr == Rx && p'.rx.count == 0 && p'.rx.data == 0
    decreases |frames|
  {
    if frames == [] {
      assert Concat(frames) == [];
    } else {
      var init, last := frames[..|frames| - 1], frames[|frames| - 1];
      assert Frames(init);
      FramesReachQueue(p, init);
      var q := EdgeRun(p, Concat(init));
      EdgeRunAppend(p, Concat(init), last);
      OneFrameReachesQueue(q, last);
      assert Delivered(frames) == Delivered(init) + FrameBytes(last);
      assert p.buf.queue + Delivered(init) + FrameBytes(last) == p.buf.queue + Delivered(frames);
    }
  }

  /** A frame `n` edges into sending, from a start with the bit counter at 0: the
      counter is at `n` and the first `n` levels are driven. */
  function Sending(p: Port, n: nat): (p': Port)
    requires PortOk(p) && n <= 10
    ensures PortOk(p')
  {
    p.(tx := p.tx.(count := n), log := p.log.(driven := p.log.driven + TxLevels(p.tx.data, p.tx.parity, n)))
  }

  /** The state once the handler has clocked a whole frame out: the ten levels of the
      frame are driven and the line is handed back to the receiver, which expects the
      acknowledgement next. `rcv_byte` is left as it was. */
  function TxDone(p: Port): (p': Port)
    requires PortOk(p)
    ensures PortOk(p')
  {
    p.(tx := p.tx.(count := 0), link := p.link.(sr := Rx, nextByteIsAct := true), rx := p.rx.(count := 0),
       log := p.log.(driven := p.log.driven + TxLevels(p.tx.data, p.tx.parity, 11)))
  }

  /** Each transmit edge drives the next level of the frame; the eleventh hands the line
      back. */
  lemma TxEdgeStep(p: Port, n: nat)
    requires PortOk(p) && p.link.sr == Tx && p.tx.count == 0 && n <= 10
    ensures Sending(p, n).link.sr == Tx
    ensures n < 10 ==> Edge(Sending(p, n), true) == Sending(p, n + 1)
    ensures n == 10 ==> Edge(Sending(p, n), true) == TxDone(p)
  {
    var q := Sending(p, n);
    assert Edge(q, true) == TxEdge(q);
    assert p.log.driven + TxLevels(p.tx.data, p.tx.parity, n + 1) ==
           (p.log.driven + TxLevels(p.tx.data, p.tx.parity, n)) + TxDrive(n, p.tx.data, p.tx.parity);
  }

  /** While a frame is being sent, the handler only counts edges and drives the line,
      whatever the data line reads. */
  lemma {:induction false} TxEdges(p: Port, levels: seq<bool>)
    requires PortOk(p) && p.link.sr == Tx && p.tx.count == 0 && |levels| <= 10
    ensures EdgeRun(p, levels) == Sending(p, |levels|)
    decreases |levels|
  {
    if levels != [] {
      var n := |levels|;
      TxEdges(p, levels[..n - 1]);
      assert p.log.driven + TxLevels(p.tx.data, p.tx.parity, n) ==
             (p.log.driven + TxLevels(p.tx.data, p.tx.parity, n - 1)) + TxDrive(n - 1, p.tx.data, p.tx.parity);
    }
  }

  /** Eleven edges clock a whole frame out, whatever the data line reads meanwhile. */
  lemma TransmitFrameEffect(p: Port, levels: seq<bool>)
    requires PortOk(p) && p.link.sr == Tx && p.tx.count == 0 && |levels| == 11
    ensures EdgeRun(p, levels) == TxDone(p)
  {
    TxEdges(p, levels[..10]);
    assert levels[..10] + [levels[10]] == levels;
    EdgeRunSnoc(p, levels[..10], levels[10]);
    assert TxLevels(p.tx.data, p.tx.parity, 11) == TxLevels(p.tx.data, p.tx.parity, 10);
  }

  /** The start of one `sendps2` attempt (src/ps2kbd.c:166-191): the transmit registers
      are loaded with the byte and its `calc_parity`, and the handler is switched to
      sending. */
  function StartTx(p: Port, data: byte): (p': Port)
    requires PortOk(p)
    ensures PortOk(p') && p'.link.sr == Tx && p'.tx.count == 0
  {
    p.(tx := TxRegs(0, data, CalcParity(data)), link := p.link.(sr := Tx),
       log := p.log.(sent := p.log.sent + [data]))
  }

  /** The edges the keyboard clocks during the acknowledgement wait of attempt `i`;
      none when it stays silent. */
  function ReplyAt(replies: seq<seq<bool>>, i: nat): seq<bool>
  {
    if i < |replies| then replies[i] else []
  }

  /** One attempt: the frame is clocked out (`TransmitFrameEffect`), then the reply
      edges arrive while `sendps2` waits for `g_rxAct`. */
  function Attempt(p: Port, data: byte, reply: seq<bool>): (p': Port)
    requires PortOk(p)
    ensures PortOk(p') && p'.log.sent == p.log.sent + [data]
  {
    EdgeRun(TxDone(StartTx(p, data)), reply)
  }

  /** After an attempt that was not acknowledged, a bad-parity mark is cleared
      (src/ps2kbd.c:217-221) and the next attempt starts from there. */
  function ClearBadParity(p: Port): (p': Port)
    ensures p'.link.act != AckBadParity
    ensures p.link.act != AckOk ==> p'.link.act == NoAck
    ensures p' == p.(link := p.link.(act := p'.link.act))
  {
    match p.link.act
    case AckBadParity => p.(link := p.link.(act := NoAck))
    case NoAck => p
    case AckOk => p
  }

  /** The retry loop of `sendps2` (src/ps2kbd.c:163-224) with `tries` attempts left:
      stop at the first acknowledgement, otherwise clear a bad-parity mark and try again,
      at most three times in all; `g_rxAct` is cleared on the way out. */
  function Tries(p: Port, data: byte, replies: seq<seq<bool>>, tries: nat, i: nat): (p': Port)
    requires PortOk(p) && 1 <= tries <= 3
    ensures PortOk(p')
    decreases tries
  {
    var p1 := Attempt(p, data, ReplyAt(replies, i));
    if p1.link.act == AckOk then p1.(link := p1.link.(act := NoAck))
    else if tries == 1 then p1.(link := p1.link.(act := NoAck))
    else Tries(ClearBadParity(p1), data, replies, tries - 1, i + 1)
  }

  /** `sendps2(data)`. Except for the reset command 0xFF it first waits for the bus to
      stay idle for a while and gives up without sending anything when it does not;
      `busIdle` says whether it did. */
  function SendResult(p: Port, data: byte, busIdle: bool, replies: seq<seq<bool>>): (p': Port)
    requires PortOk(p)
    ensures PortOk(p')
    ensures data != 0xFF && !busIdle ==> p' == p
  {
    if data != 0xFF && !busIdle then p else Tries(p, data, replies, 3, 0)
  }

  /** An attempt that is not acknowledged, with tries left, is followed by the rest of
      the loop from the cleared state. */
  lemma TriesStep(p: Port, data: byte, replies: seq<seq<bool>>, tries: nat, i: nat)
    requires PortOk(p) && 2 <= tries <= 3
    requires Attempt(p, data, ReplyAt(replies, i)).link.act != AckOk
    ensures var p2 := ClearBadParity(Attempt(p, data, ReplyAt(replies, i)));
            PortOk(p2) && p2.log.sent == p.log.sent + [data] &&
            Tries(p, data, replies, tries, i) == Tries(p2, data, replies, tries - 1, i + 1)
  {
  }

  /** An attempt that is acknowledged, or the last one, ends the loop. */
  lemma TriesStop(p: Port, data: byte, replies: seq<seq<bool>>, tries: nat, i: nat)
    requires PortOk(p) && 1 <= tries <= 3
    requires Attempt(p, data, ReplyAt(replies, i)).link.act == AckOk || tries == 1
    ensures var p1 := Attempt(p, data, ReplyAt(replies, i));
            var p' := Tries(p, data, replies, tries, i);
            p' == p1.(link := p1.link.(act := NoAck)) && p'.log.sent == p.log.sent + [data]
  {
  }

  /** The retry loop starts one to `tries` frames of `data` and leaves `g_rxAct` clear. */
  lemma {:induction false} TriesBounded(p: Port, data: byte, replies: seq<seq<bool>>, tries: nat, i: nat)
    requires PortOk(p) && 1 <= tries <= 3
    ensures var p' := Tries(p, data, replies, tries, i);
            var n := |p'.log.sent| - |p.log.sent|;
            p'.link.act == NoAck && 1 <= n <= tries && p'.log.sent == p.log.sent + Repeat(data, n)
    decreases tries
  {
    var p1 := Attempt(p, data, ReplyAt(replies, i));
    if p1.link.act != AckOk && tries > 1 {
      var p2 := ClearBadParity(p1);
      TriesStep(p, data, replies, tries, i);
      TriesBounded(p2, data, replies, tries - 1, i + 1);
      var rest := Tries(p2, data, replies, tries - 1, i + 1);
      var n := |rest.log.sent| - |p2.log.sent|;
      RepeatGrows(p.log.sent, data, n);
    } else {
      TriesStop(p, data, replies, tries, i);
      assert Repeat(data, 1) == [data];
    }
  }

  /** `sendps2` sends the byte one to three times, or not at all when the bus never went
      idle, and always returns with `g_rxAct` clear. */
  lemma SendAttempts(p: Port, data: byte, busIdle: bool, replies: seq<seq<bool>>)
    requires PortOk(p) && (data == 0xFF || busIdle)
    ensures var p' := SendResult(p, data, busIdle, replies);
            var n := |p'.log.sent| - |p.log.sent|;
            p'.link.act == NoAck && 1 <= n <= 3 && p'.log.sent == p.log.sent + Repeat(data, n)
  {
    TriesBounded(p, data, replies, 3, 0);
  }

  /** The reset command 0xFF is sent even when the bus is busy. */
  lemma ResetNeverWaits(p: Port, busIdle: bool, replies: seq<seq<bool>>)
    requires PortOk(p)
    ensures SendResult(p, 0xFF, busIdle, replies) == SendResult(p, 0xFF, true, replies)
  {
  }

  /** A keyboard that answers the first frame with a well-formed 0xFA ends `sendps2` after
      one attempt: the frame and its levels went out once and the queue is untouched. */
  lemma AckedAtFirstAttempt(p: Port, data: byte, busIdle: bool, replies: seq<seq<bool>>)
    requires PortOk(p) && p.link.act == NoAck && p.rx.data == 0 && (data == 0xFF || busIdle)
    requires |replies| > 0 && replies[0] == KeyboardFrame(0xFA)
    ensures var p' := SendResult(p, data, busIdle, replies);
            p'.log.sent == p.log.sent + [data] && p'.link.act == NoAck && p'.buf.queue == p.buf.queue &&
            p'.log.driven == p.log.driven + TxLevels(data, CalcParity(data), 11)
  {
    var t := TxDone(StartTx(p, data));
    ReceiveFrameEffect(t, KeyboardFrame(0xFA));
    TransmitThenReceive(0xFA);
    assert Attempt(p, data, ReplyAt(replies, 0)).link.act == AckOk;
  }

  /** A keyboard that never answers gets the byte three times. */
  lemma {:induction false} SilentKeyboard(p: Port, data: byte, tries: nat, i: nat)
    requires PortOk(p) && p.link.act != AckOk && 1 <= tries <= 3
    ensures var p' := Tries(p, data, [], tries, i);
            p'.log.sent == p.log.sent + Repeat(data, tries) && p'.link.act == NoAck && p'.buf == p.buf
    decreases tries
  {
    var t := Attempt(p, data, ReplyAt([], i));
    assert t == TxDone(StartTx(p, data));
    if tries > 1 {
      TriesStep(p, data, [], tries, i);
      SilentKeyboard(ClearBadParity(t), data, tries - 1, i + 1);
      assert p.log.sent + [data] + Repeat(data, tries - 1) == p.log.sent + Repeat(data, tries);
    } else {
      TriesStop(p, data, [], tries, i);
      assert Repeat(data, 1) == [data];
    }
  }

  /** An acknowledgement left over from an unsolicited 0xFA ends the next `sendps2` after
      one frame, although the keyboard did not answer it: `g_rxAct` is not cleared
      before the wait. */
  lemma StaleAckEndsSend(p: Port, data: byte, busIdle: bool, replies: seq<seq<bool>>)
    requires PortOk(p) && p.link.act == AckOk && (data == 0xFF || busIdle)
    requires ReplyAt(replies, 0) == []
    ensures SendResult(p, data, busIdle, replies).log.sent == p.log.sent + [data]
  {
    assert Attempt(p, data, ReplyAt(replies, 0)) == TxDone(StartTx(p, data));
  }

  /** `ps2SetLeds` (src/ps2kbd.c:610-613): the command 0xED, then the LED bits, each
      sent as by `sendps2`. */
  function SetLedsResult(p: Port, ledBits: byte, idle1: bool, replies1: seq<seq<bool>>,
                         idle2: bool, replies2: seq<seq<bool>>): (p': Port)
    requires PortOk(p)
    ensures PortOk(p')
  {
    SendResult(SendResult(p, 0xED, idle1, replies1), ledBits, idle2, replies2)
  }

  /** When the bus goes idle both times, the LED command goes out one to three times and
      is followed by the LED bits, one to three times. */
  lemma SetLedsSendsCommandThenBits(p: Port, ledBits: byte, replies1: seq<seq<bool>>, replies2: seq<seq<bool>>)
    requires PortOk(p)
    ensures var p' := SetLedsResult(p, ledBits, true, replies1, true, replies2);
            exists n, m :: 1 <= n <= 3 && 1 <= m <= 3 &&
              p'.log.sent == p.log.sent + Repeat(0xED, n) + Repeat(ledBits, m) && p'.link.act == NoAck
  {
    var p1 := SendResult(p, 0xED, true, replies1);
    SendAttempts(p, 0xED, true, replies1);
    SendAttempts(p1, ledBits, true, replies2);
    var n := |p1.log.sent| - |p.log.sent|;
    var p2 := SendResult(p1, ledBits, true, replies2);
    var m := |p2.log.sent| - |p1.log.sent|;
    assert p2.log.sent == p.log.sent + Repeat(0xED, n) + Repeat(ledBits, m);
  }

  /** What `ps2ReadPoll` hands back: the new state, its return value and the event it
      writes through its out-parameters, if any. */
  datatype PollOut = PollOut(port: Port, overflow: bool, emit: Option<Emission>)

  /** `ps2ReadPoll` (src/ps2kbd.c:399-608): a resend request left by the handler is
      honoured first with the command 0xFE; a raised overflow flag is returned once and
      cleared; then at most one scan code is taken from the queue and decoded. */
  function PollResult(p: Port, busIdle: bool, replies: seq<seq<bool>>): (r: PollOut)
    requires PortOk(p)
    ensures PortOk(r.port)
    ensures r.overflow ==> !r.port.buf.overflow
  {
    var p1 := if p.errs.requestResend
              then SendResult(p.(errs := p.errs.(requestResend := false)), 0xFE, busIdle, replies)
              else p;
    var (sc, q) := Dequeue(p1.buf.queue);
    if sc == 0 then PollOut(p1.(buf := p1.buf.(overflow := false)), p1.buf.overflow, None)
    else
      var d := DecodeStep(p1.dec.mode, p1.dec.reg, sc);
      PollOut(p1.(buf := Buffer(q, false), dec := DecoderRegs(d.mode, d.reg)), p1.buf.overflow, d.emit)
  }

  /** A parity error is answered with one resend command 0xFE, when the bus goes idle. */
  lemma ParityErrorRequestsResend(p: Port, busIdle: bool, replies: seq<seq<bool>>)
    requires PortOk(p) && p.errs.requestResend
    ensures var r := PollResult(p, busIdle, replies);
            (busIdle ==> |r.port.log.sent| > |p.log.sent| && r.port.log.sent[|p.log.sent|] == 0xFE) &&
            (!busIdle ==> r.port.log.sent == p.log.sent)
  {
    if busIdle {
      SendAttempts(p.(errs := p.errs.(requestResend := false)), 0xFE, true, replies);
    }
  }

  /** The overflow flag is reported by exactly one poll: a second poll reports it only if
      the queue overflowed again in between. */
  lemma OverflowReportedOnce(p: Port, busIdle: bool, replies: seq<seq<bool>>)
    requires PortOk(p) && p.buf.overflow && !p.errs.requestResend
    ensures var r := PollResult(p, busIdle, replies);
            r.overflow && !r.port.errs.requestResend &&
            !PollResult(r.port, busIdle, replies).overflow
  {
  }

  /** A poll that finds the buffer empty writes nothing through its out-parameters and leaves
      the decoder's mode and register as they were. */
  lemma EmptyPollEmitsNothing(p: Port, busIdle: bool, replies: seq<seq<bool>>)
    requires PortOk(p) && !p.errs.requestResend && p.buf.queue == []
    ensures var r := PollResult(p, busIdle, replies);
            r.emit.None? && r.port.dec == p.dec && r.port.buf.queue == [] &&
            r.overflow == p.buf.overflow
  {
  }

  /** `n` polls without resend requests, and the scan codes they decode. */
  function PollRun(p: Port, n: nat): (r: (Port, seq<Emission>))
    requires PortOk(p)
    ensures PortOk(r.0)
    decreases n
  {
    if n == 0 then (p, [])
    else
      var out := PollResult(p, true, []);
      var rest := PollRun(out.port, n - 1);
      (rest.0, (if out.emit.Some? then [out.emit.value] else []) + rest.1)
  }

  /** Polling hands the queued scan codes to the decoder one at a time, in order: `n`
      polls emit exactly what `DecodeRun` emits for the first `n` queued codes, and leave
      the rest queued. */
  lemma {:induction false} PollsDecodeQueue(p: Port, n: nat)
    requires PortOk(p) && !p.errs.requestResend && n <= |p.buf.queue|
    requires forall i :: 0 <= i < |p.buf.queue| ==> p.buf.queue[i] != 0
    ensures var r := PollRun(p, n);
            var d := DecodeRun(p.dec.mode, p.dec.reg, p.buf.queue[..n]);
            r.1 == d.2 && r.0.dec == DecoderRegs(d.0, d.1) && r.0.buf.queue == p.buf.queue[n..]
    decreases n
  {
    if n > 0 {
      var q := p.buf.queue;
      var out := PollResult(p, true, []);
      var step := DecodeStep(p.dec.mode, p.dec.reg, q[0]);
      assert out.port.buf.queue == q[1..];
      assert out.port.dec == DecoderRegs(step.mode, step.reg) && out.emit == step.emit;
      PollsDecodeQueue(out.port, n - 1);
      assert q[..n] == [q[0]] + q[1..][..n - 1];
      RunCons(p.dec.mode, p.dec.reg, q[0], q[1..][..n - 1]);
      assert q[1..][n - 1..] == q[n..];
    }
  }
}
