/** Bit-level framing of the PS/2 clock-edge handler `ISR(PS2INTVECT)`
    (src/ps2kbd.c:270-376), as pure step functions over the handler's registers.
    The class Ps2Kbd.Ps2Port applies these steps to its fields, one clock edge per
    call; the lemmas here say what a whole 11-edge frame amounts to. */
module Ps2Frame {
  import opened Common
  import opened Parity

  /** The receive registers: `rcv_bitcount`, `rcv_byte` and `ssp`
      (bit 0 start, bit 1 stop, bit 2 parity). */
  datatype RxRegs = RxRegs(count: nat, data: byte, ssp: byte)

  /** One receive edge with bit count 0..9 (src/ps2kbd.c:323-338): edge 0 stores the
      start bit in `ssp` bit 0, edges 1..8 OR the data bit into `rcv_byte` at position
      count - 1, edge 9 stores the parity bit in `ssp` bit 2. */
  function RxShift(r: RxRegs, high: bool): (r': RxRegs)
    requires r.count <= 9
    ensures r'.count == r.count + 1
  {
    var result := BitValue(high);
    if 1 <= r.count <= 8 then r.(count := r.count + 1, data := r.data | Shl(result, r.count - 1))
    else if r.count == 0 then r.(count := 1, ssp := result)
    else r.(count := 10, ssp := r.ssp | (result << 2))
  }

  /** The receive registers after the edges `bits`, in order. */
  function RxRun(r: RxRegs, bits: seq<bool>): (r': RxRegs)
    requires r.count + |bits| <= 10
    ensures r'.count == r.count + |bits|
    decreases |bits|
  {
    if bits == [] then r else RxShift(RxRun(r, bits[..|bits| - 1]), bits[|bits| - 1])
  }

  /** `ssp` once the stop bit (edge 10) is ORed into bit 1 (src/ps2kbd.c:341). */
  function WithStop(ssp: byte, high: bool): byte
  {
    ssp | (BitValue(high) << 1)
  }

  /** How the handler classifies a completed frame. */
  datatype FrameVerdict = FramingError | ParityFault | Accepted(value: byte)

  /** The decision of src/ps2kbd.c:342-367, on `rcv_byte` and the final `ssp`: the frame
      is a framing error when `ssp` bit 1 (the stop bit) is clear — bit 0, the start bit,
      is not looked at, although the comment says so — and a parity fault when the
      received parity bit equals `calc_parity(rcv_byte)`. */
  function Verdict(data: byte, ssp: byte): FrameVerdict
  {
    if ssp & 0x02 != 0x02 then FramingError
    else if CalcParity(data) == ssp >> 2 then ParityFault
    else Accepted(data)
  }

  /** The byte an 11-bit frame carries: bits 1..8, least significant first. */
  function FrameByte(f: seq<bool>): byte
    requires |f| == 11
  {
    BitValue(f[1]) | (BitValue(f[2]) << 1) | (BitValue(f[3]) << 2) | (BitValue(f[4]) << 3) |
    (BitValue(f[5]) << 4) | (BitValue(f[6]) << 5) | (BitValue(f[7]) << 6) | (BitValue(f[8]) << 7)
  }

  /** The reading the protocol gives an 11-bit frame, with the stop bit checked and the
      start bit ignored as the firmware does: a frame with a low stop bit is a framing
      error, one without odd parity a parity fault, every other one carries its byte. */
  function FrameMeaning(f: seq<bool>): FrameVerdict
    requires |f| == 11
  {
    if !f[10] then FramingError
    else if !OddFrame(FrameByte(f), BitValue(f[9])) then ParityFault
    else Accepted(FrameByte(f))
  }

  /** One more edge appended to a run is one more receive step. */
  lemma RxRunSnoc(r: RxRegs, f: seq<bool>, n: nat)
    requires n < |f| && r.count + n + 1 <= 10
    ensures RxRun(r, f[..n + 1]) == RxShift(RxRun(r, f[..n]), f[n])
  {
    assert f[..n + 1][..n] == f[..n];
  }

  /** The byte assembled from frame bits 1..k, bit i + 1 at position i. */
  function PartialByte(f: seq<bool>, k: nat): byte
    requires k < |f| && k <= 8
  {
    if k == 0 then 0 else PartialByte(f, k - 1) | Shl(BitValue(f[k]), k - 1)
  }

  /** After edges 0..k of a run from a reset state, `rcv_byte` holds frame bits 1..k
      and `ssp` the start bit. */
  lemma {:induction false} DataPrefix(r0: RxRegs, f: seq<bool>, k: nat)
    requires r0.count == 0 && r0.data == 0 && |f| == 11 && k <= 8
    ensures RxRun(r0, f[..k + 1]).data == PartialByte(f, k)
    ensures RxRun(r0, f[..k + 1]).ssp == BitValue(f[0])
  {
    RxRunSnoc(r0, f, k);
    if k == 0 {
      assert f[..0] == [];
    } else {
      DataPrefix(r0, f, k - 1);
    }
  }

  lemma FullByte(f: seq<bool>)
    requires |f| == 11
    ensures PartialByte(f, 8) == FrameByte(f)
  {
    assert PartialByte(f, 1) == BitValue(f[1]);
    assert PartialByte(f, 2) == PartialByte(f, 1) | (BitValue(f[2]) << 1);
    assert PartialByte(f, 3) == PartialByte(f, 2) | (BitValue(f[3]) << 2);
    assert PartialByte(f, 4) == PartialByte(f, 3) | (BitValue(f[4]) << 3);
    assert PartialByte(f, 5) == PartialByte(f, 4) | (BitValue(f[5]) << 4);
    assert PartialByte(f, 6) == PartialByte(f, 5) | (BitValue(f[6]) << 5);
    assert PartialByte(f, 7) == PartialByte(f, 6) | (BitValue(f[7]) << 6);
    assert PartialByte(f, 8) == PartialByte(f, 7) | (BitValue(f[8]) << 7);
  }

  /** The first ten edges of a frame, from a reset state, leave the data bits in
      `rcv_byte` least significant first, the start bit in `ssp` bit 0 and the parity
      bit in `ssp` bit 2. */
  lemma AssembleFrame(f: seq<bool>, ssp: byte)
    requires |f| == 11
    ensures var r := RxRun(RxRegs(0, 0, ssp), f[..10]);
            r.data == FrameByte(f) && r.ssp == BitValue(f[0]) | (BitValue(f[9]) << 2)
  {
    var r0 := RxRegs(0, 0, ssp);
    DataPrefix(r0, f, 8);
    FullByte(f);
    RxRunSnoc(r0, f, 9);
  }

  /** The decision on an assembled frame: only the stop bit and the parity are checked. */
  lemma VerdictOfFrame(data: byte, start: bool, parity: bool, stop: bool)
    ensures Verdict(data, WithStop(BitValue(start) | (BitValue(parity) << 2), stop)) ==
            if !stop then FramingError
            else if !OddFrame(data, BitValue(parity)) then ParityFault
            else Accepted(data)
  {
    var ssp := WithStop(BitValue(start) | (BitValue(parity) << 2), stop);
    assert (ssp & 0x02 == 0x02) == stop;
    assert ssp >> 2 == BitValue(parity);
    ReceiverAcceptsExactlyOddFrames(data, BitValue(parity));
  }

  /** Feeding the 11 edges of a frame to the receive path from a reset state
      (`rcv_bitcount` and `rcv_byte` 0, any left-over `ssp`) assembles the data bits
      least significant first, and the final decision is the protocol's reading of the
      frame: a framing error only for a low stop bit, otherwise accepted exactly when
      the frame has odd parity. */
  lemma ReceiveFrame(f: seq<bool>, ssp: byte)
    requires |f| == 11
    ensures var r := RxRun(RxRegs(0, 0, ssp), f[..10]);
            r.data == FrameByte(f) && Verdict(r.data, WithStop(r.ssp, f[10])) == FrameMeaning(f)
  {
    AssembleFrame(f, ssp);
    VerdictOfFrame(FrameByte(f), f[0], f[9], f[10]);
  }

  /** The start bit is never checked: two frames that differ only in bit 0 get the same
      decision. */
  lemma StartBitIgnored(f: seq<bool>, g: seq<bool>, ssp: byte)
    requires |f| == 11 && |g| == 11 && f[1..] == g[1..]
    ensures var rf := RxRun(RxRegs(0, 0, ssp), f[..10]);
            var rg := RxRun(RxRegs(0, 0, ssp), g[..10]);
            Verdict(rf.data, WithStop(rf.ssp, f[10])) == Verdict(rg.data, WithStop(rg.ssp, g[10]))
  {
    ReceiveFrame(f, ssp);
    ReceiveFrame(g, ssp);
    forall i | 1 <= i < 11 ensures f[i] == g[i] {
      assert f[i] == f[1..][i - 1] && g[i] == g[1..][i - 1];
    }
    assert FrameByte(f) == FrameByte(g);
  }

  /** The level the host puts on the data line at a transmit edge, by `send_bitcount`
      (src/ps2kbd.c:273-297): `true` is released (high), `false` pulled low. Edges 0..7
      drive the data bits least significant first, edge 8 pulls the line low exactly when
      `send_parity` is set, edge 9 releases it for the stop bit; edge 10 drives nothing. */
  function TxDrive(count: nat, data: byte, parity: byte): (levels: seq<bool>)
    requires count <= 10
    ensures |levels| == if count < 10 then 1 else 0
  {
    if count <= 7 then [Shr(data, count) & 1 == 1]
    else if count == 8 then [parity == 0]
    else if count == 9 then [true]
    else []
  }

  /** The levels driven by the first `n` transmit edges of one frame. */
  function TxLevels(data: byte, parity: byte, n: nat): (levels: seq<bool>)
    requires n <= 11
    ensures |levels| == if n <= 10 then n else 10
  {
    if n == 0 then [] else TxLevels(data, parity, n - 1) + TxDrive(n - 1, data, parity)
  }

  /** Edge `k` of a frame contributes entry `k` of the driven levels. */
  lemma {:induction false} TxLevelsAt(data: byte, parity: byte, n: nat, k: nat)
    requires k < n <= 11 && k < 10
    ensures TxLevels(data, parity, n)[k] == TxDrive(k, data, parity)[0]
    decreases n
  {
    if k < n - 1 {
      TxLevelsAt(data, parity, n - 1, k);
      if n - 1 < 10 {
        assert TxLevels(data, parity, n) == TxLevels(data, parity, n - 1) + TxDrive(n - 1, data, parity);
      }
    }
  }

  /** A whole transmitted frame, with `send_parity = calc_parity(send_byte)` as `sendps2`
      sets it: the eight data bits least significant first, then a parity level that
      makes the frame odd, then a released stop bit. */
  lemma TransmitFrame(data: byte)
    ensures var lv := TxLevels(data, CalcParity(data), 11);
            |lv| == 10 &&
            (forall k :: 0 <= k < 8 ==> lv[k] == (BitAt(data, k) == 1)) &&
            OddFrame(data, BitValue(lv[8])) && lv[9]
  {
    var p := CalcParity(data);
    forall k | 0 <= k < 10 ensures TxLevels(data, p, 11)[k] == TxDrive(k, data, p)[0] {
      TxLevelsAt(data, p, 11, k);
    }
    TransmitterSendsOddFrames(data);
  }

  /** Round trip: the start bit the host holds low before releasing the clock
      (src/ps2kbd.c:182-191) followed by the levels of one transmitted frame and the
      stop bit is a frame the protocol reads back as the byte that was sent. */
  lemma TransmitThenReceive(data: byte)
    ensures var f := [false] + TxLevels(data, CalcParity(data), 11);
            |f| == 11 && FrameMeaning(f) == Accepted(data)
  {
    TransmitFrame(data);
    var lv := TxLevels(data, CalcParity(data), 11);
    var f := [false] + lv;
    assert forall k :: 0 <= k < 8 ==> f[k + 1] == (BitAt(data, k) == 1);
    assert BitValue(f[1]) == BitAt(data, 0) && BitValue(f[2]) == BitAt(data, 1);
    assert BitValue(f[3]) == BitAt(data, 2) && BitValue(f[4]) == BitAt(data, 3);
    assert BitValue(f[5]) == BitAt(data, 4) && BitValue(f[6]) == BitAt(data, 5);
    assert BitValue(f[7]) == BitAt(data, 6) && BitValue(f[8]) == BitAt(data, 7);
    assert FrameByte(f) == data;
  }
}
