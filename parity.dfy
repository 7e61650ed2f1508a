/** Odd parity of the IBM PS/2 keyboard protocol (src/ps2kbd.c, `calc_parity`).
    A frame is 11 bits: a start bit (0), eight data bits least significant first,
    a parity bit chosen so that the data bits and the parity bit together hold
    an odd number of ones, and a stop bit (1). */
module Parity {
  import opened Common

  /** Bit `k` of `x`, as 0 or 1. */
  function BitAt(x: byte, k: nat): byte
    requires k < 8
  {
    Shr(x, k) & 1
  }

  /** The number of one bits in `x`: the independent reference for the parity. */
  function Ones(x: byte): (n: nat)
    ensures n <= 8
  {
    (if x & 0x01 != 0 then 1 else 0) + (if x & 0x02 != 0 then 1 else 0) +
    (if x & 0x04 != 0 then 1 else 0) + (if x & 0x08 != 0 then 1 else 0) +
    (if x & 0x10 != 0 then 1 else 0) + (if x & 0x20 != 0 then 1 else 0) +
    (if x & 0x40 != 0 then 1 else 0) + (if x & 0x80 != 0 then 1 else 0)
  }

  /** `calc_parity` as written: fold the byte onto itself three times with shifts by
      1, 2 and 4 and keep the lowest bit. The argument is `unsigned` in the source but
      is only ever a received or sent byte, so its upper bits are zero. The result is
      the XOR of bits 0..7, i.e. 1 exactly when the byte holds an odd number of ones. */
  function CalcParity(x: byte): (p: byte)
    ensures p <= 1
  {
    var y := x ^ (x >> 1);
    var y := y ^ (y >> 2);
    var y := y ^ (y >> 4);
    y & 1
  }

  /** The folded bit is the parity of the number of ones. */
  lemma CalcParityCountsOnes(x: byte)
    ensures CalcParity(x) == 1 <==> Ones(x) % 2 == 1
  {
  }

  /** A data byte together with its parity bit forms an odd-parity frame. */
  predicate OddFrame(data: byte, parityBit: byte)
    requires parityBit <= 1
  {
    (Ones(data) + parityBit as nat) % 2 == 1
  }

  /** The receiver rejects a frame when the received parity bit EQUALS `calc_parity`
      of the received byte (src/ps2kbd.c:346); so it accepts exactly the frames with
      odd parity, in both directions. */
  lemma ReceiverAcceptsExactlyOddFrames(data: byte, parityBit: byte)
    requires parityBit <= 1
    ensures CalcParity(data) != parityBit <==> OddFrame(data, parityBit)
  {
    CalcParityCountsOnes(data);
  }

  /** The transmitter drives the parity line low exactly when `calc_parity` is 1
      (src/ps2kbd.c:283-293); the level it leaves on the line completes an odd frame. */
  lemma TransmitterSendsOddFrames(data: byte)
    ensures var level := if CalcParity(data) != 0 then 0 else 1;
            OddFrame(data, level)
  {
    CalcParityCountsOnes(data);
  }
}
