/** Shared value types of the keyboard bridge.
    The firmware runs on an 8-bit microcontroller: its `uint8_t`, `uint16_t` and
    `uint32_t` are modelled as `bv8`, `bv16` and `bv32`, so the C arithmetic
    (wrap-around addition and subtraction, unsigned comparison and division)
    is Dafny's bit-vector arithmetic. */
module Common {

  type byte = bv8

  /** `uint32_t`: keycodes (possibly 0xE0- or 0xE1-tagged) and millisecond timestamps. */
  type u32 = bv32

  datatype Option<T> = None | Some(value: T)

  /** `0` or `1` as a byte, for a sampled or driven line level. */
  function BitValue(high: bool): (b: byte)
    ensures b <= 1 && (b == 1 <==> high)
  {
    if high then 1 else 0
  }

  /** `x << k` for a bit position `k`, written with constant shift counts. */
  function Shl(x: byte, k: nat): byte
    requires k < 8
  {
    if k == 0 then x else if k == 1 then x << 1 else if k == 2 then x << 2
    else if k == 3 then x << 3 else if k == 4 then x << 4 else if k == 5 then x << 5
    else if k == 6 then x << 6 else x << 7
  }

  /** `x >> k` for a bit position `k`, written with constant shift counts. */
  function Shr(x: byte, k: nat): byte
    requires k < 8
  {
    if k == 0 then x else if k == 1 then x >> 1 else if k == 2 then x >> 2
    else if k == 3 then x >> 3 else if k == 4 then x >> 4 else if k == 5 then x >> 5
    else if k == 6 then x >> 6 else x >> 7
  }

  /** The sequence holding `n` copies of `x`. */
  function Repeat<T>(x: T, n: nat): (r: seq<T>)
    ensures |r| == n
    ensures forall i :: 0 <= i < n ==> r[i] == x
  {
    if n == 0 then [] else [x] + Repeat(x, n - 1)
  }

  /** One more copy of `x` after `a` followed by `n` copies is `n + 1` copies. */
  lemma RepeatGrows<T>(a: seq<T>, x: T, n: nat)
    ensures a + [x] + Repeat(x, n) == a + Repeat(x, n + 1)
  {
    assert a + [x] + Repeat(x, n) == a + ([x] + Repeat(x, n));
  }
}
