/** The scan-code decoder of `ps2ReadPoll` (src/ps2kbd.c:399-608), as a pure step
    function over the decoder's mode and its 9-bit `kb_register`.
    Scan code set 2 marks a release with a 0xF0 prefix and an extended key with a
    0xE0 prefix; the pause key sends the 0xE1 sequence E1 14 77 (press) and
    E1 F0 14 F0 77 (release). Modifier keys are folded into the low 8 bits of
    `kb_register`, laid out as the modifier byte of a USB keyboard report
    (src/ps2kbd.h:34-43); bit 8 (KUP) remembers a pending 0xF0. */
module ScanDecoder {
  import opened Common

  /** `enum ps2state` (src/ps2kbd.h:52-58). PAUSE is never entered; COMMAND is set only
      while the keyboard's reset answer is awaited. */
  datatype Ps2Mode = Key | ExtKey | ExtKey2 | Pause | Command

  /** The bits of `kb_register`, `1 << KB_...` for the bit numbers of src/ps2kbd.h:34-43. */
  const LeftCtrl: bv16 := 0x01
  const LeftShift: bv16 := 0x02
  const LeftAlt: bv16 := 0x04
  const LeftGui: bv16 := 0x08
  const RightCtrl: bv16 := 0x10
  const RightShift: bv16 := 0x20
  const RightAlt: bv16 := 0x40
  const RightGui: bv16 := 0x80
  /** KB_KUP: a 0xF0 has been seen and the next code is a release. */
  const Kup: bv16 := 0x100

  /** What `ps2ReadPoll` writes through its out-parameters: `*event` (1 press,
      2 release) and `*modifierState` are always written together; `*keycode` is written
      only for key events, not for modifier updates. */
  datatype Emission = Emission(event: byte, modifiers: byte, keycode: Option<u32>)

  datatype Decoded = Decoded(mode: Ps2Mode, reg: bv16, emit: Option<Emission>)

  /** `*modifierState = kb_register`: the assignment to a `uint8_t` keeps the low byte. */
  function LowByte(reg: bv16): byte
  {
    (reg & 0xFF) as byte
  }

  /** `(0xE0U << 8U) | scancode`: the keycode of an 0xE0-prefixed key. */
  function ExtendedCode(sc: byte): (k: u32)
    ensures k as int == 0xE000 + sc as int
  {
    (0xE0 << 8) | sc as u32
  }

  /** The keycode the decoder emits for the pause key. */
  const PauseCode: u32 := 0xE11477

  /** The modifier bit a scan code stands for in KEY mode (src/ps2kbd.c:524-535, 559-570). */
  function KeyModifier(sc: byte): Option<bv16>
  {
    if sc == 0x12 then Some(LeftShift)
    else if sc == 0x59 then Some(RightShift)
    else if sc == 0x14 then Some(LeftCtrl)
    else if sc == 0x11 then Some(LeftAlt)
    else None
  }

  /** The modifier bit a scan code stands for after 0xE0 (src/ps2kbd.c:460-473, 490-505). */
  function ExtModifier(sc: byte): Option<bv16>
  {
    if sc == 0x14 then Some(RightCtrl)
    else if sc == 0x11 then Some(RightAlt)
    else if sc == 0x1F then Some(LeftGui)
    else if sc == 0x27 then Some(RightGui)
    else None
  }

  /** A 9-bit register: the eight modifier bits and KUP. */
  predicate NineBits(reg: bv16)
  {
    reg < 0x200
  }

  /** What every emission of the decoder satisfies: KUP is clear, the event is a press
      (1) or a release (2), and the reported modifier byte is the whole new register. */
  predicate WellFormed(d: Decoded)
  {
    NineBits(d.reg) &&
    (d.emit.Some? ==> d.reg & Kup == 0 && d.emit.value.event in {1, 2} && d.emit.value.modifiers as bv16 == d.reg)
  }

  /** A release: the register after `&= ~mask` and `&= ~(1 << KB_KUP)`, reported as event 2. */
  function Release(reg: bv16, mask: bv16, key: Option<u32>): (d: Decoded)
    requires NineBits(reg) && mask < 0x100
    ensures WellFormed(d)
  {
    var reg' := (reg & !mask) & !Kup;
    Decoded(Key, reg', Some(Emission(2, LowByte(reg'), key)))
  }

  /** A press reported as event 1 with the register after `|= mask`. */
  function Press(mode: Ps2Mode, reg: bv16, mask: bv16, key: Option<u32>): (d: Decoded)
    requires NineBits(reg) && reg & Kup == 0 && mask < 0x100
    ensures WellFormed(d)
  {
    var reg' := reg | mask;
    Decoded(mode, reg', Some(Emission(1, LowByte(reg'), key)))
  }

  /** EXTKEY2, after 0xE1 (src/ps2kbd.c:423-454): E1 14 77 is a pause press,
      E1 F0 14 F0 77 a pause release; anything unexpected returns to KEY mode. */
  function DecodeExtKey2(reg: bv16, sc: byte): (d: Decoded)
    requires NineBits(reg)
    ensures WellFormed(d)
  {
    if reg & Kup != 0 then
      if sc == 0x77 then
        // the modifier byte is read before KUP is cleared; its low byte is the same
        Release(reg, 0, Some(PauseCode))
      else if sc != 0x14 && sc != 0xF0 then
        Decoded(Key, reg & !Kup, None)
      else
        Decoded(ExtKey2, reg, None)
    else
      if sc == 0x77 then Press(Key, reg, 0, Some(PauseCode))
      else if sc == 0xF0 then Decoded(ExtKey2, reg | Kup, None)
      else if sc != 0x14 then Decoded(Key, reg, None)
      else Decoded(ExtKey2, reg, None)
  }

  /** EXTKEY, after 0xE0 (src/ps2kbd.c:455-517). */
  function DecodeExtKey(reg: bv16, sc: byte): (d: Decoded)
    requires NineBits(reg)
    ensures WellFormed(d)
  {
    if reg & Kup != 0 then
      match sc
      case 0x14 => Release(reg, RightCtrl, None)
      case 0x11 => Release(reg, RightAlt, None)
      case 0x1F => Release(reg, LeftGui, None)
      case 0x27 => Release(reg, RightGui, None)
      case _ => Release(reg, 0, Some(ExtendedCode(sc)))
    else
      match sc
      case 0xF0 => Decoded(ExtKey, reg | Kup, None)
      case 0x14 => Press(Key, reg, RightCtrl, None)
      case 0x11 => Press(Key, reg, RightAlt, None)
      case 0x1F => Press(Key, reg, LeftGui, None)
      case 0x27 => Press(Key, reg, RightGui, None)
      case _ => Press(Key, reg, 0, Some(ExtendedCode(sc)))
  }

  /** KEY mode (src/ps2kbd.c:518-605). Caps, num and scroll lock (0x58, 0x77, 0x7E) are
      ordinary keys here: the LED toggling beside them is compiled out. */
  function DecodeKey(reg: bv16, sc: byte): (d: Decoded)
    requires NineBits(reg)
    ensures WellFormed(d)
  {
    if reg & Kup != 0 then
      match sc
      case 0x12 => Release(reg, LeftShift, None)
      case 0x59 => Release(reg, RightShift, None)
      case 0x14 => Release(reg, LeftCtrl, None)
      case 0x11 => Release(reg, LeftAlt, None)
      case _ => Release(reg, 0, Some(sc as u32))
    else
      match sc
      case 0xF0 => Decoded(Key, reg | Kup, None)
      case 0xE0 => Decoded(ExtKey, reg, None)
      case 0xE1 => Decoded(ExtKey2, reg, None)
      case 0x12 => Press(Key, reg, LeftShift, None)
      case 0x59 => Press(Key, reg, RightShift, None)
      case 0x14 => Press(Key, reg, LeftCtrl, None)
      case 0x11 => Press(Key, reg, LeftAlt, None)
      case _ => Press(Key, reg, 0, Some(sc as u32))
  }

  /** One non-zero scan code taken from the receive buffer (src/ps2kbd.c:419-606).
      PAUSE and COMMAND modes ignore the code. */
  function DecodeStep(mode: Ps2Mode, reg: bv16, sc: byte): (r: Decoded)
    requires NineBits(reg)
    ensures WellFormed(r)
  {
    match mode
    case ExtKey2 => DecodeExtKey2(reg, sc)
    case ExtKey => DecodeExtKey(reg, sc)
    case Key => DecodeKey(reg, sc)
    case _ => Decoded(mode, reg, None)
  }

  /** The decoder fed a run of non-zero scan codes: final mode and register, and the
      events emitted, in order. */
  function DecodeRun(mode: Ps2Mode, reg: bv16, codes: seq<byte>): (r: (Ps2Mode, bv16, seq<Emission>))
    requires NineBits(reg)
    ensures NineBits(r.1)
    decreases |codes|
  {
    if codes == [] then (mode, reg, [])
    else
      var d := DecodeStep(mode, reg, codes[0]);
      var rest := DecodeRun(d.mode, d.reg, codes[1..]);
      (rest.0, rest.1, Emitted(d) + rest.2)
  }

  /** In KEY mode with no release pending, the three prefixes emit nothing:
      0xF0 only sets KUP, 0xE0 enters EXTKEY and 0xE1 enters EXTKEY2. */
  lemma KeyModePrefixes(reg: bv16)
    requires NineBits(reg) && reg & Kup == 0
    ensures DecodeStep(Key, reg, 0xF0) == Decoded(Key, reg | Kup, None)
    ensures DecodeStep(Key, reg, 0xE0) == Decoded(ExtKey, reg, None)
    ensures DecodeStep(Key, reg, 0xE1) == Decoded(ExtKey2, reg, None)
  {
  }

  /** A KEY-mode modifier code sets exactly its bit on press and clears exactly its bit
      (and KUP) on release, emitting event 1 or 2 with the keycode left untouched. */
  lemma KeyModeModifier(reg: bv16, sc: byte)
    requires NineBits(reg) && KeyModifier(sc).Some?
    ensures var b := KeyModifier(sc).value;
            reg & Kup == 0 ==>
              DecodeStep(Key, reg, sc) == Decoded(Key, reg | b, Some(Emission(1, LowByte(reg | b), None)))
    ensures var b := KeyModifier(sc).value;
            var reg' := reg & !b & !Kup;
            reg & Kup != 0 ==>
              DecodeStep(Key, reg, sc) == Decoded(Key, reg', Some(Emission(2, LowByte(reg'), None)))
  {
  }

  /** Every other KEY-mode code is emitted as the plain keycode, the register keeping its
      modifier bits. */
  lemma KeyModePlainKey(reg: bv16, sc: byte)
    requires NineBits(reg) && KeyModifier(sc).None?
    ensures reg & Kup == 0 && sc !in {0xF0, 0xE0, 0xE1} ==>
              DecodeStep(Key, reg, sc) == Decoded(Key, reg, Some(Emission(1, LowByte(reg), Some(sc as u32))))
    ensures var reg' := reg & !Kup;
            reg & Kup != 0 ==>
              DecodeStep(Key, reg, sc) == Decoded(Key, reg', Some(Emission(2, LowByte(reg'), Some(sc as u32))))
  {
  }

  /** After 0xE0, the four extended modifier codes set their bit on press; every other
      code but 0xF0 is pressed as the 0xE0-tagged keycode; the decoder is back in KEY mode. */
  lemma ExtendedPress(reg: bv16, sc: byte)
    requires NineBits(reg) && reg & Kup == 0
    ensures ExtModifier(sc).Some? ==>
              DecodeStep(ExtKey, reg, sc) == Press(Key, reg, ExtModifier(sc).value, None)
    ensures ExtModifier(sc).None? && sc != 0xF0 ==>
              DecodeStep(ExtKey, reg, sc) == Decoded(Key, reg, Some(Emission(1, LowByte(reg), Some(ExtendedCode(sc)))))
    ensures DecodeStep(ExtKey, reg, 0xF0) == Decoded(ExtKey, reg | Kup, None)
  {
  }

  /** With KUP set, an extended modifier code clears its bit and any other code is
      released as the 0xE0-tagged keycode; KUP is consumed and the decoder is back in KEY
      mode. */
  lemma ExtendedRelease(reg: bv16, sc: byte)
    requires NineBits(reg) && reg & Kup != 0
    ensures ExtModifier(sc).Some? ==>
              DecodeStep(ExtKey, reg, sc) == Release(reg, ExtModifier(sc).value, None)
    ensures ExtModifier(sc).None? ==>
              DecodeStep(ExtKey, reg, sc) == Release(reg, 0, Some(ExtendedCode(sc)))
  {
  }

  /** The events a step emits, as a sequence. */
  function Emitted(d: Decoded): (es: seq<Emission>)
    ensures |es| <= 1
  {
    if d.emit.Some? then [d.emit.value] else []
  }

  /** `DecodeRun` on a run with a known first code. */
  lemma RunCons(mode: Ps2Mode, reg: bv16, c: byte, cs: seq<byte>)
    requires NineBits(reg)
    ensures var d := DecodeStep(mode, reg, c);
            var rest := DecodeRun(d.mode, d.reg, cs);
            DecodeRun(mode, reg, [c] + cs) == (rest.0, rest.1, Emitted(d) + rest.2)
    ensures var d := DecodeStep(mode, reg, c);
            d.emit.None? ==> DecodeRun(mode, reg, [c] + cs) == DecodeRun(d.mode, d.reg, cs)
  {
    assert ([c] + cs)[1..] == cs;
    var d := DecodeStep(mode, reg, c);
    assert [] + DecodeRun(d.mode, d.reg, cs).2 == DecodeRun(d.mode, d.reg, cs).2;
  }

  /** `DecodeRun` on a single code. */
  lemma RunSingle(mode: Ps2Mode, reg: bv16, c: byte)
    requires NineBits(reg)
    ensures var d := DecodeStep(mode, reg, c);
            DecodeRun(mode, reg, [c]) == (d.mode, d.reg, Emitted(d))
  {
    var d := DecodeStep(mode, reg, c);
    assert [c][1..] == [];
    assert Emitted(d) + [] == Emitted(d);
  }

  /** E1 14 77 is one pause press. */
  lemma PausePress(reg: bv16)
    requires NineBits(reg) && reg & Kup == 0
    ensures DecodeRun(Key, reg, [0xE1, 0x14, 0x77]) == (Key, reg, [Emission(1, LowByte(reg), Some(PauseCode))])
  {
    var e := Emission(1, LowByte(reg), Some(PauseCode));
    var s3: seq<byte> := [0x77];
    var s2 := [0x14] + s3;
    var s1 := [0xE1] + s2;
    assert reg | 0 == reg;
    RunSingle(ExtKey2, reg, 0x77);
    RunCons(ExtKey2, reg, 0x14, s3);
    RunCons(Key, reg, 0xE1, s2);
    assert s1 == [0xE1, 0x14, 0x77];
  }

  /** 14 F0 77 in EXTKEY2 with KUP set: the rest of a pause release. */
  lemma PauseReleaseTail(reg: bv16)
    requires NineBits(reg) && reg & Kup == 0
    ensures DecodeRun(ExtKey2, reg | Kup, [0x14, 0xF0, 0x77]) == (Key, reg, [Emission(2, LowByte(reg), Some(PauseCode))])
  {
    var pending := reg | Kup;
    var e := Emission(2, LowByte(reg), Some(PauseCode));
    var s5: seq<byte> := [0x77];
    var s4 := [0xF0] + s5;
    assert DecodeRun(ExtKey2, pending, s5) == (Key, reg, [e]) by {
      assert (pending & !0) & !Kup == reg;
      RunSingle(ExtKey2, pending, 0x77);
    }
    assert DecodeStep(ExtKey2, pending, 0xF0) == Decoded(ExtKey2, pending, None);
    RunCons(ExtKey2, pending, 0xF0, s5);
    assert DecodeStep(ExtKey2, pending, 0x14) == Decoded(ExtKey2, pending, None);
    RunCons(ExtKey2, pending, 0x14, s4);
    assert [0x14] + s4 == [0x14, 0xF0, 0x77];
  }

  /** E1 F0 14 F0 77 is one pause release, with KUP consumed. */
  lemma PauseRelease(reg: bv16)
    requires NineBits(reg) && reg & Kup == 0
    ensures DecodeRun(Key, reg, [0xE1, 0xF0, 0x14, 0xF0, 0x77]) == (Key, reg, [Emission(2, LowByte(reg), Some(PauseCode))])
  {
    var s3: seq<byte> := [0x14, 0xF0, 0x77];
    var s2 := [0xF0] + s3;
    PauseReleaseTail(reg);
    assert DecodeStep(ExtKey2, reg, 0xF0) == Decoded(ExtKey2, reg | Kup, None);
    RunCons(ExtKey2, reg, 0xF0, s3);
    assert DecodeStep(Key, reg, 0xE1) == Decoded(ExtKey2, reg, None);
    RunCons(Key, reg, 0xE1, s2);
    assert [0xE1] + s2 == [0xE1, 0xF0, 0x14, 0xF0, 0x77];
  }

  /** In EXTKEY2 any byte other than 0x14, 0x77 and 0xF0 abandons the sequence: back to
      KEY mode, KUP clear, no event. */
  lemma ExtKey2Abort(reg: bv16, sc: byte)
    requires NineBits(reg) && sc !in {0x14, 0x77, 0xF0}
    ensures DecodeStep(ExtKey2, reg, sc) == Decoded(Key, reg & !Kup, None)
  {
  }

  /** Decoding a concatenation is decoding the first part, then the second part from
      the state the first left behind: the decoder's whole memory is its mode and
      register. */
  lemma {:induction false} RunAppend(mode: Ps2Mode, reg: bv16, a: seq<byte>, b: seq<byte>)
    requires NineBits(reg)
    ensures var ra := DecodeRun(mode, reg, a);
            var rb := DecodeRun(ra.0, ra.1, b);
            DecodeRun(mode, reg, a + b) == (rb.0, rb.1, ra.2 + rb.2)
    decreases |a|
  {
    if a == [] {
      assert a + b == b;
      assert [] + DecodeRun(mode, reg, b).2 == DecodeRun(mode, reg, b).2;
    } else {
      var d := DecodeStep(mode, reg, a[0]);
      assert (a + b)[1..] == a[1..] + b;
      RunAppend(d.mode, d.reg, a[1..], b);
      var ra := DecodeRun(d.mode, d.reg, a[1..]);
      var rb := DecodeRun(ra.0, ra.1, b);
      assert Emitted(d) + (ra.2 + rb.2) == (Emitted(d) + ra.2) + rb.2;
    }
  }

  /** F0 14: one release of left Ctrl. */
  lemma ReleaseLeftCtrl(reg: bv16)
    requires NineBits(reg) && reg & Kup == 0
    ensures var released := reg & !LeftCtrl;
            DecodeRun(Key, reg, [0xF0, 0x14]) == (Key, released, [Emission(2, LowByte(released), None)])
  {
    var s2: seq<byte> := [0x14];
    assert ((reg | Kup) & !LeftCtrl) & !Kup == reg & !LeftCtrl;
    RunSingle(Key, reg | Kup, 0x14);
    RunCons(Key, reg, 0xF0, s2);
    assert [0xF0] + s2 == [0xF0, 0x14];
  }

  /** F0 14 F0 14: releasing left Ctrl twice. The second release finds the bit already
      clear and leaves the bitmap as the first release left it. */
  lemma DoubleRelease(reg: bv16)
    requires NineBits(reg) && reg & Kup == 0
    ensures var released := reg & !LeftCtrl;
            DecodeRun(Key, reg, [0xF0, 0x14, 0xF0, 0x14]) ==
              (Key, released, [Emission(2, LowByte(released), None), Emission(2, LowByte(released), None)])
  {
    var released := reg & !LeftCtrl;
    var once: seq<byte> := [0xF0, 0x14];
    var e := Emission(2, LowByte(released), None);
    ReleaseLeftCtrl(reg);
    assert DecodeRun(Key, released, once) == (Key, released, [e]) by {
      ReleaseLeftCtrl(released);
      assert released & !LeftCtrl == released;
    }
    RunAppend(Key, reg, once, once);
    assert [e] + [e] == [e, e];
    assert once + once == [0xF0, 0x14, 0xF0, 0x14];
  }

  /** F0 sc: the release of a plain key. */
  lemma PlainKeyRelease(reg: bv16, sc: byte)
    requires NineBits(reg) && reg & Kup == 0
    requires KeyModifier(sc).None?
    ensures DecodeRun(Key, reg, [0xF0, sc]) == (Key, reg, [Emission(2, LowByte(reg), Some(sc as u32))])
  {
    var s2: seq<byte> := [sc];
    var e := Emission(2, LowByte(reg), Some(sc as u32));
    assert DecodeRun(Key, reg | Kup, s2) == (Key, reg, [e]) by {
      KeyModePlainKey(reg | Kup, sc);
      assert (reg | Kup) & !Kup == reg;
      RunSingle(Key, reg | Kup, sc);
    }
    assert DecodeStep(Key, reg, 0xF0) == Decoded(Key, reg | Kup, None) by {
      KeyModePrefixes(reg);
    }
    RunCons(Key, reg, 0xF0, s2);
    assert [0xF0] + s2 == [0xF0, sc];
  }

  /** A plain key typed and let go, `sc` then `F0 sc`, decodes to one press and one release
      of the same keycode with unchanged modifiers. */
  lemma PlainKeyRoundTrip(reg: bv16, sc: byte)
    requires NineBits(reg) && reg & Kup == 0
    requires KeyModifier(sc).None? && sc !in {0xF0, 0xE0, 0xE1}
    ensures DecodeRun(Key, reg, [sc, 0xF0, sc]) ==
              (Key, reg, [Emission(1, LowByte(reg), Some(sc as u32)), Emission(2, LowByte(reg), Some(sc as u32))])
  {
    var press: seq<byte> := [sc];
    var release: seq<byte> := [0xF0, sc];
    KeyModePlainKey(reg, sc);
    RunSingle(Key, reg, sc);
    PlainKeyRelease(reg, sc);
    RunAppend(Key, reg, press, release);
    assert press + release == [sc, 0xF0, sc];
    var down := Emission(1, LowByte(reg), Some(sc as u32));
    var up := Emission(2, LowByte(reg), Some(sc as u32));
    assert [down] + [up] == [down, up];
  }

  /** E0 sc: the press of an extended key. */
  lemma ExtendedKeyPressRun(reg: bv16, sc: byte)
    requires NineBits(reg) && reg & Kup == 0
    requires ExtModifier(sc).None? && sc != 0xF0
    ensures DecodeRun(Key, reg, [0xE0, sc]) == (Key, reg, [Emission(1, LowByte(reg), Some(ExtendedCode(sc)))])
  {
    var s2: seq<byte> := [sc];
    ExtendedPress(reg, sc);
    RunSingle(ExtKey, reg, sc);
    RunCons(Key, reg, 0xE0, s2);
    assert [0xE0] + s2 == [0xE0, sc];
  }

  /** F0 sc in EXTKEY mode: the second half of an extended release. */
  lemma ExtendedReleaseTail(reg: bv16, sc: byte)
    requires NineBits(reg) && reg & Kup == 0
    requires ExtModifier(sc).None?
    ensures DecodeRun(ExtKey, reg, [0xF0, sc]) == (Key, reg, [Emission(2, LowByte(reg), Some(ExtendedCode(sc)))])
  {
    var s2: seq<byte> := [sc];
    var e := Emission(2, LowByte(reg), Some(ExtendedCode(sc)));
    assert DecodeRun(ExtKey, reg | Kup, s2) == (Key, reg, [e]) by {
      ExtendedRelease(reg | Kup, sc);
      assert ((reg | Kup) & !0) & !Kup == reg;
      RunSingle(ExtKey, reg | Kup, sc);
    }
    assert DecodeStep(ExtKey, reg, 0xF0) == Decoded(ExtKey, reg | Kup, None) by {
      ExtendedPress(reg, sc);
    }
    RunCons(ExtKey, reg, 0xF0, s2);
    assert [0xF0] + s2 == [0xF0, sc];
  }

  /** E0 F0 sc: the release of an extended key. */
  lemma ExtendedKeyReleaseRun(reg: bv16, sc: byte)
    requires NineBits(reg) && reg & Kup == 0
    requires ExtModifier(sc).None?
    ensures DecodeRun(Key, reg, [0xE0, 0xF0, sc]) == (Key, reg, [Emission(2, LowByte(reg), Some(ExtendedCode(sc)))])
  {
    var s2: seq<byte> := [0xF0, sc];
    ExtendedReleaseTail(reg, sc);
    RunCons(Key, reg, 0xE0, s2);
    assert [0xE0] + s2 == [0xE0, 0xF0, sc];
  }

  /** The same for an extended key, `E0 sc` then `E0 F0 sc`. */
  lemma ExtendedKeyRoundTrip(reg: bv16, sc: byte)
    requires NineBits(reg) && reg & Kup == 0
    requires ExtModifier(sc).None? && sc != 0xF0
    ensures DecodeRun(Key, reg, [0xE0, sc, 0xE0, 0xF0, sc]) ==
              (Key, reg, [Emission(1, LowByte(reg), Some(ExtendedCode(sc))), Emission(2, LowByte(reg), Some(ExtendedCode(sc)))])
  {
    var press: seq<byte> := [0xE0, sc];
    var release: seq<byte> := [0xE0, 0xF0, sc];
    ExtendedKeyPressRun(reg, sc);
    ExtendedKeyReleaseRun(reg, sc);
    RunAppend(Key, reg, press, release);
    assert press + release == [0xE0, sc, 0xE0, 0xF0, sc];
    var down := Emission(1, LowByte(reg), Some(ExtendedCode(sc)));
    var up := Emission(2, LowByte(reg), Some(ExtendedCode(sc)));
    assert [down] + [up] == [down, up];
  }
}
