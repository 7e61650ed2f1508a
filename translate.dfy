/** The translation of decoded PS/2 keycodes to USB HID usages
    (src/main.c:526-691) and of the host's LED report to PS/2 LED bits
    (src/main.c:870-887). Keycodes are scan code set 2 codes as `ps2ReadPoll`
    emits them: a plain code, `0xE0 << 8 | code` for an 0xE0-prefixed key and
    0xE11477 for the pause key. Usages are those of the Keyboard/Keypad page of the
    USB HID Usage Tables 1.12 (section 10). */
module Translate {
  import opened Common
  import opened ScanDecoder

  /** `(1 << KB_L_ALT) | (1 << KB_R_ALT)`: the two ALT bits of the modifier byte. */
  const AltBits: byte := 0x44

  /** `convertTable`: the USB usage of a keycode, 0xFF for a keycode without one. The
      key 0x84 (Alt+Print on set 2 keyboards) is print screen when an ALT modifier is
      held and the copy usage otherwise. No keycode is mapped to 0, the value the
      caller would treat as "ignore". */
  function ConvertTable(ps2code: u32, modifiers: byte): (usb: byte)
    ensures usb != 0
  {
    if ps2code == 0x1C then 0x04 else
    if ps2code == 0x32 then 0x05 else
    if ps2code == 0x21 then 0x06 else
    if ps2code == 0x23 then 0x07 else
    if ps2code == 0x24 then 0x08 else
    if ps2code == 0x2B then 0x09 else
    if ps2code == 0x34 then 0x0A else
    if ps2code == 0x33 then 0x0B else
    if ps2code == 0x43 then 0x0C else
    if ps2code == 0x3B then 0x0D else
    if ps2code == 0x42 then 0x0E else
    if ps2code == 0x4B then 0x0F else
    if ps2code == 0x3A then 0x10 else
    if ps2code == 0x31 then 0x11 else
    if ps2code == 0x44 then 0x12 else
    if ps2code == 0x4D then 0x13 else
    if ps2code == 0x15 then 0x14 else
    if ps2code == 0x2D then 0x15 else
    if ps2code == 0x1B then 0x16 else
    if ps2code == 0x2C then 0x17 else
    if ps2code == 0x3C then 0x18 else
    if ps2code == 0x2A then 0x19 else
    if ps2code == 0x1D then 0x1A else
    if ps2code == 0x22 then 0x1B else
    if ps2code == 0x35 then 0x1C else
    if ps2code == 0x1A then 0x1D else
    if ps2code == 0x16 then 0x1E else
    if ps2code == 0x1E then 0x1F else
    if ps2code == 0x26 then 0x20 else
    if ps2code == 0x25 then 0x21 else
    if ps2code == 0x2E then 0x22 else
    if ps2code == 0x36 then 0x23 else
    if ps2code == 0x3D then 0x24 else
    if ps2code == 0x3E then 0x25 else
    if ps2code == 0x46 then 0x26 else
    if ps2code == 0x45 then 0x27 else
    if ps2code == 0x5A then 0x28 else
    if ps2code == 0x76 then 0x29 else
    if ps2code == 0x66 then 0x2A else
    if ps2code == 0xD then 0x2B else
    if ps2code == 0x29 then 0x2C else
    if ps2code == 0x4E then 0x2D else
    if ps2code == 0x55 then 0x2E else
    if ps2code == 0x54 then 0x2F else
    if ps2code == 0x5B then 0x30 else
    if ps2code == 0x5D then 0x31 else
    if ps2code == 0x4C then 0x33 else
    if ps2code == 0x52 then 0x34 else
    if ps2code == 0xE then 0x35 else
    if ps2code == 0x41 then 0x36 else
    if ps2code == 0x49 then 0x37 else
    if ps2code == 0x4A then 0x38 else
    if ps2code == 0x58 then 0x39 else
    if ps2code == 0x5 then 0x3A else
    if ps2code == 0x6 then 0x3B else
    if ps2code == 0x4 then 0x3C else
    if ps2code == 0xC then 0x3D else
    if ps2code == 0x3 then 0x3E else
    if ps2code == 0xB then 0x3F else
    if ps2code == 0x83 then 0x40 else
    if ps2code == 0xA then 0x41 else
    if ps2code == 0x1 then 0x42 else
    if ps2code == 0x9 then 0x43 else
    if ps2code == 0x78 then 0x44 else
    if ps2code == 0x7 then 0x45 else
    if ps2code == 0xE07C then 0x46 else
    if ps2code == 0x84 then (if modifiers & AltBits != 0 then 0x46 else 0x7C) else
    if ps2code == 0x7E then 0x47 else
    if ps2code == 0xE11477 then 0x48 else
    if ps2code == 0xE070 then 0x49 else
    if ps2code == 0x48 then 0x49 else
    if ps2code == 0xE06C then 0x4A else
    if ps2code == 0xE07D then 0x4B else
    if ps2code == 0xE071 then 0x4C else
    if ps2code == 0xE069 then 0x4D else
    if ps2code == 0xE07A then 0x4E else
    if ps2code == 0xE074 then 0x4F else
    if ps2code == 0xE06B then 0x50 else
    if ps2code == 0xE072 then 0x51 else
    if ps2code == 0xE075 then 0x52 else
    if ps2code == 0x77 then 0x53 else
    if ps2code == 0xE04A then 0x54 else
    if ps2code == 0x7C then 0x55 else
    if ps2code == 0x7B then 0x56 else
    if ps2code == 0x79 then 0x57 else
    if ps2code == 0xE05A then 0x58 else
    if ps2code == 0x69 then 0x59 else
    if ps2code == 0x72 then 0x5A else
    if ps2code == 0x7A then 0x5B else
    if ps2code == 0x6B then 0x5C else
    if ps2code == 0x73 then 0x5D else
    if ps2code == 0x74 then 0x5E else
    if ps2code == 0x6C then 0x5F else
    if ps2code == 0x75 then 0x60 else
    if ps2code == 0x7D then 0x61 else
    if ps2code == 0x70 then 0x62 else
    if ps2code == 0x71 then 0x63 else
    if ps2code == 0x61 then 0x64 else
    if ps2code == 0xE02F then 0x65 else
    if ps2code == 0x27 then 0x67 else
    if ps2code == 0x37 then 0x68 else
    if ps2code == 0x3F then 0x69 else
    if ps2code == 0x5E then 0x6A else
    if ps2code == 0x56 then 0x6B else
    if ps2code == 0x2F then 0x6C else
    if ps2code == 0x38 then 0x6D else
    if ps2code == 0x53 then 0x6E else
    if ps2code == 0x62 then 0x6F else
    if ps2code == 0x5F then 0x70 else
    if ps2code == 0x40 then 0x71 else
    if ps2code == 0x28 then 0x72 else
    if ps2code == 0x20 then 0x73 else
    if ps2code == 0x63 then 0x75 else
    if ps2code == 0x8 then 0x77 else
    if ps2code == 0x10 then 0x79 else
    if ps2code == 0x18 then 0x7A else
    if ps2code == 0x51 then 0x7D else
    if ps2code == 0x5C then 0x7E else
    if ps2code == 0x6F then 0x7F else
    if ps2code == 0x64 then 0x80 else
    if ps2code == 0x50 then 0x81 else
    if ps2code == 0x19 then 0xD9 else
    if ps2code == 0x17 then 0x9A else
    0xFF
  }

  /** The keycodes `convertTable` has a case for. */
  predicate Mapped(c: u32)
  {
    c == 0x1C || c == 0x32 || c == 0x21 || c == 0x23 || c == 0x24 || c == 0x2B ||
    c == 0x34 || c == 0x33 || c == 0x43 || c == 0x3B || c == 0x42 || c == 0x4B ||
    c == 0x3A || c == 0x31 || c == 0x44 || c == 0x4D || c == 0x15 || c == 0x2D ||
    c == 0x1B || c == 0x2C || c == 0x3C || c == 0x2A || c == 0x1D || c == 0x22 ||
    c == 0x35 || c == 0x1A || c == 0x16 || c == 0x1E || c == 0x26 || c == 0x25 ||
    c == 0x2E || c == 0x36 || c == 0x3D || c == 0x3E || c == 0x46 || c == 0x45 ||
    c == 0x5A || c == 0x76 || c == 0x66 || c == 0xD || c == 0x29 || c == 0x4E ||
    c == 0x55 || c == 0x54 || c == 0x5B || c == 0x5D || c == 0x4C || c == 0x52 ||
    c == 0xE || c == 0x41 || c == 0x49 || c == 0x4A || c == 0x58 || c == 0x5 ||
    c == 0x6 || c == 0x4 || c == 0xC || c == 0x3 || c == 0xB || c == 0x83 ||
    c == 0xA || c == 0x1 || c == 0x9 || c == 0x78 || c == 0x7 || c == 0xE07C ||
    c == 0x7E || c == 0xE11477 || c == 0xE070 || c == 0x48 || c == 0xE06C || c == 0xE07D ||
    c == 0xE071 || c == 0xE069 || c == 0xE07A || c == 0xE074 || c == 0xE06B || c == 0xE072 ||
    c == 0xE075 || c == 0x77 || c == 0xE04A || c == 0x7C || c == 0x7B || c == 0x79 ||
    c == 0xE05A || c == 0x69 || c == 0x72 || c == 0x7A || c == 0x6B || c == 0x73 ||
    c == 0x74 || c == 0x6C || c == 0x75 || c == 0x7D || c == 0x70 || c == 0x71 ||
    c == 0x61 || c == 0xE02F || c == 0x27 || c == 0x37 || c == 0x3F || c == 0x5E ||
    c == 0x56 || c == 0x2F || c == 0x38 || c == 0x53 || c == 0x62 || c == 0x5F ||
    c == 0x40 || c == 0x28 || c == 0x20 || c == 0x63 || c == 0x8 || c == 0x10 ||
    c == 0x18 || c == 0x51 || c == 0x5C || c == 0x6F || c == 0x64 || c == 0x50 ||
    c == 0x19 || c == 0x17 || c == 0x84
  }

  /** Exactly the keycodes without a case come back as "unsupported" 0xFF, whatever the
      modifiers. */
  lemma UnsupportedExactlyUnmapped(code: u32, modifiers: byte)
    ensures ConvertTable(code, modifiers) == 0xFF <==> !Mapped(code)
  {
  }

  /** The key 0x84 is print screen (usage 0x46) while either ALT key is held, and the
      copy usage 0x7C otherwise; every other keycode ignores the modifiers. */
  lemma AltPrintScreen(code: u32, modifiers: byte)
    ensures code == 0x84 ==>
              ConvertTable(code, modifiers) == (if modifiers & AltBits != 0 then 0x46 else 0x7C)
    ensures code != 0x84 ==> ConvertTable(code, modifiers) == ConvertTable(code, 0)
  {
  }

  /** The four usages the hotkey handler reacts to come from one keycode each:
      0x17 gives 0x9A (SysRq), 0x5C gives 0x7E (Find), 0x28 gives 0x72 (F23) and 0x20
      gives 0x73 (F24). */
  lemma RebootKeyCode(code: u32, modifiers: byte)
    ensures ConvertTable(code, modifiers) == 0x9A <==> code == 0x17
  {
  }

  lemma RecordKeyCode(code: u32, modifiers: byte)
    ensures ConvertTable(code, modifiers) == 0x7E <==> code == 0x5C
  {
  }

  lemma ReplayKeyCode(code: u32, modifiers: byte)
    ensures ConvertTable(code, modifiers) == 0x72 <==> code == 0x28
  {
  }

  lemma BlinkKeyCode(code: u32, modifiers: byte)
    ensures ConvertTable(code, modifiers) == 0x73 <==> code == 0x20
  {
  }

  /** Entries of the table against the usage names of the HID usage tables: the
      letters A and Z, the digits 1 and 0, Enter. */
  lemma TypingKeyUsages(modifiers: byte)
    ensures ConvertTable(0x1C, modifiers) == 0x04 && ConvertTable(0x1A, modifiers) == 0x1D
    ensures ConvertTable(0x16, modifiers) == 0x1E && ConvertTable(0x45, modifiers) == 0x27
    ensures ConvertTable(0x5A, modifiers) == 0x28
  {
  }

  /** F1 and F12, and the pause key's three-byte code. */
  lemma FunctionKeyUsages(modifiers: byte)
    ensures ConvertTable(0x05, modifiers) == 0x3A && ConvertTable(0x07, modifiers) == 0x45
    ensures ConvertTable(PauseCode, modifiers) == 0x48
  {
  }

  /** The arrow keys, keycodes `0xE0 << 8 | code`: right, left, down, up. */
  lemma ArrowKeyUsages(modifiers: byte)
    ensures ConvertTable(0xE074, modifiers) == 0x4F
    ensures ConvertTable(0xE06B, modifiers) == 0x50
    ensures ConvertTable(0xE072, modifiers) == 0x51
    ensures ConvertTable(0xE075, modifiers) == 0x52
  {
  }

  /** `ignoreStrangePs2` (src/main.c:679-691): the two 0xE0-prefixed shift codes some
      keyboards add around print screen and the cursor block. */
  function IgnoreStrangePs2(data: u32): (ignore: bool)
    ensures ignore ==> data != 0 && !Mapped(data)
  {
    if data == 0xE012 then true
    else if data == 0xE059 then true
    else false
  }

  /** The ignored codes are fake extended shifts: the codes of the left and right shift
      keys with the 0xE0 prefix, as the decoder would emit them. */
  lemma IgnoredAreFakeShifts(data: u32)
    ensures IgnoreStrangePs2(data) <==> data == ExtendedCode(0x12) || data == ExtendedCode(0x59)
  {
  }

  /** Neither ignored code has a usage of its own. */
  lemma IgnoredAreUnsupported(data: u32, modifiers: byte)
    requires IgnoreStrangePs2(data)
    ensures ConvertTable(data, modifiers) == 0xFF
  {
  }

  /** The LED bits of a USB output report: num lock, caps lock and scroll lock in bits
      0, 1 and 2 (HID usage tables section 11). */
  const UsbNumLock: byte := 0x01
  const UsbCapsLock: byte := 0x02
  const UsbScrollLock: byte := 0x04

  /** The LED bits of the PS/2 "set LEDs" command: `1 << KB_SCRLK`, `1 << KB_NUMLK`,
      `1 << KB_CAPSLK` (src/ps2kbd.h:48-50). */
  const Ps2ScrollLock: byte := 0x01
  const Ps2NumLock: byte := 0x02
  const Ps2CapsLock: byte := 0x04

  /** The remapping `rx1FifoCallback` applies to the first byte of an LED report
      (src/main.c:880-884): each of the three lock LEDs moves to its PS/2 bit, every
      other bit is dropped. */
  function LedRemap(usb: byte): (ps2: byte)
    ensures ps2 & Ps2NumLock != 0 <==> usb & UsbNumLock != 0
    ensures ps2 & Ps2CapsLock != 0 <==> usb & UsbCapsLock != 0
    ensures ps2 & Ps2ScrollLock != 0 <==> usb & UsbScrollLock != 0
    ensures ps2 & 0xF8 == 0
  {
    var out: byte := 0;
    var out := if usb & 1 != 0 then out | 2 else out;
    var out := if usb & 2 != 0 then out | 4 else out;
    if usb & 4 != 0 then out | 1 else out
  }

  /** Only the three lock bits of the USB report matter, and different lock states
      give different PS/2 LED bits. */
  lemma LedRemapInjective(a: byte, b: byte)
    ensures LedRemap(a) == LedRemap(a & 0x07)
    ensures LedRemap(a) == LedRemap(b) <==> a & 0x07 == b & 0x07
  {
  }
}
