/** The macro recorder and the hotkeys of src/main.c as pure functions over the state
    they touch: `g_Macro` (mode, replay index, number of recorded steps, replay and LED
    deadlines, LED phase and the 40 recorded steps), the flags `g_BlinkMode`,
    `g_LedByHost` and `g_UpdateLed`, and the two outputs, the bytes handed to
    `ps2SetLeds` and the reports handed to `KeyboardToUsb`. The class Bridge.Bridge
    keeps the same state in fields and is proved to follow these functions. */
module Macro {
  import opened Common
  import opened Translate
  import opened KeySet

  /** `RECORDSTEPS`. */
  const RecordSteps: nat := 40

  /** `USBBYTES`: the modifier byte, a reserved byte and six key usages. */
  const UsbBytes: nat := 8

  /** `g_Macro.mode`: 0 stopped, 1 replay, 2 record. */
  datatype MacroMode = Stopped | Replay | Record

  /** `repStep_t`: the first `messageLen` bytes of a report, which is all that replay
      sends, and the pause before it. */
  datatype Step = Step(usb: seq<byte>, delayMs: u32)

  /** `macro_t`. */
  datatype MacroState = MacroState(mode: MacroMode, index: nat, maxIndex: nat, time: u32,
                                   ledTimestamp: u32, ledState: nat, record: seq<Step>)

  /** `g_BlinkMode`, `g_LedByHost` and `g_UpdateLed`. */
  datatype Panel = Panel(blink: bool, ledByHost: byte, updateLed: bool)

  /** Every byte sent to the keyboard with `ps2SetLeds`, and every report sent with
      `KeyboardToUsb`, in order. */
  datatype Out = Out(leds: seq<byte>, reports: seq<seq<byte>>)

  datatype Sys = Sys(macro: MacroState, panel: Panel, out: Out)

  /** The bounds the macro state keeps: 40 step slots, the replay index inside them, at
      most 40 recorded steps and fewer while recording, an LED phase of 0, 1 or 2. */
  predicate MacroOk(m: MacroState)
  {
    Bounded(m) && (m.mode == Record ==> m.maxIndex < RecordSteps)
  }

  /** The bounds without the one on recording, which the last recorded step breaks
      until `macroStop` restores it. */
  predicate Bounded(m: MacroState)
  {
    |m.record| == RecordSteps && m.index < RecordSteps && m.maxIndex <= RecordSteps && m.ledState < 3
  }

  predicate SysOk(s: Sys)
  {
    MacroOk(s.macro)
  }

  /** The zero-initialised globals. */
  const InitialSys: Sys := Sys(MacroState(Stopped, 0, 0, 0, 0, 0, Repeat(Step([], 0), RecordSteps)),
                               Panel(false, 0, false), Out([], []))

  /** `ps2SetLeds(bits)`, seen from here: the byte goes to the keyboard. */
  function SetLeds(s: Sys, bits: byte): (s': Sys)
    ensures s'.out.leds == s.out.leds + [bits]
    ensures s' == s.(out := s'.out) && s'.out.reports == s.out.reports
  {
    s.(out := s.out.(leds := s.out.leds + [bits]))
  }

  /** `KeyboardToUsb(report, len)`. */
  function SendReport(s: Sys, report: seq<byte>): (s': Sys)
    ensures s'.out.reports == s.out.reports + [report]
    ensures s' == s.(out := s'.out) && s'.out.leds == s.out.leds
  {
    s.(out := s.out.(reports := s.out.reports + [report]))
  }

  /** `macroStop` (src/main.c:693-697): the host's LED state goes back to the keyboard
      and the macro engine stops. */
  function MacroStop(s: Sys): (s': Sys)
    requires Bounded(s.macro)
    ensures SysOk(s') && s'.macro.mode == Stopped
    ensures s'.out.leds == s.out.leds + [s.panel.ledByHost] && s'.out.reports == s.out.reports
    ensures s'.macro == s.macro.(mode := Stopped) && s'.panel == s.panel
  {
    SetLeds(s, s.panel.ledByHost).(macro := s.macro.(mode := Stopped))
  }

  /** What `UsbAlternateHook` leaves behind: the new state, `*usbCode`, `*modifiers`
      and whether the key was taken as a hotkey. */
  datatype Hooked = Hooked(sys: Sys, usb: byte, modifiers: byte, incept: bool)

  /** The effect of the blink hotkey F24 (usage 0x73) (src/main.c:705-714): blink mode
      toggles, and the host's LEDs are restored when it ends. */
  function ToggleBlink(s: Sys): (s': Sys)
    ensures s'.panel.blink == !s.panel.blink && s'.macro == s.macro
  {
    var s0 := s.(panel := s.panel.(blink := !s.panel.blink));
    if !s0.panel.blink then SetLeds(s0, s.panel.ledByHost) else s0
  }

  /** `UsbAlternateHook` (src/main.c:699-757) with `now` the value `timestampGet`
      returns. Usage 0x9A is the reboot key: the firmware spins until the watchdog
      resets it, which is `None`. F24 (0x73) toggles blink mode and is swallowed. Find
      (0x7E) starts recording when the engine is stopped and stops it otherwise; F23
      (0x72) starts a replay when stopped and stops otherwise; both are swallowed
      together with the modifiers. Any other key, also the swallowed F24, stops a
      replay. */
  function Hook(s: Sys, usb: byte, modifiers: byte, now: u32): (r: Option<Hooked>)
    requires SysOk(s)
    ensures r.None? <==> usb == 0x9A
    ensures r.Some? ==> SysOk(r.value.sys) && r.value.sys.out.reports == s.out.reports
  {
    if usb == 0x9A then None
    else if usb == 0x73 then Some(ModeKeys(ToggleBlink(s), 0, modifiers, true, now))
    else Some(ModeKeys(s, usb, modifiers, false, now))
  }

  /** The record, replay and abort part of `UsbAlternateHook` (src/main.c:715-756). */
  function ModeKeys(s: Sys, usb: byte, modifiers: byte, incept: bool, now: u32): (h: Hooked)
    requires SysOk(s)
    ensures SysOk(h.sys) && h.sys.out.reports == s.out.reports
  {
    if usb == 0x7E then
      var s2 := if s.macro.mode == Stopped
                then s.(macro := s.macro.(mode := Record, index := 0, maxIndex := 0, ledState := 0,
                                          ledTimestamp := now))
                else MacroStop(s);
      Hooked(s2, 0, 0, true)
    else if usb == 0x72 then
      var s2 := if s.macro.mode == Stopped
                then s.(macro := s.macro.(mode := Replay, index := 0, ledState := 0, time := now,
                                          ledTimestamp := now))
                else MacroStop(s);
      Hooked(s2, 0, 0, true)
    else if s.macro.mode == Replay then Hooked(MacroStop(s), usb, modifiers, incept)
    else Hooked(s, usb, modifiers, incept)
  }

  /** The record hotkey: swallowed with the modifiers; from the stopped state it starts
      an empty recording with the LED chase at phase 0, from any other state it stops
      the engine and restores the host's LEDs. */
  lemma RecordHotkey(s: Sys, modifiers: byte, now: u32)
    requires SysOk(s)
    ensures var h := Hook(s, 0x7E, modifiers, now).value;
            h.usb == 0 && h.modifiers == 0 && h.incept &&
            (s.macro.mode == Stopped ==>
               h.sys.macro == s.macro.(mode := Record, index := 0, maxIndex := 0, ledState := 0, ledTimestamp := now) &&
               h.sys.out == s.out) &&
            (s.macro.mode != Stopped ==>
               h.sys.macro.mode == Stopped && h.sys.out.leds == s.out.leds + [s.panel.ledByHost])
  {
  }

  /** The replay hotkey: swallowed with the modifiers; from the stopped state it starts a
      replay at step 0 due now, from any other state it stops the engine. */
  lemma ReplayHotkey(s: Sys, modifiers: byte, now: u32)
    requires SysOk(s)
    ensures var h := Hook(s, 0x72, modifiers, now).value;
            h.usb == 0 && h.modifiers == 0 && h.incept &&
            (s.macro.mode == Stopped ==>
               h.sys.macro == s.macro.(mode := Replay, index := 0, ledState := 0, time := now, ledTimestamp := now) &&
               h.sys.out == s.out) &&
            (s.macro.mode != Stopped ==>
               h.sys.macro.mode == Stopped && h.sys.out.leds == s.out.leds + [s.panel.ledByHost])
  {
  }

  /** Every other key passes through unchanged, except that F24 is swallowed; it stops a
      replay and leaves recording and the stopped state alone. */
  lemma OtherKeysStopReplay(s: Sys, usb: byte, modifiers: byte, now: u32)
    requires SysOk(s) && usb != 0x9A && usb != 0x7E && usb != 0x72
    ensures var h := Hook(s, usb, modifiers, now).value;
            h.modifiers == modifiers && h.incept == (usb == 0x73) &&
            h.usb == (if usb == 0x73 then 0 else usb) &&
            h.sys.macro == s.macro.(mode := if s.macro.mode == Replay then Stopped else s.macro.mode)
  {
  }

  /** The report `UpdateUsbKeystate` sends: the modifier byte, a zero byte, the packed
      usages and zeros up to eight bytes. */
  function Report(modifiers: byte, codes: seq<byte>): (r: seq<byte>)
    requires |codes| <= UsbBytes - 2
    ensures |r| == UsbBytes && r[0] == modifiers && r[1] == 0 && r[2..2 + |codes|] == codes
    ensures forall j :: 2 + |codes| <= j < UsbBytes ==> r[j] == 0
  {
    [modifiers, 0] + codes + Repeat(0, UsbBytes - 2 - |codes|)
  }

  /** The state of the loop of `UpdateUsbKeystate` after some slots: the usages packed so
      far and the modifiers as the hook has left them. */
  datatype Packed = Packed(sys: Sys, modifiers: byte, codes: seq<byte>)

  /** Every packed usage is a key: neither 0 nor the "unsupported" 0xFF. */
  predicate KeyUsages(codes: seq<byte>)
  {
    forall j :: 0 <= j < |codes| ==> codes[j] != 0 && codes[j] != 0xFF
  }

  /** A keycode table: a keycode and the current modifiers to a usage. The firmware's
      is Translate.ConvertTable; the fold below is stated for any table so that its
      lemmas need only the few facts about the table they name. */
  type Table = (u32, byte) -> byte

  /** The hotkey rows of the firmware's table (Translate.RebootKeyCode and its
      neighbours): the reboot, record, replay and blink usages each come from one
      keycode. */
  ghost predicate HotkeyRows(convert: Table)
  {
    forall c, m {:trigger convert(c, m)} ::
      (convert(c, m) == 0x9A <==> c == 0x17) && (convert(c, m) == 0x7E <==> c == 0x5C) &&
      (convert(c, m) == 0x72 <==> c == 0x28) && (convert(c, m) == 0x73 <==> c == 0x20)
  }

  lemma ConvertTableHotkeyRows()
    ensures HotkeyRows(ConvertTable)
  {
    forall c, m ensures ConvertTable(c, m) == 0x9A <==> c == 0x17 {
      RebootKeyCode(c, m);
    }
    forall c, m ensures ConvertTable(c, m) == 0x7E <==> c == 0x5C {
      RecordKeyCode(c, m);
    }
    forall c, m ensures ConvertTable(c, m) == 0x72 <==> c == 0x28 {
      ReplayKeyCode(c, m);
    }
    forall c, m ensures ConvertTable(c, m) == 0x73 <==> c == 0x20 {
      BlinkKeyCode(c, m);
    }
  }

  /** The loop of `UpdateUsbKeystate` (src/main.c:762-775) from slot `i` on: each held
      keycode is converted with the current modifiers and passed through the hook; a
      usage other than 0 and 0xFF is packed. `None` when the hook rebooted. */
  function PackFrom(convert: Table, s: Sys, keys: seq<u32>, modifiers: byte, codes: seq<byte>, i: nat, now: u32): (r: Option<Packed>)
    requires SysOk(s) && i <= |keys| && |codes| <= i && KeyUsages(codes)
    ensures r.Some? ==> SysOk(r.value.sys) && |r.value.codes| <= |keys| && KeyUsages(r.value.codes) &&
                        r.value.sys.out.reports == s.out.reports
    decreases |keys| - i
  {
    if i == |keys| then Some(Packed(s, modifiers, codes))
    else if keys[i] == 0 then PackFrom(convert, s, keys, modifiers, codes, i + 1, now)
    else
      match Hook(s, convert(keys[i], modifiers), modifiers, now)
      case None => None
      case Some(h) =>
        PackFrom(convert, h.sys, keys, h.modifiers, if h.usb != 0 && h.usb != 0xFF then codes + [h.usb] else codes, i + 1, now)
  }

  /** The reference meaning of a key list: the usage of every held keycode the table
      knows, in slot order. */
  function Usages(convert: Table, keys: seq<u32>, modifiers: byte): (codes: seq<byte>)
    ensures |codes| <= |keys|
  {
    if keys == [] then []
    else
      var u := convert(keys[0], modifiers);
      (if keys[0] != 0 && u != 0 && u != 0xFF then [u] else []) + Usages(convert, keys[1..], modifiers)
  }

  lemma {:induction false} UsagesAreKeys(convert: Table, keys: seq<u32>, modifiers: byte)
    ensures KeyUsages(Usages(convert, keys, modifiers))
    decreases |keys|
  {
    if keys != [] {
      UsagesAreKeys(convert, keys[1..], modifiers);
    }
  }

  /** None of the held keys is one of the four hotkeys. */
  predicate NoHotkeys(keys: seq<u32>)
  {
    0x17 !in keys && 0x5C !in keys && 0x28 !in keys && 0x20 !in keys
  }

  /** A key that is no hotkey passes the hook untouched outside a replay. */
  lemma HookPassesKey(s: Sys, usb: byte, modifiers: byte, now: u32)
    requires SysOk(s) && s.macro.mode != Replay
    requires usb != 0x9A && usb != 0x73 && usb != 0x7E && usb != 0x72
    ensures Hook(s, usb, modifiers, now) == Some(Hooked(s, usb, modifiers, false))
  {
  }

  lemma UsagesFrom(convert: Table, keys: seq<u32>, modifiers: byte, i: nat)
    requires i < |keys|
    ensures var u := convert(keys[i], modifiers);
            Usages(convert, keys[i..], modifiers) ==
            (if keys[i] != 0 && u != 0 && u != 0xFF then [u] else []) + Usages(convert, keys[i + 1..], modifiers)
  {
    assert keys[i..][0] == keys[i];
    assert keys[i..][1..] == keys[i + 1..];
  }

  /** Without hotkeys and outside a replay the hook changes nothing, and the packed
      usages are exactly the reference usages of the held keys. */
  lemma {:induction false} PackWithoutHotkeys(convert: Table, s: Sys, keys: seq<u32>, modifiers: byte, codes: seq<byte>, i: nat, now: u32)
    requires HotkeyRows(convert)
    requires SysOk(s) && i <= |keys| && |codes| <= i && KeyUsages(codes)
    requires s.macro.mode != Replay && NoHotkeys(keys)
    ensures PackFrom(convert, s, keys, modifiers, codes, i, now) ==
            Some(Packed(s, modifiers, codes + Usages(convert, keys[i..], modifiers)))
    decreases |keys| - i
  {
    if i == |keys| {
      assert keys[i..] == [];
      assert codes + [] == codes;
    } else {
      var u := convert(keys[i], modifiers);
      PackStepWithoutHotkeys(convert, s, keys, modifiers, codes, i, now);
      UsagesFrom(convert, keys, modifiers, i);
      var rest := Usages(convert, keys[i + 1..], modifiers);
      if keys[i] != 0 && u != 0 && u != 0xFF {
        PackWithoutHotkeys(convert, s, keys, modifiers, codes + [u], i + 1, now);
        assert codes + [u] + rest == codes + ([u] + rest);
      } else {
        assert codes + [] == codes;
        PackWithoutHotkeys(convert, s, keys, modifiers, codes, i + 1, now);
        assert [] + rest == rest;
      }
    }
  }

  /** One slot of the pack without hotkeys: its usage, if the table has one, is
      appended and nothing else changes. */
  lemma PackStepWithoutHotkeys(convert: Table, s: Sys, keys: seq<u32>, modifiers: byte, codes: seq<byte>, i: nat, now: u32)
    requires HotkeyRows(convert)
    requires SysOk(s) && i < |keys| && |codes| <= i && KeyUsages(codes)
    requires s.macro.mode != Replay && NoHotkeys(keys)
    ensures var u := convert(keys[i], modifiers);
            var add: seq<byte> := if keys[i] != 0 && u != 0 && u != 0xFF then [u] else [];
            |codes + add| <= i + 1 && KeyUsages(codes + add) &&
            PackFrom(convert, s, keys, modifiers, codes, i, now) == PackFrom(convert, s, keys, modifiers, codes + add, i + 1, now)
  {
    var u := convert(keys[i], modifiers);
    if keys[i] != 0 {
      assert keys[i] in keys;
      HookPassesKey(s, u, modifiers, now);
    }
    if !(keys[i] != 0 && u != 0 && u != 0xFF) {
      assert codes + [] == codes;
    }
  }

  /** In a replay, the first held key stops the engine through the hook and is packed
      like any other; the pack then goes on outside a replay. The usages and the
      modifiers come out as without a replay. */
  lemma {:induction false} PackInReplay(convert: Table, s: Sys, keys: seq<u32>, modifiers: byte, codes: seq<byte>, i: nat, now: u32)
    requires HotkeyRows(convert)
    requires SysOk(s) && i <= |keys| && |codes| <= i && KeyUsages(codes)
    requires s.macro.mode == Replay && NoHotkeys(keys)
    ensures var r := PackFrom(convert, s, keys, modifiers, codes, i, now);
            r.Some? && r.value.modifiers == modifiers && r.value.codes == codes + Usages(convert, keys[i..], modifiers) &&
            r.value.sys.panel == s.panel && r.value.sys.out.reports == s.out.reports &&
            (r.value.sys.macro.mode == Stopped <==> exists j :: i <= j < |keys| && keys[j] != 0) &&
            (r.value.sys.macro.mode != Stopped ==> r.value.sys.macro.mode == Replay)
    decreases |keys| - i
  {
    if i == |keys| {
      assert keys[i..] == [];
      assert codes + [] == codes;
    } else {
      var u := convert(keys[i], modifiers);
      UsagesFrom(convert, keys, modifiers, i);
      var rest := Usages(convert, keys[i + 1..], modifiers);
      if keys[i] == 0 {
        PackInReplay(convert, s, keys, modifiers, codes, i + 1, now);
        assert [] + rest == rest;
      } else {
        PackHeldInReplay(convert, s, keys, modifiers, codes, i, now);
      }
    }
  }

  /** The first held key of a replay is where the engine stops. */
  lemma PackHeldInReplay(convert: Table, s: Sys, keys: seq<u32>, modifiers: byte, codes: seq<byte>, i: nat, now: u32)
    requires HotkeyRows(convert)
    requires SysOk(s) && i < |keys| && |codes| <= i && KeyUsages(codes)
    requires s.macro.mode == Replay && NoHotkeys(keys) && keys[i] != 0
    ensures PackFrom(convert, s, keys, modifiers, codes, i, now) ==
            Some(Packed(MacroStop(s), modifiers, codes + Usages(convert, keys[i..], modifiers)))
  {
    PackHeldChain(convert, s, keys, modifiers, codes, i, now);
    HeldUsages(convert, keys, modifiers, codes, i);
  }

  /** The usages from a held key on are its own usage, if any, then those after it. */
  lemma HeldUsages(convert: Table, keys: seq<u32>, modifiers: byte, codes: seq<byte>, i: nat)
    requires i < |keys| && keys[i] != 0
    ensures var u := convert(keys[i], modifiers);
            var add: seq<byte> := if u != 0 && u != 0xFF then [u] else [];
            codes + add + Usages(convert, keys[i + 1..], modifiers) == codes + Usages(convert, keys[i..], modifiers)
  {
    var u := convert(keys[i], modifiers);
    var add: seq<byte> := if u != 0 && u != 0xFF then [u] else [];
    var rest := Usages(convert, keys[i + 1..], modifiers);
    UsagesFrom(convert, keys, modifiers, i);
    assert codes + add + rest == codes + (add + rest);
  }

  /** The stop at the first held key of a replay, followed by the packing outside a replay. */
  lemma PackHeldChain(convert: Table, s: Sys, keys: seq<u32>, modifiers: byte, codes: seq<byte>, i: nat, now: u32)
    requires HotkeyRows(convert)
    requires SysOk(s) && i < |keys| && |codes| <= i && KeyUsages(codes)
    requires s.macro.mode == Replay && NoHotkeys(keys) && keys[i] != 0
    ensures var u := convert(keys[i], modifiers);
            var add: seq<byte> := if u != 0 && u != 0xFF then [u] else [];
            PackFrom(convert, s, keys, modifiers, codes, i, now) ==
            Some(Packed(MacroStop(s), modifiers, codes + add + Usages(convert, keys[i + 1..], modifiers)))
  {
    var u := convert(keys[i], modifiers);
    var add: seq<byte> := if u != 0 && u != 0xFF then [u] else [];
    PackStepInReplay(convert, s, keys, modifiers, codes, i, now);
    PackWithoutHotkeys(convert, MacroStop(s), keys, modifiers, codes + add, i + 1, now);
  }

  /** The first held key of a replay: the hook stops the engine and passes the usage. */
  lemma PackStepInReplay(convert: Table, s: Sys, keys: seq<u32>, modifiers: byte, codes: seq<byte>, i: nat, now: u32)
    requires HotkeyRows(convert)
    requires SysOk(s) && i < |keys| && |codes| <= i && KeyUsages(codes)
    requires s.macro.mode == Replay && NoHotkeys(keys) && keys[i] != 0
    ensures var u := convert(keys[i], modifiers);
            var add: seq<byte> := if u != 0 && u != 0xFF then [u] else [];
            |codes + add| <= i + 1 && KeyUsages(codes + add) &&
            PackFrom(convert, s, keys, modifiers, codes, i, now) == PackFrom(convert, MacroStop(s), keys, modifiers, codes + add, i + 1, now)
  {
    var u := convert(keys[i], modifiers);
    assert keys[i] in keys;
    assert Hook(s, u, modifiers, now) == Some(Hooked(MacroStop(s), u, modifiers, false));
    if !(u != 0 && u != 0xFF) {
      assert codes + [] == codes;
    }
  }

  /** With no key held from slot `i` on, the pack adds nothing and changes nothing. */
  lemma {:induction false} PackNoKeys(convert: Table, s: Sys, keys: seq<u32>, modifiers: byte, codes: seq<byte>, i: nat, now: u32)
    requires SysOk(s) && i <= |keys| && |codes| <= i && KeyUsages(codes)
    requires forall j :: i <= j < |keys| ==> keys[j] == 0
    ensures PackFrom(convert, s, keys, modifiers, codes, i, now) == Some(Packed(s, modifiers, codes))
    decreases |keys| - i
  {
    if i < |keys| {
      PackNoKeys(convert, s, keys, modifiers, codes, i + 1, now);
    }
  }

  /** The pack halts exactly when one of the remaining held keys is the reboot key. */
  lemma {:induction false} PackHaltsOnRebootKey(convert: Table, s: Sys, keys: seq<u32>, modifiers: byte, codes: seq<byte>, i: nat, now: u32)
    requires HotkeyRows(convert)
    requires SysOk(s) && i <= |keys| && |codes| <= i && KeyUsages(codes)
    ensures PackFrom(convert, s, keys, modifiers, codes, i, now).None? <==> 0x17 in keys[i..]
    decreases |keys| - i
  {
    if i < |keys| {
      assert keys[i..] == [keys[i]] + keys[i + 1..];
      if keys[i] == 0 {
        PackHaltsOnRebootKey(convert, s, keys, modifiers, codes, i + 1, now);
      } else {
        var u := convert(keys[i], modifiers);
        if u != 0x9A {
          var h := Hook(s, u, modifiers, now).value;
          var codes' := if h.usb != 0 && h.usb != 0xFF then codes + [h.usb] else codes;
          PackHaltsOnRebootKey(convert, h.sys, keys, h.modifiers, codes', i + 1, now);
        }
      }
    }
  }

  /** The pause stored with a step: the time since the previous step, played back
      three times faster; the subtraction wraps like the firmware's `uint32_t`. */
  function Delay(since: u32, now: u32): u32
  {
    (now - since) / 3
  }

  /** Whether the clock has reached a deadline, compared as `uint32_t`. */
  function Due(now: u32, deadline: u32): bool
  {
    now >= deadline
  }

  /** A deadline `ms` milliseconds after `t`, wrapping like the firmware's `uint32_t`. */
  function Advance(t: u32, ms: u32): u32
  {
    t + ms
  }

  /** A recorded step (src/main.c:784-805): while recording, the report's first
      `dataBytes` bytes are stored in the next free slot, unless it is the very first
      step and the report is empty (the release of the record hotkey itself). The first
      step waits 0 ms, every later one a third of the time since the previous one.
      Filling the 40th slot stops the recording. */
  function RecordStep(s: Sys, report: seq<byte>, dataBytes: nat, now: u32): (s': Sys)
    requires SysOk(s) && |report| == UsbBytes && 2 <= dataBytes <= UsbBytes
    ensures SysOk(s') && s'.out.reports == s.out.reports && s'.panel == s.panel
  {
    if s.macro.mode != Record then s
    else
      var index := s.macro.maxIndex;
      if index != 0 || dataBytes > 2 || report[0] != 0 then
        var delay: u32 := if index > 0 then Delay(s.macro.time, now) else 0;
        var s1 := s.(macro := s.macro.(record := s.macro.record[index := Step(report[..dataBytes], delay)],
                                       time := now, maxIndex := index + 1));
        if index + 1 >= RecordSteps then MacroStop(s1) else s1
      else s
  }

  /** `UpdateUsbKeystate` (src/main.c:759-806): the held keys are packed into one
      eight-byte report, which is sent and, while recording, stored as a step. `None`
      when a held key rebooted the device. */
  function UpdateUsbKeystate(s: Sys, keys: seq<u32>, modifiers: byte, now: u32): (r: Option<Sys>)
    requires SysOk(s) && |keys| == MaxKeys
    ensures r.Some? ==> SysOk(r.value) && |r.value.out.reports| == |s.out.reports| + 1 &&
                        |r.value.out.reports[|s.out.reports|]| == UsbBytes
  {
    match PackFrom(ConvertTable, s, keys, modifiers, [], 0, now)
    case None => None
    case Some(p) =>
      var report := Report(p.modifiers, p.codes);
      var s1 := SendReport(p.sys, report);
      Some(RecordStep(s1, report, 2 + |p.codes|, now))
  }

  /** Without hotkeys held, the report holds the modifiers as given, a zero byte, the
      usages of the held keys in slot order and zeros; the panel flags are left alone.
      In a replay the same report is sent, and any held key stops the replay. */
  lemma UpdateWithoutHotkeys(s: Sys, keys: seq<u32>, modifiers: byte, now: u32)
    requires SysOk(s) && |keys| == MaxKeys && NoHotkeys(keys)
    ensures var r := UpdateUsbKeystate(s, keys, modifiers, now);
            r.Some? && r.value.panel == s.panel &&
            r.value.out.reports == s.out.reports + [Report(modifiers, Usages(ConvertTable, keys, modifiers))] &&
            (s.macro.mode == Replay ==> (r.value.macro.mode == Stopped <==> exists j :: 0 <= j < |keys| && keys[j] != 0))
  {
    ConvertTableHotkeyRows();
    if s.macro.mode == Replay {
      PackInReplay(ConvertTable, s, keys, modifiers, [], 0, now);
    } else {
      PackWithoutHotkeys(ConvertTable, s, keys, modifiers, [], 0, now);
    }
    assert keys[0..] == keys;
    assert [] + Usages(ConvertTable, keys, modifiers) == Usages(ConvertTable, keys, modifiers);
  }

  /** Holding the reboot key is the only way the report is not sent. */
  lemma UpdateHaltsOnRebootKey(s: Sys, keys: seq<u32>, modifiers: byte, now: u32)
    requires SysOk(s) && |keys| == MaxKeys
    ensures UpdateUsbKeystate(s, keys, modifiers, now).None? <==> 0x17 in keys
  {
    ConvertTableHotkeyRows();
    PackHaltsOnRebootKey(ConvertTable, s, keys, modifiers, [], 0, now);
    assert keys[0..] == keys;
  }

  /** The start-key filter of the recorder: a first step is stored only when the
      report holds a key or a modifier. */
  predicate Recorded(m: MacroState, report: seq<byte>, dataBytes: nat)
    requires |report| > 0
  {
    m.mode == Record && (m.maxIndex != 0 || dataBytes > 2 || report[0] != 0)
  }

  /** While recording, a step that passes the start-key filter lands in slot
      `maxIndex`, with delay 0 for the first step and a third of the elapsed time
      otherwise, and the count goes up by one. */
  lemma RecordAppends(s: Sys, report: seq<byte>, dataBytes: nat, now: u32)
    requires SysOk(s) && |report| == UsbBytes && 2 <= dataBytes <= UsbBytes && Recorded(s.macro, report, dataBytes)
    ensures var m := s.macro;
            var m' := RecordStep(s, report, dataBytes, now).macro;
            m'.maxIndex == m.maxIndex + 1 && m'.time == now &&
            m'.record == m.record[m.maxIndex := Step(report[..dataBytes], if m.maxIndex == 0 then 0 else Delay(m.time, now))]
  {
    var m := s.macro;
    var delay: u32 := if m.maxIndex > 0 then Delay(m.time, now) else 0;
    var s1 := s.(macro := m.(record := m.record[m.maxIndex := Step(report[..dataBytes], delay)],
                             time := now, maxIndex := m.maxIndex + 1));
    assert RecordStep(s, report, dataBytes, now) == if m.maxIndex + 1 >= RecordSteps then MacroStop(s1) else s1;
  }

  /** Recording stops exactly when the 40th slot is filled; until then it goes on. */
  lemma RecordStopsWhenFull(s: Sys, report: seq<byte>, dataBytes: nat, now: u32)
    requires SysOk(s) && |report| == UsbBytes && 2 <= dataBytes <= UsbBytes && Recorded(s.macro, report, dataBytes)
    ensures var s' := RecordStep(s, report, dataBytes, now);
            (s'.macro.mode == Stopped <==> s.macro.maxIndex + 1 == RecordSteps) &&
            (s'.macro.mode != Stopped ==> s'.macro.mode == Record && s'.out.leds == s.out.leds) &&
            (s'.macro.mode == Stopped ==> s'.out.leds == s.out.leds + [s.panel.ledByHost])
  {
  }

  /** Outside recording, and for the empty first report, nothing is stored. */
  lemma RecordSkips(s: Sys, report: seq<byte>, dataBytes: nat, now: u32)
    requires SysOk(s) && |report| == UsbBytes && 2 <= dataBytes <= UsbBytes && !Recorded(s.macro, report, dataBytes)
    ensures RecordStep(s, report, dataBytes, now) == s
  {
  }

  /** The LED pattern of the chase: in replay the lit LED moves 2, 4, 1, in recording
      1, 4, 2; an out-of-range phase lights nothing. */
  function LedBits(mode: MacroMode, phase: nat): (bits: byte)
    ensures mode == Stopped || phase >= 3 ==> bits == 0
  {
    if mode == Replay then (if phase == 0 then 2 else if phase == 1 then 4 else if phase == 2 then 1 else 0)
    else if mode == Record then (if phase == 0 then 1 else if phase == 1 then 4 else if phase == 2 then 2 else 0)
    else 0
  }

  /** The chase's phase counter: 0, 1, 2 and back to 0. */
  function NextPhase(phase: nat): (next: nat)
    ensures next < 3
  {
    if phase + 1 >= 3 then 0 else phase + 1
  }

  /** The LED part of `macroExecute` (src/main.c:810-838): while the engine runs and the
      LED deadline has passed, the phase's LED is lit, the phase advances modulo 3 and
      the deadline moves 166 ms on. */
  function LedTick(s: Sys, now: u32): (s': Sys)
    requires SysOk(s)
    ensures SysOk(s') && s'.panel == s.panel && s'.out.reports == s.out.reports
    ensures s'.macro == s.macro.(ledState := s'.macro.ledState, ledTimestamp := s'.macro.ledTimestamp)
  {
    if s.macro.mode != Stopped && Due(now, s.macro.ledTimestamp) then
      var phase := s.macro.ledState;
      SetLeds(s, LedBits(s.macro.mode, phase)).(macro := s.macro.(ledState := NextPhase(phase),
                                                                   ledTimestamp := Advance(s.macro.ledTimestamp, 166)))
    else s
  }

  /** A clock value at or past every deadline. */
  const Late: u32 := 0xFFFFFFFF

  /** Three ticks of the chase light the three LEDs in the mode's order starting at the
      current phase, come back to that phase and move the deadline by 498 ms. */
  lemma {:induction false} LedChaseCycle(s: Sys)
    requires SysOk(s) && s.macro.mode != Stopped
    ensures var m := s.macro;
            var s3 := LedTick(LedTick(LedTick(s, Late), Late), Late);
            s3.out.leds == s.out.leds + [LedBits(m.mode, m.ledState), LedBits(m.mode, NextPhase(m.ledState)),
                                         LedBits(m.mode, NextPhase(NextPhase(m.ledState)))] &&
            s3.macro == m.(ledTimestamp := m.ledTimestamp + 498)
  {
    var t := s.macro.ledTimestamp;
    LedTickDue(s, Late);
    var s1 := LedTick(s, Late);
    LedTickDue(s1, Late);
    var s2 := LedTick(s1, Late);
    LedTickDue(s2, Late);
    assert t + 166 + 166 + 166 == t + 498;
  }

  /** A chase tick that is due, without the case split on the deadline. */
  lemma LedTickDue(s: Sys, now: u32)
    requires SysOk(s) && s.macro.mode != Stopped && now >= s.macro.ledTimestamp
    ensures var m := s.macro;
            LedTick(s, now) == SetLeds(s, LedBits(m.mode, m.ledState)).(macro := m.(
              ledState := NextPhase(m.ledState), ledTimestamp := Advance(m.ledTimestamp, 166)))
  {
  }

  /** The two chase patterns. */
  lemma ChasePatterns()
    ensures [LedBits(Replay, 0), LedBits(Replay, 1), LedBits(Replay, 2)] == [2, 4, 1]
    ensures [LedBits(Record, 0), LedBits(Record, 1), LedBits(Record, 2)] == [1, 4, 2]
  {
  }

  /** The replay part of `macroExecute` (src/main.c:840-865): once the step is due its
      bytes are sent; when another recorded step follows, the index moves to it and its
      delay is added to the deadline; otherwise a release-all report `[0, 0]` is sent
      unless the last step already was one, and the engine stops. */
  function ReplayTick(s: Sys, now: u32): (s': Sys)
    requires SysOk(s)
    ensures SysOk(s')
  {
    if Due(now, s.macro.time) then
      var index := s.macro.index;
      var step := s.macro.record[index];
      var s1 := SendReport(s, step.usb);
      var next := index + 1;
      if next < RecordSteps && next < s.macro.maxIndex then
        s1.(macro := s1.macro.(index := next, time := Advance(s.macro.time, s.macro.record[next].delayMs)))
      else
        var s2 := if |step.usb| != 2 || step.usb[0] != 0 then SendReport(s1, [0, 0]) else s1;
        MacroStop(s2)
    else s
  }

  /** `macroExecute` (src/main.c:808-868): the LED chase, then the replay; the flag says
      whether a replay is running. */
  function Execute(s: Sys, now: u32): (r: (Sys, bool))
    requires SysOk(s)
    ensures SysOk(r.0) && (r.1 <==> s.macro.mode == Replay)
    ensures s.macro.mode != Replay ==> r.0 == LedTick(s, now)
  {
    var s1 := LedTick(s, now);
    if s1.macro.mode == Replay then (ReplayTick(s1, now), true) else (s1, false)
  }

  /** Passes of the main loop's `macroExecute` call, the `j`-th with the clock reading
      `clocks[j]`. */
  function ExecuteAt(s: Sys, clocks: seq<u32>): (s': Sys)
    requires SysOk(s)
    ensures SysOk(s')
    decreases |clocks|
  {
    if clocks == [] then s else Execute(ExecuteAt(s, clocks[..|clocks| - 1]), clocks[|clocks| - 1]).0
  }

  /** The replayed bytes of the steps `lo` to `hi - 1`, in order. */
  function Sent(record: seq<Step>, lo: nat, hi: nat): (r: seq<seq<byte>>)
    requires lo <= hi <= |record|
    ensures |r| == hi - lo && forall j :: 0 <= j < hi - lo ==> r[j] == record[lo + j].usb
    decreases hi - lo
  {
    if lo == hi then [] else [record[lo].usb] + Sent(record, lo + 1, hi)
  }

  /** The deadline of step `lo + k` of a replay whose step `lo` is due at `t`: each
      later step is due its stored delay after the one before it, wrapping like the
      firmware's `uint32_t`. */
  function Deadline(record: seq<Step>, t: u32, lo: nat, k: nat): u32
    requires lo + k < |record|
    decreases k
  {
    if k == 0 then t else Advance(Deadline(record, t, lo, k - 1), record[lo + k].delayMs)
  }

  /** Every clock reading reaches the deadline of the step it is to send. */
  predicate OnTime(record: seq<Step>, t: u32, lo: nat, clocks: seq<u32>)
  {
    lo + |clocks| <= |record| &&
    forall j :: 0 <= j < |clocks| ==> Due(clocks[j], Deadline(record, t, lo, j))
  }

  lemma OnTimePrefix(record: seq<Step>, t: u32, lo: nat, clocks: seq<u32>)
    requires OnTime(record, t, lo, clocks) && clocks != []
    ensures OnTime(record, t, lo, clocks[..|clocks| - 1])
    ensures Due(clocks[|clocks| - 1], Deadline(record, t, lo, |clocks| - 1))
  {
  }

  lemma SentSnoc(record: seq<Step>, lo: nat, hi: nat, reports: seq<seq<byte>>)
    requires lo <= hi < |record|
    ensures reports + Sent(record, lo, hi + 1) == reports + Sent(record, lo, hi) + [record[hi].usb]
  {
    assert Sent(record, lo, hi + 1) == Sent(record, lo, hi) + [record[hi].usb];
  }

  /** Replay sends the recorded steps in the order they were recorded, one in each pass
      whose clock has reached the step's deadline, keeps replaying while steps remain,
      and after `k` steps the next one is due at the start plus the `k` stored delays
      that follow it. */
  lemma {:induction false} ReplayInOrder(s: Sys, clocks: seq<u32>)
    requires SysOk(s) && s.macro.mode == Replay && s.macro.index + |clocks| < s.macro.maxIndex
    requires OnTime(s.macro.record, s.macro.time, s.macro.index, clocks)
    ensures var s' := ExecuteAt(s, clocks);
            var lo := s.macro.index;
            s'.out.reports == s.out.reports + Sent(s.macro.record, lo, lo + |clocks|) &&
            s'.macro.mode == Replay && s'.macro.index == lo + |clocks| &&
            s'.macro.time == Deadline(s.macro.record, s.macro.time, lo, |clocks|) &&
            s'.macro.maxIndex == s.macro.maxIndex && s'.macro.record == s.macro.record
    decreases |clocks|
  {
    if clocks != [] {
      var k := |clocks| - 1;
      OnTimePrefix(s.macro.record, s.macro.time, s.macro.index, clocks);
      ReplayInOrder(s, clocks[..k]);
      var q := ExecuteAt(s, clocks[..k]);
      ReplayAdvances(q, clocks[k]);
      SentSnoc(s.macro.record, s.macro.index, s.macro.index + k, s.out.reports);
    }
  }

  /** One pass in the middle of a replay whose clock has reached the deadline sends the
      current step, moves on to the next and adds that step's delay to the deadline. */
  lemma ReplayAdvances(s: Sys, now: u32)
    requires SysOk(s) && s.macro.mode == Replay && s.macro.index + 1 < s.macro.maxIndex && Due(now, s.macro.time)
    ensures var s' := Execute(s, now).0;
            s'.out.reports == s.out.reports + [s.macro.record[s.macro.index].usb] &&
            s'.macro.mode == Replay && s'.macro.index == s.macro.index + 1 &&
            s'.macro.time == Advance(s.macro.time, s.macro.record[s.macro.index + 1].delayMs) &&
            s'.macro.maxIndex == s.macro.maxIndex && s'.macro.record == s.macro.record
  {
    var q := LedTick(s, now);
    assert q.macro.index == s.macro.index && q.macro.record == s.macro.record && q.macro.time == s.macro.time;
    assert Due(now, q.macro.time);
    assert Execute(s, now).0 == ReplayTick(q, now);
  }

  /** The last step: once it is due it is sent, followed by `[0, 0]` unless it was a
      two-byte report without modifiers, and the engine stops with the host's LEDs. */
  lemma ReplayEnds(s: Sys, now: u32)
    requires SysOk(s) && s.macro.mode == Replay && now >= s.macro.time
    requires s.macro.index + 1 >= s.macro.maxIndex
    ensures var step := s.macro.record[s.macro.index];
            var s' := Execute(s, now).0;
            s'.macro.mode == Stopped &&
            s'.out.reports == s.out.reports + [step.usb] + (if |step.usb| == 2 && step.usb[0] == 0 then [] else [[0, 0]]) &&
            s'.out.leds[|s'.out.leds| - 1] == s.panel.ledByHost
  {
  }

  /** Before its deadline a step is not sent: the pass leaves the step pending, with
      the index, the deadline, the count and the memory as they were. */
  lemma ReplayWaits(s: Sys, now: u32)
    requires SysOk(s) && s.macro.mode == Replay && now < s.macro.time
    ensures var s' := Execute(s, now).0;
            s'.out.reports == s.out.reports && s'.macro.mode == Replay &&
            s'.macro.index == s.macro.index && s'.macro.time == s.macro.time &&
            s'.macro.maxIndex == s.macro.maxIndex && s'.macro.record == s.macro.record
  {
  }

  /** Two states that agree on everything replay reads and writes: the reports sent and
      the macro state apart from the LED chase. */
  predicate SameReplay(a: Sys, b: Sys)
  {
    a.out.reports == b.out.reports &&
    a.macro.(ledState := 0, ledTimestamp := 0) == b.macro.(ledState := 0, ledTimestamp := 0)
  }

  /** `macroExecute` on two such states leaves two such states. */
  lemma ExecuteAlike(a: Sys, b: Sys, now: u32)
    requires SysOk(a) && SysOk(b) && SameReplay(a, b)
    ensures SameReplay(Execute(a, now).0, Execute(b, now).0)
  {
    var a1, b1 := LedTick(a, now), LedTick(b, now);
    assert SameReplay(a1, b1) by {
      assert a1.macro.(ledState := 0, ledTimestamp := 0) == a.macro.(ledState := 0, ledTimestamp := 0);
      assert b1.macro.(ledState := 0, ledTimestamp := 0) == b.macro.(ledState := 0, ledTimestamp := 0);
    }
    ReplayTickAlike(a1, b1, now);
  }

  lemma ReplayTickAlike(a: Sys, b: Sys, now: u32)
    requires SysOk(a) && SysOk(b) && SameReplay(a, b)
    ensures a.macro.mode == b.macro.mode
    ensures SameReplay(ReplayTick(a, now), ReplayTick(b, now))
  {
    var ma, mb := a.macro.(ledState := 0, ledTimestamp := 0), b.macro.(ledState := 0, ledTimestamp := 0);
    assert ma.mode == mb.mode && ma.index == mb.index && ma.maxIndex == mb.maxIndex &&
           ma.time == mb.time && ma.record == mb.record;
    if Due(now, a.macro.time) {
      var step := a.macro.record[a.macro.index];
      var a1, b1 := SendReport(a, step.usb), SendReport(b, step.usb);
      SendAlike(a, b, step.usb);
      var next := a.macro.index + 1;
      if !(next < RecordSteps && next < a.macro.maxIndex) {
        var a2 := if |step.usb| != 2 || step.usb[0] != 0 then SendReport(a1, [0, 0]) else a1;
        var b2 := if |step.usb| != 2 || step.usb[0] != 0 then SendReport(b1, [0, 0]) else b1;
        SendAlike(a1, b1, [0, 0]);
        StopAlike(a2, b2);
      }
    }
  }

  lemma SendAlike(a: Sys, b: Sys, report: seq<byte>)
    requires SameReplay(a, b)
    ensures SameReplay(SendReport(a, report), SendReport(b, report))
  {
  }

  lemma StopAlike(a: Sys, b: Sys)
    requires Bounded(a.macro) && Bounded(b.macro) && SameReplay(a, b)
    ensures SameReplay(MacroStop(a), MacroStop(b))
  {
    assert MacroStop(a).macro.(ledState := 0, ledTimestamp := 0) == a.macro.(ledState := 0, ledTimestamp := 0).(mode := Stopped);
    assert MacroStop(b).macro.(ledState := 0, ledTimestamp := 0) == b.macro.(ledState := 0, ledTimestamp := 0).(mode := Stopped);
  }

  lemma {:induction false} ExecuteAtAlike(a: Sys, b: Sys, clocks: seq<u32>)
    requires SysOk(a) && SysOk(b) && SameReplay(a, b)
    ensures SameReplay(ExecuteAt(a, clocks), ExecuteAt(b, clocks))
    decreases |clocks|
  {
    if clocks != [] {
      var init := clocks[..|clocks| - 1];
      ExecuteAtAlike(a, b, init);
      ExecuteAlike(ExecuteAt(a, init), ExecuteAt(b, init), clocks[|clocks| - 1]);
    }
  }

  lemma ExecuteAtSnoc(s: Sys, clocks: seq<u32>, now: u32)
    requires SysOk(s)
    ensures ExecuteAt(s, clocks + [now]) == Execute(ExecuteAt(s, clocks), now).0
  {
    assert (clocks + [now])[..|clocks|] == clocks;
  }

  /** A pass that finds no step due, or no replay running, changes nothing replay
      depends on; only the LED chase may move. */
  lemma IdlePass(s: Sys, now: u32)
    requires SysOk(s) && (s.macro.mode != Replay || !Due(now, s.macro.time))
    ensures SameReplay(Execute(s, now).0, s)
  {
  }

  /** A pass before the next step's deadline, or after the replay has ended, can be
      inserted anywhere into a run of passes: every later pass sends the same reports
      and leaves the same replay state. So the all-due runs of ReplayAll and
      RecordThenReplay stand for every run with idle passes between the steps. */
  lemma IdlePassInserted(s: Sys, pre: seq<u32>, now: u32, post: seq<u32>)
    requires SysOk(s)
    requires var q := ExecuteAt(s, pre); q.macro.mode != Replay || !Due(now, q.macro.time)
    ensures SameReplay(ExecuteAt(s, pre + [now] + post), ExecuteAt(s, pre + post))
  {
    var q := ExecuteAt(s, pre);
    ExecuteAtAppend(s, pre + [now], post);
    ExecuteAtAppend(s, pre, post);
    ExecuteAtSnoc(s, pre, now);
    IdlePass(q, now);
    ExecuteAtAlike(Execute(q, now).0, q, post);
  }

  /** Passes over two runs of clock readings in turn are the passes over the two joined. */
  lemma {:induction false} ExecuteAtAppend(s: Sys, a: seq<u32>, b: seq<u32>)
    requires SysOk(s)
    ensures ExecuteAt(s, a + b) == ExecuteAt(ExecuteAt(s, a), b)
    decreases |b|
  {
    if b == [] {
      assert a + b == a;
    } else {
      var b0, x := b[..|b| - 1], b[|b| - 1];
      assert a + b == (a + b0) + [x];
      ExecuteAtSnoc(s, a + b0, x);
      ExecuteAtAppend(s, a, b0);
    }
  }

  /** One call of `UpdateUsbKeystate` while recording: the report it sends, how many of
      its bytes are data, and the clock reading. */
  datatype Keystroke = Keystroke(report: seq<byte>, dataBytes: nat, now: u32)

  predicate Typed(ks: seq<Keystroke>)
  {
    forall j :: 0 <= j < |ks| ==> |ks[j].report| == UsbBytes && 2 <= ks[j].dataBytes <= UsbBytes
  }

  /** The recorder fed the keystrokes `ks` in order. */
  function RecordRun(s: Sys, ks: seq<Keystroke>): (s': Sys)
    requires SysOk(s) && Typed(ks)
    ensures SysOk(s') && s'.out.reports == s.out.reports && s'.panel == s.panel
    decreases |ks|
  {
    if ks == [] then s
    else
      var k := ks[|ks| - 1];
      RecordStep(RecordRun(s, ks[..|ks| - 1]), k.report, k.dataBytes, k.now)
  }

  /** What replay sends for a keystroke: the data bytes of its report. */
  function Replayed(ks: seq<Keystroke>): (r: seq<seq<byte>>)
    requires Typed(ks)
    ensures |r| == |ks| && forall j :: 0 <= j < |ks| ==> r[j] == ks[j].report[..ks[j].dataBytes]
    decreases |ks|
  {
    if ks == [] then [] else Replayed(ks[..|ks| - 1]) + [ks[|ks| - 1].report[..ks[|ks| - 1].dataBytes]]
  }

  /** The pause stored with keystroke `j`: none for the first, a third of the time since
      the previous keystroke for every later one. */
  function StoredDelay(ks: seq<Keystroke>, j: nat): u32
    requires j < |ks|
  {
    if j == 0 then 0 else Delay(ks[j - 1].now, ks[j].now)
  }

  /** The deadline replay gives keystroke `j` when the replay starts at `t`: the first
      at once, every later one its stored pause after the one before it. */
  function Paced(ks: seq<Keystroke>, t: u32, j: nat): u32
    requires j < |ks|
    decreases j
  {
    if j == 0 then t else Advance(Paced(ks, t, j - 1), StoredDelay(ks, j))
  }

  /** The first slots of `record` hold the keystrokes `ks`: the data bytes of each
      report and its stored pause. */
  predicate Stores(record: seq<Step>, ks: seq<Keystroke>)
    requires Typed(ks)
  {
    |ks| <= |record| &&
    forall j :: 0 <= j < |ks| ==> record[j] == Step(ks[j].report[..ks[j].dataBytes], StoredDelay(ks, j))
  }

  lemma StoresSnoc(record: seq<Step>, ks: seq<Keystroke>, step: Step)
    requires Typed(ks) && 0 < |ks| <= |record| && Stores(record, ks[..|ks| - 1])
    requires step == Step(ks[|ks| - 1].report[..ks[|ks| - 1].dataBytes], StoredDelay(ks, |ks| - 1))
    ensures Stores(record[|ks| - 1 := step], ks)
  {
    var init := ks[..|ks| - 1];
    forall j | 0 <= j < |ks| - 1
      ensures StoredDelay(init, j) == StoredDelay(ks, j)
    {
    }
  }

  /** A recording begun with an empty memory stores every keystroke, the first one
      holding a key or a modifier, in the slot of its position: its data bytes and its
      pause. It goes on recording while the memory has room. */
  lemma {:induction false} RecordRunStores(s: Sys, ks: seq<Keystroke>)
    requires SysOk(s) && Typed(ks) && s.macro.mode == Record && s.macro.maxIndex == 0
    requires 0 < |ks| < RecordSteps && (ks[0].dataBytes > 2 || ks[0].report[0] != 0)
    ensures var m := RecordRun(s, ks).macro;
            m.mode == Record && m.maxIndex == |ks| && m.time == ks[|ks| - 1].now && Stores(m.record, ks)
    decreases |ks|
  {
    var n := |ks|;
    var k := ks[n - 1];
    var init := ks[..n - 1];
    var q := RecordRun(s, init);
    assert RecordRun(s, ks) == RecordStep(q, k.report, k.dataBytes, k.now);
    assert q.macro.mode == Record && q.macro.maxIndex == n - 1 && Stores(q.macro.record, init) by {
      if n > 1 {
        RecordRunStores(s, init);
      } else {
        assert q == s;
      }
    }
    var d: u32 := if n - 1 == 0 then 0 else Delay(q.macro.time, k.now);
    assert d == StoredDelay(ks, n - 1);
    assert Recorded(q.macro, k.report, k.dataBytes);
    RecordAppends(q, k.report, k.dataBytes, k.now);
    RecordStopsWhenFull(q, k.report, k.dataBytes, k.now);
    StoresSnoc(q.macro.record, ks, Step(k.report[..k.dataBytes], d));
  }

  /** With the slots holding the recorded keystrokes, the replay deadlines are the
      keystrokes' paced times. */
  lemma {:induction false} DeadlinesArePaced(record: seq<Step>, ks: seq<Keystroke>, t: u32, j: nat)
    requires Typed(ks) && j < |ks| && Stores(record, ks)
    ensures Deadline(record, t, 0, j) == Paced(ks, t, j)
    decreases j
  {
    if j > 0 {
      DeadlinesArePaced(record, ks, t, j - 1);
    }
  }

  /** The record hotkey ends a recording and the replay hotkey then starts a replay of
      what was recorded at step 0, due at once; nothing is sent to the host. */
  lemma HotkeysStartReplay(s: Sys, modifiers: byte, stop: u32, start: u32)
    requires SysOk(s) && s.macro.mode == Record
    ensures var stopped := Hook(s, 0x7E, modifiers, stop).value.sys;
            var started := Hook(stopped, 0x72, modifiers, start).value.sys;
            started.macro == s.macro.(mode := Replay, index := 0, ledState := 0, time := start, ledTimestamp := start) &&
            started.out.reports == s.out.reports
  {
    RecordHotkey(s, modifiers, stop);
    var stopped := Hook(s, 0x7E, modifiers, stop).value.sys;
    ReplayHotkey(stopped, modifiers, start);
  }

  /** A replay from step 0 whose passes reach every deadline sends every recorded step
      in order, then `[0, 0]` unless the last step was one, and stops. */
  lemma ReplayAll(s: Sys, clocks: seq<u32>)
    requires SysOk(s) && s.macro.mode == Replay && s.macro.index == 0 && 0 < |clocks| == s.macro.maxIndex
    requires OnTime(s.macro.record, s.macro.time, 0, clocks[..|clocks| - 1])
    requires Due(clocks[|clocks| - 1], Deadline(s.macro.record, s.macro.time, 0, |clocks| - 1))
    ensures var last := s.macro.record[|clocks| - 1].usb;
            var s' := ExecuteAt(s, clocks);
            s'.macro.mode == Stopped &&
            s'.out.reports == s.out.reports + Sent(s.macro.record, 0, |clocks|) +
                              (if |last| == 2 && last[0] == 0 then [] else [[0, 0]])
  {
    ReplayInOrder(s, clocks[..|clocks| - 1]);
    ReplayLast(s, clocks);
  }

  /** The last pass of a replay whose earlier passes sent all but the last step. */
  lemma ReplayLast(s: Sys, clocks: seq<u32>)
    requires SysOk(s) && s.macro.mode == Replay && 0 < |clocks| == s.macro.maxIndex
    requires var q := ExecuteAt(s, clocks[..|clocks| - 1]);
             q.macro.mode == Replay && q.macro.index == |clocks| - 1 && q.macro.maxIndex == |clocks| &&
             q.macro.time == Deadline(s.macro.record, s.macro.time, 0, |clocks| - 1) && q.macro.record == s.macro.record &&
             q.out.reports == s.out.reports + Sent(s.macro.record, 0, |clocks| - 1)
    requires Due(clocks[|clocks| - 1], Deadline(s.macro.record, s.macro.time, 0, |clocks| - 1))
    ensures var last := s.macro.record[|clocks| - 1].usb;
            var s' := ExecuteAt(s, clocks);
            s'.macro.mode == Stopped &&
            s'.out.reports == s.out.reports + Sent(s.macro.record, 0, |clocks|) +
                              (if |last| == 2 && last[0] == 0 then [] else [[0, 0]])
  {
    LastPass(s, clocks);
    SentSnoc(s.macro.record, 0, |clocks| - 1, s.out.reports);
  }

  /** The pass after all but the last step were sent sends the last one and stops. */
  lemma LastPass(s: Sys, clocks: seq<u32>)
    requires SysOk(s) && 0 < |clocks| && |s.macro.record| == RecordSteps
    requires var q := ExecuteAt(s, clocks[..|clocks| - 1]);
             q.macro.mode == Replay && q.macro.index + 1 >= q.macro.maxIndex && Due(clocks[|clocks| - 1], q.macro.time) &&
             q.macro.record == s.macro.record && q.macro.index == |clocks| - 1
    ensures var q := ExecuteAt(s, clocks[..|clocks| - 1]);
            var last := s.macro.record[|clocks| - 1].usb;
            var s' := ExecuteAt(s, clocks);
            s'.macro.mode == Stopped &&
            s'.out.reports == q.out.reports + [last] + (if |last| == 2 && last[0] == 0 then [] else [[0, 0]])
  {
    ReplayEnds(ExecuteAt(s, clocks[..|clocks| - 1]), clocks[|clocks| - 1]);
  }

  /** Record, then replay: keystrokes recorded from an empty memory, stopped with the
      record hotkey and replayed with the replay hotkey, are sent again in the order
      they were recorded, each as the data bytes of its report, over passes each reaching
      the next keystroke's paced time, a third of the recorded gap after the one before
      (IdlePassInserted adds passes that come too early). The release-all report
      `[0, 0]` follows unless the last keystroke was one, and the engine stops. */
  lemma RecordThenReplay(s: Sys, ks: seq<Keystroke>, modifiers: byte, stop: u32, start: u32, clocks: seq<u32>)
    requires SysOk(s) && Typed(ks) && s.macro.mode == Record && s.macro.maxIndex == 0
    requires 0 < |ks| < RecordSteps && (ks[0].dataBytes > 2 || ks[0].report[0] != 0)
    requires |clocks| == |ks| && forall j :: 0 <= j < |ks| ==> Due(clocks[j], Paced(ks, start, j))
    ensures var recorded := RecordRun(s, ks);
            var stopped := Hook(recorded, 0x7E, modifiers, stop).value.sys;
            var started := Hook(stopped, 0x72, modifiers, start).value.sys;
            var last := ks[|ks| - 1];
            var s' := ExecuteAt(started, clocks);
            s'.macro.mode == Stopped &&
            s'.out.reports == s.out.reports + Replayed(ks) +
                              (if last.dataBytes == 2 && last.report[0] == 0 then [] else [[0, 0]])
  {
    var n := |ks|;
    var recorded := RecordRun(s, ks);
    var stopped := Hook(recorded, 0x7E, modifiers, stop).value.sys;
    var started := Hook(stopped, 0x72, modifiers, start).value.sys;
    assert recorded.macro.mode == Record && recorded.macro.maxIndex == n && Stores(recorded.macro.record, ks) by {
      RecordRunStores(s, ks);
    }
    var record := recorded.macro.record;
    assert SysOk(started) && started.macro.mode == Replay && started.macro.index == 0 && started.macro.time == start &&
           started.macro.maxIndex == n && started.macro.record == record && started.out.reports == s.out.reports by {
      HotkeysStartReplay(recorded, modifiers, stop, start);
    }
    assert OnTime(record, start, 0, clocks[..n - 1]) && Due(clocks[n - 1], Deadline(record, start, 0, n - 1)) by {
      PacedOnTime(record, ks, start, clocks);
    }
    ReplayAll(started, clocks);
    SentIsReplayed(record, ks);
  }

  /** The slots holding the recorded keystrokes replay as exactly their data bytes; the
      last slot is a two-byte report without modifiers exactly when the last keystroke
      was. */
  lemma SentIsReplayed(record: seq<Step>, ks: seq<Keystroke>)
    requires Typed(ks) && Stores(record, ks) && 0 < |ks|
    ensures Sent(record, 0, |ks|) == Replayed(ks)
    ensures var u := record[|ks| - 1].usb;
            var last := ks[|ks| - 1];
            (|u| == 2 && u[0] == 0) == (last.dataBytes == 2 && last.report[0] == 0)
  {
    var sent, replayed := Sent(record, 0, |ks|), Replayed(ks);
    forall j | 0 <= j < |ks|
      ensures sent[j] == replayed[j]
    {
    }
  }

  /** Clock readings that reach the paced times reach the replay deadlines of all but
      the last keystroke, and the last reading reaches the last deadline. */
  lemma PacedOnTime(record: seq<Step>, ks: seq<Keystroke>, t: u32, clocks: seq<u32>)
    requires Typed(ks) && Stores(record, ks) && 0 < |ks| && |clocks| == |ks|
    requires forall j :: 0 <= j < |ks| ==> Due(clocks[j], Paced(ks, t, j))
    ensures OnTime(record, t, 0, clocks[..|ks| - 1])
    ensures Due(clocks[|ks| - 1], Deadline(record, t, 0, |ks| - 1))
  {
    forall j | 0 <= j < |ks|
      ensures Deadline(record, t, 0, j) == Paced(ks, t, j)
    {
      DeadlinesArePaced(record, ks, t, j);
    }
  }

  /** `rx1FifoCallback` (src/main.c:870-887): an LED report from the host is remapped to
      PS/2 order and flagged for the main loop; an empty one changes nothing. */
  function HostLeds(p: Panel, buf: seq<byte>): (p': Panel)
    ensures |buf| == 0 ==> p' == p
    ensures |buf| > 0 ==> p' == p.(ledByHost := LedRemap(buf[0]), updateLed := true)
  {
    if |buf| > 0 then p.(ledByHost := LedRemap(buf[0]), updateLed := true) else p
  }
}
