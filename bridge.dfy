/** The key aggregation and macro engine of src/main.c as the firmware keeps them: the
    pressed-key array and the main loop's locals, the global `g_Macro` with its array
    of 40 steps, and the LED flags, all updated in place. Every method is proved to
    move this state exactly as the pure model of modules Macro and MainLoop says; what
    that model amounts to is proved there. `KeyboardToUsb` and `ps2SetLeds` are logs of
    what was sent. */
module Bridge {
  import opened Common
  import opened ScanDecoder
  import opened Translate
  import opened KeySet
  import opened Macro
  import opened MainLoop

  class Bridge {
    /** `keycodePressed`, `modifierOld` and `fallbackTimeout` of `main`. */
    const keys: array<u32>
    var modifierOld: byte
    var fallback: u32
    /** `g_Macro`. */
    var mode: MacroMode
    var index: nat
    var maxIndex: nat
    var time: u32
    var ledTimestamp: u32
    var ledState: nat
    const record: array<Step>
    /** `g_BlinkMode`, `g_LedByHost`, `g_UpdateLed`. */
    var blink: bool
    var ledByHost: byte
    var updateLed: bool
    /** Which clear the main loop performs on an overflow and on the fallback timeout:
        the firmware's `memset` as written, or the intended clear. */
    const clear: Clear
    /** What `ps2SetLeds` and `KeyboardToUsb` were given, in order. */
    ghost var leds: seq<byte>
    ghost var reports: seq<seq<byte>>

    /** The macro globals as a value of the model. */
    ghost function State(): Sys
      reads this, record
    {
      Sys(MacroState(mode, index, maxIndex, time, ledTimestamp, ledState, record[..]),
          Panel(blink, ledByHost, updateLed), Out(leds, reports))
    }

    /** All of the loop's state as a value of the model. */
    ghost function Snapshot(): Loop
      reads this, keys, record
    {
      Loop(keys[..], modifierOld, fallback, State())
    }

    ghost predicate Valid()
      reads this, keys, record
    {
      keys.Length == MaxKeys && record.Length == RecordSteps && SysOk(State())
    }

    /** The zero-initialised globals and the locals of `main` before its loop, with the
        clear `clear`. */
    constructor (clear: Clear)
      ensures Valid() && Snapshot() == InitialLoop && this.clear == clear
    {
      this.clear := clear;
      keys := new u32[MaxKeys](_ => 0);
      record := new Step[RecordSteps](_ => Step([], 0));
      modifierOld, fallback := 0, 0xFFFFFFFF;
      mode, index, maxIndex, time, ledTimestamp, ledState := Stopped, 0, 0, 0, 0, 0;
      blink, ledByHost, updateLed := false, 0, false;
      leds, reports := [], [];
      new;
      assert keys[..] == Repeat(0, MaxKeys);
      assert record[..] == Repeat(Step([], 0), RecordSteps);
    }

    /** `macroStop` (src/main.c:693-697). */
    method MacroStop()
      requires keys.Length == MaxKeys && record.Length == RecordSteps && Bounded(State().macro)
      modifies this
      ensures Valid() && State() == Macro.MacroStop(old(State()))
      ensures modifierOld == old(modifierOld) && fallback == old(fallback)
    {
      leds := leds + [ledByHost];
      mode := Stopped;
    }

    /** `UsbAlternateHook` (src/main.c:699-757), `now` standing for `timestampGet()`.
        The reboot key returns `rebooted` with nothing changed: the firmware spins there
        until the watchdog resets it. */
    method UsbAlternateHook(usbIn: byte, modifiersIn: byte, now: u32)
      returns (rebooted: bool, usb: byte, modifiers: byte, incept: bool)
      requires Valid()
      modifies this
      ensures Valid() && modifierOld == old(modifierOld) && fallback == old(fallback)
      ensures var h := Hook(old(State()), usbIn, modifiersIn, now);
              rebooted == h.None? &&
              (h.Some? ==> State() == h.value.sys && usb == h.value.usb && modifiers == h.value.modifiers &&
                           incept == h.value.incept)
    {
      usb, modifiers, incept := usbIn, modifiersIn, false;
      if usb == 0x9A {
        return true, usb, modifiers, incept;
      }
      rebooted := false;
      if usb == 0x73 {
        BlinkKey();
        usb := 0;
        incept := true;
      }
      usb, modifiers, incept := ModeKeys(usb, modifiers, incept, now);
    }

    /** The blink hotkey (src/main.c:705-714). */
    method BlinkKey()
      requires Valid()
      modifies this
      ensures Valid() && State() == ToggleBlink(old(State()))
      ensures modifierOld == old(modifierOld) && fallback == old(fallback)
    {
      blink := !blink;
      if !blink {
        leds := leds + [ledByHost];
      }
    }

    /** The record, replay and abort keys (src/main.c:715-756). */
    method ModeKeys(usbIn: byte, modifiersIn: byte, inceptIn: bool, now: u32)
      returns (usb: byte, modifiers: byte, incept: bool)
      requires Valid()
      modifies this
      ensures Valid() && modifierOld == old(modifierOld) && fallback == old(fallback)
      ensures var h := Macro.ModeKeys(old(State()), usbIn, modifiersIn, inceptIn, now);
              State() == h.sys && usb == h.usb && modifiers == h.modifiers && incept == h.incept
    {
      usb, modifiers, incept := usbIn, modifiersIn, inceptIn;
      if usb == 0x7E {
        usb, modifiers, incept := 0, 0, true;
        if mode == Stopped {
          mode, index, maxIndex, ledState, ledTimestamp := Record, 0, 0, 0, now;
        } else {
          MacroStop();
        }
      } else if usb == 0x72 {
        usb, modifiers, incept := 0, 0, true;
        if mode == Stopped {
          mode, index, ledState, time, ledTimestamp := Replay, 0, 0, now, now;
        } else {
          MacroStop();
        }
      } else if mode == Replay {
        MacroStop();
      }
    }

    /** A recorded step (src/main.c:784-805). */
    method RecordStep(report: seq<byte>, dataBytes: nat, now: u32)
      requires Valid() && |report| == UsbBytes && 2 <= dataBytes <= UsbBytes
      modifies this, record
      ensures Valid() && State() == Macro.RecordStep(old(State()), report, dataBytes, now)
      ensures modifierOld == old(modifierOld) && fallback == old(fallback)
    {
      if mode == Record {
        var idx := maxIndex;
        if idx != 0 || dataBytes > 2 || report[0] != 0 {
          var delay: u32 := if idx > 0 then Delay(time, now) else 0;
          record[idx] := Step(report[..dataBytes], delay);
          time := now;
          maxIndex := idx + 1;
          if idx + 1 >= RecordSteps {
            MacroStop();
          }
        }
      }
    }

    /** `UpdateUsbKeystate` (src/main.c:759-806) on the pressed-key array: the slots in
        order through the table and the hook, the report sent, then the recorded step.
        `rebooted` when a held key was the reboot key. */
    method UpdateUsbKeystate(modifiersIn: byte, now: u32) returns (rebooted: bool)
      requires Valid()
      modifies this, record
      ensures Valid() && keys[..] == old(keys[..]) && modifierOld == old(modifierOld) && fallback == old(fallback)
      ensures var r := Macro.UpdateUsbKeystate(old(State()), old(keys[..]), modifiersIn, now);
              rebooted == r.None? && (r.Some? ==> State() == r.value)
    {
      ghost var start := State();
      var modifiers := modifiersIn;
      var codes: seq<byte> := [];
      var i := 0;
      while i < MaxKeys
        invariant Valid() && 0 <= i <= MaxKeys && |codes| <= i && KeyUsages(codes)
        invariant keys[..] == old(keys[..]) && modifierOld == old(modifierOld) && fallback == old(fallback)
        invariant PackFrom(ConvertTable, State(), keys[..], modifiers, codes, i, now) ==
                  PackFrom(ConvertTable, start, keys[..], modifiersIn, [], 0, now)
      {
        var halted;
        halted, modifiers, codes := PackSlot(i, modifiers, codes, now);
        if halted {
          return true;
        }
        i := i + 1;
      }
      SendReport(modifiers, codes, now);
      return false;
    }

    /** One pass of the slot loop (src/main.c:763-774). */
    method PackSlot(i: nat, modifiersIn: byte, codesIn: seq<byte>, now: u32)
      returns (halted: bool, modifiers: byte, codes: seq<byte>)
      requires Valid() && i < MaxKeys && |codesIn| <= i && KeyUsages(codesIn)
      modifies this
      ensures Valid() && modifierOld == old(modifierOld) && fallback == old(fallback)
      ensures halted ==> PackFrom(ConvertTable, old(State()), keys[..], modifiersIn, codesIn, i, now).None?
      ensures !halted ==> |codes| <= i + 1 && KeyUsages(codes) &&
                          PackFrom(ConvertTable, State(), keys[..], modifiers, codes, i + 1, now) ==
                          PackFrom(ConvertTable, old(State()), keys[..], modifiersIn, codesIn, i, now)
    {
      modifiers, codes := modifiersIn, codesIn;
      halted := false;
      if keys[i] != 0 {
        var usb := ConvertTable(keys[i], modifiers);
        var usb', incept;
        halted, usb', modifiers, incept := UsbAlternateHook(usb, modifiers, now);
        if !halted && usb' != 0 && usb' != 0xFF {
          codes := codes + [usb'];
        }
      }
    }

    /** The end of `UpdateUsbKeystate` (src/main.c:775-805): the report goes to the host
        and, while recording, into the next step. */
    method SendReport(modifiers: byte, codes: seq<byte>, now: u32)
      requires Valid() && |codes| <= MaxKeys && KeyUsages(codes)
      modifies this, record
      ensures Valid() && modifierOld == old(modifierOld) && fallback == old(fallback)
      ensures var report := Report(modifiers, codes);
              State() == Macro.RecordStep(Macro.SendReport(old(State()), report), report, 2 + |codes|, now)
    {
      var report := Report(modifiers, codes);
      reports := reports + [report];
      RecordStep(report, 2 + |codes|, now);
    }

    /** The LED chase of `macroExecute` (src/main.c:810-838). */
    method LedTick(now: u32)
      requires Valid()
      modifies this
      ensures Valid() && State() == Macro.LedTick(old(State()), now)
      ensures modifierOld == old(modifierOld) && fallback == old(fallback)
    {
      ghost var s := State();
      if mode != Stopped && Due(now, ledTimestamp) {
        var phase := ledState;
        var ledBits := ChaseBits(mode, phase);
        phase := phase + 1;
        if phase >= 3 {
          phase := 0;
        }
        var stamp := Advance(ledTimestamp, 166);
        LedTickDue(s, now);
        leds, ledState, ledTimestamp := leds + [ledBits], phase, stamp;
        assert State() == Sys(s.macro.(ledState := phase, ledTimestamp := stamp), s.panel, s.out.(leds := s.out.leds + [ledBits]));
      }
    }

    /** The two switches on the chase phase (src/main.c:815-830). */
    static method ChaseBits(mode: MacroMode, phase: nat) returns (ledBits: byte)
      ensures ledBits == LedBits(mode, phase)
    {
      ledBits := 0;
      if mode == Replay {
        match phase {
          case 0 => ledBits := 2;
          case 1 => ledBits := 4;
          case 2 => ledBits := 1;
          case _ => ledBits := 0;
        }
      }
      if mode == Record {
        match phase {
          case 0 => ledBits := 1;
          case 1 => ledBits := 4;
          case 2 => ledBits := 2;
          case _ => ledBits := 0;
        }
      }
    }

    /** The replay of `macroExecute` (src/main.c:840-866). */
    method ReplayTick(now: u32)
      requires Valid()
      modifies this
      ensures Valid() && State() == Macro.ReplayTick(old(State()), now)
      ensures modifierOld == old(modifierOld) && fallback == old(fallback)
    {
      if Due(now, time) {
        var idx := index;
        reports := reports + [record[idx].usb];
        var next := idx + 1;
        if next < RecordSteps && next < maxIndex {
          index := next;
          time := Advance(time, record[next].delayMs);
        } else {
          if |record[idx].usb| != 2 || record[idx].usb[0] != 0 {
            reports := reports + [[0, 0]];
          }
          MacroStop();
        }
      }
    }

    /** `macroExecute` (src/main.c:808-868). */
    method MacroExecute(now: u32) returns (replaying: bool)
      requires Valid()
      modifies this
      ensures Valid() && (State(), replaying) == Execute(old(State()), now)
      ensures modifierOld == old(modifierOld) && fallback == old(fallback)
    {
      LedTick(now);
      if mode == Replay {
        ReplayTick(now);
        return true;
      }
      return false;
    }

    /** `rx1FifoCallback` (src/main.c:870-887), the host's LED report as a sequence. */
    method Rx1FifoCallback(buf: seq<byte>)
      requires Valid()
      modifies this
      ensures Valid() && State() == old(State()).(panel := HostLeds(old(State()).panel, buf))
      ensures modifierOld == old(modifierOld) && fallback == old(fallback)
    {
      if |buf| > 0 {
        var out: byte := 0;
        if buf[0] & 1 != 0 {
          out := out | 2;
        }
        if buf[0] & 2 != 0 {
          out := out | 4;
        }
        if buf[0] & 4 != 0 {
          out := out | 1;
        }
        ledByHost := out;
        updateLed := true;
      }
    }

    /** The key handling of a pass of `main` (src/main.c:964-1027) on the pressed-key
        array, given what `ps2ReadPoll` returned, with the overflow clear `clear`. */
    method KeyHandling(now: u32, overflow: bool, emit: Option<Emission>) returns (modifierNew: byte, newState: bool)
      requires Valid()
      modifies this, keys
      ensures Valid() && State() == old(State()) && modifierOld == old(modifierOld)
      ensures var u := KeyEvent(old(Snapshot()), now, overflow, emit, clear);
              keys[..] == u.keys && modifierNew == u.modifiers && newState == u.newState && fallback == u.fallback
    {
      var eventNew: byte := 0;
      var keycodeNew: u32 := 0;
      modifierNew := 0;
      newState := false;
      if emit.Some? {
        eventNew, modifierNew := emit.value.event, emit.value.modifiers;
        if emit.value.keycode.Some? {
          keycodeNew := emit.value.keycode.value;
        }
      }
      if overflow {
        ClearKeysIn(clear, keys);
        eventNew, keycodeNew, modifierNew := 0, 0, 0;
        newState := true;
      }
      if eventNew == 1 {
        fallback := Advance(now, PressTimeout);
        if keycodeNew != 0 && !IgnoreStrangePs2(keycodeNew) {
          var inserted := PressIn(keys, keycodeNew);
          if inserted {
            newState := true;
          }
        }
        if modifierNew != modifierOld {
          newState := true;
        }
      }
      if eventNew == 2 {
        if keycodeNew != 0 && !IgnoreStrangePs2(keycodeNew) {
          var found := ReleaseIn(keys, keycodeNew);
          if found && mode != Replay {
            newState := true;
          }
        }
        if modifierNew != modifierOld {
          newState := true;
        }
      }
    }

    /** The fallback deadline of a pass (src/main.c:1028-1044): a running replay keeps it
        a second ahead; once it has passed, the keys are cleared with `clear`, the
        modifiers are dropped and a report is forced. */
    method Expire(now: u32, replaying: bool, modifiersIn: byte, newStateIn: bool) returns (modifierNew: byte, newState: bool)
      requires Valid()
      modifies this, keys
      ensures Valid() && State() == old(State()) && modifierOld == old(modifierOld)
      ensures KeyUpdate(keys[..], modifierNew, newState, fallback) ==
              FallbackStep(KeyUpdate(old(keys[..]), modifiersIn, newStateIn, old(fallback)), now, replaying, clear)
    {
      modifierNew, newState := modifiersIn, newStateIn;
      if replaying {
        fallback := Advance(now, ReplayTimeout);
      }
      if Past(now, fallback) {
        ClearKeysIn(clear, keys);
        modifierNew := 0;
        newState := true;
        fallback := 0xFFFFFFFF;
      }
    }

    /** The host's LEDs applied once no macro runs (src/main.c:1049-1056). */
    method ApplyHostLeds()
      requires Valid()
      modifies this
      ensures Valid() && Snapshot() == MainLoop.ApplyHostLeds(old(Snapshot()))
    {
      if updateLed && mode == Stopped {
        var newLedState := ledByHost;
        updateLed := false;
        leds := leds + [newLedState];
      }
    }

    /** The first part of a pass (src/main.c:964-1044): the key handling, `macroExecute`
        and the fallback deadline. */
    method KeysAndMacro(now: u32, overflow: bool, emit: Option<Emission>)
      returns (modifierNew: byte, newState: bool, replaying: bool)
      requires Valid()
      modifies this, keys
      ensures Valid() && modifierOld == old(modifierOld)
      ensures (State(), replaying) == Execute(old(State()), now)
      ensures var u := KeysAfter(old(Snapshot()), now, overflow, emit, replaying, clear);
              keys[..] == u.keys && modifierNew == u.modifiers && newState == u.newState && fallback == u.fallback
    {
      ghost var l := Snapshot();
      modifierNew, newState := KeyHandling(now, overflow, emit);
      ghost var e := KeyUpdate(keys[..], modifierNew, newState, fallback);
      assert e == KeyEvent(l, now, overflow, emit, clear);
      replaying := MacroExecute(now);
      modifierNew, newState := Expire(now, replaying, modifierNew, newState);
    }

    /** One pass of the main loop (src/main.c:964-1056), with the clock read `now` and
        the poll's result. `rebooted` when its report held the reboot key. */
    method MainStep(now: u32, overflow: bool, emit: Option<Emission>) returns (rebooted: bool)
      requires Valid()
      modifies this, keys, record
      ensures Valid()
      ensures var r := MainLoop.MainStep(old(Snapshot()), now, overflow, emit, clear);
              rebooted == r.None? && (r.Some? ==> Snapshot() == r.value)
    {
      ghost var l := Snapshot();
      var modifierNew, newState, replaying := KeysAndMacro(now, overflow, emit);
      ghost var s1 := State();
      ghost var u := KeysAfter(l, now, overflow, emit, replaying, clear);
      rebooted := false;
      if newState {
        rebooted := UpdateUsbKeystate(modifierNew, now);
        if rebooted {
          return;
        }
        modifierOld := modifierNew;
        assert Snapshot() == Loop(u.keys, u.modifiers, u.fallback, Macro.UpdateUsbKeystate(s1, u.keys, u.modifiers, now).value);
      } else {
        assert Snapshot() == Loop(u.keys, l.modifierOld, u.fallback, s1);
      }
      ApplyHostLeds();
    }
  }
}
