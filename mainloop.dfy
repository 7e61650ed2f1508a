/** One pass of the main loop of src/main.c (lines 964-1056) as a function of the
    loop's variables: the pressed-key list, `modifierOld`, `fallbackTimeout` and the
    macro globals. The pass reads the clock once (`now`) and takes what `ps2ReadPoll`
    returned: the overflow flag and the decoded event, if any. */
module MainLoop {
  import opened Common
  import opened ScanDecoder
  import opened Translate
  import opened KeySet
  import opened Macro

  /** `keycodePressed`, `modifierOld`, `fallbackTimeout` and the globals. */
  datatype Loop = Loop(keys: seq<u32>, modifierOld: byte, fallback: u32, sys: Sys)

  predicate LoopOk(l: Loop)
  {
    |l.keys| == MaxKeys && SysOk(l.sys)
  }

  /** The loop's variables when it is entered (src/main.c:951-961). */
  const InitialLoop: Loop := Loop(Repeat(0, MaxKeys), 0, 0xFFFFFFFF, InitialSys)

  /** The fallback deadline a press arms: the keyboard repeats a held key, so a minute
      without any press means releases were missed. */
  const PressTimeout: u32 := 60000

  /** The deadline kept while a replay runs. */
  const ReplayTimeout: u32 := 1000

  /** `eventNew`, `modifierNew` and `keycodeNew` after the poll: each stays 0 unless the
      poll wrote it. */
  function Polled(emit: Option<Emission>): (r: (byte, byte, u32))
    ensures emit.None? ==> r == (0, 0, 0)
  {
    match emit
    case None => (0, 0, 0)
    case Some(e) => (e.event, e.modifiers, if e.keycode.Some? then e.keycode.value else 0)
  }

  /** A keycode the key list takes part in: not 0 and not one of the fake shifts. */
  predicate Listed(code: u32)
  {
    code != 0 && !IgnoreStrangePs2(code)
  }

  /** What the key handling of one pass leaves: the list, `modifierNew`, `newState` and
      the deadline. */
  datatype KeyUpdate = KeyUpdate(keys: seq<u32>, modifiers: byte, newState: bool, fallback: u32)

  /** The key handling of one pass (src/main.c:969-1027): an overflow clears the list
      with `clear` and forces a report, dropping the event; a press (event 1) of a listed keycode
      inserts it and arms the deadline; a release (event 2) of a listed keycode frees
      its slot and asks for a report unless a replay runs; a change of the modifiers
      alone also asks for a report on a press or a release. */
  function KeyEvent(l: Loop, now: u32, overflow: bool, emit: Option<Emission>, clear: Clear): (u: KeyUpdate)
    requires LoopOk(l)
    ensures |u.keys| == MaxKeys
  {
    var (event0, mods0, code0) := Polled(emit);
    var keys0 := if overflow then ClearKeys(clear, l.keys) else l.keys;
    var event: byte := if overflow then 0 else event0;
    var mods: byte := if overflow then 0 else mods0;
    var code: u32 := if overflow then 0 else code0;
    if event == 1 then
      var (keys1, inserted) := if Listed(code) then PressKey(keys0, code) else (keys0, false);
      KeyUpdate(keys1, mods, overflow || inserted || mods != l.modifierOld, Advance(now, PressTimeout))
    else if event == 2 then
      var (keys1, found) := if Listed(code) then ReleaseKey(keys0, code) else (keys0, false);
      KeyUpdate(keys1, mods, overflow || (found && l.sys.macro.mode != Replay) || mods != l.modifierOld, l.fallback)
    else KeyUpdate(keys0, mods, overflow, l.fallback)
  }

  /** The host's LED state is applied once no macro is running (src/main.c:1049-1056). */
  function ApplyHostLeds(l: Loop): (l': Loop)
    requires LoopOk(l)
    ensures LoopOk(l') && l'.keys == l.keys && l'.sys.out.reports == l.sys.out.reports
    ensures l.sys.panel.updateLed && l.sys.macro.mode == Stopped ==>
              !l'.sys.panel.updateLed && l'.sys.out.leds == l.sys.out.leds + [l.sys.panel.ledByHost]
    ensures !(l.sys.panel.updateLed && l.sys.macro.mode == Stopped) ==> l' == l
  {
    if l.sys.panel.updateLed && l.sys.macro.mode == Stopped
    then l.(sys := SetLeds(l.sys.(panel := l.sys.panel.(updateLed := false)), l.sys.panel.ledByHost))
    else l
  }

  /** Whether the clock is strictly past a deadline, compared as `uint32_t`. */
  function Past(now: u32, deadline: u32): bool
  {
    now > deadline
  }

  /** The fallback deadline (src/main.c:1028-1044): a running replay keeps it a second
      ahead; once the clock is past it, the list is cleared with `clear`, the modifiers are dropped,
      a report is forced and the deadline becomes "never". */
  function FallbackStep(u: KeyUpdate, now: u32, replaying: bool, clear: Clear): (u': KeyUpdate)
    requires |u.keys| == MaxKeys
    ensures |u'.keys| == MaxKeys
  {
    var fallback1 := if replaying then Advance(now, ReplayTimeout) else u.fallback;
    if Past(now, fallback1) then KeyUpdate(ClearKeys(clear, u.keys), 0, true, 0xFFFFFFFF)
    else u.(fallback := fallback1)
  }

  /** The list, modifiers and deadline a pass ends with, and whether it reports:
      lines 969-1044 of src/main.c with `replaying` the result of `macroExecute`. */
  function KeysAfter(l: Loop, now: u32, overflow: bool, emit: Option<Emission>, replaying: bool, clear: Clear): (u: KeyUpdate)
    requires LoopOk(l)
    ensures |u.keys| == MaxKeys
  {
    FallbackStep(KeyEvent(l, now, overflow, emit, clear), now, replaying, clear)
  }

  /** One pass of the main loop (src/main.c:964-1056): the key handling, then
      `macroExecute`, the fallback deadline, the report and the host's LEDs. `None`
      when the report rebooted the device. */
  function MainStep(l: Loop, now: u32, overflow: bool, emit: Option<Emission>, clear: Clear): (r: Option<Loop>)
    requires LoopOk(l)
    ensures r.Some? ==> LoopOk(r.value)
    ensures var u := KeysAfter(l, now, overflow, emit, l.sys.macro.mode == Replay, clear);
            r.Some? ==> r.value.keys == u.keys && r.value.fallback == u.fallback &&
                        r.value.modifierOld == (if u.newState then u.modifiers else l.modifierOld)
  {
    var (s1, replaying) := Execute(l.sys, now);
    var u := KeysAfter(l, now, overflow, emit, replaying, clear);
    if u.newState then
      match UpdateUsbKeystate(s1, u.keys, u.modifiers, now)
      case None => None
      case Some(s2) => Some(ApplyHostLeds(Loop(u.keys, u.modifiers, u.fallback, s2)))
    else Some(ApplyHostLeds(Loop(u.keys, l.modifierOld, u.fallback, s1)))
  }

  /** A press of a listed keycode (src/main.c:980-1005): the keycode is held afterwards
      unless it was new and all six slots were taken; a report is asked for exactly when
      it was inserted or the modifiers changed; the deadline is now + 60 s. */
  lemma PressHandling(l: Loop, now: u32, e: Emission, clear: Clear)
    requires LoopOk(l) && e.event == 1 && e.keycode.Some? && Listed(e.keycode.value)
    ensures var code := e.keycode.value;
            var u := KeyEvent(l, now, false, Some(e), clear);
            (code in u.keys <==> code in l.keys || 0 in l.keys) &&
            (u.newState <==> (code !in l.keys && 0 in l.keys) || e.modifiers != l.modifierOld) &&
            u.fallback == now + PressTimeout && u.modifiers == e.modifiers
  {
    PressEffect(l.keys, e.keycode.value);
  }

  /** A release of a listed keycode (src/main.c:1006-1027): its slot is freed and no
      other changes; a report is asked for when it was held and no replay runs, or when
      the modifiers changed; the deadline stays. */
  lemma ReleaseHandling(l: Loop, now: u32, e: Emission, clear: Clear)
    requires LoopOk(l) && e.event == 2 && e.keycode.Some? && Listed(e.keycode.value)
    ensures var code := e.keycode.value;
            var u := KeyEvent(l, now, false, Some(e), clear);
            (forall j :: 0 <= j < MaxKeys && l.keys[j] != code ==> u.keys[j] == l.keys[j]) &&
            (Distinct(l.keys) ==> code !in u.keys) &&
            (u.newState <==> (code in l.keys && l.sys.macro.mode != Replay) || e.modifiers != l.modifierOld) &&
            u.fallback == l.fallback
  {
    ReleaseEffect(l.keys, e.keycode.value);
  }

  /** An overflow of the receive buffer (src/main.c:970-979) clears the list, zeroes the
      modifiers, drops whatever the poll decoded and forces a report. The `memset` as
      written frees slot 0, keeps the two high bytes of slot 1 and leaves slots 2 to 5
      held; the intended clear frees every slot. */
  lemma OverflowClears(l: Loop, now: u32, emit: Option<Emission>, clear: Clear)
    requires LoopOk(l)
    ensures var u := KeyEvent(l, now, true, emit, clear);
            u.keys[0] == 0 && u.modifiers == 0 && u.newState && u.fallback == l.fallback &&
            (clear == AsWritten ==> u.keys[1] == l.keys[1] & 0xFFFF0000 && u.keys[2..] == l.keys[2..]) &&
            (clear == Intended ==> u.keys == Repeat(0, MaxKeys))
  {
  }

  /** With the intended clear, no pass puts a keycode into two slots. */
  lemma {:induction false} KeysStayDistinct(l: Loop, now: u32, overflow: bool, emit: Option<Emission>, replaying: bool)
    requires LoopOk(l) && Distinct(l.keys)
    ensures Distinct(KeysAfter(l, now, overflow, emit, replaying, Intended).keys)
  {
    var (event0, mods0, code0) := Polled(emit);
    var keys0 := if overflow then ClearAll(l.keys) else l.keys;
    ClearAllReleasesEverything(l.keys, 1);
    PressKeepsDistinct(keys0, code0);
    ReleaseKeepsDistinct(keys0, code0);
    var u := KeyEvent(l, now, overflow, emit, Intended);
    assert Distinct(u.keys);
    ClearAllReleasesEverything(u.keys, 1);
  }

  /** When the deadline passes (src/main.c:1031-1044), the pass clears the list, zeroes
      the modifiers, resets the deadline to "never" and forces a report. The `memset` as
      written frees slot 0, keeps the two high bytes of slot 1 and leaves slots 2 to 5
      held; the intended clear frees every slot. */
  lemma FallbackClears(l: Loop, now: u32, overflow: bool, emit: Option<Emission>, replaying: bool, clear: Clear)
    requires LoopOk(l)
    requires now > (if replaying then now + ReplayTimeout else KeyEvent(l, now, overflow, emit, clear).fallback)
    ensures var keys := KeyEvent(l, now, overflow, emit, clear).keys;
            var u := KeysAfter(l, now, overflow, emit, replaying, clear);
            u.keys[0] == 0 && u.modifiers == 0 && u.newState && u.fallback == 0xFFFFFFFF &&
            (clear == AsWritten ==> u.keys[1] == keys[1] & 0xFFFF0000 && u.keys[2..] == keys[2..]) &&
            (clear == Intended ==> u.keys == Repeat(0, MaxKeys))
  {
  }

  /** The report sent for an empty list is eight zero bytes, the all-released report. */
  lemma EmptyListReport(s: Sys, now: u32)
    requires SysOk(s)
    ensures var r := UpdateUsbKeystate(s, Repeat(0, MaxKeys), 0, now);
            r.Some? && r.value.out.reports == s.out.reports + [Repeat(0, UsbBytes)]
  {
    PackNoKeys(ConvertTable, s, Repeat(0, MaxKeys), 0, [], 0, now);
    assert Report(0, []) == Repeat(0, UsbBytes);
  }

  /** The pass as written after an overflow with A (0x1C), pause (0xE11477) and B (0x32)
      held and no macro running: the list keeps B and a pause remnant 0xE10000, and the
      report the pass sends still holds B's usage 0x05. */
  lemma OverflowPassAsWritten(l: Loop, now: u32, emit: Option<Emission>)
    requires LoopOk(l) && l.keys == [0x1C, 0xE11477, 0x32, 0, 0, 0] && l.sys.macro.mode == Stopped
    ensures var r := MainStep(l, now, true, emit, AsWritten);
            r.Some? && r.value.keys == [0, 0xE10000, 0x32, 0, 0, 0] &&
            r.value.sys.out.reports == l.sys.out.reports + [[0, 0, 0x05, 0, 0, 0, 0, 0]]
  {
    var k: seq<u32> := [0, 0xE10000, 0x32, 0, 0, 0];
    assert Execute(l.sys, now) == (l.sys, false);
    var u := KeysAfter(l, now, true, emit, false, AsWritten);
    assert u.keys == k && u.modifiers == 0 && u.newState by {
      assert MemsetAsWritten(l.keys) == k;
      assert MemsetAsWritten(k) == k;
    }
    assert UpdateUsbKeystate(l.sys, k, 0, now).value.out.reports == l.sys.out.reports + [[0, 0, 0x05, 0, 0, 0, 0, 0]] by {
      UpdateWithoutHotkeys(l.sys, k, 0, now);
      RemnantUsages();
    }
  }

  /** The list the `memset` as written leaves has one usage the table knows: B's. */
  lemma RemnantUsages()
    ensures Report(0, Usages(ConvertTable, [0, 0xE10000, 0x32, 0, 0, 0], 0)) == [0, 0, 0x05, 0, 0, 0, 0, 0]
  {
    assert ConvertTable(0x32, 0) == 0x05;
    assert ConvertTable(0xE10000, 0) == 0xFF by {
      UnsupportedExactlyUnmapped(0xE10000, 0);
    }
    RemnantUsagesIn(ConvertTable);
    assert Report(0, [0x05]) == [0, 0, 0x05, 0, 0, 0, 0, 0];
  }

  lemma RemnantUsagesIn(convert: Table)
    requires convert(0x32, 0) == 0x05 && convert(0xE10000, 0) == 0xFF
    ensures Usages(convert, [0, 0xE10000, 0x32, 0, 0, 0], 0) == [0x05]
  {
    var k3: seq<u32> := [0, 0, 0];
    var k4: seq<u32> := [0x32] + k3;
    var k5: seq<u32> := [0xE10000] + k4;
    var k: seq<u32> := [0] + k5;
    assert k == [0, 0xE10000, 0x32, 0, 0, 0];
    assert Usages(convert, k3, 0) == [] by {
      assert k3[1..] == [0, 0] && k3[1..][1..] == [0] && k3[1..][1..][1..] == [];
    }
    assert Usages(convert, k4, 0) == [0x05] + Usages(convert, k3, 0) by {
      assert k4[0] == 0x32 && k4[1..] == k3;
    }
    assert Usages(convert, k5, 0) == [] + Usages(convert, k4, 0) by {
      assert k5[0] == 0xE10000 && k5[1..] == k4;
    }
    assert Usages(convert, k, 0) == [] + Usages(convert, k5, 0) by {
      assert k[0] == 0 && k[1..] == k5;
    }
  }

  /** The same pass with the intended clear sends the all-released report. */
  lemma OverflowPassIntended(l: Loop, now: u32, emit: Option<Emission>)
    requires LoopOk(l) && l.sys.macro.mode == Stopped
    ensures var r := MainStep(l, now, true, emit, Intended);
            r.Some? && r.value.keys == Repeat(0, MaxKeys) &&
            r.value.sys.out.reports == l.sys.out.reports + [Repeat(0, UsbBytes)]
  {
    assert Execute(l.sys, now) == (l.sys, false);
    var u := KeysAfter(l, now, true, emit, false, Intended);
    assert u.keys == Repeat(0, MaxKeys) && u.modifiers == 0 && u.newState;
    EmptyListReport(l.sys, now);
  }

  /** While a replay runs, the deadline sits a second ahead, so the keys are kept;
      within the last second of the 32-bit clock, `now + 1000` wraps below `now` and
      the pass clears the list as if the deadline had passed. */
  lemma ReplayHoldsFallback(l: Loop, now: u32, overflow: bool, emit: Option<Emission>, clear: Clear)
    requires LoopOk(l)
    ensures var u := KeyEvent(l, now, overflow, emit, clear);
            now <= 0xFFFF_FFFF - ReplayTimeout ==>
              KeysAfter(l, now, overflow, emit, true, clear) == u.(fallback := now + ReplayTimeout)
    ensures var u := KeyEvent(l, now, overflow, emit, clear);
            now > 0xFFFF_FFFF - ReplayTimeout ==>
              KeysAfter(l, now, overflow, emit, true, clear) == KeyUpdate(ClearKeys(clear, u.keys), 0, true, 0xFFFF_FFFF)
  {
    var u := KeyEvent(l, now, overflow, emit, clear);
    FallbackInReplay(u, now, clear);
  }

  lemma FallbackInReplay(u: KeyUpdate, now: u32, clear: Clear)
    requires |u.keys| == MaxKeys
    ensures now <= 0xFFFF_FFFF - ReplayTimeout ==> FallbackStep(u, now, true, clear) == u.(fallback := now + ReplayTimeout)
    ensures now > 0xFFFF_FFFF - ReplayTimeout ==>
              FallbackStep(u, now, true, clear) == KeyUpdate(ClearKeys(clear, u.keys), 0, true, 0xFFFF_FFFF)
  {
    ReplayDeadlineWraps(now);
  }

  /** `now + 1000` lies after `now` exactly when it does not wrap. */
  lemma ReplayDeadlineWraps(now: u32)
    ensures Past(now, Advance(now, ReplayTimeout)) <==> now > 0xFFFF_FFFF - ReplayTimeout
  {
  }

  /** A press or release without a listed keycode (src/main.c:980-1027): a modifier
      alone, for which the poll gives keycode 0, or one of the fake shifts. The list
      stays as it was, a report is asked for exactly when the modifiers changed, and a
      press still arms the deadline at now + 60 s while a release keeps it. */
  lemma UnlistedKeyHandling(l: Loop, now: u32, e: Emission, clear: Clear)
    requires LoopOk(l) && (e.event == 1 || e.event == 2) && (e.keycode.None? || !Listed(e.keycode.value))
    ensures KeyEvent(l, now, false, Some(e), clear) ==
            KeyUpdate(l.keys, e.modifiers, e.modifiers != l.modifierOld,
                      if e.event == 1 then now + PressTimeout else l.fallback)
  {
  }

  /** A pass reports, and halts, exactly when it reports while the reboot key is held. */
  lemma MainStepHalts(l: Loop, now: u32, overflow: bool, emit: Option<Emission>, clear: Clear)
    requires LoopOk(l)
    ensures var u := KeysAfter(l, now, overflow, emit, l.sys.macro.mode == Replay, clear);
            MainStep(l, now, overflow, emit, clear).None? <==> u.newState && 0x17 in u.keys
  {
    var u := KeysAfter(l, now, overflow, emit, l.sys.macro.mode == Replay, clear);
    UpdateHaltsOnRebootKey(Execute(l.sys, now).0, u.keys, u.modifiers, now);
  }

  /** An LED report from the host reaches the keyboard, remapped, at the end of the
      next pass when no macro is running, no key event came in and the fallback
      deadline has not passed: the pass sends no report and ends by sending the LED
      byte and clearing the flag. */
  lemma HostLedsReachKeyboard(l: Loop, buf: seq<byte>, now: u32, clear: Clear)
    requires LoopOk(l) && |buf| > 0 && l.sys.macro.mode == Stopped && !Past(now, l.fallback)
    ensures var l1 := l.(sys := l.sys.(panel := HostLeds(l.sys.panel, buf)));
            var l2 := ApplyHostLeds(l1);
            l2.sys.out.leds == l.sys.out.leds + [LedRemap(buf[0])] && !l2.sys.panel.updateLed
    ensures var l1 := l.(sys := l.sys.(panel := HostLeds(l.sys.panel, buf)));
            var r := MainStep(l1, now, false, None, clear);
            r.Some? && r.value.sys.out.leds == l.sys.out.leds + [LedRemap(buf[0])] &&
            r.value.sys.out.reports == l.sys.out.reports && !r.value.sys.panel.updateLed &&
            r.value.keys == l.keys
  {
  }
}
