/** The pressed-key list of the main loop (src/main.c:964-1048): `keycodePressed`, six
    `uint32_t` slots holding the keycodes currently held, 0 marking a free slot. A press
    takes the first free slot unless the keycode is already held, a release frees the
    slot holding it; the list is emptied after an overflow of the receive buffer and
    when the fallback timeout expires. */
module KeySet {
  import opened Common

  /** `MAXKEYS`: the six key slots of a USB boot keyboard report. */
  const MaxKeys: nat := 6

  /** The first slot holding `code`. */
  function Find(keys: seq<u32>, code: u32): (r: Option<nat>)
    ensures r.Some? ==> r.value < |keys| && keys[r.value] == code &&
                        forall j :: 0 <= j < r.value ==> keys[j] != code
    ensures r.None? <==> code !in keys
    decreases |keys|
  {
    if keys == [] then None
    else if keys[0] == code then Some(0)
    else match Find(keys[1..], code)
      case None => None
      case Some(k) => Some(k + 1)
  }

  /** No keycode is held in two slots. */
  predicate Distinct(keys: seq<u32>)
  {
    forall i, j :: 0 <= i < j < |keys| && keys[i] != 0 ==> keys[i] != keys[j]
  }

  /** A press (src/main.c:982-1000): a keycode already held changes nothing; otherwise
      it goes into the first free slot, and is dropped when there is none. The flag
      says whether the list changed. */
  function PressKey(keys: seq<u32>, code: u32): (r: (seq<u32>, bool))
    ensures |r.0| == |keys|
  {
    if Find(keys, code).Some? then (keys, false)
    else match Find(keys, 0)
      case None => (keys, false)
      case Some(i) => (keys[i := code], true)
  }

  /** A release (src/main.c:1007-1022): the first slot holding the keycode is freed. The
      flag says whether it was held. */
  function ReleaseKey(keys: seq<u32>, code: u32): (r: (seq<u32>, bool))
    ensures |r.0| == |keys|
  {
    match Find(keys, code)
    case None => (keys, false)
    case Some(i) => (keys[i := 0], true)
  }

  /** A press of a non-zero keycode changes the list exactly when the keycode is new and
      a slot is free, and then only the first free slot, which now holds it. */
  lemma PressEffect(keys: seq<u32>, code: u32)
    requires code != 0
    ensures var (keys', inserted) := PressKey(keys, code);
            (inserted <==> code !in keys && 0 in keys) &&
            (!inserted ==> keys' == keys) &&
            (inserted ==> exists i :: 0 <= i < |keys| && keys[i] == 0 && keys' == keys[i := code] &&
                                      forall j :: 0 <= j < i ==> keys[j] != 0) &&
            (code in keys' <==> code in keys || 0 in keys)
  {
    if code !in keys && 0 in keys {
      var i := Find(keys, 0).value;
      assert PressKey(keys, code).0 == keys[i := code];
      assert PressKey(keys, code).0[i] == code;
    }
  }

  /** A release of a held non-zero keycode frees its slot and no other; releasing a key
      that is not held changes nothing. In a list without duplicates the keycode is not
      held afterwards. */
  lemma ReleaseEffect(keys: seq<u32>, code: u32)
    requires code != 0
    ensures var (keys', found) := ReleaseKey(keys, code);
            (found <==> code in keys) &&
            (forall j :: 0 <= j < |keys| && keys[j] != code ==> keys'[j] == keys[j]) &&
            (forall j :: 0 <= j < |keys| && keys'[j] != keys[j] ==> keys[j] == code && keys'[j] == 0) &&
            (Distinct(keys) ==> code !in keys')
  {
    if code in keys {
      var i := Find(keys, code).value;
      var keys' := keys[i := 0];
      if Distinct(keys) {
        forall j | 0 <= j < |keys'|
          ensures keys'[j] != code
        {
          if j > i {
            assert keys[i] == code && keys[i] != keys[j];
          }
        }
      }
    }
  }

  /** Presses and releases never put a keycode into two slots. */
  lemma PressKeepsDistinct(keys: seq<u32>, code: u32)
    requires Distinct(keys)
    ensures Distinct(PressKey(keys, code).0)
  {
    if Find(keys, code).None? && Find(keys, 0).Some? {
      var i := Find(keys, 0).value;
      var keys' := keys[i := code];
      forall a, b | 0 <= a < b < |keys'| && keys'[a] != 0
        ensures keys'[a] != keys'[b]
      {
        if a == i {
          assert keys'[b] == keys[b];
        } else if b == i {
          assert keys'[a] == keys[a];
        }
      }
    }
  }

  lemma ReleaseKeepsDistinct(keys: seq<u32>, code: u32)
    requires Distinct(keys)
    ensures Distinct(ReleaseKey(keys, code).0)
  {
  }

  /** Pressing a new key and releasing it again restores the list. */
  lemma PressThenRelease(keys: seq<u32>, code: u32)
    requires code != 0 && code !in keys
    ensures ReleaseKey(PressKey(keys, code).0, code).0 == keys
  {
    if Find(keys, 0).Some? {
      var i := Find(keys, 0).value;
      var keys' := keys[i := code];
      assert Find(keys', code) == Some(i) by {
        var f := Find(keys', code);
        assert f.Some? by { assert keys'[i] == code; }
      }
      assert keys'[i := 0] == keys;
    }
  }

  /** `memset(keycodePressed, 0, MAXKEYS)` as written (src/main.c:974, 1040): MAXKEYS is
      the number of slots, but memset counts bytes, so only the first six of the 24
      bytes are cleared. On the little-endian AVR these are the four bytes of slot 0
      and the two low bytes of slot 1. */
  function MemsetAsWritten(keys: seq<u32>): (r: seq<u32>)
    requires |keys| == MaxKeys
    ensures |r| == MaxKeys && r[0] == 0 && r[2..] == keys[2..]
  {
    [0, keys[1] & 0xFFFF0000] + keys[2..]
  }

  /** After a keyboard overflow with A (0x1C), pause (0xE11477) and B (0x32) held, the
      as-written clear leaves B held and turns pause into the keycode 0xE10000, which
      no key has. */
  lemma MemsetLeavesKeysHeld()
    ensures MemsetAsWritten([0x1C, 0xE11477, 0x32, 0, 0, 0]) == [0, 0xE10000, 0x32, 0, 0, 0]
  {
  }

  /** On a list without duplicates, the as-written clear can make the masked slot 1
      equal another slot: 0x10001 becomes 0x10000, which slot 2 already holds. */
  lemma MemsetCanDuplicate()
    ensures var keys: seq<u32> := [0, 0x10001, 0x10000, 0, 0, 0];
            Distinct(keys) && !Distinct(MemsetAsWritten(keys))
  {
    var keys: seq<u32> := [0, 0x10001, 0x10000, 0, 0, 0];
    var r := MemsetAsWritten(keys);
    assert r[1] == 0x10000 && r[2] == 0x10000;
  }

  /** The evident intent, "clear all keys": every slot free. */
  function ClearAll(keys: seq<u32>): (r: seq<u32>)
    ensures |r| == |keys| && forall j :: 0 <= j < |r| ==> r[j] == 0
  {
    Repeat(0, |keys|)
  }

  /** After the intended clear no key is held, so the next report lists none, and the
      list is trivially free of duplicates. */
  lemma ClearAllReleasesEverything(keys: seq<u32>, code: u32)
    requires code != 0
    ensures code !in ClearAll(keys) && Distinct(ClearAll(keys))
  {
  }

  /** Which clear the main loop performs on an overflow and on the fallback timeout:
      the firmware's byte-count `memset` as written, or the intended clear of every
      slot. */
  datatype Clear = AsWritten | Intended

  /** The clear `c` of the list: both free slot 0; the one as written masks slot 1 to
      its two high bytes and keeps the rest, the intended one frees every slot. */
  function ClearKeys(c: Clear, keys: seq<u32>): (r: seq<u32>)
    requires |keys| == MaxKeys
    ensures |r| == MaxKeys && r[0] == 0
    ensures c == AsWritten ==> r[1] == keys[1] & 0xFFFF0000 && r[2..] == keys[2..]
    ensures c == Intended ==> forall j :: 0 <= j < MaxKeys ==> r[j] == 0
  {
    match c
    case AsWritten => MemsetAsWritten(keys)
    case Intended => ClearAll(keys)
  }

  /** The search-then-insert loops of a press (src/main.c:983-1000), on the array. */
  method PressIn(keys: array<u32>, code: u32) returns (inserted: bool)
    modifies keys
    ensures (keys[..], inserted) == PressKey(old(keys[..]), code)
  {
    var updated := false;
    var i := 0;
    while i < keys.Length
      invariant 0 <= i <= keys.Length
      invariant forall j :: 0 <= j < i ==> keys[j] != code
      invariant !updated
    {
      if keys[i] == code {
        updated := true;
        break;
      }
      i := i + 1;
    }
    assert updated <==> Find(keys[..], code).Some?;
    inserted := false;
    if !updated {
      i := 0;
      while i < keys.Length
        invariant 0 <= i <= keys.Length
        invariant forall j :: 0 <= j < i ==> keys[j] != 0
      {
        if keys[i] == 0 {
          assert Find(keys[..], 0) == Some(i);
          keys[i] := code;
          inserted := true;
          break;
        }
        i := i + 1;
      }
    }
  }

  /** The search loop of a release (src/main.c:1008-1019), on the array. */
  method ReleaseIn(keys: array<u32>, code: u32) returns (found: bool)
    modifies keys
    ensures (keys[..], found) == ReleaseKey(old(keys[..]), code)
  {
    found := false;
    var i := 0;
    while i < keys.Length
      invariant 0 <= i <= keys.Length
      invariant forall j :: 0 <= j < i ==> keys[j] != code
    {
      if keys[i] == code {
        assert Find(keys[..], code) == Some(i);
        found := true;
        keys[i] := 0;
        break;
      }
      i := i + 1;
    }
  }

  /** `memset(keycodePressed, 0, MAXKEYS)` as written, on the array: the six bytes are
      slot 0 and the two low bytes of slot 1. */
  method MemsetIn(keys: array<u32>)
    requires keys.Length == MaxKeys
    modifies keys
    ensures keys[..] == MemsetAsWritten(old(keys[..]))
  {
    keys[0] := 0;
    keys[1] := keys[1] & 0xFFFF0000;
  }

  /** The clear `c` on the array. */
  method ClearKeysIn(c: Clear, keys: array<u32>)
    requires keys.Length == MaxKeys
    modifies keys
    ensures keys[..] == ClearKeys(c, old(keys[..]))
  {
    match c
    case AsWritten => MemsetIn(keys);
    case Intended => ClearIn(keys);
  }

  /** The intended clear of the list, on the array. */
  method ClearIn(keys: array<u32>)
    modifies keys
    ensures keys[..] == ClearAll(old(keys[..]))
  {
    forall j | 0 <= j < keys.Length {
      keys[j] := 0;
    }
  }
}
