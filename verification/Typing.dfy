/**
 The synthetic-key fallback of compositor/native/src/text_input_handler.c: the table from
 ASCII characters to keys that is scanned out of the keymap, and the key events typed for
 a text. The proofs end in a round trip: a client that reads the events through the same
 keymap gets back exactly the characters some key can produce.
 */
module Typing {
  import opened Common
  import opened Utf8

  const ASCII_MAX: nat := 128
  const KEY_LEFTSHIFT: nat := 42

  /** A keymap as far as this code sees it: which xkb keycodes set the Shift modifier, and
      the code point of each key with and without it (0 for none). */
  datatype Keymap = Keymap(minKey: nat, maxKey: nat, hasShift: bool, shiftKeys: set<nat>, level: (nat, bool) -> nat)
  {
    predicate InRange(kc: nat) { minKey <= kc <= maxKey < U32 }

    /** xkb_state_mod_index_is_active for Shift. */
    predicate ShiftHeld(pressed: set<nat>) { pressed * shiftKeys != {} }

    /** xkb_state_key_get_utf32. */
    function Utf32(pressed: set<nat>, kc: nat): nat { level(kc, ShiftHeld(pressed)) }
  }

  /** evdev and xkb keycodes differ by 8, in 32-bit unsigned arithmetic. */
  function ToEvdev(kc: nat): (k: nat)
    ensures kc < U32 ==> (k == 0 <==> kc == 8)
  {
    (kc + U32 - 8) % U32
  }

  function ToXkb(k: nat): nat {
    (k + 8) % U32
  }

  lemma EvdevRoundTrip(kc: nat)
    requires kc < U32
    ensures ToXkb(ToEvdev(kc)) == kc
  {
    if kc < 8 {
      assert ToEvdev(kc) == kc + U32 - 8;
    } else {
      assert ToEvdev(kc) == kc - 8;
    }
  }

  // ---------------------------------------------------------------------
  // build_ascii_table
  // ---------------------------------------------------------------------

  datatype Entry = Entry(keycode: nat, needsShift: bool)

  /** A key the scan can put in the table for cp: keycode 8 becomes 0, which means none. */
  predicate Gives(km: Keymap, kc: nat, shift: bool, skip: int, cp: nat) {
    kc != 8 && kc != skip && km.level(kc, shift) == cp
  }

  /** No key below the bound gives cp. */
  ghost predicate NoneBelow(km: Keymap, bound: nat, shift: bool, skip: int, cp: nat) {
    forall kc: nat :: km.minKey <= kc < bound ==> !Gives(km, kc, shift, skip, cp)
  }

  /** The entry holds the first key below the bound that gives cp. */
  ghost predicate HoldsFirst(km: Keymap, e: Entry, bound: nat, shift: bool, skip: int, cp: nat) {
    exists kc: nat :: km.minKey <= kc < bound && Gives(km, kc, shift, skip, cp)
                      && e == Entry(ToEvdev(kc), shift) && NoneBelow(km, kc, shift, skip, cp)
  }

  /** After the pass without modifiers has seen the keys below the bound. */
  ghost predicate PlainPass(km: Keymap, e: Entry, bound: nat, cp: nat) {
    if e.keycode == 0 then NoneBelow(km, bound, false, -1, cp) else HoldsFirst(km, e, bound, false, -1, cp)
  }

  /** After the pass with the Shift key at skip held has seen the keys below the bound. */
  ghost predicate ShiftPass(km: Keymap, e: Entry, bound: nat, skip: nat, cp: nat) {
    if e.keycode == 0 then
      NoneBelow(km, km.maxKey + 1, false, -1, cp) && NoneBelow(km, bound, true, skip, cp)
    else if e.needsShift then
      NoneBelow(km, km.maxKey + 1, false, -1, cp) && HoldsFirst(km, e, bound, true, skip, cp)
    else
      HoldsFirst(km, e, km.maxKey + 1, false, -1, cp)
  }

  /** The key the scan takes for Shift. */
  predicate FirstShiftKey(km: Keymap, s: nat) {
    km.InRange(s) && s in km.shiftKeys && forall kc: nat :: km.minKey <= kc < s ==> kc !in km.shiftKeys
  }

  ghost predicate HasShiftKey(km: Keymap) {
    km.hasShift && exists s: nat :: FirstShiftKey(km, s)
  }

  /** What the finished table says of cp. */
  ghost predicate Serves(km: Keymap, e: Entry, cp: nat) {
    if HasShiftKey(km)
    then exists s: nat :: FirstShiftKey(km, s) && ShiftPass(km, e, km.maxKey + 1, s, cp)
    else PlainPass(km, e, km.maxKey + 1, cp)
  }

  ghost predicate TableFor(km: Keymap, table: seq<Entry>) {
    && |table| == ASCII_MAX && table[0].keycode == 0
    && forall cp: nat :: 0 < cp < ASCII_MAX ==> Serves(km, table[cp], cp)
  }

  /** One scan step only ever fills the entry of the code point the key gives. */
  method ScanKey(km: Keymap, table: array<Entry>, pressed: set<nat>, kc: nat, needsShift: bool)
    requires table.Length == ASCII_MAX && km.InRange(kc)
    modifies table
    ensures var cp := km.Utf32(pressed, kc);
            table[..] == if 0 < cp < ASCII_MAX && old(table[..])[cp].keycode == 0
                         then old(table[..])[cp := Entry(ToEvdev(kc), needsShift)] else old(table[..])
  {
    var cp := km.Utf32(pressed, kc);
    if cp > 0 && cp < ASCII_MAX && table[cp].keycode == 0 {
      table[cp] := Entry(ToEvdev(kc), needsShift);
    }
  }

  lemma PlainStep(km: Keymap, was: seq<Entry>, now: seq<Entry>, kc: nat)
    requires km.InRange(kc) && |was| == ASCII_MAX
    requires forall cp: nat :: 0 < cp < ASCII_MAX ==> PlainPass(km, was[cp], kc, cp)
    requires var cp := km.level(kc, false);
             now == if 0 < cp < ASCII_MAX && was[cp].keycode == 0
                    then was[cp := Entry(ToEvdev(kc), false)] else was
    ensures forall cp: nat :: 0 < cp < ASCII_MAX ==> PlainPass(km, now[cp], kc + 1, cp)
  {
    forall cp: nat | 0 < cp < ASCII_MAX ensures PlainPass(km, now[cp], kc + 1, cp) {
      assert PlainPass(km, was[cp], kc, cp);
      if was[cp].keycode == 0 && Gives(km, kc, false, -1, cp) {
        assert NoneBelow(km, kc, false, -1, cp);
      }
    }
  }

  lemma ShiftStep(km: Keymap, was: seq<Entry>, now: seq<Entry>, kc: nat, s: nat)
    requires km.InRange(kc) && |was| == ASCII_MAX
    requires forall cp: nat :: 0 < cp < ASCII_MAX ==> ShiftPass(km, was[cp], kc, s, cp)
    requires var cp := km.level(kc, true);
             now == if kc != s && 0 < cp < ASCII_MAX && was[cp].keycode == 0
                    then was[cp := Entry(ToEvdev(kc), true)] else was
    ensures forall cp: nat :: 0 < cp < ASCII_MAX ==> ShiftPass(km, now[cp], kc + 1, s, cp)
  {
    forall cp: nat | 0 < cp < ASCII_MAX ensures ShiftPass(km, now[cp], kc + 1, s, cp) {
      assert ShiftPass(km, was[cp], kc, s, cp);
      if was[cp].keycode == 0 && Gives(km, kc, true, s, cp) {
        assert NoneBelow(km, kc, true, s, cp);
      }
    }
  }

  method BuildAsciiTable(km: Keymap, table: array<Entry>)
    requires table.Length == ASCII_MAX && km.maxKey < U32
    modifies table
    ensures TableFor(km, table[..])
  {
    for cp := 0 to ASCII_MAX
      invariant forall i :: 0 <= i < cp ==> table[i] == Entry(0, false)
    {
      table[cp] := Entry(0, false);
    }
    ghost var before := table[..];
    var kc := km.minKey;
    while kc <= km.maxKey
      invariant km.minKey <= kc && (kc <= km.maxKey + 1 || kc == km.minKey)
      invariant table[0].keycode == 0
      invariant forall cp: nat :: 0 < cp < ASCII_MAX ==> PlainPass(km, table[..][cp], kc, cp)
    {
      before := table[..];
      ScanKey(km, table, {}, kc, false);
      PlainStep(km, before, table[..], kc);
      kc := kc + 1;
    }
    if km.hasShift {
      ScanShifted(km, table);
    }
  }

  /** The second pass: the first key that sets Shift is held while the others are read. */
  method ScanShifted(km: Keymap, table: array<Entry>)
    requires table.Length == ASCII_MAX && km.maxKey < U32 && km.hasShift
    requires table[0].keycode == 0
    requires forall cp: nat :: 0 < cp < ASCII_MAX ==> PlainPass(km, table[..][cp], km.maxKey + 1, cp)
    modifies table
    ensures TableFor(km, table[..])
  {
    var pressed: set<nat> := {};
    var kc := km.minKey;
    while kc <= km.maxKey
      invariant pressed == {} && km.minKey <= kc
      invariant forall k: nat :: km.minKey <= k < kc ==> k !in km.shiftKeys
      invariant unchanged(table)
    {
      pressed := pressed + {kc};
      if km.ShiftHeld(pressed) {
        assert kc in km.shiftKeys;
        var inner := km.minKey;
        while inner <= km.maxKey
          invariant km.minKey <= inner <= km.maxKey + 1
          invariant table[0].keycode == 0
          invariant forall cp: nat :: 0 < cp < ASCII_MAX ==> ShiftPass(km, table[..][cp], inner, kc, cp)
        {
          ghost var before := table[..];
          if inner != kc {
            ScanKey(km, table, pressed, inner, true);
          }
          ShiftStep(km, before, table[..], inner, kc);
          inner := inner + 1;
        }
        assert FirstShiftKey(km, kc);
        return;
      }
      pressed := pressed - {kc};
      kc := kc + 1;
    }
  }

  // ---------------------------------------------------------------------
  // Which characters can be typed
  // ---------------------------------------------------------------------

  /** Some key the scan looks at produces cp, alone or together with the Shift key. */
  ghost predicate Typable(km: Keymap, cp: nat) {
    && 0 < cp < ASCII_MAX
    && ((exists kc: nat :: km.InRange(kc) && Gives(km, kc, false, -1, cp))
        || (km.hasShift && exists s: nat, kc: nat :: FirstShiftKey(km, s) && km.InRange(kc) && Gives(km, kc, true, s, cp)))
  }

  /** The table has a key for exactly the characters that can be typed, the key produces
      the character, and Shift is used only when no key produces it alone. */
  lemma TableIsComplete(km: Keymap, table: seq<Entry>, cp: nat)
    requires TableFor(km, table) && cp < ASCII_MAX && km.maxKey < U32
    ensures table[cp].keycode != 0 <==> Typable(km, cp)
    ensures table[cp].keycode != 0 ==>
              && km.level(ToXkb(table[cp].keycode), table[cp].needsShift) == cp
              && (table[cp].needsShift ==> NoneBelow(km, km.maxKey + 1, false, -1, cp))
  {
    if cp > 0 {
      var e := table[cp];
      assert Serves(km, e, cp);
      if e.keycode == 0 {
        EmptyEntry(km, e, cp);
      } else {
        FilledEntry(km, e, cp);
      }
    }
  }

  lemma EmptyEntry(km: Keymap, e: Entry, cp: nat)
    requires Serves(km, e, cp) && e.keycode == 0
    ensures !Typable(km, cp)
  {
    assert NoneBelow(km, km.maxKey + 1, false, -1, cp);
    if HasShiftKey(km) {
      var t: nat :| FirstShiftKey(km, t) && ShiftPass(km, e, km.maxKey + 1, t, cp);
      assert NoneBelow(km, km.maxKey + 1, true, t, cp);
    }
  }

  lemma FilledEntry(km: Keymap, e: Entry, cp: nat)
    requires Serves(km, e, cp) && e.keycode != 0 && 0 < cp < ASCII_MAX && km.maxKey < U32
    ensures Typable(km, cp) && km.level(ToXkb(e.keycode), e.needsShift) == cp
    ensures e.needsShift ==> NoneBelow(km, km.maxKey + 1, false, -1, cp)
  {
    if HasShiftKey(km) {
      var s: nat :| FirstShiftKey(km, s) && ShiftPass(km, e, km.maxKey + 1, s, cp);
      if e.needsShift {
        HeldKeyGives(km, e, true, s, cp);
      } else {
        HeldKeyGives(km, e, false, -1, cp);
      }
    } else {
      HeldKeyGives(km, e, false, -1, cp);
    }
  }

  lemma HeldKeyGives(km: Keymap, e: Entry, shift: bool, skip: int, cp: nat)
    requires HoldsFirst(km, e, km.maxKey + 1, shift, skip, cp) && km.maxKey < U32
    ensures e.needsShift == shift && km.InRange(ToXkb(e.keycode)) && Gives(km, ToXkb(e.keycode), shift, skip, cp)
  {
    var kc: nat :| km.minKey <= kc < km.maxKey + 1 && Gives(km, kc, shift, skip, cp)
                   && e == Entry(ToEvdev(kc), shift) && NoneBelow(km, kc, shift, skip, cp);
    EvdevRoundTrip(kc);
  }

  // ---------------------------------------------------------------------
  // emit_synthetic_keys
  // ---------------------------------------------------------------------

  datatype KeyEvent = KeyEvent(time: nat, keycode: nat, pressed: bool)

  /** The events for one decoded character. The first time stamp of a character is taken
      whether or not Shift is pressed. */
  function CharEvents(table: seq<Entry>, cp: nat, t: nat): (es: seq<KeyEvent>)
    requires |table| == ASCII_MAX
  {
    if cp == 0 || cp >= ASCII_MAX || table[cp].keycode == 0 then []
    else
      var e := table[cp];
      var press, release := KeyEvent(t + 1, e.keycode, true), KeyEvent(t + 2, e.keycode, false);
      if e.needsShift
      then [KeyEvent(t, KEY_LEFTSHIFT, true), press, release, KeyEvent(t + 3, KEY_LEFTSHIFT, false)]
      else [press, release]
  }

  function TimeAfter(table: seq<Entry>, cp: nat, t: nat): nat
    requires |table| == ASCII_MAX
  {
    if CharEvents(table, cp, t) == [] then t else if table[cp].needsShift then t + 4 else t + 3
  }

  function TextEvents(table: seq<Entry>, cps: seq<nat>, t: nat): seq<KeyEvent>
    requires |table| == ASCII_MAX
  {
    if cps == [] then []
    else CharEvents(table, cps[0], t) + TextEvents(table, cps[1..], TimeAfter(table, cps[0], t))
  }

  // ---------------------------------------------------------------------
  // The decoder of emit_synthetic_keys, which takes any bytes
  // ---------------------------------------------------------------------

  predicate Continues(b: byte) {
    0x80 <= b < 0xC0
  }

  /** The bytes that the lead byte announces. */
  function Width(c: byte): (n: nat)
    ensures 1 <= n <= 4
  {
    if c < 0x80 then 1 else if c < 0xE0 then 2 else if c < 0xF0 then 3 else 4
  }

  function LeadBits(c: byte): nat {
    if c < 0x80 then c else if c < 0xE0 then c % 0x20 else if c < 0xF0 then c % 0x10 else c % 0x08
  }

  /** The byte at i; the text ends in a 0. */
  function At(text: seq<byte>, i: nat): byte {
    if i < |text| then text[i] else 0
  }

  /** What is left after n bytes, nothing if there are fewer. */
  function After(text: seq<byte>, n: nat): seq<byte> {
    if n <= |text| then text[n..] else []
  }

  /** How far one turn of the loop goes: over a stray continuation byte, or over as many
      bytes as a lead byte announces, whatever they are. */
  function Stride(c: byte): (n: nat)
    ensures 1 <= n <= 4
  {
    if Continues(c) then 1 else Width(c)
  }

  /** Where the loop ends. */
  function End(text: seq<byte>): (n: nat)
    ensures n >= |text|
    decreases |text|
  {
    if text == [] then 0 else Stride(text[0]) + End(After(text, Stride(text[0])))
  }

  /** Six bits more from each byte from the i-th to the n-th; 0 if one is no continuation byte. */
  function Tail(text: seq<byte>, i: nat, n: nat, bits: nat): nat
    requires i <= n
    decreases n - i
  {
    if i == n then bits
    else if !Continues(At(text, i)) then 0
    else Tail(text, i + 1, n, bits * 0x40 + At(text, i) % 0x40)
  }

  function FirstDecoded(text: seq<byte>): nat
    requires text != []
  {
    Tail(text, 1, Width(text[0]), LeadBits(text[0]))
  }

  /** The code points the decoder sees: stray continuation bytes are skipped, a sequence
      that breaks off, at the end of the text too, counts as 0. */
  function Decoded(text: seq<byte>): seq<nat>
    decreases |text|
  {
    if text == [] then []
    else
      var rest := Decoded(After(text, Stride(text[0])));
      if Continues(text[0]) then rest else [FirstDecoded(text)] + rest
  }

  /** One turn of the decoding loop, which reads nothing behind the terminator. */
  method DecodeChar(text: seq<byte>, p: nat) returns (codepoint: nat, bytes: nat)
    requires p < |text| && !Continues(text[p])
    ensures bytes == Width(text[p]) && codepoint == FirstDecoded(text[p..])
  {
    var c: nat := text[p];
    if c < 0x80 {
      codepoint, bytes := c, 1;
    } else if c < 0xE0 {
      codepoint, bytes := c % 0x20, 2;
    } else if c < 0xF0 {
      codepoint, bytes := c % 0x10, 3;
    } else {
      codepoint, bytes := c % 0x08, 4;
    }
    var i := 1;
    while i < bytes
      invariant 1 <= i <= bytes && p + i <= |text|
      invariant Tail(text[p..], i, bytes, codepoint) == FirstDecoded(text[p..])
    {
      var b := At(text, p + i);
      assert b == At(text[p..], i);
      if b / 0x40 != 2 {
        codepoint := 0;
        break;
      }
      codepoint := codepoint * 0x40 + b % 0x40;
      i := i + 1;
    }
  }

  /** No turn of the loop announces more bytes than are left. */
  predicate InBounds(text: seq<byte>) {
    text == [] || (Stride(text[0]) <= |text| && InBounds(text[Stride(text[0])..]))
  }

  /** The loop ends at the terminator, rather than somewhere behind it, exactly if ... */
  lemma {:induction false} EndsInsideIff(text: seq<byte>)
    ensures End(text) == |text| <==> InBounds(text)
    decreases |text|
  {
    if text != [] {
      EndsInsideIff(After(text, Stride(text[0])));
    }
  }

  /** A lone last lead byte is enough to step over it. */
  lemma LoneLeadStepsPast()
    ensures End([0xE2]) == 3 && Decoded([0xE2]) == [0] && !InBounds([0xE2])
  {
    assert After([0xE2], 3) == [] && FirstDecoded([0xE2]) == 0;
    EndsInsideIff([0xE2]);
  }

  /** Some of the characters take n bytes together, from the first on. */
  ghost predicate Boundary(cps: seq<Scalar>, n: nat) {
    exists k :: 0 <= k <= |cps| && n == |EncodeAll(cps[..k])|
  }

  lemma BoundaryStep(cps: seq<Scalar>, n: nat)
    requires cps != []
    ensures var w := |Encode(cps[0])|;
            Boundary(cps, n) <==> n == 0 || (n >= w && Boundary(cps[1..], n - w))
  {
    var w := |Encode(cps[0])|;
    assert |EncodeAll(cps[..0])| == 0;
    if n > 0 && Boundary(cps, n) {
      var k :| 0 <= k <= |cps| && n == |EncodeAll(cps[..k])|;
      assert cps[..k][1..] == cps[1..][..k - 1];
    }
    if n >= w && Boundary(cps[1..], n - w) {
      var k :| 0 <= k <= |cps[1..]| && n - w == |EncodeAll(cps[1..][..k])|;
      assert cps[..k + 1][1..] == cps[1..][..k];
      assert n == |EncodeAll(cps[..k + 1])|;
    }
  }

  /** Cutting UTF-8 after n bytes keeps the loop inside exactly if no character is cut. */
  lemma {:induction false} CutInBoundsIff(cps: seq<Scalar>, n: nat)
    requires n <= |EncodeAll(cps)|
    ensures InBounds(EncodeAll(cps)[..n]) <==> Boundary(cps, n)
  {
    if cps == [] {
      assert n == |EncodeAll(cps[..0])|;
    } else {
      var text, w := EncodeAll(cps)[..n], |Encode(cps[0])|;
      BoundaryStep(cps, n);
      if n > 0 {
        LeadByte(cps[0]);
        assert text[0] == Encode(cps[0])[0];
        if n >= w {
          CutInBoundsIff(cps[1..], n - w);
          assert text[w..] == EncodeAll(cps[1..])[..n - w];
        }
      }
    }
  }

  /** Every scalar value encoded is in bounds and decoded as itself. */
  lemma {:induction false} TailOfEncoded(cp: Scalar, rest: seq<byte>, i: nat)
    requires 1 <= i <= |Encode(cp)|
    ensures Tail(Encode(cp) + rest, i, |Encode(cp)|, ShiftRight(cp, |Encode(cp)| - i)) == cp
    decreases |Encode(cp)| - i
  {
    if i < |Encode(cp)| {
      TailByte(cp, i);
      TailOfEncoded(cp, rest, i + 1);
    }
  }

  lemma {:induction false} DecodedEncoded(cps: seq<Scalar>)
    ensures InBounds(EncodeAll(cps)) && Decoded(EncodeAll(cps)) == cps
  {
    if cps != [] {
      var bs, rest := Encode(cps[0]), EncodeAll(cps[1..]);
      var text := bs + rest;
      DecodedEncoded(cps[1..]);
      LeadByte(cps[0]);
      TailOfEncoded(cps[0], rest, 1);
      assert text[0] == bs[0] && text[|bs|..] == rest;
      assert EncodeAll(cps) == text;
    }
  }

  /** cp >> 6 * k. */
  function ShiftRight(cp: nat, k: nat): nat {
    if k == 0 then cp else if k == 1 then cp / 0x40 else if k == 2 then cp / 0x1000 else cp / 0x4_0000
  }

  lemma LeadByte(cp: Scalar)
    ensures var bs := Encode(cp); var c := bs[0];
            && (|bs| == 1 <==> c < 0x80)
            && (|bs| == 2 <==> 0xC0 <= c < 0xE0) && (|bs| == 2 ==> c % 0x20 == ShiftRight(cp, 1))
            && (|bs| == 3 <==> 0xE0 <= c < 0xF0) && (|bs| == 3 ==> c % 0x10 == ShiftRight(cp, 2))
            && (|bs| == 4 <==> 0xF0 <= c) && (|bs| == 4 ==> c % 0x08 == ShiftRight(cp, 3))
            && (|bs| == 1 ==> c == cp)
  {
  }

  lemma TailByte(cp: Scalar, i: nat)
    requires 1 <= i < |Encode(cp)|
    ensures var n := |Encode(cp)|;
            && 0x80 <= Encode(cp)[i] < 0xC0
            && ShiftRight(cp, n - i - 1) == ShiftRight(cp, n - i) * 0x40 + Encode(cp)[i] % 0x40
  {
    assert cp / 0x1000 == cp / 0x40 / 0x40 && cp / 0x4_0000 == cp / 0x1000 / 0x40;
  }

  /** The events of one decoded character. */
  method EmitChar(table: array<Entry>, codepoint: nat, t: nat) returns (events: seq<KeyEvent>, timestamp: nat)
    requires table.Length == ASCII_MAX
    ensures events == CharEvents(table[..], codepoint, t)
    ensures timestamp == TimeAfter(table[..], codepoint, t)
  {
    events, timestamp := [], t;
    if codepoint == 0 || codepoint >= ASCII_MAX || table[codepoint].keycode == 0 {
      return;
    }
    var e := table[codepoint];
    timestamp := timestamp + 1;
    if e.needsShift {
      events := events + [KeyEvent(t, KEY_LEFTSHIFT, true)];
    }
    events := events + [KeyEvent(timestamp, e.keycode, true)];
    timestamp := timestamp + 1;
    events := events + [KeyEvent(timestamp, e.keycode, false)];
    timestamp := timestamp + 1;
    if e.needsShift {
      events := events + [KeyEvent(timestamp, KEY_LEFTSHIFT, false)];
      timestamp := timestamp + 1;
    }
  }

  /** The events of what is left of the text at p. */
  function EventsFrom(table: seq<Entry>, text: seq<byte>, p: nat, t: nat): seq<KeyEvent>
    requires |table| == ASCII_MAX
  {
    TextEvents(table, Decoded(After(text, p)), t)
  }

  lemma TurnStep(table: seq<Entry>, text: seq<byte>, p: nat, t: nat)
    requires |table| == ASCII_MAX && p < |text|
    ensures EventsFrom(table, text, p, t)
         == if Continues(text[p]) then EventsFrom(table, text, p + 1, t)
            else
              var cp := FirstDecoded(text[p..]);
              CharEvents(table, cp, t) + EventsFrom(table, text, p + Width(text[p]), TimeAfter(table, cp, t))
  {
    var n := Stride(text[p]);
    assert After(After(text, p), n) == After(text, p + n);
    if !Continues(text[p]) {
      TextEventsStep(table, FirstDecoded(text[p..]), Decoded(After(text, p + n)), t);
    }
  }

  lemma TextEventsStep(table: seq<Entry>, cp: nat, rest: seq<nat>, t: nat)
    requires |table| == ASCII_MAX
    ensures TextEvents(table, [cp] + rest, t) == CharEvents(table, cp, t) + TextEvents(table, rest, TimeAfter(table, cp, t))
  {
    assert ([cp] + rest)[1..] == rest;
  }

  lemma EndStep(text: seq<byte>, p: nat)
    requires p < |text|
    ensures End(After(text, p)) == Stride(text[p]) + End(After(text, p + Stride(text[p])))
  {
    assert After(After(text, p), Stride(text[p])) == After(text, p + Stride(text[p]));
  }

  /** One turn of the loop: the events of the character at p, the time after them and the
      position after it. */
  method TypeNext(table: array<Entry>, text: seq<byte>, p: nat, t: nat)
    returns (events: seq<KeyEvent>, timestamp: nat, next: nat)
    requires table.Length == ASCII_MAX && p < |text|
    ensures next == p + Stride(text[p])
    ensures EventsFrom(table[..], text, p, t) == events + EventsFrom(table[..], text, next, timestamp)
  {
    TurnStep(table[..], text, p, t);
    if text[p] / 0x40 == 2 {
      return [], t, p + 1;
    }
    var codepoint, bytes := DecodeChar(text, p);
    events, timestamp := EmitChar(table, codepoint, t);
    next := p + bytes;
  }

  /** The loop emits the events of each code point decoded, in turn, and ends where the
      strides of the text lead; what it would read from behind the text is not modelled. */
  method EmitSyntheticKeys(table: array<Entry>, text: seq<byte>) returns (events: seq<KeyEvent>, end: nat)
    requires table.Length == ASCII_MAX
    ensures events == TextEvents(table[..], Decoded(text), 0)
    ensures end == End(text)
    ensures end == |text| <==> InBounds(text)
  {
    events, end := [], 0;
    var timestamp: nat := 0;
    ghost var all := EventsFrom(table[..], text, 0, 0);
    assert After(text, 0) == text;
    EndsInsideIff(text);
    while end < |text|
      invariant end + End(After(text, end)) == End(text)
      invariant events + EventsFrom(table[..], text, end, timestamp) == all
    {
      EndStep(text, end);
      var es, t, next := TypeNext(table, text, end, timestamp);
      Regroup(events, es, EventsFrom(table[..], text, next, t));
      events, timestamp, end := events + es, t, next;
    }
  }

  // ---------------------------------------------------------------------
  // Reading the events back
  // ---------------------------------------------------------------------

  /** The evdev keys held after the events. */
  function HeldAfter(held: set<nat>, events: seq<KeyEvent>): set<nat>
    decreases |events|
  {
    if events == [] then held
    else HeldAfter(if events[0].pressed then held + {events[0].keycode} else held - {events[0].keycode}, events[1..])
  }

  function XkbKeys(held: set<nat>): set<nat> {
    set k | k in held :: ToXkb(k)
  }

  /** A client reads each key press in the modifier state before it. */
  function Read(km: Keymap, held: set<nat>, events: seq<KeyEvent>): seq<nat>
    decreases |events|
  {
    if events == [] then []
    else
      var ev := events[0];
      if ev.pressed then
        var cp := km.Utf32(XkbKeys(held), ToXkb(ev.keycode));
        (if cp == 0 then [] else [cp]) + Read(km, held + {ev.keycode}, events[1..])
      else Read(km, held - {ev.keycode}, events[1..])
  }

  ghost function TypedOnly(km: Keymap, cps: seq<nat>): seq<nat> {
    if cps == [] then []
    else (if Typable(km, cps[0]) then [cps[0]] else []) + TypedOnly(km, cps[1..])
  }

  function KeysUsed(events: seq<KeyEvent>): set<nat> {
    set i | 0 <= i < |events| :: events[i].keycode
  }

  /** No modifier is held, KEY_LEFTSHIFT is a Shift key and produces nothing by itself. */
  predicate Ready(km: Keymap, held: set<nat>) {
    && km.maxKey < U32
    && !km.ShiftHeld(XkbKeys(held))
    && ToXkb(KEY_LEFTSHIFT) in km.shiftKeys
    && km.level(ToXkb(KEY_LEFTSHIFT), false) == 0
  }

  lemma {:induction false} ReadConcat(km: Keymap, held: set<nat>, a: seq<KeyEvent>, b: seq<KeyEvent>)
    ensures Read(km, held, a + b) == Read(km, held, a) + Read(km, HeldAfter(held, a), b)
    ensures HeldAfter(held, a + b) == HeldAfter(HeldAfter(held, a), b)
    decreases |a|
  {
    if a == [] {
      assert a + b == b;
    } else {
      var next := if a[0].pressed then held + {a[0].keycode} else held - {a[0].keycode};
      ReadConcat(km, next, a[1..], b);
      assert (a + b)[1..] == a[1..] + b;
    }
  }

  lemma FewerKeysHeld(km: Keymap, held: set<nat>, less: set<nat>)
    requires !km.ShiftHeld(XkbKeys(held)) && less <= held
    ensures !km.ShiftHeld(XkbKeys(less))
  {
    assert XkbKeys(less) * km.shiftKeys <= XkbKeys(held) * km.shiftKeys;
  }

  lemma ReadTwo(km: Keymap, held: set<nat>, a: KeyEvent, b: KeyEvent)
    requires a.pressed && !b.pressed && a.keycode == b.keycode
    ensures Read(km, held, [a, b]) == var cp := km.Utf32(XkbKeys(held), ToXkb(a.keycode)); if cp == 0 then [] else [cp]
    ensures HeldAfter(held, [a, b]) == held - {a.keycode}
  {
    var after := held + {a.keycode};
    assert [a, b][1..] == [b] && [b][1..] == [];
    assert Read(km, after, [b]) == [] && HeldAfter(after, [b]) == after - {b.keycode};
  }

  lemma CharRead(km: Keymap, table: seq<Entry>, held: set<nat>, cp: nat, t: nat)
    requires TableFor(km, table) && Ready(km, held)
    ensures var es := CharEvents(table, cp, t);
            && Read(km, held, es) == (if Typable(km, cp) then [cp] else [])
            && HeldAfter(held, es) == held - KeysUsed(es)
  {
    var es := CharEvents(table, cp, t);
    if es == [] {
      if cp < ASCII_MAX {
        TableIsComplete(km, table, cp);
      }
    } else {
      TableIsComplete(km, table, cp);
      var e := table[cp];
      if e.needsShift {
        ShiftedRead(km, held, es, e.keycode);
      } else {
        ReadTwo(km, held, es[0], es[1]);
        assert es == [es[0], es[1]];
        assert KeysUsed(es) == {es[0].keycode, es[1].keycode};
      }
    }
  }

  lemma ShiftedRead(km: Keymap, held: set<nat>, es: seq<KeyEvent>, k: nat)
    requires Ready(km, held) && |es| == 4
    requires es[0].keycode == es[3].keycode == KEY_LEFTSHIFT && es[0].pressed && !es[3].pressed
    requires es[1].keycode == es[2].keycode == k && es[1].pressed && !es[2].pressed
    requires km.level(ToXkb(k), true) != 0
    ensures Read(km, held, es) == [km.level(ToXkb(k), true)]
    ensures HeldAfter(held, es) == held - KeysUsed(es)
  {
    var shifted := held + {KEY_LEFTSHIFT};
    assert ToXkb(KEY_LEFTSHIFT) in XkbKeys(shifted) * km.shiftKeys;
    var mid, last := [es[1], es[2]], [es[3]];
    assert es[1..] == mid + last;
    ReadTwo(km, shifted, es[1], es[2]);
    ReadConcat(km, shifted, mid, last);
    assert last[1..] == [];
    assert KeysUsed(es) == {KEY_LEFTSHIFT, k} by {
      assert es[0].keycode in KeysUsed(es) && es[1].keycode in KeysUsed(es);
    }
  }

  /** The round trip: reading the events typed for any text through the keymap gives
      exactly its typable characters, in order, and releases every key used. */
  lemma {:induction false} TypingRoundTrip(km: Keymap, table: seq<Entry>, held: set<nat>, cps: seq<nat>, t: nat)
    requires TableFor(km, table) && Ready(km, held)
    ensures var es := TextEvents(table, cps, t);
            && Read(km, held, es) == TypedOnly(km, cps)
            && HeldAfter(held, es) == held - KeysUsed(es)
  {
    if cps != [] {
      var es := CharEvents(table, cps[0], t);
      var t' := TimeAfter(table, cps[0], t);
      var rest := TextEvents(table, cps[1..], t');
      CharRead(km, table, held, cps[0], t);
      FewerKeysHeld(km, held, held - KeysUsed(es));
      TypingRoundTrip(km, table, held - KeysUsed(es), cps[1..], t');
      ReadConcat(km, held, es, rest);
      KeysUsedConcat(es, rest);
    }
  }

  lemma KeysUsedConcat(a: seq<KeyEvent>, b: seq<KeyEvent>)
    ensures KeysUsed(a + b) == KeysUsed(a) + KeysUsed(b)
  {
    forall k | k in KeysUsed(a) + KeysUsed(b) ensures k in KeysUsed(a + b) {
      if k in KeysUsed(a) {
        var i :| 0 <= i < |a| && a[i].keycode == k;
        assert (a + b)[i].keycode == k;
      } else {
        var i :| 0 <= i < |b| && b[i].keycode == k;
        assert (a + b)[|a| + i].keycode == k;
      }
    }
  }

  /** The key that the table gives for cp is held already. */
  predicate UsesHeldKey(table: seq<Entry>, held: set<nat>, cp: nat)
    requires |table| == ASCII_MAX
  {
    0 < cp < ASCII_MAX && table[cp].keycode != 0 && table[cp].keycode in held
  }

  lemma CharUsesHeld(km: Keymap, table: seq<Entry>, held: set<nat>, cp: nat, t: nat)
    requires |table| == ASCII_MAX && Ready(km, held)
    ensures held !! KeysUsed(CharEvents(table, cp, t)) <==> !UsesHeldKey(table, held, cp)
  {
    var es := CharEvents(table, cp, t);
    assert KEY_LEFTSHIFT in held ==> ToXkb(KEY_LEFTSHIFT) in XkbKeys(held) * km.shiftKeys;
    if es != [] {
      var e := table[cp];
      assert KeysUsed(es) == if e.needsShift then {KEY_LEFTSHIFT, e.keycode} else {e.keycode} by {
        assert es[0].keycode in KeysUsed(es) && es[1].keycode in KeysUsed(es);
      }
    }
  }

  lemma {:induction false} TextUsesHeld(km: Keymap, table: seq<Entry>, held: set<nat>, cps: seq<nat>, t: nat)
    requires |table| == ASCII_MAX && Ready(km, held)
    ensures held !! KeysUsed(TextEvents(table, cps, t)) <==> forall i :: 0 <= i < |cps| ==> !UsesHeldKey(table, held, cps[i])
  {
    if cps != [] {
      var es, t' := CharEvents(table, cps[0], t), TimeAfter(table, cps[0], t);
      CharUsesHeld(km, table, held, cps[0], t);
      TextUsesHeld(km, table, held, cps[1..], t');
      KeysUsedConcat(es, TextEvents(table, cps[1..], t'));
      assert cps == [cps[0]] + cps[1..];
    }
  }

  /** The set of pressed keys ends as it began exactly when the table types no character of
      the text with a key that is held down already. */
  lemma PressedKeysUnchangedIff(km: Keymap, table: seq<Entry>, held: set<nat>, cps: seq<nat>, t: nat)
    requires TableFor(km, table) && Ready(km, held)
    ensures HeldAfter(held, TextEvents(table, cps, t)) == held
       <==> forall i :: 0 <= i < |cps| && 0 < cps[i] < ASCII_MAX && table[cps[i]].keycode != 0 ==>
              table[cps[i]].keycode !in held
  {
    TypingRoundTrip(km, table, held, cps, t);
    TextUsesHeld(km, table, held, cps, t);
    assert forall i :: 0 <= i < |cps| ==>
      (UsesHeldKey(table, held, cps[i]) <==> 0 < cps[i] < ASCII_MAX && table[cps[i]].keycode != 0 && table[cps[i]].keycode in held);
  }

  /** A keymap with one letter key and one Shift key, and the table built from it. */
  const LETTER_A: Keymap := Keymap(38, 50, true, {50}, (kc, shift) => if kc == 38 && !shift then 0x61 else 0)

  const TABLE_A: seq<Entry> := seq(ASCII_MAX, i => if i == 0x61 then Entry(30, false) else Entry(0, false))

  lemma TableOfA()
    ensures TableFor(LETTER_A, TABLE_A)
  {
    assert FirstShiftKey(LETTER_A, 50);
    forall cp: nat | 0 < cp < ASCII_MAX ensures Serves(LETTER_A, TABLE_A[cp], cp) {
      if cp == 0x61 {
        assert Gives(LETTER_A, 38, false, -1, cp) && NoneBelow(LETTER_A, 38, false, -1, cp);
        assert HoldsFirst(LETTER_A, TABLE_A[cp], 51, false, -1, cp);
      }
      assert ShiftPass(LETTER_A, TABLE_A[cp], 51, 50, cp);
    }
  }

  /** So typing "a" while its key is held down releases the key. */
  lemma HeldKeyIsReleased()
    ensures TableFor(LETTER_A, TABLE_A) && Ready(LETTER_A, {30})
    ensures HeldAfter({30}, TextEvents(TABLE_A, [0x61], 0)) == {}
  {
    TableOfA();
    assert XkbKeys({30}) == {38};
    TypingRoundTrip(LETTER_A, TABLE_A, {30}, [0x61], 0);
    var es := CharEvents(TABLE_A, 0x61, 0);
    assert [0x61][1..] == [];
    assert TextEvents(TABLE_A, [0x61], 0) == es + [];
    assert es[0].keycode in KeysUsed(es) && KeysUsed(es) == {30};
  }

  predicate TimesIncreaseFrom(es: seq<KeyEvent>, t: nat) {
    && (forall i :: 0 <= i < |es| ==> t <= es[i].time)
    && (forall i, j :: 0 <= i < j < |es| ==> es[i].time < es[j].time)
  }

  /** Time stamps increase strictly through the whole text. */
  lemma {:induction false} TimesIncrease(table: seq<Entry>, cps: seq<nat>, t: nat)
    requires |table| == ASCII_MAX
    ensures TimesIncreaseFrom(TextEvents(table, cps, t), t)
  {
    if cps != [] {
      var es, t' := CharEvents(table, cps[0], t), TimeAfter(table, cps[0], t);
      var rest := TextEvents(table, cps[1..], t');
      TimesIncrease(table, cps[1..], t');
      assert forall i :: 0 <= i < |es| ==> t <= es[i].time < t';
      assert TextEvents(table, cps, t) == es + rest;
    }
  }
}
