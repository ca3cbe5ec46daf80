// The printer that goes with the mode observer (daemon/modes.go, Prefix): the bytes
// that put a fresh terminal into the observed modes. Printing and observing again is
// the identity on everything an attaching client needs.
module ModePrefix {
  import opened Text
  import opened ModeState

  // The private modes an attach restores.
  const LISTED: seq<nat> := [1, 5, 6, 7, 25, 1000, 1002, 1003, 1004, 1006, 2004]

  // Autowrap and cursor visibility are on in a fresh terminal, every other mode off.
  predicate OnByDefault(mode: int) {
    mode == 7 || mode == 25
  }

  predicate Effective(m: Modes, mode: int) {
    if mode in m.privateModes then m.privateModes[mode] else OnByDefault(mode)
  }

  predicate Enabled(privateModes: map<int, bool>, mode: int) {
    mode in privateModes && privateModes[mode]
  }

  predicate NoTerminator(s: string) {
    forall i | 0 <= i < |s| :: !TerminatesAt(s, i)
  }

  predicate ScrollTidy(s: string) {
    NoFinal(s) && !HasPrefix(s, "?")
  }

  predicate ShapeTidy(s: string) {
    NoFinal(s) && (s == "" || s[|s| - 1] == ' ')
  }

  predicate KittyTidy(flags: string, stack: seq<string>) {
    NoFinal(flags) && forall i | 0 <= i < |stack| :: NoFinal(stack[i])
  }

  // What observing guarantees about the text it stores: parameters hold no final byte
  // and a title no terminator, so each can be printed back inside a sequence.
  predicate Tidy(m: Modes) {
    && ScrollTidy(m.scrollRegion)
    && ShapeTidy(m.cursorShape)
    && KittyTidy(m.kittyFlags, m.kittyStack)
    && NoTerminator(m.title)
    && m.alternateScreen == Enabled(m.privateModes, ALTERNATE_SCREEN)
    && m.bracketedPaste == Enabled(m.privateModes, BRACKETED_PASTE)
  }

  // ---- Observing keeps stored text printable ----------------------------

  lemma {:induction false} SetPrivatesTidy(m: Modes, parameters: seq<string>, enabled: bool)
    requires Tidy(m)
    ensures Tidy(SetPrivates(m, parameters, enabled))
  {
    if parameters != [] { SetPrivatesTidy(m, parameters[..|parameters| - 1], enabled); }
  }

  lemma {:induction false} PopKittyTidy(m: Modes, count: int)
    requires Tidy(m)
    ensures Tidy(PopKitty(m, count))
    decreases |m.kittyStack|
  {
    if count > 0 && m.kittyStack != [] {
      var top := |m.kittyStack| - 1;
      PopKittyTidy(m.(kittyFlags := m.kittyStack[top], kittyStack := m.kittyStack[..top]), count - 1);
    }
  }

  lemma ObserveKittyTidy(m: Modes, params: string)
    requires Tidy(m) && NoFinal(params)
    ensures Tidy(ObserveKitty(m, params))
  {
    hide PopCount, PopKitty, ScrollTidy, ShapeTidy, NoTerminator, Enabled;
    if params != "" {
      if params[0] == '<' {
        PopKittyTidy(m, PopCount(params));
      } else {
        assert NoFinal(params[1..]);
      }
    }
  }

  lemma ObserveCSITidy(m: Modes, params: string, final: char)
    requires Tidy(m) && NoFinal(params)
    ensures Tidy(ObserveCSI(m, params, final))
  {
    hide Split, SetPrivates, ObserveKitty, KittyTidy, NoTerminator, Enabled, NoFinal;
    if final == 'u' {
      ObserveKittyTidy(m, params);
    } else if final == 'h' || final == 'l' {
      if HasPrefix(params, "?") { SetPrivatesTidy(m, Split(params[1..], ';'), final == 'h'); }
    }
  }

  lemma ObserveOSCTidy(m: Modes, payload: string)
    requires Tidy(m) && NoTerminator(payload)
    ensures Tidy(ObserveOSC(m, payload))
  {
    var separator := IndexByte(payload, ';');
    if separator < |payload| {
      var title := payload[separator + 1..];
      forall i | 0 <= i < |title| ensures !TerminatesAt(title, i) {
        assert !TerminatesAt(payload, separator + 1 + i);
      }
    }
  }

  lemma EffectTidy(m: Modes, data: string)
    requires Tidy(m) && data != "" && SequenceEnd(data).Some?
    ensures Tidy(Effect(m, data))
  {
    hide ObserveCSI, ObserveOSC, ScrollTidy, ShapeTidy, KittyTidy, Enabled, NoFinal;
    if data[0] == ESC && data[1] == '[' {
      var f := FinalIndex(data, 2);
      ObserveCSITidy(m, data[2..f], data[f]);
    } else if data[0] == ESC && data[1] == ']' {
      var e := OscEnd(data, 2);
      var payload := data[2..e];
      forall i | 0 <= i < |payload| ensures !TerminatesAt(payload, i) {
        assert !TerminatesAt(data, i + 2);
      }
      ObserveOSCTidy(m, payload);
    }
  }

  lemma {:induction false} ScanTidy(m: Modes, data: string)
    requires Tidy(m)
    ensures Tidy(Scan(m, data).modes)
    decreases |data|
  {
    if data != "" && SequenceEnd(data).Some? {
      EffectTidy(m, data);
      ScanTidy(Effect(m, data), data[SequenceEnd(data).value..]);
    }
  }

  // Every observer state reached from a fresh one, whatever was read and however it
  // was cut, stores only printable text.
  lemma {:induction false} ReachableIsTidy(o: Observed, chunks: seq<string>)
    requires Tidy(o.modes)
    ensures Tidy(ObserveAll(o, chunks).modes)
    decreases chunks
  {
    if chunks != [] {
      ScanTidy(o.modes, o.pending + chunks[0]);
      ReachableIsTidy(Observe(o, chunks[0]), chunks[1..]);
    }
  }

  // ---- The printed prefix ------------------------------------------------

  function PrivateItem(mode: nat, enabled: bool): string {
    CSI("?" + Itoa(mode), if enabled then 'h' else 'l')
  }

  // A reset is printed only for a mode that is on by default.
  predicate Printed(m: Modes, mode: int) {
    mode in m.privateModes && (m.privateModes[mode] || OnByDefault(mode))
  }

  function ListedItem(m: Modes, mode: nat): string {
    if Printed(m, mode) then PrivateItem(mode, m.privateModes[mode]) else ""
  }

  function ListedItems(m: Modes, modes: seq<nat>): string {
    if modes == [] then ""
    else ListedItems(m, modes[..|modes| - 1]) + ListedItem(m, modes[|modes| - 1])
  }

  function TitleItem(title: string): string {
    if title == "" then "" else [ESC, ']', '2', ';'] + title + [BEL]
  }

  function AlternateItem(enabled: bool): string {
    if enabled then PrivateItem(1049, true) else ""
  }

  function InsertItem(enabled: bool): string {
    if enabled then CSI("4", 'h') else ""
  }

  function ScrollItem(region: string): string {
    if region != "" then CSI(region, 'r') else ""
  }

  function ShapeItem(shape: string): string {
    if shape != "" then CSI(shape, 'q') else ""
  }

  function KeypadItem(enabled: bool): string {
    if enabled then [ESC, '='] else ""
  }

  function KittyItem(flags: string): string {
    if flags != "" then CSI("=" + flags, 'u') else ""
  }

  // Synchronized output is always disabled.
  function Prefix(m: Modes): string {
    AlternateItem(m.alternateScreen) + ListedItems(m, LISTED)
    + (InsertItem(m.insertMode) + (ScrollItem(m.scrollRegion) + ShapeItem(m.cursorShape)))
    + (KeypadItem(m.keypadApp) + (KittyItem(m.kittyFlags) + TitleItem(m.title)))
    + PrivateItem(2026, false)
  }

  // ---- Observing one printed item ---------------------------------------

  lemma {:induction false} NoSeparator(s: string, c: char)
    requires forall i | 0 <= i < |s| :: s[i] != c
    ensures Split(s, c) == [s]
  {
  }

  lemma ScanCSI(x: Modes, params: string, final: char)
    requires NoFinal(params) && IsFinal(final)
    ensures Scan(x, CSI(params, final)) == Scanned(ObserveCSI(x, params, final), "")
  {
    ScanFinishedCSI(x, params, final, "");
    assert CSI(params, final) + "" == CSI(params, final);
  }

  lemma ScanPrivate(x: Modes, mode: nat, enabled: bool)
    requires mode <= 2026
    ensures Scan(x, PrivateItem(mode, enabled)) == Scanned(SetPrivate(x, mode, enabled), "")
  {
    var params := "?" + Itoa(mode);
    forall i | 0 <= i < |params| ensures !IsFinal(params[i]) {
      if i > 0 { assert IsDigit(Itoa(mode)[i - 1]); }
    }
    ScanCSI(x, params, if enabled then 'h' else 'l');
    assert params[1..] == Itoa(mode);
    NoSeparator(Itoa(mode), ';');
    AtoiItoa(mode);
    assert [Itoa(mode)][..0] == [];
    assert SetPrivates(x, [Itoa(mode)], enabled) == SetPrivate(x, mode, enabled);
  }

  lemma ScanTitle(x: Modes, title: string)
    requires NoTerminator(title) && x.title == ""
    ensures Scan(x, TitleItem(title)) == Scanned(x.(title := title), "")
  {
    if title == "" { return; }
    var data := TitleItem(title);
    var e := |title| + 4;
    forall i | 2 <= i < e ensures !TerminatesAt(data, i) {
      if i >= 4 {
        assert !TerminatesAt(title, i - 4);
        assert data[i] == title[i - 4];
        assert i + 1 < e ==> data[i + 1] == title[i - 3];
      }
    }
    assert OscEnd(data, 2) == e by {
      var r := OscEnd(data, 2);
      assert r < |data| by { if r == |data| { assert TerminatesAt(data, e); } }
      assert TerminatesAt(data, r);
    }
    var payload := data[2..e];
    assert payload == "2;" + title;
    assert IndexByte(payload, ';') == 1;
    assert payload[2..] == title && payload[..1] == "2";
    assert data[e + 1..] == "";
  }

  // Items observed one after the other.
  lemma Sequenced(x: Modes, p: string, y: Modes, q: string, z: Modes)
    requires Scan(x, p) == Scanned(y, "") && Scan(y, q) == Scanned(z, "")
    ensures Scan(x, p + q) == Scanned(z, "")
  {
    ScanAppend(x, p, q);
    assert "" + q == q;
  }

  // The listed private modes, replayed onto a terminal that has none of them set.
  function Replayed(x: Modes, m: Modes, modes: seq<nat>): Modes {
    if modes == [] then x
    else
      var y := Replayed(x, m, modes[..|modes| - 1]);
      var mode := modes[|modes| - 1];
      if Printed(m, mode) then SetPrivate(y, mode, m.privateModes[mode]) else y
  }

  lemma {:induction false} ScanListed(x: Modes, m: Modes, modes: seq<nat>)
    requires forall i | 0 <= i < |modes| :: modes[i] <= 2026
    ensures Scan(x, ListedItems(m, modes)) == Scanned(Replayed(x, m, modes), "")
  {
    if modes != [] {
      var init, mode := modes[..|modes| - 1], modes[|modes| - 1];
      var y := Replayed(x, m, init);
      ScanListed(x, m, init);
      if Printed(m, mode) { ScanPrivate(y, mode, m.privateModes[mode]); }
      Sequenced(x, ListedItems(m, init), y, ListedItem(m, mode), Replayed(x, m, modes));
    }
  }

  lemma {:induction false} ReplayedKeeps(x: Modes, m: Modes, modes: seq<nat>)
    requires 1049 !in modes && !x.bracketedPaste
    ensures var y := Replayed(x, m, modes);
            && y == x.(privateModes := y.privateModes, bracketedPaste := y.bracketedPaste)
            && y.bracketedPaste == (2004 in modes && Enabled(m.privateModes, 2004))
  {
    if modes != [] {
      var init, mode := modes[..|modes| - 1], modes[|modes| - 1];
      assert modes == init + [mode];
      ReplayedKeeps(x, m, init);
    }
  }

  lemma {:induction false} ReplayedModes(x: Modes, m: Modes, modes: seq<nat>)
    requires forall k | k in x.privateModes :: k !in modes
    ensures var y := Replayed(x, m, modes);
            && (forall k | k in modes :: Effective(y, k) == Effective(m, k))
            && (forall k | k !in modes :: k in y.privateModes <==> k in x.privateModes)
  {
    if modes != [] {
      var init, mode := modes[..|modes| - 1], modes[|modes| - 1];
      assert modes == init + [mode];
      ReplayedModes(x, m, init);
    }
  }

  // Everything an attaching client relies on.
  predicate SameForClient(x: Modes, m: Modes) {
    && x.alternateScreen == m.alternateScreen
    && x.bracketedPaste == m.bracketedPaste
    && (forall k | k in LISTED :: Effective(x, k) == Effective(m, k))
    && x.insertMode == m.insertMode
    && x.scrollRegion == m.scrollRegion
    && x.cursorShape == m.cursorShape
    && x.keypadApp == m.keypadApp
    && x.kittyFlags == m.kittyFlags
    && x.title == m.title
  }

  lemma Sequenced0(x: Modes)
    ensures Scan(x, "") == Scanned(x, "")
  {
  }

  lemma ScanAlternate(x: Modes, enabled: bool)
    ensures Scan(x, AlternateItem(enabled)) == Scanned(if enabled then SetPrivate(x, 1049, true) else x, "")
  {
    ScanPrivate(x, 1049, true);
  }

  lemma ScanInsert(x: Modes, enabled: bool)
    requires !x.insertMode
    ensures Scan(x, InsertItem(enabled)) == Scanned(x.(insertMode := enabled), "")
  {
    hide Scan, PopKitty, SetPrivates;
    ScanCSI(x, "4", 'h');
    NoSeparator("4", ';');
    assert !HasPrefix("4", "?");
    assert "4" in ["4"];
    if !enabled { Sequenced0(x); }
  }

  lemma ScanKeypad(x: Modes, enabled: bool)
    requires !x.keypadApp
    ensures Scan(x, KeypadItem(enabled)) == Scanned(x.(keypadApp := enabled), "")
  {
    assert [ESC, '='][2..] == "";
  }

  lemma ScanScroll(x: Modes, region: string)
    requires ScrollTidy(region) && x.scrollRegion == ""
    ensures Scan(x, ScrollItem(region)) == Scanned(x.(scrollRegion := region), "")
  {
    ScanCSI(x, region, 'r');
  }

  lemma ScanShape(x: Modes, shape: string)
    requires ShapeTidy(shape) && x.cursorShape == ""
    ensures Scan(x, ShapeItem(shape)) == Scanned(x.(cursorShape := shape), "")
  {
    ScanCSI(x, shape, 'q');
  }

  lemma ScanKitty(x: Modes, flags: string)
    requires NoFinal(flags) && x.kittyFlags == ""
    ensures Scan(x, KittyItem(flags)) == Scanned(x.(kittyFlags := flags), "")
  {
    var params := "=" + flags;
    forall i | 0 <= i < |params| ensures !IsFinal(params[i]) {
      if i > 0 { assert params[i] == flags[i - 1]; }
    }
    ScanCSI(x, params, 'u');
    assert params[1..] == flags;
  }

  function Flagged(x: Modes, m: Modes): Modes {
    x.(insertMode := m.insertMode, scrollRegion := m.scrollRegion, cursorShape := m.cursorShape)
  }

  function Titled(x: Modes, m: Modes): Modes {
    x.(keypadApp := m.keypadApp, kittyFlags := m.kittyFlags, title := m.title)
  }

  lemma ScanFirstItems(x: Modes, m: Modes)
    requires Tidy(m) && !x.insertMode && x.scrollRegion == "" && x.cursorShape == ""
    ensures Scan(x, InsertItem(m.insertMode) + (ScrollItem(m.scrollRegion) + ShapeItem(m.cursorShape)))
            == Scanned(Flagged(x, m), "")
  {
    hide Scan, InsertItem, ScrollItem, ShapeItem;
    var y := x.(insertMode := m.insertMode);
    var z := y.(scrollRegion := m.scrollRegion);
    ScanInsert(x, m.insertMode);
    ScanScroll(y, m.scrollRegion);
    ScanShape(z, m.cursorShape);
    Sequenced(y, ScrollItem(m.scrollRegion), z, ShapeItem(m.cursorShape), Flagged(x, m));
    Sequenced(x, InsertItem(m.insertMode), y, ScrollItem(m.scrollRegion) + ShapeItem(m.cursorShape), Flagged(x, m));
  }

  lemma ScanLastItems(x: Modes, m: Modes)
    requires Tidy(m) && !x.keypadApp && x.kittyFlags == "" && x.title == ""
    ensures Scan(x, KeypadItem(m.keypadApp) + (KittyItem(m.kittyFlags) + TitleItem(m.title)))
            == Scanned(Titled(x, m), "")
  {
    hide Scan, KeypadItem, KittyItem, TitleItem;
    var y := x.(keypadApp := m.keypadApp);
    var z := y.(kittyFlags := m.kittyFlags);
    ScanKeypad(x, m.keypadApp);
    ScanKitty(y, m.kittyFlags);
    ScanTitle(z, m.title);
    Sequenced(y, KittyItem(m.kittyFlags), z, TitleItem(m.title), Titled(x, m));
    Sequenced(x, KeypadItem(m.keypadApp), y, KittyItem(m.kittyFlags) + TitleItem(m.title), Titled(x, m));
  }

  function WithAlternate(m: Modes): Modes {
    if m.alternateScreen then SetPrivate(Fresh, 1049, true) else Fresh
  }

  function WithListed(m: Modes): Modes {
    Replayed(WithAlternate(m), m, LISTED)
  }

  // The modes a fresh terminal has after the prefix.
  function Restored(m: Modes): Modes {
    SetPrivate(Titled(Flagged(WithListed(m), m), m), 2026, false)
  }

  lemma NoTextsYet(m: Modes)
    ensures var x := WithListed(m);
            && !x.insertMode && x.scrollRegion == "" && x.cursorShape == ""
            && var y := Flagged(x, m); !y.keypadApp && y.kittyFlags == "" && y.title == ""
  {
    ReplayedKeeps(WithAlternate(m), m, LISTED);
  }

  // A fresh observer fed the prefix ends in exactly these modes, with nothing pending.
  lemma ScanPrefix(m: Modes)
    requires Tidy(m)
    ensures Scan(Fresh, Prefix(m)) == Scanned(Restored(m), "")
  {
    NoTextsYet(m);
    var modes := AlternateItem(m.alternateScreen) + ListedItems(m, LISTED);
    assert Scan(Fresh, modes) == Scanned(WithListed(m), "") by {
      ScanAlternate(Fresh, m.alternateScreen);
      ScanListed(WithAlternate(m), m, LISTED);
      Sequenced(Fresh, AlternateItem(m.alternateScreen), WithAlternate(m), ListedItems(m, LISTED), WithListed(m));
    }
    hide Scan, ListedItems, InsertItem, ScrollItem, ShapeItem, KeypadItem, KittyItem, TitleItem,
         PrivateItem, AlternateItem, WithListed, Flagged, Titled, SetPrivate;
    var x, y := WithListed(m), Flagged(WithListed(m), m);
    var z := Titled(y, m);
    var first := InsertItem(m.insertMode) + (ScrollItem(m.scrollRegion) + ShapeItem(m.cursorShape));
    var last := KeypadItem(m.keypadApp) + (KittyItem(m.kittyFlags) + TitleItem(m.title));
    ScanFirstItems(x, m);
    Sequenced(Fresh, modes, x, first, y);
    ScanLastItems(y, m);
    Sequenced(Fresh, modes + first, y, last, z);
    ScanPrivate(z, 2026, false);
    Sequenced(Fresh, modes + first + last, z, PrivateItem(2026, false), Restored(m));
  }

  lemma RestoredIsSame(m: Modes)
    requires Tidy(m)
    ensures SameForClient(Restored(m), m)
  {
    ReplayedKeeps(WithAlternate(m), m, LISTED);
    ReplayedModes(WithAlternate(m), m, LISTED);
    var y := WithListed(m);
    forall k | k in LISTED ensures Effective(Restored(m), k) == Effective(m, k) {
      assert Effective(y, k) == Effective(m, k);
    }
  }

  // The round trip: whatever output an observer has seen, in whatever pieces, a fresh
  // observer fed its prefix agrees with it on everything a client relies on, has
  // synchronized output off, and holds no unfinished sequence.
  lemma RoundTrip(chunks: seq<string>)
    ensures var m := ObserveAll(Observed(Fresh, ""), chunks).modes;
            var r := Observe(Observed(Fresh, ""), Prefix(m));
            && SameForClient(r.modes, m) && r.pending == ""
            && 2026 in r.modes.privateModes && !r.modes.privateModes[2026]
  {
    ReachableIsTidy(Observed(Fresh, ""), chunks);
    var m := ObserveAll(Observed(Fresh, ""), chunks).modes;
    ScanPrefix(m);
    RestoredIsSame(m);
    assert "" + Prefix(m) == Prefix(m);
  }
}
