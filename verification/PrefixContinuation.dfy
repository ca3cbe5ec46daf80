// What comes after the attach prefix (daemon/modes.go): the fresh observer fed the prefix
// and the observer the prefix was printed for both go on to read the same output. The
// prefix has no place for the stack of kitty flags, nor for an unfinished sequence.
module PrefixContinuation {
  import opened Text
  import opened ModeState
  import opened ModePrefix

  // Agreement on what a client relies on, kept by whatever is observed next.
  predicate Alike(x: Modes, y: Modes) {
    && ListedAlike(x.privateModes, y.privateModes)
    && y == x.(privateModes := y.privateModes, savedCursor := y.savedCursor)
  }

  predicate ListedAlike(p: map<int, bool>, q: map<int, bool>) {
    forall k | k in LISTED :: EffectiveIn(p, k) == EffectiveIn(q, k)
  }

  predicate EffectiveIn(privateModes: map<int, bool>, mode: int) {
    if mode in privateModes then privateModes[mode] else OnByDefault(mode)
  }

  lemma AlikeIs(x: Modes, y: Modes)
    ensures Alike(x, y) <==> SameForClient(x, y) && x.kittyStack == y.kittyStack
  {
    forall k ensures EffectiveIn(x.privateModes, k) == Effective(x, k) && EffectiveIn(y.privateModes, k) == Effective(y, k) { }
  }

  // ---- Alike observers stay alike ---------------------------------------

  lemma SetPrivateAlike(x: Modes, y: Modes, mode: int, enabled: bool)
    requires Alike(x, y)
    ensures Alike(SetPrivate(x, mode, enabled), SetPrivate(y, mode, enabled))
  {
    forall k | k in LISTED
      ensures EffectiveIn(x.privateModes[mode := enabled], k) == EffectiveIn(y.privateModes[mode := enabled], k)
    {
      assert EffectiveIn(x.privateModes, k) == EffectiveIn(y.privateModes, k);
    }
  }

  lemma {:induction false} SetPrivatesAlike(x: Modes, y: Modes, parameters: seq<string>, enabled: bool)
    requires Alike(x, y)
    ensures Alike(SetPrivates(x, parameters, enabled), SetPrivates(y, parameters, enabled))
  {
    hide Alike, SetPrivate, Atoi;
    if parameters != [] {
      var n := |parameters| - 1;
      SetPrivatesAlike(x, y, parameters[..n], enabled);
      if Atoi(parameters[n]).Some? {
        SetPrivateAlike(SetPrivates(x, parameters[..n], enabled), SetPrivates(y, parameters[..n], enabled),
                        Atoi(parameters[n]).value, enabled);
      }
    }
  }

  lemma {:induction false} PopKittyAlike(x: Modes, y: Modes, count: int)
    requires Alike(x, y)
    ensures Alike(PopKitty(x, count), PopKitty(y, count))
    decreases |x.kittyStack|
  {
    hide ListedAlike;
    if count > 0 && x.kittyStack != [] {
      var top := |x.kittyStack| - 1;
      PopKittyAlike(x.(kittyFlags := x.kittyStack[top], kittyStack := x.kittyStack[..top]),
                    y.(kittyFlags := y.kittyStack[top], kittyStack := y.kittyStack[..top]), count - 1);
    }
  }

  lemma KittyFieldsAlike(x: Modes, y: Modes, flags: string)
    requires Alike(x, y)
    ensures Alike(x.(kittyFlags := flags), y.(kittyFlags := flags))
    ensures Alike(x.(kittyStack := x.kittyStack + [x.kittyFlags], kittyFlags := flags),
                  y.(kittyStack := y.kittyStack + [y.kittyFlags], kittyFlags := flags))
  {
    hide ListedAlike;
  }

  lemma ObserveKittyAlike(x: Modes, y: Modes, params: string)
    requires Alike(x, y)
    ensures Alike(ObserveKitty(x, params), ObserveKitty(y, params))
  {
    hide PopCount, PopKitty, Alike;
    if params != "" {
      KittyFieldsAlike(x, y, params[1..]);
      PopKittyAlike(x, y, PopCount(params));
    }
  }

  lemma FieldsAlike(x: Modes, y: Modes, text: string, flag: bool)
    requires Alike(x, y)
    ensures Alike(x.(scrollRegion := text), y.(scrollRegion := text))
    ensures Alike(x.(cursorShape := text), y.(cursorShape := text))
    ensures Alike(x.(title := text), y.(title := text))
    ensures Alike(x.(insertMode := flag), y.(insertMode := flag))
    ensures Alike(x.(keypadApp := flag), y.(keypadApp := flag))
    ensures Alike(x.(savedCursor := flag), y.(savedCursor := flag))
  {
    hide ListedAlike;
  }

  lemma ObserveModesAlike(x: Modes, y: Modes, params: string, enabled: bool)
    requires Alike(x, y)
    ensures Alike(ObserveModes(x, params, enabled), ObserveModes(y, params, enabled))
  {
    hide Split, SetPrivates, Alike;
    if HasPrefix(params, "?") {
      SetPrivatesAlike(x, y, Split(params[1..], ';'), enabled);
    } else {
      FieldsAlike(x, y, "", enabled);
    }
  }

  lemma ObserveCSIAlike(x: Modes, y: Modes, params: string, final: char)
    requires Alike(x, y)
    ensures Alike(ObserveCSI(x, params, final), ObserveCSI(y, params, final))
  {
    hide ObserveModes, ObserveKitty, Alike;
    ObserveKittyAlike(x, y, params);
    ObserveModesAlike(x, y, params, final == 'h');
    FieldsAlike(x, y, params, true);
  }

  lemma ObserveOSCAlike(x: Modes, y: Modes, payload: string)
    requires Alike(x, y)
    ensures Alike(ObserveOSC(x, payload), ObserveOSC(y, payload))
  {
    hide Alike;
    var i := IndexByte(payload, ';');
    if i < |payload| { FieldsAlike(x, y, payload[i + 1..], true); }
  }

  lemma EffectAlike(x: Modes, y: Modes, data: string)
    requires Alike(x, y) && data != "" && SequenceEnd(data).Some?
    ensures Alike(Effect(x, data), Effect(y, data))
  {
    hide ObserveCSI, ObserveOSC, Alike;
    if data[0] == ESC {
      if data[1] == '[' {
        var f := FinalIndex(data, 2);
        ObserveCSIAlike(x, y, data[2..f], data[f]);
      } else if data[1] == ']' {
        ObserveOSCAlike(x, y, data[2..OscEnd(data, 2)]);
      } else {
        FieldsAlike(x, y, "", true);
        FieldsAlike(x, y, "", false);
      }
    }
  }

  lemma {:induction false} ScanAlike(x: Modes, y: Modes, data: string)
    requires Alike(x, y)
    ensures Alike(Scan(x, data).modes, Scan(y, data).modes) && Scan(x, data).unfinished == Scan(y, data).unfinished
    decreases |data|
  {
    hide Alike, Effect;
    if data != "" && SequenceEnd(data).Some? {
      EffectAlike(x, y, data);
      ScanAlike(Effect(x, data), Effect(y, data), data[SequenceEnd(data).value..]);
    }
  }

  // ---- What tells two observers apart -----------------------------------

  // An escape that would switch the keypad is swallowed by an unfinished sequence.
  lemma EscapeIsSwallowed(m: Modes, u: string, c: char)
    requires u != "" && Scan(m, u) == Scanned(m, u) && (c == '=' || c == '>')
    ensures Scan(m, u + [ESC, c]).modes.keypadApp == m.keypadApp
  {
    var data := u + [ESC, c];
    if |u| == 1 {
      StartsWithEscape(m, u);
      assert data == [ESC, ESC, c];
      assert data[2..] == [c] && [c][1..] == "";
      assert Scan(m, data) == Scan(m, [c]) == Scan(m, "");
    } else {
      ScanUnfinished(m, u);
      if IsOSC(u) {
        forall i | 2 <= i < |data| ensures !TerminatesAt(data, i) {
          if i < |u| { assert !TerminatesAt(u, i); }
        }
        OscEndIs(data, 2, |data|);
      } else {
        NoFinalSoFar(u, c);
      }
      assert Scan(m, data) == Scanned(m, data);
    }
  }

  lemma StartsWithEscape(m: Modes, u: string)
    requires u != "" && Scan(m, u) == Scanned(m, u)
    ensures u[0] == ESC
  {
  }

  lemma NoFinalSoFar(u: string, c: char)
    requires HasPrefix(u, [ESC, '[']) && NoFinal(u[2..]) && (c == '=' || c == '>')
    ensures var data := u + [ESC, c]; data[0] == ESC && data[1] == '[' && FinalIndex(data, 2) == |data|
  {
    var data := u + [ESC, c];
    forall i | 2 <= i < |data| ensures !IsFinal(data[i]) {
      if i < |u| { assert data[i] == u[2..][i - 2]; }
    }
    assert data[0] == u[..2][0] && data[1] == u[..2][1];
  }

  lemma KeypadTells(x: Modes, m: Modes, u: string) returns (b: string)
    requires u != "" && Scan(m, u) == Scanned(m, u)
    ensures Scan(x, b).modes.keypadApp != Scan(m, u + b).modes.keypadApp
  {
    var c := if m.keypadApp then '>' else '=';
    b := [ESC, c];
    EscapeIsSwallowed(m, u, c);
    assert b[2..] == "";
    assert Scan(x, b) == Scan(ObserveEscape(x, c), "");
  }

  // Setting the flags and popping: only a terminal with a stack gets others back.
  lemma StackTells(x: Modes, m: Modes) returns (b: string)
    requires x.kittyStack == [] && m.kittyStack != []
    ensures Scan(x, b).modes.kittyFlags != Scan(m, b).modes.kittyFlags
  {
    var top := m.kittyStack[|m.kittyStack| - 1];
    var flags := if top == "" then "1" else "";
    b := CSI("=" + flags, 'u') + CSI("<", 'u');
    hide Scan, CSI, PopKitty;
    SetAndPop(x, flags);
    SetAndPop(m, flags);
    PoppedOnce(x, flags);
    PoppedOnce(m, flags);
  }

  lemma PoppedOnce(m: Modes, flags: string)
    ensures PopKitty(m.(kittyFlags := flags), 1).kittyFlags
            == if m.kittyStack == [] then flags else m.kittyStack[|m.kittyStack| - 1]
  {
  }

  lemma SetAndPop(m: Modes, flags: string)
    requires flags == "" || flags == "1"
    ensures Scan(m, CSI("=" + flags, 'u') + CSI("<", 'u'))
            == Scanned(PopKitty(m.(kittyFlags := flags), 1), "")
  {
    var after := m.(kittyFlags := flags);
    ScanCSI(m, "=" + flags, 'u');
    assert ("=" + flags)[1..] == flags;
    ScanCSI(after, "<", 'u');
    assert "<"[1..] == "" && Atoi("") == None;
    assert PopCount("<") == 1;
    hide Scan;
    Sequenced(m, CSI("=" + flags, 'u'), after, CSI("<", 'u'), PopKitty(after, 1));
  }

  // ---- After the prefix -------------------------------------------------

  lemma RestoredHasNoStack(m: Modes)
    ensures Restored(m).kittyStack == []
  {
    ReplayedKeeps(WithAlternate(m), m, LISTED);
  }

  // What an observer makes of its own carry-over: nothing, unless that was cut.
  function Settled(o: Observed): Scanned {
    Scan(o.modes, o.pending)
  }

  predicate CarriesNothing(o: Observed) {
    Settled(o).unfinished == "" && Settled(o).modes.kittyStack == [] && SameForClient(Settled(o).modes, o.modes)
  }

  lemma AfterPrefix(o: Observed, b: string)
    requires Tidy(o.modes)
    ensures var r := Observe(Observed(Fresh, ""), Prefix(o.modes));
            r == Observed(Restored(o.modes), "") && Observe(r, b).modes == Scan(Restored(o.modes), b).modes
    ensures Observe(o, b).modes == Scan(Settled(o).modes, Settled(o).unfinished + b).modes
  {
    hide Scan, Prefix, Restored, Tidy, Keep;
    ScanPrefix(o.modes);
    assert "" + Prefix(o.modes) == Prefix(o.modes) && "" + b == b;
    ScanAppend(o.modes, o.pending, b);
  }

  // An attached client's terminal goes on like the daemon's, whatever is written next,
  // exactly when the observer holds no stack of kitty flags and no unfinished sequence,
  // and re-reading its carry-over changes nothing a client relies on.
  lemma ContinuesAlikeExactly(o: Observed)
    requires Tidy(o.modes)
    ensures var r := Observe(Observed(Fresh, ""), Prefix(o.modes));
            (forall b :: SameForClient(Observe(r, b).modes, Observe(o, b).modes)) <==> CarriesNothing(o)
  {
    var r := Observe(Observed(Fresh, ""), Prefix(o.modes));
    var x, s := Restored(o.modes), Settled(o);
    RestoredIsSame(o.modes);
    RestoredHasNoStack(o.modes);
    hide Restored, Prefix, Settled, Observe, Scan;
    if CarriesNothing(o) {
      SameForBoth(x, s.modes, o.modes);
      forall b ensures SameForClient(Observe(r, b).modes, Observe(o, b).modes) {
        AfterPrefix(o, b);
        assert "" + b == b;
        AlikeIs(x, s.modes);
        ScanAlike(x, s.modes, b);
        AlikeIs(Scan(x, b).modes, Scan(s.modes, b).modes);
      }
    } else {
      var b := Tells(o);
      AfterPrefix(o, b);
    }
  }

  lemma SameForBoth(x: Modes, y: Modes, m: Modes)
    requires SameForClient(x, m)
    ensures SameForClient(y, m) <==> SameForClient(x, y)
  {
    if SameForClient(y, m) || SameForClient(x, y) {
      forall k | k in LISTED ensures (Effective(y, k) == Effective(m, k)) <==> (Effective(x, k) == Effective(y, k)) {
        assert Effective(x, k) == Effective(m, k);
      }
    }
  }

  lemma Tells(o: Observed) returns (b: string)
    requires Tidy(o.modes) && !CarriesNothing(o)
    ensures !SameForClient(Scan(Restored(o.modes), b).modes, Scan(Settled(o).modes, Settled(o).unfinished + b).modes)
  {
    var x, s := Restored(o.modes), Settled(o);
    RestoredIsSame(o.modes);
    RestoredHasNoStack(o.modes);
    Rescan(o.modes, o.pending);
    hide Restored, Settled, Scan;
    if s.unfinished != "" {
      b := KeypadTells(x, s.modes, s.unfinished);
    } else if s.modes.kittyStack != [] {
      b := StackTells(x, s.modes);
      assert "" + b == b;
    } else {
      b := "";
      Sequenced0(x);
      Sequenced0(s.modes);
      SameForBoth(x, s.modes, o.modes);
    }
  }

  // In particular, for every output in any reads that leaves nothing unfinished.
  lemma AttachedContinuesExactly(chunks: seq<string>)
    ensures var o := ObserveAll(Observed(Fresh, ""), chunks);
            var r := Observe(Observed(Fresh, ""), Prefix(o.modes));
            o.pending == "" ==>
              ((forall b :: SameForClient(Observe(r, b).modes, Observe(o, b).modes)) <==> o.modes.kittyStack == [])
  {
    ReachableIsTidy(Observed(Fresh, ""), chunks);
    var o := ObserveAll(Observed(Fresh, ""), chunks);
    ContinuesAlikeExactly(o);
    if o.pending == "" {
      Sequenced0(o.modes);
      assert SameForClient(o.modes, o.modes);
    }
  }
}
