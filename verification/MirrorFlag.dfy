// The alternate-screen flag a replacement daemon resumes its primary mirror with
// (daemon/attachment.go: newAdoptedSessionAttachment) is the mode observer's, not the
// mirror's own. The observer reads control sequences, the mirror looks for two byte
// strings; here is when they agree.
module MirrorFlag {
  import opened Text
  import M = ModeState
  import P = PrimaryMirror

  const ESC: char := '\U{1b}'

  // ---- What a sequence does to the observer's flag ----------------------

  // The parameters name the alternate screen's mode.
  predicate Names(parameters: seq<string>) {
    exists i: nat :: i < |parameters| && Atoi(parameters[i]) == Some(M.ALTERNATE_SCREEN)
  }

  // A complete sequence that sets or resets the mode, alone or among others.
  predicate Touches(t: string) {
    && |t| >= 4 && t[0] == ESC && t[1] == '[' && t[2] == '?'
    && (t[|t| - 1] == 'h' || t[|t| - 1] == 'l')
    && Names(M.Split(t[3..|t| - 1], ';'))
  }

  lemma {:induction false} SetPrivatesOnScreen(m: M.Modes, parameters: seq<string>, enabled: bool)
    ensures M.SetPrivates(m, parameters, enabled).alternateScreen
            == if Names(parameters) then enabled else m.alternateScreen
  {
    hide Atoi;
    if parameters != [] {
      var n := |parameters| - 1;
      var init := parameters[..n];
      SetPrivatesOnScreen(m, init, enabled);
      if Atoi(parameters[n]) == Some(M.ALTERNATE_SCREEN) {
        assert Names(parameters);
      } else if Names(parameters) {
        var i: nat :| i < |parameters| && Atoi(parameters[i]) == Some(M.ALTERNATE_SCREEN);
        assert init[i] == parameters[i];
      }
    }
  }

  lemma CSIOnScreen(m: M.Modes, params: string, final: char)
    ensures M.ObserveCSI(m, params, final).alternateScreen
            == if (final == 'h' || final == 'l') && M.HasPrefix(params, "?") && Names(M.Split(params[1..], ';'))
               then final == 'h' else m.alternateScreen
  {
    hide M.Split, Names, M.SetPrivates, M.PopKitty, M.PopCount, Atoi;
    if final == 'u' {
      M.PopKittyKeeps(m, M.PopCount(params));
    } else if final == 'h' || final == 'l' {
      if M.HasPrefix(params, "?") { SetPrivatesOnScreen(m, M.Split(params[1..], ';'), final == 'h'); }
    }
  }

  lemma EffectOnScreen(m: M.Modes, data: string, end: nat)
    requires data != "" && M.SequenceEnd(data) == Some(end)
    ensures var t := data[..end];
            M.Effect(m, data).alternateScreen == if Touches(t) then t[|t| - 1] == 'h' else m.alternateScreen
  {
    hide M.Split, Names;
    var t := data[..end];
    if data[0] == ESC && data[1] == '[' {
      var f := M.FinalIndex(data, 2);
      var params := data[2..f];
      CSIOnScreen(m, params, data[f]);
      assert t[|t| - 1] == data[f];
      if M.HasPrefix(params, "?") {
        assert params[0] == params[..1][0];
        assert params[1..] == t[3..|t| - 1];
      } else if |t| >= 4 {
        assert t[2] == params[0] && params[..1] == [params[0]];
      }
    }
  }

  // ---- Streams on which the two agree -----------------------------------

  // No escape begins inside; only a string terminator's may stand there.
  predicate Plain(t: string) {
    forall i | 0 < i < |t| && t[i] == ESC :: i + 1 < |t| && t[i + 1] == '\\'
  }

  // As much can be said of a sequence that is not finished.
  predicate PlainSoFar(t: string) {
    forall i | 0 < i < |t| - 1 && t[i] == ESC :: t[i + 1] == '\\'
  }

  // The alternate screen is only switched by the two plain spellings, and no sequence
  // begins inside another.
  predicate Tidy(data: string)
    decreases |data|
  {
    data == "" ||
    match M.SequenceEnd(data)
    case None => PlainSoFar(data)
    case Some(end) =>
      && Plain(data[..end])
      && (Touches(data[..end]) ==> data[..end] == P.Enter() || data[..end] == P.Leave())
      && Tidy(data[end..])
  }

  predicate IsSwitch(pattern: string) {
    pattern == P.Enter() || pattern == P.Leave()
  }

  lemma SwitchFacts(pattern: string)
    requires IsSwitch(pattern)
    ensures |pattern| == 8 && pattern[0] == ESC && pattern[1] == '[' && (pattern[7] == 'h' || pattern[7] == 'l')
    ensures forall i | 2 <= i < 7 :: pattern[i] != ESC && !M.IsFinal(pattern[i])
  {
  }

  // A stream that starts with a switch starts with that control sequence.
  lemma SwitchEnds(data: string, pattern: string)
    requires IsSwitch(pattern) && P.At(data, pattern, 0)
    ensures data != "" && M.SequenceEnd(data) == Some(8) && data[..8] == pattern
  {
    SwitchFacts(pattern);
    forall i | 0 <= i < 8 ensures data[i] == pattern[i] {
      assert data[0..8][i] == pattern[i];
    }
    M.FinalIndexAt(data, 2, 7);
  }

  lemma NoSwitchInside(data: string, end: nat, pattern: string, j: nat)
    requires IsSwitch(pattern) && 0 < j < end <= |data|
    requires Plain(data[..end]) || (end == |data| && PlainSoFar(data))
    ensures !P.At(data, pattern, j)
  {
    SwitchFacts(pattern);
    assert data[..end][j] == data[j];
    if j + 8 <= |data| {
      assert data[j] == ESC ==> data[j + 1] == '\\';
      assert data[j..j + 8][0] == data[j] && data[j..j + 8][1] == data[j + 1];
    }
  }

  lemma ScreenUpTo(alternate: bool, data: string, end: nat, pattern: string)
    requires pattern == (if alternate then P.Leave() else P.Enter())
    requires end <= |data| && forall j: nat | j < end :: !P.At(data, pattern, j)
    ensures P.Screen(alternate, data) == P.Screen(alternate, data[end..])
  {
    if alternate { P.AlternateUpTo(data, end); } else { P.PrimaryUpTo(data, end); }
  }

  lemma TouchingSwitch(pattern: string)
    requires IsSwitch(pattern)
    ensures Touches(pattern) && (pattern[|pattern| - 1] == 'h' <==> pattern == P.Enter())
  {
    SwitchFacts(pattern);
    var params := pattern[3..7];
    assert params == "1049";
    ParamIsMode();
    assert M.IndexByte("1049", ';') == 4 by { NoSemicolon("1049"); }
    assert M.Split(params, ';') == ["1049"];
    assert Atoi(["1049"][0]) == Some(M.ALTERNATE_SCREEN);
  }

  lemma NoSemicolon(s: string)
    requires forall i | 0 <= i < |s| :: s[i] != ';'
    ensures M.IndexByte(s, ';') == |s|
  {
  }

  lemma ParamIsMode()
    ensures Atoi("1049") == Some(M.ALTERNATE_SCREEN)
  {
    assert Itoa(1) == "1";
    assert Itoa(10) == "10";
    assert Itoa(104) == "104";
    assert Itoa(1049) == "1049";
    AtoiItoa(1049);
  }

  // The flag of the observer after a stream is the screen the stream's filter is on.
  lemma {:induction false} FlagsAgree(m: M.Modes, data: string)
    requires Tidy(data)
    ensures M.Scan(m, data).modes.alternateScreen == P.Screen(m.alternateScreen, data)
    decreases |data|
  {
    hide Touches, P.Screen, P.Enter, P.Leave, M.Effect;
    P.NothingPrimary();
    if data != "" {
      match M.SequenceEnd(data)
      case None =>
        UnfinishedSwitchesNothing(data, m.alternateScreen);
        assert data[|data|..] == "";
      case Some(end) =>
        EffectOnScreen(m, data, end);
        SequenceOnScreen(data, end, m.alternateScreen);
        FlagsAgree(M.Effect(m, data), data[end..]);
    }
  }

  lemma UnfinishedSwitchesNothing(data: string, alternate: bool)
    requires data != "" && M.SequenceEnd(data).None? && PlainSoFar(data)
    ensures P.Screen(alternate, data) == P.Screen(alternate, data[|data|..])
  {
    var pattern := if alternate then P.Leave() else P.Enter();
    forall j: nat | j < |data| ensures !P.At(data, pattern, j) {
      if j == 0 {
        if P.At(data, pattern, 0) { SwitchEnds(data, pattern); }
      } else {
        NoSwitchInside(data, |data|, pattern, j);
      }
    }
    ScreenUpTo(alternate, data, |data|, pattern);
  }

  lemma SequenceOnScreen(data: string, end: nat, alternate: bool)
    requires data != "" && M.SequenceEnd(data) == Some(end) && Plain(data[..end])
    requires Touches(data[..end]) ==> IsSwitch(data[..end])
    ensures var t := data[..end];
            P.Screen(alternate, data) == P.Screen(if Touches(t) then t[|t| - 1] == 'h' else alternate, data[end..])
  {
    var t := data[..end];
    var pattern := if alternate then P.Leave() else P.Enter();
    hide P.Screen, Plain, M.SequenceEnd;
    if P.At(data, pattern, 0) {
      SwitchEnds(data, pattern);
      TouchingSwitch(pattern);
      if alternate { P.LeaveAtStart(data); } else { P.EnterAtStart(data); }
    } else {
      forall j: nat | j < end ensures !P.At(data, pattern, j) {
        if j > 0 { NoSwitchInside(data, end, pattern, j); }
      }
      ScreenUpTo(alternate, data, end, pattern);
      if Touches(t) {
        TouchingSwitch(t);
        assert data[0..end] == t;
        assert t != pattern;
      }
    }
  }

  // ---- Taking over ------------------------------------------------------

  // A part of a switch is not a finished sequence.
  lemma PartIsUnfinished(pattern: string, k: nat)
    requires IsSwitch(pattern) && 0 < k < 8
    ensures pattern[..k] != "" && M.SequenceEnd(pattern[..k]).None?
  {
    SwitchFacts(pattern);
    var t := pattern[..k];
    if k > 1 {
      assert forall i | 2 <= i < k :: t[i] == pattern[i] && !M.IsFinal(t[i]);
    }
  }

  // Between sequences, a tidy stream does not end with the start of a switch.
  lemma {:induction false} NothingBegun(m: M.Modes, data: string, pattern: string, k: nat)
    requires Tidy(data) && M.Scan(m, data).unfinished == "" && IsSwitch(pattern) && 0 < k < 8
    ensures !P.EndsInPrefix(data, pattern, k)
    decreases |data|
  {
    hide Touches, P.Enter, P.Leave, M.Effect;
    if data != "" && k <= |data| && M.SequenceEnd(data).Some? {
      var end := M.SequenceEnd(data).value;
      var rest := data[end..];
      NothingBegun(M.Effect(m, data), rest, pattern, k);
      if k <= |rest| {
        assert data[|data| - k..] == rest[|rest| - k..];
      } else {
        EndsInSequence(data, end, pattern, k);
      }
    }
  }

  lemma EndsInSequence(data: string, end: nat, pattern: string, k: nat)
    requires data != "" && M.SequenceEnd(data) == Some(end) && Plain(data[..end])
    requires IsSwitch(pattern) && 0 < k < 8 && |data| - end < k <= |data|
    ensures !P.EndsInPrefix(data, pattern, k)
  {
    SwitchFacts(pattern);
    PartIsUnfinished(pattern, k);
    var j := |data| - k;
    if j == 0 {
      assert data[0..] == data;
    } else {
      assert data[..end][j] == data[j] == data[j..][0];
      assert pattern[..k][0] == ESC;
      if j + 1 < |data| {
        assert data[j..][1] == data[j + 1];
        assert k > 1 && pattern[..k][1] == '[';
      }
    }
  }

  lemma {:induction false} PendingIsLast(alternate: bool, data: string)
    ensures var pending := P.Run(alternate, data).pending;
            |pending| <= |data| && data[|data| - |pending|..] == pending
    decreases |data|
  {
    hide P.Find, P.Enter, P.Leave, P.Run;
    if alternate {
      var i := P.Find(data, P.Leave());
      if i == |data| {
        P.RunIgnored(data);
      } else {
        P.RunLeft(data);
        PendingIsLast(false, data[i + |P.Leave()|..]);
      }
    } else {
      var i := P.Find(data, P.Enter());
      if i == |data| {
        P.RunStayed(data);
      } else {
        P.RunEntered(data);
        PendingIsLast(true, data[i + |P.Enter()|..]);
      }
    }
  }

  lemma NothingDropped(m: M.Modes, data: string)
    requires Tidy(data) && M.Scan(m, data).unfinished == ""
    ensures var r := P.Run(false, data);
            P.IsCarryOver(r.alternate, r.pending) && P.Droppable(r.alternate, r.pending)
  {
    var r := P.Run(false, data);
    P.RunIsFilter(false, data);
    PendingIsLast(false, data);
    hide P.Run, Tidy, M.Scan, P.Enter, P.Leave;
    if r.alternate {
      var k := P.Held(r.pending, P.Leave(), 7);
      if k > 0 {
        assert r.pending[|r.pending| - k..] == data[|data| - k..];
        NothingBegun(m, data, P.Leave(), k);
      }
    } else if r.pending != "" {
      NothingBegun(m, data, P.Enter(), |r.pending|);
    }
  }

  // A replacement daemon that takes over between sequences filters whatever comes next
  // as the old one would have, for every tidy stream in any reads, although it has
  // neither the mirror's flag nor its carry-over.
  lemma TakeoverIsHarmless(chunks: seq<string>)
    requires Tidy(Concat(chunks)) && M.Scan(M.Fresh, Concat(chunks)).unfinished == ""
    ensures var before := P.RunAll(P.Mirrored("", false, ""), chunks);
            var resumed := M.Scan(M.Fresh, Concat(chunks)).modes.alternateScreen;
            && resumed == before.alternate
            && forall b :: P.SameOutcome(P.Run(before.alternate, before.pending + b), P.Run(resumed, b))
  {
    var data := Concat(chunks);
    P.MirrorRefinesFilter(chunks);
    NothingDropped(M.Fresh, data);
    hide P.Run, Tidy, M.Scan;
    FlagsAgree(M.Fresh, data);
    var r := P.Run(false, data);
    P.DropIsHarmlessExactly(r.alternate, r.pending, r.alternate);
  }

  // A switch together with another mode is one to the observer and none to the mirror:
  // the replacement would drop everything that follows.
  const COMBINED: string := [ESC] + "[?25;1049h"

  lemma CombinedSwitchDisagrees()
    ensures M.Scan(M.Fresh, COMBINED).unfinished == "" && M.Scan(M.Fresh, COMBINED).modes.alternateScreen
    ensures P.Run(false, COMBINED) == P.Mirrored(COMBINED, false, "")
    ensures !forall b :: P.SameOutcome(P.Run(false, "" + b), P.Run(true, b))
  {
    CombinedSwitches();
    CombinedStays();
    hide *;
    NothingIsHeld();
    P.DropIsHarmlessExactly(false, "", true);
  }

  lemma NothingIsHeld()
    ensures P.IsCarryOver(false, "")
  {
  }

  lemma CombinedSwitches()
    ensures M.Scan(M.Fresh, COMBINED).unfinished == "" && M.Scan(M.Fresh, COMBINED).modes.alternateScreen
  {
    var params := "?25;1049";
    assert M.CSI(params, 'h') + "" == COMBINED;
    assert M.NoFinal(params) && M.IsFinal('h');
    assert M.HasPrefix(params, "?") && params[1..] == "25;1049";
    hide *;
    M.ScanFinishedCSI(M.Fresh, params, 'h', "");
    CSIOnScreen(M.Fresh, params, 'h');
    CombinedNames();
    ScanNothing(M.ObserveCSI(M.Fresh, params, 'h'));
  }

  lemma ScanNothing(m: M.Modes)
    ensures M.Scan(m, "") == M.Scanned(m, "")
  {
  }

  lemma CombinedNames()
    ensures Names(M.Split("25;1049", ';'))
  {
    assert M.IndexByte("25;1049", ';') == 2;
    NoSemicolon("1049");
    var s := "25;1049";
    assert s[..2] == "25" && s[3..] == "1049";
    assert M.Split("1049", ';') == ["1049"];
    var parts := M.Split(s, ';');
    assert parts == ["25", "1049"];
    ParamIsMode();
    assert Atoi(parts[1]) == Some(M.ALTERNATE_SCREEN);
  }

  lemma CombinedStays()
    ensures P.Run(false, COMBINED) == P.Mirrored(COMBINED, false, "")
  {
    var s := COMBINED;
    forall i: nat | i < |s| ensures !P.At(s, P.Enter(), i) {
      if i + 8 <= |s| { assert s[i..i + 8][0] == s[i] && s[i..i + 8][3] == s[i + 3]; }
    }
    P.FindIs(s, P.Enter(), |s|);
    forall k | 0 < k < 8 ensures !P.EndsInPrefix(s, P.Enter(), k) {
      assert s[|s| - k..][k - 1] == 'h' && P.Enter()[..k][k - 1] == P.Enter()[k - 1] != 'h';
    }
    assert P.HeldEnter(s) == 0;
    P.RunStayed(s);
    assert s[..|s|] == s;
  }
}
