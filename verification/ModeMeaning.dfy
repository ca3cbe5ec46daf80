// What the mode observer makes of each control sequence (daemon/modes.go, observeCSI,
// observeKittyKeyboard, observeOSC and the escapes), said of the streams it observes.
module ModeMeaning {
  import opened Text
  import opened ModeState
  import opened ModePrefix

  // ---- Kitty keyboard flags ----------------------------------------------

  // The flags in force so far and not popped, oldest first.
  function History(m: Modes): seq<string> {
    m.kittyStack + [m.kittyFlags]
  }

  function WithHistory(m: Modes, history: seq<string>): Modes
    requires history != []
  {
    m.(kittyStack := history[..|history| - 1], kittyFlags := history[|history| - 1])
  }

  function Push(flags: string): string {
    CSI(">" + flags, 'u')
  }

  function Pop(number: string): string {
    CSI("<" + number, 'u')
  }

  function Pushes(flags: seq<string>): string {
    if flags == [] then "" else Pushes(flags[..|flags| - 1]) + Push(flags[|flags| - 1])
  }

  ghost predicate Writable(flags: seq<string>) {
    forall i | 0 <= i < |flags| :: NoFinal(flags[i])
  }

  lemma NoFinalAfter(c: char, s: string)
    requires NoFinal(s) && !IsFinal(c)
    ensures NoFinal([c] + s) && ([c] + s)[1..] == s
  {
  }

  lemma ScanPush(m: Modes, flags: string)
    requires NoFinal(flags)
    ensures Scan(m, Push(flags)) == Scanned(WithHistory(m, History(m) + [flags]), "")
  {
    NoFinalAfter('>', flags);
    ScanCSI(m, ">" + flags, 'u');
    assert (History(m) + [flags])[..|History(m)|] == History(m);
  }

  lemma PushedLater(m: Modes, history: seq<string>, flags: string)
    requires history != []
    ensures var before := WithHistory(m, history);
            History(before) == history && WithHistory(before, history + [flags]) == WithHistory(m, history + [flags])
  {
  }

  lemma {:induction false} ScanPushes(m: Modes, flags: seq<string>)
    requires Writable(flags)
    ensures Scan(m, Pushes(flags)) == Scanned(WithHistory(m, History(m) + flags), "")
  {
    if flags == [] {
      assert History(m) + flags == History(m);
    } else {
      var n := |flags| - 1;
      var h := History(m) + flags[..n];
      assert NoFinal(flags[n]) && Writable(flags[..n]);
      ScanPushes(m, flags[..n]);
      PushedLater(m, h, flags[n]);
      ScanPush(WithHistory(m, h), flags[n]);
      assert h + [flags[n]] == History(m) + flags;
      hide Scan, WithHistory, History, Push, NoFinal;
      Sequenced(m, Pushes(flags[..n]), WithHistory(m, h), Push(flags[n]), WithHistory(m, History(m) + flags));
    }
  }

  // What is left of the history by a pop; the oldest flags are never popped.
  function Left(history: seq<string>, count: nat): (r: seq<string>)
    requires history != []
    ensures r != []
  {
    if count < |history| then history[..|history| - count] else history[..1]
  }

  lemma SameHistory(m: Modes)
    ensures WithHistory(m, History(m)) == m
  {
    assert History(m)[..|History(m)| - 1] == m.kittyStack;
  }

  lemma OnePop(m: Modes)
    requires m.kittyStack != []
    ensures var top := |m.kittyStack| - 1; var popped := m.(kittyFlags := m.kittyStack[top], kittyStack := m.kittyStack[..top]);
            History(popped) == m.kittyStack == History(m)[..|History(m)| - 1]
  {
  }

  lemma PopMore(history: seq<string>, count: nat)
    requires |history| > 1
    ensures Left(history, count + 1) == if count == 0 then history[..|history| - 1] else Left(history[..|history| - 1], count)
  {
  }

  lemma {:induction false} PopKittyIs(m: Modes, count: nat)
    ensures PopKitty(m, count) == WithHistory(m, if count == 0 then History(m) else Left(History(m), count))
    decreases |m.kittyStack|
  {
    SameHistory(m);
    if count > 0 && m.kittyStack != [] {
      var top := |m.kittyStack| - 1;
      var popped := m.(kittyFlags := m.kittyStack[top], kittyStack := m.kittyStack[..top]);
      OnePop(m);
      PopMore(History(m), count - 1);
      hide History, Left;
      PopKittyIs(popped, count - 1);
    } else if count > 0 {
      assert History(m)[..1] == History(m);
    }
  }

  // What the number of a pop asks for: one, unless it spells a number above one.
  ghost predicate Asks(number: string, count: nat) {
    match Atoi(number)
    case Some(k) => if k >= 1 then count == k else count == 1
    case None => count == 1
  }

  lemma ScanPop(m: Modes, number: string, count: nat)
    requires NoFinal(number) && Asks(number, count)
    ensures Scan(m, Pop(number)) == Scanned(WithHistory(m, Left(History(m), count)), "")
  {
    hide Atoi;
    NoFinalAfter('<', number);
    ScanCSI(m, "<" + number, 'u');
    assert TrimPrefix("<" + number, "<") == number;
    PopKittyIs(m, count);
  }

  lemma ScanPushesPop(m: Modes, flags: seq<string>, number: string, count: nat)
    requires Writable(flags) && NoFinal(number) && Asks(number, count)
    ensures Scan(m, Pushes(flags) + Pop(number)) == Scanned(WithHistory(m, Left(History(m) + flags, count)), "")
  {
    var h := History(m) + flags;
    var pushed := WithHistory(m, h);
    assert History(pushed) == h;
    hide Scan, Asks, NoFinal, Pushes, Pop, Writable;
    ScanPushes(m, flags);
    ScanPop(pushed, number, count);
    Sequenced(m, Pushes(flags), pushed, Pop(number), WithHistory(m, Left(h, count)));
  }

  lemma HistoryOf(m: Modes, history: seq<string>)
    requires history != []
    ensures var r := WithHistory(m, history);
            r.kittyStack + [r.kittyFlags] == history && r == m.(kittyStack := r.kittyStack, kittyFlags := r.kittyFlags)
  {
  }

  // Popping k after n pushes of any flags leaves what the first n - k of them left, and
  // goes on into the older stack when k is more than n: then it is popping k - n without
  // them. In terms of the flags in force: the last k of them go, but never the oldest.
  lemma PopsUndoPushes(m: Modes, flags: seq<string>, number: string, count: nat, less: string)
    requires Writable(flags) && NoFinal(number) && Asks(number, count) && NoFinal(less)
    ensures count <= |flags| ==>
              Scan(m, Pushes(flags) + Pop(number)) == Scan(m, Pushes(flags[..|flags| - count]))
    ensures count > |flags| && Asks(less, count - |flags|) ==>
              Scan(m, Pushes(flags) + Pop(number)) == Scan(m, Pop(less))
    ensures var h := m.kittyStack + [m.kittyFlags] + flags; var r := Scan(m, Pushes(flags) + Pop(number));
            && r.unfinished == "" && r.modes == m.(kittyStack := r.modes.kittyStack, kittyFlags := r.modes.kittyFlags)
            && r.modes.kittyStack + [r.modes.kittyFlags] == if count < |h| then h[..|h| - count] else h[..1]
  {
    hide Scan, Asks, NoFinal, Pushes, Pop, WithHistory;
    ScanPushesPop(m, flags, number, count);
    HistoryOf(m, Left(History(m) + flags, count));
    if count <= |flags| {
      assert Writable(flags[..|flags| - count]);
      ScanPushes(m, flags[..|flags| - count]);
      assert Left(History(m) + flags, count) == History(m) + flags[..|flags| - count];
    } else if Asks(less, count - |flags|) {
      ScanPop(m, less, count - |flags|);
      assert Left(History(m) + flags, count) == Left(History(m), count - |flags|);
    }
  }

  // A number as it is written asks for itself; nothing, a number below one and what is no
  // number ask for one. So a push and a pop without a number cancel out.
  lemma PopUndoesPush(m: Modes, flags: string, k: nat)
    requires NoFinal(flags) && 1 <= k <= MAX_INT64
    ensures Asks(Itoa(k), k) && Asks("", 1) && Asks("0", 1) && Asks("-3", 1) && Asks("x", 1)
    ensures Scan(m, Push(flags) + Pop("")) == Scanned(m, "")
  {
    AtoiItoa(k);
    assert "-3"[1..] == "3";
    assert Pushes([flags]) == "" + Push(flags) == Push(flags) by { assert [flags][..0] == []; }
    assert Pushes([]) == "";
    PopsUndoPushes(m, [flags], "", 1, "");
    assert [flags][..0] == [];
  }

  // Setting replaces the flags in force and touches no older ones.
  lemma SetReplacesFlags(m: Modes, flags: string)
    requires NoFinal(flags)
    ensures Scan(m, CSI("=" + flags, 'u')) == Scanned(m.(kittyFlags := flags), "")
  {
    NoFinalAfter('=', flags);
    ScanCSI(m, "=" + flags, 'u');
  }

  // ---- Modes, in lists ---------------------------------------------------

  // Parameters as they are written, with semicolons between them.
  function Join(parts: seq<string>): string
    requires parts != []
  {
    if |parts| == 1 then parts[0] else parts[0] + ";" + Join(parts[1..])
  }

  ghost predicate Parameters(parts: seq<string>) {
    parts != [] && forall i | 0 <= i < |parts| :: NoFinal(parts[i]) && ';' !in parts[i]
  }

  lemma {:induction false} SplitJoin(parts: seq<string>)
    requires Parameters(parts)
    ensures Split(Join(parts), ';') == parts && NoFinal(Join(parts))
    decreases |parts|
  {
    hide Split, NoFinal;
    assert NoFinal(parts[0]) && ';' !in parts[0];
    if |parts| == 1 {
      NoSeparator(parts[0], ';');
    } else {
      var rest := parts[1..];
      assert Parameters(rest) by { forall i | 0 <= i < |rest| ensures NoFinal(rest[i]) && ';' !in rest[i] { assert rest[i] == parts[i + 1]; } }
      SplitJoin(rest);
      SplitAfter(parts[0], Join(rest));
    }
  }

  lemma SplitAfter(first: string, rest: string)
    requires ';' !in first && NoFinal(first) && NoFinal(rest)
    ensures Split(first + ";" + rest, ';') == [first] + Split(rest, ';') && NoFinal(first + ";" + rest)
  {
    var joined := first + ";" + rest;
    FirstSeparator(first, rest);
    assert joined[..|first|] == first && joined[|first| + 1..] == rest;
  }

  lemma {:induction false} FirstSeparator(first: string, rest: string)
    requires ';' !in first
    ensures IndexByte(first + ";" + rest, ';') == |first|
  {
    if first == "" {
      assert first + ";" + rest == ";" + rest;
    } else {
      assert (first + ";" + rest)[1..] == first[1..] + ";" + rest;
      FirstSeparator(first[1..], rest);
    }
  }

  ghost predicate IsNamed(parts: seq<string>, mode: int) {
    exists i :: 0 <= i < |parts| && Atoi(parts[i]) == Some(mode)
  }

  lemma {:induction false} SetPrivatesIs(m: Modes, parts: seq<string>, enabled: bool, mode: int)
    ensures var r := SetPrivates(m, parts, enabled);
            && (mode in r.privateModes <==> mode in m.privateModes || IsNamed(parts, mode))
            && (mode in r.privateModes ==> r.privateModes[mode] == if IsNamed(parts, mode) then enabled else m.privateModes[mode])
            && r.alternateScreen == (if IsNamed(parts, 1049) then enabled else m.alternateScreen)
            && r.bracketedPaste == (if IsNamed(parts, 2004) then enabled else m.bracketedPaste)
  {
    hide Atoi;
    if parts != [] {
      var n := |parts| - 1;
      SetPrivatesIs(m, parts[..n], enabled, mode);
      NamedLast(parts, mode);
      NamedLast(parts, 1049);
      NamedLast(parts, 2004);
      hide IsNamed;
    }
  }

  lemma NamedLast(parts: seq<string>, mode: int)
    requires parts != []
    ensures IsNamed(parts, mode) <==> IsNamed(parts[..|parts| - 1], mode) || Atoi(parts[|parts| - 1]) == Some(mode)
  {
    hide Atoi;
    var before := parts[..|parts| - 1];
    if i :| 0 <= i < |before| && Atoi(before[i]) == Some(mode) { assert parts[i] == before[i]; }
    if i :| 0 <= i < |parts| && Atoi(parts[i]) == Some(mode) && i < |before| { assert parts[i] == before[i]; }
  }

  // A list of private modes switches each mode a parameter names, the alternate screen and
  // bracketed paste with them, and nothing else; a parameter that is no number is skipped.
  lemma PrivateModesExactly(m: Modes, parts: seq<string>, enabled: bool, mode: int)
    requires Parameters(parts)
    ensures var r := Scan(m, CSI("?" + Join(parts), if enabled then 'h' else 'l'));
            && r.unfinished == ""
            && (mode in r.modes.privateModes <==> mode in m.privateModes || IsNamed(parts, mode))
            && (mode in r.modes.privateModes ==>
                  r.modes.privateModes[mode] == if IsNamed(parts, mode) then enabled else m.privateModes[mode])
            && r.modes == m.(privateModes := r.modes.privateModes,
                             alternateScreen := if IsNamed(parts, 1049) then enabled else m.alternateScreen,
                             bracketedPaste := if IsNamed(parts, 2004) then enabled else m.bracketedPaste)
  {
    hide Split, Join, SetPrivates, IsNamed, Parameters;
    SplitJoin(parts);
    NoFinalAfter('?', Join(parts));
    ScanCSI(m, "?" + Join(parts), if enabled then 'h' else 'l');
    SetPrivatesIs(m, parts, enabled, mode);
    SetPrivatesKeeps(m, parts, enabled);
  }

  // Of the other modes only insertion is kept: a list that is not private switches it
  // exactly when one of its parameters is 4.
  lemma InsertModeExactly(m: Modes, parts: seq<string>, enabled: bool)
    requires Parameters(parts) && !HasPrefix(Join(parts), "?")
    ensures Scan(m, CSI(Join(parts), if enabled then 'h' else 'l'))
            == Scanned(m.(insertMode := if "4" in parts then enabled else m.insertMode), "")
  {
    hide Split, Join, Parameters;
    SplitJoin(parts);
    ScanCSI(m, Join(parts), if enabled then 'h' else 'l');
  }

  // ---- Titles, regions, shapes and escapes -------------------------------

  // An operating system command, ended by BEL or by ESC and a backslash.
  function OSC(payload: string, bell: bool): string {
    [ESC, ']'] + payload + if bell then [BEL] else [ESC, '\\']
  }

  lemma ScanWholeOSC(m: Modes, payload: string, bell: bool)
    requires NoTerminator(payload) && (payload != "" && !bell ==> payload[|payload| - 1] != ESC)
    ensures Scan(m, OSC(payload, bell)) == Scanned(ObserveOSC(m, payload), "")
  {
    var data := OSC(payload, bell);
    var e := |payload| + 2;
    forall i | 2 <= i < e ensures !TerminatesAt(data, i) {
      assert !TerminatesAt(payload, i - 2);
      assert data[i] == payload[i - 2] && (i + 1 < e ==> data[i + 1] == payload[i - 1]);
    }
    OscEndIs(data, 2, e);
    assert data[2..e] == payload;
    assert data[if bell then e + 1 else e + 2..] == "";
    hide ObserveOSC;
  }

  // A command sets the title exactly when its number is 0 or 2, to all that follows the
  // first semicolon, and does nothing else.
  lemma TitleExactly(m: Modes, code: string, text: string, bell: bool)
    requires ';' !in code && NoTerminator(code + ";" + text)
    requires !bell ==> text == "" || text[|text| - 1] != ESC
    ensures Scan(m, OSC(code + ";" + text, bell)) == Scanned(if code == "0" || code == "2" then m.(title := text) else m, "")
    ensures NoTerminator(code) && (code != "" && !bell ==> code[|code| - 1] != ESC) ==> Scan(m, OSC(code, bell)) == Scanned(m, "")
  {
    var payload := code + ";" + text;
    FirstSeparator(code, text);
    assert payload[..|code|] == code && payload[|code| + 1..] == text;
    hide Scan;
    ScanWholeOSC(m, payload, bell);
    if NoTerminator(code) && (code != "" && !bell ==> code[|code| - 1] != ESC) {
      assert IndexByte(code, ';') == |code|;
      ScanWholeOSC(m, code, bell);
    }
  }

  // The scrolling region and the cursor's shape are kept as written; a private sequence
  // of the first and one of the second without its space are not theirs.
  lemma RegionAndShapeExactly(m: Modes, params: string)
    requires NoFinal(params)
    ensures Scan(m, CSI(params, 'r')) == Scanned(if HasPrefix(params, "?") then m else m.(scrollRegion := params), "")
    ensures Scan(m, CSI(params + " ", 'q')) == Scanned(m.(cursorShape := params + " "), "")
    ensures params == "" || params[|params| - 1] != ' ' ==> Scan(m, CSI(params, 'q')) == Scanned(m, "")
  {
    ScanCSI(m, params, 'r');
    assert NoFinal(params + " ");
    ScanCSI(m, params + " ", 'q');
    ScanCSI(m, params, 'q');
  }

  // Four escapes are kept, two for the keypad and two for the saved cursor; every other
  // control sequence, escape and plain character leaves the modes alone.
  lemma OthersAreIgnored(m: Modes, params: string, final: char, c: char)
    requires NoFinal(params)
    ensures Scan(m, [ESC, '=']) == Scanned(m.(keypadApp := true), "")
    ensures Scan(m, [ESC, '>']) == Scanned(m.(keypadApp := false), "")
    ensures Scan(m, [ESC, '7']) == Scanned(m.(savedCursor := true), "")
    ensures Scan(m, [ESC, 'c']) == Scanned(m.(savedCursor := false), "")
    ensures c !in {'[', ']', '=', '>', '7', 'c'} ==> Scan(m, [ESC, c]) == Scanned(m, "")
    ensures c != ESC ==> Scan(m, [c]) == Scanned(m, "")
    ensures IsFinal(final) && final !in {'u', 'r', 'q', 'h', 'l'} ==> Scan(m, CSI(params, final)) == Scanned(m, "")
    ensures params == "" || params[0] !in {'<', '=', '>'} ==> Scan(m, CSI(params, 'u')) == Scanned(m, "")
  {
    hide Scan, PopKitty, PopCount, SetPrivates, Split, HasPrefix, TrimPrefix;
    ScanEscape(m, '=');
    ScanEscape(m, '>');
    ScanEscape(m, '7');
    ScanEscape(m, 'c');
    if c !in {'[', ']', '=', '>', '7', 'c'} { ScanEscape(m, c); }
    if c != ESC { ScanPlain(m, c); }
    if IsFinal(final) { ScanCSI(m, params, final); }
    ScanCSI(m, params, 'u');
  }

  lemma ScanPlain(m: Modes, c: char)
    requires c != ESC
    ensures Scan(m, [c]) == Scanned(m, "")
  {
    assert [c][1..] == "";
  }

  lemma ScanEscape(m: Modes, c: char)
    requires c != '[' && c != ']'
    ensures Scan(m, [ESC, c]) == Scanned(ObserveEscape(m, c), "")
  {
    assert [ESC, c][2..] == "";
  }
}
