// The attach-time mode observer (daemon/modes.go). Raw PTY output is scanned for
// the terminal modes a screen dump omits; an unfinished control sequence is carried
// over to the next read. `Scan` is the observer on a whole stream; the class is the
// observer as it runs, read by read, over a carry-over buffer bounded to 16 KiB.
module ModeState {
  import opened Text

  const ESC: char := '\U{1b}'
  const BEL: char := '\U{07}'
  const MAX_PENDING_BYTES: nat := 16384
  const ALTERNATE_SCREEN: int := 1049
  const BRACKETED_PASTE: int := 2004

  datatype Modes = Modes(
    alternateScreen: bool,
    bracketedPaste: bool,
    privateModes: map<int, bool>,
    insertMode: bool,
    scrollRegion: string,
    cursorShape: string,
    keypadApp: bool,
    title: string,
    kittyFlags: string,
    kittyStack: seq<string>,
    savedCursor: bool
  )

  const Fresh: Modes := Modes(false, false, map[], false, "", "", false, "", "", [], false)

  // ---- Control sequences -------------------------------------------------

  // The bytes that end a control sequence (section 5.4 of ECMA-48).
  predicate IsFinal(c: char) {
    0x40 <= c as int <= 0x7e
  }

  predicate NoFinal(s: string) {
    forall i | 0 <= i < |s| :: !IsFinal(s[i])
  }

  // Index of the first final byte at or after `from`, or the length if there is none.
  function FinalIndex(data: string, from: nat): (r: nat)
    requires from <= |data|
    ensures from <= r <= |data|
    ensures NoFinal(data[from..r])
    ensures r < |data| ==> IsFinal(data[r])
    decreases |data| - from
  {
    if from == |data| || IsFinal(data[from]) then from
    else
      var r := FinalIndex(data, from + 1);
      assert data[from..r] == [data[from]] + data[from + 1..r];
      r
  }

  // An operating system command ends at BEL or at ESC followed by a backslash.
  predicate TerminatesAt(data: string, i: nat)
    requires i < |data|
  {
    data[i] == BEL || (data[i] == ESC && i + 1 < |data| && data[i + 1] == '\\')
  }

  function OscEnd(data: string, from: nat): (r: nat)
    requires from <= |data|
    ensures from <= r <= |data|
    ensures forall i | from <= i < r :: !TerminatesAt(data, i)
    ensures r < |data| ==> TerminatesAt(data, r)
    decreases |data| - from
  {
    if from == |data| || TerminatesAt(data, from) then from else OscEnd(data, from + 1)
  }

  function HasPrefix(s: string, p: string): bool {
    |s| >= |p| && s[..|p|] == p
  }

  function TrimPrefix(s: string, p: string): string {
    if HasPrefix(s, p) then s[|p|..] else s
  }

  function IndexByte(s: string, c: char): (r: nat)
    ensures r <= |s|
    ensures forall i | 0 <= i < r :: s[i] != c
    ensures r < |s| ==> s[r] == c
  {
    if s == "" || s[0] == c then 0 else 1 + IndexByte(s[1..], c)
  }

  function Split(s: string, c: char): (parts: seq<string>)
    ensures |parts| >= 1
  {
    var i := IndexByte(s, c);
    if i == |s| then [s] else [s[..i]] + Split(s[i + 1..], c)
  }

  // ---- Effect of one complete sequence ----------------------------------

  function SetPrivate(m: Modes, mode: int, enabled: bool): Modes {
    m.(privateModes := m.privateModes[mode := enabled],
       alternateScreen := if mode == ALTERNATE_SCREEN then enabled else m.alternateScreen,
       bracketedPaste := if mode == BRACKETED_PASTE then enabled else m.bracketedPaste)
  }

  function SetPrivates(m: Modes, parameters: seq<string>, enabled: bool): Modes {
    if parameters == [] then m
    else
      var rest := SetPrivates(m, parameters[..|parameters| - 1], enabled);
      match Atoi(parameters[|parameters| - 1])
      case Some(mode) => SetPrivate(rest, mode, enabled)
      case None => rest
  }

  function PopCount(params: string): int {
    match Atoi(TrimPrefix(params, "<"))
    case Some(count) => if count < 1 then 1 else count
    case None => 1
  }

  function PopKitty(m: Modes, count: int): Modes
    decreases |m.kittyStack|
  {
    if count <= 0 || m.kittyStack == [] then m
    else
      var top := |m.kittyStack| - 1;
      PopKitty(m.(kittyFlags := m.kittyStack[top], kittyStack := m.kittyStack[..top]), count - 1)
  }

  function ObserveKitty(m: Modes, params: string): Modes {
    if params == "" then m
    else if params[0] == '>' then
      m.(kittyStack := m.kittyStack + [m.kittyFlags], kittyFlags := params[1..])
    else if params[0] == '=' then m.(kittyFlags := params[1..])
    else if params[0] == '<' then PopKitty(m, PopCount(params))
    else m
  }

  function ObserveCSI(m: Modes, params: string, final: char): Modes {
    if final == 'u' then ObserveKitty(m, params)
    else if final == 'r' && !HasPrefix(params, "?") then m.(scrollRegion := params)
    else if final == 'q' && params != "" && params[|params| - 1] == ' ' then m.(cursorShape := params)
    else if final == 'h' || final == 'l' then ObserveModes(m, params, final == 'h')
    else m
  }

  function ObserveModes(m: Modes, params: string, enabled: bool): Modes {
    if HasPrefix(params, "?") then SetPrivates(m, Split(params[1..], ';'), enabled)
    else if "4" in Split(params, ';') then m.(insertMode := enabled)
    else m
  }

  function ObserveOSC(m: Modes, payload: string): Modes {
    var separator := IndexByte(payload, ';');
    if separator < |payload| && (payload[..separator] == "0" || payload[..separator] == "2")
    then m.(title := payload[separator + 1..])
    else m
  }

  function ObserveEscape(m: Modes, c: char): Modes {
    if c == '=' then m.(keypadApp := true)
    else if c == '>' then m.(keypadApp := false)
    else if c == '7' then m.(savedCursor := true)
    else if c == 'c' then m.(savedCursor := false)
    else m
  }

  // ---- The observer on a whole stream ------------------------------------

  // Where the sequence starting at data[0] ends; None when it is unfinished.
  function SequenceEnd(data: string): (r: Option<nat>)
    requires data != ""
    ensures r.Some? ==> 0 < r.value <= |data|
  {
    if data[0] != ESC then Some(1)
    else if |data| == 1 then None
    else if data[1] == '[' then
      var f := FinalIndex(data, 2);
      if f == |data| then None else Some(f + 1)
    else if data[1] == ']' then
      var e := OscEnd(data, 2);
      if e == |data| then None else Some(if data[e] == BEL then e + 1 else e + 2)
    else Some(2)
  }

  function Effect(m: Modes, data: string): Modes
    requires data != "" && SequenceEnd(data).Some?
  {
    if data[0] != ESC then m
    else if data[1] == '[' then
      var f := FinalIndex(data, 2);
      ObserveCSI(m, data[2..f], data[f])
    else if data[1] == ']' then ObserveOSC(m, data[2..OscEnd(data, 2)])
    else ObserveEscape(m, data[1])
  }

  datatype Scanned = Scanned(modes: Modes, unfinished: string)

  function Scan(m: Modes, data: string): (r: Scanned)
    ensures |r.unfinished| <= |data|
    decreases |data|
  {
    if data == "" then Scanned(m, "")
    else match SequenceEnd(data)
      case None => Scanned(m, data)
      case Some(end) => Scan(Effect(m, data), data[end..])
  }

  lemma FinalIndexAppend(a: string, b: string, from: nat)
    requires from <= |a| && FinalIndex(a, from) < |a|
    ensures FinalIndex(a + b, from) == FinalIndex(a, from)
    decreases |a| - from
  {
  }

  lemma OscEndAppend(a: string, b: string, from: nat)
    requires from <= |a| && OscEnd(a, from) < |a|
    ensures OscEnd(a + b, from) == OscEnd(a, from)
    decreases |a| - from
  {
  }

  // A complete sequence is unaffected by what follows it.
  lemma SequenceAppend(m: Modes, a: string, b: string)
    requires a != "" && SequenceEnd(a).Some?
    ensures SequenceEnd(a + b) == SequenceEnd(a)
    ensures Effect(m, a + b) == Effect(m, a)
  {
    if a[0] == ESC && a[1] == '[' {
      FinalIndexAppend(a, b, 2);
      var f := FinalIndex(a, 2);
      assert (a + b)[2..f] == a[2..f];
    } else if a[0] == ESC && a[1] == ']' {
      OscEndAppend(a, b, 2);
      var e := OscEnd(a, 2);
      assert (a + b)[2..e] == a[2..e];
    }
  }

  // Scanning a then b, with the unfinished tail of a put back in front of b, is
  // scanning the joined stream.
  lemma {:induction false} ScanAppend(m: Modes, a: string, b: string)
    ensures Scan(m, a + b) == Scan(Scan(m, a).modes, Scan(m, a).unfinished + b)
    decreases |a|
  {
    if a == "" {
      assert a + b == b && "" + b == b;
    } else if SequenceEnd(a).Some? {
      SequenceAppend(m, a, b);
      var end := SequenceEnd(a).value;
      assert (a + b)[end..] == a[end..] + b;
      ScanAppend(Effect(m, a), a[end..], b);
    }
  }

  // ---- The observer as it runs ------------------------------------------

  datatype Observed = Observed(modes: Modes, pending: string)

  // The retained carry-over: at most the last 16 KiB of an unfinished sequence.
  function Keep(data: string): (r: string)
    ensures |r| <= MAX_PENDING_BYTES
    ensures |data| <= MAX_PENDING_BYTES ==> r == data
  {
    if |data| > MAX_PENDING_BYTES then data[|data| - MAX_PENDING_BYTES..] else data
  }

  function Observe(o: Observed, data: string): (r: Observed)
    ensures |r.pending| <= MAX_PENDING_BYTES
  {
    var scanned := Scan(o.modes, o.pending + data);
    Observed(scanned.modes, Keep(scanned.unfinished))
  }

  // The length of the sequence left unfinished when `data` has been observed.
  function UnfinishedLength(o: Observed, data: string): nat {
    |Scan(o.modes, o.pending + data).unfinished|
  }

  // Reads may be cut anywhere, as long as the cut does not fall into a sequence
  // that is already longer than the carry-over.
  lemma ChunkIndependence(o: Observed, a: string, b: string)
    requires UnfinishedLength(o, a) <= MAX_PENDING_BYTES
    ensures Observe(Observe(o, a), b) == Observe(o, a + b)
  {
    ScanAppend(o.modes, o.pending + a, b);
    assert o.pending + a + b == o.pending + (a + b);
  }

  function ObserveAll(o: Observed, chunks: seq<string>): (r: Observed)
    decreases chunks
  {
    if chunks == [] then o else ObserveAll(Observe(o, chunks[0]), chunks[1..])
  }

  // What one observation leaves unfinished, rescanned, is still unfinished.
  lemma Rescan(m: Modes, data: string)
    ensures var r := Scan(m, data); Scan(r.modes, r.unfinished) == r
  {
    ScanAppend(m, data, "");
    assert data + "" == data;
    var u := Scan(m, data).unfinished;
    assert u + "" == u;
  }

  // Nothing unfinished is rewritten by observing no bytes.
  predicate Settled(o: Observed) {
    Scan(o.modes, o.pending) == Scanned(o.modes, o.pending)
  }

  // Every carry-over along the way fits.
  predicate AllFit(o: Observed, chunks: seq<string>)
    decreases chunks
  {
    chunks == [] || (UnfinishedLength(o, chunks[0]) <= MAX_PENDING_BYTES
                     && AllFit(Observe(o, chunks[0]), chunks[1..]))
  }

  // The claim for any number of reads.
  lemma {:induction false} AnyChunking(o: Observed, chunks: seq<string>)
    requires Settled(o) && |o.pending| <= MAX_PENDING_BYTES && AllFit(o, chunks)
    ensures ObserveAll(o, chunks) == Observe(o, Concat(chunks))
    ensures Settled(ObserveAll(o, chunks))
    decreases chunks
  {
    if chunks == [] {
      assert o.pending + "" == o.pending;
    } else {
      Rescan(o.modes, o.pending + chunks[0]);
      AnyChunking(Observe(o, chunks[0]), chunks[1..]);
      ChunkIndependence(o, chunks[0], Concat(chunks[1..]));
    }
  }

  // ---- The bound is sharp ----------------------------------------------

  lemma {:induction false} CursorShapeIsShort(m: Modes, data: string)
    ensures var shape := Scan(m, data).modes.cursorShape;
            shape == m.cursorShape || |shape| + 3 <= |data|
    decreases |data|
  {
    if data != "" && SequenceEnd(data).Some? {
      var end := SequenceEnd(data).value;
      EffectOnShape(m, data);
      CursorShapeIsShort(Effect(m, data), data[end..]);
    }
  }

  lemma {:induction false} SetPrivatesKeeps(m: Modes, parameters: seq<string>, enabled: bool)
    ensures var r := SetPrivates(m, parameters, enabled);
            r == m.(privateModes := r.privateModes, alternateScreen := r.alternateScreen,
                    bracketedPaste := r.bracketedPaste)
  {
    if parameters != [] { SetPrivatesKeeps(m, parameters[..|parameters| - 1], enabled); }
  }

  lemma {:induction false} PopKittyKeeps(m: Modes, count: int)
    ensures var r := PopKitty(m, count);
            r == m.(kittyFlags := r.kittyFlags, kittyStack := r.kittyStack)
    decreases |m.kittyStack|
  {
    if count > 0 && m.kittyStack != [] {
      var top := |m.kittyStack| - 1;
      PopKittyKeeps(m.(kittyFlags := m.kittyStack[top], kittyStack := m.kittyStack[..top]), count - 1);
    }
  }

  lemma CSIOnShape(m: Modes, params: string, final: char)
    ensures var shape := ObserveCSI(m, params, final).cursorShape;
            shape == m.cursorShape || shape == params
  {
    hide Split, SetPrivates, PopKitty, PopCount, Atoi;
    if final == 'u' {
      PopKittyKeeps(m, PopCount(params));
    } else if final == 'h' || final == 'l' {
      if HasPrefix(params, "?") { SetPrivatesKeeps(m, Split(params[1..], ';'), final == 'h'); }
    }
  }

  lemma EffectOnShape(m: Modes, data: string)
    requires data != "" && SequenceEnd(data).Some?
    ensures var shape := Effect(m, data).cursorShape;
            shape == m.cursorShape || |shape| + 3 <= SequenceEnd(data).value
  {
    if data[0] == ESC && data[1] == '[' {
      var f := FinalIndex(data, 2);
      CSIOnShape(m, data[2..f], data[f]);
    }
  }

  lemma {:induction false} FinalIndexAt(data: string, from: nat, k: nat)
    requires from <= k < |data| && IsFinal(data[k])
    requires forall i | from <= i < k :: !IsFinal(data[i])
    ensures FinalIndex(data, from) == k
    decreases k - from
  {
    if from < k { FinalIndexAt(data, from + 1, k); }
  }

  function CSI(params: string, final: char): string {
    [ESC, '['] + params + [final]
  }

  lemma ScanFinishedCSI(m: Modes, params: string, final: char, rest: string)
    requires NoFinal(params) && IsFinal(final)
    ensures Scan(m, CSI(params, final) + rest) == Scan(ObserveCSI(m, params, final), rest)
  {
    var data := CSI(params, final) + rest;
    var k := |params| + 2;
    assert forall i | 2 <= i < k :: data[i] == params[i - 2];
    FinalIndexAt(data, 2, k);
    assert data[2..k] == params;
    assert data[k + 1..] == rest;
  }

  // In one read the whole parameter string of a cursor-shape sequence is kept; once
  // it has been cut, only the retained 16 KiB can contribute to the shape.
  lemma CutLosesParameters(m: Modes, params: string, spaces: string)
    requires NoFinal(params) && |params| + 2 > MAX_PENDING_BYTES
    requires spaces == " " || spaces == "  "
    requires m.cursorShape != params + spaces
    ensures Scan(m, CSI(params + spaces, 'q')).modes.cursorShape == params + spaces
    ensures Scan(m, Keep([ESC, '['] + params) + (spaces + "q")).modes.cursorShape != params + spaces
  {
    ScanFinishedCSI(m, params + spaces, 'q', "");
    assert CSI(params + spaces, 'q') + "" == CSI(params + spaces, 'q');
    CursorShapeIsShort(m, Keep([ESC, '['] + params) + (spaces + "q"));
  }

  // One read observes the unfinished sequence and what follows; after a cut it is what
  // was kept of it and what follows.
  lemma OneReadAndCut(o: Observed, a: string, b: string, m: Modes, u: string)
    requires Scan(o.modes, o.pending + a) == Scanned(m, u)
    ensures Observe(o, a + b) == Observe(Observed(m, u), b)
    ensures Observe(Observe(o, a), b) == Observe(Observed(m, Keep(u)), b)
  {
    hide Scan, Keep;
    var joined := o.pending + (a + b);
    assert Scan(o.modes, joined) == Scan(m, u + b) by {
      ScanAppend(o.modes, o.pending + a, b);
      assert o.pending + a + b == joined;
    }
    assert Observe(o, a) == Observed(m, Keep(u));
  }

  lemma TooLongDiffers(o: Observed, a: string, m: Modes, params: string) returns (b: string)
    requires Scan(o.modes, o.pending + a) == Scanned(m, [ESC, '['] + params)
    requires NoFinal(params) && |params| + 2 > MAX_PENDING_BYTES
    ensures Observe(Observe(o, a), b) != Observe(o, a + b)
  {
    var spaces := if m.cursorShape == params + " " then "  " else " ";
    b := spaces + "q";
    CutLosesParameters(m, params, spaces);
    var u := [ESC, '['] + params;
    assert u + b == CSI(params + spaces, 'q');
    hide Scan;
    OneReadAndCut(o, a, b, m, u);
    assert Observe(Observed(m, u), b).modes.cursorShape == params + spaces;
    assert Observe(Observed(m, Keep(u)), b).modes.cursorShape != params + spaces;
  }

  // An operating system command that sets the title, from its first bytes.
  predicate Titled(data: string) {
    |data| >= 4 && data[0] == ESC && data[1] == ']' && (data[2] == '0' || data[2] == '2') && data[3] == ';'
  }

  predicate IsOSC(data: string) {
    |data| >= 2 && data[0] == ESC && data[1] == ']' && OscEnd(data, 2) == |data|
  }

  // The cut is invisible although the sequence does not fit the carry-over: what is kept
  // happens to be an unfinished command too, and neither of the two sets a title.
  predicate CutIsInvisible(unfinished: string) {
    IsOSC(Keep(unfinished)) && !Titled(unfinished) && !Titled(Keep(unfinished))
  }

  // What follows the end of an unfinished command is seen at the same place in any
  // tail of it that is one too.
  lemma SameOscEnd(u: string, k: string, b: string)
    requires IsOSC(u) && IsOSC(k) && |k| <= |u| && k == u[|u| - |k|..]
    ensures OscEnd(u + b, 2) == OscEnd(k + b, 2) + (|u| - |k|)
  {
    var d := |u| - |k|;
    var end := OscEnd(k + b, 2);
    assert (u + b)[d..] == k + b;
    if end < |k + b| { assert TerminatesAt(u + b, end + d); }
    forall i | 2 <= i < end + d ensures !TerminatesAt(u + b, i) {
      if i < 2 + d {
        assert !TerminatesAt(u, i);
      } else {
        assert !TerminatesAt(k + b, i - d);
      }
    }
    OscEndIs(u + b, 2, end + d);
  }

  lemma {:induction false} OscEndIs(data: string, from: nat, e: nat)
    requires from <= e <= |data|
    requires e < |data| ==> TerminatesAt(data, e)
    requires forall i | from <= i < e :: !TerminatesAt(data, i)
    ensures OscEnd(data, from) == e
    decreases e - from
  {
    if from < e { OscEndIs(data, from + 1, e); }
  }

  lemma ScanOSC(m: Modes, u: string, b: string)
    requires IsOSC(u)
    ensures var (data, e) := (u + b, OscEnd(u + b, 2));
            && |u| - 1 <= e
            && if e == |data| then Scan(m, data) == Scanned(m, data)
               else 2 <= e && Scan(m, data) == Scan(ObserveOSC(m, data[2..e]), data[if data[e] == BEL then e + 1 else e + 2..])
  {
    var data, e := u + b, OscEnd(u + b, 2);
    if e < |u| - 1 {
      assert TerminatesAt(u, e);
      assert false;
    }
    if e < |u| && e < |data| {
      assert !TerminatesAt(u, e);
    }
  }

  // Only a command that starts as one can set the title.
  lemma OSCOnTitle(m: Modes, u: string, payload: string)
    requires |u| > 4 && u[0] == ESC && u[1] == ']' && |payload| >= |u| - 3 && payload[..|u| - 3] == u[2..|u| - 1]
    ensures ObserveOSC(m, payload) == if Titled(u) then m.(title := payload[2..]) else m
  {
    assert payload[0] == payload[..|u| - 3][0] == u[2];
    assert payload[1] == payload[..|u| - 3][1] == u[3];
    var i := IndexByte(payload, ';');
    if u[3] == ';' && u[2] != ';' {
      assert i == 1;
      assert payload[..1] == [u[2]];
    }
  }

  lemma Beginning(u: string, b: string, e: nat)
    requires 3 <= |u| <= e + 1 && e <= |u + b|
    ensures (u + b)[2..e][..|u| - 3] == u[2..|u| - 1]
  {
  }

  lemma InvisibleCut(m: Modes, u: string, b: string)
    requires IsOSC(u) && |u| > MAX_PENDING_BYTES && CutIsInvisible(u)
    ensures Scan(m, Keep(u) + b).modes == Scan(m, u + b).modes
    ensures Keep(Scan(m, Keep(u) + b).unfinished) == Keep(Scan(m, u + b).unfinished)
  {
    hide Scan, ObserveOSC, Titled;
    var k := Keep(u);
    var x, y := u + b, k + b;
    var e, f := OscEnd(x, 2), OscEnd(y, 2);
    SameOscEnd(u, k, b);
    ScanOSC(m, u, b);
    ScanOSC(m, k, b);
    assert x[|u| - |k|..] == y;
    if f < |y| {
      Beginning(u, b, e);
      Beginning(k, b, f);
      OSCOnTitle(m, u, x[2..e]);
      OSCOnTitle(m, k, y[2..f]);
      assert x[e] == y[f];
      var after := if y[f] == BEL then f + 1 else f + 2;
      assert x[after + (|u| - |k|)..] == y[after..];
    }
  }

  predicate Tells(m: Modes, u: string, b: string) {
    Observe(Observed(m, Keep(u)), b) != Observe(Observed(m, u), b)
  }

  // Nothing at all follows: what was kept has to be unfinished from its first byte.
  lemma NothingTells(m: Modes, u: string)
    requires Scan(m, u) == Scanned(m, u) && Scan(m, Keep(u)) != Scanned(m, Keep(u))
    ensures Tells(m, u, "")
  {
    assert u + "" == u && Keep(u) + "" == Keep(u);
  }

  lemma ScanUnfinished(m: Modes, k: string)
    requires |k| >= 2 && Scan(m, k) == Scanned(m, k)
    ensures IsOSC(k) || (HasPrefix(k, [ESC, '[']) && NoFinal(k[2..]))
  {
    if SequenceEnd(k).None? && k[1] == '[' {
      assert k[2..FinalIndex(k, 2)] == k[2..];
    }
  }

  // What was kept looks like a control sequence: its end sets the cursor shape.
  lemma ShapeTells(m: Modes, u: string, params: string) returns (b: string)
    requires IsOSC(u) && Keep(u) == [ESC, '['] + params && NoFinal(params)
    ensures Tells(m, u, b)
  {
    var spaces := if m.cursorShape == params + " " then "  " else " ";
    b := spaces + "q";
    forall i | 2 <= i < |u + b| ensures !TerminatesAt(u + b, i) {
      if i < |u| { assert !TerminatesAt(u, i); }
    }
    OscEndIs(u + b, 2, |u + b|);
    ScanOSC(m, u, b);
    ScanFinishedCSI(m, params + spaces, 'q', "");
    assert Keep(u) + b == CSI(params + spaces, 'q') + "";
  }

  lemma TitleAfter(m: Modes, u: string, x: string)
    requires IsOSC(u) && |u| > 4 && (x == "" || x == "y")
    ensures Scan(m, u + (x + [BEL])).modes == if Titled(u) then m.(title := u[4..] + x) else m
  {
    var b := x + [BEL];
    var e := |u| + |x|;
    forall i | 2 <= i < e ensures !TerminatesAt(u + b, i) {
      if i < |u| { assert !TerminatesAt(u, i); }
    }
    OscEndIs(u + b, 2, e);
    ScanOSC(m, u, b);
    var payload := (u + b)[2..e];
    Beginning(u, b, e);
    OSCOnTitle(m, u, payload);
    assert payload[2..] == u[4..] + x by {
      assert (u + b)[..e] == u + x;
      assert payload[2..] == (u + b)[..e][4..];
    }
    assert (u + b)[e + 1..] == "";
  }

  // One of the two commands sets the title: finishing them tells them apart.
  lemma TitleTells(m: Modes, u: string) returns (b: string)
    requires IsOSC(u) && IsOSC(Keep(u)) && |u| > MAX_PENDING_BYTES && (Titled(u) || Titled(Keep(u)))
    ensures Tells(m, u, b)
  {
    var k := Keep(u);
    var titled := if Titled(u) then u else k;
    var x := if m.title == titled[4..] + "" then "y" else "";
    b := x + [BEL];
    hide Scan;
    TitleAfter(m, u, x);
    TitleAfter(m, k, x);
    assert |titled[4..] + x| == |titled| - 4 + |x|;
  }

  lemma TooLongTells(m: Modes, u: string) returns (b: string)
    requires Scan(m, u) == Scanned(m, u) && |u| > MAX_PENDING_BYTES && IsOSC(u) && !CutIsInvisible(u)
    ensures Tells(m, u, b)
  {
    var k := Keep(u);
    hide Scan, Observe, Titled;
    if Scan(m, k) != Scanned(m, k) {
      b := "";
      NothingTells(m, u);
    } else {
      ScanUnfinished(m, k);
      if IsOSC(k) {
        b := TitleTells(m, u);
      } else {
        assert k == [ESC, '['] + k[2..];
        b := ShapeTells(m, u, k[2..]);
      }
    }
  }

  // What is kept of a control sequence is never an unfinished command: a command's
  // second byte would have ended the sequence.
  lemma KeptOfCSI(u: string)
    requires HasPrefix(u, [ESC, '[']) && NoFinal(u[2..]) && |u| > MAX_PENDING_BYTES
    ensures !IsOSC(Keep(u))
  {
    var d := |u| - MAX_PENDING_BYTES;
    assert Keep(u)[1] == u[d + 1] == u[2..][d - 1];
  }

  // Exactly when a cut is invisible, whatever follows: the unfinished sequence fits the
  // carry-over, or what is kept of it is an unfinished command as well and neither sets
  // a title. So a long title, and any long control sequence, is observed differently
  // when it is cut.
  lemma ChunkIndependenceIsExact(o: Observed, a: string)
    ensures var u := Scan(o.modes, o.pending + a).unfinished;
            (forall b :: Observe(Observe(o, a), b) == Observe(o, a + b))
            <==> |u| <= 16384 || CutIsInvisible(u)
  {
    var s := Scan(o.modes, o.pending + a);
    Rescan(o.modes, o.pending + a);
    if |s.unfinished| <= MAX_PENDING_BYTES {
      forall b ensures Observe(Observe(o, a), b) == Observe(o, a + b) {
        ChunkIndependence(o, a, b);
      }
    } else {
      ScanUnfinished(s.modes, s.unfinished);
      if IsOSC(s.unfinished) {
        CommandIsExact(o, a, s.modes, s.unfinished);
      } else {
        KeptOfCSI(s.unfinished);
        var params := s.unfinished[2..];
        assert s.unfinished == [ESC, '['] + params;
        var b := TooLongDiffers(o, a, s.modes, params);
      }
    }
  }

  lemma CommandIsExact(o: Observed, a: string, m: Modes, u: string)
    requires Scan(o.modes, o.pending + a) == Scanned(m, u) && Scan(m, u) == Scanned(m, u)
    requires IsOSC(u) && |u| > MAX_PENDING_BYTES
    ensures (forall b :: Observe(Observe(o, a), b) == Observe(o, a + b)) <==> CutIsInvisible(u)
  {
    hide Scan, IsOSC;
    if CutIsInvisible(u) {
      forall b ensures Observe(Observe(o, a), b) == Observe(o, a + b) {
        OneReadAndCut(o, a, b, m, u);
        InvisibleCut(m, u, b);
      }
    } else {
      var b := TooLongTells(m, u);
      OneReadAndCut(o, a, b, m, u);
    }
  }
}
