// The primary-screen mirror (daemon/primary_mirror.go): a filter that feeds a second
// shadow only the bytes an application writes to the primary screen, by removing
// alternate-screen spans and the two switches around them. It works on whatever
// pieces the PTY reads deliver.
module PrimaryMirror {
  import opened Text

  const ESC: char := '\U{1b}'
  const SAVE_CURSOR: string := [ESC, '7']
  const FULL_RESET: string := [ESC, 'c']
  const OBSERVATION_CHUNK: nat := 512

  // The two alternate-screen switches.
  function Enter(): (s: string)
    ensures |s| == 8
  {
    [ESC] + "[?1049h"
  }

  function Leave(): (s: string)
    ensures |s| == 8
  {
    [ESC] + "[?1049l"
  }

  predicate At(s: string, pattern: string, i: nat) {
    i + |pattern| <= |s| && s[i..i + |pattern|] == pattern
  }

  // ---- What the filter is for -------------------------------------------

  // The primary-screen bytes of a stream that starts on the given screen, and the
  // screen it ends on. Read one byte at a time, with the whole stream in view.
  function Primary(alternate: bool, s: string): string
    decreases |s|
  {
    if s == "" then ""
    else if alternate then
      if At(s, Leave(), 0) then Primary(false, s[|Leave()|..]) else Primary(true, s[1..])
    else
      if At(s, Enter(), 0) then Primary(true, s[|Enter()|..]) else [s[0]] + Primary(false, s[1..])
  }

  function Screen(alternate: bool, s: string): bool
    decreases |s|
  {
    if s == "" then alternate
    else if alternate then
      if At(s, Leave(), 0) then Screen(false, s[|Leave()|..]) else Screen(true, s[1..])
    else
      if At(s, Enter(), 0) then Screen(true, s[|Enter()|..]) else Screen(false, s[1..])
  }

  // ---- The filter on one buffer -----------------------------------------

  // bytes.Index, with the length for "not found".
  function Find(s: string, pattern: string): (r: nat)
    requires pattern != ""
    ensures r <= |s| && (r < |s| ==> r + |pattern| <= |s|)
  {
    FindFrom(s, pattern, 0)
  }

  lemma FindSpec(s: string, pattern: string)
    requires pattern != ""
    ensures var r := Find(s, pattern);
            (r < |s| ==> At(s, pattern, r)) && forall j: nat | j < r :: !At(s, pattern, j)
  {
  }

  function FindFrom(s: string, pattern: string, from: nat): (r: nat)
    requires pattern != "" && from <= |s|
    ensures from <= r <= |s|
    ensures r < |s| ==> At(s, pattern, r)
    ensures forall j | from <= j < r :: !At(s, pattern, j)
    decreases |s| - from
  {
    if from == |s| || At(s, pattern, from) then from else FindFrom(s, pattern, from + 1)
  }

  predicate EndsInPrefix(s: string, pattern: string, n: nat)
    requires n <= |pattern|
  {
    n <= |s| && s[|s| - n..] == pattern[..n]
  }

  // Length of the longest suffix, up to n, that could be the start of the pattern.
  function Held(s: string, pattern: string, n: nat): (r: nat)
    requires n < |pattern|
    ensures r <= n && EndsInPrefix(s, pattern, r)
    ensures forall k | r < k <= n :: !EndsInPrefix(s, pattern, k)
  {
    if n == 0 || EndsInPrefix(s, pattern, n) then n else Held(s, pattern, n - 1)
  }

  function HeldEnter(s: string): (r: nat)
    ensures r <= |s| && r < |Enter()|
  {
    Held(s, Enter(), |Enter()| - 1)
  }

  function LastSeven(s: string): string {
    if |s| > |Leave()| - 1 then s[|s| - (|Leave()| - 1)..] else s
  }

  datatype Mirrored = Mirrored(fed: string, alternate: bool, pending: string)

  function Run(alternate: bool, data: string): Mirrored
    decreases |data|
  {
    if alternate then
      var i := Find(data, Leave());
      if i == |data| then Mirrored("", true, LastSeven(data)) else Run(false, data[i + |Leave()|..])
    else
      var i := Find(data, Enter());
      if i == |data| then
        var keep := Confirmed(data);
        Mirrored(data[..keep], false, data[keep..])
      else
        var rest := Run(true, data[i + |Enter()|..]);
        rest.(fed := data[..i] + rest.fed)
  }

  // The four cases of a run, one unfolding each.
  lemma RunEntered(s: string)
    requires Find(s, Enter()) < |s|
    ensures var i := Find(s, Enter()); var rest := Run(true, s[i + |Enter()|..]);
            Run(false, s) == Mirrored(s[..i] + rest.fed, rest.alternate, rest.pending)
  {
    hide Find, Enter, Leave;
  }

  lemma RunStayed(s: string)
    requires Find(s, Enter()) == |s|
    ensures Run(false, s) == Mirrored(s[..Confirmed(s)], false, s[Confirmed(s)..])
  {
    hide Find, Enter, Leave, HeldEnter;
  }

  lemma RunLeft(s: string)
    requires Find(s, Leave()) < |s|
    ensures Run(true, s) == Run(false, s[Find(s, Leave()) + |Leave()|..])
  {
    hide Find, Enter, Leave;
  }

  lemma RunIgnored(s: string)
    requires Find(s, Leave()) == |s|
    ensures Run(true, s) == Mirrored("", true, LastSeven(s))
  {
    hide Find, Enter, Leave;
  }

  // ---- Searching a joined buffer ----------------------------------------

  lemma FindIs(s: string, pattern: string, i: nat)
    requires pattern != "" && i <= |s|
    requires i < |s| ==> At(s, pattern, i)
    requires forall j: nat | j < i :: !At(s, pattern, j)
    ensures Find(s, pattern) == i
  {
    FindSpec(s, pattern);
  }

  lemma FindInFirst(a: string, b: string, pattern: string)
    requires pattern != "" && Find(a, pattern) < |a|
    ensures Find(a + b, pattern) == Find(a, pattern)
    ensures (a + b)[Find(a, pattern) + |pattern|..] == a[Find(a, pattern) + |pattern|..] + b
  {
    var i := Find(a, pattern);
    FindSpec(a, pattern);
    assert (a + b)[i..i + |pattern|] == a[i..i + |pattern|];
    forall j: nat | j < i ensures !At(a + b, pattern, j) {
      assert !At(a, pattern, j);
      assert (a + b)[j..j + |pattern|] == a[j..j + |pattern|];
    }
    FindIs(a + b, pattern, i);
  }

  // A pattern absent from `a` can only be completed by a suffix of `a`: any part of
  // `a` that keeps every such suffix finds it at the same place.
  lemma FindAcross(a: string, b: string, pattern: string, keep: nat)
    requires pattern != "" && Find(a, pattern) == |a| && keep <= |a|
    requires forall k | |a| - keep < k < |pattern| :: !EndsInPrefix(a, pattern, k)
    ensures Find(a + b, pattern) == keep + Find(a[keep..] + b, pattern)
    ensures (a + b)[keep..] == a[keep..] + b
  {
    var s, t := a + b, a[keep..] + b;
    assert s[keep..] == t;
    var i := Find(t, pattern);
    FindSpec(t, pattern);
    if i < |t| { assert s[keep + i..keep + i + |pattern|] == t[i..i + |pattern|]; }
    forall j: nat | j < keep + i ensures !At(s, pattern, j) {
      if j < keep {
        NotBeforeKept(a, b, pattern, keep, j);
      } else {
        assert !At(t, pattern, j - keep);
        if j + |pattern| <= |s| { assert s[j..j + |pattern|] == t[j - keep..j - keep + |pattern|]; }
      }
    }
    FindIs(s, pattern, keep + i);
  }

  // A window over the joint of a + b starts with a suffix of a.
  lemma Overlap(a: string, b: string, j: nat, n: nat)
    requires j <= |a| <= j + n <= |a + b|
    ensures (a + b)[j..j + n][..|a| - j] == a[j..]
  {
  }

  lemma NotBeforeKept(a: string, b: string, pattern: string, keep: nat, j: nat)
    requires pattern != "" && Find(a, pattern) == |a| && j < keep <= |a|
    requires forall k | |a| - keep < k < |pattern| :: !EndsInPrefix(a, pattern, k)
    ensures !At(a + b, pattern, j)
  {
    var s := a + b;
    FindSpec(a, pattern);
    if At(s, pattern, j) {
      if j + |pattern| <= |a| {
        assert a[j..j + |pattern|] == s[j..j + |pattern|];
        assert At(a, pattern, j);
        assert false;
      } else {
        var k := |a| - j;
        Overlap(a, b, j, |pattern|);
        assert EndsInPrefix(a, pattern, k);
        assert false;
      }
    }
  }

  // ---- Any chunking equals one run --------------------------------------

  lemma SuffixEndsAlike(s: string, t: string, k: nat)
    requires |t| <= |s| && t == s[|s| - |t|..] && k <= |t| && k <= |Enter()|
    ensures EndsInPrefix(t, Enter(), k) == EndsInPrefix(s, Enter(), k)
  {
    assert t[|t| - k..] == s[|s| - k..];
  }

  lemma SuffixOfJoin(a: string, b: string, n: nat)
    requires |b| <= n <= |Enter()| && EndsInPrefix(a + b, Enter(), n)
    ensures EndsInPrefix(a, Enter(), n - |b|)
  {
    hide Enter;
    Overlap(a, b, |a + b| - n, n);
    assert Enter()[..n][..n - |b|] == Enter()[..n - |b|];
  }

  // A suffix of a + b that could start a switch lies within the kept part and b.
  lemma HeldWithin(a: string, b: string)
    ensures HeldEnter(a + b) <= HeldEnter(a) + |b|
  {
    var n := HeldEnter(a + b);
    if |b| <= n { SuffixOfJoin(a, b, n); }
  }

  lemma HeldAcross(a: string, b: string)
    ensures HeldEnter(a[|a| - HeldEnter(a)..] + b) == HeldEnter(a + b)
  {
    hide Enter, EndsInPrefix;
    var s := a + b;
    var t := a[|a| - HeldEnter(a)..] + b;
    assert t == s[|s| - |t|..];
    HeldWithin(a, b);
    SuffixEndsAlike(s, t, HeldEnter(s));
    SuffixEndsAlike(s, t, HeldEnter(t));
  }

  function Continue(r: Mirrored, b: string): Mirrored {
    var next := Run(r.alternate, r.pending + b);
    Mirrored(r.fed + next.fed, next.alternate, next.pending)
  }

  function Confirmed(s: string): (r: nat)
    ensures r <= |s|
  {
    |s| - HeldEnter(s)
  }

  lemma KeepsHeld(a: string)
    ensures forall k | |a| - Confirmed(a) < k < |Enter()| :: !EndsInPrefix(a, Enter(), k)
  {
  }

  lemma ConfirmedAcross(a: string, b: string)
    ensures Confirmed(a + b) == Confirmed(a) + Confirmed(a[Confirmed(a)..] + b)
  {
    HeldAcross(a, b);
  }

  lemma CutJoined(a: string, b: string, keep: nat, cut: nat)
    requires keep <= |a| && keep + cut <= |a + b|
    ensures (a + b)[..keep + cut] == a[..keep] + (a[keep..] + b)[..cut]
    ensures (a + b)[keep + cut..] == (a[keep..] + b)[cut..]
  {
  }

  lemma StillNotEntered(a: string, b: string, keep: nat, t: string)
    requires keep == Confirmed(a) && t == a[keep..] + b
    requires Find(a, Enter()) == |a| && Find(t, Enter()) == |t| && Find(a + b, Enter()) == |a + b|
    ensures Run(false, a + b) == Continue(Run(false, a), b)
  {
    var cut := Confirmed(t);
    assert Confirmed(a + b) == keep + cut by { ConfirmedAcross(a, b); }
    hide Find, Enter, Run, Confirmed;
    CutJoined(a, b, keep, cut);
    RunStayed(a);
    RunStayed(t);
    RunStayed(a + b);
  }

  lemma NowEntered(a: string, b: string, keep: nat, t: string)
    requires keep == Confirmed(a) && t == a[keep..] + b
    requires Find(a, Enter()) == |a| && Find(t, Enter()) < |t|
    requires Find(a + b, Enter()) == keep + Find(t, Enter())
    ensures Run(false, a + b) == Continue(Run(false, a), b)
  {
    hide Find, Enter, Run, Confirmed;
    RunStayed(a);
    RunEntered(t);
    RunEntered(a + b);
    var i := Find(t, Enter());
    var rest := Run(true, t[i + |Enter()|..]);
    assert (a + b)[keep + i + |Enter()|..] == t[i + |Enter()|..];
    assert (a + b)[..keep + i] == a[..keep] + t[..i];
    assert a[..keep] + t[..i] + rest.fed == a[..keep] + (t[..i] + rest.fed);
  }

  lemma RunAppendPrimary(a: string, b: string)
    requires Find(a, Enter()) == |a|
    ensures Run(false, a + b) == Continue(Run(false, a), b)
  {
    KeepsHeld(a);
    var keep := Confirmed(a);
    hide Find, Enter, Run, EndsInPrefix;
    var t := a[keep..] + b;
    FindAcross(a, b, Enter(), keep);
    if Find(t, Enter()) == |t| {
      StillNotEntered(a, b, keep, t);
    } else {
      NowEntered(a, b, keep, t);
    }
  }

  lemma RunAppendAlternate(a: string, b: string)
    requires Find(a, Leave()) == |a|
    ensures Run(true, a + b) == Continue(Run(true, a), b)
  {
    hide Find, Enter, Leave, Run;
    var keep := |a| - |LastSeven(a)|;
    var s, t := a + b, LastSeven(a) + b;
    assert LastSeven(a) == a[keep..];
    FindAcross(a, b, Leave(), keep);
    RunIgnored(a);
    var i := Find(t, Leave());
    if i == |t| {
      RunIgnored(s);
      RunIgnored(t);
      assert LastSeven(s) == LastSeven(t);
    } else {
      RunLeft(s);
      RunLeft(t);
      assert s[keep + i + |Leave()|..] == t[i + |Leave()|..];
    }
  }

  // Feeding a and then b is feeding the joined stream: same bytes to the primary
  // shadow, same screen, same carry-over.
  lemma {:induction false} RunAppend(alternate: bool, a: string, b: string)
    ensures Run(alternate, a + b) == Continue(Run(alternate, a), b)
    decreases |a|
  {
    hide Find, Enter, Leave, Run;
    if alternate {
      var i := Find(a, Leave());
      if i == |a| {
        RunAppendAlternate(a, b);
      } else {
        FindInFirst(a, b, Leave());
        RunLeft(a);
        RunLeft(a + b);
        RunAppend(false, a[i + |Leave()|..], b);
      }
    } else {
      var i := Find(a, Enter());
      if i == |a| {
        RunAppendPrimary(a, b);
      } else {
        FindInFirst(a, b, Enter());
        RunEntered(a);
        RunEntered(a + b);
        var tail := a[i + |Enter()|..];
        RunAppend(true, tail, b);
        assert (a + b)[..i] == a[..i];
        var rest := Run(true, tail);
        var next := Run(rest.alternate, rest.pending + b);
        assert a[..i] + (rest.fed + next.fed) == a[..i] + rest.fed + next.fed;
      }
    }
  }

  // ---- One run is the filter -------------------------------------------

  lemma {:induction false} PrimaryUpTo(s: string, i: nat)
    requires i <= |s|
    requires forall j: nat | j < i :: !At(s, Enter(), j)
    ensures Primary(false, s) == s[..i] + Primary(false, s[i..])
    ensures Screen(false, s) == Screen(false, s[i..])
    decreases i
  {
    if i == 0 {
      assert s[0..] == s;
    } else {
      var tail := s[1..];
      forall j: nat | j < i - 1 ensures !At(tail, Enter(), j) {
        assert !At(s, Enter(), j + 1);
        if j + |Enter()| <= |tail| { assert tail[j..j + |Enter()|] == s[j + 1..j + 1 + |Enter()|]; }
      }
      assert !At(s, Enter(), 0);
      PrimaryUpTo(tail, i - 1);
      assert tail[i - 1..] == s[i..];
      assert s[..i] == [s[0]] + tail[..i - 1];
    }
  }

  lemma {:induction false} AlternateUpTo(s: string, i: nat)
    requires i <= |s|
    requires forall j: nat | j < i :: !At(s, Leave(), j)
    ensures Primary(true, s) == Primary(true, s[i..])
    ensures Screen(true, s) == Screen(true, s[i..])
    decreases i
  {
    if i == 0 {
      assert s[0..] == s;
    } else {
      var tail := s[1..];
      forall j: nat | j < i - 1 ensures !At(tail, Leave(), j) {
        assert !At(s, Leave(), j + 1);
        if j + |Leave()| <= |tail| { assert tail[j..j + |Leave()|] == s[j + 1..j + 1 + |Leave()|]; }
      }
      assert !At(s, Leave(), 0);
      AlternateUpTo(tail, i - 1);
      assert tail[i - 1..] == s[i..];
    }
  }

  predicate IsEnterPrefix(s: string) {
    |s| < |Enter()| && s == Enter()[..|s|]
  }

  // What has been fed, with the carry-over put back.
  function Whole(r: Mirrored): string {
    r.fed + (if r.alternate then "" else r.pending)
  }

  lemma EnterAtStart(s: string)
    requires At(s, Enter(), 0)
    ensures Primary(false, s) == Primary(true, s[|Enter()|..])
    ensures Screen(false, s) == Screen(true, s[|Enter()|..])
  {
  }

  lemma LeaveAtStart(s: string)
    requires At(s, Leave(), 0)
    ensures Primary(true, s) == Primary(false, s[|Leave()|..])
    ensures Screen(true, s) == Screen(false, s[|Leave()|..])
  {
  }

  lemma NothingPrimary()
    ensures Primary(false, "") == "" && Primary(true, "") == "" && !Screen(false, "") && Screen(true, "")
  {
  }

  lemma AtTail(s: string, pattern: string, i: nat)
    requires At(s, pattern, i)
    ensures At(s[i..], pattern, 0)
    ensures s[i..][|pattern|..] == s[i + |pattern|..]
  {
  }

  // The bytes fed are exactly the primary-screen bytes, minus a trailing piece that
  // may turn out to be the start of a switch.
  lemma {:induction false} RunIsFilter(alternate: bool, s: string)
    ensures var r := Run(alternate, s);
            && r.alternate == Screen(alternate, s)
            && Whole(r) == Primary(alternate, s)
            && |r.pending| < |Enter()| && (!r.alternate ==> IsEnterPrefix(r.pending))
    decreases |s|
  {
    hide Find, Enter, Leave, Run, Primary, Screen;
    NothingPrimary();
    if alternate {
      var i := Find(s, Leave());
      FindSpec(s, Leave());
      AlternateUpTo(s, i);
      if i < |s| {
        AtTail(s, Leave(), i);
        LeaveAtStart(s[i..]);
        RunLeft(s);
        RunIsFilter(false, s[i + |Leave()|..]);
      } else {
        RunIgnored(s);
      }
    } else {
      var i := Find(s, Enter());
      FindSpec(s, Enter());
      PrimaryUpTo(s, i);
      if i < |s| {
        AtTail(s, Enter(), i);
        EnterAtStart(s[i..]);
        RunEntered(s);
        var rest := Run(true, s[i + |Enter()|..]);
        RunIsFilter(true, s[i + |Enter()|..]);
        WholeOfPrefixed(s[..i], rest);
      } else {
        assert s[..i] + "" == s;
        StayedIsWhole(s);
      }
    }
  }

  lemma WholeOfPrefixed(before: string, r: Mirrored)
    ensures Whole(Mirrored(before + r.fed, r.alternate, r.pending)) == before + Whole(r)
  {
    assert before + r.fed + r.pending == before + (r.fed + r.pending);
    assert before + r.fed + "" == before + (r.fed + "");
  }

  lemma StayedIsWhole(s: string)
    requires Find(s, Enter()) == |s|
    ensures var r := Run(false, s);
            !r.alternate && Whole(r) == s && |r.pending| < |Enter()| && IsEnterPrefix(r.pending)
  {
    hide Find, Enter, Run;
    RunStayed(s);
    var keep := Confirmed(s);
    assert EndsInPrefix(s, Enter(), |s| - keep);
    assert s[..keep] + s[keep..] == s;
  }

  function RunAll(r: Mirrored, chunks: seq<string>): Mirrored
    decreases chunks
  {
    if chunks == [] then r else RunAll(Continue(r, chunks[0]), chunks[1..])
  }

  lemma ContinueTwice(r: Mirrored, a: string, b: string)
    ensures Continue(Continue(r, a), b) == Continue(r, a + b)
  {
    hide Run;
    RunAppend(r.alternate, r.pending + a, b);
    assert r.pending + a + b == r.pending + (a + b);
    var x := Run(r.alternate, r.pending + a);
    var y := Run(x.alternate, x.pending + b);
    assert r.fed + x.fed + y.fed == r.fed + (x.fed + y.fed);
  }

  lemma {:induction false} RunAllIsContinue(r: Mirrored, chunks: seq<string>)
    requires chunks != []
    ensures RunAll(r, chunks) == Continue(r, Concat(chunks))
    decreases chunks
  {
    var first, rest := chunks[0], chunks[1..];
    if rest == [] {
      assert first + Concat(rest) == first;
    } else {
      RunAllIsContinue(Continue(r, first), rest);
      ContinueTwice(r, first, Concat(rest));
    }
  }

  // The refinement, for every stream and every way of cutting it into reads.
  lemma MirrorRefinesFilter(chunks: seq<string>)
    ensures var r := RunAll(Mirrored("", false, ""), chunks);
            && r == Run(false, Concat(chunks))
            && r.alternate == Screen(false, Concat(chunks))
            && Whole(r) == Primary(false, Concat(chunks))
            && (!r.alternate ==> IsEnterPrefix(r.pending))
  {
    RunIsFilter(false, Concat(chunks));
    if chunks != [] {
      RunAllIsContinue(Mirrored("", false, ""), chunks);
      assert "" + Concat(chunks) == Concat(chunks);
      assert "" + Run(false, Concat(chunks)).fed == Run(false, Concat(chunks)).fed;
    }
  }

  // ---- Taking over at a boundary ----------------------------------------

  // A carry-over the filter can hold.
  predicate IsCarryOver(alternate: bool, pending: string) {
    if alternate then |pending| < |Leave()| else IsEnterPrefix(pending)
  }

  // A replacement daemon resumes the filter without the carry-over. That is harmless
  // exactly when no carried-over byte can belong to a switch still to be completed.
  predicate Droppable(alternate: bool, pending: string) {
    if alternate then Held(pending, Leave(), |Leave()| - 1) == 0 else pending == ""
  }

  predicate SameOutcome(x: Mirrored, y: Mirrored) {
    x.fed == y.fed && x.alternate == y.alternate
  }

  lemma ShortStays(b: string)
    requires |b| < 8
    ensures Run(true, b).alternate && !Run(false, b).alternate
  {
    hide Run, Find, Enter, Leave;
    FindSpec(b, Leave());
    FindSpec(b, Enter());
    RunIgnored(b);
    RunStayed(b);
  }

  lemma CompletesLeave(pending: string, k: nat)
    requires 0 < k < 8 && EndsInPrefix(pending, Leave(), k) && |pending| < 8
    ensures Run(true, pending + Leave()[k..]).alternate != Run(true, Leave()[k..]).alternate
  {
    hide Leave, Run, Find;
    var b := Leave()[k..];
    var s, at := pending + b, |pending| - k;
    ShortStays(b);
    assert s[at..at + 8] == Leave() by {
      assert s[at..] == pending[at..] + b;
      assert Leave()[..k] + Leave()[k..] == Leave();
    }
    FindSpec(s, Leave());
    assert At(s, Leave(), at);
    RunLeft(s);
    ShortStays(s[Find(s, Leave()) + 8..]);
  }

  lemma CompletesEnter(n: nat)
    requires 0 < n < 8
    ensures Run(false, Enter()[..n] + Enter()[n..]).alternate != Run(false, Enter()[n..]).alternate
  {
    hide Enter, Run, Find;
    var s := Enter()[..n] + Enter()[n..];
    assert s == Enter();
    assert s[0..8] == Enter();
    ShortStays(Enter()[n..]);
    FindSpec(s, Enter());
    assert At(s, Enter(), 0);
    RunEntered(s);
    ShortStays(s[Find(s, Enter()) + 8..]);
  }

  lemma DroppedLeave(pending: string, b: string)
    requires |pending| < 8 && Droppable(true, pending)
    ensures SameOutcome(Run(true, pending + b), Run(true, b))
  {
    hide Enter, Leave, Run, Find;
    FindSpec(pending, Leave());
    FindAcross(pending, b, Leave(), |pending|);
    assert pending[|pending|..] + b == b;
    if Find(b, Leave()) == |b| {
      RunIgnored(b);
      RunIgnored(pending + b);
    } else {
      RunLeft(b);
      RunLeft(pending + b);
      assert (pending + b)[|pending|..] == b;
    }
  }

  // The replacement resumes on the screen another component tells it, the mode
  // observer. It then filters every later stream alike exactly when that is the screen
  // the mirror was on and nothing it drops can complete a switch.
  lemma DropIsHarmlessExactly(alternate: bool, pending: string, resumed: bool)
    requires IsCarryOver(alternate, pending)
    ensures (forall b :: SameOutcome(Run(alternate, pending + b), Run(resumed, b)))
            <==> resumed == alternate && Droppable(alternate, pending)
  {
    hide Enter, Leave, Run, Find;
    if resumed != alternate {
      ShortStays(pending);
      ShortStays("");
      assert pending + "" == pending;
      assert !SameOutcome(Run(alternate, pending + ""), Run(resumed, ""));
    } else if Droppable(alternate, pending) {
      forall b ensures SameOutcome(Run(alternate, pending + b), Run(alternate, b)) {
        if alternate {
          DroppedLeave(pending, b);
        } else {
          assert pending + b == b;
        }
      }
    } else if alternate {
      var k := Held(pending, Leave(), 7);
      CompletesLeave(pending, k);
      assert !SameOutcome(Run(true, pending + Leave()[k..]), Run(true, Leave()[k..]));
    } else {
      var n := |pending|;
      CompletesEnter(n);
      assert !SameOutcome(Run(false, pending + Enter()[n..]), Run(false, Enter()[n..]));
    }
  }

  // ---- The saved-cursor flag -------------------------------------------

  predicate Contains(s: string, pattern: string)
    requires pattern != ""
  {
    Find(s, pattern) < |s|
  }

  // What feeding one contiguous piece does to the flag.
  function FeedSaved(saved: bool, piece: string): bool {
    if Contains(piece, FULL_RESET) then false
    else saved || Contains(piece, SAVE_CURSOR)
  }

  // The flag after feeding the pieces one after the other.
  function Flagged(saved: bool, pieces: seq<string>): bool
    decreases |pieces|
  {
    if pieces == [] then saved else Flagged(FeedSaved(saved, pieces[0]), pieces[1..])
  }

  // The contiguous pieces in which a run feeds its bytes: a removed span ends one.
  function Pieces(alternate: bool, data: string): seq<string>
    decreases |data|
  {
    if alternate then
      var i := Find(data, Leave());
      if i == |data| then [] else Pieces(false, data[i + |Leave()|..])
    else
      var i := Find(data, Enter());
      if i == |data| then NotEmpty(data[..Confirmed(data)])
      else NotEmpty(data[..i]) + Pieces(true, data[i + |Enter()|..])
  }

  function NotEmpty(piece: string): seq<string> {
    if piece == "" then [] else [piece]
  }

  lemma PiecesEntered(s: string)
    requires Find(s, Enter()) < |s|
    ensures var i := Find(s, Enter()); Pieces(false, s) == NotEmpty(s[..i]) + Pieces(true, s[i + |Enter()|..])
  {
    hide Find, Enter, Leave;
  }

  lemma PiecesStayed(s: string)
    requires Find(s, Enter()) == |s|
    ensures Pieces(false, s) == NotEmpty(s[..Confirmed(s)])
  {
    hide Find, Enter, Leave, HeldEnter;
  }

  lemma PiecesLeft(s: string)
    requires Find(s, Leave()) < |s|
    ensures Pieces(true, s) == Pieces(false, s[Find(s, Leave()) + |Leave()|..])
  {
    hide Find, Enter, Leave;
  }

  lemma PiecesIgnored(s: string)
    requires Find(s, Leave()) == |s|
    ensures Pieces(true, s) == []
  {
    hide Find, Enter, Leave;
  }

  lemma ConcatNotEmpty(piece: string, more: seq<string>)
    ensures Concat(NotEmpty(piece) + more) == piece + Concat(more)
  {
    if piece == "" {
      assert NotEmpty(piece) + more == more;
    } else {
      assert ([piece] + more)[1..] == more;
    }
  }

  lemma {:induction false} PiecesAreFed(alternate: bool, data: string)
    ensures Concat(Pieces(alternate, data)) == Run(alternate, data).fed
    decreases |data|
  {
    hide Find, Enter, Leave, Run, Pieces, NotEmpty;
    if alternate {
      if Find(data, Leave()) == |data| {
        PiecesIgnored(data);
        RunIgnored(data);
      } else {
        PiecesLeft(data);
        RunLeft(data);
        PiecesAreFed(false, data[Find(data, Leave()) + |Leave()|..]);
      }
    } else {
      var i := Find(data, Enter());
      if i == |data| {
        PiecesStayed(data);
        RunStayed(data);
        ConcatNotEmpty(data[..Confirmed(data)], []);
        assert NotEmpty(data[..Confirmed(data)]) + [] == NotEmpty(data[..Confirmed(data)]);
        assert data[..Confirmed(data)] + "" == data[..Confirmed(data)];
      } else {
        PiecesEntered(data);
        RunEntered(data);
        PiecesAreFed(true, data[i + |Enter()|..]);
        ConcatNotEmpty(data[..i], Pieces(true, data[i + |Enter()|..]));
      }
    }
  }

  lemma FlaggedNotEmpty(saved: bool, piece: string, more: seq<string>)
    ensures Flagged(saved, NotEmpty(piece) + more) == Flagged(FeedSaved(saved, piece), more)
  {
    hide Find;
    if piece == "" {
      assert NotEmpty(piece) + more == more;
    } else {
      assert ([piece] + more)[1..] == more;
    }
  }

  // ---- The mirror as it runs --------------------------------------------

  class Mirror {
    var alternate: bool
    var pending: string
    var savedCursor: bool
    // The primary shadow, as the updates it was given.
    var updates: seq<string>

    ghost function State(): Mirrored
      reads this
    {
      Mirrored(Concat(updates), alternate, pending)
    }

    constructor ()
      ensures State() == Mirrored("", false, "") && !savedCursor && updates == []
    {
      alternate, pending, savedCursor, updates := false, "", false, [];
    }

    // FeedWithHook.
    method Feed(data: string)
      requires forall u | u in updates :: |u| <= OBSERVATION_CHUNK
      modifies this
      ensures State() == Continue(old(State()), data)
      ensures savedCursor == Flagged(old(savedCursor), Pieces(old(alternate), old(pending) + data))
      ensures forall u | u in updates :: |u| <= OBSERVATION_CHUNK
    {
      hide Find, Run, Enter, Leave, Flagged, Pieces, FeedSaved, Goal;
      ghost var goal := Goal(Concat(updates), alternate, savedCursor, pending + data);
      GoalIs(State(), savedCursor, data);
      var rest := pending + data;
      pending := "";
      while rest != ""
        invariant forall u | u in updates :: |u| <= OBSERVATION_CHUNK
        invariant pending == ""
        invariant Goal(Concat(updates), alternate, savedCursor, rest) == goal
        decreases |rest|
      {
        if alternate {
          var index := IndexOf(rest, Leave());
          if index == |rest| {
            GoalIgnored(Concat(updates), savedCursor, rest);
            KeepLast(rest);
            return;
          }
          GoalLeft(Concat(updates), savedCursor, rest);
          alternate := false;
          rest := rest[index + |Leave()|..];
          continue;
        }
        var index := IndexOf(rest, Enter());
        if index == |rest| {
          var keep := ConfirmedLength(rest);
          GoalStayed(Concat(updates), savedCursor, rest);
          if keep > 0 { FeedPrimary(rest[..keep]); }
          KeepLast(rest[keep..]);
          return;
        }
        GoalEntered(Concat(updates), savedCursor, rest);
        if index > 0 { FeedPrimary(rest[..index]); }
        alternate := true;
        rest := rest[index + |Enter()|..];
      }
      GoalDone(Concat(updates), alternate, savedCursor);
    }

    // feed: the primary shadow is updated in bounded steps, so that native eviction
    // can be observed after each.
    method FeedPrimary(data: string)
      requires forall u | u in updates :: |u| <= OBSERVATION_CHUNK
      modifies this`updates, this`savedCursor
      ensures Concat(updates) == old(Concat(updates)) + data
      ensures savedCursor == FeedSaved(old(savedCursor), data)
      ensures forall u | u in updates :: |u| <= OBSERVATION_CHUNK
    {
      hide Find;
      var saves := IndexOf(data, SAVE_CURSOR);
      var resets := IndexOf(data, FULL_RESET);
      if saves < |data| { savedCursor := true; }
      if resets < |data| { savedCursor := false; }
      var rest := data;
      while rest != ""
        invariant Concat(updates) + rest == old(Concat(updates)) + data
        invariant forall u | u in updates :: |u| <= OBSERVATION_CHUNK
        invariant savedCursor == FeedSaved(old(savedCursor), data)
        decreases |rest|
      {
        var end := if OBSERVATION_CHUNK > |rest| then |rest| else OBSERVATION_CHUNK;
        ConcatAppend(updates, rest[..end]);
        ghost var before := Concat(updates);
        assert before + rest == before + rest[..end] + rest[end..];
        updates := updates + [rest[..end]];
        rest := rest[end..];
      }
      assert Concat(updates) + "" == Concat(updates);
    }

    method KeepLast(data: string)
      modifies this`pending
      ensures pending == LastSeven(data)
    {
      var maxPending := |Leave()| - 1;
      pending := if |data| > maxPending then data[|data| - maxPending..] else data;
    }
  }

  // Where a call of the filter gets to from the middle of its buffer: the mirror, and
  // its saved-cursor flag.
  ghost function Goal(fed: string, alternate: bool, saved: bool, rest: string): (Mirrored, bool) {
    var run := Run(alternate, rest);
    (Mirrored(fed + run.fed, run.alternate, run.pending), Flagged(saved, Pieces(alternate, rest)))
  }

  lemma GoalIs(r: Mirrored, saved: bool, data: string)
    ensures Goal(r.fed, r.alternate, saved, r.pending + data)
            == (Continue(r, data), Flagged(saved, Pieces(r.alternate, r.pending + data)))
  {
    hide Run, Flagged, Pieces;
  }

  lemma GoalDone(fed: string, alternate: bool, saved: bool)
    ensures Goal(fed, alternate, saved, "") == (Mirrored(fed, alternate, ""), saved)
  {
    hide Run, Flagged, Pieces;
    NothingRun();
    NothingFlagged(saved);
    assert fed + "" == fed;
  }

  lemma GoalIgnored(fed: string, saved: bool, rest: string)
    requires Find(rest, Leave()) == |rest|
    ensures Goal(fed, true, saved, rest) == (Mirrored(fed, true, LastSeven(rest)), saved)
  {
    hide Find, Leave, Run, Flagged, Pieces;
    RunIgnored(rest);
    PiecesIgnored(rest);
    NothingFlagged(saved);
    assert fed + "" == fed;
  }

  lemma GoalLeft(fed: string, saved: bool, rest: string)
    requires Find(rest, Leave()) < |rest|
    ensures Goal(fed, true, saved, rest) == Goal(fed, false, saved, rest[Find(rest, Leave()) + |Leave()|..])
  {
    hide Find, Leave, Run, Flagged, Pieces;
    RunLeft(rest);
    PiecesLeft(rest);
  }

  lemma GoalStayed(fed: string, saved: bool, rest: string)
    requires Find(rest, Enter()) == |rest|
    ensures var keep := Confirmed(rest);
            && Goal(fed, false, saved, rest)
               == (Mirrored(fed + rest[..keep], false, rest[keep..]), FeedSaved(saved, rest[..keep]))
            && (keep == 0 ==> fed + rest[..keep] == fed && FeedSaved(saved, rest[..keep]) == saved)
  {
    hide Find, Enter, Run, Flagged, Pieces, Confirmed, FeedSaved;
    RunStayed(rest);
    LastFlagged(saved, rest);
  }

  lemma GoalEntered(fed: string, saved: bool, rest: string)
    requires Find(rest, Enter()) < |rest|
    ensures var i := Find(rest, Enter());
            && Goal(fed, false, saved, rest)
               == Goal(fed + rest[..i], true, FeedSaved(saved, rest[..i]), rest[i + |Enter()|..])
            && (i == 0 ==> fed + rest[..i] == fed && FeedSaved(saved, rest[..i]) == saved)
  {
    hide Find, Enter, Run, Flagged, Pieces, FeedSaved;
    RunEntered(rest);
    NextFlagged(saved, rest);
    var i := Find(rest, Enter());
    var next := Run(true, rest[i + |Enter()|..]);
    assert fed + (rest[..i] + next.fed) == fed + rest[..i] + next.fed;
  }

  lemma NothingFlagged(saved: bool)
    ensures Flagged(saved, []) == saved
    ensures forall alternate :: Pieces(alternate, "") == []
    ensures FeedSaved(saved, "") == saved
  {
    hide Pieces, FeedSaved;
    forall alternate ensures Pieces(alternate, "") == [] { NoPieces(alternate); }
    NothingSaved(saved);
  }

  lemma NoPieces(alternate: bool)
    ensures Pieces(alternate, "") == []
  {
    hide Pieces, Enter, Leave, HeldEnter;
    NothingFound(Enter());
    NothingFound(Leave());
    if alternate { PiecesIgnored(""); } else { PiecesStayed(""); }
  }

  lemma NothingSaved(saved: bool)
    ensures FeedSaved(saved, "") == saved
  {
    hide Find;
    NothingFound(FULL_RESET);
    NothingFound(SAVE_CURSOR);
  }

  lemma NothingFound(pattern: string)
    requires pattern != ""
    ensures Find("", pattern) == 0
  {
  }

  lemma LastFlagged(saved: bool, s: string)
    requires Find(s, Enter()) == |s|
    ensures Flagged(saved, Pieces(false, s)) == FeedSaved(saved, s[..Confirmed(s)])
    ensures FeedSaved(saved, "") == saved
  {
    hide Find, Enter, Pieces, HeldEnter, FeedSaved, NotEmpty, Flagged;
    PiecesStayed(s);
    FlaggedNotEmpty(saved, s[..Confirmed(s)], []);
    assert NotEmpty(s[..Confirmed(s)]) + [] == NotEmpty(s[..Confirmed(s)]);
    NothingFlagged(saved);
    NothingFlagged(FeedSaved(saved, s[..Confirmed(s)]));
  }

  lemma NextFlagged(saved: bool, s: string)
    requires Find(s, Enter()) < |s|
    ensures var i := Find(s, Enter());
            Flagged(saved, Pieces(false, s)) == Flagged(FeedSaved(saved, s[..i]), Pieces(true, s[i + |Enter()|..]))
    ensures FeedSaved(saved, "") == saved
  {
    hide Find, Enter, Pieces, FeedSaved, NotEmpty, Flagged;
    PiecesEntered(s);
    FlaggedNotEmpty(saved, s[..Find(s, Enter())], Pieces(true, s[Find(s, Enter()) + |Enter()|..]));
    NothingFlagged(saved);
  }

  lemma NothingRun()
    ensures forall alternate :: Run(alternate, "") == Mirrored("", alternate, "")
  {
  }

  lemma {:induction false} ConcatAppend(chunks: seq<string>, chunk: string)
    ensures Concat(chunks + [chunk]) == Concat(chunks) + chunk
  {
    if chunks == [] {
      assert chunks + [chunk] == [chunk];
      assert Concat([chunk]) == chunk + Concat([chunk][1..]);
      assert chunk + "" == chunk && "" + chunk == chunk;
    } else {
      assert (chunks + [chunk])[1..] == chunks[1..] + [chunk];
      ConcatAppend(chunks[1..], chunk);
      assert chunks[0] + (Concat(chunks[1..]) + chunk) == chunks[0] + Concat(chunks[1..]) + chunk;
    }
  }

  method IndexOf(s: string, pattern: string) returns (index: nat)
    requires pattern != ""
    ensures index == Find(s, pattern)
  {
    index := 0;
    while index < |s| && !At(s, pattern, index)
      invariant index <= |s|
      invariant forall j: nat | j < index :: !At(s, pattern, j)
    {
      index := index + 1;
    }
    FindIs(s, pattern, index);
  }

  // The length of the bytes that cannot start a switch.
  method ConfirmedLength(s: string) returns (keep: nat)
    ensures keep == Confirmed(s)
  {
    var suffix: nat := |Enter()| - 1;
    while suffix > 0 && !(|s| >= suffix && s[|s| - suffix..] == Enter()[..suffix])
      invariant suffix < |Enter()|
      invariant Held(s, Enter(), suffix) == HeldEnter(s)
    {
      suffix := suffix - 1;
    }
    keep := |s| - suffix;
  }
}
