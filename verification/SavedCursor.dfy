// The primary mirror's saved-cursor flag (daemon/primary_mirror.go: feed) over whole
// runs, against what the bytes fed to the primary shadow call for: there the later of
// two escapes decides, save the cursor or reset everything.
module SavedCursor {
  import opened Text
  import opened PrimaryMirror

  // The later escape of a stream decides.
  function LastDecides(saved: bool, s: string): bool {
    if |s| < 2 then saved
    else if s[|s| - 2..] == FULL_RESET then false
    else if s[|s| - 2..] == SAVE_CURSOR then true
    else LastDecides(saved, s[..|s| - 1])
  }

  // ---- Inside one piece -------------------------------------------------

  lemma {:induction false} LastDecidesBySaved(s: string)
    ensures !Contains(s, FULL_RESET) ==> (LastDecides(false, s) <==> Contains(s, SAVE_CURSOR)) && LastDecides(true, s)
    ensures Contains(s, FULL_RESET) ==> LastDecides(true, s) == LastDecides(false, s)
  {
    hide Find;
    if |s| >= 2 {
      ContainsInit(s, FULL_RESET);
      ContainsInit(s, SAVE_CURSOR);
      LastDecidesBySaved(s[..|s| - 1]);
    }
  }

  lemma ContainsInit(s: string, pattern: string)
    requires |pattern| == 2 && |s| >= 2
    ensures Contains(s, pattern) <==> s[|s| - 2..] == pattern || Contains(s[..|s| - 1], pattern)
  {
    var init := s[..|s| - 1];
    FindSpec(s, pattern);
    FindSpec(init, pattern);
    if Contains(s, pattern) {
      var i := Find(s, pattern);
      if i + 2 <= |init| {
        assert init[i..i + 2] == s[i..i + 2];
        assert At(init, pattern, i);
      } else {
        assert s[i..i + 2] == s[|s| - 2..];
      }
    }
    if Contains(init, pattern) {
      var i := Find(init, pattern);
      assert s[i..i + 2] == init[i..i + 2];
      assert At(s, pattern, i);
    }
    if s[|s| - 2..] == pattern {
      assert s[|s| - 2..|s|] == s[|s| - 2..];
      assert At(s, pattern, |s| - 2);
    }
  }

  // The cursor is saved at a place after which nothing is reset.
  predicate SavesLast(s: string) {
    exists j: nat :: j < |s| && At(s, SAVE_CURSOR, j) && ResetsNowhere(s, j)
  }

  predicate ResetsNowhere(s: string, from: nat) {
    forall k: nat | from < k < |s| :: !At(s, FULL_RESET, k)
  }

  // A piece that resets everything and saves the cursor again after it.
  predicate SavesAfterReset(s: string) {
    exists i: nat, j: nat ::
      i < j < |s| && At(s, FULL_RESET, i) && At(s, SAVE_CURSOR, j) && ResetsNowhere(s, j)
  }

  lemma AtInit(s: string, pattern: string, j: nat)
    requires |pattern| == 2 && |s| >= 2
    ensures At(s, pattern, j) <==> (j == |s| - 2 && s[|s| - 2..] == pattern) || At(s[..|s| - 1], pattern, j)
  {
    if j + 2 < |s| {
      assert s[..|s| - 1][j..j + 2] == s[j..j + 2];
    } else if j + 2 == |s| {
      assert s[j..j + 2] == s[|s| - 2..];
    }
  }

  lemma {:induction false} LastDecidesByPlace(s: string)
    ensures LastDecides(false, s) <==> SavesLast(s)
  {
    if |s| >= 2 {
      var init := s[..|s| - 1];
      forall j: nat ensures At(s, SAVE_CURSOR, j) <==> (j == |s| - 2 && s[|s| - 2..] == SAVE_CURSOR) || At(init, SAVE_CURSOR, j) {
        AtInit(s, SAVE_CURSOR, j);
      }
      forall j: nat ensures At(s, FULL_RESET, j) <==> (j == |s| - 2 && s[|s| - 2..] == FULL_RESET) || At(init, FULL_RESET, j) {
        AtInit(s, FULL_RESET, j);
      }
      if s[|s| - 2..] == SAVE_CURSOR {
        assert ResetsNowhere(s, |s| - 2);
      } else if s[|s| - 2..] == FULL_RESET {
        assert At(s, FULL_RESET, |s| - 2);
      } else {
        LastDecidesByPlace(init);
        forall j: nat | j < |init| ensures ResetsNowhere(s, j) <==> ResetsNowhere(init, j) {
          SameResets(s, j);
        }
      }
    }
  }

  lemma SameResets(s: string, j: nat)
    requires |s| >= 2 && s[|s| - 2..] != FULL_RESET
    ensures ResetsNowhere(s, j) <==> ResetsNowhere(s[..|s| - 1], j)
  {
    var init := s[..|s| - 1];
    forall k: nat ensures At(s, FULL_RESET, k) <==> At(init, FULL_RESET, k) {
      AtInit(s, FULL_RESET, k);
    }
    if ResetsNowhere(init, j) {
      forall k: nat | j < k < |s| ensures !At(s, FULL_RESET, k) {
        if k == |init| { assert !At(init, FULL_RESET, k); }
      }
    }
    if ResetsNowhere(s, j) {
      forall k: nat | j < k < |init| ensures !At(init, FULL_RESET, k) {
        assert !At(s, FULL_RESET, k);
      }
    }
  }

  lemma SavesAfterResetIs(s: string)
    ensures SavesAfterReset(s) <==> Contains(s, FULL_RESET) && SavesLast(s)
  {
    FindSpec(s, FULL_RESET);
    var i := Find(s, FULL_RESET);
    if Contains(s, FULL_RESET) && SavesLast(s) {
      var j: nat :| j < |s| && At(s, SAVE_CURSOR, j) && ResetsNowhere(s, j);
      assert s[i..i + 2][1] == 'c' && s[j..j + 2][1] == '7';
      assert i < j;
    }
  }

  // ---- From one piece to the next ---------------------------------------

  // An escape whose two bytes a removed span had set apart.
  predicate Joins(before: string, piece: string) {
    before != "" && before[|before| - 1] == ESC && piece != "" && (piece[0] == '7' || piece[0] == 'c')
  }

  function Across(saved: bool, before: string, piece: string): bool {
    if Joins(before, piece) then piece[0] == '7' else saved
  }

  lemma {:induction false} LastAcross(saved: bool, a: string, b: string)
    ensures LastDecides(saved, a + b) == LastDecides(Across(LastDecides(saved, a), a, b), b)
    decreases |b|
  {
    if b == "" {
      assert a + b == a;
    } else {
      var s, init := a + b, b[..|b| - 1];
      assert s[..|s| - 1] == a + init;
      if |b| == 1 {
        assert a + init == a;
        if a != "" { assert s[|s| - 2..] == [a[|a| - 1], b[0]]; }
      } else {
        assert s[|s| - 2..] == b[|b| - 2..];
        LastAcross(saved, a, init);
      }
    }
  }

  // The next piece makes the flag wrong: it saves the cursor again after a reset, or
  // holds no escape of its own and completes one that changes the flag.
  predicate Misjudged(saved: bool, before: string, piece: string) {
    || SavesAfterReset(piece)
    || (Joins(before, piece) && (piece[0] == '7') != saved
        && !Contains(piece, FULL_RESET) && !Contains(piece, SAVE_CURSOR))
  }

  lemma PieceIsJudgedExactly(saved: bool, before: string, piece: string)
    requires saved == LastDecides(false, before)
    ensures FeedSaved(saved, piece) == LastDecides(false, before + piece) <==> !Misjudged(saved, before, piece)
  {
    hide Find, LastDecides;
    LastAcross(false, before, piece);
    LastDecidesBySaved(piece);
    LastDecidesByPlace(piece);
    SavesAfterResetIs(piece);
  }

  lemma {:induction false} FlaggedSnoc(saved: bool, pieces: seq<string>, piece: string)
    ensures Flagged(saved, pieces + [piece]) == FeedSaved(Flagged(saved, pieces), piece)
    decreases |pieces|
  {
    hide Find, FeedSaved;
    if pieces == [] {
      assert pieces + [piece] == [piece];
      assert [piece][1..] == [];
    } else {
      assert (pieces + [piece])[1..] == pieces[1..] + [piece];
      FlaggedSnoc(FeedSaved(saved, pieces[0]), pieces[1..], piece);
    }
  }

  // ---- Over a whole run -------------------------------------------------

  // The flag after so many pieces, and the bytes the shadow has been fed by then.
  predicate Right(pieces: seq<string>, n: nat)
    requires n <= |pieces|
  {
    Flagged(false, pieces[..n]) == LastDecides(false, Concat(pieces[..n]))
  }

  predicate Wrongs(pieces: seq<string>, n: nat)
    requires n < |pieces|
  {
    Misjudged(Flagged(false, pieces[..n]), Concat(pieces[..n]), pieces[n])
  }

  lemma NextPiece(pieces: seq<string>, n: nat)
    requires n < |pieces| && Right(pieces, n)
    ensures Right(pieces, n + 1) <==> !Wrongs(pieces, n)
  {
    hide LastDecides, Misjudged, FeedSaved;
    assert pieces[..n + 1] == pieces[..n] + [pieces[n]];
    FlaggedSnoc(false, pieces[..n], pieces[n]);
    ConcatAppend(pieces[..n], pieces[n]);
    PieceIsJudgedExactly(Flagged(false, pieces[..n]), Concat(pieces[..n]), pieces[n]);
  }

  lemma {:induction false} RightSoFar(pieces: seq<string>, n: nat)
    requires n <= |pieces|
    ensures (forall m: nat | m <= n :: Right(pieces, m)) <==> (forall m: nat | m < n :: !Wrongs(pieces, m))
  {
    if n == 0 {
      assert pieces[..0] == [];
      assert Right(pieces, 0);
    } else {
      RightSoFar(pieces, n - 1);
      hide Right, Wrongs;
      if Right(pieces, n - 1) { NextPiece(pieces, n - 1); }
      if forall m: nat | m < n :: !Wrongs(pieces, m) {
        assert forall m: nat | m <= n - 1 :: Right(pieces, m);
      }
      if forall m: nat | m <= n :: Right(pieces, m) {
        assert Right(pieces, n - 1) && Right(pieces, n);
      }
    }
  }

  // The pieces fed to the primary shadow by a run of reads, one after the other.
  function AllPieces(r: Mirrored, chunks: seq<string>): seq<string>
    decreases chunks
  {
    if chunks == [] then []
    else Pieces(r.alternate, r.pending + chunks[0]) + AllPieces(Continue(r, chunks[0]), chunks[1..])
  }

  lemma {:induction false} ConcatMore(first: seq<string>, more: seq<string>)
    ensures Concat(first + more) == Concat(first) + Concat(more)
  {
    if first == [] {
      assert first + more == more;
    } else {
      ConcatMore(first[1..], more);
      assert (first + more)[1..] == first[1..] + more;
      assert first[0] + (Concat(first[1..]) + Concat(more)) == first[0] + Concat(first[1..]) + Concat(more);
    }
  }

  lemma {:induction false} AllPiecesAreFed(r: Mirrored, chunks: seq<string>)
    ensures r.fed + Concat(AllPieces(r, chunks)) == RunAll(r, chunks).fed
    decreases chunks
  {
    hide Pieces, Run;
    if chunks == [] {
      assert r.fed + "" == r.fed;
    } else {
      var next := Continue(r, chunks[0]);
      var first, more := Pieces(r.alternate, r.pending + chunks[0]), AllPieces(next, chunks[1..]);
      PiecesAreFed(r.alternate, r.pending + chunks[0]);
      AllPiecesAreFed(next, chunks[1..]);
      ConcatMore(first, more);
      assert r.fed + (Concat(first) + Concat(more)) == r.fed + Concat(first) + Concat(more);
    }
  }

  const Start: Mirrored := Mirrored("", false, "")

  // For every stream in any reads: the flag is right after every piece fed to the
  // primary shadow exactly when no piece saves the cursor again after a reset in it,
  // and none completes an escape across a removed span that changes the flag.
  lemma SavedCursorIsExactly(chunks: seq<string>)
    ensures var pieces := AllPieces(Start, chunks);
            && Concat(pieces) == RunAll(Start, chunks).fed
            && ((forall n: nat | n <= |pieces| :: Right(pieces, n)) <==> (forall n: nat | n < |pieces| :: !Wrongs(pieces, n)))
  {
    var pieces := AllPieces(Start, chunks);
    AllPiecesAreFed(Start, chunks);
    assert "" + Concat(pieces) == Concat(pieces);
    RightSoFar(pieces, |pieces|);
  }

  // An escape is only ever set apart by a removed span: where a read ends, the start of
  // an escape is held back and fed together with what follows.
  lemma ReadsDoNotSplitEscapes(a: string, b: string)
    requires Find(a, Enter()) == |a| && Pieces(false, Run(false, a).pending + b) != []
    requires Find(Run(false, a).pending + b, Enter()) != 0
    ensures !Joins(Run(false, a).fed, Pieces(false, Run(false, a).pending + b)[0])
  {
    hide Find, Pieces, Run;
    RunStayed(a);
    var keep := Confirmed(a);
    var s := Run(false, a).pending + b;
    if keep > 0 && a[keep - 1] == ESC {
      EscapeIsHeld(a);
      FirstPiece(s);
    }
  }

  lemma EscapeIsHeld(a: string)
    requires Confirmed(a) > 0 && a[Confirmed(a) - 1] == ESC
    ensures Confirmed(a) < |a| && a[Confirmed(a)] == ESC
  {
    var keep := Confirmed(a);
    if keep == |a| {
      assert a[|a| - 1..] == [ESC] == Enter()[..1];
      assert EndsInPrefix(a, Enter(), 1);
    }
    assert EndsInPrefix(a, Enter(), |a| - keep);
    assert a[keep..][0] == Enter()[..|a| - keep][0];
  }

  lemma FirstPiece(s: string)
    requires s != "" && Pieces(false, s) != [] && Find(s, Enter()) != 0
    ensures Pieces(false, s)[0] != "" && Pieces(false, s)[0][0] == s[0]
  {
    hide Find, Pieces, Enter;
    if Find(s, Enter()) == |s| {
      PiecesStayed(s);
    } else {
      PiecesEntered(s);
    }
  }

  // ---- Both failures happen ---------------------------------------------

  lemma OneRead(s: string)
    ensures AllPieces(Start, [s]) == Pieces(false, s)
  {
    hide Pieces, Run;
    assert "" + s == s;
    assert [s][1..] == [];
    assert Pieces(false, s) + [] == Pieces(false, s);
  }

  lemma OnlyPiece(s: string)
    requires s != "" && (forall i: nat | i < |s| :: !At(s, Enter(), i)) && s[|s| - 1] != ESC
    requires forall k | 1 < k < 8 :: !EndsInPrefix(s, Enter(), k)
    ensures Pieces(false, s) == [s]
  {
    hide Pieces, Find;
    FindIs(s, Enter(), |s|);
    PiecesStayed(s);
    assert EndsInPrefix(s, Enter(), HeldEnter(s));
    assert !EndsInPrefix(s, Enter(), 1);
    assert s[..|s|] == s;
  }

  lemma NothingWrong(pieces: seq<string>)
    ensures Right(pieces, 0)
  {
    assert pieces[..0] == [];
  }

  // A reset and then a save in one read: the shadow has a saved cursor, the flag not.
  lemma ResetThenSave()
    ensures var pieces := AllPieces(Start, [FULL_RESET + SAVE_CURSOR]);
            pieces == [FULL_RESET + SAVE_CURSOR] && !Right(pieces, 1)
  {
    var s := FULL_RESET + SAVE_CURSOR;
    ResetThenSavePiece(s);
    hide *;
    OneRead(s);
    NothingWrong([s]);
    NextPiece([s], 0);
    SavesAfter(s);
    WrongAfterReset([s], 0);
  }

  lemma ResetThenSavePiece(s: string)
    requires s == FULL_RESET + SAVE_CURSOR
    ensures Pieces(false, s) == [s]
  {
    forall k | 1 < k < 8 ensures !EndsInPrefix(s, Enter(), k) {
      if k <= 4 { assert s[|s| - k..][1] != '[' && Enter()[..k][1] == '['; }
    }
    hide Pieces;
    OnlyPiece(s);
  }

  lemma SavesAfter(s: string)
    requires s == FULL_RESET + SAVE_CURSOR
    ensures SavesAfterReset(s)
  {
    assert s[0..2] == FULL_RESET && s[2..4] == SAVE_CURSOR;
    assert At(s, FULL_RESET, 0) && At(s, SAVE_CURSOR, 2) && ResetsNowhere(s, 2);
  }

  lemma WrongAfterReset(pieces: seq<string>, n: nat)
    requires n < |pieces| && SavesAfterReset(pieces[n])
    ensures Wrongs(pieces, n)
  {
  }

  // A save cut in two by a visit to the alternate screen: likewise.
  lemma SaveAcrossSpan()
    ensures var pieces := AllPieces(Start, [[ESC] + Enter() + Leave() + "7"]);
            pieces == [[ESC], "7"] && !Right(pieces, 2)
  {
    var s := [ESC] + Enter() + Leave() + "7";
    SpanPieces(s);
    hide *;
    OneRead(s);
    NothingWrong([[ESC], "7"]);
    NextPiece([[ESC], "7"], 0);
    NextPiece([[ESC], "7"], 1);
    ShortPieces();
  }

  lemma ShortPieces()
    ensures !Wrongs([[ESC], "7"], 0) && Wrongs([[ESC], "7"], 1)
  {
    var pieces := [[ESC], "7"];
    hide Find;
    ShortHasNone([ESC]);
    ShortHasNone("7");
    assert pieces[..0] == [] && pieces[..1] == [[ESC]] && [[ESC]][1..] == [];
    assert Concat([[ESC]]) == [ESC];
    assert Flagged(false, [[ESC]]) == FeedSaved(false, [ESC]) == false;
  }

  lemma SpanPieces(s: string)
    requires s == [ESC] + Enter() + Leave() + "7"
    ensures Pieces(false, s) == [[ESC], "7"]
  {
    var tail := Leave() + "7";
    assert s[1..9] == Enter() && s[9..] == tail && s[..1] == [ESC];
    assert At(s, Enter(), 1);
    assert !At(s, Enter(), 0) by { assert s[0..8][1] == ESC; }
    assert tail[0..8] == Leave() && tail[8..] == "7";
    assert At(tail, Leave(), 0);
    assert !EndsInPrefix("7", Enter(), 1);
    hide Pieces, Find;
    OnlyPiece("7");
    FindIs(s, Enter(), 1);
    FindIs(tail, Leave(), 0);
    PiecesEntered(s);
    PiecesLeft(tail);
  }

  lemma ShortHasNone(s: string)
    requires |s| == 1
    ensures !Contains(s, FULL_RESET) && !Contains(s, SAVE_CURSOR) && !SavesAfterReset(s)
  {
    FindSpec(s, FULL_RESET);
    FindSpec(s, SAVE_CURSOR);
    SavesAfterResetIs(s);
  }
}
