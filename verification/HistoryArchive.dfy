// The long scrollback of a pane: the rows Ghostty evicts from its finite history
// (history_tracker.go), the archive that numbers and batches them (history_archive.go), and
// the rows of the history database (persistence/history/store.go) for one pane.
// A row is its rendered text. Line numbers are unbounded, where the daemon's wrap at 2^64.
module HistoryArchive {
  import opened Text

  const TARGET_BATCH_BYTES: nat := 0x10_0000

  datatype Line = Line(number: nat, text: string)

  function Numbered(first: nat, texts: seq<string>): (r: seq<Line>)
    ensures |r| == |texts|
  {
    seq(|texts|, i requires 0 <= i < |texts| => Line(first + i, texts[i]))
  }

  function TextsOf(lines: seq<Line>): (r: seq<string>)
    ensures |r| == |lines|
  {
    seq(|lines|, i requires 0 <= i < |lines| => lines[i].text)
  }

  // ---- The database ------------------------------------------------------

  // A batch of rows under one first line; its last line follows from their number.
  datatype Batch = Batch(first: nat, lines: seq<Line>)

  function Last(b: Batch): int {
    b.first + |b.lines| - 1
  }

  // The pane's batches in first-line order.
  function NextLine(batches: seq<Batch>): nat {
    if batches == [] then 0 else Last(batches[|batches| - 1]) + 1
  }

  // Append rejects an empty batch, and one that leaves a gap after the last.
  predicate Accepts(batches: seq<Batch>, b: Batch) {
    b.lines != [] && (batches == [] || b.first == NextLine(batches))
  }

  predicate Meets(b: Batch, first: nat, last: nat) {
    Last(b) >= first && b.first <= last
  }

  // Load: the batches that meet the range.
  function Loaded(batches: seq<Batch>, first: nat, last: nat): seq<Batch> {
    if batches == [] then []
    else
      var b := batches[|batches| - 1];
      Loaded(batches[..|batches| - 1], first, last) + if Meets(b, first, last) then [b] else []
  }

  function Texts(batches: seq<Batch>): seq<string> {
    if batches == [] then [] else Texts(batches[..|batches| - 1]) + TextsOf(batches[|batches| - 1].lines)
  }

  function Decoded(batches: seq<Batch>): seq<Line> {
    if batches == [] then [] else Decoded(batches[..|batches| - 1]) + batches[|batches| - 1].lines
  }

  // The committed rows are numbered from `base` without a gap, and each batch with them.
  predicate Contiguous(batches: seq<Batch>, base: nat) {
    batches == [] ||
    var n := |batches| - 1;
    && Contiguous(batches[..n], base) && batches[n].lines != []
    && batches[n].first == base + |Texts(batches[..n])|
    && batches[n].lines == Numbered(batches[n].first, TextsOf(batches[n].lines))
  }

  // ---- The archive -------------------------------------------------------

  datatype Archive = Archive(enabled: bool, next: nat, pending: seq<string>, bytes: nat, batches: seq<Batch>)

  function LineCount(a: Archive): nat {
    a.next + |a.pending|
  }

  // The first line still stored. Clearing the database moves it up to `next`.
  function Base(a: Archive): int {
    a.next - |Texts(a.batches)|
  }

  // The archive as one list: committed rows, then the rows waiting for a batch.
  function Logical(a: Archive): seq<string> {
    Texts(a.batches) + a.pending
  }

  predicate Sound(a: Archive) {
    0 <= Base(a) && Contiguous(a.batches, Base(a))
  }

  function InRange(lines: seq<Line>, first: nat, last: nat): seq<Line> {
    if lines == [] then []
    else
      var l := lines[|lines| - 1];
      InRange(lines[..|lines| - 1], first, last) + if first <= l.number <= last then [l] else []
  }

  // Lines: an inclusive range. An empty one is an error.
  function Lines(a: Archive, first: nat, last: int): Option<seq<Line>> {
    if last < first then None
    else Some(InRange(Decoded(Loaded(a.batches, first, last)), first, last) + InRange(Numbered(a.next, a.pending), first, last))
  }

  // flushLocked.
  function Flushed(a: Archive): Archive {
    var b := Batch(a.next, Numbered(a.next, a.pending));
    if a.pending == [] || !Accepts(a.batches, b) then a
    else a.(next := a.next + |a.pending|, pending := [], bytes := 0, batches := a.batches + [b])
  }

  function Size(rows: seq<string>): nat {
    if rows == [] then 0 else Size(rows[..|rows| - 1]) + |rows[|rows| - 1]|
  }

  // Record's archive half, given the rows the tracker collected.
  function Recorded(a: Archive, rows: seq<string>): Archive {
    if !a.enabled || rows == [] then a
    else
      var grown := a.(pending := a.pending + rows, bytes := a.bytes + Size(rows));
      if grown.bytes < TARGET_BATCH_BYTES then grown else Flushed(grown)
  }

  // SetEnabled: changing it drops what waits.
  function Switched(a: Archive, enabled: bool): Archive {
    if a.enabled == enabled then a else a.(enabled := enabled, pending := [], bytes := 0)
  }

  function Cleared(a: Archive): Archive {
    a.(batches := [])
  }

  // ---- Lines are a slice -------------------------------------------------

  // The rows numbered from `from` up to `to` of a list numbered from `base`.
  function Rows(base: nat, texts: seq<string>, from: nat, to: nat): (r: seq<Line>)
    requires base <= from <= to <= base + |texts|
    ensures |r| == to - from
  {
    Numbered(from, texts[from - base..to - base])
  }

  function Clamp(x: int, lo: nat, hi: nat): (r: nat)
    requires lo <= hi
    ensures lo <= r <= hi && (lo <= x <= hi ==> r == x)
  {
    if x < lo then lo else if x > hi then hi else x
  }

  // A list without its last row.
  lemma RowsOfShorter(base: nat, texts: seq<string>, from: nat, to: nat)
    requires texts != [] && base <= from <= to <= base + |texts|
    ensures var n := |texts| - 1;
            && (to <= base + n ==> Rows(base, texts, from, to) == Rows(base, texts[..n], from, to))
            && (from <= base + n && to == base + |texts| ==>
                  Rows(base, texts, from, to) == Rows(base, texts[..n], from, base + n) + [Line(base + n, texts[n])])
            && (from == to ==> Rows(base, texts, from, to) == [])
  {
  }

  lemma NoRows(base: nat, texts: seq<string>, at: nat)
    requires base <= at <= base + |texts|
    ensures Rows(base, texts, at, at) == []
  {
  }

  lemma {:induction false} InRangeNumbered(base: nat, texts: seq<string>, first: nat, last: nat)
    requires first <= last
    ensures var end := base + |texts|; var from := Clamp(first, base, end); var to := Clamp(last + 1, base, end);
            from <= to && InRange(Numbered(base, texts), first, last) == Rows(base, texts, from, to)
  {
    hide Rows;
    var end := base + |texts|;
    if texts == [] {
      NoRows(base, texts, base);
    } else {
      var n := |texts| - 1;
      InRangeNumbered(base, texts[..n], first, last);
      RowsOfShorter(base, texts, Clamp(first, base, end), Clamp(last + 1, base, end));
      if first > base + n { NoRows(base, texts[..n], base + n); }
      assert Numbered(base, texts)[..n] == Numbered(base, texts[..n]);
      assert Numbered(base, texts)[n] == Line(base + n, texts[n]);
    }
  }

  lemma {:induction false} InRangeAppend(a: seq<Line>, b: seq<Line>, first: nat, last: nat)
    ensures InRange(a + b, first, last) == InRange(a, first, last) + InRange(b, first, last)
  {
    if b == [] {
      assert a + b == a;
    } else {
      var n := |b| - 1;
      InRangeAppend(a, b[..n], first, last);
      assert (a + b)[..|a + b| - 1] == a + b[..n];
      var one := if first <= b[n].number <= last then [b[n]] else [];
      assert InRange(a, first, last) + (InRange(b[..n], first, last) + one)
          == InRange(a, first, last) + InRange(b[..n], first, last) + one;
    }
  }

  lemma NumberedAppend(base: nat, a: seq<string>, b: seq<string>)
    ensures Numbered(base, a + b) == Numbered(base, a) + Numbered(base + |a|, b)
  {
  }

  // A batch outside the range has no line in it.
  lemma BatchOutside(b: Batch, first: nat, last: nat)
    requires first <= last && b.lines == Numbered(b.first, TextsOf(b.lines))
    requires Last(b) < first || last < b.first
    ensures InRange(b.lines, first, last) == []
  {
    InRangeNumbered(b.first, TextsOf(b.lines), first, last);
    var end := b.first + |b.lines|;
    NoRows(b.first, TextsOf(b.lines), Clamp(first, b.first, end));
  }

  lemma DecodedMore(batches: seq<Batch>, b: Batch)
    ensures Decoded(batches + [b]) == Decoded(batches) + b.lines && Texts(batches + [b]) == Texts(batches) + TextsOf(b.lines)
  {
    assert (batches + [b])[..|batches|] == batches;
  }

  lemma LoadedMore(batches: seq<Batch>, first: nat, last: nat)
    requires batches != []
    ensures var n := |batches| - 1;
            Loaded(batches, first, last) == Loaded(batches[..n], first, last) + if Meets(batches[n], first, last) then [batches[n]] else []
  {
  }

  lemma ContiguousParts(batches: seq<Batch>, base: nat)
    requires batches != [] && Contiguous(batches, base)
    ensures var n := |batches| - 1; var b := batches[n]; var before := Texts(batches[..n]);
            && Contiguous(batches[..n], base) && b.first == base + |before|
            && b.lines == Numbered(b.first, TextsOf(b.lines)) && Texts(batches) == before + TextsOf(b.lines)
  {
  }

  // One batch more, loaded or not.
  lemma OneBatchMore(kept: seq<Batch>, b: Batch, first: nat, last: nat)
    requires first <= last && b.lines == Numbered(b.first, TextsOf(b.lines))
    ensures var loaded := kept + if Meets(b, first, last) then [b] else [];
            InRange(Decoded(loaded), first, last) == InRange(Decoded(kept), first, last) + InRange(b.lines, first, last)
  {
    hide InRange, Numbered, TextsOf, Decoded;
    if Meets(b, first, last) {
      DecodedMore(kept, b);
      InRangeAppend(Decoded(kept), b.lines, first, last);
    } else {
      BatchOutside(b, first, last);
      assert kept + [] == kept;
    }
  }

  // The batches that Load leaves out have no line in the range.
  lemma {:induction false} LoadLosesNothing(batches: seq<Batch>, base: nat, first: nat, last: nat)
    requires Contiguous(batches, base) && first <= last
    ensures InRange(Decoded(Loaded(batches, first, last)), first, last) == InRange(Numbered(base, Texts(batches)), first, last)
  {
    if batches == [] {
      assert Numbered(base, []) == [];
    } else {
      hide InRange, Numbered, TextsOf, Decoded, Contiguous, Texts, Loaded, Meets;
      var n := |batches| - 1;
      var b := batches[n];
      var before := Texts(batches[..n]);
      ContiguousParts(batches, base);
      LoadLosesNothing(batches[..n], base, first, last);
      NumberedAppend(base, before, TextsOf(b.lines));
      InRangeAppend(Numbered(base, before), b.lines, first, last);
      LoadedMore(batches, first, last);
      OneBatchMore(Loaded(batches[..n], first, last), b, first, last);
    }
  }

  // Lines is exactly the asked-for slice of the one list, as far as it is still stored;
  // where the last batch ends cannot be seen.
  lemma LinesAreASlice(a: Archive, first: nat, last: nat)
    requires Sound(a) && first <= last
    ensures var base := Base(a); var from := Clamp(first, base, LineCount(a)); var to := Clamp(last + 1, base, LineCount(a));
            from <= to && Lines(a, first, last) == Some(Rows(base, Logical(a), from, to))
  {
    var texts, base := Texts(a.batches), Base(a);
    hide InRange, Numbered, Decoded, Contiguous, Texts, Rows;
    LoadLosesNothing(a.batches, base, first, last);
    NumberedAppend(base, texts, a.pending);
    InRangeAppend(Numbered(base, texts), Numbered(a.next, a.pending), first, last);
    InRangeNumbered(base, Logical(a), first, last);
  }

  lemma SoundSizes(a: Archive)
    requires Sound(a)
    ensures 0 <= Base(a) <= a.next && |Logical(a)| == LineCount(a) - Base(a)
  {
  }

  // ---- What flushing and clearing leave ---------------------------------

  lemma NextIsNext(batches: seq<Batch>, base: nat)
    requires Contiguous(batches, base) && batches != []
    ensures NextLine(batches) == base + |Texts(batches)|
  {
  }

  lemma TextsOfNumbered(first: nat, texts: seq<string>)
    ensures TextsOf(Numbered(first, texts)) == texts
  {
  }

  lemma ContiguousMore(batches: seq<Batch>, base: nat, b: Batch)
    requires Contiguous(batches, base) && b.lines != []
    requires b.first == base + |Texts(batches)| && b.lines == Numbered(b.first, TextsOf(b.lines))
    ensures Contiguous(batches + [b], base)
  {
    hide Numbered, TextsOf, Texts;
    assert (batches + [b])[..|batches|] == batches;
  }

  // A flush is always accepted, and moves what waits into the database.
  lemma FlushIsAccepted(a: Archive)
    requires Sound(a) && a.pending != []
    ensures Accepts(a.batches, Batch(a.next, Numbered(a.next, a.pending)))
    ensures Flushed(a).pending == [] && NextLine(Flushed(a).batches) == LineCount(a)
  {
    hide Contiguous, Numbered;
    if a.batches != [] { NextIsNext(a.batches, Base(a)); }
  }

  lemma FlushKeepsTheList(a: Archive)
    requires Sound(a)
    ensures var f := Flushed(a);
            Sound(f) && Base(f) == Base(a) && Logical(f) == Logical(a) && LineCount(f) == LineCount(a)
  {
    if a.pending != [] {
      FlushIsAccepted(a);
      hide Accepts, Contiguous, Texts, Numbered, TextsOf;
      var b := Batch(a.next, Numbered(a.next, a.pending));
      TextsOfNumbered(a.next, a.pending);
      ContiguousMore(a.batches, Base(a), b);
      DecodedMore(a.batches, b);
      assert Texts(a.batches) + a.pending + [] == Texts(a.batches) + a.pending;
    }
  }

  // Nobody can tell whether rows have been flushed.
  lemma FlushIsInvisible(a: Archive, first: nat, last: int)
    requires Sound(a)
    ensures var f := Flushed(a);
            && Sound(f) && Base(f) == Base(a) && Logical(f) == Logical(a) && LineCount(f) == LineCount(a)
            && Lines(f, first, last) == Lines(a, first, last)
  {
    FlushKeepsTheList(a);
    if first <= last {
      hide Flushed, Sound, Lines, Logical, Base;
      LinesAreASlice(a, first, last);
      LinesAreASlice(Flushed(a), first, last);
    }
  }

  // Clearing keeps the numbers of what waits and of what will come.
  lemma ClearKeepsNumbers(a: Archive)
    requires Sound(a)
    ensures var c := Cleared(a);
            Sound(c) && Base(c) == a.next && LineCount(c) == LineCount(a) && Logical(c) == a.pending
  {
    assert [] + a.pending == a.pending;
  }

  lemma RecordAppends(a: Archive, rows: seq<string>)
    requires Sound(a) && a.enabled
    ensures var r := Recorded(a, rows);
            && Sound(r) && r.enabled && Base(r) == Base(a)
            && Logical(r) == Logical(a) + rows && LineCount(r) == LineCount(a) + |rows|
  {
    if rows == [] {
      assert Logical(a) + rows == Logical(a);
    } else {
      var grown := a.(pending := a.pending + rows, bytes := a.bytes + Size(rows));
      assert Texts(a.batches) + (a.pending + rows) == Texts(a.batches) + a.pending + rows;
      hide Flushed, Lines, Contiguous;
      FlushIsInvisible(grown, 0, 0);
      FlushKeepsEnabled(grown);
    }
  }

  lemma FlushKeepsEnabled(a: Archive)
    ensures Flushed(a).enabled == a.enabled && (a.pending == [] ==> Flushed(a) == a)
  {
  }

  // What waits is counted right, and is less than a batch.
  predicate Counted(a: Archive) {
    a.bytes == Size(a.pending) < TARGET_BATCH_BYTES
  }

  lemma {:induction false} SizeAppend(a: seq<string>, b: seq<string>)
    ensures Size(a + b) == Size(a) + Size(b)
  {
    if b == [] {
      assert a + b == a;
    } else {
      var n := |b| - 1;
      SizeAppend(a, b[..n]);
      assert (a + b)[..|a + b| - 1] == a + b[..n];
    }
  }

  // Recorded rows join those that wait; all of them are committed, as one batch, exactly
  // when together they reach 1 MiB, so that less than that ever waits. An archive that is
  // off takes none.
  lemma RecordedExactly(a: Archive, rows: seq<string>)
    requires Sound(a) && Counted(a)
    ensures var r := Recorded(a, rows); var waiting := a.pending + rows;
            && Counted(r) && r.enabled == a.enabled
            && if !a.enabled then r == a
               else if Size(waiting) < 1048576 then
                 r.pending == waiting && r.batches == a.batches && r.next == a.next
               else
                 && r.pending == [] && r.next == a.next + |waiting|
                 && r.batches == a.batches + [Batch(a.next, Numbered(a.next, waiting))]
  {
    hide Sound, Numbered, Accepts, Contiguous;
    SizeAppend(a.pending, rows);
    assert a.pending + [] == a.pending;
    if a.enabled && rows != [] {
      var grown := a.(pending := a.pending + rows, bytes := a.bytes + Size(rows));
      SameSound(a, grown);
      FlushIsAccepted(grown);
    }
  }

  lemma SameSound(a: Archive, b: Archive)
    requires Sound(a) && b.next == a.next && b.batches == a.batches
    ensures Sound(b)
  {
  }

  // ---- Eviction ----------------------------------------------------------

  // `rows` is every row that has scrolled off the primary screen, of which Ghostty still
  // has those from `live` on; the tracker follows the ones from `from` up to `to`, and none
  // while the archive is off.
  datatype World = World(archive: Archive, rows: seq<string>, live: nat, from: nat, to: nat)

  datatype Step =
    | Update(more: seq<string>, live: nat)
    | Record
    | Flush
    | Clear
    | Switch(enabled: bool)
    | TakeOver  // another process opens the archive where the database ends

  predicate Enabled(w: World, step: Step) {
    step.Update? ==> w.live <= step.live <= |w.rows| + |step.more|
  }

  // Collect: the followed rows that are gone; then every live row is followed.
  function Collected(w: World): seq<string>
    requires w.from <= w.to <= |w.rows|
  {
    w.rows[w.from..Clamp(w.live, w.from, w.to)]
  }

  predicate Following(w: World) {
    && w.from <= w.live <= |w.rows| && w.from <= w.to <= |w.rows| && Sound(w.archive)
    && (!w.archive.enabled ==> w.archive.pending == [])
  }

  // NewHistoryArchive over what is committed.
  function Reopened(a: Archive): Archive {
    Archive(a.enabled, NextLine(a.batches), [], 0, a.batches)
  }

  function Apply(w: World, step: Step): World
    requires Following(w) && Enabled(w, step)
  {
    match step
    case Update(more, live) => w.(rows := w.rows + more, live := live)
    case Record =>
      if !w.archive.enabled then w
      else w.(archive := Recorded(w.archive, Collected(w)), from := w.live, to := |w.rows|)
    case Flush => w.(archive := Flushed(w.archive))
    case Clear => w.(archive := Cleared(w.archive))
    case Switch(enabled) =>
      if w.archive.enabled == enabled then w
      else w.(archive := Switched(w.archive, enabled), from := w.live, to := if enabled then |w.rows| else w.live)
    case TakeOver => w.(archive := Reopened(w.archive), from := w.live, to := if w.archive.enabled then |w.rows| else w.live)
  }

  // The list a user can page through: the archive and every row since it last collected,
  // or, while it is off, the rows Ghostty still has.
  function Whole(w: World): seq<string>
    requires w.from <= w.live <= |w.rows|
  {
    Logical(w.archive) + w.rows[if w.archive.enabled then w.from else w.live..]
  }

  lemma ReopenedIs(a: Archive)
    requires Sound(a)
    ensures var r := Reopened(a);
            && Sound(r) && Logical(r) == Texts(a.batches) && LineCount(r) == NextLine(a.batches)
            && (a.batches != [] ==> NextLine(a.batches) == a.next && Base(r) == Base(a))
            && (a.batches == [] ==> Base(r) == 0 && Base(a) == a.next)
  {
    assert Texts(a.batches) + [] == Texts(a.batches);
    if a.batches != [] { NextIsNext(a.batches, Base(a)); }
  }

  lemma SwitchedIs(a: Archive, enabled: bool)
    requires Sound(a) && a.enabled != enabled
    ensures var r := Switched(a, enabled);
            Sound(r) && Logical(r) == Texts(a.batches) && LineCount(r) == a.next && Base(r) == Base(a) && r.pending == []
  {
    assert Texts(a.batches) + [] == Texts(a.batches);
  }

  lemma StepKeepsFollowing(w: World, step: Step)
    requires Following(w) && Enabled(w, step)
    ensures Following(Apply(w, step))
  {
    hide Sound, Recorded, Flushed, Base, Lines, Logical, Reopened, Switched, NextLine;
    match step
    case Update(_, _) =>
    case Record => if w.archive.enabled { RecordAppends(w.archive, Collected(w)); }
    case Flush => FlushIsInvisible(w.archive, 0, 0); FlushKeepsEnabled(w.archive);
    case Clear => ClearKeepsNumbers(w.archive);
    case Switch(enabled) => if w.archive.enabled != enabled { SwitchedIs(w.archive, enabled); }
    case TakeOver => ReopenedIs(w.archive); ReopenedHas(w.archive);
  }

  lemma ReopenedHas(a: Archive)
    ensures Reopened(a).pending == [] && Reopened(a).enabled == a.enabled
  {
  }

  // Recording loses no row exactly when none left Ghostty's history between two
  // collections without having been seen by the first.
  lemma RecordIsSeamlessExactly(w: World)
    requires Following(w) && w.archive.enabled
    ensures Whole(Apply(w, Record)) == Whole(w) <==> w.live <= w.to
  {
    hide Sound, Recorded, Base, Logical;
    RecordAppends(w.archive, Collected(w));
    var after := Apply(w, Record);
    if w.live <= w.to {
      assert w.rows[w.from..] == w.rows[w.from..w.live] + w.rows[w.live..];
    } else {
      assert |Whole(after)| < |Whole(w)|;
    }
  }

  predicate Valid(w: World, steps: seq<Step>)
    requires Following(w)
    decreases |steps|
  {
    steps == [] ||
    (Enabled(w, steps[0]) && (StepKeepsFollowing(w, steps[0]); Valid(Apply(w, steps[0]), steps[1..])))
  }

  function Run(w: World, steps: seq<Step>): World
    requires Following(w) && Valid(w, steps)
    decreases |steps|
  {
    if steps == [] then w
    else StepKeepsFollowing(w, steps[0]); Run(Apply(w, steps[0]), steps[1..])
  }

  // What a step may do to the list: add rows at its end, and drop rows from its front with
  // their numbers.
  predicate Continues(w: World, later: World) {
    && w.from <= w.live <= |w.rows| && later.from <= later.live <= |later.rows| && w.rows <= later.rows
    && 0 <= Base(w.archive) <= Base(later.archive) <= Base(w.archive) + |Whole(w)| + |later.rows| - |w.rows|
    && Whole(later) == (Whole(w) + later.rows[|w.rows|..])[Base(later.archive) - Base(w.archive)..]
  }

  // Exactly when a step does no more: while the archive is on, no row leaves Ghostty's
  // history unseen; while it is off, none leaves at all; it is switched off, or opened by
  // another process, when no row waits for a batch or to be collected; and it is not
  // opened anew after a clear, when nothing in the database tells where the numbers were.
  predicate Keeps(w: World, step: Step) {
    match step
    case Update(_, live) => w.archive.enabled || live == w.live
    case Record => w.archive.enabled ==> w.live <= w.to
    case Switch(enabled) => w.archive.enabled && !enabled ==> Nothing(w)
    case TakeOver =>
      (w.archive.enabled ==> Nothing(w)) && (w.archive.batches != [] || w.archive.next == 0)
    case _ => true
  }

  // No evicted row waits.
  predicate Nothing(w: World) {
    w.archive.pending == [] && w.from == w.live
  }

  lemma UpdateContinuesExactly(w: World, more: seq<string>, live: nat)
    requires Following(w) && Enabled(w, Update(more, live))
    ensures Continues(w, Apply(w, Update(more, live))) <==> Keeps(w, Update(more, live))
  {
    hide Logical, Sound;
    SoundSizes(w.archive);
    var from := if w.archive.enabled then w.from else w.live;
    var rows := w.rows + more;
    assert rows[|w.rows|..] == more && rows[from..] == w.rows[from..] + more;
    assert Logical(w.archive) + (w.rows[from..] + more) == Whole(w) + more;
    assert (Whole(w) + more)[0..] == Whole(w) + more;
    if !Keeps(w, Update(more, live)) {
      assert |Whole(Apply(w, Update(more, live)))| < |Whole(w) + more|;
    }
  }

  // A step that leaves the terminal and the front of the list alone.
  lemma SameFrontContinues(w: World, later: World)
    requires Following(w) && later.rows == w.rows && later.from <= later.live <= |w.rows|
    requires Base(later.archive) == Base(w.archive)
    ensures Continues(w, later) <==> Whole(later) == Whole(w)
  {
    hide Logical, Sound, Base, Whole;
    SoundSizes(w.archive);
    assert w.rows[|w.rows|..] == [] && (Whole(w) + [])[0..] == Whole(w);
  }

  lemma ClearContinues(w: World)
    requires Following(w)
    ensures Continues(w, Apply(w, Clear))
  {
    hide Sound;
    SoundSizes(w.archive);
    ClearKeepsNumbers(w.archive);
    var committed := |Texts(w.archive.batches)|;
    var rest := w.rows[if w.archive.enabled then w.from else w.live..];
    assert w.rows[|w.rows|..] == [];
    assert Whole(w) + [] == Texts(w.archive.batches) + (w.archive.pending + rest);
    assert (Whole(w) + [])[committed..] == w.archive.pending + rest;
  }

  // Taking the rows that wait off the list changes it exactly when there are some.
  lemma WaitingIsShown(w: World, later: World)
    requires Following(w) && later.rows == w.rows && later.from == later.live == w.live
    requires Logical(later.archive) == Texts(w.archive.batches)
    ensures Whole(later) == Whole(w) <==> (w.archive.enabled ==> Nothing(w))
  {
    var texts := Texts(w.archive.batches);
    if w.archive.enabled && !Nothing(w) {
      assert |Whole(later)| < |Whole(w)|;
    } else {
      assert texts + [] == texts;
    }
  }

  lemma SwitchContinuesExactly(w: World, enabled: bool)
    requires Following(w)
    ensures Continues(w, Apply(w, Switch(enabled))) <==> Keeps(w, Switch(enabled))
  {
    var later := Apply(w, Switch(enabled));
    if w.archive.enabled != enabled { SwitchedIs(w.archive, enabled); }
    hide Sound, Base, Whole, Logical, Switched;
    SameFrontContinues(w, later);
    if w.archive.enabled != enabled { WaitingIsShown(w, later); }
  }

  lemma TakeOverContinuesExactly(w: World)
    requires Following(w)
    ensures Continues(w, Apply(w, TakeOver)) <==> Keeps(w, TakeOver)
  {
    var later := Apply(w, TakeOver);
    ReopenedIs(w.archive);
    SoundSizes(w.archive);
    hide Sound, Base, Whole, Logical, Reopened, NextLine;
    WaitingIsShown(w, later);
    if w.archive.batches != [] || w.archive.next == 0 { SameFrontContinues(w, later); }
  }

  lemma StepContinuesExactly(w: World, step: Step)
    requires Following(w) && Enabled(w, step)
    ensures Continues(w, Apply(w, step)) <==> Keeps(w, step)
  {
    hide Continues, Sound, Recorded, Flushed, Logical, Base, Lines;
    match step
    case Update(more, live) => UpdateContinuesExactly(w, more, live);
    case Record =>
      if w.archive.enabled {
        RecordIsSeamlessExactly(w);
        RecordAppends(w.archive, Collected(w));
      }
      SameFrontContinues(w, Apply(w, Record));
    case Flush =>
      FlushIsInvisible(w.archive, 0, 0);
      FlushKeepsEnabled(w.archive);
      SameFrontContinues(w, Apply(w, Flush));
    case Clear => ClearContinues(w);
    case Switch(enabled) => SwitchContinuesExactly(w, enabled);
    case TakeOver => TakeOverContinuesExactly(w);
  }

  lemma ContinuesTrans(a: World, b: World, c: World)
    requires Continues(a, b) && Continues(b, c)
    ensures Continues(a, c)
  {
    hide Base, Whole;
    var i, j := Base(b.archive) - Base(a.archive), Base(c.archive) - Base(b.archive);
    var mid := b.rows[|a.rows|..];
    assert c.rows[|a.rows|..] == mid + c.rows[|b.rows|..];
    var all := Whole(a) + (mid + c.rows[|b.rows|..]);
    assert all == Whole(a) + mid + c.rows[|b.rows|..];
    assert (Whole(a) + mid)[i..] + c.rows[|b.rows|..] == all[i..];
    assert all[i..][j..] == all[i + j..];
  }

  predicate AllKeep(w: World, steps: seq<Step>)
    requires Following(w) && Valid(w, steps)
    decreases |steps|
  {
    steps == [] ||
    (Keeps(w, steps[0]) && (StepKeepsFollowing(w, steps[0]); AllKeep(Apply(w, steps[0]), steps[1..])))
  }

  // Scrollback is one list over time: in every run of such steps, switches and takeovers
  // included, the list only grows at its end, clearing drops its front, and a number that
  // is still there has the row it always had.
  lemma {:induction false} NumbersNeverChange(w: World, steps: seq<Step>)
    requires Following(w) && Valid(w, steps) && AllKeep(w, steps)
    ensures Continues(w, Run(w, steps))
    decreases |steps|
  {
    if steps == [] {
      SameFrontContinues(w, w);
    } else {
      hide Continues, Following, Apply, Keeps;
      StepKeepsFollowing(w, steps[0]);
      var next := Apply(w, steps[0]);
      StepContinuesExactly(w, steps[0]);
      NumbersNeverChange(next, steps[1..]);
      ContinuesTrans(w, next, Run(next, steps[1..]));
    }
  }

  // The daemon's privacy switch clears the database and then turns the archive off. What
  // is left is the live rows, and they keep their numbers exactly when no row waited.
  lemma PrivacySwitchExactly(w: World)
    requires Following(w) && w.archive.enabled && w.from == w.live
    ensures Valid(w, [Clear, Switch(false)])
    ensures var off := Run(w, [Clear, Switch(false)]);
            && Whole(off) == w.rows[w.live..] && LineCount(off.archive) == w.archive.next
            && (Continues(w, off) <==> w.archive.pending == [])
  {
    var cleared := Apply(w, Clear);
    StepKeepsFollowing(w, Clear);
    StepKeepsFollowing(cleared, Switch(false));
    TwoSteps(w, Clear, Switch(false));
    var off := Apply(cleared, Switch(false));
    assert [] + w.rows[w.live..] == w.rows[w.live..];
    assert [] + [] + w.rows[w.live..] == w.rows[w.live..];
    if w.archive.pending == [] {
      hide Continues, Following, Apply;
      StepContinuesExactly(w, Clear);
      StepContinuesExactly(cleared, Switch(false));
      ContinuesTrans(w, cleared, off);
    } else {
      hide Sound;
      SoundSizes(w.archive);
      assert |Whole(w)| == |Texts(w.archive.batches)| + |w.archive.pending| + |w.rows| - w.live;
      assert w.rows[|w.rows|..] == [] && Base(off.archive) - Base(w.archive) == |Texts(w.archive.batches)|;
      assert |(Whole(w) + [])[|Texts(w.archive.batches)|..]| > |Whole(off)|;
    }
  }

  lemma TwoSteps(w: World, first: Step, second: Step)
    requires Following(w) && Enabled(w, first) && Following(Apply(w, first)) && Enabled(Apply(w, first), second)
    ensures Valid(w, [first, second]) && Run(w, [first, second]) == Apply(Apply(w, first), second)
  {
    var next := Apply(w, first);
    OneStep(next, second);
    hide Apply, Following;
    assert [first, second][0] == first && [first, second][1..] == [second];
  }

  lemma OneStep(w: World, step: Step)
    requires Following(w) && Enabled(w, step)
    ensures Valid(w, [step]) && Run(w, [step]) == Apply(w, step)
  {
    StepKeepsFollowing(w, step);
    hide Apply, Following;
    assert [step][0] == step && [step][1..] == [];
  }

  // Every step keeps the count, so less than a batch waits in every run.
  lemma StepKeepsCount(w: World, step: Step)
    requires Following(w) && Enabled(w, step) && Counted(w.archive)
    ensures Counted(Apply(w, step).archive)
  {
    hide Sound, Recorded, Flushed, Base, NextLine;
    match step
    case Record => RecordedExactly(w.archive, Collected(w));
    case Flush => FlushKeepsCount(w.archive);
    case _ =>
  }

  lemma FlushKeepsCount(a: Archive)
    requires Counted(a)
    ensures Counted(Flushed(a))
  {
  }

  // Recording, like taking over, makes the tracker follow every live row: whatever of
  // these leaves Ghostty's history next is archived by the next recording.
  lemma LiveRowsAreFollowed(w: World, step: Step, more: seq<string>, live: nat)
    requires Following(w) && w.archive.enabled && (step == Record || step == TakeOver) && w.live <= live <= |w.rows|
    ensures Valid(w, [step, Update(more, live)])
    ensures var next := Apply(w, step); var updated := Run(w, [step, Update(more, live)]);
            && Following(updated)
            && Logical(Apply(updated, Record).archive) == Logical(next.archive) + w.rows[w.live..live]
  {
    var next := Apply(w, step);
    StepKeepsFollowing(w, step);
    StepKeepsFollowing(next, Update(more, live));
    FollowedAre(w, step);
    TwoSteps(w, step, Update(more, live));
    var updated := Apply(next, Update(more, live));
    hide Sound, Recorded, Base, Logical, Run, Valid, Reopened;
    assert Collected(updated) == w.rows[w.live..live];
    RecordAppends(updated.archive, Collected(updated));
  }

  lemma FollowedAre(w: World, step: Step)
    requires Following(w) && w.archive.enabled && (step == Record || step == TakeOver)
    ensures var next := Apply(w, step);
            next.archive.enabled && next.rows == w.rows && next.live == next.from == w.live && next.to == |w.rows|
  {
    hide Sound, Flushed, Base, Logical;
    if step == Record { RecordAppends(w.archive, Collected(w)); }
  }

  // Once it is switched on the archive gets the rows that were live then as they leave
  // Ghostty's history, and none from before; switched off it gets none, whatever leaves.
  lemma SwitchTakesHold(w: World, enabled: bool, more: seq<string>, live: nat)
    requires Following(w) && w.archive.enabled != enabled && w.live <= live <= |w.rows|
    ensures Valid(w, [Switch(enabled), Update(more, live)])
    ensures var updated := Run(w, [Switch(enabled), Update(more, live)]);
            && Following(updated) && updated.archive.enabled == enabled
            && Logical(Apply(updated, Record).archive)
               == Texts(w.archive.batches) + if enabled then w.rows[w.live..live] else []
  {
    var switched := Apply(w, Switch(enabled));
    StepKeepsFollowing(w, Switch(enabled));
    StepKeepsFollowing(switched, Update(more, live));
    SwitchedIs(w.archive, enabled);
    TwoSteps(w, Switch(enabled), Update(more, live));
    var updated := Apply(switched, Update(more, live));
    hide Sound, Recorded, Base, Logical, Run, Valid;
    assert Texts(w.archive.batches) + [] == Texts(w.archive.batches);
    if enabled {
      assert Collected(updated) == w.rows[w.live..live];
      RecordAppends(updated.archive, Collected(updated));
    }
  }

  // A process that commits what waited only after another has opened the archive makes
  // that one's batches unacceptable, for as long as it writes: the new one's next batch is
  // accepted exactly when nothing had waited.
  lemma LateFlushBlocksExactly(a: Archive, rows: seq<string>)
    requires Sound(a) && rows != []
    ensures var taken := Reopened(a); var late := taken.(batches := Flushed(a).batches, pending := rows);
            && (Flushed(late).pending == [] <==> a.pending == [])
            && (a.pending != [] ==> Flushed(late) == late)
  {
    hide Contiguous, Numbered, Texts;
    var taken := Reopened(a);
    ReopenedIs(a);
    if a.pending == [] {
      FlushIsAccepted(taken.(pending := rows));
    } else {
      FlushIsAccepted(a);
      assert NextLine(Flushed(a).batches) > NextLine(a.batches);
    }
  }

  // ---- A page of scrollback ----------------------------------------------

  // Shadow.Scrollback: a window of the live rows, counted back from the newest.
  function LivePage(live: seq<string>, before: nat, count: nat): seq<Line> {
    if before >= |live| then []
    else
      var end := |live| - before;
      var start := if count < end then end - count else 0;
      Numbered(start, live[start..end])
  }

  function Renumbered(lines: seq<Line>, offset: nat): seq<Line> {
    seq(|lines|, i requires 0 <= i < |lines| => Line(lines[i].number + offset, lines[i].text))
  }

  // shadowAttachment.Scrollback over one reading of the two counts.
  function Scrollback(a: Archive, live: seq<string>, before: nat, count: nat): Option<seq<Line>> {
    var archiveCount := LineCount(a);
    var total := archiveCount + |live|;
    if before >= total then Some([])
    else
      var end := total - before;
      var start := if count < end then end - count else 0;
      var archived :=
        if start < archiveCount then Lines(a, start, (if end > archiveCount then archiveCount else end) - 1)
        else Some([]);
      if archived.None? then None
      else if end > archiveCount then
        var liveStart := if start > archiveCount then start - archiveCount else 0;
        var liveEnd := end - archiveCount;
        Some(archived.value + Renumbered(LivePage(live, |live| - liveEnd, liveEnd - liveStart), archiveCount))
      else archived
  }

  // Where a page that ends `before` rows from the newest, and the page before it, begin.
  function PageEnd(a: Archive, live: seq<string>, before: nat): int {
    var total := LineCount(a) + |live|;
    if before >= total then 0 else total - before
  }

  function FromBase(a: Archive, n: int): int {
    if n < Base(a) then Base(a) else n
  }

  // The rows of the one list numbered from `start` up to `end` that are still there.
  function Page(a: Archive, live: seq<string>, start: int, end: int): seq<Line>
    requires 0 <= Base(a) && start <= end <= LineCount(a) + |live|
  {
    Rows(Base(a), Logical(a) + live, FromBase(a, start), FromBase(a, end))
  }

  lemma LivePageIsASlice(live: seq<string>, from: nat, to: nat, offset: nat)
    requires from <= to <= |live|
    ensures Renumbered(LivePage(live, |live| - to, to - from), offset) == Numbered(offset + from, live[from..to])
  {
  }

  lemma RowsJoin(base: nat, texts: seq<string>, a: nat, b: nat, c: nat)
    requires base <= a <= b <= c <= base + |texts|
    ensures Rows(base, texts, a, b) + Rows(base, texts, b, c) == Rows(base, texts, a, c)
  {
  }

  lemma RowsOfParts(base: nat, archived: seq<string>, live: seq<string>, from: nat, to: nat)
    requires base <= from <= to <= base + |archived| + |live|
    ensures to <= base + |archived| ==> Rows(base, archived + live, from, to) == Rows(base, archived, from, to)
    ensures from >= base + |archived| ==>
              Rows(base, archived + live, from, to) == Numbered(from, live[from - base - |archived|..to - base - |archived|])
  {
  }

  // The part of a page that the archive answers.
  lemma ArchivedPart(a: Archive, live: seq<string>, start: nat, end: nat)
    requires Sound(a) && start < end <= LineCount(a)
    ensures 0 <= Base(a) <= LineCount(a)
    ensures Lines(a, start, end - 1) == Some(Rows(Base(a), Logical(a) + live, FromBase(a, start), FromBase(a, end)))
  {
    hide Sound, Lines, Rows, Logical, Base;
    SoundSizes(a);
    LinesAreASlice(a, start, end - 1);
    var base, k := Base(a), LineCount(a);
    RowsOfParts(base, Logical(a), live, Clamp(start, base, k), Clamp(end, base, k));
  }

  // The part that comes from the live rows.
  lemma LivePart(a: Archive, live: seq<string>, start: nat, end: nat)
    requires Sound(a) && LineCount(a) <= start <= end <= LineCount(a) + |live|
    ensures var k := LineCount(a);
            0 <= Base(a) <= k
            && Renumbered(LivePage(live, |live| - (end - k), end - start), k) == Rows(Base(a), Logical(a) + live, start, end)
  {
    hide Sound, Rows, Logical, Base;
    SoundSizes(a);
    var k := LineCount(a);
    LivePageIsASlice(live, start - k, end - k, k);
    RowsOfParts(Base(a), Logical(a), live, start, end);
  }

  // A page is exactly the asked-for rows of the one list, in order and numbered without a
  // gap, as far as they are still stored.
  lemma PageIsASlice(a: Archive, live: seq<string>, before: nat, count: nat)
    requires Sound(a) && count >= 1
    ensures var end := PageEnd(a, live, before); var start := PageEnd(a, live, before + count);
            Scrollback(a, live, before, count) == Some(Page(a, live, start, end))
  {
    hide Sound, Lines, Rows, Logical, LivePage, Renumbered, Base;
    SoundSizes(a);
    var base, k := Base(a), LineCount(a);
    var end, start := PageEnd(a, live, before), PageEnd(a, live, before + count);
    var all := Logical(a) + live;
    if before >= k + |live| {
      NoRows(base, all, base);
    } else if end <= k {
      ArchivedPart(a, live, start, end);
    } else if start >= k {
      LivePart(a, live, start, end);
      assert [] + Rows(base, all, start, end) == Rows(base, all, start, end);
    } else {
      ArchivedPart(a, live, start, k);
      LivePart(a, live, k, end);
      RowsJoin(base, all, FromBase(a, start), k, end);
    }
  }

  // Short pages come only from cleared history.
  lemma PageIsFullExactly(a: Archive, live: seq<string>, before: nat, count: nat)
    requires Sound(a) && count >= 1 && before < LineCount(a) + |live|
    ensures var end := PageEnd(a, live, before); var start := PageEnd(a, live, before + count);
            var page := Scrollback(a, live, before, count);
            page.Some? && (|page.value| == end - start <==> Base(a) <= start)
  {
    hide Sound, Scrollback, Logical, Rows;
    SoundSizes(a);
    PageIsASlice(a, live, before, count);
  }

  const MAX_QUERY_LINES: nat := 1000

  datatype Reply = CountRefused | QueryFailed | Answered(lines: seq<Line>)

  // The request handler's guard, which keeps from the archive a range that ends before it
  // begins.
  function Query(a: Archive, live: seq<string>, before: nat, count: nat): Reply {
    if count == 0 || count > MAX_QUERY_LINES then CountRefused
    else match Scrollback(a, live, before, count)
      case Some(lines) => Answered(lines)
      case None => QueryFailed
  }

  // A request is refused for its count, or answered with exactly the page it asks for. No
  // count the guard admits reaches the archive's range error.
  lemma QueryIsThePage(a: Archive, live: seq<string>, before: nat, count: nat)
    requires Sound(a)
    ensures Query(a, live, before, count) ==
            if 1 <= count <= MAX_QUERY_LINES
            then Answered(Page(a, live, PageEnd(a, live, before + count), PageEnd(a, live, before))) else CountRefused
  {
    hide Scrollback, Page, Sound, Base;
    SoundSizes(a);
    if count >= 1 { PageIsASlice(a, live, before, count); }
  }

  // One page's older neighbour begins where it ends: the two are the page of both counts.
  lemma PagesTile(a: Archive, live: seq<string>, before: nat, count: nat, more: nat)
    requires Sound(a) && count >= 1 && more >= 1
    ensures var newer := Scrollback(a, live, before, count); var older := Scrollback(a, live, before + count, more);
            newer.Some? && older.Some? && Scrollback(a, live, before, count + more) == Some(older.value + newer.value)
  {
    hide Sound, Scrollback, Logical, Rows;
    SoundSizes(a);
    PageIsASlice(a, live, before, count);
    PageIsASlice(a, live, before + count, more);
    PageIsASlice(a, live, before, count + more);
    assert before + count + more == before + (count + more);
    RowsJoin(Base(a), Logical(a) + live, FromBase(a, PageEnd(a, live, before + count + more)),
             FromBase(a, PageEnd(a, live, before + count)), FromBase(a, PageEnd(a, live, before)));
  }

  // Paging back from the newest row, page after page.
  function Pages(a: Archive, live: seq<string>, before: nat, counts: seq<nat>): seq<Line>
    decreases |counts|
  {
    if counts == [] then []
    else
      var page := Scrollback(a, live, before, counts[0]);
      Pages(a, live, before + counts[0], counts[1..]) + if page.Some? then page.value else []
  }

  function Sum(counts: seq<nat>): nat {
    if counts == [] then 0 else counts[0] + Sum(counts[1..])
  }

  lemma {:induction false} PagesAreASlice(a: Archive, live: seq<string>, before: nat, counts: seq<nat>)
    requires Sound(a) && forall i | 0 <= i < |counts| :: counts[i] >= 1
    ensures Pages(a, live, before, counts)
            == Page(a, live, PageEnd(a, live, before + Sum(counts)), PageEnd(a, live, before))
    decreases |counts|
  {
    hide Sound, Scrollback, Logical, Rows;
    SoundSizes(a);
    var base, all := Base(a), Logical(a) + live;
    var end := FromBase(a, PageEnd(a, live, before));
    if counts == [] {
      NoRows(base, all, end);
    } else {
      PagesAreASlice(a, live, before + counts[0], counts[1..]);
      PageIsASlice(a, live, before, counts[0]);
      assert before + counts[0] + Sum(counts[1..]) == before + Sum(counts);
      RowsJoin(base, all, FromBase(a, PageEnd(a, live, before + Sum(counts))),
               FromBase(a, PageEnd(a, live, before + counts[0])), end);
    }
  }

  // Pages that reach far enough back are together the whole list, each row once.
  lemma PagesCover(a: Archive, live: seq<string>, counts: seq<nat>)
    requires Sound(a) && (forall i | 0 <= i < |counts| :: counts[i] >= 1) && Sum(counts) >= LineCount(a) + |live|
    ensures Pages(a, live, 0, counts) == Numbered(Base(a), Logical(a) + live)
  {
    hide Sound, Scrollback, Logical, Pages;
    SoundSizes(a);
    PagesAreASlice(a, live, 0, counts);
    var all := Logical(a) + live;
    assert all[0..|all|] == all;
    if |all| == 0 { assert FromBase(a, PageEnd(a, live, 0)) == Base(a); }
  }

  // ---- The objects -------------------------------------------------------

  // The rows of one pane in the history database.
  class HistoryStore {
    var batches: seq<Batch>

    constructor ()
      ensures batches == []
    {
      batches := [];
    }

    method Append(b: Batch) returns (ok: bool)
      modifies this
      ensures ok == Accepts(old(batches), b)
      ensures batches == if ok then old(batches) + [b] else old(batches)
    {
      if b.lines == [] { return false; }
      if batches != [] && b.first != Last(batches[|batches| - 1]) + 1 { return false; }
      batches := batches + [b];
      return true;
    }

    method Load(first: nat, last: int) returns (records: Option<seq<Batch>>)
      ensures records == if last < first then None else Some(Loaded(batches, first, last))
    {
      if last < first { return None; }
      var found := [];
      var i := 0;
      assert batches[..0] == [];
      while i < |batches|
        invariant i <= |batches| && found == Loaded(batches[..i], first, last)
      {
        assert batches[..i + 1][..i] == batches[..i];
        if Meets(batches[i], first, last) { found := found + [batches[i]]; }
        i := i + 1;
      }
      assert batches[..i] == batches;
      return Some(found);
    }

    method Clear()
      modifies this
      ensures batches == []
    {
      batches := [];
    }
  }

  class Archiver {
    const store: HistoryStore
    var enabled: bool
    var next: nat
    var pending: seq<string>
    var bytes: nat

    ghost function State(): Archive
      reads this, store
    {
      Archive(enabled, next, pending, bytes, store.batches)
    }

    // NewHistoryArchive takes up where the database ends.
    constructor (store: HistoryStore, enabled: bool)
      ensures this.store == store
      ensures State() == Archive(enabled, NextLine(store.batches), [], 0, store.batches)
    {
      this.store, this.enabled := store, enabled;
      next, pending, bytes := NextLine(store.batches), [], 0;
    }

    method LinesBetween(first: nat, last: int) returns (lines: Option<seq<Line>>)
      ensures lines == Lines(State(), first, last)
    {
      if last < first { return None; }
      hide InRange, Loaded, Numbered, Decoded;
      var records := store.Load(first, last);
      var found := SelectAll(records.value, first, last);
      var waiting := Select(Numbered(next, pending), first, last);
      return Some(found + waiting);
    }

    method SelectAll(records: seq<Batch>, first: nat, last: nat) returns (found: seq<Line>)
      ensures found == InRange(Decoded(records), first, last)
    {
      found := [];
      var i := 0;
      hide InRange;
      assert records[..0] == [];
      EmptyRange(first, last);
      while i < |records|
        invariant i <= |records| && found == InRange(Decoded(records[..i]), first, last)
      {
        var more := Select(records[i].lines, first, last);
        assert records[..i + 1] == records[..i] + [records[i]];
        DecodedMore(records[..i], records[i]);
        InRangeAppend(Decoded(records[..i]), records[i].lines, first, last);
        found := found + more;
        i := i + 1;
      }
      assert records[..i] == records;
    }

    // flushLocked.
    method Flush() returns (ok: bool)
      modifies this, store
      ensures State() == Flushed(old(State()))
    {
      if pending == [] { return true; }
      ok := store.Append(Batch(next, Numbered(next, pending)));
      if ok {
        next := next + |pending|;
        pending, bytes := [], 0;
      }
    }

    // Record, given what the tracker collected.
    method Record(rows: seq<string>) returns (ok: bool)
      modifies this, store
      ensures State() == Recorded(old(State()), rows)
    {
      if !enabled || rows == [] { return true; }
      pending := pending + rows;
      var i := 0;
      assert rows[..0] == [];
      while i < |rows|
        invariant i <= |rows| && bytes == old(bytes) + Size(rows[..i])
        invariant State() == old(State()).(pending := old(pending) + rows, bytes := bytes)
      {
        assert rows[..i + 1][..i] == rows[..i];
        bytes := bytes + |rows[i]|;
        i := i + 1;
      }
      assert rows[..i] == rows;
      if bytes < TARGET_BATCH_BYTES { return true; }
      ok := Flush();
    }

    method SetEnabled(enable: bool)
      modifies this
      ensures State() == Switched(old(State()), enable)
    {
      if enabled == enable { return; }
      pending, bytes := [], 0;
      enabled := enable;
    }
  }

  lemma EmptyRange(first: nat, last: nat)
    ensures InRange(Decoded([]), first, last) == []
  {
  }

  method Select(lines: seq<Line>, first: nat, last: nat) returns (r: seq<Line>)
    ensures r == InRange(lines, first, last)
  {
    r := [];
    var i := 0;
    assert lines[..0] == [];
    while i < |lines|
      invariant i <= |lines| && r == InRange(lines[..i], first, last)
    {
      assert lines[..i + 1][..i] == lines[..i];
      if lines[i].number >= first && lines[i].number <= last { r := r + [lines[i]]; }
      i := i + 1;
    }
    assert lines[..i] == lines;
  }

  // Shadow.Scrollback.
  method ShadowScrollback(live: seq<string>, before: nat, count: nat) returns (lines: seq<Line>)
    ensures lines == LivePage(live, before, count)
  {
    lines := [];
    if before >= |live| { return; }
    var end: nat := |live| - before;
    var start: nat := 0;
    if count < end { start := end - count; }
    for y := start to end
      invariant lines == Numbered(start, live[start..y])
    {
      lines := lines + [Line(y, live[y])];
    }
  }

  // shadowAttachment.Scrollback: every subtraction is of unsigned numbers.
  method AttachmentScrollback(archive: Archiver, live: seq<string>, before: nat, count: nat) returns (lines: Option<seq<Line>>)
    ensures lines == Scrollback(archive.State(), live, before, count)
  {
    hide Lines, LivePage;
    var archiveCount: nat := archive.next + |archive.pending|;
    var total: nat := archiveCount + |live|;
    if before >= total { return Some([]); }
    var end: nat := total - before;
    var start: nat := 0;
    if count < end { start := end - count; }
    var page: seq<Line> := [];
    if start < archiveCount {
      var archiveEnd := end;
      if archiveEnd > archiveCount { archiveEnd := archiveCount; }
      var last: nat := archiveEnd - 1;
      var archived := archive.LinesBetween(start, last);
      if archived.None? { return None; }
      page := page + archived.value;
      assert page == archived.value;
    }
    if end > archiveCount {
      var liveStart: nat := 0;
      if start > archiveCount { liveStart := start - archiveCount; }
      var liveEnd: nat := end - archiveCount;
      var liveBefore: nat := |live| - liveEnd;
      var liveCount: nat := liveEnd - liveStart;
      var shown := ShadowScrollback(live, liveBefore, liveCount);
      var i := 0;
      ghost var found := shown;
      while i < |shown|
        invariant i <= |shown| == |found|
        invariant forall k | 0 <= k < i :: shown[k] == Line(found[k].number + archiveCount, found[k].text)
        invariant forall k | i <= k < |shown| :: shown[k] == found[k]
      {
        shown := shown[i := shown[i].(number := shown[i].number + archiveCount)];
        i := i + 1;
      }
      assert shown == Renumbered(found, archiveCount);
      page := page + shown;
    }
    return Some(page);
  }

  // Operations.scrollback, of a pane that is attached.
  method AnswerScrollback(archive: Archiver, live: seq<string>, before: nat, count: nat) returns (reply: Reply)
    ensures reply == Query(archive.State(), live, before, count)
  {
    if count == 0 || count > MAX_QUERY_LINES { return CountRefused; }
    var lines := AttachmentScrollback(archive, live, before, count);
    if lines.None? { return QueryFailed; }
    return Answered(lines.value);
  }
}
