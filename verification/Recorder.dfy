// Crash recovery of a pane: the recorder that turns live output into a keyframe and a raw
// tail (recorder.go), the catalog rows that hold them (persistence/store.go) and the replay
// that restores them (recovery_loader.go).
//
// A terminal is what it has consumed: a history of bytes and resizes, on which feeding is
// additive. Snapshot and restore are exact. `ground` says after which histories the parser
// is between sequences; nothing is assumed of it.
module Recorder {
  import opened Text
  import OutputStream

  const DEFAULT_TAIL_CAP: nat := 0x10_0000
  const FLUSH_BYTES: nat := 0x1_0000
  const PUMP_BYTES: nat := 0x8000

  datatype Event = Byte(c: char) | Resized(cols: nat, rows: nat)

  type History = seq<Event>

  type Output = OutputStream.Output

  function Bytes(outputs: seq<Output>): string {
    OutputStream.Bytes(outputs)
  }

  function Fed(data: string): History {
    seq(|data|, i requires 0 <= i < |data| => Byte(data[i]))
  }

  // The bytes of a history, without its resizes.
  function BytesOf(h: History): string {
    if h == [] then ""
    else
      var last := h[|h| - 1];
      BytesOf(h[..|h| - 1]) + if last.Byte? then [last.c] else ""
  }

  predicate OnlyBytes(h: History) {
    forall i | 0 <= i < |h| :: h[i].Byte?
  }

  lemma {:induction false} BytesOfAppend(a: History, b: History)
    ensures BytesOf(a + b) == BytesOf(a) + BytesOf(b)
  {
    if b == [] {
      assert a + b == a;
      assert BytesOf(a) + "" == BytesOf(a);
    } else {
      var n := |b| - 1;
      BytesOfAppend(a, b[..n]);
      assert (a + b)[..|a + b| - 1] == a + b[..n];
      var tail := if b[n].Byte? then [b[n].c] else "";
      assert BytesOf(a) + (BytesOf(b[..n]) + tail) == BytesOf(a) + BytesOf(b[..n]) + tail;
    }
  }

  lemma {:induction false} BytesOfFed(data: string)
    ensures BytesOf(Fed(data)) == data && OnlyBytes(Fed(data))
  {
    if data != "" {
      var n := |data| - 1;
      BytesOfFed(data[..n]);
      assert Fed(data)[..n] == Fed(data[..n]);
      assert data == data[..n] + [data[n]];
    }
  }

  // Replaying the bytes of a history restores it just when it has no resize.
  lemma {:induction false} OnlyBytesExactly(h: History)
    ensures |BytesOf(h)| <= |h| && (OnlyBytes(h) <==> |BytesOf(h)| == |h|)
    ensures OnlyBytes(h) ==> Fed(BytesOf(h)) == h
  {
    if h != [] {
      var n := |h| - 1;
      OnlyBytesExactly(h[..n]);
      assert OnlyBytes(h) <==> OnlyBytes(h[..n]) && h[n].Byte?;
      if OnlyBytes(h) { assert Fed(BytesOf(h)) == Fed(BytesOf(h[..n])) + [h[n]] == h; }
    }
  }

  // ---- The durable record -----------------------------------------------

  // A blank keyframe, written while content is not persisted, holds the fresh terminal.
  datatype Keyframe = Keyframe(grounded: bool, state: History)

  datatype PaneRecord = PaneRecord(keyframe: Keyframe, tail: seq<Output>)

  predicate Rising(chunks: seq<Output>) {
    forall i, j | 0 <= i < j < |chunks| :: chunks[i].sequence < chunks[j].sequence
  }

  predicate NoneEmpty(chunks: seq<Output>) {
    forall i | 0 <= i < |chunks| :: chunks[i].data != ""
  }

  // AppendPaneBatch commits all of a batch or rejects it.
  predicate Accepts(tail: seq<Output>, chunks: seq<Output>, tailCap: nat) {
    chunks == [] ||
    (&& NoneEmpty(chunks) && Rising(chunks)
     && |Bytes(tail)| + |Bytes(chunks)| <= tailCap
     && (tail != [] ==> tail[|tail| - 1].sequence < chunks[0].sequence))
  }

  // loadRecoveredCatalog: a forced keyframe is diagnostic only.
  function Recovered(record: PaneRecord): Option<History> {
    if !record.keyframe.grounded then None
    else Some(record.keyframe.state + Fed(Bytes(record.tail)))
  }

  // ---- The recorder ------------------------------------------------------

  // `record` is what the store holds for the pane; the store's cap is `hardCap` too.
  datatype Recording = Recording(cap: nat, persist: bool, tailSize: nat, pending: seq<Output>, pendingSize: nat, record: PaneRecord)

  function HardCap(cap: nat): nat {
    4 * cap
  }

  function Framed(r: Recording, grounded: bool, shadow: History): Recording {
    var keyframe := Keyframe(grounded, if r.persist then shadow else []);
    r.(tailSize := 0, pending := [], pendingSize := 0, record := PaneRecord(keyframe, []))
  }

  function Flushed(r: Recording): Recording {
    if r.pending == [] || !Accepts(r.record.tail, r.pending, HardCap(r.cap)) then r
    else
      r.(tailSize := r.tailSize + r.pendingSize, pending := [], pendingSize := 0,
         record := r.record.(tail := r.record.tail + r.pending))
  }

  function Kept(r: Recording, output: Output): Recording {
    r.(pending := r.pending + [output], pendingSize := r.pendingSize + |output.data|)
  }

  datatype Outcome = Ignored | Keyframed(grounded: bool) | Pended | Committed

  // recordFedLocked's branches. The shadow has consumed the output already.
  function Choice(ground: History -> bool, r: Recording, shadow: History, output: Output): Outcome {
    var nextSize := r.tailSize + r.pendingSize + |output.data|;
    if !r.persist || output.data == "" then Ignored
    else if nextSize >= r.cap && ground(shadow) then Keyframed(true)
    else if nextSize >= HardCap(r.cap) then Keyframed(false)
    else if r.pendingSize + |output.data| >= FLUSH_BYTES then Committed
    else Pended
  }

  function Recorded(ground: History -> bool, r: Recording, shadow: History, output: Output): Recording {
    match Choice(ground, r, shadow, output)
    case Ignored => r
    case Keyframed(grounded) => Framed(r, grounded, shadow)
    case Pended => Kept(r, output)
    case Committed => Flushed(Kept(r, output))
  }

  function Finalized(ground: History -> bool, r: Recording, shadow: History): Recording {
    Framed(Flushed(r), ground(shadow), shadow)
  }

  // SetPersistScrollback labels its keyframe grounded without asking the parser.
  function Switched(r: Recording, enabled: bool, shadow: History): Recording {
    if r.persist == enabled then r else Framed(r.(persist := enabled), true, shadow)
  }

  // ---- Every interleaving ------------------------------------------------

  // `inFlight` are outputs the shadow has consumed and the recorder has not seen: Flush and
  // SetPersistScrollback take only the recorder's lock, so they can run in between.
  // `start` and `flushed` are how much of the shadow's history had been recorded at the
  // last keyframe and at the last commit.
  datatype World = World(rec: Recording, shadow: History, inFlight: seq<Output>, sequence: nat, start: nat, flushed: nat)

  datatype Step =
    | Feed(data: string)
    | Record
    | Resize(cols: nat, rows: nat)
    | Flush
    | Switch(enabled: bool)
    | Finalize

  // NewCatalogRecorderWithPersistence and Initialize, over the shadow as it is then.
  function Start(cap: nat, persist: bool, shadow: History): World {
    World(Framed(Recording(cap, persist, 0, [], 0, PaneRecord(Keyframe(true, []), [])), true, shadow),
          shadow, [], 0, |shadow|, |shadow|)
  }

  // The outputs Stream.Append makes of one read.
  function Outputs(sequence: nat, data: string): seq<Output> {
    OutputStream.Appended(OutputStream.Log(sequence, []), data).outputs
  }

  predicate Enabled(w: World, step: Step) {
    match step
    case Feed(data) => w.inFlight == [] && data != ""
    case Record => w.inFlight != []
    case Resize(_, _) => w.inFlight == []
    case Flush => true
    case Switch(_) => true
    case Finalize => w.inFlight == []
  }

  // How much of the history the recorder has seen.
  function Seen(w: World): int {
    |w.shadow| - |Bytes(w.inFlight)|
  }

  function Apply(ground: History -> bool, w: World, step: Step): World
    requires Enabled(w, step) && 0 <= Seen(w)
  {
    match step
    case Feed(data) =>
      var outputs := Outputs(w.sequence, data);
      w.(shadow := w.shadow + Fed(data), inFlight := outputs, sequence := w.sequence + |outputs|)
    case Record =>
      var rest := w.(rec := Recorded(ground, w.rec, w.shadow, w.inFlight[0]), inFlight := w.inFlight[1..]);
      OutputStream.BytesCons(w.inFlight);
      var choice := Choice(ground, w.rec, w.shadow, w.inFlight[0]);
      if choice.Keyframed? then rest.(start := Seen(rest), flushed := Seen(rest))
      else if choice.Committed? then rest.(flushed := Seen(rest))
      else rest
    case Resize(cols, rows) => w.(shadow := w.shadow + [Resized(cols, rows)])
    case Flush => w.(rec := Flushed(w.rec), flushed := Seen(w))
    case Switch(enabled) =>
      if w.rec.persist == enabled then w
      else w.(rec := Switched(w.rec, enabled, w.shadow), start := Seen(w), flushed := Seen(w))
    case Finalize => w.(rec := Finalized(ground, w.rec, w.shadow), start := Seen(w), flushed := Seen(w))
  }

  // ---- What every run keeps ----------------------------------------------

  // The recorder's counters are the store's, and every batch it will offer is acceptable.
  predicate Consistent(r: Recording) {
    && r.cap > 0
    && r.tailSize == |Bytes(r.record.tail)| && r.pendingSize == |Bytes(r.pending)|
    && r.tailSize + r.pendingSize < HardCap(r.cap)
  }

  predicate Ordered(r: Recording, inFlight: seq<Output>, sequence: nat) {
    var all := r.record.tail + r.pending + inFlight;
    && Rising(all) && NoneEmpty(all)
    && forall i | 0 <= i < |all| :: all[i].sequence <= sequence
  }

  // The rest of the shadow's history is what is in flight.
  predicate Trailing(shadow: History, seen: int, inFlight: seq<Output>) {
    0 <= seen <= |shadow| && shadow[seen..] == Fed(Bytes(inFlight))
  }

  // The keyframe is a point of the shadow's history, no earlier than what had been recorded
  // then; the tail is the bytes recorded since up to the last commit, and what is pending
  // the bytes after it.
  predicate Faithful(r: Recording, shadow: History, seen: int, start: nat, flushed: nat) {
    var state := r.record.keyframe.state;
    && start <= flushed <= seen <= |shadow| && start <= |state| <= |shadow|
    && state == shadow[..|state|] && OnlyBytes(shadow[start..|state|])
    && BytesOf(shadow[start..flushed]) == Bytes(r.record.tail)
    && BytesOf(shadow[flushed..seen]) == Bytes(r.pending)
  }

  // Nothing of the terminal's content is durable or waiting to be.
  predicate Blank(r: Recording) {
    r.record.keyframe.state == [] && r.record.tail == [] && r.pending == []
  }

  predicate Content(w: World) {
    if w.rec.persist then Faithful(w.rec, w.shadow, Seen(w), w.start, w.flushed) else Blank(w.rec)
  }

  predicate Inv(w: World) {
    && Consistent(w.rec) && w.rec.pendingSize < FLUSH_BYTES
    && Ordered(w.rec, w.inFlight, w.sequence) && Trailing(w.shadow, Seen(w), w.inFlight)
    && Content(w)
  }

  lemma BytesConcat(a: seq<Output>, b: seq<Output>)
    ensures Bytes(a + b) == Bytes(a) + Bytes(b)
  {
    OutputStream.BytesSplit(a + b, |a|);
    assert (a + b)[..|a|] == a && (a + b)[|a|..] == b;
  }

  lemma BytesOfOne(output: Output)
    ensures Bytes([output]) == output.data
  {
    assert [output][..0] == [];
    assert OutputStream.Bytes([output]) == OutputStream.Bytes([output][..0]) + output.data;
  }

  // No append is ever rejected.
  lemma NeverRejected(r: Recording, inFlight: seq<Output>, sequence: nat)
    requires Consistent(r) && Ordered(r, inFlight, sequence)
    ensures Accepts(r.record.tail, r.pending, HardCap(r.cap))
  {
    hide OutputStream.Bytes;
    var tail, pending := r.record.tail, r.pending;
    var all := tail + pending + inFlight;
    forall i | 0 <= i < |pending| ensures pending[i] == all[|tail| + i] { }
    forall i | 0 <= i < |tail| ensures tail[i] == all[i] { }
  }

  lemma FlushMoves(r: Recording, inFlight: seq<Output>, sequence: nat)
    requires Consistent(r) && Ordered(r, inFlight, sequence)
    ensures var f := Flushed(r);
            && f.record.tail == r.record.tail + r.pending && f.pending == [] && f.pendingSize == 0
            && f.record.keyframe == r.record.keyframe && f.persist == r.persist && f.cap == r.cap
            && Consistent(f) && Ordered(f, inFlight, sequence)
  {
    hide Rising, NoneEmpty, Accepts;
    NeverRejected(r, inFlight, sequence);
    BytesConcat(r.record.tail, r.pending);
    var f := Flushed(r);
    if r.pending == [] { assert r.record.tail + [] == r.record.tail; }
    assert f.record.tail + f.pending + inFlight == r.record.tail + r.pending + inFlight;
  }

  // What has been recorded stays so when the pending bytes join the tail.
  lemma FlushIsFaithful(r: Recording, f: Recording, shadow: History, seen: int, start: nat, flushed: nat)
    requires Faithful(r, shadow, seen, start, flushed)
    requires f.record == PaneRecord(r.record.keyframe, r.record.tail + r.pending) && f.pending == []
    ensures Faithful(f, shadow, seen, start, seen)
  {
    hide Bytes, OnlyBytes, BytesOf;
    BytesConcat(r.record.tail, r.pending);
    assert shadow[start..seen] == shadow[start..flushed] + shadow[flushed..seen];
    BytesOfAppend(shadow[start..flushed], shadow[flushed..seen]);
    NothingOf(shadow[seen..seen]);
  }

  lemma NothingOf(h: History)
    requires h == []
    ensures BytesOf(h) == "" && OnlyBytes(h) && Bytes([]) == ""
  {
  }

  lemma FlushKeeps(w: World)
    requires Consistent(w.rec) && Ordered(w.rec, w.inFlight, w.sequence) && Trailing(w.shadow, Seen(w), w.inFlight)
    requires Content(w)
    ensures Inv(w.(rec := Flushed(w.rec), flushed := Seen(w)))
  {
    hide Ordered, Flushed, Bytes, OnlyBytes, BytesOf, Faithful, Consistent, Trailing;
    FlushMoves(w.rec, w.inFlight, w.sequence);
    if w.rec.persist {
      FlushIsFaithful(w.rec, Flushed(w.rec), w.shadow, Seen(w), w.start, w.flushed);
    }
  }

  lemma FrameIsOrdered(r: Recording, f: Recording, inFlight: seq<Output>, sequence: nat)
    requires Ordered(r, inFlight, sequence) && f.record.tail == [] && f.pending == []
    ensures Ordered(f, inFlight, sequence)
  {
    var all := r.record.tail + r.pending + inFlight;
    var k := |r.record.tail + r.pending|;
    assert f.record.tail + f.pending + inFlight == all[k..];
  }

  lemma FrameIsFaithful(r: Recording, shadow: History, seen: int, inFlight: seq<Output>)
    requires Trailing(shadow, seen, inFlight)
    requires r.record == PaneRecord(Keyframe(r.record.keyframe.grounded, shadow), []) && r.pending == []
    ensures Faithful(r, shadow, seen, seen, seen)
  {
    hide Bytes, BytesOf, OnlyBytes;
    NothingOf(shadow[seen..seen]);
    BytesOfFed(Bytes(inFlight));
    assert shadow[seen..|shadow|] == shadow[seen..];
  }

  lemma FrameKeeps(w: World, grounded: bool)
    requires w.rec.cap > 0 && Ordered(w.rec, w.inFlight, w.sequence) && Trailing(w.shadow, Seen(w), w.inFlight)
    ensures Inv(w.(rec := Framed(w.rec, grounded, w.shadow), start := Seen(w), flushed := Seen(w)))
  {
    hide Ordered, Trailing, Faithful, BytesOf, OnlyBytes;
    NothingOf([]);
    FrameIsOrdered(w.rec, Framed(w.rec, grounded, w.shadow), w.inFlight, w.sequence);
    if w.rec.persist {
      FrameIsFaithful(Framed(w.rec, grounded, w.shadow), w.shadow, Seen(w), w.inFlight);
    }
  }

  // Taking the next output in flight.
  lemma Taking(shadow: History, seen: int, inFlight: seq<Output>)
    requires Trailing(shadow, seen, inFlight) && inFlight != []
    ensures var o := inFlight[0]; var later := seen + |o.data|;
            && |Bytes(inFlight)| == |o.data| + |Bytes(inFlight[1..])|
            && Trailing(shadow, later, inFlight[1..]) && shadow[seen..later] == Fed(o.data)
  {
    OutputStream.BytesCons(inFlight);
    hide Bytes;
    var o, rest := inFlight[0].data, Bytes(inFlight[1..]);
    assert shadow[seen..] == Fed(o + rest);
    forall i | 0 <= i < |o| ensures shadow[seen + i] == Byte(o[i]) {
      assert shadow[seen..][i] == Fed(o + rest)[i];
    }
    forall i | 0 <= i < |rest| ensures shadow[seen + |o| + i] == Byte(rest[i]) {
      assert shadow[seen..][|o| + i] == Fed(o + rest)[|o| + i];
    }
  }

  lemma KeptIsOrdered(r: Recording, inFlight: seq<Output>, sequence: nat)
    requires Ordered(r, inFlight, sequence) && inFlight != []
    ensures Ordered(Kept(r, inFlight[0]), inFlight[1..], sequence) && inFlight[0].data != ""
  {
    hide Rising;
    var all := r.record.tail + r.pending + inFlight;
    assert r.record.tail + (r.pending + [inFlight[0]]) + inFlight[1..] == all;
    assert all[|r.record.tail + r.pending|] == inFlight[0];
  }

  lemma KeptIsFaithful(r: Recording, shadow: History, seen: int, start: nat, flushed: nat, o: Output)
    requires Faithful(r, shadow, seen, start, flushed) && seen + |o.data| <= |shadow|
    requires shadow[seen..seen + |o.data|] == Fed(o.data)
    ensures Faithful(Kept(r, o), shadow, seen + |o.data|, start, flushed)
  {
    hide Bytes, OnlyBytes, BytesOf;
    var later := seen + |o.data|;
    assert shadow[flushed..later] == shadow[flushed..seen] + shadow[seen..later];
    BytesOfAppend(shadow[flushed..seen], shadow[seen..later]);
    BytesOfFed(o.data);
    BytesConcat(r.pending, [o]);
    BytesOfOne(o);
  }

  lemma KeptIsConsistent(r: Recording, o: Output)
    requires Consistent(r) && r.tailSize + r.pendingSize + |o.data| < HardCap(r.cap)
    ensures Consistent(Kept(r, o))
  {
    hide OutputStream.Bytes;
    BytesConcat(r.pending, [o]);
    BytesOfOne(o);
  }

  lemma RestIsOrdered(r: Recording, inFlight: seq<Output>, sequence: nat)
    requires Ordered(r, inFlight, sequence) && inFlight != [] && r.record.tail == [] && r.pending == []
    ensures Ordered(r, inFlight[1..], sequence)
  {
    assert r.record.tail + r.pending + inFlight == inFlight;
    assert r.record.tail + r.pending + inFlight[1..] == inFlight[1..];
  }

  lemma KeepKeeps(w: World)
    requires Inv(w) && w.inFlight != [] && w.rec.persist
    requires w.rec.tailSize + w.rec.pendingSize + |w.inFlight[0].data| < HardCap(w.rec.cap)
    ensures var k := w.(rec := Kept(w.rec, w.inFlight[0]), inFlight := w.inFlight[1..]);
            && Consistent(k.rec) && Ordered(k.rec, k.inFlight, k.sequence)
            && Trailing(k.shadow, Seen(k), k.inFlight) && Content(k)
  {
    hide Ordered, Bytes, Trailing, Faithful, Consistent;
    var o := w.inFlight[0];
    Taking(w.shadow, Seen(w), w.inFlight);
    KeptIsOrdered(w.rec, w.inFlight, w.sequence);
    KeptIsConsistent(w.rec, o);
    InShadow(w.shadow, Seen(w) + |o.data|, w.inFlight[1..]);
    KeptIsFaithful(w.rec, w.shadow, Seen(w), w.start, w.flushed, o);
  }

  lemma InShadow(shadow: History, seen: int, inFlight: seq<Output>)
    requires Trailing(shadow, seen, inFlight)
    ensures 0 <= seen <= |shadow|
  {
  }

  lemma CapIsPositive(r: Recording)
    requires Consistent(r)
    ensures r.cap > 0
  {
  }

  // What Framed makes does not depend on what was pending or durable.
  lemma FramedForgets(r: Recording, output: Output, grounded: bool, shadow: History)
    ensures Framed(Kept(r, output), grounded, shadow) == Framed(r, grounded, shadow)
  {
  }

  lemma RecordKeeps(ground: History -> bool, w: World)
    requires Inv(w) && w.inFlight != [] && 0 <= Seen(w)
    ensures Inv(Apply(ground, w, Record))
  {
    hide Ordered, Bytes, Trailing, Faithful, Consistent, Framed, Flushed, HardCap;
    var o := w.inFlight[0];
    var rest := w.(inFlight := w.inFlight[1..]);
    Taking(w.shadow, Seen(w), w.inFlight);
    KeptIsOrdered(w.rec, w.inFlight, w.sequence);
    CapIsPositive(w.rec);
    match Choice(ground, w.rec, w.shadow, o)
    case Ignored =>
      RestIsOrdered(w.rec, w.inFlight, w.sequence);
    case Keyframed(grounded) =>
      var k := w.(rec := Kept(w.rec, o), inFlight := w.inFlight[1..]);
      FramedForgets(w.rec, o, grounded, w.shadow);
      FrameKeeps(k, grounded);
    case Pended =>
      KeepKeeps(w);
    case Committed =>
      KeepKeeps(w);
      FlushKeeps(w.(rec := Kept(w.rec, o), inFlight := w.inFlight[1..]));
  }

  predicate NumberedFrom(base: nat, outputs: seq<Output>) {
    forall i | 0 <= i < |outputs| :: outputs[i].sequence == base + 1 + i && outputs[i].data != ""
  }

  lemma {:induction false} AppendedAre(base: nat, before: seq<Output>, data: string)
    requires NumberedFrom(base, before)
    ensures var r := OutputStream.Appended(OutputStream.Log(base + |before|, before), data).outputs;
            NumberedFrom(base, r) && Bytes(r) == Bytes(before) + data
    decreases |data|
  {
    if data == "" {
      assert Bytes(before) + data == Bytes(before);
    } else {
      hide OutputStream.Bytes;
      var size := if |data| < OutputStream.MAX_CHUNK_BYTES then |data| else OutputStream.MAX_CHUNK_BYTES;
      var output := OutputStream.Output(base + |before| + 1, data[..size]);
      AppendedAre(base, before + [output], data[size..]);
      BytesConcat(before, [output]);
      BytesOfOne(output);
      assert Bytes(before) + data[..size] + data[size..] == Bytes(before) + data;
    }
  }

  // What one read becomes. A read no longer than a chunk is one output.
  lemma OutputsAre(sequence: nat, data: string)
    ensures var r := Outputs(sequence, data);
            && NumberedFrom(sequence, r) && Bytes(r) == data
            && (0 < |data| <= OutputStream.MAX_CHUNK_BYTES ==> r == [OutputStream.Output(sequence + 1, data)])
  {
    AppendedAre(sequence, [], data);
    assert Bytes([]) + data == data;
    if 0 < |data| <= OutputStream.MAX_CHUNK_BYTES {
      assert data[..|data|] == data && data[|data|..] == "";
    }
  }

  lemma FeedIsOrdered(r: Recording, inFlight: seq<Output>, sequence: nat)
    requires Ordered(r, [], sequence) && NumberedFrom(sequence, inFlight)
    ensures Ordered(r, inFlight, sequence + |inFlight|)
  {
    var before := r.record.tail + r.pending;
    assert before + [] == before;
    var all := before + inFlight;
    forall i | 0 <= i < |before| ensures all[i] == before[i] { }
  }

  lemma GrowthIsFaithful(r: Recording, shadow: History, more: History, seen: int, start: nat, flushed: nat)
    requires Faithful(r, shadow, seen, start, flushed)
    ensures Faithful(r, shadow + more, seen, start, flushed)
  {
    hide Bytes, BytesOf;
    var grown := shadow + more;
    assert grown[..|r.record.keyframe.state|] == shadow[..|r.record.keyframe.state|];
    assert grown[start..|r.record.keyframe.state|] == shadow[start..|r.record.keyframe.state|];
    assert grown[start..flushed] == shadow[start..flushed] && grown[flushed..seen] == shadow[flushed..seen];
  }

  lemma FeedKeeps(ground: History -> bool, w: World, data: string)
    requires Inv(w) && Enabled(w, Feed(data)) && 0 <= Seen(w)
    ensures Inv(Apply(ground, w, Feed(data)))
  {
    hide Ordered, Bytes, Faithful, Consistent, Outputs, BytesOf;
    NothingOf([]);
    OutputsAre(w.sequence, data);
    FeedIsOrdered(w.rec, Outputs(w.sequence, data), w.sequence);
    assert (w.shadow + Fed(data))[|w.shadow|..] == Fed(data);
    if w.rec.persist { GrowthIsFaithful(w.rec, w.shadow, Fed(data), Seen(w), w.start, w.flushed); }
  }

  lemma ResizeIsFaithful(r: Recording, shadow: History, event: Event, start: nat, flushed: nat)
    requires Faithful(r, shadow, |shadow|, start, flushed) && event.Resized?
    ensures Faithful(r, shadow + [event], |shadow| + 1, start, flushed)
  {
    hide Bytes, OnlyBytes;
    GrowthIsFaithful(r, shadow, [event], |shadow|, start, flushed);
    var grown := shadow + [event];
    var later := grown[flushed..|grown|];
    assert later[..|later| - 1] == grown[flushed..|shadow|];
    assert BytesOf(later) == BytesOf(grown[flushed..|shadow|]) + "";
  }

  lemma ResizeKeeps(ground: History -> bool, w: World, cols: nat, rows: nat)
    requires Inv(w) && Enabled(w, Resize(cols, rows)) && 0 <= Seen(w)
    ensures Inv(Apply(ground, w, Resize(cols, rows)))
  {
    hide Ordered, Bytes, Faithful, Consistent, BytesOf;
    NothingOf([]);
    if w.rec.persist { ResizeIsFaithful(w.rec, w.shadow, Resized(cols, rows), w.start, w.flushed); }
  }

  lemma SwitchKeeps(ground: History -> bool, w: World, enabled: bool)
    requires Inv(w) && 0 <= Seen(w)
    ensures Inv(Apply(ground, w, Switch(enabled)))
  {
    hide Ordered, Bytes, Trailing, Faithful, Consistent;
    CapIsPositive(w.rec);
    SwitchIsOrdered(w.rec, enabled, w.inFlight, w.sequence);
    FrameKeeps(w.(rec := w.rec.(persist := enabled)), true);
  }

  lemma FinalizeKeeps(ground: History -> bool, w: World)
    requires Inv(w) && Enabled(w, Finalize) && 0 <= Seen(w)
    ensures Inv(Apply(ground, w, Finalize))
  {
    hide Ordered, Bytes, Trailing, Faithful, Consistent, Flushed, Framed;
    CapIsPositive(w.rec);
    FlushMoves(w.rec, w.inFlight, w.sequence);
    FrameKeeps(w.(rec := Flushed(w.rec)), ground(w.shadow));
  }

  lemma StepKeepsInv(ground: History -> bool, w: World, step: Step)
    requires Inv(w) && Enabled(w, step)
    ensures 0 <= Seen(w) && Inv(Apply(ground, w, step))
  {
    InShadow(w.shadow, Seen(w), w.inFlight);
    match step
    case Feed(data) => hide Apply, Inv; FeedKeeps(ground, w, data);
    case Record => hide Apply, Inv; RecordKeeps(ground, w);
    case Resize(cols, rows) => hide Apply, Inv; ResizeKeeps(ground, w, cols, rows);
    case Flush => hide Ordered, Trailing, Consistent, Faithful, Flushed; FlushKeeps(w);
    case Switch(enabled) => hide Apply, Inv; SwitchKeeps(ground, w, enabled);
    case Finalize => hide Apply, Inv; FinalizeKeeps(ground, w);
  }

  lemma SwitchIsOrdered(r: Recording, enabled: bool, inFlight: seq<Output>, sequence: nat)
    requires Ordered(r, inFlight, sequence)
    ensures Ordered(r.(persist := enabled), inFlight, sequence)
  {
  }

  lemma StartHasInv(cap: nat, persist: bool, shadow: History)
    requires cap > 0
    ensures Inv(Start(cap, persist, shadow))
  {
    var bare := Recording(cap, persist, 0, [], 0, PaneRecord(Keyframe(true, []), []));
    assert shadow[|shadow|..] == [] && Fed("") == [];
    FrameKeeps(World(bare, shadow, [], 0, 0, 0), true);
  }

  predicate Valid(ground: History -> bool, w: World, steps: seq<Step>)
    decreases |steps|
  {
    steps == [] ||
    (Enabled(w, steps[0]) && 0 <= Seen(w) && Valid(ground, Apply(ground, w, steps[0]), steps[1..]))
  }

  function Run(ground: History -> bool, w: World, steps: seq<Step>): World
    requires Valid(ground, w, steps)
    decreases |steps|
  {
    if steps == [] then w else Run(ground, Apply(ground, w, steps[0]), steps[1..])
  }

  lemma {:induction false} RunKeepsInv(ground: History -> bool, w: World, steps: seq<Step>)
    requires Inv(w) && Valid(ground, w, steps)
    ensures Inv(Run(ground, w, steps))
    decreases |steps|
  {
    hide Inv, Apply;
    if steps != [] {
      StepKeepsInv(ground, w, steps[0]);
      RunKeepsInv(ground, Apply(ground, w, steps[0]), steps[1..]);
    }
  }

  // ---- What recovery restores --------------------------------------------

  // In every run, a record labelled grounded restores exactly the terminal as of the last
  // commit if and only if its keyframe was taken with no output in flight and the terminal
  // has not been resized between the two.
  lemma RecoveryIsExactly(ground: History -> bool, cap: nat, persist: bool, shadow: History, steps: seq<Step>)
    requires cap > 0 && Valid(ground, Start(cap, persist, shadow), steps)
    ensures var w := Run(ground, Start(cap, persist, shadow), steps); var keyframe := w.rec.record.keyframe;
            w.rec.persist && keyframe.grounded ==>
              && w.start <= w.flushed <= |w.shadow|
              && (Recovered(w.rec.record) == Some(w.shadow[..w.flushed])
                  <==> |keyframe.state| == w.start && OnlyBytes(w.shadow[w.start..w.flushed]))
  {
    hide Apply, Bytes, BytesOf;
    StartHasInv(cap, persist, shadow);
    RunKeepsInv(ground, Start(cap, persist, shadow), steps);
    var w := Run(ground, Start(cap, persist, shadow), steps);
    if w.rec.persist { FaithfulIsExactly(w.rec, w.shadow, Seen(w), w.start, w.flushed); }
  }

  lemma FaithfulIsExactly(r: Recording, shadow: History, seen: int, start: nat, flushed: nat)
    requires Faithful(r, shadow, seen, start, flushed)
    ensures r.record.keyframe.state + Fed(Bytes(r.record.tail)) == shadow[..flushed]
            <==> |r.record.keyframe.state| == start && OnlyBytes(shadow[start..flushed])
  {
    hide Bytes, BytesOf;
    var state, since := r.record.keyframe.state, shadow[start..flushed];
    var replayed := state + Fed(Bytes(r.record.tail));
    OnlyBytesExactly(since);
    if |state| == start && OnlyBytes(since) {
      assert replayed == shadow[..start] + since == shadow[..flushed];
    }
    if replayed == shadow[..flushed] {
      assert |state| <= flushed;
      forall i | 0 <= i < |since| ensures since[i].Byte? {
        if start + i < |state| {
          assert since[i] == shadow[start..|state|][i];
        } else {
          assert since[i] == replayed[start + i] == Fed(Bytes(r.record.tail))[start + i - |state|];
        }
      }
    }
  }

  // The steps the daemon takes when the persistence switch does not race a read: a read
  // fits the pump's buffer, and the switch finds nothing in flight.
  predicate Undisturbed(w: World, step: Step) {
    (step.Feed? ==> |step.data| <= PUMP_BYTES) && (step.Switch? ==> w.inFlight == [])
  }

  predicate UndisturbedRun(ground: History -> bool, w: World, steps: seq<Step>)
    requires Valid(ground, w, steps)
    decreases |steps|
  {
    steps == [] || (Undisturbed(w, steps[0]) && UndisturbedRun(ground, Apply(ground, w, steps[0]), steps[1..]))
  }

  // At most one output is in flight, and none was when the keyframe was taken.
  predicate Calm(w: World) {
    && (w.inFlight == [] || (|w.inFlight| == 1 && |w.inFlight[0].data| <= PUMP_BYTES))
    && (w.rec.persist ==> |w.rec.record.keyframe.state| == w.start)
  }

  lemma StepKeepsCalm(ground: History -> bool, w: World, step: Step)
    requires Inv(w) && Calm(w) && Enabled(w, step) && Undisturbed(w, step) && 0 <= Seen(w)
    ensures Calm(Apply(ground, w, step))
  {
    hide Ordered, Trailing, Consistent, Faithful, OutputStream.Bytes, Accepts, Outputs, HardCap;
    NothingOf([]);
    match step
    case Feed(data) => OutputsAre(w.sequence, data);
    case Record => assert w.inFlight[1..] == [];
    case _ =>
  }

  lemma {:induction false} RunKeepsCalm(ground: History -> bool, w: World, steps: seq<Step>)
    requires Inv(w) && Calm(w) && Valid(ground, w, steps) && UndisturbedRun(ground, w, steps)
    ensures Calm(Run(ground, w, steps))
    decreases |steps|
  {
    hide Inv, Apply, Calm, Undisturbed;
    if steps != [] {
      StepKeepsInv(ground, w, steps[0]);
      StepKeepsCalm(ground, w, steps[0]);
      RunKeepsCalm(ground, Apply(ground, w, steps[0]), steps[1..]);
    }
  }

  // The recorder's promise. In every such run recovery restores the terminal as of the last
  // commit if and only if it was not resized since the keyframe; what a crash loses is less
  // than a flush and a read; and since the keyframe the terminal has consumed less than the
  // hard cap and a read, which is what its snapshots are sized for.
  lemma CrashRecovery(ground: History -> bool, cap: nat, persist: bool, shadow: History, steps: seq<Step>)
    requires cap > 0 && Valid(ground, Start(cap, persist, shadow), steps)
    requires UndisturbedRun(ground, Start(cap, persist, shadow), steps)
    ensures var w := Run(ground, Start(cap, persist, shadow), steps); var keyframe := w.rec.record.keyframe;
            w.rec.persist ==>
              && w.start <= w.flushed <= |w.shadow|
              && (keyframe.grounded ==>
                    (Recovered(w.rec.record) == Some(w.shadow[..w.flushed]) <==> OnlyBytes(w.shadow[w.start..w.flushed])))
              && |BytesOf(w.shadow[w.flushed..])| < FLUSH_BYTES + PUMP_BYTES
              && |BytesOf(w.shadow[w.start..])| < HardCap(cap) + PUMP_BYTES
  {
    hide Apply, Bytes, BytesOf, Inv, Calm, HardCap, Start;
    var first := Start(cap, persist, shadow);
    StartHasInv(cap, persist, shadow);
    StartIsCalm(cap, persist, shadow);
    RunKeepsInv(ground, first, steps);
    RunKeepsCalm(ground, first, steps);
    RunKeepsCap(ground, first, steps);
    var w := Run(ground, first, steps);
    if w.rec.persist {
      CalmIsExact(w);
      CalmIsShort(w);
    }
  }

  lemma StartIsCalm(cap: nat, persist: bool, shadow: History)
    ensures Calm(Start(cap, persist, shadow)) && Start(cap, persist, shadow).rec.cap == cap
  {
  }

  lemma {:induction false} RunKeepsCap(ground: History -> bool, w: World, steps: seq<Step>)
    requires Valid(ground, w, steps)
    ensures Run(ground, w, steps).rec.cap == w.rec.cap
    decreases |steps|
  {
    hide Accepts, HardCap;
    if steps != [] { RunKeepsCap(ground, Apply(ground, w, steps[0]), steps[1..]); }
  }

  lemma CalmIsExact(w: World)
    requires Inv(w) && Calm(w) && w.rec.persist
    ensures w.start <= w.flushed <= |w.shadow|
    ensures w.rec.record.keyframe.grounded ==>
              (Recovered(w.rec.record) == Some(w.shadow[..w.flushed]) <==> OnlyBytes(w.shadow[w.start..w.flushed]))
  {
    hide Bytes, BytesOf, Ordered;
    FaithfulIsExactly(w.rec, w.shadow, Seen(w), w.start, w.flushed);
  }

  lemma CalmIsShort(w: World)
    requires Inv(w) && Calm(w) && w.rec.persist && w.start <= w.flushed <= |w.shadow|
    ensures |BytesOf(w.shadow[w.flushed..])| < FLUSH_BYTES + PUMP_BYTES
    ensures |BytesOf(w.shadow[w.start..])| < HardCap(w.rec.cap) + PUMP_BYTES
  {
    hide Bytes, BytesOf, Ordered, HardCap;
    var seen := Seen(w);
    NothingOf([]);
    if w.inFlight != [] { BytesOfOne(w.inFlight[0]); assert w.inFlight == [w.inFlight[0]]; }
    BytesOfFed(Bytes(w.inFlight));
    assert w.shadow[w.flushed..] == w.shadow[w.flushed..seen] + w.shadow[seen..];
    BytesOfAppend(w.shadow[w.flushed..seen], w.shadow[seen..]);
    assert w.shadow[w.start..] == w.shadow[w.start..w.flushed] + w.shadow[w.flushed..];
    BytesOfAppend(w.shadow[w.start..w.flushed], w.shadow[w.flushed..]);
  }

  // Switching persistence on between a read's feed and its record puts the read in the
  // keyframe and in the tail: the recovered terminal consumes it twice.
  lemma RacingSwitchRepeats(ground: History -> bool, r: Recording, shadow: History, o: Output)
    requires !r.persist && 0 < |o.data| < r.cap && |o.data| < FLUSH_BYTES
    ensures Recovered(Flushed(Recorded(ground, Switched(r, true, shadow), shadow, o)).record) == Some(shadow + Fed(o.data))
  {
    BytesOfOne(o);
    NothingOf([]);
    CapBelowHardCap(r.cap);
    hide OutputStream.Bytes, HardCap;
    var kept := Recorded(ground, Switched(r, true, shadow), shadow, o);
    assert kept.pending == [] + [o] == [o];
    assert Flushed(kept).record.tail == [] + [o] == [o];
  }

  // While content is not persisted none of it is durable or waiting to be.
  lemma NothingKept(ground: History -> bool, cap: nat, persist: bool, shadow: History, steps: seq<Step>)
    requires cap > 0 && Valid(ground, Start(cap, persist, shadow), steps)
    ensures var r := Run(ground, Start(cap, persist, shadow), steps).rec;
            !r.persist ==> Blank(r) && (r.record.keyframe.grounded ==> Recovered(r.record) == Some([]))
  {
    hide Apply, Consistent, Ordered, Trailing;
    StartHasInv(cap, persist, shadow);
    RunKeepsInv(ground, Start(cap, persist, shadow), steps);
    NothingOf([]);
    assert [] + Fed("") == [];
  }

  // A clean shutdown restores the whole terminal, resizes included, exactly when the
  // parser stands between two sequences.
  lemma FinalizeIsComplete(ground: History -> bool, w: World)
    requires Inv(w) && w.inFlight == [] && w.rec.persist && 0 <= Seen(w)
    ensures var r := Apply(ground, w, Finalize).rec;
            Recovered(r.record) == if ground(w.shadow) then Some(w.shadow) else None
  {
    hide Accepts;
    FlushMoves(w.rec, w.inFlight, w.sequence);
    NothingOf([]);
    assert w.shadow + Fed("") == w.shadow;
  }

  // An upgrade. The new process creates its recorder over the terminal it was handed, so
  // its first keyframe restores all of it, whatever the old recorder still held. The old
  // process may flush once more before it exits; its batch is then accepted on top of that
  // keyframe, and does no harm exactly when there was none, as after one flush since the
  // pane was paused.
  lemma TakeoverIsCompleteExactly(w: World, cap: nat)
    requires Inv(w) && w.rec.persist && w.inFlight == [] && cap > 0
    ensures var record := Start(cap, true, w.shadow).rec.record;
            && Recovered(record) == Some(w.shadow) && Accepts(record.tail, w.rec.pending, HardCap(w.rec.cap))
            && (Recovered(record.(tail := record.tail + w.rec.pending)) == Some(w.shadow) <==> w.rec.pending == [])
            && Flushed(w.rec).pending == []
  {
    FlushMoves(w.rec, w.inFlight, w.sequence);
    PendingIsAccepted(w.rec, w.inFlight, w.sequence);
    NothingOf([]);
    hide Accepts, Ordered, Consistent, Faithful, Trailing, Flushed, HardCap, Bytes;
    var pending := w.rec.pending;
    assert [] + pending == pending && w.shadow + Fed("") == w.shadow;
    if pending != [] {
      PendingHasBytes(w.rec, w.inFlight, w.sequence);
      assert |w.shadow + Fed(Bytes(pending))| > |w.shadow|;
    }
  }

  lemma PendingIsAccepted(r: Recording, inFlight: seq<Output>, sequence: nat)
    requires Consistent(r) && Ordered(r, inFlight, sequence)
    ensures Accepts([], r.pending, HardCap(r.cap))
  {
    hide OutputStream.Bytes;
    var tail, pending := r.record.tail, r.pending;
    var all := tail + pending + inFlight;
    NothingOf([]);
    assert |Bytes([])| == 0;
    forall i | 0 <= i < |pending| ensures pending[i] == all[|tail| + i] { }
  }

  lemma PendingHasBytes(r: Recording, inFlight: seq<Output>, sequence: nat)
    requires Ordered(r, inFlight, sequence) && r.pending != []
    ensures |Bytes(r.pending)| > 0
  {
    var n := |r.pending| - 1;
    var all := r.record.tail + r.pending + inFlight;
    assert all[|r.record.tail| + n] == r.pending[n];
    assert Bytes(r.pending) == Bytes(r.pending[..n]) + r.pending[n].data;
  }

  // The label is true of the keyframe it is on.
  predicate Honest(ground: History -> bool, r: Recording) {
    r.persist && r.record.keyframe.grounded ==> ground(r.record.keyframe.state)
  }

  // Every step keeps the label true, except that switching persistence on does so exactly
  // when the parser stands between two sequences.
  lemma LabelIsHonestExactly(ground: History -> bool, w: World, step: Step)
    requires Inv(w) && Enabled(w, step) && 0 <= Seen(w) && Honest(ground, w.rec)
    ensures Honest(ground, Apply(ground, w, step).rec)
            <==> (step.Switch? && step.enabled && !w.rec.persist ==> ground(w.shadow))
  {
    hide Ordered, Trailing, Faithful, OutputStream.Bytes, Accepts, Outputs, HardCap;
  }

  // Creating the recorder labels its first keyframe grounded as well, over whatever the
  // terminal shows then. So over a whole run the label is true at all times exactly when
  // the parser stood between two sequences at the creation of the recorder, if it keeps
  // content from the start, and each time keeping content was switched on.
  lemma LabelsAreHonestExactly(ground: History -> bool, cap: nat, persist: bool, shadow: History, steps: seq<Step>)
    requires cap > 0 && Valid(ground, Start(cap, persist, shadow), steps)
    ensures AlwaysHonest(ground, Start(cap, persist, shadow), steps)
            <==> (persist ==> ground(shadow)) && SwitchedAtGround(ground, Start(cap, persist, shadow), steps)
  {
    hide Apply, Inv;
    StartHasInv(cap, persist, shadow);
    assert Honest(ground, Start(cap, persist, shadow).rec) <==> (persist ==> ground(shadow));
    if persist ==> ground(shadow) { HonestFromThere(ground, Start(cap, persist, shadow), steps); }
  }

  predicate AlwaysHonest(ground: History -> bool, w: World, steps: seq<Step>)
    requires Valid(ground, w, steps)
    decreases |steps|
  {
    Honest(ground, w.rec) && (steps == [] || AlwaysHonest(ground, Apply(ground, w, steps[0]), steps[1..]))
  }

  predicate SwitchedAtGround(ground: History -> bool, w: World, steps: seq<Step>)
    requires Valid(ground, w, steps)
    decreases |steps|
  {
    steps == [] ||
    (&& (steps[0].Switch? && steps[0].enabled && !w.rec.persist ==> ground(w.shadow))
     && SwitchedAtGround(ground, Apply(ground, w, steps[0]), steps[1..]))
  }

  lemma {:induction false} HonestFromThere(ground: History -> bool, w: World, steps: seq<Step>)
    requires Inv(w) && Valid(ground, w, steps) && Honest(ground, w.rec)
    ensures AlwaysHonest(ground, w, steps) <==> SwitchedAtGround(ground, w, steps)
    decreases |steps|
  {
    hide Apply, Inv, Honest;
    if steps != [] {
      StepKeepsInv(ground, w, steps[0]);
      LabelIsHonestExactly(ground, w, steps[0]);
      var next := Apply(ground, w, steps[0]);
      if Honest(ground, next.rec) { HonestFromThere(ground, next, steps[1..]); }
    }
  }

  // A record is only given up while running when the hard cap is reached mid-sequence.
  lemma ForcedExactly(ground: History -> bool, w: World)
    requires Inv(w) && w.inFlight != [] && w.rec.persist && 0 <= Seen(w)
    ensures var after := Apply(ground, w, Record); var size := w.rec.tailSize + w.rec.pendingSize + |w.inFlight[0].data|;
            !after.rec.record.keyframe.grounded
            <==> if size >= HardCap(w.rec.cap) then !ground(w.shadow)
                 else !w.rec.record.keyframe.grounded && !(size >= w.rec.cap && ground(w.shadow))
  {
    KeptIsOrdered(w.rec, w.inFlight, w.sequence);
    CapBelowHardCap(w.rec.cap);
    hide Ordered, Trailing, Faithful, OutputStream.Bytes, Accepts, HardCap;
  }

  // A record that reaches the cap between two sequences is compacted: the keyframe alone
  // restores the whole terminal. So as long as every read ends there, less than the cap is
  // ever kept beside the keyframe.
  lemma CompactedAtTheCap(ground: History -> bool, w: World)
    requires Inv(w) && w.inFlight != [] && w.rec.persist && 0 <= Seen(w) && ground(w.shadow)
    ensures var after := Apply(ground, w, Record).rec;
            && after.tailSize + after.pendingSize < after.cap == w.rec.cap
            && (w.rec.tailSize + w.rec.pendingSize + |w.inFlight[0].data| >= w.rec.cap ==>
                  after.record == PaneRecord(Keyframe(true, w.shadow), []) && after.pending == []
                  && Recovered(after.record) == Some(w.shadow))
  {
    KeptIsOrdered(w.rec, w.inFlight, w.sequence);
    CapIsPositive(w.rec);
    NothingOf([]);
    assert w.shadow + Fed("") == w.shadow;
    hide Ordered, Trailing, Faithful, OutputStream.Bytes, Accepts, HardCap;
  }

  // A flush is possible at any time and commits all that is recorded: the tail is then
  // every byte recorded since the keyframe.
  lemma FlushCommitsAll(ground: History -> bool, w: World)
    requires Inv(w) && w.rec.persist && 0 <= Seen(w)
    ensures Enabled(w, Flush)
    ensures var after := Apply(ground, w, Flush).rec;
            && after.pending == [] && after.record.keyframe == w.rec.record.keyframe
            && w.start <= Seen(w) <= |w.shadow| && Bytes(after.record.tail) == BytesOf(w.shadow[w.start..Seen(w)])
  {
    hide Ordered, Flushed, Bytes, OnlyBytes, BytesOf, Consistent, Trailing;
    FlushMoves(w.rec, w.inFlight, w.sequence);
    FlushIsFaithful(w.rec, Flushed(w.rec), w.shadow, Seen(w), w.start, w.flushed);
  }

  // A switch takes hold at once: switched on, the record is the whole terminal; switched
  // off, it is blank; and set to what it was, it leaves everything alone.
  lemma SwitchTakesHold(ground: History -> bool, w: World, enabled: bool)
    requires Inv(w) && 0 <= Seen(w)
    ensures var after := Apply(ground, w, Switch(enabled)).rec;
            && after.persist == enabled && after.cap == w.rec.cap
            && if w.rec.persist == enabled then after == w.rec
               else after.pending == [] && Recovered(after.record) == Some(if enabled then w.shadow else [])
                    && (!enabled ==> Blank(after))
  {
    NothingOf([]);
    assert w.shadow + Fed("") == w.shadow && [] + Fed("") == [];
    hide Ordered, Trailing, Faithful, OutputStream.Bytes;
  }

  lemma CapBelowHardCap(cap: nat)
    ensures cap <= HardCap(cap)
  {
  }

  // ---- The objects -------------------------------------------------------

  // One pane's rows of the catalog. Tail rows are in sequence order.
  class PaneStore {
    var record: PaneRecord
    const tailCap: nat

    constructor (tailCap: nat)
      ensures this.tailCap == tailCap && record == PaneRecord(Keyframe(true, []), [])
    {
      this.tailCap := tailCap;
      record := PaneRecord(Keyframe(true, []), []);
    }

    // SavePaneKeyframe: one transaction replaces the keyframe and deletes the tail.
    method SaveKeyframe(keyframe: Keyframe)
      modifies this
      ensures record == PaneRecord(keyframe, [])
    {
      record := PaneRecord(keyframe, []);
    }

    // AppendPaneBatch: the batch's own checks, then the cap, then the last committed row.
    method AppendBatch(chunks: seq<Output>) returns (ok: bool)
      modifies this
      ensures ok == Accepts(old(record).tail, chunks, tailCap)
      ensures record == if ok then old(record).(tail := old(record).tail + chunks) else old(record)
    {
      hide OutputStream.Bytes;
      if chunks == [] {
        assert record.tail + chunks == record.tail;
        return true;
      }
      var sound, batchSize := CheckBatch(chunks);
      if !sound || |Bytes(record.tail)| + batchSize > tailCap { return false; }
      if record.tail != [] && chunks[0].sequence <= record.tail[|record.tail| - 1].sequence { return false; }
      record := record.(tail := record.tail + chunks);
      return true;
    }

    // LoadPane and the replay over the restored keyframe.
    method Recover() returns (shadow: Option<History>)
      ensures shadow == Recovered(record)
    {
      if !record.keyframe.grounded { return None; }
      var state := record.keyframe.state;
      var i := 0;
      NothingOf([]);
      assert state + Fed(Bytes([])) == state && record.tail[..0] == [];
      while i < |record.tail|
        invariant i <= |record.tail|
        invariant state == record.keyframe.state + Fed(Bytes(record.tail[..i]))
      {
        BytesOfPrefix(record.tail, i);
        FedAppend(Bytes(record.tail[..i]), record.tail[i].data);
        state := state + Fed(record.tail[i].data);
        i := i + 1;
      }
      assert record.tail[..i] == record.tail;
      return Some(state);
    }
  }

  lemma BytesOfPrefix(outputs: seq<Output>, i: nat)
    requires i < |outputs|
    ensures Bytes(outputs[..i + 1]) == Bytes(outputs[..i]) + outputs[i].data
  {
    assert outputs[..i + 1][..i] == outputs[..i];
  }

  lemma FedAppend(a: string, b: string)
    ensures Fed(a + b) == Fed(a) + Fed(b)
  {
  }

  // The loop of AppendPaneBatch: where it stops, the size it has added up is not used.
  method CheckBatch(chunks: seq<Output>) returns (sound: bool, batchSize: nat)
    ensures sound <==> NoneEmpty(chunks) && Rising(chunks)
    ensures sound ==> batchSize == |Bytes(chunks)|
  {
    hide OutputStream.Bytes;
    batchSize := 0;
    NothingOf([]);
    var index := 0;
    assert chunks[..0] == [];
    while index < |chunks|
      invariant index <= |chunks|
      invariant NoneEmpty(chunks[..index]) && Rising(chunks[..index])
      invariant batchSize == |Bytes(chunks[..index])|
    {
      if chunks[index].data == "" { return false, batchSize; }
      if index > 0 && chunks[index].sequence <= chunks[index - 1].sequence { return false, batchSize; }
      BytesOfPrefix(chunks, index);
      RisingOneMore(chunks, index);
      batchSize := batchSize + |chunks[index].data|;
      index := index + 1;
    }
    assert chunks[..index] == chunks;
    return true, batchSize;
  }

  lemma RisingOneMore(chunks: seq<Output>, i: nat)
    requires i < |chunks| && Rising(chunks[..i]) && (i > 0 ==> chunks[i - 1].sequence < chunks[i].sequence)
    ensures Rising(chunks[..i + 1])
  {
    var more := chunks[..i + 1];
    forall p, q | 0 <= p < q < |more| ensures more[p].sequence < more[q].sequence {
      if q < i {
        assert more[p] == chunks[..i][p] && more[q] == chunks[..i][q];
      } else if p < i - 1 {
        assert more[p] == chunks[..i][p] && chunks[i - 1] == chunks[..i][i - 1];
      }
    }
  }

  class PaneRecorder {
    const ground: History -> bool
    const store: PaneStore
    const cap: nat
    var persistContent: bool
    var tailSize: nat
    var pending: seq<Output>
    var pendingSize: nat

    ghost function State(): Recording
      reads this, store
    {
      Recording(cap, persistContent, tailSize, pending, pendingSize, store.record)
    }

    // newRecorder and Initialize: a cap that is not positive is the default.
    constructor (ground: History -> bool, cap: int, persist: bool, shadow: History)
      ensures fresh(store) && this.ground == ground && store.tailCap == HardCap(this.cap)
      ensures this.cap == (if cap <= 0 then DEFAULT_TAIL_CAP else cap)
      ensures State() == Start(this.cap, persist, shadow).rec
    {
      var own: nat := if cap <= 0 then DEFAULT_TAIL_CAP else cap;
      this.ground, this.cap, persistContent := ground, own, persist;
      tailSize, pending, pendingSize := 0, [], 0;
      store := new PaneStore(4 * own);
      new;
      store.SaveKeyframe(Keyframe(true, if persist then shadow else []));
    }

    method SaveKeyframe(grounded: bool, shadow: History)
      modifies this, store
      ensures State() == Framed(old(State()), grounded, shadow)
    {
      store.SaveKeyframe(Keyframe(grounded, if persistContent then shadow else []));
      tailSize, pending, pendingSize := 0, [], 0;
    }

    // RecordFed.
    method RecordFed(shadow: History, output: Output) returns (ok: bool)
      requires store.tailCap == HardCap(cap)
      modifies this, store
      ensures State() == Recorded(ground, old(State()), shadow, output)
    {
      hide Accepts, OutputStream.Bytes;
      if output.data == "" || !persistContent { return true; }
      var isGround := ground(shadow);
      var nextSize := tailSize + pendingSize + |output.data|;
      if nextSize >= cap && isGround {
        SaveKeyframe(true, shadow);
        return true;
      }
      if nextSize >= 4 * cap {
        SaveKeyframe(false, shadow);
        return true;
      }
      pending := pending + [output];
      pendingSize := pendingSize + |output.data|;
      if pendingSize >= FLUSH_BYTES { ok := Flush(); } else { ok := true; }
    }

    // flushLocked.
    method Flush() returns (ok: bool)
      requires store.tailCap == HardCap(cap)
      modifies this, store
      ensures State() == Flushed(old(State()))
      ensures ok == Accepts(old(store.record.tail), old(pending), HardCap(cap))
    {
      hide NoneEmpty, Rising, OutputStream.Bytes;
      if pending == [] { return true; }
      ok := store.AppendBatch(pending);
      if ok {
        tailSize := tailSize + pendingSize;
        pending, pendingSize := [], 0;
      }
    }

    // SetPersistScrollback.
    method SetPersistScrollback(enabled: bool, shadow: History)
      modifies this, store
      ensures State() == Switched(old(State()), enabled, shadow)
    {
      if persistContent == enabled { return; }
      persistContent := enabled;
      SaveKeyframe(true, shadow);
    }

    // Finalize: a rejected flush ends it early.
    method Finalize(shadow: History) returns (ok: bool)
      requires store.tailCap == HardCap(cap)
      modifies this, store
      ensures ok == Accepts(old(store.record.tail), old(pending), HardCap(cap))
      ensures State() == if ok then Finalized(ground, old(State()), shadow) else old(State())
    {
      hide Accepts;
      ok := Flush();
      if ok { SaveKeyframe(ground(shadow), shadow); }
    }
  }
}
