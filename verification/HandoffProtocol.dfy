// The live upgrade of a running daemon (cmd/cockpit-mux/main.go: upgradeMux,
// handoffChild, waitHandoffChild). The serving process pauses every PTY reader at a
// parser boundary, ships snapshots and descriptors to a child, and either exits for
// good on an ACK or stops the child and resumes. A transition system over any number
// of upgrades; every process that ever lived stays in the state.
//
// A shadow is the sequence of bytes fed to it: any terminal state is a function of
// that sequence, and snapshot and restore are the identity on it.
module HandoffProtocol {
  import opened Text

  datatype Stage =
    | Starting  // a spawned child that holds no descriptor yet
    | Adopted   // descriptors imported, ACK not written
    | Owner     // may read the panes it has started
    | Retired   // committed the handoff; its readers stay paused until it exits
    | Dead

  // `acked` remembers that the process has written an ACK.
  datatype Process = Process(stage: Stage, acked: bool, shadow: seq<string>, reading: set<nat>)

  // Where the serving process is in an upgrade.
  datatype Attempt =
    | Idle
    | Preparing   // pausing readers one by one; mutation refused from here on
    | Prepared    // every reader paused, manifest built
    | Spawned     // child process started, nothing sent
    | Sent        // manifest on the wire, waiting for the result
    | Stopping    // connection closed, waiting for the child to be gone
    | Resuming    // Release: readers resumed one by one
    | Activating  // the child, now serving, starts its readers

  // A stretch of a pane's output that a child read and took down with it.
  datatype Span = Span(child: nat, from: nat, to: nat)

  datatype System = System(
    panes: nat,
    processes: seq<Process>,
    daemon: nat,
    attempt: Attempt,
    manifest: Option<seq<string>>,
    result: Option<bool>,
    pty: seq<string>,     // everything the application has written, per pane
    taken: seq<nat>,      // how much of it some process has read
    lost: seq<seq<Span>>  // which parts of that went down with a child
  )

  // Stretches in the order of the stream, apart from each other, within its first bytes.
  predicate Ascending(spans: seq<Span>, upto: nat)
    decreases |spans|
  {
    spans == [] ||
    var last := spans[|spans| - 1];
    last.from < last.to <= upto && Ascending(spans[..|spans| - 1], last.from)
  }

  // The first bytes of a stream with some stretches removed.
  function Without(stream: string, spans: seq<Span>, upto: nat): string
    requires upto <= |stream| && Ascending(spans, upto)
    decreases |spans|
  {
    if spans == [] then stream[..upto]
    else
      var last := spans[|spans| - 1];
      Without(stream, spans[..|spans| - 1], last.from) + stream[last.to..upto]
  }

  function EndOf(spans: seq<Span>): nat {
    if spans == [] then 0 else spans[|spans| - 1].to
  }

  lemma WithoutGrows(stream: string, spans: seq<Span>, from: nat, upto: nat)
    requires EndOf(spans) <= from <= upto <= |stream| && Ascending(spans, upto)
    ensures Ascending(spans, from)
    ensures Without(stream, spans, upto) == Without(stream, spans, from) + stream[from..upto]
  {
    if spans == [] {
      assert stream[..upto] == stream[..from] + stream[from..upto];
    } else {
      var last := spans[|spans| - 1];
      assert stream[last.to..upto] == stream[last.to..from] + stream[from..upto];
    }
  }

  lemma {:induction false} WithoutOfPrefix(stream: string, more: string, spans: seq<Span>, upto: nat)
    requires upto <= |stream| && Ascending(spans, upto)
    ensures Without(stream + more, spans, upto) == Without(stream, spans, upto)
    decreases |spans|
  {
    if spans != [] {
      var last := spans[|spans| - 1];
      WithoutOfPrefix(stream, more, spans[..|spans| - 1], last.from);
    }
  }

  function Below(n: nat): (r: set<nat>)
    ensures forall i :: i in r <==> 0 <= i < n
  {
    if n == 0 then {} else Below(n - 1) + {n - 1}
  }

  function AllPanes(s: System): set<nat> {
    Below(s.panes)
  }

  function Child(s: System): int {
    |s.processes| - 1
  }

  predicate CanRead(p: Process, pane: nat) {
    p.stage == Owner && pane in p.reading
  }

  predicate HasChild(s: System) {
    s.attempt in {Spawned, Sent, Stopping}
  }

  // requireMutableLocked: topology changes are refused during an attempt.
  predicate Mutable(s: System) {
    s.attempt in {Idle, Activating}
  }

  // ---- Steps ------------------------------------------------------------

  datatype Step =
    | Produce(pane: nat, bytes: string)
    | Read(process: nat, pane: nat, count: nat)
    | Begin
    | Pause(pane: nat)
    | AllPaused
    | Spawn
    | GiveUp
    | Send
    | SendFails(complete: bool)
    | Adopt
    | Nack
    | Ack
    | ReadAck
    | ReadNack
    | ReadFails
    | ChildDies
    | ChildGone
    | Resume(pane: nat)
    | Resumed
    | StartReader(pane: nat)
    | Serve

  // `ground` tells whether a parser that has consumed some bytes is between sequences.
  predicate Enabled(ground: string -> bool, s: System, step: Step)
    requires Shaped(s)
  {
    var daemon := s.processes[s.daemon];
    var child := s.processes[Child(s)];
    match step
    case Produce(i, _) => i < s.panes
    case Read(p, i, k) =>
      p < |s.processes| && i < s.panes && CanRead(s.processes[p], i) && i < |s.processes[p].shadow|
      && 0 < k && s.taken[i] + k <= |s.pty[i]|
    case Begin => s.attempt == Idle && s.panes > 0
    case Pause(i) => s.attempt == Preparing && i in daemon.reading && i < s.panes && ground(daemon.shadow[i])
    case AllPaused => s.attempt == Preparing && daemon.reading == {}
    case Spawn => s.attempt == Prepared
    case GiveUp => s.attempt in {Preparing, Prepared, Spawned}
    case Send => s.attempt == Spawned
    case SendFails(_) => s.attempt == Spawned
    case Adopt => s.attempt in {Sent, Stopping} && child.stage == Starting && s.manifest.Some?
    case Nack => s.attempt == Sent && child.stage in {Starting, Adopted} && s.result.None?
    case Ack => s.attempt == Sent && child.stage == Adopted && s.result.None?
    case ReadAck => s.attempt == Sent && s.result == Some(true)
    case ReadNack => s.attempt == Sent && s.result == Some(false)
    case ReadFails => s.attempt == Sent
    case ChildDies => HasChild(s)
    case ChildGone => s.attempt == Stopping && child.stage == Dead
    case Resume(i) => s.attempt == Resuming && i < s.panes && i !in daemon.reading
    case Resumed => s.attempt == Resuming && daemon.reading == AllPanes(s)
    case StartReader(i) =>
      s.attempt in {Sent, Stopping, Activating} && child.stage == Owner && i < s.panes && i !in child.reading
    case Serve => s.attempt == Activating && daemon.stage == Owner && daemon.reading == AllPanes(s)
  }

  function WithProcess(s: System, p: nat, process: Process): System
    requires p < |s.processes|
  {
    s.(processes := s.processes[p := process])
  }

  // What a child read beyond its snapshot goes down with it.
  function LostWith(s: System, i: nat): seq<Span>
    requires Shaped(s) && i < s.panes
  {
    var child, daemon := s.processes[Child(s)], s.processes[s.daemon];
    if child.acked && |child.shadow| == s.panes && |child.shadow[i]| > |daemon.shadow[i]|
       && s.taken[i] >= |child.shadow[i]| - |daemon.shadow[i]| then
      s.lost[i] + [Span(Child(s), s.taken[i] - (|child.shadow[i]| - |daemon.shadow[i]|), s.taken[i])]
    else s.lost[i]
  }

  function Apply(s: System, step: Step): System
    requires Shaped(s) && Enabled((_ : string) => true, s, step)
  {
    var daemon := s.processes[s.daemon];
    var child := s.processes[Child(s)];
    match step
    case Produce(i, bytes) => s.(pty := s.pty[i := s.pty[i] + bytes])
    case Read(p, i, k) =>
      var bytes := s.pty[i][s.taken[i]..s.taken[i] + k];
      var process := s.processes[p];
      WithProcess(s, p, process.(shadow := process.shadow[i := process.shadow[i] + bytes]))
        .(taken := s.taken[i := s.taken[i] + k])
    case Begin => s.(attempt := Preparing)
    case Pause(i) => WithProcess(s, s.daemon, daemon.(reading := daemon.reading - {i}))
    case AllPaused => s.(attempt := Prepared)
    case Spawn =>
      s.(attempt := Spawned, processes := s.processes + [Process(Starting, false, [], {})],
         manifest := None, result := None)
    case GiveUp => s.(attempt := Resuming)
    case Send => s.(attempt := Sent, manifest := Some(daemon.shadow))
    case SendFails(complete) =>
      s.(attempt := Stopping, manifest := if complete then Some(daemon.shadow) else None)
    case Adopt => WithProcess(s, Child(s), Process(Adopted, false, s.manifest.value, {}))
    case Nack => WithProcess(s, Child(s), child.(stage := Dead)).(result := Some(false))
    case Ack => WithProcess(s, Child(s), child.(stage := Owner, acked := true)).(result := Some(true))
    case ReadAck =>
      WithProcess(s, s.daemon, daemon.(stage := Retired)).(daemon := Child(s), attempt := Activating)
    case ReadNack => s.(attempt := Stopping)
    case ReadFails => s.(attempt := Stopping)
    case ChildDies => WithProcess(s, Child(s), child.(stage := Dead))
    case ChildGone =>
      s.(lost := seq(s.panes, i requires 0 <= i < s.panes => LostWith(s, i)), attempt := Resuming)
    case Resume(i) => WithProcess(s, s.daemon, daemon.(reading := daemon.reading + {i}))
    case Resumed => s.(attempt := Idle)
    case StartReader(i) => WithProcess(s, Child(s), child.(reading := child.reading + {i}))
    case Serve => s.(attempt := Idle)
  }

  // ---- Invariant --------------------------------------------------------

  predicate Shaped(s: System) {
    && 0 <= s.daemon < |s.processes|
    && |s.pty| == |s.taken| == |s.lost| == s.panes
    && |s.processes[s.daemon].shadow| == s.panes
  }

  // The process whose shadow is authoritative: the child from the moment it has
  // written its ACK, until the serving process has seen it gone.
  function Authority(s: System): nat
    requires Shaped(s)
  {
    if HasChild(s) && s.processes[Child(s)].acked then Child(s) else s.daemon
  }

  predicate OthersSilent(s: System)
    requires Shaped(s)
  {
    forall p | 0 <= p < |s.processes| && p != s.daemon && p != Authority(s) :: s.processes[p].stage != Owner
  }

  predicate ChildInv(s: System)
    requires Shaped(s) && HasChild(s)
  {
    var daemon := s.processes[s.daemon];
    var child := s.processes[Child(s)];
    && s.daemon < Child(s) && daemon.reading == {}
    && (s.attempt == Spawned ==> child.stage in {Starting, Dead} && s.manifest.None? && s.result.None?)
    && (s.attempt == Sent ==> s.manifest.Some?)
    && (s.manifest.Some? ==> s.manifest.value == daemon.shadow)
    && child.stage != Retired
    && (child.stage == Starting ==> child.reading == {})
    && (child.stage == Adopted ==> child.shadow == daemon.shadow && child.reading == {})
    && (child.acked <==> s.result == Some(true))
    && (child.acked ==> child.stage in {Owner, Dead})
    && (child.stage == Owner ==> child.acked)
    && (child.acked ==>
          && |child.shadow| == s.panes && child.reading <= AllPanes(s)
          && forall i | 0 <= i < s.panes :: Ahead(s, i))
  }

  // An acknowledged child has its snapshot and what it read since, none of it lost yet.
  predicate Ahead(s: System, i: nat)
    requires Shaped(s) && i < s.panes && |s.processes[Child(s)].shadow| == s.panes
  {
    var daemon, child := s.processes[s.daemon].shadow[i], s.processes[Child(s)].shadow[i];
    daemon <= child && EndOf(s.lost[i]) + (|child| - |daemon|) <= s.taken[i]
  }

  // The authoritative shadow of a pane is what was read off its PTY, in order, without
  // the stretches that went down with a child.
  predicate PaneInv(s: System, i: nat)
    requires Shaped(s) && i < s.panes && |s.processes[Authority(s)].shadow| == s.panes
  {
    && s.taken[i] <= |s.pty[i]| && EndOf(s.lost[i]) <= s.taken[i]
    && Ascending(s.lost[i], s.taken[i])
    && s.processes[Authority(s)].shadow[i] == Without(s.pty[i], s.lost[i], s.taken[i])
  }

  // A lost stretch was read by one child, which had written an ACK and is dead: its own
  // shadow is all that was kept before, and then that stretch.
  predicate SpanInv(s: System, i: nat, k: nat)
    requires Shaped(s) && i < s.panes && k < |s.lost[i]|
  {
    var spans, span := s.lost[i], s.lost[i][k];
    && span.child < |s.processes| && (HasChild(s) ==> span.child < Child(s))
    && span.child != s.daemon
    && span.to <= |s.pty[i]| && Ascending(spans[..k], span.from) && span.from < span.to
    && var child := s.processes[span.child];
    && child.stage == Dead && child.acked && |child.shadow| == s.panes
    && child.shadow[i] == Without(s.pty[i], spans[..k], span.from) + s.pty[i][span.from..span.to]
  }

  predicate SpansInv(s: System)
    requires Shaped(s)
  {
    forall i: nat, k: nat | i < s.panes && k < |s.lost[i]| :: SpanInv(s, i, k)
  }

  predicate PanesInv(s: System)
    requires Shaped(s) && |s.processes[Authority(s)].shadow| == s.panes
  {
    forall i: nat | i < s.panes :: PaneInv(s, i)
  }

  predicate Inv(s: System) {
    && Shaped(s)
    && (s.processes[s.daemon].stage == Owner || (s.attempt == Activating && s.processes[s.daemon].stage == Dead))
    && s.processes[s.daemon].reading <= AllPanes(s)
    && OthersSilent(s)
    && (s.attempt == Idle ==> s.processes[s.daemon].reading == AllPanes(s))
    && (s.attempt == Prepared ==> s.processes[s.daemon].reading == {})
    && (s.attempt == Activating ==> s.daemon == Child(s))
    && (HasChild(s) ==> ChildInv(s))
    && |s.processes[Authority(s)].shadow| == s.panes
    && PanesInv(s) && SpansInv(s)
  }

  predicate Initial(s: System) {
    && s.processes == [Process(Owner, false, seq(s.panes, _ => ""), AllPanes(s))]
    && s.daemon == 0 && s.attempt == Idle && s.manifest == None && s.result == None
    && s.pty == seq(s.panes, _ => "")
    && s.taken == seq(s.panes, _ => 0)
    && s.lost == seq(s.panes, _ => [])
  }

  lemma InitialInv(s: System)
    requires Initial(s)
    ensures Inv(s)
  {
  }

  // Steps that leave every authoritative shadow, PTY and count alone, and the dead dead.
  predicate SameOutput(s: System, t: System)
    requires Shaped(s) && Shaped(t)
  {
    && t.panes == s.panes && t.pty == s.pty && t.taken == s.taken && t.lost == s.lost
    && t.processes[Authority(t)].shadow == s.processes[Authority(s)].shadow
    && (t.daemon == s.daemon || (HasChild(s) && t.daemon == Child(s)))
    && (HasChild(t) ==> (HasChild(s) && Child(t) == Child(s)) || Child(t) == |s.processes|)
    && DeadStay(s, t)
  }

  predicate DeadStay(s: System, t: System) {
    forall p | 0 <= p < |s.processes| && s.processes[p].stage == Dead ::
      p < |t.processes| && t.processes[p] == s.processes[p]
  }

  lemma SamePanes(s: System, t: System)
    requires Inv(s) && Shaped(t) && SameOutput(s, t)
    ensures |t.processes[Authority(t)].shadow| == t.panes && PanesInv(t) && SpansInv(t)
  {
    forall i: nat | i < t.panes ensures PaneInv(t, i) {
      assert PaneInv(s, i);
    }
    forall i: nat, k: nat | i < t.panes && k < |t.lost[i]| ensures SpanInv(t, i, k) {
      assert SpanInv(s, i, k);
    }
  }

  lemma SameSpans(s: System, t: System)
    requires Inv(s) && Shaped(t) && t.panes == s.panes && t.pty == s.pty && t.lost == s.lost && t.daemon == s.daemon
    requires HasChild(t) == HasChild(s) && Child(t) == Child(s) && DeadStay(s, t)
    ensures SpansInv(t)
  {
    forall i: nat, k: nat | i < t.panes && k < |t.lost[i]| ensures SpanInv(t, i, k) {
      assert SpanInv(s, i, k);
    }
  }

  lemma ReadKeepsInv(ground: string -> bool, s: System, p: nat, i: nat, k: nat)
    requires Inv(s) && Enabled(ground, s, Read(p, i, k))
    ensures Inv(Apply(s, Read(p, i, k)))
  {
    var t := Apply(s, Read(p, i, k));
    assert p == Authority(s);
    assert Authority(t) == p;
    hide Without, Ascending, SpanInv, PaneInv, Ahead;
    forall j: nat | j < t.panes ensures PaneInv(t, j) {
      ReadKeepsPane(s, p, i, k, j);
    }
    SameSpans(s, t);
    if HasChild(s) {
      forall j | 0 <= j < t.panes && t.processes[Child(t)].acked ensures Ahead(t, j) {
        ReadStaysAhead(s, i, k, j);
      }
    }
  }

  lemma ReadKeepsPane(s: System, p: nat, i: nat, k: nat, j: nat)
    requires Shaped(s) && p == Authority(s) && i < s.panes && j < s.panes && |s.processes[p].shadow| == s.panes
    requires s.taken[i] + k <= |s.pty[i]| && PaneInv(s, j)
    requires Enabled((_ : string) => true, s, Read(p, i, k))
    ensures var t := Apply(s, Read(p, i, k)); Authority(t) == p && PaneInv(t, j)
  {
    hide Without, Ascending;
    var t := Apply(s, Read(p, i, k));
    if j == i {
      AscendingGrows(s.lost[i], s.taken[i], t.taken[i]);
      WithoutGrows(s.pty[i], s.lost[i], s.taken[i], t.taken[i]);
    }
  }

  lemma ReadStaysAhead(s: System, i: nat, k: nat, j: nat)
    requires Inv(s) && HasChild(s) && Enabled((_ : string) => true, s, Read(Child(s), i, k)) && j < s.panes
    requires s.processes[Child(s)].acked
    ensures Ahead(Apply(s, Read(Child(s), i, k)), j)
  {
    hide PaneInv, SpanInv;
    assert Ahead(s, j);
  }

  lemma AscendingGrows(spans: seq<Span>, from: nat, upto: nat)
    requires from <= upto && Ascending(spans, from)
    ensures Ascending(spans, upto)
  {
  }

  lemma ProduceKeepsInv(s: System, i: nat, bytes: string)
    requires Inv(s) && i < s.panes
    ensures Inv(Apply(s, Produce(i, bytes)))
  {
    var t := Apply(s, Produce(i, bytes));
    hide Without, Ascending;
    forall j: nat | j < t.panes ensures PaneInv(t, j) {
      assert PaneInv(s, j);
      if j == i { WithoutOfPrefix(s.pty[i], bytes, s.lost[i], s.taken[i]); }
    }
    forall j: nat, k: nat | j < t.panes && k < |t.lost[j]| ensures SpanInv(t, j, k) {
      assert SpanInv(s, j, k);
      if j == i {
        var span := s.lost[i][k];
        WithoutOfPrefix(s.pty[i], bytes, s.lost[i][..k], span.from);
        assert (s.pty[i] + bytes)[span.from..span.to] == s.pty[i][span.from..span.to];
      }
    }
    if HasChild(s) {
      forall j | 0 <= j < t.panes && t.processes[Child(t)].acked ensures Ahead(t, j) {
        assert Ahead(s, j);
      }
    }
  }

  // The parent takes over again: what the child read since its snapshot is lost, and
  // the parent's own shadow is what is left.
  lemma TakenBack(s: System, i: nat)
    requires Inv(s) && s.attempt == Stopping && i < s.panes && s.processes[Child(s)].stage == Dead
    ensures var t := Apply(s, ChildGone);
            PaneInv(t, i) && forall k: nat | k < |t.lost[i]| :: SpanInv(t, i, k)
  {
    hide Without, Ascending, SpanInv;
    var child, daemon := s.processes[Child(s)], s.processes[s.daemon];
    assert PaneInv(s, i);
    forall k: nat | k < |s.lost[i]| ensures k < |Apply(s, ChildGone).lost[i]| && SpanInv(Apply(s, ChildGone), i, k) {
      EarlierSpan(s, i, k);
    }
    if child.acked {
      assert Ahead(s, i);
      if |child.shadow[i]| > |daemon.shadow[i]| { TakenBackSpan(s, i); }
    }
  }

  lemma EarlierSpan(s: System, i: nat, k: nat)
    requires Inv(s) && s.attempt == Stopping && s.processes[Child(s)].stage == Dead && i < s.panes && k < |s.lost[i]|
    ensures var t := Apply(s, ChildGone); k < |t.lost[i]| && SpanInv(t, i, k)
  {
    hide Without, Ascending, PaneInv, Ahead;
    var t := Apply(s, ChildGone);
    assert SpanInv(s, i, k);
    assert t.lost[i] == LostWith(s, i);
    assert t.lost[i][..k] == s.lost[i][..k];
  }

  lemma TakenBackSpan(s: System, i: nat)
    requires Inv(s) && s.attempt == Stopping && i < s.panes
    requires var child := s.processes[Child(s)]; child.stage == Dead && child.acked && Ahead(s, i)
    requires |s.processes[Child(s)].shadow[i]| > |s.processes[s.daemon].shadow[i]|
    ensures var t := Apply(s, ChildGone);
            PaneInv(t, i) && t.lost[i] == LostWith(s, i) && |t.lost[i]| == |s.lost[i]| + 1 && SpanInv(t, i, |s.lost[i]|)
  {
    var t := Apply(s, ChildGone);
    var child, daemon := s.processes[Child(s)].shadow[i], s.processes[s.daemon].shadow[i];
    var spans, taken := s.lost[i], s.taken[i];
    assert PaneInv(s, i);
    var from := taken - (|child| - |daemon|);
    WithoutGrows(s.pty[i], spans, from, taken);
    var lost := t.lost[i];
    assert lost == spans + [Span(Child(s), from, taken)];
    assert lost[..|lost| - 1] == spans;
    assert daemon == Without(s.pty[i], spans, from);
    assert s.pty[i][taken..taken] == "";
    assert daemon + "" == daemon;
  }

  lemma ChildGoneKeepsInv(s: System)
    requires Inv(s) && Enabled((_ : string) => true, s, ChildGone)
    ensures Inv(Apply(s, ChildGone))
  {
    hide PaneInv, SpanInv, LostWith;
    forall i: nat | i < s.panes
      ensures var t := Apply(s, ChildGone);
              PaneInv(t, i) && forall k: nat | k < |t.lost[i]| :: SpanInv(t, i, k)
    {
      TakenBack(s, i);
    }
  }

  // The steps of the serving process that touch no shadow.
  lemma ServingKeepsInv(s: System, step: Step)
    requires Inv(s) && Enabled((_ : string) => true, s, step)
    requires step.Begin? || step.Pause? || step.AllPaused? || step.GiveUp? || step.Resume? || step.Resumed? || step.Serve?
    ensures Inv(Apply(s, step))
  {
    hide PaneInv;
    SamePanes(s, Apply(s, step));
  }

  lemma WireKeepsInv(s: System, step: Step)
    requires Inv(s) && Enabled((_ : string) => true, s, step)
    requires step.Send? || step.SendFails? || step.ReadNack? || step.ReadFails?
    ensures Inv(Apply(s, step))
  {
    hide PaneInv, SpanInv, Ahead;
    var t := Apply(s, step);
    SamePanes(s, t);
    if HasChild(s) && s.processes[Child(s)].acked { StillAhead(s, t); }
  }

  lemma ChildKeepsInv(s: System, step: Step)
    requires Inv(s) && Enabled((_ : string) => true, s, step)
    requires step.Adopt? || step.Nack? || step.ChildDies?
    ensures Inv(Apply(s, step))
  {
    hide PaneInv, SpanInv, Ahead;
    var t := Apply(s, step);
    SamePanes(s, t);
    if HasChild(s) && s.processes[Child(s)].acked { StillAhead(s, t); }
  }

  lemma AckKeepsInv(s: System)
    requires Inv(s) && Enabled((_ : string) => true, s, Ack)
    ensures Inv(Apply(s, Ack))
  {
    var t := Apply(s, Ack);
    hide SpanInv, Without, Ascending;
    SamePanes(s, t);
    forall i | 0 <= i < t.panes ensures Ahead(t, i) {
      assert PaneInv(s, i);
    }
  }

  lemma StillAhead(s: System, t: System)
    requires Shaped(s) && Shaped(t) && t.panes == s.panes && t.taken == s.taken && t.lost == s.lost
    requires Child(t) == Child(s) && t.processes[t.daemon].shadow == s.processes[s.daemon].shadow
    requires |s.processes[Child(s)].shadow| == s.panes && t.processes[Child(t)].shadow == s.processes[Child(s)].shadow
    requires forall i | 0 <= i < s.panes :: Ahead(s, i)
    ensures forall i | 0 <= i < t.panes :: Ahead(t, i)
  {
    forall i | 0 <= i < t.panes ensures Ahead(t, i) {
      assert Ahead(s, i);
    }
  }

  lemma StartReaderKeepsInv(s: System, i: nat)
    requires Inv(s) && Enabled((_ : string) => true, s, StartReader(i))
    ensures Inv(Apply(s, StartReader(i)))
  {
    hide PaneInv, SpanInv, Ahead;
    var t := Apply(s, StartReader(i));
    SamePanes(s, t);
    if HasChild(s) { StillAhead(s, t); }
  }

  lemma StepKeepsInv(ground: string -> bool, s: System, step: Step)
    requires Inv(s) && Enabled(ground, s, step)
    ensures Inv(Apply(s, step))
  {
    hide Inv, Apply;
    match step
    case Produce(i, bytes) => ProduceKeepsInv(s, i, bytes);
    case Read(p, i, k) => ReadKeepsInv(ground, s, p, i, k);
    case ChildDies => ChildKeepsInv(s, step);
    case Spawn => SpawnKeepsInv(s);
    case ReadAck => ReadAckKeepsInv(s);
    case StartReader(i) => StartReaderKeepsInv(s, i);
    case ChildGone => ChildGoneKeepsInv(s);
    case Adopt => ChildKeepsInv(s, step);
    case Nack => ChildKeepsInv(s, step);
    case Ack => AckKeepsInv(s);
    case Send => WireKeepsInv(s, step);
    case SendFails(_) => WireKeepsInv(s, step);
    case ReadNack => WireKeepsInv(s, step);
    case ReadFails => WireKeepsInv(s, step);
    case _ => ServingKeepsInv(s, step);
  }

  lemma SpawnKeepsInv(s: System)
    requires Inv(s) && Enabled((_ : string) => true, s, Spawn)
    ensures Inv(Apply(s, Spawn))
  {
    var t := Apply(s, Spawn);
    assert t.processes[Child(t)] == Process(Starting, false, [], {});
    SamePanes(s, t);
  }

  lemma ReadAckKeepsInv(s: System)
    requires Inv(s) && Enabled((_ : string) => true, s, ReadAck)
    ensures Inv(Apply(s, ReadAck))
  {
    var t := Apply(s, ReadAck);
    assert Authority(t) == Authority(s) == Child(s);
    SamePanes(s, t);
  }

  // ---- Runs -------------------------------------------------------------

  predicate Valid(ground: string -> bool, s: System, steps: seq<Step>)
    decreases steps
  {
    steps == [] || (Shaped(s) && Enabled(ground, s, steps[0]) && Valid(ground, Apply(s, steps[0]), steps[1..]))
  }

  function Run(ground: string -> bool, s: System, steps: seq<Step>): System
    requires Valid(ground, s, steps)
    decreases steps
  {
    if steps == [] then s else Run(ground, Apply(s, steps[0]), steps[1..])
  }

  lemma {:induction false} RunKeepsInv(ground: string -> bool, s: System, steps: seq<Step>)
    requires Inv(s) && Valid(ground, s, steps)
    ensures Inv(Run(ground, s, steps))
    decreases steps
  {
    if steps != [] {
      StepKeepsInv(ground, s, steps[0]);
      RunKeepsInv(ground, Apply(s, steps[0]), steps[1..]);
    }
  }

  // At most one process can ever consume a pane's output, across any number of
  // upgrades, refusals, failed sends, lost acknowledgements and killed children.
  lemma SingleReader(ground: string -> bool, s: System, steps: seq<Step>, pane: nat, p: nat, q: nat)
    requires Initial(s) && Valid(ground, s, steps)
    requires var t := Run(ground, s, steps); p < |t.processes| && q < |t.processes|
    requires var t := Run(ground, s, steps); CanRead(t.processes[p], pane) && CanRead(t.processes[q], pane)
    ensures p == q
  {
    InitialInv(s);
    RunKeepsInv(ground, s, steps);
  }

  // The authoritative shadow of a pane holds the bytes read off its PTY, in order,
  // without the lost stretches; each of these was read by one child that had written an
  // ACK and was gone before the ACK was read, on top of everything kept until then.
  lemma Conservation(ground: string -> bool, s: System, steps: seq<Step>, pane: nat, k: nat)
    requires Initial(s) && Valid(ground, s, steps) && pane < s.panes
    ensures var t := Run(ground, s, steps);
            && Inv(t) && t.panes == s.panes && PaneInv(t, pane)
            && var (stream, lost, shadow) := (t.pty[pane], t.lost[pane], t.processes[Authority(t)].shadow[pane]);
            && shadow == Without(stream, lost, t.taken[pane])
            && (shadow == stream[..t.taken[pane]] <==> lost == [])
            && (k < |lost| ==>
                  && SpanInv(t, pane, k)
                  && var (span, child) := (lost[k], t.processes[lost[k].child]);
                  && child.stage == Dead && child.acked
                  && child.shadow[pane] == Without(stream, lost[..k], span.from) + stream[span.from..span.to])
  {
    InitialInv(s);
    RunKeepsInv(ground, s, steps);
    PanesFixed(ground, s, steps);
    var t := Run(ground, s, steps);
    assert PaneInv(t, pane);
    if k < |t.lost[pane]| { assert SpanInv(t, pane, k); }
    WithoutIsShorter(t.pty[pane], t.lost[pane], t.taken[pane]);
  }

  lemma {:induction false} WithoutIsShorter(stream: string, spans: seq<Span>, upto: nat)
    requires upto <= |stream| && Ascending(spans, upto)
    ensures if spans == [] then Without(stream, spans, upto) == stream[..upto] else |Without(stream, spans, upto)| < upto
    decreases |spans|
  {
    if spans != [] {
      WithoutIsShorter(stream, spans[..|spans| - 1], spans[|spans| - 1].from);
    }
  }

  lemma {:induction false} PanesFixed(ground: string -> bool, s: System, steps: seq<Step>)
    requires Valid(ground, s, steps)
    ensures Run(ground, s, steps).panes == s.panes
    decreases steps
  {
    if steps != [] { PanesFixed(ground, Apply(s, steps[0]), steps[1..]); }
  }

  // Whoever reads a pane can take any number of the bytes that wait, and consumes them.
  lemma ReaderTakesWhatWaits(ground: string -> bool, s: System, p: nat, pane: nat, count: nat)
    requires Inv(s) && p < |s.processes| && pane < s.panes && CanRead(s.processes[p], pane)
    requires 0 < count && s.taken[pane] + count <= |s.pty[pane]|
    ensures Enabled(ground, s, Read(p, pane, count)) && p == Authority(s)
    ensures var t := Apply(s, Read(p, pane, count));
            && Inv(t) && t.taken == s.taken[pane := s.taken[pane] + count] && t.pty == s.pty && t.lost == s.lost
            && t.processes[p].shadow
               == s.processes[p].shadow[pane := s.processes[p].shadow[pane] + s.pty[pane][s.taken[pane]..s.taken[pane] + count]]
  {
    hide PaneInv, SpanInv, Ahead, Without, Ascending;
    ReadKeepsInv(ground, s, p, pane, count);
  }

  // A child that has not written its ACK has consumed nothing: its shadows are the
  // snapshots it was sent.
  lemma NothingBeforeAck(ground: string -> bool, s: System, steps: seq<Step>, pane: nat)
    requires Initial(s) && Valid(ground, s, steps)
    ensures var t := Run(ground, s, steps);
            && Inv(t)
            && (HasChild(t) && !t.processes[Child(t)].acked ==>
                  !CanRead(t.processes[Child(t)], pane) && !CanRead(t.processes[t.daemon], pane))
            && (HasChild(t) && t.processes[Child(t)].stage == Adopted ==>
                  t.processes[Child(t)].shadow == t.processes[t.daemon].shadow)
  {
    InitialInv(s);
    RunKeepsInv(ground, s, steps);
  }

  // ---- Recovery ---------------------------------------------------------

  // Release: the paused readers are resumed one after the other, then mutation is
  // allowed again.
  function Releases(s: System, from: nat): seq<Step>
    requires Shaped(s) && from <= s.panes
    decreases s.panes - from
  {
    if from == s.panes then [Resumed]
    else if from in s.processes[s.daemon].reading then Releases(s, from + 1)
    else [Resume(from)] + Releases(s, from + 1)
  }

  // What the serving process does by itself when an attempt goes wrong.
  function Recovery(s: System): seq<Step>
    requires Shaped(s)
  {
    match s.attempt
    case Preparing => [GiveUp] + Releases(s, 0)
    case Prepared => [GiveUp] + Releases(s, 0)
    case Spawned => [GiveUp] + Releases(s, 0)
    case Sent => (if s.processes[Child(s)].stage == Dead then [ReadFails, ChildGone] else [ReadFails, ChildDies, ChildGone])
                 + Releases(s, 0)
    case Stopping => (if s.processes[Child(s)].stage == Dead then [ChildGone] else [ChildDies, ChildGone])
                     + Releases(s, 0)
    case Resuming => Releases(s, 0)
    case _ => []
  }

  // From every reachable state of an attempt those steps are possible and lead back to
  // serving: every reader runs, mutation is allowed, the same process is in charge, and
  // no byte is lost that was not already read by a child with an unread ACK.
  lemma {:induction false} NobodyStranded(ground: string -> bool, s: System)
    requires Inv(s) && s.attempt != Activating
    ensures Valid(ground, s, Recovery(s))
    ensures var t := Run(ground, s, Recovery(s));
            && Inv(t) && t.attempt == Idle && Mutable(t) && t.daemon == s.daemon && t.panes == s.panes
            && t.processes[t.daemon].reading == AllPanes(t)
            && t.processes[t.daemon].shadow == s.processes[s.daemon].shadow
            && (Authority(s) == s.daemon ==> t.lost == s.lost)
    decreases |Recovery(s)|
  {
    var steps := Recovery(s);
    if s.attempt != Idle {
      RecoveryStep(s);
      StepKeepsInv(ground, s, steps[0]);
      hide Inv, Apply, Recovery;
      NobodyStranded(ground, Apply(s, steps[0]));
    }
  }

  lemma RecoveryStep(s: System)
    requires Inv(s) && s.attempt !in {Idle, Activating}
    ensures Recovery(s) != []
    ensures var step := Recovery(s)[0];
            && !step.Produce? && !step.Read? && !step.Pause?
            && Enabled((_ : string) => true, s, step)
            && var t := Apply(s, step);
            && t.attempt != Activating && t.daemon == s.daemon && t.panes == s.panes
            && Shaped(t) && t.processes[t.daemon].shadow == s.processes[s.daemon].shadow
            && Recovery(t) == Recovery(s)[1..]
            && (Authority(s) == s.daemon ==> Authority(t) == t.daemon && t.lost == s.lost)
  {
    hide PaneInv, SpanInv, Ahead, Without, Ascending;
    if s.attempt == Resuming {
      FirstRelease(s, 0);
    } else {
      RecoveryHead(s);
    }
  }

  lemma RecoveryHead(s: System)
    requires Shaped(s) && s.attempt !in {Idle, Resuming, Activating} && (HasChild(s) ==> s.daemon < Child(s))
    ensures Recovery(s) != []
    ensures var step := Recovery(s)[0];
            && (step.GiveUp? || step.ReadFails? || step.ChildDies? || step.ChildGone?)
            && Enabled((_ : string) => true, s, step)
            && var t := Apply(s, step);
            && t.attempt != Activating && t.daemon == s.daemon && t.panes == s.panes
            && Shaped(t) && t.processes[t.daemon] == s.processes[s.daemon]
            && Recovery(t) == Recovery(s)[1..]
            && (Authority(s) == s.daemon ==> Authority(t) == t.daemon && t.lost == s.lost)
  {
    hide LostWith, Releases;
    if s.attempt == Stopping && s.processes[Child(s)].stage == Dead {
      GoneHead(s);
    } else if HasChild(s) && s.attempt != Spawned {
      ChildHead(s);
    } else {
      SameReleases(s, Apply(s, GiveUp), 0);
    }
  }

  lemma ChildHead(s: System)
    requires Shaped(s) && s.attempt in {Sent, Stopping} && s.daemon < Child(s)
    requires s.attempt == Stopping ==> s.processes[Child(s)].stage != Dead
    ensures var step := if s.attempt == Sent then ReadFails else ChildDies;
            && Recovery(s) != [] && Recovery(s)[0] == step && Enabled((_ : string) => true, s, step)
            && var t := Apply(s, step);
            && t.attempt == Stopping && t.daemon == s.daemon && t.panes == s.panes && t.lost == s.lost
            && Shaped(t) && t.processes[t.daemon] == s.processes[s.daemon] && Authority(t) == Authority(s)
            && Recovery(t) == Recovery(s)[1..]
  {
    hide LostWith, Releases;
    SameReleases(s, Apply(s, if s.attempt == Sent then ReadFails else ChildDies), 0);
  }

  lemma GoneHead(s: System)
    requires Shaped(s) && s.attempt == Stopping && s.processes[Child(s)].stage == Dead && s.daemon < Child(s)
    ensures Recovery(s) == [ChildGone] + Releases(s, 0)
    ensures var t := Apply(s, ChildGone);
            && t.daemon == s.daemon && t.panes == s.panes && Shaped(t) && t.processes == s.processes
            && t.attempt == Resuming && Recovery(t) == Releases(s, 0)
            && (Authority(s) == s.daemon ==> Authority(t) == t.daemon && t.lost == s.lost)
  {
    hide LostWith, Releases;
    SameReleases(s, Apply(s, ChildGone), 0);
    if !s.processes[Child(s)].acked { NothingLost(s); }
  }

  lemma NothingLost(s: System)
    requires Shaped(s) && s.attempt == Stopping && !s.processes[Child(s)].acked
    ensures seq(s.panes, i requires 0 <= i < s.panes => LostWith(s, i)) == s.lost
  {
  }

  lemma {:induction false} SameReleases(s: System, t: System, from: nat)
    requires Shaped(s) && Shaped(t) && t.panes == s.panes && from <= s.panes
    requires t.processes[t.daemon].reading == s.processes[s.daemon].reading
    ensures Releases(t, from) == Releases(s, from)
    decreases s.panes - from
  {
    if from < s.panes { SameReleases(s, t, from + 1); }
  }

  // The first of the releases is possible, and leaves the others.
  lemma {:induction false} FirstRelease(s: System, from: nat)
    requires Inv(s) && s.attempt == Resuming && from <= s.panes
    requires forall i: nat | i < from :: i in s.processes[s.daemon].reading
    ensures Releases(s, from) != []
    ensures var step := Releases(s, from)[0];
            && (step == Resumed || step.Resume?)
            && Enabled((_ : string) => true, s, step)
            && var t := Apply(s, step);
            Recovery(t) == Releases(s, from)[1..]
    decreases s.panes - from
  {
    if from == s.panes {
      assert s.processes[s.daemon].reading == AllPanes(s);
    } else if from in s.processes[s.daemon].reading {
      FirstRelease(s, from + 1);
    } else {
      var t := Apply(s, Resume(from));
      SkipReleased(t, 0, from + 1);
      ReleasedBefore(s, t, from + 1);
    }
  }

  lemma {:induction false} SkipReleased(s: System, from: nat, upto: nat)
    requires Shaped(s) && from <= upto <= s.panes
    requires forall i: nat | i < upto :: i in s.processes[s.daemon].reading
    ensures Releases(s, from) == Releases(s, upto)
    decreases upto - from
  {
    if from < upto { SkipReleased(s, from + 1, upto); }
  }

  lemma {:induction false} ReleasedBefore(s: System, t: System, from: nat)
    requires Shaped(s) && Shaped(t) && t.panes == s.panes && 0 < from <= s.panes
    requires t.processes[t.daemon].reading == s.processes[s.daemon].reading + {from - 1}
             || forall i: nat | from <= i < s.panes ::
                  i in t.processes[t.daemon].reading <==> i in s.processes[s.daemon].reading
    ensures Releases(t, from) == Releases(s, from)
    decreases s.panes - from
  {
    if from < s.panes { ReleasedBefore(s, t, from + 1); }
  }

  // ---- Handing over -----------------------------------------------------

  // The readers the child has not started yet, one after the other; then it serves.
  function Starts(s: System, from: nat): seq<Step>
    requires Shaped(s) && from <= s.panes
    decreases s.panes - from
  {
    if from == s.panes then [Serve]
    else if from in s.processes[Child(s)].reading then Starts(s, from + 1)
    else [StartReader(from)] + Starts(s, from + 1)
  }

  // An upgrade is committed: from every reachable state with an accepted result on the
  // wire and a live child, reading it and the child's own starts are possible and lead to
  // a daemon that serves. It is the former child, which reads every pane and goes on from
  // where its snapshots and its own reads had got; nothing is lost, and the old process has
  // retired.
  lemma CommittedHandsOver(ground: string -> bool, s: System)
    requires Inv(s) && s.attempt == Sent && s.result == Some(true) && s.processes[Child(s)].stage == Owner
    ensures Valid(ground, s, [ReadAck] + Starts(s, 0))
    ensures var t := Run(ground, s, [ReadAck] + Starts(s, 0));
            && Inv(t) && t.attempt == Idle && Mutable(t) && t.panes == s.panes
            && t.daemon == Child(s) == Child(t) && t.processes[t.daemon].stage == Owner
            && t.processes[t.daemon].reading == AllPanes(t)
            && t.processes[t.daemon].shadow == s.processes[Child(s)].shadow
            && (forall i | 0 <= i < s.panes :: s.processes[s.daemon].shadow[i] <= t.processes[t.daemon].shadow[i])
            && t.processes[s.daemon].stage == Retired
            && t.lost == s.lost && t.taken == s.taken && t.pty == s.pty
  {
    var steps := [ReadAck] + Starts(s, 0);
    assert steps[0] == ReadAck && steps[1..] == Starts(s, 0);
    StepKeepsInv(ground, s, ReadAck);
    forall i | 0 <= i < s.panes ensures s.processes[s.daemon].shadow[i] <= s.processes[Child(s)].shadow[i] {
      assert Ahead(s, i);
    }
    hide PaneInv, SpanInv, Ahead, Without, Ascending;
    var next := Apply(s, ReadAck);
    SameStarts(s, next, 0);
    hide Inv, Starts;
    ChildServes(ground, next, 0);
  }

  lemma {:induction false} SameStarts(s: System, t: System, from: nat)
    requires Shaped(s) && Shaped(t) && t.panes == s.panes && from <= s.panes
    requires forall i: nat | from <= i < s.panes ::
               i in t.processes[Child(t)].reading <==> i in s.processes[Child(s)].reading
    ensures Starts(t, from) == Starts(s, from)
    decreases s.panes - from
  {
    if from < s.panes { SameStarts(s, t, from + 1); }
  }

  lemma {:induction false} ChildServes(ground: string -> bool, s: System, from: nat)
    requires Inv(s) && s.attempt == Activating && s.processes[s.daemon].stage == Owner && from <= s.panes
    requires forall i: nat | i < from :: i in s.processes[s.daemon].reading
    ensures Valid(ground, s, Starts(s, from))
    ensures var t := Run(ground, s, Starts(s, from));
            && Inv(t) && t.attempt == Idle && t.panes == s.panes && t.daemon == s.daemon == Child(t)
            && t.processes[t.daemon].reading == AllPanes(t) && t.processes[t.daemon].stage == Owner
            && t.processes[t.daemon].shadow == s.processes[s.daemon].shadow
            && (forall p | 0 <= p < |s.processes| && p != s.daemon :: p < |t.processes| && t.processes[p] == s.processes[p])
            && t.lost == s.lost && t.taken == s.taken && t.pty == s.pty
    decreases s.panes - from
  {
    hide PaneInv, SpanInv, Ahead, Without, Ascending, OthersSilent;
    if from == s.panes {
      assert s.processes[s.daemon].reading == AllPanes(s);
      LastStep(ground, s);
    } else if from in s.processes[s.daemon].reading {
      ChildServes(ground, s, from + 1);
    } else {
      var next := Apply(s, StartReader(from));
      StepKeepsInv(ground, s, StartReader(from));
      SameStarts(s, next, from + 1);
      assert ([StartReader(from)] + Starts(s, from + 1))[1..] == Starts(next, from + 1);
      hide Inv;
      ChildServes(ground, next, from + 1);
    }
  }

  lemma LastStep(ground: string -> bool, s: System)
    requires Inv(s) && Enabled(ground, s, Serve)
    ensures Valid(ground, s, [Serve]) && Run(ground, s, [Serve]) == s.(attempt := Idle) && Inv(s.(attempt := Idle))
  {
    hide PaneInv, SpanInv;
    StepKeepsInv(ground, s, Serve);
    assert [Serve][1..] == [];
  }

  // A retired process is left as it is by every further run: it never reads again.
  lemma {:induction false} RetiredForGood(ground: string -> bool, s: System, steps: seq<Step>, p: nat)
    requires Inv(s) && Valid(ground, s, steps) && p < |s.processes| && s.processes[p].stage == Retired
    ensures var t := Run(ground, s, steps);
            p < |t.processes| && t.processes[p] == s.processes[p] && forall pane: nat :: !CanRead(t.processes[p], pane)
    decreases steps
  {
    hide PaneInv, SpanInv, Ahead, Without, Ascending, LostWith;
    if steps != [] {
      StepKeepsInv(ground, s, steps[0]);
      RetiredStays(ground, s, steps[0], p);
      hide Inv, Apply, Enabled;
      RetiredForGood(ground, Apply(s, steps[0]), steps[1..], p);
    }
  }

  lemma RetiredStays(ground: string -> bool, s: System, step: Step, p: nat)
    requires Inv(s) && Enabled(ground, s, step) && p < |s.processes| && s.processes[p].stage == Retired
    ensures var t := Apply(s, step); p < |t.processes| && t.processes[p] == s.processes[p]
  {
    hide PaneInv, SpanInv, Ahead, Without, Ascending, LostWith;
  }

  // The pauses of the panes that still read, one after the other.
  function Pauses(s: System, from: nat): seq<Step>
    requires Shaped(s) && from <= s.panes
    decreases s.panes - from
  {
    if from == s.panes then [AllPaused, Spawn, Send, Adopt, Ack]
    else [Pause(from)] + Pauses(s, from + 1)
  }

  // A whole upgrade can succeed: from every reachable state of a serving daemon whose
  // parsers are all between sequences, a run pauses every pane and gets an acknowledged
  // child that holds the snapshots, from where CommittedHandsOver goes on.
  lemma UpgradeCanBeAcknowledged(ground: string -> bool, s: System)
    requires Inv(s) && s.attempt == Idle && s.panes > 0
    requires forall i | 0 <= i < s.panes :: ground(s.processes[s.daemon].shadow[i])
    ensures Valid(ground, s, [Begin] + Pauses(s, 0))
    ensures var t := Run(ground, s, [Begin] + Pauses(s, 0));
            && Inv(t) && t.attempt == Sent && t.result == Some(true) && t.daemon == s.daemon && t.panes == s.panes
            && Child(t) == |s.processes| && t.processes[Child(t)] == Process(Owner, true, s.processes[s.daemon].shadow, {})
            && t.lost == s.lost && t.taken == s.taken && t.pty == s.pty
  {
    var steps := [Begin] + Pauses(s, 0);
    assert steps[0] == Begin && steps[1..] == Pauses(s, 0);
    StepKeepsInv(ground, s, Begin);
    hide PaneInv, SpanInv, Ahead, Without, Ascending;
    var next := Apply(s, Begin);
    SamePauses(s, next, 0);
    hide Inv, Pauses;
    PausesAcknowledged(ground, next, 0);
  }

  // So from every reachable state of a serving daemon whose parsers are all between
  // sequences, an upgrade can succeed whole: another process serves and reads every pane,
  // with the shadows the old one had, and nothing is read or lost on the way.
  lemma UpgradeCanSucceed(ground: string -> bool, s: System) returns (t: System)
    requires Inv(s) && s.attempt == Idle && s.panes > 0
    requires forall i | 0 <= i < s.panes :: ground(s.processes[s.daemon].shadow[i])
    ensures Reachable(ground, s, t) && Inv(t) && t.attempt == Idle && t.panes == s.panes
    ensures t.daemon == |s.processes| && t.processes[t.daemon].stage == Owner && t.processes[t.daemon].reading == AllPanes(t)
    ensures t.processes[t.daemon].shadow == s.processes[s.daemon].shadow && t.processes[s.daemon].stage == Retired
    ensures t.lost == s.lost && t.taken == s.taken && t.pty == s.pty
  {
    var first := [Begin] + Pauses(s, 0);
    UpgradeCanBeAcknowledged(ground, s);
    var acked := Run(ground, s, first);
    var more := [ReadAck] + Starts(acked, 0);
    hide Inv, Valid, Run, Pauses, Starts;
    CommittedHandsOver(ground, acked);
    RunMore(ground, s, first, more);
    t := Run(ground, acked, more);
    assert Valid(ground, s, first + more) && Run(ground, s, first + more) == t;
  }

  // The ways an upgrade fails before an ACK are possible, and each leads to where Recovery
  // starts: a child can refuse what it was sent, which takes it down and tells the parent,
  // and the sending can break off, leaving the child what it has got. Nothing is lost.
  lemma RefusalIsReported(ground: string -> bool, s: System)
    requires Inv(s) && s.attempt == Sent && s.result.None? && s.processes[Child(s)].stage in {Starting, Adopted}
    ensures Valid(ground, s, [Nack, ReadNack])
    ensures var t := Run(ground, s, [Nack, ReadNack]);
            && Inv(t) && t.attempt == Stopping && t.daemon == s.daemon && t.lost == s.lost
            && t.processes[Child(t)].stage == Dead && Recovery(t) == [ChildGone] + Releases(t, 0)
  {
    hide PaneInv, SpanInv, Ahead, Without, Ascending, OthersSilent;
    var refused := Apply(s, Nack);
    StepKeepsInv(ground, s, Nack);
    StepKeepsInv(ground, refused, ReadNack);
    Nothing(ground, Apply(refused, ReadNack));
    Then(ground, refused, ReadNack, []);
    Then(ground, s, Nack, [ReadNack]);
    assert [Nack] + [ReadNack] == [Nack, ReadNack];
    hide Inv, Valid, Run;
  }

  lemma SendingMayFail(ground: string -> bool, s: System, complete: bool)
    requires Inv(s) && s.attempt == Spawned
    ensures Enabled(ground, s, SendFails(complete))
    ensures var t := Apply(s, SendFails(complete));
            && Inv(t) && t.attempt == Stopping && t.processes == s.processes && t.daemon == s.daemon && t.lost == s.lost
            && t.result.None? && !Enabled(ground, t, Ack) && !Enabled(ground, t, ReadAck)
            && (Enabled(ground, t, Adopt) <==> complete && t.processes[Child(t)].stage == Starting)
  {
    hide PaneInv, SpanInv, Ahead, Without, Ascending, OthersSilent;
    StepKeepsInv(ground, s, SendFails(complete));
  }

  lemma {:induction false} SamePauses(s: System, t: System, from: nat)
    requires Shaped(s) && Shaped(t) && t.panes == s.panes && from <= s.panes
    ensures Pauses(t, from) == Pauses(s, from)
    decreases s.panes - from
  {
    if from < s.panes { SamePauses(s, t, from + 1); }
  }

  ghost predicate ReadsFrom(s: System, from: nat)
    requires Shaped(s)
  {
    forall i: nat :: i in s.processes[s.daemon].reading <==> from <= i < s.panes
  }

  lemma {:induction false} PausesAcknowledged(ground: string -> bool, s: System, from: nat)
    requires Inv(s) && s.attempt == Preparing && from <= s.panes && ReadsFrom(s, from)
    requires forall i | 0 <= i < s.panes :: ground(s.processes[s.daemon].shadow[i])
    ensures Valid(ground, s, Pauses(s, from))
    ensures var t := Run(ground, s, Pauses(s, from));
            && Inv(t) && t.attempt == Sent && t.result == Some(true) && t.daemon == s.daemon && t.panes == s.panes
            && Child(t) == |s.processes| && t.processes[Child(t)] == Process(Owner, true, s.processes[s.daemon].shadow, {})
            && t.lost == s.lost && t.taken == s.taken && t.pty == s.pty
    decreases s.panes - from
  {
    hide PaneInv, SpanInv, Ahead, Without, Ascending, OthersSilent;
    if from == s.panes {
      assert s.processes[s.daemon].reading == {};
      Acknowledged(ground, s);
    } else {
      var next := Apply(s, Pause(from));
      StepKeepsInv(ground, s, Pause(from));
      SamePauses(s, next, from + 1);
      assert ([Pause(from)] + Pauses(s, from + 1))[1..] == Pauses(next, from + 1);
      hide Inv;
      PausesAcknowledged(ground, next, from + 1);
    }
  }

  lemma Acknowledged(ground: string -> bool, s: System)
    requires Inv(s) && s.attempt == Preparing && s.processes[s.daemon].reading == {}
    ensures var steps := [AllPaused, Spawn, Send, Adopt, Ack];
            && Valid(ground, s, steps)
            && var t := Run(ground, s, steps);
            && Inv(t) && t.attempt == Sent && t.result == Some(true) && t.daemon == s.daemon && t.panes == s.panes
            && Child(t) == |s.processes| && t.processes[Child(t)] == Process(Owner, true, s.processes[s.daemon].shadow, {})
            && t.lost == s.lost && t.taken == s.taken && t.pty == s.pty
  {
    hide *;
    var sent := SentToChild(ground, s);
    var t := AcceptedByChild(ground, sent);
    FiveSteps(ground, s, AllPaused, Spawn, Send, Adopt, Ack);
  }

  lemma SentToChild(ground: string -> bool, s: System) returns (t: System)
    requires Inv(s) && s.attempt == Preparing && s.processes[s.daemon].reading == {}
    ensures Shaped(s) && Enabled(ground, s, AllPaused)
    ensures var s1 := Apply(s, AllPaused); Shaped(s1) && Enabled(ground, s1, Spawn)
    ensures var s2 := Apply(Apply(s, AllPaused), Spawn); Shaped(s2) && Enabled(ground, s2, Send) && t == Apply(s2, Send)
    ensures Inv(t) && t.attempt == Sent && t.result.None? && t.daemon == s.daemon && t.panes == s.panes
    ensures Child(t) == |s.processes| && t.processes[Child(t)] == Process(Starting, false, [], {})
    ensures t.manifest == Some(s.processes[s.daemon].shadow) && t.lost == s.lost && t.taken == s.taken && t.pty == s.pty
  {
    hide PaneInv, SpanInv, Ahead, Without, Ascending, OthersSilent, ChildInv, PanesInv, SpansInv;
    var s1 := Apply(s, AllPaused);
    StepKeepsInv(ground, s, AllPaused);
    var s2 := Apply(s1, Spawn);
    StepKeepsInv(ground, s1, Spawn);
    t := Apply(s2, Send);
    StepKeepsInv(ground, s2, Send);
  }

  lemma AcceptedByChild(ground: string -> bool, s: System) returns (t: System)
    requires Inv(s) && s.attempt == Sent && s.result.None? && s.manifest.Some?
    requires s.processes[Child(s)] == Process(Starting, false, [], {})
    ensures Shaped(s) && Enabled(ground, s, Adopt)
    ensures var s4 := Apply(s, Adopt); Shaped(s4) && Enabled(ground, s4, Ack) && t == Apply(s4, Ack)
    ensures Inv(t) && t.attempt == Sent && t.result == Some(true) && t.daemon == s.daemon && t.panes == s.panes
    ensures Child(t) == Child(s) && t.processes[Child(t)] == Process(Owner, true, s.manifest.value, {})
    ensures t.lost == s.lost && t.taken == s.taken && t.pty == s.pty
  {
    hide PaneInv, SpanInv, Ahead, Without, Ascending, OthersSilent, ChildInv, PanesInv, SpansInv;
    var s4 := Apply(s, Adopt);
    StepKeepsInv(ground, s, Adopt);
    t := Apply(s4, Ack);
    StepKeepsInv(ground, s4, Ack);
  }

  lemma FiveSteps(ground: string -> bool, s: System, a: Step, b: Step, c: Step, d: Step, e: Step)
    requires Shaped(s) && Enabled(ground, s, a)
    requires var s1 := Apply(s, a); Shaped(s1) && Enabled(ground, s1, b)
    requires var s2 := Apply(Apply(s, a), b); Shaped(s2) && Enabled(ground, s2, c)
    requires var s3 := Apply(Apply(Apply(s, a), b), c); Shaped(s3) && Enabled(ground, s3, d)
    requires var s4 := Apply(Apply(Apply(Apply(s, a), b), c), d); Shaped(s4) && Enabled(ground, s4, e)
    ensures Valid(ground, s, [a, b, c, d, e])
    ensures Run(ground, s, [a, b, c, d, e]) == Apply(Apply(Apply(Apply(Apply(s, a), b), c), d), e)
  {
    hide Apply, Valid, Run, Shaped, CanRead, HasChild, Child, AllPanes;
    var s1 := Apply(s, a);
    var s2 := Apply(s1, b);
    var s3 := Apply(s2, c);
    var s4 := Apply(s3, d);
    Nothing(ground, Apply(s4, e));
    Then(ground, s4, e, []);
    Then(ground, s3, d, [e]);
    Then(ground, s2, c, [d, e]);
    Then(ground, s1, b, [c, d, e]);
    Then(ground, s, a, [b, c, d, e]);
    assert [d] + [e] == [d, e] && [c] + [d, e] == [c, d, e] && [b] + [c, d, e] == [b, c, d, e];
    assert [a] + [b, c, d, e] == [a, b, c, d, e];
  }

  lemma Then(ground: string -> bool, s: System, step: Step, rest: seq<Step>)
    requires Shaped(s) && Enabled(ground, s, step)
    ensures Valid(ground, Apply(s, step), rest) ==>
              Valid(ground, s, [step] + rest) && Run(ground, s, [step] + rest) == Run(ground, Apply(s, step), rest)
    ensures [step] + [] == [step]
  {
    assert ([step] + rest)[1..] == rest;
  }

  lemma Nothing(ground: string -> bool, s: System)
    ensures Valid(ground, s, []) && Run(ground, s, []) == s
  {
  }

  // ---- Grounded boundaries ----------------------------------------------

  // During an attempt, a paused pane's parser is between sequences.
  predicate PausedAreGrounded(ground: string -> bool, s: System)
    requires Shaped(s)
  {
    !Mutable(s) ==>
      forall i: nat | i < s.panes && i !in s.processes[s.daemon].reading :: ground(s.processes[s.daemon].shadow[i])
  }

  lemma GroundedStep(ground: string -> bool, s: System, step: Step)
    requires Inv(s) && Enabled(ground, s, step) && PausedAreGrounded(ground, s)
    ensures Inv(Apply(s, step)) && PausedAreGrounded(ground, Apply(s, step))
  {
    hide PaneInv;
    StepKeepsInv(ground, s, step);
    if HasChild(s) || step.Read? || step.Produce? {
      GroundedChildStep(ground, s, step);
    }
  }

  lemma GroundedChildStep(ground: string -> bool, s: System, step: Step)
    requires Inv(s) && Enabled(ground, s, step) && PausedAreGrounded(ground, s)
    requires HasChild(s) || step.Read? || step.Produce?
    ensures Shaped(Apply(s, step)) && PausedAreGrounded(ground, Apply(s, step))
  {
    StepKeepsInv(ground, s, step);
    hide PaneInv, LostWith;
  }

  lemma {:induction false} GroundedRun(ground: string -> bool, s: System, steps: seq<Step>)
    requires Inv(s) && Valid(ground, s, steps) && PausedAreGrounded(ground, s)
    ensures Inv(Run(ground, s, steps)) && PausedAreGrounded(ground, Run(ground, s, steps))
    decreases steps
  {
    hide Inv, PausedAreGrounded;
    if steps != [] {
      GroundedStep(ground, s, steps[0]);
      GroundedRun(ground, Apply(s, steps[0]), steps[1..]);
    }
  }

  // Every snapshot a child adopts was taken between sequences.
  lemma AdoptedAtGround(ground: string -> bool, s: System, steps: seq<Step>, pane: nat)
    requires Initial(s) && Valid(ground, s, steps) && pane < s.panes
    ensures var t := Run(ground, s, steps);
            && Inv(t) && t.panes == s.panes
            && (HasChild(t) && t.processes[Child(t)].stage == Adopted ==>
                  ground(t.processes[Child(t)].shadow[pane]))
  {
    InitialInv(s);
    GroundedRun(ground, s, steps);
    PanesFixed(ground, s, steps);
  }

  // ---- The window outside the guarantee ---------------------------------

  ghost predicate Reachable(ground: string -> bool, s: System, t: System) {
    exists steps :: Valid(ground, s, steps) && Run(ground, s, steps) == t
  }

  lemma {:induction false} RunSnoc(ground: string -> bool, s: System, steps: seq<Step>, step: Step)
    requires Valid(ground, s, steps)
    requires var t := Run(ground, s, steps); Shaped(t) && Enabled(ground, t, step)
    ensures Valid(ground, s, steps + [step])
    ensures Run(ground, s, steps + [step]) == Apply(Run(ground, s, steps), step)
    decreases steps
  {
    if steps == [] {
      assert steps + [step] == [step];
      assert [step][1..] == [];
    } else {
      assert (steps + [step])[1..] == steps[1..] + [step];
      RunSnoc(ground, Apply(s, steps[0]), steps[1..], step);
    }
  }

  lemma OneMore(ground: string -> bool, s: System, t: System, step: Step)
    requires Reachable(ground, s, t) && Shaped(t) && Enabled(ground, t, step)
    ensures Reachable(ground, s, Apply(t, step))
  {
    var steps :| Valid(ground, s, steps) && Run(ground, s, steps) == t;
    RunSnoc(ground, s, steps, step);
  }

  // A pane with one byte waiting, the ACK written and unread, the child reading.
  const ACKED: System := System(
    1, [Process(Owner, false, [""], {}), Process(Owner, true, [""], {0})], 0, Sent, Some([""]), Some(true),
    ["a"], [0], [[]])

  lemma AckedIsReachable(s: System)
    requires Initial(s) && s.panes == 1
    ensures Reachable(_ => true, s, ACKED)
  {
    var g: string -> bool := _ => true;
    assert Below(1) == {0} && seq(1, _ => "") == [""] && seq(1, _ => 0) == [0];
    assert seq(1, _ => []) == s.lost && s.lost == [[]];
    assert s == System(1, [Process(Owner, false, [""], {0})], 0, Idle, None, None, [""], [0], [[]]);
    assert Valid(g, s, []) && Run(g, s, []) == s;
    var s1 := s.(pty := ["a"]);
    assert s.pty[0] + "a" == "a";
    assert Apply(s, Produce(0, "a")) == s1;
    OneMore(g, s, s, Produce(0, "a"));
    var s2 := s1.(attempt := Preparing);
    OneMore(g, s, s1, Begin);
    var s3 := s2.(processes := [Process(Owner, false, [""], {})]);
    assert Apply(s2, Pause(0)) == s3;
    OneMore(g, s, s2, Pause(0));
    var s4 := s3.(attempt := Prepared);
    OneMore(g, s, s3, AllPaused);
    AckedFromPrepared(g, s, s4);
  }

  lemma AckedFromPrepared(g: string -> bool, s: System, s4: System)
    requires s4 == System(1, [Process(Owner, false, [""], {})], 0, Prepared, None, None, ["a"], [0], [[]])
    requires Reachable(g, s, s4)
    ensures Reachable(g, s, ACKED)
  {
    var parent := Process(Owner, false, [""], {});
    var s5 := s4.(attempt := Spawned, processes := [parent, Process(Starting, false, [], {})]);
    assert Apply(s4, Spawn) == s5;
    OneMore(g, s, s4, Spawn);
    var s6 := s5.(attempt := Sent, manifest := Some([""]));
    OneMore(g, s, s5, Send);
    AckedFromSent(g, s, s6);
  }

  lemma AckedFromSent(g: string -> bool, s: System, s6: System)
    requires s6 == System(1, [Process(Owner, false, [""], {}), Process(Starting, false, [], {})], 0, Sent, Some([""]), None,
                          ["a"], [0], [[]])
    requires Reachable(g, s, s6)
    ensures Reachable(g, s, ACKED)
  {
    var parent := Process(Owner, false, [""], {});
    var s7 := s6.(processes := [parent, Process(Adopted, false, [""], {})]);
    assert Apply(s6, Adopt) == s7;
    OneMore(g, s, s6, Adopt);
    var s8 := s7.(processes := [parent, Process(Owner, true, [""], {})], result := Some(true));
    assert Apply(s7, Ack) == s8;
    OneMore(g, s, s7, Ack);
    StartingReaches(s8);
    OneMore(g, s, s8, StartReader(0));
  }

  lemma StartingReaches(s8: System)
    requires s8 == ACKED.(processes := [Process(Owner, false, [""], {}), Process(Owner, true, [""], {})])
    ensures Shaped(s8) && Enabled((_ : string) => true, s8, StartReader(0))
    ensures Apply(s8, StartReader(0)) == ACKED
  {
    var none: set<nat> := {};
    assert none + {0} == {0};
    assert s8.processes[1 := Process(Owner, true, [""], none + {0})] == ACKED.processes;
  }

  lemma {:induction false} RunMore(ground: string -> bool, s: System, first: seq<Step>, more: seq<Step>)
    requires Valid(ground, s, first) && Valid(ground, Run(ground, s, first), more)
    ensures Valid(ground, s, first + more)
    ensures Run(ground, s, first + more) == Run(ground, Run(ground, s, first), more)
    decreases first
  {
    hide Apply;
    if first == [] {
      assert first + more == more;
    } else {
      assert (first + more)[0] == first[0] && (first + more)[1..] == first[1..] + more;
      RunMore(ground, Apply(s, first[0]), first[1..], more);
    }
  }

  // From any state in which a child is reading behind an unread ACK, a timeout loses
  // what it reads. So the exception in Conservation cannot be dropped.
  lemma UnreadAckLoses(ground: string -> bool, s: System, pane: nat)
    requires Inv(s) && s.attempt == Sent && pane < s.panes
    requires CanRead(s.processes[Child(s)], pane) && s.taken[pane] < |s.pty[pane]|
    ensures exists t :: Reachable(ground, s, t) && Inv(t) && t.panes == s.panes && t.attempt == Idle
                        && |t.lost[pane]| == |s.lost[pane]| + 1
  {
    assert Valid(ground, s, []) && Run(ground, s, []) == s;
    var s1 := Apply(s, Read(Child(s), pane, 1));
    OneMore(ground, s, s, Read(Child(s), pane, 1));
    StepKeepsInv(ground, s, Read(Child(s), pane, 1));
    assert Ahead(s, pane) && Ahead(s1, pane);
    var t := RecoveryAfterRead(ground, s, s1, pane);
  }

  lemma RecoveryAfterRead(ground: string -> bool, s: System, s1: System, pane: nat) returns (t: System)
    requires Inv(s1) && s1.attempt == Sent && pane < s1.panes == s.panes && |s.lost| == s.panes
    requires s1.processes[Child(s1)].stage == Owner && s1.lost == s.lost
    requires |s1.processes[Child(s1)].shadow[pane]| > |s1.processes[s1.daemon].shadow[pane]|
    requires Reachable(ground, s, s1)
    ensures Reachable(ground, s, t) && Inv(t) && t.panes == s.panes && t.attempt == Idle
    ensures |t.lost[pane]| == |s.lost[pane]| + 1
  {
    var s3 := ReadThenKilled(ground, s, s1, pane);
    var s4 := Apply(s3, ChildGone);
    OneMore(ground, s, s3, ChildGone);
    StepKeepsInv(ground, s3, ChildGone);
    assert s4.lost[pane] == LostWith(s3, pane);
    assert Authority(s4) == s4.daemon;
    t := Recovered(ground, s, s4);
  }

  lemma ReadThenKilled(ground: string -> bool, s: System, s1: System, pane: nat) returns (s3: System)
    requires Inv(s1) && s1.attempt == Sent && pane < s1.panes && s1.processes[Child(s1)].stage == Owner
    requires Reachable(ground, s, s1)
    ensures Reachable(ground, s, s3) && Inv(s3) && s3.attempt == Stopping && s3.panes == s1.panes
    ensures s3.lost == s1.lost && s3.daemon == s1.daemon && Child(s3) == Child(s1)
    ensures var child := s3.processes[Child(s3)];
            child.stage == Dead && child.acked && child.shadow == s1.processes[Child(s1)].shadow
    ensures s3.processes[s3.daemon].shadow == s1.processes[s1.daemon].shadow && Ahead(s3, pane)
  {
    hide PaneInv, SpanInv, Without, Ascending;
    var s2 := Apply(s1, ReadFails);
    OneMore(ground, s, s1, ReadFails);
    StepKeepsInv(ground, s1, ReadFails);
    s3 := Apply(s2, ChildDies);
    OneMore(ground, s, s2, ChildDies);
    StepKeepsInv(ground, s2, ChildDies);
  }

  lemma Recovered(ground: string -> bool, s: System, s4: System) returns (t: System)
    requires Inv(s4) && s4.attempt == Resuming && Reachable(ground, s, s4)
    ensures Reachable(ground, s, t) && Inv(t) && t.panes == s4.panes && t.attempt == Idle && t.lost == s4.lost
  {
    hide Inv, Recovery;
    NobodyStranded(ground, s4);
    t := Run(ground, s4, Recovery(s4));
    var steps :| Valid(ground, s, steps) && Run(ground, s, steps) == s4;
    RunMore(ground, s, steps, Recovery(s4));
  }
}
