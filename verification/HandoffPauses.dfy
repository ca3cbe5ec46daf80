// How a daemon pauses all its readers for an upgrade (daemon/handoff_prepare.go:
// Operations.PrepareHandoff, and PreparedHandoff.Release): one pane after the other, each
// by the protocol of ReaderPause, and released again in that order when anything fails.
// The panes' readers go on by themselves all the while. `Matches` relates this to the
// parent's side of HandoffProtocol, where a pane is either paused or reading.
module HandoffPauses {
  import opened Text
  import R = ReaderPause
  import H = HandoffProtocol

  datatype Phase =
    | Serving                // mutation is allowed
    | Pausing                // about to pause the next pane, or done with the last
    | Asking(request: nat)   // inside the next pane's PrepareHandoff
    | Prepared               // every pane is held
    | Releasing(done: nat)   // Release: so many panes have been released

  // `releases` holds, for the panes paused so far, the request each is held by.
  datatype Daemon = Daemon(panes: seq<R.State>, phase: Phase, releases: seq<nat>)

  datatype Step =
    | Begin
    | Ask                             // the next pane's request, or its refusal
    | See
    | Expire
    | Fail                            // the pane's state cannot be captured
    | Take
    | AllHeld
    | GiveUp                          // any failure outside a pane's pause
    | ReleaseNext
    | Finish
    | Reader(pane: nat, step: R.Step) // a step of one pane's own reader

  predicate IsReaders(step: R.Step) {
    step.Load? || step.CheckGround? || step.Confirm? || step.Wake? || step.Clear? || step.Pumped? || step.Stop?
  }

  // The requester's step the daemon takes on the pane it is asking.
  function Requested(step: Step, r: nat): R.Step
    requires step in {See, Expire, Fail, Take}
  {
    match step
    case See => R.SeeReady(r)
    case Expire => R.TimeOut(r)
    case Fail => R.StateFails(r)
    case _ => R.StateTaken(r)
  }

  predicate Enabled(d: Daemon, step: Step) {
    match step
    case Begin => d.phase == Serving && d.panes != []
    case Ask => d.phase == Pausing && |d.releases| < |d.panes|
    case AllHeld => d.phase == Pausing && |d.releases| == |d.panes|
    case GiveUp => d.phase == Pausing || d.phase == Prepared
    case ReleaseNext =>
      d.phase.Releasing? && d.phase.done < |d.releases| <= |d.panes|
      && R.Enabled(d.panes[d.phase.done], R.Release(d.releases[d.phase.done]))
    case Finish => d.phase.Releasing? && d.phase.done == |d.releases|
    case Reader(i, own) => i < |d.panes| && IsReaders(own) && R.Enabled(d.panes[i], own)
    case _ =>
      d.phase.Asking? && |d.releases| < |d.panes|
      && R.Enabled(d.panes[|d.releases|], Requested(step, d.phase.request))
  }

  function OnPane(d: Daemon, i: nat, step: R.Step): Daemon
    requires i < |d.panes| && R.Enabled(d.panes[i], step)
  {
    d.(panes := d.panes[i := R.Apply(d.panes[i], step)])
  }

  function Apply(d: Daemon, step: Step): Daemon
    requires Enabled(d, step)
  {
    match step
    case Begin => d.(phase := Pausing, releases := [])
    case Ask =>
      var next := |d.releases|;
      if d.panes[next].current.Some? then d.(phase := Releasing(0))
      else OnPane(d, next, R.Open).(phase := Asking(|d.panes[next].requests|))
    case AllHeld => d.(phase := Prepared)
    case GiveUp => d.(phase := Releasing(0))
    case ReleaseNext =>
      OnPane(d, d.phase.done, R.Release(d.releases[d.phase.done])).(phase := Releasing(d.phase.done + 1))
    case Finish => d.(phase := Serving, releases := [])
    case Reader(i, own) => OnPane(d, i, own)
    case See => OnPane(d, |d.releases|, Requested(See, d.phase.request))
    case Take =>
      OnPane(d, |d.releases|, Requested(Take, d.phase.request))
        .(phase := Pausing, releases := d.releases + [d.phase.request])
    case _ => OnPane(d, |d.releases|, Requested(step, d.phase.request)).(phase := Releasing(0))
  }

  // ---- Invariant --------------------------------------------------------

  // The request by which the daemon still holds or asks a pane.
  function Open(d: Daemon, i: nat): Option<nat> {
    if i < |d.releases| && !(d.phase.Releasing? && i < d.phase.done) then Some(d.releases[i])
    else if d.phase.Asking? && i == |d.releases| then Some(d.phase.request)
    else None
  }

  // Nobody but the daemon has an unfinished request, and it only the one it knows of.
  ghost predicate PaneInv(d: Daemon, i: nat)
    requires i < |d.panes|
  {
    && R.Inv(d.panes[i])
    && (forall q: nat | R.Known(d.panes[i], q) && Open(d, i) != Some(q) ::
          d.panes[i].requests[q].requester == R.Done)
    && (Open(d, i).Some? ==>
          var q := Open(d, i).value;
          R.Known(d.panes[i], q) && d.panes[i].current == Some(q)
          && if i < |d.releases| then d.panes[i].requests[q].requester == R.Holding
             else d.panes[i].requests[q].requester in {R.Waiting, R.Ready})
  }

  ghost predicate Inv(d: Daemon) {
    && |d.releases| <= |d.panes|
    && (d.phase == Serving ==> d.releases == [])
    && (d.phase.Asking? ==> |d.releases| < |d.panes|)
    && (d.phase == Prepared ==> |d.releases| == |d.panes|)
    && (d.phase.Releasing? ==> d.phase.done <= |d.releases|)
    && forall i: nat | i < |d.panes| :: PaneInv(d, i)
  }

  // A daemon that has never attempted an upgrade.
  predicate Initial(d: Daemon) {
    d.phase == Serving && d.releases == [] && forall p | p in d.panes :: p == R.Initial
  }

  lemma InitialInv(d: Daemon)
    requires Initial(d)
    ensures Inv(d)
  {
    forall i: nat | i < |d.panes| ensures PaneInv(d, i) {
      assert d.panes[i] in d.panes;
    }
  }

  // What a step of one pane's protocol does to its requesters and to the request it
  // works on.
  lemma OnPaneFacts(p: R.State, step: R.Step)
    requires R.Inv(p) && R.Enabled(p, step)
    ensures var n := R.Apply(p, step);
            && R.Inv(n) && |n.requests| == |p.requests| + (if step.Open? then 1 else 0)
            && (forall q: nat | R.Known(p, q) && (IsReaders(step) || step.Open?) ::
                  n.requests[q].requester == p.requests[q].requester)
            && (step.Open? ==> n.current == Some(|p.requests|) && n.requests[|p.requests|] == R.NewRequest)
            && (forall q: nat | R.Known(p, q) && p.requests[q].requester != R.Done && IsReaders(step) ::
                  n.current == p.current)
  {
    R.StepKeepsInv(p, step);
    forall q: nat | R.Known(p, q) && p.requests[q].requester != R.Done && IsReaders(step)
      ensures R.Apply(p, step).current == p.current
    {
      assert R.RequestInv(p, q);
    }
  }

  lemma RequesterFacts(p: R.State, step: R.Step, r: nat)
    requires R.Inv(p) && R.Enabled(p, step)
    requires step in {R.SeeReady(r), R.TimeOut(r), R.StateFails(r), R.StateTaken(r), R.Release(r)}
    ensures var n := R.Apply(p, step);
            && R.Inv(n) && |n.requests| == |p.requests|
            && (forall q: nat | R.Known(p, q) && q != r :: n.requests[q] == p.requests[q])
            && n.requests[r].requester ==
               (if step == R.SeeReady(r) then R.Ready else if step == R.StateTaken(r) then R.Holding else R.Done)
            && (step == R.SeeReady(r) || step == R.StateTaken(r) ==> n.current == p.current)
  {
    R.StepKeepsInv(p, step);
  }

  lemma ReaderKeepsInv(d: Daemon, k: nat, own: R.Step)
    requires Inv(d) && Enabled(d, Reader(k, own))
    ensures Inv(Apply(d, Reader(k, own)))
  {
    var t := Apply(d, Reader(k, own));
    forall i: nat | i < |t.panes| ensures PaneInv(t, i) {
      assert PaneInv(d, i);
      if i == k {
        OnPaneFacts(d.panes[k], own);
        hide R.Inv, R.Apply;
      }
    }
  }

  lemma AskKeepsInv(d: Daemon)
    requires Inv(d) && Enabled(d, Ask)
    ensures Inv(Apply(d, Ask))
  {
    var t := Apply(d, Ask);
    var k := |d.releases|;
    forall i: nat | i < |t.panes| ensures PaneInv(t, i) {
      assert PaneInv(d, i);
      if i == k && d.panes[k].current.None? { OnPaneFacts(d.panes[k], R.Open); }
      hide R.Inv, R.Apply;
    }
  }

  lemma RequesterKeepsInv(d: Daemon, step: Step)
    requires Inv(d) && Enabled(d, step) && step in {See, Expire, Fail, Take}
    ensures Inv(Apply(d, step))
  {
    var t := Apply(d, step);
    var k := |d.releases|;
    forall i: nat | i < |t.panes| ensures PaneInv(t, i) {
      assert PaneInv(d, i);
      if i == k { RequesterFacts(d.panes[k], Requested(step, d.phase.request), d.phase.request); }
      hide R.Inv, R.Apply;
    }
  }

  lemma ReleaseKeepsInv(d: Daemon)
    requires Inv(d) && Enabled(d, ReleaseNext)
    ensures Inv(Apply(d, ReleaseNext))
  {
    var t := Apply(d, ReleaseNext);
    var k := d.phase.done;
    forall i: nat | i < |t.panes| ensures PaneInv(t, i) {
      assert PaneInv(d, i);
      if i == k { RequesterFacts(d.panes[k], R.Release(d.releases[k]), d.releases[k]); }
      hide R.Inv, R.Apply;
    }
  }

  lemma StepKeepsInv(d: Daemon, step: Step)
    requires Inv(d) && Enabled(d, step)
    ensures Inv(Apply(d, step)) && |Apply(d, step).panes| == |d.panes|
  {
    match step
    case Reader(k, own) => ReaderKeepsInv(d, k, own);
    case Ask => AskKeepsInv(d);
    case ReleaseNext => ReleaseKeepsInv(d);
    case See => RequesterKeepsInv(d, step);
    case Expire => RequesterKeepsInv(d, step);
    case Fail => RequesterKeepsInv(d, step);
    case Take => RequesterKeepsInv(d, step);
    case _ =>
      hide R.Inv, R.Apply;
      forall i: nat | i < |d.panes| ensures PaneInv(Apply(d, step), i) {
        assert PaneInv(d, i);
      }
  }

  // ---- Runs -------------------------------------------------------------

  predicate Valid(d: Daemon, steps: seq<Step>)
    decreases steps
  {
    steps == [] || (Enabled(d, steps[0]) && Valid(Apply(d, steps[0]), steps[1..]))
  }

  function Run(d: Daemon, steps: seq<Step>): Daemon
    requires Valid(d, steps)
    decreases steps
  {
    if steps == [] then d else Run(Apply(d, steps[0]), steps[1..])
  }

  lemma {:induction false} RunKeepsInv(d: Daemon, steps: seq<Step>)
    requires Inv(d) && Valid(d, steps)
    ensures Inv(Run(d, steps)) && |Run(d, steps).panes| == |d.panes|
    decreases steps
  {
    if steps != [] {
      StepKeepsInv(d, steps[0]);
      RunKeepsInv(Apply(d, steps[0]), steps[1..]);
    }
  }

  lemma {:induction false} RunMore(d: Daemon, first: seq<Step>, more: seq<Step>)
    requires Valid(d, first) && Valid(Run(d, first), more)
    ensures Valid(d, first + more) && Run(d, first + more) == Run(Run(d, first), more)
    decreases first
  {
    if first == [] {
      assert first + more == more;
    } else {
      assert (first + more)[1..] == first[1..] + more;
      RunMore(Apply(d, first[0]), first[1..], more);
    }
  }

  // In every interleaving: a pane that is held has its reader stopped on that very
  // request, and nothing but the daemon's own release can wake it.
  lemma HeldIsStopped(d: Daemon, steps: seq<Step>, i: nat)
    requires Initial(d) && Valid(d, steps)
    requires var t := Run(d, steps); i < |t.releases| && (t.phase.Releasing? ==> t.phase.done <= i)
    ensures var t := Run(d, steps);
            && i < |t.panes| && Paused(t.panes[i]) && t.panes[i].reader == R.Blocked(t.releases[i])
            && (t.phase == Prepared ==> |t.releases| == |t.panes|)
  {
    InitialInv(d);
    RunKeepsInv(d, steps);
    var t := Run(d, steps);
    assert PaneInv(t, i);
    assert R.RequestInv(t.panes[i], t.releases[i]);
  }

  // ---- Holding every pane -----------------------------------------------

  // How one pane comes to be held: asked, and its reader taking its next turn between
  // sequences.
  function Hold(i: nat): seq<Step> {
    [Ask, Reader(i, R.Load), Reader(i, R.CheckGround(true)), Reader(i, R.Confirm), See, Take]
  }

  function Holds(i: nat, panes: nat): seq<Step>
    requires i <= panes
    decreases panes - i
  {
    if i == panes then [AllHeld] else Hold(i) + Holds(i + 1, panes)
  }

  // A daemon can be prepared. From every state of every run in which it serves and its
  // readers are in their loops, however many there are and whatever earlier attempts left
  // behind, asking each pane in turn holds them all.
  lemma CanPrepare(d: Daemon)
    requires Inv(d) && d.phase == Serving && d.panes != [] && forall i: nat | i < |d.panes| :: d.panes[i].reader == R.Loop
    ensures var steps := [Begin] + Holds(0, |d.panes|);
            && Valid(d, steps)
            && var t := Run(d, steps);
            && Inv(t) && t.phase == Prepared && |t.releases| == |t.panes| == |d.panes|
            && forall i: nat | i < |t.panes| :: Paused(t.panes[i]) && t.panes[i].reader == R.Blocked(t.releases[i])
  {
    var next := Apply(d, Begin);
    StepKeepsInv(d, Begin);
    hide Inv;
    HoldsTheRest(next);
    Then(d, Begin, Holds(0, |d.panes|));
    AllAreStopped(Run(d, [Begin] + Holds(0, |d.panes|)));
  }

  lemma AllAreStopped(d: Daemon)
    requires Inv(d) && d.phase == Prepared
    ensures forall i: nat | i < |d.panes| :: Paused(d.panes[i]) && d.panes[i].reader == R.Blocked(d.releases[i])
  {
    forall i: nat | i < |d.panes| ensures Paused(d.panes[i]) && d.panes[i].reader == R.Blocked(d.releases[i]) {
      assert PaneInv(d, i);
      assert R.RequestInv(d.panes[i], d.releases[i]);
    }
  }

  lemma {:induction false} HoldsTheRest(d: Daemon)
    requires Inv(d) && d.phase == Pausing && |d.releases| <= |d.panes|
    requires forall i: nat | |d.releases| <= i < |d.panes| :: d.panes[i].reader == R.Loop
    ensures Valid(d, Holds(|d.releases|, |d.panes|))
    ensures var t := Run(d, Holds(|d.releases|, |d.panes|)); Inv(t) && t.phase == Prepared && |t.panes| == |d.panes|
    decreases |d.panes| - |d.releases|
  {
    var k := |d.releases|;
    if k == |d.panes| {
      StepKeepsInv(d, AllHeld);
      Then(d, AllHeld, []);
    } else {
      NoneCurrent(d, k);
      var t := HoldsNext(d);
      RunKeepsInv(d, Hold(k));
      hide Inv, Hold;
      HoldsTheRest(t);
      RunMore(d, Hold(k), Holds(k + 1, |d.panes|));
    }
  }

  lemma NoneCurrent(d: Daemon, i: nat)
    requires Inv(d) && d.phase in {Serving, Pausing} && |d.releases| <= i < |d.panes| && d.panes[i].reader == R.Loop
    ensures d.panes[i].current.None?
  {
    assert PaneInv(d, i);
    if d.panes[i].current.Some? { assert R.RequestInv(d.panes[i], d.panes[i].current.value); }
  }

  lemma HoldsNext(d: Daemon) returns (t: Daemon)
    requires d.phase == Pausing && |d.releases| < |d.panes|
    requires d.panes[|d.releases|].reader == R.Loop && d.panes[|d.releases|].current.None?
    ensures Valid(d, Hold(|d.releases|)) && t == Run(d, Hold(|d.releases|))
    ensures t.phase == Pausing && |t.releases| == |d.releases| + 1 && |t.panes| == |d.panes|
    ensures forall i: nat | |t.releases| <= i < |t.panes| :: t.panes[i] == d.panes[i]
  {
    var k := |d.releases|;
    var asked := Apply(d, Ask);
    var stopped := ReaderStops(asked, k);
    var seen := Apply(stopped, See);
    t := Apply(seen, Take);
    hide Apply, Enabled;
    Then(seen, Take, []);
    Then(stopped, See, [Take]);
    RunMore(asked, [Reader(k, R.Load), Reader(k, R.CheckGround(true)), Reader(k, R.Confirm)], [See, Take]);
    assert [Reader(k, R.Load), Reader(k, R.CheckGround(true)), Reader(k, R.Confirm)] + [See, Take]
           == [Reader(k, R.Load), Reader(k, R.CheckGround(true)), Reader(k, R.Confirm), See, Take];
    Then(d, Ask, [Reader(k, R.Load), Reader(k, R.CheckGround(true)), Reader(k, R.Confirm), See, Take]);
  }

  // The reader's turn between sequences, for the request the daemon has just made.
  lemma ReaderStops(d: Daemon, k: nat) returns (t: Daemon)
    requires d.phase.Asking? && k == |d.releases| < |d.panes| && d.panes[k].reader == R.Loop
    requires var r := d.phase.request;
             R.Known(d.panes[k], r) && d.panes[k].current == Some(r) && d.panes[k].requests[r] == R.NewRequest
    ensures var steps := [Reader(k, R.Load), Reader(k, R.CheckGround(true)), Reader(k, R.Confirm)];
            Valid(d, steps) && t == Run(d, steps)
    ensures t.phase == d.phase && t.releases == d.releases && |t.panes| == |d.panes|
    ensures forall i: nat | i < |d.panes| && i != k :: t.panes[i] == d.panes[i]
    ensures R.RequesterIs(t.panes[k], d.phase.request, R.Waiting) && t.panes[k].requests[d.phase.request].ready
  {
    var d2 := Apply(d, Reader(k, R.Load));
    var d3 := Apply(d2, Reader(k, R.CheckGround(true)));
    t := Apply(d3, Reader(k, R.Confirm));
    hide Apply, Enabled;
    Then(d3, Reader(k, R.Confirm), []);
    Then(d2, Reader(k, R.CheckGround(true)), [Reader(k, R.Confirm)]);
    Then(d, Reader(k, R.Load), [Reader(k, R.CheckGround(true)), Reader(k, R.Confirm)]);
  }

  lemma Then(d: Daemon, step: Step, rest: seq<Step>)
    requires Enabled(d, step)
    ensures Valid(Apply(d, step), []) && Run(Apply(d, step), []) == Apply(d, step)
    ensures Valid(Apply(d, step), rest) ==>
              Valid(d, [step] + rest) && Run(d, [step] + rest) == Run(Apply(d, step), rest)
    ensures [step] + [] == [step]
  {
    assert ([step] + rest)[1..] == rest;
  }

  // A reader stopped at a release that is not closed.
  predicate Paused(p: R.State) {
    p.reader.Blocked? && R.Known(p, p.reader.request) && !p.requests[p.reader.request].released
  }

  // ---- Release ----------------------------------------------------------

  function Releases(n: nat): seq<Step> {
    if n == 0 then [Finish] else [ReleaseNext] + Releases(n - 1)
  }

  // What the daemon does by itself, whatever its readers do, to serve again.
  function Recovery(d: Daemon): seq<Step>
    requires |d.releases| <= |d.panes| && (d.phase.Releasing? ==> d.phase.done <= |d.releases|)
    requires d.phase.Asking? ==> |d.releases| < |d.panes| && R.Known(d.panes[|d.releases|], d.phase.request)
  {
    match d.phase
    case Serving => []
    case Pausing => [GiveUp] + Releases(|d.releases|)
    case Prepared => [GiveUp] + Releases(|d.releases|)
    case Asking(r) =>
      [if R.RequesterIs(d.panes[|d.releases|], r, R.Waiting) then Expire else Fail] + Releases(|d.releases|)
    case Releasing(done) => Releases(|d.releases| - done)
  }

  lemma AskingIsKnown(d: Daemon)
    requires Inv(d) && d.phase.Asking?
    ensures R.Known(d.panes[|d.releases|], d.phase.request)
    ensures d.panes[|d.releases|].requests[d.phase.request].requester in {R.Waiting, R.Ready}
    ensures d.panes[|d.releases|].requests[d.phase.request].requester == R.Ready ==> Paused(d.panes[|d.releases|])
  {
    assert PaneInv(d, |d.releases|);
    assert R.RequestInv(d.panes[|d.releases|], d.phase.request);
  }

  lemma RecoveryStep(d: Daemon)
    requires Inv(d) && d.phase != Serving && (d.phase.Asking? ==> R.Known(d.panes[|d.releases|], d.phase.request))
    ensures Recovery(d) != [] && Enabled(d, Recovery(d)[0])
    ensures var t := Apply(d, Recovery(d)[0]);
            && !t.phase.Asking? && |t.releases| <= |t.panes| && (t.phase.Releasing? ==> t.phase.done <= |t.releases|)
            && Recovery(t) == Recovery(d)[1..]
  {
    hide R.Inv, R.Apply;
    if d.phase.Asking? {
      AskingIsKnown(d);
    } else if d.phase.Releasing? && d.phase.done < |d.releases| {
      hide R.Known, R.RequesterIs;
      CanRelease(d);
    }
  }

  lemma CanRelease(d: Daemon)
    requires Inv(d) && d.phase.Releasing? && d.phase.done < |d.releases|
    ensures Enabled(d, ReleaseNext)
  {
    assert PaneInv(d, d.phase.done);
  }

  // From every reachable state the attempt can be abandoned: all held panes are
  // released, also after a failure at any one of them, and the daemon serves again.
  lemma {:induction false} AbandonedServes(d: Daemon)
    requires Inv(d) && (d.phase.Asking? ==> R.Known(d.panes[|d.releases|], d.phase.request))
    ensures Valid(d, Recovery(d))
    ensures var t := Run(d, Recovery(d)); Inv(t) && t.phase == Serving && |t.panes| == |d.panes|
    decreases |Recovery(d)|
  {
    if d.phase != Serving {
      RecoveryStep(d);
      StepKeepsInv(d, Recovery(d)[0]);
      hide Inv, Apply, Recovery;
      AbandonedServes(Apply(d, Recovery(d)[0]));
    }
  }

  // ---- The readers after a release --------------------------------------

  // What a reader does by itself until it is back in its loop; `ground` is what it
  // finds if it is about to look at its parser.
  function Own(reader: R.Reader, ground: bool): seq<R.Step> {
    match reader
    case Loop => []
    case Loaded(_) => if ground then [R.CheckGround(true), R.Confirm, R.Pumped] else [R.CheckGround(false), R.Pumped]
    case Grounded(_) => [R.Confirm, R.Pumped]
    case Blocked(_) => [R.Wake, R.Clear]
    case Clearing(_) => [R.Clear]
    case Reading => [R.Pumped]
    case _ => []
  }

  predicate Back(p: R.State) {
    p.current.None? && p.reader in {R.Loop, R.Stopped}
  }

  ghost predicate AllDone(p: R.State) {
    forall q: nat | R.Known(p, q) :: p.requests[q].requester == R.Done
  }

  // Once no request is unfinished, a reader gets back to its loop with nothing pending.
  lemma GetsBack(p: R.State, ground: bool)
    requires R.Inv(p) && AllDone(p)
    ensures var own := Own(p.reader, ground); R.Valid(p, own) && Back(R.Run(p, own))
    ensures forall step | step in Own(p.reader, ground) :: IsReaders(step)
  {
    if p.current.Some? { assert R.RequestInv(p, p.current.value); }
    if p.reader.Blocked? { assert R.RequestInv(p, p.reader.request); }
    hide R.Inv, R.RequestInv, AllDone;
    OwnGetsBack(p, ground);
  }

  lemma OwnGetsBack(p: R.State, ground: bool)
    requires p.current.Some? ==> R.Stopping(p, p.current.value)
    requires p.reader.Loaded? || p.reader.Grounded? || p.reader.Blocked? || p.reader.Clearing? ==> R.Known(p, p.reader.request)
    requires p.reader.Blocked? ==> p.requests[p.reader.request].released
    ensures var own := Own(p.reader, ground); R.Valid(p, own) && Back(R.Run(p, own))
    decreases |Own(p.reader, ground)|
  {
    var own := Own(p.reader, ground);
    Unfold(p, own);
    if own != [] {
      var next := R.Apply(p, own[0]);
      assert Own(next.reader, ground) == own[1..];
      OwnGetsBack(next, ground);
    }
  }

  lemma Unfold(p: R.State, own: seq<R.Step>)
    ensures own == [] ==> R.Valid(p, own) && R.Run(p, own) == p
    ensures own != [] && R.Enabled(p, own[0]) && R.Valid(R.Apply(p, own[0]), own[1..]) ==>
              R.Valid(p, own) && R.Run(p, own) == R.Run(R.Apply(p, own[0]), own[1..])
  {
  }

  function OnReader(i: nat, own: seq<R.Step>): (steps: seq<Step>)
    ensures |steps| == |own|
  {
    if own == [] then [] else [Reader(i, own[0])] + OnReader(i, own[1..])
  }

  lemma {:induction false} OnReaderRun(d: Daemon, i: nat, own: seq<R.Step>)
    requires i < |d.panes| && R.Valid(d.panes[i], own) && forall step | step in own :: IsReaders(step)
    ensures Valid(d, OnReader(i, own))
    ensures Run(d, OnReader(i, own)) == d.(panes := d.panes[i := R.Run(d.panes[i], own)])
    decreases |own|
  {
    if own != [] {
      OnReaderRun(Apply(d, Reader(i, own[0])), i, own[1..]);
      assert OnReader(i, own)[1..] == OnReader(i, own[1..]);
    } else {
      assert d.panes[i := d.panes[i]] == d.panes;
    }
  }

  // The readers from a pane on, one after the other.
  function Settling(d: Daemon, from: nat, grounds: nat -> bool): seq<Step>
    requires from <= |d.panes|
    decreases |d.panes| - from
  {
    if from == |d.panes| then []
    else OnReader(from, Own(d.panes[from].reader, grounds(from))) + Settling(d, from + 1, grounds)
  }

  lemma {:induction false} SameSettling(d: Daemon, t: Daemon, from: nat, grounds: nat -> bool)
    requires from <= |d.panes| == |t.panes| && d.panes[from..] == t.panes[from..]
    ensures Settling(t, from, grounds) == Settling(d, from, grounds)
    decreases |d.panes| - from
  {
    if from < |d.panes| {
      assert d.panes[from..][0] == t.panes[from..][0];
      assert d.panes[from..][1..] == d.panes[from + 1..] && t.panes[from..][1..] == t.panes[from + 1..];
      SameSettling(d, t, from + 1, grounds);
    }
  }

  ghost predicate DoneFrom(d: Daemon, from: nat) {
    forall i: nat | from <= i < |d.panes| :: R.Inv(d.panes[i]) && AllDone(d.panes[i])
  }

  predicate BackBefore(d: Daemon, from: nat) {
    forall i: nat | i < from && i < |d.panes| :: Back(d.panes[i])
  }

  lemma {:induction false} AllGetBack(d: Daemon, from: nat, grounds: nat -> bool)
    requires from <= |d.panes| && d.phase == Serving && DoneFrom(d, from) && BackBefore(d, from)
    ensures Valid(d, Settling(d, from, grounds))
    ensures var t := Run(d, Settling(d, from, grounds));
            t.phase == Serving && |t.panes| == |d.panes| && BackBefore(t, |t.panes|)
    decreases |d.panes| - from
  {
    hide *;
    if from < |d.panes| {
      var t := NextGetsBack(d, from, grounds);
      AllGetBack(t, from + 1, grounds);
      SettlingIs(d, from, grounds);
      RunMore(d, OnReader(from, Own(d.panes[from].reader, grounds(from))), Settling(t, from + 1, grounds));
    } else {
      NoneLeft(d, grounds);
    }
  }

  lemma NoneLeft(d: Daemon, grounds: nat -> bool)
    ensures var none := Settling(d, |d.panes|, grounds); Valid(d, none) && Run(d, none) == d
  {
  }

  lemma SettlingIs(d: Daemon, from: nat, grounds: nat -> bool)
    requires from < |d.panes|
    ensures Settling(d, from, grounds)
            == OnReader(from, Own(d.panes[from].reader, grounds(from))) + Settling(d, from + 1, grounds)
  {
  }

  lemma NextGetsBack(d: Daemon, from: nat, grounds: nat -> bool) returns (t: Daemon)
    requires from < |d.panes| && DoneFrom(d, from) && BackBefore(d, from)
    ensures var own := OnReader(from, Own(d.panes[from].reader, grounds(from)));
            Valid(d, own) && t == Run(d, own)
    ensures t.phase == d.phase && |t.panes| == |d.panes| && DoneFrom(t, from + 1) && BackBefore(t, from + 1)
    ensures Settling(t, from + 1, grounds) == Settling(d, from + 1, grounds)
  {
    var own := Own(d.panes[from].reader, grounds(from));
    GetsBack(d.panes[from], grounds(from));
    hide R.Inv, AllDone, Own, Back, R.Run;
    OnReaderRun(d, from, own);
    t := Run(d, OnReader(from, own));
    SameSettling(d, t, from + 1, grounds);
  }

  // From every state of every run, with any number of panes held, asked or refused and
  // their readers anywhere: the daemon's own remaining steps and then each reader's own
  // steps lead to a daemon that serves and allows mutation, with every reader in its
  // loop and no request pending.
  lemma NobodyStranded(d: Daemon, steps: seq<Step>, grounds: nat -> bool)
    requires Initial(d) && Valid(d, steps)
    ensures var t := Run(d, steps);
            && Inv(t) && (t.phase.Asking? ==> R.Known(t.panes[|t.releases|], t.phase.request))
            && Valid(t, Recovery(t))
            && var served := Run(t, Recovery(t));
            && served.phase == Serving && |served.panes| == |d.panes|
            && Valid(served, Settling(served, 0, grounds))
            && var settled := Run(served, Settling(served, 0, grounds));
            && settled.phase == Serving && |settled.panes| == |d.panes|
            && forall i: nat | i < |d.panes| :: Back(settled.panes[i])
  {
    InitialInv(d);
    RunKeepsInv(d, steps);
    var t := Run(d, steps);
    if t.phase.Asking? { AskingIsKnown(t); }
    AbandonedServes(t);
    var served := Run(t, Recovery(t));
    ServingIsDone(served);
    AllGetBack(served, 0, grounds);
  }

  lemma ServingIsDone(d: Daemon)
    requires Inv(d) && d.phase == Serving
    ensures forall i: nat | i < |d.panes| :: R.Inv(d.panes[i]) && AllDone(d.panes[i])
  {
    hide R.Inv;
    forall i: nat | i < |d.panes| ensures R.Inv(d.panes[i]) && AllDone(d.panes[i]) {
      assert PaneInv(d, i);
    }
  }

  // ---- The parent's side of the upgrade ---------------------------------

  predicate PhaseMatches(phase: Phase, attempt: H.Attempt) {
    match phase
    case Serving => attempt == H.Idle
    case Pausing => attempt == H.Preparing
    case Asking(_) => attempt == H.Preparing
    case Prepared => attempt in {H.Prepared, H.Spawned, H.Sent, H.Stopping}
    case Releasing(_) => attempt == H.Resuming
  }

  predicate PaneMatches(ground: string -> bool, d: Daemon, s: H.System, i: nat)
    requires H.Shaped(s) && i < |d.panes| == s.panes
  {
    var daemon := s.processes[s.daemon];
    && (i in daemon.reading <==> !Paused(d.panes[i]))
    && (d.panes[i].reader.Grounded? ==> ground(daemon.shadow[i]))
  }

  // The parent's attempt and the panes it counts as reading are what its pauses say.
  ghost predicate Matches(ground: string -> bool, d: Daemon, s: H.System) {
    && H.Shaped(s) && |d.panes| == s.panes && PhaseMatches(d.phase, s.attempt)
    && s.processes[s.daemon].reading <= H.AllPanes(s)
    && forall i: nat | i < s.panes :: PaneMatches(ground, d, s, i)
  }

  // A step of the pauses in the setting of an upgrade: a parser is found between
  // sequences only if it is, and the parent gives up on a child only once that is gone.
  predicate Allowed(ground: string -> bool, d: Daemon, s: H.System, step: Step)
    requires H.Shaped(s) && |d.panes| == s.panes
  {
    && Enabled(d, step)
    && (step.Reader? && step.step == R.CheckGround(true) ==> ground(s.processes[s.daemon].shadow[step.pane]))
    && (step == GiveUp ==>
          H.Enabled(ground, s, H.GiveUp) || H.Enabled(ground, s, H.ChildGone))
  }

  // The steps of the upgrade protocol a step of the pauses amounts to.
  function Amounts(d: Daemon, s: H.System, step: Step): seq<H.Step>
    requires Enabled(d, step)
  {
    match step
    case Begin => [H.Begin]
    case Ask => if d.panes[|d.releases|].current.Some? then [H.GiveUp] else []
    case Expire => [H.GiveUp] + (if Paused(d.panes[|d.releases|]) then [H.Resume(|d.releases|)] else [])
    case Fail => [H.GiveUp] + (if Paused(d.panes[|d.releases|]) then [H.Resume(|d.releases|)] else [])
    case AllHeld => [H.AllPaused]
    case GiveUp => if s.attempt == H.Stopping then [H.ChildGone] else [H.GiveUp]
    case ReleaseNext => [H.Resume(d.phase.done)]
    case Finish => [H.Resumed]
    case Reader(i, own) => if !Paused(d.panes[i]) && Paused(R.Apply(d.panes[i], own)) then [H.Pause(i)] else []
    case _ => []
  }

  lemma NoSteps(ground: string -> bool, s: H.System)
    ensures H.Valid(ground, s, []) && H.Run(ground, s, []) == s
  {
  }

  lemma OneStep(ground: string -> bool, s: H.System, step: H.Step)
    requires H.Shaped(s) && H.Enabled(ground, s, step)
    ensures H.Valid(ground, s, [step]) && H.Run(ground, s, [step]) == H.Apply(s, step)
  {
    assert [step][1..] == [];
  }

  lemma TwoSteps(ground: string -> bool, s: H.System, first: H.Step, second: H.Step)
    requires H.Shaped(s) && H.Enabled(ground, s, first)
    requires var t := H.Apply(s, first); H.Shaped(t) && H.Enabled(ground, t, second)
    ensures H.Valid(ground, s, [first] + [second])
    ensures H.Run(ground, s, [first] + [second]) == H.Apply(H.Apply(s, first), second)
  {
    assert ([first] + [second])[1..] == [second];
    OneStep(ground, H.Apply(s, first), second);
  }

  // What one step of a pane's protocol does to its being paused.
  lemma PausedBy(p: R.State, step: R.Step)
    requires R.Inv(p) && R.Enabled(p, step)
    ensures var n := R.Apply(p, step);
            && (!step.Confirm? && !step.TimeOut? && !step.StateFails? && !step.Release? ==> Paused(n) == Paused(p))
            && (step.TimeOut? || step.StateFails? || step.Release? ==> !Paused(n))
            && (step == R.Confirm ==> !Paused(p))
            && (n.reader.Grounded? ==> p.reader.Grounded? || step == R.CheckGround(true))
  {
    if step.TimeOut? || step.StateFails? || step.Release? || step.SeeReady? || step.StateTaken? {
      assert R.RequestInv(p, step.r);
    }
    if p.reader.Blocked? { assert R.RequestInv(p, p.reader.request); }
  }

  // Nothing the parent's readers or requesters do changes a matching pane, if what it
  // changes is neither paused nor resumed by it.
  lemma StillMatches(ground: string -> bool, d: Daemon, t: Daemon, s: H.System, u: H.System, i: nat)
    requires Matches(ground, d, s) && H.Shaped(u) && |t.panes| == u.panes == s.panes && i < s.panes
    requires u.processes[u.daemon].shadow == s.processes[s.daemon].shadow
    requires i in u.processes[u.daemon].reading <==> i in s.processes[s.daemon].reading
    requires t.panes[i] == d.panes[i]
    ensures PaneMatches(ground, t, u, i)
  {
    assert PaneMatches(ground, d, s, i);
  }

  // A step on one pane against its effect on the panes counted as reading.
  lemma PaneStepMatches(ground: string -> bool, d: Daemon, t: Daemon, s: H.System, u: H.System, k: nat, step: R.Step)
    requires Matches(ground, d, s) && k < s.panes && R.Inv(d.panes[k]) && R.Enabled(d.panes[k], step)
    requires t.panes == d.panes[k := R.Apply(d.panes[k], step)]
    requires step == R.CheckGround(true) ==> ground(s.processes[s.daemon].shadow[k])
    requires H.Shaped(u) && u.panes == s.panes && PhaseMatches(t.phase, u.attempt)
    requires u.processes[u.daemon].shadow == s.processes[s.daemon].shadow
    requires var (before, after) := (s.processes[s.daemon].reading, u.processes[u.daemon].reading);
             after == (if Paused(R.Apply(d.panes[k], step)) then before - {k} else before + {k})
    ensures Matches(ground, t, u)
  {
    hide R.Inv, R.Apply, Paused;
    PausedBy(d.panes[k], step);
    forall i: nat | i < u.panes ensures PaneMatches(ground, t, u, i) {
      assert PaneMatches(ground, d, s, i);
    }
  }

  lemma AskRefines(ground: string -> bool, d: Daemon, s: H.System)
    requires Inv(d) && Matches(ground, d, s) && Allowed(ground, d, s, Ask)
    ensures H.Valid(ground, s, Amounts(d, s, Ask))
    ensures Matches(ground, Apply(d, Ask), H.Run(ground, s, Amounts(d, s, Ask)))
  {
    var k := |d.releases|;
    assert PaneInv(d, k) && PaneMatches(ground, d, s, k);
    if d.panes[k].current.Some? {
      OneStep(ground, s, H.GiveUp);
      PhaseOnly(ground, d, Apply(d, Ask), s, H.Apply(s, H.GiveUp));
    } else {
      NoSteps(ground, s);
      PausedBy(d.panes[k], R.Open);
      hide R.Inv, R.Apply, Paused;
      PaneStepMatches(ground, d, Apply(d, Ask), s, s, k, R.Open);
    }
  }

  lemma PhaseOnly(ground: string -> bool, d: Daemon, t: Daemon, s: H.System, u: H.System)
    requires Matches(ground, d, s) && H.Shaped(u) && u.panes == s.panes && PhaseMatches(t.phase, u.attempt)
    requires t.panes == d.panes && u.processes[u.daemon] == s.processes[s.daemon]
    ensures Matches(ground, t, u)
  {
    hide Paused;
    forall i: nat | i < u.panes ensures PaneMatches(ground, t, u, i) {
      StillMatches(ground, d, t, s, u, i);
    }
  }

  lemma ReaderRefines(ground: string -> bool, d: Daemon, s: H.System, k: nat, own: R.Step)
    requires Inv(d) && Matches(ground, d, s) && Allowed(ground, d, s, Reader(k, own))
    ensures H.Valid(ground, s, Amounts(d, s, Reader(k, own)))
    ensures Matches(ground, Apply(d, Reader(k, own)), H.Run(ground, s, Amounts(d, s, Reader(k, own))))
  {
    var t := Apply(d, Reader(k, own));
    assert PaneInv(d, k) && PaneMatches(ground, d, s, k);
    PausedBy(d.panes[k], own);
    NoSteps(ground, s);
    if !Paused(d.panes[k]) && Paused(t.panes[k]) {
      PausesWhenAsked(d, k);
      hide R.Inv, R.Apply, Paused;
      OneStep(ground, s, H.Pause(k));
      PaneStepMatches(ground, d, t, s, H.Apply(s, H.Pause(k)), k, own);
    } else {
      hide R.Inv, R.Apply, Paused;
      PaneStepMatches(ground, d, t, s, s, k, own);
    }
  }

  // A reader only stops for the pane the daemon is asking.
  lemma PausesWhenAsked(d: Daemon, k: nat)
    requires Inv(d) && k < |d.panes| && R.Enabled(d.panes[k], R.Confirm)
    requires Paused(R.Apply(d.panes[k], R.Confirm))
    ensures d.phase.Asking? && d.panes[k].reader.Grounded?
  {
    assert PaneInv(d, k);
    assert R.RequestInv(d.panes[k], d.panes[k].reader.request);
  }

  lemma RequesterRefines(ground: string -> bool, d: Daemon, s: H.System, step: Step)
    requires Inv(d) && Matches(ground, d, s) && Allowed(ground, d, s, step) && step in {See, Take, Expire, Fail}
    ensures H.Valid(ground, s, Amounts(d, s, step))
    ensures Matches(ground, Apply(d, step), H.Run(ground, s, Amounts(d, s, step)))
  {
    var k := |d.releases|;
    var own := Requested(step, d.phase.request);
    assert PaneInv(d, k) && PaneMatches(ground, d, s, k);
    PausedBy(d.panes[k], own);
    hide R.Inv, R.Apply, Paused, PaneInv;
    if step in {See, Take} {
      NoSteps(ground, s);
      PaneStepMatches(ground, d, Apply(d, step), s, s, k, own);
    } else {
      GivenUp(ground, d, s, step, k, own);
    }
  }

  // Giving up at the pane being asked releases it if it has stopped already.
  lemma GivenUp(ground: string -> bool, d: Daemon, s: H.System, step: Step, k: nat, own: R.Step)
    requires Matches(ground, d, s) && Enabled(d, step) && step in {Expire, Fail}
    requires k == |d.releases| && own == Requested(step, d.phase.request) && R.Inv(d.panes[k])
    requires (k in s.processes[s.daemon].reading <==> !Paused(d.panes[k])) && !Paused(R.Apply(d.panes[k], own))
    ensures H.Valid(ground, s, Amounts(d, s, step))
    ensures Matches(ground, Apply(d, step), H.Run(ground, s, Amounts(d, s, step)))
  {
    hide R.Inv, R.Apply, Paused, Matches, PaneMatches;
    assert H.Shaped(s) && s.attempt == H.Preparing && k < s.panes by { MatchedAsking(ground, d, s); }
    if Paused(d.panes[k]) {
      TwoSteps(ground, s, H.GiveUp, H.Resume(k));
      PaneStepMatches(ground, d, Apply(d, step), s, H.Apply(H.Apply(s, H.GiveUp), H.Resume(k)), k, own);
    } else {
      OneStep(ground, s, H.GiveUp);
      PaneStepMatches(ground, d, Apply(d, step), s, H.Apply(s, H.GiveUp), k, own);
    }
  }

  lemma MatchedAsking(ground: string -> bool, d: Daemon, s: H.System)
    requires Matches(ground, d, s) && d.phase.Asking? && |d.releases| < |d.panes|
    ensures H.Shaped(s) && s.attempt == H.Preparing && |d.panes| == s.panes
  {
  }

  lemma ReleaseRefines(ground: string -> bool, d: Daemon, s: H.System)
    requires Inv(d) && Matches(ground, d, s) && Allowed(ground, d, s, ReleaseNext)
    ensures H.Valid(ground, s, Amounts(d, s, ReleaseNext))
    ensures Matches(ground, Apply(d, ReleaseNext), H.Run(ground, s, Amounts(d, s, ReleaseNext)))
  {
    var k := d.phase.done;
    var own := R.Release(d.releases[k]);
    assert PaneInv(d, k) && PaneMatches(ground, d, s, k);
    assert R.RequestInv(d.panes[k], d.releases[k]);
    PausedBy(d.panes[k], own);
    hide R.Inv, R.Apply, R.RequestInv;
    assert Paused(d.panes[k]);
    OneStep(ground, s, H.Resume(k));
    PaneStepMatches(ground, d, Apply(d, ReleaseNext), s, H.Apply(s, H.Resume(k)), k, own);
  }

  // A step of the daemon that touches no pane.
  lemma ServingRefines(ground: string -> bool, d: Daemon, s: H.System, step: Step, counts: H.Step)
    requires Matches(ground, d, s) && Enabled(d, step) && Amounts(d, s, step) == [counts]
    requires H.Enabled(ground, s, counts) && Apply(d, step).panes == d.panes
    requires var u := H.Apply(s, counts);
             && H.Shaped(u) && u.panes == s.panes && u.processes[u.daemon] == s.processes[s.daemon]
             && PhaseMatches(Apply(d, step).phase, u.attempt)
    ensures H.Valid(ground, s, Amounts(d, s, step))
    ensures Matches(ground, Apply(d, step), H.Run(ground, s, Amounts(d, s, step)))
  {
    hide Matches, Amounts, Apply, H.Apply, H.Enabled, Enabled, H.Valid, H.Run;
    assert H.Shaped(s) && s.panes == |d.panes| by { MatchedShape(ground, d, s); }
    AtAnyGround(ground, s, counts);
    OneStep(ground, s, counts);
    PhaseOnly(ground, d, Apply(d, step), s, H.Apply(s, counts));
  }

  lemma MatchedShape(ground: string -> bool, d: Daemon, s: H.System)
    requires Matches(ground, d, s)
    ensures H.Shaped(s) && s.panes == |d.panes|
  {
  }

  lemma NoneReads(ground: string -> bool, d: Daemon, s: H.System)
    requires Inv(d) && Matches(ground, d, s) && Enabled(d, AllHeld)
    ensures s.processes[s.daemon].reading == {}
  {
    forall i: nat | i < s.panes ensures i !in s.processes[s.daemon].reading {
      assert PaneMatches(ground, d, s, i) && PaneInv(d, i);
      assert R.RequestInv(d.panes[i], d.releases[i]);
    }
  }

  lemma AllRead(ground: string -> bool, d: Daemon, s: H.System)
    requires Inv(d) && Matches(ground, d, s) && Enabled(d, Finish)
    ensures s.processes[s.daemon].reading == H.AllPanes(s)
  {
    forall i: nat | i < s.panes ensures i in s.processes[s.daemon].reading {
      assert PaneMatches(ground, d, s, i) && PaneInv(d, i);
      if d.panes[i].reader.Blocked? { assert R.RequestInv(d.panes[i], d.panes[i].reader.request); }
    }
  }

  // Every step of the pauses amounts to steps of the upgrade protocol, and the two stay
  // matched.
  lemma PausesRefineProtocol(ground: string -> bool, d: Daemon, s: H.System, step: Step)
    requires Inv(d) && Matches(ground, d, s) && Allowed(ground, d, s, step)
    ensures H.Valid(ground, s, Amounts(d, s, step))
    ensures Matches(ground, Apply(d, step), H.Run(ground, s, Amounts(d, s, step)))
  {
    hide Inv, PaneMatches, H.Valid, H.Run, H.LostWith;
    match step
    case Ask => AskRefines(ground, d, s);
    case Reader(k, own) => ReaderRefines(ground, d, s, k, own);
    case ReleaseNext => ReleaseRefines(ground, d, s);
    case AllHeld => NoneReads(ground, d, s); ServingRefines(ground, d, s, step, H.AllPaused);
    case Finish => AllRead(ground, d, s); ServingRefines(ground, d, s, step, H.Resumed);
    case Begin => ServingRefines(ground, d, s, step, H.Begin);
    case GiveUp => ServingRefines(ground, d, s, step, if s.attempt == H.Stopping then H.ChildGone else H.GiveUp);
    case _ => RequesterRefines(ground, d, s, step);
  }

  // ---- Pauses and upgrade together --------------------------------------

  // Everything else that happens: the application writes, a reader of the parent that
  // is in its reading state reads, and the parent and the child talk to each other.
  predicate Elsewhere(d: Daemon, s: H.System, step: H.Step) {
    match step
    case Produce(_, _) => true
    case Read(p, i, _) => p == s.daemon ==> i < |d.panes| && d.panes[i].reader == R.Reading
    case Spawn => true
    case Send => true
    case SendFails(_) => true
    case Adopt => true
    case Nack => true
    case Ack => true
    case ReadNack => true
    case ReadFails => true
    case ChildDies => true
    case StartReader(_) => H.HasChild(s)
    case _ => false
  }

  lemma ElsewhereMatches(ground: string -> bool, d: Daemon, s: H.System, step: H.Step)
    requires Matches(ground, d, s) && H.Inv(s) && H.Enabled(ground, s, step) && Elsewhere(d, s, step)
    ensures Matches(ground, d, H.Apply(s, step))
  {
    hide Paused, PaneMatches;
    ElsewhereKeeps(d, s, step);
    var t := H.Apply(s, step);
    forall i: nat | i < t.panes ensures PaneMatches(ground, d, t, i) {
      hide H.Apply, H.Inv, H.Enabled;
      SamePane(ground, d, s, t, i);
    }
  }

  lemma SamePane(ground: string -> bool, d: Daemon, s: H.System, t: H.System, i: nat)
    requires H.Shaped(s) && H.Shaped(t) && i < |d.panes| == s.panes == t.panes && PaneMatches(ground, d, s, i)
    requires t.processes[t.daemon].reading == s.processes[s.daemon].reading
    requires d.panes[i].reader.Grounded? ==> t.processes[t.daemon].shadow[i] == s.processes[s.daemon].shadow[i]
    ensures PaneMatches(ground, d, t, i)
  {
    hide Paused;
  }

  // What the parent's readers rest on: who reads, and the shadow of whoever is not reading.
  lemma ElsewhereKeeps(d: Daemon, s: H.System, step: H.Step)
    requires H.Inv(s) && H.Enabled((_ : string) => true, s, step) && Elsewhere(d, s, step) && |d.panes| == s.panes
    ensures var t := H.Apply(s, step);
            && H.Shaped(t) && t.panes == s.panes && t.daemon == s.daemon
            && t.processes[t.daemon].reading == s.processes[s.daemon].reading
            && (t.attempt == s.attempt || (s.attempt in {H.Prepared, H.Spawned, H.Sent, H.Stopping}
                                           && t.attempt in {H.Prepared, H.Spawned, H.Sent, H.Stopping}))
            && forall i: nat | i < s.panes && d.panes[i].reader != R.Reading ::
                 t.processes[t.daemon].shadow[i] == s.processes[s.daemon].shadow[i]
  {
    hide H.PaneInv, H.SpanInv, H.Ahead, H.Without, H.OthersSilent;
    assert H.HasChild(s) ==> s.daemon != H.Child(s);
  }

  lemma AtAnyGround(ground: string -> bool, s: H.System, step: H.Step)
    requires H.Shaped(s) && H.Enabled(ground, s, step)
    ensures H.Enabled((_ : string) => true, s, step)
  {
  }

  datatype Move = Pauses(step: Step) | Other(other: H.Step)

  // A run of the two together; the upgrade protocol takes the steps the pauses amount to.
  ghost predicate Together(ground: string -> bool, d: Daemon, s: H.System, moves: seq<Move>, t: Daemon, u: H.System)
    decreases moves
  {
    if moves == [] then t == d && u == s
    else if !H.Shaped(s) || |d.panes| != s.panes then false
    else match moves[0]
      case Pauses(step) =>
        && Allowed(ground, d, s, step) && H.Valid(ground, s, Amounts(d, s, step))
        && Together(ground, Apply(d, step), H.Run(ground, s, Amounts(d, s, step)), moves[1..], t, u)
      case Other(step) =>
        && H.Enabled(ground, s, step) && Elsewhere(d, s, step)
        && Together(ground, d, H.Apply(s, step), moves[1..], t, u)
  }

  // In every run of a daemon's panes and one of its upgrades, up to the ACK: a reader
  // of the parent is stopped exactly where the protocol counts the pane as paused, and
  // so the parent's readers and the child's never both read a pane.
  lemma {:induction false} TogetherKeeps(
      ground: string -> bool, d: Daemon, s: H.System, moves: seq<Move>, t: Daemon, u: H.System)
    requires Inv(d) && H.Inv(s) && Matches(ground, d, s) && Together(ground, d, s, moves, t, u)
    ensures Inv(t) && H.Inv(u) && Matches(ground, t, u)
    decreases moves
  {
    hide Inv, H.Inv, H.Apply, Apply, Matches, Amounts, Enabled, H.Enabled, Elsewhere;
    if moves != [] {
      match moves[0]
      case Pauses(step) =>
        PausesRefineProtocol(ground, d, s, step);
        StepKeepsInv(d, step);
        H.RunKeepsInv(ground, s, Amounts(d, s, step));
        TogetherKeeps(ground, Apply(d, step), H.Run(ground, s, Amounts(d, s, step)), moves[1..], t, u);
      case Other(step) =>
        ElsewhereMatches(ground, d, s, step);
        AtAnyGround(ground, s, step);
        H.StepKeepsInv(ground, s, step);
        TogetherKeeps(ground, d, H.Apply(s, step), moves[1..], t, u);
    }
  }

  // The pauses make good what the upgrade relies on: as long as there is a child, every
  // reader of the parent is stopped, each on the request the parent holds it by.
  lemma ChildReadsAlone(ground: string -> bool, d: Daemon, s: H.System, moves: seq<Move>, t: Daemon, u: H.System, i: nat)
    requires Initial(d) && H.Initial(s) && s.panes == |d.panes| && Together(ground, d, s, moves, t, u)
    requires H.HasChild(u) && i < |t.panes|
    ensures t.phase == Prepared && |t.releases| == |t.panes| && t.panes[i].reader == R.Blocked(t.releases[i])
  {
    InitialInv(d);
    H.InitialInv(s);
    InitialMatches(ground, d, s);
    TogetherKeeps(ground, d, s, moves, t, u);
    assert PaneInv(t, i);
    assert R.RequestInv(t.panes[i], t.releases[i]);
  }

  // The steps of CanPrepare.
  predicate Prepares(step: Step) {
    step in {Begin, Ask, See, Take, AllHeld}
    || (step.Reader? && step.step in {R.Load, R.CheckGround(true), R.Confirm})
  }

  function Moves(steps: seq<Step>): seq<Move> {
    if steps == [] then [] else [Pauses(steps[0])] + Moves(steps[1..])
  }

  ghost predicate AllGrounded(ground: string -> bool, s: H.System)
    requires H.Shaped(s)
  {
    forall i | 0 <= i < s.panes :: ground(s.processes[s.daemon].shadow[i])
  }

  // So the upgrade protocol gets to its prepared state in the midst of any run of the
  // two: from wherever the daemon serves, its readers are in their loops and its parsers
  // are between sequences.
  lemma UpgradeCanPrepare(ground: string -> bool, d: Daemon, s: H.System) returns (u: H.System)
    requires Inv(d) && H.Inv(s) && Matches(ground, d, s) && AllGrounded(ground, s)
    requires d.phase == Serving && d.panes != [] && forall i: nat | i < |d.panes| :: d.panes[i].reader == R.Loop
    ensures var steps := [Begin] + Holds(0, |d.panes|);
            && Valid(d, steps) && Together(ground, d, s, Moves(steps), Run(d, steps), u)
    ensures H.Inv(u) && u.attempt == H.Prepared && u.daemon == s.daemon && u.processes[u.daemon].reading == {}
    ensures u.processes[u.daemon].shadow == s.processes[s.daemon].shadow
  {
    hide H.Inv, H.Apply, Apply;
    CanPrepare(d);
    AllPrepare(0, |d.panes|);
    u := PreparesTogether(ground, d, s, [Begin] + Holds(0, |d.panes|));
    NoneReadsWhenPrepared(u);
  }

  lemma NoneReadsWhenPrepared(u: H.System)
    requires H.Inv(u) && u.attempt == H.Prepared
    ensures u.processes[u.daemon].reading == {}
  {
  }

  lemma {:induction false} AllPrepare(i: nat, panes: nat)
    requires i <= panes
    ensures forall step | step in Holds(i, panes) :: Prepares(step)
    decreases panes - i
  {
    if i < panes { AllPrepare(i + 1, panes); }
  }

  lemma {:induction false} PreparesTogether(ground: string -> bool, d: Daemon, s: H.System, steps: seq<Step>)
      returns (u: H.System)
    requires Inv(d) && H.Inv(s) && Matches(ground, d, s) && AllGrounded(ground, s)
    requires Valid(d, steps) && !H.HasChild(s) && forall step | step in steps :: Prepares(step)
    ensures Together(ground, d, s, Moves(steps), Run(d, steps), u)
    ensures H.Inv(u) && Matches(ground, Run(d, steps), u) && !H.HasChild(u) && u.daemon == s.daemon
    ensures u.processes[u.daemon].shadow == s.processes[s.daemon].shadow
    decreases |steps|
  {
    hide Inv, H.Inv, H.Apply, Apply, Matches, Amounts, Enabled, H.Enabled, Elsewhere;
    if steps == [] {
      u := s;
    } else {
      var step := steps[0];
      assert Prepares(step);
      MatchedShape(ground, d, s);
      PreparingIsAllowed(ground, d, s, step);
      PausesRefineProtocol(ground, d, s, step);
      StepKeepsInv(d, step);
      H.RunKeepsInv(ground, s, Amounts(d, s, step));
      SameShadows(ground, d, s, step);
      var next := H.Run(ground, s, Amounts(d, s, step));
      u := PreparesTogether(ground, Apply(d, step), next, steps[1..]);
      assert Moves(steps)[1..] == Moves(steps[1..]);
    }
  }

  lemma PreparingIsAllowed(ground: string -> bool, d: Daemon, s: H.System, step: Step)
    requires H.Shaped(s) && |d.panes| == s.panes && AllGrounded(ground, s) && Enabled(d, step) && Prepares(step)
    ensures Allowed(ground, d, s, step)
  {
  }

  lemma SameShadows(ground: string -> bool, d: Daemon, s: H.System, step: Step)
    requires H.Shaped(s) && Enabled(d, step) && Prepares(step) && !H.HasChild(s)
    requires H.Valid(ground, s, Amounts(d, s, step))
    ensures var t := H.Run(ground, s, Amounts(d, s, step));
            && H.Shaped(t) && !H.HasChild(t) && t.panes == s.panes && t.daemon == s.daemon
            && t.processes[t.daemon].shadow == s.processes[s.daemon].shadow
  {
    hide R.Apply, Paused;
    var steps := Amounts(d, s, step);
    if steps != [] { assert steps[1..] == []; }
  }

  lemma InitialMatches(ground: string -> bool, d: Daemon, s: H.System)
    requires Initial(d) && H.Initial(s) && s.panes == |d.panes|
    ensures Matches(ground, d, s)
  {
    forall i: nat | i < s.panes ensures PaneMatches(ground, d, s, i) {
      assert d.panes[i] in d.panes;
    }
  }
}
