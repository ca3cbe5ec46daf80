// How one upgrade attempt stops one PTY reader (daemon/attachment.go: pump,
// pauseIfGrounded, PrepareHandoff, abortHandoffRequest). The reader, the requester and
// its timeout interleave at the granularity of the attachment's lock; earlier, aborted
// attempts may still be known to a slow reader.
module ReaderPause {
  import opened Text

  // Where the requester of a pause is.
  datatype Requester =
    | Waiting  // selecting between ready and its deadline
    | Ready    // saw ready, capturing the state
    | Holding  // returned the state and owns the release
    | Done

  datatype Request = Request(ready: bool, released: bool, paused: bool, aborted: bool, requester: Requester)

  datatype Reader =
    | Loop
    | Loaded(request: nat)    // read the current request under the lock
    | Grounded(request: nat)  // found the parser between sequences
    | Blocked(request: nat)   // announced ready, waiting for the release
    | Clearing(request: nat)  // released, about to clear the request
    | Reading                 // may consume PTY output
    | Stopped

  datatype State = State(current: Option<nat>, requests: seq<Request>, reader: Reader)

  datatype Step =
    | Open
    | SeeReady(r: nat)
    | TimeOut(r: nat)
    | StateFails(r: nat)
    | StateTaken(r: nat)
    | Release(r: nat)
    | Load
    | CheckGround(ground: bool)
    | Confirm
    | Wake
    | Clear
    | Pumped
    | Stop

  const NewRequest: Request := Request(false, false, false, false, Waiting)

  predicate Known(s: State, r: nat) {
    r < |s.requests|
  }

  predicate RequesterIs(s: State, r: nat, requester: Requester) {
    Known(s, r) && s.requests[r].requester == requester
  }

  predicate Enabled(s: State, step: Step) {
    match step
    case Open => s.current.None?
    case SeeReady(r) => RequesterIs(s, r, Waiting) && s.requests[r].ready
    case TimeOut(r) => RequesterIs(s, r, Waiting)
    case StateFails(r) => RequesterIs(s, r, Ready)
    case StateTaken(r) => RequesterIs(s, r, Ready)
    case Release(r) => RequesterIs(s, r, Holding)
    case Load => s.reader == Loop
    case CheckGround(_) => s.reader.Loaded?
    case Confirm => s.reader.Grounded? && Known(s, s.reader.request)
    case Wake => s.reader.Blocked? && Known(s, s.reader.request) && s.requests[s.reader.request].released
    case Clear => s.reader.Clearing?
    case Pumped => s.reader == Reading
    case Stop => s.reader == Reading
  }

  function Update(s: State, r: nat, request: Request): State
    requires Known(s, r)
  {
    s.(requests := s.requests[r := request])
  }

  function Abort(s: State, r: nat): State
    requires Known(s, r)
  {
    var request := s.requests[r];
    if s.current == Some(r) then
      Update(s, r, request.(aborted := true, released := request.released || request.paused, requester := Done))
        .(current := None)
    else Update(s, r, request.(requester := Done))
  }

  function Apply(s: State, step: Step): State
    requires Enabled(s, step)
  {
    match step
    case Open => State(Some(|s.requests|), s.requests + [NewRequest], s.reader)
    case SeeReady(r) => Update(s, r, s.requests[r].(requester := Ready))
    case TimeOut(r) => Abort(s, r)
    case StateFails(r) => Update(s, r, s.requests[r].(released := true, requester := Done))
    case StateTaken(r) => Update(s, r, s.requests[r].(requester := Holding))
    case Release(r) => Update(s, r, s.requests[r].(released := true, requester := Done))
    case Load => s.(reader := if s.current.Some? then Loaded(s.current.value) else Reading)
    case CheckGround(ground) => s.(reader := if ground then Grounded(s.reader.request) else Reading)
    case Confirm =>
      var r := s.reader.request;
      if s.current != Some(r) || s.requests[r].aborted then s.(reader := Reading)
      else Update(s, r, s.requests[r].(paused := true, ready := true)).(reader := Blocked(r))
    case Wake => s.(reader := Clearing(s.reader.request))
    case Clear =>
      s.(current := if s.current == Some(s.reader.request) then None else s.current, reader := Loop)
    case Pumped => s.(reader := Loop)
    case Stop => s.(reader := Stopped)
  }

  // Closing a closed channel would crash the daemon.
  predicate ClosesTwice(s: State, step: Step) {
    step == Confirm && s.reader.Grounded? && Known(s, s.reader.request)
    && s.current == Some(s.reader.request) && !s.requests[s.reader.request].aborted
    && s.requests[s.reader.request].ready
  }

  // ---- Invariant --------------------------------------------------------

  predicate Stopping(s: State, r: nat) {
    s.reader == Blocked(r) || s.reader == Clearing(r)
  }

  predicate RequestInv(s: State, r: nat)
    requires Known(s, r)
  {
    var request := s.requests[r];
    && request.ready == request.paused
    && (request.requester == Waiting ==> !request.released && !request.aborted && s.current == Some(r))
    // Whoever saw ready has the reader stopped, and still owns the release.
    && (request.requester in {Ready, Holding} ==>
          s.reader == Blocked(r) && request.ready && !request.released && s.current == Some(r))
    && (request.requester == Done && (request.paused || s.current == Some(r)) ==> request.released && request.ready)
    && (s.current == Some(r) ==> !request.aborted && (request.ready ==> Stopping(s, r)))
    && (s.reader == Blocked(r) ==> request.ready && (!request.released ==> s.current == Some(r)))
    && (s.reader == Clearing(r) ==> request.released)
  }

  ghost predicate Inv(s: State) {
    && (s.current.Some? ==> Known(s, s.current.value))
    && (s.reader.Loaded? || s.reader.Grounded? || s.reader.Blocked? || s.reader.Clearing? ==>
          Known(s, s.reader.request))
    && forall r: nat | Known(s, r) :: RequestInv(s, r)
  }

  const Initial: State := State(None, [], Loop)

  lemma StepKeepsInv(s: State, step: Step)
    requires Inv(s) && Enabled(s, step)
    ensures Inv(Apply(s, step)) && !ClosesTwice(s, step)
  {
    var t := Apply(s, step);
    forall r: nat | Known(t, r) ensures RequestInv(t, r) {
      if Known(s, r) { assert RequestInv(s, r); }
    }
  }

  predicate Valid(s: State, steps: seq<Step>)
    decreases steps
  {
    steps == [] || (Enabled(s, steps[0]) && Valid(Apply(s, steps[0]), steps[1..]))
  }

  function Run(s: State, steps: seq<Step>): State
    requires Valid(s, steps)
    decreases steps
  {
    if steps == [] then s else Run(Apply(s, steps[0]), steps[1..])
  }

  lemma {:induction false} RunKeepsInv(s: State, steps: seq<Step>)
    requires Inv(s) && Valid(s, steps)
    ensures Inv(Run(s, steps))
    decreases steps
  {
    if steps != [] {
      StepKeepsInv(s, steps[0]);
      RunKeepsInv(Apply(s, steps[0]), steps[1..]);
    }
  }

  // In every interleaving: nothing is closed twice; a requester that holds a captured
  // state has the reader stopped on its own request, so at most one does; and a reader
  // waiting for a release either has it or waits on a requester that still owes it.
  lemma PauseIsSafe(steps: seq<Step>, next: Step, r: nat, q: nat)
    requires Valid(Initial, steps)
    ensures var s := Run(Initial, steps);
            && (Enabled(s, next) ==> !ClosesTwice(s, next))
            && (RequesterIs(s, r, Holding) ==>
                  s.reader == Blocked(r) && !s.requests[r].released && (RequesterIs(s, q, Holding) ==> q == r))
            && (s.reader == Blocked(r) ==>
                  Known(s, r) && (s.requests[r].released || s.requests[r].requester != Done))
  {
    RunKeepsInv(Initial, steps);
    var s := Run(Initial, steps);
    if Enabled(s, next) { StepKeepsInv(s, next); }
    if Known(s, r) { assert RequestInv(s, r); }
    if Known(s, q) { assert RequestInv(s, q); }
  }

  // In every interleaving a request stays current until the pause it asked for is over:
  // it leaves only by its own requester's timeout, or when the reader that stopped for
  // it has seen it released, the requester being done. So a slow reader never clears a
  // newer request, and no other requester, old or new, can displace one.
  lemma StaleReaderClearsNothing(steps: seq<Step>, next: Step, q: nat)
    requires Valid(Initial, steps)
    requires var s := Run(Initial, steps); Enabled(s, next) && s.current == Some(q)
    ensures var s := Run(Initial, steps);
            Apply(s, next).current != Some(q) <==> next == TimeOut(q) || (next == Clear && s.reader == Clearing(q))
    ensures var s := Run(Initial, steps);
            Known(s, q) && (next == Clear && s.reader == Clearing(q) ==>
              s.requests[q].released && s.requests[q].requester == Done)
  {
    RunKeepsInv(Initial, steps);
    assert RequestInv(Run(Initial, steps), q);
  }

  // Hence a requester that has not finished always owns the current request, and at
  // most one has not finished.
  lemma UnfinishedIsCurrent(steps: seq<Step>, q: nat)
    requires Valid(Initial, steps)
    requires var s := Run(Initial, steps); Known(s, q) && s.requests[q].requester != Done
    ensures Run(Initial, steps).current == Some(q)
  {
    RunKeepsInv(Initial, steps);
    assert RequestInv(Run(Initial, steps), q);
  }

  // A pause is granted. From every reachable state in which a request waits unanswered and
  // the reader is in its loop, the reader's next turn with its parser between sequences
  // stops it for that request, and the requester then holds it. With its parser inside a
  // sequence the reader goes on reading and the request stays.
  lemma PauseIsGranted(s: State, r: nat)
    requires Inv(s) && RequesterIs(s, r, Waiting) && !s.requests[r].ready && s.reader == Loop
    ensures var steps := [Load, CheckGround(true), Confirm, SeeReady(r), StateTaken(r)];
            && Valid(s, steps)
            && var t := Run(s, steps);
            && RequesterIs(t, r, Holding) && t.reader == Blocked(r) && !t.requests[r].released && t.current == Some(r)
    ensures var steps := [Load, CheckGround(false)];
            Valid(s, steps) && Run(s, steps) == s.(reader := Reading) && s.current == Some(r)
  {
    assert RequestInv(s, r);
    hide Inv, RequestInv;
    var s1 := Apply(s, Load);
    var s2 := Apply(s1, CheckGround(true));
    var s3 := Apply(s2, Confirm);
    var s4 := Apply(s3, SeeReady(r));
    Then(s4, StateTaken(r), []);
    Then(s3, SeeReady(r), [StateTaken(r)]);
    Then(s2, Confirm, [SeeReady(r), StateTaken(r)]);
    Then(s1, CheckGround(true), [Confirm, SeeReady(r), StateTaken(r)]);
    Then(s, Load, [CheckGround(true), Confirm, SeeReady(r), StateTaken(r)]);
    Then(s1, CheckGround(false), []);
    Then(s, Load, [CheckGround(false)]);
  }

  lemma Then(s: State, step: Step, rest: seq<Step>)
    requires Enabled(s, step)
    ensures Valid(Apply(s, step), []) && Run(Apply(s, step), []) == Apply(s, step)
    ensures Valid(Apply(s, step), rest) ==>
              Valid(s, [step] + rest) && Run(s, [step] + rest) == Run(Apply(s, step), rest)
    ensures [step] + [] == [step]
  {
    assert ([step] + rest)[1..] == rest;
  }

  // A new request becomes the current one, unanswered, and without one the reader reads on.
  lemma OpenedIsCurrent(s: State)
    requires Inv(s) && s.current.None?
    ensures Enabled(s, Open)
    ensures var t := Apply(s, Open); var r := |s.requests|;
            t.current == Some(r) && RequesterIs(t, r, Waiting) && !t.requests[r].ready && t.reader == s.reader
    ensures s.reader == Loop ==> Valid(s, [Load, Pumped]) && Run(s, [Load, Pumped]) == s
  {
    if s.reader == Loop {
      Then(Apply(s, Load), Pumped, []);
      Then(s, Load, [Pumped]);
    }
  }

  // A reader whose read fails stops, and never comes back: from then on no request is
  // answered, and each can only time out.
  lemma StoppedForGood(s: State, steps: seq<Step>, r: nat)
    requires Inv(s) && s.reader == Reading && Valid(s, [Stop] + steps)
    ensures Enabled(s, Stop) && Run(s, [Stop] + steps).reader == Stopped
    ensures !Enabled(Run(s, [Stop] + steps), SeeReady(r))
  {
    assert ([Stop] + steps)[1..] == steps;
    StepKeepsInv(s, Stop);
    StaysStopped(Apply(s, Stop), steps);
    RunKeepsInv(Apply(s, Stop), steps);
    var t := Run(Apply(s, Stop), steps);
    if RequesterIs(t, r, Waiting) { assert RequestInv(t, r); }
  }

  lemma {:induction false} StaysStopped(s: State, steps: seq<Step>)
    requires s.reader == Stopped && Valid(s, steps)
    ensures Run(s, steps).reader == Stopped
    decreases steps
  {
    if steps != [] { StaysStopped(Apply(s, steps[0]), steps[1..]); }
  }

  // The one step a requester takes when it gives up or is done.
  function GivesUp(requester: Requester, r: nat): seq<Step> {
    match requester
    case Waiting => [TimeOut(r)]
    case Ready => [StateFails(r)]
    case Holding => [Release(r)]
    case Done => []
  }

  // A stopped reader is never stranded: its requester's own last step, then its own two,
  // put it back in its loop with nothing pending, whatever happened before.
  lemma ReaderResumes(s: State)
    requires Inv(s) && s.reader.Blocked?
    ensures var r := s.reader.request;
            var steps := GivesUp(s.requests[r].requester, r) + [Wake, Clear];
            Valid(s, steps) && Run(s, steps).reader == Loop && Run(s, steps).current != Some(r)
  {
    var r := s.reader.request;
    var last := GivesUp(s.requests[r].requester, r);
    assert RequestInv(s, r);
    if last == [] {
      assert last + [Wake, Clear] == [Wake, Clear];
      Resumes(s);
    } else {
      assert (last + [Wake, Clear])[1..] == [Wake, Clear];
      StepKeepsInv(s, last[0]);
      Resumes(Apply(s, last[0]));
    }
  }

  lemma Resumes(s: State)
    requires Inv(s) && s.reader.Blocked? && s.requests[s.reader.request].released
    ensures Valid(s, [Wake, Clear]) && Run(s, [Wake, Clear]).reader == Loop
    ensures Run(s, [Wake, Clear]).current != Some(s.reader.request)
  {
    assert [Wake, Clear][1..] == [Clear];
    assert [Clear][1..] == [];
  }
}
