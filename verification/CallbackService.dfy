// Reply correlation in the remote helper (callback_service.go, callback_server.go).
// A terminal's request is registered under a correlation id, forwarded to the app, and
// answered by a reply, a timeout, a failed write or a shutdown. A new handshake replaces
// the live service while older services still answer their own requests. A transition
// system at the granularity of the service's lock and channel operations.
module CallbackService {
  import opened Text
  import CallbackReply

  datatype Answer =
    | Relay(delivery: nat)  // the reply a delivery carried
    | TimedOut
    | WriteFailed
    | BackedUp
    | ShuttingDown

  datatype Phase =
    | Waiting
    | Answered(answer: Answer)  // answered, still registered
    | Gone(answer: Answer)      // answered and unregistered

  datatype Request = Request(id: int, service: nat, connId: Option<nat>, phase: Phase)

  datatype Service = Service(pending: set<nat>, closing: bool)

  // One callback.reply from the app: looked up, then offered to the waiting channel.
  datatype Outcome = Found | NobodyWaiting | Accepted | Refused

  datatype Delivery = Delivery(connId: nat, reply: string, outcome: Outcome)

  datatype State = State(
    connSeq: nat,
    services: seq<Service>,
    installed: nat,                   // the services that have been made the live one so far
    current: Option<nat>,
    requests: seq<Request>,
    deliveries: seq<Delivery>,
    channels: map<nat, Option<nat>>,  // the one buffered delivery of each id
    accepted: map<nat, seq<nat>>,     // every delivery accepted for an id so far
    owner: map<nat, nat>              // the request that registered an id
  )

  datatype Step =
    | Listen      // a handshake's service accepts requests
    | Install     // it becomes the live one
    | Disconnect
    | Retire(service: nat)
    | Arrive(id: int, service: nat)
    | Take(request: nat)
    | Fail(request: nat, answer: Answer)
    | Unregister(request: nat)
    | LookUp(connId: nat, reply: string)
    | Offer(delivery: nat)

  const Initial: State := State(0, [], 0, None, [], [], map[], map[], map[])

  predicate IsWaiting(s: State, r: nat) {
    r < |s.requests| && s.requests[r].phase == Waiting && s.requests[r].connId.Some?
  }

  predicate ServiceClosing(s: State, service: nat) {
    service < |s.services| && s.services[service].closing
  }

  predicate Enabled(s: State, step: Step) {
    match step
    case Listen => s.installed == |s.services|
    case Install => s.installed < |s.services|
    case Disconnect => s.current.Some?
    case Retire(v) => v < |s.services| && v < s.installed && s.current != Some(v)
    case Arrive(_, v) => v < |s.services|
    case Take(r) =>
      IsWaiting(s, r) && s.requests[r].connId.value in s.channels
      && s.channels[s.requests[r].connId.value].Some?
    case Fail(r, answer) =>
      IsWaiting(s, r) && !answer.Relay?
      && (answer == ShuttingDown ==> ServiceClosing(s, s.requests[r].service))
    case Unregister(r) =>
      r < |s.requests| && s.requests[r].phase.Answered? && s.requests[r].connId.Some?
      && s.requests[r].service < |s.services|
    case LookUp(_, _) => true
    case Offer(d) =>
      d < |s.deliveries| && s.deliveries[d].outcome == Found && s.deliveries[d].connId in s.channels
      && s.deliveries[d].connId in s.accepted
  }

  function WithPhase(s: State, r: nat, phase: Phase): State
    requires r < |s.requests|
  {
    s.(requests := s.requests[r := s.requests[r].(phase := phase)])
  }

  // deliverReply's lookup in the live service.
  predicate FindsWaiter(s: State, connId: nat) {
    s.current.Some? && s.current.value < |s.services| && connId in s.services[s.current.value].pending
  }

  function Apply(s: State, step: Step): State
    requires Enabled(s, step)
  {
    match step
    case Listen => s.(services := s.services + [Service({}, false)])
    case Install => s.(installed := s.installed + 1, current := Some(s.installed))
    case Disconnect => s.(current := None)
    case Retire(v) => s.(services := s.services[v := s.services[v].(closing := true)])
    case Arrive(id, v) =>
      if s.services[v].closing then
        s.(requests := s.requests + [Request(id, v, None, Gone(ShuttingDown))])
      else
        var connId := s.connSeq + 1;
        s.(connSeq := connId,
           services := s.services[v := s.services[v].(pending := s.services[v].pending + {connId})],
           requests := s.requests + [Request(id, v, Some(connId), Waiting)],
           channels := s.channels[connId := None],
           accepted := s.accepted[connId := []],
           owner := s.owner[connId := |s.requests|])
    case Take(r) =>
      var connId := s.requests[r].connId.value;
      WithPhase(s, r, Answered(Relay(s.channels[connId].value))).(channels := s.channels[connId := None])
    case Fail(r, answer) => WithPhase(s, r, Answered(answer))
    case Unregister(r) =>
      var request := s.requests[r];
      var service := s.services[request.service];
      WithPhase(s, r, Gone(request.phase.answer))
        .(services := s.services[request.service := service.(pending := service.pending - {request.connId.value})])
    case LookUp(connId, reply) =>
      var outcome := if FindsWaiter(s, connId) then Found else NobodyWaiting;
      s.(deliveries := s.deliveries + [Delivery(connId, reply, outcome)])
    case Offer(d) =>
      var connId := s.deliveries[d].connId;
      if s.channels[connId].None? then
        s.(deliveries := s.deliveries[d := s.deliveries[d].(outcome := Accepted)],
           channels := s.channels[connId := Some(d)],
           accepted := s.accepted[connId := s.accepted[connId] + [d]])
      else s.(deliveries := s.deliveries[d := s.deliveries[d].(outcome := Refused)])
  }

  // ---- Invariant --------------------------------------------------------

  predicate IsAccepted(deliveries: seq<Delivery>, d: nat, connId: nat) {
    d < |deliveries| && deliveries[d].outcome == Accepted && deliveries[d].connId == connId
  }

  function AnswerOf(phase: Phase): Option<Answer> {
    if phase.Waiting? then None else Some(phase.answer)
  }

  predicate TookReply(request: Request) {
    AnswerOf(request.phase).Some? && AnswerOf(request.phase).value.Relay?
  }

  predicate Registered(s: State, connId: nat, r: nat) {
    && connId in s.channels && connId in s.accepted && connId in s.owner && s.owner[connId] == r
    && 1 <= connId <= s.connSeq
  }

  // What has been accepted for an id: the reply its request took, then the buffered one.
  predicate AcceptedInv(accepted: seq<nat>, channel: Option<nat>, deliveries: seq<Delivery>, c: nat, request: Request) {
    && |accepted| == (if TookReply(request) then 1 else 0) + (if channel.Some? then 1 else 0)
    && (TookReply(request) ==> accepted[0] == AnswerOf(request.phase).value.delivery)
    && (channel.Some? ==> accepted[|accepted| - 1] == channel.value)
    && (forall k | 0 <= k < |accepted| :: IsAccepted(deliveries, accepted[k], c))
  }

  predicate RequestInv(s: State, r: nat)
    requires r < |s.requests|
  {
    var request := s.requests[r];
    && request.service < |s.services|
    && (request.connId.None? ==> request.phase == Gone(ShuttingDown))
    && (request.connId.Some? ==>
          var c := request.connId.value;
          && Registered(s, c, r)
          && (c in s.services[request.service].pending <==> !request.phase.Gone?)
          && AcceptedInv(s.accepted[c], s.channels[c], s.deliveries, c, request))
  }

  predicate PendingInv(s: State, v: nat, c: nat)
    requires v < |s.services|
  {
    c in s.services[v].pending ==>
      && c in s.owner && s.owner[c] < |s.requests|
      && s.requests[s.owner[c]].connId == Some(c) && s.requests[s.owner[c]].service == v
  }

  ghost predicate Inv(s: State) {
    && s.installed <= |s.services| && (s.current.Some? ==> s.current.value < s.installed)
    && (forall r: nat | r < |s.requests| :: RequestInv(s, r))
    && (forall v: nat, c: nat | v < |s.services| :: PendingInv(s, v, c))
    && (forall d | 0 <= d < |s.deliveries| && s.deliveries[d].outcome == Found ::
          s.deliveries[d].connId in s.owner)
    && (forall c | c in s.owner :: 1 <= c <= s.connSeq && s.owner[c] < |s.requests|
          && s.requests[s.owner[c]].connId == Some(c))
  }

  // ---- Every step keeps it ----------------------------------------------

  lemma ArriveKeepsInv(s: State, id: int, v: nat)
    requires Inv(s) && Enabled(s, Arrive(id, v))
    ensures Inv(Apply(s, Arrive(id, v)))
  {
    var t := Apply(s, Arrive(id, v));
    hide RequestInv, PendingInv;
    forall r: nat | r < |t.requests| ensures RequestInv(t, r) { ArriveKeepsRequest(s, id, v, r); }
    forall w: nat, c: nat | w < |t.services| ensures PendingInv(t, w, c) { ArriveKeepsPending(s, id, v, w, c); }
  }

  lemma ArriveKeepsRequest(s: State, id: int, v: nat, r: nat)
    requires Inv(s) && Enabled(s, Arrive(id, v)) && r < |Apply(s, Arrive(id, v)).requests|
    ensures RequestInv(Apply(s, Arrive(id, v)), r)
  {
    if r < |s.requests| {
      hide AcceptedInv;
      assert RequestInv(s, r);
    }
  }

  lemma ArriveKeepsPending(s: State, id: int, v: nat, w: nat, c: nat)
    requires Inv(s) && Enabled(s, Arrive(id, v)) && w < |s.services|
    ensures PendingInv(Apply(s, Arrive(id, v)), w, c)
  {
    hide RequestInv;
    assert PendingInv(s, w, c);
  }

  lemma AnswerKeepsInv(s: State, step: Step)
    requires Inv(s) && Enabled(s, step) && (step.Take? || step.Fail?)
    ensures Inv(Apply(s, step))
  {
    var t := Apply(s, step);
    forall r: nat | r < |t.requests| ensures RequestInv(t, r) {
      assert RequestInv(s, r) && RequestInv(s, step.request);
      if r != step.request { hide AcceptedInv; }
    }
    forall w: nat, c: nat | w < |t.services| ensures PendingInv(t, w, c) {
      hide AcceptedInv;
      assert PendingInv(s, w, c);
    }
  }

  lemma UnregisterKeepsInv(s: State, q: nat)
    requires Inv(s) && Enabled(s, Unregister(q))
    ensures Inv(Apply(s, Unregister(q)))
  {
    var t := Apply(s, Unregister(q));
    forall r: nat | r < |t.requests| ensures RequestInv(t, r) {
      assert RequestInv(s, r) && RequestInv(s, q);
    }
    forall w: nat, c: nat | w < |t.services| ensures PendingInv(t, w, c) {
      hide AcceptedInv;
      assert PendingInv(s, w, c);
    }
  }

  lemma OfferKeepsAccepted(s: State, d: nat, r: nat, c: nat)
    requires Inv(s) && Enabled(s, Offer(d)) && r < |s.requests| && s.requests[r].connId == Some(c)
    ensures var t := Apply(s, Offer(d));
            && c in t.accepted && c in t.channels
            && AcceptedInv(t.accepted[c], t.channels[c], t.deliveries, c, s.requests[r])
  {
    assert RequestInv(s, r);
    var t := Apply(s, Offer(d));
    forall k | 0 <= k < |s.accepted[c]| ensures IsAccepted(t.deliveries, s.accepted[c][k], c) {
      assert IsAccepted(s.deliveries, s.accepted[c][k], c);
    }
  }

  lemma OfferKeepsInv(s: State, d: nat)
    requires Inv(s) && Enabled(s, Offer(d))
    ensures Inv(Apply(s, Offer(d)))
  {
    hide AcceptedInv;
    var t := Apply(s, Offer(d));
    forall r: nat | r < |t.requests| ensures RequestInv(t, r) {
      assert RequestInv(s, r);
      if s.requests[r].connId.Some? { OfferKeepsAccepted(s, d, r, s.requests[r].connId.value); }
    }
    forall w: nat, c: nat | w < |t.services| ensures PendingInv(t, w, c) {
      assert PendingInv(s, w, c);
    }
  }

  lemma MoreDeliveries(accepted: seq<nat>, channel: Option<nat>, ds: seq<Delivery>, d: Delivery, c: nat, request: Request)
    requires AcceptedInv(accepted, channel, ds, c, request)
    ensures AcceptedInv(accepted, channel, ds + [d], c, request)
  {
    forall k | 0 <= k < |accepted| ensures IsAccepted(ds + [d], accepted[k], c) {
      assert IsAccepted(ds, accepted[k], c);
    }
  }

  lemma OtherKeepsInv(s: State, step: Step)
    requires Inv(s) && Enabled(s, step)
    requires step.Listen? || step.Install? || step.Disconnect? || step.Retire? || step.LookUp?
    ensures Inv(Apply(s, step))
  {
    hide AcceptedInv;
    var t := Apply(s, step);
    forall r: nat | r < |t.requests| ensures RequestInv(t, r) {
      assert RequestInv(s, r);
      if step.LookUp? && s.requests[r].connId.Some? {
        var c := s.requests[r].connId.value;
        MoreDeliveries(s.accepted[c], s.channels[c], s.deliveries, t.deliveries[|s.deliveries|], c, s.requests[r]);
      }
    }
    forall w: nat, c: nat | w < |t.services| ensures PendingInv(t, w, c) {
      if w < |s.services| { assert PendingInv(s, w, c); }
    }
    if step.LookUp? && FindsWaiter(s, step.connId) {
      assert PendingInv(s, s.current.value, step.connId);
    }
  }

  lemma StepKeepsInv(s: State, step: Step)
    requires Inv(s) && Enabled(s, step)
    ensures Inv(Apply(s, step))
  {
    hide Inv, Apply;
    match step
    case Arrive(id, v) => ArriveKeepsInv(s, id, v);
    case Take(_) => AnswerKeepsInv(s, step);
    case Fail(_, _) => AnswerKeepsInv(s, step);
    case Unregister(q) => UnregisterKeepsInv(s, q);
    case Offer(d) => OfferKeepsInv(s, d);
    case _ => OtherKeepsInv(s, step);
  }

  predicate Valid(s: State, steps: seq<Step>)
    decreases steps
  {
    steps == [] || (Enabled(s, steps[0]) && Valid(Apply(s, steps[0]), steps[1..]))
  }

  function Run(s: State, steps: seq<Step>): State
    requires Valid(s, steps)
    decreases steps
  {
    if steps == [] then s else Run(Apply(s, steps[0]), steps[1..])
  }

  lemma {:induction false} RunKeepsInv(s: State, steps: seq<Step>)
    requires Inv(s) && Valid(s, steps)
    ensures Inv(Run(s, steps))
    decreases steps
  {
    hide Inv;
    if steps != [] {
      StepKeepsInv(s, steps[0]);
      RunKeepsInv(Apply(s, steps[0]), steps[1..]);
    }
  }

  // ---- Correlation ------------------------------------------------------

  // A reply reaches only the request that registered its id, whatever services came
  // and went in between: ids are never shared, and the reply a request took was
  // addressed to its id and accepted.
  lemma RepliesReachTheirRequest(steps: seq<Step>, r: nat, q: nat)
    requires Valid(Initial, steps)
    requires var s := Run(Initial, steps); r < |s.requests| && q < |s.requests| && TookReply(s.requests[r])
    ensures var s := Run(Initial, steps);
            && s.requests[r].connId.Some?
            && IsAccepted(s.deliveries, AnswerOf(s.requests[r].phase).value.delivery, s.requests[r].connId.value)
            && (s.requests[q].connId == s.requests[r].connId ==> q == r)
  {
    RunKeepsInv(Initial, steps);
    var s := Run(Initial, steps);
    assert RequestInv(s, r) && RequestInv(s, q);
  }

  // A lookup finds exactly the requests of the live service that are still registered.
  lemma LookupIsLive(steps: seq<Step>, r: nat)
    requires Valid(Initial, steps)
    requires var s := Run(Initial, steps); r < |s.requests| && s.requests[r].connId.Some?
    ensures var s := Run(Initial, steps); var request := s.requests[r];
            FindsWaiter(s, request.connId.value)
            <==> s.current == Some(request.service) && !request.phase.Gone?
  {
    RunKeepsInv(Initial, steps);
    var s := Run(Initial, steps);
    assert RequestInv(s, r);
    if FindsWaiter(s, s.requests[r].connId.value) {
      assert PendingInv(s, s.current.value, s.requests[r].connId.value);
    }
  }

  // The first reply wins. A second one is accepted, and then never used, exactly when
  // the request has taken the first and its channel is empty again.
  lemma SecondAcceptanceExactly(steps: seq<Step>, d: nat)
    requires Valid(Initial, steps)
    requires var s := Run(Initial, steps); Enabled(s, Offer(d))
    ensures var s := Run(Initial, steps); var c := s.deliveries[d].connId; var t := Apply(s, Offer(d));
            && c in s.owner && s.owner[c] < |s.requests|
            && |t.accepted[c]| <= 2
            && (s.accepted[c] != [] && t.deliveries[d].outcome == Accepted
                <==> TookReply(s.requests[s.owner[c]]) && s.channels[c].None?)
  {
    RunKeepsInv(Initial, steps);
    var s := Run(Initial, steps);
    StepKeepsInv(s, Offer(d));
    var c := s.deliveries[d].connId;
    assert RequestInv(s, s.owner[c]);
    assert RequestInv(Apply(s, Offer(d)), s.owner[c]);
  }

  // What becomes of a reply that was looked up: it is refused exactly when the channel
  // holds an earlier one, accepted for the same id and not taken yet, and then nothing
  // else changes; otherwise it is the one the channel holds. So the first is accepted.
  lemma RefusedExactly(steps: seq<Step>, d: nat)
    requires Valid(Initial, steps)
    requires var s := Run(Initial, steps); d < |s.deliveries| && s.deliveries[d].outcome == Found
    ensures var s := Run(Initial, steps);
            && Enabled(s, Offer(d))
            && var c := s.deliveries[d].connId; var t := Apply(s, Offer(d)); var earlier := s.channels[c];
            && t.deliveries == s.deliveries[d := s.deliveries[d].(outcome := if earlier.Some? then Refused else Accepted)]
            && (earlier.Some? ==>
                  t == s.(deliveries := t.deliveries) && earlier.value != d && IsAccepted(s.deliveries, earlier.value, c))
            && (earlier.None? ==>
                  t == s.(deliveries := t.deliveries, channels := s.channels[c := Some(d)],
                          accepted := s.accepted[c := s.accepted[c] + [d]]))
            && (s.accepted[c] == [] ==> earlier.None?)
  {
    RunKeepsInv(Initial, steps);
    var s := Run(Initial, steps);
    var c := s.deliveries[d].connId;
    assert RequestInv(s, s.owner[c]);
    if s.channels[c].Some? { assert IsAccepted(s.deliveries, s.accepted[c][|s.accepted[c]| - 1], c); }
  }

  // The first reply answers: offered for an id with nothing accepted whose request still
  // waits, it can be taken at once, and then is that request's answer, under its own id.
  lemma FirstReplyAnswers(steps: seq<Step>, d: nat, r: nat)
    requires Valid(Initial, steps)
    requires var s := Run(Initial, steps);
             && d < |s.deliveries| && s.deliveries[d].outcome == Found
             && IsWaiting(s, r) && s.requests[r].connId == Some(s.deliveries[d].connId)
    ensures var s := Run(Initial, steps); var c := s.deliveries[d].connId;
            && c in s.accepted && Enabled(s, Offer(d))
            && (s.accepted[c] == [] ==>
                  && var offered := Apply(s, Offer(d));
                  && Enabled(offered, Take(r))
                  && var t := Apply(offered, Take(r));
                  && t.requests == s.requests[r := s.requests[r].(phase := Answered(Relay(d)))]
                  && t.deliveries[d] == s.deliveries[d].(outcome := Accepted)
                  && t.accepted[c] == [d] && t.channels[c] == None && t.services == s.services && t.current == s.current)
  {
    RefusedExactly(steps, d);
    RunKeepsInv(Initial, steps);
    assert RequestInv(Run(Initial, steps), r);
  }

  // A lookup finds somebody exactly when a registered request of the live service has the
  // id, and changes nothing but the record of the reply.
  lemma LookUpFindsExactly(steps: seq<Step>, connId: nat, reply: string)
    requires Valid(Initial, steps)
    ensures var s := Run(Initial, steps); var t := Apply(s, LookUp(connId, reply)); var d := |s.deliveries|;
            && t == s.(deliveries := t.deliveries) && |t.deliveries| == d + 1 && t.deliveries[..d] == s.deliveries
            && t.deliveries[d].connId == connId && t.deliveries[d].reply == reply
            && (t.deliveries[d].outcome == Found
                <==> exists r: nat :: r < |s.requests| && s.requests[r].connId == Some(connId)
                                      && s.current == Some(s.requests[r].service) && !s.requests[r].phase.Gone?)
            && t.deliveries[d].outcome in {Found, NobodyWaiting}
  {
    RunKeepsInv(Initial, steps);
    var s := Run(Initial, steps);
    if r: nat :| r < |s.requests| && s.requests[r].connId == Some(connId) && s.current == Some(s.requests[r].service)
                 && !s.requests[r].phase.Gone? {
      LookupIsLive(steps, r);
    } else if FindsWaiter(s, connId) {
      assert PendingInv(s, s.current.value, connId);
      LookupIsLive(steps, s.owner[connId]);
    }
  }

  // A new request is answered at once exactly when its service is closing; otherwise it
  // waits, registered under an id nobody has had, also on a service that is not the live
  // one.
  lemma ArrivalRegistersExactly(steps: seq<Step>, v: nat, id: int)
    requires Valid(Initial, steps) && v < |Run(Initial, steps).services|
    ensures var s := Run(Initial, steps); var (c, r) := (s.connSeq + 1, |s.requests|);
            && Enabled(s, Arrive(id, v)) && c !in s.owner
            && var t := Apply(s, Arrive(id, v));
            && |t.requests| == r + 1 && t.requests[..r] == s.requests && t.requests[r].id == id && t.requests[r].service == v
            && t.deliveries == s.deliveries && t.current == s.current
            && if ServiceClosing(s, v) then
                 t.requests[r].phase == Gone(ShuttingDown) && t.requests[r].connId.None? && t.services == s.services
               else
                 && IsWaiting(t, r) && t.requests[r].connId == Some(c) && c in t.channels && t.channels[c] == None
                 && c in t.accepted && t.accepted[c] == []
                 && t.services == s.services[v := Service(s.services[v].pending + {c}, false)]
  {
    RunKeepsInv(Initial, steps);
    NewIdIsFree(Run(Initial, steps), v);
    hide Inv;
  }

  // A whole conversation, in the midst of any run with a live service: a new request is
  // registered under an id never used, the app's reply to it is found, accepted, taken
  // and relayed, and nothing is left behind.
  lemma Conversation(steps: seq<Step>, v: nat, id: int, reply: string)
    requires Valid(Initial, steps)
    requires var s := Run(Initial, steps); s.current == Some(v) && !ServiceClosing(s, v)
    ensures var s := Run(Initial, steps); var (c, r, d) := (s.connSeq + 1, |s.requests|, |s.deliveries|);
            var more := [Arrive(id, v), LookUp(c, reply), Offer(d), Take(r), Unregister(r)];
            && c !in s.owner && Valid(s, more)
            && var t := Run(s, more);
            && t.requests == s.requests + [Request(id, v, Some(c), Gone(Relay(d)))]
            && t.deliveries == s.deliveries + [Delivery(c, reply, Accepted)]
            && t.services == s.services && t.current == s.current && c in t.channels && t.channels[c] == None
  {
    RunKeepsInv(Initial, steps);
    var s := Run(Initial, steps);
    NewIdIsFree(s, v);
    hide Inv;
    Converses(s, v, id, reply);
  }

  lemma NewIdIsFree(s: State, v: nat)
    requires Inv(s) && v < |s.services|
    ensures s.connSeq + 1 !in s.owner && s.connSeq + 1 !in s.services[v].pending
  {
    assert PendingInv(s, v, s.connSeq + 1);
  }

  lemma Converses(s: State, v: nat, id: int, reply: string)
    requires s.current == Some(v) && v < |s.services| && !s.services[v].closing && s.connSeq + 1 !in s.services[v].pending
    ensures var (c, r, d) := (s.connSeq + 1, |s.requests|, |s.deliveries|);
            var more := [Arrive(id, v), LookUp(c, reply), Offer(d), Take(r), Unregister(r)];
            && Valid(s, more)
            && var t := Run(s, more);
            && t.requests == s.requests + [Request(id, v, Some(c), Gone(Relay(d)))]
            && t.deliveries == s.deliveries + [Delivery(c, reply, Accepted)]
            && t.services == s.services && t.current == s.current && c in t.channels && t.channels[c] == None
  {
    hide Apply, Enabled, Valid, Run;
    var c, r, d := s.connSeq + 1, |s.requests|, |s.deliveries|;
    var s2 := Forwarded(s, v, id, reply);
    assert s2.requests[r] == Request(id, v, Some(c), Waiting) && s2.deliveries[d] == Delivery(c, reply, Found);
    var s4 := Relayed(s2, r, d);
    var s5 := Finished(s4, r, s.services);
    assert s2.requests[r := Request(id, v, Some(c), Gone(Relay(d)))] == s.requests + [Request(id, v, Some(c), Gone(Relay(d)))];
    assert s2.deliveries[d := Delivery(c, reply, Accepted)] == s.deliveries + [Delivery(c, reply, Accepted)];
    FiveSteps(s, Arrive(id, v), LookUp(c, reply), Offer(d), Take(r), Unregister(r));
  }

  lemma FiveSteps(s: State, a: Step, b: Step, c: Step, d: Step, e: Step)
    requires Enabled(s, a) && Enabled(Apply(s, a), b)
    requires var s2 := Apply(Apply(s, a), b);
             Enabled(s2, c) && Enabled(Apply(s2, c), d) && Enabled(Apply(Apply(s2, c), d), e)
    ensures Valid(s, [a, b, c, d, e])
    ensures Run(s, [a, b, c, d, e]) == Apply(Apply(Apply(Apply(Apply(s, a), b), c), d), e)
  {
    hide Apply, Enabled;
    var s2 := Apply(Apply(s, a), b);
    var s4 := Apply(Apply(s2, c), d);
    Then(s4, e, []);
    Then(Apply(s2, c), d, [e]);
    Then(s2, c, [d, e]);
    Then(Apply(s, a), b, [c, d, e]);
    Then(s, a, [b, c, d, e]);
  }

  lemma Relayed(s: State, r: nat, d: nat) returns (t: State)
    requires IsWaiting(s, r) && d < |s.deliveries| && s.deliveries[d].outcome == Found
    requires var c := s.deliveries[d].connId;
             s.requests[r].connId == Some(c) && c in s.channels && s.channels[c] == None && c in s.accepted
    ensures Enabled(s, Offer(d)) && Enabled(Apply(s, Offer(d)), Take(r)) && t == Apply(Apply(s, Offer(d)), Take(r))
    ensures t.requests == s.requests[r := s.requests[r].(phase := Answered(Relay(d)))] && t.current == s.current
    ensures t.deliveries == s.deliveries[d := s.deliveries[d].(outcome := Accepted)] && t.services == s.services
    ensures var c := s.deliveries[d].connId; c in t.channels && t.channels[c] == None
  {
    t := Apply(Apply(s, Offer(d)), Take(r));
  }

  lemma Finished(s: State, r: nat, before: seq<Service>) returns (t: State)
    requires r < |s.requests| && s.requests[r].phase.Answered? && s.requests[r].connId.Some?
    requires var (v, c) := (s.requests[r].service, s.requests[r].connId.value);
             v < |before| && c !in before[v].pending && !before[v].closing
             && s.services == before[v := Service(before[v].pending + {c}, false)]
    ensures Enabled(s, Unregister(r)) && t == Apply(s, Unregister(r))
    ensures t.requests == s.requests[r := s.requests[r].(phase := Gone(s.requests[r].phase.answer))]
    ensures t.services == before && t.deliveries == s.deliveries && t.channels == s.channels && t.current == s.current
  {
    t := Apply(s, Unregister(r));
    assert before[s.requests[r].service].pending + {s.requests[r].connId.value} - {s.requests[r].connId.value}
           == before[s.requests[r].service].pending;
  }

  lemma Forwarded(s: State, v: nat, id: int, reply: string) returns (t: State)
    requires s.current == Some(v) && v < |s.services| && !s.services[v].closing
    ensures Enabled(s, Arrive(id, v)) && Enabled(Apply(s, Arrive(id, v)), LookUp(s.connSeq + 1, reply))
    ensures t == Apply(Apply(s, Arrive(id, v)), LookUp(s.connSeq + 1, reply))
    ensures var c := s.connSeq + 1;
            && t.requests == s.requests + [Request(id, v, Some(c), Waiting)] && t.current == s.current
            && t.deliveries == s.deliveries + [Delivery(c, reply, Found)]
            && c in t.channels && t.channels[c] == None && c in t.accepted && t.accepted[c] == []
            && t.services == s.services[v := Service(s.services[v].pending + {c}, false)]
  {
    t := Apply(Apply(s, Arrive(id, v)), LookUp(s.connSeq + 1, reply));
  }

  lemma Then(s: State, step: Step, rest: seq<Step>)
    requires Enabled(s, step)
    ensures Valid(Apply(s, step), []) && Run(Apply(s, step), []) == Apply(s, step)
    ensures Valid(Apply(s, step), rest) ==>
              Valid(s, [step] + rest) && Run(s, [step] + rest) == Run(Apply(s, step), rest)
    ensures [step] + [] == [step]
  {
    assert ([step] + rest)[1..] == rest;
  }

  // A handshake replaces the live service: the new one is open and has nobody, the old
  // one can be retired and then closes, and until then, as ever, whoever waits can be
  // answered in each of the helper's own ways.
  lemma Replaced(steps: seq<Step>, r: nat, answer: Answer)
    requires Valid(Initial, steps)
    requires var s := Run(Initial, steps); s.installed == |s.services| && s.current.Some?
    ensures var s := Run(Initial, steps); var (was, now) := (s.current.value, |s.services|);
            var more := [Listen, Install, Retire(was)];
            && Valid(s, more)
            && var t := Run(s, more);
            && t.current == Some(now) && t.installed == |t.services| == now + 1 && t.services[now] == Service({}, false)
            && was < now && t.services[..now] == s.services[was := s.services[was].(closing := true)]
            && t.requests == s.requests && t.channels == s.channels && t.deliveries == s.deliveries
            && (IsWaiting(s, r) && s.requests[r].service == was && !answer.Relay? ==>
                  Enabled(t, Fail(r, answer))
                  && Apply(t, Fail(r, answer)).requests == s.requests[r := s.requests[r].(phase := Answered(answer))])
  {
    RunKeepsInv(Initial, steps);
    var s := Run(Initial, steps);
    hide Inv;
    var s1 := Apply(s, Listen);
    var s2 := Apply(s1, Install);
    Then(s2, Retire(s.current.value), []);
    Then(s1, Install, [Retire(s.current.value)]);
    Then(s, Listen, [Install, Retire(s.current.value)]);
  }

  // Once the app is gone no reply finds anybody, every request waits on as it was, and the
  // service that was live can be retired.
  lemma Disconnected(steps: seq<Step>, connId: nat, reply: string)
    requires Valid(Initial, steps) && Run(Initial, steps).current.Some?
    ensures var s := Run(Initial, steps); var was := s.current.value;
            && Enabled(s, Disconnect)
            && var t := Apply(s, Disconnect); var looked := Apply(t, LookUp(connId, reply));
            && looked.deliveries == s.deliveries + [Delivery(connId, reply, NobodyWaiting)]
            && t.requests == s.requests && t.services == s.services && t.channels == s.channels && t.installed == s.installed
            && Enabled(t, Retire(was)) && ServiceClosing(Apply(t, Retire(was)), was)
  {
    RunKeepsInv(Initial, steps);
    hide Inv;
  }

  // The answer a request has been given, with the request's own id, never changes.
  lemma {:induction false} OneAnswer(s: State, steps: seq<Step>, r: nat)
    requires Valid(s, steps) && r < |s.requests|
    ensures var t := Run(s, steps);
            && r < |t.requests| && t.requests[r].id == s.requests[r].id
            && t.requests[r].connId == s.requests[r].connId
            && (!s.requests[r].phase.Waiting? ==> AnswerOf(t.requests[r].phase) == AnswerOf(s.requests[r].phase))
    decreases steps
  {
    if steps != [] { OneAnswer(Apply(s, steps[0]), steps[1..], r); }
  }

  // ---- Closing ----------------------------------------------------------

  // The answers a closing service gives to requests below k that still wait.
  function Drain(s: State, service: nat, k: nat): seq<Step>
    requires k <= |s.requests|
  {
    if k == 0 then []
    else
      var rest := Drain(s, service, k - 1);
      if IsWaiting(s, k - 1) && s.requests[k - 1].service == service
      then rest + [Fail(k - 1, ShuttingDown)] else rest
  }

  predicate WaitsOn(s: State, service: nat, r: nat) {
    IsWaiting(s, r) && s.requests[r].service == service
  }

  lemma {:induction false} RunSnoc(s: State, steps: seq<Step>, step: Step)
    requires Valid(s, steps) && Enabled(Run(s, steps), step)
    ensures Valid(s, steps + [step]) && Run(s, steps + [step]) == Apply(Run(s, steps), step)
    decreases steps
  {
    if steps == [] {
      assert steps + [step] == [step];
      assert [step][1..] == [];
    } else {
      assert (steps + [step])[1..] == steps[1..] + [step];
      RunSnoc(Apply(s, steps[0]), steps[1..], step);
    }
  }

  // Closing leaves no request unanswered: each waiting request can answer at once, and
  // when they have, none waits and nothing else has changed.
  lemma {:induction false} ClosingAnswersAll(s: State, service: nat, k: nat)
    requires ServiceClosing(s, service) && k <= |s.requests|
    ensures Valid(s, Drain(s, service, k))
    ensures var t := Run(s, Drain(s, service, k));
            && t == s.(requests := t.requests) && |t.requests| == |s.requests|
            && forall r | 0 <= r < |s.requests| ::
                 t.requests[r] == if r < k && WaitsOn(s, service, r)
                                  then s.requests[r].(phase := Answered(ShuttingDown)) else s.requests[r]
  {
    if k > 0 {
      ClosingAnswersAll(s, service, k - 1);
      var before := Drain(s, service, k - 1);
      if WaitsOn(s, service, k - 1) {
        RunSnoc(s, before, Fail(k - 1, ShuttingDown));
      }
    }
  }

  // A service that is closing stays so, and takes no new request in any further run:
  // whoever waits on it already did. So after ClosingAnswersAll nobody ever waits on it.
  lemma {:induction false} ClosingAdmitsNobody(s: State, steps: seq<Step>, service: nat, r: nat)
    requires ServiceClosing(s, service) && Valid(s, steps)
    ensures var t := Run(s, steps);
            ServiceClosing(t, service) && (WaitsOn(t, service, r) ==> WaitsOn(s, service, r))
    decreases steps
  {
    if steps != [] { ClosingAdmitsNobody(Apply(s, steps[0]), steps[1..], service, r); }
  }

  lemma ClosedForGood(s: State, service: nat, steps: seq<Step>, r: nat)
    requires ServiceClosing(s, service)
    requires Valid(s, Drain(s, service, |s.requests|)) && Valid(Run(s, Drain(s, service, |s.requests|)), steps)
    ensures !WaitsOn(Run(Run(s, Drain(s, service, |s.requests|)), steps), service, r)
  {
    ClosingAnswersAll(s, service, |s.requests|);
    ClosingAdmitsNobody(Run(s, Drain(s, service, |s.requests|)), steps, service, r);
  }

  // ---- What the terminal hears ------------------------------------------

  // The answer as it is sent: a relayed reply is normalised, anything else is the
  // helper's own, and each is stamped with the id the terminal sent.
  function Sent(codes: set<string>, decode: string -> CallbackReply.MainReply, id: int, answer: Answer,
                deliveries: seq<Delivery>): CallbackReply.CliReply
    requires answer.Relay? ==> answer.delivery < |deliveries|
  {
    match answer
    case Relay(d) => CallbackReply.Normalize(codes, id, decode(deliveries[d].reply))
    case TimedOut => CallbackReply.Error(id, "timeout", CallbackReply.Bytes("no confirmation within the deadline"))
    case WriteFailed => CallbackReply.Error(id, "not-connected", CallbackReply.Bytes("the helper cannot reach the app"))
    case BackedUp =>
      CallbackReply.Error(id, "not-connected",
        CallbackReply.Bytes("the helper cannot reach the app (its output is backed up)"))
    case ShuttingDown => CallbackReply.Error(id, "not-connected", CallbackReply.Bytes("the helper is shutting down"))
  }

  lemma {:induction false} DeliveriesStay(s: State, steps: seq<Step>, d: nat)
    requires Valid(s, steps) && d < |s.deliveries|
    ensures var t := Run(s, steps); d < |t.deliveries| && t.deliveries[d].reply == s.deliveries[d].reply
    decreases steps
  {
    if steps != [] { DeliveriesStay(Apply(s, steps[0]), steps[1..], d); }
  }

  // In every run: once a request is answered, what its terminal is sent is settled. It
  // carries the terminal's own id and a known code, and nothing that happens later, to
  // this service or the ones that replace it, changes it.
  lemma AnswerIsFinal(codes: set<string>, decode: string -> CallbackReply.MainReply, steps: seq<Step>, more: seq<Step>, r: nat)
    requires {"internal", "timeout", "not-connected"} <= codes
    requires Valid(Initial, steps) && Valid(Run(Initial, steps), more)
    requires r < |Run(Initial, steps).requests| && !Run(Initial, steps).requests[r].phase.Waiting?
    ensures var (s, t) := (Run(Initial, steps), Run(Run(Initial, steps), more));
            var answer := AnswerOf(s.requests[r].phase).value;
            && (answer.Relay? ==> answer.delivery < |s.deliveries| && answer.delivery < |t.deliveries|)
            && r < |t.requests| && AnswerOf(t.requests[r].phase) == Some(answer)
            && var sent := Sent(codes, decode, s.requests[r].id, answer, s.deliveries);
            && sent.id == s.requests[r].id
            && (sent.Error? ==> sent.code in codes && |sent.message| <= 512)
            && (if answer.Relay? then sent == CallbackReply.Normalize(codes, s.requests[r].id, decode(s.deliveries[answer.delivery].reply))
                else sent.Error? && sent.code == if answer == TimedOut then "timeout" else "not-connected")
            && Sent(codes, decode, t.requests[r].id, answer, t.deliveries) == sent
  {
    RunKeepsInv(Initial, steps);
    var s := Run(Initial, steps);
    OneAnswer(s, more, r);
    var answer := AnswerOf(s.requests[r].phase).value;
    TakenIsThere(s, r);
    hide Inv, Sent, Run, Valid;
    SentIsSafe(codes, decode, s.requests[r].id, answer, s.deliveries);
    if answer.Relay? { DeliveriesStay(s, more, answer.delivery); }
    SentStays(codes, decode, s.requests[r].id, answer, s.deliveries, Run(s, more).deliveries);
  }

  lemma TakenIsThere(s: State, r: nat)
    requires Inv(s) && r < |s.requests| && !s.requests[r].phase.Waiting?
    ensures var answer := AnswerOf(s.requests[r].phase).value; answer.Relay? ==> answer.delivery < |s.deliveries|
  {
    assert RequestInv(s, r);
    if TookReply(s.requests[r]) {
      assert IsAccepted(s.deliveries, s.accepted[s.requests[r].connId.value][0], s.requests[r].connId.value);
    }
  }

  lemma SentIsSafe(codes: set<string>, decode: string -> CallbackReply.MainReply, id: int, answer: Answer, deliveries: seq<Delivery>)
    requires {"internal", "timeout", "not-connected"} <= codes && (answer.Relay? ==> answer.delivery < |deliveries|)
    ensures var sent := Sent(codes, decode, id, answer, deliveries);
            && sent.id == id && (sent.Error? ==> sent.code in codes && |sent.message| <= 512)
            && if answer.Relay? then sent == CallbackReply.Normalize(codes, id, decode(deliveries[answer.delivery].reply))
               else sent.Error? && sent.code == if answer == TimedOut then "timeout" else "not-connected"
  {
    if answer.Relay? { CallbackReply.NormalizedIsSafe(codes, id, decode(deliveries[answer.delivery].reply)); }
    hide CallbackReply.Normalize;
  }

  lemma SentStays(codes: set<string>, decode: string -> CallbackReply.MainReply, id: int, answer: Answer,
                  deliveries: seq<Delivery>, later: seq<Delivery>)
    requires answer.Relay? ==>
               answer.delivery < |deliveries| && answer.delivery < |later|
               && later[answer.delivery].reply == deliveries[answer.delivery].reply
    ensures Sent(codes, decode, id, answer, later) == Sent(codes, decode, id, answer, deliveries)
  {
    hide CallbackReply.Normalize, CallbackReply.Bytes;
  }
}
