// Who holds each received descriptor while a new daemon takes over (handoff_adopt.go, and
// the child's end of the upgrade in main.go). A slot that is set still holds its file.
module DescriptorOwnership {
  import opened Text
  import opened Layout
  import opened Topology
  import opened Operations
  import opened HandoffManifest
  import opened HandoffAdoption

  // What comes of the received listener: a duplicate of it serves, or it cannot be adopted,
  // or what it is a duplicate of is not a Unix socket.
  datatype Listening = Listens | Refused | WrongKind

  // What comes of taking over one pane: its process may not be the one described, and its
  // terminal may not be restorable.
  datatype Attempt = Adopts | WrongProcess | NotRestored

  // The panes before the first that cannot be taken over are.
  predicate AllAdopt(panes: seq<PaneEntry>, attempts: seq<Attempt>, slots: seq<bool>)
    requires |attempts| == |panes|
  {
    forall i | 0 <= i < |panes| :: 0 <= panes[i].master < |slots| && slots[panes[i].master] && attempts[i].Adopts?
  }

  // Who owns which descriptor once these panes are taken over.
  function OwnersOf(panes: seq<PaneEntry>): map<int, string> {
    if panes == [] then map[] else OwnersOf(panes[..|panes| - 1])[panes[|panes| - 1].master := panes[|panes| - 1].sessionID]
  }

  lemma MastersMore(panes: seq<PaneEntry>)
    requires panes != [] && Distinct(Masters(panes))
    ensures var init := panes[..|panes| - 1]; var last := panes[|panes| - 1].master;
            && Distinct(Masters(init)) && Elements(Masters(panes)) == Elements(Masters(init)) + {last} && last !in Elements(Masters(init))
            && forall i | 0 <= i < |init| :: init[i] == panes[i] && panes[i].master in Elements(Masters(init))
  {
    var n := |panes| - 1;
    var init, masters := panes[..n], Masters(panes);
    assert Masters(init) == masters[..n] && masters == masters[..n] + [masters[n]];
    forall i, j | 0 <= i < j < n ensures Masters(init)[i] != Masters(init)[j] { assert masters[i] != masters[j]; }
    forall i | 0 <= i < n ensures Masters(init)[i] != masters[n] { assert masters[i] != masters[n]; }
    forall i | 0 <= i < n ensures panes[i].master in Elements(Masters(init)) { assert Masters(init)[i] == panes[i].master; }
  }

  lemma {:induction false} OwnersAre(panes: seq<PaneEntry>)
    requires Distinct(Masters(panes))
    ensures OwnersOf(panes).Keys == Elements(Masters(panes))
    ensures forall i | 0 <= i < |panes| :: panes[i].master in OwnersOf(panes) && OwnersOf(panes)[panes[i].master] == panes[i].sessionID
  {
    if panes != [] {
      MastersMore(panes);
      OwnersAre(panes[..|panes| - 1]);
      hide Masters, Distinct, Elements;
    }
  }

  // The slots that are left once some descriptors are owned.
  predicate Left(received: seq<bool>, slots: seq<bool>, owner: map<int, string>) {
    |slots| == |received| && forall d | 0 <= d < |received| :: slots[d] == (received[d] && d !in owner)
  }

  lemma DistinctPrefix(panes: seq<PaneEntry>, i: nat)
    requires i < |panes| && Distinct(Masters(panes))
    ensures Distinct(Masters(panes[..i])) && panes[i].master !in Elements(Masters(panes[..i]))
  {
    var all, before := Masters(panes), Masters(panes[..i]);
    assert all[i] == panes[i].master;
    forall p | 0 <= p < i ensures before[p] == all[p] { }
    forall p, q | 0 <= p < q < i ensures before[p] != before[q] { assert all[p] != all[q]; }
  }

  // The next pane's descriptor is not owned yet.
  lemma NextIsUnowned(panes: seq<PaneEntry>, i: nat)
    requires i < |panes| && Distinct(Masters(panes))
    ensures panes[i].master !in OwnersOf(panes[..i])
    ensures OwnersOf(panes[..i + 1]) == OwnersOf(panes[..i])[panes[i].master := panes[i].sessionID]
  {
    DistinctPrefix(panes, i);
    OwnersAre(panes[..i]);
    assert panes[..i + 1][..i] == panes[..i];
    hide Masters, Distinct, Elements;
  }

  class NewDaemon {
    var sessions: Sessions
    var panes: map<string, string>
    var topologyState: map<string, State>
    var nextSession: nat
    var nextWindow: nat
    var owner: map<int, string>
    var closed: set<int>
    var serving: bool

    // NewHandoffOperations.
    constructor ()
      ensures Empty() && closed == {} && !serving
    {
      sessions, panes, topologyState, owner, closed := map[], map[], map[], map[], {};
      nextSession, nextWindow, serving := 0, 0, false;
    }

    predicate Empty()
      reads this
    {
      sessions == map[] && panes == map[] && topologyState == map[] && owner == map[] && nextSession == 0 && nextWindow == 0
    }

    // Every file that was received is still in its slot, owned by a session, or closed.
    ghost predicate Accounted(received: seq<bool>, slots: seq<bool>)
      reads this
    {
      |received| == |slots| && forall d | 0 <= d < |received| && received[d] :: slots[d] || d in owner || d in closed
    }

    // AdoptHandoff. On success each pane's descriptor has left its slot and is its
    // session's; on failure no session is left, and nothing is lost track of.
    method AdoptHandoff(m: Manifest, verified: bool, slots: array<bool>, attempts: seq<Attempt>) returns (ok: bool)
      requires |attempts| == |m.panes| && Empty()
      modifies this, slots
      ensures serving == old(serving)
      ensures ok <==> verified && Valid(m) && DescriptorsValid(m, slots.Length) && AllAdopt(m.panes, attempts, old(slots[..]))
      ensures ok ==> sessions == SessionsOf(m.panes) && panes == PaneIndex(m.panes) && topologyState == TopologyFor(m.topology)
      ensures ok ==> nextSession == NextSessionOf(m.panes) && nextWindow == NextWindowOf(m.panes)
      ensures ok ==> owner == OwnersOf(m.panes) && closed == old(closed) && Left(old(slots[..]), slots[..], owner)
      ensures !ok ==> sessions == map[] && panes == map[] && owner == map[] && old(closed) <= closed
      ensures Accounted(old(slots[..]), slots[..])
    {
      if !verified { return false; }
      var valid := Validate(m);
      if !valid { return false; }
      var counted := ValidateDescriptors(m, slots.Length);
      if !counted { return false; }
      MastersAreFine(m, slots.Length);
      hide Valid, DescriptorsValid, SessionsOf, PaneIndex, OwnersOf, TopologyFor, NextSessionOf, NextWindowOf;
      topologyState := AdoptTopology(m.topology);
      ok := AdoptPanes(m.panes, slots, attempts);
    }

    method AdoptPanes(entries: seq<PaneEntry>, slots: array<bool>, attempts: seq<Attempt>) returns (ok: bool)
      requires |attempts| == |entries| && Distinct(Masters(entries))
      requires forall i | 0 <= i < |entries| :: 0 <= entries[i].master < slots.Length
      requires sessions == map[] && panes == map[] && owner == map[] && nextSession == 0 && nextWindow == 0
      modifies this, slots
      ensures topologyState == old(topologyState) && serving == old(serving) && old(closed) <= closed
      ensures ok <==> AllAdopt(entries, attempts, old(slots[..]))
      ensures ok ==> sessions == SessionsOf(entries) && panes == PaneIndex(entries)
      ensures ok ==> nextSession == NextSessionOf(entries) && nextWindow == NextWindowOf(entries)
      ensures ok ==> owner == OwnersOf(entries) && closed == old(closed) && Left(old(slots[..]), slots[..], owner)
      ensures !ok ==> sessions == map[] && panes == map[] && owner == map[]
      ensures Accounted(old(slots[..]), slots[..])
    {
      hide MaxSuffix, SessionsOf, PaneIndex, NextSessionOf, NextWindowOf, OwnersOf, PaneOf, Distinct, Masters;
      ghost var received := slots[..];
      var i := 0;
      NothingYet(entries);
      while i < |entries|
        invariant i <= |entries| && topologyState == old(topologyState) && closed == old(closed) && serving == old(serving)
        invariant sessions == SessionsOf(entries[..i]) && panes == PaneIndex(entries[..i])
        invariant nextSession == NextSessionOf(entries[..i]) && nextWindow == NextWindowOf(entries[..i])
        invariant forall k | 0 <= k < i :: received[entries[k].master] && attempts[k].Adopts?
        invariant owner == OwnersOf(entries[..i]) && Left(received, slots[..], owner)
      {
        var e := entries[i];
        NextIsUnowned(entries, i);
        if !slots[e.master] || attempts[i].WrongProcess? {
          Rollback();
          return false;
        }
        if attempts[i].NotRestored? {
          // Closing the pane closes its file, which the slot goes on naming.
          closed := closed + {e.master};
          Rollback();
          return false;
        }
        Prefixes(entries, i);
        slots[e.master] := false;
        sessions := sessions[e.sessionID := PaneOf(e)];
        panes := panes[e.paneID := e.sessionID];
        owner := owner[e.master := e.sessionID];
        nextSession := MaxSuffix(MaxSuffix(nextSession, e.sessionID, "session-"), e.paneID, "pane-");
        nextWindow := MaxSuffix(nextWindow, e.window, "window-");
        i := i + 1;
      }
      assert entries[..i] == entries;
      return true;
    }

    // The rollback of AdoptHandoff, and AbandonHandoff: what was taken over is closed.
    method Rollback()
      modifies this
      ensures sessions == map[] && panes == map[] && owner == map[] && closed == old(closed) + old(owner.Keys)
      ensures topologyState == old(topologyState) && serving == old(serving)
    {
      closed := closed + owner.Keys;
      sessions, panes, owner := map[], map[], map[];
    }

    // closeHandoffDescriptors.
    method CloseDescriptors(slots: array<bool>)
      modifies this`closed
      ensures closed == old(closed) + set d | 0 <= d < slots.Length && slots[d]
    {
      var i := 0;
      while i < slots.Length
        invariant i <= slots.Length && closed == old(closed) + set d | 0 <= d < i && slots[d]
      {
        if slots[i] { closed := closed + {i}; }
        i := i + 1;
      }
    }

    // handoffChild from the manifest to the answer: `ready` says whether its home could be
    // opened, `listening` what came of the listener and `acknowledged` whether the answer
    // was written. On any failure it lets go of everything; a listener that could not be
    // adopted is the one file it does not close.
    method TakeOver(m: Manifest, ready: bool, listening: Listening, verified: bool, slots: array<bool>,
                    attempts: seq<Attempt>, acknowledged: bool)
      returns (accepted: bool)
      requires |attempts| == |m.panes| && Empty() && closed == {} && !serving
      requires forall d | 0 <= d < slots.Length :: slots[d]
      requires Valid(m) && DescriptorsValid(m, slots.Length)
      modifies this, slots
      ensures accepted
              <==> ready && m.listener >= 0 && listening.Listens? && verified && acknowledged && forall i | 0 <= i < |attempts| :: attempts[i].Adopts?
      ensures accepted ==> serving && closed == {m.listener} && owner == OwnersOf(m.panes)
      ensures !accepted ==> !serving && owner == map[] && sessions == map[]
      ensures !accepted ==> forall d | 0 <= d < slots.Length :: d in closed || (d == m.listener && ready && listening.Refused?)
    {
      ListenerIsIn(m, slots.Length);
      hide *;
      if !ready || m.listener < 0 {
        accepted := false;
        DropAll(slots);
        return;
      }
      var listens := TakeListener(m.listener, slots, listening);
      if !listens { return false; }
      accepted := AdoptAndAnswer(m, verified, slots, attempts, acknowledged);
    }

    method DropAll(slots: array<bool>)
      requires forall d | 0 <= d < slots.Length :: slots[d]
      modifies this
      ensures !serving && owner == map[] && sessions == map[] && forall d | 0 <= d < slots.Length :: d in closed
    {
      LetGo(slots, {}, slots[..]);
    }

    // The listener's file leaves its slot; a duplicate serves, and the received one closes.
    method TakeListener(listener: nat, slots: array<bool>, listening: Listening) returns (listens: bool)
      requires Empty() && closed == {} && listener < slots.Length && forall d | 0 <= d < slots.Length :: slots[d]
      modifies this, slots
      ensures listens == listening.Listens?
      ensures listens ==> Empty() && closed == {listener} && serving && forall d | 0 <= d < slots.Length :: slots[d] == (d != listener)
      ensures !listens ==> !serving && owner == map[] && sessions == map[]
      ensures !listens ==> forall d | 0 <= d < slots.Length :: d in closed || (d == listener && listening.Refused?)
    {
      slots[listener] := false;
      if listening.Refused? {
        LetGo(slots, {listener}, slots[..]);
        return false;
      }
      closed := {listener};
      if listening.WrongKind? {
        LetGo(slots, {}, slots[..]);
        return false;
      }
      serving := true;
      return true;
    }

    // What follows once the listener serves and its received file is closed.
    method AdoptAndAnswer(m: Manifest, verified: bool, slots: array<bool>, attempts: seq<Attempt>, acknowledged: bool)
      returns (accepted: bool)
      requires |attempts| == |m.panes| && Empty() && 0 <= m.listener < slots.Length && closed == {m.listener} && serving
      requires forall d | 0 <= d < slots.Length :: slots[d] == (d != m.listener)
      requires Valid(m) && DescriptorsValid(m, slots.Length)
      modifies this, slots
      ensures accepted <==> verified && acknowledged && forall i | 0 <= i < |attempts| :: attempts[i].Adopts?
      ensures accepted ==> serving && closed == {m.listener} && owner == OwnersOf(m.panes)
      ensures !accepted ==> !serving && owner == map[] && sessions == map[] && forall d | 0 <= d < slots.Length :: d in closed
    {
      MastersAreFine(m, slots.Length);
      AllAreThere(m.panes, attempts, slots[..], m.listener);
      ghost var received := slots[..];
      assert forall d | 0 <= d < |received| :: received[d] || d == m.listener;
      hide *;
      var ok := AdoptHandoff(m, verified, slots, attempts);
      if ok && acknowledged { return true; }
      LetGo(slots, {}, received);
      return false;
    }

    // The deferred clean-up: AbandonHandoff, the server, and the received files.
    method LetGo(slots: array<bool>, ghost lost: set<int>, ghost received: seq<bool>)
      requires |received| == slots.Length && Accounted(received, slots[..])
      requires forall d | 0 <= d < |received| :: received[d] || d in closed || d in lost
      modifies this
      ensures !serving && owner == map[] && sessions == map[] && forall d | 0 <= d < slots.Length :: d in closed || d in lost
    {
      Rollback();
      serving := false;
      CloseDescriptors(slots);
    }
  }

  lemma AllAreThere(panes: seq<PaneEntry>, attempts: seq<Attempt>, slots: seq<bool>, listener: int)
    requires |attempts| == |panes|
    requires forall i | 0 <= i < |panes| :: 0 <= panes[i].master < |slots| && panes[i].master != listener
    requires forall d | 0 <= d < |slots| :: slots[d] == (d != listener)
    ensures AllAdopt(panes, attempts, slots) <==> forall i | 0 <= i < |attempts| :: attempts[i].Adopts?
  {
  }

  lemma ListenerIsIn(m: Manifest, count: nat)
    requires DescriptorsValid(m, count)
    ensures m.listener < count
  {
  }

  // After a takeover every descriptor but the listener's belongs to one session.
  lemma OwnedOnce(m: Manifest, count: nat)
    requires Valid(m) && DescriptorsValid(m, count)
    ensures OwnersOf(m.panes).Keys == NumbersBelow(count) - {m.listener}
    ensures forall i | 0 <= i < |m.panes| :: m.panes[i].master in OwnersOf(m.panes) && OwnersOf(m.panes)[m.panes[i].master] == m.panes[i].sessionID
  {
    hide Valid, DescriptorsValid, Masters, Distinct, OwnersOf, NumbersBelow;
    DescriptorsAreNamedOnce(m, count);
    OwnersAre(m.panes);
  }

  lemma MastersAreFine(m: Manifest, count: nat)
    requires Valid(m) && DescriptorsValid(m, count)
    ensures Distinct(Masters(m.panes)) && forall i | 0 <= i < |m.panes| :: 0 <= m.panes[i].master < count && m.panes[i].master != m.listener
  {
    MastersAreDistinct(m.panes, m.listener);
    assert forall i | 0 <= i < |m.panes| :: Masters(m.panes)[i] == m.panes[i].master && Masters(m.panes)[i] in Masters(m.panes);
  }

  lemma NothingYet(entries: seq<PaneEntry>)
    ensures SessionsOf(entries[..0]) == map[] && PaneIndex(entries[..0]) == map[] && OwnersOf(entries[..0]) == map[]
    ensures NextSessionOf(entries[..0]) == 0 && NextWindowOf(entries[..0]) == 0
  {
  }

  lemma Prefixes(entries: seq<PaneEntry>, i: nat)
    requires i < |entries|
    ensures var before, after, e := entries[..i], entries[..i + 1], entries[i];
            && SessionsOf(after) == SessionsOf(before)[e.sessionID := PaneOf(e)]
            && PaneIndex(after) == PaneIndex(before)[e.paneID := e.sessionID]
            && NextSessionOf(after) == MaxSuffix(MaxSuffix(NextSessionOf(before), e.sessionID, "session-"), e.paneID, "pane-")
            && NextWindowOf(after) == MaxSuffix(NextWindowOf(before), e.window, "window-")
  {
    hide MaxSuffix;
    assert entries[..i + 1][..i] == entries[..i];
  }

  method AdoptTopology(topology: seq<SessionEntry>) returns (r: map<string, State>)
    ensures r == TopologyFor(topology)
  {
    hide Adopted;
    r := map[];
    var i := 0;
    assert topology[..0] == [];
    while i < |topology|
      invariant i <= |topology| && r == TopologyFor(topology[..i])
    {
      assert topology[..i + 1][..i] == topology[..i];
      var t := AdoptSession(topology[i]);
      r := r[topology[i].sessionID := t];
      i := i + 1;
    }
    assert topology[..i] == topology;
  }

  function NamesIn(windows: seq<WindowEntry>): set<string> {
    set k | 0 <= k < |windows| :: windows[k].windowID
  }

  // What taking one field over from window after window has made of a map.
  ghost predicate Taken<T>(windows: seq<WindowEntry>, m: map<string, T>, field: WindowEntry -> T) {
    m.Keys == NamesIn(windows) && forall w | w in m :: m[w] == field(LastNamed(windows, w))
  }

  ghost function LastNamed(windows: seq<WindowEntry>, w: string): WindowEntry
    requires w in NamesIn(windows)
  {
    LastFor(windows, w)
  }

  function ActivePane(): WindowEntry -> string {
    (e: WindowEntry) => e.activePane
  }

  function ZoomedPane(): WindowEntry -> string {
    (e: WindowEntry) => e.zoomed
  }

  function Tree(): WindowEntry -> Layout {
    (e: WindowEntry) => e.layout
  }

  lemma LastForMore(windows: seq<WindowEntry>, e: WindowEntry, w: string)
    requires w == e.windowID || w in NamesIn(windows)
    ensures w in NamesIn(windows + [e]) && LastNamed(windows + [e], w) == if w == e.windowID then e else LastNamed(windows, w)
  {
    var more := windows + [e];
    assert more[|windows|] == e && more[..|more| - 1] == windows;
    if w != e.windowID {
      var k :| 0 <= k < |windows| && windows[k].windowID == w;
      assert more[k].windowID == w;
    }
  }

  lemma NamesMore(windows: seq<WindowEntry>, e: WindowEntry)
    ensures NamesIn(windows + [e]) == NamesIn(windows) + {e.windowID}
  {
    var more := windows + [e];
    assert more[|windows|] == e;
    assert forall k | 0 <= k < |windows| :: more[k] == windows[k];
  }

  lemma TakenStep<T>(windows: seq<WindowEntry>, e: WindowEntry, m: map<string, T>, field: WindowEntry -> T)
    requires Taken(windows, m, field)
    ensures Taken(windows + [e], m[e.windowID := field(e)], field)
  {
    hide LastNamed, NamesIn;
    NamesMore(windows, e);
    forall w | w in NamesIn(windows) + {e.windowID}
      ensures w in NamesIn(windows + [e]) && LastNamed(windows + [e], w) == if w == e.windowID then e else LastNamed(windows, w)
    {
      LastForMore(windows, e, w);
    }
  }

  lemma TakenIsAdopted(s: SessionEntry, activePane: map<string, string>, zoomed: map<string, string>, layouts: map<string, Layout>)
    requires Taken(s.windows, activePane, ActivePane()) && Taken(s.windows, zoomed, ZoomedPane()) && Taken(s.windows, layouts, Tree())
    ensures activePane == AdoptedPanes(s) && zoomed == AdoptedZooms(s) && layouts == AdoptedLayouts(s)
  {
    hide LastFor;
  }

  method AdoptSession(s: SessionEntry) returns (t: State)
    ensures t == Adopted(s)
  {
    var activePane: map<string, string>, zoomed: map<string, string>, layouts: map<string, Layout> := map[], map[], map[];
    var i := 0;
    assert s.windows[..0] == [] && NamesIn([]) == {};
    hide NamesIn, LastNamed;
    assert Taken([], activePane, ActivePane()) && Taken([], zoomed, ZoomedPane()) && Taken([], layouts, Tree());
    hide Taken, AdoptedPanes, AdoptedZooms, AdoptedLayouts;
    while i < |s.windows|
      invariant i <= |s.windows|
      invariant Taken(s.windows[..i], activePane, ActivePane()) && Taken(s.windows[..i], zoomed, ZoomedPane())
      invariant Taken(s.windows[..i], layouts, Tree())
    {
      var e := s.windows[i];
      TakenStep(s.windows[..i], e, activePane, ActivePane());
      TakenStep(s.windows[..i], e, zoomed, ZoomedPane());
      TakenStep(s.windows[..i], e, layouts, Tree());
      assert s.windows[..i + 1] == s.windows[..i] + [e];
      activePane := activePane[e.windowID := e.activePane];
      zoomed := zoomed[e.windowID := e.zoomed];
      layouts := layouts[e.windowID := e.layout];
      i := i + 1;
    }
    assert s.windows[..i] == s.windows;
    TakenIsAdopted(s, activePane, zoomed, layouts);
    t := State(s.activeWindow, s.order, activePane, zoomed, layouts);
  }
}
