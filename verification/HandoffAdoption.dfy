// From a daemon to a manifest (handoff_prepare.go) and from a manifest to the daemon that
// takes over (handoff_adopt.go).
module HandoffAdoption {
  import opened Text
  import opened Layout
  import opened Topology
  import opened Operations
  import opened TopologyClosure
  import opened HandoffManifest

  // ---- What is adopted ---------------------------------------------------

  // A pane without a project joins the standalone one.
  function PaneOf(e: PaneEntry): (p: Pane)
    ensures p.project != "" && (e.project != "" ==> p.project == e.project)
  {
    Pane(e.sessionID, e.paneID, if e.project == "" then "standalone" else e.project, e.logical, e.window)
  }

  function SessionsOf(panes: seq<PaneEntry>): Sessions {
    if panes == [] then map[]
    else SessionsOf(panes[..|panes| - 1])[panes[|panes| - 1].sessionID := PaneOf(panes[|panes| - 1])]
  }

  function PaneIndex(panes: seq<PaneEntry>): map<string, string> {
    if panes == [] then map[]
    else PaneIndex(panes[..|panes| - 1])[panes[|panes| - 1].paneID := panes[|panes| - 1].sessionID]
  }

  function Adopted(s: SessionEntry): State {
    State(s.activeWindow, s.order, AdoptedPanes(s), AdoptedZooms(s), AdoptedLayouts(s))
  }

  function AdoptedPanes(s: SessionEntry): map<string, string> {
    map w | w in WindowIDs(s) :: EntryFor(s, w).activePane
  }

  function AdoptedZooms(s: SessionEntry): map<string, string> {
    map w | w in WindowIDs(s) :: EntryFor(s, w).zoomed
  }

  function AdoptedLayouts(s: SessionEntry): map<string, Layout> {
    map w | w in WindowIDs(s) :: EntryFor(s, w).layout
  }

  function WindowIDs(s: SessionEntry): set<string> {
    set i | 0 <= i < |s.windows| :: s.windows[i].windowID
  }

  // The last entry of a window, as assigning them in turn leaves it.
  function EntryFor(s: SessionEntry, w: string): WindowEntry
    requires w in WindowIDs(s)
  {
    LastFor(s.windows, w)
  }

  function LastFor(windows: seq<WindowEntry>, w: string): WindowEntry
    requires exists i | 0 <= i < |windows| :: windows[i].windowID == w
  {
    var n := |windows| - 1;
    if windows[n].windowID == w then windows[n] else LastFor(windows[..n], w)
  }

  const MAX_UINT64: nat := 0xffff_ffff_ffff_ffff

  // maxIdentifierSuffix.
  function MaxSuffix(current: nat, value: string, prefix: string): (r: nat)
    ensures r >= current
  {
    if !(prefix <= value) then current
    else
      var suffix := value[|prefix|..];
      if suffix == "" || !AllDigits(suffix) || Value(suffix) > MAX_UINT64 || Value(suffix) < current then current
      else Value(suffix)
  }

  function NextSessionOf(panes: seq<PaneEntry>): nat {
    if panes == [] then 0
    else
      var p := panes[|panes| - 1];
      MaxSuffix(MaxSuffix(NextSessionOf(panes[..|panes| - 1]), p.sessionID, "session-"), p.paneID, "pane-")
  }

  function NextWindowOf(panes: seq<PaneEntry>): nat {
    if panes == [] then 0 else MaxSuffix(NextWindowOf(panes[..|panes| - 1]), panes[|panes| - 1].window, "window-")
  }

  function TopologyFor(topology: seq<SessionEntry>): map<string, State> {
    if topology == [] then map[]
    else TopologyFor(topology[..|topology| - 1])[topology[|topology| - 1].sessionID := Adopted(topology[|topology| - 1])]
  }

  // A project's selection is taken over if the session it names is there.
  function KeptActive(active: map<string, string>, sessions: Sessions): map<string, string> {
    map p | p in active && active[p] in Logicals(sessions) :: active[p]
  }

  function AdoptedDaemon(m: Manifest): Daemon {
    Daemon(SessionsOf(m.panes), PaneIndex(m.panes), TopologyFor(m.topology), KeptActive(m.active, SessionsOf(m.panes)),
           NextSessionOf(m.panes), NextWindowOf(m.panes), false)
  }

  // ---- What is prepared --------------------------------------------------

  // What pausing a pane's reader yields.
  datatype PaneState = PaneState(processGroup: int, startToken: string, boundary: string, snapshot: string)

  predicate Paused(s: PaneState) {
    s.processGroup > 0 && s.startToken != "" && s.boundary == "grounded" && s.snapshot != ""
  }

  function EntryOf(p: Pane, index: nat, s: PaneState): PaneEntry {
    PaneEntry(p.id, p.paneID, p.project, p.logical, p.window, index, s.processGroup, s.startToken, s.boundary, s.snapshot)
  }

  function PanesOf(sessions: Sessions, ids: seq<string>, states: map<string, PaneState>): (r: seq<PaneEntry>)
    requires forall i | 0 <= i < |ids| :: ids[i] in sessions && ids[i] in states
    ensures |r| == |ids|
  {
    seq(|ids|, i requires 0 <= i < |ids| => EntryOf(sessions[ids[i]], i, states[ids[i]]))
  }

  // handoffTopologyLocked for one session, in the order of its windows.
  function SessionFor(logical: string, t: State, order: seq<string>): SessionEntry {
    SessionEntry(logical, order, t.activeWindow,
      seq(|order|, i requires 0 <= i < |order| =>
        WindowEntry(order[i], At(t.activePane, order[i], ""), At(t.zoomed, order[i], ""), At(t.layouts, order[i], Nil))))
  }

  function RawWindows(sessions: Sessions, logical: string): set<string> {
    set id | id in sessions && LogicalID(sessions[id]) == logical :: sessions[id].window
  }

  ghost function TopologyEntries(d: Daemon, logicals: seq<string>): (r: seq<SessionEntry>)
    ensures |r| == |logicals|
  {
    seq(|logicals|, i requires 0 <= i < |logicals| =>
      var t := TopologyOf(d, logicals[i]);
      SessionFor(logicals[i], t, NormalizeOrder(t.order, RawWindows(d.sessions, logicals[i]))))
  }

  // PrepareHandoff: panes by session ID, sessions by logical ID.
  ghost function Prepared(d: Daemon, engine: string, states: map<string, PaneState>): Manifest
    requires states.Keys == d.sessions.Keys
  {
    KeysAreMembers(d.sessions.Keys);
    Manifest(MANIFEST_VERSION, engine, -1, PanesOf(d.sessions, SortedKeys(d.sessions.Keys), states),
             TopologyEntries(d, SortedKeys(Logicals(d.sessions))), d.active)
  }

  lemma KeysAreMembers(s: set<string>)
    ensures forall i | 0 <= i < |SortedKeys(s)| :: SortedKeys(s)[i] in s
  {
    assert Elements(SortedKeys(s)) == s;
  }

  function MovedUp(panes: seq<PaneEntry>): (r: seq<PaneEntry>)
    ensures |r| == |panes|
  {
    seq(|panes|, i requires 0 <= i < |panes| => panes[i].(master := panes[i].master + 1))
  }

  // upgradeMux sends its listener first and moves every pane's index up by one.
  function Shifted(m: Manifest): Manifest {
    m.(listener := 0, panes := MovedUp(m.panes))
  }

  // ---- The groups are the live windows -----------------------------------

  lemma {:induction false} SessionKeys(panes: seq<PaneEntry>)
    ensures forall id :: id in SessionsOf(panes) <==> exists i | 0 <= i < |panes| :: panes[i].sessionID == id
  {
    if panes != [] {
      var n := |panes| - 1;
      SessionKeys(panes[..n]);
      forall id | exists i | 0 <= i < |panes| :: panes[i].sessionID == id ensures id in SessionsOf(panes) {
        var i :| 0 <= i < |panes| && panes[i].sessionID == id;
        if i < n { assert panes[..n][i].sessionID == id; }
      }
      forall id | id in SessionsOf(panes) ensures exists i | 0 <= i < |panes| :: panes[i].sessionID == id {
        if id in SessionsOf(panes[..n]) {
          var i :| 0 <= i < n && panes[..n][i].sessionID == id;
          assert panes[i].sessionID == id;
        } else {
          assert panes[n].sessionID == id;
        }
      }
    }
  }

  lemma NewKey(panes: seq<PaneEntry>, listener: int)
    requires panes != [] && PanesValid(panes, listener)
    ensures var n := |panes| - 1;
            && PanesValid(panes[..n], listener) && panes[n].sessionID !in SessionsOf(panes[..n])
            && LogicalID(PaneOf(panes[n])) == panes[n].logical && WindowID(PaneOf(panes[n])) == panes[n].window
  {
    SessionKeys(panes[..|panes| - 1]);
    assert Complete(panes[|panes| - 1], listener);
    hide Complete;
  }

  // The windows the validator expects are those the adopted sessions have.
  lemma {:induction false} GroupsAreLive(panes: seq<PaneEntry>, listener: int, logical: string)
    requires PanesValid(panes, listener)
    ensures At(Grouped(panes), logical, map[]) == LiveWindows(SessionsOf(panes), logical)
    ensures logical in Grouped(panes) <==> logical in Logicals(SessionsOf(panes))
  {
    hide LiveWindows, Logicals, PanesValid;
    if panes == [] {
      NothingLive(logical);
    } else {
      var n := |panes| - 1;
      NewKey(panes, listener);
      hide LogicalID, WindowID;
      GroupsAreLive(panes[..n], listener, logical);
      GroupsAreLive(panes[..n], listener, panes[n].logical);
      AddedWindows(SessionsOf(panes[..n]), panes[n].sessionID, PaneOf(panes[n]), logical);
      AddedNames(SessionsOf(panes[..n]), panes[n].sessionID, PaneOf(panes[n]));
    }
  }

  lemma NothingLive(logical: string)
    ensures LiveWindows(map[], logical) == map[] && logical !in Logicals(map[])
  {
  }

  lemma GroupKeys(panes: seq<PaneEntry>, listener: int)
    requires PanesValid(panes, listener)
    ensures Grouped(panes).Keys == Logicals(SessionsOf(panes))
  {
    hide Logicals, LiveWindows, PanesValid;
    forall l ensures l in Grouped(panes) <==> l in Logicals(SessionsOf(panes)) { GroupsAreLive(panes, listener, l); }
  }

  // ---- One session -------------------------------------------------------

  lemma {:induction false} LastForIs(windows: seq<WindowEntry>, i: nat)
    requires i < |windows| && forall j, k | 0 <= j < k < |windows| :: windows[j].windowID != windows[k].windowID
    ensures (exists k | 0 <= k < |windows| :: windows[k].windowID == windows[i].windowID) && LastFor(windows, windows[i].windowID) == windows[i]
  {
    var n := |windows| - 1;
    assert windows[i].windowID == windows[i].windowID;
    if i < n {
      LastForIs(windows[..n], i);
      assert windows[..n][i] == windows[i];
    }
  }

  // An accepted session names every live window, and adopting it takes each entry over.
  lemma AcceptedEntries(s: SessionEntry, windows: Windows)
    requires SessionValid(s, windows)
    ensures WindowIDs(s) == windows.Keys && Elements(s.order) == windows.Keys
    ensures forall i | 0 <= i < |s.windows| :: s.windows[i].windowID in WindowIDs(s) && EntryFor(s, s.windows[i].windowID) == s.windows[i]
  {
    hide WindowValid;
    var names := seq(|s.windows|, i requires 0 <= i < |s.windows| => s.windows[i].windowID);
    assert forall i | 0 <= i < |s.windows| :: WindowValid(s.windows[i], windows) && names[i] == s.windows[i].windowID;
    NamedByEntries(s, windows);
    assert |windows.Keys| == |windows|;
    assert forall x | x in names :: x in windows;
    assert Elements(names) <= windows.Keys;
    Pigeonhole(names, windows.Keys);
    Pigeonhole(s.order, windows.Keys);
    assert WindowIDs(s) == Elements(names);
    forall i | 0 <= i < |s.windows| ensures s.windows[i].windowID in WindowIDs(s) && EntryFor(s, s.windows[i].windowID) == s.windows[i] {
      LastForIs(s.windows, i);
    }
  }

  lemma NamedByEntries(s: SessionEntry, windows: Windows)
    requires forall i | 0 <= i < |s.windows| :: WindowValid(s.windows[i], windows)
    ensures forall i | 0 <= i < |s.windows| :: s.windows[i].windowID in windows
  {
    hide Covers;
  }

  // The entry of a settled session's window.
  lemma EntryIsValid(t: State, windows: Windows, w: string)
    requires Settled(t, windows) && w in windows
    ensures w in t.activePane && w in t.layouts
    ensures WindowValid(WindowEntry(w, At(t.activePane, w, ""), At(t.zoomed, w, ""), At(t.layouts, w, Nil)), windows)
  {
    hide Covers, Holds;
    SettledLayout(t, windows, w);
    HeldIsCovered(t.layouts[w], windows[w]);
  }

  // A settled session is accepted as it is.
  lemma SettledIsAccepted(logical: string, t: State, windows: Windows)
    requires Settled(t, windows)
    ensures SessionValid(SessionFor(logical, t, t.order), windows)
  {
    var s := SessionFor(logical, t, t.order);
    SettledKeys(t, windows);
    DistinctSize(t.order);
    assert |windows.Keys| == |windows|;
    ActiveIsPlaced(t, windows);
    assert forall i | 0 <= i < |t.order| :: t.order[i] in Elements(t.order);
    hide Elements, Settled, WindowValid;
    forall i | 0 <= i < |s.windows| ensures WindowValid(s.windows[i], windows) { EntryIsValid(t, windows, t.order[i]); }
    EntriesAreOrdered(logical, t);
  }

  lemma EntriesAreOrdered(logical: string, t: State)
    requires Distinct(t.order)
    ensures var s := SessionFor(logical, t, t.order);
            && (forall i, j | 0 <= i < j < |s.windows| :: s.windows[i].windowID != s.windows[j].windowID)
            && ((exists i | 0 <= i < |t.order| :: t.order[i] == t.activeWindow)
                ==> exists i | 0 <= i < |s.windows| :: s.windows[i].windowID == t.activeWindow)
  {
    var s := SessionFor(logical, t, t.order);
    assert forall i | 0 <= i < |t.order| :: s.windows[i].windowID == t.order[i];
  }

  lemma HeldIsCovered(layout: Layout, panes: set<string>)
    requires Holds(layout, panes)
    ensures Covers(layout, panes)
  {
    ProperIsFormed(layout);
  }

  lemma ActiveIsPlaced(t: State, windows: Windows)
    requires Settled(t, windows)
    ensures t.activeWindow == "" || exists i | 0 <= i < |t.order| :: t.order[i] == t.activeWindow
  {
    if t.activeWindow != "" { assert t.activeWindow in Elements(t.order); }
  }

  // A session without a zoom entry and one with an empty one read the same.
  function ZoomsSpelledOut(t: State, windows: Windows): State {
    t.(zoomed := map w | w in windows :: At(t.zoomed, w, ""))
  }

  lemma EntryComesBack(logical: string, t: State, windows: Windows, w: string)
    requires Settled(t, windows) && w in windows
    ensures var s := SessionFor(logical, t, t.order);
            w in WindowIDs(s) && EntryFor(s, w) == WindowEntry(w, At(t.activePane, w, ""), At(t.zoomed, w, ""), At(t.layouts, w, Nil))
  {
    var s := SessionFor(logical, t, t.order);
    SettledIsAccepted(logical, t, windows);
    AcceptedEntries(s, windows);
    SettledKeys(t, windows);
    assert w in Elements(t.order);
    hide SessionValid, Settled, EntryFor, WindowIDs;
    var i :| 0 <= i < |t.order| && t.order[i] == w;
    assert s.windows[i].windowID == w;
  }

  lemma ZoomsAreGood(t: State, windows: Windows)
    requires Settled(t, windows)
    ensures Settled(ZoomsSpelledOut(t, windows), windows)
  {
    hide GoodPlaces, GoodPanes, GoodLayouts;
  }

  // Adopting what was prepared gives the session back: order, focus, zoom, and every tree
  // with its ratios.
  lemma SessionComesBack(logical: string, t: State, windows: Windows)
    requires Settled(t, windows)
    ensures Adopted(SessionFor(logical, t, t.order)) == ZoomsSpelledOut(t, windows)
    ensures Settled(ZoomsSpelledOut(t, windows), windows)
  {
    var s := SessionFor(logical, t, t.order);
    SettledIsAccepted(logical, t, windows);
    AcceptedEntries(s, windows);
    SettledKeys(t, windows);
    ZoomsAreGood(t, windows);
    hide SessionValid, Settled, EntryFor, WindowIDs;
    forall w | w in windows ensures EntryFor(s, w) == WindowEntry(w, At(t.activePane, w, ""), At(t.zoomed, w, ""), At(t.layouts, w, Nil)) {
      EntryComesBack(logical, t, windows, w);
    }
    hide *;
    AdoptedAre(s, t, windows.Keys);
    AdoptedIs(s);
    ZoomsAre(t, windows);
  }

  lemma AdoptedIs(s: SessionEntry)
    ensures Adopted(s) == State(s.activeWindow, s.order, AdoptedPanes(s), AdoptedZooms(s), AdoptedLayouts(s))
  {
  }

  lemma ZoomsAre(t: State, windows: Windows)
    ensures ZoomsSpelledOut(t, windows) == t.(zoomed := map w | w in windows.Keys :: At(t.zoomed, w, ""))
  {
  }

  lemma AdoptedAre(s: SessionEntry, t: State, windows: set<string>)
    requires WindowIDs(s) == windows && t.activePane.Keys == windows && t.layouts.Keys == windows
    requires forall w | w in windows :: EntryFor(s, w) == WindowEntry(w, At(t.activePane, w, ""), At(t.zoomed, w, ""), At(t.layouts, w, Nil))
    ensures AdoptedPanes(s) == t.activePane && AdoptedLayouts(s) == t.layouts
    ensures AdoptedZooms(s) == map w | w in windows :: At(t.zoomed, w, "")
  {
    hide EntryFor, WindowIDs;
  }

  predicate Focused(s: SessionEntry) {
    s.activeWindow != "" && forall i | 0 <= i < |s.windows| :: s.windows[i].activePane != ""
  }

  predicate AllProper(s: SessionEntry) {
    forall i | 0 <= i < |s.windows| :: Proper(s.windows[i].layout)
  }

  // Not every accepted session is settled: it is left as it is exactly when it names its
  // focus everywhere and its trees are proper. A handoff may carry a ratio below a tenth,
  // and loses it when the child first looks at the session.
  lemma AcceptedIsFixedExactly(s: SessionEntry, windows: Windows)
    requires SessionValid(s, windows) && Sane(windows) && windows != map[]
    ensures Normalized(Adopted(s), windows) == Adopted(s) <==> Focused(s) && AllProper(s)
  {
    hide *;
    if Focused(s) && AllProper(s) { FocusedIsFixed(s, windows); }
    if Normalized(Adopted(s), windows) == Adopted(s) { FixedIsFocused(s, windows); }
  }

  lemma FocusedIsFixed(s: SessionEntry, windows: Windows)
    requires SessionValid(s, windows) && Sane(windows) && windows != map[] && Focused(s) && AllProper(s)
    ensures Normalized(Adopted(s), windows) == Adopted(s)
  {
    hide *;
    AcceptedIsSettled(s, windows);
    SettledIsFixed(Adopted(s), windows);
  }

  lemma FixedIsFocused(s: SessionEntry, windows: Windows)
    requires SessionValid(s, windows) && Sane(windows) && windows != map[]
    requires Normalized(Adopted(s), windows) == Adopted(s)
    ensures Focused(s) && AllProper(s)
  {
    hide *;
    AcceptedIsManageable(s, windows);
    NormalizedIsSettled(Adopted(s), windows);
    AcceptedEntries(s, windows);
    SettledIsFocused(s, windows);
  }

  // Two panes side by side, divided in a given ratio.
  function Divided(ratio: real): SessionEntry {
    SessionEntry("session-1", ["window-1"], "window-1",
      [WindowEntry("window-1", "pane-1", "", Node("", "vertical", ratio, Leaf("pane-1"), Leaf("pane-2")))])
  }

  const TWO_PANES: Windows := map["window-1" := {"pane-1", "pane-2"}]

  // Every ratio a manifest may carry is accepted, and one that leaves a side less than a
  // tenth is lost. The daemon itself sends none of those (PreparedIsValid, SessionComesBack):
  // only a manifest of another make can.
  lemma RatioSurvivesExactly(ratio: real)
    requires 0.0 < ratio < 1.0
    ensures SessionValid(Divided(ratio), TWO_PANES)
    ensures Normalized(Adopted(Divided(ratio)), TWO_PANES) == Adopted(Divided(ratio)) <==> 0.1 <= ratio <= 0.9
  {
    DividedIsAccepted(ratio);
    DividedIsProper(ratio);
    hide *;
    AcceptedIsFixedExactly(Divided(ratio), TWO_PANES);
  }

  lemma DividedIsProper(ratio: real)
    ensures Focused(Divided(ratio)) && (AllProper(Divided(ratio)) <==> 0.1 <= ratio <= 0.9)
    ensures Sane(TWO_PANES) && TWO_PANES != map[]
  {
    assert "window-1" in TWO_PANES;
    assert "pane-1" in TWO_PANES["window-1"];
    assert Proper(Leaf("pane-1")) && Proper(Leaf("pane-2"));
    var tree := Divided(ratio).windows[0].layout;
    assert tree.first == Leaf("pane-1") && tree.second == Leaf("pane-2");
    assert Proper(tree) <==> 0.1 <= ratio <= 0.9;
  }

  lemma DividedIsAccepted(ratio: real)
    requires 0.0 < ratio < 1.0
    ensures SessionValid(Divided(ratio), TWO_PANES)
  {
    var s := Divided(ratio);
    var tree := s.windows[0].layout;
    assert Leaves(tree) == ["pane-1", "pane-2"];
    assert Elements(Leaves(tree)) == {"pane-1", "pane-2"};
    assert WindowValid(s.windows[0], TWO_PANES);
  }

  lemma AcceptedIsManageable(s: SessionEntry, windows: Windows)
    requires SessionValid(s, windows)
    ensures Manageable(Adopted(s).layouts)
  {
    AcceptedEntries(s, windows);
    hide EntryFor, Formed;
    forall w | w in Adopted(s).layouts ensures Formed(Adopted(s).layouts[w]) && Distinct(Leaves(Adopted(s).layouts[w])) {
      var i :| 0 <= i < |s.windows| && s.windows[i].windowID == w;
      assert WindowValid(s.windows[i], windows);
    }
  }

  lemma AcceptedEntry(s: SessionEntry, windows: Windows, w: string)
    requires SessionValid(s, windows) && Focused(s) && AllProper(s) && w in windows
    ensures w in WindowIDs(s) && EntryFor(s, w).activePane in windows[w] && Holds(EntryFor(s, w).layout, windows[w])
    ensures EntryFor(s, w).zoomed == "" || EntryFor(s, w).zoomed in windows[w]
  {
    AcceptedEntries(s, windows);
    hide EntryFor, Proper, Formed;
    var i :| 0 <= i < |s.windows| && s.windows[i].windowID == w;
    assert WindowValid(s.windows[i], windows);
  }

  lemma AcceptedPlaces(s: SessionEntry, windows: Windows)
    requires SessionValid(s, windows) && s.activeWindow != ""
    ensures GoodPlaces(s.order, s.activeWindow, windows.Keys)
  {
    AcceptedEntries(s, windows);
    assert s.activeWindow in WindowIDs(s);
    hide WindowIDs, EntryFor, WindowValid, Elements;
  }

  // One window of an accepted session that names its focus.
  predicate GoodEntry(e: WindowEntry, panes: set<string>) {
    e.activePane in panes && (e.zoomed == "" || e.zoomed in panes) && Holds(e.layout, panes)
  }

  lemma GoodEntriesSettle(s: SessionEntry, windows: Windows)
    requires WindowIDs(s) == windows.Keys && forall w | w in windows :: GoodEntry(EntryFor(s, w), windows[w])
    ensures GoodPanes(AdoptedPanes(s), windows) && GoodZooms(AdoptedZooms(s), windows) && GoodLayouts(AdoptedLayouts(s), windows)
  {
    hide EntryFor, WindowIDs, Holds;
  }

  lemma AcceptedIsSettled(s: SessionEntry, windows: Windows)
    requires SessionValid(s, windows) && Focused(s) && AllProper(s) && windows != map[]
    ensures Settled(Adopted(s), windows)
  {
    AcceptedEntries(s, windows);
    AcceptedPlaces(s, windows);
    forall w | w in windows ensures GoodEntry(EntryFor(s, w), windows[w]) {
      hide WindowIDs, EntryFor, SessionValid, Focused, AllProper, Holds;
      AcceptedEntry(s, windows, w);
    }
    hide EntryFor, Holds, SessionValid, AllProper, WindowIDs, GoodPlaces, GoodPanes, GoodZooms, GoodLayouts, GoodEntry, AdoptedPanes, AdoptedZooms, AdoptedLayouts;
    GoodEntriesSettle(s, windows);
  }

  lemma SettledIsFocused(s: SessionEntry, windows: Windows)
    requires Settled(Adopted(s), windows) && Sane(windows) && windows != map[] && WindowIDs(s) == windows.Keys
    requires forall i | 0 <= i < |s.windows| :: s.windows[i].windowID in WindowIDs(s) && EntryFor(s, s.windows[i].windowID) == s.windows[i]
    ensures Focused(s) && AllProper(s)
  {
    hide EntryFor, Proper;
    forall i | 0 <= i < |s.windows| ensures s.windows[i].activePane != "" && Proper(s.windows[i].layout) {
      var w := s.windows[i].windowID;
      assert w in windows && Adopted(s).activePane[w] == s.windows[i].activePane && Adopted(s).layouts[w] == s.windows[i].layout;
      assert Holds(s.windows[i].layout, windows[w]);
    }
  }

  // ---- Preparing ---------------------------------------------------------

  lemma PreparedEntry(d: Daemon, id: string, index: nat, state: PaneState)
    requires GoodIds(d) && id in d.sessions && Paused(state)
    ensures var e := EntryOf(d.sessions[id], index, state);
            Complete(e, -1) && e.sessionID == id && PaneOf(e) == d.sessions[id] && d.panes[e.paneID] == id
  {
    assert GoodPane(d.sessions[id], id, d.nextSession, d.nextWindow);
    hide Used;
  }

  lemma PreparedPanes(d: Daemon, ids: seq<string>, states: map<string, PaneState>)
    requires GoodIds(d) && Distinct(ids) && forall i | 0 <= i < |ids| :: ids[i] in d.sessions && ids[i] in states
    requires forall id | id in states :: Paused(states[id])
    ensures PanesValid(PanesOf(d.sessions, ids, states), -1)
  {
    hide GoodPane, Complete, Paused;
    var panes := PanesOf(d.sessions, ids, states);
    forall i | 0 <= i < |panes|
      ensures Complete(panes[i], -1) && panes[i].sessionID == ids[i] && panes[i].master == i
      ensures panes[i].paneID == d.sessions[ids[i]].paneID && d.panes[panes[i].paneID] == ids[i]
    {
      PreparedEntry(d, ids[i], i, states[ids[i]]);
    }
    hide GoodIds, EntryOf;
  }

  // What adopting distinct panes puts in the daemon's two maps.
  lemma {:induction false} SessionsAre(panes: seq<PaneEntry>)
    requires forall i, j | 0 <= i < j < |panes| :: panes[i].sessionID != panes[j].sessionID
    ensures forall i | 0 <= i < |panes| :: panes[i].sessionID in SessionsOf(panes) && SessionsOf(panes)[panes[i].sessionID] == PaneOf(panes[i])
    ensures forall id | id in SessionsOf(panes) :: exists i | 0 <= i < |panes| :: panes[i].sessionID == id
  {
    hide PaneOf;
    if panes != [] {
      var n := |panes| - 1;
      var init := panes[..n];
      assert SessionsOf(panes) == SessionsOf(init)[panes[n].sessionID := PaneOf(panes[n])];
      hide SessionsOf;
      SessionsAre(init);
      forall i | 0 <= i < |panes|
        ensures panes[i].sessionID in SessionsOf(panes) && SessionsOf(panes)[panes[i].sessionID] == PaneOf(panes[i])
      {
        if i < n { assert init[i] == panes[i]; }
      }
      forall id | id in SessionsOf(panes) ensures exists i | 0 <= i < |panes| :: panes[i].sessionID == id {
        if id != panes[n].sessionID {
          var i :| 0 <= i < |init| && init[i].sessionID == id;
          assert panes[i].sessionID == id;
        }
      }
    }
  }

  lemma {:induction false} IndexIs(panes: seq<PaneEntry>)
    requires forall i, j | 0 <= i < j < |panes| :: panes[i].paneID != panes[j].paneID
    ensures forall i | 0 <= i < |panes| :: panes[i].paneID in PaneIndex(panes) && PaneIndex(panes)[panes[i].paneID] == panes[i].sessionID
    ensures forall q | q in PaneIndex(panes) :: exists i | 0 <= i < |panes| :: panes[i].paneID == q
  {
    if panes != [] {
      var n := |panes| - 1;
      var init := panes[..n];
      assert PaneIndex(panes) == PaneIndex(init)[panes[n].paneID := panes[n].sessionID];
      hide PaneIndex;
      IndexIs(init);
      forall i | 0 <= i < |panes|
        ensures panes[i].paneID in PaneIndex(panes) && PaneIndex(panes)[panes[i].paneID] == panes[i].sessionID
      {
        if i < n { assert init[i] == panes[i]; }
      }
      forall q | q in PaneIndex(panes) ensures exists i | 0 <= i < |panes| :: panes[i].paneID == q {
        if q != panes[n].paneID {
          var i :| 0 <= i < |init| && init[i].paneID == q;
          assert panes[i].paneID == q;
        }
      }
    }
  }

  lemma PairsAreDistinct(panes: seq<PaneEntry>, listener: int)
    requires PanesValid(panes, listener)
    ensures forall i, j | 0 <= i < j < |panes| :: panes[i].paneID != panes[j].paneID
    ensures forall i, j | 0 <= i < j < |panes| :: panes[i].sessionID != panes[j].sessionID
  {
    hide Complete;
  }

  // The adopted sessions are the prepared ones.
  lemma PreparedSessions(d: Daemon, ids: seq<string>, states: map<string, PaneState>)
    requires GoodIds(d) && Distinct(ids) && Elements(ids) == d.sessions.Keys && states.Keys == d.sessions.Keys
    requires forall i | 0 <= i < |ids| :: ids[i] in d.sessions && ids[i] in states
    requires forall id | id in states :: Paused(states[id])
    ensures SessionsOf(PanesOf(d.sessions, ids, states)) == d.sessions
    ensures PaneIndex(PanesOf(d.sessions, ids, states)) == d.panes
  {
    var panes := PanesOf(d.sessions, ids, states);
    PreparedPanes(d, ids, states);
    PairsAreDistinct(panes, -1);
    SessionsAre(panes);
    IndexIs(panes);
    forall i | 0 <= i < |panes|
      ensures panes[i].sessionID == ids[i] && PaneOf(panes[i]) == d.sessions[ids[i]]
      ensures panes[i].paneID == d.sessions[ids[i]].paneID && d.panes[panes[i].paneID] == ids[i]
    {
      PreparedEntry(d, ids[i], i, states[ids[i]]);
    }
    hide PanesValid, SessionsOf, PaneIndex, EntryOf, PaneOf, Paused, PanesOf, GoodPane;
    SameSessions(d, ids, panes);
    SameIndex(d, ids, panes);
  }

  lemma SameMap<V>(a: map<string, V>, b: map<string, V>, keys: seq<string>)
    requires forall i | 0 <= i < |keys| :: keys[i] in a && keys[i] in b && a[keys[i]] == b[keys[i]]
    requires forall k | k in a :: exists i | 0 <= i < |keys| :: keys[i] == k
    requires forall k | k in b :: exists i | 0 <= i < |keys| :: keys[i] == k
    ensures a == b
  {
    assert a.Keys == b.Keys;
  }

  lemma SameSessions(d: Daemon, ids: seq<string>, panes: seq<PaneEntry>)
    requires Elements(ids) == d.sessions.Keys && |panes| == |ids|
    requires forall i | 0 <= i < |ids| :: ids[i] in d.sessions && panes[i].sessionID == ids[i] && PaneOf(panes[i]) == d.sessions[ids[i]]
    requires forall i | 0 <= i < |panes| :: panes[i].sessionID in SessionsOf(panes) && SessionsOf(panes)[panes[i].sessionID] == PaneOf(panes[i])
    requires forall id | id in SessionsOf(panes) :: exists i | 0 <= i < |panes| :: panes[i].sessionID == id
    ensures SessionsOf(panes) == d.sessions
  {
    hide SessionsOf, PaneOf;
    forall id | id in d.sessions ensures exists i | 0 <= i < |ids| :: ids[i] == id { assert id in Elements(ids); }
    forall id | id in SessionsOf(panes) ensures exists i | 0 <= i < |ids| :: ids[i] == id {
      var i :| 0 <= i < |panes| && panes[i].sessionID == id;
      assert ids[i] == id;
    }
    SameMap(SessionsOf(panes), d.sessions, ids);
  }

  lemma NamesCover(sessions: Sessions, index: map<string, string>, ids: seq<string>, names: seq<string>, q: string)
    requires Elements(ids) == sessions.Keys && |names| == |ids|
    requires q in index && index[q] in sessions && sessions[index[q]].paneID == q
    requires forall i | 0 <= i < |ids| :: ids[i] in sessions && names[i] == sessions[ids[i]].paneID
    ensures exists i | 0 <= i < |names| :: names[i] == q
  {
    assert index[q] in Elements(ids);
    var i :| 0 <= i < |ids| && ids[i] == index[q];
    assert names[i] == q;
  }

  function NamesOf(panes: seq<PaneEntry>): (r: seq<string>)
    ensures |r| == |panes|
  {
    seq(|panes|, i requires 0 <= i < |panes| => panes[i].paneID)
  }

  lemma IndexCovers(panes: seq<PaneEntry>, q: string)
    requires exists i | 0 <= i < |panes| :: panes[i].paneID == q
    ensures exists i | 0 <= i < |NamesOf(panes)| :: NamesOf(panes)[i] == q
  {
    var i :| 0 <= i < |panes| && panes[i].paneID == q;
    assert NamesOf(panes)[i] == q;
  }

  lemma SameIndex(d: Daemon, ids: seq<string>, panes: seq<PaneEntry>)
    requires Elements(ids) == d.sessions.Keys && |panes| == |ids|
    requires forall q | q in d.panes :: d.panes[q] in d.sessions && d.sessions[d.panes[q]].paneID == q
    requires forall i | 0 <= i < |ids| :: ids[i] in d.sessions && panes[i].sessionID == ids[i] && panes[i].paneID == d.sessions[ids[i]].paneID
                                          && panes[i].paneID in d.panes && d.panes[panes[i].paneID] == ids[i]
    requires forall i | 0 <= i < |panes| :: panes[i].paneID in PaneIndex(panes) && PaneIndex(panes)[panes[i].paneID] == panes[i].sessionID
    requires forall q | q in PaneIndex(panes) :: exists i | 0 <= i < |panes| :: panes[i].paneID == q
    ensures PaneIndex(panes) == d.panes
  {
    hide PaneIndex, Elements;
    var names := NamesOf(panes);
    forall q | q in d.panes ensures exists i | 0 <= i < |names| :: names[i] == q { NamesCover(d.sessions, d.panes, ids, names, q); }
    forall q | q in PaneIndex(panes) ensures exists i | 0 <= i < |names| :: names[i] == q { IndexCovers(panes, q); }
    SameMap(PaneIndex(panes), d.panes, names);
  }

  lemma RawIsLive(d: Daemon, logical: string)
    requires GoodIds(d)
    ensures RawWindows(d.sessions, logical) == LiveWindows(d.sessions, logical).Keys
  {
    forall id | id in d.sessions ensures WindowID(d.sessions[id]) == d.sessions[id].window { PaneIsNamed(d, id); }
  }

  // What a reachable daemon writes of one session.
  lemma PreparedSession(d: Daemon, logical: string)
    requires Inv(d) && logical in Logicals(d.sessions)
    ensures logical in d.topology && logical != ""
    ensures var t := TopologyOf(d, logical);
            && t == d.topology[logical] && Settled(t, LiveWindows(d.sessions, logical))
            && SessionFor(logical, t, NormalizeOrder(t.order, RawWindows(d.sessions, logical))) == SessionFor(logical, t, t.order)
  {
    InvHasIds(d);
    RawIsLive(d, logical);
    LogicalIsNotEmpty(d, logical);
    hide GoodIds, OneProject, AllFollow, GoodActive, Settled, LiveWindows, RawWindows, SessionFor, TopologyOf, Logicals;
    AtRest(d, logical);
    SettledKeys(d.topology[logical], LiveWindows(d.sessions, logical));
    NormalizeOrderIsExactly(d.topology[logical].order, LiveWindows(d.sessions, logical).Keys);
  }

  lemma LogicalIsNotEmpty(d: Daemon, logical: string)
    requires GoodIds(d) && logical in Logicals(d.sessions)
    ensures logical != ""
  {
    var id :| id in d.sessions && LogicalID(d.sessions[id]) == logical;
    assert GoodPane(d.sessions[id], id, d.nextSession, d.nextWindow);
  }

  lemma SortedIsDistinct(s: set<string>)
    ensures Distinct(SortedKeys(s)) && Elements(SortedKeys(s)) == s && |SortedKeys(s)| == |s|
  {
    DistinctSize(SortedKeys(s));
  }

  lemma EntryIs(d: Daemon, logicals: seq<string>, i: nat)
    requires Inv(d) && i < |logicals| && logicals[i] in Logicals(d.sessions)
    ensures var l := logicals[i]; var e := TopologyEntries(d, logicals)[i];
            && l in d.topology && e == SessionFor(l, d.topology[l], d.topology[l].order)
            && e.sessionID == l && l != "" && SessionValid(e, LiveWindows(d.sessions, l)) && Settled(d.topology[l], LiveWindows(d.sessions, l))
  {
    hide Inv, SessionValid, LiveWindows, Settled, TopologyOf, NormalizeOrder, RawWindows, Logicals;
    PreparedSession(d, logicals[i]);
    SettledIsAccepted(logicals[i], d.topology[logicals[i]], LiveWindows(d.sessions, logicals[i]));
  }

  lemma EntriesAreValid(entries: seq<SessionEntry>, logicals: seq<string>, groups: Groups)
    requires |entries| == |logicals| == |groups| && Distinct(logicals)
    requires forall i | 0 <= i < |logicals| ::
               entries[i].sessionID == logicals[i] && logicals[i] != "" && logicals[i] in groups && SessionValid(entries[i], groups[logicals[i]])
    ensures TopologyValid(entries, groups)
  {
    hide SessionValid;
  }

  lemma EntryIsAccepted(d: Daemon, logicals: seq<string>, groups: Groups, i: nat)
    requires Inv(d) && i < |logicals| && Elements(logicals) == groups.Keys == Logicals(d.sessions)
    requires logicals[i] in groups && groups[logicals[i]] == LiveWindows(d.sessions, logicals[i])
    ensures var e := TopologyEntries(d, logicals)[i];
            e.sessionID == logicals[i] && logicals[i] != "" && logicals[i] in groups && SessionValid(e, groups[logicals[i]])
  {
    assert logicals[i] in Elements(logicals);
    hide *;
    EntryIs(d, logicals, i);
  }

  lemma PreparedTopology(d: Daemon, logicals: seq<string>, groups: Groups)
    requires Inv(d) && Distinct(logicals) && Elements(logicals) == groups.Keys == Logicals(d.sessions)
    requires forall l | l in groups :: groups[l] == LiveWindows(d.sessions, l)
    ensures TopologyValid(TopologyEntries(d, logicals), groups)
  {
    DistinctSize(logicals);
    assert |groups| == |groups.Keys|;
    InElements(logicals);
    hide *;
    var entries := TopologyEntries(d, logicals);
    forall i | 0 <= i < |logicals|
      ensures entries[i].sessionID == logicals[i] && logicals[i] != "" && logicals[i] in groups && SessionValid(entries[i], groups[logicals[i]])
    {
      EntryIsAccepted(d, logicals, groups, i);
    }
    EntriesAreValid(entries, logicals, groups);
  }

  lemma InElements(s: seq<string>)
    ensures forall i | 0 <= i < |s| :: s[i] in Elements(s)
  {
  }

  lemma MastersAreInRange(sessions: Sessions, ids: seq<string>, states: map<string, PaneState>, m: Manifest)
    requires forall i | 0 <= i < |ids| :: ids[i] in sessions && ids[i] in states
    requires m.panes == PanesOf(sessions, ids, states) && m.listener == -1
    ensures DescriptorsValid(m, |ids|)
  {
  }

  // The panes of a reachable daemon, all readers paused.
  lemma PreparedPanesAre(d: Daemon, states: map<string, PaneState>)
    requires Inv(d) && states.Keys == d.sessions.Keys && forall id | id in states :: Paused(states[id])
    ensures var ids := SortedKeys(d.sessions.Keys);
            && |ids| == |d.sessions| && (forall i | 0 <= i < |ids| :: ids[i] in d.sessions && ids[i] in states)
            && var panes := PanesOf(d.sessions, ids, states);
               PanesValid(panes, -1) && SessionsOf(panes) == d.sessions && PaneIndex(panes) == d.panes
  {
    SortedIsDistinct(d.sessions.Keys);
    KeysAreMembers(d.sessions.Keys);
    InvHasIds(d);
    assert |d.sessions.Keys| == |d.sessions|;
    hide *;
    PreparedPanes(d, SortedKeys(d.sessions.Keys), states);
    PreparedSessions(d, SortedKeys(d.sessions.Keys), states);
  }

  lemma PreparedGroups(d: Daemon, panes: seq<PaneEntry>)
    requires PanesValid(panes, -1) && SessionsOf(panes) == d.sessions
    ensures Grouped(panes).Keys == Logicals(d.sessions) && forall l | l in Grouped(panes) :: Grouped(panes)[l] == LiveWindows(d.sessions, l)
  {
    hide PanesValid, SessionsOf, Grouped, LiveWindows, Logicals;
    GroupKeys(panes, -1);
    forall l | l in Grouped(panes) ensures Grouped(panes)[l] == LiveWindows(d.sessions, l) { GroupsAreLive(panes, -1, l); }
  }

  // A reachable daemon's manifest, once every reader is paused, is accepted.
  lemma PreparedIsValid(d: Daemon, engine: string, states: map<string, PaneState>)
    requires Inv(d) && engine != "" && states.Keys == d.sessions.Keys && forall id | id in states :: Paused(states[id])
    ensures var m := Prepared(d, engine, states);
            && Valid(m) && DescriptorsValid(m, |d.sessions|) && |m.panes| == |d.sessions|
            && SessionsOf(m.panes) == d.sessions && PaneIndex(m.panes) == d.panes
  {
    hide Inv, Paused, SortedKeys, LiveWindows, Logicals, PanesValid, SessionsOf, PaneIndex, Grouped, TopologyValid, TopologyEntries, Elements, Distinct, DescriptorsValid, PanesOf;
    PreparedPanesAre(d, states);
    var m := Prepared(d, engine, states);
    MastersAreInRange(d.sessions, SortedKeys(d.sessions.Keys), states, m);
    PreparedGroups(d, m.panes);
    SortedIsDistinct(Logicals(d.sessions));
    PreparedTopology(d, SortedKeys(Logicals(d.sessions)), Grouped(m.panes));
  }

  // ---- The listener's place ----------------------------------------------

  lemma MovedUpInit(panes: seq<PaneEntry>)
    requires panes != []
    ensures MovedUp(panes)[..|panes| - 1] == MovedUp(panes[..|panes| - 1])
    ensures var p, q := panes[|panes| - 1], MovedUp(panes)[|panes| - 1];
            && q.sessionID == p.sessionID && q.paneID == p.paneID && q.logical == p.logical && q.window == p.window && PaneOf(q) == PaneOf(p)
  {
  }

  lemma {:induction false} MovingUpMaps(panes: seq<PaneEntry>)
    ensures SessionsOf(MovedUp(panes)) == SessionsOf(panes) && PaneIndex(MovedUp(panes)) == PaneIndex(panes)
  {
    if panes != [] {
      MovingUpMaps(panes[..|panes| - 1]);
      MovedUpInit(panes);
      hide MovedUp, PaneOf;
    }
  }

  lemma {:induction false} MovingUpGroups(panes: seq<PaneEntry>)
    ensures Grouped(MovedUp(panes)) == Grouped(panes)
  {
    if panes != [] {
      MovingUpGroups(panes[..|panes| - 1]);
      MovedUpInit(panes);
      hide MovedUp, PaneOf, Add;
    }
  }

  lemma MovedUpIsValid(panes: seq<PaneEntry>)
    requires PanesValid(panes, -1)
    ensures PanesValid(MovedUp(panes), 0) && forall i | 0 <= i < |panes| :: panes[i].master >= 0
  {
    forall i | 0 <= i < |panes| ensures Complete(MovedUp(panes)[i], 0) && panes[i].master >= 0 { assert Complete(panes[i], -1); }
    hide Complete;
  }

  lemma PairsMoveUp(panes: seq<PaneEntry>, masters: seq<int>, listener: int)
    requires forall i | 0 <= i < |panes| :: 0 <= panes[i].master < |masters|
    ensures forall i | 0 <= i < |panes| :: ([listener] + masters)[MovedUp(panes)[i].master] == masters[panes[i].master]
  {
  }

  lemma ShiftedIsValid(m: Manifest)
    requires Valid(m) && m.listener == -1
    ensures Valid(Shifted(m))
  {
    MovingUpGroups(m.panes);
    MovedUpIsValid(m.panes);
    hide PanesValid, TopologyValid, Grouped, MovedUp;
  }

  // Putting the listener first keeps a prepared manifest acceptable, and every pane paired
  // with its own master.
  lemma ShiftKeepsPairing(m: Manifest, masters: seq<int>, listener: int)
    requires Valid(m) && m.listener == -1 && DescriptorsValid(m, |masters|)
    ensures var s := Shifted(m); var descriptors := [listener] + masters;
            && Valid(s) && DescriptorsValid(s, |descriptors|) && descriptors[s.listener] == listener && |s.panes| == |m.panes|
            && forall i | 0 <= i < |m.panes| ::
                 0 <= m.panes[i].master < |masters| && descriptors[s.panes[i].master] == masters[m.panes[i].master]
  {
    ShiftedIsValid(m);
    MovedUpIsValid(m.panes);
    hide Valid, PanesValid;
    PairsMoveUp(m.panes, masters, listener);
  }

  // ---- Adopting the topology ---------------------------------------------

  lemma {:induction false} TopologyForIs(topology: seq<SessionEntry>)
    requires forall i, j | 0 <= i < j < |topology| :: topology[i].sessionID != topology[j].sessionID
    ensures forall i | 0 <= i < |topology| :: topology[i].sessionID in TopologyFor(topology) && TopologyFor(topology)[topology[i].sessionID] == Adopted(topology[i])
    ensures forall l | l in TopologyFor(topology) :: exists i | 0 <= i < |topology| :: topology[i].sessionID == l
  {
    hide Adopted;
    if topology != [] {
      var n := |topology| - 1;
      var init := topology[..n];
      TopologyForIs(init);
      assert forall i | 0 <= i < n :: init[i] == topology[i];
      forall l | l in TopologyFor(topology) ensures exists i | 0 <= i < |topology| :: topology[i].sessionID == l {
        if l != topology[n].sessionID {
          assert l in TopologyFor(init);
          var i :| 0 <= i < |init| && init[i].sessionID == l;
          assert topology[i].sessionID == l;
        }
      }
    }
  }

  // The daemon's topology, with every absent zoom entry spelled out as empty.
  function SpelledOut(d: Daemon): map<string, State> {
    map l | l in d.topology :: ZoomsSpelledOut(d.topology[l], LiveWindows(d.sessions, l))
  }

  lemma EntryComesOut(d: Daemon, logicals: seq<string>, i: nat)
    requires Inv(d) && i < |logicals| && logicals[i] in Logicals(d.sessions)
    ensures var l, e := logicals[i], TopologyEntries(d, logicals)[i];
            && l in d.topology && e.sessionID == l && Adopted(e) == ZoomsSpelledOut(d.topology[l], LiveWindows(d.sessions, l))
            && Settled(Adopted(e), LiveWindows(d.sessions, l))
  {
    hide Inv, LiveWindows, Settled, ZoomsSpelledOut, Adopted, TopologyEntries, SessionFor, SessionValid, Logicals;
    EntryIs(d, logicals, i);
    SessionComesBack(logicals[i], d.topology[logicals[i]], LiveWindows(d.sessions, logicals[i]));
  }

  lemma TopologyComesBack(d: Daemon, logicals: seq<string>)
    requires Inv(d) && Distinct(logicals) && Elements(logicals) == Logicals(d.sessions) == d.topology.Keys
    ensures TopologyFor(TopologyEntries(d, logicals)) == SpelledOut(d)
    ensures GoodTopology(SpelledOut(d), d.sessions)
  {
    InElements(logicals);
    var entries := TopologyEntries(d, logicals);
    hide Inv, LiveWindows, Settled, ZoomsSpelledOut, Adopted, TopologyEntries, Logicals, TopologyFor, Elements;
    forall i | 0 <= i < |logicals|
      ensures entries[i].sessionID == logicals[i] && logicals[i] in d.topology
      ensures Adopted(entries[i]) == SpelledOut(d)[logicals[i]] && Settled(SpelledOut(d)[logicals[i]], LiveWindows(d.sessions, logicals[i]))
    {
      EntryComesOut(d, logicals, i);
    }
    TopologyForIs(entries);
    ElementsAreIndexed(logicals);
    hide SpelledOut;
    SpelledKeys(d);
    SameMap(TopologyFor(entries), SpelledOut(d), logicals);
  }

  lemma SpelledKeys(d: Daemon)
    ensures SpelledOut(d).Keys == d.topology.Keys
  {
  }

  lemma ElementsAreIndexed(s: seq<string>)
    ensures forall x | x in Elements(s) :: exists i | 0 <= i < |s| :: s[i] == x
  {
  }

  // ---- The counters ------------------------------------------------------

  // A name with a number that fits is read back.
  lemma SuffixIsRead(current: nat, prefix: string, k: nat)
    requires k <= MAX_UINT64
    ensures MaxSuffix(current, Named(prefix, k), prefix) == if k < current then current else k
  {
    var value := Named(prefix, k);
    assert prefix <= value && value[|prefix|..] == Itoa(k);
    ValueItoa(k);
  }

  lemma UsedIsRead(current: nat, prefix: string, s: string, n: nat)
    requires Used(prefix, s, n) && n <= MAX_UINT64
    ensures Used(prefix, s, MaxSuffix(current, s, prefix))
    ensures current <= n ==> MaxSuffix(current, s, prefix) <= n
  {
    var k: nat :| 1 <= k <= n && s == Named(prefix, k);
    SuffixIsRead(current, prefix, k);
    hide MaxSuffix, Named;
  }

  lemma UsedStays(prefix: string, s: string, n: nat, value: string, of: string)
    requires Used(prefix, s, n)
    ensures Used(prefix, s, MaxSuffix(n, value, of))
  {
    UsedLater(prefix, s, n, MaxSuffix(n, value, of));
  }

  ghost predicate EntryNamed(p: PaneEntry, n: nat, w: nat) {
    Used("session-", p.sessionID, n) && Used("pane-", p.paneID, n) && Used("window-", p.window, w)
  }

  lemma EntryNamedLater(p: PaneEntry, n: nat, w: nat, later: nat, laterWindow: nat)
    requires EntryNamed(p, n, w) && n <= later && w <= laterWindow
    ensures EntryNamed(p, later, laterWindow)
  {
    UsedLater("session-", p.sessionID, n, later);
    UsedLater("pane-", p.paneID, n, later);
    UsedLater("window-", p.window, w, laterWindow);
  }

  lemma CountersStep(panes: seq<PaneEntry>, n: nat, w: nat)
    requires panes != [] && EntryNamed(panes[|panes| - 1], n, w) && n <= MAX_UINT64 && w <= MAX_UINT64
    requires NextSessionOf(panes[..|panes| - 1]) <= n && NextWindowOf(panes[..|panes| - 1]) <= w
    ensures NextSessionOf(panes[..|panes| - 1]) <= NextSessionOf(panes) <= n && NextWindowOf(panes[..|panes| - 1]) <= NextWindowOf(panes) <= w
    ensures EntryNamed(panes[|panes| - 1], NextSessionOf(panes), NextWindowOf(panes))
  {
    var p, before := panes[|panes| - 1], NextSessionOf(panes[..|panes| - 1]);
    hide MaxSuffix, Used;
    UsedIsRead(before, "session-", p.sessionID, n);
    UsedIsRead(MaxSuffix(before, p.sessionID, "session-"), "pane-", p.paneID, n);
    UsedStays("session-", p.sessionID, MaxSuffix(before, p.sessionID, "session-"), p.paneID, "pane-");
    UsedIsRead(NextWindowOf(panes[..|panes| - 1]), "window-", p.window, w);
  }

  // The counters the new daemon derives cover every name it has taken over.
  lemma {:induction false} CountersCover(panes: seq<PaneEntry>, n: nat, w: nat)
    requires n <= MAX_UINT64 && w <= MAX_UINT64 && forall i | 0 <= i < |panes| :: EntryNamed(panes[i], n, w)
    ensures NextSessionOf(panes) <= n && NextWindowOf(panes) <= w
    ensures forall i | 0 <= i < |panes| :: EntryNamed(panes[i], NextSessionOf(panes), NextWindowOf(panes))
  {
    hide EntryNamed;
    if panes != [] {
      var init := panes[..|panes| - 1];
      CountersCover(init, n, w);
      CountersStep(panes, n, w);
      hide NextSessionOf, NextWindowOf;
      forall i | 0 <= i < |init| ensures EntryNamed(panes[i], NextSessionOf(panes), NextWindowOf(panes)) {
        assert init[i] == panes[i];
        EntryNamedLater(panes[i], NextSessionOf(init), NextWindowOf(init), NextSessionOf(panes), NextWindowOf(panes));
      }
    }
  }

  lemma FollowsWithin(id: string, logical: string, n: nat, fewer: nat)
    requires Follows(id, logical, n) && Used("session-", id, fewer)
    ensures Follows(id, logical, fewer) && Used("session-", logical, fewer)
  {
    var k: nat :| 1 <= k <= n && id == Named("session-", k) && Used("session-", logical, k);
    var j: nat :| 1 <= j <= fewer && id == Named("session-", j);
    assert Itoa(k) == id[|"session-"|..] == Itoa(j);
    ItoaInjective(k, j);
    UsedLater("session-", logical, k, fewer);
    hide Used;
    assert Follows(id, logical, fewer);
  }

  lemma SessionSurvives(d: Daemon, e: PaneEntry, n: nat, w: nat)
    requires GoodIds(d) && AllFollow(d.sessions, d.nextSession) && e.sessionID in d.sessions && PaneOf(e) == d.sessions[e.sessionID]
    requires EntryNamed(e, n, w)
    ensures GoodPane(d.sessions[e.sessionID], e.sessionID, n, w) && Follows(e.sessionID, d.sessions[e.sessionID].logical, n)
  {
    assert GoodPane(d.sessions[e.sessionID], e.sessionID, d.nextSession, d.nextWindow);
    FollowsWithin(e.sessionID, d.sessions[e.sessionID].logical, d.nextSession, n);
    hide Used, Follows;
  }

  lemma EntryWasNamed(d: Daemon, e: PaneEntry)
    requires GoodIds(d) && e.sessionID in d.sessions && PaneOf(e) == d.sessions[e.sessionID]
    ensures EntryNamed(e, d.nextSession, d.nextWindow)
  {
    assert GoodPane(d.sessions[e.sessionID], e.sessionID, d.nextSession, d.nextWindow);
    hide Used;
  }

  lemma AdoptedIds(d: Daemon, m: Manifest)
    requires GoodIds(d) && AllFollow(d.sessions, d.nextSession) && d.nextSession <= MAX_UINT64 && d.nextWindow <= MAX_UINT64
    requires SessionsOf(m.panes) == d.sessions && PaneIndex(m.panes) == d.panes && PanesValid(m.panes, m.listener)
    ensures GoodIds(AdoptedDaemon(m)) && AllFollow(d.sessions, NextSessionOf(m.panes))
    ensures NextSessionOf(m.panes) <= d.nextSession && NextWindowOf(m.panes) <= d.nextWindow
  {
    hide EntryNamed, GoodPane, Follows, PaneOf, PanesValid, NextSessionOf, NextWindowOf, SessionsOf, PaneIndex;
    PairsAreDistinct(m.panes, m.listener);
    SessionsAre(m.panes);
    forall i | 0 <= i < |m.panes| ensures EntryNamed(m.panes[i], d.nextSession, d.nextWindow) { EntryWasNamed(d, m.panes[i]); }
    CountersCover(m.panes, d.nextSession, d.nextWindow);
    forall id | id in d.sessions
      ensures GoodPane(d.sessions[id], id, NextSessionOf(m.panes), NextWindowOf(m.panes)) && Follows(id, d.sessions[id].logical, NextSessionOf(m.panes))
    {
      var i :| 0 <= i < |m.panes| && m.panes[i].sessionID == id;
      SessionSurvives(d, m.panes[i], NextSessionOf(m.panes), NextWindowOf(m.panes));
    }
  }

  // What upgradeMux sends of a reachable daemon.
  lemma SentManifest(d: Daemon, engine: string, states: map<string, PaneState>)
    requires Inv(d) && engine != "" && states.Keys == d.sessions.Keys && forall id | id in states :: Paused(states[id])
    ensures var m := Shifted(Prepared(d, engine, states));
            && Valid(m) && DescriptorsValid(m, |d.sessions| + 1) && PanesValid(m.panes, m.listener)
            && SessionsOf(m.panes) == d.sessions && PaneIndex(m.panes) == d.panes && m.active == d.active
            && m.topology == TopologyEntries(d, SortedKeys(Logicals(d.sessions)))
  {
    var p := Prepared(d, engine, states);
    PreparedIsValid(d, engine, states);
    ShiftKeepsPairing(p, seq(|d.sessions|, i => 0), 0);
    MovingUpMaps(p.panes);
    hide Inv, TopologyEntries, SessionsOf, PaneIndex, Grouped, PanesValid, TopologyValid, DescriptorsValid, MovedUp, SortedKeys;
  }

  // The live upgrade. A reachable daemon's manifest, with the listener put first, passes
  // both validators; the daemon adopted from it has the same panes under the same names,
  // the same focus, and every session's order, zoom and trees with their ratios; and it
  // is again one whose sessions are all settled, whatever it serves next.
  lemma HandoffIsFaithful(d: Daemon, engine: string, states: map<string, PaneState>)
    requires Inv(d) && engine != "" && states.Keys == d.sessions.Keys && forall id | id in states :: Paused(states[id])
    requires d.nextSession <= MAX_UINT64 && d.nextWindow <= MAX_UINT64
    ensures var m := Shifted(Prepared(d, engine, states)); var a := AdoptedDaemon(m);
            && Valid(m) && DescriptorsValid(m, |d.sessions| + 1)
            && a.sessions == d.sessions && a.panes == d.panes && a.active == d.active && a.topology == SpelledOut(d)
            && a.nextSession <= d.nextSession && a.nextWindow <= d.nextWindow && Inv(a)
  {
    SentManifest(d, engine, states);
    InvParts(d);
    SortedIsDistinct(Logicals(d.sessions));
    var m := Shifted(Prepared(d, engine, states));
    AdoptedFields(m);
    ActiveIsKept(d.active, d.sessions);
    hide *;
    TopologyComesBack(d, SortedKeys(Logicals(d.sessions)));
    AdoptedIds(d, m);
    InvFrom(AdoptedDaemon(m));
  }

  lemma ActiveIsKept(active: map<string, string>, sessions: Sessions)
    requires GoodActive(active, sessions)
    ensures KeptActive(active, sessions) == active
  {
    forall p | p in active ensures active[p] in Logicals(sessions) {
      assert active[p] in LogicalsOf(sessions, p);
    }
  }

  lemma AdoptedFields(m: Manifest)
    ensures var a := AdoptedDaemon(m);
            && a.sessions == SessionsOf(m.panes) && a.panes == PaneIndex(m.panes) && a.topology == TopologyFor(m.topology)
            && a.active == KeptActive(m.active, SessionsOf(m.panes)) && a.nextSession == NextSessionOf(m.panes) && a.nextWindow == NextWindowOf(m.panes)
  {
  }

  lemma InvParts(d: Daemon)
    requires Inv(d)
    ensures GoodIds(d) && AllFollow(d.sessions, d.nextSession) && OneProject(d.sessions)
    ensures GoodActive(d.active, d.sessions) && d.topology.Keys == Logicals(d.sessions)
  {
    hide GoodIds, OneProject, GoodActive;
  }

  lemma InvFrom(d: Daemon)
    requires GoodIds(d) && AllFollow(d.sessions, d.nextSession) && OneProject(d.sessions)
    requires GoodTopology(d.topology, d.sessions) && GoodActive(d.active, d.sessions)
    ensures Inv(d)
  {
  }

  // The counters the new daemon derives reach the old ones exactly when the newest names
  // are still there.
  lemma {:induction false} CountersAreNewest(panes: seq<PaneEntry>, n: nat, w: nat)
    requires n <= MAX_UINT64 && w <= MAX_UINT64 && forall i | 0 <= i < |panes| :: EntryNamed(panes[i], n, w)
    ensures NextSessionOf(panes) <= n && NextWindowOf(panes) <= w
    ensures NextSessionOf(panes) == n
            <==> n == 0 || exists i | 0 <= i < |panes| :: panes[i].sessionID == Named("session-", n) || panes[i].paneID == Named("pane-", n)
    ensures NextWindowOf(panes) == w <==> w == 0 || exists i | 0 <= i < |panes| :: panes[i].window == Named("window-", w)
  {
    hide EntryNamed, Named;
    CountersCover(panes, n, w);
    if panes != [] {
      var last := |panes| - 1;
      var init := panes[..last];
      CountersAreNewest(init, n, w);
      LastIsNewest(panes, n, w);
      assert forall i | 0 <= i < last :: init[i] == panes[i];
    }
  }

  lemma NamedNumber(prefix: string, s: string, n: nat, k: nat)
    requires s == Named(prefix, k)
    ensures s == Named(prefix, n) <==> k == n
  {
    if s == Named(prefix, n) {
      assert Itoa(k) == s[|prefix|..] == Itoa(n);
      ItoaInjective(k, n);
    }
  }

  lemma ReadsNumber(current: nat, prefix: string, s: string, n: nat)
    requires Used(prefix, s, n) && n <= MAX_UINT64 && current <= n
    ensures MaxSuffix(current, s, prefix) == n <==> current == n || s == Named(prefix, n)
  {
    var k: nat :| 1 <= k <= n && s == Named(prefix, k);
    SuffixIsRead(current, prefix, k);
    NamedNumber(prefix, s, n, k);
  }

  lemma LastIsNewest(panes: seq<PaneEntry>, n: nat, w: nat)
    requires panes != [] && EntryNamed(panes[|panes| - 1], n, w) && n <= MAX_UINT64 && w <= MAX_UINT64
    requires NextSessionOf(panes[..|panes| - 1]) <= n && NextWindowOf(panes[..|panes| - 1]) <= w
    ensures var p := panes[|panes| - 1];
            NextSessionOf(panes) == n
            <==> NextSessionOf(panes[..|panes| - 1]) == n || p.sessionID == Named("session-", n) || p.paneID == Named("pane-", n)
    ensures NextWindowOf(panes) == w
            <==> NextWindowOf(panes[..|panes| - 1]) == w || panes[|panes| - 1].window == Named("window-", w)
  {
    var p, before := panes[|panes| - 1], NextSessionOf(panes[..|panes| - 1]);
    ReadsNumber(before, "session-", p.sessionID, n);
    UsedIsRead(before, "session-", p.sessionID, n);
    ReadsNumber(MaxSuffix(before, p.sessionID, "session-"), "pane-", p.paneID, n);
    ReadsNumber(NextWindowOf(panes[..|panes| - 1]), "window-", p.window, w);
    hide MaxSuffix, Named, Used;
  }

  // The newest names a daemon has given out are still there.
  predicate KeepsNewestSession(d: Daemon) {
    d.nextSession == 0 || Named("session-", d.nextSession) in d.sessions || Named("pane-", d.nextSession) in d.panes
  }

  predicate KeepsNewestWindow(d: Daemon) {
    d.nextWindow == 0 || exists id | id in d.sessions :: d.sessions[id].window == Named("window-", d.nextWindow)
  }

  // The numbers of panes and windows that are gone are not handed over: the new daemon
  // goes on counting where the old one stood exactly when the newest one is still there,
  // and otherwise the next name it gives out is one that was given out before.
  lemma CounterSurvivesExactly(d: Daemon, m: Manifest, project: string, logical: string)
    requires Inv(d) && d.nextSession <= MAX_UINT64 && d.nextWindow <= MAX_UINT64
    requires SessionsOf(m.panes) == d.sessions && PaneIndex(m.panes) == d.panes && PanesValid(m.panes, m.listener)
    ensures AdoptedDaemon(m).nextSession == d.nextSession <==> KeepsNewestSession(d)
    ensures AdoptedDaemon(m).nextWindow == d.nextWindow <==> KeepsNewestWindow(d)
    ensures Used("session-", NewPane(AdoptedDaemon(m), project, logical, "").id, d.nextSession) <==> !KeepsNewestSession(d)
    ensures Used("window-", NewPane(AdoptedDaemon(m), project, logical, "").window, d.nextWindow) <==> !KeepsNewestWindow(d)
  {
    InvParts(d);
    NewestAreThere(d, m);
    AdoptedFields(m);
    hide Inv, PanesValid, SessionsOf, PaneIndex, KeepsNewestSession, KeepsNewestWindow, AdoptedDaemon, Named, Used;
    var a := AdoptedDaemon(m);
    NewNames(a, project, logical);
    GivenOutAgain("session-", a.nextSession + 1, d.nextSession);
    GivenOutAgain("window-", a.nextWindow + 1, d.nextWindow);
  }

  lemma NewNames(d: Daemon, project: string, logical: string)
    ensures var p := NewPane(d, project, logical, "");
            p.id == Named("session-", d.nextSession + 1) && p.window == Named("window-", d.nextWindow + 1)
  {
  }

  lemma GivenOutAgain(prefix: string, k: nat, n: nat)
    requires 1 <= k
    ensures Used(prefix, Named(prefix, k), n) <==> k <= n
  {
    if Used(prefix, Named(prefix, k), n) {
      var j: nat :| 1 <= j <= n && Named(prefix, k) == Named(prefix, j);
      NamedNumber(prefix, Named(prefix, k), j, k);
    }
  }

  lemma NewestAreThere(d: Daemon, m: Manifest)
    requires GoodIds(d) && d.nextSession <= MAX_UINT64 && d.nextWindow <= MAX_UINT64
    requires SessionsOf(m.panes) == d.sessions && PaneIndex(m.panes) == d.panes && PanesValid(m.panes, m.listener)
    ensures NextSessionOf(m.panes) <= d.nextSession && NextWindowOf(m.panes) <= d.nextWindow
    ensures NextSessionOf(m.panes) == d.nextSession <==> KeepsNewestSession(d)
    ensures NextWindowOf(m.panes) == d.nextWindow <==> KeepsNewestWindow(d)
  {
    hide EntryNamed, GoodPane, PanesValid, NextSessionOf, NextWindowOf, SessionsOf, PaneIndex, Named;
    AllWereNamed(d, m);
    CountersAreNewest(m.panes, d.nextSession, d.nextWindow);
    SessionNameIsThere(d, m, Named("session-", d.nextSession), Named("pane-", d.nextSession));
    WindowIsThere(d, m, Named("window-", d.nextWindow));
  }

  lemma AllWereNamed(d: Daemon, m: Manifest)
    requires GoodIds(d) && SessionsOf(m.panes) == d.sessions && PanesValid(m.panes, m.listener)
    ensures forall i | 0 <= i < |m.panes| :: EntryNamed(m.panes[i], d.nextSession, d.nextWindow)
  {
    hide EntryNamed, GoodPane, PanesValid, SessionsOf, PaneOf;
    PairsAreDistinct(m.panes, m.listener);
    SessionsAre(m.panes);
    forall i | 0 <= i < |m.panes| ensures EntryNamed(m.panes[i], d.nextSession, d.nextWindow) { EntryWasNamed(d, m.panes[i]); }
  }

  lemma SessionNameIsThere(d: Daemon, m: Manifest, id: string, paneID: string)
    requires SessionsOf(m.panes) == d.sessions && PaneIndex(m.panes) == d.panes && PanesValid(m.panes, m.listener)
    ensures (exists i | 0 <= i < |m.panes| :: m.panes[i].sessionID == id || m.panes[i].paneID == paneID)
            <==> id in d.sessions || paneID in d.panes
  {
    hide PanesValid, SessionsOf, PaneIndex;
    PairsAreDistinct(m.panes, m.listener);
    SessionsAre(m.panes);
    IndexIs(m.panes);
  }

  lemma WindowIsThere(d: Daemon, m: Manifest, w: string)
    requires SessionsOf(m.panes) == d.sessions && PanesValid(m.panes, m.listener)
    ensures (exists i | 0 <= i < |m.panes| :: m.panes[i].window == w) <==> (exists id | id in d.sessions :: d.sessions[id].window == w)
  {
    hide PanesValid, SessionsOf;
    PairsAreDistinct(m.panes, m.listener);
    SessionsAre(m.panes);
  }
}
