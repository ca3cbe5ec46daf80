// What every run of the topology operations keeps: identities are unique and never used
// again, a logical session has one project and a settled topology, and every project with
// a session is in one of its own.
module TopologyClosure {
  import opened Text
  import opened Layout
  import opened Topology
  import opened Operations
  import Places = LayoutPlaces

  ghost predicate Used(prefix: string, s: string, n: nat) {
    exists k: nat | 1 <= k <= n :: s == Named(prefix, k)
  }

  // A logical session is named after its first pane, so no pane of it has an older number.
  ghost predicate Follows(id: string, logical: string, n: nat) {
    exists k: nat | 1 <= k <= n :: id == Named("session-", k) && Used("session-", logical, k)
  }

  ghost predicate GoodPane(p: Pane, id: string, nextSession: nat, nextWindow: nat) {
    && p.id == id && Used("session-", id, nextSession) && Used("pane-", p.paneID, nextSession)
    && Used("session-", p.logical, nextSession) && Used("window-", p.window, nextWindow)
    && p.id != "" && p.paneID != "" && p.logical != "" && p.window != "" && p.project != ""
  }

  ghost predicate GoodIds(d: Daemon) {
    && (forall id {:trigger GoodPane(d.sessions[id], id, d.nextSession, d.nextWindow)} | id in d.sessions ::
          GoodPane(d.sessions[id], id, d.nextSession, d.nextWindow))
    && (forall id | id in d.sessions :: d.sessions[id].paneID in d.panes && d.panes[d.sessions[id].paneID] == id)
    && (forall q | q in d.panes :: d.panes[q] in d.sessions && d.sessions[d.panes[q]].paneID == q)
  }

  predicate OneProject(sessions: Sessions) {
    forall i, j | i in sessions && j in sessions :: LogicalID(sessions[i]) == LogicalID(sessions[j]) ==> sessions[i].project == sessions[j].project
  }

  predicate GoodTopology(topology: map<string, State>, sessions: Sessions) {
    topology.Keys == Logicals(sessions) && forall l | l in topology :: Settled(topology[l], LiveWindows(sessions, l))
  }

  predicate GoodActive(active: map<string, string>, sessions: Sessions) {
    active.Keys == Projects(sessions) && forall p | p in active :: active[p] in LogicalsOf(sessions, p)
  }

  ghost predicate AllFollow(sessions: Sessions, nextSession: nat) {
    forall id {:trigger Follows(id, sessions[id].logical, nextSession)} | id in sessions :: Follows(id, sessions[id].logical, nextSession)
  }

  ghost predicate Inv(d: Daemon) {
    GoodIds(d) && AllFollow(d.sessions, d.nextSession) && OneProject(d.sessions) && GoodTopology(d.topology, d.sessions) && GoodActive(d.active, d.sessions)
  }

  // ---- Identities --------------------------------------------------------

  lemma NewNameIsFresh(prefix: string, n: nat, s: string)
    requires prefix != ""
    ensures Used(prefix, s, n) ==> s != Named(prefix, n + 1) && s != "" && Used(prefix, s, n + 1)
    ensures Used(prefix, Named(prefix, n + 1), n + 1) && Named(prefix, n + 1) != ""
  {
    if Used(prefix, s, n) {
      var k: nat :| 1 <= k <= n && s == Named(prefix, k);
      if s == Named(prefix, n + 1) {
        assert Itoa(k) == s[|prefix|..] == Itoa(n + 1);
        ItoaInjective(k, n + 1);
      }
      assert s[..|prefix|] == prefix;
    }
    assert Named(prefix, n + 1)[..|prefix|] == prefix;
  }

  lemma LiveIsSane(d: Daemon, logical: string)
    requires GoodIds(d)
    ensures Sane(LiveWindows(d.sessions, logical))
  {
    var windows := LiveWindows(d.sessions, logical);
    forall id | id in d.sessions ensures d.sessions[id].paneID != "" && d.sessions[id].window != "" {
      assert GoodPane(d.sessions[id], id, d.nextSession, d.nextWindow);
    }
    forall w | w in windows ensures windows[w] != {} && "" !in windows[w] && w != "" {
      var id :| id in d.sessions && LogicalID(d.sessions[id]) == logical && WindowID(d.sessions[id]) == w;
      assert d.sessions[id].paneID in windows[w];
    }
  }

  // ---- One session more --------------------------------------------------

  lemma AddedPanes(sessions: Sessions, id: string, p: Pane, logical: string, w: string)
    requires id !in sessions
    ensures PanesIn(sessions[id := p], logical, w)
            == PanesIn(sessions, logical, w) + if LogicalID(p) == logical && WindowID(p) == w then {p.paneID} else {}
  {
    var more := sessions[id := p];
    forall q | q in PanesIn(sessions, logical, w) ensures q in PanesIn(more, logical, w) {
      var i :| i in sessions && LogicalID(sessions[i]) == logical && WindowID(sessions[i]) == w && sessions[i].paneID == q;
      assert more[i] == sessions[i];
    }
    if LogicalID(p) == logical && WindowID(p) == w { assert more[id] == p; }
  }

  lemma AddedWindowNames(sessions: Sessions, id: string, p: Pane, logical: string)
    requires id !in sessions
    ensures WindowsIn(sessions[id := p], logical)
            == WindowsIn(sessions, logical) + if LogicalID(p) == logical then {WindowID(p)} else {}
  {
    var more := sessions[id := p];
    forall w | w in WindowsIn(sessions, logical) ensures w in WindowsIn(more, logical) {
      var i :| i in sessions && LogicalID(sessions[i]) == logical && WindowID(sessions[i]) == w;
      assert more[i] == sessions[i];
    }
    if LogicalID(p) == logical { assert more[id] == p; }
  }

  lemma PanesAt(sessions: Sessions, logical: string, w: string)
    ensures w in WindowsIn(sessions, logical) <==> PanesIn(sessions, logical, w) != {}
    ensures At(LiveWindows(sessions, logical), w, {}) == PanesIn(sessions, logical, w)
  {
    if w in WindowsIn(sessions, logical) {
      var i :| i in sessions && LogicalID(sessions[i]) == logical && WindowID(sessions[i]) == w;
      assert sessions[i].paneID in PanesIn(sessions, logical, w);
    }
  }

  lemma AddedWindows(sessions: Sessions, id: string, p: Pane, logical: string)
    requires id !in sessions
    ensures LiveWindows(sessions[id := p], logical)
            == if LogicalID(p) == logical then Add(LiveWindows(sessions, logical), WindowID(p), p.paneID)
               else LiveWindows(sessions, logical)
  {
    hide PanesIn, WindowsIn;
    AddedWindowNames(sessions, id, p, logical);
    PanesAt(sessions, logical, WindowID(p));
    var before, after := LiveWindows(sessions, logical), LiveWindows(sessions[id := p], logical);
    var want := if LogicalID(p) == logical then Add(before, WindowID(p), p.paneID) else before;
    assert after.Keys == want.Keys;
    forall w | w in after ensures after[w] == want[w] { AddedPanes(sessions, id, p, logical, w); }
  }

  lemma AddedNames(sessions: Sessions, id: string, p: Pane)
    requires id !in sessions
    ensures var more := sessions[id := p];
            && Logicals(more) == Logicals(sessions) + {LogicalID(p)} && Projects(more) == Projects(sessions) + {p.project}
            && forall project :: LogicalsOf(more, project) == LogicalsOf(sessions, project) + if project == p.project then {LogicalID(p)} else {}
  {
    var more := sessions[id := p];
    assert more[id] == p;
    forall i | i in sessions ensures more[i] == sessions[i] { }
    forall l | l in Logicals(sessions) ensures l in Logicals(more) {
      var i :| i in sessions && LogicalID(sessions[i]) == l;
      assert more[i] == sessions[i];
    }
    forall q | q in Projects(sessions) ensures q in Projects(more) {
      var i :| i in sessions && sessions[i].project == q;
      assert more[i] == sessions[i];
    }
    forall project ensures LogicalsOf(more, project) == LogicalsOf(sessions, project) + if project == p.project then {LogicalID(p)} else {} {
      forall l | l in LogicalsOf(sessions, project) ensures l in LogicalsOf(more, project) {
        var i :| i in sessions && sessions[i].project == project && LogicalID(sessions[i]) == l;
        assert more[i] == sessions[i];
      }
    }
  }

  // ---- Sessions less -----------------------------------------------------

  // The sessions are all of one logical session.
  predicate AllOf(sessions: Sessions, ids: set<string>, logical: string) {
    forall id | id in ids :: id in sessions && LogicalID(sessions[id]) == logical
  }

  lemma DroppedOthers(sessions: Sessions, ids: set<string>, logical: string, other: string)
    requires AllOf(sessions, ids, logical) && other != logical
    ensures LiveWindows(sessions - ids, other) == LiveWindows(sessions, other)
    ensures other in Logicals(sessions - ids) <==> other in Logicals(sessions)
    ensures forall project :: other in LogicalsOf(sessions - ids, project) <==> other in LogicalsOf(sessions, project)
  {
    var less := sessions - ids;
    assert forall id | id in sessions && LogicalID(sessions[id]) == other :: id in less && less[id] == sessions[id];
    assert WindowsIn(less, other) == WindowsIn(sessions, other);
    forall w ensures PanesIn(less, other, w) == PanesIn(sessions, other, w) { }
    if other in Logicals(sessions) {
      var id :| id in sessions && LogicalID(sessions[id]) == other;
      assert id in less;
    }
    forall project | other in LogicalsOf(sessions, project) ensures other in LogicalsOf(less, project) {
      var id :| id in sessions && sessions[id].project == project && LogicalID(sessions[id]) == other;
      assert id in less;
    }
  }

  // Dropping a whole window.
  lemma DroppedWindow(sessions: Sessions, ids: set<string>, logical: string, w: string)
    requires ids == set id | id in sessions && LogicalID(sessions[id]) == logical && WindowID(sessions[id]) == w
    ensures LiveWindows(sessions - ids, logical) == LiveWindows(sessions, logical) - {w}
  {
    var less := sessions - ids;
    assert forall id | id in sessions && LogicalID(sessions[id]) == logical && WindowID(sessions[id]) != w :: id in less && less[id] == sessions[id];
    assert WindowsIn(less, logical) == WindowsIn(sessions, logical) - {w};
    forall v | v != w ensures PanesIn(less, logical, v) == PanesIn(sessions, logical, v) { }
  }

  // Dropping one pane of a window with others.
  lemma DroppedPane(sessions: Sessions, id: string)
    requires id in sessions && forall i | i in sessions && i != id :: sessions[i].paneID != sessions[id].paneID
    ensures var logical, w := LogicalID(sessions[id]), WindowID(sessions[id]); var windows := LiveWindows(sessions, logical);
            && w in windows && var rest := windows[w] - {sessions[id].paneID};
               rest != {} ==> LiveWindows(sessions - {id}, logical) == windows[w := rest]
  {
    var less, logical, w := sessions - {id}, LogicalID(sessions[id]), WindowID(sessions[id]);
    assert w in WindowsIn(sessions, logical);
    assert forall i | i in sessions && i != id :: i in less && less[i] == sessions[i];
    assert PanesIn(less, logical, w) == PanesIn(sessions, logical, w) - {sessions[id].paneID};
    forall v | v != w ensures PanesIn(less, logical, v) == PanesIn(sessions, logical, v) { }
    assert WindowsIn(less, logical) + {w} == WindowsIn(sessions, logical);
    PanesAt(less, logical, w);
  }

  // ---- Updates of a settled session --------------------------------------

  lemma FocusKeepsSettled(t: State, windows: Windows, w: string, paneID: string)
    requires Settled(t, windows) && w in windows && paneID in windows[w]
    ensures Settled(t.(activeWindow := w, activePane := t.activePane[w := paneID]), windows)
  {
    hide GoodLayouts, GoodZooms;
  }

  lemma WindowKeepsSettled(t: State, windows: Windows, w: string)
    requires Settled(t, windows) && w in windows
    ensures Settled(t.(activeWindow := w), windows)
  {
    hide GoodLayouts, GoodZooms, GoodPanes;
  }

  lemma ZoomKeepsSettled(t: State, windows: Windows, w: string, paneID: string)
    requires Settled(t, windows) && w in windows && (paneID == "" || paneID in windows[w])
    ensures Settled(t.(zoomed := t.zoomed[w := paneID]), windows)
  {
    hide GoodLayouts, GoodPlaces, GoodPanes;
  }

  lemma LayoutKeepsSettled(t: State, windows: Windows, w: string, layout: Layout)
    requires Settled(t, windows) && w in windows && Holds(layout, windows[w])
    ensures Settled(t.(layouts := t.layouts[w := layout]), windows)
  {
    hide GoodZooms, GoodPlaces, GoodPanes, Holds;
  }

  lemma AtRest(d: Daemon, logical: string)
    requires GoodTopology(d.topology, d.sessions) && logical in Logicals(d.sessions)
    ensures logical in d.topology && TopologyOf(d, logical) == d.topology[logical]
    ensures Settled(d.topology[logical], LiveWindows(d.sessions, logical))
  {
    hide Settled, Normalized, LiveWindows;
    SettledIsFixed(d.topology[logical], LiveWindows(d.sessions, logical));
  }

  // ---- Creating ----------------------------------------------------------

  // Where a new pane may go: a session of its own, a new window of a session, or a window.
  ghost predicate Placeable(d: Daemon, project: string, logical: string, window: string) {
    && project != "" && (logical == "" ==> window == "")
    && (logical != "" ==> exists id | id in d.sessions :: d.sessions[id].logical == logical && d.sessions[id].project == project)
    && (window != "" ==> window in LiveWindows(d.sessions, logical))
  }

  lemma FreshIsSettled()
    ensures Settled(Fresh(), map[])
  {
  }

  // What a session's topology is, or would be, before a pane joins it.
  function Before(d: Daemon, logical: string): State {
    At(d.topology, logical, Fresh())
  }

  lemma NoWindows(sessions: Sessions, logical: string)
    requires logical !in Logicals(sessions)
    ensures LiveWindows(sessions, logical) == map[]
  {
    assert forall id | id in sessions :: LogicalID(sessions[id]) in Logicals(sessions);
    assert WindowsIn(sessions, logical) == {};
  }

  lemma BeforeIsSettled(d: Daemon, logical: string)
    requires GoodTopology(d.topology, d.sessions)
    ensures Settled(Before(d, logical), LiveWindows(d.sessions, logical))
  {
    hide Settled;
    if logical !in d.topology {
      FreshIsSettled();
      NoWindows(d.sessions, logical);
    }
  }

  // A pane that joins a session and takes its focus.
  function Entered(t: State, w: string, paneID: string): State {
    var joined := Joins(t, w, paneID);
    joined.(activeWindow := w, activePane := joined.activePane[w := paneID])
  }

  lemma AppendedHas(layout: Layout, paneID: string)
    ensures HasPane(AppendPane(layout, paneID), paneID)
  {
    assert HasPane(Leaf(paneID), paneID);
  }

  lemma EnteredIsObserved(t: State, windows: Windows, w: string, paneID: string)
    requires Settled(t, windows) && Sane(windows) && w != "" && paneID != "" && paneID !in At(windows, w, {})
    ensures var more := Add(windows, w, paneID);
            && Observed(Normalized(t, more), w, paneID) == Entered(t, w, paneID)
            && Settled(Entered(t, w, paneID), more)
  {
    hide Settled, Normalized;
    AppendedHas(At(t.layouts, w, Nil), paneID);
    PaneJoins(t, windows, w, paneID);
    FocusKeepsSettled(Joins(t, w, paneID), Add(windows, w, paneID), w, paneID);
  }

  lemma NamedIsNotEmpty(prefix: string, n: nat)
    requires prefix != ""
    ensures Named(prefix, n) != ""
  {
    assert Named(prefix, n)[..|prefix|] == prefix;
  }

  lemma NoneUsed(d: Daemon)
    requires GoodIds(d)
    ensures forall id | id in d.sessions :: NoneOf(d.sessions[id], id, d.nextSession + 1, d.nextWindow + 1)
  {
    hide NoneOf, GoodPane;
    forall id | id in d.sessions ensures NoneOf(d.sessions[id], id, d.nextSession + 1, d.nextWindow + 1) {
      OldIsNotNew(d.sessions[id], id, d.nextSession, d.nextWindow);
    }
  }

  lemma NamesAreOfSessions(sessions: Sessions, l: string, w: string)
    requires forall id | id in sessions :: LogicalID(sessions[id]) != l && WindowID(sessions[id]) != w
    ensures l !in Logicals(sessions) && forall logical :: w !in LiveWindows(sessions, logical)
  {
  }

  lemma NewPaneIsFresh(d: Daemon)
    requires GoodIds(d)
    ensures var n := d.nextSession + 1;
            && Named("session-", n) !in d.sessions && Named("pane-", n) !in d.panes
            && Named("session-", n) !in Logicals(d.sessions)
            && (forall id | id in d.sessions :: d.sessions[id].paneID != Named("pane-", n))
            && Named("session-", n) != "" && Named("pane-", n) != "" && Named("window-", d.nextWindow + 1) != ""
            && (forall logical :: Named("window-", d.nextWindow + 1) !in LiveWindows(d.sessions, logical))
  {
    hide Named, GoodPane, LiveWindows, Logicals, LogicalID, WindowID;
    NamedIsNotEmpty("session-", d.nextSession + 1);
    NamedIsNotEmpty("pane-", d.nextSession + 1);
    NamedIsNotEmpty("window-", d.nextWindow + 1);
    NoneUsed(d);
    NamesAreOfSessions(d.sessions, Named("session-", d.nextSession + 1), Named("window-", d.nextWindow + 1));
  }

  predicate NoneOf(p: Pane, id: string, n: nat, m: nat) {
    && id != Named("session-", n) && p.paneID != Named("pane-", n)
    && LogicalID(p) != Named("session-", n) && WindowID(p) != Named("window-", m)
  }

  lemma OldIsNotNew(p: Pane, id: string, n: nat, m: nat)
    requires GoodPane(p, id, n, m)
    ensures NoneOf(p, id, n + 1, m + 1)
  {
    NewNameIsFresh("session-", n, id);
    NewNameIsFresh("session-", n, p.logical);
    NewNameIsFresh("pane-", n, p.paneID);
    NewNameIsFresh("window-", m, p.window);
    hide Named;
  }

  lemma UsedLater(prefix: string, s: string, n: nat, later: nat)
    requires Used(prefix, s, n) && n <= later
    ensures Used(prefix, s, later)
  {
  }

  lemma GoodPaneLater(p: Pane, id: string, n: nat, m: nat, more: nat)
    requires GoodPane(p, id, n, m)
    ensures GoodPane(p, id, n + 1, m + more)
  {
    UsedLater("session-", id, n, n + 1);
    UsedLater("session-", p.logical, n, n + 1);
    UsedLater("pane-", p.paneID, n, n + 1);
    UsedLater("window-", p.window, m, m + more);
  }

  // What createLocked has made of the daemon once the process runs.
  ghost function WithPane(d: Daemon, p: Pane, nextWindow: nat): Daemon {
    Daemon(d.sessions[p.id := p], d.panes[p.paneID := p.id],
           d.topology[p.logical := Entered(Before(d, p.logical), p.window, p.paneID)],
           d.active[p.project := p.logical], d.nextSession + 1, nextWindow, d.prepared)
  }

  lemma NewPaneIs(d: Daemon, project: string, logical: string, window: string)
    requires GoodIds(d) && Placeable(d, project, logical, window)
    ensures var p := NewPane(d, project, logical, window);
            && p.id !in d.sessions && p.paneID !in d.panes && p.paneID !in At(LiveWindows(d.sessions, p.logical), p.window, {})
            && LogicalID(p) == p.logical && WindowID(p) == p.window && p.paneID != "" && p.window != ""
  {
    hide PanesIn, WindowsIn, Named;
    NewPaneIsFresh(d);
    var p := NewPane(d, project, logical, window);
    PanesAt(d.sessions, p.logical, p.window);
    PanesAreOfSessions(d.sessions, p.logical, p.window, p.paneID);
  }

  lemma CreateUnfolds(d: Daemon, project: string, logical: string, window: string)
    ensures var p := NewPane(d, project, logical, window); var made := CreateLocked(d, project, logical, window, true);
            var t := Normalized(Before(d, LogicalID(p)), LiveWindows(d.sessions[p.id := p], LogicalID(p)));
            && made.pane == Some(p)
            && (LogicalID(p) == p.logical && Observed(t, p.window, p.paneID) == Entered(Before(d, p.logical), p.window, p.paneID)
                ==> made.daemon == WithPane(d, p, d.nextWindow + WindowsMade(window)))
  {
    hide Normalized, LiveWindows, LogicalID, Observed, Entered, Named;
  }

  lemma PaneEnters(d: Daemon, p: Pane)
    requires GoodTopology(d.topology, d.sessions) && GoodIds(d) && p.id !in d.sessions
    requires LogicalID(p) == p.logical && WindowID(p) == p.window && p.paneID != "" && p.window != ""
    requires p.paneID !in At(LiveWindows(d.sessions, p.logical), p.window, {})
    ensures var windows := LiveWindows(d.sessions[p.id := p], p.logical); var t := Entered(Before(d, p.logical), p.window, p.paneID);
            Settled(t, windows) && Observed(Normalized(Before(d, p.logical), windows), p.window, p.paneID) == t
  {
    hide Settled, GoodIds, GoodTopology, Normalized, LiveWindows, Observed, Entered, LogicalID, WindowID;
    LiveIsSane(d, p.logical);
    BeforeIsSettled(d, p.logical);
    AddedWindows(d.sessions, p.id, p, p.logical);
    EnteredIsObserved(Before(d, p.logical), LiveWindows(d.sessions, p.logical), p.window, p.paneID);
  }

  // createLocked changes the daemon by the new pane alone, which has names never used.
  lemma CreateIsExactly(d: Daemon, project: string, logical: string, window: string)
    requires Inv(d) && Placeable(d, project, logical, window)
    ensures var p := NewPane(d, project, logical, window); var made := CreateLocked(d, project, logical, window, true);
            && p.id !in d.sessions && p.paneID !in d.panes && p.paneID !in At(LiveWindows(d.sessions, p.logical), p.window, {})
            && made == Created(WithPane(d, p, d.nextWindow + WindowsMade(window)), Some(p))
            && Settled(Entered(Before(d, p.logical), p.window, p.paneID), LiveWindows(d.sessions[p.id := p], p.logical))
  {
    hide CreateLocked, Settled, GoodTopology, GoodIds, NewPane, OneProject, GoodActive, Normalized, LiveWindows, Placeable;
    hide Observed, Entered, LogicalID, WindowID, WithPane, Before;
    NewPaneIs(d, project, logical, window);
    PaneEnters(d, NewPane(d, project, logical, window));
    CreateUnfolds(d, project, logical, window);
  }

  lemma PanesAreOfSessions(sessions: Sessions, logical: string, w: string, paneID: string)
    requires forall id | id in sessions :: sessions[id].paneID != paneID
    ensures paneID !in PanesIn(sessions, logical, w)
  {
  }

  lemma CountedIds(d: Daemon, more: nat)
    requires GoodIds(d)
    ensures GoodIds(d.(nextSession := d.nextSession + 1, nextWindow := d.nextWindow + more))
  {
    hide GoodPane;
    forall id | id in d.sessions ensures GoodPane(d.sessions[id], id, d.nextSession + 1, d.nextWindow + more) {
      GoodPaneLater(d.sessions[id], id, d.nextSession, d.nextWindow, more);
    }
  }

  lemma CountingKeeps(d: Daemon, more: nat)
    requires Inv(d)
    ensures Inv(d.(nextSession := d.nextSession + 1, nextWindow := d.nextWindow + more))
  {
    hide GoodIds, OneProject, GoodTopology, GoodActive, AllFollow;
    CountedIds(d, more);
    AllFollowLater(d.sessions, d.nextSession);
  }

  lemma AllFollowLater(sessions: Sessions, n: nat)
    requires AllFollow(sessions, n)
    ensures AllFollow(sessions, n + 1)
  {
    hide Used, Named;
    forall id | id in sessions ensures Follows(id, sessions[id].logical, n + 1) { assert Follows(id, sessions[id].logical, n); }
  }

  lemma NewFollows(sessions: Sessions, p: Pane, n: nat)
    requires AllFollow(sessions, n) && p.id == Named("session-", n + 1) && Used("session-", p.logical, n + 1)
    ensures AllFollow(sessions[p.id := p], n + 1)
  {
    hide Used, Named;
    AllFollowLater(sessions, n);
    assert Follows(p.id, p.logical, n + 1);
  }

  lemma NewIdsAreGood(d: Daemon, p: Pane, more: nat)
    requires GoodIds(d) && p.id !in d.sessions && p.paneID !in d.panes
    requires GoodPane(p, p.id, d.nextSession + 1, d.nextWindow + more)
    ensures GoodIds(WithPane(d, p, d.nextWindow + more))
  {
    hide GoodPane, Entered;
    assert p.id == p.id && GoodPane(p, p.id, d.nextSession + 1, d.nextWindow + more);
    forall id | id in d.sessions ensures GoodPane(d.sessions[id], id, d.nextSession + 1, d.nextWindow + more) {
      GoodPaneLater(d.sessions[id], id, d.nextSession, d.nextWindow, more);
    }
  }

  lemma NewProjectIsOne(sessions: Sessions, p: Pane)
    requires OneProject(sessions) && p.id !in sessions
    requires LogicalID(p) in Logicals(sessions) ==> LogicalID(p) in LogicalsOf(sessions, p.project)
    ensures OneProject(sessions[p.id := p])
  {
    hide LogicalID;
    var more := sessions[p.id := p];
    forall i | i in sessions && LogicalID(sessions[i]) == LogicalID(p) ensures sessions[i].project == p.project {
      assert LogicalID(p) in Logicals(sessions);
      var j :| j in sessions && sessions[j].project == p.project && LogicalID(sessions[j]) == LogicalID(p);
    }
  }

  lemma NewTopologyIsGood(d: Daemon, p: Pane, t: State)
    requires GoodTopology(d.topology, d.sessions) && p.id !in d.sessions
    requires Settled(t, LiveWindows(d.sessions[p.id := p], LogicalID(p)))
    ensures GoodTopology(d.topology[LogicalID(p) := t], d.sessions[p.id := p])
  {
    hide Settled, LiveWindows, Logicals, LogicalID;
    AddedNames(d.sessions, p.id, p);
    forall l | l in d.topology && l != LogicalID(p) ensures LiveWindows(d.sessions[p.id := p], l) == LiveWindows(d.sessions, l) {
      AddedWindows(d.sessions, p.id, p, l);
    }
  }

  lemma NewActiveIsGood(d: Daemon, p: Pane)
    requires GoodActive(d.active, d.sessions) && p.id !in d.sessions
    ensures GoodActive(d.active[p.project := LogicalID(p)], d.sessions[p.id := p])
  {
    hide LogicalsOf, Projects, LogicalID;
    AddedNames(d.sessions, p.id, p);
  }

  lemma NewIsUsed(prefix: string, n: nat)
    requires prefix != ""
    ensures Used(prefix, Named(prefix, n + 1), n + 1) && Named(prefix, n + 1) != ""
  {
    NewNameIsFresh(prefix, n, "");
  }

  // The names a new pane takes over are those of live panes.
  lemma PlaceableIsKnown(d: Daemon, project: string, logical: string, window: string)
    requires GoodIds(d) && Placeable(d, project, logical, window)
    ensures logical != "" ==> logical in LogicalsOf(d.sessions, project) && Used("session-", logical, d.nextSession)
    ensures window != "" ==> Used("window-", window, d.nextWindow)
  {
    hide Used;
    if logical != "" {
      var id :| id in d.sessions && d.sessions[id].logical == logical && d.sessions[id].project == project;
      assert GoodPane(d.sessions[id], id, d.nextSession, d.nextWindow);
    }
    if window != "" {
      var id :| id in d.sessions && LogicalID(d.sessions[id]) == logical && WindowID(d.sessions[id]) == window;
      assert GoodPane(d.sessions[id], id, d.nextSession, d.nextWindow);
    }
  }

  lemma NewIsGoodPane(d: Daemon, project: string, logical: string, window: string)
    requires GoodIds(d) && Placeable(d, project, logical, window)
    ensures var p := NewPane(d, project, logical, window);
            GoodPane(p, p.id, d.nextSession + 1, d.nextWindow + WindowsMade(window)) && p.id == Named("session-", d.nextSession + 1)
  {
    PlaceableIsKnown(d, project, logical, window);
    hide GoodIds, Named;
    NewPaneIs(d, project, logical, window);
    hide Placeable, LiveWindows;
    NewIsUsed("session-", d.nextSession);
    NewIsUsed("pane-", d.nextSession);
    NewIsUsed("window-", d.nextWindow);
    if logical != "" { UsedLater("session-", logical, d.nextSession, d.nextSession + 1); }
  }

  lemma WithPaneKeeps(d: Daemon, p: Pane, more: nat)
    requires Inv(d) && p.id !in d.sessions && p.paneID !in d.panes
    requires GoodPane(p, p.id, d.nextSession + 1, d.nextWindow + more) && p.id == Named("session-", d.nextSession + 1)
    requires p.logical in Logicals(d.sessions) ==> p.logical in LogicalsOf(d.sessions, p.project)
    requires Settled(Entered(Before(d, p.logical), p.window, p.paneID), LiveWindows(d.sessions[p.id := p], p.logical))
    ensures Inv(WithPane(d, p, d.nextWindow + more))
  {
    hide Settled, OneProject, GoodTopology, GoodActive, Named, GoodPane, GoodIds, Entered, LogicalsOf, Logicals;
    LogicalIsNamed(p, d.nextSession + 1, d.nextWindow + more);
    NewIdsAreGood(d, p, more);
    NewFollows(d.sessions, p, d.nextSession);
    hide AllFollow;
    NewProjectIsOne(d.sessions, p);
    NewTopologyIsGood(d, p, Entered(Before(d, p.logical), p.window, p.paneID));
    NewActiveIsGood(d, p);
  }

  lemma LogicalIsNamed(p: Pane, n: nat, m: nat)
    requires GoodPane(p, p.id, n, m)
    ensures LogicalID(p) == p.logical && WindowID(p) == p.window && Used("session-", p.logical, n)
  {
  }

  lemma NewLogicalIsNew(d: Daemon, project: string, logical: string, window: string)
    requires GoodIds(d) && Placeable(d, project, logical, window)
    ensures var p := NewPane(d, project, logical, window);
            p.logical in Logicals(d.sessions) ==> p.logical in LogicalsOf(d.sessions, p.project)
  {
    hide GoodIds, Placeable, LogicalsOf, Logicals, Named, LiveWindows, Used;
    PlaceableIsKnown(d, project, logical, window);
    if logical == "" { NewPaneIsFresh(d); }
  }

  lemma CreateFails(d: Daemon, project: string, logical: string, window: string)
    ensures CreateLocked(d, project, logical, window, false)
            == Created(d.(nextSession := d.nextSession + 1, nextWindow := d.nextWindow + WindowsMade(window)), None)
  {
  }

  lemma CreateKeeps(d: Daemon, project: string, logical: string, window: string, starts: bool)
    requires Inv(d) && Placeable(d, project, logical, window)
    ensures Inv(CreateLocked(d, project, logical, window, starts).daemon)
  {
    hide CreateLocked, Settled, GoodPane, Placeable, NewPane, LiveWindows, WithPane, Entered, Before, Logicals, LogicalsOf;
    if !starts {
      CreateFails(d, project, logical, window);
      CountingKeeps(d, WindowsMade(window));
    } else {
      CreateIsExactly(d, project, logical, window);
      hide Inv;
      InvHasIds(d);
      NewIsGoodPane(d, project, logical, window);
      NewLogicalIsNew(d, project, logical, window);
      WithPaneKeeps(d, NewPane(d, project, logical, window), WindowsMade(window));
    }
  }

  lemma InvHasIds(d: Daemon)
    requires Inv(d)
    ensures GoodIds(d)
  {
  }

  // ---- Changing what is there --------------------------------------------

  lemma ReplaceKeeps(d: Daemon, logical: string, t: State)
    requires Inv(d) && logical in Logicals(d.sessions) && Settled(t, LiveWindows(d.sessions, logical))
    ensures Inv(WithTopology(d, logical, t))
  {
    hide Settled, LiveWindows, Logicals, GoodPane, OneProject, GoodActive, AllFollow;
  }

  lemma SelectKeeps(d: Daemon, project: string, logical: string)
    requires Inv(d) && logical in LogicalsOf(d.sessions, project)
    ensures Inv(d.(active := d.active[project := logical]))
  {
    hide GoodPane, OneProject, GoodTopology, AllFollow;
    var id :| id in d.sessions && d.sessions[id].project == project && LogicalID(d.sessions[id]) == logical;
    assert project in Projects(d.sessions);
  }

  // What the invariant says of one live pane.
  lemma PaneFacts(d: Daemon, id: string)
    requires Inv(d) && id in d.sessions
    ensures var p := d.sessions[id]; var l := p.logical; var windows := LiveWindows(d.sessions, l);
            && LogicalID(p) == l && WindowID(p) == p.window && l != "" && p.window != "" && p.paneID != ""
            && l in Logicals(d.sessions) && l in LogicalsOf(d.sessions, p.project)
            && p.window in windows && p.paneID in windows[p.window] && p.project != ""
            && l in d.topology && Settled(d.topology[l], windows) && TopologyOf(d, l) == d.topology[l]
            && SessionOf(d, p.paneID) == Some(p)
  {
    var p := d.sessions[id];
    assert GoodPane(p, id, d.nextSession, d.nextWindow);
    hide GoodPane, Settled, OneProject, GoodActive, AllFollow;
    AtRest(d, p.logical);
    assert p.paneID in PanesIn(d.sessions, p.logical, p.window);
    assert p.window in WindowsIn(d.sessions, p.logical);
  }

  lemma SessionOfIs(d: Daemon, paneID: string)
    requires Inv(d) && SessionOf(d, paneID).Some?
    ensures var p := SessionOf(d, paneID).value; p.id in d.sessions && d.sessions[p.id] == p && p.paneID == paneID
  {
    var id := d.panes[paneID];
    assert GoodPane(d.sessions[id], id, d.nextSession, d.nextWindow);
    hide GoodPane, Settled, OneProject, GoodActive, GoodTopology, AllFollow;
  }

  lemma LogicalSessionIs(d: Daemon, sessionID: string)
    requires Inv(d) && LogicalSession(d, sessionID).Some?
    ensures var p := LogicalSession(d, sessionID).value; p.id in d.sessions && d.sessions[p.id] == p
  {
    var p := LogicalSession(d, sessionID).value;
    var id :| id in d.sessions && d.sessions[id] == p;
    assert GoodPane(d.sessions[id], id, d.nextSession, d.nextWindow);
    hide GoodPane, Settled, OneProject, GoodActive, GoodTopology, AllFollow;
  }

  lemma {:induction false} DoubledHolds(s: seq<string>, source: string, created: string)
    requires Distinct(s) && created !in s && source != created
    ensures var r := Mapped(s, Double(source, created));
            && Distinct(r) && Elements(r) == Elements(s) + if source in s then {created} else {}
  {
    if s != [] {
      var n := |s| - 1;
      DoubledHolds(s[..n], source, created);
      var before := Mapped(s[..n], Double(source, created));
      assert s == s[..n] + [s[n]];
      JoinedLists(s[..n], [s[n]]);
      JoinedLists(before, Double(source, created)(s[n]));
      assert s[n] !in Elements(s[..n]);
      assert Elements([source, created]) == {source, created} && Elements([s[n]]) == {s[n]};
    }
  }

  lemma SplitHolds(layout: Layout, panes: set<string>, source: string, created: string, direction: string, ratio: real)
    requires Holds(layout, panes) && source in panes && created !in panes && source != "" && created != ""
    ensures Holds(SplitPane(layout, source, created, direction, ratio), panes + {created})
  {
    SplitIsExactly(layout, source, created, direction, ratio);
    assert source in Elements(Leaves(layout)) && created !in Elements(Leaves(layout));
    hide Mapped, SplitPane, Proper;
    DoubledHolds(Leaves(layout), source, created);
  }

  // The topology of a session in which a pane has been split.
  function SplitOff(t: State, w: string, source: string, created: string, direction: string, ratio: real): State
    requires w in t.layouts
  {
    t.(layouts := t.layouts[w := SplitPane(t.layouts[w], source, created, direction, ratio)],
       activeWindow := w, activePane := t.activePane[w := created])
  }

  lemma SplitOffLayouts(layouts: map<string, Layout>, windows: Windows, w: string, created: string, layout: Layout)
    requires GoodLayouts(layouts, windows) && w in windows && Holds(layout, windows[w] + {created})
    ensures GoodLayouts(layouts[w := layout], Add(windows, w, created))
  {
    hide Holds;
  }

  lemma SplitOffPanes(t: State, windows: Windows, w: string, created: string)
    requires GoodPlaces(t.order, t.activeWindow, windows.Keys) && GoodPanes(t.activePane, windows) && GoodZooms(t.zoomed, windows)
    requires w in windows
    ensures var more := Add(windows, w, created);
            GoodPlaces(t.order, w, more.Keys) && GoodPanes(t.activePane[w := created], more) && GoodZooms(t.zoomed, more)
  {
    assert Add(windows, w, created).Keys == windows.Keys;
    hide Distinct, Elements;
  }

  lemma SplitOffIsSettled(t: State, windows: Windows, w: string, source: string, created: string, direction: string, ratio: real)
    requires Settled(t, windows) && w in windows && w in t.layouts && source in windows[w]
    requires source != "" && created != "" && created !in windows[w]
    ensures Settled(SplitOff(t, w, source, created, direction, ratio), Add(windows, w, created))
  {
    SplitOffPanes(t, windows, w, created);
    hide SplitPane, Holds, GoodPlaces, GoodPanes, GoodZooms;
    SplitHolds(t.layouts[w], windows[w], source, created, direction, ratio);
    SplitOffLayouts(t.layouts, windows, w, created, SplitPane(t.layouts[w], source, created, direction, ratio));
  }

  // ---- Each operation ----------------------------------------------------

  lemma SourceIsPlaceable(d: Daemon, p: Pane)
    requires Inv(d) && p.id in d.sessions && d.sessions[p.id] == p
    ensures Placeable(d, p.project, p.logical, p.window) && Placeable(d, p.project, p.logical, "")
  {
    hide Inv, LiveWindows, Settled, TopologyOf, SessionOf, LogicalsOf, Logicals;
    PaneFacts(d, p.id);
  }

  // The new pane is where its window says, and its session is at rest.
  lemma WithPaneAtRest(d: Daemon, p: Pane, nextWindow: nat)
    requires Inv(WithPane(d, p, nextWindow))
    ensures var c := WithPane(d, p, nextWindow);
            && p.logical in Logicals(c.sessions)
            && TopologyOf(c, p.logical) == Entered(Before(d, p.logical), p.window, p.paneID)
  {
    var c := WithPane(d, p, nextWindow);
    assert c.sessions[p.id] == p;
    assert GoodPane(p, p.id, c.nextSession, c.nextWindow);
    assert LogicalID(c.sessions[p.id]) == p.logical;
    hide GoodPane, GoodIds, OneProject, GoodActive, Settled, Entered, Before;
    AtRest(c, p.logical);
  }

  // Giving the new pane its place undoes where normalising had put it.
  lemma SplitPlaces(t: State, panes: set<string>, w: string, source: string, created: string, direction: string, ratio: real)
    requires w in t.layouts && Holds(t.layouts[w], panes) && created != "" && created !in panes
    ensures var e := Entered(t, w, created); var base := RemovePane(At(e.layouts, w, Nil), created);
            e.(layouts := e.layouts[w := SplitPane(base, source, created, direction, ratio)],
               activeWindow := w, activePane := e.activePane[w := created])
            == SplitOff(t, w, source, created, direction, ratio)
  {
    assert created !in Elements(Leaves(t.layouts[w]));
    RemoveUndoesAppend(t.layouts[w], created);
    hide RemovePane, SplitPane, AppendPane, Holds;
  }

  lemma SplitUnfolds(d: Daemon, paneID: string, direction: string, ratio: real, command: string)
    requires !d.prepared && SessionOf(d, paneID).Some? && command != ""
    ensures var source := SessionOf(d, paneID).value; var made := CreateLocked(d, source.project, source.logical, source.window, true);
            made.pane.Some? ==>
              var c, q, w := made.daemon, made.pane.value.paneID, source.window;
              var t := TopologyOf(c, source.logical); var base := RemovePane(At(t.layouts, w, Nil), q);
              HandleSplit(d, paneID, direction, ratio, command, true)
              == Done(WithTopology(c, source.logical,
                   t.(layouts := t.layouts[w := SplitPane(base, paneID, q, direction, ratio)], activeWindow := w,
                      activePane := t.activePane[w := q])))
  {
    hide CreateLocked, SplitPane, RemovePane, TopologyOf;
  }

  lemma SplitIs(d: Daemon, paneID: string, direction: string, ratio: real, command: string)
    requires Inv(d) && !d.prepared && SessionOf(d, paneID).Some? && command != ""
    ensures var source := SessionOf(d, paneID).value; var l := source.logical;
            var p := NewPane(d, source.project, l, source.window);
            && l in d.topology && source.window in d.topology[l].layouts
            && HandleSplit(d, paneID, direction, ratio, command, true)
               == Done(WithTopology(WithPane(d, p, d.nextWindow), l,
                                    SplitOff(d.topology[l], source.window, paneID, p.paneID, direction, ratio)))
            && Inv(HandleSplit(d, paneID, direction, ratio, command, true).daemon)
  {
    hide Inv, CreateLocked, Settled, WithPane, Placeable, LiveWindows, Entered, SplitPane, RemovePane, Normalized, TopologyOf, HandleSplit, SplitOff, Named;
    SessionOfIs(d, paneID);
    var source := SessionOf(d, paneID).value;
    var l, w := source.logical, source.window;
    PaneFacts(d, source.id);
    SourceIsPlaceable(d, source);
    CreateIsExactly(d, source.project, l, w);
    CreateKeeps(d, source.project, l, w, true);
    var p := NewPane(d, source.project, l, w);
    WithPaneAtRest(d, p, d.nextWindow);
    SettledLayout(d.topology[l], LiveWindows(d.sessions, l), w);
    InvHasIds(d);
    NewPaneIs(d, source.project, l, w);
    SplitPlaces(d.topology[l], LiveWindows(d.sessions, l)[w], w, paneID, p.paneID, direction, ratio);
    SplitUnfolds(d, paneID, direction, ratio, command);
    SplitOffIsSettled(d.topology[l], LiveWindows(d.sessions, l), w, paneID, p.paneID, direction, ratio);
    WithPaneWindows(d, p, d.nextWindow);
    ReplaceKeeps(WithPane(d, p, d.nextWindow), l, SplitOff(d.topology[l], w, paneID, p.paneID, direction, ratio));
  }

  // Splitting puts the new pane beside its source, in a split divided as asked, and gives
  // it the focus; every other split, window and session is as it was.
  lemma SplitStandsBeside(d: Daemon, paneID: string, direction: string, ratio: real, command: string)
    requires Inv(d) && !d.prepared && SessionOf(d, paneID).Some? && command != ""
    ensures var source := SessionOf(d, paneID).value; var (l, w) := (source.logical, source.window);
            var p := NewPane(d, source.project, l, w); var after := HandleSplit(d, paneID, direction, ratio, command, true);
            && l in d.topology && w in d.topology[l].layouts
            && Inv(after.daemon) && l in after.daemon.topology && w in after.daemon.topology[l].layouts
            && var layout := after.daemon.topology[l].layouts[w];
            && Places.IsSplitOff(d.topology[l].layouts[w], paneID, p.paneID, direction, ratio, layout)
            && after == Done(WithTopology(WithPane(d, p, d.nextWindow), l,
                 d.topology[l].(activeWindow := w, activePane := d.topology[l].activePane[w := p.paneID],
                                layouts := d.topology[l].layouts[w := layout])))
  {
    SplitIs(d, paneID, direction, ratio, command);
    SplitIsBeside(d, paneID, direction, ratio);
    hide Inv, HandleSplit, SplitPane, Places.IsSplitOff, WithPane;
  }

  lemma SplitIsBeside(d: Daemon, paneID: string, direction: string, ratio: real)
    requires Inv(d) && SessionOf(d, paneID).Some?
    requires var source := SessionOf(d, paneID).value;
             source.logical in d.topology && source.window in d.topology[source.logical].layouts
    ensures var source := SessionOf(d, paneID).value; var layout := d.topology[source.logical].layouts[source.window];
            var created := NewPane(d, source.project, source.logical, source.window).paneID;
            Places.IsSplitOff(layout, paneID, created, direction, ratio, SplitPane(layout, paneID, created, direction, ratio))
  {
    SessionOfIs(d, paneID);
    var source := SessionOf(d, paneID).value;
    PaneFacts(d, source.id);
    SettledLayout(d.topology[source.logical], LiveWindows(d.sessions, source.logical), source.window);
    var layout := d.topology[source.logical].layouts[source.window];
    var created := NewPane(d, source.project, source.logical, source.window).paneID;
    hide Inv, Settled, LiveWindows, SplitPane, Proper;
    assert paneID in Elements(Leaves(layout));
    Places.SplitIsOneSplit(layout, paneID, created, direction, ratio, layout);
  }

  lemma SettledLayout(t: State, windows: Windows, w: string)
    requires Settled(t, windows) && w in windows
    ensures w in t.layouts && Holds(t.layouts[w], windows[w]) && w in t.activePane && t.activePane[w] in windows[w]
  {
  }

  lemma WithPaneWindows(d: Daemon, p: Pane, nextWindow: nat)
    requires p.id !in d.sessions && LogicalID(p) == p.logical && WindowID(p) == p.window
    ensures LiveWindows(WithPane(d, p, nextWindow).sessions, p.logical) == Add(LiveWindows(d.sessions, p.logical), p.window, p.paneID)
  {
    hide LiveWindows, Entered;
    AddedWindows(d.sessions, p.id, p, p.logical);
  }

  lemma SameTopology(d: Daemon, logical: string)
    requires logical in d.topology
    ensures WithTopology(d, logical, d.topology[logical]) == d
  {
    assert d.topology[logical := d.topology[logical]] == d.topology;
  }

  lemma EnteredHasFocus(t: State, w: string, paneID: string)
    ensures var e := Entered(t, w, paneID); e.(activeWindow := w, activePane := e.activePane[w := paneID]) == e
  {
    hide Joins;
  }

  // A new window goes last, with the new pane its only one, and takes the focus.
  lemma NewWindowGoesLast(d: Daemon, sessionID: string, command: string)
    requires Inv(d) && !d.prepared && LogicalSession(d, sessionID).Some? && command != ""
    ensures var source := LogicalSession(d, sessionID).value; var p := NewPane(d, source.project, source.logical, "");
            && source.logical in d.topology
            && HandleNewWindow(d, sessionID, command, true) == Done(WithPane(d, p, d.nextWindow + 1))
            && Inv(WithPane(d, p, d.nextWindow + 1)) && p.window !in d.topology[source.logical].layouts
            && var t := Entered(d.topology[source.logical], p.window, p.paneID);
               t.order == d.topology[source.logical].order + [p.window] && t.layouts[p.window] == Leaf(p.paneID)
  {
    hide Inv, CreateLocked, Settled, Placeable, LiveWindows, Normalized, TopologyOf, LogicalSession, Named;
    LogicalSessionIs(d, sessionID);
    var source := LogicalSession(d, sessionID).value;
    PaneFacts(d, source.id);
    SourceIsPlaceable(d, source);
    CreateIsExactly(d, source.project, source.logical, "");
    CreateKeeps(d, source.project, source.logical, "", true);
    InvHasIds(d);
    var p := NewPane(d, source.project, source.logical, "");
    NewPaneIsFresh(d);
    SettledKeys(d.topology[source.logical], LiveWindows(d.sessions, source.logical));
    WithPaneAtRest(d, p, d.nextWindow + 1);
    EnteredHasFocus(d.topology[source.logical], p.window, p.paneID);
    SameTopology(WithPane(d, p, d.nextWindow + 1), source.logical);
  }

  lemma SettledKeys(t: State, windows: Windows)
    requires Settled(t, windows)
    ensures t.layouts.Keys == windows.Keys && t.activePane.Keys == windows.Keys && Elements(t.order) == windows.Keys && Distinct(t.order)
  {
  }

  // What PaneIsIn and HasWindow find.
  lemma PaneIsInWindow(d: Daemon, paneID: string, logical: string, w: string)
    requires Inv(d) && PaneIsIn(d, paneID, logical, w)
    ensures var windows := LiveWindows(d.sessions, logical);
            && w in windows && paneID in windows[w] && logical in d.topology && Settled(d.topology[logical], windows)
            && TopologyOf(d, logical) == d.topology[logical] && logical in Logicals(d.sessions)
            && paneID != "" && SessionOf(d, paneID).Some? && logical in LogicalsOf(d.sessions, SessionOf(d, paneID).value.project)
  {
    hide Inv, Settled, TopologyOf, LiveWindows, Logicals, LogicalsOf;
    SessionOfIs(d, paneID);
    PaneFacts(d, SessionOf(d, paneID).value.id);
  }

  lemma HasWindowIsLive(d: Daemon, logical: string, w: string)
    requires Inv(d) && HasWindow(d, logical, w)
    ensures var windows := LiveWindows(d.sessions, logical);
            && w in windows && logical in d.topology && Settled(d.topology[logical], windows)
            && TopologyOf(d, logical) == d.topology[logical] && logical in Logicals(d.sessions)
  {
    hide Inv, Settled, TopologyOf, LiveWindows, Logicals;
    var id :| id in d.sessions && LogicalID(d.sessions[id]) == logical && d.sessions[id].window == w;
    PaneFacts(d, id);
  }

  // Resizing is refused exactly where the window is one pane; otherwise it sets the
  // ratio of the window's outermost split, and nothing else.
  lemma ResizeSetsTheRatio(d: Daemon, sessionID: string, w: string, paneID: string, ratio: real)
    requires Inv(d) && !d.prepared && LogicalSession(d, sessionID).Some?
    requires PaneIsIn(d, paneID, LogicalID(LogicalSession(d, sessionID).value), w)
    ensures var l := LogicalID(LogicalSession(d, sessionID).value);
            var out := HandleResizeSplit(d, sessionID, w, paneID, ratio);
            && l in d.topology && w in d.topology[l].layouts && Inv(out.daemon)
            && var t := d.topology[l]; var layout := t.layouts[w];
               out == if IsSplit(layout) then
                        Done(WithTopology(d, l, t.(layouts := t.layouts[w := layout.(ratio := ValidSplitRatio(ratio))])))
                      else Refused(d, NoResizableSplit)
  {
    hide Inv, Settled, TopologyOf, LiveWindows, Logicals, LogicalSession, PaneIsIn, ResizePane, LogicalID;
    var l := LogicalID(LogicalSession(d, sessionID).value);
    PaneIsInWindow(d, paneID, l, w);
    var t, windows := d.topology[l], LiveWindows(d.sessions, l);
    SettledLayout(t, windows, w);
    ResizeHolds(t.layouts[w], windows[w], paneID, ratio);
    SameTopology(d, l);
    if IsSplit(t.layouts[w]) {
      var layout := t.layouts[w].(ratio := ValidSplitRatio(ratio));
      LayoutKeepsSettled(t, windows, w, layout);
      ReplaceKeeps(d, l, t.(layouts := t.layouts[w := layout]));
    }
  }

  lemma ResizeHolds(layout: Layout, panes: set<string>, paneID: string, ratio: real)
    requires Holds(layout, panes) && paneID in panes && paneID != ""
    ensures layout.Node? && ResizePane(layout, paneID, ratio)
            == if IsSplit(layout) then Resized(layout.(ratio := ValidSplitRatio(ratio)), true) else Resized(layout, false)
    ensures IsSplit(layout) ==> Holds(layout.(ratio := ValidSplitRatio(ratio)), panes)
  {
    assert paneID in Elements(Leaves(layout));
    ResizeIsExactly(layout, paneID, ratio);
  }

  lemma SelectWindowKeeps(d: Daemon, sessionID: string, w: string)
    requires Inv(d)
    ensures Inv(HandleSelectWindow(d, sessionID, w).daemon)
  {
    hide Inv, Settled, TopologyOf, LiveWindows, Logicals, LogicalsOf, LogicalSession, HasWindow;
    if !d.prepared && LogicalSession(d, sessionID).Some? {
      LogicalSessionIs(d, sessionID);
      var root := LogicalSession(d, sessionID).value;
      var l := LogicalID(root);
      PaneFacts(d, root.id);
      if HasWindow(d, l, w) {
        HasWindowIsLive(d, l, w);
        var t, windows := d.topology[l], LiveWindows(d.sessions, l);
        WindowKeepsSettled(t, windows, w);
        ReplaceKeeps(d, l, t.(activeWindow := w));
        SelectKeeps(WithTopology(d, l, t.(activeWindow := w)), root.project, l);
      }
    }
  }

  lemma SelectPaneKeeps(d: Daemon, sessionID: string, w: string, paneID: string)
    requires Inv(d)
    ensures Inv(HandleSelectPane(d, sessionID, w, paneID).daemon)
  {
    hide Inv, Settled, TopologyOf, LiveWindows, Logicals, LogicalsOf, LogicalSession, PaneIsIn;
    if !d.prepared && LogicalSession(d, sessionID).Some? {
      var l := LogicalID(LogicalSession(d, sessionID).value);
      if PaneIsIn(d, paneID, l, w) {
        PaneIsInWindow(d, paneID, l, w);
        var t, windows := d.topology[l], LiveWindows(d.sessions, l);
        FocusKeepsSettled(t, windows, w, paneID);
        var focused := t.(activeWindow := w, activePane := t.activePane[w := paneID]);
        ReplaceKeeps(d, l, focused);
        SelectKeeps(WithTopology(d, l, focused), SessionOf(d, paneID).value.project, l);
      }
    }
  }

  lemma ZoomPaneKeeps(d: Daemon, sessionID: string, w: string, paneID: string)
    requires Inv(d)
    ensures Inv(HandleZoomPane(d, sessionID, w, paneID).daemon)
  {
    hide Inv, Settled, TopologyOf, LiveWindows, Logicals, LogicalSession, PaneIsIn, HasWindow;
    if !d.prepared && LogicalSession(d, sessionID).Some? {
      var l := LogicalID(LogicalSession(d, sessionID).value);
      if HasWindow(d, l, w) && (paneID == "" || PaneIsIn(d, paneID, l, w)) {
        HasWindowIsLive(d, l, w);
        var t, windows := d.topology[l], LiveWindows(d.sessions, l);
        var focused := t.(activeWindow := w, activePane := if paneID != "" then t.activePane[w := paneID] else t.activePane);
        if paneID == "" {
          WindowKeepsSettled(t, windows, w);
        } else {
          PaneIsInWindow(d, paneID, l, w);
          FocusKeepsSettled(t, windows, w, paneID);
        }
        ZoomKeepsSettled(focused, windows, w, paneID);
        ReplaceKeeps(d, l, focused.(zoomed := t.zoomed[w := paneID]));
      }
    }
  }

  // The windows and panes a request may name are exactly the live ones.
  lemma LiveExactly(d: Daemon, l: string, w: string, paneID: string)
    requires Inv(d)
    ensures HasWindow(d, l, w) <==> w in LiveWindows(d.sessions, l)
    ensures PaneIsIn(d, paneID, l, w) <==> w in LiveWindows(d.sessions, l) && paneID in LiveWindows(d.sessions, l)[w]
  {
    hide Inv, LiveWindows, HasWindow, PaneIsIn;
    if w in LiveWindows(d.sessions, l) {
      LiveWindowIsThere(d, l, w);
      if paneID in LiveWindows(d.sessions, l)[w] { LivePaneIsThere(d, l, w, paneID); }
    }
    if HasWindow(d, l, w) { HasWindowIsLive(d, l, w); }
    if PaneIsIn(d, paneID, l, w) { PaneIsInWindow(d, paneID, l, w); }
  }

  lemma LiveWindowIsThere(d: Daemon, l: string, w: string)
    requires Inv(d) && w in LiveWindows(d.sessions, l)
    ensures HasWindow(d, l, w)
  {
    hide Inv, Logicals, LogicalsOf, Settled, SessionOf, TopologyOf;
    var id :| id in d.sessions && LogicalID(d.sessions[id]) == l && WindowID(d.sessions[id]) == w;
    PaneFacts(d, id);
    hide LiveWindows, LogicalID, WindowID;
  }

  lemma LivePaneIsThere(d: Daemon, l: string, w: string, paneID: string)
    requires Inv(d) && w in LiveWindows(d.sessions, l) && paneID in LiveWindows(d.sessions, l)[w]
    ensures PaneIsIn(d, paneID, l, w)
  {
    hide Inv, Logicals, LogicalsOf, Settled, SessionOf, TopologyOf;
    var id :| id in d.sessions && LogicalID(d.sessions[id]) == l && WindowID(d.sessions[id]) == w && d.sessions[id].paneID == paneID;
    PaneFacts(d, id);
    hide LiveWindows, LogicalID, WindowID;
  }

  // What a request for a session, a window and a pane finds.
  lemma RequestFinds(d: Daemon, sessionID: string, w: string, paneID: string)
    requires Inv(d) && LogicalSession(d, sessionID).Some?
    ensures var root := LogicalSession(d, sessionID).value; var l := LogicalID(root); var windows := LiveWindows(d.sessions, l);
            && l in d.topology && TopologyOf(d, l) == d.topology[l]
            && (HasWindow(d, l, w) <==> w in windows)
            && (PaneIsIn(d, paneID, l, w) <==> w in windows && paneID in windows[w])
            && (PaneIsIn(d, paneID, l, w) ==> SessionOf(d, paneID).value.project == root.project)
  {
    LogicalSessionIs(d, sessionID);
    var root := LogicalSession(d, sessionID).value;
    var l := LogicalID(root);
    PaneFacts(d, root.id);
    LiveExactly(d, l, w, paneID);
    if PaneIsIn(d, paneID, l, w) {
      SessionOfIs(d, paneID);
      SameProject(d, root.id, SessionOf(d, paneID).value.id);
    }
    hide Inv, Settled, TopologyOf, LiveWindows, LogicalSession, HasWindow;
  }

  // Selecting a window is refused exactly where the session has no such window; else the
  // session's focus moves to it and the project's to the session, and nothing else
  // changes: no pane focus, zoom, order or tree, and no other session.
  lemma SelectWindowMovesFocus(d: Daemon, sessionID: string, w: string)
    requires Inv(d) && !d.prepared && LogicalSession(d, sessionID).Some?
    ensures var root := LogicalSession(d, sessionID).value; var l := LogicalID(root);
            && l in d.topology
            && HandleSelectWindow(d, sessionID, w) ==
               if w in LiveWindows(d.sessions, l) then
                 Done(d.(topology := d.topology[l := d.topology[l].(activeWindow := w)], active := d.active[root.project := l]))
               else Refused(d, SessionNotFound)
  {
    RequestFinds(d, sessionID, w, "");
    hide Inv, TopologyOf, LiveWindows, LogicalSession, HasWindow, PaneIsIn, LogicalID;
  }

  // Selecting a pane is refused exactly where the window has no such pane; else the
  // session's, the window's and the project's focus move to it, and nothing else changes.
  lemma SelectPaneMovesFocus(d: Daemon, sessionID: string, w: string, paneID: string)
    requires Inv(d) && !d.prepared && LogicalSession(d, sessionID).Some?
    ensures var root := LogicalSession(d, sessionID).value; var l := LogicalID(root); var windows := LiveWindows(d.sessions, l);
            && l in d.topology
            && HandleSelectPane(d, sessionID, w, paneID) ==
               if w in windows && paneID in windows[w] then
                 var t := d.topology[l];
                 Done(d.(topology := d.topology[l := t.(activeWindow := w, activePane := t.activePane[w := paneID])],
                         active := d.active[root.project := l]))
               else Refused(d, PaneNotFound)
  {
    RequestFinds(d, sessionID, w, paneID);
    hide Inv, TopologyOf, LiveWindows, LogicalSession, HasWindow, PaneIsIn, LogicalID;
  }

  lemma SameProject(d: Daemon, i: string, j: string)
    requires Inv(d) && i in d.sessions && j in d.sessions && LogicalID(d.sessions[i]) == LogicalID(d.sessions[j])
    ensures d.sessions[i].project == d.sessions[j].project
  {
  }

  // Zooming is refused exactly where the session has no such window, or the window no
  // such pane; else the session's focus moves to the window, its zoom is that pane or
  // none, a zoomed pane has the window's focus, and nothing else changes.
  lemma ZoomIsExactly(d: Daemon, sessionID: string, w: string, paneID: string)
    requires Inv(d) && !d.prepared && LogicalSession(d, sessionID).Some?
    ensures var l := LogicalID(LogicalSession(d, sessionID).value); var windows := LiveWindows(d.sessions, l);
            && l in d.topology
            && HandleZoomPane(d, sessionID, w, paneID) ==
               if w !in windows then Refused(d, SessionNotFound)
               else if paneID != "" && paneID !in windows[w] then Refused(d, PaneNotFound)
               else
                 var t := d.topology[l];
                 var zoomed := t.(activeWindow := w, zoomed := t.zoomed[w := paneID]);
                 Done(d.(topology := d.topology[l :=
                   if paneID == "" then zoomed else zoomed.(activePane := t.activePane[w := paneID])]))
  {
    RequestFinds(d, sessionID, w, paneID);
    hide Inv, TopologyOf, LiveWindows, LogicalSession, HasWindow, PaneIsIn, LogicalID;
  }

  // Reading a settled daemon changes nothing.
  lemma ReadIsInvisible(d: Daemon, project: string)
    requires Inv(d)
    ensures HandleReadTopology(d, project) == Done(d)
  {
    hide Settled, LiveWindows, TopologyOf, GoodIds, OneProject, GoodActive, AllFollow;
    var shown := LogicalsOf(d.sessions, project);
    forall l | l in shown ensures l in Logicals(d.sessions) && l in d.topology && TopologyOf(d, l) == d.topology[l] {
      var id :| id in d.sessions && d.sessions[id].project == project && LogicalID(d.sessions[id]) == l;
      AtRest(d, l);
    }
    assert d.topology.Keys + shown == d.topology.Keys;
    assert HandleReadTopology(d, project).daemon.topology == d.topology;
  }

  // ---- Destroying --------------------------------------------------------

  lemma DroppedIds(d: Daemon, ids: set<string>)
    requires GoodIds(d) && ids <= d.sessions.Keys
    ensures GoodIds(Dropped(d, ids))
  {
    hide GoodPane;
    var gone := set id | id in ids && id in d.sessions :: d.sessions[id].paneID;
    forall id | id in d.sessions && id !in ids ensures d.sessions[id].paneID !in gone { }
    forall q | q in d.panes && q !in gone ensures d.panes[q] !in ids { }
  }

  lemma DroppedTopology(d: Daemon, ids: set<string>, logical: string)
    requires GoodTopology(d.topology, d.sessions) && AllOf(d.sessions, ids, logical)
    ensures logical !in Logicals(d.sessions - ids) ==> GoodTopology(d.topology - {logical}, d.sessions - ids)
    ensures logical in Logicals(d.sessions - ids) ==>
              forall t | Settled(t, LiveWindows(d.sessions - ids, logical)) :: GoodTopology(d.topology[logical := t], d.sessions - ids)
  {
    hide Settled, LiveWindows, Logicals, LogicalsOf, AllOf;
    forall l | l != logical
      ensures LiveWindows(d.sessions - ids, l) == LiveWindows(d.sessions, l)
      ensures l in Logicals(d.sessions - ids) <==> l in Logicals(d.sessions)
    {
      DroppedOthers(d.sessions, ids, logical, l);
    }
    LogicalOfSome(d.sessions, ids, logical);
  }

  lemma LogicalOfSome(sessions: Sessions, ids: set<string>, logical: string)
    ensures logical in Logicals(sessions - ids) ==> logical in Logicals(sessions)
  {
  }

  // The session and the project it is in, before it loses panes.
  predicate InProject(sessions: Sessions, logical: string, project: string) {
    forall id | id in sessions && LogicalID(sessions[id]) == logical :: sessions[id].project == project
  }

  lemma DroppedProjects(sessions: Sessions, ids: set<string>, logical: string, project: string)
    requires AllOf(sessions, ids, logical) && InProject(sessions, logical, project)
    ensures Projects(sessions - ids) == Projects(sessions) - if LogicalsOf(sessions - ids, project) == {} then {project} else {}
    ensures logical in Logicals(sessions - ids) ==> logical in LogicalsOf(sessions - ids, project)
    ensures forall p | p != project :: LogicalsOf(sessions - ids, p) == LogicalsOf(sessions, p)
  {
    var less := sessions - ids;
    assert forall id | id in sessions && sessions[id].project != project :: id in less && less[id] == sessions[id];
    assert forall id | id in less :: LogicalID(less[id]) in LogicalsOf(less, less[id].project);
    forall p | p in Projects(sessions) && p != project ensures p in Projects(less) {
      var id :| id in sessions && sessions[id].project == p;
      assert id in less;
    }
    forall p | p != project ensures LogicalsOf(less, p) == LogicalsOf(sessions, p) {
      forall l | l in LogicalsOf(sessions, p) ensures l in LogicalsOf(less, p) {
        var id :| id in sessions && sessions[id].project == p && LogicalID(sessions[id]) == l;
        assert id in less;
      }
    }
    if LogicalsOf(less, project) != {} {
      var l :| l in LogicalsOf(less, project);
      var id :| id in less && less[id].project == project && LogicalID(less[id]) == l;
      assert project in Projects(less);
    }
  }

  // Where a project's selection goes when the session loses panes.
  ghost predicate NextSelection(active: map<string, string>, next: map<string, string>, less: Sessions, logical: string, project: string) {
    if logical in Logicals(less) || At(active, project, "") != logical then next == active
    else if LogicalsOf(less, project) == {} then next == active - {project}
    else exists least :: IsLeast(least, LogicalsOf(less, project)) && next == active[project := least]
  }

  lemma SelectionIsGood(active: map<string, string>, next: map<string, string>, sessions: Sessions, ids: set<string>, logical: string, project: string)
    requires GoodActive(active, sessions) && AllOf(sessions, ids, logical) && InProject(sessions, logical, project)
    requires NextSelection(active, next, sessions - ids, logical, project) && project in Projects(sessions)
    ensures GoodActive(next, sessions - ids)
  {
    hide Projects, LogicalsOf, Logicals, AllOf, InProject;
    DroppedProjects(sessions, ids, logical, project);
    var kept := active[project];
    if kept != logical { DroppedOthers(sessions, ids, logical, kept); }
  }

  // A daemon that has lost some panes of one session, and kept the promise for the rest.
  lemma LosingKeeps(d: Daemon, after: Daemon, ids: set<string>, logical: string, project: string)
    requires Inv(d) && AllOf(d.sessions, ids, logical) && InProject(d.sessions, logical, project) && project in Projects(d.sessions)
    requires after.sessions == Dropped(d, ids).sessions && after.panes == Dropped(d, ids).panes
    requires after.nextSession == d.nextSession && after.nextWindow == d.nextWindow
    requires NextSelection(d.active, after.active, after.sessions, logical, project)
    requires if logical in Logicals(after.sessions)
             then logical in after.topology && Settled(after.topology[logical], LiveWindows(after.sessions, logical))
                  && after.topology == d.topology[logical := after.topology[logical]]
             else after.topology == d.topology - {logical}
    ensures Inv(after)
  {
    hide Settled, LiveWindows, NextSelection, GoodTopology, GoodActive, Logicals, Projects, GoodPane, InProject;
    DroppedIds(d, ids);
    DroppedTopology(d, ids, logical);
    SelectionIsGood(d.active, after.active, d.sessions, ids, logical, project);
    assert OneProject(after.sessions);
  }

  lemma ReselectedIs(d: Daemon, project: string, logical: string, wasActive: bool)
    requires wasActive == (At(d.active, project, "") == logical)
    ensures var r := Reselected(d, project, logical, wasActive);
            && r == d.(topology := r.topology, active := r.active)
            && NextSelection(d.active, r.active, d.sessions, logical, project)
            && r.topology == if logical in Logicals(d.sessions) then d.topology[logical := TopologyOf(d, logical)]
                             else d.topology - {logical}
  {
    hide TopologyOf, Logicals, LogicalsOf, IsLeast;
  }

  // The window's topology once its last pane is gone, and before any pane is.
  lemma ClosedIs(d: Daemon, logical: string, w: string, ids: set<string>)
    requires Inv(d) && logical in Logicals(d.sessions) && w in LiveWindows(d.sessions, logical)
    requires LiveWindows(d.sessions - ids, logical) == LiveWindows(d.sessions, logical) - {w}
    ensures logical in d.topology
    ensures ClosedPlacement(d, logical, w) == WithTopology(d, logical, RemovePlacement(d.topology[logical], w))
    ensures var dropped := Dropped(ClosedPlacement(d, logical, w), ids); var t := RemovePlacement(d.topology[logical], w);
            TopologyOf(dropped, logical) == t && Settled(t, LiveWindows(d.sessions - ids, logical))
  {
    hide Settled, LiveWindows, RemovePlacement, GoodIds, OneProject, GoodActive;
    AtRest(d, logical);
    PlacementIsSettled(d.topology[logical], LiveWindows(d.sessions, logical), w);
    SettledIsFixed(RemovePlacement(d.topology[logical], w), LiveWindows(d.sessions, logical) - {w});
  }

  // Under the invariant a pane's window is the one it names.
  lemma TargetsAre(d: Daemon, logical: string, w: string)
    requires GoodIds(d)
    ensures Targets(d, logical, w) == set id | id in d.sessions && LogicalID(d.sessions[id]) == logical && WindowID(d.sessions[id]) == w
    ensures AllOf(d.sessions, Targets(d, logical, w), logical) && Targets(d, logical, w) <= d.sessions.Keys
  {
    forall id | id in d.sessions ensures WindowID(d.sessions[id]) == d.sessions[id].window {
      assert GoodPane(d.sessions[id], id, d.nextSession, d.nextWindow);
    }
  }

  lemma ProjectFacts(d: Daemon, p: Pane)
    requires Inv(d) && p.id in d.sessions && d.sessions[p.id] == p
    ensures InProject(d.sessions, LogicalID(p), p.project) && p.project in Projects(d.sessions)
    ensures LogicalID(p) in Logicals(d.sessions) && p.window in LiveWindows(d.sessions, LogicalID(p))
  {
    PaneFacts(d, p.id);
    hide GoodIds, GoodTopology, GoodActive, LiveWindows;
  }

  // What closing one window of a session leaves.
  ghost predicate Closes(d: Daemon, after: Daemon, ids: set<string>, logical: string, project: string, w: string) {
    && after.sessions == d.sessions - ids && after.panes == Dropped(d, ids).panes
    && after.nextSession == d.nextSession && after.nextWindow == d.nextWindow && after.prepared == d.prepared
    && NextSelection(d.active, after.active, after.sessions, logical, project)
    && logical in d.topology
    && after.topology == if logical in Logicals(after.sessions)
                         then d.topology[logical := RemovePlacement(d.topology[logical], w)]
                         else d.topology - {logical}
  }

  lemma ClosesFrom(d: Daemon, after: Daemon, ids: set<string>, logical: string, project: string, w: string)
    requires logical in d.topology
    requires var t := RemovePlacement(d.topology[logical], w); var dropped := Dropped(WithTopology(d, logical, t), ids);
             && after == dropped.(topology := after.topology, active := after.active)
             && NextSelection(d.active, after.active, dropped.sessions, logical, project)
             && after.topology == if logical in Logicals(dropped.sessions) then dropped.topology[logical := t] else dropped.topology - {logical}
    ensures Closes(d, after, ids, logical, project, w)
  {
    hide RemovePlacement, NextSelection, Logicals;
    var t := RemovePlacement(d.topology[logical], w);
    assert d.topology[logical := t] - {logical} == d.topology - {logical};
    assert d.topology[logical := t][logical := t] == d.topology[logical := t];
  }

  lemma ClosesKeeps(d: Daemon, after: Daemon, ids: set<string>, logical: string, project: string, w: string)
    requires Inv(d) && Closes(d, after, ids, logical, project, w)
    requires AllOf(d.sessions, ids, logical) && InProject(d.sessions, logical, project) && project in Projects(d.sessions)
    requires logical in d.topology && Settled(RemovePlacement(d.topology[logical], w), LiveWindows(d.sessions - ids, logical))
    ensures Inv(after)
  {
    hide Inv, RemovePlacement, NextSelection, Logicals, AllOf, InProject, Settled, LiveWindows, Projects;
    LosingKeeps(d, after, ids, logical, project);
  }

  lemma ClosingIs(d: Daemon, p: Pane, w: string)
    requires Inv(d) && p.id in d.sessions && d.sessions[p.id] == p && w in LiveWindows(d.sessions, LogicalID(p))
    ensures var l := LogicalID(p); var ids := Targets(d, l, w);
            var after := Reselected(Dropped(ClosedPlacement(d, l, w), ids), p.project, l, At(d.active, p.project, "") == l);
            Closes(d, after, ids, l, p.project, w) && Inv(after)
  {
    InvHasIds(d);
    hide Inv, GoodIds, Settled, NextSelection, Logicals, Projects, InProject, AllOf, RemovePlacement, LiveWindows, Closes;
    var l := LogicalID(p);
    hide LogicalID, ClosedPlacement, TopologyOf, Reselected;
    TargetsAre(d, l, w);
    var ids := Targets(d, l, w);
    hide Targets;
    ProjectFacts(d, p);
    DroppedWindow(d.sessions, ids, l, w);
    ClosedIs(d, l, w, ids);
    var dropped := Dropped(ClosedPlacement(d, l, w), ids);
    ReselectedIs(dropped, p.project, l, At(d.active, p.project, "") == l);
    var after := Reselected(dropped, p.project, l, At(d.active, p.project, "") == l);
    ClosesFrom(d, after, ids, l, p.project, w);
    ClosesKeeps(d, after, ids, l, p.project, w);
  }

  // Destroying a window takes its panes and its place; focus follows the closing rule, and
  // a session that is gone hands the project's selection to the first one by name.
  lemma DestroyWindowCloses(d: Daemon, sessionID: string, w: string)
    requires Inv(d) && !d.prepared && LogicalSession(d, sessionID).Some?
    ensures var root := LogicalSession(d, sessionID).value; var l := LogicalID(root); var out := HandleDestroyWindow(d, sessionID, w);
            && Inv(out.daemon)
            && (out.error == if Targets(d, l, w) == {} then Some(SessionNotFound) else None)
            && (out.error.Some? ==> out.daemon == d)
            && (out.error.None? ==> Closes(d, out.daemon, Targets(d, l, w), l, root.project, w))
  {
    hide Inv, LogicalSession, Closes, Reselected, ClosedPlacement, Dropped, LiveWindows, LogicalID, Targets;
    LogicalSessionIs(d, sessionID);
    var root := LogicalSession(d, sessionID).value;
    var l := LogicalID(root);
    if Targets(d, l, w) != {} {
      InvHasIds(d);
      TargetIsLive(d, l, w);
      ClosingIs(d, root, w);
    }
  }

  lemma TargetIsLive(d: Daemon, logical: string, w: string)
    requires GoodIds(d) && Targets(d, logical, w) != {}
    ensures w in LiveWindows(d.sessions, logical)
  {
    TargetsAre(d, logical, w);
    var id :| id in Targets(d, logical, w);
    assert w in WindowsIn(d.sessions, logical);
  }

  lemma PaneIDsDiffer(d: Daemon, id: string)
    requires GoodIds(d) && id in d.sessions
    ensures forall i | i in d.sessions && i != id :: d.sessions[i].paneID != d.sessions[id].paneID
  {
    hide GoodPane;
  }

  lemma Another(s: set<string>, x: string)
    requires x in s && s != {x}
    ensures exists y :: y in s && y != x
  {
    assert s == (s - {x}) + {x};
    var y :| y in s - {x};
  }

  lemma MemberOfWindow(sessions: Sessions, id: string)
    requires id in sessions
    ensures var l, w := LogicalID(sessions[id]), WindowID(sessions[id]);
            w in LiveWindows(sessions, l) && sessions[id].paneID in LiveWindows(sessions, l)[w]
  {
    assert sessions[id].paneID in PanesIn(sessions, LogicalID(sessions[id]), WindowID(sessions[id]));
    assert WindowID(sessions[id]) in WindowsIn(sessions, LogicalID(sessions[id]));
  }

  lemma PaneIsNamed(d: Daemon, id: string)
    requires GoodIds(d) && id in d.sessions
    ensures WindowID(d.sessions[id]) == d.sessions[id].window
  {
    assert GoodPane(d.sessions[id], id, d.nextSession, d.nextWindow);
  }

  lemma HasSibling(d: Daemon, p: Pane)
    requires GoodIds(d) && p.id in d.sessions && d.sessions[p.id] == p && Targets(d, LogicalID(p), p.window) != {p.id}
    ensures WindowID(p) == p.window && p.window in LiveWindows(d.sessions, LogicalID(p))
    ensures LiveWindows(d.sessions, LogicalID(p))[p.window] - {p.paneID} != {}
  {
    TargetsAre(d, LogicalID(p), p.window);
    PaneIDsDiffer(d, p.id);
    PaneIsNamed(d, p.id);
    hide *;
    MemberOfWindow(d.sessions, p.id);
    var targets := Targets(d, LogicalID(p), p.window);
    assert p.id in targets;
    Another(targets, p.id);
    var i :| i in targets && i != p.id;
    assert i in d.sessions && LogicalID(d.sessions[i]) == LogicalID(p) && WindowID(d.sessions[i]) == p.window;
    MemberOfWindow(d.sessions, i);
    assert d.sessions[i].paneID in LiveWindows(d.sessions, LogicalID(p))[p.window] - {p.paneID};
  }

  // What losing one pane of several leaves.
  ghost function Parted(d: Daemon, p: Pane, rest: set<string>): Daemon
    requires LogicalID(p) in d.topology && p.window in d.topology[LogicalID(p)].layouts && p.window in d.topology[LogicalID(p)].activePane
  {
    var l := LogicalID(p);
    Dropped(d, {p.id}).(topology := d.topology[l := Parts(d.topology[l], p.window, p.paneID, rest)])
  }

  lemma PartedTopology(d: Daemon, p: Pane)
    requires Inv(d) && p.id in d.sessions && d.sessions[p.id] == p && Targets(d, LogicalID(p), p.window) != {p.id}
    ensures var l := LogicalID(p); var windows := LiveWindows(d.sessions, l);
            && p.window in windows && l in d.topology && p.window in d.topology[l].layouts && p.window in d.topology[l].activePane
            && var t := Parts(d.topology[l], p.window, p.paneID, windows[p.window] - {p.paneID});
               && TopologyOf(Dropped(d, {p.id}), l) == t && Settled(t, LiveWindows(d.sessions - {p.id}, l))
               && l in Logicals(d.sessions - {p.id})
  {
    InvHasIds(d);
    PaneFacts(d, p.id);
    hide Inv, Settled, Normalized, Targets, LiveWindows, LogicalsOf, SessionOf, Logicals, Parts;
    HasSibling(d, p);
    PaneIDsDiffer(d, p.id);
    LiveIsSane(d, LogicalID(p));
    hide GoodIds;
    var l := LogicalID(p);
    var windows := LiveWindows(d.sessions, l);
    DroppedPane(d.sessions, p.id);
    PaneParts(d.topology[l], windows, p.window, p.paneID);
    PartedStays(d, p);
  }

  lemma PartingIs(d: Daemon, p: Pane)
    requires Inv(d) && p.id in d.sessions && d.sessions[p.id] == p && Targets(d, LogicalID(p), p.window) != {p.id}
    ensures var l := LogicalID(p); var windows := LiveWindows(d.sessions, l);
            var after := Reselected(Dropped(d, {p.id}), p.project, l, At(d.active, p.project, "") == l);
            && p.window in windows && l in d.topology && p.window in d.topology[l].layouts && p.window in d.topology[l].activePane
            && after == Parted(d, p, windows[p.window] - {p.paneID}) && Inv(after)
  {
    hide Inv, Settled, NextSelection, Projects, Targets, Reselected, LiveWindows, Logicals, TopologyOf, Parts;
    var l := LogicalID(p);
    PartedTopology(d, p);
    ProjectFacts(d, p);
    ReselectedIs(Dropped(d, {p.id}), p.project, l, At(d.active, p.project, "") == l);
    var after := Reselected(Dropped(d, {p.id}), p.project, l, At(d.active, p.project, "") == l);
    SelectionStays(d.active, after.active, after.sessions, l, p.project);
    LosingKeeps(d, after, {p.id}, l, p.project);
  }

  // A session that keeps a window stays.
  lemma PartedStays(d: Daemon, p: Pane)
    requires p.window in LiveWindows(d.sessions - {p.id}, LogicalID(p))
    ensures LogicalID(p) in Logicals(d.sessions - {p.id})
  {
    var less := d.sessions - {p.id};
    var id :| id in less && LogicalID(less[id]) == LogicalID(p);
  }

  lemma SelectionStays(active: map<string, string>, next: map<string, string>, less: Sessions, logical: string, project: string)
    requires logical in Logicals(less)
    ensures NextSelection(active, next, less, logical, project) <==> next == active
  {
  }

  // Destroying the only pane of a window closes the window; destroying one of several
  // takes its leaf alone, and leaves the window where it is.
  lemma DestroyIsExactly(d: Daemon, id: string)
    requires Inv(d) && !d.prepared && id in d.sessions
    ensures var p := d.sessions[id]; var l := LogicalID(p); var out := HandleDestroy(d, id);
            && out.error.None? && Inv(out.daemon)
            && if Targets(d, l, p.window) == {id} then Closes(d, out.daemon, {id}, l, p.project, p.window)
               else
                 && l in d.topology && p.window in d.topology[l].layouts && p.window in d.topology[l].activePane
                 && p.window in LiveWindows(d.sessions, l)
                 && out.daemon == Parted(d, p, LiveWindows(d.sessions, l)[p.window] - {p.paneID})
  {
    var p := d.sessions[id];
    PaneFacts(d, id);
    InvHasIds(d);
    assert p.id == id by { assert GoodPane(p, id, d.nextSession, d.nextWindow); }
    hide Inv, GoodIds, GoodPane, Settled, Reselected, ClosedPlacement, Closes, LiveWindows, LogicalID, TopologyOf, Logicals, LogicalsOf;
    if Targets(d, LogicalID(p), p.window) == {id} {
      ClosingIs(d, p, p.window);
    } else {
      PartingIs(d, p);
    }
  }

  lemma SplitKeeps(d: Daemon, paneID: string, direction: string, ratio: real, command: string, starts: bool)
    requires Inv(d)
    ensures Inv(HandleSplit(d, paneID, direction, ratio, command, starts).daemon)
  {
    hide Inv, CreateLocked, SessionOf, SplitPane, RemovePane, TopologyOf, Placeable;
    if !d.prepared && SessionOf(d, paneID).Some? && command != "" {
      if starts {
        SplitIs(d, paneID, direction, ratio, command);
      } else {
        var source := SessionOf(d, paneID).value;
        SessionOfIs(d, paneID);
        SourceIsPlaceable(d, source);
        CreateFails(d, source.project, source.logical, source.window);
        CreateKeeps(d, source.project, source.logical, source.window, false);
      }
    }
  }

  lemma NewWindowKeeps(d: Daemon, sessionID: string, command: string, starts: bool)
    requires Inv(d)
    ensures Inv(HandleNewWindow(d, sessionID, command, starts).daemon)
  {
    hide Inv, CreateLocked, LogicalSession, TopologyOf, Placeable, WithPane, NewPane, Entered;
    if !d.prepared && LogicalSession(d, sessionID).Some? && command != "" {
      if starts {
        NewWindowGoesLast(d, sessionID, command);
      } else {
        var source := LogicalSession(d, sessionID).value;
        LogicalSessionIs(d, sessionID);
        SourceIsPlaceable(d, source);
        CreateFails(d, source.project, source.logical, "");
        CreateKeeps(d, source.project, source.logical, "", false);
      }
    }
  }

  lemma ResizeKeeps(d: Daemon, sessionID: string, w: string, paneID: string, ratio: real)
    requires Inv(d)
    ensures Inv(HandleResizeSplit(d, sessionID, w, paneID, ratio).daemon)
  {
    hide Inv, LogicalSession, TopologyOf, PaneIsIn, ResizePane;
    if !d.prepared && LogicalSession(d, sessionID).Some? && PaneIsIn(d, paneID, LogicalID(LogicalSession(d, sessionID).value), w) {
      ResizeSetsTheRatio(d, sessionID, w, paneID, ratio);
    }
  }

  lemma HandleKeeps(d: Daemon, project: string, r: Request)
    requires Inv(d)
    ensures Inv(Handle(d, project, r).daemon)
  {
    hide Inv, HandleSplit, HandleNewWindow, HandleResizeSplit, HandleDestroy, HandleDestroyWindow, HandleSelectWindow, HandleSelectPane, HandleZoomPane, HandleReadTopology, Authorized;
    match r
    case Create(command, starts) =>
      hide CreateLocked;
      if command != "" && !d.prepared { CreateKeeps(d, ProjectName(project), "", "", starts); }
    case Split(paneID, direction, ratio, command, starts) => SplitKeeps(d, paneID, direction, ratio, command, starts);
    case NewWindow(sessionID, command, starts) => NewWindowKeeps(d, sessionID, command, starts);
    case ResizeSplit(sessionID, w, paneID, ratio) => ResizeKeeps(d, sessionID, w, paneID, ratio);
    case Destroy(sessionID) => DestroyKeeps(d, sessionID);
    case DestroyWindow(sessionID, w) => DestroyWindowKeeps(d, sessionID, w);
    case SelectWindow(sessionID, w) => SelectWindowKeeps(d, sessionID, w);
    case SelectPane(sessionID, w, paneID) => SelectPaneKeeps(d, sessionID, w, paneID);
    case ZoomPane(sessionID, w, paneID) => ZoomPaneKeeps(d, sessionID, w, paneID);
    case ReadTopology => ReadIsInvisible(d, ProjectName(project));
  }

  lemma DestroyKeeps(d: Daemon, id: string)
    requires Inv(d)
    ensures Inv(HandleDestroy(d, id).daemon)
  {
    hide Inv, Reselected, ClosedPlacement, Closes, Parted, Targets;
    if !d.prepared && id in d.sessions { DestroyIsExactly(d, id); }
  }

  lemma DestroyWindowKeeps(d: Daemon, sessionID: string, w: string)
    requires Inv(d)
    ensures Inv(HandleDestroyWindow(d, sessionID, w).daemon)
  {
    hide Inv, Reselected, ClosedPlacement, Closes, Targets, LogicalSession;
    if !d.prepared && LogicalSession(d, sessionID).Some? { DestroyWindowCloses(d, sessionID, w); }
  }

  // ---- Every run ---------------------------------------------------------

  // One of a run of requests, in the name of a project; `prepared` says whether a handoff
  // is being attempted when it arrives.
  datatype Call = Call(project: string, request: Request, prepared: bool)

  ghost function Served(d: Daemon, calls: seq<Call>): Daemon {
    if calls == [] then d
    else
      var before := Served(d, calls[..|calls| - 1]);
      var c := calls[|calls| - 1];
      Handle(before.(prepared := c.prepared), c.project, c.request).daemon
  }

  lemma EmptyHasInv()
    ensures Inv(Empty())
  {
    assert Logicals(map[]) == {} && Projects(map[]) == {};
  }

  lemma PreparingKeeps(d: Daemon, prepared: bool)
    requires Inv(d)
    ensures Inv(d.(prepared := prepared))
  {
    hide GoodPane, OneProject, GoodTopology, GoodActive, AllFollow;
  }

  lemma {:induction false} ServedKeeps(calls: seq<Call>)
    ensures Inv(Served(Empty(), calls))
  {
    hide Inv, Handle;
    if calls == [] {
      EmptyHasInv();
    } else {
      ServedKeeps(calls[..|calls| - 1]);
      var before, c := Served(Empty(), calls[..|calls| - 1]), calls[|calls| - 1];
      PreparingKeeps(before, c.prepared);
      HandleKeeps(before.(prepared := c.prepared), c.project, c.request);
    }
  }

  // From an empty daemon, after any requests whatever: every logical session's topology is
  // settled over its live windows, so normalising it changes nothing; and every project
  // that has a session is in one of its own.
  lemma TopologyIsClosed(calls: seq<Call>, logical: string)
    ensures var d := Served(Empty(), calls);
            && (logical in d.topology <==> logical in Logicals(d.sessions))
            && (logical in d.topology ==>
                  Settled(d.topology[logical], LiveWindows(d.sessions, logical)) && TopologyOf(d, logical) == d.topology[logical])
            && d.active.Keys == Projects(d.sessions)
            && forall project | project in d.active :: d.active[project] in LogicalsOf(d.sessions, project)
  {
    hide Settled, LiveWindows, TopologyOf, Served;
    ServedKeeps(calls);
    var d := Served(Empty(), calls);
    if logical in d.topology { AtRest(d, logical); }
  }
}
