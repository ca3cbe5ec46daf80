// The topology operations as the daemon runs them: fields updated in place, each operation
// proved to be its specification.
module DaemonOperations {
  import opened Text
  import opened Layout
  import opened Topology
  import opened Operations
  import opened TopologyClosure

  // Deleting what belongs to no live window.
  method Retain<T>(m: map<string, T>, windows: set<string>) returns (r: map<string, T>)
    ensures r == map w | w in m && w in windows :: m[w]
  {
    r := m;
    var rest := m.Keys;
    while rest != {}
      invariant rest <= m.Keys && r == map w | w in m && (w in rest || w in windows) :: m[w]
      decreases |rest|
    {
      var w :| w in rest;
      rest := rest - {w};
      if w !in windows { r := r - {w}; }
    }
  }

  // What the loop of topologyStateLocked has made of a map when it has come past `done`.
  ghost predicate Partly<T>(r: map<string, T>, kept: map<string, T>, final: map<string, T>, done: set<string>) {
    r.Keys == kept.Keys + done && forall w | w in r :: if w in done then w in final && r[w] == final[w] else w in kept && r[w] == kept[w]
  }

  lemma PartlyGoesOn<T>(r: map<string, T>, kept: map<string, T>, final: map<string, T>, done: set<string>, w: string)
    requires Partly(r, kept, final, done) && w !in done && w in final
    ensures w in r <==> w in kept
    ensures w in r ==> r[w] == kept[w]
    ensures Partly(r[w := final[w]], kept, final, done + {w})
  {
  }

  lemma PartlyEnds<T>(r: map<string, T>, kept: map<string, T>, final: map<string, T>, done: set<string>)
    requires Partly(r, kept, final, done) && done == final.Keys && kept.Keys <= final.Keys
    ensures r == final
  {
  }

  // One turn of that loop.
  method SettleWindow(w: string, panes: set<string>, activePane: map<string, string>, zoomed: map<string, string>, layouts: map<string, Layout>)
    returns (a: map<string, string>, z: map<string, string>, l: map<string, Layout>)
    ensures a == activePane[w := NormalPane(At(activePane, w, ""), panes)]
    ensures z == if w in zoomed then zoomed[w := NormalZoom(zoomed[w], panes)] else zoomed
    ensures l == layouts[w := Normalize(At(layouts, w, Nil), panes)]
  {
    hide Normalize, NormalPane;
    var paneID := FocusedPane(At(activePane, w, ""), panes);
    a := activePane[w := paneID];
    z := zoomed;
    if w in zoomed {
      if zoomed[w] != "" && zoomed[w] !in panes { z := zoomed[w := ""]; } else { assert zoomed[w := zoomed[w]] == zoomed; }
    }
    var layout := NormalizeLayout(At(layouts, w, Nil), panes);
    l := layouts[w := layout];
  }

  // What has been settled of a session's maps when the loop has come past `done`.
  ghost predicate Settling(t: State, byWindow: Windows, activePane: map<string, string>, zoomed: map<string, string>,
                           layouts: map<string, Layout>, done: set<string>) {
    var panes0 := map w | w in t.activePane && w in byWindow.Keys :: t.activePane[w];
    var zoomed0 := map w | w in t.zoomed && w in byWindow.Keys :: t.zoomed[w];
    var layouts0 := map w | w in t.layouts && w in byWindow.Keys :: t.layouts[w];
    && Partly(activePane, panes0, NormalPanes(t.activePane, byWindow), done)
    && Partly(zoomed, zoomed0, NormalZooms(t.zoomed, byWindow), done * zoomed0.Keys)
    && Partly(layouts, layouts0, NormalLayouts(t.layouts, byWindow), done)
  }

  lemma SettlingBegins(t: State, byWindow: Windows)
    ensures Settling(t, byWindow, map w | w in t.activePane && w in byWindow.Keys :: t.activePane[w],
                     map w | w in t.zoomed && w in byWindow.Keys :: t.zoomed[w],
                     map w | w in t.layouts && w in byWindow.Keys :: t.layouts[w], {})
  {
    hide NormalPanes, NormalZooms, NormalLayouts;
    var zoomed0 := map w | w in t.zoomed && w in byWindow.Keys :: t.zoomed[w];
    assert {} * zoomed0.Keys == {};
  }

  lemma SettlingGoesOn(t: State, byWindow: Windows, activePane: map<string, string>, zoomed: map<string, string>,
                       layouts: map<string, Layout>, done: set<string>, w: string)
    requires Settling(t, byWindow, activePane, zoomed, layouts, done) && w in byWindow && w !in done
    ensures Settling(t, byWindow, activePane[w := NormalPane(At(activePane, w, ""), byWindow[w])],
                     if w in zoomed then zoomed[w := NormalZoom(zoomed[w], byWindow[w])] else zoomed,
                     layouts[w := Normalize(At(layouts, w, Nil), byWindow[w])], done + {w})
  {
    hide Partly, Normalize, NormalPane;
    var panes0 := map v | v in t.activePane && v in byWindow.Keys :: t.activePane[v];
    var zoomed0 := map v | v in t.zoomed && v in byWindow.Keys :: t.zoomed[v];
    var layouts0 := map v | v in t.layouts && v in byWindow.Keys :: t.layouts[v];
    PartlyGoesOn(activePane, panes0, NormalPanes(t.activePane, byWindow), done, w);
    PartlyGoesOn(layouts, layouts0, NormalLayouts(t.layouts, byWindow), done, w);
    if w in zoomed0 {
      PartlyGoesOn(zoomed, zoomed0, NormalZooms(t.zoomed, byWindow), done * zoomed0.Keys, w);
      assert done * zoomed0.Keys + {w} == (done + {w}) * zoomed0.Keys;
    } else {
      assert done * zoomed0.Keys == (done + {w}) * zoomed0.Keys;
      PartlyWithout(zoomed, zoomed0, NormalZooms(t.zoomed, byWindow), done * zoomed0.Keys, w);
    }
  }

  lemma SettlingEnds(t: State, byWindow: Windows, activePane: map<string, string>, zoomed: map<string, string>,
                     layouts: map<string, Layout>, done: set<string>)
    requires Settling(t, byWindow, activePane, zoomed, layouts, done) && done == byWindow.Keys
    ensures activePane == NormalPanes(t.activePane, byWindow) && zoomed == NormalZooms(t.zoomed, byWindow)
    ensures layouts == NormalLayouts(t.layouts, byWindow)
  {
    hide Partly, Normalize, NormalPane;
    var panes0 := map v | v in t.activePane && v in byWindow.Keys :: t.activePane[v];
    var zoomed0 := map v | v in t.zoomed && v in byWindow.Keys :: t.zoomed[v];
    var layouts0 := map v | v in t.layouts && v in byWindow.Keys :: t.layouts[v];
    PartlyEnds(activePane, panes0, NormalPanes(t.activePane, byWindow), done);
    PartlyEnds(zoomed, zoomed0, NormalZooms(t.zoomed, byWindow), done * zoomed0.Keys);
    PartlyEnds(layouts, layouts0, NormalLayouts(t.layouts, byWindow), done);
  }

  // topologyStateLocked, given the live panes by window.
  method NormalizeState(t: State, byWindow: Windows) returns (r: State)
    ensures r == Normalized(t, byWindow)
  {
    hide Normalize, NormalPane, NormalizeOrder, Settling, Distinct, Elements, NormalPanes, NormalZooms, NormalLayouts;
    var order := NormalizeWindowOrder(t.order, byWindow.Keys);
    NormalizeOrderIsExactly(t.order, byWindow.Keys);
    var activeWindow := t.activeWindow;
    if activeWindow !in byWindow { activeWindow := First(order); }
    var activePane := Retain(t.activePane, byWindow.Keys);
    var zoomed := Retain(t.zoomed, byWindow.Keys);
    var layouts := Retain(t.layouts, byWindow.Keys);
    ghost var done: set<string> := {};
    SettlingBegins(t, byWindow);
    var i := 0;
    NoneOf(order);
    while i < |order|
      invariant i <= |order| && done == Elements(order[..i])
      invariant Settling(t, byWindow, activePane, zoomed, layouts, done)
    {
      OneMoreOf(order, i);
      SettlingGoesOn(t, byWindow, activePane, zoomed, layouts, done, order[i]);
      activePane, zoomed, layouts := SettleWindow(order[i], byWindow[order[i]], activePane, zoomed, layouts);
      done := done + {order[i]};
      i := i + 1;
    }
    assert order[..i] == order;
    SettlingEnds(t, byWindow, activePane, zoomed, layouts, done);
    r := State(activeWindow, order, activePane, zoomed, layouts);
  }

  lemma PartlyWithout<T>(r: map<string, T>, kept: map<string, T>, final: map<string, T>, done: set<string>, w: string)
    requires Partly(r, kept, final, done) && w !in kept && w !in done
    ensures w !in r
  {
  }

  lemma NoneOf(order: seq<string>)
    ensures Elements(order[..0]) == {}
  {
  }

  lemma OneMoreOf(order: seq<string>, i: nat)
    requires Distinct(order) && i < |order|
    ensures order[i] in Elements(order) && order[i] !in Elements(order[..i])
    ensures Elements(order[..i + 1]) == Elements(order[..i]) + {order[i]}
  {
    assert order[..i + 1] == order[..i] + [order[i]];
    JoinedLists(order[..i], [order[i]]);
  }

  method FocusedPane(paneID: string, panes: set<string>) returns (r: string)
    ensures r == NormalPane(paneID, panes)
  {
    r := paneID;
    if paneID !in panes {
      var keys := SortedMapKeys(panes);
      r := First(keys);
    }
  }

  // removeWindowPlacement.
  method RemoveWindowPlacement(t: State, windowID: string) returns (r: State)
    ensures r == RemovePlacement(t, windowID)
  {
    hide IndexOf;
    var index := Index(t.order, windowID);
    var order := t.order;
    if index < |t.order| { order := t.order[..index] + t.order[index + 1..]; }
    var activeWindow := t.activeWindow;
    if activeWindow == windowID {
      if index < |t.order| && index < |order| {
        activeWindow := order[index];
      } else if |order| > 0 {
        activeWindow := order[|order| - 1];
      } else {
        activeWindow := "";
      }
    }
    r := State(activeWindow, order, t.activePane - {windowID}, t.zoomed - {windowID}, t.layouts - {windowID});
  }

  method Index(order: seq<string>, w: string) returns (i: nat)
    ensures i == IndexOf(order, w)
  {
    i := 0;
    while i < |order| && order[i] != w
      invariant i <= |order| && IndexOf(order, w) == i + IndexOf(order[i..], w)
    {
      assert order[i..][1..] == order[i + 1..];
      i := i + 1;
    }
  }

  // Any pane of a logical session will do: they agree on what the operations use.
  lemma SiblingsAgree(d: Daemon, p: Pane, q: Pane)
    requires Inv(d) && p.id in d.sessions && d.sessions[p.id] == p && q.id in d.sessions && d.sessions[q.id] == q
    requires LogicalID(p) == LogicalID(q)
    ensures p.logical == q.logical == LogicalID(p) && p.project == q.project
  {
    assert GoodPane(p, p.id, d.nextSession, d.nextWindow) && GoodPane(q, q.id, d.nextSession, d.nextWindow);
    hide GoodPane, GoodTopology, GoodActive, AllFollow;
  }

  // The pane a request's session ID leads to, as far as the operations look at it.
  ghost predicate Leads(d: Daemon, sessionID: string, found: Option<Pane>) {
    && (found.Some? <==> LogicalSession(d, sessionID).Some?)
    && (found.Some? ==>
          var p, q := found.value, LogicalSession(d, sessionID).value;
          && p.id in d.sessions && d.sessions[p.id] == p
          && p.logical == q.logical && LogicalID(p) == LogicalID(q) && p.project == q.project)
  }

  lemma FoundLeads(d: Daemon, sessionID: string, p: Pane)
    requires Inv(d) && p.id in d.sessions && d.sessions[p.id] == p
    requires p.id == sessionID || (sessionID !in d.sessions && LogicalID(p) == sessionID)
    ensures Leads(d, sessionID, Some(p))
  {
    if sessionID !in d.sessions {
      assert sessionID in Logicals(d.sessions);
      var q := LogicalSession(d, sessionID).value;
      LogicalSessionIs(d, sessionID);
      hide Inv;
      SiblingsAgree(d, p, q);
    }
  }

  class LiveDaemon {
    var sessions: Sessions
    var panes: map<string, string>
    var topologyState: map<string, State>
    var activeLogicalByProject: map<string, string>
    var nextSession: nat
    var nextWindow: nat
    var handoffPrepared: bool

    ghost function Value(): Daemon
      reads this
    {
      Daemon(sessions, panes, topologyState, activeLogicalByProject, nextSession, nextWindow, handoffPrepared)
    }

    constructor ()
      ensures Value() == Empty()
    {
      sessions, panes, topologyState, activeLogicalByProject := map[], map[], map[], map[];
      nextSession, nextWindow, handoffPrepared := 0, 0, false;
    }

    method LogicalSessionLocked(sessionID: string) returns (found: Option<Pane>)
      requires Inv(Value())
      ensures Leads(Value(), sessionID, found)
    {
      hide GoodPane, OneProject, GoodTopology, GoodActive, AllFollow;
      ghost var d := Value();
      assert forall id | id in sessions :: GoodPane(sessions[id], id, nextSession, nextWindow);
      IdsMatch(d);
      if sessionID in sessions {
        FoundLeads(d, sessionID, sessions[sessionID]);
        return Some(sessions[sessionID]);
      }
      var rest := sessions.Keys;
      while rest != {}
        invariant rest <= sessions.Keys
        invariant forall id | id in sessions && id !in rest :: LogicalID(sessions[id]) != sessionID
        decreases |rest|
      {
        var id :| id in rest;
        if LogicalID(sessions[id]) == sessionID {
          FoundLeads(d, sessionID, sessions[id]);
          return Some(sessions[id]);
        }
        rest := rest - {id};
      }
      return None;
    }

    // The loop of topologyStateLocked that gathers the live panes by window.
    method GatherWindows(logicalID: string) returns (byWindow: Windows)
      ensures byWindow == LiveWindows(sessions, logicalID)
    {
      hide LiveWindows;
      byWindow := map[];
      var rest := sessions.Keys;
      ghost var seen: Sessions := map[];
      NoWindows(seen, logicalID);
      while rest != {}
        invariant rest <= sessions.Keys && seen.Keys == sessions.Keys - rest
        invariant forall id | id in seen :: seen[id] == sessions[id]
        invariant byWindow == LiveWindows(seen, logicalID)
        decreases |rest|
      {
        var id :| id in rest;
        var p := sessions[id];
        AddedWindows(seen, id, p, logicalID);
        if LogicalID(p) == logicalID {
          var windowID := WindowID(p);
          var windowPanes := At(byWindow, windowID, {});
          byWindow := byWindow[windowID := windowPanes + {p.paneID}];
        }
        seen := seen[id := p];
        rest := rest - {id};
      }
      assert seen == sessions;
    }

    // topologyStateLocked.
    method TopologyStateLocked(logicalID: string) returns (t: State)
      modifies this`topologyState
      ensures t == TopologyOf(old(Value()), logicalID) && Value() == Touched(old(Value()), logicalID)
    {
      hide Normalized, LiveWindows;
      var byWindow := GatherWindows(logicalID);
      t := NormalizeState(At(topologyState, logicalID, Fresh()), byWindow);
      topologyState := topologyState[logicalID := t];
    }

    // observePaneTopologyLocked.
    method ObservePane(logicalID: string, windowID: string, paneID: string)
      modifies this`topologyState
      ensures Value() == WithTopology(old(Value()), logicalID, Observed(TopologyOf(old(Value()), logicalID), windowID, paneID))
    {
      hide TopologyOf, HasPane, AppendPane;
      var t := TopologyStateLocked(logicalID);
      t := t.(activeWindow := windowID, activePane := t.activePane[windowID := paneID]);
      var layout := At(t.layouts, windowID, Nil);
      if !HasPane(layout, paneID) { t := t.(layouts := t.layouts[windowID := AppendPane(layout, paneID)]); }
      SetTwice(old(topologyState), logicalID, t);
      topologyState := topologyState[logicalID := t];
    }

    // createLocked.
    method CreatePane(project: string, logical: string, window: string, starts: bool) returns (pane: Option<Pane>)
      modifies this
      ensures Created(Value(), pane) == CreateLocked(old(Value()), project, logical, window, starts)
    {
      hide TopologyOf, Observed, Named, LogicalID;
      nextSession := nextSession + 1;
      var id, paneID := Named("session-", nextSession), Named("pane-", nextSession);
      var logicalSessionID := if logical == "" then id else logical;
      var windowID := window;
      if windowID == "" {
        nextWindow := nextWindow + 1;
        windowID := Named("window-", nextWindow);
      }
      if !starts { return None; }
      var p := Pane(id, paneID, project, logicalSessionID, windowID);
      sessions := sessions[id := p];
      panes := panes[paneID := id];
      activeLogicalByProject := activeLogicalByProject[project := LogicalID(p)];
      ObservePane(LogicalID(p), windowID, paneID);
      return Some(p);
    }

    method Create(project: string, command: string, starts: bool) returns (error: Option<Error>)
      modifies this
      ensures Outcome(Value(), error) == HandleCreate(old(Value()), project, command, starts)
    {
      hide CreateLocked;
      if command == "" { return Some(CommandRequired); }
      if handoffPrepared { return Some(HandoffInProgress); }
      var pane := CreatePane(project, "", "", starts);
      return if pane.None? then Some(StartFailed) else None;
    }

    method Split(paneID: string, direction: string, ratio: real, command: string, starts: bool) returns (error: Option<Error>)
      modifies this
      ensures Outcome(Value(), error) == HandleSplit(old(Value()), paneID, direction, ratio, command, starts)
    {
      hide CreateLocked, TopologyOf, RemovePane, SplitPane;
      if handoffPrepared { return Some(HandoffInProgress); }
      var found := RequirePane(paneID);
      if found.None? { return Some(PaneNotFound); }
      if command == "" { return Some(CommandRequired); }
      var source := found.value;
      var created := CreatePane(source.project, source.logical, source.window, starts);
      if created.None? { return Some(StartFailed); }
      var t := TopologyStateLocked(source.logical);
      var base := RemovePane(At(t.layouts, source.window, Nil), created.value.paneID);
      t := t.(layouts := t.layouts[source.window := SplitPane(base, paneID, created.value.paneID, direction, ratio)]);
      t := t.(activeWindow := source.window, activePane := t.activePane[source.window := created.value.paneID]);
      SetTwice(topologyState, source.logical, t);
      topologyState := topologyState[source.logical := t];
      return None;
    }

    method RequirePane(paneID: string) returns (found: Option<Pane>)
      ensures found == SessionOf(Value(), paneID)
    {
      if paneID in panes && panes[paneID] in sessions { return Some(sessions[panes[paneID]]); }
      return None;
    }

    method NewWindow(sessionID: string, command: string, starts: bool) returns (error: Option<Error>)
      requires Inv(Value())
      modifies this
      ensures Outcome(Value(), error) == HandleNewWindow(old(Value()), sessionID, command, starts)
    {
      hide CreateLocked, TopologyOf, Inv, LogicalSession, LogicalID;
      if handoffPrepared { return Some(HandoffInProgress); }
      var found := LogicalSessionLocked(sessionID);
      if found.None? { return Some(SessionNotFound); }
      if command == "" { return Some(CommandRequired); }
      var source := found.value;
      var created := CreatePane(source.project, source.logical, "", starts);
      if created.None? { return Some(StartFailed); }
      var t := TopologyStateLocked(source.logical);
      t := t.(activeWindow := created.value.window, activePane := t.activePane[created.value.window := created.value.paneID]);
      SetTwice(topologyState, source.logical, t);
      topologyState := topologyState[source.logical := t];
      return None;
    }

    method ResizeSplit(sessionID: string, windowID: string, paneID: string, ratio: real) returns (error: Option<Error>)
      requires Inv(Value())
      modifies this
      ensures Outcome(Value(), error) == HandleResizeSplit(old(Value()), sessionID, windowID, paneID, ratio)
    {
      hide TopologyOf, Inv, LogicalSession, LogicalID, ResizePane;
      if handoffPrepared { return Some(HandoffInProgress); }
      var found := LogicalSessionLocked(sessionID);
      if found.None? { return Some(SessionNotFound); }
      var logicalID := LogicalID(found.value);
      var pane := RequirePane(paneID);
      if pane.None? || LogicalID(pane.value) != logicalID || pane.value.window != windowID { return Some(PaneNotFound); }
      var t := TopologyStateLocked(logicalID);
      var resized := ResizePane(At(t.layouts, windowID, Nil), paneID, ratio);
      if !resized.changed { return Some(NoResizableSplit); }
      t := t.(layouts := t.layouts[windowID := resized.layout]);
      SetTwice(topologyState, logicalID, t);
      topologyState := topologyState[logicalID := t];
      return None;
    }

    // windowBelongsToLogicalSessionLocked.
    method WindowBelongs(logicalID: string, windowID: string) returns (found: bool)
      ensures found == HasWindow(Value(), logicalID, windowID)
    {
      var rest := sessions.Keys;
      while rest != {}
        invariant rest <= sessions.Keys
        invariant forall id | id in sessions && id !in rest :: !(LogicalID(sessions[id]) == logicalID && sessions[id].window == windowID)
        decreases |rest|
      {
        var id :| id in rest;
        if LogicalID(sessions[id]) == logicalID && sessions[id].window == windowID { return true; }
        rest := rest - {id};
      }
      return false;
    }

    method SelectWindow(sessionID: string, windowID: string) returns (error: Option<Error>)
      requires Inv(Value())
      modifies this
      ensures Outcome(Value(), error) == HandleSelectWindow(old(Value()), sessionID, windowID)
    {
      hide TopologyOf, Inv, LogicalSession, LogicalID, HasWindow;
      if handoffPrepared { return Some(HandoffInProgress); }
      var found := LogicalSessionLocked(sessionID);
      if found.None? { return Some(SessionNotFound); }
      var logicalID := LogicalID(found.value);
      var belongs := WindowBelongs(logicalID, windowID);
      if !belongs { return Some(SessionNotFound); }
      activeLogicalByProject := activeLogicalByProject[found.value.project := logicalID];
      SelectionIsApart(old(Value()), activeLogicalByProject, logicalID);
      var t := TopologyStateLocked(logicalID);
      t := t.(activeWindow := windowID);
      SetTwice(topologyState, logicalID, t);
      topologyState := topologyState[logicalID := t];
      return None;
    }

    method SelectPane(sessionID: string, windowID: string, paneID: string) returns (error: Option<Error>)
      requires Inv(Value())
      modifies this
      ensures Outcome(Value(), error) == HandleSelectPane(old(Value()), sessionID, windowID, paneID)
    {
      hide TopologyOf, Inv, LogicalSession, LogicalID;
      if handoffPrepared { return Some(HandoffInProgress); }
      var found := LogicalSessionLocked(sessionID);
      if found.None? { return Some(SessionNotFound); }
      var logicalID := LogicalID(found.value);
      var pane := RequirePane(paneID);
      if pane.None? || LogicalID(pane.value) != logicalID || pane.value.window != windowID { return Some(PaneNotFound); }
      var t := TopologyStateLocked(logicalID);
      activeLogicalByProject := activeLogicalByProject[pane.value.project := logicalID];
      t := t.(activeWindow := windowID, activePane := t.activePane[windowID := paneID]);
      SetTwice(topologyState, logicalID, t);
      topologyState := topologyState[logicalID := t];
      return None;
    }

    method ZoomPane(sessionID: string, windowID: string, paneID: string) returns (error: Option<Error>)
      requires Inv(Value())
      modifies this
      ensures Outcome(Value(), error) == HandleZoomPane(old(Value()), sessionID, windowID, paneID)
    {
      hide TopologyOf, Inv, LogicalSession, LogicalID, HasWindow;
      if handoffPrepared { return Some(HandoffInProgress); }
      var found := LogicalSessionLocked(sessionID);
      if found.None? { return Some(SessionNotFound); }
      var logicalID := LogicalID(found.value);
      var belongs := WindowBelongs(logicalID, windowID);
      if !belongs { return Some(SessionNotFound); }
      if paneID != "" {
        var pane := RequirePane(paneID);
        if pane.None? || LogicalID(pane.value) != logicalID || pane.value.window != windowID { return Some(PaneNotFound); }
      }
      var t := TopologyStateLocked(logicalID);
      t := t.(activeWindow := windowID);
      if paneID != "" { t := t.(activePane := t.activePane[windowID := paneID]); }
      t := t.(zoomed := t.zoomed[windowID := paneID]);
      SetTwice(topologyState, logicalID, t);
      topologyState := topologyState[logicalID := t];
      return None;
    }

    // windowPaneCountLocked.
    method WindowPanes(logicalID: string, windowID: string) returns (ids: set<string>, count: nat)
      ensures ids == Targets(Value(), logicalID, windowID) && count == |ids|
    {
      ids, count := {}, 0;
      var rest := sessions.Keys;
      while rest != {}
        invariant rest <= sessions.Keys && count == |ids| && ids !! rest
        invariant ids == set id | id in sessions && id !in rest && LogicalID(sessions[id]) == logicalID && sessions[id].window == windowID
        decreases |rest|
      {
        var id :| id in rest;
        if LogicalID(sessions[id]) == logicalID && sessions[id].window == windowID {
          ids, count := ids + {id}, count + 1;
        }
        rest := rest - {id};
      }
    }

    // hasLogicalSessionLocked.
    method HasLogicalSession(logicalID: string) returns (found: bool)
      ensures found == (logicalID in Logicals(sessions))
    {
      var rest := sessions.Keys;
      while rest != {}
        invariant rest <= sessions.Keys
        invariant forall id | id in sessions && id !in rest :: LogicalID(sessions[id]) != logicalID
        decreases |rest|
      {
        var id :| id in rest;
        if LogicalID(sessions[id]) == logicalID { return true; }
        rest := rest - {id};
      }
      return false;
    }

    // destroyManagedSessionLocked, over a process that stops.
    method DestroyManaged(id: string)
      requires id in sessions
      modifies this
      ensures Value() == Dropped(old(Value()), {id})
    {
      var paneID := sessions[id].paneID;
      sessions := sessions - {id};
      panes := panes - {paneID};
      assert (set i | i in {id} && i in old(sessions) :: old(sessions)[i].paneID) == {paneID};
    }

    // What destroy and destroyWindow do once the panes are gone.
    method Reselect(project: string, logicalID: string, wasActive: bool)
      modifies this
      ensures Value() == Reselected(old(Value()), project, logicalID, wasActive)
    {
      hide TopologyOf, IsLeast;
      var left := HasLogicalSession(logicalID);
      if left {
        var _ := TopologyStateLocked(logicalID);
        return;
      }
      topologyState := topologyState - {logicalID};
      if !wasActive { return; }
      var candidates := ProjectLogicals(project);
      if candidates == {} {
        activeLogicalByProject := activeLogicalByProject - {project};
      } else {
        var first := Least(candidates);
        forall other | IsLeast(other, candidates) ensures other == first { LeastIsUnique(other, first, candidates); }
        activeLogicalByProject := activeLogicalByProject[project := first];
      }
    }

    method ProjectLogicals(project: string) returns (logicals: set<string>)
      ensures logicals == LogicalsOf(sessions, project)
    {
      logicals := {};
      var rest := sessions.Keys;
      while rest != {}
        invariant rest <= sessions.Keys
        invariant logicals == set id | id in sessions && id !in rest && sessions[id].project == project :: LogicalID(sessions[id])
        decreases |rest|
      {
        var id :| id in rest;
        if sessions[id].project == project { logicals := logicals + {LogicalID(sessions[id])}; }
        rest := rest - {id};
      }
    }

    method Destroy(sessionID: string) returns (error: Option<Error>)
      modifies this
      ensures Outcome(Value(), error) == HandleDestroy(old(Value()), sessionID)
    {
      hide TopologyOf, Reselected, RemovePlacement, LogicalID;
      if handoffPrepared { return Some(HandoffInProgress); }
      if sessionID !in sessions { return Some(SessionNotFound); }
      var p := sessions[sessionID];
      var logicalID := LogicalID(p);
      var wasActive := At(activeLogicalByProject, p.project, "") == logicalID;
      var ids, count := WindowPanes(logicalID, p.window);
      OneMember(ids, sessionID);
      if count == 1 { ClosePlacement(logicalID, p.window); }
      DestroyManaged(sessionID);
      Reselect(p.project, logicalID, wasActive);
      return None;
    }

    method ClosePlacement(logicalID: string, windowID: string)
      modifies this`topologyState
      ensures Value() == ClosedPlacement(old(Value()), logicalID, windowID)
    {
      hide TopologyOf;
      var t := TopologyStateLocked(logicalID);
      t := RemoveWindowPlacement(t, windowID);
      SetTwice(old(topologyState), logicalID, t);
      topologyState := topologyState[logicalID := t];
    }

    method DestroyWindow(sessionID: string, windowID: string) returns (error: Option<Error>)
      requires Inv(Value())
      modifies this
      ensures Outcome(Value(), error) == HandleDestroyWindow(old(Value()), sessionID, windowID)
    {
      hide TopologyOf, Reselected, Inv, LogicalSession, LogicalID, Targets, ClosedPlacement;
      if handoffPrepared { return Some(HandoffInProgress); }
      var found := LogicalSessionLocked(sessionID);
      if found.None? { return Some(SessionNotFound); }
      var root := found.value;
      var logicalID := LogicalID(root);
      var wasActive := At(activeLogicalByProject, root.project, "") == logicalID;
      var targets, count := WindowPanes(logicalID, windowID);
      if count == 0 { return Some(SessionNotFound); }
      TargetsAreLive(Value(), logicalID, windowID);
      ClosePlacement(logicalID, windowID);
      DestroyAll(targets);
      Reselect(root.project, logicalID, wasActive);
      return None;
    }

    method DestroyAll(targets: set<string>)
      requires targets <= sessions.Keys
      modifies this
      ensures Value() == Dropped(old(Value()), targets)
    {
      ghost var d := Value();
      var rest := targets;
      DroppedNone(d);
      assert targets - rest == {};
      while rest != {}
        invariant rest <= targets && rest <= sessions.Keys && Value() == Dropped(d, targets - rest)
        decreases |rest|
      {
        var id :| id in rest;
        DestroyManaged(id);
        DroppedTwice(d, targets - rest, id);
        assert targets - rest + {id} == targets - (rest - {id});
        rest := rest - {id};
      }
      assert targets - {} == targets;
    }

    // topologyLocked, as far as it changes the daemon: each session it shows is normalised.
    method ReadTopology(project: string)
      modifies this`topologyState
      ensures Outcome(Value(), None) == HandleReadTopology(old(Value()), project)
    {
      hide Shown, Touched, LogicalsOf;
      ghost var d := Value();
      var shown := ProjectLogicals(project);
      var rest := shown;
      ShownNone(d);
      assert shown - rest == {};
      while rest != {}
        invariant rest <= shown && Value() == Shown(d, shown - rest)
        decreases |rest|
      {
        var l :| l in rest;
        ShownOneMore(d, shown - rest, l);
        assert shown - rest + {l} == shown - (rest - {l});
        var _ := TopologyStateLocked(l);
        rest := rest - {l};
      }
      assert shown - {} == shown;
    }

    // authorizeProject.
    method Authorize(project: string, sessionID: string, paneID: string) returns (ok: bool)
      requires Inv(Value())
      ensures ok == Authorized(Value(), project, sessionID, paneID)
    {
      hide Inv, LogicalSession, SessionOf;
      if sessionID != "" {
        var found := LogicalSessionLocked(sessionID);
        if found.Some? && found.value.project != project { return false; }
      }
      if paneID != "" {
        var pane := RequirePane(paneID);
        if pane.Some? && pane.value.project != project { return false; }
      }
      return true;
    }

    // Handle: one request, in the name of a project.
    method Serve(named: string, r: Request) returns (error: Option<Error>)
      requires Inv(Value())
      modifies this
      ensures Outcome(Value(), error) == Handle(old(Value()), named, r) && Inv(Value())
    {
      var project := ProjectName(named);
      hide Inv, Authorized, HandleCreate, HandleSplit, HandleNewWindow, HandleResizeSplit, HandleDestroy, HandleDestroyWindow, HandleSelectWindow, HandleSelectPane, HandleZoomPane, HandleReadTopology;
      HandleKeeps(Value(), named, r);
      var ok := Authorize(project, SessionNamed(r), PaneNamed(r));
      if !ok { return Some(ProjectScope); }
      match r
      case Create(command, starts) => error := Create(project, command, starts);
      case Split(paneID, direction, ratio, command, starts) => error := Split(paneID, direction, ratio, command, starts);
      case NewWindow(sessionID, command, starts) => error := NewWindow(sessionID, command, starts);
      case ResizeSplit(sessionID, windowID, paneID, ratio) => error := ResizeSplit(sessionID, windowID, paneID, ratio);
      case Destroy(sessionID) => error := Destroy(sessionID);
      case DestroyWindow(sessionID, windowID) => error := DestroyWindow(sessionID, windowID);
      case SelectWindow(sessionID, windowID) => error := SelectWindow(sessionID, windowID);
      case SelectPane(sessionID, windowID, paneID) => error := SelectPane(sessionID, windowID, paneID);
      case ZoomPane(sessionID, windowID, paneID) => error := ZoomPane(sessionID, windowID, paneID);
      case ReadTopology =>
        ReadTopology(project);
        error := None;
    }
  }

  lemma OneMember(s: set<string>, x: string)
    requires x in s
    ensures |s| == 1 <==> s == {x}
  {
    assert s == (s - {x}) + {x} && |s| == |s - {x}| + 1;
  }

  lemma TargetsAreLive(d: Daemon, logical: string, w: string)
    ensures Targets(d, logical, w) <= d.sessions.Keys
  {
  }

  lemma DroppedNone(d: Daemon)
    ensures Dropped(d, {}) == d
  {
    assert forall q | q in d.panes :: q in Dropped(d, {}).panes;
  }

  lemma ShownNone(d: Daemon)
    ensures Shown(d, {}) == d
  {
    assert d.topology.Keys + {} == d.topology.Keys;
  }

  lemma ShownOneMore(d: Daemon, logicals: set<string>, l: string)
    requires l !in logicals
    ensures Shown(d, logicals + {l}) == Touched(Shown(d, logicals), l)
  {
    hide Normalized, LiveWindows;
    var some := Shown(d, logicals);
    assert At(some.topology, l, Fresh()) == At(d.topology, l, Fresh());
    assert Shown(d, logicals + {l}).topology == some.topology[l := TopologyOf(d, l)];
  }

  lemma DroppedTwice(d: Daemon, ids: set<string>, id: string)
    requires id in d.sessions && id !in ids
    ensures Dropped(Dropped(d, ids), {id}) == Dropped(d, ids + {id})
  {
    var less := Dropped(d, ids);
    assert less.sessions[id] == d.sessions[id];
    assert (set i | i in {id} && i in less.sessions :: less.sessions[i].paneID) == {d.sessions[id].paneID};
    assert (set i | i in ids + {id} && i in d.sessions :: d.sessions[i].paneID)
        == (set i | i in ids && i in d.sessions :: d.sessions[i].paneID) + {d.sessions[id].paneID};
    assert d.sessions - ids - {id} == d.sessions - (ids + {id});
  }

  lemma SetTwice<T>(m: map<string, T>, key: string, value: T)
    ensures forall before {:trigger m[key := before]} :: m[key := before][key := value] == m[key := value]
  {
  }

  // A session's topology does not depend on what is selected.
  lemma SelectionIsApart(d: Daemon, active: map<string, string>, logical: string)
    ensures TopologyOf(d.(active := active), logical) == TopologyOf(d, logical)
  {
  }

  lemma IdsMatch(d: Daemon)
    requires GoodIds(d)
    ensures forall id | id in d.sessions :: d.sessions[id].id == id
  {
    forall id | id in d.sessions ensures d.sessions[id].id == id {
      assert GoodPane(d.sessions[id], id, d.nextSession, d.nextWindow);
    }
  }
}
