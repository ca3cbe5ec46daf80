// A daemon serves several projects; a request of one is confined to it.
module ProjectIsolation {
  import opened Text
  import opened Layout
  import opened Topology
  import opened Operations
  import opened TopologyClosure

  predicate SameSession(a: Sessions, b: Sessions, id: string) {
    (id in a <==> id in b) && (id in a && id in b ==> a[id] == b[id])
  }

  // Whatever is not the project's: its sessions, the topology of logical sessions it has
  // none of, and the other projects' selections.
  ghost predicate Confined(d: Daemon, after: Daemon, project: string) {
    && (forall id | id in d.sessions && d.sessions[id].project != project :: SameSession(d.sessions, after.sessions, id))
    && (forall id | id in after.sessions && after.sessions[id].project != project :: SameSession(d.sessions, after.sessions, id))
    && (forall p | p != project :: At(d.active, p, "") == At(after.active, p, ""))
    && (forall l | l in Logicals(d.sessions) && l !in LogicalsOf(d.sessions, project) ::
          l in d.topology && l in after.topology && after.topology[l] == d.topology[l])
  }

  lemma SameIsConfined(d: Daemon, after: Daemon, project: string)
    requires Inv(d) && after.sessions == d.sessions && after.active == d.active && after.topology == d.topology
    ensures Confined(d, after, project)
  {
    hide GoodIds, AllFollow, OneProject, GoodActive, Settled;
  }

  // Changing the topology of one of the project's own sessions, or its selection.
  lemma OwnChangeIsConfined(d: Daemon, after: Daemon, project: string, logical: string)
    requires Inv(d) && after.sessions == d.sessions && logical in LogicalsOf(d.sessions, project)
    requires forall p | p != project :: At(d.active, p, "") == At(after.active, p, "")
    requires forall l | l in d.topology && l != logical :: l in after.topology && after.topology[l] == d.topology[l]
    ensures Confined(d, after, project)
  {
    hide GoodIds, AllFollow, OneProject, GoodActive, Settled;
  }

  lemma NewPaneIsConfined(d: Daemon, after: Daemon, p: Pane)
    requires Inv(d) && p.id !in d.sessions && after.sessions == d.sessions[p.id := p]
    requires p.logical in LogicalsOf(d.sessions, p.project) || p.logical !in Logicals(d.sessions)
    requires after.active == d.active[p.project := p.logical]
    requires forall l | l in d.topology && l != p.logical :: l in after.topology && after.topology[l] == d.topology[l]
    ensures Confined(d, after, p.project)
  {
    hide GoodIds, AllFollow, OneProject, GoodActive, Settled;
  }

  lemma LossIsConfined(d: Daemon, after: Daemon, ids: set<string>, project: string, logical: string)
    requires Inv(d) && after.sessions == d.sessions - ids && AllOf(d.sessions, ids, logical)
    requires InProject(d.sessions, logical, project) && logical in LogicalsOf(d.sessions, project)
    requires forall p | p != project :: At(d.active, p, "") == At(after.active, p, "")
    requires forall l | l in d.topology && l != logical :: l in after.topology && after.topology[l] == d.topology[l]
    ensures Confined(d, after, project)
  {
    hide GoodIds, AllFollow, OneProject, GoodActive, Settled;
  }

  lemma CreateIsConfined(d: Daemon, project: string, command: string, starts: bool)
    requires Inv(d) && project != ""
    ensures Confined(d, HandleCreate(d, project, command, starts).daemon, project)
  {
    hide Inv, CreateLocked, Confined, Entered, Before, Logicals, LogicalsOf, Settled, LiveWindows;
    if command == "" || d.prepared {
      SameIsConfined(d, d, project);
    } else if !starts {
      CreateFails(d, project, "", "");
      SameIsConfined(d, CreateLocked(d, project, "", "", false).daemon, project);
    } else {
      CreateIsExactly(d, project, "", "");
      InvHasIds(d);
      NewPaneIsFresh(d);
      NewPaneIsConfined(d, CreateLocked(d, project, "", "", true).daemon, NewPane(d, project, "", ""));
    }
  }

  lemma SplitIsConfined(d: Daemon, paneID: string, direction: string, ratio: real, command: string, starts: bool, project: string)
    requires Inv(d) && (SessionOf(d, paneID).Some? ==> SessionOf(d, paneID).value.project == project)
    ensures Confined(d, HandleSplit(d, paneID, direction, ratio, command, starts).daemon, project)
  {
    hide Inv, CreateLocked, Confined, Entered, Before, Logicals, LogicalsOf, Settled, LiveWindows, SplitOff, SessionOf, SplitPane, RemovePane, TopologyOf, Named;
    if d.prepared || SessionOf(d, paneID).None? || command == "" {
      SameIsConfined(d, d, project);
    } else {
      var source := SessionOf(d, paneID).value;
      SessionOfIs(d, paneID);
      PaneFacts(d, source.id);
      if !starts {
        CreateFails(d, source.project, source.logical, source.window);
        SameIsConfined(d, CreateLocked(d, source.project, source.logical, source.window, false).daemon, project);
      } else {
        SplitIs(d, paneID, direction, ratio, command);
        InvHasIds(d);
        NewPaneIsFresh(d);
        NewPaneIsConfined(d, HandleSplit(d, paneID, direction, ratio, command, true).daemon,
                          NewPane(d, source.project, source.logical, source.window));
      }
    }
  }

  lemma NewWindowIsConfined(d: Daemon, sessionID: string, command: string, starts: bool, project: string)
    requires Inv(d) && (LogicalSession(d, sessionID).Some? ==> LogicalSession(d, sessionID).value.project == project)
    ensures Confined(d, HandleNewWindow(d, sessionID, command, starts).daemon, project)
  {
    hide Inv, CreateLocked, Confined, Entered, Before, Logicals, LogicalsOf, Settled, LiveWindows, LogicalSession, TopologyOf, Named;
    if d.prepared || LogicalSession(d, sessionID).None? || command == "" {
      SameIsConfined(d, d, project);
    } else {
      var source := LogicalSession(d, sessionID).value;
      LogicalSessionIs(d, sessionID);
      PaneFacts(d, source.id);
      if !starts {
        CreateFails(d, source.project, source.logical, "");
        SameIsConfined(d, CreateLocked(d, source.project, source.logical, "", false).daemon, project);
      } else {
        NewWindowGoesLast(d, sessionID, command);
        InvHasIds(d);
        NewPaneIsFresh(d);
        NewPaneIsConfined(d, HandleNewWindow(d, sessionID, command, true).daemon, NewPane(d, source.project, source.logical, ""));
      }
    }
  }

  // What authorisation says of the session and the pane a request finds.
  lemma AuthorizedMeans(d: Daemon, project: string, sessionID: string, paneID: string)
    requires Inv(d) && Authorized(d, project, sessionID, paneID)
    ensures LogicalSession(d, sessionID).Some? ==>
              var root := LogicalSession(d, sessionID).value;
              sessionID != "" && root.project == project && LogicalID(root) in LogicalsOf(d.sessions, project)
              && InProject(d.sessions, LogicalID(root), project)
    ensures SessionOf(d, paneID).Some? ==> paneID != "" && SessionOf(d, paneID).value.project == project
  {
    hide Inv, LogicalSession, SessionOf, LogicalsOf, Settled, LiveWindows, InProject, LogicalID, TopologyOf, Logicals;
    if SessionOf(d, paneID).Some? {
      SessionOfIs(d, paneID);
      PaneFacts(d, SessionOf(d, paneID).value.id);
    }
    if LogicalSession(d, sessionID).Some? {
      var root := LogicalSession(d, sessionID).value;
      LogicalSessionIs(d, sessionID);
      FoundIsNamed(d, sessionID);
      PaneFacts(d, root.id);
      ProjectFacts(d, root);
    }
  }

  lemma FoundIsNamed(d: Daemon, sessionID: string)
    requires Inv(d) && LogicalSession(d, sessionID).Some?
    ensures sessionID != ""
  {
    hide OneProject, GoodTopology, GoodActive, AllFollow, Used;
    assert forall id | id in d.sessions :: GoodPane(d.sessions[id], id, d.nextSession, d.nextWindow);
  }

  // One of the project's own sessions has a new topology, or is selected.
  predicate Focused(d: Daemon, after: Daemon, project: string, logical: string) {
    && after.sessions == d.sessions && (after.active == d.active || after.active == d.active[project := logical])
    && (after.topology == d.topology || (logical in after.topology && after.topology == d.topology[logical := after.topology[logical]]))
  }

  lemma FocusedIsConfined(d: Daemon, after: Daemon, project: string, logical: string)
    requires Inv(d) && Focused(d, after, project, logical) && logical in LogicalsOf(d.sessions, project)
    ensures Confined(d, after, project)
  {
    hide Inv, Confined, LogicalsOf;
    OwnChangeIsConfined(d, after, project, logical);
  }

  lemma ResizeIsFocused(d: Daemon, sessionID: string, w: string, paneID: string, ratio: real, project: string)
    requires LogicalSession(d, sessionID).Some?
    ensures Focused(d, HandleResizeSplit(d, sessionID, w, paneID, ratio).daemon, project, LogicalID(LogicalSession(d, sessionID).value))
  {
    hide LogicalSession, PaneIsIn, TopologyOf, ResizePane, LogicalID;
  }

  lemma SelectWindowIsFocused(d: Daemon, sessionID: string, w: string)
    requires LogicalSession(d, sessionID).Some?
    ensures var root := LogicalSession(d, sessionID).value;
            Focused(d, HandleSelectWindow(d, sessionID, w).daemon, root.project, LogicalID(root))
  {
    hide LogicalSession, HasWindow, TopologyOf, LogicalID;
  }

  lemma SelectPaneIsFocused(d: Daemon, sessionID: string, w: string, paneID: string, project: string)
    requires LogicalSession(d, sessionID).Some? && (SessionOf(d, paneID).Some? ==> SessionOf(d, paneID).value.project == project)
    ensures Focused(d, HandleSelectPane(d, sessionID, w, paneID).daemon, project, LogicalID(LogicalSession(d, sessionID).value))
  {
    hide LogicalSession, SessionOf, TopologyOf, LogicalID;
  }

  lemma ZoomIsFocused(d: Daemon, sessionID: string, w: string, paneID: string, project: string)
    requires LogicalSession(d, sessionID).Some?
    ensures Focused(d, HandleZoomPane(d, sessionID, w, paneID).daemon, project, LogicalID(LogicalSession(d, sessionID).value))
  {
    hide LogicalSession, HasWindow, PaneIsIn, TopologyOf, LogicalID;
  }

  lemma SelectionIsConfined(d: Daemon, r: Request, project: string)
    requires Inv(d) && project != "" && (r.ResizeSplit? || r.SelectWindow? || r.SelectPane? || r.ZoomPane?)
    requires Authorized(d, project, SessionNamed(r), PaneNamed(r))
    ensures Confined(d, Handle(d, project, r).daemon, project)
  {
    hide Inv, Confined, Focused, LogicalSession, LogicalsOf, SessionOf, LogicalID, InProject, TopologyOf, PaneIsIn, HasWindow, Authorized, ResizePane;
    AuthorizedMeans(d, project, SessionNamed(r), PaneNamed(r));
    if LogicalSession(d, r.sessionID).None? {
      SameIsConfined(d, d, project);
    } else {
      match r {
        case ResizeSplit(sessionID, w, paneID, ratio) => ResizeIsFocused(d, sessionID, w, paneID, ratio, project);
        case SelectWindow(sessionID, w) => SelectWindowIsFocused(d, sessionID, w);
        case SelectPane(sessionID, w, paneID) => SelectPaneIsFocused(d, sessionID, w, paneID, project);
        case ZoomPane(sessionID, w, paneID) => ZoomIsFocused(d, sessionID, w, paneID, project);
      }
      hide HandleResizeSplit, HandleSelectWindow, HandleSelectPane, HandleZoomPane;
      FocusedIsConfined(d, Handle(d, project, r).daemon, project, LogicalID(LogicalSession(d, r.sessionID).value));
    }
  }

  lemma ClosesIsConfined(d: Daemon, after: Daemon, ids: set<string>, logical: string, project: string, w: string)
    requires Inv(d) && Closes(d, after, ids, logical, project, w)
    requires AllOf(d.sessions, ids, logical) && InProject(d.sessions, logical, project) && logical in LogicalsOf(d.sessions, project)
    ensures Confined(d, after, project)
  {
    hide Inv, Confined, AllOf, InProject, LogicalsOf, RemovePlacement, IsLeast, Logicals;
    LossIsConfined(d, after, ids, project, logical);
  }

  lemma PartedIsConfined(d: Daemon, p: Pane, rest: set<string>, project: string)
    requires Inv(d) && p.id in d.sessions && d.sessions[p.id] == p
    requires LogicalID(p) in d.topology && p.window in d.topology[LogicalID(p)].layouts && p.window in d.topology[LogicalID(p)].activePane
    requires InProject(d.sessions, LogicalID(p), project) && LogicalID(p) in LogicalsOf(d.sessions, project)
    ensures Confined(d, Parted(d, p, rest), project)
  {
    hide Inv, Confined, LogicalsOf, InProject, Parts, LogicalID;
    LossIsConfined(d, Parted(d, p, rest), {p.id}, project, LogicalID(p));
  }

  lemma DestroyIsConfined(d: Daemon, sessionID: string, project: string)
    requires Inv(d) && Authorized(d, project, sessionID, "")
    ensures Confined(d, HandleDestroy(d, sessionID).daemon, project)
  {
    if d.prepared || sessionID !in d.sessions {
      SameIsConfined(d, d, project);
    } else {
      AuthorizedMeans(d, project, sessionID, "");
      PaneIsKeyed(d, sessionID);
      DestroyIsExactly(d, sessionID);
      hide *;
      var p, after := d.sessions[sessionID], HandleDestroy(d, sessionID).daemon;
      if Targets(d, LogicalID(p), p.window) == {sessionID} {
        OneOf(d.sessions, sessionID);
        ClosesIsConfined(d, after, {sessionID}, LogicalID(p), project, p.window);
      } else {
        PartedIsConfined(d, p, LiveWindows(d.sessions, LogicalID(p))[p.window] - {p.paneID}, project);
      }
    }
  }

  lemma PaneIsKeyed(d: Daemon, id: string)
    requires Inv(d) && id in d.sessions
    ensures d.sessions[id].id == id && LogicalSession(d, id) == Some(d.sessions[id])
  {
    assert GoodPane(d.sessions[id], id, d.nextSession, d.nextWindow);
    hide GoodPane, OneProject, GoodTopology, GoodActive;
  }

  lemma OneOf(sessions: Sessions, id: string)
    requires id in sessions
    ensures AllOf(sessions, {id}, LogicalID(sessions[id]))
  {
  }

  lemma DestroyWindowIsConfined(d: Daemon, sessionID: string, w: string, project: string)
    requires Inv(d) && Authorized(d, project, sessionID, "")
    ensures Confined(d, HandleDestroyWindow(d, sessionID, w).daemon, project)
  {
    hide Inv, Confined, LogicalsOf, InProject, Closes, Reselected, ClosedPlacement, Logicals, LiveWindows, Authorized, Targets, AllOf, LogicalSession, LogicalID;
    if d.prepared || LogicalSession(d, sessionID).None? {
      SameIsConfined(d, d, project);
    } else {
      AuthorizedMeans(d, project, sessionID, "");
      InvHasIds(d);
      var root := LogicalSession(d, sessionID).value;
      DestroyWindowCloses(d, sessionID, w);
      TargetsAre(d, LogicalID(root), w);
      hide HandleDestroyWindow;
      var out := HandleDestroyWindow(d, sessionID, w);
      if out.error.Some? {
        SameIsConfined(d, d, project);
      } else {
        ClosesIsConfined(d, out.daemon, Targets(d, LogicalID(root), w), LogicalID(root), project, w);
      }
    }
  }

  // No request, whatever it names, changes another project's sessions, their topology or
  // its selection.
  lemma RequestsAreConfined(d: Daemon, named: string, r: Request)
    requires Inv(d)
    ensures Confined(d, Handle(d, named, r).daemon, ProjectName(named))
  {
    var project := ProjectName(named);
    hide Inv, Confined, HandleSplit, HandleNewWindow, HandleResizeSplit, HandleDestroy, HandleDestroyWindow, HandleSelectWindow, HandleSelectPane, HandleZoomPane, HandleReadTopology, HandleCreate, Authorized, LogicalSession, SessionOf;
    if !Authorized(d, project, SessionNamed(r), PaneNamed(r)) {
      SameIsConfined(d, d, project);
    } else {
      AuthorizedMeans(d, project, SessionNamed(r), PaneNamed(r));
      match r
      case Create(command, starts) => CreateIsConfined(d, project, command, starts);
      case Split(paneID, direction, ratio, command, starts) => SplitIsConfined(d, paneID, direction, ratio, command, starts, project);
      case NewWindow(sessionID, command, starts) => NewWindowIsConfined(d, sessionID, command, starts, project);
      case Destroy(sessionID) => DestroyIsConfined(d, sessionID, project);
      case DestroyWindow(sessionID, w) => DestroyWindowIsConfined(d, sessionID, w, project);
      case ReadTopology => ReadIsInvisible(d, project); SameIsConfined(d, d, project);
      case _ => SelectionIsConfined(d, r, project);
    }
  }
}
