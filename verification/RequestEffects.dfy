// What a request comes to, kind by kind: refused for naming another project, refused
// during an upgrade, or the effect of its operation.
module RequestEffects {
  import opened Text
  import opened Layout
  import opened Topology
  import opened Operations
  import opened TopologyClosure
  import Places = LayoutPlaces

  // The session a request names is the one with that ID or else any of that logical
  // session.
  ghost predicate Names(d: Daemon, sessionID: string, id: string) {
    id in d.sessions && if sessionID in d.sessions then id == sessionID else LogicalID(d.sessions[id]) == sessionID
  }

  ghost predicate NamesAnother(d: Daemon, project: string, r: Request) {
    exists id | id in d.sessions ::
      d.sessions[id].project != project && (Names(d, SessionNamed(r), id) || d.sessions[id].paneID == PaneNamed(r))
  }

  lemma FoundExactly(d: Daemon, sessionID: string)
    requires Inv(d)
    ensures LogicalSession(d, sessionID).Some? <==> exists id :: Names(d, sessionID, id)
    ensures LogicalSession(d, sessionID).Some? ==>
              var root := LogicalSession(d, sessionID).value;
              sessionID != "" && root.id in d.sessions && d.sessions[root.id] == root && Names(d, sessionID, root.id)
  {
    hide Inv, LogicalID;
    if LogicalSession(d, sessionID).Some? {
      LogicalSessionIs(d, sessionID);
      NamedSession(d, LogicalSession(d, sessionID).value.id);
      if sessionID in d.sessions { NamedSession(d, sessionID); }
      assert Names(d, sessionID, LogicalSession(d, sessionID).value.id);
    }
    if id :| Names(d, sessionID, id) { NamedIsFound(d, sessionID, id); }
  }

  lemma NamedIsFound(d: Daemon, sessionID: string, id: string)
    requires Names(d, sessionID, id)
    ensures LogicalSession(d, sessionID).Some?
  {
    assert LogicalID(d.sessions[id]) in Logicals(d.sessions);
  }

  lemma NamedSession(d: Daemon, id: string)
    requires Inv(d) && id in d.sessions
    ensures id != "" && LogicalID(d.sessions[id]) != "" && d.sessions[id].paneID != "" && d.sessions[id].id == id
    ensures SessionOf(d, d.sessions[id].paneID) == Some(d.sessions[id])
  {
    PaneFacts(d, id);
    assert GoodPane(d.sessions[id], id, d.nextSession, d.nextWindow);
    hide GoodPane, OneProject, GoodTopology, GoodActive, AllFollow, LiveWindows, Settled;
  }

  // A request is refused for its project exactly when a session or pane it names is
  // another's, and then nothing changes.
  lemma RefusedForProjectExactly(d: Daemon, named: string, r: Request)
    requires Inv(d)
    ensures Handle(d, named, r).error == Some(ProjectScope) <==> NamesAnother(d, ProjectName(named), r)
    ensures NamesAnother(d, ProjectName(named), r) ==> Handle(d, named, r) == Refused(d, ProjectScope)
  {
    AuthorizedExactly(d, ProjectName(named), r);
    hide Inv, Authorized, LogicalSession, SessionOf, NamesAnother, SessionNamed, PaneNamed;
    hide HandleNewWindow, HandleResizeSplit, HandleDestroyWindow, HandleSelectWindow, HandleSelectPane, HandleZoomPane, HandleCreate, HandleSplit, HandleDestroy;
    NeverForProject(d, ProjectName(named), r);
  }

  // No operation itself refuses for the project.
  lemma NeverForProject(d: Daemon, project: string, r: Request)
    ensures match r
            case Create(command, starts) => HandleCreate(d, project, command, starts).error != Some(ProjectScope)
            case Split(p, direction, ratio, command, starts) => HandleSplit(d, p, direction, ratio, command, starts).error != Some(ProjectScope)
            case NewWindow(s, command, starts) => HandleNewWindow(d, s, command, starts).error != Some(ProjectScope)
            case ResizeSplit(s, w, p, ratio) => HandleResizeSplit(d, s, w, p, ratio).error != Some(ProjectScope)
            case Destroy(s) => HandleDestroy(d, s).error != Some(ProjectScope)
            case DestroyWindow(s, w) => HandleDestroyWindow(d, s, w).error != Some(ProjectScope)
            case SelectWindow(s, w) => HandleSelectWindow(d, s, w).error != Some(ProjectScope)
            case SelectPane(s, w, p) => HandleSelectPane(d, s, w, p).error != Some(ProjectScope)
            case ZoomPane(s, w, p) => HandleZoomPane(d, s, w, p).error != Some(ProjectScope)
            case ReadTopology => true
  {
    hide LogicalSession, SessionOf, CreateLocked, TopologyOf, Reselected, ClosedPlacement, HasWindow, PaneIsIn, Targets, LogicalID, ResizePane;
  }

  lemma AuthorizedExactly(d: Daemon, project: string, r: Request)
    requires Inv(d)
    ensures Authorized(d, project, SessionNamed(r), PaneNamed(r)) <==> !NamesAnother(d, project, r)
  {
    hide Inv, LogicalSession, LogicalID, Names, SessionOf;
    var s, p := SessionNamed(r), PaneNamed(r);
    if NamesAnother(d, project, r) {
      var id :| id in d.sessions && d.sessions[id].project != project && (Names(d, s, id) || d.sessions[id].paneID == p);
      NamedLeads(d, s, id);
    } else {
      FoundExactly(d, s);
      if SessionOf(d, p).Some? { SessionOfIs(d, p); }
    }
  }

  lemma NamedLeads(d: Daemon, sessionID: string, id: string)
    requires Inv(d) && id in d.sessions
    ensures d.sessions[id].paneID != "" && SessionOf(d, d.sessions[id].paneID) == Some(d.sessions[id])
    ensures Names(d, sessionID, id) ==>
              sessionID != "" && LogicalSession(d, sessionID).Some?
              && LogicalSession(d, sessionID).value.project == d.sessions[id].project
  {
    hide Inv, LogicalSession, LogicalID, Names, SessionOf;
    NamedSession(d, id);
    FoundExactly(d, sessionID);
    if Names(d, sessionID, id) { SameNamed(d, sessionID, id, LogicalSession(d, sessionID).value.id); }
  }

  lemma SameNamed(d: Daemon, sessionID: string, i: string, j: string)
    requires Inv(d) && Names(d, sessionID, i) && Names(d, sessionID, j)
    ensures d.sessions[i].project == d.sessions[j].project
  {
    SameProject(d, i, j);
  }

  // ---- Effects -----------------------------------------------------------

  // The numbers a failed start has used up.
  function Counted(d: Daemon, windows: nat): Daemon {
    d.(nextSession := d.nextSession + 1, nextWindow := d.nextWindow + windows)
  }

  ghost predicate SplitsOff(d: Daemon, paneID: string, direction: string, ratio: real, out: Outcome)
    requires paneID in d.panes && d.panes[paneID] in d.sessions
  {
    var source := d.sessions[d.panes[paneID]];
    var l, w, p := source.logical, source.window, NewPane(d, source.project, source.logical, source.window);
    && l in d.topology && w in d.topology[l].layouts
    && exists layout ::
         && Places.IsSplitOff(d.topology[l].layouts[w], paneID, p.paneID, direction, ratio, layout)
         && out == Done(WithTopology(WithPane(d, p, d.nextWindow), l,
                      d.topology[l].(activeWindow := w, activePane := d.topology[l].activePane[w := p.paneID],
                                     layouts := d.topology[l].layouts[w := layout])))
  }

  ghost predicate LosesPane(d: Daemon, id: string, out: Outcome)
    requires id in d.sessions
  {
    var p := d.sessions[id];
    var l := LogicalID(p);
    out.error.None? &&
    if Targets(d, l, p.window) == {id} then Closes(d, out.daemon, {id}, l, p.project, p.window)
    else
      && l in d.topology && p.window in d.topology[l].layouts && p.window in d.topology[l].activePane
      && p.window in LiveWindows(d.sessions, l)
      && out.daemon == Parted(d, p, LiveWindows(d.sessions, l)[p.window] - {p.paneID})
  }

  // What a request of a project does that names nothing of another's, by its kind; `root`
  // is the session it names.
  ghost predicate TakesEffect(d: Daemon, project: string, r: Request, root: Option<Pane>, out: Outcome) {
    match r
    case Create(command, starts) =>
      out == if command == "" then Refused(d, CommandRequired)
             else if !starts then Refused(Counted(d, 1), StartFailed)
             else Done(WithPane(d, NewPane(d, project, "", ""), d.nextWindow + 1))
    case Split(paneID, direction, ratio, command, starts) =>
      if paneID !in d.panes then out == Refused(d, PaneNotFound)
      else if command == "" then out == Refused(d, CommandRequired)
      else if !starts then out == Refused(Counted(d, 0), StartFailed)
      else d.panes[paneID] in d.sessions && SplitsOff(d, paneID, direction, ratio, out)
    case ReadTopology => out == Done(d)
    case Destroy(id) => if id !in d.sessions then out == Refused(d, SessionNotFound) else LosesPane(d, id, out)
    case _ => if root.None? then out == Refused(d, SessionNotFound) else OnSession(d, root.value, r, out)
  }

  ghost predicate OnSession(d: Daemon, root: Pane, r: Request, out: Outcome) {
    var l := LogicalID(root);
    var windows := LiveWindows(d.sessions, l);
    l in d.topology &&
    var t := d.topology[l];
    match r
    case NewWindow(_, command, starts) =>
      out == if command == "" then Refused(d, CommandRequired)
             else if !starts then Refused(Counted(d, 1), StartFailed)
             else Done(WithPane(d, NewPane(d, root.project, root.logical, ""), d.nextWindow + 1))
    case ResizeSplit(_, w, paneID, ratio) =>
      if w !in windows || paneID !in windows[w] then out == Refused(d, PaneNotFound)
      else
        w in t.layouts &&
        out == if IsSplit(t.layouts[w]) then
                 Done(WithTopology(d, l, t.(layouts := t.layouts[w := t.layouts[w].(ratio := ValidSplitRatio(ratio))])))
               else Refused(d, NoResizableSplit)
    case SelectWindow(_, w) =>
      out == if w !in windows then Refused(d, SessionNotFound)
             else Done(WithTopology(d, l, t.(activeWindow := w)).(active := d.active[root.project := l]))
    case SelectPane(_, w, paneID) =>
      out == if w !in windows || paneID !in windows[w] then Refused(d, PaneNotFound)
             else Done(WithTopology(d, l, t.(activeWindow := w, activePane := t.activePane[w := paneID]))
                       .(active := d.active[root.project := l]))
    case ZoomPane(_, w, paneID) =>
      out == if w !in windows then Refused(d, SessionNotFound)
             else if paneID != "" && paneID !in windows[w] then Refused(d, PaneNotFound)
             else Done(WithTopology(d, l, t.(activeWindow := w, zoomed := t.zoomed[w := paneID],
                                             activePane := if paneID == "" then t.activePane else t.activePane[w := paneID])))
    case DestroyWindow(_, w) =>
      var targets := set id | id in d.sessions && LogicalID(d.sessions[id]) == l && d.sessions[id].window == w;
      if targets == {} then out == Refused(d, SessionNotFound)
      else out.error.None? && Closes(d, out.daemon, targets, l, root.project, w)
    case _ => false
  }

  // Every request of a project that names nothing of another's, outside an upgrade, has
  // the effect of its own kind; during one only reading is served.
  lemma RequestsTakeEffect(d: Daemon, named: string, r: Request)
    requires Inv(d) && !NamesAnother(d, ProjectName(named), r)
    ensures !d.prepared ==> TakesEffect(d, ProjectName(named), r, LogicalSession(d, SessionNamed(r)), Handle(d, named, r))
    ensures d.prepared ==>
              Handle(d, named, r) == if r.ReadTopology? then Done(d)
                                     else if r.Create? && r.command == "" then Refused(d, CommandRequired)
                                     else Refused(d, HandoffInProgress)
  {
    hide Inv, NamesAnother, Authorized, LogicalSession, Handle, TakesEffect;
    AuthorizedExactly(d, ProjectName(named), r);
    if d.prepared { OnlyReadingIsServed(d, named, r); } else { TakesItsEffect(d, named, r); }
  }

  lemma OnlyReadingIsServed(d: Daemon, named: string, r: Request)
    requires Inv(d) && d.prepared && Authorized(d, ProjectName(named), SessionNamed(r), PaneNamed(r))
    ensures Handle(d, named, r) == if r.ReadTopology? then Done(d)
                                   else if r.Create? && r.command == "" then Refused(d, CommandRequired)
                                   else Refused(d, HandoffInProgress)
  {
    hide Inv, Authorized, LogicalSession, SessionOf, CreateLocked, TopologyOf, Reselected, ClosedPlacement, HasWindow, PaneIsIn;
    hide HandleReadTopology, ResizePane, LogicalID, Targets;
    if r.ReadTopology? { ReadIsInvisible(d, ProjectName(named)); }
  }

  lemma TakesItsEffect(d: Daemon, named: string, r: Request)
    requires Inv(d) && !d.prepared && Authorized(d, ProjectName(named), SessionNamed(r), PaneNamed(r))
    ensures TakesEffect(d, ProjectName(named), r, LogicalSession(d, SessionNamed(r)), Handle(d, named, r))
  {
    var project := ProjectName(named);
    hide Inv, Authorized, LogicalSession, SessionOf, CreateLocked, TopologyOf, Reselected, ClosedPlacement, HasWindow, PaneIsIn;
    hide SplitsOff, WithPane, NewPane, Targets, Closes, LogicalID, OnSession, HandleReadTopology, ProjectName;
    match r
    case Create(command, starts) => CreateTakesEffect(d, project, command, starts);
    case Split(_, _, _, _, _) => SplitTakesEffect(d, project, r);
    case ReadTopology => ReadIsInvisible(d, project);
    case Destroy(id) => if id in d.sessions { DestroyIsExactly(d, id); }
    case _ =>
      if LogicalSession(d, r.sessionID).Some? {
        OnSessionTakesEffect(d, r);
        hide HandleNewWindow, HandleResizeSplit, HandleDestroyWindow, HandleSelectWindow, HandleSelectPane, HandleZoomPane;
      }
  }

  lemma CreateTakesEffect(d: Daemon, project: string, command: string, starts: bool)
    requires Inv(d) && !d.prepared && project != ""
    ensures TakesEffect(d, project, Create(command, starts), None, HandleCreate(d, project, command, starts))
  {
    hide CreateLocked, Inv, NewPane, WithPane, Placeable, LiveWindows, Settled, Entered, Before;
    NewProjectIsPlaceable(d, project);
    if starts {
      CreateIsExactly(d, project, "", "");
    } else {
      CreateFails(d, project, "", "");
    }
  }

  lemma NewProjectIsPlaceable(d: Daemon, project: string)
    requires project != ""
    ensures Placeable(d, project, "", "")
  {
  }

  lemma SplitTakesEffect(d: Daemon, project: string, r: Request)
    requires Inv(d) && !d.prepared && r.Split?
    ensures TakesEffect(d, project, r, None, HandleSplit(d, r.paneID, r.direction, r.ratio, r.command, r.starts))
  {
    hide CreateLocked, Inv, Places.IsSplitOff, WithPane, NewPane, TopologyOf, SplitPane, RemovePane, SessionOf;
    KnownPanes(d, r.paneID);
    if r.paneID in d.panes && r.command != "" {
      var source := SessionOf(d, r.paneID).value;
      if r.starts {
        SplitStandsBeside(d, r.paneID, r.direction, r.ratio, r.command);
        hide HandleSplit;
      } else {
        CreateFails(d, source.project, source.logical, source.window);
        WindowIsNamed(d, source.id);
      }
    }
  }

  lemma WindowIsNamed(d: Daemon, id: string)
    requires Inv(d) && id in d.sessions
    ensures d.sessions[id].window != ""
  {
    PaneFacts(d, id);
  }

  lemma KnownPanes(d: Daemon, paneID: string)
    requires Inv(d)
    ensures SessionOf(d, paneID).Some? <==> paneID in d.panes
    ensures paneID in d.panes ==>
              d.panes[paneID] in d.sessions && SessionOf(d, paneID).value == d.sessions[d.panes[paneID]]
              && SessionOf(d, paneID).value.id == d.panes[paneID]
  {
    InvHasIds(d);
    hide Inv, GoodPane;
    if paneID in d.panes { NamedSession(d, d.panes[paneID]); }
  }

  predicate NamesSession(r: Request) {
    r.NewWindow? || r.ResizeSplit? || r.SelectWindow? || r.SelectPane? || r.ZoomPane? || r.DestroyWindow?
  }

  ghost function HandleOnSession(d: Daemon, r: Request): Outcome
    requires NamesSession(r)
  {
    match r
    case NewWindow(sessionID, command, starts) => HandleNewWindow(d, sessionID, command, starts)
    case ResizeSplit(sessionID, windowID, paneID, ratio) => HandleResizeSplit(d, sessionID, windowID, paneID, ratio)
    case DestroyWindow(sessionID, windowID) => HandleDestroyWindow(d, sessionID, windowID)
    case SelectWindow(sessionID, windowID) => HandleSelectWindow(d, sessionID, windowID)
    case SelectPane(sessionID, windowID, paneID) => HandleSelectPane(d, sessionID, windowID, paneID)
    case ZoomPane(sessionID, windowID, paneID) => HandleZoomPane(d, sessionID, windowID, paneID)
  }

  lemma OnSessionTakesEffect(d: Daemon, r: Request)
    requires Inv(d) && !d.prepared && NamesSession(r) && LogicalSession(d, r.sessionID).Some?
    ensures OnSession(d, LogicalSession(d, r.sessionID).value, r, HandleOnSession(d, r))
  {
    hide Inv, LogicalSession, LiveWindows, TopologyOf, Targets, Closes, PaneIsIn, HasWindow;
    hide HandleNewWindow, HandleResizeSplit, HandleDestroyWindow, HandleSelectWindow, HandleSelectPane, HandleZoomPane;
    RequestFinds(d, r.sessionID, "", "");
    match r
    case NewWindow(s, command, starts) => NewWindowTakesEffect(d, s, command, starts);
    case ResizeSplit(s, w, paneID, ratio) => ResizeTakesEffect(d, s, w, paneID, ratio);
    case SelectWindow(s, w) => SelectWindowMovesFocus(d, s, w);
    case SelectPane(s, w, paneID) => SelectPaneMovesFocus(d, s, w, paneID);
    case ZoomPane(s, w, paneID) => ZoomIsExactly(d, s, w, paneID);
    case DestroyWindow(s, w) => DestroyWindowTakesEffect(d, s, w);
  }

  lemma NewWindowTakesEffect(d: Daemon, sessionID: string, command: string, starts: bool)
    requires Inv(d) && !d.prepared && LogicalSession(d, sessionID).Some?
    requires LogicalID(LogicalSession(d, sessionID).value) in d.topology
    ensures OnSession(d, LogicalSession(d, sessionID).value, NewWindow(sessionID, command, starts),
                      HandleNewWindow(d, sessionID, command, starts))
  {
    hide Inv, LogicalSession, LiveWindows, TopologyOf, CreateLocked, NewPane, WithPane, LogicalID;
    var source := LogicalSession(d, sessionID).value;
    if command != "" {
      if starts {
        NewWindowGoesLast(d, sessionID, command);
        hide HandleNewWindow;
      } else {
        CreateFails(d, source.project, source.logical, "");
      }
    }
  }

  lemma ResizeTakesEffect(d: Daemon, sessionID: string, w: string, paneID: string, ratio: real)
    requires Inv(d) && !d.prepared && LogicalSession(d, sessionID).Some?
    requires LogicalID(LogicalSession(d, sessionID).value) in d.topology
    ensures OnSession(d, LogicalSession(d, sessionID).value, ResizeSplit(sessionID, w, paneID, ratio),
                      HandleResizeSplit(d, sessionID, w, paneID, ratio))
  {
    hide Inv, LogicalSession, LiveWindows, TopologyOf, PaneIsIn, ResizePane, LogicalID;
    var l := LogicalID(LogicalSession(d, sessionID).value);
    LiveExactly(d, l, w, paneID);
    if PaneIsIn(d, paneID, l, w) {
      ResizeSetsTheRatio(d, sessionID, w, paneID, ratio);
      hide HandleResizeSplit;
    }
  }

  lemma DestroyWindowTakesEffect(d: Daemon, sessionID: string, w: string)
    requires Inv(d) && !d.prepared && LogicalSession(d, sessionID).Some?
    requires LogicalID(LogicalSession(d, sessionID).value) in d.topology
    ensures OnSession(d, LogicalSession(d, sessionID).value, DestroyWindow(sessionID, w), HandleDestroyWindow(d, sessionID, w))
  {
    hide Inv, LogicalSession, LiveWindows, HandleDestroyWindow, Closes, LogicalID;
    DestroyWindowCloses(d, sessionID, w);
  }
}
