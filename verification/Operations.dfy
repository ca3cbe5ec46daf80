// The daemon's topology operations (operations.go), over a daemon with no recovered
// sessions and no catalog on disk. Starting a process may fail; stopping one does not here,
// and FailedStops says what is left when it does.
module Operations {
  import opened Text
  import opened Layout
  import opened Topology

  datatype Pane = Pane(id: string, paneID: string, project: string, logical: string, window: string)

  type Sessions = map<string, Pane>

  // `panes` finds the session of a pane, `active` the logical session a project is in.
  datatype Daemon = Daemon(sessions: Sessions, panes: map<string, string>, topology: map<string, State>,
                           active: map<string, string>, nextSession: nat, nextWindow: nat, prepared: bool)

  function Empty(): Daemon {
    Daemon(map[], map[], map[], map[], 0, 0, false)
  }

  function LogicalID(p: Pane): string {
    if p.logical != "" then p.logical else p.id
  }

  function WindowID(p: Pane): string {
    if p.window == "" then p.paneID else p.window
  }

  function PanesIn(sessions: Sessions, logical: string, w: string): set<string> {
    set id | id in sessions && LogicalID(sessions[id]) == logical && WindowID(sessions[id]) == w :: sessions[id].paneID
  }

  function WindowsIn(sessions: Sessions, logical: string): set<string> {
    set id | id in sessions && LogicalID(sessions[id]) == logical :: WindowID(sessions[id])
  }

  // The windows topologyStateLocked finds.
  function LiveWindows(sessions: Sessions, logical: string): Windows {
    map w | w in WindowsIn(sessions, logical) :: PanesIn(sessions, logical, w)
  }

  function Logicals(sessions: Sessions): set<string> {
    set id | id in sessions :: LogicalID(sessions[id])
  }

  function LogicalsOf(sessions: Sessions, project: string): set<string> {
    set id | id in sessions && sessions[id].project == project :: LogicalID(sessions[id])
  }

  function Projects(sessions: Sessions): set<string> {
    set id | id in sessions :: sessions[id].project
  }

  // ---- Requests ----------------------------------------------------------

  datatype Request =
    | Create(command: string, starts: bool)
    | Split(paneID: string, direction: string, ratio: real, command: string, starts: bool)
    | NewWindow(sessionID: string, command: string, starts: bool)
    | ResizeSplit(sessionID: string, windowID: string, paneID: string, ratio: real)
    | Destroy(sessionID: string)
    | DestroyWindow(sessionID: string, windowID: string)
    | SelectWindow(sessionID: string, windowID: string)
    | SelectPane(sessionID: string, windowID: string, paneID: string)
    | ZoomPane(sessionID: string, windowID: string, paneID: string)
    | ReadTopology

  datatype Error =
    | ProjectScope | CommandRequired | HandoffInProgress | StartFailed
    | SessionNotFound | PaneNotFound | NoResizableSplit

  datatype Outcome = Outcome(daemon: Daemon, error: Option<Error>)

  function Done(d: Daemon): Outcome {
    Outcome(d, None)
  }

  function Refused(d: Daemon, error: Error): Outcome {
    Outcome(d, Some(error))
  }

  // topologyStateLocked.
  ghost function TopologyOf(d: Daemon, logical: string): State {
    Normalized(At(d.topology, logical, Fresh()), LiveWindows(d.sessions, logical))
  }

  ghost function Touched(d: Daemon, logical: string): Daemon {
    d.(topology := d.topology[logical := TopologyOf(d, logical)])
  }

  function WithTopology(d: Daemon, logical: string, t: State): Daemon {
    d.(topology := d.topology[logical := t])
  }

  // observePaneTopologyLocked's half after normalising.
  function Observed(t: State, w: string, paneID: string): State {
    var layout := At(t.layouts, w, Nil);
    t.(activeWindow := w, activePane := t.activePane[w := paneID],
       layouts := if HasPane(layout, paneID) then t.layouts else t.layouts[w := AppendPane(layout, paneID)])
  }

  function Named(prefix: string, n: nat): string {
    prefix + Itoa(n)
  }

  datatype Created = Created(daemon: Daemon, pane: Option<Pane>)

  // How many windows a new pane adds.
  function WindowsMade(window: string): nat {
    if window == "" then 1 else 0
  }

  function NewPane(d: Daemon, project: string, logical: string, window: string): Pane {
    var id := Named("session-", d.nextSession + 1);
    Pane(id, Named("pane-", d.nextSession + 1), project, if logical == "" then id else logical,
         if window == "" then Named("window-", d.nextWindow + 1) else window)
  }

  // createLocked. The numbers a failed start used are not used again.
  ghost function CreateLocked(d: Daemon, project: string, logical: string, window: string, starts: bool): Created {
    var p := NewPane(d, project, logical, window);
    var counted := d.(nextSession := d.nextSession + 1, nextWindow := d.nextWindow + WindowsMade(window));
    if !starts then Created(counted, None)
    else
      var added := counted.(sessions := d.sessions[p.id := p], panes := d.panes[p.paneID := p.id],
                            active := d.active[project := LogicalID(p)]);
      var t := TopologyOf(added, LogicalID(p));
      Created(WithTopology(added, LogicalID(p), Observed(t, p.window, p.paneID)), Some(p))
  }

  ghost function HandleCreate(d: Daemon, project: string, command: string, starts: bool): Outcome {
    if command == "" then Refused(d, CommandRequired)
    else if d.prepared then Refused(d, HandoffInProgress)
    else
      var created := CreateLocked(d, project, "", "", starts);
      Outcome(created.daemon, if created.pane.None? then Some(StartFailed) else None)
  }

  function SessionOf(d: Daemon, paneID: string): Option<Pane> {
    if paneID in d.panes && d.panes[paneID] in d.sessions then Some(d.sessions[d.panes[paneID]]) else None
  }

  // logicalSessionLocked: a runtime ID first, then any pane of a logical session.
  ghost function LogicalSession(d: Daemon, sessionID: string): Option<Pane> {
    if sessionID in d.sessions then Some(d.sessions[sessionID])
    else if sessionID in Logicals(d.sessions) then
      var id :| id in d.sessions && LogicalID(d.sessions[id]) == sessionID;
      Some(d.sessions[id])
    else None
  }

  ghost function HandleSplit(d: Daemon, paneID: string, direction: string, ratio: real, command: string, starts: bool): Outcome {
    if d.prepared then Refused(d, HandoffInProgress)
    else if SessionOf(d, paneID).None? then Refused(d, PaneNotFound)
    else if command == "" then Refused(d, CommandRequired)
    else
      var source := SessionOf(d, paneID).value;
      var created := CreateLocked(d, source.project, source.logical, source.window, starts);
      if created.pane.None? then Refused(created.daemon, StartFailed)
      else
        var t := TopologyOf(created.daemon, source.logical);
        var base := RemovePane(At(t.layouts, source.window, Nil), created.pane.value.paneID);
        var layout := SplitPane(base, paneID, created.pane.value.paneID, direction, ratio);
        Done(WithTopology(created.daemon, source.logical,
          t.(layouts := t.layouts[source.window := layout], activeWindow := source.window,
             activePane := t.activePane[source.window := created.pane.value.paneID])))
  }

  ghost function HandleNewWindow(d: Daemon, sessionID: string, command: string, starts: bool): Outcome {
    if d.prepared then Refused(d, HandoffInProgress)
    else if LogicalSession(d, sessionID).None? then Refused(d, SessionNotFound)
    else if command == "" then Refused(d, CommandRequired)
    else
      var source := LogicalSession(d, sessionID).value;
      var created := CreateLocked(d, source.project, source.logical, "", starts);
      if created.pane.None? then Refused(created.daemon, StartFailed)
      else
        var t := TopologyOf(created.daemon, source.logical);
        var p := created.pane.value;
        Done(WithTopology(created.daemon, source.logical,
          t.(activeWindow := p.window, activePane := t.activePane[p.window := p.paneID])))
  }

  ghost function HandleResizeSplit(d: Daemon, sessionID: string, windowID: string, paneID: string, ratio: real): Outcome {
    if d.prepared then Refused(d, HandoffInProgress)
    else if LogicalSession(d, sessionID).None? then Refused(d, SessionNotFound)
    else
      var logical := LogicalID(LogicalSession(d, sessionID).value);
      if !PaneIsIn(d, paneID, logical, windowID) then Refused(d, PaneNotFound)
      else
        var t := TopologyOf(d, logical);
        var resized := ResizePane(At(t.layouts, windowID, Nil), paneID, ratio);
        if !resized.changed then Refused(Touched(d, logical), NoResizableSplit)
        else Done(WithTopology(d, logical, t.(layouts := t.layouts[windowID := resized.layout])))
  }

  predicate PaneIsIn(d: Daemon, paneID: string, logical: string, windowID: string) {
    SessionOf(d, paneID).Some? && LogicalID(SessionOf(d, paneID).value) == logical
    && SessionOf(d, paneID).value.window == windowID
  }

  // windowBelongsToLogicalSessionLocked.
  predicate HasWindow(d: Daemon, logical: string, windowID: string) {
    exists id | id in d.sessions :: LogicalID(d.sessions[id]) == logical && d.sessions[id].window == windowID
  }

  ghost function HandleSelectWindow(d: Daemon, sessionID: string, windowID: string): Outcome {
    if d.prepared then Refused(d, HandoffInProgress)
    else if LogicalSession(d, sessionID).None? then Refused(d, SessionNotFound)
    else
      var root := LogicalSession(d, sessionID).value;
      var logical := LogicalID(root);
      if !HasWindow(d, logical, windowID) then Refused(d, SessionNotFound)
      else
        var t := TopologyOf(d, logical);
        Done(WithTopology(d, logical, t.(activeWindow := windowID)).(active := d.active[root.project := logical]))
  }

  ghost function HandleSelectPane(d: Daemon, sessionID: string, windowID: string, paneID: string): Outcome {
    if d.prepared then Refused(d, HandoffInProgress)
    else if LogicalSession(d, sessionID).None? then Refused(d, SessionNotFound)
    else
      var logical := LogicalID(LogicalSession(d, sessionID).value);
      if !PaneIsIn(d, paneID, logical, windowID) then Refused(d, PaneNotFound)
      else
        var t := TopologyOf(d, logical);
        Done(WithTopology(d, logical, t.(activeWindow := windowID, activePane := t.activePane[windowID := paneID]))
             .(active := d.active[SessionOf(d, paneID).value.project := logical]))
  }

  // An empty pane clears the zoom.
  ghost function HandleZoomPane(d: Daemon, sessionID: string, windowID: string, paneID: string): Outcome {
    if d.prepared then Refused(d, HandoffInProgress)
    else if LogicalSession(d, sessionID).None? then Refused(d, SessionNotFound)
    else
      var logical := LogicalID(LogicalSession(d, sessionID).value);
      if !HasWindow(d, logical, windowID) then Refused(d, SessionNotFound)
      else if paneID != "" && !PaneIsIn(d, paneID, logical, windowID) then Refused(d, PaneNotFound)
      else
        var t := TopologyOf(d, logical);
        Done(WithTopology(d, logical, t.(activeWindow := windowID,
          activePane := if paneID != "" then t.activePane[windowID := paneID] else t.activePane,
          zoomed := t.zoomed[windowID := paneID])))
  }

  // Panes of one window of a logical session.
  function Targets(d: Daemon, logical: string, windowID: string): set<string> {
    set id | id in d.sessions && LogicalID(d.sessions[id]) == logical && d.sessions[id].window == windowID
  }

  function Dropped(d: Daemon, ids: set<string>): Daemon {
    d.(sessions := d.sessions - ids,
       panes := d.panes - (set id | id in ids && id in d.sessions :: d.sessions[id].paneID))
  }

  // What is left selected in a project once a logical session has lost panes.
  ghost function Reselected(d: Daemon, project: string, logical: string, wasActive: bool): Daemon {
    if logical in Logicals(d.sessions) then Touched(d, logical)
    else
      var gone := d.(topology := d.topology - {logical});
      var rest := LogicalsOf(d.sessions, project);
      if !wasActive then gone
      else if rest == {} then gone.(active := d.active - {project})
      else
        LeastExists(rest);
        var least :| IsLeast(least, rest);
        gone.(active := d.active[project := least])
  }

  ghost function ClosedPlacement(d: Daemon, logical: string, windowID: string): Daemon {
    WithTopology(d, logical, RemovePlacement(TopologyOf(d, logical), windowID))
  }

  ghost function HandleDestroy(d: Daemon, sessionID: string): Outcome {
    if d.prepared then Refused(d, HandoffInProgress)
    else if sessionID !in d.sessions then Refused(d, SessionNotFound)
    else
      var p := d.sessions[sessionID];
      var logical := LogicalID(p);
      var wasActive := At(d.active, p.project, "") == logical;
      var placed := if Targets(d, logical, p.window) == {sessionID} then ClosedPlacement(d, logical, p.window) else d;
      Done(Reselected(Dropped(placed, {sessionID}), p.project, logical, wasActive))
  }

  ghost function HandleDestroyWindow(d: Daemon, sessionID: string, windowID: string): Outcome {
    if d.prepared then Refused(d, HandoffInProgress)
    else if LogicalSession(d, sessionID).None? then Refused(d, SessionNotFound)
    else
      var root := LogicalSession(d, sessionID).value;
      var logical := LogicalID(root);
      var targets := Targets(d, logical, windowID);
      if targets == {} then Refused(d, SessionNotFound)
      else
        var wasActive := At(d.active, root.project, "") == logical;
        Done(Reselected(Dropped(ClosedPlacement(d, logical, windowID), targets), root.project, logical, wasActive))
  }

  // Reading normalises what it shows.
  ghost function Shown(d: Daemon, logicals: set<string>): Daemon {
    d.(topology := map l | l in d.topology.Keys + logicals :: if l in logicals then TopologyOf(d, l) else d.topology[l])
  }

  ghost function HandleReadTopology(d: Daemon, project: string): Outcome {
    Done(Shown(d, LogicalsOf(d.sessions, project)))
  }

  // authorizeProject: a request names no session and no pane of another project.
  ghost predicate Authorized(d: Daemon, project: string, sessionID: string, paneID: string) {
    && (sessionID != "" && LogicalSession(d, sessionID).Some? ==> LogicalSession(d, sessionID).value.project == project)
    && (paneID != "" && SessionOf(d, paneID).Some? ==> SessionOf(d, paneID).value.project == project)
  }

  function SessionNamed(r: Request): string {
    match r
    case NewWindow(s, _, _) => s
    case ResizeSplit(s, _, _, _) => s
    case Destroy(s) => s
    case DestroyWindow(s, _) => s
    case SelectWindow(s, _) => s
    case SelectPane(s, _, _) => s
    case ZoomPane(s, _, _) => s
    case _ => ""
  }

  function PaneNamed(r: Request): string {
    match r
    case Split(p, _, _, _, _) => p
    case ResizeSplit(_, _, p, _) => p
    case SelectPane(_, _, p) => p
    case ZoomPane(_, _, p) => p
    case _ => ""
  }

  // The namespace of a request that names no project.
  function ProjectName(project: string): (r: string)
    ensures r != "" && (project != "" ==> r == project)
  {
    if project == "" then "standalone" else project
  }

  ghost function Handle(d: Daemon, named: string, r: Request): Outcome {
    var project := ProjectName(named);
    if !Authorized(d, project, SessionNamed(r), PaneNamed(r)) then Refused(d, ProjectScope)
    else
      match r
      case Create(command, starts) => HandleCreate(d, project, command, starts)
      case Split(paneID, direction, ratio, command, starts) => HandleSplit(d, paneID, direction, ratio, command, starts)
      case NewWindow(sessionID, command, starts) => HandleNewWindow(d, sessionID, command, starts)
      case ResizeSplit(sessionID, windowID, paneID, ratio) => HandleResizeSplit(d, sessionID, windowID, paneID, ratio)
      case Destroy(sessionID) => HandleDestroy(d, sessionID)
      case DestroyWindow(sessionID, windowID) => HandleDestroyWindow(d, sessionID, windowID)
      case SelectWindow(sessionID, windowID) => HandleSelectWindow(d, sessionID, windowID)
      case SelectPane(sessionID, windowID, paneID) => HandleSelectPane(d, sessionID, windowID, paneID)
      case ZoomPane(sessionID, windowID, paneID) => HandleZoomPane(d, sessionID, windowID, paneID)
      case ReadTopology => HandleReadTopology(d, project)
  }
}
