// Destroying a window, or a window's only pane, when a process does not stop
// (operations.go: destroyWindow, destroy). The operation returns at once: the window's
// place is gone already, so are some of its panes, and no session has been normalised or
// selected since. What a user sees next is what the next look at the session makes of it.
module FailedStops {
  import opened Text
  import opened Layout
  import opened Topology
  import opened Operations
  import opened TopologyClosure

  // The daemon such a request leaves behind: `gone` are the panes that did stop.
  ghost function StoppedShort(d: Daemon, logical: string, w: string, gone: set<string>): Daemon {
    Dropped(ClosedPlacement(d, logical, w), gone)
  }

  // The window is last, has lost its zoom, and shows its remaining panes in ascending
  // order; the focus is where closing it put it.
  ghost function Reappears(t: State, w: string, rest: set<string>): State {
    var closed := RemovePlacement(t, w);
    closed.(order := closed.order + [w],
            activeWindow := if closed.activeWindow == "" then w else closed.activeWindow,
            activePane := closed.activePane[w := First(SortedKeys(rest))],
            layouts := closed.layouts[w := Normalize(Nil, rest)])
  }

  // ---- Normalising a session that lost a place but not its window -------

  lemma {:induction false} AllKnown(order: seq<string>, windows: set<string>)
    requires Distinct(order) && Elements(order) <= windows
    ensures Known(order, windows) == order
  {
    if order != [] {
      var n := |order| - 1;
      assert order[n] in Elements(order);
      forall x | x in Elements(order[..n]) ensures x in Elements(order) {
        var k :| 0 <= k < n && order[..n][k] == x;
        assert order[k] == x;
      }
      AllKnown(order[..n], windows);
      assert order[n] !in order[..n];
      assert order == order[..n] + [order[n]];
    }
  }

  lemma OnlyKey(w: string)
    ensures SortedKeys({w}) == [w]
  {
    var r := SortedKeys({w});
    forall i | 0 <= i < |r| ensures r[i] == w { assert r[i] in Elements(r); }
  }

  lemma OrderOfRest(order: seq<string>, w: string, windows: set<string>)
    requires Distinct(order) && Elements(order) == windows && w in windows
    ensures NormalizeOrder(Cut(order, w), windows) == Cut(order, w) + [w]
    ensures Elements(Cut(order, w)) == windows - {w}
  {
    assert w in Elements(order);
    CutIsWithout(order, w);
    AllKnown(Cut(order, w), windows);
    assert windows - (windows - {w}) == {w};
    hide SortedKeys, Known;
    OnlyKey(w);
  }

  lemma FocusOfRest(t: State, windows: Windows, w: string)
    requires Settled(t, windows) && w in windows && "" !in windows
    ensures var closed := RemovePlacement(t, w);
            if closed.activeWindow == "" then closed.order == [] else closed.activeWindow in windows
  {
    PlacementIsSettled(t, windows, w);
    FirstIsMember(RemovePlacement(t, w).order);
    hide RemovePlacement, GoodPanes, GoodZooms, GoodLayouts;
    assert (windows - {w}).Keys == windows.Keys - {w};
  }

  lemma PanesOfRest(activePane: map<string, string>, windows: Windows, w: string, rest: set<string>)
    requires GoodPanes(activePane, windows - {w}) && w in windows && "" !in rest
    ensures NormalPanes(activePane, windows[w := rest]) == activePane[w := First(SortedKeys(rest))]
  {
    hide SortedKeys;
    var left := windows[w := rest];
    assert activePane.Keys == (windows - {w}).Keys == windows.Keys - {w};
    forall v | v in left && v != w ensures NormalPane(At(activePane, v, ""), left[v]) == activePane[v] {
      assert v in windows - {w} && (windows - {w})[v] == left[v];
    }
  }

  lemma ZoomsOfRest(zoomed: map<string, string>, windows: Windows, w: string, rest: set<string>)
    requires GoodZooms(zoomed, windows - {w}) && w in windows
    ensures NormalZooms(zoomed, windows[w := rest]) == zoomed
  {
    forall v | v in zoomed ensures v in windows[w := rest] && NormalZoom(zoomed[v], windows[w := rest][v]) == zoomed[v] {
      assert v in windows - {w};
    }
  }

  lemma LayoutsOfRest(layouts: map<string, Layout>, windows: Windows, w: string, rest: set<string>)
    requires GoodLayouts(layouts, windows - {w}) && w in windows
    ensures NormalLayouts(layouts, windows[w := rest]) == layouts[w := Normalize(Nil, rest)]
  {
    hide Normalize, Holds;
    var left := windows[w := rest];
    assert layouts.Keys == (windows - {w}).Keys == windows.Keys - {w};
    forall v | v in left && v != w ensures Normalize(At(layouts, v, Nil), left[v]) == layouts[v] {
      assert v in windows - {w} && (windows - {w})[v] == left[v];
      HeldIsFixed(layouts[v], left[v]);
    }
  }

  lemma MapsOfRest(t: State, windows: Windows, w: string, rest: set<string>)
    requires Settled(t, windows) && w in windows && "" !in rest
    ensures var closed := RemovePlacement(t, w); var left := windows[w := rest];
            && NormalPanes(closed.activePane, left) == closed.activePane[w := First(SortedKeys(rest))]
            && NormalZooms(closed.zoomed, left) == closed.zoomed
            && NormalLayouts(closed.layouts, left) == closed.layouts[w := Normalize(Nil, rest)]
  {
    var closed := RemovePlacement(t, w);
    PlacementIsSettled(t, windows, w);
    hide RemovePlacement, Normalize, SortedKeys, NormalPanes, NormalZooms, NormalLayouts, GoodPlaces, GoodPanes, GoodZooms, GoodLayouts;
    PanesOfRest(closed.activePane, windows, w, rest);
    ZoomsOfRest(closed.zoomed, windows, w, rest);
    LayoutsOfRest(closed.layouts, windows, w, rest);
  }

  lemma RestIsExactly(t: State, windows: Windows, w: string, rest: set<string>)
    requires Settled(t, windows) && w in windows && Sane(windows[w := rest])
    ensures Normalized(RemovePlacement(t, w), windows[w := rest]) == Reappears(t, w, rest)
  {
    var left := windows[w := rest];
    assert left.Keys == windows.Keys && rest == left[w] && "" !in windows;
    OrderOfRest(t.order, w, windows.Keys);
    FocusOfRest(t, windows, w);
    MapsOfRest(t, windows, w, rest);
    hide NormalizeOrder, NormalPanes, NormalZooms, NormalLayouts, Normalize, Settled, Sane, SortedKeys;
    assert ([] + [w])[0] == w;
  }

  // ---- The daemon -------------------------------------------------------

  // The windows of a session that lost some panes of one of them, and not all.
  lemma DroppedSome(sessions: Sessions, ids: set<string>, all: set<string>, logical: string, w: string)
    requires all == set id | id in sessions && LogicalID(sessions[id]) == logical && WindowID(sessions[id]) == w
    requires ids < all
    ensures var left := LiveWindows(sessions - ids, logical);
            && w in left && w in LiveWindows(sessions, logical) && left == LiveWindows(sessions, logical)[w := left[w]]
    ensures logical in Logicals(sessions - ids)
  {
    var less := sessions - ids;
    assert !(all <= ids);
    var id :| id in all && id !in ids;
    assert id in less && less[id] == sessions[id];
    assert forall i | i in sessions && LogicalID(sessions[i]) == logical && WindowID(sessions[i]) != w :: i in less && less[i] == sessions[i];
    assert WindowsIn(less, logical) == WindowsIn(sessions, logical);
    forall v | v != w ensures PanesIn(less, logical, v) == PanesIn(sessions, logical, v) { }
  }

  // The next look at the session, by any request or by reading the topology, restores all
  // the daemon promises: the panes that did not stop are live and in their window, under
  // the same names, and nothing has happened to any other window, session or selection.
  lemma NextLookRestores(d: Daemon, p: Pane, w: string, gone: set<string>)
    requires Inv(d) && p.id in d.sessions && d.sessions[p.id] == p && gone < Targets(d, LogicalID(p), w)
    ensures var l := LogicalID(p); var short := StoppedShort(d, l, w, gone); var after := Touched(short, l);
            && Inv(after) && after.sessions == d.sessions - gone && after.active == d.active
            && l in d.topology && w in LiveWindows(after.sessions, l)
            && after.topology == d.topology[l := Reappears(d.topology[l], w, LiveWindows(after.sessions, l)[w])]
  {
    hide *;
    var l := LogicalID(p);
    InvHasIds(d);
    ProjectFacts(d, p);
    SomeStay(d, l, w, gone);
    ShortTouched(d, l, w, gone);
    var after := Touched(StoppedShort(d, l, w, gone), l);
    SelectionStays(d.active, after.active, after.sessions, l, p.project);
    LosingKeeps(d, after, gone, l, p.project);
  }

  // The daemon at the next look, part by part.
  lemma ShortTouched(d: Daemon, l: string, w: string, gone: set<string>)
    requires Inv(d) && l in Logicals(d.sessions) && gone < Targets(d, l, w)
    ensures var after := Touched(StoppedShort(d, l, w, gone), l); var left := LiveWindows(d.sessions - gone, l);
            && after.sessions == d.sessions - gone == Dropped(d, gone).sessions && after.panes == Dropped(d, gone).panes
            && after.active == d.active && after.nextSession == d.nextSession && after.nextWindow == d.nextWindow
            && l in d.topology && w in left
            && after.topology == d.topology[l := Reappears(d.topology[l], w, left[w])]
            && Settled(after.topology[l], left)
  {
    InvHasIds(d);
    AtRestIn(d, l);
    SomeStay(d, l, w, gone);
    LessIsSane(d, l, w, gone);
    hide Inv, Settled, LiveWindows, Normalized, Reappears, Targets, Logicals, GoodIds, RemovePlacement, Sane, Manageable, AllOf;
    var windows, left := LiveWindows(d.sessions, l), LiveWindows(d.sessions - gone, l);
    RestIsExactly(d.topology[l], windows, w, left[w]);
    PlacedIsManageable(d.topology[l], windows, w);
    NormalizedIsSettled(RemovePlacement(d.topology[l], w), left);
    ShortIs(d, l, w, gone);
  }

  lemma ShortIs(d: Daemon, l: string, w: string, gone: set<string>)
    requires l in d.topology && TopologyOf(d, l) == d.topology[l]
    ensures var short := StoppedShort(d, l, w, gone); var closed := RemovePlacement(d.topology[l], w);
            && short == Dropped(d, gone).(topology := d.topology[l := closed])
            && Touched(short, l) == Dropped(d, gone).(topology := d.topology[l := Normalized(closed, LiveWindows(d.sessions - gone, l))])
  {
    hide Normalized, LiveWindows, RemovePlacement;
    var closed := RemovePlacement(d.topology[l], w);
    var normal := Normalized(closed, LiveWindows(d.sessions - gone, l));
    assert d.topology[l := closed][l := normal] == d.topology[l := normal];
  }

  lemma SomeStay(d: Daemon, l: string, w: string, gone: set<string>)
    requires GoodIds(d) && gone < Targets(d, l, w)
    ensures var less := d.sessions - gone; var left := LiveWindows(less, l);
            && AllOf(d.sessions, gone, l) && l in Logicals(less)
            && w in left && w in LiveWindows(d.sessions, l) && left == LiveWindows(d.sessions, l)[w := left[w]]
  {
    TargetsAre(d, l, w);
    var all := Targets(d, l, w);
    assert forall id | id in gone :: id in all;
    hide Targets, GoodIds, LiveWindows, Logicals;
    DroppedSome(d.sessions, gone, all, l, w);
  }

  lemma AtRestIn(d: Daemon, l: string)
    requires Inv(d) && l in Logicals(d.sessions)
    ensures l in d.topology && Settled(d.topology[l], LiveWindows(d.sessions, l)) && TopologyOf(d, l) == d.topology[l]
  {
    hide Settled, LiveWindows, TopologyOf, GoodIds, OneProject, GoodActive, AllFollow;
    AtRest(d, l);
  }

  lemma LessIsSane(d: Daemon, l: string, w: string, gone: set<string>)
    requires GoodIds(d) && gone < Targets(d, l, w)
    ensures Sane(LiveWindows(d.sessions - gone, l))
  {
    assert gone <= d.sessions.Keys by { TargetsAre(d, l, w); }
    hide GoodPane, Sane, LiveWindows;
    DroppedIds(d, gone);
    LiveIsSane(Dropped(d, gone), l);
  }

  lemma PlacedIsManageable(t: State, windows: Windows, w: string)
    requires Settled(t, windows) && w in windows
    ensures Manageable(RemovePlacement(t, w).layouts)
  {
    hide GoodPlaces, GoodPanes, GoodZooms, Formed, Proper;
    forall v | v in t.layouts && v != w ensures Formed(t.layouts[v]) && Distinct(Leaves(t.layouts[v])) {
      assert Holds(t.layouts[v], windows[v]);
      ProperIsFormed(t.layouts[v]);
    }
  }
}
