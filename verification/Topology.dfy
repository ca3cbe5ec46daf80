// What the daemon remembers of a logical session's windows: their order, the active one,
// and in each the active pane, the zoomed pane and the split tree (operations.go).
module Topology {
  import opened Text
  import opened Layout

  datatype State = State(activeWindow: string, order: seq<string>, activePane: map<string, string>,
                         zoomed: map<string, string>, layouts: map<string, Layout>)

  // The live panes of each live window.
  type Windows = map<string, set<string>>

  function Fresh(): State {
    State("", [], map[], map[], map[])
  }

  function At<T>(m: map<string, T>, key: string, absent: T): T {
    if key in m then m[key] else absent
  }

  // ---- Window order ------------------------------------------------------

  // The first loop of normalizeWindowOrder: live windows, each at its first place.
  function Known(order: seq<string>, windows: set<string>): seq<string> {
    if order == [] then []
    else
      var before, last := Known(order[..|order| - 1], windows), order[|order| - 1];
      if last in windows && last !in before then before + [last] else before
  }

  ghost function NormalizeOrder(order: seq<string>, windows: set<string>): seq<string> {
    var known := Known(order, windows);
    known + SortedKeys(windows - Elements(known))
  }

  lemma {:induction false} KnownIsDistinct(order: seq<string>, windows: set<string>)
    ensures Distinct(Known(order, windows)) && Elements(Known(order, windows)) == Elements(order) * windows
  {
    if order != [] {
      var n := |order| - 1;
      KnownIsDistinct(order[..n], windows);
      JoinedLists(order[..n], [order[n]]);
      assert order == order[..n] + [order[n]];
      JoinedLists(Known(order[..n], windows), [order[n]]);
      assert order[n] in Known(order[..n], windows) <==> order[n] in Elements(Known(order[..n], windows));
    }
  }

  lemma {:induction false} KnownKeepsOrder(order: seq<string>, windows: set<string>)
    requires Distinct(order)
    ensures Known(order, windows) == Mapped(order, Keep(windows))
  {
    if order != [] {
      var n := |order| - 1;
      KnownKeepsOrder(order[..n], windows);
      KnownIsDistinct(order[..n], windows);
      assert order[n] !in Elements(order[..n]);
      assert order[n] !in Elements(Known(order[..n], windows));
    }
  }

  // Every live window has one place. Placed windows keep their order, and the others
  // follow in ascending order.
  lemma NormalizeOrderIsExactly(order: seq<string>, windows: set<string>)
    ensures var r := NormalizeOrder(order, windows);
            && Distinct(r) && Elements(r) == windows
            && (Distinct(order) ==> r == Mapped(order, Keep(windows)) + SortedKeys(windows - Elements(order)))
            && (Distinct(order) && Elements(order) == windows ==> r == order)
  {
    var known := Known(order, windows);
    KnownIsDistinct(order, windows);
    hide Known, SortedKeys, Mapped;
    JoinedLists(known, SortedKeys(windows - Elements(known)));
    assert windows - Elements(known) == windows - Elements(order);
    if Distinct(order) {
      KnownKeepsOrder(order, windows);
      if Elements(order) == windows {
        KeptAll(order, windows);
        assert windows - Elements(order) == {};
        NothingToSort();
        assert order + [] == order;
      }
    }
  }

  method NormalizeWindowOrder(order: seq<string>, windows: set<string>) returns (r: seq<string>)
    ensures r == NormalizeOrder(order, windows)
  {
    hide SortedKeys;
    r := [];
    var seen: set<string> := {};
    var i := 0;
    assert order[..0] == [];
    while i < |order|
      invariant i <= |order| && r == Known(order[..i], windows) && seen == Elements(r)
    {
      assert order[..i + 1][..i] == order[..i];
      if order[i] in windows && order[i] !in seen {
        JoinedLists(r, [order[i]]);
        seen := seen + {order[i]};
        r := r + [order[i]];
      }
      i := i + 1;
    }
    assert order[..i] == order;
    var missing := set w | w in windows && w !in seen;
    assert missing == windows - Elements(r);
    var rest := SortedMapKeys(missing);
    r := r + rest;
  }

  // ---- Normalising -------------------------------------------------------

  // Names are not empty, and no live window is.
  predicate Sane(windows: Windows) {
    "" !in windows && forall w | w in windows :: windows[w] != {} && "" !in windows[w]
  }

  // topologyStateLocked over the live panes.
  ghost function Normalized(t: State, windows: Windows): State {
    var order := NormalizeOrder(t.order, windows.Keys);
    State(if t.activeWindow in windows then t.activeWindow else First(order), order,
          NormalPanes(t.activePane, windows), NormalZooms(t.zoomed, windows), NormalLayouts(t.layouts, windows))
  }

  ghost function NormalPanes(activePane: map<string, string>, windows: Windows): map<string, string> {
    map w | w in windows :: NormalPane(At(activePane, w, ""), windows[w])
  }

  ghost function NormalPane(paneID: string, panes: set<string>): string {
    if paneID in panes then paneID else First(SortedKeys(panes))
  }

  function NormalZooms(zoomed: map<string, string>, windows: Windows): map<string, string> {
    map w | w in zoomed && w in windows :: NormalZoom(zoomed[w], windows[w])
  }

  function NormalZoom(paneID: string, panes: set<string>): string {
    if paneID in panes then paneID else ""
  }

  ghost function NormalLayouts(layouts: map<string, Layout>, windows: Windows): map<string, Layout> {
    map w | w in windows :: Normalize(At(layouts, w, Nil), windows[w])
  }

  // The tree holds exactly these panes, each once.
  predicate Holds(layout: Layout, panes: set<string>) {
    Proper(layout) && Distinct(Leaves(layout)) && Elements(Leaves(layout)) == panes
  }

  predicate GoodPlaces(order: seq<string>, activeWindow: string, windows: set<string>) {
    && Distinct(order) && Elements(order) == windows
    && if windows == {} then activeWindow == "" else activeWindow in windows
  }

  predicate GoodPanes(activePane: map<string, string>, windows: Windows) {
    activePane.Keys == windows.Keys && forall w | w in windows :: activePane[w] in windows[w]
  }

  predicate GoodZooms(zoomed: map<string, string>, windows: Windows) {
    forall w | w in zoomed :: w in windows && (zoomed[w] == "" || zoomed[w] in windows[w])
  }

  predicate GoodLayouts(layouts: map<string, Layout>, windows: Windows) {
    layouts.Keys == windows.Keys && forall w | w in windows :: Holds(layouts[w], windows[w])
  }

  // What the daemon promises of a session at rest.
  predicate Settled(t: State, windows: Windows) {
    && GoodPlaces(t.order, t.activeWindow, windows.Keys) && GoodPanes(t.activePane, windows)
    && GoodZooms(t.zoomed, windows) && GoodLayouts(t.layouts, windows)
  }

  // The least that normalising needs: trees without a repeated leaf.
  predicate Manageable(layouts: map<string, Layout>) {
    forall w | w in layouts :: (layouts[w].Nil? || Formed(layouts[w])) && Distinct(Leaves(layouts[w]))
  }

  lemma FirstIsMember(s: seq<string>)
    ensures s != [] ==> First(s) in Elements(s)
    ensures s == [] <==> Elements(s) == {}
  {
    EmptyElements(s);
  }

  lemma NormalPaneIsLive(paneID: string, panes: set<string>)
    requires panes != {}
    ensures NormalPane(paneID, panes) in panes
  {
    hide SortedKeys;
    FirstIsMember(SortedKeys(panes));
  }

  lemma NormalLayoutHolds(layout: Layout, panes: set<string>)
    requires (layout.Nil? || Formed(layout)) && Distinct(Leaves(layout)) && panes != {} && "" !in panes
    ensures Holds(Normalize(layout, panes), panes)
  {
    hide Normalize, Leaves;
    NormalizeIsExactly(layout, panes);
  }

  lemma NormalLayoutsAreGood(layouts: map<string, Layout>, windows: Windows)
    requires Manageable(layouts) && Sane(windows)
    ensures GoodLayouts(NormalLayouts(layouts, windows), windows)
  {
    hide Normalize, Holds;
    forall w | w in windows ensures Holds(Normalize(At(layouts, w, Nil), windows[w]), windows[w]) {
      NormalLayoutHolds(At(layouts, w, Nil), windows[w]);
    }
  }

  // Normalising settles a session over whatever panes are live.
  lemma NormalizedIsSettled(t: State, windows: Windows)
    requires Manageable(t.layouts) && Sane(windows)
    ensures Settled(Normalized(t, windows), windows)
  {
    var r := Normalized(t, windows);
    NormalizeOrderIsExactly(t.order, windows.Keys);
    hide NormalizeOrder, NormalPane, NormalLayouts, GoodLayouts, Manageable;
    FirstIsMember(r.order);
    forall w | w in windows ensures NormalPane(At(t.activePane, w, ""), windows[w]) in windows[w] {
      NormalPaneIsLive(At(t.activePane, w, ""), windows[w]);
    }
    NormalLayoutsAreGood(t.layouts, windows);
  }

  // Where focus and zoom fall when what had them is gone: to the first window in order, to
  // the least pane by name, and to nothing.
  lemma FocusFallsBack(t: State, windows: Windows, w: string)
    requires Sane(windows)
    ensures var r := Normalized(t, windows);
            && r.activeWindow == (if t.activeWindow in windows then t.activeWindow else if r.order == [] then "" else r.order[0])
            && r.activePane.Keys == windows.Keys && r.zoomed.Keys == t.zoomed.Keys * windows.Keys
            && (w in windows ==> if w in t.activePane && t.activePane[w] in windows[w] then r.activePane[w] == t.activePane[w]
                                 else IsLeast(r.activePane[w], windows[w]))
            && (w in r.zoomed ==> r.zoomed[w] == if t.zoomed[w] in windows[w] then t.zoomed[w] else "")
  {
    hide NormalizeOrder, NormalLayouts, SortedKeys;
    if w in windows { SortedKeysStart(windows[w]); }
  }

  lemma HeldIsFixed(layout: Layout, panes: set<string>)
    requires Holds(layout, panes)
    ensures Normalize(layout, panes) == layout
  {
    ProperIsFormed(layout);
    NormalizeIsIdentityExactly(layout, panes);
  }

  lemma GoodIsFixed(t: State, windows: Windows)
    ensures GoodPanes(t.activePane, windows) ==> NormalPanes(t.activePane, windows) == t.activePane
    ensures GoodZooms(t.zoomed, windows) ==> NormalZooms(t.zoomed, windows) == t.zoomed
    ensures GoodLayouts(t.layouts, windows) ==> NormalLayouts(t.layouts, windows) == t.layouts
  {
    hide Normalize, Holds;
    if GoodLayouts(t.layouts, windows) {
      forall w | w in windows ensures Normalize(t.layouts[w], windows[w]) == t.layouts[w] {
        HeldIsFixed(t.layouts[w], windows[w]);
      }
    }
  }

  // A settled session is left exactly as it is.
  lemma SettledIsFixed(t: State, windows: Windows)
    requires Settled(t, windows)
    ensures Normalized(t, windows) == t
  {
    NormalizeOrderIsExactly(t.order, windows.Keys);
    FirstIsMember(t.order);
    hide NormalizeOrder, NormalPanes, NormalZooms, NormalLayouts, GoodPanes, GoodZooms, GoodLayouts;
    GoodIsFixed(t, windows);
  }

  // ---- One pane more, one pane less --------------------------------------

  function Add(windows: Windows, w: string, paneID: string): Windows {
    windows[w := At(windows, w, {}) + {paneID}]
  }

  // A pane that appears joins the end of its window's tree; its window, if it is new,
  // goes to the end of the order. Nothing else changes.
  function Joins(t: State, w: string, paneID: string): State {
    if w in t.layouts then t.(layouts := t.layouts[w := AppendPane(t.layouts[w], paneID)])
    else
      State(if t.activeWindow == "" then w else t.activeWindow, t.order + [w],
            t.activePane[w := paneID], t.zoomed, t.layouts[w := Leaf(paneID)])
  }

  lemma AppendHolds(layout: Layout, panes: set<string>, paneID: string)
    requires Held(layout, panes) && paneID != "" && paneID !in panes
    ensures Holds(AppendPane(layout, paneID), panes + {paneID})
  {
    assert Elements([paneID]) == {paneID};
    JoinedLists(Leaves(layout), [paneID]);
    assert [] + [paneID] == [paneID];
  }

  // Like Holds, for a window that may not be there yet.
  predicate Held(layout: Layout, panes: set<string>) {
    if panes == {} then layout.Nil? else Holds(layout, panes)
  }

  lemma NormalizeWithOneMore(layout: Layout, panes: set<string>, paneID: string)
    requires Held(layout, panes) && paneID != "" && paneID !in panes
    ensures Normalize(layout, panes + {paneID}) == AppendPane(layout, paneID)
  {
    var more := panes + {paneID};
    var keys := SortedKeys(more);
    if layout.Node? {
      ProperIsFormed(layout);
      PruneIsIdentityExactly(layout, more);
    }
    hide SortedKeys;
    LeavesAreNamed(layout);
    forall x | x in keys ensures x != "" && (x in Leaves(layout) <==> x != paneID) {
      assert x in Elements(keys);
      assert x in Leaves(layout) <==> x in Elements(Leaves(layout));
      assert "" !in Elements(Leaves(layout));
    }
    assert paneID in Elements(keys);
    AppendOnlyMissing(layout, keys, paneID);
  }

  lemma {:induction false} AppendOnlyMissing(layout: Layout, keys: seq<string>, paneID: string)
    requires Tidy(layout) && Distinct(keys) && paneID in keys && "" !in keys
    requires forall x | x in keys :: x in Leaves(layout) <==> x != paneID
    ensures AppendMissing(layout, keys) == AppendPane(layout, paneID)
    decreases |keys|
  {
    var x, rest := keys[0], keys[1..];
    assert x in keys && forall y | y in rest :: y in keys;
    HasIsLeaf(layout, x);
    if x == paneID {
      AppendNothing(AppendPane(layout, paneID), rest);
    } else {
      AppendOnlyMissing(layout, rest, paneID);
    }
  }

  lemma SortedOne(x: string)
    ensures SortedKeys({x}) == [x]
  {
    LeqTotal(x, x);
    SortedKeysCons({x}, x);
    NothingToSort();
    assert {x} - {x} == {};
    assert [x] + [] == [x];
  }

  lemma JoinedPlaces(t: State, windows: Windows, w: string, paneID: string)
    requires GoodPlaces(t.order, t.activeWindow, windows.Keys) && t.layouts.Keys == windows.Keys && "" !in windows && w != ""
    ensures var more, joined := Add(windows, w, paneID), Joins(t, w, paneID);
            && GoodPlaces(joined.order, joined.activeWindow, more.Keys)
            && NormalizeOrder(t.order, more.Keys) == joined.order
            && joined.activeWindow == if t.activeWindow in more then t.activeWindow else First(joined.order)
  {
    var more := Add(windows, w, paneID);
    NormalizeOrderIsExactly(t.order, more.Keys);
    FirstIsMember(t.order);
    hide SortedKeys, Mapped, NormalizeOrder;
    if w in windows {
      assert more.Keys == windows.Keys;
    } else {
      assert more.Keys == windows.Keys + {w};
      KeptAll(t.order, more.Keys);
      assert more.Keys - Elements(t.order) == {w};
      SortedOne(w);
      assert t.order + SortedKeys({w}) == t.order + [w];
      JoinedLists(t.order, [w]);
      assert Elements([w]) == {w};
    }
  }

  lemma JoinedPanes(t: State, windows: Windows, w: string, paneID: string)
    requires GoodPanes(t.activePane, windows) && t.layouts.Keys == windows.Keys && paneID != "" && Sane(windows)
    ensures var more, joined := Add(windows, w, paneID), Joins(t, w, paneID);
            GoodPanes(joined.activePane, more) && NormalPanes(t.activePane, more) == joined.activePane
  {
    var more, joined := Add(windows, w, paneID), Joins(t, w, paneID);
    if w !in windows {
      assert more[w] == {paneID};
      SortedOne(paneID);
    }
    hide SortedKeys;
    assert NormalPanes(t.activePane, more) == joined.activePane;
  }

  lemma JoinedZooms(t: State, windows: Windows, w: string, paneID: string)
    requires GoodZooms(t.zoomed, windows)
    ensures GoodZooms(t.zoomed, Add(windows, w, paneID)) && NormalZooms(t.zoomed, Add(windows, w, paneID)) == t.zoomed
  {
  }

  lemma JoinedLayouts(t: State, windows: Windows, w: string, paneID: string)
    requires GoodLayouts(t.layouts, windows) && Sane(windows) && paneID != "" && paneID !in At(windows, w, {})
    ensures var more, joined := Add(windows, w, paneID), Joins(t, w, paneID);
            GoodLayouts(joined.layouts, more) && NormalLayouts(t.layouts, more) == joined.layouts
  {
    hide Normalize, Holds;
    var more, joined := Add(windows, w, paneID), Joins(t, w, paneID);
    var layout, panes := At(t.layouts, w, Nil), At(windows, w, {});
    AppendHolds(layout, panes, paneID);
    NormalizeWithOneMore(layout, panes, paneID);
    forall v | v in windows && v != w ensures Normalize(t.layouts[v], more[v]) == t.layouts[v] && Holds(t.layouts[v], more[v]) {
      HeldIsFixed(t.layouts[v], windows[v]);
    }
    assert NormalLayouts(t.layouts, more) == joined.layouts;
  }

  // A settled session that gains a pane changes by that pane alone.
  lemma PaneJoins(t: State, windows: Windows, w: string, paneID: string)
    requires Settled(t, windows) && Sane(windows) && w != "" && paneID != "" && paneID !in At(windows, w, {})
    ensures var more := Add(windows, w, paneID);
            Normalized(t, more) == Joins(t, w, paneID) && Settled(Joins(t, w, paneID), more)
  {
    JoinedPlaces(t, windows, w, paneID);
    JoinedPanes(t, windows, w, paneID);
    JoinedZooms(t, windows, w, paneID);
    JoinedLayouts(t, windows, w, paneID);
    hide GoodPlaces, GoodPanes, GoodZooms, GoodLayouts, NormalizeOrder, NormalPanes, NormalZooms, NormalLayouts;
  }

  // A pane that goes takes its leaf with it; where it was active the first pane by name
  // becomes so, and where it was zoomed nothing is. Its window stays, having others.
  ghost function Parts(t: State, w: string, paneID: string, rest: set<string>): State
    requires w in t.layouts && w in t.activePane
  {
    t.(activePane := t.activePane[w := NormalPane(t.activePane[w], rest)],
       zoomed := if w in t.zoomed then t.zoomed[w := NormalZoom(t.zoomed[w], rest)] else t.zoomed,
       layouts := t.layouts[w := RemovePane(t.layouts[w], paneID)])
  }

  // On a tidy tree that holds the panes, pruning to all but one is removing that one.
  lemma {:induction false} PruneIsRemove(layout: Layout, panes: set<string>, paneID: string)
    requires Tidy(layout) && paneID != "" && Elements(Leaves(layout)) <= panes
    ensures PrunePanes(layout, panes - {paneID}) == RemovePane(layout, paneID)
  {
    if IsSplit(layout) {
      JoinedLists(Leaves(layout.first), Leaves(layout.second));
      PruneIsRemove(layout.first, panes, paneID);
      PruneIsRemove(layout.second, panes, paneID);
    } else if layout.Node? {
      assert layout.paneID in Elements(Leaves(layout));
    }
  }

  lemma NormalizeWithOneLess(layout: Layout, panes: set<string>, paneID: string)
    requires Holds(layout, panes) && paneID != "" && panes - {paneID} != {}
    ensures Normalize(layout, panes - {paneID}) == RemovePane(layout, paneID)
    ensures Holds(RemovePane(layout, paneID), panes - {paneID})
  {
    var rest := panes - {paneID};
    var keys := SortedKeys(rest);
    LeavesAreNamed(layout);
    ProperIsFormed(layout);
    PruneIsExactly(layout, rest);
    PruneIsRemove(layout, panes, paneID);
    KeptElements(Leaves(layout), rest);
    KeptDistinct(Leaves(layout), rest);
    hide SortedKeys, Mapped, PrunePanes, RemovePane;
    var pruned := PrunePanes(layout, rest);
    TreeHasLeaves(pruned);
    LeavesAreNamed(pruned);
    forall x | x in keys ensures x != "" && x in Leaves(pruned) {
      assert x in Elements(keys);
      assert x in Elements(Leaves(pruned));
      assert "" !in Elements(Leaves(pruned));
    }
    AppendNothing(pruned, keys);
  }

  lemma PartedLayouts(t: State, windows: Windows, w: string, paneID: string)
    requires GoodLayouts(t.layouts, windows) && w in windows && paneID != "" && windows[w] - {paneID} != {}
    ensures var fewer := windows[w := windows[w] - {paneID}]; var layouts := t.layouts[w := RemovePane(t.layouts[w], paneID)];
            GoodLayouts(layouts, fewer) && NormalLayouts(t.layouts, fewer) == layouts
  {
    hide Normalize, Holds, RemovePane;
    var fewer := windows[w := windows[w] - {paneID}];
    NormalizeWithOneLess(t.layouts[w], windows[w], paneID);
    forall v | v in windows && v != w ensures Normalize(t.layouts[v], fewer[v]) == t.layouts[v] && Holds(t.layouts[v], fewer[v]) {
      HeldIsFixed(t.layouts[v], windows[v]);
    }
    assert NormalLayouts(t.layouts, fewer) == t.layouts[w := RemovePane(t.layouts[w], paneID)];
  }

  lemma PartedPanes(t: State, windows: Windows, w: string, rest: set<string>)
    requires GoodPanes(t.activePane, windows) && GoodZooms(t.zoomed, windows) && w in windows && rest != {} && "" !in rest
    ensures var fewer := windows[w := rest];
            var activePane := t.activePane[w := NormalPane(t.activePane[w], rest)];
            var zoomed := if w in t.zoomed then t.zoomed[w := NormalZoom(t.zoomed[w], rest)] else t.zoomed;
            && GoodPanes(activePane, fewer) && NormalPanes(t.activePane, fewer) == activePane
            && GoodZooms(zoomed, fewer) && NormalZooms(t.zoomed, fewer) == zoomed
  {
    hide SortedKeys;
    var fewer := windows[w := rest];
    NormalPaneIsLive(t.activePane[w], rest);
    assert NormalPanes(t.activePane, fewer) == t.activePane[w := NormalPane(t.activePane[w], rest)];
    assert NormalZooms(t.zoomed, fewer) == if w in t.zoomed then t.zoomed[w := NormalZoom(t.zoomed[w], rest)] else t.zoomed;
  }

  // A settled session that loses a pane of a window with others changes by that alone.
  lemma PaneParts(t: State, windows: Windows, w: string, paneID: string)
    requires Settled(t, windows) && Sane(windows) && w in windows && paneID != "" && windows[w] - {paneID} != {}
    ensures var rest := windows[w] - {paneID}; var fewer := windows[w := rest];
            && w in t.layouts && w in t.activePane
            && Normalized(t, fewer) == Parts(t, w, paneID, rest) && Settled(Parts(t, w, paneID, rest), fewer)
  {
    var fewer := windows[w := windows[w] - {paneID}];
    assert fewer.Keys == windows.Keys;
    hide NormalizeOrder, NormalPanes, NormalZooms, NormalLayouts, RemovePane, NormalPane, Holds, SortedKeys;
    PartedPanes(t, windows, w, windows[w] - {paneID});
    PartedLayouts(t, windows, w, paneID);
    hide GoodPanes, GoodZooms, GoodLayouts;
    PlacesStay(t, windows.Keys);
  }

  lemma PlacesStay(t: State, windows: set<string>)
    requires GoodPlaces(t.order, t.activeWindow, windows) && windows != {}
    ensures NormalizeOrder(t.order, windows) == t.order && t.activeWindow in windows
  {
    NormalizeOrderIsExactly(t.order, windows);
  }

  // ---- Closing a window --------------------------------------------------

  function IndexOf(order: seq<string>, w: string): (i: nat)
    ensures i <= |order| && (i < |order| <==> w in order) && (i < |order| ==> order[i] == w)
  {
    if order == [] then 0 else if order[0] == w then 0 else IndexOf(order[1..], w) + 1
  }

  function Cut(order: seq<string>, w: string): seq<string> {
    var i := IndexOf(order, w);
    if i < |order| then order[..i] + order[i + 1..] else order
  }

  // removeWindowPlacement: focus goes to the window that takes the closed one's place, or
  // to the last.
  function RemovePlacement(t: State, w: string): State {
    var i, order := IndexOf(t.order, w), Cut(t.order, w);
    State(
      if t.activeWindow != w then t.activeWindow
      else if i < |t.order| && i < |order| then order[i]
      else if order != [] then order[|order| - 1]
      else "",
      order, t.activePane - {w}, t.zoomed - {w}, t.layouts - {w})
  }

  lemma CutIsWithout(order: seq<string>, w: string)
    requires Distinct(order) && w in order
    ensures Distinct(Cut(order, w)) && Elements(Cut(order, w)) == Elements(order) - {w}
  {
    var i := IndexOf(order, w);
    var a, b := order[..i], order[i + 1..];
    assert order == a + [w] + b;
    JoinedLists(a + [w], b);
    JoinedLists(a, [w]);
    JoinedLists(a, b);
    assert Elements([w]) == {w};
    forall k | 0 <= k < |b| ensures b[k] != w { assert b[k] == order[i + 1 + k]; }
    forall x | x in Elements(a) ensures x !in Elements(b) {
      var k :| 0 <= k < |a| && a[k] == x;
      assert order[k] == x;
      forall l | 0 <= l < |b| ensures b[l] != x { assert b[l] == order[i + 1 + l]; }
    }
  }

  lemma CutPlaces(order: seq<string>, w: string)
    requires w in order
    ensures var i, cut := IndexOf(order, w), Cut(order, w);
            && |cut| == |order| - 1
            && (i < |cut| ==> cut[i] == order[i + 1]) && (i == |cut| && i > 0 ==> cut[|cut| - 1] == order[i - 1])
  {
  }

  lemma CutZoomsAndPanes(t: State, windows: Windows, w: string)
    requires w in windows
    ensures GoodPanes(t.activePane, windows) ==> GoodPanes(t.activePane - {w}, windows - {w})
    ensures GoodZooms(t.zoomed, windows) ==> GoodZooms(t.zoomed - {w}, windows - {w})
    ensures GoodLayouts(t.layouts, windows) ==> GoodLayouts(t.layouts - {w}, windows - {w})
  {
    hide Holds;
    assert (windows - {w}).Keys == windows.Keys - {w};
  }

  // Closing a window of a settled session leaves it settled over the others as it is.
  lemma PlacementIsSettled(t: State, windows: Windows, w: string)
    requires Settled(t, windows) && w in windows
    ensures Settled(RemovePlacement(t, w), windows - {w})
  {
    CutZoomsAndPanes(t, windows, w);
    assert w in Elements(t.order) && (windows - {w}).Keys == windows.Keys - {w};
    CutIsWithout(t.order, w);
    var cut := Cut(t.order, w);
    FirstIsMember(cut);
    hide GoodPanes, GoodZooms, GoodLayouts, Distinct;
    var i, r := IndexOf(t.order, w), RemovePlacement(t, w);
    if i < |cut| { assert cut[i] in Elements(cut); }
    if cut != [] { assert cut[|cut| - 1] in Elements(cut); }
  }

  // Closing takes the window and what was kept for it out, and leaves the others in order.
  // The focus rule: closing another window does not move it; closing the active one gives
  // it to the next in order, or to the one before when it was last.
  lemma FocusAfterClosing(t: State, windows: Windows, w: string)
    requires Settled(t, windows) && w in windows
    ensures var r := RemovePlacement(t, w); var i := IndexOf(t.order, w);
            && r.order == Mapped(t.order, Drop(w)) && r.layouts == t.layouts - {w}
            && r.activePane == t.activePane - {w} && r.zoomed == t.zoomed - {w}
            && r.activeWindow
               == if w != t.activeWindow then t.activeWindow
                  else if i + 1 < |t.order| then t.order[i + 1]
                  else if i > 0 then t.order[i - 1]
                  else ""
  {
    assert w in Elements(t.order);
    CutDrops(t.order, w);
    hide GoodPlaces, GoodPanes, GoodZooms, GoodLayouts, Mapped, Drop;
    CutPlaces(t.order, w);
  }

  lemma CutDrops(order: seq<string>, w: string)
    requires Distinct(order) && w in order
    ensures Cut(order, w) == Mapped(order, Drop(w))
  {
    hide Mapped, Drop;
    var i := IndexOf(order, w);
    assert order == order[..i] + [w] + order[i + 1..];
    forall k | 0 <= k < |order| && k != i ensures order[k] != w { }
    DropsOne(order[..i], w, order[i + 1..]);
  }

  lemma DropsOne(a: seq<string>, w: string, b: seq<string>)
    requires w !in a && w !in b
    ensures Mapped(a + [w] + b, Drop(w)) == a + b
  {
    hide *;
    MappedAppend(a + [w], b, Drop(w));
    MappedAppend(a, [w], Drop(w));
    DropsIt(w);
    DropsNothing(a, w);
    DropsNothing(b, w);
    assert a + [] == a;
  }

  lemma DropsIt(w: string)
    ensures Mapped([w], Drop(w)) == []
  {
    MappedOne(w, Drop(w));
  }

  lemma {:induction false} DropsNothing(s: seq<string>, w: string)
    requires w !in s
    ensures Mapped(s, Drop(w)) == s
  {
    if s != [] {
      var n := |s| - 1;
      assert s[..n] + [s[n]] == s;
      DropsNothing(s[..n], w);
    }
  }

  // A window placed more than once counts at its first place.
  lemma {:induction false} FirstPlaceCounts(order: seq<string>, windows: set<string>, i: nat, j: nat)
    requires i < j < |Known(order, windows)|
    ensures IndexOf(order, Known(order, windows)[i]) < IndexOf(order, Known(order, windows)[j]) < |order|
    decreases |order|
  {
    var n := |order| - 1;
    var before, last := Known(order[..n], windows), order[n];
    KnownIsDistinct(order[..n], windows);
    forall k: nat | k < |before| ensures before[k] in order[..n] { assert before[k] in Elements(before); }
    assert last in before <==> last in Elements(before);
    assert order == order[..n] + [last];
    if j < |before| {
      FirstPlaceCounts(order[..n], windows, i, j);
      IndexOfLonger(order[..n], last, before[j]);
    } else {
      IndexOfLonger(order[..n], last, last);
    }
    IndexOfLonger(order[..n], last, before[i]);
  }

  lemma {:induction false} IndexOfLonger(order: seq<string>, last: string, w: string)
    ensures IndexOf(order + [last], w) == if w in order then IndexOf(order, w) else if w == last then |order| else |order| + 1
  {
    if order != [] && order[0] != w {
      assert (order + [last])[1..] == order[1..] + [last];
      IndexOfLonger(order[1..], last, w);
    } else if order == [] {
      assert [] + [last] == [last];
    }
  }
}
