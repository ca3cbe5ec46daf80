// The manifest one daemon hands to its replacement, and the strict validators that accept
// it (handoff_unix.go). A snapshot is the bytes it is; the rest of a pane's state that the
// validators do not look at is left out.
module HandoffManifest {
  import opened Text
  import opened Layout
  import opened Topology

  const MANIFEST_VERSION: nat := 5

  datatype PaneEntry = PaneEntry(sessionID: string, paneID: string, project: string, logical: string, window: string,
                                 master: int, processGroup: int, startToken: string, boundary: string, snapshot: string)

  datatype WindowEntry = WindowEntry(windowID: string, activePane: string, zoomed: string, layout: Layout)

  datatype SessionEntry = SessionEntry(sessionID: string, order: seq<string>, activeWindow: string, windows: seq<WindowEntry>)

  datatype Manifest = Manifest(version: int, engine: string, listener: int, panes: seq<PaneEntry>,
                               topology: seq<SessionEntry>, active: map<string, string>)

  // ---- What the validators accept ----------------------------------------

  predicate Complete(p: PaneEntry, listener: int) {
    && p.sessionID != "" && p.paneID != "" && p.logical != "" && p.window != "" && p.master >= 0 && p.processGroup > 0
    && p.startToken != "" && p.boundary == "grounded" && p.snapshot != "" && p.master != listener
  }

  predicate PanesValid(panes: seq<PaneEntry>, listener: int) {
    && (forall i | 0 <= i < |panes| :: Complete(panes[i], listener))
    && forall i, j | 0 <= i < j < |panes| ::
         panes[i].master != panes[j].master && panes[i].sessionID != panes[j].sessionID && panes[i].paneID != panes[j].paneID
  }

  // The windows the panes announce, by logical session.
  type Groups = map<string, Windows>

  function Grouped(panes: seq<PaneEntry>): Groups {
    if panes == [] then map[]
    else
      var groups, p := Grouped(panes[..|panes| - 1]), panes[|panes| - 1];
      groups[p.logical := Add(At(groups, p.logical, map[]), p.window, p.paneID)]
  }

  // Every pane of the window has one leaf, and no other.
  predicate Covers(layout: Layout, panes: set<string>) {
    Formed(layout) && Distinct(Leaves(layout)) && Elements(Leaves(layout)) == panes
  }

  predicate WindowValid(w: WindowEntry, windows: Windows) {
    && w.windowID in windows
    && (w.activePane == "" || w.activePane in windows[w.windowID]) && (w.zoomed == "" || w.zoomed in windows[w.windowID])
    && Covers(w.layout, windows[w.windowID])
  }

  predicate SessionValid(s: SessionEntry, windows: Windows) {
    && |s.windows| == |windows| && |s.order| == |windows|
    && (forall i | 0 <= i < |s.order| :: s.order[i] in windows) && Distinct(s.order)
    && (forall i | 0 <= i < |s.windows| :: WindowValid(s.windows[i], windows))
    && (forall i, j | 0 <= i < j < |s.windows| :: s.windows[i].windowID != s.windows[j].windowID)
    && (s.activeWindow == "" || exists i | 0 <= i < |s.windows| :: s.windows[i].windowID == s.activeWindow)
  }

  predicate TopologyValid(topology: seq<SessionEntry>, groups: Groups) {
    && |topology| == |groups|
    && (forall i | 0 <= i < |topology| ::
          topology[i].sessionID != "" && topology[i].sessionID in groups && SessionValid(topology[i], groups[topology[i].sessionID]))
    && forall i, j | 0 <= i < j < |topology| :: topology[i].sessionID != topology[j].sessionID
  }

  predicate Valid(m: Manifest) {
    && m.version == MANIFEST_VERSION && m.engine != "" && m.listener >= -1
    && PanesValid(m.panes, m.listener) && TopologyValid(m.topology, Grouped(m.panes))
  }

  predicate DescriptorsValid(m: Manifest, count: nat) {
    && count == |m.panes| + (if m.listener >= 0 then 1 else 0) && m.listener < count
    && forall i | 0 <= i < |m.panes| :: m.panes[i].master < count
  }

  // ---- Counting ----------------------------------------------------------

  function NumbersBelow(n: nat): (r: set<int>)
    ensures |r| == n && forall i :: i in r <==> 0 <= i < n
  {
    if n == 0 then {} else NumbersBelow(n - 1) + {n - 1}
  }

  lemma {:induction false} SameSize<T>(a: set<T>, b: set<T>)
    requires a <= b && |a| == |b|
    ensures a == b
  {
    if a != {} {
      var x :| x in a;
      assert |a - {x}| == |a| - 1 && |b - {x}| == |b| - 1;
      SameSize(a - {x}, b - {x});
      assert b == (b - {x}) + {x};
    } else {
      assert |b| == 0;
    }
  }

  lemma {:induction false} DistinctSize<T>(s: seq<T>)
    requires Distinct(s)
    ensures |Elements(s)| == |s|
  {
    if s != [] {
      var n := |s| - 1;
      DistinctSize(s[..n]);
      assert Elements(s) == Elements(s[..n]) + {s[n]};
    }
  }

  // A list of distinct members of a set, as long as the set, has all of them.
  lemma Pigeonhole<T>(s: seq<T>, all: set<T>)
    requires Distinct(s) && Elements(s) <= all && |s| == |all|
    ensures Elements(s) == all
  {
    DistinctSize(s);
    SameSize(Elements(s), all);
  }

  function Masters(panes: seq<PaneEntry>): (r: seq<int>)
    ensures |r| == |panes|
  {
    seq(|panes|, i requires 0 <= i < |panes| => panes[i].master)
  }

  lemma MastersAreDistinct(panes: seq<PaneEntry>, listener: int)
    requires PanesValid(panes, listener)
    ensures Distinct(Masters(panes)) && listener !in Masters(panes)
    ensures forall i | 0 <= i < |panes| :: panes[i].master >= 0
  {
    assert forall i | 0 <= i < |panes| :: Complete(panes[i], listener) && Masters(panes)[i] == panes[i].master;
  }

  // What two validators accept names every descriptor that was received exactly once: one
  // is the listener's, if there is one, and each of the others one pane's master.
  lemma DescriptorsAreNamedOnce(m: Manifest, count: nat)
    requires Valid(m) && DescriptorsValid(m, count)
    ensures Distinct(Masters(m.panes)) && m.listener !in Masters(m.panes)
    ensures Elements(Masters(m.panes)) == NumbersBelow(count) - {m.listener}
  {
    var masters, all := Masters(m.panes), NumbersBelow(count);
    MastersAreDistinct(m.panes, m.listener);
    hide PanesValid, TopologyValid, Grouped, NumbersBelow, Distinct;
    var wanted := all - {m.listener};
    if m.listener >= 0 { assert m.listener in all && |wanted| == count - 1; } else { assert wanted == all; }
    assert forall d | d in masters :: d in wanted;
    Pigeonhole(masters, wanted);
  }

  // ---- The validators as they run ----------------------------------------

  // One pane more.
  lemma PanesStep(panes: seq<PaneEntry>, i: nat, listener: int)
    requires i < |panes| && PanesValid(panes[..i], listener)
    ensures PanesValid(panes[..i + 1], listener)
            <==> Complete(panes[i], listener)
                 && forall k | 0 <= k < i :: panes[k].master != panes[i].master && panes[k].sessionID != panes[i].sessionID && panes[k].paneID != panes[i].paneID
    ensures PanesValid(panes, listener) ==> PanesValid(panes[..i + 1], listener)
  {
    hide Complete;
    var more := panes[..i + 1];
    assert more == panes[..i] + [panes[i]];
  }

  datatype Seen = Seen(descriptors: set<int>, sessions: set<string>, panes: set<string>)

  function SeenIn(panes: seq<PaneEntry>): Seen {
    Seen(set k | 0 <= k < |panes| :: panes[k].master, set k | 0 <= k < |panes| :: panes[k].sessionID,
         set k | 0 <= k < |panes| :: panes[k].paneID)
  }

  predicate IsNew(p: PaneEntry, seen: Seen) {
    p.master !in seen.descriptors && p.sessionID !in seen.sessions && p.paneID !in seen.panes
  }

  function Noted(p: PaneEntry, seen: Seen): Seen {
    Seen(seen.descriptors + {p.master}, seen.sessions + {p.sessionID}, seen.panes + {p.paneID})
  }

  lemma SeenStep(panes: seq<PaneEntry>, i: nat)
    requires i < |panes|
    ensures SeenIn(panes[..i + 1]) == Noted(panes[i], SeenIn(panes[..i]))
    ensures IsNew(panes[i], SeenIn(panes[..i]))
            <==> forall k | 0 <= k < i :: panes[k].master != panes[i].master && panes[k].sessionID != panes[i].sessionID && panes[k].paneID != panes[i].paneID
  {
    assert panes[..i + 1] == panes[..i] + [panes[i]];
  }

  method ValidatePanes(panes: seq<PaneEntry>, listener: int) returns (ok: bool, groups: Groups)
    ensures ok == PanesValid(panes, listener)
    ensures ok ==> groups == Grouped(panes)
  {
    groups := map[];
    var seen := Seen({}, {}, {});
    var i := 0;
    assert panes[..0] == [] && SeenIn([]) == seen && PanesValid([], listener);
    hide Complete, PanesValid, SeenIn, Noted, IsNew;
    while i < |panes|
      invariant i <= |panes| && PanesValid(panes[..i], listener) && groups == Grouped(panes[..i]) && seen == SeenIn(panes[..i])
    {
      var p := panes[i];
      PanesStep(panes, i, listener);
      SeenStep(panes, i);
      if !Complete(p, listener) || !IsNew(p, seen) { return false, groups; }
      seen := Noted(p, seen);
      GroupedMore(panes, i);
      groups := groups[p.logical := Add(At(groups, p.logical, map[]), p.window, p.paneID)];
      i := i + 1;
    }
    assert panes[..i] == panes;
    return true, groups;
  }

  lemma GroupedMore(panes: seq<PaneEntry>, i: nat)
    requires i < |panes|
    ensures var groups, p := Grouped(panes[..i]), panes[i];
            Grouped(panes[..i + 1]) == groups[p.logical := Add(At(groups, p.logical, map[]), p.window, p.paneID)]
  {
    assert panes[..i + 1][..i] == panes[..i];
  }

  // validateHandoffLayout's visitor. `leaves` are those met before.
  method VisitLayout(node: Layout, expected: set<string>, leaves: set<string>) returns (ok: bool, met: set<string>)
    ensures ok ==> Formed(node) && Distinct(Leaves(node)) && Elements(Leaves(node)) <= expected
                   && Elements(Leaves(node)) !! leaves && met == leaves + Elements(Leaves(node))
    ensures !ok ==> !(Formed(node) && Distinct(Leaves(node)) && Elements(Leaves(node)) <= expected && Elements(Leaves(node)) !! leaves)
    decreases node
  {
    met := leaves;
    if node.Nil? { return false, met; }
    if node.paneID != "" {
      assert Elements([node.paneID]) == {node.paneID};
      if node.direction != "" || node.first.Node? || node.second.Node? || node.paneID !in expected || node.paneID in leaves {
        return false, met;
      }
      return true, leaves + {node.paneID};
    }
    if !SplitDirection(node.direction) || node.ratio <= 0.0 || node.ratio >= 1.0 { return false, met; }
    JoinedExactly(Leaves(node.first), Leaves(node.second));
    ok, met := VisitLayout(node.first, expected, leaves);
    if !ok { return false, met; }
    ok, met := VisitLayout(node.second, expected, met);
  }

  lemma JoinedExactly(a: seq<string>, b: seq<string>)
    ensures Elements(a + b) == Elements(a) + Elements(b)
    ensures Distinct(a + b) <==> Distinct(a) && Distinct(b) && Elements(a) !! Elements(b)
  {
    JoinedLists(a, b);
    var all := a + b;
    if Distinct(all) {
      assert forall i | 0 <= i < |a| :: all[i] == a[i];
      assert forall j | 0 <= j < |b| :: all[|a| + j] == b[j];
    }
  }

  method ValidateLayout(layout: Layout, expected: set<string>) returns (ok: bool)
    ensures ok == Covers(layout, expected)
  {
    var leaves: set<string>;
    ok, leaves := VisitLayout(layout, expected, {});
    if ok {
      assert {} + Elements(Leaves(layout)) == Elements(Leaves(layout));
      if leaves == expected {
      } else if |leaves| == |expected| {
        SameSize(leaves, expected);
      }
      ok := |leaves| == |expected|;
    }
  }

  method ValidateDescriptors(m: Manifest, count: nat) returns (ok: bool)
    ensures ok == DescriptorsValid(m, count)
  {
    var expected := |m.panes|;
    if m.listener >= 0 { expected := expected + 1; }
    if count != expected || m.listener >= count { return false; }
    var i := 0;
    while i < |m.panes|
      invariant i <= |m.panes| && forall k | 0 <= k < i :: m.panes[k].master < count
    {
      if m.panes[i].master >= count { return false; }
      i := i + 1;
    }
    return true;
  }

  predicate WindowsPart(s: SessionEntry, windows: Windows, n: nat)
    requires n <= |s.windows|
  {
    && (forall i | 0 <= i < n :: WindowValid(s.windows[i], windows))
    && forall i, j | 0 <= i < j < n :: s.windows[i].windowID != s.windows[j].windowID
  }

  predicate OrderPart(order: seq<string>, windows: Windows, n: nat)
    requires n <= |order|
  {
    (forall i | 0 <= i < n :: order[i] in windows) && forall i, j | 0 <= i < j < n :: order[i] != order[j]
  }

  method ValidateWindow(w: WindowEntry, windows: Windows) returns (ok: bool)
    ensures ok == WindowValid(w, windows)
  {
    hide Covers;
    if w.windowID !in windows { return false; }
    var panes := windows[w.windowID];
    if w.activePane != "" && w.activePane !in panes { return false; }
    if w.zoomed != "" && w.zoomed !in panes { return false; }
    ok := ValidateLayout(w.layout, panes);
  }

  method ValidateOrder(order: seq<string>, windows: Windows) returns (ok: bool)
    ensures ok == OrderPart(order, windows, |order|)
  {
    var seen: set<string> := {};
    var i := 0;
    while i < |order|
      invariant i <= |order| && OrderPart(order, windows, i) && seen == set k | 0 <= k < i :: order[k]
    {
      if order[i] !in windows || order[i] in seen { return false; }
      seen := seen + {order[i]};
      i := i + 1;
    }
    return true;
  }

  method ValidateWindows(s: SessionEntry, windows: Windows) returns (ok: bool, seen: set<string>)
    ensures ok == WindowsPart(s, windows, |s.windows|)
    ensures ok ==> seen == set k | 0 <= k < |s.windows| :: s.windows[k].windowID
  {
    hide WindowValid;
    seen := {};
    var i := 0;
    while i < |s.windows|
      invariant i <= |s.windows| && WindowsPart(s, windows, i) && seen == set k | 0 <= k < i :: s.windows[k].windowID
    {
      var valid := ValidateWindow(s.windows[i], windows);
      if !valid || s.windows[i].windowID in seen { return false, seen; }
      seen := seen + {s.windows[i].windowID};
      i := i + 1;
    }
    return true, seen;
  }

  method ValidateSession(s: SessionEntry, windows: Windows) returns (ok: bool)
    ensures ok == SessionValid(s, windows)
  {
    hide WindowValid;
    if |s.windows| != |windows| || |s.order| != |windows| { return false; }
    var ordered := ValidateOrder(s.order, windows);
    if !ordered { return false; }
    var valid, seen := ValidateWindows(s, windows);
    return valid && (s.activeWindow == "" || s.activeWindow in seen);
  }

  method Validate(m: Manifest) returns (ok: bool)
    ensures ok == Valid(m)
  {
    hide PanesValid, SessionValid, Grouped;
    if m.version != MANIFEST_VERSION || m.engine == "" || m.listener < -1 { return false; }
    var complete, groups := ValidatePanes(m.panes, m.listener);
    if !complete || |m.topology| != |groups| { return false; }
    var seen: set<string> := {};
    var i := 0;
    while i < |m.topology|
      invariant i <= |m.topology| && seen == set k | 0 <= k < i :: m.topology[k].sessionID
      invariant forall k | 0 <= k < i :: m.topology[k].sessionID != "" && m.topology[k].sessionID in groups
                                         && SessionValid(m.topology[k], groups[m.topology[k].sessionID])
      invariant forall k, l | 0 <= k < l < i :: m.topology[k].sessionID != m.topology[l].sessionID
    {
      var s := m.topology[i];
      if s.sessionID == "" || s.sessionID in seen || s.sessionID !in groups { return false; }
      var valid := ValidateSession(s, groups[s.sessionID]);
      if !valid { return false; }
      seen := seen + {s.sessionID};
      i := i + 1;
    }
    return true;
  }
}
