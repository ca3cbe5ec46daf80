// The split tree of a window (operations.go). A node with a pane is a leaf; a node without
// one is a split. The ratio of a split is the share of its first side, as a real.
module Layout {
  import opened Text

  datatype Layout = Nil | Node(paneID: string, direction: string, ratio: real, first: Layout, second: Layout)

  function Leaf(paneID: string): Layout {
    Node(paneID, "", 0.0, Nil, Nil)
  }

  predicate IsSplit(layout: Layout) {
    layout.Node? && layout.paneID == ""
  }

  // The panes of a tree from first to last.
  function Leaves(layout: Layout): seq<string> {
    if layout.Nil? then []
    else if layout.paneID != "" then [layout.paneID]
    else Leaves(layout.first) + Leaves(layout.second)
  }

  predicate SplitDirection(direction: string) {
    direction == "horizontal" || direction == "vertical"
  }

  // What the daemon keeps: bare leaves, and splits with both sides, a direction and a
  // ratio that leaves either side a tenth.
  predicate Proper(layout: Layout) {
    layout.Node? &&
    if layout.paneID != "" then layout == Leaf(layout.paneID)
    else
      && SplitDirection(layout.direction) && 0.1 <= layout.ratio <= 0.9
      && Proper(layout.first) && Proper(layout.second)
  }

  // What the handoff validator admits of a tree's shape: leaves of any ratio, and splits of
  // any ratio that leaves both sides something.
  predicate Formed(layout: Layout) {
    layout.Node? &&
    if layout.paneID != "" then layout.direction == "" && layout.first.Nil? && layout.second.Nil?
    else
      && SplitDirection(layout.direction) && 0.0 < layout.ratio < 1.0
      && Formed(layout.first) && Formed(layout.second)
  }

  predicate Tidy(layout: Layout) {
    layout.Nil? || Proper(layout)
  }

  // ---- The tree functions ------------------------------------------------

  function ValidSplitRatio(ratio: real): (r: real)
    ensures 0.1 <= r <= 0.9
  {
    if ratio < 0.1 || ratio > 0.9 then 0.5 else ratio
  }

  function AppendPane(layout: Layout, paneID: string): Layout {
    if layout.Nil? then Leaf(paneID) else Node("", "horizontal", 0.5, layout, Leaf(paneID))
  }

  predicate HasPane(layout: Layout, paneID: string) {
    layout.Node? && (layout.paneID == paneID || HasPane(layout.first, paneID) || HasPane(layout.second, paneID))
  }

  // A split of two sides of which one may be gone.
  function Joined(layout: Layout, ratio: real, first: Layout, second: Layout): Layout
    requires layout.Node?
  {
    if first.Nil? then second
    else if second.Nil? then first
    else Node("", layout.direction, ratio, first, second)
  }

  function RemovePane(layout: Layout, paneID: string): Layout {
    if layout.Nil? || layout.paneID == paneID then Nil
    else if layout.paneID != "" then Leaf(layout.paneID)
    else Joined(layout, layout.ratio, RemovePane(layout.first, paneID), RemovePane(layout.second, paneID))
  }

  function SplitPane(layout: Layout, source: string, created: string, direction: string, ratio: real): Layout {
    if layout.Nil? then Leaf(created)
    else if layout.paneID == source then
      Node("", if SplitDirection(direction) then direction else "horizontal", ValidSplitRatio(ratio), Leaf(source), Leaf(created))
    else if layout.paneID != "" then Leaf(layout.paneID)
    else
      Node("", layout.direction, layout.ratio, SplitPane(layout.first, source, created, direction, ratio),
           SplitPane(layout.second, source, created, direction, ratio))
  }

  datatype Resized = Resized(layout: Layout, changed: bool)

  function ResizePane(layout: Layout, paneID: string, ratio: real): Resized {
    if layout.Nil? || layout.paneID != "" then Resized(layout, false)
    else if HasPane(layout.first, paneID) || HasPane(layout.second, paneID) then
      Resized(Node("", layout.direction, ValidSplitRatio(ratio), layout.first, layout.second), true)
    else
      var first := ResizePane(layout.first, paneID, ratio);
      if first.changed then Resized(Node("", layout.direction, layout.ratio, first.layout, layout.second), true)
      else
        var second := ResizePane(layout.second, paneID, ratio);
        Resized(Node("", layout.direction, layout.ratio, layout.first, second.layout), second.changed)
  }

  function PrunePanes(layout: Layout, panes: set<string>): Layout {
    if layout.Nil? then Nil
    else if layout.paneID != "" then if layout.paneID in panes then Leaf(layout.paneID) else Nil
    else Joined(layout, ValidSplitRatio(layout.ratio), PrunePanes(layout.first, panes), PrunePanes(layout.second, panes))
  }

  // The loop of normalizeLayout: panes without a leaf join at the end.
  function AppendMissing(layout: Layout, paneIDs: seq<string>): Layout
    decreases |paneIDs|
  {
    if paneIDs == [] then layout
    else AppendMissing(if HasPane(layout, paneIDs[0]) then layout else AppendPane(layout, paneIDs[0]), paneIDs[1..])
  }

  ghost function Normalize(layout: Layout, panes: set<string>): Layout {
    AppendMissing(PrunePanes(layout, panes), SortedKeys(panes))
  }

  // sortedMapKeys.
  method SortedMapKeys(values: set<string>) returns (keys: seq<string>)
    ensures keys == SortedKeys(values)
  {
    hide SortedKeys, Elements, Distinct, IsLeast;
    keys := [];
    var rest := values;
    NothingToSort();
    assert [] + SortedKeys(values) == SortedKeys(values);
    while rest != {}
      invariant rest <= values && keys + SortedKeys(rest) == SortedKeys(values)
      decreases |rest|
    {
      var m := Least(rest);
      SortedKeysCons(rest, m);
      assert keys + ([m] + SortedKeys(rest - {m})) == keys + [m] + SortedKeys(rest - {m});
      LeastIsMember(rest, m);
      keys, rest := keys + [m], rest - {m};
    }
    assert keys + [] == keys;
  }

  lemma NothingToSort()
    ensures SortedKeys({}) == []
  {
  }

  lemma LeastIsMember(s: set<string>, m: string)
    requires IsLeast(m, s)
    ensures m in s
  {
  }

  lemma SortedKeysCons(s: set<string>, m: string)
    requires IsLeast(m, s)
    ensures SortedKeys(s) == [m] + SortedKeys(s - {m})
  {
    forall n | IsLeast(n, s) ensures n == m { LeastIsUnique(m, n, s); }
  }

  method Least(s: set<string>) returns (m: string)
    requires s != {}
    ensures IsLeast(m, s)
  {
    m :| m in s;
    LeqTotal(m, m);
    var rest := s - {m};
    while rest != {}
      invariant rest <= s && IsLeast(m, s - rest)
      decreases |rest|
    {
      var x :| x in rest;
      LeqTotal(x, m);
      LeqTotal(x, x);
      ghost var previous := m;
      if Leq(x, m) { m := x; }
      forall y | y in s - (rest - {x}) ensures Leq(m, y) {
        if y != x && m == x { LeqTransitive(x, previous, y); }
      }
      rest := rest - {x};
    }
    assert s - rest == s;
  }

  method NormalizeLayout(layout: Layout, panes: set<string>) returns (r: Layout)
    ensures r == Normalize(layout, panes)
  {
    r := PrunePanes(layout, panes);
    var keys := SortedMapKeys(panes);
    var i := 0;
    assert keys[0..] == keys;
    while i < |keys|
      invariant i <= |keys|
      invariant AppendMissing(r, keys[i..]) == Normalize(layout, panes)
    {
      assert keys[i..][1..] == keys[i + 1..];
      if !HasPane(r, keys[i]) { r := AppendPane(r, keys[i]); }
      i := i + 1;
    }
  }

  // ---- Leaves ------------------------------------------------------------

  // A list with each member replaced by some.
  function Mapped(s: seq<string>, f: string -> seq<string>): seq<string> {
    if s == [] then [] else Mapped(s[..|s| - 1], f) + f(s[|s| - 1])
  }

  function Keep(panes: set<string>): string -> seq<string> {
    x => if x in panes then [x] else []
  }

  function Drop(paneID: string): string -> seq<string> {
    x => if x == paneID then [] else [x]
  }

  function Double(source: string, created: string): string -> seq<string> {
    x => if x == source then [source, created] else [x]
  }

  lemma MappedLast(s: seq<string>, f: string -> seq<string>)
    requires s != []
    ensures Mapped(s, f) == Mapped(s[..|s| - 1], f) + f(s[|s| - 1])
  {
  }

  lemma {:induction false} MappedAppend(a: seq<string>, b: seq<string>, f: string -> seq<string>)
    ensures Mapped(a + b, f) == Mapped(a, f) + Mapped(b, f)
  {
    if b == [] {
      assert a + b == a;
    } else {
      var n := |b| - 1;
      MappedAppend(a, b[..n], f);
      assert (a + b)[..|a + b| - 1] == a + b[..n];
      MappedLast(a + b, f);
      MappedLast(b, f);
      hide Mapped;
      assert Mapped(a, f) + (Mapped(b[..n], f) + f(b[n])) == Mapped(a, f) + Mapped(b[..n], f) + f(b[n]);
    }
  }

  lemma MappedOne(x: string, f: string -> seq<string>)
    ensures Mapped([x], f) == f(x)
  {
    assert [x][..0] == [];
  }

  lemma MappedCons(s: seq<string>, f: string -> seq<string>)
    requires s != []
    ensures Mapped(s, f) == f(s[0]) + Mapped(s[1..], f)
  {
    assert s == [s[0]] + s[1..];
    MappedAppend([s[0]], s[1..], f);
    MappedOne(s[0], f);
  }

  lemma {:induction false} KeptElements(s: seq<string>, panes: set<string>)
    ensures Elements(Mapped(s, Keep(panes))) == Elements(s) * panes
  {
    if s != [] {
      var n := |s| - 1;
      KeptElements(s[..n], panes);
      JoinedLists(s[..n], [s[n]]);
      assert s == s[..n] + [s[n]];
      JoinedLists(Mapped(s[..n], Keep(panes)), Keep(panes)(s[n]));
    }
  }

  lemma {:induction false} KeptDistinct(s: seq<string>, panes: set<string>)
    requires Distinct(s)
    ensures Distinct(Mapped(s, Keep(panes)))
  {
    if s != [] {
      var n := |s| - 1;
      KeptDistinct(s[..n], panes);
      KeptElements(s[..n], panes);
      JoinedLists(Mapped(s[..n], Keep(panes)), Keep(panes)(s[n]));
    }
  }

  lemma {:induction false} KeptAll(s: seq<string>, panes: set<string>)
    requires Elements(s) <= panes
    ensures Mapped(s, Keep(panes)) == s
  {
    if s != [] {
      var n := |s| - 1;
      assert s == s[..n] + [s[n]] && s[n] in Elements(s);
      JoinedLists(s[..n], [s[n]]);
      KeptAll(s[..n], panes);
    }
  }

  lemma JoinedLists(a: seq<string>, b: seq<string>)
    ensures Elements(a + b) == Elements(a) + Elements(b)
    ensures Distinct(a) && Distinct(b) && Elements(a) !! Elements(b) ==> Distinct(a + b)
  {
    if Distinct(a) && Distinct(b) && Elements(a) !! Elements(b) {
      forall i, j | 0 <= i < j < |a + b| ensures (a + b)[i] != (a + b)[j] {
        if i < |a| <= j { assert (a + b)[i] in Elements(a) && (a + b)[j] in Elements(b); }
      }
    }
  }

  lemma {:induction false} HasIsLeaf(layout: Layout, paneID: string)
    requires Tidy(layout) && paneID != ""
    ensures HasPane(layout, paneID) <==> paneID in Leaves(layout)
  {
    if IsSplit(layout) {
      HasIsLeaf(layout.first, paneID);
      HasIsLeaf(layout.second, paneID);
    }
  }

  lemma {:induction false} LeavesAreNamed(layout: Layout)
    ensures "" !in Leaves(layout)
    ensures Proper(layout) ==> Leaves(layout) != []
  {
    if IsSplit(layout) {
      LeavesAreNamed(layout.first);
      LeavesAreNamed(layout.second);
    }
  }

  // ---- The laws ----------------------------------------------------------

  // Splitting puts the new pane right after its source, leaves every other leaf and split
  // as it was, and keeps the tree proper.
  lemma {:induction false} SplitIsExactly(layout: Layout, source: string, created: string, direction: string, ratio: real)
    requires Proper(layout) && source != "" && created != ""
    ensures var r := SplitPane(layout, source, created, direction, ratio);
            && Proper(r) && Leaves(r) == Mapped(Leaves(layout), Double(source, created))
            && (source !in Leaves(layout) ==> r == layout)
  {
    if IsSplit(layout) {
      SplitIsExactly(layout.first, source, created, direction, ratio);
      SplitIsExactly(layout.second, source, created, direction, ratio);
      MappedAppend(Leaves(layout.first), Leaves(layout.second), Double(source, created));
    } else {
      MappedOne(layout.paneID, Double(source, created));
    }
  }

  // Removing takes out the pane's leaf and closes the split it was in.
  lemma {:induction false} RemoveIsExactly(layout: Layout, paneID: string)
    requires Tidy(layout) && paneID != ""
    ensures var r := RemovePane(layout, paneID);
            && Tidy(r) && Leaves(r) == Mapped(Leaves(layout), Drop(paneID))
            && (paneID !in Leaves(layout) ==> r == layout)
  {
    if IsSplit(layout) {
      RemoveIsExactly(layout.first, paneID);
      RemoveIsExactly(layout.second, paneID);
      MappedAppend(Leaves(layout.first), Leaves(layout.second), Drop(paneID));
      hide Mapped, Drop;
      JoinedIsTidy(layout, RemovePane(layout.first, paneID), RemovePane(layout.second, paneID));
    } else if layout.Node? {
      MappedOne(layout.paneID, Drop(paneID));
    }
  }

  lemma JoinedIsTidy(layout: Layout, first: Layout, second: Layout)
    requires Proper(layout) && IsSplit(layout) && Tidy(first) && Tidy(second)
    ensures var r := Joined(layout, layout.ratio, first, second);
            Tidy(r) && Leaves(r) == Leaves(first) + Leaves(second)
  {
  }

  // Removing a pane that was just split off, or just appended, gives back the tree.
  lemma {:induction false} RemoveUndoesSplit(layout: Layout, source: string, created: string, direction: string, ratio: real)
    requires Proper(layout) && source != "" && created != "" && source != created && created !in Leaves(layout)
    ensures RemovePane(SplitPane(layout, source, created, direction, ratio), created) == layout
  {
    if IsSplit(layout) {
      RemoveUndoesSplit(layout.first, source, created, direction, ratio);
      RemoveUndoesSplit(layout.second, source, created, direction, ratio);
    }
  }

  lemma RemoveUndoesAppend(layout: Layout, paneID: string)
    requires Tidy(layout) && paneID != "" && paneID !in Leaves(layout)
    ensures RemovePane(AppendPane(layout, paneID), paneID) == layout
  {
    RemoveIsExactly(layout, paneID);
  }

  // Resizing by a pane changes something exactly when the tree is a split that holds it,
  // and then the only thing it changes is the ratio of the tree's outermost split, however
  // deep the pane is: the recursion below the first split that holds the pane is dead.
  lemma ResizeIsExactly(layout: Layout, paneID: string, ratio: real)
    requires Tidy(layout) && paneID != ""
    ensures var r := ResizePane(layout, paneID, ratio);
            && Tidy(r.layout) && Leaves(r.layout) == Leaves(layout)
            && (r.changed <==> IsSplit(layout) && paneID in Leaves(layout))
            && r.layout == if r.changed then layout.(ratio := ValidSplitRatio(ratio)) else layout
  {
    if paneID !in Leaves(layout) { ResizeMisses(layout, paneID, ratio); }
    if IsSplit(layout) {
      HasIsLeaf(layout.first, paneID);
      HasIsLeaf(layout.second, paneID);
    }
  }

  lemma {:induction false} ResizeMisses(layout: Layout, paneID: string, ratio: real)
    requires Tidy(layout) && paneID != "" && paneID !in Leaves(layout)
    ensures ResizePane(layout, paneID, ratio) == Resized(layout, false)
  {
    if IsSplit(layout) {
      HasIsLeaf(layout.first, paneID);
      HasIsLeaf(layout.second, paneID);
      ResizeMisses(layout.first, paneID, ratio);
      ResizeMisses(layout.second, paneID, ratio);
    }
  }

  lemma {:induction false} ProperIsFormed(layout: Layout)
    requires Proper(layout)
    ensures Formed(layout)
  {
    if IsSplit(layout) {
      ProperIsFormed(layout.first);
      ProperIsFormed(layout.second);
    }
  }

  // Pruning keeps the leaves of live panes, in order, and leaves a proper tree.
  lemma {:induction false} PruneIsExactly(layout: Layout, panes: set<string>)
    requires layout.Nil? || Formed(layout)
    ensures var r := PrunePanes(layout, panes);
            Tidy(r) && Leaves(r) == Mapped(Leaves(layout), Keep(panes))
  {
    if IsSplit(layout) {
      PruneIsExactly(layout.first, panes);
      PruneIsExactly(layout.second, panes);
      MappedAppend(Leaves(layout.first), Leaves(layout.second), Keep(panes));
      LeavesAreNamed(PrunePanes(layout.first, panes));
      LeavesAreNamed(PrunePanes(layout.second, panes));
    } else if layout.Node? {
      MappedOne(layout.paneID, Keep(panes));
    }
  }

  lemma {:induction false} PruneIsIdentityExactly(layout: Layout, panes: set<string>)
    requires Formed(layout) && Elements(Leaves(layout)) <= panes
    ensures PrunePanes(layout, panes) == layout <==> Proper(layout)
    ensures PrunePanes(layout, panes).Node?
  {
    if IsSplit(layout) {
      var l, r := Leaves(layout.first), Leaves(layout.second);
      forall x | x in l ensures x in panes { assert x in l + r; assert x in Elements(Leaves(layout)); }
      forall x | x in r ensures x in panes { assert x in l + r; assert x in Elements(Leaves(layout)); }
      PruneIsIdentityExactly(layout.first, panes);
      PruneIsIdentityExactly(layout.second, panes);
    } else {
      assert layout.paneID in Elements(Leaves(layout));
    }
  }

  lemma AppendedLeaves(layout: Layout, x: string, missing: set<string>)
    requires Tidy(layout) && x != "" && (x in missing <==> x !in Leaves(layout))
    ensures var next := if HasPane(layout, x) then layout else AppendPane(layout, x);
            Tidy(next) && Leaves(next) == Leaves(layout) + Keep(missing)(x)
  {
    HasIsLeaf(layout, x);
  }

  lemma StillMissing(paneIDs: seq<string>, leaves: seq<string>, missing: set<string>)
    requires Distinct(paneIDs) && "" !in paneIDs && paneIDs != []
    requires forall x | x in paneIDs :: x in missing <==> x !in leaves
    ensures Distinct(paneIDs[1..]) && "" !in paneIDs[1..] && paneIDs[0] in paneIDs && paneIDs[0] != ""
    ensures forall x | x in paneIDs[1..] :: x in missing <==> x !in leaves + Keep(missing)(paneIDs[0])
  {
    forall x | x in paneIDs[1..] ensures x in paneIDs && x != paneIDs[0] && x !in Keep(missing)(paneIDs[0]) { }
  }

  lemma Regroup(a: seq<string>, b: seq<string>, c: seq<string>)
    ensures a + b + c == a + (b + c)
  {
  }

  lemma AppendOne(layout: Layout, paneIDs: seq<string>)
    requires paneIDs != []
    ensures AppendMissing(layout, paneIDs)
            == AppendMissing(if HasPane(layout, paneIDs[0]) then layout else AppendPane(layout, paneIDs[0]), paneIDs[1..])
  {
  }

  lemma {:induction false} AppendMissingIsExactly(layout: Layout, paneIDs: seq<string>, missing: set<string>)
    requires Tidy(layout) && Distinct(paneIDs) && "" !in paneIDs
    requires forall x | x in paneIDs :: x in missing <==> x !in Leaves(layout)
    ensures var r := AppendMissing(layout, paneIDs);
            Tidy(r) && Leaves(r) == Leaves(layout) + Mapped(paneIDs, Keep(missing))
    decreases |paneIDs|
  {
    if paneIDs == [] {
      assert Leaves(layout) + [] == Leaves(layout);
    } else {
      hide Mapped, Leaves, Tidy, HasPane, AppendPane, Distinct, AppendMissing, Keep;
      var x, rest := paneIDs[0], paneIDs[1..];
      StillMissing(paneIDs, Leaves(layout), missing);
      AppendedLeaves(layout, x, missing);
      var next := if HasPane(layout, x) then layout else AppendPane(layout, x);
      AppendOne(layout, paneIDs);
      AppendMissingIsExactly(next, rest, missing);
      MappedCons(paneIDs, Keep(missing));
      Regroup(Leaves(layout), Keep(missing)(x), Mapped(rest, Keep(missing)));
    }
  }

  lemma {:induction false} AppendNothing(layout: Layout, paneIDs: seq<string>)
    requires Tidy(layout) && forall x | x in paneIDs :: x != "" && x in Leaves(layout)
    ensures AppendMissing(layout, paneIDs) == layout
    decreases |paneIDs|
  {
    if paneIDs != [] {
      assert paneIDs[0] in paneIDs && forall x | x in paneIDs[1..] :: x in paneIDs;
      HasIsLeaf(layout, paneIDs[0]);
      AppendNothing(layout, paneIDs[1..]);
    }
  }

  // Normalising any tree without a repeated leaf gives a proper one that holds exactly the
  // live panes, each once: those it had in the order it had them, then the rest ascending.
  lemma NormalizeIsExactly(layout: Layout, panes: set<string>)
    requires (layout.Nil? || Formed(layout)) && Distinct(Leaves(layout)) && "" !in panes
    ensures var r := Normalize(layout, panes); var missing := panes - Elements(Leaves(layout));
            && Leaves(r) == Mapped(Leaves(layout), Keep(panes)) + Mapped(SortedKeys(panes), Keep(missing))
            && Tidy(r) && (r.Node? <==> panes != {})
            && Distinct(Leaves(r)) && Elements(Leaves(r)) == panes
  {
    var keys, missing := SortedKeys(panes), panes - Elements(Leaves(layout));
    hide SortedKeys, Mapped, PrunePanes, Leaves, Tidy;
    var pruned := PrunePanes(layout, panes);
    PruneIsExactly(layout, panes);
    KeptElements(Leaves(layout), panes);
    KeptDistinct(Leaves(layout), panes);
    KeptElements(keys, missing);
    KeptDistinct(keys, missing);
    forall x | x in keys ensures x in missing <==> x !in Leaves(pruned) {
      assert x in Elements(keys);
      assert x in Leaves(pruned) <==> x in Elements(Leaves(pruned));
    }
    NamedKeys(panes);
    AppendMissingIsExactly(pruned, keys, missing);
    JoinedLists(Leaves(pruned), Mapped(keys, Keep(missing)));
    TreeHasLeaves(Normalize(layout, panes));
  }

  lemma TreeHasLeaves(layout: Layout)
    requires Tidy(layout)
    ensures layout.Node? <==> Elements(Leaves(layout)) != {}
  {
    LeavesAreNamed(layout);
    EmptyElements(Leaves(layout));
  }

  lemma NamedKeys(panes: set<string>)
    requires "" !in panes
    ensures "" !in SortedKeys(panes)
  {
    assert Elements(SortedKeys(panes)) == panes;
  }

  lemma EmptyElements(s: seq<string>)
    ensures s == [] <==> Elements(s) == {}
  {
    if s != [] { assert s[0] in Elements(s); }
  }

  // A tree that already holds the live panes is kept exactly when it is proper: one whose
  // ratio leaves a side less than a tenth, which a handoff may carry, is reset.
  lemma NormalizeIsIdentityExactly(layout: Layout, panes: set<string>)
    requires Formed(layout) && Elements(Leaves(layout)) == panes
    ensures Normalize(layout, panes) == layout <==> Proper(layout)
  {
    var keys := SortedKeys(panes);
    hide SortedKeys;
    LeavesAreNamed(layout);
    NamedKeys(panes);
    PruneIsExactly(layout, panes);
    PruneIsIdentityExactly(layout, panes);
    KeptAll(Leaves(layout), panes);
    forall x | x in keys ensures x != "" && x in Leaves(PrunePanes(layout, panes)) {
      assert x in Elements(keys);
      assert x in Elements(Leaves(layout));
    }
    AppendNothing(PrunePanes(layout, panes), keys);
  }
}
