// What the tree functions do, place by place. A place in a split tree is the path to it
// from the outermost split: at each split, whether it goes to the second side.
module LayoutPlaces {
  import opened Text
  import opened Layout

  type Path = seq<bool>

  // What stands at a place.
  datatype Spot = Nowhere | Shows(paneID: string) | Divides(direction: string, ratio: real)

  function At(layout: Layout, path: Path): Spot
    decreases path
  {
    if layout.Nil? then Nowhere
    else if path == [] then
      if layout.paneID != "" then Shows(layout.paneID) else Divides(layout.direction, layout.ratio)
    else if layout.paneID != "" then Nowhere
    else At(if path[0] then layout.second else layout.first, path[1..])
  }

  // A tree of the daemon's is known by what stands at each place.
  lemma {:induction false} SamePlacesSameTree(a: Layout, b: Layout)
    requires Tidy(a) && Tidy(b) && forall path :: At(a, path) == At(b, path)
    ensures a == b
  {
    assert At(a, []) == At(b, []);
    if IsSplit(a) && IsSplit(b) {
      forall path ensures At(a.first, path) == At(b.first, path) && At(a.second, path) == At(b.second, path) {
        Below(a, false, path);
        Below(a, true, path);
        Below(b, false, path);
        Below(b, true, path);
      }
      SamePlacesSameTree(a.first, b.first);
      SamePlacesSameTree(a.second, b.second);
    }
  }

  lemma Below(layout: Layout, side: bool, path: Path)
    requires IsSplit(layout)
    ensures At(layout, [side] + path) == At(if side then layout.second else layout.first, path)
  {
    assert ([side] + path)[1..] == path;
  }

  lemma {:induction false} LeavesHavePlaces(layout: Layout, paneID: string) returns (path: Path)
    requires paneID in Leaves(layout)
    ensures At(layout, path) == Shows(paneID)
  {
    if layout.paneID != "" {
      path := [];
    } else if paneID in Leaves(layout.first) {
      path := LeavesHavePlaces(layout.first, paneID);
      Below(layout, false, path);
      path := [false] + path;
    } else {
      path := LeavesHavePlaces(layout.second, paneID);
      Below(layout, true, path);
      path := [true] + path;
    }
  }

  lemma {:induction false} PlacesAreLeaves(layout: Layout, path: Path)
    requires At(layout, path).Shows?
    ensures At(layout, path).paneID in Leaves(layout)
    decreases path
  {
    if path != [] { PlacesAreLeaves(if path[0] then layout.second else layout.first, path[1..]); }
  }

  // A pane of a tree without a repeated leaf has one place.
  lemma {:induction false} OnePlace(layout: Layout, a: Path, b: Path)
    requires Distinct(Leaves(layout)) && At(layout, a).Shows? && At(layout, a) == At(layout, b)
    ensures a == b
    decreases a
  {
    if a != [] {
      var first, second := Leaves(layout.first), Leaves(layout.second);
      DistinctSides(first, second);
      assert b != [];
      PlacesAreLeaves(if a[0] then layout.second else layout.first, a[1..]);
      PlacesAreLeaves(if b[0] then layout.second else layout.first, b[1..]);
      OnePlace(if a[0] then layout.second else layout.first, a[1..], b[1..]);
      assert a == [a[0]] + a[1..] && b == [b[0]] + b[1..];
    }
  }

  lemma DistinctSides(a: seq<string>, b: seq<string>)
    requires Distinct(a + b)
    ensures Distinct(a) && Distinct(b) && forall x :: !(x in a && x in b)
  {
    var s := a + b;
    assert a == s[..|a|] && b == s[|a|..];
    forall x | x in a ensures x !in b {
      var i :| 0 <= i < |a| && a[i] == x;
      forall j | 0 <= j < |b| ensures b[j] != x { assert s[|a| + j] != s[i]; }
    }
  }

  // ---- Splitting ---------------------------------------------------------

  // How many splits a tree has.
  function Splits(layout: Layout): nat {
    if IsSplit(layout) then 1 + Splits(layout.first) + Splits(layout.second) else 0
  }

  // What stands at a place once a pane has been split off its source.
  function SplitAt(layout: Layout, source: string, created: string, direction: string, ratio: real, path: Path): Spot {
    if At(layout, path) == Shows(source) then
      Divides(if direction == "vertical" then "vertical" else "horizontal", if 0.1 <= ratio <= 0.9 then ratio else 0.5)
    else if path != [] && At(layout, path[..|path| - 1]) == Shows(source) then
      Shows(if path[|path| - 1] then created else source)
    else At(layout, path)
  }

  // `r` is the tree with a new split where the source stood, the source on its first side
  // and the created pane on its second, divided as asked; all else stands as it was.
  ghost predicate IsSplitOff(layout: Layout, source: string, created: string, direction: string, ratio: real, r: Layout) {
    && Proper(r) && Splits(r) == Splits(layout) + 1
    && forall path :: At(r, path) == SplitAt(layout, source, created, direction, ratio, path)
  }

  lemma {:induction false} SplitStands(
      layout: Layout, source: string, created: string, direction: string, ratio: real, path: Path)
    requires Proper(layout) && source != "" && created != ""
    ensures At(SplitPane(layout, source, created, direction, ratio), path)
            == SplitAt(layout, source, created, direction, ratio, path)
    decreases path
  {
    if IsSplit(layout) && path != [] {
      var side := if path[0] then layout.second else layout.first;
      SplitStands(side, source, created, direction, ratio, path[1..]);
      if path[1..] != [] {
        assert path[..|path| - 1][0] == path[0];
        assert path[..|path| - 1][1..] == path[1..][..|path[1..]| - 1];
      }
    } else if layout.paneID == source && |path| == 2 {
      assert path[1..] != [];
    }
  }

  lemma {:induction false} SplitCounts(layout: Layout, source: string, created: string, direction: string, ratio: real)
    requires Proper(layout) && source != "" && created != ""
    ensures source !in Leaves(layout) ==> Splits(SplitPane(layout, source, created, direction, ratio)) == Splits(layout)
    ensures source in Leaves(layout) && Distinct(Leaves(layout)) ==>
              Splits(SplitPane(layout, source, created, direction, ratio)) == Splits(layout) + 1
  {
    if IsSplit(layout) {
      SplitCounts(layout.first, source, created, direction, ratio);
      SplitCounts(layout.second, source, created, direction, ratio);
      if Distinct(Leaves(layout)) { DistinctSides(Leaves(layout.first), Leaves(layout.second)); }
    }
  }

  // Splitting a pane of a window puts one new split in the pane's place and touches
  // nothing else, and no other tree is that.
  lemma SplitIsOneSplit(layout: Layout, source: string, created: string, direction: string, ratio: real, other: Layout)
    requires Proper(layout) && source != "" && created != "" && source in Leaves(layout) && Distinct(Leaves(layout))
    ensures var r := SplitPane(layout, source, created, direction, ratio);
            && IsSplitOff(layout, source, created, direction, ratio, r)
            && (IsSplitOff(layout, source, created, direction, ratio, other) ==> other == r)
  {
    var r := SplitPane(layout, source, created, direction, ratio);
    SplitIsExactly(layout, source, created, direction, ratio);
    SplitCounts(layout, source, created, direction, ratio);
    forall path ensures At(r, path) == SplitAt(layout, source, created, direction, ratio, path) {
      SplitStands(layout, source, created, direction, ratio, path);
    }
    if IsSplitOff(layout, source, created, direction, ratio, other) {
      hide At, SplitAt;
      SamePlacesSameTree(other, r);
    }
  }

  // Resizing by any pane of a split tree sets the ratio of the outermost split, to the one
  // asked for if it leaves both sides a tenth and to one half otherwise.
  lemma ResizeStands(layout: Layout, paneID: string, ratio: real, path: Path)
    requires Proper(layout) && IsSplit(layout) && paneID != "" && paneID in Leaves(layout)
    ensures var r := ResizePane(layout, paneID, ratio);
            && r.changed
            && At(r.layout, path) == if path == [] then Divides(layout.direction, if 0.1 <= ratio <= 0.9 then ratio else 0.5)
                                     else At(layout, path)
  {
    ResizeIsExactly(layout, paneID, ratio);
  }

  // ---- Appending, removing, pruning --------------------------------------

  // A pane that joins a tree stands on the second side of a new outermost split, in two
  // equal halves side by side; the first side is the tree as it was.
  lemma AppendStandsLast(layout: Layout, paneID: string, path: Path)
    requires Proper(layout) && paneID != ""
    ensures var r := AppendPane(layout, paneID);
            && At(r, []) == Divides("horizontal", 0.5) && At(r, [true]) == Shows(paneID)
            && At(r, [false] + path) == At(layout, path) && Splits(r) == Splits(layout) + 1
  {
    Below(AppendPane(layout, paneID), false, path);
    Below(AppendPane(layout, paneID), true, []);
  }

  // Where what stands at a place stood before a pane went: the pane's sibling moves up
  // into the place of the split they shared.
  function Unmoved(parent: Path, side: bool, path: Path): Path {
    if parent <= path then parent + [!side] + path[|parent|..] else path
  }

  // Removing a pane closes the split it was in, and moves nothing but its sibling.
  lemma {:induction false} RemoveStands(layout: Layout, paneID: string, parent: Path, side: bool, path: Path)
    requires Proper(layout) && paneID != "" && Distinct(Leaves(layout))
    requires At(layout, parent + [side]) == Shows(paneID)
    ensures At(RemovePane(layout, paneID), path) == At(layout, Unmoved(parent, side, path))
    decreases parent
  {
    var (first, second) := (layout.first, layout.second);
    DistinctSides(Leaves(first), Leaves(second));
    if parent == [] {
      assert parent + [side] == [side];
      assert [side][1..] == [];
      var other := if side then first else second;
      RemoveIsExactly(other, paneID);
      assert Unmoved([], side, path) == [!side] + path;
      Below(layout, !side, path);
    } else {
      var down := parent[0];
      assert (parent + [side])[1..] == parent[1..] + [side];
      PlacesAreLeaves(if down then second else first, parent[1..] + [side]);
      RemoveIsExactly(if down then first else second, paneID);
      RemoveLeavesSome(if down then second else first, paneID, parent[1..] + [side]);
      if path != [] && path[0] == down {
        RemoveStands(if down then second else first, paneID, parent[1..], side, path[1..]);
        UnmovedBelow(parent, side, path);
      } else {
        assert !(parent <= path);
      }
    }
  }

  lemma UnmovedBelow(parent: Path, side: bool, path: Path)
    requires parent != [] && path != [] && path[0] == parent[0]
    ensures Unmoved(parent, side, path) == [path[0]] + Unmoved(parent[1..], side, path[1..])
  {
    assert parent == [parent[0]] + parent[1..] && path == [path[0]] + path[1..];
    if parent[1..] <= path[1..] {
      assert parent <= path;
      assert path[1..][|parent[1..]|..] == path[|parent|..];
    }
  }

  lemma RemoveLeavesSome(layout: Layout, paneID: string, path: Path)
    requires Proper(layout) && path != [] && At(layout, path) == Shows(paneID) && Distinct(Leaves(layout))
    ensures RemovePane(layout, paneID).Node?
  {
    DistinctSides(Leaves(layout.first), Leaves(layout.second));
    PlacesAreLeaves(if path[0] then layout.second else layout.first, path[1..]);
    RemoveIsExactly(layout.first, paneID);
    RemoveIsExactly(layout.second, paneID);
  }

  // Pruning away nobody resets the ratios that leave a side less than a tenth, and that
  // is all; pruning away one more pane removes it.
  lemma PruneStands(layout: Layout, panes: set<string>, paneID: string, path: Path)
    requires Formed(layout) && paneID != ""
    ensures PrunePanes(layout, panes - {paneID}) == RemovePane(PrunePanes(layout, panes), paneID)
    ensures Elements(Leaves(layout)) <= panes ==>
              At(PrunePanes(layout, panes), path)
              == match At(layout, path)
                 case Divides(direction, ratio) => Divides(direction, if 0.1 <= ratio <= 0.9 then ratio else 0.5)
                 case spot => spot
  {
    PruneOneMore(layout, panes, paneID);
    if Elements(Leaves(layout)) <= panes { PruneNobody(layout, panes, path); }
  }

  lemma {:induction false} PruneOneMore(layout: Layout, panes: set<string>, paneID: string)
    requires Formed(layout) && paneID != ""
    ensures PrunePanes(layout, panes - {paneID}) == RemovePane(PrunePanes(layout, panes), paneID)
  {
    if IsSplit(layout) {
      PruneOneMore(layout.first, panes, paneID);
      PruneOneMore(layout.second, panes, paneID);
    }
  }

  lemma {:induction false} PruneNobody(layout: Layout, panes: set<string>, path: Path)
    requires Formed(layout) && Elements(Leaves(layout)) <= panes
    ensures PrunePanes(layout, panes).Node?
    ensures At(PrunePanes(layout, panes), path)
            == match At(layout, path)
               case Divides(direction, ratio) => Divides(direction, if 0.1 <= ratio <= 0.9 then ratio else 0.5)
               case spot => spot
  {
    if IsSplit(layout) {
      JoinedLists(Leaves(layout.first), Leaves(layout.second));
      PruneNobody(layout.first, panes, if path == [] then [] else path[1..]);
      PruneNobody(layout.second, panes, if path == [] then [] else path[1..]);
    } else {
      assert layout.paneID in Elements(Leaves(layout));
    }
  }
}
