/** The queries for one window (crates/yserver-core/src/core_loop/clip_list.rs): its universe, clip
    list and border ring, computed from the root down each time it is asked for. Like the oracle they
    leave `borderSize` out of a universe. */
module OnDemand {
  import opened Plane
  import opened Boxes
  import opened Regions
  import opened RegionAlgebra
  import opened WindowTree
  import opened ShapeCuts
  import opened ClipList
  import opened OracleSets

  /** The siblings above child i that are still redirected, `also`, hide nothing. */
  function Released(children: seq<Window>, i: nat, also: set<int>): (s: seq<Window>)
    ensures |s| == |children|
    ensures forall j :: 0 <= j < |s| ==>
        s[j] == if j > i && children[j].id in also then children[j].(redirect := Manual) else children[j]
  {
    seq(|children|, j requires 0 <= j < |children| =>
      if j > i && children[j].id in also then children[j].(redirect := Manual) else children[j])
  }

  /** A pixel of child i's content is in its universe while `also` are still redirected iff it is inside
      the shapes and, for a child that is not redirected, in the parent's universe and under no higher
      sibling that is viewable, no Manual redirect and not in `also`. */
  lemma WhileIs(children: seq<Window>, i: nat, also: set<int>, u: iset<Pt>, p: Pt)
    requires i < |children|
    ensures var c := children[i];
      var q := Pt(p.x + c.x + c.bw, p.y + c.y + c.bw);
      p in LooseUniverse(Released(children, i, also), i, u) <==>
        && 0 <= p.x < c.width && 0 <= p.y < c.height && InShape(c.bounding, p) && InShape(c.clip, p)
        && (c.redirect == NotRedirected ==>
              && q in u
              && forall j :: i < j < |children| && InSize(children[j], q) && children[j].viewable ==>
                   children[j].redirect == Manual || children[j].id in also)
  {
    var c, s := children[i], Released(children, i, also);
    var q := Pt(p.x + c.x + c.bw, p.y + c.y + c.bw);
    hide InSize, Released;
    assert OutOf(c, p) == q && s[i] == c;
    forall j | i < j < |children|
      ensures Hides(s[j], q) <==>
          InSize(children[j], q) && children[j].viewable && children[j].redirect != Manual && children[j].id !in also {
      SameSize(children[j], q);
    }
  }

  lemma SameSize(c: Window, p: Pt)
    ensures InSize(c.(redirect := Manual), p) <==> InSize(c, p)
  {
  }

  lemma ReleasedNone(children: seq<Window>, i: nat)
    ensures Released(children, i, {}) == children
  {
  }

  /** `r` is what of `v` is clear of the children from lo to hi. */
  ghost predicate LessOf(r: seq<Box>, v: seq<Box>, children: seq<Window>, lo: nat, hi: nat)
    requires hi <= |children|
  {
    Banded(r) && forall x, y :: In(r, x, y) <==> In(v, x, y) && Clear(children, lo, hi, Pt(x, y))
  }

  /** The loops over siblings and children: one subtraction each, given up when nothing is left. */
  method Less(children: seq<Window>, lo: nat, v: seq<Box>) returns (r: seq<Box>)
    requires lo <= |children| && AllBanding(children) && Banded(v)
    ensures LessOf(r, v, children, lo, |children|)
  {
    hide In, Banded, Clear, Seam, Merged, Canonical, SizeCut, InSize;
    r := v;
    NoneTaken(v, children, lo);
    for j := lo to |children|
      invariant LessOf(r, v, children, lo, j)
    {
      if r == [] {
        NothingCanonical();
        NothingMore(v, children, lo, j);
        return;
      }
      BandingShapes(children[j]);
      ClearNext(children, lo, j);
      if children[j].viewable && children[j].redirect != Manual {
        var size := BorderSize(children[j]);
        r := SubtractOf(r, size);
      }
    }
  }

  lemma NoneTaken(v: seq<Box>, children: seq<Window>, lo: nat)
    requires lo <= |children| && Banded(v)
    ensures LessOf(v, v, children, lo, lo)
  {
  }

  lemma NothingMore(v: seq<Box>, children: seq<Window>, lo: nat, j: nat)
    requires lo <= j <= |children| && LessOf([], v, children, lo, j)
    ensures LessOf([], v, children, lo, |children|)
  {
    hide In;
    NothingCanonical();
    forall p | Clear(children, lo, |children|, p) ensures Clear(children, lo, j, p) {}
  }

  /** `uncovered_in_child_space`. */
  method Uncovered(children: seq<Window>, i: nat, v: seq<Box>, also: set<int>) returns (r: seq<Box>)
    requires i < |children| && AllBanding(children) && Banded(v)
    ensures Banded(r)
    ensures Cells(r) == iset p | OutOf(children[i], p) in Cells(v)
        && Clear(Released(children, i, also), i + 1, |children|, OutOf(children[i], p))
  {
    hide In, Banded, Clear, Seam, Merged, Canonical;
    var c, siblings := children[i], Released(children, i, also);
    forall j | 0 <= j < |siblings| ensures Banding(siblings[j]) { assert Banding(children[j]); }
    var left := Less(siblings, i + 1, v);
    r := Translate(left, -(c.x + c.bw), -(c.y + c.bw));
    forall p ensures p in Cells(r) <==> OutOf(c, p) in Cells(v) && Clear(siblings, i + 1, |siblings|, OutOf(c, p)) {
      var q := OutOf(c, p);
      assert In(r, p.x, p.y) <==> In(left, q.x, q.y);
      assert q == Pt(q.x, q.y);
    }
  }

  /** `child_universe`. */
  method ChildUniverseOf(children: seq<Window>, i: nat, v: seq<Box>, also: set<int>) returns (r: seq<Box>)
    requires i < |children| && AllBanding(children) && Banded(v)
    ensures Banded(r)
    ensures Cells(r) == if children[i].viewable then LooseUniverse(Released(children, i, also), i, Cells(v)) else iset{}
  {
    hide In, Banded, Clear, InWin, Seam, Merged, Canonical, WinCut;
    var c := children[i];
    NothingCanonical();
    if !c.viewable {
      return [];
    }
    BandingShapes(c);
    var win := WinSize(c);
    if c.redirect != NotRedirected {
      return win;
    }
    if v == [] {
      return [];
    }
    var moved := Uncovered(children, i, v, also);
    r := IntersectOf(moved, win);
    UniverseCells(children, i, v, also, moved, win, r);
  }

  lemma UniverseCells(children: seq<Window>, i: nat, v: seq<Box>, also: set<int>, moved: seq<Box>, win: seq<Box>,
                      r: seq<Box>)
    requires i < |children| && children[i].redirect == NotRedirected
    requires Cells(moved) == iset p | OutOf(children[i], p) in Cells(v)
        && Clear(Released(children, i, also), i + 1, |children|, OutOf(children[i], p))
    requires forall x, y :: In(win, x, y) <==> InWin(children[i], Pt(x, y))
    requires forall x, y :: In(r, x, y) <==> In(moved, x, y) && In(win, x, y)
    ensures Cells(r) == LooseUniverse(Released(children, i, also), i, Cells(v))
  {
    hide In, Clear, InWin;
    forall p ensures p in Cells(r) <==> p in LooseUniverse(Released(children, i, also), i, Cells(v)) {
      assert p == Pt(p.x, p.y) && (p in Cells(moved) <==> In(moved, p.x, p.y));
    }
  }

  /** `universe`, which `not_clipped_by_children` returns: from the parent's, and so up to the root. */
  method UniverseOf(root: Window, v: seq<Box>, path: seq<nat>) returns (r: seq<Box>)
    requires InTree(root, path) && Banding(root) && Banded(v)
    ensures Banded(r) && Cells(r) == LooseAt(root, Cells(v), path)
    decreases |path|
  {
    hide Banded, Banding, LooseUniverse, Cells;
    if path == [] {
      return v;
    }
    var up, i := path[..|path| - 1], path[|path| - 1];
    BandingAt(root, up);
    BandingShapes(WindowAt(root, up));
    var above := UniverseOf(root, v, up);
    ReleasedNone(WindowAt(root, up).children, i);
    r := ChildUniverseOf(WindowAt(root, up).children, i, above, {});
  }

  /** `not_clipped_by_children_while`: the siblings in `also` hide nothing yet. */
  method NotClippedWhile(root: Window, v: seq<Box>, path: seq<nat>, also: set<int>) returns (r: seq<Box>)
    requires InTree(root, path) && Banding(root) && Banded(v)
    ensures Banded(r)
    ensures path == [] ==> r == v
    ensures path != [] ==>
        var up, i := path[..|path| - 1], path[|path| - 1];
        var children := WindowAt(root, up).children;
        Cells(r) == if !children[i].viewable then iset{}
          else LooseUniverse(Released(children, i, also), i, LooseAt(root, Cells(v), up))
  {
    hide Banded, Banding, LooseUniverse, Cells;
    if path == [] {
      return v;
    }
    var up, i := path[..|path| - 1], path[|path| - 1];
    BandingAt(root, up);
    BandingShapes(WindowAt(root, up));
    var above := UniverseOf(root, v, up);
    r := ChildUniverseOf(WindowAt(root, up).children, i, above, also);
  }

  /** `clip_list`. */
  method ClipListOf(root: Window, v: seq<Box>, path: seq<nat>) returns (r: seq<Box>)
    requires InTree(root, path) && Banding(root) && Banded(v)
    ensures Banded(r) && Cells(r) == ClipOf(WindowAt(root, path), LooseAt(root, Cells(v), path))
  {
    hide In, Banded, Banding, Clear, LooseAt;
    BandingAt(root, path);
    BandingShapes(WindowAt(root, path));
    var above := UniverseOf(root, v, path);
    r := Less(WindowAt(root, path).children, 0, above);
    assert Cells(r) == ClipOf(WindowAt(root, path), Cells(above));
  }

  /** `border_ring`. */
  method BorderRingOf(root: Window, v: seq<Box>, path: seq<nat>) returns (r: seq<Box>)
    requires InTree(root, path) && Banding(root) && Banded(v)
    ensures Banded(r)
    ensures path == [] ==> r == []
    ensures path != [] ==>
        var up, i := path[..|path| - 1], path[|path| - 1];
        var children := WindowAt(root, up).children;
        Cells(r) == if children[i].viewable then ChildRing(children, i, LooseAt(root, Cells(v), up)) else iset{}
  {
    hide In, Banded, Banding, Clear, LooseAt, InSize, InWin, Seam, Merged, Canonical, SizeCut, WinCut;
    NothingCanonical();
    if path == [] || !WindowAt(root, path).viewable {
      return [];
    }
    var up, i := path[..|path| - 1], path[|path| - 1];
    var children, c := WindowAt(root, up).children, WindowAt(root, path);
    if c.bw == 0 {
      return [];
    }
    BandingAt(root, up);
    BandingAt(root, path);
    BandingShapes(WindowAt(root, up));
    BandingShapes(c);
    var size := BorderSize(c);
    var own := Translate(size, -(c.x + c.bw), -(c.y + c.bw));
    OwnCells(c, size, own);
    var clip := own;
    ghost var u := LooseAt(root, Cells(v), up);
    if c.redirect == NotRedirected {
      var above := UniverseOf(root, v, up);
      ReleasedNone(children, i);
      var moved := Uncovered(children, i, above, {});
      clip := IntersectOf(moved, own);
      assert Cells(clip) == Cells(moved) * Cells(own);
    }
    hide Cells;
    assert Cells(clip) == BorderClip(children, i, u);
    var win := WinSize(c);
    r := SubtractOf(clip, win);
    LessCells(clip, win, r);
    WinCells(c, win);
    assert Cells(r) == ChildRing(children, i, u);
  }

  lemma OwnCells(c: Window, size: seq<Box>, own: seq<Box>)
    requires forall x, y :: In(size, x, y) <==> InSize(c, Pt(x, y))
    requires forall x, y :: In(own, x, y) <==> In(size, x - -(c.x + c.bw), y - -(c.y + c.bw))
    ensures Cells(own) == iset p | InSize(c, OutOf(c, p))
  {
    hide In, InSize;
    forall p ensures p in Cells(own) <==> InSize(c, OutOf(c, p)) {
      var q := OutOf(c, p);
      assert In(own, p.x, p.y) <==> In(size, q.x, q.y);
      assert q == Pt(q.x, q.y);
    }
  }

  lemma LessCells(a: seq<Box>, b: seq<Box>, r: seq<Box>)
    requires forall x, y :: In(r, x, y) <==> In(a, x, y) && !In(b, x, y)
    ensures Cells(r) == Cells(a) - Cells(b)
  {
  }

  lemma WinCells(c: Window, win: seq<Box>)
    requires forall x, y :: In(win, x, y) <==> InWin(c, Pt(x, y))
    ensures Cells(win) == iset p | InWin(c, p)
  {
    forall p ensures p in Cells(win) <==> InWin(c, p) { assert p == Pt(p.x, p.y); }
  }
}
