/** The traversal the single pass replaced (crates/yserver-core/src/core_loop/clip_list/oracle.rs):
    each child's universe takes away all of its higher siblings again, every border ring is
    computed from the root, and every step is on wire rectangles, which clamp. */
module ClipOracle {
  import opened Plane
  import opened Boxes
  import opened RegionAlgebra
  import opened Normalise
  import opened WindowTree
  import opened ClipList
  import opened WireRegions
  import opened OracleSets

  // ------------------------------------------------------- sizes

  function ContentRect(c: Window): WireRect { WireRect(0, 0, c.width, c.height) }

  /** The bounding shape in the parent's space. */
  function MovedShape(c: Window): seq<WireRect>
    requires c.bounding.Shaped?
  {
    ShiftRects(ToRects(c.bounding.region), c.x + c.bw, c.y + c.bw)
  }

  ghost function SizeRects(c: Window): seq<WireRect> {
    if c.bounding.Unshaped? then [OuterRect(c)] else Meet([OuterRect(c)], MovedShape(c))
  }

  /** No coordinate of the computation leaves 16 bits. */
  ghost predicate SizeExact(c: Window) {
    c.bounding.Shaped? ==>
      && AllOnWire(c.bounding.region) && StaysOnWire(ToRects(c.bounding.region), c.x + c.bw, c.y + c.bw)
      && Exact(WireCells([OuterRect(c)]) * WireCells(MovedShape(c)))
  }

  /** `border_size_in_parent`. */
  method OracleSize(c: Window) returns (r: seq<WireRect>)
    requires BandedShape(c.bounding)
    ensures r == SizeRects(c)
    ensures SizeExact(c) ==> WireCells(r) == iset p: Pt | InSize(c, p)
  {
    hide In, Banded, Canonical, InRects, WireCells, InSize, MovedShape, Exact;
    r := [OuterRect(c)];
    if c.bounding.Shaped? {
      r := MeetRects(r, MovedShape(c));
    }
    if SizeExact(c) { SizeCells(c); }
  }

  lemma SizeCells(c: Window)
    requires SizeExact(c) && BandedShape(c.bounding)
    ensures c.bounding.Unshaped? ==> WireCells([OuterRect(c)]) == iset p: Pt | InSize(c, p)
    ensures c.bounding.Shaped? ==> WireCells([OuterRect(c)]) * WireCells(MovedShape(c)) == iset p: Pt | InSize(c, p)
  {
    hide InRects, Banded, WireCells, StaysOnWire;
    OneRect(OuterRect(c));
    if c.bounding.Shaped? {
      OnWireExact(c.bounding.region);
      forall p: Pt ensures p in WireCells(MovedShape(c)) <==> InShape(c.bounding, Into(c, p)) {
        ShiftExact(ToRects(c.bounding.region), c.x + c.bw, c.y + c.bw, p);
        assert Pt(p.x - (c.x + c.bw), p.y - (c.y + c.bw)) == Into(c, p);
      }
    }
  }

  lemma OneRect(a: WireRect)
    ensures forall p: Pt :: p in WireCells([a]) <==> InRect(a, p.x, p.y)
  {
    forall p: Pt ensures p in WireCells([a]) <==> InRect(a, p.x, p.y) {
      if InRect(a, p.x, p.y) { assert InRect([a][0], p.x, p.y); }
    }
  }

  ghost function CutTo(a: seq<WireRect>, s: Shape): seq<WireRect> {
    if s.Unshaped? then a else Meet(a, ToRects(s.region))
  }

  ghost predicate CutExact(a: seq<WireRect>, s: Shape) {
    s.Shaped? ==> AllOnWire(s.region) && Exact(WireCells(a) * WireCells(ToRects(s.region)))
  }

  ghost function WinRects(c: Window): seq<WireRect> {
    CutTo(CutTo([ContentRect(c)], c.bounding), c.clip)
  }

  ghost predicate WinExact(c: Window) {
    CutExact([ContentRect(c)], c.bounding) && CutExact(CutTo([ContentRect(c)], c.bounding), c.clip)
  }

  method OracleCut(a: seq<WireRect>, s: Shape) returns (r: seq<WireRect>)
    requires BandedShape(s)
    ensures r == CutTo(a, s)
    ensures CutExact(a, s) ==> WireCells(r) == iset p: Pt | p in WireCells(a) && InShape(s, p)
    ensures CutExact(a, s) && Formed(a) ==> Formed(r)
  {
    hide In, Banded, Canonical, InRects;
    r := a;
    if s.Shaped? {
      r := MeetRects(a, ToRects(s.region));
      if CutExact(a, s) { OnWireExact(s.region); }
    }
  }

  /** `win_size`. */
  method OracleWin(c: Window) returns (r: seq<WireRect>)
    requires BandedShape(c.bounding) && BandedShape(c.clip)
    ensures r == WinRects(c)
    ensures WinExact(c) ==> WireCells(r) == iset p: Pt | InWin(c, p)
    ensures WinExact(c) && Sized(c) ==> Formed(r)
  {
    hide CutExact, InShape, Formed;
    OneRect(ContentRect(c));
    if Sized(c) { ContentFormed(c); }
    r := OracleCut([ContentRect(c)], c.bounding);
    r := OracleCut(r, c.clip);
  }

  /** A size a window can have. */
  predicate Sized(c: Window) { 0 < c.width <= 0xffff && 0 < c.height <= 0xffff }

  lemma ContentFormed(c: Window)
    requires Sized(c)
    ensures Formed([ContentRect(c)])
  {
    var b := Box(0, 0, c.width, c.height);
    OneBox(b);
    FormedRegion([b]);
    assert ToRects([b]) == [ContentRect(c)];
  }

  // ------------------------------------------------------- what the siblings leave

  predicate Covers(c: Window) { c.viewable && c.redirect != Manual }

  ghost function UncoveredRects(children: seq<Window>, lo: nat, hi: nat, v: seq<WireRect>): seq<WireRect>
    requires lo <= hi <= |children|
  {
    if lo == hi then v
    else
      var rest := UncoveredRects(children, lo, hi - 1, v);
      if Covers(children[hi - 1]) then Minus(rest, SizeRects(children[hi - 1])) else rest
  }

  ghost predicate UncoveredExact(children: seq<Window>, lo: nat, v: seq<WireRect>)
    requires lo <= |children|
  {
    forall j :: lo <= j < |children| && Covers(children[j]) ==>
      SizeExact(children[j]) && Exact(WireCells(UncoveredRects(children, lo, j, v)) - WireCells(SizeRects(children[j])))
  }

  /** `v` less the sizes of the covering children from `lo` up. */
  method OracleUncovered(children: seq<Window>, lo: nat, v: seq<WireRect>) returns (r: seq<WireRect>)
    requires lo <= |children| && AllBanding(children)
    ensures r == UncoveredRects(children, lo, |children|, v)
    ensures UncoveredExact(children, lo, v) ==>
        WireCells(r) == iset p: Pt | p in WireCells(v) && Clear(children, lo, |children|, p)
  {
    hide SizeExact, SizeRects, Exact, InSize, Minus, Banding, LeftOver;
    r := v;
    LeftAll(children, lo, v);
    for j := lo to |children|
      invariant LeftOver(children, lo, j, v, r)
    {
      ghost var before := r;
      if children[j].viewable && children[j].redirect != Manual {
        BandingShapes(children[j]);
        var size := OracleSize(children[j]);
        r := MinusRects(r, size);
        LeftLess(children, lo, j, v, before, r);
      } else {
        LeftSame(children, lo, j, v, r);
      }
    }
    LeftEnd(children, lo, v, r);
  }

  /** The list is what the children lo..j leave. */
  ghost predicate LeftOver(children: seq<Window>, lo: nat, j: nat, v: seq<WireRect>, r: seq<WireRect>)
    requires lo <= j <= |children|
  {
    && r == UncoveredRects(children, lo, j, v)
    && (UncoveredExact(children, lo, v) ==>
          WireCells(r) == (iset p: Pt | p in WireCells(v) && Clear(children, lo, j, p)) && (Formed(v) ==> Formed(r)))
  }

  lemma LeftAll(children: seq<Window>, lo: nat, v: seq<WireRect>)
    requires lo <= |children|
    ensures LeftOver(children, lo, lo, v, v)
  {
  }

  lemma LeftSame(children: seq<Window>, lo: nat, j: nat, v: seq<WireRect>, r: seq<WireRect>)
    requires lo <= j < |children| && !Covers(children[j]) && LeftOver(children, lo, j, v, r)
    ensures LeftOver(children, lo, j + 1, v, r)
  {
    hide UncoveredExact, WireCells, Formed;
  }

  lemma LeftLess(children: seq<Window>, lo: nat, j: nat, v: seq<WireRect>, r: seq<WireRect>, r': seq<WireRect>)
    requires lo <= j < |children| && Covers(children[j]) && LeftOver(children, lo, j, v, r)
    requires r' == Minus(r, SizeRects(children[j]))
    requires WireCells(r') == WireCells(r) - WireCells(SizeRects(children[j])) <==>
        Exact(WireCells(r) - WireCells(SizeRects(children[j])))
    requires SizeExact(children[j]) ==> WireCells(SizeRects(children[j])) == iset p: Pt | InSize(children[j], p)
    ensures LeftOver(children, lo, j + 1, v, r')
  {
    hide WireCells, SizeRects, SizeExact, InSize, Exact, Minus, Clear;
    assert r' == UncoveredRects(children, lo, j + 1, v);
    if UncoveredExact(children, lo, v) {
      assert SizeExact(children[j])
          && Exact(WireCells(UncoveredRects(children, lo, j, v)) - WireCells(SizeRects(children[j])));
      hide UncoveredRects, UncoveredExact;
      ClearNext(children, lo, j);
      forall p: Pt ensures p in WireCells(r') <==> p in WireCells(v) && Clear(children, lo, j + 1, p) {
        assert Hides(children[j], p) <==> InSize(children[j], p);
        assert p in WireCells(r) <==> p in WireCells(v) && Clear(children, lo, j, p);
      }
      assert Formed(r') by { FormedMinus(r, SizeRects(children[j])); }
    }
  }

  lemma FormedMinus(a: seq<WireRect>, b: seq<WireRect>)
    requires WireCells(Minus(a, b)) == WireCells(a) - WireCells(b)
    ensures Formed(Minus(a, b))
  {
    hide WireCells;
  }

  lemma LeftEnd(children: seq<Window>, lo: nat, v: seq<WireRect>, r: seq<WireRect>)
    requires lo <= |children| && LeftOver(children, lo, |children|, v, r)
    ensures r == UncoveredRects(children, lo, |children|, v)
    ensures UncoveredExact(children, lo, v) ==>
        WireCells(r) == (iset p: Pt | p in WireCells(v) && Clear(children, lo, |children|, p)) && (Formed(v) ==>
            Formed(r))
  {
  }

  lemma {:induction false} NothingLeft(children: seq<Window>, lo: nat, j: nat, hi: nat, v: seq<WireRect>)
    requires lo <= j <= hi <= |children| && UncoveredRects(children, lo, j, v) == []
    ensures UncoveredRects(children, lo, hi, v) == []
    decreases hi
  {
    if j < hi {
      NothingLeft(children, lo, j, hi - 1, v);
      MinusNothing(SizeRects(children[hi - 1]));
    }
  }

  lemma MinusNothing(b: seq<WireRect>)
    ensures Minus([], b) == [] && Meet([], b) == []
  {
    NothingCanonical();
    NothingCanonical();
    assert WireCells([]) == iset{} && Cells([]) == iset{};
    CanonIs([], iset{});
    assert WireCells([]) - WireCells(b) == iset{} == WireCells([]) * WireCells(b);
  }

  /** `clip_list_from`: the same over all children, given up when nothing is left. */
  method OracleClip(w: Window, v: seq<WireRect>) returns (r: seq<WireRect>)
    requires AllBanding(w.children)
    ensures r == UncoveredRects(w.children, 0, |w.children|, v)
    ensures UncoveredExact(w.children, 0, v) ==> WireCells(r) == ClipOf(w, WireCells(v))
    ensures UncoveredExact(w.children, 0, v) && Formed(v) ==> Formed(r)
  {
    hide SizeExact, SizeRects, Exact, InSize, Minus, Banding, LeftOver, UncoveredExact, UncoveredRects, Formed,
         WireCells, Clear;
    var children := w.children;
    r := v;
    LeftAll(children, 0, v);
    for j := 0 to |children|
      invariant LeftOver(children, 0, j, v, r)
    {
      if r == [] {
        LeftNothing(children, j, v);
        LeftEnd(children, 0, v, r);
        return;
      }
      ghost var before := r;
      if children[j].viewable && children[j].redirect != Manual {
        BandingShapes(children[j]);
        var size := OracleSize(children[j]);
        r := MinusRects(r, size);
        LeftLess(children, 0, j, v, before, r);
      } else {
        LeftSame(children, 0, j, v, r);
      }
    }
    LeftEnd(children, 0, v, r);
  }

  /** Once nothing is left, nothing will be. */
  lemma LeftNothing(children: seq<Window>, j: nat, v: seq<WireRect>)
    requires j <= |children| && LeftOver(children, 0, j, v, [])
    ensures LeftOver(children, 0, |children|, v, [])
  {
    hide InRects;
    NothingLeft(children, 0, j, |children|, v);
    NoRects();
  }

  lemma NothingFormed()
    ensures Formed([])
  {
    NothingCanonical();
    FormedRegion([]);
  }

  lemma NoRects()
    ensures WireCells([]) == iset{}
  {
  }

  // ------------------------------------------------------- universes and rings

  ghost function UncoveredMoved(children: seq<Window>, i: nat, v: seq<WireRect>): seq<WireRect>
    requires i < |children|
  {
    var c := children[i];
    ShiftRects(UncoveredRects(children, i + 1, |children|, v), -(c.x + c.bw), -(c.y + c.bw))
  }

  ghost function UniverseRects(children: seq<Window>, i: nat, v: seq<WireRect>): seq<WireRect>
    requires i < |children|
  {
    var c := children[i];
    if !c.viewable then []
    else if c.redirect != NotRedirected then WinRects(c)
    else if v == [] then []
    else Meet(UncoveredMoved(children, i, v), WinRects(c))
  }

  ghost predicate MovedExact(children: seq<Window>, i: nat, v: seq<WireRect>)
    requires i < |children|
  {
    var c := children[i];
    UncoveredExact(children, i + 1, v)
    && StaysOnWire(UncoveredRects(children, i + 1, |children|, v), -(c.x + c.bw), -(c.y + c.bw))
  }

  ghost predicate UniverseExact(children: seq<Window>, i: nat, v: seq<WireRect>)
    requires i < |children|
  {
    && WinExact(children[i])
    && (children[i].redirect == NotRedirected ==>
          MovedExact(children, i, v)
          && Exact(WireCells(UncoveredMoved(children, i, v)) * WireCells(WinRects(children[i]))))
  }

  /** `uncovered_in_child_space`. */
  method OracleMoved(children: seq<Window>, i: nat, v: seq<WireRect>) returns (r: seq<WireRect>)
    requires i < |children| && AllBanding(children)
    ensures r == UncoveredMoved(children, i, v)
    ensures MovedExact(children, i, v) ==>
        WireCells(r) == iset p: Pt | OutOf(children[i], p) in WireCells(v)
        && Clear(children, i + 1, |children|, OutOf(children[i], p))
  {
    hide InRects, Clear, UncoveredExact, WireCells, ShiftRects, UncoveredRects;
    var c := children[i];
    var uncovered := OracleUncovered(children, i + 1, v);
    r := ShiftRects(uncovered, -(c.x + c.bw), -(c.y + c.bw));
    if MovedExact(children, i, v) {
      ShiftInto(c, uncovered, iset q: Pt | q in WireCells(v) && Clear(children, i + 1, |children|, q));
    }
  }

  lemma ShiftInto(c: Window, a: seq<WireRect>, s: iset<Pt>)
    requires StaysOnWire(a, -(c.x + c.bw), -(c.y + c.bw)) && WireCells(a) == s
    ensures WireCells(ShiftRects(a, -(c.x + c.bw), -(c.y + c.bw))) == iset p: Pt | OutOf(c, p) in s
  {
    hide WireCells, ShiftRects, StaysOnWire;
    forall p: Pt ensures p in WireCells(ShiftRects(a, -(c.x + c.bw), -(c.y + c.bw))) <==> OutOf(c, p) in s {
      ShiftExact(a, -(c.x + c.bw), -(c.y + c.bw), p);
      assert Pt(p.x + (c.x + c.bw), p.y + (c.y + c.bw)) == OutOf(c, p);
    }
  }

  /** `child_universe`: for every child the rectangles the source returns; their pixels, if no
      coordinate leaves 16 bits, are what the higher siblings leave inside the content. */
  method OracleUniverse(children: seq<Window>, i: nat, v: seq<WireRect>) returns (r: seq<WireRect>)
    requires i < |children| && AllBanding(children)
    ensures r == UniverseRects(children, i, v)
    ensures children[i].viewable && UniverseExact(children, i, v) ==>
        WireCells(r) == LooseUniverse(children, i, WireCells(v))
    ensures UniverseExact(children, i, v) && Sized(children[i]) ==> Formed(r)
    ensures !children[i].viewable ==> r == []
  {
    hide InRects, Clear, Exact, InWin, MovedExact, WinExact, UncoveredMoved, WinRects;
    var c := children[i];
    NothingFormed();
    if !c.viewable {
      return [];
    }
    BandingShapes(c);
    var win := OracleWin(c);
    if c.redirect != NotRedirected {
      return win;
    }
    if v == [] {
      NoRects();
      return [];
    }
    var moved := OracleMoved(children, i, v);
    r := MeetRects(moved, win);
  }

  /** A child's own size in its own space, cut to what the higher siblings leave unless it is
      redirected. */
  ghost function BorderRects(children: seq<Window>, i: nat, v: seq<WireRect>): seq<WireRect>
    requires i < |children|
  {
    var c := children[i];
    var own := ShiftRects(SizeRects(c), -(c.x + c.bw), -(c.y + c.bw));
    if c.redirect != NotRedirected then own else Meet(UncoveredMoved(children, i, v), own)
  }

  ghost predicate BorderExact(children: seq<Window>, i: nat, v: seq<WireRect>)
    requires i < |children|
  {
    var c := children[i];
    var own := ShiftRects(SizeRects(c), -(c.x + c.bw), -(c.y + c.bw));
    && SizeExact(c) && StaysOnWire(SizeRects(c), -(c.x + c.bw), -(c.y + c.bw))
    && (c.redirect == NotRedirected ==>
        MovedExact(children, i, v) && Exact(WireCells(UncoveredMoved(children, i, v)) * WireCells(own)))
  }

  method OracleBorder(children: seq<Window>, i: nat, v: seq<WireRect>) returns (r: seq<WireRect>)
    requires i < |children| && AllBanding(children)
    ensures r == BorderRects(children, i, v)
    ensures BorderExact(children, i, v) ==> WireCells(r) == BorderClip(children, i, WireCells(v))
  {
    hide InRects, Clear, Exact, InSize, MovedExact, SizeExact, UncoveredMoved, SizeRects, Meet, WireCells,
         ShiftRects, StaysOnWire;
    var c := children[i];
    BandingShapes(c);
    var size := OracleSize(c);
    r := ShiftRects(size, -(c.x + c.bw), -(c.y + c.bw));
    if BorderExact(children, i, v) { ShiftInto(c, size, iset p: Pt | InSize(c, p)); }
    if c.redirect == NotRedirected {
      var moved := OracleMoved(children, i, v);
      r := MeetRects(moved, r);
    }
  }

  ghost function RingRects(children: seq<Window>, i: nat, v: seq<WireRect>): seq<WireRect>
    requires i < |children|
  {
    if !children[i].viewable || children[i].bw
      == 0 then [] else Minus(BorderRects(children, i, v), WinRects(children[i]))
  }

  ghost predicate RingExact(children: seq<Window>, i: nat, v: seq<WireRect>)
    requires i < |children|
  {
    children[i].bw != 0 ==>
      && BorderExact(children, i, v) && WinExact(children[i])
      && Exact(WireCells(BorderRects(children, i, v)) - WireCells(WinRects(children[i])))
  }

  /** The universe of a window, from the root's down its path. */
  ghost function UniverseAt(root: Window, v: seq<WireRect>, path: seq<nat>): seq<WireRect>
    requires InTree(root, path)
    decreases |path|
  {
    if path == [] then v
    else
      var up := path[..|path| - 1];
      UniverseRects(WindowAt(root, up).children, path[|path| - 1], UniverseAt(root, v, up))
  }

  /** No coordinate leaves 16 bits down the path. */
  ghost predicate ExactAt(root: Window, v: seq<WireRect>, path: seq<nat>)
    requires InTree(root, path)
    decreases |path|
  {
    path != [] ==>
      var up := path[..|path| - 1];
      ExactAt(root, v, up) && UniverseExact(WindowAt(root, up).children, path[|path| - 1], UniverseAt(root, v, up))
  }

  /** `not_clipped_by_children`: a window's universe from its parent's, and so up to the root. Its
      pixels are those of the declarative recursion down the path. */
  method UniverseFromRoot(root: Window, v: seq<WireRect>, path: seq<nat>) returns (r: seq<WireRect>)
    requires InTree(root, path) && Banding(root)
    ensures r == UniverseAt(root, v, path)
    ensures ExactAt(root, v, path) ==> WireCells(r) == LooseAt(root, WireCells(v), path)
    decreases |path|
  {
    hide UniverseRects, UniverseExact, LooseUniverse, WireCells;
    if path == [] {
      return v;
    }
    NoRects();
    var up := path[..|path| - 1];
    BandingAt(root, up);
    r := UniverseFromRoot(root, v, up);
    BandingShapes(WindowAt(root, up));
    r := OracleUniverse(WindowAt(root, up).children, path[|path| - 1], r);
  }

  /** `border_ring_clip`: the ring of the window at a path, its parent's universe computed from the
      root. */
  method OracleRing(root: Window, v: seq<WireRect>, path: seq<nat>) returns (r: seq<WireRect>)
    requires InTree(root, path) && path != [] && Banding(root)
    ensures var up, i := path[..|path| - 1], path[|path| - 1];
      var children, u := WindowAt(root, up).children, UniverseAt(root, v, up);
      && r == RingRects(children, i, u)
      && (children[i].viewable && RingExact(children, i, u) ==> WireCells(r) == ChildRing(children, i, WireCells(u)))
      && (RingExact(children, i, u) ==> Formed(r))
  {
    hide InRects, InWin, Exact, BorderExact, WinExact, BorderRects, WinRects, BorderClip, UniverseAt;
    NothingFormed();
    var up, i := path[..|path| - 1], path[|path| - 1];
    var children := WindowAt(root, up).children;
    var c := children[i];
    NoRects();
    if !c.viewable || c.bw == 0 {
      return [];
    }
    var u := UniverseFromRoot(root, v, up);
    BandingAt(root, up);
    BandingShapes(WindowAt(root, up));
    BandingShapes(c);
    r := OracleBorder(children, i, u);
    var win := OracleWin(c);
    r := MinusRects(r, win);
  }
}
