/** When the oracle's coordinates stay within 16 bits, from the geometry alone, and two trees where
    the oracle and the single pass part: one by a saturated outer size, one by a clamped move. */
module OracleLimits {
  import opened Plane
  import opened Boxes
  import opened Regions
  import opened RegionAlgebra
  import opened Normalise
  import opened WindowTree
  import opened ShapeCuts
  import opened ClipList
  import opened WireRegions
  import opened OracleSets
  import opened ClipOracle
  import opened OracleWalk

  /** Every box inside goes to the wire as it is. */
  predicate Roomy(b: Box) {
    && MINSHORT <= b.x1 && b.x2 <= MAXSHORT + 1 && b.x2 - b.x1 <= 0xffff
    && MINSHORT <= b.y1 && b.y2 <= MAXSHORT + 1 && b.y2 - b.y1 <= 0xffff
  }

  ghost predicate Within(s: iset<Pt>, b: Box) { forall p :: p in s ==> InBox(b, p.x, p.y) }

  lemma WithinExact(s: iset<Pt>, b: Box)
    requires Roomy(b) && Within(s, b)
    ensures Exact(s)
  {
    forall c: seq<Box> | IsCanon(c, s) ensures AllOnWire(c) {
      forall k | 0 <= k < |c| ensures OnWire(c[k]) {
        assert NonEmpty(c[k]);
        assert InBox(c[k], c[k].x1, c[k].y1) && InBox(c[k], c[k].x2 - 1, c[k].y2 - 1);
        assert Pt(c[k].x1, c[k].y1) in Cells(c) && Pt(c[k].x2 - 1, c[k].y2 - 1) in Cells(c);
      }
    }
  }

  /** A list of rectangles inside a roomy box. */
  ghost predicate Inside(a: seq<WireRect>, b: Box) { Roomy(b) && Solid(a) && Within(WireCells(a), b) }

  /** Any part of it goes to the wire as it is and stays inside. */
  lemma PartInside(s: iset<Pt>, b: Box)
    requires Roomy(b) && Within(s, b)
    ensures Exact(s) && Inside(ToRects(Canon(s)), b)
  {
    WithinExact(s, b);
    ExactWithin(s);
  }

  lemma OneInside(a: WireRect, b: Box)
    requires Roomy(b) && a.width > 0 && a.height > 0 && b == Box(a.x, a.y, a.x + a.width, a.y + a.height)
    ensures Inside([a], b)
  {
    OneRect(a);
  }

  /** A move that takes the box to a roomy one takes the rectangles there. */
  lemma ShiftInside(a: seq<WireRect>, b: Box, dx: int, dy: int)
    requires Inside(a, b) && Roomy(Moved(b, dx, dy))
    ensures StaysOnWire(a, dx, dy) && Inside(ShiftRects(a, dx, dy), Moved(b, dx, dy))
  {
    forall k | 0 <= k < |a| ensures InBox(b, a[k].x, a[k].y) {
      assert InRect(a[k], a[k].x, a[k].y);
      assert Pt(a[k].x, a[k].y) in WireCells(a);
    }
    forall p | p in WireCells(ShiftRects(a, dx, dy)) ensures InBox(Moved(b, dx, dy), p.x, p.y) {
      ShiftExact(a, dx, dy, p);
    }
  }

  predicate RoomyShape(s: Shape, dx: int, dy: int) {
    s.Shaped? ==> forall k :: 0 <= k < |s.region| ==> Roomy(s.region[k]) && Roomy(Moved(s.region[k], dx, dy))
  }

  function OuterBox(c: Window): Box { Box(c.x, c.y, c.x + Outer(c.width, c.bw), c.y + Outer(c.height, c.bw)) }

  function ContentBox(c: Window): Box { Box(0, 0, c.width, c.height) }

  /** The child, its shapes and its parent's box have room in both spaces. */
  predicate RoomyChild(c: Window, b: Box) {
    && Sized(c) && Roomy(ContentBox(c)) && Roomy(OuterBox(c)) && Roomy(Moved(OuterBox(c), -(c.x + c.bw), -(c.y + c.bw)))
    && RoomyShape(c.bounding, c.x + c.bw, c.y + c.bw) && RoomyShape(c.clip, 0, 0)
    && Roomy(Moved(b, -(c.x + c.bw), -(c.y + c.bw)))
  }

  /** A box around the child's universe. */
  function ChildBox(c: Window, b: Box): Box {
    if c.redirect != NotRedirected then ContentBox(c)
    else
      var m := Moved(b, -(c.x + c.bw), -(c.y + c.bw));
      Box(Max(0, m.x1), Max(0, m.y1), Min(c.width, m.x2), Min(c.height, m.y2))
  }

  predicate RoomyTree(w: Window, b: Box) {
    Roomy(b) && forall i :: 0 <= i < |w.children| && w.children[i].viewable ==>
      RoomyChild(w.children[i], b) && RoomyTree(w.children[i], ChildBox(w.children[i], b))
  }

  // ------------------------------------------------------- room is enough

  lemma RoomyRegion(r: seq<Box>)
    requires Banded(r) && forall k :: 0 <= k < |r| ==> Roomy(r[k])
    ensures AllOnWire(r)
  {
    forall k | 0 <= k < |r| ensures OnWire(r[k]) { assert NonEmpty(r[k]); }
  }

  lemma RoomySize(c: Window, b: Box)
    requires RoomyChild(c, b) && BandedShape(c.bounding)
    ensures SizeExact(c) && Inside(SizeRects(c), OuterBox(c))
  {
    OneInside(OuterRect(c), OuterBox(c));
    if c.bounding.Shaped? {
      var r := c.bounding.region;
      RoomyRegion(r);
      forall k | 0 <= k < |r| ensures MINSHORT <= ToRect(r[k]).x + (c.x + c.bw) <= MAXSHORT
        && MINSHORT <= ToRect(r[k]).y + (c.y + c.bw) <= MAXSHORT {
        assert NonEmpty(r[k]) && OnWire(r[k]) && Roomy(Moved(r[k], c.x + c.bw, c.y + c.bw));
      }
      PartInside(WireCells([OuterRect(c)]) * WireCells(MovedShape(c)), OuterBox(c));
    }
  }

  lemma RoomyCut(a: seq<WireRect>, s: Shape, b: Box)
    requires Inside(a, b) && BandedShape(s) && RoomyShape(s, 0, 0)
    ensures CutExact(a, s) && Inside(CutTo(a, s), b)
  {
    if s.Shaped? {
      RoomyRegion(s.region);
      PartInside(WireCells(a) * WireCells(ToRects(s.region)), b);
    }
  }

  lemma RoomyWin(c: Window, b: Box)
    requires RoomyChild(c, b) && BandedShape(c.bounding) && BandedShape(c.clip)
    ensures WinExact(c) && Inside(WinRects(c), ContentBox(c))
  {
    hide CutTo, CutExact, Inside;
    OneInside(ContentRect(c), ContentBox(c));
    assert RoomyShape(c.bounding, 0, 0);
    RoomyCut([ContentRect(c)], c.bounding, ContentBox(c));
    RoomyCut(CutTo([ContentRect(c)], c.bounding), c.clip, ContentBox(c));
  }

  predicate RoomyLayer(children: seq<Window>, b: Box) {
    forall i :: 0 <= i < |children| && children[i].viewable ==> RoomyChild(children[i], b)
  }

  lemma {:induction false} RoomyUncovered(children: seq<Window>, lo: nat, hi: nat, v: seq<WireRect>, b: Box)
    requires lo <= hi <= |children| && RoomyLayer(children, b) && AllBanding(children) && Inside(v, b)
    ensures Inside(UncoveredRects(children, lo, hi, v), b)
    ensures forall j :: lo <= j < hi && Covers(children[j]) ==>
        SizeExact(children[j])
        && Exact(WireCells(UncoveredRects(children, lo, j, v)) - WireCells(SizeRects(children[j])))
    decreases hi
  {
    hide SizeExact, SizeRects, RoomyChild, Exact, Banding;
    if lo < hi {
      RoomyUncovered(children, lo, hi - 1, v, b);
      if Covers(children[hi - 1]) {
        BandingShapes(children[hi - 1]);
        RoomySize(children[hi - 1], b);
        PartInside(WireCells(UncoveredRects(children, lo, hi - 1, v)) - WireCells(SizeRects(children[hi - 1])), b);
      }
    }
  }

  lemma RoomyMoved(children: seq<Window>, i: nat, v: seq<WireRect>, b: Box)
    requires i < |children| && children[i].viewable && RoomyLayer(children, b) && AllBanding(children) && Inside(v, b)
    ensures var c := children[i];
      MovedExact(children, i, v) && Inside(UncoveredMoved(children, i, v), Moved(b, -(c.x + c.bw), -(c.y + c.bw)))
  {
    hide SizeExact, SizeRects, Exact, Inside, Banding, StaysOnWire, ShiftRects;
    var c := children[i];
    RoomyUncovered(children, i + 1, |children|, v, b);
    ShiftInside(UncoveredRects(children, i + 1, |children|, v), b, -(c.x + c.bw), -(c.y + c.bw));
  }

  lemma RoomyUniverse(children: seq<Window>, i: nat, v: seq<WireRect>, b: Box)
    requires i < |children| && children[i].viewable && RoomyLayer(children, b) && AllBanding(children) && Inside(v, b)
    requires Roomy(ChildBox(children[i], b))
    ensures UniverseExact(children, i, v) && Inside(UniverseRects(children, i, v), ChildBox(children[i], b))
  {
    hide MovedExact, Exact, WinExact, WinRects, UncoveredMoved, Banding;
    var c := children[i];
    BandingShapes(c);
    RoomyWin(c, b);
    RoomyMoved(children, i, v, b);
    if c.redirect == NotRedirected {
      PartInside(WireCells(UncoveredMoved(children, i, v)) * WireCells(WinRects(c)), ChildBox(c, b));
      NoRects();
    }
  }

  lemma RoomyBorder(children: seq<Window>, i: nat, v: seq<WireRect>, b: Box)
    requires i < |children| && children[i].viewable && RoomyLayer(children, b) && AllBanding(children) && Inside(v, b)
    ensures var c := children[i];
      BorderExact(children, i, v)
      && Inside(BorderRects(children, i, v), Moved(OuterBox(c), -(c.x + c.bw), -(c.y + c.bw)))
  {
    hide MovedExact, Exact, SizeExact, SizeRects, UncoveredMoved, Banding, StaysOnWire, ShiftRects;
    var c := children[i];
    var own := ShiftRects(SizeRects(c), -(c.x + c.bw), -(c.y + c.bw));
    BandingShapes(c);
    RoomySize(c, b);
    ShiftInside(SizeRects(c), OuterBox(c), -(c.x + c.bw), -(c.y + c.bw));
    RoomyMoved(children, i, v, b);
    PartInside(WireCells(UncoveredMoved(children, i, v)) * WireCells(own), Moved(OuterBox(c), -(c.x + c.bw),
               -(c.y + c.bw)));
  }

  lemma RoomyRing(children: seq<Window>, i: nat, v: seq<WireRect>, b: Box)
    requires i < |children| && children[i].viewable && RoomyLayer(children, b) && AllBanding(children) && Inside(v, b)
    ensures RingExact(children, i, v)
  {
    hide BorderExact, Exact, WinExact, WinRects, BorderRects, Banding;
    var c := children[i];
    BandingShapes(c);
    RoomyWin(c, b);
    RoomyBorder(children, i, v, b);
    PartInside(WireCells(BorderRects(children, i, v)) - WireCells(WinRects(c)), Moved(OuterBox(c), -(c.x + c.bw),
               -(c.y + c.bw)));
  }

  /** A tree with room has no coordinate outside 16 bits anywhere on the oracle's walk. */
  lemma {:induction false} RoomyExact(w: Window, v: seq<WireRect>, b: Box)
    requires RoomyTree(w, b) && Banding(w) && Inside(v, b)
    ensures WalkExact(w, v)
    decreases w
  {
    hide RoomyChild, UniverseExact, RingExact, Inside, SizeExact, Exact, UniverseRects, UncoveredRects,
         SizeRects, ChildBox;
    BandingShapes(w);
    RoomyUncovered(w.children, 0, |w.children|, v, b);
    forall i | 0 <= i < |w.children| && w.children[i].viewable
      ensures KidExact(w.children, i, v) && WalkExact(w.children[i], UniverseRects(w.children, i, v))
    {
      var c := w.children[i];
      RoomyUniverse(w.children, i, v, b);
      RoomyRing(w.children, i, v, b);
      RoomyExact(c, UniverseRects(w.children, i, v), ChildBox(c, b));
    }
  }

  // ------------------------------------------------------- three trees where they part

  function Leaf(id: int, x: int, y: int, width: nat, height: nat, bw: nat): Window {
    Window(id, x, y, width, height, bw, true, NotRedirected, Unshaped, Unshaped, [])
  }

  /** A wide window whose visible part lies far right in its content, and in it a window whose outer
      size saturates: column 32767 of its content is outside its outer rectangle. */
  function SaturatedTree(): Window {
    Window(1, -32700, 0, 65535, 200, 0, true, NotRedirected, Unshaped, Unshaped,
      [Leaf(2, -32768, -32768, 32768, 32768, 32768)])
  }

  /** With room for every coordinate the two still show different pixels. */
  method SaturationParts() returns (universe: seq<Box>, fast: seq<ClipEntry>, slow: seq<RectEntry>)
    ensures Canonical(universe) && WalkExact(SaturatedTree(), ToRects(universe))
        && !NoStray(SaturatedTree(), Cells(universe))
    ensures Refines(fast, Walk(SaturatedTree(), [], 0, 0, true, Cells(universe), iset{}), true)
    ensures slow == WalkRects(SaturatedTree(), ToRects(universe), [])
    ensures !SamePixels(fast, slow)
  {
    hide Canonical, Walk, WalkRects, WalkExact, Refines, SamePixels, Harmless, NoCuts, HitTest;
    var w, b := SaturatedTree(), Box(32700, 0, 32768, 100);
    universe := [b];
    OneBox(b);
    SaturatedStray();
    SaturatedRoomy();
    PlainHarmlessIff(w, [], Cells(universe));
    fast, slow := SinglePassVersusOracle(w, universe);
  }

  lemma SaturatedStray()
    ensures Plain(SaturatedTree()) && Banding(SaturatedTree())
        && !NoStray(SaturatedTree(), Cells([Box(32700, 0, 32768, 100)]))
  {
    var w := SaturatedTree();
    var r, p := [Box(32700, 0, 32768, 100)], Pt(32767, 0);
    assert InBox(r[0], 32767, 0);
    assert OutOf(w.children[0], p) == p && p in Cells(r);
    assert Stray(w.children, 0, Cells(r), p);
  }

  lemma SaturatedRoomy()
    ensures AllOnWire([Box(32700, 0, 32768, 100)]) && WalkExact(SaturatedTree(), ToRects([Box(32700, 0, 32768, 100)]))
  {
    hide WalkExact;
    var w, b := SaturatedTree(), Box(32700, 0, 32768, 100);
    var c := w.children[0];
    assert RoomyChild(c, b) && RoomyTree(c, ChildBox(c, b));
    var a := WireRect(32700, 0, 68, 100);
    assert ToRects([b]) == [a];
    OneInside(a, b);
    SaturatedStray();
    RoomyExact(w, [a], b);
  }

  /** A window that starts at the left limit, and one above it that hides the first columns. */
  function ClampedTree(): Window {
    Window(1, 0, 0, 100, 100, 0, true, NotRedirected, Unshaped, Unshaped,
           [Leaf(2, -32768, 0, 32800, 50, 1), Leaf(3, 0, 0, 10, 100, 0)])
  }

  lemma ClampedLeft()
    ensures UncoveredRects(ClampedTree().children, 1, 2, [WireRect(0, 0, 100, 100)]) == [WireRect(10, 0, 90, 100)]
  {
    hide WireCells, Canon;
    var kids, v := ClampedTree().children, [WireRect(0, 0, 100, 100)];
    OneRect(v[0]);
    OneRect(WireRect(0, 0, 10, 100));
    assert SizeRects(kids[1]) == [WireRect(0, 0, 10, 100)];
    CanonOfBox(Box(10, 0, 100, 100), WireCells(v) - WireCells(SizeRects(kids[1])));
    assert ToRects([Box(10, 0, 100, 100)]) == [WireRect(10, 0, 90, 100)];
    assert UncoveredRects(kids, 1, 1, v) == v;
  }

  /** Although every window fits 16 bits, the clamped move gives ten more columns. */
  lemma ClampedUniverse()
    ensures UniverseRects(ClampedTree().children, 0, [WireRect(0, 0, 100, 100)]) == [WireRect(32767, 0, 33, 50)]
  {
    hide WireCells, Canon, UncoveredRects;
    var kids, v := ClampedTree().children, [WireRect(0, 0, 100, 100)];
    var moved, content := WireRect(32767, -1, 90, 100), WireRect(0, 0, 32800, 50);
    ClampedLeft();
    assert UncoveredMoved(kids, 0, v) == [moved] && WinRects(kids[0]) == [content];
    OneRect(moved);
    OneRect(content);
    CanonOfBox(Box(32767, 0, 32800, 50), WireCells([moved]) * WireCells([content]));
    assert ToRects([Box(32767, 0, 32800, 50)]) == [WireRect(32767, 0, 33, 50)];
  }

  lemma CanonOfBox(b: Box, s: iset<Pt>)
    requires NonEmpty(b) && forall p: Pt :: p in s <==> InBox(b, p.x, p.y)
    ensures Canon(s) == [b]
  {
    OneBox(b);
    assert Cells([b]) == s;
    CanonIs([b], s);
  }

  /** Every window fits and no pixel strays, but a moved coordinate leaves 16 bits. */
  method ClampParts() returns (universe: seq<Box>, fast: seq<ClipEntry>, slow: seq<RectEntry>)
    ensures Canonical(universe) && FitsTree(ClampedTree()) && NoStray(ClampedTree(), Cells(universe))
    ensures Refines(fast, Walk(ClampedTree(), [], 0, 0, true, Cells(universe), iset{}), true)
    ensures slow == WalkRects(ClampedTree(), ToRects(universe), [])
    ensures !SamePixels(fast, slow) && !WalkExact(ClampedTree(), ToRects(universe))
  {
    hide Canonical, Walk, WalkRects, WalkExact, Refines, SamePixels, NoStray, Harmless, NoCuts, HitTest;
    var w, b := ClampedTree(), Box(0, 0, 100, 100);
    universe := [b];
    OneBox(b);
    FitsTreeNoStray(w, Cells(universe));
    NoStrayHarmless(w, [], Cells(universe));
    ClampedBanding();
    assert ToRects(universe) == [WireRect(0, 0, 100, 100)];
    fast, slow := SinglePassVersusOracle(w, universe);
    ClampedEntries(fast, slow, Cells(universe));
  }

  lemma ClampedBanding()
    ensures Banding(ClampedTree()) && AllOnWire([Box(0, 0, 100, 100)])
  {
  }

  /** The entry of the lower window: column 32767 is hidden, and the oracle shows it. */
  lemma ClampedEntries(fast: seq<ClipEntry>, slow: seq<RectEntry>, u: iset<Pt>)
    requires Refines(fast, Walk(ClampedTree(), [], 0, 0, true, u, iset{}), true)
    requires slow == WalkRects(ClampedTree(), [WireRect(0, 0, 100, 100)], [])
    ensures !SamePixels(fast, slow)
  {
    var w, v, p := ClampedTree(), [WireRect(0, 0, 100, 100)], Pt(32767, 0);
    ClampedSlow(slow);
    ClampedFast(u);
    assert RightEntry(fast[2], Walk(w, [], 0, 0, true, u, iset{})[2], true);
    OneRect(WireRect(32767, 0, 33, 50));
    assert p in WireCells(slow[2].clip) && p !in Cells(fast[2].clip);
    assert !SameEntry(fast[2], slow[2]);
  }

  lemma ClampedSlow(slow: seq<RectEntry>)
    requires slow == WalkRects(ClampedTree(), [WireRect(0, 0, 100, 100)], [])
    ensures |slow| == 3 && slow[2].clip == [WireRect(32767, 0, 33, 50)]
  {
    hide UniverseRects, RingRects;
    var w, v := ClampedTree(), [WireRect(0, 0, 100, 100)];
    ClampedUniverse();
    LeafRects(w.children[0], UniverseRects(w.children, 0, v), RingRects(w.children, 0, v));
    LeafRects(w.children[1], UniverseRects(w.children, 1, v), RingRects(w.children, 1, v));
    assert KidsRects(w, 0, v) == [] && |KidsRects(w, 1, v)| == 1 && |KidsRects(w, 2, v)| == 2;
    assert KidsRects(w, 2, v)[1] == KidsRects(w, 1, v)[0];
  }

  lemma LeafRects(w: Window, v: seq<WireRect>, ring: seq<WireRect>)
    requires w.viewable && w.children == []
    ensures WalkRects(w, v, ring) == [RectEntry(w.id, v, ring)]
  {
    assert KidsRects(w, 0, v) == [];
  }

  lemma ClampedFast(u: iset<Pt>)
    ensures var s := Walk(ClampedTree(), [], 0, 0, true, u, iset{}); |s| == 3 && Pt(32767, 0) !in s[2].clip
  {
    hide ChildUniverse, ChildRing;
    var w := ClampedTree();
    assert WalkKids(w, 0, [], 0, 0, true, u) == [];
    assert |WalkKid(w, 0, [], 0, 0, true, u)| == 1 == |WalkKid(w, 1, [], 0, 0, true, u)|;
    assert WalkKids(w, 1, [], 0, 0, true, u) == WalkKid(w, 0, [], 0, 0, true, u);
    assert WalkKids(w, 2, [], 0, 0, true, u) == WalkKid(w, 1, [], 0, 0, true, u) + WalkKid(w, 0, [], 0, 0, true, u);
    ClampedHidden(u);
  }

  lemma ClampedHidden(u: iset<Pt>)
    ensures Pt(32767, 0) !in ChildUniverse(ClampedTree().children, 0, u)
  {
    var kids, p := ClampedTree().children, Pt(32767, 0);
    assert OutOf(kids[0], p) == Pt(0, 1);
    assert Hides(kids[1], Pt(0, 1));
  }

  /** A window shaped to two rectangles that touch, as a client may send them. */
  function TouchingTree(): Window {
    Window(1, 0, 0, 10, 10, 0, true, NotRedirected, Unshaped, Unshaped,
      [Leaf(2, 0, 0, 2, 1, 0).(bounding := Shaped([Box(0, 0, 1, 1), Box(1, 0, 2, 1)]))])
  }

  /** The two show the same pixels; the single pass sends two rectangles where the oracle sends one. */
  method TouchingParts() returns (universe: seq<Box>, fast: seq<ClipEntry>, slow: seq<RectEntry>)
    ensures Canonical(universe) && FitsTree(TouchingTree()) && WalkExact(TouchingTree(), ToRects(universe))
    ensures Refines(fast, Walk(TouchingTree(), [], 0, 0, true, Cells(universe), iset{}), true)
    ensures slow == WalkRects(TouchingTree(), ToRects(universe), [])
    ensures SamePixels(fast, slow) && slow != Sent(fast)
  {
    hide Canonical, Walk, WalkRects, WalkExact, Refines, SamePixels, NoStray, Harmless, NoCuts, HitTest;
    var w, b := TouchingTree(), Box(0, 0, 10, 10);
    universe := [b];
    OneBox(b);
    FitsTreeNoStray(w, Cells(universe));
    NoStrayHarmless(w, [], Cells(universe));
    TouchingRoomy();
    TouchingCut();
    fast, slow := SinglePassVersusOracle(w, universe);
  }

  lemma TouchingShape(r: seq<Box>)
    requires r == [Box(0, 0, 1, 1), Box(1, 0, 2, 1)]
    ensures Banded(r) && Seam(r, 1, 0) && In(r, 0, 0) && In(r, 1, 0)
  {
    assert InBox(r[0], 0, 0) && InBox(r[1], 1, 0) && Touching(r[0], r[1], 1, 0);
  }

  lemma TouchingRoomy()
    ensures Banding(TouchingTree()) && SizedTree(TouchingTree()) && AllOnWire([Box(0, 0, 10, 10)])
    ensures WalkExact(TouchingTree(), ToRects([Box(0, 0, 10, 10)]))
  {
    hide WalkExact, In, Seam, Banded, Inside, RoomyTree;
    var w, b := TouchingTree(), Box(0, 0, 10, 10);
    TouchingShape(w.children[0].bounding.region);
    TouchingRoom(w, b);
    var a := WireRect(0, 0, 10, 10);
    assert ToRects([b]) == [a];
    OneInside(a, b);
    RoomyExact(w, [a], b);
  }

  lemma TouchingRoom(w: Window, b: Box)
    requires w == TouchingTree() && b == Box(0, 0, 10, 10)
    ensures RoomyTree(w, b) && SizedTree(w)
    ensures Banded(w.children[0].bounding.region) ==> Banding(w)
  {
    hide Banded;
    var c := w.children[0];
    OneChildRoom(w, c, b);
  }

  /** A child without a border at its parent's origin, shaped inside its own size. */
  lemma OneChildRoom(w: Window, c: Window, b: Box)
    requires w.children == [c] && c.children == [] && c.x == 0 == c.y && c.bw == 0 && c.redirect == NotRedirected
    requires 0 < c.width < 100 && 0 < c.height < 100 && c.clip == Unshaped && c.bounding.Shaped?
    requires forall k :: 0 <= k < |c.bounding.region| ==> Roomy(c.bounding.region[k])
    requires Roomy(b) && b.x1 == 0 == b.y1 && 0 < b.x2 && 0 < b.y2
    ensures RoomyTree(w, b) && SizedTree(w)
    ensures w.bounding == Unshaped == w.clip && Banded(c.bounding.region) ==> Banding(w)
  {
    hide Banded;
    var r := c.bounding.region;
    assert forall k :: 0 <= k < |r| ==> Moved(r[k], 0, 0) == r[k];
    assert Outer(c.width, 0) == c.width && Outer(c.height, 0) == c.height;
    assert OuterBox(c) == ContentBox(c) && Moved(OuterBox(c), 0, 0) == OuterBox(c) && Moved(b, 0, 0) == b;
    assert RoomyChild(c, b);
    assert Roomy(ChildBox(c, b));
    assert w.children[0] == c && RoomyTree(c, ChildBox(c, b)) && SizedTree(c);
    assert Banded(r) ==> Banding(c);
  }

  /** The seam of the shape shows in the window's clip list. */
  lemma TouchingCut()
    ensures !NoCuts(TouchingTree(), Cells([Box(0, 0, 10, 10)]), iset{}, iset{}, true)
  {
    hide In, Seam, NoCuts, KidNoCuts, ClipUncut, ChildUniverse, ChildCuts;
    var w, u, p := TouchingTree(), Cells([Box(0, 0, 10, 10)]), Pt(1, 0);
    var c := w.children[0];
    TouchingShape(c.bounding.region);
    TouchingShown(w, c, u, p);
    var v, cuts := ChildUniverse(w.children, 0, u), ChildCuts(w.children, 0, u, iset{});
    LeafCut(c, v, cuts, p);
    NoCutsIs(c, v, cuts, RingCuts(w.children, 0, u, iset{}), true);
    KidNoCutsIs(w, 0, u, iset{}, true);
    NoCutsIs(w, u, iset{}, iset{}, true);
    assert !KidsUncut(w, u, iset{}, true) by { assert !KidNoCuts(w, 0, u, iset{}, true); }
  }

  lemma KidNoCutsIs(w: Window, i: nat, u: iset<Pt>, cuts: iset<Pt>, borders: bool)
    requires i < |w.children|
    ensures KidNoCuts(w, i, u, cuts, borders) ==>
        NoCuts(w.children[i], ChildUniverse(w.children, i, u), ChildCuts(w.children, i, u, cuts),
               if borders then RingCuts(w.children, i, u, cuts) else iset{}, borders)
  {
  }

  lemma LeafCut(c: Window, v: iset<Pt>, cuts: iset<Pt>, p: Pt)
    requires c.children == [] && p in cuts && Both(v, p)
    ensures !ClipUncut(c, v, cuts)
  {
    assert Both(ClipOf(c, v), p);
  }

  lemma TouchingShown(w: Window, c: Window, u: iset<Pt>, p: Pt)
    requires w == TouchingTree() && c == w.children[0] && u == Cells([Box(0, 0, 10, 10)]) && p == Pt(1, 0)
    requires Seam(c.bounding.region, 1, 0) && In(c.bounding.region, 0, 0) && In(c.bounding.region, 1, 0)
    ensures p in ChildCuts(w.children, 0, u, iset{}) && Both(ChildUniverse(w.children, 0, u), p)
  {
    hide Seam, In, ChildCuts, ChildUniverse;
    OneBox(Box(0, 0, 10, 10));
    assert Left(p) == Pt(0, 0) && w.children == [c];
    ShownAtOrigin(w.children, c, u, p);
    ShownAtOrigin(w.children, c, u, Left(p));
    CutShows(w.children, c, u, p);
  }

  lemma ShownAtOrigin(children: seq<Window>, c: Window, u: iset<Pt>, p: Pt)
    requires children == [c] && c.x == 0 == c.y && c.bw == 0 && c.redirect == NotRedirected && c.clip == Unshaped
    requires c.width < 100 && c.height < 100 && 0 <= p.x < c.width && 0 <= p.y < c.height
    requires InShape(c.bounding, p) && p in u
    ensures p in ChildUniverse(children, 0, u)
  {
    assert InShape(c.clip, p);
    hide InShape;
    assert OutOf(c, p) == p && Into(c, p) == p;
    assert Outer(c.width, 0) == c.width && Outer(c.height, 0) == c.height;
    assert InSize(c, p) && InWin(c, p) && children[0] == c;
  }

  lemma CutShows(children: seq<Window>, c: Window, u: iset<Pt>, p: Pt)
    requires children == [c] && Both(ChildUniverse(children, 0, u), p) && ShapeCut(c.bounding, p)
    ensures p in ChildCuts(children, 0, u, iset{})
  {
    hide ChildUniverse, ShapeCut;
    assert children[0] == c;
  }
}
