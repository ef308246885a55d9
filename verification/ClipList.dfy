/** The clip lists of a window tree as regions (crates/yserver-core/src/core_loop/clip_list.rs):
    the single top-down pass. */
module ClipList {
  import opened Plane
  import opened Boxes
  import opened Overlaps
  import opened Regions
  import opened RegionAlgebra
  import opened WindowTree
  import opened ShapeCuts

  /** The pixels of a region. */
  ghost function Cells(r: seq<Box>): iset<Pt> {
    iset p: Pt | In(r, p.x, p.y)
  }

  predicate BandedShape(s: Shape) { s.Shaped? ==> Banded(s.region) }

  /** Every shape in the tree is y-x banded, as the constructors leave it. */
  predicate Banding(w: Window) {
    BandedShape(w.bounding) && BandedShape(w.clip) && forall i :: 0 <= i < |w.children| ==> Banding(w.children[i])
  }

  lemma BandingShapes(c: Window)
    requires Banding(c)
    ensures BandedShape(c.bounding) && BandedShape(c.clip) && AllBanding(c.children)
  {
  }

  lemma {:induction false} BandingAt(root: Window, path: seq<nat>)
    requires Banding(root) && InTree(root, path)
    ensures Banding(WindowAt(root, path))
  {
    if path != [] { BandingAt(root, path[..|path| - 1]); }
  }

  /** `Region::rect`. */
  method RectRegion(x: int, y: int, width: nat, height: nat) returns (r: seq<Box>)
    ensures Canonical(r) && Banded(r) && Merged(r) && forall px, py :: !Seam(r, px, py)
    ensures forall px, py :: In(r, px, py) <==> x <= px < x + width && y <= py < y + height
  {
    var b := Box(x, y, x + width, y + height);
    NothingCanonical();
    if NonEmpty(b) {
      OneBox(b);
      r := [b];
      CanonicalBands(r);
    } else {
      r := [];
    }
  }

  /** `outer_rect`. */
  function OuterRect(c: Window): WireRect {
    WireRect(c.x, c.y, Outer(c.width, c.bw), Outer(c.height, c.bw))
  }

  /** `border_size`: canonical iff the bounding shape has no touching boxes on screen. */
  method BorderSize(c: Window) returns (r: seq<Box>)
    requires BandedShape(c.bounding)
    ensures Banded(r) && Merged(r)
    ensures Canonical(r) <==> forall p :: !SizeCut(c, p)
    ensures forall x, y :: Seam(r, x, y) <==> SizeCut(c, Pt(x, y))
    ensures forall x, y :: In(r, x, y) <==> InSize(c, Pt(x, y))
  {
    hide In, Banded, Canonical, Seam, Merged, SeamKept, SizeCut, ShapeCut;
    r := RectRegion(c.x, c.y, Outer(c.width, c.bw), Outer(c.height, c.bw));
    UnshapedSize(c);
    if c.bounding.Shaped? {
      var shape := Translate(c.bounding.region, c.x + c.bw, c.y + c.bw);
      var cut := IntersectOf(r, shape);
      SizePixels(c, r, shape, cut);
      r := cut;
    }
    CanonicalIff(r);
    ghost var cuts := iset p | SizeCut(c, p);
    assert forall p :: p in cuts <==> SizeCut(c, p);
    UncutIff(r, cuts);
  }

  lemma UnshapedSize(c: Window)
    ensures c.bounding.Unshaped? ==> forall p :: !SizeCut(c, p) && (InSize(c, p) <==> InOuter(c, p))
  {
  }

  /** A region without seams is one whose cuts are none. */
  lemma UncutIff(r: seq<Box>, cuts: iset<Pt>)
    requires forall x, y :: Seam(r, x, y) <==> Pt(x, y) in cuts
    ensures (forall x, y :: !Seam(r, x, y)) <==> forall p :: p !in cuts
  {
    hide Seam;
    forall p: Pt ensures p in cuts <==> Seam(r, p.x, p.y) {
      assert p == Pt(p.x, p.y);
    }
  }

  lemma SizePixels(c: Window, rect: seq<Box>, shape: seq<Box>, r: seq<Box>)
    requires c.bounding.Shaped?
    requires forall x, y :: (In(rect, x, y) <==> InOuter(c, Pt(x, y))) && !Seam(rect, x, y)
    requires forall x, y :: In(shape, x, y) <==> In(c.bounding.region, x - (c.x + c.bw), y - (c.y + c.bw))
    requires forall x, y :: Seam(shape, x, y) <==> Seam(c.bounding.region, x - (c.x + c.bw), y - (c.y + c.bw))
    requires forall x, y :: In(r, x, y) <==> In(rect, x, y) && In(shape, x, y)
    requires forall x, y :: Seam(r, x, y) <==> SeamKept(Intersect, rect, shape, x, y)
    ensures forall x, y :: In(r, x, y) <==> InSize(c, Pt(x, y))
    ensures forall x, y :: Seam(r, x, y) <==> SizeCut(c, Pt(x, y))
  {
    hide In, Seam, InOuter;
    forall x, y ensures In(r, x, y) <==> InSize(c, Pt(x, y)) {
      assert Into(c, Pt(x, y)) == Pt(x - (c.x + c.bw), y - (c.y + c.bw));
    }
    hide InSize;
    forall x, y ensures Seam(r, x, y) <==> SizeCut(c, Pt(x, y)) {
      assert Into(c, Pt(x, y)) == Pt(x - (c.x + c.bw), y - (c.y + c.bw));
      assert In(r, x - 1, y) <==> InSize(c, Pt(x - 1, y));
    }
  }

  /** `win_size`: canonical iff neither shape has touching boxes inside it. */
  method WinSize(c: Window) returns (r: seq<Box>)
    requires BandedShape(c.bounding) && BandedShape(c.clip)
    ensures Banded(r) && Merged(r)
    ensures Canonical(r) <==> forall p :: !WinCut(c, p)
    ensures forall x, y :: Seam(r, x, y) <==> WinCut(c, Pt(x, y))
    ensures forall x, y :: In(r, x, y) <==> InWin(c, Pt(x, y))
  {
    hide In, Banded, Canonical, Seam, Merged;
    r := RectRegion(0, 0, c.width, c.height);
    if c.bounding.Shaped? {
      r := IntersectOf(r, c.bounding.region);
    }
    assert forall x, y :: Seam(r, x, y) <==> ShapeCut(c.bounding, Pt(x, y)) && In(r, x - 1, y) && In(r, x, y);
    if c.clip.Shaped? {
      r := IntersectOf(r, c.clip.region);
    }
    CanonicalIff(r);
    ghost var cuts := iset p | WinCut(c, p);
    assert forall p :: p in cuts <==> WinCut(c, p);
    UncutIff(r, cuts);
  }

  // ------------------------------------------------------- the single pass

  /** One child's share of its parent's universe, in its content space. */
  datatype ChildClip = ChildClip(index: nat, universe: seq<Box>, ring: seq<Box>)

  /** The viewable children `want` asks for, top-most first, from child `lo` up. */
  function Chosen(children: seq<Window>, want: seq<bool>, lo: nat): seq<nat>
    requires |want| == |children| && lo <= |children|
    decreases |children| - lo
  {
    if lo == |children| then []
    else Chosen(children, want, lo + 1) + (if children[lo].viewable && want[lo] then [lo] else [])
  }

  /** The share is right: child `index`'s universe and, when asked for, ring, and where they are cut. */
  ghost predicate RightShare(children: seq<Window>, u: iset<Pt>, cuts: iset<Pt>, borders: bool, s: ChildClip) {
    && s.index < |children|
    && Banded(s.universe) && Merged(s.universe) && Banded(s.ring) && Merged(s.ring)
    && Cells(s.universe) == ChildUniverse(children, s.index, u)
    && Seams(s.universe) == ChildCuts(children, s.index, u, cuts)
    && Cells(s.ring) == (if borders then ChildRing(children, s.index, u) else iset{})
    && Seams(s.ring) == (if borders then RingCuts(children, s.index, u, cuts) else iset{})
  }

  ghost predicate AllBanding(children: seq<Window>) {
    forall i :: 0 <= i < |children| ==> Banding(children[i])
  }

  /** A region cut down to the pixels no child from `lo` up covers has these seams. */
  ghost predicate CutsLeft(r: seq<Box>, children: seq<Window>, lo: nat, cuts: iset<Pt>)
    requires lo <= |children|
  {
    forall p :: p in Seams(r) <==>
      p in cuts && Clear(children, lo, |children|, Left(p)) && Clear(children, lo, |children|, p)
  }

  /** `borderClip` of a child, from what its higher siblings leave of the parent's universe. */
  method BorderClipOf(children: seq<Window>, i: nat, uncovered: seq<Box>, size: seq<Box>, ghost u: iset<Pt>,
                      ghost cuts: iset<Pt>)
    returns (r: seq<Box>)
    requires i < |children| && Banded(uncovered) && Banded(size) && Merged(size)
    requires forall x, y :: In(size, x, y) <==> InSize(children[i], Pt(x, y))
    requires forall x, y :: Seam(size, x, y) <==> SizeCut(children[i], Pt(x, y))
    requires forall x, y :: In(uncovered, x, y) <==> Pt(x, y) in u && Clear(children, i + 1, |children|, Pt(x, y))
    requires CutsLeft(uncovered, children, i + 1, cuts)
    ensures Banded(r) && Merged(r)
    ensures forall x, y :: Seam(r, x, y) <==> Pt(x, y) in BorderCuts(children, i, u, cuts)
    ensures forall x, y :: In(r, x, y) <==> Pt(x, y) in BorderClip(children, i, u)
  {
    hide In, Banded, Merged, Clear, InSize, Seam, SeamKept, SizeCut, CutsLeft, BorderClip, BorderCuts;
    var c := children[i];
    r := size;
    if c.redirect == NotRedirected {
      r := IntersectOf(uncovered, size);
    }
    ghost var own := r;
    r := Translate(r, -(c.x + c.bw), -(c.y + c.bw));
    forall x, y ensures In(r, x, y) <==> Pt(x, y) in BorderClip(children, i, u)
      ensures Seam(r, x, y) <==> Pt(x, y) in BorderCuts(children, i, u, cuts)
    {
      BorderPixel(children, i, uncovered, size, own, u, cuts, Pt(x, y));
      BorderSeam(children, i, uncovered, size, own, u, cuts, Pt(x, y));
    }
  }

  /** `r` is what shows of the child's size, in the parent's space. */
  ghost predicate OwnPart(children: seq<Window>, i: nat, uncovered: seq<Box>, size: seq<Box>, r: seq<Box>)
    requires i < |children|
  {
    if children[i].redirect != NotRedirected then r == size
    else
      && (forall x, y :: In(r, x, y) <==> In(uncovered, x, y) && In(size, x, y))
      && (forall x, y :: Seam(r, x, y) <==> SeamKept(Intersect, uncovered, size, x, y))
  }

  lemma BorderPixel(children: seq<Window>, i: nat, uncovered: seq<Box>, size: seq<Box>, r: seq<Box>, u: iset<Pt>,
                    cuts: iset<Pt>, p: Pt)
    requires i < |children| && OwnPart(children, i, uncovered, size, r)
    requires forall x, y :: In(size, x, y) <==> InSize(children[i], Pt(x, y))
    requires forall x, y :: In(uncovered, x, y) <==> Pt(x, y) in u && Clear(children, i + 1, |children|, Pt(x, y))
    ensures var q := OutOf(children[i], p); In(r, q.x, q.y) <==> p in BorderClip(children, i, u)
  {
    hide In, Seam, InSize, Clear, SeamKept;
  }

  lemma BorderSeam(children: seq<Window>, i: nat, uncovered: seq<Box>, size: seq<Box>, r: seq<Box>, u: iset<Pt>,
                   cuts: iset<Pt>, p: Pt)
    requires i < |children| && OwnPart(children, i, uncovered, size, r) && CutsLeft(uncovered, children, i + 1, cuts)
    requires forall x, y :: In(size, x, y) <==> InSize(children[i], Pt(x, y))
    requires forall x, y :: Seam(size, x, y) <==> SizeCut(children[i], Pt(x, y))
    requires forall x, y :: In(uncovered, x, y) <==> Pt(x, y) in u && Clear(children, i + 1, |children|, Pt(x, y))
    ensures var q := OutOf(children[i], p); Seam(r, q.x, q.y) <==> p in BorderCuts(children, i, u, cuts)
  {
    hide In, Seam, InSize, Clear, ShapeCut, BorderClip;
    var c := children[i];
    var q := OutOf(c, p);
    assert OutOf(c, Left(p)) == Left(q) && Into(c, q) == p && q == Pt(q.x, q.y) && Left(q) == Pt(q.x - 1, q.y);
    BorderPixel(children, i, uncovered, size, r, u, cuts, p);
    BorderPixel(children, i, uncovered, size, r, u, cuts, Left(p));
  }

  /** The share of a child, from what its higher siblings leave of the parent's universe. */
  method ShareOf(children: seq<Window>, i: nat, uncovered: seq<Box>, size: seq<Box>, borders: bool, ghost u: iset<Pt>,
                 ghost cuts: iset<Pt>)
    returns (share: ChildClip)
    requires i < |children| && Banding(children[i]) && Banded(uncovered) && Banded(size) && Merged(size)
    requires forall x, y :: In(size, x, y) <==> InSize(children[i], Pt(x, y))
    requires forall x, y :: Seam(size, x, y) <==> SizeCut(children[i], Pt(x, y))
    requires forall x, y :: In(uncovered, x, y) <==> Pt(x, y) in u && Clear(children, i + 1, |children|, Pt(x, y))
    requires CutsLeft(uncovered, children, i + 1, cuts)
    ensures share.index == i && RightShare(children, u, cuts, borders, share)
  {
    hide In, Banded, Merged, Clear, InSize, InWin, Seam, SeamKept, SizeCut, WinCut, CutsLeft, BorderClip, BorderCuts,
         ChildUniverse, ChildCuts, ChildRing, RingCuts;
    var c := children[i];
    NothingCanonical();
    var win := WinSize(c);
    var borderClip := BorderClipOf(children, i, uncovered, size, u, cuts);
    var ring := [];
    if borders && c.bw != 0 {
      ring := SubtractOf(borderClip, win);
    }
    var universe := win;
    if c.redirect == NotRedirected {
      universe := IntersectOf(borderClip, win);
    }
    share := ChildClip(i, universe, ring);
    ShareUniverse(children, i, borderClip, win, universe, u, cuts);
    if borders && c.bw != 0 {
      ShareRing(children, i, borderClip, win, ring, u, cuts);
    } else {
      NoRing(children, i, u, cuts);
    }
  }

  lemma ShareUniverse(children: seq<Window>, i: nat, borderClip: seq<Box>, win: seq<Box>, universe: seq<Box>,
                      u: iset<Pt>, cuts: iset<Pt>)
    requires i < |children|
    requires forall x, y :: In(borderClip, x, y) <==> Pt(x, y) in BorderClip(children, i, u)
    requires forall x, y :: Seam(borderClip, x, y) <==> Pt(x, y) in BorderCuts(children, i, u, cuts)
    requires forall x, y :: In(win, x, y) <==> InWin(children[i], Pt(x, y))
    requires forall x, y :: Seam(win, x, y) <==> WinCut(children[i], Pt(x, y))
    requires if children[i].redirect != NotRedirected then universe == win
      else
        && (forall x, y :: In(universe, x, y) <==> In(borderClip, x, y) && In(win, x, y))
        && (forall x, y :: Seam(universe, x, y) <==> SeamKept(Intersect, borderClip, win, x, y))
    ensures Cells(universe) == ChildUniverse(children, i, u) && Seams(universe) == ChildCuts(children, i, u, cuts)
  {
    hide In, Seam, InWin, BorderClip, ShapeCut;
    assert Cells(universe) == ChildUniverse(children, i, u);
    forall p ensures p in Seams(universe) <==> p in ChildCuts(children, i, u, cuts) {
      assert Pt(p.x, p.y) == p && Pt(p.x - 1, p.y) == Left(p);
    }
  }

  lemma ShareRing(children: seq<Window>, i: nat, borderClip: seq<Box>, win: seq<Box>, ring: seq<Box>, u: iset<Pt>,
                  cuts: iset<Pt>)
    requires i < |children| && children[i].bw != 0
    requires forall x, y :: In(borderClip, x, y) <==> Pt(x, y) in BorderClip(children, i, u)
    requires forall x, y :: Seam(borderClip, x, y) <==> Pt(x, y) in BorderCuts(children, i, u, cuts)
    requires forall x, y :: In(win, x, y) <==> InWin(children[i], Pt(x, y))
    requires forall x, y :: In(ring, x, y) <==> In(borderClip, x, y) && !In(win, x, y)
    requires forall x, y :: Seam(ring, x, y) <==> SeamKept(Subtract, borderClip, win, x, y)
    ensures Cells(ring) == ChildRing(children, i, u) && Seams(ring) == RingCuts(children, i, u, cuts)
  {
    hide In, Seam, InWin, BorderClip, ShapeCut;
    assert Cells(ring) == ChildRing(children, i, u);
    forall p ensures p in Seams(ring) <==> p in RingCuts(children, i, u, cuts) {
      assert Pt(p.x, p.y) == p && Pt(p.x - 1, p.y) == Left(p);
    }
  }

  lemma NoRing(children: seq<Window>, i: nat, u: iset<Pt>, cuts: iset<Pt>)
    requires i < |children|
    ensures Cells([]) == iset{} == Seams([])
    ensures children[i].bw == 0 ==> ChildRing(children, i, u) == iset{} == RingCuts(children, i, u, cuts)
  {
  }

  /** `split_universe`: walk the children once, top-most first, carrying what of the universe
      they leave uncovered. What is left is the clip list. */
  method SplitUniverse(children: seq<Window>, universe: seq<Box>, borders: bool, want: seq<bool>)
    returns (uncovered: seq<Box>, wanted: seq<ChildClip>)
    requires |want| == |children| && AllBanding(children) && Banded(universe)
    ensures Banded(uncovered) && (Merged(universe) ==> Merged(uncovered))
    ensures forall x, y :: In(uncovered, x, y) <==> In(universe, x, y) && Clear(children, 0, |children|, Pt(x, y))
    ensures CutsLeft(uncovered, children, 0, Seams(universe))
    ensures |wanted| == |Chosen(children, want, 0)|
    ensures forall k :: 0 <= k < |wanted| ==>
        && wanted[k].index == Chosen(children, want, 0)[k]
        && RightShare(children, Cells(universe), Seams(universe), borders, wanted[k])
  {
    hide In, Banded, Merged, Seam, SeamKept, InSize, RightShare, CutsLeft, Clear;
    uncovered, wanted := universe, [];
    ghost var u, cuts := Cells(universe), Seams(universe);
    var i := |children|;
    AllLeft(universe, children, cuts);
    while i > 0
      invariant 0 <= i <= |children|
      invariant Banded(uncovered) && (Merged(universe) ==> Merged(uncovered))
      invariant forall x, y :: In(uncovered, x, y) <==> In(universe, x, y) && Clear(children, i, |children|, Pt(x, y))
      invariant CutsLeft(uncovered, children, i, cuts)
      invariant |wanted| == |Chosen(children, want, i)|
      invariant forall k :: 0 <= k < |wanted| ==>
          wanted[k].index == Chosen(children, want, i)[k] && RightShare(children, u, cuts, borders, wanted[k])
    {
      i := i - 1;
      var c := children[i];
      NextClear(children, i);
      if !c.viewable {
        SameLeft(uncovered, children, i, cuts);
        continue;
      }
      var size := BorderSize(c);
      if want[i] {
        var share := ShareOf(children, i, uncovered, size, borders, u, cuts);
        wanted := wanted + [share];
      }
      if uncovered != [] && c.redirect != Manual {
        var less := SubtractOf(uncovered, size);
        CutsTaken(uncovered, size, less, children, i, cuts);
        uncovered := less;
      } else {
        if uncovered == [] {
          NothingCanonical();
          NoCutsLeft(children, i, cuts);
        } else {
          SameLeft(uncovered, children, i, cuts);
        }
      }
    }
  }

  lemma AllLeft(universe: seq<Box>, children: seq<Window>, cuts: iset<Pt>)
    requires cuts == Seams(universe)
    ensures CutsLeft(universe, children, |children|, cuts)
    ensures forall p :: Clear(children, |children|, |children|, p)
  {
  }

  lemma SameLeft(r: seq<Box>, children: seq<Window>, i: nat, cuts: iset<Pt>)
    requires i < |children| && CutsLeft(r, children, i + 1, cuts)
    requires forall p :: !Hides(children[i], p)
    ensures CutsLeft(r, children, i, cuts)
  {
    hide Seam, InSize;
    forall p ensures Clear(children, i, |children|, p) <==> Clear(children, i + 1, |children|, p) {
      assert !Hides(children[i], p);
      NextClear(children, i);
    }
    hide Clear, Hides;
  }

  lemma NoCutsLeft(children: seq<Window>, i: nat, cuts: iset<Pt>)
    requires i < |children| && CutsLeft([], children, i + 1, cuts)
    ensures CutsLeft([], children, i, cuts)
  {
    NothingCanonical();
    NextClear(children, i);
    hide Clear, Hides;
  }

  lemma CutsTaken(r: seq<Box>, size: seq<Box>, less: seq<Box>, children: seq<Window>, i: nat, cuts: iset<Pt>)
    requires i < |children| && CutsLeft(r, children, i + 1, cuts)
    requires children[i].viewable && children[i].redirect != Manual
    requires forall x, y :: In(size, x, y) <==> InSize(children[i], Pt(x, y))
    requires forall x, y :: Seam(less, x, y) <==> SeamKept(Subtract, r, size, x, y)
    ensures CutsLeft(less, children, i, cuts)
  {
    NextClear(children, i);
    hide Clear, InSize, Seam, In;
  }

  lemma NextClear(children: seq<Window>, i: nat)
    requires i < |children|
    ensures forall p :: Clear(children, i, |children|, p) <==>
        Clear(children, i + 1, |children|, p) && !Hides(children[i], p)
  {
  }

  /** One window's clip list and visible border ring. */
  datatype ClipEntry = ClipEntry(id: int, clip: seq<Box>, ring: seq<Box>)

  ghost predicate RightEntry(e: ClipEntry, s: Shown, borders: bool) {
    e.id == s.id && Banded(e.clip) && Banded(e.ring) && Cells(e.clip) == s.clip && (borders ==> Cells(e.ring) == s.ring)
  }

  /** The entries are the shown windows, in order. */
  ghost predicate Refines(out: seq<ClipEntry>, s: seq<Shown>, borders: bool) {
    |out| == |s| && forall k :: 0 <= k < |out| ==> RightEntry(out[k], s[k], borders)
  }

  ghost predicate AllCanonicalEntries(out: seq<ClipEntry>) {
    forall k :: 0 <= k < |out| ==> Canonical(out[k].clip) && Canonical(out[k].ring)
  }

  /** The walks of the listed children, in that order. */
  ghost function WalkListed(w: Window, idxs: seq<nat>, path: seq<nat>, ox: int, oy: int, on: bool,
                            u: iset<Pt>): seq<Shown>
    requires forall k :: 0 <= k < |idxs| ==> idxs[k] < |w.children|
  {
    if idxs == [] then []
    else WalkListed(w, idxs[..|idxs| - 1], path, ox, oy, on, u) + WalkKid(w, idxs[|idxs| - 1], path, ox, oy, on, u)
  }

  /** Listing all the viewable children is walking them all. */
  lemma {:induction false} WalkAllListed(w: Window, want: seq<bool>, lo: nat, path: seq<nat>, ox: int, oy: int,
                                         on: bool, u: iset<Pt>)
    requires |want| == |w.children| && lo <= |w.children| && forall k :: 0 <= k < |want| ==> want[k]
    requires forall k :: 0 <= k < |Chosen(w.children, want, lo)| ==> Chosen(w.children, want, lo)[k] < |w.children|
    ensures WalkListed(w, Chosen(w.children, want, lo), path, ox, oy, on, u) + WalkKids(w, lo, path, ox, oy, on, u)
         == WalkKids(w, |w.children|, path, ox, oy, on, u)
    decreases |w.children| - lo
  {
    hide WalkKid, WalkKids, WalkListed;
    if lo == |w.children| {
      ListNone(w, path, ox, oy, on, u);
    } else {
      ChosenInRange(w.children, want, lo + 1);
      WalkAllListed(w, want, lo + 1, path, ox, oy, on, u);
      KidsStep(w, lo, path, ox, oy, on, u);
      var idxs := Chosen(w.children, want, lo + 1);
      if w.children[lo].viewable {
        ListOneMore(w, idxs, lo, path, ox, oy, on, u);
        Regroup(WalkListed(w, idxs, path, ox, oy, on, u), WalkKid(w, lo, path, ox, oy, on, u), WalkKids(w, lo,
                path, ox, oy, on, u));
        assert Chosen(w.children, want, lo) == idxs + [lo];
      } else {
        assert Chosen(w.children, want, lo) == idxs;
      }
    }
  }

  lemma Regroup<T>(a: seq<T>, b: seq<T>, c: seq<T>)
    ensures (a + b) + c == a + (b + c)
  {
  }

  lemma ListNone(w: Window, path: seq<nat>, ox: int, oy: int, on: bool, u: iset<Pt>)
    ensures WalkListed(w, [], path, ox, oy, on, u) == [] && WalkKids(w, 0, path, ox, oy, on, u) == []
  {
  }

  lemma WalkUnfold(w: Window, path: seq<nat>, ox: int, oy: int, on: bool, u: iset<Pt>, ring: iset<Pt>)
    requires w.viewable
    ensures Walk(w, path, ox, oy, on, u, ring)
         == [Shown(path, w.id, ox, oy, on, ClipOf(w, u), ring)] + WalkKids(w, |w.children|, path, ox, oy, on, u)
  {
  }

  /** When every child is wanted, the listed walk is the walk. */
  lemma WalkAll(w: Window, want: seq<bool>, path: seq<nat>, ox: int, oy: int, on: bool, u: iset<Pt>)
    requires |want| == |w.children| && forall k :: 0 <= k < |want| ==> want[k]
    ensures forall k :: 0 <= k < |Chosen(w.children, want, 0)| ==> Chosen(w.children, want, 0)[k] < |w.children|
    ensures WalkListed(w, Chosen(w.children, want, 0), path, ox, oy, on, u)
         == WalkKids(w, |w.children|, path, ox, oy, on, u)
  {
    hide WalkKids, WalkListed, Chosen;
    ChosenInRange(w.children, want, 0);
    WalkAllListed(w, want, 0, path, ox, oy, on, u);
    ListNone(w, path, ox, oy, on, u);
  }

  lemma KidsStep(w: Window, n: nat, path: seq<nat>, ox: int, oy: int, on: bool, u: iset<Pt>)
    requires n < |w.children|
    ensures WalkKids(w, n + 1, path, ox, oy, on, u)
         == WalkKid(w, n, path, ox, oy, on, u) + WalkKids(w, n, path, ox, oy, on, u)
    ensures !w.children[n].viewable ==> WalkKids(w, n + 1, path, ox, oy, on, u) == WalkKids(w, n, path, ox, oy, on, u)
  {
  }

  lemma ListOneMore(w: Window, idxs: seq<nat>, i: nat, path: seq<nat>, ox: int, oy: int, on: bool, u: iset<Pt>)
    requires (forall k :: 0 <= k < |idxs| ==> idxs[k] < |w.children|) && i < |w.children|
    ensures WalkListed(w, idxs + [i], path, ox, oy, on, u)
         == WalkListed(w, idxs, path, ox, oy, on, u) + WalkKid(w, i, path, ox, oy, on, u)
  {
  }

  lemma {:induction false} ChosenInRange(children: seq<Window>, want: seq<bool>, lo: nat)
    requires |want| == |children| && lo <= |children|
    ensures forall k :: 0 <= k < |Chosen(children, want, lo)| ==> lo <= Chosen(children, want, lo)[k] < |children|
    ensures forall k :: 0 <= k < |Chosen(children, want, lo)| ==> children[Chosen(children, want, lo)[k]].viewable
    decreases |children| - lo
  {
    if lo < |children| { ChosenInRange(children, want, lo + 1); }
  }

  /** The entries of the wanted children and of all below them, in exposure order. */
  method WalkShares(w: Window, kids: seq<ChildClip>, ghost idxs: seq<nat>, borders: bool,
                    ghost path: seq<nat>, ghost ox: int, ghost oy: int, ghost on: bool, ghost u: iset<Pt>,
                    ghost cuts: iset<Pt>)
    returns (out: seq<ClipEntry>)
    requires Banding(w) && |kids| == |idxs|
    requires forall k :: 0 <= k < |kids| ==>
        kids[k].index == idxs[k] && idxs[k] < |w.children| && RightShare(w.children, u, cuts, borders, kids[k])
    ensures Refines(out, WalkListed(w, idxs, path, ox, oy, on, u), borders)
    ensures AllCanonicalEntries(out) <==> forall k :: 0 <= k < |idxs| ==> KidNoCuts(w, idxs[k], u, cuts, borders)
    decreases w, 0
  {
    hide In, Banded, Canonical, Merged, RightEntry, ChildUniverse, ChildRing, ChildCuts, RingCuts, NoCuts, Seam;
    out := [];
    for k := 0 to |kids|
      invariant Refines(out, WalkListed(w, idxs[..k], path, ox, oy, on, u), borders)
      invariant AllCanonicalEntries(out) <==> forall h :: 0 <= h < k ==> KidNoCuts(w, idxs[h], u, cuts, borders)
    {
      var c := w.children[kids[k].index];
      var more := WalkWindow(c, kids[k].universe, kids[k].ring, borders, path + [idxs[k]], ox + c.x + c.bw, oy + c.y
        + c.bw, on && c.redirect == NotRedirected);
      assert idxs[..k + 1][..k] == idxs[..k];
      if borders {
        assert Refines(more, WalkKid(w, idxs[k], path, ox, oy, on, u), borders);
      } else {
        RingUnused(c, path + [idxs[k]], ox + c.x + c.bw, oy + c.y + c.bw, on && c.redirect == NotRedirected,
                   Cells(kids[k].universe), Cells(kids[k].ring), ChildRing(w.children, idxs[k], u), more);
      }
      RefinesConcat(out, WalkListed(w, idxs[..k], path, ox, oy, on, u), more, WalkKid(w, idxs[k], path, ox, oy,
                    on, u), borders);
      CanonicalBoth(out, more);
      out := out + more;
    }
    assert idxs[..|kids|] == idxs;
  }

  lemma CanonicalBoth(a: seq<ClipEntry>, b: seq<ClipEntry>)
    ensures AllCanonicalEntries(a + b) <==> AllCanonicalEntries(a) && AllCanonicalEntries(b)
  {
    hide Canonical;
    if AllCanonicalEntries(a + b) {
      assert forall k :: 0 <= k < |a| ==> (a + b)[k] == a[k];
      assert forall k :: 0 <= k < |b| ==> (a + b)[|a| + k] == b[k];
    }
  }

  lemma RefinesConcat(out: seq<ClipEntry>, s: seq<Shown>, more: seq<ClipEntry>, t: seq<Shown>, borders: bool)
    requires Refines(out, s, borders) && Refines(more, t, borders)
    ensures Refines(out + more, s + t, borders)
  {
  }

  /** Without borders the ring handed down does not matter. */
  lemma RingUnused(c: Window, path: seq<nat>, ox: int, oy: int, on: bool, u: iset<Pt>, ring: iset<Pt>,
                   ring': iset<Pt>, out: seq<ClipEntry>)
    requires Refines(out, Walk(c, path, ox, oy, on, u, ring), false)
    ensures Refines(out, Walk(c, path, ox, oy, on, u, ring'), false)
  {
  }

  /** `walk`: the entries of a window and of its viewable inferiors in exposure order. */
  method WalkWindow(w: Window, universe: seq<Box>, ring: seq<Box>, borders: bool,
                    ghost path: seq<nat>, ghost ox: int, ghost oy: int, ghost on: bool)
    returns (out: seq<ClipEntry>)
    requires Banding(w) && Banded(universe) && Banded(ring)
    ensures Refines(out, Walk(w, path, ox, oy, on, Cells(universe), Cells(ring)), borders)
    ensures Merged(universe) && Merged(ring) ==>
        (AllCanonicalEntries(out) <==> NoCuts(w, Cells(universe), Seams(universe), Seams(ring), borders))
    decreases w, 1
  {
    hide In, Banded, Canonical, Merged, Seam, Seams, RightShare, NoCuts, KidNoCuts, ClipUncut,
         KidsUncut, CutsLeft, Clear, BandedShape, Walk, WalkKids, WalkListed, Chosen, Refines, RightEntry,
         AllCanonicalEntries, ClipOf;
    ghost var u, cuts := Cells(universe), Seams(universe);
    NoCutsIs(w, u, cuts, Seams(ring), borders);
    if !w.viewable {
      NothingShown(w, path, ox, oy, on, u, Cells(ring), borders);
      return [];
    }
    var want := seq(|w.children|, _ => true);
    var clip, kids := SplitUniverse(w.children, universe, borders, want);
    ghost var idxs := Chosen(w.children, want, 0);
    WalkAll(w, want, path, ox, oy, on, u);
    WalkUnfold(w, path, ox, oy, on, u, Cells(ring));
    var more := WalkShares(w, kids, idxs, borders, path, ox, oy, on, u, cuts);
    ClipRight(w, clip, universe);
    out := [ClipEntry(w.id, clip, ring)] + more;
    ghost var first := Shown(path, w.id, ox, oy, on, ClipOf(w, u), Cells(ring));
    assert RightEntry(ClipEntry(w.id, clip, ring), first,
        borders) by { EntryRight(ClipEntry(w.id, clip, ring), first, borders); }
    FirstEntry(ClipEntry(w.id, clip, ring), first, more, WalkKids(w, |w.children|, path, ox, oy, on, u), borders);
    ListedUncut(w, want, idxs, u, cuts, borders);
    if Merged(universe) && Merged(ring) {
      ClipCanonicalIff(w, clip, universe);
      RingCanonicalIff(ring);
    }
  }

  /** All viewable children are listed; the others are not walked. */
  lemma ListedUncut(w: Window, want: seq<bool>, idxs: seq<nat>, u: iset<Pt>, cuts: iset<Pt>, borders: bool)
    requires |want| == |w.children| && (forall k :: 0 <= k < |want| ==> want[k]) && idxs == Chosen(w.children, want, 0)
    requires forall k :: 0 <= k < |idxs| ==> idxs[k] < |w.children|
    ensures (forall k :: 0 <= k < |idxs| ==> KidNoCuts(w, idxs[k], u, cuts, borders))
      <==> KidsUncut(w, u, cuts, borders)
  {
    hide Chosen;
    forall i | 0 <= i < |w.children| && !w.children[i].viewable ensures KidNoCuts(w, i, u, cuts, borders) {
    }
    forall i: nat | i < |w.children| && w.children[i].viewable ensures i in idxs {
      ChosenHas(w.children, want, 0, i);
    }
    hide KidNoCuts;
  }

  lemma {:induction false} ChosenHas(children: seq<Window>, want: seq<bool>, lo: nat, i: nat)
    requires |want| == |children| && lo <= i < |children| && children[i].viewable && want[i]
    ensures i in Chosen(children, want, lo)
    decreases |children| - lo
  {
    if lo < i { ChosenHas(children, want, lo + 1, i); }
  }

  lemma ClipCanonicalIff(w: Window, clip: seq<Box>, universe: seq<Box>)
    requires Banded(clip) && Banded(universe) && Merged(clip) && CutsLeft(clip, w.children, 0, Seams(universe))
    ensures Canonical(clip) <==> ClipUncut(w, Cells(universe), Seams(universe))
  {
    hide In, Banded, Seam, Clear, Merged, Canonical;
    CanonicalIff(clip);
    SeamIn(universe);
    forall p: Pt ensures Seam(clip, p.x, p.y) <==> p in Seams(universe) && Both(ClipOf(w, Cells(universe)), p) {
      assert Pt(p.x - 1, p.y) == Left(p) && Pt(p.x, p.y) == p;
      assert p in Seams(universe) ==> p in Cells(universe) && Left(p) in Cells(universe);
    }
    ghost var left := iset p | p in Seams(universe) && Both(ClipOf(w, Cells(universe)), p);
    UncutIff(clip, left);
    assert ClipUncut(w, Cells(universe), Seams(universe)) <==> forall p :: p !in left by {
      assert forall p :: p in left <==> p in Seams(universe) && Both(ClipOf(w, Cells(universe)), p);
    }
  }

  lemma RingCanonicalIff(ring: seq<Box>)
    requires Banded(ring) && Merged(ring)
    ensures Canonical(ring) <==> Seams(ring) == iset{}
  {
    hide Banded, Merged, Canonical, Seam;
    CanonicalIff(ring);
    forall x, y ensures Seam(ring, x, y) <==> Pt(x, y) in Seams(ring) {}
  }

  lemma NothingShown(w: Window, path: seq<nat>, ox: int, oy: int, on: bool, u: iset<Pt>, ring: iset<Pt>, borders: bool)
    requires !w.viewable
    ensures Refines([], Walk(w, path, ox, oy, on, u, ring), borders) && AllCanonicalEntries([])
  {
  }

  lemma ClipRight(w: Window, clip: seq<Box>, universe: seq<Box>)
    requires forall x, y :: In(clip, x, y) <==> In(universe, x, y) && Clear(w.children, 0, |w.children|, Pt(x, y))
    ensures Cells(clip) == ClipOf(w, Cells(universe))
  {
  }

  lemma EntryRight(e: ClipEntry, s: Shown, borders: bool)
    requires e.id == s.id && Banded(e.clip) && Banded(e.ring) && Cells(e.clip) == s.clip && Cells(e.ring) == s.ring
    ensures RightEntry(e, s, borders)
  {
  }

  lemma FirstEntry(e: ClipEntry, first: Shown, more: seq<ClipEntry>, rest: seq<Shown>, borders: bool)
    requires RightEntry(e, first, borders) && Refines(more, rest, borders)
    ensures Refines([e] + more, [first] + rest, borders)
    ensures AllCanonicalEntries([e] + more) <==> Canonical(e.clip) && Canonical(e.ring) && AllCanonicalEntries(more)
  {
    hide Canonical;
    CanonicalBoth([e], more);
    if AllCanonicalEntries([e]) { assert [e][0] == e; }
  }
}
