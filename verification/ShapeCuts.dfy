/** Where a shape kept as a client's YXBanded rectangles cuts what shows of a window
    (crates/yserver-core/src/core_loop/clip_list.rs): between which pixels of a row the regions of the
    single pass have touching boxes. */
module ShapeCuts {
  import opened Plane
  import opened Boxes
  import opened Regions
  import opened WindowTree

  function Left(p: Pt): Pt { Pt(p.x - 1, p.y) }

  /** The pixel and the one to its left. */
  ghost predicate Both(s: iset<Pt>, p: Pt) { Left(p) in s && p in s }

  /** Where a region has touching boxes. */
  ghost function Seams(r: seq<Box>): iset<Pt> {
    iset p: Pt | Seam(r, p.x, p.y)
  }

  ghost predicate ShapeCut(s: Shape, p: Pt) { s.Shaped? && Seam(s.region, p.x, p.y) }

  /** A cut of `borderSize`, in the parent's content space. */
  ghost predicate SizeCut(c: Window, p: Pt) {
    ShapeCut(c.bounding, Into(c, p)) && InSize(c, Left(p)) && InSize(c, p)
  }

  /** A cut of `winSize`. */
  ghost predicate WinCut(c: Window, p: Pt) {
    (ShapeCut(c.bounding, p) || ShapeCut(c.clip, p)) && InWin(c, Left(p)) && InWin(c, p)
  }

  /** A cut of the parent's universe that the child has, too, unless it is redirected. */
  ghost predicate Inherited(c: Window, cuts: iset<Pt>, p: Pt) {
    c.redirect == NotRedirected && OutOf(c, p) in cuts
  }

  ghost function BorderCuts(children: seq<Window>, i: nat, u: iset<Pt>, cuts: iset<Pt>): iset<Pt>
    requires i < |children|
  {
    iset p: Pt | Both(BorderClip(children, i, u), p)
      && (ShapeCut(children[i].bounding, p) || Inherited(children[i], cuts, p))
  }

  /** The cuts of child i's universe: its own shapes' and the parent's, where both sides show. */
  ghost function ChildCuts(children: seq<Window>, i: nat, u: iset<Pt>, cuts: iset<Pt>): iset<Pt>
    requires i < |children|
  {
    iset p: Pt | Both(ChildUniverse(children, i, u), p)
      && (ShapeCut(children[i].bounding, p) || ShapeCut(children[i].clip, p) || Inherited(children[i], cuts, p))
  }

  ghost function RingCuts(children: seq<Window>, i: nat, u: iset<Pt>, cuts: iset<Pt>): iset<Pt>
    requires i < |children|
  {
    iset p: Pt | Both(ChildRing(children, i, u), p)
      && (ShapeCut(children[i].bounding, p) || Inherited(children[i], cuts, p))
  }

  /** No clip list on the walk is cut, and, with `borders`, no ring. */
  ghost predicate NoCuts(w: Window, u: iset<Pt>, cuts: iset<Pt>, ring: iset<Pt>, borders: bool)
    decreases w, 1
  {
    w.viewable ==>
      && ring == iset{}
      && ClipUncut(w, u, cuts)
      && (forall i :: 0 <= i < |w.children| ==> KidNoCuts(w, i, u, cuts, borders))
  }

  ghost predicate ClipUncut(w: Window, u: iset<Pt>, cuts: iset<Pt>) {
    forall p :: p in cuts ==> !Both(ClipOf(w, u), p)
  }

  ghost predicate KidsUncut(w: Window, u: iset<Pt>, cuts: iset<Pt>, borders: bool)
  {
    forall i :: 0 <= i < |w.children| ==> KidNoCuts(w, i, u, cuts, borders)
  }

  lemma {:induction false} NoCutsIs(w: Window, u: iset<Pt>, cuts: iset<Pt>, ring: iset<Pt>, borders: bool)
    ensures NoCuts(w, u, cuts, ring, borders) <==>
        (w.viewable ==> ring == iset{} && ClipUncut(w, u, cuts) && KidsUncut(w, u, cuts, borders))
  {
    hide ClipUncut;
    if NoCuts(w, u, cuts, ring, borders) && w.viewable {
      assert KidsUncut(w, u, cuts, borders);
    }
    if ring == iset{} && ClipUncut(w, u, cuts) && KidsUncut(w, u, cuts, borders) {
      assert NoCuts(w, u, cuts, ring, borders);
    }
  }

  ghost predicate KidNoCuts(w: Window, i: nat, u: iset<Pt>, cuts: iset<Pt>, borders: bool)
    requires i < |w.children|
    decreases w, 0
  {
    NoCuts(w.children[i], ChildUniverse(w.children, i, u), ChildCuts(w.children, i, u, cuts),
           if borders then RingCuts(w.children, i, u, cuts) else iset{}, borders)
  }

  /** The shape is canonical. */
  ghost predicate CanonicalShape(s: Shape) { s.Shaped? ==> Canonical(s.region) }

  /** Every shape in the tree is canonical. */
  ghost predicate Canonised(w: Window) {
    CanonicalShape(w.bounding) && CanonicalShape(w.clip) && forall i :: 0 <= i < |w.children| ==>
        Canonised(w.children[i])
  }

  lemma CanonicalUncut(s: Shape)
    requires CanonicalShape(s)
    ensures forall p :: !ShapeCut(s, p)
  {
    hide Seam, Canonical;
    if s.Shaped? { CanonicalBands(s.region); }
  }

  /** Canonical shapes cut nothing. */
  lemma {:induction false} CanonisedNoCuts(w: Window, u: iset<Pt>, borders: bool)
    requires Canonised(w)
    ensures NoCuts(w, u, iset{}, iset{}, borders)
    decreases w
  {
    hide CanonicalShape, ShapeCut, ChildUniverse, ChildRing, ClipOf;
    forall i | 0 <= i < |w.children| ensures KidNoCuts(w, i, u, iset{}, borders) {
      var c := w.children[i];
      CanonicalUncut(c.bounding);
      CanonicalUncut(c.clip);
      CanonisedNoCuts(c, ChildUniverse(w.children, i, u), borders);
      assert ChildCuts(w.children, i, u, iset{}) == iset{} == RingCuts(w.children, i, u, iset{});
    }
  }
}
