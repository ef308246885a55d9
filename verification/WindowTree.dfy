/** What shows of every window of a tree, as sets of pixels: the regions Xorg's
    `miComputeClips` keeps (crates/yserver-core/src/core_loop/clip_list.rs), and the
    top-most-window test they agree with. */
module WindowTree {
  import opened Plane
  import opened Boxes

  datatype Redirect = NotRedirected | Automatic | Manual

  datatype Shape = Unshaped | Shaped(region: seq<Box>)

  /** A window and its children, the bottom-most first. `viewable`: mapped with all its
      ancestors, and not InputOnly. Shapes are in the window's content space. */
  datatype Window = Window(id: int, x: int, y: int, width: nat, height: nat, bw: nat, viewable: bool,
                           redirect: Redirect, bounding: Shape, clip: Shape, children: seq<Window>)

  function Sat16(v: nat): nat { if v < 0xffff then v else 0xffff }

  /** The outer size along one axis, border included, saturating at 16 bits. */
  function Outer(size: nat, bw: nat): nat { Sat16(size + Sat16(2 * bw)) }

  predicate InShape(s: Shape, p: Pt) {
    match s
    case Unshaped => true
    case Shaped(r) => In(r, p.x, p.y)
  }

  /** A pixel of the parent's content in the window's own content space, and back. */
  function Into(c: Window, p: Pt): Pt { Pt(p.x - c.x - c.bw, p.y - c.y - c.bw) }

  function OutOf(c: Window, p: Pt): Pt { Pt(p.x + c.x + c.bw, p.y + c.y + c.bw) }

  predicate InOuter(c: Window, p: Pt) {
    c.x <= p.x < c.x + Outer(c.width, c.bw) && c.y <= p.y < c.y + Outer(c.height, c.bw)
  }

  /** `borderSize`, in the parent's content space. */
  predicate InSize(c: Window, p: Pt) {
    InOuter(c, p) && InShape(c.bounding, Into(c, p))
  }

  /** `winSize`, in the window's own content space. */
  predicate InWin(c: Window, p: Pt) {
    0 <= p.x < c.width && 0 <= p.y < c.height && InShape(c.bounding, p) && InShape(c.clip, p)
  }

  /** The window takes the pixel from its lower siblings and its parent; a Manual redirect never does. */
  predicate Hides(c: Window, p: Pt) {
    c.viewable && c.redirect != Manual && InSize(c, p)
  }

  predicate Clear(children: seq<Window>, lo: nat, hi: nat, p: Pt)
    requires hi <= |children|
  {
    forall j :: lo <= j < hi ==> !Hides(children[j], p)
  }

  lemma ClearNext(children: seq<Window>, lo: nat, j: nat)
    requires lo <= j < |children|
    ensures forall p :: Clear(children, lo, j + 1, p) <==> Clear(children, lo, j, p) && !Hides(children[j], p)
  {
  }

  /** What of `u` no child covers: the clip list. */
  ghost function ClipOf(w: Window, u: iset<Pt>): iset<Pt> {
    iset p: Pt | p in u && Clear(w.children, 0, |w.children|, p)
  }

  /** `borderClip` of child i, in its own space: its size, less the siblings above it, in the
      parent's universe `u`; a redirected child's is its whole size. */
  ghost function BorderClip(children: seq<Window>, i: nat, u: iset<Pt>): iset<Pt>
    requires i < |children|
  {
    iset p: Pt | var q := OutOf(children[i], p);
      && InSize(children[i], q)
      && (children[i].redirect == NotRedirected ==> q in u && Clear(children, i + 1, |children|, q))
  }

  /** The universe of child i: `borderClip` inside `winSize`, or a redirected child's own shape. */
  ghost function ChildUniverse(children: seq<Window>, i: nat, u: iset<Pt>): iset<Pt>
    requires i < |children|
  {
    iset p: Pt | InWin(children[i], p) && (children[i].redirect == NotRedirected ==> p in BorderClip(children, i, u))
  }

  /** The visible border of child i: `borderClip` outside `winSize`. */
  ghost function ChildRing(children: seq<Window>, i: nat, u: iset<Pt>): iset<Pt>
    requires i < |children|
  {
    iset p: Pt | children[i].bw != 0 && !InWin(children[i], p) && p in BorderClip(children, i, u)
  }

  // ------------------------------------------------------- in plain coordinates

  /** `borderSize` reaches the border's width beyond the content on all four sides, up to 65535 pixels
      from the window's position, inside the bounding shape. */
  lemma SizeIs(c: Window, p: Pt)
    ensures InSize(c, p) <==>
        && c.x <= p.x < c.x + Min(c.width + 2 * c.bw, 0xffff) && c.y <= p.y < c.y + Min(c.height + 2 * c.bw, 0xffff)
        && (c.bounding.Shaped? ==> In(c.bounding.region, p.x - c.x - c.bw, p.y - c.y - c.bw))
  {
  }

  /** Of an unshaped window that fits 16 bits, in its own space: the size is the content and a frame
      around it as wide as the border, and the border is that frame. */
  lemma FrameIs(c: Window, p: Pt)
    requires c.bounding == Unshaped == c.clip && c.width + 2 * c.bw <= 0xffff && c.height + 2 * c.bw <= 0xffff
    ensures InSize(c, OutOf(c, p)) <==> 0 <= p.x + c.bw < c.width + 2 * c.bw && 0 <= p.y + c.bw < c.height + 2 * c.bw
    ensures InSize(c, OutOf(c, p)) && !InWin(c, p) <==>
        && 0 <= p.x + c.bw < c.width + 2 * c.bw && 0 <= p.y + c.bw < c.height + 2 * c.bw
        && (p.x < 0 || c.width <= p.x || p.y < 0 || c.height <= p.y)
  {
  }

  /** A viewable child other than a Manual redirect whose size holds the pixel. */
  ghost predicate CoveredBy(children: seq<Window>, lo: nat, p: Pt) {
    exists j :: lo <= j < |children| && children[j].viewable && children[j].redirect != Manual && InSize(children[j], p)
  }

  /** What shows of a window and of its children, window by window: a pixel is the window's own iff no
      child covers it; it is a child's iff no higher child covers it and it is in the child's size, as
      content inside the shapes and as border outside, if there is a border. A redirected child has all
      of its own size, whatever is above it. */
  lemma WhatShows(w: Window, i: nat, u: iset<Pt>, p: Pt)
    requires i < |w.children|
    ensures p in ClipOf(w, u) <==> p in u && !CoveredBy(w.children, 0, p)
    ensures var c, q := w.children[i], Pt(p.x + w.children[i].x + w.children[i].bw, p.y + w.children[i].y
        + w.children[i].bw);
      var content := 0 <= p.x < c.width && 0 <= p.y < c.height
        && (c.bounding.Shaped? ==> In(c.bounding.region, p.x, p.y)) && (c.clip.Shaped? ==> In(c.clip.region, p.x, p.y));
      var free := c.redirect == NotRedirected ==> InSize(c, q) && q in u && !CoveredBy(w.children, i + 1, q);
      && (p in ChildUniverse(w.children, i, u) <==> content && free)
      && (p in ChildRing(w.children, i, u) <==> !content && free && InSize(c, q) && c.bw > 0)
  {
    hide In, InSize;
    CoveredIff(w.children, 0, p);
    CoveredIff(w.children, i + 1, OutOf(w.children[i], p));
  }

  lemma CoveredIff(children: seq<Window>, lo: nat, p: Pt)
    requires lo <= |children|
    ensures Clear(children, lo, |children|, p) <==> !CoveredBy(children, lo, p)
  {
    hide InSize;
    if CoveredBy(children, lo, p) {
      var j :| lo <= j < |children| && children[j].viewable && children[j].redirect != Manual && InSize(children[j], p);
      assert Hides(children[j], p);
    }
  }

  /** What shows of one window: its position in the tree, its content origin relative to the
      top of the walk, whether it is drawn there (no redirected window on the way), and its
      clip list and border ring in its own content space. */
  datatype Shown = Shown(path: seq<nat>, id: int, ox: int, oy: int, onScreen: bool, clip: iset<Pt>, ring: iset<Pt>)

  /** The windows of a subtree in exposure order: a window before its children, children
      top-most first. */
  ghost function Walk(w: Window, path: seq<nat>, ox: int, oy: int, on: bool, u: iset<Pt>, ring: iset<Pt>): seq<Shown>
    decreases w, |w.children| + 1
  {
    if !w.viewable then []
    else [Shown(path, w.id, ox, oy, on, ClipOf(w, u), ring)] + WalkKids(w, |w.children|, path, ox, oy, on, u)
  }

  ghost function WalkKids(w: Window, n: nat, path: seq<nat>, ox: int, oy: int, on: bool, u: iset<Pt>): seq<Shown>
    requires n <= |w.children|
    decreases w, n
  {
    if n == 0 then []
    else WalkKid(w, n - 1, path, ox, oy, on, u) + WalkKids(w, n - 1, path, ox, oy, on, u)
  }

  ghost function WalkKid(w: Window, i: nat, path: seq<nat>, ox: int, oy: int, on: bool, u: iset<Pt>): seq<Shown>
    requires i < |w.children|
    decreases w, i
  {
    var c := w.children[i];
    Walk(c, path + [i], ox + c.x + c.bw, oy + c.y + c.bw, on && c.redirect == NotRedirected,
         ChildUniverse(w.children, i, u), ChildRing(w.children, i, u))
  }

  /** The window at a path. */
  predicate InTree(root: Window, path: seq<nat>)
    decreases |path|, 0
  {
    path != [] ==> InTree(root, path[..|path| - 1]) && path[|path| - 1] < |WindowAt(root, path[..|path| - 1]).children|
  }

  function WindowAt(root: Window, path: seq<nat>): Window
    requires InTree(root, path)
    decreases |path|, 1
  {
    if path == [] then root else WindowAt(root, path[..|path| - 1]).children[path[|path| - 1]]
  }

  // ------------------------------------------------------- the top-most-window test

  datatype Hit = Content(path: seq<nat>) | Border(path: seq<nat>) | Lost

  /** Whose pixel is p, a pixel of w's universe in w's content space? Look for the top-most
      child there. A redirected one draws elsewhere, and a window without a border shows
      nothing outside its clip shape: then the pixel is lost. */
  function HitTest(w: Window, path: seq<nat>, p: Pt): Hit
    decreases w, |w.children| + 1
  {
    HitAmong(w, |w.children|, path, p)
  }

  function HitAmong(w: Window, n: nat, path: seq<nat>, p: Pt): Hit
    requires n <= |w.children|
    decreases w, n
  {
    if n == 0 then Content(path)
    else if Hides(w.children[n - 1], p) then HitChild(w, n - 1, path, p)
    else HitAmong(w, n - 1, path, p)
  }

  function HitChild(w: Window, i: nat, path: seq<nat>, p: Pt): Hit
    requires i < |w.children|
    decreases w, i
  {
    var c := w.children[i];
    if c.redirect != NotRedirected then Lost
    else if InWin(c, Into(c, p)) then HitTest(c, path + [i], Into(c, p))
    else if c.bw != 0 then Border(path + [i])
    else Lost
  }

  /** A hit at or below `path`. */
  predicate Under(h: Hit, path: seq<nat>) {
    h.Lost? || path <= h.path
  }

  lemma {:induction false} HitUnder(w: Window, n: nat, path: seq<nat>, p: Pt)
    requires n <= |w.children|
    ensures Under(HitAmong(w, n, path, p), path)
    decreases w, n, 1
  {
    if n > 0 {
      if Hides(w.children[n - 1], p) {
        HitChildUnder(w, n - 1, path, p);
        assert path <= path + [n - 1];
      } else {
        HitUnder(w, n - 1, path, p);
      }
    }
  }

  lemma {:induction false} HitChildUnder(w: Window, i: nat, path: seq<nat>, p: Pt)
    requires i < |w.children|
    ensures Under(HitChild(w, i, path, p), path + [i])
    decreases w, i, 2
  {
    var c := w.children[i];
    HitUnder(c, |c.children|, path + [i], Into(c, p));
  }

  /** Among the first n children the top-most one that hides the pixel decides. */
  lemma {:induction false} HitDecided(w: Window, n: nat, i: nat, path: seq<nat>, p: Pt)
    requires i < n <= |w.children| && Hides(w.children[i], p) && Clear(w.children, i + 1, n, p)
    ensures HitAmong(w, n, path, p) == HitChild(w, i, path, p)
    decreases n
  {
    if i < n - 1 { HitDecided(w, n - 1, i, path, p); }
  }

  lemma {:induction false} HitClear(w: Window, n: nat, path: seq<nat>, p: Pt)
    requires n <= |w.children|
    ensures HitAmong(w, n, path, p) == Content(path) <==> Clear(w.children, 0, n, p)
    decreases n
  {
    if n > 0 {
      HitClear(w, n - 1, path, p);
      if Hides(w.children[n - 1], p) {
        HitChildUnder(w, n - 1, path, p);
      }
    }
  }

  /** A hit at or below child i's path comes from child i, with nothing above it there. */
  lemma HitVia(w: Window, i: nat, path: seq<nat>, p: Pt, h: Hit)
    requires i < |w.children| && !h.Lost? && path + [i] <= h.path
    ensures HitTest(w, path, p) == h <==>
        Hides(w.children[i], p) && Clear(w.children, i + 1, |w.children|, p) && HitChild(w, i, path, p) == h
  {
    var n := |w.children|;
    if Hides(w.children[i], p) && Clear(w.children, i + 1, n, p) {
      HitDecided(w, n, i, path, p);
    } else if Clear(w.children, 0, n, p) {
      HitClear(w, n, path, p);
    } else {
      var j := TopMost(w.children, n, p);
      HitDecided(w, n, j, path, p);
      HitChildUnder(w, j, path, p);
      assert (path + [j])[|path|] == j && (path + [i])[|path|] == i;
    }
  }

  lemma {:induction false} TopMost(children: seq<Window>, n: nat, p: Pt) returns (j: nat)
    requires n <= |children| && !Clear(children, 0, n, p)
    ensures j < n && Hides(children[j], p) && Clear(children, j + 1, n, p)
  {
    if Hides(children[n - 1], p) {
      j := n - 1;
    } else {
      j := TopMost(children, n - 1, p);
    }
  }

  // ------------------------------------------------------- clip lists and hits

  /** Every window of a walk is listed under its own path. */
  lemma {:induction false} WalkUnder(w: Window, path: seq<nat>, ox: int, oy: int, on: bool, u: iset<Pt>, ring: iset<Pt>)
    ensures forall k :: 0 <= k < |Walk(w, path, ox, oy, on, u, ring)| ==>
        path <= Walk(w, path, ox, oy, on, u, ring)[k].path
    ensures forall k :: 0 < k < |Walk(w, path, ox, oy, on, u, ring)| ==>
        path < Walk(w, path, ox, oy, on, u, ring)[k].path
    ensures !on ==>
        forall k :: 0 <= k < |Walk(w, path, ox, oy, on, u, ring)| ==> !Walk(w, path, ox, oy, on, u, ring)[k].onScreen
    decreases w, |w.children| + 1
  {
    if w.viewable { KidsUnder(w, |w.children|, path, ox, oy, on, u); }
  }

  lemma {:induction false} KidsUnder(w: Window, n: nat, path: seq<nat>, ox: int, oy: int, on: bool, u: iset<Pt>)
    requires n <= |w.children|
    ensures forall k :: 0 <= k < |WalkKids(w, n, path, ox, oy, on, u)| ==>
        path < WalkKids(w, n, path, ox, oy, on, u)[k].path
    ensures !on ==>
        forall k :: 0 <= k < |WalkKids(w, n, path, ox, oy, on, u)| ==> !WalkKids(w, n, path, ox, oy, on, u)[k].onScreen
    decreases w, n
  {
    if n > 0 {
      var c := w.children[n - 1];
      var s := Walk(c, path + [n - 1], ox + c.x + c.bw, oy + c.y + c.bw, on && c.redirect == NotRedirected,
                    ChildUniverse(w.children, n - 1, u), ChildRing(w.children, n - 1, u));
      WalkUnder(c, path + [n - 1], ox + c.x + c.bw, oy + c.y + c.bw, on && c.redirect == NotRedirected,
                ChildUniverse(w.children, n - 1, u), ChildRing(w.children, n - 1, u));
      KidsUnder(w, n - 1, path, ox, oy, on, u);
      assert s == WalkKid(w, n - 1, path, ox, oy, on, u);
      assert path < path + [n - 1];
    }
  }

  /** Entry e, a window drawn in the same space as w, shows exactly the pixels of w's universe
      whose hit test ends in it. `q` is in e's space and `t` is the same pixel in w's. */
  ghost predicate ShowsHits(e: Shown, w: Window, path: seq<nat>, ox: int, oy: int, u: iset<Pt>, own: bool) {
    forall q: Pt, t: Pt :: t == Pt(q.x + e.ox - ox, q.y + e.oy - oy) ==>
      && (q in e.clip <==> t in u && HitTest(w, path, t) == Content(e.path))
      && (own || (q in e.ring <==> t in u && HitTest(w, path, t) == Border(e.path)))
  }

  /** The clip lists and rings of a whole walk are the hit test's answers: each pixel of the
      universe is shown by the one window, content or border, that the test finds. */
  lemma {:induction false} WalkShowsHits(w: Window, path: seq<nat>, ox: int, oy: int, on: bool, u: iset<Pt>,
                                         ring: iset<Pt>, k: nat)
    requires k < |Walk(w, path, ox, oy, on, u, ring)| && Walk(w, path, ox, oy, on, u, ring)[k].onScreen
    ensures ShowsHits(Walk(w, path, ox, oy, on, u, ring)[k], w, path, ox, oy, u, k == 0)
    decreases w, |w.children| + 1
  {
    var e := Walk(w, path, ox, oy, on, u, ring)[k];
    if k == 0 {
      forall q: Pt ensures q in e.clip <==> q in u && HitTest(w, path, q) == Content(path) {
        HitClear(w, |w.children|, path, q);
      }
    } else {
      assert e == WalkKids(w, |w.children|, path, ox, oy, on, u)[k - 1];
      KidsShowHits(w, |w.children|, path, ox, oy, on, u, k - 1);
    }
  }

  lemma {:induction false} KidsShowHits(w: Window, n: nat, path: seq<nat>, ox: int, oy: int, on: bool,
                                        u: iset<Pt>, k: nat)
    requires n <= |w.children| && k < |WalkKids(w, n, path, ox, oy, on, u)|
        && WalkKids(w, n, path, ox, oy, on, u)[k].onScreen
    ensures ShowsHits(WalkKids(w, n, path, ox, oy, on, u)[k], w, path, ox, oy, u, false)
    decreases w, n
  {
    var i := n - 1;
    var c, s := w.children[i], WalkKid(w, i, path, ox, oy, on, u);
    if k < |s| {
      var e := WalkKids(w, n, path, ox, oy, on, u)[k];
      assert e == s[k];
      WalkUnder(c, path + [i], ox + c.x + c.bw, oy + c.y + c.bw, on && c.redirect == NotRedirected,
                ChildUniverse(w.children, i, u), ChildRing(w.children, i, u));
      WalkShowsHits(c, path + [i], ox + c.x + c.bw, oy + c.y + c.bw, on && c.redirect == NotRedirected,
                    ChildUniverse(w.children, i, u), ChildRing(w.children, i, u), k);
      KidShowsHits(w, i, path, ox, oy, u, e, k == 0);
    } else {
      KidsShowHits(w, n - 1, path, ox, oy, on, u, k - |s|);
    }
  }

  ghost predicate OwnEntry(w: Window, i: nat, path: seq<nat>, ox: int, oy: int, u: iset<Pt>, e: Shown)
    requires i < |w.children|
  {
    var c := w.children[i];
    e.path == path + [i] && e.ring == ChildRing(w.children, i, u) && e.ox == ox + c.x + c.bw && e.oy == oy + c.y + c.bw
  }

  /** From the child's universe to the parent's. */
  lemma KidShowsHits(w: Window, i: nat, path: seq<nat>, ox: int, oy: int, u: iset<Pt>, e: Shown, own: bool)
    requires i < |w.children| && w.children[i].viewable && w.children[i].redirect == NotRedirected
    requires path + [i] <= e.path
    requires var c := w.children[i];
      ShowsHits(e, c, path + [i], ox + c.x + c.bw, oy + c.y + c.bw, ChildUniverse(w.children, i, u), own)
    requires if own then OwnEntry(w, i, path, ox, oy, u, e) else |path| + 1 < |e.path|
    ensures ShowsHits(e, w, path, ox, oy, u, false)
  {
    var c := w.children[i];
    var ui := ChildUniverse(w.children, i, u);
    forall q: Pt, t: Pt | t == Pt(q.x + e.ox - ox, q.y + e.oy - oy)
      ensures q in e.clip <==> t in u && HitTest(w, path, t) == Content(e.path)
      ensures q in e.ring <==> t in u && HitTest(w, path, t) == Border(e.path)
    {
      var t' := Into(c, t);
      assert OutOf(c, t') == t;
      HitVia(w, i, path, t, Content(e.path));
      HitVia(w, i, path, t, Border(e.path));
      HitUnder(c, |c.children|, path + [i], t');
      assert t' == Pt(q.x + e.ox - (ox + c.x + c.bw), q.y + e.oy - (oy + c.y + c.bw));
      assert t' in ui <==> t in u && Clear(w.children, i + 1, |w.children|, t) && InSize(c, t) && InWin(c, t');
      assert q in e.clip <==> t' in ui && HitTest(c, path + [i], t') == Content(e.path);
      assert own ==> q == t';
      if own {
        NeverOwnBorder(c, |c.children|, path + [i], t');
      } else {
        assert q in e.ring <==> t' in ui && HitTest(c, path + [i], t') == Border(e.path);
      }
    }
  }

  /** A window's own border is not found inside it. */
  lemma {:induction false} NeverOwnBorder(w: Window, n: nat, path: seq<nat>, p: Pt)
    requires n <= |w.children|
    ensures HitAmong(w, n, path, p) != Border(path)
    decreases n
  {
    if n > 0 {
      NeverOwnBorder(w, n - 1, path, p);
      HitChildUnder(w, n - 1, path, p);
    }
  }

  // ------------------------------------------------------- every pixel once

  /** Every window the test can find is in the walk, drawn on screen. */
  lemma {:induction false} HitListed(w: Window, path: seq<nat>, ox: int, oy: int, u: iset<Pt>, ring: iset<Pt>,
                                     p: Pt) returns (k: nat)
    requires w.viewable && !HitTest(w, path, p).Lost?
    ensures k < |Walk(w, path, ox, oy, true, u, ring)|
    ensures Walk(w, path, ox, oy, true, u, ring)[k].onScreen
        && Walk(w, path, ox, oy, true, u, ring)[k].path == HitTest(w, path, p).path
    ensures k == 0 ==> HitTest(w, path, p).Content?
    decreases w, 1
  {
    var n := |w.children|;
    HitClear(w, n, path, p);
    if Clear(w.children, 0, n, p) {
      k := 0;
    } else {
      var i := TopMost(w.children, n, p);
      HitDecided(w, n, i, path, p);
      var c := w.children[i];
      var k' := 0;
      if InWin(c, Into(c, p)) {
        k' := HitListed(c, path + [i], ox + c.x + c.bw, oy + c.y
          + c.bw, ChildUniverse(w.children, i, u), ChildRing(w.children, i, u), Into(c, p));
      }
      k' := KidListed(w, n, i, path, ox, oy, u, k');
      k := k' + 1;
    }
  }

  /** Entry k of child i's walk, found in the walk over the children. */
  lemma {:induction false} KidListed(w: Window, n: nat, i: nat, path: seq<nat>, ox: int, oy: int, u: iset<Pt>,
                                     k: nat) returns (k': nat)
    requires i < n <= |w.children| && k < |WalkKid(w, i, path, ox, oy, true, u)|
    ensures k' < |WalkKids(w, n, path, ox, oy, true, u)|
    ensures WalkKids(w, n, path, ox, oy, true, u)[k'] == WalkKid(w, i, path, ox, oy, true, u)[k]
    decreases n
  {
    if i == n - 1 {
      k' := k;
    } else {
      k' := KidListed(w, n - 1, i, path, ox, oy, u, k);
      k' := k' + |WalkKid(w, n - 1, path, ox, oy, true, u)|;
    }
  }

  /** No window is listed twice. */
  lemma {:induction false} WalkDistinct(w: Window, path: seq<nat>, ox: int, oy: int, on: bool, u: iset<Pt>,
                                        ring: iset<Pt>)
    ensures forall j, k :: 0 <= j < k < |Walk(w, path, ox, oy, on, u, ring)| ==>
        Walk(w, path, ox, oy, on, u, ring)[j].path != Walk(w, path, ox, oy, on, u, ring)[k].path
    decreases w, |w.children| + 1
  {
    if w.viewable {
      WalkUnder(w, path, ox, oy, on, u, ring);
      KidsDistinct(w, |w.children|, path, ox, oy, on, u);
    }
  }

  lemma {:induction false} KidsDistinct(w: Window, n: nat, path: seq<nat>, ox: int, oy: int, on: bool, u: iset<Pt>)
    requires n <= |w.children|
    ensures forall k :: 0 <= k < |WalkKids(w, n, path, ox, oy, on, u)| ==>
        |WalkKids(w, n, path, ox, oy, on, u)[k].path| > |path|
          && WalkKids(w, n, path, ox, oy, on, u)[k].path[|path|] < n
    ensures forall j, k :: 0 <= j < k < |WalkKids(w, n, path, ox, oy, on, u)| ==>
        WalkKids(w, n, path, ox, oy, on, u)[j].path != WalkKids(w, n, path, ox, oy, on, u)[k].path
    decreases w, n
  {
    if n > 0 {
      var c := w.children[n - 1];
      var s := Walk(c, path + [n - 1], ox + c.x + c.bw, oy + c.y + c.bw, on && c.redirect == NotRedirected,
                    ChildUniverse(w.children, n - 1, u), ChildRing(w.children, n - 1, u));
      assert s == WalkKid(w, n - 1, path, ox, oy, on, u);
      WalkDistinct(c, path + [n - 1], ox + c.x + c.bw, oy + c.y + c.bw, on && c.redirect == NotRedirected,
                   ChildUniverse(w.children, n - 1, u), ChildRing(w.children, n - 1, u));
      WalkUnder(c, path + [n - 1], ox + c.x + c.bw, oy + c.y + c.bw, on && c.redirect == NotRedirected,
                ChildUniverse(w.children, n - 1, u), ChildRing(w.children, n - 1, u));
      KidsDistinct(w, n - 1, path, ox, oy, on, u);
      forall k | 0 <= k < |s| ensures |s[k].path| > |path| && s[k].path[|path|] == n - 1 {
        assert path + [n - 1] <= s[k].path && (path + [n - 1])[|path|] == n - 1;
      }
    }
  }

  /** `a` comes before `b` in exposure order: an ancestor, or higher in the stack where they part. */
  ghost predicate Precedes(a: seq<nat>, b: seq<nat>) {
    (a < b) || exists m :: 0 <= m < |a| && m < |b| && a[..m] == b[..m] && a[m] > b[m]
  }

  /** Windows are listed in exposure order: a window before those inside it, and siblings with all
      that is inside them top-most first. */
  lemma {:induction false} WalkOrdered(w: Window, path: seq<nat>, ox: int, oy: int, on: bool, u: iset<Pt>,
                                       ring: iset<Pt>)
    ensures forall j, k :: 0 <= j < k < |Walk(w, path, ox, oy, on, u, ring)| ==>
        Precedes(Walk(w, path, ox, oy, on, u, ring)[j].path, Walk(w, path, ox, oy, on, u, ring)[k].path)
    decreases w, |w.children| + 1
  {
    if w.viewable {
      WalkUnder(w, path, ox, oy, on, u, ring);
      KidsOrdered(w, |w.children|, path, ox, oy, on, u);
    }
  }

  lemma {:induction false} KidsOrdered(w: Window, n: nat, path: seq<nat>, ox: int, oy: int, on: bool, u: iset<Pt>)
    requires n <= |w.children|
    ensures forall j, k :: 0 <= j < k < |WalkKids(w, n, path, ox, oy, on, u)| ==>
        Precedes(WalkKids(w, n, path, ox, oy, on, u)[j].path, WalkKids(w, n, path, ox, oy, on, u)[k].path)
    decreases w, n
  {
    if n > 0 {
      var c := w.children[n - 1];
      var s, rest := WalkKid(w, n - 1, path, ox, oy, on, u), WalkKids(w, n - 1, path, ox, oy, on, u);
      WalkOrdered(c, path + [n - 1], ox + c.x + c.bw, oy + c.y + c.bw, on && c.redirect == NotRedirected,
                  ChildUniverse(w.children, n - 1, u), ChildRing(w.children, n - 1, u));
      WalkUnder(c, path + [n - 1], ox + c.x + c.bw, oy + c.y + c.bw, on && c.redirect == NotRedirected,
                ChildUniverse(w.children, n - 1, u), ChildRing(w.children, n - 1, u));
      KidsOrdered(w, n - 1, path, ox, oy, on, u);
      KidsDistinct(w, n - 1, path, ox, oy, on, u);
      KidsUnder(w, n - 1, path, ox, oy, on, u);
      assert WalkKids(w, n, path, ox, oy, on, u) == s + rest;
      assert s == Walk(c, path + [n - 1], ox + c.x + c.bw, oy + c.y + c.bw, on && c.redirect == NotRedirected,
                       ChildUniverse(w.children, n - 1, u), ChildRing(w.children, n - 1, u));
      forall j, k | 0 <= j < |s| && 0 <= k < |rest| ensures Precedes(s[j].path, rest[k].path) {
        HigherFirst(path, n - 1, s[j].path, rest[k].path);
      }
    }
  }

  lemma HigherFirst(path: seq<nat>, i: nat, a: seq<nat>, b: seq<nat>)
    requires path + [i] <= a && path < b && b[|path|] < i
    ensures Precedes(a, b)
  {
    var m := |path|;
    assert a[m] == (path + [i])[m] == i;
    assert a[..m] == (path + [i])[..m] == path && b[..m] == path;
  }

  /** The window of entry e shows pixel t of the walk's space, as content or as border. */
  ghost predicate ShowsPixel(e: Shown, own: bool, ox: int, oy: int, t: Pt) {
    var q := Pt(t.x - e.ox + ox, t.y - e.oy + oy);
    e.onScreen && (q in e.clip || (!own && q in e.ring))
  }

  /** Partition: each pixel of the universe is shown by exactly one window of the walk, unless
      the hit test loses it, and then by none. */
  lemma EveryPixelOnce(w: Window, path: seq<nat>, ox: int, oy: int, u: iset<Pt>, ring: iset<Pt>, t: Pt) returns (k: nat)
    requires w.viewable && t in u
    ensures var s := Walk(w, path, ox, oy, true, u, ring);
      if HitTest(w, path, t).Lost? then forall j :: 0 <= j < |s| ==> !ShowsPixel(s[j], j == 0, ox, oy, t)
      else k < |s| && forall j :: 0 <= j < |s| ==> (ShowsPixel(s[j], j == 0, ox, oy, t) <==> j == k)
  {
    var s, h := Walk(w, path, ox, oy, true, u, ring), HitTest(w, path, t);
    k := 0;
    if !h.Lost? { k := HitListed(w, path, ox, oy, u, ring, t); }
    forall j | 0 <= j < |s|
      ensures ShowsPixel(s[j], j == 0, ox, oy, t) <==>
          s[j].onScreen && !h.Lost? && h.path == s[j].path && (j == 0 ==> h.Content?)
    {
      if s[j].onScreen {
        WalkShowsHits(w, path, ox, oy, true, u, ring, j);
        var q := Pt(t.x - s[j].ox + ox, t.y - s[j].oy + oy);
        assert t == Pt(q.x + s[j].ox - ox, q.y + s[j].oy - oy);
      }
    }
    WalkDistinct(w, path, ox, oy, true, u, ring);
  }

  /** No redirects below, and every window without a border fills its size: nothing is lost. */
  predicate Plain(w: Window) {
    forall i :: 0 <= i < |w.children| ==> PlainChild(w.children[i])
  }

  predicate PlainChild(c: Window)
    decreases c, 1
  {
    c.redirect == NotRedirected && (c.bw != 0 || Filled(c)) && forall i :: 0 <= i < |c.children| ==>
        PlainChild(c.children[i])
  }

  /** Without a border, the size is the content: unless a clip shape cuts into it. */
  predicate Filled(c: Window) {
    c.clip == Unshaped
  }

  lemma {:induction false} PlainNeverLost(w: Window, n: nat, path: seq<nat>, p: Pt)
    requires n <= |w.children| && Plain(w)
    ensures !HitAmong(w, n, path, p).Lost?
    decreases w, n
  {
    if n > 0 {
      var c := w.children[n - 1];
      if Hides(c, p) {
        assert PlainChild(c) && Plain(c);
        assert c.bw == 0 ==> InWin(c, Into(c, p));
        assert HitAmong(w, n, path, p) == HitChild(w, n - 1, path, p);
        PlainNeverLost(c, |c.children|, path + [n - 1], Into(c, p));
        assert !HitTest(c, path + [n - 1], Into(c, p)).Lost?;
      } else {
        PlainNeverLost(w, n - 1, path, p);
      }
    }
  }
}
