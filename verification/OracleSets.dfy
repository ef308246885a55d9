/** The older clip-list traversal (crates/yserver-core/src/core_loop/clip_list/oracle.rs) as sets of
    pixels. It leaves `borderSize` out of a child's universe; where the 16-bit outer size saturates,
    content can lie outside of it. Here is exactly when that shows. */
module OracleSets {
  import opened Plane
  import opened WindowTree

  /** The oracle's universe of child i: what the higher siblings leave of `u`, inside `winSize`. */
  ghost function LooseUniverse(children: seq<Window>, i: nat, u: iset<Pt>): iset<Pt>
    requires i < |children|
  {
    iset p: Pt | var q := OutOf(children[i], p);
      && InWin(children[i], p)
      && (children[i].redirect == NotRedirected ==> q in u && Clear(children, i + 1, |children|, q))
  }

  /** A content pixel of child i that nothing above covers, in `u`, outside the outer rectangle. */
  ghost predicate Stray(children: seq<Window>, i: nat, u: iset<Pt>, p: Pt)
    requires i < |children|
  {
    var c := children[i];
    var q := OutOf(c, p);
    c.redirect == NotRedirected && InWin(c, p) && q in u && Clear(children, i + 1, |children|, q) && !InOuter(c, q)
  }

  ghost predicate HasStray(children: seq<Window>, i: nat, u: iset<Pt>)
    requires i < |children|
  {
    exists p :: Stray(children, i, u, p)
  }

  /** The two universes of a child are equal iff no content pixel strays. */
  lemma UniversesEqual(children: seq<Window>, i: nat, u: iset<Pt>)
    requires i < |children|
    ensures ChildUniverse(children, i, u) <= LooseUniverse(children, i, u)
    ensures LooseUniverse(children, i, u) == ChildUniverse(children, i, u) <==> !HasStray(children, i, u)
  {
    hide Clear, InShape;
    if p :| Stray(children, i, u, p) {
      assert p in LooseUniverse(children, i, u) && p !in ChildUniverse(children, i, u);
    } else {
      forall p: Pt ensures p in LooseUniverse(children, i, u) <==> p in ChildUniverse(children, i, u) {
        assert !Stray(children, i, u, p);
        assert Into(children[i], OutOf(children[i], p)) == p;
      }
    }
  }

  /** A window whose content and near border fit 16 bits has no stray pixel, whatever the rest. */
  predicate Fits(c: Window) {
    c.bw + c.width <= 0xffff && c.bw + c.height <= 0xffff
  }

  lemma FitsNoStray(children: seq<Window>, i: nat, u: iset<Pt>)
    requires i < |children| && Fits(children[i])
    ensures !HasStray(children, i, u)
  {
  }

  // ------------------------------------------------------- the oracle's walk

  ghost function LooseWalk(w: Window, path: seq<nat>, ox: int, oy: int, on: bool, u: iset<Pt>,
                           ring: iset<Pt>): seq<Shown>
    decreases w, |w.children| + 1
  {
    if !w.viewable then []
    else [Shown(path, w.id, ox, oy, on, ClipOf(w, u), ring)] + LooseKids(w, |w.children|, path, ox, oy, on, u)
  }

  ghost function LooseKids(w: Window, n: nat, path: seq<nat>, ox: int, oy: int, on: bool, u: iset<Pt>): seq<Shown>
    requires n <= |w.children|
    decreases w, n
  {
    if n == 0 then []
    else LooseKid(w, n - 1, path, ox, oy, on, u) + LooseKids(w, n - 1, path, ox, oy, on, u)
  }

  ghost function LooseKid(w: Window, i: nat, path: seq<nat>, ox: int, oy: int, on: bool, u: iset<Pt>): seq<Shown>
    requires i < |w.children|
    decreases w, i
  {
    var c := w.children[i];
    LooseWalk(c, path + [i], ox + c.x + c.bw, oy + c.y + c.bw, on && c.redirect == NotRedirected,
              LooseUniverse(w.children, i, u), ChildRing(w.children, i, u))
  }

  /** No window on the walk has a stray pixel. */
  ghost predicate NoStray(w: Window, u: iset<Pt>) {
    forall i :: 0 <= i < |w.children| && w.children[i].viewable ==>
      !HasStray(w.children, i, u) && NoStray(w.children[i], ChildUniverse(w.children, i, u))
  }

  predicate FitsTree(w: Window) {
    forall i :: 0 <= i < |w.children| ==> Fits(w.children[i]) && FitsTree(w.children[i])
  }

  lemma {:induction false} FitsTreeNoStray(w: Window, u: iset<Pt>)
    requires FitsTree(w)
    ensures NoStray(w, u)
    decreases w
  {
    forall i | 0 <= i < |w.children| && w.children[i].viewable
      ensures !HasStray(w.children, i, u) && NoStray(w.children[i], ChildUniverse(w.children, i, u))
    {
      FitsNoStray(w.children, i, u);
      FitsTreeNoStray(w.children[i], ChildUniverse(w.children, i, u));
    }
  }

  /** Without stray pixels the two walks are one. */
  lemma {:induction false} NoStraySameWalk(w: Window, path: seq<nat>, ox: int, oy: int, on: bool, u: iset<Pt>,
                                           ring: iset<Pt>)
    requires NoStray(w, u)
    ensures LooseWalk(w, path, ox, oy, on, u, ring) == Walk(w, path, ox, oy, on, u, ring)
    decreases w, |w.children| + 1
  {
    hide HasStray, ClipOf;
    NoStraySameKids(w, |w.children|, path, ox, oy, on, u);
  }

  lemma {:induction false} NoStraySameKids(w: Window, n: nat, path: seq<nat>, ox: int, oy: int, on: bool, u: iset<Pt>)
    requires NoStray(w, u) && n <= |w.children|
    ensures LooseKids(w, n, path, ox, oy, on, u) == WalkKids(w, n, path, ox, oy, on, u)
    decreases w, n
  {
    hide HasStray, LooseUniverse, ChildUniverse, ChildRing;
    if n > 0 {
      var c := w.children[n - 1];
      NoStraySameKids(w, n - 1, path, ox, oy, on, u);
      if c.viewable {
        UniversesEqual(w.children, n - 1, u);
        NoStraySameWalk(c, path + [n - 1], ox + c.x + c.bw, oy + c.y + c.bw, on && c.redirect == NotRedirected,
                        ChildUniverse(w.children, n - 1, u), ChildRing(w.children, n - 1, u));
      }
      assert LooseKid(w, n - 1, path, ox, oy, on, u) == WalkKid(w, n - 1, path, ox, oy, on, u);
    }
  }

  // ------------------------------------------------------- and where they are not

  lemma {:induction false} SameLength(w: Window, path: seq<nat>, ox: int, oy: int, on: bool, u: iset<Pt>,
                                      ring: iset<Pt>, u': iset<Pt>, ring': iset<Pt>)
    ensures |LooseWalk(w, path, ox, oy, on, u, ring)| == |Walk(w, path, ox, oy, on, u', ring')|
    decreases w, |w.children| + 1
  {
    KidsSameLength(w, |w.children|, path, ox, oy, on, u, u');
  }

  lemma {:induction false} KidsSameLength(w: Window, n: nat, path: seq<nat>, ox: int, oy: int, on: bool,
                                          u: iset<Pt>, u': iset<Pt>)
    requires n <= |w.children|
    ensures |LooseKids(w, n, path, ox, oy, on, u)| == |WalkKids(w, n, path, ox, oy, on, u')|
    decreases w, n
  {
    if n > 0 {
      var c := w.children[n - 1];
      KidsSameLength(w, n - 1, path, ox, oy, on, u, u');
      SameLength(c, path + [n - 1], ox + c.x + c.bw, oy + c.y + c.bw, on && c.redirect == NotRedirected,
                 LooseUniverse(w.children, n - 1, u), ChildRing(w.children, n - 1, u),
                 ChildUniverse(w.children, n - 1, u'), ChildRing(w.children, n - 1, u'));
    }
  }

  /** Equal walks over the children are equal walks over each of them. */
  lemma {:induction false} KidsEqualKidEqual(w: Window, n: nat, i: nat, path: seq<nat>, ox: int, oy: int,
                                             on: bool, u: iset<Pt>, u': iset<Pt>)
    requires i < n <= |w.children| && LooseKids(w, n, path, ox, oy, on, u') == WalkKids(w, n, path, ox, oy, on, u)
    ensures LooseKid(w, i, path, ox, oy, on, u') == WalkKid(w, i, path, ox, oy, on, u)
    decreases n
  {
    hide LooseUniverse, ChildUniverse, ChildRing, LooseWalk, Walk;
    var c := w.children[n - 1];
    SameLength(c, path + [n - 1], ox + c.x + c.bw, oy + c.y + c.bw, on && c.redirect == NotRedirected,
               LooseUniverse(w.children, n - 1, u'), ChildRing(w.children, n - 1, u'),
               ChildUniverse(w.children, n - 1, u), ChildRing(w.children, n - 1, u));
    SplitEqual(LooseKid(w, n - 1, path, ox, oy, on, u'), LooseKids(w, n - 1, path, ox, oy, on, u'),
               WalkKid(w, n - 1, path, ox, oy, on, u), WalkKids(w, n - 1, path, ox, oy, on, u));
    if i < n - 1 { KidsEqualKidEqual(w, n - 1, i, path, ox, oy, on, u, u'); }
  }

  lemma SplitEqual(a: seq<Shown>, b: seq<Shown>, c: seq<Shown>, d: seq<Shown>)
    requires |a| == |c| && a + b == c + d
    ensures a == c && b == d
  {
    assert a == (a + b)[..|a|] && c == (c + d)[..|c|];
    assert b == (a + b)[|a|..] && d == (c + d)[|c|..];
  }

  // ------------------------------------------------------- exactly when they are equal

  /** Every stray pixel is lost to the hit test below its window. */
  ghost predicate Harmless(w: Window, path: seq<nat>, u: iset<Pt>) {
    forall i :: 0 <= i < |w.children| && w.children[i].viewable ==>
      && (forall p :: Stray(w.children, i, u, p) ==> HitTest(w.children[i], path + [i], p).Lost?)
      && Harmless(w.children[i], path + [i], LooseUniverse(w.children, i, u))
  }

  /** The pixels of the larger universe that the smaller has not are all lost. */
  ghost predicate ExtraLost(w: Window, path: seq<nat>, u: iset<Pt>, u': iset<Pt>) {
    forall t :: t in u' && t !in u ==> HitTest(w, path, t).Lost?
  }

  /** A pixel the oracle gives a child beyond its universe: stray, or beyond the parent's. */
  lemma ExtraOfKid(w: Window, i: nat, path: seq<nat>, u: iset<Pt>, u': iset<Pt>, p: Pt)
    requires i < |w.children| && w.children[i].viewable
    requires p in LooseUniverse(w.children, i, u') && p !in ChildUniverse(w.children, i, u)
    ensures var q := OutOf(w.children[i], p);
      || Stray(w.children, i, u', p)
      || (q in u' && q !in u && HitTest(w, path, q) == HitTest(w.children[i], path + [i], p))
  {
    hide Clear, InShape, InOuter;
    var c := w.children[i];
    var q := OutOf(c, p);
    assert Into(c, q) == p;
    if InOuter(c, q) {
      assert Hides(c, q);
      HitDecided(w, |w.children|, i, path, q);
    }
  }

  /** A ring pixel beyond the parent's universe is one the hit test finds there. */
  lemma ExtraOfRing(w: Window, i: nat, path: seq<nat>, u: iset<Pt>, u': iset<Pt>, p: Pt)
    requires i < |w.children| && w.children[i].viewable && u <= u'
    requires p in ChildRing(w.children, i, u') && p !in ChildRing(w.children, i, u)
    ensures var q := OutOf(w.children[i], p); q in u' && q !in u && HitTest(w, path, q) == Border(path + [i])
  {
    hide Clear, InSize;
    var c := w.children[i];
    var q := OutOf(c, p);
    assert Into(c, q) == p && Hides(c, q);
    HitDecided(w, |w.children|, i, path, q);
  }

  lemma SameRing(w: Window, i: nat, path: seq<nat>, u: iset<Pt>, u': iset<Pt>)
    requires i < |w.children| && w.children[i].viewable && u <= u' && ExtraLost(w, path, u, u')
    ensures ChildRing(w.children, i, u') == ChildRing(w.children, i, u)
  {
    hide HitTest;
    forall p ensures p in ChildRing(w.children, i, u') <==> p in ChildRing(w.children, i, u) {
      if p in ChildRing(w.children, i, u') && p !in ChildRing(w.children, i, u) {
        ExtraOfRing(w, i, path, u, u', p);
      }
    }
  }

  lemma SameClip(w: Window, path: seq<nat>, u: iset<Pt>, u': iset<Pt>)
    requires u <= u' && ExtraLost(w, path, u, u')
    ensures ClipOf(w, u') == ClipOf(w, u)
  {
    forall t ensures t in ClipOf(w, u') <==> t in ClipOf(w, u) {
      HitClear(w, |w.children|, path, t);
    }
  }

  lemma UniverseGrows(children: seq<Window>, i: nat, u: iset<Pt>, u': iset<Pt>)
    requires i < |children| && u <= u'
    ensures ChildUniverse(children, i, u) <= LooseUniverse(children, i, u')
  {
  }

  lemma KidExtraLost(w: Window, i: nat, path: seq<nat>, u: iset<Pt>, u': iset<Pt>)
    requires i < |w.children| && w.children[i].viewable && ExtraLost(w, path, u, u')
    requires forall p :: Stray(w.children, i, u', p) ==> HitTest(w.children[i], path + [i], p).Lost?
    ensures ExtraLost(w.children[i], path + [i], ChildUniverse(w.children, i, u), LooseUniverse(w.children, i, u'))
  {
    hide HitTest, Stray, ChildUniverse, LooseUniverse;
    forall p | p in LooseUniverse(w.children, i, u') && p !in ChildUniverse(w.children, i, u)
      ensures HitTest(w.children[i], path + [i], p).Lost?
    {
      ExtraOfKid(w, i, path, u, u', p);
    }
  }

  lemma {:induction false} HarmlessSameWalk(w: Window, path: seq<nat>, ox: int, oy: int, on: bool, u: iset<Pt>,
                                            u': iset<Pt>, ring: iset<Pt>)
    requires u <= u' && ExtraLost(w, path, u, u') && Harmless(w, path, u')
    ensures LooseWalk(w, path, ox, oy, on, u', ring) == Walk(w, path, ox, oy, on, u, ring)
    decreases w, |w.children| + 1
  {
    hide ClipOf, ExtraLost, Harmless;
    SameClip(w, path, u, u');
    HarmlessSameKids(w, |w.children|, path, ox, oy, on, u, u');
  }

  lemma {:induction false} HarmlessSameKids(w: Window, n: nat, path: seq<nat>, ox: int, oy: int, on: bool,
                                            u: iset<Pt>, u': iset<Pt>)
    requires n <= |w.children| && u <= u' && ExtraLost(w, path, u, u') && Harmless(w, path, u')
    ensures LooseKids(w, n, path, ox, oy, on, u') == WalkKids(w, n, path, ox, oy, on, u)
    decreases w, n
  {
    hide ExtraLost, LooseUniverse, ChildUniverse, ChildRing, Stray, HitTest;
    if n > 0 {
      var i := n - 1;
      var c := w.children[i];
      HarmlessSameKids(w, i, path, ox, oy, on, u, u');
      if c.viewable {
        KidExtraLost(w, i, path, u, u');
        SameRing(w, i, path, u, u');
        UniverseGrows(w.children, i, u, u');
        HarmlessSameWalk(c, path + [i], ox + c.x + c.bw, oy + c.y + c.bw, on && c.redirect == NotRedirected,
                         ChildUniverse(w.children, i, u), LooseUniverse(w.children, i, u'),
                         ChildRing(w.children, i, u));
      }
      assert LooseKid(w, i, path, ox, oy, on, u') == WalkKid(w, i, path, ox, oy, on, u);
    }
  }

  lemma {:induction false} SameWalkHarmless(w: Window, path: seq<nat>, ox: int, oy: int, on: bool, u: iset<Pt>,
                                            u': iset<Pt>, ring: iset<Pt>)
    requires w.viewable && u <= u'
    requires LooseWalk(w, path, ox, oy, on, u', ring) == Walk(w, path, ox, oy, on, u, ring)
    ensures ExtraLost(w, path, u, u') && Harmless(w, path, u')
    decreases w
  {
    hide ExtraLost, LooseUniverse, ChildUniverse, ChildRing, Stray, HitTest, ClipOf;
    var s, s' := Walk(w, path, ox, oy, on, u, ring), LooseWalk(w, path, ox, oy, on, u', ring);
    assert s'[0].clip == s[0].clip;
    assert LooseKids(w, |w.children|, path, ox, oy, on, u') == s'[1..];
    assert WalkKids(w, |w.children|, path, ox, oy, on, u) == s[1..];
    forall i | 0 <= i < |w.children| && w.children[i].viewable
      ensures KidSame(w, i, path, u, u')
    {
      var c := w.children[i];
      KidsEqualKidEqual(w, |w.children|, i, path, ox, oy, on, u, u');
      HeadRing(w, i, path, ox, oy, on, u, u');
      UniverseGrows(w.children, i, u, u');
      SameWalkHarmless(c, path + [i], ox + c.x + c.bw, oy + c.y + c.bw, on && c.redirect == NotRedirected,
                       ChildUniverse(w.children, i, u), LooseUniverse(w.children, i, u'),
                       ChildRing(w.children, i, u));
    }
    AllExtraLost(w, path, u, u');
    forall i, p | 0 <= i < |w.children| && w.children[i].viewable && Stray(w.children, i, u', p)
      ensures HitTest(w.children[i], path + [i], p).Lost?
    {
      assert KidSame(w, i, path, u, u');
      StrayIsExtra(w, i, path, u, u', p);
    }
  }

  /** Child i shows the same either way. */
  ghost predicate KidSame(w: Window, i: nat, path: seq<nat>, u: iset<Pt>, u': iset<Pt>)
    requires i < |w.children|
  {
    && ExtraLost(w.children[i], path + [i], ChildUniverse(w.children, i, u), LooseUniverse(w.children, i, u'))
    && Harmless(w.children[i], path + [i], LooseUniverse(w.children, i, u'))
    && ChildRing(w.children, i, u') == ChildRing(w.children, i, u)
  }

  lemma HeadRing(w: Window, i: nat, path: seq<nat>, ox: int, oy: int, on: bool, u: iset<Pt>, u': iset<Pt>)
    requires i < |w.children| && w.children[i].viewable
    requires LooseKid(w, i, path, ox, oy, on, u') == WalkKid(w, i, path, ox, oy, on, u)
    ensures ChildRing(w.children, i, u') == ChildRing(w.children, i, u)
  {
    hide ChildRing, LooseUniverse, ChildUniverse, ClipOf;
    assert LooseKid(w, i, path, ox, oy, on, u')[0].ring == ChildRing(w.children, i, u');
    assert WalkKid(w, i, path, ox, oy, on, u)[0].ring == ChildRing(w.children, i, u);
  }

  lemma StrayIsExtra(w: Window, i: nat, path: seq<nat>, u: iset<Pt>, u': iset<Pt>, p: Pt)
    requires i < |w.children| && Stray(w.children, i, u', p)
    requires ExtraLost(w.children[i], path + [i], ChildUniverse(w.children, i, u), LooseUniverse(w.children, i, u'))
    ensures HitTest(w.children[i], path + [i], p).Lost?
  {
    hide HitTest, Clear;
    assert p in LooseUniverse(w.children, i, u') && p !in ChildUniverse(w.children, i, u);
  }

  /** If window and children show the same, the hit test loses every extra pixel. */
  lemma AllExtraLost(w: Window, path: seq<nat>, u: iset<Pt>, u': iset<Pt>)
    requires u <= u' && ClipOf(w, u') == ClipOf(w, u)
    requires forall i :: 0 <= i < |w.children| && w.children[i].viewable ==> KidSame(w, i, path, u, u')
    ensures ExtraLost(w, path, u, u')
  {
    var n := |w.children|;
    forall t | t in u' && t !in u ensures HitTest(w, path, t).Lost? {
      assert t !in ClipOf(w, u);
      var j := TopMost(w.children, n, t);
      HitDecided(w, n, j, path, t);
      assert KidSame(w, j, path, u, u');
      ExtraUnderKid(w, j, path, u, u', t);
    }
  }

  lemma ExtraUnderKid(w: Window, j: nat, path: seq<nat>, u: iset<Pt>, u': iset<Pt>, t: Pt)
    requires j < |w.children| && Hides(w.children[j], t) && Clear(w.children, j + 1, |w.children|, t)
    requires t in u' && t !in u && KidSame(w, j, path, u, u')
    ensures HitChild(w, j, path, t).Lost?
  {
    hide Clear, InSize, HitTest, Harmless;
    var c := w.children[j];
    var p := Into(c, t);
    assert OutOf(c, p) == t;
    if c.redirect == NotRedirected {
      assert p !in ChildRing(w.children, j, u) && p !in ChildUniverse(w.children, j, u);
      assert p !in ChildRing(w.children, j, u');
      if InWin(c, p) { assert p in LooseUniverse(w.children, j, u'); }
    }
  }

  /** Exactly when the oracle's walk shows what the walk shows, for every tree: when the hit test
      below every stray pixel loses it. */
  lemma WalksEqualIff(w: Window, path: seq<nat>, ox: int, oy: int, on: bool, u: iset<Pt>, ring: iset<Pt>)
    requires w.viewable
    ensures LooseWalk(w, path, ox, oy, on, u, ring) == Walk(w, path, ox, oy, on, u, ring) <==> Harmless(w, path, u)
  {
    hide LooseWalk, Walk, Harmless, HitTest;
    if Harmless(w, path, u) { HarmlessSameWalk(w, path, ox, oy, on, u, u, ring); }
    if LooseWalk(w, path, ox, oy, on, u, ring) == Walk(w, path, ox, oy, on, u, ring) {
      SameWalkHarmless(w, path, ox, oy, on, u, u, ring);
    }
  }

  lemma NoStrayHarmless(w: Window, path: seq<nat>, u: iset<Pt>)
    requires w.viewable && NoStray(w, u)
    ensures Harmless(w, path, u)
  {
    hide LooseWalk, Walk, Harmless, NoStray, HitTest;
    NoStraySameWalk(w, path, 0, 0, true, u, iset{});
    WalksEqualIff(w, path, 0, 0, true, u, iset{});
  }

  /** In a tree that loses no pixel, only trees without stray pixels are harmless. */
  lemma {:induction false} PlainHarmlessIff(w: Window, path: seq<nat>, u: iset<Pt>)
    requires w.viewable && Plain(w)
    ensures Harmless(w, path, u) <==> NoStray(w, u)
    decreases w
  {
    hide ChildUniverse, LooseUniverse, Stray;
    forall i | 0 <= i < |w.children| && w.children[i].viewable
      ensures (forall p :: Stray(w.children, i, u, p) ==> HitTest(w.children[i], path + [i], p).Lost?)
        <==> !HasStray(w.children, i, u)
      ensures !HasStray(w.children, i, u) ==>
          LooseUniverse(w.children, i, u) == ChildUniverse(w.children, i, u)
          && (Harmless(w.children[i], path + [i], ChildUniverse(w.children, i, u))
              <==> NoStray(w.children[i], ChildUniverse(w.children, i, u)))
    {
      var c := w.children[i];
      assert PlainChild(c) && Plain(c);
      forall p ensures !HitTest(c, path + [i], p).Lost? { PlainNeverLost(c, |c.children|, path + [i], p); }
      UniversesEqual(w.children, i, u);
      PlainHarmlessIff(c, path + [i], ChildUniverse(w.children, i, u));
    }
  }

  // ------------------------------------------------------- one window at a time

  /** The universe of the window at a path, from the root's down: the oracle's way. */
  ghost function LooseAt(root: Window, u: iset<Pt>, path: seq<nat>): iset<Pt>
    requires InTree(root, path)
    decreases |path|
  {
    if path == [] then u
    else
      var up, i := path[..|path| - 1], path[|path| - 1];
      var children := WindowAt(root, up).children;
      if children[i].viewable then LooseUniverse(children, i, LooseAt(root, u, up)) else iset{}
  }

  /** The same, as the walk hands it down. */
  ghost function StrictAt(root: Window, u: iset<Pt>, path: seq<nat>): iset<Pt>
    requires InTree(root, path)
    decreases |path|
  {
    if path == [] then u
    else
      var up, i := path[..|path| - 1], path[|path| - 1];
      var children := WindowAt(root, up).children;
      if children[i].viewable then ChildUniverse(children, i, StrictAt(root, u, up)) else iset{}
  }

  /** The pixels that stray somewhere on the path: outside the window's own outer rectangle, or
      already in the parent. */
  ghost function StraysAt(root: Window, u: iset<Pt>, path: seq<nat>): iset<Pt>
    requires InTree(root, path)
    decreases |path|
  {
    if path == [] then iset{}
    else
      var up, i := path[..|path| - 1], path[|path| - 1];
      var c := WindowAt(root, up).children[i];
      iset p | p in LooseAt(root, u, path) && c.redirect == NotRedirected
        && (OutOf(c, p) in StraysAt(root, u, up) || !InOuter(c, OutOf(c, p)))
  }

  /** The two universes differ by exactly the stray pixels. */
  lemma {:induction false} LooseIsStrictAndStrays(root: Window, u: iset<Pt>, path: seq<nat>)
    requires InTree(root, path)
    ensures LooseAt(root, u, path) == StrictAt(root, u, path) + StraysAt(root, u, path)
    ensures StrictAt(root, u, path) !! StraysAt(root, u, path)
    decreases |path|
  {
    if path != [] {
      var up, i := path[..|path| - 1], path[|path| - 1];
      LooseIsStrictAndStrays(root, u, up);
      var children := WindowAt(root, up).children;
      var above, strict, strays := LooseAt(root, u, up), StrictAt(root, u, up), StraysAt(root, u, up);
      forall p
        ensures p in LooseAt(root, u, path) <==> p in StrictAt(root, u, path) || p in StraysAt(root, u, path)
        ensures !(p in StrictAt(root, u, path) && p in StraysAt(root, u, path))
      {
        StraySplit(children, i, above, strict, strays, p);
      }
    }
  }

  lemma StraySplit(children: seq<Window>, i: nat, u': iset<Pt>, u: iset<Pt>, strays: iset<Pt>, p: Pt)
    requires i < |children| && u' == u + strays && u !! strays
    ensures var c := children[i];
      var stray := p in LooseUniverse(children, i, u') && c.redirect == NotRedirected
        && (OutOf(c, p) in strays || !InOuter(c, OutOf(c, p)));
      && (p in LooseUniverse(children, i, u') <==> p in ChildUniverse(children, i, u) || stray)
      && !(p in ChildUniverse(children, i, u) && stray)
  {
    hide Clear, InShape, InOuter;
    assert Into(children[i], OutOf(children[i], p)) == p;
  }

  /** The window and all above it are viewable. */
  predicate ShownDown(root: Window, path: seq<nat>)
    requires InTree(root, path)
    decreases |path|
  {
    WindowAt(root, path).viewable && (path != [] ==> ShownDown(root, path[..|path| - 1]))
  }

  lemma {:induction false} KidInKids(w: Window, n: nat, i: nat, path: seq<nat>, ox: int, oy: int, on: bool, u: iset<Pt>)
    requires i < n <= |w.children|
    ensures forall e :: e in WalkKid(w, i, path, ox, oy, on, u) ==> e in WalkKids(w, n, path, ox, oy, on, u)
    decreases n
  {
    hide WalkKid;
    if i < n - 1 { KidInKids(w, n - 1, i, path, ox, oy, on, u); }
  }

  /** The walk of the window at a path is part of the walk of the root. */
  lemma {:induction false} WalkAt(root: Window, u: iset<Pt>, ring: iset<Pt>, path: seq<nat>)
    returns (ox: int, oy: int, on: bool, r: iset<Pt>)
    requires InTree(root, path) && ShownDown(root, path)
    ensures forall e :: e in Walk(WindowAt(root, path), path, ox, oy, on, StrictAt(root, u, path), r) ==>
        e in Walk(root, [], 0, 0, true, u, ring)
    decreases |path|
  {
    if path == [] {
      ox, oy, on, r := 0, 0, true, ring;
    } else {
      hide ChildUniverse, ChildRing, ClipOf;
      var up, i := path[..|path| - 1], path[|path| - 1];
      var w, v := WindowAt(root, up), StrictAt(root, u, up);
      var c := w.children[i];
      var ox0, oy0, on0, r0 := WalkAt(root, u, ring, up);
      KidInKids(w, |w.children|, i, up, ox0, oy0, on0, v);
      assert path == up + [i];
      ox, oy, on := ox0 + c.x + c.bw, oy0 + c.y + c.bw, on0 && c.redirect == NotRedirected;
      r := ChildRing(w.children, i, v);
      assert Walk(c, path, ox, oy, on, ChildUniverse(w.children, i, v), r) == WalkKid(w, i, up, ox0, oy0, on0, v);
    }
  }

  /** A window's clip list asked for alone is its entry in the walk and the stray pixels no child
      covers: the two are equal iff there are none. */
  lemma AloneVersusWalk(root: Window, u: iset<Pt>, ring: iset<Pt>, path: seq<nat>) returns (e: Shown)
    requires InTree(root, path) && ShownDown(root, path)
    ensures var w := WindowAt(root, path);
      var alone, strays := ClipOf(w, LooseAt(root, u, path)), ClipOf(w, StraysAt(root, u, path));
      && e in Walk(root, [], 0, 0, true, u, ring) && e.path == path && e.id == w.id
      && alone == e.clip + strays && e.clip !! strays
      && (alone == e.clip <==> strays == iset{})
  {
    hide LooseAt, StrictAt, StraysAt, ShownDown;
    var w := WindowAt(root, path);
    LooseIsStrictAndStrays(root, u, path);
    var ox, oy, on, r := WalkAt(root, u, ring, path);
    TopViewable(root, path);
    e := Shown(path, w.id, ox, oy, on, ClipOf(w, StrictAt(root, u, path)), r);
    assert e == Walk(w, path, ox, oy, on, StrictAt(root, u, path), r)[0];
    assert ClipOf(w, LooseAt(root, u, path)) == e.clip + ClipOf(w, StraysAt(root, u, path));
  }

  lemma TopViewable(root: Window, path: seq<nat>)
    requires InTree(root, path) && ShownDown(root, path)
    ensures WindowAt(root, path).viewable
  {
  }

  /** Nothing else is listed: an entry is that of a window which is viewable with all above it. */
  lemma {:induction false} OnlyShownListed(root: Window, w: Window, path: seq<nat>, ox: int, oy: int, on: bool,
                                           u: iset<Pt>, ring: iset<Pt>, e: Shown)
    requires InTree(root, path) && WindowAt(root, path) == w && (path != [] ==> ShownDown(root, path[..|path| - 1]))
    requires e in Walk(w, path, ox, oy, on, u, ring)
    ensures InTree(root, e.path) && ShownDown(root, e.path) && e.id == WindowAt(root, e.path).id
    decreases w, |w.children| + 1
  {
    hide ClipOf;
    var top := Shown(path, w.id, ox, oy, on, ClipOf(w, u), ring);
    if e != top {
      OnlyKidsListed(root, w, |w.children|, path, ox, oy, on, u, e);
    }
  }

  lemma {:induction false} OnlyKidsListed(root: Window, w: Window, n: nat, path: seq<nat>, ox: int, oy: int, on: bool,
                                          u: iset<Pt>, e: Shown)
    requires InTree(root, path) && WindowAt(root, path) == w && ShownDown(root, path) && n <= |w.children|
    requires e in WalkKids(w, n, path, ox, oy, on, u)
    ensures InTree(root, e.path) && ShownDown(root, e.path) && e.id == WindowAt(root, e.path).id
    decreases w, n
  {
    hide ChildUniverse, ChildRing;
    if e in WalkKid(w, n - 1, path, ox, oy, on, u) {
      var c, down := w.children[n - 1], path + [n - 1];
      assert down[..|down| - 1] == path;
      OnlyShownListed(root, c, down, ox + c.x + c.bw, oy + c.y + c.bw, on && c.redirect == NotRedirected,
                      ChildUniverse(w.children, n - 1, u), ChildRing(w.children, n - 1, u), e);
    } else {
      OnlyKidsListed(root, w, n - 1, path, ox, oy, on, u, e);
    }
  }
}
