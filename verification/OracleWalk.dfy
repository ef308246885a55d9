/** The oracle's walk over a whole tree (crates/yserver-core/src/core_loop/clip_list/oracle.rs), and
    exactly when it gives what the single pass gives. */
module OracleWalk {
  import opened Plane
  import opened Boxes
  import opened Regions
  import opened RegionAlgebra
  import opened WindowTree
  import opened ShapeCuts
  import opened ClipList
  import opened WireRegions
  import opened OracleSets
  import opened ClipOracle

  datatype RectEntry = RectEntry(id: int, clip: seq<WireRect>, ring: seq<WireRect>)

  /** The ring of the window at a path; the top of the walk has none. */
  ghost function RingAt(root: Window, v: seq<WireRect>, path: seq<nat>): seq<WireRect>
    requires InTree(root, path)
  {
    if path == [] then []
    else
      var up := path[..|path| - 1];
      RingRects(WindowAt(root, up).children, path[|path| - 1], UniverseAt(root, v, up))
  }

  /** `w` is the window at `path`. */
  predicate Stands(root: Window, path: seq<nat>, w: Window) { InTree(root, path) && WindowAt(root, path) == w }

  lemma ChildStands(root: Window, v: seq<WireRect>, path: seq<nat>, w: Window, i: nat)
    requires Stands(root, path, w) && i < |w.children|
    ensures Stands(root, path + [i], w.children[i])
    ensures UniverseAt(root, v, path + [i]) == UniverseRects(w.children, i, UniverseAt(root, v, path))
    ensures RingAt(root, v, path + [i]) == RingRects(w.children, i, UniverseAt(root, v, path))
  {
    hide UniverseRects, RingRects;
    var p := path + [i];
    assert p[..|p| - 1] == path && p[|p| - 1] == i;
  }

  /** What the walk returns, for every tree. */
  ghost function WalkRects(w: Window, v: seq<WireRect>, ring: seq<WireRect>): seq<RectEntry>
    decreases w, |w.children| + 1
  {
    if !w.viewable then []
    else [RectEntry(w.id, UncoveredRects(w.children, 0, |w.children|, v), ring)] + KidsRects(w, |w.children|, v)
  }

  ghost function KidsRects(w: Window, n: nat, v: seq<WireRect>): seq<RectEntry>
    requires n <= |w.children|
    decreases w, n
  {
    if n == 0 then []
    else
      WalkRects(w.children[n - 1], UniverseRects(w.children, n - 1, v), RingRects(w.children, n - 1, v))
        + KidsRects(w, n - 1, v)
  }

  /** No coordinate on the whole walk leaves 16 bits. */
  ghost predicate WalkExact(w: Window, v: seq<WireRect>) {
    && UncoveredExact(w.children, 0, v)
    && forall i :: 0 <= i < |w.children| && w.children[i].viewable ==>
        KidExact(w.children, i, v) && WalkExact(w.children[i], UniverseRects(w.children, i, v))
  }

  ghost predicate KidExact(children: seq<Window>, i: nat, v: seq<WireRect>)
    requires i < |children|
  {
    UniverseExact(children, i, v) && RingExact(children, i, v)
  }

  predicate SizedTree(w: Window) {
    forall i :: 0 <= i < |w.children| ==> Sized(w.children[i]) && SizedTree(w.children[i])
  }

  ghost predicate Matches(out: seq<RectEntry>, s: seq<Shown>) {
    |out| == |s| && forall k :: 0 <= k < |out| ==> MatchEntry(out[k], s[k])
  }

  ghost predicate MatchEntry(e: RectEntry, s: Shown) {
    e.id == s.id && WireCells(e.clip) == s.clip && WireCells(e.ring) == s.ring
  }

  ghost predicate AllFormed(out: seq<RectEntry>) {
    forall k :: 0 <= k < |out| ==> Formed(out[k].clip) && Formed(out[k].ring)
  }

  lemma MatchesConcat(a: seq<RectEntry>, s: seq<Shown>, b: seq<RectEntry>, t: seq<Shown>)
    requires Matches(a, s) && Matches(b, t)
    ensures Matches(a + b, s + t)
  {
    hide MatchEntry;
  }

  lemma FormedConcat(a: seq<RectEntry>, b: seq<RectEntry>)
    requires AllFormed(a) && AllFormed(b)
    ensures AllFormed(a + b)
  {
    hide Formed;
  }

  /** `walk` with the rings of `with_borders`: for every tree the rectangles of `WalkRects`; if no
      coordinate leaves 16 bits, the pixels of the declarative walk. */
  method Walked(root: Window, v0: seq<WireRect>, w: Window, path: seq<nat>, v: seq<WireRect>, ring: seq<WireRect>,
                ghost ox: int, ghost oy: int, ghost on: bool)
    returns (out: seq<RectEntry>)
    requires Stands(root, path, w) && v == UniverseAt(root, v0, path) && ring == RingAt(root, v0, path)
        && Banding(root) && Banding(w)
    ensures out == WalkRects(w, v, ring)
    ensures WalkExact(w, v) ==> Matches(out, LooseWalk(w, path, ox, oy, on, WireCells(v), WireCells(ring)))
    ensures WalkExact(w, v) && SizedTree(w) && Formed(v) && Formed(ring) ==> AllFormed(out)
    decreases w, |w.children| + 1
  {
    hide Stands, UniverseAt, RingAt, UncoveredRects, UncoveredExact, KidsRects, LooseKids, Formed, Banding,
         KidExact, ClipOf, WireCells;
    if !w.viewable {
      return [];
    }
    BandingShapes(w);
    var clip := OracleClip(w, v);
    var more := WalkedKids(root, v0, w, |w.children|, path, v, ox, oy, on);
    out := [RectEntry(w.id, clip, ring)] + more;
    if WalkExact(w, v) {
      ghost var first := Shown(path, w.id, ox, oy, on, ClipOf(w, WireCells(v)), WireCells(ring));
      MatchesConcat([RectEntry(w.id, clip, ring)], [first], more, LooseKids(w, |w.children|, path, ox, oy, on,
                    WireCells(v)));
    }
  }

  /** The children from the top-most down, each with its own universe and ring. */
  method WalkedKids(root: Window, v0: seq<WireRect>, w: Window, n: nat, path: seq<nat>, v: seq<WireRect>,
                    ghost ox: int, ghost oy: int, ghost on: bool)
    returns (out: seq<RectEntry>)
    requires Stands(root, path, w) && v == UniverseAt(root, v0, path) && Banding(root) && Banding(w)
        && n <= |w.children|
    ensures out == KidsRects(w, n, v)
    ensures WalkExact(w, v) ==> Matches(out, LooseKids(w, n, path, ox, oy, on, WireCells(v)))
    ensures WalkExact(w, v) && SizedTree(w) ==> AllFormed(out)
    decreases w, n
  {
    hide Stands, UniverseAt, RingAt, UncoveredRects, UncoveredExact, UniverseRects, RingRects, Formed, Banding,
         KidExact, WireCells, LooseUniverse, ChildRing;
    out := [];
    if n > 0 {
      var i := n - 1;
      var c := w.children[i];
      ghost var cx, cy, con := ox + c.x + c.bw, oy + c.y + c.bw, on && c.redirect == NotRedirected;
      BandingShapes(w);
      ChildStands(root, v0, path, w, i);
      var kid, ring := Share(root, v0, w, path, v, i);
      var more := Walked(root, v0, c, path + [i], kid, ring, cx, cy, con);
      var rest := WalkedKids(root, v0, w, i, path, v, ox, oy, on);
      out := more + rest;
      if WalkExact(w, v) {
        assert Matches(more, LooseKid(w, i, path, ox, oy, on, WireCells(v))) by {
          if c.viewable { assert KidExact(w.children, i, v); }
        }
        MatchesConcat(more, LooseKid(w, i, path, ox, oy, on, WireCells(v)), rest, LooseKids(w, i, path, ox, oy,
                      on, WireCells(v)));
        if SizedTree(w) {
          assert AllFormed(more) by {
            if c.viewable { assert KidExact(w.children, i, v); }
          }
          FormedConcat(more, rest);
        }
      }
    }
  }

  /** A child's universe from its parent's, and its ring from the root. */
  method Share(root: Window, v0: seq<WireRect>, w: Window, path: seq<nat>, v: seq<WireRect>, i: nat)
    returns (kid: seq<WireRect>, ring: seq<WireRect>)
    requires Stands(root, path, w) && v == UniverseAt(root, v0, path) && Banding(root) && Banding(w) && i < |w.children|
    ensures Stands(root, path + [i], w.children[i])
    ensures kid == UniverseRects(w.children, i, v)
        && ring == RingRects(w.children, i, v) == RingAt(root, v0, path + [i])
    ensures w.children[i].viewable && KidExact(w.children, i, v) ==>
        && WireCells(kid) == LooseUniverse(w.children, i, WireCells(v))
        && WireCells(ring) == ChildRing(w.children, i, WireCells(v))
        && Formed(ring) && (Sized(w.children[i]) ==> Formed(kid))
  {
    hide UniverseRects, RingRects, RingExact, UniverseExact, LooseUniverse, ChildRing, Formed, WireCells;
    BandingShapes(w);
    ChildStands(root, v0, path, w, i);
    kid := OracleUniverse(w.children, i, v);
    var p := path + [i];
    assert p[..|p| - 1] == path && p[|p| - 1] == i;
    ring := OracleRing(root, v0, p);
  }

  // ------------------------------------------------------- against the single pass

  /** The two walks list the same windows at the same places. */
  lemma {:induction false} SameFrame(w: Window, path: seq<nat>, ox: int, oy: int, on: bool, u: iset<Pt>,
                                     ring: iset<Pt>, u': iset<Pt>, ring': iset<Pt>)
    ensures Framed(LooseWalk(w, path, ox, oy, on, u, ring), Walk(w, path, ox, oy, on, u', ring'))
    decreases w, |w.children| + 1
  {
    KidsSameFrame(w, |w.children|, path, ox, oy, on, u, u');
  }

  lemma {:induction false} KidsSameFrame(w: Window, n: nat, path: seq<nat>, ox: int, oy: int, on: bool,
                                         u: iset<Pt>, u': iset<Pt>)
    requires n <= |w.children|
    ensures Framed(LooseKids(w, n, path, ox, oy, on, u), WalkKids(w, n, path, ox, oy, on, u'))
    decreases w, n
  {
    if n > 0 {
      var c := w.children[n - 1];
      KidsSameFrame(w, n - 1, path, ox, oy, on, u, u');
      SameFrame(c, path + [n - 1], ox + c.x + c.bw, oy + c.y + c.bw, on && c.redirect == NotRedirected,
                LooseUniverse(w.children, n - 1, u), ChildRing(w.children, n - 1, u),
                ChildUniverse(w.children, n - 1, u'), ChildRing(w.children, n - 1, u'));
    }
  }

  ghost predicate Framed(s: seq<Shown>, t: seq<Shown>) {
    |s| == |t| && forall k :: 0 <= k < |s| ==> t[k] == s[k].(clip := t[k].clip, ring := t[k].ring)
  }

  /** Window by window the same pixels, of the clip lists and of the rings. */
  ghost predicate SamePixels(fast: seq<ClipEntry>, slow: seq<RectEntry>) {
    |fast| == |slow| && forall k :: 0 <= k < |fast| ==> SameEntry(fast[k], slow[k])
  }

  ghost predicate SameEntry(e: ClipEntry, f: RectEntry) {
    e.id == f.id && Cells(e.clip) == WireCells(f.clip) && Cells(e.ring) == WireCells(f.ring)
  }

  lemma SamePixelsIff(fast: seq<ClipEntry>, t: seq<Shown>, slow: seq<RectEntry>, s: seq<Shown>)
    requires Refines(fast, t, true) && Matches(slow, s) && Framed(s, t)
    ensures SamePixels(fast, slow) <==> s == t
  {
    hide Cells, WireCells, Banded;
    assert forall k :: 0 <= k < |fast| ==> RightEntry(fast[k], t[k], true) && MatchEntry(slow[k], s[k]);
    if SamePixels(fast, slow) {
      forall k | 0 <= k < |s| ensures s[k] == t[k] { assert SameEntry(fast[k], slow[k]); }
    }
  }

  /** What the single pass sends: its regions as rectangles. */
  function Sent(fast: seq<ClipEntry>): (r: seq<RectEntry>)
    ensures |r| == |fast| && forall k :: 0 <= k < |r| ==>
        r[k] == RectEntry(fast[k].id, ToRects(fast[k].clip), ToRects(fast[k].ring))
  {
    seq(|fast|, k requires 0 <= k < |fast| => RectEntry(fast[k].id, ToRects(fast[k].clip), ToRects(fast[k].ring)))
  }

  /** A box that goes to the wire as it is can be read back. */
  lemma SameBoxes(r: seq<Box>, s: seq<Box>)
    requires AllOnWire(r) && AllOnWire(s) && Banded(r) && Banded(s) && ToRects(r) == ToRects(s)
    ensures r == s
  {
    forall k | 0 <= k < |r| ensures |r| == |s| && r[k] == s[k] {
      assert ToRects(r)[k] == ToRects(s)[k];
      assert OnWire(r[k]) && OnWire(s[k]) && NonEmpty(r[k]) && NonEmpty(s[k]);
    }
  }

  /** A list of the oracle's with the pixels of a banded region is that region, sent, iff the region
      is canonical. */
  lemma FormedSent(r: seq<Box>, a: seq<WireRect>)
    requires Banded(r) && Formed(a) && Cells(r) == WireCells(a)
    ensures a == ToRects(r) <==> Canonical(r)
  {
    hide Cells, WireCells, Canonical, Banded, AllOnWire, ToRects;
    if Canonical(r) { CanonIs(r, Cells(r)); }
    if a == ToRects(r) {
      WireExact(r);
      if exists c :: IsCanon(c, WireCells(a)) {
        var c :| IsCanon(c, WireCells(a));
        CanonIs(c, WireCells(a));
        CanonicalBands(c);
        WireExact(c);
        SameBoxes(c, r);
      } else {
        NothingSent(r, a);
      }
    }
  }

  lemma NothingSent(r: seq<Box>, a: seq<WireRect>)
    requires Banded(r) && a == ToRects(r) && a == ToRects([])
    ensures Canonical(r)
  {
    assert |a| == 0 && r == [];
    NothingCanonical();
  }

  /** Where the pixels agree, the rectangles do iff the single pass's are canonical. */
  lemma SameRectsIff(fast: seq<ClipEntry>, s: seq<Shown>, slow: seq<RectEntry>)
    requires Refines(fast, s, true) && SamePixels(fast, slow) && AllFormed(slow)
    ensures slow == Sent(fast) <==> AllCanonicalEntries(fast)
  {
    hide Cells, WireCells, Canonical, Banded, Formed, ToRects;
    forall k | 0 <= k < |fast|
      ensures slow[k] == Sent(fast)[k] <==> Canonical(fast[k].clip) && Canonical(fast[k].ring)
    {
      assert SameEntry(fast[k], slow[k]) && RightEntry(fast[k], s[k], true);
      FormedSent(fast[k].clip, slow[k].clip);
      FormedSent(fast[k].ring, slow[k].ring);
    }
  }

  /** The single pass and the oracle over one tree. While no coordinate leaves 16 bits: they show the
      same pixels iff every stray pixel is lost, and then the same rectangles iff no shape cuts what
      shows. */
  method SinglePassVersusOracle(w: Window, universe: seq<Box>) returns (fast: seq<ClipEntry>, slow: seq<RectEntry>)
    requires w.viewable && Banding(w) && Canonical(universe) && AllOnWire(universe)
    ensures Refines(fast, Walk(w, [], 0, 0, true, Cells(universe), iset{}), true)
    ensures slow == WalkRects(w, ToRects(universe), [])
    ensures WalkExact(w, ToRects(universe)) ==> (SamePixels(fast, slow) <==> Harmless(w, [], Cells(universe)))
    ensures WalkExact(w, ToRects(universe)) && SizedTree(w) ==>
        (SamePixels(fast, slow) && slow == Sent(fast) <==>
          Harmless(w, [], Cells(universe)) && NoCuts(w, Cells(universe), iset{}, iset{}, true))
  {
    hide In, Canonical, Cells, WireCells, Walk, LooseWalk, Banded, Harmless, NoCuts, WalkExact, Banding, SamePixels,
         Formed, AllOnWire, Seam, Merged, HitTest;
    var v := ToRects(universe);
    NothingCanonical();
    CanonicalBands(universe);
    FormedRegion(universe);
    NothingFormed();
    NothingShownAt();
    NoSeams(universe);
    fast := WalkWindow(w, universe, [], true, [], 0, 0, true);
    slow := Walked(w, v, w, [], v, [], 0, 0, true);
    ghost var u := Cells(universe);
    ghost var s, t := LooseWalk(w, [], 0, 0, true, u, iset{}), Walk(w, [], 0, 0, true, u, iset{});
    if WalkExact(w, v) {
      SameFrame(w, [], 0, 0, true, u, iset{}, u, iset{});
      SamePixelsIff(fast, t, slow, s);
      WalksEqualIff(w, [], 0, 0, true, u, iset{});
      if SamePixels(fast, slow) && SizedTree(w) { SameRectsIff(fast, t, slow); }
    }
  }

  lemma NoSeams(r: seq<Box>)
    requires forall x, y :: !Seam(r, x, y)
    ensures Seams(r) == iset{} == Seams([])
  {
  }

  lemma NothingShownAt()
    ensures Cells([]) == iset{} && WireCells([]) == iset{}
  {
    NothingCanonical();
    NoRects();
  }
}
