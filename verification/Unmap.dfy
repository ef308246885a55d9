/** What unmapping a window exposes (crates/yserver-core/src/core_loop/clip_list.rs,
    `clip_entries_under`): only the siblings under it that meet its `borderSize` are looked at, and
    that is enough. */
module Unmap {
  import opened Plane
  import opened Boxes
  import opened Regions
  import opened RegionAlgebra
  import opened WindowTree
  import opened ShapeCuts
  import opened ClipList
  import opened TreeChange

  /** The children once child `at` is unmapped. */
  function Without(children: seq<Window>, at: nat): (s: seq<Window>)
    requires at < |children|
    ensures |s| == |children| && !s[at].viewable && forall i :: 0 <= i < |s| && i != at ==> s[i] == children[i]
  {
    children[at := children[at].(viewable := false)]
  }

  /** Child i is under child `at` and shares a pixel of its size. */
  ghost predicate Under(children: seq<Window>, at: nat, i: nat)
    requires at < |children| && i < |children|
  {
    i < at && exists q :: InSize(children[i], q) && InSize(children[at], q)
  }

  /** `sel` leaves out no window the change reaches. */
  ghost predicate Covering(children: seq<Window>, at: nat, sel: seq<bool>)
    requires at < |children| == |sel|
  {
    forall i :: 0 <= i < |children| && children[i].viewable && Under(children, at, i) ==> sel[i]
  }

  /** A window that is not under the one unmapped shows what it showed. */
  lemma NotUnderUnmoved(children: seq<Window>, at: nat, i: nat, u: iset<Pt>)
    requires at < |children| && i < |children| && i != at && !Under(children, at, i)
    ensures Block(Without(children, at), i, u) == Block(children, i, u)
  {
    hide InSize, Block;
    var a := Without(children, at);
    forall q | InSize(children[i], q) ensures Clear(children, i + 1, |children|, q) <==> Clear(a, i + 1, |a|, q) {
      forall j | i + 1 <= j < |a| ensures Hides(children[j], q) <==> Hides(a[j], q) {
      }
    }
    SameShare(children, i, a, i, u);
  }

  /** A walk lists the same windows whatever shows of them. */
  lemma {:induction false} SameIds(w: Window, path: seq<nat>, ox: int, oy: int, on: bool, u: iset<Pt>,
                                   ring: iset<Pt>, u': iset<Pt>, ring': iset<Pt>)
    ensures IdsAgree(Strip(Walk(w, path, ox, oy, on, u, ring)), Strip(Walk(w, path, ox, oy, on, u', ring')))
    decreases w, |w.children| + 1
  {
    KidsSameIds(w, |w.children|, path, ox, oy, on, u, u');
  }

  lemma {:induction false} KidsSameIds(w: Window, n: nat, path: seq<nat>, ox: int, oy: int, on: bool,
                                       u: iset<Pt>, u': iset<Pt>)
    requires n <= |w.children|
    ensures IdsAgree(Strip(WalkKids(w, n, path, ox, oy, on, u)), Strip(WalkKids(w, n, path, ox, oy, on, u')))
    decreases w, n
  {
    hide ChildUniverse, ChildRing, Walk, Strip;
    if n > 0 {
      var c := w.children[n - 1];
      KidsSameIds(w, n - 1, path, ox, oy, on, u, u');
      SameIds(c, path + [n - 1], ox + c.x + c.bw, oy + c.y + c.bw, on && c.redirect == NotRedirected,
              ChildUniverse(w.children, n - 1, u), ChildRing(w.children, n - 1, u),
              ChildUniverse(w.children, n - 1, u'), ChildRing(w.children, n - 1, u'));
      StripKids(w, n, path, ox, oy, on, u);
      StripKids(w, n, path, ox, oy, on, u');
    }
  }

  predicate IdsAgree(s: seq<Seen>, t: seq<Seen>) {
    |s| == |t| && forall k :: 0 <= k < |s| ==> s[k].id == t[k].id
  }

  lemma BlockIds(children: seq<Window>, at: nat, i: nat, u: iset<Pt>)
    requires at < |children| && i < |children| && i != at
    ensures IdsAgree(Block(Without(children, at), i, u), Block(children, i, u))
  {
    var a, c := Without(children, at), children[i];
    SameIds(c, [], 0, 0, true, ChildUniverse(a, i, u), ChildRing(a, i, u), ChildUniverse(children, i, u),
            ChildRing(children, i, u));
  }

  /** The old entries of a selected window are found among the selected ones. */
  lemma SelectedFound(parent: Seen, b: seq<Window>, sel: seq<bool>, u: iset<Pt>, i: nat, k: nat)
    requires i < |b| == |sel| && sel[i] && k < |Block(b, i, u)| && DistinctIds(Layer(parent, b, AllOf(|b|), u))
    ensures var id := Block(b, i, u)[k].id;
      Find(Layer(parent, b, sel, u), id) == Find(Layer(parent, b, AllOf(|b|), u), id)
  {
    hide Block, Blocks, AllOf, Find, DistinctIds;
    var id := Block(b, i, u)[k].id;
    LayerBlocks(parent, b, u);
    forall i0, h | 0 <= i0 < |b| && !sel[i0] && 0 <= h < |Block(b, i0, u)| ensures Block(b, i0, u)[h].id != id {
      if i < i0 {
        BlocksApart(b, |b|, u, i, k, i0, h);
      } else {
        BlocksApart(b, |b|, u, i0, h, i, k);
      }
    }
    FindSelected(b, sel, |b|, u, id);
    FindConcat([parent], Blocks(b, sel, |b|, u), id);
    FindConcat([parent], Blocks(b, AllOf(|b|), |b|, u), id);
  }

  lemma ReachedAgrees(parent: Seen, b: seq<Window>, at: nat, sel: seq<bool>, u: iset<Pt>, i: nat)
    requires at < |b| == |sel| && i < |b| && i != at && sel[i] && DistinctIds(Layer(parent, b, AllOf(|b|), u))
    ensures BlockAgrees(Layer(parent, b, AllOf(|b|), u), Layer(parent, b, sel, u), Block(Without(b, at), i, u), true,
        NoWindow)
  {
    hide Block, Layer, Find, DistinctIds, AllOf, Gains;
    var full, short, block := Layer(parent, b, AllOf(|b|), u), Layer(parent, b, sel, u), Block(Without(b, at), i, u);
    BlockIds(b, at, i, u);
    forall k | 0 <= k < |block| ensures Find(full, block[k].id) == Find(short, block[k].id) {
      SelectedFound(parent, b, sel, u, i, k);
    }
    GainsAgree(full, short, block, NoWindow);
  }

  lemma UnreachedAgrees(parent: Seen, b: seq<Window>, at: nat, u: iset<Pt>, i: nat, short: seq<Seen>)
    requires at < |b| && i < |b| && i != at && !Under(b, at, i) && DistinctIds(Layer(parent, b, AllOf(|b|), u))
    ensures BlockAgrees(Layer(parent, b, AllOf(|b|), u), short, Block(Without(b, at), i, u), false, NoWindow)
  {
    hide Block, Blocks, Find, DistinctIds, AllOf, Gains, Under;
    var full, block := Layer(parent, b, AllOf(|b|), u), Block(b, i, u);
    NotUnderUnmoved(b, at, i, u);
    forall k | 0 <= k < |block| ensures Find(full, block[k].id) == Found(block[k]) {
      var m := BlockAmong(b, |b|, u, i, k);
      assert full[m + 1] == block[k];
      FindSelf(full, m + 1);
    }
    NoGains(full, block, NoWindow);
  }

  /** Looking at the parent and at the windows under the one unmapped finds every exposure of the
      whole layer, and no other, in the same order. */
  lemma UnderEnough(parent: Seen, parent': Seen, b: seq<Window>, at: nat, sel: seq<bool>, u: iset<Pt>)
    requires at < |b| == |sel| && Covering(b, at, sel) && parent.id == parent'.id
        && DistinctIds(Layer(parent, b, AllOf(|b|), u))
    ensures var a := Without(b, at);
      Gains(Layer(parent, b, AllOf(|b|), u), Layer(parent', a, AllOf(|b|), u), NoWindow)
      == Gains(Layer(parent, b, sel, u), Layer(parent', a, sel, u), NoWindow)
  {
    hide Block, Blocks, Find, DistinctIds, AllOf, Gains, BlockAgrees, Under;
    var a := Without(b, at);
    var full, short := Layer(parent, b, AllOf(|b|), u), Layer(parent, b, sel, u);
    forall i | 0 <= i < |a| ensures BlockAgrees(full, short, Block(a, i, u), sel[i], NoWindow) {
      if !a[i].viewable {
        GoneAgrees(full, short, a, i, u, sel[i]);
      } else if sel[i] {
        ReachedAgrees(parent, b, at, sel, u, i);
      } else {
        UnreachedAgrees(parent, b, at, u, i, short);
      }
    }
    BlockGains(full, short, a, sel, u, NoWindow, |a|);
    GainsConcat(full, [parent'], Blocks(a, AllOf(|a|), |a|, u), NoWindow);
    GainsConcat(short, [parent'], Blocks(a, sel, |a|, u), NoWindow);
    FindFirst(parent, Blocks(b, AllOf(|b|), |b|, u));
    FindFirst(parent, Blocks(b, sel, |b|, u));
    GainsAgree(full, short, [parent'], NoWindow);
  }

  lemma GoneAgrees(full: seq<Seen>, short: seq<Seen>, a: seq<Window>, i: nat, u: iset<Pt>, selected: bool)
    requires i < |a| && !a[i].viewable
    ensures BlockAgrees(full, short, Block(a, i, u), selected, NoWindow)
  {
    HiddenBlock(a, i, u);
  }

  // ------------------------------------------------------- the server's side

  /** Which children are under child `at` and meet its `borderSize`. */
  method WantUnder(children: seq<Window>, at: nat) returns (want: seq<bool>)
    requires at < |children| && AllBanding(children)
    ensures |want| == |children| && forall i :: 0 <= i < |children| ==> (want[i] <==> Under(children, at, i))
    ensures forall i :: 0 <= i < |children| ==>
        (want[i] <==> i < at && exists p :: InSize(children[i], p) && InSize(children[at], p))
  {
    hide InSize, In, Banded, Banding, Seam, SizeCut, Merged, Canonical;
    BandingShapes(children[at]);
    var footprint := BorderSize(children[at]);
    want := [];
    for i := 0 to |children|
      invariant |want| == i && forall j :: 0 <= j < i ==> (want[j] <==> Under(children, at, j))
    {
      BandingShapes(children[i]);
      var size := BorderSize(children[i]);
      var common := IntersectOf(size, footprint);
      EmptyIffNoCell(common);
      assert common != [] <==> exists q :: InSize(children[i], q) && InSize(children[at], q) by {
        if common != [] {
          var x, y :| In(common, x, y);
          assert InSize(children[i], Pt(x, y)) && InSize(children[at], Pt(x, y));
        }
        if q :| InSize(children[i], q) && InSize(children[at], q) {
          assert In(common, q.x, q.y);
        }
      }
      want := want + [i < at && common != []];
    }
  }

  /** `clip_entries_under` before and after the unmap, and the difference: the exposures of the
      whole layer. */
  method ExposedByUnmap(w: Window, at: nat, universe: seq<Box>, ring: seq<Box>)
    returns (out: seq<Exposure>, ghost places: seq<nat>)
    requires at < |w.children| && Banding(w) && Banded(universe) && Banded(ring)
    requires DistinctIds(Layer(ParentSeen(w, Cells(universe), Cells(ring)), w.children, AllOf(|w.children|),
        Cells(universe)))
    ensures var w' := w.(children := Without(w.children, at));
      ExposuresAre(out, Gains(
        Layer(ParentSeen(w, Cells(universe), Cells(ring)), w.children, AllOf(|w.children|), Cells(universe)),
        Layer(ParentSeen(w', Cells(universe), Cells(ring)), w'.children, AllOf(|w.children|), Cells(universe)),
          NoWindow))
    ensures var w' := w.(children := Without(w.children, at));
      Exposes(out,
        Layer(ParentSeen(w, Cells(universe), Cells(ring)), w.children, AllOf(|w.children|), Cells(universe)),
        Layer(ParentSeen(w', Cells(universe), Cells(ring)), w'.children, AllOf(|w.children|), Cells(universe)),
          NoWindow, places)
  {
    hide Block, Blocks, Cells, Banded, Gains, DistinctIds, Banding, ParentSeen, EntriesAre, ExposuresAre, Exposes,
         Under, Layer;
    var w' := w.(children := Without(w.children, at));
    ghost var u, p, p' := Cells(universe), ParentSeen(w, Cells(universe), Cells(ring)),
      ParentSeen(w', Cells(universe), Cells(ring));
    WithoutBanding(w, at);
    ChildrenBanding(w);
    ChildrenBanding(w');
    var want := WantUnder(w.children, at);
    var before := EntriesFor(w, universe, ring, want);
    var want' := WantUnder(w'.children, at);
    SameUnder(w.children, at, want, want');
    var after := EntriesFor(w', universe, ring, want');
    out := NewlyExposed(before, after, NoWindow, Layer(p, w.children, want, u), Layer(p', w'.children, want, u));
    ParentId(w, u, Cells(ring));
    ParentId(w', u, Cells(ring));
    UnderEnough(p, p', w.children, at, want, u);
    ghost var all := AllOf(|w.children|);
    places := ExposesPixels(out, Layer(p, w.children, all, u), Layer(p', w'.children, all, u), NoWindow);
  }

  lemma WithoutBanding(w: Window, at: nat)
    requires at < |w.children| && Banding(w)
    ensures Banding(w.(children := Without(w.children, at)))
  {
    var kids := Without(w.children, at);
    assert Banding(w.children[at]);
    assert kids[at] == w.children[at].(viewable := false);
    assert Banding(kids[at]);
  }

  lemma ChildrenBanding(w: Window)
    requires Banding(w)
    ensures AllBanding(w.children)
  {
  }

  /** Sizes do not depend on what is mapped. */
  lemma SameUnder(children: seq<Window>, at: nat, want: seq<bool>, want': seq<bool>)
    requires at < |children| && |want| == |want'| == |children|
    requires forall i :: 0 <= i < |children| ==> (want[i] <==> Under(children, at, i))
    requires forall i :: 0 <= i < |children| ==> (want'[i] <==> Under(Without(children, at), at, i))
    ensures want == want'
  {
    var a := Without(children, at);
    forall i | 0 <= i < |children| ensures Under(children, at, i) <==> Under(a, at, i) {
      assert forall q :: InSize(a[at], q) <==> InSize(children[at], q);
    }
  }
}
