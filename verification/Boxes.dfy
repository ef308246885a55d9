/** Half-open boxes and the lists of boxes a region is made of
    (crates/yserver-core/src/region.rs), with the pixel sets they stand for. */
module Boxes {

  /** The half-open box x1 <= x < x2, y1 <= y < y2. */
  datatype Box = Box(x1: int, y1: int, x2: int, y2: int)

  /** A rectangle on the wire: a signed 16-bit origin and unsigned 16-bit sizes. */
  datatype WireRect = WireRect(x: int, y: int, width: int, height: int) {
    predicate Valid() {
      -0x8000 <= x < 0x8000 && -0x8000 <= y < 0x8000 && 0 <= width < 0x1_0000 && 0 <= height < 0x1_0000
    }
  }

  predicate NonEmpty(b: Box) {
    b.x1 < b.x2 && b.y1 < b.y2
  }

  predicate InBox(b: Box, x: int, y: int) {
    b.x1 <= x < b.x2 && b.y1 <= y < b.y2
  }

  /** Pixel (x, y) is covered by some box of `s`. */
  predicate In(s: seq<Box>, x: int, y: int) {
    exists i :: 0 <= i < |s| && InBox(s[i], x, y)
  }

  predicate InSpan(b: Box, x: int) {
    b.x1 <= x < b.x2
  }

  /** Column x is covered by the x range of some box of `s`. */
  predicate InX(s: seq<Box>, x: int) {
    exists i :: 0 <= i < |s| && InSpan(s[i], x)
  }

  /** `p` comes before `n`: in an earlier band, or to its left in the same one. */
  predicate Before(p: Box, n: Box) {
    p.y2 <= n.y1 || (p.y1 == n.y1 && p.y2 == n.y2 && p.x2 <= n.x1)
  }

  /** Y-x banded: non-empty boxes sorted by band then x, the boxes of a band sharing its rows. */
  predicate Banded(s: seq<Box>) {
    && (forall i :: 0 <= i < |s| ==> NonEmpty(s[i]))
    && (forall i, j :: 0 <= i < j < |s| ==> Before(s[i], s[j]))
  }

  predicate Apart(p: Box, n: Box) {
    p.y1 == n.y1 ==> p.x2 < n.x1
  }

  /** No two boxes of a band touch. */
  predicate Separated(s: seq<Box>) {
    forall i, j :: 0 <= i < j < |s| ==> Apart(s[i], s[j])
  }

  /** Box k starts a new band that touches the one above it. */
  predicate Boundary(s: seq<Box>, k: int) {
    0 < k < |s| && s[k - 1].y2 == s[k].y1
  }

  ghost predicate RowsDiffer(s: seq<Box>, y: int) {
    exists x :: In(s, x, y - 1) != In(s, x, y)
  }

  /** Where two bands touch, the rows on the two sides of the edge really differ. */
  ghost predicate Coalesced(s: seq<Box>) {
    forall k :: Boundary(s, k) ==> RowsDiffer(s, s[k].y1)
  }

  /** pixman's canonical form. */
  ghost predicate Canonical(s: seq<Box>) {
    Banded(s) && Separated(s) && Coalesced(s)
  }

  /** Same pixels. */
  ghost predicate SameCells(s: seq<Box>, t: seq<Box>) {
    forall x, y :: In(s, x, y) <==> In(t, x, y)
  }

  /** All boxes of `s` have the rows y1 <= y < y2, left to right. */
  predicate IsBand(s: seq<Box>, y1: int, y2: int) {
    && (forall i :: 0 <= i < |s| ==> s[i].x1 < s[i].x2 && s[i].y1 == y1 && s[i].y2 == y2)
    && (forall i, j :: 0 <= i < j < |s| ==> s[i].x2 <= s[j].x1)
  }

  /** No two boxes of the band touch. */
  predicate Gapped(s: seq<Box>) {
    forall i, j :: 0 <= i < j < |s| ==> s[i].x2 < s[j].x1
  }

  predicate EndsAt(s: seq<Box>, x: int) {
    exists i :: 0 <= i < |s| && s[i].x2 == x
  }

  predicate BeginsAt(s: seq<Box>, x: int) {
    exists i :: 0 <= i < |s| && s[i].x1 == x
  }

  /** Two boxes of the band touch at column x. */
  predicate SeamX(s: seq<Box>, x: int) {
    EndsAt(s, x) && BeginsAt(s, x)
  }

  /** Without a seam the boxes are apart. */
  lemma GappedIff(s: seq<Box>, y1: int, y2: int)
    requires IsBand(s, y1, y2)
    ensures Gapped(s) <==> forall x :: !SeamX(s, x)
  {
    if !Gapped(s) {
      var i, j :| 0 <= i < j < |s| && s[i].x2 >= s[j].x1;
      assert EndsAt(s, s[i].x2) && BeginsAt(s, s[j].x1);
      assert SeamX(s, s[i].x2);
    }
  }

  /** Pixel columns of a band: x - 1 and x lie on the two sides of a seam. */
  lemma SeamSides(s: seq<Box>, y1: int, y2: int, x: int)
    requires IsBand(s, y1, y2) && SeamX(s, x)
    ensures InX(s, x - 1) && InX(s, x)
    ensures forall k :: 0 <= k < |s| && InSpan(s[k], x - 1) ==> s[k].x2 == x
    ensures forall k :: 0 <= k < |s| && InSpan(s[k], x) ==> s[k].x1 == x
  {
  }

  predicate SameSpans(s: seq<Box>, t: seq<Box>) {
    |s| == |t| && forall k :: 0 <= k < |s| ==> s[k].x1 == t[k].x1 && s[k].x2 == t[k].x2
  }

  lemma InXSnoc(s: seq<Box>, b: Box)
    ensures forall x :: InX(s + [b], x) <==> InX(s, x) || InSpan(b, x)
  {
    forall x ensures InX(s + [b], x) <==> InX(s, x) || InSpan(b, x) {
      var t := s + [b];
      if InX(s, x) {
        var i :| 0 <= i < |s| && InSpan(s[i], x);
        assert InSpan(t[i], x);
      }
      if InSpan(b, x) { assert InSpan(t[|s|], x); }
    }
  }

  lemma InConcat(s: seq<Box>, t: seq<Box>)
    ensures forall x, y :: In(s + t, x, y) <==> In(s, x, y) || In(t, x, y)
  {
    forall x, y ensures In(s + t, x, y) <==> In(s, x, y) || In(t, x, y) {
      var u := s + t;
      if In(s, x, y) {
        var i :| 0 <= i < |s| && InBox(s[i], x, y);
        assert InBox(u[i], x, y);
      }
      if In(t, x, y) {
        var i :| 0 <= i < |t| && InBox(t[i], x, y);
        assert InBox(u[|s| + i], x, y);
      }
      if In(u, x, y) {
        var i :| 0 <= i < |u| && InBox(u[i], x, y);
        assert if i < |s| then InBox(s[i], x, y) else InBox(t[i - |s|], x, y);
      }
    }
  }

  lemma InBand(s: seq<Box>, y1: int, y2: int)
    requires IsBand(s, y1, y2)
    ensures forall x, y :: In(s, x, y) <==> y1 <= y < y2 && InX(s, x)
  {
  }

  /** A pixel set on a line has one description by separated spans. */
  lemma {:induction false} SpansUnique(s: seq<Box>, t: seq<Box>)
    requires forall i :: 0 <= i < |s| ==> s[i].x1 < s[i].x2
    requires forall i :: 0 <= i < |t| ==> t[i].x1 < t[i].x2
    requires Gapped(s) && Gapped(t)
    requires forall x :: InX(s, x) <==> InX(t, x)
    ensures SameSpans(s, t)
    decreases |s|
  {
    if s == [] || t == [] {
      if s != [] { assert InSpan(s[0], s[0].x1); assert InX(s, s[0].x1); }
      if t != [] { assert InSpan(t[0], t[0].x1); assert InX(t, t[0].x1); }
    } else {
      FirstSpanWithin(s, t);
      FirstSpanWithin(t, s);
      var s', t' := s[1..], t[1..];
      TailSpans(s);
      TailSpans(t);
      SpansUnique(s', t');
      forall k | 0 <= k < |s| ensures s[k].x1 == t[k].x1 && s[k].x2 == t[k].x2 {
        if k > 0 { assert s[k] == s'[k - 1] && t[k] == t'[k - 1]; }
      }
    }
  }

  lemma FirstSpanWithin(s: seq<Box>, t: seq<Box>)
    requires s != [] && t != []
    requires forall i :: 0 <= i < |s| ==> s[i].x1 < s[i].x2
    requires forall i :: 0 <= i < |t| ==> t[i].x1 < t[i].x2
    requires Gapped(s) && Gapped(t)
    requires forall x :: InX(s, x) <==> InX(t, x)
    ensures t[0].x1 <= s[0].x1
    ensures t[0].x1 == s[0].x1 ==> t[0].x2 <= s[0].x2
  {
    assert InSpan(s[0], s[0].x1);
    assert InX(s, s[0].x1);
    var i :| 0 <= i < |t| && InSpan(t[i], s[0].x1);
    assert !InX(s, s[0].x2);
    assert !InSpan(t[0], s[0].x2);
  }

  lemma TailSpans(s: seq<Box>)
    requires s != []
    requires forall i :: 0 <= i < |s| ==> s[i].x1 < s[i].x2
    requires Gapped(s)
    ensures forall x :: InX(s[1..], x) <==> InX(s, x) && x >= s[0].x2
  {
  }

  /** The spans at double width, each without its last column: touching spans come apart. */
  function Stretched(s: seq<Box>): (t: seq<Box>)
    ensures |t| == |s|
    ensures forall k :: 0 <= k < |t| ==> t[k] == Box(2 * s[k].x1, s[k].y1, 2 * s[k].x2 - 1, s[k].y2)
  {
    seq(|s|, k requires 0 <= k < |s| => Box(2 * s[k].x1, s[k].y1, 2 * s[k].x2 - 1, s[k].y2))
  }

  lemma StretchedColumns(s: seq<Box>, y1: int, y2: int, x: int)
    requires IsBand(s, y1, y2)
    ensures InX(Stretched(s), 2 * x) <==> InX(s, x)
    ensures InX(Stretched(s), 2 * x - 1) <==> InX(s, x - 1) && InX(s, x) && !SeamX(s, x)
  {
    var t := Stretched(s);
    hide SeamX, IsBand;
    if InX(s, x) {
      var i :| 0 <= i < |s| && InSpan(s[i], x);
      assert InSpan(t[i], 2 * x);
    }
    if InX(t, 2 * x) {
      var i :| 0 <= i < |t| && InSpan(t[i], 2 * x);
      assert InSpan(s[i], x);
    }
    hide InX;
    if InX(t, 2 * x - 1) { WithinOne(s, y1, y2, x); }
    if InX(s, x - 1) && InX(s, x) && !SeamX(s, x) { OneHoldsBoth(s, y1, y2, x); }
  }

  lemma WithinOne(s: seq<Box>, y1: int, y2: int, x: int)
    requires IsBand(s, y1, y2) && InX(Stretched(s), 2 * x - 1)
    ensures InX(s, x - 1) && InX(s, x) && !SeamX(s, x)
  {
    var t := Stretched(s);
    var i :| 0 <= i < |t| && InSpan(t[i], 2 * x - 1);
    assert InSpan(s[i], x - 1) && InSpan(s[i], x);
    hide IsBand, SeamX;
    if SeamX(s, x) { SeamSides(s, y1, y2, x); }
  }

  lemma OneHoldsBoth(s: seq<Box>, y1: int, y2: int, x: int)
    requires IsBand(s, y1, y2) && InX(s, x - 1) && InX(s, x) && !SeamX(s, x)
    ensures InX(Stretched(s), 2 * x - 1)
  {
    var i :| 0 <= i < |s| && InSpan(s[i], x - 1);
    var j :| 0 <= j < |s| && InSpan(s[j], x);
    assert EndsAt(s, s[i].x2) && BeginsAt(s, s[j].x1);
    assert s[i].x2 > x;
    assert InSpan(Stretched(s)[i], 2 * x - 1);
  }

  /** A band is its pixels and its seams. */
  lemma BandUnique(s: seq<Box>, y1: int, y2: int, t: seq<Box>, y3: int, y4: int)
    requires IsBand(s, y1, y2) && IsBand(t, y3, y4)
    requires forall x :: (InX(s, x) <==> InX(t, x)) && (SeamX(s, x) <==> SeamX(t, x))
    ensures SameSpans(s, t)
  {
    var s', t' := Stretched(s), Stretched(t);
    forall c ensures InX(s', c) <==> InX(t', c) {
      var x := (c + 1) / 2;
      assert c == 2 * x || c == 2 * x - 1;
      StretchedColumns(s, y1, y2, x);
      StretchedColumns(t, y3, y4, x);
    }
    hide InX, SeamX;
    SpansUnique(s', t');
    forall k | 0 <= k < |s| ensures s[k].x1 == t[k].x1 && s[k].x2 == t[k].x2 {
      assert s'[k].x1 == t'[k].x1 && s'[k].x2 == t'[k].x2;
    }
  }
}
