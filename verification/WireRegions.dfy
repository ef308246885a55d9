/** Regions as lists of wire rectangles (crates/yserver-core/src/region.rs, `to_rects`, and the
    rectangle operations of crates/yserver-core/src/core_loop/clip_list.rs): origins are clamped to
    16 bits signed, sizes to 16 bits unsigned. */
module WireRegions {
  import opened Plane
  import opened Boxes
  import opened Regions
  import opened RegionAlgebra
  import opened Normalise
  import opened ClipList

  function ClampLen(v: int): int { Max(0, Min(v, 0xffff)) }

  /** `to_rect`. */
  function ToRect(b: Box): WireRect {
    WireRect(Clamp16(b.x1), Clamp16(b.y1), ClampLen(b.x2 - b.x1), ClampLen(b.y2 - b.y1))
  }

  /** `to_rects`. */
  function ToRects(r: seq<Box>): (a: seq<WireRect>)
    ensures |a| == |r| && forall k :: 0 <= k < |a| ==> a[k] == ToRect(r[k])
  {
    seq(|r|, k requires 0 <= k < |r| => ToRect(r[k]))
  }

  /** The pixels of a list of rectangles. */
  ghost function WireCells(a: seq<WireRect>): iset<Pt> {
    iset p: Pt | InRects(a, p.x, p.y)
  }

  /** The box goes to the wire as it is. */
  predicate OnWire(b: Box) {
    && MINSHORT <= b.x1 <= MAXSHORT && MINSHORT <= b.y1 <= MAXSHORT
    && b.x2 - b.x1 <= 0xffff && b.y2 - b.y1 <= 0xffff
  }

  /** A box goes to the wire as it is iff some rectangle of the wire has its pixels, and then that is the
      one sent; what is sent always has an origin and sizes in range, as near as can be. */
  lemma OnWireIff(b: Box)
    requires NonEmpty(b)
    ensures OnWire(b) <==> exists r: WireRect :: r.Valid() && SentAs(r, b)
    ensures forall r: WireRect :: r.Valid() && SentAs(r, b) ==> ToRect(b) == r
    ensures var r := ToRect(b);
      && -0x8000 <= r.x <= 0x7fff && -0x8000 <= r.y <= 0x7fff && 0 < r.width <= 0xffff && 0 < r.height <= 0xffff
      && (b.x1 < -0x8000 ==> r.x == -0x8000) && (b.x1 > 0x7fff ==> r.x == 0x7fff)
      && (b.y1 < -0x8000 ==> r.y == -0x8000) && (b.y1 > 0x7fff ==> r.y == 0x7fff)
      && (-0x8000 <= b.x1 <= 0x7fff ==> r.x == b.x1) && (-0x8000 <= b.y1 <= 0x7fff ==> r.y == b.y1)
      && (b.x2 - b.x1 > 0xffff ==> r.width == 0xffff) && (b.y2 - b.y1 > 0xffff ==> r.height == 0xffff)
      && (b.x2 - b.x1 <= 0xffff ==> r.width == b.x2 - b.x1) && (b.y2 - b.y1 <= 0xffff ==> r.height == b.y2 - b.y1)
  {
    forall r: WireRect | SentAs(r, b) ensures r == WireRect(b.x1, b.y1, b.x2 - b.x1, b.y2 - b.y1) {
      SameEdges(r, b);
    }
    var same := WireRect(b.x1, b.y1, b.x2 - b.x1, b.y2 - b.y1);
    assert SentAs(same, b);
    assert OnWire(b) ==> same.Valid();
  }

  ghost predicate SentAs(r: WireRect, b: Box) {
    forall x, y :: Spans(r, x, y) <==> b.x1 <= x < b.x2 && b.y1 <= y < b.y2
  }

  ghost predicate Spans(r: WireRect, x: int, y: int) { r.x <= x < r.x + r.width && r.y <= y < r.y + r.height }

  lemma SameEdges(r: WireRect, b: Box)
    requires NonEmpty(b) && SentAs(r, b)
    ensures r == WireRect(b.x1, b.y1, b.x2 - b.x1, b.y2 - b.y1)
  {
    assert Spans(r, b.x1, b.y1) && Spans(r, b.x2 - 1, b.y2 - 1);
    assert !Spans(r, b.x1 - 1, b.y1) && !Spans(r, b.x1, b.y1 - 1) && !Spans(r, b.x2, b.y1) && !Spans(r, b.x1, b.y2);
  }

  predicate AllOnWire(r: seq<Box>) { forall k :: 0 <= k < |r| ==> OnWire(r[k]) }

  lemma OnWireExact(r: seq<Box>)
    requires AllOnWire(r) && Banded(r)
    ensures WireCells(ToRects(r)) == Cells(r)
  {
    var a := ToRects(r);
    forall k | 0 <= k < |r| ensures forall x, y :: InRect(a[k], x, y) <==> InBox(r[k], x, y) {
      assert OnWire(r[k]) && NonEmpty(r[k]);
      SameBox(r[k]);
    }
    hide ToRects, InRect, InBox, Banded, AllOnWire;
    forall p: Pt ensures p in WireCells(a) <==> p in Cells(r) {
      if p in WireCells(a) {
        var k :| 0 <= k < |a| && InRect(a[k], p.x, p.y);
        assert InBox(r[k], p.x, p.y);
      }
      if p in Cells(r) {
        var k :| 0 <= k < |r| && InBox(r[k], p.x, p.y);
        assert InRect(a[k], p.x, p.y);
      }
    }
  }

  lemma SameBox(b: Box)
    requires OnWire(b) && NonEmpty(b)
    ensures forall x, y :: InRect(ToRect(b), x, y) <==> InBox(b, x, y)
  {
  }

  /** Exactly when clamping changes no pixel: when every box goes to the wire as it is. */
  lemma WireExact(r: seq<Box>)
    requires Banded(r)
    ensures WireCells(ToRects(r)) == Cells(r) <==> AllOnWire(r)
  {
    if AllOnWire(r) {
      OnWireExact(r);
    } else {
      var p := LostPixel(r);
      assert p in Cells(r) && p !in WireCells(ToRects(r));
    }
  }

  /** No rectangle of the list holds the pixel. */
  predicate Misses(a: seq<WireRect>, p: Pt) { forall k :: 0 <= k < |a| ==> !InRect(a[k], p.x, p.y) }

  /** A box that does not go to the wire as it is costs a pixel. */
  lemma LostPixel(r: seq<Box>) returns (p: Pt)
    requires Banded(r) && !AllOnWire(r)
    ensures In(r, p.x, p.y) && !InRects(ToRects(r), p.x, p.y)
  {
    var k;
    if i :| 0 <= i < |r| && (r[i].x1 < MINSHORT || r[i].y1 < MINSHORT) {
      k, p := i, Pt(r[i].x1, r[i].y1);
      assert NonEmpty(r[i]);
    } else if i :| 0 <= i < |r| && r[i].y1 > MAXSHORT {
      k := |r| - 1;
      p := Pt(r[k].x1, r[k].y2 - 1);
      LowBands(r, i, p);
    } else if i :| 0 <= i < |r| && r[i].y2 - r[i].y1 > 0xffff {
      k, p := i, Pt(r[i].x1, r[i].y2 - 1);
      TallBand(r, i, p);
    } else if i :| 0 <= i < |r| && r[i].x1 > MAXSHORT {
      k := LastOfBand(r, i);
      p := Pt(r[k].x2 - 1, r[k].y1);
      RightBoxes(r, k, p);
    } else {
      var i :| 0 <= i < |r| && r[i].x2 - r[i].x1 > 0xffff;
      k, p := i, Pt(r[i].x2 - 1, r[i].y1);
      WideBox(r, i, p);
    }
    assert NonEmpty(r[k]) && InBox(r[k], p.x, p.y);
    assert Misses(ToRects(r), p);
  }

  lemma LowBands(r: seq<Box>, i: nat, p: Pt)
    requires Banded(r) && i < |r| && r[i].y1 > MAXSHORT
    requires p == Pt(r[|r| - 1].x1, r[|r| - 1].y2 - 1)
    ensures Misses(ToRects(r), p)
  {
    var last := r[|r| - 1];
    assert NonEmpty(last) && NonEmpty(r[i]);
    assert i < |r| - 1 ==> Before(r[i], last);
    forall k | 0 <= k < |r| ensures !InRect(ToRect(r[k]), p.x, p.y) {
      assert NonEmpty(r[k]);
      if k < |r| - 1 { assert Before(r[k], last); }
    }
  }

  lemma TallBand(r: seq<Box>, i: nat, p: Pt)
    requires Banded(r) && i < |r| && r[i].y2 - r[i].y1 > 0xffff && p == Pt(r[i].x1, r[i].y2 - 1)
    requires forall k :: 0 <= k < |r| ==> MINSHORT <= r[k].y1 <= MAXSHORT
    ensures Misses(ToRects(r), p)
  {
    assert NonEmpty(r[i]);
    forall k | 0 <= k < |r| ensures !InRect(ToRect(r[k]), p.x, p.y) {
      assert NonEmpty(r[k]);
      if k < i { assert Before(r[k], r[i]); }
      if i < k { assert Before(r[i], r[k]); }
    }
  }

  lemma {:induction false} LastOfBand(r: seq<Box>, i: nat) returns (k: nat)
    requires Banded(r) && i < |r|
    ensures i <= k < |r| && r[k].y1 == r[i].y1 && r[k].x1 >= r[i].x1
    ensures k + 1 < |r| ==> r[k].y2 <= r[k + 1].y1
    decreases |r| - i
  {
    k := i;
    if i + 1 < |r| {
      assert Before(r[i], r[i + 1]) && NonEmpty(r[i]) && NonEmpty(r[i + 1]);
      if r[i].y2 > r[i + 1].y1 { k := LastOfBand(r, i + 1); }
    }
  }

  lemma RightBoxes(r: seq<Box>, k: nat, p: Pt)
    requires Banded(r) && k < |r| && r[k].x1 > MAXSHORT && p == Pt(r[k].x2 - 1, r[k].y1)
    requires k + 1 < |r| ==> r[k].y2 <= r[k + 1].y1
    requires forall j :: 0 <= j < |r| ==> MINSHORT <= r[j].y1 <= MAXSHORT && r[j].y2 - r[j].y1 <= 0xffff
    ensures Misses(ToRects(r), p)
  {
    assert NonEmpty(r[k]);
    forall j | 0 <= j < |r| ensures !InRect(ToRect(r[j]), p.x, p.y) {
      assert NonEmpty(r[j]);
      if j < k { assert Before(r[j], r[k]); }
      if k + 1 < j { assert Before(r[k + 1], r[j]) && NonEmpty(r[k + 1]); }
    }
  }

  lemma WideBox(r: seq<Box>, i: nat, p: Pt)
    requires Banded(r) && i < |r| && r[i].x2 - r[i].x1 > 0xffff && p == Pt(r[i].x2 - 1, r[i].y1)
    requires forall j :: 0 <= j < |r| ==> MINSHORT <= r[j].y1 <= MAXSHORT && r[j].y2 - r[j].y1 <= 0xffff
    requires forall j :: 0 <= j < |r| ==> MINSHORT <= r[j].x1 <= MAXSHORT
    ensures Misses(ToRects(r), p)
  {
    assert NonEmpty(r[i]);
    forall j | 0 <= j < |r| ensures !InRect(ToRect(r[j]), p.x, p.y) {
      assert NonEmpty(r[j]);
      if j < i { assert Before(r[j], r[i]); }
      if i < j { assert Before(r[i], r[j]); }
    }
  }

  // ------------------------------------------------------- the canonical region of a set

  ghost predicate IsCanon(c: seq<Box>, s: iset<Pt>) { Canonical(c) && Cells(c) == s }

  /** The canonical region of a set of pixels, if it has one. */
  ghost function Canon(s: iset<Pt>): seq<Box> {
    if exists c :: IsCanon(c, s) then var c :| IsCanon(c, s); c else []
  }

  lemma CanonIs(c: seq<Box>, s: iset<Pt>)
    requires IsCanon(c, s)
    ensures Canon(s) == c
  {
    var d := Canon(s);
    assert IsCanon(d, s);
    SameRegion(c, d);
  }

  lemma SameRegion(r: seq<Box>, s: seq<Box>)
    requires Canonical(r) && Canonical(s) && Cells(r) == Cells(s)
    ensures r == s
  {
    forall x, y ensures In(r, x, y) <==> In(s, x, y) {
      assert Pt(x, y) in Cells(r) <==> Pt(x, y) in Cells(s);
    }
    CanonicalUnique(r, s);
  }

  /** The canonical region of the set goes to the wire as it is. */
  ghost predicate Exact(s: iset<Pt>) { forall c :: IsCanon(c, s) ==> AllOnWire(c) }

  lemma ExactIff(c: seq<Box>)
    requires Canonical(c)
    ensures WireCells(ToRects(c)) == Cells(c) <==> Exact(Cells(c))
  {
    CanonicalBands(c);
    WireExact(c);
    assert IsCanon(c, Cells(c));
    forall d | IsCanon(d, Cells(c)) ensures d == c { SameRegion(d, c); }
  }

  /** An exact result has no pixel of its own and no empty rectangle. */
  lemma ExactWithin(s: iset<Pt>)
    requires Exact(s)
    ensures WireCells(ToRects(Canon(s))) <= s && Solid(ToRects(Canon(s)))
  {
    if c :| IsCanon(c, s) {
      CanonIs(c, s);
      CanonicalBands(c);
      OnWireExact(c);
      forall k | 0 <= k < |c| ensures ToRect(c[k]).width > 0 && ToRect(c[k]).height > 0 { assert NonEmpty(c[k]); }
    }
  }

  /** The list is its canonical region, sent. */
  ghost predicate Formed(a: seq<WireRect>) { a == ToRects(Canon(WireCells(a))) }

  lemma FormedRegion(c: seq<Box>)
    requires Canonical(c) && AllOnWire(c)
    ensures WireCells(ToRects(c)) == Cells(c) && Formed(ToRects(c))
  {
    CanonicalBands(c);
    OnWireExact(c);
    CanonIs(c, Cells(c));
  }

  predicate Solid(a: seq<WireRect>) { forall k :: 0 <= k < |a| ==> a[k].width > 0 && a[k].height > 0 }

  // ------------------------------------------------------- the rectangle operations

  ghost function Meet(a: seq<WireRect>, b: seq<WireRect>): seq<WireRect> {
    ToRects(Canon(WireCells(a) * WireCells(b)))
  }

  ghost function Minus(a: seq<WireRect>, b: seq<WireRect>): seq<WireRect> {
    ToRects(Canon(WireCells(a) - WireCells(b)))
  }

  /** `intersect`. */
  method MeetRects(a: seq<WireRect>, b: seq<WireRect>) returns (r: seq<WireRect>)
    ensures r == Meet(a, b)
    ensures WireCells(r) == WireCells(a) * WireCells(b) <==> Exact(WireCells(a) * WireCells(b))
  {
    hide In, InRects, Canonical, Banded;
    var p := FromRects(a);
    var q := FromRects(b);
    CanonicalBands(p);
    CanonicalBands(q);
    var c := IntersectOf(p, q);
    assert Cells(c) == WireCells(a) * WireCells(b);
    CanonIs(c, WireCells(a) * WireCells(b));
    ExactIff(c);
    r := ToRects(c);
  }

  /** `subtract`. */
  method MinusRects(a: seq<WireRect>, b: seq<WireRect>) returns (r: seq<WireRect>)
    ensures r == Minus(a, b)
    ensures WireCells(r) == WireCells(a) - WireCells(b) <==> Exact(WireCells(a) - WireCells(b))
  {
    hide In, InRects, Canonical, Banded;
    var p := FromRects(a);
    var q := FromRects(b);
    CanonicalBands(p);
    CanonicalBands(q);
    var c := SubtractOf(p, q);
    assert Cells(c) == WireCells(a) - WireCells(b);
    CanonIs(c, WireCells(a) - WireCells(b));
    ExactIff(c);
    r := ToRects(c);
  }

  /** `translate`: every origin moves and saturates. */
  function ShiftRects(a: seq<WireRect>, dx: int, dy: int): (r: seq<WireRect>)
    ensures |r| == |a|
    ensures forall k :: 0 <= k < |r| ==>
        r[k] == WireRect(Clamp16(a[k].x + dx), Clamp16(a[k].y + dy), a[k].width, a[k].height)
  {
    seq(|a|, k requires 0 <= k < |a| => WireRect(Clamp16(a[k].x + dx), Clamp16(a[k].y + dy), a[k].width, a[k].height))
  }

  /** No moved origin leaves 16 bits. */
  predicate StaysOnWire(a: seq<WireRect>, dx: int, dy: int) {
    forall k :: 0 <= k < |a| ==> MINSHORT <= a[k].x + dx <= MAXSHORT && MINSHORT <= a[k].y + dy <= MAXSHORT
  }

  lemma ShiftExact(a: seq<WireRect>, dx: int, dy: int, p: Pt)
    requires StaysOnWire(a, dx, dy)
    ensures p in WireCells(ShiftRects(a, dx, dy)) <==> Pt(p.x - dx, p.y - dy) in WireCells(a)
  {
    var r := ShiftRects(a, dx, dy);
    if p in WireCells(r) {
      var k :| 0 <= k < |r| && InRect(r[k], p.x, p.y);
      assert InRect(a[k], p.x - dx, p.y - dy);
    }
    if Pt(p.x - dx, p.y - dy) in WireCells(a) {
      var k :| 0 <= k < |a| && InRect(a[k], p.x - dx, p.y - dy);
      assert InRect(r[k], p.x, p.y);
    }
  }
}
