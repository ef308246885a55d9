/** Making regions out of rectangles (crates/yserver-core/src/region.rs): the
    canonical-form test, the normaliser and the two wire constructors. */
module Normalise {
  import opened Plane
  import opened Boxes
  import opened Overlaps
  import opened Regions
  import opened RegionAlgebra

  // ------------------------------------------------------- is_canonical

  /** `is_canonical`: band by band, the test decides canonical form. */
  method IsCanonical(boxes: seq<Box>) returns (ok: bool)
    ensures ok <==> Canonical(boxes)
  {
    hide In, InX, Canonical, Gapped, Built, Seam;
    var ps, i := 0, 0;
    NothingCanonical();
    assert boxes[..0] == [];
    while i < |boxes|
      invariant 0 <= ps <= i <= |boxes| && (i > 0 ==> ps < i)
      invariant i > 0 && i < |boxes| ==> boxes[ps].y1 != boxes[i].y1
      invariant Built(boxes[..i], ps, if i == 0 then if boxes == [] then 0 else boxes[0].y1 else boxes[ps].y2)
      invariant Canonical(boxes[..i])
    {
      var y1, y2 := boxes[i].y1, boxes[i].y2;
      if y1 >= y2 {
        NotCanonical(boxes, i, i);
        return false;
      }
      var j := i;
      while j < |boxes| && boxes[j].y1 == y1
        invariant i <= j <= |boxes|
        invariant forall k :: i <= k < j ==> boxes[k].y1 == y1 && boxes[k].y2 == y2 && boxes[k].x1 < boxes[k].x2
        invariant forall k, h :: i <= k < h < j ==> boxes[k].x2 < boxes[h].x1
      {
        if boxes[j].y2 != y2 || boxes[j].x1 >= boxes[j].x2 || (j > i && boxes[j - 1].x2 >= boxes[j].x1) {
          NotCanonical(boxes, j, if j > i && boxes[j].y2 == y2 then j - 1 else i);
          return false;
        }
        j := j + 1;
      }
      TestedBand(boxes, i, j);
      if i > 0 {
        if boxes[ps].y2 > y1 {
          NotCanonical(boxes, i, ps);
          return false;
        }
        assert boxes[..i][ps..] == boxes[ps..i];
        if boxes[ps].y2 == y1 && SameSpans(boxes[ps..i], boxes[i..j]) {
          Mergeable(boxes, ps, i, j);
          return false;
        }
      }
      AppendGapped(boxes[..i], ps, boxes[i..j], if i == 0 then boxes[0].y1 else boxes[ps].y2, y1, y2);
      assert boxes[..i] + boxes[i..j] == boxes[..j];
      ps, i := i, j;
    }
    assert boxes[..i] == boxes;
    ok := true;
  }

  lemma TestedBand(boxes: seq<Box>, i: nat, j: nat)
    requires i < j <= |boxes|
    requires forall k :: i <= k < j ==>
        boxes[k].y1 == boxes[i].y1 && boxes[k].y2 == boxes[i].y2 && boxes[k].x1 < boxes[k].x2
    requires forall k, h :: i <= k < h < j ==> boxes[k].x2 < boxes[h].x1
    ensures IsBand(boxes[i..j], boxes[i].y1, boxes[i].y2) && Gapped(boxes[i..j])
  {
  }

  /** Box k is empty, or out of order with, or touching, the earlier box h. */
  lemma NotCanonical(boxes: seq<Box>, k: nat, h: nat)
    requires h <= k < |boxes|
    requires !NonEmpty(boxes[k]) || (h < k && (!Before(boxes[h], boxes[k]) || !Apart(boxes[h], boxes[k])))
    ensures !Canonical(boxes)
  {
  }

  /** Two touching bands with the same spans: the rows across the edge are equal. */
  lemma Mergeable(boxes: seq<Box>, ps: nat, i: nat, j: nat)
    requires ps < i < j <= |boxes|
    requires Built(boxes[..i], ps, boxes[ps].y2)
    requires IsBand(boxes[i..j], boxes[i].y1, boxes[i].y2)
    requires j < |boxes| ==> boxes[j].y1 != boxes[i].y1
    requires boxes[ps].y2 == boxes[i].y1 && SameSpans(boxes[ps..i], boxes[i..j])
    ensures !Canonical(boxes)
  {
    if Banded(boxes) {
      var y := boxes[i].y1;
      var above, rest := boxes[..i], boxes[i..];
      assert above[ps..] == boxes[ps..i] && above[ps] == boxes[ps] && boxes[i - 1] == above[i - 1];
      assert boxes == above + rest;
      InConcat(above, rest);
      LastRow(above, ps, boxes[ps].y2);
      SameBandRows(boxes, i, j);
      BandOf(boxes, i, j);
      RowsFrom(boxes, i, j);
      SameSpansSameColumns(boxes[ps..i], boxes[i..j]);
      assert NonEmpty(boxes[i]);
      AllBelowBand(boxes, i);
      assert forall x :: In(boxes, x, y - 1) <==> In(boxes, x, y);
      assert Boundary(boxes, i);
    }
  }

  lemma SameBandRows(boxes: seq<Box>, i: nat, j: nat)
    requires i < j <= |boxes| && IsBand(boxes[i..j], boxes[i].y1, boxes[i].y2)
    ensures forall k :: i <= k < j ==> boxes[k].y1 == boxes[i].y1
  {
  }

  lemma AllBelowBand(boxes: seq<Box>, i: nat)
    requires Banded(boxes) && i < |boxes|
    ensures forall x, y :: In(boxes[i..], x, y) ==> y >= boxes[i].y1
  {
  }

  // ------------------------------------------------------- from_boxes

  /** The boxes that have pixels, in order. */
  function Retain(boxes: seq<Box>): (kept: seq<Box>)
    ensures forall k :: 0 <= k < |kept| ==> NonEmpty(kept[k])
  {
    if boxes == [] then []
    else (if NonEmpty(boxes[0]) then [boxes[0]] else []) + Retain(boxes[1..])
  }

  lemma {:induction false} RetainCells(boxes: seq<Box>)
    ensures SameCells(Retain(boxes), boxes)
  {
    if boxes != [] {
      var head := if NonEmpty(boxes[0]) then [boxes[0]] else [];
      assert boxes == [boxes[0]] + boxes[1..];
      InConcat([boxes[0]], boxes[1..]);
      InConcat(head, Retain(boxes[1..]));
      RetainCells(boxes[1..]);
      forall x, y ensures In(head, x, y) <==> In([boxes[0]], x, y) {
        if In([boxes[0]], x, y) { assert InBox(head[0], x, y); }
        if In(head, x, y) { assert InBox([boxes[0]][0], x, y); }
      }
    }
  }

  predicate SortKey(a: Box, b: Box) {
    a.y1 < b.y1 || (a.y1 == b.y1 && a.x1 <= b.x1)
  }

  function InsertBox(b: Box, s: seq<Box>): (r: seq<Box>)
    ensures multiset(r) == multiset(s) + multiset{b}
  {
    if s == [] || SortKey(b, s[0]) then [b] + s
    else
      assert s == [s[0]] + s[1..];
      [s[0]] + InsertBox(b, s[1..])
  }

  /** The boxes ordered by top row, then left column. */
  function SortBoxes(s: seq<Box>): (r: seq<Box>)
    ensures multiset(r) == multiset(s)
  {
    if s == [] then []
    else
      assert s == [s[0]] + s[1..];
      InsertBox(s[0], SortBoxes(s[1..]))
  }

  lemma SameBoxesSameCells(s: seq<Box>, t: seq<Box>)
    requires multiset(s) == multiset(t)
    ensures SameCells(s, t)
    ensures (forall k :: 0 <= k < |s| ==> NonEmpty(s[k])) ==> forall k :: 0 <= k < |t| ==> NonEmpty(t[k])
  {
    forall x, y ensures In(s, x, y) <==> In(t, x, y) {
      if In(s, x, y) {
        var i :| 0 <= i < |s| && InBox(s[i], x, y);
        assert s[i] in multiset(s);
        assert s[i] in t;
      }
      if In(t, x, y) {
        var i :| 0 <= i < |t| && InBox(t[i], x, y);
        assert t[i] in multiset(t);
        assert t[i] in s;
      }
    }
    forall k | 0 <= k < |t| ensures t[k] in s {
      assert t[k] in multiset(t);
    }
  }

  /** Pixel (x, y) is in some region of the list. */
  ghost predicate InSome(level: seq<seq<Box>>, x: int, y: int) {
    exists k :: 0 <= k < |level| && In(level[k], x, y)
  }

  ghost predicate AllCanonical(level: seq<seq<Box>>) {
    forall k :: 0 <= k < |level| ==> Canonical(level[k])
  }

  lemma InSomeSnoc(level: seq<seq<Box>>, r: seq<Box>)
    ensures forall x, y :: InSome(level + [r], x, y) <==> InSome(level, x, y) || In(r, x, y)
  {
    forall x, y ensures InSome(level + [r], x, y) <==> InSome(level, x, y) || In(r, x, y) {
      var l := level + [r];
      if InSome(level, x, y) {
        var k :| 0 <= k < |level| && In(level[k], x, y);
        assert In(l[k], x, y);
      }
      if In(r, x, y) { assert In(l[|level|], x, y); }
      if InSome(l, x, y) {
        var k :| 0 <= k < |l| && In(l[k], x, y);
        assert k < |level| ==> In(level[k], x, y);
      }
    }
  }

  lemma NextRegion(level: seq<seq<Box>>, k: nat)
    requires k < |level|
    ensures forall x, y :: InSome(level[..k + 1], x, y) <==> InSome(level[..k], x, y) || In(level[k], x, y)
  {
  }

  /** One round of the union tree: neighbours are unioned, an odd one out is carried over. */
  method UnionPairs(level: seq<seq<Box>>) returns (next: seq<seq<Box>>)
    requires AllCanonical(level)
    ensures AllCanonical(next) && |next| == (|level| + 1) / 2
    ensures forall x, y :: InSome(next, x, y) <==> InSome(level, x, y)
  {
    hide In, Banded, Canonical, InSome;
    next := [];
    var k := 0;
    assert level[..0] == next;
    while k < |level|
      invariant 0 <= k <= |level| && |next| == (k + 1) / 2 && (k < |level| ==> k % 2 == 0)
      invariant AllCanonical(next)
      invariant forall x, y :: InSome(next, x, y) <==> InSome(level[..k], x, y)
    {
      var a := level[k];
      NextRegion(level, k);
      if k + 1 < |level| {
        CanonicalBands(a);
        CanonicalBands(level[k + 1]);
        NextRegion(level, k + 1);
        var u := UnionOf(a, level[k + 1]);
        InSomeSnoc(next, u);
        next := next + [u];
        k := k + 2;
      } else {
        InSomeSnoc(next, a);
        next := next + [a];
        k := k + 1;
      }
    }
    assert level[..k] == level;
  }

  /** `Region::from_boxes`: whatever boxes go in, the canonical region of their pixels comes out. */
  method FromBoxes(boxes: seq<Box>) returns (r: seq<Box>)
    ensures Canonical(r) && SameCells(r, boxes)
  {
    hide In, Banded, Canonical, InSome, NonEmpty;
    var ok := IsCanonical(boxes);
    if ok {
      return boxes;
    }
    var sorted := SortBoxes(Retain(boxes));
    RetainCells(boxes);
    SameBoxesSameCells(Retain(boxes), sorted);
    var level: seq<seq<Box>> := seq(|sorted|, k requires 0 <= k < |sorted| => [sorted[k]]);
    Singletons(sorted, level);
    while |level| > 1
      invariant AllCanonical(level)
      invariant forall x, y :: InSome(level, x, y) <==> In(boxes, x, y)
    {
      level := UnionPairs(level);
    }
    LastLevel(level);
    r := if level == [] then [] else level[0];
  }

  lemma Singletons(sorted: seq<Box>, level: seq<seq<Box>>)
    requires |level| == |sorted| && forall k :: 0 <= k < |sorted| ==> NonEmpty(sorted[k]) && level[k] == [sorted[k]]
    ensures AllCanonical(level)
    ensures forall x, y :: InSome(level, x, y) <==> In(sorted, x, y)
  {
    forall k | 0 <= k < |sorted| ensures Canonical(level[k]) { OneBox(sorted[k]); }
    forall x, y ensures InSome(level, x, y) <==> In(sorted, x, y) {
      if InSome(level, x, y) {
        var k :| 0 <= k < |level| && In(level[k], x, y);
        assert InBox(sorted[k], x, y);
      }
      if In(sorted, x, y) {
        var k :| 0 <= k < |sorted| && InBox(sorted[k], x, y);
        assert InBox(level[k][0], x, y);
        assert In(level[k], x, y);
      }
    }
  }

  lemma LastLevel(level: seq<seq<Box>>)
    requires |level| <= 1 && AllCanonical(level)
    ensures var r := if level == [] then [] else level[0];
      Canonical(r) && forall x, y :: InSome(level, x, y) <==> In(r, x, y)
  {
  }

  // ------------------------------------------------------- wire constructors

  function FromRect(r: WireRect): Box {
    Box(r.x, r.y, r.x + r.width, r.y + r.height)
  }

  /** The far edges stop at MAXSHORT. */
  function FromWireRect(r: WireRect): Box {
    Box(r.x, r.y, Min(r.x + r.width, MAXSHORT), Min(r.y + r.height, MAXSHORT))
  }

  predicate InRect(r: WireRect, x: int, y: int) {
    r.x <= x < r.x + r.width && r.y <= y < r.y + r.height
  }

  ghost predicate InRects(rects: seq<WireRect>, x: int, y: int) {
    exists k :: 0 <= k < |rects| && InRect(rects[k], x, y)
  }

  /** `Region::from_rects`: the canonical region of the rectangles' pixels. */
  method FromRects(rects: seq<WireRect>) returns (r: seq<Box>)
    ensures Canonical(r)
    ensures forall x, y :: In(r, x, y) <==> InRects(rects, x, y)
  {
    hide Canonical;
    var boxes := seq(|rects|, k requires 0 <= k < |rects| => FromRect(rects[k]));
    forall x, y ensures In(boxes, x, y) <==> InRects(rects, x, y) {
      if In(boxes, x, y) {
        var k :| 0 <= k < |boxes| && InBox(boxes[k], x, y);
        assert InRect(rects[k], x, y);
      }
      if InRects(rects, x, y) {
        var k :| 0 <= k < |rects| && InRect(rects[k], x, y);
        assert InBox(boxes[k], x, y);
      }
    }
    r := FromBoxes(boxes);
  }

  function WireBoxes(rects: seq<WireRect>): (boxes: seq<Box>)
    ensures |boxes| == |rects| && forall k :: 0 <= k < |rects| ==> boxes[k] == FromWireRect(rects[k])
  {
    seq(|rects|, k requires 0 <= k < |rects| => FromWireRect(rects[k]))
  }

  /** A client's rectangles as they are, the empty ones dropped. */
  function KeptBoxes(rects: seq<WireRect>): seq<Box> { Retain(WireBoxes(rects)) }

  lemma WireBoxCells(rects: seq<WireRect>, boxes: seq<Box>)
    requires |boxes| == |rects| && forall k :: 0 <= k < |rects| ==> boxes[k] == FromWireRect(rects[k])
    ensures forall x, y :: In(boxes, x, y) <==> x < MAXSHORT && y < MAXSHORT && InRects(rects, x, y)
  {
  }

  /** `Region::from_wire_rects`: the same, less the pixels at or past MAXSHORT. */
  method FromWireRects(rects: seq<WireRect>) returns (r: seq<Box>)
    ensures Canonical(r)
    ensures forall x, y :: In(r, x, y) <==> x < 0x7fff && y < 0x7fff && InRects(rects, x, y)
  {
    hide Canonical, In, InRects;
    var boxes := WireBoxes(rects);
    WireBoxCells(rects, boxes);
    r := FromBoxes(boxes);
  }

  /** `yx_banded`: every rectangle starts a band below the previous one or continues its band. */
  predicate YxBanded(rects: seq<WireRect>) {
    forall k :: 0 < k < |rects| ==> Continues(rects[k - 1], rects[k])
  }

  predicate Continues(p: WireRect, n: WireRect) {
    if n.y == p.y then n.height == p.height && n.x >= p.x + p.width else n.y >= p.y + p.height
  }

  /** The test of neighbours says it of any two: of rectangles that are not empty each stands below those
      before it or, with the same top and height, to the right of them. */
  lemma YxBandedIff(rects: seq<WireRect>)
    requires forall k :: 0 <= k < |rects| ==> rects[k].width > 0 && rects[k].height > 0
    ensures YxBanded(rects) <==>
        forall i, j :: 0 <= i < j < |rects| ==>
          || rects[j].y >= rects[i].y + rects[i].height
          || (rects[j].y == rects[i].y && rects[j].height == rects[i].height
              && rects[j].x >= rects[i].x + rects[i].width)
  {
    if YxBanded(rects) {
      forall i, j | 0 <= i < j < |rects| ensures LooselyBefore(rects[i], rects[j]) { LaterRect(rects, i, j); }
    }
  }

  /** `Region::from_yx_banded`: a client's YXBanded rectangles are kept as they are, and the
      ordering test is enough for the set operations to take them. */
  method FromYxBanded(rects: seq<WireRect>) returns (r: seq<Box>)
    requires YxBanded(rects) && forall k :: 0 <= k < |rects| ==> rects[k].Valid()
    ensures Banded(r) && r == KeptBoxes(rects)
    ensures forall x, y :: In(r, x, y) <==> x < 0x7fff && y < 0x7fff && InRects(rects, x, y)
  {
    hide In, InRects;
    var boxes := WireBoxes(rects);
    WireBoxCells(rects, boxes);
    r := Retain(boxes);
    RetainCells(boxes);
    forall i, j | 0 <= i < j < |rects| ensures LooselyBefore(rects[i], rects[j]) {
      LaterRect(rects, i, j);
    }
    RetainBanded(boxes);
  }

  /** What the pairwise test says of rectangles further apart. */
  predicate LooselyBefore(p: WireRect, n: WireRect) {
    n.y >= p.y + p.height || (n.y == p.y && n.height == p.height && n.x >= p.x + p.width)
  }

  lemma {:induction false} LaterRect(rects: seq<WireRect>, i: nat, j: nat)
    requires i < j < |rects| && YxBanded(rects)
    requires forall k :: 0 <= k < |rects| ==> rects[k].width >= 0 && rects[k].height >= 0
    ensures LooselyBefore(rects[i], rects[j])
    decreases j
  {
    assert Continues(rects[j - 1], rects[j]);
    if i < j - 1 { LaterRect(rects, i, j - 1); }
  }

  lemma {:induction false} RetainBanded(boxes: seq<Box>)
    requires forall i, j :: 0 <= i < j < |boxes| ==>
        NonEmpty(boxes[i]) && NonEmpty(boxes[j]) ==> Before(boxes[i], boxes[j])
    ensures Banded(Retain(boxes))
    ensures forall k :: 0 <= k < |Retain(boxes)| ==> Retain(boxes)[k] in boxes
  {
    if boxes != [] {
      var rest := Retain(boxes[1..]);
      RetainBanded(boxes[1..]);
      var s := Retain(boxes);
      if NonEmpty(boxes[0]) {
        forall j | 0 <= j < |rest| ensures Before(boxes[0], rest[j]) {
          var h :| 0 <= h < |boxes[1..]| && boxes[1..][h] == rest[j];
          assert boxes[h + 1] == rest[j];
        }
      } else {
        assert s == rest;
      }
    }
  }

  /** The results on a YXBanded region need not be canonical again: two touching boxes of a
      client's stay as they are where the other operand leaves both alone. */
  method TouchingBoxesStay() returns (rects: seq<WireRect>, a: seq<Box>, far: seq<Box>, over: seq<Box>,
                           u: seq<Box>, i: seq<Box>, d: seq<Box>)
    ensures YxBanded(rects) && a == KeptBoxes(rects) && Banded(a) && Canonical(far) && Canonical(over)
    ensures (forall x, y :: In(u, x, y) <==> In(a, x, y) || In(far, x, y)) && !Clean(Union, a, far) && !Canonical(u)
    ensures (forall x, y :: In(i, x, y) <==>
        In(a, x, y) && In(over, x, y)) && !Clean(Intersect, a, over) && !Canonical(i)
    ensures (forall x, y :: In(d, x, y) <==> In(a, x, y) && !In(far, x, y))
    ensures ExtentsMeet(a, far) && !Clean(Subtract, a, far) && !Canonical(d)
  {
    rects := [WireRect(0, 0, 1, 1), WireRect(1, 0, 1, 1)];
    a := FromYxBanded(rects);
    TouchingKept(rects, a);
    far, over := [Box(0, -5, 1, -4), Box(0, 5, 1, 6)], [Box(0, 0, 2, 1)];
    assert Canonical(far);
    OneBox(over[0]);
    TouchingSeam(a, far, over);
    u := UnionOf(a, far);
    i := IntersectOf(a, over);
    d := SubtractOf(a, far);
  }

  lemma TouchingKept(rects: seq<WireRect>, a: seq<Box>)
    requires rects == [WireRect(0, 0, 1, 1), WireRect(1, 0, 1, 1)] && a == KeptBoxes(rects)
    ensures a == [Box(0, 0, 1, 1), Box(1, 0, 2, 1)]
  {
    var boxes := WireBoxes(rects);
    assert boxes == [Box(0, 0, 1, 1), Box(1, 0, 2, 1)] && boxes[1..] == [Box(1, 0, 2, 1)] && boxes[1..][1..] == [];
    assert Retain(boxes[1..]) == [Box(1, 0, 2, 1)];
  }

  lemma TouchingSeam(a: seq<Box>, far: seq<Box>, over: seq<Box>)
    requires a == [Box(0, 0, 1, 1), Box(1, 0, 2, 1)] && far == [Box(0, -5, 1, -4), Box(0, 5, 1, 6)]
        && over == [Box(0, 0, 2, 1)]
    ensures !Clean(Union, a, far) && !Clean(Intersect, a, over) && !Clean(Subtract, a, far) && ExtentsMeet(a, far)
  {
    assert Touching(a[0], a[1], 1, 0);
    assert Seam(a, 1, 0);
    assert InBox(a[0], 0, 0) && InBox(a[1], 1, 0) && InBox(over[0], 0, 0) && InBox(over[0], 1, 0);
    assert In(a, 0, 0) && In(a, 1, 0) && Blank(far, 0) && In(over, 0, 0) && In(over, 1, 0);
    assert SeamKept(Union, a, far, 1, 0) && SeamKept(Intersect, a, over, 1, 0) && SeamKept(Subtract, a, far, 1, 0);
    assert far[0].x1 < a[0].x2 && a[0].x1 < far[0].x2 && far[0].y1 < a[0].y2 && a[0].y1 < far[1].y2;
  }
}
