/** The region type's interface (crates/yserver-core/src/region.rs) and the
    uniqueness of the canonical form. */
module RegionAlgebra {
  import opened Plane
  import opened Boxes
  import opened Overlaps
  import opened Regions

  // ------------------------------------------------------- uniqueness

  lemma FirstBand(r: seq<Box>) returns (end: nat)
    requires Banded(r) && r != []
    ensures BandAt(r, 0, end) && (Separated(r) ==> Gapped(r[..end]))
    ensures forall k :: 0 <= k < end ==> r[k].y1 == r[0].y1
  {
    end := 0;
    while end < |r| && r[end].y1 == r[0].y1
      invariant 0 <= end <= |r|
      invariant forall k :: 0 <= k < end ==> r[k].y1 == r[0].y1
    {
      end := end + 1;
    }
    BandOf(r, 0, end);
    assert r[0..end] == r[..end];
  }

  /** The rows of the first band are its spans, and nothing is above it. */
  lemma FirstRows(r: seq<Box>, end: nat)
    requires Banded(r) && BandAt(r, 0, end)
    ensures r[0].y1 < r[0].y2
    ensures forall x, y :: y < r[0].y2 ==> (In(r, x, y) <==> r[0].y1 <= y && InX(r[..end], x))
    ensures forall x, y :: y >= r[0].y2 ==> (In(r, x, y) <==> In(r[end..], x, y))
    ensures forall x, y :: In(r[end..], x, y) ==> y >= r[0].y2 && end < |r| && y >= r[end].y1
    ensures In(r, r[0].x1, r[0].y1) && InX(r[..end], r[0].x1)
  {
  }

  /** In a canonical region the row below the first band differs from the band's last row. */
  lemma FirstBandEnds(r: seq<Box>, end: nat) returns (x: int)
    requires Canonical(r) && BandAt(r, 0, end)
    ensures In(r, x, r[0].y2 - 1) != In(r, x, r[0].y2)
  {
    FirstRows(r, end);
    if end < |r| && r[end].y1 == r[0].y2 {
      assert r[end - 1] == r[0..end][end - 1];
      assert Boundary(r, end);
      x :| In(r, x, r[end].y1 - 1) != In(r, x, r[end].y1);
    } else {
      x := r[0].x1;
    }
  }

  /** Of two canonical descriptions of the same pixels, neither's first band is
      higher up, nor longer, than the other's. */
  lemma FirstBandBound(s: seq<Box>, es: nat, t: seq<Box>, et: nat)
    requires Canonical(s) && Canonical(t) && BandAt(s, 0, es) && BandAt(t, 0, et) && SameCells(s, t)
    ensures t[0].y1 <= s[0].y1
    ensures t[0].y1 == s[0].y1 ==> t[0].y2 <= s[0].y2
  {
    FirstRows(s, es);
    FirstRows(t, et);
    StartsAt(t);
    var x := FirstBandEnds(s, es);
  }

  lemma CanonicalTail(r: seq<Box>, end: nat)
    requires Canonical(r) && BandAt(r, 0, end)
    ensures Canonical(r[end..])
  {
    var tail := r[end..];
    FirstRows(r, end);
    forall i, j | 0 <= i < j < |tail| ensures Before(tail[i], tail[j]) && Apart(tail[i], tail[j]) {
      assert Before(r[end + i], r[end + j]) && Apart(r[end + i], r[end + j]);
    }
    forall i | 0 <= i < |tail| ensures NonEmpty(tail[i]) { assert NonEmpty(r[end + i]); }
    forall k | Boundary(tail, k) ensures RowsDiffer(tail, tail[k].y1) {
      assert Boundary(r, end + k) && NonEmpty(r[end + k - 1]);
      assert r[0].y2 <= r[end + k - 1].y1;
      var x :| In(r, x, r[end + k].y1 - 1) != In(r, x, r[end + k].y1);
      assert In(tail, x, tail[k].y1 - 1) != In(tail, x, tail[k].y1);
    }
  }

  /** The canonical form of a pixel set is unique: two servers, or two ways of computing
      a region, that agree on the pixels agree on the boxes. */
  lemma {:induction false} CanonicalUnique(s: seq<Box>, t: seq<Box>)
    requires Canonical(s) && Canonical(t) && SameCells(s, t)
    ensures s == t
    decreases |s|
  {
    hide In, Canonical, Banded;
    CanonicalBands(s);
    CanonicalBands(t);
    EmptyIffNoCell(s);
    EmptyIffNoCell(t);
    if s != [] && t != [] {
      var es := FirstBand(s);
      var et := FirstBand(t);
      SameFirstBand(s, es, t, et);
      CanonicalTail(s, es);
      CanonicalTail(t, et);
      SameTails(s, es, t, et);
      CanonicalUnique(s[es..], t[et..]);
      assert s == s[..es] + s[es..] && t == t[..et] + t[et..];
    }
  }

  lemma SameFirstBand(s: seq<Box>, es: nat, t: seq<Box>, et: nat)
    requires Canonical(s) && Canonical(t) && BandAt(s, 0, es) && BandAt(t, 0, et) && SameCells(s, t)
    requires Gapped(s[..es]) && Gapped(t[..et])
    ensures s[..es] == t[..et] && s[0].y2 == t[0].y2
  {
    hide In;
    FirstBandBound(s, es, t, et);
    FirstBandBound(t, et, s, es);
    FirstRows(s, es);
    FirstRows(t, et);
    forall x ensures InX(s[..es], x) <==> InX(t[..et], x) {
      assert In(s, x, s[0].y1) <==> In(t, x, s[0].y1);
    }
    assert s[0..es] == s[..es] && t[0..et] == t[..et];
    hide Canonical, InX;
    SpansUnique(s[..es], t[..et]);
  }

  lemma SameTails(s: seq<Box>, es: nat, t: seq<Box>, et: nat)
    requires Banded(s) && Banded(t) && BandAt(s, 0, es) && BandAt(t, 0, et) && SameCells(s, t)
    requires s[0].y2 == t[0].y2
    ensures SameCells(s[es..], t[et..])
  {
    hide In, InX, Banded, BandAt;
    FirstRows(s, es);
    FirstRows(t, et);
  }

  // ------------------------------------------------------- operations

  /** The bounding box of a region: the smallest box that holds every pixel of it. */
  method Extents(r: seq<Box>) returns (b: Box)
    requires Banded(r) && r != []
    ensures NonEmpty(b)
    ensures forall k :: 0 <= k < |r| ==> b.x1 <= r[k].x1 && r[k].x2 <= b.x2 && b.y1 <= r[k].y1 && r[k].y2 <= b.y2
    ensures exists k :: 0 <= k < |r| && r[k].x1 == b.x1
    ensures exists k :: 0 <= k < |r| && r[k].x2 == b.x2
    ensures b.y1 == r[0].y1 && b.y2 == r[|r| - 1].y2
  {
    var x1, x2 := r[0].x1, r[0].x2;
    assert NonEmpty(r[0]);
    ghost var k1, k2 := 0, 0;
    for n := 1 to |r|
      invariant x1 < x2
      invariant 0 <= k1 < n && r[k1].x1 == x1 && 0 <= k2 < n && r[k2].x2 == x2
      invariant forall k :: 0 <= k < n ==> x1 <= r[k].x1 && r[k].x2 <= x2
    {
      if r[n].x1 < x1 { k1 := n; }
      if r[n].x2 > x2 { k2 := n; }
      x1, x2 := Min(x1, r[n].x1), Max(x2, r[n].x2);
    }
    b := Box(x1, r[0].y1, x2, r[|r| - 1].y2);
    forall k | 0 <= k < |r| ensures b.y1 <= r[k].y1 && r[k].y2 <= b.y2 {
      assert NonEmpty(r[k]) && NonEmpty(r[0]) && NonEmpty(r[|r| - 1]);
      if k > 0 { assert Before(r[0], r[k]); }
      if k < |r| - 1 { assert Before(r[k], r[|r| - 1]); }
    }
  }

  predicate Disjoint(a: Box, b: Box) {
    a.x2 <= b.x1 || b.x2 <= a.x1 || a.y2 <= b.y1 || b.y2 <= a.y1
  }

  lemma DisjointExtents(r: seq<Box>, s: seq<Box>, a: Box, b: Box)
    requires forall k :: 0 <= k < |r| ==> a.x1 <= r[k].x1 && r[k].x2 <= a.x2 && a.y1 <= r[k].y1 && r[k].y2 <= a.y2
    requires forall k :: 0 <= k < |s| ==> b.x1 <= s[k].x1 && s[k].x2 <= b.x2 && b.y1 <= s[k].y1 && s[k].y2 <= b.y2
    requires Disjoint(a, b)
    ensures forall x, y :: !(In(r, x, y) && In(s, x, y))
  {
  }

  /** An empty region, and only that, has no pixel. */
  lemma EmptyIffNoCell(r: seq<Box>)
    requires Banded(r)
    ensures r == [] <==> forall x, y :: !In(r, x, y)
  {
    if r != [] {
      var end := FirstBand(r);
      FirstRows(r, end);
    }
  }

  /** With nothing on the other side, clean is canonical. */
  lemma CleanAlone(a: seq<Box>)
    requires Banded(a)
    ensures Clean(Union, a, []) <==> Canonical(a)
    ensures Clean(Union, [], a) <==> Canonical(a)
  {
    hide Banded, EdgeShows, Canonical;
    CanonicalIff(a);
    forall x, y
      ensures SeamKept(Union, a, [], x, y) <==> Seam(a, x, y)
      ensures SeamKept(Union, [], a, x, y) <==> Seam(a, x, y)
    {
      assert Blank([], y) && !Seam([], x, y);
    }
    assert forall y :: EndsAbove([], y);
  }

  /** Operands without a common pixel are clean for the intersection, and a difference keeps the
      seams of the first. */
  lemma CleanApart(a: seq<Box>, b: seq<Box>)
    requires Banded(a) && forall x, y :: !(In(a, x, y) && In(b, x, y))
    ensures Clean(Intersect, a, b)
    ensures forall x, y :: !SeamKept(Intersect, a, b, x, y)
    ensures forall x, y :: SeamKept(Subtract, a, b, x, y) <==> Seam(a, x, y)
  {
    hide In, Seam;
    SeamIn(a);
  }

  predicate SomeRightOf(a: seq<Box>, b: seq<Box>) {
    exists i, j :: 0 <= i < |a| && 0 <= j < |b| && b[j].x1 < a[i].x2
  }

  predicate SomeBelow(a: seq<Box>, b: seq<Box>) {
    exists i, j :: 0 <= i < |a| && 0 <= j < |b| && b[j].y1 < a[i].y2
  }

  /** Neither region is empty and their bounding boxes overlap. */
  predicate ExtentsMeet(a: seq<Box>, b: seq<Box>) {
    SomeRightOf(a, b) && SomeRightOf(b, a) && SomeBelow(a, b) && SomeBelow(b, a)
  }

  lemma ExtentsMeetIff(r: seq<Box>, s: seq<Box>, a: Box, b: Box)
    requires r != [] && s != []
    requires forall k :: 0 <= k < |r| ==> a.x1 <= r[k].x1 && r[k].x2 <= a.x2 && a.y1 <= r[k].y1 && r[k].y2 <= a.y2
    requires forall k :: 0 <= k < |s| ==> b.x1 <= s[k].x1 && s[k].x2 <= b.x2 && b.y1 <= s[k].y1 && s[k].y2 <= b.y2
    requires (exists k :: 0 <= k < |r| && r[k].x1 == a.x1) && (exists k :: 0 <= k < |r| && r[k].x2 == a.x2)
    requires (exists k :: 0 <= k < |s| && s[k].x1 == b.x1) && (exists k :: 0 <= k < |s| && s[k].x2 == b.x2)
    requires a.y1 == r[0].y1 && a.y2 == r[|r| - 1].y2 && b.y1 == s[0].y1 && b.y2 == s[|s| - 1].y2
    ensures ExtentsMeet(r, s) <==> !Disjoint(a, b)
  {
  }

  /** `Region::union`. With an empty operand the other is handed back as it is. */
  method UnionOf(a: seq<Box>, b: seq<Box>) returns (r: seq<Box>)
    requires Banded(a) && Banded(b)
    ensures Banded(r)
    ensures Canonical(r) <==> Clean(Union, a, b)
    ensures Canonical(a) && Canonical(b) ==> Canonical(r)
    ensures a == [] || b == [] ==> r == a + b
    ensures forall x, y :: In(r, x, y) <==> In(a, x, y) || In(b, x, y)
  {
    hide Banded, Canonical, Clean;
    if a == [] {
      CleanAlone(b);
      return b;
    }
    if b == [] {
      CleanAlone(a);
      return a;
    }
    r := Op(a, b, Union, true, true);
  }

  /** `Region::intersect`. */
  method IntersectOf(a: seq<Box>, b: seq<Box>) returns (r: seq<Box>)
    requires Banded(a) && Banded(b)
    ensures Banded(r)
    ensures Canonical(r) <==> Clean(Intersect, a, b)
    ensures Canonical(a) && Canonical(b) ==> Canonical(r)
    ensures Merged(r) && forall x, y :: Seam(r, x, y) <==> SeamKept(Intersect, a, b, x, y)
    ensures forall x, y :: In(r, x, y) <==> In(a, x, y) && In(b, x, y)
  {
    hide Banded, Canonical, Clean, SeamKept;
    NothingCanonical();
    if a == [] || b == [] {
      CleanApart(a, b);
      return [];
    }
    var ea := Extents(a);
    var eb := Extents(b);
    if Disjoint(ea, eb) {
      DisjointExtents(a, b, ea, eb);
      CleanApart(a, b);
      return [];
    }
    hide In, Seam;
    r := Op(a, b, Intersect, false, false);
  }

  lemma NothingCanonical()
    ensures Canonical([]) && Banded([]) && Merged([]) && (forall y :: Built([], 0, y))
    ensures forall x, y :: !In([], x, y) && !Seam([], x, y)
  {
  }

  lemma MergedBoth(a: seq<Box>, b: seq<Box>)
    ensures Merged(a) ==> MergedTails(Subtract, a, b)
  {
    hide EdgeShows;
  }

  /** `Region::subtract`. With nothing to take away, the region is handed back as it is. */
  method SubtractOf(a: seq<Box>, b: seq<Box>) returns (r: seq<Box>)
    requires Banded(a) && Banded(b)
    ensures Banded(r)
    ensures Canonical(r) <==> if ExtentsMeet(a, b) then Clean(Subtract, a, b) else Canonical(a)
    ensures Canonical(a) && Canonical(b) ==> Canonical(r)
    ensures Merged(a) ==> Merged(r)
    ensures forall x, y :: Seam(r, x, y) <==> SeamKept(Subtract, a, b, x, y)
    ensures b == [] ==> r == a
    ensures forall x, y :: In(r, x, y) <==> In(a, x, y) && !In(b, x, y)
  {
    hide Banded, Canonical, Clean, SeamKept, Merged;
    if a == [] || b == [] {
      CleanApart(a, b);
      return a;
    }
    var ea := Extents(a);
    var eb := Extents(b);
    ExtentsMeetIff(a, b, ea, eb);
    if Disjoint(ea, eb) {
      DisjointExtents(a, b, ea, eb);
      CleanApart(a, b);
      return a;
    }
    hide In, ExtentsMeet, Seam;
    MergedBoth(a, b);
    r := Op(a, b, Subtract, true, false);
  }

  /** A single box has no seam and no second band. */
  lemma OneBoxClean(b: Box, r: seq<Box>)
    requires NonEmpty(b)
    ensures Clean(Subtract, [b], r)
  {
  }

  /** `Region::inverse`: the part of `bounds` the region does not cover, in canonical form
      whatever the region's own. */
  method Inverse(r: seq<Box>, bounds: Box) returns (inv: seq<Box>)
    requires Banded(r)
    ensures Canonical(inv)
    ensures forall x, y :: In(inv, x, y) <==> InBox(bounds, x, y) && !In(r, x, y)
  {
    if bounds.x1 >= bounds.x2 || bounds.y1 >= bounds.y2 {
      return [];
    }
    OneBox(bounds);
    OneBoxClean(bounds, r);
    inv := SubtractOf([bounds], r);
  }

  lemma OneBox(b: Box)
    requires NonEmpty(b)
    ensures Canonical([b])
    ensures forall x, y :: In([b], x, y) <==> InBox(b, x, y)
  {
    forall x, y ensures In([b], x, y) <==> InBox(b, x, y) {
      if InBox(b, x, y) { assert InBox([b][0], x, y); }
    }
  }

  /** `Region::contains_point`, by binary search for the first band that does not end above. */
  method ContainsPoint(r: seq<Box>, x: int, y: int) returns (inside: bool)
    requires Banded(r)
    ensures inside <==> In(r, x, y)
  {
    var lo, hi := 0, |r|;
    while lo < hi
      invariant 0 <= lo <= hi <= |r|
      invariant forall k :: 0 <= k < lo ==> r[k].y2 <= y
      invariant forall k :: hi <= k < |r| ==> y < r[k].y2
    {
      var mid := (lo + hi) / 2;
      forall k | 0 <= k < |r| ensures NonEmpty(r[k]) && (k < mid ==>
          r[k].y2 <= r[mid].y2) && (k > mid ==> r[mid].y2 <= r[k].y2) {
        assert NonEmpty(r[k]) && NonEmpty(r[mid]);
        if k < mid { assert Before(r[k], r[mid]); }
        if k > mid { assert Before(r[mid], r[k]); }
      }
      if r[mid].y2 <= y {
        lo := mid + 1;
      } else {
        hi := mid;
      }
    }
    var i := lo;
    while i < |r| && r[i].y1 <= y
      invariant lo <= i <= |r|
      invariant forall k :: 0 <= k < i ==> !InBox(r[k], x, y)
    {
      if r[i].x1 <= x < r[i].x2 {
        assert InBox(r[i], x, y);
        return true;
      }
      i := i + 1;
    }
    forall k | i <= k < |r| ensures !InBox(r[k], x, y) {
      assert NonEmpty(r[i]);
      if k > i { assert Before(r[i], r[k]); }
    }
    inside := false;
  }

  // ------------------------------------------------------- moving

  function Moved(b: Box, dx: int, dy: int): Box {
    Box(b.x1 + dx, b.y1 + dy, b.x2 + dx, b.y2 + dy)
  }

  /** `Region::translate`: moving keeps a region canonical and moves its pixels. */
  method Translate(r: seq<Box>, dx: int, dy: int) returns (m: seq<Box>)
    requires Banded(r)
    ensures Banded(m)
    ensures Canonical(r) ==> Canonical(m)
    ensures Merged(r) ==> Merged(m)
    ensures forall x, y :: Seam(m, x, y) <==> Seam(r, x - dx, y - dy)
    ensures forall x, y :: In(m, x, y) <==> In(r, x - dx, y - dy)
  {
    m := r;
    for i := 0 to |r|
      invariant |m| == |r|
      invariant forall k :: 0 <= k < i ==> m[k] == Moved(r[k], dx, dy)
      invariant forall k :: i <= k < |r| ==> m[k] == r[k]
    {
      m := m[i := Moved(m[i], dx, dy)];
    }
    MovedRegion(r, m, dx, dy);
  }

  lemma MovedRegion(r: seq<Box>, m: seq<Box>, dx: int, dy: int)
    requires Banded(r) && |m| == |r| && forall k :: 0 <= k < |r| ==> m[k] == Moved(r[k], dx, dy)
    ensures Banded(m)
    ensures Canonical(r) ==> Canonical(m)
    ensures Merged(r) ==> Merged(m)
    ensures forall x, y :: Seam(m, x, y) <==> Seam(r, x - dx, y - dy)
    ensures forall x, y :: In(m, x, y) <==> In(r, x - dx, y - dy)
  {
    hide In, Seam, EdgeShows;
    MovedCells(r, m, dx, dy);
    TranslatedSeams(r, m, dx, dy);
    MovedBands(r, m, dx, dy);
    if Merged(r) {
      forall k | Boundary(m, k) ensures EdgeShows(m, m[k].y1) {
        assert Boundary(r, k);
        MovedEdge(r, m, dx, dy, r[k].y1);
      }
    }
    hide Banded;
    CanonicalIff(r);
    CanonicalIff(m);
  }

  lemma MovedBands(r: seq<Box>, m: seq<Box>, dx: int, dy: int)
    requires Banded(r) && |m| == |r| && forall k :: 0 <= k < |r| ==> m[k] == Moved(r[k], dx, dy)
    ensures Banded(m)
  {
    forall i | 0 <= i < |m| ensures NonEmpty(m[i]) { assert NonEmpty(r[i]); }
    forall i, j | 0 <= i < j < |m| ensures Before(m[i], m[j]) { assert Before(r[i], r[j]); }
  }

  lemma MovedEdge(r: seq<Box>, m: seq<Box>, dx: int, dy: int, y: int)
    requires EdgeShows(r, y)
    requires forall x, y :: Seam(m, x, y) <==> Seam(r, x - dx, y - dy)
    requires forall x, y :: In(m, x, y) <==> In(r, x - dx, y - dy)
    ensures EdgeShows(m, y + dy)
  {
    hide In, Seam;
    var x :| In(r, x, y - 1) != In(r, x, y) || Seam(r, x, y - 1) != Seam(r, x, y);
    assert x + dx - dx == x && y + dy - dy == y && y + dy - 1 - dy == y - 1;
    assert In(m, x + dx, y + dy - 1) != In(m, x + dx, y + dy) || Seam(m, x + dx, y + dy - 1) != Seam(m, x + dx, y + dy);
  }

  lemma TranslatedSeams(r: seq<Box>, m: seq<Box>, dx: int, dy: int)
    requires |m| == |r| && forall k :: 0 <= k < |r| ==> m[k] == Moved(r[k], dx, dy)
    ensures forall x, y :: Seam(m, x, y) <==> Seam(r, x - dx, y - dy)
  {
    forall x, y ensures Seam(m, x, y) <==> Seam(r, x - dx, y - dy) {
      if Seam(r, x - dx, y - dy) {
        var i, j :| 0 <= i < |r| && 0 <= j < |r| && Touching(r[i], r[j], x - dx, y - dy);
        assert Touching(m[i], m[j], x, y);
      }
      if Seam(m, x, y) {
        var i, j :| 0 <= i < |m| && 0 <= j < |m| && Touching(m[i], m[j], x, y);
        assert Touching(r[i], r[j], x - dx, y - dy);
      }
    }
  }

  lemma MovedCells(r: seq<Box>, m: seq<Box>, dx: int, dy: int)
    requires |m| == |r| && forall k :: 0 <= k < |r| ==> m[k] == Moved(r[k], dx, dy)
    ensures forall x, y :: In(m, x, y) <==> In(r, x - dx, y - dy)
  {
  }

  const MINSHORT := -0x8000
  const MAXSHORT := 0x7fff

  function Clamp16(v: int): int { Max(MINSHORT, Min(v, MAXSHORT)) }
}
