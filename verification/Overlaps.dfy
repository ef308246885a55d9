/** The three overlap functions of the region operations
    (crates/yserver-core/src/region.rs): what two bands that share the rows
    y1 <= y < y2 make together, appended to the boxes already emitted. */
module Overlaps {
  import opened Plane
  import opened Boxes

  datatype Kind = Union | Intersect | Subtract

  /** Whether a pixel is in the result, from whether it is in each operand. */
  predicate Cell(kind: Kind, a: bool, b: bool) {
    match kind
    case Union => a || b
    case Intersect => a && b
    case Subtract => a && !b
  }

  /** The span x1 <= x < x2 is open, right of all the emitted ones. */
  predicate Open(out: seq<Box>, x1: int, x2: int, y1: int, y2: int) {
    && x1 < x2
    && IsBand(out, y1, y2) && Gapped(out)
    && (forall k :: 0 <= k < |out| ==> out[k].x2 < x1)
  }

  /** `merge`: extend the open span by `r`, or emit it and open another at `r`. */
  method Merge(out: seq<Box>, x1: int, x2: int, r: Box, y1: int, y2: int)
    returns (out': seq<Box>, x1': int, x2': int)
    requires Open(out, x1, x2, y1, y2) && x1 <= r.x1 < r.x2
    ensures Open(out', x1', x2', y1, y2) && x1' <= r.x1
    ensures forall x :: InX(out', x) || x1' <= x < x2' <==> InX(out, x) || x1 <= x < x2 || InSpan(r, x)
  {
    if r.x1 <= x2 {
      out', x1', x2' := out, x1, Max(x2, r.x2);
    } else {
      InXSnoc(out, Box(x1, y1, x2, y2));
      out', x1', x2' := out + [Box(x1, y1, x2, y2)], r.x1, r.x2;
    }
  }

  /** The emitted spans and the open one cover the first i and j spans of the operands,
      and what is left of the operands starts no further left. */
  ghost predicate Pending(emitted: seq<Box>, a: seq<Box>, b: seq<Box>, i: nat, j: nat, x1: int, x2: int)
    requires i <= |a| && j <= |b|
  {
    && (i < |a| ==> x1 <= a[i].x1)
    && (j < |b| ==> x1 <= b[j].x1)
    && (forall x :: InX(emitted, x) || x1 <= x < x2 <==> InX(a[..i], x) || InX(b[..j], x))
  }

  /** `union_o`. The emitted spans never touch, whatever the operands. */
  method UnionO(out: seq<Box>, a: seq<Box>, b: seq<Box>, y1: int, y2: int) returns (out': seq<Box>)
    requires a != [] && b != []
    requires IsBand(a, a[0].y1, a[0].y2) && IsBand(b, b[0].y1, b[0].y2)
    ensures out <= out'
    ensures IsBand(out'[|out|..], y1, y2) && Gapped(out'[|out|..])
    ensures forall x :: InX(out'[|out|..], x) <==> InX(a, x) || InX(b, x)
  {
    hide InX, Open;
    var i, j := 0, 0;
    var x1, x2;
    var emitted: seq<Box> := [];
    NoSpan();
    assert a[..0] == [] && b[..0] == [];
    NextSpan(a, 0);
    NextSpan(b, 0);
    if a[0].x1 < b[0].x1 {
      i, x1, x2 := 1, a[0].x1, a[0].x2;
    } else {
      j, x1, x2 := 1, b[0].x1, b[0].x2;
    }
    FirstOpen(x1, x2, y1, y2);
    while i < |a| && j < |b|
      invariant 0 <= i <= |a| && 0 <= j <= |b|
      invariant Open(emitted, x1, x2, y1, y2)
      invariant Pending(emitted, a, b, i, j, x1, x2)
      decreases |a| - i + |b| - j
    {
      if a[i].x1 < b[j].x1 {
        NextSpan(a, i);
        emitted, x1, x2 := Merge(emitted, x1, x2, a[i], y1, y2);
        i := i + 1;
      } else {
        NextSpan(b, j);
        emitted, x1, x2 := Merge(emitted, x1, x2, b[j], y1, y2);
        j := j + 1;
      }
    }
    emitted, x1, x2 := MergeRest(emitted, x1, x2, a, i, b, j, y1, y2);
    emitted, x1, x2 := MergeRest(emitted, x1, x2, b, j, a, |a|, y1, y2);
    assert a[..|a|] == a && b[..|b|] == b;
    CloseSpan(emitted, x1, x2, y1, y2);
    out' := out + (emitted + [Box(x1, y1, x2, y2)]);
    assert out'[|out|..] == emitted + [Box(x1, y1, x2, y2)];
  }

  /** The chain over what is left of one operand. */
  method MergeRest(emitted: seq<Box>, x1: int, x2: int, a: seq<Box>, i0: nat, ghost b: seq<Box>, ghost j: nat,
                   y1: int, y2: int)
    returns (emitted': seq<Box>, x1': int, x2': int)
    requires i0 <= |a| && j <= |b| && a != [] && IsBand(a, a[0].y1, a[0].y2)
    requires i0 == |a| || j == |b|
    requires Open(emitted, x1, x2, y1, y2) && Pending(emitted, a, b, i0, j, x1, x2)
    ensures Open(emitted', x1', x2', y1, y2) && Pending(emitted', b, a, j, |a|, x1', x2')
  {
    hide InX, Open;
    var i := i0;
    emitted', x1', x2' := emitted, x1, x2;
    while i < |a|
      invariant i0 <= i <= |a| && (i0 == |a| || j == |b|)
      invariant Open(emitted', x1', x2', y1, y2) && Pending(emitted', a, b, i, j, x1', x2')
    {
      NextSpan(a, i);
      emitted', x1', x2' := Merge(emitted', x1', x2', a[i], y1, y2);
      i := i + 1;
    }
  }

  lemma FirstOpen(x1: int, x2: int, y1: int, y2: int)
    requires x1 < x2
    ensures Open([], x1, x2, y1, y2)
  {
  }

  lemma CloseSpan(emitted: seq<Box>, x1: int, x2: int, y1: int, y2: int)
    requires Open(emitted, x1, x2, y1, y2)
    ensures var s := emitted + [Box(x1, y1, x2, y2)];
      IsBand(s, y1, y2) && Gapped(s) && forall x :: InX(s, x) <==> InX(emitted, x) || x1 <= x < x2
  {
    InXSnoc(emitted, Box(x1, y1, x2, y2));
  }

  lemma NoSpan()
    ensures forall x :: !InX([], x)
  {
  }

  lemma NextSpan(a: seq<Box>, i: nat)
    requires i < |a|
    ensures forall x :: InX(a[..i + 1], x) <==> InX(a[..i], x) || InSpan(a[i], x)
  {
  }

  /** `intersect_o`. */
  method IntersectO(out: seq<Box>, a: seq<Box>, b: seq<Box>, y1: int, y2: int) returns (out': seq<Box>)
    requires a != [] && b != []
    requires IsBand(a, a[0].y1, a[0].y2) && IsBand(b, b[0].y1, b[0].y2)
    ensures out <= out'
    ensures IsBand(out'[|out|..], y1, y2)
    ensures forall x :: SeamX(out'[|out|..], x) <==> BandSeam(Intersect, a, b, x)
    ensures forall x :: InX(out'[|out|..], x) <==> InX(a, x) && InX(b, x)
  {
    hide InX, Shared, Clipped, IsBand, SeamX, BandSeam;
    var i, j := 0, 0;
    var emitted: seq<Box> := [];
    NoneShared(a, b);
    NoneClipped(a, b, y1, y2);
    while i < |a| && j < |b|
      invariant 0 <= i <= |a| && 0 <= j <= |b|
      invariant Clipped(emitted, a, b, i, j, y1, y2)
      invariant Shared(emitted, a, b, i, j)
      decreases |a| - i + |b| - j
    {
      var x1 := Max(a[i].x1, b[j].x1);
      var x2 := Min(a[i].x2, b[j].x2);
      IntersectStep(a, b, i, j, emitted, y1, y2);
      ClipStep(a, b, i, j, emitted, y1, y2);
      if x1 < x2 {
        emitted := emitted + [Box(x1, y1, x2, y2)];
      }
      if a[i].x2 == x2 {
        i := i + 1;
      }
      if b[j].x2 == x2 {
        j := j + 1;
      }
    }
    AllShared(emitted, a, b, i, j);
    IntersectSeams(emitted, a, b, i, j, y1, y2);
    out' := out + emitted;
    assert out'[|out|..] == emitted;
  }

  /** The span is where a span of `a` and one of `b` overlap. */
  ghost predicate OverlapOf(e: Box, a: seq<Box>, b: seq<Box>) {
    exists p, q :: 0 <= p < |a| && 0 <= q < |b| && e.x1 == Max(a[p].x1, b[q].x1) && e.x2 == Min(a[p].x2, b[q].x2)
  }

  ghost predicate Clipped(emitted: seq<Box>, a: seq<Box>, b: seq<Box>, i: nat, j: nat, y1: int, y2: int)
    requires i <= |a| && j <= |b|
  {
    && IsBand(emitted, y1, y2)
    && (forall k :: 0 <= k < |emitted| ==> OverlapOf(emitted[k], a, b))
    && (forall k :: 0 <= k < |emitted| && i < |a| && j < |b| ==> emitted[k].x2 <= Max(a[i].x1, b[j].x1))
  }

  lemma NoneClipped(a: seq<Box>, b: seq<Box>, y1: int, y2: int)
    ensures Clipped([], a, b, 0, 0, y1, y2)
  {
  }

  lemma ClipStep(a: seq<Box>, b: seq<Box>, i: nat, j: nat, emitted: seq<Box>, y1: int, y2: int)
    requires i < |a| && j < |b| && Clipped(emitted, a, b, i, j, y1, y2)
    requires IsBand(a, a[0].y1, a[0].y2) && IsBand(b, b[0].y1, b[0].y2)
    ensures var x1, x2 := Max(a[i].x1, b[j].x1), Min(a[i].x2, b[j].x2);
      Clipped(if x1 < x2 then emitted + [Box(x1, y1, x2, y2)] else emitted, a, b,
              if a[i].x2 == x2 then i + 1 else i, if b[j].x2 == x2 then j + 1 else j, y1, y2)
  {
    hide IsBand, OverlapOf;
    var x1, x2 := Max(a[i].x1, b[j].x1), Min(a[i].x2, b[j].x2);
    NextStart(a, i);
    NextStart(b, j);
    assert OverlapOf(Box(x1, y1, x2, y2), a, b) by { IsOverlap(Box(x1, y1, x2, y2), a, i, b, j); }
    if x1 < x2 { AddSpan(emitted, x1, x2, y1, y2); }
  }

  lemma IsOverlap(e: Box, a: seq<Box>, p: nat, b: seq<Box>, q: nat)
    requires p < |a| && q < |b| && e.x1 == Max(a[p].x1, b[q].x1) && e.x2 == Min(a[p].x2, b[q].x2)
    ensures OverlapOf(e, a, b)
  {
  }

  lemma NextStart(a: seq<Box>, i: nat)
    requires i < |a| && IsBand(a, a[0].y1, a[0].y2)
    ensures i + 1 < |a| ==> a[i].x1 < a[i].x2 <= a[i + 1].x1
  {
  }

  lemma AddSpan(emitted: seq<Box>, x1: int, x2: int, y1: int, y2: int)
    requires IsBand(emitted, y1, y2) && x1 < x2 && forall k :: 0 <= k < |emitted| ==> emitted[k].x2 <= x1
    ensures var s := emitted + [Box(x1, y1, x2, y2)];
      IsBand(s, y1, y2) && forall k :: 0 <= k < |s| ==> s[k].x2 <= x2
  {
  }

  /** Where the overlap of two bands is cut although its pixels go on. Two spans of a union
      are never left touching; a seam of an operand shows where both its sides are in the
      result. */
  predicate BandSeam(kind: Kind, a: seq<Box>, b: seq<Box>, x: int) {
    match kind
    case Union => false
    case Intersect => (SeamX(a, x) || SeamX(b, x)) && InX(a, x - 1) && InX(a, x) && InX(b, x - 1) && InX(b, x)
    case Subtract => SeamX(a, x) && !InX(b, x - 1) && !InX(b, x)
  }

  lemma IntersectSeams(emitted: seq<Box>, a: seq<Box>, b: seq<Box>, i: nat, j: nat, y1: int, y2: int)
    requires a != [] && b != [] && IsBand(a, a[0].y1, a[0].y2) && IsBand(b, b[0].y1, b[0].y2)
    requires i <= |a| && j <= |b| && Clipped(emitted, a, b, i, j, y1, y2)
    requires forall x :: InX(emitted, x) <==> InX(a, x) && InX(b, x)
    ensures IsBand(emitted, y1, y2)
    ensures forall x :: SeamX(emitted, x) <==> BandSeam(Intersect, a, b, x)
  {
    hide IsBand, InX, SeamX, OverlapOf;
    forall x ensures SeamX(emitted, x) <==> BandSeam(Intersect, a, b, x) {
      if BandSeam(Intersect, a, b, x) {
        IntersectSeamKept(emitted, a, b, x, y1, y2);
      }
      if SeamX(emitted, x) {
        SeamSides(emitted, y1, y2, x);
        IntersectSeamFrom(emitted, a, b, x, y1, y2);
      }
    }
  }

  /** A seam of an operand cuts the overlap. */
  lemma IntersectSeamKept(emitted: seq<Box>, a: seq<Box>, b: seq<Box>, x: int, y1: int, y2: int)
    requires a != [] && b != [] && IsBand(a, a[0].y1, a[0].y2) && IsBand(b, b[0].y1, b[0].y2)
    requires forall k :: 0 <= k < |emitted| ==> OverlapOf(emitted[k], a, b)
    requires (SeamX(a, x) || SeamX(b, x)) && InX(emitted, x - 1) && InX(emitted, x)
    ensures SeamX(emitted, x)
  {
    var k :| 0 <= k < |emitted| && InSpan(emitted[k], x - 1);
    var h :| 0 <= h < |emitted| && InSpan(emitted[h], x);
    hide IsBand, InX, SeamX;
    if SeamX(a, x) {
      SeamSides(a, a[0].y1, a[0].y2, x);
      CutThere(emitted[k], emitted[h], a, b, x);
    } else {
      SeamSides(b, b[0].y1, b[0].y2, x);
      CutThere(emitted[k], emitted[h], b, a, x);
    }
    Seamed(emitted, k, h, x);
  }

  lemma Seamed(s: seq<Box>, k: nat, h: nat, x: int)
    requires k < |s| && h < |s| && s[k].x2 == x == s[h].x1
    ensures SeamX(s, x)
  {
  }

  lemma CutThere(e: Box, f: Box, a: seq<Box>, b: seq<Box>, x: int)
    requires InSpan(e, x - 1) && InSpan(f, x)
    requires (OverlapOf(e, a, b) && OverlapOf(f, a, b)) || (OverlapOf(e, b, a) && OverlapOf(f, b, a))
    requires forall k :: 0 <= k < |a| && InSpan(a[k], x - 1) ==> a[k].x2 == x
    requires forall k :: 0 <= k < |a| && InSpan(a[k], x) ==> a[k].x1 == x
    ensures e.x2 == x == f.x1
  {
  }

  /** A cut in the overlap comes from a seam of an operand. */
  lemma IntersectSeamFrom(emitted: seq<Box>, a: seq<Box>, b: seq<Box>, x: int, y1: int, y2: int)
    requires IsBand(emitted, y1, y2) && SeamX(emitted, x)
    requires forall k :: 0 <= k < |emitted| ==> OverlapOf(emitted[k], a, b)
    requires a != [] && b != [] && IsBand(a, a[0].y1, a[0].y2) && IsBand(b, b[0].y1, b[0].y2)
    ensures SeamX(a, x) || SeamX(b, x)
  {
    hide OverlapOf;
    var k :| 0 <= k < |emitted| && emitted[k].x2 == x;
    var h :| 0 <= h < |emitted| && emitted[h].x1 == x;
    assert emitted[k].x1 < x < emitted[h].x2;
    CutFrom(emitted[k], emitted[h], a, b, x);
  }

  lemma CutFrom(e: Box, f: Box, a: seq<Box>, b: seq<Box>, x: int)
    requires OverlapOf(e, a, b) && OverlapOf(f, a, b) && e.x1 < e.x2 == x == f.x1 < f.x2
    requires a != [] && b != [] && IsBand(a, a[0].y1, a[0].y2) && IsBand(b, b[0].y1, b[0].y2)
    ensures SeamX(a, x) || SeamX(b, x)
  {
    hide IsBand, SeamX;
    var p, q :| 0 <= p < |a| && 0 <= q < |b| && e.x1 == Max(a[p].x1, b[q].x1) && x == Min(a[p].x2, b[q].x2);
    var p', q' :| 0 <= p' < |a| && 0 <= q' < |b| && x == Max(a[p'].x1, b[q'].x1) && f.x2 == Min(a[p'].x2, b[q'].x2);
    if a[p].x2 == x {
      NextBegins(a, p, p', x);
      Seamed(a, p, p', x);
    } else {
      NextBegins(b, q, q', x);
      Seamed(b, q, q', x);
    }
  }

  lemma NextBegins(a: seq<Box>, p: nat, p': nat, x: int)
    requires p < |a| && p' < |a| && IsBand(a, a[0].y1, a[0].y2) && a[p].x2 == x && InSpan(a[p'], x)
    ensures a[p'].x1 == x
  {
  }

  /** What is emitted is what the two bands share, as far as one of them has been walked. */
  ghost predicate Shared(emitted: seq<Box>, a: seq<Box>, b: seq<Box>, i: nat, j: nat)
    requires i <= |a| && j <= |b|
  {
    forall x :: InX(emitted, x) <==> (InX(a[..i], x) && InX(b, x)) || (InX(a, x) && InX(b[..j], x))
  }

  lemma NoneShared(a: seq<Box>, b: seq<Box>)
    ensures Shared([], a, b, 0, 0)
  {
  }

  lemma AllShared(emitted: seq<Box>, a: seq<Box>, b: seq<Box>, i: nat, j: nat)
    requires i <= |a| && j <= |b| && (i == |a| || j == |b|) && Shared(emitted, a, b, i, j)
    ensures forall x :: InX(emitted, x) <==> InX(a, x) && InX(b, x)
  {
  }

  lemma IntersectStep(a: seq<Box>, b: seq<Box>, i: nat, j: nat, emitted: seq<Box>, y1: int, y2: int)
    requires i < |a| && j < |b| && Shared(emitted, a, b, i, j)
    requires IsBand(a, a[0].y1, a[0].y2) && IsBand(b, b[0].y1, b[0].y2)
    ensures var x1, x2 := Max(a[i].x1, b[j].x1), Min(a[i].x2, b[j].x2);
      Shared(if x1 < x2 then emitted + [Box(x1, y1, x2, y2)] else emitted, a, b,
             if a[i].x2 == x2 then i + 1 else i, if b[j].x2 == x2 then j + 1 else j)
  {
    hide InX;
    var x1, x2 := Max(a[i].x1, b[j].x1), Min(a[i].x2, b[j].x2);
    InXSnoc(emitted, Box(x1, y1, x2, y2));
    NextSpan(a, i);
    NextSpan(b, j);
    forall x ensures (InSpan(a[i], x) ==> InX(a, x)) && (InX(a[..i], x) ==> InX(a, x) && x < a[i].x1)
      ensures x < a[i].x2 ==> (InX(a, x) <==> InX(a[..i], x) || InSpan(a[i], x))
    {
      SpanAt(a, i, x);
    }
    forall x ensures (InSpan(b[j], x) ==> InX(b, x)) && (InX(b[..j], x) ==> InX(b, x) && x < b[j].x1)
      ensures x < b[j].x2 ==> (InX(b, x) <==> InX(b[..j], x) || InSpan(b[j], x))
    {
      SpanAt(b, j, x);
    }
  }

  /** A column in span i of a band is in no other; one left of its end is in the first i + 1. */
  lemma SpanAt(a: seq<Box>, i: nat, x: int)
    requires i < |a| && IsBand(a, a[0].y1, a[0].y2)
    ensures InSpan(a[i], x) ==> InX(a, x)
    ensures x < a[i].x2 ==> (InX(a, x) <==> InX(a[..i], x) || InSpan(a[i], x))
    ensures InX(a[..i], x) ==> InX(a, x) && x < a[i].x1
  {
    if InX(a[..i], x) {
      var k :| 0 <= k < |a[..i]| && InSpan(a[..i][k], x);
      assert InSpan(a[k], x) && a[k].x2 <= a[i].x1;
    }
    if x < a[i].x2 && InX(a, x) {
      var k :| 0 <= k < |a| && InSpan(a[k], x);
      assert k <= i;
      if k < i { assert InSpan(a[..i][k], x); }
    }
  }

  /** Left of `edge` everything is settled: the emitted spans are what `m` has there and `s` has not. */
  ghost predicate Settled(emitted: seq<Box>, m: seq<Box>, s: seq<Box>, edge: int) {
    forall x :: InX(emitted, x) <==> InX(m, x) && !InX(s, x) && x < edge
  }

  /** The span is a piece of a span of `m`, cut off only where `s` begins or ends. */
  ghost predicate PieceOf(e: Box, m: seq<Box>, s: seq<Box>) {
    exists p :: 0 <= p < |m| && m[p].x1 <= e.x1 && e.x2 <= m[p].x2
      && (e.x1 == m[p].x1 || InX(s, e.x1 - 1)) && (e.x2 == m[p].x2 || InX(s, e.x2))
  }

  /** The emitted spans are a band of pieces that ends at or left of `edge`. */
  ghost predicate CutAt(emitted: seq<Box>, m: seq<Box>, s: seq<Box>, edge: int, y1: int, y2: int) {
    && IsBand(emitted, y1, y2)
    && (forall k :: 0 <= k < |emitted| ==> emitted[k].x2 <= edge && PieceOf(emitted[k], m, s))
  }

  /** The edge of what is settled: x1, or beyond the last span once `m` is used up. */
  function Edge(m: seq<Box>, i: nat, x1: int): int
    requires m != []
  {
    if i < |m| then x1 else m[|m| - 1].x2 + 1
  }

  /** `subtract_o`: the band `m` less the band `s`. */
  method SubtractO(out: seq<Box>, m: seq<Box>, s: seq<Box>, y1: int, y2: int) returns (out': seq<Box>)
    requires m != [] && s != []
    requires IsBand(m, m[0].y1, m[0].y2) && IsBand(s, s[0].y1, s[0].y2)
    ensures out <= out'
    ensures IsBand(out'[|out|..], y1, y2)
    ensures forall x :: SeamX(out'[|out|..], x) <==> BandSeam(Subtract, m, s, x)
    ensures forall x :: InX(out'[|out|..], x) <==> InX(m, x) && !InX(s, x)
  {
    hide InX, CutAt, Settled, SeamX, BandSeam, IsBand;
    var i, j := 0, 0;
    var x1 := m[0].x1;
    var emitted: seq<Box> := [];
    SpanEnds(m, 0);
    StartCut(m, s, y1, y2);
    while i < |m| && j < |s|
      invariant 0 <= i <= |m| && 0 <= j <= |s|
      invariant i < |m| ==> m[i].x1 <= x1 < m[i].x2 && (x1 == m[i].x1 || InX(s, x1 - 1))
      invariant i < |m| ==> forall k :: 0 <= k < j ==> s[k].x2 <= x1
      invariant CutAt(emitted, m, s, Edge(m, i, x1), y1, y2)
      invariant Settled(emitted, m, s, Edge(m, i, x1))
      decreases |m| - i + |s| - j
    {
      ghost var edge := x1;
      SpanEnds(m, i);
      SpanEnds(s, j);
      if s[j].x2 <= x1 {
        j := j + 1;
      } else if s[j].x1 <= x1 {
        x1 := s[j].x2;
        if x1 >= m[i].x2 {
          i := i + 1;
          if i < |m| {
            x1 := m[i].x1;
          }
        } else {
          j := j + 1;
        }
        Skip(emitted, m, s, edge, Edge(m, i, x1), y1, y2);
      } else if s[j].x1 < m[i].x2 {
        NotYet(s, j, x1);
        Keep(emitted, m, s, i, x1, s[j].x1, y1, y2);
        emitted := emitted + [Box(x1, y1, s[j].x1, y2)];
        edge := s[j].x1 + 1;
        x1 := s[j].x2;
        if x1 >= m[i].x2 {
          i := i + 1;
          if i < |m| {
            x1 := m[i].x1;
          }
        } else {
          j := j + 1;
        }
        Skip(emitted, m, s, edge, Edge(m, i, x1), y1, y2);
      } else {
        if m[i].x2 > x1 {
          NotYet(s, j, x1);
          KeepSpan(emitted, m, s, i, x1, y1, y2);
          emitted := emitted + [Box(x1, y1, m[i].x2, y2)];
        }
        i := i + 1;
        if i < |m| {
          x1 := m[i].x1;
        }
      }
    }
    while i < |m|
      invariant 0 <= i <= |m| && 0 <= j <= |s|
      invariant i < |m| ==> j == |s| && m[i].x1 <= x1 < m[i].x2 && (x1 == m[i].x1 || InX(s, x1 - 1))
      invariant i < |m| ==> forall k :: 0 <= k < |s| ==> s[k].x2 <= x1
      invariant CutAt(emitted, m, s, Edge(m, i, x1), y1, y2)
      invariant Settled(emitted, m, s, Edge(m, i, x1))
    {
      SpanEnds(m, i);
      NotYet(s, |s|, x1);
      KeepSpan(emitted, m, s, i, x1, y1, y2);
      emitted := emitted + [Box(x1, y1, m[i].x2, y2)];
      i := i + 1;
      if i < |m| {
        x1 := m[i].x1;
      }
    }
    EndCut(emitted, m, s, y1, y2);
    out' := out + emitted;
    assert out'[|out|..] == emitted;
  }

  lemma StartCut(m: seq<Box>, s: seq<Box>, y1: int, y2: int)
    requires m != [] && IsBand(m, m[0].y1, m[0].y2)
    ensures CutAt([], m, s, m[0].x1, y1, y2) && Settled([], m, s, m[0].x1)
  {
  }

  lemma EndCut(emitted: seq<Box>, m: seq<Box>, s: seq<Box>, y1: int, y2: int)
    requires m != [] && IsBand(m, m[0].y1, m[0].y2)
    requires CutAt(emitted, m, s, Edge(m, |m|, 0), y1, y2) && Settled(emitted, m, s, Edge(m, |m|, 0))
    ensures IsBand(emitted, y1, y2)
    ensures forall x :: InX(emitted, x) <==> InX(m, x) && !InX(s, x)
    ensures forall x :: SeamX(emitted, x) <==> BandSeam(Subtract, m, s, x)
  {
    hide SeamX, BandSeam, PieceOf;
    assert forall x :: InX(m, x) ==> x < Edge(m, |m|, 0);
    SubtractSeams(emitted, m, s, y1, y2);
  }

  lemma SubtractSeams(emitted: seq<Box>, m: seq<Box>, s: seq<Box>, y1: int, y2: int)
    requires m != [] && IsBand(m, m[0].y1, m[0].y2) && IsBand(emitted, y1, y2)
    requires forall k :: 0 <= k < |emitted| ==> PieceOf(emitted[k], m, s)
    requires forall x :: InX(emitted, x) <==> InX(m, x) && !InX(s, x)
    ensures forall x :: SeamX(emitted, x) <==> BandSeam(Subtract, m, s, x)
  {
    hide IsBand, InX, SeamX, PieceOf;
    forall x ensures SeamX(emitted, x) <==> BandSeam(Subtract, m, s, x) {
      if BandSeam(Subtract, m, s, x) {
        SubtractSeamKept(emitted, m, s, x);
      }
      if SeamX(emitted, x) {
        SeamSides(emitted, y1, y2, x);
        SubtractSeamFrom(emitted, m, s, x);
      }
    }
  }

  /** A seam with nothing taken away on either side is still there. */
  lemma SubtractSeamKept(emitted: seq<Box>, m: seq<Box>, s: seq<Box>, x: int)
    requires m != [] && IsBand(m, m[0].y1, m[0].y2) && SeamX(m, x) && !InX(s, x - 1) && !InX(s, x)
    requires forall c :: InX(m, c) && !InX(s, c) ==> InX(emitted, c)
    requires forall k :: 0 <= k < |emitted| ==> PieceOf(emitted[k], m, s)
    ensures SeamX(emitted, x)
  {
    hide IsBand, SeamX;
    SeamSides(m, m[0].y1, m[0].y2, x);
    assert InX(emitted, x - 1) && InX(emitted, x);
    var k :| 0 <= k < |emitted| && InSpan(emitted[k], x - 1);
    var h :| 0 <= h < |emitted| && InSpan(emitted[h], x);
    assert PieceOf(emitted[k], m, s) && PieceOf(emitted[h], m, s);
    Seamed(emitted, k, h, x);
  }

  /** A cut with no part of `s` on either side comes from a seam of `m`. */
  lemma SubtractSeamFrom(emitted: seq<Box>, m: seq<Box>, s: seq<Box>, x: int)
    requires SeamX(emitted, x) && !InX(s, x - 1) && !InX(s, x)
    requires forall k :: 0 <= k < |emitted| ==> PieceOf(emitted[k], m, s)
    ensures SeamX(m, x)
  {
    hide InX;
    var k :| 0 <= k < |emitted| && emitted[k].x2 == x;
    var h :| 0 <= h < |emitted| && emitted[h].x1 == x;
    assert PieceOf(emitted[k], m, s) && PieceOf(emitted[h], m, s);
  }

  /** Nothing of the result lies between the old edge and the new one. */
  lemma Skip(emitted: seq<Box>, m: seq<Box>, s: seq<Box>, edge: int, edge': int, y1: int, y2: int)
    requires edge <= edge'
    requires CutAt(emitted, m, s, edge, y1, y2) && Settled(emitted, m, s, edge)
    requires forall x :: edge <= x < edge' ==> !InX(m, x) || InX(s, x)
    ensures CutAt(emitted, m, s, edge', y1, y2) && Settled(emitted, m, s, edge')
  {
  }

  /** Emit the piece of span i up to where `s` begins; the new edge is beyond it. */
  lemma Keep(emitted: seq<Box>, m: seq<Box>, s: seq<Box>, i: nat, edge: int, end: int, y1: int, y2: int)
    requires i < |m| && m[i].x1 <= edge < end < m[i].x2 && (edge == m[i].x1 || InX(s, edge - 1)) && InX(s, end)
    requires CutAt(emitted, m, s, edge, y1, y2) && Settled(emitted, m, s, edge)
    requires forall x :: edge <= x < end ==> InX(m, x) && !InX(s, x)
    ensures var emitted' := emitted + [Box(edge, y1, end, y2)];
      CutAt(emitted', m, s, end + 1, y1, y2) && Settled(emitted', m, s, end + 1)
  {
    hide InX, IsBand, PieceOf;
    InXSnoc(emitted, Box(edge, y1, end, y2));
    AddSpan(emitted, edge, end, y1, y2);
    assert PieceOf(Box(edge, y1, end, y2), m, s) by { IsPiece(Box(edge, y1, end, y2), m, i, s); }
  }

  lemma IsPiece(e: Box, m: seq<Box>, p: nat, s: seq<Box>)
    requires p < |m| && m[p].x1 <= e.x1 && e.x2 <= m[p].x2
    requires (e.x1 == m[p].x1 || InX(s, e.x1 - 1)) && (e.x2 == m[p].x2 || InX(s, e.x2))
    ensures PieceOf(e, m, s)
  {
  }

  /** Emit what is left of span i; the next edge is the next span, or past the end. */
  lemma KeepSpan(emitted: seq<Box>, m: seq<Box>, s: seq<Box>, i: nat, x1: int, y1: int, y2: int)
    requires i < |m| && IsBand(m, m[0].y1, m[0].y2) && m[i].x1 <= x1 < m[i].x2 && (x1 == m[i].x1 || InX(s, x1 - 1))
    requires CutAt(emitted, m, s, x1, y1, y2) && Settled(emitted, m, s, x1)
    requires forall x :: x1 <= x < m[i].x2 ==> !InX(s, x)
    ensures var emitted' := emitted + [Box(x1, y1, m[i].x2, y2)];
      var edge' := Edge(m, i + 1, if i + 1 < |m| then m[i + 1].x1 else 0);
      CutAt(emitted', m, s, edge', y1, y2) && Settled(emitted', m, s, edge')
  {
    hide InX, IsBand, PieceOf;
    SpanEnds(m, i);
    NextStart(m, i);
    InXSnoc(emitted, Box(x1, y1, m[i].x2, y2));
    AddSpan(emitted, x1, m[i].x2, y1, y2);
    assert PieceOf(Box(x1, y1, m[i].x2, y2), m, s) by { IsPiece(Box(x1, y1, m[i].x2, y2), m, i, s); }
  }

  /** Before span j of `s`, and after the ones before it, there is nothing of `s`. */
  lemma NotYet(s: seq<Box>, j: nat, x1: int)
    requires j <= |s| && s != [] && IsBand(s, s[0].y1, s[0].y2)
    requires forall k :: 0 <= k < j ==> s[k].x2 <= x1
    ensures forall x :: x1 <= x && (j < |s| ==> x < s[j].x1) ==> !InX(s, x)
  {
  }

  /** Where the columns at and after span i of a band lie. */
  lemma SpanEnds(m: seq<Box>, i: nat)
    requires i < |m| && IsBand(m, m[0].y1, m[0].y2)
    ensures m[i].x1 < m[i].x2 && (i + 1 < |m| ==> m[i].x2 <= m[i + 1].x1 < m[i + 1].x2)
    ensures forall x :: InSpan(m[i], x) ==> InX(m, x)
    ensures forall x :: m[i].x2 <= x && (i + 1 < |m| ==> x < m[i + 1].x1) ==> !InX(m, x)
    ensures i == 0 ==> forall x :: x < m[0].x1 ==> !InX(m, x)
  {
    forall x | m[i].x2 <= x && (i + 1 < |m| ==> x < m[i + 1].x1) ensures !InX(m, x) {
      forall k | 0 <= k < |m| ensures !InSpan(m[k], x) {
        if k > i + 1 { assert m[i + 1].x2 <= m[k].x1; }
      }
    }
    forall x | InSpan(m[i], x) ensures InX(m, x) {}
  }

  /** `overlap`: dispatch on the operation. */
  method Overlap(kind: Kind, out: seq<Box>, a: seq<Box>, b: seq<Box>, y1: int, y2: int) returns (out': seq<Box>)
    requires a != [] && b != []
    requires IsBand(a, a[0].y1, a[0].y2) && IsBand(b, b[0].y1, b[0].y2)
    ensures out <= out'
    ensures IsBand(out'[|out|..], y1, y2)
    ensures forall x :: SeamX(out'[|out|..], x) <==> BandSeam(kind, a, b, x)
    ensures forall x :: InX(out'[|out|..], x) <==> Cell(kind, InX(a, x), InX(b, x))
  {
    match kind {
      case Union => {
        out' := UnionO(out, a, b, y1, y2);
        GappedIff(out'[|out|..], y1, y2);
      }
      case Intersect => out' := IntersectO(out, a, b, y1, y2);
      case Subtract => out' := SubtractO(out, a, b, y1, y2);
    }
  }
}
