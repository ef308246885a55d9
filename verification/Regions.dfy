/** The set operations on y-x banded regions (crates/yserver-core/src/region.rs). */
module Regions {
  import opened Plane
  import opened Boxes
  import opened Overlaps

  // ---------------------------------------------------------------- bands

  /** `band_end`: the end of the band starting at `start`. */
  method BandEnd(boxes: seq<Box>, start: nat) returns (end: nat)
    requires start < |boxes|
    ensures start < end <= |boxes|
    ensures forall k :: start <= k < end ==> boxes[k].y1 == boxes[start].y1
    ensures end < |boxes| ==> boxes[end].y1 != boxes[start].y1
  {
    end := start;
    while end < |boxes| && boxes[end].y1 == boxes[start].y1
      invariant start <= end <= |boxes|
      invariant forall k :: start <= k < end ==> boxes[k].y1 == boxes[start].y1
    {
      end := end + 1;
    }
  }

  /** Boxes start..end of `r` are one whole band and everything after it is below. */
  predicate BandAt(r: seq<Box>, start: nat, end: nat) {
    && start < end <= |r|
    && IsBand(r[start..end], r[start].y1, r[start].y2)
    && (forall k :: end <= k < |r| ==> r[start].y2 <= r[k].y1)
  }

  lemma BandOf(r: seq<Box>, start: nat, end: nat)
    requires Banded(r) && start < end <= |r|
    requires forall k :: start <= k < end ==> r[k].y1 == r[start].y1
    requires end < |r| ==> r[end].y1 != r[start].y1
    ensures BandAt(r, start, end)
    ensures Separated(r) ==> Gapped(r[start..end])
  {
  }

  /** Two boxes that share row y touch at column x. */
  predicate Touching(p: Box, n: Box, x: int, y: int) {
    p.x2 == x == n.x1 && p.y1 == n.y1 && p.y1 <= y < p.y2
  }

  /** Two boxes of the region touch between the pixels x - 1 and x of row y. */
  predicate Seam(r: seq<Box>, x: int, y: int) {
    exists i, j :: 0 <= i < |r| && 0 <= j < |r| && Touching(r[i], r[j], x, y)
  }

  lemma SeparatedIff(r: seq<Box>)
    requires Banded(r)
    ensures Separated(r) <==> forall x, y :: !Seam(r, x, y)
  {
    if Separated(r) {
      forall i, j, x, y | 0 <= i < |r| && 0 <= j < |r| ensures !Touching(r[i], r[j], x, y) {
        assert NonEmpty(r[i]) && NonEmpty(r[j]);
        if i < j { assert Before(r[i], r[j]) && Apart(r[i], r[j]); }
        if j < i { assert Before(r[j], r[i]); }
      }
    } else {
      var i, j :| 0 <= i < j < |r| && !Apart(r[i], r[j]);
      assert Before(r[i], r[j]) && NonEmpty(r[i]);
      assert Touching(r[i], r[j], r[i].x2, r[i].y1);
      assert Seam(r, r[i].x2, r[i].y1);
    }
  }

  /** Both pixels at a seam are in the region. */
  lemma SeamIn(r: seq<Box>)
    requires Banded(r)
    ensures forall x, y :: Seam(r, x, y) ==> In(r, x - 1, y) && In(r, x, y)
  {
  }

  /** The edge between rows y - 1 and y shows: in the pixels, or in the seams. */
  ghost predicate EdgeShows(r: seq<Box>, y: int) {
    exists x :: In(r, x, y - 1) != In(r, x, y) || Seam(r, x, y - 1) != Seam(r, x, y)
  }

  /** Where two bands touch, they are not the same spans. */
  ghost predicate Merged(r: seq<Box>) {
    forall k :: Boundary(r, k) ==> EdgeShows(r, r[k].y1)
  }

  /** Canonical is merged and without seams. */
  lemma CanonicalIff(r: seq<Box>)
    requires Banded(r)
    ensures Canonical(r) <==> Merged(r) && forall x, y :: !Seam(r, x, y)
  {
    hide In, Seam, Banded, Separated;
    SeparatedIff(r);
    if forall x, y :: !Seam(r, x, y) {
      assert forall y :: EdgeShows(r, y) <==> RowsDiffer(r, y);
    }
  }

  lemma BandSeams(band: seq<Box>, y1: int, y2: int)
    requires IsBand(band, y1, y2)
    ensures forall x, y :: Seam(band, x, y) <==> y1 <= y < y2 && SeamX(band, x)
  {
    forall x, y ensures Seam(band, x, y) <==> y1 <= y < y2 && SeamX(band, x) {
      if y1 <= y < y2 && SeamX(band, x) {
        var i :| 0 <= i < |band| && band[i].x2 == x;
        var j :| 0 <= j < |band| && band[j].x1 == x;
        assert Touching(band[i], band[j], x, y);
      }
    }
  }

  /** Boxes of different bands never touch sideways. */
  lemma SeamConcat(r: seq<Box>, s: seq<Box>)
    requires forall i, j :: 0 <= i < |r| && 0 <= j < |s| ==> r[i].y1 != s[j].y1
    ensures forall x, y :: Seam(r + s, x, y) <==> Seam(r, x, y) || Seam(s, x, y)
  {
    var t := r + s;
    forall x, y ensures Seam(t, x, y) <==> Seam(r, x, y) || Seam(s, x, y) {
      if Seam(r, x, y) {
        var i, j :| 0 <= i < |r| && 0 <= j < |r| && Touching(r[i], r[j], x, y);
        assert Touching(t[i], t[j], x, y);
      }
      if Seam(s, x, y) {
        var i, j :| 0 <= i < |s| && 0 <= j < |s| && Touching(s[i], s[j], x, y);
        assert Touching(t[|r| + i], t[|r| + j], x, y);
      }
      if Seam(t, x, y) {
        var i, j :| 0 <= i < |t| && 0 <= j < |t| && Touching(t[i], t[j], x, y);
        assert t[i].y1 == t[j].y1;
        assert if i < |r| then Touching(r[i], r[j], x, y) else Touching(s[i - |r|], s[j - |r|], x, y);
      }
    }
  }

  /** Two lists with the same rows y - 1 and y show the same edge. */
  lemma SameEdge(r: seq<Box>, s: seq<Box>, y: int)
    requires forall x :: (In(r, x, y - 1) <==> In(s, x, y - 1)) && (In(r, x, y) <==> In(s, x, y))
    requires forall x :: (Seam(r, x, y - 1) <==> Seam(s, x, y - 1)) && (Seam(r, x, y) <==> Seam(s, x, y))
    ensures EdgeShows(r, y) <==> EdgeShows(s, y)
  {
  }

  /** The rows of a region from the band at `start` on. */
  lemma RowsFrom(r: seq<Box>, start: nat, end: nat)
    requires Banded(r) && BandAt(r, start, end)
    ensures forall x, y :: In(r[start..], x, y) <==>
        (r[start].y1 <= y < r[start].y2 && InX(r[start..end], x)) || In(r[end..], x, y)
    ensures forall x, y :: In(r[end..], x, y) ==> y >= r[start].y2 && (end < |r| ==> y >= r[end].y1)
  {
    assert r[start..] == r[start..end] + r[end..];
    InConcat(r[start..end], r[end..]);
    InBand(r[start..end], r[start].y1, r[start].y2);
    AllBelow(r, end, r[start].y2);
    if end < |r| {
      forall k | end <= k < |r| ensures r[end].y1 <= r[k].y1 {
        if k > end { assert Before(r[end], r[k]); assert NonEmpty(r[end]); }
      }
      AllBelow(r, end, r[end].y1);
    }
  }

  lemma AllBelow(r: seq<Box>, from: nat, y0: int)
    requires from <= |r|
    requires forall k :: from <= k < |r| ==> y0 <= r[k].y1
    ensures forall x, y :: In(r[from..], x, y) ==> y0 <= y
  {
  }

  // ------------------------------------------------------- building a result

  /** Every box of `out` ends at or above row `low`, and `prev` is where its last band
      starts; or `out` ends strictly above `low` and there is no band to extend. */
  predicate Built(out: seq<Box>, prev: nat, low: int) {
    && prev <= |out|
    && Banded(out)
    && (forall k :: 0 <= k < |out| ==> out[k].y2 <= low)
    && (if prev < |out| then
          && (forall k :: prev <= k < |out| ==> out[k].y1 == out[prev].y1 && out[k].y2 == out[prev].y2)
          && (forall k :: 0 <= k < prev ==> out[k].y2 <= out[prev].y1)
        else forall k :: 0 <= k < |out| ==> out[k].y2 < low)
  }

  lemma BuiltLower(out: seq<Box>, prev: nat, low: int, low': int)
    requires Built(out, prev, low) && low <= low'
    ensures Built(out, prev, low')
  {
  }

  function WithRows(band: seq<Box>, y1: int, y2: int): (s: seq<Box>)
    ensures |s| == |band|
    ensures forall i :: 0 <= i < |s| ==> s[i] == Box(band[i].x1, y1, band[i].x2, y2)
  {
    seq(|band|, i requires 0 <= i < |band| => Box(band[i].x1, y1, band[i].x2, y2))
  }

  lemma WithRowsBand(band: seq<Box>, y1: int, y2: int)
    requires band != [] && IsBand(band, band[0].y1, band[0].y2)
    ensures IsBand(WithRows(band, y1, y2), y1, y2) && SameSpans(WithRows(band, y1, y2), band)
  {
  }

  /** `coalesce`: the band from `cur` on becomes part of the one from `prev` on if it continues
      it downwards span by span. Returns where the last band now starts. */
  method Coalesce(out: seq<Box>, prev: nat, cur: nat, ghost low: int, ghost y1: int, ghost y2: int)
    returns (out': seq<Box>, last: nat)
    requires prev <= cur <= |out| && low <= y1 < y2
    requires Built(out[..cur], prev, low) && IsBand(out[cur..], y1, y2)
    ensures Built(out', last, y2)
    ensures Merged(out[..cur]) ==> Merged(out')
    ensures forall x, y :: Seam(out', x, y) <==> Seam(out[..cur], x, y) || (y1 <= y < y2 && SeamX(out[cur..], x))
    ensures forall x, y :: In(out', x, y) <==> In(out[..cur], x, y) || (y1 <= y < y2 && InX(out[cur..], x))
  {
    hide In, InX, Merged, IsBand, Seam, SeamX, Built;
    var n := cur - prev;
    ghost var old', band := out[..cur], out[cur..];
    assert out == old' + band;
    if n == 0 || n != |out| - cur || out[prev].y2 != out[cur].y1 {
      if band != [] { BandRows(band, y1, y2); }
      AppendBand(old', prev, band, low, y1, y2);
      return out, cur;
    }
    assert out[prev..cur] == old'[prev..];
    if !SameSpans(out[prev..cur], out[cur..]) {
      AppendBand(old', prev, band, low, y1, y2);
      return out, cur;
    }
    assert out[cur] == band[0] && out[prev] == old'[prev];
    BandRows(band, y1, y2);
    out' := out[..prev] + WithRows(out[prev..cur], out[prev].y1, out[cur].y2);
    last := prev;
    assert out[..prev] == old'[..prev] && out[prev..cur] == old'[prev..];
    ExtendBand(old', prev, band, low, y1, y2);
  }

  lemma BandRows(band: seq<Box>, y1: int, y2: int)
    requires band != [] && IsBand(band, y1, y2)
    ensures band[0].y1 == y1 && band[0].y2 == y2
  {
  }

  /** Appending a band that cannot be merged into the last one. */
  lemma AppendBand(out: seq<Box>, prev: nat, band: seq<Box>, low: int, y1: int, y2: int)
    requires low <= y1 < y2 && Built(out, prev, low) && IsBand(band, y1, y2)
    requires prev == |out| || band == [] || out[prev].y2 != y1 || !SameSpans(out[prev..], band)
    ensures Built(out + band, |out|, y2)
    ensures Merged(out) ==> Merged(out + band)
    ensures forall x, y :: Seam(out + band, x, y) <==> Seam(out, x, y) || (y1 <= y < y2 && SeamX(band, x))
    ensures forall x, y :: In(out + band, x, y) <==> In(out, x, y) || (y1 <= y < y2 && InX(band, x))
  {
    hide In, InX, Seam, SeamX, Merged;
    AppendCells(out, band, low, y1, y2);
    AppendBuilt(out, prev, band, low, y1, y2);
    AppendSeams(out, prev, band, low, y1, y2);
    if Merged(out) { AppendMerged(out, prev, band, low, y1, y2); }
  }

  /** Appending a gapped band keeps the result canonical. */
  lemma AppendGapped(out: seq<Box>, prev: nat, band: seq<Box>, low: int, y1: int, y2: int)
    requires low <= y1 < y2 && Built(out, prev, low) && IsBand(band, y1, y2)
    requires prev == |out| || band == [] || out[prev].y2 != y1 || !SameSpans(out[prev..], band)
    requires Canonical(out) && Gapped(band)
    ensures Built(out + band, |out|, y2) && Canonical(out + band)
    ensures forall x, y :: In(out + band, x, y) <==> In(out, x, y) || (y1 <= y < y2 && InX(band, x))
  {
    hide In, InX, Seam, SeamX, Merged, IsBand, Gapped, Canonical, SameSpans, Built;
    CanonicalBands(out);
    AppendBand(out, prev, band, low, y1, y2);
    BuiltBanded(out + band, |out|, y2);
    GappedIff(band, y1, y2);
    CanonicalIff(out + band);
  }

  lemma AppendCells(out: seq<Box>, band: seq<Box>, low: int, y1: int, y2: int)
    requires low <= y1 < y2 && IsBand(band, y1, y2)
    requires forall k :: 0 <= k < |out| ==> out[k].y2 <= low
    ensures forall x, y :: In(out + band, x, y) <==> In(out, x, y) || (y1 <= y < y2 && InX(band, x))
    ensures forall x, y :: In(out, x, y) ==> y < low
  {
    InConcat(out, band);
    InBand(band, y1, y2);
  }

  lemma AppendBuilt(out: seq<Box>, prev: nat, band: seq<Box>, low: int, y1: int, y2: int)
    requires low <= y1 < y2 && Built(out, prev, low) && IsBand(band, y1, y2)
    ensures Built(out + band, |out|, y2)
  {
  }

  lemma AppendSeams(out: seq<Box>, prev: nat, band: seq<Box>, low: int, y1: int, y2: int)
    requires low <= y1 < y2 && IsBand(band, y1, y2) && Built(out, prev, low)
    ensures forall x, y :: Seam(out + band, x, y) <==> Seam(out, x, y) || (y1 <= y < y2 && SeamX(band, x))
    ensures forall x, y :: Seam(out, x, y) ==> y < low
  {
    assert forall i :: 0 <= i < |out| ==> NonEmpty(out[i]) && out[i].y2 <= low;
    hide Built, Seam, SeamX;
    assert forall i, j :: 0 <= i < |out| && 0 <= j < |band| ==> out[i].y1 != band[j].y1;
    BandSeams(band, y1, y2);
    SeamConcat(out, band);
    assert forall x, y :: Seam(out, x, y) ==> y < low by { SeamsAbove(out, low); }
  }

  lemma SeamsAbove(out: seq<Box>, low: int)
    requires forall k :: 0 <= k < |out| ==> out[k].y2 <= low
    ensures forall x, y :: Seam(out, x, y) ==> y < low
  {
  }

  lemma AppendMerged(out: seq<Box>, prev: nat, band: seq<Box>, low: int, y1: int, y2: int)
    requires low <= y1 < y2 && Built(out, prev, low) && IsBand(band, y1, y2) && Merged(out)
    requires prev == |out| || band == [] || out[prev].y2 != y1 || !SameSpans(out[prev..], band)
    ensures Merged(out + band)
  {
    var s := out + band;
    AppendCells(out, band, low, y1, y2);
    AppendSeams(out, prev, band, low, y1, y2);
    hide In, InX, Seam, SeamX, EdgeShows, IsBand;
    forall k | Boundary(s, k) ensures EdgeShows(s, s[k].y1) {
      if k < |out| {
        assert Boundary(out, k) && NonEmpty(out[k]);
        SameEdge(out, s, out[k].y1);
      } else if k == |out| {
        assert s[k] == band[0] && s[k - 1] == out[k - 1];
        BandRows(band, y1, y2);
        assert out[prev].y2 == out[k - 1].y2 == y1;
        LastRow(out, prev, low);
        EdgeOfBands(s, y1, out[prev..], out[prev].y1, out[prev].y2, band, y1, y2);
      } else {
        InsideBand(out, band, y1, y2, k);
      }
    }
  }

  /** Between two bands with different spans the edge shows. */
  lemma EdgeOfBands(s: seq<Box>, y: int, a: seq<Box>, y1: int, y2: int, b: seq<Box>, y3: int, y4: int)
    requires IsBand(a, y1, y2) && IsBand(b, y3, y4) && !SameSpans(a, b)
    requires forall x :: (In(s, x, y - 1) <==> InX(a, x)) && (In(s, x, y) <==> InX(b, x))
    requires forall x :: (Seam(s, x, y - 1) <==> SeamX(a, x)) && (Seam(s, x, y) <==> SeamX(b, x))
    ensures EdgeShows(s, y)
  {
    hide In, InX, Seam, SeamX, IsBand, SameSpans;
    if forall x :: (InX(a, x) <==> InX(b, x)) && (SeamX(a, x) <==> SeamX(b, x)) {
      BandUnique(a, y1, y2, b, y3, y4);
    }
    var x :| InX(a, x) != InX(b, x) || SeamX(a, x) != SeamX(b, x);
    assert In(s, x, y - 1) != In(s, x, y) || Seam(s, x, y - 1) != Seam(s, x, y);
  }

  lemma InsideBand(out: seq<Box>, band: seq<Box>, y1: int, y2: int, k: nat)
    requires IsBand(band, y1, y2) && y1 < y2 && |out| < k < |out + band|
    ensures !Boundary(out + band, k)
  {
  }

  lemma LastBand(out: seq<Box>, prev: nat, low: int)
    requires Built(out, prev, low) && prev < |out|
    ensures IsBand(out[prev..], out[prev].y1, out[prev].y2)
    ensures out[prev].y1 < out[prev].y2 <= low
    ensures forall k :: 0 <= k < |out[..prev]| ==> NonEmpty(out[..prev][k]) && out[..prev][k].y2 <= out[prev].y1
  {
  }

  /** The last row of `out` is made of the spans of its last band. */
  lemma LastRow(out: seq<Box>, prev: nat, low: int)
    requires Built(out, prev, low) && prev < |out|
    ensures out[prev].y1 < out[prev].y2 && IsBand(out[prev..], out[prev].y1, out[prev].y2)
    ensures forall x, y :: out[prev].y1 <= y < out[prev].y2 ==> (In(out, x, y) <==> InX(out[prev..], x))
    ensures forall x, y :: out[prev].y1 <= y < out[prev].y2 ==> (Seam(out, x, y) <==> SeamX(out[prev..], x))
    ensures forall x, y :: In(out, x, y) ==> y < out[prev].y2
    ensures forall x, y :: y < out[prev].y1 ==> (In(out, x, y) <==> In(out[..prev], x, y))
    ensures forall x, y :: y < out[prev].y1 ==> (Seam(out, x, y) <==> Seam(out[..prev], x, y))
    ensures forall x, y :: In(out[..prev], x, y) || Seam(out[..prev], x, y) ==> y < out[prev].y1
  {
    hide Built, In, InX, Seam, SeamX;
    LastBand(out, prev, low);
    var above, band := out[..prev], out[prev..];
    assert out == above + band;
    InConcat(above, band);
    InBand(band, out[prev].y1, out[prev].y2);
    SeamConcat(above, band);
    BandSeams(band, out[prev].y1, out[prev].y2);
    RowsAbove(above, out[prev].y1);
    SeamsAbove(above, out[prev].y1);
  }

  lemma RowsAbove(out: seq<Box>, low: int)
    requires forall k :: 0 <= k < |out| ==> out[k].y2 <= low
    ensures forall x, y :: In(out, x, y) ==> y < low
  {
  }

  /** Extending the last band down over a band with the same spans. */
  lemma ExtendBand(out: seq<Box>, prev: nat, band: seq<Box>, low: int, y1: int, y2: int)
    requires low <= y1 < y2 && Built(out, prev, low) && IsBand(band, y1, y2)
    requires prev < |out| && out[prev].y2 == y1 && SameSpans(out[prev..], band)
    ensures var out' := out[..prev] + WithRows(out[prev..], out[prev].y1, y2);
      && Built(out', prev, y2)
      && (Merged(out) ==> Merged(out'))
      && (forall x, y :: Seam(out', x, y) <==> Seam(out, x, y) || (y1 <= y < y2 && SeamX(band, x)))
      && (forall x, y :: In(out', x, y) <==> In(out, x, y) || (y1 <= y < y2 && InX(band, x)))
  {
    hide In, InX, Seam, SeamX, Merged, Built;
    ExtendCells(out, prev, band, low, y1, y2);
    ExtendSeams(out, prev, band, low, y1, y2);
    ExtendBuilt(out, prev, low, y1, y2);
    if Merged(out) { ExtendMerged(out, prev, band, low, y1, y2); }
  }

  lemma ExtendBuilt(out: seq<Box>, prev: nat, low: int, y1: int, y2: int)
    requires low <= y1 < y2 && Built(out, prev, low) && prev < |out| && out[prev].y2 == y1
    ensures Built(out[..prev] + WithRows(out[prev..], out[prev].y1, y2), prev, y2)
  {
  }

  lemma ExtendMerged(out: seq<Box>, prev: nat, band: seq<Box>, low: int, y1: int, y2: int)
    requires low <= y1 < y2 && Built(out, prev, low) && IsBand(band, y1, y2) && Merged(out)
    requires prev < |out| && out[prev].y2 == y1 && SameSpans(out[prev..], band)
    ensures Merged(out[..prev] + WithRows(out[prev..], out[prev].y1, y2))
  {
    var out' := out[..prev] + WithRows(out[prev..], out[prev].y1, y2);
    ExtendCells(out, prev, band, low, y1, y2);
    ExtendSeams(out, prev, band, low, y1, y2);
    hide In, InX, Seam, SeamX, EdgeShows, IsBand, SameSpans;
    forall k | Boundary(out', k) ensures EdgeShows(out', out'[k].y1) {
      ExtendedBoundary(out, prev, low, y2, k);
      SameEdge(out, out', out[k].y1);
    }
  }

  lemma ExtendedBoundary(out: seq<Box>, prev: nat, low: int, y2: int, k: int)
    requires Built(out, prev, low) && prev < |out| && out[prev].y2 < y2
    requires Boundary(out[..prev] + WithRows(out[prev..], out[prev].y1, y2), k)
    ensures k <= prev && Boundary(out, k) && out[k].y1 < out[prev].y2
    ensures (out[..prev] + WithRows(out[prev..], out[prev].y1, y2))[k].y1 == out[k].y1
  {
    if k < prev { assert NonEmpty(out[k]) && NonEmpty(out[prev]); }
  }

  lemma SameSpansSameColumns(s: seq<Box>, t: seq<Box>)
    requires SameSpans(s, t)
    ensures forall x :: (InX(s, x) <==> InX(t, x)) && (SeamX(s, x) <==> SeamX(t, x))
  {
    forall x ensures (InX(s, x) <==> InX(t, x)) && (SeamX(s, x) <==> SeamX(t, x)) {
      SpansWithin(s, t, x);
      SpansWithin(t, s, x);
    }
  }

  lemma SpansWithin(s: seq<Box>, t: seq<Box>, x: int)
    requires SameSpans(s, t)
    ensures (InX(s, x) ==> InX(t, x)) && (SeamX(s, x) ==> SeamX(t, x))
  {
    if InX(s, x) {
      var i :| 0 <= i < |s| && InSpan(s[i], x);
      assert InSpan(t[i], x);
    }
    if SeamX(s, x) {
      var i :| 0 <= i < |s| && s[i].x2 == x;
      var j :| 0 <= j < |s| && s[j].x1 == x;
      assert t[i].x2 == x && t[j].x1 == x;
    }
  }

  /** The last band, made taller. */
  lemma TallBand(out: seq<Box>, prev: nat, low: int, y2: int)
    requires Built(out, prev, low) && prev < |out| && out[prev].y2 < y2
    ensures var tall := WithRows(out[prev..], out[prev].y1, y2);
      && IsBand(tall, out[prev].y1, y2) && SameSpans(tall, out[prev..])
      && forall i, j :: 0 <= i < |out[..prev]| && 0 <= j < |tall| ==>
          out[..prev][i].y1 != tall[j].y1 && out[..prev][i].y1 != out[prev..][j].y1
  {
  }

  lemma ExtendSeams(out: seq<Box>, prev: nat, band: seq<Box>, low: int, y1: int, y2: int)
    requires low <= y1 < y2 && Built(out, prev, low) && IsBand(band, y1, y2)
    requires prev < |out| && out[prev].y2 == y1 && SameSpans(out[prev..], band)
    ensures var out' := out[..prev] + WithRows(out[prev..], out[prev].y1, y2);
      forall x, y :: Seam(out', x, y) <==> Seam(out, x, y) || (y1 <= y < y2 && SeamX(band, x))
  {
    hide Built, Seam, SeamX, IsBand, SameSpans;
    var above, last, tall := out[..prev], out[prev..], WithRows(out[prev..], out[prev].y1, y2);
    TallBand(out, prev, low, y2);
    LastRow(out, prev, low);
    assert out == above + last;
    BandSeams(tall, out[prev].y1, y2);
    BandSeams(last, out[prev].y1, y1);
    SeamConcat(above, tall);
    SeamConcat(above, last);
    SameSpansSameColumns(tall, last);
    SameSpansSameColumns(last, band);
  }

  lemma ExtendCells(out: seq<Box>, prev: nat, band: seq<Box>, low: int, y1: int, y2: int)
    requires low <= y1 < y2 && Built(out, prev, low) && IsBand(band, y1, y2)
    requires prev < |out| && out[prev].y2 == y1 && SameSpans(out[prev..], band)
    ensures var out' := out[..prev] + WithRows(out[prev..], out[prev].y1, y2);
      forall x, y :: In(out', x, y) <==> In(out, x, y) || (y1 <= y < y2 && InX(band, x))
  {
    hide Built, In, InX, SeamX, Seam, IsBand, SameSpans;
    var above, last, tall := out[..prev], out[prev..], WithRows(out[prev..], out[prev].y1, y2);
    TallBand(out, prev, low, y2);
    LastRow(out, prev, low);
    assert out == above + last;
    InBand(tall, out[prev].y1, y2);
    InBand(last, out[prev].y1, y1);
    InConcat(above, tall);
    InConcat(above, last);
    SameSpansSameColumns(tall, last);
    SameSpansSameColumns(last, band);
  }

  // ------------------------------------------------------- the band sweep

  /** Rows above `low` are done: `out` holds the result there and nothing below. */
  ghost predicate Swept(out: seq<Box>, ra: seq<Box>, rb: seq<Box>, kind: Kind, low: int) {
    forall x, y :: In(out, x, y) <==> y < low && Cell(kind, In(ra, x, y), In(rb, x, y))
  }

  /** The bands of `r` before box i end at or above `low`; the band at i reaches below it. */
  predicate At(r: seq<Box>, i: nat, low: int) {
    && i <= |r|
    && (forall k :: 0 <= k < i ==> r[k].y2 <= low)
    && (i < |r| ==> low < r[i].y2)
  }

  /** Down to the end of the current band, the rows of `r` are that band's. */
  lemma RowsAt(r: seq<Box>, i: nat, end: nat, low: int)
    requires Banded(r) && At(r, i, low) && BandAt(r, i, end)
    ensures forall x, y :: low <= y < r[i].y2 ==> (In(r, x, y) <==> r[i].y1 <= y && InX(r[i..end], x))
  {
    NoRowsBefore(r, i, low);
    RowsFrom(r, i, end);
  }

  lemma NoRowsBefore(r: seq<Box>, i: nat, low: int)
    requires At(r, i, low)
    ensures forall x, y :: y >= low ==> (In(r, x, y) <==> In(r[i..], x, y))
  {
  }

  /** Past the end of the sweep the current band gives way to the next one. */
  lemma NextBand(r: seq<Box>, i: nat, end: nat, low: int, low': int)
    requires Banded(r) && At(r, i, low) && BandAt(r, i, end) && low <= low' <= r[i].y2
    ensures low' < r[i].y2 ==> At(r, i, low')
    ensures low' == r[i].y2 ==> At(r, end, low') && (end < |r| ==> low' <= r[end].y1)
  {
  }

  /** `append_non` then `coalesce`: one operand's band over the rows only it covers. */
  method AppendNon(out: seq<Box>, prev: nat, band: seq<Box>, top: int, bot: int, ghost low: int)
    returns (out': seq<Box>, last: nat)
    requires low <= top < bot && Built(out, prev, low)
    requires band != [] && IsBand(band, band[0].y1, band[0].y2)
    ensures Built(out', last, bot)
    ensures Merged(out) ==> Merged(out')
    ensures forall x, y :: Seam(out', x, y) <==> Seam(out, x, y) || (top <= y < bot && SeamX(band, x))
    ensures forall x, y :: In(out', x, y) <==> In(out, x, y) || (top <= y < bot && InX(band, x))
  {
    hide In, InX, Merged, IsBand, Seam, SeamX, Built, SameSpans;
    var cur := |out|;
    var grown := out + WithRows(band, top, bot);
    WithRowsBand(band, top, bot);
    SameSpansSameColumns(WithRows(band, top, bot), band);
    assert grown[..cur] == out && grown[cur..] == WithRows(band, top, bot);
    BuiltBound(out, prev, low);
    out', last := Coalesce(grown, prev, cur, low, top, bot);
  }

  lemma BuiltBound(out: seq<Box>, prev: nat, low: int)
    requires Built(out, prev, low)
    ensures prev <= |out|
  {
  }

  /** One step's worth of rows: the rows low <= y < bot of the result are the band's from `top` on. */
  lemma SweepBand(out: seq<Box>, out': seq<Box>, ra: seq<Box>, rb: seq<Box>, kind: Kind, low: int, top: int,
                  bot: int, band: seq<Box>)
    requires low <= top && low <= bot && Swept(out, ra, rb, kind, low)
    requires forall x, y :: In(out', x, y) <==> In(out, x, y) || (top <= y < bot && InX(band, x))
    requires forall x, y :: low <= y < bot ==> (Cell(kind, In(ra, x, y), In(rb, x, y)) <==> top <= y && InX(band, x))
    ensures Swept(out', ra, rb, kind, bot)
  {
  }

  lemma SweepNothing(out: seq<Box>, ra: seq<Box>, rb: seq<Box>, kind: Kind, low: int, bot: int)
    requires low <= bot && Swept(out, ra, rb, kind, low)
    requires forall x, y :: low <= y < bot ==> !Cell(kind, In(ra, x, y), In(rb, x, y))
    ensures Swept(out, ra, rb, kind, bot)
  {
  }

  /** The same for the seams. */
  lemma SweepSeams(out: seq<Box>, out': seq<Box>, ra: seq<Box>, rb: seq<Box>, kind: Kind, low: int, top: int,
                   bot: int, band: seq<Box>)
    requires low <= top && low <= bot && SeamsSwept(out, ra, rb, kind, low)
    requires forall x, y :: Seam(out', x, y) <==> Seam(out, x, y) || (top <= y < bot && SeamX(band, x))
    requires forall x, y :: low <= y < bot ==> (SeamKept(kind, ra, rb, x, y) <==> top <= y && SeamX(band, x))
    ensures SeamsSwept(out', ra, rb, kind, bot)
  {
    hide Seam, SeamX, SeamKept;
  }

  lemma SweepNoSeams(out: seq<Box>, ra: seq<Box>, rb: seq<Box>, kind: Kind, low: int, bot: int)
    requires low <= bot && SeamsSwept(out, ra, rb, kind, low)
    requires forall x, y :: low <= y < bot ==> !SeamKept(kind, ra, rb, x, y)
    ensures SeamsSwept(out, ra, rb, kind, bot)
  {
    hide Seam, SeamKept;
  }

  /** No pixel of the row. */
  ghost predicate Blank(r: seq<Box>, y: int) {
    forall x :: !In(r, x, y)
  }

  /** Where the result has touching boxes: at a seam of an operand whose two pixels are both in
      the result; for a union, only in the rows where the other operand has nothing. */
  ghost predicate SeamKept(kind: Kind, a: seq<Box>, b: seq<Box>, x: int, y: int) {
    match kind
    case Union => (Seam(a, x, y) && Blank(b, y)) || (Seam(b, x, y) && Blank(a, y))
    case Intersect => (Seam(a, x, y) || Seam(b, x, y)) && In(a, x - 1, y) && In(a, x, y) && In(b, x - 1, y)
      && In(b, x, y)
    case Subtract => Seam(a, x, y) && !In(b, x - 1, y) && !In(b, x, y)
  }

  /** Rows above `low` are done for the seams, too. */
  ghost predicate SeamsSwept(out: seq<Box>, ra: seq<Box>, rb: seq<Box>, kind: Kind, low: int) {
    forall x, y :: Seam(out, x, y) <==> y < low && SeamKept(kind, ra, rb, x, y)
  }

  /** The state of the sweep: result so far, and where each operand stands. */
  ghost predicate Sweeping(ra: seq<Box>, rb: seq<Box>, kind: Kind, out: seq<Box>, prev: nat, low: int) {
    && Built(out, prev, low)
    && Merged(out)
    && SeamsSwept(out, ra, rb, kind, low)
    && Swept(out, ra, rb, kind, low)
  }

  /** The seams of `r` in the rows of the current band are that band's. */
  lemma SeamsAt(r: seq<Box>, i: nat, end: nat, low: int)
    requires Banded(r) && At(r, i, low) && BandAt(r, i, end)
    ensures forall x, y :: low <= y < r[i].y2 ==> (Seam(r, x, y) <==> r[i].y1 <= y && SeamX(r[i..end], x))
  {
    hide Banded, At, IsBand, Seam, SeamX;
    var band := r[i..end];
    forall x, y | low <= y < r[i].y2 ensures Seam(r, x, y) <==> r[i].y1 <= y && SeamX(band, x) {
      if Seam(r, x, y) { SeamOfBand(r, i, end, low, x, y); }
      if r[i].y1 <= y && SeamX(band, x) { BandOfSeam(r, i, end, x, y); }
    }
  }

  lemma SeamOfBand(r: seq<Box>, i: nat, end: nat, low: int, x: int, y: int)
    requires Banded(r) && At(r, i, low) && BandAt(r, i, end) && low <= y < r[i].y2 && Seam(r, x, y)
    ensures r[i].y1 <= y && SeamX(r[i..end], x)
  {
    hide Banded, At, BandAt;
    var p, q :| 0 <= p < |r| && 0 <= q < |r| && Touching(r[p], r[q], x, y);
    SameBand(r, p, q);
    InCurrentBand(r, i, end, low, p, y);
    InCurrentBand(r, i, end, low, q, y);
    assert r[i..end][p - i].x2 == x && r[i..end][q - i].x1 == x;
  }

  lemma BandOfSeam(r: seq<Box>, i: nat, end: nat, x: int, y: int)
    requires BandAt(r, i, end) && r[i].y1 <= y < r[i].y2 && SeamX(r[i..end], x)
    ensures Seam(r, x, y)
  {
    var band := r[i..end];
    var p :| 0 <= p < |band| && band[p].x2 == x;
    var q :| 0 <= q < |band| && band[q].x1 == x;
    assert Touching(r[i + p], r[i + q], x, y);
  }

  lemma SameBand(r: seq<Box>, p: nat, q: nat)
    requires Banded(r) && p < |r| && q < |r| && r[p].y1 == r[q].y1
    ensures r[p].y2 == r[q].y2
  {
  }

  lemma InCurrentBand(r: seq<Box>, i: nat, end: nat, low: int, p: nat, y: int)
    requires At(r, i, low) && BandAt(r, i, end) && low <= y < r[i].y2
    requires p < |r| && r[p].y1 <= y < r[p].y2
    ensures i <= p < end && end <= |r| && r[p].y1 == r[i].y1 && r[p].y2 == r[i].y2
  {
    assert r[p] == r[i..end][p - i];
  }

  /** `p` is one operand of the operation and `q` the other. */
  predicate Sides(ra: seq<Box>, rb: seq<Box>, p: seq<Box>, q: seq<Box>, first: bool) {
    if first then p == ra && q == rb else p == rb && q == ra
  }

  /** One operand's band, in rows the other leaves blank: its seams are kept. */
  lemma SeamsOfOne(kind: Kind, ra: seq<Box>, rb: seq<Box>, p: seq<Box>, q: seq<Box>, first: bool, low: int,
                   top: int, bot: int, band: seq<Box>)
    requires low <= top < bot && Sides(ra, rb, p, q, first) && Cell(kind, first, !first) && Banded(q)
    requires band != [] && IsBand(band, band[0].y1, band[0].y2)
    requires forall x, y :: low <= y < bot ==> (Seam(p, x, y) <==> top <= y && SeamX(band, x))
    requires forall x, y :: low <= y < bot ==> !In(q, x, y)
    ensures forall x, y :: low <= y < bot ==> (SeamKept(kind, ra, rb, x, y) <==> top <= y && SeamX(band, x))
  {
    hide In, Seam, SeamX, IsBand, Banded;
    SeamIn(q);
    forall x, y | low <= y < bot ensures SeamKept(kind, ra, rb, x, y) <==> top <= y && SeamX(band, x) {
      assert Blank(q, y);
    }
  }

  /** Rows in which one operand is blank and the other blank, too, or not copied. */
  lemma SeamsDropped(kind: Kind, ra: seq<Box>, rb: seq<Box>, p: seq<Box>, q: seq<Box>, first: bool, low: int, bot: int)
    requires low <= bot && Sides(ra, rb, p, q, first) && Banded(p) && Banded(q)
    requires low == bot || !Cell(kind, first, !first) || forall x, y :: low <= y < bot ==> !In(p, x, y)
    requires forall x, y :: low <= y < bot ==> !In(q, x, y)
    ensures forall x, y :: low <= y < bot ==> !SeamKept(kind, ra, rb, x, y)
  {
    hide In, Seam, Banded;
    SeamIn(p);
    SeamIn(q);
  }

  /** The overlap of two bands keeps the seams the overlap function keeps. */
  lemma SeamsOfBoth(kind: Kind, ra: seq<Box>, rb: seq<Box>, low: int, bot: int, a: seq<Box>, b: seq<Box>,
                    band: seq<Box>)
    requires low < bot && Banded(ra) && Banded(rb)
    requires a != [] && b != [] && IsBand(a, a[0].y1, a[0].y2) && IsBand(b, b[0].y1, b[0].y2)
    requires forall x, y :: low <= y < bot ==> (Seam(ra, x, y) <==> SeamX(a, x)) && (In(ra, x, y) <==> InX(a, x))
    requires forall x, y :: low <= y < bot ==> (Seam(rb, x, y) <==> SeamX(b, x)) && (In(rb, x, y) <==> InX(b, x))
    requires forall x :: SeamX(band, x) <==> BandSeam(kind, a, b, x)
    ensures forall x, y :: low <= y < bot ==> (SeamKept(kind, ra, rb, x, y) <==> SeamX(band, x))
  {
    hide Seam, SeamX, In, Banded;
    assert InX(a, a[0].x1) && InX(b, b[0].x1) by { assert InSpan(a[0], a[0].x1) && InSpan(b[0], b[0].x1); }
    hide InX, IsBand;
    forall x, y | low <= y < bot ensures SeamKept(kind, ra, rb, x, y) <==> BandSeam(kind, a, b, x) {
      assert In(ra, a[0].x1, y) && In(rb, b[0].x1, y);
    }
  }

  /** The rows from `low` to the first row both operands may cover. */
  method OneSided(ra: seq<Box>, rb: seq<Box>, kind: Kind, appendA: bool, appendB: bool,
                  i: nat, ia: nat, j: nat, jb: nat, out: seq<Box>, prev: nat, low: int)
    returns (out': seq<Box>, last: nat, ytop: int)
    requires Banded(ra) && Banded(rb)
    requires appendA == Cell(kind, true, false) && appendB == Cell(kind, false, true)
    requires At(ra, i, low) && BandAt(ra, i, ia)
    requires At(rb, j, low) && BandAt(rb, j, jb)
    requires low <= ra[i].y1 || low <= rb[j].y1
    requires Sweeping(ra, rb, kind, out, prev, low)
    ensures ytop == Max(ra[i].y1, rb[j].y1)
    ensures low <= Min(ytop, Min(ra[i].y2, rb[j].y2))
    ensures Sweeping(ra, rb, kind, out', last, Min(ytop, Min(ra[i].y2, rb[j].y2)))
  {
    hide In, InX, IsBand, Built, At, Merged, Banded, Seam, SeamX, SeamKept, SeamsSwept, Swept;
    out', last := out, prev;
    RowsAt(ra, i, ia, low);
    RowsAt(rb, j, jb, low);
    SeamsAt(ra, i, ia, low);
    SeamsAt(rb, j, jb, low);
    Heights(ra, i, low);
    Heights(rb, j, low);
    var a1, b1 := ra[i].y1, rb[j].y1;
    ghost var mid := Min(Max(a1, b1), Min(ra[i].y2, rb[j].y2));
    if a1 < b1 {
      if appendA && Max(a1, low) != Min(ra[i].y2, b1) {
        assert ra[i..ia][0] == ra[i];
        out', last := AppendNon(out, prev, ra[i..ia], Max(a1, low), Min(ra[i].y2, b1), low);
        SweepBand(out, out', ra, rb, kind, low, Max(a1, low), mid, ra[i..ia]);
        SeamsOfOne(kind, ra, rb, ra, rb, true, low, Max(a1, low), mid, ra[i..ia]);
        SweepSeams(out, out', ra, rb, kind, low, Max(a1, low), mid, ra[i..ia]);
      } else {
        SeamsDropped(kind, ra, rb, ra, rb, true, low, mid);
        SweepNoSeams(out, ra, rb, kind, low, mid);
        SweepNothing(out, ra, rb, kind, low, mid);
        BuiltLower(out, prev, low, mid);
      }
      ytop := b1;
    } else if b1 < a1 {
      if appendB && Max(b1, low) != Min(rb[j].y2, a1) {
        assert rb[j..jb][0] == rb[j];
        out', last := AppendNon(out, prev, rb[j..jb], Max(b1, low), Min(rb[j].y2, a1), low);
        SweepBand(out, out', ra, rb, kind, low, Max(b1, low), mid, rb[j..jb]);
        SeamsOfOne(kind, ra, rb, rb, ra, false, low, Max(b1, low), mid, rb[j..jb]);
        SweepSeams(out, out', ra, rb, kind, low, Max(b1, low), mid, rb[j..jb]);
      } else {
        SeamsDropped(kind, ra, rb, rb, ra, false, low, mid);
        SweepNoSeams(out, ra, rb, kind, low, mid);
        SweepNothing(out, ra, rb, kind, low, mid);
        BuiltLower(out, prev, low, mid);
      }
      ytop := a1;
    } else {
      SeamsDropped(kind, ra, rb, ra, rb, true, low, mid);
      SweepNoSeams(out, ra, rb, kind, low, mid);
      SweepNothing(out, ra, rb, kind, low, mid);
      BuiltLower(out, prev, low, mid);
      ytop := a1;
    }
  }

  lemma Heights(r: seq<Box>, i: nat, low: int)
    requires Banded(r) && At(r, i, low) && i < |r|
    ensures r[i].y1 < r[i].y2 && low < r[i].y2
  {
  }

  /** The rows both bands cover: ytop <= y < ybot. */
  method TwoSided(ra: seq<Box>, rb: seq<Box>, kind: Kind, i: nat, ia: nat, j: nat, jb: nat,
                  out: seq<Box>, prev: nat, ytop: int, ybot: int)
    returns (out': seq<Box>, last: nat)
    requires Banded(ra) && Banded(rb)
    requires BandAt(ra, i, ia)
    requires BandAt(rb, j, jb)
    requires ytop == Max(ra[i].y1, rb[j].y1) && ybot == Min(ra[i].y2, rb[j].y2) && ytop < ybot
    requires At(ra, i, ytop) && At(rb, j, ytop)
    requires Sweeping(ra, rb, kind, out, prev, ytop)
    ensures Sweeping(ra, rb, kind, out', last, ybot)
  {
    hide In, InX, IsBand, Built, At, Merged, Banded, Seam, SeamX, SeamKept, SeamsSwept, Swept, BandSeam;
    RowsAt(ra, i, ia, ytop);
    RowsAt(rb, j, jb, ytop);
    SeamsAt(ra, i, ia, ytop);
    SeamsAt(rb, j, jb, ytop);
    var cur := |out|;
    assert ra[i..ia][0] == ra[i] && rb[j..jb][0] == rb[j];
    var grown := Overlap(kind, out, ra[i..ia], rb[j..jb], ytop, ybot);
    assert grown[..cur] == out;
    BuiltBound(out, prev, ytop);
    out', last := Coalesce(grown, prev, cur, ytop, ytop, ybot);
    SweepBand(out, out', ra, rb, kind, ytop, ytop, ybot, grown[cur..]);
    SeamsOfBoth(kind, ra, rb, ytop, ybot, ra[i..ia], rb[j..jb], grown[cur..]);
    SweepSeams(out, out', ra, rb, kind, ytop, ytop, ybot, grown[cur..]);
  }

  lemma Lower(r: seq<Box>, i: nat, low: int, low': int)
    requires At(r, i, low) && low <= low' && (i < |r| ==> low' < r[i].y2)
    ensures At(r, i, low')
  {
  }

  /** One turn of the sweep: the rows down to the end of the shorter current band. */
  method Step(ra: seq<Box>, rb: seq<Box>, kind: Kind, appendA: bool, appendB: bool,
              i: nat, j: nat, out: seq<Box>, prev: nat, low: int)
    returns (i': nat, j': nat, out': seq<Box>, last: nat, ybot: int)
    requires Banded(ra) && Banded(rb) && i < |ra| && j < |rb|
    requires appendA == Cell(kind, true, false) && appendB == Cell(kind, false, true)
    requires At(ra, i, low) && At(rb, j, low)
    requires low <= ra[i].y1 || low <= rb[j].y1
    requires Sweeping(ra, rb, kind, out, prev, low)
    ensures At(ra, i', ybot) && At(rb, j', ybot)
    ensures i' < |ra| && j' < |rb| ==> ybot <= ra[i'].y1 || ybot <= rb[j'].y1
    ensures Sweeping(ra, rb, kind, out', last, ybot)
    ensures i <= i' <= |ra| && j <= j' <= |rb| && i + j < i' + j'
    ensures i' == |ra| ==> ra[|ra| - 1].y2 == ybot
    ensures j' == |rb| ==> rb[|rb| - 1].y2 == ybot
  {
    hide In, InX, IsBand, Built, At, Sweeping;
    var ia := BandEnd(ra, i);
    var jb := BandEnd(rb, j);
    BandOf(ra, i, ia);
    BandOf(rb, j, jb);
    BandBottom(ra, i, ia);
    BandBottom(rb, j, jb);
    var ytop;
    out', last, ytop := OneSided(ra, rb, kind, appendA, appendB, i, ia, j, jb, out, prev, low);
    ybot := Min(ra[i].y2, rb[j].y2);
    Heights(ra, i, low);
    Heights(rb, j, low);
    if ybot > ytop {
      Lower(ra, i, low, ytop);
      Lower(rb, j, low, ytop);
      out', last := TwoSided(ra, rb, kind, i, ia, j, jb, out', last, ytop, ybot);
    }
    NextBand(ra, i, ia, low, ybot);
    NextBand(rb, j, jb, low, ybot);
    i', j' := i, j;
    if ra[i].y2 == ybot {
      i' := ia;
    }
    if rb[j].y2 == ybot {
      j' := jb;
    }
  }

  lemma BandBottom(r: seq<Box>, i: nat, end: nat)
    requires BandAt(r, i, end)
    ensures r[end - 1].y2 == r[i].y2
  {
  }

  /** Merged from row `low` on. */
  ghost predicate MergedBelow(r: seq<Box>, low: int) {
    forall k :: Boundary(r, k) && low < r[k].y1 ==> EdgeShows(r, r[k].y1)
  }

  /** `rest`: what is left of the one operand that is not used up, from row `low` on. */
  method Rest(r: seq<Box>, k: nat, out: seq<Box>, prev: nat, low: int) returns (out': seq<Box>)
    requires Banded(r) && k < |r| && At(r, k, low) && Built(out, prev, low) && Merged(out)
    ensures Banded(out')
    ensures Merged(out') <==> MergedBelow(r, low)
    ensures forall x, y :: Seam(out', x, y) <==> Seam(out, x, y) || (y >= low && Seam(r, x, y))
    ensures forall x, y :: In(out', x, y) <==> In(out, x, y) || (y >= low && In(r, x, y))
  {
    hide In, InX, IsBand, Built, At, Seam, SeamX, Merged, MergedBelow;
    var end := BandEnd(r, k);
    BandOf(r, k, end);
    Heights(r, k, low);
    assert r[k..end][0] == r[k];
    var top := Max(r[k].y1, low);
    var grown, last := AppendNon(out, prev, r[k..end], top, r[k].y2, low);
    RowsAt(r, k, end, low);
    SeamsAt(r, k, end, low);
    NextBand(r, k, end, low, r[k].y2);
    NoRowsBefore(r, end, r[k].y2);
    SeamsBelow(r, k, end, low);
    BuiltAbove(out, prev, low);
    out' := grown + r[end..];
    Lower(r, k, low, top);
    AppendTail(r, k, end, grown, last, top);
    TailMerged(r, k, end, grown, last, low, top);
  }

  lemma BuiltAbove(out: seq<Box>, prev: nat, low: int)
    requires Built(out, prev, low)
    ensures forall x, y :: In(out, x, y) || Seam(out, x, y) ==> y < low
  {
    hide In, Seam;
    RowsAbove(out, low);
    SeamsAbove(out, low);
  }

  /** Copying the remaining bands below a result that ends with the current one. */
  lemma AppendTail(r: seq<Box>, k: nat, end: nat, out: seq<Box>, last: nat, top: int)
    requires Banded(r) && BandAt(r, k, end) && Built(out, last, r[k].y2) && At(r, k, top) && r[k].y1 <= top
    ensures Banded(out + r[end..])
    ensures forall x, y :: In(out + r[end..], x, y) <==> In(out, x, y) || In(r[end..], x, y)
    ensures forall x, y :: Seam(out + r[end..], x, y) <==> Seam(out, x, y) || Seam(r[end..], x, y)
    ensures forall x, y :: In(r[end..], x, y) || Seam(r[end..], x, y) ==> y >= r[k].y2
  {
    hide In, Seam;
    var tail := r[end..];
    TailBands(r, k, end, out, last);
    InConcat(out, tail);
    SeamConcat(out, tail);
    RowsFrom(r, k, end);
    SeamIn(tail);
  }

  lemma TailBands(r: seq<Box>, k: nat, end: nat, out: seq<Box>, last: nat)
    requires Banded(r) && BandAt(r, k, end) && Built(out, last, r[k].y2)
    ensures Banded(out + r[end..]) && Banded(r[end..])
    ensures forall i, j :: 0 <= i < |out| && 0 <= j < |r[end..]| ==> out[i].y1 != r[end..][j].y1
  {
    var s, tail := out + r[end..], r[end..];
    assert forall i :: 0 <= i < |out| ==> NonEmpty(out[i]) && out[i].y2 <= r[k].y2;
    assert forall j :: 0 <= j < |tail| ==> tail[j] == r[end + j] && NonEmpty(tail[j]) && r[k].y2 <= tail[j].y1;
    forall i, j | 0 <= i < j < |s| ensures Before(s[i], s[j]) {
      if i >= |out| {
        assert Before(r[end + i - |out|], r[end + j - |out|]);
      } else if j < |out| {
        assert Before(out[i], out[j]);
      }
    }
  }

  lemma SeamsBelow(r: seq<Box>, k: nat, end: nat, low: int)
    requires Banded(r) && BandAt(r, k, end) && At(r, k, low)
    ensures forall x, y :: y >= r[k].y2 ==> (Seam(r, x, y) <==> Seam(r[end..], x, y))
  {
    hide Banded, At, IsBand, Seam;
    forall x, y | y >= r[k].y2 ensures Seam(r, x, y) <==> Seam(r[end..], x, y) {
      if Seam(r, x, y) { SeamBelow(r, k, end, low, x, y); }
      if Seam(r[end..], x, y) { SeamOfTail(r, end, x, y); }
    }
  }

  lemma SeamBelow(r: seq<Box>, k: nat, end: nat, low: int, x: int, y: int)
    requires Banded(r) && BandAt(r, k, end) && At(r, k, low) && y >= r[k].y2 && Seam(r, x, y)
    ensures Seam(r[end..], x, y)
  {
    hide Banded, At, IsBand;
    var tail := r[end..];
    var p, q :| 0 <= p < |r| && 0 <= q < |r| && Touching(r[p], r[q], x, y);
    SameBand(r, p, q);
    NotAbove(r, k, end, low, p, y);
    NotAbove(r, k, end, low, q, y);
    assert tail[p - end] == r[p] && tail[q - end] == r[q];
  }

  lemma SeamOfTail(r: seq<Box>, end: nat, x: int, y: int)
    requires end <= |r| && Seam(r[end..], x, y)
    ensures Seam(r, x, y)
  {
    var tail := r[end..];
    var p, q :| 0 <= p < |tail| && 0 <= q < |tail| && Touching(tail[p], tail[q], x, y);
    assert Touching(r[end + p], r[end + q], x, y);
  }

  lemma NotAbove(r: seq<Box>, k: nat, end: nat, low: int, p: nat, y: int)
    requires BandAt(r, k, end) && At(r, k, low) && p < |r| && r[k].y2 <= y < r[p].y2
    ensures p >= end
  {
  }

  /** The copied bands are merged iff they were in `r`, the one they follow included. */
  lemma TailMerged(r: seq<Box>, k: nat, end: nat, out: seq<Box>, last: nat, low: int, top: int)
    requires Banded(r) && BandAt(r, k, end) && Built(out, last, r[k].y2) && At(r, k, low) && top == Max(r[k].y1, low)
    requires forall x, y :: top <= y < r[k].y2 ==> (In(out, x, y) <==> InX(r[k..end], x))
    requires forall x, y :: top <= y < r[k].y2 ==> (Seam(out, x, y) <==> SeamX(r[k..end], x))
    requires Merged(out)
    ensures Merged(out + r[end..]) <==> MergedBelow(r, low)
  {
    hide In, InX, Seam, SeamX, EdgeShows, Built, At, Banded, IsBand, Merged, MergedBelow;
    Heights(r, k, low);
    Lower(r, k, low, top);
    AppendTail(r, k, end, out, last, top);
    SameRowsBelow(r, k, end, out, last, top);
    BuiltAbove(out, last, r[k].y2);
    if MergedBelow(r, low) { MergedTail(r, k, end, out, last, low, top); }
    if Merged(out + r[end..]) {
      LastBottom(r, k, end, out, last, top);
      TailWasMerged(r, k, end, out, low, top);
    }
  }

  /** Above row `low` the pixels and seams of `s` are those of `r`. */
  ghost predicate SameAbove(r: seq<Box>, s: seq<Box>, low: int) {
    forall x, y :: y < low ==> (In(r, x, y) <==> In(s, x, y)) && (Seam(r, x, y) <==> Seam(s, x, y))
  }

  ghost predicate SameFrom(r: seq<Box>, s: seq<Box>, top: int) {
    forall x, y :: y >= top ==> (In(r, x, y) <==> In(s, x, y)) && (Seam(r, x, y) <==> Seam(s, x, y))
  }

  lemma MergedTail(r: seq<Box>, k: nat, end: nat, out: seq<Box>, last: nat, low: int, top: int)
    requires Banded(r) && BandAt(r, k, end) && Built(out, last, r[k].y2)
    requires top < r[k].y2 && low < r[k].y2 && Merged(out) && MergedBelow(r, low)
    requires SameAbove(out, out + r[end..], r[k].y2) && SameFrom(r, out + r[end..], top)
    ensures Merged(out + r[end..])
  {
    var s := out + r[end..];
    hide In, Seam, EdgeShows, Built, BandAt, Banded;
    forall b | Boundary(s, b) ensures EdgeShows(s, s[b].y1) {
      if b < |out| {
        OutBoundary(r, k, out, last, s, b);
        SameEdge(out, s, s[b].y1);
      } else {
        TailBoundary(r, k, end, out, last, b);
        SameEdge(r, s, s[b].y1);
      }
    }
  }

  lemma TailWasMerged(r: seq<Box>, k: nat, end: nat, out: seq<Box>, low: int, top: int)
    requires Banded(r) && BandAt(r, k, end) && At(r, k, low) && top < r[k].y2
    requires Merged(out + r[end..]) && SameFrom(r, out + r[end..], top)
    requires out != [] && out[|out| - 1].y2 == r[k].y2
    ensures MergedBelow(r, low)
  {
    var s := out + r[end..];
    hide In, Seam, EdgeShows, BandAt, At, Banded;
    forall c | Boundary(r, c) && low < r[c].y1 ensures EdgeShows(r, r[c].y1) {
      BoundaryTail(r, k, end, low, c);
      BoundaryCopied(r, end, out, c);
      assert s[|out| + c - end].y1 == r[c].y1;
      SameEdge(r, s, r[c].y1);
    }
  }

  /** The boundaries of the copied bands are boundaries of the result. */
  lemma BoundaryCopied(r: seq<Box>, end: nat, out: seq<Box>, c: nat)
    requires end <= c < |r| && Boundary(r, c) && out != [] && (c == end ==> out[|out| - 1].y2 == r[c].y1)
    ensures var s, b := out + r[end..], |out| + c - end; Boundary(s, b) && s[b] == r[c]
  {
  }

  lemma OutBoundary(r: seq<Box>, k: nat, out: seq<Box>, last: nat, s: seq<Box>, b: nat)
    requires k < |r| && Built(out, last, r[k].y2) && b < |out| && out <= s && Boundary(s, b)
    ensures Boundary(out, b) && s[b].y1 == out[b].y1 < r[k].y2
  {
    assert NonEmpty(out[b]);
  }

  /** A box of the rest that touches the band above it does so in `r`. */
  lemma TailBoundary(r: seq<Box>, k: nat, end: nat, out: seq<Box>, last: nat, b: nat)
    requires Banded(r) && BandAt(r, k, end) && Built(out, last, r[k].y2)
    requires |out| <= b && Boundary(out + r[end..], b)
    ensures var c := end + b - |out|; Boundary(r, c) && (out + r[end..])[b] == r[c] && r[k].y2 <= r[c].y1
    ensures r[k].y1 < r[k].y2
  {
    assert NonEmpty(r[k]);
  }

  /** A boundary of `r` below `low` lies at or after the end of the current band. */
  lemma BoundaryTail(r: seq<Box>, k: nat, end: nat, low: int, c: int)
    requires Banded(r) && BandAt(r, k, end) && At(r, k, low) && Boundary(r, c) && low < r[c].y1
    ensures end <= c < |r| && r[k].y2 <= r[c].y1 && (c == end ==> r[c].y1 == r[k].y2)
  {
  }

  /** A result with pixels in the last row of the current band ends where that band ends. */
  lemma LastBottom(r: seq<Box>, k: nat, end: nat, out: seq<Box>, last: nat, top: int)
    requires Banded(r) && BandAt(r, k, end) && Built(out, last, r[k].y2) && top < r[k].y2
    requires forall x, y :: top <= y < r[k].y2 ==> (In(out, x, y) <==> InX(r[k..end], x))
    ensures out != [] && out[|out| - 1].y2 == r[k].y2
  {
    assert NonEmpty(r[k]) && r[k..end][0] == r[k];
    assert InSpan(r[k..end][0], r[k].x1);
    assert InX(r[k..end], r[k].x1);
    assert In(out, r[k].x1, r[k].y2 - 1);
    var i :| 0 <= i < |out| && InBox(out[i], r[k].x1, r[k].y2 - 1);
    assert out[i].y2 == r[k].y2;
    if i < |out| - 1 { assert Before(out[i], out[|out| - 1]) && NonEmpty(out[|out| - 1]); }
  }

  /** From `top` on, `out` followed by the rest of `r` has the rows of `r`. */
  lemma SameRowsBelow(r: seq<Box>, k: nat, end: nat, out: seq<Box>, last: nat, top: int)
    requires Banded(r) && BandAt(r, k, end) && Built(out, last, r[k].y2) && At(r, k, top) && r[k].y1 <= top
    requires forall x, y :: top <= y < r[k].y2 ==> (In(out, x, y) <==> InX(r[k..end], x))
    requires forall x, y :: top <= y < r[k].y2 ==> (Seam(out, x, y) <==> SeamX(r[k..end], x))
    ensures forall x, y :: y >= top ==> (In(out + r[end..], x, y) <==> In(r, x, y))
    ensures forall x, y :: y >= top ==> (Seam(out + r[end..], x, y) <==> Seam(r, x, y))
  {
    hide In, InX, Seam, SeamX, Built;
    AppendTail(r, k, end, out, last, top);
    BuiltAbove(out, last, r[k].y2);
    RowsFrom(r, k, end);
    NoRowsBefore(r, k, top);
    SeamsAt(r, k, end, top);
    SeamsBelow(r, k, end, top);
  }

  // ------------------------------------------------------- the operations

  /** All of `r` ends above row y. */
  predicate EndsAbove(r: seq<Box>, y: int) {
    forall m :: 0 <= m < |r| ==> r[m].y2 < y
  }

  /** Where two bands of `a` touch and `b` has come to its end before, they are not the same spans. */
  ghost predicate MergedPast(a: seq<Box>, b: seq<Box>) {
    forall k :: Boundary(a, k) && EndsAbove(b, a[k].y1) ==> EdgeShows(a, a[k].y1)
  }

  /** The bands copied once the other operand is used up, which are not merged any more, do not
      need it. */
  ghost predicate MergedTails(kind: Kind, a: seq<Box>, b: seq<Box>) {
    (Cell(kind, true, false) ==> MergedPast(a, b)) && (Cell(kind, false, true) ==> MergedPast(b, a))
  }

  /** What banded operands must satisfy for a canonical result: no seam of theirs shows in it, and
      no copied band needs merging. */
  ghost predicate Clean(kind: Kind, a: seq<Box>, b: seq<Box>) {
    MergedTails(kind, a, b) && forall x, y :: !SeamKept(kind, a, b, x, y)
  }

  lemma CanonicalClean(kind: Kind, a: seq<Box>, b: seq<Box>)
    requires Canonical(a) && Canonical(b)
    ensures Clean(kind, a, b)
  {
    hide Seam, In, EdgeShows;
    CanonicalBands(a);
    CanonicalBands(b);
    hide Canonical;
  }

  /** Below its last row a used-up operand has neither pixels nor seams. */
  lemma BlankBelow(q: seq<Box>, low: int)
    requires Banded(q) && At(q, |q|, low)
    ensures forall x, y :: y >= low ==> !In(q, x, y) && !Seam(q, x, y)
  {
    hide Banded, Seam;
    UsedUp(q, |q|, low);
    SeamIn(q);
  }

  /** `p` goes on when `q` is used up: its boundaries decide. */
  lemma PastIsBelow(p: seq<Box>, i: nat, q: seq<Box>, low: int)
    requires q != [] && Banded(p) && Banded(q) && At(q, |q|, low) && q[|q| - 1].y2 == low && At(p, i, low) && i < |p|
    ensures MergedPast(p, q) <==> MergedBelow(p, low)
    ensures MergedPast(q, p)
  {
    hide EdgeShows;
    assert forall k :: Boundary(q, k) ==> NonEmpty(q[k]);
  }

  /** Past the end of `q` the operation keeps the seams of `p`. */
  lemma SeamsOfRest(kind: Kind, ra: seq<Box>, rb: seq<Box>, p: seq<Box>, q: seq<Box>, first: bool, low: int)
    requires Sides(ra, rb, p, q, first) && Cell(kind, first, !first) && Banded(q) && At(q, |q|, low)
    ensures forall x, y :: y >= low ==> (SeamKept(kind, ra, rb, x, y) <==> Seam(p, x, y))
  {
    hide Seam, In, At, Banded;
    BlankBelow(q, low);
    forall x, y | y >= low ensures SeamKept(kind, ra, rb, x, y) <==> Seam(p, x, y) {
      assert Blank(q, y);
    }
  }

  /** With both operands used up, or the rest not wanted, nothing is left. */
  lemma AtEnd(kind: Kind, ra: seq<Box>, i: nat, rb: seq<Box>, j: nat, low: int)
    requires ra != [] && rb != [] && Banded(ra) && Banded(rb) && At(ra, i, low) && At(rb, j, low)
    requires i == |ra| ==> ra[|ra| - 1].y2 == low
    requires j == |rb| ==> rb[|rb| - 1].y2 == low
    requires (i == |ra| || j == |rb|) && (i == |ra| || !Cell(kind, true, false))
        && (j == |rb| || !Cell(kind, false, true))
    ensures MergedTails(kind, ra, rb)
    ensures forall x, y :: y >= low ==> !SeamKept(kind, ra, rb, x, y)
  {
    hide Seam, In, MergedPast, Banded, Boundary;
    if i == |ra| {
      BlankBelow(ra, low);
      NothingPast(ra, rb, j, low);
    }
    if j == |rb| {
      BlankBelow(rb, low);
      NothingPast(rb, ra, i, low);
    }
  }

  lemma NothingPast(p: seq<Box>, q: seq<Box>, j: nat, low: int)
    requires q != [] && Banded(p) && At(p, |p|, low) && At(q, j, low) && (j == |q| ==> q[|q| - 1].y2 == low)
    ensures MergedPast(p, q)
  {
    hide EdgeShows;
    assert forall k :: Boundary(p, k) ==> NonEmpty(p[k]);
    assert j < |q| ==> q[j].y2 > low;
  }

  /** `op`: walk both regions band by band. Banded operands give the right pixels and keep exactly
      the seams that show; clean ones, canonical ones among them, give a canonical result, without
      normalising. */
  method Op(ra: seq<Box>, rb: seq<Box>, kind: Kind, appendA: bool, appendB: bool) returns (out: seq<Box>)
    requires ra != [] && rb != [] && Banded(ra) && Banded(rb)
    requires appendA == Cell(kind, true, false) && appendB == Cell(kind, false, true)
    ensures Banded(out)
    ensures Canonical(out) <==> Clean(kind, ra, rb)
    ensures Merged(out) <==> MergedTails(kind, ra, rb)
    ensures forall x, y :: Seam(out, x, y) <==> SeamKept(kind, ra, rb, x, y)
    ensures Canonical(ra) && Canonical(rb) ==> Canonical(out)
    ensures forall x, y :: In(out, x, y) <==> Cell(kind, In(ra, x, y), In(rb, x, y))
  {
    hide In, InX, IsBand, Built, At, Merged, Canonical, Seam, SeamKept, MergedPast, MergedBelow, Banded;
    if Canonical(ra) && Canonical(rb) { CanonicalClean(kind, ra, rb); }
    out := [];
    var i, j, prev := 0, 0, 0;
    var ybot := Min(ra[0].y1, rb[0].y1);
    StartSweep(ra, rb, kind, ybot);
    while i < |ra| && j < |rb|
      invariant i <= |ra| && j <= |rb|
      invariant At(ra, i, ybot) && At(rb, j, ybot)
      invariant i < |ra| && j < |rb| ==> ybot <= ra[i].y1 || ybot <= rb[j].y1
      invariant Sweeping(ra, rb, kind, out, prev, ybot)
      invariant i == |ra| ==> ra[|ra| - 1].y2 == ybot
      invariant j == |rb| ==> rb[|rb| - 1].y2 == ybot
      decreases |ra| + |rb| - i - j
    {
      i, j, out, prev, ybot := Step(ra, rb, kind, appendA, appendB, i, j, out, prev, ybot);
    }
    UsedUp(ra, i, ybot);
    UsedUp(rb, j, ybot);
    BuiltBanded(out, prev, ybot);
    if i < |ra| && appendA {
      SeamsOfRest(kind, ra, rb, ra, rb, true, ybot);
      PastIsBelow(ra, i, rb, ybot);
      out := Rest(ra, i, out, prev, ybot);
    } else if j < |rb| && appendB {
      SeamsOfRest(kind, ra, rb, rb, ra, false, ybot);
      PastIsBelow(rb, j, ra, ybot);
      out := Rest(rb, j, out, prev, ybot);
    } else {
      AtEnd(kind, ra, i, rb, j, ybot);
    }
    CanonicalIff(out);
  }

  lemma CanonicalBands(r: seq<Box>)
    requires Canonical(r)
    ensures Banded(r) && Separated(r) && Merged(r) && forall x, y :: !Seam(r, x, y)
  {
    CanonicalIff(r);
  }

  lemma StartSweep(ra: seq<Box>, rb: seq<Box>, kind: Kind, low: int)
    requires ra != [] && rb != [] && Banded(ra) && Banded(rb) && low == Min(ra[0].y1, rb[0].y1)
    ensures At(ra, 0, low) && At(rb, 0, low) && Sweeping(ra, rb, kind, [], 0, low)
  {
  }

  lemma StartsAt(r: seq<Box>)
    requires r != [] && Banded(r)
    ensures forall x, y :: In(r, x, y) ==> r[0].y1 <= y
  {
  }

  lemma UsedUp(r: seq<Box>, i: nat, low: int)
    requires At(r, i, low)
    ensures i == |r| ==> forall x, y :: In(r, x, y) ==> y < low
  {
  }

  lemma BuiltBanded(out: seq<Box>, prev: nat, low: int)
    requires Built(out, prev, low)
    ensures Banded(out)
  {
  }
}
