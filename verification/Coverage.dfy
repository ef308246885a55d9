/** The damage coverage of a probe run (tools/vng-scenarios/redirected-backing-probe.c): damage
    rectangles are rasterised into a grid, and the grid is printed as canonical y-x bands. */
module Coverage {
  import opened Boxes
  import opened Regions
  import opened RegionAlgebra
  import opened Normalise

  /** What `coverage` prints: one rectangle per line, or the single line "none". */
  datatype Line = Rect(x: int, y: int, w: int, h: int) | None

  function LinesOf(boxes: seq<Box>): seq<Line> {
    if boxes == [] then [None]
    else seq(|boxes|, i requires 0 <= i < |boxes| => Rect(boxes[i].x1, boxes[i].y1, boxes[i].x2 - boxes[i].x1,
      boxes[i].y2 - boxes[i].y1))
  }

  /** The lines printed hold the cells of the boxes: x and y are the upper left cell, w and h the
      numbers of columns and rows. Without boxes there is the one line "none". */
  lemma LinesAre(boxes: seq<Box>, x: int, y: int)
    ensures In(boxes, x, y) <==> exists k :: 0 <= k < |LinesOf(boxes)| && Holds(LinesOf(boxes)[k], x, y)
    ensures boxes == [] <==> LinesOf(boxes) == [None]
    ensures boxes != [] ==> |LinesOf(boxes)| == |boxes| && forall k, x', y' :: 0 <= k < |boxes| ==>
        (Holds(LinesOf(boxes)[k], x', y') <==> InBox(boxes[k], x', y'))
  {
    if In(boxes, x, y) {
      var k :| 0 <= k < |boxes| && InBox(boxes[k], x, y);
      assert Holds(LinesOf(boxes)[k], x, y);
    }
    if k :| 0 <= k < |LinesOf(boxes)| && Holds(LinesOf(boxes)[k], x, y) {
      assert InBox(boxes[k], x, y);
    }
    if boxes != [] { assert LinesOf(boxes)[0] != None; }
  }

  predicate Holds(l: Line, x: int, y: int) {
    l.Rect? && l.x <= x < l.x + l.w && l.y <= y < l.y + l.h
  }

  class Grid {
    const gw: nat
    const gh: nat
    const cell: array2<bool>

    ghost predicate Valid() {
      cell.Length0 == gh && cell.Length1 == gw
    }

    constructor (gw: nat, gh: nat)
      ensures Valid() && this.gw == gw && this.gh == gh && fresh(cell)
      ensures forall x, y :: !Marked(x, y)
    {
      this.gw, this.gh := gw, gh;
      cell := new bool[gh, gw]((_, _) => false);
    }

    /** Pixel (x, y) lies in the grid and is marked. */
    predicate Marked(x: int, y: int)
      requires Valid()
      reads cell
    {
      0 <= x < gw && 0 <= y < gh && cell[y, x]
    }

    predicate SameRow(y: int, y': int)
      requires Valid()
      reads cell
    {
      forall x :: 0 <= x < gw ==> Marked(x, y) == Marked(x, y')
    }

    /** One damage rectangle of `drain`. */
    method Mark(area: WireRect)
      requires Valid()
      modifies cell
      ensures forall x, y :: Marked(x, y) <==> old(Marked(x, y)) || (0 <= x < gw && 0 <= y < gh && InRect(area, x, y))
    {
      var y := area.y;
      while y < area.y + area.height
        invariant area.y <= y && (0 <= area.height ==> y <= area.y + area.height)
        invariant forall px, py :: Marked(px, py) <==>
            old(Marked(px, py)) || (0 <= px < gw && 0 <= py < gh && InRect(area, px, py) && py < y)
      {
        var x := area.x;
        while x < area.x + area.width
          invariant area.x <= x && (0 <= area.width ==> x <= area.x + area.width)
          invariant forall px, py :: Marked(px, py) <==>
              old(Marked(px, py)) || (0 <= px < gw && 0 <= py < gh && InRect(area, px, py)
                && (py < y || (py == y && px < x)))
        {
          if x >= 0 && y >= 0 && x < gw && y < gh {
            cell[y, x] := true;
          }
          x := x + 1;
        }
        y := y + 1;
      }
    }

    /** `drain`: every damage rectangle received is rasterised, clipped to the grid. */
    method Drain(areas: seq<WireRect>)
      requires Valid()
      modifies cell
      ensures forall x, y :: Marked(x, y) <==> old(Marked(x, y)) || (0 <= x < gw && 0 <= y < gh && InRects(areas, x, y))
    {
      for k := 0 to |areas|
        invariant forall x, y :: Marked(x, y) <==>
            old(Marked(x, y)) || (0 <= x < gw && 0 <= y < gh && InRects(areas[..k], x, y))
      {
        Mark(areas[k]);
        NextRect(areas, k);
      }
      assert areas[..|areas|] == areas;
    }

    /** The maximal runs of marked cells in row y, as boxes down to row y1. */
    method Runs(y: nat, y1: int) returns (band: seq<Box>)
      requires Valid() && y < gh
      ensures IsBand(band, y, y1) && Gapped(band)
      ensures forall x :: InX(band, x) <==> Marked(x, y)
    {
      hide InX, IsBand, Gapped, Marked;
      band := [];
      var x := 0;
      NoRuns(y, y1);
      while x < gw
        invariant 0 <= x <= gw
        invariant RunsUpTo(band, x, y, y1)
      {
        if !Marked(x, y) {
          PastBlank(band, x, y, y1);
          x := x + 1;
          continue;
        }
        var x1 := x;
        while x1 < gw && Marked(x1, y)
          invariant x <= x1 <= gw
          invariant forall c :: x <= c < x1 ==> Marked(c, y)
          decreases gw - x1
        {
          x1 := x1 + 1;
        }
        OffGrid(y);
        NextRun(band, x, x1, y, y1);
        band := band + [Box(x, y, x1, y1)];
        x := x1;
      }
      AllRuns(band, y, y1);
    }

    /** The runs of row y left of x; one that ends at x is not cut short there. */
    ghost predicate RunsUpTo(band: seq<Box>, x: int, y: int, y1: int)
      requires Valid()
      reads cell
    {
      && IsBand(band, y, y1) && Gapped(band)
      && (forall k :: 0 <= k < |band| ==> band[k].x2 < x || (band[k].x2 == x && !Marked(x, y)))
      && (forall c :: InX(band, c) <==> Marked(c, y) && c < x)
    }

    lemma NoRuns(y: int, y1: int)
      requires Valid()
      ensures RunsUpTo([], 0, y, y1)
    {
    }

    lemma PastBlank(band: seq<Box>, x: int, y: int, y1: int)
      requires Valid() && RunsUpTo(band, x, y, y1) && !Marked(x, y)
      ensures RunsUpTo(band, x + 1, y, y1)
    {
    }

    lemma NextRun(band: seq<Box>, x: int, x1: int, y: int, y1: int)
      requires Valid() && RunsUpTo(band, x, y, y1) && x < x1 && !Marked(x1, y) && forall c :: x <= c < x1 ==>
          Marked(c, y)
      ensures RunsUpTo(band + [Box(x, y, x1, y1)], x1, y, y1)
    {
      hide InX, Marked;
      InXSnoc(band, Box(x, y, x1, y1));
      assert Marked(x, y);
    }

    lemma AllRuns(band: seq<Box>, y: int, y1: int)
      requires Valid() && RunsUpTo(band, gw, y, y1)
      ensures IsBand(band, y, y1) && Gapped(band) && forall x :: InX(band, x) <==> Marked(x, y)
    {
    }

    lemma OffGrid(y: int)
      requires Valid()
      ensures !Marked(gw, y)
    {
    }

    /** `coverage`: print the grid, then clear it. The rectangles printed are the canonical
        region of the marked cells. */
    method Print() returns (boxes: seq<Box>, lines: seq<Line>)
      requires Valid()
      modifies cell
      ensures Canonical(boxes) && lines == LinesOf(boxes)
      ensures forall x, y :: In(boxes, x, y) <==> old(Marked(x, y))
      ensures forall x, y :: !Marked(x, y)
    {
      boxes := Bands();
      lines := LinesOf(boxes);
      forall x, y | 0 <= y < gh && 0 <= x < gw {
        cell[y, x] := false;
      }
    }

    method Bands() returns (out: seq<Box>)
      requires Valid()
      ensures Canonical(out)
      ensures forall x, y :: In(out, x, y) <==> Marked(x, y)
    {
      hide In, InX, Built, Canonical, IsBand, Gapped;
      out := [];
      var y, prev: nat := 0, 0;
      NothingCanonical();
      while y < gh
        invariant 0 <= y <= gh && prev <= |out|
        invariant Built(out, prev, y) && Canonical(out)
        invariant 0 < y < gh ==> !SameRow(y, y - 1)
        invariant forall c, r :: In(out, c, r) <==> Marked(c, r) && r < y
      {
        var y1 := y + 1;
        while y1 < gh && SameRow(y1, y)
          invariant y < y1 <= gh
          invariant forall r :: y <= r < y1 ==> SameRow(r, y)
          decreases gh - y1
        {
          y1 := y1 + 1;
        }
        var band := Runs(y, y1);
        if prev < |out| {
          NotMergeable(out, prev, band, y);
        }
        BuiltBound(out, prev, y);
        AppendGapped(out, prev, band, y, y, y1);
        assert forall c, r :: y <= r < y1 ==> (Marked(c, r) <==> Marked(c, y)) by {
          forall c, r | y <= r < y1 ensures Marked(c, r) <==> Marked(c, y) {
            assert SameRow(r, y);
          }
        }
        assert y1 < gh ==> !SameRow(y1, y1 - 1) by {
          if y1 < gh {
            var x :| 0 <= x < gw && Marked(x, y1) != Marked(x, y);
            assert Marked(x, y1 - 1) == Marked(x, y);
          }
        }
        out, prev := out + band, |out|;
        y := y1;
      }
    }

    lemma NotMergeable(out: seq<Box>, prev: nat, band: seq<Box>, y: int)
      requires Valid() && Built(out, prev, y) && prev < |out| && 0 <= y < gh
      requires forall c, r :: In(out, c, r) <==> Marked(c, r) && r < y
      requires 0 < y ==> !SameRow(y, y - 1)
      requires forall x :: InX(band, x) <==> Marked(x, y)
      ensures out[prev].y2 != y || !SameSpans(out[prev..], band)
    {
      LastRow(out, prev, y);
      if out[prev].y2 == y && SameSpans(out[prev..], band) {
        SameSpansSameColumns(out[prev..], band);
        assert forall x :: Marked(x, y - 1) <==> Marked(x, y);
        assert Banded(out);
        NoneAboveTop(out, y);
        assert false;
      }
    }

    lemma NoneAboveTop(out: seq<Box>, y: int)
      requires Valid() && out != [] && Banded(out) && forall c, r :: In(out, c, r) ==> Marked(c, r) && r < y
      ensures y > 0
    {
      assert NonEmpty(out[0]);
      assert InBox(out[0], out[0].x1, out[0].y1);
      assert In(out, out[0].x1, out[0].y1);
    }
  }

  lemma NextRect(areas: seq<WireRect>, k: nat)
    requires k < |areas|
    ensures forall x, y :: InRects(areas[..k + 1], x, y) <==> InRects(areas[..k], x, y) || InRect(areas[k], x, y)
  {
  }

  /** Different regions print different lines. */
  lemma LinesDecide(a: seq<Box>, b: seq<Box>)
    requires LinesOf(a) == LinesOf(b)
    ensures a == b
  {
    assert a != [] ==> LinesOf(a)[0].Rect?;
    assert b != [] ==> LinesOf(b)[0].Rect?;
    forall k | 0 <= k < |a| && |a| == |b| ensures a[k] == b[k] {
      assert LinesOf(a)[k] == LinesOf(b)[k];
    }
  }

  method Printed(gw: nat, gh: nat, areas: seq<WireRect>) returns (boxes: seq<Box>, lines: seq<Line>)
    ensures Canonical(boxes) && lines == LinesOf(boxes)
    ensures forall x, y :: In(boxes, x, y) <==> 0 <= x < gw && 0 <= y < gh && InRects(areas, x, y)
  {
    hide In, InRects, Canonical;
    var g := new Grid(gw, gh);
    g.Drain(areas);
    boxes, lines := g.Print();
  }

  /** Two damage lists print the same lines iff they cover the same cells of the grid, in whatever
      order and decomposition: one server may report extents and the other a region. */
  method SameDamageSamePrint(gw: nat, gh: nat, areas: seq<WireRect>, areas': seq<WireRect>)
    returns (lines: seq<Line>, lines': seq<Line>)
    ensures lines == lines' <==>
        forall x, y :: 0 <= x < gw && 0 <= y < gh ==> (InRects(areas, x, y) <==> InRects(areas', x, y))
  {
    hide In, InRects, Canonical, LinesOf;
    var boxes, boxes';
    boxes, lines := Printed(gw, gh, areas);
    boxes', lines' := Printed(gw, gh, areas');
    if lines == lines' { LinesDecide(boxes, boxes'); }
    if SameCells(boxes, boxes') { CanonicalUnique(boxes, boxes'); }
  }

  /** The probe's print-out is the server's own region: rasterising rectangles and printing the
      bands gives the boxes `Region::from_rects` gives for them, cut to the grid. */
  method PrintIsRegion(gw: nat, gh: nat, areas: seq<WireRect>) returns (printed: seq<Box>, region: seq<Box>)
    ensures printed == region && Canonical(printed)
    ensures forall x, y :: In(printed, x, y) <==> 0 <= x < gw && 0 <= y < gh && InRects(areas, x, y)
  {
    hide In, InRects, Canonical;
    var lines;
    printed, lines := Printed(gw, gh, areas);
    region := FromRects(areas);
    CanonicalBands(region);
    var screen := [];
    NothingCanonical();
    if gw > 0 && gh > 0 {
      screen := [Box(0, 0, gw, gh)];
      OneBox(Box(0, 0, gw, gh));
    }
    CanonicalBands(screen);
    region := IntersectOf(region, screen);
    CanonicalUnique(printed, region);
  }
}
