/** The coverage grid of a bordered window and the verdict on its damage
    (tools/border-damage-probe.c). Coordinates are the reported ones: the client area starts at
    (0, 0) and the border lies at negative coordinates and beyond the client's size. */
module BorderGrid {
  import opened Plane

  datatype Rect = Rect(x: int, y: int, w: int, h: int)

  predicate InRect(r: Rect, p: Pt) {
    r.x <= p.x < r.x + r.w && r.y <= p.y < r.y + r.h
  }

  /** The pixels of a rectangle. */
  function Pixels(r: Rect): set<Pt> {
    set x, y | r.x <= x < r.x + r.w && r.y <= y < r.y + r.h :: Pt(x, y)
  }

  lemma InPixels(r: Rect, p: Pt)
    ensures p in Pixels(r) <==> InRect(r, p)
  {
  }

  lemma NoPixels(r: Rect)
    requires r.w <= 0 || r.h <= 0
    ensures Pixels(r) == {}
  {
  }

  /** Everything the recorded rectangles cover. */
  ghost predicate Hit(rects: seq<Rect>, p: Pt) {
    exists k :: 0 <= k < |rects| && InRect(rects[k], p)
  }

  function Extent(w: int, h: int, bw: int): Rect { Rect(-bw, -bw, w + 2 * bw, h + 2 * bw) }

  function Client(w: int, h: int): Rect { Rect(0, 0, w, h) }

  // ------------------------------------------------------- sizes

  lemma {:induction false} RowSize(x: int, y: int, w: nat)
    ensures |Pixels(Rect(x, y, w, 1))| == w
    decreases w
  {
    var s := Pixels(Rect(x, y, w, 1));
    if w == 0 {
      assert s == {};
    } else {
      RowSize(x, y, w - 1);
      assert s == Pixels(Rect(x, y, w - 1, 1)) + {Pt(x + w - 1, y)};
    }
  }

  lemma {:induction false} PixelsSize(x: int, y: int, w: nat, h: nat)
    ensures |Pixels(Rect(x, y, w, h))| == w * h
    decreases h
  {
    hide Pixels;
    if h == 0 {
      NoPixels(Rect(x, y, w, h));
    } else {
      PixelsSize(x, y, w, h - 1);
      RowSize(x, y + h - 1, w);
      LastRowApart(x, y, w, h);
      OneMoreRow(w, h);
    }
  }

  lemma OneMoreRow(w: nat, h: nat)
    requires h > 0
    ensures w * h == w * (h - 1) + w
  {
  }

  lemma LastRowApart(x: int, y: int, w: nat, h: nat)
    requires h > 0
    ensures var above, row := Pixels(Rect(x, y, w, h - 1)), Pixels(Rect(x, y + h - 1, w, 1));
      Pixels(Rect(x, y, w, h)) == above + row && above !! row
  {
  }

  lemma SubsetSize(a: set<Pt>, b: set<Pt>)
    requires a <= b
    ensures |a| <= |b| && (|a| == |b| <==> a == b)
  {
    assert b == a + (b - a);
  }

  // ------------------------------------------------------- the border strips

  /** `annulus_strips`: top, left, right, bottom. */
  function Strips(w: int, h: int, bw: int): seq<Rect> {
    [Rect(-bw, -bw, w + 2 * bw, bw), Rect(-bw, 0, bw, h), Rect(w, 0, bw, h), Rect(-bw, h, w + 2 * bw, bw)]
  }

  /** The border: the bordered extent less the client area. */
  function Ring(w: int, h: int, bw: int): set<Pt> {
    Pixels(Extent(w, h, bw)) - Pixels(Client(w, h))
  }

  /** The strips tile the border: pairwise disjoint, and together exactly it. */
  lemma StripsTile(w: int, h: int, bw: int)
    requires w > 0 && h > 0 && bw >= 0
    ensures var s := Strips(w, h, bw);
      && (forall i, j :: 0 <= i < j < 4 ==> Pixels(s[i]) !! Pixels(s[j]))
      && Ring(w, h, bw) == Pixels(s[0]) + Pixels(s[1]) + Pixels(s[2]) + Pixels(s[3])
      && (forall i :: 0 <= i < 4 ==> Pixels(s[i]) <= Pixels(Extent(w, h, bw)))
  {
  }

  /** The border has (w + 2bw)(h + 2bw) - wh pixels; it is empty exactly without a border. */
  lemma RingSize(w: int, h: int, bw: int)
    requires w > 0 && h > 0 && bw >= 0
    ensures |Ring(w, h, bw)| == (w + 2 * bw) * (h + 2 * bw) - w * h
    ensures |Ring(w, h, bw)| > 0 <==> bw > 0
  {
    var e, c := Pixels(Extent(w, h, bw)), Pixels(Client(w, h));
    PixelsSize(-bw, -bw, w + 2 * bw, h + 2 * bw);
    PixelsSize(0, 0, w, h);
    assert forall p :: InRect(Client(w, h), p) ==> InRect(Extent(w, h, bw), p);
    assert c <= e;
    assert |e| == |e - c| + |c| by { assert e == (e - c) + c; }
    RingEmptyIff(w, h, bw);
  }

  lemma RingEmptyIff(w: int, h: int, bw: int)
    requires w > 0 && h > 0 && bw >= 0
    ensures Ring(w, h, bw) != {} <==> bw > 0
  {
    if bw > 0 {
      InPixels(Extent(w, h, bw), Pt(-1, -1));
      assert Pt(-1, -1) in Ring(w, h, bw);
    } else {
      assert Extent(w, h, bw) == Client(w, h);
    }
  }

  /** Counting strip by strip counts the border. */
  lemma StripsCount(w: int, h: int, bw: int, marked: set<Pt>)
    requires w > 0 && h > 0 && bw >= 0
    ensures var s := Strips(w, h, bw);
      |Ring(w, h, bw) * marked| == |Pixels(s[0]) * marked| + |Pixels(s[1]) * marked| + |Pixels(s[2]) * marked|
        + |Pixels(s[3]) * marked|
  {
    var s := Strips(w, h, bw);
    StripsTile(w, h, bw);
    var a, b, c, d := Pixels(s[0]) * marked, Pixels(s[1]) * marked, Pixels(s[2]) * marked, Pixels(s[3]) * marked;
    assert Pixels(s[0]) !! Pixels(s[1]) && Pixels(s[0]) !! Pixels(s[2]) && Pixels(s[0]) !! Pixels(s[3]);
    assert Pixels(s[1]) !! Pixels(s[2]) && Pixels(s[1]) !! Pixels(s[3]) && Pixels(s[2]) !! Pixels(s[3]);
    assert Ring(w, h, bw) * marked == ((a + b) + c) + d;
    assert a !! b && a + b !! c && (a + b) + c !! d;
  }

  /** The border and its damage, pixel by pixel. */
  lemma BorderIs(w: int, h: int, bw: int, rects: seq<Rect>, p: Pt)
    requires w > 0 && h > 0 && bw >= 0
    ensures p in Ring(w, h, bw) <==>
        -bw <= p.x < w + bw && -bw <= p.y < h + bw && (p.x < 0 || w <= p.x || p.y < 0 || h <= p.y)
    ensures p in Pixels(Client(w, h)) <==> 0 <= p.x < w && 0 <= p.y < h
    ensures p in Damaged(rects, w, h, bw) <==>
        && -bw <= p.x < w + bw && -bw <= p.y < h + bw
        && exists k :: 0 <= k < |rects| && rects[k].x <= p.x < rects[k].x + rects[k].w
                       && rects[k].y <= p.y < rects[k].y + rects[k].h
  {
  }

  // ------------------------------------------------------- the grid

  class Grid {
    const w: int
    const h: int
    const bw: int
    const gw: int
    const gh: int
    const ok: bool
    const cell: array2<bool>

    ghost predicate Valid() {
      ok ==>
        && w > 0 && h > 0 && bw >= 0 && gw == w + 2 * bw && gh == h + 2 * bw
        && cell.Length0 == gh && cell.Length1 == gw
    }

    /** `grid_init`: a size without pixels or a negative border is refused. */
    constructor (w: int, h: int, bw: int)
      ensures Valid() && fresh(cell) && this.w == w && this.h == h && this.bw == bw
      ensures ok <==> w > 0 && h > 0 && bw >= 0
      ensures ok ==> Marked() == {}
    {
      this.w, this.h, this.bw, gw, gh := w, h, bw, w + 2 * bw, h + 2 * bw;
      ok := w > 0 && h > 0 && bw >= 0;
      var good := w > 0 && h > 0 && bw >= 0;
      cell := new bool[if good then h + 2 * bw else 0, if good then w + 2 * bw else 0]((_, _) => false);
    }

    /** The marked pixels. */
    ghost function Marked(): set<Pt>
      requires Valid() && ok
      reads cell
    {
      set x, y | 0 <= x < gw && 0 <= y < gh && cell[y, x] :: Pt(x - bw, y - bw)
    }

    predicate IsMarked(p: Pt)
      requires Valid() && ok && InRect(Extent(w, h, bw), p)
      reads cell
    {
      cell[p.y + bw, p.x + bw]
    }

    lemma MarkedIff(p: Pt)
      requires Valid() && ok
      ensures p in Marked() <==> InRect(Extent(w, h, bw), p) && IsMarked(p)
    {
    }

    /** `grid_mark`: clamping to the grid is intersecting with the bordered extent. */
    method Mark(r: Rect)
      requires Valid()
      modifies cell
      ensures ok ==> Marked() == old(Marked()) + Pixels(r) * Pixels(Extent(w, h, bw))
    {
      if !ok || r.w <= 0 || r.h <= 0 {
        assert ok ==> Pixels(r) == {};
        return;
      }
      var x1, y1 := r.x + bw, r.y + bw;
      var x2, y2 := x1 + r.w, y1 + r.h;
      if x1 < 0 { x1 := 0; }
      if y1 < 0 { y1 := 0; }
      if x2 > gw { x2 := gw; }
      if y2 > gh { y2 := gh; }
      forall x, y | x1 <= x < x2 && y1 <= y < y2 {
        cell[y, x] := true;
      }
      forall p: Pt ensures p in Marked() <==> p in old(Marked()) + Pixels(r) * Pixels(Extent(w, h, bw)) {
        MarkedIff(p);
        assert p in old(Marked()) <==> InRect(Extent(w, h, bw), p) && old(IsMarked(p)) by {
          if InRect(Extent(w, h, bw), p) && old(IsMarked(p)) {
            var x, y := p.x + bw, p.y + bw;
            assert old(cell[y, x]) && Pt(x - bw, y - bw) == p;
          }
        }
        InPixels(r, p);
        InPixels(Extent(w, h, bw), p);
      }
    }

    /** `grid_count`: the pixels of a rectangle that lie on the grid, and those of them marked. */
    method Count(r: Rect) returns (cells: nat, covered: nat)
      requires Valid()
      ensures !ok ==> cells == covered == 0
      ensures ok ==> cells == |Pixels(r) * Pixels(Extent(w, h, bw))| && covered == |Pixels(r) * Marked()|
    {
      hide Marked, Pixels;
      cells, covered := 0, 0;
      if !ok || r.w <= 0 || r.h <= 0 {
        if r.w <= 0 || r.h <= 0 { NoPixels(r); }
        return;
      }
      var x1, y1 := r.x + bw, r.y + bw;
      var x2, y2 := x1 + r.w, y1 + r.h;
      if x1 < 0 { x1 := 0; }
      if y1 < 0 { y1 := 0; }
      if x2 > gw { x2 := gw; }
      if y2 > gh { y2 := gh; }
      ghost var seen: set<Pt>, hit: set<Pt> := {}, {};
      var y := y1;
      while y < y2
        invariant y1 <= y && cells == |seen| && covered == |hit|
        invariant forall p :: p in seen <==> x1 <= p.x + bw < x2 && y1 <= p.y + bw < y2 && p.y + bw < y
        invariant forall p :: p in hit <==> p in seen && cell[p.y + bw, p.x + bw]
      {
        var n, c;
        ghost var rowSeen, rowHit;
        n, c, rowSeen, rowHit := CountRow(x1, x2, y);
        assert seen !! rowSeen && hit !! rowHit;
        cells, covered, seen, hit := cells + n, covered + c, seen + rowSeen, hit + rowHit;
        y := y + 1;
      }
      CountedRight(r, seen, hit, x1, y1, x2, y2);
    }

    /** One row of the count. */
    method CountRow(x1: int, x2: int, y: int)
      returns (cells: nat, covered: nat, ghost seen: set<Pt>, ghost hit: set<Pt>)
      requires Valid() && ok && 0 <= x1 && x2 <= gw && 0 <= y < gh
      ensures cells == |seen| && covered == |hit|
      ensures forall p :: p in seen <==> x1 <= p.x + bw < x2 && p.y + bw == y
      ensures forall p :: p in hit <==> p in seen && cell[p.y + bw, p.x + bw]
    {
      cells, covered, seen, hit := 0, 0, {}, {};
      var x := x1;
      while x < x2
        invariant x1 <= x && cells == |seen| && covered == |hit|
        invariant RowSeen(seen, hit, x1, x2, x, y)
      {
        cells := cells + 1;
        NextCell(seen, hit, x1, x2, x, y);
        seen := seen + {Pt(x - bw, y - bw)};
        if cell[y, x] {
          covered := covered + 1;
          hit := hit + {Pt(x - bw, y - bw)};
        }
        x := x + 1;
      }
    }

    /** The cells of row y from x1 up to x, and the marked ones of them. */
    ghost predicate RowSeen(seen: set<Pt>, hit: set<Pt>, x1: int, x2: int, x: int, y: int)
      requires Valid() && ok && 0 <= x1 && x2 <= gw && 0 <= y < gh
      reads cell
    {
      && (forall p :: p in seen <==> x1 <= p.x + bw < x2 && p.y + bw == y && p.x + bw < x)
      && (forall p :: p in hit <==> p in seen && cell[p.y + bw, p.x + bw])
    }

    lemma NextCell(seen: set<Pt>, hit: set<Pt>, x1: int, x2: int, x: int, y: int)
      requires Valid() && ok && 0 <= x1 <= x < x2 <= gw && 0 <= y < gh && RowSeen(seen, hit, x1, x2, x, y)
      ensures var p := Pt(x - bw, y - bw);
        p !in seen && p !in hit && RowSeen(seen + {p}, if cell[y, x] then hit + {p} else hit, x1, x2, x + 1, y)
    {
    }

    lemma CountedRight(r: Rect, seen: set<Pt>, hit: set<Pt>, x1: int, y1: int, x2: int, y2: int)
      requires Valid() && ok && r.w > 0 && r.h > 0
      requires x1 == (if r.x + bw < 0 then 0 else r.x + bw) && y1 == (if r.y + bw < 0 then 0 else r.y + bw)
      requires x2 == (if r.x + bw + r.w > gw then gw else r.x + bw + r.w) && y2
           == (if r.y + bw + r.h > gh then gh else r.y + bw + r.h)
      requires forall p :: p in seen <==> x1 <= p.x + bw < x2 && y1 <= p.y + bw < y2
      requires forall p :: p in hit <==> p in seen && cell[p.y + bw, p.x + bw]
      ensures seen == Pixels(r) * Pixels(Extent(w, h, bw)) && hit == Pixels(r) * Marked()
    {
    }
  }

  // ------------------------------------------------------- the verdict

  datatype Phase = NoAnnulus | AnnulusFull | ClientOnly

  /** What a phase prints about the border and the inside. */
  datatype Report = Report(ringCells: nat, ringCovered: nat, fullyCovered: bool, untouched: bool,
                           insideCells: nat, insideCovered: nat, matches: bool)

  /** The pixels of the bordered extent that the rectangles cover. */
  ghost function Damaged(rects: seq<Rect>, w: int, h: int, bw: int): set<Pt> {
    set p | p in Pixels(Extent(w, h, bw)) && Hit(rects, p)
  }

  method MarkAll(g: Grid, rects: seq<Rect>)
    requires g.Valid() && g.ok && g.Marked() == {}
    modifies g.cell
    ensures g.Marked() == Damaged(rects, g.w, g.h, g.bw)
  {
    ghost var extent := Pixels(Extent(g.w, g.h, g.bw));
    for k := 0 to |rects|
      invariant g.Marked() == Damaged(rects[..k], g.w, g.h, g.bw)
    {
      g.Mark(rects[k]);
      DamagedNext(rects, k, g.w, g.h, g.bw);
    }
    assert rects[..|rects|] == rects;
  }

  lemma DamagedNext(rects: seq<Rect>, k: nat, w: int, h: int, bw: int)
    requires k < |rects|
    ensures Damaged(rects[..k + 1], w, h, bw)
         == Damaged(rects[..k], w, h, bw) + Pixels(rects[k]) * Pixels(Extent(w, h, bw))
  {
  }

  /** The verdict of a phase, in terms of the damaged pixels: the border counts are those of the
      border and of its damaged part, and each phase asks what it is meant to ask. */
  method Verdict(w: int, h: int, bw: int, rects: seq<Rect>, phase: Phase) returns (r: Report)
    ensures !(w > 0 && h > 0 && bw >= 0) ==> r == Report(0, 0, false, true, 0, 0, false)
    ensures w > 0 && h > 0 && bw >= 0 ==>
        var ring, damaged := Ring(w, h, bw), Damaged(rects, w, h, bw);
        && r.ringCells == (w + 2 * bw) * (h + 2 * bw) - w * h && r.ringCovered == |ring * damaged|
        && r.insideCells == w * h && r.insideCovered == |Pixels(Client(w, h)) * damaged|
        && (r.fullyCovered <==> bw > 0 && ring <= damaged)
        && (r.untouched <==> ring !! damaged)
        && (r.matches <==>
              match phase
              case NoAnnulus => ring !! damaged
              case AnnulusFull => bw > 0 && ring <= damaged
              case ClientOnly => damaged == Pixels(Client(w, h)))
  {
    hide Pixels, Ring, Damaged;
    var g := new Grid(w, h, bw);
    if !g.ok {
      return Report(0, 0, false, true, 0, 0, false);
    }
    MarkAll(g, rects);
    var ringCells, ringCovered := CountRing(g);
    var inCells, inCovered := g.Count(Client(w, h));
    var full := ringCells > 0 && ringCovered == ringCells;
    var ok := match phase
      case NoAnnulus => ringCovered == 0
      case AnnulusFull => full
      case ClientOnly => inCells > 0 && inCovered == inCells && ringCovered == 0;
    r := Report(ringCells, ringCovered, full, ringCovered == 0, inCells, inCovered, ok);
    VerdictMeaning(w, h, bw, rects);
  }

  /** The sums over the four strips count the border and its marked part. */
  method CountRing(g: Grid) returns (cells: nat, covered: nat)
    requires g.Valid() && g.ok
    ensures cells == |Ring(g.w, g.h, g.bw) * Pixels(Extent(g.w, g.h, g.bw))|
    ensures covered == |Ring(g.w, g.h, g.bw) * g.Marked()|
  {
    hide Pixels, Ring, Grid.Marked;
    var strips := Strips(g.w, g.h, g.bw);
    var n0, c0 := g.Count(strips[0]);
    var n1, c1 := g.Count(strips[1]);
    var n2, c2 := g.Count(strips[2]);
    var n3, c3 := g.Count(strips[3]);
    cells, covered := n0 + n1 + n2 + n3, c0 + c1 + c2 + c3;
    StripsCount(g.w, g.h, g.bw, Pixels(Extent(g.w, g.h, g.bw)));
    StripsCount(g.w, g.h, g.bw, g.Marked());
  }

  lemma VerdictMeaning(w: int, h: int, bw: int, rects: seq<Rect>)
    requires w > 0 && h > 0 && bw >= 0
    ensures var ring, damaged, client, extent := Ring(w, h, bw), Damaged(rects, w, h, bw), Pixels(Client(w, h)),
        Pixels(Extent(w, h, bw));
      && |ring * extent| == (w + 2 * bw) * (h + 2 * bw) - w * h && |client * extent| == w * h
      && (|ring * extent| > 0 && |ring * damaged| == |ring * extent| <==> bw > 0 && ring <= damaged)
      && (|ring * damaged| == 0 <==> ring !! damaged)
      && (|client * extent| > 0 && |client * damaged| == |client * extent| && |ring * damaged| == 0 <==>
          damaged == client)
  {
    hide Ring, Damaged, Pixels;
    var ring, damaged, client, extent := Ring(w, h, bw), Damaged(rects, w, h, bw), Pixels(Client(w, h)),
      Pixels(Extent(w, h, bw));
    RingSize(w, h, bw);
    PixelsSize(0, 0, w, h);
    ExtentParts(w, h, bw, rects);
    PartsMeaning(ring, client, damaged);
    assert ring * extent == ring && client * extent == client;
  }

  lemma ExtentParts(w: int, h: int, bw: int, rects: seq<Rect>)
    requires w > 0 && h > 0 && bw >= 0
    ensures Pixels(Extent(w, h, bw)) == Ring(w, h, bw) + Pixels(Client(w, h)) && Ring(w, h, bw) !! Pixels(Client(w, h))
    ensures Damaged(rects, w, h, bw) <= Pixels(Extent(w, h, bw))
    ensures Pixels(Client(w, h)) != {}
  {
    assert forall p :: InRect(Client(w, h), p) ==> InRect(Extent(w, h, bw), p);
    assert Pixels(Client(w, h)) <= Pixels(Extent(w, h, bw));
    InPixels(Client(w, h), Pt(0, 0));
  }

  /** Counts say what sets do, when two disjoint parts hold everything. */
  lemma PartsMeaning(ring: set<Pt>, client: set<Pt>, damaged: set<Pt>)
    requires ring !! client && damaged <= ring + client && client != {}
    ensures |ring * damaged| == |ring| <==> ring <= damaged
    ensures |ring * damaged| == 0 <==> ring !! damaged
    ensures |client| > 0
    ensures |client * damaged| == |client| && |ring * damaged| == 0 <==> damaged == client
  {
    SubsetSize(ring * damaged, ring);
    SubsetSize(client * damaged, client);
    assert |ring * damaged| == 0 <==> ring * damaged == {};
    assert ring * damaged == ring <==> ring <= damaged;
    assert client * damaged == client <==> client <= damaged;
  }
}
