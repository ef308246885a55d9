/** A client's move of a region (crates/yserver-core/src/region.rs, `translate_clipped`): the boxes
    are moved, cut to the 16-bit range and not merged again. */
module ClippedTranslate {
  import opened Boxes
  import opened Regions
  import opened RegionAlgebra

  /** A coordinate that has a pixel in the 16-bit range. */
  predicate Visible(v: int) { MINSHORT <= v < MAXSHORT }

  function ClippedMove(b: Box, dx: int, dy: int): Box {
    var m := Moved(b, dx, dy);
    Box(Clamp16(m.x1), Clamp16(m.y1), Clamp16(m.x2), Clamp16(m.y2))
  }

  /** Something of the moved box is left. */
  predicate Kept(b: Box, dx: int, dy: int) {
    var m := Moved(b, dx, dy);
    !(m.x2 <= MINSHORT || m.y2 <= MINSHORT || m.x1 >= MAXSHORT || m.y1 >= MAXSHORT)
  }

  /** `m` are the moved boxes of which something is left, of the first n, in order; `src` says
      which they are. */
  ghost predicate Picks(r: seq<Box>, n: nat, m: seq<Box>, src: seq<nat>, dx: int, dy: int) {
    && n <= |r| && |src| == |m|
    && (forall k :: 0 <= k < |m| ==> src[k] < n && Kept(r[src[k]], dx, dy) && m[k] == ClippedMove(r[src[k]], dx, dy))
    && (forall k, h :: 0 <= k < h < |m| ==> src[k] < src[h])
    && (forall i :: 0 <= i < n && Kept(r[i], dx, dy) ==> i in src)
  }

  /** No seam is left in sight, and no two bands that touch in sight become the same when cut. */
  ghost predicate CleanMove(r: seq<Box>, dx: int, dy: int) {
    && (forall x, y :: Seam(r, x, y) ==> !(MINSHORT < x + dx < MAXSHORT && Visible(y + dy)))
    && (forall k :: Boundary(r, k) && MINSHORT < r[k].y1 + dy < MAXSHORT ==>
        BlankIn(r, r[k].y1, dx) || DifferIn(r, r[k].y1, dx))
  }

  /** Nothing of the row is in sight. */
  ghost predicate BlankIn(r: seq<Box>, y: int, dx: int) {
    forall x :: Visible(x + dx) ==> !In(r, x, y)
  }

  /** The row and the one above it differ in sight. */
  ghost predicate DifferIn(r: seq<Box>, y: int, dx: int) {
    exists x :: Visible(x + dx) && In(r, x, y - 1) != In(r, x, y)
  }

  /** `Region::translate_clipped`, a client's move: the pixels that leave the 16-bit range
      are lost, and no others; the boxes left are canonical iff the move is clean. */
  method TranslateClipped(r: seq<Box>, dx: int, dy: int) returns (m: seq<Box>)
    requires Banded(r)
    ensures Banded(m)
    ensures forall x, y :: In(m, x, y) <==> -0x8000 <= x < 0x7fff && -0x8000 <= y < 0x7fff && In(r, x - dx, y - dy)
    ensures Canonical(m) <==> CleanMove(r, dx, dy)
  {
    hide In, Canonical, Banded, CleanMove;
    m := [];
    ghost var src: seq<nat> := [];
    for i := 0 to |r|
      invariant Picks(r, i, m, src, dx, dy)
    {
      var b := Moved(r[i], dx, dy);
      if b.x2 <= MINSHORT || b.y2 <= MINSHORT || b.x1 >= MAXSHORT || b.y1 >= MAXSHORT {
        continue;
      }
      m := m + [Box(Clamp16(b.x1), Clamp16(b.y1), Clamp16(b.x2), Clamp16(b.y2))];
      src := src + [i];
    }
    PicksBanded(r, m, src, dx, dy);
    PicksCells(r, m, src, dx, dy);
    CanonicalMove(r, m, src, dx, dy);
  }

  lemma PicksBanded(r: seq<Box>, m: seq<Box>, src: seq<nat>, dx: int, dy: int)
    requires Banded(r) && Picks(r, |r|, m, src, dx, dy)
    ensures Banded(m)
  {
    forall k | 0 <= k < |m| ensures NonEmpty(m[k]) {
      assert NonEmpty(r[src[k]]);
    }
    forall k, h | 0 <= k < h < |m| ensures Before(m[k], m[h]) {
      assert Before(r[src[k]], r[src[h]]);
    }
  }

  lemma BoxCells(b: Box, dx: int, dy: int, x: int, y: int)
    ensures Visible(x) && Visible(y) && InBox(b, x - dx, y - dy) ==> Kept(b, dx, dy)
    ensures Kept(b, dx, dy) ==>
        (InBox(ClippedMove(b, dx, dy), x, y) <==> Visible(x) && Visible(y) && InBox(b, x - dx, y - dy))
  {
  }

  lemma PicksCells(r: seq<Box>, m: seq<Box>, src: seq<nat>, dx: int, dy: int)
    requires Picks(r, |r|, m, src, dx, dy)
    ensures forall x, y :: In(m, x, y) <==> Visible(x) && Visible(y) && In(r, x - dx, y - dy)
  {
    hide Kept, ClippedMove;
    forall x, y ensures In(m, x, y) <==> Visible(x) && Visible(y) && In(r, x - dx, y - dy) {
      if In(m, x, y) {
        var k :| 0 <= k < |m| && InBox(m[k], x, y);
        BoxCells(r[src[k]], dx, dy, x, y);
      }
      if Visible(x) && Visible(y) && In(r, x - dx, y - dy) {
        var i :| 0 <= i < |r| && InBox(r[i], x - dx, y - dy);
        BoxCells(r[i], dx, dy, x, y);
        var k :| 0 <= k < |src| && src[k] == i;
        assert InBox(m[k], x, y);
      }
    }
  }

  // ------------------------------------------------------- canonical or not

  lemma CanonicalMove(r: seq<Box>, m: seq<Box>, src: seq<nat>, dx: int, dy: int)
    requires Banded(r) && Banded(m) && Picks(r, |r|, m, src, dx, dy)
    requires forall x, y :: In(m, x, y) <==> Visible(x) && Visible(y) && In(r, x - dx, y - dy)
    ensures Canonical(m) <==> CleanMove(r, dx, dy)
  {
    hide Banded, Picks, In, Seam, Separated;
    SeparatedMove(r, m, src, dx, dy);
    if Coalesced(m) {
      forall c | Boundary(r, c) && MINSHORT < r[c].y1 + dy < MAXSHORT ensures BlankIn(r, r[c].y1, dx)
        || DifferIn(r, r[c].y1, dx) {
        RowsMoved(r, m, dx, dy, r[c].y1 + dy);
        if !BlankIn(r, r[c].y1, dx) && !DifferIn(r, r[c].y1, dx) { BoundaryMoved(r, m, src, dx, dy, c); }
      }
    }
    forall b | Boundary(m, b) ensures exists c :: CameFrom(r, m, dx, dy, b, c) {
      var c := BoundaryFrom(r, m, src, dx, dy, b);
      assert CameFrom(r, m, dx, dy, b, c);
    }
    if forall k :: Boundary(r, k) && MINSHORT < r[k].y1 + dy < MAXSHORT ==>
        BlankIn(r, r[k].y1, dx) || DifferIn(r, r[k].y1, dx) {
      forall b | Boundary(m, b) ensures RowsDiffer(m, m[b].y1) {
        var c :| CameFrom(r, m, dx, dy, b, c);
        RowsMoved(r, m, dx, dy, m[b].y1);
      }
    }
  }

  /** Boundary b after the move was boundary c before, in sight. */
  ghost predicate CameFrom(r: seq<Box>, m: seq<Box>, dx: int, dy: int, b: int, c: int) {
    && Boundary(m, b) && Boundary(r, c) && m[b].y1 == r[c].y1 + dy
    && MINSHORT < r[c].y1 + dy < MAXSHORT && !BlankIn(r, r[c].y1, dx)
  }

  lemma SeparatedMove(r: seq<Box>, m: seq<Box>, src: seq<nat>, dx: int, dy: int)
    requires Banded(r) && Banded(m) && Picks(r, |r|, m, src, dx, dy)
    ensures Separated(m) <==> forall x, y :: Seam(r, x, y) ==> !(MINSHORT < x + dx < MAXSHORT && Visible(y + dy))
  {
    hide Banded, Picks, Seam, Separated;
    SeparatedIff(m);
    MovedSeams(r, m, src, dx, dy);
    if x, y :| Seam(r, x, y) && MINSHORT < x + dx < MAXSHORT && Visible(y + dy) {
      assert x + dx - dx == x && y + dy - dy == y;
      assert Seam(m, x + dx, y + dy);
    }
  }

  /** Two rows in sight differ after the move iff they differ in sight before. */
  lemma RowsMoved(r: seq<Box>, m: seq<Box>, dx: int, dy: int, y: int)
    requires forall x, y :: In(m, x, y) <==> Visible(x) && Visible(y) && In(r, x - dx, y - dy)
    requires MINSHORT < y < MAXSHORT
    ensures RowsDiffer(m, y) <==> DifferIn(r, y - dy, dx)
  {
    hide In;
    if RowsDiffer(m, y) {
      var x :| In(m, x, y - 1) != In(m, x, y);
      assert Visible((x - dx) + dx) && y - 1 - dy == y - dy - 1;
      assert In(r, x - dx, y - dy - 1) != In(r, x - dx, y - dy);
    }
    if DifferIn(r, y - dy, dx) {
      var x :| Visible(x + dx) && In(r, x, y - dy - 1) != In(r, x, y - dy);
      assert (x + dx) - dx == x && y - 1 - dy == y - dy - 1;
      assert In(m, x + dx, y - 1) != In(m, x + dx, y);
    }
  }

  lemma MovedSeams(r: seq<Box>, m: seq<Box>, src: seq<nat>, dx: int, dy: int)
    requires Banded(r) && Banded(m) && Picks(r, |r|, m, src, dx, dy)
    ensures forall x, y :: Seam(m, x, y) <==> MINSHORT < x < MAXSHORT && Visible(y) && Seam(r, x - dx, y - dy)
  {
    hide Banded, Picks;
    forall x, y ensures Seam(m, x, y) <==> MINSHORT < x < MAXSHORT && Visible(y) && Seam(r, x - dx, y - dy) {
      if Seam(m, x, y) {
        var k, h :| 0 <= k < |m| && 0 <= h < |m| && Touching(m[k], m[h], x, y);
        TouchingFrom(r, m, src, dx, dy, k, h, x, y);
      }
      if MINSHORT < x < MAXSHORT && Visible(y) && Seam(r, x - dx, y - dy) {
        var i, j :| 0 <= i < |r| && 0 <= j < |r| && Touching(r[i], r[j], x - dx, y - dy);
        TouchingMoved(r, m, src, dx, dy, i, j, x, y);
      }
    }
  }

  /** Boxes of one band after the move are of one band before. */
  lemma SameBandBefore(r: seq<Box>, m: seq<Box>, src: seq<nat>, dx: int, dy: int, k: nat, h: nat)
    requires Banded(r) && Banded(m) && Picks(r, |r|, m, src, dx, dy) && k < |m| && h < |m| && m[k].y1 == m[h].y1
    ensures r[src[k]].y1 == r[src[h]].y1
  {
    assert NonEmpty(m[k]) && NonEmpty(m[h]);
    if k < h { assert Before(r[src[k]], r[src[h]]); }
    if h < k { assert Before(r[src[h]], r[src[k]]); }
  }

  lemma TouchingFrom(r: seq<Box>, m: seq<Box>, src: seq<nat>, dx: int, dy: int, k: nat, h: nat, x: int, y: int)
    requires Banded(r) && Banded(m) && Picks(r, |r|, m, src, dx, dy) && k < |m| && h < |m| && Touching(m[k], m[h], x, y)
    ensures MINSHORT < x < MAXSHORT && Visible(y) && Seam(r, x - dx, y - dy)
  {
    SameBandBefore(r, m, src, dx, dy, k, h);
    assert NonEmpty(m[k]) && NonEmpty(m[h]);
    assert Touching(r[src[k]], r[src[h]], x - dx, y - dy);
  }

  lemma TouchingMoved(r: seq<Box>, m: seq<Box>, src: seq<nat>, dx: int, dy: int, i: nat, j: nat, x: int, y: int)
    requires Banded(r) && Picks(r, |r|, m, src, dx, dy) && MINSHORT < x < MAXSHORT && Visible(y)
    requires i < |r| && j < |r| && Touching(r[i], r[j], x - dx, y - dy)
    ensures Seam(m, x, y)
  {
    assert NonEmpty(r[i]) && NonEmpty(r[j]);
    SameBand(r, i, j);
    assert i in src && j in src;
    var k :| 0 <= k < |src| && src[k] == i;
    var h :| 0 <= h < |src| && src[h] == j;
    assert Touching(m[k], m[h], x, y);
  }

  /** Between a box that ends at row y and one that begins there two bands touch. */
  lemma {:induction false} TouchBetween(r: seq<Box>, p: nat, q: nat, y: int) returns (c: nat)
    requires Banded(r) && p < q < |r| && r[p].y2 == y == r[q].y1
    ensures Boundary(r, c) && r[c].y1 == y
    decreases q - p
  {
    assert Before(r[p], r[p + 1]) && NonEmpty(r[p]) && NonEmpty(r[p + 1]);
    if r[p + 1].y1 == y {
      c := p + 1;
    } else {
      assert Before(r[p + 1], r[q]);
      c := TouchBetween(r, p + 1, q, y);
    }
  }

  /** Bands that touch after the move touched before, in sight. */
  lemma BoundaryFrom(r: seq<Box>, m: seq<Box>, src: seq<nat>, dx: int, dy: int, b: nat) returns (c: nat)
    requires Banded(r) && Banded(m) && Picks(r, |r|, m, src, dx, dy) && Boundary(m, b)
    ensures Boundary(r, c) && m[b].y1 == r[c].y1 + dy && MINSHORT < r[c].y1 + dy < MAXSHORT && !BlankIn(r, r[c].y1, dx)
  {
    var p, q := src[b - 1], src[b];
    assert NonEmpty(m[b - 1]) && NonEmpty(m[b]) && NonEmpty(r[q]);
    c := TouchBetween(r, p, q, m[b].y1 - dy);
    var x := m[b].x1 - dx;
    assert InBox(r[q], x, r[c].y1);
    assert Visible(x + dx) && In(r, x, r[c].y1);
  }

  /** Bands that touched with pixels in sight on both sides still touch. */
  lemma BoundaryMoved(r: seq<Box>, m: seq<Box>, src: seq<nat>, dx: int, dy: int, c: nat)
    requires Banded(r) && Banded(m) && Picks(r, |r|, m, src, dx, dy) && Boundary(r, c)
        && MINSHORT < r[c].y1 + dy < MAXSHORT
    requires forall x, y :: In(m, x, y) <==> Visible(x) && Visible(y) && In(r, x - dx, y - dy)
    requires !BlankIn(r, r[c].y1, dx) && !DifferIn(r, r[c].y1, dx)
    ensures exists b :: Boundary(m, b) && m[b].y1 == r[c].y1 + dy
  {
    var y := r[c].y1;
    var x :| Visible(x + dx) && In(r, x, y);
    assert In(r, x, y - 1);
    var i :| 0 <= i < |r| && InBox(r[i], x, y - 1);
    var j :| 0 <= j < |r| && InBox(r[j], x, y);
    hide Picks, BlankIn, DifferIn, In, Banded;
    EdgeRows(r, c, i, j, x);
    BoundaryAcross(r, m, src, dx, dy, i, j, x, y);
  }

  lemma BoundaryAcross(r: seq<Box>, m: seq<Box>, src: seq<nat>, dx: int, dy: int, i: nat, j: nat, x: int, y: int)
    requires Banded(m) && Picks(r, |r|, m, src, dx, dy) && i < |r| && j < |r| && r[i].y2 == y == r[j].y1
    requires InBox(r[i], x, y - 1) && InBox(r[j], x, y) && Visible(x + dx) && MINSHORT < y + dy < MAXSHORT
    ensures exists b :: Boundary(m, b) && m[b].y1 == y + dy
  {
    hide Picks;
    var p := BoxMoved(r, m, src, dx, dy, i, x, y - 1);
    var q := BoxMoved(r, m, src, dx, dy, j, x, y);
    assert NonEmpty(m[p]) && NonEmpty(m[q]);
    assert forall k :: 0 <= k < p ==> Before(m[k], m[p]);
    var b := TouchBetween(m, p, q, y + dy);
  }

  /** A box with a pixel in sight is still there, its rows cut to the range. */
  lemma BoxMoved(r: seq<Box>, m: seq<Box>, src: seq<nat>, dx: int, dy: int, i: nat, x: int, y: int) returns (p: nat)
    requires Picks(r, |r|, m, src, dx, dy) && i < |r| && InBox(r[i], x, y) && Visible(x + dx) && Visible(y + dy)
    ensures p < |m| && m[p].y1 == Clamp16(r[i].y1 + dy) && m[p].y2 == Clamp16(r[i].y2 + dy)
  {
    BoxCells(r[i], dx, dy, x + dx, y + dy);
    p :| 0 <= p < |src| && src[p] == i;
  }

  /** The boxes on the two sides of a boundary end and begin there. */
  lemma EdgeRows(r: seq<Box>, c: nat, i: nat, j: nat, x: int)
    requires Banded(r) && Boundary(r, c) && i < |r| && j < |r|
    requires InBox(r[i], x, r[c].y1 - 1) && InBox(r[j], x, r[c].y1)
    ensures r[i].y2 == r[c].y1 == r[j].y1
  {
  }

  /** Two bands that differ only in the part cut away: a canonical region that is not canonical
      after the move. */
  method CutBandsStay() returns (r: seq<Box>, dx: int, m: seq<Box>)
    ensures Canonical(r) && !CleanMove(r, dx, 0) && !Canonical(m)
    ensures forall x, y :: In(m, x, y) <==> Visible(x) && Visible(y) && In(r, x - dx, y)
  {
    r := [Box(0, 0, 10, 1), Box(5, 1, 10, 2)];
    assert Canonical(r) by {
      assert InBox(r[0], 0, 0);
      assert In(r, 0, 0) && !In(r, 0, 1);
      assert RowsDiffer(r, r[1].y1);
    }
    dx := MINSHORT - 7;
    assert Boundary(r, 1);
    assert InBox(r[1], 7, 1);
    assert In(r, 7, 1) && Visible(7 + dx);
    assert forall x :: Visible(x + dx) ==> (In(r, x, 0) <==> x < 10) && (In(r, x, 1) <==> x < 10) by {
      forall x | Visible(x + dx) ensures (In(r, x, 0) <==> x < 10) && (In(r, x, 1) <==> x < 10) {
        assert InBox(r[0], x, 0) <==> x < 10;
        assert InBox(r[1], x, 1) <==> x < 10;
      }
    }
    assert !BlankIn(r, 1, dx) && !DifferIn(r, 1, dx);
    m := TranslateClipped(r, dx, 0);
  }
}
