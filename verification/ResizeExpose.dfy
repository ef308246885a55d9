/** What a resize should expose, and what the events did expose (tools/resize-expose-probe.c). */
module ResizeExpose {
  import opened Plane

  datatype Rect = Rect(x: int, y: int, w: int, h: int)

  predicate In(r: Rect, p: Pt) { r.x <= p.x < r.x + r.w && r.y <= p.y < r.y + r.h }

  datatype Op = Move | Resize

  datatype Gravity = Forget | NorthWest

  datatype Kind = NoExpose | Full(box: Rect) | Strip(box: Rect)

  /** The expectation, branch by branch, as `mi/miwindow.c` derives it. */
  function Expectation(op: Op, gravity: Gravity, prevW: int, prevH: int, w: int, h: int): Kind {
    if op == Move then NoExpose
    else if gravity == Forget then Full(Rect(0, 0, w, h))
    else
      var kx, ky := if prevW < w then prevW else w, if prevH < h then prevH else h;
      if kx >= w && ky >= h then NoExpose
      else if kx >= w then Strip(Rect(0, ky, w, h - ky))
      else if ky >= h then Strip(Rect(kx, 0, w - kx, h))
      else Strip(Rect(0, 0, w, h))
  }

  /** The new window's pixels that the old window, its content kept at the top left, does not cover. */
  predicate Uncovered(prevW: int, prevH: int, w: int, h: int, p: Pt) {
    In(Rect(0, 0, w, h), p) && !In(Rect(0, 0, prevW, prevH), p)
  }

  /** `box` is the smallest box around the pixels that satisfy a test. */
  ghost predicate Bounds(box: Rect, test: Pt -> bool) {
    && (forall p :: test(p) ==> In(box, p))
    && (exists p :: test(p) && p.x == box.x) && (exists p :: test(p) && p.x == box.x + box.w - 1)
    && (exists p :: test(p) && p.y == box.y) && (exists p :: test(p) && p.y == box.y + box.h - 1)
  }

  /** With NorthWest gravity: nothing is expected iff nothing is uncovered; otherwise the box is the
      tight bounding box of what is, and, when only one side grew, exactly what is. */
  lemma ExpectationRight(prevW: int, prevH: int, w: int, h: int)
    requires prevW > 0 && prevH > 0 && w > 0 && h > 0
    ensures var e := Expectation(Resize, NorthWest, prevW, prevH, w, h);
      && (e == NoExpose <==> forall p :: !Uncovered(prevW, prevH, w, h, p))
      && (e != NoExpose ==> e.Strip? && Bounds(e.box, p => Uncovered(prevW, prevH, w, h, p)))
      && (e != NoExpose && (prevW >= w || prevH >= h) ==>
          forall p :: In(e.box, p) <==> Uncovered(prevW, prevH, w, h, p))
  {
    var e := Expectation(Resize, NorthWest, prevW, prevH, w, h);
    if e != NoExpose {
      var low, right := Pt(0, h - 1), Pt(w - 1, 0);
      var corner := Pt(e.box.x, e.box.y);
      assert Uncovered(prevW, prevH, w, h, Pt(w - 1, h - 1));
      assert prevH < h ==> Uncovered(prevW, prevH, w, h, low) && Uncovered(prevW, prevH, w, h, Pt(0, prevH));
      assert prevW < w ==> Uncovered(prevW, prevH, w, h, right) && Uncovered(prevW, prevH, w, h, Pt(prevW, 0));
      var test := (p: Pt) => Uncovered(prevW, prevH, w, h, p);
      assert test(Pt(w - 1, h - 1));
      if prevW >= w {
        assert test(Pt(0, prevH));
      } else if prevH >= h {
        assert test(Pt(prevW, 0));
      } else {
        assert test(low) && test(right);
      }
    }
  }

  /** A move exposes nothing; without a gravity a resize exposes every pixel of the new window, and
      otherwise those that lie past the old width or height. */
  lemma ExpectedPixels(op: Op, gravity: Gravity, prevW: int, prevH: int, w: int, h: int, p: Pt)
    requires prevW > 0 && prevH > 0 && w > 0 && h > 0
    ensures var e := Expectation(op, gravity, prevW, prevH, w, h);
      && (op == Move ==> e == NoExpose)
      && (op == Resize && gravity == Forget ==>
            e.Full? && (0 <= p.x < w && 0 <= p.y < h
                        <==> e.box.x <= p.x < e.box.x + e.box.w && e.box.y <= p.y < e.box.y + e.box.h))
      && (op == Resize && gravity == NorthWest ==>
            && (e == NoExpose <==> w <= prevW && h <= prevH)
            && (0 <= p.x < w && 0 <= p.y < h && (prevW <= p.x || prevH <= p.y) <==> Uncovered(prevW, prevH, w, h, p))
            && (Uncovered(prevW, prevH, w, h, p) ==>
                  e.Strip? && e.box.x <= p.x < e.box.x + e.box.w && e.box.y <= p.y < e.box.y + e.box.h))
  {
  }

  /** The first n of a list, or all of it. */
  function FirstOf(s: seq<Rect>, n: nat): seq<Rect> { if |s| < n then s else s[..n] }

  lemma RecordNext(s: seq<Rect>, r: Rect, n: nat)
    ensures |FirstOf(s, n)| < n <==> |s| < n
    ensures FirstOf(s + [r], n) == if |s| < n then FirstOf(s, n) + [r] else FirstOf(s, n)
  {
  }

  /** The events collected: the first few rectangles, the counters and the running union box. */
  class Collector {
    const limit: nat
    var recorded: seq<Rect>
    var count: nat
    var haveUnion: bool
    var x1: int
    var y1: int
    var x2: int
    var y2: int
    ghost var all: seq<Rect>

    ghost predicate Valid()
      reads this
    {
      && count == |all| && recorded == FirstOf(all, limit)
      && (haveUnion <==> all != [])
      && (haveUnion ==> IsHull(all, x1, y1, x2, y2))
    }

    constructor (limit: nat)
      ensures Valid() && all == [] && this.limit == limit
    {
      this.limit := limit;
      recorded, count, haveUnion, x1, y1, x2, y2 := [], 0, false, 0, 0, 0, 0;
      all := [];
    }

    /** One Expose event: recorded while there is room, counted and united always. */
    method Expose(r: Rect)
      requires Valid()
      modifies this
      ensures Valid() && all == old(all) + [r] && count == old(count) + 1
      ensures recorded == if |old(recorded)| < limit then old(recorded) + [r] else old(recorded)
    {
      hide IsHull, FirstOf;
      RecordNext(all, r, limit);
      if |recorded| < limit {
        recorded := recorded + [r];
      }
      if !haveUnion {
        HullOfOne(r);
        haveUnion, x1, y1, x2, y2 := true, r.x, r.y, r.x + r.w, r.y + r.h;
      } else {
        HullGrows(all, r, x1, y1, x2, y2);
        if r.x < x1 { x1 := r.x; }
        if r.y < y1 { y1 := r.y; }
        if r.x + r.w > x2 { x2 := r.x + r.w; }
        if r.y + r.h > y2 { y2 := r.y + r.h; }
      }
      count := count + 1;
      all := all + [r];
    }

    /** `MATCH`: the union of what arrived is the expectation. */
    method Match(live: bool, e: Kind) returns (m: bool)
      requires Valid()
      ensures m <==> live && (e == NoExpose ==> all == []) && (e != NoExpose ==> all != [] && HullIs(all, e.box))
    {
      if !live {
        return false;
      }
      if e == NoExpose {
        return count == 0;
      }
      m := count >= 1 && haveUnion && x1 == e.box.x && y1 == e.box.y && x2 - x1 == e.box.w && y2 - y1 == e.box.h;
      if haveUnion && IsHull(all, e.box.x, e.box.y, e.box.x + e.box.w, e.box.y + e.box.h) {
        HullUnique(all, x1, y1, x2, y2, e.box.x, e.box.y, e.box.x + e.box.w, e.box.y + e.box.h);
      }
    }
  }

  ghost predicate HullIs(s: seq<Rect>, box: Rect) { IsHull(s, box.x, box.y, box.x + box.w, box.y + box.h) }

  /** The smallest box around all the rectangles of a list. */
  ghost predicate IsHull(s: seq<Rect>, x1: int, y1: int, x2: int, y2: int) {
    && (forall i :: 0 <= i < |s| ==> x1 <= s[i].x && y1 <= s[i].y && s[i].x + s[i].w <= x2 && s[i].y + s[i].h <= y2)
    && (exists i :: 0 <= i < |s| && s[i].x == x1) && (exists i :: 0 <= i < |s| && s[i].y == y1)
    && (exists i :: 0 <= i < |s| && s[i].x + s[i].w == x2) && (exists i :: 0 <= i < |s| && s[i].y + s[i].h == y2)
  }

  lemma HullOfOne(r: Rect)
    ensures IsHull([] + [r], r.x, r.y, r.x + r.w, r.y + r.h)
  {
    assert ([] + [r])[0] == r;
  }

  lemma HullGrows(s: seq<Rect>, r: Rect, x1: int, y1: int, x2: int, y2: int)
    requires IsHull(s, x1, y1, x2, y2)
    ensures IsHull(s + [r], if r.x < x1 then r.x else x1, if r.y < y1 then r.y else y1,
                   if r.x + r.w > x2 then r.x + r.w else x2, if r.y + r.h > y2 then r.y + r.h else y2)
  {
    var t := s + [r];
    var a :| 0 <= a < |s| && s[a].x == x1;
    var b :| 0 <= b < |s| && s[b].y == y1;
    var c :| 0 <= c < |s| && s[c].x + s[c].w == x2;
    var d :| 0 <= d < |s| && s[d].y + s[d].h == y2;
    assert t[a] == s[a] && t[b] == s[b] && t[c] == s[c] && t[d] == s[d] && t[|s|] == r;
  }

  lemma HullUnique(s: seq<Rect>, x1: int, y1: int, x2: int, y2: int, a1: int, b1: int, a2: int, b2: int)
    requires IsHull(s, x1, y1, x2, y2) && IsHull(s, a1, b1, a2, b2)
    ensures x1 == a1 && y1 == b1 && x2 == a2 && y2 == b2
  {
  }
}
