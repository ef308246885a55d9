/** The scan of the pixels that differ from the expectation
    (tools/vng-scenarios/pixel-oracle-check.py, `check_output`): under the cursor, accepted after a
    closer look, or bad. */
module ScanCheck {
  import opened Plane
  import opened PixelOracle

  datatype Point = Point(x: real, y: real)

  datatype Map = Map(a: real, b: real, c: real, d: real, e: real, f: real)

  /** `crtc_map` at any scale. */
  function ScaledMap(rot: Rotation, w: int, h: int, s: real, px: int, py: int): Map {
    var m := CrtcMap(rot, w, h, 0, 0);
    Map(s * m.a as real, s * m.b as real, s * m.c as real + px as real,
        s * m.d as real, s * m.e as real, s * m.f as real + py as real)
  }

  /** `sample`. */
  function SampleAt(m: Map, x: int, y: int): Point {
    var cx, cy := x as real + 0.5, y as real + 0.5;
    Point(m.a * cx + m.b * cy + m.c, m.d * cx + m.e * cy + m.f)
  }

  /** At scale 1 a pixel samples the centre of the root pixel it shows. */
  lemma UnitSample(rot: Rotation, w: int, h: int, px: int, py: int, p: Pt)
    ensures var q := Shows(rot, w, h, px, py, p);
      SampleAt(ScaledMap(rot, w, h, 1.0, px, py), p.x, p.y) == Point(q.x as real + 0.5, q.y as real + 0.5)
  {
  }

  /** At another scale the view is stretched from its own corner, and placed as before. */
  lemma ScaledSample(rot: Rotation, w: int, h: int, s: real, px: int, py: int, x: int, y: int)
    ensures var u := SampleAt(ScaledMap(rot, w, h, 1.0, 0, 0), x, y);
      SampleAt(ScaledMap(rot, w, h, s, px, py), x, y) == Point(px as real + s * u.x, py as real + s * u.y)
  {
    var m, cx, cy := CrtcMap(rot, w, h, 0, 0), x as real + 0.5, y as real + 0.5;
    Stretched(s, m.a as real, m.b as real, m.c as real, cx, cy, px as real);
    Stretched(s, m.d as real, m.e as real, m.f as real, cx, cy, py as real);
    hide CrtcMap;
  }

  lemma Stretched(s: real, a: real, b: real, c: real, x: real, y: real, at: real)
    ensures s * a * x + s * b * y + (s * c + at) == at + s * (1.0 * a * x + 1.0 * b * y + (1.0 * c + 0 as real))
  {
    Regrouped(s, a, x);
    Regrouped(s, b, y);
    Spread(s, a * x, b * y, c);
    assert 1.0 * a == a && 1.0 * b == b && 1.0 * c + 0 as real == c;
  }

  lemma Regrouped(s: real, a: real, x: real)
    ensures s * a * x == s * (a * x)
  {
  }

  lemma Spread(s: real, u: real, v: real, w: real)
    ensures s * (u + v + w) == s * u + s * v + s * w
  {
  }

  const TIE := 0.001

  /** CURSOR_BOX around a cursor position. */
  predicate InCursorBox(c: Pt, p: Point) {
    (c.x - 4) as real <= p.x < (c.x + 40) as real && (c.y - 4) as real <= p.y < (c.y + 40) as real
  }

  /** The expected root, row by row. */
  datatype Root = Root(w: nat, h: nat, pixels: seq<seq<Colour>>) {
    predicate Valid() {
      w > 0 && h > 0 && |pixels| == h && forall y :: 0 <= y < h ==> |pixels[y]| == w
    }

    predicate Has(x: int, y: int, c: Colour)
      requires Valid()
    {
      0 <= x < w && 0 <= y < h && pixels[y][x] == c
    }
  }

  /** The nearest filter's second look: a root pixel at most TIE away has the colour. */
  predicate NearestOk(root: Root, p: Point, got: Colour)
    requires root.Valid()
  {
    || root.Has((p.x - TIE).Floor, (p.y - TIE).Floor, got) || root.Has((p.x - TIE).Floor, (p.y + TIE).Floor, got)
    || root.Has((p.x + TIE).Floor, (p.y - TIE).Floor, got) || root.Has((p.x + TIE).Floor, (p.y + TIE).Floor, got)
  }

  /** A root pixel of that colour whose square, a thousandth wider, holds the point. */
  ghost predicate Near(root: Root, p: Point, got: Colour)
    requires root.Valid()
  {
    exists x, y :: root.Has(x, y, got) && AtOrBy(x, p.x) && AtOrBy(y, p.y)
  }

  ghost predicate AtOrBy(v: int, at: real) { v as real - 0.001 <= at < v as real + 1.001 }

  lemma NearestIff(root: Root, p: Point, got: Colour)
    requires root.Valid()
    ensures NearestOk(root, p, got) <==> Near(root, p, got)
  {
    if x, y :| root.Has(x, y, got) && AtOrBy(x, p.x) && AtOrBy(y, p.y) {
      assert (p.x - TIE).Floor == x || (p.x + TIE).Floor == x;
      assert (p.y - TIE).Floor == y || (p.y + TIE).Floor == y;
    }
  }

  /** At scale 1 the second look accepts exactly the colour of the root pixel shown. */
  lemma UnitNearestExact(rot: Rotation, w: int, h: int, px: int, py: int, p: Pt, root: Root, got: Colour)
    requires root.Valid()
    ensures var q := Shows(rot, w, h, px, py, p);
      NearestOk(root, SampleAt(ScaledMap(rot, w, h, 1.0, px, py), p.x, p.y), got) <==> root.Has(q.x, q.y, got)
  {
    UnitSample(rot, w, h, px, py, p);
    var q := Shows(rot, w, h, px, py, p);
    CentreFloor(q.x);
    CentreFloor(q.y);
  }

  lemma CentreFloor(v: int)
    ensures (v as real + 0.5 - TIE).Floor == v == (v as real + 0.5 + TIE).Floor
  {
  }

  function Clamped(v: int, n: int): int { Min(Max(v, 0), n - 1) }

  function Channel(c: Colour, k: nat): real { (if k == 0 then c.r else if k == 1 then c.g else c.b) as real }

  function At(root: Root, x: int, y: int, k: nat): real
    requires root.Valid()
  {
    Channel(root.pixels[Clamped(y, root.h)][Clamped(x, root.w)], k)
  }

  /** `bilinear`, exactly: one channel between the four neighbours. */
  function Blend(root: Root, p: Point, k: nat): real
    requires root.Valid()
  {
    var ux, uy := p.x - 0.5, p.y - 0.5;
    var x0, y0 := ux.Floor, uy.Floor;
    var fx, fy := ux - x0 as real, uy - y0 as real;
    Mix(At(root, x0, y0, k), At(root, x0 + 1, y0, k), At(root, x0, y0 + 1, k), At(root, x0 + 1, y0 + 1, k), fx, fy)
  }

  function Mix(v: real, right: real, below: real, across: real, fx: real, fy: real): real {
    v * (1.0 - fx) * (1.0 - fy) + right * fx * (1.0 - fy) + below * (1.0 - fx) * fy + across * fx * fy
  }

  lemma PixelAt(root: Root, x: int, y: int, k: nat)
    requires root.Valid() && 0 <= x < root.w && 0 <= y < root.h
    ensures At(root, x, y, k) == Channel(root.pixels[y][x], k)
  {
  }

  /** At a pixel's centre it is that pixel. */
  lemma BlendAtCentre(root: Root, x: int, y: int, k: nat)
    requires root.Valid() && 0 <= x < root.w && 0 <= y < root.h
    ensures Blend(root, Point(x as real + 0.5, y as real + 0.5), k) == Channel(root.pixels[y][x], k)
  {
    hide At;
    PixelAt(root, x, y, k);
    var p := Point(x as real + 0.5, y as real + 0.5);
    assert (p.x - 0.5).Floor == x && (p.y - 0.5).Floor == y;
    hide Mix;
    Unmixed(At(root, x, y, k), At(root, x + 1, y, k), At(root, x, y + 1, k), At(root, x + 1, y + 1, k));
    assert p.x - 0.5 - x as real == 0.0 && p.y - 0.5 - y as real == 0.0;
  }

  lemma Unmixed(v: real, right: real, below: real, across: real)
    ensures Mix(v, right, below, across, 0.0, 0.0) == v
  {
  }

  /** Channel k grows by a a column and by b a row. */
  ghost predicate IsAffine(root: Root, k: nat, a: real, b: real, c: real)
    requires root.Valid()
  {
    forall x, y :: 0 <= x < root.w && 0 <= y < root.h ==>
      Channel(root.pixels[y][x], k) == a * x as real + b * y as real + c
  }

  /** Between the centres it is exact for such an image. */
  lemma BlendAffine(root: Root, p: Point, k: nat, a: real, b: real, c: real)
    requires root.Valid() && IsAffine(root, k, a, b, c)
    requires 0.5 <= p.x < root.w as real - 0.5 && 0.5 <= p.y < root.h as real - 0.5
    ensures Blend(root, p, k) == a * (p.x - 0.5) + b * (p.y - 0.5) + c
  {
    hide At, Channel, Mix;
    var ux, uy := p.x - 0.5, p.y - 0.5;
    var x0, y0 := ux.Floor, uy.Floor;
    assert 0 <= x0 && x0 + 1 < root.w && 0 <= y0 && y0 + 1 < root.h;
    assert (x0 + 1) as real == x0 as real + 1.0 && (y0 + 1) as real == y0 as real + 1.0;
    Grows(root, k, a, b, c, x0, y0);
    var v, fx, fy := At(root, x0, y0, k), ux - x0 as real, uy - y0 as real;
    Mixed(a, b, v, fx, fy);
    assert Blend(root, p, k) == Mix(v, v + a, v + b, v + a + b, fx, fy);
    hide Blend;
    Moved(a, x0 as real, ux);
    Moved(b, y0 as real, uy);
    assert v + a * fx + b * fy == (a * x0 as real + a * fx) + (b * y0 as real + b * fy) + c;
  }

  lemma Moved(a: real, x0: real, ux: real)
    ensures a * x0 + a * (ux - x0) == a * ux
  {
  }

  lemma Grows(root: Root, k: nat, a: real, b: real, c: real, x: int, y: int)
    requires root.Valid() && IsAffine(root, k, a, b, c) && 0 <= x && x + 1 < root.w && 0 <= y && y + 1 < root.h
    ensures At(root, x, y, k) == a * x as real + b * y as real + c
    ensures At(root, x + 1, y, k) == At(root, x, y, k) + a && At(root, x, y + 1, k) == At(root, x, y, k) + b
    ensures At(root, x + 1, y + 1, k) == At(root, x, y, k) + a + b
  {
    hide At, Channel;
    PixelAt(root, x, y, k);
    PixelAt(root, x + 1, y, k);
    PixelAt(root, x, y + 1, k);
    PixelAt(root, x + 1, y + 1, k);
    assert a * (x + 1) as real == a * x as real + a && b * (y + 1) as real == b * y as real + b;
  }

  lemma Mixed(a: real, b: real, v: real, fx: real, fy: real)
    ensures Mix(v, v + a, v + b, v + a + b, fx, fy) == v + a * fx + b * fy
  {
    assert v * (1.0 - fx) + (v + a) * fx == v + a * fx;
    assert (v + b) * (1.0 - fx) + (v + a + b) * fx == v + b + a * fx;
    assert (v + a * fx) * (1.0 - fy) + (v + b + a * fx) * fy == v + a * fx + b * fy;
  }

  predicate BilinearOk(root: Root, p: Point, got: Colour, tol: real)
    requires root.Valid()
  {
    || p.x < 1.5 || p.y < 1.5 || p.x > root.w as real - 1.5 || p.y > root.h as real - 1.5
    || forall k :: 0 <= k < 3 ==> Blend(root, p, k) - tol <= Channel(got, k) <= Blend(root, p, k) + tol
  }

  /** At the centre of a root pixel: accepted in the outermost ring, and elsewhere iff no channel is off
      by more than the tolerance. */
  lemma BilinearAtCentre(root: Root, x: int, y: int, got: Colour, tol: real)
    requires root.Valid() && 0 <= x < root.w && 0 <= y < root.h
    ensures BilinearOk(root, Point(x as real + 0.5, y as real + 0.5), got, tol) <==>
        || x == 0 || y == 0 || x == root.w - 1 || y == root.h - 1
        || var want := root.pixels[y][x];
           && want.r as real - tol <= got.r as real <= want.r as real + tol
           && want.g as real - tol <= got.g as real <= want.g as real + tol
           && want.b as real - tol <= got.b as real <= want.b as real + tol
  {
    hide Blend;
    BlendAtCentre(root, x, y, 0);
    BlendAtCentre(root, x, y, 1);
    BlendAtCentre(root, x, y, 2);
  }

  /** The cursor's box: a root pixel is in it iff it is from 4 left of and above the cursor up to 40
      right of and below it, exclusively. */
  lemma CursorBoxIs(cursor: Pt, x: int, y: int)
    ensures InCursorBox(cursor, Point(x as real + 0.5, y as real + 0.5)) <==>
        cursor.x - 4 <= x < cursor.x + 40 && cursor.y - 4 <= y < cursor.y + 40
  {
  }

  /** What the check is given: the map, the mode's width, the expected root, the scanout, which of
      its pixels differ, and where the cursor is and has been. */
  datatype Check = Check(m: Map, w: nat, root: Root, scan: seq<Colour>, differs: seq<bool>,
                         cursor: Pt, path: seq<Pt>, bilinear: bool, tol: real) {
    predicate Valid() {
      w > 0 && root.Valid() && |scan| == |differs|
    }

    function PointOf(i: nat): Point
      requires Valid()
    {
      SampleAt(m, i % w, i / w)
    }

    predicate Accepted(i: nat)
      requires Valid() && i < |scan|
    {
      if bilinear then BilinearOk(root, PointOf(i), scan[i], tol) else NearestOk(root, PointOf(i), scan[i])
    }

    /** Bad where the cursor has been counts as vacated: it was not painted over. */
    predicate OnPath(i: nat)
      requires Valid()
    {
      exists k :: 0 <= k < |path| && InCursorBox(path[k], PointOf(i))
    }

    function ClassOf(i: nat): Class
      requires Valid() && i < |scan|
    {
      if !differs[i] then Same
      else if InCursorBox(cursor, PointOf(i)) then Masked
      else if Accepted(i) then Fine
      else Bad(OnPath(i))
    }

    /** The indices below n whose class is one of the wanted ones, in order. */
    function Where(wanted: set<Class>, n: nat): (s: seq<nat>)
      requires Valid() && n <= |scan|
      ensures forall i: nat :: i in s <==> i < n && ClassOf(i) in wanted
      ensures forall i, j :: 0 <= i < j < |s| ==> s[i] < s[j]
    {
      if n == 0 then []
      else
        var rest := Where(wanted, n - 1);
        assert forall i :: 0 <= i < |rest| ==> rest[i] in rest;
        if ClassOf(n - 1) in wanted then rest + [n - 1] else rest
    }
  }

  datatype Class = Same | Masked | Fine | Bad(vacated: bool)

  const ANY_BAD: set<Class> := {Bad(true), Bad(false)}

  function First(s: seq<nat>, n: nat): seq<nat> { if |s| < n then s else s[..n] }

  /** `data.find`: the next pixel that differs, or the end. */
  method Find(differs: seq<bool>, from: nat) returns (i: nat)
    requires from <= |differs|
    ensures from <= i <= |differs| && (i < |differs| ==> differs[i])
    ensures forall k :: from <= k < i ==> !differs[k]
  {
    i := from;
    while i < |differs| && !differs[i]
      invariant from <= i <= |differs| && forall k :: from <= k < i ==> !differs[k]
    {
      i := i + 1;
    }
  }

  /** The counters are those of the pixels below n. */
  ghost predicate Counted(c: Check, n: nat, bad: nat, masked: nat, vacated: nat, first: seq<nat>)
    requires c.Valid() && n <= |c.scan|
  {
    && bad == |c.Where(ANY_BAD, n)| && masked == |c.Where({Masked}, n)| && vacated == |c.Where({Bad(true)}, n)|
    && first == First(c.Where(ANY_BAD, n), 5)
  }

  function Items(s: seq<nat>): set<nat> { set x | x in s }

  lemma {:induction false} IncreasingSize(s: seq<nat>)
    requires forall i, j :: 0 <= i < j < |s| ==> s[i] < s[j]
    ensures |s| == |Items(s)|
  {
    if s != [] {
      var front, x := s[..|s| - 1], s[|s| - 1];
      IncreasingSize(front);
      assert s == front + [x];
      assert Items(s) == Items(front) + {x};
      assert forall i :: 0 <= i < |front| ==> front[i] < x;
    }
  }

  /** The cursor's box has been over the point. */
  ghost predicate Visited(path: seq<Pt>, p: Point) { exists b :: b in path && InCursorBox(b, p) }

  /** The pixels that differ under the cursor. */
  ghost function UnderCursor(c: Check): set<nat>
    requires c.Valid()
  {
    set i: nat | i < |c.scan| && c.differs[i] && InCursorBox(c.cursor, c.PointOf(i))
  }

  /** The pixels that differ elsewhere and are not accepted. */
  ghost function Wrong(c: Check): set<nat>
    requires c.Valid()
  {
    set i: nat | i < |c.scan| && c.differs[i] && !InCursorBox(c.cursor, c.PointOf(i)) && !c.Accepted(i)
  }

  /** Those of them where the cursor has been. */
  ghost function WrongOnPath(c: Check): set<nat>
    requires c.Valid()
  {
    set i | i in Wrong(c) && Visited(c.path, c.PointOf(i))
  }

  /** The first five of them, in order. */
  ghost predicate FirstOf(first: seq<nat>, wrong: set<nat>) {
    && |first| == Min(|wrong|, 5) && (forall k :: 0 <= k < |first| ==> first[k] in wrong)
    && (forall k, h :: 0 <= k < h < |first| ==> first[k] < first[h])
    && (forall i, k :: i in wrong && 0 <= k < |first| && i < first[k] ==> i in first)
  }

  /** What the numbers count, for the whole image, and what is reported. */
  lemma CountsAre(c: Check, bad: nat, masked: nat, vacated: nat, first: seq<nat>)
    requires c.Valid() && Counted(c, |c.scan|, bad, masked, vacated, first)
    ensures masked == |UnderCursor(c)| && bad == |Wrong(c)| && vacated == |WrongOnPath(c)| && FirstOf(first, Wrong(c))
  {
    hide InCursorBox, Check.Accepted, Check.PointOf, Check.Where;
    var n := |c.scan|;
    var m, b, v := c.Where({Masked}, n), c.Where(ANY_BAD, n), c.Where({Bad(true)}, n);
    IncreasingSize(m);
    IncreasingSize(b);
    IncreasingSize(v);
    assert Items(m) == UnderCursor(c);
    assert Items(b) == Wrong(c);
    assert forall i: nat :: i < n ==> (c.OnPath(i) <==> Visited(c.path, c.PointOf(i)));
    assert Items(v) == WrongOnPath(c);
    FirstFive(b, first, Wrong(c));
  }

  lemma FirstFive(s: seq<nat>, first: seq<nat>, wrong: set<nat>)
    requires forall i, j :: 0 <= i < j < |s| ==> s[i] < s[j]
    requires first == First(s, 5) && |wrong| == |s| && forall i :: i in s <==> i in wrong
    ensures FirstOf(first, wrong)
  {
    forall k | 0 <= k < |first| ensures first[k] in wrong { assert first[k] == s[k] && s[k] in s; }
    forall i, k | i in wrong && 0 <= k < |first| && i < first[k] ensures i in first {
      var j :| 0 <= j < |s| && s[j] == i;
      assert j < k;
      assert first[j] == i;
    }
  }

  /** One more pixel, by its class. */
  lemma NextCounted(c: Check, n: nat, bad: nat, masked: nat, vacated: nat, first: seq<nat>)
    requires c.Valid() && n < |c.scan| && Counted(c, n, bad, masked, vacated, first)
    ensures match c.ClassOf(n)
      case Same => Counted(c, n + 1, bad, masked, vacated, first)
      case Masked => Counted(c, n + 1, bad, masked + 1, vacated, first)
      case Fine => Counted(c, n + 1, bad, masked, vacated, first)
      case Bad(v) => Counted(c, n + 1, bad + 1, masked, if v then vacated + 1
      else vacated, if |first| < 5 then first + [n] else first)
  {
  }

  lemma {:induction false} Unchanged(c: Check, n: nat, i: nat, bad: nat, masked: nat, vacated: nat, first: seq<nat>)
    requires c.Valid() && n <= i <= |c.scan| && Counted(c, n, bad, masked, vacated, first)
    requires forall k :: n <= k < i ==> !c.differs[k]
    ensures Counted(c, i, bad, masked, vacated, first)
    decreases i - n
  {
    if n < i {
      assert c.ClassOf(n) == Same;
      NextCounted(c, n, bad, masked, vacated, first);
      Unchanged(c, n + 1, i, bad, masked, vacated, first);
    }
  }

  /** `check_output`'s loop: every pixel that differs is looked at once and is masked, accepted or
      bad; the five pixels reported are the first bad ones. */
  method Scan(c: Check) returns (bad: nat, masked: nat, vacated: nat, first: seq<nat>)
    requires c.Valid()
    ensures Counted(c, |c.scan|, bad, masked, vacated, first)
    ensures vacated <= bad
        && |c.Where({Masked, Fine} + ANY_BAD, |c.scan|)| == masked + |c.Where({Fine}, |c.scan|)| + bad
  {
    hide Counted, Check.Where, InCursorBox, Check.Accepted, Check.OnPath;
    bad, masked, vacated, first := 0, 0, 0, [];
    NoneCounted(c);
    ghost var done: nat := 0;
    var i := Find(c.differs, 0);
    while i < |c.differs|
      invariant done <= i <= |c.differs| && (i < |c.differs| ==> c.differs[i]) && forall k :: done <= k < i ==>
          !c.differs[k]
      invariant Counted(c, done, bad, masked, vacated, first)
      decreases |c.differs| - i
    {
      var at := i;
      i := Find(c.differs, i + 1);
      Unchanged(c, done, at, bad, masked, vacated, first);
      NextCounted(c, at, bad, masked, vacated, first);
      done := at + 1;
      if InCursorBox(c.cursor, c.PointOf(at)) {
        masked := masked + 1;
        continue;
      }
      if c.Accepted(at) {
        continue;
      }
      bad := bad + 1;
      if c.OnPath(at) {
        vacated := vacated + 1;
      }
      if |first| < 5 {
        first := first + [at];
      }
    }
    Unchanged(c, done, |c.scan|, bad, masked, vacated, first);
    ClassesAddUp(c, |c.scan|, bad, masked, vacated, first);
  }

  lemma NoneCounted(c: Check)
    requires c.Valid()
    ensures Counted(c, 0, 0, 0, 0, [])
  {
  }

  lemma ClassesAddUp(c: Check, n: nat, bad: nat, masked: nat, vacated: nat, first: seq<nat>)
    requires c.Valid() && n <= |c.scan| && Counted(c, n, bad, masked, vacated, first)
    ensures vacated <= bad && |c.Where({Masked, Fine} + ANY_BAD, n)| == masked + |c.Where({Fine}, n)| + bad
  {
    AddUp(c, n);
  }

  lemma {:induction false} AddUp(c: Check, n: nat)
    requires c.Valid() && n <= |c.scan|
    ensures |c.Where({Masked, Fine} + ANY_BAD, n)|
         == |c.Where({Masked}, n)| + |c.Where({Fine}, n)| + |c.Where(ANY_BAD, n)|
    ensures |c.Where({Bad(true)}, n)| <= |c.Where(ANY_BAD, n)|
  {
    if n > 0 { AddUp(c, n - 1); }
  }

  /** At scale 1 with the nearest filter a pixel off the cursor is bad iff it differs and is not the
      root pixel it shows. */
  lemma UnitBad(c: Check, rot: Rotation, h: int, px: int, py: int, i: nat)
    requires c.Valid() && i < |c.scan| && !c.bilinear && c.m == ScaledMap(rot, c.w, h, 1.0, px, py)
    requires !InCursorBox(c.cursor, c.PointOf(i))
    ensures var q := Shows(rot, c.w, h, px, py, Pt(i % c.w, i / c.w));
      c.ClassOf(i) in ANY_BAD <==> c.differs[i] && !c.root.Has(q.x, q.y, c.scan[i])
  {
    UnitNearestExact(rot, c.w, h, px, py, Pt(i % c.w, i / c.w), c.root, c.scan[i]);
  }

  /** The image the scanout is compared with, at scale 1 with the nearest filter: the root pixel
      shown, or black outside the root. */
  function ExpectedAt(c: Check, rot: Rotation, h: int, px: int, py: int, i: nat): Colour
    requires c.Valid()
  {
    var q := Shows(rot, c.w, h, px, py, Pt(i % c.w, i / c.w));
    if 0 <= q.x < c.root.w && 0 <= q.y < c.root.h then c.root.pixels[q.y][q.x] else Colour(0, 0, 0)
  }

  /** The check is sound and complete at scale 1: no pixel is bad iff every pixel off the cursor is
      the expected one. */
  lemma NoneBadIff(c: Check, rot: Rotation, h: int, px: int, py: int, bad: nat, masked: nat, vacated: nat,
                   first: seq<nat>)
    requires c.Valid() && !c.bilinear && c.m == ScaledMap(rot, c.w, h, 1.0, px, py)
    requires forall i :: 0 <= i < |c.scan| ==> (c.differs[i] <==> ExpectedAt(c, rot, h, px, py, i) != c.scan[i])
    requires Counted(c, |c.scan|, bad, masked, vacated, first)
    ensures bad == 0 <==>
        forall i :: 0 <= i < |c.scan| && !InCursorBox(c.cursor, c.PointOf(i)) ==>
            c.scan[i] == ExpectedAt(c, rot, h, px, py, i)
  {
    hide Shows, ScaledMap, SampleAt, InCursorBox, NearestOk;
    var s := c.Where(ANY_BAD, |c.scan|);
    forall i: nat | i < |c.scan| && !InCursorBox(c.cursor, c.PointOf(i))
      ensures i in s <==> c.scan[i] != ExpectedAt(c, rot, h, px, py, i)
    {
      UnitBad(c, rot, h, px, py, i);
    }
    assert forall i: nat :: i in s ==> i < |c.scan| && !InCursorBox(c.cursor, c.PointOf(i));
    assert |s| > 0 ==> s[0] in s;
  }
}
