/** Same-colour regions of an image (tools/ppm-regions.py): a work-list flood fill that reports
    the area and bounding box of every 4-connected component. */
module FloodFill {
  import opened Plane

  datatype Colour = Colour(r: int, g: int, b: int)

  /** `body` holds three bytes a pixel, row by row. */
  datatype Image = Image(body: seq<int>, width: nat, height: nat) {
    predicate Valid() {
      |body| == width * height * 3
    }

    predicate InRange(p: Pt) {
      0 <= p.x < width && 0 <= p.y < height
    }

    function Index(p: Pt): (i: nat)
      requires Valid() && InRange(p)
      ensures i + 2 < |body|
    {
      IndexBound(width, height, p);
      (p.y * width + p.x) * 3
    }

    /** `pixel`. */
    function Pixel(p: Pt): Colour
      requires Valid() && InRange(p)
    {
      var i := Index(p);
      Colour(body[i], body[i + 1], body[i + 2])
    }

    /** The pixels of one colour. */
    function Cells(colour: Colour): set<Pt>
      requires Valid()
    {
      set x, y | 0 <= x < width && 0 <= y < height && Pixel(Pt(x, y)) == colour :: Pt(x, y)
    }
  }

  lemma IndexBound(width: nat, height: nat, p: Pt)
    requires 0 <= p.x < width && 0 <= p.y < height
    ensures 0 <= (p.y * width + p.x) * 3 && (p.y * width + p.x) * 3 + 2 < width * height * 3
  {
    assert p.y * width + p.x < (p.y + 1) * width <= height * width;
  }

  /** The pixel in column x of row y has its red, green and blue at three bytes from 3 (y w + x) on. */
  lemma CellsAre(img: Image, colour: Colour, p: Pt)
    requires img.Valid()
    ensures p in img.Cells(colour) <==>
        && 0 <= p.x < img.width && 0 <= p.y < img.height
        && var at := 3 * (p.y * img.width + p.x);
           0 <= at < |img.body| - 2
           && img.body[at] == colour.r && img.body[at + 1] == colour.g && img.body[at + 2] == colour.b
  {
    if img.InRange(p) { IndexBound(img.width, img.height, p); }
  }

  // ------------------------------------------------------- connectivity

  /** Side by side: one step apart in exactly one direction. */
  predicate Adjacent(p: Pt, q: Pt) {
    var dx, dy := if p.x < q.x then q.x - p.x else p.x - q.x, if p.y < q.y then q.y - p.y else p.y - q.y;
    dx + dy == 1
  }

  /** The pixels the loop looks at: each of the adjacent ones, once. */
  function Neighbours(p: Pt): (s: seq<Pt>)
    ensures forall q :: q in s <==> Adjacent(p, q)
    ensures forall i, j :: 0 <= i < j < |s| ==> s[i] != s[j]
  {
    [Pt(p.x - 1, p.y), Pt(p.x + 1, p.y), Pt(p.x, p.y - 1), Pt(p.x, p.y + 1)]
  }

  predicate IsPath(cells: set<Pt>, path: seq<Pt>, a: Pt, b: Pt) {
    && path != [] && path[0] == a && path[|path| - 1] == b
    && (forall i :: 0 <= i < |path| ==> path[i] in cells)
    && (forall i :: 0 < i < |path| ==> Adjacent(path[i - 1], path[i]))
  }

  ghost predicate Connected(cells: set<Pt>, a: Pt, b: Pt) {
    exists path :: IsPath(cells, path, a, b)
  }

  /** The 4-connected component of `seed`. */
  ghost function Component(cells: set<Pt>, seed: Pt): set<Pt> {
    set q | q in cells && Connected(cells, seed, q)
  }

  /** No step inside `cells` leads out of `s`. */
  predicate Closed(cells: set<Pt>, s: set<Pt>) {
    forall p, q :: p in s && Adjacent(p, q) && q in cells ==> q in s
  }

  lemma Step(cells: set<Pt>, seed: Pt, p: Pt, q: Pt)
    requires Connected(cells, seed, p) && Adjacent(p, q) && q in cells
    ensures Connected(cells, seed, q)
  {
    var path :| IsPath(cells, path, seed, p);
    var longer := path + [q];
    forall i | 0 < i < |longer| ensures Adjacent(longer[i - 1], longer[i]) {
      if i < |path| { assert longer[i] == path[i] && longer[i - 1] == path[i - 1]; }
    }
    assert IsPath(cells, longer, seed, q);
  }

  lemma {:induction false} PathInside(cells: set<Pt>, s: set<Pt>, path: seq<Pt>, a: Pt, b: Pt)
    requires Closed(cells, s) && IsPath(cells, path, a, b) && a in s
    ensures b in s
    decreases |path|
  {
    if |path| > 1 {
      var shorter := path[..|path| - 1];
      forall i | 0 < i < |shorter| ensures Adjacent(shorter[i - 1], shorter[i]) {
        assert shorter[i] == path[i] && shorter[i - 1] == path[i - 1];
      }
      assert IsPath(cells, shorter, a, shorter[|shorter| - 1]);
      PathInside(cells, s, shorter, a, shorter[|shorter| - 1]);
      assert Adjacent(shorter[|shorter| - 1], b);
    }
  }

  /** A closed set of pixels connected to its seed is the seed's component. */
  lemma ClosedIsComponent(cells: set<Pt>, s: set<Pt>, seed: Pt)
    requires seed in s && s <= cells && Closed(cells, s)
    requires forall q :: q in s ==> Connected(cells, seed, q)
    ensures s == Component(cells, seed)
  {
    forall q | q in cells && Connected(cells, seed, q) ensures q in s {
      var path :| IsPath(cells, path, seed, q);
      PathInside(cells, s, path, seed, q);
    }
  }

  // ------------------------------------------------------- one component

  /** The smallest box around a set of pixels. */
  ghost predicate TightBox(s: set<Pt>, minx: int, miny: int, maxx: int, maxy: int) {
    && (forall p :: p in s ==> minx <= p.x <= maxx && miny <= p.y <= maxy)
    && (exists p :: p in s && p.x == minx) && (exists p :: p in s && p.x == maxx)
    && (exists p :: p in s && p.y == miny) && (exists p :: p in s && p.y == maxy)
  }

  lemma GrowBox(s: set<Pt>, minx: int, miny: int, maxx: int, maxy: int, p: Pt)
    requires TightBox(s, minx, miny, maxx, maxy)
    ensures TightBox(s + {p}, Min(minx, p.x), Min(miny, p.y), Max(maxx, p.x), Max(maxy, p.y))
  {
  }

  ghost function SeenSet(seen: array2<bool>): set<Pt>
    reads seen
  {
    set x, y | 0 <= y < seen.Length0 && 0 <= x < seen.Length1 && seen[y, x] :: Pt(x, y)
  }

  function Elements(s: seq<Pt>): set<Pt> { set i | 0 <= i < |s| :: s[i] }

  predicate Distinct(s: seq<Pt>) {
    forall i, j :: 0 <= i < j < |s| ==> s[i] != s[j]
  }

  /** One neighbour: if it is an unseen pixel of the colour, mark it and queue it. */
  method Visit(img: Image, colour: Colour, seen: array2<bool>, queue: seq<Pt>, n: Pt) returns (queue': seq<Pt>)
    requires img.Valid() && seen.Length0 == img.height && seen.Length1 == img.width
    modifies seen
    ensures var fresh' := n in img.Cells(colour) && n !in old(SeenSet(seen));
      && SeenSet(seen) == (if fresh' then old(SeenSet(seen)) + {n} else old(SeenSet(seen)))
      && queue' == (if fresh' then queue + [n] else queue)
  {
    queue' := queue;
    if img.InRange(n) && !seen[n.y, n.x] {
      if img.Pixel(n) == colour {
        seen[n.y, n.x] := true;
        queue' := queue + [n];
      }
    }
  }

  /** The state of a pass: `done` is popped, `queue` is waiting, `before` was seen in earlier passes. */
  ghost predicate Filling(cells: set<Pt>, seed: Pt, before: set<Pt>, done: set<Pt>, queue: seq<Pt>, seen: set<Pt>) {
    && Distinct(queue) && done !! Elements(queue)
    && seen == before + done + Elements(queue) && before !! done + Elements(queue)
    && seed in done + Elements(queue)
    && done + Elements(queue) <= cells
    && (forall q :: q in done + Elements(queue) ==> Connected(cells, seed, q))
    && (forall p, q :: p in done && q in Neighbours(p) && q in cells ==> q in seen)
  }

  lemma Enqueue(cells: set<Pt>, seed: Pt, before: set<Pt>, done: set<Pt>, queue: seq<Pt>, seen: set<Pt>, p: Pt, n: Pt)
    requires p in done && n in Neighbours(p) && n in cells && n !in seen
    requires Distinct(queue) && done !! Elements(queue) && seen == before + done + Elements(queue)
    requires before !! done + Elements(queue) && done + Elements(queue) <= cells
    requires forall q :: q in done + Elements(queue) ==> Connected(cells, seed, q)
    ensures Elements(queue + [n]) == Elements(queue) + {n} && Distinct(queue + [n])
    ensures forall q :: q in done + Elements(queue + [n]) ==> Connected(cells, seed, q)
  {
    ElementsSnoc(queue, n);
    assert forall i :: 0 <= i < |queue| ==> queue[i] in Elements(queue);
    Step(cells, seed, p, n);
  }

  lemma ElementsSnoc(s: seq<Pt>, p: Pt)
    ensures Elements(s + [p]) == Elements(s) + {p}
  {
    assert forall i :: 0 <= i < |s| ==> (s + [p])[i] == s[i];
    assert (s + [p])[|s|] == p;
  }

  lemma ElementsPop(s: seq<Pt>)
    requires s != [] && Distinct(s)
    ensures Elements(s) == {s[0]} + Elements(s[1..]) && s[0] !in Elements(s[1..]) && Distinct(s[1..])
  {
  }

  /** The four neighbours of a pixel just popped. */
  method VisitAll(img: Image, colour: Colour, seen: array2<bool>, queue: seq<Pt>, p: Pt,
                  ghost seed: Pt, ghost before: set<Pt>, ghost done: set<Pt>)
    returns (queue': seq<Pt>)
    requires img.Valid() && seen.Length0 == img.height && seen.Length1 == img.width
    requires p !in done && Filling(img.Cells(colour), seed, before, done, [p] + queue, SeenSet(seen))
    modifies seen
    ensures Filling(img.Cells(colour), seed, before, done + {p}, queue', SeenSet(seen))
  {
    hide Image.Cells, SeenSet, Filling, Expanding, Elements;
    ghost var cells := img.Cells(colour);
    ExpandStart(cells, seed, before, done, p, queue, SeenSet(seen));
    queue' := queue;
    for k := 0 to 4
      invariant Expanding(cells, seed, before, done, p, queue', SeenSet(seen), k)
    {
      ExpandStep(cells, seed, before, done, p, queue', SeenSet(seen), k);
      queue' := Visit(img, colour, seen, queue', Neighbours(p)[k]);
    }
    ExpandEnd(cells, seed, before, done, p, queue', SeenSet(seen));
  }

  /** The state between two neighbours of p: the first k of them are seen if they have the colour. */
  ghost predicate Expanding(cells: set<Pt>, seed: Pt, before: set<Pt>, done: set<Pt>, p: Pt, queue: seq<Pt>,
                            seen: set<Pt>, k: nat) {
    var done' := done + {p};
    && Distinct(queue) && done' !! Elements(queue)
    && seen == before + done' + Elements(queue) && before !! done' + Elements(queue)
    && seed in done' + Elements(queue)
    && done' + Elements(queue) <= cells
    && (forall q :: q in done' + Elements(queue) ==> Connected(cells, seed, q))
    && (forall r, q :: r in done && q in Neighbours(r) && q in cells ==> q in seen)
    && (forall i :: 0 <= i < k <= 4 && Neighbours(p)[i] in cells ==> Neighbours(p)[i] in seen)
  }

  lemma ExpandStart(cells: set<Pt>, seed: Pt, before: set<Pt>, done: set<Pt>, p: Pt, queue: seq<Pt>, seen: set<Pt>)
    requires p !in done && Filling(cells, seed, before, done, [p] + queue, seen)
    ensures Expanding(cells, seed, before, done, p, queue, seen, 0)
  {
    hide Connected, Elements;
    ElementsPop([p] + queue);
    assert ([p] + queue)[1..] == queue;
    assert done + Elements([p] + queue) == done + {p} + Elements(queue);
  }

  lemma ExpandStep(cells: set<Pt>, seed: Pt, before: set<Pt>, done: set<Pt>, p: Pt, queue: seq<Pt>,
                   seen: set<Pt>, k: nat)
    requires k < 4 && Expanding(cells, seed, before, done, p, queue, seen, k)
    ensures var n := Neighbours(p)[k];
      if n in cells && n !in seen then Expanding(cells, seed, before, done, p, queue + [n], seen + {n}, k + 1)
      else Expanding(cells, seed, before, done, p, queue, seen, k + 1)
  {
    hide Connected, Elements, Distinct;
    var n := Neighbours(p)[k];
    if n in cells && n !in seen {
      Enqueue(cells, seed, before, done + {p}, queue, seen, p, n);
      assert done + {p} + Elements(queue + [n]) == done + {p} + Elements(queue) + {n};
    }
  }

  lemma ExpandEnd(cells: set<Pt>, seed: Pt, before: set<Pt>, done: set<Pt>, p: Pt, queue: seq<Pt>, seen: set<Pt>)
    requires Expanding(cells, seed, before, done, p, queue, seen, 4)
    ensures Filling(cells, seed, before, done + {p}, queue, seen)
  {
  }

  /** One pass from an unseen seed: collects exactly the seed's component. */
  method Fill(img: Image, colour: Colour, seen: array2<bool>, seed: Pt)
    returns (area: nat, minx: int, miny: int, maxx: int, maxy: int)
    requires img.Valid() && seen.Length0 == img.height && seen.Length1 == img.width
    requires seed in img.Cells(colour) && seed !in SeenSet(seen)
    requires SeenSet(seen) <= img.Cells(colour) && Closed(img.Cells(colour), SeenSet(seen))
    modifies seen
    ensures var c := Component(img.Cells(colour), seed);
      && SeenSet(seen) == old(SeenSet(seen)) + c && old(SeenSet(seen)) !! c
      && area == |c| && TightBox(c, minx, miny, maxx, maxy)
    ensures SeenSet(seen) <= img.Cells(colour) && Closed(img.Cells(colour), SeenSet(seen))
  {
    hide Filling, Component, TightBox, Closed, Elements, Distinct, SeenSet, Image.Cells, Measured, Min, Max;
    ghost var cells, before, done: set<Pt> := img.Cells(colour), SeenSet(seen), {};
    var queue := [seed];
    MarkSeed(img, colour, seen, seed);
    minx, maxx, miny, maxy, area := seed.x, seed.x, seed.y, seed.y, 0;
    FillStart(cells, seed, before);
    while queue != []
      invariant Filling(cells, seed, before, done, queue, SeenSet(seen))
      invariant Measured(done, seed, area, minx, miny, maxx, maxy)
      decreases |cells - done|
    {
      var p := queue[0];
      FillPop(cells, seed, before, done, queue, SeenSet(seen));
      Measure(cells, done, seed, area, minx, miny, maxx, maxy, p);
      area := area + 1;
      minx, maxx := Min(minx, p.x), Max(maxx, p.x);
      miny, maxy := Min(miny, p.y), Max(maxy, p.y);
      assert [p] + queue[1..] == queue;
      queue := VisitAll(img, colour, seen, queue[1..], p, seed, before, done);
      done := done + {p};
    }
    FillDone(cells, seed, before, done, SeenSet(seen));
    MeasuredAll(done, seed, area, minx, miny, maxx, maxy);
  }

  /** The running area and box are those of the pixels popped, the seed always in the box. */
  ghost predicate Measured(done: set<Pt>, seed: Pt, area: int, minx: int, miny: int, maxx: int, maxy: int) {
    area == |done| && TightBox(done + {seed}, minx, miny, maxx, maxy)
  }

  lemma Measure(cells: set<Pt>, done: set<Pt>, seed: Pt, area: int, minx: int, miny: int, maxx: int, maxy: int, p: Pt)
    requires Measured(done, seed, area, minx, miny, maxx, maxy) && p !in done && p in cells
    ensures Measured(done + {p}, seed, area + 1, Min(minx, p.x), Min(miny, p.y), Max(maxx, p.x), Max(maxy, p.y))
    ensures |cells - (done + {p})| < |cells - done|
  {
    hide TightBox, Min, Max;
    GrowBox(done + {seed}, minx, miny, maxx, maxy, p);
    assert done + {seed} + {p} == done + {p} + {seed};
    assert cells - (done + {p}) == cells - done - {p};
  }

  lemma MeasuredAll(done: set<Pt>, seed: Pt, area: int, minx: int, miny: int, maxx: int, maxy: int)
    requires Measured(done, seed, area, minx, miny, maxx, maxy) && seed in done
    ensures area == |done| && TightBox(done, minx, miny, maxx, maxy)
  {
  }

  method MarkSeed(img: Image, ghost colour: Colour, seen: array2<bool>, seed: Pt)
    requires img.Valid() && seen.Length0 == img.height && seen.Length1 == img.width && seed in img.Cells(colour)
    modifies seen
    ensures SeenSet(seen) == old(SeenSet(seen)) + {seed}
  {
    seen[seed.y, seed.x] := true;
  }

  lemma FillStart(cells: set<Pt>, seed: Pt, before: set<Pt>)
    requires seed in cells && seed !in before
    ensures Filling(cells, seed, before, {}, [seed], before + {seed})
    ensures Measured({}, seed, 0, seed.x, seed.y, seed.x, seed.y)
  {
    assert IsPath(cells, [seed], seed, seed);
    assert Elements([seed]) == {seed};
    assert seed in {} + {seed};
  }

  lemma FillPop(cells: set<Pt>, seed: Pt, before: set<Pt>, done: set<Pt>, queue: seq<Pt>, seen: set<Pt>)
    requires Filling(cells, seed, before, done, queue, seen) && queue != []
    ensures queue[0] in cells && queue[0] !in done
  {
  }

  lemma FillDone(cells: set<Pt>, seed: Pt, before: set<Pt>, done: set<Pt>, seen: set<Pt>)
    requires Filling(cells, seed, before, done, [], seen) && Closed(cells, before) && before <= cells
    ensures done == Component(cells, seed) && seed in done && seen == before + done && before !! done
    ensures seen <= cells && Closed(cells, seen)
  {
    assert Elements([]) == {};
    forall p, q | p in done && q in Neighbours(p) && q in cells ensures q in done {
      Symmetric(p, q);
    }
    ClosedIsComponent(cells, done, seed);
  }

  lemma Symmetric(p: Pt, q: Pt)
    requires q in Neighbours(p)
    ensures p in Neighbours(q)
  {
  }

  // ------------------------------------------------------- the whole image

  /** Area, then left, top, width and height of the bounding box. */
  datatype Report = Report(area: int, x: int, y: int, w: int, h: int)

  ghost predicate IsReport(c: set<Pt>, r: Report) {
    r.area == |c| && TightBox(c, r.x, r.y, r.x + r.w - 1, r.y + r.h - 1)
  }

  ghost function Union(comps: seq<set<Pt>>): set<Pt> {
    if comps == [] then {} else Union(comps[..|comps| - 1]) + comps[|comps| - 1]
  }

  ghost predicate IsComponent(cells: set<Pt>, c: set<Pt>) {
    exists seed :: seed in c && c == Component(cells, seed)
  }

  /** Every set is the component of one of its pixels, and no two share a pixel. */
  ghost predicate Components(cells: set<Pt>, comps: seq<set<Pt>>) {
    && (forall k :: 0 <= k < |comps| ==> IsComponent(cells, comps[k]))
    && (forall j, k :: 0 <= j < k < |comps| ==> comps[j] !! comps[k])
  }

  /** The components large enough to report, in order. */
  ghost function Large(comps: seq<set<Pt>>, minArea: int): seq<set<Pt>> {
    if comps == [] then []
    else Large(comps[..|comps| - 1], minArea) + (if |comps[|comps| - 1]| >= minArea then [comps[|comps| - 1]] else [])
  }

  /** These are the components with at least `minArea` pixels: `at` says which. */
  lemma {:induction false} LargeAre(comps: seq<set<Pt>>, minArea: int) returns (at: seq<nat>)
    ensures |at| == |Large(comps, minArea)|
    ensures forall k :: 0 <= k < |at| ==> at[k] < |comps| && Large(comps, minArea)[k] == comps[at[k]]
    ensures forall k, h :: 0 <= k < h < |at| ==> at[k] < at[h]
    ensures forall i :: 0 <= i < |comps| ==> (i in at <==> minArea <= |comps[i]|)
  {
    at := KeptTo(comps, minArea, |comps|);
    assert comps[..|comps|] == comps;
  }

  /** The places of the kept components among the first n. */
  ghost predicate KeptAt(comps: seq<set<Pt>>, minArea: int, n: nat, kept: seq<set<Pt>>, at: seq<nat>) {
    && n <= |comps| && |at| == |kept|
    && (forall k :: 0 <= k < |at| ==> at[k] < n && kept[k] == comps[at[k]])
    && (forall k, h :: 0 <= k < h < |at| ==> at[k] < at[h])
    && (forall i :: 0 <= i < n ==> (i in at <==> minArea <= |comps[i]|))
  }

  lemma {:induction false} KeptTo(comps: seq<set<Pt>>, minArea: int, n: nat) returns (at: seq<nat>)
    requires n <= |comps|
    ensures KeptAt(comps, minArea, n, Large(comps[..n], minArea), at)
  {
    hide KeptAt;
    if n == 0 {
      at := [];
      NoneKept(comps, minArea);
    } else {
      at := KeptTo(comps, minArea, n - 1);
      assert comps[..n][..n - 1] == comps[..n - 1];
      ghost var kept := Large(comps[..n - 1], minArea);
      KeptNext(comps, minArea, n - 1, kept, at);
      assert kept + [] == kept;
      if minArea <= |comps[n - 1]| { at := at + [n - 1]; }
    }
  }

  lemma NoneKept(comps: seq<set<Pt>>, minArea: int)
    ensures KeptAt(comps, minArea, 0, [], [])
  {
  }

  lemma KeptNext(comps: seq<set<Pt>>, minArea: int, n: nat, kept: seq<set<Pt>>, at: seq<nat>)
    requires n < |comps| && KeptAt(comps, minArea, n, kept, at)
    ensures minArea <= |comps[n]| ==> KeptAt(comps, minArea, n + 1, kept + [comps[n]], at + [n])
    ensures minArea > |comps[n]| ==> KeptAt(comps, minArea, n + 1, kept, at)
  {
  }

  ghost predicate Reports(comps: seq<set<Pt>>, found: seq<Report>) {
    |found| == |comps| && forall k :: 0 <= k < |found| ==> IsReport(comps[k], found[k])
  }

  lemma AddComponent(cells: set<Pt>, comps: seq<set<Pt>>, seed: Pt)
    requires Components(cells, comps) && Union(comps) !! Component(cells, seed) && seed in Component(cells, seed)
    ensures Components(cells, comps + [Component(cells, seed)])
    ensures Union(comps + [Component(cells, seed)]) == Union(comps) + Component(cells, seed)
  {
    hide Component, IsComponent;
    var c := Component(cells, seed);
    var more := comps + [c];
    assert more[..|comps|] == comps;
    assert IsComponent(cells, c) by { Witnessed(cells, seed); }
    forall j, k | 0 <= j < k < |more| ensures more[j] !! more[k] {
      if k == |comps| { InUnion(comps, j); }
    }
  }

  lemma Witnessed(cells: set<Pt>, seed: Pt)
    requires seed in Component(cells, seed)
    ensures IsComponent(cells, Component(cells, seed))
  {
  }

  lemma {:induction false} InUnion(comps: seq<set<Pt>>, j: nat)
    requires j < |comps|
    ensures comps[j] <= Union(comps)
  {
    if j < |comps| - 1 {
      assert comps[..|comps| - 1][j] == comps[j];
      InUnion(comps[..|comps| - 1], j);
    }
  }

  /** Descending, as tuples compare. */
  predicate NotBelow(a: Report, b: Report) {
    a.area > b.area || (a.area == b.area &&
      (a.x > b.x || (a.x == b.x &&
        (a.y > b.y || (a.y == b.y &&
          (a.w > b.w || (a.w == b.w && a.h >= b.h)))))))
  }

  function Tuple(r: Report): seq<int> { [r.area, r.x, r.y, r.w, r.h] }

  /** The order of tuples: the first place where they differ decides. */
  lemma NotBelowIff(a: Report, b: Report)
    ensures NotBelow(a, b) <==>
        a == b || exists d :: 0 <= d < 5 && Tuple(a)[..d] == Tuple(b)[..d] && Tuple(a)[d] > Tuple(b)[d]
  {
    var s, t := Tuple(a), Tuple(b);
    if NotBelow(a, b) && a != b {
      var d := if a.area != b.area then 0 else if a.x != b.x then 1 else if a.y != b.y then 2 else if a.w != b.w then 3
        else 4;
      assert s[..d] == t[..d] && s[d] > t[d];
    }
    if d :| 0 <= d < 5 && s[..d] == t[..d] && s[d] > t[d] {
      forall i | 0 <= i < d ensures s[i] == t[i] { assert s[i] == s[..d][i] == t[..d][i] == t[i]; }
      assert a.area == s[0] && a.x == s[1] && a.y == s[2] && a.w == s[3] && a.h == s[4];
      assert b.area == t[0] && b.x == t[1] && b.y == t[2] && b.w == t[3] && b.h == t[4];
      assert d == 0 || d == 1 || d == 2 || d == 3 || d == 4;
    }
  }

  predicate Descending(s: seq<Report>) {
    forall i, j :: 0 <= i < j < |s| ==> NotBelow(s[i], s[j])
  }

  function Insert(r: Report, s: seq<Report>): (t: seq<Report>)
    ensures multiset(t) == multiset(s) + multiset{r}
  {
    if s == [] || NotBelow(r, s[0]) then [r] + s
    else
      assert s == [s[0]] + s[1..];
      [s[0]] + Insert(r, s[1..])
  }

  lemma {:induction false} InsertDescending(r: Report, s: seq<Report>)
    requires Descending(s)
    ensures Descending(Insert(r, s))
  {
    hide NotBelow;
    var t := Insert(r, s);
    if s == [] || NotBelow(r, s[0]) {
      forall j | 0 < j < |t| ensures NotBelow(t[0], t[j]) {
        if j > 1 { Ordering(r, s[0], s[j - 1]); }
      }
    } else {
      var rest := Insert(r, s[1..]);
      InsertDescending(r, s[1..]);
      forall j | 0 <= j < |rest| ensures NotBelow(s[0], rest[j]) {
        assert rest[j] in multiset(rest);
        Ordering(r, s[0], r);
      }
    }
  }

  lemma Ordering(a: Report, b: Report, c: Report)
    ensures NotBelow(a, b) && NotBelow(b, c) ==> NotBelow(a, c)
    ensures NotBelow(a, b) || NotBelow(b, a)
  {
  }

  function SortDescending(s: seq<Report>): (t: seq<Report>)
    ensures Descending(t) && multiset(t) == multiset(s)
  {
    if s == [] then []
    else
      assert s == [s[0]] + s[1..];
      InsertDescending(s[0], SortDescending(s[1..]));
      Insert(s[0], SortDescending(s[1..]))
  }

  /** Every pixel of the colour before (x0, y0) in reading order is seen. */
  ghost predicate Scanned(cells: set<Pt>, seen: set<Pt>, x0: int, y0: int) {
    forall p :: p in cells && (p.y < y0 || (p.y == y0 && p.x < x0)) ==> p in seen
  }

  /** The scan so far: the components found are disjoint components, they are what has been
      seen, and the reports are theirs. */
  ghost predicate Scanning(cells: set<Pt>, seen: set<Pt>, comps: seq<set<Pt>>, minArea: int, found: seq<Report>) {
    && Components(cells, comps) && Union(comps) == seen && seen <= cells && Closed(cells, seen)
    && Reports(Large(comps, minArea), found)
  }

  /** One pixel of the scan: a pass starts here if the pixel has the colour and is not seen. */
  method ScanPixel(img: Image, colour: Colour, minArea: int, seen: array2<bool>, p: Pt, found: seq<Report>,
                   ghost comps: seq<set<Pt>>)
    returns (found': seq<Report>, ghost comps': seq<set<Pt>>)
    requires img.Valid() && seen.Length0 == img.height && seen.Length1 == img.width && img.InRange(p)
    requires Scanning(img.Cells(colour), SeenSet(seen), comps, minArea, found)
    modifies seen
    ensures Scanning(img.Cells(colour), SeenSet(seen), comps', minArea, found')
    ensures old(SeenSet(seen)) <= SeenSet(seen)
    ensures p in img.Cells(colour) ==> p in SeenSet(seen)
  {
    hide Components, Union, Reports, Component, TightBox, Closed, Large;
    ghost var cells := img.Cells(colour);
    found', comps' := found, comps;
    if seen[p.y, p.x] || img.Pixel(p) != colour {
      return;
    }
    var area, minx, miny, maxx, maxy := Fill(img, colour, seen, p);
    SelfConnected(cells, p);
    AddComponent(cells, comps, p);
    comps' := comps + [Component(cells, p)];
    AddReport(comps, Component(cells, p), minArea, found, Report(area, minx, miny, maxx - minx + 1, maxy - miny + 1));
    if area >= minArea {
      found' := found + [Report(area, minx, miny, maxx - minx + 1, maxy - miny + 1)];
    }
  }

  lemma SelfConnected(cells: set<Pt>, p: Pt)
    requires p in cells
    ensures p in Component(cells, p)
  {
    assert IsPath(cells, [p], p, p);
  }

  lemma AddReport(comps: seq<set<Pt>>, c: set<Pt>, minArea: int, found: seq<Report>, r: Report)
    requires Reports(Large(comps, minArea), found) && r.area == |c|
        && TightBox(c, r.x, r.y, r.x + r.w - 1, r.y + r.h - 1)
    ensures Reports(Large(comps + [c], minArea), if r.area >= minArea then found + [r] else found)
  {
    assert (comps + [c])[..|comps|] == comps;
  }

  /** `regions`: the components of the colour partition its pixels; those with at least `minArea`
      pixels are reported, each with its exact area and tight box, largest first. */
  method Regions(img: Image, colour: Colour, minArea: int)
    returns (found: seq<Report>, ghost comps: seq<set<Pt>>, ghost reports: seq<Report>)
    requires img.Valid()
    ensures Components(img.Cells(colour), comps) && Union(comps) == img.Cells(colour)
    ensures Reports(Large(comps, minArea), reports)
    ensures Descending(found) && multiset(found) == multiset(reports)
  {
    hide Scanning, SortDescending;
    var seen := new bool[img.height, img.width]((_, _) => false);
    ghost var cells := img.Cells(colour);
    found, comps := [], [];
    assert SeenSet(seen) == {};
    ScanStart(cells, minArea);
    for y0 := 0 to img.height
      invariant Scanning(cells, SeenSet(seen), comps, minArea, found)
      invariant Scanned(cells, SeenSet(seen), 0, y0)
    {
      for x0 := 0 to img.width
        invariant Scanning(cells, SeenSet(seen), comps, minArea, found)
        invariant Scanned(cells, SeenSet(seen), x0, y0)
      {
        found, comps := ScanPixel(img, colour, minArea, seen, Pt(x0, y0), found, comps);
      }
    }
    ScanEnd(cells, SeenSet(seen), comps, minArea, found, img.height);
    reports := found;
    found := SortDescending(found);
  }

  lemma ScanStart(cells: set<Pt>, minArea: int)
    ensures Scanning(cells, {}, [], minArea, [])
  {
  }

  lemma ScanEnd(cells: set<Pt>, seen: set<Pt>, comps: seq<set<Pt>>, minArea: int, found: seq<Report>, height: int)
    requires Scanning(cells, seen, comps, minArea, found) && Scanned(cells, seen, 0, height)
    requires forall p :: p in cells ==> p.y < height
    ensures Components(cells, comps) && Union(comps) == cells && Reports(Large(comps, minArea), found)
  {
  }
}
