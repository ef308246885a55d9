/** The colour histogram of a window less a hole (tools/vng-scenarios/bg-gc-probe.c). */
module Histogram {

  const BINS: nat := 16

  datatype Bin = Bin(px: nat, n: nat)

  datatype Rect = Rect(x: int, y: int, width: int, height: int)

  predicate InHole(hole: Rect, x: int, y: int) {
    hole.width != 0 && hole.x <= x < hole.x + hole.width && hole.y <= y < hole.y + hole.height
  }

  function Colour(v: nat): nat { v % 0x100_0000 }

  /** The colours outside the hole: of the first n pixels of row y, and of the first n rows. */
  function RowColours(row: seq<nat>, y: int, hole: Rect, n: nat): seq<nat>
    requires n <= |row|
  {
    if n == 0 then []
    else RowColours(row, y, hole, n - 1) + (if InHole(hole, n - 1, y) then [] else [Colour(row[n - 1])])
  }

  function Colours(rows: seq<seq<nat>>, hole: Rect, n: nat): seq<nat>
    requires n <= |rows|
  {
    if n == 0 then [] else Colours(rows, hole, n - 1) + RowColours(rows[n - 1], n - 1, hole, |rows[n - 1]|)
  }

  /** The colours counted, without the functions above: the pixels outside the hole, a hole without
      width being none, by rows from the top and each from the left, each without its top byte. */
  lemma ColoursAre(rows: seq<seq<nat>>, hole: Rect) returns (at: seq<(nat, nat)>)
    ensures var seen := Colours(rows, hole, |rows|);
      && |at| == |seen|
      && (forall x: nat, y: nat :: (y, x) in at <==>
            && y < |rows| && x < |rows[y]|
            && !(hole.width != 0 && hole.x <= x < hole.x + hole.width && hole.y <= y < hole.y + hole.height))
      && (forall i :: 0 <= i < |at| ==>
            at[i].0 < |rows| && at[i].1 < |rows[at[i].0]| && seen[i] == rows[at[i].0][at[i].1] % 0x1000000)
      && (forall i, j :: 0 <= i < j < |at| ==> at[i].0 < at[j].0 || (at[i].0 == at[j].0 && at[i].1 < at[j].1))
  {
    hide Colours;
    at := ColoursTo(rows, hole, |rows|);
  }

  /** Colour i was counted at place `at[i]`, of the rows below n; the places are all those outside the
      hole, by rows. */
  ghost predicate Places(rows: seq<seq<nat>>, hole: Rect, n: nat, at: seq<(nat, nat)>, seen: seq<nat>) {
    && |at| == |seen|
    && (forall x: nat, y: nat :: (y, x) in at <==> y < n <= |rows| && x < |rows[y]| && !InHole(hole, x, y))
    && (forall i :: 0 <= i < |at| ==>
          at[i].0 < n <= |rows| && at[i].1 < |rows[at[i].0]| && seen[i] == Colour(rows[at[i].0][at[i].1]))
    && (forall i, j :: 0 <= i < j < |at| ==> Earlier(at[i], at[j]))
  }

  ghost predicate Earlier(a: (nat, nat), b: (nat, nat)) { a.0 < b.0 || (a.0 == b.0 && a.1 < b.1) }

  ghost predicate RowPlaces(row: seq<nat>, y: nat, hole: Rect, n: nat, at: seq<(nat, nat)>, seen: seq<nat>) {
    && |at| == |seen|
    && (forall x: nat, y': nat :: (y', x) in at <==> y' == y && x < n <= |row| && !InHole(hole, x, y))
    && (forall i :: 0 <= i < |at| ==> at[i].0 == y && at[i].1 < n <= |row| && seen[i] == Colour(row[at[i].1]))
    && (forall i, j :: 0 <= i < j < |at| ==> Earlier(at[i], at[j]))
  }

  lemma {:induction false} RowColoursTo(row: seq<nat>, y: nat, hole: Rect, n: nat) returns (at: seq<(nat, nat)>)
    requires n <= |row|
    ensures RowPlaces(row, y, hole, n, at, RowColours(row, y, hole, n))
  {
    hide InHole, Colour, RowPlaces;
    at := [];
    if n == 0 {
      NoPlaces([], hole, row, y);
    } else {
      at := RowColoursTo(row, y, hole, n - 1);
      ghost var seen := RowColours(row, y, hole, n - 1);
      PlaceNext(row, y, hole, n - 1, at, seen);
      assert seen + [] == seen;
      if !InHole(hole, n - 1, y) { at := at + [(y, n - 1)]; }
    }
  }

  lemma PlaceNext(row: seq<nat>, y: nat, hole: Rect, n: nat, at: seq<(nat, nat)>, seen: seq<nat>)
    requires n < |row| && RowPlaces(row, y, hole, n, at, seen)
    ensures !InHole(hole, n, y) ==> RowPlaces(row, y, hole, n + 1, at + [(y, n)], seen + [Colour(row[n])])
    ensures InHole(hole, n, y) ==> RowPlaces(row, y, hole, n + 1, at, seen)
  {
    hide InHole, Colour;
  }

  lemma NoPlaces(rows: seq<seq<nat>>, hole: Rect, row: seq<nat>, y: nat)
    ensures Places(rows, hole, 0, [], []) && RowPlaces(row, y, hole, 0, [], [])
  {
  }

  lemma {:induction false} ColoursTo(rows: seq<seq<nat>>, hole: Rect, n: nat) returns (at: seq<(nat, nat)>)
    requires n <= |rows|
    ensures Places(rows, hole, n, at, Colours(rows, hole, n))
  {
    hide Places, RowPlaces, RowColours;
    at := [];
    if n == 0 {
      NoPlaces(rows, hole, [], 0);
    } else {
      var up := ColoursTo(rows, hole, n - 1);
      var row := RowColoursTo(rows[n - 1], n - 1, hole, |rows[n - 1]|);
      at := up + row;
      RowAdded(rows, hole, n - 1, up, Colours(rows, hole, n - 1), row,
               RowColours(rows[n - 1], n - 1, hole, |rows[n - 1]|));
    }
  }

  lemma RowAdded(rows: seq<seq<nat>>, hole: Rect, n: nat, up: seq<(nat, nat)>, seen: seq<nat>, row: seq<(nat, nat)>,
                 more: seq<nat>)
    requires n < |rows| && Places(rows, hole, n, up, seen) && RowPlaces(rows[n], n, hole, |rows[n]|, row, more)
    ensures Places(rows, hole, n + 1, up + row, seen + more)
  {
    hide InHole, Colour;
  }

  function Total(bins: seq<Bin>): nat {
    if bins == [] then 0 else Total(bins[..|bins| - 1]) + bins[|bins| - 1].n
  }

  predicate Distinct(bins: seq<Bin>) {
    forall i, j :: 0 <= i < j < |bins| ==> bins[i].px != bins[j].px
  }

  predicate HasBin(bins: seq<Bin>, px: nat) {
    exists i :: 0 <= i < |bins| && bins[i].px == px
  }

  /** The colours seen, each once, in the order of first sight. */
  function FirstSeen(seen: seq<nat>): (s: seq<nat>)
    ensures forall c :: c in s <==> c in seen
  {
    if seen == [] then []
    else
      var n := |seen| - 1;
      assert seen == seen[..n] + [seen[n]];
      var rest := FirstSeen(seen[..n]);
      if seen[n] in rest then rest else rest + [seen[n]]
  }

  /** The bins are those of the first colours seen, as many as there are bins. */
  ghost predicate InOrder(bins: seq<Bin>, seen: seq<nat>) {
    var first := FirstSeen(seen);
    |bins| == (if |first| < BINS then |first| else BINS) && forall i :: 0 <= i < |bins| ==> bins[i].px == first[i]
  }

  lemma FirstSeenSnoc(seen: seq<nat>, c: nat)
    ensures FirstSeen(seen + [c]) == if c in FirstSeen(seen) then FirstSeen(seen) else FirstSeen(seen) + [c]
  {
    assert (seen + [c])[..|seen|] == seen;
  }

  /** The bins hold the exact multiplicity of their colours, in the order of first sight; what does
      not fit is in `other`, and nothing is there unless all the bins are taken. */
  ghost predicate Counted(bins: seq<Bin>, other: nat, seen: seq<nat>) {
    && |bins| <= BINS && Distinct(bins) && InOrder(bins, seen)
    && (forall i :: 0 <= i < |bins| ==> bins[i].n > 0 && bins[i].n == multiset(seen)[bins[i].px])
    && Total(bins) + other == |seen|
    && (forall c :: c in seen && !HasBin(bins, c) ==> |bins| == BINS)
    && (other > 0 <==> exists c :: c in seen && !HasBin(bins, c))
  }

  lemma MultisetSnoc(s: seq<nat>, c: nat)
    ensures multiset(s + [c]) == multiset(s) + multiset{c}
    ensures forall d :: d in s + [c] <==> d in s || d == c
  {
  }

  lemma {:induction false} TotalUpdate(bins: seq<Bin>, i: nat)
    requires i < |bins|
    ensures Total(bins[i := Bin(bins[i].px, bins[i].n + 1)]) == Total(bins) + 1
    decreases |bins|
  {
    var more := bins[i := Bin(bins[i].px, bins[i].n + 1)];
    if i < |bins| - 1 {
      assert more[..|bins| - 1] == bins[..|bins| - 1][i := Bin(bins[i].px, bins[i].n + 1)];
      TotalUpdate(bins[..|bins| - 1], i);
    } else {
      assert more[..|bins| - 1] == bins[..|bins| - 1];
    }
  }

  /** One pixel: find its bin, or open one while there is room. */
  method Add(bins: seq<Bin>, other: nat, c: nat, ghost seen: seq<nat>) returns (bins': seq<Bin>, other': nat)
    requires Counted(bins, other, seen)
    ensures Counted(bins', other', seen + [c])
  {
    MultisetSnoc(seen, c);
    bins', other' := bins, other;
    var i := 0;
    while i < |bins| && bins[i].px != c
      invariant 0 <= i <= |bins| && forall k :: 0 <= k < i ==> bins[k].px != c
    {
      i := i + 1;
    }
    if i == |bins| {
      if |bins| == BINS {
        OtherGrows(bins, other, c, seen);
        return bins, other + 1;
      }
      NewBin(bins, other, c, seen);
      bins' := bins + [Bin(c, 1)];
    } else {
      OldBin(bins, other, c, seen, i);
      bins' := bins[i := Bin(bins[i].px, bins[i].n + 1)];
    }
  }

  lemma OtherGrows(bins: seq<Bin>, other: nat, c: nat, seen: seq<nat>)
    requires Counted(bins, other, seen) && |bins| == BINS && !HasBin(bins, c)
    ensures Counted(bins, other + 1, seen + [c])
  {
    MultisetSnoc(seen, c);
    FirstSeenSnoc(seen, c);
  }

  lemma NewBin(bins: seq<Bin>, other: nat, c: nat, seen: seq<nat>)
    requires Counted(bins, other, seen) && |bins| < BINS && !HasBin(bins, c)
    ensures Counted(bins + [Bin(c, 1)], other, seen + [c])
  {
    var more := bins + [Bin(c, 1)];
    assert c !in seen && forall d :: d in seen ==> HasBin(bins, d);
    assert Distinct(more);
    NewOrder(bins, c, seen);
    AllBinned(bins, c, seen);
    hide FirstSeen, InOrder;
    NewCounts(bins, c, seen);
    assert more[..|bins|] == bins && more[|bins|] == Bin(c, 1);
  }

  lemma NewCounts(bins: seq<Bin>, c: nat, seen: seq<nat>)
    requires c !in seen && !HasBin(bins, c)
    requires forall i :: 0 <= i < |bins| ==> bins[i].n > 0 && bins[i].n == multiset(seen)[bins[i].px]
    ensures var more := bins + [Bin(c, 1)];
      forall i :: 0 <= i < |more| ==> more[i].n > 0 && more[i].n == multiset(seen + [c])[more[i].px]
  {
    MultisetSnoc(seen, c);
    assert multiset(seen)[c] == 0;
  }

  lemma NewOrder(bins: seq<Bin>, c: nat, seen: seq<nat>)
    requires InOrder(bins, seen) && |bins| < BINS && c !in seen
    ensures InOrder(bins + [Bin(c, 1)], seen + [c])
  {
    FirstSeenSnoc(seen, c);
    hide FirstSeen;
    var first := FirstSeen(seen);
    assert |first| == |bins|;
  }

  lemma AllBinned(bins: seq<Bin>, c: nat, seen: seq<nat>)
    requires forall d :: d in seen ==> HasBin(bins, d)
    ensures forall d :: d in seen + [c] ==> HasBin(bins + [Bin(c, 1)], d)
  {
    var more := bins + [Bin(c, 1)];
    forall d | d in seen + [c] ensures HasBin(more, d) {
      if d in seen {
        var i :| 0 <= i < |bins| && bins[i].px == d;
        assert more[i].px == d;
      } else {
        assert more[|bins|].px == c == d;
      }
    }
  }

  lemma OrderKept(bins: seq<Bin>, more: seq<Bin>, seen: seq<nat>, c: nat)
    requires InOrder(bins, seen) && |more| == |bins| && c in seen && forall i :: 0 <= i < |bins| ==>
        more[i].px == bins[i].px
    ensures InOrder(more, seen + [c])
  {
    FirstSeenSnoc(seen, c);
  }

  lemma OldBin(bins: seq<Bin>, other: nat, c: nat, seen: seq<nat>, i: nat)
    requires Counted(bins, other, seen) && i < |bins| && bins[i].px == c
    ensures Counted(bins[i := Bin(c, bins[i].n + 1)], other, seen + [c])
  {
    var more := bins[i := Bin(c, bins[i].n + 1)];
    assert c in seen;
    OrderKept(bins, more, seen, c);
    hide InOrder;
    MultisetSnoc(seen, c);
    TotalUpdate(bins, i);
    forall d ensures HasBin(more, d) <==> HasBin(bins, d) {
      if HasBin(bins, d) {
        var k :| 0 <= k < |bins| && bins[k].px == d;
        assert more[k].px == d;
      }
      if HasBin(more, d) {
        var k :| 0 <= k < |more| && more[k].px == d;
        assert bins[k].px == d;
      }
    }
    if other > 0 {
      var d :| d in seen && !HasBin(bins, d);
      assert d in seen + [c];
    }
  }

  // ------------------------------------------------------- sorting

  /** `by_count`: more pixels first, then the smaller colour. */
  predicate Before(a: Bin, b: Bin) {
    a.n > b.n || (a.n == b.n && a.px < b.px)
  }

  predicate Sorted(s: seq<Bin>) {
    forall i, j :: 0 <= i < j < |s| ==> Before(s[i], s[j])
  }

  function Insert(b: Bin, s: seq<Bin>): (t: seq<Bin>)
    ensures multiset(t) == multiset(s) + multiset{b}
  {
    if s == [] || Before(b, s[0]) then [b] + s
    else
      assert s == [s[0]] + s[1..];
      [s[0]] + Insert(b, s[1..])
  }

  lemma {:induction false} InsertSorted(b: Bin, s: seq<Bin>)
    requires Sorted(s) && !HasBin(s, b.px)
    ensures Sorted(Insert(b, s))
  {
    if s != [] && !Before(b, s[0]) {
      var rest := s[1..];
      assert forall k :: 0 <= k < |rest| ==> rest[k] == s[k + 1] && Before(s[0], rest[k]);
      InsertSorted(b, rest);
      var t := Insert(b, rest);
      assert s[0].px != b.px && Before(s[0], b);
      forall k | 0 <= k < |t| ensures Before(s[0], t[k]) {
        assert t[k] in multiset(t);
        assert t[k] in rest || t[k] == b;
      }
    }
  }

  lemma SameMembers(s: seq<Bin>, t: seq<Bin>)
    requires multiset(s) == multiset(t)
    ensures forall b :: b in s <==> b in t
    ensures |s| == |t|
  {
    forall b ensures b in s <==> b in t {
      assert b in multiset(s) <==> b in multiset(t);
    }
    assert |multiset(s)| == |s| && |multiset(t)| == |t|;
  }

  function Sort(s: seq<Bin>): (t: seq<Bin>)
    requires Distinct(s)
    ensures Sorted(t) && multiset(t) == multiset(s)
  {
    if s == [] then []
    else
      assert s == [s[0]] + s[1..];
      var t := Sort(s[1..]);
      SameMembers(t, s[1..]);
      assert forall k :: 0 <= k < |t| ==> t[k] in t;
      InsertSorted(s[0], t);
      Insert(s[0], t)
  }

  /** A set of bins has one sorted order. */
  lemma {:induction false} SortedUnique(s: seq<Bin>, t: seq<Bin>)
    requires Sorted(s) && Sorted(t) && forall b :: b in s <==> b in t
    ensures s == t
    decreases |s|
  {
    FirstIn(s);
    FirstIn(t);
    if s != [] && t != [] {
      assert s[0] == t[0];
      forall b ensures b in s[1..] <==> b in t[1..] {
        TailMembers(s, b);
        TailMembers(t, b);
      }
      SortedUnique(s[1..], t[1..]);
      assert s == [s[0]] + s[1..] && t == [t[0]] + t[1..];
    }
  }

  lemma FirstIn(s: seq<Bin>)
    ensures s != [] ==> s[0] in s
  {
  }

  lemma TailMembers(s: seq<Bin>, b: Bin)
    requires s != [] && Sorted(s)
    ensures b in s[1..] <==> b in s && b != s[0]
  {
  }

  // ------------------------------------------------------- the histogram

  /** `histogram`: counts in nested loops, then sorts. Counts and `other` add up to the pixels outside
      the hole, and each count is its colour's multiplicity. */
  method Count(rows: seq<seq<nat>>, hole: Rect) returns (bins: seq<Bin>, other: nat, ghost raw: seq<Bin>)
    ensures Counted(raw, other, Colours(rows, hole, |rows|))
    ensures Sorted(bins) && multiset(bins) == multiset(raw)
  {
    hide Counted, Sort;
    raw, other := [], 0;
    var acc: seq<Bin> := [];
    Nothing();
    for y := 0 to |rows|
      invariant Counted(acc, other, Colours(rows, hole, y))
    {
      assert Colours(rows, hole, y) + [] == Colours(rows, hole, y);
      for x := 0 to |rows[y]|
        invariant Counted(acc, other, Colours(rows, hole, y) + RowColours(rows[y], y, hole, x))
      {
        ghost var seen := Colours(rows, hole, y) + RowColours(rows[y], y, hole, x);
        if InHole(hole, x, y) {
          assert Colours(rows, hole, y) + RowColours(rows[y], y, hole, x + 1) == seen;
          continue;
        }
        acc, other := Add(acc, other, Colour(rows[y][x]), seen);
        assert Colours(rows, hole, y) + RowColours(rows[y], y, hole, x + 1) == seen + [Colour(rows[y][x])];
      }
    }
    raw := acc;
    CountedDistinct(acc, other, Colours(rows, hole, |rows|));
    bins := Sort(acc);
  }

  lemma Nothing()
    ensures Counted([], 0, [])
  {
  }

  lemma CountedDistinct(bins: seq<Bin>, other: nat, seen: seq<nat>)
    requires Counted(bins, other, seen)
    ensures Distinct(bins)
  {
  }

  /** When there are no more colours than bins, nothing is left over and the bins are exactly the
      colours with their multiplicities. */
  lemma EveryColourCounted(bins: seq<Bin>, other: nat, seen: seq<nat>, colours: set<nat>)
    requires Counted(bins, other, seen) && (forall c :: c in seen ==> c in colours) && |colours| <= 16
    ensures other == 0
    ensures forall b :: b in bins <==> b.px in seen && b.n == multiset(seen)[b.px]
  {
    var taken := set i | 0 <= i < |bins| :: bins[i].px;
    TakenSize(bins, |bins|);
    forall c | c in taken ensures c in seen {
      var i :| 0 <= i < |bins| && bins[i].px == c;
      assert multiset(seen)[c] > 0;
    }
    forall c | c in seen ensures HasBin(bins, c) {
      if !HasBin(bins, c) {
        assert c !in taken && taken + {c} <= colours;
        assert |taken + {c}| == BINS + 1;
        Smaller(taken + {c}, colours);
        assert false;
      }
    }
    forall b ensures b in bins <==> b.px in seen && b.n == multiset(seen)[b.px] {
      if b in bins {
        var i :| 0 <= i < |bins| && bins[i] == b;
        assert b.px in taken;
      }
      if b.px in seen && b.n == multiset(seen)[b.px] {
        assert HasBin(bins, b.px);
        var i :| 0 <= i < |bins| && bins[i].px == b.px;
        assert bins[i] == b;
      }
    }
  }

  lemma Smaller(a: set<nat>, b: set<nat>)
    requires a <= b
    ensures |a| <= |b|
  {
    assert b == a + (b - a);
  }

  lemma {:induction false} TakenSize(bins: seq<Bin>, n: nat)
    requires Distinct(bins) && n <= |bins|
    ensures |set i | 0 <= i < n :: bins[i].px| == n
  {
    var s := set i | 0 <= i < n :: bins[i].px;
    if n == 0 {
      assert s == {};
    } else {
      TakenSize(bins, n - 1);
      var t := set i | 0 <= i < n - 1 :: bins[i].px;
      assert s == t + {bins[n - 1].px} && bins[n - 1].px !in t;
    }
  }

  /** What is printed depends only on how often each colour occurs, not on where. */
  lemma SamePixelsSamePrint(raw: seq<Bin>, other: nat, seen: seq<nat>, bins: seq<Bin>,
                            raw': seq<Bin>, other': nat, seen': seq<nat>, bins': seq<Bin>, colours: set<nat>)
    requires Counted(raw, other, seen) && Counted(raw', other', seen') && multiset(seen) == multiset(seen')
    requires (forall c :: c in seen ==> c in colours) && |colours| <= BINS
    requires Sorted(bins) && multiset(bins) == multiset(raw) && Sorted(bins') && multiset(bins') == multiset(raw')
    ensures bins == bins' && other == other' == 0
  {
    hide Counted;
    forall c ensures c in seen <==> c in seen' {
      assert c in multiset(seen) <==> c in multiset(seen');
    }
    EveryColourCounted(raw, other, seen, colours);
    EveryColourCounted(raw', other', seen', colours);
    SameMembers(bins, raw);
    SameMembers(bins', raw');
    SortedUnique(bins, bins');
  }

  /** With more colours than bins the first ones seen get the bins, and all the pixels of the others
      are in `other`. */
  lemma FirstColoursBinned(bins: seq<Bin>, other: nat, seen: seq<nat>, c: nat)
    requires Counted(bins, other, seen) && |FirstSeen(seen)| > BINS && c in seen
    ensures |bins| == BINS && other > 0
    ensures HasBin(bins, c) <==> c in FirstSeen(seen)[..BINS]
  {
    var first := FirstSeen(seen);
    FirstSeenDistinct(seen);
    var d := first[BINS];
    assert d in first;
    forall i | 0 <= i < |bins| ensures bins[i].px != d { assert bins[i].px == first[i]; }
    assert d in seen && !HasBin(bins, d);
    if c in first[..BINS] {
      var i :| 0 <= i < BINS && first[..BINS][i] == c;
      assert bins[i].px == first[i];
    }
    if HasBin(bins, c) {
      var i :| 0 <= i < |bins| && bins[i].px == c;
      assert first[..BINS][i] == c;
    }
  }

  lemma {:induction false} FirstSeenDistinct(seen: seq<nat>)
    ensures forall i, j :: 0 <= i < j < |FirstSeen(seen)| ==> FirstSeen(seen)[i] != FirstSeen(seen)[j]
  {
    if seen != [] {
      FirstSeenDistinct(seen[..|seen| - 1]);
      var rest := FirstSeen(seen[..|seen| - 1]);
      assert forall i :: 0 <= i < |rest| ==> rest[i] in rest;
    }
  }

  /** Then the order shows: of two pixels' worth of difference in place alone, one colour is binned
      in one picture and not in the other. */
  lemma OrderShows(bins: seq<Bin>, other: nat, seen: seq<nat>, bins': seq<Bin>, other': nat, seen': seq<nat>, c: nat)
    requires Counted(bins, other, seen) && Counted(bins', other', seen') && c in seen && c in seen'
    requires |FirstSeen(seen)| > BINS && |FirstSeen(seen')| > BINS
    requires c in FirstSeen(seen)[..BINS] && c !in FirstSeen(seen')[..BINS]
    ensures multiset(bins) != multiset(bins')
  {
    FirstColoursBinned(bins, other, seen, c);
    FirstColoursBinned(bins', other', seen', c);
    if multiset(bins) == multiset(bins') {
      SameMembers(bins, bins');
      HasBinToo(bins, bins', c);
    }
  }

  lemma HasBinToo(bins: seq<Bin>, bins': seq<Bin>, c: nat)
    requires HasBin(bins, c) && forall b :: b in bins ==> b in bins'
    ensures HasBin(bins', c)
  {
    var i :| 0 <= i < |bins| && bins[i].px == c;
    assert bins[i] in bins;
    var j :| 0 <= j < |bins'| && bins'[j] == bins[i];
  }
}
