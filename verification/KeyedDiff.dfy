/** The keyed snapshot diff and the step loop around it (tools/xkb-mutation-probe.c). A snapshot is
    a list of lines; the first two words of a line are its key. */
module KeyedDiff {

  // ------------------------------------------------------- keys

  /** The first space from `at` on, or the end. */
  function SpaceFrom(l: string, at: nat): (i: nat)
    requires at <= |l|
    ensures at <= i <= |l|
    decreases |l| - at
  {
    if at == |l| || l[at] == ' ' then at else SpaceFrom(l, at + 1)
  }

  /** `xs_keylen`: up to the second space, or the whole line. */
  function KeyLen(l: string): (n: nat)
    ensures n <= |l|
  {
    var sp := SpaceFrom(l, 0);
    if sp == |l| then |l| else SpaceFrom(l, sp + 1)
  }

  function Key(l: string): string { l[..KeyLen(l)] }

  predicate NoBlank(s: string) { forall i :: 0 <= i < |s| ==> s[i] != ' ' }

  lemma {:induction false} SpaceAfter(a: string, b: string, c: string)
    requires NoBlank(b) && (c != "" ==> c[0] == ' ')
    ensures SpaceFrom(a + b + c, |a|) == |a| + |b|
    decreases |b|
  {
    var l := a + b + c;
    if b != "" {
      assert l[|a|] == b[0] && l == (a + [b[0]]) + b[1..] + c;
      SpaceAfter(a + [b[0]], b[1..], c);
    } else if c != "" {
      assert l[|a|] == c[0];
    }
  }

  /** The key is the first two words: what comes before the second space, or all of it if there is
      none. */
  lemma KeyIs(first: string, second: string, rest: string)
    requires NoBlank(first) && NoBlank(second)
    ensures Key(first) == first && Key(first + " " + second) == first + " " + second
    ensures Key(first + " " + second + " " + rest) == first + " " + second
  {
    hide SpaceFrom;
    SpaceAfter("", first, "");
    assert "" + first + "" == first;
    SpaceAfter("", first, " " + second);
    assert "" + first + (" " + second) == first + " " + second;
    SpaceAfter(first + " ", second, "");
    assert first + " " + second + "" == first + " " + second;
    SpaceAfter("", first, " " + second + " " + rest);
    assert "" + first + (" " + second + " " + rest) == first + " " + second + " " + rest;
    SpaceAfter(first + " ", second, " " + rest);
    assert first + " " + second + (" " + rest) == first + " " + second + " " + rest;
  }

  /** `xs_find`'s test: same key length, same characters up to it. */
  predicate SameKey(l: string, m: string) {
    KeyLen(l) == KeyLen(m) && l[..KeyLen(m)] == m[..KeyLen(m)]
  }

  lemma SameKeyIff(l: string, m: string)
    ensures SameKey(l, m) <==> Key(l) == Key(m)
  {
  }

  predicate UniqueKeys(s: seq<string>) {
    forall i, j :: 0 <= i < j < |s| ==> Key(s[i]) != Key(s[j])
  }

  /** The snapshot as a map from keys to lines. */
  function AsMap(s: seq<string>): map<string, string> {
    if s == [] then map[] else AsMap(s[..|s| - 1])[Key(s[|s| - 1]) := s[|s| - 1]]
  }

  function Keys(s: seq<string>): set<string> { set i | 0 <= i < |s| :: Key(s[i]) }

  lemma KeysSnoc(s: seq<string>, n: nat)
    requires n < |s|
    ensures Keys(s[..n + 1]) == Keys(s[..n]) + {Key(s[n])}
  {
  }

  lemma {:induction false} AsMapKeys(s: seq<string>)
    ensures AsMap(s).Keys == Keys(s)
    ensures UniqueKeys(s) ==> forall i :: 0 <= i < |s| ==> AsMap(s)[Key(s[i])] == s[i]
    ensures forall k :: k in AsMap(s) ==> AsMap(s)[k] in s && Key(AsMap(s)[k]) == k
  {
    hide Key, Keys, UniqueKeys, Holds;
    if s == [] {
      NoKeys();
    } else {
      var front, l := s[..|s| - 1], s[|s| - 1];
      AsMapKeys(front);
      KeysSnoc(s, |s| - 1);
      assert s[..|s|] == s && s == front + [l];
      assert AsMap(s) == AsMap(front)[Key(l) := l];
      hide AsMap;
      LinesOf(s, front, l);
      HeldKeys(AsMap(front), front);
      HeldKeys(AsMap(s), s);
      if UniqueKeys(s) { EachLine(s, front, l, AsMap(front)); }
    }
  }

  lemma NoKeys()
    ensures Keys([]) == {} && AsMap([]) == map[]
  {
  }

  lemma LinesOf(s: seq<string>, front: seq<string>, l: string)
    requires s == front + [l] && AsMap(s) == AsMap(front)[Key(l) := l]
    requires forall k :: k in AsMap(front) ==> AsMap(front)[k] in front && Key(AsMap(front)[k]) == k
    ensures forall k :: k in AsMap(s) ==> AsMap(s)[k] in s && Key(AsMap(s)[k]) == k
  {
    hide Key, AsMap;
    forall k | k in AsMap(s) ensures AsMap(s)[k] in s && Key(AsMap(s)[k]) == k {
      if k != Key(l) { assert AsMap(s)[k] == AsMap(front)[k]; }
    }
  }

  /** Every line is found under its key. */
  ghost predicate Holds(m: map<string, string>, s: seq<string>) {
    forall i :: 0 <= i < |s| ==> Key(s[i]) in m && m[Key(s[i])] == s[i]
  }

  lemma EachLine(s: seq<string>, front: seq<string>, l: string, m: map<string, string>)
    requires s == front + [l] && UniqueKeys(s) && (UniqueKeys(front) ==> Holds(m, front))
    ensures Holds(m[Key(l) := l], s)
  {
    hide Key;
    UniqueFront(s, front, l);
  }

  lemma HeldKeys(m: map<string, string>, s: seq<string>)
    requires m.Keys == Keys(s)
    ensures Holds(m, s) <==> forall i :: 0 <= i < |s| ==> m[Key(s[i])] == s[i]
  {
    hide Key;
  }

  lemma UniqueFront(s: seq<string>, front: seq<string>, l: string)
    requires s == front + [l] && UniqueKeys(s)
    ensures UniqueKeys(front)
    ensures forall i :: 0 <= i < |front| ==> front[i] == s[i] && Key(s[i]) != Key(l)
  {
    hide Key;
    assert forall i :: 0 <= i < |front| ==> front[i] == s[i];
    assert s[|front|] == l;
  }

  // ------------------------------------------------------- patches

  datatype Edit = Minus(line: string) | Plus(line: string)

  function ApplyOne(m: map<string, string>, e: Edit): map<string, string> {
    match e
    case Minus(l) => m - {Key(l)}
    case Plus(l) => m[Key(l) := l]
  }

  function Apply(m: map<string, string>, es: seq<Edit>): map<string, string> {
    if es == [] then m else ApplyOne(Apply(m, es[..|es| - 1]), es[|es| - 1])
  }

  lemma ApplySnoc(m: map<string, string>, es: seq<Edit>, e: Edit)
    ensures Apply(m, es + [e]) == ApplyOne(Apply(m, es), e)
  {
  }

  lemma {:induction false} ApplyConcat(m: map<string, string>, es: seq<Edit>, fs: seq<Edit>)
    ensures Apply(m, es + fs) == Apply(Apply(m, es), fs)
    decreases |fs|
  {
    hide ApplyOne;
    if fs == [] {
      assert es + fs == es;
    } else {
      hide Apply;
      var front, e := fs[..|fs| - 1], fs[|fs| - 1];
      ApplyConcat(m, es, front);
      assert es + fs == (es + front) + [e] && fs == front + [e];
      ApplySnoc(m, es + front, e);
      ApplySnoc(Apply(m, es), front, e);
    }
  }

  /** `old` with the keys in `done` brought up to `new`. */
  function Patched(was: map<string, string>, now: map<string, string>, done: set<string>): map<string, string> {
    map k | k in was.Keys + now.Keys && (if k in done then k in now else k in was)
      :: if k in done then now[k] else was[k]
  }

  // ------------------------------------------------------- the diff

  datatype Found = Nowhere | At(index: nat)

  /** `xs_find`. */
  method XsFind(s: seq<string>, l: string) returns (r: Found)
    ensures r.At? ==> r.index < |s| && Key(s[r.index]) == Key(l)
    ensures r == Nowhere <==> Key(l) !in Keys(s)
  {
    for i := 0 to |s|
      invariant forall k :: 0 <= k < i ==> Key(s[k]) != Key(l)
    {
      SameKeyIff(s[i], l);
      if SameKey(s[i], l) {
        assert Key(s[i]) in Keys(s);
        return At(i);
      }
    }
    r := Nowhere;
  }

  /** What the printed lines say about a snapshot's lines: those gone and those new. */
  ghost predicate Describes(out: seq<Edit>, a: seq<string>, b: seq<string>, i: nat, j: nat)
    requires i <= |a| && j <= |b|
  {
    && (forall l :: Minus(l) in out <==> l in a[..i] && l !in b)
    && (forall l :: Plus(l) in out <==> l in b && l !in a && (Key(l) in Keys(a[..i]) || l in b[..j]))
  }

  /** The order of the lines: `at` gives each its place, the old lines' places first and then the new
      ones'. Places ascend; two lines have the same one only where an old line and its new version are
      printed together, the old one first. */
  ghost predicate InOrder(out: seq<Edit>, a: seq<string>, b: seq<string>, at: seq<nat>) {
    && |at| == |out|
    && (forall p :: 0 <= p < |out| ==> Placed(out, a, b, at, p))
    && (forall p, q :: 0 <= p < q < |out| ==> at[p] < at[q] || (at[p] == at[q] && q == p + 1))
  }

  ghost predicate Placed(out: seq<Edit>, a: seq<string>, b: seq<string>, at: seq<nat>, p: nat)
    requires p < |out| == |at|
  {
    at[p] < |a| + |b|
    && if at[p] >= |a| then out[p] == Plus(b[at[p] - |a|])
       else if p == 0 || at[p - 1] != at[p] then out[p] == Minus(a[at[p]])
       else out[p].Plus? && out[p].line in b && Key(out[p].line) == Key(a[at[p]]) && out[p].line != a[at[p]]
  }

  lemma PlaceOne(out: seq<Edit>, a: seq<string>, b: seq<string>, at: seq<nat>, e: Edit, n: nat)
    requires InOrder(out, a, b, at) && n < |a| + |b| && forall p :: 0 <= p < |at| ==> at[p] < n
    requires if n < |a| then e == Minus(a[n]) else e == Plus(b[n - |a|])
    ensures InOrder(out + [e], a, b, at + [n])
  {
    hide Key;
    var more, at' := out + [e], at + [n];
    forall p | 0 <= p < |more| ensures Placed(more, a, b, at', p) {
      if p < |out| { assert Placed(out, a, b, at, p); }
    }
  }

  lemma PlaceTwo(out: seq<Edit>, a: seq<string>, b: seq<string>, at: seq<nat>, l: string, n: nat)
    requires InOrder(out, a, b, at) && n < |a| && forall p :: 0 <= p < |at| ==> at[p] < n
    requires l in b && Key(l) == Key(a[n]) && l != a[n]
    ensures InOrder(out + [Minus(a[n])] + [Plus(l)], a, b, at + [n] + [n])
  {
    hide Key;
    PlaceOne(out, a, b, at, Minus(a[n]), n);
    var one, at1 := out + [Minus(a[n])], at + [n];
    var two, at2 := one + [Plus(l)], at1 + [n];
    forall p | 0 <= p < |two| ensures Placed(two, a, b, at2, p) {
      if p < |one| { assert Placed(one, a, b, at1, p); }
    }
  }

  /** `diff_xsnap`: the lines printed are a patch from `a` to `b`. They name exactly the lines that
      differ, and there are none iff the snapshots agree. */
  method DiffSnap(a: seq<string>, b: seq<string>) returns (out: seq<Edit>, ghost at: seq<nat>)
    requires UniqueKeys(a) && UniqueKeys(b)
    ensures InOrder(out, a, b, at)
    ensures Apply(AsMap(a), out) == AsMap(b)
    ensures out == [] <==> AsMap(a) == AsMap(b)
    ensures forall l :: Minus(l) in out <==> l in a && l !in b
    ensures forall l :: Plus(l) in out <==> l in b && l !in a
  {
    hide Key, Describes, Patched, AsMap, Apply, UniqueKeys, InOrder;
    ghost var was, now := AsMap(a), AsMap(b);
    AsMapKeys(a);
    AsMapKeys(b);
    out, at := DiffOld(a, b);
    assert a[..|a|] == a && Keys(a) + Keys(b[..0]) == Keys(a);
    for j := 0 to |b|
      invariant Apply(was, out) == Patched(was, now, Keys(a) + Keys(b[..j]))
      invariant Describes(out, a, b, |a|, j)
      invariant InOrder(out, a, b, at) && forall p :: 0 <= p < |at| ==> at[p] < |a| + j
    {
      var r := XsFind(a, b[j]);
      KeysSnoc(b, j);
      assert Keys(a) + Keys(b[..j + 1]) == Keys(a) + Keys(b[..j]) + {Key(b[j])};
      assert b[..j + 1] == b[..j] + [b[j]];
      if r == Nowhere {
        ApplySnoc(was, out, Plus(b[j]));
        PatchAdd(was, now, Keys(a) + Keys(b[..j]), b[j]);
        NewLine(out, a, b, j);
        PlaceOne(out, a, b, at, Plus(b[j]), |a| + j);
        out, at := out + [Plus(b[j])], at + [|a| + j];
      } else {
        assert Keys(a) + Keys(b[..j + 1]) == Keys(a) + Keys(b[..j]);
        OldKeyLine(out, a, b, j);
      }
    }
    assert b[..|b|] == b;
    AllDone(out, a, b);
    EmptyIffSame(out, a, b);
  }

  lemma AllDone(out: seq<Edit>, a: seq<string>, b: seq<string>)
    requires Describes(out, a, b, |a|, |b|)
    ensures Patched(AsMap(a), AsMap(b), Keys(a) + Keys(b)) == AsMap(b)
    ensures forall l :: Minus(l) in out <==> l in a && l !in b
    ensures forall l :: Plus(l) in out <==> l in b && l !in a
  {
    hide Key, Keys, AsMap, Patched, UniqueKeys;
    AsMapKeys(a);
    AsMapKeys(b);
    PatchedAll(AsMap(a), AsMap(b));
    assert a[..|a|] == a && b[..|b|] == b;
  }

  lemma PatchedAll(was: map<string, string>, now: map<string, string>)
    ensures Patched(was, now, was.Keys + now.Keys) == now
  {
  }

  lemma PatchAdd(was: map<string, string>, now: map<string, string>, done: set<string>, l: string)
    requires Key(l) in now && now[Key(l)] == l && Key(l) !in was
    ensures Patched(was, now, done + {Key(l)}) == Patched(was, now, done)[Key(l) := l]
  {
  }

  lemma NewLine(out: seq<Edit>, a: seq<string>, b: seq<string>, j: nat)
    requires j < |b| && Describes(out, a, b, |a|, j) && Key(b[j]) !in Keys(a)
    ensures Describes(out + [Plus(b[j])], a, b, |a|, j + 1)
  {
  }

  lemma OldKeyLine(out: seq<Edit>, a: seq<string>, b: seq<string>, j: nat)
    requires j < |b| && Describes(out, a, b, |a|, j) && Key(b[j]) in Keys(a)
    ensures Describes(out, a, b, |a|, j + 1)
  {
  }

  lemma EmptyIffSame(out: seq<Edit>, a: seq<string>, b: seq<string>)
    requires UniqueKeys(a) && UniqueKeys(b) && Apply(AsMap(a), out) == AsMap(b)
    requires forall l :: Minus(l) in out <==> l in a && l !in b
    requires forall l :: Plus(l) in out <==> l in b && l !in a
    ensures out == [] <==> AsMap(a) == AsMap(b)
  {
    AsMapKeys(a);
    AsMapKeys(b);
    FirstEdit(out);
    if AsMap(a) == AsMap(b) {
      SameLines(a, b);
      SameLines(b, a);
    }
  }

  lemma FirstEdit(out: seq<Edit>)
    ensures out != [] ==>
        (out[0] == Minus(out[0].line) && Minus(out[0].line) in out) || (out[0] == Plus(out[0].line)
        && Plus(out[0].line) in out)
  {
  }

  lemma SameLines(a: seq<string>, b: seq<string>)
    requires UniqueKeys(a) && UniqueKeys(b) && AsMap(a) == AsMap(b)
    ensures forall l :: l in a ==> l in b
  {
    hide Key;
    AsMapKeys(a);
    AsMapKeys(b);
    forall l | l in a ensures l in b {
      var i :| 0 <= i < |a| && a[i] == l;
      assert AsMap(a)[Key(a[i])] == l && Key(a[i]) in AsMap(a);
    }
  }

  /** The first loop: every old line that is gone or changed. */
  method DiffOld(a: seq<string>, b: seq<string>) returns (out: seq<Edit>, ghost at: seq<nat>)
    requires UniqueKeys(a) && UniqueKeys(b)
    ensures InOrder(out, a, b, at) && forall p :: 0 <= p < |at| ==> at[p] < |a|
    ensures Apply(AsMap(a), out) == Patched(AsMap(a), AsMap(b), Keys(a))
    ensures Describes(out, a, b, |a|, 0)
  {
    hide Key, Describes, Patched, AsMap, Apply, InOrder;
    ghost var was, now := AsMap(a), AsMap(b);
    AsMapKeys(a);
    AsMapKeys(b);
    out, at := [], [];
    NoneDone(a, b);
    for i := 0 to |a|
      invariant Apply(was, out) == Patched(was, now, Keys(a[..i]))
      invariant Describes(out, a, b, i, 0)
      invariant InOrder(out, a, b, at) && forall p :: 0 <= p < |at| ==> at[p] < i
    {
      var r := XsFind(b, a[i]);
      KeysSnoc(a, i);
      FreshKey(a, i);
      if r == Nowhere {
        ApplySnoc(was, out, Minus(a[i]));
        PatchDrop(was, now, Keys(a[..i]), a[i]);
        GoneLine(out, a, b, i);
        PlaceOne(out, a, b, at, Minus(a[i]), i);
        out, at := out + [Minus(a[i])], at + [i];
      } else if a[i] != b[r.index] {
        ApplySnoc(was, out, Minus(a[i]));
        ApplySnoc(was, out + [Minus(a[i])], Plus(b[r.index]));
        PatchChange(was, now, Keys(a[..i]), a[i], b[r.index]);
        ChangedLine(out, a, b, i, r.index);
        PlaceTwo(out, a, b, at, b[r.index], i);
        out := out + [Minus(a[i])];
        out := out + [Plus(b[r.index])];
        at := at + [i] + [i];
      } else {
        PatchSame(was, now, Keys(a[..i]), a[i]);
        SameLine(out, a, b, i, r.index);
      }
    }
    assert a[..|a|] == a;
  }

  lemma NoneDone(a: seq<string>, b: seq<string>)
    ensures Describes([], a, b, 0, 0) && InOrder([], a, b, [])
    ensures Patched(AsMap(a), AsMap(b), Keys(a[..0])) == Apply(AsMap(a), [])
  {
  }

  lemma FreshKey(a: seq<string>, i: nat)
    requires i < |a| && UniqueKeys(a)
    ensures Key(a[i]) !in Keys(a[..i]) && a[i] !in a[..i]
  {
  }

  lemma PatchDrop(was: map<string, string>, now: map<string, string>, done: set<string>, l: string)
    requires Key(l) !in now && Key(l) !in done
    ensures Patched(was, now, done + {Key(l)}) == Patched(was, now, done) - {Key(l)}
  {
  }

  lemma PatchChange(was: map<string, string>, now: map<string, string>, done: set<string>, l: string, m: string)
    requires Key(m) == Key(l) && Key(l) in now && now[Key(l)] == m && Key(l) !in done
    ensures Patched(was, now, done + {Key(l)}) == (Patched(was, now, done) - {Key(l)})[Key(m) := m]
  {
  }

  lemma PatchSame(was: map<string, string>, now: map<string, string>, done: set<string>, l: string)
    requires Key(l) in was && Key(l) in now && now[Key(l)] == was[Key(l)] == l
    ensures Patched(was, now, done + {Key(l)}) == Patched(was, now, done)
  {
  }

  lemma GoneLine(out: seq<Edit>, a: seq<string>, b: seq<string>, i: nat)
    requires i < |a| && Describes(out, a, b, i, 0) && Key(a[i]) !in Keys(b)
    ensures Describes(out + [Minus(a[i])], a, b, i + 1, 0)
  {
  }

  lemma ChangedLine(out: seq<Edit>, a: seq<string>, b: seq<string>, i: nat, j: nat)
    requires i < |a| && j < |b| && Describes(out, a, b, i, 0) && UniqueKeys(a) && UniqueKeys(b)
    requires Key(a[i]) == Key(b[j]) && a[i] != b[j]
    ensures Describes(out + [Minus(a[i])] + [Plus(b[j])], a, b, i + 1, 0)
  {
  }

  lemma SameLine(out: seq<Edit>, a: seq<string>, b: seq<string>, i: nat, j: nat)
    requires i < |a| && j < |b| && Describes(out, a, b, i, 0) && UniqueKeys(b) && a[i] == b[j]
    ensures Describes(out, a, b, i + 1, 0)
  {
  }

  // ------------------------------------------------------- the step loop

  /** An argument of the probe: compare with the first snapshot, or take a step and a snapshot. */
  datatype Arg = Total | Step(after: seq<string>)

  datatype Output = TotalDiff(edits: seq<Edit>) | StepDiff(edits: seq<Edit>)

  /** Everything printed by the steps, in order. */
  function StepEdits(out: seq<Output>): seq<Edit> {
    if out == [] then []
    else StepEdits(out[..|out| - 1]) + (if out[|out| - 1].StepDiff? then out[|out| - 1].edits else [])
  }

  /** The snapshot the loop holds after the given arguments. */
  function Held(start: seq<string>, args: seq<Arg>): seq<string> {
    if args == [] then start
    else if args[|args| - 1].Step? then args[|args| - 1].after
    else Held(start, args[..|args| - 1])
  }

  ghost predicate AllUnique(args: seq<Arg>) {
    forall i :: 0 <= i < |args| && args[i].Step? ==> UniqueKeys(args[i].after)
  }

  /** Output k tells the truth: a total takes the first snapshot to where all the steps so far
      have taken the start, and prints nothing iff the two agree. */
  ghost predicate TrueTotal(first: seq<string>, start: seq<string>, out: seq<Output>, k: nat)
    requires k < |out|
  {
    out[k].TotalDiff? ==>
      && Apply(AsMap(first), out[k].edits) == Apply(AsMap(start), StepEdits(out[..k]))
      && (out[k].edits == [] <==> AsMap(first) == Apply(AsMap(start), StepEdits(out[..k])))
  }

  /** The loop of `main`: over every run, the steps' deltas compose to the snapshot held, and every
      total printed on the way agrees with them. */
  method Run(first: seq<string>, start: seq<string>, args: seq<Arg>) returns (out: seq<Output>)
    requires UniqueKeys(first) && UniqueKeys(start) && AllUnique(args)
    ensures |out| == |args|
    ensures Apply(AsMap(start), StepEdits(out)) == AsMap(Held(start, args))
    ensures forall k :: 0 <= k < |out| ==> TrueTotal(first, start, out, k)
  {
    hide Apply, AsMap, UniqueKeys;
    out := [];
    var before := start;
    NoEdits(start);
    for i := 0 to |args|
      invariant |out| == i && UniqueKeys(before) && before == Held(start, args[..i])
      invariant Apply(AsMap(start), StepEdits(out)) == AsMap(before)
      invariant forall k :: 0 <= k < i ==> TrueTotal(first, start, out, k)
    {
      assert args[..i + 1][..i] == args[..i];
      ghost var so := out;
      if args[i] == Total {
        var d, _ := DiffSnap(first, before);
        out := out + [TotalDiff(d)];
        assert out[..i] == so && StepEdits(out) == StepEdits(so) + [] == StepEdits(so);
        assert TrueTotal(first, start, out, i);
      } else {
        var d, _ := DiffSnap(before, args[i].after);
        ApplyConcat(AsMap(start), StepEdits(out), d);
        out := out + [StepDiff(d)];
        assert out[..i] == so;
        before := args[i].after;
      }
      forall k | 0 <= k < i ensures TrueTotal(first, start, out, k) {
        assert out[k] == so[k] && out[..k] == so[..k] && TrueTotal(first, start, so, k);
      }
    }
    assert args[..|args|] == args;
  }

  lemma NoEdits(start: seq<string>)
    ensures Apply(AsMap(start), []) == AsMap(start)
  {
  }
}
