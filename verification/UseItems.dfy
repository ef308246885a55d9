/** Module-level `use` items of a source file: finding them (tools/use-only-diff.py,
    `module_uses`) and rewriting each to one path per item (tools/split/prune-unused-imports.py,
    `explode`). */
module UseItems {
  import opened Text
  import opened UseTree

  // ------------------------------------------------------- lines

  predicate IsAttr(l: string) { StartsWith(l, "#[") }

  function Brackets(l: string): int {
    if l == "" then 0
    else (if l[0] == '[' then 1 else if l[0] == ']' then -1 else 0) + Brackets(l[1..])
  }

  /** The first ')' from `at` on. */
  function CloseParen(l: string, at: nat): (i: nat)
    requires at <= |l|
    ensures at <= i <= |l| && (i < |l| ==> l[i] == ')')
    ensures forall k :: at <= k < i ==> l[k] != ')'
    decreases |l| - at
  {
    if at == |l| || l[at] == ')' then at else CloseParen(l, at + 1)
  }

  datatype Vis = NotUse | Vis(text: string)

  /** A `use` at column 0 and its visibility: nothing, `pub ` or `pub(...) `. */
  function VisOf(l: string): Vis {
    if StartsWith(l, "use ") then Vis("")
    else if StartsWith(l, "pub use ") then Vis("pub ")
    else if StartsWith(l, "pub(") then
      var c := CloseParen(l, 4);
      if c < |l| && StartsWith(l[c + 1..], " use ") then Vis(l[..c + 2]) else NotUse
    else NotUse
  }

  /** Nothing, or only a comment, after white space. */
  predicate OnlyComment(t: string) {
    t == "" || StartsWith(t, "//") || (Space(t[0]) && OnlyComment(t[1..]))
  }

  /** The statement ends on this line. */
  predicate Ends(l: string) {
    exists i :: 0 <= i < |l| && l[i] == ';' && OnlyComment(l[i + 1..])
  }

  // ------------------------------------------------------- what the tests on a line mean

  /** The text begins as a `use` of this visibility does. */
  ghost predicate Heads(l: string, vis: string) {
    && vis + "use " <= l
    && (vis == "" || vis == "pub " || exists inner :: ')' !in inner && vis == "pub(" + inner + ") ")
  }

  /** `VisOf` finds the visibility there is, and there is at most one. */
  lemma VisIs(l: string, vis: string)
    ensures Heads(l, vis) <==> VisOf(l) == Vis(vis)
  {
    hide VisOf;
    PlainHeads(l);
    if Heads(l, vis) && vis != "" && vis != "pub " {
      var inner :| ')' !in inner && vis == "pub(" + inner + ") ";
      PubFound(l, inner);
    }
    if VisOf(l) == Vis(vis) && vis != "" && vis != "pub " {
      var inner := PubInner(l);
    }
  }

  lemma PlainHeads(l: string)
    ensures "use " <= l <==> VisOf(l) == Vis("")
    ensures "pub use " <= l <==> VisOf(l) == Vis("pub ")
  {
    if StartsWith(l, "pub(") {
      var c := CloseParen(l, 4);
      assert l[3] == l[..4][3] == '(';
      if c < |l| && StartsWith(l[c + 1..], " use ") {
        assert l[..c + 2][3] == l[3] && "pub "[3] == ' ';
      }
      assert "pub use " <= l ==> l[3] == "pub use "[3];
    } else {
      assert StartsWith(l, "pub use ") <==> "pub use " <= l;
      assert "pub use " <= l ==> l[0] == "pub use "[0];
      assert !StartsWith(l, "pub use ") ==> VisOf(l) in {NotUse, Vis("")};
    }
  }

  lemma PubFound(l: string, inner: string)
    requires ')' !in inner && "pub(" + inner + ") use " <= l
    ensures VisOf(l) == Vis("pub(" + inner + ") ")
  {
    var head := "pub(" + inner + ") use ";
    var c := 4 + |inner|;
    assert l[..|head|] == head && head[..4] == "pub(" && head[c] == ')' && head[c + 1..] == " use ";
    assert l[..4] == head[..4] && l[c] == head[c] && l[..c + 2] == head[..c + 2] && l[0] == head[0] && l[3] == head[3];
    assert l[c + 1..][..5] == head[c + 1..];
    forall k | 4 <= k < c ensures l[k] != ')' { assert l[k] == head[k] == inner[k - 4]; }
    assert CloseParen(l, 4) == c;
    assert head[..c + 2] == "pub(" + inner + ") ";
  }

  lemma PubInner(l: string) returns (inner: string)
    requires VisOf(l).Vis? && !("use " <= l) && !("pub use " <= l)
    ensures ')' !in inner && VisOf(l).text == "pub(" + inner + ") " && VisOf(l).text + "use " <= l
  {
    var c := CloseParen(l, 4);
    inner := l[4..c];
    var tail := l[c + 1..];
    assert tail[..5] == " use " && tail[0] == ' ' && l[c + 1] == tail[0];
    assert l[..4] == "pub(" && l[..c + 2] == l[..4] + l[4..c] + [l[c]] + [l[c + 1]];
    assert l[..c + 6] == l[..c + 1] + tail[..5] == l[..c + 1] + " use " == l[..c + 2] + "use ";
  }

  /** From i up to k there is only white space, and at k the line ends or a comment starts. */
  ghost predicate BlankTo(l: string, i: int, k: int) {
    0 <= i <= k <= |l| && (forall j :: i <= j < k ==> Space(l[j])) && (k == |l| || "//" <= l[k..])
  }

  lemma {:induction false} OnlyCommentIff(l: string, i: nat)
    requires i <= |l|
    ensures OnlyComment(l[i..]) <==> exists k :: BlankTo(l, i, k)
    decreases |l| - i
  {
    if i < |l| {
      OnlyCommentIff(l, i + 1);
      assert l[i..][1..] == l[i + 1..] && l[i..][0] == l[i];
      assert StartsWith(l[i..], "//") <==> "//" <= l[i..];
      if OnlyComment(l[i..]) {
        if "//" <= l[i..] {
          assert BlankTo(l, i, i);
        } else {
          var k :| BlankTo(l, i + 1, k);
          assert BlankTo(l, i, k);
        }
      }
      if k :| BlankTo(l, i, k) {
        assert k > i ==> BlankTo(l, i + 1, k);
      }
    } else {
      assert BlankTo(l, i, i);
    }
  }

  /** A semicolon at i, and nothing but white space behind it up to k. */
  ghost predicate Closes(l: string, i: int, k: int) {
    0 <= i < |l| && l[i] == ';' && BlankTo(l, i + 1, k)
  }

  /** A line ends a statement iff after some semicolon there is only white space, up to the end or to
      a comment. */
  lemma EndsIff(l: string)
    ensures Ends(l) <==> exists i, k :: Closes(l, i, k)
  {
    if Ends(l) {
      var i :| 0 <= i < |l| && l[i] == ';' && OnlyComment(l[i + 1..]);
      OnlyCommentIff(l, i + 1);
      var k :| BlankTo(l, i + 1, k);
      assert Closes(l, i, k);
    }
    if i, k :| Closes(l, i, k) {
      OnlyCommentIff(l, i + 1);
    }
  }

  lemma {:induction false} BracketsAre(l: string)
    ensures Brackets(l) == multiset(l)['['] as int - multiset(l)[']'] as int
  {
    if l != "" {
      BracketsAre(l[1..]);
      assert l == [l[0]] + l[1..];
    }
  }

  // ------------------------------------------------------- module_uses

  datatype Span = Span(first: nat, last: nat)

  /** `Crash`: a `use` without an end runs off the file. */
  datatype Spans = Crash | Spans(spans: seq<Span>)

  datatype Mark = NoMark | Mark(at: nat)

  function StartOf(attr: Mark, i: nat): nat { if attr.Mark? then attr.at else i }

  /** The last line of the attribute at i: until its brackets close, or the file ends. */
  function AttrEnd(lines: seq<string>, i: nat, depth: int): (j: nat)
    requires i < |lines|
    ensures i <= j < |lines|
    decreases |lines| - i
  {
    if depth > 0 && i + 1 < |lines| then AttrEnd(lines, i + 1, depth + Brackets(lines[i + 1])) else i
  }

  /** The first line from j on that ends a statement. */
  function EndOf(lines: seq<string>, j: nat): (e: nat)
    requires j <= |lines|
    ensures j <= e <= |lines| && (e < |lines| ==> Ends(lines[e]))
    decreases |lines| - j
  {
    if j == |lines| || Ends(lines[j]) then j else EndOf(lines, j + 1)
  }

  function Scan(lines: seq<string>, i: nat, attr: Mark): Spans
    requires i <= |lines|
    decreases |lines| - i
  {
    if i == |lines| then Spans([])
    else if IsAttr(lines[i]) then
      Scan(lines, AttrEnd(lines, i, Brackets(lines[i])) + 1, Mark(StartOf(attr, i)))
    else if VisOf(lines[i]).Vis? then
      var e := EndOf(lines, i);
      if e == |lines| then Crash
      else
        match Scan(lines, e + 1, NoMark)
        case Crash => Crash
        case Spans(rest) => Spans([Span(StartOf(attr, i), e)] + rest)
    else Scan(lines, i + 1, NoMark)
  }

  /** What the lines of a file belong to. */
  datatype Kind = Attribute | Statement | Other

  /** The opening brackets of some lines less the closing ones. */
  ghost function Excess(lines: seq<string>): int {
    if lines == [] then 0
    else
      var l := lines[|lines| - 1];
      Excess(lines[..|lines| - 1]) + multiset(l)['['] as int - multiset(l)[']'] as int
  }

  ghost predicate StartsUse(l: string) {
    !("#[" <= l) && exists vis :: Heads(l, vis)
  }

  ghost predicate EndsUse(l: string) {
    exists i, k :: Closes(l, i, k)
  }

  /** The lines a..b are one attribute, up to the line on which its brackets close; or one `use`, up to
      the line that ends it; or one line of anything else. */
  ghost predicate IsTile(lines: seq<string>, kind: Kind, a: nat, b: nat) {
    && a < b <= |lines|
    && match kind
       case Attribute =>
         && "#[" <= lines[a] && (forall j :: a < j < b ==> Excess(lines[a..j]) > 0)
         && (b < |lines| ==> Excess(lines[a..b]) <= 0)
       case Statement =>
         StartsUse(lines[a]) && EndsUse(lines[b - 1]) && forall j :: a <= j < b - 1 ==> !EndsUse(lines[j])
       case Other => b == a + 1 && !("#[" <= lines[a]) && !StartsUse(lines[a])
  }

  ghost predicate Tiles(lines: seq<string>, cuts: seq<nat>, kinds: seq<Kind>) {
    && |cuts| == |kinds| + 1 && cuts[0] == 0
    && (forall k :: 0 <= k < |kinds| ==> IsTile(lines, kinds[k], cuts[k], cuts[k + 1]))
  }

  /** The tiles i..k are attributes, and the one before them is not. */
  ghost predicate AttrsFrom(kinds: seq<Kind>, i: int, k: int) {
    && 0 <= i <= k <= |kinds|
    && (forall j :: i <= j < k ==> kinds[j] == Attribute) && (i > 0 ==> kinds[i - 1] != Attribute)
  }

  /** The spans are the statements, each with the attributes right above it: `at[m]` is the place of
      statement m and of its first attribute. */
  ghost predicate SpansAre(spans: seq<Span>, cuts: seq<nat>, kinds: seq<Kind>, at: seq<(nat, nat)>) {
    && |at| == |spans| && |cuts| == |kinds| + 1
    && (forall m :: 0 <= m < |at| ==> SpanIs(spans[m], cuts, kinds, at[m]))
    && (forall m, n :: 0 <= m < n < |at| ==> at[m].1 < at[n].1)
    && (forall k :: 0 <= k < |kinds| && kinds[k] == Statement ==> exists m :: 0 <= m < |at| && at[m].1 == k)
  }

  ghost predicate SpanIs(span: Span, cuts: seq<nat>, kinds: seq<Kind>, at: (nat, nat))
    requires |cuts| == |kinds| + 1
  {
    && at.1 < |kinds| && kinds[at.1] == Statement && AttrsFrom(kinds, at.0, at.1)
    && span.first == cuts[at.0] && span.last + 1 == cuts[at.1 + 1]
  }

  /** A `use` starts right after the tiles, and nothing ends it. */
  ghost predicate RunsOff(lines: seq<string>, n: nat) {
    n < |lines| && StartsUse(lines[n]) && forall j :: n <= j < |lines| ==> !EndsUse(lines[j])
  }

  lemma TileMore(lines: seq<string>, cuts: seq<nat>, kinds: seq<Kind>, kind: Kind, b: nat)
    requires Tiles(lines, cuts, kinds) && IsTile(lines, kind, cuts[|kinds|], b)
    ensures Tiles(lines, cuts + [b], kinds + [kind])
  {
  }

  lemma SpanStays(span: Span, cuts: seq<nat>, kinds: seq<Kind>, at: (nat, nat), kind: Kind, b: nat)
    requires |cuts| == |kinds| + 1 && SpanIs(span, cuts, kinds, at)
    ensures SpanIs(span, cuts + [b], kinds + [kind], at) && at.1 < |kinds|
  {
  }

  lemma SpansMore(spans: seq<Span>, cuts: seq<nat>, kinds: seq<Kind>, at: seq<(nat, nat)>, kind: Kind, b: nat)
    requires SpansAre(spans, cuts, kinds, at) && kind != Statement
    ensures SpansAre(spans, cuts + [b], kinds + [kind], at)
  {
    hide SpanIs;
    forall m | 0 <= m < |at| ensures SpanIs(spans[m], cuts + [b], kinds + [kind], at[m]) {
      SpanStays(spans[m], cuts, kinds, at[m], kind, b);
    }
  }

  lemma SpansUse(spans: seq<Span>, cuts: seq<nat>, kinds: seq<Kind>, at: seq<(nat, nat)>, a: nat, e: nat)
    requires SpansAre(spans, cuts, kinds, at) && AttrsFrom(kinds, a, |kinds|)
    ensures SpansAre(spans + [Span(cuts[a], e)], cuts + [e + 1], kinds + [Statement], at + [(a, |kinds|)])
  {
    var cuts', kinds', at' := cuts + [e + 1], kinds + [Statement], at + [(a, |kinds|)];
    var spans' := spans + [Span(cuts[a], e)];
    assert SpanIs(spans'[|at|], cuts', kinds', at'[|at|]);
    hide SpanIs;
    forall m | 0 <= m < |at| ensures SpanIs(spans'[m], cuts', kinds', at'[m]) && at[m].1 < |kinds| {
      SpanStays(spans[m], cuts, kinds, at[m], Statement, e + 1);
    }
    forall k | 0 <= k < |kinds'| && kinds'[k] == Statement ensures exists m :: 0 <= m < |at'| && at'[m].1 == k {
      if k < |kinds| {
        var m :| 0 <= m < |at| && at[m].1 == k;
        assert at'[m].1 == k;
      } else {
        assert at'[|at|].1 == k;
      }
    }
  }

  lemma LineIs(l: string)
    ensures IsAttr(l) <==> "#[" <= l
    ensures !IsAttr(l) ==> (VisOf(l).Vis? <==> StartsUse(l))
    ensures Ends(l) <==> EndsUse(l)
  {
    EndsIff(l);
    hide VisOf;
    if VisOf(l).Vis? { VisIs(l, VisOf(l).text); }
    if vis :| Heads(l, vis) { VisIs(l, vis); }
  }

  lemma ExcessNext(lines: seq<string>, a: nat, b: nat)
    requires a <= b < |lines|
    ensures Excess(lines[a..b + 1]) == Excess(lines[a..b]) + Brackets(lines[b])
    ensures Excess(lines[a..a]) == 0
  {
    BracketsAre(lines[b]);
    assert lines[a..b + 1][..b - a] == lines[a..b];
  }

  /** The inner loop over an attribute's lines. */
  method AttrLines(lines: seq<string>, i: nat) returns (j: nat)
    requires i < |lines| && IsAttr(lines[i])
    ensures j == AttrEnd(lines, i, Brackets(lines[i])) && IsTile(lines, Attribute, i, j + 1)
  {
    hide VisOf, Ends, IsAttr, Brackets, Excess;
    j := i;
    var depth := Brackets(lines[i]);
    ExcessNext(lines, i, i);
    while depth > 0 && j + 1 < |lines|
      invariant i <= j < |lines| && AttrEnd(lines, i, Brackets(lines[i])) == AttrEnd(lines, j, depth)
      invariant depth == Excess(lines[i..j + 1]) && forall k :: i < k <= j ==> Excess(lines[i..k]) > 0
      decreases |lines| - j
    {
      j := j + 1;
      ExcessNext(lines, i, j);
      depth := depth + Brackets(lines[j]);
    }
    LineIs(lines[i]);
  }

  /** The inner loop to the line that ends a statement. */
  method StatementEnd(lines: seq<string>, i: nat) returns (j: nat)
    requires i < |lines| && !IsAttr(lines[i]) && VisOf(lines[i]).Vis?
    ensures j == EndOf(lines, i) && i <= j <= |lines|
    ensures if j < |lines| then IsTile(lines, Statement, i, j + 1) else RunsOff(lines, i)
  {
    hide VisOf, Ends, IsAttr;
    j := i;
    LineIs(lines[i]);
    hide StartsUse, EndsUse;
    while j < |lines| && !Ends(lines[j])
      invariant i <= j <= |lines| && EndOf(lines, i) == EndOf(lines, j)
      invariant forall k :: i <= k < j ==> !EndsUse(lines[k])
    {
      LineIs(lines[j]);
      j := j + 1;
    }
    if j < |lines| { LineIs(lines[j]); }
  }

  /** `module_uses`: the line span of every module-level `use` with its attributes. The file is cut
      into attributes, statements and other lines, and the spans are the statements with the
      attributes above them; the loop runs off the file iff a statement does not end. */
  method ModuleUses(lines: seq<string>)
    returns (r: Spans, ghost cuts: seq<nat>, ghost kinds: seq<Kind>, ghost at: seq<(nat, nat)>)
    ensures r == Scan(lines, 0, NoMark)
    ensures Tiles(lines, cuts, kinds)
    ensures r.Spans? ==> cuts[|kinds|] == |lines| && SpansAre(r.spans, cuts, kinds, at)
    ensures r.Crash? ==> RunsOff(lines, cuts[|kinds|])
  {
    hide VisOf, Ends, IsAttr, Brackets, Excess, StartsUse, EndsUse, Tiles, SpansAre, IsTile, RunsOff, AttrEnd, EndOf;
    var out: seq<Span> := [];
    var i: nat, attr := 0, NoMark;
    cuts, kinds, at := [0], [], [];
    ghost var first: nat := 0;
    NoTiles(lines);
    while i < |lines|
      invariant 0 <= i <= |lines|
      invariant Scan(lines, 0, NoMark) == Prepend(out, Scan(lines, i, attr))
      invariant Tiles(lines, cuts, kinds) && SpansAre(out, cuts, kinds, at)
      invariant |cuts| == |kinds| + 1 && cuts[|kinds|] == i
      invariant AttrsFrom(kinds, first, |kinds|) && StartOf(attr, i) == cuts[first] && (attr.Mark? <==> first < |kinds|)
      decreases |lines| - i
    {
      LineIs(lines[i]);
      if IsAttr(lines[i]) {
        attr := Mark(StartOf(attr, i));
        i := AttrLines(lines, i);
        TileMore(lines, cuts, kinds, Attribute, i + 1);
        SpansMore(out, cuts, kinds, at, Attribute, i + 1);
        cuts, kinds := cuts + [i + 1], kinds + [Attribute];
      } else if VisOf(lines[i]).Vis? {
        var j := StatementEnd(lines, i);
        if j == |lines| {
          return Crash, cuts, kinds, at;
        }
        TileMore(lines, cuts, kinds, Statement, j + 1);
        SpansUse(out, cuts, kinds, at, first, j);
        cuts, kinds, at := cuts + [j + 1], kinds + [Statement], at + [(first, |kinds|)];
        first := |kinds|;
        PrependMore(out, [Span(StartOf(attr, i), j)], Scan(lines, j + 1, NoMark));
        out := out + [Span(StartOf(attr, i), j)];
        i, attr := j, NoMark;
      } else {
        OtherTile(lines, i);
        TileMore(lines, cuts, kinds, Other, i + 1);
        SpansMore(out, cuts, kinds, at, Other, i + 1);
        cuts, kinds := cuts + [i + 1], kinds + [Other];
        first := |kinds|;
        attr := NoMark;
      }
      i := i + 1;
    }
    r := Spans(out);
  }

  lemma NoTiles(lines: seq<string>)
    ensures Tiles(lines, [0], []) && SpansAre([], [0], [], [])
  {
  }

  lemma OtherTile(lines: seq<string>, a: nat)
    requires a < |lines| && !("#[" <= lines[a]) && !StartsUse(lines[a])
    ensures IsTile(lines, Other, a, a + 1)
  {
  }

  function Prepend(out: seq<Span>, r: Spans): Spans {
    if r.Crash? then Crash else Spans(out + r.spans)
  }

  lemma PrependMore(out: seq<Span>, more: seq<Span>, r: Spans)
    ensures Prepend(out, Prepend(more, r)) == Prepend(out + more, r)
  {
  }

  /** Ascending, disjoint and in range, from line `lo` on. */
  predicate Ordered(spans: seq<Span>, lo: nat, n: nat) {
    && (forall k :: 0 <= k < |spans| ==> lo <= spans[k].first <= spans[k].last < n)
    && (forall j, k :: 0 <= j < k < |spans| ==> spans[j].last < spans[k].first)
  }

  lemma {:induction false} SpansOrdered(lines: seq<string>, i: nat, attr: Mark)
    requires i <= |lines| && StartOf(attr, i) <= i && Scan(lines, i, attr).Spans?
    ensures Ordered(Scan(lines, i, attr).spans, StartOf(attr, i), |lines|)
    decreases |lines| - i
  {
    if i < |lines| {
      hide VisOf, Ends, IsAttr, Brackets;
      if IsAttr(lines[i]) {
        SpansOrdered(lines, AttrEnd(lines, i, Brackets(lines[i])) + 1, Mark(StartOf(attr, i)));
      } else if VisOf(lines[i]).Vis? {
        SpansOrdered(lines, EndOf(lines, i) + 1, NoMark);
      } else {
        SpansOrdered(lines, i + 1, NoMark);
      }
    }
  }

  // ------------------------------------------------------- the file as chunks

  /** A file is other lines and `use` items. */
  datatype Chunk = Text(line: string) | Use(block: seq<string>)

  datatype Parsed = Broken | Chunks(chunks: seq<Chunk>)

  function Texts(lines: seq<string>): seq<Chunk> {
    if lines == [] then [] else [Text(lines[0])] + Texts(lines[1..])
  }

  function Then(head: seq<Chunk>, p: Parsed): Parsed {
    if p.Broken? then Broken else Chunks(head + p.chunks)
  }

  /** The same scan, over what is left of the file; `pend` are the attribute lines just read. */
  function Parse(lines: seq<string>, pend: seq<string>): Parsed
    decreases |lines|
  {
    if lines == [] then Chunks(Texts(pend))
    else if IsAttr(lines[0]) then
      var k := AttrEnd(lines, 0, Brackets(lines[0])) + 1;
      Parse(lines[k..], pend + lines[..k])
    else if VisOf(lines[0]).Vis? then
      var e := EndOf(lines, 0);
      if e == |lines| then Broken
      else Then([Use(pend + lines[..e + 1])], Parse(lines[e + 1..], []))
    else Then(Texts(pend) + [Text(lines[0])], Parse(lines[1..], []))
  }

  function OtherLines(c: seq<Chunk>): seq<string> {
    if c == [] then [] else (if c[0].Text? then [c[0].line] else []) + OtherLines(c[1..])
  }

  function Items(c: seq<Chunk>): seq<seq<string>> {
    if c == [] then [] else (if c[0].Use? then [c[0].block] else []) + Items(c[1..])
  }

  lemma {:induction false} OtherLinesConcat(a: seq<Chunk>, b: seq<Chunk>)
    ensures OtherLines(a + b) == OtherLines(a) + OtherLines(b)
  {
    if a == [] {
      assert a + b == b;
    } else {
      assert (a + b)[1..] == a[1..] + b && (a + b)[0] == a[0];
      OtherLinesConcat(a[1..], b);
    }
  }

  lemma {:induction false} ItemsConcat(a: seq<Chunk>, b: seq<Chunk>)
    ensures Items(a + b) == Items(a) + Items(b)
  {
    if a == [] {
      assert a + b == b;
    } else {
      assert (a + b)[1..] == a[1..] + b && (a + b)[0] == a[0];
      ItemsConcat(a[1..], b);
    }
  }

  lemma {:induction false} TextsOnly(lines: seq<string>)
    ensures OtherLines(Texts(lines)) == lines && Items(Texts(lines)) == []
  {
    if lines != [] {
      TextsOnly(lines[1..]);
      assert Texts(lines)[1..] == Texts(lines[1..]);
    }
  }

  /** The lines no span covers, from `last` on: what `strip` compares. */
  function Outside(lines: seq<string>, spans: seq<Span>, last: nat): seq<string>
    requires Ordered(spans, last, |lines|) && last <= |lines|
  {
    if spans == [] then lines[last..]
    else
      TailOrdered(spans, last, |lines|);
      lines[last..spans[0].first] + Outside(lines, spans[1..], spans[0].last + 1)
  }

  lemma TailOrdered(spans: seq<Span>, lo: nat, n: nat)
    requires Ordered(spans, lo, n) && spans != []
    ensures Ordered(spans[1..], spans[0].last + 1, n)
  {
  }

  function BlocksOf(lines: seq<string>, spans: seq<Span>): seq<seq<string>>
    requires Ordered(spans, 0, |lines|)
  {
    if spans == [] then []
    else
      TailOrdered(spans, 0, |lines|);
      [lines[spans[0].first..spans[0].last + 1]] + BlocksOf(lines, spans[1..])
  }

  // ------------------------------------------------------- spans and chunks agree

  lemma {:induction false} AttrEndShift(lines: seq<string>, i: nat, k: nat, d: int)
    requires i + k < |lines|
    ensures AttrEnd(lines[i..], k, d) + i == AttrEnd(lines, i + k, d)
    decreases |lines| - k
  {
    if d > 0 && i + k + 1 < |lines| {
      assert lines[i..][k + 1] == lines[i + k + 1];
      AttrEndShift(lines, i, k + 1, d + Brackets(lines[i + k + 1]));
    }
  }

  lemma {:induction false} EndOfShift(lines: seq<string>, i: nat, k: nat)
    requires i + k <= |lines|
    ensures EndOf(lines[i..], k) + i == EndOf(lines, i + k)
    decreases |lines| - k
  {
    if i + k < |lines| && !Ends(lines[i + k]) {
      EndOfShift(lines, i, k + 1);
    }
  }

  lemma OutsideFrom(lines: seq<string>, spans: seq<Span>, a: nat, b: nat)
    requires a <= b <= |lines| && Ordered(spans, b, |lines|)
    ensures Ordered(spans, a, |lines|) && Outside(lines, spans, a) == lines[a..b] + Outside(lines, spans, b)
  {
    hide Outside;
    OrderedFrom(lines, spans, a, b);
    OutsideStep(lines, spans, a);
    OutsideStep(lines, spans, b);
    if spans == [] {
      Prefixed(lines, a, b, |lines|, [], Outside(lines, spans, a), Outside(lines, spans, b));
    } else {
      Prefixed(lines, a, b, spans[0].first, Outside(lines, spans[1..], spans[0].last + 1), Outside(lines, spans, a),
               Outside(lines, spans, b));
    }
  }

  lemma OutsideStep(lines: seq<string>, spans: seq<Span>, a: nat)
    requires Ordered(spans, a, |lines|) && a <= |lines|
    ensures spans == [] ==> Outside(lines, spans, a) == lines[a..|lines|] + []
    ensures spans != [] ==>
        && Ordered(spans[1..], spans[0].last + 1, |lines|)
        && Outside(lines, spans, a) == lines[a..spans[0].first] + Outside(lines, spans[1..], spans[0].last + 1)
  {
  }

  lemma ExplodedFrom(lines: seq<string>, spans: seq<Span>, a: nat, b: nat)
    requires a <= b <= |lines| && Ordered(spans, b, |lines|)
    ensures Ordered(spans, a, |lines|) && Exploded(lines, spans, a) == lines[a..b] + Exploded(lines, spans, b)
  {
    hide Rewrite, Exploded;
    OrderedFrom(lines, spans, a, b);
    if spans == [] {
      LastSpan(lines, a);
      LastSpan(lines, b);
      LongerSlice(lines, a, b, |lines|, []);
    } else {
      var f, e := spans[0].first, spans[0].last + 1;
      TailOrdered(spans, b, |lines|);
      FirstSpan(lines, spans, a);
      FirstSpan(lines, spans, b);
      Prefixed(lines, a, b, f, Rewrite(lines[f..e]) + Exploded(lines, spans[1..], e), Exploded(lines, spans, a),
               Exploded(lines, spans, b));
    }
  }

  lemma Prefixed(lines: seq<string>, a: nat, b: nat, f: nat, rest: seq<string>, all: seq<string>, less: seq<string>)
    requires a <= b <= f <= |lines| && all == lines[a..f] + rest && less == lines[b..f] + rest
    ensures all == lines[a..b] + less
  {
    LongerSlice(lines, a, b, f, rest);
  }

  lemma OrderedFrom(lines: seq<string>, spans: seq<Span>, a: nat, b: nat)
    requires a <= b <= |lines| && Ordered(spans, b, |lines|)
    ensures Ordered(spans, a, |lines|)
    ensures spans != [] ==> b <= spans[0].first <= spans[0].last < |lines|
  {
  }

  lemma LongerSlice(lines: seq<string>, a: nat, b: nat, f: nat, rest: seq<string>)
    requires a <= b <= f <= |lines|
    ensures lines[a..f] + rest == lines[a..b] + (lines[b..f] + rest)
  {
  }

  /** The chunk view of the file from line i on, with the attribute lines a..i pending, is the
      spans' view. */
  ghost predicate Agree(lines: seq<string>, r: Spans, a: nat, p: Parsed)
    requires a <= |lines|
  {
    match r
    case Crash => p == Broken
    case Spans(spans) =>
      && Ordered(spans, a, |lines|) && p.Chunks?
      && OtherLines(p.chunks) == Outside(lines, spans, a)
      && Items(p.chunks) == BlocksOf(lines, spans)
      && Render(p.chunks) == Exploded(lines, spans, a)
  }

  lemma {:induction false} ParseIsScan(lines: seq<string>, i: nat, attr: Mark)
    requires i <= |lines| && StartOf(attr, i) <= i
    ensures Agree(lines, Scan(lines, i, attr), StartOf(attr, i), Parse(lines[i..], lines[StartOf(attr, i)..i]))
    decreases |lines| - i
  {
    hide Rewrite, Agree, VisOf, Ends, IsAttr, Brackets, AttrEnd, EndOf, Texts, Render, Parse;
    var a := StartOf(attr, i);
    if i == |lines| {
      NothingAgrees(lines, a);
      ParseEnd(lines, a);
    } else if IsAttr(lines[i]) {
      ParseAttr(lines, a, i);
      ParseIsScan(lines, AttrEnd(lines, i, Brackets(lines[i])) + 1, Mark(a));
    } else if VisOf(lines[i]).Vis? {
      ParseUse(lines, a, i);
      var e := EndOf(lines, i);
      if e < |lines| {
        ParseIsScan(lines, e + 1, NoMark);
        assert lines[e + 1..e + 1] == [];
        UseAgrees(lines, a, e, Scan(lines, e + 1, NoMark), Parse(lines[e + 1..], []));
      } else {
        BrokenAgrees(lines, a);
      }
    } else {
      ParseText(lines, a, i);
      ParseIsScan(lines, i + 1, NoMark);
      assert lines[i + 1..i + 1] == [];
      TextAgrees(lines, a, i, Scan(lines, i + 1, NoMark), Parse(lines[i + 1..], []));
    }
  }

  lemma BrokenAgrees(lines: seq<string>, a: nat)
    requires a <= |lines|
    ensures Agree(lines, Crash, a, Broken)
  {
  }

  lemma ParseEnd(lines: seq<string>, a: nat)
    requires a <= |lines|
    ensures Parse(lines[|lines|..], lines[a..|lines|]) == Chunks(Texts(lines[a..]))
  {
    assert lines[|lines|..] == [] && lines[a..|lines|] == lines[a..];
  }

  lemma SplitAt(lines: seq<string>, a: nat, i: nat, k: nat)
    requires a <= i <= k <= |lines|
    ensures lines[i..][k - i..] == lines[k..] && lines[a..i] + lines[i..][..k - i] == lines[a..k]
  {
  }

  lemma ParseAttrFirst(lines: seq<string>, pend: seq<string>)
    requires lines != [] && IsAttr(lines[0])
    ensures var k := AttrEnd(lines, 0, Brackets(lines[0])) + 1;
      Parse(lines, pend) == Parse(lines[k..], pend + lines[..k])
  {
  }

  lemma ParseUseFirst(lines: seq<string>, pend: seq<string>)
    requires lines != [] && !IsAttr(lines[0]) && VisOf(lines[0]).Vis?
    ensures var e := EndOf(lines, 0);
      Parse(lines, pend) == if e
        == |lines| then Broken else Then([Use(pend + lines[..e + 1])], Parse(lines[e + 1..], []))
  {
  }

  lemma ParseTextFirst(l: string, rest: seq<string>, pend: seq<string>)
    requires !IsAttr(l) && !VisOf(l).Vis?
    ensures Parse([l] + rest, pend) == Then(Texts(pend) + [Text(l)], Parse(rest, []))
  {
  }

  lemma ParseAttr(lines: seq<string>, a: nat, i: nat)
    requires a <= i < |lines| && IsAttr(lines[i])
    ensures var k := AttrEnd(lines, i, Brackets(lines[i])) + 1;
      Parse(lines[i..], lines[a..i]) == Parse(lines[k..], lines[a..k])
  {
    var rest, k := lines[i..], AttrEnd(lines, i, Brackets(lines[i])) + 1;
    hide IsAttr, Brackets, Parse, AttrEnd;
    assert rest[0] == lines[i];
    AttrEndShift(lines, i, 0, Brackets(lines[i]));
    ParseAttrFirst(rest, lines[a..i]);
    assert AttrEnd(rest, 0, Brackets(rest[0])) + 1 == k - i;
    SplitAt(lines, a, i, k);
  }

  lemma ParseUse(lines: seq<string>, a: nat, i: nat)
    requires a <= i < |lines| && !IsAttr(lines[i]) && VisOf(lines[i]).Vis?
    ensures var e := EndOf(lines, i);
      Parse(lines[i..], lines[a..i]) == if e
        == |lines| then Broken else Then([Use(lines[a..e + 1])], Parse(lines[e + 1..], []))
  {
    hide VisOf, IsAttr, Ends, Parse, EndOf;
    var rest, e := lines[i..], EndOf(lines, i);
    EndOfShift(lines, i, 0);
    ParseUseFirst(rest, lines[a..i]);
    if e < |lines| {
      SplitAt(lines, a, i, e + 1);
    }
  }

  lemma ParseText(lines: seq<string>, a: nat, i: nat)
    requires a <= i < |lines| && !IsAttr(lines[i]) && !VisOf(lines[i]).Vis?
    ensures Parse(lines[i..], lines[a..i]) == Then(Texts(lines[a..i]) + [Text(lines[i])], Parse(lines[i + 1..], []))
  {
    ParseTextFirst(lines[i], lines[i + 1..], lines[a..i]);
    assert lines[i..] == [lines[i]] + lines[i + 1..];
  }

  lemma NothingAgrees(lines: seq<string>, a: nat)
    requires a <= |lines|
    ensures Agree(lines, Spans([]), a, Chunks(Texts(lines[a..])))
  {
    TextsOnly(lines[a..]);
    RenderTexts(lines[a..]);
  }

  lemma UseAgrees(lines: seq<string>, a: nat, e: nat, r: Spans, p: Parsed)
    requires a <= e < |lines| && Agree(lines, r, e + 1, p)
    ensures Agree(lines, Prepend([Span(a, e)], r), a, Then([Use(lines[a..e + 1])], p))
  {
    hide Rewrite;
    if r.Spans? {
      var spans := [Span(a, e)] + r.spans;
      assert spans[1..] == r.spans;
      var c := [Use(lines[a..e + 1])] + p.chunks;
      assert c[1..] == p.chunks;
      assert lines[a..a] == [];
    }
  }

  lemma TextAgrees(lines: seq<string>, a: nat, i: nat, r: Spans, p: Parsed)
    requires a <= i < |lines| && Agree(lines, r, i + 1, p)
    ensures Agree(lines, r, a, Then(Texts(lines[a..i]) + [Text(lines[i])], p))
  {
    hide Rewrite, Texts, Render, OtherLines, Items, Outside, Exploded;
    if r.Spans? {
      TextsSnoc(lines[a..i], lines[i]);
      assert lines[a..i] + [lines[i]] == lines[a..i + 1];
      TextsOnly(lines[a..i + 1]);
      RenderTexts(lines[a..i + 1]);
      OtherLinesConcat(Texts(lines[a..i + 1]), p.chunks);
      ItemsConcat(Texts(lines[a..i + 1]), p.chunks);
      RenderConcat(Texts(lines[a..i + 1]), p.chunks);
      OutsideFrom(lines, r.spans, a, i + 1);
      ExplodedFrom(lines, r.spans, a, i + 1);
    }
  }

  lemma {:induction false} TextsSnoc(s: seq<string>, l: string)
    ensures Texts(s + [l]) == Texts(s) + [Text(l)]
  {
    if s != [] {
      assert (s + [l])[1..] == s[1..] + [l];
      TextsSnoc(s[1..], l);
    }
  }

  // ------------------------------------------------------- the statement's text

  function JoinLines(lines: seq<string>): string {
    if lines == [] then "" else if |lines| == 1 then lines[0] else lines[0] + "\n" + JoinLines(lines[1..])
  }

  function SkipSpace(s: string): (t: string)
    ensures |t| <= |s|
  {
    if s != "" && Space(s[0]) then SkipSpace(s[1..]) else s
  }

  /** The first ']' from `at` on. */
  function CloseBracket(l: string, at: nat): (i: nat)
    requires at <= |l|
    ensures at <= i <= |l| && (i < |l| ==> l[i] == ']')
    ensures forall k :: at <= k < i ==> l[k] != ']'
    decreases |l| - at
  {
    if at == |l| || l[at] == ']' then at else CloseBracket(l, at + 1)
  }

  /** Attributes in front, each up to its first ']'. */
  function SkipAttrs(s: string): string
    decreases |s|
  {
    if !StartsWith(s, "#[") then s
    else
      var c := CloseBracket(s, 2);
      if c == |s| then s else SkipAttrs(SkipSpace(s[c + 1..]))
  }

  function SkipPub(s: string): string {
    if !StartsWith(s, "pub") then s
    else if StartsWith(s, "pub(") && CloseParen(s, 4) < |s| then s[CloseParen(s, 4) + 1..]
    else s[3..]
  }

  /** What follows `use`, or the whole text if there is none. */
  function StripHead(s: string): string {
    var t := SkipSpace(SkipPub(SkipAttrs(SkipSpace(s))));
    if StartsWith(t, "use") && |t| > 3 && Space(t[3]) then t[4..] else s
  }

  /** White space runs become one space, none at the ends. */
  function Collapse(s: string): string {
    if s == "" then "" else if Space(s[0]) then Collapse(s[1..]) else [s[0]] + CollapseRest(s[1..])
  }

  function CollapseRest(s: string): string {
    if s == "" then ""
    else if Space(s[0]) then (var r := Collapse(s[1..]); if r == "" then "" else " " + r)
    else [s[0]] + CollapseRest(s[1..])
  }

  /** The length of the punctuation token at the start: `::`, a brace or a comma. */
  function Token(s: string): (n: nat)
    ensures n <= |s|
  {
    if StartsWith(s, "::") then 2 else if s != "" && s[0] in {'{', '}', ','} then 1 else 0
  }

  /** White space around punctuation goes. */
  function Tighten(s: string): string
    decreases |s|
  {
    if s == "" then ""
    else
      var t := SkipSpace(s);
      if Token(t) > 0 then t[..Token(t)] + Tighten(SkipSpace(t[Token(t)..]))
      else [s[0]] + Tighten(s[1..])
  }

  function StripSemicolons(s: string): string {
    if s != "" && s[|s| - 1] == ';' then StripSemicolons(s[..|s| - 1]) else s
  }

  function TrimEnd(s: string): string {
    if s != "" && Space(s[|s| - 1]) then TrimEnd(s[..|s| - 1]) else s
  }

  /** `flatten`'s clean-up of a statement before the walk. */
  function Clean(block: seq<string>): string {
    StripSemicolons(TrimEnd(SkipSpace(Tighten(Collapse(StripHead(JoinLines(block)))))))
  }

  /** `flatten`. */
  function BindingsOf(block: seq<string>): seq<Binding> {
    Walk("", Clean(block))
  }

  // ------------------------------------------------------- explode

  /** The attribute lines of a block: `#[` to `]` on one line. */
  function AttrsOf(block: seq<string>): seq<string> {
    if block == [] then []
    else (if IsAttr(block[0]) && block[0][|block[0]| - 1] == ']' then [block[0]] else []) + AttrsOf(block[1..])
  }

  /** The visibility of the first `use` line. */
  function BlockVis(block: seq<string>): string {
    if block == [] then "" else if VisOf(block[0]).Vis? then VisOf(block[0]).text else BlockVis(block[1..])
  }

  /** One path, with ` as` only where the name is not the path's own. */
  function PathText(b: Binding): string {
    if Last(SplitPath(b.full)) == b.name || b.name == "*" then b.full else b.full + " as " + b.name
  }

  function LineOf(vis: string, b: Binding): string {
    vis + "use " + PathText(b) + ";"
  }

  function RewriteEach(attrs: seq<string>, vis: string, bs: seq<Binding>): seq<string> {
    if bs == [] then [] else attrs + [LineOf(vis, bs[0])] + RewriteEach(attrs, vis, bs[1..])
  }

  function Rewrite(block: seq<string>): seq<string> {
    RewriteEach(AttrsOf(block), BlockVis(block), BindingsOf(block))
  }

  function Render(c: seq<Chunk>): seq<string> {
    if c == [] then [] else (if c[0].Text? then [c[0].line] else Rewrite(c[0].block)) + Render(c[1..])
  }

  lemma {:induction false} RenderConcat(a: seq<Chunk>, b: seq<Chunk>)
    ensures Render(a + b) == Render(a) + Render(b)
  {
    hide Rewrite;
    if a == [] {
      assert a + b == b;
    } else {
      assert (a + b)[1..] == a[1..] + b;
      RenderConcat(a[1..], b);
    }
  }

  lemma {:induction false} RenderTexts(lines: seq<string>)
    ensures Render(Texts(lines)) == lines
  {
    if lines != [] {
      RenderTexts(lines[1..]);
      assert Texts(lines)[1..] == Texts(lines[1..]);
    }
  }

  /** The spans replaced, everything else copied. */
  function Exploded(lines: seq<string>, spans: seq<Span>, last: nat): seq<string>
    requires Ordered(spans, last, |lines|) && last <= |lines|
  {
    if spans == [] then lines[last..]
    else
      TailOrdered(spans, last, |lines|);
      lines[last..spans[0].first]
        + (Rewrite(lines[spans[0].first..spans[0].last + 1]) + Exploded(lines, spans[1..], spans[0].last + 1))
  }

  /** `explode`: grow `out` span by span, `last` following behind. */
  method Explode(lines: seq<string>) returns (r: Parsed, out: seq<string>)
    ensures r == Parse(lines, [])
    ensures r.Chunks? ==> out == Render(r.chunks)
  {
    hide VisOf, Ends, IsAttr, Brackets, Rewrite, Render, Parse, Scan, Exploded, OtherLines, Outside, Items, BlocksOf,
         Tiles, SpansAre, RunsOff;
    out := [];
    var s, _, _, _ := ModuleUses(lines);
    ParseIsScan(lines, 0, NoMark);
    assert lines[0..0] == [] && lines[0..] == lines;
    r := Parse(lines, []);
    if s.Crash? {
      return;
    }
    var last: nat := 0;
    assert s.spans[0..] == s.spans;
    for k := 0 to |s.spans|
      invariant last <= |lines| && Ordered(s.spans[k..], last, |lines|)
      invariant Exploded(lines, s.spans, 0) == out + Exploded(lines, s.spans[k..], last)
    {
      var span := s.spans[k];
      NextSpan(lines, s.spans, k, last, out);
      out := out + lines[last..span.first];
      out := out + Rewrite(lines[span.first..span.last + 1]);
      last := span.last + 1;
    }
    assert s.spans[|s.spans|..] == [];
    LastSpan(lines, last);
    out := out + lines[last..];
  }

  lemma FirstSpan(lines: seq<string>, spans: seq<Span>, last: nat)
    requires spans != [] && last <= |lines| && Ordered(spans, last, |lines|)
    ensures var f, e := spans[0].first, spans[0].last + 1;
      && Ordered(spans[1..], e, |lines|)
      && Exploded(lines, spans, last) == lines[last..f] + (Rewrite(lines[f..e]) + Exploded(lines, spans[1..], e))
  {
  }

  lemma NextSpan(lines: seq<string>, spans: seq<Span>, k: nat, last: nat, out: seq<string>)
    requires k < |spans| && last <= |lines| && Ordered(spans[k..], last, |lines|)
    ensures last <= spans[k].first <= spans[k].last < |lines| && Ordered(spans[k + 1..], spans[k].last + 1, |lines|)
    ensures out + Exploded(lines, spans[k..], last)
         == out + lines[last..spans[k].first] + Rewrite(lines[spans[k].first..spans[k].last + 1])
           + Exploded(lines, spans[k + 1..], spans[k].last + 1)
  {
    hide Rewrite, Exploded;
    assert spans[k..][0] == spans[k] && spans[k..][1..] == spans[k + 1..];
    FirstSpan(lines, spans[k..], last);
  }

  lemma LastSpan(lines: seq<string>, last: nat)
    requires last <= |lines|
    ensures Exploded(lines, [], last) == lines[last..]
  {
  }

  // ------------------------------------------------------- what the pieces are

  /** `all` is the pieces one after the other, piece k from one place of the list to the next. */
  ghost predicate Laid(all: seq<string>, pieces: seq<seq<string>>, at: seq<nat>) {
    && |at| == |pieces| + 1 && at[0] == 0 && at[|pieces|] == |all|
    && (forall k :: 0 <= k < |pieces| ==> Stands(all, at, k, pieces[k]))
  }

  ghost predicate Stands(all: seq<string>, at: seq<nat>, k: nat, piece: seq<string>) {
    k + 1 < |at| && at[k] <= at[k + 1] <= |all| && all[at[k]..at[k + 1]] == piece
  }

  lemma LaidMore(all: seq<string>, pieces: seq<seq<string>>, at: seq<nat>, piece: seq<string>)
    requires Laid(all, pieces, at)
    ensures Laid(all + piece, pieces + [piece], at + [|all + piece|])
  {
    var more, at' := pieces + [piece], at + [|all + piece|];
    forall k | 0 <= k < |more| ensures Stands(all + piece, at', k, more[k]) {
      if k < |pieces| {
        assert Stands(all, at, k, pieces[k]);
        assert (all + piece)[at[k]..at[k + 1]] == all[at[k]..at[k + 1]];
      }
    }
  }

  lemma {:induction false} LaidConcat(a: seq<seq<string>>, b: seq<seq<string>>, all: seq<string>, ata: seq<nat>,
                                      more: seq<string>, atb: seq<nat>) returns (at: seq<nat>)
    requires Laid(all, a, ata) && Laid(more, b, atb)
    ensures Laid(all + more, a + b, at)
    decreases |b|
  {
    if b == [] {
      assert all + more == all && a + b == a;
      at := ata;
    } else {
      var n := |b| - 1;
      assert Stands(more, atb, n, b[n]);
      var less := more[..atb[n]];
      LaidLess(more, b, atb);
      at := LaidConcat(a, b[..n], all, ata, less, atb[..n + 1]);
      LaidMore(all + less, a + b[..n], at, b[n]);
      assert a + b[..n] + [b[n]] == a + b && all + less + b[n] == all + more;
      at := at + [|all + more|];
    }
  }

  lemma LaidLess(all: seq<string>, pieces: seq<seq<string>>, at: seq<nat>)
    requires Laid(all, pieces, at) && pieces != []
    ensures var n := |pieces| - 1;
      at[n] <= |all| && Laid(all[..at[n]], pieces[..n], at[..n + 1])
  {
    var n := |pieces| - 1;
    assert Stands(all, at, n, pieces[n]);
    Ascending(all, pieces, at, n);
    forall k | 0 <= k < n ensures Stands(all[..at[n]], at[..n + 1], k, pieces[..n][k]) {
      assert Stands(all, at, k, pieces[k]) && at[k + 1] <= at[n];
    }
  }

  lemma {:induction false} Ascending(all: seq<string>, pieces: seq<seq<string>>, at: seq<nat>, n: nat)
    requires Laid(all, pieces, at) && n <= |pieces|
    ensures forall k :: 0 <= k <= n ==> at[k] <= at[n]
  {
    if n > 0 {
      Ascending(all, pieces, at, n - 1);
      assert Stands(all, at, n - 1, pieces[n - 1]);
    }
  }

  /** The lines of each chunk. */
  ghost function ChunkLines(c: seq<Chunk>): (p: seq<seq<string>>)
    ensures |p| == |c| && forall k :: 0 <= k < |c| ==> p[k] == if c[k].Text? then [c[k].line] else c[k].block
  {
    seq(|c|, k requires 0 <= k < |c| => if c[k].Text? then [c[k].line] else c[k].block)
  }

  lemma ChunkLinesConcat(a: seq<Chunk>, b: seq<Chunk>)
    ensures ChunkLines(a + b) == ChunkLines(a) + ChunkLines(b)
  {
  }

  /** Nothing is lost: the file is its chunks, one after the other. */
  lemma {:induction false} ParseCuts(lines: seq<string>, pend: seq<string>) returns (at: seq<nat>)
    requires Parse(lines, pend).Chunks?
    ensures Laid(pend + lines, ChunkLines(Parse(lines, pend).chunks), at)
    decreases |lines|
  {
    hide Parse, Laid, VisOf, Ends, IsAttr, Brackets, ChunkLines;
    if lines == [] {
      ParseNothing(pend);
      assert pend + lines == pend;
      at := TextsLaid(pend);
    } else if IsAttr(lines[0]) {
      var k := AttrEnd(lines, 0, Brackets(lines[0])) + 1;
      ParseAttrFirst(lines, pend);
      at := ParseCuts(lines[k..], pend + lines[..k]);
      Regroup(pend, lines, k);
    } else if VisOf(lines[0]).Vis? {
      var e := EndOf(lines, 0);
      ParseUseFirst(lines, pend);
      at := ParseCuts(lines[e + 1..], []);
      at := UseThen(pend, lines, e, at);
    } else {
      assert lines == [lines[0]] + lines[1..];
      ParseTextFirst(lines[0], lines[1..], pend);
      at := ParseCuts(lines[1..], []);
      at := TextThen(pend, lines, at);
    }
  }

  lemma UseThen(pend: seq<string>, lines: seq<string>, e: nat, more: seq<nat>) returns (at: seq<nat>)
    requires e < |lines| && Parse(lines[e + 1..], []).Chunks?
    requires Laid([] + lines[e + 1..], ChunkLines(Parse(lines[e + 1..], []).chunks), more)
    ensures Laid(pend + lines, ChunkLines([Use(pend + lines[..e + 1])] + Parse(lines[e + 1..], []).chunks), at)
  {
    hide Parse, Laid, ChunkLines;
    var head, rest := pend + lines[..e + 1], lines[e + 1..];
    Regroup(pend, lines, e + 1);
    at := ThenLaid([Use(head)], head, UseLaid(head), Parse(rest, []).chunks, rest, more);
  }

  lemma TextThen(pend: seq<string>, lines: seq<string>, more: seq<nat>) returns (at: seq<nat>)
    requires lines != [] && Parse(lines[1..], []).Chunks?
    requires Laid([] + lines[1..], ChunkLines(Parse(lines[1..], []).chunks), more)
    ensures Laid(pend + lines, ChunkLines(Texts(pend) + [Text(lines[0])] + Parse(lines[1..], []).chunks), at)
  {
    hide Parse, Laid, ChunkLines, Texts;
    var head, rest := pend + [lines[0]], lines[1..];
    assert lines[..1] == [lines[0]];
    Regroup(pend, lines, 1);
    TextsSnoc(pend, lines[0]);
    at := ThenLaid(Texts(head), head, TextsLaid(head), Parse(rest, []).chunks, rest, more);
  }

  lemma Regroup(pend: seq<string>, lines: seq<string>, k: nat)
    requires k <= |lines|
    ensures pend + lines[..k] + lines[k..] == pend + lines
  {
  }

  lemma ThenLaid(a: seq<Chunk>, la: seq<string>, ata: seq<nat>, b: seq<Chunk>, lb: seq<string>, atb: seq<nat>)
    returns (at: seq<nat>)
    requires Laid(la, ChunkLines(a), ata) && Laid([] + lb, ChunkLines(b), atb)
    ensures Laid(la + lb, ChunkLines(a + b), at)
  {
    assert [] + lb == lb;
    ChunkLinesConcat(a, b);
    at := LaidConcat(ChunkLines(a), ChunkLines(b), la, ata, lb, atb);
  }

  lemma ParseNothing(pend: seq<string>)
    ensures Parse([], pend) == Chunks(Texts(pend))
  {
  }

  ghost function TextsLaid(lines: seq<string>): (at: seq<nat>)
    ensures Laid(lines, ChunkLines(Texts(lines)), at)
  {
    TextsEach(lines);
    var at := seq(|lines| + 1, i requires 0 <= i => i);
    assert forall k :: 0 <= k < |lines| ==> Stands(lines, at, k, [lines[k]]);
    at
  }

  lemma {:induction false} TextsEach(lines: seq<string>)
    ensures |Texts(lines)| == |lines| && forall k :: 0 <= k < |lines| ==> Texts(lines)[k] == Text(lines[k])
  {
    if lines != [] { TextsEach(lines[1..]); }
  }

  ghost function UseLaid(block: seq<string>): (at: seq<nat>)
    ensures Laid(block, ChunkLines([Use(block)]), at)
  {
    assert Stands(block, [0, |block|], 0, block);
    [0, |block|]
  }

  /** The other lines and the items are those of the chunks, in their order. */
  lemma {:induction false} PartsAre(c: seq<Chunk>) returns (texts: seq<nat>, uses: seq<nat>)
    ensures |texts| == |OtherLines(c)| && |uses| == |Items(c)|
    ensures forall k :: 0 <= k < |c| ==> (k in texts <==> c[k].Text?) && (k in uses <==> c[k].Use?)
    ensures forall i :: 0 <= i < |texts| ==> texts[i] < |c| && c[texts[i]] == Text(OtherLines(c)[i])
    ensures forall i :: 0 <= i < |uses| ==> uses[i] < |c| && c[uses[i]] == Use(Items(c)[i])
    ensures forall i, j :: 0 <= i < j < |texts| ==> texts[i] < texts[j]
    ensures forall i, j :: 0 <= i < j < |uses| ==> uses[i] < uses[j]
  {
    texts, uses := PartsTo(c);
  }

  /** The places of the other lines and of the items. */
  ghost predicate TextsAt(c: seq<Chunk>, lines: seq<string>, at: seq<nat>) {
    && |at| == |lines| && (forall k :: 0 <= k < |c| ==> (k in at <==> c[k].Text?))
    && (forall i :: 0 <= i < |at| ==> at[i] < |c| && c[at[i]] == Text(lines[i]))
    && (forall i, j :: 0 <= i < j < |at| ==> at[i] < at[j])
  }

  ghost predicate UsesAt(c: seq<Chunk>, blocks: seq<seq<string>>, at: seq<nat>) {
    && |at| == |blocks| && (forall k :: 0 <= k < |c| ==> (k in at <==> c[k].Use?))
    && (forall i :: 0 <= i < |at| ==> at[i] < |c| && c[at[i]] == Use(blocks[i]))
    && (forall i, j :: 0 <= i < j < |at| ==> at[i] < at[j])
  }

  lemma {:induction false} PartsTo(c: seq<Chunk>) returns (texts: seq<nat>, uses: seq<nat>)
    ensures TextsAt(c, OtherLines(c), texts) && UsesAt(c, Items(c), uses)
  {
    hide TextsAt, UsesAt, OtherLines, Items;
    if c == [] {
      NoParts();
      texts, uses := [], [];
    } else {
      var n := |c| - 1;
      texts, uses := PartsTo(c[..n]);
      texts, uses := PartsNext(c[..n], c[n], texts, uses);
      assert c == c[..n] + [c[n]];
    }
  }

  lemma PartsNext(c: seq<Chunk>, x: Chunk, texts: seq<nat>, uses: seq<nat>) returns (texts': seq<nat>, uses': seq<nat>)
    requires TextsAt(c, OtherLines(c), texts) && UsesAt(c, Items(c), uses)
    ensures TextsAt(c + [x], OtherLines(c + [x]), texts') && UsesAt(c + [x], Items(c + [x]), uses')
  {
    hide TextsAt, UsesAt, OtherLines, Items;
    OneMoreChunk(c, x);
    TextNext(c, OtherLines(c), texts, x);
    UseNext(c, Items(c), uses, x);
    if x.Text? { texts', uses' := texts + [|c|], uses; } else { texts', uses' := texts, uses + [|c|]; }
  }

  lemma NoParts()
    ensures TextsAt([], OtherLines([]), []) && UsesAt([], Items([]), [])
  {
  }

  lemma OneMoreChunk(front: seq<Chunk>, x: Chunk)
    ensures OtherLines(front + [x]) == if x.Text? then OtherLines(front) + [x.line] else OtherLines(front)
    ensures Items(front + [x]) == if x.Use? then Items(front) + [x.block] else Items(front)
  {
    OtherLinesConcat(front, [x]);
    ItemsConcat(front, [x]);
    OneChunk(x);
  }

  lemma OneChunk(c: Chunk)
    ensures OtherLines([c]) == if c.Text? then [c.line] else []
    ensures Items([c]) == if c.Use? then [c.block] else []
  {
  }

  lemma TextNext(c: seq<Chunk>, lines: seq<string>, at: seq<nat>, x: Chunk)
    requires TextsAt(c, lines, at)
    ensures x.Text? ==> TextsAt(c + [x], lines + [x.line], at + [|c|])
    ensures x.Use? ==> TextsAt(c + [x], lines, at)
  {
  }

  lemma UseNext(c: seq<Chunk>, blocks: seq<seq<string>>, at: seq<nat>, x: Chunk)
    requires UsesAt(c, blocks, at)
    ensures x.Use? ==> UsesAt(c + [x], blocks + [x.block], at + [|c|])
    ensures x.Text? ==> UsesAt(c + [x], blocks, at)
  {
  }

  /** What each chunk is written as: a line that is none of a `use` as it is, an item rewritten. */
  ghost function Written(c: seq<Chunk>): (p: seq<seq<string>>)
    ensures |p| == |c| && forall k :: 0 <= k < |c| ==> p[k] == if c[k].Text? then [c[k].line] else Rewrite(c[k].block)
  {
    seq(|c|, k requires 0 <= k < |c| => if c[k].Text? then [c[k].line] else Rewrite(c[k].block))
  }

  /** The text written is that, chunk by chunk and in the order of the file. */
  lemma {:induction false} RenderAt(c: seq<Chunk>) returns (at: seq<nat>)
    ensures Laid(Render(c), Written(c), at)
  {
    hide Rewrite, Laid, Render, Written;
    if c == [] {
      at := [0];
      NothingLaid();
    } else {
      var n := |c| - 1;
      assert c == c[..n] + [c[n]];
      at := RenderAt(c[..n]);
      RenderConcat(c[..n], [c[n]]);
      RenderOne(c[n]);
      LaidMore(Render(c[..n]), Written(c[..n]), at, Render([c[n]]));
      assert Written(c) == Written(c[..n]) + [Render([c[n]])];
      at := at + [|Render(c)|];
    }
  }

  lemma NothingLaid()
    ensures Laid(Render([]), Written([]), [0])
  {
  }

  lemma RenderOne(c: Chunk)
    ensures Render([c]) == if c.Text? then [c.line] else Rewrite(c.block)
  {
    hide Rewrite;
  }

  /** An item rewritten is, for each thing it binds in order, its attribute lines and then one `use` with
      its visibility: the path, and ` as` and the name where that is neither the path's last name nor `*`. */
  lemma RewriteIs(block: seq<string>, k: nat)
    requires k < |BindingsOf(block)|
    ensures var attrs, b := AttrsOf(block), BindingsOf(block)[k];
      && |Rewrite(block)| == |BindingsOf(block)| * (|attrs| + 1)
      && ItemAt(Rewrite(block), k * (|attrs| + 1), attrs, BlockVis(block) + "use " + b.full
           + (if b.name == SplitPath(b.full)[|SplitPath(b.full)| - 1] || b.name == "*" then "" else " as " + b.name)
           + ";")
  {
    var attrs, vis, bs := AttrsOf(block), BlockVis(block), BindingsOf(block);
    hide *;
    RewriteAt(attrs, vis, bs, k);
    LineIsText(vis, bs[k]);
    RewriteMeans(block);
  }

  /** At this place stand the attributes and then the line. */
  ghost predicate ItemAt(out: seq<string>, at: int, attrs: seq<string>, line: string) {
    0 <= at && at + |attrs| < |out| && out[at..at + |attrs|] == attrs && out[at + |attrs|] == line
  }

  lemma RewriteMeans(block: seq<string>)
    ensures Rewrite(block) == RewriteEach(AttrsOf(block), BlockVis(block), BindingsOf(block))
  {
  }

  lemma LineIsText(vis: string, b: Binding)
    ensures LineOf(vis, b) == vis + "use " + b.full
           + (if b.name == SplitPath(b.full)[|SplitPath(b.full)| - 1] || b.name == "*" then "" else " as " + b.name)
           + ";"
  {
    hide SplitPath;
    assert b.full + "" == b.full;
    if PathText(b) == b.full {
      assert vis + "use " + b.full == vis + "use " + b.full + "";
    } else {
      assert vis + "use " + (b.full + " as " + b.name) == vis + "use " + b.full + (" as " + b.name);
    }
  }

  lemma {:induction false} RewriteAt(attrs: seq<string>, vis: string, bs: seq<Binding>, k: nat)
    requires k < |bs|
    ensures |RewriteEach(attrs, vis, bs)| == |bs| * (|attrs| + 1)
    ensures ItemAt(RewriteEach(attrs, vis, bs), k * (|attrs| + 1), attrs, LineOf(vis, bs[k]))
    decreases k
  {
    hide LineOf, ItemAt;
    var one, more := attrs + [LineOf(vis, bs[0])], RewriteEach(attrs, vis, bs[1..]);
    RewriteSize(attrs, vis, bs);
    assert RewriteEach(attrs, vis, bs) == one + more;
    if k == 0 {
      FirstItem(attrs, LineOf(vis, bs[0]), more);
    } else {
      RewriteAt(attrs, vis, bs[1..], k - 1);
      LaterItem(one, more, (k - 1) * (|attrs| + 1), attrs, LineOf(vis, bs[k]));
      OneMoreTime(k, |attrs| + 1);
    }
  }

  lemma OneMoreTime(k: int, n: int)
    ensures n + (k - 1) * n == k * n
  {
  }

  lemma FirstItem(attrs: seq<string>, line: string, more: seq<string>)
    ensures ItemAt(attrs + [line] + more, 0, attrs, line)
  {
    assert (attrs + [line] + more)[..|attrs|] == attrs;
  }

  lemma LaterItem(one: seq<string>, more: seq<string>, at: int, attrs: seq<string>, line: string)
    requires ItemAt(more, at, attrs, line)
    ensures ItemAt(one + more, |one| + at, attrs, line)
  {
    var out := one + more;
    assert out[|one| + at..|one| + at + |attrs|] == more[at..at + |attrs|];
  }

  lemma {:induction false} RewriteSize(attrs: seq<string>, vis: string, bs: seq<Binding>)
    ensures |RewriteEach(attrs, vis, bs)| == |bs| * (|attrs| + 1)
  {
    if bs != [] {
      RewriteSize(attrs, vis, bs[1..]);
      assert |bs| * (|attrs| + 1) == |attrs| + 1 + (|bs| - 1) * (|attrs| + 1);
    }
  }

  /** The attribute lines kept are the lines that start with `#[` and end with `]`, in their order. */
  lemma {:induction false} AttrsAre(block: seq<string>) returns (at: seq<nat>)
    ensures |at| == |AttrsOf(block)|
    ensures forall i :: 0 <= i < |block| ==>
        (i in at <==> "#[" <= block[i] && block[i][|block[i]| - 1] == ']')
    ensures forall i :: 0 <= i < |at| ==> at[i] < |block| && AttrsOf(block)[i] == block[at[i]]
    ensures forall i, j :: 0 <= i < j < |at| ==> at[i] < at[j]
  {
    at := AttrsTo(block);
  }

  ghost predicate KeptLine(l: string) { "#[" <= l && l[|l| - 1] == ']' }

  /** The places of the attribute lines. */
  ghost predicate AttrsAt(block: seq<string>, kept: seq<string>, at: seq<nat>) {
    && |at| == |kept| && (forall i :: 0 <= i < |block| ==> (i in at <==> KeptLine(block[i])))
    && (forall i :: 0 <= i < |at| ==> at[i] < |block| && kept[i] == block[at[i]])
    && (forall i, j :: 0 <= i < j < |at| ==> at[i] < at[j])
  }

  lemma {:induction false} AttrsTo(block: seq<string>) returns (at: seq<nat>)
    ensures AttrsAt(block, AttrsOf(block), at)
  {
    hide AttrsAt, AttrsOf, KeptLine;
    if block == [] {
      NoAttrs();
      at := [];
    } else {
      var n := |block| - 1;
      at := AttrsTo(block[..n]);
      AttrsSnoc(block[..n], block[n]);
      AttrNext(block[..n], AttrsOf(block[..n]), at, block[n]);
      if KeptLine(block[n]) { at := at + [n]; }
      assert block == block[..n] + [block[n]];
    }
  }

  lemma NoAttrs()
    ensures AttrsOf([]) == [] && AttrsAt([], AttrsOf([]), [])
  {
  }

  lemma AttrNext(block: seq<string>, kept: seq<string>, at: seq<nat>, l: string)
    requires AttrsAt(block, kept, at)
    ensures KeptLine(l) ==> AttrsAt(block + [l], kept + [l], at + [|block|])
    ensures !KeptLine(l) ==> AttrsAt(block + [l], kept, at)
  {
    hide KeptLine;
  }

  lemma AttrsFirst(l: string, rest: seq<string>)
    ensures AttrsOf([l] + rest) == if KeptLine(l) then [l] + AttrsOf(rest) else AttrsOf(rest)
  {
    LineIs(l);
    assert ([l] + rest)[1..] == rest;
  }

  lemma {:induction false} AttrsSnoc(block: seq<string>, l: string)
    ensures AttrsOf(block + [l]) == if KeptLine(l) then AttrsOf(block) + [l] else AttrsOf(block)
  {
    hide AttrsOf, KeptLine;
    if block == [] {
      NoAttrs();
      AttrsFirst(l, []);
      assert block + [l] == [l] + [];
    } else {
      AttrsFirst(block[0], block[1..]);
      AttrsFirst(block[0], block[1..] + [l]);
      AttrsSnoc(block[1..], l);
      assert block == [block[0]] + block[1..] && block + [l] == [block[0]] + (block[1..] + [l]);
    }
  }

  /** The visibility is that of the first line that begins as a `use` does. */
  lemma {:induction false} VisOfFirst(block: seq<string>, k: nat, vis: string)
    requires k < |block| && Heads(block[k], vis) && forall i, v :: 0 <= i < k ==> !Heads(block[i], v)
    ensures BlockVis(block) == vis
    decreases k
  {
    hide VisOf, Heads;
    if k == 0 {
      VisIs(block[0], vis);
    } else {
      HeadsNot(block[0]);
      assert block[1..][k - 1] == block[k] && forall i :: 0 <= i < k - 1 ==> block[1..][i] == block[i + 1];
      VisOfFirst(block[1..], k - 1, vis);
    }
  }

  lemma HeadsNot(l: string)
    requires forall v :: !Heads(l, v)
    ensures VisOf(l) == NotUse
  {
    hide VisOf, Heads;
    if VisOf(l).Vis? { VisIs(l, VisOf(l).text); }
  }
}
