/** `use` trees: their printed form and the parser that flattens it to (bound name, full path)
    pairs (tools/use-only-diff.py, `flatten`). */
module UseTree {
  import opened Text

  // ------------------------------------------------------- strings

  /** Anything but punctuation, brackets and white space may be part of a name. */
  predicate Plain(c: char) {
    c !in {':', '{', '}', ',', ';', '[', ']'} && !Space(c)
  }

  predicate Ident(s: string) {
    s != "" && forall i :: 0 <= i < |s| ==> Plain(s[i])
  }

  predicate Idents(segs: seq<string>) {
    forall i :: 0 <= i < |segs| ==> Ident(segs[i])
  }

  /** The segments with `::` between them. */
  function JoinPath(segs: seq<string>): string {
    if segs == [] then ""
    else if |segs| == 1 then segs[0]
    else segs[0] + "::" + JoinPath(segs[1..])
  }

  /** `s.split("::")`. */
  function SplitPath(s: string): (r: seq<string>)
    ensures r != []
  {
    if s == "" then [""]
    else if |s| >= 2 && s[0] == ':' && s[1] == ':' then [""] + SplitPath(s[2..])
    else
      var r := SplitPath(s[1..]);
      [[s[0]] + r[0]] + r[1..]
  }

  function Last(segs: seq<string>): string
    requires segs != []
  {
    segs[|segs| - 1]
  }

  predicate NoColon(s: string) {
    forall i :: 0 <= i < |s| ==> s[i] != ':'
  }

  lemma {:induction false} SplitSegment(s: string, rest: string)
    requires NoColon(s)
    ensures SplitPath(s + "::" + rest) == [s] + SplitPath(rest)
    ensures SplitPath(s) == [s]
  {
    if s == "" {
      assert s + "::" + rest == "::" + rest && ("::" + rest)[2..] == rest;
    } else {
      var t := s + "::" + rest;
      assert t[1..] == s[1..] + "::" + rest && t[0] == s[0];
      SplitSegment(s[1..], rest);
      assert [s[0]] + s[1..] == s;
    }
  }

  lemma {:induction false} SplitJoin(segs: seq<string>)
    requires segs != [] && Idents(segs)
    ensures SplitPath(JoinPath(segs)) == segs
  {
    hide SplitPath, Ident;
    IdentNoColon(segs[0]);
    if |segs| == 1 {
      SplitSegment(segs[0], "");
    } else {
      var rest := JoinPath(segs[1..]);
      assert JoinPath(segs) == segs[0] + "::" + rest;
      SplitSegment(segs[0], rest);
      SplitJoin(segs[1..]);
      assert segs == [segs[0]] + segs[1..];
    }
  }

  lemma IdentNoColon(s: string)
    requires Ident(s)
    ensures NoColon(s)
  {
  }

  lemma {:induction false} JoinConcat(a: seq<string>, b: seq<string>)
    requires a != [] && b != []
    ensures JoinPath(a + b) == JoinPath(a) + "::" + JoinPath(b)
  {
    if |a| == 1 {
      assert (a + b)[1..] == b;
    } else {
      assert (a + b)[1..] == a[1..] + b;
      JoinConcat(a[1..], b);
      assert a[0] + "::" + (JoinPath(a[1..]) + "::" + JoinPath(b)) == JoinPath(a) + "::" + JoinPath(b);
    }
  }

  /** A path is made of name characters and colons, and starts and ends with a name character. */
  lemma {:induction false} JoinChars(segs: seq<string>)
    requires segs != [] && Idents(segs)
    ensures JoinPath(segs) != ""
    ensures forall i :: 0 <= i < |JoinPath(segs)| ==> Plain(JoinPath(segs)[i]) || JoinPath(segs)[i] == ':'
    ensures Plain(JoinPath(segs)[0]) && Plain(JoinPath(segs)[|JoinPath(segs)| - 1])
  {
    assert Ident(segs[0]);
    if |segs| > 1 { JoinChars(segs[1..]); }
  }

  /** What splitting leaves: with `::` between them again the segments are the text, each `::` taken
      from the left, so that none is left inside a segment. */
  lemma {:induction false} SplitIs(s: string)
    ensures JoinPath(SplitPath(s)) == s
    ensures forall k, i :: 0 <= k < |SplitPath(s)| && 0 <= i < |SplitPath(s)[k]| - 1 ==>
        !(SplitPath(s)[k][i] == ':' && SplitPath(s)[k][i + 1] == ':')
    ensures |s| >= 2 && s[0] == ':' && s[1] == ':' ==> SplitPath(s)[0] == ""
    ensures s != "" && !(|s| >= 2 && s[0] == ':' && s[1] == ':') ==> SplitPath(s)[0] != "" && SplitPath(s)[0][0] == s[0]
  {
    SplitRejoins(s);
    NoPairLeft(s);
  }

  /** One step of the splitting. */
  lemma SplitStep(s: string)
    requires s != ""
    ensures |s| >= 2 && s[0] == ':' && s[1] == ':' ==> SplitPath(s) == [""] + SplitPath(s[2..])
    ensures !(|s| >= 2 && s[0] == ':' && s[1] == ':') ==>
        SplitPath(s) == [[s[0]] + SplitPath(s[1..])[0]] + SplitPath(s[1..])[1..]
  {
  }

  lemma {:induction false} SplitRejoins(s: string)
    ensures JoinPath(SplitPath(s)) == s
  {
    if s != "" {
      SplitStep(s);
      hide SplitPath;
      if |s| >= 2 && s[0] == ':' && s[1] == ':' {
        SplitRejoins(s[2..]);
        JoinFront("", SplitPath(s[2..]));
        assert s == "" + "::" + s[2..];
      } else {
        SplitRejoins(s[1..]);
        JoinChar(s[0], SplitPath(s[1..]));
        assert s == [s[0]] + s[1..];
      }
    }
  }

  lemma JoinFront(first: string, r: seq<string>)
    requires r != []
    ensures JoinPath([first] + r) == first + "::" + JoinPath(r)
  {
    assert ([first] + r)[1..] == r;
  }

  lemma JoinChar(c: char, r: seq<string>)
    requires r != []
    ensures JoinPath([[c] + r[0]] + r[1..]) == [c] + JoinPath(r)
  {
    assert r == [r[0]] + r[1..];
    if |r| > 1 {
      JoinFront([c] + r[0], r[1..]);
      JoinFront(r[0], r[1..]);
      Regroup(c, r[0], JoinPath(r[1..]));
    }
  }

  lemma Regroup(c: char, a: string, b: string)
    ensures [c] + (a + "::" + b) == [c] + a + "::" + b
  {
  }

  /** No two colons in a row. */
  ghost predicate NoPair(s: string) {
    forall i :: 0 <= i < |s| - 1 ==> !(s[i] == ':' && s[i + 1] == ':')
  }

  lemma {:induction false} NoPairLeft(s: string)
    ensures forall k :: 0 <= k < |SplitPath(s)| ==> NoPair(SplitPath(s)[k])
    ensures |s| >= 2 && s[0] == ':' && s[1] == ':' ==> SplitPath(s)[0] == ""
    ensures s != "" && !(|s| >= 2 && s[0] == ':' && s[1] == ':') ==> SplitPath(s)[0] != "" && SplitPath(s)[0][0] == s[0]
    ensures s == "" ==> SplitPath(s)[0] == ""
  {
    if s != "" {
      SplitStep(s);
      hide SplitPath;
      if |s| >= 2 && s[0] == ':' && s[1] == ':' {
        NoPairLeft(s[2..]);
      } else {
        NoPairLeft(s[1..]);
        var r := SplitPath(s[1..]);
        assert NoPair(r[0]);
        assert NoPair([s[0]] + r[0]);
        forall k | 0 <= k < |SplitPath(s)| ensures NoPair(SplitPath(s)[k]) {
          if k > 0 { assert SplitPath(s)[k] == r[k]; }
        }
      }
    }
  }

  // ------------------------------------------------------- the parser

  datatype Binding = Binding(name: string, full: string)

  function Delta(c: char): int { if c == '{' then 1 else if c == '}' then -1 else 0 }

  /** The parts between the commas outside all braces. */
  function SplitFrom(s: string, depth: int, cur: string): (parts: seq<string>)
    ensures parts != [] && forall i :: 0 <= i < |parts| ==> |parts[i]| <= |cur| + |s|
    decreases |s|
  {
    if s == "" then [cur]
    else
      var d := depth + Delta(s[0]);
      if s[0] == ',' && d == 0 then [cur] + SplitFrom(s[1..], d, "")
      else SplitFrom(s[1..], d, cur + [s[0]])
  }

  /** `s.rstrip(":")`. */
  function StripColons(s: string): string {
    if s != "" && s[|s| - 1] == ':' then StripColons(s[..|s| - 1]) else s
  }

  /** A part that ends in a brace is split at its first `::{`. */
  predicate HasHead(p: string) {
    p != "" && p[|p| - 1] == '}' && Find(p, "::{", 0) + 3 < |p|
  }

  predicate IsGroup(p: string) {
    HasHead(p) || (p != "" && p[0] == '{')
  }

  function HeadOf(p: string): string {
    if HasHead(p) then p[..Find(p, "::{", 0)] else ""
  }

  /** What is between the braces of a group. */
  function InnerOf(p: string): (inner: string)
    requires IsGroup(p)
    ensures |inner| < |p|
  {
    if HasHead(p) then p[Find(p, "::{", 0) + 3..|p| - 1]
    else if |p| == 1 then "" else p[1..|p| - 1]
  }

  function LeafOf(prefix: string, p: string): Binding {
    if p == "self" then
      var path := StripColons(prefix);
      Binding(Last(SplitPath(path)), path)
    else
      var at := Find(p, " as ", 0);
      var alias := if at < |p| then p[at + 4..] else "";
      var full := prefix + (if alias != "" then p[..at] else p);
      Binding(if alias != "" then alias else Last(SplitPath(full)), full)
  }

  /** `walk`: the bindings of a comma-separated list under a path prefix. */
  function Walk(prefix: string, s: string): seq<Binding>
    decreases |s|, 2, 0
  {
    WalkParts(prefix, SplitFrom(s, 0, ""), |s|)
  }

  function WalkParts(prefix: string, parts: seq<string>, n: nat): seq<Binding>
    requires forall i :: 0 <= i < |parts| ==> |parts[i]| <= n
    decreases n, 1, |parts|
  {
    if parts == [] then []
    else WalkPart(prefix, parts[0]) + WalkParts(prefix, parts[1..], n)
  }

  function WalkPart(prefix: string, p: string): seq<Binding>
    decreases |p|, 0, 0
  {
    if p == "" then []
    else if IsGroup(p) then
      Walk(if HeadOf(p) != "" then prefix + HeadOf(p) + "::" else prefix, InnerOf(p))
    else [LeafOf(prefix, p)]
  }

  /** The comma splitter: a loop over the characters. */
  method SplitParts(s: string) returns (parts: seq<string>, ghost cuts: seq<int>)
    ensures parts == SplitFrom(s, 0, "")
    ensures SplitsAt(s, cuts + [|s|], parts) && CutsTo(s, cuts, |s|)
  {
    hide SplitsAt, Opened, SplitFrom, CutsTo;
    parts, cuts := [], [-1];
    NoCuts(s);
    var depth, cur := 0, "";
    assert s[0..] == s;
    for i := 0 to |s|
      invariant SplitFrom(s, 0, "") == parts + SplitFrom(s[i..], depth, cur)
      invariant SplitsAt(s, cuts, parts) && cuts != [] && -1 <= cuts[|cuts| - 1] < i && depth == Opened(s, i)
      invariant cur == s[cuts[|cuts| - 1] + 1..i]
      invariant CutsTo(s, cuts, i)
    {
      SplitNext(s, i, depth, cur);
      OpenedNext(s, i);
      CutsNext(s, cuts, i);
      assert s[cuts[|cuts| - 1] + 1..i + 1] == s[cuts[|cuts| - 1] + 1..i] + [s[i]];
      depth := depth + Delta(s[i]);
      if s[i] == ',' && depth == 0 {
        CutHere(s, cuts, parts, i);
        parts := parts + [cur];
        cuts := cuts + [i];
        cur := "";
      } else {
        cur := cur + [s[i]];
      }
    }
    SplitEnd(s, depth, cur);
    CutHere(s, cuts, parts, |s|);
    parts := parts + [cur];
  }

  lemma SplitNext(s: string, i: nat, depth: int, cur: string)
    requires i < |s|
    ensures var d := depth + Delta(s[i]);
      SplitFrom(s[i..], depth, cur)
        == if s[i] == ',' && d == 0 then [cur] + SplitFrom(s[i + 1..], d, "")
           else SplitFrom(s[i + 1..], d, cur + [s[i]])
  {
    assert s[i..][0] == s[i] && s[i..][1..] == s[i + 1..];
  }

  lemma SplitEnd(s: string, depth: int, cur: string)
    ensures SplitFrom(s[|s|..], depth, cur) == [cur]
  {
    assert s[|s|..] == "";
  }

  lemma NoCuts(s: string)
    ensures SplitsAt(s, [-1], []) && Opened(s, 0) == 0 && CutsTo(s, [-1], 0)
  {
  }

  /** The braces open before place i. */
  ghost function Opened(s: string, i: nat): int
    requires i <= |s|
  {
    multiset(s[..i])['{'] as int - multiset(s[..i])['}'] as int
  }

  /** Of the places before n the commas outside all braces are in the list, and no place from n on. */
  ghost predicate CutsTo(s: string, cuts: seq<int>, n: nat) {
    forall i :: 0 <= i < |s| ==> (i in cuts <==> i < n && s[i] == ',' && Opened(s, i) == 0)
  }

  lemma CutsNext(s: string, cuts: seq<int>, n: nat)
    requires n < |s| && CutsTo(s, cuts, n)
    ensures s[n] == ',' && Opened(s, n) == 0 ==> CutsTo(s, cuts + [n], n + 1)
    ensures !(s[n] == ',' && Opened(s, n) == 0) ==> CutsTo(s, cuts, n + 1)
  {
    hide Opened;
  }

  lemma OpenedNext(s: string, i: nat)
    requires i < |s|
    ensures Opened(s, i + 1) == Opened(s, i) + Delta(s[i])
  {
    assert s[..i + 1] == s[..i] + [s[i]];
  }

  lemma CutHere(s: string, cuts: seq<int>, parts: seq<string>, i: nat)
    requires SplitsAt(s, cuts, parts) && cuts[|cuts| - 1] < i <= |s|
    ensures SplitsAt(s, cuts + [i], parts + [s[cuts[|cuts| - 1] + 1..i]])
  {
  }

  /** The parts are what stands between consecutive places of a list that starts before the text. */
  ghost predicate SplitsAt(s: string, cuts: seq<int>, parts: seq<string>) {
    && |cuts| == |parts| + 1 && cuts[0] == -1 && (forall k :: 0 <= k < |cuts| ==> -1 <= cuts[k] <= |s|)
    && (forall k :: 0 <= k < |parts| ==> cuts[k] < cuts[k + 1] && parts[k] == s[cuts[k] + 1..cuts[k + 1]])
  }

  /** `walk` as it runs: split, then a loop over the non-empty parts. */
  method Flatten(prefix: string, s: string) returns (out: seq<Binding>)
    ensures out == Walk(prefix, s)
    decreases |s|
  {
    hide SplitFrom, SplitPath, Find, InnerOf, WalkPart, WalkParts, LeafOf, IsGroup, HeadOf;
    var parts, _ := SplitParts(s);
    out := [];
    NextPart(prefix, parts, 0, |s|);
    for k := 0 to |parts|
      invariant Walk(prefix, s) == out + WalkParts(prefix, parts[k..], |s|)
    {
      var p := parts[k];
      NextPart(prefix, parts, k, |s|);
      PartCases(prefix, p);
      if p == "" {
        continue;
      }
      if IsGroup(p) {
        var more := Flatten(if HeadOf(p) != "" then prefix + HeadOf(p) + "::" else prefix, InnerOf(p));
        out := out + more;
      } else {
        out := out + [LeafOf(prefix, p)];
      }
    }
    NextPart(prefix, parts, |parts|, |s|);
  }

  lemma NextPart(prefix: string, parts: seq<string>, k: nat, n: nat)
    requires k <= |parts| && forall i :: 0 <= i < |parts| ==> |parts[i]| <= n
    ensures parts[0..] == parts && (k == |parts| ==> WalkParts(prefix, parts[k..], n) == [])
    ensures k < |parts| ==>
        WalkParts(prefix, parts[k..], n) == WalkPart(prefix, parts[k]) + WalkParts(prefix, parts[k + 1..], n)
  {
  }

  lemma PartCases(prefix: string, p: string)
    ensures p == "" ==> WalkPart(prefix, p) == []
    ensures p != "" && IsGroup(p) ==>
        WalkPart(prefix, p) == Walk(if HeadOf(p) != "" then prefix + HeadOf(p) + "::" else prefix, InnerOf(p))
    ensures p != "" && !IsGroup(p) ==> WalkPart(prefix, p) == [LeafOf(prefix, p)]
  {
  }

  // ------------------------------------------------------- the parts of any text

  /** A part that ends in a brace is a group at its first `::{`, whatever is inside. */
  lemma HeadedPart(prefix: string, head: string, inner: string)
    requires forall k :: 0 <= k < |head| ==> !Occurs(head + "::{" + inner + "}", "::{", k)
    ensures WalkPart(prefix, head + "::{" + inner + "}")
         == Walk(if head == "" then prefix else prefix + head + "::", inner)
  {
    var p := head + "::{" + inner + "}";
    hide Walk;
    assert p[|head|..|head| + 3] == "::{" && p[|p| - 1] == '}';
    assert Occurs(p, "::{", |head|) && Find(p, "::{", 0) == |head|;
    assert p[..|head|] == head && p[|head| + 3..|p| - 1] == inner;
  }

  /** One that starts with a brace and is no such group is walked without its first and last character. */
  lemma BracedPart(prefix: string, inner: string, c: char)
    requires c == '}' ==> forall k :: 0 <= k < |inner| + 2 ==> !Occurs("{" + inner + [c], "::{", k)
    ensures WalkPart(prefix, "{" + inner + [c]) == Walk(prefix, inner)
    ensures WalkPart(prefix, "{") == Walk(prefix, "")
  {
    var p := "{" + inner + [c];
    hide Walk;
    assert p[0] == '{' && p[1..|p| - 1] == inner && p[|p| - 1] == c;
    assert c == '}' ==> Find(p, "::{", 0) == |p|;
  }

  /** Any other binds one name: `self` the last segment of the prefix without its colons; text with a
      name behind its first ` as ` that name; and the rest the last segment of the whole path. */
  lemma OtherPart(prefix: string, p: string)
    requires p != "" && p[0] != '{'
    requires p[|p| - 1] == '}' ==> forall k :: 0 <= k < |p| ==> !Occurs(p, "::{", k)
    ensures |WalkPart(prefix, p)| == 1
    ensures var b := WalkPart(prefix, p)[0];
      && (p == "self" ==>
            && b.name == SplitPath(b.full)[|SplitPath(b.full)| - 1] && b.full <= prefix
            && (forall i :: |b.full| <= i < |prefix| ==> prefix[i] == ':')
            && (b.full != "" ==> b.full[|b.full| - 1] != ':'))
      && (forall path: string, name: string :: AliasIn(p, path, name) ==> b == Binding(name, prefix + path))
      && (p != "self" && (forall k :: 0 <= k < |p| - 4 ==> !Occurs(p, " as ", k)) ==>
            b.full == prefix + p && b.name == SplitPath(b.full)[|SplitPath(b.full)| - 1])
  {
    OneLeaf(prefix, p);
    hide *;
    if p == "self" { SelfLeafOf(prefix); }
    forall path: string, name: string | AliasIn(p, path, name)
      ensures p != "self" && LeafOf(prefix, p) == Binding(name, prefix + path)
    {
      AliasLeaf(prefix, p, path, name);
    }
    if p != "self" && (forall k :: 0 <= k < |p| - 4 ==> !Occurs(p, " as ", k)) { PlainLeaf(prefix, p); }
  }

  lemma OneLeaf(prefix: string, p: string)
    requires p != "" && p[0] != '{'
    requires p[|p| - 1] == '}' ==> forall k :: 0 <= k < |p| ==> !Occurs(p, "::{", k)
    ensures WalkPart(prefix, p) == [LeafOf(prefix, p)]
  {
    hide Walk, LeafOf;
    assert !IsGroup(p);
  }

  lemma SelfLeafOf(prefix: string)
    ensures var b := LeafOf(prefix, "self");
      && b.name == SplitPath(b.full)[|SplitPath(b.full)| - 1] && b.full <= prefix
      && (forall i :: |b.full| <= i < |prefix| ==> prefix[i] == ':')
      && (b.full != "" ==> b.full[|b.full| - 1] != ':')
  {
    hide SplitPath;
    StripIs(prefix);
  }

  lemma AliasLeaf(prefix: string, p: string, path: string, name: string)
    requires AliasIn(p, path, name)
    ensures p != "self" && LeafOf(prefix, p) == Binding(name, prefix + path)
  {
    hide SplitPath, Find;
    AliasAt(path, name);
  }

  lemma PlainLeaf(prefix: string, p: string)
    requires p != "self" && forall k :: 0 <= k < |p| - 4 ==> !Occurs(p, " as ", k)
    ensures var b := LeafOf(prefix, p);
      b.full == prefix + p && b.name == SplitPath(b.full)[|SplitPath(b.full)| - 1]
  {
    hide SplitPath;
    var at := Find(p, " as ", 0);
    assert at < |p| ==> p[at + 4..] == "";
  }

  /** The text up to its first ` as ` and the name behind it. */
  ghost predicate AliasIn(p: string, path: string, name: string) {
    p == path + " as " + name && name != "" && forall k :: 0 <= k < |path| ==> !Occurs(p, " as ", k)
  }

  lemma AliasAt(path: string, name: string)
    requires forall k :: 0 <= k < |path| ==> !Occurs(path + " as " + name, " as ", k)
    ensures var p := path + " as " + name;
      Find(p, " as ", 0) == |path| && p[|path| + 4..] == name && p[..|path|] == path && p != "self"
  {
    var p := path + " as " + name;
    assert p[|path|..|path| + 4] == " as " && p[|path|] == ' ';
    assert Occurs(p, " as ", |path|);
  }

  /** `rstrip(":")`: the colons at the end go, and nothing else. */
  lemma {:induction false} StripIs(s: string)
    ensures var r := StripColons(s);
      && r <= s && (forall i :: |r| <= i < |s| ==> s[i] == ':') && (r != "" ==> r[|r| - 1] != ':')
  {
    if s != "" && s[|s| - 1] == ':' { StripIs(s[..|s| - 1]); }
  }

  // ------------------------------------------------------- trees

  /** A `use` tree. A glob is a path that ends in "*"; a group may have no path in front of it;
      `trailing`: a comma after the last item. */
  datatype Tree =
    | Path(segs: seq<string>)
    | Alias(segs: seq<string>, name: string)
    | SelfLeaf
    | Group(segs: seq<string>, items: seq<Tree>, trailing: bool)

  /** `prefixed`: there is a path for `self` to stand for. */
  predicate WellFormed(t: Tree, prefixed: bool) {
    match t
    case Path(segs) => segs != [] && Idents(segs) && segs != ["self"]
    case Alias(segs, name) => segs != [] && Idents(segs) && segs != ["self"] && Ident(name) && name != "*"
    case SelfLeaf => prefixed
    case Group(segs, items, _) =>
      Idents(segs) && forall i :: 0 <= i < |items| ==> WellFormed(items[i], prefixed || segs != [])
  }

  predicate AllWellFormed(items: seq<Tree>, prefixed: bool) {
    forall i :: 0 <= i < |items| ==> WellFormed(items[i], prefixed)
  }

  function Print(t: Tree): string
    decreases t, 0
  {
    match t
    case Path(segs) => JoinPath(segs)
    case Alias(segs, name) => JoinPath(segs) + " as " + name
    case SelfLeaf => "self"
    case Group(segs, items, trailing) => OpenText(segs) + PrintItems(items, trailing) + "}"
  }

  /** What comes before the items of a group. */
  function OpenText(segs: seq<string>): string {
    if segs == [] then "{" else JoinPath(segs) + "::{"
  }

  function PrintItems(items: seq<Tree>, trailing: bool): string
    decreases items, 1
  {
    if items == [] then (if trailing then "," else "")
    else if |items| == 1 && !trailing then Print(items[0])
    else if |items| == 1 then Print(items[0]) + ","
    else Print(items[0]) + "," + PrintItems(items[1..], trailing)
  }

  /** What the tree binds, in order: names and full paths under the prefix. */
  function Bindings(prefix: seq<string>, t: Tree): seq<Binding>
    requires t.SelfLeaf? ==> prefix != []
    requires WellFormed(t, prefix != [])
    decreases t, 0
  {
    match t
    case Path(segs) => [Binding(Last(segs), JoinPath(prefix + segs))]
    case Alias(segs, name) => [Binding(name, JoinPath(prefix + segs))]
    case SelfLeaf => [Binding(Last(prefix), JoinPath(prefix))]
    case Group(segs, items, _) => ItemBindings(prefix + segs, items)
  }

  function ItemBindings(prefix: seq<string>, items: seq<Tree>): seq<Binding>
    requires AllWellFormed(items, prefix != [])
    decreases items, 1
  {
    if items == [] then [] else Bindings(prefix, items[0]) + ItemBindings(prefix, items[1..])
  }

  /** What a leaf binds, in text: a path binds the text after its last `::`, an alias the new name,
      `self` the last name of the prefix; the full path is the prefix, `::` and the leaf's own path. */
  lemma LeafBinds(prefix: seq<string>, t: Tree)
    requires !t.Group? && Idents(prefix) && WellFormed(t, prefix != [])
    ensures |Bindings(prefix, t)| == 1
    ensures var b := Bindings(prefix, t)[0];
      var own := if t.SelfLeaf? then "" else JoinPath(t.segs);
      && b.full == JoinPath(prefix) + (if prefix == [] || t.SelfLeaf? then "" else "::") + own
      && (!t.Alias? ==> NoColon(b.name) && (b.full == b.name || exists head: string :: b.full == head + "::" + b.name))
      && (t.Alias? ==> b.name == t.name && Print(t) == own + " as " + t.name)
      && (t.Path? ==> Print(t) == own) && (t.SelfLeaf? ==> Print(t) == "self")
  {
    hide JoinPath, Idents;
    match t
    case Path(segs) =>
      LeafPathIs(prefix, segs);
      IdentsConcat(prefix, segs);
      LastName(prefix + segs);
      assert Last(prefix + segs) == Last(segs);
    case Alias(segs, name) =>
      LeafPathIs(prefix, segs);
    case SelfLeaf =>
      assert JoinPath(prefix) + "" + "" == JoinPath(prefix);
      LastName(prefix);
  }

  lemma LeafPathIs(prefix: seq<string>, segs: seq<string>)
    requires segs != []
    ensures JoinPath(prefix + segs) == JoinPath(prefix) + (if prefix == [] then "" else "::") + JoinPath(segs)
  {
    if prefix == [] {
      assert prefix + segs == segs && JoinPath(prefix) == "";
    } else {
      JoinConcat(prefix, segs);
    }
  }

  /** The last segment is the text after the last `::`. */
  lemma LastName(segs: seq<string>)
    requires segs != [] && Idents(segs)
    ensures NoColon(Last(segs))
    ensures JoinPath(segs) == Last(segs) || exists head: string :: JoinPath(segs) == head + "::" + Last(segs)
  {
    var n := |segs| - 1;
    assert Ident(segs[n]);
    IdentNoColon(segs[n]);
    assert segs == segs[..n] + [segs[n]];
    if n > 0 {
      JoinConcat(segs[..n], [segs[n]]);
      assert JoinPath(segs) == JoinPath(segs[..n]) + "::" + Last(segs);
    }
  }

  /** A group binds what its items bind, in their order, under the prefix and the group's own path. */
  lemma GroupBinds(prefix: seq<string>, segs: seq<string>, t: Tree, items: seq<Tree>, trailing: bool)
    requires WellFormed(t, prefix + segs != []) && Idents(segs) && AllWellFormed(items, prefix + segs != [])
    ensures Bindings(prefix, Group(segs, [], trailing)) == []
    ensures AllWellFormed([t] + items, prefix + segs != [])
    ensures Bindings(prefix, Group(segs, [t] + items, trailing))
         == Bindings(prefix + segs, t) + Bindings(prefix, Group(segs, items, trailing))
  {
    assert ([t] + items)[1..] == items;
  }

  /** A group is printed as its path, if it has one, with `::`, then its items between braces, commas
      between them and after the last if it is written so. */
  lemma GroupPrints(segs: seq<string>, t: Tree, items: seq<Tree>, trailing: bool)
    ensures Print(Group(segs, items, trailing))
         == (if segs == [] then "" else JoinPath(segs) + "::") + "{" + PrintItems(items, trailing) + "}"
    ensures PrintItems([t], false) == Print(t) && PrintItems([t], true) == Print(t) + "," && PrintItems([], false) == ""
    ensures items != [] ==> PrintItems([t] + items, trailing) == Print(t) + "," + PrintItems(items, trailing)
  {
    ItemsPrint(t, items, trailing);
    OpenIs(segs);
    hide JoinPath, OpenText, PrintItems;
  }

  lemma OpenIs(segs: seq<string>)
    ensures OpenText(segs) == (if segs == [] then "" else JoinPath(segs) + "::") + "{"
  {
    hide JoinPath;
    if segs != [] { assert JoinPath(segs) + "::{" == JoinPath(segs) + "::" + "{"; }
  }

  lemma ItemsPrint(t: Tree, items: seq<Tree>, trailing: bool)
    ensures PrintItems([t], false) == Print(t) && PrintItems([t], true) == Print(t) + "," && PrintItems([], false) == ""
    ensures items != [] ==> PrintItems([t] + items, trailing) == Print(t) + "," + PrintItems(items, trailing)
  {
    hide Print;
    assert ([t] + items)[1..] == items;
  }

  // ------------------------------------------------------- printed trees split where they should

  /** Scanning `s` from depth d meets no comma outside all braces. */
  predicate NoTopComma(s: string, d: int)
    decreases |s|
  {
    s == "" || (!(s[0] == ',' && d == 0) && NoTopComma(s[1..], d + Delta(s[0])))
  }

  function DepthAfter(s: string, d: int): int
    decreases |s|
  {
    if s == "" then d else DepthAfter(s[1..], d + Delta(s[0]))
  }

  lemma {:induction false} ScanConcat(s: string, t: string, d: int)
    ensures NoTopComma(s + t, d) <==> NoTopComma(s, d) && NoTopComma(t, DepthAfter(s, d))
    ensures DepthAfter(s + t, d) == DepthAfter(t, DepthAfter(s, d))
    decreases |s|
  {
    if s == "" {
      assert s + t == t;
    } else {
      assert (s + t)[1..] == s[1..] + t;
      ScanConcat(s[1..], t, d + Delta(s[0]));
    }
  }

  lemma {:induction false} ScanNames(s: string, d: int)
    requires forall i :: 0 <= i < |s| ==> s[i] !in {'{', '}', ','}
    ensures NoTopComma(s, d) && DepthAfter(s, d) == d
    decreases |s|
  {
    if s != "" { ScanNames(s[1..], d); }
  }

  lemma {:induction false} SplitPasses(s: string, rest: string, d: int, cur: string)
    requires NoTopComma(s, d)
    ensures SplitFrom(s + rest, d, cur) == SplitFrom(rest, DepthAfter(s, d), cur + s)
    decreases |s|
  {
    if s == "" {
      assert s + rest == rest && cur + s == cur;
    } else {
      assert (s + rest)[1..] == s[1..] + rest;
      SplitPasses(s[1..], rest, d + Delta(s[0]), cur + [s[0]]);
      assert cur + [s[0]] + s[1..] == cur + s;
    }
  }

  lemma {:induction false} ScanTree(t: Tree, prefixed: bool, d: nat)
    requires WellFormed(t, prefixed)
    ensures NoTopComma(Print(t), d) && DepthAfter(Print(t), d) == d
    decreases t, 0
  {
    match t
    case Path(segs) =>
      JoinChars(segs);
      ScanNames(JoinPath(segs), d);
    case Alias(segs, name) =>
      JoinChars(segs);
      ScanNames(JoinPath(segs) + " as " + name, d);
    case SelfLeaf =>
      ScanNames("self", d);
    case Group(segs, items, trailing) =>
      var inner := PrintItems(items, trailing);
      ScanHead(segs, d);
      ScanConcat(OpenText(segs) + inner, "}", d);
      ScanConcat(OpenText(segs), inner, d);
      ScanOpen(d);
      ScanItems(items, trailing, prefixed || segs != [], d + 1);
  }

  lemma ScanHead(segs: seq<string>, d: int)
    requires Idents(segs)
    ensures NoTopComma(OpenText(segs), d) && DepthAfter(OpenText(segs), d) == d + 1
  {
    ScanOpen(d);
    if segs != [] {
      JoinChars(segs);
      ScanNames(JoinPath(segs), d);
      ScanConcat(JoinPath(segs), "::{", d);
    }
  }

  lemma ScanOpen(d: int)
    ensures NoTopComma("::{", d) && DepthAfter("::{", d) == d + 1
    ensures NoTopComma("}", d) && DepthAfter("}", d) == d - 1
    ensures NoTopComma("{", d) && DepthAfter("{", d) == d + 1
    ensures d != 0 ==> NoTopComma(",", d)
    ensures DepthAfter(",", d) == d
  {
  }

  lemma {:induction false} ScanItems(items: seq<Tree>, trailing: bool, prefixed: bool, d: nat)
    requires d > 0 && AllWellFormed(items, prefixed)
    ensures NoTopComma(PrintItems(items, trailing), d) && DepthAfter(PrintItems(items, trailing), d) == d
    decreases items, 1
  {
    ScanOpen(d);
    if items != [] {
      ScanTree(items[0], prefixed, d);
      ScanConcat(Print(items[0]), ",", d);
      if |items| > 1 {
        ScanConcat(Print(items[0]) + ",", PrintItems(items[1..], trailing), d);
        ScanItems(items[1..], trailing, prefixed, d);
      }
    }
  }

  /** The parts of a printed list: its items, and an empty part after a trailing comma. */
  function ItemParts(items: seq<Tree>, trailing: bool): seq<string> {
    if items == [] then (if trailing then ["", ""] else [""])
    else if |items| == 1 then [Print(items[0])] + (if trailing then [""] else [])
    else [Print(items[0])] + ItemParts(items[1..], trailing)
  }

  lemma {:induction false} SplitItems(items: seq<Tree>, trailing: bool, prefixed: bool)
    requires AllWellFormed(items, prefixed)
    ensures SplitFrom(PrintItems(items, trailing), 0, "") == ItemParts(items, trailing)
    decreases |items|
  {
    if items == [] {
      SplitAtComma("", "");
      assert "," + "" == ",";
    } else {
      hide NoTopComma, DepthAfter, Print, SplitFrom, WellFormed;
      var p := Print(items[0]);
      ScanTree(items[0], prefixed, 0);
      SplitWhole(p);
      if |items| > 1 {
        SplitItems(items[1..], trailing, prefixed);
        SplitAtComma(p, PrintItems(items[1..], trailing));
        assert p + ("," + PrintItems(items[1..], trailing)) == PrintItems(items, trailing);
      } else if trailing {
        SplitAtComma(p, "");
        assert p + ("," + "") == p + ",";
        SplitEmpty();
      }
    }
  }

  lemma SplitEmpty()
    ensures SplitFrom("", 0, "") == [""]
  {
  }

  lemma SplitWhole(p: string)
    requires NoTopComma(p, 0)
    ensures SplitFrom(p, 0, "") == [p]
  {
    SplitPasses(p, "", 0, "");
    assert p + "" == p && "" + p == p;
  }

  lemma SplitAtComma(p: string, rest: string)
    requires NoTopComma(p, 0) && DepthAfter(p, 0) == 0
    ensures SplitFrom(p + ("," + rest), 0, "") == [p] + SplitFrom(rest, 0, "")
  {
    SplitPasses(p, "," + rest, 0, "");
    assert ("," + rest)[1..] == rest && "" + p == p;
  }

  // ------------------------------------------------------- flattening a printed tree

  /** The text the walk carries for a prefix. */
  function PrefixText(prefix: seq<string>): string {
    if prefix == [] then "" else JoinPath(prefix) + "::"
  }

  lemma PrefixPath(prefix: seq<string>, segs: seq<string>)
    requires segs != []
    ensures PrefixText(prefix) + JoinPath(segs) == JoinPath(prefix + segs)
    ensures PrefixText(prefix) + JoinPath(segs) + "::" == PrefixText(prefix + segs)
  {
    if prefix == [] {
      assert prefix + segs == segs;
    } else {
      JoinConcat(prefix, segs);
    }
  }

  lemma StripPrefix(prefix: seq<string>)
    requires prefix != [] && Idents(prefix)
    ensures StripColons(PrefixText(prefix)) == JoinPath(prefix)
  {
    var p := JoinPath(prefix);
    JoinChars(prefix);
    assert (p + "::")[..|p| + 1] == p + ":" && (p + ":")[..|p|] == p;
    assert StripColons(p + ":") == StripColons(p) == p;
  }

  lemma LeafPath(prefix: seq<string>, segs: seq<string>)
    requires segs != [] && Idents(segs) && Idents(prefix) && segs != ["self"]
    ensures WalkPart(PrefixText(prefix), JoinPath(segs)) == [Binding(Last(segs), JoinPath(prefix + segs))]
  {
    hide JoinPath, SplitPath, Idents, PrefixText, Walk;
    var p := JoinPath(segs);
    JoinChars(segs);
    NotGroup(p);
    NotSelf(segs);
    NoSpace(p, " as ", |p|);
    PrefixPath(prefix, segs);
    IdentsConcat(prefix, segs);
    SplitJoin(prefix + segs);
  }

  lemma IdentsConcat(a: seq<string>, b: seq<string>)
    requires Idents(a) && Idents(b)
    ensures Idents(a + b)
  {
  }

  /** Where there is no space, ` as ` does not start. */
  lemma NoSpace(p: string, sub: string, n: nat)
    requires n <= |p| && sub != "" && sub[0] == ' '
    requires forall i :: 0 <= i < n ==> p[i] != ' '
    ensures forall k :: 0 <= k < n ==> !Occurs(p, sub, k)
  {
  }

  /** Only the one-segment path `self` prints as "self". */
  lemma NotSelf(segs: seq<string>)
    requires segs != [] && Idents(segs) && segs != ["self"]
    ensures JoinPath(segs) != "self"
  {
    SplitJoin(segs);
    SplitSegment("self", "");
  }

  lemma NotGroup(p: string)
    requires p != "" && Plain(p[0]) && Plain(p[|p| - 1])
    ensures !IsGroup(p)
  {
  }

  lemma LeafAlias(prefix: seq<string>, segs: seq<string>, name: string)
    requires segs != [] && Idents(segs) && Idents(prefix) && Ident(name)
    ensures WalkPart(PrefixText(prefix), JoinPath(segs) + " as " + name) == [Binding(name, JoinPath(prefix + segs))]
  {
    hide JoinPath, SplitPath, Idents, PrefixText, Walk;
    var q := JoinPath(segs);
    var p := q + " as " + name;
    JoinChars(segs);
    NotGroup(p);
    assert p[|q|] == ' ' && "self"[0] != ' ' && "self"[1] != ' ' && "self"[2] != ' ' && "self"[3] != ' ';
    assert p[|q|..|q| + 4] == " as " && p[|q| + 4..] == name && p[..|q|] == q;
    NoSpace(p, " as ", |q|);
    assert Occurs(p, " as ", |q|);
    assert Find(p, " as ", 0) == |q|;
    PrefixPath(prefix, segs);
  }

  /** The first `::{` after text without a brace. */
  lemma FirstOpen(q: string, rest: string)
    requires forall i :: 0 <= i < |q| ==> q[i] != '{'
    ensures Find(q + "::{" + rest, "::{", 0) == |q|
  {
    var p := q + "::{" + rest;
    assert p[|q|] == ':' && p[|q| + 1] == ':';
    assert forall j :: 0 <= j < |q| ==> p[j] == q[j];
    forall k | 0 <= k < |q| ensures !Occurs(p, "::{", k) {
      assert p[k + 2] != '{' == "::{"[2];
      assert p[k..k + 3][2] == p[k + 2];
    }
    assert p[|q|..|q| + 3] == "::{";
    assert Occurs(p, "::{", |q|);
  }

  lemma GroupParts(segs: seq<string>, inner: string)
    requires segs != [] && Idents(segs)
    ensures var p := JoinPath(segs) + "::{" + inner + "}";
      IsGroup(p) && HeadOf(p) == JoinPath(segs) && InnerOf(p) == inner
  {
    var q := JoinPath(segs);
    JoinChars(segs);
    hide JoinPath, Idents, Find;
    var p := q + "::{" + inner + "}";
    assert p == q + "::{" + (inner + "}");
    FirstOpen(q, inner + "}");
    assert p[|q| + 3..|p| - 1] == inner && p[..|q|] == q && p[|p| - 1] == '}';
  }

  // ------------------------------------------------------- groups without a path

  /** A group with a path is in the tree. */
  predicate HasPathGroup(t: Tree) {
    t.Group? && (t.segs != [] || exists i :: 0 <= i < |t.items| && HasPathGroup(t.items[i]))
  }

  /** A group without a path around one that has a path: taken apart at the inner `::{`. */
  predicate Misread(t: Tree) {
    t.Group? && t.segs == [] && HasPathGroup(t)
  }

  /** No group is misread. */
  predicate Direct(t: Tree) {
    !Misread(t) && (t.Group? ==> forall i :: 0 <= i < |t.items| ==> Direct(t.items[i]))
  }

  predicate Binds(t: Tree) {
    t.Group? ==> exists i :: 0 <= i < |t.items| && Binds(t.items[i])
  }

  /** Only groups that bind nothing are misread, and what they are misread as binds nothing, too. */
  predicate Quiet(t: Tree) {
    if Misread(t) then !Binds(t) && WalkPart("", Print(t)) == []
    else t.Group? ==> forall i :: 0 <= i < |t.items| ==> Quiet(t.items[i])
  }

  /** No group is empty. */
  predicate Filled(t: Tree) {
    t.Group? ==> t.items != [] && forall i :: 0 <= i < |t.items| ==> Filled(t.items[i])
  }

  /** Without empty groups every group binds something, and quiet trees have no misread one. */
  lemma {:induction false} FilledQuiet(t: Tree)
    requires Filled(t)
    ensures Binds(t) && (Quiet(t) <==> Direct(t))
  {
    hide WalkPart;
    if t.Group? {
      forall i | 0 <= i < |t.items| ensures Binds(t.items[i]) && (Quiet(t.items[i]) <==> Direct(t.items[i])) {
        FilledQuiet(t.items[i]);
      }
      assert Binds(t.items[0]);
    }
  }

  lemma {:induction false} DirectQuiet(t: Tree)
    requires Direct(t)
    ensures Quiet(t)
  {
    hide WalkPart;
    if t.Group? {
      forall i | 0 <= i < |t.items| ensures Quiet(t.items[i]) { DirectQuiet(t.items[i]); }
    }
  }

  /** No brace follows a colon. */
  predicate Tame(s: string) {
    forall k :: 0 < k < |s| && s[k] == '{' ==> s[k - 1] != ':'
  }

  lemma TameConcat(a: string, b: string)
    requires Tame(a) && Tame(b) && (a != "" && b != "" && b[0] == '{' ==> a[|a| - 1] != ':')
    ensures Tame(a + b)
  {
    var s := a + b;
    forall k | 0 < k < |s| && s[k] == '{' ensures s[k - 1] != ':' {
      if k > |a| { assert s[k] == b[k - |a|] && s[k - 1] == b[k - 1 - |a|]; }
    }
  }

  lemma TameNoOpen(s: string)
    requires Tame(s)
    ensures Find(s, "::{", 0) == |s|
  {
    assert "::{"[1] == ':' && "::{"[2] == '{';
    forall k: nat | k + 3 <= |s| ensures !Occurs(s, "::{", k) {
      assert s[k..k + 3][1] == s[k + 1] && s[k..k + 3][2] == s[k + 2];
    }
  }

  /** The printed form of a tree without path groups has no `::{`. */
  lemma {:induction false} PrintTame(t: Tree, prefixed: bool)
    requires WellFormed(t, prefixed) && !HasPathGroup(t)
    ensures Tame(Print(t)) && Print(t) != "" && Print(t)[|Print(t)| - 1] != ':'
    decreases t, 0
  {
    match t
    case Path(segs) => JoinChars(segs);
    case Alias(segs, name) => JoinChars(segs);
    case SelfLeaf =>
    case Group(segs, items, trailing) =>
      var inner := PrintItems(items, trailing);
      ItemsTame(items, trailing, prefixed);
      TameConcat("{", inner);
      TameConcat("{" + inner, "}");
  }

  lemma {:induction false} ItemsTame(items: seq<Tree>, trailing: bool, prefixed: bool)
    requires AllWellFormed(items, prefixed) && forall i :: 0 <= i < |items| ==> !HasPathGroup(items[i])
    ensures Tame(PrintItems(items, trailing))
    decreases items, 1
  {
    if items != [] {
      PrintTame(items[0], prefixed);
      TameConcat(Print(items[0]), ",");
      if |items| > 1 {
        ItemsTame(items[1..], trailing, prefixed);
        TameConcat(Print(items[0]) + ",", PrintItems(items[1..], trailing));
      }
    }
  }

  /** The printed form of a tree with a path group has one. */
  lemma {:induction false} PrintOpens(t: Tree, prefixed: bool) returns (k: nat)
    requires WellFormed(t, prefixed) && HasPathGroup(t)
    ensures Occurs(Print(t), "::{", k) && k + 3 < |Print(t)|
    decreases t, 0
  {
    hide JoinPath, WellFormed, Occurs;
    var inner := PrintItems(t.items, t.trailing);
    if t.segs != [] {
      OccursWhole("::{");
      k := |JoinPath(t.segs)|;
      OccursIn(JoinPath(t.segs), "::{", inner + "}", "::{", 0);
      assert JoinPath(t.segs) + "::{" + (inner + "}") == Print(t);
    } else {
      BareItems(t, prefixed);
      k := ItemsOpen(t.items, t.trailing, prefixed);
      OccursIn("{", inner, "}", "::{", k);
      k := k + 1;
    }
  }

  lemma OccursWhole(sub: string)
    ensures Occurs(sub, sub, 0)
  {
  }

  lemma BareItems(t: Tree, prefixed: bool)
    requires t.Group? && t.segs == [] && WellFormed(t, prefixed)
    ensures AllWellFormed(t.items, prefixed)
  {
  }

  lemma OccursIn(a: string, b: string, c: string, sub: string, k: nat)
    requires Occurs(b, sub, k)
    ensures Occurs(a + b + c, sub, |a| + k) && k + |sub| <= |b|
  {
    var s := a + b + c;
    assert s[|a| + k..|a| + k + |sub|] == b[k..k + |sub|];
  }

  lemma {:induction false} ItemsOpen(items: seq<Tree>, trailing: bool, prefixed: bool) returns (k: nat)
    requires AllWellFormed(items, prefixed) && exists i :: 0 <= i < |items| && HasPathGroup(items[i])
    ensures Occurs(PrintItems(items, trailing), "::{", k)
    decreases items, 1
  {
    hide Print, WellFormed, Occurs, HasPathGroup;
    var s, first := PrintItems(items, trailing), Print(items[0]);
    if HasPathGroup(items[0]) {
      k := PrintOpens(items[0], prefixed);
      assert first <= s;
      OccursIn("", first, s[|first|..], "::{", k);
      assert "" + first + s[|first|..] == s;
    } else {
      var i :| 0 <= i < |items| && HasPathGroup(items[i]);
      assert items[1..][i - 1] == items[i];
      var rest := PrintItems(items[1..], trailing);
      k := ItemsOpen(items[1..], trailing, prefixed);
      OccursIn(first + ",", rest, "", "::{", k);
      assert first + "," + rest + "" == s;
      k := |first| + 1 + k;
    }
  }

  /** How a group without a path reads: as itself, or with a brace in its head. */
  lemma BareGroup(items: seq<Tree>, trailing: bool, prefixed: bool)
    requires AllWellFormed(items, prefixed)
    ensures var t := Group([], items, trailing); var p := Print(t);
      && IsGroup(p)
      && (!Misread(t) ==> HeadOf(p) == "" && InnerOf(p) == PrintItems(items, trailing))
      && (Misread(t) ==> HeadOf(p) != "" && HeadOf(p)[0] == '{')
  {
    var t := Group([], items, trailing);
    var p, inner := Print(t), PrintItems(items, trailing);
    assert p[0] == '{' && p[1..|p| - 1] == inner;
    assert WellFormed(t, prefixed);
    if Misread(t) {
      var k := PrintOpens(t, prefixed);
      assert Find(p, "::{", 0) <= k;
      assert !Occurs(p, "::{", 0) by { assert p[0..3][0] == '{'; }
    } else {
      PrintTame(t, prefixed);
      TameNoOpen(p);
    }
  }

  // ------------------------------------------------------- how much binds does not depend on the prefix

  lemma {:induction false} SameSize(prefix: string, prefix': string, s: string)
    ensures |Walk(prefix, s)| == |Walk(prefix', s)|
    decreases |s|, 2, 0
  {
    SameSizeParts(prefix, prefix', SplitFrom(s, 0, ""), |s|);
  }

  lemma {:induction false} SameSizeParts(prefix: string, prefix': string, parts: seq<string>, n: nat)
    requires forall i :: 0 <= i < |parts| ==> |parts[i]| <= n
    ensures |WalkParts(prefix, parts, n)| == |WalkParts(prefix', parts, n)|
    decreases n, 1, |parts|
  {
    if parts != [] {
      SameSizePart(prefix, prefix', parts[0]);
      SameSizeParts(prefix, prefix', parts[1..], n);
    }
  }

  lemma {:induction false} SameSizePart(prefix: string, prefix': string, p: string)
    ensures |WalkPart(prefix, p)| == |WalkPart(prefix', p)|
    decreases |p|, 0, 0
  {
    if p != "" && IsGroup(p) {
      SameSize(if HeadOf(p) != "" then prefix + HeadOf(p) + "::" else prefix,
               if HeadOf(p) != "" then prefix' + HeadOf(p) + "::" else prefix', InnerOf(p));
    }
  }

  // ------------------------------------------------------- a brace in the prefix stays

  predicate HasBrace(s: string) { '{' in s }

  lemma {:induction false} BraceStays(prefix: string, s: string)
    requires HasBrace(prefix)
    ensures forall b :: b in Walk(prefix, s) ==> HasBrace(b.full)
    decreases |s|, 2, 0
  {
    BraceStaysParts(prefix, SplitFrom(s, 0, ""), |s|);
  }

  lemma {:induction false} BraceStaysParts(prefix: string, parts: seq<string>, n: nat)
    requires HasBrace(prefix) && forall i :: 0 <= i < |parts| ==> |parts[i]| <= n
    ensures forall b :: b in WalkParts(prefix, parts, n) ==> HasBrace(b.full)
    decreases n, 1, |parts|
  {
    if parts != [] {
      BraceStaysPart(prefix, parts[0]);
      BraceStaysParts(prefix, parts[1..], n);
    }
  }

  lemma {:induction false} BraceStaysPart(prefix: string, p: string)
    requires HasBrace(prefix)
    ensures forall b :: b in WalkPart(prefix, p) ==> HasBrace(b.full)
    decreases |p|, 0, 0
  {
    if p != "" {
      if IsGroup(p) {
        BraceStays(if HeadOf(p) != "" then prefix + HeadOf(p) + "::" else prefix, InnerOf(p));
      } else if p == "self" {
        BraceUnderColons(prefix);
      }
    }
  }

  lemma {:induction false} BraceUnderColons(s: string)
    requires HasBrace(s)
    ensures HasBrace(StripColons(s))
  {
    if s[|s| - 1] == ':' {
      assert s == s[..|s| - 1] + [':'];
      BraceUnderColons(s[..|s| - 1]);
    }
  }

  /** All a misread group binds has a brace in its path. */
  lemma MisreadShows(prefix: string, t: Tree, prefixed: bool)
    requires WellFormed(t, prefixed) && Misread(t)
    ensures forall b :: b in WalkPart(prefix, Print(t)) ==> HasBrace(b.full)
  {
    var p := Print(t);
    BareGroup(t.items, t.trailing, prefixed);
    assert HasBrace(prefix + HeadOf(p) + "::") by { assert (prefix + HeadOf(p) + "::")[|prefix|] == '{'; }
    BraceStays(prefix + HeadOf(p) + "::", InnerOf(p));
  }

  predicate BraceFree(bs: seq<Binding>) {
    forall i :: 0 <= i < |bs| ==> !HasBrace(bs[i].full)
  }

  lemma {:induction false} BindingsBraceFree(prefix: seq<string>, t: Tree)
    requires Idents(prefix) && WellFormed(t, prefix != [])
    ensures BraceFree(Bindings(prefix, t)) && (Bindings(prefix, t) != [] <==> Binds(t))
    decreases t, 0
  {
    match t
    case Path(segs) => JoinChars(prefix + segs);
    case Alias(segs, name) => JoinChars(prefix + segs);
    case SelfLeaf => JoinChars(prefix);
    case Group(segs, items, _) =>
      assert Idents(prefix + segs);
      ItemsBraceFree(prefix + segs, items);
  }

  lemma {:induction false} ItemsBraceFree(prefix: seq<string>, items: seq<Tree>)
    requires Idents(prefix) && AllWellFormed(items, prefix != [])
    ensures BraceFree(ItemBindings(prefix, items))
    ensures ItemBindings(prefix, items) != [] <==> exists i :: 0 <= i < |items| && Binds(items[i])
    decreases items, 1
  {
    if items != [] {
      BindingsBraceFree(prefix, items[0]);
      ItemsBraceFree(prefix, items[1..]);
      assert (exists i :: 0 <= i < |items| && Binds(items[i])) <==>
          Binds(items[0]) || exists i :: 0 <= i < |items[1..]| && Binds(items[1..][i]) by {
        forall i | 0 < i < |items| ensures items[i] == items[1..][i - 1] {}
      }
    }
  }

  // ------------------------------------------------------- the round trip

  /** How the walk of a printed group that is not misread goes on. */
  lemma GroupWalk(prefix: seq<string>, segs: seq<string>, items: seq<Tree>, trailing: bool)
    requires Idents(prefix) && WellFormed(Group(segs, items, trailing), prefix != [])
        && !Misread(Group(segs, items, trailing))
    ensures forall i :: 0 <= i < |ItemParts(items, trailing)| ==>
        |ItemParts(items, trailing)[i]| <= |PrintItems(items, trailing)|
    ensures WalkPart(PrefixText(prefix), Print(Group(segs, items, trailing)))
         == WalkParts(PrefixText(prefix + segs), ItemParts(items, trailing), |PrintItems(items, trailing)|)
  {
    var inner := PrintItems(items, trailing);
    SplitItems(items, trailing, prefix != [] || segs != []);
    if segs == [] {
      BareGroup(items, trailing, prefix != []);
      assert prefix + segs == prefix;
    } else {
      JoinChars(segs);
      GroupParts(segs, inner);
      PrefixPath(prefix, segs);
      assert JoinPath(segs) + "::{" + inner + "}" == Print(Group(segs, items, trailing));
    }
  }

  /** Round trip: walking the printed form of a quiet tree gives exactly what the tree binds, in
      order. */
  lemma {:induction false} FlattenPrint(prefix: seq<string>, t: Tree)
    requires Idents(prefix) && WellFormed(t, prefix != []) && Quiet(t)
    ensures WalkPart(PrefixText(prefix), Print(t)) == Bindings(prefix, t)
    decreases t, 0
  {
    match t
    case Path(segs) => LeafPath(prefix, segs);
    case Alias(segs, name) => LeafAlias(prefix, segs, name);
    case SelfLeaf => LeafSelf(prefix);
    case Group(segs, items, trailing) =>
      if Misread(t) {
        SameSizePart(PrefixText(prefix), "", Print(t));
        BindingsBraceFree(prefix, t);
      } else {
        GroupWalk(prefix, segs, items, trailing);
        assert Idents(prefix + segs);
        FlattenItems(prefix + segs, items, trailing, |PrintItems(items, trailing)|);
      }
  }

  lemma LeafSelf(prefix: seq<string>)
    requires prefix != [] && Idents(prefix)
    ensures WalkPart(PrefixText(prefix), "self") == [Binding(Last(prefix), JoinPath(prefix))]
  {
    StripPrefix(prefix);
    SplitJoin(prefix);
    NotGroup("self");
  }

  lemma {:induction false} FlattenItems(prefix: seq<string>, items: seq<Tree>, trailing: bool, n: nat)
    requires Idents(prefix) && AllWellFormed(items, prefix != []) && forall i :: 0 <= i < |items| ==> Quiet(items[i])
    requires forall i :: 0 <= i < |ItemParts(items, trailing)| ==> |ItemParts(items, trailing)[i]| <= n
    ensures WalkParts(PrefixText(prefix), ItemParts(items, trailing), n) == ItemBindings(prefix, items)
    decreases items, 1
  {
    hide Print, WalkPart, JoinPath, WellFormed, PrefixText, Idents, Quiet;
    PartsStep(PrefixText(prefix), items, trailing, n);
    if items != [] {
      FlattenPrint(prefix, items[0]);
      FlattenItems(prefix, items[1..], trailing && |items| > 1, n);
    }
  }

  /** The parts of a list walk one after the other; empty parts bind nothing. */
  lemma PartsStep(text: string, items: seq<Tree>, trailing: bool, n: nat)
    requires forall i :: 0 <= i < |ItemParts(items, trailing)| ==> |ItemParts(items, trailing)[i]| <= n
    ensures items == [] ==> WalkParts(text, ItemParts(items, trailing), n) == []
    ensures items != [] ==>
        var more := ItemParts(items[1..], trailing && |items| > 1);
        && (forall i :: 0 <= i < |more| ==> |more[i]| <= n)
        && WalkParts(text, ItemParts(items, trailing), n) == WalkPart(text, Print(items[0])) + WalkParts(text, more, n)
  {
    hide Print, WalkPart;
    var parts := ItemParts(items, trailing);
    NoParts(text, n);
    if items == [] {
      assert parts[1..] == if trailing then [""] else [];
    } else if |items| == 1 {
      assert parts[1..] == if trailing then [""] else [];
      assert items[1..] == [] && ItemParts([], false) == [""];
    } else {
      assert parts[1..] == ItemParts(items[1..], trailing);
    }
  }

  lemma NoParts(text: string, n: nat)
    ensures WalkParts(text, [], n) == [] && WalkParts(text, [""], n) == []
    ensures WalkPart(text, "") == []
  {
  }

  /** A walk without braces binds no more than the tree, and as much only if the tree is quiet. */
  lemma {:induction false} WalkFallsShort(prefix: seq<string>, t: Tree)
    requires Idents(prefix) && WellFormed(t, prefix != []) && BraceFree(WalkPart(PrefixText(prefix), Print(t)))
    ensures |WalkPart(PrefixText(prefix), Print(t))| <= |Bindings(prefix, t)|
    ensures |WalkPart(PrefixText(prefix), Print(t))| == |Bindings(prefix, t)| ==> Quiet(t)
    decreases t, 0
  {
    if Misread(t) {
      MisreadShows(PrefixText(prefix), t, prefix != []);
      NoneLeft(WalkPart(PrefixText(prefix), Print(t)));
      SameSizePart(PrefixText(prefix), "", Print(t));
      BindingsBraceFree(prefix, t);
    } else if t.Group? {
      GroupWalk(prefix, t.segs, t.items, t.trailing);
      assert Idents(prefix + t.segs);
      ItemsFallShort(prefix + t.segs, t.items, t.trailing, |PrintItems(t.items, t.trailing)|);
    } else {
      FlattenPrint(prefix, t);
    }
  }

  lemma NoneLeft(bs: seq<Binding>)
    requires forall b :: b in bs ==> HasBrace(b.full)
    ensures BraceFree(bs) ==> bs == []
  {
    if bs != [] { assert bs[0] in bs; }
  }

  lemma BraceFreeParts(a: seq<Binding>, b: seq<Binding>)
    requires BraceFree(a + b)
    ensures BraceFree(a) && BraceFree(b)
  {
    assert forall i :: 0 <= i < |a| ==> (a + b)[i] == a[i];
    assert forall i :: 0 <= i < |b| ==> (a + b)[|a| + i] == b[i];
  }

  lemma {:induction false} ItemsFallShort(prefix: seq<string>, items: seq<Tree>, trailing: bool, n: nat)
    requires Idents(prefix) && AllWellFormed(items, prefix != [])
    requires forall i :: 0 <= i < |ItemParts(items, trailing)| ==> |ItemParts(items, trailing)[i]| <= n
    requires BraceFree(WalkParts(PrefixText(prefix), ItemParts(items, trailing), n))
    ensures |WalkParts(PrefixText(prefix), ItemParts(items, trailing), n)| <= |ItemBindings(prefix, items)|
    ensures |WalkParts(PrefixText(prefix), ItemParts(items, trailing), n)| == |ItemBindings(prefix, items)| ==>
        forall i :: 0 <= i < |items| ==> Quiet(items[i])
    decreases items, 1
  {
    hide Print, WalkPart, JoinPath, WellFormed, PrefixText, Idents, Quiet, BraceFree;
    PartsStep(PrefixText(prefix), items, trailing, n);
    if items != [] {
      var more := ItemParts(items[1..], trailing && |items| > 1);
      var a, b := WalkPart(PrefixText(prefix), Print(items[0])), WalkParts(PrefixText(prefix), more, n);
      BraceFreeParts(a, b);
      WalkFallsShort(prefix, items[0]);
      ItemsFallShort(prefix, items[1..], trailing && |items| > 1, n);
      assert forall i :: 0 < i < |items| ==> items[i] == items[1..][i - 1];
    }
  }

  /** Exactly when flattening is right, for every tree: when misread groups bind nothing, neither as
      they are meant nor as they are read. */
  lemma FlattenIff(prefix: seq<string>, t: Tree)
    requires Idents(prefix) && WellFormed(t, prefix != [])
    ensures WalkPart(PrefixText(prefix), Print(t)) == Bindings(prefix, t) <==> Quiet(t)
  {
    hide WalkPart, Print, Quiet;
    if Quiet(t) { FlattenPrint(prefix, t); }
    if WalkPart(PrefixText(prefix), Print(t)) == Bindings(prefix, t) {
      BindingsBraceFree(prefix, t);
      WalkFallsShort(prefix, t);
    }
  }

  /** The text after `use`: one tree. */
  lemma FlattenBody(t: Tree)
    requires WellFormed(t, false)
    ensures Walk("", Print(t)) == WalkPart("", Print(t))
    ensures Walk("", Print(t)) == Bindings([], t) <==> Quiet(t)
  {
    hide NoTopComma, DepthAfter, Print, SplitFrom, WalkPart, Quiet;
    ScanTree(t, false, 0);
    SplitWhole(Print(t));
    FlattenIff([], t);
    OnePart("", Print(t), |Print(t)|);
  }

  lemma OnePart(text: string, p: string, n: nat)
    requires |p| <= n
    ensures WalkParts(text, [p], n) == WalkPart(text, p)
  {
  }

  /** A group with no path in front, around a group that has one, is taken apart at the inner
      `::{`: the outer brace becomes part of the path. */
  lemma PrefixlessGroupMisread()
    ensures WalkPart("", "{a::{b}}") == [Binding("b}", "{a::b}")]
  {
    hide SplitFrom, LeafOf, WalkParts, SplitPath;
    var p, q := "{a::{b}}", "b}";
    assert !Occurs(p, "::{", 0) by { assert p[0..3][0] == '{'; }
    assert !Occurs(p, "::{", 1) by { assert p[1..4][0] == 'a'; }
    assert Occurs(p, "::{", 2);
    assert Find(p, "::{", 0) == 2;
    assert HeadOf(p) == "{a" && InnerOf(p) == q && "" + "{a" + "::" == "{a::";
    UnbalancedPart();
    OnePart("{a::", q, 2);
    UnbalancedLeaf();
  }

  lemma UnbalancedPart()
    ensures SplitFrom("b}", 0, "") == ["b}"]
  {
    ScanNames("b", 0);
    SplitPasses("b", "}", 0, "");
    assert "b" + "}" == "b}" && "" + "b" == "b" && "}"[1..] == "" && "b" + ['}'] == "b}";
  }

  lemma UnbalancedLeaf()
    ensures LeafOf("{a::", "b}") == Binding("b}", "{a::b}")
  {
    NoSpace("b}", " as ", 2);
    assert "{a::" + "b}" == "{a::b}" == "{a" + "::" + "b}";
    SplitSegment("{a", "b}");
    SplitSegment("b}", "");
  }

  // ------------------------------------------------------- misread groups that bind nothing

  /** One of them binds a name made of braces, another nothing. */
  lemma EmptyGroupsMisread()
    ensures var t := Group([], [Group(["a"], [], false)], false);
      Print(t) == "{a::{}}" && Misread(t) && !Binds(t) && WalkPart("", "{a::{}}") != []
    ensures var t := Group([], [Group(["a"], [], false), Group(["b"], [], false)], false);
      Print(t) == "{a::{},b::{}}" && Misread(t) && !Binds(t) && WalkPart("", "{a::{},b::{}}") == []
  {
    hide WalkPart;
    OneEmptyGroup();
    TwoEmptyGroups();
    OneMisread();
    TwoMisread();
  }

  lemma PrintEmpty(name: string)
    ensures Print(Group([name], [], false)) == name + "::{}" && HasPathGroup(Group([name], [], false))
    ensures !Binds(Group([name], [], false))
  {
    assert JoinPath([name]) == name && PrintItems([], false) == "";
    assert name + "::{" + "" + "}" == name + "::{}";
  }

  lemma OneEmptyGroup()
    ensures var t := Group([], [Group(["a"], [], false)], false); Print(t) == "{a::{}}" && Misread(t) && !Binds(t)
  {
    var g := Group(["a"], [], false);
    var t := Group([], [g], false);
    PrintEmpty("a");
    assert t.items[0] == g;
    assert PrintItems([g], false) == Print(g);
    hide PrintItems;
    assert "{" + "a::{}" + "}" == "{a::{}}";
  }

  lemma OneMisread()
    ensures WalkPart("", "{a::{}}") != []
  {
    hide WalkPart, Walk;
    assert "{" + "a" + "::{" + "}" + "}" == "{a::{}}" && "" + ("{" + "a") + "::" == "{a::";
    MisreadAt("a", "}");
    CloseAlone("{a::");
  }

  /** What a group without a path is read as. */
  lemma MisreadAt(q: string, inner: string)
    requires forall i :: 0 <= i < |q| ==> q[i] != '{'
    ensures WalkPart("", "{" + q + "::{" + inner + "}") == Walk("" + ("{" + q) + "::", inner)
  {
    hide Find, Walk;
    var h := "{" + q;
    var p := h + "::{" + inner + "}";
    assert p == h + "::{" + (inner + "}");
    OpenAfterBrace(q, inner + "}");
    assert p[|h| + 3..|p| - 1] == inner && p[..|h|] == h && p[|p| - 1] == '}' && h != "";
    PartCases("", p);
  }

  lemma OpenAfterBrace(q: string, rest: string)
    requires forall i :: 0 <= i < |q| ==> q[i] != '{'
    ensures Find("{" + q + "::{" + rest, "::{", 0) == 1 + |q|
  {
    var p := "{" + q + "::{" + rest;
    assert p[1 + |q|] == ':' && p[2 + |q|] == ':';
    assert forall j :: 0 <= j < |q| ==> p[1 + j] == q[j];
    forall k | 0 <= k < 1 + |q| ensures !Occurs(p, "::{", k) {
      assert k + 2 <= |q| ==> p[k + 2] == q[k + 1];
      assert p[k + 2] != '{' == "::{"[2];
      assert p[k..k + 3][2] == p[k + 2];
    }
    assert p[1 + |q|..4 + |q|] == "::{";
    assert Occurs(p, "::{", 1 + |q|);
  }

  lemma CloseAlone(prefix: string)
    ensures Walk(prefix, "}") != []
  {
    hide LeafOf;
    assert "}"[1..] == "" && "" + ['}'] == "}";
    assert SplitFrom("}", 0, "") == ["}"];
    OnePart(prefix, "}", 1);
    assert !IsGroup("}");
    PartCases(prefix, "}");
  }

  lemma TwoEmptyGroups()
    ensures var t := Group([], [Group(["a"], [], false), Group(["b"], [], false)], false);
      Print(t) == "{a::{},b::{}}" && Misread(t) && !Binds(t)
  {
    var g, h := Group(["a"], [], false), Group(["b"], [], false);
    var t := Group([], [g, h], false);
    PrintEmpty("a");
    PrintEmpty("b");
    assert t.items[0] == g && t.items[1] == h;
    assert Misread(t) && !Binds(t);
    hide Print, HasPathGroup, Binds;
    assert [g, h][1..] == [h] && PrintItems([h], false) == Print(h);
    assert PrintItems([g, h], false) == "a::{}" + "," + "b::{}";
    assert "{" + ("a::{}" + "," + "b::{}") + "}" == "{a::{},b::{}}";
    PrintBare([g, h]);
  }

  lemma PrintBare(items: seq<Tree>)
    ensures Print(Group([], items, false)) == "{" + PrintItems(items, false) + "}"
  {
  }

  lemma TwoMisread()
    ensures WalkPart("", "{a::{},b::{}}") == []
  {
    hide WalkPart, Walk;
    assert "{" + "a" + "::{" + "},b::{}" + "}" == "{a::{},b::{}}" && "" + ("{" + "a") + "::" == "{a::";
    MisreadAt("a", "},b::{}");
    CloseFirst("{a::");
  }

  lemma CloseFirst(prefix: string)
    ensures Walk(prefix, "},b::{}") == []
  {
    hide WalkParts, WalkPart, SplitFrom, NoTopComma, DepthAfter;
    var q := "},b::{}";
    ScanCloseFirst();
    SplitWhole(q);
    OnePart(prefix, q, |q|);
    EmptyAfter(prefix, "},b");
    assert "},b" + "::{}" == q;
  }

  lemma ScanCloseFirst()
    ensures NoTopComma("},b::{}", 0)
  {
    hide NoTopComma, DepthAfter;
    ScanNames("b::", -1);
    ScanOpen(-1);
    ScanOpen(0);
    ScanConcat("b::", "{", -1);
    ScanConcat("b::{", "}", -1);
    ScanConcat(",", "b::{}", -1);
    ScanConcat("}", ",b::{}", 0);
    assert "b::" + "{" == "b::{" && "b::{" + "}" == "b::{}" && "," + "b::{}" == ",b::{}";
    assert "}" + ",b::{}" == "},b::{}";
  }

  /** An empty group after any text without an opening brace. */
  lemma EmptyAfter(prefix: string, q: string)
    requires q != "" && forall i :: 0 <= i < |q| ==> q[i] != '{'
    ensures WalkPart(prefix, q + "::{}") == []
  {
    hide Find;
    var p := q + "::{}";
    assert p == q + "::{" + "}";
    FirstOpen(q, "}");
    assert HasHead(p) && HeadOf(p) == q && InnerOf(p) == "";
    PartCases(prefix, p);
    SplitEmpty();
    NoParts(prefix + q + "::", 0);
  }
}
