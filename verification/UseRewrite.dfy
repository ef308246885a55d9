/** Why `explode` (tools/split/prune-unused-imports.py) is safe to run: the rewritten file scans to
    the same other lines and the same bindings, one path per item, and rewriting it again changes
    nothing. */
module UseRewrite {
  import opened Text
  import opened UseTree
  import opened UseItems
  import opened UseLayout

  // ------------------------------------------------------- the items it is meant for

  /** Attributes that begin and end on one line. */
  predicate AttrLine(l: string) {
    |l| >= 3 && IsAttr(l) && l[|l| - 1] == ']' && Brackets(l) <= 0
  }

  /** And each of them ends with its first ']'. */
  predicate SingleAttr(l: string) {
    AttrLine(l) && SkipAttrs(l) == ""
  }

  predicate GoodVis(v: string) {
    || v == "" || v == "pub "
    || (|v| >= 6 && v[..4] == "pub(" && v[|v| - 2..] == ") " && forall i :: 4 <= i < |v| - 2 ==> v[i] != ')')
  }

  /** A path and a name that print as one `use` and read back the same. */
  predicate Printable(b: Binding) {
    var segs := SplitPath(b.full);
    && Idents(segs) && JoinPath(segs) == b.full && b.full != "self"
    && Ident(b.name) && (b.name == "*" ==> Last(segs) == "*")
  }

  /** The text is `vis`, `use ` and the tree in some layout, with its semicolon. */
  ghost predicate IsLayout(text: string, vis: string, t: Tree) {
    exists gaps, tail :: AreGaps(Pieces(t), gaps) && IsTail(Pieces(t), tail)
                         && text == vis + "use " + Body(Pieces(t), gaps, tail)
  }

  /** n single-line attributes, then the lines of one `use` of tree t, laid out in any way. */
  ghost predicate GoodItem(block: seq<string>, n: nat, t: Tree) {
    && n < |block|
    && (forall i :: 0 <= i < n ==> SingleAttr(block[i]))
    && VisOf(block[n]).Vis?
    && (forall i :: n <= i < |block| ==> !IsAttr(block[i]))
    && WellFormed(t, false) && Quiet(t) && NoSelf(Bindings([], t))
    && IsLayout(JoinLines(block[n..]), VisOf(block[n]).text, t)
  }

  ghost predicate Good(c: seq<Chunk>) {
    forall i :: 0 <= i < |c| && c[i].Use? ==> exists n: nat, t :: GoodItem(c[i].block, n, t)
  }

  // ------------------------------------------------------- what a good item is made of

  lemma {:induction false} AttrsOfBlock(block: seq<string>, n: nat)
    requires n <= |block| && forall i :: 0 <= i < n ==> SingleAttr(block[i])
    requires forall i :: n <= i < |block| ==> !IsAttr(block[i])
    ensures AttrsOf(block) == block[..n]
    decreases |block|
  {
    if block != [] {
      if n > 0 {
        AttrsOfBlock(block[1..], n - 1);
        assert block[..n] == [block[0]] + block[1..][..n - 1];
      } else {
        AttrsOfBlock(block[1..], 0);
      }
    }
  }

  lemma {:induction false} VisOfBlock(block: seq<string>, n: nat)
    requires n < |block| && (forall i :: 0 <= i < n ==> SingleAttr(block[i])) && VisOf(block[n]).Vis?
    ensures BlockVis(block) == VisOf(block[n]).text
    decreases |block|
  {
    hide VisOf, SingleAttr;
    if n > 0 {
      NotVis(block[0]);
      VisOfBlock(block[1..], n - 1);
    }
  }

  lemma NotVis(l: string)
    requires SingleAttr(l)
    ensures !VisOf(l).Vis?
  {
    hide SkipAttrs, Brackets;
    assert l[0] == l[..2][0] == '#';
  }

  lemma VisShape(l: string)
    requires VisOf(l).Vis?
    ensures GoodVis(VisOf(l).text)
  {
    if !StartsWith(l, "use ") && !StartsWith(l, "pub use ") {
      var c := CloseParen(l, 4);
      var v := l[..c + 2];
      assert l[c + 1..][0] == l[c + 1] && l[c + 1] == ' ';
      assert v[..4] == l[..4] && v[|v| - 2] == ')' && v[|v| - 1] == ' ';
      assert v[|v| - 2..] == ") ";
    }
  }

  predicate NoSelf(bs: seq<Binding>) {
    forall i :: 0 <= i < |bs| ==> bs[i].full != "self"
  }

  lemma {:induction false} BindingsPrintable(prefix: seq<string>, t: Tree)
    requires Idents(prefix) && WellFormed(t, prefix != []) && NoSelf(Bindings(prefix, t))
    ensures AllPrintable(Bindings(prefix, t))
    decreases t, 0
  {
    var bs := Bindings(prefix, t);
    match t
    case Path(segs) =>
      assert bs[0].full != "self";
      PathPrintable(prefix + segs, Last(segs));
    case Alias(segs, name) =>
      assert bs[0].full != "self";
      PathPrintable(prefix + segs, name);
    case SelfLeaf =>
      assert bs[0].full != "self";
      PathPrintable(prefix, Last(prefix));
    case Group(segs, items, _) =>
      assert Idents(prefix + segs) && bs == ItemBindings(prefix + segs, items);
      ItemsPrintable(prefix + segs, items);
  }

  lemma {:induction false} ItemsPrintable(prefix: seq<string>, items: seq<Tree>)
    requires Idents(prefix) && AllWellFormed(items, prefix != [])
    requires NoSelf(ItemBindings(prefix, items))
    ensures AllPrintable(ItemBindings(prefix, items))
    decreases items, 1
  {
    if items != [] {
      hide Printable, WellFormed;
      var a, b := Bindings(prefix, items[0]), ItemBindings(prefix, items[1..]);
      assert ItemBindings(prefix, items) == a + b;
      NoSelfParts(a, b);
      BindingsPrintable(prefix, items[0]);
      ItemsPrintable(prefix, items[1..]);
    }
  }

  lemma NoSelfParts(a: seq<Binding>, b: seq<Binding>)
    requires NoSelf(a + b)
    ensures NoSelf(a) && NoSelf(b)
  {
    assert forall i :: 0 <= i < |a| ==> a[i] == (a + b)[i];
    assert forall i :: 0 <= i < |b| ==> b[i] == (a + b)[|a| + i];
  }

  lemma PathPrintable(segs: seq<string>, name: string)
    requires segs != [] && Idents(segs) && Ident(name) && (name == "*" ==>
        Last(segs) == "*") && JoinPath(segs) != "self"
    ensures Printable(Binding(name, JoinPath(segs)))
  {
    SplitJoin(segs);
  }

  /** The one-path tree of a binding. */
  function LeafTree(b: Binding): Tree {
    if Last(SplitPath(b.full)) == b.name || b.name
      == "*" then Path(SplitPath(b.full)) else Alias(SplitPath(b.full), b.name)
  }

  lemma LeafTreeBinds(b: Binding)
    requires Printable(b)
    ensures WellFormed(LeafTree(b), false) && Quiet(LeafTree(b)) && NoSelf(Bindings([], LeafTree(b)))
    ensures Print(LeafTree(b)) == PathText(b) && Bindings([], LeafTree(b)) == [b]
  {
    var segs := SplitPath(b.full);
    assert [] + segs == segs;
    assert segs != ["self"];
  }

  // ------------------------------------------------------- cleaning a statement

  lemma VisLine(vis: string, p: string)
    requires GoodVis(vis)
    ensures var l := vis + "use " + p + ";";
      && l != "" && !Space(l[0]) && !IsAttr(l) && VisOf(l) == Vis(vis) && Ends(l)
      && SkipAttrs(l) == l && SkipSpace(SkipPub(l)) == "use " + p + ";"
  {
    var rest := "use " + p + ";";
    var l := vis + rest;
    assert l == vis + "use " + p + ";" && rest[..4] == "use ";
    SemicolonEnds(vis + "use " + p);
    hide Ends;
    if vis == "" {
      assert l == rest;
      BareLine(rest);
    } else if vis == "pub " {
      PubLine(rest);
    } else {
      PubParenLine(vis, rest);
    }
  }

  lemma SemicolonEnds(s: string)
    ensures Ends(s + ";")
  {
    var l := s + ";";
    assert l[|s|] == ';' && l[|s| + 1..] == "";
  }

  lemma BareLine(l: string)
    requires StartsWith(l, "use ")
    ensures !Space(l[0]) && !IsAttr(l) && VisOf(l) == Vis("") && SkipAttrs(l) == l && SkipSpace(SkipPub(l)) == l
  {
    assert l[..4][0] == 'u' && l[..4][1] == 's';
  }

  lemma PubLine(rest: string)
    requires StartsWith(rest, "use ")
    ensures var l := "pub " + rest;
      !Space(l[0]) && !IsAttr(l) && VisOf(l) == Vis("pub ") && SkipAttrs(l) == l && SkipSpace(SkipPub(l)) == rest
  {
    var l := "pub " + rest;
    assert l[..4] == "pub " && l[..4][0] == 'p' && l[..4][3] == ' ';
    assert l[..8] == "pub " + rest[..4] == "pub use ";
    assert l[..3] == "pub" && !StartsWith(l, "use ") && !StartsWith(l, "pub(");
    assert l[3..] == " " + rest && (" " + rest)[1..] == rest && rest[..4][0] == 'u';
    assert SkipSpace(rest) == rest;
  }

  lemma PubParenLine(vis: string, rest: string)
    requires GoodVis(vis) && vis != "" && vis != "pub " && StartsWith(rest, "use ")
    ensures var l := vis + rest;
      !Space(l[0]) && !IsAttr(l) && VisOf(l) == Vis(vis) && SkipAttrs(l) == l && SkipSpace(SkipPub(l)) == rest
  {
    var l, c := vis + rest, |vis| - 2;
    assert vis[..4][0] == 'p' && vis[..4][1] == 'u' && vis[..4][2] == 'b' && vis[..4][3] == '(';
    assert l[0] == 'p' && l[1] == 'u' && l[2] == 'b' && l[3] == '(';
    assert l[..3] == "pub" && l[..4] == "pub(";
    assert vis[|vis| - 2..][0] == ')' && vis[|vis| - 2..][1] == ' ';
    assert l[c] == ')' && l[c + 1] == ' ' && forall i :: 4 <= i < c ==> l[i] == vis[i];
    assert CloseParen(l, 4) == c;
    assert l[c + 1..] == " " + rest;
    assert (" " + rest)[..5] == " " + rest[..4] == " use ";
    assert l[..c + 2] == vis;
    assert !StartsWith(l, "use ") && !StartsWith(l, "pub use ") by {
      assert "use "[0] == 'u' && "pub use "[3] == ' ';
      if |l| >= 4 { assert l[..4][0] == 'p'; }
      if |l| >= 8 { assert l[..8][3] == '('; }
    }
    assert rest[..4][0] == 'u' && (" " + rest)[1..] == rest;
    assert SkipSpace(rest) == rest;
  }

  lemma {:induction false} SkipSpaceConcat(s: string, t: string)
    ensures SkipSpace(s) != "" ==> SkipSpace(s + t) == SkipSpace(s) + t
    ensures SkipSpace(s) == "" ==> SkipSpace(s + t) == SkipSpace(t)
  {
    if s == "" {
      assert s + t == t;
    } else if Space(s[0]) {
      assert (s + t)[1..] == s[1..] + t;
      SkipSpaceConcat(s[1..], t);
    }
  }

  lemma {:induction false} SameClose(s: string, t: string, at: nat)
    requires at <= |s| && CloseBracket(s, at) < |s|
    ensures CloseBracket(s + t, at) == CloseBracket(s, at)
    decreases |s| - at
  {
    if s[at] != ']' { SameClose(s, t, at + 1); }
  }

  /** Attributes as text, each without an inner `]` and with white space behind it. */
  function AttrText(attrs: seq<(string, string)>): string {
    if attrs == [] then "" else "#[" + attrs[0].0 + "]" + attrs[0].1 + AttrText(attrs[1..])
  }

  /** What the pattern at the start of a statement takes off: white space, attributes, a visibility with
      white space behind it, `use` and one more white space character, whatever follows. */
  lemma HeadStripped(lead: string, attrs: seq<(string, string)>, vis: string, gap: string, c: char, rest: string)
    requires AllSpace(lead) && AllSpace(gap) && Space(c)
    requires forall i :: 0 <= i < |attrs| ==> ']' !in attrs[i].0 && AllSpace(attrs[i].1)
    requires vis == "pub" || (vis == "" && gap == "") || exists inner :: ')' !in inner && vis == "pub(" + inner + ")"
    ensures StripHead(lead + (AttrText(attrs) + (vis + gap + ("use" + [c] + rest)))) == rest
  {
    var t := "use" + [c] + rest;
    UseOver(c, rest);
    hide SkipSpace, SkipAttrs, SkipPub, AttrText, AllSpace;
    PubOver(vis, gap, t);
    var u := vis + gap + t;
    AttrsOver(attrs, u);
    SpaceOver(lead, AttrText(attrs) + u);
    SpaceOver(gap, t);
  }

  lemma UseOver(c: char, rest: string)
    ensures var t := "use" + [c] + rest; |t| > 3 && StartsWith(t, "use") && t[3] == c && t[4..] == rest && t[0] == 'u'
  {
  }

  lemma {:induction false} SpaceOver(g: string, t: string)
    requires AllSpace(g) && t != "" && !Space(t[0])
    ensures SkipSpace(g + t) == t
  {
    if g == "" {
      assert g + t == t;
    } else {
      assert (g + t)[1..] == g[1..] + t;
      SpaceOver(g[1..], t);
    }
  }

  lemma {:induction false} AttrsOver(attrs: seq<(string, string)>, t: string)
    requires forall i :: 0 <= i < |attrs| ==> ']' !in attrs[i].0 && AllSpace(attrs[i].1)
    requires t != "" && t[0] in {'p', 'u'}
    ensures AttrText(attrs) + t != "" && !Space((AttrText(attrs) + t)[0])
    ensures SkipAttrs(AttrText(attrs) + t) == t
  {
    hide SkipAttrs, SkipSpace;
    if attrs == [] {
      assert AttrText(attrs) + t == t;
      NoAttr(t);
    } else {
      var a, g, more := attrs[0].0, attrs[0].1, AttrText(attrs[1..]) + t;
      AttrsOver(attrs[1..], t);
      SpaceOver(g, more);
      OneAttr(a, g + more);
      TextOf(a, g, AttrText(attrs[1..]), t);
    }
  }

  lemma NoAttr(t: string)
    requires t != "" && t[0] in {'p', 'u'}
    ensures SkipAttrs(t) == t
  {
    assert |t| >= 2 ==> t[..2][0] == t[0];
  }

  lemma TextOf(a: string, g: string, more: string, t: string)
    ensures "#[" + a + "]" + g + more + t == "#[" + a + "]" + (g + (more + t))
    ensures ("#[" + a + "]" + g + more + t)[0] == '#'
  {
  }

  lemma OneAttr(a: string, t: string)
    requires ']' !in a
    ensures SkipAttrs("#[" + a + "]" + t) == SkipAttrs(SkipSpace(t))
  {
    var s, c := "#[" + a + "]" + t, 2 + |a|;
    assert s[..2] == "#[" && s[c] == ']' && s[c + 1..] == t;
    assert forall k :: 2 <= k < c ==> s[k] == a[k - 2];
    assert CloseBracket(s, 2) == c;
  }

  lemma PubOver(vis: string, gap: string, t: string)
    requires AllSpace(gap) && t != "" && t[0] == 'u'
    requires vis == "pub" || (vis == "" && gap == "") || exists inner :: ')' !in inner && vis == "pub(" + inner + ")"
    ensures SkipPub(vis + gap + t) == gap + t
    ensures (vis + gap + t)[0] in {'p', 'u'}
  {
    assert vis + gap + t == vis + (gap + t);
    if vis == "" {
      assert vis + gap + t == t == gap + t;
      assert |t| >= 3 ==> t[..3][0] == 'u';
    } else if vis == "pub" {
      assert (gap + t)[0] != '(';
      BarePub(gap + t);
    } else {
      var inner :| ')' !in inner && vis == "pub(" + inner + ")";
      InnerPub(inner, gap + t);
    }
  }

  lemma BarePub(t: string)
    requires t != "" && t[0] != '('
    ensures SkipPub("pub" + t) == t
  {
    var s := "pub" + t;
    assert s[..3] == "pub" && s[3..] == t && s[3] == t[0];
    assert s[..4][3] == t[0];
  }

  lemma InnerPub(inner: string, t: string)
    requires ')' !in inner
    ensures SkipPub("pub(" + inner + ")" + t) == t
  {
    var s, c := "pub(" + inner + ")" + t, 4 + |inner|;
    assert s[..4] == "pub(" && s[c] == ')' && s[..3] == "pub" && s[c + 1..] == t;
    assert forall k :: 4 <= k < c ==> s[k] == inner[k - 4];
    assert CloseParen(s, 4) == c;
  }

  /** What is left of the attributes on a line, in front of more lines. */
  lemma {:induction false} SkipRun(l: string, more: string)
    requires l != "" && l[|l| - 1] == ']' && more != "" && !Space(more[0])
    ensures SkipAttrs(l) != "" ==> SkipAttrs(l + "\n" + more) == SkipAttrs(l) + "\n" + more
    ensures SkipAttrs(l) == "" ==> SkipAttrs(l + "\n" + more) == SkipAttrs(more)
    decreases |l|
  {
    var s := l + "\n" + more;
    SameStart(l, "\n" + more);
    assert s == l + ("\n" + more);
    if StartsWith(l, "#[") {
      var c := CloseBracket(l, 2);
      assert c < |l|;
      SameClose(l, "\n" + more, 2);
      assert s[c + 1..] == l[c + 1..] + ("\n" + more);
      var rest := l[c + 1..];
      SkipSpaceConcat(rest, "\n" + more);
      hide SkipAttrs;
      SkipNewline(more);
      AttrStep(l, c);
      AttrStep(s, c);
      if SkipSpace(rest) != "" {
        SkipSpaceEnds(rest);
        var m := SkipSpace(rest);
        assert m + ("\n" + more) == m + "\n" + more;
        SkipRun(m, more);
      } else {
        SkipNothing();
      }
    }
  }

  lemma SkipNothing()
    ensures SkipAttrs("") == ""
  {
  }

  lemma AttrStep(s: string, c: nat)
    requires StartsWith(s, "#[") && c == CloseBracket(s, 2) < |s|
    ensures SkipAttrs(s) == SkipAttrs(SkipSpace(s[c + 1..]))
  {
  }

  lemma SameStart(l: string, t: string)
    requires l != "" && l[|l| - 1] == ']'
    ensures StartsWith(l + t, "#[") <==> StartsWith(l, "#[")
    ensures StartsWith(l, "#[") ==> |l| >= 3 && CloseBracket(l, 2) < |l|
  {
    if |l| >= 2 {
      assert (l + t)[..2] == l[..2];
      if l[..2] == "#[" { assert l[1] == l[..2][1] == '['; }
    } else if |l + t| >= 2 {
      assert (l + t)[..2][0] == ']';
    }
  }

  lemma SkipNewline(more: string)
    requires more != "" && !Space(more[0])
    ensures SkipSpace("\n" + more) == more
  {
    assert ("\n" + more)[1..] == more;
  }

  lemma {:induction false} SkipSpaceEnds(s: string)
    requires SkipSpace(s) != ""
    ensures s != "" && SkipSpace(s)[|SkipSpace(s)| - 1] == s[|s| - 1] && !Space(SkipSpace(s)[0])
  {
    if Space(s[0]) { SkipSpaceEnds(s[1..]); }
  }

  lemma {:induction false} SkipAttrLines(attrs: seq<string>, l: string)
    requires forall i :: 0 <= i < |attrs| ==> SingleAttr(attrs[i])
    requires l != "" && !Space(l[0]) && SkipAttrs(l) == l
    ensures var s := JoinLines(attrs + [l]); s != "" && !Space(s[0]) && SkipAttrs(s) == l
    decreases |attrs|
  {
    if attrs == [] {
      assert attrs + [l] == [l];
    } else {
      hide SkipAttrs;
      var a, rest := attrs[0], JoinLines(attrs[1..] + [l]);
      SkipAttrLines(attrs[1..], l);
      assert (attrs + [l])[1..] == attrs[1..] + [l];
      assert SingleAttr(a) && a[0] == '#' by { assert a[..2][0] == '#'; }
      SkipRun(a, rest);
    }
  }

  lemma {:induction false} JoinNested(attrs: seq<string>, lines: seq<string>)
    requires lines != []
    ensures JoinLines(attrs + lines) == JoinLines(attrs + [JoinLines(lines)])
  {
    if attrs == [] {
      assert attrs + lines == lines && attrs + [JoinLines(lines)] == [JoinLines(lines)];
    } else {
      JoinNested(attrs[1..], lines);
      assert (attrs + lines)[1..] == attrs[1..] + lines;
      assert (attrs + [JoinLines(lines)])[1..] == attrs[1..] + [JoinLines(lines)];
    }
  }

  /** Whatever stands in front of a statement and however it is laid out, the clean-up leaves the
      printed form of its tree. */
  lemma CleanStatement(attrs: seq<string>, lines: seq<string>, vis: string, t: Tree)
    requires (forall i :: 0 <= i < |attrs| ==> SingleAttr(attrs[i])) && lines != [] && GoodVis(vis)
    requires WellFormed(t, false) && IsLayout(JoinLines(lines), vis, t)
    ensures Clean(attrs + lines) == Print(t)
  {
    hide Clean, JoinLines, WellFormed, Pieces, SingleAttr, GoodVis, Body;
    var ps := Pieces(t);
    var gaps, tail :| AreGaps(ps, gaps) && IsTail(ps, tail) && JoinLines(lines) == vis + "use " + Body(ps, gaps, tail);
    CleanLoose(attrs, lines, vis, t, gaps, tail);
  }

  /** The same for any white space in front of the semicolon. */
  lemma CleanLoose(attrs: seq<string>, lines: seq<string>, vis: string, t: Tree, gaps: seq<string>, tail: string)
    requires (forall i :: 0 <= i < |attrs| ==> SingleAttr(attrs[i])) && lines != [] && GoodVis(vis)
    requires WellFormed(t, false) && AreGaps(Pieces(t), gaps) && AllSpace(tail)
    requires JoinLines(lines) == vis + "use " + Body(Pieces(t), gaps, tail)
    ensures Clean(attrs + lines) == Print(t) + Slack(Pieces(t), tail)
  {
    hide SkipAttrs, SkipPub, JoinLines, Tighten, Collapse, TrimEnd, StripSemicolons, VisOf, Ends, IsAttr,
         WellFormed, Pieces;
    var ps := Pieces(t);
    var p := Spread(ps, gaps) + tail;
    var l := vis + "use " + p + ";";
    assert l == JoinLines(lines);
    VisLine(vis, p);
    JoinNested(attrs, lines);
    SkipAttrLines(attrs, l);
    var u := "use " + p + ";";
    assert u[..3] == "use" && u[3] == ' ' && u[4..] == p + ";" == Body(ps, gaps, tail);
    PiecesPrint(t, false);
    CleanBody(ps, gaps, tail);
  }

  /** A whole statement, attributes, visibility, line breaks and all, flattens to what its tree
      binds iff the tree is quiet. */
  lemma StatementBinds(attrs: seq<string>, lines: seq<string>, vis: string, t: Tree)
    requires (forall i :: 0 <= i < |attrs| ==> SingleAttr(attrs[i])) && lines != [] && GoodVis(vis)
    requires WellFormed(t, false) && IsLayout(JoinLines(lines), vis, t)
    ensures BindingsOf(attrs + lines) == Bindings([], t) <==> Quiet(t)
  {
    hide Clean, IsLayout, Walk, WalkPart, Quiet, WellFormed;
    CleanStatement(attrs, lines, vis, t);
    FlattenBody(t);
  }

  /** A space between a name and the semicolon becomes part of the name: a statement flattens to what
      its tree binds iff there is none. */
  lemma TailIff(attrs: seq<string>, lines: seq<string>, vis: string, t: Tree, gaps: seq<string>, tail: string)
    requires (forall i :: 0 <= i < |attrs| ==> SingleAttr(attrs[i])) && lines != [] && GoodVis(vis)
    requires WellFormed(t, false) && Quiet(t) && AreGaps(Pieces(t), gaps) && AllSpace(tail)
    requires JoinLines(lines) == vis + "use " + Body(Pieces(t), gaps, tail)
    ensures BindingsOf(attrs + lines) == Bindings([], t) <==> IsTail(Pieces(t), tail)
  {
    hide Clean, Walk, JoinLines, Quiet, WellFormed, Body, Print, Pieces, Bindings;
    CleanLoose(attrs, lines, vis, t, gaps, tail);
    if IsTail(Pieces(t), tail) {
      assert Print(t) + "" == Print(t);
      FlattenBody(t);
    } else {
      SpacedTree(t);
    }
  }

  lemma SpacedTree(t: Tree)
    requires WellFormed(t, false) && Pieces(t) != [] && Pieces(t)[|Pieces(t)| - 1].Word?
    ensures Walk("", Print(t) + " ") != Bindings([], t)
  {
    assert !t.Group? && !t.SelfLeaf?;
    if t.Path? { SpacedPath(t.segs); } else { SpacedAlias(t.segs, t.name); }
  }

  /** Text without commas and braces is one leaf. */
  lemma OneLeaf(p: string)
    requires p != "" && (forall i :: 0 <= i < |p| ==> p[i] !in {'{', '}', ','})
    ensures Walk("", p) == [LeafOf("", p)]
  {
    hide NoTopComma, DepthAfter, SplitFrom, WalkPart, LeafOf;
    ScanNames(p, 0);
    SplitWhole(p);
    OnePart("", p, |p|);
    PartCases("", p);
    assert !IsGroup(p);
  }

  lemma SpacedPath(segs: seq<string>)
    requires WellFormed(Path(segs), false)
    ensures Walk("", JoinPath(segs) + " ") != Bindings([], Path(segs))
  {
    hide Walk, SplitPath, JoinPath, Idents;
    var q := JoinPath(segs);
    var p := q + " ";
    JoinChars(segs);
    assert p[|q|] == ' ';
    OneLeaf(p);
    NoSpace(p, " as ", |q|);
    assert Find(p, " as ", 0) == |p|;
    assert [] + segs == segs && "" + p == p;
    assert LeafOf("", p).full == p;
  }

  lemma SpacedAlias(segs: seq<string>, name: string)
    requires WellFormed(Alias(segs, name), false)
    ensures Walk("", JoinPath(segs) + " as " + name + " ") != Bindings([], Alias(segs, name))
  {
    hide Walk, SplitPath, JoinPath, Idents;
    var q := JoinPath(segs);
    JoinChars(segs);
    var p := q + " as " + name + " ";
    OneLeaf(p);
    AliasFound(q, name + " ");
    assert p == q + " as " + (name + " ");
  }

  /** What follows the first ` as ` is the name. */
  lemma AliasFound(q: string, name: string)
    requires q != "" && name != "" && forall i :: 0 <= i < |q| ==> q[i] != ' '
    ensures LeafOf("", q + " as " + name).name == name
  {
    hide SplitPath;
    var p := q + " as " + name;
    assert p[|q|] == ' ' && p[|q|..|q| + 4] == " as " && p[|q| + 4..] == name;
    NoSpace(p, " as ", |q|);
    assert Occurs(p, " as ", |q|);
    assert Find(p, " as ", 0) == |q|;
    assert p != "self" by { assert p[|q|] == ' ' && forall i :: 0 <= i < 4 ==> "self"[i] != ' '; }
  }

  lemma GoodItemBinds(block: seq<string>, n: nat, t: Tree)
    requires GoodItem(block, n, t)
    ensures AttrsOf(block) == block[..n] && BlockVis(block) == VisOf(block[n]).text && GoodVis(BlockVis(block))
    ensures BindingsOf(block) == Bindings([], t)
  {
    hide Clean, IsLayout, BindingsOf, WellFormed, Quiet, VisOf, IsAttr, SingleAttr;
    AttrsOfBlock(block, n);
    VisOfBlock(block, n);
    VisShape(block[n]);
    assert block == block[..n] + block[n..];
    StatementBinds(block[..n], block[n..], VisOf(block[n]).text, t);
  }

  /** A rewritten item is a layout of its one path. */
  lemma LineIsLayout(vis: string, b: Binding)
    requires Printable(b)
    ensures IsLayout(LineOf(vis, b), vis, LeafTree(b))
  {
    hide Printable, Pieces, WellFormed, Print, Bindings, NoSelf, PathText, Tight, Quiet;
    var ps, text := Pieces(LeafTree(b)), PathText(b);
    var gaps := TightGaps(ps);
    LeafTreeBinds(b);
    PiecesPrint(LeafTree(b), false);
    TightBody(ps, gaps, text);
    assert vis + "use " + (text + ";") == LineOf(vis, b);
  }

  lemma TightBody(ps: seq<Piece>, gaps: seq<string>, text: string)
    requires ps != [] && gaps == TightGaps(ps) && Tight(ps) == text
    ensures AreGaps(ps, gaps) && IsTail(ps, "") && Body(ps, gaps, "") == text + ";"
  {
    hide Spread, Tight;
    SpreadTight(ps, gaps);
    assert gaps[0] == "" && "" + text == text && text + "" + ";" == text + ";";
  }

  /** A rewritten item is good, and binds its one path. */
  lemma ItemBinds(attrs: seq<string>, vis: string, b: Binding)
    requires (forall i :: 0 <= i < |attrs| ==> SingleAttr(attrs[i])) && GoodVis(vis) && Printable(b)
    ensures var block := attrs + [LineOf(vis, b)];
      GoodItem(block, |attrs|, LeafTree(b)) && AttrsOf(block) == attrs && BlockVis(block) == vis
      && BindingsOf(block) == [b]
  {
    hide Bindings, WellFormed, Print, VisOf, Ends, IsLayout, BindingsOf, LineOf, IsAttr, Quiet, Printable;
    var l := LineOf(vis, b);
    var block, n := attrs + [l], |attrs|;
    LineFacts(vis, b);
    LeafTreeBinds(b);
    LineIsLayout(vis, b);
    assert block[n..] == [l] && JoinLines([l]) == l && block[..n] == attrs;
    GoodItemBinds(block, n, LeafTree(b));
  }

  // ------------------------------------------------------- scanning a statement

  /** The only semicolon of the text is its last character. */
  predicate OneSemicolon(s: string) {
    s != "" && s[|s| - 1] == ';' && forall i :: 0 <= i < |s| - 1 ==> s[i] != ';'
  }

  lemma {:induction false} LastLineEnds(lines: seq<string>)
    requires lines != [] && OneSemicolon(JoinLines(lines))
    ensures Ends(lines[|lines| - 1]) && forall i :: 0 <= i < |lines| - 1 ==> !Ends(lines[i])
  {
    hide Ends, OneSemicolon;
    if |lines| == 1 {
      EndsWithSemicolon(lines[0]);
    } else {
      FirstOfMore(lines[0], JoinLines(lines[1..]));
      LastLineEnds(lines[1..]);
      forall i | 0 <= i < |lines| - 1 ensures !Ends(lines[i]) {
        if i > 0 { assert lines[i] == lines[1..][i - 1]; }
      }
    }
  }

  lemma EndsWithSemicolon(s: string)
    requires OneSemicolon(s)
    ensures Ends(s)
  {
    assert s == s[..|s| - 1] + ";";
    SemicolonEnds(s[..|s| - 1]);
  }

  lemma FirstOfMore(l: string, rest: string)
    requires OneSemicolon(l + "\n" + rest)
    ensures !Ends(l) && OneSemicolon(rest)
  {
    var s := l + "\n" + rest;
    assert s[|l|] == '\n';
    assert forall i :: 0 <= i < |rest| ==> rest[i] == s[|l| + 1 + i];
    assert forall i :: 0 <= i < |l| ==> l[i] == s[i];
  }

  lemma {:induction false} SpreadPlain(ps: seq<Piece>, gaps: seq<string>)
    requires ArePieces(ps) && |gaps| == |ps| && forall k :: 0 <= k < |ps| ==> AllSpace(gaps[k])
    ensures forall i :: 0 <= i < |Spread(ps, gaps)| ==> Spread(ps, gaps)[i] != ';'
  {
    if ps != [] {
      PieceText(ps[0]);
      SpreadPlain(ps[1..], gaps[1..]);
    }
  }

  lemma LayoutSemicolon(text: string, vis: string, t: Tree)
    requires WellFormed(t, false) && IsLayout(text, vis, t) && forall i :: 0 <= i < |vis| ==> vis[i] != ';'
    ensures OneSemicolon(text)
  {
    hide Pieces, WellFormed;
    var ps := Pieces(t);
    var gaps, tail :| AreGaps(ps, gaps) && IsTail(ps, tail) && text == vis + "use " + Body(ps, gaps, tail);
    PiecesPrint(t, false);
    SpreadPlain(ps, gaps);
    var s := Spread(ps, gaps);
    assert text == vis + "use " + s + tail + ";";
  }

  /** The first line of the statement shows the visibility. */
  lemma FirstLine(lines: seq<string>, vis: string, body: string)
    requires lines != [] && GoodVis(vis) && JoinLines(lines) == vis + "use " + body && forall i :: 0 <= i < |vis| ==>
        vis[i] != '\n'
    ensures VisOf(lines[0]) == Vis(vis) && !IsAttr(lines[0])
  {
    hide VisOf, IsAttr, GoodVis;
    var l, head := lines[0], vis + "use ";
    var more := if |lines| == 1 then "" else "\n" + JoinLines(lines[1..]);
    assert JoinLines(lines) == l + more by { assert |lines| == 1 ==> l + "" == l; }
    hide JoinLines;
    HeadInLine(head, body, l, more);
    var rest := l[|vis|..];
    assert l == vis + rest;
    assert rest[..4] == head[|vis|..] == "use ";
    StartOfUse(vis, rest);
  }

  /** Text without a line break lies within the first line. */
  lemma HeadInLine(head: string, body: string, l: string, more: string)
    requires head + body == l + more && (more != "" ==> more[0] == '\n')
    requires forall i :: 0 <= i < |head| ==> head[i] != '\n'
    ensures |head| <= |l| && l[..|head|] == head
  {
    var text := head + body;
    assert forall i :: 0 <= i < |head| ==> text[i] == head[i];
    assert more != "" ==> text[|l|] == '\n';
    assert |head| <= |l|;
    assert l == text[..|l|];
  }

  lemma StartOfUse(vis: string, rest: string)
    requires GoodVis(vis) && StartsWith(rest, "use ")
    ensures VisOf(vis + rest) == Vis(vis) && !IsAttr(vis + rest)
  {
    hide VisOf, IsAttr;
    if vis == "" {
      assert vis + rest == rest;
      BareLine(rest);
    } else if vis == "pub " {
      PubLine(rest);
    } else {
      PubParenLine(vis, rest);
    }
  }

  /** Every statement laid out in this way, in any file, is found whole and is a good item. */
  lemma LayoutIsGood(attrs: seq<string>, lines: seq<string>, vis: string, t: Tree, rest: seq<string>)
    requires AllSingle(attrs) && lines != [] && GoodVis(vis) && (forall i :: 0 <= i < |vis| ==>
        vis[i] != ';' && vis[i] != '\n')
    requires WellFormed(t, false) && Quiet(t) && NoSelf(Bindings([], t)) && IsLayout(JoinLines(lines), vis, t)
    requires forall i :: 0 < i < |lines| ==> !IsAttr(lines[i])
    ensures Parse(attrs + lines + rest, []) == Then([Use(attrs + lines)], Parse(rest, []))
    ensures GoodItem(attrs + lines, |attrs|, t) && BindingsOf(attrs + lines) == Bindings([], t)
  {
    hide VisOf, IsAttr, Ends, Parse, JoinLines, WellFormed, Quiet, Bindings, BindingsOf, SingleAttr;
    var block, n := attrs + lines, |attrs|;
    var ps := Pieces(t);
    var gaps, tail :| AreGaps(ps, gaps) && IsTail(ps, tail) && JoinLines(lines) == vis + "use " + Body(ps, gaps, tail);
    FirstLine(lines, vis, Body(ps, gaps, tail));
    LayoutSemicolon(JoinLines(lines), vis, t);
    LastLineEnds(lines);
    assert block[n..] == lines && block[n] == lines[0];
    assert forall i :: n <= i < |block| ==> block[i] == lines[i - n];
    GoodItemBinds(block, n, t);
    SingleAreLines(attrs);
    ParseItem(attrs, lines, rest, []);
    assert [] + attrs + lines == attrs + lines;
  }

  // ------------------------------------------------------- scanning the rewritten file

  /** An item of attribute lines and a `use` that ends on its last line scans as that item. */
  lemma {:induction false} ParseItem(attrs: seq<string>, item: seq<string>, rest: seq<string>, pend: seq<string>)
    requires (forall i :: 0 <= i < |attrs| ==> AttrLine(attrs[i])) && item != []
        && !IsAttr(item[0]) && VisOf(item[0]).Vis?
    requires Ends(item[|item| - 1]) && forall i :: 0 <= i < |item| - 1 ==> !Ends(item[i])
    ensures Parse(attrs + item + rest, pend) == Then([Use(pend + attrs + item)], Parse(rest, []))
    decreases |attrs|
  {
    hide VisOf, Ends, Brackets, IsAttr, Parse;
    var lines := attrs + item + rest;
    if attrs == [] {
      var e := |item| - 1;
      assert lines == item + rest;
      EndsAtLine(lines, 0, e);
      ParseUseFirst(lines, pend);
      assert lines[..e + 1] == item && lines[e + 1..] == rest && pend + attrs + item == pend + item;
    } else {
      hide AttrLine;
      ParseAttrLine(attrs[0], attrs[1..] + item + rest, pend);
      assert lines == [attrs[0]] + (attrs[1..] + item + rest);
      ParseItem(attrs[1..], item, rest, pend + [attrs[0]]);
      assert (pend + [attrs[0]]) + attrs[1..] + item == pend + attrs + item;
    }
  }

  lemma ParseAttrLine(l: string, rest: seq<string>, pend: seq<string>)
    requires AttrLine(l)
    ensures Parse([l] + rest, pend) == Parse(rest, pend + [l])
  {
    hide Parse, Brackets, IsAttr;
    var lines := [l] + rest;
    assert lines[0] == l && lines[..1] == [l] && lines[1..] == rest;
    assert AttrEnd(lines, 0, Brackets(l)) == 0;
    ParseAttrFirst(lines, pend);
  }

  lemma {:induction false} EndsAtLine(lines: seq<string>, j: nat, e: nat)
    requires j <= e < |lines| && Ends(lines[e]) && forall i :: j <= i < e ==> !Ends(lines[i])
    ensures EndOf(lines, j) == e
    decreases e - j
  {
    hide Ends;
    if j < e { EndsAtLine(lines, j + 1, e); }
  }

  lemma SingleAreLines(attrs: seq<string>)
    requires AllSingle(attrs)
    ensures forall i :: 0 <= i < |attrs| ==> AttrLine(attrs[i])
  {
    hide AttrLine, SkipAttrs;
  }

  /** The chunks of the rewritten file. */
  function UsesEach(attrs: seq<string>, vis: string, bs: seq<Binding>): seq<Chunk> {
    if bs == [] then [] else [Use(attrs + [LineOf(vis, bs[0])])] + UsesEach(attrs, vis, bs[1..])
  }

  function Reduce(c: seq<Chunk>): seq<Chunk> {
    if c == [] then []
    else
      var head := if c[0].Text? then [c[0]]
        else UsesEach(AttrsOf(c[0].block), BlockVis(c[0].block), BindingsOf(c[0].block));
      head + Reduce(c[1..])
  }

  predicate AllPrintable(bs: seq<Binding>) {
    forall i :: 0 <= i < |bs| ==> Printable(bs[i])
  }

  predicate AllSingle(attrs: seq<string>) {
    forall i :: 0 <= i < |attrs| ==> SingleAttr(attrs[i])
  }

  lemma {:induction false} ParseEach(attrs: seq<string>, vis: string, bs: seq<Binding>, rest: seq<string>)
    requires AllSingle(attrs) && GoodVis(vis)
    ensures Parse(RewriteEach(attrs, vis, bs) + rest, []) == Then(UsesEach(attrs, vis, bs), Parse(rest, []))
    decreases |bs|
  {
    hide LineOf, VisOf, Ends, IsAttr, Parse;
    if bs == [] {
      assert RewriteEach(attrs, vis, bs) + rest == rest;
      assert Parse(rest, []).Chunks? ==> [] + Parse(rest, []).chunks == Parse(rest, []).chunks;
    } else {
      var l, more := LineOf(vis, bs[0]), RewriteEach(attrs, vis, bs[1..]);
      LineFacts(vis, bs[0]);
      ParseItem(attrs, [l], more + rest, []);
      ParseEach(attrs, vis, bs[1..], rest);
      assert RewriteEach(attrs, vis, bs) + rest == attrs + [l] + (more + rest);
      assert [] + attrs + [l] == attrs + [l];
      ThenThen([Use(attrs + [l])], UsesEach(attrs, vis, bs[1..]), Parse(rest, []));
    }
  }

  lemma LineFacts(vis: string, b: Binding)
    requires GoodVis(vis)
    ensures !IsAttr(LineOf(vis, b)) && VisOf(LineOf(vis, b)) == Vis(vis) && Ends(LineOf(vis, b))
  {
    VisLine(vis, PathText(b));
  }

  lemma ThenThen(a: seq<Chunk>, b: seq<Chunk>, p: Parsed)
    ensures Then(a, Then(b, p)) == Then(a + b, p)
  {
  }

  /** What a good block rewrites from. */
  lemma GoodFacts(block: seq<string>)
    requires exists n: nat, t :: GoodItem(block, n, t)
    ensures AllSingle(AttrsOf(block)) && GoodVis(BlockVis(block)) && AllPrintable(BindingsOf(block))
  {
    hide IsLayout, BindingsOf, Bindings, WellFormed, Printable;
    var n: nat, t :| GoodItem(block, n, t);
    GoodItemBinds(block, n, t);
    BindingsPrintable([], t);
  }

  /** The pending attribute lines scan, in front of anything, to themselves pending. */
  ghost predicate AttrRun(pend: seq<string>) {
    forall rest: seq<string> :: Parse(pend + rest, []) == Parse(rest, pend)
  }

  /** Scanning the rewritten file gives the reduced chunks. */
  lemma {:induction false} ParseRendered(lines: seq<string>, pend: seq<string>)
    requires Parse(lines, pend).Chunks? && Good(Parse(lines, pend).chunks) && AttrRun(pend)
    ensures Parse(Render(Parse(lines, pend).chunks), []) == Chunks(Reduce(Parse(lines, pend).chunks))
    decreases |lines|
  {
    hide VisOf, Ends, IsAttr, Brackets, Good, GoodItem, AttrRun, AttrEnd, EndOf, Render, Reduce, Texts;
    EmptyRun();
    if lines == [] {
      TextsRendered(pend);
      RunAlone(pend, []);
      assert pend + [] == pend;
    } else if IsAttr(lines[0]) {
      var k := AttrEnd(lines, 0, Brackets(lines[0])) + 1;
      if k < |lines| {
        LongerRun(lines, pend, k);
        ParseRendered(lines[k..], pend + lines[..k]);
      } else {
        assert lines[k..] == [] && lines[..k] == lines;
        TextsRendered(pend + lines);
        RunAlone(pend, lines);
      }
    } else if VisOf(lines[0]).Vis? {
      var e := EndOf(lines, 0);
      var block, rest := pend + lines[..e + 1], Parse(lines[e + 1..], []).chunks;
      GoodUse(block, rest);
      ParseRendered(lines[e + 1..], []);
      UseRendered(block, rest);
    } else {
      var rest := Parse(lines[1..], []).chunks;
      GoodText(pend, lines[0], rest);
      ParseRendered(lines[1..], []);
      TextRendered(pend, lines[0], rest);
    }
  }

  lemma TextsRendered(lines: seq<string>)
    ensures Render(Texts(lines)) == lines && Reduce(Texts(lines)) == Texts(lines)
  {
  }

  lemma GoodUse(block: seq<string>, rest: seq<Chunk>)
    requires Good([Use(block)] + rest)
    ensures Good(rest) && exists m: nat, t :: GoodItem(block, m, t)
  {
    var c := [Use(block)] + rest;
    assert c[0] == Use(block) && c[1..] == rest;
    GoodTail(c, 1);
  }

  lemma GoodText(pend: seq<string>, l: string, rest: seq<Chunk>)
    requires Good(Texts(pend) + [Text(l)] + rest)
    ensures Good(rest)
  {
    var c, n := Texts(pend) + [Text(l)] + rest, |Texts(pend)| + 1;
    assert c[n..] == rest;
    GoodTail(c, n);
  }

  lemma UseRendered(block: seq<string>, rest: seq<Chunk>)
    requires exists m: nat, t :: GoodItem(block, m, t)
    requires Parse(Render(rest), []) == Chunks(Reduce(rest))
    ensures Parse(Render([Use(block)] + rest), []) == Chunks(Reduce([Use(block)] + rest))
  {
    hide Parse, GoodItem, BindingsOf, AttrsOf, BlockVis;
    var c := [Use(block)] + rest;
    assert c[0] == Use(block) && c[1..] == rest;
    GoodFacts(block);
    ParseEach(AttrsOf(block), BlockVis(block), BindingsOf(block), Render(rest));
    RewriteIs(block);
  }

  lemma TextRendered(pend: seq<string>, l: string, rest: seq<Chunk>)
    requires AttrRun(pend) && !IsAttr(l) && !VisOf(l).Vis?
    requires Parse(Render(rest), []) == Chunks(Reduce(rest))
    ensures Parse(Render(Texts(pend) + [Text(l)] + rest), []) == Chunks(Reduce(Texts(pend) + [Text(l)] + rest))
  {
    hide AttrRun, IsAttr, VisOf, Texts, Render, Reduce, Parse;
    var head := pend + [l];
    TextsSnoc(pend, l);
    TextsRendered(head);
    RenderConcat(Texts(head), rest);
    ReduceConcat(Texts(head), rest);
    RunAlone(pend, [l] + Render(rest));
    assert head + Render(rest) == pend + ([l] + Render(rest));
    ParseTextFirst(l, Render(rest), pend);
  }

  lemma RewriteIs(block: seq<string>)
    ensures Rewrite(block) == RewriteEach(AttrsOf(block), BlockVis(block), BindingsOf(block))
  {
  }

  lemma EmptyRun()
    ensures AttrRun([])
  {
    forall rest: seq<string> ensures Parse([] + rest, []) == Parse(rest, []) {
      assert [] + rest == rest;
    }
  }

  lemma RunAlone(pend: seq<string>, rest: seq<string>)
    requires AttrRun(pend)
    ensures Parse(pend + rest, []) == Parse(rest, pend)
  {
  }

  lemma GoodTail(c: seq<Chunk>, n: nat)
    requires Good(c) && n <= |c|
    ensures Good(c[n..])
    ensures n > 0 && c[0].Use? ==> exists m: nat, t :: GoodItem(c[0].block, m, t)
  {
  }

  /** A whole attribute, its brackets closed, is swallowed the same in front of anything. */
  lemma LongerRun(lines: seq<string>, pend: seq<string>, k: nat)
    requires lines != [] && IsAttr(lines[0]) && AttrRun(pend)
        && k == AttrEnd(lines, 0, Brackets(lines[0])) + 1 < |lines|
    ensures AttrRun(pend + lines[..k])
  {
    hide IsAttr, Brackets, Parse;
    var a := lines[..k];
    forall rest: seq<string> ensures Parse(pend + a + rest, []) == Parse(rest, pend + a) {
      RunThrough(lines, pend, k, rest);
    }
  }

  lemma RunThrough(lines: seq<string>, pend: seq<string>, k: nat, rest: seq<string>)
    requires lines != [] && IsAttr(lines[0]) && AttrRun(pend)
        && k == AttrEnd(lines, 0, Brackets(lines[0])) + 1 < |lines|
    ensures Parse(pend + lines[..k] + rest, []) == Parse(rest, pend + lines[..k])
  {
    hide IsAttr, Brackets, Parse, AttrRun, AttrEnd;
    var a := lines[..k];
    var all := a + rest;
    assert pend + a + rest == pend + all;
    RunAlone(pend, all);
    assert all[0] == lines[0] && all[..k] == a && all[k..] == rest;
    SameAttrEnd(lines, all, 0, Brackets(lines[0]), k);
    ParseAttrFirst(all, pend);
  }

  lemma {:induction false} SameAttrEnd(lines: seq<string>, other: seq<string>, i: nat, d: int, k: nat)
    requires i < k < |lines| && k <= |other| && other[..k] == lines[..k] && AttrEnd(lines, i, d) == k - 1
    ensures AttrEnd(other, i, d) == k - 1
    decreases k - i
  {
    if d > 0 {
      assert i + 1 < k;
      assert other[i + 1] == other[..k][i + 1] == lines[..k][i + 1] == lines[i + 1];
      SameAttrEnd(lines, other, i + 1, d + Brackets(lines[i + 1]), k);
    }
  }

  lemma {:induction false} ReduceConcat(a: seq<Chunk>, b: seq<Chunk>)
    ensures Reduce(a + b) == Reduce(a) + Reduce(b)
  {
    hide BindingsOf, AttrsOf, BlockVis;
    if a == [] {
      assert a + b == b;
    } else {
      assert (a + b)[1..] == a[1..] + b;
      ReduceConcat(a[1..], b);
    }
  }

  // ------------------------------------------------------- meaning kept

  /** Everything the file binds, in order. */
  function AllBindings(blocks: seq<seq<string>>): seq<Binding> {
    if blocks == [] then [] else BindingsOf(blocks[0]) + AllBindings(blocks[1..])
  }

  lemma {:induction false} AllBindingsConcat(a: seq<seq<string>>, b: seq<seq<string>>)
    ensures AllBindings(a + b) == AllBindings(a) + AllBindings(b)
  {
    hide BindingsOf;
    if a == [] {
      assert a + b == b;
    } else {
      assert (a + b)[1..] == a[1..] + b;
      AllBindingsConcat(a[1..], b);
    }
  }

  lemma {:induction false} EachKept(attrs: seq<string>, vis: string, bs: seq<Binding>)
    requires AllSingle(attrs) && GoodVis(vis) && AllPrintable(bs)
    ensures OtherLines(UsesEach(attrs, vis, bs)) == []
    ensures AllBindings(Items(UsesEach(attrs, vis, bs))) == bs
    ensures Render(UsesEach(attrs, vis, bs)) == RewriteEach(attrs, vis, bs)
    decreases |bs|
  {
    if bs != [] {
      hide LineOf, BindingsOf, AttrsOf, BlockVis, Printable, SingleAttr, GoodVis, Rewrite, GoodItem;
      var block, more := attrs + [LineOf(vis, bs[0])], UsesEach(attrs, vis, bs[1..]);
      EachKept(attrs, vis, bs[1..]);
      ItemBinds(attrs, vis, bs[0]);
      OneRewritten(attrs, vis, bs[0]);
      EachStep(block, more);
      assert bs == [bs[0]] + bs[1..];
    }
  }

  lemma EachStep(block: seq<string>, more: seq<Chunk>)
    ensures OtherLines([Use(block)] + more) == OtherLines(more) && Items([Use(block)] + more) == [block] + Items(more)
    ensures AllBindings([block] + Items(more)) == BindingsOf(block) + AllBindings(Items(more))
    ensures Render([Use(block)] + more) == Rewrite(block) + Render(more)
  {
    hide BindingsOf, Rewrite;
    assert ([Use(block)] + more)[1..] == more && ([block] + Items(more))[1..] == Items(more);
  }

  lemma OneRewritten(attrs: seq<string>, vis: string, b: Binding)
    requires var block := attrs + [LineOf(vis, b)];
      AttrsOf(block) == attrs && BlockVis(block) == vis && BindingsOf(block) == [b]
    ensures Rewrite(attrs + [LineOf(vis, b)]) == attrs + [LineOf(vis, b)]
  {
    hide LineOf, BindingsOf, AttrsOf, BlockVis;
    RewriteIs(attrs + [LineOf(vis, b)]);
    assert [b][1..] == [] && RewriteEach(attrs, vis, []) == [];
  }

  /** The same other lines, the same bindings, and the same text when rewritten. */
  predicate SameMeaning(a: seq<Chunk>, b: seq<Chunk>) {
    OtherLines(a) == OtherLines(b) && AllBindings(Items(a)) == AllBindings(Items(b)) && Render(a) == Render(b)
  }

  lemma {:induction false} ReduceKeeps(c: seq<Chunk>)
    requires Good(c)
    ensures SameMeaning(Reduce(c), c)
    decreases |c|
  {
    hide GoodItem, Good, Reduce, SameMeaning;
    if c == [] {
      NothingKept();
    } else {
      GoodTail(c, 1);
      ReduceKeeps(c[1..]);
      assert c == [c[0]] + c[1..];
      if c[0].Text? {
        TextKept(c[0].line, c[1..]);
      } else {
        UseKept(c[0].block, c[1..]);
      }
    }
  }

  lemma NothingKept()
    ensures SameMeaning(Reduce([]), [])
  {
  }

  lemma TextKept(l: string, rest: seq<Chunk>)
    requires SameMeaning(Reduce(rest), rest)
    ensures SameMeaning(Reduce([Text(l)] + rest), [Text(l)] + rest)
  {
    hide BindingsOf, AttrsOf, BlockVis, Rewrite, UsesEach, AllBindings;
    var c := [Text(l)] + rest;
    assert c[0] == Text(l) && c[1..] == rest && Reduce(c) == [Text(l)] + Reduce(rest);
    assert ([Text(l)] + Reduce(rest))[1..] == Reduce(rest);
    assert Items(c) == [] + Items(rest) == Items(rest);
    assert Items(Reduce(c)) == [] + Items(Reduce(rest)) == Items(Reduce(rest));
  }

  lemma UseKept(b: seq<string>, rest: seq<Chunk>)
    requires exists m: nat, t :: GoodItem(b, m, t)
    requires SameMeaning(Reduce(rest), rest)
    ensures SameMeaning(Reduce([Use(b)] + rest), [Use(b)] + rest)
  {
    hide GoodItem, BindingsOf, AttrsOf, BlockVis;
    var c := [Use(b)] + rest;
    var uses := UsesEach(AttrsOf(b), BlockVis(b), BindingsOf(b));
    assert c[0] == Use(b) && c[1..] == rest && Reduce(c) == uses + Reduce(rest);
    GoodFacts(b);
    EachKept(AttrsOf(b), BlockVis(b), BindingsOf(b));
    OtherLinesConcat(uses, Reduce(rest));
    ItemsConcat(uses, Reduce(rest));
    RenderConcat(uses, Reduce(rest));
    AllBindingsConcat(Items(uses), Items(Reduce(rest)));
    RewriteIs(b);
    assert ([b] + Items(rest))[1..] == Items(rest);
  }

  /** `explode` keeps every other line in order and everything the file binds in order, and a
      second run changes nothing. */
  lemma ExplodeKeepsMeaning(lines: seq<string>)
    requires Parse(lines, []).Chunks? && Good(Parse(lines, []).chunks)
    ensures var c := Parse(lines, []).chunks;
      var out := Render(c);
      && Parse(out, []).Chunks?
      && OtherLines(Parse(out, []).chunks) == OtherLines(c)
      && AllBindings(Items(Parse(out, []).chunks)) == AllBindings(Items(c))
      && Render(Parse(out, []).chunks) == out
  {
    EmptyRun();
    ParseRendered(lines, []);
    ReduceKeeps(Parse(lines, []).chunks);
  }
}
