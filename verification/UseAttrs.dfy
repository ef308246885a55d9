/** What `flatten` (tools/use-only-diff.py) makes of a `use` under an attribute with brackets inside:
    the attribute is taken off up to its first `]` only, and if that leaves something the whole text
    is bound. */
module UseAttrs {
  import opened Text
  import opened UseTree
  import opened UseItems
  import opened UseLayout
  import opened UseRewrite

  // ------------------------------------------------------- text without braces

  predicate NoBrace(s: string) { forall i :: 0 <= i < |s| ==> s[i] != '{' && s[i] != '}' }

  predicate Opens(s: string) { |s| >= 2 && s[0] == '#' && s[1] == '[' }

  lemma {:induction false} SkipSpaceBrace(s: string)
    requires NoBrace(s)
    ensures NoBrace(SkipSpace(s))
  {
    if s != "" { SkipSpaceBrace(s[1..]); }
  }

  lemma {:induction false} CollapseBrace(s: string)
    requires NoBrace(s)
    ensures NoBrace(Collapse(s)) && NoBrace(CollapseRest(s))
  {
    if s != "" { CollapseBrace(s[1..]); }
  }

  lemma {:induction false} TightenBrace(s: string)
    requires NoBrace(s)
    ensures NoBrace(Tighten(s))
    decreases |s|
  {
    if s != "" {
      var t := SkipSpace(s);
      SkipSpaceBrace(s);
      if Token(t) > 0 {
        SkipSpaceBrace(t[Token(t)..]);
        TightenBrace(SkipSpace(t[Token(t)..]));
      } else {
        TightenBrace(s[1..]);
      }
    }
  }

  lemma CollapseOpens(s: string)
    requires Opens(s)
    ensures Opens(Collapse(s))
  {
    assert Collapse(s) == [s[0]] + CollapseRest(s[1..]) && CollapseRest(s[1..]) == [s[1]] + CollapseRest(s[1..][1..]);
  }

  lemma TightenOpens(s: string)
    requires Opens(s)
    ensures Opens(Tighten(s))
  {
    var r := s[1..];
    assert Token(s) == 0 && Token(r) == 0 by {
      assert !StartsWith(s, "::") by { assert s[..2][0] == '#'; }
      assert |r| >= 2 ==> r[..2][0] == '[';
    }
    assert Tighten(s) == [s[0]] + Tighten(r) && Tighten(r) == [r[0]] + Tighten(r[1..]);
  }

  lemma {:induction false} EndsCut(s: string)
    requires Opens(s) && NoBrace(s)
    ensures Opens(TrimEnd(s)) && NoBrace(TrimEnd(s))
    ensures Opens(StripSemicolons(s)) && NoBrace(StripSemicolons(s))
  {
    if |s| > 2 { EndsCut(s[..|s| - 1]); }
  }

  /** Text that begins with `#[` is cleaned to such text. */
  lemma CleanOpens(block: seq<string>)
    requires var s := JoinLines(block); Opens(s) && NoBrace(s) && StripHead(s) == s
    ensures Opens(Clean(block)) && NoBrace(Clean(block))
  {
    hide JoinLines, StripHead, Collapse, CollapseRest, Tighten, TrimEnd, StripSemicolons;
    var s := JoinLines(block);
    CollapseOpens(s);
    CollapseBrace(s);
    TightenOpens(Collapse(s));
    TightenBrace(Collapse(s));
    var k := Tighten(Collapse(s));
    assert SkipSpace(k) == k;
    EndsCut(k);
    EndsCut(TrimEnd(k));
  }

  // ------------------------------------------------------- what it binds

  /** The first part of such text. */
  lemma {:induction false} FirstPart(s: string, cur: string)
    requires NoBrace(s)
    ensures cur <= SplitFrom(s, 0, cur)[0] && (NoBrace(cur) ==> NoBrace(SplitFrom(s, 0, cur)[0]))
    decreases |s|
  {
    if s != "" && s[0] != ',' {
      FirstPart(s[1..], cur + [s[0]]);
      assert cur <= cur + [s[0]];
    }
  }

  lemma FirstPartOpens(s: string)
    requires Opens(s) && NoBrace(s)
    ensures Opens(SplitFrom(s, 0, "")[0]) && NoBrace(SplitFrom(s, 0, "")[0])
  {
    var r := s[2..];
    assert s == "#[" + r && NoBrace(r) by { assert s[..2] == "#["; }
    ScanNames("#[", 0);
    SplitPasses("#[", r, 0, "");
    assert "" + "#[" == "#[";
    FirstPart(r, "#[");
  }

  lemma LeafOpens(p: string)
    requires Opens(p) && NoBrace(p)
    ensures !IsGroup(p) && Opens(LeafOf("", p).full)
  {
    hide SplitPath;
    var at := Find(p, " as ", 0);
    assert !Occurs(p, " as ", 0) by { assert |p| >= 4 ==> p[0..4][0] == '#'; }
    assert !Occurs(p, " as ", 1) by { assert |p| >= 5 ==> p[1..5][0] == '['; }
    assert at >= 2;
    assert p != "self" by { assert "self"[0] == 's'; }
  }

  /** The first path bound begins with the attribute. */
  lemma BindsAttr(s: string)
    requires Opens(s) && NoBrace(s)
    ensures Walk("", s) != [] && Opens(Walk("", s)[0].full)
  {
    hide SplitFrom, LeafOf;
    var parts := SplitFrom(s, 0, "");
    FirstPartOpens(s);
    LeafOpens(parts[0]);
    NextPart("", parts, 0, |s|);
    PartCases("", parts[0]);
  }

  /** No path of a tree does. */
  lemma TreeBindsNone(t: Tree)
    requires WellFormed(t, false) && (t.Path? || t.Alias?)
    ensures |Bindings([], t)| == 1 && !Opens(Bindings([], t)[0].full)
  {
    assert [] + t.segs == t.segs;
    JoinChars(t.segs);
  }

  // ------------------------------------------------------- the condition

  /** Nothing is taken off a text whose attributes leave a bracket or the like. */
  lemma NothingTaken(l: string, more: string)
    requires AttrLine(l) && more != "" && !Space(more[0])
    requires SkipAttrs(l) != "" && SkipAttrs(l)[0] != 'p' && SkipAttrs(l)[0] != 'u' && !Space(SkipAttrs(l)[0])
    ensures StripHead(l + "\n" + more) == l + "\n" + more
  {
    hide SkipAttrs;
    var s := l + "\n" + more;
    assert s[0] == l[0] == '#' by { assert l[..2][0] == '#'; }
    assert SkipSpace(s) == s;
    SkipRun(l, more);
    var r := SkipAttrs(s);
    assert r[0] == SkipAttrs(l)[0];
    assert !StartsWith(r, "pub") by { assert |r| >= 3 ==> r[..3][0] == r[0]; }
    assert SkipPub(r) == r && SkipSpace(r) == r;
    assert !StartsWith(r, "use") by { assert |r| >= 3 ==> r[..3][0] == r[0]; }
  }

  /** A statement of one path under a line of attributes binds that path iff every attribute ends
      with its first `]`; whether it does or not, the scan takes both as one item. */
  lemma AttrIff(l: string, lines: seq<string>, vis: string, t: Tree, rest: seq<string>)
    requires AttrLine(l) && NoBrace(l) && lines != [] && GoodVis(vis) && NoBrace(JoinLines(lines))
    requires forall i :: 0 <= i < |vis| ==> vis[i] != ';' && vis[i] != '\n'
    requires WellFormed(t, false) && (t.Path? || t.Alias?) && IsLayout(JoinLines(lines), vis, t)
    requires SkipAttrs(l) != "" ==> SkipAttrs(l)[0] !in {'p', 'u'} && !Space(SkipAttrs(l)[0])
    ensures Parse([l] + lines + rest, []) == Then([Use([l] + lines)], Parse(rest, []))
    ensures BindingsOf([l] + lines) == Bindings([], t) <==> SkipAttrs(l) == ""
  {
    hide SkipAttrs, Clean, Walk, Parse, VisOf, Ends, IsLayout, JoinLines, WellFormed, StripHead, Brackets;
    OneItem(l, lines, vis, t, rest);
    if SkipAttrs(l) == "" {
      assert SingleAttr(l);
      LeafQuiet(t);
      StatementBinds([l], lines, vis, t);
    } else {
      var text := JoinLines(lines);
      LayoutStarts(text, vis, t);
      JoinTwo(l, lines);
      NothingTaken(l, text);
      OpensLine(l, text);
      CleanOpens([l] + lines);
      BindsAttr(Clean([l] + lines));
      TreeBindsNone(t);
    }
  }

  lemma LeafQuiet(t: Tree)
    requires t.Path? || t.Alias?
    ensures Quiet(t)
  {
  }

  lemma OpensLine(l: string, text: string)
    requires AttrLine(l) && NoBrace(l) && NoBrace(text)
    ensures Opens(l + "\n" + text) && NoBrace(l + "\n" + text)
  {
    assert l[0] == l[..2][0] == '#' && l[1] == l[..2][1] == '[';
  }

  lemma JoinTwo(l: string, lines: seq<string>)
    requires lines != []
    ensures JoinLines([l] + lines) == l + "\n" + JoinLines(lines)
  {
    assert ([l] + lines)[1..] == lines;
  }

  lemma LayoutStarts(text: string, vis: string, t: Tree)
    requires GoodVis(vis) && IsLayout(text, vis, t)
    ensures text != "" && !Space(text[0])
  {
    hide Pieces, IsTail, Body;
    var gaps, tail :| AreGaps(Pieces(t), gaps) && IsTail(Pieces(t), tail)
      && text == vis + "use " + Body(Pieces(t), gaps, tail);
    assert text == vis + ("use " + Body(Pieces(t), gaps, tail));
    if vis != "" { assert text[0] == vis[0] && (|vis| >= 4 ==> vis[..4][0] == vis[0]); }
  }

  lemma OneItem(l: string, lines: seq<string>, vis: string, t: Tree, rest: seq<string>)
    requires AttrLine(l) && lines != [] && GoodVis(vis)
    requires forall i :: 0 <= i < |vis| ==> vis[i] != ';' && vis[i] != '\n'
    requires WellFormed(t, false) && IsLayout(JoinLines(lines), vis, t)
    ensures Parse([l] + lines + rest, []) == Then([Use([l] + lines)], Parse(rest, []))
  {
    hide VisOf, IsAttr, Ends, Parse, JoinLines, WellFormed, Pieces, Body;
    var gaps, tail :| AreGaps(Pieces(t), gaps) && IsTail(Pieces(t), tail)
      && JoinLines(lines) == vis + "use " + Body(Pieces(t), gaps, tail);
    FirstLine(lines, vis, Body(Pieces(t), gaps, tail));
    LayoutSemicolon(JoinLines(lines), vis, t);
    LastLineEnds(lines);
    ParseItem([l], lines, rest, []);
    assert [] + [l] + lines == [l] + lines;
  }

  // ------------------------------------------------------- two statements it gets wrong

  lemma OneName(name: string)
    requires Ident(name) && name != "self"
    ensures WellFormed(Path([name]), false) && Pieces(Path([name])) == [Word(name)] && Print(Path([name])) == name
  {
    assert PathPieces([name]) == [Word(name)];
  }

  lemma PlainLayout(name: string, tail: string)
    requires Ident(name) && name != "self" && AllSpace(tail)
    ensures AreGaps(Pieces(Path([name])), [""])
    ensures "use " + name + tail + ";" == "" + "use " + Body(Pieces(Path([name])), [""], tail)
    ensures tail == "" ==> IsLayout("use " + name + ";", "", Path([name]))
  {
    OneName(name);
    var ps := [Word(name)];
    assert ps[1..] == [] && [""][1..] == [];
    assert Spread(ps, [""]) == "" + name + Spread([], []) && Spread([], []) == "";
    assert Body(ps, [""], tail) == name + tail + ";";
    assert "use " + name + tail + ";" == "" + "use " + (name + tail + ";");
    assert AreGaps(ps, [""]) && (tail == "" ==> IsTail(ps, tail));
    if tail == "" { assert "use " + name + "" + ";" == "use " + name + ";"; }
  }

  /** An attribute with brackets inside. */
  lemma BracketedAttr()
    ensures Parse(["#[a[b]]", "use c;"], []) == Chunks([Use(["#[a[b]]", "use c;"])])
    ensures BindingsOf(["#[a[b]]", "use c;"]) != Bindings([], Path(["c"]))
  {
    hide SkipAttrs, Parse, BindingsOf, IsLayout, Bindings, WellFormed, Brackets, IsAttr;
    var l, lines, t := "#[a[b]]", ["use c;"], Path(["c"]);
    assert JoinLines(lines) == "use c;" == "use " + "c" + ";";
    PlainLayout("c", "");
    OneName("c");
    BracketedLine(l);
    AttrIff(l, lines, "", t, []);
    assert [l] + lines + [] == ["#[a[b]]", "use c;"] == [l] + lines;
    ParseNothing();
  }

  lemma ParseNothing()
    ensures Then([Use(["#[a[b]]", "use c;"])], Parse([], [])) == Chunks([Use(["#[a[b]]", "use c;"])])
  {
  }

  lemma BracketedLine(l: string)
    requires l == "#[a[b]]"
    ensures AttrLine(l) && NoBrace(l) && SkipAttrs(l) == "]"
  {
    assert l[..2] == "#[" && StartsWith(l, "#[");
    assert l[1..] == "[a[b]]" && l[1..][1..] == "a[b]]" && "a[b]]"[1..] == "[b]]" && "[b]]"[1..] == "b]]";
    assert "b]]"[1..] == "]]" && "]]"[1..] == "]" && "]"[1..] == "";
    assert Brackets("]") == -1 && Brackets("]]") == -2 && Brackets("b]]") == -2;
    assert Brackets("[b]]") == -1 && Brackets("a[b]]") == -1 && Brackets("[a[b]]") == 0;
    assert CloseBracket(l, 5) == 5 && CloseBracket(l, 4) == 5 && CloseBracket(l, 3) == 5 && CloseBracket(l, 2) == 5;
    AttrStep(l, 5);
    assert l[6..] == "]" && SkipSpace("]") == "]" && SkipAttrs("]") == "]";
  }

  /** A space in front of the semicolon. */
  lemma SpacedSemicolon()
    ensures BindingsOf(["use a ;"]) != Bindings([], Path(["a"]))
  {
    hide BindingsOf, Bindings, WellFormed, Pieces, Body;
    var t := Path(["a"]);
    OneName("a");
    PlainLayout("a", " ");
    LeafQuiet(t);
    assert JoinLines(["use a ;"]) == "use a ;" == "use " + "a" + " " + ";";
    assert [] + ["use a ;"] == ["use a ;"];
    TailIff([], ["use a ;"], "", t, [""], " ");
  }
}
