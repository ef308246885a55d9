/** How a `use` statement may be laid out: white space and line breaks around its punctuation, as
    rustfmt writes a long group, and the clean-up that takes them away
    (tools/use-only-diff.py, the two substitutions of `flatten`). */
module UseLayout {
  import opened Text
  import opened UseTree
  import opened UseItems

  // ------------------------------------------------------- pieces

  datatype Piece = Word(text: string) | Punct(text: string)

  predicate IsPiece(p: Piece) {
    if p.Word? then Ident(p.text) else p.text in {"::", "{", "}", ","}
  }

  predicate ArePieces(ps: seq<Piece>) {
    forall i :: 0 <= i < |ps| ==> IsPiece(ps[i])
  }

  function PathPieces(segs: seq<string>): seq<Piece> {
    if segs == [] then []
    else if |segs| == 1 then [Word(segs[0])]
    else [Word(segs[0]), Punct("::")] + PathPieces(segs[1..])
  }

  function Pieces(t: Tree): seq<Piece>
    decreases t, 0
  {
    match t
    case Path(segs) => PathPieces(segs)
    case Alias(segs, name) => PathPieces(segs) + [Word("as"), Word(name)]
    case SelfLeaf => [Word("self")]
    case Group(segs, items, trailing) => OpenPieces(segs) + ItemPieces(items, trailing) + [Punct("}")]
  }

  function OpenPieces(segs: seq<string>): seq<Piece> {
    if segs == [] then [Punct("{")] else PathPieces(segs) + [Punct("::"), Punct("{")]
  }

  function ItemPieces(items: seq<Tree>, trailing: bool): seq<Piece>
    decreases items, 1
  {
    if items == [] then (if trailing then [Punct(",")] else [])
    else if |items| == 1 && !trailing then Pieces(items[0])
    else if |items| == 1 then Pieces(items[0]) + [Punct(",")]
    else Pieces(items[0]) + [Punct(",")] + ItemPieces(items[1..], trailing)
  }

  /** Two words need something between them. */
  predicate Clash(ps: seq<Piece>, k: nat) {
    0 < k < |ps| && ps[k - 1].Word? && ps[k].Word?
  }

  /** The pieces with nothing between them but a space between two words. */
  function Tight(ps: seq<Piece>): string {
    if ps == [] then "" else ps[0].text + (if Clash(ps, 1) then " " else "") + Tight(ps[1..])
  }

  lemma {:induction false} TightConcat(a: seq<Piece>, b: seq<Piece>)
    requires !Clash(a + b, |a|)
    ensures Tight(a + b) == Tight(a) + Tight(b)
  {
    if a == [] {
      assert a + b == b;
    } else {
      assert (a + b)[1..] == a[1..] + b && (a + b)[0] == a[0];
      assert |a| > 1 ==> !Clash(a[1..] + b, |a| - 1) && (Clash(a + b, 1) <==> Clash(a, 1));
      TightConcat(a[1..], b);
    }
  }

  lemma ArePiecesConcat(a: seq<Piece>, b: seq<Piece>)
    requires ArePieces(a) && ArePieces(b)
    ensures ArePieces(a + b)
  {
  }

  lemma {:induction false} PathTight(segs: seq<string>)
    requires segs != [] && Idents(segs)
    ensures Tight(PathPieces(segs)) == JoinPath(segs) && ArePieces(PathPieces(segs))
    ensures PathPieces(segs) != [] && PathPieces(segs)[|PathPieces(segs)| - 1].Word?
  {
    assert Ident(segs[0]);
    if |segs| > 1 {
      var rest := PathPieces(segs[1..]);
      PathTight(segs[1..]);
      hide PathPieces, JoinPath, Ident, Tight;
      PathStep(segs, rest);
      var ps := PathPieces(segs);
      ColonTight(segs[0], rest);
      assert ps[|ps| - 1] == rest[|rest| - 1];
      ArePiecesConcat([Word(segs[0]), Punct("::")], rest);
    }
  }

  lemma PathStep(segs: seq<string>, rest: seq<Piece>)
    requires |segs| > 1 && rest == PathPieces(segs[1..])
    ensures PathPieces(segs) == [Word(segs[0]), Punct("::")] + rest
    ensures JoinPath(segs) == segs[0] + "::" + JoinPath(segs[1..])
  {
  }

  lemma ColonTight(name: string, rest: seq<Piece>)
    ensures Tight([Word(name), Punct("::")] + rest) == name + "::" + Tight(rest)
  {
    var ps := [Word(name), Punct("::")] + rest;
    assert ps[1..] == [Punct("::")] + rest && ps[1..][1..] == rest;
    assert Tight(ps[1..]) == "::" + "" + Tight(rest);
    assert Tight(ps) == name + "" + Tight(ps[1..]);
    hide Tight;
    assert "::" + "" + Tight(rest) == "::" + Tight(rest);
    assert name + "" + ("::" + Tight(rest)) == name + "::" + Tight(rest);
  }

  /** The pieces of a tree spell its printed form. */
  lemma {:induction false} PiecesPrint(t: Tree, prefixed: bool)
    requires WellFormed(t, prefixed)
    ensures Tight(Pieces(t)) == Print(t) && ArePieces(Pieces(t)) && Pieces(t) != []
    decreases t, 0
  {
    match t
    case Path(segs) => PathTight(segs);
    case Alias(segs, name) =>
      PathTight(segs);
      AliasTight(PathPieces(segs), name);
    case SelfLeaf =>
    case Group(segs, items, trailing) =>
      var open, inner := OpenPieces(segs), ItemPieces(items, trailing);
      OpenTight(segs);
      ItemsPrint(items, trailing, prefixed || segs != []);
      TightConcat(open, inner);
      ArePiecesConcat(open, inner);
      TightConcat(open + inner, [Punct("}")]);
      CommaTight();
      ArePiecesConcat(open + inner, [Punct("}")]);
  }

  lemma {:induction false} AliasTight(ps: seq<Piece>, name: string)
    requires ps != [] && ps[|ps| - 1].Word?
    ensures Tight(ps + [Word("as"), Word(name)]) == Tight(ps) + " as " + name
  {
    var as2 := [Word("as"), Word(name)];
    if |ps| == 1 {
      var all := ps + as2;
      assert all[1..] == as2 && as2[1..] == [Word(name)] && Tight([Word(name)]) == name;
      assert Tight(as2) == "as" + " " + name;
    } else {
      assert (ps + as2)[1..] == ps[1..] + as2;
      AliasTight(ps[1..], name);
    }
  }

  lemma OpenTight(segs: seq<string>)
    requires Idents(segs)
    ensures Tight(OpenPieces(segs)) == OpenText(segs) && ArePieces(OpenPieces(segs))
    ensures OpenPieces(segs) != [] && OpenPieces(segs)[|OpenPieces(segs)| - 1].Punct?
  {
    if segs != [] {
      var q := [Punct("::"), Punct("{")];
      PathTight(segs);
      TightConcat(PathPieces(segs), q);
      assert q[1..] == [Punct("{")] && Tight([Punct("{")]) == "{";
      assert Tight(q) == "::{";
    }
  }

  lemma {:induction false} ItemsPrint(items: seq<Tree>, trailing: bool, prefixed: bool)
    requires AllWellFormed(items, prefixed)
    ensures Tight(ItemPieces(items, trailing)) == PrintItems(items, trailing) && ArePieces(ItemPieces(items, trailing))
    decreases items, 1
  {
    hide Pieces, Print, WellFormed, IsPiece, Tight;
    var comma := [Punct(",")];
    CommaTight();
    if items != [] {
      var first := Pieces(items[0]);
      PiecesPrint(items[0], prefixed);
      TightConcat(first, comma);
      ArePiecesConcat(first, comma);
      if |items| > 1 {
        var rest := ItemPieces(items[1..], trailing);
        ItemsPrint(items[1..], trailing, prefixed);
        TightConcat(first + comma, rest);
        ArePiecesConcat(first + comma, rest);
      }
    }
  }

  lemma CommaTight()
    ensures Tight([Punct(",")]) == "," && Tight([Punct("}")]) == "}" && Tight([]) == ""
    ensures ArePieces([Punct(",")]) && ArePieces([Punct("}")])
  {
  }

  // ------------------------------------------------------- layouts

  predicate AllSpace(g: string) { forall i :: 0 <= i < |g| ==> Space(g[i]) }

  /** White space in front of each piece; something between two words. */
  predicate AreGaps(ps: seq<Piece>, gaps: seq<string>) {
    |gaps| == |ps| && forall k :: 0 <= k < |ps| ==> AllSpace(gaps[k]) && (Clash(ps, k) ==> gaps[k] != "")
  }

  /** White space before the semicolon goes only after punctuation. */
  predicate IsTail(ps: seq<Piece>, tail: string) {
    AllSpace(tail) && (ps != [] && ps[|ps| - 1].Word? ==> tail == "")
  }

  /** The space that stays in front of the semicolon elsewhere. */
  function Slack(ps: seq<Piece>, tail: string): string { if IsTail(ps, tail) then "" else " " }

  function Spread(ps: seq<Piece>, gaps: seq<string>): string
    requires |gaps| == |ps|
  {
    if ps == [] then "" else gaps[0] + ps[0].text + Spread(ps[1..], gaps[1..])
  }

  /** The text of a statement after `use `, its semicolon included. */
  function Body(ps: seq<Piece>, gaps: seq<string>, tail: string): string
    requires |gaps| == |ps|
  {
    Spread(ps, gaps) + tail + ";"
  }

  lemma BodyStep(ps: seq<Piece>, gaps: seq<string>, tail: string)
    requires |gaps| == |ps|
    ensures ps == [] ==> Body(ps, gaps, tail) == tail + ";"
    ensures ps != [] ==> Body(ps, gaps, tail) == gaps[0] + (ps[0].text + Body(ps[1..], gaps[1..], tail))
  {
    if ps == [] { assert Spread(ps, gaps) + tail == tail; }
  }

  lemma GapsTail(ps: seq<Piece>, gaps: seq<string>, tail: string)
    requires ps != [] && ArePieces(ps) && AreGaps(ps, gaps) && AllSpace(tail)
    ensures ArePieces(ps[1..]) && AreGaps(ps[1..], gaps[1..])
    ensures |ps| > 1 ==> Slack(ps[1..], tail) == Slack(ps, tail)
  {
    forall k | 0 <= k < |ps[1..]| ensures AllSpace(gaps[1..][k]) && (Clash(ps[1..], k) ==> gaps[1..][k] != "") {
      assert gaps[1..][k] == gaps[k + 1] && (Clash(ps[1..], k) ==> Clash(ps, k + 1));
    }
  }

  function Unit(g: string): string { if g == "" then "" else " " }

  function Units(gaps: seq<string>): (u: seq<string>)
    ensures |u| == |gaps| && forall k :: 0 <= k < |u| ==> u[k] == Unit(gaps[k])
  {
    seq(|gaps|, k requires 0 <= k < |gaps| => Unit(gaps[k]))
  }

  // ------------------------------------------------------- white space collapses

  lemma {:induction false} CollapseGap(g: string, s: string)
    requires AllSpace(g)
    ensures Collapse(g + s) == Collapse(s)
    ensures s != "" && !Space(s[0]) ==> CollapseRest(g + s) == Unit(g) + CollapseRest(s)
  {
    if g == "" {
      assert g + s == s;
    } else {
      assert (g + s)[1..] == g[1..] + s && (g + s)[0] == g[0];
      CollapseGap(g[1..], s);
    }
  }

  lemma {:induction false} CollapseText(w: string, s: string)
    requires w != "" && forall i :: 0 <= i < |w| ==> !Space(w[i])
    ensures Collapse(w + s) == w + CollapseRest(s)
    ensures CollapseRest(w + s) == w + CollapseRest(s)
    decreases |w|
  {
    assert (w + s)[1..] == w[1..] + s && (w + s)[0] == w[0] && w == [w[0]] + w[1..];
    if |w| == 1 {
      assert w[1..] + s == s;
    } else {
      CollapseText(w[1..], s);
    }
  }

  lemma PieceText(p: Piece)
    requires IsPiece(p)
    ensures p.text != "" && forall i :: 0 <= i < |p.text| ==> !Space(p.text[i]) && p.text[i] != ';'
    ensures if p.Word? then Ident(p.text) else p.text in {"::", "{", "}", ","}
  {
  }

  lemma {:induction false} CollapseBody(ps: seq<Piece>, gaps: seq<string>, tail: string)
    requires ArePieces(ps) && AreGaps(ps, gaps) && AllSpace(tail)
    ensures CollapseRest(Body(ps, gaps, tail)) == Body(ps, Units(gaps), Unit(tail))
    ensures ps != [] ==> Collapse(Body(ps, gaps, tail)) == Body(ps, Units(gaps)[0 := ""], Unit(tail))
    decreases |ps|
  {
    hide IsPiece, Collapse, CollapseRest, Body;
    BodyStep(ps, gaps, tail);
    BodyStep(ps, Units(gaps), Unit(tail));
    if ps == [] {
      CollapseGap(tail, ";");
      CollapseEnd();
    } else {
      var rest := Body(ps[1..], gaps[1..], tail);
      var units := Units(gaps)[0 := ""];
      GapsTail(ps, gaps, tail);
      CollapseBody(ps[1..], gaps[1..], tail);
      PieceText(ps[0]);
      var s := ps[0].text + rest;
      CollapseGap(gaps[0], s);
      CollapseText(ps[0].text, rest);
      assert Units(gaps)[1..] == Units(gaps[1..]) == units[1..];
      BodyStep(ps, units, Unit(tail));
      assert "" + (ps[0].text + Body(ps[1..], units[1..], Unit(tail)))
           == ps[0].text + Body(ps[1..], units[1..], Unit(tail));
    }
  }

  lemma CollapseEnd()
    ensures CollapseRest(";") == ";"
  {
  }

  // ------------------------------------------------------- and goes around punctuation

  lemma SkipGap(g: string, s: string)
    requires (g == "" || g == " ") && s != "" && !Space(s[0])
    ensures SkipSpace(g + s) == s && SkipSpace(s) == s
  {
    if g == "" { assert g + s == s; } else { assert (g + s)[1..] == s; }
  }

  lemma {:induction false} TightenWord(w: string, s: string)
    requires Ident(w)
    ensures Tighten(w + s) == w + Tighten(s)
    decreases |w|
  {
    var t := w + s;
    assert t[1..] == w[1..] + s && t[0] == w[0] && w == [w[0]] + w[1..];
    assert Token(t) == 0 by { if |t| >= 2 { assert t[..2][0] == w[0] && "::"[0] == ':'; } }
    if |w| == 1 {
      assert w[1..] + s == s;
    } else {
      TightenWord(w[1..], s);
    }
  }

  lemma TightenPunct(q: string, s: string, g: string)
    requires q in {"::", "{", "}", ","} && (g == "" || g == " ")
    ensures Tighten(g + (q + s)) == q + Tighten(SkipSpace(s))
  {
    var t := q + s;
    SkipGap(g, t);
    assert t[..|q|] == q && t[|q|..] == s;
    assert Token(t) == |q| by {
      if q != "::" && |t| >= 2 { assert t[..2][0] == q[0] && "::"[0] == ':'; }
    }
  }

  lemma TightenSpaced(w: string, s: string)
    requires Ident(w)
    ensures Tighten(" " + (w + s)) == " " + Tighten(w + s)
  {
    var t := w + s;
    SkipGap(" ", t);
    assert Token(t) == 0 by { if |t| >= 2 { assert t[..2][0] == w[0] && "::"[0] == ':'; } }
    assert (" " + t)[1..] == t;
  }

  lemma TightenEnd(tail: string)
    requires tail == "" || tail == " "
    ensures Tighten(SkipSpace(tail + ";")) == ";" && Tighten(tail + ";") == tail + ";"
  {
    SkipGap(tail, ";");
    var s := tail + ";";
    assert Token(";") == 0 && "" + ";" == ";" && (tail == " " ==> s[1..] == ";" && Token(s) == 0);
  }

  predicate AreUnits(gaps: seq<string>) { forall k :: 0 <= k < |gaps| ==> gaps[k] == "" || gaps[k] == " " }

  lemma {:induction false} TightenBody(ps: seq<Piece>, gaps: seq<string>, tail: string)
    requires ArePieces(ps) && AreGaps(ps, gaps) && AreUnits(gaps) && AreUnits([tail])
    ensures Tighten(SkipSpace(Body(ps, gaps, tail))) == Tight(ps) + Slack(ps, tail) + ";"
    ensures Tighten(Body(ps, gaps, tail))
      == (if ps == [] then tail else if ps[0].Word? then gaps[0] else "") + Tight(ps) + Slack(ps, tail) + ";"
    decreases |ps|
  {
    hide Tighten, SkipSpace, Body, IsPiece, AllSpace, Tight, IsTail;
    BodyStep(ps, gaps, tail);
    assert tail == [tail][0];
    TightStep(ps, tail);
    if ps == [] {
      TightenEnd(tail);
      assert tail + "" + "" + ";" == tail + ";";
    } else {
      var rest := Body(ps[1..], gaps[1..], tail);
      UnitSpace(tail);
      GapsTail(ps, gaps, tail);
      TightenBody(ps[1..], gaps[1..], tail);
      PieceText(ps[0]);
      SkipGap(gaps[0], ps[0].text + rest);
      var between := if Clash(ps, 1) then " " else "";
      var more := Tight(ps[1..]) + Slack(ps, tail);
      if ps[0].Word? {
        RestText(ps, gaps, tail, rest);
        WordStep(gaps[0], ps[0].text, rest, between, more);
      } else {
        assert Slack(ps, tail) == Slack(ps[1..], tail);
        PunctStep(gaps[0], ps[0].text, rest, more);
      }
      Regrouped(gaps[0], ps[0].text + between, Tight(ps[1..]), Slack(ps, tail));
      Regrouped("", ps[0].text + between, Tight(ps[1..]), Slack(ps, tail));
    }
  }

  /** What follows a word. */
  lemma RestText(ps: seq<Piece>, gaps: seq<string>, tail: string, rest: string)
    requires ps != [] && ps[0].Word? && AreGaps(ps, gaps) && AreUnits(gaps) && (tail == "" || tail == " ")
    requires Tighten(rest) == (if ps[1..] == [] then tail else if ps[1..][0].Word? then gaps[1..][0] else "")
                              + Tight(ps[1..]) + Slack(ps[1..], tail) + ";"
    ensures Tighten(rest) == (if Clash(ps, 1) then " " else "") + (Tight(ps[1..]) + Slack(ps, tail)) + ";"
  {
    hide Tighten, Tight;
    TightStep(ps, tail);
    if |ps| > 1 {
      assert ps[1..][0] == ps[1] && gaps[1..][0] == gaps[1];
      assert Slack(ps[1..], tail) == Slack(ps, tail);
    } else {
      assert tail + "" + "" == tail == "" + ("" + tail);
    }
  }

  lemma Regrouped(g: string, a: string, b: string, c: string)
    ensures g + (a + (b + c)) + ";" == g + (a + b) + c + ";" && a + (b + c) + ";" == a + b + c + ";"
  {
    assert a + (b + c) == a + b + c;
  }

  lemma UnitSpace(g: string)
    requires g == "" || g == " "
    ensures AllSpace(g)
  {
  }

  lemma TightStep(ps: seq<Piece>, tail: string)
    requires tail == "" || tail == " "
    ensures ps == [] ==> Tight(ps) == "" && Slack(ps, tail) == ""
    ensures ps != [] ==> Tight(ps) == ps[0].text + (if Clash(ps, 1) then " " else "") + Tight(ps[1..])
    ensures |ps| == 1 ==> ps[1..] == [] && Tight(ps[1..]) == "" && Slack(ps[1..], tail) == ""
    ensures |ps| == 1 ==> Slack(ps, tail) == if ps[0].Word? then tail else ""
  {
  }

  lemma WordStep(g: string, w: string, rest: string, between: string, more: string)
    requires Ident(w) && (g == "" || g == " ") && Tighten(rest) == between + more + ";"
    ensures Tighten(w + rest) == w + between + more + ";" && Tighten(g + (w + rest)) == g + (w + between + more) + ";"
  {
    hide Tighten;
    TightenWord(w, rest);
    TightenSpaced(w, rest);
    assert w + (between + more + ";") == w + between + more + ";";
    assert g == "" ==> g + (w + rest) == w + rest;
    assert g + (w + between + more) + ";" == g + (w + between + more + ";");
  }

  lemma PunctStep(g: string, q: string, rest: string, more: string)
    requires q in {"::", "{", "}", ","} && (g == "" || g == " ") && Tighten(SkipSpace(rest)) == more + ";"
    ensures Tighten(q + rest) == q + "" + more + ";" && Tighten(g + (q + rest)) == "" + (q + "" + more) + ";"
  {
    hide Tighten, SkipSpace;
    TightenPunct(q, rest, g);
    TightenPunct(q, rest, "");
    assert "" + (q + rest) == q + rest && q + (more + ";") == q + "" + more + ";";
    assert "" + (q + "" + more) + ";" == q + "" + more + ";";
  }

  // ------------------------------------------------------- the clean-up

  /** Whatever the layout, the clean-up leaves the tight text, and a space after it if one stands
      between a name and the semicolon. */
  lemma CleanBody(ps: seq<Piece>, gaps: seq<string>, tail: string)
    requires ps != [] && ArePieces(ps) && AreGaps(ps, gaps) && AllSpace(tail)
    ensures StripSemicolons(TrimEnd(SkipSpace(Tighten(Collapse(Body(ps, gaps, tail))))))
      == Tight(ps) + Slack(ps, tail)
  {
    hide Collapse, Tighten, StripSemicolons, TrimEnd, SkipSpace, Body, Tight, IsPiece;
    var units := Units(gaps)[0 := ""];
    CollapseBody(ps, gaps, tail);
    UnitGaps(ps, gaps, tail);
    TightenBody(ps, units, Unit(tail));
    TightEnds(ps);
    var p := Tight(ps) + Slack(ps, tail);
    assert "" + Tight(ps) + Slack(ps, tail) + ";" == p + ";";
    CutSemicolon(p);
  }

  lemma UnitGaps(ps: seq<Piece>, gaps: seq<string>, tail: string)
    requires ps != [] && AreGaps(ps, gaps) && AllSpace(tail)
    ensures var units := Units(gaps)[0 := ""];
      && AreGaps(ps, units) && AreUnits(units) && units[0] == "" && AreUnits([Unit(tail)])
      && AllSpace(Unit(tail)) && Slack(ps, Unit(tail)) == Slack(ps, tail)
  {
  }

  lemma CutSemicolon(p: string)
    requires p != "" && !Space(p[0]) && p[|p| - 1] != ';'
    ensures StripSemicolons(TrimEnd(SkipSpace(p + ";"))) == p
  {
    var s := p + ";";
    assert s[0] == p[0] && s[|p|] == ';' && s[..|p|] == p;
    assert StripSemicolons(s) == StripSemicolons(p);
  }

  lemma {:induction false} TightEnds(ps: seq<Piece>)
    requires ps != [] && ArePieces(ps)
    ensures Tight(ps) != "" && !Space(Tight(ps)[0]) && Tight(ps)[|Tight(ps)| - 1] != ';'
  {
    PieceText(ps[0]);
    if |ps| > 1 {
      TightEnds(ps[1..]);
    } else {
      assert Tight(ps) == ps[0].text;
    }
  }

  /** A tight text is a layout of itself. */
  function TightGaps(ps: seq<Piece>): (gaps: seq<string>)
    ensures AreGaps(ps, gaps)
  {
    seq(|ps|, k requires 0 <= k < |ps| => if Clash(ps, k) then " " else "")
  }

  lemma {:induction false} SpreadTight(ps: seq<Piece>, gaps: seq<string>)
    requires |gaps| == |ps| && forall k :: 0 < k < |ps| ==> gaps[k] == if Clash(ps, k) then " " else ""
    ensures ps != [] ==> Spread(ps, gaps) == gaps[0] + Tight(ps)
  {
    if |ps| > 1 {
      assert forall k :: 0 < k < |ps[1..]| ==> (Clash(ps[1..], k) <==> Clash(ps, k + 1));
      SpreadTight(ps[1..], gaps[1..]);
    } else if |ps| == 1 {
      assert Spread(ps, gaps) == gaps[0] + ps[0].text + "";
    }
  }
}
