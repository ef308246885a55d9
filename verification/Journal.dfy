/** Verdicts of a test journal, their baseline files and the comparisons
    (tools/xts-vs-baseline.py). A file is its list of lines. */
module Journal {
  import opened Text

  // ------------------------------------------------------- text

  /** `line.split(sep)` for one character. */
  function SplitOn(s: string, sep: char, cur: string): (parts: seq<string>)
    ensures parts != []
    decreases |s|
  {
    if s == "" then [cur]
    else if s[0] == sep then [cur] + SplitOn(s[1..], sep, "")
    else SplitOn(s[1..], sep, cur + [s[0]])
  }

  function Strip(s: string): string
    decreases |s|
  {
    if s != "" && Space(s[0]) then Strip(s[1..])
    else if s != "" && Space(s[|s| - 1]) then Strip(s[..|s| - 1])
    else s
  }

  predicate AllSpace(s: string) { forall i :: 0 <= i < |s| ==> Space(s[i]) }

  /** Stripping takes off the white space at both ends, and no more. */
  lemma {:induction false} StripEnds(a: string, m: string, b: string)
    requires AllSpace(a) && AllSpace(b) && (m != "" ==> !Space(m[0]) && !Space(m[|m| - 1]))
    ensures Strip(a + m + b) == m
    decreases |a| + |b|
  {
    var s := a + m + b;
    if a != "" {
      assert s[0] == a[0] && s[1..] == a[1..] + m + b;
      StripEnds(a[1..], m, b);
    } else if b != "" {
      if m == "" {
        assert s == b && s[1..] == "" + m + b[1..];
        StripEnds("", m, b[1..]);
      } else {
        assert s[0] == m[0] && s[|s| - 1] == b[|b| - 1] && s[..|s| - 1] == "" + m + b[..|b| - 1];
        StripEnds("", m, b[..|b| - 1]);
      }
    } else {
      assert s == m;
    }
  }

  predicate Without(s: string, c: char) { forall i :: 0 <= i < |s| ==> s[i] != c }

  predicate HasTab(s: string) { !Without(s, '\t') }

  lemma {:induction false} SplitOnce(a: string, rest: string, sep: char, cur: string)
    requires Without(a, sep)
    ensures SplitOn(a + [sep] + rest, sep, cur) == [cur + a] + SplitOn(rest, sep, "")
    ensures SplitOn(a, sep, cur) == [cur + a]
    decreases |a|
  {
    var s := a + [sep] + rest;
    if a == "" {
      assert s[0] == sep && s[1..] == rest && cur + a == cur;
    } else {
      assert s[0] == a[0] && s[1..] == a[1..] + [sep] + rest;
      SplitOnce(a[1..], rest, sep, cur + [a[0]]);
      assert cur + [a[0]] + a[1..] == cur + a;
    }
  }

  lemma {:induction false} WordsPlain(s: string, cur: string)
    requires forall i :: 0 <= i < |cur| ==> !Space(cur[i])
    ensures forall k :: 0 <= k < |Words(s, cur)| ==> Without(Words(s, cur)[k], '\t')
    decreases |s|
  {
    if s != "" {
      if Space(s[0]) {
        WordsPlain(s[1..], "");
      } else {
        WordsPlain(s[1..], cur + [s[0]]);
      }
    }
  }

  // ------------------------------------------------------- verdicts

  datatype Key = Key(case_: string, tp: string)

  type Verdicts = map<Key, string>

  datatype State = State(cases: map<string, string>, verdicts: Verdicts)

  function CaseOf(cases: map<string, string>, tc: string): string {
    if tc in cases then cases[tc] else "tc" + tc
  }

  /** One journal line. */
  function Step(st: State, line: string): State {
    var parts := SplitOn(line, '|', "");
    if |parts| < 3 then st
    else
      var fields := Words(parts[1], "");
      if |fields| < 2 then st
      else if parts[0] == "10" then st.(cases := st.cases[fields[0] := fields[1]])
      else if parts[0] == "220" then st.(verdicts := st.verdicts[Key(CaseOf(st.cases, fields[0]),
        fields[1]) := Strip(parts[2])])
      else st
  }

  function ParseAll(lines: seq<string>): State {
    if lines == [] then State(map[], map[]) else Step(ParseAll(lines[..|lines| - 1]), lines[|lines| - 1])
  }

  /** `parse_journal`. */
  method ParseJournal(lines: seq<string>) returns (v: Verdicts)
    ensures v == ParseAll(lines).verdicts
  {
    var cases: map<string, string> := map[];
    v := map[];
    for i := 0 to |lines|
      invariant State(cases, v) == ParseAll(lines[..i])
    {
      assert lines[..i + 1][..i] == lines[..i];
      var parts := SplitOn(lines[i], '|', "");
      if |parts| < 3 {
        continue;
      }
      var code, fields := parts[0], Words(parts[1], "");
      if code == "10" {
        if |fields| >= 2 {
          cases := cases[fields[0] := fields[1]];
        }
      } else if code == "220" {
        if |fields| >= 2 {
          v := v[Key(CaseOf(cases, fields[0]), fields[1]) := Strip(parts[2])];
        }
      }
    }
    assert lines[..|lines|] == lines;
  }

  // ------------------------------------------------------- what the verdicts are

  /** A test case starts: its number and its path. */
  predicate CaseLine10(line: string, tc: string, path: string) {
    var parts := SplitOn(line, '|', "");
    |parts| >= 3 && parts[0] == "10"
      && |Words(parts[1], "")| >= 2 && Words(parts[1], "")[0] == tc && Words(parts[1], "")[1] == path
  }

  /** A result of test purpose tp of the test case with this number. */
  predicate ResultLine(line: string, tc: string, tp: string, v: string) {
    var parts := SplitOn(line, '|', "");
    |parts| >= 3 && parts[0] == "220" && Strip(parts[2]) == v
      && |Words(parts[1], "")| >= 2 && Words(parts[1], "")[0] == tc && Words(parts[1], "")[1] == tp
  }

  /** Line i is the last start of tc among the first n. */
  ghost predicate LastStart(lines: seq<string>, n: nat, i: nat, tc: string, path: string) {
    i < n <= |lines| && CaseLine10(lines[i], tc, path)
      && forall h, x :: i < h < n ==> !CaseLine10(lines[h], tc, x)
  }

  /** The name of tc after n lines: its path by the last start, or its number if it has not started. */
  ghost predicate Named(lines: seq<string>, n: nat, tc: string, name: string) {
    n <= |lines|
    && if Started(lines, n, tc) then exists i: nat :: LastStart(lines, n, i, tc, name) else name == "tc" + tc
  }

  /** tc has started within the first n lines. */
  ghost predicate Started(lines: seq<string>, n: nat, tc: string) {
    n <= |lines| && exists h, x :: 0 <= h < n && CaseLine10(lines[h], tc, x)
  }

  /** Line i is a result for the key. */
  ghost predicate ResultFor(lines: seq<string>, i: nat, k: Key, v: string) {
    i < |lines| && exists tc :: ResultLine(lines[i], tc, k.tp, v) && Named(lines, i, tc, k.case_)
  }

  /** Line i is the last result for the key. */
  ghost predicate LastResult(lines: seq<string>, i: nat, k: Key, v: string) {
    ResultFor(lines, i, k, v) && forall h: nat, x :: i < h ==> !ResultFor(lines, h, k, x)
  }

  lemma NamedNext(lines: seq<string>, l: string, tc: string, name: string)
    ensures Named(lines + [l], |lines| + 1, tc, name) <==>
        if exists x :: CaseLine10(l, tc, x) then CaseLine10(l, tc, name) else Named(lines, |lines|, tc, name)
  {
    hide CaseLine10;
    var more, n := lines + [l], |lines|;
    assert more[n] == l && forall h :: 0 <= h < n ==> more[h] == lines[h];
    OneMoreStarted(more, n, tc);
    if x :| CaseLine10(l, tc, x) {
      OneCase(l, tc);
      if CaseLine10(l, tc, name) { assert LastStart(more, n + 1, n, tc, name); }
    } else {
      StartedLonger(lines, l, tc);
      hide Started;
      var m := n + 1;
      forall i: nat ensures LastStart(more, m, i, tc, name) <==> LastStart(lines, n, i, tc, name) {}
      hide LastStart;
      if i: nat :| LastStart(lines, n, i, tc, name) { assert LastStart(more, m, i, tc, name); }
      if i: nat :| LastStart(more, m, i, tc, name) { assert LastStart(lines, n, i, tc, name); }
    }
  }

  lemma StartedLonger(lines: seq<string>, l: string, tc: string)
    ensures Started(lines + [l], |lines|, tc) <==> Started(lines, |lines|, tc)
  {
    PrefixStarted(lines + [l], |lines|, tc);
    assert (lines + [l])[..|lines|] == lines;
  }

  lemma OneCase(l: string, tc: string)
    ensures forall x, y :: CaseLine10(l, tc, x) && CaseLine10(l, tc, y) ==> x == y
  {
  }

  lemma NamedPrefix(lines: seq<string>, l: string, n: nat, tc: string, name: string)
    requires n <= |lines|
    ensures Named(lines + [l], n, tc, name) <==> Named(lines, n, tc, name)
  {
    hide CaseLine10;
    var more := lines + [l];
    assert forall h :: 0 <= h < n ==> more[h] == lines[h];
    forall i: nat ensures LastStart(more, n, i, tc, name) <==> LastStart(lines, n, i, tc, name) {}
  }

  /** The cases held after all lines are the names. */
  lemma {:induction false} CasesAre(lines: seq<string>, tc: string, name: string)
    ensures CaseOf(ParseAll(lines).cases, tc) == name <==> Named(lines, |lines|, tc, name)
  {
    hide SplitOn, Words, Strip;
    if lines != [] {
      var front, l := lines[..|lines| - 1], lines[|lines| - 1];
      assert lines == front + [l];
      CasesAre(front, tc, name);
      hide Named;
      NamedNext(front, l, tc, name);
      StepCases(ParseAll(front), l, tc, name);
    }
  }

  lemma StepCases(st: State, l: string, tc: string, name: string)
    ensures CaseOf(Step(st, l).cases, tc) == name <==>
        if exists x :: CaseLine10(l, tc, x) then CaseLine10(l, tc, name) else CaseOf(st.cases, tc) == name
  {
    hide SplitOn, Words, Strip;
    var parts := SplitOn(l, '|', "");
    if |parts| >= 3 && |Words(parts[1], "")| >= 2 {
      assert parts[0] == "10" && Words(parts[1], "")[0] == tc ==> CaseLine10(l, tc, Words(parts[1], "")[1]);
    }
  }

  lemma StepVerdicts(st: State, l: string, k: Key, v: string)
    ensures k in Step(st, l).verdicts && Step(st, l).verdicts[k] == v <==>
        if exists tc, x :: ResultLine(l, tc, k.tp, x) && CaseOf(st.cases, tc) == k.case_
        then exists tc :: ResultLine(l, tc, k.tp, v) && CaseOf(st.cases, tc) == k.case_
        else k in st.verdicts && st.verdicts[k] == v
  {
    hide SplitOn, Words, Strip, CaseOf;
    var parts := SplitOn(l, '|', "");
    if |parts| >= 3 && parts[0] == "220" && |Words(parts[1], "")| >= 2 {
      var tc := Words(parts[1], "")[0];
      assert Words(parts[1], "")[1] == k.tp ==> ResultLine(l, tc, k.tp, Strip(parts[2]));
    }
  }

  /** The results for a key among one line more. */
  lemma ResultNext(lines: seq<string>, l: string, k: Key, v: string, i: nat)
    ensures ResultFor(lines + [l], i, k, v) <==>
        ResultFor(lines, i, k, v)
        || (i == |lines| && exists tc :: ResultLine(l, tc, k.tp, v) && Named(lines, |lines|, tc, k.case_))
  {
    hide ResultLine, Named;
    var more := lines + [l];
    assert i < |more| ==> more[i] == if i < |lines| then lines[i] else l;
    forall tc | i <= |lines| ensures Named(more, i, tc, k.case_) <==> Named(lines, i, tc, k.case_) {
      NamedPrefix(lines, l, i, tc, k.case_);
    }
  }

  /** What `parse_journal` returns: a key has the verdict of the last result line for it, under the
      path its test case had then. */
  lemma {:induction false} VerdictsAre(lines: seq<string>, k: Key, v: string)
    ensures k in ParseAll(lines).verdicts && ParseAll(lines).verdicts[k] == v <==>
        exists i: nat :: LastResult(lines, i, k, v)
  {
    if lines != [] {
      hide Step, CaseOf, ResultLine, Named, ResultFor;
      var front, l := lines[..|lines| - 1], lines[|lines| - 1];
      assert lines == front + [l];
      VerdictsAre(front, k, v);
      StepVerdicts(ParseAll(front), l, k, v);
      forall tc ensures CaseOf(ParseAll(front).cases, tc) == k.case_ <==> Named(front, |front|, tc, k.case_) {
        CasesAre(front, tc, k.case_);
      }
      forall i: nat, x
        ensures ResultFor(lines, i, k, x) <==>
          ResultFor(front, i, k, x)
          || (i == |front| && exists tc :: ResultLine(l, tc, k.tp, x) && Named(front, |front|, tc, k.case_))
      {
        ResultNext(front, l, k, x, i);
      }
      LastNext(front, l, k, v);
    } else {
      hide ResultLine, Named;
    }
  }

  // ------------------------------------------------------- the numbers do not matter

  /** The same record with its test case numbered anew. */
  ghost predicate Renumbers(l: string, l': string, f: map<string, string>) {
    && (forall tc, x :: CaseLine10(l, tc, x) ==> tc in f && CaseLine10(l', f[tc], x))
    && (forall tc', x :: CaseLine10(l', tc', x) ==> exists tc :: tc in f && f[tc] == tc' && CaseLine10(l, tc, x))
    && (forall tc, tp, v :: ResultLine(l, tc, tp, v) ==> tc in f && ResultLine(l', f[tc], tp, v))
    && (forall tc', tp, v :: ResultLine(l', tc', tp, v) ==>
          exists tc :: tc in f && f[tc] == tc' && ResultLine(l, tc, tp, v))
  }

  ghost predicate Injective(f: map<string, string>) {
    forall a, b :: a in f && b in f && f[a] == f[b] ==> a == b
  }

  /** Every result comes after a start of its test case. */
  ghost predicate AllStarted(lines: seq<string>) {
    forall i: nat, tc, tp, v :: i < |lines| && ResultLine(lines[i], tc, tp, v) ==> Started(lines, i, tc)
  }

  /** Two journals of the same tests, run in orders that number the cases differently, have the same
      verdicts, if no result comes before its test case has started. */
  lemma {:induction false} NumbersDoNotMatter(lines: seq<string>, lines': seq<string>, f: map<string, string>)
    requires |lines| == |lines'| && Injective(f) && AllStarted(lines)
    requires forall i :: 0 <= i < |lines| ==> Renumbers(lines[i], lines'[i], f)
    ensures ParseAll(lines).verdicts == ParseAll(lines').verdicts
    ensures SameCases(ParseAll(lines).cases, ParseAll(lines').cases, f)
    decreases |lines|
  {
    if lines != [] {
      hide Step, Renumbers, ResultLine, CaseLine10, SameCases, Injective;
      var n := |lines| - 1;
      var front, front' := lines[..n], lines'[..n];
      FrontStarted(lines, n);
      NumbersDoNotMatter(front, front', f);
      assert Renumbers(lines[n], lines'[n], f);
      StartedIff(front);
      assert forall tc, tp, v :: ResultLine(lines[n], tc, tp, v) ==> tc in ParseAll(front).cases by {
        forall tc, tp, v | ResultLine(lines[n], tc, tp, v) ensures tc in ParseAll(front).cases {
          assert Started(lines, n, tc);
          PrefixStarted(lines, n, tc);
        }
      }
      SameStep(ParseAll(front), ParseAll(front'), lines[n], lines'[n], f);
    }
  }

  ghost predicate SameCases(a: map<string, string>, b: map<string, string>, f: map<string, string>) {
    forall tc :: tc in f ==> (tc in a <==> f[tc] in b) && (tc in a ==> a[tc] == b[f[tc]])
  }

  lemma PrefixStarted(lines: seq<string>, n: nat, tc: string)
    requires n <= |lines|
    ensures Started(lines[..n], n, tc) <==> Started(lines, n, tc)
  {
    hide CaseLine10;
    if h, x :| 0 <= h < n && CaseLine10(lines[h], tc, x) { assert CaseLine10(lines[..n][h], tc, x); }
    if h, x :| 0 <= h < n && CaseLine10(lines[..n][h], tc, x) { assert CaseLine10(lines[h], tc, x); }
  }

  lemma FrontStarted(lines: seq<string>, n: nat)
    requires n <= |lines| && AllStarted(lines)
    ensures AllStarted(lines[..n])
  {
    hide ResultLine, CaseLine10, Started;
    forall i: nat, tc, tp, v | i < n && ResultLine(lines[..n][i], tc, tp, v) ensures Started(lines[..n], i, tc) {
      assert lines[..n][i] == lines[i] && lines[..n][..i] == lines[..i];
      assert Started(lines, i, tc);
      StartedPrefix(lines, n, i, tc);
    }
  }

  lemma StartedPrefix(lines: seq<string>, n: nat, i: nat, tc: string)
    requires i <= n <= |lines| && Started(lines, i, tc)
    ensures Started(lines[..n], i, tc)
  {
    hide CaseLine10;
    var h, x :| 0 <= h < i && CaseLine10(lines[h], tc, x);
    assert CaseLine10(lines[..n][h], tc, x);
  }

  lemma {:induction false} StartedIff(lines: seq<string>)
    ensures forall tc :: tc in ParseAll(lines).cases <==> Started(lines, |lines|, tc)
  {
    if lines != [] {
      hide Step, CaseLine10, Started;
      var n := |lines| - 1;
      StartedIff(lines[..n]);
      forall tc ensures tc in ParseAll(lines).cases <==> Started(lines, |lines|, tc) {
        PrefixStarted(lines, n, tc);
        StepStarts(ParseAll(lines[..n]), lines[n], tc);
        OneMoreStarted(lines, n, tc);
      }
    }
  }

  lemma OneMoreStarted(lines: seq<string>, n: nat, tc: string)
    requires |lines| == n + 1
    ensures Started(lines, n + 1, tc) <==> Started(lines, n, tc) || exists x :: CaseLine10(lines[n], tc, x)
  {
    hide CaseLine10;
  }

  lemma StepStarts(st: State, l: string, tc: string)
    ensures tc in Step(st, l).cases <==> tc in st.cases || exists x :: CaseLine10(l, tc, x)
  {
    hide SplitOn, Words, Strip;
    var parts := SplitOn(l, '|', "");
    if |parts| >= 3 && |Words(parts[1], "")| >= 2 {
      assert parts[0] == "10" && Words(parts[1], "")[0] == tc ==> CaseLine10(l, tc, Words(parts[1], "")[1]);
    }
  }

  /** What kind of line it is, and what it does. */
  lemma StepKinds(st: State, l: string) returns (kind: int, tc: string, x: string, v: string)
    ensures kind == 1 ==> CaseLine10(l, tc, x) && Step(st, l) == st.(cases := st.cases[tc := x])
    ensures kind == 2 ==>
        ResultLine(l, tc, x, v) && Step(st, l) == st.(verdicts := st.verdicts[Key(CaseOf(st.cases, tc), x) := v])
    ensures kind != 1 ==> forall a, b :: !CaseLine10(l, a, b)
    ensures kind != 2 ==> forall a, b, c :: !ResultLine(l, a, b, c)
    ensures kind == 1 || kind == 2 || Step(st, l) == st
    ensures forall a, b :: CaseLine10(l, a, b) ==> a == tc && b == x
    ensures forall a, b, c :: ResultLine(l, a, b, c) ==> a == tc && b == x && c == v
  {
    hide SplitOn, Words, Strip;
    var parts := SplitOn(l, '|', "");
    kind, tc, x, v := 0, "", "", "";
    if |parts| >= 3 && |Words(parts[1], "")| >= 2 {
      tc, x, v := Words(parts[1], "")[0], Words(parts[1], "")[1], Strip(parts[2]);
      kind := if parts[0] == "10" then 1 else if parts[0] == "220" then 2 else 0;
    }
  }

  lemma SameStep(a: State, b: State, l: string, l': string, f: map<string, string>)
    requires Renumbers(l, l', f) && Injective(f) && SameCases(a.cases, b.cases, f) && a.verdicts == b.verdicts
    requires forall tc, tp, v :: ResultLine(l, tc, tp, v) ==> tc in a.cases
    ensures Step(a, l).verdicts == Step(b, l').verdicts && SameCases(Step(a, l).cases, Step(b, l').cases, f)
  {
    hide Step, CaseLine10, ResultLine;
    var k, tc, x, v := StepKinds(a, l);
    var k', tc', x', v' := StepKinds(b, l');
    if k == 1 {
      assert CaseLine10(l', f[tc], x);
    } else if k == 2 {
      assert ResultLine(l', f[tc], x, v);
    }
  }

  lemma LastNext(front: seq<string>, l: string, k: Key, v: string)
    requires forall i: nat, x :: ResultFor(front + [l], i, k, x) <==>
          ResultFor(front, i, k, x)
          || (i == |front| && exists tc :: ResultLine(l, tc, k.tp, x) && Named(front, |front|, tc, k.case_))
    ensures (exists i: nat :: LastResult(front + [l], i, k, v)) <==>
        if exists tc, x :: ResultLine(l, tc, k.tp, x) && Named(front, |front|, tc, k.case_)
        then exists tc :: ResultLine(l, tc, k.tp, v) && Named(front, |front|, tc, k.case_)
        else exists i: nat :: LastResult(front, i, k, v)
  {
    hide ResultLine, Named;
    var more, n := front + [l], |front|;
    assert forall i: nat, x :: ResultFor(front, i, k, x) ==> i < n;
    hide ResultFor;
    if tc, x :| ResultLine(l, tc, k.tp, x) && Named(front, |front|, tc, k.case_) {
      assert ResultFor(more, n, k, x);
      if i: nat :| LastResult(more, i, k, v) { assert i == n; }
      if ResultFor(more, n, k, v) { assert LastResult(more, n, k, v); }
    } else {
      forall i: nat ensures LastResult(more, i, k, v) <==> LastResult(front, i, k, v) {}
    }
  }

  // ------------------------------------------------------- baselines

  function TsvStep(m: Verdicts, line: string): Verdicts {
    var cols := SplitOn(line, '\t', "");
    if |cols| == 3 then m[Key(cols[0], cols[1]) := cols[2]] else m
  }

  function TsvAll(lines: seq<string>): Verdicts {
    if lines == [] then map[] else TsvStep(TsvAll(lines[..|lines| - 1]), lines[|lines| - 1])
  }

  predicate IsTsv(lines: seq<string>) { lines != [] && HasTab(lines[0]) }

  /** `load`: a baseline if the first line has a tab, else a raw journal. */
  function Load(lines: seq<string>): Verdicts {
    if IsTsv(lines) then TsvAll(lines) else ParseAll(lines).verdicts
  }

  method LoadFile(lines: seq<string>) returns (m: Verdicts)
    ensures m == Load(lines)
  {
    if !IsTsv(lines) {
      m := ParseJournal(lines);
      return;
    }
    m := map[];
    for i := 0 to |lines|
      invariant m == TsvAll(lines[..i])
    {
      assert lines[..i + 1][..i] == lines[..i];
      var cols := SplitOn(lines[i], '\t', "");
      if |cols| == 3 {
        m := m[Key(cols[0], cols[1]) := cols[2]];
      }
    }
    assert lines[..|lines|] == lines;
  }

  /** The line is these three columns, with a tab between them and nowhere else. */
  ghost predicate Columns(line: string, k: Key, v: string) {
    line == k.case_ + "\t" + k.tp + "\t" + v && '\t' !in k.case_ && '\t' !in k.tp && '\t' !in v
  }

  lemma ColumnsIff(line: string, k: Key, v: string)
    ensures Columns(line, k, v) <==> SplitOn(line, '\t', "") == [k.case_, k.tp, v]
  {
    hide SplitOn;
    if Columns(line, k, v) {
      assert line == k.case_ + ['\t'] + (k.tp + ['\t'] + v);
      SplitOnce(k.case_, k.tp + ['\t'] + v, '\t', "");
      SplitOnce(k.tp, v, '\t', "");
      SplitOnce(v, "", '\t', "");
      assert "" + k.case_ == k.case_ && "" + k.tp == k.tp && "" + v == v;
    }
    if SplitOn(line, '\t', "") == [k.case_, k.tp, v] {
      var parts := [k.case_, k.tp, v];
      var a, rest := FirstColumn(line);
      assert a == parts[0] && SplitOn(rest, '\t', "") == parts[1..];
      var b, last := FirstColumn(rest);
      assert b == parts[1..][0] && SplitOn(last, '\t', "") == parts[1..][1..] == [v];
      var c, none := FirstColumn(last);
      assert c == [v][0] == last;
    }
  }

  /** The text before the first tab, and what follows it if there is one. */
  lemma {:induction false} FirstColumn(s: string) returns (a: string, rest: string)
    ensures '\t' !in a && (if '\t' in s then s == a + ['\t'] + rest else s == a)
    ensures SplitOn(s, '\t', "") == if '\t' in s then [a] + SplitOn(rest, '\t', "") else [a]
  {
    var i := 0;
    while i < |s| && s[i] != '\t'
      invariant 0 <= i <= |s| && forall k :: 0 <= k < i ==> s[k] != '\t'
    {
      i := i + 1;
    }
    a, rest := s[..i], if i < |s| then s[i + 1..] else "";
    SplitOnce(a, rest, '\t', "");
    assert "" + a == a;
    assert i < |s| ==> s == a + ['\t'] + rest && s[i] in s;
  }

  /** A file is a baseline iff its first line has a tab. Then a purpose has a verdict iff the last line of
      three columns for it says so; lines with more or fewer are passed over. */
  lemma {:induction false} BaselineIs(lines: seq<string>, k: Key, v: string)
    ensures IsTsv(lines) <==> lines != [] && '\t' in lines[0]
    ensures IsTsv(lines) ==> Load(lines) == TsvAll(lines)
    ensures k in TsvAll(lines) && TsvAll(lines)[k] == v <==>
        exists i :: 0 <= i < |lines| && Columns(lines[i], k, v) && NoneLater(lines, i, k)
  {
    if lines != [] {
      var n := |lines| - 1;
      var front, l := lines[..n], lines[n];
      BaselineIs(front, k, v);
      var cols := SplitOn(l, '\t', "");
      if |cols| == 3 { ColumnsIff(l, Key(cols[0], cols[1]), cols[2]); }
      forall x ensures Columns(l, k, x) <==> cols == [k.case_, k.tp, x] { ColumnsIff(l, k, x); }
      hide Columns, SplitOn;
      assert |cols| == 3 ==> cols == [cols[0], cols[1], cols[2]];
      assert forall x :: Columns(lines[n], k, x) <==> cols == [k.case_, k.tp, x];
      if |cols| == 3 && Key(cols[0], cols[1]) == k {
        assert Columns(lines[n], k, cols[2]) && NoneLater(lines, n, k);
        assert forall i :: 0 <= i < n ==> !NoneLater(lines, i, k);
      } else {
        assert forall i :: 0 <= i < n ==> (NoneLater(lines, i, k) <==> NoneLater(front, i, k));
        assert forall i :: 0 <= i < n ==> front[i] == lines[i];
      }
    }
  }

  ghost predicate NoneLater(lines: seq<string>, i: int, k: Key) {
    forall j, x :: i < j < |lines| && 0 <= j ==> !Columns(lines[j], k, x)
  }

  /** The keys, each once, in the order printed. */
  ghost predicate Enumerates(keys: seq<Key>, m: Verdicts) {
    (forall i :: 0 <= i < |keys| ==>
        keys[i] in m) && (forall i, j :: 0 <= i < j < |keys| ==> keys[i] != keys[j]) && forall k :: k in m ==> k in keys
  }

  function TsvLine(k: Key, v: string): string { k.case_ + "\t" + k.tp + "\t" + v }

  /** `cmd_extract`: one line for each key of the (sorted) list. */
  function Extract(m: Verdicts, keys: seq<Key>): (lines: seq<string>)
    requires forall i :: 0 <= i < |keys| ==> keys[i] in m
    ensures |lines| == |keys| && forall i :: 0 <= i < |lines| ==> lines[i] == TsvLine(keys[i], m[keys[i]])
  {
    seq(|keys|, i requires 0 <= i < |keys| => TsvLine(keys[i], m[keys[i]]))
  }

  predicate KeysTabFree(m: Verdicts) {
    forall k :: k in m ==> Without(k.case_, '\t') && Without(k.tp, '\t')
  }

  predicate VerdictsTabFree(m: Verdicts) {
    forall k :: k in m ==> Without(m[k], '\t')
  }

  /** What is read back: the verdicts without a tab. */
  function Readable(m: Verdicts, keys: seq<Key>): Verdicts {
    map k | k in m && k in keys && Without(m[k], '\t') :: m[k]
  }

  lemma {:induction false} SplitTabbed(s: string, sep: char, cur: string)
    requires !Without(s, sep)
    ensures |SplitOn(s, sep, cur)| >= 2
    decreases |s|
  {
    if s[0] != sep {
      assert exists i :: 0 <= i < |s[1..]| && s[1..][i] == sep by {
        var i :| 0 <= i < |s| && s[i] == sep;
        assert s[1..][i - 1] == sep;
      }
      SplitTabbed(s[1..], sep, cur + [s[0]]);
    }
  }

  /** A printed line reads back, or is passed over when its verdict holds a tab. */
  lemma TsvLineReads(m: Verdicts, k: Key, v: string)
    requires Without(k.case_, '\t') && Without(k.tp, '\t')
    ensures TsvStep(m, TsvLine(k, v)) == (if Without(v, '\t') then m[k := v] else m) && HasTab(TsvLine(k, v))
  {
    hide SplitOn;
    var line := TsvLine(k, v);
    var rest := k.tp + ['\t'] + v;
    TsvLineParts(k, v);
    SplitOnce(k.case_, rest, '\t', "");
    SplitOnce(k.tp, v, '\t', "");
    assert "" + k.case_ == k.case_ && "" + k.tp == k.tp && "" + v == v;
    assert SplitOn(line, '\t', "") == [k.case_] + ([k.tp] + SplitOn(v, '\t', ""));
    if Without(v, '\t') { SplitOnce(v, "", '\t', ""); } else { SplitTabbed(v, '\t', ""); }
  }

  lemma TsvLineParts(k: Key, v: string)
    ensures TsvLine(k, v) == k.case_ + ['\t'] + (k.tp + ['\t'] + v) && TsvLine(k, v)[|k.case_|] == '\t'
  {
  }

  lemma {:induction false} TsvReads(m: Verdicts, keys: seq<Key>, n: nat)
    requires Enumerates(keys, m) && KeysTabFree(m) && n <= |keys|
    ensures TsvAll(Extract(m, keys)[..n]) == Readable(m, keys[..n])
  {
    var lines := Extract(m, keys);
    if n > 0 {
      hide Readable, Extract, TsvStep, TsvLine;
      TsvReads(m, keys, n - 1);
      assert lines[..n][..n - 1] == lines[..n - 1];
      TsvLineReads(TsvAll(lines[..n - 1]), keys[n - 1], m[keys[n - 1]]);
      ReadableNext(m, keys, n);
    }
  }

  lemma ReadableNext(m: Verdicts, keys: seq<Key>, n: nat)
    requires Enumerates(keys, m) && 0 < n <= |keys|
    ensures var k := keys[n - 1];
      Readable(m, keys[..n]) == if Without(m[k], '\t') then Readable(m, keys[..n - 1])[k := m[k]]
      else Readable(m, keys[..n - 1])
  {
  }

  /** Loading what `extract` prints gives the verdicts back, none included, iff no verdict holds
      a tab. */
  lemma ExtractLoads(m: Verdicts, keys: seq<Key>)
    requires Enumerates(keys, m) && KeysTabFree(m)
    ensures Load(Extract(m, keys)) == m <==> VerdictsTabFree(m)
  {
    var lines := Extract(m, keys);
    TsvReads(m, keys, |keys|);
    assert lines[..|keys|] == lines && keys[..|keys|] == keys;
    if keys != [] {
      TsvLineReads(map[], keys[0], m[keys[0]]);
      assert Load(lines) == Readable(m, keys);
      if Load(lines) == m {
        forall k | k in m ensures Without(m[k], '\t') { assert k in Readable(m, keys); }
      } else {
        assert !(forall k :: k in m ==> k in keys && Without(m[k], '\t'));
      }
    } else {
      assert m == map[];
    }
  }

  /** The same for a journal, whose keys need no condition. */
  lemma JournalExtractLoads(lines: seq<string>, keys: seq<Key>)
    requires Enumerates(keys, ParseAll(lines).verdicts)
    ensures Load(Extract(ParseAll(lines).verdicts, keys)) == ParseAll(lines).verdicts <==>
        VerdictsTabFree(ParseAll(lines).verdicts)
  {
    JournalKeysTabFree(lines);
    ExtractLoads(ParseAll(lines).verdicts, keys);
  }

  /** A journal whose verdict holds a tab: what is extracted does not load back. */
  lemma TabbedVerdict(keys: seq<Key>)
    requires Enumerates(keys, ParseAll(["220|1 2|A\tB"]).verdicts)
    ensures Load(Extract(ParseAll(["220|1 2|A\tB"]).verdicts, keys)) != ParseAll(["220|1 2|A\tB"]).verdicts
  {
    var line, v := "220|1 2|A\tB", "A\tB";
    hide SplitOn, Words, Strip;
    TabbedParts();
    TabbedWords();
    var st := State(map[], map[]);
    assert ParseAll([line]) == Step(st, line) by { assert [line][..0] == [] && ParseAll([]) == st; }
    var k := Key("tc" + "1", "2");
    assert Step(st, line).verdicts == map[][k := v];
    assert ParseAll([line]).verdicts[k] == v && v[1] == '\t';
    assert !Without(v, '\t');
    JournalExtractLoads([line], keys);
  }

  lemma TabbedParts()
    ensures SplitOn("220|1 2|A\tB", '|', "") == ["220", "1 2", "A\tB"] && Strip("A\tB") == "A\tB"
  {
    hide SplitOn;
    var a, b, v := "220", "1 2", "A\tB";
    assert "220|1 2|A\tB" == a + ['|'] + (b + ['|'] + v);
    SplitOnce(a, b + ['|'] + v, '|', "");
    SplitOnce(b, v, '|', "");
    SplitOnce(v, "", '|', "");
    assert "" + a == a && "" + b == b && "" + v == v;
    assert !Space(v[0]) && !Space(v[2]);
  }

  lemma TabbedWords()
    ensures Words("1 2", "") == ["1", "2"]
  {
    var s, t, u := "1 2", " 2", "2";
    assert s[1..] == t && t[1..] == u && u[1..] == "" && "" + [s[0]] == "1" && "" + [u[0]] == "2";
    assert Words("", "2") == ["2"];
    assert Words(u, "") == Words("", "2");
    assert Words(t, "1") == ["1"] + Words(u, "");
    assert Words(s, "") == Words(t, "1");
  }

  /** The keys of a journal never hold a tab; only a verdict can. */
  lemma {:induction false} JournalKeysTabFree(lines: seq<string>)
    ensures forall tc :: tc in ParseAll(lines).cases ==> Without(ParseAll(lines).cases[tc], '\t')
    ensures forall k :: k in ParseAll(lines).verdicts ==> Without(k.case_, '\t') && Without(k.tp, '\t')
  {
    if lines != [] {
      var st, line := ParseAll(lines[..|lines| - 1]), lines[|lines| - 1];
      JournalKeysTabFree(lines[..|lines| - 1]);
      var parts := SplitOn(line, '|', "");
      if |parts| >= 3 {
        WordsPlain(parts[1], "");
        var fields := Words(parts[1], "");
        if |fields| >= 2 {
          assert Without("tc" + fields[0], '\t');
        }
      }
    }
  }

  // ------------------------------------------------------- completeness

  /** How often each record was seen. */
  datatype Tally = Tally(tcStart: map<string, nat>, tcEnd: map<string, nat>,
                         tpStart: map<(string, string), nat>, tpResult: map<(string, string), nat>, ends: nat)

  function Get<K>(m: map<K, nat>, k: K): nat { if k in m then m[k] else 0 }

  function Bump<K>(m: map<K, nat>, k: K): map<K, nat> { m[k := Get(m, k) + 1] }

  function TallyStep(t: Tally, line: string): Tally {
    var parts := SplitOn(line, '|', "");
    if |parts| < 2 then t
    else
      var code, fields := parts[0], Words(parts[1], "");
      if code == "900" then t.(ends := t.ends + 1)
      else if code == "10" && fields != [] then t.(tcStart := Bump(t.tcStart, fields[0]))
      else if code == "80" && fields != [] then t.(tcEnd := Bump(t.tcEnd, fields[0]))
      else if code == "200" && |fields| >= 2 then t.(tpStart := Bump(t.tpStart, (fields[0], fields[1])))
      else if code == "220" && |fields| >= 2 then t.(tpResult := Bump(t.tpResult, (fields[0], fields[1])))
      else t
  }

  function TallyAll(lines: seq<string>): Tally {
    if lines == [] then Tally(map[], map[], map[], map[], 0)
    else TallyStep(TallyAll(lines[..|lines| - 1]), lines[|lines| - 1])
  }

  datatype Gap = NoResults | Ends(n: nat) | Tc(tc: string, starts: nat, ends: nat) | Tp(key: (string, string),
      starts: nat, results: nat)

  /** The gaps the tallies show. */
  function GapsOf(t: Tally): set<Gap> {
    (if t.tpResult == map[] then {NoResults} else {})
    + (if t.ends != 1 then {Ends(t.ends)} else {})
    + (set tc | tc in t.tcStart.Keys + t.tcEnd.Keys && Get(t.tcStart, tc) != Get(t.tcEnd, tc)
         :: Tc(tc, Get(t.tcStart, tc), Get(t.tcEnd, tc)))
    + (set k | k in t.tpStart.Keys + t.tpResult.Keys && Get(t.tpStart, k) != Get(t.tpResult, k)
         :: Tp(k, Get(t.tpStart, k), Get(t.tpResult, k)))
  }

  /** `journal_gaps`. */
  method JournalGaps(lines: seq<string>) returns (gaps: set<Gap>)
    ensures gaps == GapsOf(TallyAll(lines))
  {
    var t := Tally(map[], map[], map[], map[], 0);
    for i := 0 to |lines|
      invariant t == TallyAll(lines[..i])
    {
      assert lines[..i + 1][..i] == lines[..i];
      t := TallyStep(t, lines[i]);
    }
    assert lines[..|lines|] == lines;
    gaps := GapsOf(t);
  }

  /** The line is a record of this code for test purpose k. */
  predicate LineRecord(line: string, code: string, k: (string, string)) {
    var parts := SplitOn(line, '|', "");
    |parts| >= 2 && parts[0] == code && |Words(parts[1], "")| >= 2
      && (Words(parts[1], "")[0], Words(parts[1], "")[1]) == k
  }

  ghost predicate HasRecord(lines: seq<string>, code: string, k: (string, string)) {
    exists i :: 0 <= i < |lines| && LineRecord(lines[i], code, k)
  }

  lemma RecordsSnoc(lines: seq<string>, code: string, k: (string, string))
    requires lines != []
    ensures HasRecord(lines, code, k) <==>
        HasRecord(lines[..|lines| - 1], code, k) || LineRecord(lines[|lines| - 1], code, k)
  {
  }

  lemma TallyLine(t: Tally, line: string, k: (string, string))
    ensures Get(TallyStep(t, line).tpStart, k) == Get(t.tpStart, k) + (if LineRecord(line, "200", k) then 1 else 0)
    ensures Get(TallyStep(t, line).tpResult, k) == Get(t.tpResult, k) + (if LineRecord(line, "220", k) then 1 else 0)
  {
    hide SplitOn, Words, Get, Bump;
    var parts := SplitOn(line, '|', "");
    if |parts| >= 2 && |Words(parts[1], "")| >= 2 {
      var key := (Words(parts[1], "")[0], Words(parts[1], "")[1]);
      Bumped(t.tpStart, key, k);
      Bumped(t.tpResult, key, k);
    }
  }

  lemma Bumped<K>(m: map<K, nat>, j: K, k: K)
    ensures Get(Bump(m, j), k) == Get(m, k) + (if j == k then 1 else 0)
  {
  }

  /** A key is counted exactly when it has a record. */
  lemma {:induction false} TallyRecords(lines: seq<string>, k: (string, string))
    ensures Get(TallyAll(lines).tpStart, k) > 0 <==> HasRecord(lines, "200", k)
    ensures Get(TallyAll(lines).tpResult, k) > 0 <==> HasRecord(lines, "220", k)
  {
    if lines != [] {
      hide TallyStep, LineRecord, HasRecord;
      TallyRecords(lines[..|lines| - 1], k);
      RecordsSnoc(lines, "200", k);
      RecordsSnoc(lines, "220", k);
      TallyLine(TallyAll(lines[..|lines| - 1]), lines[|lines| - 1], k);
    } else {
      assert !HasRecord(lines, "200", k) && !HasRecord(lines, "220", k);
    }
  }

  /** The line is a record of this code for test case tc. */
  predicate CaseRecord(line: string, code: string, tc: string) {
    var parts := SplitOn(line, '|', "");
    |parts| >= 2 && parts[0] == code && Words(parts[1], "") != [] && Words(parts[1], "")[0] == tc
  }

  predicate EndRecord(line: string) {
    var parts := SplitOn(line, '|', "");
    |parts| >= 2 && parts[0] == "900"
  }

  datatype Record = OfCase(code: string, tc: string) | OfPurpose(code: string, key: (string, string)) | OfEnd

  predicate IsRecord(line: string, r: Record) {
    match r
    case OfCase(code, tc) => CaseRecord(line, code, tc)
    case OfPurpose(code, key) => LineRecord(line, code, key)
    case OfEnd => EndRecord(line)
  }

  /** The number of records of a kind. */
  function CountRecords(lines: seq<string>, r: Record): nat {
    if lines == [] then 0
    else CountRecords(lines[..|lines| - 1], r) + (if IsRecord(lines[|lines| - 1], r) then 1 else 0)
  }

  lemma CaseLine(t: Tally, line: string, tc: string)
    ensures Get(TallyStep(t, line).tcStart, tc) == Get(t.tcStart, tc) + (if CaseRecord(line, "10", tc) then 1 else 0)
    ensures Get(TallyStep(t, line).tcEnd, tc) == Get(t.tcEnd, tc) + (if CaseRecord(line, "80", tc) then 1 else 0)
    ensures TallyStep(t, line).ends == t.ends + (if EndRecord(line) then 1 else 0)
  {
    hide SplitOn, Words, Get, Bump;
    var parts := SplitOn(line, '|', "");
    if |parts| >= 2 && Words(parts[1], "") != [] {
      Bumped(t.tcStart, Words(parts[1], "")[0], tc);
      Bumped(t.tcEnd, Words(parts[1], "")[0], tc);
    }
  }

  /** Every tally is the number of its records. */
  lemma {:induction false} TallyCounts(lines: seq<string>, tc: string, k: (string, string))
    ensures var t := TallyAll(lines);
      && Get(t.tcStart, tc) == CountRecords(lines, OfCase("10", tc))
      && Get(t.tcEnd, tc) == CountRecords(lines, OfCase("80", tc))
      && Get(t.tpStart, k) == CountRecords(lines, OfPurpose("200", k))
      && Get(t.tpResult, k) == CountRecords(lines, OfPurpose("220", k))
      && t.ends == CountRecords(lines, OfEnd)
  {
    if lines != [] {
      hide TallyStep, LineRecord, CaseRecord, EndRecord;
      TallyCounts(lines[..|lines| - 1], tc, k);
      CaseLine(TallyAll(lines[..|lines| - 1]), lines[|lines| - 1], tc);
      TallyLine(TallyAll(lines[..|lines| - 1]), lines[|lines| - 1], k);
    }
  }

  /** A complete journal: one end, some result, and as many starts as ends and results. */
  lemma CompleteIff(lines: seq<string>)
    ensures GapsOf(TallyAll(lines)) == {} <==>
      && CountRecords(lines, OfEnd) == 1
      && (exists k :: CountRecords(lines, OfPurpose("220", k)) > 0)
      && (forall tc :: CountRecords(lines, OfCase("10", tc)) == CountRecords(lines, OfCase("80", tc)))
      && (forall k :: CountRecords(lines, OfPurpose("200", k)) == CountRecords(lines, OfPurpose("220", k)))
  {
    hide CountRecords, TallyAll;
    var t := TallyAll(lines);
    TallyCounts(lines, "", ("", ""));
    forall tc, k
      ensures Get(t.tcStart, tc) == CountRecords(lines, OfCase("10", tc))
          && Get(t.tcEnd, tc) == CountRecords(lines, OfCase("80", tc))
      ensures Get(t.tpStart, k) == CountRecords(lines, OfPurpose("200", k))
      ensures Get(t.tpResult, k) == CountRecords(lines, OfPurpose("220", k))
    {
      TallyCounts(lines, tc, k);
    }
    ResultsTallied(lines);
    GapsMeaning(t);
  }

  /** A tallied result has a positive count. */
  lemma {:induction false} ResultsTallied(lines: seq<string>)
    ensures forall k :: k in TallyAll(lines).tpResult ==> Get(TallyAll(lines).tpResult, k) > 0
  {
    if lines != [] {
      hide SplitOn, Words;
      ResultsTallied(lines[..|lines| - 1]);
    }
  }

  /** Each gap: no result at all, a number of ends other than one, a test case or a purpose with two
      different numbers. */
  lemma GapsAre(lines: seq<string>, n: nat, tc: string, k: (string, string), m: nat)
    ensures var gaps := GapsOf(TallyAll(lines));
      && (NoResults in gaps <==> forall key :: Number(lines, OfPurpose("220", key)) == 0)
      && (Ends(n) in gaps <==> n == Number(lines, OfEnd) && n != 1)
      && (Tc(tc, n, m) in gaps <==>
            n == Number(lines, OfCase("10", tc)) && m == Number(lines, OfCase("80", tc)) && n != m)
      && (Tp(k, n, m) in gaps <==>
            n == Number(lines, OfPurpose("200", k)) && m == Number(lines, OfPurpose("220", k)) && n != m)
  {
    hide CountRecords, TallyAll, Number;
    var t := TallyAll(lines);
    TallyCounts(lines, "", ("", ""));
    NumberIs(lines, OfEnd);
    TallyCounts(lines, tc, k);
    NumberIs(lines, OfCase("10", tc));
    NumberIs(lines, OfCase("80", tc));
    NumberIs(lines, OfPurpose("200", k));
    forall key: (string, string) ensures Get(t.tpResult, key) == Number(lines, OfPurpose("220", key)) {
      TallyCounts(lines, "", key);
      NumberIs(lines, OfPurpose("220", key));
    }
    ResultsTallied(lines);
    GapIs(t, n, tc, k, m);
  }

  lemma GapIs(t: Tally, n: nat, tc: string, k: (string, string), m: nat)
    requires forall k :: k in t.tpResult ==> Get(t.tpResult, k) > 0
    ensures NoResults in GapsOf(t) <==> forall k :: Get(t.tpResult, k) == 0
    ensures Ends(n) in GapsOf(t) <==> n == t.ends && n != 1
    ensures Tc(tc, n, m) in GapsOf(t) <==> n == Get(t.tcStart, tc) && m == Get(t.tcEnd, tc) && n != m
    ensures Tp(k, n, m) in GapsOf(t) <==> n == Get(t.tpStart, k) && m == Get(t.tpResult, k) && n != m
  {
    if t.tpResult != map[] {
      var k :| k in t.tpResult;
      assert Get(t.tpResult, k) > 0;
    }
  }

  /** The lines that are a record of the kind, and how many there are. */
  ghost function Records(lines: seq<string>, r: Record): set<nat> {
    set i: nat | i < |lines| && IsRecord(lines[i], r)
  }

  ghost function Number(lines: seq<string>, r: Record): nat { |Records(lines, r)| }

  lemma {:induction false} NumberIs(lines: seq<string>, r: Record)
    ensures CountRecords(lines, r) == Number(lines, r)
  {
    hide IsRecord, Records;
    if lines == [] {
      NoRecords(r);
    } else {
      NumberIs(lines[..|lines| - 1], r);
      OneMoreRecord(lines, r);
    }
  }

  lemma NoRecords(r: Record)
    ensures Records([], r) == {}
  {
  }

  lemma OneMoreRecord(lines: seq<string>, r: Record)
    requires lines != []
    ensures var n := |lines| - 1;
      Number(lines, r) == Number(lines[..n], r) + if IsRecord(lines[n], r) then 1 else 0
  {
    hide IsRecord;
    var n := |lines| - 1;
    var front := lines[..n];
    assert lines == front + [lines[n]];
    RecordsNext(front, lines[n], r);
    hide Records;
    var s := Records(front, r);
    if IsRecord(lines[n], r) { assert |s + {n}| == |s| + 1; }
  }

  lemma RecordsNext(front: seq<string>, l: string, r: Record)
    ensures |front| !in Records(front, r)
    ensures Records(front + [l], r) == if IsRecord(l, r) then Records(front, r) + {|front|} else Records(front, r)
  {
    hide IsRecord;
    var all := front + [l];
    assert forall i: nat :: i < |front| ==> all[i] == front[i];
  }

  lemma GapsMeaning(t: Tally)
    requires forall k :: k in t.tpResult ==> Get(t.tpResult, k) > 0
    ensures GapsOf(t) == {} <==>
      && t.ends == 1 && (exists k :: Get(t.tpResult, k) > 0)
      && (forall tc :: Get(t.tcStart, tc) == Get(t.tcEnd, tc)) && (forall k :: Get(t.tpStart, k) == Get(t.tpResult, k))
  {
    var gaps := GapsOf(t);
    if gaps == {} {
      assert NoResults !in gaps && Ends(t.ends) !in gaps;
      forall tc ensures Get(t.tcStart, tc)
        == Get(t.tcEnd, tc) { assert Tc(tc, Get(t.tcStart, tc), Get(t.tcEnd, tc)) !in gaps; }
      forall k ensures Get(t.tpStart, k)
        == Get(t.tpResult, k) { assert Tp(k, Get(t.tpStart, k), Get(t.tpResult, k)) !in gaps; }
      var k :| k in t.tpResult;
      assert Get(t.tpResult, k) > 0;
    }
  }

  /** Every result record has its verdict field. */
  predicate ResultsCarryVerdicts(lines: seq<string>) {
    forall i :: 0 <= i < |lines| && SplitOn(lines[i], '|', "")[0] == "220" ==> |SplitOn(lines[i], '|', "")| >= 3
  }

  /** Line i is a result of purpose k, and the verdicts hold one for k under the case its test case
      number stood for at that line. */
  ghost predicate VerdictFrom(lines: seq<string>, i: nat, k: (string, string), v: Verdicts) {
    i < |lines| && LineRecord(lines[i], "220", k) && Key(CaseOf(ParseAll(lines[..i]).cases, k.0), k.1) in v
  }

  /** A result, once read, has a verdict to the end of the journal. */
  lemma {:induction false} ResultHasVerdict(lines: seq<string>, k: (string, string), i: nat)
    requires i < |lines| && LineRecord(lines[i], "220", k) && ResultsCarryVerdicts(lines)
    ensures VerdictFrom(lines, i, k, ParseAll(lines).verdicts)
  {
    var front, line := lines[..|lines| - 1], lines[|lines| - 1];
    var st := ParseAll(front);
    if i < |front| {
      assert forall j :: 0 <= j < |front| ==> front[j] == lines[j];
      ResultHasVerdict(front, k, i);
      assert front[..i] == lines[..i];
      StepKeeps(st, line, Key(CaseOf(ParseAll(lines[..i]).cases, k.0), k.1));
    } else {
      assert lines[..i] == front;
      var parts := SplitOn(line, '|', "");
      assert parts[0] == "220" && |parts| >= 3;
    }
  }

  lemma StepKeeps(st: State, line: string, key: Key)
    requires key in st.verdicts
    ensures key in Step(st, line).verdicts
  {
  }

  /** In a complete journal every test purpose that started has a result, and a verdict from it. */
  lemma CompleteHasVerdicts(lines: seq<string>, k: (string, string))
    requires GapsOf(TallyAll(lines)) == {} && ResultsCarryVerdicts(lines) && HasRecord(lines, "200", k)
    ensures exists i: nat :: VerdictFrom(lines, i, k, ParseAll(lines).verdicts)
  {
    hide TallyAll, ParseAll, ResultsCarryVerdicts, LineRecord;
    var t := TallyAll(lines);
    TallyRecords(lines, k);
    assert Get(t.tpStart, k) == Get(t.tpResult, k) by {
      assert Tp(k, Get(t.tpStart, k), Get(t.tpResult, k)) !in GapsOf(t);
    }
    var i :| 0 <= i < |lines| && LineRecord(lines[i], "220", k);
    ResultHasVerdict(lines, k, i);
  }

  // ------------------------------------------------------- comparing two runs

  /** `cmd_strict`: 2 for a baseline file, 3 for an incomplete journal, 1 for a difference. */
  method CmdStrict(before: seq<string>, after: seq<string>) returns (code: int)
    ensures code == 0 <==>
        && !IsTsv(before) && !IsTsv(after)
        && GapsOf(TallyAll(before)) == {} && GapsOf(TallyAll(after)) == {}
        && Load(before) == Load(after)
    ensures code == 2 <==> IsTsv(before) || IsTsv(after)
    ensures code == 3 <==>
        !IsTsv(before) && !IsTsv(after) && (GapsOf(TallyAll(before)) != {} || GapsOf(TallyAll(after)) != {})
    ensures code in {0, 1, 2, 3}
  {
    hide GapsOf, TallyAll, ParseAll;
    if IsTsv(before) {
      return 2;
    }
    var gaps := JournalGaps(before);
    if IsTsv(after) {
      return 2;
    }
    var gaps' := JournalGaps(after);
    if gaps != {} || gaps' != {} {
      return 3;
    }
    var b := ParseJournal(before);
    var a := ParseJournal(after);
    var onlyBefore, onlyAfter := b.Keys - a.Keys, a.Keys - b.Keys;
    var differ := set k | k in b.Keys * a.Keys && b[k] != a[k];
    code := if onlyBefore != {} || onlyAfter != {} || differ != {} then 1 else 0;
    SameVerdicts(b, a);
  }

  lemma SameVerdicts(b: Verdicts, a: Verdicts)
    ensures b == a <==>
        b.Keys - a.Keys == {} && a.Keys - b.Keys == {} && (set k | k in b.Keys * a.Keys && b[k] != a[k]) == {}
  {
  }

  predicate Passing(v: string) { v in {"PASS", "UNSUPPORTED", "NOTINUSE", "UNTESTED", "NORESULT"} }

  /** The buckets of `cmd_diff`. */
  datatype Buckets = Buckets(regressions: seq<Key>, stricter: seq<Key>, other: seq<Key>)

  predicate Regression(b: string, c: string) { b == "PASS" && !Passing(c) }

  predicate Stricter(b: string, c: string) { b != "PASS" && c == "PASS" }

  predicate Mismatch(b: string, c: string) { b != c && !Regression(b, c) && !Stricter(b, c) }

  ghost predicate InBuckets(s: Buckets, base: Verdicts, cand: Verdicts, done: seq<Key>) {
    && (forall k :: k in s.regressions <==> k in done && k in base && k in cand && Regression(base[k], cand[k]))
    && (forall k :: k in s.stricter <==> k in done && k in base && k in cand && Stricter(base[k], cand[k]))
    && (forall k :: k in s.other <==> k in done && k in base && k in cand && Mismatch(base[k], cand[k]))
  }

  lemma NoBuckets(base: Verdicts, cand: Verdicts)
    ensures InBuckets(Buckets([], [], []), base, cand, [])
  {
  }

  lemma BucketsNext(s: Buckets, base: Verdicts, cand: Verdicts, done: seq<Key>, k: Key)
    requires InBuckets(s, base, cand, done) && k in base && k in cand
    ensures base[k] == cand[k] ==> InBuckets(s, base, cand, done + [k])
    ensures Regression(base[k], cand[k]) ==>
        InBuckets(s.(regressions := s.regressions + [k]), base, cand, done + [k])
    ensures Stricter(base[k], cand[k]) ==> InBuckets(s.(stricter := s.stricter + [k]), base, cand, done + [k])
    ensures Mismatch(base[k], cand[k]) ==> InBuckets(s.(other := s.other + [k]), base, cand, done + [k])
  {
  }

  /** The partition the buckets make. */
  lemma BucketsAre(s: Buckets, base: Verdicts, cand: Verdicts, common: seq<Key>)
    requires InBuckets(s, base, cand, common) && forall k :: k in common <==> k in base && k in cand
    ensures forall k :: k in base && k in cand ==>
        (if base[k] == cand[k] then 1 else 0) + (if k in s.regressions then 1 else 0)
          + (if k in s.stricter then 1 else 0) + (if k in s.other then 1 else 0) == 1
    ensures forall k :: k in s.regressions ==> k in base && k in cand && base[k] == "PASS"
    ensures forall k :: k in base && k in cand && base[k] == "PASS" ==>
        (k in s.regressions <==> cand[k] !in {"PASS", "UNSUPPORTED", "NOTINUSE", "UNTESTED", "NORESULT"})
    ensures forall k :: k in s.stricter <==> k in base && k in cand && base[k] != "PASS" && cand[k] == "PASS"
  {
  }

  /** `cmd_diff`: every common purpose agrees or is in exactly one bucket, and the exit code is 0 iff
      nothing that passed before fails now. */
  method CmdDiff(base: Verdicts, cand: Verdicts, common: seq<Key>) returns (code: int, s: Buckets)
    requires forall k :: k in common <==> k in base && k in cand
    ensures InBuckets(s, base, cand, common)
    ensures forall k :: k in base && k in cand ==>
        (if base[k] == cand[k] then 1 else 0) + (if k in s.regressions then 1 else 0)
          + (if k in s.stricter then 1 else 0) + (if k in s.other then 1 else 0) == 1
    ensures code == 0 <==> forall k :: k in base && k in cand ==> base[k] == "PASS" ==>
        cand[k] in {"PASS", "UNSUPPORTED", "NOTINUSE", "UNTESTED", "NORESULT"}
    ensures forall k :: k in s.regressions ==> k in base && k in cand && base[k] == "PASS"
    ensures forall k :: k in base && k in cand && base[k] == "PASS" ==>
        (k in s.regressions <==> cand[k] !in {"PASS", "UNSUPPORTED", "NOTINUSE", "UNTESTED", "NORESULT"})
    ensures forall k :: k in s.stricter <==> k in base && k in cand && base[k] != "PASS" && cand[k] == "PASS"
  {
    hide InBuckets;
    s := Buckets([], [], []);
    NoBuckets(base, cand);
    for i := 0 to |common|
      invariant InBuckets(s, base, cand, common[..i])
    {
      var key := common[i];
      var b, c := base[key], cand[key];
      assert common[..i + 1] == common[..i] + [key];
      BucketsNext(s, base, cand, common[..i], key);
      if b == c {
        continue;
      }
      if b == "PASS" && !Passing(c) {
        s := s.(regressions := s.regressions + [key]);
      } else if b != "PASS" && c == "PASS" {
        s := s.(stricter := s.stricter + [key]);
      } else {
        s := s.(other := s.other + [key]);
      }
    }
    assert common[..|common|] == common;
    BucketsAre(s, base, cand, common);
    code := if s.regressions != [] then 1 else 0;
    assert s.regressions != [] ==> s.regressions[0] in s.regressions;
  }

  /** Two runs that agree strictly agree in `diff`, whichever is the baseline. */
  method StrictThenDiff(before: seq<string>, after: seq<string>, common: seq<Key>)
    returns (strict: int, forth: int, back: int)
    requires forall k :: k in common <==> k in Load(before) && k in Load(after)
    ensures strict == 0 ==> forth == 0 && back == 0
  {
    hide Load, GapsOf, TallyAll, InBuckets;
    strict := CmdStrict(before, after);
    var b := LoadFile(before);
    var a := LoadFile(after);
    var s;
    forth, s := CmdDiff(b, a, common);
    back, s := CmdDiff(a, b, common);
  }
}
