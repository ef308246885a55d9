/** SetModifierMapping built from the current table and a list of edits
    (tools/xkb-mutation-probe.c, `smmx`). */
module ModifierTable {

  const ROWS: nat := 8

  /** One edit of the argument: `same`, `kpm=N`, a signed `KC@M`, or text that parses as none of them. */
  datatype Edit = Same | Kpm(n: int) | Change(sign: char, kc: int, m: int) | Malformed

  /** `Died`: the probe stops. `Overrun`: it writes or reads past its buffers. Otherwise the width and
      the table sent. */
  datatype Result = Died | Overrun | Sent(kpm: nat, table: seq<int>)

  // ------------------------------------------------------- tables and rows

  predicate IsTable(k: seq<int>, width: nat) {
    |k| == ROWS * width && forall i :: 0 <= i < |k| ==> 0 <= k[i] < 256
  }

  function NonZero(s: seq<int>): (r: seq<int>)
    ensures |r| <= |s|
  {
    if s == [] then [] else NonZero(s[..|s| - 1]) + (if s[|s| - 1] != 0 then [s[|s| - 1]] else [])
  }

  function Without(s: seq<int>, kc: int): (r: seq<int>)
    ensures |r| <= |s|
  {
    if s == [] then [] else Without(s[..|s| - 1], kc) + (if s[|s| - 1] != kc then [s[|s| - 1]] else [])
  }

  lemma RowBounds(width: nat, m: nat)
    requires m < ROWS
    ensures 0 <= m * width <= (m + 1) * width <= ROWS * width && (m + 1) * width == m * width + width
  {
  }

  function RowOf(k: seq<int>, width: nat, m: nat): (r: seq<int>)
    requires |k| == ROWS * width && m < ROWS
    ensures |r| == width && forall i :: 0 <= i < width ==> m * width + i < |k| && r[i] == k[m * width + i]
  {
    RowBounds(width, m);
    k[m * width..(m + 1) * width]
  }

  /** The keycodes of each modifier, zeros dropped. */
  function Rows(k: seq<int>, width: nat): (r: seq<seq<int>>)
    requires |k| == ROWS * width
    ensures |r| == ROWS && forall m :: 0 <= m < ROWS ==> r[m] == NonZero(RowOf(k, width, m)) && |r[m]| <= width
  {
    seq(ROWS, m requires 0 <= m < ROWS => NonZero(RowOf(k, width, m)))
  }

  /** `r` is what is left of `s` without the zeros or, in general, without `out`: at `at` are the places
      that stay, in order, all of those and no others. */
  ghost predicate Drops(s: seq<int>, out: int, r: seq<int>, at: seq<nat>) {
    && |at| == |r| && (forall k :: 0 <= k < |r| ==> at[k] < |s| && r[k] == s[at[k]])
    && (forall k, h :: 0 <= k < h < |r| ==> at[k] < at[h])
    && (forall i :: 0 <= i < |s| ==> (i in at <==> s[i] != out))
  }

  lemma DropsOne(s: seq<int>, out: int, r: seq<int>, at: seq<nat>, x: int)
    requires Drops(s, out, r, at)
    ensures x == out ==> Drops(s + [x], out, r, at)
    ensures x != out ==> Drops(s + [x], out, r + [x], at + [|s|])
  {
  }

  lemma CountsOne(front: seq<int>, x: int, out: int, r: seq<int>)
    requires multiset(r) == multiset(front)[out := 0]
    ensures multiset(if x == out then r else r + [x]) == multiset(front + [x])[out := 0]
  {
    assert multiset(front + [x]) == multiset(front) + multiset{x};
  }

  /** Removing a keycode: every place that holds it goes, the others stay in their order. */
  lemma {:induction false} WithoutDrops(s: seq<int>, kc: int) returns (at: seq<nat>)
    ensures Drops(s, kc, Without(s, kc), at)
    ensures kc !in Without(s, kc) && multiset(Without(s, kc)) == multiset(s)[kc := 0]
    decreases |s|
  {
    hide Drops;
    if s == [] {
      at := [];
      NothingDrops(kc);
    } else {
      var front, x := s[..|s| - 1], s[|s| - 1];
      at := WithoutDrops(front, kc);
      assert s == front + [x];
      var r := Without(front, kc);
      assert Without(s, kc) == if x == kc then r else r + [x] by { assert r + [] == r; }
      hide Without;
      DropsOne(front, kc, r, at, x);
      CountsOne(front, x, kc, r);
      if x != kc { at := at + [|front|]; }
    }
  }

  lemma NothingDrops(out: int)
    ensures Drops([], out, [], []) && multiset(NonZero([])) == multiset{} == multiset(Without([], out))
    ensures Without([], out) == [] == NonZero([])
  {
  }

  /** Dropping the zeros, the same at 0. */
  lemma {:induction false} NonZeroDrops(s: seq<int>) returns (at: seq<nat>)
    ensures Drops(s, 0, NonZero(s), at) && 0 !in NonZero(s) && multiset(NonZero(s)) == multiset(s)[0 := 0]
    decreases |s|
  {
    hide Drops;
    if s == [] {
      at := [];
      NothingDrops(0);
    } else {
      var front, x := s[..|s| - 1], s[|s| - 1];
      at := NonZeroDrops(front);
      assert s == front + [x];
      var r := NonZero(front);
      assert NonZero(s) == if x == 0 then r else r + [x] by { assert r + [] == r; }
      hide NonZero;
      DropsOne(front, 0, r, at, x);
      CountsOne(front, x, 0, r);
      if x != 0 { at := at + [|front|]; }
    }
  }

  // ------------------------------------------------------- edits on rows

  predicate Stops(e: Edit) {
    e.Malformed? || (e.Change? && (e.m < 0 || e.m >= ROWS || (e.sign != '+' && e.sign != '-')))
  }

  function EditRows(rows: seq<seq<int>>, e: Edit): (r: seq<seq<int>>)
    requires |rows| == ROWS
    ensures |r| == ROWS
  {
    if !e.Change? || Stops(e) then rows
    else if e.sign == '+' then rows[e.m := rows[e.m] + [e.kc]]
    else rows[e.m := Without(rows[e.m], e.kc)]
  }

  function EditAll(rows: seq<seq<int>>, es: seq<Edit>): (r: seq<seq<int>>)
    requires |rows| == ROWS
    ensures |r| == ROWS
  {
    if es == [] then rows else EditRows(EditAll(rows, es[..|es| - 1]), es[|es| - 1])
  }

  /** What one edit does: nothing, or, to the row it names and to no other, put the keycode at the end
      or take it out wherever it is. It is a bad one iff it does not parse, names no row or has no
      sign. */
  lemma EditMeans(rows: seq<seq<int>>, e: Edit) returns (at: seq<nat>)
    requires |rows| == 8
    ensures Stops(e) <==>
        match e
        case Same => false
        case Kpm(_) => false
        case Change(sign, _, m) => !(0 <= m <= 7) || (sign != '+' && sign != '-')
        case Malformed => true
    ensures !e.Change? || Stops(e) ==> EditRows(rows, e) == rows
    ensures e.Change? && !Stops(e) ==>
        && (forall m :: 0 <= m < 8 && m != e.m ==> EditRows(rows, e)[m] == rows[m])
        && (e.sign == '+' ==> EditRows(rows, e)[e.m] == rows[e.m] + [e.kc])
        && (e.sign == '-' ==> Drops(rows[e.m], e.kc, EditRows(rows, e)[e.m], at))
  {
    at := [];
    if e.Change? && !Stops(e) && e.sign == '-' { at := WithoutDrops(rows[e.m], e.kc); }
  }

  /** The width asked for is the last one asked for. */
  lemma {:induction false} ForcedIs(es: seq<Edit>, i: nat)
    requires i < |es| && es[i].Kpm? && forall j :: i < j < |es| ==> !es[j].Kpm?
    ensures Forced(es) == es[i].n
    decreases |es|
  {
    if i < |es| - 1 { ForcedIs(es[..|es| - 1], i); }
  }

  /** The width asked for last; 0 for none. */
  function Forced(es: seq<Edit>): int {
    if es == [] then 0 else if es[|es| - 1].Kpm? then es[|es| - 1].n else Forced(es[..|es| - 1])
  }

  function Longest(rows: seq<seq<int>>, width: nat): (w: nat)
    ensures w >= width && forall m :: 0 <= m < |rows| ==> |rows[m]| <= w
    ensures w == width || exists m :: 0 <= m < |rows| && |rows[m]| == w
  {
    if rows == [] then width
    else
      var w := Longest(rows[..|rows| - 1], width);
      if |rows[|rows| - 1]| > w then |rows[|rows| - 1]| else w
  }

  predicate RowsFit(rows: seq<seq<int>>, w: int) {
    forall m :: 0 <= m < |rows| ==> |rows[m]| <= w
  }

  predicate Keycodes(rows: seq<seq<int>>) {
    forall m, i :: 0 <= m < |rows| && 0 <= i < |rows[m]| ==> 0 < rows[m][i] < 256
  }

  predicate ValidEdits(es: seq<Edit>) {
    forall i :: 0 <= i < |es| && es[i].Change? ==> 0 < es[i].kc < 256
  }

  // ------------------------------------------------------- the program

  /** The first loops: each row of the current table, zeros squeezed out, if they fit. */
  method ReadRow(k: seq<int>, cur: nat, m: nat, row: array<int>) returns (ok: bool, len: nat)
    requires IsTable(k, cur) && m < ROWS
    modifies row
    ensures ok <==> |NonZero(RowOf(k, cur, m))| <= row.Length
    ensures ok ==> len <= row.Length && row[..len] == NonZero(RowOf(k, cur, m))
  {
    ok, len := true, 0;
    RowBounds(cur, m);
    ghost var r := RowOf(k, cur, m);
    for i := 0 to cur
      invariant len <= row.Length && row[..len] == NonZero(r[..i])
    {
      assert r[..i + 1][..i] == r[..i] && r[i] == k[m * cur + i];
      if k[m * cur + i] != 0 {
        if len == row.Length {
          NonZeroGrows(r, i + 1);
          return false, len;
        }
        row[len] := k[m * cur + i];
        len := len + 1;
        assert row[..len] == row[..len - 1] + [k[m * cur + i]];
      }
    }
    assert r[..cur] == r;
  }

  lemma {:induction false} NonZeroGrows(s: seq<int>, n: nat)
    requires n <= |s|
    ensures |NonZero(s[..n])| <= |NonZero(s)|
    decreases |s|
  {
    if n < |s| {
      NonZeroGrows(s[..|s| - 1], n);
      assert s[..|s| - 1][..n] == s[..n];
    } else {
      assert s[..n] == s;
    }
  }

  /** Removal: the row is compacted in place, one index chasing the other. */
  method Compact(row: array<int>, len: nat, kc: int) returns (len': nat)
    requires len <= row.Length
    modifies row
    ensures len' <= len && row[..len'] == Without(old(row[..len]), kc)
  {
    ghost var s := row[..len];
    var j := 0;
    for t := 0 to len
      invariant j <= t && row[..j] == Without(s[..t], kc)
      invariant forall i :: t <= i < len ==> row[i] == s[i]
    {
      assert s[..t + 1][..t] == s[..t];
      if row[t] != kc {
        row[j] := row[t];
        j := j + 1;
        assert row[..j] == row[..j - 1] + [s[t]];
      }
    }
    assert s[..len] == s;
    len' := j;
  }

  /** Append to a row. */
  method Append(row: array<int>, len: nat, kc: int) returns (len': nat)
    requires len < row.Length
    modifies row
    ensures len' == len + 1 && row[..len'] == old(row[..len]) + [kc]
  {
    row[len] := kc;
    len' := len + 1;
  }

  /** The working rows stand for `rows`. */
  ghost predicate Holds(row: array<array<int>>, len: array<nat>, rows: seq<seq<int>>)
    reads row, len, set m | 0 <= m < row.Length :: row[m]
  {
    && row.Length == len.Length == ROWS && |rows| == ROWS
    && (forall m :: 0 <= m < ROWS ==> len[m] <= row[m].Length && row[m][..len[m]] == rows[m])
  }

  ghost predicate Separate(row: array<array<int>>) reads row {
    forall m, n :: 0 <= m < n < row.Length ==> row[m] != row[n]
  }

  /** One edit of the list, on a row of its own. */
  method ApplyEdit(row: array<array<int>>, len: array<nat>, e: Edit, ghost rows: seq<seq<int>>)
    requires Holds(row, len, rows) && Separate(row) && e.Change? && !Stops(e)
    requires e.sign == '+' ==> len[e.m] < row[e.m].Length
    modifies row[e.m], len
    ensures Holds(row, len, EditRows(rows, e))
  {
    var n;
    if e.sign == '+' {
      n := Append(row[e.m], len[e.m], e.kc);
    } else {
      n := Compact(row[e.m], len[e.m], e.kc);
    }
    len[e.m] := n;
  }

  /** The rows laid out at the given width, zero padded; keycodes go out as bytes. */
  method LayOut(rows: seq<seq<int>>, kpm: nat) returns (out: array<int>)
    requires |rows| == ROWS && RowsFit(rows, kpm)
    ensures fresh(out) && out.Length == ROWS * kpm && IsTable(out[..], kpm)
    ensures forall m, i :: 0 <= m < ROWS && 0 <= i < kpm ==>
        RowOf(out[..], kpm, m)[i] == if i < |rows[m]| then rows[m][i] % 256 else 0
    ensures Keycodes(rows) ==> Rows(out[..], kpm) == rows
  {
    out := new int[ROWS * kpm](_ => 0);
    for m := 0 to ROWS
      invariant forall p :: 0 <= p < out.Length ==> 0 <= out[p] < 256
      invariant forall n :: 0 <= n < m ==> LaidOut(out[..], kpm, n, rows[n])
      invariant forall p :: m * kpm <= p < out.Length ==> out[p] == 0
    {
      ghost var before := out[..];
      RowBounds(kpm, m);
      for i := 0 to |rows[m]|
        invariant forall p :: 0 <= p < out.Length ==> 0 <= out[p] < 256
        invariant forall p :: 0 <= p < m * kpm ==> out[p] == before[p]
        invariant forall j :: 0 <= j < i ==> out[m * kpm + j] == rows[m][j] % 256
        invariant forall p :: m * kpm + i <= p < out.Length ==> out[p] == 0
      {
        out[m * kpm + i] := rows[m][i] % 256;
      }
      EarlierRows(before, out[..], kpm, m, rows);
    }
    if Keycodes(rows) {
      forall m | 0 <= m < ROWS ensures Rows(out[..], kpm)[m] == rows[m] {
        RowReads(out[..], kpm, m, rows[m]);
      }
    }
  }

  /** Row n of the table is the given keycodes as bytes, then zeros. */
  ghost predicate LaidOut(t: seq<int>, kpm: nat, n: nat, r: seq<int>) {
    n < ROWS && |t| == ROWS * kpm && |r| <= kpm
      && forall j {:trigger RowOf(t, kpm, n)[j]} :: 0 <= j < kpm ==>
          RowOf(t, kpm, n)[j] == if j < |r| then r[j] % 256 else 0
  }

  lemma EarlierRows(before: seq<int>, t: seq<int>, kpm: nat, m: nat, rows: seq<seq<int>>)
    requires m < ROWS && |before| == |t| == ROWS * kpm && |rows| == ROWS && |rows[m]| <= kpm
    requires forall n :: 0 <= n < m ==> LaidOut(before, kpm, n, rows[n])
    requires forall p :: 0 <= p < m * kpm ==> t[p] == before[p]
    requires RowWritten(t, m * kpm, rows[m])
    ensures forall n :: 0 <= n <= m ==> LaidOut(t, kpm, n, rows[n])
  {
    forall n | 0 <= n <= m ensures LaidOut(t, kpm, n, rows[n]) {
      RowBounds(kpm, n);
      if n < m {
        assert (n + 1) * kpm <= m * kpm;
        assert RowOf(t, kpm, n) == RowOf(before, kpm, n);
        assert LaidOut(before, kpm, n, rows[n]);
      } else {
        forall j | 0 <= j < kpm ensures RowOf(t, kpm, n)[j] == if j < |rows[n]| then rows[n][j] % 256 else 0 {
          assert RowOf(t, kpm, n)[j] == t[m * kpm + j];
        }
      }
    }
  }

  /** From `at` on there is the row, as bytes, and then nothing. */
  ghost predicate RowWritten(t: seq<int>, at: int, r: seq<int>) {
    && 0 <= at && at + |r| <= |t|
    && (forall j :: 0 <= j < |r| ==> t[at + j] == r[j] % 256)
    && (forall p :: at + |r| <= p < |t| ==> t[p] == 0)
  }

  lemma RowReads(t: seq<int>, kpm: nat, m: nat, r: seq<int>)
    requires m < ROWS && |t| == ROWS * kpm && LaidOut(t, kpm, m, r)
    requires forall i :: 0 <= i < |r| ==> 0 < r[i] < 256
    ensures NonZero(RowOf(t, kpm, m)) == r
  {
    var s := RowOf(t, kpm, m);
    assert s[..|r|] == r;
    NonZeroPadded(s, |r|);
    NonZeroAll(r);
  }

  lemma {:induction false} NonZeroPadded(s: seq<int>, n: nat)
    requires n <= |s| && forall j :: n <= j < |s| ==> s[j] == 0
    ensures NonZero(s) == NonZero(s[..n])
    decreases |s|
  {
    if n < |s| {
      NonZeroPadded(s[..|s| - 1], n);
      assert s[..|s| - 1][..n] == s[..n];
    } else {
      assert s[..n] == s;
    }
  }

  lemma {:induction false} NonZeroAll(s: seq<int>)
    requires forall j :: 0 <= j < |s| ==> s[j] != 0
    ensures NonZero(s) == s
  {
    if s != [] {
      NonZeroAll(s[..|s| - 1]);
      assert s == s[..|s| - 1] + [s[|s| - 1]];
    }
  }

  /** Edits with keycodes in range keep every row a row of keycodes. */
  lemma {:induction false} EditsKeepKeycodes(rows: seq<seq<int>>, es: seq<Edit>)
    requires |rows| == ROWS && Keycodes(rows) && ValidEdits(es)
    ensures Keycodes(EditAll(rows, es))
  {
    if es != [] {
      var front, e := es[..|es| - 1], es[|es| - 1];
      assert forall i :: 0 <= i < |front| ==> front[i] == es[i];
      EditsKeepKeycodes(rows, front);
      var r := EditAll(rows, front);
      if e.Change? && !Stops(e) && e.sign == '-' {
        WithoutKeeps(r[e.m], e.kc);
      }
    }
  }

  lemma {:induction false} WithoutKeeps(s: seq<int>, kc: int)
    requires forall i :: 0 <= i < |s| ==> 0 < s[i] < 256
    ensures forall i :: 0 <= i < |Without(s, kc)| ==> 0 < Without(s, kc)[i] < 256
  {
    if s != [] { WithoutKeeps(s[..|s| - 1], kc); }
  }

  lemma {:induction false} RowsAreKeycodes(s: seq<int>)
    requires forall i :: 0 <= i < |s| ==> 0 <= s[i] < 256
    ensures forall i :: 0 <= i < |NonZero(s)| ==> 0 < NonZero(s)[i] < 256
  {
    if s != [] { RowsAreKeycodes(s[..|s| - 1]); }
  }

  /** Some row outgrows its buffer, in the table as it is or at an edit before the first bad one. */
  ghost predicate Spills(rows: seq<seq<int>>, es: seq<Edit>, cap: nat)
    requires |rows| == ROWS
  {
    exists n :: 0 <= n <= |es| && SpillsAt(rows, es, n, cap)
  }

  ghost predicate SpillsAt(rows: seq<seq<int>>, es: seq<Edit>, n: nat, cap: nat)
    requires |rows| == ROWS && n <= |es|
  {
    (forall i :: 0 <= i < n ==> !Stops(es[i])) && !RowsFit(EditAll(rows, es[..n]), cap)
  }

  /** `smmx`: the table sent decodes row by row to the edited rows. Its width is the forced one, or
      the current one grown to the longest row. It stops on a bad edit or a row that does not fit. */
  method Smmx(k: seq<int>, cur: nat, es: seq<Edit>, cap: nat) returns (r: Result)
    requires IsTable(k, cur)
    ensures var rows, f := EditAll(Rows(k, cur), es), Forced(es);
      var width, spills := if f != 0 then f else Longest(rows, cur), Spills(Rows(k, cur), es, cap);
      && (r == Died <==> !spills && ((exists i :: 0 <= i < |es| && Stops(es[i])) || (f != 0 && !RowsFit(rows, f))))
      && (r == Overrun <==> spills || (r != Died && width > cap))
      && (r.Sent? ==>
            && r.kpm == width
            && IsTable(r.table, r.kpm)
            && ((forall i :: 0 <= i < |es| && es[i].Change? ==> 0 < es[i].kc < 256) ==> Rows(r.table, r.kpm) == rows))
  {
    hide Rows, Longest, RowsFit, EditAll, Stops, Spills;
    var outcome, now, force := EditLoop(k, cur, es, cap);
    match outcome {
      case Spilled => return Overrun;
      case Stopped => return Died;
      case Done =>
    }
    r := Send(now, cur, force, cap);
    if ValidEdits(es) {
      TableKeycodes(k, cur);
      EditsKeepKeycodes(Rows(k, cur), es);
    }
  }

  /** An edit makes no row longer by more than one. */
  lemma {:induction false} EditedFit(rows: seq<seq<int>>, es: seq<Edit>, cur: nat)
    requires |rows| == ROWS && RowsFit(rows, cur)
    ensures RowsFit(EditAll(rows, es), cur + |es|) && Longest(EditAll(rows, es), cur) <= cur + |es|
  {
    if es != [] { EditedFit(rows, es[..|es| - 1], cur); }
  }

  /** So a table with room for every edit never outgrows its buffers. */
  lemma RoomNeverSpills(rows: seq<seq<int>>, es: seq<Edit>, cur: nat, cap: nat)
    requires |rows| == ROWS && RowsFit(rows, cur) && cur + |es| <= cap
    ensures !Spills(rows, es, cap) && Longest(EditAll(rows, es), cur) <= cap
  {
    hide EditAll, Stops, Longest;
    EditedFit(rows, es, cur);
    forall n: nat | n <= |es| ensures RowsFit(EditAll(rows, es[..n]), cap) {
      EditedFit(rows, es[..n], cur);
    }
  }

  lemma TableKeycodes(k: seq<int>, cur: nat)
    requires IsTable(k, cur)
    ensures Keycodes(Rows(k, cur))
  {
    forall m | 0 <= m < ROWS ensures forall i :: 0 <= i < |Rows(k, cur)[m]| ==> 0 < Rows(k, cur)[m][i] < 256 {
      RowsAreKeycodes(RowOf(k, cur, m));
    }
  }

  datatype Outcome = Done | Stopped | Spilled

  /** Reading the table and applying the edits in order, up to the first bad one or the first row
      that outgrows its buffer. */
  method EditLoop(k: seq<int>, cur: nat, es: seq<Edit>, cap: nat)
    returns (outcome: Outcome, now: seq<seq<int>>, force: int)
    requires IsTable(k, cur)
    ensures outcome == Spilled <==> Spills(Rows(k, cur), es, cap)
    ensures outcome == Stopped <==> !Spills(Rows(k, cur), es, cap) && exists i :: 0 <= i < |es| && Stops(es[i])
    ensures outcome == Done ==> now == EditAll(Rows(k, cur), es) && force == Forced(es)
  {
    hide Rows, EditRows, EditAll, Stops, RowsFit, Holds, NoneYet, Spills, Forced;
    now, force := [], 0;
    ghost var rows := Rows(k, cur);
    var fits, row, len := Start(k, cur, cap);
    FirstStep(rows, es, cap);
    if !fits {
      return Spilled, now, force;
    }
    for i := 0 to |es|
      invariant row.Length == len.Length == ROWS && Holds(row, len, EditAll(rows, es[..i])) && Separate(row)
      invariant fresh(row) && fresh(len) && forall m :: 0 <= m < ROWS ==> fresh(row[m]) && row[m].Length == cap
      invariant force == Forced(es[..i]) && NoneYet(rows, es, i, cap)
    {
      EditStep(rows, es, i, cap);
      EditCases(EditAll(rows, es[..i]), es[i]);
      if es[i] == Same {
        continue;
      }
      if es[i].Kpm? {
        force := es[i].n;
        continue;
      }
      if Stops(es[i]) {
        return Stopped, now, force;
      }
      RowLength(row, len, EditAll(rows, es[..i]), es[i].m);
      if es[i].sign == '+' && len[es[i].m] == cap {
        Outgrown(EditAll(rows, es[..i]), es[i], cap);
        return Spilled, now, force;
      }
      ApplyEdit(row, len, es[i], EditAll(rows, es[..i]));
      HeldFit(row, len, EditAll(rows, es[..i + 1]), cap);
    }
    LastStep(rows, es, cap);
    now := Snapshot(row, len, EditAll(rows, es));
    outcome := Done;
  }

  /** Before edit i nothing has stopped and every row has fitted. */
  ghost predicate NoneYet(rows: seq<seq<int>>, es: seq<Edit>, i: nat, cap: nat)
    requires |rows| == ROWS
  {
    && i <= |es|
    && (forall j :: 0 <= j < i ==> !Stops(es[j]))
    && (forall n :: 0 <= n <= i ==> RowsFit(EditAll(rows, es[..n]), cap))
  }

  lemma {:induction false} FirstStep(rows: seq<seq<int>>, es: seq<Edit>, cap: nat)
    requires |rows| == ROWS
    ensures EditAll(rows, es[..0]) == rows && Forced(es[..0]) == 0
    ensures if RowsFit(rows, cap) then NoneYet(rows, es, 0, cap) else Spills(rows, es, cap)
  {
    assert es[..0] == [];
    if !RowsFit(rows, cap) { assert SpillsAt(rows, es, 0, cap); }
  }

  lemma {:induction false} EditStep(rows: seq<seq<int>>, es: seq<Edit>, i: nat, cap: nat)
    requires |rows| == ROWS && i < |es| && NoneYet(rows, es, i, cap)
    ensures EditAll(rows, es[..i + 1]) == EditRows(EditAll(rows, es[..i]), es[i])
    ensures Forced(es[..i + 1]) == if es[i].Kpm? then es[i].n else Forced(es[..i])
    ensures RowsFit(EditAll(rows, es[..i]), cap)
    ensures Stops(es[i]) ==> !Spills(rows, es, cap)
    ensures !Stops(es[i]) && RowsFit(EditAll(rows, es[..i + 1]), cap) ==> NoneYet(rows, es, i + 1, cap)
    ensures !Stops(es[i]) && !RowsFit(EditAll(rows, es[..i + 1]), cap) ==> Spills(rows, es, cap)
  {
    hide EditRows, EditAll, Forced, Stops, RowsFit;
    EditNext(rows, es, i);
    if !Stops(es[i]) && !RowsFit(EditAll(rows, es[..i + 1]), cap) { assert SpillsAt(rows, es, i + 1, cap); }
  }

  lemma {:induction false} EditNext(rows: seq<seq<int>>, es: seq<Edit>, i: nat)
    requires |rows| == ROWS && i < |es|
    ensures EditAll(rows, es[..i + 1]) == EditRows(EditAll(rows, es[..i]), es[i])
    ensures Forced(es[..i + 1]) == if es[i].Kpm? then es[i].n else Forced(es[..i])
  {
    hide EditRows;
    assert es[..i + 1][..i] == es[..i] && es[..i + 1][i] == es[i];
  }

  lemma {:induction false} LastStep(rows: seq<seq<int>>, es: seq<Edit>, cap: nat)
    requires |rows| == ROWS && NoneYet(rows, es, |es|, cap)
    ensures es[..|es|] == es && !Spills(rows, es, cap) && forall i :: 0 <= i < |es| ==> !Stops(es[i])
  {
    hide EditAll, Stops, RowsFit;
  }

  lemma RowLength(row: array<array<int>>, len: array<nat>, rows: seq<seq<int>>, m: nat)
    requires Holds(row, len, rows) && m < ROWS
    ensures |rows[m]| == len[m] <= row[m].Length
  {
  }

  lemma HeldFit(row: array<array<int>>, len: array<nat>, rows: seq<seq<int>>, cap: nat)
    requires Holds(row, len, rows) && forall m :: 0 <= m < ROWS ==> row[m].Length == cap
    ensures RowsFit(rows, cap)
  {
    forall m | 0 <= m < ROWS ensures |rows[m]| <= cap { assert rows[m] == row[m][..len[m]]; }
  }

  lemma Outgrown(rows: seq<seq<int>>, e: Edit, cap: nat)
    requires |rows| == ROWS && e.Change? && !Stops(e) && e.sign == '+' && |rows[e.m]| == cap
    ensures !RowsFit(EditRows(rows, e), cap)
  {
    assert |EditRows(rows, e)[e.m]| == cap + 1;
  }

  lemma EditCases(rows: seq<seq<int>>, e: Edit)
    requires |rows| == ROWS
    ensures e == Same || e.Kpm? ==> EditRows(rows, e) == rows && !Stops(e)
    ensures !Stops(e) && e != Same && !e.Kpm? ==> e.Change? && 0 <= e.m < ROWS
  {
  }

  method Snapshot(row: array<array<int>>, len: array<nat>, ghost rows: seq<seq<int>>) returns (now: seq<seq<int>>)
    requires Holds(row, len, rows)
    ensures now == rows
  {
    now := [];
    for m := 0 to ROWS
      invariant now == rows[..m]
    {
      now := now + [row[m][..len[m]]];
    }
  }

  /** Width, fit and layout. */
  method Send(rows: seq<seq<int>>, cur: nat, force: int, cap: nat) returns (r: Result)
    requires |rows| == ROWS
    ensures r == Died <==> force != 0 && !RowsFit(rows, force)
    ensures r == Overrun <==> r != Died && (if force != 0 then force else Longest(rows, cur)) > cap
    ensures r.Sent? ==>
        r.kpm == (if force != 0 then force else Longest(rows, cur)) && IsTable(r.table, r.kpm) && (Keycodes(rows) ==>
            Rows(r.table, r.kpm) == rows)
  {
    var kpm := Longest(rows, cur);
    if force != 0 {
      if !RowsFit(rows, force) {
        return Died;
      }
      assert |rows[0]| <= force;
      kpm := force;
    }
    if kpm > cap {
      return Overrun;
    }
    var out := LayOut(rows, kpm);
    r := Sent(kpm, out[..]);
  }

  /** One row read into a buffer of its own. */
  method ReadNew(k: seq<int>, cur: nat, m: nat, cap: nat) returns (ok: bool, row: array<int>, len: nat)
    requires IsTable(k, cur) && m < ROWS
    ensures fresh(row) && row.Length == cap
    ensures ok <==> |Rows(k, cur)[m]| <= cap
    ensures ok ==> len <= cap && row[..len] == Rows(k, cur)[m]
  {
    row := new int[cap];
    ok, len := ReadRow(k, cur, m, row);
  }

  /** The working rows of the current table, if they fit. */
  method Start(k: seq<int>, cur: nat, cap: nat) returns (fits: bool, row: array<array<int>>, len: array<nat>)
    requires IsTable(k, cur)
    ensures fresh(row) && fresh(len)
    ensures fits <==> RowsFit(Rows(k, cur), cap)
    ensures fits ==> Holds(row, len, Rows(k, cur)) && Separate(row)
    ensures fits ==> forall m :: 0 <= m < ROWS ==> fresh(row[m]) && row[m].Length == cap
  {
    fits := true;
    var first := new int[cap];
    row := new array<int>[ROWS](_ => first);
    len := new nat[ROWS](_ => 0);
    for m := 0 to ROWS
      invariant forall n :: 0 <= n < m ==> fresh(row[n]) && row[n].Length == cap && row[n] != first
      invariant forall n :: 0 <= n < m ==> len[n] <= cap && row[n][..len[n]] == Rows(k, cur)[n]
      invariant forall n, p :: 0 <= n < p < m ==> row[n] != row[p]
    {
      var ok, buffer, l := ReadNew(k, cur, m, cap);
      if !ok {
        assert |Rows(k, cur)[m]| > cap;
        return false, row, len;
      }
      row[m], len[m] := buffer, l;
    }
    forall n | 0 <= n < ROWS ensures |Rows(k, cur)[n]| <= cap { assert row[n][..len[n]] == Rows(k, cur)[n]; }
  }
}
