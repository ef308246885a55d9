/** The run-length encoder of sampled rows and columns (tools/vng-scenarios/draw-clip-probe.c,
    `runs`). */
module RunLength {

  const NO_PIXEL: nat := 0xffff_ffff

  /** The printed run: first and last coordinate, and the colour. */
  datatype Run = Run(first: int, last: int, colour: nat)

  /** Sample i stands at this coordinate. */
  function At(start: int, step: int, i: int): int { start + i * step }

  /** What a list of runs stands for: run k covers the samples lo..hi of its coordinates. */
  ghost predicate Decodes(runs: seq<Run>, s: seq<nat>, start: int, step: int, n: nat, cuts: seq<nat>)
    requires n <= |s|
  {
    && |cuts| == |runs| + 1 && cuts[0] == 0 && cuts[|runs|] == n
    && (forall k :: 0 <= k < |runs| ==> RunCovers(runs, s, start, step, cuts, k))
  }

  ghost predicate RunCovers(runs: seq<Run>, s: seq<nat>, start: int, step: int, cuts: seq<nat>, k: nat)
    requires k < |runs| && |cuts| == |runs| + 1
  {
    && cuts[k] < cuts[k + 1] <= |s|
    && runs[k].first == At(start, step, cuts[k]) && runs[k].last == At(start, step, cuts[k + 1] - 1)
    && (forall i :: cuts[k] <= i < cuts[k + 1] ==> s[i] == runs[k].colour)
  }

  /** Neighbouring runs differ in colour: no run could be longer. */
  predicate Maximal(runs: seq<Run>) {
    forall k :: 0 < k < |runs| ==> runs[k].colour != runs[k - 1].colour
  }

  /** `runs`: one pass with a sentinel past the end. The runs cover the samples in order, each sample
      once with its own colour; neighbours differ; the sentinel flushes the last run and is never
      printed. */
  method Runs(s: seq<nat>, start: int, step: int) returns (out: seq<Run>, ghost cuts: seq<nat>)
    requires forall i :: 0 <= i < |s| ==> s[i] < 0x100_0000
    requires forall i :: 0 <= i < |s| ==> At(start, step, i) >= 0
    ensures Decodes(out, s, start, step, |s|, cuts) && Maximal(out)
    ensures out == [] <==> s == []
  {
    out, cuts := [], [0];
    var run: nat, from, last := 0, -1, 0;
    for i := 0 to |s| + 1
      invariant i <= |s| ==> (from >= 0 <==> i > 0)
      invariant i == 0 ==> out == []
      invariant i <= |s| ==> Open(out, cuts, s, start, step, i, run, from, last)
      invariant i == |s| + 1 ==> Decodes(out, s, start, step, |s|, cuts) && Maximal(out) && (out == [] <==> s == [])
    {
      var at := At(start, step, i);
      var px := if i < |s| then s[i] else NO_PIXEL;
      if i > 0 { assert s[cuts[|cuts| - 1]] == run; }
      if from >= 0 && px != run {
        CloseRun(out, cuts, s, start, step, i, run, from, last);
        out := out + [Run(from, last, run)];
        cuts := cuts + [i];
        from := -1;
      }
      if from < 0 {
        from := at;
        run := px;
      }
      last := at;
    }
  }

  /** What the runs are: run k holds the samples from cut k up to the next cut, all of its colour, its
      coordinates are theirs, and the next run has another colour. */
  lemma RunsAre(runs: seq<Run>, s: seq<nat>, start: int, step: int, cuts: seq<nat>, k: nat)
    requires Decodes(runs, s, start, step, |s|, cuts) && Maximal(runs) && k < |runs|
    ensures |cuts| == |runs| + 1 && cuts[0] == 0 && cuts[|runs|] == |s| && cuts[k] < cuts[k + 1] <= |s|
    ensures runs[k].first == start + cuts[k] * step && runs[k].last == start + (cuts[k + 1] - 1) * step
    ensures forall i :: cuts[k] <= i < cuts[k + 1] ==> s[i] == runs[k].colour
    ensures k + 1 < |runs| ==> runs[k].colour != runs[k + 1].colour
  {
    assert RunCovers(runs, s, start, step, cuts, k);
  }

  /** Before sample i: the printed runs cover the samples up to the last cut, and the open run the
      rest, all of colour `run`. */
  ghost predicate Open(out: seq<Run>, cuts: seq<nat>, s: seq<nat>, start: int, step: int, i: nat, run: nat,
                       from: int, last: int)
    requires i <= |s|
  {
    && cuts != [] && cuts[|cuts| - 1] <= i
    && Decodes(out, s, start, step, cuts[|cuts| - 1], cuts) && Maximal(out)
    && (i == 0 ==> cuts == [0])
    && (i > 0 ==>
          var c := cuts[|cuts| - 1];
          && c < i && from == At(start, step, c) && last == At(start, step, i - 1)
          && (forall k :: c <= k < i ==> s[k] == run)
          && (out != [] ==> out[|out| - 1].colour != run))
  }

  lemma CloseRun(out: seq<Run>, cuts: seq<nat>, s: seq<nat>, start: int, step: int, i: nat, run: nat, from: int,
                 last: int)
    requires 0 < i <= |s| && Open(out, cuts, s, start, step, i, run, from, last)
    ensures Decodes(out + [Run(from, last, run)], s, start, step, i, cuts + [i])
        && Maximal(out + [Run(from, last, run)])
  {
    var more, ends := out + [Run(from, last, run)], cuts + [i];
    forall k | 0 <= k < |more| ensures RunCovers(more, s, start, step, ends, k) {
      if k < |out| { assert RunCovers(out, s, start, step, cuts, k); }
    }
  }

  /** Decoding by coordinate: each sample's coordinate lies in exactly one printed run, and that run
      has its colour. */
  lemma SampleFound(runs: seq<Run>, s: seq<nat>, start: int, step: int, cuts: seq<nat>, i: nat) returns (k: nat)
    requires i < |s| && step > 0 && Decodes(runs, s, start, step, |s|, cuts)
    ensures k < |runs| && runs[k].colour == s[i]
    ensures forall j :: 0 <= j < |runs| ==> (runs[j].first <= At(start, step, i) <= runs[j].last <==> j == k)
  {
    k := RunOf(runs, s, start, step, cuts, i);
    forall j | 0 <= j < |runs| ensures runs[j].first <= At(start, step, i) <= runs[j].last <==> j == k {
      assert RunCovers(runs, s, start, step, cuts, j) && RunCovers(runs, s, start, step, cuts, k);
      CutsAscend(runs, s, start, step, cuts, j, k);
      CutsAscend(runs, s, start, step, cuts, k, j);
      Monotone(start, step, cuts[j], i);
      Monotone(start, step, i, cuts[j + 1] - 1);
      Monotone(start, step, cuts[j + 1] - 1, i);
      Monotone(start, step, i, cuts[j]);
    }
  }

  lemma Monotone(start: int, step: int, i: int, j: int)
    requires step > 0
    ensures i <= j ==> At(start, step, i) <= At(start, step, j)
    ensures i < j ==> At(start, step, i) < At(start, step, j)
  {
  }

  lemma {:induction false} CutsAscend(runs: seq<Run>, s: seq<nat>, start: int, step: int, cuts: seq<nat>, j: nat,
                                      k: nat)
    requires Decodes(runs, s, start, step, |s|, cuts) && j < |runs| && k < |runs|
    ensures j < k ==> cuts[j + 1] <= cuts[k]
    decreases k
  {
    if j + 1 < k {
      CutsAscend(runs, s, start, step, cuts, j, k - 1);
      assert RunCovers(runs, s, start, step, cuts, k - 1);
    }
  }

  lemma RunOf(runs: seq<Run>, s: seq<nat>, start: int, step: int, cuts: seq<nat>, i: nat) returns (k: nat)
    requires i < |s| && Decodes(runs, s, start, step, |s|, cuts)
    ensures k < |runs| && cuts[k] <= i < cuts[k + 1] && s[i] == runs[k].colour
  {
    k := 0;
    while cuts[k + 1] <= i
      invariant k < |runs| && cuts[k] <= i
      decreases |runs| - k
    {
      k := k + 1;
    }
    assert RunCovers(runs, s, start, step, cuts, k);
  }
}
