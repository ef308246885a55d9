/** The string operations of the Python tools, over characters: white space is ASCII's. */
module Text {

  predicate Space(c: char) { c in {' ', '\t', '\n', '\r', '\U{000b}', '\U{000c}'} }

  predicate StartsWith(s: string, p: string) { |p| <= |s| && s[..|p|] == p }

  /** `sub` is in `s` at k. */
  predicate Occurs(s: string, sub: string, k: nat) {
    k + |sub| <= |s| && s[k..k + |sub|] == sub
  }

  /** The first place of `sub` in `s`, from `at` on; the length of `s` if there is none. */
  function Find(s: string, sub: string, at: nat): (i: nat)
    requires at <= |s| && sub != ""
    ensures at <= i <= |s| && (i < |s| ==> Occurs(s, sub, i))
    ensures forall k :: at <= k < i ==> !Occurs(s, sub, k)
    decreases |s| - at
  {
    if at + |sub| > |s| then |s|
    else if Occurs(s, sub, at) then at
    else Find(s, sub, at + 1)
  }

  /** `split()`: the words, `cur` being the start of the first. */
  function Words(s: string, cur: string): seq<string>
    decreases |s|
  {
    if s == "" then (if cur == "" then [] else [cur])
    else if Space(s[0]) then (if cur == "" then [] else [cur]) + Words(s[1..], "")
    else Words(s[1..], cur + [s[0]])
  }

  /** Words are what stands between runs of white space. */
  lemma {:induction false} WordFound(w: string, gap: string, rest: string, cur: string)
    requires (forall i :: 0 <= i < |w| ==> !Space(w[i])) && (forall i :: 0 <= i < |gap| ==> Space(gap[i]))
    requires gap != "" || rest == ""
    ensures Words(w + gap + rest, cur) == (if cur + w == "" then [] else [cur + w]) + Words(rest, "")
    decreases |w| + |gap|
  {
    var s := w + gap + rest;
    if w != "" {
      assert s[0] == w[0] && s[1..] == w[1..] + gap + rest && cur + [w[0]] + w[1..] == cur + w;
      WordFound(w[1..], gap, rest, cur + [w[0]]);
    } else if gap != "" {
      assert s[0] == gap[0] && s[1..] == gap[1..] + rest && cur + w == cur;
      GapSkipped(gap[1..], rest);
    } else {
      assert s == "" && cur + w == cur && Words("", "") == [];
    }
  }

  lemma {:induction false} GapSkipped(gap: string, rest: string)
    requires forall i :: 0 <= i < |gap| ==> Space(gap[i])
    ensures Words(gap + rest, "") == Words(rest, "")
  {
    if gap == "" {
      assert gap + rest == rest;
    } else {
      assert (gap + rest)[0] == gap[0] && (gap + rest)[1..] == gap[1..] + rest;
      GapSkipped(gap[1..], rest);
    }
  }
}
