/** What a change to one window exposes (crates/yserver-core/src/core_loop/clip_list.rs,
    `TreeChange`): only the siblings that meet the window's outer rectangle before or after are
    looked at, and that is enough. */
module TreeChange {
  import opened Plane
  import opened Boxes
  import opened RegionAlgebra
  import opened Normalise
  import opened WindowTree
  import opened ShapeCuts
  import opened ClipList

  // ------------------------------------------------------- exposures, as sets of pixels

  /** A window, and its clip list and ring or what it gained of them. */
  datatype Seen = Seen(id: int, clip: iset<Pt>, ring: iset<Pt>)

  datatype Found = NotFound | Found(seen: Seen)

  datatype Whole = NoWindow | Whole(id: int)

  ghost function Find(s: seq<Seen>, id: int): Found {
    if s == [] then NotFound else if s[0].id == id then Found(s[0]) else Find(s[1..], id)
  }

  /** What a window shows that it did not before; `whole` gains its entire clip list. */
  ghost function Gain(before: seq<Seen>, e: Seen, whole: Whole): Seen {
    var prior := Find(before, e.id);
    Seen(e.id,
         if prior.Found? && whole != Whole(e.id) then e.clip - prior.seen.clip else e.clip,
         if prior.Found? then e.ring - prior.seen.ring else e.ring)
  }

  /** The windows that gain something, in order. */
  ghost function Gains(before: seq<Seen>, after: seq<Seen>, whole: Whole): seq<Seen> {
    if after == [] then [] else Kept(Gain(before, after[0], whole)) + Gains(before, after[1..], whole)
  }

  ghost function Kept(g: Seen): seq<Seen> {
    if g.clip == iset{} && g.ring == iset{} then [] else [g]
  }

  ghost function Strip(s: seq<Shown>): (t: seq<Seen>)
    ensures |t| == |s| && forall k :: 0 <= k < |t| ==> t[k] == Seen(s[k].id, s[k].clip, s[k].ring)
  {
    seq(|s|, k requires 0 <= k < |s| => Seen(s[k].id, s[k].clip, s[k].ring))
  }

  lemma {:induction false} GainsConcat(before: seq<Seen>, s: seq<Seen>, t: seq<Seen>, whole: Whole)
    ensures Gains(before, s + t, whole) == Gains(before, s, whole) + Gains(before, t, whole)
  {
    hide Gain, Kept;
    if s == [] {
      assert s + t == t;
    } else {
      GainsConcat(before, s[1..], t, whole);
      assert (s + t)[1..] == s[1..] + t && (s + t)[0] == s[0];
      Regroup(Kept(Gain(before, s[0], whole)), Gains(before, s[1..], whole), Gains(before, t, whole));
    }
  }

  /** Window `id` showed the pixel before. */
  ghost predicate WasContent(before: seq<Seen>, id: int, p: Pt) {
    exists k :: 0 <= k < |before| && before[k].id == id && p in before[k].clip
  }

  ghost predicate WasBorder(before: seq<Seen>, id: int, p: Pt) {
    exists k :: 0 <= k < |before| && before[k].id == id && p in before[k].ring
  }

  /** A content pixel of `e` that is exposed: it shows now, and the window is the whole one or did not
      show it. */
  ghost predicate NewContent(before: seq<Seen>, e: Seen, whole: Whole, p: Pt) {
    p in e.clip && (whole == Whole(e.id) || !WasContent(before, e.id, p))
  }

  /** A border pixel that is exposed, of the whole window, too, only if it is new. */
  ghost predicate NewBorder(before: seq<Seen>, e: Seen, p: Pt) { p in e.ring && !WasBorder(before, e.id, p) }

  ghost predicate Listed(before: seq<Seen>, e: Seen, whole: Whole) {
    (exists p :: NewContent(before, e, whole, p)) || exists p :: NewBorder(before, e, p)
  }

  /** The exposures are these pixels, of the windows that have any, in the new order: `at` says which
      entry each is. */
  ghost predicate AreExposed(before: seq<Seen>, after: seq<Seen>, whole: Whole, g: seq<Seen>, at: seq<nat>) {
    && |at| == |g|
    && (forall k :: 0 <= k < |g| ==> at[k] < |after| && g[k].id == after[at[k]].id)
    && (forall k, p :: 0 <= k < |g| ==> (p in g[k].clip <==> NewContent(before, after[at[k]], whole, p)))
    && (forall k, p :: 0 <= k < |g| ==> (p in g[k].ring <==> NewBorder(before, after[at[k]], p)))
    && (forall k, h :: 0 <= k < h < |g| ==> at[k] < at[h])
    && (forall i :: 0 <= i < |after| ==> (i in at <==> Listed(before, after[i], whole)))
  }

  lemma {:induction false} FindFirstOf(s: seq<Seen>, id: int)
    requires DistinctIds(s)
    ensures Find(s, id).Found? ==> Find(s, id).seen.id == id
    ensures forall p :: WasContent(s, id, p) <==> Find(s, id).Found? && p in Find(s, id).seen.clip
    ensures forall p :: WasBorder(s, id, p) <==> Find(s, id).Found? && p in Find(s, id).seen.ring
  {
    if k :| 0 <= k < |s| && s[k].id == id {
      FindSelf(s, k);
    } else {
      FindNone(s, id);
    }
  }

  lemma GainIs(before: seq<Seen>, e: Seen, whole: Whole)
    requires DistinctIds(before)
    ensures var g := Gain(before, e, whole);
      && g.id == e.id
      && (forall p :: p in g.clip <==> NewContent(before, e, whole, p))
      && (forall p :: p in g.ring <==> NewBorder(before, e, p))
      && (Kept(g) == if Listed(before, e, whole) then [g] else [])
  {
    hide Find, WasContent, WasBorder, DistinctIds;
    FindFirstOf(before, e.id);
    var g := Gain(before, e, whole);
    if p :| p in g.clip { assert NewContent(before, e, whole, p); }
    if p :| p in g.ring { assert NewBorder(before, e, p); }
  }

  /** What the gains are, pixel by pixel: a pixel of the new layer is exposed iff it is new, or
      anywhere in the whole window's content; a window is listed iff it has such a pixel. */
  lemma {:induction false} GainsAre(before: seq<Seen>, after: seq<Seen>, whole: Whole) returns (at: seq<nat>)
    requires DistinctIds(before)
    ensures AreExposed(before, after, whole, Gains(before, after, whole), at)
    decreases |after|
  {
    hide DistinctIds, Gain, NewContent, NewBorder, Listed, Kept, AreExposed;
    if after == [] {
      at := [];
      NoneExposed(before, whole);
    } else {
      var front, e := after[..|after| - 1], after[|after| - 1];
      at := GainsAre(before, front, whole);
      GainIs(before, e, whole);
      assert after == front + [e];
      GainsLast(before, front, e, whole);
      var g := Gains(before, front, whole);
      OneMoreExposed(before, front, e, whole, g, at, Gain(before, e, whole));
      assert g + [] == g;
      if Listed(before, e, whole) { at := at + [|front|]; }
    }
  }

  lemma NoneExposed(before: seq<Seen>, whole: Whole)
    ensures AreExposed(before, [], whole, Gains(before, [], whole), [])
  {
  }

  lemma OneMoreExposed(before: seq<Seen>, front: seq<Seen>, e: Seen, whole: Whole, g: seq<Seen>, at: seq<nat>, x: Seen)
    requires AreExposed(before, front, whole, g, at) && x.id == e.id
    requires forall p ::
        (p in x.clip <==> NewContent(before, e, whole, p)) && (p in x.ring <==> NewBorder(before, e, p))
    ensures if Listed(before, e, whole) then AreExposed(before, front + [e], whole, g + [x], at + [|front|])
      else AreExposed(before, front + [e], whole, g, at)
  {
    hide NewContent, NewBorder, Listed;
  }

  lemma GainsLast(before: seq<Seen>, s: seq<Seen>, e: Seen, whole: Whole)
    ensures Gains(before, s + [e], whole) == Gains(before, s, whole) + Kept(Gain(before, e, whole))
  {
    hide Gain, Kept;
    GainsConcat(before, s, [e], whole);
  }

  /** Gains depend on the old list only through the lookups. */
  lemma {:induction false} GainsAgree(before: seq<Seen>, before': seq<Seen>, after: seq<Seen>, whole: Whole)
    requires forall k :: 0 <= k < |after| ==> Find(before, after[k].id) == Find(before', after[k].id)
    ensures Gains(before, after, whole) == Gains(before', after, whole)
  {
    if after != [] {
      GainsAgree(before, before', after[1..], whole);
      assert Find(before, after[0].id) == Find(before', after[0].id);
    }
  }

  /** A window that shows what it showed gains nothing. */
  lemma {:induction false} NoGains(before: seq<Seen>, after: seq<Seen>, whole: Whole)
    requires forall k :: 0 <= k < |after| ==>
        Find(before, after[k].id) == Found(after[k]) && whole != Whole(after[k].id)
    ensures Gains(before, after, whole) == []
  {
    if after != [] {
      NoGains(before, after[1..], whole);
      assert Find(before, after[0].id) == Found(after[0]);
      assert after[0].clip - after[0].clip == iset{} && after[0].ring - after[0].ring == iset{};
    }
  }

  lemma {:induction false} FindConcat(s: seq<Seen>, t: seq<Seen>, id: int)
    ensures Find(s + t, id) == if Find(s, id).Found? then Find(s, id) else Find(t, id)
  {
    if s == [] {
      assert s + t == t;
    } else {
      FindConcat(s[1..], t, id);
      assert (s + t)[1..] == s[1..] + t;
    }
  }

  lemma {:induction false} FindNone(s: seq<Seen>, id: int)
    requires forall k :: 0 <= k < |s| ==> s[k].id != id
    ensures Find(s, id) == NotFound
  {
    if s != [] { FindNone(s[1..], id); }
  }

  ghost predicate DistinctIds(s: seq<Seen>) {
    forall j, k :: 0 <= j < k < |s| ==> s[j].id != s[k].id
  }

  lemma {:induction false} FindSelf(s: seq<Seen>, k: nat)
    requires k < |s| && DistinctIds(s)
    ensures Find(s, s[k].id) == Found(s[k])
  {
    if k > 0 {
      assert s[1..][k - 1] == s[k] && s[0].id != s[k].id;
      FindSelf(s[1..], k - 1);
    }
  }

  // ------------------------------------------------------- walks by selected children

  /** What child i and its inferiors show, given the parent's universe. */
  ghost function Block(children: seq<Window>, i: nat, u: iset<Pt>): seq<Seen>
    requires i < |children|
  {
    Strip(Walk(children[i], [], 0, 0, true, ChildUniverse(children, i, u), ChildRing(children, i, u)))
  }

  /** The blocks of the selected ones of the first n children, top-most first. */
  ghost function Blocks(children: seq<Window>, sel: seq<bool>, n: nat, u: iset<Pt>): seq<Seen>
    requires n <= |children| == |sel|
  {
    if n == 0 then []
    else (if sel[n - 1] then Block(children, n - 1, u) else []) + Blocks(children, sel, n - 1, u)
  }

  lemma BlocksStep(children: seq<Window>, sel: seq<bool>, n: nat, u: iset<Pt>)
    requires 0 < n <= |children| == |sel|
    ensures sel[n - 1] ==> Blocks(children, sel, n, u) == Block(children, n - 1, u) + Blocks(children, sel, n - 1, u)
    ensures !sel[n - 1] ==> Blocks(children, sel, n, u) == Blocks(children, sel, n - 1, u)
  {
  }

  /** Where a window stands in the tree does not change what it shows. */
  lemma {:induction false} WalkAnywhere(w: Window, path: seq<nat>, ox: int, oy: int, on: bool, path': seq<nat>,
                                        ox': int, oy': int, on': bool, u: iset<Pt>, ring: iset<Pt>)
    ensures Strip(Walk(w, path, ox, oy, on, u, ring)) == Strip(Walk(w, path', ox', oy', on', u, ring))
    decreases w, |w.children| + 1
  {
    if w.viewable { KidsAnywhere(w, |w.children|, path, ox, oy, on, path', ox', oy', on', u); }
  }

  lemma {:induction false} KidsAnywhere(w: Window, n: nat, path: seq<nat>, ox: int, oy: int, on: bool,
                                        path': seq<nat>, ox': int, oy': int, on': bool, u: iset<Pt>)
    requires n <= |w.children|
    ensures Strip(WalkKids(w, n, path, ox, oy, on, u)) == Strip(WalkKids(w, n, path', ox', oy', on', u))
    decreases w, n
  {
    if n > 0 {
      var c := w.children[n - 1];
      WalkAnywhere(c, path + [n - 1], ox + c.x + c.bw, oy + c.y + c.bw, on && c.redirect == NotRedirected,
                   path' + [n - 1], ox' + c.x + c.bw, oy' + c.y + c.bw, on' && c.redirect == NotRedirected,
                   ChildUniverse(w.children, n - 1, u), ChildRing(w.children, n - 1, u));
      KidsAnywhere(w, n - 1, path, ox, oy, on, path', ox', oy', on', u);
      StripKids(w, n, path, ox, oy, on, u);
      StripKids(w, n, path', ox', oy', on', u);
    }
  }

  lemma StripKids(w: Window, n: nat, path: seq<nat>, ox: int, oy: int, on: bool, u: iset<Pt>)
    requires 0 < n <= |w.children|
    ensures Strip(WalkKids(w, n, path, ox, oy, on, u))
         == Strip(WalkKid(w, n - 1, path, ox, oy, on, u)) + Strip(WalkKids(w, n - 1, path, ox, oy, on, u))
  {
  }

  lemma KidBlock(w: Window, i: nat, path: seq<nat>, ox: int, oy: int, on: bool, u: iset<Pt>)
    requires i < |w.children|
    ensures Strip(WalkKid(w, i, path, ox, oy, on, u)) == Block(w.children, i, u)
  {
    var c := w.children[i];
    WalkAnywhere(c, path + [i], ox + c.x + c.bw, oy + c.y + c.bw, on && c.redirect == NotRedirected, [], 0, 0, true,
                 ChildUniverse(w.children, i, u), ChildRing(w.children, i, u));
  }

  // ------------------------------------------------------- the change

  /** One child replaced by a new version of itself, perhaps at another place in the stack. */
  datatype Change = Change(others: seq<Window>, was: Window, at: nat, now: Window, at': nat) {
    predicate Valid() {
      at <= |others| && at' <= |others| && was.viewable && now.viewable && was.id == now.id
    }

    function Before(): (s: seq<Window>)
      requires Valid()
      ensures |s| == |others| + 1 && s[at] == was
      ensures forall t :: 0 <= t < |others| ==> s[Shift(t, at)] == others[t]
    {
      others[..at] + [was] + others[at..]
    }

    function After(): (s: seq<Window>)
      requires Valid()
      ensures |s| == |others| + 1 && s[at'] == now
      ensures forall t :: 0 <= t < |others| ==> s[Shift(t, at')] == others[t]
    {
      others[..at'] + [now] + others[at'..]
    }
  }

  /** Where sibling t stands once the changed window is put in at `at`. */
  function Shift(t: nat, at: nat): nat { if t < at then t else t + 1 }

  /** `overlaps`. */
  predicate OverlapRects(a: WireRect, b: WireRect) {
    a.x < b.x + b.width && b.x < a.x + a.width && a.y < b.y + b.height && b.y < a.y + a.height
  }

  predicate Overlap(a: Window, b: Window) {
    OverlapRects(OuterRect(a), OuterRect(b))
  }

  /** Where the changed window's outer rectangle, old or new, does not reach, nothing moves: such a
      sibling shows, with everything in it, what it showed. */
  lemma Unmoved(ch: Change, t: nat, u: iset<Pt>)
    requires ch.Valid() && t < |ch.others|
    requires !Overlap(ch.others[t], ch.was) && !Overlap(ch.others[t], ch.now)
    ensures Block(ch.Before(), Shift(t, ch.at), u) == Block(ch.After(), Shift(t, ch.at'), u)
  {
    var b, a, i, j := ch.Before(), ch.After(), Shift(t, ch.at), Shift(t, ch.at');
    var s := ch.others[t];
    hide InShape;
    forall q | InSize(s, q) ensures Clear(b, i + 1, |b|, q) <==> Clear(a, j + 1, |a|, q) {
      assert !InSize(ch.was, q) && !InSize(ch.now, q);
      ClearAbove(ch.others, t, ch.was, ch.at, b, q);
      ClearAbove(ch.others, t, ch.now, ch.at', a, q);
    }
    SameShare(b, i, a, j, u);
  }

  lemma SameShare(b: seq<Window>, i: nat, a: seq<Window>, j: nat, u: iset<Pt>)
    requires i < |b| && j < |a| && b[i] == a[j]
    requires forall q :: InSize(b[i], q) ==> (Clear(b, i + 1, |b|, q) <==> Clear(a, j + 1, |a|, q))
    ensures Block(b, i, u) == Block(a, j, u)
  {
    hide InSize, Clear, InWin, Walk;
    assert BorderClip(b, i, u) == BorderClip(a, j, u);
    assert ChildUniverse(b, i, u) == ChildUniverse(a, j, u);
    assert ChildRing(b, i, u) == ChildRing(a, j, u);
  }

  /** A window that does not reach the pixel makes no difference to what is clear above sibling t. */
  lemma ClearAbove(others: seq<Window>, t: nat, c: Window, at: nat, s: seq<Window>, q: Pt)
    requires t < |others| && at <= |others| && s == others[..at] + [c] + others[at..] && !Hides(c, q)
    ensures Clear(s, Shift(t, at) + 1, |s|, q) <==> Clear(others, t + 1, |others|, q)
  {
    if Clear(s, Shift(t, at) + 1, |s|, q) {
      forall k | t + 1 <= k < |others| ensures !Hides(others[k], q) {
        assert others[k] == s[Shift(k, at)];
      }
    }
    if Clear(others, t + 1, |others|, q) {
      forall k | Shift(t, at) + 1 <= k < |s| ensures !Hides(s[k], q) {
        if k != at { assert s[k] == others[if k < at then k else k - 1]; }
      }
    }
  }

  // ------------------------------------------------------- looking at the members is enough

  function AllOf(n: nat): (s: seq<bool>)
    ensures |s| == n && forall i :: 0 <= i < n ==> s[i]
  {
    seq(n, _ => true)
  }

  /** `sel` leaves out a viewable sibling only if the change does not reach it. */
  predicate Enough(ch: Change, sel: seq<bool>, sel': seq<bool>)
    requires ch.Valid()
  {
    && |sel| == |sel'| == |ch.others| + 1
    && sel[ch.at] && sel'[ch.at']
    && forall t :: 0 <= t < |ch.others| && ch.others[t].viewable
                   && !(sel[Shift(t, ch.at)] && sel'[Shift(t, ch.at')]) ==>
         !sel[Shift(t, ch.at)] && !sel'[Shift(t, ch.at')] && !Overlap(ch.others[t], ch.was)
         && !Overlap(ch.others[t], ch.now)
  }

  /** The old lookups that matter are the same in the short list. */
  lemma {:induction false} FindSelected(children: seq<Window>, sel: seq<bool>, n: nat, u: iset<Pt>, id: int)
    requires n <= |children| == |sel|
    requires forall i, k :: 0 <= i < n && !sel[i] && 0 <= k < |Block(children, i, u)| ==>
        Block(children, i, u)[k].id != id
    ensures Find(Blocks(children, sel, n, u), id) == Find(Blocks(children, AllOf(|children|), n, u), id)
  {
    hide Block, Find;
    if n > 0 {
      FindSelected(children, sel, n - 1, u, id);
      FindConcat(Block(children, n - 1, u), Blocks(children, AllOf(|children|), n - 1, u), id);
      if sel[n - 1] {
        FindConcat(Block(children, n - 1, u), Blocks(children, sel, n - 1, u), id);
      } else {
        assert Blocks(children, sel, n, u) == Blocks(children, sel, n - 1, u);
        FindNone(Block(children, n - 1, u), id);
      }
    }
  }

  /** An entry of block i is an entry of all the blocks. */
  lemma {:induction false} BlockAmong(children: seq<Window>, n: nat, u: iset<Pt>, i: nat, k: nat) returns (m: nat)
    requires i < n <= |children| && k < |Block(children, i, u)|
    ensures m < |Blocks(children, AllOf(|children|), n, u)|
        && Blocks(children, AllOf(|children|), n, u)[m] == Block(children, i, u)[k]
    ensures i == n - 1 ==> m == k
    ensures i < n - 1 ==> m >= |Block(children, n - 1, u)|
    decreases n
  {
    hide Block, Blocks, AllOf;
    BlocksStep(children, AllOf(|children|), n, u);
    if i == n - 1 {
      m := k;
    } else {
      m := BlockAmong(children, n - 1, u, i, k);
      m := m + |Block(children, n - 1, u)|;
    }
  }

  /** Entries of two different blocks have different ids, when all ids are distinct. */
  lemma {:induction false} BlocksApart(children: seq<Window>, n: nat, u: iset<Pt>, i: nat, k: nat, j: nat, h: nat)
    requires i < j < n <= |children| && k < |Block(children, i, u)| && h < |Block(children, j, u)|
    requires DistinctIds(Blocks(children, AllOf(|children|), n, u))
    ensures Block(children, i, u)[k].id != Block(children, j, u)[h].id
    decreases n
  {
    hide Block, Blocks, AllOf;
    BlocksStep(children, AllOf(|children|), n, u);
    var all := Blocks(children, AllOf(|children|), n, u);
    if j == n - 1 {
      var m := BlockAmong(children, n, u, i, k);
      var m' := BlockAmong(children, n, u, j, h);
      assert all[m] == Block(children, i, u)[k] && all[m'] == Block(children, j, u)[h] && m' < m;
    } else {
      var rest := Blocks(children, AllOf(|children|), n - 1, u);
      assert all == Block(children, n - 1, u) + rest;
      forall p, q | 0 <= p < q < |rest| ensures rest[p].id != rest[q].id {
        assert all[|Block(children, n - 1, u)| + p] == rest[p] && all[|Block(children, n - 1, u)| + q] == rest[q];
      }
      BlocksApart(children, n - 1, u, i, k, j, h);
    }
  }

  /** The whole layer: the parent's entry, then its children's. */
  ghost function Layer(parent: Seen, children: seq<Window>, sel: seq<bool>, u: iset<Pt>): seq<Seen>
    requires |children| == |sel|
  {
    [parent] + Blocks(children, sel, |children|, u)
  }

  function Unshift(i: nat, at: nat): nat
    requires i != at
  {
    if i < at then i else i - 1
  }

  lemma LayerBlocks(parent: Seen, children: seq<Window>, u: iset<Pt>)
    requires DistinctIds(Layer(parent, children, AllOf(|children|), u))
    ensures DistinctIds(Blocks(children, AllOf(|children|), |children|, u))
  {
    var all, s := Layer(parent, children, AllOf(|children|), u), Blocks(children, AllOf(|children|), |children|, u);
    forall j, k | 0 <= j < k < |s| ensures s[j].id != s[k].id {
      assert all[j + 1] == s[j] && all[k + 1] == s[k];
    }
  }

  /** An unselected sibling that shows anything is one the change does not reach. */
  lemma Unreached(ch: Change, sel: seq<bool>, sel': seq<bool>, t: nat, u: iset<Pt>)
    requires ch.Valid() && Enough(ch, sel, sel') && t < |ch.others| && ch.others[t].viewable
    requires !sel[Shift(t, ch.at)] || !sel'[Shift(t, ch.at')]
    ensures !sel[Shift(t, ch.at)] && !sel'[Shift(t, ch.at')]
    ensures Block(ch.Before(), Shift(t, ch.at), u) == Block(ch.After(), Shift(t, ch.at'), u)
  {
    Unmoved(ch, t, u);
  }

  lemma HiddenBlock(children: seq<Window>, i: nat, u: iset<Pt>)
    requires i < |children|
    ensures Block(children, i, u) == [] <==> !children[i].viewable
    ensures children[i].viewable ==> Block(children, i, u)[0].id == children[i].id
  {
  }

  /** The lookups of a selected child's windows find the same in the short list. */
  lemma SelectedLookup(ch: Change, sel: seq<bool>, sel': seq<bool>, u: iset<Pt>, i: nat, k: nat)
    requires ch.Valid() && Enough(ch, sel, sel') && i <= |ch.others| && sel'[i]
    requires DistinctIds(Blocks(ch.After(), AllOf(|ch.After()|), |ch.After()|, u))
    requires k < |Block(ch.After(), i, u)|
    ensures var id := Block(ch.After(), i, u)[k].id;
      Find(Blocks(ch.Before(), sel, |ch.Before()|, u), id)
        == Find(Blocks(ch.Before(), AllOf(|ch.Before()|), |ch.Before()|, u), id)
  {
    hide Block, Blocks, AllOf, Find, DistinctIds;
    var b := ch.Before();
    var id := Block(ch.After(), i, u)[k].id;
    forall i0, h | 0 <= i0 < |b| && !sel[i0] && 0 <= h < |Block(b, i0, u)| ensures Block(b, i0, u)[h].id != id {
      LeftOutApart(ch, sel, sel', u, i, k, i0, h);
    }
    FindSelected(b, sel, |b|, u, id);
  }

  lemma LeftOutApart(ch: Change, sel: seq<bool>, sel': seq<bool>, u: iset<Pt>, i: nat, k: nat, i0: nat, h: nat)
    requires ch.Valid() && Enough(ch, sel, sel') && i <= |ch.others| && sel'[i] && i0 <= |ch.others| && !sel[i0]
    requires DistinctIds(Blocks(ch.After(), AllOf(|ch.After()|), |ch.After()|, u))
    requires k < |Block(ch.After(), i, u)| && h < |Block(ch.Before(), i0, u)|
    ensures Block(ch.Before(), i0, u)[h].id != Block(ch.After(), i, u)[k].id
  {
    hide Block, Blocks, AllOf, Find, DistinctIds, Change.Before, Change.After, Overlap;
    var b, a := ch.Before(), ch.After();
    var t := Unshift(i0, ch.at);
    assert b[Shift(t, ch.at)] == ch.others[t];
    HiddenBlock(b, i0, u);
    Unreached(ch, sel, sel', t, u);
    var j := Shift(t, ch.at');
    if i < j {
      BlocksApart(a, |a|, u, i, k, j, h);
    } else {
      BlocksApart(a, |a|, u, j, h, i, k);
    }
  }

  /** A child left out of the selection gains nothing. */
  lemma UnselectedGainsNothing(ch: Change, sel: seq<bool>, sel': seq<bool>, u: iset<Pt>, parent: Seen,
                               whole: Whole, i: nat)
    requires ch.Valid() && Enough(ch, sel, sel') && i <= |ch.others| && !sel'[i]
    requires DistinctIds(Layer(parent, ch.Before(), AllOf(|ch.Before()|), u))
    requires DistinctIds(Blocks(ch.After(), AllOf(|ch.After()|), |ch.After()|, u))
    requires whole == NoWindow || whole == Whole(ch.now.id)
    ensures Gains(Layer(parent, ch.Before(), AllOf(|ch.Before()|), u), Block(ch.After(), i, u), whole) == []
  {
    hide Block, Find, Gains, DistinctIds, Enough;
    var b, a := ch.Before(), ch.After();
    var full, block := Layer(parent, b, AllOf(|b|), u), Block(a, i, u);
    forall k | 0 <= k < |block| ensures Find(full, block[k].id) == Found(block[k]) && whole != Whole(block[k].id) {
      UnselectedUnchanged(ch, sel, sel', u, parent, i, k);
    }
    NoGains(full, block, whole);
  }

  lemma UnselectedUnchanged(ch: Change, sel: seq<bool>, sel': seq<bool>, u: iset<Pt>, parent: Seen, i: nat, k: nat)
    requires ch.Valid() && Enough(ch, sel, sel') && i <= |ch.others| && !sel'[i]
    requires DistinctIds(Layer(parent, ch.Before(), AllOf(|ch.Before()|), u))
    requires DistinctIds(Blocks(ch.After(), AllOf(|ch.After()|), |ch.After()|, u))
    requires k < |Block(ch.After(), i, u)|
    ensures var e := Block(ch.After(), i, u)[k];
      Find(Layer(parent, ch.Before(), AllOf(|ch.Before()|), u), e.id) == Found(e) && e.id != ch.now.id
  {
    hide Block, Blocks, AllOf, Find, DistinctIds, Change.Before, Change.After, Overlap;
    var b, a := ch.Before(), ch.After();
    var full, block := Layer(parent, b, AllOf(|b|), u), Block(a, i, u);
    HiddenBlock(a, i, u);
    HiddenBlock(a, ch.at', u);
    var t := Unshift(i, ch.at');
    assert a[Shift(t, ch.at')] == ch.others[t];
    Unreached(ch, sel, sel', t, u);
    var m := BlockAmong(b, |b|, u, Shift(t, ch.at), k);
    assert full[m + 1] == block[k];
    FindSelf(full, m + 1);
    if i < ch.at' {
      BlocksApart(a, |a|, u, i, k, ch.at', 0);
    } else {
      BlocksApart(a, |a|, u, ch.at', 0, i, k);
    }
  }

  /** Child i gains the same over both lists, or is not selected and gains nothing. */
  ghost predicate BlockAgrees(full: seq<Seen>, short: seq<Seen>, block: seq<Seen>, selected: bool, whole: Whole) {
    Gains(full, block, whole) == if selected then Gains(short, block, whole) else []
  }

  lemma GainsStep(full: seq<Seen>, short: seq<Seen>, block: seq<Seen>, selected: bool, rest: seq<Seen>,
                  rest': seq<Seen>, whole: Whole)
    requires BlockAgrees(full, short, block, selected, whole)
    requires Gains(full, rest, whole) == Gains(short, rest', whole)
    ensures Gains(full, block + rest, whole) == Gains(short, if selected then block + rest' else rest', whole)
  {
    hide Gains;
    GainsConcat(full, block, rest, whole);
    if selected { GainsConcat(short, block, rest', whole); }
  }

  lemma NoBlocks(full: seq<Seen>, short: seq<Seen>, a: seq<Window>, sel: seq<bool>, sel': seq<bool>, u: iset<Pt>,
                 whole: Whole)
    requires |a| == |sel| == |sel'|
    ensures Gains(full, Blocks(a, sel, 0, u), whole) == Gains(short, Blocks(a, sel', 0, u), whole)
  {
  }

  /** Blocks that agree, or gain nothing, one by one, agree together. */
  lemma {:induction false} BlockGains(full: seq<Seen>, short: seq<Seen>, a: seq<Window>, sel: seq<bool>,
                                      u: iset<Pt>, whole: Whole, n: nat)
    requires n <= |a| == |sel|
    requires forall i :: 0 <= i < |a| ==> BlockAgrees(full, short, Block(a, i, u), sel[i], whole)
    ensures Gains(full, Blocks(a, AllOf(|a|), n, u), whole) == Gains(short, Blocks(a, sel, n, u), whole)
  {
    hide Block, Gains, Blocks, AllOf, BlockAgrees;
    if n == 0 {
      NoBlocks(full, short, a, AllOf(|a|), sel, u, whole);
    } else {
      BlocksStep(a, AllOf(|a|), n, u);
      BlocksStep(a, sel, n, u);
      BlockGains(full, short, a, sel, u, whole, n - 1);
      GainsStep(full, short, Block(a, n - 1, u), sel[n - 1], Blocks(a, AllOf(|a|), n - 1, u), Blocks(a, sel,
                n - 1, u), whole);
    }
  }

  lemma SelectedGainsAgree(ch: Change, sel: seq<bool>, sel': seq<bool>, u: iset<Pt>, parent: Seen, whole: Whole, i: nat)
    requires ch.Valid() && Enough(ch, sel, sel') && i <= |ch.others| && sel'[i]
    requires DistinctIds(Blocks(ch.After(), AllOf(|ch.After()|), |ch.After()|, u))
    ensures var b := ch.Before();
      Gains(Layer(parent, b, AllOf(|b|), u), Block(ch.After(), i, u), whole)
        == Gains(Layer(parent, b, sel, u), Block(ch.After(), i, u), whole)
  {
    hide Block, Find, DistinctIds, Gains;
    var b, block := ch.Before(), Block(ch.After(), i, u);
    forall k | 0 <= k < |block|
      ensures Find(Layer(parent, b, AllOf(|b|), u), block[k].id) == Find(Layer(parent, b, sel, u), block[k].id)
    {
      SelectedLookup(ch, sel, sel', u, i, k);
      FindConcat([parent], Blocks(b, AllOf(|b|), |b|, u), block[k].id);
      FindConcat([parent], Blocks(b, sel, |b|, u), block[k].id);
    }
    GainsAgree(Layer(parent, b, AllOf(|b|), u), Layer(parent, b, sel, u), block, whole);
  }

  /** Looking at the selected siblings only finds every exposure of the whole layer, and no other,
      in the same order. */
  lemma MembersEnough(ch: Change, sel: seq<bool>, sel': seq<bool>, u: iset<Pt>, parent: Seen, parent': Seen,
                      whole: Whole)
    requires ch.Valid() && Enough(ch, sel, sel') && parent.id == parent'.id
    requires DistinctIds(Layer(parent, ch.Before(), AllOf(|ch.Before()|), u))
    requires DistinctIds(Layer(parent', ch.After(), AllOf(|ch.After()|), u))
    requires whole == NoWindow || whole == Whole(ch.now.id)
    ensures Gains(Layer(parent, ch.Before(), AllOf(|ch.Before()|), u),
        Layer(parent', ch.After(), AllOf(|ch.After()|), u), whole)
         == Gains(Layer(parent, ch.Before(), sel, u), Layer(parent', ch.After(), sel', u), whole)
  {
    hide Block, Find, DistinctIds, Gains, Blocks;
    var b, a := ch.Before(), ch.After();
    var full, short := Layer(parent, b, AllOf(|b|), u), Layer(parent, b, sel, u);
    LayerBlocks(parent', a, u);
    forall i | 0 <= i < |a| ensures BlockAgrees(full, short, Block(a, i, u), sel'[i], whole) {
      if sel'[i] {
        SelectedGainsAgree(ch, sel, sel', u, parent, whole, i);
      } else {
        UnselectedGainsNothing(ch, sel, sel', u, parent, whole, i);
      }
    }
    BlockGains(full, short, a, sel', u, whole, |a|);
    GainsConcat(full, [parent'], Blocks(a, AllOf(|a|), |a|, u), whole);
    GainsConcat(short, [parent'], Blocks(a, sel', |a|, u), whole);
    FindFirst(parent, Blocks(b, AllOf(|b|), |b|, u));
    FindFirst(parent, Blocks(b, sel, |b|, u));
    GainsAgree(full, short, [parent'], whole);
  }

  lemma FindFirst(e: Seen, s: seq<Seen>)
    ensures Find([e] + s, e.id) == Found(e)
  {
  }

  // ------------------------------------------------------- the server's side

  function Selection(children: seq<Window>, members: set<int>): seq<bool> {
    seq(|children|, i requires 0 <= i < |children| => children[i].id in members)
  }

  /** The entries are these windows' clip lists and rings. */
  ghost predicate EntriesAre(out: seq<ClipEntry>, s: seq<Seen>) {
    |out| == |s| && forall k :: 0 <= k < |out| ==> EntryIs(out[k], s[k])
  }

  ghost predicate EntryIs(e: ClipEntry, s: Seen) {
    e.id == s.id && Banded(e.clip) && Banded(e.ring) && Cells(e.clip) == s.clip && Cells(e.ring) == s.ring
  }

  lemma ListedStep(w: Window, idxs: seq<nat>, i: nat, u: iset<Pt>)
    requires InChildren(w, idxs) && i < |w.children|
    ensures InChildren(w, idxs + [i])
        && ListedBlocks(w, idxs + [i], u) == ListedBlocks(w, idxs, u) + Block(w.children, i, u)
  {
    hide Block, WalkKid;
    ListOneMore(w, idxs, i, [], 0, 0, true, u);
    StripConcat(WalkListed(w, idxs, [], 0, 0, true, u), WalkKid(w, i, [], 0, 0, true, u));
    KidBlock(w, i, [], 0, 0, true, u);
  }

  lemma {:induction false} StripListed(w: Window, want: seq<bool>, lo: nat, u: iset<Pt>)
    requires |want| == |w.children| && lo <= |w.children|
    requires InChildren(w, Chosen(w.children, want, lo))
    ensures ListedBlocks(w, Chosen(w.children, want, lo), u) + Blocks(w.children, want, lo, u)
         == Blocks(w.children, want, |w.children|, u)
    decreases |w.children| - lo
  {
    hide Block, Blocks, ListedBlocks, Chosen, InChildren;
    if lo == |w.children| {
      ChosenNone(w, want, u);
    } else {
      var idxs, rest := Chosen(w.children, want, lo + 1), Blocks(w.children, want, lo, u);
      ChosenStep(w, want, lo);
      StripListed(w, want, lo + 1, u);
      BlocksStep(w.children, want, lo + 1, u);
      HiddenBlock(w.children, lo, u);
      if w.children[lo].viewable && want[lo] {
        ListedStep(w, idxs, lo, u);
        Regroup(ListedBlocks(w, idxs, u), Block(w.children, lo, u), rest);
      } else if want[lo] {
        assert Block(w.children, lo, u) + rest == rest;
      }
    }
  }

  predicate InChildren(w: Window, idxs: seq<nat>) {
    forall k :: 0 <= k < |idxs| ==> idxs[k] < |w.children|
  }

  ghost function ListedBlocks(w: Window, idxs: seq<nat>, u: iset<Pt>): seq<Seen>
    requires InChildren(w, idxs)
  {
    Strip(WalkListed(w, idxs, [], 0, 0, true, u))
  }

  lemma ChosenNone(w: Window, want: seq<bool>, u: iset<Pt>)
    requires |want| == |w.children|
    ensures Chosen(w.children, want, |want|) == [] && InChildren(w, []) && ListedBlocks(w, [], u) == []
  {
  }

  lemma ChosenStep(w: Window, want: seq<bool>, lo: nat)
    requires lo < |w.children| == |want|
    ensures InChildren(w, Chosen(w.children, want, lo + 1))
    ensures Chosen(w.children, want, lo)
         == if w.children[lo].viewable && want[lo] then Chosen(w.children, want, lo + 1) + [lo]
         else Chosen(w.children, want, lo + 1)
  {
    ChosenInRange(w.children, want, lo + 1);
  }

  lemma StripConcat(s: seq<Shown>, t: seq<Shown>)
    ensures Strip(s + t) == Strip(s) + Strip(t)
  {
  }

  ghost function ParentSeen(w: Window, u: iset<Pt>, ring: iset<Pt>): Seen {
    Seen(w.id, ClipOf(w, u), ring)
  }

  /** The whole layer is the walk: the window and all that shows below it, each with its clip list and ring. */
  lemma LayerIsWalk(w: Window, u: iset<Pt>, ring: iset<Pt>)
    requires w.viewable
    ensures var layer, walk := Layer(ParentSeen(w, u, ring), w.children, AllOf(|w.children|), u),
        Walk(w, [], 0, 0, true, u, ring);
      |layer| == |walk| && forall k :: 0 <= k < |layer| ==>
        layer[k].id == walk[k].id && layer[k].clip == walk[k].clip && layer[k].ring == walk[k].ring
  {
    hide Blocks, WalkKids, ClipOf;
    BlocksAreKids(w, |w.children|, u);
  }

  lemma {:induction false} BlocksAreKids(w: Window, n: nat, u: iset<Pt>)
    requires n <= |w.children|
    ensures Blocks(w.children, AllOf(|w.children|), n, u) == Strip(WalkKids(w, n, [], 0, 0, true, u))
  {
    hide Block, WalkKid;
    if n > 0 {
      BlocksAreKids(w, n - 1, u);
      StripKids(w, n, [], 0, 0, true, u);
      KidBlock(w, n - 1, [], 0, 0, true, u);
    }
  }

  /** The parent's entry, then those of the wanted children and of all below them. */
  method EntriesFor(w: Window, universe: seq<Box>, ring: seq<Box>, want: seq<bool>) returns (out: seq<ClipEntry>)
    requires Banding(w) && Banded(universe) && Banded(ring) && |want| == |w.children|
    ensures EntriesAre(out, Layer(ParentSeen(w, Cells(universe), Cells(ring)), w.children, want, Cells(universe)))
  {
    hide In, Banded, Clear, BandedShape, RightShare, Block, WalkKid;
    var clip, kids := SplitUniverse(w.children, universe, true, want);
    ghost var u, idxs := Cells(universe), Chosen(w.children, want, 0);
    ChosenInRange(w.children, want, 0);
    var more := WalkShares(w, kids, idxs, true, [], 0, 0, true, u, Seams(universe));
    StripListed(w, want, 0, u);
    assert Strip(WalkListed(w, idxs, [], 0, 0, true, u)) == Blocks(w.children, want, |w.children|, u);
    assert Cells(clip) == ClipOf(w, u);
    out := [ClipEntry(w.id, clip, ring)] + more;
    forall k | 0 <= k < |more| ensures EntryIs(more[k], Blocks(w.children, want, |w.children|, u)[k]) {
      assert RightEntry(more[k], WalkListed(w, idxs, [], 0, 0, true, u)[k], true);
    }
  }

  /** `clip_entries_of`: the parent's entry, then the members', top-most first. */
  method ClipEntriesOf(w: Window, universe: seq<Box>, ring: seq<Box>, members: set<int>) returns (out: seq<ClipEntry>)
    requires Banding(w) && Banded(universe) && Banded(ring)
    ensures EntriesAre(out, Layer(ParentSeen(w, Cells(universe), Cells(ring)), w.children,
        Selection(w.children, members), Cells(universe)))
  {
    hide Banding, Banded, EntriesAre;
    out := EntriesFor(w, universe, ring, Selection(w.children, members));
  }

  /** What a change exposes of one window. */
  datatype Exposure = Exposure(window: int, region: seq<Box>, border: seq<Box>)

  ghost predicate ExposuresAre(out: seq<Exposure>, s: seq<Seen>) {
    |out| == |s| && forall k :: 0 <= k < |out| ==>
      out[k].window == s[k].id && Cells(out[k].region) == s[k].clip && Cells(out[k].border) == s[k].ring
  }

  /** What is reported, pixel by pixel: entry k is about window `at[k]` of the new layer, and these are
      the windows of that layer, in order, that have a pixel to expose. */
  ghost predicate Exposes(out: seq<Exposure>, before: seq<Seen>, after: seq<Seen>, whole: Whole, at: seq<nat>) {
    && |at| == |out|
    && (forall k :: 0 <= k < |out| ==> at[k] < |after| && out[k].window == after[at[k]].id)
    && (forall k, p :: 0 <= k < |out| ==> (p in Cells(out[k].region) <==> NewContent(before, after[at[k]], whole, p)))
    && (forall k, p :: 0 <= k < |out| ==> (p in Cells(out[k].border) <==> NewBorder(before, after[at[k]], p)))
    && (forall k, h :: 0 <= k < h < |out| ==> at[k] < at[h])
    && (forall i :: 0 <= i < |after| ==> (i in at <==> Listed(before, after[i], whole)))
  }

  lemma ExposesPixels(out: seq<Exposure>, before: seq<Seen>, after: seq<Seen>, whole: Whole) returns (at: seq<nat>)
    requires DistinctIds(before) && ExposuresAre(out, Gains(before, after, whole))
    ensures Exposes(out, before, after, whole, at)
  {
    hide DistinctIds, Gains, NewContent, NewBorder, Listed, Cells;
    at := GainsAre(before, after, whole);
  }

  /** The first entry of each window. */
  method IndexById(before: seq<ClipEntry>, ghost s: seq<Seen>) returns (index: map<int, nat>)
    requires EntriesAre(before, s)
    ensures forall id :: id in index ==> index[id] < |before| && Find(s, id) == Found(s[index[id]])
    ensures forall id :: id !in index ==> Find(s, id) == NotFound
  {
    hide EntryIs;
    index := map[];
    assert s[..0] == [];
    for i := 0 to |before|
      invariant forall id :: id in index ==> index[id] < i && Find(s[..i], id) == Found(s[index[id]])
      invariant forall id :: id !in index ==> Find(s[..i], id) == NotFound
    {
      assert before[i].id == s[i].id by { assert EntryIs(before[i], s[i]); SameId(before[i], s[i]); }
      assert s[..i + 1] == s[..i] + [s[i]];
      forall id
        ensures Find(s[..i + 1], id)
             == if Find(s[..i], id).Found? then Find(s[..i], id) else if s[i].id == id then Found(s[i]) else NotFound
      {
        FindConcat(s[..i], [s[i]], id);
      }
      if before[i].id !in index {
        index := index[before[i].id := i];
      }
    }
    assert s[..|before|] == s;
  }

  lemma SameId(e: ClipEntry, s: Seen)
    requires EntryIs(e, s)
    ensures e.id == s.id
  {
  }

  /** `newly_exposed`: per window what `after` shows that `before` did not, in `after`'s order. */
  method NewlyExposed(before: seq<ClipEntry>, after: seq<ClipEntry>, whole: Whole, ghost s: seq<Seen>,
                      ghost t: seq<Seen>)
    returns (out: seq<Exposure>)
    requires EntriesAre(before, s) && EntriesAre(after, t)
    ensures ExposuresAre(out, Gains(s, t, whole))
    ensures DistinctIds(s) ==> exists at :: Exposes(out, s, t, whole, at)
  {
    hide Cells, Banded, Find, Gains, DistinctIds, Exposes;
    var index := IndexById(before, s);
    out := [];
    assert t[..0] == [] && Gains(s, [], whole) == [] by { NoGains(s, [], whole); }
    for i := 0 to |after|
      invariant ExposuresAre(out, Gains(s, t[..i], whole))
    {
      var w := after[i].id;
      var region, border := after[i].clip, after[i].ring;
      assert EntryIs(after[i], t[i]);
      if w in index {
        assert EntryIs(before[index[w]], s[index[w]]);
        region, border := GainedOver(before[index[w]], after[i], whole);
      }
      ghost var g := Gain(s, t[i], whole);
      assert Cells(region) == g.clip && Cells(border) == g.ring && Banded(region) && Banded(border);
      NoCellsIffEmpty(region);
      NoCellsIffEmpty(border);
      assert t[..i + 1] == t[..i] + [t[i]];
      GainsLast(s, t[..i], t[i], whole);
      if region != [] || border != [] {
        out := out + [Exposure(w, region, border)];
      }
    }
    assert t[..|after|] == t;
    if DistinctIds(s) { ghost var at := ExposesPixels(out, s, t, whole); }
  }

  lemma NoCellsIffEmpty(r: seq<Box>)
    requires Banded(r)
    ensures Cells(r) == iset{} <==> r == []
  {
    EmptyIffNoCell(r);
    if r == [] { NothingCanonical(); }
    if r != [] {
      var x, y :| In(r, x, y);
      assert Pt(x, y) in Cells(r);
    }
  }

  method GainedOver(was: ClipEntry, now: ClipEntry, whole: Whole) returns (region: seq<Box>, border: seq<Box>)
    requires Banded(was.clip) && Banded(was.ring) && Banded(now.clip) && Banded(now.ring)
    ensures Banded(region) && Banded(border)
    ensures Cells(region) == if whole == Whole(now.id) then Cells(now.clip) else Cells(now.clip) - Cells(was.clip)
    ensures Cells(border) == Cells(now.ring) - Cells(was.ring)
  {
    hide In, Banded;
    region := now.clip;
    if whole != Whole(now.id) {
      region := SubtractOf(now.clip, was.clip);
    }
    border := SubtractOf(now.ring, was.ring);
  }

  datatype Reach = NoReach | Reach(rect: WireRect)

  /** `TreeChange::begin`'s members: the window, and the viewable siblings that meet its outer
      rectangle now or the one it is moved or sized to. */
  predicate IsMember(s: Window, c: Window, reach: Reach) {
    s.id == c.id || (s.viewable
      && (OverlapRects(OuterRect(s), OuterRect(c)) || (reach.Reach? && OverlapRects(OuterRect(s), reach.rect))))
  }

  /** The two rectangles share a pixel. */
  ghost predicate SharePixel(a: WireRect, b: WireRect) {
    exists x, y :: InRect(a, x, y) && InRect(b, x, y)
  }

  /** Two rectangles that are not empty overlap iff they share a pixel. */
  lemma OverlapIff(a: WireRect, b: WireRect)
    requires a.width > 0 && a.height > 0 && b.width > 0 && b.height > 0
    ensures OverlapRects(a, b) <==> SharePixel(a, b)
  {
    if OverlapRects(a, b) {
      assert InRect(a, Max(a.x, b.x), Max(a.y, b.y)) && InRect(b, Max(a.x, b.x), Max(a.y, b.y));
    }
  }

  /** Who is looked at: the window and the viewable siblings whose outer rectangle shares a pixel with
      the window's, or with the one it will have; nobody else. */
  lemma MembersAre(children: seq<Window>, c: Window, reach: Reach, i: nat)
    requires i < |children| && forall j :: 0 <= j < |children| ==> (children[j].id == children[i].id ==> j == i)
    requires c.width > 0 && c.height > 0 && children[i].width > 0 && children[i].height > 0
    requires reach.Reach? ==> reach.rect.width > 0 && reach.rect.height > 0
    ensures var s := children[i];
      s.id in MembersOf(children, c, reach) <==>
        s.id == c.id || (s.viewable
          && (SharePixel(OuterRect(s), OuterRect(c)) || (reach.Reach? && SharePixel(OuterRect(s), reach.rect))))
  {
    hide OverlapRects, SharePixel;
    var s := children[i];
    OverlapIff(OuterRect(s), OuterRect(c));
    if reach.Reach? { OverlapIff(OuterRect(s), reach.rect); }
    if IsMember(s, c, reach) { assert s.id in MembersOf(children, c, reach); }
  }

  function MembersOf(children: seq<Window>, c: Window, reach: Reach): set<int> {
    set i | 0 <= i < |children| && IsMember(children[i], c, reach) :: children[i].id
  }

  /** The two snapshots and their difference: `TreeChange::begin` on the tree before, `exposed` on
      the tree after. The exposures are those of the whole layer, every window of it compared. */
  method ExposedByChange(w: Window, ch: Change, universe: seq<Box>, ring: seq<Box>, reach: Reach, whole: Whole)
    returns (out: seq<Exposure>, ghost at: seq<nat>)
    requires ch.Valid() && w.children == ch.Before()
    requires Banding(w) && Banding(w.(children := ch.After())) && Banded(universe) && Banded(ring)
    requires OuterRect(ch.now) == OuterRect(ch.was) || reach == Reach(OuterRect(ch.now))
    requires whole == NoWindow || whole == Whole(ch.now.id)
    requires DistinctIds(Layer(ParentSeen(w, Cells(universe), Cells(ring)), ch.Before(), AllOf(|ch.Before()|),
        Cells(universe)))
    requires DistinctIds(Layer(ParentSeen(w.(children := ch.After()), Cells(universe), Cells(ring)), ch.After(),
        AllOf(|ch.After()|), Cells(universe)))
    ensures var w' := w.(children := ch.After());
      ExposuresAre(out, Gains(
        Layer(ParentSeen(w, Cells(universe), Cells(ring)), w.children, AllOf(|w.children|), Cells(universe)),
        Layer(ParentSeen(w', Cells(universe), Cells(ring)), w'.children, AllOf(|w'.children|), Cells(universe)), whole))
    ensures var w' := w.(children := ch.After());
      Exposes(out,
        Layer(ParentSeen(w, Cells(universe), Cells(ring)), w.children, AllOf(|w.children|), Cells(universe)),
        Layer(ParentSeen(w', Cells(universe), Cells(ring)), w'.children, AllOf(|w'.children|), Cells(universe)), whole,
        at)
  {
    hide Block, Blocks, Cells, Banded, Gains, DistinctIds, Banding, ParentSeen, EntriesAre, ExposuresAre, Exposes;
    var w' := w.(children := ch.After());
    var members := MembersOf(w.children, ch.was, reach);
    ghost var sel, sel' := Selection(w.children, members), Selection(w'.children, members);
    ghost var u, p, p' := Cells(universe), ParentSeen(w, Cells(universe), Cells(ring)),
      ParentSeen(w', Cells(universe), Cells(ring));
    var before := ClipEntriesOf(w, universe, ring, members);
    var after := ClipEntriesOf(w', universe, ring, members);
    out := NewlyExposed(before, after, whole, Layer(p, w.children, sel, u), Layer(p', w'.children, sel', u));
    SelectionEnough(ch, reach, members);
    ParentId(w, u, Cells(ring));
    ParentId(w', u, Cells(ring));
    MembersEnough(ch, sel, sel', u, p, p', whole);
    at := ExposesPixels(out, Layer(p, w.children, AllOf(|w.children|), u), Layer(p', w'.children, AllOf(|w'.children|),
                        u), whole);
  }

  lemma ParentId(w: Window, u: iset<Pt>, ring: iset<Pt>)
    ensures ParentSeen(w, u, ring).id == w.id
  {
  }

  lemma SelectionEnough(ch: Change, reach: Reach, members: set<int>)
    requires ch.Valid() && members == MembersOf(ch.Before(), ch.was, reach)
    requires OuterRect(ch.now) == OuterRect(ch.was) || reach == Reach(OuterRect(ch.now))
    ensures Enough(ch, Selection(ch.Before(), members), Selection(ch.After(), members))
  {
  }
}
