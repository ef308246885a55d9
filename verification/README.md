# yserver: regions, clip lists and the conformance probes, modelled in Dafny

yserver is an X server that must clip, expose and damage exactly as Xorg does. Two parts of the
repository decide whether it does:

* **The server's region algebra and window clipping** (`crates/yserver-core/src/region.rs`,
  `crates/yserver-core/src/core_loop/clip_list.rs` and its oracle). Regions are y-x banded box lists
  with pixman's set operations, and the clip lists of the whole window tree are computed from them.
* **The probes and tools that compare two servers** (`tools/`): flood fill, damage coverage, border
  grids, image readers and writers, run-length and histogram encoders, keyed snapshot diffs, journal
  verdicts, and a rewriter of Rust `use` items.

Each operation is modelled in its own form (methods with loops, arrays and classes where the source
updates state; functions where it only computes) and proved against a specification that does not
mention it: sets of pixels, connected components, hit tests, trees, maps, multisets. Where a
specification is itself a computation (a size, a fold over lines, a filter, a parser), a lemma states
what it gives without it: in coordinates, byte positions, or places in the input.

| module | subject |
|---|---|
| Plane, Text | points; the string operations of the Python tools |
| Boxes, Overlaps, Regions, RegionAlgebra | bands, the overlap functions, the sweep, the set operations |
| Normalise, ClippedTranslate | making regions from rectangles, a client's move |
| WindowTree, ShapeCuts, ClipList | what shows of each window, declared and computed in a single pass; where a shape cuts it |
| WireRegions, OracleSets, ClipOracle, OracleWalk, OracleLimits | regions as 16-bit rectangles; the slower oracle on them; when the two agree |
| OnDemand | the queries for one window at a time |
| TreeChange, Unmap | what a change or an unmap exposes |
| Coverage, FloodFill, BorderGrid | rasters and what is read off them |
| UseTree, UseItems, UseLayout, UseRewrite, UseAttrs | flattening, finding, cleaning and rewriting `use` items |
| KeyedDiff, ModifierTable | snapshot diffs over whole runs, the modifier table editor |
| Netpbm, Journal, RunLength, Histogram | codecs and reports |
| ResizeExpose, PixelOracle, ScanCheck | expected exposures, expected scanout, the scan of what differs |

## The main results

1. **Regions.** For every pair of banded regions the sweep returns exactly the union, intersection or
   difference of the pixels, banded again, with touching boxes at exactly the seams of the operands
   that show. The canonical form of a pixel set is unique, and any list of boxes normalises to it. The
   result of an operation is canonical **if and only if** its operands are clean for it
   (`Regions.Clean`): no seam of an operand shows in the result, and the bands copied after the other
   operand has ended need no merging. Canonical operands are always clean, so chains of operations
   never need to normalise.
2. **Clip lists.** The single-pass walk over a window tree refines a declarative walk on sets of
   pixels; every pixel of the universe is shown by exactly one window, content or border, namely the
   one a hit test finds, or by none if the hit test loses it. The entries are canonical iff no shape
   cuts what shows. The slower oracle, modelled rectangle by rectangle with every clamp to 16 bits,
   follows a declarative walk of its own as long as no coordinate leaves 16 bits. For every tree the
   two declarative walks are one iff the hit test loses every content pixel that strays outside its
   window's outer rectangle; then the single pass and the oracle return the same rectangles iff no
   shape cuts what shows.
3. **Changes.** Looking only at the siblings that meet the changed window's outer rectangle before or
   after gives every exposure of the whole layer, and no other, in the same order. For an unmap it is
   enough to look at the parent and the lower siblings that share a pixel with the window's size.
4. **Probes.** Two damage lists print the same bands iff they cover the same cells of the grid, and the
   bands are the server's own canonical region of the rectangles; the flood fill reports exactly the
   connected components; a `use` statement, however it is laid out over lines, flattens to the bindings
   of its tree iff every misread group binds nothing, neither as it is meant nor as it is read, and
   rewriting a file's `use` items keeps every other line and every binding, in order, and changes
   nothing the second time; the printed deltas of a keyed diff compose over every run of steps; what
   is written as PPM or PAM reads back.

## Where the code and its documentation differ

* `region.rs:87-91` says of regions kept as a client's YXBanded rectangles that the operations'
  results "are canonical again". The code does not do that (`region/tests.rs:175-178` says so, too).
  `Normalise.TouchingBoxesStay` gives an input for each of the three operations, and `Regions.Op`,
  `RegionAlgebra.UnionOf`, `IntersectOf` and `SubtractOf` state exactly when the result is canonical.
* `region.rs:3-11` names `from_yx_banded` as the one exception to canonical form. `translate_clipped`
  is another: `ClippedTranslate.CutBandsStay` moves a canonical region to one that is not, and
  `ClippedTranslate.TranslateClipped` states exactly when the result is canonical.
* The single pass (`clip_list.rs:325-332`) and the oracle are meant to agree. They part for three
  reasons. The oracle leaves a child's `borderSize` out of its universe, so a content pixel outside an
  outer rectangle whose size saturates may be shown by the oracle alone: `OracleSets.UniversesEqual` and
  `WalksEqualIff` say exactly when, `OracleLimits.SaturationParts` gives a tree. The oracle moves and
  returns rectangles clamped to 16 bits: `WireRegions.WireExact` says exactly when that loses nothing,
  `OracleLimits.ClampParts` gives a tree where it does, and `OracleLimits.RoomyExact` a condition on the
  windows' boxes under which it never happens. And the single pass keeps the touching boxes of a shape
  set as YXBanded rectangles, which the oracle normalises away: `ClipList.WalkWindow` and
  `OracleWalk.SinglePassVersusOracle` say exactly when that shows in the rectangles,
  `OracleLimits.TouchingParts` gives a tree.
* The queries for one window (`clip_list.rs:183-323`) leave `borderSize` out as the oracle does. A
  window's clip list asked for alone and its entry in the walk differ by exactly the stray pixels no
  child covers: `OracleSets.AloneVersusWalk`.
* `cmd_extract` prints a verdict that holds a tab, and `load` passes its line over:
  `Journal.ExtractLoads` is an equivalence, and `Journal.TabbedVerdict` a journal line.
* `flatten` takes a group without a path around a group with one apart at the inner `::{`, as in
  `UseTree.PrefixlessGroupMisread`. Without empty groups the trees with such a group are exactly those
  whose compact text flattens wrongly (`UseTree.FlattenIff` with `FilledQuiet`); with empty groups a
  misread group that binds nothing may be harmless or not (`UseTree.EmptyGroupsMisread`).
* `flatten` keeps a space between a name and the semicolon as part of the name: `UseRewrite.TailIff`,
  `UseAttrs.SpacedSemicolon`.
* `flatten` takes an attribute off up to its first `]` only. With brackets inside the attribute nothing is
  taken off and the whole text is bound: `UseAttrs.AttrIff`, `UseAttrs.BracketedAttr`.

## Model

| member | source | states |
|---|---|---|
| Overlaps.Merge | crates/yserver-core/src/region.rs:461-469 | the open span and the emitted ones cover what they covered and the new span, and stay apart |
| Overlaps.UnionO | crates/yserver-core/src/region.rs:451-483 | the band emitted covers exactly the columns of either band, and no two of its boxes touch, whatever the operands |
| Overlaps.IntersectO | crates/yserver-core/src/region.rs:485-500 | the band emitted covers exactly the common columns, with touching boxes at exactly the seams of an operand that have both their sides in the result |
| Overlaps.SubtractO | crates/yserver-core/src/region.rs:502-565 | the band emitted covers exactly the columns of the first band outside the second, with touching boxes at exactly the seams of the first with neither side taken away |
| Overlaps.Overlap | crates/yserver-core/src/region.rs:378-384 | for each operation: columns and seams of the overlap |
| Regions.BandEnd | crates/yserver-core/src/region.rs:340-348 | the end of the run of boxes with the same top row, and no further |
| Regions.Coalesce | crates/yserver-core/src/region.rs:350-367 | pixels and seams are those of the result so far and of the new band, and no two touching bands have the same spans if none had |
| Regions.AppendNon | crates/yserver-core/src/region.rs:369-376 | the rows only one operand covers are that operand's columns and seams |
| Regions.OneSided | crates/yserver-core/src/region.rs:396-422 | the part of a sweep step before the overlap keeps the sweep invariant: in all rows above, the operation's pixels, exactly the seams that show, and no two touching bands with the same spans |
| Regions.TwoSided | crates/yserver-core/src/region.rs:423-428 | the overlap part keeps the same invariant |
| Regions.Step | crates/yserver-core/src/region.rs:395-435 | one turn of the sweep keeps the invariant and moves on in at least one operand |
| Regions.Rest | crates/yserver-core/src/region.rs:436-442 | the rest of one operand is appended exactly, seams included; touching bands differ iff the copied ones did |
| Regions.Op | crates/yserver-core/src/region.rs:386-449 | for all banded operands: the pixels of the operation, banded, with touching boxes at exactly the seams that show, and canonical iff the operands are clean |
| Regions.CanonicalClean | crates/yserver-core/src/region.rs:6-7 | canonical operands are clean, so operations chain without normalising |
| RegionAlgebra.CanonicalUnique | crates/yserver-core/src/region.rs:3-6 | two canonical box lists with the same pixels are equal |
| RegionAlgebra.Extents | crates/yserver-core/src/region.rs:221-233 | the smallest box that holds every box |
| RegionAlgebra.EmptyIffNoCell | crates/yserver-core/src/region.rs:67-69 | a region is empty iff it has no pixel |
| RegionAlgebra.UnionOf | crates/yserver-core/src/region.rs:235-243 | exactly the pixels of either; canonical iff clean, the early returns included |
| RegionAlgebra.IntersectOf | crates/yserver-core/src/region.rs:245-251 | exactly the common pixels and the seams that show, bands always merged; canonical iff clean, the early returns included |
| RegionAlgebra.SubtractOf | crates/yserver-core/src/region.rs:253-260 | exactly the pixels left and the seams that show; canonical iff clean when the extents overlap, iff the first operand is canonical when they do not |
| RegionAlgebra.Inverse | crates/yserver-core/src/region.rs:209-219 | exactly the pixels of the bounds outside the region, canonical for every banded region |
| RegionAlgebra.ContainsPoint | crates/yserver-core/src/region.rs:199-207 | the binary search and scan answer whether the pixel is in the region |
| RegionAlgebra.Translate | crates/yserver-core/src/region.rs:131-144 | pixels and seams move, and canonical stays canonical |
| ClippedTranslate.TranslateClipped | crates/yserver-core/src/region.rs:146-174 | exactly the moved pixels in the 16-bit range; canonical iff no seam and no two equal cut bands are left in sight |
| ClippedTranslate.CutBandsStay | crates/yserver-core/src/region.rs:146-150 | a canonical region and a move: exactly the moved pixels in sight, the condition of `TranslateClipped` broken, and the result not canonical |
| Normalise.IsCanonical | crates/yserver-core/src/region.rs:296-331 | the band-by-band test holds iff the boxes are canonical, for every box list |
| Normalise.UnionPairs | crates/yserver-core/src/region.rs:107-117 | one round of the union tree halves the list and keeps the pixels and canonical form |
| Normalise.FromBoxes | crates/yserver-core/src/region.rs:98-119 | whatever boxes go in, the canonical region of their pixels comes out |
| Normalise.FromRects | crates/yserver-core/src/region.rs:71-78 | the canonical region of the rectangles' pixels |
| Normalise.FromWireRects | crates/yserver-core/src/region.rs:80-85 | the same less the pixels at or past MAXSHORT |
| Normalise.FromYxBanded | crates/yserver-core/src/region.rs:87-96 | the rectangles, cut at MAXSHORT and the empty ones dropped, are kept as they are; the pairwise ordering test (lines 277-290) is enough for them to be a banded region of the right pixels |
| Normalise.YxBandedIff | crates/yserver-core/src/region.rs:277-290 | the test of neighbours holds iff of any two rectangles the later is below the other or, with the same top and height, to the right of it |
| Normalise.TouchingBoxesStay | crates/yserver-core/src/region.rs:87-91 | YXBanded rectangles whose kept region, in a union, an intersection and a difference, gives the right pixels in a form that is not canonical, each by breaking the condition of `Regions.Op` |
| WindowTree.WalkShowsHits | crates/yserver-core/src/core_loop/clip_list.rs:325-332 | clip list and border ring of every window drawn on screen are exactly the pixels whose hit test ends in it |
| WindowTree.EveryPixelOnce | crates/yserver-core/src/core_loop/clip_list.rs:1-9 | each pixel of the universe is shown by exactly one window, or by none if the hit test loses it |
| WindowTree.PlainNeverLost | crates/yserver-core/src/core_loop/clip_list.rs:106-110 | without redirects and with every borderless window filling its size, no pixel is lost |
| WindowTree.WalkDistinct | crates/yserver-core/src/core_loop/clip_list.rs:411-413 | no window is listed twice |
| WindowTree.WalkOrdered | crates/yserver-core/src/core_loop/clip_list.rs:411-413 | a window comes before those inside it, and a sibling with all that is inside it before the lower ones |
| WindowTree.WhatShows | crates/yserver-core/src/core_loop/clip_list.rs:325-382 | pixel by pixel: a window has what no child covers; a child has what no higher child covers, its content inside the shapes, its border outside them and inside its size, a redirected child whatever is above it |
| WindowTree.SizeIs | crates/yserver-core/src/core_loop/clip_list.rs:118-143 | a size reaches the border's width beyond the content on all four sides, up to 65535 pixels from the position, inside the bounding shape |
| WindowTree.FrameIs | crates/yserver-core/src/core_loop/clip_list.rs:118-143 | of an unshaped window that fits 16 bits the border is the frame of that width around the content |
| ClipList.BorderSize | crates/yserver-core/src/core_loop/clip_list.rs:118-143 | the pixels from the position up to the width and twice the border, or 65535, inside the bounding shape, in the parent's space; canonical iff no two touching boxes of the shape have both sides in it |
| ClipList.WinSize | crates/yserver-core/src/core_loop/clip_list.rs:145-167 | the content pixels inside the bounding and clip shapes; canonical iff no two touching boxes of a shape have both sides in it |
| ClipList.SplitUniverse | crates/yserver-core/src/core_loop/clip_list.rs:325-382 | what is left is the universe no hiding child covers, with its seams; each wanted child's share is its universe and ring as sets of pixels, cut exactly where shapes and the parent's universe are |
| ClipList.WalkShares | crates/yserver-core/src/core_loop/clip_list.rs:486-491 | the walks of the shares, in order, refine the declarative walk of those children, and are canonical iff nothing is cut in them |
| ClipList.WalkWindow | crates/yserver-core/src/core_loop/clip_list.rs:473-491 | the entries refine the declarative walk of the subtree, and are canonical iff no cut of a shape has both its sides in a clip list or ring |
| ShapeCuts.CanonisedNoCuts | crates/yserver-core/src/core_loop/clip_list.rs:325-332 | canonical shapes cut nothing, anywhere in the tree |
| WireRegions.WireExact | crates/yserver-core/src/region.rs:49-58 | sending a banded region as rectangles loses no pixel iff every box fits the 16-bit position and length |
| WireRegions.OnWireIff | crates/yserver-core/src/region.rs:49-58 | a box goes to the wire as it is iff some rectangle of 16-bit position and sizes has its pixels, and that is the one sent; otherwise each number is the nearest in range |
| WireRegions.MeetRects | crates/yserver-core/src/core_loop/clip_list.rs:65-70 | the common pixels, exactly iff the canonical region of them fits the wire |
| WireRegions.MinusRects | crates/yserver-core/src/core_loop/clip_list.rs:72-77 | the pixels left, exactly iff the canonical region of them fits the wire |
| WireRegions.ShiftExact | crates/yserver-core/src/core_loop/clip_list.rs:79-86 | rectangles whose moved origins stay in 16 bits move pixel by pixel |
| OracleSets.UniversesEqual | crates/yserver-core/src/core_loop/clip_list/oracle.rs:139-158 | the oracle's universe of a child holds the declarative one, and they are equal iff no content pixel left uncovered lies outside the outer rectangle |
| OracleSets.FitsNoStray | crates/yserver-core/src/core_loop/clip_list/oracle.rs:35-41 | a window whose content and near border fit 16 bits has no such pixel |
| OracleSets.FitsTreeNoStray | crates/yserver-core/src/core_loop/clip_list/oracle.rs:284-302 | a tree of such windows has none on the whole walk |
| OracleSets.NoStraySameWalk | crates/yserver-core/src/core_loop/clip_list/oracle.rs:284-302 | without such pixels the oracle's declarative walk and the single pass's are equal |
| OracleSets.WalksEqualIff | crates/yserver-core/src/core_loop/clip_list/oracle.rs:284-302 | for every tree, redirects and clip shapes included, they are equal iff the hit test below every stray pixel loses it |
| OracleSets.PlainHarmlessIff | crates/yserver-core/src/core_loop/clip_list/oracle.rs:284-302 | in a tree without redirects whose borderless windows fill their size that is: iff there is no such pixel |
| OracleSets.LooseIsStrictAndStrays | crates/yserver-core/src/core_loop/clip_list/oracle.rs:77-108 | down any path the oracle's universe is the walk's and, apart from it, the pixels that strayed on the way |
| OracleSets.AloneVersusWalk | crates/yserver-core/src/core_loop/clip_list.rs:396-409 | a viewable window's clip list asked for alone is its entry in the walk and the stray pixels no child covers, and equal iff there are none |
| OracleSets.OnlyShownListed | crates/yserver-core/src/core_loop/clip_list.rs:473-491 | every entry of the walk is a window's that is viewable with all above it |
| ClipOracle.OracleSize | crates/yserver-core/src/core_loop/clip_list/oracle.rs:29-54 | the rectangles of `borderSize` for every window; exactly its pixels while no coordinate leaves 16 bits |
| ClipOracle.OracleWin | crates/yserver-core/src/core_loop/clip_list/oracle.rs:56-75 | the rectangles of `winSize` for every window, with the same condition for its pixels |
| ClipOracle.OracleUncovered | crates/yserver-core/src/core_loop/clip_list/oracle.rs:176-184 | one subtraction per covering higher sibling leaves exactly the pixels no such sibling covers, while no coordinate leaves 16 bits |
| ClipOracle.OracleMoved | crates/yserver-core/src/core_loop/clip_list/oracle.rs:160-186 | the same in the child's space, the move clamped |
| ClipOracle.OracleUniverse | crates/yserver-core/src/core_loop/clip_list/oracle.rs:129-158 | the rectangles of a child's universe for every child; exactly the pixels of the oracle's declarative universe while no coordinate leaves 16 bits |
| ClipOracle.OracleClip | crates/yserver-core/src/core_loop/clip_list/oracle.rs:254-269 | the early exit changes nothing: the clip list is what all covering children leave |
| ClipOracle.UniverseFromRoot | crates/yserver-core/src/core_loop/clip_list/oracle.rs:77-108 | the recursion up to the root gives, while no coordinate leaves 16 bits down the path, the pixels the higher siblings leave inside the content at every step down |
| ClipOracle.OracleBorder | crates/yserver-core/src/core_loop/clip_list/oracle.rs:209-218 | a child's own size in its own space, cut to what shows unless it is redirected, is its declarative borderClip |
| ClipOracle.OracleRing | crates/yserver-core/src/core_loop/clip_list/oracle.rs:188-220 | the ring, its universe computed again from the root, is the ring of the universe the walk has at that window |
| OracleWalk.Walked | crates/yserver-core/src/core_loop/clip_list/oracle.rs:225-302 | for every tree the rectangles of the walk with their rings; window by window the pixels of the oracle's declarative walk while no coordinate leaves 16 bits |
| OracleWalk.FormedSent | crates/yserver-core/src/region.rs:49-58 | of a banded region and the normalised rectangles of its pixels: sending the region gives those rectangles iff it is canonical |
| OracleWalk.SameRectsIff | crates/yserver-core/src/core_loop/clip_list.rs:325-332 | where the pixels of the two agree, the rectangles do iff the single pass's entries are canonical |
| OracleWalk.SinglePassVersusOracle | crates/yserver-core/src/core_loop/clip_list.rs:325-332 | while no coordinate leaves 16 bits: the same pixels window by window iff every stray pixel is lost; and the same rectangles, too, iff moreover no shape cuts what shows |
| OracleLimits.RoomyExact | crates/yserver-core/src/core_loop/clip_list/oracle.rs:284-302 | if the boxes of the windows, shapes and universes have room in both spaces, no coordinate on the walk leaves 16 bits |
| OracleLimits.SaturationParts | crates/yserver-core/src/core_loop/clip_list/oracle.rs:139-158 | a tree in which no coordinate leaves 16 bits and the single pass and the oracle show different pixels |
| OracleLimits.ClampedUniverse | crates/yserver-core/src/core_loop/clip_list/oracle.rs:185 | a child whose universe the clamped move widens by ten columns |
| OracleLimits.ClampParts | crates/yserver-core/src/core_loop/clip_list.rs:79-86 | a tree without stray pixels in which the clamp alone makes the two differ |
| OracleLimits.TouchingParts | crates/yserver-core/src/core_loop/process_request/shape_xfixes.rs:377-383 | a tree with a YXBanded shape in which the two show the same pixels and return different rectangles |
| OnDemand.Less | crates/yserver-core/src/core_loop/clip_list.rs:270-283 | one subtraction per covering window, given up when nothing is left, leaves exactly what none of them covers |
| OnDemand.ChildUniverseOf | crates/yserver-core/src/core_loop/clip_list.rs:234-253 | the universe of one child from its parent's is the oracle's declarative one, the siblings still redirected hiding nothing |
| OnDemand.UniverseOf | crates/yserver-core/src/core_loop/clip_list.rs:183-213 | the recursion up to the root gives the universe computed down the path |
| OnDemand.NotClippedWhile | crates/yserver-core/src/core_loop/clip_list.rs:215-232 | the same with some siblings still redirected |
| OnDemand.WhileIs | crates/yserver-core/src/core_loop/clip_list.rs:215-253 | pixel by pixel: content inside the shapes and, unless the child is redirected, inside the parent's universe and under no viewable higher sibling other than a Manual redirect or one still redirected |
| OnDemand.ClipListOf | crates/yserver-core/src/core_loop/clip_list.rs:396-409 | the clip list is what the children leave of that universe |
| OnDemand.BorderRingOf | crates/yserver-core/src/core_loop/clip_list.rs:293-317 | the ring is the declarative one of that universe |
| TreeChange.Unmoved | crates/yserver-core/src/core_loop/clip_list.rs:568-572 | a sibling that meets neither outer rectangle shows, with all its subtree, what it showed |
| TreeChange.MembersEnough | crates/yserver-core/src/core_loop/clip_list.rs:565-572 | the exposures of the members are those of the whole layer, in the same order |
| TreeChange.MembersAre | crates/yserver-core/src/core_loop/clip_list.rs:565-572 | a sibling is a member iff it is viewable and shares a pixel with the window's outer rectangle before or after; the window itself always is |
| TreeChange.OverlapIff | crates/yserver-core/src/core_loop/clip_list.rs:533-544 | the test on the edges holds iff the rectangles share a pixel |
| TreeChange.EntriesFor | crates/yserver-core/src/core_loop/clip_list.rs:555-562 | the parent's entry, then those of any choice of children with their subtrees, show what the layer cut to that choice shows |
| TreeChange.LayerIsWalk | crates/yserver-core/src/core_loop/clip_list.rs:546-563 | the whole layer is the walk of the window, entry by entry |
| TreeChange.ClipEntriesOf | crates/yserver-core/src/core_loop/clip_list.rs:546-563 | the parent's entry, then the members' with their subtrees, top-most first |
| TreeChange.IndexById | crates/yserver-core/src/core_loop/clip_list.rs:635-638 | the index finds the first entry of a window, or says there is none |
| TreeChange.NewlyExposed | crates/yserver-core/src/core_loop/clip_list.rs:625-658 | per window, in the new order, exactly the pixels that show now and did not, for a resized window all that show, and the ring pixels that are new, resized or not; stated pixel by pixel over the two layers |
| TreeChange.GainsAre | crates/yserver-core/src/core_loop/clip_list.rs:625-658 | window by window of the new layer: one is listed iff it has a content pixel that shows now and did not, or any for the window resized, or a ring pixel that is in none of its old rings |
| TreeChange.ExposesPixels | crates/yserver-core/src/core_loop/clip_list.rs:625-658 | the exposures listed are those of exactly such windows, in their order, with exactly such pixels |
| TreeChange.ExposedByChange | crates/yserver-core/src/core_loop/clip_list.rs:579-623 | two snapshots of the members and their difference are the exposures of the whole layer, pixel by pixel as in `ExposesPixels` |
| Unmap.NotUnderUnmoved | crates/yserver-core/src/core_loop/clip_list.rs:493-496 | a sibling that is above the window or shares no pixel with its size shows, with all its subtree, what it showed |
| Unmap.UnderEnough | crates/yserver-core/src/core_loop/clip_list.rs:493-496 | the exposures of the parent and the windows under the one unmapped are those of the whole layer, in the same order |
| Unmap.WantUnder | crates/yserver-core/src/core_loop/clip_list.rs:501-512 | a child is chosen iff it is lower and shares a pixel with the window's borderSize |
| Unmap.ExposedByUnmap | crates/yserver-core/src/core_loop/clip_list.rs:497-519 | the two snapshots and their difference are the exposures of the whole layer, pixel by pixel |
| Coverage.Grid.Mark | tools/vng-scenarios/redirected-backing-probe.c:95-97 | a rectangle marks exactly its cells inside the grid |
| Coverage.Grid.Drain | tools/vng-scenarios/redirected-backing-probe.c:86-104 | after any list of rectangles a cell is marked iff it was or one of them holds it |
| Coverage.Grid.Runs | tools/vng-scenarios/redirected-backing-probe.c:112-119 | the maximal runs of a row: they cover its marked cells and never touch |
| Coverage.Grid.Bands | tools/vng-scenarios/redirected-backing-probe.c:107-121 | the bands are the canonical region of the marked cells |
| Coverage.Grid.Print | tools/vng-scenarios/redirected-backing-probe.c:106-124 | the lines printed are that region, or `none`, and the grid is clear afterwards |
| Coverage.Printed | tools/vng-scenarios/redirected-backing-probe.c:86-124 | draining any damage list into a new grid and printing gives the canonical region of its cells inside the grid |
| Coverage.SameDamageSamePrint | tools/vng-scenarios/redirected-backing-probe.c:106-107 | two damage lists, each drained into a new grid and printed, give equal lines iff they cover the same cells of the grid |
| Coverage.LinesAre | tools/vng-scenarios/redirected-backing-probe.c:106-124 | the x, y, width and height on a printed line hold exactly the cells of its box |
| Coverage.PrintIsRegion | tools/vng-scenarios/redirected-backing-probe.c:86-124 | rasterising and printing gives the boxes the server's own region code gives for the rectangles, cut to the grid |
| FloodFill.Visit | tools/ppm-regions.py:98-101 | the neighbours are the four pixels at distance 1; one is marked and queued iff it is an unseen pixel of the colour |
| FloodFill.Fill | tools/ppm-regions.py:87-103 | one pass collects exactly the pixels a path of steps at distance 1 reaches from the seed through the colour, with their number and tight box, and ends |
| FloodFill.ScanPixel | tools/ppm-regions.py:85-103 | one pixel of the scan keeps: disjoint components so far are what is seen, and the reports are theirs |
| FloodFill.Regions | tools/ppm-regions.py:80-105 | the components, connected by steps at distance 1, partition the colour's pixels; the list is those large enough, each with exact area and box, in descending order |
| FloodFill.CellsAre | tools/ppm-regions.py:75-97 | a cell is of the colour iff its three bytes in the body are |
| FloodFill.LargeAre | tools/ppm-regions.py:103 | the components kept are those of at least the least area, in their order |
| FloodFill.NotBelowIff | tools/ppm-regions.py:104 | the order of the reports is that of their tuples: at the first place they differ the larger comes first |
| FloodFill.SortDescending | tools/ppm-regions.py:104 | a permutation of the reports in descending tuple order |
| UseTree.SplitParts | tools/use-only-diff.py:63-72 | the parts are what stands between the commas with as many braces opened as closed before them |
| UseTree.SplitIs | tools/use-only-diff.py:80-84 | the segments joined by `::` are the text, and no segment holds a `::` |
| UseTree.LeafBinds | tools/use-only-diff.py:79-84 | a path binds the text after its last `::`, an alias its new name, `self` the prefix's last name; the full path is the prefix and the leaf's own |
| UseTree.GroupBinds | tools/use-only-diff.py:75-78 | a group binds what its items bind, in order, under the prefix and its own path |
| UseTree.GroupPrints | tools/use-only-diff.py:57-58 | a group is printed as its path, `::`, and its items with commas between braces |
| UseTree.Flatten | tools/use-only-diff.py:62-85 | the loop over the parts gives the recursive walk, and ends |
| UseTree.HeadedPart | tools/use-only-diff.py:75-78 | any part that ends in a brace is walked as a group at its first `::{`, under the prefix and its head |
| UseTree.BracedPart | tools/use-only-diff.py:75-78 | any other that starts with a brace is walked without its first and last character |
| UseTree.OtherPart | tools/use-only-diff.py:79-84 | any other binds one name: `self` that of the prefix, text with ` as ` the name behind the first, the rest its last segment |
| UseTree.FlattenPrint | tools/use-only-diff.py:57-87 | walking the printed form of a well-formed tree under any prefix gives exactly the tree's bindings, in order, if every misread group binds nothing, as meant and as read |
| UseTree.FlattenIff | tools/use-only-diff.py:57-87 | for every well-formed tree: if and only if |
| UseTree.FilledQuiet | tools/use-only-diff.py:75-78 | without empty groups that condition is that no group without a path is around one with a path |
| UseTree.DirectQuiet | tools/use-only-diff.py:75-78 | a tree with no misread group satisfies it |
| UseTree.SameSize | tools/use-only-diff.py:62-85 | how many names a text binds does not depend on the prefix |
| UseTree.EmptyGroupsMisread | tools/use-only-diff.py:75-78 | of two misread groups that bind nothing, one is read as a name and the other as nothing |
| UseTree.MisreadShows | tools/use-only-diff.py:75-78 | all that a misread group binds has a brace in its path |
| UseTree.FlattenBody | tools/use-only-diff.py:87 | the text of one tree is one part: the outer call walks just that, with the same condition |
| UseTree.PrefixlessGroupMisread | tools/use-only-diff.py:75-78 | a group without a path around a group with one binds a name with a brace in it |
| UseItems.ModuleUses | tools/use-only-diff.py:22-42 | the file is cut into attributes (from `#[` until the brackets close), statements (from a `use` to the line that ends it) and other lines; the spans are the statements, each with the attributes right above it; the loop runs off the file iff a statement does not end; and that is the recursive scan |
| UseItems.VisIs | tools/use-only-diff.py:19 | the pattern finds nothing, `pub ` or `pub(...) ` in front of `use `, and nothing else |
| UseItems.EndsIff | tools/use-only-diff.py:36 | a line ends a statement iff after some semicolon there is only white space up to the end or a comment |
| UseItems.SpansOrdered | tools/use-only-diff.py:22-42 | the spans ascend, do not overlap and lie in the file |
| UseItems.ParseIsScan | tools/use-only-diff.py:45-48 | the lines outside the spans, the items and the rewritten text are those of a structural parse of the file |
| UseItems.Explode | tools/split/prune-unused-imports.py:28-41 | splicing span by span gives the parse of the file with every item rewritten |
| UseItems.ParseCuts | tools/split/prune-unused-imports.py:28-41 | the file is its chunks one after the other: no line is lost or moved |
| UseItems.PartsAre | tools/use-only-diff.py:45-48 | the other lines and the items are those of the chunks, in their order |
| UseItems.RenderAt | tools/split/prune-unused-imports.py:28-41 | the text written is, chunk by chunk in the order of the file, a line as it is or an item rewritten |
| UseItems.RewriteIs | tools/split/prune-unused-imports.py:36-38 | an item rewritten is, for each binding in order, its attribute lines and one `use` with its visibility, the path, and ` as` and the name where that is neither the last name nor `*` |
| UseItems.AttrsAre | tools/split/prune-unused-imports.py:34 | the attribute lines kept are those that start with `#[` and end with `]`, in order |
| UseItems.VisOfFirst | tools/split/prune-unused-imports.py:35 | the visibility is that of the first line that begins as a `use` does |
| UseLayout.PiecesPrint | tools/use-only-diff.py:58 | the names and punctuation of a tree, with nothing but a space between two names, are its compact form |
| UseLayout.CleanBody | tools/use-only-diff.py:60 | whatever white space and line breaks stand around the pieces, the clean-up leaves the compact form, with a space after it iff one stood between a name and the semicolon |
| UseRewrite.CleanStatement | tools/use-only-diff.py:59-60 | attributes, several on a line included, visibility, `use`, layout and semicolon go: what is left is the compact form of the tree |
| UseRewrite.HeadStripped | tools/use-only-diff.py:59 | of any text the pattern takes white space, attributes, a visibility, `use` and one white space character, and leaves what follows |
| UseRewrite.StatementBinds | tools/use-only-diff.py:57-87 | a whole statement flattens to the bindings of its tree iff every misread group in it binds nothing, as meant and as read |
| UseRewrite.TailIff | tools/use-only-diff.py:60 | for any white space before the semicolon: the bindings are right iff none follows a name |
| UseRewrite.LayoutIsGood | tools/split/prune-unused-imports.py:28-41 | every such statement, in front of any lines, is found whole by the scan, is one the rewriting theorem is about, and flattens to its bindings |
| UseRewrite.ItemBinds | tools/split/prune-unused-imports.py:34-38 | a rewritten item is such a statement, with its attributes and visibility, and binds its one path |
| UseRewrite.ParseRendered | tools/split/prune-unused-imports.py:28-41 | for files whose items are attributes and a statement in any layout: scanning the rewritten file finds the other lines and one item per binding |
| UseRewrite.ExplodeKeepsMeaning | tools/split/prune-unused-imports.py:28-41 | for the same files: every other line and every binding stay, in order, and a second rewrite changes nothing |
| UseRewrite.SkipRun | tools/use-only-diff.py:59 | what the attribute pattern leaves of a line it leaves in front of the lines below, and nothing else |
| UseAttrs.AttrIff | tools/use-only-diff.py:59-60 | a one-path statement under a line of attributes is scanned as one item, and binds its path iff every attribute ends with its first `]` |
| UseAttrs.BindsAttr | tools/use-only-diff.py:73-84 | text that begins with `#[` and has no braces binds a path that begins so |
| UseAttrs.BracketedAttr | tools/use-only-diff.py:59-60 | `#[a[b]]` above `use c;` is one item and does not bind c |
| UseAttrs.SpacedSemicolon | tools/use-only-diff.py:60 | `use a ;` does not bind a |
| KeyedDiff.SameKeyIff | tools/xkb-mutation-probe.c:604-621 | comparing lengths and prefixes is comparing keys |
| KeyedDiff.KeyIs | tools/xkb-mutation-probe.c:604-612 | a line's key is the text before its second space, or all of it |
| KeyedDiff.XsFind | tools/xkb-mutation-probe.c:614-621 | a line with the key is found iff there is one |
| KeyedDiff.DiffSnap | tools/xkb-mutation-probe.c:623-637 | the lines printed patch the old snapshot into the new one, name exactly the lines that differ, and are none iff the snapshots agree; they come in the order of the old snapshot, a removal right before its replacement, then the new lines in the order of the new one |
| KeyedDiff.Run | tools/xkb-mutation-probe.c:1187-1232 | over every run the steps' deltas compose to the snapshot held, and every total agrees with them |
| ModifierTable.ReadRow | tools/xkb-mutation-probe.c:991-996 | a row of the table with its zeros dropped, if that fits the buffer |
| ModifierTable.Compact | tools/xkb-mutation-probe.c:1011-1015 | in place, the row without the keycode: none is left, the others stand in their old order |
| ModifierTable.WithoutDrops | tools/xkb-mutation-probe.c:1011-1015 | what is left does not hold the keycode, has every other one as often as before, and in the same order |
| ModifierTable.NonZeroDrops | tools/xkb-mutation-probe.c:991-996 | the same of the zeros of a row |
| ModifierTable.EditLoop | tools/xkb-mutation-probe.c:1000-1018 | the edits applied in order; a spill iff a row outgrows its buffer before the first bad edit, and otherwise a stop iff one is bad |
| ModifierTable.EditMeans | tools/xkb-mutation-probe.c:1000-1018 | which edits stop the loop; `+` appends the keycode to its row, `-` drops it, and no other row changes |
| ModifierTable.ForcedIs | tools/xkb-mutation-probe.c:1000-1004 | the width forced is the last one given |
| ModifierTable.LayOut | tools/xkb-mutation-probe.c:1030-1034 | the table laid out decodes row by row to the rows |
| ModifierTable.EditedFit | tools/xkb-mutation-probe.c:1019-1023 | an edit makes no row longer by more than one |
| ModifierTable.RoomNeverSpills | tools/xkb-mutation-probe.c:989-990 | a current width and edits that together fit the buffers never outgrow them |
| ModifierTable.Smmx | tools/xkb-mutation-probe.c:982-1040 | the table sent has 8 rows of the forced width, or of the current one grown to the longest row, and decodes to the edited rows; exactly when it stops (a bad edit, a row that does not fit) and when it overruns its buffers (a row outgrown before that, a width above the capacity) |
| BorderGrid.StripsTile | tools/border-damage-probe.c:504-522 | the four strips are pairwise disjoint and are exactly the border |
| BorderGrid.BorderIs | tools/border-damage-probe.c:504-522 | the border is the frame of its width around the client area, and the damage what some rectangle holds of frame and client area, pixel by pixel |
| BorderGrid.RingSize | tools/border-damage-probe.c:504-522 | the border has (w+2bw)(h+2bw) - wh pixels and is empty iff bw is 0 |
| BorderGrid.StripsCount | tools/border-damage-probe.c:852-874 | summing over the strips counts the border's part of any set of pixels |
| BorderGrid.Grid.constructor | tools/border-damage-probe.c:438-455 | the grid is refused iff the size has no pixels or the border is negative; otherwise nothing is marked |
| BorderGrid.Grid.Mark | tools/border-damage-probe.c:457-476 | clamping is intersecting with the bordered extent |
| BorderGrid.Grid.Count | tools/border-damage-probe.c:478-502 | cells and covered are the cardinalities of the rectangle on the grid and of its marked part |
| BorderGrid.MarkAll | tools/border-damage-probe.c:845-847 | after all rectangles exactly their union inside the bordered extent is marked |
| BorderGrid.CountRing | tools/border-damage-probe.c:852-874 | the summed counts are those of the border and of its damaged part |
| BorderGrid.Verdict | tools/border-damage-probe.c:824-904 | cells and covered of border and inside are the numbers of their pixels and of the damaged ones; FULLY_COVERED iff there is a border and all of it is damaged; MATCH is what each phase means, for the client phase that the damage is exactly the client area |
| Netpbm.ParseDecimal | tools/ppm-regions.py:67 | a printed size reads back, also with a sign in front |
| Netpbm.NumberIff | tools/ppm-regions.py:67 | what reads as a number: digits with single underscores between them |
| Netpbm.DigitAdded | tools/ppm-regions.py:67 | a digit more is ten times the number and the digit, an underscore before it or not |
| Netpbm.SignedIs | tools/ppm-regions.py:67 | a sign in front, plus, minus or none |
| Netpbm.WritePpm | tools/vng-scenarios/render-root-source-client.c:36-53 | the literal header, then the red, green and blue byte of every pixel, row by row |
| Netpbm.BodyPixel | tools/ppm-regions.py:75-77 | looking a pixel up in the body finds the pixel of the picture |
| Netpbm.NextField | tools/ppm-regions.py:53-62 | the loops find the next header field, white space and comments skipped |
| Netpbm.FieldIs | tools/ppm-regions.py:53-62 | a field starts at the first byte that is neither white space nor in a comment from a `#` to the end of its line, and ends before the next white space |
| Netpbm.ReadPpm | tools/ppm-regions.py:46-72 | the loop reads what the function on the whole file reads, errors included |
| Netpbm.P6Cases | tools/ppm-regions.py:51-72 | what is read for any four fields: each error, and the body one byte after the last field |
| Netpbm.PpmRoundTrip | tools/ppm-regions.py:46-72 | a written file of any size reads back with the same size and body, whatever byte the body starts with |
| Netpbm.PictureRoundTrip | tools/ppm-regions.py:46-77 | every pixel of every picture written is found by size and position in what is read |
| Netpbm.ReadPamFile | tools/ppm-regions.py:18-43 | the loops read what the function on the whole file reads, errors included |
| Netpbm.BreakAt | tools/ppm-regions.py:27 | a header line ends at a line feed, a carriage return or both |
| Netpbm.KeysAre | tools/ppm-regions.py:26-30 | a key has the value of the last line of two words that begins with it |
| Netpbm.PamCases | tools/ppm-regions.py:18-43 | what is read for any header and body: each error, and of four bytes a pixel the first three |
| Netpbm.CopyRgb | tools/ppm-regions.py:40-43 | the buffer is the first three bytes of every four of the body |
| Netpbm.PamRoundTrip | crates/yserver/src/kms/render/backend/portable/dump.rs:404-421 | a PAM of a surface reads back as the same triple as its PPM |
| Netpbm.RgbaAt | crates/yserver/src/kms/render/backend/portable/dump.rs:404-421 | red, green, blue and alpha of a pixel |
| Journal.ParseJournal | tools/xts-vs-baseline.py:37-64 | the loop gives the verdicts of `VerdictsAre` |
| Journal.VerdictsAre | tools/xts-vs-baseline.py:37-64 | (case, purpose) has a verdict iff there is a last result for it: a `220` line of three parts or more whose second word is the purpose and whose first is a test case with that case; the verdict is its third part, stripped |
| Journal.CasesAre | tools/xts-vs-baseline.py:53-57 | the case of a test case number is the second word of the last `10` line before that begins with it, and `tc` and the number if there is none |
| Journal.NumbersDoNotMatter | tools/xts-vs-baseline.py:42-43 | two journals that differ only in how they number their cases give the same verdicts |
| Journal.StripEnds | tools/xts-vs-baseline.py:61-63 | a verdict is stripped of the white space at its ends and of nothing else |
| Journal.LoadFile | tools/xts-vs-baseline.py:67-79 | a baseline or a journal, by the first line |
| Journal.BaselineIs | tools/xts-vs-baseline.py:67-79 | a file is a baseline iff its first line has a tab; a purpose then has the verdict of the last line of exactly three columns for it |
| Journal.ExtractLoads | tools/xts-vs-baseline.py:67-86 | loading what is extracted gives the verdicts back, none included, iff no verdict holds a tab |
| Journal.JournalKeysTabFree | tools/xts-vs-baseline.py:53-63 | the keys of a journal never hold a tab |
| Journal.JournalExtractLoads | tools/xts-vs-baseline.py:82-86 | the round trip for every journal, iff no verdict holds a tab |
| Journal.TabbedVerdict | tools/xts-vs-baseline.py:74-86 | a journal line whose verdict holds a tab does not survive extract and load |
| Journal.JournalGaps | tools/xts-vs-baseline.py:94-134 | the loop gives the gaps of the tallies of all records |
| Journal.TallyCounts | tools/xts-vs-baseline.py:106-120 | every tally is the number of records of its kind: case starts and ends, purpose starts and results, ends of the journal |
| Journal.GapsAre | tools/xts-vs-baseline.py:121-134 | each gap, by the numbers of lines that are records of its kind: no results, a number of ends other than one, two numbers that differ for a test case or a purpose |
| Journal.CompleteIff | tools/xts-vs-baseline.py:94-134 | there is no gap iff the journal ends once, has a result, and starts and ends, or starts and results, are equal in number for every case and purpose |
| Journal.TallyRecords | tools/xts-vs-baseline.py:117-120 | a purpose is tallied iff it has a record |
| Journal.CompleteHasVerdicts | tools/xts-vs-baseline.py:94-100 | in a complete journal every purpose that started has a result, and a verdict under the case of that result |
| Journal.CmdStrict | tools/xts-vs-baseline.py:142-174 | each exit code exactly: 0 iff both are complete journals with equal verdicts |
| Journal.CmdDiff | tools/xts-vs-baseline.py:177-213 | agreement and the three buckets partition the common purposes; 0 iff nothing that passed fails |
| Journal.StrictThenDiff | tools/xts-vs-baseline.py:142-213 | strict agreement gives 0 from diff in both directions |
| RunLength.Runs | tools/vng-scenarios/draw-clip-probe.c:85-103 | the runs cover the samples in order, each once and with its colour; neighbours differ; the sentinel, whatever its coordinate, is never printed |
| RunLength.RunsAre | tools/vng-scenarios/draw-clip-probe.c:85-103 | run k holds the samples from one cut to the next, with the coordinates of its first and last sample |
| RunLength.SampleFound | tools/vng-scenarios/draw-clip-probe.c:91-95 | every sample's coordinate lies in exactly one printed run, of its colour |
| Histogram.Add | tools/vng-scenarios/bg-gc-probe.c:86-98 | one pixel more keeps: bins are exact multiplicities, the rest is in other, and other is empty unless all bins are taken |
| Histogram.Sort | tools/vng-scenarios/bg-gc-probe.c:59-65 | a permutation, larger counts first, then smaller colours |
| Histogram.Count | tools/vng-scenarios/bg-gc-probe.c:67-107 | counts and other add up to the pixels outside the hole, each count its colour's multiplicity, sorted |
| Histogram.ColoursAre | tools/vng-scenarios/bg-gc-probe.c:74-86 | the pixels counted are those outside the hole, by rows and each from the left, without their top byte |
| Histogram.EveryColourCounted | tools/vng-scenarios/bg-gc-probe.c:87-98 | with no more colours than bins the bins are exactly the colours |
| Histogram.FirstColoursBinned | tools/vng-scenarios/bg-gc-probe.c:87-98 | with more than 16 colours exactly the first 16 seen have a bin, and the others are in other |
| Histogram.OrderShows | tools/vng-scenarios/bg-gc-probe.c:87-98 | with more than 16 colours a colour that comes among the first 16 in one order and not in another makes the bins differ |
| Histogram.SamePixelsSamePrint | tools/vng-scenarios/bg-gc-probe.c:100-105 | with at most 16 colours what is printed depends only on the multiset of pixels |
| ResizeExpose.ExpectationRight | tools/resize-expose-probe.c:678-715 | none iff nothing is uncovered; otherwise the tight box of what is, and exactly that when one side grew |
| ResizeExpose.ExpectedPixels | tools/resize-expose-probe.c:678-715 | a move exposes nothing, a resize without gravity the whole window, and otherwise what lies past the old width or height |
| ResizeExpose.Collector.Expose | tools/resize-expose-probe.c:353-383 | the union box is the hull of every rectangle seen, recorded or not |
| ResizeExpose.Collector.Match | tools/resize-expose-probe.c:790-803 | MATCH iff the hull of what arrived is the expected box, or nothing arrived and nothing was expected |
| PixelOracle.TileAll | tools/vng-scenarios/pixel-oracle-check.py:39-41 | tiling gives the closed form at every pixel |
| PixelOracle.TriWave | tools/vng-scenarios/pixel-oracle-check.py:25-27 | the wave goes up from 0 to 255 and down again, every 512 pixels |
| PixelOracle.PatternRamp | tools/vng-scenarios/pixel-oracle-check.py:30-33 | red grows to the right, green downwards, blue both ways |
| PixelOracle.Draw | tools/vng-scenarios/pixel-oracle-check.py:45-49 | a fill changes exactly its pixels inside the window and the image |
| PixelOracle.ExpectedRoot | tools/vng-scenarios/pixel-oracle-check.py:36-50 | every pixel is the last fill that covers it, or the closed form |
| PixelOracle.ExpectedIs | tools/vng-scenarios/pixel-oracle-check.py:42-49 | the pixel has the colour of the last fill that holds it inside the window, and the pattern's if none does |
| PixelOracle.FillChannels | tools/vng-scenarios/pixel-oracle-check.py:48-49 | a fill's number is red, green and blue |
| PixelOracle.RotationBijective | tools/vng-scenarios/pixel-oracle-check.py:58-76 | each rotation maps the mode's pixels one to one onto the view's |
| PixelOracle.CornersShown | tools/vng-scenarios/pixel-oracle-check.py:58-66 | where the top left and top right pixel of a mode go under each rotation |
| PixelOracle.RotationsCancel | tools/vng-scenarios/pixel-oracle-check.py:61-66 | left then right, right then left and inverted twice are the identity |
| ScanCheck.UnitNearestExact | tools/vng-scenarios/pixel-oracle-check.py:126-129 | at scale 1 the tie-tolerant look accepts exactly the colour of the root pixel shown |
| ScanCheck.NearestIff | tools/vng-scenarios/pixel-oracle-check.py:126-129 | at any scale the look accepts the colours of the root pixels the point is in or within a thousandth of |
| ScanCheck.ScaledSample | tools/vng-scenarios/pixel-oracle-check.py:58-76 | a scaled mode looks at the scaled point, moved by its position |
| ScanCheck.BlendAtCentre | tools/vng-scenarios/pixel-oracle-check.py:79-89 | at the centre of a pixel the filter gives that pixel |
| ScanCheck.BlendAffine | tools/vng-scenarios/pixel-oracle-check.py:79-89 | of an image affine in x and y the filter gives the exact value at every point inside |
| ScanCheck.BilinearAtCentre | tools/vng-scenarios/pixel-oracle-check.py:119-124 | at the centre of a pixel that is not on the edge a colour is accepted iff each channel is within the tolerance |
| ScanCheck.CursorBoxIs | tools/vng-scenarios/pixel-oracle-check.py:115 | which pixels around the cursor are masked |
| ScanCheck.Scan | tools/vng-scenarios/pixel-oracle-check.py:107-137 | every pixel that differs is masked, accepted or bad, once; the counts add up, vacated is at most bad, and the pixels reported are the first five bad ones |
| ScanCheck.CountsAre | tools/vng-scenarios/pixel-oracle-check.py:107-137 | masked, bad and vacated are the numbers of pixels that differ under the cursor, elsewhere and not accepted, and of these on its path; the five reported are the first of the bad |
| ScanCheck.UnitBad | tools/vng-scenarios/pixel-oracle-check.py:114-131 | at scale 1 a pixel off the cursor is bad iff it differs and is not the root pixel it shows |
| ScanCheck.NoneBadIff | tools/vng-scenarios/pixel-oracle-check.py:107-137 | at scale 1 with the nearest filter: no pixel is bad iff every pixel off the cursor is the root pixel it shows |

## Left out

- Coordinates are unbounded integers: overflow of the 32-bit boxes is not modelled. Rounding to 16 bits is modelled where the oracle computes on rectangles (`WireRegions`).
- The window tree is a value with its children inside; resource ids, parent links and windows that are gone are not modelled.
- `subtree_clip_lists` and `subtrees_clip_lists`: the modelled walk from a window's own universe, or from shares of its parent's, without the rings.
- `clip_list.rs`'s own `canonical` on wire rectangles is not modelled.
- `verify_rect_order` for the orderings other than YXBanded: pairwise comparisons.
- OracleWalk.SinglePassVersusOracle: the comparison is stated while no coordinate leaves 16 bits; beyond that each step says exactly which rectangles it returns, and two computations that both round may still agree by accident. For the rectangles the windows' sizes are from 1 to 65535, as on the wire.
- OracleWalk.Walked: shapes are banded, as the server keeps them.
- TreeChange.ExposedByChange: the window changed is viewable before and after and the ids in the layer are distinct; a window that is not viewable has no snapshot in the source.
- Unmap.ExposedByUnmap: the ids in the layer are distinct.
- UseTree.FlattenIff: `self as` and an alias named `*` are outside the trees, and names hold no punctuation, brackets or white space.
- UseRewrite.ExplodeKeepsMeaning: stated for terminated items with lines of attributes directly above them, each attribute ending with its first `]`, in any layout of the statement; attributes over several lines, comments inside a statement and `use self::{self}` are outside.
- UseAttrs.AttrIff: stated for one line of attributes without braces above a statement of one path.
- White space in the text tools is ASCII; the regular expressions are written out as functions on characters.
- The token comparison of `strip` (rustfmt, visibility) is not modelled, only which lines it drops.
- ModifierTable.Smmx: what the source does after writing past a buffer is not modelled, nor is splitting the argument text into edits.
- KeyedDiff.DiffSnap: keys are unique in each snapshot, which is what the snapshots are built to have; how a snapshot is read from the server is not modelled.
- Netpbm: the limit some interpreters put on the number of digits `int()` takes is not modelled.
- RunLength.Runs: the coordinates of the samples are not negative, since the source uses a negative start as "no run open".
- Histogram.SamePixelsSamePrint: stated for at most 16 colours; beyond that the order of the pixels shows (`OrderShows`).
- The order in which gaps, keys and differences are printed (library sorts) is not modelled in Journal; gaps are a set and keys come in any order without repeats. Other sorts are insertion sorts with the same ordering.
- Journal.CmdDiff: the common keys are given as a list.
- The bilinear filter is exact arithmetic; rounding, fixed-point truncation of the scale and the image library's own transform are not modelled: which pixels differ is an input of `ScanCheck`, except at scale 1 with the nearest filter (`NoneBadIff`).
- X connections, events, polling, shared memory, files and the GPU: what the algorithms receive is an input.
- The rest of the server (protocol decoding, rendering, input, compositing back ends) and the probes that only issue requests and print replies.
