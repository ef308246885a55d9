/** The expected root image and the CRTC rotations of the scanout check
    (tools/vng-scenarios/pixel-oracle-check.py). */
module PixelOracle {
  import opened Plane

  datatype Colour = Colour(r: int, g: int, b: int)

  const TILE: nat := 512

  /** `tri`: up to 255 and down again, every 512. */
  function Tri(t: int): int {
    var m := t % 512;
    if m < 256 then m else 511 - m
  }

  /** The wave: 0 to 255, 255 to 0, and again. */
  lemma TriWave(k: int, n: int)
    requires 0 <= k < 256
    ensures Tri(k + 512 * n) == k == Tri(511 - k + 512 * n)
  {
    assert (k + 512 * n) % 512 == k && (511 - k + 512 * n) % 512 == 511 - k;
  }

  /** The pattern as a closed form. */
  function Pattern(x: int, y: int): Colour { Colour(Tri(x), Tri(y), Tri(x + y)) }

  /** Red grows to the right, green downwards and blue both ways. */
  lemma PatternRamp(x: int, y: int)
    requires 0 <= x && 0 <= y && x + y < 256
    ensures Pattern(x, y) == Colour(x, y, x + y)
  {
    TriWave(x, 0);
    TriWave(y, 0);
    TriWave(x + y, 0);
  }

  lemma PatternRepeats(x: int, y: int, dx: int, dy: int)
    requires dx % 512 == 0 && dy % 512 == 0
    ensures Pattern(x + dx, y + dy) == Pattern(x, y)
  {
    Repeats(x, dx);
    Repeats(y, dy);
    Repeats(x + y, dx + dy);
    assert x + dx + (y + dy) == x + y + (dx + dy);
  }

  lemma Repeats(t: int, d: int)
    requires d % 512 == 0
    ensures (t + d) % 512 == t % 512
  {
  }

  // ------------------------------------------------------- the root image

  datatype Window = Window(x: int, y: int, w: int, h: int)

  /** A fill in window coordinates and its colour. */
  datatype Fill = Fill(x: int, y: int, w: int, h: int, c: nat)

  function FillColour(c: nat): Colour { Colour(c / 65536, (c / 256) % 256, c % 256) }

  /** Red, green and blue, one byte each. */
  lemma FillChannels(r: nat, g: nat, b: nat)
    requires r < 256 && g < 256 && b < 256
    ensures FillColour(r * 0x1_0000 + g * 0x100 + b) == Colour(r, g, b)
  {
    var c := r * 65536 + g * 256 + b;
    assert c / 65536 == r;
    assert c / 256 == r * 256 + g;
    assert (r * 256 + g) % 256 == g;
    assert c % 256 == b;
  }

  /** The pixels of a fill: those of its rectangle that are inside the window. */
  predicate Covers(win: Window, f: Fill, x: int, y: int) {
    0 <= x - win.x < win.w && 0 <= y - win.y < win.h && f.x <= x - win.x < f.x + f.w && f.y <= y - win.y < f.y + f.h
  }

  /** Painter's order: the last fill that covers the pixel, or the pattern. */
  function Expected(win: Window, fills: seq<Fill>, x: int, y: int): Colour {
    if fills == [] then Pattern(x, y)
    else if Covers(win, fills[|fills| - 1], x, y) then FillColour(fills[|fills| - 1].c)
    else Expected(win, fills[..|fills| - 1], x, y)
  }

  /** The pixel is in both the window and the fill, which is placed from the window's corner. */
  ghost predicate Inside(win: Window, f: Fill, x: int, y: int) {
    && win.x <= x < win.x + win.w && win.y <= y < win.y + win.h
    && win.x + f.x <= x < win.x + f.x + f.w && win.y + f.y <= y < win.y + f.y + f.h
  }

  ghost predicate LastInside(win: Window, fills: seq<Fill>, x: int, y: int, i: nat) {
    i < |fills| && Inside(win, fills[i], x, y) && forall j :: i < j < |fills| ==> !Inside(win, fills[j], x, y)
  }

  /** A pixel has the colour of fill i if that is the last one it is inside, and the pattern's if it is
      inside none. */
  lemma {:induction false} ExpectedIs(win: Window, fills: seq<Fill>, x: int, y: int, i: nat)
    ensures (forall j :: 0 <= j < |fills| ==> !Inside(win, fills[j], x, y)) ==>
        Expected(win, fills, x, y) == Colour(Tri(x), Tri(y), Tri(x + y))
    ensures LastInside(win, fills, x, y, i) ==> Expected(win, fills, x, y) == FillColour(fills[i].c)
    decreases |fills|
  {
    if fills != [] {
      var n := |fills| - 1;
      assert Covers(win, fills[n], x, y) <==> Inside(win, fills[n], x, y);
      ExpectedIs(win, fills[..n], x, y, i);
    }
  }

  /** `img.paste`: the tile at (x0, y0), cut to the image. */
  method Paste(img: array2<Colour>, x0: nat, y0: nat)
    modifies img
    ensures forall y, x :: 0 <= y < img.Length0 && 0 <= x < img.Length1 ==>
        img[y, x] == if x0 <= x < x0 + TILE && y0 <= y < y0 + TILE then Pattern(x - x0, y - y0) else old(img[y, x])
  {
    forall y, x | 0 <= y < img.Length0 && 0 <= x < img.Length1 && x0 <= x < x0 + TILE && y0 <= y < y0 + TILE {
      img[y, x] := Pattern(x - x0, y - y0);
    }
  }

  /** Tiling the image gives the closed form everywhere. */
  method TileAll(img: array2<Colour>)
    modifies img
    ensures forall y, x :: 0 <= y < img.Length0 && 0 <= x < img.Length1 ==> img[y, x] == Pattern(x, y)
  {
    var y0 := 0;
    while y0 < img.Length0
      invariant 0 <= y0 && y0 % 512 == 0
      invariant forall y, x :: 0 <= y < img.Length0 && 0 <= x < img.Length1 && y < y0 ==> img[y, x] == Pattern(x, y)
    {
      var x0 := 0;
      while x0 < img.Length1
        invariant 0 <= x0 && x0 % 512 == 0
        invariant forall y, x :: 0 <= y < img.Length0 && 0 <= x < img.Length1 ==>
            y < y0 || (y < y0 + TILE && x < x0) ==> img[y, x] == Pattern(x, y)
      {
        Paste(img, x0, y0);
        forall x, y ensures Pattern(x - x0, y - y0) == Pattern(x, y) {
          PatternRepeats(x - x0, y - y0, x0, y0);
        }
        x0 := x0 + TILE;
      }
      y0 := y0 + TILE;
    }
  }

  /** One fill, clipped to the window and to the image. */
  method Draw(img: array2<Colour>, win: Window, f: Fill)
    modifies img
    ensures forall y, x :: 0 <= y < img.Length0 && 0 <= x < img.Length1 ==>
        img[y, x] == if Covers(win, f, x, y) then FillColour(f.c) else old(img[y, x])
  {
    var x0, y0 := Max(f.x, 0), Max(f.y, 0);
    var x1, y1 := Min(f.x + f.w, win.w), Min(f.y + f.h, win.h);
    if x1 > x0 && y1 > y0 {
      forall y, x | 0 <= y < img.Length0 && 0 <= x < img.Length1 && win.x + x0 <= x <= win.x + x1 - 1
        && win.y + y0 <= y <= win.y + y1 - 1 {
        img[y, x] := FillColour(f.c);
      }
    }
  }

  /** `expected_root`: every pixel is the last fill that covers it, or the pattern's closed form. */
  method ExpectedRoot(w: nat, h: nat, win: Window, fills: seq<Fill>) returns (img: array2<Colour>)
    ensures fresh(img) && img.Length0 == h && img.Length1 == w
    ensures forall y, x :: 0 <= y < h && 0 <= x < w ==> img[y, x] == Expected(win, fills, x, y)
  {
    img := new Colour[h, w]((_, _) => Colour(0, 0, 0));
    TileAll(img);
    for k := 0 to |fills|
      invariant forall y, x :: 0 <= y < h && 0 <= x < w ==> img[y, x] == Expected(win, fills[..k], x, y)
    {
      assert fills[..k + 1][..k] == fills[..k];
      Draw(img, win, fills[k]);
    }
    assert fills[..|fills|] == fills;
  }

  // ------------------------------------------------------- rotations

  datatype Rotation = Normal | Left | Inverted | Right

  /** The mode's pixel (x, y) shows the root's pixel (a x + b y + c, d x + e y + f). */
  datatype Affine = Affine(a: int, b: int, c: int, d: int, e: int, f: int)

  /** `crtc_map` at scale 1 for a w x h mode at (px, py). */
  function CrtcMap(rot: Rotation, w: int, h: int, px: int, py: int): Affine {
    match rot
    case Normal => Affine(1, 0, px, 0, 1, py)
    case Left => Affine(0, -1, h + px, 1, 0, py)
    case Inverted => Affine(-1, 0, w + px, 0, -1, h + py)
    case Right => Affine(0, 1, px, -1, 0, w + py)
  }

  /** `sample`: the root point of a scanout pixel's centre, in half pixels. */
  function Sample(m: Affine, p: Pt): Pt {
    var cx, cy := 2 * p.x + 1, 2 * p.y + 1;
    Pt(m.a * cx + m.b * cy + 2 * m.c, m.d * cx + m.e * cy + 2 * m.f)
  }

  /** The point is the centre of pixel q. */
  predicate CentreOf(s: Pt, q: Pt) { s.x == 2 * q.x + 1 && s.y == 2 * q.y + 1 }

  /** The root pixel a scanout pixel shows. */
  function Shows(rot: Rotation, w: int, h: int, px: int, py: int, p: Pt): (q: Pt)
    ensures CentreOf(Sample(CrtcMap(rot, w, h, px, py), p), q)
  {
    match rot
    case Normal => Pt(p.x + px, p.y + py)
    case Left => Pt(h - 1 - p.y + px, p.x + py)
    case Inverted => Pt(w - 1 - p.x + px, h - 1 - p.y + py)
    case Right => Pt(p.y + px, w - 1 - p.x + py)
  }

  predicate InMode(w: int, h: int, p: Pt) { 0 <= p.x < w && 0 <= p.y < h }

  /** The rectangle of the root an output shows; its sides swap when it is turned. */
  predicate InView(rot: Rotation, w: int, h: int, px: int, py: int, q: Pt) {
    var vw, vh := if rot == Left || rot == Right then h else w, if rot == Left || rot == Right then w else h;
    px <= q.x < px + vw && py <= q.y < py + vh
  }

  /** The scanout pixel that shows a root pixel. */
  function ShownBy(rot: Rotation, w: int, h: int, px: int, py: int, q: Pt): Pt {
    match rot
    case Normal => Pt(q.x - px, q.y - py)
    case Left => Pt(q.y - py, h - 1 - (q.x - px))
    case Inverted => Pt(w - 1 - (q.x - px), h - 1 - (q.y - py))
    case Right => Pt(w - 1 - (q.y - py), q.x - px)
  }

  /** Each rotation maps the pixels of the mode one to one onto those of the view. */
  lemma RotationBijective(rot: Rotation, w: int, h: int, px: int, py: int)
    ensures forall p :: InMode(w, h, p) ==>
        InView(rot, w, h, px, py, Shows(rot, w, h, px, py, p))
        && ShownBy(rot, w, h, px, py, Shows(rot, w, h, px, py, p)) == p
    ensures forall q :: InView(rot, w, h, px, py, q) ==>
        InMode(w, h, ShownBy(rot, w, h, px, py, q)) && Shows(rot, w, h, px, py, ShownBy(rot, w, h, px, py, q)) == q
  {
  }

  /** Where the mode's upper corners go: turned left they come down the view's right side, turned right
      they go up its left side. */
  lemma CornersShown(w: int, h: int, px: int, py: int)
    ensures Shows(Normal, w, h, px, py, Pt(0, 0)) == Pt(px, py)
        && Shows(Normal, w, h, px, py, Pt(w - 1, 0)) == Pt(px + w - 1, py)
    ensures Shows(Left, w, h, px, py, Pt(0, 0)) == Pt(px + h - 1, py)
        && Shows(Left, w, h, px, py, Pt(w - 1, 0)) == Pt(px + h - 1, py + w - 1)
    ensures Shows(Inverted, w, h, px, py, Pt(0, 0)) == Pt(px + w - 1, py + h - 1)
        && Shows(Inverted, w, h, px, py, Pt(w - 1, 0)) == Pt(px, py + h - 1)
    ensures Shows(Right, w, h, px, py, Pt(0, 0)) == Pt(px, py + w - 1)
        && Shows(Right, w, h, px, py, Pt(w - 1, 0)) == Pt(px, py)
  {
  }

  /** Left then right, and inverted twice, is no turn at all. */
  lemma RotationsCancel(w: int, h: int, p: Pt)
    ensures Shows(Right, h, w, 0, 0, Shows(Left, w, h, 0, 0, p)) == p
    ensures Shows(Left, h, w, 0, 0, Shows(Right, w, h, 0, 0, p)) == p
    ensures Shows(Inverted, w, h, 0, 0, Shows(Inverted, w, h, 0, 0, p)) == p
  {
  }
}
