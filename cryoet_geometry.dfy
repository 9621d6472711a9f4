/** The pixel-level part of the extraction script: which bounding boxes are kept, how a
    kept box is padded and clamped to the picture, and the rotations and flips applied
    to the picture with the box drawn on it (OpenCV's `rotate` and `flip`). */
module CryoetGeometry {

  /** A mask's bounding box in pixel coordinates, as `(x_min, y_min, x_max, y_max)`. */
  datatype BBox = BBox(xMin: int, yMin: int, xMax: int, yMax: int)

  /** A mask is skipped when its box is narrower or lower than 20 pixels or its area is
      below 400. */
  predicate Rejected(b: BBox, area: int)
    ensures !Rejected(b, area) ==> b.xMin < b.xMax && b.yMin < b.yMax && area > 0
  {
    b.xMax - b.xMin < 20 || b.yMax - b.yMin < 20 || area < 400
  }

  /** Padding first, then clamping to the `h` by `w` picture. */
  function PadAndClamp(b: BBox, padding: int, h: int, w: int): (r: BBox)
    requires 0 <= h && 0 <= w
    ensures 0 <= r.xMin && 0 <= r.yMin && r.xMax <= w && r.yMax <= h
    ensures r.xMin == (if b.xMin - padding < 0 then 0 else b.xMin - padding)
    ensures r.yMin == (if b.yMin - padding < 0 then 0 else b.yMin - padding)
    ensures r.xMax == (if b.xMax + padding > w then w else b.xMax + padding)
    ensures r.yMax == (if b.yMax + padding > h then h else b.yMax + padding)
  {
    BBox(Max(0, b.xMin - padding), Max(0, b.yMin - padding),
         Min(w, b.xMax + padding), Min(h, b.yMax + padding))
  }

  function Max(a: int, b: int): int { if a < b then b else a }
  function Min(a: int, b: int): int { if a < b then a else b }

  /** A box lying inside the picture. */
  predicate Inside(b: BBox, h: int, w: int) {
    0 <= b.xMin <= b.xMax <= w && 0 <= b.yMin <= b.yMax <= h
  }

  predicate Contains(outer: BBox, inner: BBox) {
    outer.xMin <= inner.xMin && outer.yMin <= inner.yMin
    && inner.xMax <= outer.xMax && inner.yMax <= outer.yMax
  }

  /** A kept box that lies inside the picture, padded by a non-negative amount, stays
      inside the picture, still covers the original box, and so is at least 20 by 20. */
  lemma PaddedBoxCoversKept(b: BBox, area: int, padding: int, h: int, w: int)
    requires 0 <= h && 0 <= w && 0 <= padding
    requires !Rejected(b, area) && Inside(b, h, w)
    ensures var r := PadAndClamp(b, padding, h, w);
      Inside(r, h, w) && Contains(r, b) && r.xMax - r.xMin >= 20 && r.yMax - r.yMin >= 20
  {
  }

  /** With no padding, the clamp leaves a box inside the picture unchanged. */
  lemma ClampKeepsInside(b: BBox, h: int, w: int)
    requires 0 <= h && 0 <= w && Inside(b, h, w)
    ensures PadAndClamp(b, 0, h, w) == b
  {
  }

  /** A picture of `h` rows of `w` pixels each. */
  datatype Image<T> = Image(h: nat, w: nat, px: seq<seq<T>>)

  predicate Rectangular<T>(g: Image<T>) {
    |g.px| == g.h && forall i :: 0 <= i < |g.px| ==> |g.px[i]| == g.w
  }

  type Grid<T> = g: Image<T> | Rectangular(g) witness Image(0, 0, [])

  /** `cv2.rotate` codes, plus the identity used for the unrotated variant. */
  datatype Rotation = R0 | R90 | R180 | R270

  /** `cv2.flip` codes 1 (around the vertical axis) and 0 (around the horizontal axis),
      plus "no flip". */
  datatype Flip = NoFlip | FlipH | FlipV

  /** The picture `h` by `w` whose pixel `(i, j)` is `f(i, j)`. */
  function Tabulate<T>(h: nat, w: nat, f: (nat, nat) --> T): (g: Grid<T>)
    requires forall i, j :: 0 <= i < h && 0 <= j < w ==> f.requires(i, j)
    ensures g.h == h && g.w == w
    ensures forall i, j :: 0 <= i < h && 0 <= j < w ==> g.px[i][j] == f(i, j)
  {
    Image(h, w, seq(h, i requires 0 <= i < h => seq(w, j requires 0 <= j < w => f(i, j))))
  }

  /** `ROTATE_90_CLOCKWISE`: row `i` of the result is column `i` of the original, read
      from the bottom up. */
  function Rotate90<T>(g: Grid<T>): (r: Grid<T>)
    ensures r.h == g.w && r.w == g.h
    ensures forall i, j :: 0 <= i < r.h && 0 <= j < r.w ==> r.px[i][j] == g.px[g.h - 1 - j][i]
  {
    Tabulate(g.w, g.h, (i: nat, j: nat) requires i < g.w && j < g.h => g.px[g.h - 1 - j][i])
  }

  /** `ROTATE_180`: the original read backwards in both directions. */
  function Rotate180<T>(g: Grid<T>): (r: Grid<T>)
    ensures r.h == g.h && r.w == g.w
    ensures forall i, j :: 0 <= i < r.h && 0 <= j < r.w ==> r.px[i][j] == g.px[g.h - 1 - i][g.w - 1 - j]
  {
    Tabulate(g.h, g.w, (i: nat, j: nat) requires i < g.h && j < g.w => g.px[g.h - 1 - i][g.w - 1 - j])
  }

  /** `ROTATE_90_COUNTERCLOCKWISE`: row `i` of the result is column `w - 1 - i` of the
      source, read from the top down. */
  function Rotate270<T>(g: Grid<T>): (r: Grid<T>)
    ensures r.h == g.w && r.w == g.h
    ensures forall i, j :: 0 <= i < r.h && 0 <= j < r.w ==> r.px[i][j] == g.px[j][g.w - 1 - i]
  {
    Tabulate(g.w, g.h, (i: nat, j: nat) requires i < g.w && j < g.h => g.px[j][g.w - 1 - i])
  }

  /** `cv2.flip(img, 1)`: every row mirrored. */
  function MirrorRows<T>(g: Grid<T>): (r: Grid<T>)
    ensures r.h == g.h && r.w == g.w
    ensures forall i, j :: 0 <= i < r.h && 0 <= j < r.w ==> r.px[i][j] == g.px[i][g.w - 1 - j]
  {
    Tabulate(g.h, g.w, (i: nat, j: nat) requires i < g.h && j < g.w => g.px[i][g.w - 1 - j])
  }

  /** `cv2.flip(img, 0)`: the rows in reverse order. */
  function ReverseRows<T>(g: Grid<T>): (r: Grid<T>)
    ensures r.h == g.h && r.w == g.w
    ensures forall i, j :: 0 <= i < r.h && 0 <= j < r.w ==> r.px[i][j] == g.px[g.h - 1 - i][j]
  {
    Tabulate(g.h, g.w, (i: nat, j: nat) requires i < g.h && j < g.w => g.px[g.h - 1 - i][j])
  }

  function Rotate<T>(rot: Rotation, g: Grid<T>): Grid<T> {
    match rot
    case R0 => g
    case R90 => Rotate90(g)
    case R180 => Rotate180(g)
    case R270 => Rotate270(g)
  }

  function ApplyFlip<T>(f: Flip, g: Grid<T>): Grid<T> {
    match f
    case NoFlip => g
    case FlipH => MirrorRows(g)
    case FlipV => ReverseRows(g)
  }

  /** The shape of a variant of an `h` by `w` picture: quarter turns exchange height
      and width, half turns and flips keep them. */
  function VariantShape(rot: Rotation, h: nat, w: nat): (nat, nat) {
    if rot == R90 || rot == R270 then (w, h) else (h, w)
  }

  /** Where pixel `(i, j)` of a variant of an `h` by `w` picture comes from, variant by
      variant. */
  function SourcePixel(rot: Rotation, f: Flip, h: nat, w: nat, i: nat, j: nat): (p: (nat, nat))
    requires i < VariantShape(rot, h, w).0 && j < VariantShape(rot, h, w).1
    ensures p.0 < h && p.1 < w
  {
    match (rot, f)
    case (R0, NoFlip) => (i, j)
    case (R0, FlipH) => (i, w - 1 - j)
    case (R0, FlipV) => (h - 1 - i, j)
    case (R90, NoFlip) => (h - 1 - j, i)
    case (R90, FlipH) => (j, i)
    case (R90, FlipV) => (h - 1 - j, w - 1 - i)
    case (R180, NoFlip) => (h - 1 - i, w - 1 - j)
    case (R180, FlipH) => (h - 1 - i, j)
    case (R180, FlipV) => (i, w - 1 - j)
    case (R270, NoFlip) => (j, w - 1 - i)
    case (R270, FlipH) => (h - 1 - j, w - 1 - i)
    case (R270, FlipV) => (j, i)
  }

  /** One augmented picture: the flip is applied to the already-rotated picture, so
      every pixel of the variant is the original pixel the table above names. */
  function Augment<T>(rot: Rotation, f: Flip, g: Grid<T>): (r: Grid<T>)
    ensures (r.h, r.w) == VariantShape(rot, g.h, g.w)
    ensures forall i, j :: 0 <= i < r.h && 0 <= j < r.w ==>
      r.px[i][j] == g.px[SourcePixel(rot, f, g.h, g.w, i, j).0][SourcePixel(rot, f, g.h, g.w, i, j).1]
  {
    var r := ApplyFlip(f, Rotate(rot, g));
    AugmentPixels(rot, f, g);
    r
  }

  lemma AugmentPixels<T>(rot: Rotation, f: Flip, g: Grid<T>)
    ensures var r := ApplyFlip(f, Rotate(rot, g));
      (r.h, r.w) == VariantShape(rot, g.h, g.w)
      && forall i, j :: 0 <= i < r.h && 0 <= j < r.w ==>
        r.px[i][j] == g.px[SourcePixel(rot, f, g.h, g.w, i, j).0][SourcePixel(rot, f, g.h, g.w, i, j).1]
  {
    var r := ApplyFlip(f, Rotate(rot, g));
    RotateShape(rot, g);
    forall i, j | 0 <= i < r.h && 0 <= j < r.w
      ensures r.px[i][j] == g.px[SourcePixel(rot, f, g.h, g.w, i, j).0][SourcePixel(rot, f, g.h, g.w, i, j).1]
    {
      AugmentPixelAt(rot, f, g, i, j);
    }
  }

  lemma RotateShape<T>(rot: Rotation, g: Grid<T>)
    ensures (Rotate(rot, g).h, Rotate(rot, g).w) == VariantShape(rot, g.h, g.w)
  {
  }

  /** Where pixel `(i, j)` of a flipped `h` by `w` picture comes from. */
  function FlipSource(f: Flip, h: nat, w: nat, i: nat, j: nat): (p: (nat, nat))
    requires i < h && j < w
    ensures p.0 < h && p.1 < w
  {
    match f
    case NoFlip => (i, j)
    case FlipH => (i, w - 1 - j)
    case FlipV => (h - 1 - i, j)
  }

  /** Where pixel `(a, b)` of a rotated `h` by `w` picture comes from. */
  function RotateSource(rot: Rotation, h: nat, w: nat, a: nat, b: nat): (p: (nat, nat))
    requires a < VariantShape(rot, h, w).0 && b < VariantShape(rot, h, w).1
    ensures p.0 < h && p.1 < w
  {
    match rot
    case R0 => (a, b)
    case R90 => (h - 1 - b, a)
    case R180 => (h - 1 - a, w - 1 - b)
    case R270 => (b, w - 1 - a)
  }

  /** The table of variants is the flip's table followed by the rotation's. */
  lemma SourceCompose(rot: Rotation, f: Flip, h: nat, w: nat, i: nat, j: nat)
    requires i < VariantShape(rot, h, w).0 && j < VariantShape(rot, h, w).1
    ensures var s := VariantShape(rot, h, w);
      var p := FlipSource(f, s.0, s.1, i, j);
      SourcePixel(rot, f, h, w, i, j) == RotateSource(rot, h, w, p.0, p.1)
  {
  }

  /** One pixel of a variant: the flip picks a pixel of the rotated picture, and the
      rotation a pixel of the original. */
  lemma AugmentPixelAt<T>(rot: Rotation, f: Flip, g: Grid<T>, i: nat, j: nat)
    requires i < VariantShape(rot, g.h, g.w).0 && j < VariantShape(rot, g.h, g.w).1
    ensures ApplyFlip(f, Rotate(rot, g)).h == VariantShape(rot, g.h, g.w).0
    ensures ApplyFlip(f, Rotate(rot, g)).w == VariantShape(rot, g.h, g.w).1
    ensures ApplyFlip(f, Rotate(rot, g)).px[i][j]
      == g.px[SourcePixel(rot, f, g.h, g.w, i, j).0][SourcePixel(rot, f, g.h, g.w, i, j).1]
  {
    var q := Rotate(rot, g);
    RotateShape(rot, g);
    FlipShape(f, q);
    var p := FlipSource(f, q.h, q.w, i, j);
    FlipPixel(f, q, i, j);
    RotatePixel(rot, g, p.0, p.1);
    SourceCompose(rot, f, g.h, g.w, i, j);
  }

  lemma FlipShape<T>(f: Flip, q: Grid<T>)
    ensures ApplyFlip(f, q).h == q.h && ApplyFlip(f, q).w == q.w
  {
  }

  lemma FlipPixel<T>(f: Flip, q: Grid<T>, i: nat, j: nat)
    requires i < q.h && j < q.w
    ensures ApplyFlip(f, q).h == q.h && ApplyFlip(f, q).w == q.w
    ensures ApplyFlip(f, q).px[i][j] == q.px[FlipSource(f, q.h, q.w, i, j).0][FlipSource(f, q.h, q.w, i, j).1]
  {
  }

  lemma RotatePixel<T>(rot: Rotation, g: Grid<T>, a: nat, b: nat)
    requires a < VariantShape(rot, g.h, g.w).0 && b < VariantShape(rot, g.h, g.w).1
    ensures (Rotate(rot, g).h, Rotate(rot, g).w) == VariantShape(rot, g.h, g.w)
    ensures Rotate(rot, g).px[a][b]
      == g.px[RotateSource(rot, g.h, g.w, a, b).0][RotateSource(rot, g.h, g.w, a, b).1]
  {
  }

  /** Quarter turns exchange height and width; half turns and flips keep them. */
  lemma AugmentShape<T>(rot: Rotation, f: Flip, g: Grid<T>)
    ensures var r := Augment(rot, f, g);
      if rot == R90 || rot == R270 then r.h == g.w && r.w == g.h else r.h == g.h && r.w == g.w
  {
  }

  /** The twelve variants are only eight different pictures: a flip of one rotation is
      the other flip of the opposite rotation. */
  lemma VariantsCoincide<T>(g: Grid<T>)
    ensures Augment(R0, FlipH, g) == Augment(R180, FlipV, g)
    ensures Augment(R0, FlipV, g) == Augment(R180, FlipH, g)
    ensures Augment(R90, FlipH, g) == Augment(R270, FlipV, g)
    ensures Augment(R90, FlipV, g) == Augment(R270, FlipH, g)
  {
    SamePixels(Augment(R0, FlipH, g), Augment(R180, FlipV, g));
    SamePixels(Augment(R0, FlipV, g), Augment(R180, FlipH, g));
    SamePixels(Augment(R90, FlipH, g), Augment(R270, FlipV, g));
    SamePixels(Augment(R90, FlipV, g), Augment(R270, FlipH, g));
  }

  /** Two pictures of the same shape that agree on every pixel are the same picture. */
  lemma SamePixels<T>(a: Grid<T>, b: Grid<T>)
    requires a.h == b.h && a.w == b.w
    requires forall i, j :: 0 <= i < a.h && 0 <= j < a.w ==> a.px[i][j] == b.px[i][j]
    ensures a == b
  {
    forall i | 0 <= i < a.h
      ensures a.px[i] == b.px[i]
    {
      assert |a.px[i]| == |b.px[i]| == a.w;
    }
  }

  /** Two clockwise quarter turns make a half turn. */
  lemma TwoQuarterTurns<T>(g: Grid<T>)
    ensures Rotate90(Rotate90(g)) == Rotate180(g)
  {
    SamePixels(Rotate90(Rotate90(g)), Rotate180(g));
  }

  /** A counter-clockwise quarter turn is undone by a clockwise one. */
  lemma QuarterTurnsCancel<T>(g: Grid<T>)
    ensures Rotate90(Rotate270(g)) == g
    ensures Rotate270(Rotate90(g)) == g
  {
    SamePixels(Rotate90(Rotate270(g)), g);
    SamePixels(Rotate270(Rotate90(g)), g);
  }

  /** Mirroring the rows twice gives the picture back. */
  lemma MirrorTwice<T>(g: Grid<T>)
    ensures MirrorRows(MirrorRows(g)) == g
  {
    var m := MirrorRows(g);
    var r := MirrorRows(m);
    forall i, j | 0 <= i < g.h && 0 <= j < g.w
      ensures r.px[i][j] == g.px[i][j]
    {
      assert r.px[i][j] == m.px[i][g.w - 1 - j];
    }
    SamePixels(r, g);
  }

  /** Reversing the rows twice gives the picture back. */
  lemma ReverseTwice<T>(g: Grid<T>)
    ensures ReverseRows(ReverseRows(g)) == g
  {
    var m := ReverseRows(g);
    var r := ReverseRows(m);
    forall i, j | 0 <= i < g.h && 0 <= j < g.w
      ensures r.px[i][j] == g.px[i][j]
    {
      assert r.px[i][j] == m.px[g.h - 1 - i][j];
    }
    SamePixels(r, g);
  }

  /** Flipping around both axes is the half turn, so the variant `r0_fh` flipped again
      around the other axis equals `r180`. */
  lemma BothFlipsMakeHalfTurn<T>(g: Grid<T>)
    ensures MirrorRows(ReverseRows(g)) == Rotate180(g)
    ensures ReverseRows(MirrorRows(g)) == Rotate180(g)
  {
    SamePixels(MirrorRows(ReverseRows(g)), Rotate180(g));
    SamePixels(ReverseRows(MirrorRows(g)), Rotate180(g));
  }
}
