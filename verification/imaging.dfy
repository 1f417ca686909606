/**
  Pixel grids shared by the inference service and the dashboard: 8-bit RGB
  colours, row-major grids, the horizontal mirror of an image, and the
  palette colorization of a class mask.
 */
module Imaging {

  /** An 8-bit sample, as in a numpy `uint8` array. */
  type Byte = x: nat | x < 256

  datatype Rgb = Rgb(red: Byte, green: Byte, blue: Byte)

  /** The colour of a freshly zeroed `uint8` buffer. */
  const Black: Rgb := Rgb(0, 0, 0)

  /** A grid of rows; row `y` holds the pixels of image line `y`, left to right. */
  type Grid<T> = seq<seq<T>>

  /** `g` has exactly `height` rows of exactly `width` pixels. */
  predicate HasSize<T>(g: Grid<T>, height: nat, width: nat) {
    |g| == height && forall y :: 0 <= y < |g| ==> |g[y]| == width
  }

  /** `a` and `b` have the same number of rows, row by row of the same length. */
  predicate SameShape<T, U>(a: Grid<T>, b: Grid<U>) {
    |a| == |b| && forall y :: 0 <= y < |a| ==> |a[y]| == |b[y]|
  }

  // ---------------------------------------------------------------------------
  // Horizontal mirror (PIL's ImageOps.mirror): every row is reversed.
  // ---------------------------------------------------------------------------

  /** The column of the source image that lands in column `x` of a row of
      `width` pixels, with or without a mirror. */
  function SourceColumn(width: nat, x: nat, flip: bool): (c: nat)
    requires x < width
    ensures c < width
    ensures flip ==> c + x == width - 1
    ensures !flip ==> c == x
  {
    if flip then width - 1 - x else x
  }

  function Reverse<T>(s: seq<T>): (r: seq<T>)
    ensures |r| == |s|
    ensures forall i :: 0 <= i < |s| ==> r[i] == s[|s| - 1 - i]
  {
    seq(|s|, i requires 0 <= i < |s| => s[|s| - 1 - i])
  }

  function Mirror<T>(g: Grid<T>): (m: Grid<T>)
    ensures SameShape(m, g)
    ensures forall y, x :: 0 <= y < |g| && 0 <= x < |g[y]| ==>
              m[y][x] == g[y][SourceColumn(|g[y]|, x, true)]
  {
    seq(|g|, y requires 0 <= y < |g| => Reverse(g[y]))
  }

  /** The grid as displayed: mirrored exactly when `flip` is set. */
  function Oriented<T>(g: Grid<T>, flip: bool): (o: Grid<T>)
    ensures SameShape(o, g)
    ensures forall y, x :: 0 <= y < |g| && 0 <= x < |g[y]| ==>
              o[y][x] == g[y][SourceColumn(|g[y]|, x, flip)]
  {
    if flip then Mirror(g) else g
  }

  lemma ReverseInvolution<T>(s: seq<T>)
    ensures Reverse(Reverse(s)) == s
  {
  }

  /** Mirroring twice gives back the very same grid. */
  lemma MirrorInvolution<T>(g: Grid<T>)
    ensures Mirror(Mirror(g)) == g
  {
    forall y | 0 <= y < |g|
      ensures Mirror(Mirror(g))[y] == g[y]
    {
      ReverseInvolution(g[y]);
    }
  }

  // ---------------------------------------------------------------------------
  // Colorization of a class mask (`colorize_mask`).
  // ---------------------------------------------------------------------------

  /** The colour that direct palette lookup gives class `v`; a class the
      palette does not cover stays black. */
  function LookupColor(v: nat, palette: seq<Rgb>): Rgb {
    if v < |palette| then palette[v] else Black
  }

  /** `np.zeros((h, w, 3), dtype=np.uint8)`: a black canvas of the mask's shape. */
  function Blank(mask: Grid<nat>): (canvas: Grid<Rgb>)
    ensures SameShape(canvas, mask)
    ensures forall y, x :: 0 <= y < |canvas| && 0 <= x < |canvas[y]| ==> canvas[y][x] == Black
  {
    seq(|mask|, y requires 0 <= y < |mask| => seq(|mask[y]|, _ => Black))
  }

  /** `colored_mask[mask_array == i] = color`: paints every pixel of class `i`
      and leaves every other pixel as it was. */
  function Paint(canvas: Grid<Rgb>, mask: Grid<nat>, i: nat, color: Rgb): (out: Grid<Rgb>)
    requires SameShape(canvas, mask)
    ensures SameShape(out, mask)
    ensures forall y, x :: 0 <= y < |mask| && 0 <= x < |mask[y]| ==>
              out[y][x] == (if mask[y][x] == i then color else canvas[y][x])
  {
    seq(|mask|, y requires 0 <= y < |mask| =>
      seq(|mask[y]|, x requires 0 <= x < |mask[y]| =>
        if mask[y][x] == i then color else canvas[y][x]))
  }

  /** The canvas after the first `n` rounds of the loop over the palette:
      exactly the pixels of classes below `n` carry their palette colour. */
  function PaintClasses(mask: Grid<nat>, palette: seq<Rgb>, n: nat): (out: Grid<Rgb>)
    requires n <= |palette|
    ensures SameShape(out, mask)
    ensures forall y, x :: 0 <= y < |mask| && 0 <= x < |mask[y]| ==>
              out[y][x] == (if mask[y][x] < n then palette[mask[y][x]] else Black)
    decreases n
  {
    if n == 0 then Blank(mask)
    else Paint(PaintClasses(mask, palette, n - 1), mask, n - 1, palette[n - 1])
  }

  /** The loop `for i, color in enumerate(PALETTE)` run to completion. */
  function Colorize(mask: Grid<nat>, palette: seq<Rgb>): (img: Grid<Rgb>)
    ensures SameShape(img, mask)
    ensures forall y, x :: 0 <= y < |mask| && 0 <= x < |mask[y]| ==>
              img[y][x] == LookupColor(mask[y][x], palette)
  {
    PaintClasses(mask, palette, |palette|)
  }
}
