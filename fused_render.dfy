/**
 * The bundle's `drawGrid` of d3-grid-map.js: one nested y/x loop that
 * resolves each pixel through the projection's inverse and copies all four
 * grid bytes, skipping pixels the inverse misses, pixels outside the
 * lon/lat box and cells whose alpha reads 0. It is compared here with the
 * two-pass `drawGrid` of src/index.js.
 */
module FusedRender {
  import opened Wrappers
  import opened JsNumbers
  import opened GridCells
  import opened GridMapWidget

  /** Whether the fused loop skips a pixel whose screen index is `entry`. */
  predicate Skipped(data: seq<Byte>, entry: Option<int>)
  {
    entry.None? || ReadAt(data, entry, 3) == Some(0)
  }

  /**
   * The byte the fused loop leaves at channel k of a pixel: the old byte
   * for a skipped pixel, otherwise grid byte q*4 + k (0 when that read is
   * outside the grid).
   */
  function FusedPixelByte(prev: Byte, data: seq<Byte>, entry: Option<int>, k: int): Byte
  {
    if Skipped(data, entry) then prev else Stored(ReadAt(data, entry, k))
  }

  /** The image after the fused loop's visit of pixel i. */
  function FusedPixel(image: seq<Byte>, data: seq<Byte>, i: int, entry: Option<int>): seq<Byte>
  {
    if Skipped(data, entry) then image
    else
      Assigned(Assigned(Assigned(Assigned(image,
        4 * i, Stored(ReadAt(data, entry, 0))),
        4 * i + 1, Stored(ReadAt(data, entry, 1))),
        4 * i + 2, Stored(ReadAt(data, entry, 2))),
        4 * i + 3, Stored(ReadAt(data, entry, 3)))
  }

  /** The image after the fused loop has visited the pixels whose screen indices are `entries`, in order. */
  function FusedRendered(image: seq<Byte>, data: seq<Byte>, entries: seq<Option<int>>): seq<Byte>
  {
    if |entries| == 0 then image
    else
      var n := |entries| - 1;
      FusedPixel(FusedRendered(image, data, entries[..n]), data, n, entries[n])
  }

  /**
   * Byte j of the fused image belongs to pixel j/4, channel j%4, and is
   * what `FusedPixelByte` says of that pixel's screen index; bytes past the
   * visited pixels keep their old value.
   */
  lemma {:induction false} FusedRenderedAt(image: seq<Byte>, data: seq<Byte>, entries: seq<Option<int>>)
    ensures |FusedRendered(image, data, entries)| == |image|
    ensures forall j :: 0 <= j < |image| ==>
      FusedRendered(image, data, entries)[j]
        == if j / 4 < |entries| then FusedPixelByte(image[j], data, entries[j / 4], j % 4) else image[j]
  {
    if |entries| > 0 {
      var n := |entries| - 1;
      var init := entries[..n];
      FusedRenderedAt(image, data, init);
      FusedPixelAt(FusedRendered(image, data, init), data, n, entries[n]);
      forall j | 0 <= j < |image| && j / 4 < n
        ensures init[j / 4] == entries[j / 4]
      {
      }
    }
  }

  /** One pixel's stores touch only the four bytes of that pixel. */
  lemma FusedPixelAt(image: seq<Byte>, data: seq<Byte>, i: nat, entry: Option<int>)
    ensures |FusedPixel(image, data, i, entry)| == |image|
    ensures forall j :: 0 <= j < |image| ==>
      FusedPixel(image, data, i, entry)[j] == if j / 4 == i then FusedPixelByte(image[j], data, entry, j % 4) else image[j]
  {
    forall j | 0 <= j < |image| && j / 4 == i
      ensures FusedPixel(image, data, i, entry)[j] == FusedPixelByte(image[j], data, entry, j % 4)
    {
      assert j == 4 * i + j % 4;
    }
  }

  /** The fused loop's body for pixel i with screen index q: skip, or copy the four grid bytes. */
  method VisitPixel(image: array<Byte>, data: seq<Byte>, i: int, q: Option<int>)
    modifies image
    ensures image[..] == FusedPixel(old(image[..]), data, i, q)
  {
    if q.Some? && Read(data, q.value * 4 + 3) != Some(0) {
      var k := 4 * i;
      var r, g, b, a := Stored(Read(data, q.value * 4)), Stored(Read(data, q.value * 4 + 1)),
                        Stored(Read(data, q.value * 4 + 2)), Stored(Read(data, q.value * 4 + 3));
      Store(image, k, r);
      Store(image, k + 1, g);
      Store(image, k + 2, b);
      Store(image, k + 3, a);
    }
  }

  /** Visiting pixel p after the first p pixels gives the rendering of the first p + 1. */
  lemma FusedPrefixStep(image: seq<Byte>, data: seq<Byte>, m: seq<Option<int>>, p: nat)
    requires p < |m|
    ensures FusedRendered(image, data, m[..p + 1]) == FusedPixel(FusedRendered(image, data, m[..p]), data, p, m[p])
  {
    assert m[..p + 1][..p] == m[..p];
  }

  /**
   * The bundle's `drawGrid(grid)` over the canvas image of a width x height
   * canvas: for every pixel in row-major order, the screen index q of its
   * inverse, then the four bytes at q*4 copied unless alpha reads 0.
   */
  method DrawGridFused(image: array<Byte>, grid: Grid, invert: Inverse, width: nat, height: nat)
    modifies image
    ensures image[..] == FusedRendered(old(image[..]), grid.data, IndexMap(invert, grid.rows, grid.cols, width, height))
  {
    IndexMapEntries(invert, grid.rows, grid.cols, width, height);
    DrawRowsFused(image, grid, invert, width, height, IndexMap(invert, grid.rows, grid.cols, width, height));
  }

  /** The outer loop of the bundle's `drawGrid`, over an indexMap `m` given by its entries. */
  method DrawRowsFused(image: array<Byte>, grid: Grid, invert: Inverse, width: nat, height: nat,
                       ghost m: seq<Option<int>>)
    requires |m| == width * height
    requires forall p :: width > 0 && 0 <= p < |m| ==> m[p] == PixelEntry(invert, grid.rows, grid.cols, width, p)
    modifies image
    ensures image[..] == FusedRendered(old(image[..]), grid.data, m)
  {
    ghost var before := image[..];
    ghost var start := 0;
    var y := 0;
    while y < height
      invariant 0 <= y <= height
      invariant start == width * y && start <= |m|
      invariant image[..] == FusedRendered(before, grid.data, m[..start])
    {
      NextRow(width, height, y);
      DrawRowFused(image, grid, invert, width, y, start, before, m);
      start := start + width;
      y := y + 1;
    }
    assert m[..start] == m;
  }

  /** Row y + 1 starts one row width after row y, and a row below the last ends inside the canvas. */
  lemma NextRow(width: nat, height: nat, y: nat)
    requires y < height
    ensures width * (y + 1) == width * y + width <= width * height
  {
    MulMono(y + 1, height, width);
  }

  /** The inner loop of the bundle's `drawGrid`: the pixels of row y, which start at `start`, left to right. */
  method DrawRowFused(image: array<Byte>, grid: Grid, invert: Inverse, width: nat, y: nat,
                      ghost start: nat, ghost before: seq<Byte>, ghost m: seq<Option<int>>)
    requires start == width * y && start + width <= |m|
    requires forall p :: start <= p < start + width ==> m[p] == PixelEntry(invert, grid.rows, grid.cols, width, p)
    requires image[..] == FusedRendered(before, grid.data, m[..start])
    modifies image
    ensures image[..] == FusedRendered(before, grid.data, m[..start + width])
  {
    var x := 0;
    while x < width
      invariant 0 <= x <= width
      invariant image[..] == FusedRendered(before, grid.data, m[..start + x])
    {
      var pixel := x + width * y;
      RowEntry(m, invert, grid.rows, grid.cols, width, x, y);
      var q := ScreenCoordinatesToGridIndex(invert((x, y)), grid.rows, grid.cols);
      VisitNextPixel(image, grid.data, pixel, q, before, m);
      x := x + 1;
    }
  }

  /** The fused loop's visit of pixel p extends the rendering of the first p pixels to the first p + 1. */
  method VisitNextPixel(image: array<Byte>, data: seq<Byte>, pixel: nat, q: Option<int>,
                        ghost before: seq<Byte>, ghost m: seq<Option<int>>)
    requires pixel < |m| && m[pixel] == q
    requires image[..] == FusedRendered(before, data, m[..pixel])
    modifies image
    ensures image[..] == FusedRendered(before, data, m[..pixel + 1])
  {
    FusedPrefixStep(before, data, m, pixel);
    VisitPixel(image, data, pixel, q);
  }

  /** Entry x + width*y of an indexMap row is the screen index of pixel (x, y). */
  lemma RowEntry(m: seq<Option<int>>, invert: Inverse, rows: int, cols: int, width: nat, x: nat, y: nat)
    requires x < width && width * y + width <= |m|
    requires forall p :: width * y <= p < width * y + width ==> m[p] == PixelEntry(invert, rows, cols, width, p)
    ensures x + width * y < |m| && m[x + width * y] == ScreenCoordinatesToGridIndex(invert((x, y)), rows, cols)
  {
    PixelPosition(width, x, y);
  }

  /**
   * Where the two renderers of the same indexMap agree and differ, byte by
   * byte: on a pixel with a screen index, red, green and blue agree; on a
   * pixel without one, src/index.js writes 0 to red, green and blue where
   * the bundle keeps the old bytes; the alpha byte src/index.js never
   * writes, the bundle copies from the grid unless it skips the pixel.
   */
  lemma SplitVersusFused(image: seq<Byte>, data: seq<Byte>, m: seq<Option<int>>, j: int)
    requires 0 <= j < |image| && j / 4 < |m|
    ensures |SplitRendered(image, data, m)| == |FusedRendered(image, data, m)| == |image|
    ensures j % 4 < 3 && m[j / 4].Some? ==>
      SplitRendered(image, data, m)[j] == FusedRendered(image, data, m)[j]
    ensures j % 4 < 3 && m[j / 4].None? ==>
      SplitRendered(image, data, m)[j] == 0 && FusedRendered(image, data, m)[j] == image[j]
    ensures j % 4 == 3 ==>
      && SplitRendered(image, data, m)[j] == image[j]
      && FusedRendered(image, data, m)[j]
        == if Skipped(data, m[j / 4]) then image[j] else Stored(ReadAt(data, m[j / 4], 3))
  {
    SplitRenderedAt(image, data, m);
    FusedRenderedAt(image, data, m);
  }

  /**
   * On a canvas whose every pixel has a screen index, the two renderers
   * paint the same red, green and blue.
   */
  lemma SameColoursWhenInverseTotal(image: seq<Byte>, data: seq<Byte>, m: seq<Option<int>>)
    requires |image| == 4 * |m|
    requires forall p :: 0 <= p < |m| ==> m[p].Some?
    ensures |SplitRendered(image, data, m)| == |FusedRendered(image, data, m)| == |image|
    ensures forall j :: 0 <= j < |image| && j % 4 < 3 ==>
      SplitRendered(image, data, m)[j] == FusedRendered(image, data, m)[j]
  {
    SplitRenderedAt(image, data, m);
    FusedRenderedAt(image, data, m);
    forall j | 0 <= j < |image| && j % 4 < 3
      ensures |SplitRendered(image, data, m)| == |FusedRendered(image, data, m)| == |image|
      ensures SplitRendered(image, data, m)[j] == FusedRendered(image, data, m)[j]
    {
      assert j / 4 < |m|;
      SplitVersusFused(image, data, m, j);
    }
  }
}
