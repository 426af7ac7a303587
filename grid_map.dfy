/**
 * The GridMap widget of src/index.js: resolving a screen pixel to a grid
 * index through the projection's inverse, the indexMap of a whole canvas,
 * the copy of grid bytes into the canvas image, the hover pick, and the
 * layer stack with its ordering, removal, rendering filter and zoom levels.
 */
module GridMapWidget {
  import opened Wrappers
  import opened JsNumbers
  import opened GridCells
  import opened Layers
  import opened DataImport

  /** `projection.invert([x, y])`: a [λ, φ] pair, or a falsy result off the projection. */
  type Inverse = ((int, int)) -> Option<(real, real)>

  /** `~~((90 - φ) / 180 * rows)`: the row as the screen resolution computes it. */
  function ScreenRow(rows: int, lat: real): int
  {
    DoubleTilde((90.0 - lat) / 180.0 * (rows as real))
  }

  /**
   * `screenCoordinatesToGridIndex`: undefined when the inverse is falsy or
   * lands outside [-180, 180] x [-90, 90], otherwise
   * `~~(row * cols + (180 + λ) / 360 * cols + 1.0)`.
   */
  function ScreenCoordinatesToGridIndex(p: Option<(real, real)>, rows: int, cols: int): (r: Option<int>)
    ensures r.None? <==> p.None? || !(-180.0 <= p.value.0 <= 180.0 && -90.0 <= p.value.1 <= 90.0)
  {
    match p
    case None => None
    case Some((lon, lat)) =>
      if !(lon <= 180.0 && lon >= -180.0 && lat <= 90.0 && lat >= -90.0) then None
      else Some(ScreenIndexValue(ScreenRow(rows, lat) * cols, cols, lon))
  }

  /** `~~(rowTimesCols + (180 + λ) / 360 * cols + 1.0)`. */
  function ScreenIndexValue(rowTimesCols: int, cols: int, lon: real): int
  {
    DoubleTilde((rowTimesCols as real) + (180.0 + lon) / 360.0 * (cols as real) + 1.0)
  }

  /** The two ways the source writes the row coordinate agree. */
  lemma LatFractionForms(rows: int, lat: real)
    ensures (90.0 - lat) / 180.0 * (rows as real) == rows as real - (lat + 90.0) / 180.0 * (rows as real)
  {
    assert (90.0 - lat) / 180.0 == 1.0 - (lat + 90.0) / 180.0;
  }

  /** The screen row formula is the row `coordinatesToCellId` uses. */
  lemma ScreenRowIsRowOf(rows: int, lat: real)
    ensures ScreenRow(rows, lat) == RowOf(rows, lat)
  {
    LatFractionForms(rows, lat);
  }

  /** `~~` of a non-negative integer plus a non-negative fraction plus one, below 2^31. */
  lemma DoubleTildeShift(a: int, f: real)
    requires 0 <= a && 0.0 <= f && a + f.Floor + 1 < TwoTo31
    ensures DoubleTilde((a as real) + f + 1.0) == a + f.Floor + 1
  {
    var x := (a as real) + f + 1.0;
    assert x.Floor == a + f.Floor + 1;
    TruncSmall(x, TwoTo31);
  }

  /**
   * Inside lon in [-180, 180) and lat in (-90, 90], on a grid of fewer than
   * 2^31 cells, the screen index is exactly `coordinatesToCellId` of the
   * point: floor((90 - φ)/180 * rows) * cols + floor((180 + λ)/360 * cols) + 1,
   * a cell in 1..rows*cols.
   */
  lemma ScreenIndexIsCellId(rows: int, cols: int, lon: real, lat: real)
    requires 0 < rows && 0 < cols && rows * cols < TwoTo31
    requires -180.0 <= lon < 180.0 && -90.0 < lat <= 90.0
    ensures ScreenCoordinatesToGridIndex(Some((lon, lat)), rows, cols)
      == Some(CoordinatesToCellId(rows, cols, Point(lon, lat)))
    ensures var id := CoordinatesToCellId(rows, cols, Point(lon, lat));
      1 <= id <= rows * cols
      && id == ((90.0 - lat) / 180.0 * (rows as real)).Floor * cols + ((lon + 180.0) / 360.0 * (cols as real)).Floor + 1
  {
    FactorBound(rows, cols);
    var p := Point(lon, lat);
    var row, col := RowOf(rows, lat), ColumnOf(cols, lon);
    RowOfFloor(rows, lat);
    ColumnOfFloor(cols, lon);
    CellIdBound(rows, cols, row, col);
    MulMono(0, row, cols);
    ScreenRowIsRowOf(rows, lat);
    ScreenIndexValueShift(row * cols, cols, lon);
    CoordinatesToCellIdInRange(rows, cols, p);
    LatFractionForms(rows, lat);
  }

  /** Past a whole number of rows, `~~` of the screen index adds the column and the 1. */
  lemma ScreenIndexValueShift(rowTimesCols: int, cols: int, lon: real)
    requires 0 <= rowTimesCols && 0 < cols <= TwoTo31 && -180.0 <= lon < 180.0
    requires rowTimesCols + ColumnOf(cols, lon) + 1 < TwoTo31
    ensures ScreenIndexValue(rowTimesCols, cols, lon) == rowTimesCols + ColumnOf(cols, lon) + 1
  {
    var f := (180.0 + lon) / 360.0 * (cols as real);
    ColumnOfFloor(cols, lon);
    DoubleTildeShift(rowTimesCols, f);
  }

  /**
   * The bounds test admits the closed box: at φ = -90, or at λ = 180, the
   * index runs past rows*cols (here a 2 x 2 grid gives 6 and 5).
   */
  lemma ScreenIndexCanExceedGrid()
    ensures ScreenCoordinatesToGridIndex(Some((0.0, -90.0)), 2, 2) == Some(6)
    ensures ScreenCoordinatesToGridIndex(Some((180.0, -45.0)), 2, 2) == Some(5)
  {
    assert ScreenRow(2, -90.0) == 2 by {
      assert (90.0 - -90.0) / 180.0 * 2.0 == 2.0;
    }
    assert ScreenRow(2, -45.0) == 1 by {
      assert (90.0 - -45.0) / 180.0 * 2.0 == 1.5;
    }
  }

  /** The entry of pixel p = x + width*y of an indexMap. */
  function PixelEntry(invert: Inverse, rows: int, cols: int, width: int, p: int): Option<int>
    requires width > 0
  {
    ScreenCoordinatesToGridIndex(invert((p % width, p / width)), rows, cols)
  }

  /** Pixel x + width*y of a row-major canvas is column x of row y. */
  lemma PixelPosition(width: int, x: int, y: int)
    requires 0 <= x < width
    ensures (x + width * y) % width == x && (x + width * y) / width == y
  {
    DivModUnique(x + width * y, width, y, x);
  }

  /** x + width*y of an in-canvas pixel lies below width*height. */
  lemma PixelBound(width: int, height: int, x: int, y: int)
    requires 0 <= x < width && 0 <= y < height
    ensures 0 <= x + width * y < width * height
  {
    MulMono(y, height - 1, width);
    assert (height - 1) * width == width * height - width;
    MulMono(0, y, width);
  }

  /** The whole indexMap of a width x height canvas, in row-major pixel order. */
  function IndexMap(invert: Inverse, rows: int, cols: int, width: nat, height: nat): (m: seq<Option<int>>)
    ensures |m| == width * height
  {
    if width == 0 then []
    else seq(width * height, p requires 0 <= p < width * height => PixelEntry(invert, rows, cols, width, p))
  }

  /** Entry x + width*y of the indexMap is the screen index of pixel (x, y). */
  lemma IndexMapAt(invert: Inverse, rows: int, cols: int, width: nat, height: nat, x: int, y: int)
    requires 0 <= x < width && 0 <= y < height
    ensures 0 <= x + width * y < width * height
    ensures IndexMap(invert, rows, cols, width, height)[x + width * y]
      == ScreenCoordinatesToGridIndex(invert((x, y)), rows, cols)
  {
    PixelBound(width, height, x, y);
    PixelPosition(width, x, y);
  }

  /** Every entry of the indexMap is the screen index of the pixel at that position. */
  lemma IndexMapEntries(invert: Inverse, rows: int, cols: int, width: nat, height: nat)
    ensures forall p :: width > 0 && 0 <= p < |IndexMap(invert, rows, cols, width, height)| ==>
      IndexMap(invert, rows, cols, width, height)[p] == PixelEntry(invert, rows, cols, width, p)
  {
  }

  /**
   * `drawGrid`'s nested y/x loop filling `indexMap[x + width*y]` with the
   * screen index of every pixel.
   */
  method BuildIndexMap(invert: Inverse, rows: int, cols: int, width: nat, height: nat)
    returns (indexMap: seq<Option<int>>)
    ensures indexMap == IndexMap(invert, rows, cols, width, height)
  {
    indexMap := [];
    if width == 0 {
      return;
    }
    var y := 0;
    while y < height
      invariant 0 <= y <= height
      invariant |indexMap| == width * y
      invariant forall p :: 0 <= p < |indexMap| ==> indexMap[p] == PixelEntry(invert, rows, cols, width, p)
    {
      var x := 0;
      while x < width
        invariant 0 <= x <= width
        invariant |indexMap| == width * y + x
        invariant forall p :: 0 <= p < |indexMap| ==> indexMap[p] == PixelEntry(invert, rows, cols, width, p)
      {
        var imageIndex := x + width * y;
        PixelPosition(width, x, y);
        var gridIndex := ScreenCoordinatesToGridIndex(invert((x, y)), rows, cols);
        // `indexMap[imageIndex] = gridIndex` writes one past the end: an append
        assert imageIndex == |indexMap|;
        indexMap := indexMap + [gridIndex];
        x := x + 1;
      }
      y := y + 1;
    }
    assert |indexMap| == width * height;
  }

  /**
   * The byte src/index.js's `renderGridToCanvas` leaves at channel k of a
   * pixel with entry `entry`: skipped when the grid alpha reads exactly 0;
   * otherwise the doubled first write leaves the alpha byte untouched and
   * copies only red, green and blue, an undefined read storing 0.
   */
  function SplitPixelByte(prev: Byte, data: seq<Byte>, entry: Option<int>, k: int): Byte
  {
    if k == 3 || ReadAt(data, entry, 3) == Some(0) then prev else Stored(ReadAt(data, entry, k))
  }

  /** The image after one entry of src/index.js's `renderGridToCanvas`. */
  function SplitPixel(image: seq<Byte>, data: seq<Byte>, i: int, entry: Option<int>): seq<Byte>
  {
    if ReadAt(data, entry, 3) == Some(0) then image
    else
      Assigned(Assigned(Assigned(Assigned(image,
        4 * i, Stored(ReadAt(data, entry, 0))),
        4 * i, Stored(ReadAt(data, entry, 0))),
        4 * i + 1, Stored(ReadAt(data, entry, 1))),
        4 * i + 2, Stored(ReadAt(data, entry, 2)))
  }

  /** The image after src/index.js's `renderGridToCanvas(grid, indexMap)`. */
  function SplitRendered(image: seq<Byte>, data: seq<Byte>, indexMap: seq<Option<int>>): seq<Byte>
  {
    if |indexMap| == 0 then image
    else
      var n := |indexMap| - 1;
      SplitPixel(SplitRendered(image, data, indexMap[..n]), data, n, indexMap[n])
  }

  /**
   * Byte j of the rendered image belongs to pixel j/4, channel j%4, and is
   * what `SplitPixelByte` says of that pixel's entry; bytes past the
   * indexMap keep their old value.
   */
  lemma {:induction false} SplitRenderedAt(image: seq<Byte>, data: seq<Byte>, indexMap: seq<Option<int>>)
    ensures |SplitRendered(image, data, indexMap)| == |image|
    ensures forall j :: 0 <= j < |image| ==>
      SplitRendered(image, data, indexMap)[j]
        == if j / 4 < |indexMap| then SplitPixelByte(image[j], data, indexMap[j / 4], j % 4) else image[j]
  {
    if |indexMap| > 0 {
      var n := |indexMap| - 1;
      var init := indexMap[..n];
      SplitRenderedAt(image, data, init);
      SplitPixelAt(SplitRendered(image, data, init), data, n, indexMap[n]);
      forall j | 0 <= j < |image| && j / 4 < n
        ensures init[j / 4] == indexMap[j / 4]
      {
      }
    }
  }

  /** One pixel's stores touch only the four bytes of that pixel. */
  lemma SplitPixelAt(image: seq<Byte>, data: seq<Byte>, i: nat, entry: Option<int>)
    ensures |SplitPixel(image, data, i, entry)| == |image|
    ensures forall j :: 0 <= j < |image| ==>
      SplitPixel(image, data, i, entry)[j] == if j / 4 == i then SplitPixelByte(image[j], data, entry, j % 4) else image[j]
  {
    forall j | 0 <= j < |image| && j / 4 == i
      ensures SplitPixel(image, data, i, entry)[j] == SplitPixelByte(image[j], data, entry, j % 4)
    {
      assert j == 4 * i + j % 4;
    }
  }

  /**
   * src/index.js's `renderGridToCanvas`: for each entry, skip when the grid
   * alpha reads 0, else the writes of lines 252-255 in order.
   */
  method RenderGridToCanvas(image: array<Byte>, data: seq<Byte>, indexMap: seq<Option<int>>)
    modifies image
    ensures image[..] == SplitRendered(old(image[..]), data, indexMap)
  {
    ghost var before := image[..];
    var i := 0;
    while i < |indexMap|
      invariant 0 <= i <= |indexMap|
      invariant image[..] == SplitRendered(before, data, indexMap[..i])
    {
      assert indexMap[..i + 1][..i] == indexMap[..i];
      var imageIndexT4 := i * 4;
      var gridIndexT4 := indexMap[i];
      if ReadAt(data, gridIndexT4, 3) != Some(0) {
        Store(image, imageIndexT4, Stored(ReadAt(data, gridIndexT4, 0)));
        Store(image, imageIndexT4, Stored(ReadAt(data, gridIndexT4, 0)));
        Store(image, imageIndexT4 + 1, Stored(ReadAt(data, gridIndexT4, 1)));
        Store(image, imageIndexT4 + 2, Stored(ReadAt(data, gridIndexT4, 2)));
      }
      i := i + 1;
    }
    assert indexMap[..i] == indexMap;
  }

  /** src/index.js's `drawGrid`: build the indexMap, then copy the grid through it. */
  method DrawGrid(image: array<Byte>, grid: Grid, invert: Inverse, width: nat, height: nat)
    modifies image
    ensures image[..] == SplitRendered(old(image[..]), grid.data, IndexMap(invert, grid.rows, grid.cols, width, height))
  {
    var indexMap := BuildIndexMap(invert, grid.rows, grid.cols, width, height);
    RenderGridToCanvas(image, grid.data, indexMap);
  }

  /** The stacking key of a layer, `options.zIndex`. */
  function ZOf(l: Layer): real
  {
    l.options.zIndex
  }

  predicate SortedByZ(s: seq<Layer>)
  {
    forall i, j :: 0 <= i < j < |s| ==> ZOf(s[i]) <= ZOf(s[j])
  }

  /** The layers of `s` whose zIndex is `z`, in their order in `s`. */
  function WithZ(s: seq<Layer>, z: real): seq<Layer>
  {
    if |s| == 0 then []
    else WithZ(s[..|s| - 1], z) + (if ZOf(s[|s| - 1]) == z then [s[|s| - 1]] else [])
  }

  lemma {:induction false} WithZAppend(s: seq<Layer>, t: seq<Layer>, z: real)
    ensures WithZ(s + t, z) == WithZ(s, z) + WithZ(t, z)
  {
    if |t| > 0 {
      var n := |t| - 1;
      assert (s + t)[..|s + t| - 1] == s + t[..n];
      WithZAppend(s, t[..n], z);
    } else {
      assert s + t == s;
    }
  }

  /**
   * The slot after the last layer of `s` whose zIndex is at most `z`:
   * every layer from the slot on has a greater zIndex.
   */
  function UpperBound(s: seq<Layer>, z: real): (k: nat)
    ensures k <= |s|
    ensures k > 0 ==> ZOf(s[k - 1]) <= z
    ensures forall i :: k <= i < |s| ==> ZOf(s[i]) > z
  {
    if |s| == 0 then 0
    else if ZOf(s[|s| - 1]) <= z then |s|
    else UpperBound(s[..|s| - 1], z)
  }

  /** `x` placed into `s` at the upper bound of its zIndex. */
  function InsertByZ(s: seq<Layer>, x: Layer): seq<Layer>
  {
    var k := UpperBound(s, ZOf(x));
    s[..k] + [x] + s[k..]
  }

  /** Inserting adds exactly `x` and keeps a sorted stack sorted. */
  lemma InsertByZPermutesAndSorts(s: seq<Layer>, x: Layer)
    ensures |InsertByZ(s, x)| == |s| + 1
    ensures multiset(InsertByZ(s, x)) == multiset(s) + multiset{x}
    ensures SortedByZ(s) ==> SortedByZ(InsertByZ(s, x))
  {
    var k := UpperBound(s, ZOf(x));
    var r := InsertByZ(s, x);
    InsertCount(s, x, k);
    InsertedSorted(s, x, k, r);
  }

  lemma InsertedSorted(s: seq<Layer>, x: Layer, k: nat, r: seq<Layer>)
    requires k == UpperBound(s, ZOf(x)) && r == s[..k] + [x] + s[k..]
    ensures SortedByZ(s) ==> SortedByZ(r)
  {
    if SortedByZ(s) {
      InsertIndices(s, x, k);
      forall i, j | 0 <= i < j < |r| ensures ZOf(r[i]) <= ZOf(r[j]) {
        if j < k {
          assert r[i] == s[i] && r[j] == s[j];
        } else if j == k {
          assert r[i] == s[i] && ZOf(s[i]) <= ZOf(s[k - 1]);
        } else if i < k {
          assert r[i] == s[i] && r[j] == s[j - 1] && ZOf(s[i]) <= ZOf(s[k - 1]);
        } else if i == k {
          assert r[j] == s[j - 1];
        } else {
          assert r[i] == s[i - 1] && r[j] == s[j - 1];
        }
      }
    }
  }

  /** Inserting `x` at any slot adds one copy of `x` and nothing else. */
  lemma InsertCount<T>(s: seq<T>, x: T, k: nat)
    requires k <= |s|
    ensures multiset(s[..k] + [x] + s[k..]) == multiset(s) + multiset{x}
  {
    calc {
      multiset(s[..k] + [x] + s[k..]);
      multiset(s[..k]) + multiset{x} + multiset(s[k..]);
      { assert s == s[..k] + s[k..]; }
      multiset(s) + multiset{x};
    }
  }

  /** Entry i of `s` with `x` inserted at slot k is entry i of `s` before the slot, `x` at it, entry i - 1 after it. */
  lemma InsertIndices<T>(s: seq<T>, x: T, k: nat)
    requires k <= |s|
    ensures |s[..k] + [x] + s[k..]| == |s| + 1 && (s[..k] + [x] + s[k..])[k] == x
    ensures forall i :: 0 <= i < k ==> (s[..k] + [x] + s[k..])[i] == s[i]
    ensures forall i :: k <= i < |s| ==> (s[..k] + [x] + s[k..])[i + 1] == s[i]
  {
  }

  /** The stable ascending sort `layers.sort((a, b) => a.zIndex - b.zIndex)`, as an insertion sort. */
  function StableSortByZ(s: seq<Layer>): (r: seq<Layer>)
    ensures multiset(r) == multiset(s)
    ensures SortedByZ(r)
  {
    if |s| == 0 then []
    else
      var init, last := s[..|s| - 1], s[|s| - 1];
      assert s == init + [last];
      InsertByZPermutesAndSorts(StableSortByZ(init), last);
      InsertByZ(StableSortByZ(init), last)
  }

  /** A stack none of whose layers has zIndex `z` has no layer with zIndex `z`. */
  lemma {:induction false} WithZNone(s: seq<Layer>, z: real)
    requires forall i :: 0 <= i < |s| ==> ZOf(s[i]) != z
    ensures WithZ(s, z) == []
  {
    if |s| > 0 {
      WithZNone(s[..|s| - 1], z);
    }
  }

  /** Past the upper bound of z no layer has zIndex z. */
  lemma NoTiesAfterUpperBound(s: seq<Layer>, z: real)
    ensures WithZ(s[UpperBound(s, z)..], z) == []
  {
    var k := UpperBound(s, z);
    var post := s[k..];
    forall i | 0 <= i < |post| ensures ZOf(post[i]) != z {
      assert post[i] == s[k + i];
    }
    WithZNone(post, z);
  }

  lemma WithZSingle(x: Layer, z: real)
    ensures WithZ([x], z) == if ZOf(x) == z then [x] else []
  {
    assert [x][..0] == [];
  }

  /** Inserting keeps the layers of every zIndex in their order, the new one last among its equals. */
  lemma InsertByZKeepsTies(s: seq<Layer>, x: Layer, z: real)
    ensures WithZ(InsertByZ(s, x), z) == WithZ(s, z) + WithZ([x], z)
  {
    var k := UpperBound(s, ZOf(x));
    var pre, post := s[..k], s[k..];
    assert s == pre + post;
    assert InsertByZ(s, x) == pre + [x] + post;
    WithZAppend(pre + [x], post, z);
    WithZAppend(pre, [x], z);
    WithZAppend(pre, post, z);
    var a, b, c := WithZ(pre, z), WithZ([x], z), WithZ(post, z);
    assert WithZ(InsertByZ(s, x), z) == a + b + c;
    assert WithZ(s, z) == a + c;
    if ZOf(x) == z {
      NoTiesAfterUpperBound(s, z);
      assert c == [];
      assert a + b + c == a + b;
      assert a + c == a;
    } else {
      WithZSingle(x, z);
      assert b == [];
      assert a + b + c == a + c;
      assert a + c + b == a + c;
    }
  }

  /** The sort is stable: the layers sharing a zIndex keep their relative order. */
  lemma {:induction false} StableSortKeepsTies(s: seq<Layer>, z: real)
    ensures WithZ(StableSortByZ(s), z) == WithZ(s, z)
  {
    if |s| > 0 {
      var init := s[..|s| - 1];
      var last := s[|s| - 1];
      assert s == init + [last];
      StableSortKeepsTies(init, z);
      InsertByZKeepsTies(StableSortByZ(init), last, z);
      WithZAppend(init, [last], z);
    }
  }

  /** A layer whose zIndex is at least that of the last layer goes on top. */
  lemma InsertOnTop(s: seq<Layer>, x: Layer)
    requires |s| > 0 ==> ZOf(s[|s| - 1]) <= ZOf(x)
    ensures InsertByZ(s, x) == s + [x]
  {
    var k := UpperBound(s, ZOf(x));
    assert k == |s|;
    assert s[..k] == s && s[k..] == [];
  }

  /** Sorting an already sorted stack changes nothing. */
  lemma {:induction false} SortSortedIsIdentity(s: seq<Layer>)
    requires SortedByZ(s)
    ensures StableSortByZ(s) == s
  {
    if |s| > 0 {
      var init, last := s[..|s| - 1], s[|s| - 1];
      SortedPrefix(s);
      SortSortedIsIdentity(init);
      InsertOnTop(init, last);
      assert init + [last] == s;
    }
  }

  /** Dropping the top layer keeps a stack sorted, and the top layer is at or above the one below it. */
  lemma SortedPrefix(s: seq<Layer>)
    requires SortedByZ(s) && |s| > 0
    ensures SortedByZ(s[..|s| - 1])
    ensures |s| > 1 ==> ZOf(s[..|s| - 1][|s| - 2]) <= ZOf(s[|s| - 1])
  {
    var init := s[..|s| - 1];
    forall i, j | 0 <= i < j < |init| ensures ZOf(init[i]) <= ZOf(init[j]) {
      assert init[i] == s[i] && init[j] == s[j];
    }
  }

  /**
   * `addLayer`'s push then sort on a sorted stack: the new layer lands
   * after every layer whose zIndex is at most its own.
   */
  lemma PushThenSortInserts(s: seq<Layer>, x: Layer)
    requires SortedByZ(s)
    ensures StableSortByZ(s + [x]) == InsertByZ(s, x)
  {
    assert (s + [x])[..|s|] == s;
    SortSortedIsIdentity(s);
  }

  /** The index `splice(n, 1)` starts at, for a stack of `len` layers. */
  function SpliceStart(n: int, len: nat): (k: int)
    ensures 0 <= k <= len
    ensures 0 <= n ==> k == if n < len then n else len
    ensures n < 0 ==> k == if len + n < 0 then 0 else len + n
  {
    if n < 0 then (if len + n < 0 then 0 else len + n)
    else if n < len then n else len
  }

  /** `layers.splice(n, 1)`: the element at the start index goes, the rest keep their order. */
  function RemoveAt(s: seq<Layer>, n: int): (r: seq<Layer>)
    ensures n >= |s| ==> r == s
    ensures 0 <= n < |s| ==> r == s[..n] + s[n + 1..]
    ensures n < 0 && |s| > 0 ==> |r| == |s| - 1
    ensures -|s| <= n < 0 ==> r == s[..|s| + n] + s[|s| + n + 1..]
    ensures n < -|s| && |s| > 0 ==> r == s[1..]
    ensures multiset(r) <= multiset(s)
  {
    var k := SpliceStart(n, |s|);
    if k < |s| then
      assert s == s[..k] + [s[k]] + s[k + 1..];
      s[..k] + s[k + 1..]
    else s
  }

  /**
   * The literal loop of `removeLayer(obj)`: scanning from `i`, a match is
   * spliced out and the scan moves on to `i + 1`, so the layer that slid
   * into the removed slot is never looked at.
   */
  function RemoveScan(s: seq<Layer>, x: Layer, i: nat): (r: seq<Layer>)
    decreases |s| - i
  {
    if i >= |s| then s
    else if s[i] == x then RemoveScan(s[..i] + s[i + 1..], x, i + 1)
    else RemoveScan(s, x, i + 1)
  }

  /** No layer appears twice in the stack. */
  predicate Distinct(s: seq<Layer>)
  {
    forall l :: l in s ==> multiset(s)[l] == 1
  }

  /** Inserting a layer that is not yet on a sorted, repetition-free stack keeps it so. */
  lemma InsertKeepsValid(s: seq<Layer>, x: Layer)
    requires SortedByZ(s) && Distinct(s) && x !in s
    ensures SortedByZ(InsertByZ(s, x)) && Distinct(InsertByZ(s, x))
  {
    var r := InsertByZ(s, x);
    InsertByZPermutesAndSorts(s, x);
    forall l | l in r ensures multiset(r)[l] == 1 {
      assert l in multiset(r);
      if l != x {
        assert l in multiset(s);
      }
    }
  }

  /** Splicing one layer out of a sorted, repetition-free stack keeps it so. */
  lemma SpliceKeepsValid(s: seq<Layer>, k: nat)
    requires SortedByZ(s) && Distinct(s) && k < |s|
    ensures SortedByZ(s[..k] + s[k + 1..]) && Distinct(s[..k] + s[k + 1..])
  {
    SpliceKeepsSorted(s, k);
    SpliceKeepsDistinct(s, k);
  }

  lemma SpliceKeepsSorted(s: seq<Layer>, k: nat)
    requires SortedByZ(s) && k < |s|
    ensures SortedByZ(s[..k] + s[k + 1..])
  {
    var t := s[..k] + s[k + 1..];
    SpliceIndices(s, k);
    forall i, j | 0 <= i < j < |t| ensures ZOf(t[i]) <= ZOf(t[j]) {
      if j < k {
        assert t[i] == s[i] && t[j] == s[j];
      } else if i < k {
        assert t[i] == s[i] && t[j] == s[j + 1];
      } else {
        assert t[i] == s[i + 1] && t[j] == s[j + 1];
      }
    }
  }

  lemma SpliceKeepsDistinct(s: seq<Layer>, k: nat)
    requires Distinct(s) && k < |s|
    ensures Distinct(s[..k] + s[k + 1..])
  {
    var t := s[..k] + s[k + 1..];
    SpliceCount(s, k);
    forall l | l in t ensures multiset(t)[l] == 1 {
      assert multiset(t)[l] >= 1;
      assert multiset(s)[l] >= multiset(t)[l];
      assert l in s;
    }
  }

  /** Entry i of `s` with entry k spliced out is entry i or i + 1 of `s`. */
  lemma SpliceIndices(s: seq<Layer>, k: nat)
    requires k < |s|
    ensures |s[..k] + s[k + 1..]| == |s| - 1
    ensures forall i :: 0 <= i < k ==> (s[..k] + s[k + 1..])[i] == s[i]
    ensures forall i :: k < i < |s| ==> (s[..k] + s[k + 1..])[i - 1] == s[i]
  {
  }

  /** Splicing out entry k removes one copy of `s[k]` and nothing else. */
  lemma SpliceCount(s: seq<Layer>, k: nat)
    requires k < |s|
    ensures multiset(s) == multiset(s[..k] + s[k + 1..]) + multiset{s[k]}
  {
    assert s == s[..k] + [s[k]] + s[k + 1..];
  }

  /** The layers of `s` other than `x`, in order. */
  function Without(s: seq<Layer>, x: Layer): seq<Layer>
  {
    if |s| == 0 then []
    else Without(s[..|s| - 1], x) + (if s[|s| - 1] == x then [] else [s[|s| - 1]])
  }

  /** `Without` drops every copy of `x` and keeps every other layer as often as it occurs. */
  lemma {:induction false} WithoutCount(s: seq<Layer>, x: Layer)
    ensures multiset(Without(s, x)) == multiset(s)[x := 0]
  {
    if |s| > 0 {
      var init, last := s[..|s| - 1], s[|s| - 1];
      assert s == init + [last];
      WithoutCount(init, x);
    }
  }

  lemma {:induction false} WithoutAppend(s: seq<Layer>, t: seq<Layer>, x: Layer)
    ensures Without(s + t, x) == Without(s, x) + Without(t, x)
  {
    if |t| > 0 {
      var n := |t| - 1;
      var st := s + t;
      assert st[..|st| - 1] == s + t[..n];
      assert st[|st| - 1] == t[n];
      var tail := if t[n] == x then [] else [t[n]];
      WithoutAppend(s, t[..n], x);
      assert Without(st, x) == Without(s + t[..n], x) + tail;
      assert Without(t, x) == Without(t[..n], x) + tail;
    } else {
      assert s + t == s;
      assert Without(t, x) == [];
    }
  }

  lemma {:induction false} WithoutAbsent(s: seq<Layer>, x: Layer)
    requires x !in s
    ensures Without(s, x) == s
  {
    if |s| > 0 {
      var init := s[..|s| - 1];
      WithoutAbsent(init, x);
      assert init + [s[|s| - 1]] == s;
    }
  }

  /** `Without` on a stack with a first layer `y`. */
  lemma WithoutCons(y: Layer, t: seq<Layer>, x: Layer)
    ensures Without([y] + t, x) == (if y == x then [] else [y]) + Without(t, x)
  {
    WithoutAppend([y], t, x);
    assert [y][..0] == [];
  }

  /** A scan that meets no match from `i` on leaves the stack as it is. */
  lemma {:induction false} RemoveScanNoMatch(s: seq<Layer>, x: Layer, i: nat)
    requires forall k :: i <= k < |s| ==> s[k] != x
    ensures RemoveScan(s, x, i) == s
    decreases |s| - i
  {
    if i < |s| {
      RemoveScanNoMatch(s, x, i + 1);
    }
  }

  /** The scan's step at a match of `x` that does not recur: what follows stays. */
  lemma RemoveScanAtLastMatch(s: seq<Layer>, x: Layer, i: nat)
    requires i < |s| && s[i] == x
    requires x !in s[i + 1..]
    ensures RemoveScan(s, x, i) == s[..i] + s[i + 1..]
  {
    var rest := s[i + 1..];
    var t := s[..i] + rest;
    forall k | i + 1 <= k < |t| ensures t[k] != x {
      assert t[k] == rest[k - i];
    }
    RemoveScanNoMatch(t, x, i + 1);
  }

  /**
   * With `x` at most once from index `i` on, the scan removes exactly the
   * occurrences of `x` at or after `i`.
   */
  lemma {:induction false} RemoveScanOnce(s: seq<Layer>, x: Layer, i: nat)
    requires i <= |s|
    requires multiset(s[i..])[x] <= 1
    ensures RemoveScan(s, x, i) == s[..i] + Without(s[i..], x)
    decreases |s| - i
  {
    if i == |s| {
      assert s[i..] == [];
      assert s[..i] == s;
    } else {
      var rest := s[i + 1..];
      assert s[i..] == [s[i]] + rest;
      assert multiset(s[i..]) == multiset{s[i]} + multiset(rest);
      WithoutCons(s[i], rest, x);
      if s[i] == x {
        assert x !in rest;
        RemoveScanAtLastMatch(s, x, i);
        WithoutAbsent(rest, x);
        calc {
          Without(s[i..], x);
          Without([x] + rest, x);
          [] + Without(rest, x);
          { assert [] + rest == rest; }
          rest;
        }
      } else {
        RemoveScanOnce(s, x, i + 1);
        assert s[..i + 1] == s[..i] + [s[i]];
      }
    }
  }

  /** On a stack holding `x` at most once, `removeLayer(x)` removes exactly `x`. */
  lemma RemoveScanRemovesOnly(s: seq<Layer>, x: Layer)
    requires multiset(s)[x] <= 1
    ensures RemoveScan(s, x, 0) == Without(s, x)
  {
    assert s[0..] == s;
    RemoveScanOnce(s, x, 0);
  }

  /** A layer pushed twice survives one `removeLayer` call: the second copy slides past the scan. */
  lemma RemoveScanSkipsAdjacentCopy(x: Layer)
    ensures RemoveScan([x, x], x, 0) == [x]
  {
    assert [x, x][..0] + [x, x][1..] == [x];
    assert RemoveScan([x], x, 1) == [x];
  }

  /** The first layer's grid that is set, as `getGrid` picks it. */
  function FirstGrid(layers: seq<Layer>): (g: Grid?)
    reads set l | l in layers
    ensures g == null <==> forall i :: 0 <= i < |layers| ==> layers[i].grid == null
    ensures g != null ==> exists i ::
      && 0 <= i < |layers| && layers[i].grid == g
      && forall j :: 0 <= j < i ==> layers[j].grid == null
  {
    if |layers| == 0 then null
    else if layers[0].grid != null then layers[0].grid
    else
      var g := FirstGrid(layers[1..]);
      assert forall i :: 1 <= i < |layers| ==> layers[i] == layers[1..][i - 1];
      g
  }

  /** The operation `drawLayers` issues for one layer. */
  datatype RenderOp = DrawGridOf(grid: Grid) | DrawTopoJsonOf(layer: Layer) | DrawGeoJsonOf(layer: Layer)

  /** Whether `drawLayers(animating)` renders a layer: always when not animating, else when its renderOnAnimate is truthy. */
  predicate DoRender(l: Layer, animating: bool)
  {
    !animating || l.options.renderOnAnimate == Some(true)
  }

  /** The operation for one layer: grid first, then json, else nothing. */
  function LayerRenderOp(l: Layer, animating: bool): seq<RenderOp>
    reads l
  {
    if !DoRender(l, animating) then []
    else if l.grid != null then [DrawGridOf(l.grid)]
    else if l.json.Some? then (if l.json.value.isTopology then [DrawTopoJsonOf(l)] else [DrawGeoJsonOf(l)])
    else []
  }

  /** The operations of `drawLayers(animating)` over a layer stack, in stack order. */
  function RenderOps(layers: seq<Layer>, animating: bool): seq<RenderOp>
    reads set l | l in layers
  {
    if |layers| == 0 then []
    else RenderOps(layers[..|layers| - 1], animating) + LayerRenderOp(layers[|layers| - 1], animating)
  }

  /** The layers that render while animating. */
  function AnimatedLayers(layers: seq<Layer>): (r: seq<Layer>)
    ensures forall l :: l in r ==> l in layers && l.options.renderOnAnimate == Some(true)
    ensures forall l :: l in layers && l.options.renderOnAnimate == Some(true) ==> l in r
  {
    if |layers| == 0 then []
    else
      var l := layers[|layers| - 1];
      assert layers == layers[..|layers| - 1] + [l];
      AnimatedLayers(layers[..|layers| - 1]) + (if l.options.renderOnAnimate == Some(true) then [l] else [])
  }

  /** Every flagged layer is kept as often as it is stacked, and no other layer is kept. */
  lemma {:induction false} AnimatedLayersCount(layers: seq<Layer>)
    ensures forall l :: l in layers ==>
      multiset(AnimatedLayers(layers))[l] == if l.options.renderOnAnimate == Some(true) then multiset(layers)[l] else 0
  {
    if |layers| > 0 {
      var init := layers[..|layers| - 1];
      var l := layers[|layers| - 1];
      AnimatedLayersCount(init);
      assert layers == init + [l];
      assert multiset(layers) == multiset(init) + multiset{l};
      forall m | m in layers
        ensures multiset(AnimatedLayers(layers))[m]
          == if m.options.renderOnAnimate == Some(true) then multiset(layers)[m] else 0
      {
        if m !in init {
          assert m !in AnimatedLayers(init);
        }
      }
    }
  }

  /** Filtering keeps stack order: the flagged layers of a concatenation are those of each part, in turn. */
  lemma {:induction false} AnimatedLayersAppend(a: seq<Layer>, b: seq<Layer>)
    ensures AnimatedLayers(a + b) == AnimatedLayers(a) + AnimatedLayers(b)
  {
    if |b| > 0 {
      var init, l := b[..|b| - 1], b[|b| - 1];
      AnimatedLayersAppend(a, init);
      var tail := if l.options.renderOnAnimate == Some(true) then [l] else [];
      assert (a + b)[..|a + b| - 1] == a + init && (a + b)[|a + b| - 1] == l;
      assert AnimatedLayers(a + b) == AnimatedLayers(a + init) + tail;
      assert AnimatedLayers(b) == AnimatedLayers(init) + tail;
    } else {
      assert a + b == a;
    }
  }

  /**
   * While animating, `drawLayers` draws exactly what a full draw of the
   * layers flagged renderOnAnimate would draw, in the same order.
   */
  lemma {:induction false} AnimatingDrawsFlaggedLayers(layers: seq<Layer>)
    ensures RenderOps(layers, true) == RenderOps(AnimatedLayers(layers), false)
  {
    if |layers| > 0 {
      var init := layers[..|layers| - 1];
      var l := layers[|layers| - 1];
      AnimatingDrawsFlaggedLayers(init);
      var a := AnimatedLayers(init);
      assert RenderOps(layers, true) == RenderOps(a, false) + LayerRenderOp(l, true);
      if l.options.renderOnAnimate == Some(true) {
        var b := a + [l];
        assert AnimatedLayers(layers) == b;
        assert b[..|b| - 1] == a && b[|b| - 1] == l;
        assert LayerRenderOp(l, true) == LayerRenderOp(l, false);
      } else {
        assert AnimatedLayers(layers) == a + [] == a;
        assert LayerRenderOp(l, true) == [];
        assert RenderOps(a, false) + [] == RenderOps(a, false);
      }
    }
  }

  /** Every drawn layer yields at most one operation: a stack draws at most one per layer. */
  lemma {:induction false} RenderOpsBound(layers: seq<Layer>, animating: bool)
    ensures |RenderOps(layers, animating)| <= |layers|
  {
    if |layers| > 0 {
      RenderOpsBound(layers[..|layers| - 1], animating);
    }
  }

  predicate Ascending(s: seq<real>)
  {
    forall i, j :: 0 <= i < j < |s| ==> s[i] <= s[j]
  }

  /** The ascending numeric sort of `zoomLevels.sort((a, b) => a - b)`, as an insertion sort. */
  function SortAscending(s: seq<real>): seq<real>
  {
    if |s| == 0 then []
    else InsertAscending(SortAscending(s[..|s| - 1]), s[|s| - 1])
  }

  /** The sorted levels are an ascending permutation of the levels. */
  lemma {:induction false} SortAscendingPermutesAndSorts(s: seq<real>)
    ensures multiset(SortAscending(s)) == multiset(s)
    ensures Ascending(SortAscending(s))
  {
    if |s| > 0 {
      var init, last := s[..|s| - 1], s[|s| - 1];
      assert s == init + [last];
      SortAscendingPermutesAndSorts(init);
      InsertAscendingPermutesAndSorts(SortAscending(init), last);
    }
  }

  /** The slot after the last level of `s` that is at most `x`. */
  function LevelUpperBound(s: seq<real>, x: real): (k: nat)
    ensures k <= |s|
    ensures k > 0 ==> s[k - 1] <= x
    ensures forall i :: k <= i < |s| ==> s[i] > x
  {
    if |s| == 0 then 0
    else if s[|s| - 1] <= x then |s|
    else LevelUpperBound(s[..|s| - 1], x)
  }

  /** `x` placed into `s` after every level that is at most `x`. */
  function InsertAscending(s: seq<real>, x: real): seq<real>
  {
    var k := LevelUpperBound(s, x);
    s[..k] + [x] + s[k..]
  }

  /** Inserting a level adds exactly that level and keeps ascending levels ascending. */
  lemma InsertAscendingPermutesAndSorts(s: seq<real>, x: real)
    ensures multiset(InsertAscending(s, x)) == multiset(s) + multiset{x}
    ensures Ascending(s) ==> Ascending(InsertAscending(s, x))
  {
    var k := LevelUpperBound(s, x);
    InsertCount(s, x, k);
    InsertedAscending(s, x, k, InsertAscending(s, x));
  }

  lemma InsertedAscending(s: seq<real>, x: real, k: nat, r: seq<real>)
    requires k == LevelUpperBound(s, x) && r == s[..k] + [x] + s[k..]
    ensures Ascending(s) ==> Ascending(r)
  {
    if Ascending(s) {
      InsertIndices(s, x, k);
      forall i, j | 0 <= i < j < |r| ensures r[i] <= r[j] {
        if j < k {
          assert r[i] == s[i] && r[j] == s[j];
        } else if j == k {
          assert r[i] == s[i] && s[i] <= s[k - 1];
        } else if i < k {
          assert r[i] == s[i] && r[j] == s[j - 1] && s[i] <= s[k - 1];
        } else if i == k {
          assert r[j] == s[j - 1];
        } else {
          assert r[i] == s[i - 1] && r[j] == s[j - 1];
        }
      }
    }
  }

  /** The scale of a zoom level. */
  const ZoomStep: real := 150.0

  /** The first level whose scale exceeds `current`. */
  function ZoomInLevel(levels: seq<real>, current: real): Option<real>
  {
    if |levels| == 0 then None
    else if levels[0] * ZoomStep > current then Some(levels[0])
    else ZoomInLevel(levels[1..], current)
  }

  /**
   * There is no level to zoom in to exactly when no level's scale exceeds
   * `current`; otherwise it is a level whose scale does, and on sorted
   * levels the smallest such level.
   */
  lemma {:induction false} ZoomInLevelMeaning(levels: seq<real>, current: real)
    ensures var r := ZoomInLevel(levels, current);
      && (r.None? <==> forall i :: 0 <= i < |levels| ==> levels[i] * ZoomStep <= current)
      && (r.Some? ==> r.value in levels && r.value * ZoomStep > current)
      && (r.Some? && Ascending(levels) ==>
            forall i :: 0 <= i < |levels| && levels[i] * ZoomStep > current ==> r.value <= levels[i])
  {
    if |levels| > 0 && levels[0] * ZoomStep <= current {
      var rest := levels[1..];
      ZoomInLevelMeaning(rest, current);
      assert forall i :: 1 <= i < |levels| ==> levels[i] == rest[i - 1];
      if Ascending(levels) {
        assert Ascending(rest) by {
          forall i, j | 0 <= i < j < |rest| ensures rest[i] <= rest[j] {
            assert rest[i] == levels[i + 1] && rest[j] == levels[j + 1];
          }
        }
      }
    }
  }

  /** The last level whose scale is below `current`. */
  function ZoomOutLevel(levels: seq<real>, current: real): Option<real>
  {
    if |levels| == 0 then None
    else if levels[|levels| - 1] * ZoomStep < current then Some(levels[|levels| - 1])
    else ZoomOutLevel(levels[..|levels| - 1], current)
  }

  /**
   * There is no level to zoom out to exactly when no level's scale is below
   * `current`; otherwise it is a level whose scale is, and on sorted levels
   * the largest such level.
   */
  lemma {:induction false} ZoomOutLevelMeaning(levels: seq<real>, current: real)
    ensures var r := ZoomOutLevel(levels, current);
      && (r.None? <==> forall i :: 0 <= i < |levels| ==> levels[i] * ZoomStep >= current)
      && (r.Some? ==> r.value in levels && r.value * ZoomStep < current)
      && (r.Some? && Ascending(levels) ==>
            forall i :: 0 <= i < |levels| && levels[i] * ZoomStep < current ==> levels[i] <= r.value)
  {
    if |levels| > 0 && levels[|levels| - 1] * ZoomStep >= current {
      var init := levels[..|levels| - 1];
      ZoomOutLevelMeaning(init, current);
      assert forall i :: 0 <= i < |init| ==> levels[i] == init[i];
      if Ascending(levels) {
        assert Ascending(init) by {
          forall i, j | 0 <= i < j < |init| ensures init[i] <= init[j] {
            assert init[i] == levels[i] && init[j] == levels[j];
          }
        }
      }
    }
  }

  /** One step of `zoomOut`'s backward scan over the first i + 1 levels. */
  lemma ZoomOutStep(levels: seq<real>, i: nat, current: real)
    requires i < |levels|
    ensures ZoomOutLevel(levels[..i + 1], current)
      == if levels[i] * ZoomStep < current then Some(levels[i]) else ZoomOutLevel(levels[..i], current)
  {
    var prefix := levels[..i + 1];
    assert prefix[|prefix| - 1] == levels[i] && prefix[..|prefix| - 1] == levels[..i];
  }

  /** What `addLayer` is handed: a packed word buffer, an RGBA buffer, or GeoJSON/TopoJSON. */
  datatype LayerData = PackedWords(words: seq<Word>) | RgbaBytes(bytes: seq<Byte>) | Json(json: JsonData)

  /** The default `zoomLevels`. */
  const DefaultZoomLevels: seq<real> := [1.0, 2.0, 4.0, 8.0]

  class GridMap {
    /** The layer stack, bottom first. */
    var layers: seq<Layer>
    /** `options.zoomLevels`. */
    var zoomLevels: seq<real>
    /** The projection's current scale. */
    var scale: real

    /** The stack stays sorted by zIndex and holds each layer at most once. */
    ghost predicate Valid()
      reads this
    {
      SortedByZ(layers) && Distinct(layers)
    }

    /** `new GridMap(container, options)`: no layers; zoomLevels defaults to [1, 2, 4, 8] when undefined. */
    constructor (zoomLevels: Option<seq<real>>, scale: real)
      ensures Valid()
      ensures layers == []
      ensures this.zoomLevels == if zoomLevels.Some? then zoomLevels.value else DefaultZoomLevels
      ensures this.scale == scale
    {
      layers := [];
      this.zoomLevels := if zoomLevels.Some? then zoomLevels.value else DefaultZoomLevels;
      this.scale := scale;
    }

    /** `getGrid`: the grid of the first layer that has one, null when none has. */
    method GetGrid() returns (grid: Grid?)
      ensures grid == FirstGrid(layers)
    {
      var i := 0;
      while i < |layers|
        invariant 0 <= i <= |layers|
        invariant forall j :: 0 <= j < i ==> layers[j].grid == null
      {
        if layers[i].grid != null {
          return layers[i].grid;
        }
        i := i + 1;
      }
      return null;
    }

    /** `drawLayers(animating)`: the drawing operations, one per rendered layer, in stack order. */
    method DrawLayers(animating: bool) returns (ops: seq<RenderOp>)
      ensures ops == RenderOps(layers, animating)
    {
      ops := [];
      var i := 0;
      while i < |layers|
        invariant 0 <= i <= |layers|
        invariant ops == RenderOps(layers[..i], animating)
      {
        assert layers[..i + 1][..i] == layers[..i];
        var layer := layers[i];
        var doRender := !animating || layer.options.renderOnAnimate == Some(true);
        if doRender {
          if layer.grid != null {
            ops := ops + [DrawGridOf(layer.grid)];
          } else if layer.json.Some? {
            if layer.json.value.isTopology {
              ops := ops + [DrawTopoJsonOf(layer)];
            } else {
              ops := ops + [DrawGeoJsonOf(layer)];
            }
          }
        }
        i := i + 1;
      }
      assert layers[..i] == layers;
    }

    /**
     * `addLayer(data, options)`: the layer `MakeLayer` builds is pushed and
     * the stack stably sorted by zIndex. A grid without a usable
     * `options.gridSize` fails (null) and leaves the stack unchanged.
     */
    method AddLayer(data: LayerData, options: Option<OptionsIn>, colour: Colouring) returns (layer: Layer?)
      requires Valid()
      modifies this`layers
      ensures Valid()
      ensures layer == null <==> !data.Json? && !HasGridSize(options)
      ensures layer == null ==> layers == old(layers)
      ensures layer != null ==> (
        && fresh(layer) && layer.options == ApplyDefaults(options)
        && HoldsData(layer, data, options, colour)
        && (layer.grid != null ==> fresh(layer.grid))
        && layers == StableSortByZ(old(layers) + [layer])
        && layers == InsertByZ(old(layers), layer))
    {
      if !data.Json? && !HasGridSize(options) {
        return null;
      }
      layer := MakeLayer(data, options, colour);
      PushAndSort(layer);
    }

    /** `this.layers.push(layer)` then the stable sort by zIndex: the new layer goes on top of its equals. */
    method PushAndSort(layer: Layer)
      requires Valid() && layer !in layers
      modifies this`layers
      ensures Valid()
      ensures layers == StableSortByZ(old(layers) + [layer])
      ensures layers == InsertByZ(old(layers), layer)
    {
      PushThenSortInserts(layers, layer);
      InsertKeepsValid(layers, layer);
      layers := StableSortByZ(layers + [layer]);
    }

    /** `removeLayer(n)` with a number: `splice(n, 1)`. */
    method RemoveLayerAt(n: int)
      requires Valid()
      modifies this`layers
      ensures Valid()
      ensures layers == RemoveAt(old(layers), n)
    {
      var k := SpliceStart(n, |layers|);
      if k < |layers| {
        SpliceKeepsValid(layers, k);
      }
      layers := RemoveAt(layers, n);
    }

    /**
     * `removeLayer(obj)` with a layer: the scan that splices out each match
     * and steps past the slot; on a valid stack it removes exactly `obj`.
     */
    method RemoveLayer(obj: Layer)
      requires Valid()
      modifies this`layers
      ensures Valid()
      ensures layers == RemoveScan(old(layers), obj, 0)
      ensures layers == Without(old(layers), obj)
    {
      assert multiset(layers)[obj] <= 1 by {
        if obj in layers {
          assert multiset(layers)[obj] == 1;
        }
      }
      RemoveScanRemovesOnly(layers, obj);
      var i := 0;
      while i < |layers|
        invariant 0 <= i
        invariant Valid()
        invariant RemoveScan(layers, obj, i) == RemoveScan(old(layers), obj, 0)
        decreases |layers| - i
      {
        if layers[i] == obj {
          SpliceKeepsValid(layers, i);
          layers := layers[..i] + layers[i + 1..];
        }
        i := i + 1;
      }
    }

    /** `zoomTo(s)`: the projection scale becomes s. */
    method ZoomTo(newScale: real)
      modifies this`scale
      ensures scale == newScale
    {
      scale := newScale;
    }

    /**
     * `zoomIn`: sorts the levels ascending in place, then zooms to the first
     * (so the smallest) level whose scale exceeds the current one; with none,
     * the scale stays.
     */
    method ZoomIn()
      modifies this`zoomLevels, this`scale
      ensures zoomLevels == SortAscending(old(zoomLevels))
      ensures scale == match ZoomInLevel(zoomLevels, old(scale)) case Some(l) => l * ZoomStep case None => old(scale)
    {
      zoomLevels := SortAscending(zoomLevels);
      var currentZoom := scale;
      var i := 0;
      while i < |zoomLevels|
        invariant 0 <= i <= |zoomLevels| && scale == currentZoom
        invariant ZoomInLevel(zoomLevels, currentZoom) == ZoomInLevel(zoomLevels[i..], currentZoom)
        modifies this`scale
      {
        if zoomLevels[i] * ZoomStep > currentZoom {
          ZoomTo(zoomLevels[i] * ZoomStep);
          return;
        }
        assert zoomLevels[i..][1..] == zoomLevels[i + 1..];
        i := i + 1;
      }
    }

    /**
     * `zoomOut`: sorts the levels ascending in place, then zooms to the last
     * (so the largest) level whose scale is below the current one; with none,
     * the scale stays.
     */
    method ZoomOut()
      modifies this`zoomLevels, this`scale
      ensures zoomLevels == SortAscending(old(zoomLevels))
      ensures scale == match ZoomOutLevel(zoomLevels, old(scale)) case Some(l) => l * ZoomStep case None => old(scale)
    {
      zoomLevels := SortAscending(zoomLevels);
      var currentZoom := scale;
      var i := |zoomLevels| - 1;
      assert zoomLevels[..i + 1] == zoomLevels;
      while i >= 0
        invariant -1 <= i < |zoomLevels| && scale == currentZoom
        invariant ZoomOutLevel(zoomLevels, currentZoom) == ZoomOutLevel(zoomLevels[..i + 1], currentZoom)
        modifies this`scale
      {
        ZoomOutStep(zoomLevels, i, currentZoom);
        if zoomLevels[i] * ZoomStep < currentZoom {
          ZoomTo(zoomLevels[i] * ZoomStep);
          return;
        }
        i := i - 1;
      }
    }
  }

  /**
   * What a layer built by `addLayer` holds: a packed buffer as a decoded
   * grid of gridSize, an RGBA buffer as a grid of gridSize without sparse
   * values, JSON as JSON that is no longer TopoJSON, marked simplified when
   * it was.
   */
  predicate HoldsData(layer: Layer, data: LayerData, options: Option<OptionsIn>, colour: Colouring)
    reads layer
  {
    match data
    case PackedWords(words) =>
      && HasGridSize(options) && layer.grid != null
      && var size := options.value.gridSize.value;
      && layer.grid.rows == size.1 && layer.grid.cols == size.0
      && layer.grid.data == PaintedBytes(words, colour, size.0 * size.1)
      && layer.grid.rawData == Some(RawData(words))
    case RgbaBytes(bytes) =>
      && HasGridSize(options) && layer.grid != null
      && var size := options.value.gridSize.value;
      && layer.grid.rows == size.1 && layer.grid.cols == size.0
      && layer.grid.data == bytes && layer.grid.rawData.None?
    case Json(json) =>
      layer.grid == null && layer.json == Some(JsonData(false)) && layer.simplified == json.isTopology
  }

  /**
   * The body of `addLayer` up to the push: `new Layer(options)`, then the
   * data by kind, a packed buffer through `arrayBufferToGrid`, an RGBA
   * buffer as `new Grid(data, gridSize)`, JSON as is (TopoJSON converted).
   */
  method MakeLayer(data: LayerData, options: Option<OptionsIn>, colour: Colouring) returns (layer: Layer)
    requires data.Json? || HasGridSize(options)
    ensures fresh(layer) && layer.options == ApplyDefaults(options)
    ensures HoldsData(layer, data, options, colour)
    ensures layer.grid != null ==> fresh(layer.grid)
  {
    layer := new Layer(options);
    match data {
      case PackedWords(words) =>
        var grid := ArrayBufferToGrid(words, options.value.gridSize.value, colour);
        layer.grid := grid;
      case RgbaBytes(bytes) =>
        var grid := new Grid(bytes, options.value.gridSize.value, None);
        layer.grid := grid;
      case Json(json) =>
        if json.isTopology {
          layer.simplified := true;
        }
        layer.json := Some(JsonData(false));
    }
  }

  /** A grid layer needs `options.gridSize`, with both dimensions positive. */
  predicate HasGridSize(options: Option<OptionsIn>)
  {
    options.Some? && options.value.gridSize.Some?
    && options.value.gridSize.value.0 > 0 && options.value.gridSize.value.1 > 0
  }

  /** The cell `onMouseMove` looks up: only with a grid and a truthy inverse strictly inside the box with non-zero coordinates. */
  function HoverCellId(grid: Grid?, coords: Option<(real, real)>): (r: Option<int>)
    reads grid
    ensures r.Some? <==> (
      && grid != null && coords.Some?
      && coords.value.0 != 0.0 && coords.value.1 != 0.0
      && -180.0 < coords.value.0 < 180.0 && -90.0 < coords.value.1 < 90.0)
    ensures r.Some? ==> r.value == CoordinatesToCellId(grid.rows, grid.cols, Point(coords.value.0, coords.value.1))
  {
    if grid != null && coords.Some? && coords.value.0 != 0.0 && coords.value.1 != 0.0
       && coords.value.0 > -180.0 && coords.value.0 < 180.0 && coords.value.1 > -90.0 && coords.value.1 < 90.0
    then Some(CoordinatesToCellId(grid.rows, grid.cols, Point(coords.value.0, coords.value.1)))
    else None
  }

  /** The arguments `onCellHover(cell, cellId)` receives: only for a looked-up cell whose value is truthy. */
  function HoverNotice(grid: Grid?, coords: Option<(real, real)>): (r: Option<(int, int)>)
    reads grid
    ensures r.Some? <==> (
      && HoverCellId(grid, coords).Some?
      && grid.GetCell(HoverCellId(grid, coords).value).Some?
      && grid.GetCell(HoverCellId(grid, coords).value).value != 0)
    ensures r.Some? ==> (
      && r.value.1 == HoverCellId(grid, coords).value
      && Some(r.value.0) == grid.GetCell(r.value.1))
  {
    match HoverCellId(grid, coords)
    case None => None
    case Some(cellId) =>
      match grid.GetCell(cellId)
      case None => None
      case Some(cell) => if cell != 0 then Some((cell, cellId)) else None
  }

  /** On a valid grid of fewer than 2^31 cells, a hovered cell is one of the grid's cells 1..rows*cols. */
  lemma HoverCellInGrid(grid: Grid, coords: Option<(real, real)>)
    requires grid.Valid() && grid.rows * grid.cols < TwoTo31
    requires HoverCellId(grid, coords).Some?
    ensures 1 <= HoverCellId(grid, coords).value <= grid.rows * grid.cols
  {
    FactorBound(grid.rows, grid.cols);
    CoordinatesToCellIdInRange(grid.rows, grid.cols, Point(coords.value.0, coords.value.1));
  }
}
