/**
 * The equirectangular grid of src/grid.js: conversions between 1-based
 * row-major cell identifiers and [lon, lat] coordinates, the closed ring of a
 * cell, and the `Grid` object with its sparse value lookup and ring memo.
 */
module GridCells {
  import opened Wrappers
  import opened JsNumbers

  /** A [lon, lat] pair in degrees. */
  datatype Point = Point(lon: real, lat: real)

  /** A polygon ring: a sequence of [lon, lat] points. */
  type Ring = seq<Point>

  /**
   * `cellIdToLonLat`: the north-west corner of a cell. As in the source, the
   * column fraction is scaled by `rows`, not by 360.
   */
  function CellIdToLonLat(rows: int, cols: int, cellId: int): Point
    requires rows > 0 && cols > 0
  {
    var id0 := cellId - 1;
    var lon := -180.0 + (JsRem(id0, cols) as real) / (cols as real) * (rows as real);
    var lat := 90.0 - (DoubleTilde((id0 as real) / (cols as real)) as real) * (180.0 / (rows as real));
    Point(lon, lat)
  }

  /** `coordinatesToCellId`: the 1-based cell under a [lon, lat] point. */
  function CoordinatesToCellId(rows: int, cols: int, p: Point): int
  {
    RowOf(rows, p.lat) * cols + ColumnOf(cols, p.lon) + 1
  }

  /** The row of a latitude, `~~(rows - (lat + 90) / 180 * rows)`. */
  function RowOf(rows: int, lat: real): int
  {
    DoubleTilde(rows as real - (lat + 90.0) / 180.0 * (rows as real))
  }

  /** The column of a longitude, `~~((lon + 180) / 360 * cols)`. */
  function ColumnOf(cols: int, lon: real): int
  {
    DoubleTilde((lon + 180.0) / 360.0 * (cols as real))
  }

  /** The ring [NW, NE, SE, SW, NW] built by `cellIdToCoordinates`. */
  function CellRing(rows: int, cols: int, cellId: int): Ring
    requires rows > 0 && cols > 0
  {
    var xSize := 360.0 / (cols as real);
    var ySize := 180.0 / (rows as real);
    var nw := CellIdToLonLat(rows, cols, cellId);
    [nw,
     Point(nw.lon + xSize, nw.lat),
     Point(nw.lon + xSize, nw.lat - ySize),
     Point(nw.lon, nw.lat - ySize),
     nw]
  }

  /** For non-negative operands, `~~(a / b)` is the integer quotient. */
  lemma QuotientFloor(a: int, b: int)
    requires a >= 0 && b > 0
    ensures ((a as real) / (b as real)).Floor == a / b
  {
    var q, r := a / b, a % b;
    assert a == q * b + r;
    assert (a as real) == (q as real) * (b as real) + (r as real);
    assert (a as real) / (b as real) == (q as real) + (r as real) / (b as real);
    assert 0.0 <= (r as real) / (b as real) < 1.0;
  }

  /** A non-negative real whose floor is below 2^31 is truncated by `~~` to that floor. */
  lemma TruncSmall(x: real, n: int)
    requires 0.0 <= x && 0 <= x.Floor < n <= TwoTo31
    ensures DoubleTilde(x) == x.Floor
  {
  }

  /** `t * n` lies in [0, n) when t lies in [0, 1). */
  lemma ScaleUnit(t: real, n: int)
    requires 0.0 <= t < 1.0 && n > 0
    ensures 0.0 <= t * (n as real) < n as real
  {
  }

  /**
   * The north-west corner of a valid cell: latitude drops by 180/rows per
   * completed row, longitude moves by rows/cols per column, and cell 1 sits at
   * [-180, 90].
   */
  lemma CellIdToLonLatCorner(rows: int, cols: int, cellId: int)
    requires rows > 0 && cols > 0 && cellId >= 1 && (cellId - 1) / cols < TwoTo31
    ensures CellIdToLonLat(rows, cols, cellId).lat
            == 90.0 - (((cellId - 1) / cols) as real) * (180.0 / (rows as real))
    ensures CellIdToLonLat(rows, cols, cellId).lon
            == -180.0 + (((cellId - 1) % cols) as real) / (cols as real) * (rows as real)
    ensures cellId == 1 ==> CellIdToLonLat(rows, cols, cellId) == Point(-180.0, 90.0)
  {
    QuotientFloor(cellId - 1, cols);
  }

  /** Euclidean division is determined by its quotient and remainder. */
  lemma DivModUnique(a: int, b: int, q: int, r: int)
    requires b > 0 && 0 <= r < b && a == q * b + r
    ensures a / b == q && a % b == r
  {
    var q', r' := a / b, a % b;
    assert a == q' * b + r';
    var d := q - q';
    assert d * b == q * b - q' * b;
    assert d * b == r' - r;
  }

  /**
   * Neighbouring cells of one row are rows/cols degrees of longitude apart:
   * the 360/cols spacing of a ring holds only when rows == 360.
   */
  lemma ColumnSpacing(rows: int, cols: int, cellId: int)
    requires rows > 0 && cols > 0 && cellId >= 1 && cellId % cols != 0
    ensures CellIdToLonLat(rows, cols, cellId + 1).lon - CellIdToLonLat(rows, cols, cellId).lon
            == (rows as real) / (cols as real)
    ensures (CellIdToLonLat(rows, cols, cellId + 1).lon - CellIdToLonLat(rows, cols, cellId).lon
             == 360.0 / (cols as real)) <==> rows == 360
  {
    var q, k := (cellId - 1) / cols, (cellId - 1) % cols;
    assert cellId - 1 == q * cols + k;
    assert k + 1 < cols by {
      if k + 1 == cols {
        DivModUnique(cellId, cols, q + 1, 0);
      }
    }
    DivModUnique(cellId, cols, q, k + 1);
    assert JsRem(cellId, cols) == k + 1 && JsRem(cellId - 1, cols) == k;
    LonStep(k, cols as real, rows as real);
    SpacingIs360(cols as real, rows as real);
  }

  /** Consecutive column fractions k/C*R and (k+1)/C*R lie R/C apart. */
  lemma LonStep(k: int, C: real, R: real)
    requires C > 0.0
    ensures (-180.0 + ((k + 1) as real) / C * R) - (-180.0 + (k as real) / C * R) == R / C
  {
    var a, b := (k + 1) as real, k as real;
    assert a / C - b / C == 1.0 / C;
    assert a / C * R - b / C * R == (a / C - b / C) * R;
    assert (1.0 / C) * R == R / C;
  }

  /** R/C equals 360/C exactly when R is 360. */
  lemma SpacingIs360(C: real, R: real)
    requires C > 0.0
    ensures R / C == 360.0 / C <==> R == 360.0
  {
    if R / C == 360.0 / C {
      assert R == (R / C) * C == (360.0 / C) * C == 360.0;
    }
  }

  /**
   * A point with lon in [-180, 180) and lat in (-90, 90] lies in a cell
   * 1..rows*cols; the truncations are floors of non-negative values there
   * (rows and cols below 2^31 keep `~~` from wrapping).
   */
  lemma CoordinatesToCellIdInRange(rows: int, cols: int, p: Point)
    requires 0 < rows <= TwoTo31 && 0 < cols <= TwoTo31
    requires -180.0 <= p.lon < 180.0 && -90.0 < p.lat <= 90.0
    ensures var id := CoordinatesToCellId(rows, cols, p);
            && 1 <= id <= rows * cols
            && id == (rows as real - (p.lat + 90.0) / 180.0 * (rows as real)).Floor * cols
                     + ((p.lon + 180.0) / 360.0 * (cols as real)).Floor + 1
  {
    RowAndColumn(rows, cols, p);
    var row := (rows as real - (p.lat + 90.0) / 180.0 * (rows as real)).Floor;
    var col := ((p.lon + 180.0) / 360.0 * (cols as real)).Floor;
    CoordinatesToCellIdOf(rows, cols, p, row, col);
    CellIdBound(rows, cols, row, col);
  }

  /** Both factors of a positive product are at most the product. */
  lemma FactorBound(rows: int, cols: int)
    requires rows > 0 && cols > 0
    ensures rows <= rows * cols && cols <= rows * cols
  {
    MulMono(1, cols, rows);
    MulMono(1, rows, cols);
  }

  /**
   * Inside lon in [-180, 180) and lat in (-90, 90], both truncations of
   * `coordinatesToCellId` are floors landing in [0, rows) and [0, cols).
   */
  lemma RowAndColumn(rows: int, cols: int, p: Point)
    requires 0 < rows <= TwoTo31 && 0 < cols <= TwoTo31
    requires -180.0 <= p.lon < 180.0 && -90.0 < p.lat <= 90.0
    ensures var x := rows as real - (p.lat + 90.0) / 180.0 * (rows as real);
            RowOf(rows, p.lat) == x.Floor && 0 <= x.Floor < rows
    ensures var y := (p.lon + 180.0) / 360.0 * (cols as real);
            ColumnOf(cols, p.lon) == y.Floor && 0 <= y.Floor < cols
  {
    RowOfFloor(rows, p.lat);
    ColumnOfFloor(cols, p.lon);
  }

  lemma RowOfFloor(rows: int, lat: real)
    requires 0 < rows <= TwoTo31 && -90.0 < lat <= 90.0
    ensures var x := rows as real - (lat + 90.0) / 180.0 * (rows as real);
            RowOf(rows, lat) == x.Floor && 0 <= x.Floor < rows
  {
    RowFractionInRange(lat, rows);
    TruncSmall(rows as real - (lat + 90.0) / 180.0 * (rows as real), rows);
  }

  lemma ColumnOfFloor(cols: int, lon: real)
    requires 0 < cols <= TwoTo31 && -180.0 <= lon < 180.0
    ensures var y := (lon + 180.0) / 360.0 * (cols as real);
            ColumnOf(cols, lon) == y.Floor && 0 <= y.Floor < cols
  {
    ColFractionInRange(lon, cols);
    TruncSmall((lon + 180.0) / 360.0 * (cols as real), cols);
  }

  /** For lat in (-90, 90], the row coordinate rows - (lat + 90)/180 * rows lies in [0, rows). */
  lemma RowFractionInRange(lat: real, rows: int)
    requires -90.0 < lat <= 90.0 && 0 < rows
    ensures var x := rows as real - (lat + 90.0) / 180.0 * (rows as real);
            0.0 <= x < rows as real && 0 <= x.Floor < rows
  {
    var t, R := (90.0 - lat) / 180.0, rows as real;
    var x := R - (lat + 90.0) / 180.0 * R;
    LatFromTop(lat, R);
    ScaleUnit(t, rows);
    FloorInRange(x, rows);
  }

  /** rows - (lat + 90)/180 * rows measures the latitude down from the top, (90 - lat)/180 * rows. */
  lemma LatFromTop(lat: real, R: real)
    ensures R - (lat + 90.0) / 180.0 * R == (90.0 - lat) / 180.0 * R
  {
    var t := (90.0 - lat) / 180.0;
    assert (lat + 90.0) / 180.0 == 1.0 - t;
    assert R - (1.0 - t) * R == t * R;
  }

  /** A real in [0, n) has its floor in [0, n). */
  lemma FloorInRange(x: real, n: int)
    requires 0.0 <= x < n as real
    ensures 0 <= x.Floor < n
  {
  }

  /** For lon in [-180, 180), the column coordinate (lon + 180)/360 * cols lies in [0, cols). */
  lemma ColFractionInRange(lon: real, cols: int)
    requires -180.0 <= lon < 180.0 && 0 < cols
    ensures var y := (lon + 180.0) / 360.0 * (cols as real);
            0.0 <= y < cols as real && 0 <= y.Floor < cols
  {
    var y := (lon + 180.0) / 360.0 * (cols as real);
    ScaleUnit((lon + 180.0) / 360.0, cols);
    FloorInRange(y, cols);
  }

  /** A row-major index of an in-range (row, col) pair is in 1..rows*cols. */
  lemma CellIdBound(rows: int, cols: int, row: int, col: int)
    requires rows > 0 && cols > 0 && 0 <= row < rows && 0 <= col < cols
    ensures 1 <= row * cols + col + 1 <= rows * cols
  {
    MulMono(row, rows - 1, cols);
    assert (rows - 1) * cols == rows * cols - cols;
    MulMono(0, row, cols);
  }

  /** Multiplication by a non-negative factor is monotonic. */
  lemma MulMono(a: int, b: int, c: int)
    requires a <= b && c >= 0
    ensures a * c <= b * c
  {
    assert b * c - a * c == (b - a) * c;
  }

  /**
   * With rows == 360, `coordinatesToCellId` inverts `cellIdToLonLat` on every
   * cell of the grid.
   */
  lemma RoundTripWhenRowsIs360(cols: int, cellId: int)
    requires 0 < cols <= TwoTo31 && 1 <= cellId <= 360 * cols
    ensures CoordinatesToCellId(360, cols, CellIdToLonLat(360, cols, cellId)) == cellId
  {
    SplitCellId(360, cols, cellId);
    CellIdToLonLatCorner(360, cols, cellId);
    CornerReadsBack(cols, (cellId - 1) / cols, (cellId - 1) % cols, CellIdToLonLat(360, cols, cellId));
  }

  /** On 360 rows, the corner of row r and column k reads back as cell r*cols + k + 1. */
  lemma CornerReadsBack(cols: int, r: int, k: int, p: Point)
    requires 0 < cols <= TwoTo31 && 0 <= r < 360 && 0 <= k < cols
    requires p.lat == 90.0 - (r as real) * (180.0 / (360 as real))
    requires p.lon == -180.0 + (k as real) / (cols as real) * (360 as real)
    ensures CoordinatesToCellId(360, cols, p) == r * cols + k + 1
  {
    RowOfCorner(360, r);
    ColumnOfCornerWhenRowsIs360(cols, k);
    CoordinatesToCellIdOf(360, cols, p, r, k);
  }

  /** The row of a corner latitude 90 - r*(180/rows) reads back as r, for every rows. */
  lemma RowOfCorner(rows: int, r: int)
    requires 0 <= r < rows <= TwoTo31
    ensures RowOf(rows, 90.0 - (r as real) * (180.0 / (rows as real))) == r
  {
    var lat := 90.0 - (r as real) * (180.0 / (rows as real));
    var x := rows as real - (lat + 90.0) / 180.0 * (rows as real);
    LatRoundTrip(rows, r);
    assert x == r as real;
    TruncSmall(r as real, rows);
  }

  /** With rows == 360, the column of a corner longitude reads back as its column. */
  lemma ColumnOfCornerWhenRowsIs360(cols: int, k: int)
    requires 0 <= k < cols <= TwoTo31
    ensures ColumnOf(cols, -180.0 + (k as real) / (cols as real) * 360.0) == k
  {
    LonRoundTripWhenRowsIs360(cols, k);
    TruncSmall(k as real, cols);
  }

  /** `coordinatesToCellId` in terms of the two truncated coordinates. */
  lemma CoordinatesToCellIdOf(rows: int, cols: int, p: Point, row: int, col: int)
    requires RowOf(rows, p.lat) == row && ColumnOf(cols, p.lon) == col
    ensures CoordinatesToCellId(rows, cols, p) == row * cols + col + 1
  {
  }

  /** A cell 1..rows*cols has row (cellId-1)/cols below rows and column (cellId-1)%cols. */
  lemma SplitCellId(rows: int, cols: int, cellId: int)
    requires rows > 0 && cols > 0 && 1 <= cellId <= rows * cols
    ensures 0 <= (cellId - 1) / cols < rows && 0 <= (cellId - 1) % cols < cols
    ensures cellId == (cellId - 1) / cols * cols + (cellId - 1) % cols + 1
  {
    var rr := (cellId - 1) / cols;
    if rr >= rows { MulMono(rows, rr, cols); }
  }

  /** The row of a corner latitude 90 - r*(180/rows) reads back as r, for every rows. */
  lemma LatRoundTrip(rows: int, r: int)
    requires rows > 0
    ensures var lat := 90.0 - (r as real) * (180.0 / (rows as real));
            rows as real - (lat + 90.0) / 180.0 * (rows as real) == r as real
  {
    var R := rows as real;
    var lat := 90.0 - (r as real) * (180.0 / R);
    assert (lat + 90.0) / 180.0 == 1.0 - (r as real) / R;
    assert (1.0 - (r as real) / R) * R == R - r as real;
  }

  /** With rows == 360, the column of a corner longitude reads back as its column. */
  lemma LonRoundTripWhenRowsIs360(cols: int, k: int)
    requires cols > 0
    ensures var lon := -180.0 + (k as real) / (cols as real) * 360.0;
            (lon + 180.0) / 360.0 * (cols as real) == k as real
  {
  }

  /**
   * With rows != 360 the round trip can fail: on a 180 x 360 grid, cell 2's
   * corner is read back as cell 1.
   */
  lemma RoundTripFailsFor180Rows()
    ensures CellIdToLonLat(180, 360, 2) == Point(-179.5, 90.0)
    ensures CoordinatesToCellId(180, 360, CellIdToLonLat(180, 360, 2)) == 1
  {
    CellIdToLonLatCorner(180, 360, 2);
    assert DoubleTilde(0.0) == 0;
    assert DoubleTilde(0.5) == 0;
  }

  /**
   * The ring of a cell is closed, starts at the cell's north-west corner and
   * spans 360/cols degrees of longitude and 180/rows degrees of latitude.
   */
  lemma CellRingShape(rows: int, cols: int, cellId: int)
    requires rows > 0 && cols > 0
    ensures var ring := CellRing(rows, cols, cellId);
            && |ring| == 5
            && ring[0] == ring[4] == CellIdToLonLat(rows, cols, cellId)
            && ring[1].lon - ring[0].lon == 360.0 / (cols as real)
            && ring[0].lat - ring[3].lat == 180.0 / (rows as real)
            && ring[1].lat == ring[0].lat && ring[3].lon == ring[0].lon
            && ring[2] == Point(ring[1].lon, ring[3].lat)
  {
  }

  /** A gridded data set (src/grid.js:1-76). */
  class Grid {
    /** The dense RGBA buffer. */
    const data: seq<Byte>
    const rows: int
    const cols: int
    /** The sparse map from cellId to value, absent for RGBA-only grids. */
    const rawData: Option<map<int, int>>
    /** The memo of `cellIdToCoordinates`. */
    var cellCache: map<int, Ring>

    ghost predicate Valid()
      reads this
    {
      && rows > 0 && cols > 0
      && forall c :: c in cellCache ==> cellCache[c] == CellRing(rows, cols, c)
    }

    /** `new Grid(data, gridSize, rawData)`: gridSize is [cols, rows]. */
    constructor (data: seq<Byte>, gridSize: (int, int), rawData: Option<map<int, int>>)
      requires gridSize.0 > 0 && gridSize.1 > 0
      ensures Valid()
      ensures this.data == data && this.rawData == rawData
      ensures rows == gridSize.1 && cols == gridSize.0
      ensures cellCache == map[]
    {
      this.data := data;
      this.rows := gridSize.1;
      this.cols := gridSize.0;
      this.rawData := rawData;
      this.cellCache := map[];
    }

    /** `getCell`: the sparse value of a cell; `undefined` without a sparse map. */
    function GetCell(cellId: int): (r: Option<int>)
      ensures rawData.None? ==> r.None?
      ensures rawData.Some? ==> (r.Some? <==> cellId in rawData.value)
      ensures r.Some? ==> rawData.Some? && r.value == rawData.value[cellId]
    {
      match rawData
      case None => None
      case Some(m) => if cellId in m then Some(m[cellId]) else None
    }

    /**
     * `cellIdToCoordinates`: the ring of a cell, served from the memo when
     * present, otherwise built and stored; only that memo entry changes.
     */
    method CellIdToCoordinates(cellId: int) returns (ring: Ring)
      requires Valid()
      modifies this`cellCache
      ensures Valid()
      ensures ring == CellRing(rows, cols, cellId)
      ensures cellCache == old(cellCache)[cellId := ring]
      ensures cellId in old(cellCache) ==> ring == old(cellCache)[cellId] && cellCache == old(cellCache)
    {
      if cellId in cellCache {
        return cellCache[cellId];
      }
      ring := CellRing(rows, cols, cellId);
      cellCache := cellCache[cellId := ring];
    }
  }
}
