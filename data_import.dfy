/**
 * The data-import helpers: decoding the packed binary cell format into
 * GeoJSON features or into a dense `Grid`, and turning a dense RGBA buffer
 * into sparse GeoJSON features.
 *
 * A packed word is one Uint32 element: bits 0-19 carry the cell id, bits
 * 24-31 the cell value, and bits 20-23 are ignored by every decoder.
 */
module DataImport {
  import opened Wrappers
  import opened JsNumbers
  import opened GridCells

  /** One element of a Uint32Array. */
  type Word = w: int | 0 <= w < TwoTo32

  /** `packed & 0xfffff`. */
  function CellOf(w: Word): (c: int)
    ensures 0 <= c <= 0xF_FFFF
  {
    w % 0x10_0000
  }

  /** `packed >>> 24`. */
  function ValueOf(w: Word): (v: int)
    ensures 0 <= v <= 255
  {
    w / 0x100_0000
  }

  /** Bits 20-23 of a word, which neither decoder looks at. */
  function ReservedBits(w: Word): int
  {
    (w / 0x10_0000) % 16
  }

  /** The word a producer of the format writes for a cell and its value. */
  function Pack(cellId: int, value: int): Word
    requires 0 <= cellId <= 0xF_FFFF && 0 <= value <= 255
  {
    value * 0x100_0000 + cellId
  }

  /** Decoding a packed word gives back the cell id and the value. */
  lemma UnpackPack(cellId: int, value: int)
    requires 0 <= cellId <= 0xF_FFFF && 0 <= value <= 255
    ensures CellOf(Pack(cellId, value)) == cellId
    ensures ValueOf(Pack(cellId, value)) == value
    ensures ReservedBits(Pack(cellId, value)) == 0
  {
  }

  /** Re-packing a decoded word restores it, except for the ignored bits 20-23. */
  lemma PackUnpack(w: Word)
    ensures Pack(CellOf(w), ValueOf(w)) == w - ReservedBits(w) * 0x10_0000
  {
    var hi := w / 0x10_0000;
    assert w == hi * 0x10_0000 + CellOf(w);
    assert hi == (hi / 16) * 16 + hi % 16;
    ValueFromHigh(w);
  }

  /** Bits 24-31 are bits 4-7 of the word shifted right by 20. */
  lemma ValueFromHigh(w: Word)
    ensures (w / 0x10_0000) / 16 == ValueOf(w)
  {
    var q := w / 0x10_0000;
    var r := w % 0x10_0000;
    assert w == q * 0x10_0000 + r;
    assert q == (q / 16) * 16 + q % 16;
    assert w == (q / 16) * 0x100_0000 + ((q % 16) * 0x10_0000 + r);
    DivModUnique(w, 0x100_0000, q / 16, (q % 16) * 0x10_0000 + r);
  }

  /** Changing the ignored bits 20-23 changes neither the cell id nor the value. */
  lemma ReservedBitsIgnored(w: Word, bits: int)
    requires 0 <= bits < 16
    ensures 0 <= w - ReservedBits(w) * 0x10_0000 + bits * 0x10_0000 < TwoTo32
    ensures var w': Word := w - ReservedBits(w) * 0x10_0000 + bits * 0x10_0000;
      CellOf(w') == CellOf(w) && ValueOf(w') == ValueOf(w) && ReservedBits(w') == bits
  {
    PackUnpack(w);
    var w' := Pack(CellOf(w), ValueOf(w)) + bits * 0x10_0000;
    assert w' == ValueOf(w) * 0x100_0000 + (bits * 0x10_0000 + CellOf(w));
    DivModUnique(w', 0x100_0000, ValueOf(w), bits * 0x10_0000 + CellOf(w));
    assert w' == (ValueOf(w) * 16 + bits) * 0x10_0000 + CellOf(w);
    DivModUnique(w', 0x10_0000, ValueOf(w) * 16 + bits, CellOf(w));
    DivModUnique(ValueOf(w) * 16 + bits, 16, ValueOf(w), bits);
  }

  /** The index of the last word of `words` whose cell id is `c`. */
  function LastIndexOf(words: seq<Word>, c: int): (r: Option<nat>)
    ensures r.Some? ==> r.value < |words| && CellOf(words[r.value]) == c
    ensures r.Some? ==> forall j :: r.value < j < |words| ==> CellOf(words[j]) != c
    ensures r.None? <==> forall j :: 0 <= j < |words| ==> CellOf(words[j]) != c
  {
    if |words| == 0 then None
    else if CellOf(words[|words| - 1]) == c then Some(|words| - 1)
    else LastIndexOf(words[..|words| - 1], c)
  }

  /** What `_cache[c]` ends up holding: the last word with cell id `c` wins. */
  lemma LastIndexOfSnoc(words: seq<Word>, w: Word, c: int)
    ensures LastIndexOf(words + [w], c)
      == if CellOf(w) == c then Some(|words|) else LastIndexOf(words, c)
  {
    assert (words + [w])[..|words|] == words;
  }

  /** The `properties` member of a feature. */
  datatype Properties =
    | CellValue(cellId: int, value: int)
    | Rgba(rgba: seq<Option<Byte>>)

  /** A GeoJSON Polygon feature; `coordinates` holds the single ring. */
  datatype Feature = Feature(id: int, coordinates: seq<Ring>, properties: Properties)

  /** The feature `arrayBufferToGeoJSON` builds for the word at index `i`. */
  function WordFeature(i: int, w: Word, cellRing: int -> Ring): Feature
  {
    Feature(i, [cellRing(CellOf(w))], CellValue(CellOf(w), ValueOf(w)))
  }

  /**
   * `arrayBufferToGeoJSON`: one feature per word, in order, and a cache from
   * cell id to the feature of the last word naming that cell.  The ring
   * builder is a parameter (the source calls `this.cellIdToCoordinates`).
   */
  method ArrayBufferToGeoJSON(words: seq<Word>, cellRing: int -> Ring)
    returns (features: seq<Feature>, cache: map<int, Feature>)
    ensures |features| == |words|
    ensures forall i :: 0 <= i < |words| ==> features[i] == WordFeature(i, words[i], cellRing)
    ensures forall c :: c in cache <==> LastIndexOf(words, c).Some?
    ensures forall c :: c in cache ==> cache[c] == features[LastIndexOf(words, c).value]
  {
    features := [];
    cache := map[];
    var i := 0;
    while i < |words|
      invariant 0 <= i <= |words|
      invariant |features| == i
      invariant forall j :: 0 <= j < i ==> features[j] == WordFeature(j, words[j], cellRing)
      invariant forall c :: c in cache <==> LastIndexOf(words[..i], c).Some?
      invariant forall c :: c in cache ==> cache[c] == features[LastIndexOf(words[..i], c).value]
    {
      var packed := words[i];
      var cellId := CellOf(packed);
      var feature := Feature(i, [cellRing(cellId)], CellValue(cellId, ValueOf(packed)));
      assert words[..i + 1] == words[..i] + [packed];
      forall c {
        LastIndexOfSnoc(words[..i], packed, c);
      }
      features := features + [feature];
      cache := cache[cellId := feature];
      i := i + 1;
    }
    assert words[..i] == words;
  }

  /** The colour channels `d3.rgb(colorScale(value))` gives for a value. */
  type Colouring = int -> (int, int, int)

  /** The buffer after one word's four stores `data[idx+0..3] = r, g, b, 255`. */
  function Paint(data: seq<Byte>, w: Word, colour: Colouring): seq<Byte>
  {
    var idx := CellOf(w) * 4;
    var rgb := colour(ValueOf(w));
    Assigned(Assigned(Assigned(Assigned(data, idx, rgb.0), idx + 1, rgb.1), idx + 2, rgb.2), idx + 3, 255)
  }

  /** The dense buffer of `n` cells after painting every word in order. */
  function PaintedBytes(words: seq<Word>, colour: Colouring, n: nat): seq<Byte>
  {
    if |words| == 0 then seq(4 * n, _ => 0)
    else Paint(PaintedBytes(words[..|words| - 1], colour, n), words[|words| - 1], colour)
  }

  /** The sparse `rawData` after recording every word in order. */
  function RawData(words: seq<Word>): map<int, int>
  {
    if |words| == 0 then map[]
    else RawData(words[..|words| - 1])[CellOf(words[|words| - 1]) := ValueOf(words[|words| - 1])]
  }

  /** Channel `k` of a painted cell: red, green, blue clamped, alpha 255. */
  function Channel(rgb: (int, int, int), k: int): Byte
  {
    if k == 0 then Clamp(rgb.0)
    else if k == 1 then Clamp(rgb.1)
    else if k == 2 then Clamp(rgb.2)
    else 255
  }

  /** The byte at `b` of the decoded buffer, described by the last word naming its cell. */
  function DecodedByte(words: seq<Word>, colour: Colouring, b: int): Byte
  {
    match LastIndexOf(words, b / 4)
    case None => 0
    case Some(i) => Channel(colour(ValueOf(words[i])), b % 4)
  }

  /**
   * Each byte of the painted buffer belongs to one cell: it is that cell's
   * colour channel from the last word naming the cell, or 0 when no word
   * names it. Words naming a cell at or past `n` change nothing.
   */
  lemma {:induction false} PaintedBytesAt(words: seq<Word>, colour: Colouring, n: nat)
    ensures |PaintedBytes(words, colour, n)| == 4 * n
    ensures forall b :: 0 <= b < 4 * n ==> PaintedBytes(words, colour, n)[b] == DecodedByte(words, colour, b)
  {
    if |words| > 0 {
      var init := words[..|words| - 1];
      var w := words[|words| - 1];
      assert words == init + [w];
      PaintedBytesAt(init, colour, n);
      PaintAt(PaintedBytes(init, colour, n), w, colour);
      forall b | 0 <= b < 4 * n
        ensures PaintedBytes(words, colour, n)[b] == DecodedByte(words, colour, b)
      {
        LastIndexOfSnoc(init, w, b / 4);
      }
    }
  }

  /** One word's stores set the four bytes of its cell to the cell's channels and nothing else. */
  lemma PaintAt(data: seq<Byte>, w: Word, colour: Colouring)
    ensures |Paint(data, w, colour)| == |data|
    ensures forall b :: 0 <= b < |data| ==>
      Paint(data, w, colour)[b] == if b / 4 == CellOf(w) then Channel(colour(ValueOf(w)), b % 4) else data[b]
  {
    forall b | 0 <= b < |data| && b / 4 == CellOf(w)
      ensures Paint(data, w, colour)[b] == Channel(colour(ValueOf(w)), b % 4)
    {
      assert b == CellOf(w) * 4 + b % 4;
    }
  }

  /** `rawData[cellId] = value` in order: a cell's entry is the value of the last word naming it. */
  lemma {:induction false} RawDataAt(words: seq<Word>, c: int)
    ensures c in RawData(words) <==> LastIndexOf(words, c).Some?
    ensures c in RawData(words) ==> RawData(words)[c] == ValueOf(words[LastIndexOf(words, c).value])
  {
    if |words| > 0 {
      var init := words[..|words| - 1];
      var w := words[|words| - 1];
      assert words == init + [w];
      RawDataAt(init, c);
      LastIndexOfSnoc(init, w, c);
    }
  }

  /** Decoding the first i + 1 words is decoding the first i, then word i. */
  lemma DecodePrefixStep(words: seq<Word>, colour: Colouring, n: nat, i: nat)
    requires i < |words|
    ensures PaintedBytes(words[..i + 1], colour, n) == Paint(PaintedBytes(words[..i], colour, n), words[i], colour)
    ensures RawData(words[..i + 1]) == RawData(words[..i])[CellOf(words[i]) := ValueOf(words[i])]
  {
    assert words[..i + 1][..i] == words[..i];
  }

  /** The loop body of `arrayBufferToGrid` for one word: the cell's four channel stores. */
  method PaintWord(data: array<Byte>, packed: Word, colour: Colouring)
    modifies data
    ensures data[..] == Paint(old(data[..]), packed, colour)
  {
    var cellId := CellOf(packed);
    var idx := cellId * 4;
    var value := ValueOf(packed);
    var rgb := colour(value);
    Store(data, idx + 0, rgb.0);
    Store(data, idx + 1, rgb.1);
    Store(data, idx + 2, rgb.2);
    Store(data, idx + 3, 255);
  }

  /**
   * `arrayBufferToGrid`: a dense RGBA buffer of w*h cells (w = gridSize[1],
   * h = gridSize[0]) in which each word paints bytes cellId*4 .. cellId*4+3,
   * stores beyond the buffer being dropped, and a sparse map from cell id to
   * value. The colour scale is a parameter.
   */
  method ArrayBufferToGrid(words: seq<Word>, gridSize: (int, int), colour: Colouring)
    returns (grid: Grid)
    requires gridSize.0 > 0 && gridSize.1 > 0
    ensures fresh(grid) && grid.Valid() && grid.cellCache == map[]
    ensures grid.rows == gridSize.1 && grid.cols == gridSize.0
    ensures grid.data == PaintedBytes(words, colour, gridSize.0 * gridSize.1)
    ensures grid.rawData == Some(RawData(words))
  {
    var w := gridSize.1;
    var h := gridSize.0;
    var data := new Byte[w * h * 4](_ => 0);
    var rawData := map[];
    var i := 0;
    ghost var n := h * w;
    assert w * h * 4 == 4 * n;
    assert data[..] == PaintedBytes(words[..0], colour, n);
    while i < |words|
      invariant 0 <= i <= |words|
      invariant data[..] == PaintedBytes(words[..i], colour, n)
      invariant rawData == RawData(words[..i])
    {
      var packed := words[i];
      var cellId := CellOf(packed);
      var value := ValueOf(packed);
      PaintWord(data, packed, colour);
      DecodePrefixStep(words, colour, n, i);
      rawData := rawData[cellId := value];
      i := i + 1;
    }
    assert words[..i] == words;
    grid := new Grid(data[..], gridSize, Some(rawData));
  }

  /** `getCell` on a decoded grid is the value of the last word naming the cell. */
  lemma DecodedCell(grid: Grid, words: seq<Word>, c: int)
    requires grid.rawData == Some(RawData(words))
    ensures grid.GetCell(c).Some? <==> LastIndexOf(words, c).Some?
    ensures grid.GetCell(c).Some? ==> grid.GetCell(c).value == ValueOf(words[LastIndexOf(words, c).value])
  {
    RawDataAt(words, c);
  }

  /**
   * The cell numbered w*h, the last cell of a grid whose ids start at 1,
   * paints no byte: its stores start at 4*w*h, just past the buffer.
   */
  lemma LastCellDropped(words: seq<Word>, w: Word, colour: Colouring, n: nat)
    requires CellOf(w) == n
    ensures PaintedBytes(words + [w], colour, n) == PaintedBytes(words, colour, n)
  {
    assert (words + [w])[..|words|] == words;
    PaintedBytesAt(words, colour, n);
  }

  /** The four entries `array[i..i+3]`, `undefined` past the end. */
  function Quad(bytes: seq<Byte>, i: int): seq<Option<Byte>>
  {
    [Read(bytes, i), Read(bytes, i + 1), Read(bytes, i + 2), Read(bytes, i + 3)]
  }

  /** A quad whose four entries are all exactly 0 carries no data. */
  predicate IsBlank(q: seq<Option<Byte>>)
  {
    |q| == 4 && q[0] == Some(0) && q[1] == Some(0) && q[2] == Some(0) && q[3] == Some(0)
  }

  /** The feature `uInt8ArrayToGeoJSON` builds for the quad at offset `i`. */
  function QuadFeature(bytes: seq<Byte>, i: int, cellRing: int -> Ring): Feature
  {
    Feature(i, [cellRing(i / 4 + 1)], Rgba(Quad(bytes, i)))
  }

  /**
   * Every feature is `QuadFeature` of a non-blank quad at an offset below
   * `i`, and the offsets ascend.
   */
  predicate Listed(bytes: seq<Byte>, cellRing: int -> Ring, features: seq<Feature>, i: int)
  {
    && (forall k :: 0 <= k < |features| ==>
          && 0 <= features[k].id < i && features[k].id < |bytes| && features[k].id % 4 == 0
          && !IsBlank(Quad(bytes, features[k].id))
          && features[k] == QuadFeature(bytes, features[k].id, cellRing))
    && (forall j, k :: 0 <= j < k < |features| ==> features[j].id < features[k].id)
  }

  /** Every non-blank quad at an offset below `i` has a feature. */
  predicate Covers(bytes: seq<Byte>, features: seq<Feature>, i: int)
  {
    forall i' :: 0 <= i' < i && i' < |bytes| && i' % 4 == 0 && !IsBlank(Quad(bytes, i')) ==>
      exists k :: 0 <= k < |features| && features[k].id == i'
  }

  /** The quad visited at `i`, blank or given its feature, keeps the listing valid up to `i + 4`. */
  lemma ListedStep(bytes: seq<Byte>, cellRing: int -> Ring, features: seq<Feature>, i: int, next: seq<Feature>)
    requires 0 <= i < |bytes| && Listed(bytes, cellRing, features, i) && i % 4 == 0
    requires || next == features
             || (next == features + [QuadFeature(bytes, i, cellRing)] && !IsBlank(Quad(bytes, i)))
    ensures Listed(bytes, cellRing, next, i + 4)
  {
    if next != features {
      assert forall k :: 0 <= k < |features| ==> next[k] == features[k];
      assert next[|features|].id == i;
    }
  }

  /** The quad visited at `i`, blank or given its feature, extends the coverage to `i + 4`. */
  lemma CoversStep(bytes: seq<Byte>, cellRing: int -> Ring, features: seq<Feature>, i: int, next: seq<Feature>)
    requires i % 4 == 0 && Covers(bytes, features, i)
    requires || (next == features && (i < |bytes| ==> IsBlank(Quad(bytes, i))))
             || next == features + [QuadFeature(bytes, i, cellRing)]
    ensures Covers(bytes, next, i + 4)
  {
    forall i' | 0 <= i' < i + 4 && i' < |bytes| && i' % 4 == 0 && !IsBlank(Quad(bytes, i'))
      ensures exists k :: 0 <= k < |next| && next[k].id == i'
    {
      if i' < i {
        var k :| 0 <= k < |features| && features[k].id == i';
        assert next[k] == features[k];
      } else {
        assert i' == i;
        assert next[|features|].id == i';
      }
    }
  }

  /**
   * `uInt8ArrayToGeoJSON`: one feature per non-blank quad, in ascending
   * offset order, for cell offset/4 + 1; a trailing partial quad reads
   * `undefined` past the end and is never blank.
   */
  method UInt8ArrayToGeoJSON(bytes: seq<Byte>, cellRing: int -> Ring) returns (features: seq<Feature>)
    ensures forall k :: 0 <= k < |features| ==>
      && 0 <= features[k].id < |bytes| && features[k].id % 4 == 0
      && !IsBlank(Quad(bytes, features[k].id))
      && features[k] == QuadFeature(bytes, features[k].id, cellRing)
    ensures forall j, k :: 0 <= j < k < |features| ==> features[j].id < features[k].id
    ensures forall i :: 0 <= i < |bytes| && i % 4 == 0 && !IsBlank(Quad(bytes, i)) ==>
      exists k :: 0 <= k < |features| && features[k].id == i
  {
    features := [];
    var i := 0;
    while i < |bytes|
      invariant 0 <= i && i % 4 == 0
      invariant Listed(bytes, cellRing, features, i) && Covers(bytes, features, i)
    {
      var cellId := i / 4 + 1;
      var r := Read(bytes, i);
      var g := Read(bytes, i + 1);
      var b := Read(bytes, i + 2);
      var a := Read(bytes, i + 3);
      ghost var before := features;
      if r == Some(0) && g == Some(0) && b == Some(0) && a == Some(0) {
        assert IsBlank(Quad(bytes, i));
      } else {
        var feature := Feature(i, [cellRing(cellId)], Rgba([r, g, b, a]));
        assert feature == QuadFeature(bytes, i, cellRing);
        features := features + [feature];
      }
      ListedStep(bytes, cellRing, before, i, features);
      CoversStep(bytes, cellRing, before, i, features);
      i := i + 4;
    }
  }
}
