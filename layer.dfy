/**
 * A map layer of src/layer.js: its options with their defaults, its
 * visibility switch, its `draw` gating and its own copy of a grid into the
 * layer's canvas image.
 */
module Layers {
  import opened Wrappers
  import opened JsNumbers
  import opened GridCells

  const DefaultStrokeColor: string := "rgba(100,100,100,.8)"
  const DefaultFillColor: string := "rgba(237,178,48,1)"
  const DefaultZIndex: real := 1.0

  /** A property that may be missing, or present as an own property whose value may be `undefined`. */
  datatype OwnProperty<T> = Missing | Own(value: Option<T>)

  /** The options object a caller hands to `new Layer(options)`; None is an undefined property. */
  datatype OptionsIn = OptionsIn(
    strokeColor: Option<string>,
    fillColor: Option<string>,
    zIndex: Option<real>,
    renderOnAnimate: OwnProperty<bool>,
    gridSize: Option<(int, int)>)

  /** The options a layer holds once the constructor has filled in the defaults. */
  datatype LayerOptions = LayerOptions(
    strokeColor: string,
    fillColor: string,
    zIndex: real,
    renderOnAnimate: Option<bool>,
    gridSize: Option<(int, int)>)

  /** `options || {}` for an undefined options argument. */
  const EmptyOptions: OptionsIn := OptionsIn(None, None, None, Missing, None)

  /** A string is truthy when it is defined and not empty. */
  predicate IsTruthy(s: Option<string>)
  {
    s.Some? && s.value != ""
  }

  /** `x || default` on a string property. */
  function OrDefault(s: Option<string>, fallback: string): string
  {
    if IsTruthy(s) then s.value else fallback
  }

  /**
   * The constructor's defaulting: colours replace only falsy values, zIndex
   * defaults only when undefined (0 is kept) and renderOnAnimate only when it
   * is not an own property (an own `false` or `undefined` is kept).
   */
  function ApplyDefaults(options: Option<OptionsIn>): (r: LayerOptions)
    ensures var o := if options.Some? then options.value else EmptyOptions;
      && (IsTruthy(o.strokeColor) ==> r.strokeColor == o.strokeColor.value)
      && (!IsTruthy(o.strokeColor) ==> r.strokeColor == DefaultStrokeColor)
      && (IsTruthy(o.fillColor) ==> r.fillColor == o.fillColor.value)
      && (!IsTruthy(o.fillColor) ==> r.fillColor == DefaultFillColor)
      && (o.zIndex.Some? ==> r.zIndex == o.zIndex.value)
      && (o.zIndex.None? ==> r.zIndex == DefaultZIndex)
      && (o.renderOnAnimate.Own? ==> r.renderOnAnimate == o.renderOnAnimate.value)
      && (o.renderOnAnimate.Missing? ==> r.renderOnAnimate == Some(true))
      && r.gridSize == o.gridSize
  {
    var o := if options.Some? then options.value else EmptyOptions;
    LayerOptions(
      OrDefault(o.strokeColor, DefaultStrokeColor),
      OrDefault(o.fillColor, DefaultFillColor),
      if o.zIndex.None? then DefaultZIndex else o.zIndex.value,
      if o.renderOnAnimate.Missing? then Some(true) else o.renderOnAnimate.value,
      o.gridSize)
  }

  /** The options object as the caller sees it after the constructor mutated it. */
  function AsInput(o: LayerOptions): OptionsIn
  {
    OptionsIn(Some(o.strokeColor), Some(o.fillColor), Some(o.zIndex), Own(o.renderOnAnimate), o.gridSize)
  }

  /** Running the defaulting again over an already defaulted options object changes nothing. */
  lemma ApplyDefaultsIdempotent(options: Option<OptionsIn>)
    ensures ApplyDefaults(Some(AsInput(ApplyDefaults(options)))) == ApplyDefaults(options)
  {
    var r := ApplyDefaults(options);
    assert r.strokeColor != "" && r.fillColor != "" by {
      var o := if options.Some? then options.value else EmptyOptions;
      assert DefaultStrokeColor != "" && DefaultFillColor != "";
    }
  }

  /** The data a layer shows when it has no grid. */
  datatype JsonData = JsonData(isTopology: bool)

  /** The canvas operations `draw` issues on the layer's own canvas. */
  datatype LayerOp = ClearCanvas | DrawGridOp | DrawGeoJsonOp

  /**
   * The byte `renderGridToCanvas` leaves at channel k of a pixel whose
   * indexMap entry is `entry`: falsy entries (undefined or 0) are skipped,
   * any other entry copies all four grid bytes, an out-of-range read storing 0.
   */
  function LayerPixelByte(prev: Byte, data: seq<Byte>, entry: Option<int>, k: int): Byte
  {
    if entry.None? || entry.value == 0 then prev else Stored(ReadAt(data, entry, k))
  }

  /** The image after one indexMap entry: four stores for a truthy entry, none otherwise. */
  function RenderPixel(image: seq<Byte>, data: seq<Byte>, i: int, entry: Option<int>): seq<Byte>
  {
    if entry.None? || entry.value == 0 then image
    else
      var q := entry.value;
      Assigned(Assigned(Assigned(Assigned(image,
        4 * i, Stored(Read(data, q * 4))),
        4 * i + 1, Stored(Read(data, q * 4 + 1))),
        4 * i + 2, Stored(Read(data, q * 4 + 2))),
        4 * i + 3, Stored(Read(data, q * 4 + 3)))
  }

  /** The layer image after `renderGridToCanvas(grid, indexMap)`. */
  function LayerRendered(image: seq<Byte>, data: seq<Byte>, indexMap: seq<Option<int>>): seq<Byte>
  {
    if |indexMap| == 0 then image
    else
      var n := |indexMap| - 1;
      RenderPixel(LayerRendered(image, data, indexMap[..n]), data, n, indexMap[n])
  }

  /** The loop body of `renderGridToCanvas` for entry i: four stores unless the entry is falsy. */
  method RenderEntry(image: array<Byte>, data: seq<Byte>, i: int, entry: Option<int>)
    modifies image
    ensures image[..] == RenderPixel(old(image[..]), data, i, entry)
  {
    if entry.Some? && entry.value != 0 {
      var imageIndexT4 := 4 * i;
      var q := entry.value;
      var r, g, b, a := Stored(Read(data, q * 4)), Stored(Read(data, q * 4 + 1)),
                        Stored(Read(data, q * 4 + 2)), Stored(Read(data, q * 4 + 3));
      Store(image, imageIndexT4, r);
      Store(image, imageIndexT4 + 1, g);
      Store(image, imageIndexT4 + 2, b);
      Store(image, imageIndexT4 + 3, a);
    }
  }

  /**
   * Byte j of the rendered layer image belongs to pixel j/4, channel j%4:
   * a pixel with a truthy entry q holds grid byte q*4 + j%4 (0 when that
   * read is outside the grid); every other byte, including those past the
   * indexMap, keeps its old value.
   */
  lemma {:induction false} LayerRenderedAt(image: seq<Byte>, data: seq<Byte>, indexMap: seq<Option<int>>)
    ensures |LayerRendered(image, data, indexMap)| == |image|
    ensures forall j :: 0 <= j < |image| ==>
      LayerRendered(image, data, indexMap)[j]
        == if j / 4 < |indexMap| then LayerPixelByte(image[j], data, indexMap[j / 4], j % 4) else image[j]
  {
    if |indexMap| > 0 {
      var n := |indexMap| - 1;
      var init := indexMap[..n];
      LayerRenderedAt(image, data, init);
      RenderPixelAt(LayerRendered(image, data, init), data, n, indexMap[n]);
      forall j | 0 <= j < |image| && j / 4 < n
        ensures init[j / 4] == indexMap[j / 4]
      {
      }
    }
  }

  /** One pixel's stores touch only the four bytes of that pixel. */
  lemma RenderPixelAt(image: seq<Byte>, data: seq<Byte>, i: nat, entry: Option<int>)
    ensures |RenderPixel(image, data, i, entry)| == |image|
    ensures forall j :: 0 <= j < |image| ==>
      RenderPixel(image, data, i, entry)[j] == if j / 4 == i then LayerPixelByte(image[j], data, entry, j % 4) else image[j]
  {
    forall j | 0 <= j < |image| && j / 4 == i
      ensures RenderPixel(image, data, i, entry)[j] == LayerPixelByte(image[j], data, entry, j % 4)
    {
      assert j == 4 * i + j % 4;
    }
  }

  class Layer {
    const options: LayerOptions
    var visible: bool
    var grid: Grid?
    var json: Option<JsonData>
    var simplified: bool

    /** `new Layer(options)`: defaults filled in, visible, no data yet. */
    constructor (options: Option<OptionsIn>)
      ensures this.options == ApplyDefaults(options)
      ensures visible && grid == null && json.None? && !simplified
    {
      this.options := ApplyDefaults(options);
      visible := true;
      grid := null;
      json := None;
      simplified := false;
    }

    /** `setVisible(v)`: only the visibility flag changes. */
    method SetVisible(v: bool)
      modifies this`visible
      ensures visible == v
    {
      visible := v;
    }

    method Hide()
      modifies this`visible
      ensures !visible
    {
      SetVisible(false);
    }

    method Show()
      modifies this`visible
      ensures visible
    {
      SetVisible(true);
    }

    /**
     * `draw`: always clears first; a hidden layer draws nothing more, a
     * visible one draws its grid in preference to its json.
     */
    method Draw() returns (ops: seq<LayerOp>)
      ensures 1 <= |ops| <= 2 && ops[0] == ClearCanvas
      ensures |ops| == 1 <==> !visible || (grid == null && json.None?)
      ensures |ops| == 2 && ops[1] == DrawGridOp <==> visible && grid != null
      ensures |ops| == 2 && ops[1] == DrawGeoJsonOp <==> visible && grid == null && json.Some?
    {
      ops := [ClearCanvas];
      if !visible {
        return;
      }
      if grid != null {
        ops := ops + [DrawGridOp];
      } else if json.Some? {
        ops := ops + [DrawGeoJsonOp];
      }
    }

    /**
     * `renderGridToCanvas(grid, indexMap)` over the layer's image buffer:
     * the bytes of every pixel with a truthy entry q become grid bytes
     * q*4 .. q*4+3, every other byte is left as it was.
     */
    method RenderGridToCanvas(image: array<Byte>, data: seq<Byte>, indexMap: seq<Option<int>>)
      modifies image
      ensures image[..] == LayerRendered(old(image[..]), data, indexMap)
    {
      ghost var before := image[..];
      var i := 0;
      while i < |indexMap|
        invariant 0 <= i <= |indexMap|
        invariant image[..] == LayerRendered(before, data, indexMap[..i])
      {
        assert indexMap[..i + 1][..i] == indexMap[..i];
        RenderEntry(image, data, i, indexMap[i]);
        i := i + 1;
      }
      assert indexMap[..i] == indexMap;
    }
  }
}
