/**
 * The colour arithmetic of the bundle's legend (d3-grid-map.js): the
 * `rotate` of `complementaryColor`, which shifts a colour channel half way
 * round the byte range so that the legend's text contrasts with its swatch.
 */
module Legend {
  import opened JsNumbers

  /** An RGB colour as `d3.rgb` holds it. */
  datatype Rgb = Rgb(r: int, g: int, b: int)

  /**
   * `rotate(x) = (x + 127) % 255`, with JavaScript's truncating `%`: for
   * any channel that is not below -127 the result is a channel in [0, 254];
   * channels up to 127 move up by 127, larger ones down by 128.
   */
  function Rotate(x: int): (r: int)
    ensures -127 <= x ==> 0 <= r <= 254
    ensures -127 <= x <= 127 ==> r == x + 127
    ensures 128 <= x <= 382 ==> r == x - 128
  {
    JsRem(x + 127, 255)
  }

  /** `complementaryColor(color)`: every channel rotated. */
  function ComplementaryColor(c: Rgb): Rgb
  {
    Rgb(Rotate(c.r), Rotate(c.g), Rotate(c.b))
  }

  /** Every byte channel ends up at least 127 away from where it started. */
  lemma RotateContrasts(x: int)
    requires 0 <= x <= 255
    ensures Rotate(x) - x >= 127 || x - Rotate(x) >= 127
  {
    if x <= 127 {
      assert Rotate(x) == x + 127;
    } else {
      assert Rotate(x) == x - 128;
    }
  }

  /** Distinct channels in [0, 254] rotate to distinct channels. */
  lemma RotateInjective(x: int, y: int)
    requires 0 <= x <= 254 && 0 <= y <= 254 && x != y
    ensures Rotate(x) != Rotate(y)
  {
    if x <= 127 && y >= 128 {
      assert Rotate(x) >= 127 && Rotate(y) <= 126;
    } else if y <= 127 && x >= 128 {
      assert Rotate(y) >= 127 && Rotate(x) <= 126;
    }
  }

  /** Channel 255 collides with channel 0: both rotate to 127. */
  lemma RotateCollidesAtFull()
    ensures Rotate(0) == Rotate(255) == 127
  {
  }

  /** The complement of a byte colour is a byte colour whose channels all contrast with the original ones. */
  lemma ComplementContrasts(c: Rgb)
    requires 0 <= c.r <= 255 && 0 <= c.g <= 255 && 0 <= c.b <= 255
    ensures var k := ComplementaryColor(c);
      && 0 <= k.r <= 254 && 0 <= k.g <= 254 && 0 <= k.b <= 254
      && (k.r - c.r >= 127 || c.r - k.r >= 127)
      && (k.g - c.g >= 127 || c.g - k.g >= 127)
      && (k.b - c.b >= 127 || c.b - k.b >= 127)
  {
    RotateContrasts(c.r);
    RotateContrasts(c.g);
    RotateContrasts(c.b);
  }
}
