/**
 * The few pieces of JavaScript number and typed-array semantics the grid engine
 * depends on, stated over exact integers and reals (no IEEE rounding).
 */
module JsNumbers {
  import opened Wrappers

  /** A byte as held by a Uint8Array / Uint8ClampedArray element. */
  type Byte = b: int | 0 <= b < 256

  const TwoTo31: int := 0x8000_0000
  const TwoTo32: int := 0x1_0000_0000

  /** Truncation of a real toward zero (the integer part of `Math.trunc`). */
  function Trunc(x: real): (r: int)
    ensures x >= 0.0 ==> r == x.Floor
    ensures x >= 0.0 ==> 0 <= r
    ensures x < 0.0 ==> r <= 0 && (r as real) - 1.0 < x <= r as real
  {
    if x >= 0.0 then x.Floor else -((-x).Floor)
  }

  /** ECMAScript ToInt32: wraps an integer into [-2^31, 2^31). */
  function ToInt32(n: int): (r: int)
    ensures -TwoTo31 <= r < TwoTo31
    ensures (r - n) % TwoTo32 == 0
    ensures -TwoTo31 <= n < TwoTo31 ==> r == n
  {
    var m := n % TwoTo32;
    if m >= TwoTo31 then m - TwoTo32 else m
  }

  /** The operator `~~x` on a finite number: truncate, then wrap to 32 bits. */
  function DoubleTilde(x: real): int
  {
    ToInt32(Trunc(x))
  }

  /** The operator `a % b` on integers: the remainder takes the sign of `a`. */
  function JsRem(a: int, b: int): (r: int)
    requires b > 0
    ensures a >= 0 ==> 0 <= r < b && r == a % b
    ensures a < 0 ==> -b < r <= 0 && r == -((-a) % b)
  {
    if a >= 0 then a % b else -((-a) % b)
  }

  /** Clamping of a Uint8ClampedArray store, for integral values. */
  function Clamp(v: int): (r: Byte)
    ensures 0 <= v < 256 ==> r == v
    ensures v < 0 ==> r == 0
    ensures v >= 256 ==> r == 255
  {
    if v < 0 then 0 else if v > 255 then 255 else v
  }

  /** `buf[k]`: an index outside the buffer reads `undefined`. */
  function Read(buf: seq<Byte>, k: int): (r: Option<Byte>)
    ensures r.Some? <==> 0 <= k < |buf|
    ensures r.Some? ==> r.value == buf[k]
  {
    if 0 <= k < |buf| then Some(buf[k]) else None
  }

  /** `buf[k]` where `k` may itself be `undefined` (then `k*4` is NaN and the read is `undefined`). */
  function ReadAt(buf: seq<Byte>, k: Option<int>, offset: int): (r: Option<Byte>)
    ensures k.None? ==> r.None?
    ensures k.Some? ==> r == Read(buf, k.value * 4 + offset)
  {
    match k
    case None => None
    case Some(q) => Read(buf, q * 4 + offset)
  }

  /** The byte a Uint8ClampedArray holds after `a[i] = v`: `undefined` becomes NaN, stored as 0. */
  function Stored(v: Option<Byte>): (r: Byte)
    ensures v.Some? ==> r == v.value
    ensures v.None? ==> r == 0
  {
    match v
    case None => 0
    case Some(b) => b
  }

  /** The buffer after `buf[k] = v`: a typed array ignores stores outside its bounds. */
  function Assigned(buf: seq<Byte>, k: int, v: int): (r: seq<Byte>)
    ensures |r| == |buf|
    ensures forall j :: 0 <= j < |buf| ==> r[j] == if j == k then Clamp(v) else buf[j]
  {
    if 0 <= k < |buf| then buf[k := Clamp(v)] else buf
  }

  /** `a[k] = v` on a Uint8ClampedArray. */
  method Store(a: array<Byte>, k: int, v: int)
    modifies a
    ensures a[..] == Assigned(old(a[..]), k, v)
  {
    if 0 <= k < a.Length {
      a[k] := Clamp(v);
    }
  }
}
