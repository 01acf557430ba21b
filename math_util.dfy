/**
  The extended Math helpers of `src/lib/Util/Math.js`: `flip`, `invert`,
  `clamp` and the scaled-difference `lerp`. Arguments are numbers, so the
  not-a-number branch of `flip` cannot be reached here.
 */
module MathUtil {
  import opened JsNumber

  /**
    `flip(value, max)`: the distance between `max` and the integer part of
    `value`, never negative: `max` minus that integer part when it does not
    exceed `max`, and the excess over `max` otherwise.
   */
  function Flip(value: real, max: real): (r: real)
    ensures 0.0 <= r
    ensures IsIntegral(value) && value <= max ==> r == max - value
    ensures Trunc(value) as real <= max ==> r == max - Trunc(value) as real
    ensures max < Trunc(value) as real ==> r == Trunc(value) as real - max
  {
    Abs(max - Trunc(value) as real)
  }

  /** `flip` undoes itself on whole numbers between 0 and `max`. */
  lemma FlipInvolutive(v: int, max: int)
    requires 0 <= v <= max
    ensures Flip(Flip(v as real, max as real), max as real) == v as real
  {
    var once := Flip(v as real, max as real);
    assert once == (max - v) as real;
    assert IsIntegral(once) by { FloorOfInteger(max - v, once); }
  }

  /** The example of the documentation: `flip(10, 255) === 245`. */
  lemma FlipExample()
    ensures Flip(10.0, 255.0) == 245.0
  {
    assert IsIntegral(10.0) by { FloorOfInteger(10, 10.0); }
  }

  /** `invert(num)`: the number with its sign changed. */
  function Invert(num: real): (r: real)
    ensures r == -num
    ensures r + num == 0.0
  {
    num * -1.0
  }

  /** Inverting twice gives the number back; the documented `invert(99.5) === -99.5`. */
  lemma InvertInvolutive(num: real)
    ensures Invert(Invert(num)) == num
    ensures Invert(99.5) == -99.5
  {
  }

  /**
    `clamp(value, min, max)`: `Math.min(Math.max(value, min), max)`. Within a
    proper range it bounds the value; when `min > max` the final `Math.min`
    wins and the result is `max`, whatever the value.
   */
  function Clamp(value: real, min: real, max: real): (r: real)
    ensures min <= max ==> min <= r <= max
    ensures min <= value <= max ==> r == value
    ensures value < min <= max ==> r == min
    ensures min <= max < value ==> r == max
    ensures max < min ==> r == max
  {
    Min(Max(value, min), max)
  }

  /** Clamping twice into the same range is clamping once; the documented `clamp(370, 0, 360) === 360`. */
  lemma ClampIdempotent(value: real, min: real, max: real)
    ensures Clamp(Clamp(value, min, max), min, max) == Clamp(value, min, max)
    ensures Clamp(370.0, 0.0, 360.0) == 360.0
  {
  }

  /**
    `lerp(a, b, t)`: `(b - a) * t`, the scaled difference. It is not the
    textbook interpolation `a + (b - a) * t`: at `t = 1` it gives `b - a`.
   */
  function Lerp(a: real, b: real, t: real): (r: real)
    ensures t == 0.0 || a == b ==> r == 0.0
    ensures t == 1.0 ==> r == b - a
    ensures r == a + (b - a) * t - a
  {
    (b - a) * t
  }

  /** The example of the documentation: `lerp(2.5, 20, 0.016) === 0.28`. */
  lemma LerpExample()
    ensures Lerp(2.5, 20.0, 0.016) == 0.28
  {
  }
}
