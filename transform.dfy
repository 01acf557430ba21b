/**
  The Transform component of `src/lib/Components/Transform.js`: a position
  (a Vector2) and a rotation in degrees, reduced with the remainder operator
  `% 360` whenever a Transform is built. Transform extends Vector2, so every
  Transform also carries the `x` and `y` it inherits, and passes every
  `instanceof Vector2` test.

  `translate` writes into the position object in place, so a Transform is a
  class; `add`, `subtract`, `multiply`, `divide`, `equal` and `lerp` build new
  Transforms (or a boolean) and are functions of the fields' values.
 */
module Transforms {
  import opened Outcomes
  import opened JsNumber
  import opened Vectors
  import MathUtil

  /** The values a Transform holds: the inherited x, y, the position and the rotation. */
  datatype TransformValue = TransformValue(x: real, y: real, position: Vec2, rotation: real)

  /** The options object given to `new Transform(options)`. */
  datatype TransformOptions =
    TransformOptions(x: Option<real>, y: Option<real>, position: Option<Vec2>, rotation: Option<real>)

  /** Options naming a position and a rotation only, as the arithmetic builds its results. */
  function PositionRotation(position: Vec2, rotation: real): TransformOptions {
    TransformOptions(None, None, Some(position), Some(rotation))
  }

  /** An existing Transform passed as the options object (`new Transform(b)`) supplies every field. */
  function CopyOf(t: TransformValue): TransformOptions {
    TransformOptions(Some(t.x), Some(t.y), Some(t.position), Some(t.rotation))
  }

  /** The rotation bound every constructed Transform keeps. */
  predicate IsNormalised(t: TransformValue) {
    -360.0 < t.rotation < 360.0
  }

  /**
    `new Transform(options)`: the defaults (x = y = 0, rotation 0, a zero
    position) first, then the options, then `rotation % 360`, which keeps the
    sign of the rotation.
   */
  function Construct(opts: TransformOptions): (t: TransformValue)
    ensures IsNormalised(t)
    ensures t.rotation == Rem360(opts.rotation.GetOr(0.0))
    ensures opts.rotation.None? ==> t.rotation == 0.0
    ensures opts.position.Some? ==> t.position == opts.position.value
    ensures opts.position.None? ==> t.position == Zero
    ensures t.x == opts.x.GetOr(0.0) && t.y == opts.y.GetOr(0.0)
  {
    var unreduced := TransformValue(opts.x.GetOr(0.0), opts.y.GetOr(0.0), opts.position.GetOr(Zero),
                                    opts.rotation.GetOr(0.0));
    assert Rem360(0.0) == 0.0 by { Rem360OfSmall(0.0); }
    unreduced.(rotation := Rem360(unreduced.rotation))
  }

  /**
    The rotation reduction keeps the sign of the dividend: 370 becomes 10,
    -10 stays -10, -370 becomes -10; a rotation already inside (-360, 360)
    is kept; and a copy of a constructed Transform is that Transform.
   */
  lemma ConstructRotation(t: TransformValue, rotation: real)
    requires IsNormalised(t)
    ensures Construct(PositionRotation(Zero, 370.0)).rotation == 10.0
    ensures Construct(PositionRotation(Zero, -10.0)).rotation == -10.0
    ensures Construct(PositionRotation(Zero, -370.0)).rotation == -10.0
    ensures -360.0 < rotation < 360.0 ==> Construct(PositionRotation(Zero, rotation)).rotation == rotation
    ensures Construct(CopyOf(t)) == t
  {
    assert Trunc(370.0 / 360.0) == 1;
    assert Trunc(-370.0 / 360.0) == -1;
    Rem360OfSmall(-10.0);
    if -360.0 < rotation < 360.0 {
      Rem360OfSmall(rotation);
    }
    Rem360OfSmall(t.rotation);
  }

  // ----------------------------------------------------------- arithmetic

  /** The argument of `add`, `subtract`, `multiply`, `divide`, `equal`, `lerp`. */
  datatype Operand =
    | TransformOperand(t: TransformValue)   // an instance of Transform
    | NumberOperand(n: real)                // typeof 'number'
    | OtherOperand                          // anything else, a plain Vector2 included

  /** A division by a zero component or a zero rotation is outside the model (see README, Left out). */
  predicate Divisible(op: ArithOp, arg: Operand) {
    op == Over && arg.TransformOperand? ==> Divides(Over, arg.t.position) && arg.t.rotation != 0.0
  }

  /**
    `add`, `subtract`, `multiply`, `divide`: a new Transform whose position is
    the two positions combined component-wise and whose rotation is the two
    rotations combined and reduced `% 360`; the inherited x, y of the result
    are the defaults. Any argument that is not a Transform throws a
    TypeError. Neither operand is changed.
   */
  function Arith(t: TransformValue, arg: Operand, op: ArithOp): (res: Result<TransformValue>)
    requires Divisible(op, arg)
    ensures res.TypeError? <==> !arg.TransformOperand?
    ensures res.Ok? ==> res.value.position == Combine(t.position, arg.t.position, op)
    ensures res.Ok? ==> res.value.rotation == Rem360(Apply(op, t.rotation, arg.t.rotation))
    ensures res.Ok? ==> IsNormalised(res.value) && res.value.x == 0.0 && res.value.y == 0.0
  {
    if !arg.TransformOperand? then TypeError
    else
      var u := arg.t;
      Ok(Construct(PositionRotation(Combine(t.position, u.position, op), Apply(op, t.rotation, u.rotation))))
  }

  /** The sum of two whole numbers is whole. */
  lemma IntegralSum(a: real, b: real)
    requires IsIntegral(a) && IsIntegral(b)
    ensures IsIntegral(a + b)
  {
    FloorOfInteger(a.Floor + b.Floor, a + b);
  }

  /**
    `t.add(u).subtract(u)` (and `t.subtract(u).add(u)`) gives back the
    position exactly, but the rotation only up to whole turns of 360, because
    each result is reduced `% 360`.
   */
  lemma ArithUndone(t: TransformValue, u: TransformValue, op: ArithOp)
    requires op == Plus || op == Minus
    ensures var back := Arith(Arith(t, TransformOperand(u), op).value, TransformOperand(u), Inverse(op)).value;
      back.position == t.position && IsIntegral((t.rotation - back.rotation) / 360.0)
  {
    var once := Arith(t, TransformOperand(u), op).value;
    var back := Arith(once, TransformOperand(u), Inverse(op)).value;
    ApplyInverse(op, t.position.x, u.position.x);
    ApplyInverse(op, t.position.y, u.position.y);
    var x1 := Apply(op, t.rotation, u.rotation);
    var x2 := Apply(Inverse(op), once.rotation, u.rotation);
    assert IsIntegral((x1 - once.rotation) / 360.0);
    assert IsIntegral((x2 - back.rotation) / 360.0);
    IntegralSum((x1 - once.rotation) / 360.0, (x2 - back.rotation) / 360.0);
    assert (t.rotation - back.rotation) / 360.0
        == (x1 - once.rotation) / 360.0 + (x2 - back.rotation) / 360.0;
  }

  /**
    The reduction makes the round trip lose whole turns: a rotation of 350
    plus 20 becomes 10, minus 20 becomes -10, which is not `equal` to 350.
   */
  lemma AddSubtractLosesTurn()
    ensures var t := Construct(PositionRotation(Zero, 350.0));
      var u := Construct(PositionRotation(Zero, 20.0));
      Equal(Arith(Arith(t, TransformOperand(u), Plus).value, TransformOperand(u), Minus).value,
            TransformOperand(t)) == Ok(false)
  {
    Rem360OfSmall(350.0);
    Rem360OfSmall(20.0);
    assert Trunc(370.0 / 360.0) == 1;
    Rem360OfSmall(-10.0);
  }

  /**
    `equal(transform)`: true exactly when the positions are equal and the
    rotations identical; the inherited x, y are not compared. A non-Transform
    argument throws a TypeError.
   */
  function Equal(t: TransformValue, arg: Operand): (res: Result<bool>)
    ensures res.TypeError? <==> !arg.TransformOperand?
    ensures res.Ok? ==> (res.value <==> t.position == arg.t.position && t.rotation == arg.t.rotation)
  {
    if !arg.TransformOperand? then TypeError
    else Ok(t.position == arg.t.position && t.rotation == arg.t.rotation)
  }

  /** `equal` is symmetric and ignores the inherited x, y. */
  lemma EqualProperties(t: TransformValue, u: TransformValue, x: real, y: real)
    ensures Equal(t, TransformOperand(u)) == Equal(u, TransformOperand(t))
    ensures Equal(t, TransformOperand(t.(x := x, y := y))) == Ok(true)
  {
  }

  /**
    `lerp(a, b, t)` as written: after checking its arguments it computes
    `new Transform(b).subtract(a).multiply(t)`, and `multiply` rejects the
    number `t` because it is not a Transform. So `lerp` always throws a
    TypeError, whatever its arguments.
   */
  function Lerp(a: Operand, b: Operand, t: Operand): (res: Result<TransformValue>)
    ensures res == TypeError
  {
    if !a.TransformOperand? || !b.TransformOperand? then TypeError
    else if !t.NumberOperand? then TypeError
    else
      match Arith(Construct(CopyOf(b.t)), a, Minus)
      case Ok(d) => Arith(d, t, Times)
      case TypeError => TypeError
  }

  /**
    The scaling step of the intended `lerp`: a Transform's position scaled by
    the number `k`, its rotation scaled and reduced `% 360`, and the inherited
    x, y left at their defaults. No source operation performs this: `multiply`
    rejects a number.
   */
  function ScaleBy(t: TransformValue, k: real): (r: TransformValue)
    ensures r.position == Scale(t.position, k) && IsNormalised(r)
    ensures r.rotation == Rem360(t.rotation * k) && r.x == 0.0 && r.y == 0.0
    ensures k == 1.0 && IsNormalised(t) ==> r == t.(x := 0.0, y := 0.0)
  {
    Construct(PositionRotation(Scale(t.position, k), t.rotation * k))
  }

  /**
    `lerp` as its documentation describes it: the difference
    `new Transform(b).subtract(a)` multiplied by the number `t`. The position
    is the scaled difference of `Math.js`'s `lerp` on each component, the
    rotation is the difference's rotation times `t` reduced `% 360`; at
    `t = 0` the result is the zero Transform and at `t = 1` it is
    `b.subtract(a)`. The argument checks are those of `Lerp`.
   */
  function LerpScaled(a: Operand, b: Operand, t: Operand): (res: Result<TransformValue>)
    ensures res.Ok? <==> a.TransformOperand? && b.TransformOperand? && t.NumberOperand?
    ensures res.Ok? ==>
      res.value.position == Vec2(MathUtil.Lerp(a.t.position.x, b.t.position.x, t.n), MathUtil.Lerp(a.t.position.y, b.t.position.y, t.n))
    ensures res.Ok? ==> IsNormalised(res.value) && res.value.x == 0.0 && res.value.y == 0.0
    ensures a.TransformOperand? && b.TransformOperand? && t.NumberOperand? ==>
      var d := Arith(Construct(CopyOf(b.t)), a, Minus);
      d.Ok? && res.value == ScaleBy(d.value, t.n)
    ensures res.Ok? && t.n == 0.0 ==> res.value == Construct(PositionRotation(Zero, 0.0))
    ensures res.Ok? && t.n == 1.0 && IsNormalised(b.t) ==> res == Arith(b.t, a, Minus)
  {
    if !a.TransformOperand? || !b.TransformOperand? then TypeError
    else if !t.NumberOperand? then TypeError
    else
      var copy := Construct(CopyOf(b.t));
      assert IsNormalised(b.t) ==> copy == b.t by {
        if IsNormalised(b.t) { ConstructRotation(b.t, 0.0); }
      }
      var d := Arith(copy, a, Minus).value;
      assert t.n == 0.0 ==> ScaleBy(d, t.n) == Construct(PositionRotation(Zero, 0.0)) by {
        if t.n == 0.0 { Rem360OfSmall(0.0); }
      }
      Ok(ScaleBy(d, t.n))
  }

  /**
    The rotation of the intended `lerp`: the rotation of `b.subtract(a)`
    multiplied by `t` and reduced `% 360`.
   */
  lemma LerpScaledRotation(a: TransformValue, b: TransformValue, k: real)
    ensures LerpScaled(TransformOperand(a), TransformOperand(b), NumberOperand(k)).value.rotation
         == Rem360(Arith(Construct(CopyOf(b)), TransformOperand(a), Minus).value.rotation * k)
  {
    var d := Arith(Construct(CopyOf(b)), TransformOperand(a), Minus).value;
    assert LerpScaled(TransformOperand(a), TransformOperand(b), NumberOperand(k)).value == ScaleBy(d, k);
  }

  // -------------------------------------------------------- the instance

  /** The argument of `translate`, told apart as `instanceof` does. */
  datatype TranslateArg =
    | VectorArg(v: Vec2)               // an instance of Vector2 that is not a Transform
    | TransformArg(t: TransformValue)  // an instance of Transform
    | NotVector                        // anything else

  /** `arg instanceof Vector2`: true of a Transform too, since Transform extends Vector2. */
  predicate IsVector2Instance(arg: TranslateArg) {
    arg.VectorArg? || arg.TransformArg?
  }

  /** `arg instanceof Transform`. */
  predicate IsTransformInstance(arg: TranslateArg) {
    arg.TransformArg?
  }

  /** The x, y a Vector2 instance exposes: for a Transform, its inherited x, y, not its position. */
  function AsVector2(arg: TranslateArg): (v: Vec2)
    requires IsVector2Instance(arg)
    ensures arg.TransformArg? ==> v == Vec2(arg.t.x, arg.t.y)
  {
    match arg
    case VectorArg(v) => v
    case TransformArg(t) => Vec2(t.x, t.y)
  }

  /** Options of `new Transform(options)` as the caller passes them: the position is an object. */
  datatype InstanceOptions =
    InstanceOptions(x: Option<real>, y: Option<real>, position: Option<Vector2>, rotation: Option<real>)

  class Transform {
    var x: real
    var y: real
    var rotation: real
    var position: Vector2

    /** The values this Transform currently holds. */
    function Value(): TransformValue
      reads this, position
    {
      TransformValue(x, y, position.Value(), rotation)
    }

    /**
      Defaults first, then the options (a supplied position object is shared,
      not copied), then `rotation % 360`. The source calls `super()` twice,
      which a JavaScript engine refuses at run time; this constructor follows
      the evident order of defaults, options, reduction.
     */
    constructor (opts: InstanceOptions)
      ensures Value() == Construct(TransformOptions(opts.x, opts.y,
        if opts.position.Some? then Some(opts.position.value.Value()) else None, opts.rotation))
      ensures opts.position.Some? ==> position == opts.position.value
      ensures opts.position.None? ==> fresh(position)
    {
      x, y := 0.0, 0.0;
      rotation := 0.0;
      position := new Vector2(Zero);
      if opts.x.Some? { x := opts.x.value; }
      if opts.y.Some? { y := opts.y.value; }
      if opts.position.Some? { position := opts.position.value; }
      if opts.rotation.Some? { rotation := opts.rotation.value; }
      new;
      rotation := Rem360(rotation);
    }

    /**
      `translate(vector)`: for any Vector2 instance, its x and y are added
      into the position object in place and that same object is returned.
      A Transform argument is a Vector2 instance, so its inherited x, y are
      added, its position and rotation are not, and the branch written for
      Transforms is never reached. Anything else throws a TypeError before
      any field changes. The rotation never changes.
     */
    method Translate(arg: TranslateArg) returns (res: Result<Vector2>)
      modifies position
      ensures position == old(position) && rotation == old(rotation) && x == old(x) && y == old(y)
      ensures !IsVector2Instance(arg) ==> res == TypeError && position.Value() == old(position.Value())
      ensures IsVector2Instance(arg) ==>
        res == Ok(position) && position.Value() == Combine(old(position.Value()), AsVector2(arg), Plus)
    {
      if !IsVector2Instance(arg) && !IsTransformInstance(arg) {
        return TypeError;
      }
      if IsVector2Instance(arg) {
        var v := AsVector2(arg);
        position.x := position.x + v.x;
        position.y := position.y + v.y;
        return Ok(position);
      } else {
        // The branch for a Transform argument: unreachable, a Transform is a Vector2.
        assert false;
      }
    }
  }
}
