# JSGame components: a Dafny model

This project models the numeric core of JSGame, a small 2D game-object
framework written in JavaScript, and proves properties of it:

- `Math.js` helpers `flip`, `invert`, `clamp` and `lerp` (module `MathUtil`), over
  the JavaScript number operations they use (`JsNumber`: `parseInt` of a number,
  `Math.round`, `Math.abs`, `Math.min`, `Math.max`, `% 360`, `+ - * /`);
- the `Color` component (module `Colors`): construction from defaults then options,
  `clamp`, `toString`, `invert`, the nine named colors, `add`/`subtract`/`multiply`/`divide`
  dispatched on the argument's type, `equal` and `lerp`;
- the `Transform` component (module `Transforms`): construction with the rotation
  reduced `% 360`, the in-place `translate`, the composite arithmetic, `equal` and `lerp`;
- the `Physics2D` component (module `Physics`): its `gravity` and `velocity` vectors,
  `addForce` and `fixedUpdate`.

Numbers are exact reals. `parseInt` of a number is truncation toward zero,
`Math.round(x)` is `floor(x + 1/2)`, and `x % 360` is `x - 360 * trunc(x / 360)`,
which keeps the sign of `x`. A thrown `TypeError` is the `TypeError` case of
`Outcomes.Result`. The `typeof`/`instanceof` tests become argument datatypes:
`Colors.Arg`, `Transforms.Operand`, `Transforms.TranslateArg` and `Physics.ForceArg`.

Color values are never written after construction, so a Color is a datatype and
its operations are functions. A Transform is a class, because `translate` writes
into its `position` object and returns that same object. Its arithmetic works on
the values the object holds (`TransformValue`), and returns new values. Physics2D
is a class whose `gravity` and `velocity` fields hold `Vectors.Vector2` objects.

Vector2 is not part of this model. It is taken to be a record `(x, y)` whose
`add`/`subtract`/`multiply`/`divide` work component by component and return a new
vector, and whose `equal` compares both fields. `Transform.add` treats
`this.position.add(...)` as a new value, which supports this reading. A Transform is
a Vector2, so it also carries the `x`, `y` it inherits. The defaults of those fields
are taken to be 0.

Where the code differs from its documentation, the model follows the code:

- `Color.clamp` bounds alpha to 0..1, not 0..255 as its comment says.
- `translate` given a Transform takes the Vector2 branch. It adds the argument's
  inherited `x`, `y` and never its position or rotation.
- `Transform.lerp` always throws (see Findings).

Other consequences of the code that the model makes explicit:

- `Physics2D.addForce` leaves `velocity` unchanged, not what its name evidently
  intends (see Findings).
- `% 360` keeps the sign of the rotation, so a rotation lies in (-360, 360).
- `t.add(u).subtract(u)` gives back a Transform's position, but its rotation only up
  to whole turns of 360 (`Transforms.AddSubtractLosesTurn`).

## Model

| member | source | states |
|---|---|---|
| `JsNumber.Trunc` | src/lib/Util/Math.js:24 | `parseInt` of a number is its integer part, truncated toward zero; whole numbers are kept |
| `JsNumber.Round` | src/lib/Components/Color.js:41-43 | `Math.round` gives the nearest integer, a half rounded up; whole numbers are kept |
| `JsNumber.Abs` | src/lib/Util/Math.js:24 | `Math.abs` is non-negative and equals `x` or `-x` |
| `JsNumber.Min` | src/lib/Util/Math.js:73 | `Math.min` is the smaller of its arguments |
| `JsNumber.Max` | src/lib/Util/Math.js:73 | `Math.max` is the larger of its arguments |
| `JsNumber.Apply` | src/lib/Components/Color.js:237-345 | the operators `+ - * /` of the arithmetic: a sum minus the operand, and a difference plus the operand, give the first number back; 0 and 1 act on products and quotients as usual |
| `JsNumber.ApplyInverse` | src/lib/Components/Transform.js:63-128 | each operator is undone by its inverse with the same operand: `+` by `-`, and `*` by `/` for a non-zero operand |
| `JsNumber.Rem360` | src/lib/Components/Transform.js:28 | `x % 360` lies in (-360, 360), has the sign of `x`, and differs from `x` by whole turns |
| `JsNumber.Rem360OfSmall` | src/lib/Components/Transform.js:28 | a rotation already inside (-360, 360) is unchanged by `% 360` |
| `JsNumber.Rem360Idempotent` | src/lib/Components/Transform.js:28 | reducing a rotation twice is reducing it once |
| `NumberText.Decimal` | src/lib/Components/Color.js:59 | the text of a whole channel is a non-empty run of decimal digits, free of commas, starting with `0` only for the number 0 (no leading zero) |
| `NumberText.ParseDecimalInverts` | src/lib/Components/Color.js:59 | reading the decimal text of a number gives the number back |
| `MathUtil.Flip` | src/lib/Util/Math.js:20-25 | `flip(value, max)` is never negative: `max` minus the integer part of `value` when that part does not exceed `max`, and its excess over `max` otherwise (`flip(300, 255)` is 45) |
| `MathUtil.FlipInvolutive` | src/lib/Util/Math.js:24 | `flip(flip(v, max), max) == v` for whole `v` with `0 <= v <= max` |
| `MathUtil.FlipExample` | src/lib/Util/Math.js:10-25 | the documented `flip(10, 255) === 245` |
| `MathUtil.Invert` | src/lib/Util/Math.js:56 | `invert(num)` is `-num` |
| `MathUtil.InvertInvolutive` | src/lib/Util/Math.js:47-56 | inverting twice is the identity; the documented `invert(99.5) === -99.5` |
| `MathUtil.Clamp` | src/lib/Util/Math.js:72-74 | for `min <= max` the result lies in `[min, max]` and is the value when it already does; for `min > max` it is `max` whatever the value |
| `MathUtil.ClampIdempotent` | src/lib/Util/Math.js:58-74 | clamping twice is clamping once; the documented `clamp(370, 0, 360) === 360` |
| `MathUtil.Lerp` | src/lib/Util/Math.js:87 | `lerp(a, b, t)` is 0 at `t = 0` or `a = b`, `b - a` at `t = 1`, and the textbook interpolation minus `a` |
| `MathUtil.LerpExample` | src/lib/Util/Math.js:76-87 | the documented `lerp(2.5, 20, 0.016) === 0.28` |
| `Colors.New` | src/lib/Components/Color.js:24-48 | defaults r = g = b = 0, alpha = 1; each option given overrides its default |
| `Colors.NewDefaultsAndCopies` | src/lib/Components/Color.js:24-48 | no options give opaque black; `new Color(c)` copies `c`; options of r, g, b alone give alpha 1 |
| `Colors.ClampChannel` | src/lib/Components/Color.js:41-43 | a clamped channel is a whole number in 0..255 within a half of the clamped value, and a whole channel in range is kept |
| `Colors.Clamp` | src/lib/Components/Color.js:39-46 | r, g, b become whole numbers in 0..255, rounded half up after clamping; alpha is bounded to 0..1; a clamped Color is kept |
| `Colors.ClampIdempotent` | src/lib/Components/Color.js:39-46 | clamping twice is clamping once |
| `Colors.AlphaText` | src/lib/Components/Color.js:59 | `String(alpha)` of a clamped alpha: 0 and 1 are written as their decimal text like the channels; any other alpha by the formatting function |
| `Colors.ToString` | src/lib/Components/Color.js:57-60 | the text has the form `rgba(...)` |
| `Colors.ToStringParses` | src/lib/Components/Color.js:57-60 | reading the `rgba(r,g,b,alpha)` text back, with each channel required to be canonical decimal text (no leading zero), gives the clamped r, g, b and the text of the clamped alpha |
| `Colors.ToStringOfClamp` | src/lib/Components/Color.js:57-60 | `toString` of a clamped Color equals `toString` of the Color |
| `Colors.Invert` | src/lib/Components/Color.js:73-84 | every channel becomes `flip(c, 255)`, never negative; alpha becomes `flip(alpha, 1)` only when `invertAlpha` is set, otherwise it is kept |
| `Colors.InvertInvolutive` | src/lib/Components/Color.js:73-84 | inverting twice gives back a Color of whole channels in 0..255 (and its alpha, when that is 0 or 1) |
| `Colors.NamedColor` | src/lib/Components/Color.js:86-219 | each named color has alpha 1 and is already clamped |
| `Colors.RedToString` | src/lib/Components/Color.js:93-99 | `red().toString()` is `"rgba(255,0,0,1)"` |
| `Colors.Arith` | src/lib/Components/Color.js:230-351 | a Color argument acts channel-wise on r, g, b, and a number acts on all three; the result's alpha is 1; any other object or a non-number throws TypeError |
| `Colors.ArithBroadcast` | src/lib/Components/Color.js:242-247 | a number `k` acts as a Color with r = g = b = `k`, whatever its alpha |
| `Colors.ArithUndone` | src/lib/Components/Color.js:230-351 | `c.add(x).subtract(x)` and `c.subtract(x).add(x)` are `equal` to `c` for every Color or number `x`, zero included; multiply and divide undo each other when `x` is non-zero in every channel |
| `Colors.Equal` | src/lib/Components/Color.js:362-370 | true exactly when r, g and b match, with alpha ignored; a non-Color throws TypeError |
| `Colors.EqualIgnoresAlpha` | src/lib/Components/Color.js:362-370 | Colors that differ only in alpha are equal; `equal` is symmetric |
| `Colors.Lerp` | src/lib/Components/Color.js:383-391 | succeeds exactly for Colors `a`, `b` and a number `t`; the result is `Math.js`'s `lerp` on each channel, with alpha 1 |
| `Transforms.Construct` | src/lib/Components/Transform.js:23-29 | defaults first, then options, then `rotation % 360`; the rotation lies in (-360, 360) |
| `Transforms.ConstructRotation` | src/lib/Components/Transform.js:28 | 370 becomes 10, -10 stays -10, -370 becomes -10; rotations inside (-360, 360) are kept; `new Transform(t)` copies a Transform |
| `Transforms.Arith` | src/lib/Components/Transform.js:63-128 | a Transform argument gives the positions combined component-wise and the rotations combined and reduced `% 360`; any other argument throws TypeError |
| `Transforms.ArithUndone` | src/lib/Components/Transform.js:63-128 | `t.add(u).subtract(u)` restores the position, and the rotation up to whole turns of 360 |
| `Transforms.AddSubtractLosesTurn` | src/lib/Components/Transform.js:63-128 | for rotations 350 and 20, `t.add(u).subtract(u).equal(t)` is false |
| `Transforms.Equal` | src/lib/Components/Transform.js:139-147 | true exactly when the positions are equal and the rotations identical; a non-Transform throws TypeError |
| `Transforms.EqualProperties` | src/lib/Components/Transform.js:139-147 | `equal` is symmetric and ignores the inherited x, y |
| `Transforms.Lerp` | src/lib/Components/Transform.js:160-168 | `lerp` throws TypeError for every argument |
| `Transforms.ScaleBy` | src/lib/Components/Transform.js:149-168 | as intended, the scaling step of `LerpScaled` (no source line performs it, since `multiply` rejects a number): the position scaled by `k`, the rotation `rotation * k` reduced `% 360`, the inherited x, y at 0; `k = 1` keeps a reduced Transform |
| `Transforms.LerpScaled` | src/lib/Components/Transform.js:149-168 | as documented: succeeds exactly for Transforms `a`, `b` and a number `t`; the result is `b.subtract(a)` scaled by `t`: the position is `lerp` on each component, x, y are 0; the result at `t = 0` is the zero Transform and at `t = 1` is `b.subtract(a)` |
| `Transforms.LerpScaledRotation` | src/lib/Components/Transform.js:149-168 | as documented: the rotation of the result is the rotation of `b.subtract(a)` times `t`, reduced `% 360` |
| `Vectors.Combine` | src/lib/Components/Transform.js:68 | assumed Vector2 arithmetic (also called at src/lib/Components/Physics2D.js:15): `add`, `subtract`, `multiply`, `divide` act component by component |
| `Vectors.CombineUndone` | src/lib/Components/Transform.js:68 | assumed Vector2 arithmetic: combining with `q` and then with `q` under the inverse operation gives the vector back |
| `Vectors.Scale` | src/lib/Components/Physics2D.js:9 | assumed Vector2 arithmetic: `multiply` by a number `k` acts as the vector (k, k); `k = 1` keeps the vector and `k = 0` gives the zero vector |
| `Transforms.AsVector2` | src/lib/Components/Transform.js:43-46 | a Transform seen as a Vector2 exposes its inherited x, y |
| `Transforms.Transform.constructor` | src/lib/Components/Transform.js:23-29 | the new object holds `Construct` of its options; a supplied position object is shared, else a new one is made |
| `Transforms.Transform.Translate` | src/lib/Components/Transform.js:39-52 | a Vector2 instance (a Transform included) is added into the position in place, and that same object is returned; anything else throws TypeError with nothing changed; rotation never changes |
| `Physics.Physics2D.constructor` | src/lib/Components/Physics2D.js:3-18 | gravity (0, 9.81) and velocity (0, 0) are new vectors unless the options supply them |
| `Physics.Physics2D.AddForce` | src/lib/Components/Physics2D.js:11-17 | a non-Vector2 throws TypeError; otherwise the velocity object itself is returned; nothing is modified |
| `Physics.Physics2D.FixedUpdate` | src/lib/Components/Physics2D.js:8-10 | returns the velocity object; gravity and velocity are not modified |
| `Physics.Physics2D.AccumulateForce` | src/lib/Components/Physics2D.js:11-17 | as intended: velocity becomes old velocity plus force; gravity is kept; a non-Vector2 throws TypeError |
| `Physics.Physics2D.AccumulateGravity` | src/lib/Components/Physics2D.js:8-10 | as intended: velocity grows by gravity times `timestep * 10`; gravity is kept |
| `Physics.OneTickFromRest` | src/lib/Components/Physics2D.js:3-18 | as written, `new Physics2D().fixedUpdate(1)` leaves velocity at (0, 0) |
| `Physics.OneTickFromRestAccumulating` | src/lib/Components/Physics2D.js:3-18 | as intended, the same tick gives velocity (0, 98.1) |

## Findings

| source | as written | input that shows it | evidently intended | confidence | as-written member | corrected member |
|---|---|---|---|---|---|---|
| src/lib/Components/Transform.js:167 | `lerp` passes the number `t` to `multiply`, which throws for anything that is not a Transform | any Transforms `a`, `b` and any number `t` | the difference `b - a` multiplied by `t`, returned as a Transform | high (not executed) | `Transforms.Lerp` | `Transforms.LerpScaled` |
| src/lib/Components/Physics2D.js:15 | `addForce` computes `velocity.add(force)` and discards it, so velocity never changes | `new Physics2D().fixedUpdate(1)` leaves velocity at (0, 0) | velocity becomes velocity plus force, here (0, 98.1) | medium: rests on Vector2's `add` not mutating, and Vector2 is not part of this model (not executed) | `Physics.Physics2D.AddForce` | `Physics.Physics2D.AccumulateForce` |

## Left out

- `randomRange` (src/lib/Util/Math.js:37-45) depends on `Math.random`, so it has no deterministic result.
- The not-a-number branch of `flip` (src/lib/Util/Math.js:21-23) cannot be reached, because arguments are typed numbers. `parseInt`'s reading of numbers printed in exponent notation is not modelled either.
- Floating point is not modelled: numbers are exact reals, with no rounding error and no NaN or Infinity.
- `Colors.Arith`: a division needs non-zero divisor channels or a non-zero number. JavaScript would give Infinity or NaN, which reals cannot hold.
- `Transforms.Arith`: a division needs non-zero position components and a non-zero rotation in the divisor, for the same reason.
- `Colors.ToString`: an alpha other than 0 or 1 is written by a formatting function given as a parameter. JavaScript's number-to-text conversion of fractions is not modelled.
- The Vector2 implementation, including its back-reference to a parent component, is not part of this model.
- The `__extend`/`__construct` protocol and prototype wiring are modelled only as "defaults first, options override". This includes `Color.prototype`, `Physics2D.prototype` and `module.exports`. Options that name anything other than the recognised fields are ignored, including options that would replace a method.
- The Transform constructor calls `super()` twice (src/lib/Components/Transform.js:24,27). A JavaScript engine rejects the second call at run time. The model follows the evident order instead: defaults, then options, then the reduction.
- `invert`'s `invertAlpha` is a boolean; JavaScript truthiness of other values is not modelled.
- The argument of `translate` and `addForce` is passed by its values. That is all either operation reads of it.
- `Physics.Physics2D.AddForce` and `Physics.Physics2D.FixedUpdate` state that nothing changes through their empty frame (no `modifies` clause), not through an explicit postcondition.
- `src/lib/GameObjects/Particle.js` (a constructor over an unseen GameObject base) is not part of this model.
