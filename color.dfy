/**
  The Color component of `src/lib/Components/Color.js`: an RGBA value whose
  r, g, b channels are nominally 0..255 and whose alpha is nominally 0..1.
  Nothing writes into a Color after it is built, so a Color is a value and
  every operation a function returning a new one. Raw arithmetic does not
  clamp; `clamp` (and `toString`, which clamps a copy) brings the channels
  into range.
 */
module Colors {
  import opened Outcomes
  import opened JsNumber
  import opened NumberText
  import MathUtil

  datatype Color = Color(r: real, g: real, b: real, alpha: real)

  /** The options object given to `new Color(options)`: each field may be present or absent. */
  datatype ColorOptions = ColorOptions(r: Option<real>, g: Option<real>, b: Option<real>, alpha: Option<real>)

  const NoOptions := ColorOptions(None, None, None, None)

  /** Options naming the three channels only, as every arithmetic result and named color uses. */
  function Rgb(r: real, g: real, b: real): ColorOptions {
    ColorOptions(Some(r), Some(g), Some(b), None)
  }

  /** An existing Color passed as the options object (`new Color(c)`) supplies all four fields. */
  function CopyOf(c: Color): ColorOptions {
    ColorOptions(Some(c.r), Some(c.g), Some(c.b), Some(c.alpha))
  }

  /**
    `new Color(options)`: the defaults r = g = b = 0 and alpha = 1 are set
    first, then every field present in the options overrides its default.
   */
  function New(opts: ColorOptions): (c: Color)
    ensures opts.r.Some? ==> c.r == opts.r.value
    ensures opts.g.Some? ==> c.g == opts.g.value
    ensures opts.b.Some? ==> c.b == opts.b.value
    ensures opts.alpha.Some? ==> c.alpha == opts.alpha.value
    ensures opts.r.None? ==> c.r == 0.0
    ensures opts.g.None? ==> c.g == 0.0
    ensures opts.b.None? ==> c.b == 0.0
    ensures opts.alpha.None? ==> c.alpha == 1.0
  {
    Color(opts.r.GetOr(0.0), opts.g.GetOr(0.0), opts.b.GetOr(0.0), opts.alpha.GetOr(1.0))
  }

  /** A Color built with no options is opaque black; one built from a Color is a copy of it. */
  lemma NewDefaultsAndCopies(c: Color)
    ensures New(NoOptions) == Color(0.0, 0.0, 0.0, 1.0)
    ensures New(CopyOf(c)) == c
    ensures New(Rgb(c.r, c.g, c.b)) == c.(alpha := 1.0)
  {
  }

  // ---------------------------------------------------------------- clamp

  /** A whole number from 0 to 255, the range of a clamped channel. */
  predicate IsChannel(v: real) {
    IsIntegral(v) && 0.0 <= v <= 255.0
  }

  /** What `clamp` guarantees: whole channels in 0..255 and an alpha in 0..1. */
  predicate IsClamped(c: Color) {
    IsChannel(c.r) && IsChannel(c.g) && IsChannel(c.b) && 0.0 <= c.alpha <= 1.0
  }

  /**
    One channel of `clamp`: `Math.round(clamp(v, 0, 255))`, the nearest whole
    number to the clamped value, a half rounded up.
   */
  function ClampChannel(v: real): (r: real)
    ensures IsChannel(r)
    ensures r - 0.5 <= MathUtil.Clamp(v, 0.0, 255.0) < r + 0.5
    ensures IsChannel(v) ==> r == v
  {
    var n := Round(MathUtil.Clamp(v, 0.0, 255.0));
    assert IsIntegral(n as real) by { FloorOfInteger(n, n as real); }
    n as real
  }

  /**
    `clamp()`: a new Color with r, g, b rounded into whole numbers of 0..255
    and alpha bounded to 0..1 (not rounded). A Color that is already clamped
    is returned unchanged, so clamping is idempotent.
   */
  function Clamp(c: Color): (k: Color)
    ensures IsClamped(k)
    ensures k.alpha == MathUtil.Clamp(c.alpha, 0.0, 1.0)
    ensures k.r - 0.5 <= MathUtil.Clamp(c.r, 0.0, 255.0) < k.r + 0.5
    ensures k.g - 0.5 <= MathUtil.Clamp(c.g, 0.0, 255.0) < k.g + 0.5
    ensures k.b - 0.5 <= MathUtil.Clamp(c.b, 0.0, 255.0) < k.b + 0.5
    ensures IsClamped(c) ==> k == c
  {
    New(ColorOptions(Some(ClampChannel(c.r)), Some(ClampChannel(c.g)), Some(ClampChannel(c.b)),
                     Some(MathUtil.Clamp(c.alpha, 0.0, 1.0))))
  }

  /** Clamping twice is clamping once. */
  lemma ClampIdempotent(c: Color)
    ensures Clamp(Clamp(c)) == Clamp(c)
  {
  }

  // ------------------------------------------------------------- toString

  /** The whole number a clamped channel holds. */
  function Whole(v: real): (n: nat)
    requires IsChannel(v)
    ensures n as real == v
  {
    v.Floor
  }

  /**
    How `String(alpha)` writes a clamped alpha: the whole values 0 and 1 as
    "0" and "1"; any other value by `formatFraction`, which stands for
    JavaScript's number formatting and is not modelled.
   */
  function AlphaText(alpha: real, formatFraction: real -> string): (s: string)
    ensures alpha == 0.0 || alpha == 1.0 ==> s == Decimal(alpha.Floor as nat)
    ensures alpha != 0.0 && alpha != 1.0 ==> s == formatFraction(alpha)
  {
    if alpha == 0.0 then "0" else if alpha == 1.0 then "1" else formatFraction(alpha)
  }

  /** `toString()`: `"rgba(r,g,b,alpha)"` of a clamped copy of the Color. */
  function ToString(c: Color, formatFraction: real -> string): (s: string)
    ensures |s| >= 6 && s[..5] == "rgba(" && s[|s| - 1] == ')'
  {
    var k := Clamp(New(CopyOf(c)));
    "rgba(" + Decimal(Whole(k.r)) + "," + Decimal(Whole(k.g)) + "," + Decimal(Whole(k.b)) + ","
      + AlphaText(k.alpha, formatFraction) + ")"
  }

  /** The four fields read back from an `rgba(...)` text: three whole channels and the alpha text. */
  datatype RgbaText = RgbaText(r: real, g: real, b: real, alpha: string)

  /** Splits a text at its first comma. */
  function SplitAtComma(s: string): Option<(string, string)> {
    if s == [] then None
    else if s[0] == ',' then Some(([], s[1..]))
    else
      match SplitAtComma(s[1..])
      case None => None
      case Some(p) => Some(([s[0]] + p.0, p.1))
  }

  /** A comma-free field followed by a comma is split off exactly. */
  lemma {:induction false} SplitAtCommaOf(field: string, rest: string)
    requires ',' !in field
    ensures SplitAtComma(field + "," + rest) == Some((field, rest))
  {
    var s := field + "," + rest;
    if field == [] {
      assert s == [','] + rest;
      assert s[1..] == rest;
    } else {
      assert s[0] == field[0];
      assert s[1..] == field[1..] + "," + rest;
      SplitAtCommaOf(field[1..], rest);
      assert [field[0]] + field[1..] == field;
    }
  }

  /** A non-empty run of decimal digits with no leading zero, read as a whole number. */
  function ParseChannel(s: string): Option<real> {
    if s != [] && AllDigits(s) && (s[0] != '0' || |s| == 1) then Some(ParseDecimal(s) as real) else None
  }

  /**
    Reads an `rgba(r,g,b,alpha)` text: the first three comma-separated fields
    must be decimal whole numbers; everything after the third comma, up to the
    closing parenthesis, is the alpha text.
   */
  function ParseRgba(s: string): Option<RgbaText> {
    if |s| < 6 || s[..5] != "rgba(" || s[|s| - 1] != ')' then None
    else
      match SplitAtComma(s[5..|s| - 1])
      case None => None
      case Some(p1) =>
        match SplitAtComma(p1.1)
        case None => None
        case Some(p2) =>
          match SplitAtComma(p2.1)
          case None => None
          case Some(p3) =>
            match (ParseChannel(p1.0), ParseChannel(p2.0), ParseChannel(p3.0))
            case (Some(r), Some(g), Some(b)) => Some(RgbaText(r, g, b, p3.1))
            case _ => None
  }

  /** A clamped channel's text reads back as that channel. */
  lemma ChannelTextParses(v: real)
    requires IsChannel(v)
    ensures ParseChannel(Decimal(Whole(v))) == Some(v)
  {
    ParseDecimalInverts(Whole(v));
  }

  /**
    `toString` is a faithful text form of the clamped Color: reading it back
    gives the clamped r, g, b and the text of the clamped alpha.
   */
  lemma ToStringParses(c: Color, formatFraction: real -> string)
    ensures var k := Clamp(c);
      ParseRgba(ToString(c, formatFraction)) == Some(RgbaText(k.r, k.g, k.b, AlphaText(k.alpha, formatFraction)))
  {
    var k := Clamp(c);
    assert New(CopyOf(c)) == c;
    var rt, gt, bt := Decimal(Whole(k.r)), Decimal(Whole(k.g)), Decimal(Whole(k.b));
    var at := AlphaText(k.alpha, formatFraction);
    var s := ToString(c, formatFraction);
    var inner := rt + "," + (gt + "," + (bt + "," + at));
    assert s == "rgba(" + inner + ")";
    assert s[5..|s| - 1] == inner;
    SplitAtCommaOf(rt, gt + "," + (bt + "," + at));
    SplitAtCommaOf(gt, bt + "," + at);
    SplitAtCommaOf(bt, at);
    ChannelTextParses(k.r);
    ChannelTextParses(k.g);
    ChannelTextParses(k.b);
  }

  /** `toString` only sees the clamped Color, so clamping first changes nothing. */
  lemma ToStringOfClamp(c: Color, formatFraction: real -> string)
    ensures ToString(Clamp(c), formatFraction) == ToString(c, formatFraction)
  {
    NewDefaultsAndCopies(c);
    NewDefaultsAndCopies(Clamp(c));
  }

  // --------------------------------------------------------------- invert

  /**
    `invert(invertAlpha)`: every channel flipped against 255 (the distance
    from 255 to its integer part); alpha flipped against 1 only when asked,
    otherwise kept.
   */
  function Invert(c: Color, invertAlpha: bool): (k: Color)
    ensures 0.0 <= k.r && 0.0 <= k.g && 0.0 <= k.b
    ensures k.r == MathUtil.Flip(c.r, 255.0)
    ensures k.g == MathUtil.Flip(c.g, 255.0)
    ensures k.b == MathUtil.Flip(c.b, 255.0)
    ensures k.alpha == if invertAlpha then MathUtil.Flip(c.alpha, 1.0) else c.alpha
  {
    var alpha := if invertAlpha then MathUtil.Flip(c.alpha, 1.0) else c.alpha;
    New(ColorOptions(Some(MathUtil.Flip(c.r, 255.0)), Some(MathUtil.Flip(c.g, 255.0)),
                     Some(MathUtil.Flip(c.b, 255.0)), Some(alpha)))
  }

  /** Inverting a Color of whole channels twice gives it back (alpha too, when it is 0 or 1). */
  lemma InvertInvolutive(c: Color, invertAlpha: bool)
    requires IsChannel(c.r) && IsChannel(c.g) && IsChannel(c.b)
    requires invertAlpha ==> c.alpha == 0.0 || c.alpha == 1.0
    ensures Invert(Invert(c, invertAlpha), invertAlpha) == c
  {
    MathUtil.FlipInvolutive(Whole(c.r), 255);
    MathUtil.FlipInvolutive(Whole(c.g), 255);
    MathUtil.FlipInvolutive(Whole(c.b), 255);
    if invertAlpha {
      MathUtil.FlipInvolutive(if c.alpha == 0.0 then 0 else 1, 1);
    }
  }

  // ------------------------------------------------------ named constants

  /** The named colors `red()`, `green()`, ..., `grey()`. */
  datatype Named = Red | Green | Blue | Black | White | Cyan | Magenta | Yellow | Grey

  /** A fresh canonical Color for each name: whole channels and an alpha of 1. */
  function NamedColor(n: Named): (c: Color)
    ensures c.alpha == 1.0
    ensures IsClamped(c) && Clamp(c) == c
  {
    match n
    case Red => New(Rgb(255.0, 0.0, 0.0))
    case Green => New(Rgb(0.0, 255.0, 0.0))
    case Blue => New(Rgb(0.0, 0.0, 255.0))
    case Black => New(Rgb(0.0, 0.0, 0.0))
    case White => New(Rgb(255.0, 255.0, 255.0))
    case Cyan => New(Rgb(0.0, 255.0, 255.0))
    case Magenta => New(Rgb(255.0, 0.0, 255.0))
    case Yellow => New(Rgb(255.0, 255.0, 0.0))
    case Grey => New(Rgb(128.0, 128.0, 128.0))
  }

  /** The documented text of red: `"rgba(255,0,0,1)"`, whatever the fraction formatting. */
  lemma RedToString(formatFraction: real -> string)
    ensures ToString(NamedColor(Red), formatFraction) == "rgba(255,0,0,1)"
  {
    var c := NamedColor(Red);
    assert Clamp(New(CopyOf(c))) == c;
    assert Whole(255.0) == 255 && Whole(0.0) == 0;
    assert Decimal(2) == "2";
    assert Decimal(25) == Decimal(2) + "5";
    assert Decimal(255) == Decimal(25) + "5";
    assert Decimal(0) == "0";
  }

  // ----------------------------------------------------------- arithmetic

  /** The argument of an operation, told apart as `typeof` and `instanceof Color` do. */
  datatype Arg =
    | ColorArg(color: Color)   // an instance of Color
    | NumArg(n: real)          // typeof 'number'
    | OtherObject              // typeof 'object' but not a Color (null included)
    | OtherPrimitive           // a string, boolean, undefined, function, ...

  /** A division by a zero channel or by zero is outside the model (see README, Left out). */
  predicate Divisible(op: ArithOp, arg: Arg) {
    op == Over ==>
      match arg
      case ColorArg(o) => o.r != 0.0 && o.g != 0.0 && o.b != 0.0
      case NumArg(n) => n != 0.0
      case _ => true
  }

  /**
    `add`, `subtract`, `multiply`, `divide`: with a Color, channel by channel;
    with a number, that number against each of r, g, b. The result is a new
    Color built from r, g, b alone, so its alpha is the default 1 whatever the
    operands' alpha. Any other argument throws a TypeError and builds nothing.
   */
  function Arith(c: Color, arg: Arg, op: ArithOp): (res: Result<Color>)
    requires Divisible(op, arg)
    ensures res.TypeError? <==> arg.OtherObject? || arg.OtherPrimitive?
    ensures res.Ok? ==> res.value.alpha == 1.0
    ensures arg.ColorArg? ==>
      res == Ok(Color(Apply(op, c.r, arg.color.r), Apply(op, c.g, arg.color.g), Apply(op, c.b, arg.color.b), 1.0))
    ensures arg.NumArg? ==>
      res == Ok(Color(Apply(op, c.r, arg.n), Apply(op, c.g, arg.n), Apply(op, c.b, arg.n), 1.0))
  {
    match arg
    case ColorArg(o) => Ok(New(Rgb(Apply(op, c.r, o.r), Apply(op, c.g, o.g), Apply(op, c.b, o.b))))
    case NumArg(n) => Ok(New(Rgb(Apply(op, c.r, n), Apply(op, c.g, n), Apply(op, c.b, n))))
    case OtherObject => TypeError
    case OtherPrimitive => TypeError
  }

  /** A number acts exactly as a Color holding that number in r, g and b (of any alpha). */
  lemma ArithBroadcast(c: Color, k: real, alpha: real, op: ArithOp)
    requires op == Over ==> k != 0.0
    ensures Arith(c, NumArg(k), op) == Arith(c, ColorArg(Color(k, k, k, alpha)), op)
  {
  }

  /**
    The inverse operation with the same argument restores r, g and b:
    `c.add(x).subtract(x).equal(c)` for every Color or number `x`, and likewise
    for multiply and divide when `x` is non-zero in every channel.
   */
  lemma ArithUndone(c: Color, arg: Arg, op: ArithOp)
    requires arg.ColorArg? || arg.NumArg?
    requires op == Plus || op == Minus || Divisible(Over, arg)
    ensures Equal(Arith(Arith(c, arg, op).value, arg, Inverse(op)).value, ColorArg(c)) == Ok(true)
  {
    var o := if arg.ColorArg? then arg.color else Color(arg.n, arg.n, arg.n, 1.0);
    ApplyInverse(op, c.r, o.r);
    ApplyInverse(op, c.g, o.g);
    ApplyInverse(op, c.b, o.b);
  }

  /**
    `equal(color)`: true exactly when r, g and b agree; alpha is not compared.
    A non-Color argument throws a TypeError.
   */
  function Equal(c: Color, arg: Arg): (res: Result<bool>)
    ensures res.TypeError? <==> !arg.ColorArg?
    ensures res.Ok? ==> (res.value <==> c.r == arg.color.r && c.g == arg.color.g && c.b == arg.color.b)
  {
    if !arg.ColorArg? then TypeError
    else Ok(c.r == arg.color.r && c.g == arg.color.g && c.b == arg.color.b)
  }

  /** Two Colors differing only in alpha are equal; `equal` is an equivalence on r, g, b. */
  lemma EqualIgnoresAlpha(c: Color, d: Color, alpha: real)
    ensures Equal(c, ColorArg(c.(alpha := alpha))) == Ok(true)
    ensures Equal(c, ColorArg(d)) == Equal(d, ColorArg(c))
  {
  }

  /**
    `lerp(a, b, t)`: `new Color(b).subtract(a).multiply(t)`, that is the
    scaled difference `(b - a) * t` of `Math.js`'s `lerp` on every channel,
    with alpha 1. A non-Color `a` or `b`, or a non-number `t`, throws a
    TypeError.
   */
  function Lerp(a: Arg, b: Arg, t: Arg): (res: Result<Color>)
    ensures res.Ok? <==> a.ColorArg? && b.ColorArg? && t.NumArg?
    ensures res.Ok? ==> res.value == Color(MathUtil.Lerp(a.color.r, b.color.r, t.n),
                                           MathUtil.Lerp(a.color.g, b.color.g, t.n),
                                           MathUtil.Lerp(a.color.b, b.color.b, t.n), 1.0)
  {
    if !a.ColorArg? || !b.ColorArg? then TypeError
    else if !t.NumArg? then TypeError
    else
      match Arith(New(CopyOf(b.color)), a, Minus)
      case Ok(d) => Arith(d, t, Times)
      case TypeError => TypeError
  }
}
