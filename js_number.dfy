/**
  The JavaScript number operations the components rely on, over exact reals:
  `parseInt` applied to a number, `Math.round`, `Math.abs`, `Math.min`,
  `Math.max`, the remainder operator `%` and the four arithmetic operators.
 */
module JsNumber {

  /** True when `x` has no fractional part. */
  predicate IsIntegral(x: real) {
    x.Floor as real == x
  }

  /** `parseInt` of a number: the integer part, truncated toward zero. */
  function Trunc(x: real): (n: int)
    ensures 0.0 <= x ==> 0 <= n && n as real <= x < n as real + 1.0
    ensures x < 0.0 ==> n <= 0 && n as real - 1.0 < x <= n as real
    ensures IsIntegral(x) ==> n as real == x
  {
    if x >= 0.0 then x.Floor
    else
      var f := (-x).Floor;
      assert IsIntegral(x) ==> f == -x.Floor by {
        if IsIntegral(x) { FloorOfInteger(-x.Floor, -x); }
      }
      -f
  }

  /** The floor of a number equal to an integer `k` is `k`. */
  lemma FloorOfInteger(k: int, x: real)
    requires x == k as real
    ensures x.Floor == k
  {
  }

  /** `Math.round`: the nearest integer, a half rounded up toward +infinity. */
  function Round(x: real): (n: int)
    ensures n as real - 0.5 <= x < n as real + 0.5
    ensures IsIntegral(x) ==> n as real == x
  {
    var n := (x + 0.5).Floor;
    assert IsIntegral(x) ==> n == x.Floor by {
      if IsIntegral(x) {
        var k := x.Floor;
        assert k as real <= x + 0.5 < (k + 1) as real;
      }
    }
    n
  }

  /** `Math.abs`. */
  function Abs(x: real): (r: real)
    ensures 0.0 <= r && (r == x || r == -x)
  {
    if x < 0.0 then -x else x
  }

  /** `Math.min` of two numbers. */
  function Min(a: real, b: real): (r: real)
    ensures r <= a && r <= b && (r == a || r == b)
  {
    if a <= b then a else b
  }

  /** `Math.max` of two numbers. */
  function Max(a: real, b: real): (r: real)
    ensures a <= r && b <= r && (r == a || r == b)
  {
    if a <= b then b else a
  }

  /**
    The remainder operator `x % 360` (the only divisor the components use):
    the result keeps the sign of the dividend `x`, unlike an always-non-negative
    modulo, and differs from `x` by a whole number of turns of 360.
   */
  function Rem360(x: real): (r: real)
    ensures -360.0 < r < 360.0
    ensures 0.0 <= x ==> 0.0 <= r
    ensures x <= 0.0 ==> r <= 0.0
    ensures IsIntegral((x - r) / 360.0)
  {
    var n := Trunc(x / 360.0);
    assert (x - (x - 360.0 * n as real)) / 360.0 == n as real;
    x - 360.0 * n as real
  }

  /** A dividend already strictly inside `(-360, 360)` is its own remainder. */
  lemma Rem360OfSmall(x: real)
    requires -360.0 < x < 360.0
    ensures Rem360(x) == x
  {
    assert Trunc(x / 360.0) == 0;
  }

  /** Taking the remainder twice gives the remainder once. */
  lemma Rem360Idempotent(x: real)
    ensures Rem360(Rem360(x)) == Rem360(x)
  {
    Rem360OfSmall(Rem360(x));
  }

  /** The JavaScript binary operators `+`, `-`, `*` and `/` on numbers. */
  datatype ArithOp = Plus | Minus | Times | Over

  /**
    `a op b`; a division needs a non-zero divisor (see README, Left out). A
    sum or difference is fixed by the operation that takes it back to `a`;
    0 and 1 act on a product and a quotient as in JavaScript.
   */
  function Apply(op: ArithOp, a: real, b: real): (r: real)
    requires op == Over ==> b != 0.0
    ensures op == Plus ==> r - b == a
    ensures op == Minus ==> r + b == a
    ensures op == Times && (a == 0.0 || b == 0.0) ==> r == 0.0
    ensures (op == Times || op == Over) && b == 1.0 ==> r == a
    ensures op == Over && a == 0.0 ==> r == 0.0
  {
    match op
    case Plus => a + b
    case Minus => a - b
    case Times => a * b
    case Over => a / b
  }

  /** The operator that undoes `op` (for a non-zero operand, when `op` scales). */
  function Inverse(op: ArithOp): ArithOp {
    match op
    case Plus => Minus
    case Minus => Plus
    case Times => Over
    case Over => Times
  }

  /** Applying `op` then its inverse with the same operand returns the original number. */
  lemma ApplyInverse(op: ArithOp, a: real, b: real)
    requires b != 0.0 || op == Plus || op == Minus
    ensures Apply(Inverse(op), Apply(op, a, b), b) == a
  {
    if op == Times {
      assert (a * b) / b == a;
    } else if op == Over {
      assert (a / b) * b == a;
    }
  }
}

/**
  The JavaScript text form of a non-negative integral number (decimal digits,
  no sign, no leading zeros) and its inverse reading.
 */
module NumberText {

  predicate IsDigit(ch: char) {
    '0' <= ch <= '9'
  }

  predicate AllDigits(s: string) {
    forall i :: 0 <= i < |s| ==> IsDigit(s[i])
  }

  function DigitChar(d: nat): (ch: char)
    requires d < 10
    ensures IsDigit(ch) && ch as int - '0' as int == d
  {
    ('0' as int + d) as char
  }

  function DigitValue(ch: char): (d: nat)
    requires IsDigit(ch)
    ensures d < 10
  {
    (ch as int - '0' as int) as nat
  }

  /** The decimal text of `n`, as `String(n)` writes an integral number: no leading zero. */
  function Decimal(n: nat): (s: string)
    ensures 1 <= |s| && AllDigits(s)
    ensures ',' !in s
    ensures s[0] == '0' <==> n == 0
  {
    if n < 10 then [DigitChar(n)] else Decimal(n / 10) + [DigitChar(n % 10)]
  }

  /** Reads a string of decimal digits back as a number. */
  function ParseDecimal(s: string): nat
    requires AllDigits(s)
  {
    if s == [] then 0 else 10 * ParseDecimal(s[..|s| - 1]) + DigitValue(s[|s| - 1])
  }

  /** Reading the decimal text of `n` gives `n` back. */
  lemma {:induction false} ParseDecimalInverts(n: nat)
    ensures ParseDecimal(Decimal(n)) == n
  {
    var s := Decimal(n);
    if n < 10 {
      assert s[..0] == [];
    } else {
      assert s[..|s| - 1] == Decimal(n / 10);
      ParseDecimalInverts(n / 10);
    }
  }
}
