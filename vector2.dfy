/**
  Vector2, the two-component vector that Transform and Physics2D build on.
  Its implementation is not part of this model: it is taken to be a plain
  record whose arithmetic is component-wise, returns a new vector and leaves
  both operands alone (Transform's `add` treats `position.add(...)` as a new
  value). A `Vector2` object is the mutable holder of such a value; Transform's
  `translate` is the one operation that writes into one.
 */
module Vectors {
  import opened JsNumber

  datatype Vec2 = Vec2(x: real, y: real)

  const Zero := Vec2(0.0, 0.0)

  /** True when a component-wise `op` with `q` is defined (no division by a zero component). */
  predicate Divides(op: ArithOp, q: Vec2) {
    op == Over ==> q.x != 0.0 && q.y != 0.0
  }

  /**
    `p.add(q)`, `p.subtract(q)`, `p.multiply(q)`, `p.divide(q)`: component by
    component, each component of the result depending only on the same
    component of the operands.
   */
  function Combine(p: Vec2, q: Vec2, op: ArithOp): (r: Vec2)
    requires Divides(op, q)
    ensures r.x == Apply(op, p.x, q.x) && r.y == Apply(op, p.y, q.y)
  {
    Vec2(Apply(op, p.x, q.x), Apply(op, p.y, q.y))
  }

  /** Combining with `q` and then with `q` under the inverse operation gives `p` back. */
  lemma CombineUndone(p: Vec2, q: Vec2, op: ArithOp)
    requires op == Plus || op == Minus || (q.x != 0.0 && q.y != 0.0)
    ensures Combine(Combine(p, q, op), q, Inverse(op)) == p
  {
    ApplyInverse(op, p.x, q.x);
    ApplyInverse(op, p.y, q.y);
  }

  /**
    `p.multiply(k)` for a number `k`: the number acts as the vector (k, k), so
    `k = 1` keeps the vector and `k = 0` gives the zero vector.
   */
  function Scale(p: Vec2, k: real): (r: Vec2)
    ensures r == Combine(p, Vec2(k, k), Times)
    ensures k == 1.0 ==> r == p
    ensures k == 0.0 ==> r == Zero
  {
    Vec2(p.x * k, p.y * k)
  }

  /** A mutable Vector2 instance, identified by reference. */
  class Vector2 {
    var x: real
    var y: real

    /** The vector this object currently holds. */
    function Value(): Vec2
      reads this
    {
      Vec2(x, y)
    }

    constructor (v: Vec2)
      ensures Value() == v
    {
      x, y := v.x, v.y;
    }
  }
}
