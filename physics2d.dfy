/**
  The Physics2D component of `src/lib/Components/Physics2D.js`: an object
  holding a `gravity` and a `velocity` Vector2, with `addForce(force)` and
  `fixedUpdate(timestep)`, which feeds gravity scaled by `timestep * 10` into
  `addForce` once per simulation tick.

  As written, `addForce` computes `velocity.add(force)` and drops the result:
  Vector2's `add` is taken to return a new vector, so velocity never changes. `AddForce`
  and `FixedUpdate` model that code; `AccumulateForce` and `AccumulateGravity`
  model the evident intent, storing the sum back into `velocity`.
 */
module Physics {
  import opened Outcomes
  import opened JsNumber
  import opened Vectors

  /** The default gravity, `new Vector2({y: 9.81})`. */
  const DefaultGravity := Vec2(0.0, 9.81)

  /** The factor `fixedUpdate` applies to the timestep. */
  const TimestepScale := 10.0

  /** The argument of `addForce`, told apart as `instanceof Vector2` does (a Transform is one too). */
  datatype ForceArg = Vector(v: Vec2) | NotVector

  /** The options object given to `new Physics2D(options)`: vector objects, shared when supplied. */
  datatype PhysicsOptions = PhysicsOptions(gravity: Option<Vector2>, velocity: Option<Vector2>)

  class Physics2D {
    var gravity: Vector2
    var velocity: Vector2

    /**
      Defaults first (gravity (0, 9.81), velocity (0, 0), each a new vector),
      then any `gravity` or `velocity` in the options replaces them.
     */
    constructor (opts: PhysicsOptions)
      ensures opts.gravity.Some? ==> gravity == opts.gravity.value
      ensures opts.gravity.None? ==> fresh(gravity) && gravity.Value() == DefaultGravity
      ensures opts.velocity.Some? ==> velocity == opts.velocity.value
      ensures opts.velocity.None? ==> fresh(velocity) && velocity.Value() == Zero
    {
      gravity := new Vector2(DefaultGravity);
      velocity := new Vector2(Zero);
      if opts.gravity.Some? { gravity := opts.gravity.value; }
      if opts.velocity.Some? { velocity := opts.velocity.value; }
    }

    /**
      `addForce(force)` as written: a non-Vector2 argument throws a TypeError;
      otherwise the sum `velocity.add(force)` is computed and discarded and
      the velocity object itself is returned. The method may change nothing,
      so velocity and gravity keep their values.
     */
    method AddForce(force: ForceArg) returns (res: Result<Vector2>)
      ensures force.NotVector? ==> res == TypeError
      ensures force.Vector? ==> res == Ok(velocity)
    {
      if !force.Vector? {
        return TypeError;
      }
      var discarded := Combine(velocity.Value(), force.v, Plus);
      return Ok(velocity);
    }

    /**
      `fixedUpdate(timestep)` as written: hands gravity scaled by
      `timestep * 10` (a new vector, gravity itself untouched) to `addForce`
      and returns its result, the velocity object.
     */
    method FixedUpdate(timestep: real) returns (res: Result<Vector2>)
      ensures res == Ok(velocity)
    {
      var force := Scale(gravity.Value(), timestep * TimestepScale);
      res := AddForce(Vector(force));
    }

    /**
      `addForce` as intended: the new velocity is the old velocity plus the
      force, stored back into the `velocity` field and returned; gravity keeps
      its value. A non-Vector2 argument throws a TypeError and changes nothing.
     */
    method AccumulateForce(force: ForceArg) returns (res: Result<Vector2>)
      modifies this
      ensures gravity == old(gravity) && gravity.Value() == old(gravity.Value())
      ensures force.NotVector? ==> res == TypeError && velocity == old(velocity)
      ensures force.Vector? ==> fresh(velocity) && res == Ok(velocity)
      ensures force.Vector? ==> velocity.Value() == Combine(old(velocity.Value()), force.v, Plus)
    {
      if !force.Vector? {
        return TypeError;
      }
      velocity := new Vector2(Combine(velocity.Value(), force.v, Plus));
      return Ok(velocity);
    }

    /**
      `fixedUpdate` as intended: one tick adds gravity scaled by
      `timestep * 10` to the velocity; gravity keeps its value.
     */
    method AccumulateGravity(timestep: real) returns (res: Result<Vector2>)
      modifies this
      ensures gravity == old(gravity) && gravity.Value() == old(gravity.Value())
      ensures res == Ok(velocity)
      ensures velocity.Value() == Combine(old(velocity.Value()), Scale(gravity.Value(), timestep * TimestepScale), Plus)
    {
      var force := Scale(gravity.Value(), timestep * TimestepScale);
      res := AccumulateForce(Vector(force));
    }
  }

  /** As written, one tick of `new Physics2D()` with timestep 1 leaves the velocity at (0, 0). */
  method OneTickFromRest() returns (v: Vec2)
    ensures v == Zero
  {
    var body := new Physics2D(PhysicsOptions(None, None));
    var _ := body.FixedUpdate(1.0);
    v := body.velocity.Value();
  }

  /** As intended, the same tick gives the velocity (0, 98.1): gravity 9.81 times 1 times 10. */
  method OneTickFromRestAccumulating() returns (v: Vec2)
    ensures v == Vec2(0.0, 98.1)
  {
    var body := new Physics2D(PhysicsOptions(None, None));
    var _ := body.AccumulateGravity(1.0);
    v := body.velocity.Value();
  }
}
