// Rays (src/ray.rs): an origin, a direction and the time at which the ray is cast.

module Rays {
  import opened RealArith
  import opened Vectors

  datatype Ray = Ray(origin: Vec3, direction: Vec3, time: real)

  /** `Ray::new()` */
  function New(): Ray {
    Ray(Zero(), Zero(), 0.0)
  }

  /** `Ray::construct(origin, direction, time)` */
  function Construct(origin: Vec3, direction: Vec3, time: real): Ray {
    Ray(origin, direction, time)
  }

  /** The point reached after travelling `t` along the direction. */
  function At(r: Ray, t: real): Vec3 {
    Add(r.origin, ScaleBy(t, r.direction))
  }

  /** `new()` is the ray at the origin with no direction, cast at time zero; `construct`
      stores its three arguments unchanged. */
  lemma ConstructorsStore(o: Vec3, d: Vec3, t: real)
    ensures New().origin == Zero() && New().direction == Zero() && New().time == 0.0
    ensures Construct(o, d, t).origin == o
    ensures Construct(o, d, t).direction == d
    ensures Construct(o, d, t).time == t
  {
  }

  lemma AtZero(r: Ray)
    ensures At(r, 0.0) == r.origin
  {
    MulByZero(0.0, r.direction.x);
    MulByZero(0.0, r.direction.y);
    MulByZero(0.0, r.direction.z);
  }

  /** Travelling `s + t` is travelling `s` and then `t` more. */
  lemma AtShift(r: Ray, s: real, t: real)
    ensures At(r, s + t) == Add(At(r, s), ScaleBy(t, r.direction))
  {
    ScaleLaws(r.direction, s, t);
  }

  /** A ray without direction stays at its origin at every time. */
  lemma AtStationary(r: Ray, t: real)
    requires r.direction == Zero()
    ensures At(r, t) == r.origin
  {
    MulByZero(r.direction.x, t);
    MulByZero(r.direction.y, t);
    MulByZero(r.direction.z, t);
  }
}
