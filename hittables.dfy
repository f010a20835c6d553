// Hit records and parameter ranges (the HitRecord part of src/hittable.rs).

module Hittables {
  import opened RealArith
  import opened Vectors
  import opened Rays

  datatype Option<T> = None | Some(value: T)

  /** The end of a parameter range: a finite value, or the f32 infinity the camera uses. */
  datatype Bound = Finite(value: real) | Unbounded
  {
    /** `t < end` */
    predicate Above(t: real) {
      Unbounded? || t < value
    }

    /** `f32::min(end, t)`; the minimum with infinity is `t` itself. */
    function Min(t: real): (b: Bound)
      ensures b.Finite? && b.value <= t
      ensures Finite? ==> b.value <= value
      ensures Above(t) ==> b == Finite(t)
      ensures Finite? && !Above(t) ==> b == this
    {
      match this
      case Unbounded => Finite(t)
      case Finite(e) => Finite(if t < e then t else e)
    }

    /** This bound is no larger than `other`. */
    predicate AtMost(other: Bound) {
      other.Unbounded? || (Finite? && value <= other.value)
    }
  }

  /** The half-open range `start..end` of ray parameters a hit may have. */
  datatype Range = Range(start: real, end: Bound)
  {
    /** `Range::contains`: `start <= t && t < end` */
    predicate Contains(t: real) {
      start <= t && end.Above(t)
    }
  }

  /** What is known about a hit. The material is generic: this file never looks inside it. */
  datatype HitRecord<M> = HitRecord(point: Vec3, normal: Vec3, t: real, material: M, front: bool)

  /** `HitRecord::new`: the front flag starts out true. */
  function NewRecord<M>(point: Vec3, normal: Vec3, t: real, material: M): (rec: HitRecord<M>)
    ensures rec.point == point && rec.normal == normal && rec.t == t && rec.material == material
    ensures rec.front
  {
    HitRecord(point, normal, t, material, true)
  }

  /** The record after `set_face_normal(r, outward)`: the normal is turned to face against
      the ray, and `front` tells whether the ray met the outward side. */
  function WithFaceNormal<M>(rec: HitRecord<M>, r: Ray, outward: Vec3): (res: HitRecord<M>)
    ensures res.front <==> Dot(r.direction, outward) < 0.0
    ensures res.normal == (if res.front then outward else Neg(outward))
    ensures Dot(r.direction, res.normal) <= 0.0
    ensures res.point == rec.point && res.t == rec.t && res.material == rec.material
  {
    DotIsSymmetric(r.direction, outward);
    var front := Dot(r.direction, outward) < 0.0;
    rec.(front := front, normal := if front then outward else Neg(outward))
  }

  /** `set_face_normal`, which assigns `front` and then, depending on it, `normal`. */
  method SetFaceNormal<M>(rec: HitRecord<M>, r: Ray, outward: Vec3) returns (res: HitRecord<M>)
    ensures res == WithFaceNormal(rec, r, outward)
  {
    res := rec.(front := Dot(r.direction, outward) < 0.0);
    if res.front {
      res := res.(normal := outward);
    } else {
      res := res.(normal := Neg(outward));
    }
  }

  /** Narrowing the end of a range to a value inside it never moves the end outward, and the
      narrowed end is that value. */
  lemma MinNarrows(b: Bound, t: real)
    ensures b.Min(t).AtMost(b)
    ensures b.Above(t) ==> b.Min(t) == Finite(t)
  {
  }
}
