// Spheres (src/sphere.rs): construction and the ray-sphere intersection.

module Spheres {
  import opened RealArith
  import opened Vectors
  import opened Rays
  import opened Hittables

  /** The centre is a ray, so that a sphere may move: at time `time` it is at
      `center.at(time)`. */
  datatype Sphere<M> = Sphere(center: Ray, radius: real, material: M)

  /** `stationary_from_dim`: a centre that does not move. */
  function StationaryFromDim<M>(center: Vec3, radius: real, material: M): Sphere<M> {
    Sphere(Construct(center, Zero(), 0.0), radius, material)
  }

  /** `moving_from_dim` */
  function MovingFromDim<M>(center: Ray, radius: real, material: M): Sphere<M> {
    Sphere(center, radius, material)
  }

  function CentreAt<M>(s: Sphere<M>, time: real): Vec3 {
    At(s.center, time)
  }

  /** The point of `r` at parameter `t` is on the sphere's surface at the ray's time. */
  predicate OnSphere<M>(s: Sphere<M>, r: Ray, t: real) {
    LengthSq(Sub(At(r, t), CentreAt(s, r.time))) == Square(s.radius)
  }

  /** The coefficients of `a t^2 + 2 half_b t + c`, which vanishes where the ray meets the
      sphere. */
  datatype Quadratic = Quadratic(a: real, halfB: real, c: real)
  {
    function Value(t: real): real {
      Mul(a, Square(t)) + 2.0 * Mul(halfB, t) + c
    }

    function Discriminant(): real {
      Square(halfB) - Mul(a, c)
    }
  }

  function Coefficients<M>(s: Sphere<M>, r: Ray): Quadratic {
    var offset := Sub(r.origin, CentreAt(s, r.time));
    Quadratic(LengthSq(r.direction), Dot(offset, r.direction), LengthSq(offset) - Square(s.radius))
  }

  /** `neg_root` */
  function NegRoot(k: Kernel, q: Quadratic): real
    requires q.a != 0.0
  {
    (-q.halfB - k.sqrt(q.Discriminant())) / q.a
  }

  /** `pos_root` */
  function PosRoot(k: Kernel, q: Quadratic): real
    requires q.a != 0.0
  {
    (-q.halfB + k.sqrt(q.Discriminant())) / q.a
  }

  /** The outward normal at parameter `t`: the radius vector divided by the radius. */
  function Outward<M>(s: Sphere<M>, r: Ray, t: real): Vec3
    requires s.radius != 0.0
  {
    Div(Sub(At(r, t), CentreAt(s, r.time)), s.radius)
  }

  /** The record built for the root `t`, with its normal turned against the ray. */
  function Record<M>(s: Sphere<M>, r: Ray, t: real): HitRecord<M>
    requires s.radius != 0.0
  {
    WithFaceNormal(NewRecord(At(r, t), Outward(s, r, t), t, s.material), r, Outward(s, r, t))
  }

  /** The result of `hit`. A negative discriminant misses. When the direction is zero, `a` is
      zero and both roots are 0/0, a NaN that no range contains, so that ray misses too.
      Otherwise the smaller root is taken if the range contains it, else the larger one if
      the range contains that, else there is no hit. A zero radius makes the source divide
      by zero when it builds the normal; the model leaves that sphere out. */
  function Intersection<M>(k: Kernel, s: Sphere<M>, r: Ray, range: Range): Option<HitRecord<M>>
    requires s.radius != 0.0
  {
    var q := Coefficients(s, r);
    if q.Discriminant() < 0.0 || q.a == 0.0 then None
    else if range.Contains(NegRoot(k, q)) then Some(Record(s, r, NegRoot(k, q)))
    else if range.Contains(PosRoot(k, q)) then Some(Record(s, r, PosRoot(k, q)))
    else None
  }

  /** `Sphere::hit`, step by step as the source computes it. */
  method Hit<M>(k: Kernel, s: Sphere<M>, r: Ray, range: Range) returns (res: Option<HitRecord<M>>)
    requires s.radius != 0.0
    ensures res == Intersection(k, s, r, range)
  {
    var center := At(s.center, r.time);
    var offset := Sub(r.origin, center);
    var direction := r.direction;
    var a := LengthSq(direction);
    var halfB := Dot(offset, direction);
    var c := LengthSq(offset) - Square(s.radius);
    var discriminant := Square(halfB) - Mul(a, c);
    if discriminant < 0.0 || a == 0.0 {
      return None;
    }
    var discSqrt := k.sqrt(discriminant);
    var negRoot := (-halfB - discSqrt) / a;
    var posRoot := (-halfB + discSqrt) / a;
    var root: Option<real> := None;
    if range.Contains(negRoot) {
      root := Some(negRoot);
    } else if range.Contains(posRoot) {
      root := Some(posRoot);
    }
    match root {
      case None =>
        res := None;
      case Some(x) =>
        var outward := Div(Sub(At(r, x), center), s.radius);
        var rec := NewRecord(At(r, x), Div(Sub(At(r, x), center), s.radius), x, s.material);
        rec := SetFaceNormal(rec, r, outward);
        res := Some(rec);
    }
  }

  // ---------------------------------------------------------------- geometry of the roots

  /** A stationary sphere is at its given centre at every time. */
  lemma StationaryCentre<M>(center: Vec3, radius: real, material: M, time: real)
    ensures CentreAt(StationaryFromDim(center, radius, material), time) == center
    ensures MovingFromDim(Construct(center, Zero(), 0.0), radius, material)
         == StationaryFromDim(center, radius, material)
  {
    AtStationary(Construct(center, Zero(), 0.0), time);
  }

  /** The squared distance from the point `A + t B` to the origin is a quadratic in `t`. */
  lemma LengthSqAlong(p: Vec3, d: Vec3, t: real)
    ensures LengthSq(Add(p, Scale(d, t)))
         == Mul(LengthSq(d), Square(t)) + 2.0 * Mul(Dot(p, d), t) + LengthSq(p)
  {
    SquareOfSumScaled(p.x, d.x, t);
    SquareOfSumScaled(p.y, d.y, t);
    SquareOfSumScaled(p.z, d.z, t);
    DistributeThree(Mul(p.x, d.x), Mul(p.y, d.y), Mul(p.z, d.z), t);
    DistributeThree(Square(d.x), Square(d.y), Square(d.z), Square(t));
  }

  /** The quadratic of `hit` measures how far the point at `t` is from the surface:
      it is zero exactly on the sphere. */
  lemma QuadraticMeasuresSurface<M>(s: Sphere<M>, r: Ray, t: real)
    ensures Coefficients(s, r).Value(t)
         == LengthSq(Sub(At(r, t), CentreAt(s, r.time))) - Square(s.radius)
    ensures OnSphere(s, r, t) <==> Coefficients(s, r).Value(t) == 0.0
  {
    var offset := Sub(r.origin, CentreAt(s, r.time));
    assert Sub(At(r, t), CentreAt(s, r.time)) == Add(offset, Scale(r.direction, t));
    LengthSqAlong(offset, r.direction, t);
  }

  /** `t` zeroes the quadratic exactly when `a t + half_b` is a square root of the
      discriminant. */
  lemma ZeroOfQuadratic(q: Quadratic, t: real)
    requires q.a != 0.0
    ensures q.Value(t) == 0.0 <==> Square(Mul(t, q.a) + q.halfB) == q.Discriminant()
  {
    QuadraticIdentity(q.a, q.halfB, q.c, t);
    if Square(Mul(t, q.a) + q.halfB) == q.Discriminant() {
      ZeroProduct(q.a, q.Value(t));
    }
  }

  /** Both roots zero the quadratic. */
  lemma RootsSolve(k: Kernel, q: Quadratic)
    requires k.Valid() && q.a != 0.0 && 0.0 <= q.Discriminant()
    ensures q.Value(NegRoot(k, q)) == 0.0
    ensures q.Value(PosRoot(k, q)) == 0.0
  {
    var sd := k.sqrt(q.Discriminant());
    QuotientTimesDivisor(-q.halfB - sd, q.a);
    QuotientTimesDivisor(-q.halfB + sd, q.a);
    SquareOfNegation(sd);
    ZeroOfQuadratic(q, NegRoot(k, q));
    ZeroOfQuadratic(q, PosRoot(k, q));
  }

  /** Every zero of the quadratic is one of the two roots, and without a zero the
      discriminant is negative. */
  lemma OnlyRoots(k: Kernel, q: Quadratic, t: real)
    requires k.Valid() && q.a != 0.0 && q.Value(t) == 0.0
    ensures 0.0 <= q.Discriminant()
    ensures t == NegRoot(k, q) || t == PosRoot(k, q)
  {
    ZeroOfQuadratic(q, t);
    SquareNonNegative(Mul(t, q.a) + q.halfB);
    var sd := k.sqrt(q.Discriminant());
    EqualSquares(Mul(t, q.a) + q.halfB, sd);
    ProductOverDivisor(t, q.a);
  }

  /** With `a > 0` the negative root comes first. */
  lemma RootsOrdered(k: Kernel, q: Quadratic)
    requires k.Valid() && 0.0 < q.a && 0.0 <= q.Discriminant()
    ensures NegRoot(k, q) <= PosRoot(k, q)
  {
    var sd := k.sqrt(q.Discriminant());
    DivMonotone(-q.halfB - sd, -q.halfB + sd, q.a);
  }

  /** `a` is the squared length of the direction: positive unless the direction is zero. */
  lemma LeadingCoefficient<M>(s: Sphere<M>, r: Ray)
    ensures 0.0 <= Coefficients(s, r).a
    ensures Coefficients(s, r).a == 0.0 <==> r.direction == Zero()
  {
    LengthSqLaws(r.direction);
    LengthSqZero(r.direction);
  }

  // ---------------------------------------------------------------- what `hit` returns

  /** A point on the sphere gives an outward normal of unit length. */
  lemma OutwardIsUnit<M>(s: Sphere<M>, r: Ray, t: real)
    requires s.radius != 0.0 && OnSphere(s, r, t)
    ensures LengthSq(Outward(s, r, t)) == 1.0
    ensures LengthSq(Neg(Outward(s, r, t))) == 1.0
  {
    var v := Sub(At(r, t), CentreAt(s, r.time));
    QuotientSquaresSumToOne(v.x, v.y, v.z, s.radius);
    LengthSqOfNeg(Outward(s, r, t));
  }

  /** What a hit record holds: a root in the range, the point of the ray there, on the
      sphere, with a unit normal turned against the ray and the sphere's material. */
  lemma HitRecordContents<M>(k: Kernel, s: Sphere<M>, r: Ray, range: Range)
    requires k.Valid() && s.radius != 0.0
    ensures Intersection(k, s, r, range).Some? ==>
      var rec := Intersection(k, s, r, range).value;
      && Coefficients(s, r).a != 0.0
      && (rec.t == NegRoot(k, Coefficients(s, r)) || rec.t == PosRoot(k, Coefficients(s, r)))
      && range.Contains(rec.t)
      && rec.point == At(r, rec.t)
      && OnSphere(s, r, rec.t)
      && (rec.front <==> Dot(r.direction, Outward(s, r, rec.t)) < 0.0)
      && rec.normal == (if rec.front then Outward(s, r, rec.t) else Neg(Outward(s, r, rec.t)))
      && Dot(r.direction, rec.normal) <= 0.0
      && LengthSq(rec.normal) == 1.0
      && rec.material == s.material
  {
    var q := Coefficients(s, r);
    if Intersection(k, s, r, range).Some? {
      var t := Intersection(k, s, r, range).value.t;
      RootsSolve(k, q);
      QuadraticMeasuresSurface(s, r, t);
      OutwardIsUnit(s, r, t);
    }
  }

  /** `hit` is exact: it misses precisely when no point of the sphere lies along the ray
      within the range, and otherwise returns the nearest such point. (The ray must have a
      direction; a zero direction always misses.) */
  lemma IntersectionIsNearest<M>(k: Kernel, s: Sphere<M>, r: Ray, range: Range)
    requires k.Valid() && s.radius != 0.0 && r.direction != Zero()
    ensures Intersection(k, s, r, range).None? <==>
      forall t :: range.Contains(t) ==> !OnSphere(s, r, t)
    ensures Intersection(k, s, r, range).Some? ==>
      forall t :: range.Contains(t) && OnSphere(s, r, t) ==>
        Intersection(k, s, r, range).value.t <= t
  {
    var q := Coefficients(s, r);
    LeadingCoefficient(s, r);
    HitRecordContents(k, s, r, range);
    forall t | range.Contains(t) && OnSphere(s, r, t)
      ensures Intersection(k, s, r, range).Some?
      ensures Intersection(k, s, r, range).value.t <= t
    {
      QuadraticMeasuresSurface(s, r, t);
      OnlyRoots(k, q, t);
      RootsOrdered(k, q);
    }
  }

  /** A negative discriminant, or a ray without direction, misses. */
  lemma MissCases<M>(k: Kernel, s: Sphere<M>, r: Ray, range: Range)
    requires s.radius != 0.0
    ensures Coefficients(s, r).Discriminant() < 0.0 ==> Intersection(k, s, r, range).None?
    ensures r.direction == Zero() ==> Intersection(k, s, r, range).None?
  {
    LeadingCoefficient(s, r);
  }

  /** Probing with the end of the range pulled in keeps the hit exactly when it lies before
      the new end, and otherwise misses. This is what the scene scan relies on. */
  lemma NarrowedIntersection<M>(k: Kernel, s: Sphere<M>, r: Ray, start: real, end: Bound, end': Bound)
    requires k.Valid() && s.radius != 0.0 && end'.AtMost(end)
    ensures Intersection(k, s, r, Range(start, end')) ==
      match Intersection(k, s, r, Range(start, end))
      case None => None
      case Some(rec) => if end'.Above(rec.t) then Some(rec) else None
  {
    var q := Coefficients(s, r);
    LeadingCoefficient(s, r);
    if 0.0 <= q.Discriminant() && q.a != 0.0 {
      RootsOrdered(k, q);
    }
  }
}
