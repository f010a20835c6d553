// Three-component vectors (src/vec3.rs), over real numbers in place of f32.

module Vectors {
  import opened RealArith

  /** A point, a direction or a colour: the source makes no structural difference. */
  datatype Vec3 = Vec3(x: real, y: real, z: real)

  /** The numeric helpers the tracer calls but whose definitions are not part of this model:
      f32 square root, `reflect_along`, `refract_along` and `near_zero`. They are passed in as
      values; only `sqrt` is constrained, to be the non-negative square root. */
  datatype Kernel = Kernel(
    sqrt: real -> real,
    reflectAlong: (Vec3, Vec3) -> Vec3,
    refractAlong: (Vec3, Vec3, real) -> Vec3,
    nearZero: Vec3 -> bool)
  {
    ghost predicate Valid() {
      forall x :: 0.0 <= x ==> 0.0 <= sqrt(x) && Square(sqrt(x)) == x
    }
  }

  // ---------------------------------------------------------------- binary operators

  function Add(v: Vec3, w: Vec3): Vec3 {
    Vec3(v.x + w.x, v.y + w.y, v.z + w.z)
  }

  function Neg(v: Vec3): Vec3 {
    Vec3(-v.x, -v.y, -v.z)
  }

  function Sub(v: Vec3, w: Vec3): Vec3 {
    Vec3(v.x - w.x, v.y - w.y, v.z - w.z)
  }

  /** `Vec3 * f32` */
  function Scale(v: Vec3, t: real): Vec3 {
    Vec3(Mul(v.x, t), Mul(v.y, t), Mul(v.z, t))
  }

  /** `f32 * Vec3`, which the source defines by swapping its operands */
  function ScaleBy(t: real, v: Vec3): Vec3 {
    Scale(v, t)
  }

  /** `Vec3 / f32`; a zero divisor gives infinities or NaN in the source */
  function Div(v: Vec3, t: real): Vec3
    requires t != 0.0
  {
    Vec3(v.x / t, v.y / t, v.z / t)
  }

  /** Component-wise `Vec3 * Vec3`, used to apply an attenuation to a colour */
  function Hadamard(v: Vec3, w: Vec3): Vec3 {
    Vec3(Mul(v.x, w.x), Mul(v.y, w.y), Mul(v.z, w.z))
  }

  // ---------------------------------------------------------------- constructors and products

  /** `Vec3::new()` */
  function Zero(): Vec3 {
    Vec3(0.0, 0.0, 0.0)
  }

  function FromPoint(x: real, y: real, z: real): Vec3 {
    Vec3(x, y, z)
  }

  function Dot(v: Vec3, w: Vec3): real {
    Mul(v.x, w.x) + Mul(v.y, w.y) + Mul(v.z, w.z)
  }

  function LengthSq(v: Vec3): real {
    Square(v.x) + Square(v.y) + Square(v.z)
  }

  function DotSelf(v: Vec3): real {
    LengthSq(v)
  }

  function Length(k: Kernel, v: Vec3): real {
    k.sqrt(LengthSq(v))
  }

  /** The direction of `v`; the source divides by zero when `v` has no length. */
  function Unit(k: Kernel, v: Vec3): Vec3
    requires Length(k, v) != 0.0
  {
    Div(v, Length(k, v))
  }

  /** `cross` exactly as the source writes it: the `y` component reads `a.z*b.x - a.x - b.z`. */
  function Cross(a: Vec3, b: Vec3): Vec3 {
    Vec3(Mul(a.y, b.z) - Mul(a.z, b.y), Mul(a.z, b.x) - a.x - b.z, Mul(a.x, b.y) - Mul(a.y, b.x))
  }

  /** The cross product the source evidently intends. */
  function CrossProduct(a: Vec3, b: Vec3): Vec3 {
    Vec3(Mul(a.y, b.z) - Mul(a.z, b.y), Mul(a.z, b.x) - Mul(a.x, b.z), Mul(a.x, b.y) - Mul(a.y, b.x))
  }

  // ---------------------------------------------------------------- Display

  const U32_MAX: nat := 0xFFFF_FFFF

  /** Rust's `f32 as u32`: truncates toward zero and saturates at both ends of the range. */
  function AsU32(x: real): (n: nat)
    ensures n <= U32_MAX
    ensures x <= 0.0 ==> n == 0
    ensures 0.0 <= x < (U32_MAX + 1) as real ==> n as real <= x < n as real + 1.0
    ensures (U32_MAX + 1) as real <= x ==> n == U32_MAX
  {
    if x <= 0.0 then 0
    else if (U32_MAX + 1) as real <= x then U32_MAX
    else x.Floor
  }

  /** The three integers that `Display` writes for a colour. */
  function Display(c: Vec3): (nat, nat, nat) {
    (AsU32(256.0 * c.x), AsU32(256.0 * c.y), AsU32(256.0 * c.z))
  }

  /** A channel conversion that keeps every value within the 0..255 range the image header
      announces, by clamping the linear value into [0, 0.999] first. */
  function ClampedChannel(c: real): (n: nat)
    ensures n <= 255
    ensures 0.0 <= c < 0.999 ==> n == AsU32(256.0 * c)
  {
    var clamped := if c < 0.0 then 0.0 else if c > 0.999 then 0.999 else c;
    AsU32(256.0 * clamped)
  }

  function DisplayClamped(c: Vec3): (d: (nat, nat, nat))
    ensures d.0 <= 255 && d.1 <= 255 && d.2 <= 255
  {
    (ClampedChannel(c.x), ClampedChannel(c.y), ClampedChannel(c.z))
  }

  // ---------------------------------------------------------------- compound assignment

  /** A Vec3 place that the `*Assign` operators overwrite in full. */
  class Vec3Var {
    var x: real
    var y: real
    var z: real

    function Value(): Vec3
      reads this
    {
      Vec3(x, y, z)
    }

    constructor (v: Vec3)
      ensures Value() == v
    {
      x, y, z := v.x, v.y, v.z;
    }

    method AddAssign(rhs: Vec3)
      modifies this
      ensures Value() == Add(old(Value()), rhs)
    {
      x, y, z := x + rhs.x, y + rhs.y, z + rhs.z;
    }

    method SubAssign(rhs: Vec3)
      modifies this
      ensures Value() == Sub(old(Value()), rhs)
    {
      x, y, z := x - rhs.x, y - rhs.y, z - rhs.z;
    }

    method MulAssign(t: real)
      modifies this
      ensures Value() == Scale(old(Value()), t)
    {
      x, y, z := Mul(x, t), Mul(y, t), Mul(z, t);
    }

    method DivAssign(t: real)
      requires t != 0.0
      modifies this
      ensures Value() == Div(old(Value()), t)
    {
      x, y, z := x / t, y / t, z / t;
    }
  }


  // ---------------------------------------------------------------- algebraic laws

  lemma AddCommutes(v: Vec3, w: Vec3)
    ensures Add(v, w) == Add(w, v)
  {
  }

  lemma AddAssociates(u: Vec3, v: Vec3, w: Vec3)
    ensures Add(Add(u, v), w) == Add(u, Add(v, w))
  {
  }

  lemma AddZero(v: Vec3)
    ensures Add(v, Zero()) == v && Add(Zero(), v) == v
  {
  }

  /** Subtraction is addition of the negation; negation is an involution. */
  lemma SubIsAddNeg(v: Vec3, w: Vec3)
    ensures Sub(v, w) == Add(v, Neg(w))
    ensures Sub(v, v) == Zero()
    ensures Neg(Neg(v)) == v
  {
  }

  /** `t * v` and `v * t` agree, and scaling distributes over a sum of scalars. */
  lemma ScaleLaws(v: Vec3, s: real, t: real)
    ensures ScaleBy(t, v) == Scale(v, t)
    ensures Scale(v, 0.0) == Zero() && Scale(v, 1.0) == v
    ensures Scale(v, s + t) == Add(Scale(v, s), Scale(v, t))
  {
    MulDistributes(v.x, s, t);
    MulDistributes(v.y, s, t);
    MulDistributes(v.z, s, t);
  }

  lemma DotIsSymmetric(v: Vec3, w: Vec3)
    ensures Dot(v, w) == Dot(w, v)
    ensures Dot(v, Neg(w)) == -Dot(v, w)
  {
    MulCommutes(v.x, w.x);
    MulCommutes(v.y, w.y);
    MulCommutes(v.z, w.z);
    MulNegates(v.x, w.x);
    MulNegates(v.y, w.y);
    MulNegates(v.z, w.z);
  }

  /** `dot_self`, `length_sq` and the dot product of a vector with itself coincide and are
      never negative. */
  lemma LengthSqLaws(v: Vec3)
    ensures DotSelf(v) == LengthSq(v) == Dot(v, v)
    ensures 0.0 <= LengthSq(v)
  {
    SquareNonNegative(v.x);
    SquareNonNegative(v.y);
    SquareNonNegative(v.z);
  }

  lemma LengthSqOfNeg(v: Vec3)
    ensures LengthSq(Neg(v)) == LengthSq(v)
  {
    SquareOfNegation(v.x);
    SquareOfNegation(v.y);
    SquareOfNegation(v.z);
  }

  /** The squared length vanishes exactly at the zero vector. */
  lemma LengthSqZero(v: Vec3)
    ensures LengthSq(v) == 0.0 <==> v == Zero()
  {
    SquareNonNegative(v.x);
    SquareNonNegative(v.y);
    SquareNonNegative(v.z);
    if v != Zero() {
      if v.x != 0.0 {
        SquarePositive(v.x);
      } else if v.y != 0.0 {
        SquarePositive(v.y);
      } else {
        SquarePositive(v.z);
      }
    }
  }

  /** With a genuine square root, the length is the non-negative root of the squared length,
      and it is zero exactly for the zero vector. */
  lemma LengthSpec(k: Kernel, v: Vec3)
    requires k.Valid()
    ensures 0.0 <= Length(k, v)
    ensures Square(Length(k, v)) == LengthSq(v)
    ensures Length(k, v) == 0.0 <==> v == Zero()
  {
    LengthSqZero(v);
    if Length(k, v) != 0.0 {
      SquarePositive(Length(k, v));
    }
  }

  lemma ZeroHasNoLength(k: Kernel)
    requires k.Valid()
    ensures Length(k, Zero()) == 0.0
  {
    LengthSpec(k, Zero());
  }

  /** A non-zero vector divided by its length has squared length one. */
  lemma UnitHasLengthOne(k: Kernel, v: Vec3)
    requires k.Valid() && v != Zero()
    ensures Length(k, v) != 0.0
    ensures LengthSq(Unit(k, v)) == 1.0
  {
    LengthSpec(k, v);
    QuotientSquaresSumToOne(v.x, v.y, v.z, Length(k, v));
  }

  /** Each component of a unit vector lies in [-1, 1]. */
  lemma UnitComponentsBounded(k: Kernel, v: Vec3)
    requires k.Valid() && v != Zero()
    ensures Length(k, v) != 0.0
    ensures -1.0 <= Unit(k, v).x <= 1.0
    ensures -1.0 <= Unit(k, v).y <= 1.0
    ensures -1.0 <= Unit(k, v).z <= 1.0
  {
    UnitHasLengthOne(k, v);
    var u := Unit(k, v);
    SquareNonNegative(u.x);
    SquareNonNegative(u.y);
    SquareNonNegative(u.z);
    SquareAtMostOne(u.x);
    SquareAtMostOne(u.y);
    SquareAtMostOne(u.z);
  }

  /** `new()` is the zero vector and `from_point` stores its arguments unchanged. */
  lemma ConstructorsStore(x: real, y: real, z: real)
    ensures Zero() == FromPoint(0.0, 0.0, 0.0)
    ensures FromPoint(x, y, z).x == x && FromPoint(x, y, z).y == y && FromPoint(x, y, z).z == z
  {
  }

  // ---------------------------------------------------------------- cross product

  /** The `x` and `z` components of `cross` change sign when its arguments swap. */
  lemma CrossXZAntiCommute(a: Vec3, b: Vec3)
    ensures Cross(a, b).x == -Cross(b, a).x
    ensures Cross(a, b).z == -Cross(b, a).z
  {
    MulCommutes(a.y, b.z);
    MulCommutes(a.z, b.y);
    MulCommutes(a.x, b.y);
    MulCommutes(a.y, b.x);
  }

  /** As written, the `y` component does not: `cross` of the zero vector with (0, 0, 1)
      has `y == -1`, while swapping the arguments gives `y == 0`. */
  lemma CrossYAsWritten(a: Vec3, b: Vec3)
    requires a.x == 0.0 && a.y == 0.0 && a.z == 0.0
    requires b.x == 0.0 && b.y == 0.0 && b.z == 1.0
    ensures Cross(a, b).y == -1.0
    ensures Cross(b, a).y == 0.0
    ensures Cross(a, b).y != -Cross(b, a).y
  {
    MulByZero(a.z, b.x);
    MulByZero(a.x, b.z);
  }

  /** The written `y` component agrees with the cross product exactly when
      `a.x * b.z == a.x + b.z`. */
  lemma CrossYDeviation(a: Vec3, b: Vec3)
    ensures Cross(a, b).y == CrossProduct(a, b).y <==> Mul(a.x, b.z) == a.x + b.z
  {
  }

  /** The intended cross product is anti-commutative, and it agrees with `cross` on the
      `x` and `z` components. */
  lemma CrossProductAntiCommutes(a: Vec3, b: Vec3)
    ensures CrossProduct(a, b) == Neg(CrossProduct(b, a))
    ensures CrossProduct(a, b).x == Cross(a, b).x && CrossProduct(a, b).z == Cross(a, b).z
  {
    CrossXZAntiCommute(a, b);
    MulCommutes(a.z, b.x);
    MulCommutes(a.x, b.z);
  }

  /** The intended cross product is orthogonal to both of its arguments. */
  lemma CrossProductOrthogonal(a: Vec3, b: Vec3)
    ensures Dot(a, CrossProduct(a, b)) == 0.0
    ensures Dot(b, CrossProduct(a, b)) == 0.0
  {
    TripleProductsVanish(a.x, a.y, a.z, b.x, b.y, b.z);
  }

  // ---------------------------------------------------------------- channel conversion laws

  /** The conversion maps a channel of exactly 1.0 to 256, one more than the maximum value
      that the image header declares. */
  lemma DisplayOverflowsAtOne()
    ensures Display(Vec3(0.5, 0.7, 1.0)).2 == 256
    ensures DisplayClamped(Vec3(0.5, 0.7, 1.0)).2 == 255
  {
  }

  /** On [0, 1) the conversion stays within 0..255, and on [0, 0.999) the clamped conversion
      agrees with it. */
  lemma DisplayInRangeBelowOne(c: real)
    requires 0.0 <= c < 1.0
    ensures AsU32(256.0 * c) <= 255
    ensures c < 0.999 ==> ClampedChannel(c) == AsU32(256.0 * c)
  {
  }
}
