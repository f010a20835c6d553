# A verified model of a small Rust path tracer

This project models the core of a small Rust path tracer in the style of "Ray Tracing in
One Weekend":

- vectors and rays;
- ray–sphere intersection;
- the nearest-hit scan over a scene of spheres;
- the Lambertian, metal and dielectric scatter rules with Schlick's reflectance;
- the camera set-up, the recursive path estimator `ray_colour`, and the per-pixel averaging
  of `render`.

It then proves properties of that model.

Modelling choices:

- **Numbers.** Every `f32` is a mathematical `real`. Rounding, NaN and infinity are not
  modelled. Where the source's NaN behaviour decides a branch, the model writes that branch
  out. One example is a zero-direction ray in `Sphere::hit`, whose roots are 0/0 and which no
  range contains.
- **Square root and helpers.** Square root and three vector helpers the code calls without
  defining them are fields of a `Kernel` value passed as a parameter: `reflect_along`,
  `refract_along` and `near_zero`. `Kernel.Valid()` requires only that `sqrt` be the
  non-negative square root. Two more undefined operators are given fixed definitions instead:
  the free function `dot` (`src/sphere.rs:4`, used at line 56) is the method `Vec3::dot`, and
  `Vec3 * Vec3` (`src/camera.rs:133`) is the component-wise product `Vectors.Hadamard`.
- **Random draws.** Every call to `random()` or `random_unit_vector()` becomes a parameter:
  `Draws` for one bounce, `SampleDraw` for one sample, and a function of (pixel, sample
  number) for the whole image.
- **`u32` counts.** These become `nat`. The one place where the `u32` range matters is the
  `as u32` casts. `AsU32` models those with truncation and saturation at both ends.

Modules follow the source files:

| module | source | form |
|---|---|---|
| `RealArith` | helpers | products and quotients behind functions, with one lemma per nonlinear fact |
| `Vectors` | `src/vec3.rs` | `Vec3` datatype and operators; class `Vec3Var` for the `*Assign` operators |
| `Rays` | `src/ray.rs` | `Ray` datatype: `New`, `Construct`, `At` |
| `Hittables` | `src/hittable.rs` | `HitRecord`, `set_face_normal`, ranges `start..end` with an optional infinite end |
| `Spheres` | `src/sphere.rs` | `Sphere`; `Intersection`, the specification of `hit`; method `Hit`, the step-by-step code |
| `Worlds` | `src/hittable.rs` | `World::hit`: the `Scan` loop state as a function, method `Hit` with its loop |
| `Materials` | `src/material.rs` | the three `scatter` rules and `reflectance` |
| `Cameras` | `src/camera.rs` | class `Camera` (`new`, `initialize`, the `render` loops), `RayColour`, pixel geometry |

Four call sites of `Ray::construct` pass two arguments: `src/camera.rs:85`,
`src/material.rs:41`, `src/material.rs:68` and `src/material.rs:110`; that is, every call
except the one at `src/sphere.rs:20`. The definition at `src/ray.rs:24` takes three. The model
passes time `0` at those sites.

## Model

| member | source | states |
|---|---|---|
| Vectors.Add | src/vec3.rs:11-21 | definition: `+` adds component by component |
| Vectors.Neg | src/vec3.rs:33-43 | definition: unary `-` negates every component |
| Vectors.Sub | src/vec3.rs:45-55 | definition: binary `-` subtracts component by component |
| Vectors.Scale | src/vec3.rs:67-77 | definition: `Vec3 * f32` multiplies every component by `t` |
| Vectors.ScaleBy | src/vec3.rs:79-85 | definition: `f32 * Vec3` swaps its operands and scales |
| Vectors.Div | src/vec3.rs:97-107 | definition: `Vec3 / f32` divides every component by a non-zero `t` |
| Vectors.Hadamard | src/camera.rs:133 | definition: the component-wise product, used for `Vec3 * Vec3`, which the source uses without defining |
| Vectors.Zero | src/vec3.rs:131-137 | definition: `Vec3::new()` is (0, 0, 0) |
| Vectors.FromPoint | src/vec3.rs:139-145 | definition: `from_point` builds the vector of its three components |
| Vectors.LengthSq | src/vec3.rs:147-149 | definition: the sum of the squared components |
| Vectors.Length | src/vec3.rs:151-153 | definition: the square root of `length_sq` |
| Vectors.Unit | src/vec3.rs:155-157 | definition: the vector divided by its length, when that length is not zero |
| Vectors.DotSelf | src/vec3.rs:159-161 | definition: `dot_self` is `length_sq` |
| Vectors.Dot | src/vec3.rs:163-167 | definition: the sum of the component-wise products; the sphere's free `dot` is taken to be this method |
| Vectors.Cross | src/vec3.rs:169-175 | definition: `cross` as written, whose `y` component is `a.z*b.x - a.x - b.z` |
| Vectors.CrossProduct | src/vec3.rs:169-175 | definition: the cross product the source intends, with `y` component `a.z*b.x - a.x*b.z` |
| Vectors.Display | src/vec3.rs:120-127 | definition: the three integers `fmt` writes, `(256 c) as u32` for each channel |
| Vectors.AddCommutes | src/vec3.rs:11-21 | component-wise addition is commutative |
| Vectors.AddAssociates | src/vec3.rs:11-21 | addition is associative |
| Vectors.AddZero | src/vec3.rs:11-21 | `new()` is the identity of addition on both sides |
| Vectors.SubIsAddNeg | src/vec3.rs:33-55 | `v - w == v + (-w)`, `v - v` is zero, and negation is an involution |
| Vectors.ScaleLaws | src/vec3.rs:67-85 | `t * v == v * t`; scaling by 0 gives zero and by 1 the vector itself; scaling distributes over a sum of scalars |
| Vectors.DotIsSymmetric | src/vec3.rs:163-167 | `dot` is symmetric and changes sign with a negated argument |
| Vectors.LengthSqLaws | src/vec3.rs:147-167 | `dot_self(v) == length_sq(v) == dot(v, v)`, which is never negative |
| Vectors.LengthSqOfNeg | src/vec3.rs:147-149 | negation keeps the squared length |
| Vectors.LengthSqZero | src/vec3.rs:147-149 | the squared length is zero exactly for the zero vector |
| Vectors.LengthSpec | src/vec3.rs:151-153 | `length` is the non-negative root of `length_sq`, zero exactly for the zero vector |
| Vectors.ZeroHasNoLength | src/vec3.rs:151-153 | the zero vector has length 0, so `unit` is undefined for it |
| Vectors.UnitHasLengthOne | src/vec3.rs:155-157 | a non-zero vector has a non-zero length, and `unit` of it has squared length 1 |
| Vectors.UnitComponentsBounded | src/vec3.rs:155-157 | each component of a unit vector lies in [-1, 1] |
| Vectors.ConstructorsStore | src/vec3.rs:131-145 | `new()` is (0, 0, 0) and `from_point` stores its three arguments unchanged |
| Vectors.CrossXZAntiCommute | src/vec3.rs:169-175 | the `x` and `z` components of `cross` change sign when the arguments swap |
| Vectors.CrossYAsWritten | src/vec3.rs:172 | the written `y` component is not anti-commutative: for (0,0,0) and (0,0,1) it gives -1 one way and 0 the other |
| Vectors.CrossYDeviation | src/vec3.rs:172 | the written `y` equals the cross product's `y` exactly when `a.x*b.z == a.x + b.z` |
| Vectors.CrossProductAntiCommutes | src/vec3.rs:169-175 | the intended cross product is anti-commutative and agrees with `cross` on `x` and `z` |
| Vectors.CrossProductOrthogonal | src/vec3.rs:169-175 | the intended cross product is orthogonal to both arguments |
| Vectors.AsU32 | src/vec3.rs:123-125 | `f32 as u32`: at most `u32::MAX`, 0 for non-positive input, the floor inside the range, saturated above it |
| Vectors.ClampedChannel | src/vec3.rs:123-125 | the corrected channel conversion never exceeds 255 and agrees with the written one on [0, 0.999) |
| Vectors.DisplayClamped | src/vec3.rs:120-127 | all three corrected channels are at most 255 |
| Vectors.DisplayOverflowsAtOne | src/vec3.rs:123-125 | as written, a channel of exactly 1.0 is printed as 256; the corrected conversion prints 255 |
| Vectors.DisplayInRangeBelowOne | src/vec3.rs:123-125 | on [0, 1) the written conversion stays at most 255, and on [0, 0.999) the corrected one agrees with it |
| Vectors.Vec3Var.constructor | src/vec3.rs:4-9 | a fresh place holds the given vector |
| Vectors.Vec3Var.AddAssign | src/vec3.rs:23-31 | `a += b` leaves `a == old(a) + b` |
| Vectors.Vec3Var.SubAssign | src/vec3.rs:57-65 | `a -= b` leaves `a == old(a) - b` |
| Vectors.Vec3Var.MulAssign | src/vec3.rs:87-95 | `a *= t` leaves `a == old(a) * t` |
| Vectors.Vec3Var.DivAssign | src/vec3.rs:109-117 | `a /= t` leaves `a == old(a) / t`, for `t != 0` |
| Rays.New | src/ray.rs:15-21 | definition: `Ray::new()` is the ray at the origin with zero direction, at time 0 |
| Rays.Construct | src/ray.rs:24-26 | definition: `Ray::construct` is the ray with the given origin, direction and time |
| Rays.At | src/ray.rs:30-32 | definition: `at(t)` is `origin + t * direction` |
| Rays.ConstructorsStore | src/ray.rs:15-26 | `new()` has zero origin, zero direction and time 0; `construct` stores origin, direction and time unchanged |
| Rays.AtZero | src/ray.rs:30-32 | `at(0)` is the origin |
| Rays.AtShift | src/ray.rs:30-32 | `at(s + t) == at(s) + t * direction` |
| Rays.AtStationary | src/ray.rs:30-32 | a ray with zero direction is at its origin for every `t` |
| Hittables.Range.Contains | src/sphere.rs:70-72 | definition: `t_range.contains(&t)` is `start <= t < end`, and an infinite end bounds nothing |
| Hittables.Bound.Min | src/hittable.rs:67 | `closest_yet.min(t)` is finite and at most `t` and the old end; it is `t` itself when `t` lies before the end, and the finite end itself otherwise |
| Hittables.MinNarrows | src/hittable.rs:67 | narrowing never moves the end outward, and narrows to `t` when `t` is inside |
| Hittables.NewRecord | src/hittable.rs:23-31 | `HitRecord::new` stores point, normal, `t` and material unchanged, with `front` true |
| Hittables.WithFaceNormal | src/hittable.rs:34-42 | `front` holds iff `dot(dir, outward) < 0`; the normal is `outward` if front, else `-outward`; `dot(dir, normal) <= 0`; point, `t` and material unchanged |
| Hittables.SetFaceNormal | src/hittable.rs:34-42 | the branching update gives exactly the record `WithFaceNormal` describes |
| Spheres.StationaryFromDim | src/sphere.rs:18-24 | definition: a sphere whose centre ray has zero direction, at time 0 |
| Spheres.MovingFromDim | src/sphere.rs:26-32 | definition: a sphere with the given centre ray, radius and material |
| Spheres.CentreAt | src/sphere.rs:50 | definition: the centre at a given time is `center.at(time)` |
| Spheres.Coefficients | src/sphere.rs:50-57 | definition: with `A = origin - centre` and `B = direction`, `a = length_sq(B)`, `half_b = dot(A, B)` and `c = length_sq(A) - r^2` |
| Spheres.Quadratic.Discriminant | src/sphere.rs:59 | definition: `half_b^2 - a c` |
| Spheres.NegRoot | src/sphere.rs:64-65 | definition: `(-half_b - sqrt(discriminant)) / a` |
| Spheres.PosRoot | src/sphere.rs:64-66 | definition: `(-half_b + sqrt(discriminant)) / a` |
| Spheres.Outward | src/sphere.rs:77 | definition: the outward normal `(r.at(t) - centre) / radius` |
| Spheres.Record | src/sphere.rs:76-88 | definition: `HitRecord::new` at the root, then `set_face_normal` with the outward normal |
| Spheres.Intersection | src/sphere.rs:49-89 | definition: the result of `Sphere::hit`. A negative discriminant or a zero direction misses; otherwise it is the record of `neg_root` if the range contains it, else of `pos_root` if the range contains that, else a miss |
| Spheres.StationaryCentre | src/sphere.rs:18-32 | a stationary sphere's centre `center.at(time)` is the given centre at every time; it equals a moving sphere with zero velocity |
| Spheres.LengthSqAlong | src/sphere.rs:52-57 | `length_sq(A + tB)` expands to `length_sq(B) t^2 + 2 dot(A, B) t + length_sq(A)` |
| Spheres.QuadraticMeasuresSurface | src/sphere.rs:52-57 | `a t^2 + 2 half_b t + c` is the squared distance to the centre minus `radius^2`; it is zero iff the point at `t` is on the sphere |
| Spheres.ZeroOfQuadratic | src/sphere.rs:59-66 | `t` is a zero iff `(a t + half_b)^2` equals the discriminant |
| Spheres.RootsSolve | src/sphere.rs:64-66 | with a non-negative discriminant both `neg_root` and `pos_root` are zeros of the quadratic |
| Spheres.OnlyRoots | src/sphere.rs:59-66 | every zero is one of the two roots, and a zero forces a non-negative discriminant |
| Spheres.RootsOrdered | src/sphere.rs:64-66 | with `a > 0`, `neg_root <= pos_root` |
| Spheres.LeadingCoefficient | src/sphere.rs:55 | `a` is non-negative, and zero exactly for a zero direction |
| Spheres.OutwardIsUnit | src/sphere.rs:77 | at a surface point, `(at(t) - center) / radius` and its negation have squared length 1 |
| Spheres.Hit | src/sphere.rs:49-89 | the step-by-step `hit` equals `Intersection`: discriminant test, smaller root if the range contains it, else the larger, else none |
| Spheres.HitRecordContents | src/sphere.rs:76-88 | a returned record has `t` equal to one of the roots and in the range, `point == at(t)` on the sphere, a unit normal turned against the ray with `front` iff `dot(dir, outward) < 0`, and the sphere's material |
| Spheres.IntersectionIsNearest | src/sphere.rs:49-89 | for a ray with a direction, `hit` misses iff no surface point lies in the range; otherwise its `t` is the nearest such point |
| Spheres.MissCases | src/sphere.rs:59-66 | a negative discriminant misses, and so does a zero direction (NaN roots) |
| Spheres.NarrowedIntersection | src/sphere.rs:68-74 | probing with the end pulled in gives the same hit if it lies before the new end, and otherwise misses |
| Worlds.Scan | src/hittable.rs:61-70 | definition: the loop state after `n` objects; each is probed over `start..closest_yet`, and a hit narrows `closest_yet` by `min` and replaces the record |
| Worlds.Nearest | src/hittable.rs:60-72 | definition: the result of `World::hit`, the record held once every object is scanned |
| Worlds.Probe | src/hittable.rs:66 | definition: what object `j` reports when probed alone over the whole range |
| Worlds.Keep | src/hittable.rs:66-69 | definition: a new hit replaces the held record when nothing is held or the new hit is strictly nearer |
| Worlds.Hit | src/hittable.rs:60-72 | the loop over the scene returns `Nearest`, the scan of every object over `start..closest_yet` |
| Worlds.EmptyWorldMisses | src/hittable.rs:60-72 | an empty scene returns None |
| Worlds.ScanClosest | src/hittable.rs:61-70 | `closest_yet` is the range's end until a hit, then the held record's `t`; it never exceeds the end and never increases |
| Worlds.ScanStep | src/hittable.rs:65-69 | the narrowed probe of one more object replaces the held record exactly when its own full-range hit is strictly nearer, or nothing is held |
| Worlds.WinnerIsMinimal | src/hittable.rs:60-72 | the winning record's `t` is no larger than any object's full-range hit |
| Worlds.NewWinner | src/hittable.rs:66-68 | a hit strictly nearer than all earlier ones makes the newest object the winner |
| Worlds.WinnerStays | src/hittable.rs:66 | a newest object that misses, or ties or lies further, leaves the winner in place: ties go to the earlier object |
| Worlds.ScanFindsFirstNearest | src/hittable.rs:60-72 | after `n` objects the scan holds None iff each misses on its own; otherwise it holds the first object's nearest hit |
| Worlds.NearestIsFirstMinimum | src/hittable.rs:60-72 | `World::hit` is None iff every object misses over the full range; otherwise it is the hit of the first object whose hit is nearest |
| Worlds.NearestPointOfScene | src/hittable.rs:60-72 | `World::hit` misses iff no sphere has a surface point in the range; otherwise its `t` is in the range, on some sphere, and nearest over the scene |
| Worlds.NearestComesFromScene | src/hittable.rs:60-72 | a hit implies the ray has a direction and the record carries some sphere's material |
| Materials.Scatter | src/material.rs:12-15 | definition: `Material::scatter`, dispatched on the material's kind |
| Materials.LambertianDirection | src/material.rs:34-38 | definition: the normal if the normal plus the first random unit vector is near zero, else the normal plus a second random unit vector |
| Materials.ScatterLambertian | src/material.rs:33-44 | definition: always scatters, from the hit point along `LambertianDirection`, with the albedo |
| Materials.MetalDirection | src/material.rs:62-64 | definition: the unit incoming direction reflected along the normal, plus `fuzz` times a random unit vector |
| Materials.ScatterMetal | src/material.rs:61-73 | definition: scatters along `MetalDirection` with the albedo when that direction has a positive dot product with the normal; otherwise absorbs |
| Materials.Min | src/material.rs:96 | definition: `f32::min` of two values |
| Materials.CosTheta | src/material.rs:94-96 | definition: `dot(-unit, normal)`, capped at 1 |
| Materials.CannotRefract | src/material.rs:97-99 | definition: `sqrt(1 - cos^2) * ri > 1`; false when the root is NaN |
| Materials.Reflectance | src/material.rs:115-118 | definition: Schlick's approximation `r0 + (1 - r0)(1 - cos)^5`, with `r0 = ((1-ri)/(1+ri))^2` |
| Materials.DielectricDirection | src/material.rs:92-106 | definition: the reflection when refraction is impossible or the reflectance exceeds the draw; otherwise the refraction with index `ri` |
| Materials.ScatterDielectric | src/material.rs:91-112 | definition: always scatters, from the hit point along `DielectricDirection`, with attenuation (1, 1, 1) |
| RealArith.Pow | src/material.rs:116-117 | definition: `x.powi(n)`, the product of `n` factors `x` |
| Materials.RefractiveIndex | src/material.rs:92 | the index ratio is never -1, so Schlick's `1 + ri` is never zero |
| Materials.LambertianScatters | src/material.rs:33-44 | always scatters from `rec.point` with the albedo; direction `rec.normal` when `normal + u1` is near zero, else `normal + u2` with a separate draw |
| Materials.MetalScatters | src/material.rs:61-73 | scatters iff `dot(reflected + fuzz*u, normal) > 0`, then from `rec.point` with the albedo along that direction; with zero fuzz the direction is the pure reflection |
| Materials.DielectricScatters | src/material.rs:91-112 | always scatters from `rec.point` with attenuation (1, 1, 1); index `1/eta` on the front face, `eta` otherwise |
| Materials.DielectricChoice | src/material.rs:96-106 | when refraction is impossible every draw reflects; otherwise it refracts exactly when the draw is at least the reflectance |
| Materials.CosThetaBounds | src/material.rs:96 | `cos_theta <= 1`, and it is non-negative when the normal faces against the ray |
| Materials.ReflectanceValues | src/material.rs:115-118 | `reflectance(0, ri) == 1`, `reflectance(1, ri) == ((1-ri)/(1+ri))^2`, `reflectance(c, 1) == (1-c)^5` |
| Materials.ReflectanceBounds | src/material.rs:115-118 | for `ri > 0` and `c` in [0, 1], `r0` is in [0, 1] and the reflectance lies between `r0` and 1 |
| Cameras.SkyColour | src/camera.rs:138-143 | definition: the sky along a direction, `SkyBlend` of `0.5 (unit(dir).y + 1)`; black for a zero direction |
| Cameras.SkyBlend | src/camera.rs:142 | definition: `(1 - a) (1, 1, 1) + a (0.5, 0.7, 1)` |
| Cameras.RayColour | src/camera.rs:125-145 | definition: `ray_colour`. It is black with no budget left. On a miss it is the sky. On a hit it is black if the material absorbs, else the attenuation times the colour of the scattered ray with one bounce fewer |
| Cameras.Bounce | src/camera.rs:130-133 | definition: the world query of `ray_colour` followed, on a hit, by the material's `scatter` with that bounce's draws |
| Cameras.PathRay | src/camera.rs:125-133 | definition: the ray of each nested call of `ray_colour`, following the scattered rays; none once the path has ended |
| Cameras.Sum | src/camera.rs:101 | definition: the fold that adds the samples in order, starting from `Vec3::new()` |
| Cameras.Average | src/camera.rs:101-102 | definition: the fold divided by the number of samples |
| Cameras.PixelValue | src/camera.rs:99-102 | definition: the average of the samples; black when there are none |
| Cameras.ImageHeight | src/camera.rs:52 | definition: `(image_width as f32 / aspect_ratio) as u32`, with the saturating cast |
| Cameras.ViewportWidth | src/camera.rs:53-56 | definition: `2 * (width / height)` |
| Cameras.ViewportU | src/camera.rs:61 | definition: `(viewport_width, 0, 0)` |
| Cameras.ViewportV | src/camera.rs:62 | definition: `-(0, viewport_height, 0)` with its components written out |
| Cameras.ViewportTopLeft | src/camera.rs:67-68 | definition: `centre - ((0, 0, 1) + u/2 + v/2)` |
| Cameras.FirstPixelCentre | src/camera.rs:70 | definition: the corner plus `0.5 (delta_u + delta_v)` |
| Cameras.GridPoint | src/camera.rs:80-82 | definition: `first + i delta_u + j delta_v` |
| Cameras.Jitter | src/camera.rs:76 | definition: `0.5 u delta_u + 0.5 v delta_v` for the two draws `u` and `v` |
| Cameras.Camera.Valid | src/camera.rs:46-73 | definition: the derived fields are those `initialize` computes, for an image at least one pixel wide and high |
| Cameras.Camera.PixelSampleSquare | src/camera.rs:75-77 | definition: the jitter applied to the camera's own pixel steps |
| Cameras.Camera.PixelCentre | src/camera.rs:80-82 | definition: the un-jittered centre of pixel (i, j) on the camera's grid |
| Cameras.Camera.GetRay | src/camera.rs:79-86 | definition: the ray from the camera centre through the jittered pixel centre, at time 0 |
| Cameras.Camera.SampleColour | src/camera.rs:100 | definition: `ray_colour` of one sample's ray, with `max_depth` bounces and that sample's draws |
| Cameras.Camera.constructor | src/camera.rs:26-44 | `new` keeps the four public settings and leaves the derived fields as `initialize` defines them |
| Cameras.Camera.Initialize | src/camera.rs:46-73 | `initialize` keeps the public settings and establishes `Valid()`: height, steps and first pixel as derived from them |
| Cameras.Camera.Samples | src/camera.rs:99-100 | a pixel has exactly `n` samples after `n` draws, and sample `s` is the colour traced with draw number `s` |
| Cameras.Camera.PixelColour | src/camera.rs:99-102 | the fold-and-divide of one pixel is the average of its samples, taken in draw order; with no samples it is black |
| Cameras.Camera.RenderRow | src/camera.rs:98-105 | one row has `image_width` pixels, each the average of its samples (black when there are none) |
| Cameras.Camera.Render | src/camera.rs:95-106 | the image has `image_height` rows of `image_width` pixels, each the average of its samples (black when there are none) |
| Cameras.ViewportVPointsDown | src/camera.rs:62 | `viewport_v` is `-(0, 2, 0)` |
| Cameras.HeightNeedsWidth | src/camera.rs:52 | an image height of at least 1 needs a width of at least 1 |
| Cameras.PixelSteps | src/camera.rs:53-65 | the steps are square with side `s = 2/image_height > 0`: `delta_u == (s, 0, 0)`, `delta_v == (0, -s, 0)`, and the viewport spans `width` steps across |
| Cameras.ViewportCorner | src/camera.rs:67-68 | the top-left corner of a camera at the origin is `(-w/2, 1, -1)` |
| Cameras.FirstPixel | src/camera.rs:67-70 | `init_pixel_loc` is half a step in from the corner: `(s/2 - w/2, 1 - s/2, -1)` |
| Cameras.CameraSteps | src/camera.rs:46-65 | every initialised camera has `delta_u == (s,0,0)` and `delta_v == (0,-s,0)` with `s = 2/height > 0`, so `delta_v.y < 0` |
| Cameras.CameraGrid | src/camera.rs:46-73 | every initialised camera is on the square grid: origin centre, square steps, first pixel centre in the plane `z == -1` |
| Cameras.GridOffsets | src/camera.rs:80-82 | grid point (i, j) is `i + 1/2` steps right of the left edge and `j + 1/2` steps below the top, at `z == -1` |
| Cameras.PixelCentres | src/camera.rs:80-82 | every un-jittered pixel centre lies in the plane `z == -1`, at `((i+1/2)s - w/2, 1 - (j+1/2)s)` |
| Cameras.MirroredOffsets | src/camera.rs:80-82 | the offsets of mirrored columns (rows) add up to the whole width (height) |
| Cameras.GridCentred | src/camera.rs:67-82 | mirrored grid points have opposite offsets and every point lies strictly inside the viewport |
| Cameras.ViewportCentred | src/camera.rs:67-82 | the pixel centres are symmetric about the camera axis and lie strictly inside the viewport |
| Cameras.JitterOffsets | src/camera.rs:75-77 | the jitter moves a point `u/2` steps right and `v/2` steps down, in the image plane |
| Cameras.HalfStepBound | src/camera.rs:76 | half a draw in [0, 1) of a step stays below half a step |
| Cameras.JitterWithinQuarterPixel | src/camera.rs:75-77 | for draws in [0, 1) a sample lies in the quarter of its pixel between the centre and the bottom-right corner |
| Cameras.PrimaryRays | src/camera.rs:79-86 | `get_ray` starts at the origin at time 0, goes through the jittered pixel centre with `z == -1`, and so never has a zero direction |
| Cameras.SumOfIdentical | src/camera.rs:99-101 | the fold of `n` equal colours is that colour times `n` |
| Cameras.AverageOfIdentical | src/camera.rs:99-102 | averaging `n` identical samples gives that sample |
| Cameras.SumBounded | src/camera.rs:99-101 | the fold of unit-cube colours has each channel between 0 and their number |
| Cameras.AverageInUnitCube | src/camera.rs:99-102 | the average of unit-cube colours is in the unit cube |
| Cameras.SkyBlendChannels | src/camera.rs:142 | the sky colour for blend factor `a` is `(1 - a/2, 1 - 3a/10, 1)` |
| Cameras.SkyBlendBounds | src/camera.rs:142 | for `a` in [0, 1] blue is exactly 1, red is in [0.5, 1] and green in [0.7, 1] |
| Cameras.SkyFactor | src/camera.rs:139-140 | for a non-zero direction, `a = 0.5 (unit(dir).y + 1)` lies in [0, 1] |
| Cameras.SkyColourBounds | src/camera.rs:138-143 | the sky is in the unit cube; for a non-zero direction its blue is 1, red at least 0.5 and green at least 0.7 |
| Cameras.ScatterAttenuates | src/camera.rs:132-133 | with albedos in the unit cube, every scatter's attenuation is in the unit cube |
| Cameras.HadamardInUnitCube | src/camera.rs:133 | the component-wise product of unit-cube colours is in the unit cube |
| Cameras.RayColourInUnitCube | src/camera.rs:125-145 | with albedos in the unit cube, `ray_colour` is in the unit cube at every depth |
| Cameras.RayColourUsesBudgetDraws | src/camera.rs:125-133 | with `depth` bounces left, `ray_colour` depends only on the draws of bounces 1 to `depth` |
| Cameras.WorldQueries | src/camera.rs:125-133 | a path traced with `depth` bounces left makes at most `depth` world queries, and none exactly when `depth` is 0 |
| Cameras.RayColourSteps | src/camera.rs:125-145 | with budget left, a miss shows the sky and has no bounce, an absorption is black, and a scatter gives its attenuation times the colour of the scattered ray with one bounce fewer |
| Cameras.WorldQueriesCountPath | src/camera.rs:125-133 | the count is exact: calls 0 to `n - 1` on the path all take place, and a call `n`, if the path reaches it, has no budget left |
| Cameras.RayColourUsesQueriedDraws | src/camera.rs:125-133 | the colour and the query count depend only on the draws of the bounces that query the world, the last `WorldQueries` of the budget |
| Cameras.NoBudgetIsBlack | src/camera.rs:126-128 | at depth 0 the colour is (0, 0, 0), whatever the scene |
| Cameras.EmptySceneShowsSky | src/camera.rs:130-143 | in an empty scene every ray with budget left shows the sky |
| Cameras.PixelInUnitCube | src/camera.rs:99-102 | with albedos in the unit cube, every pixel colour is in the unit cube |
| Cameras.SkyOverflowsDisplay | src/camera.rs:142 | an escaping ray has blue exactly 1, printed as 256 as written and as 255 when clamped |

## Left out

- Floating point: the model computes over reals. Rounding, NaN propagation and `INFINITY`
  are not modelled, except where they decide a branch. The range end `INFINITY` is the
  `Unbounded` end of a range.
- `SkyColour`: a ray with zero direction has no unit vector, and the source's sky colour is
  then NaN. Primary rays never have a zero direction (`PrimaryRays`), but a Lambertian
  bounce whose random unit vector is the negated normal scatters along a zero direction.
  The model gives that ray black. In the source the NaN goes on through the product with
  the attenuation (`src/camera.rs:133`) and through the fold and the division of the pixel
  (`src/camera.rs:101-102`). The whole pixel is then NaN and prints as `0 0 0`, whereas the
  model averages black with the other samples. Only for a one-sample pixel do the two agree.
- `Cameras.SkyColourBounds`, `Cameras.RayColourInUnitCube`, `Cameras.PixelInUnitCube`: these
  hold of the source only for paths with no zero scatter direction. On such a path the
  source's colour is NaN, not black.
- `Cameras.HadamardInUnitCube`, `Cameras.RayColourInUnitCube`, `Cameras.PixelInUnitCube`: they
  rest on `Vec3 * Vec3` being the component-wise product. The source uses that operator
  without defining it (`src/camera.rs:133`). The sphere's `dot` (`src/sphere.rs:4`) is likewise
  undefined and is taken to be `Vec3::dot`.
- `Cameras.Camera.PixelColour`, `Cameras.Camera.Render`: with `samples_per_pixel == 0` the
  source divides a zero sum by zero, and the NaN prints as `0 0 0`. The model gives these
  pixels black, the same printed value, without modelling the NaN.
- `Spheres.Intersection`, `Spheres.Hit`: a sphere of radius 0 makes the source divide by
  zero when it builds the normal. The model requires a non-zero radius (`WellFormed` for a
  scene).
- `Materials.Scatter`: a dielectric with `eta == 0` or `eta == -1` makes the source divide by
  zero. Metal and dielectric normalise the incoming direction, which a ray that hits a
  sphere always has. The model requires these conditions (`ValidMaterial`).
- `Cameras.Camera.constructor`, `Cameras.Camera.Initialize`: the source divides by
  `image_height` without checking it (its own TODO). The model requires a height of at
  least 1.
- The square root, `random_unit_vector`, `reflect_along`, `refract_along` and `near_zero`
  are defined outside these files. They are parameters of the model (the `Kernel` and the
  draws). Only `sqrt` is constrained, to be the non-negative square root. No property of
  refraction or reflection directions is claimed.
- `random()` (a wrapper over a thread-local random generator): every draw is a parameter.
  The jitter lemmas assume draws in [0, 1).
- Printing: the PPM header, the progress lines and `debug` are output only. `Render` returns
  the pixel colours instead of printing them, and `Display` gives the three printed integers.
- `Hittables.SetFaceNormal`: modelled on values. It returns the updated record rather than
  updating a borrowed one. The record is owned by the sphere's `hit` at that point, so no
  alias can observe the difference.
- `Arc<dyn Material>`, `Box<dyn Hittable>`, and the `Send`/`Sync` bounds: materials are a
  plain datatype, and a scene is a sequence of spheres, the only shape the source defines.
- Motion blur: the source leaves it as a TODO. The model keeps only `center.at(time)` for
  the centre.
- Camera geometry: the pixel functions use the camera's fields as they are. The geometric
  lemmas are stated for cameras on the square grid of `Cameras.SquareGrid`, which
  `Cameras.CameraGrid` derives from `Valid()` for every initialised camera.
- The stand-alone gradient printer (`main.rs`) and the unused solid texture (`texture.rs`)
  are not part of this model.

## Findings

| source | as written | input that shows it | evidently intended | confidence | as-written member | corrected member |
|---|---|---|---|---|---|---|
| src/vec3.rs:172 | `y: self.z * rhs.x - self.x - rhs.z` | `cross((0,0,0), (0,0,1)).y == -1`, but swapped it is `0` | `self.z * rhs.x - self.x * rhs.z` | high; not executed | Vectors.CrossYAsWritten | Vectors.CrossProductAntiCommutes |
| src/vec3.rs:123-125 | `(256.0 * c) as u32` for each channel, under a header declaring 255 as the maximum | the sky colour of any ray that misses has blue exactly 1.0, which prints as 256 | clamp to [0, 0.999] before scaling, so every channel is at most 255 | medium; not executed | Vectors.DisplayOverflowsAtOne | Vectors.DisplayClamped |
