// The camera, the path estimator and the pixel average (src/camera.rs).

module Cameras {
  import opened RealArith
  import opened Vectors
  import opened Rays
  import opened Hittables
  import opened Spheres
  import opened Worlds
  import opened Materials

  type Colour = Vec3

  /** Every world query starts just off the surface, to avoid re-hitting it. */
  const HitStart: real := 0.001

  /** A scene the tracer can render: a genuine square root, non-degenerate spheres and
      materials whose scatter is defined. */
  ghost predicate SceneReady(k: Kernel, world: World<Material>) {
    && k.Valid()
    && WellFormed(world)
    && forall i :: 0 <= i < |world| ==> ValidMaterial(world[i].material)
  }

  /** A colour each of whose channels lies in [0, 1]. */
  predicate InUnitCube(c: Colour) {
    0.0 <= c.x <= 1.0 && 0.0 <= c.y <= 1.0 && 0.0 <= c.z <= 1.0
  }

  /** A material that never brightens light: its albedo lies in the unit cube (a dielectric
      always attenuates by one). */
  predicate Attenuating(m: Material) {
    match m
    case Lambertian(albedo) => InUnitCube(albedo)
    case Metal(albedo, _) => InUnitCube(albedo)
    case Dielectric(_) => true
  }

  ghost predicate AllAttenuating(world: World<Material>) {
    forall i :: 0 <= i < |world| ==> Attenuating(world[i].material)
  }

  // ---------------------------------------------------------------- the path estimator

  /** The sky seen along `direction`: white at the bottom blending to light blue at the top.
      A zero direction has no unit vector; the source's colour is then NaN, which the image
      writes as 0, and the model gives black. */
  function SkyColour(k: Kernel, direction: Vec3): Colour {
    if Length(k, direction) == 0.0 then Zero()
    else
      SkyBlend(Mul(0.5, Unit(k, direction).y + 1.0))
  }

  /** The linear blend from white (`a` = 0) to light blue (`a` = 1). */
  function SkyBlend(a: real): Colour {
    Add(ScaleBy(1.0 - a, FromPoint(1.0, 1.0, 1.0)), ScaleBy(a, FromPoint(0.5, 0.7, 1.0)))
  }

  /** `ray_colour`: black once the bounce budget is spent; on a hit, black if the material
      absorbs, else its attenuation times the colour of the scattered ray; on a miss, the
      sky. The random draws of the bounce made with `depth` left are `draws(depth)`. */
  function RayColour(k: Kernel, world: World<Material>, r: Ray, depth: nat, draws: nat -> Draws): Colour
    requires SceneReady(k, world)
    decreases depth
  {
    if depth == 0 then Zero()
    else
      match Nearest(k, world, r, Range(HitStart, Unbounded))
      case None => SkyColour(k, r.direction)
      case Some(rec) =>
        NearestComesFromScene(k, world, r, Range(HitStart, Unbounded));
        LengthSpec(k, r.direction);
        match Scatter(k, rec.material, r, rec, draws(depth))
        case None => Zero()
        case Some(x) => Hadamard(x.attenuation, RayColour(k, world, x.scattered, depth - 1, draws))
  }

  /** The bounce `ray_colour` makes after its world query with `depth` bounces left: the
      scatter at what the ray hits, or none when the ray escapes or is absorbed. */
  function Bounce(k: Kernel, world: World<Material>, r: Ray, depth: nat, draws: nat -> Draws): Option<Reflect>
    requires SceneReady(k, world)
  {
    match Nearest(k, world, r, Range(HitStart, Unbounded))
    case None => None
    case Some(rec) =>
      NearestComesFromScene(k, world, r, Range(HitStart, Unbounded));
      LengthSpec(k, r.direction);
      Scatter(k, rec.material, r, rec, draws(depth))
  }

  /** The ray of call number `m` of `ray_colour` along the traced path (the outermost call is
      number 0, with `depth` bounces left), or none when the path ends before that call. */
  function PathRay(k: Kernel, world: World<Material>, r: Ray, depth: nat, draws: nat -> Draws, m: nat): Option<Ray>
    requires SceneReady(k, world)
    decreases m
  {
    if m == 0 then Some(r)
    else if depth == 0 then None
    else
      match Bounce(k, world, r, depth, draws)
      case None => None
      case Some(x) => PathRay(k, world, x.scattered, depth - 1, draws, m - 1)
  }

  /** The number of world queries `ray_colour` makes along the path it traces: one per call
      with budget left, until the ray escapes, is absorbed or the budget is spent. */
  function WorldQueries(k: Kernel, world: World<Material>, r: Ray, depth: nat, draws: nat -> Draws): (n: nat)
    requires SceneReady(k, world)
    ensures n <= depth
    ensures n == 0 <==> depth == 0
    decreases depth
  {
    if depth == 0 then 0
    else
      match Bounce(k, world, r, depth, draws)
      case None => 1
      case Some(x) => 1 + WorldQueries(k, world, x.scattered, depth - 1, draws)
  }

  // ---------------------------------------------------------------- pixel averages

  /** `fold(Vec3::new(), |sum, x| sum + x)` */
  function Sum(colours: seq<Colour>): Colour {
    if |colours| == 0 then Zero() else Add(Sum(colours[..|colours| - 1]), colours[|colours| - 1])
  }

  /** The sum of the samples divided by their number. */
  function Average(colours: seq<Colour>): Colour
    requires |colours| >= 1
  {
    Div(Sum(colours), |colours| as real)
  }

  /** The colour printed for a pixel with these samples. With no samples the source divides
      zero by zero; the NaN channels print as 0, so the model gives black. */
  function PixelValue(colours: seq<Colour>): Colour {
    if |colours| == 0 then Zero() else Average(colours)
  }

  /** The two `random()` calls of `pixel_sample_square` and the draws of every bounce of one
      sample. */
  datatype SampleDraw = SampleDraw(jitterU: real, jitterV: real, bounce: nat -> Draws)

  // ---------------------------------------------------------------- camera set-up

  /** `(image_width as f32 / aspect_ratio) as u32`. Dividing by a zero ratio gives infinity,
      which saturates, or NaN for a zero width, which becomes 0. */
  function ImageHeight(aspectRatio: real, imageWidth: nat): nat {
    if aspectRatio == 0.0 then (if imageWidth == 0 then 0 else U32_MAX)
    else AsU32(Quotient(imageWidth as real, aspectRatio))
  }

  /** `viewport_height * viewport_ratio`: the viewport is 2 high and as wide as the image's
      proportions; `width` and `height` are the image's pixel counts. */
  function ViewportWidth(width: real, height: real): real
    requires height != 0.0
  {
    Mul(2.0, Quotient(width, height))
  }

  /** `viewport_u`: the horizontal viewport edge, `extent` long. */
  function ViewportU(extent: real): Vec3 {
    FromPoint(extent, 0.0, 0.0)
  }

  /** `viewport_v`. Pixel rows are numbered from the top, so the vertical viewport edge
      points down: it is the negation of (0, 2, 0), written with its components (see
      `ViewportVPointsDown`). */
  function ViewportV(): Vec3 {
    FromPoint(0.0, -2.0, 0.0)
  }

  /** `viewport_topleft`: the corner of the viewport spanned by `u` and `v`, one unit
      (the focal length) in front of `centre`. */
  function ViewportTopLeft(centre: Vec3, u: Vec3, v: Vec3): Vec3 {
    Sub(centre, Add(Add(FromPoint(0.0, 0.0, 1.0), Div(u, 2.0)), Div(v, 2.0)))
  }

  /** `init_pixel_loc`: the first pixel centre, half a step in from `corner` along both
      pixel steps. */
  function FirstPixelCentre(corner: Vec3, du: Vec3, dv: Vec3): Vec3 {
    Add(corner, ScaleBy(0.5, Add(du, dv)))
  }

  /** Pixel (i, j) of a grid that starts at `first` and steps by `du` and `dv`. */
  function GridPoint(first: Vec3, du: Vec3, dv: Vec3, i: real, j: real): Vec3 {
    Add(Add(first, ScaleBy(i, du)), ScaleBy(j, dv))
  }

  /** The offset of a sample from its pixel centre, for draws `u` and `v`. */
  function Jitter(du: Vec3, dv: Vec3, u: real, v: real): Vec3 {
    Add(ScaleBy(Mul(0.5, u), du), ScaleBy(Mul(0.5, v), dv))
  }

  class Camera {
    var aspectRatio: real
    var imageWidth: nat
    var samplesPerPixel: nat
    var maxDepth: nat
    var imageHeight: nat
    var cameraCenter: Vec3
    var initPixelLoc: Vec3
    var deltaU: Vec3
    var deltaV: Vec3

    /** The derived fields are those `initialize` computes from the public ones. */
    ghost predicate Valid()
      reads this
    {
      && imageWidth >= 1
      && imageHeight >= 1
      && imageHeight == ImageHeight(aspectRatio, imageWidth)
      && cameraCenter == Zero()
      && deltaU == Div(ViewportU(ViewportWidth(imageWidth as real, imageHeight as real)), imageWidth as real)
      && deltaV == Div(ViewportV(), imageHeight as real)
      && initPixelLoc == FirstPixelCentre(
           ViewportTopLeft(cameraCenter, ViewportU(ViewportWidth(imageWidth as real, imageHeight as real)), ViewportV()),
           deltaU, deltaV)
    }

    /** `Camera::new`, which zeroes the derived fields and then calls `initialize`. The image
        must be at least one row high: the source divides by the height without checking. */
    constructor (aspectRatio: real, imageWidth: nat, samplesPerPixel: nat, maxDepth: nat)
      requires ImageHeight(aspectRatio, imageWidth) >= 1
      ensures this.aspectRatio == aspectRatio && this.imageWidth == imageWidth
      ensures this.samplesPerPixel == samplesPerPixel && this.maxDepth == maxDepth
      ensures Valid()
    {
      this.aspectRatio := aspectRatio;
      this.imageWidth := imageWidth;
      this.samplesPerPixel := samplesPerPixel;
      this.maxDepth := maxDepth;
      imageHeight := 0;
      cameraCenter := Zero();
      initPixelLoc := Zero();
      deltaU := Zero();
      deltaV := Zero();
      new;
      Initialize();
    }

    /** `initialize`: derives the image height, the pixel steps and the first pixel centre. */
    method Initialize()
      requires ImageHeight(aspectRatio, imageWidth) >= 1
      modifies this
      ensures aspectRatio == old(aspectRatio) && imageWidth == old(imageWidth)
      ensures samplesPerPixel == old(samplesPerPixel) && maxDepth == old(maxDepth)
      ensures Valid()
    {
      HeightNeedsWidth(aspectRatio, imageWidth);
      cameraCenter := Zero();
      var focalLength := 1.0;
      imageHeight := ImageHeight(aspectRatio, imageWidth);
      var viewportRatio := Quotient(imageWidth as real, imageHeight as real);
      var viewportHeight := 2.0;
      var viewportWidth := Mul(viewportHeight, viewportRatio);
      var viewportU := FromPoint(viewportWidth, 0.0, 0.0);
      var viewportV := FromPoint(0.0, -viewportHeight, 0.0);
      deltaU := Div(viewportU, imageWidth as real);
      deltaV := Div(viewportV, imageHeight as real);
      var viewportTopLeft := Sub(cameraCenter, Add(Add(FromPoint(0.0, 0.0, focalLength), Div(viewportU, 2.0)),
                                                   Div(viewportV, 2.0)));
      initPixelLoc := Add(viewportTopLeft, ScaleBy(0.5, Add(deltaU, deltaV)));
    }

    /** `pixel_sample_square`: the jitter added to a pixel centre. */
    function PixelSampleSquare(jitterU: real, jitterV: real): Vec3
      reads this
    {
      Jitter(deltaU, deltaV, jitterU, jitterV)
    }

    /** The centre of pixel (i, j) before jitter. */
    function PixelCentre(i: nat, j: nat): Vec3
      reads this
    {
      GridPoint(initPixelLoc, deltaU, deltaV, i as real, j as real)
    }

    /** `get_ray`: from the camera centre through the jittered pixel centre. */
    function GetRay(i: nat, j: nat, jitterU: real, jitterV: real): Ray
      reads this
    {
      var pixelCenter := Add(PixelCentre(i, j), PixelSampleSquare(jitterU, jitterV));
      Construct(cameraCenter, Sub(pixelCenter, cameraCenter), 0.0)
    }

    /** The colour of one sample of pixel (i, j). */
    function SampleColour(k: Kernel, world: World<Material>, i: nat, j: nat, sd: SampleDraw): Colour
      requires SceneReady(k, world)
      reads this
    {
      RayColour(k, world, GetRay(i, j, sd.jitterU, sd.jitterV), maxDepth, sd.bounce)
    }

    /** The first `n` sample colours of pixel (i, j), in the order they are drawn. */
    function Samples(k: Kernel, world: World<Material>, i: nat, j: nat,
                     draw: (nat, nat, nat) -> SampleDraw, n: nat): (s: seq<Colour>)
      requires SceneReady(k, world)
      reads this
      ensures |s| == n
      ensures forall t {:trigger SampleColour(k, world, i, j, draw(i, j, t))} :: 0 <= t < n ==>
        s[t] == SampleColour(k, world, i, j, draw(i, j, t))
    {
      if n == 0 then []
      else Samples(k, world, i, j, draw, n - 1) + [SampleColour(k, world, i, j, draw(i, j, n - 1))]
    }

    /** The colour `render` prints for pixel (i, j): the sum of its samples, in the order
        they are drawn, divided by their number (black when there are none). */
    method PixelColour(k: Kernel, world: World<Material>, i: nat, j: nat, draw: (nat, nat, nat) -> SampleDraw)
      returns (pixel: Colour)
      requires SceneReady(k, world)
      ensures pixel == PixelValue(Samples(k, world, i, j, draw, samplesPerPixel))
    {
      var sum := Zero();
      for s := 0 to samplesPerPixel
        invariant sum == Sum(Samples(k, world, i, j, draw, s))
      {
        assert Samples(k, world, i, j, draw, s + 1)[..s] == Samples(k, world, i, j, draw, s);
        sum := Add(sum, SampleColour(k, world, i, j, draw(i, j, s)));
      }
      if samplesPerPixel == 0 {
        pixel := Zero();
      } else {
        pixel := Div(sum, samplesPerPixel as real);
      }
    }

    /** One row of `render`: the pixels of row `j`, from the left. */
    method RenderRow(k: Kernel, world: World<Material>, j: nat, draw: (nat, nat, nat) -> SampleDraw)
      returns (row: seq<Colour>)
      requires SceneReady(k, world)
      ensures |row| == imageWidth
      ensures forall i :: 0 <= i < imageWidth ==> row[i] == PixelValue(Samples(k, world, i, j, draw, samplesPerPixel))
    {
      row := [];
      for i := 0 to imageWidth
        invariant |row| == i
        invariant forall i' :: 0 <= i' < i ==> row[i'] == PixelValue(Samples(k, world, i', j, draw, samplesPerPixel))
      {
        var pixel := PixelColour(k, world, i, j, draw);
        row := row + [pixel];
      }
    }

    /** The image part of `render`: rows from the top, pixels from the left. */
    method Render(k: Kernel, world: World<Material>, draw: (nat, nat, nat) -> SampleDraw)
      returns (image: seq<seq<Colour>>)
      requires SceneReady(k, world)
      ensures |image| == imageHeight
      ensures forall j :: 0 <= j < imageHeight ==> |image[j]| == imageWidth
      ensures forall j, i :: 0 <= j < imageHeight && 0 <= i < imageWidth ==>
        image[j][i] == PixelValue(Samples(k, world, i, j, draw, samplesPerPixel))
    {
      image := [];
      for j := 0 to imageHeight
        invariant |image| == j
        invariant forall j' :: 0 <= j' < j ==> |image[j']| == imageWidth
        invariant forall j', i :: 0 <= j' < j && 0 <= i < imageWidth ==>
          image[j'][i] == PixelValue(Samples(k, world, i, j', draw, samplesPerPixel))
      {
        var row := RenderRow(k, world, j, draw);
        image := image + [row];
      }
    }
  }

  // ---------------------------------------------------------------- set-up geometry

  /** The vertical viewport edge is the viewport height negated. */
  lemma ViewportVPointsDown()
    ensures ViewportV() == Neg(FromPoint(0.0, 2.0, 0.0))
  {
  }

  /** A positive height needs a positive width. */
  lemma HeightNeedsWidth(aspectRatio: real, imageWidth: nat)
    requires ImageHeight(aspectRatio, imageWidth) >= 1
    ensures imageWidth >= 1
  {
  }

  /** Dividing the viewport's edges by the image's pixel counts gives square steps,
      `s = 2 / height` on a side, so the viewport spans `width` steps across and `height`
      steps down. */
  lemma PixelSteps(width: real, height: real, s: real, extent: real)
    requires 0.0 < width && 0.0 < height && s == Quotient(2.0, height)
    requires extent == ViewportWidth(width, height)
    ensures 0.0 < s
    ensures Div(ViewportU(extent), width) == Vec3(s, 0.0, 0.0)
    ensures Div(ViewportV(), height) == Vec3(0.0, -s, 0.0)
    ensures extent == Mul(width, s) && Mul(height, s) == 2.0
  {
    RatioOverNumerator(2.0, width, height);
    RatioSwap(2.0, width, height);
    QuotientTimesDivisor(2.0, height);
    MulCommutes(2.0 / height, height);
    QuotientOfNegation(2.0, height);
    QuotientOfNegation(0.0, width);
  }

  /** The viewport's top-left corner lies half the viewport `extent` to the left of the
      camera's axis, one unit up and one unit ahead. */
  lemma ViewportCorner(extent: real)
    ensures ViewportTopLeft(Zero(), ViewportU(extent), ViewportV()) == Vec3(-extent / 2.0, 1.0, -1.0)
  {
  }

  /** With steps `s` on a side, the first pixel centre of a camera at the origin lies half a
      step in from the top-left corner of the viewport. */
  lemma FirstPixel(first: Vec3, centre: Vec3, extent: real, du: Vec3, dv: Vec3, s: real)
    requires centre == Zero() && du == Vec3(s, 0.0, 0.0) && dv == Vec3(0.0, -s, 0.0)
    requires first == FirstPixelCentre(ViewportTopLeft(centre, ViewportU(extent), ViewportV()), du, dv)
    ensures first == Vec3(s / 2.0 - extent / 2.0, 1.0 - s / 2.0, -1.0)
  {
    ViewportCorner(extent);
  }

  /** The layout `initialize` gives a camera at the origin: square steps `s` on a side, to
      the right and down, over a viewport `extent` wide (`width` steps) and 2 high (`height`
      steps), with the first pixel centre half a step in from its top-left corner. */
  ghost predicate SquareGrid(cam: Camera, s: real, extent: real)
    reads cam
  {
    && 0.0 < s
    && extent == Mul(cam.imageWidth as real, s) && Mul(cam.imageHeight as real, s) == 2.0
    && cam.cameraCenter == Zero()
    && cam.deltaU == Vec3(s, 0.0, 0.0) && cam.deltaV == Vec3(0.0, -s, 0.0)
    && cam.initPixelLoc == Vec3(s / 2.0 - extent / 2.0, 1.0 - s / 2.0, -1.0)
  }

  /** The pixel steps `initialize` derives are square, `s = 2 / height` on a side, to the
      right and down, and the viewport spans `width` of them across and `height` down. */
  lemma CameraSteps(cam: Camera, s: real, extent: real)
    requires cam.Valid()
    requires s == Quotient(2.0, cam.imageHeight as real)
    requires extent == ViewportWidth(cam.imageWidth as real, cam.imageHeight as real)
    ensures 0.0 < s
    ensures cam.deltaU == Vec3(s, 0.0, 0.0) && cam.deltaV == Vec3(0.0, -s, 0.0)
    ensures extent == Mul(cam.imageWidth as real, s) && Mul(cam.imageHeight as real, s) == 2.0
  {
    PixelSteps(cam.imageWidth as real, cam.imageHeight as real, s, extent);
  }

  /** Every camera `initialize` has set up is laid out on a square grid of steps
      `s = 2 / height`, with the first pixel centre half a step in from the top-left
      corner of the viewport. */
  lemma CameraGrid(cam: Camera, s: real, extent: real)
    requires cam.Valid()
    requires s == Quotient(2.0, cam.imageHeight as real)
    requires extent == ViewportWidth(cam.imageWidth as real, cam.imageHeight as real)
    ensures SquareGrid(cam, s, extent)
  {
    CameraSteps(cam, s, extent);
    FirstPixel(cam.initPixelLoc, cam.cameraCenter, extent, cam.deltaU, cam.deltaV, s);
  }

  /** On a grid whose first point is half a step `s` in from the corner of a viewport
      `extent` wide and 2 high, point (i, j) is `i + 1/2` steps right of the left edge and
      `j + 1/2` steps below the top edge. */
  lemma GridOffsets(first: Vec3, du: Vec3, dv: Vec3, s: real, extent: real, i: real, j: real)
    requires first == Vec3(s / 2.0 - extent / 2.0, 1.0 - s / 2.0, -1.0)
    requires du == Vec3(s, 0.0, 0.0) && dv == Vec3(0.0, -s, 0.0)
    ensures GridPoint(first, du, dv, i, j) == Vec3(Mul(i + 0.5, s) - extent / 2.0, 1.0 - Mul(j + 0.5, s), -1.0)
  {
    MulByZero(0.0, i);
    MulByZero(0.0, j);
    MulNegates(j, s);
    MulCommutes(j, -s);
    MulCommutes(j, s);
    MulCommutes(i, s);
    MulDistributes(s, i, 0.5);
    MulDistributes(s, j, 0.5);
    MulCommutes(s, i + 0.5);
    MulCommutes(s, j + 0.5);
  }

  /** The centre of pixel (i, j) is `i + 1/2` steps right of the viewport's left edge and
      `j + 1/2` steps below its top edge, one unit ahead of the camera. */
  lemma PixelCentres(cam: Camera, s: real, extent: real, i: nat, j: nat)
    requires SquareGrid(cam, s, extent)
    ensures cam.PixelCentre(i, j) == Vec3(Mul(i as real + 0.5, s) - extent / 2.0, 1.0 - Mul(j as real + 0.5, s), -1.0)
  {
    GridOffsets(cam.initPixelLoc, cam.deltaU, cam.deltaV, s, extent, i as real, j as real);
  }

  /** Offsets of `i + 1/2` and `n - 1 - i + 1/2` steps add up to the whole `n` steps, and
      each lies strictly inside them. */
  lemma MirroredOffsets(n: real, i: real, s: real)
    requires 0.0 <= i <= n - 1.0 && 0.0 < s
    ensures Mul(i + 0.5, s) + Mul(n - 1.0 - i + 0.5, s) == Mul(n, s)
    ensures 0.0 < Mul(i + 0.5, s) < Mul(n, s)
  {
    MulDistributes(s, i + 0.5, n - 1.0 - i + 0.5);
    MulCommutes(s, i + 0.5);
    MulCommutes(s, n - 1.0 - i + 0.5);
    MulCommutes(s, n);
    MulStrictlyMonotone(0.0, i + 0.5, s);
    MulStrictlyMonotone(i + 0.5, n, s);
    MulByZero(0.0, s);
  }

  /** On a grid of `width` by `height` points laid out as `GridOffsets` describes, over a
      viewport `width` steps across and `height` steps (2 units) down, points mirrored
      across the middle column (row) have opposite horizontal (vertical) offsets, and every
      point lies strictly inside the viewport. */
  lemma GridCentred(first: Vec3, du: Vec3, dv: Vec3, s: real, extent: real,
                    width: real, height: real, i: real, j: real)
    requires first == Vec3(s / 2.0 - extent / 2.0, 1.0 - s / 2.0, -1.0)
    requires du == Vec3(s, 0.0, 0.0) && dv == Vec3(0.0, -s, 0.0) && 0.0 < s
    requires extent == Mul(width, s) && Mul(height, s) == 2.0
    requires 0.0 <= i <= width - 1.0 && 0.0 <= j <= height - 1.0
    ensures GridPoint(first, du, dv, i, j).x + GridPoint(first, du, dv, width - 1.0 - i, j).x == 0.0
    ensures GridPoint(first, du, dv, i, j).y + GridPoint(first, du, dv, i, height - 1.0 - j).y == 0.0
    ensures -extent / 2.0 < GridPoint(first, du, dv, i, j).x < extent / 2.0
    ensures -1.0 < GridPoint(first, du, dv, i, j).y < 1.0
  {
    GridOffsets(first, du, dv, s, extent, i, j);
    GridOffsets(first, du, dv, s, extent, width - 1.0 - i, j);
    GridOffsets(first, du, dv, s, extent, i, height - 1.0 - j);
    MirroredOffsets(width, i, s);
    MirroredOffsets(height, j, s);
  }

  /** The pixel grid is centred on the camera's axis and lies inside the viewport, which is
      `extent` wide and 2 high: pixel centres mirrored across the middle column (row) have
      opposite horizontal (vertical) offsets, and each lies strictly inside the viewport. */
  lemma ViewportCentred(cam: Camera, s: real, extent: real, i: nat, j: nat)
    requires SquareGrid(cam, s, extent) && i < cam.imageWidth && j < cam.imageHeight
    ensures cam.PixelCentre(i, j).x + cam.PixelCentre(cam.imageWidth - 1 - i, j).x == 0.0
    ensures cam.PixelCentre(i, j).y + cam.PixelCentre(i, cam.imageHeight - 1 - j).y == 0.0
    ensures -extent / 2.0 < cam.PixelCentre(i, j).x < extent / 2.0
    ensures -1.0 < cam.PixelCentre(i, j).y < 1.0
  {
    GridCentred(cam.initPixelLoc, cam.deltaU, cam.deltaV, s, extent,
                cam.imageWidth as real, cam.imageHeight as real, i as real, j as real);
  }

  /** Jitter of `u` and `v` along the steps of a square grid moves a point `u / 2` steps
      right and `v / 2` steps down, within the image plane. */
  lemma JitterOffsets(du: Vec3, dv: Vec3, s: real, u: real, v: real)
    requires du == Vec3(s, 0.0, 0.0) && dv == Vec3(0.0, -s, 0.0)
    ensures Jitter(du, dv, u, v) == Vec3(Mul(Mul(0.5, u), s), -Mul(Mul(0.5, v), s), 0.0)
  {
    MulByZero(0.0, Mul(0.5, u));
    MulByZero(0.0, Mul(0.5, v));
    MulNegates(Mul(0.5, v), s);
    MulCommutes(Mul(0.5, v), -s);
    MulCommutes(Mul(0.5, v), s);
    MulCommutes(Mul(0.5, u), s);
  }

  /** A draw in [0, 1) scaled by half a step stays below half a step. */
  lemma HalfStepBound(q: real, s: real)
    requires 0.0 <= q < 1.0 && 0.0 < s
    ensures 0.0 <= Mul(Mul(0.5, q), s) < s / 2.0
  {
    MulNonNegative(Mul(0.5, q), s);
    MulStrictlyMonotone(Mul(0.5, q), 0.5, s);
  }

  /** `random()` draws from [0, 1), and the jitter is half a draw of a step in each
      direction: a sample lies in the quarter of its pixel between the centre and the
      bottom-right corner, never on the far side of the centre, and stays in the image
      plane. */
  lemma JitterWithinQuarterPixel(cam: Camera, s: real, extent: real, u: real, v: real)
    requires SquareGrid(cam, s, extent) && 0.0 <= u < 1.0 && 0.0 <= v < 1.0
    ensures 0.0 <= cam.PixelSampleSquare(u, v).x < s / 2.0
    ensures -s / 2.0 < cam.PixelSampleSquare(u, v).y <= 0.0
    ensures cam.PixelSampleSquare(u, v).z == 0.0
  {
    JitterOffsets(cam.deltaU, cam.deltaV, s, u, v);
    HalfStepBound(u, s);
    HalfStepBound(v, s);
  }

  /** Every primary ray starts at the camera, at time zero, and goes through its jittered
      pixel centre on the plane one unit ahead, so its direction is never zero. */
  lemma PrimaryRays(cam: Camera, s: real, extent: real, i: nat, j: nat, jitterU: real, jitterV: real)
    requires SquareGrid(cam, s, extent)
    ensures cam.GetRay(i, j, jitterU, jitterV).origin == Zero()
    ensures cam.GetRay(i, j, jitterU, jitterV).time == 0.0
    ensures cam.GetRay(i, j, jitterU, jitterV).direction == Add(cam.PixelCentre(i, j), cam.PixelSampleSquare(jitterU, jitterV))
    ensures cam.GetRay(i, j, jitterU, jitterV).direction.z == -1.0
    ensures cam.GetRay(i, j, jitterU, jitterV).direction != Zero()
  {
    PixelCentres(cam, s, extent, i, j);
    JitterOffsets(cam.deltaU, cam.deltaV, s, jitterU, jitterV);
  }

  // ---------------------------------------------------------------- pixel averages

  /** A sum of `n` copies of one colour is that colour scaled by `n`. */
  lemma {:induction false} SumOfIdentical(colours: seq<Colour>, c: Colour)
    requires forall i :: 0 <= i < |colours| ==> colours[i] == c
    ensures Sum(colours) == Scale(c, |colours| as real)
  {
    var n := |colours|;
    if n == 0 {
      MulByZero(0.0, c.x);
      MulByZero(0.0, c.y);
      MulByZero(0.0, c.z);
    } else {
      SumOfIdentical(colours[..n - 1], c);
      MulDistributes(c.x, (n - 1) as real, 1.0);
      MulDistributes(c.y, (n - 1) as real, 1.0);
      MulDistributes(c.z, (n - 1) as real, 1.0);
      MulByOne(c.x);
      MulByOne(c.y);
      MulByOne(c.z);
    }
  }

  /** A pixel whose samples all agree gets exactly that colour. */
  lemma AverageOfIdentical(colours: seq<Colour>, c: Colour)
    requires |colours| >= 1
    requires forall i :: 0 <= i < |colours| ==> colours[i] == c
    ensures Average(colours) == c
  {
    SumOfIdentical(colours, c);
    ProductOverDivisor(c.x, |colours| as real);
    ProductOverDivisor(c.y, |colours| as real);
    ProductOverDivisor(c.z, |colours| as real);
  }

  /** Each channel of a sum of unit-cube colours lies between zero and their number. */
  lemma {:induction false} SumBounded(colours: seq<Colour>)
    requires forall i :: 0 <= i < |colours| ==> InUnitCube(colours[i])
    ensures 0.0 <= Sum(colours).x <= |colours| as real
    ensures 0.0 <= Sum(colours).y <= |colours| as real
    ensures 0.0 <= Sum(colours).z <= |colours| as real
  {
    if |colours| > 0 {
      var n := |colours|;
      assert forall i :: 0 <= i < n - 1 ==> colours[..n - 1][i] == colours[i];
      SumBounded(colours[..n - 1]);
    }
  }

  /** The average of unit-cube colours is in the unit cube. */
  lemma AverageInUnitCube(colours: seq<Colour>)
    requires |colours| >= 1
    requires forall i :: 0 <= i < |colours| ==> InUnitCube(colours[i])
    ensures InUnitCube(Average(colours))
  {
    var n := |colours| as real;
    SumBounded(colours);
    DivMonotone(0.0, Sum(colours).x, n);
    DivMonotone(0.0, Sum(colours).y, n);
    DivMonotone(0.0, Sum(colours).z, n);
    QuotientInUnit(Sum(colours).x, n);
    QuotientInUnit(Sum(colours).y, n);
    QuotientInUnit(Sum(colours).z, n);
  }

  /** Sample s of a pixel is traced with the draws numbered s. */
  // ---------------------------------------------------------------- colour bounds

  /** Between white and light blue, blue stays at one while red and green fall linearly. */
  lemma SkyBlendBounds(a: real)
    requires 0.0 <= a <= 1.0
    ensures SkyBlend(a).z == 1.0 && 0.5 <= SkyBlend(a).x <= 1.0 && 0.7 <= SkyBlend(a).y <= 1.0
  {
    MulByOne(1.0 - a);
  }

  /** The sky blend of factor `a` is `(1 - a/2, 1 - 3a/10, 1)`. */
  lemma SkyBlendChannels(a: real)
    ensures SkyBlend(a) == Vec3(1.0 - Mul(0.5, a), 1.0 - Mul(0.3, a), 1.0)
  {
  }

  /** The blend factor of the sky rises from 0 straight down to 1 straight up. */
  lemma SkyFactor(k: Kernel, direction: Vec3)
    requires k.Valid() && direction != Zero()
    ensures Length(k, direction) != 0.0
    ensures 0.0 <= Mul(0.5, Unit(k, direction).y + 1.0) <= 1.0
  {
    UnitComponentsBounded(k, direction);
  }

  /** The sky is a blend of white and light blue: its blue channel is exactly one, its red
      at least a half and its green at least 0.7. */
  lemma SkyColourBounds(k: Kernel, direction: Vec3)
    requires k.Valid()
    ensures InUnitCube(SkyColour(k, direction))
    ensures direction != Zero() ==>
      && SkyColour(k, direction).z == 1.0
      && 0.5 <= SkyColour(k, direction).x
      && 0.7 <= SkyColour(k, direction).y
  {
    if direction == Zero() {
      ZeroHasNoLength(k);
    } else {
      SkyFactor(k, direction);
      SkyBlendBounds(Mul(0.5, Unit(k, direction).y + 1.0));
    }
  }

  /** A material's attenuation never brightens. */
  lemma ScatterAttenuates(k: Kernel, m: Material, rIn: Ray, rec: HitRecord<Material>, d: Draws)
    requires ValidMaterial(m) && Attenuating(m) && Length(k, rIn.direction) != 0.0
    ensures Scatter(k, m, rIn, rec, d).Some? ==> InUnitCube(Scatter(k, m, rIn, rec, d).value.attenuation)
  {
    match m
    case Lambertian(albedo) => LambertianScatters(k, albedo, rec, d);
    case Metal(albedo, fuzz) => MetalScatters(k, albedo, fuzz, rIn, rec, d);
    case Dielectric(eta) => DielectricScatters(k, eta, rIn, rec, d);
  }

  lemma HadamardInUnitCube(v: Colour, w: Colour)
    requires InUnitCube(v) && InUnitCube(w)
    ensures InUnitCube(Hadamard(v, w))
  {
    MulBounded(v.x, w.x);
    MulBounded(v.y, w.y);
    MulBounded(v.z, w.z);
  }

  /** With materials that never brighten, every traced colour lies in the unit cube. */
  lemma {:induction false} RayColourInUnitCube(k: Kernel, world: World<Material>, r: Ray, depth: nat, draws: nat -> Draws)
    requires SceneReady(k, world) && AllAttenuating(world)
    ensures InUnitCube(RayColour(k, world, r, depth, draws))
    decreases depth
  {
    if depth > 0 {
      var range := Range(HitStart, Unbounded);
      NearestComesFromScene(k, world, r, range);
      match Nearest(k, world, r, range)
      case None => SkyColourBounds(k, r.direction);
      case Some(rec) =>
        LengthSpec(k, r.direction);
        ScatterAttenuates(k, rec.material, r, rec, draws(depth));
        match Scatter(k, rec.material, r, rec, draws(depth))
        case None =>
        case Some(x) =>
          RayColourInUnitCube(k, world, x.scattered, depth - 1, draws);
          HadamardInUnitCube(x.attenuation, RayColour(k, world, x.scattered, depth - 1, draws));
    }
  }

  /** A path with `depth` bounces left uses only the draws numbered 1 to `depth`. */
  lemma {:induction false} RayColourUsesBudgetDraws(k: Kernel, world: World<Material>, r: Ray, depth: nat,
                                                    draws: nat -> Draws, draws': nat -> Draws)
    requires SceneReady(k, world)
    requires forall n :: 1 <= n <= depth ==> draws(n) == draws'(n)
    ensures RayColour(k, world, r, depth, draws) == RayColour(k, world, r, depth, draws')
    decreases depth
  {
    if depth > 0 {
      var range := Range(HitStart, Unbounded);
      match Nearest(k, world, r, range)
      case None =>
      case Some(rec) =>
        NearestComesFromScene(k, world, r, range);
        LengthSpec(k, r.direction);
        match Scatter(k, rec.material, r, rec, draws(depth))
        case None =>
        case Some(x) =>
          RayColourUsesBudgetDraws(k, world, x.scattered, depth - 1, draws, draws');
    }
  }

  /** The colour of a path and its number of world queries depend only on the draws of the
      bounces that query the world: with `depth` bounces left and `n` queries made, the draws
      of bounces `depth - n + 1` to `depth`. */
  lemma {:induction false} RayColourUsesQueriedDraws(k: Kernel, world: World<Material>, r: Ray, depth: nat,
                                                     draws: nat -> Draws, draws': nat -> Draws)
    requires SceneReady(k, world)
    requires forall n :: depth - WorldQueries(k, world, r, depth, draws) < n <= depth ==> draws(n) == draws'(n)
    ensures RayColour(k, world, r, depth, draws) == RayColour(k, world, r, depth, draws')
    ensures WorldQueries(k, world, r, depth, draws) == WorldQueries(k, world, r, depth, draws')
    decreases depth
  {
    if depth > 0 {
      var range := Range(HitStart, Unbounded);
      match Nearest(k, world, r, range)
      case None =>
      case Some(rec) =>
        NearestComesFromScene(k, world, r, range);
        LengthSpec(k, r.direction);
        assert draws(depth) == draws'(depth);
        match Scatter(k, rec.material, r, rec, draws(depth))
        case None =>
        case Some(x) =>
          RayColourUsesQueriedDraws(k, world, x.scattered, depth - 1, draws, draws');
    }
  }

  /** One step of `ray_colour` with budget left, in terms of its bounce: a miss shows the sky,
      an absorption is black, and a scatter is its attenuation times the colour of the
      scattered ray with one bounce fewer. */
  lemma RayColourSteps(k: Kernel, world: World<Material>, r: Ray, depth: nat, draws: nat -> Draws)
    requires SceneReady(k, world) && depth >= 1
    ensures Nearest(k, world, r, Range(HitStart, Unbounded)).None? ==>
      Bounce(k, world, r, depth, draws).None? && RayColour(k, world, r, depth, draws) == SkyColour(k, r.direction)
    ensures Nearest(k, world, r, Range(HitStart, Unbounded)).Some? && Bounce(k, world, r, depth, draws).None? ==>
      RayColour(k, world, r, depth, draws) == Zero()
    ensures match Bounce(k, world, r, depth, draws)
      case None => true
      case Some(x) => RayColour(k, world, r, depth, draws) == Hadamard(x.attenuation, RayColour(k, world, x.scattered, depth - 1, draws))
  {
  }

  /** `ray_colour` queries the world once for every call on its path that has budget left:
      calls 0 to `n - 1` all take place, and call `n`, if the path reaches it, has no budget
      left, so that the count stops where the ray escapes, is absorbed or the budget runs out. */
  lemma {:induction false} WorldQueriesCountPath(k: Kernel, world: World<Material>, r: Ray, depth: nat,
                                                 draws: nat -> Draws)
    requires SceneReady(k, world)
    ensures forall m :: 0 <= m < WorldQueries(k, world, r, depth, draws) ==> PathRay(k, world, r, depth, draws, m).Some?
    ensures PathRay(k, world, r, depth, draws, WorldQueries(k, world, r, depth, draws)).Some? ==>
      WorldQueries(k, world, r, depth, draws) == depth
    decreases depth
  {
    if depth > 0 {
      match Bounce(k, world, r, depth, draws)
      case None =>
      case Some(x) =>
        var q := x.scattered;
        WorldQueriesCountPath(k, world, q, depth - 1, draws);
        forall m | 0 <= m < WorldQueries(k, world, r, depth, draws)
          ensures PathRay(k, world, r, depth, draws, m).Some?
        {
          if m > 0 {
            assert PathRay(k, world, r, depth, draws, m) == PathRay(k, world, q, depth - 1, draws, m - 1);
          }
        }
    }
  }

  /** With no bounces left a path is black, whatever the scene. */
  lemma NoBudgetIsBlack(k: Kernel, world: World<Material>, r: Ray, draws: nat -> Draws)
    requires SceneReady(k, world)
    ensures RayColour(k, world, r, 0, draws) == Zero()
  {
  }

  /** An empty scene shows the sky along every ray with budget left. */
  lemma EmptySceneShowsSky(k: Kernel, world: World<Material>, r: Ray, depth: nat, draws: nat -> Draws)
    requires SceneReady(k, world) && world == [] && depth >= 1
    ensures RayColour(k, world, r, depth, draws) == SkyColour(k, r.direction)
  {
    EmptyWorldMisses(k, world, r, Range(HitStart, Unbounded));
  }

  /** With materials that never brighten, every rendered pixel lies in the unit cube. */
  lemma PixelInUnitCube(cam: Camera, k: Kernel, world: World<Material>, i: nat, j: nat,
                        draw: (nat, nat, nat) -> SampleDraw)
    requires SceneReady(k, world) && AllAttenuating(world)
    ensures InUnitCube(PixelValue(cam.Samples(k, world, i, j, draw, cam.samplesPerPixel)))
  {
    var samples := cam.Samples(k, world, i, j, draw, cam.samplesPerPixel);
    forall s | 0 <= s < |samples|
      ensures InUnitCube(samples[s])
    {
      var sd := draw(i, j, s);
      assert samples[s] == cam.SampleColour(k, world, i, j, sd);
      RayColourInUnitCube(k, world, cam.GetRay(i, j, sd.jitterU, sd.jitterV), cam.maxDepth, sd.bounce);
    }
    if |samples| > 0 {
      AverageInUnitCube(samples);
    }
  }

  /** A ray that escapes to the sky has a blue channel of exactly one, which the image
      writes as 256, above the declared maximum of 255. */
  lemma SkyOverflowsDisplay(k: Kernel, direction: Vec3)
    requires k.Valid() && direction != Zero()
    ensures Display(SkyColour(k, direction)).2 == 256
    ensures DisplayClamped(SkyColour(k, direction)).2 == 255
  {
    SkyColourBounds(k, direction);
  }
}
