// The scene and its nearest-hit scan (`World::hit` in src/hittable.rs).

module Worlds {
  import opened Vectors
  import opened Rays
  import opened Hittables
  import opened Spheres

  /** The scene: spheres are its only kind of object. */
  type World<M> = seq<Sphere<M>>

  /** Every sphere has a non-zero radius, so that each probe is defined. */
  predicate WellFormed<M>(world: World<M>) {
    forall i :: 0 <= i < |world| ==> world[i].radius != 0.0
  }

  /** The loop state of `World::hit`: the end of the range still open, and the last
      record accepted. */
  datatype ScanState<M> = ScanState(closest: Bound, hit: Option<HitRecord<M>>)

  /** The loop state after the first `n` objects: each one is probed over
      `start..closest_yet`, and a hit narrows `closest_yet` and replaces the record. */
  function Scan<M>(k: Kernel, world: World<M>, r: Ray, range: Range, n: nat): ScanState<M>
    requires WellFormed(world) && n <= |world|
  {
    if n == 0 then ScanState(range.end, None)
    else
      var st := Scan(k, world, r, range, n - 1);
      match Intersection(k, world[n - 1], r, Range(range.start, st.closest))
      case None => st
      case Some(rec) => ScanState(st.closest.Min(rec.t), Some(rec))
  }

  /** The result of `World::hit`. */
  function Nearest<M>(k: Kernel, world: World<M>, r: Ray, range: Range): Option<HitRecord<M>>
    requires WellFormed(world)
  {
    Scan(k, world, r, range, |world|).hit
  }

  /** `World::hit` */
  method Hit<M>(k: Kernel, world: World<M>, r: Ray, range: Range) returns (hit: Option<HitRecord<M>>)
    requires WellFormed(world)
    ensures hit == Nearest(k, world, r, range)
  {
    var closestYet := range.end;
    hit := None;
    for i := 0 to |world|
      invariant ScanState(closestYet, hit) == Scan(k, world, r, range, i)
    {
      var probe := Spheres.Hit(k, world[i], r, Range(range.start, closestYet));
      if probe.Some? {
        closestYet := closestYet.Min(probe.value.t);
        hit := Some(probe.value);
      }
    }
  }

  // ---------------------------------------------------------------- properties of the scan

  /** What object `j` reports when probed alone over the whole range. */
  function Probe<M>(k: Kernel, world: World<M>, r: Ray, range: Range, j: nat): Option<HitRecord<M>>
    requires WellFormed(world) && j < |world|
  {
    Intersection(k, world[j], r, range)
  }

  /** Object `i` wins among the first `n`: its own hit is `rec`, every earlier object misses
      or hits strictly further away, and every later one misses or hits no nearer. */
  ghost predicate Winner<M>(k: Kernel, world: World<M>, r: Ray, range: Range, n: nat, i: nat, rec: HitRecord<M>)
    requires WellFormed(world) && i < n <= |world|
  {
    && Probe(k, world, r, range, i) == Some(rec)
    && (forall j :: 0 <= j < i ==>
          Probe(k, world, r, range, j).None? || rec.t < Probe(k, world, r, range, j).value.t)
    && (forall j :: i < j < n ==>
          Probe(k, world, r, range, j).None? || rec.t <= Probe(k, world, r, range, j).value.t)
  }

  lemma EmptyWorldMisses<M>(k: Kernel, world: World<M>, r: Ray, range: Range)
    requires world == []
    ensures Nearest(k, world, r, range) == None
  {
  }

  /** `closest_yet` is the end of the range until something is hit, and afterwards the `t`
      of the record held; it never grows. */
  lemma {:induction false} ScanClosest<M>(k: Kernel, world: World<M>, r: Ray, range: Range, n: nat)
    requires k.Valid() && WellFormed(world) && n <= |world|
    ensures Scan(k, world, r, range, n).closest ==
      match Scan(k, world, r, range, n).hit
      case None => range.end
      case Some(rec) => Finite(rec.t)
    ensures Scan(k, world, r, range, n).closest.AtMost(range.end)
    ensures 0 < n ==> Scan(k, world, r, range, n).closest.AtMost(Scan(k, world, r, range, n - 1).closest)
  {
    if n > 0 {
      ScanClosest(k, world, r, range, n - 1);
      var st := Scan(k, world, r, range, n - 1);
      HitRecordContents(k, world[n - 1], r, Range(range.start, st.closest));
      MinNarrows(st.closest, 0.0);
      if Intersection(k, world[n - 1], r, Range(range.start, st.closest)).Some? {
        MinNarrows(st.closest, Intersection(k, world[n - 1], r, Range(range.start, st.closest)).value.t);
      }
    }
  }

  /** The record kept when the held one meets a new probe result: the new hit if nothing is
      held or it is strictly nearer, and otherwise the held one. */
  function Keep<M>(held: Option<HitRecord<M>>, probe: Option<HitRecord<M>>): Option<HitRecord<M>> {
    match probe
    case None => held
    case Some(rec) => if held.None? || rec.t < held.value.t then probe else held
  }

  /** One more object: the narrowed probe of the loop acts as `Keep` on the object's own hit. */
  lemma ScanStep<M>(k: Kernel, world: World<M>, r: Ray, range: Range, n: nat)
    requires k.Valid() && WellFormed(world) && 0 < n <= |world|
    ensures Scan(k, world, r, range, n).hit
         == Keep(Scan(k, world, r, range, n - 1).hit, Probe(k, world, r, range, n - 1))
  {
    ScanClosest(k, world, r, range, n - 1);
    var st := Scan(k, world, r, range, n - 1);
    NarrowedIntersection(k, world[n - 1], r, range.start, range.end, st.closest);
    HitRecordContents(k, world[n - 1], r, range);
  }

  /** The winner's hit is no further than any hit among the objects it was compared with. */
  lemma WinnerIsMinimal<M>(k: Kernel, world: World<M>, r: Ray, range: Range, n: nat, i: nat, rec: HitRecord<M>)
    requires WellFormed(world) && i < n <= |world| && Winner(k, world, r, range, n, i, rec)
    ensures forall j :: 0 <= j < n ==>
      Probe(k, world, r, range, j).None? || rec.t <= Probe(k, world, r, range, j).value.t
  {
  }

  /** A hit nearer than all before it makes the newest object the winner. */
  lemma NewWinner<M>(k: Kernel, world: World<M>, r: Ray, range: Range, n: nat, rec: HitRecord<M>)
    requires WellFormed(world) && 0 < n <= |world|
    requires Probe(k, world, r, range, n - 1) == Some(rec)
    requires forall j :: 0 <= j < n - 1 ==>
      Probe(k, world, r, range, j).None? || rec.t < Probe(k, world, r, range, j).value.t
    ensures Winner(k, world, r, range, n, n - 1, rec)
  {
  }

  /** A newest object that misses, or hits no nearer, leaves the winner in place. */
  lemma WinnerStays<M>(k: Kernel, world: World<M>, r: Ray, range: Range, n: nat, i: nat, rec: HitRecord<M>)
    requires WellFormed(world) && i < n - 1 && n <= |world|
    requires Winner(k, world, r, range, n - 1, i, rec)
    requires Probe(k, world, r, range, n - 1).None? || rec.t <= Probe(k, world, r, range, n - 1).value.t
    ensures Winner(k, world, r, range, n, i, rec)
  {
  }

  /** After `n` objects the scan holds nothing exactly when each of them misses on its own,
      and otherwise holds the record of the first object with the nearest hit. */
  lemma {:induction false} ScanFindsFirstNearest<M>(k: Kernel, world: World<M>, r: Ray, range: Range, n: nat)
    requires k.Valid() && WellFormed(world) && n <= |world|
    ensures Scan(k, world, r, range, n).hit.None? <==>
      forall j :: 0 <= j < n ==> Probe(k, world, r, range, j).None?
    ensures Scan(k, world, r, range, n).hit.Some? ==>
      exists i :: 0 <= i < n && Winner(k, world, r, range, n, i, Scan(k, world, r, range, n).hit.value)
  {
    if n > 0 {
      ScanFindsFirstNearest(k, world, r, range, n - 1);
      ScanStep(k, world, r, range, n);
      var held := Scan(k, world, r, range, n - 1).hit;
      var probe := Probe(k, world, r, range, n - 1);
      if held.Some? {
        var i :| 0 <= i < n - 1 && Winner(k, world, r, range, n - 1, i, held.value);
        WinnerIsMinimal(k, world, r, range, n - 1, i, held.value);
        if probe.Some? && probe.value.t < held.value.t {
          NewWinner(k, world, r, range, n, probe.value);
        } else {
          WinnerStays(k, world, r, range, n, i, held.value);
        }
      } else if probe.Some? {
        NewWinner(k, world, r, range, n, probe.value);
      }
    }
  }

  /** `World::hit` misses exactly when every object misses on its own over the whole range;
      otherwise it returns the hit of the first object whose hit is nearest. */
  lemma NearestIsFirstMinimum<M>(k: Kernel, world: World<M>, r: Ray, range: Range)
    requires k.Valid() && WellFormed(world)
    ensures Nearest(k, world, r, range).None? <==>
      forall j :: 0 <= j < |world| ==> Probe(k, world, r, range, j).None?
    ensures Nearest(k, world, r, range).Some? ==>
      exists i :: 0 <= i < |world| && Winner(k, world, r, range, |world|, i, Nearest(k, world, r, range).value)
  {
    ScanFindsFirstNearest(k, world, r, range, |world|);
  }

  /** Together with the exactness of the sphere probe: `World::hit` misses exactly when no
      sphere has a surface point along the ray within the range, and otherwise returns a
      surface point that is the nearest over the whole scene. */
  lemma NearestPointOfScene<M>(k: Kernel, world: World<M>, r: Ray, range: Range)
    requires k.Valid() && WellFormed(world) && r.direction != Zero()
    ensures Nearest(k, world, r, range).None? <==>
      forall j, t :: 0 <= j < |world| && range.Contains(t) ==> !OnSphere(world[j], r, t)
    ensures Nearest(k, world, r, range).Some? ==>
      && range.Contains(Nearest(k, world, r, range).value.t)
      && (exists j :: 0 <= j < |world| && OnSphere(world[j], r, Nearest(k, world, r, range).value.t))
      && forall j, t :: 0 <= j < |world| && range.Contains(t) && OnSphere(world[j], r, t) ==>
           Nearest(k, world, r, range).value.t <= t
  {
    NearestIsFirstMinimum(k, world, r, range);
    forall j | 0 <= j < |world|
      ensures Probe(k, world, r, range, j).None? <==>
        forall t :: range.Contains(t) ==> !OnSphere(world[j], r, t)
      ensures Probe(k, world, r, range, j).Some? ==>
        && range.Contains(Probe(k, world, r, range, j).value.t)
        && OnSphere(world[j], r, Probe(k, world, r, range, j).value.t)
        && forall t :: range.Contains(t) && OnSphere(world[j], r, t) ==>
             Probe(k, world, r, range, j).value.t <= t
    {
      IntersectionIsNearest(k, world[j], r, range);
      HitRecordContents(k, world[j], r, range);
    }
    if Nearest(k, world, r, range).Some? {
      var i :| 0 <= i < |world| && Winner(k, world, r, range, |world|, i, Nearest(k, world, r, range).value);
      WinnerIsMinimal(k, world, r, range, |world|, i, Nearest(k, world, r, range).value);
    }
  }

  /** A hit of the scene is the hit of one of its spheres: the ray has a direction (of
      positive squared length), and the record carries that sphere's material. */
  lemma NearestComesFromScene<M>(k: Kernel, world: World<M>, r: Ray, range: Range)
    requires k.Valid() && WellFormed(world)
    ensures Nearest(k, world, r, range).Some? ==>
      && 0.0 < LengthSq(r.direction)
      && exists i :: 0 <= i < |world| && Nearest(k, world, r, range).value.material == world[i].material
  {
    NearestIsFirstMinimum(k, world, r, range);
    if Nearest(k, world, r, range).Some? {
      var i :| 0 <= i < |world| && Winner(k, world, r, range, |world|, i, Nearest(k, world, r, range).value);
      HitRecordContents(k, world[i], r, range);
      LeadingCoefficient(world[i], r);
    }
  }
}
