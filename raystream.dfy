/**
 * The bounded ray batches the light tool fills before handing them to the
 * ray tracer (include/light/trace_embree.hh): parallel per-ray arrays sized
 * by resize, a push counter, and the getters and hit classification read
 * back after tracing. The tracing call itself is external.
 */
module RayStream {
  import opened Common

  datatype Vec = Vec(x: real, y: real, z: real)

  const ZERO: Vec := Vec(0.0, 0.0, 0.0)

  /** RTC_INVALID_GEOMETRY_ID: the all-ones unsigned value. */
  const INVALID_GEOMETRY_ID: nat := 0xffff_ffff

  /** One ray record: the ray half and the hit half of an RTCRayHit (an
      occlusion stream uses only the ray half). */
  datatype RayHit = RayHit(org: Vec, dir: Vec, tnear: real, tfar: real, mask: int, id: nat, flags: int,
                           geomID: nat, primID: nat, instID: nat)

  const EMPTY_RAY: RayHit := RayHit(ZERO, ZERO, 0.0, 0.0, 0, 0, 0, 0, 0, 0)

  /** SetupRay: a ray from start along dir up to dist, with no hit recorded. */
  function SetupRay(rayindex: nat, start: Vec, dir: Vec, dist: real): (r: RayHit)
    ensures r.org == start && r.dir == dir && r.tnear == 0.0 && r.tfar == dist && r.id == rayindex
    ensures r.geomID == INVALID_GEOMETRY_ID && r.primID == INVALID_GEOMETRY_ID && r.instID == INVALID_GEOMETRY_ID
  {
    RayHit(start, dir, 0.0, dist, 1, rayindex, 0, INVALID_GEOMETRY_ID, INVALID_GEOMETRY_ID, INVALID_GEOMETRY_ID)
  }

  datatype HitType = HitNone | HitSky | HitSolid

  /** getPushedRayHitType's classification of a hit geometry id. */
  function HitTypeOf(geomID: nat, skyGeomID: nat): (h: HitType)
    ensures h == HitNone <==> geomID == INVALID_GEOMETRY_ID
    ensures h == HitSky <==> geomID != INVALID_GEOMETRY_ID && geomID == skyGeomID
  {
    if geomID == INVALID_GEOMETRY_ID then HitNone
    else if geomID == skyGeomID then HitSky
    else HitSolid
  }

  /** A freshly set up ray has hit nothing. */
  lemma SetupRayHitsNothing(rayindex: nat, start: Vec, dir: Vec, dist: real, skyGeomID: nat)
    ensures HitTypeOf(SetupRay(rayindex, start, dir, dist).geomID, skyGeomID) == HitNone
  {
  }

  /** std::vector::resize: keep the first n elements, pad with the default value. */
  function Resized<T>(s: seq<T>, n: nat, d: T): (r: seq<T>)
    ensures |r| == n
    ensures forall i :: 0 <= i < n ==> r[i] == if i < |s| then s[i] else d
  {
    if n <= |s| then s[..n] else s + seq(n - |s|, _ => d)
  }

  /** Resizing to the current length changes nothing, and resizing twice to
      the same length is resizing once. */
  lemma ResizedIdempotent<T>(s: seq<T>, n: nat, d: T)
    ensures Resized(s, |s|, d) == s
    ensures Resized(Resized(s, n, d), n, d) == Resized(s, n, d)
  {
  }

  /** The combined color of a ray whose path crossed glass: the ray color
      tinted by the glass color, blended in by the glass opacity (glm mix). */
  function Tint(c: Vec, glass: Vec, opacity: real): Vec
  {
    var t := Vec(c.x * glass.x, c.y * glass.y, c.z * glass.z);
    Vec(c.x * (1.0 - opacity) + t.x * opacity, c.y * (1.0 - opacity) + t.y * opacity,
        c.z * (1.0 - opacity) + t.z * opacity)
  }

  /** A fully transparent pane leaves the color as it is. */
  lemma TintTransparent(c: Vec, glass: Vec)
    ensures Tint(c, glass, 0.0) == c
  {
  }

  /** raystream_embree_common_t together with the ray array of the
      intersection and occlusion subclasses. */
  class RayStream {
    var raysMaxdist: seq<real>
    var pointIndices: seq<int>
    var rayColors: seq<Vec>
    var rayNormalContribs: seq<Vec>
    var rayHitGlass: seq<bool>
    var rayGlassColor: seq<Vec>
    var rayGlassOpacity: seq<real>
    var rayDynamicStyles: seq<int>
    var rays: seq<RayHit>
    var numrays: int
    var maxrays: int

    /** Every parallel array has maxrays entries. numrays may exceed maxrays
        after a shrinking resize; pushRay then refuses. */
    ghost predicate Valid()
      reads this
    {
      maxrays >= 0 && numrays >= 0 &&
      |raysMaxdist| == maxrays && |pointIndices| == maxrays && |rayColors| == maxrays &&
      |rayNormalContribs| == maxrays && |rayHitGlass| == maxrays && |rayGlassColor| == maxrays &&
      |rayGlassOpacity| == maxrays && |rayDynamicStyles| == maxrays && |rays| == maxrays
    }

    /** The default constructor, or the one taking maxRays, which resizes. */
    constructor (maxRays: nat)
      ensures Valid() && numrays == 0 && maxrays == maxRays
      ensures rayHitGlass == seq(maxRays, _ => false) && rayDynamicStyles == seq(maxRays, _ => 0)
    {
      raysMaxdist := seq(maxRays, _ => 0.0);
      pointIndices := seq(maxRays, _ => 0);
      rayColors := seq(maxRays, _ => ZERO);
      rayNormalContribs := seq(maxRays, _ => ZERO);
      rayHitGlass := seq(maxRays, _ => false);
      rayGlassColor := seq(maxRays, _ => ZERO);
      rayGlassOpacity := seq(maxRays, _ => 0.0);
      rayDynamicStyles := seq(maxRays, _ => 0);
      rays := seq(maxRays, _ => EMPTY_RAY);
      numrays := 0;
      maxrays := maxRays;
    }

    /** resize: every array takes the new size, keeping its prefix; the push
        counter is not touched. */
    method Resize(size: nat)
      requires Valid()
      modifies this
      ensures Valid() && maxrays == size && numrays == old(numrays)
      ensures raysMaxdist == Resized(old(raysMaxdist), size, 0.0)
      ensures pointIndices == Resized(old(pointIndices), size, 0)
      ensures rayColors == Resized(old(rayColors), size, ZERO)
      ensures rayNormalContribs == Resized(old(rayNormalContribs), size, ZERO)
      ensures rayHitGlass == Resized(old(rayHitGlass), size, false)
      ensures rayGlassColor == Resized(old(rayGlassColor), size, ZERO)
      ensures rayGlassOpacity == Resized(old(rayGlassOpacity), size, 0.0)
      ensures rayDynamicStyles == Resized(old(rayDynamicStyles), size, 0)
      ensures rays == Resized(old(rays), size, EMPTY_RAY)
    {
      rays := Resized(rays, size, EMPTY_RAY);
      maxrays := size;
      raysMaxdist := Resized(raysMaxdist, size, 0.0);
      pointIndices := Resized(pointIndices, size, 0);
      rayColors := Resized(rayColors, size, ZERO);
      rayNormalContribs := Resized(rayNormalContribs, size, ZERO);
      rayHitGlass := Resized(rayHitGlass, size, false);
      rayGlassColor := Resized(rayGlassColor, size, ZERO);
      rayGlassOpacity := Resized(rayGlassOpacity, size, 0.0);
      rayDynamicStyles := Resized(rayDynamicStyles, size, 0);
    }

    /** numPushedRays: the rays pushed since the last clear. */
    function NumPushedRays(): (n: int)
      reads this
      ensures Valid() ==> n >= 0
    {
      numrays
    }

    /** pushRay: fill slot numrays and advance the counter. The color and
        normal contribution are written only when given; otherwise the slot
        keeps what an earlier batch left there. */
    method PushRay(i: int, origin: Vec, dir: Vec, dist: real, color: Option<Vec>, normalcontrib: Option<Vec>)
      requires Valid() && numrays < maxrays
      modifies this
      ensures Valid() && maxrays == old(maxrays) && numrays == old(numrays) + 1
      ensures var k := old(numrays);
        rays == old(rays)[k := SetupRay(k, origin, dir, dist)] &&
        raysMaxdist == old(raysMaxdist)[k := dist] &&
        pointIndices == old(pointIndices)[k := i] &&
        rayColors == (if color.Some? then old(rayColors)[k := color.value] else old(rayColors)) &&
        rayNormalContribs == (if normalcontrib.Some? then old(rayNormalContribs)[k := normalcontrib.value]
                              else old(rayNormalContribs)) &&
        rayHitGlass == old(rayHitGlass)[k := false] &&
        rayDynamicStyles == old(rayDynamicStyles)[k := 0] &&
        rayGlassColor == old(rayGlassColor) && rayGlassOpacity == old(rayGlassOpacity)
    {
      rays := rays[numrays := SetupRay(numrays, origin, dir, dist)];
      raysMaxdist := raysMaxdist[numrays := dist];
      pointIndices := pointIndices[numrays := i];
      if color.Some? {
        rayColors := rayColors[numrays := color.value];
      }
      if normalcontrib.Some? {
        rayNormalContribs := rayNormalContribs[numrays := normalcontrib.value];
      }
      rayHitGlass := rayHitGlass[numrays := false];
      rayDynamicStyles := rayDynamicStyles[numrays := 0];
      numrays := numrays + 1;
    }

    /** clearPushedRays: only the counter goes back to zero. */
    method ClearPushedRays()
      modifies this`numrays
      ensures numrays == 0
    {
      numrays := 0;
    }

    /** The getters check j against the capacity, not against the number of
        rays pushed, so a slot past numrays reads a stale value. */
    function PointIndex(j: nat): (r: int)
      requires Valid() && j < maxrays
      reads this
      ensures r == pointIndices[j]
    {
      pointIndices[j]
    }

    /** getPushedRayColor: the stored color, tinted when the ray crossed glass. */
    function PushedRayColor(j: nat): (r: Vec)
      requires Valid() && j < maxrays
      reads this
      ensures !rayHitGlass[j] ==> r == rayColors[j]
      ensures rayHitGlass[j] ==> r == Tint(rayColors[j], rayGlassColor[j], rayGlassOpacity[j])
    {
      if rayHitGlass[j] then Tint(rayColors[j], rayGlassColor[j], rayGlassOpacity[j]) else rayColors[j]
    }

    function PushedRayHitType(j: nat, skyGeomID: nat): (h: HitType)
      requires Valid() && j < maxrays
      reads this
      ensures h == HitTypeOf(rays[j].geomID, skyGeomID)
    {
      HitTypeOf(rays[j].geomID, skyGeomID)
    }

    /** getPushedRayHitDist: the ray's tfar, negative exactly when it is occluded. */
    function PushedRayHitDist(j: nat): (d: real)
      requires Valid() && j < maxrays
      reads this
      ensures d < 0.0 <==> PushedRayOccluded(j)
    {
      rays[j].tfar
    }

    /** getPushedRayOccluded: the tracer marks an occluded ray with a negative tfar. */
    function PushedRayOccluded(j: nat): (b: bool)
      requires Valid() && j < maxrays
      reads this
      ensures b <==> rays[j].tfar < 0.0
    {
      rays[j].tfar < 0.0
    }
  }

  /** Pushing a ray with a color and reading it back before tracing gives
      that color, untinted, and no hit; a ray pushed without a color reads
      whatever the slot held. */
  method PushThenRead(rs: RayStream, i: int, origin: Vec, dir: Vec, dist: real, color: Option<Vec>, skyGeomID: nat)
    returns (c: Vec, h: HitType, n: int, index: int, d: real)
    requires rs.Valid() && rs.numrays < rs.maxrays
    modifies rs
    ensures color.Some? ==> c == color.value
    ensures color.None? ==> c == old(rs.rayColors[rs.numrays])
    ensures h == HitNone
    ensures n == old(rs.numrays) + 1 && index == i && d == dist
  {
    var k := rs.numrays;
    rs.PushRay(i, origin, dir, dist, color, None);
    c := rs.PushedRayColor(k);
    h := rs.PushedRayHitType(k, skyGeomID);
    n := rs.NumPushedRays();
    index := rs.PointIndex(k);
    d := rs.PushedRayHitDist(k);
  }
}
