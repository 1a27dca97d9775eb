/**
 * The portal-flow bookkeeping of the vis tool: the portal graph built from a
 * portal file, the three-slot scratch winding pool, the control flow of the
 * winding clipper, the scheduler that picks the next portal, the elimination
 * step run when a portal completes, and the assembly of per-cluster rows into
 * the append-only visibility blob.
 *
 * Geometry is kept abstract: points and planes are real triples, a plane's
 * signed distance is computed exactly, and the crossing point of an edge is an
 * opaque oracle. PortalFlow, BasePortalVis and CompressRow are parameters.
 */
module Vis {
  import opened Common

  // ---------------------------------------------------------------------------
  // Constants and value types (include/vis/vis.hh)

  const VIS_ON_EPSILON: real := 0.1
  const VIS_EQUAL_EPSILON: real := 0.001
  const MAX_WINDING_FIXED: nat := 24
  const MAX_WINDING: nat := 64
  const MAX_PORTALS_ON_LEAF: nat := 512
  const MAX_SEPARATORS: nat := MAX_WINDING
  /** source, pass and a temp for clipping */
  const STACK_WINDINGS: nat := 3
  const INT_MAX: int := 0x7fff_ffff

  datatype PStatus = PstatNone | PstatWorking | PstatDone

  /** The numeric value of each pstatus_t enumerator. */
  function StatusValue(s: PStatus): (v: nat)
    ensures v == 0 <==> s == PstatNone
    ensures v == 2 <==> s == PstatDone
    ensures v <= 2
  {
    match s
    case PstatNone => 0
    case PstatWorking => 1
    case PstatDone => 2
  }

  datatype Point = Point(x: real, y: real, z: real)
  datatype Plane = Plane(normal: Point, dist: real)

  function NegatePlane(p: Plane): Plane
  {
    Plane(Point(-p.normal.x, -p.normal.y, -p.normal.z), -p.dist)
  }

  function DistanceTo(p: Plane, q: Point): real
  {
    p.normal.x * q.x + p.normal.y * q.y + p.normal.z * q.z - p.dist
  }

  function Abs(r: real): real { if r < 0.0 then -r else r }

  /** A winding with its bounding sphere (origin, radius). The radius is not
      updated by clipping, so it never shrinks. */
  datatype Winding = Winding(points: seq<Point>, origin: Point, radius: real)

  datatype Portal = Portal(
    plane: Plane,          // normal pointing into neighbor
    leaf: int,             // neighbor
    winding: Winding,
    status: PStatus,
    visbits: seq<bool>,
    mightsee: seq<bool>,
    nummightsee: int,
    numcansee: int)

  /** numportals is |portals|; the entries are indices into the portal array. */
  datatype Leaf = Leaf(portals: seq<nat>)

  /** One portal of the portal file: its winding and the two leaves it joins. */
  datatype FilePortal = FilePortal(winding: seq<Point>, leaf0: int, leaf1: int)

  // ---------------------------------------------------------------------------
  // Bounding sphere of a winding (set_winding_sphere, distFromPortal)

  function Add(a: Point, b: Point): Point { Point(a.x + b.x, a.y + b.y, a.z + b.z) }
  function Sub(a: Point, b: Point): Point { Point(a.x - b.x, a.y - b.y, a.z - b.z) }

  function SumPoints(pts: seq<Point>): Point
  {
    if pts == [] then Point(0.0, 0.0, 0.0) else Add(SumPoints(pts[..|pts| - 1]), pts[|pts| - 1])
  }

  function Centroid(pts: seq<Point>): Point
    requires |pts| > 0
  {
    var s := SumPoints(pts);
    var n := |pts| as real;
    Point(s.x / n, s.y / n, s.z / n)
  }

  /** max(0, largest length(p - origin)) over pts, as the radius loop computes it. */
  function MaxDist(pts: seq<Point>, origin: Point, length: Point -> real): real
  {
    if pts == [] then 0.0
    else
      var r := MaxDist(pts[..|pts| - 1], origin, length);
      var d := length(Sub(pts[|pts| - 1], origin));
      if r < d then d else r
  }

  /** The radius bounds every point's distance and is either 0 or attained. */
  lemma {:induction false} MaxDistBounds(pts: seq<Point>, origin: Point, length: Point -> real)
    ensures MaxDist(pts, origin, length) >= 0.0
    ensures forall i :: 0 <= i < |pts| ==> length(Sub(pts[i], origin)) <= MaxDist(pts, origin, length)
    ensures MaxDist(pts, origin, length) == 0.0 ||
            exists i :: 0 <= i < |pts| && MaxDist(pts, origin, length) == length(Sub(pts[i], origin))
  {
    if pts != [] {
      var init := pts[..|pts| - 1];
      MaxDistBounds(init, origin, length);
      assert forall i :: 0 <= i < |init| ==> init[i] == pts[i];
    }
  }

  /** The winding built from a point list: the sphere is set from its points. */
  function MakeWinding(pts: seq<Point>, length: Point -> real): Winding
    requires |pts| > 0
  {
    var o := Centroid(pts);
    Winding(pts, o, MaxDist(pts, o, length))
  }

  /** set_winding_sphere: origin is the centroid, radius the largest distance of a
      point from it (length is the vector norm, an oracle). */
  method SetWindingSphere(pts: seq<Point>, length: Point -> real) returns (origin: Point, radius: real)
    requires |pts| > 0
    ensures origin == Centroid(pts)
    ensures radius == MaxDist(pts, origin, length)
    ensures radius >= 0.0 && forall i :: 0 <= i < |pts| ==> length(Sub(pts[i], origin)) <= radius
  {
    var sum := Point(0.0, 0.0, 0.0);
    var i := 0;
    while i < |pts|
      invariant 0 <= i <= |pts|
      invariant sum == SumPoints(pts[..i])
    {
      assert pts[..i + 1][..i] == pts[..i];
      sum := Add(sum, pts[i]);
      i := i + 1;
    }
    assert pts[..|pts|] == pts;
    var n := |pts| as real;
    origin := Point(sum.x / n, sum.y / n, sum.z / n);
    radius := 0.0;
    i := 0;
    while i < |pts|
      invariant 0 <= i <= |pts|
      invariant radius == MaxDist(pts[..i], origin, length)
    {
      assert pts[..i + 1][..i] == pts[..i];
      var d := length(Sub(pts[i], origin));
      radius := if radius < d then d else radius;
      i := i + 1;
    }
    assert pts[..|pts|] == pts;
    MaxDistBounds(pts, origin, length);
  }

  /** distFromPortal: the smallest |distance| of a winding point to the portal's
      plane, starting from 1e20. */
  method DistFromPortal(w: Winding, p: Portal) returns (mindist: real)
    ensures mindist <= 100000000000000000000.0
    ensures forall i :: 0 <= i < |w.points| ==> mindist <= Abs(DistanceTo(p.plane, w.points[i]))
    ensures mindist == 100000000000000000000.0 ||
            exists i :: 0 <= i < |w.points| && mindist == Abs(DistanceTo(p.plane, w.points[i]))
  {
    mindist := 100000000000000000000.0;
    var i := 0;
    while i < |w.points|
      invariant 0 <= i <= |w.points|
      invariant mindist <= 100000000000000000000.0
      invariant forall j :: 0 <= j < i ==> mindist <= Abs(DistanceTo(p.plane, w.points[j]))
      invariant mindist == 100000000000000000000.0 ||
                exists j :: 0 <= j < i && mindist == Abs(DistanceTo(p.plane, w.points[j]))
    {
      var d := Abs(DistanceTo(p.plane, w.points[i]));
      if d < mindist {
        mindist := d;
      }
      i := i + 1;
    }
  }

  // ---------------------------------------------------------------------------
  // Scratch winding pool (AllocStackWinding, FreeStackWinding)

  /** A winding pointer: null, an address stack.windings + offset, or a winding
      owned elsewhere (a portal, or a stack frame further up the call chain). */
  datatype WRef = Null | InPool(offset: int) | Foreign(w: Winding)

  /** The lowest index at or after `from` whose used flag is clear. */
  function FirstFree(used: seq<bool>, from: nat): (r: Option<nat>)
    requires from <= |used|
    decreases |used| - from
    ensures r.None? <==> forall i :: from <= i < |used| ==> used[i]
    ensures r.Some? ==> from <= r.value < |used| && !used[r.value] &&
                        forall i :: from <= i < r.value ==> used[i]
  {
    if from == |used| then None
    else if !used[from] then Some(from)
    else FirstFree(used, from + 1)
  }

  /** The corrected range test: the pointer addresses one of the pool's slots. */
  predicate PoolOwned(w: WRef)
  {
    w.InPool? && 0 <= w.offset < STACK_WINDINGS
  }

  /** The range test as written, `w <= &windings[STACK_WINDINGS]`: it also
      admits the address one past the last slot. */
  predicate PoolOwnedAsWritten(w: WRef)
  {
    w.InPool? && 0 <= w.offset <= STACK_WINDINGS
  }

  /** The as-written test lets through a pointer whose used-flag index is out of
      range; the corrected test accepts exactly the pool's own slots. */
  lemma FreeRangeOffByOne()
    ensures PoolOwnedAsWritten(InPool(STACK_WINDINGS)) && !PoolOwned(InPool(STACK_WINDINGS))
    ensures forall w :: PoolOwned(w) ==> PoolOwnedAsWritten(w)
  {
  }

  /** The scratch part of pstack_t: fixed windings with a parallel used-flag array. */
  class PStack {
    var windings: array<Winding>
    var used: array<bool>

    ghost predicate Valid()
      reads this
    {
      windings.Length == STACK_WINDINGS && used.Length == STACK_WINDINGS
    }

    constructor ()
      ensures Valid() && fresh(windings) && fresh(used)
      ensures forall i :: 0 <= i < STACK_WINDINGS ==> !used[i]
    {
      windings := new Winding[STACK_WINDINGS](_ => Winding([], Point(0.0, 0.0, 0.0), 0.0));
      used := new bool[STACK_WINDINGS](_ => false);
    }

    /** The winding a non-null pointer designates. */
    function Deref(w: WRef): Winding
      reads this, windings
      requires Valid() && !w.Null?
      requires w.InPool? ==> PoolOwned(w)
    {
      if w.InPool? then windings[w.offset] else w.w
    }

    /** AllocStackWinding: the lowest unused slot is cleared and marked used;
        with every slot in use the run fails. */
    method Alloc() returns (r: Fallible<nat>)
      requires Valid()
      modifies windings, used
      ensures Valid()
      ensures FirstFree(old(used[..]), 0).None? ==>
                r.Fatal? && windings[..] == old(windings[..]) && used[..] == old(used[..])
      ensures FirstFree(old(used[..]), 0).Some? ==>
                var k := FirstFree(old(used[..]), 0).value;
                r == Ok(k) && used[..] == old(used[..])[k := true] &&
                windings[..] == old(windings[..])[k := old(windings[k]).(points := [])]
    {
      var i := 0;
      while i < STACK_WINDINGS
        invariant 0 <= i <= STACK_WINDINGS
        invariant forall j :: 0 <= j < i ==> used[j]
        invariant FirstFree(used[..], 0) == FirstFree(used[..], i)
      {
        if !used[i] {
          windings[i] := windings[i].(points := []);
          used[i] := true;
          return Ok(i);
        }
        i := i + 1;
      }
      return Fatal("failed");
    }

    /** FreeStackWinding: a pool-owned winding is released and the pointer
        nulled; any other pointer is left as it is. */
    method Free(w: WRef) returns (w': WRef)
      requires Valid()
      modifies used
      ensures Valid()
      ensures PoolOwned(w) ==> w' == Null && used[..] == old(used[..])[w.offset := false]
      ensures !PoolOwned(w) ==> w' == w && used[..] == old(used[..])
    {
      if PoolOwned(w) {
        used[w.offset] := false;
        return Null;
      }
      return w;
    }
  }

  // ---------------------------------------------------------------------------
  // Clipper control flow (ClipStackWinding)

  datatype Side = Front | Back | On

  function SideOf(d: real): Side
  {
    if d > VIS_ON_EPSILON then Front else if d < -VIS_ON_EPSILON then Back else On
  }

  /** The dists array: each vertex's signed distance to the split plane. */
  function Dists(pts: seq<Point>, split: Plane): (r: seq<real>)
    ensures |r| == |pts| && forall i :: 0 <= i < |pts| ==> r[i] == DistanceTo(split, pts[i])
  {
    seq(|pts|, i requires 0 <= i < |pts| => DistanceTo(split, pts[i]))
  }

  /** The sides array: each vertex classified with the VIS_ON_EPSILON band. */
  function Sides(dists: seq<real>): (s: seq<Side>)
    ensures |s| == |dists| && forall i :: 0 <= i < |dists| ==> s[i] == SideOf(dists[i])
  {
    seq(|dists|, i requires 0 <= i < |dists| => SideOf(dists[i]))
  }

  /** The vertex after i, wrapping to 0 (the sides[n] = sides[0] sentinel). */
  function NextIndex(i: nat, n: nat): (j: nat)
    requires i < n
    ensures j < n
  {
    if i + 1 == n then 0 else i + 1
  }

  /** One coordinate of a split point: exactly the plane distance when the
      normal is axial along it, linear interpolation otherwise. */
  function CrossCoord(normal: real, dist: real, a: real, b: real, fraction: real): real
  {
    if normal == 1.0 then dist
    else if normal == -1.0 then -dist
    else a + fraction * (b - a)
  }

  /** The split point of edge p1-p2 whose end distances are d1 and d2. */
  function Crossing(split: Plane, p1: Point, p2: Point, d1: real, d2: real): Point
    requires d1 != d2
  {
    var fraction := d1 / (d1 - d2);
    Point(CrossCoord(split.normal.x, split.dist, p1.x, p2.x, fraction),
          CrossCoord(split.normal.y, split.dist, p1.y, p2.y, fraction),
          CrossCoord(split.normal.z, split.dist, p1.z, p2.z, fraction))
  }

  /** The points the walk emits at vertex i: the vertex itself unless it is
      behind, then the split point towards the next vertex when the edge goes
      from front to back or back to front. */
  function EmitAt(pts: seq<Point>, dists: seq<real>, split: Plane, i: nat): seq<Point>
    requires |dists| == |pts| && i < |pts|
  {
    var j := NextIndex(i, |pts|);
    var d1 := dists[i];
    var d2 := dists[j];
    var s1 := SideOf(d1);
    var s2 := SideOf(d2);
    if s1 == On then [pts[i]]
    else
      (if s1 == Front then [pts[i]] else []) +
      (if s2 == On || s2 == s1 then [] else [Crossing(split, pts[i], pts[j], d1, d2)])
  }

  /** The points emitted at every vertex, in walk order. */
  function Emits(pts: seq<Point>, dists: seq<real>, split: Plane): (r: seq<seq<Point>>)
    requires |dists| == |pts|
    ensures |r| == |pts| && forall i :: 0 <= i < |pts| ==> r[i] == EmitAt(pts, dists, split, i)
  {
    seq(|pts|, i requires 0 <= i < |pts| => EmitAt(pts, dists, split, i))
  }

  /** The pieces joined in order. */
  function Concat<T>(parts: seq<seq<T>>): seq<T>
  {
    if parts == [] then [] else Concat(parts[..|parts| - 1]) + parts[|parts| - 1]
  }

  /** The whole output of the walk: the clipped winding's points. */
  function Clipped(pts: seq<Point>, dists: seq<real>, split: Plane): seq<Point>
    requires |dists| == |pts|
  {
    Concat(Emits(pts, dists, split))
  }

  lemma {:induction false} ConcatPrefix<T>(parts: seq<seq<T>>, m: nat)
    requires m <= |parts|
    ensures Concat(parts[..m]) <= Concat(parts)
  {
    if m < |parts| {
      var init := parts[..|parts| - 1];
      assert init[..m] == parts[..m];
      ConcatPrefix(init, m);
      var a, b, c := Concat(parts[..m]), Concat(init), parts[|parts| - 1];
      assert Concat(parts) == b + c;
      assert a == b[..|a|];
      assert (b + c)[..|a|] == b[..|a|];
    } else {
      assert parts[..m] == parts;
    }
  }

  lemma ConcatSnoc<T>(parts: seq<seq<T>>, i: nat)
    requires i < |parts|
    ensures Concat(parts[..i + 1]) == Concat(parts[..i]) + parts[i]
  {
    assert parts[..i + 1][..i] == parts[..i];
  }

  /** Once the first i + 1 parts pass cap elements, the whole concatenation
      does too and starts with the same cap elements. */
  lemma ConcatOverflow<T>(parts: seq<seq<T>>, i: nat, cap: nat)
    requires i < |parts| && |Concat(parts[..i]) + parts[i]| > cap
    ensures |Concat(parts)| > cap && Concat(parts)[..cap] == (Concat(parts[..i]) + parts[i])[..cap]
  {
    ConcatSnoc(parts, i);
    ConcatPrefix(parts, i + 1);
  }

  lemma {:induction false} ConcatContains<T>(parts: seq<seq<T>>, i: nat, x: T)
    requires i < |parts| && x in parts[i]
    ensures x in Concat(parts)
  {
    var init := parts[..|parts| - 1];
    var b, c := Concat(init), parts[|parts| - 1];
    assert Concat(parts) == b + c;
    if i == |parts| - 1 {
      var k :| 0 <= k < |c| && c[k] == x;
      assert (b + c)[|b| + k] == x;
    } else {
      ConcatContains(init, i, x);
      var k :| 0 <= k < |b| && b[k] == x;
      assert (b + c)[k] == x;
    }
  }

  datatype ClipKind =
    | FastBack        // sphere entirely behind: eliminated
    | FastFront       // sphere entirely in front: unchanged
    | TooManyPoints   // more than MAX_WINDING points: fatal
    | AllOn           // coplanar: unchanged
    | NoFront         // eliminated
    | NoBack          // unchanged
    | Overflow(partial: seq<Point>) // more than MAX_WINDING_FIXED points: clip abandoned
    | Split(points: seq<Point>)

  /** The decision ClipStackWinding takes for winding w and plane split. */
  function Classify(w: Winding, split: Plane): (k: ClipKind)
    ensures k.Split? ==> |k.points| <= MAX_WINDING_FIXED
    ensures k.Overflow? ==> |k.partial| == MAX_WINDING_FIXED
  {
    var dot := DistanceTo(split, w.origin);
    if dot < -w.radius then FastBack
    else if dot > w.radius then FastFront
    else if |w.points| > MAX_WINDING then TooManyPoints
    else
      var dists := Dists(w.points, split);
      var sides := Sides(dists);
      if forall i :: 0 <= i < |sides| ==> sides[i] == On then AllOn
      else if forall i :: 0 <= i < |sides| ==> sides[i] != Front then NoFront
      else if forall i :: 0 <= i < |sides| ==> sides[i] != Back then NoBack
      else
        var e := Clipped(w.points, dists, split);
        if |e| > MAX_WINDING_FIXED then Overflow(e[..MAX_WINDING_FIXED]) else Split(e)
  }

  /** Near-coplanar windings are never clipped away: when the sphere test does
      not decide and every point lies within VIS_ON_EPSILON of the plane, the
      input comes back unchanged. */
  lemma CoplanarKept(w: Winding, split: Plane)
    requires -w.radius <= DistanceTo(split, w.origin) <= w.radius
    requires |w.points| <= MAX_WINDING
    requires forall i :: 0 <= i < |w.points| ==> -VIS_ON_EPSILON <= DistanceTo(split, w.points[i]) <= VIS_ON_EPSILON
    ensures Classify(w, split) == AllOn
  {
    var sides := Sides(Dists(w.points, split));
    assert forall i :: 0 <= i < |sides| ==> sides[i] == On;
  }

  /** A split keeps every vertex that is not behind the plane, and only happens
      when the winding has points on both sides. */
  lemma SplitKeepsFrontAndOn(w: Winding, split: Plane)
    requires Classify(w, split).Split?
    ensures forall i :: 0 <= i < |w.points| && SideOf(DistanceTo(split, w.points[i])) != Back ==>
              w.points[i] in Classify(w, split).points
    ensures exists i :: 0 <= i < |w.points| && SideOf(DistanceTo(split, w.points[i])) == Front
    ensures exists i :: 0 <= i < |w.points| && SideOf(DistanceTo(split, w.points[i])) == Back
  {
    var dists := Dists(w.points, split);
    var sides := Sides(dists);
    var e := Classify(w, split).points;
    assert e == Clipped(w.points, dists, split);
    assert !(forall i :: 0 <= i < |sides| ==> sides[i] != Front);
    assert !(forall i :: 0 <= i < |sides| ==> sides[i] != Back);
    var parts := Emits(w.points, dists, split);
    forall i | 0 <= i < |w.points| && SideOf(DistanceTo(split, w.points[i])) != Back
      ensures w.points[i] in e
    {
      assert parts[i][0] == w.points[i];
      ConcatContains(parts, i, w.points[i]);
    }
  }

  /** Number of vertices on the given side, counted from the front. */
  function CountSide(sides: seq<Side>, s: Side): (n: nat)
    ensures n <= |sides|
  {
    if sides == [] then 0
    else CountSide(sides[..|sides| - 1], s) + (if sides[|sides| - 1] == s then 1 else 0)
  }

  lemma {:induction false} CountSideZero(sides: seq<Side>, s: Side)
    ensures CountSide(sides, s) == 0 <==> forall i :: 0 <= i < |sides| ==> sides[i] != s
  {
    if sides != [] {
      var init := sides[..|sides| - 1];
      CountSideZero(init, s);
      assert forall i :: 0 <= i < |init| ==> init[i] == sides[i];
    }
  }

  lemma {:induction false} CountSideAll(sides: seq<Side>, s: Side)
    ensures CountSide(sides, s) == |sides| <==> forall i :: 0 <= i < |sides| ==> sides[i] == s
  {
    if sides != [] {
      var init := sides[..|sides| - 1];
      CountSideAll(init, s);
      assert forall i :: 0 <= i < |init| ==> init[i] == sides[i];
    }
  }

  /** The classification loop: counts[SIDE_FRONT], counts[SIDE_BACK], counts[SIDE_ON]. */
  method CountSides(sides: seq<Side>) returns (front: nat, back: nat, on: nat)
    ensures front == CountSide(sides, Front) && back == CountSide(sides, Back) && on == CountSide(sides, On)
  {
    front, back, on := 0, 0, 0;
    var i := 0;
    while i < |sides|
      invariant 0 <= i <= |sides|
      invariant front == CountSide(sides[..i], Front) && back == CountSide(sides[..i], Back) &&
                on == CountSide(sides[..i], On)
    {
      assert sides[..i + 1][..i] == sides[..i];
      match sides[i] {
        case Front => front := front + 1;
        case Back => back := back + 1;
        case On => on := on + 1;
      }
      i := i + 1;
    }
    assert sides[..|sides|] == sides;
  }

  /** The vertex walk of ClipStackWinding: it emits points into a winding of
      MAX_WINDING_FIXED capacity and gives up (noclip) when one more would not fit. */
  method WalkClip(pts: seq<Point>, dists: seq<real>, split: Plane) returns (acc: seq<Point>, noclip: bool)
    requires |dists| == |pts|
    ensures noclip <==> |Clipped(pts, dists, split)| > MAX_WINDING_FIXED
    ensures !noclip ==> acc == Clipped(pts, dists, split)
    ensures noclip ==> acc == Clipped(pts, dists, split)[..MAX_WINDING_FIXED]
  {
    ghost var parts := Emits(pts, dists, split);
    acc := [];
    noclip := false;
    var i := 0;
    while i < |pts|
      invariant 0 <= i <= |pts|
      invariant acc == Concat(parts[..i]) && |acc| <= MAX_WINDING_FIXED
    {
      var step := EmitAt(pts, dists, split, i);
      ConcatSnoc(parts, i);
      if |acc| + |step| > MAX_WINDING_FIXED {
        ConcatOverflow(parts, i, MAX_WINDING_FIXED);
        acc := (acc + step)[..MAX_WINDING_FIXED];
        noclip := true;
        return;
      }
      acc := acc + step;
      i := i + 1;
    }
    assert parts[..|pts|] == parts;
  }

  /** The decision after the sphere and size tests, read off the side counts. */
  lemma ClassifyByCounts(w: Winding, split: Plane, sides: seq<Side>, front: nat, back: nat, on: nat)
    requires DistanceTo(split, w.origin) >= -w.radius && DistanceTo(split, w.origin) <= w.radius
    requires |w.points| <= MAX_WINDING && sides == Sides(Dists(w.points, split))
    requires front == CountSide(sides, Front) && back == CountSide(sides, Back) && on == CountSide(sides, On)
    ensures on == |w.points| ==> Classify(w, split) == AllOn
    ensures on != |w.points| && front == 0 ==> Classify(w, split) == NoFront
    ensures on != |w.points| && front != 0 && back == 0 ==> Classify(w, split) == NoBack
    ensures on != |w.points| && front != 0 && back != 0 ==>
      var e := Clipped(w.points, Dists(w.points, split), split);
      Classify(w, split) == if |e| > MAX_WINDING_FIXED then Overflow(e[..MAX_WINDING_FIXED]) else Split(e)
  {
    CountSideAll(sides, On);
    CountSideZero(sides, Front);
    CountSideZero(sides, Back);
  }

  /** What ClipStackWinding leaves behind for each decision: the returned
      pointer, the pool slots, the used flags and the noclip counter. */
  ghost predicate ClipOutcome(kind: ClipKind, inw: WRef, w: Winding,
                              wind0: seq<Winding>, used0: seq<bool>, noclip0: int,
                              r: Fallible<WRef>, wind: seq<Winding>, used: seq<bool>, noclip: int)
    requires |used0| == STACK_WINDINGS && |wind0| == STACK_WINDINGS
  {
    var freed := if PoolOwned(inw) then used0[inw.offset := false] else used0;
    var slot := FirstFree(used0, 0);
    match kind
    case FastBack | NoFront =>
      r == Ok(Null) && noclip == noclip0 && wind == wind0 && used == freed
    case FastFront | AllOn | NoBack =>
      r == Ok(inw) && noclip == noclip0 && wind == wind0 && used == used0
    case TooManyPoints =>
      r.Fatal? && noclip == noclip0 && wind == wind0 && used == used0
    case Split(e) =>
      (slot.None? ==> r.Fatal? && wind == wind0 && used == used0) &&
      (slot.Some? ==>
        r == Ok(InPool(slot.value)) && noclip == noclip0 &&
        wind == wind0[slot.value := Winding(e, w.origin, w.radius)] &&
        used == (if PoolOwned(inw) then used0[slot.value := true][inw.offset := false] else used0[slot.value := true]))
    case Overflow(partial) =>
      (slot.None? ==> r.Fatal? && wind == wind0 && used == used0) &&
      (slot.Some? ==>
        r == Ok(inw) && noclip == noclip0 + 1 &&
        wind == wind0[slot.value := Winding(partial, w.origin, w.radius)] &&
        used == used0)
  }

  // ---------------------------------------------------------------------------
  // Scheduler helpers (GetNextPortal)

  /** `p.nummightsee < min` compares an int with a uint32_t: the int converts. */
  function U32(n: int): nat { n % 0x1_0000_0000 }

  predicate Candidate(p: Portal)
  {
    p.status == PstatNone && U32(p.nummightsee) < INT_MAX
  }

  /** Portal i is the first unprocessed portal of strictly smallest nummightsee. */
  predicate IsCheapest(ps: seq<Portal>, i: nat)
  {
    i < |ps| && Candidate(ps[i]) &&
    (forall j :: 0 <= j < i && Candidate(ps[j]) ==> U32(ps[j].nummightsee) > U32(ps[i].nummightsee)) &&
    (forall j :: i < j < |ps| && Candidate(ps[j]) ==> U32(ps[j].nummightsee) >= U32(ps[i].nummightsee))
  }

  /** The selection loop of GetNextPortal. */
  method ScanCheapest(ps: seq<Portal>) returns (ret: Option<nat>)
    ensures ret.None? <==> forall i :: 0 <= i < |ps| ==> !Candidate(ps[i])
    ensures ret.Some? ==> IsCheapest(ps, ret.value)
  {
    ret := None;
    var min: int := INT_MAX;
    var i := 0;
    while i < |ps|
      invariant 0 <= i <= |ps|
      invariant ret.None? ==> min == INT_MAX && forall j :: 0 <= j < i ==> !Candidate(ps[j])
      invariant ret.Some? ==> ret.value < i && Candidate(ps[ret.value]) && min == U32(ps[ret.value].nummightsee)
      invariant ret.Some? ==> forall j :: 0 <= j < ret.value && Candidate(ps[j]) ==> U32(ps[j].nummightsee) > min
      invariant ret.Some? ==> forall j :: ret.value < j < i && Candidate(ps[j]) ==> U32(ps[j].nummightsee) >= min
    {
      if U32(ps[i].nummightsee) < min && ps[i].status == PstatNone {
        min := U32(ps[i].nummightsee);
        ret := Some(i);
      }
      i := i + 1;
    }
  }

  // ---------------------------------------------------------------------------
  // Elimination step (UpdateMightsee, PortalCompleted) as functions on the portal array

  /** Bitsets have one bit per leaf, leaves index the leaf array, leaf lists
      index the portal array. */
  ghost predicate WellFormed(ps: seq<Portal>, leafs: seq<Leaf>)
  {
    (forall k :: 0 <= k < |ps| ==>
       |ps[k].mightsee| == |leafs| && |ps[k].visbits| == |leafs| && 0 <= ps[k].leaf < |leafs|) &&
    (forall l, j :: 0 <= l < |leafs| && 0 <= j < |leafs[l].portals| ==> leafs[l].portals[j] < |ps|)
  }

  /** nummightsee is the popcount of mightsee for every portal. */
  ghost predicate Counted(ps: seq<Portal>)
  {
    forall k :: 0 <= k < |ps| ==> ps[k].nummightsee == Count(ps[k].mightsee)
  }

  /** b is a possibly shrunk copy of a: only mightsee bits were cleared (and
      nummightsee changed with them); everything else is the same. */
  ghost predicate Shrinks(a: seq<Portal>, b: seq<Portal>)
  {
    |a| == |b| &&
    forall k :: 0 <= k < |a| ==>
      b[k] == a[k].(mightsee := b[k].mightsee, nummightsee := b[k].nummightsee) &&
      Subset(b[k].mightsee, a[k].mightsee)
  }

  lemma MarkWellFormed(ps: seq<Portal>, leafs: seq<Leaf>, c: nat, s: PStatus)
    requires WellFormed(ps, leafs) && c < |ps|
    ensures WellFormed(ps[c := ps[c].(status := s)], leafs)
  {
  }

  lemma ShrinksTrans(a: seq<Portal>, b: seq<Portal>, c: seq<Portal>)
    requires Shrinks(a, b) && Shrinks(b, c)
    ensures Shrinks(a, c)
  {
  }

  lemma ShrinksWellFormed(a: seq<Portal>, b: seq<Portal>, leafs: seq<Leaf>)
    requires WellFormed(a, leafs) && Shrinks(a, b)
    ensures WellFormed(b, leafs)
  {
  }

  /** Bit b of a row; a bit past the end of the row reads as clear. */
  function Bit(row: seq<bool>, b: nat): bool
  {
    b < |row| && row[b]
  }

  function ClearMight(p: Portal, d: nat): Portal
    requires d < |p.mightsee|
  {
    p.(mightsee := p.mightsee[d := false], nummightsee := p.nummightsee - 1)
  }

  /** One iteration of UpdateMightsee's loop, for portal k of the source leaf. */
  function UpdateOne(ps: seq<Portal>, k: nat, d: nat): (r: seq<Portal>)
    ensures |r| == |ps|
  {
    if k < |ps| && ps[k].status == PstatNone && Bit(ps[k].mightsee, d) then ps[k := ClearMight(ps[k], d)]
    else ps
  }

  function UpdateMightseeSpec(ps: seq<Portal>, list: seq<nat>, d: nat): (r: seq<Portal>)
    ensures |r| == |ps|
  {
    if list == [] then ps
    else UpdateOne(UpdateMightseeSpec(ps, list[..|list| - 1], d), list[|list| - 1], d)
  }

  /** UpdateMightsee clears the dest bit exactly in the unprocessed portals of the
      source leaf that still had it, decrementing nummightsee once each. */
  lemma {:induction false} UpdateMightseeEffect(ps: seq<Portal>, list: seq<nat>, d: nat)
    ensures forall k :: 0 <= k < |ps| ==>
      UpdateMightseeSpec(ps, list, d)[k] ==
        if k in list && ps[k].status == PstatNone && Bit(ps[k].mightsee, d) then ClearMight(ps[k], d) else ps[k]
  {
    if list != [] {
      var init := list[..|list| - 1];
      UpdateMightseeEffect(ps, init, d);
      assert forall k :: k in list <==> k in init || k == list[|list| - 1];
    }
  }

  /** The elimination never sets a bit and keeps nummightsee equal to the popcount. */
  lemma UpdateMightseeShrinks(ps: seq<Portal>, list: seq<nat>, d: nat)
    ensures Shrinks(ps, UpdateMightseeSpec(ps, list, d))
    ensures Counted(ps) ==> Counted(UpdateMightseeSpec(ps, list, d))
  {
    UpdateMightseeEffect(ps, list, d);
    var r := UpdateMightseeSpec(ps, list, d);
    forall k | 0 <= k < |ps|
      ensures Subset(r[k].mightsee, ps[k].mightsee)
      ensures ps[k].nummightsee == Count(ps[k].mightsee) ==> r[k].nummightsee == Count(r[k].mightsee)
    {
      if k in list && ps[k].status == PstatNone && Bit(ps[k].mightsee, d) {
        CountClear(ps[k].mightsee, d);
      }
    }
  }

  /** Some other portal of the leaf (list position k != i) may still see leaf b:
      its visbits if it is done, its mightsee otherwise. */
  predicate StillSeen(ps: seq<Portal>, lp: seq<nat>, i: nat, b: nat)
  {
    exists k :: 0 <= k < |lp| && k != i && lp[k] < |ps| &&
      (if ps[lp[k]].status == PstatDone then Bit(ps[lp[k]].visbits, b) else Bit(ps[lp[k]].mightsee, b))
  }

  /** Leaf b was eliminated by the done portal at list position i and no other
      portal of the leaf can see it. */
  predicate Changed(ps: seq<Portal>, lp: seq<nat>, i: nat, b: nat)
  {
    i < |lp| && lp[i] < |ps| &&
    Bit(ps[lp[i]].mightsee, b) && !Bit(ps[lp[i]].visbits, b) && !StillSeen(ps, lp, i, b)
  }

  /** PortalCompleted's work for the portal at list position i over bits [0, b).
      The source computes the changed bits of a 64-bit block at once and then
      updates each surviving bit; here each bit is tested in the state the
      earlier bits left. The two agree: an update for leaf b only clears bit
      my in the portals registered on leaf b, so it alters no bit other than
      my, and no portal of leaf my unless b is my itself. The bits tested
      after it, within its block or later, therefore test the same values. */
  function PropagateBits(ps: seq<Portal>, leafs: seq<Leaf>, my: nat, i: nat, b: nat): (r: seq<Portal>)
    requires my < |leafs| && b <= |leafs|
    ensures |r| == |ps|
  {
    if b == 0 then ps
    else
      var q := PropagateBits(ps, leafs, my, i, b - 1);
      if Changed(q, leafs[my].portals, i, b - 1) then UpdateMightseeSpec(q, leafs[b - 1].portals, my)
      else q
  }

  /** PortalCompleted's work over list positions [0, i) of leaf my. */
  function PropagatePortals(ps: seq<Portal>, leafs: seq<Leaf>, my: nat, i: nat): (r: seq<Portal>)
    requires my < |leafs| && i <= |leafs[my].portals|
    ensures |r| == |ps|
  {
    if i == 0 then ps
    else
      var q := PropagatePortals(ps, leafs, my, i - 1);
      var k := leafs[my].portals[i - 1];
      if k < |q| && q[k].status == PstatDone then PropagateBits(q, leafs, my, i - 1, |leafs|)
      else q
  }

  function PortalCompletedSpec(ps: seq<Portal>, leafs: seq<Leaf>, c: nat): (r: seq<Portal>)
    requires c < |ps| && 0 <= ps[c].leaf < |leafs|
    ensures |r| == |ps|
  {
    var ps1 := ps[c := ps[c].(status := PstatDone)];
    PropagatePortals(ps1, leafs, ps[c].leaf, |leafs[ps[c].leaf].portals|)
  }

  lemma {:induction false} PropagateBitsShrinks(ps: seq<Portal>, leafs: seq<Leaf>, my: nat, i: nat, b: nat)
    requires my < |leafs| && b <= |leafs|
    ensures Shrinks(ps, PropagateBits(ps, leafs, my, i, b))
    ensures Counted(ps) ==> Counted(PropagateBits(ps, leafs, my, i, b))
  {
    if b > 0 {
      PropagateBitsShrinks(ps, leafs, my, i, b - 1);
      var q := PropagateBits(ps, leafs, my, i, b - 1);
      if Changed(q, leafs[my].portals, i, b - 1) {
        UpdateMightseeShrinks(q, leafs[b - 1].portals, my);
        ShrinksTrans(ps, q, UpdateMightseeSpec(q, leafs[b - 1].portals, my));
      }
    }
  }

  lemma {:induction false} PropagatePortalsShrinks(ps: seq<Portal>, leafs: seq<Leaf>, my: nat, i: nat)
    requires my < |leafs| && i <= |leafs[my].portals|
    ensures Shrinks(ps, PropagatePortals(ps, leafs, my, i))
  {
    if i > 0 {
      PropagatePortalsShrinks(ps, leafs, my, i - 1);
      var q := PropagatePortals(ps, leafs, my, i - 1);
      var k := leafs[my].portals[i - 1];
      if k < |q| && q[k].status == PstatDone {
        var r := PropagateBits(q, leafs, my, i - 1, |leafs|);
        assert PropagatePortals(ps, leafs, my, i) == r;
        PropagateBitsShrinks(q, leafs, my, i - 1, |leafs|);
        ShrinksTrans(ps, q, r);
      }
    }
  }

  lemma {:induction false} PropagatePortalsCounted(ps: seq<Portal>, leafs: seq<Leaf>, my: nat, i: nat)
    requires my < |leafs| && i <= |leafs[my].portals| && Counted(ps)
    ensures Counted(PropagatePortals(ps, leafs, my, i))
  {
    if i > 0 {
      PropagatePortalsCounted(ps, leafs, my, i - 1);
      var q := PropagatePortals(ps, leafs, my, i - 1);
      var k := leafs[my].portals[i - 1];
      if k < |q| && q[k].status == PstatDone {
        PropagateBitsShrinks(q, leafs, my, i - 1, |leafs|);
      }
    }
  }

  /** PortalCompleted marks the portal done, changes no other status and no
      visbits, only ever clears mightsee bits, and keeps nummightsee equal to
      the popcount of mightsee. */
  lemma PortalCompletedMonotone(ps: seq<Portal>, leafs: seq<Leaf>, c: nat)
    requires c < |ps| && 0 <= ps[c].leaf < |leafs|
    ensures var r := PortalCompletedSpec(ps, leafs, c);
      r[c].status == PstatDone &&
      (forall k :: 0 <= k < |ps| && k != c ==> r[k].status == ps[k].status) &&
      (forall k :: 0 <= k < |ps| ==> r[k].visbits == ps[k].visbits && Subset(r[k].mightsee, ps[k].mightsee))
    ensures Counted(ps) ==> Counted(PortalCompletedSpec(ps, leafs, c))
    ensures WellFormed(ps, leafs) ==> WellFormed(PortalCompletedSpec(ps, leafs, c), leafs)
  {
    var ps1 := ps[c := ps[c].(status := PstatDone)];
    PropagatePortalsShrinks(ps1, leafs, ps[c].leaf, |leafs[ps[c].leaf].portals|);
    if Counted(ps) {
      assert Counted(ps1);
      PropagatePortalsCounted(ps1, leafs, ps[c].leaf, |leafs[ps[c].leaf].portals|);
    }
    if WellFormed(ps, leafs) {
      MarkWellFormed(ps, leafs, c, PstatDone);
      ShrinksWellFormed(ps1, PortalCompletedSpec(ps, leafs, c), leafs);
    }
  }

  // ---------------------------------------------------------------------------
  // Cluster assembly (ClusterFlow)

  function Zeros(n: nat): (r: seq<bool>)
    ensures |r| == n && forall i :: 0 <= i < n ==> !r[i]
  {
    seq(n, _ => false)
  }

  /** OR of the visbits of the portals in list lp. */
  function OrVisbits(ps: seq<Portal>, lp: seq<nat>, n: nat): (r: seq<bool>)
    requires forall j :: 0 <= j < |lp| ==> lp[j] < |ps| && |ps[lp[j]].visbits| == n
    ensures |r| == n
  {
    if lp == [] then Zeros(n)
    else OrRows(OrVisbits(ps, lp[..|lp| - 1], n), ps[lp[|lp| - 1]].visbits)
  }

  /** The cluster's row: the OR of its portals' visbits plus its own bit. */
  function ClusterRow(ps: seq<Portal>, lp: seq<nat>, c: nat, n: nat): (r: seq<bool>)
    requires c < n
    requires forall j :: 0 <= j < |lp| ==> lp[j] < |ps| && |ps[lp[j]].visbits| == n
    ensures |r| == n
  {
    OrVisbits(ps, lp, n)[c := true]
  }

  lemma {:induction false} OrVisbitsMeaning(ps: seq<Portal>, lp: seq<nat>, n: nat, x: nat)
    requires forall j :: 0 <= j < |lp| ==> lp[j] < |ps| && |ps[lp[j]].visbits| == n
    requires x < n
    ensures OrVisbits(ps, lp, n)[x] <==> exists j :: 0 <= j < |lp| && ps[lp[j]].visbits[x]
  {
    if lp != [] {
      var k := |lp| - 1;
      var init := lp[..k];
      OrVisbitsMeaning(ps, init, n, x);
      assert OrVisbits(ps, lp, n)[x] == (OrVisbits(ps, init, n)[x] || ps[lp[k]].visbits[x]);
      if OrVisbits(ps, init, n)[x] {
        var j :| 0 <= j < |init| && ps[init[j]].visbits[x];
        assert lp[j] == init[j];
      }
      if exists j :: 0 <= j < |lp| && ps[lp[j]].visbits[x] {
        var j :| 0 <= j < |lp| && ps[lp[j]].visbits[x];
        if j < k {
          assert init[j] == lp[j];
          assert OrVisbits(ps, init, n)[x];
        }
      }
    }
  }

  /** A cluster sees itself, and sees x exactly when one of its portals does. */
  lemma ClusterRowMeaning(ps: seq<Portal>, lp: seq<nat>, c: nat, n: nat, x: nat)
    requires c < n && x < n
    requires forall j :: 0 <= j < |lp| ==> lp[j] < |ps| && |ps[lp[j]].visbits| == n
    ensures ClusterRow(ps, lp, c, n)[x] <==> x == c || exists j :: 0 <= j < |lp| && ps[lp[j]].visbits[x]
  {
    OrVisbitsMeaning(ps, lp, n, x);
  }

  /** The cluster row expanded to output leaves: in Quake II the row itself; else
      real leaf i takes the bit of its cluster. */
  function ExpandRow(buffer: seq<bool>, isQ2: bool, clusterOf: seq<int>): (r: seq<bool>)
    requires !isQ2 ==> forall i :: 0 <= i < |clusterOf| ==> 0 <= clusterOf[i] < |buffer|
    ensures |r| == if isQ2 then |buffer| else |clusterOf|
    ensures !isQ2 ==> forall i :: 0 <= i < |r| ==> r[i] == buffer[clusterOf[i]]
  {
    if isQ2 then buffer else seq(|clusterOf|, i requires 0 <= i < |clusterOf| => buffer[clusterOf[i]])
  }

  function CountCluster(clusterOf: seq<int>, c: int): nat
  {
    if clusterOf == [] then 0
    else CountCluster(clusterOf[..|clusterOf| - 1], c) + (if clusterOf[|clusterOf| - 1] == c then 1 else 0)
  }

  /** The row ClusterFlow ORs into cluster c's uncompressed row: the cluster's
      portals' visbits plus its own bit, expanded to output leaves. */
  function FlowRow(ps: seq<Portal>, leafs: seq<Leaf>, c: nat, isQ2: bool, clusterOf: seq<int>): (row: seq<bool>)
    requires WellFormed(ps, leafs) && c < |leafs|
    requires forall i :: 0 <= i < |clusterOf| ==> 0 <= clusterOf[i] < |leafs|
    ensures |row| == if isQ2 then |leafs| else |clusterOf|
  {
    ExpandRow(ClusterRow(ps, leafs[c].portals, c, |leafs|), isQ2, clusterOf)
  }

  /** The real-leaf loop counting the leaves of cluster c. */
  method CountMembers(clusterOf: seq<int>, c: int) returns (m: nat)
    ensures m == CountCluster(clusterOf, c)
  {
    m := 0;
    var i := 0;
    while i < |clusterOf|
      invariant 0 <= i <= |clusterOf|
      invariant m == CountCluster(clusterOf[..i], c)
    {
      assert clusterOf[..i + 1][..i] == clusterOf[..i];
      if clusterOf[i] == c {
        m := m + 1;
      }
      i := i + 1;
    }
    assert clusterOf[..|clusterOf|] == clusterOf;
  }

  /** Every real leaf of cluster c gets visofs v; the others keep theirs. */
  function PointCluster(visofs: seq<int>, clusterOf: seq<int>, c: int, v: int): (r: seq<int>)
    requires |visofs| == |clusterOf|
    ensures |r| == |visofs|
  {
    seq(|clusterOf|, i requires 0 <= i < |clusterOf| => if clusterOf[i] == c then v else visofs[i])
  }

  // ---------------------------------------------------------------------------
  // Graph construction (LoadPortals)

  /** ((portalleafs + 63) & ~63) >> 3: bytes of a row padded to whole 64-bit words. */
  function LeafBytes(n: nat): (b: nat)
    ensures b % 8 == 0 && n <= 8 * b < n + 64
  {
    ((n + 63) / 64) * 8
  }

  /** A directed portal as LoadPortals leaves it; its bit rows are sized for
      nbits leaves and still clear. */
  function BlankPortal(plane: Plane, leaf: int, w: Winding, nbits: nat): Portal
  {
    Portal(plane, leaf, w, PstatNone, Zeros(nbits), Zeros(nbits), 0, 0)
  }

  /** Directed portal 2n+0: registered on leafnums[0], flows into leafnums[1], negated plane. */
  function ForwardPortal(f: FilePortal, planeOf: seq<Point> -> Plane, length: Point -> real, nbits: nat): Portal
    requires |f.winding| > 0
  {
    BlankPortal(NegatePlane(planeOf(f.winding)), f.leaf1, MakeWinding(f.winding, length), nbits)
  }

  /** Directed portal 2n+1: registered on leafnums[1], flows into leafnums[0], flipped winding. */
  function BackwardPortal(f: FilePortal, planeOf: seq<Point> -> Plane, length: Point -> real, nbits: nat): Portal
    requires |f.winding| > 0
  {
    BlankPortal(planeOf(f.winding), f.leaf0, MakeWinding(Reverse(f.winding), length), nbits)
  }

  lemma NegatePlaneInvolution(p: Plane)
    ensures NegatePlane(NegatePlane(p)) == p
  {
  }

  /** The two directed portals of a file portal are mirror images: opposite
      planes, reversed vertex order, swapped neighbor leaves. */
  lemma PortalPairMirrored(f: FilePortal, planeOf: seq<Point> -> Plane, length: Point -> real, nbits: nat)
    requires |f.winding| > 0
    ensures var fw := ForwardPortal(f, planeOf, length, nbits);
            var bw := BackwardPortal(f, planeOf, length, nbits);
            fw.plane == NegatePlane(bw.plane) && bw.plane == NegatePlane(fw.plane) &&
            bw.winding.points == Reverse(fw.winding.points) && fw.winding.points == Reverse(bw.winding.points) &&
            fw.leaf == f.leaf1 && bw.leaf == f.leaf0
  {
    NegatePlaneInvolution(planeOf(f.winding));
    assert Reverse(Reverse(f.winding)) == f.winding;
  }

  /** The directed portal indices registered on leaf l by the first |fs| file portals, in order. */
  function Registered(fs: seq<FilePortal>, l: int): (r: seq<nat>)
    ensures forall j :: 0 <= j < |r| ==> r[j] < 2 * |fs|
  {
    if fs == [] then []
    else
      var n := |fs| - 1;
      Registered(fs[..n], l) + (if fs[n].leaf0 == l then [2 * n] else []) + (if fs[n].leaf1 == l then [2 * n + 1] else [])
  }

  /** The leaf a directed portal is registered on (the one it flows out of). */
  function SourceLeaf(fs: seq<FilePortal>, k: nat): int
    requires k < 2 * |fs|
  {
    if k % 2 == 0 then fs[k / 2].leaf0 else fs[k / 2].leaf1
  }

  /** Each directed portal is registered on exactly the leaf it flows out of. */
  lemma {:induction false} RegisteredExactly(fs: seq<FilePortal>, l: int, k: nat)
    ensures k in Registered(fs, l) <==> k < 2 * |fs| && SourceLeaf(fs, k) == l
  {
    if fs != [] {
      var n := |fs| - 1;
      RegisteredExactly(fs[..n], l, k);
      if k < 2 * n {
        assert SourceLeaf(fs[..n], k) == SourceLeaf(fs, k);
      }
    }
  }

  function ZeroRows(n: nat, width: nat): (r: seq<seq<bool>>)
    ensures |r| == n && forall i :: 0 <= i < n ==> r[i] == Zeros(width)
  {
    seq(n, _ => Zeros(width))
  }

  /** The graph LoadPortals builds: file portal n becomes portal 2n flowing
      from its first leaf into its second and portal 2n+1 the reverse, and each
      leaf lists the portals registered on it, in file order. */
  ghost predicate LoadedGraph(fs: seq<FilePortal>, portalleafs: nat, planeOf: seq<Point> -> Plane,
                              length: Point -> real, ps: seq<Portal>, lf: seq<Leaf>)
  {
    && |ps| == 2 * |fs| && |lf| == portalleafs && WellFormed(ps, lf) && Counted(ps)
    && (forall l :: 0 <= l < portalleafs ==> lf[l].portals == Registered(fs, l))
    && (forall n :: 0 <= n < |fs| ==>
          |fs[n].winding| > 0 &&
          ps[2 * n] == ForwardPortal(fs[n], planeOf, length, portalleafs) &&
          ps[2 * n + 1] == BackwardPortal(fs[n], planeOf, length, portalleafs))
  }

  /** The cluster tables of n leaves: one row and one offset per cluster,
      one cluster per real leaf. */
  ghost predicate TablesFit(n: nat, isQ2: bool, clusterOf: seq<int>, uncompressed: seq<seq<bool>>,
                            pvsOffsets: seq<int>, leafVisofs: seq<int>)
  {
    |uncompressed| == n && |pvsOffsets| == n && |leafVisofs| == |clusterOf| &&
    (forall i :: 0 <= i < |clusterOf| ==> 0 <= clusterOf[i] < n) &&
    (forall c :: 0 <= c < n ==> |uncompressed[c]| == if isQ2 then n else |clusterOf|)
  }

  /** The tables LoadPortals sets up fit the leaves it loaded. */
  lemma LoadedTablesFit(n: nat, isQ2: bool, clusters: seq<int>, visofs0: seq<int>)
    requires !isQ2 ==> |visofs0| == |clusters| && forall i :: 0 <= i < |clusters| ==> 0 <= clusters[i] < n
    ensures TablesFit(n, isQ2, if isQ2 then [] else clusters, ZeroRows(n, if isQ2 then n else |clusters|),
                      seq(n, _ => 0), if isQ2 then [] else visofs0)
  {
  }

  /** The portal loop of LoadPortals, building the directed portals and the
      per-leaf portal lists. */
  method BuildGraph(fs: seq<FilePortal>, portalleafs: nat, planeOf: seq<Point> -> Plane, length: Point -> real)
    returns (r: Fallible<(seq<Portal>, seq<Leaf>)>)
    requires forall n :: 0 <= n < |fs| ==>
               |fs[n].winding| > 0 && 0 <= fs[n].leaf0 < portalleafs && 0 <= fs[n].leaf1 < portalleafs
    ensures r.Fatal? <==> exists l :: 0 <= l < portalleafs && |Registered(fs, l)| > MAX_PORTALS_ON_LEAF
    ensures r.Ok? ==> |r.value.0| == 2 * |fs| && |r.value.1| == portalleafs
    ensures r.Ok? ==> forall l :: 0 <= l < portalleafs ==> r.value.1[l].portals == Registered(fs, l)
    ensures r.Ok? ==> forall n :: 0 <= n < |fs| ==>
              r.value.0[2 * n] == ForwardPortal(fs[n], planeOf, length, portalleafs) &&
              r.value.0[2 * n + 1] == BackwardPortal(fs[n], planeOf, length, portalleafs)
  {
    var ps: seq<Portal> := [];
    var lf: seq<Leaf> := seq(portalleafs, _ => Leaf([]));
    var n := 0;
    while n < |fs|
      invariant 0 <= n <= |fs| && |ps| == 2 * n && |lf| == portalleafs
      invariant forall m :: 0 <= m < n ==>
                  ps[2 * m] == ForwardPortal(fs[m], planeOf, length, portalleafs) &&
                  ps[2 * m + 1] == BackwardPortal(fs[m], planeOf, length, portalleafs)
      invariant forall l :: 0 <= l < portalleafs ==>
                  lf[l].portals == Registered(fs[..n], l) && |Registered(fs[..n], l)| <= MAX_PORTALS_ON_LEAF
    {
      var next := RegisterPair(fs, n, portalleafs, lf);
      if next.Fatal? {
        return Fatal(next.msg);
      }
      lf := next.value;
      ps := ps + [ForwardPortal(fs[n], planeOf, length, portalleafs), BackwardPortal(fs[n], planeOf, length, portalleafs)];
      n := n + 1;
    }
    assert fs[..|fs|] == fs;
    return Ok((ps, lf));
  }

  /** One iteration of the LoadPortals loop on the leaf lists: directed portal
      2n joins leaf leafnums[0], then 2n+1 joins leafnums[1], each failing on a
      full leaf. */
  method RegisterPair(fs: seq<FilePortal>, n: nat, portalleafs: nat, lf: seq<Leaf>) returns (r: Fallible<seq<Leaf>>)
    requires n < |fs| && 0 <= fs[n].leaf0 < portalleafs && 0 <= fs[n].leaf1 < portalleafs && |lf| == portalleafs
    requires forall l :: 0 <= l < portalleafs ==>
               lf[l].portals == Registered(fs[..n], l) && |Registered(fs[..n], l)| <= MAX_PORTALS_ON_LEAF
    ensures r.Fatal? ==> exists l :: 0 <= l < portalleafs && |Registered(fs, l)| > MAX_PORTALS_ON_LEAF
    ensures r.Ok? ==> |r.value| == portalleafs && forall l :: 0 <= l < portalleafs ==>
               r.value[l].portals == Registered(fs[..n + 1], l) && |Registered(fs[..n + 1], l)| <= MAX_PORTALS_ON_LEAF
  {
    var f := fs[n];
    if |lf[f.leaf0].portals| == MAX_PORTALS_ON_LEAF {
      TooManyOnLeaf(fs, n, f.leaf0);
      return Fatal("Leaf with too many portals");
    }
    var lf1 := lf[f.leaf0 := Leaf(lf[f.leaf0].portals + [2 * n])];
    if |lf1[f.leaf1].portals| == MAX_PORTALS_ON_LEAF {
      TooManyOnLeaf(fs, n, f.leaf1);
      return Fatal("Leaf with too many portals");
    }
    var lf2 := lf1[f.leaf1 := Leaf(lf1[f.leaf1].portals + [2 * n + 1])];
    forall l | 0 <= l < portalleafs
      ensures lf2[l].portals == Registered(fs[..n + 1], l) && |Registered(fs[..n + 1], l)| <= MAX_PORTALS_ON_LEAF
    {
      RegisteredStep(fs, n, l);
    }
    return Ok(lf2);
  }

  lemma RegisteredStep(fs: seq<FilePortal>, n: nat, l: int)
    requires n < |fs|
    ensures Registered(fs[..n + 1], l) == Registered(fs[..n], l) + (if fs[n].leaf0 == l then [2 * n] else []) +
                                          (if fs[n].leaf1 == l then [2 * n + 1] else [])
  {
    assert fs[..n + 1][..n] == fs[..n];
  }

  /** A leaf found full while registering file portal n ends up with more than
      MAX_PORTALS_ON_LEAF portals once all portals are registered. */
  lemma TooManyOnLeaf(fs: seq<FilePortal>, n: nat, l: int)
    requires n < |fs|
    requires |Registered(fs[..n], l)| + (if fs[n].leaf0 == l then 1 else 0) + (if fs[n].leaf1 == l then 1 else 0) > MAX_PORTALS_ON_LEAF
    ensures |Registered(fs, l)| > MAX_PORTALS_ON_LEAF
  {
    RegisteredStep(fs, n, l);
    RegisteredGrows(fs, n + 1, l);
  }

  /** The graph LoadPortals builds is well formed and every nummightsee is the
      popcount of its (still clear) mightsee. */
  lemma LoadedWellFormed(fs: seq<FilePortal>, portalleafs: nat, planeOf: seq<Point> -> Plane,
                         length: Point -> real, ps: seq<Portal>, lf: seq<Leaf>)
    requires forall n :: 0 <= n < |fs| ==>
               |fs[n].winding| > 0 && 0 <= fs[n].leaf0 < portalleafs && 0 <= fs[n].leaf1 < portalleafs
    requires |ps| == 2 * |fs| && |lf| == portalleafs
    requires forall m :: 0 <= m < |fs| ==>
               ps[2 * m] == ForwardPortal(fs[m], planeOf, length, portalleafs) &&
               ps[2 * m + 1] == BackwardPortal(fs[m], planeOf, length, portalleafs)
    requires forall l :: 0 <= l < portalleafs ==> lf[l].portals == Registered(fs, l)
    ensures WellFormed(ps, lf) && Counted(ps)
  {
    forall k | 0 <= k < |ps|
      ensures |ps[k].mightsee| == |lf| && |ps[k].visbits| == |lf| && 0 <= ps[k].leaf < |lf|
      ensures ps[k].nummightsee == Count(ps[k].mightsee)
    {
      var m := k / 2;
      if k % 2 == 0 {
        assert k == 2 * m;
        assert ps[k] == ForwardPortal(fs[m], planeOf, length, portalleafs);
      } else {
        assert k == 2 * m + 1;
        assert ps[k] == BackwardPortal(fs[m], planeOf, length, portalleafs);
      }
      CountZeroOf(ps[k].mightsee);
    }
  }

  lemma {:induction false} RegisteredGrows(fs: seq<FilePortal>, i: nat, l: int)
    requires i <= |fs|
    ensures |Registered(fs[..i], l)| <= |Registered(fs, l)|
    decreases |fs| - i
  {
    if i < |fs| {
      RegisteredGrows(fs, i + 1, l);
      assert fs[..i + 1][..i] == fs[..i];
    } else {
      assert fs[..i] == fs;
    }
  }

  /** The visdata holds row at offset off. */
  ghost predicate Holds(vm: seq<byte>, off: int, row: seq<byte>)
  {
    0 <= off && off + |row| <= |vm| && vm[off..off + |row|] == row
  }

  lemma HoldsGrows(vm: seq<byte>, ext: seq<byte>, off: int, row: seq<byte>)
    requires Holds(vm, off, row)
    ensures Holds(vm + ext, off, row)
  {
    assert (vm + ext)[off..off + |row|] == vm[off..off + |row|];
  }

  lemma HoldsAppended(vm: seq<byte>, row: seq<byte>)
    ensures Holds(vm + row, |vm|, row)
  {
    assert (vm + row)[|vm|..|vm| + |row|] == row;
  }

  // ---------------------------------------------------------------------------
  // The vis globals and the operations that update them

  class VisState {
    var portals: seq<Portal>      // always numportals * 2; front and back
    var leafs: seq<Leaf>
    var numportals: nat
    var isQ2: bool
    var clusterOf: seq<int>       // dleafs[i + 1].cluster for real leaf i
    var uncompressed: seq<seq<bool>>  // one expanded row per cluster
    var pvsOffsets: seq<int>      // dvis bit offset (VIS_PVS) per cluster
    var leafVisofs: seq<int>      // dleafs[i + 1].visofs for real leaf i
    var vismap: seq<byte>
    var totalvis: int
    var cNoclip: int

    /** The portal graph: bit rows sized by the leaf count, indices in range,
        two directed portals per file portal. */
    ghost predicate Graph()
      reads this`portals, this`leafs, this`numportals
    {
      WellFormed(portals, leafs) && |portals| == 2 * numportals
    }

    /** The cluster tables: one row and one offset per cluster, one cluster
        per real leaf. */
    ghost predicate Rows()
      reads this`leafs, this`isQ2, this`clusterOf, this`uncompressed, this`pvsOffsets, this`leafVisofs
    {
      TablesFit(|leafs|, isQ2, clusterOf, uncompressed, pvsOffsets, leafVisofs)
    }

    ghost predicate Valid()
      reads this
    {
      Graph() && Rows()
    }

    constructor (isQ2: bool)
      ensures Valid() && this.isQ2 == isQ2
      ensures portals == [] && leafs == [] && vismap == [] && cNoclip == 0
    {
      this.isQ2 := isQ2;
      portals, leafs, numportals := [], [], 0;
      clusterOf, uncompressed, pvsOffsets, leafVisofs := [], [], [], [];
      vismap, totalvis, cNoclip := [], 0, 0;
    }

    /** ClipStackWinding: clip the winding behind `inw` (a live pointer) to the
        front of split, reusing or freeing pool slots. */
    method ClipStackWinding(inw: WRef, stack: PStack, split: Plane)
      returns (r: Fallible<WRef>)
      requires stack.Valid() && !inw.Null?
      requires inw.InPool? ==> PoolOwned(inw) && stack.used[inw.offset]
      modifies stack.windings, stack.used, this`cNoclip
      ensures stack.Valid()
      ensures ClipOutcome(Classify(old(stack.Deref(inw)), split), inw, old(stack.Deref(inw)),
                          old(stack.windings[..]), old(stack.used[..]), old(cNoclip),
                          r, stack.windings[..], stack.used[..], cNoclip)
    {
      var w := stack.Deref(inw);
      ghost var kind := Classify(w, split);
      // fast test first
      var dot := DistanceTo(split, w.origin);
      if dot < -w.radius {
        assert kind == FastBack;
        var _ := stack.Free(inw);
        return Ok(Null);
      } else if dot > w.radius {
        assert kind == FastFront;
        return Ok(inw);
      }
      if |w.points| > MAX_WINDING {
        assert kind == TooManyPoints;
        return Fatal("in->numpoints > MAX_WINDING");
      }
      var dists := Dists(w.points, split);
      var sides := Sides(dists);
      var front, back, on := CountSides(sides);
      ClassifyByCounts(w, split, sides, front, back, on);
      if on == |w.points| {
        return Ok(inw);
      }
      if front == 0 {
        var _ := stack.Free(inw);
        return Ok(Null);
      }
      if back == 0 {
        return Ok(inw);
      }
      r := ClipIntoPool(inw, stack, w, dists, split);
    }

    /** The clipping half of ClipStackWinding, once the winding is known to
        straddle split: the clipped points go to a fresh pool slot. */
    method ClipIntoPool(inw: WRef, stack: PStack, w: Winding, dists: seq<real>, split: Plane)
      returns (r: Fallible<WRef>)
      requires stack.Valid() && !inw.Null?
      requires inw.InPool? ==> PoolOwned(inw) && stack.used[inw.offset]
      requires w == stack.Deref(inw) && |w.points| <= MAX_WINDING && dists == Dists(w.points, split)
      requires var e := Clipped(w.points, dists, split);
        Classify(w, split) == if |e| > MAX_WINDING_FIXED then Overflow(e[..MAX_WINDING_FIXED]) else Split(e)
      modifies stack.windings, stack.used, this`cNoclip
      ensures stack.Valid()
      ensures ClipOutcome(Classify(w, split), inw, w,
                          old(stack.windings[..]), old(stack.used[..]), old(cNoclip),
                          r, stack.windings[..], stack.used[..], cNoclip)
    {
      ghost var kind := Classify(w, split);
      var a := stack.Alloc();
      if a.Fatal? {
        return Fatal(a.msg);
      }
      var j := a.value;
      var acc, noclip := WalkClip(w.points, dists, split);
      stack.windings[j] := Winding(acc, w.origin, w.radius);
      if noclip {
        assert kind == Overflow(acc);
        var _ := stack.Free(InPool(j));
        cNoclip := cNoclip + 1;
        return Ok(inw);
      }
      assert kind == Split(acc);
      var _ := stack.Free(inw);
      return Ok(InPool(j));
    }

    /** GetNextPortal: the cheapest unprocessed portal is marked working and
        returned; null when none remains. */
    method GetNextPortal() returns (ret: Option<nat>)
      modifies this`portals
      ensures ret.None? <==> forall i :: 0 <= i < |old(portals)| ==> !Candidate(old(portals)[i])
      ensures ret.None? ==> portals == old(portals)
      ensures ret.Some? ==> IsCheapest(old(portals), ret.value) &&
                            portals == old(portals)[ret.value := old(portals)[ret.value].(status := PstatWorking)]
    {
      ret := ScanCheapest(portals);
      if ret.Some? {
        portals := portals[ret.value := portals[ret.value].(status := PstatWorking)];
      }
    }

    /** UpdateMightsee(source, dest): clears bit dest in the unprocessed portals of leaf source. */
    method UpdateMightsee(source: nat, dest: nat)
      requires Graph() && source < |leafs| && dest < |leafs|
      modifies this`portals
      ensures Graph()
      ensures portals == UpdateMightseeSpec(old(portals), leafs[source].portals, dest)
    {
      ghost var ps0 := portals;
      var list := leafs[source].portals;
      var i := 0;
      while i < |list|
        invariant 0 <= i <= |list|
        invariant portals == UpdateMightseeSpec(ps0, list[..i], dest)
        invariant WellFormed(portals, leafs) && |portals| == 2 * numportals
      {
        assert list[..i + 1][..i] == list[..i];
        var k := list[i];
        if portals[k].status == PstatNone && portals[k].mightsee[dest] {
          portals := portals[k := ClearMight(portals[k], dest)];
        }
        i := i + 1;
      }
      assert list[..|list|] == list;
    }

    /** PortalCompleted: mark portal c done and propagate the eliminations it
        proved to the complementary portals. */
    method PortalCompleted(c: nat)
      requires Graph() && c < |portals|
      modifies this`portals
      ensures Graph()
      ensures portals == PortalCompletedSpec(old(portals), leafs, c)
    {
      var my := portals[c].leaf;
      MarkWellFormed(portals, leafs, c, PstatDone);
      portals := portals[c := portals[c].(status := PstatDone)];
      PropagateLeaf(my);
    }

    /** The portal loop of PortalCompleted over the leaf my. */
    method PropagateLeaf(my: nat)
      requires Graph() && my < |leafs|
      modifies this`portals
      ensures Graph()
      ensures portals == PropagatePortals(old(portals), leafs, my, |leafs[my].portals|)
    {
      ghost var ps0 := portals;
      var lp := leafs[my].portals;
      var i := 0;
      while i < |lp|
        invariant 0 <= i <= |lp|
        invariant Graph()
        invariant portals == PropagatePortals(ps0, leafs, my, i)
      {
        if portals[lp[i]].status == PstatDone {
          PropagateFrom(my, i);
        }
        i := i + 1;
      }
    }

    /** The bit scan of PortalCompleted for the done portal at position i of leaf my. */
    method PropagateFrom(my: nat, i: nat)
      requires Graph() && my < |leafs| && i < |leafs[my].portals|
      modifies this`portals
      ensures Graph()
      ensures portals == PropagateBits(old(portals), leafs, my, i, |leafs|)
    {
      ghost var ps0 := portals;
      var lp := leafs[my].portals;
      var b := 0;
      while b < |leafs|
        invariant 0 <= b <= |leafs|
        invariant Graph()
        invariant portals == PropagateBits(ps0, leafs, my, i, b)
      {
        if Changed(portals, lp, i, b) {
          UpdateMightsee(b, my);
        }
        b := b + 1;
      }
    }

    /** LoadPortals: each file portal becomes two directed portals, 2n flowing
        from leafnums[0] into leafnums[1] and 2n+1 the reverse, each registered on
        the leaf it flows out of; a leaf already holding MAX_PORTALS_ON_LEAF
        portals is fatal. Outside Quake II the real leaves take their clusters
        from the portal file. The leaf numbers are assumed validated by the
        portal file reader. The cluster rows and offsets are reset as the
        caller sizes them right after loading. */
    method LoadPortals(fs: seq<FilePortal>, portalleafs: nat, clusters: seq<int>, visofs0: seq<int>,
                       planeOf: seq<Point> -> Plane, length: Point -> real) returns (r: Fallible<()>)
      requires forall n :: 0 <= n < |fs| ==>
                 |fs[n].winding| > 0 && 0 <= fs[n].leaf0 < portalleafs && 0 <= fs[n].leaf1 < portalleafs
      requires !isQ2 ==> |visofs0| == |clusters| && forall i :: 0 <= i < |clusters| ==> 0 <= clusters[i] < portalleafs
      modifies this`portals, this`leafs, this`numportals, this`clusterOf, this`leafVisofs,
               this`uncompressed, this`pvsOffsets
      ensures r.Fatal? <==> exists l :: 0 <= l < portalleafs && |Registered(fs, l)| > MAX_PORTALS_ON_LEAF
      ensures r.Ok? ==> Valid() && numportals == |fs| && LoadedGraph(fs, portalleafs, planeOf, length, portals, leafs)
      ensures r.Ok? ==> clusterOf == (if isQ2 then [] else clusters) &&
                        leafVisofs == (if isQ2 then [] else visofs0) &&
                        uncompressed == ZeroRows(portalleafs, if isQ2 then portalleafs else |clusters|) &&
                        pvsOffsets == seq(portalleafs, _ => 0)
    {
      var g := BuildGraph(fs, portalleafs, planeOf, length);
      if g.Fatal? {
        return Fatal(g.msg);
      }
      var (ps, lf) := g.value;
      LoadedWellFormed(fs, portalleafs, planeOf, length, ps, lf);
      assert LoadedGraph(fs, portalleafs, planeOf, length, ps, lf);
      LoadedTablesFit(portalleafs, isQ2, clusters, visofs0);
      Install(ps, lf, |fs|, if isQ2 then [] else clusters, if isQ2 then [] else visofs0,
              ZeroRows(portalleafs, if isQ2 then portalleafs else |clusters|), seq(portalleafs, _ => 0));
      return Ok(());
    }

    /** The loaded graph and tables become the state. */
    method Install(ps: seq<Portal>, lf: seq<Leaf>, n: nat, co: seq<int>, lv: seq<int>, un: seq<seq<bool>>, pv: seq<int>)
      requires WellFormed(ps, lf) && |ps| == 2 * n && TablesFit(|lf|, isQ2, co, un, pv, lv)
      modifies this`portals, this`leafs, this`numportals, this`clusterOf, this`leafVisofs,
               this`uncompressed, this`pvsOffsets
      ensures Valid()
      ensures portals == ps && leafs == lf && numportals == n
      ensures clusterOf == co && leafVisofs == lv && uncompressed == un && pvsOffsets == pv
    {
      portals, leafs, numportals := ps, lf, n;
      clusterOf, leafVisofs, uncompressed, pvsOffsets := co, lv, un, pv;
    }

    /** The collection loop of ClusterFlow: the OR of the visbits of the portals
        of leaf c, failing on the first portal that is not done. */
    method CollectVisbits(c: nat) returns (r: Fallible<seq<bool>>)
      requires Valid() && c < |leafs|
      ensures r.Fatal? <==> exists j :: 0 <= j < |leafs[c].portals| && portals[leafs[c].portals[j]].status != PstatDone
      ensures r.Ok? ==> r.value == OrVisbits(portals, leafs[c].portals, |leafs|)
    {
      var lp := leafs[c].portals;
      var buffer := Zeros(|leafs|);
      var i := 0;
      while i < |lp|
        invariant 0 <= i <= |lp|
        invariant buffer == OrVisbits(portals, lp[..i], |leafs|)
        invariant forall j :: 0 <= j < i ==> portals[lp[j]].status == PstatDone
      {
        if portals[lp[i]].status != PstatDone {
          return Fatal("portal not done");
        }
        assert lp[..i + 1][..i] == lp[..i];
        buffer := OrRows(buffer, portals[lp[i]].visbits);
        i := i + 1;
      }
      assert lp[..|lp|] == lp;
      return Ok(buffer);
    }

    /** ClusterFlow: OR the visbits of the cluster's portals, set its own bit,
        expand to output leaves, and append the compressed row to the blob,
        recording the blob length before the append as the row's offset. */
    method ClusterFlow(c: nat, compress: seq<bool> -> seq<byte>) returns (r: Fallible<int>)
      requires Valid() && c < |leafs|
      modifies this`uncompressed, this`pvsOffsets, this`leafVisofs, this`vismap, this`totalvis
      ensures Valid()
      ensures r.Fatal? <==> exists j :: 0 <= j < |leafs[c].portals| && portals[leafs[c].portals[j]].status != PstatDone
      ensures r.Fatal? ==> uncompressed == old(uncompressed) && pvsOffsets == old(pvsOffsets) &&
                           leafVisofs == old(leafVisofs) && vismap == old(vismap) && totalvis == old(totalvis)
      ensures r.Ok? ==> r.value == |old(vismap)| && pvsOffsets == old(pvsOffsets)[c := |old(vismap)|]
      ensures r.Ok? ==> uncompressed == old(uncompressed)[c := OrRows(old(uncompressed[c]), FlowRow(portals, leafs, c, isQ2, clusterOf))]
      ensures r.Ok? ==> vismap == old(vismap) + compress(uncompressed[c])
      ensures r.Ok? ==> leafVisofs == if isQ2 then old(leafVisofs) else PointCluster(old(leafVisofs), clusterOf, c, |old(vismap)|)
      ensures r.Ok? && isQ2 ==> totalvis == old(totalvis) + Count(FlowRow(portals, leafs, c, isQ2, clusterOf))
      ensures r.Ok? && !isQ2 ==> totalvis == old(totalvis) + Count(FlowRow(portals, leafs, c, isQ2, clusterOf)) * CountCluster(clusterOf, c)
    {
      var collected := CollectVisbits(c);
      if collected.Fatal? {
        return Fatal(collected.msg);
      }
      var buffer := collected.value[c := true];
      var row := ExpandRow(buffer, isQ2, clusterOf);
      assert row == FlowRow(portals, leafs, c, isQ2, clusterOf);
      var visofs := EmitRow(c, row, compress);
      return Ok(visofs);
    }

    /** The expansion, accounting and append steps of ClusterFlow for an
        already expanded row. */
    method EmitRow(c: nat, row: seq<bool>, compress: seq<bool> -> seq<byte>) returns (visofs: int)
      requires Valid() && c < |leafs| && |row| == |uncompressed[c]|
      modifies this`uncompressed, this`pvsOffsets, this`leafVisofs, this`vismap, this`totalvis
      ensures Valid()
      ensures visofs == |old(vismap)| && pvsOffsets == old(pvsOffsets)[c := |old(vismap)|]
      ensures uncompressed == old(uncompressed)[c := OrRows(old(uncompressed[c]), row)]
      ensures vismap == old(vismap) + compress(uncompressed[c])
      ensures leafVisofs == if isQ2 then old(leafVisofs) else PointCluster(old(leafVisofs), clusterOf, c, |old(vismap)|)
      ensures isQ2 ==> totalvis == old(totalvis) + Count(row)
      ensures !isQ2 ==> totalvis == old(totalvis) + Count(row) * CountCluster(clusterOf, c)
    {
      var numvis := Count(row);
      var out := OrRows(uncompressed[c], row);
      uncompressed := uncompressed[c := out];
      if isQ2 {
        totalvis := totalvis + numvis;
      } else {
        var members := CountMembers(clusterOf, c);
        totalvis := totalvis + numvis * members;
      }
      var compressed := compress(out);
      visofs := |vismap|;
      pvsOffsets := pvsOffsets[c := visofs];
      if !isQ2 {
        leafVisofs := PointCluster(leafVisofs, clusterOf, c, visofs);
      }
      vismap := vismap + compressed;
    }

    /** The assembly loop of CalcVis: every cluster's offset then points at its
        compressed row inside the blob, which only grew. */
    method AssembleClusters(compress: seq<bool> -> seq<byte>) returns (r: Fallible<()>)
      requires Valid()
      modifies this`uncompressed, this`pvsOffsets, this`leafVisofs, this`vismap, this`totalvis
      ensures Valid()
      ensures old(vismap) <= vismap
      ensures r.Ok? ==> forall c :: 0 <= c < |leafs| ==>
        0 <= pvsOffsets[c] && pvsOffsets[c] + |compress(uncompressed[c])| <= |vismap| &&
        vismap[pvsOffsets[c]..pvsOffsets[c] + |compress(uncompressed[c])|] == compress(uncompressed[c])
    {
      var c := 0;
      while c < |leafs|
        invariant 0 <= c <= |leafs|
        invariant Valid()
        invariant old(vismap) <= vismap
        invariant forall x :: 0 <= x < c ==> Holds(vismap, pvsOffsets[x], compress(uncompressed[x]))
      {
        ghost var before := vismap;
        ghost var offs := pvsOffsets;
        ghost var rows := uncompressed;
        var res := ClusterFlow(c, compress);
        if res.Fatal? {
          return Fatal(res.msg);
        }
        var row := compress(uncompressed[c]);
        forall x | 0 <= x < c
          ensures Holds(vismap, pvsOffsets[x], compress(uncompressed[x]))
        {
          assert pvsOffsets[x] == offs[x] && uncompressed[x] == rows[x];
          HoldsGrows(before, row, offs[x], compress(rows[x]));
        }
        HoldsAppended(before, row);
        c := c + 1;
      }
      return Ok(());
    }

    /** CalcPortalVis, run sequentially. In fast mode visbits becomes mightsee and
        every portal is done; otherwise each of the 2 * numportals - startcount
        iterations takes the next portal, runs the flow (an oracle giving its
        visbits) and completes it (LeafThread). Either way every portal ends
        done; otherwise mightsee rows only lose bits, and a portal that was
        already done keeps its visbits. */
    method CalcPortalVis(fast: bool, flow: (seq<Portal>, nat) -> seq<bool>)
      requires Valid() && Counted(portals) && |leafs| < INT_MAX
      requires forall k :: 0 <= k < |portals| ==> portals[k].status != PstatWorking
      requires forall ps: seq<Portal>, k: nat :: |flow(ps, k)| == |leafs|
      modifies this`portals
      ensures Valid()
      ensures forall k :: 0 <= k < |portals| ==> portals[k].status == PstatDone
      ensures fast ==> portals == FastVis(old(portals))
      ensures !fast ==> Progressed(old(portals), portals)
    {
      if fast {
        portals := FastVis(portals);
        return;
      }
      var startcount := CountDone(portals);
      NoneCountComplement(portals);
      var iter := startcount;
      while iter < 2 * numportals
        invariant Valid() && Counted(portals)
        invariant forall k :: 0 <= k < |portals| ==> portals[k].status != PstatWorking
        invariant NoneCount(portals) <= 2 * numportals - iter || NoneCount(portals) == 0
        invariant Progressed(old(portals), portals)
        decreases 2 * numportals - iter
      {
        ghost var prev := portals;
        var _ := LeafThread(flow);
        ProgressedTrans(old(portals), prev, portals);
        iter := iter + 1;
      }
      NoneCountZero(portals);
    }

    /** One LeafThread step: take the cheapest portal, flow it, complete it;
        the portal taken is returned. With no portal left the state is
        unchanged. */
    method LeafThread(flow: (seq<Portal>, nat) -> seq<bool>) returns (p: Option<nat>)
      requires Graph() && Counted(portals) && |leafs| < INT_MAX
      requires forall k :: 0 <= k < |portals| ==> portals[k].status != PstatWorking
      requires forall ps: seq<Portal>, k: nat :: |flow(ps, k)| == |leafs|
      modifies this`portals
      ensures Graph() && Counted(portals)
      ensures forall k :: 0 <= k < |portals| ==> portals[k].status != PstatWorking
      ensures NoneCount(old(portals)) == 0 ==> NoneCount(portals) == 0
      ensures NoneCount(old(portals)) > 0 ==> NoneCount(portals) == NoneCount(old(portals)) - 1
      ensures p.None? <==> forall i :: 0 <= i < |old(portals)| ==> !Candidate(old(portals)[i])
      ensures p.None? ==> portals == old(portals)
      ensures p.Some? ==> IsCheapest(old(portals), p.value)
      ensures p.Some? ==> portals == PortalCompletedSpec(Flowed(old(portals), p.value, flow), leafs, p.value)
      ensures Progressed(old(portals), portals)
    {
      p := GetNextPortal();
      if p.None? {
        NoneCountNoCandidate(portals, |leafs|);
        return;
      }
      var c := p.value;
      ghost var before := old(portals);
      NoneCountMark(before, c);
      portals := portals[c := portals[c].(visbits := flow(portals, c))];
      ghost var mid := portals;
      assert WellFormed(mid, leafs);
      assert Counted(mid);
      assert mid == Flowed(before, c, flow);
      PortalCompleted(c);
      PortalCompletedMonotone(mid, leafs, c);
      NoneCountSameStatus(before[c := before[c].(status := PstatDone)], portals);
    }
  }

  /** The portals after GetNextPortal takes c and the flow gives its visbits:
      c is working, and its visbits are the flow's answer for that state. */
  function Flowed(ps: seq<Portal>, c: nat, flow: (seq<Portal>, nat) -> seq<bool>): (r: seq<Portal>)
    requires c < |ps|
    ensures |r| == |ps| && r[c].status == PstatWorking
    ensures forall k :: 0 <= k < |ps| && k != c ==> r[k] == ps[k]
  {
    var w := ps[c := ps[c].(status := PstatWorking)];
    w[c := w[c].(visbits := flow(w, c))]
  }

  /** b is a later state of the vis pass than a: mightsee rows only lost
      bits, and a portal that was done stays done with its visbits. */
  ghost predicate Progressed(a: seq<Portal>, b: seq<Portal>)
  {
    |a| == |b| &&
    forall k :: 0 <= k < |a| ==>
      Subset(b[k].mightsee, a[k].mightsee) &&
      (a[k].status == PstatDone ==> b[k].status == PstatDone && b[k].visbits == a[k].visbits)
  }

  lemma ProgressedTrans(a: seq<Portal>, b: seq<Portal>, c: seq<Portal>)
    requires Progressed(a, b) && Progressed(b, c)
    ensures Progressed(a, c)
  {
  }

  /** Fast vis: every portal's visbits becomes its mightsee and it is done. */
  function FastVis(ps: seq<Portal>): (r: seq<Portal>)
    ensures |r| == |ps|
    ensures forall k :: 0 <= k < |ps| ==> r[k] == ps[k].(visbits := ps[k].mightsee, status := PstatDone)
  {
    seq(|ps|, k requires 0 <= k < |ps| => ps[k].(visbits := ps[k].mightsee, status := PstatDone))
  }

  function DoneFlags(ps: seq<Portal>): (r: seq<bool>)
    ensures |r| == |ps|
  {
    seq(|ps|, k requires 0 <= k < |ps| => ps[k].status == PstatDone)
  }

  /** The startcount loop of CalcPortalVis. */
  method CountDone(ps: seq<Portal>) returns (n: nat)
    ensures n == Count(DoneFlags(ps))
  {
    n := 0;
    var k := 0;
    while k < |ps|
      invariant 0 <= k <= |ps|
      invariant n == Count(DoneFlags(ps[..k]))
    {
      assert DoneFlags(ps[..k + 1]) == DoneFlags(ps[..k]) + [ps[k].status == PstatDone];
      CountAppend(DoneFlags(ps[..k]), [ps[k].status == PstatDone]);
      if ps[k].status == PstatDone {
        n := n + 1;
      }
      k := k + 1;
    }
    assert ps[..|ps|] == ps;
  }

  // ---------------------------------------------------------------------------
  // Counting helpers for the scheduler loop

  function NoneFlags(ps: seq<Portal>): (r: seq<bool>)
    ensures |r| == |ps| && forall k :: 0 <= k < |ps| ==> (r[k] <==> ps[k].status == PstatNone)
  {
    seq(|ps|, k requires 0 <= k < |ps| => ps[k].status == PstatNone)
  }

  function NoneCount(ps: seq<Portal>): nat { Count(NoneFlags(ps)) }

  lemma {:induction false} CountAllTrue(s: seq<bool>)
    requires Count(s) == |s|
    ensures forall i :: 0 <= i < |s| ==> s[i]
  {
    if s != [] {
      CountAllTrue(s[1..]);
      assert forall i :: 1 <= i < |s| ==> s[i] == s[1..][i - 1];
    }
  }

  lemma {:induction false} CountNotAllTrue(s: seq<bool>)
    requires Count(s) != |s|
    ensures exists i :: 0 <= i < |s| && !s[i]
  {
    if s[0] {
      CountNotAllTrue(s[1..]);
      var i :| 0 <= i < |s[1..]| && !s[1..][i];
      assert !s[i + 1];
    }
  }

  lemma {:induction false} CountZero(s: seq<bool>)
    requires Count(s) == 0
    ensures forall i :: 0 <= i < |s| ==> !s[i]
  {
    if s != [] {
      CountZero(s[1..]);
      assert forall i :: 1 <= i < |s| ==> s[i] == s[1..][i - 1];
    }
  }

  lemma {:induction false} CountPositive(s: seq<bool>)
    requires Count(s) > 0
    ensures exists i :: 0 <= i < |s| && s[i]
  {
    if !s[0] {
      CountPositive(s[1..]);
      var i :| 0 <= i < |s[1..]| && s[1..][i];
      assert s[i + 1];
    }
  }

  lemma {:induction false} CountNegate(s: seq<bool>, t: seq<bool>)
    requires |s| == |t| && forall i :: 0 <= i < |s| ==> s[i] != t[i]
    ensures Count(s) + Count(t) == |s|
  {
    if s != [] {
      CountNegate(s[1..], t[1..]);
    }
  }

  /** With no portal working, the unprocessed ones are exactly the ones not done. */
  lemma NoneCountComplement(ps: seq<Portal>)
    requires forall k :: 0 <= k < |ps| ==> ps[k].status != PstatWorking
    ensures NoneCount(ps) + Count(DoneFlags(ps)) == |ps|
  {
    CountNegate(NoneFlags(ps), DoneFlags(ps));
  }

  lemma NoneCountMark(ps: seq<Portal>, c: nat)
    requires c < |ps| && ps[c].status == PstatNone
    ensures NoneCount(ps[c := ps[c].(status := PstatDone)]) == NoneCount(ps) - 1
  {
    assert NoneFlags(ps[c := ps[c].(status := PstatDone)]) == NoneFlags(ps)[c := false];
    CountClear(NoneFlags(ps), c);
  }

  lemma NoneCountSameStatus(a: seq<Portal>, b: seq<Portal>)
    requires |a| == |b| && forall k :: 0 <= k < |a| ==> a[k].status == b[k].status
    ensures NoneCount(a) == NoneCount(b)
  {
    assert NoneFlags(a) == NoneFlags(b);
  }

  lemma NoneCountNoCandidate(ps: seq<Portal>, n: nat)
    requires Counted(ps) && n < INT_MAX
    requires forall k :: 0 <= k < |ps| ==> |ps[k].mightsee| == n
    requires forall i :: 0 <= i < |ps| ==> !Candidate(ps[i])
    ensures NoneCount(ps) == 0
  {
    forall i | 0 <= i < |ps| ensures !NoneFlags(ps)[i] {
      assert U32(ps[i].nummightsee) == ps[i].nummightsee;
    }
    CountZeroOf(NoneFlags(ps));
  }

  lemma {:induction false} CountZeroOf(s: seq<bool>)
    requires forall i :: 0 <= i < |s| ==> !s[i]
    ensures Count(s) == 0
  {
    if s != [] {
      CountZeroOf(s[1..]);
    }
  }

  lemma NoneCountZero(ps: seq<Portal>)
    requires NoneCount(ps) == 0
    requires forall k :: 0 <= k < |ps| ==> ps[k].status != PstatWorking
    ensures forall k :: 0 <= k < |ps| ==> ps[k].status == PstatDone
  {
    CountZero(NoneFlags(ps));
    assert forall k :: 0 <= k < |ps| ==> !NoneFlags(ps)[k];
  }
}
