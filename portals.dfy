// Building the portals of a qbsp tree: the six portals around the world,
// the portal a node's plane makes, and the splitting of the portals that
// bound a node among its children. Windings are opaque handles; clipping
// and the "tiny" test are oracles passed in.

module Portals {
  import opened Common

  datatype Vec3 = Vec3(x: real, y: real, z: real)

  datatype Plane = Plane(normal: Vec3, dist: real)

  /** A winding handle. Its points are not modelled. */
  datatype Winding = Winding(id: nat)

  /** A node of the tree, stored in an arena. An internal node's children
      come after it in the arena. */
  datatype Node = Node(
    isLeaf: bool,
    front: nat,
    back: nat,
    plane: Plane,
    detailSeparator: bool,
    native: nat,          // native contents bits
    solid: bool,          // is_any_solid for the target game
    occupied: nat,
    brushAreaportals: seq<Option<nat>>)  // per original brush: its func_areaportal entity

  /** A portal under construction: its plane, the node whose plane made it,
      its winding and the nodes on its two sides. */
  datatype BuildPortal = BuildPortal(plane: Plane, onnode: Option<nat>, winding: Winding, n0: nat, n1: nat)

  predicate WellFormed(nodes: seq<Node>)
  {
    forall n :: 0 <= n < |nodes| && !nodes[n].isLeaf ==>
      n < nodes[n].front < |nodes| && n < nodes[n].back < |nodes|
  }

  function Neg(p: Plane): Plane
  {
    Plane(Vec3(-p.normal.x, -p.normal.y, -p.normal.z), -p.dist)
  }

  function Comp(v: Vec3, i: nat): real
    requires i < 3
  {
    if i == 0 then v.x else if i == 1 then v.y else v.z
  }

  function NodeAt(p: BuildPortal, s: nat): nat
  {
    if s == 0 then p.n0 else p.n1
  }

  /** Which side of p the node is on: front when it is nodes[0]. */
  function SideOf(p: BuildPortal, node: nat): Option<nat>
  {
    if p.n0 == node then Some(0) else if p.n1 == node then Some(1) else None
  }

  predicate LinkedTo(p: BuildPortal, node: nat)
  {
    p.n0 == node || p.n1 == node
  }

  // ---------------------------------------------------------------------------
  // MakeHeadnodePortals

  function AxisVec(i: nat, s: real): (v: Vec3)
    requires i < 3
  {
    if i == 0 then Vec3(s, 0.0, 0.0) else if i == 1 then Vec3(0.0, s, 0.0) else Vec3(0.0, 0.0, s)
  }

  /** The plane of head portal n = j*3 + i: facing +axis i at the mins for
      j = 0, facing -axis i at the maxs for j = 1. */
  function HeadPlane(n: nat, mins: Vec3, maxs: Vec3): Plane
    requires n < 6
  {
    var i := n % 3;
    if n < 3 then Plane(AxisVec(i, 1.0), Comp(mins, i))
    else Plane(AxisVec(i, -1.0), -Comp(maxs, i))
  }

  lemma HeadPlaneAxis(n: nat, mins: Vec3, maxs: Vec3)
    requires n < 6
    ensures var p := HeadPlane(n, mins, maxs);
      Comp(p.normal, n % 3) == (if n < 3 then 1.0 else -1.0) &&
      (forall k :: 0 <= k < 3 && k != n % 3 ==> Comp(p.normal, k) == 0.0) &&
      p.dist == (if n < 3 then Comp(mins, n % 3) else -Comp(maxs, n % 3))
  {
  }

  /** Clipping winding w by the planes of every other head portal, in order;
      None when one of them clips it away. */
  function ClipByOthers(w: Winding, i: nat, j: nat, planes: seq<Plane>, clipFront: (Winding, Plane) -> Option<Winding>): Option<Winding>
    requires j <= |planes|
    decreases |planes| - j
  {
    if j == |planes| then Some(w)
    else if j == i then ClipByOthers(w, i, j + 1, planes, clipFront)
    else match clipFront(w, planes[j])
      case None => None
      case Some(w2) => ClipByOthers(w2, i, j + 1, planes, clipFront)
  }

  /** The six head portals before clipping: portal n on HeadPlane(n), the
      headnode on the side setPlane reports as front, the outside node on
      the other. */
  function HeadPortal(n: nat, mins: Vec3, maxs: Vec3, headnode: nat, outside: nat,
                      setPlane: Plane -> (Plane, bool), base: Plane -> Winding): BuildPortal
    requires n < 6
  {
    var pl := HeadPlane(n, mins, maxs);
    var (stored, side) := setPlane(pl);
    if side then BuildPortal(stored, None, base(pl), outside, headnode)
    else BuildPortal(stored, None, base(pl), headnode, outside)
  }

  /** MakeHeadnodePortals: six portals forming a box around the bounds
      (already grown), each clipped by the other five planes; a winding
      clipped away is fatal. */
  method MakeHeadnodePortals(mins: Vec3, maxs: Vec3, headnode: nat, outside: nat,
                             setPlane: Plane -> (Plane, bool), base: Plane -> Winding,
                             clipFront: (Winding, Plane) -> Option<Winding>)
      returns (r: Fallible<seq<BuildPortal>>)
    ensures r.Ok? <==> forall n :: 0 <= n < 6 ==>
      ClipByOthers(base(HeadPlane(n, mins, maxs)), n, 0, HeadPlanes(mins, maxs), clipFront).Some?
    ensures r.Ok? ==> |r.value| == 6 && forall n :: 0 <= n < 6 ==>
      var h := HeadPortal(n, mins, maxs, headnode, outside, setPlane, base);
      r.value[n] == h.(winding := ClipByOthers(h.winding, n, 0, HeadPlanes(mins, maxs), clipFront).value)
  {
    var bplanes := HeadPlanes(mins, maxs);
    var portals := seq(6, n requires 0 <= n < 6 => HeadPortal(n, mins, maxs, headnode, outside, setPlane, base));
    var i := 0;
    while i < 6
      invariant i <= 6 && |portals| == 6
      invariant forall n :: 0 <= n < i ==>
        ClipByOthers(base(HeadPlane(n, mins, maxs)), n, 0, bplanes, clipFront).Some?
      invariant forall n :: 0 <= n < 6 ==>
        var h := HeadPortal(n, mins, maxs, headnode, outside, setPlane, base);
        portals[n] == if n < i then h.(winding := ClipByOthers(h.winding, n, 0, bplanes, clipFront).value) else h
    {
      var w := ClipPortal(portals[i].winding, i, bplanes, clipFront);
      if w.None? {
        return Fatal("portal winding clipped away");
      }
      portals := portals[i := portals[i].(winding := w.value)];
      i := i + 1;
    }
    r := Ok(portals);
  }

  function HeadPlanes(mins: Vec3, maxs: Vec3): (r: seq<Plane>)
    ensures |r| == 6 && forall n :: 0 <= n < 6 ==> r[n] == HeadPlane(n, mins, maxs)
  {
    seq(6, n requires 0 <= n < 6 => HeadPlane(n, mins, maxs))
  }

  /** The inner loop of MakeHeadnodePortals' clipping pass. */
  method ClipPortal(w0: Winding, i: nat, planes: seq<Plane>, clipFront: (Winding, Plane) -> Option<Winding>)
      returns (r: Option<Winding>)
    ensures r == ClipByOthers(w0, i, 0, planes, clipFront)
  {
    var w := w0;
    var j := 0;
    while j < |planes|
      invariant j <= |planes|
      invariant ClipByOthers(w, i, j, planes, clipFront) == ClipByOthers(w0, i, 0, planes, clipFront)
    {
      if j != i {
        var w2 := clipFront(w, planes[j]);
        if w2.None? {
          return None;
        }
        w := w2.value;
      }
      j := j + 1;
    }
    r := Some(w);
  }

  // ---------------------------------------------------------------------------
  // MakeNodePortal

  /** Clipping the node's base winding by each boundary portal, using the
      portal's plane when the node is its front and the negated plane when
      it is its back; reaching a portal linked to neither side is fatal. */
  function ClipByBoundary(w: Option<Winding>, node: nat, boundary: seq<BuildPortal>,
                          clipFront: (Winding, Plane) -> Option<Winding>): Fallible<Option<Winding>>
    decreases |boundary|
  {
    if w.None? || boundary == [] then Ok(w)
    else
      var p := boundary[0];
      if p.n0 == node then ClipByBoundary(clipFront(w.value, p.plane), node, boundary[1..], clipFront)
      else if p.n1 == node then ClipByBoundary(clipFront(w.value, Neg(p.plane)), node, boundary[1..], clipFront)
      else Fatal("CutNodePortals_r: mislinked portal")
  }

  /** Boundary portals that are all linked to the node never make it fatal. */
  lemma {:induction false} ClipByBoundaryLinked(w: Option<Winding>, node: nat, boundary: seq<BuildPortal>,
                                                clipFront: (Winding, Plane) -> Option<Winding>)
    requires forall k :: 0 <= k < |boundary| ==> LinkedTo(boundary[k], node)
    ensures ClipByBoundary(w, node, boundary, clipFront).Ok?
    decreases |boundary|
  {
    if w.Some? && boundary != [] {
      var p := boundary[0];
      var w' := if p.n0 == node then clipFront(w.value, p.plane) else clipFront(w.value, Neg(p.plane));
      ClipByBoundaryLinked(w', node, boundary[1..], clipFront);
    }
  }

  /** And a fatal clip names a portal that is not linked to the node. */
  lemma {:induction false} ClipByBoundaryFatal(w: Option<Winding>, node: nat, boundary: seq<BuildPortal>,
                                               clipFront: (Winding, Plane) -> Option<Winding>)
    requires ClipByBoundary(w, node, boundary, clipFront).Fatal?
    ensures exists k :: 0 <= k < |boundary| && !LinkedTo(boundary[k], node)
    decreases |boundary|
  {
    var p := boundary[0];
    if LinkedTo(p, node) {
      var w' := if p.n0 == node then clipFront(w.value, p.plane) else clipFront(w.value, Neg(p.plane));
      ClipByBoundaryFatal(w', node, boundary[1..], clipFront);
      var k :| 0 <= k < |boundary[1..]| && !LinkedTo(boundary[1..][k], node);
      assert !LinkedTo(boundary[k + 1], node);
    } else {
      assert !LinkedTo(boundary[0], node);
    }
  }

  /** MakeNodePortal: the portal on a node's plane, between its two
      children, clipped by the parents (the base winding, given) and by the
      node's boundary portals; None when clipped away or tiny, and the tiny
      case is counted. */
  method MakeNodePortal(nodes: seq<Node>, node: nat, boundary: seq<BuildPortal>, base: Option<Winding>,
                        clipFront: (Winding, Plane) -> Option<Winding>, tiny: Winding -> bool)
      returns (r: Fallible<Option<BuildPortal>>, tinies: nat)
    requires node < |nodes|
    ensures r.Fatal? <==> ClipByBoundary(base, node, boundary, clipFront).Fatal?
    ensures r.Ok? ==> var w := ClipByBoundary(base, node, boundary, clipFront).value;
      (r.value.Some? <==> w.Some? && !tiny(w.value)) &&
      (tinies == 1 <==> w.Some? && tiny(w.value)) && tinies <= 1
    ensures r.Ok? && r.value.Some? ==> var p := r.value.value;
      p.plane == nodes[node].plane && p.onnode == Some(node) &&
      p.n0 == nodes[node].front && p.n1 == nodes[node].back &&
      Some(p.winding) == ClipByBoundary(base, node, boundary, clipFront).value
  {
    tinies := 0;
    var w := base;
    var k := 0;
    while k < |boundary| && w.Some?
      invariant k <= |boundary|
      invariant ClipByBoundary(w, node, boundary[k..], clipFront) == ClipByBoundary(base, node, boundary, clipFront)
    {
      var p := boundary[k];
      assert boundary[k..][1..] == boundary[k + 1..];
      var plane;
      if p.n0 == node {
        plane := p.plane;
      } else if p.n1 == node {
        plane := Neg(p.plane);
      } else {
        return Fatal("CutNodePortals_r: mislinked portal"), 0;
      }
      w := clipFront(w.value, plane);
      k := k + 1;
    }
    if w.None? {
      return Ok(None), 0;
    }
    if tiny(w.value) {
      return Ok(None), 1;
    }
    var nd := nodes[node];
    r := Ok(Some(BuildPortal(nd.plane, Some(node), w.value, nd.front, nd.back)));
  }

  // ---------------------------------------------------------------------------
  // SplitNodePortals

  datatype Split = Split(front: seq<BuildPortal>, back: seq<BuildPortal>, tinies: nat)

  /** p with the node on side s replaced by child, other kept on the
      other side, and winding w. */
  function Place(p: BuildPortal, s: nat, child: nat, other: nat, w: Winding): BuildPortal
  {
    if s == 0 then p.(n0 := child, n1 := other, winding := w)
    else p.(n0 := other, n1 := child, winding := w)
  }

  /** One boundary portal of node split by the node's plane. A fragment
      that clip reports tiny is dropped and counted; the portal goes
      whole to the back child when only the back fragment is left, whole
      to the front child when only the front one is, and is cut in two
      otherwise. */
  function SplitOne(p: BuildPortal, node: nat, f: nat, b: nat, plane: Plane,
                    clip: (Winding, Plane) -> (Option<Winding>, Option<Winding>), tiny: Winding -> bool): Fallible<Split>
  {
    match SideOf(p, node)
    case None => Fatal("CutNodePortals_r: mislinked portal")
    case Some(s) =>
      var other := NodeAt(p, 1 - s);
      var (fw0, bw0) := clip(p.winding, plane);
      var ftiny := fw0.Some? && tiny(fw0.value);
      var btiny := bw0.Some? && tiny(bw0.value);
      var fw := if ftiny then None else fw0;
      var bw := if btiny then None else bw0;
      var t := (if ftiny then 1 else 0) + (if btiny then 1 else 0);
      if fw.None? && bw.None? then Ok(Split([], [], t))
      else if fw.None? then Ok(Split([], [Place(p, s, b, other, p.winding)], t))
      else if bw.None? then Ok(Split([Place(p, s, f, other, p.winding)], [], t))
      else Ok(Split([Place(p, s, f, other, fw.value)], [Place(p, s, b, other, bw.value)], t))
  }

  function Join(a: Fallible<Split>, b: Fallible<Split>): Fallible<Split>
  {
    if a.Fatal? then a
    else if b.Fatal? then b
    else Ok(Split(a.value.front + b.value.front, a.value.back + b.value.back, a.value.tinies + b.value.tinies))
  }

  function SplitAll(ps: seq<BuildPortal>, node: nat, f: nat, b: nat, plane: Plane,
                    clip: (Winding, Plane) -> (Option<Winding>, Option<Winding>), tiny: Winding -> bool): Fallible<Split>
  {
    if ps == [] then Ok(Split([], [], 0))
    else Join(SplitOne(ps[0], node, f, b, plane, clip, tiny), SplitAll(ps[1..], node, f, b, plane, clip, tiny))
  }

  lemma JoinAssoc(a: Fallible<Split>, b: Fallible<Split>, c: Fallible<Split>)
    ensures Join(Join(a, b), c) == Join(a, Join(b, c))
  {
    if a.Ok? && b.Ok? && c.Ok? {
      var x, y, z := a.value, b.value, c.value;
      assert (x.front + y.front) + z.front == x.front + (y.front + z.front);
      assert (x.back + y.back) + z.back == x.back + (y.back + z.back);
    }
  }

  lemma JoinEmpty(b: Fallible<Split>)
    ensures Join(Ok(Split([], [], 0)), b) == b
  {
    if b.Ok? {
      assert [] + b.value.front == b.value.front && [] + b.value.back == b.value.back;
    }
  }

  /** SplitNodePortals: move or split each portal bounding an internal node
      so that the node's children carry them instead. */
  method SplitNodePortals(nodes: seq<Node>, node: nat, ps: seq<BuildPortal>,
                          clip: (Winding, Plane) -> (Option<Winding>, Option<Winding>), tiny: Winding -> bool)
      returns (r: Fallible<Split>)
    requires node < |nodes| && !nodes[node].isLeaf
    ensures r == SplitAll(ps, node, nodes[node].front, nodes[node].back, nodes[node].plane, clip, tiny)
  {
    var nd := nodes[node];
    var acc := Split([], [], 0);
    var i := 0;
    assert ps[0..] == ps;
    JoinEmpty(SplitAll(ps, node, nd.front, nd.back, nd.plane, clip, tiny));
    while i < |ps|
      invariant i <= |ps|
      invariant Join(Ok(acc), SplitAll(ps[i..], node, nd.front, nd.back, nd.plane, clip, tiny))
        == SplitAll(ps, node, nd.front, nd.back, nd.plane, clip, tiny)
    {
      assert ps[i..][1..] == ps[i + 1..];
      var one := SplitPortal(ps[i], node, nd.front, nd.back, nd.plane, clip, tiny);
      JoinAssoc(Ok(acc), one, SplitAll(ps[i + 1..], node, nd.front, nd.back, nd.plane, clip, tiny));
      if one.Fatal? {
        return one;
      }
      acc := Split(acc.front + one.value.front, acc.back + one.value.back, acc.tinies + one.value.tinies);
      i := i + 1;
    }
    assert Join(Ok(acc), Ok(Split([], [], 0))) == Ok(acc) by {
      assert acc.front + [] == acc.front && acc.back + [] == acc.back;
    }
    r := Ok(acc);
  }

  /** The body of SplitNodePortals' loop for one portal. */
  method SplitPortal(p: BuildPortal, node: nat, f: nat, b: nat, plane: Plane,
                     clip: (Winding, Plane) -> (Option<Winding>, Option<Winding>), tiny: Winding -> bool)
      returns (r: Fallible<Split>)
    ensures r == SplitOne(p, node, f, b, plane, clip, tiny)
  {
    var side;
    if p.n0 == node {
      side := 0;
    } else if p.n1 == node {
      side := 1;
    } else {
      return Fatal("CutNodePortals_r: mislinked portal");
    }
    var other := NodeAt(p, 1 - side);
    var (frontwinding, backwinding) := clip(p.winding, plane);
    var tinies := 0;
    if frontwinding.Some? && tiny(frontwinding.value) {
      frontwinding := None;
      tinies := tinies + 1;
    }
    if backwinding.Some? && tiny(backwinding.value) {
      backwinding := None;
      tinies := tinies + 1;
    }
    if frontwinding.None? && backwinding.None? {
      return Ok(Split([], [], tinies));
    }
    if frontwinding.None? {
      return Ok(Split([], [Place(p, side, b, other, p.winding)], tinies));
    }
    if backwinding.None? {
      return Ok(Split([Place(p, side, f, other, p.winding)], [], tinies));
    }
    r := Ok(Split([Place(p, side, f, other, frontwinding.value)], [Place(p, side, b, other, backwinding.value)], tinies));
  }

  /** q descends from p across node: same plane and onnode, child on p's
      node side, and p's other node still on the other side. */
  predicate Keeps(q: BuildPortal, p: BuildPortal, node: nat, child: nat)
  {
    SideOf(p, node).Some? &&
    var s := SideOf(p, node).value;
    q.plane == p.plane && q.onnode == p.onnode &&
    NodeAt(q, s) == child && NodeAt(q, 1 - s) == NodeAt(p, 1 - s)
  }

  /** Each portal yields at most one fragment per child, at most two tiny
      fragments, and nothing exactly when both fragments are gone. */
  lemma SplitOneShape(p: BuildPortal, node: nat, f: nat, b: nat, plane: Plane,
                      clip: (Winding, Plane) -> (Option<Winding>, Option<Winding>), tiny: Winding -> bool)
    ensures var r := SplitOne(p, node, f, b, plane, clip, tiny);
      (r.Fatal? <==> !LinkedTo(p, node)) &&
      (r.Ok? ==>
        |r.value.front| <= 1 && |r.value.back| <= 1 && r.value.tinies <= 2 &&
        (forall q :: q in r.value.front ==> Keeps(q, p, node, f)) &&
        (forall q :: q in r.value.back ==> Keeps(q, p, node, b)) &&
        (r.value.front == r.value.back == [] <==>
          var (fw, bw) := clip(p.winding, plane);
          (fw.None? || tiny(fw.value)) && (bw.None? || tiny(bw.value))))
  {
    var (fw, bw) := clip(p.winding, plane);
    if fw.Some? && !tiny(fw.value) {
      assert SplitOne(p, node, f, b, plane, clip, tiny).Ok? ==>
        SplitOne(p, node, f, b, plane, clip, tiny).value.front != [];
    } else if bw.Some? && !tiny(bw.value) {
      assert SplitOne(p, node, f, b, plane, clip, tiny).Ok? ==>
        SplitOne(p, node, f, b, plane, clip, tiny).value.back != [];
    }
  }

  /** Over the whole list: fatal exactly when some portal is mislinked;
      otherwise every front output descends from an input onto the front
      child, every back output onto the back child, and the counts are
      bounded by the input. */
  lemma {:induction false} SplitAllShape(ps: seq<BuildPortal>, node: nat, f: nat, b: nat, plane: Plane,
                                         clip: (Winding, Plane) -> (Option<Winding>, Option<Winding>), tiny: Winding -> bool)
    ensures var r := SplitAll(ps, node, f, b, plane, clip, tiny);
      (r.Fatal? <==> exists k :: 0 <= k < |ps| && !LinkedTo(ps[k], node)) &&
      (r.Ok? ==>
        |r.value.front| <= |ps| && |r.value.back| <= |ps| && r.value.tinies <= 2 * |ps| &&
        (forall q :: q in r.value.front ==> exists k :: 0 <= k < |ps| && Keeps(q, ps[k], node, f)) &&
        (forall q :: q in r.value.back ==> exists k :: 0 <= k < |ps| && Keeps(q, ps[k], node, b)))
  {
    if ps != [] {
      var rest := ps[1..];
      SplitOneShape(ps[0], node, f, b, plane, clip, tiny);
      SplitAllShape(rest, node, f, b, plane, clip, tiny);
      var one := SplitOne(ps[0], node, f, b, plane, clip, tiny);
      var more := SplitAll(rest, node, f, b, plane, clip, tiny);
      var r := SplitAll(ps, node, f, b, plane, clip, tiny);
      assert r == Join(one, more);
      if more.Fatal? {
        var k :| 0 <= k < |rest| && !LinkedTo(rest[k], node);
        assert !LinkedTo(ps[k + 1], node);
      }
      if r.Fatal? {
        if one.Fatal? {
          assert !LinkedTo(ps[0], node);
        }
      } else {
        forall k | 0 <= k < |ps|
          ensures LinkedTo(ps[k], node)
        {
          if k > 0 {
            assert ps[k] == rest[k - 1];
          }
        }
        forall q | q in r.value.front
          ensures exists k :: 0 <= k < |ps| && Keeps(q, ps[k], node, f)
        {
          if q in one.value.front {
            assert Keeps(q, ps[0], node, f);
          } else {
            assert q in more.value.front;
            var k :| 0 <= k < |rest| && Keeps(q, rest[k], node, f);
            assert Keeps(q, ps[k + 1], node, f);
          }
        }
        forall q | q in r.value.back
          ensures exists k :: 0 <= k < |ps| && Keeps(q, ps[k], node, b)
        {
          if q in one.value.back {
            assert Keeps(q, ps[0], node, b);
          } else {
            assert q in more.value.back;
            var k :| 0 <= k < |rest| && Keeps(q, rest[k], node, b);
            assert Keeps(q, ps[k + 1], node, b);
          }
        }
      }
    }
  }

  // ---------------------------------------------------------------------------
  // ClipNodePortalsToTree_r

  /** Where the descent stops: a leaf, or in VIS mode a detail separator. */
  predicate Stop(nodes: seq<Node>, n: nat, vis: bool)
    requires n < |nodes|
  {
    nodes[n].isLeaf || (vis && nodes[n].detailSeparator)
  }

  predicate Descendant(nodes: seq<Node>, a: nat, m: nat)
    requires WellFormed(nodes) && a < |nodes|
    decreases |nodes| - a
  {
    a == m ||
    (!nodes[a].isLeaf && (Descendant(nodes, nodes[a].front, m) || Descendant(nodes, nodes[a].back, m)))
  }

  lemma {:induction false} DescendantBounds(nodes: seq<Node>, a: nat, m: nat)
    requires WellFormed(nodes) && a < |nodes| && Descendant(nodes, a, m)
    ensures a <= m < |nodes|
    decreases |nodes| - a
  {
    if a != m {
      if Descendant(nodes, nodes[a].front, m) {
        DescendantBounds(nodes, nodes[a].front, m);
      } else {
        DescendantBounds(nodes, nodes[a].back, m);
      }
    }
  }

  lemma {:induction false} DescendantTrans(nodes: seq<Node>, a: nat, b: nat, c: nat)
    requires WellFormed(nodes) && a < |nodes| && b < |nodes|
    requires Descendant(nodes, a, b) && Descendant(nodes, b, c)
    ensures Descendant(nodes, a, c)
    decreases |nodes| - a
  {
    if a != b {
      if Descendant(nodes, nodes[a].front, b) {
        DescendantTrans(nodes, nodes[a].front, b, c);
      } else {
        DescendantTrans(nodes, nodes[a].back, b, c);
      }
    }
  }

  /** The node on the far side of p from node. */
  function Other(p: BuildPortal, node: nat): nat
    requires SideOf(p, node).Some?
  {
    NodeAt(p, 1 - SideOf(p, node).value)
  }

  /** Every portal is linked to node on one side, and its other side is
      outside node's subtree. */
  predicate Anchored(nodes: seq<Node>, node: nat, ps: seq<BuildPortal>)
    requires WellFormed(nodes) && node < |nodes|
  {
    forall k :: 0 <= k < |ps| ==>
      SideOf(ps[k], node).Some? && !Descendant(nodes, node, Other(ps[k], node))
  }

  /** The fragments a subtree ends up with, and the tiny ones dropped. */
  datatype Clipped = Clipped(portals: seq<BuildPortal>, tinies: nat)

  /** The portal list for node's subtree: unchanged at a stop node (or when
      empty), otherwise split among the children and each half pushed down
      its child's subtree. */
  function ClipToTree(nodes: seq<Node>, node: nat, vis: bool, ps: seq<BuildPortal>,
                      clip: (Winding, Plane) -> (Option<Winding>, Option<Winding>), tiny: Winding -> bool)
      : Fallible<Clipped>
    requires WellFormed(nodes) && node < |nodes|
    decreases |nodes| - node, 1
  {
    if ps == [] || Stop(nodes, node, vis) then Ok(Clipped(ps, 0))
    else
      var nd := nodes[node];
      var sp := SplitAll(ps, node, nd.front, nd.back, nd.plane, clip, tiny);
      if sp.Fatal? then Fatal(sp.msg)
      else ClipHalves(nodes, node, vis, sp.value, clip, tiny)
  }

  /** Both halves of a split pushed down, the front fragments first, the
      first failure winning. */
  function ClipHalves(nodes: seq<Node>, node: nat, vis: bool, sp: Split,
                      clip: (Winding, Plane) -> (Option<Winding>, Option<Winding>), tiny: Winding -> bool)
      : Fallible<Clipped>
    requires WellFormed(nodes) && node < |nodes| && !nodes[node].isLeaf
    decreases |nodes| - node, 0
  {
    var fr := ClipToTree(nodes, nodes[node].front, vis, sp.front, clip, tiny);
    if fr.Fatal? then Fatal(fr.msg)
    else
      var br := ClipToTree(nodes, nodes[node].back, vis, sp.back, clip, tiny);
      if br.Fatal? then Fatal(br.msg)
      else Ok(Clipped(fr.value.portals + br.value.portals, sp.tinies + fr.value.tinies + br.value.tinies))
  }

  /** ClipNodePortalsToTree_r. */
  method ClipNodePortalsToTree(nodes: seq<Node>, node: nat, vis: bool, ps: seq<BuildPortal>,
                               clip: (Winding, Plane) -> (Option<Winding>, Option<Winding>), tiny: Winding -> bool)
      returns (r: Fallible<Clipped>)
    requires WellFormed(nodes) && node < |nodes|
    ensures r == ClipToTree(nodes, node, vis, ps, clip, tiny)
    decreases |nodes| - node, 1
  {
    if ps == [] {
      return Ok(Clipped(ps, 0));
    }
    var nd := nodes[node];
    if nd.isLeaf || (vis && nd.detailSeparator) {
      return Ok(Clipped(ps, 0));
    }
    var split := SplitNodePortals(nodes, node, ps, clip, tiny);
    if split.Fatal? {
      return Fatal(split.msg);
    }
    r := ClipBoth(nodes, node, vis, split.value, clip, tiny);
  }

  /** The two recursive calls of ClipNodePortalsToTree_r and the splice. */
  method ClipBoth(nodes: seq<Node>, node: nat, vis: bool, sp: Split,
                  clip: (Winding, Plane) -> (Option<Winding>, Option<Winding>), tiny: Winding -> bool)
      returns (r: Fallible<Clipped>)
    requires WellFormed(nodes) && node < |nodes| && !nodes[node].isLeaf
    ensures r == ClipHalves(nodes, node, vis, sp, clip, tiny)
    decreases |nodes| - node, 0
  {
    var front := ClipNodePortalsToTree(nodes, nodes[node].front, vis, sp.front, clip, tiny);
    if front.Fatal? {
      return Fatal(front.msg);
    }
    var back := ClipNodePortalsToTree(nodes, nodes[node].back, vis, sp.back, clip, tiny);
    if back.Fatal? {
      return Fatal(back.msg);
    }
    r := Ok(Clipped(front.value.portals + back.value.portals, sp.tinies + front.value.tinies + back.value.tinies));
  }

  /** A fragment of p that moved to child f is linked to f on p's side, with
      p's other node on the other. */
  lemma KeepsSide(q: BuildPortal, p: BuildPortal, node: nat, f: nat)
    requires Keeps(q, p, node, f) && Other(p, node) != f
    ensures SideOf(q, f) == SideOf(p, node) && Other(q, f) == Other(p, node)
  {
  }

  lemma KeepsCompose(q: BuildPortal, q': BuildPortal, p: BuildPortal, node: nat, f: nat, m: nat)
    requires Keeps(q', p, node, f) && Other(p, node) != f && Keeps(q, q', f, m)
    ensures Keeps(q, p, node, m)
  {
    KeepsSide(q', p, node, f);
  }

  /** Every portal of mid descends from one of ps onto child. */
  predicate MovedTo(ps: seq<BuildPortal>, node: nat, child: nat, mid: seq<BuildPortal>)
  {
    forall q :: q in mid ==> exists k :: 0 <= k < |ps| && Keeps(q, ps[k], node, child)
  }

  /** Every portal of out descends from one of ps onto a stop node of
      node's subtree. */
  predicate Reaches(nodes: seq<Node>, node: nat, vis: bool, ps: seq<BuildPortal>, out: seq<BuildPortal>)
    requires WellFormed(nodes)
  {
    forall q :: q in out ==> exists k, m :: (0 <= k < |ps| && node <= m < |nodes| &&
      Stop(nodes, m, vis) && Descendant(nodes, node, m) && Keeps(q, ps[k], node, m))
  }

  /** Split outputs stay anchored in the child's subtree. */
  lemma SplitAnchored(nodes: seq<Node>, node: nat, child: nat, ps: seq<BuildPortal>, out: seq<BuildPortal>)
    requires WellFormed(nodes) && node < |nodes| && child < |nodes| && Descendant(nodes, node, child)
    requires Anchored(nodes, node, ps) && MovedTo(ps, node, child, out)
    ensures Anchored(nodes, child, out)
  {
    forall j | 0 <= j < |out|
      ensures SideOf(out[j], child).Some? && !Descendant(nodes, child, Other(out[j], child))
    {
      var q := out[j];
      assert q in out;
      var k :| 0 <= k < |ps| && Keeps(q, ps[k], node, child);
      var o := Other(ps[k], node);
      KeepsSide(q, ps[k], node, child);
      if Descendant(nodes, child, o) {
        DescendantTrans(nodes, node, child, o);
      }
    }
  }

  /** Anchored portals split without error, each half moving to its child. */
  lemma SplitMoves(nodes: seq<Node>, node: nat, ps: seq<BuildPortal>,
                   clip: (Winding, Plane) -> (Option<Winding>, Option<Winding>), tiny: Winding -> bool)
    requires WellFormed(nodes) && node < |nodes| && !nodes[node].isLeaf && Anchored(nodes, node, ps)
    ensures var nd := nodes[node];
      var sp := SplitAll(ps, node, nd.front, nd.back, nd.plane, clip, tiny);
      sp.Ok? && MovedTo(ps, node, nd.front, sp.value.front) && MovedTo(ps, node, nd.back, sp.value.back)
  {
    var nd := nodes[node];
    SplitAllShape(ps, node, nd.front, nd.back, nd.plane, clip, tiny);
    var sp := SplitAll(ps, node, nd.front, nd.back, nd.plane, clip, tiny);
    forall k | 0 <= k < |ps|
      ensures LinkedTo(ps[k], node)
    {
      assert SideOf(ps[k], node).Some?;
    }
  }

  /** Pushing anchored portals down the tree never fails, and every
      fragment that comes out descends from one of the inputs onto a stop
      node of the subtree: the fragment's other side is left as it was. */
  lemma {:induction false} ClipToTreeReachesStops(nodes: seq<Node>, node: nat, vis: bool, ps: seq<BuildPortal>,
                                                  clip: (Winding, Plane) -> (Option<Winding>, Option<Winding>), tiny: Winding -> bool)
    requires WellFormed(nodes) && node < |nodes| && Anchored(nodes, node, ps)
    ensures var r := ClipToTree(nodes, node, vis, ps, clip, tiny);
      r.Ok? && Reaches(nodes, node, vis, ps, r.value.portals)
    decreases |nodes| - node, 1
  {
    if ps == [] || Stop(nodes, node, vis) {
      StopReaches(nodes, node, vis, ps);
    } else {
      InnerReaches(nodes, node, vis, ps, clip, tiny);
    }
  }

  lemma StopReaches(nodes: seq<Node>, node: nat, vis: bool, ps: seq<BuildPortal>)
    requires WellFormed(nodes) && node < |nodes| && Anchored(nodes, node, ps)
    ensures Reaches(nodes, node, vis, ps, ps) || !Stop(nodes, node, vis)
  {
    if Stop(nodes, node, vis) {
      forall q | q in ps
        ensures exists k, m :: (0 <= k < |ps| && node <= m < |nodes| &&
          Stop(nodes, m, vis) && Descendant(nodes, node, m) && Keeps(q, ps[k], node, m))
      {
        var k :| 0 <= k < |ps| && ps[k] == q;
        assert Keeps(q, ps[k], node, node);
      }
    }
  }

  lemma {:induction false} InnerReaches(nodes: seq<Node>, node: nat, vis: bool, ps: seq<BuildPortal>,
                                        clip: (Winding, Plane) -> (Option<Winding>, Option<Winding>), tiny: Winding -> bool)
    requires WellFormed(nodes) && node < |nodes| && Anchored(nodes, node, ps)
    requires ps != [] && !Stop(nodes, node, vis)
    ensures var r := ClipToTree(nodes, node, vis, ps, clip, tiny);
      r.Ok? && Reaches(nodes, node, vis, ps, r.value.portals)
    decreases |nodes| - node, 0
  {
    var nd := nodes[node];
    SplitMoves(nodes, node, ps, clip, tiny);
    var sp := SplitAll(ps, node, nd.front, nd.back, nd.plane, clip, tiny).value;
    assert Descendant(nodes, node, nd.front) && Descendant(nodes, node, nd.back) by {
      assert Descendant(nodes, nd.front, nd.front) && Descendant(nodes, nd.back, nd.back);
    }
    SplitAnchored(nodes, node, nd.front, ps, sp.front);
    SplitAnchored(nodes, node, nd.back, ps, sp.back);
    ClipToTreeReachesStops(nodes, nd.front, vis, sp.front, clip, tiny);
    ClipToTreeReachesStops(nodes, nd.back, vis, sp.back, clip, tiny);
    var fr := ClipToTree(nodes, nd.front, vis, sp.front, clip, tiny).value.portals;
    var br := ClipToTree(nodes, nd.back, vis, sp.back, clip, tiny).value.portals;
    ChildReaches(nodes, node, nd.front, vis, ps, sp.front, fr);
    ChildReaches(nodes, node, nd.back, vis, ps, sp.back, br);
    ReachesConcat(nodes, node, vis, ps, fr, br);
  }

  lemma ReachesConcat(nodes: seq<Node>, node: nat, vis: bool, ps: seq<BuildPortal>, a: seq<BuildPortal>, b: seq<BuildPortal>)
    requires WellFormed(nodes) && Reaches(nodes, node, vis, ps, a) && Reaches(nodes, node, vis, ps, b)
    ensures Reaches(nodes, node, vis, ps, a + b)
  {
    forall q | q in a + b
      ensures exists k, m :: (0 <= k < |ps| && node <= m < |nodes| &&
        Stop(nodes, m, vis) && Descendant(nodes, node, m) && Keeps(q, ps[k], node, m))
    {
      if q in a {
      } else {
        assert q in b;
      }
    }
  }

  /** One child's share of the step of ClipToTreeReachesStops. */
  lemma ChildReaches(nodes: seq<Node>, node: nat, child: nat, vis: bool,
                     ps: seq<BuildPortal>, mid: seq<BuildPortal>, out: seq<BuildPortal>)
    requires WellFormed(nodes) && node < |nodes| && child < |nodes| && Descendant(nodes, node, child)
    requires Anchored(nodes, node, ps) && MovedTo(ps, node, child, mid)
    requires Reaches(nodes, child, vis, mid, out)
    ensures Reaches(nodes, node, vis, ps, out)
  {
    forall q | q in out
      ensures exists k, m :: (0 <= k < |ps| && node <= m < |nodes| &&
        Stop(nodes, m, vis) && Descendant(nodes, node, m) && Keeps(q, ps[k], node, m))
    {
      var j, m :| 0 <= j < |mid| && child <= m < |nodes| &&
        Stop(nodes, m, vis) && Descendant(nodes, child, m) && Keeps(q, mid[j], child, m);
      assert mid[j] in mid;
      var k :| 0 <= k < |ps| && Keeps(mid[j], ps[k], node, child);
      KeepsCompose(q, mid[j], ps[k], node, child, m);
      DescendantTrans(nodes, node, child, m);
      DescendantBounds(nodes, node, m);
    }
  }
}
