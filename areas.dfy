// Turning build portals into linked tree portals, and the Quake II area
// flood: areas are numbered by flooding from occupied leafs, area-portal
// entities record the (at most two) areas they touch, and the area-portal
// table is emitted per area.

module Areas {
  import opened Common
  import opened Portals

  // ---------------------------------------------------------------------------
  // Portal linking (AddPortalToNodes, MakePortalsFromBuildportals)

  /** A tree portal once created: its plane, the node that made it and its winding. */
  datatype PortalInfo = PortalInfo(plane: Plane, onnode: Option<nat>, winding: Winding)

  predicate Touches(s: Option<(nat, nat)>, n: nat)
  {
    s.Some? && (s.value.0 == n || s.value.1 == n)
  }

  /** The per-node portal lists agree with the portals' own node pairs: a
      listed portal touches the node, and a linked portal is listed at both
      of its nodes. */
  predicate Linked(sides: seq<Option<(nat, nat)>>, links: seq<seq<nat>>)
  {
    (forall n, k :: 0 <= n < |links| && 0 <= k < |links[n]| ==>
       links[n][k] < |sides| && Touches(sides[links[n][k]], n)) &&
    (forall p :: 0 <= p < |sides| && sides[p].Some? ==>
       sides[p].value.0 < |links| && sides[p].value.1 < |links| &&
       p in links[sides[p].value.0] && p in links[sides[p].value.1])
  }

  /** Portal p put at the head of both nodes' lists. */
  function Link(links: seq<seq<nat>>, p: nat, front: nat, back: nat): (r: seq<seq<nat>>)
    requires front < |links| && back < |links|
    ensures |r| == |links|
  {
    var l := links[front := [p] + links[front]];
    l[back := [p] + l[back]]
  }

  /** Linking a fresh portal between two distinct nodes keeps the lists
      consistent. */
  lemma LinkKeepsLinked(sides: seq<Option<(nat, nat)>>, links: seq<seq<nat>>, p: nat, front: nat, back: nat)
    requires Linked(sides, links)
    requires p < |sides| && sides[p].None? && front < |links| && back < |links| && front != back
    ensures Linked(sides[p := Some((front, back))], Link(links, p, front, back))
  {
    var s' := sides[p := Some((front, back))];
    var l' := Link(links, p, front, back);
    forall n, k | 0 <= n < |l'| && 0 <= k < |l'[n]|
      ensures l'[n][k] < |s'| && Touches(s'[l'[n][k]], n)
    {
      if n == front && k == 0 {
      } else if n == back && k == 0 {
      } else {
        var j := if n == front || n == back then k - 1 else k;
        assert l'[n][k] == links[n][j];
        assert links[n][j] != p;
      }
    }
    forall q | 0 <= q < |s'| && s'[q].Some?
      ensures s'[q].value.0 < |l'| && s'[q].value.1 < |l'| && q in l'[s'[q].value.0] && q in l'[s'[q].value.1]
    {
      if q == p {
        assert l'[front][0] == p && l'[back][0] == p;
      } else {
        var a := sides[q].value.0;
        var b := sides[q].value.1;
        assert q in links[a] && q in links[b];
        assert forall n :: 0 <= n < |links| && q in links[n] ==> q in l'[n];
      }
    }
  }

  /** The node pairs of a list of build portals, in order. */
  function SidesOf(bps: seq<BuildPortal>): (r: seq<Option<(nat, nat)>>)
    ensures |r| == |bps|
  {
    if bps == [] then [] else SidesOf(bps[..|bps| - 1]) + [Some((bps[|bps| - 1].n0, bps[|bps| - 1].n1))]
  }

  function InfoOf(bps: seq<BuildPortal>): (r: seq<PortalInfo>)
    ensures |r| == |bps|
  {
    if bps == [] then [] else InfoOf(bps[..|bps| - 1]) + [PortalInfo(bps[|bps| - 1].plane, bps[|bps| - 1].onnode, bps[|bps| - 1].winding)]
  }

  /** Build portals whose two nodes exist and differ. */
  predicate Linkable(bps: seq<BuildPortal>, numNodes: nat)
  {
    forall k :: 0 <= k < |bps| ==> bps[k].n0 < numNodes && bps[k].n1 < numNodes && bps[k].n0 != bps[k].n1
  }

  /** The lists after the portals numbered base, base+1, ... are linked in order. */
  function LinkAll(links: seq<seq<nat>>, bps: seq<BuildPortal>, base: nat): (r: seq<seq<nat>>)
    requires Linkable(bps, |links|)
    ensures |r| == |links|
  {
    if bps == [] then links
    else
      var last := bps[|bps| - 1];
      Link(LinkAll(links, bps[..|bps| - 1], base), base + |bps| - 1, last.n0, last.n1)
  }

  /** Appending and linking a batch of fresh portals keeps the lists
      consistent. */
  lemma {:induction false} LinkAllKeepsLinked(sides: seq<Option<(nat, nat)>>, links: seq<seq<nat>>, bps: seq<BuildPortal>)
    requires Linked(sides, links) && Linkable(bps, |links|)
    ensures Linked(sides + SidesOf(bps), LinkAll(links, bps, |sides|))
    decreases |bps|
  {
    if bps == [] {
      assert sides + SidesOf(bps) == sides;
    } else {
      var init := bps[..|bps| - 1];
      var last := bps[|bps| - 1];
      assert Linkable(init, |links|);
      LinkAllKeepsLinked(sides, links, init);
      var s0 := sides + SidesOf(init);
      assert sides + SidesOf(bps) == s0 + [Some((last.n0, last.n1))];
      var l0 := LinkAll(links, init, |sides|);
      assert LinkAll(links, bps, |sides|) == Link(l0, |s0|, last.n0, last.n1);
      AppendLinked(s0, l0, last.n0, last.n1);
    }
  }

  /** A new portal linked between two distinct nodes keeps the lists
      consistent. */
  lemma AppendLinked(sides: seq<Option<(nat, nat)>>, links: seq<seq<nat>>, front: nat, back: nat)
    requires Linked(sides, links) && front < |links| && back < |links| && front != back
    ensures Linked(sides + [Some((front, back))], Link(links, |sides|, front, back))
  {
    var s' := sides + [None];
    forall p | 0 <= p < |s'| && s'[p].Some?
      ensures s'[p].value.0 < |links| && s'[p].value.1 < |links| && p in links[s'[p].value.0] && p in links[s'[p].value.1]
    {
      assert s'[p] == sides[p];
    }
    assert Linked(s', links);
    LinkKeepsLinked(s', links, |sides|, front, back);
    assert s'[|sides| := Some((front, back))] == sides + [Some((front, back))];
  }

  /** The portals of a tree and the per-node portal lists. */
  class PortalGraph {
    var info: seq<PortalInfo>
    var sides: seq<Option<(nat, nat)>>   // p->nodes; None while unlinked
    var links: seq<seq<nat>>              // node->portals, head first

    constructor (numNodes: nat)
      ensures info == [] && sides == [] && |links| == numNodes
      ensures forall n :: 0 <= n < numNodes ==> links[n] == []
      ensures Linked(sides, links)
    {
      info := [];
      sides := [];
      links := seq(numNodes, n => []);
    }

    /** AddPortalToNodes: a portal that is already linked is fatal; otherwise
        it records its two nodes and goes at the head of both lists. */
    method AddPortalToNodes(p: nat, front: nat, back: nat) returns (r: Fallible<()>)
      requires p < |sides| && front < |links| && back < |links| && front != back
      modifies this`sides, this`links
      ensures old(sides[p]).Some? ==> r.Fatal? && sides == old(sides) && links == old(links)
      ensures old(sides[p]).None? ==>
        r.Ok? && sides == old(sides)[p := Some((front, back))] && links == Link(old(links), p, front, back)
    {
      if sides[p].Some? {
        return Fatal("portal already included");
      }
      sides := sides[p := Some((front, back))];
      links := links[front := [p] + links[front]];
      links := links[back := [p] + links[back]];
      r := Ok(());
    }

    /** tree.create_portal() followed by AddPortalToNodes for one build
        portal; the fresh portal is never already linked. */
    method CreatePortal(b: BuildPortal)
      requires b.n0 < |links| && b.n1 < |links| && b.n0 != b.n1
      modifies this`info, this`sides, this`links
      ensures info == old(info) + [PortalInfo(b.plane, b.onnode, b.winding)]
      ensures sides == old(sides) + [Some((b.n0, b.n1))]
      ensures links == Link(old(links), |old(sides)|, b.n0, b.n1)
    {
      info := info + [PortalInfo(b.plane, b.onnode, b.winding)];
      sides := sides + [None];
      var r := AddPortalToNodes(|sides| - 1, b.n0, b.n1);
      assert old(sides) + [None] == sides[..|sides| - 1] + [None];
    }

    /** MakePortalsFromBuildportals: one new tree portal per build portal,
        in order, each linked to the build portal's two nodes. */
    method MakePortalsFromBuildportals(bps: seq<BuildPortal>)
      requires |info| == |sides| && Linkable(bps, |links|)
      modifies this`info, this`sides, this`links
      ensures info == old(info) + InfoOf(bps)
      ensures sides == old(sides) + SidesOf(bps)
      ensures links == LinkAll(old(links), bps, |old(sides)|)
    {
      var i := 0;
      while i < |bps|
        invariant 0 <= i <= |bps| && |links| == |old(links)|
        invariant info == old(info) + InfoOf(bps[..i])
        invariant sides == old(sides) + SidesOf(bps[..i])
        invariant Linkable(bps[..i], |links|)
        invariant links == LinkAll(old(links), bps[..i], |old(sides)|)
      {
        var b := bps[i];
        ghost var pre := bps[..i + 1];
        assert pre[..i] == bps[..i] && pre[i] == b;
        assert InfoOf(pre) == InfoOf(bps[..i]) + [PortalInfo(b.plane, b.onnode, b.winding)];
        assert SidesOf(pre) == SidesOf(bps[..i]) + [Some((b.n0, b.n1))];
        assert LinkAll(old(links), pre, |old(sides)|) == Link(links, |old(sides)| + i, b.n0, b.n1);
        CreatePortal(b);
        i := i + 1;
      }
      assert bps[..i] == bps;
    }
  }

  /** The k-th new portal joins the k-th build portal's two nodes. */
  lemma {:induction false} SidesOfAt(bps: seq<BuildPortal>, k: nat)
    requires k < |bps|
    ensures SidesOf(bps)[k] == Some((bps[k].n0, bps[k].n1))
    decreases |bps|
  {
    if k < |bps| - 1 {
      SidesOfAt(bps[..|bps| - 1], k);
    }
  }

  // ---------------------------------------------------------------------------
  // Area flooding (FloodAreas_r, FindAreas_r, SetAreaPortalAreas_r)

  /** Q2_CONTENTS_AREAPORTAL. */
  const AREAPORTAL: nat := 0x8000

  /** Bit test for a single-bit mask. */
  predicate HasBit(x: nat, bit: nat)
    requires bit > 0
  {
    (x / bit) % 2 == 1
  }

  /** The flood in portals.cc, and the older one in qbsp.cc that is handed
      its area-portal entity and tests contents for equality. */
  datatype Variant = Current | Legacy(entity: nat)

  /** The tree, the portals and the per-node lists the flood walks, and the
      game's cluster_contents combination. */
  datatype AreaGraph = AreaGraph(
    nodes: seq<Node>,
    sides: seq<Option<(nat, nat)>>,
    links: seq<seq<nat>>,
    combine: (nat, nat) -> nat)

  predicate GraphOk(g: AreaGraph, numEntities: nat)
  {
    WellFormed(g.nodes) && |g.links| == |g.nodes| && Linked(g.sides, g.links) &&
    (forall n, k ::
       (0 <= n < |g.nodes| && 0 <= k < |g.nodes[n].brushAreaportals| && g.nodes[n].brushAreaportals[k].Some?) ==>
       g.nodes[n].brushAreaportals[k].value < numEntities)
  }

  predicate VariantOk(v: Variant, numEntities: nat)
  {
    v.Legacy? ==> v.entity < numEntities
  }

  /** ClusterContents, native bits only: a leaf's own contents, or the
      game's combination of the two children's. */
  function ClusterNative(nodes: seq<Node>, n: nat, combine: (nat, nat) -> nat): nat
    requires WellFormed(nodes) && n < |nodes|
    decreases |nodes| - n
  {
    if nodes[n].isLeaf then nodes[n].native
    else combine(ClusterNative(nodes, nodes[n].front, combine), ClusterNative(nodes, nodes[n].back, combine))
  }

  /** The first func_areaportal among a leaf's original brushes. */
  function FirstEntity(bs: seq<Option<nat>>): (r: Option<nat>)
    ensures r.Some? ==> Some(r.value) in bs
    ensures r.None? ==> forall k :: 0 <= k < |bs| ==> bs[k].None?
  {
    if bs == [] then None else if bs[0].Some? then bs[0] else FirstEntity(bs[1..])
  }

  /** Entity e is the area portal of some brush in a leaf below n. */
  predicate Mentions(nodes: seq<Node>, n: nat, e: nat)
    requires WellFormed(nodes) && n < |nodes|
    decreases |nodes| - n
  {
    if nodes[n].isLeaf then Some(e) in nodes[n].brushAreaportals
    else Mentions(nodes, nodes[n].front, e) || Mentions(nodes, nodes[n].back, e)
  }

  /** AreanodeEntityForLeaf: the front subtree is searched before the back
      one; the result is an area-portal entity of some leaf below, and
      none is found only when no leaf below has one. */
  function AreanodeEntity(nodes: seq<Node>, n: nat): (r: Option<nat>)
    requires WellFormed(nodes) && n < |nodes|
    ensures r.Some? ==> Mentions(nodes, n, r.value)
    ensures r.None? ==> forall e: nat :: !Mentions(nodes, n, e)
    decreases |nodes| - n
  {
    if !nodes[n].isLeaf then
      var r0 := AreanodeEntity(nodes, nodes[n].front);
      if r0.Some? then r0 else AreanodeEntity(nodes, nodes[n].back)
    else FirstEntity(nodes[n].brushAreaportals)
  }

  /** An entity mentioned below a node is a real entity. */
  lemma {:induction false} MentionsBound(g: AreaGraph, numEntities: nat, n: nat, e: nat)
    requires GraphOk(g, numEntities) && n < |g.nodes| && Mentions(g.nodes, n, e)
    ensures e < numEntities
    decreases |g.nodes| - n
  {
    var nd := g.nodes[n];
    if nd.isLeaf {
      var k :| 0 <= k < |nd.brushAreaportals| && nd.brushAreaportals[k] == Some(e);
    } else if Mentions(g.nodes, nd.front, e) {
      MentionsBound(g, numEntities, nd.front, e);
    } else {
      MentionsBound(g, numEntities, nd.back, e);
    }
  }

  /** Where the flood stops and records itself on an area-portal entity. */
  predicate PortalNode(g: AreaGraph, v: Variant, n: nat)
    requires WellFormed(g.nodes) && n < |g.nodes|
  {
    match v
    case Current =>
      (g.nodes[n].isLeaf || g.nodes[n].detailSeparator) && HasBit(ClusterNative(g.nodes, n, g.combine), AREAPORTAL)
    case Legacy(_) => g.nodes[n].native == AREAPORTAL
  }

  /** The area-portal entity of a portal node. */
  function PortalEntity(g: AreaGraph, v: Variant, n: nat): Option<nat>
    requires WellFormed(g.nodes) && n < |g.nodes|
  {
    match v
    case Current => AreanodeEntity(g.nodes, n)
    case Legacy(e) => Some(e)
  }

  /** An area-portal entity's pair of areas after area c touches it: an
      area it already holds or a third area changes nothing, otherwise c
      fills the first empty slot. */
  function Note(pa: (nat, nat), c: nat): (nat, nat)
  {
    if pa.0 == c || pa.1 == c then pa
    else if pa.1 != 0 then pa
    else if pa.0 != 0 then (pa.0, c)
    else (c, pa.1)
  }

  /** A well-formed pair: slot 1 is used only after slot 0, and with a
      different area. */
  predicate PairOk(pa: (nat, nat))
  {
    pa.1 != 0 ==> pa.0 != 0 && pa.0 != pa.1
  }

  /** Noting a nonzero area keeps a pair well formed, records the area
      unless two others are already there, and never drops an area. */
  lemma NoteRecords(pa: (nat, nat), c: nat)
    requires PairOk(pa) && c != 0
    ensures PairOk(Note(pa, c))
    ensures Note(pa, c).0 == c || Note(pa, c).1 == c <==> !(pa.1 != 0 && pa.0 != c && pa.1 != c)
    ensures pa.0 != 0 ==> Note(pa, c).0 == pa.0
    ensures pa.1 != 0 ==> Note(pa, c).1 == pa.1
  {
  }

  /** Touching the same entity twice from one area is the same as once. */
  lemma NoteIdempotent(pa: (nat, nat), c: nat)
    ensures Note(Note(pa, c), c) == Note(pa, c)
  {
  }

  /** Two pair lists agree except on entities where area c has been noted. */
  predicate Noted(before: seq<(nat, nat)>, after: seq<(nat, nat)>, c: nat)
  {
    |after| == |before| &&
    forall e :: 0 <= e < |before| ==> after[e] == before[e] || after[e] == Note(before[e], c)
  }

  /** Every node keeps its area or has area c. */
  predicate Painted(before: seq<nat>, after: seq<nat>, c: nat)
  {
    |after| == |before| && forall m :: 0 <= m < |before| ==> after[m] == before[m] || after[m] == c
  }

  /** Number of nodes without an area. */
  function Zeros(a: seq<nat>): (z: nat)
    ensures z <= |a|
  {
    if a == [] then 0 else (if a[0] == 0 then 1 else 0) + Zeros(a[1..])
  }

  lemma {:induction false} ZerosMono(a: seq<nat>, b: seq<nat>)
    requires |a| == |b| && forall m :: 0 <= m < |a| && a[m] != 0 ==> b[m] != 0
    ensures Zeros(b) <= Zeros(a)
  {
    if a != [] {
      ZerosMono(a[1..], b[1..]);
    }
  }

  lemma {:induction false} ZerosSet(a: seq<nat>, n: nat, c: nat)
    requires n < |a| && a[n] == 0 && c != 0
    ensures Zeros(a[n := c]) == Zeros(a) - 1
  {
    if n == 0 {
      assert a[n := c][1..] == a[1..];
    } else {
      assert a[n := c][1..] == a[1..][n - 1 := c];
      ZerosSet(a[1..], n - 1, c);
    }
  }

  /** Notes compose: noting c on top of notes of c is a note of c. */
  lemma NotedTrans(a: seq<(nat, nat)>, b: seq<(nat, nat)>, d: seq<(nat, nat)>, c: nat)
    requires Noted(a, b, c) && Noted(b, d, c)
    ensures Noted(a, d, c)
  {
    forall e | 0 <= e < |a|
      ensures d[e] == a[e] || d[e] == Note(a[e], c)
    {
      NoteIdempotent(a[e], c);
    }
  }

  lemma PaintedTrans(a: seq<nat>, b: seq<nat>, d: seq<nat>, c: nat)
    requires Painted(a, b, c) && Painted(b, d, c)
    ensures Painted(a, d, c)
  {
  }

  /** Painting with a nonzero area never creates a node without one. */
  lemma PaintedZeros(a: seq<nat>, b: seq<nat>, c: nat)
    requires Painted(a, b, c) && c != 0
    ensures Zeros(b) <= Zeros(a)
  {
    ZerosMono(a, b);
  }

  /** Q2_CONTENTS_SOLID, the solid bit of Quake II contents. */
  const Q2_SOLID: nat := 1
  /** Q2_CONTENTS_WATER. */
  const Q2_WATER: nat := 32

  /** `native & CONTENTS_SOLID` for the Quake CONTENTS_SOLID, -2: in two's
      complement -2 has every bit set but the lowest, so the test holds
      exactly when some bit above bit 0 is set. */
  predicate AndQuakeSolid(native: nat)
  {
    native / 2 != 0
  }

  /** The solidity test of FindAreas_r: is_any_solid in portals.cc, the
      Q2_CONTENTS_SOLID bit in qbsp.cc. */
  predicate SolidLeaf(v: Variant, nd: Node)
  {
    match v
    case Current => nd.solid
    case Legacy(_) => HasBit(nd.native, Q2_SOLID)
  }

  /** The solidity test of Portal_EntityFlood: is_any_solid in portals.cc;
      in qbsp.cc, as written, the Quake CONTENTS_SOLID mask (see the findings). */
  predicate FloodBlocked(v: Variant, nd: Node)
  {
    match v
    case Current => nd.solid
    case Legacy(_) => AndQuakeSolid(nd.native)
  }

  /** Portal_EntityFlood: both sides must be leafs, and the flood never
      crosses into a side its solidity test rejects. */
  function EntityFlood(g: AreaGraph, v: Variant, a: nat, b: nat): (r: Fallible<bool>)
    requires a < |g.nodes| && b < |g.nodes|
    ensures r.Fatal? <==> !g.nodes[a].isLeaf || !g.nodes[b].isLeaf
    ensures r == Ok(true) <==>
      g.nodes[a].isLeaf && g.nodes[b].isLeaf && !FloodBlocked(v, g.nodes[a]) && !FloodBlocked(v, g.nodes[b])
  {
    if !g.nodes[a].isLeaf || !g.nodes[b].isLeaf then Fatal("Portal_EntityFlood: not a leaf")
    else Ok(!(FloodBlocked(v, g.nodes[a]) || FloodBlocked(v, g.nodes[b])))
  }

  /** Portal_EntityFlood as intended: the flood stops at exactly the leafs
      FindAreas_r treats as solid. */
  function EntityFloodIntended(g: AreaGraph, v: Variant, a: nat, b: nat): (r: Fallible<bool>)
    requires a < |g.nodes| && b < |g.nodes|
    ensures r.Fatal? <==> !g.nodes[a].isLeaf || !g.nodes[b].isLeaf
    ensures r == Ok(true) <==>
      g.nodes[a].isLeaf && g.nodes[b].isLeaf && !SolidLeaf(v, g.nodes[a]) && !SolidLeaf(v, g.nodes[b])
  {
    if !g.nodes[a].isLeaf || !g.nodes[b].isLeaf then Fatal("Portal_EntityFlood: not a leaf")
    else Ok(!(SolidLeaf(v, g.nodes[a]) || SolidLeaf(v, g.nodes[b])))
  }

  /** In portals.cc both functions test is_any_solid, so the two agree. */
  lemma CurrentFloodAsIntended(g: AreaGraph, a: nat, b: nat)
    requires a < |g.nodes| && b < |g.nodes|
    ensures EntityFlood(g, Current, a, b) == EntityFloodIntended(g, Current, a, b)
  {
  }

  /** In qbsp.cc the flood crosses into a Quake II solid leaf and refuses a
      water leaf, the opposite of what FindAreas_r treats as solid. */
  lemma LegacyFloodSolidMismatch(g: AreaGraph, e: nat, a: nat, b: nat)
    requires a < |g.nodes| && b < |g.nodes| && g.nodes[a].isLeaf && g.nodes[b].isLeaf
    requires g.nodes[a].native == 0 && g.nodes[b].native in {Q2_SOLID, Q2_WATER}
    ensures g.nodes[b].native == Q2_SOLID ==>
      EntityFlood(g, Legacy(e), a, b) == Ok(true) && EntityFloodIntended(g, Legacy(e), a, b) == Ok(false)
    ensures g.nodes[b].native == Q2_WATER ==>
      EntityFlood(g, Legacy(e), a, b) == Ok(false) && EntityFloodIntended(g, Legacy(e), a, b) == Ok(true)
  {
  }

  /** The leaf tests of FindAreas_r, besides "no area yet": not solid, and
      (current version) reached by an entity; not an area portal itself
      (current: the bit is set; older: the contents are exactly it). */
  predicate Eligible(v: Variant, nd: Node)
  {
    !SolidLeaf(v, nd) &&
    match v
    case Current => nd.occupied != 0 && !HasBit(nd.native, AREAPORTAL)
    case Legacy(_) => nd.native != AREAPORTAL
  }

  /** Every area and every entity's recorded area is at most c. */
  predicate AreasBounded(area: seq<nat>, c: nat)
  {
    forall m :: 0 <= m < |area| ==> area[m] <= c
  }

  predicate PairsBounded(pas: seq<(nat, nat)>, c: nat)
  {
    forall e :: 0 <= e < |pas| ==> pas[e].0 <= c && pas[e].1 <= c
  }

  predicate PairsOk(pas: seq<(nat, nat)>)
  {
    forall e :: 0 <= e < |pas| ==> PairOk(pas[e])
  }

  /** Noting an area no larger than the bound keeps the pairs bounded and
      well formed. */
  lemma NotedKeeps(a: seq<(nat, nat)>, b: seq<(nat, nat)>, c: nat, bound: nat)
    requires Noted(a, b, c) && c != 0 && c <= bound
    ensures PairsBounded(a, bound) ==> PairsBounded(b, bound)
    ensures PairsOk(a) ==> PairsOk(b)
  {
    forall e | 0 <= e < |a| && PairOk(a[e])
      ensures PairOk(b[e])
    {
      NoteRecords(a[e], c);
    }
  }

  /** The area SetAreaPortalAreas_r gives a leaf: an area-portal leaf
      without an area takes the first area its entity recorded. */
  function ApArea(g: AreaGraph, v: Variant, m: nat, a: nat, pas: seq<(nat, nat)>): (r: nat)
    requires GraphOk(g, |pas|) && VariantOk(v, |pas|) && m < |g.nodes|
    ensures r == a || (a == 0 && g.nodes[m].native == AREAPORTAL && exists e :: 0 <= e < |pas| && r == pas[e].0)
  {
    if g.nodes[m].native != AREAPORTAL || a != 0 then a
    else
      match v
      case Legacy(e) => pas[e].0
      case Current =>
        match AreanodeEntity(g.nodes, m)
        case None => a
        case Some(e) =>
          MentionsBound(g, |pas|, m, e);
          pas[e].0
  }

  /** Giving a leaf its area-portal area twice is the same as once. */
  lemma ApAreaIdempotent(g: AreaGraph, v: Variant, m: nat, a: nat, pas: seq<(nat, nat)>)
    requires GraphOk(g, |pas|) && VariantOk(v, |pas|) && m < |g.nodes|
    ensures ApArea(g, v, m, ApArea(g, v, m, a, pas), pas) == ApArea(g, v, m, a, pas)
  {
  }

  /** A dareaportal_t: the portal number and the area on its far side. */
  datatype AreaPortal = AreaPortal(portalnum: nat, otherarea: nat)

  /** A darea_t: how many area-portal records, and where they start. */
  datatype DArea = DArea(numareaportals: nat, firstareaportal: nat)

  // ---------------------------------------------------------------------------
  // EmitAreaPortals

  /** The record an area-portal entity contributes to area i: its portal
      number and the other area it touches, or an all-zero record when it
      does not touch i. */
  function Record(num: nat, pa: (nat, nat), i: nat): AreaPortal
  {
    if pa.0 == i then AreaPortal(num, pa.1)
    else if pa.1 == i then AreaPortal(num, pa.0)
    else AreaPortal(0, 0)
  }

  /** Appending a record: the current version skips one equal to any
      record already emitted, the older one always appends. */
  function Add(l: seq<AreaPortal>, x: AreaPortal, dedup: bool): seq<AreaPortal>
  {
    if dedup && x in l then l else l + [x]
  }

  /** The records of area i from entities k.. appended to l. */
  function EmitEntities(l: seq<AreaPortal>, nums: seq<nat>, pas: seq<(nat, nat)>, i: nat, k: nat, dedup: bool)
      : (r: seq<AreaPortal>)
    requires |nums| == |pas| && k <= |nums|
    ensures |r| >= |l|
    decreases |nums| - k
  {
    if k == |nums| then l
    else
      var l' := if nums[k] == 0 then l else Add(l, Record(nums[k], pas[k], i), dedup);
      EmitEntities(l', nums, pas, i, k + 1, dedup)
  }

  datatype Emitted = Emitted(portals: seq<AreaPortal>, areas: seq<DArea>)

  /** Areas 1..n emitted after the records l0 and dareas ds0: each area's
      records, and a darea pointing at them. */
  function EmitAreas(l0: seq<AreaPortal>, ds0: seq<DArea>, nums: seq<nat>, pas: seq<(nat, nat)>, n: nat, dedup: bool)
      : (r: Emitted)
    requires |nums| == |pas|
    ensures |r.areas| == |ds0| + n && |r.portals| >= |l0|
  {
    if n == 0 then Emitted(l0, ds0) else EmitArea(EmitAreas(l0, ds0, nums, pas, n - 1, dedup), nums, pas, n, dedup)
  }

  /** Area i's records appended, and its darea. */
  function EmitArea(prev: Emitted, nums: seq<nat>, pas: seq<(nat, nat)>, i: nat, dedup: bool): (r: Emitted)
    requires |nums| == |pas|
    ensures |r.portals| >= |prev.portals|
    ensures r.areas == prev.areas + [DArea(|r.portals| - |prev.portals|, |prev.portals|)]
  {
    var l' := EmitEntities(prev.portals, nums, pas, i, 0, dedup);
    Emitted(l', prev.areas + [DArea(|l'| - |prev.portals|, |prev.portals|)])
  }

  predicate NoDup(l: seq<AreaPortal>)
  {
    forall a, b :: 0 <= a < b < |l| ==> l[a] != l[b]
  }

  lemma AddNoDup(l: seq<AreaPortal>, x: AreaPortal)
    requires NoDup(l)
    ensures NoDup(Add(l, x, true))
  {
  }

  lemma {:induction false} EmitEntitiesNoDup(l: seq<AreaPortal>, nums: seq<nat>, pas: seq<(nat, nat)>, i: nat, k: nat)
    requires |nums| == |pas| && k <= |nums| && NoDup(l)
    ensures NoDup(EmitEntities(l, nums, pas, i, k, true))
    decreases |nums| - k
  {
    if k < |nums| {
      var l' := if nums[k] == 0 then l else Add(l, Record(nums[k], pas[k], i), true);
      if nums[k] != 0 {
        AddNoDup(l, Record(nums[k], pas[k], i));
      }
      EmitEntitiesNoDup(l', nums, pas, i, k + 1);
    }
  }

  /** The current EmitAreaPortals never emits the same record twice. */
  lemma {:induction false} EmitAreasNoDup(l0: seq<AreaPortal>, ds0: seq<DArea>, nums: seq<nat>, pas: seq<(nat, nat)>, n: nat)
    requires |nums| == |pas| && NoDup(l0)
    ensures NoDup(EmitAreas(l0, ds0, nums, pas, n, true).portals)
  {
    if n > 0 {
      EmitAreasNoDup(l0, ds0, nums, pas, n - 1);
      EmitEntitiesNoDup(EmitAreas(l0, ds0, nums, pas, n - 1, true).portals, nums, pas, n, 0);
    }
  }

  function Elems(l: seq<AreaPortal>): set<AreaPortal>
  {
    set x | x in l
  }

  /** The records entities k.. contribute to area i. */
  function EntityRecords(nums: seq<nat>, pas: seq<(nat, nat)>, i: nat, k: nat): set<AreaPortal>
    requires |nums| == |pas| && k <= |nums|
    decreases |nums| - k
  {
    if k == |nums| then {}
    else (if nums[k] != 0 then {Record(nums[k], pas[k], i)} else {}) + EntityRecords(nums, pas, i, k + 1)
  }

  /** The records contributed to areas 1..n. */
  function AreaRecords(nums: seq<nat>, pas: seq<(nat, nat)>, n: nat): set<AreaPortal>
    requires |nums| == |pas|
  {
    if n == 0 then {} else AreaRecords(nums, pas, n - 1) + EntityRecords(nums, pas, n, 0)
  }

  /** A record is contributed to area i exactly when some area-portal
      entity touching i, or any area-portal entity for the all-zero
      record, produces it. */
  lemma {:induction false} EntityRecordsAre(nums: seq<nat>, pas: seq<(nat, nat)>, i: nat, k: nat, x: AreaPortal)
    requires |nums| == |pas| && k <= |nums|
    ensures x in EntityRecords(nums, pas, i, k) <==>
      exists j :: k <= j < |nums| && nums[j] != 0 && x == Record(nums[j], pas[j], i)
    decreases |nums| - k
  {
    if k < |nums| {
      EntityRecordsAre(nums, pas, i, k + 1, x);
      if x in EntityRecords(nums, pas, i, k) && !(nums[k] != 0 && x == Record(nums[k], pas[k], i)) {
        var j :| k + 1 <= j < |nums| && nums[j] != 0 && x == Record(nums[j], pas[j], i);
      }
    }
  }

  lemma ElemsAdd(l: seq<AreaPortal>, x: AreaPortal, dedup: bool)
    ensures Elems(Add(l, x, dedup)) == Elems(l) + {x}
  {
    if !(dedup && x in l) {
      assert forall y :: y in l + [x] <==> y in l || y == x;
    }
  }

  /** Emitting only appends: the records already there are kept in place. */
  lemma {:induction false} EmitEntitiesPrefix(l: seq<AreaPortal>, nums: seq<nat>, pas: seq<(nat, nat)>, i: nat, k: nat, dedup: bool)
    requires |nums| == |pas| && k <= |nums|
    ensures EmitEntities(l, nums, pas, i, k, dedup)[..|l|] == l
    decreases |nums| - k
  {
    if k < |nums| {
      var l' := if nums[k] == 0 then l else Add(l, Record(nums[k], pas[k], i), dedup);
      assert l'[..|l|] == l;
      EmitEntitiesPrefix(l', nums, pas, i, k + 1, dedup);
      assert EmitEntities(l, nums, pas, i, k, dedup) == EmitEntities(l', nums, pas, i, k + 1, dedup);
      assert EmitEntities(l, nums, pas, i, k, dedup)[..|l|] == EmitEntities(l', nums, pas, i, k + 1, dedup)[..|l'|][..|l|];
    }
  }

  lemma {:induction false} EmitEntitiesElems(l: seq<AreaPortal>, nums: seq<nat>, pas: seq<(nat, nat)>, i: nat, k: nat, dedup: bool)
    requires |nums| == |pas| && k <= |nums|
    ensures Elems(EmitEntities(l, nums, pas, i, k, dedup)) == Elems(l) + EntityRecords(nums, pas, i, k)
    decreases |nums| - k
  {
    if k < |nums| {
      var l' := if nums[k] == 0 then l else Add(l, Record(nums[k], pas[k], i), dedup);
      if nums[k] != 0 {
        ElemsAdd(l, Record(nums[k], pas[k], i), dedup);
      }
      EmitEntitiesElems(l', nums, pas, i, k + 1, dedup);
    }
  }

  lemma UnionStep<T>(x: set<T>, y: set<T>, a: set<T>, b: set<T>, c: set<T>)
    requires x == y + c && y == a + b
    ensures x == a + b + c
  {
  }

  /** The records emitted are exactly those already there plus, for each
      area 1..n, the record of every area-portal entity; with or without
      deduplication. */
  lemma {:induction false} EmitAreasElems(l0: seq<AreaPortal>, ds0: seq<DArea>, nums: seq<nat>, pas: seq<(nat, nat)>,
                                          n: nat, dedup: bool)
    requires |nums| == |pas|
    ensures Elems(EmitAreas(l0, ds0, nums, pas, n, dedup).portals) == Elems(l0) + AreaRecords(nums, pas, n)
  {
    if n > 0 {
      EmitAreasElems(l0, ds0, nums, pas, n - 1, dedup);
      var prev := EmitAreas(l0, ds0, nums, pas, n - 1, dedup).portals;
      var out := EmitAreas(l0, ds0, nums, pas, n, dedup).portals;
      assert out == EmitEntities(prev, nums, pas, n, 0, dedup);
      EmitEntitiesElems(prev, nums, pas, n, 0, dedup);
      UnionStep(Elems(out), Elems(prev), Elems(l0), AreaRecords(nums, pas, n - 1), EntityRecords(nums, pas, n, 0));
    }
  }

  /** The dareas after ds0 describe consecutive runs of records: the first
      starts at the end of l0, each starts where the previous one ended,
      and the last ends at the end of the record list. */
  ghost predicate Layout(l0: seq<AreaPortal>, ds0: seq<DArea>, out: Emitted)
  {
    |out.areas| >= |ds0| &&
    (|out.areas| == |ds0| ==> |out.portals| == |l0|) &&
    (|out.areas| > |ds0| ==>
       out.areas[|ds0|].firstareaportal == |l0| &&
       out.areas[|out.areas| - 1].firstareaportal + out.areas[|out.areas| - 1].numareaportals == |out.portals|) &&
    forall j, k {:trigger out.areas[j], out.areas[k]} :: |ds0| <= j < k < |out.areas| && k == j + 1 ==>
      out.areas[j].firstareaportal + out.areas[j].numareaportals == out.areas[k].firstareaportal
  }

  /** Appending one darea that starts where the records stood and covers the
      records appended keeps the layout. */
  lemma LayoutStep(l0: seq<AreaPortal>, ds0: seq<DArea>, prev: Emitted, out: Emitted)
    requires Layout(l0, ds0, prev)
    requires |out.portals| >= |prev.portals|
    requires out.areas == prev.areas + [DArea(|out.portals| - |prev.portals|, |prev.portals|)]
    ensures Layout(l0, ds0, out)
  {
    forall j, k | |ds0| <= j < k < |out.areas| && k == j + 1
      ensures out.areas[j].firstareaportal + out.areas[j].numareaportals == out.areas[k].firstareaportal
    {
      if k < |prev.areas| {
        assert out.areas[j] == prev.areas[j] && out.areas[k] == prev.areas[k];
      } else {
        assert out.areas[j] == prev.areas[j];
      }
    }
  }

  /** Emission only appends: the earlier dareas and records are kept. */
  lemma {:induction false} EmitAreasKeeps(l0: seq<AreaPortal>, ds0: seq<DArea>, nums: seq<nat>, pas: seq<(nat, nat)>,
                                          n: nat, dedup: bool)
    requires |nums| == |pas|
    ensures EmitAreas(l0, ds0, nums, pas, n, dedup).areas[..|ds0|] == ds0
    ensures EmitAreas(l0, ds0, nums, pas, n, dedup).portals[..|l0|] == l0
  {
    if n > 0 {
      EmitAreasKeeps(l0, ds0, nums, pas, n - 1, dedup);
      var prev := EmitAreas(l0, ds0, nums, pas, n - 1, dedup);
      var l := EmitEntities(prev.portals, nums, pas, n, 0, dedup);
      assert EmitAreas(l0, ds0, nums, pas, n, dedup) == EmitArea(prev, nums, pas, n, dedup);
      assert EmitArea(prev, nums, pas, n, dedup).portals == l;
      EmitEntitiesPrefix(prev.portals, nums, pas, n, 0, dedup);
      assert l[..|l0|] == l[..|prev.portals|][..|l0|];
    }
  }

  /** One area's emission keeps the layout. */
  lemma EmitAreaLayout(l0: seq<AreaPortal>, ds0: seq<DArea>, prev: Emitted, nums: seq<nat>, pas: seq<(nat, nat)>,
                       i: nat, dedup: bool)
    requires |nums| == |pas|
    requires Layout(l0, ds0, prev)
    ensures Layout(l0, ds0, EmitArea(prev, nums, pas, i, dedup))
  {
    LayoutStep(l0, ds0, prev, EmitArea(prev, nums, pas, i, dedup));
  }

  /** The dareas emission adds describe consecutive runs covering every
      record appended. */
  lemma {:induction false} EmitAreasLayout(l0: seq<AreaPortal>, ds0: seq<DArea>, nums: seq<nat>, pas: seq<(nat, nat)>,
                                           n: nat, dedup: bool)
    requires |nums| == |pas|
    ensures Layout(l0, ds0, EmitAreas(l0, ds0, nums, pas, n, dedup))
  {
    if n > 0 {
      EmitAreasLayout(l0, ds0, nums, pas, n - 1, dedup);
      var prev := EmitAreas(l0, ds0, nums, pas, n - 1, dedup);
      EmitAreaLayout(l0, ds0, prev, nums, pas, n, dedup);
      assert EmitAreas(l0, ds0, nums, pas, n, dedup) == EmitArea(prev, nums, pas, n, dedup);
    }
  }

  /** The map in the area-portal test: one area portal (number 1) between
      areas 1 and 2 gives the placeholder record plus one record per side,
      and one darea per area. */
  /** The stand-in that qbsp.cc's ProcessEntity runs for Quake II while its
      calls of FloodAreas and EmitAreaPortals are commented out: one empty
      area-portal record, then the areas {0, 0} and {0, 1}. Other games get
      nothing. */
  function TempAreaStub(e: Emitted, q2: bool): (r: Emitted)
    ensures !q2 ==> r == e
    ensures q2 ==> e.portals <= r.portals && e.areas <= r.areas
    ensures q2 ==> |r.portals| == |e.portals| + 1 && r.portals[|e.portals|] == AreaPortal(0, 0)
    ensures q2 ==> |r.areas| == |e.areas| + 2 && r.areas[|e.areas|] == DArea(0, 0) &&
                   r.areas[|e.areas| + 1] == DArea(0, 1)
  {
    if q2 then Emitted(e.portals + [AreaPortal(0, 0)], e.areas + [DArea(0, 0), DArea(0, 1)])
    else e
  }

  /** On a BSP with no area data yet, the stand-in writes exactly what
      EmitAreaPortals writes for a map of one area and no area-portal
      entities: the placeholder record and darea, then an empty area 1. */
  lemma TempStubIsOneArea(dedup: bool)
    ensures TempAreaStub(Emitted([], []), true) == EmitAreas([AreaPortal(0, 0)], [DArea(0, 0)], [], [], 1, dedup)
    ensures Layout([AreaPortal(0, 0)], [DArea(0, 0)], TempAreaStub(Emitted([], []), true))
  {
    var l0 := [AreaPortal(0, 0)];
    assert EmitEntities(l0, [], [], 1, 0, dedup) == l0;
    assert EmitAreas(l0, [DArea(0, 0)], [], [], 0, dedup) == Emitted(l0, [DArea(0, 0)]);
  }

  lemma EmitAreaPortalTestMap()
    ensures EmitAreas([AreaPortal(0, 0)], [DArea(0, 0)], [1], [(1, 2)], 2, true) ==
      Emitted([AreaPortal(0, 0), AreaPortal(1, 2), AreaPortal(1, 1)], [DArea(0, 0), DArea(1, 1), DArea(1, 2)])
  {
    var l1 := [AreaPortal(0, 0), AreaPortal(1, 2)];
    assert EmitEntities(l1, [1], [(1, 2)], 1, 1, true) == l1;
    assert EmitAreas([AreaPortal(0, 0)], [DArea(0, 0)], [1], [(1, 2)], 1, true) == Emitted(l1, [DArea(0, 0), DArea(1, 1)]);
    var l2 := l1 + [AreaPortal(1, 1)];
    assert EmitEntities(l2, [1], [(1, 2)], 2, 1, true) == l2;
  }

  /** In the older EmitAreaPortals, an area-portal entity that does not
      touch area i still appends an all-zero record to area i, which
      repeats the placeholder record 0 and is counted in area i's darea. */
  lemma LegacyEmitRepeatsPlaceholder()
    ensures var out := EmitAreas([AreaPortal(0, 0)], [DArea(0, 0)], [1, 2], [(1, 2), (2, 3)], 3, false);
      |out.portals| > 2 && out.portals[2] == out.portals[0] == AreaPortal(0, 0) && out.areas[1] == DArea(2, 1)
  {
    var nums := [1, 2];
    var pas := [(1, 2), (2, 3)];
    var l0 := [AreaPortal(0, 0)];
    var l1 := l0 + [AreaPortal(1, 2)] + [AreaPortal(0, 0)];
    assert EmitEntities(l1, nums, pas, 1, 2, false) == l1;
    assert EmitEntities(l0 + [AreaPortal(1, 2)], nums, pas, 1, 1, false) == l1;
    var e1 := EmitAreas(l0, [DArea(0, 0)], nums, pas, 1, false);
    assert e1 == Emitted(l1, [DArea(0, 0), DArea(2, 1)]);
    var e2 := EmitAreas(l0, [DArea(0, 0)], nums, pas, 2, false);
    var e3 := EmitAreas(l0, [DArea(0, 0)], nums, pas, 3, false);
    assert e2.areas[..2] == e1.areas && e3.areas[..3] == e2.areas;
    assert e2.portals[..|l1|] == l1 && e3.portals[..|e2.portals|] == e2.portals;
  }

  /** The inner loop over entities for area i. */
  method EmitAreaRecords(l0: seq<AreaPortal>, nums: seq<nat>, pas: seq<(nat, nat)>, i: nat, dedup: bool)
      returns (l: seq<AreaPortal>)
    requires |nums| == |pas|
    ensures l == EmitEntities(l0, nums, pas, i, 0, dedup)
  {
    l := l0;
    var k := 0;
    while k < |nums|
      invariant 0 <= k <= |nums|
      invariant EmitEntities(l, nums, pas, i, k, dedup) == EmitEntities(l0, nums, pas, i, 0, dedup)
    {
      if nums[k] != 0 {
        l := AddRecord(l, Record(nums[k], pas[k], i), dedup);
      }
      k := k + 1;
    }
  }

  /** The search for an equal record before appending. */
  method AddRecord(l0: seq<AreaPortal>, dp: AreaPortal, dedup: bool) returns (l: seq<AreaPortal>)
    ensures l == Add(l0, dp, dedup)
  {
    var j := 0;
    while dedup && j < |l0| && l0[j] != dp
      invariant 0 <= j <= |l0|
      invariant forall t :: 0 <= t < j ==> l0[t] != dp
    {
      j := j + 1;
    }
    if !dedup || j == |l0| {
      l := l0 + [dp];
    } else {
      l := l0;
    }
  }

  // ---------------------------------------------------------------------------
  // What FloodAreas_r reaches

  /** The structural part of GraphOk: the tree is well formed and every
      listed portal names its two nodes. */
  predicate Shaped(g: AreaGraph)
  {
    WellFormed(g.nodes) && |g.links| == |g.nodes| && Linked(g.sides, g.links)
  }

  /** The node on the far side of node x's k-th portal, as FloodAreas_r
      picks it: the portal's other node, or x itself for a portal with x
      on both sides. */
  function Across(g: AreaGraph, x: nat, k: nat): (y: nat)
    requires Shaped(g) && x < |g.nodes| && k < |g.links[x]|
    ensures y < |g.nodes|
    ensures Touches(g.sides[g.links[x][k]], x)
  {
    var pn := g.sides[g.links[x][k]].value;
    if pn.1 == x then pn.0 else pn.1
  }

  /** Portal_EntityFlood lets the flood through x's k-th portal. */
  predicate Passes(g: AreaGraph, v: Variant, x: nat, k: nat)
    requires Shaped(g) && x < |g.nodes| && k < |g.links[x]|
  {
    var pn := g.sides[g.links[x][k]].value;
    EntityFlood(g, v, pn.0, pn.1) == Ok(true)
  }

  /** One step of the flood: from x through a portal it lets through, to y. */
  ghost predicate Step(g: AreaGraph, v: Variant, x: nat, y: nat)
    requires Shaped(g) && x < |g.nodes|
  {
    exists k :: 0 <= k < |g.links[x]| && Passes(g, v, x, k) && Across(g, x, k) == y
  }

  /** A node the flood paints when it arrives: not an area-portal node and
      without an area in the map a0. */
  predicate Open(g: AreaGraph, v: Variant, a0: seq<nat>, m: nat)
    requires Shaped(g)
  {
    m < |g.nodes| && m < |a0| && !PortalNode(g, v, m) && a0[m] == 0
  }

  /** A walk of open nodes, each a flood step from the one before. */
  ghost predicate Walk(g: AreaGraph, v: Variant, a0: seq<nat>, w: seq<nat>)
    requires Shaped(g)
  {
    (forall i :: 0 <= i < |w| ==> Open(g, v, a0, w[i])) &&
    (forall i :: 0 <= i < |w| - 1 ==> w[i] < |g.nodes| && Step(g, v, w[i], w[i + 1]))
  }

  /** m is reached from s: some walk of open nodes leads from s to m. */
  ghost predicate Reached(g: AreaGraph, v: Variant, a0: seq<nat>, s: nat, m: nat)
    requires Shaped(g)
  {
    exists w :: |w| > 0 && w[0] == s && w[|w| - 1] == m && Walk(g, v, a0, w)
  }

  /** Flooding x paints m: m is x, or (current version) x is an inner node
      and ApplyArea_r paints m below it. */
  predicate Covers(g: AreaGraph, v: Variant, x: nat, m: nat)
    requires WellFormed(g.nodes)
  {
    x < |g.nodes| && (x == m || (v.Current? && !g.nodes[x].isLeaf && Descendant(g.nodes, x, m)))
  }

  /** m gets the area of a flooded set F. */
  ghost predicate InPaint(g: AreaGraph, v: Variant, F: set<nat>, m: nat)
    requires WellFormed(g.nodes)
  {
    exists x :: x in F && Covers(g, v, x, m)
  }

  /** a1 is a0 with area c on exactly the nodes flooding F paints. */
  ghost predicate Paints(g: AreaGraph, v: Variant, a0: seq<nat>, a1: seq<nat>, F: set<nat>, c: nat)
    requires WellFormed(g.nodes)
  {
    |a0| == |g.nodes| && |a1| == |g.nodes| &&
    forall m :: 0 <= m < |g.nodes| ==> a1[m] == if InPaint(g, v, F, m) then c else a0[m]
  }

  /** The flood stops at y: an area-portal node, a node that already had
      an area, or one it has flooded. */
  predicate Blocked(g: AreaGraph, v: Variant, a0: seq<nat>, F: set<nat>, y: nat)
    requires Shaped(g) && y < |g.nodes| && |a0| == |g.nodes|
  {
    PortalNode(g, v, y) || a0[y] != 0 || y in F
  }

  /** Every portal of x with index below upto that the flood may cross
      leads to where it stops. */
  ghost predicate HandledUpTo(g: AreaGraph, v: Variant, a0: seq<nat>, F: set<nat>, x: nat, upto: nat)
    requires Shaped(g) && |a0| == |g.nodes| && x < |g.nodes|
  {
    forall k :: 0 <= k < |g.links[x]| && k < upto && Passes(g, v, x, k) ==> Blocked(g, v, a0, F, Across(g, x, k))
  }

  /** Every portal of x the flood may cross leads to where it stops. */
  ghost predicate Handled(g: AreaGraph, v: Variant, a0: seq<nat>, F: set<nat>, x: nat)
    requires Shaped(g) && |a0| == |g.nodes|
  {
    x < |g.nodes| && HandledUpTo(g, v, a0, F, x, |g.links[x]|)
  }

  /** F is closed under flood steps: no passable portal leads out of F to
      a node the flood would still paint. */
  ghost predicate Closed(g: AreaGraph, v: Variant, a0: seq<nat>, F: set<nat>)
    requires Shaped(g) && |a0| == |g.nodes|
  {
    forall x :: x in F ==> Handled(g, v, a0, F, x)
  }

  /** Every node of F is open in a0 and reached from node. */
  ghost predicate FloodedFrom(g: AreaGraph, v: Variant, a0: seq<nat>, F: set<nat>, node: nat)
    requires Shaped(g)
  {
    forall x :: x in F ==> Open(g, v, a0, x) && Reached(g, v, a0, node, x)
  }

  /** Every node of F but node is a leaf. */
  predicate LeafsBut(g: AreaGraph, F: set<nat>, node: nat)
  {
    forall x :: x in F && x != node ==> x < |g.nodes| && g.nodes[x].isLeaf
  }

  /** Every node of F is a leaf. */
  predicate Leafs(g: AreaGraph, F: set<nat>)
  {
    forall x :: x in F ==> x < |g.nodes| && g.nodes[x].isLeaf
  }

  /** Closed, except that node's own portals are not yet accounted for. */
  ghost predicate ClosedBut(g: AreaGraph, v: Variant, a0: seq<nat>, F: set<nat>, node: nat)
    requires Shaped(g) && |a0| == |g.nodes|
  {
    forall x :: x in F && x != node ==> Handled(g, v, a0, F, x)
  }

  /** A leaf paints only itself. */
  lemma InPaintLeafs(g: AreaGraph, v: Variant, F: set<nat>, m: nat)
    requires WellFormed(g.nodes) && Leafs(g, F)
    ensures InPaint(g, v, F, m) <==> m in F
  {
  }

  lemma InPaintUnion(g: AreaGraph, v: Variant, F: set<nat>, G: set<nat>, m: nat)
    requires WellFormed(g.nodes)
    ensures InPaint(g, v, F + G, m) <==> InPaint(g, v, F, m) || InPaint(g, v, G, m)
  {
    if InPaint(g, v, F + G, m) {
      var x :| x in F + G && Covers(g, v, x, m);
      assert x in F || x in G;
    }
  }

  /** Painting node on its own: the node, and below it for an inner node of
      the current version. */
  lemma PaintsStart(g: AreaGraph, v: Variant, a0: seq<nat>, a1: seq<nat>, node: nat, c: nat)
    requires WellFormed(g.nodes) && node < |g.nodes| && |a0| == |g.nodes| && |a1| == |g.nodes|
    requires forall m :: 0 <= m < |g.nodes| ==>
      a1[m] == if m == node || (v.Current? && !g.nodes[node].isLeaf && Descendant(g.nodes, node, m)) then c else a0[m]
    ensures Paints(g, v, a0, a1, {node}, c)
  {
    forall m | 0 <= m < |g.nodes|
      ensures InPaint(g, v, {node}, m) <==> m == node || (v.Current? && !g.nodes[node].isLeaf && Descendant(g.nodes, node, m))
    {
    }
  }

  lemma PaintsCompose(g: AreaGraph, v: Variant, a0: seq<nat>, a1: seq<nat>, a2: seq<nat>, F: set<nat>, G: set<nat>, c: nat)
    requires WellFormed(g.nodes) && Paints(g, v, a0, a1, F, c) && Paints(g, v, a1, a2, G, c)
    ensures Paints(g, v, a0, a2, F + G, c)
  {
    forall m | 0 <= m < |g.nodes|
      ensures a2[m] == if InPaint(g, v, F + G, m) then c else a0[m]
    {
      InPaintUnion(g, v, F, G, m);
    }
  }

  /** A node open after painting with c != 0 was open before. */
  lemma OpenBefore(g: AreaGraph, v: Variant, a0: seq<nat>, a1: seq<nat>, F: set<nat>, c: nat, m: nat)
    requires Shaped(g) && Paints(g, v, a0, a1, F, c) && c != 0 && Open(g, v, a1, m)
    ensures Open(g, v, a0, m) && !InPaint(g, v, F, m)
  {
  }

  /** A walk of nodes open after painting is a walk before it. */
  lemma ReachedBefore(g: AreaGraph, v: Variant, a0: seq<nat>, a1: seq<nat>, F: set<nat>, c: nat, s: nat, m: nat)
    requires Shaped(g) && Paints(g, v, a0, a1, F, c) && c != 0 && Reached(g, v, a1, s, m)
    ensures Reached(g, v, a0, s, m)
  {
    var w :| |w| > 0 && w[0] == s && w[|w| - 1] == m && Walk(g, v, a1, w);
    forall i | 0 <= i < |w|
      ensures Open(g, v, a0, w[i])
    {
      OpenBefore(g, v, a0, a1, F, c, w[i]);
    }
    assert Walk(g, v, a0, w);
  }

  /** A walk extended at its front by one step from an open node. */
  lemma WalkCons(g: AreaGraph, v: Variant, a0: seq<nat>, x: nat, w: seq<nat>)
    requires Shaped(g) && x < |g.nodes| && Open(g, v, a0, x)
    requires |w| > 0 && Step(g, v, x, w[0]) && Walk(g, v, a0, w)
    ensures Walk(g, v, a0, [x] + w)
  {
    var w' := [x] + w;
    forall i | 0 <= i < |w'|
      ensures Open(g, v, a0, w'[i])
    {
      if i > 0 {
        assert w'[i] == w[i - 1];
      }
    }
    forall i | 0 <= i < |w'| - 1
      ensures w'[i] < |g.nodes| && Step(g, v, w'[i], w'[i + 1])
    {
      if i > 0 {
        assert w'[i] == w[i - 1] && w'[i + 1] == w[i];
      }
    }
  }

  /** A passable portal is a step. */
  lemma StepVia(g: AreaGraph, v: Variant, x: nat, k: nat)
    requires Shaped(g) && x < |g.nodes| && k < |g.links[x]| && Passes(g, v, x, k)
    ensures Step(g, v, x, Across(g, x, k))
  {
  }

  /** A walk reaches its last node from its first. */
  lemma WalkReaches(g: AreaGraph, v: Variant, a0: seq<nat>, w: seq<nat>)
    requires Shaped(g) && |w| > 0 && Walk(g, v, a0, w)
    ensures Reached(g, v, a0, w[0], w[|w| - 1])
  {
  }

  /** An open node one passable portal away from an open node reaches all it reaches. */
  lemma ReachedPrepend(g: AreaGraph, v: Variant, a0: seq<nat>, x: nat, k: nat, m: nat)
    requires Shaped(g) && x < |g.nodes| && k < |g.links[x]| && Open(g, v, a0, x)
    requires Passes(g, v, x, k) && Reached(g, v, a0, Across(g, x, k), m)
    ensures Reached(g, v, a0, x, m)
  {
    var w :| |w| > 0 && w[0] == Across(g, x, k) && w[|w| - 1] == m && Walk(g, v, a0, w);
    StepVia(g, v, x, k);
    WalkCons(g, v, a0, x, w);
    var w' := [x] + w;
    assert w'[0] == x && w'[|w'| - 1] == m;
    WalkReaches(g, v, a0, w');
  }

  /** A node reached by a walk that starts inside a closed set stays inside it. */
  lemma {:induction false} ClosedWalk(g: AreaGraph, v: Variant, a0: seq<nat>, F: set<nat>, w: seq<nat>)
    requires Shaped(g) && |a0| == |g.nodes| && Closed(g, v, a0, F)
    requires |w| > 0 && w[0] in F && Walk(g, v, a0, w)
    ensures w[|w| - 1] in F
    decreases |w|
  {
    if |w| > 1 {
      var u := w[..|w| - 1];
      assert Walk(g, v, a0, u) by {
        forall i | 0 <= i < |u| - 1
          ensures u[i] < |g.nodes| && Step(g, v, u[i], u[i + 1])
        {
          assert u[i] == w[i] && u[i + 1] == w[i + 1];
        }
      }
      ClosedWalk(g, v, a0, F, u);
      var x := w[|w| - 2];
      assert x == u[|u| - 1];
      assert Step(g, v, x, w[|w| - 1]);
      var k :| 0 <= k < |g.links[x]| && Passes(g, v, x, k) && Across(g, x, k) == w[|w| - 1];
      assert Handled(g, v, a0, F, x);
      assert Open(g, v, a0, w[|w| - 1]);
    }
  }

  /** A finished flood of F from node: F is exactly what node reaches, and
      when F holds only leafs the areas given are exactly the reached nodes. */
  lemma FloodMeaning(g: AreaGraph, v: Variant, a0: seq<nat>, a1: seq<nat>, F: set<nat>, node: nat, c: nat)
    requires Shaped(g) && node < |g.nodes| && Paints(g, v, a0, a1, F, c) && Closed(g, v, a0, F)
    requires node in F <==> Open(g, v, a0, node)
    requires FloodedFrom(g, v, a0, F, node)
    ensures forall m :: m in F <==> Reached(g, v, a0, node, m)
    ensures Leafs(g, F) ==>
      forall m :: 0 <= m < |g.nodes| ==> a1[m] == if Reached(g, v, a0, node, m) then c else a0[m]
  {
    forall m | Reached(g, v, a0, node, m)
      ensures m in F
    {
      var w :| |w| > 0 && w[0] == node && w[|w| - 1] == m && Walk(g, v, a0, w);
      assert Open(g, v, a0, w[0]);
      ClosedWalk(g, v, a0, F, w);
    }
    if Leafs(g, F) {
      forall m | 0 <= m < |g.nodes|
        ensures a1[m] == if Reached(g, v, a0, node, m) then c else a0[m]
      {
        InPaintLeafs(g, v, F, m);
      }
    }
  }

  /** Where a flood from a1 stops, a flood from a0 that painted F stops too. */
  lemma BlockedBefore(g: AreaGraph, v: Variant, a0: seq<nat>, a1: seq<nat>, F: set<nat>, G: set<nat>, c: nat, y: nat)
    requires Shaped(g) && y < |g.nodes| && Paints(g, v, a0, a1, F, c) && Leafs(g, F)
    requires PortalNode(g, v, y) || a1[y] != 0 || y in G
    ensures Blocked(g, v, a0, F + G, y)
  {
    InPaintLeafs(g, v, F, y);
  }

  /** Where FloodAreas_r returns: what the flooded set F and the areas a1
      mean, from the facts the walk keeps (ok: no portal was fatal). */
  lemma FloodEnd(g: AreaGraph, v: Variant, a0: seq<nat>, a1: seq<nat>, F: set<nat>, node: nat, c: nat, ok: bool)
    requires Shaped(g) && node < |g.nodes| && c != 0 && Paints(g, v, a0, a1, F, c)
    requires node in F <==> Open(g, v, a0, node)
    requires FloodedFrom(g, v, a0, F, node) && LeafsBut(g, F, node)
    requires ok ==> Closed(g, v, a0, F)
    ensures Painted(a0, a1, c)
    ensures Open(g, v, a0, node) ==> a1[node] == c
    ensures ok ==> forall m :: m in F <==> Reached(g, v, a0, node, m)
    ensures ok && (v.Legacy? || g.nodes[node].isLeaf) ==>
      forall m :: 0 <= m < |g.nodes| ==> a1[m] == if Reached(g, v, a0, node, m) then c else a0[m]
    ensures v.Legacy? || g.nodes[node].isLeaf ==>
      forall m :: 0 <= m < |g.nodes| && a0[m] != 0 ==> a1[m] == a0[m]
  {
    if Open(g, v, a0, node) {
      assert Covers(g, v, node, node);
    }
    if ok {
      FloodMeaning(g, v, a0, a1, F, node, c);
    }
    if v.Legacy? || g.nodes[node].isLeaf {
      KeepsAssigned(g, v, a0, a1, F, node, c);
    }
  }

  /** The facts the walk of FloodAreas_r keeps about its flooded set F
      while it has handled node's first k portals. */
  ghost predicate Flooding(g: AreaGraph, v: Variant, a0: seq<nat>, a1: seq<nat>, F: set<nat>, node: nat, k: nat, c: nat)
    requires Shaped(g) && node < |g.nodes|
  {
    Paints(g, v, a0, a1, F, c) && node in F && FloodedFrom(g, v, a0, F, node) && LeafsBut(g, F, node) &&
    ClosedBut(g, v, a0, F, node) && HandledUpTo(g, v, a0, F, node, k)
  }

  /** All of node's portals handled close a set closed but for node. */
  lemma FloodClose(g: AreaGraph, v: Variant, a0: seq<nat>, a1: seq<nat>, F: set<nat>, node: nat, c: nat)
    requires Shaped(g) && node < |g.nodes| && Flooding(g, v, a0, a1, F, node, |g.links[node]|, c)
    ensures Closed(g, v, a0, F)
  {
  }

  /** Stopping places only grow with the flooded set. */
  lemma HandledGrow(g: AreaGraph, v: Variant, a0: seq<nat>, F: set<nat>, G: set<nat>, x: nat, upto: nat)
    requires Shaped(g) && |a0| == |g.nodes| && x < |g.nodes| && HandledUpTo(g, v, a0, F, x, upto)
    ensures HandledUpTo(g, v, a0, F + G, x, upto)
  {
  }

  /** A portal the flood may not cross needs no stop. */
  lemma HandledNext(g: AreaGraph, v: Variant, a0: seq<nat>, a1: seq<nat>, F: set<nat>, node: nat, k: nat, c: nat)
    requires Shaped(g) && node < |g.nodes| && k < |g.links[node]|
    requires Flooding(g, v, a0, a1, F, node, k, c) && !Passes(g, v, node, k)
    ensures Flooding(g, v, a0, a1, F, node, k + 1, c)
  {
  }

  /** A flood from a leaf, or the older flood, paints only nodes that had
      no area. */
  lemma KeepsAssigned(g: AreaGraph, v: Variant, a0: seq<nat>, a1: seq<nat>, F: set<nat>, node: nat, c: nat)
    requires Shaped(g) && node < |g.nodes| && Paints(g, v, a0, a1, F, c)
    requires FloodedFrom(g, v, a0, F, node) && LeafsBut(g, F, node)
    requires v.Legacy? || g.nodes[node].isLeaf
    ensures forall m :: 0 <= m < |g.nodes| && a0[m] != 0 ==> a1[m] == a0[m]
  {
    forall m | 0 <= m < |g.nodes| && InPaint(g, v, F, m)
      ensures a0[m] == 0
    {
      var x :| x in F && Covers(g, v, x, m);
      assert Open(g, v, a0, x);
    }
  }

  /** A node's portals handled for a flood from a1 are handled for the
      flood from a0 that painted the leafs F first. */
  lemma HandledBefore(g: AreaGraph, v: Variant, a0: seq<nat>, a1: seq<nat>, F: set<nat>, G: set<nat>, c: nat, x: nat)
    requires Shaped(g) && Paints(g, v, a0, a1, F, c) && Leafs(g, F)
    requires Handled(g, v, a1, G, x)
    ensures Handled(g, v, a0, F + G, x)
  {
    forall j | 0 <= j < |g.links[x]| && Passes(g, v, x, j)
      ensures Blocked(g, v, a0, F + G, Across(g, x, j))
    {
      BlockedBefore(g, v, a0, a1, F, G, c, Across(g, x, j));
    }
  }

  /** What the flood through node's k-th portal reached from its far side,
      node reaches, and it was open before node's flood began. */
  lemma FloodReach(g: AreaGraph, v: Variant, a0: seq<nat>, a1: seq<nat>, F: set<nat>, G: set<nat>,
                   node: nat, k: nat, c: nat)
    requires Shaped(g) && node < |g.nodes| && k < |g.links[node]| && c != 0
    requires Paints(g, v, a0, a1, F, c) && Open(g, v, a0, node) && Passes(g, v, node, k)
    requires FloodedFrom(g, v, a1, G, Across(g, node, k))
    ensures FloodedFrom(g, v, a0, G, node)
  {
    forall x | x in G
      ensures Open(g, v, a0, x) && Reached(g, v, a0, node, x)
    {
      OpenBefore(g, v, a0, a1, F, c, x);
      ReachedBefore(g, v, a0, a1, F, c, Across(g, node, k), x);
      ReachedPrepend(g, v, a0, node, k, x);
    }
  }

  /** F + G keeps the closure facts of F, and gains G's. */
  lemma FloodClosed(g: AreaGraph, v: Variant, a0: seq<nat>, a1: seq<nat>, F: set<nat>, G: set<nat>,
                    node: nat, c: nat)
    requires Shaped(g) && node < |g.nodes| && Paints(g, v, a0, a1, F, c) && Leafs(g, F)
    requires ClosedBut(g, v, a0, F, node) && Closed(g, v, a1, G)
    ensures ClosedBut(g, v, a0, F + G, node)
  {
    forall x | x in F + G && x != node
      ensures Handled(g, v, a0, F + G, x)
    {
      if x in G {
        HandledBefore(g, v, a0, a1, F, G, c, x);
      } else {
        HandledGrow(g, v, a0, F, G, x, |g.links[x]|);
      }
    }
  }

  /** One passable portal of node in FloodAreas_r, after the flood through
      it painted G: the flooded set grows to F + G and keeps its facts. */
  lemma FloodStep(g: AreaGraph, v: Variant, a0: seq<nat>, a1: seq<nat>, a2: seq<nat>,
                  F: set<nat>, G: set<nat>, node: nat, k: nat, c: nat, ok: bool)
    requires Shaped(g) && node < |g.nodes| && k < |g.links[node]| && c != 0
    requires Flooding(g, v, a0, a1, F, node, k, c) && Passes(g, v, node, k) && Paints(g, v, a1, a2, G, c)
    requires Across(g, node, k) in G <==> Open(g, v, a1, Across(g, node, k))
    requires FloodedFrom(g, v, a1, G, Across(g, node, k)) && LeafsBut(g, G, Across(g, node, k))
    requires ok ==> Closed(g, v, a1, G)
    ensures ok ==> Flooding(g, v, a0, a2, F + G, node, k + 1, c)
    ensures Paints(g, v, a0, a2, F + G, c) && node in F + G
    ensures FloodedFrom(g, v, a0, F + G, node) && LeafsBut(g, F + G, node)
  {
    var y := Across(g, node, k);
    assert g.nodes[node].isLeaf && g.nodes[y].isLeaf;
    assert Leafs(g, F);
    PaintsCompose(g, v, a0, a1, a2, F, G, c);
    FloodReach(g, v, a0, a1, F, G, node, k, c);
    if ok {
      FloodClosed(g, v, a0, a1, F, G, node, c);
    }
    HandledGrow(g, v, a0, F, G, node, k);
    BlockedBefore(g, v, a0, a1, F, G, c, y);
  }

  /** FindAreas_r starts a new area at s: an eligible leaf below root
      without an area in a0. */
  predicate Started(g: AreaGraph, v: Variant, root: nat, a0: seq<nat>, s: nat)
    requires WellFormed(g.nodes) && root < |g.nodes|
  {
    s < |g.nodes| && s < |a0| && Descendant(g.nodes, root, s) && g.nodes[s].isLeaf &&
    Eligible(v, g.nodes[s]) && a0[s] == 0
  }

  /** Starts below a child of node are starts below node. */
  lemma StartsUp(g: AreaGraph, v: Variant, node: nat, child: nat, a0: seq<nat>, starts: seq<nat>)
    requires WellFormed(g.nodes) && node < |g.nodes| && !g.nodes[node].isLeaf
    requires child == g.nodes[node].front || child == g.nodes[node].back
    requires forall i :: 0 <= i < |starts| ==> Started(g, v, child, a0, starts[i])
    ensures forall i :: 0 <= i < |starts| ==> Started(g, v, node, a0, starts[i])
  {
  }

  /** The mutable state of the area pass. */
  class AreaState {
    var area: seq<nat>                 // node->area
    var portalareas: seq<(nat, nat)>   // entity->portalareas
    var cAreas: nat                    // map.c_areas
    var dareaportals: seq<AreaPortal>
    var dareas: seq<DArea>

    /** ApplyArea_r: node and every node below it get area c. */
    method ApplyArea(nodes: seq<Node>, node: nat, c: nat)
      requires WellFormed(nodes) && node < |nodes| && |area| == |nodes|
      modifies this`area
      ensures |area| == |nodes|
      ensures forall m :: 0 <= m < |nodes| ==> area[m] == (if Descendant(nodes, node, m) then c else old(area[m]))
      decreases |nodes| - node
    {
      area := area[node := c];
      if !nodes[node].isLeaf {
        ApplyArea(nodes, nodes[node].front, c);
        ApplyArea(nodes, nodes[node].back, c);
      }
    }

    /** FloodAreas_r: from node, every node reached across non-solid
        leaf-to-leaf portals gets area c, once; area-portal nodes instead
        note c on their entity. The ghost result flooded is the set of
        nodes the flood entered: each is reached from node through nodes
        that had no area, and (when no portal was fatal) it holds every
        such node. The areas change on exactly those nodes (and, starting
        from an inner node of the current version, below it); no entity
        pair changes except by noting c. */
    method FloodAreas(g: AreaGraph, v: Variant, node: nat, c: nat) returns (r: Fallible<()>, ghost flooded: set<nat>)
      requires GraphOk(g, |portalareas|) && VariantOk(v, |portalareas|)
      requires |area| == |g.nodes| && node < |g.nodes| && c != 0
      modifies this`area, this`portalareas
      ensures Painted(old(area), area, c)
      ensures Noted(old(portalareas), portalareas, c)
      ensures !PortalNode(g, v, node) && old(area[node]) == 0 ==> area[node] == c
      ensures Paints(g, v, old(area), area, flooded, c)
      ensures node in flooded <==> Open(g, v, old(area), node)
      ensures FloodedFrom(g, v, old(area), flooded, node) && LeafsBut(g, flooded, node)
      ensures r.Ok? ==> Closed(g, v, old(area), flooded)
      ensures r.Ok? ==> forall m :: m in flooded <==> Reached(g, v, old(area), node, m)
      ensures v.Legacy? || g.nodes[node].isLeaf ==>
        forall m :: 0 <= m < |g.nodes| && old(area[m]) != 0 ==> area[m] == old(area[m])
      ensures r.Ok? && (v.Legacy? || g.nodes[node].isLeaf) ==>
        forall m :: 0 <= m < |g.nodes| ==> area[m] == if Reached(g, v, old(area), node, m) then c else old(area[m])
      decreases Zeros(area), 2
    {
      flooded := {};
      r := Ok(());
      if PortalNode(g, v, node) {
        var e := PortalEntity(g, v, node);
        if e.Some? {
          if v.Current? {
            MentionsBound(g, |portalareas|, node, e.value);
          }
          portalareas := portalareas[e.value := Note(portalareas[e.value], c)];
        }
      } else if area[node] == 0 {
        ghost var z0 := Zeros(area);
        ZerosSet(area, node, c);
        area := area[node := c];
        if v.Current? && !g.nodes[node].isLeaf {
          ApplyArea(g.nodes, node, c);
          PaintedZeros(old(area)[node := c], area, c);
        }
        PaintsStart(g, v, old(area), area, node, c);
        WalkReaches(g, v, old(area), [node]);
        ghost var a1, pa1 := area, portalareas;
        r, flooded := FloodPortals(g, v, node, c, old(area), {node}, z0);
        NotedTrans(old(portalareas), pa1, portalareas, c);
      }
      FloodEnd(g, v, old(area), area, flooded, node, c, r.Ok?);
    }

    /** The portal loop of FloodAreas_r, once node has area c: each of
        node's portals in turn, until one is fatal. From F, the set flooded
        so far (just node), it returns the set flooded in the end, which
        keeps the walk's facts and (when no portal was fatal) is closed. */
    method FloodPortals(g: AreaGraph, v: Variant, node: nat, c: nat, ghost a0: seq<nat>, ghost F: set<nat>, ghost z0: nat)
      returns (r: Fallible<()>, ghost flooded: set<nat>)
      requires GraphOk(g, |portalareas|) && VariantOk(v, |portalareas|)
      requires |area| == |g.nodes| && node < |g.nodes| && c != 0 && Zeros(area) < z0
      requires Flooding(g, v, a0, area, F, node, 0, c)
      modifies this`area, this`portalareas
      ensures Painted(old(area), area, c) && Noted(old(portalareas), portalareas, c)
      ensures Paints(g, v, a0, area, flooded, c) && node in flooded
      ensures FloodedFrom(g, v, a0, flooded, node) && LeafsBut(g, flooded, node)
      ensures r.Ok? ==> Closed(g, v, a0, flooded)
      decreases z0, 1
    {
      flooded := F;
      r := Ok(());
      var k := 0;
      while k < |g.links[node]|
        invariant 0 <= k <= |g.links[node]| && |area| == |g.nodes|
        invariant Painted(old(area), area, c) && Zeros(area) < z0
        invariant Noted(old(portalareas), portalareas, c)
        invariant Flooding(g, v, a0, area, flooded, node, k, c)
      {
        ghost var a1, pa1 := area, portalareas;
        r, flooded := FloodThrough(g, v, node, k, c, a0, flooded, z0);
        PaintedTrans(old(area), a1, area, c);
        NotedTrans(old(portalareas), pa1, portalareas, c);
        if r.Fatal? {
          return;
        }
        k := k + 1;
      }
      FloodClose(g, v, a0, area, flooded, node, c);
    }

    /** One pass of the portal loop of FloodAreas_r: through node's k-th
        portal, if Portal_EntityFlood lets the flood through, the flood
        goes on from the far side (a portal that is not leaf-to-leaf is
        fatal). The flooded set F grows by what that flood reaches. */
    method FloodThrough(g: AreaGraph, v: Variant, node: nat, k: nat, c: nat, ghost a0: seq<nat>, ghost F: set<nat>, ghost z0: nat)
      returns (r: Fallible<()>, ghost flooded: set<nat>)
      requires GraphOk(g, |portalareas|) && VariantOk(v, |portalareas|)
      requires |area| == |g.nodes| && node < |g.nodes| && k < |g.links[node]| && c != 0 && Zeros(area) < z0
      requires Flooding(g, v, a0, area, F, node, k, c)
      modifies this`area, this`portalareas
      ensures |area| == |g.nodes| && Painted(old(area), area, c) && Zeros(area) < z0
      ensures Noted(old(portalareas), portalareas, c)
      ensures r.Ok? ==> Flooding(g, v, a0, area, flooded, node, k + 1, c)
      ensures Paints(g, v, a0, area, flooded, c) && node in flooded
      ensures FloodedFrom(g, v, a0, flooded, node) && LeafsBut(g, flooded, node)
      decreases z0, 0
    {
      var p := g.links[node][k];
      var pn := g.sides[p].value;
      var other := if pn.1 == node then pn.0 else pn.1;
      var flood := EntityFlood(g, v, pn.0, pn.1);
      flooded := F;
      if flood.Fatal? {
        return Fatal(flood.msg), flooded;
      }
      if !flood.value {
        HandledNext(g, v, a0, area, flooded, node, k, c);
        return Ok(()), flooded;
      }
      ghost var fl;
      r, fl := FloodAreas(g, v, other, c);
      PaintedZeros(old(area), area, c);
      FloodStep(g, v, a0, old(area), area, F, fl, node, k, c, r.Ok?);
      flooded := F + fl;
    }

    /** FindAreas_r: every leaf below node that passes the tests and has no
        area starts a new area, numbered after the last one, and floods it.
        The ghost result starts lists those leafs in order: the i-th new
        area begins at starts[i], an eligible leaf below node that had no
        area, and it keeps that number. Afterwards every eligible leaf has
        an area, areas already given never change, new ones get only new
        numbers, and recorded pairs stay well formed. */
    method FindAreas(g: AreaGraph, v: Variant, node: nat) returns (r: Fallible<()>, ghost starts: seq<nat>)
      requires GraphOk(g, |portalareas|) && VariantOk(v, |portalareas|)
      requires |area| == |g.nodes| && node < |g.nodes|
      modifies this`area, this`portalareas, this`cAreas
      ensures |area| == |g.nodes| && |portalareas| == old(|portalareas|) && cAreas >= old(cAreas)
      ensures forall m :: 0 <= m < |area| ==> area[m] == old(area[m]) || old(cAreas) < area[m] <= cAreas
      ensures forall m :: 0 <= m < |area| && old(area[m]) != 0 ==> area[m] == old(area[m])
      ensures old(AreasBounded(area, cAreas)) ==> AreasBounded(area, cAreas)
      ensures old(PairsBounded(portalareas, cAreas)) ==> PairsBounded(portalareas, cAreas)
      ensures old(PairsOk(portalareas)) ==> PairsOk(portalareas)
      ensures r.Ok? ==> forall m :: 0 <= m < |g.nodes| && Descendant(g.nodes, node, m) && g.nodes[m].isLeaf && Eligible(v, g.nodes[m]) ==> area[m] != 0
      ensures cAreas == old(cAreas) + |starts|
      ensures forall i :: 0 <= i < |starts| ==>
        Started(g, v, node, old(area), starts[i]) && area[starts[i]] == old(cAreas) + i + 1
      decreases |g.nodes| - node
    {
      var nd := g.nodes[node];
      if !nd.isLeaf {
        ghost var sf, sb;
        r, sf := FindAreas(g, v, nd.front);
        StartsUp(g, v, node, nd.front, old(area), sf);
        if r.Fatal? {
          return r, sf;
        }
        ghost var a1, c1 := area, cAreas;
        r, sb := FindAreas(g, v, nd.back);
        StartsUp(g, v, node, nd.back, a1, sb);
        starts := sf + sb;
        forall i | 0 <= i < |starts|
          ensures Started(g, v, node, old(area), starts[i]) && area[starts[i]] == old(cAreas) + i + 1
        {
          if i >= |sf| {
            assert starts[i] == sb[i - |sf|];
          }
        }
        return r, starts;
      }
      if area[node] != 0 || SolidLeaf(v, nd) {
        return Ok(()), [];
      }
      if v.Current? && (nd.occupied == 0 || HasBit(nd.native, AREAPORTAL)) {
        return Ok(()), [];
      }
      if v.Legacy? && nd.native == AREAPORTAL {
        return Ok(()), [];
      }
      cAreas := cAreas + 1;
      ghost var pa0 := portalareas;
      ghost var fl;
      r, fl := FloodAreas(g, v, node, cAreas);
      NotedKeeps(pa0, portalareas, cAreas, cAreas);
      starts := [node];
    }

    /** SetAreaPortalAreas_r: each area-portal leaf below node without an
        area takes its entity's first recorded area; nothing else changes. */
    method SetAreaPortalAreas(g: AreaGraph, v: Variant, node: nat)
      requires GraphOk(g, |portalareas|) && VariantOk(v, |portalareas|)
      requires |area| == |g.nodes| && node < |g.nodes|
      modifies this`area
      ensures |area| == |g.nodes|
      ensures forall m :: 0 <= m < |g.nodes| ==>
        area[m] == if Descendant(g.nodes, node, m) && g.nodes[m].isLeaf
                   then ApArea(g, v, m, old(area[m]), portalareas) else old(area[m])
      decreases |g.nodes| - node
    {
      var nd := g.nodes[node];
      if !nd.isLeaf {
        SetAreaPortalAreas(g, v, nd.front);
        ghost var mid := area;
        SetAreaPortalAreas(g, v, nd.back);
        forall m | 0 <= m < |g.nodes|
          ensures area[m] == if Descendant(g.nodes, node, m) && g.nodes[m].isLeaf
                             then ApArea(g, v, m, old(area[m]), portalareas) else old(area[m])
        {
          if Descendant(g.nodes, nd.back, m) && g.nodes[m].isLeaf {
            ApAreaIdempotent(g, v, m, old(area[m]), portalareas);
          }
        }
        return;
      }
      if nd.native != AREAPORTAL || area[node] != 0 {
        return;
      }
      var e := PortalEntity(g, v, node);
      if e.None? {
        return;
      }
      if v.Current? {
        MentionsBound(g, |portalareas|, node, e.value);
      }
      area := area[node := portalareas[e.value].0];
    }

    /** The emission loop of EmitAreaPortals: placeholder record and area
        0, then for each area 1..c_areas the records of every area-portal
        entity, and a darea counting them. */
    method EmitRecords(nums: seq<nat>, dedup: bool)
      requires |nums| == |portalareas|
      modifies this`dareaportals, this`dareas
      ensures Emitted(dareaportals, dareas) ==
        EmitAreas(old(dareaportals) + [AreaPortal(0, 0)], old(dareas) + [DArea(0, 0)], nums, portalareas, cAreas, dedup)
    {
      var pas := portalareas;
      var l0 := dareaportals + [AreaPortal(0, 0)];
      var ds0 := dareas + [DArea(0, 0)];
      var l, ds := l0, ds0;
      var i := 1;
      while i <= cAreas
        invariant 1 <= i <= cAreas + 1
        invariant Emitted(l, ds) == EmitAreas(l0, ds0, nums, pas, i - 1, dedup)
        decreases cAreas + 1 - i
      {
        var first := |l|;
        l := EmitAreaRecords(l, nums, pas, i, dedup);
        ds := ds + [DArea(|l| - first, first)];
        i := i + 1;
      }
      dareaportals := l;
      dareas := ds;
    }

    /** EmitAreaPortals: number the areas, give area-portal leafs their
        areas, then emit the deduplicated records. */
    method EmitAreaPortals(g: AreaGraph, nums: seq<nat>) returns (r: Fallible<()>, ghost starts: seq<nat>)
      requires GraphOk(g, |portalareas|) && |g.nodes| > 0 && |area| == |g.nodes| && |nums| == |portalareas|
      modifies this`area, this`portalareas, this`cAreas, this`dareaportals, this`dareas
      ensures |area| == |g.nodes| && |portalareas| == |nums|
      ensures r.Ok? ==> (Emitted(dareaportals, dareas) ==
        EmitAreas(old(dareaportals) + [AreaPortal(0, 0)], old(dareas) + [DArea(0, 0)], nums, portalareas, cAreas, true))
      ensures r.Ok? ==> forall m :: 0 <= m < |g.nodes| && Descendant(g.nodes, 0, m) && g.nodes[m].isLeaf && Eligible(Current, g.nodes[m]) ==> area[m] != 0
      ensures cAreas == old(cAreas) + |starts|
      ensures forall i :: 0 <= i < |starts| ==>
        Started(g, Current, 0, old(area), starts[i]) && area[starts[i]] == old(cAreas) + i + 1
    {
      r, starts := FindAreas(g, Current, 0);
      if r.Fatal? {
        return;
      }
      SetAreaPortalAreas(g, Current, 0);
      EmitRecords(nums, true);
    }

    /** FloodAreas in qbsp.cc: the older walk, handed its area-portal entity. */
    method FloodAreasLegacy(g: AreaGraph, entity: nat) returns (r: Fallible<()>, ghost starts: seq<nat>)
      requires GraphOk(g, |portalareas|) && entity < |portalareas| && |g.nodes| > 0 && |area| == |g.nodes|
      modifies this`area, this`portalareas, this`cAreas
      ensures |area| == |g.nodes|
      ensures r.Ok? ==> forall m :: 0 <= m < |g.nodes| && Descendant(g.nodes, 0, m) && g.nodes[m].isLeaf && Eligible(Legacy(entity), g.nodes[m]) ==> area[m] != 0
      ensures cAreas == old(cAreas) + |starts|
      ensures forall i :: 0 <= i < |starts| ==>
        Started(g, Legacy(entity), 0, old(area), starts[i]) && area[starts[i]] == old(cAreas) + i + 1
    {
      r, starts := FindAreas(g, Legacy(entity), 0);
      if r.Fatal? {
        return;
      }
      SetAreaPortalAreas(g, Legacy(entity), 0);
    }
  }
}
