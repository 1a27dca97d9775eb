// Filling the outside of a qbsp tree: locating entities in leafs, the
// breadth-first floods from the void and from the occupied leafs, the leak
// line that walks back down the flood distances, and the conversion of
// unreachable leafs to solid. Plane distances of entity origins are given
// per node; the game's contents rules are a parameter.

module Outside {
  import opened Common
  import opened Portals

  /** The target game's contents rules: which contents seal the map, and
      the contents create_solid_contents() returns. */
  datatype Game = Game(seals: int -> bool, solid: int)

  /** qbsp's -filltype setting. */
  datatype FillType = Auto | Inside | OutsideIn

  /** A tree portal: whether it has an onnode (portals to the outside node
      have none) and the two nodes it joins. */
  datatype TreePortal = TreePortal(onnode: bool, n0: nat, n1: nat)

  /** A tree with its portals: per node, the list of its portals in list
      order; head is the head node and outside the outside node, which is
      not below head. */
  datatype Tree = Tree(nodes: seq<Node>, portals: seq<TreePortal>, links: seq<seq<nat>>, head: nat, outside: nat)

  predicate Touches(t: Tree, p: nat, n: nat)
    requires p < |t.portals|
  {
    t.portals[p].n0 == n || t.portals[p].n1 == n
  }

  /** The shape FillOutside works on: every node is the outside node or
      below head, portals join two distinct leafs, the portal lists agree
      with the portals in both directions, portals touching the outside
      node have no onnode, and the outside node has a portal. */
  predicate TreeOk(t: Tree)
  {
    WellFormed(t.nodes) && t.head < |t.nodes| && t.outside < |t.nodes| && |t.links| == |t.nodes| &&
    t.nodes[t.outside].isLeaf &&
    (forall n :: 0 <= n < |t.nodes| ==> n == t.outside || Descendant(t.nodes, t.head, n)) &&
    !Descendant(t.nodes, t.head, t.outside) &&
    (forall p :: 0 <= p < |t.portals| ==>
       t.portals[p].n0 < |t.nodes| && t.portals[p].n1 < |t.nodes| && t.portals[p].n0 != t.portals[p].n1 &&
       t.nodes[t.portals[p].n0].isLeaf && t.nodes[t.portals[p].n1].isLeaf &&
       p in t.links[t.portals[p].n0] && p in t.links[t.portals[p].n1] &&
       (t.portals[p].n0 == t.outside || t.portals[p].n1 == t.outside ==> !t.portals[p].onnode)) &&
    (forall n, k :: 0 <= n < |t.links| && 0 <= k < |t.links[n]| ==>
       t.links[n][k] < |t.portals| && Touches(t, t.links[n][k], n)) &&
    |t.links[t.outside]| > 0
  }

  /** The node across portal p from node n. */
  function Other(t: Tree, p: nat, n: nat): nat
    requires p < |t.portals|
  {
    if t.portals[p].n0 == n then t.portals[p].n1 else t.portals[p].n0
  }

  lemma OtherBack(t: Tree, p: nat, n: nat)
    requires TreeOk(t) && p < |t.portals| && Touches(t, p, n)
    ensures Touches(t, p, Other(t, p, n)) && Other(t, p, Other(t, p, n)) == n && Other(t, p, n) != n
    ensures Other(t, p, n) < |t.nodes| && p in t.links[Other(t, p, n)]
  {
  }

  /** The leaf the flood from the void starts in: across the first portal
      of the outside node. */
  function FillNode(t: Tree): nat
    requires TreeOk(t)
  {
    Other(t, t.links[t.outside][0], t.outside)
  }

  lemma FillNodeLeaf(t: Tree)
    requires TreeOk(t)
    ensures FillNode(t) < |t.nodes| && FillNode(t) != t.outside && t.nodes[FillNode(t)].isLeaf
  {
    var p := t.links[t.outside][0];
    assert Touches(t, p, t.outside);
  }

  predicate Seals(t: Tree, contents: seq<int>, game: Game, n: nat)
    requires |contents| == |t.nodes| && n < |t.nodes|
  {
    game.seals(contents[n])
  }

  /** OutsideFill_Passable: a portal with an onnode neither of whose leafs
      seals the map. */
  predicate Passable(t: Tree, contents: seq<int>, game: Game, p: nat)
    requires TreeOk(t) && |contents| == |t.nodes| && p < |t.portals|
  {
    t.portals[p].onnode && !Seals(t, contents, game, t.portals[p].n0) && !Seals(t, contents, game, t.portals[p].n1)
  }

  /** A passable portal never leads to or from the outside node. */
  lemma PassableInside(t: Tree, contents: seq<int>, game: Game, p: nat, n: nat)
    requires TreeOk(t) && |contents| == |t.nodes| && p < |t.portals| && Touches(t, p, n)
    requires Passable(t, contents, game, p)
    ensures n != t.outside && Other(t, p, n) != t.outside
  {
  }

  // ---------------------------------------------------------------------------
  // PointInLeaf

  /** The leaf a point lies in, given the point's signed distance to every
      node's plane: front for a positive distance, back for a negative one,
      and on the plane the front leaf if it seals the map, else the back
      leaf. */
  function PointInLeaf(nodes: seq<Node>, contents: seq<int>, game: Game, dist: seq<real>, n: nat): (r: nat)
    requires WellFormed(nodes) && n < |nodes| && |contents| == |nodes| && |dist| == |nodes|
    ensures n <= r < |nodes| && nodes[r].isLeaf
    decreases |nodes| - n
  {
    if nodes[n].isLeaf then n
    else if dist[n] > 0.0 then PointInLeaf(nodes, contents, game, dist, nodes[n].front)
    else if dist[n] < 0.0 then PointInLeaf(nodes, contents, game, dist, nodes[n].back)
    else
      var front := PointInLeaf(nodes, contents, game, dist, nodes[n].front);
      var back := PointInLeaf(nodes, contents, game, dist, nodes[n].back);
      if game.seals(contents[front]) then front else back
  }

  /** The leaf found is below the node the search started from. */
  lemma {:induction false} PointInLeafBelow(nodes: seq<Node>, contents: seq<int>, game: Game, dist: seq<real>, n: nat)
    requires WellFormed(nodes) && n < |nodes| && |contents| == |nodes| && |dist| == |nodes|
    ensures Descendant(nodes, n, PointInLeaf(nodes, contents, game, dist, n))
    decreases |nodes| - n
  {
    if !nodes[n].isLeaf {
      PointInLeafBelow(nodes, contents, game, dist, nodes[n].front);
      PointInLeafBelow(nodes, contents, game, dist, nodes[n].back);
    }
  }

  /** A point exactly on a node's plane lands in a sealing leaf whenever
      either side offers one. */
  lemma PointOnPlanePrefersSealing(nodes: seq<Node>, contents: seq<int>, game: Game, dist: seq<real>, n: nat)
    requires WellFormed(nodes) && n < |nodes| && |contents| == |nodes| && |dist| == |nodes|
    requires !nodes[n].isLeaf && dist[n] == 0.0
    ensures game.seals(contents[PointInLeaf(nodes, contents, game, dist, n)]) <==>
      game.seals(contents[PointInLeaf(nodes, contents, game, dist, nodes[n].front)]) ||
      game.seals(contents[PointInLeaf(nodes, contents, game, dist, nodes[n].back)])
  {
  }

  // ---------------------------------------------------------------------------
  // Flood distances and the walk back down them

  /** Portal p in n's list is passable and leads to a node whose value in
      dist is d. */
  predicate StepTo(t: Tree, contents: seq<int>, game: Game, dist: seq<int>, n: nat, p: nat, d: int)
    requires TreeOk(t) && |contents| == |t.nodes| && |dist| == |t.nodes| && n < |t.nodes|
  {
    p < |t.portals| && Touches(t, p, n) && Passable(t, contents, game, p) && dist[Other(t, p, n)] == d
  }

  /** Node n, flooded at distance d, has a passable portal to a node
      flooded at d - 1: the node it was reached from. */
  predicate Parent(t: Tree, contents: seq<int>, game: Game, dist: seq<int>, n: nat, d: int)
    requires TreeOk(t) && |contents| == |t.nodes| && |dist| == |t.nodes| && n < |t.nodes|
  {
    exists k :: 0 <= k < |t.links[n]| && StepTo(t, contents, game, dist, n, t.links[n][k], d - 1)
  }

  /** Every node other than the outside node whose value is above root has
      a parent. */
  predicate Descends(t: Tree, contents: seq<int>, game: Game, dist: seq<int>, root: int)
    requires TreeOk(t) && |contents| == |t.nodes| && |dist| == |t.nodes|
  {
    forall n {:trigger Parent(t, contents, game, dist, n, dist[n])} ::
      0 <= n < |t.nodes| && n != t.outside && dist[n] > root ==> Parent(t, contents, game, dist, n, dist[n])
  }

  /** The flood is closed: every node other than the outside node whose
      value is above mark has only neighbours above mark across passable
      portals. */
  predicate Closed(t: Tree, contents: seq<int>, game: Game, dist: seq<int>, mark: int)
    requires TreeOk(t) && |contents| == |t.nodes| && |dist| == |t.nodes|
  {
    forall n, k ::
      (0 <= n < |t.nodes| && n != t.outside && dist[n] > mark && 0 <= k < |t.links[n]| &&
       Passable(t, contents, game, t.links[n][k])) ==> dist[Other(t, t.links[n][k], n)] > mark
  }

  /** path leads from a to b through passable portals, each listed at the
      node it leaves, with the value in dist strictly falling at each step. */
  predicate Chain(t: Tree, contents: seq<int>, game: Game, dist: seq<int>, a: nat, path: seq<nat>, b: nat)
    requires TreeOk(t) && |contents| == |t.nodes| && |dist| == |t.nodes| && b < |t.nodes|
    decreases |path|
  {
    if path == [] then a == b
    else
      var p := path[|path| - 1];
      p < |t.portals| && Touches(t, p, b) && Passable(t, contents, game, p) &&
      var prev := Other(t, p, b);
      p in t.links[prev] && dist[b] < dist[prev] && Chain(t, contents, game, dist, a, path[..|path| - 1], prev)
  }

  /** A chain is no longer than the fall in value along it. */
  lemma {:induction false} ChainLength(t: Tree, contents: seq<int>, game: Game, dist: seq<int>, a: nat, path: seq<nat>, b: nat)
    requires TreeOk(t) && |contents| == |t.nodes| && |dist| == |t.nodes| && b < |t.nodes|
    requires Chain(t, contents, game, dist, a, path, b)
    ensures a < |t.nodes| && dist[b] + |path| <= dist[a]
    decreases |path|
  {
    if path != [] {
      var p := path[|path| - 1];
      ChainLength(t, contents, game, dist, a, path[..|path| - 1], Other(t, p, b));
    }
  }

  /** The scan of one node's portal list in FindPortalsToVoid and
      MakeLeakLine: among the passable portals, the first leading to the
      smallest value below the node's own. A passable neighbour below stop
      is fatal. */
  method Nearest(t: Tree, contents: seq<int>, game: Game, dist: seq<int>, node: nat, stop: int)
      returns (r: Fallible<Option<(nat, nat)>>)
    requires TreeOk(t) && |contents| == |t.nodes| && |dist| == |t.nodes| && node < |t.nodes|
    ensures r.Fatal? ==>
      exists k :: (0 <= k < |t.links[node]| && Passable(t, contents, game, t.links[node][k]) &&
                   dist[Other(t, t.links[node][k], node)] < stop)
    ensures r.Ok? ==> forall k :: 0 <= k < |t.links[node]| && Passable(t, contents, game, t.links[node][k]) ==>
      stop <= dist[Other(t, t.links[node][k], node)]
    ensures r.Ok? && r.value.None? ==> forall k :: 0 <= k < |t.links[node]| && Passable(t, contents, game, t.links[node][k]) ==>
      dist[node] <= dist[Other(t, t.links[node][k], node)]
    ensures r.Ok? && r.value.Some? ==>
      var (nb, p) := r.value.value;
      p in t.links[node] && p < |t.portals| && Touches(t, p, node) && Passable(t, contents, game, p) &&
      nb == Other(t, p, node) && dist[nb] < dist[node] &&
      forall k :: 0 <= k < |t.links[node]| && Passable(t, contents, game, t.links[node][k]) ==>
        dist[nb] <= dist[Other(t, t.links[node][k], node)]
  {
    var ps := t.links[node];
    var best: Option<(nat, nat)> := None;
    var bestdist := dist[node];
    var k := 0;
    while k < |ps|
      invariant k <= |ps| && bestdist <= dist[node]
      invariant best.None? <==> bestdist == dist[node]
      invariant best.Some? ==>
        (best.value.1 in ps && best.value.1 < |t.portals| && Touches(t, best.value.1, node) &&
         Passable(t, contents, game, best.value.1) && best.value.0 == Other(t, best.value.1, node) &&
         dist[best.value.0] == bestdist)
      invariant forall j :: 0 <= j < k && Passable(t, contents, game, ps[j]) ==>
        stop <= dist[Other(t, ps[j], node)] && bestdist <= dist[Other(t, ps[j], node)]
    {
      var p := ps[k];
      if Passable(t, contents, game, p) {
        var nb := Other(t, p, node);
        if dist[nb] < stop {
          return Fatal("flood value below the end of the walk");
        }
        if dist[nb] < bestdist {
          best := Some((nb, p));
          bestdist := dist[nb];
        }
      }
      k := k + 1;
    }
    return Ok(best);
  }

  /** One more step through a passable portal of the end node, to a lower
      value, extends a chain. */
  lemma ChainStep(t: Tree, contents: seq<int>, game: Game, dist: seq<int>, a: nat, path: seq<nat>, b: nat, p: nat)
    requires TreeOk(t) && |contents| == |t.nodes| && |dist| == |t.nodes| && b < |t.nodes|
    requires Chain(t, contents, game, dist, a, path, b)
    requires p in t.links[b] && p < |t.portals| && Touches(t, p, b) && Passable(t, contents, game, p)
    requires dist[Other(t, p, b)] < dist[b]
    ensures Other(t, p, b) < |t.nodes| && Chain(t, contents, game, dist, a, path + [p], Other(t, p, b))
  {
    OtherBack(t, p, b);
    assert (path + [p])[..|path|] == path;
  }

  /** A node above root with no passable neighbour below it has no parent. */
  lemma NoParent(t: Tree, contents: seq<int>, game: Game, dist: seq<int>, node: nat, root: int)
    requires TreeOk(t) && |contents| == |t.nodes| && |dist| == |t.nodes| && node < |t.nodes| && node != t.outside
    requires dist[node] > root
    requires forall k :: 0 <= k < |t.links[node]| && Passable(t, contents, game, t.links[node][k]) ==>
      dist[node] <= dist[Other(t, t.links[node][k], node)]
    ensures !Descends(t, contents, game, dist, root)
  {
    forall k | 0 <= k < |t.links[node]|
      ensures !StepTo(t, contents, game, dist, node, t.links[node][k], dist[node] - 1)
    {
    }
    assert !Parent(t, contents, game, dist, node, dist[node]);
  }

  /** The walk of FindPortalsToVoid and MakeLeakLine: from start, go
      through the passable portal to the neighbour of smallest value (the
      first in list order on ties) until a node of value stop is reached.
      A passable neighbour below stop, or no neighbour below the current
      node, is fatal; after a closed flood that gives every node a parent,
      neither happens. */
  method Descend(t: Tree, contents: seq<int>, game: Game, dist: seq<int>, start: nat, stop: int)
      returns (r: Fallible<seq<nat>>, end: nat)
    requires TreeOk(t) && |contents| == |t.nodes| && |dist| == |t.nodes|
    requires start < |t.nodes| && start != t.outside && dist[start] >= stop
    ensures end < |t.nodes|
    ensures r.Ok? ==> end != t.outside && dist[end] == stop && Chain(t, contents, game, dist, start, r.value, end)
    ensures Descends(t, contents, game, dist, stop) && Closed(t, contents, game, dist, stop - 1) ==> r.Ok?
  {
    var node: nat := start;
    var path: seq<nat> := [];
    while dist[node] != stop
      invariant node < |t.nodes| && node != t.outside && dist[node] >= stop
      invariant Chain(t, contents, game, dist, start, path, node)
      decreases dist[node] - stop
    {
      var best := Nearest(t, contents, game, dist, node, stop);
      if best.Fatal? {
        return Fatal(best.msg), node;
      }
      if best.value.None? {
        NoParent(t, contents, game, dist, node, stop);
        return Fatal("no neighbour nearer the end of the walk"), node;
      }
      var (nb, p) := best.value.value;
      ChainStep(t, contents, game, dist, start, path, node, p);
      PassableInside(t, contents, game, p, node);
      path := path + [p];
      node := nb;
    }
    return Ok(path), node;
  }

  // ---------------------------------------------------------------------------
  // Walks through passable portals

  /** path leads from a to b, each portal passable and touching the node
      the walk is at. */
  predicate Walk(t: Tree, contents: seq<int>, game: Game, a: nat, path: seq<nat>, b: nat)
    requires TreeOk(t) && |contents| == |t.nodes| && a < |t.nodes|
    decreases |path|
  {
    if path == [] then a == b
    else
      path[0] < |t.portals| && Touches(t, path[0], a) && Passable(t, contents, game, path[0]) &&
      Walk(t, contents, game, Other(t, path[0], a), path[1..], b)
  }

  /** A walk extended by one more passable portal at its end. */
  lemma {:induction false} WalkSnoc(t: Tree, contents: seq<int>, game: Game, a: nat, path: seq<nat>, b: nat, p: nat)
    requires TreeOk(t) && |contents| == |t.nodes| && a < |t.nodes| && b < |t.nodes| && p < |t.portals|
    requires Walk(t, contents, game, a, path, b) && Touches(t, p, b) && Passable(t, contents, game, p)
    ensures Walk(t, contents, game, a, path + [p], Other(t, p, b))
    decreases |path|
  {
    if path != [] {
      OtherBack(t, path[0], a);
      WalkSnoc(t, contents, game, Other(t, path[0], a), path[1..], b, p);
      assert (path + [p])[1..] == path[1..] + [p];
    }
  }

  /** The same portals walked backwards lead from b back to a. */
  lemma {:induction false} WalkReverse(t: Tree, contents: seq<int>, game: Game, a: nat, path: seq<nat>, b: nat)
    requires TreeOk(t) && |contents| == |t.nodes| && a < |t.nodes| && b < |t.nodes|
    requires Walk(t, contents, game, a, path, b)
    ensures Walk(t, contents, game, b, Reverse(path), a)
    decreases |path|
  {
    if path != [] {
      var p := path[0];
      var o := Other(t, p, a);
      OtherBack(t, p, a);
      WalkReverse(t, contents, game, o, path[1..], b);
      WalkSnoc(t, contents, game, b, Reverse(path[1..]), o, p);
      assert Reverse(path) == Reverse(path[1..]) + [p];
    }
  }

  /** A chain down the flood values is a walk. */
  lemma {:induction false} ChainWalk(t: Tree, contents: seq<int>, game: Game, dist: seq<int>, a: nat, path: seq<nat>, b: nat)
    requires TreeOk(t) && |contents| == |t.nodes| && |dist| == |t.nodes| && a < |t.nodes| && b < |t.nodes|
    requires Chain(t, contents, game, dist, a, path, b)
    ensures Walk(t, contents, game, a, path, b)
    decreases |path|
  {
    if path != [] {
      var p := path[|path| - 1];
      var prev := Other(t, p, b);
      OtherBack(t, p, b);
      ChainWalk(t, contents, game, dist, a, path[..|path| - 1], prev);
      WalkSnoc(t, contents, game, a, path[..|path| - 1], prev, p);
      assert path[..|path| - 1] + [p] == path;
    }
  }

  /** Some walk leads to m from one of roots. */
  ghost predicate Reached(t: Tree, contents: seq<int>, game: Game, roots: set<nat>, m: nat)
    requires TreeOk(t) && |contents| == |t.nodes|
  {
    exists r, path :: r in roots && r < |t.nodes| && Walk(t, contents, game, r, path, m)
  }

  /** A closed flood cannot be left: a walk from a node above mark ends
      above mark. */
  lemma {:induction false} WalkStaysAbove(t: Tree, contents: seq<int>, game: Game, dist: seq<int>, mark: int,
                                         a: nat, path: seq<nat>, b: nat)
    requires TreeOk(t) && |contents| == |t.nodes| && |dist| == |t.nodes| && a < |t.nodes| && b < |t.nodes|
    requires Closed(t, contents, game, dist, mark) && a != t.outside && dist[a] > mark
    requires Walk(t, contents, game, a, path, b)
    ensures dist[b] > mark
    decreases |path|
  {
    if path != [] {
      var p := path[0];
      OtherBack(t, p, a);
      PassableInside(t, contents, game, p, a);
      var k :| 0 <= k < |t.links[a]| && t.links[a][k] == p;
      assert Passable(t, contents, game, t.links[a][k]);
      WalkStaysAbove(t, contents, game, dist, mark, Other(t, p, a), path[1..], b);
    }
  }

  /** Every node at root or above, with its parents kept, is reached by a
      walk from a root. */
  lemma {:induction false} ReachedFromRoot(t: Tree, contents: seq<int>, game: Game, dist: seq<int>, roots: set<nat>,
                                          root: int, n: nat)
    requires TreeOk(t) && |contents| == |t.nodes| && |dist| == |t.nodes| && n < |t.nodes| && n != t.outside
    requires Descends(t, contents, game, dist, root) && Rooted(t, dist, roots, root) && dist[n] >= root
    ensures exists r, path :: r in roots && r < |t.nodes| && Walk(t, contents, game, r, path, n)
    decreases dist[n] - root
  {
    if dist[n] == root {
      assert n in roots && Walk(t, contents, game, n, [], n);
    } else {
      assert Parent(t, contents, game, dist, n, dist[n]);
      var k :| 0 <= k < |t.links[n]| && StepTo(t, contents, game, dist, n, t.links[n][k], dist[n] - 1);
      var p := t.links[n][k];
      var m := Other(t, p, n);
      OtherBack(t, p, n);
      PassableInside(t, contents, game, p, n);
      ReachedFromRoot(t, contents, game, dist, roots, root, m);
      var r, path :| r in roots && r < |t.nodes| && Walk(t, contents, game, r, path, m);
      WalkSnoc(t, contents, game, r, path, m, p);
    }
  }

  // ---------------------------------------------------------------------------
  // The breadth-first floods

  predicate InQueue(q: seq<(nat, int)>, x: nat)
  {
    exists i :: 0 <= i < |q| && q[i].0 == x
  }

  /** Every queued entry is a leaf other than the outside node, queued at
      a value of at least root; at root only the roots are queued, and
      above root each queued node has a parent. */
  predicate Queued(t: Tree, contents: seq<int>, game: Game, dist: seq<int>, q: seq<(nat, int)>, roots: set<nat>, root: int)
    requires TreeOk(t) && |contents| == |t.nodes| && |dist| == |t.nodes|
  {
    forall i :: 0 <= i < |q| ==>
      q[i].0 < |t.nodes| && q[i].0 != t.outside && t.nodes[q[i].0].isLeaf && q[i].1 >= root &&
      (q[i].1 == root ==> q[i].0 in roots) &&
      (q[i].1 > root ==> Parent(t, contents, game, dist, q[i].0, q[i].1))
  }

  /** Only roots have the root value. */
  predicate Rooted(t: Tree, dist: seq<int>, roots: set<nat>, root: int)
    requires |dist| == |t.nodes|
  {
    forall n :: 0 <= n < |t.nodes| && n != t.outside && dist[n] == root ==> n in roots
  }

  /** Every node above mark has each passable neighbour above mark or
      queued. */
  predicate Frontier(t: Tree, contents: seq<int>, game: Game, dist: seq<int>, q: seq<(nat, int)>, mark: int)
    requires TreeOk(t) && |contents| == |t.nodes| && |dist| == |t.nodes|
  {
    forall n, k ::
      (0 <= n < |t.nodes| && n != t.outside && dist[n] > mark && 0 <= k < |t.links[n]| &&
       Passable(t, contents, game, t.links[n][k])) ==>
      dist[Other(t, t.links[n][k], n)] > mark || InQueue(q, Other(t, t.links[n][k], n))
  }

  /** Setting an unflooded node's value keeps every parent at or above root. */
  lemma ParentKept(t: Tree, contents: seq<int>, game: Game, dist: seq<int>, x: nat, v: int, n: nat, e: int)
    requires TreeOk(t) && |contents| == |t.nodes| && |dist| == |t.nodes| && x < |t.nodes| && n < |t.nodes|
    requires dist[x] < e - 1 && Parent(t, contents, game, dist, n, e)
    ensures Parent(t, contents, game, dist[x := v], n, e)
  {
    var k :| 0 <= k < |t.links[n]| && StepTo(t, contents, game, dist, n, t.links[n][k], e - 1);
    assert StepTo(t, contents, game, dist[x := v], n, t.links[n][k], e - 1);
  }

  /** Flooding an unflooded node x at v keeps Descends, given that x has a
      parent at v when v is above root. */
  lemma DescendsKept(t: Tree, contents: seq<int>, game: Game, dist: seq<int>, x: nat, v: int, root: int)
    requires TreeOk(t) && |contents| == |t.nodes| && |dist| == |t.nodes| && x < |t.nodes|
    requires Descends(t, contents, game, dist, root) && dist[x] < root
    requires v > root ==> Parent(t, contents, game, dist, x, v)
    ensures Descends(t, contents, game, dist[x := v], root)
  {
    var d' := dist[x := v];
    forall n | 0 <= n < |t.nodes| && n != t.outside && d'[n] > root
      ensures Parent(t, contents, game, d', n, d'[n])
    {
      if n == x {
        ParentKept(t, contents, game, dist, x, v, x, v);
      } else {
        ParentKept(t, contents, game, dist, x, v, n, dist[n]);
      }
    }
  }

  lemma QueuedKept(t: Tree, contents: seq<int>, game: Game, dist: seq<int>, q: seq<(nat, int)>, roots: set<nat>,
                   root: int, x: nat, v: int)
    requires TreeOk(t) && |contents| == |t.nodes| && |dist| == |t.nodes| && x < |t.nodes|
    requires Queued(t, contents, game, dist, q, roots, root) && dist[x] < root
    ensures Queued(t, contents, game, dist[x := v], q, roots, root)
  {
    forall i | 0 <= i < |q| && q[i].1 > root
      ensures Parent(t, contents, game, dist[x := v], q[i].0, q[i].1)
    {
      ParentKept(t, contents, game, dist, x, v, q[i].0, q[i].1);
    }
  }

  /** Queueing the node across a passable portal of x, flooded at d, at
      d + 1 keeps the queue well formed. */
  lemma QueuedPush(t: Tree, contents: seq<int>, game: Game, dist: seq<int>, x: nat, d: int,
                   q: seq<(nat, int)>, roots: set<nat>, root: int, k: nat)
    requires TreeOk(t) && |contents| == |t.nodes| && |dist| == |t.nodes| && x < |t.nodes|
    requires dist[x] == d && d >= root && k < |t.links[x]| && Passable(t, contents, game, t.links[x][k])
    requires Queued(t, contents, game, dist, q, roots, root)
    ensures Queued(t, contents, game, dist, q + [(Other(t, t.links[x][k], x), d + 1)], roots, root)
  {
    var p := t.links[x][k];
    var nb := Other(t, p, x);
    OtherBack(t, p, x);
    PassableInside(t, contents, game, p, x);
    var k' :| 0 <= k' < |t.links[nb]| && t.links[nb][k'] == p;
    assert StepTo(t, contents, game, dist, nb, t.links[nb][k'], d);
  }

  /** The neighbour loop of both floods: every node across a passable
      portal of x is queued at d + 1, in list order, after the entries
      already queued. */
  method PushNeighbours(t: Tree, contents: seq<int>, game: Game, dist: seq<int>, x: nat, d: int,
                        queue: seq<(nat, int)>, ghost roots: set<nat>, root: int) returns (q: seq<(nat, int)>)
    requires TreeOk(t) && |contents| == |t.nodes| && |dist| == |t.nodes| && x < |t.nodes|
    requires dist[x] == d && d >= root
    requires Queued(t, contents, game, dist, queue, roots, root)
    ensures Queued(t, contents, game, dist, q, roots, root)
    ensures |q| >= |queue| && q[..|queue|] == queue
    ensures forall k :: 0 <= k < |t.links[x]| && Passable(t, contents, game, t.links[x][k]) ==>
      InQueue(q, Other(t, t.links[x][k], x))
  {
    var ps := t.links[x];
    q := queue;
    var k := 0;
    while k < |ps|
      invariant k <= |ps| && |q| >= |queue| && q[..|queue|] == queue
      invariant Queued(t, contents, game, dist, q, roots, root)
      invariant forall j :: 0 <= j < k && Passable(t, contents, game, ps[j]) ==> InQueue(q, Other(t, ps[j], x))
    {
      var p := ps[k];
      if Passable(t, contents, game, p) {
        var nb := Other(t, p, x);
        QueuedPush(t, contents, game, dist, x, d, q, roots, root, k);
        assert InQueue(q + [(nb, d + 1)], nb) by {
          assert (q + [(nb, d + 1)])[|q|].0 == nb;
        }
        forall j | 0 <= j < k && Passable(t, contents, game, ps[j])
          ensures InQueue(q + [(nb, d + 1)], Other(t, ps[j], x))
        {
          var i :| 0 <= i < |q| && q[i].0 == Other(t, ps[j], x);
          assert (q + [(nb, d + 1)])[i] == q[i];
        }
        q := q + [(nb, d + 1)];
      }
      k := k + 1;
    }
  }

  /** Dropping the head of the queue keeps the frontier when the head is
      already flooded. */
  lemma FrontierPop(t: Tree, contents: seq<int>, game: Game, dist: seq<int>, q: seq<(nat, int)>, mark: int)
    requires TreeOk(t) && |contents| == |t.nodes| && |dist| == |t.nodes| && q != []
    requires Frontier(t, contents, game, dist, q, mark) && q[0].0 < |t.nodes| && dist[q[0].0] > mark
    ensures Frontier(t, contents, game, dist, q[1..], mark)
  {
    forall n, k |
      0 <= n < |t.nodes| && n != t.outside && dist[n] > mark && 0 <= k < |t.links[n]| &&
      Passable(t, contents, game, t.links[n][k]) && dist[Other(t, t.links[n][k], n)] <= mark
      ensures InQueue(q[1..], Other(t, t.links[n][k], n))
    {
      var i :| 0 <= i < |q| && q[i].0 == Other(t, t.links[n][k], n);
      assert q[1..][i - 1] == q[i];
    }
  }

  /** Dropping the head of the queue keeps the rest queued. */
  lemma QueuedTail(t: Tree, contents: seq<int>, game: Game, dist: seq<int>, q: seq<(nat, int)>, roots: set<nat>, root: int)
    requires TreeOk(t) && |contents| == |t.nodes| && |dist| == |t.nodes| && q != []
    requires Queued(t, contents, game, dist, q, roots, root)
    ensures Queued(t, contents, game, dist, q[1..], roots, root)
  {
    forall i | 0 <= i < |q| - 1
      ensures q[1..][i] == q[i + 1]
    {
    }
  }

  /** Flooding the head x of the queue at v above mark and queueing all
      its passable neighbours behind the rest keeps the frontier. */
  lemma FrontierVisit(t: Tree, contents: seq<int>, game: Game, dist: seq<int>, q0: seq<(nat, int)>, x: nat, v: int,
                      q: seq<(nat, int)>, mark: int)
    requires TreeOk(t) && |contents| == |t.nodes| && |dist| == |t.nodes| && q0 != [] && q0[0].0 == x && x < |t.nodes|
    requires Frontier(t, contents, game, dist, q0, mark) && v > mark
    requires |q| >= |q0| - 1 && q[..|q0| - 1] == q0[1..]
    requires forall k :: 0 <= k < |t.links[x]| && Passable(t, contents, game, t.links[x][k]) ==>
      InQueue(q, Other(t, t.links[x][k], x))
    ensures Frontier(t, contents, game, dist[x := v], q, mark)
  {
    var d' := dist[x := v];
    forall n, k |
      0 <= n < |t.nodes| && n != t.outside && d'[n] > mark && 0 <= k < |t.links[n]| &&
      Passable(t, contents, game, t.links[n][k]) && d'[Other(t, t.links[n][k], n)] <= mark
      ensures InQueue(q, Other(t, t.links[n][k], n))
    {
      if n != x {
        var o := Other(t, t.links[n][k], n);
        var i :| 0 <= i < |q0| && q0[i].0 == o;
        assert i != 0;
        assert q[i - 1] == q0[1..][i - 1] == q0[i];
      }
    }
  }

  /** With nothing left queued the frontier is closed. */
  lemma FrontierClosed(t: Tree, contents: seq<int>, game: Game, dist: seq<int>, mark: int)
    requires TreeOk(t) && |contents| == |t.nodes| && |dist| == |t.nodes|
    requires Frontier(t, contents, game, dist, [], mark)
    ensures Closed(t, contents, game, dist, mark)
  {
    forall n, k |
      0 <= n < |t.nodes| && n != t.outside && dist[n] > mark && 0 <= k < |t.links[n]| &&
      Passable(t, contents, game, t.links[n][k])
      ensures dist[Other(t, t.links[n][k], n)] > mark
    {
      assert !InQueue([], Other(t, t.links[n][k], n));
    }
  }

  /** The flooded nodes other than the outside node are exactly those in
      visited, those at root or above, and the others hold root - 1. */
  ghost predicate FloodedExactly(t: Tree, dist: seq<int>, visited: set<nat>, root: int)
    requires |dist| == |t.nodes|
  {
    (forall n :: 0 <= n < |t.nodes| && n != t.outside ==> (n in visited <==> dist[n] >= root) && dist[n] >= root - 1) &&
    (forall n :: n in visited ==> n < |t.nodes| && n != t.outside)
  }

  /** Every seed is flooded at root or above, or still queued. */
  predicate Seeded(t: Tree, dist: seq<int>, seeds: seq<nat>, q: seq<(nat, int)>, root: int)
    requires |dist| == |t.nodes|
  {
    forall i :: 0 <= i < |seeds| ==> seeds[i] < |t.nodes| && (dist[seeds[i]] >= root || InQueue(q, seeds[i]))
  }

  lemma SeededPop(t: Tree, dist: seq<int>, seeds: seq<nat>, q: seq<(nat, int)>, root: int)
    requires |dist| == |t.nodes| && q != [] && q[0].0 < |t.nodes| && dist[q[0].0] >= root
    requires Seeded(t, dist, seeds, q, root)
    ensures Seeded(t, dist, seeds, q[1..], root)
  {
    forall i | 0 <= i < |seeds| && dist[seeds[i]] < root
      ensures InQueue(q[1..], seeds[i])
    {
      var j :| 0 <= j < |q| && q[j].0 == seeds[i];
      assert q[1..][j - 1] == q[j];
    }
  }

  lemma SeededVisit(t: Tree, dist: seq<int>, seeds: seq<nat>, q0: seq<(nat, int)>, v: int, q: seq<(nat, int)>, root: int)
    requires |dist| == |t.nodes| && q0 != [] && q0[0].0 < |t.nodes| && v >= root
    requires Seeded(t, dist, seeds, q0, root)
    requires |q| >= |q0| - 1 && q[..|q0| - 1] == q0[1..]
    ensures Seeded(t, dist[q0[0].0 := v], seeds, q, root)
  {
    var d' := dist[q0[0].0 := v];
    forall i | 0 <= i < |seeds| && d'[seeds[i]] < root
      ensures InQueue(q, seeds[i])
    {
      var j :| 0 <= j < |q0| && q0[j].0 == seeds[i];
      assert j != 0;
      assert q[j - 1] == q0[1..][j - 1] == q0[j];
    }
  }

  /** A set of node numbers below n has at most n members. */
  lemma {:induction false} CardBelow(s: set<nat>, n: nat)
    requires forall x :: x in s ==> x < n
    ensures |s| <= n
    decreases n
  {
    if n > 0 {
      CardBelow(s - {n - 1}, n - 1);
    }
  }

  /** A leaf is below itself only. */
  lemma LeafBelow(nodes: seq<Node>, x: nat, m: nat)
    requires WellFormed(nodes) && x < |nodes| && nodes[x].isLeaf
    ensures Descendant(nodes, x, m) <==> m == x
  {
  }

  /** One visit of the flood from the occupied leafs: the head x of the
      queue still has occupied 0, so it gets its queued distance d and its
      passable neighbours are queued at d + 1. */
  method VisitOccupied(t: Tree, contents: seq<int>, game: Game, occupied: seq<int>, ghost seeds: seq<nat>,
                       ghost roots: set<nat>, q0: seq<(nat, int)>, ghost visited: set<nat>)
    returns (occ: seq<int>, q: seq<(nat, int)>)
    requires TreeOk(t) && |contents| == |t.nodes| && |occupied| == |t.nodes|
    requires q0 != [] && q0[0].0 < |t.nodes| && occupied[q0[0].0] == 0
    requires FloodedExactly(t, occupied, visited, 1)
    requires Queued(t, contents, game, occupied, q0, roots, 1)
    requires Rooted(t, occupied, roots, 1)
    requires Descends(t, contents, game, occupied, 1)
    requires Frontier(t, contents, game, occupied, q0, 0)
    requires Seeded(t, occupied, seeds, q0, 1)
    ensures occ == occupied[q0[0].0 := q0[0].1]
    ensures FloodedExactly(t, occ, visited + {q0[0].0}, 1)
    ensures Queued(t, contents, game, occ, q, roots, 1)
    ensures Rooted(t, occ, roots, 1)
    ensures Descends(t, contents, game, occ, 1)
    ensures Frontier(t, contents, game, occ, q, 0)
    ensures Seeded(t, occ, seeds, q, 1)
  {
    var (x, d) := q0[0];
    var queue := q0[1..];
    occ := occupied[x := d];
    DescendsKept(t, contents, game, occupied, x, d, 1);
    QueuedKept(t, contents, game, occupied, queue, roots, 1, x, d);
    q := PushNeighbours(t, contents, game, occ, x, d, queue, roots, 1);
    FrontierVisit(t, contents, game, occupied, q0, x, d, q, 0);
    SeededVisit(t, occupied, seeds, q0, d, q, 1);
  }

  /** The queue loop of the flood from the occupied leafs: pops entries
      until the queue is empty, skipping nodes already flooded and visiting
      the others. It ends with the flood closed. */
  method DrainOccupiedQueue(t: Tree, contents: seq<int>, game: Game, occupied: seq<int>, ghost seeds: seq<nat>,
                            ghost roots: set<nat>, queue0: seq<(nat, int)>, ghost visited0: set<nat>)
    returns (occ: seq<int>)
    requires TreeOk(t) && |contents| == |t.nodes| && |occupied| == |t.nodes|
    requires FloodedExactly(t, occupied, visited0, 1) && |visited0| <= |t.nodes|
    requires Queued(t, contents, game, occupied, queue0, roots, 1)
    requires Rooted(t, occupied, roots, 1)
    requires Descends(t, contents, game, occupied, 1)
    requires Frontier(t, contents, game, occupied, queue0, 0)
    requires Seeded(t, occupied, seeds, queue0, 1)
    ensures |occ| == |t.nodes| && occ[t.outside] == occupied[t.outside]
    ensures forall i :: 0 <= i < |seeds| ==> occ[seeds[i]] >= 1
    ensures Rooted(t, occ, roots, 1)
    ensures Descends(t, contents, game, occ, 1) && Closed(t, contents, game, occ, 0)
    ensures forall n :: 0 <= n < |t.nodes| && n != t.outside ==> occ[n] >= 0
  {
    var queue := queue0;
    ghost var visited := visited0;
    occ := occupied;
    while queue != []
      invariant |occ| == |t.nodes| && occ[t.outside] == occupied[t.outside]
      invariant FloodedExactly(t, occ, visited, 1)
      invariant |visited| <= |t.nodes|
      invariant Queued(t, contents, game, occ, queue, roots, 1)
      invariant Rooted(t, occ, roots, 1)
      invariant Descends(t, contents, game, occ, 1)
      invariant Frontier(t, contents, game, occ, queue, 0)
      invariant Seeded(t, occ, seeds, queue, 1)
      decreases |t.nodes| - |visited|, |queue|
    {
      var x := queue[0].0;
      if occ[x] != 0 {
        FrontierPop(t, contents, game, occ, queue, 0);
        QueuedTail(t, contents, game, occ, queue, roots, 1);
        SeededPop(t, occ, seeds, queue, 1);
        queue := queue[1..];
        continue;
      }
      occ, queue := VisitOccupied(t, contents, game, occ, seeds, roots, queue, visited);
      assert |visited + {x}| == |visited| + 1;
      visited := visited + {x};
      CardBelow(visited, |t.nodes|);
    }
    FrontierClosed(t, contents, game, occ, 0);
  }

  /** Following the flood values down from a node, a flood whose parents
      are kept meets distinct nodes at every level from root up to the
      node's value, so that value is below the number of nodes plus root. */
  lemma {:induction false} Levels(t: Tree, contents: seq<int>, game: Game, dist: seq<int>, root: int, n: nat)
    returns (s: set<nat>)
    requires TreeOk(t) && |contents| == |t.nodes| && |dist| == |t.nodes| && n < |t.nodes| && n != t.outside
    requires Descends(t, contents, game, dist, root) && dist[n] >= root
    ensures |s| == dist[n] - root + 1
    ensures forall m :: m in s ==> m < |t.nodes| && root <= dist[m] <= dist[n]
    decreases dist[n] - root
  {
    if dist[n] == root {
      s := {n};
    } else {
      assert Parent(t, contents, game, dist, n, dist[n]);
      var k :| 0 <= k < |t.links[n]| && StepTo(t, contents, game, dist, n, t.links[n][k], dist[n] - 1);
      var p := t.links[n][k];
      OtherBack(t, p, n);
      PassableInside(t, contents, game, p, n);
      var s' := Levels(t, contents, game, dist, root, Other(t, p, n));
      assert n !in s';
      s := s' + {n};
    }
  }

  lemma LevelBound(t: Tree, contents: seq<int>, game: Game, dist: seq<int>, root: int, n: nat)
    requires TreeOk(t) && |contents| == |t.nodes| && |dist| == |t.nodes| && n < |t.nodes| && n != t.outside
    requires Descends(t, contents, game, dist, root) && dist[n] >= root
    ensures dist[n] - root < |t.nodes|
  {
    var s := Levels(t, contents, game, dist, root, n);
    CardBelow(s, |t.nodes|);
  }

  /** What a finished flood means: given its parents, its roots and its
      closure, a node is flooded at root or above exactly when some walk
      through passable portals leads to it from a root. */
  lemma FloodMeaning(t: Tree, contents: seq<int>, game: Game, dist: seq<int>, roots: set<nat>, root: int, m: nat)
    requires TreeOk(t) && |contents| == |t.nodes| && |dist| == |t.nodes| && m < |t.nodes| && m != t.outside
    requires Descends(t, contents, game, dist, root) && Rooted(t, dist, roots, root)
    requires Closed(t, contents, game, dist, root - 1)
    requires forall r :: r in roots ==> r < |t.nodes| && r != t.outside && dist[r] >= root
    ensures dist[m] >= root <==> Reached(t, contents, game, roots, m)
  {
    if dist[m] >= root {
      ReachedFromRoot(t, contents, game, dist, roots, root, m);
    } else {
      forall r, path | r in roots && r < |t.nodes| && Walk(t, contents, game, r, path, m)
        ensures false
      {
        WalkStaysAbove(t, contents, game, dist, root - 1, r, path, m);
      }
    }
  }

  /** FloodMeaning for every node at once. */
  lemma FloodMeaningAll(t: Tree, contents: seq<int>, game: Game, dist: seq<int>, roots: set<nat>, root: int)
    requires TreeOk(t) && |contents| == |t.nodes| && |dist| == |t.nodes|
    requires Descends(t, contents, game, dist, root) && Rooted(t, dist, roots, root)
    requires Closed(t, contents, game, dist, root - 1)
    requires forall r :: r in roots ==> r < |t.nodes| && r != t.outside && dist[r] >= root
    ensures forall m :: 0 <= m < |t.nodes| && m != t.outside ==>
      (dist[m] >= root <==> Reached(t, contents, game, roots, m))
  {
    forall m | 0 <= m < |t.nodes| && m != t.outside
      ensures dist[m] >= root <==> Reached(t, contents, game, roots, m)
    {
      FloodMeaning(t, contents, game, dist, roots, root, m);
    }
  }

  /** No walk leads out of a closed flood: none reaches target, left
      unflooded, from a flooded root. */
  lemma NoWalkTo(t: Tree, contents: seq<int>, game: Game, dist: seq<int>, mark: int, roots: set<nat>, target: nat)
    requires TreeOk(t) && |contents| == |t.nodes| && |dist| == |t.nodes| && target < |t.nodes|
    requires Closed(t, contents, game, dist, mark) && dist[target] <= mark
    requires forall r :: r in roots ==> r < |t.nodes| && r != t.outside && dist[r] > mark
    ensures forall a, path :: a in roots && a < |t.nodes| ==> !Walk(t, contents, game, a, path, target)
  {
    forall a, path | a in roots && a < |t.nodes| && Walk(t, contents, game, a, path, target)
      ensures false
    {
      WalkStaysAbove(t, contents, game, dist, mark, a, path, target);
    }
  }

  /** No walk leads into a closed flood from outside it: none reaches
      source, flooded, from an unflooded node. */
  lemma NoWalkFrom(t: Tree, contents: seq<int>, game: Game, dist: seq<int>, mark: int, targets: set<nat>, source: nat)
    requires TreeOk(t) && |contents| == |t.nodes| && |dist| == |t.nodes| && source < |t.nodes| && source != t.outside
    requires Closed(t, contents, game, dist, mark) && dist[source] > mark
    requires forall a :: a in targets ==> a < |t.nodes| && dist[a] <= mark
    ensures forall a, path :: a in targets && a < |t.nodes| ==> !Walk(t, contents, game, a, path, source)
  {
    forall a, path | a in targets && a < |t.nodes| && Walk(t, contents, game, a, path, source)
      ensures false
    {
      WalkReverse(t, contents, game, a, path, source);
      WalkStaysAbove(t, contents, game, dist, mark, source, Reverse(path), a);
    }
  }

  // ---------------------------------------------------------------------------
  // Leak lines

  /** MakeLeakLine: from a leaf the flood from the occupied leafs reached,
      down the occupied values to a leaf at 1, which holds an entity. */
  method MakeLeakLine(t: Tree, contents: seq<int>, game: Game, occupied: seq<int>, occupant: seq<Option<nat>>,
                      outleaf: nat, ghost roots: set<nat>) returns (line: seq<nat>, leaf: nat, entity: nat)
    requires TreeOk(t) && |contents| == |t.nodes| && |occupied| == |t.nodes| && |occupant| == |t.nodes|
    requires outleaf < |t.nodes| && outleaf != t.outside && occupied[outleaf] > 0
    requires Descends(t, contents, game, occupied, 1) && Closed(t, contents, game, occupied, 0)
    requires Rooted(t, occupied, roots, 1)
    requires forall s :: s in roots ==> s < |t.nodes| && occupant[s].Some?
    ensures leaf < |t.nodes| && leaf in roots && occupied[leaf] == 1 && occupant[leaf] == Some(entity)
    ensures Chain(t, contents, game, occupied, outleaf, line, leaf)
  {
    var r, end := Descend(t, contents, game, occupied, outleaf, 1);
    assert r.Ok?;
    line, leaf := r.value, end;
    entity := occupant[leaf].value;
  }

  /** FindPortalsToVoid: from an occupied leaf the flood from the void
      reached, down the outside distances to the void leaf. */
  method FindPortalsToVoid(t: Tree, contents: seq<int>, game: Game, dist: seq<int>, occupant: seq<Option<nat>>,
                           leaf: nat) returns (line: seq<nat>)
    requires TreeOk(t) && |contents| == |t.nodes| && |dist| == |t.nodes| && |occupant| == |t.nodes|
    requires leaf < |t.nodes| && leaf != t.outside && occupant[leaf].Some? && dist[leaf] >= 0
    requires Descends(t, contents, game, dist, 0) && Closed(t, contents, game, dist, -1)
    requires Rooted(t, dist, {FillNode(t)}, 0)
    ensures Chain(t, contents, game, dist, leaf, line, FillNode(t))
  {
    var r, end := Descend(t, contents, game, dist, leaf, 0);
    assert r.Ok?;
    line := r.value;
  }

  /** The largest value an int holds; the starting best distance when
      looking for the leak nearest the void. */
  const INT_MAX: int := 0x7fff_ffff

  /** The occupied cluster nearest the void: the first, in list order, of
      those with the smallest outside distance other than -1 (a distance
      must beat INT_MAX to count). */
  method BestLeak(clusters: seq<nat>, dist: seq<int>) returns (best: Option<nat>)
    requires forall i :: 0 <= i < |clusters| ==> clusters[i] < |dist|
    ensures best.None? <==> forall i :: 0 <= i < |clusters| ==> dist[clusters[i]] == -1 || dist[clusters[i]] >= INT_MAX
    ensures best.Some? ==> exists i :: (0 <= i < |clusters| && clusters[i] == best.value &&
      (forall j :: 0 <= j < i ==> dist[clusters[j]] == -1 || dist[clusters[j]] > dist[best.value]))
    ensures best.Some? ==> (best.value < |dist| && dist[best.value] != -1 && dist[best.value] < INT_MAX &&
      forall j :: 0 <= j < |clusters| && dist[clusters[j]] != -1 ==> dist[best.value] <= dist[clusters[j]])
  {
    var bestDist := INT_MAX;
    best := None;
    var i := 0;
    ghost var at := 0;
    while i < |clusters|
      invariant 0 <= i <= |clusters|
      invariant best.None? <==> forall j :: 0 <= j < i ==> dist[clusters[j]] == -1 || dist[clusters[j]] >= INT_MAX
      invariant best.None? ==> bestDist == INT_MAX
      invariant best.Some? ==> (0 <= at < i && clusters[at] == best.value && bestDist == dist[best.value] &&
        bestDist != -1 && bestDist < INT_MAX &&
        forall j :: 0 <= j < at ==> dist[clusters[j]] == -1 || dist[clusters[j]] > bestDist)
      invariant forall j :: 0 <= j < i && dist[clusters[j]] != -1 ==> bestDist <= dist[clusters[j]]
    {
      var leaf := clusters[i];
      if dist[leaf] != -1 && dist[leaf] < bestDist {
        bestDist := dist[leaf];
        best := Some(leaf);
        at := i;
      }
      i := i + 1;
    }
  }

  // ---------------------------------------------------------------------------
  // Entities and the leafs they occupy

  /** A map entity as MarkOccupiedClusters sees it: whether its origin is
      within QBSP_EQUAL_EPSILON of (0 0 0), whether its "_nofill" key holds
      a non-zero number, and the signed distance of its origin to each
      node's plane. */
  datatype Entity = Entity(nearOrigin: bool, nofill: bool, planeDist: seq<real>)

  predicate EntitiesFit(t: Tree, ents: seq<Entity>)
  {
    forall i :: 0 <= i < |ents| ==> |ents[i].planeDist| == |t.nodes|
  }

  /** The leaf entity e would occupy: none for an entity at the origin or
      with _nofill, or whose leaf seals the map; otherwise the leaf below
      head its origin lies in, which is never the outside node. */
  function Claim(t: Tree, contents: seq<int>, game: Game, e: Entity): (r: Option<nat>)
    requires TreeOk(t) && |contents| == |t.nodes| && |e.planeDist| == |t.nodes|
    ensures r.Some? ==> (r.value < |t.nodes| && r.value != t.outside && t.nodes[r.value].isLeaf &&
      Descendant(t.nodes, t.head, r.value) && !game.seals(contents[r.value]))
    ensures r.Some? <==> (!e.nearOrigin && !e.nofill &&
      !game.seals(contents[PointInLeaf(t.nodes, contents, game, e.planeDist, t.head)]))
  {
    if e.nearOrigin || e.nofill then None
    else
      var leaf := PointInLeaf(t.nodes, contents, game, e.planeDist, t.head);
      PointInLeafBelow(t.nodes, contents, game, e.planeDist, t.head);
      if game.seals(contents[leaf]) then None else Some(leaf)
  }

  /** The first of entities 1 .. i - 1 that would occupy leaf n. */
  function FirstClaim(t: Tree, contents: seq<int>, game: Game, ents: seq<Entity>, n: nat, i: nat): Option<nat>
    requires TreeOk(t) && |contents| == |t.nodes| && EntitiesFit(t, ents) && (i <= 1 || i <= |ents|)
    decreases i
  {
    if i <= 1 then None
    else
      var f := FirstClaim(t, contents, game, ents, n, i - 1);
      if f.Some? then f
      else if Claim(t, contents, game, ents[i - 1]) == Some(n) then Some(i - 1)
      else None
  }

  /** FirstClaim finds the lowest-numbered entity from 1 on that would
      occupy n, and none when no such entity is below i. */
  lemma {:induction false} FirstClaimIsFirst(t: Tree, contents: seq<int>, game: Game, ents: seq<Entity>, n: nat, i: nat)
    requires TreeOk(t) && |contents| == |t.nodes| && EntitiesFit(t, ents) && (i <= 1 || i <= |ents|)
    ensures FirstClaim(t, contents, game, ents, n, i).None? ==>
      forall e :: 1 <= e < i ==> Claim(t, contents, game, ents[e]) != Some(n)
    ensures FirstClaim(t, contents, game, ents, n, i).Some? ==>
      var e := FirstClaim(t, contents, game, ents, n, i).value;
      1 <= e < i && Claim(t, contents, game, ents[e]) == Some(n) &&
      forall e' :: 1 <= e' < e ==> Claim(t, contents, game, ents[e']) != Some(n)
    decreases i
  {
    if i > 1 {
      FirstClaimIsFirst(t, contents, game, ents, n, i - 1);
    }
  }

  /** FindOccupiedClusters_R: the nodes below node that have an occupant,
      in preorder. */
  function OccupiedClusters(nodes: seq<Node>, occupant: seq<Option<nat>>, node: nat): seq<nat>
    requires WellFormed(nodes) && node < |nodes| && |occupant| == |nodes|
    decreases |nodes| - node
  {
    (if occupant[node].Some? then [node] else []) +
    (if nodes[node].isLeaf then []
     else OccupiedClusters(nodes, occupant, nodes[node].front) + OccupiedClusters(nodes, occupant, nodes[node].back))
  }

  /** The list holds exactly the occupied nodes below node. */
  lemma {:induction false} OccupiedClustersMembers(nodes: seq<Node>, occupant: seq<Option<nat>>, node: nat, m: nat)
    requires WellFormed(nodes) && node < |nodes| && |occupant| == |nodes|
    ensures m in OccupiedClusters(nodes, occupant, node) <==>
      m < |nodes| && Descendant(nodes, node, m) && occupant[m].Some?
    decreases |nodes| - node
  {
    if !nodes[node].isLeaf {
      OccupiedClustersMembers(nodes, occupant, nodes[node].front, m);
      OccupiedClustersMembers(nodes, occupant, nodes[node].back, m);
    }
  }

  /** OutLeafsToSolid_R's test for one leaf: unreachable under the fill
      type (never flooded from an entity when filling inside, flooded from
      the void otherwise), and not already sealing the map. */
  predicate ConvertsToSolid(fill: FillType, game: Game, occupied: int, outsideDistance: int, contents: int)
  {
    (if fill == Inside then occupied <= 0 else outsideDistance != -1) && !game.seals(contents)
  }

  /** The leafs some entity from 1 on would occupy. */
  ghost function Claimed(t: Tree, contents: seq<int>, game: Game, ents: seq<Entity>): set<nat>
    requires TreeOk(t) && |contents| == |t.nodes| && EntitiesFit(t, ents)
  {
    set e | 1 <= e < |ents| && Claim(t, contents, game, ents[e]).Some? :: Claim(t, contents, game, ents[e]).value
  }

  /** Once every node below head holds the first entity that would occupy
      it, the occupied clusters are exactly the claimed leafs, each holding
      an entity that claims it. */
  lemma ClaimedClusters(t: Tree, contents: seq<int>, game: Game, ents: seq<Entity>, occupant: seq<Option<nat>>)
    requires TreeOk(t) && |contents| == |t.nodes| && EntitiesFit(t, ents) && |occupant| == |t.nodes|
    requires forall n :: 0 <= n < |t.nodes| && Descendant(t.nodes, t.head, n) ==>
      occupant[n] == FirstClaim(t, contents, game, ents, n, |ents|)
    ensures (set s | s in OccupiedClusters(t.nodes, occupant, t.head)) == Claimed(t, contents, game, ents)
    ensures forall s :: s in OccupiedClusters(t.nodes, occupant, t.head) ==>
      s < |t.nodes| && s != t.outside && t.nodes[s].isLeaf && occupant[s].Some? && 1 <= occupant[s].value < |ents| &&
      Claim(t, contents, game, ents[occupant[s].value]) == Some(s)
  {
    var cl := OccupiedClusters(t.nodes, occupant, t.head);
    forall m | m in cl
      ensures m < |t.nodes| && m != t.outside && t.nodes[m].isLeaf && occupant[m].Some? &&
        1 <= occupant[m].value < |ents| && Claim(t, contents, game, ents[occupant[m].value]) == Some(m)
      ensures m in Claimed(t, contents, game, ents)
    {
      OccupiedClustersMembers(t.nodes, occupant, t.head, m);
      FirstClaimIsFirst(t, contents, game, ents, m, |ents|);
    }
    forall m | m in Claimed(t, contents, game, ents)
      ensures m in cl
    {
      var e :| 1 <= e < |ents| && Claim(t, contents, game, ents[e]) == Some(m);
      FirstClaimIsFirst(t, contents, game, ents, m, |ents|);
      OccupiedClustersMembers(t.nodes, occupant, t.head, m);
    }
  }

  /** A leak: the entity reached, the leaf it occupies, and the portals
      leading from that leaf to the void leaf. */
  datatype Leak = Leak(entity: nat, leaf: nat, line: seq<nat>)

  /** The occupied clusters, listed: exactly the claimed leaves, each a leaf
      whose occupant is an entity that claims it. */
  ghost predicate ClustersFor(t: Tree, contents: seq<int>, occupant: seq<Option<nat>>, game: Game,
                              ents: seq<Entity>, clusters: seq<nat>)
    requires TreeOk(t) && |contents| == |t.nodes| && |occupant| == |t.nodes| && EntitiesFit(t, ents)
  {
    (set s | s in clusters) == Claimed(t, contents, game, ents) &&
    forall i :: 0 <= i < |clusters| ==>
      clusters[i] < |t.nodes| && clusters[i] != t.outside && t.nodes[clusters[i]].isLeaf &&
      occupant[clusters[i]].Some? && 1 <= occupant[clusters[i]].value < |ents| &&
      Claim(t, contents, game, ents[occupant[clusters[i]].value]) == Some(clusters[i])
  }

  /** A leak: an entity that claims the leaf, and a walk from that leaf to
      the void leaf. */
  ghost predicate LeakOk(t: Tree, contents: seq<int>, game: Game, ents: seq<Entity>, lk: Leak)
    requires TreeOk(t) && |contents| == |t.nodes| && EntitiesFit(t, ents)
  {
    1 <= lk.entity < |ents| && lk.leaf < |t.nodes| &&
    Claim(t, contents, game, ents[lk.entity]) == Some(lk.leaf) &&
    Walk(t, contents, game, lk.leaf, lk.line, FillNode(t))
  }

  /** No claimed leaf has a walk to the void leaf. */
  ghost predicate Sealed(t: Tree, contents: seq<int>, game: Game, ents: seq<Entity>)
    requires TreeOk(t) && |contents| == |t.nodes| && EntitiesFit(t, ents)
  {
    forall a, path :: a in Claimed(t, contents, game, ents) && a < |t.nodes| ==>
      !Walk(t, contents, game, a, path, FillNode(t))
  }

  lemma LeakFound(t: Tree, contents: seq<int>, occupant: seq<Option<nat>>, game: Game, ents: seq<Entity>,
                  clusters: seq<nat>, dist: seq<int>, i: nat, line: seq<nat>)
    requires TreeOk(t) && EntitiesFit(t, ents)
    requires |contents| == |t.nodes| && |occupant| == |t.nodes| && |dist| == |t.nodes|
    requires ClustersFor(t, contents, occupant, game, ents, clusters) && i < |clusters|
    requires FillNode(t) < |t.nodes|
    requires Chain(t, contents, game, dist, clusters[i], line, FillNode(t))
    ensures LeakOk(t, contents, game, ents, Leak(occupant[clusters[i]].value, clusters[i], line))
  {
    ChainWalk(t, contents, game, dist, clusters[i], line, FillNode(t));
  }

  lemma NoneReached(t: Tree, contents: seq<int>, occupant: seq<Option<nat>>, game: Game, ents: seq<Entity>,
                    clusters: seq<nat>, dist: seq<int>)
    requires TreeOk(t) && EntitiesFit(t, ents) && |t.nodes| <= INT_MAX
    requires |contents| == |t.nodes| && |occupant| == |t.nodes| && |dist| == |t.nodes|
    requires ClustersFor(t, contents, occupant, game, ents, clusters)
    requires FillNode(t) < |t.nodes| && FillNode(t) != t.outside && dist[FillNode(t)] == 0
    requires Descends(t, contents, game, dist, 0) && Closed(t, contents, game, dist, -1)
    requires forall n :: 0 <= n < |t.nodes| && n != t.outside ==> dist[n] >= -1
    requires forall i :: 0 <= i < |clusters| ==> dist[clusters[i]] == -1 || dist[clusters[i]] >= INT_MAX
    ensures Sealed(t, contents, game, ents)
  {
    var claimed := Claimed(t, contents, game, ents);
    forall a | a in claimed
      ensures a < |t.nodes| && dist[a] <= -1
    {
      var i :| 0 <= i < |clusters| && clusters[i] == a;
      if dist[a] >= 0 {
        LevelBound(t, contents, game, dist, 0, a);
      }
    }
    NoWalkFrom(t, contents, game, dist, -1, claimed, FillNode(t));
  }

  /** After the flood from the void: the leak is the nearest reached cluster,
      walked back to the void leaf; with no reached cluster no claimed leaf
      has a walk to the void. */
  method ChooseLeak(t: Tree, contents: seq<int>, occupant: seq<Option<nat>>, game: Game, ghost ents: seq<Entity>,
                    clusters: seq<nat>, dist: seq<int>) returns (leak: Option<Leak>)
    requires TreeOk(t) && EntitiesFit(t, ents) && |t.nodes| <= INT_MAX
    requires |contents| == |t.nodes| && |occupant| == |t.nodes| && |dist| == |t.nodes|
    requires ClustersFor(t, contents, occupant, game, ents, clusters)
    requires FillNode(t) < |t.nodes| && FillNode(t) != t.outside && dist[FillNode(t)] == 0
    requires Rooted(t, dist, {FillNode(t)}, 0)
    requires Descends(t, contents, game, dist, 0) && Closed(t, contents, game, dist, -1)
    requires forall n :: 0 <= n < |t.nodes| && n != t.outside ==> dist[n] >= -1
    ensures leak.Some? ==> LeakOk(t, contents, game, ents, leak.value)
    ensures leak.None? ==> Sealed(t, contents, game, ents)
  {
    var best := BestLeak(clusters, dist);
    if best.Some? {
      var i :| 0 <= i < |clusters| && clusters[i] == best.value;
      var line := FindPortalsToVoid(t, contents, game, dist, occupant, best.value);
      LeakFound(t, contents, occupant, game, ents, clusters, dist, i, line);
      return Some(Leak(occupant[best.value].value, best.value, line));
    }
    NoneReached(t, contents, occupant, game, ents, clusters, dist);
    return None;
  }

  // ---------------------------------------------------------------------------
  // The per-node fill state

  class FillState {
    var contents: seq<int>            // node->contents
    var outsideDistance: seq<int>     // node->outside_distance
    var occupied: seq<int>            // node->occupied
    var occupant: seq<Option<nat>>    // node->occupant, an entity number

    /** MarkClusterOutsideDistance_R: node and every node below it get
        outside_distance d. */
    method MarkClusterOutsideDistance(nodes: seq<Node>, node: nat, d: int)
      requires WellFormed(nodes) && node < |nodes| && |outsideDistance| == |nodes|
      modifies this`outsideDistance
      ensures |outsideDistance| == |nodes|
      ensures forall m :: 0 <= m < |nodes| ==>
        outsideDistance[m] == (if Descendant(nodes, node, m) then d else old(outsideDistance[m]))
      decreases |nodes| - node
    {
      outsideDistance := outsideDistance[node := d];
      if !nodes[node].isLeaf {
        MarkClusterOutsideDistance(nodes, nodes[node].front, d);
        MarkClusterOutsideDistance(nodes, nodes[node].back, d);
      }
    }

    /** One visit of the void flood: the head x of the queue, not yet
        visited, gets its queued distance d and its passable neighbours are
        queued at d + 1. */
    method VisitFromVoid(t: Tree, game: Game, fill: nat, q0: seq<(nat, int)>, ghost visited: set<nat>)
      returns (q: seq<(nat, int)>)
      requires TreeOk(t) && |contents| == |t.nodes| && |outsideDistance| == |t.nodes|
      requires q0 != [] && q0[0].0 !in visited
      requires FloodedExactly(t, outsideDistance, visited, 0)
      requires Queued(t, contents, game, outsideDistance, q0, {fill}, 0)
      requires Rooted(t, outsideDistance, {fill}, 0)
      requires Descends(t, contents, game, outsideDistance, 0)
      requires Frontier(t, contents, game, outsideDistance, q0, -1)
      modifies this`outsideDistance
      ensures outsideDistance == old(outsideDistance)[q0[0].0 := q0[0].1]
      ensures FloodedExactly(t, outsideDistance, visited + {q0[0].0}, 0)
      ensures Queued(t, contents, game, outsideDistance, q, {fill}, 0)
      ensures Rooted(t, outsideDistance, {fill}, 0)
      ensures Descends(t, contents, game, outsideDistance, 0)
      ensures Frontier(t, contents, game, outsideDistance, q, -1)
    {
      var (x, d) := q0[0];
      var queue := q0[1..];
      ghost var before := outsideDistance;
      MarkClusterOutsideDistance(t.nodes, x, d);
      forall m | 0 <= m < |t.nodes|
        ensures outsideDistance[m] == before[x := d][m]
      {
        LeafBelow(t.nodes, x, m);
      }
      assert outsideDistance == before[x := d];
      DescendsKept(t, contents, game, before, x, d, 0);
      QueuedKept(t, contents, game, before, queue, {fill}, 0, x, d);
      q := PushNeighbours(t, contents, game, outsideDistance, x, d, queue, {fill}, 0);
      FrontierVisit(t, contents, game, before, q0, x, d, q, -1);
    }

    /** The queue loop of the void flood: pops entries until the queue is
        empty, skipping visited nodes and visiting the others. It ends with
        the flood closed. */
    method DrainVoidQueue(t: Tree, game: Game, fill: nat, queue0: seq<(nat, int)>, visited0: set<nat>)
      requires TreeOk(t) && |contents| == |t.nodes| && |outsideDistance| == |t.nodes|
      requires FloodedExactly(t, outsideDistance, visited0, 0) && |visited0| <= |t.nodes|
      requires fill in visited0 && outsideDistance[fill] == 0
      requires Queued(t, contents, game, outsideDistance, queue0, {fill}, 0)
      requires Rooted(t, outsideDistance, {fill}, 0)
      requires Descends(t, contents, game, outsideDistance, 0)
      requires Frontier(t, contents, game, outsideDistance, queue0, -1)
      modifies this`outsideDistance
      ensures |outsideDistance| == |t.nodes| && outsideDistance[t.outside] == old(outsideDistance[t.outside])
      ensures outsideDistance[fill] == 0 && Rooted(t, outsideDistance, {fill}, 0)
      ensures Descends(t, contents, game, outsideDistance, 0) && Closed(t, contents, game, outsideDistance, -1)
      ensures forall n :: 0 <= n < |t.nodes| && n != t.outside ==> outsideDistance[n] >= -1
    {
      var queue := queue0;
      var visited := visited0;
      while queue != []
        invariant |outsideDistance| == |t.nodes| && outsideDistance[t.outside] == old(outsideDistance[t.outside])
        invariant FloodedExactly(t, outsideDistance, visited, 0)
        invariant |visited| <= |t.nodes|
        invariant fill in visited && outsideDistance[fill] == 0
        invariant Queued(t, contents, game, outsideDistance, queue, {fill}, 0)
        invariant Rooted(t, outsideDistance, {fill}, 0)
        invariant Descends(t, contents, game, outsideDistance, 0)
        invariant Frontier(t, contents, game, outsideDistance, queue, -1)
        decreases |t.nodes| - |visited|, |queue|
      {
        var x := queue[0].0;
        if x in visited {
          FrontierPop(t, contents, game, outsideDistance, queue, -1);
          QueuedTail(t, contents, game, outsideDistance, queue, {fill}, 0);
          queue := queue[1..];
          continue;
        }
        queue := VisitFromVoid(t, game, fill, queue, visited);
        assert |visited + {x}| == |visited| + 1;
        visited := visited + {x};
        CardBelow(visited, |t.nodes|);
      }
      FrontierClosed(t, contents, game, outsideDistance, -1);
    }

    /** FloodFillClustersFromVoid: breadth-first from the void leaf at 0,
        each node visited once, crossing passable portals only. Afterwards
        the void leaf has 0 and is the only node at 0, every node with a
        positive distance has a passable neighbour one nearer, and every
        reached node's passable neighbours are reached. The only failure
        is a void leaf that seals the map. */
    method FloodFillClustersFromVoid(t: Tree, game: Game) returns (r: Fallible<()>)
      requires TreeOk(t) && |contents| == |t.nodes| && |outsideDistance| == |t.nodes|
      requires forall n :: 0 <= n < |t.nodes| && n != t.outside ==> outsideDistance[n] == -1
      modifies this`outsideDistance
      ensures |outsideDistance| == |t.nodes| && outsideDistance[t.outside] == old(outsideDistance[t.outside])
      ensures r.Fatal? <==> game.seals(contents[FillNode(t)])
      ensures r.Ok? ==> outsideDistance[FillNode(t)] == 0 && Rooted(t, outsideDistance, {FillNode(t)}, 0)
      ensures r.Ok? ==> Descends(t, contents, game, outsideDistance, 0) && Closed(t, contents, game, outsideDistance, -1)
      ensures forall n :: 0 <= n < |t.nodes| && n != t.outside ==> outsideDistance[n] >= -1
    {
      FillNodeLeaf(t);
      var fill := FillNode(t);
      if game.seals(contents[fill]) {
        return Fatal("the void leaf seals the map");
      }
      var queue := VisitFromVoid(t, game, fill, [(fill, 0)], {});
      CardBelow({fill}, |t.nodes|);
      DrainVoidQueue(t, game, fill, queue, {fill});
      return Ok(());
    }

    /** BFSFloodFillFromOccupiedLeafs: every seed is queued at 1; popping a
        node whose occupied is still 0 sets it to the queued distance and
        queues its passable neighbours one further. Afterwards every seed
        is flooded, only seeds hold 1, every node above 1 has a passable
        neighbour one nearer, and no passable portal leads from a flooded
        node to an unflooded one. */
    method BFSFloodFillFromOccupiedLeafs(t: Tree, game: Game, seeds: seq<nat>)
      requires TreeOk(t) && |contents| == |t.nodes| && |occupied| == |t.nodes|
      requires forall i :: 0 <= i < |seeds| ==> seeds[i] < |t.nodes| && seeds[i] != t.outside && t.nodes[seeds[i]].isLeaf
      requires forall n :: 0 <= n < |t.nodes| && n != t.outside ==> occupied[n] == 0
      modifies this`occupied
      ensures |occupied| == |t.nodes| && occupied[t.outside] == old(occupied[t.outside])
      ensures forall i :: 0 <= i < |seeds| ==> occupied[seeds[i]] >= 1
      ensures Rooted(t, occupied, set s | s in seeds, 1)
      ensures Descends(t, contents, game, occupied, 1) && Closed(t, contents, game, occupied, 0)
      ensures forall n :: 0 <= n < |t.nodes| && n != t.outside ==> occupied[n] >= 0
    {
      ghost var roots := set s | s in seeds;
      var queue := seq(|seeds|, i requires 0 <= i < |seeds| => (seeds[i], 1));
      forall i | 0 <= i < |seeds|
        ensures InQueue(queue, seeds[i])
      {
        assert queue[i].0 == seeds[i];
      }
      var occ := DrainOccupiedQueue(t, contents, game, occupied, seeds, roots, queue, {});
      occupied := occ;
    }

    /** ClearOccupied_r: node and every node below it lose their fill
        state: outside_distance -1, occupied 0 and no occupant. */
    method ClearOccupied(nodes: seq<Node>, node: nat)
      requires WellFormed(nodes) && node < |nodes|
      requires |outsideDistance| == |nodes| && |occupied| == |nodes| && |occupant| == |nodes|
      modifies this`outsideDistance, this`occupied, this`occupant
      ensures |outsideDistance| == |nodes| && |occupied| == |nodes| && |occupant| == |nodes|
      ensures forall m :: 0 <= m < |nodes| ==>
        if Descendant(nodes, node, m) then outsideDistance[m] == -1 && occupied[m] == 0 && occupant[m].None?
        else (outsideDistance[m] == old(outsideDistance[m]) && occupied[m] == old(occupied[m]) &&
              occupant[m] == old(occupant[m]))
      decreases |nodes| - node
    {
      outsideDistance := outsideDistance[node := -1];
      occupied := occupied[node := 0];
      occupant := occupant[node := None];
      if !nodes[node].isLeaf {
        ClearOccupied(nodes, nodes[node].front);
        ClearOccupied(nodes, nodes[node].back);
      }
    }

    /** MarkOccupiedClusters: entities from 1 on, each giving its leaf an
        occupant unless the leaf already has one, so that every leaf
        without an occupant gets the first entity that would occupy it. */
    method MarkOccupiedClusters(t: Tree, game: Game, ents: seq<Entity>)
      requires TreeOk(t) && |contents| == |t.nodes| && |occupant| == |t.nodes| && EntitiesFit(t, ents)
      modifies this`occupant
      ensures |occupant| == |t.nodes|
      ensures forall n :: 0 <= n < |t.nodes| ==>
        occupant[n] == (if old(occupant[n]).Some? then old(occupant[n])
                        else FirstClaim(t, contents, game, ents, n, |ents|))
    {
      var i := 1;
      while i < |ents|
        invariant 1 <= i && (i <= |ents| || i == 1)
        invariant |occupant| == |t.nodes|
        invariant forall n :: 0 <= n < |t.nodes| ==>
          occupant[n] == (if old(occupant[n]).Some? then old(occupant[n])
                          else FirstClaim(t, contents, game, ents, n, i))
      {
        var leaf := Claim(t, contents, game, ents[i]);
        if leaf.Some? && occupant[leaf.value].None? {
          occupant := occupant[leaf.value := Some(i)];
        }
        i := i + 1;
      }
    }

    /** OutLeafsToSolid_R: every leaf below node that the fill type finds
        unreachable and that does not already seal the map becomes solid;
        nothing else changes. */
    method OutLeafsToSolid(nodes: seq<Node>, node: nat, fill: FillType, game: Game)
      requires WellFormed(nodes) && node < |nodes|
      requires |contents| == |nodes| && |occupied| == |nodes| && |outsideDistance| == |nodes|
      modifies this`contents
      ensures |contents| == |nodes|
      ensures forall m :: 0 <= m < |nodes| ==>
        contents[m] == (if Descendant(nodes, node, m) && nodes[m].isLeaf &&
                           ConvertsToSolid(fill, game, occupied[m], outsideDistance[m], old(contents[m]))
                        then game.solid else old(contents[m]))
      decreases |nodes| - node
    {
      if !nodes[node].isLeaf {
        OutLeafsToSolid(nodes, nodes[node].front, fill, game);
        OutLeafsToSolid(nodes, nodes[node].back, fill, game);
        return;
      }
      if fill == Inside {
        if occupied[node] > 0 {
          return;
        }
      } else {
        if outsideDistance[node] == -1 {
          return;
        }
      }
      if game.seals(contents[node]) {
        return;
      }
      contents := contents[node := game.solid];
    }

    /** The occupied clusters as FillOutside hands them on: claimed leafs
        other than the outside node, each holding an entity that claims
        it. */
    ghost predicate ClustersOk(t: Tree, game: Game, ents: seq<Entity>, clusters: seq<nat>)
      requires TreeOk(t) && |contents| == |t.nodes| && |occupant| == |t.nodes| && EntitiesFit(t, ents)
      reads this
    {
      ClustersFor(t, contents, occupant, game, ents, clusters)
    }

    /** The inside branch of FillOutside: flood from the occupied
        clusters; a leak is the void leaf being reached, walked back to an
        entity's leaf. Afterwards a node is flooded exactly when a walk
        leads to it from a claimed leaf. */
    method LeakFromEntities(t: Tree, game: Game, ghost ents: seq<Entity>, clusters: seq<nat>) returns (leak: Option<Leak>)
      requires TreeOk(t) && EntitiesFit(t, ents)
      requires |contents| == |t.nodes| && |occupied| == |t.nodes| && |occupant| == |t.nodes|
      requires ClustersOk(t, game, ents, clusters)
      requires forall n :: 0 <= n < |t.nodes| && n != t.outside ==> occupied[n] == 0
      modifies this`occupied
      ensures |occupied| == |t.nodes|
      ensures leak.Some? ==> (1 <= leak.value.entity < |ents| && leak.value.leaf < |t.nodes| &&
        Claim(t, contents, game, ents[leak.value.entity]) == Some(leak.value.leaf) &&
        Walk(t, contents, game, leak.value.leaf, leak.value.line, FillNode(t)))
      ensures leak.None? ==> forall a, path :: a in Claimed(t, contents, game, ents) && a < |t.nodes| ==>
        !Walk(t, contents, game, a, path, FillNode(t))
      ensures forall m :: 0 <= m < |t.nodes| && m != t.outside ==>
        (occupied[m] >= 1 <==> Reached(t, contents, game, Claimed(t, contents, game, ents), m))
    {
      var cs, occu := contents, occupant;
      ghost var claimed := Claimed(t, cs, game, ents);
      assert claimed == set s | s in clusters;
      FillNodeLeaf(t);
      var fillnode := FillNode(t);
      BFSFloodFillFromOccupiedLeafs(t, game, clusters);
      var occ := occupied;
      forall r | r in claimed
        ensures r < |t.nodes| && r != t.outside && occ[r] >= 1 && occu[r].Some?
      {
        var i :| 0 <= i < |clusters| && clusters[i] == r;
      }
      FloodMeaningAll(t, cs, game, occ, claimed, 1);
      if occ[fillnode] > 0 {
        var line, leaf, entity := MakeLeakLine(t, cs, game, occ, occu, fillnode, claimed);
        ChainWalk(t, cs, game, occ, fillnode, line, leaf);
        WalkReverse(t, cs, game, fillnode, line, leaf);
        var i :| 0 <= i < |clusters| && clusters[i] == leaf;
        return Some(Leak(entity, leaf, Reverse(line)));
      }
      NoWalkTo(t, cs, game, occ, 0, claimed, fillnode);
      return None;
    }

    /** The outside-in branch of FillOutside: flood from the void; a leak
        is the occupied cluster nearest the void, walked down to the void
        leaf. The flood fails only when the void leaf seals the map.
        Afterwards a node is flooded exactly when a walk leads to it from
        the void leaf. */
    method LeakFromVoid(t: Tree, game: Game, ghost ents: seq<Entity>, clusters: seq<nat>)
      returns (r: Fallible<()>, leak: Option<Leak>)
      requires TreeOk(t) && EntitiesFit(t, ents) && |t.nodes| <= INT_MAX
      requires |contents| == |t.nodes| && |outsideDistance| == |t.nodes| && |occupant| == |t.nodes|
      requires ClustersOk(t, game, ents, clusters)
      requires forall n :: 0 <= n < |t.nodes| && n != t.outside ==> outsideDistance[n] == -1
      modifies this`outsideDistance
      ensures |outsideDistance| == |t.nodes|
      ensures r.Fatal? <==> game.seals(contents[FillNode(t)])
      ensures r.Fatal? ==> leak.None?
      ensures leak.Some? ==> (1 <= leak.value.entity < |ents| && leak.value.leaf < |t.nodes| &&
        Claim(t, contents, game, ents[leak.value.entity]) == Some(leak.value.leaf) &&
        Walk(t, contents, game, leak.value.leaf, leak.value.line, FillNode(t)))
      ensures r.Ok? && leak.None? ==> forall a, path :: a in Claimed(t, contents, game, ents) && a < |t.nodes| ==>
        !Walk(t, contents, game, a, path, FillNode(t))
      ensures r.Ok? ==> forall m :: 0 <= m < |t.nodes| && m != t.outside ==>
        (outsideDistance[m] >= 0 <==> Reached(t, contents, game, {FillNode(t)}, m))
      ensures r.Ok? ==> forall m :: 0 <= m < |t.nodes| && m != t.outside ==> outsideDistance[m] >= -1
    {
      var cs, occu := contents, occupant;
      FillNodeLeaf(t);
      var fillnode := FillNode(t);
      var v := FloodFillClustersFromVoid(t, game);
      if v.Fatal? {
        return Fatal(v.msg), None;
      }
      var dist := outsideDistance;
      FloodMeaningAll(t, cs, game, dist, {fillnode}, 0);
      leak := ChooseLeak(t, cs, occu, game, ents, clusters, dist);
      return Ok(()), leak;
    }

    /** The first steps of FillOutside: clear the fill state below head,
        mark the occupied leafs and list them. */
    method FindClusters(t: Tree, game: Game, ents: seq<Entity>) returns (clusters: seq<nat>)
      requires TreeOk(t) && EntitiesFit(t, ents)
      requires |contents| == |t.nodes| && |outsideDistance| == |t.nodes| && |occupied| == |t.nodes| &&
        |occupant| == |t.nodes|
      modifies this`outsideDistance, this`occupied, this`occupant
      ensures |outsideDistance| == |t.nodes| && |occupied| == |t.nodes| && |occupant| == |t.nodes|
      ensures ClustersOk(t, game, ents, clusters)
      ensures forall n :: 0 <= n < |t.nodes| && n != t.outside ==> outsideDistance[n] == -1 && occupied[n] == 0
    {
      ClearOccupied(t.nodes, t.head);
      MarkOccupiedClusters(t, game, ents);
      clusters := OccupiedClusters(t.nodes, occupant, t.head);
      ClaimedClusters(t, contents, game, ents, occupant);
    }

    /** FillOutside: clears the fill state below head, marks the occupied
        leafs and, when there are any, floods (from the entities for
        inside filling, the default, or from the void) and looks for a
        leak. A leak returns false with the entity, its leaf and a walk
        from that leaf to the void leaf; without a leak every unreachable
        leaf becomes solid and the result is true. */
    method FillOutside(t: Tree, game: Game, fill: FillType, ents: seq<Entity>) returns (r: Fallible<bool>, leak: Option<Leak>)
      requires TreeOk(t) && EntitiesFit(t, ents) && |t.nodes| <= INT_MAX
      requires |contents| == |t.nodes| && |outsideDistance| == |t.nodes| && |occupied| == |t.nodes| &&
        |occupant| == |t.nodes|
      modifies this`contents, this`outsideDistance, this`occupied, this`occupant
      ensures |contents| == |t.nodes| && |outsideDistance| == |t.nodes| && |occupied| == |t.nodes| &&
        |occupant| == |t.nodes|
      ensures r.Fatal? <==>
        Claimed(t, old(contents), game, ents) != {} && fill == OutsideIn && game.seals(old(contents)[FillNode(t)])
      ensures Claimed(t, old(contents), game, ents) == {} ==> r == Ok(false) && leak.None?
      ensures r == Ok(false) ==> leak.Some? || Claimed(t, old(contents), game, ents) == {}
      ensures leak.Some? ==> (r == Ok(false) && 1 <= leak.value.entity < |ents| && leak.value.leaf < |t.nodes| &&
        Claim(t, old(contents), game, ents[leak.value.entity]) == Some(leak.value.leaf) &&
        Walk(t, old(contents), game, leak.value.leaf, leak.value.line, FillNode(t)))
      ensures r == Ok(true) ==> (leak.None? && Claimed(t, old(contents), game, ents) != {} &&
        forall a, path :: a in Claimed(t, old(contents), game, ents) && a < |t.nodes| ==>
          !Walk(t, old(contents), game, a, path, FillNode(t)))
      ensures r == Ok(true) ==> forall m :: 0 <= m < |t.nodes| ==>
        contents[m] == (if Descendant(t.nodes, t.head, m) && t.nodes[m].isLeaf &&
                           ConvertsToSolid(if fill == OutsideIn then OutsideIn else Inside, game,
                                           occupied[m], outsideDistance[m], old(contents)[m])
                        then game.solid else old(contents)[m])
      ensures r != Ok(true) ==> contents == old(contents)
      ensures r == Ok(true) && fill != OutsideIn ==> forall m :: 0 <= m < |t.nodes| && m != t.outside ==>
        (occupied[m] >= 1 <==> Reached(t, old(contents), game, Claimed(t, old(contents), game, ents), m))
      ensures r == Ok(true) && fill == OutsideIn ==> forall m :: 0 <= m < |t.nodes| && m != t.outside ==>
        (outsideDistance[m] != -1 <==> Reached(t, old(contents), game, {FillNode(t)}, m))
    {
      var clusters := FindClusters(t, game, ents);
      if clusters == [] {
        return Ok(false), None;
      }
      assert clusters[0] in Claimed(t, contents, game, ents);
      var ft := if fill == Auto then Inside else fill;
      if ft == Inside {
        leak := LeakFromEntities(t, game, ents, clusters);
      } else {
        var v;
        v, leak := LeakFromVoid(t, game, ents, clusters);
        if v.Fatal? {
          return Fatal(v.msg), None;
        }
      }
      if leak.Some? {
        return Ok(false), leak;
      }
      OutLeafsToSolid(t.nodes, t.head, ft, game);
      return Ok(true), None;
    }
  }
}
