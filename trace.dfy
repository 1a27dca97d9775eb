/**
 * The light tool's point-in-leaf descent and texture sampling index
 * (light/trace.cc). A point's position relative to each plane is given as the
 * signed distance of the point to that plane; texture coordinates are given.
 */
module Trace {
  import opened Common

  /** A BSP node: the plane it splits on and its two children. A negative child
      number c names the leaf -1 - c. */
  datatype DNode = DNode(planenum: nat, front: int, back: int)

  /** A child reference of node n: a leaf that exists or a node after n, as the
      compiler writes the tree in preorder. */
  predicate ChildOk(nodes: seq<DNode>, numleafs: nat, n: nat, c: int)
  {
    if c < 0 then -1 - c < numleafs else n < c < |nodes|
  }

  /** The tree is non-empty, every child reference is valid and every node's
      plane has a distance. */
  predicate Tree(nodes: seq<DNode>, numleafs: nat, dists: seq<real>)
  {
    |nodes| > 0 &&
    forall n :: 0 <= n < |nodes| ==>
      nodes[n].planenum < |dists| &&
      ChildOk(nodes, numleafs, n, nodes[n].front) && ChildOk(nodes, numleafs, n, nodes[n].back)
  }

  /** The child taken at node n: children[1] when the point is behind the plane. */
  function Step(nodes: seq<DNode>, dists: seq<real>, n: nat): int
    requires n < |nodes| && nodes[n].planenum < |dists|
  {
    if dists[nodes[n].planenum] < 0.0 then nodes[n].back else nodes[n].front
  }

  /** The leaf reached by descending from node num. */
  function Descend(nodes: seq<DNode>, numleafs: nat, dists: seq<real>, num: nat): (leaf: nat)
    requires Tree(nodes, numleafs, dists) && num < |nodes|
    ensures leaf < numleafs
    decreases |nodes| - num
  {
    var c := Step(nodes, dists, num);
    if c < 0 then -1 - c else Descend(nodes, numleafs, dists, c)
  }

  /** Node m lies on the descent path from node n. */
  predicate OnPath(nodes: seq<DNode>, numleafs: nat, dists: seq<real>, n: nat, m: nat)
    requires Tree(nodes, numleafs, dists) && n < |nodes|
    decreases |nodes| - n
  {
    n == m || (var c := Step(nodes, dists, n); c >= 0 && OnPath(nodes, numleafs, dists, c, m))
  }

  /** The leaf reached is a child of a node on the path, taken on the side of
      that node's plane the point lies on. */
  lemma {:induction false} DescendEndsAtLeafChild(nodes: seq<DNode>, numleafs: nat, dists: seq<real>, n: nat)
    requires Tree(nodes, numleafs, dists) && n < |nodes|
    ensures exists m :: n <= m < |nodes| && OnPath(nodes, numleafs, dists, n, m) &&
                        Step(nodes, dists, m) == -1 - Descend(nodes, numleafs, dists, n)
    decreases |nodes| - n
  {
    var c := Step(nodes, dists, n);
    if c < 0 {
      assert OnPath(nodes, numleafs, dists, n, n);
    } else {
      DescendEndsAtLeafChild(nodes, numleafs, dists, c);
      var m :| c <= m < |nodes| && OnPath(nodes, numleafs, dists, c, m) &&
               Step(nodes, dists, m) == -1 - Descend(nodes, numleafs, dists, c);
      assert OnPath(nodes, numleafs, dists, n, m);
    }
  }

  /** Light_PointInLeaf: descend from node 0 until the child is a leaf. */
  method PointInLeaf(nodes: seq<DNode>, numleafs: nat, dists: seq<real>) returns (leaf: nat)
    requires Tree(nodes, numleafs, dists)
    ensures leaf < numleafs && leaf == Descend(nodes, numleafs, dists, 0)
  {
    var num: int := 0;
    while num >= 0
      invariant num >= 0 ==> num < |nodes| && Descend(nodes, numleafs, dists, num) == Descend(nodes, numleafs, dists, 0)
      invariant num < 0 ==> -1 - num == Descend(nodes, numleafs, dists, 0)
      decreases if num < 0 then 0 else |nodes| - num + 1
    {
      num := Step(nodes, dists, num);
    }
    leaf := -1 - num;
  }

  /** clamp_texcoord: the texel column for a repeating texture. The cast to
      uint32_t truncates, which is the floor for a non-negative value, and
      ceil(fabs(in)) is minus the floor for a negative one. */
  function ClampTexcoord(t: real, width: nat): (r: nat)
    requires width > 0
    ensures r < width
  {
    if t >= 0.0 then t.Floor % width
    else
      var inAbs := -t.Floor;
      var inAbsMod := inAbs % width;
      (width - inAbsMod) % width
  }

  /** Both branches of clamp_texcoord agree: the result is floor(t) reduced
      modulo width, so the texture repeats with period width. */
  lemma ClampTexcoordWraps(t: real, width: nat)
    requires width > 0
    ensures ClampTexcoord(t, width) == t.Floor % width
  {
    if t < 0.0 {
      var f := t.Floor;
      var q := (-f) / width;
      var m := (-f) % width;
      assert -f == q * width + m;
      NegMul(q, width);
      if m == 0 {
        ModUnique(f, width, -q, 0);
      } else {
        ModUnique(width - m, width, 0, width - m);
        ModUnique(f, width, -q - 1, width - m);
      }
    }
  }


  /** The texture fields SampleTexture reads. */
  datatype Texture = Texture(width: nat, height: nat, widthScale: nat, heightScale: nat)

  /** The pixel index SampleTexture reads, as written: both coordinates wrap by
      the width. None stands for a null or zero-width texture, which samples as
      a zero pixel. */
  function SampleIndexAsWritten(tex: Option<Texture>, s: real, t: real): (r: Option<nat>)
    ensures r.None? <==> tex.None? || tex.value.width == 0
  {
    if tex.None? || tex.value.width == 0 then None
    else
      var w := tex.value.width;
      var x := ClampTexcoord(s, w);
      var y := ClampTexcoord(t, w);
      Some(Mul(w, Mul(y, tex.value.widthScale)) + Mul(x, tex.value.heightScale))
  }

  /** With unit scales a 4x2 texture sampled at row coordinate 3 reads pixel 12,
      past the 8 pixels it holds. */
  lemma SampleIndexAsWrittenOverruns()
    ensures var tex := Texture(4, 2, 1, 1);
      SampleIndexAsWritten(Some(tex), 0.0, 3.0) == Some(12) && 12 >= tex.width * tex.height
  {
    assert ClampTexcoord(3.0, 4) == 3;
    assert ClampTexcoord(0.0, 4) == 0;
  }

  /** The pixel index with the row coordinate wrapped by the height. */
  function SampleIndex(tex: Option<Texture>, s: real, t: real): (r: Option<nat>)
    ensures r.None? <==> tex.None? || tex.value.width == 0 || tex.value.height == 0
  {
    if tex.None? || tex.value.width == 0 || tex.value.height == 0 then None
    else
      var x := ClampTexcoord(s, tex.value.width);
      var y := ClampTexcoord(t, tex.value.height);
      Some(Mul(tex.value.width, Mul(y, tex.value.widthScale)) + Mul(x, tex.value.heightScale))
  }

  /** With unit scales the corrected index always lies inside the pixel array. */
  lemma SampleIndexInBounds(tex: Texture, s: real, t: real)
    requires tex.widthScale == 1 && tex.heightScale == 1 && tex.width > 0 && tex.height > 0
    ensures SampleIndex(Some(tex), s, t).value < tex.width * tex.height
  {
    var w, h := tex.width, tex.height;
    var x := ClampTexcoord(s, w);
    var y := ClampTexcoord(t, h);
    assert Mul(y, 1) == y && Mul(x, 1) == x;
    assert SampleIndex(Some(tex), s, t).value == Mul(w, y) + x;
    MulRowBound(w, h, y, x);
  }
}
