/**
 * Writing the compiled map into BSP lumps (qbsp/writebsp.cc): the memoised
 * export of planes and texinfos, the clipping-hull and drawing-hull node
 * exports with their child encodings, leafs with their mark-surface ranges,
 * and the placeholders at the start and end of a BSP file. Only the fields
 * the export decides are modelled; an output plane or texinfo is identified
 * by the map plane or map texinfo it copies.
 */
module WriteBsp {
  import opened Common

  // ---------------------------------------------------------------------------
  // What the export reads: options, map texinfos and the node tree

  /** The target game's contents rules: whether it is Quake II, the native
      value of create_solid_contents(), contents_remap_for_export, the
      contents validity check and is_solid. */
  datatype Game = Game(q2: bool, solidNative: int, remap: int -> int, valid: int -> bool, solid: int -> bool)

  datatype Options = Options(includeskip: bool, game: Game)

  /** The surface flags export looks at: nodraw, Quake II's SURF_LIGHT bit
      and whether the flags are valid for the target game. */
  datatype SurfFlags = SurfFlags(nodraw: bool, q2light: bool, valid: bool)

  /** A map texinfo and the texinfo chained after it. */
  datatype TexInfo = TexInfo(flags: SurfFlags, miptex: nat, next: Option<nat>)

  /** Surfaces with these flags are not written: nodraw ones, unless skip
      surfaces are included or it is a Quake II light surface. */
  predicate Skipped(f: SurfFlags, o: Options)
  {
    !o.includeskip && f.nodraw && (!o.game.q2 || !f.q2light)
  }

  datatype V3 = V3(x: real, y: real, z: real)

  function Ceil(r: real): int { -((-r).Floor) }

  function FloorV(v: V3): V3 { V3(v.x.Floor as real, v.y.Floor as real, v.z.Floor as real) }

  function CeilV(v: V3): V3 { V3(Ceil(v.x) as real, Ceil(v.y) as real, Ceil(v.z) as real) }

  /** A face on a leaf's mark list: its texinfo flags and, per fragment,
      the output face number if the fragment was written. */
  datatype Face = Face(flags: SurfFlags, fragments: seq<Option<nat>>)

  /** A node of the finished tree. */
  datatype Node =
    | Leaf(contents: int, mins: V3, maxs: V3, markfaces: seq<Face>, area: int, cluster: int,
           firstleafbrush: nat, numleafbrushes: nat)
    | Split(planenum: nat, mins: V3, maxs: V3, firstface: nat, numfaces: nat, front: Node, back: Node)

  /** Every plane a split of the tree uses is a map plane. */
  predicate PlanesIn(n: Node, count: nat)
  {
    match n
    case Leaf(_, _, _, _, _, _, _, _) => true
    case Split(p, _, _, _, _, f, b) => p < count && PlanesIn(f, count) && PlanesIn(b, count)
  }

  /** Number of splits below and including n. */
  function Splits(n: Node): nat
  {
    match n
    case Leaf(_, _, _, _, _, _, _, _) => 0
    case Split(_, _, _, _, _, f, b) => 1 + Splits(f) + Splits(b)
  }

  /** A leaf child every non-Quake II game points at the shared leaf -1 for. */
  predicate SharedSolid(c: Node, o: Options)
  {
    c.Leaf? && !o.game.q2 && o.game.solid(c.contents)
  }

  /** Number of dleafs written for the children below a split. */
  function LeafsBelow(n: Node, o: Options): nat
  {
    match n
    case Leaf(_, _, _, _, _, _, _, _) => if SharedSolid(n, o) then 0 else 1
    case Split(_, _, _, _, _, f, b) => LeafsBelow(f, o) + LeafsBelow(b, o)
  }

  /** The tree can be written without an error: every leaf written has
      valid contents and assigned bounds, and no split has both children
      on the shared solid leaf. */
  predicate Exportable(n: Node, o: Options)
  {
    match n
    case Leaf(c, mins, maxs, _, _, _, _, _) => SharedSolid(n, o) || (o.game.valid(o.game.remap(c)) && mins.x <= maxs.x)
    case Split(_, _, _, _, _, f, b) =>
      !(SharedSolid(f, o) && SharedSolid(b, o)) && Exportable(f, o) && Exportable(b, o)
  }

  // ---------------------------------------------------------------------------
  // Mark surfaces

  /** The output face numbers of the written fragments, in order. */
  function Outputs(frags: seq<Option<nat>>): (r: seq<nat>)
    ensures |r| <= |frags|
  {
    if frags == [] then []
    else Outputs(frags[..|frags| - 1]) + (if frags[|frags| - 1].Some? then [frags[|frags| - 1].value] else [])
  }

  /** The mark surfaces of a leaf: the output faces of its faces that are
      not skipped, face by face. */
  function MarkSurfaces(faces: seq<Face>, o: Options): seq<nat>
  {
    if faces == [] then []
    else
      var f := faces[|faces| - 1];
      MarkSurfaces(faces[..|faces| - 1], o) + (if Skipped(f.flags, o) then [] else Outputs(f.fragments))
  }

  lemma {:induction false} OutputsMembers(frags: seq<Option<nat>>, x: nat)
    ensures x in Outputs(frags) <==> Some(x) in frags
  {
    if frags != [] {
      var init := frags[..|frags| - 1];
      OutputsMembers(init, x);
      assert frags == init + [frags[|frags| - 1]];
    }
  }

  /** Face i of a leaf is written and one of its written fragments is
      output face x. */
  predicate MarksFace(faces: seq<Face>, o: Options, i: int, x: nat)
  {
    0 <= i < |faces| && !Skipped(faces[i].flags, o) && Some(x) in faces[i].fragments
  }

  /** A face number is a mark surface of a leaf iff some written fragment
      of a face of the leaf that is not skipped has it. */
  lemma {:induction false} MarkSurfacesMembers(faces: seq<Face>, o: Options, x: nat)
    ensures x in MarkSurfaces(faces, o) <==> exists i :: MarksFace(faces, o, i, x)
  {
    if faces != [] {
      var init := faces[..|faces| - 1];
      MarkSurfacesMembers(init, o, x);
      OutputsMembers(faces[|faces| - 1].fragments, x);
      MarksFaceSnoc(faces, init, o, x);
    }
  }

  /** The faces of a non-empty list that mark x are those of its initial
      part and possibly its last face. */
  lemma MarksFaceSnoc(faces: seq<Face>, init: seq<Face>, o: Options, x: nat)
    requires faces != [] && init == faces[..|faces| - 1]
    ensures (exists i :: MarksFace(faces, o, i, x)) <==>
      (exists i :: MarksFace(init, o, i, x)) || MarksFace(faces, o, |faces| - 1, x)
  {
    if i :| MarksFace(faces, o, i, x) {
      if i < |init| {
        assert MarksFace(init, o, i, x);
      }
    }
    if i :| MarksFace(init, o, i, x) {
      assert MarksFace(faces, o, i, x);
    }
  }

  // ---------------------------------------------------------------------------
  // The lumps

  /** An output texinfo: the map texinfo it copies, its flags and miptex,
      and nexttexinfo. */
  datatype DTexinfo = DTexinfo(src: nat, flags: SurfFlags, miptex: nat, next: int)

  datatype DClipnode = DClipnode(planenum: nat, child0: int, child1: int)

  datatype DNode = DNode(planenum: nat, mins: V3, maxs: V3, firstface: nat, numfaces: nat, child0: int, child1: int)

  datatype DLeaf = DLeaf(contents: int, mins: V3, maxs: V3, visofs: int, firstmarksurface: nat,
                         nummarksurfaces: nat, area: int, cluster: int, firstleafbrush: nat, numleafbrushes: nat)

  datatype DModel = DModel(headnode: seq<int>, firstface: int, numfaces: int, visleafs: int, mins: V3, maxs: V3)

  /** The BSP being written: each output plane as the map plane it copies,
      and the counts of edges, vertexes and faces. */
  datatype Lumps = Lumps(planes: seq<nat>, texinfo: seq<DTexinfo>, clipnodes: seq<DClipnode>,
                         nodes: seq<DNode>, leafs: seq<DLeaf>, leaffaces: seq<nat>,
                         edges: nat, vertexes: nat, faces: nat, models: seq<DModel>)

  /** A placeholder leaf of the given contents with every other field zero. */
  function BlankLeaf(contents: int): DLeaf { DLeaf(contents, V3(0.0, 0.0, 0.0), V3(0.0, 0.0, 0.0), 0, 0, 0, 0, 0, 0, 0) }

  /** Plane export is a one-to-one memo: a map plane with an output number
      is the output plane at that number, and every output plane is the
      output of the map plane it copies. */
  predicate PlaneMemo(out: seq<Option<nat>>, planes: seq<nat>)
  {
    (forall k :: 0 <= k < |out| && out[k].Some? ==> out[k].value < |planes| && planes[out[k].value] == k) &&
    (forall j :: 0 <= j < |planes| ==> planes[j] < |out| && out[planes[j]] == Some(j))
  }

  /** The same for texinfos, which also copy the map texinfo's flags and
      miptex. */
  predicate TexMemo(out: seq<Option<nat>>, infos: seq<TexInfo>, dtex: seq<DTexinfo>)
    requires |out| == |infos|
  {
    (forall k :: 0 <= k < |out| && out[k].Some? ==> out[k].value < |dtex| && dtex[out[k].value].src == k) &&
    (forall j :: 0 <= j < |dtex| ==>
      dtex[j].src < |out| && out[dtex[j].src] == Some(j) &&
      dtex[j].flags == infos[dtex[j].src].flags && dtex[j].flags.valid && dtex[j].miptex == infos[dtex[j].src].miptex)
  }

  /** Output texinfo j's nexttexinfo is the output number of the texinfo
      chained after its map texinfo, or -1 if there is none or it is skipped. */
  predicate LinkOk(out: seq<Option<nat>>, infos: seq<TexInfo>, o: Options, d: DTexinfo)
  {
    d.src < |infos| &&
    match infos[d.src].next
    case None => d.next == -1
    case Some(n) =>
      n < |out| && n < |infos| &&
      ((d.next >= 0 && out[n] == Some(d.next as nat)) || (Skipped(infos[n].flags, o) && d.next == -1))
  }

  /** Every output texinfo outside pending (those whose chain is still being
      written) is linked. */
  predicate Linked(out: seq<Option<nat>>, infos: seq<TexInfo>, o: Options, dtex: seq<DTexinfo>, pending: set<nat>)
  {
    forall j :: 0 <= j < |dtex| && j !in pending ==> LinkOk(out, infos, o, dtex[j])
  }

  /** The texinfo memo agrees with the texinfo lump and skipped texinfos
      are never written. */
  predicate TexOk(out: seq<Option<nat>>, infos: seq<TexInfo>, o: Options, dtex: seq<DTexinfo>)
  {
    |out| == |infos| && TexMemo(out, infos, dtex) &&
    forall k :: 0 <= k < |out| && Skipped(infos[k].flags, o) ==> out[k].None?
  }

  /** Writing a texinfo that is not skipped keeps the memo consistent; its
      chain is pending until nexttexinfo is set. */
  lemma PushTex(out: seq<Option<nat>>, infos: seq<TexInfo>, o: Options, dtex: seq<DTexinfo>, pending: set<nat>, t: nat)
    requires TexOk(out, infos, o, dtex) && Linked(out, infos, o, dtex, pending)
    requires t < |infos| && out[t].None? && !Skipped(infos[t].flags, o) && infos[t].flags.valid
    ensures var out' := out[t := Some(|dtex|)];
      var dtex' := dtex + [DTexinfo(t, infos[t].flags, infos[t].miptex, -1)];
      TexOk(out', infos, o, dtex') && Linked(out', infos, o, dtex', pending + {|dtex|}) &&
      (infos[t].next.None? ==> Linked(out', infos, o, dtex', pending))
  {
    var out' := out[t := Some(|dtex|)];
    var dtex' := dtex + [DTexinfo(t, infos[t].flags, infos[t].miptex, -1)];
    forall j | 0 <= j < |dtex'| && j !in pending
      ensures j < |dtex| ==> LinkOk(out', infos, o, dtex'[j])
    {
      if j < |dtex| {
        assert LinkOk(out, infos, o, dtex[j]);
      }
    }
  }

  /** Setting nexttexinfo of output texinfo i to what exporting the next
      texinfo returned finishes its chain. */
  lemma LinkTex(out: seq<Option<nat>>, infos: seq<TexInfo>, o: Options, dtex: seq<DTexinfo>, pending: set<nat>,
                i: nat, n: nat, v: int)
    requires TexOk(out, infos, o, dtex) && Linked(out, infos, o, dtex, pending + {i})
    requires i < |dtex| && infos[dtex[i].src].next == Some(n) && n < |infos|
    requires v >= -1 && (v == -1 <==> Skipped(infos[n].flags, o)) && (v >= 0 ==> out[n] == Some(v as nat))
    ensures TexOk(out, infos, o, dtex[i := dtex[i].(next := v)])
    ensures Linked(out, infos, o, dtex[i := dtex[i].(next := v)], pending)
  {
    var dtex' := dtex[i := dtex[i].(next := v)];
    assert LinkOk(out, infos, o, dtex'[i]);
    forall j | 0 <= j < |dtex'| && j !in pending
      ensures LinkOk(out, infos, o, dtex'[j])
    {
      if j != i {
        assert LinkOk(out, infos, o, dtex[j]);
      }
    }
  }

  /** What exporting texinfo t leads to, on success: the memo stays
      consistent and linked, t is written unless it is skipped, and the
      lumps only grow. */
  ghost predicate TexResult(infos: seq<TexInfo>, o: Options, out0: seq<Option<nat>>, b0: Lumps,
                            out: seq<Option<nat>>, b: Lumps, t: nat, r: Fallible<int>, pending: set<nat>)
  {
    r.Ok? ==>
      TexOk(out, infos, o, b.texinfo) && Linked(out, infos, o, b.texinfo, pending) &&
      t < |infos| && r.value >= -1 && (r.value == -1 <==> Skipped(infos[t].flags, o)) &&
      (r.value >= 0 ==> out[t] == Some(r.value as nat)) &&
      TexGrows(out0, b0, out, b)
  }

  /** Writing a texinfo with nothing chained after it. */
  lemma NoChain(infos: seq<TexInfo>, o: Options, out0: seq<Option<nat>>, b0: Lumps, t: nat, pending: set<nat>)
    requires TexOk(out0, infos, o, b0.texinfo) && Linked(out0, infos, o, b0.texinfo, pending)
    requires t < |infos| && out0[t].None? && !Skipped(infos[t].flags, o) && infos[t].flags.valid && infos[t].next.None?
    ensures var i := |b0.texinfo|;
      TexResult(infos, o, out0, b0, out0[t := Some(i)],
                b0.(texinfo := b0.texinfo + [DTexinfo(t, infos[t].flags, infos[t].miptex, -1)]), t, Ok(i), pending)
  {
    PushTex(out0, infos, o, b0.texinfo, pending, t);
  }

  /** Writing a texinfo and then the chain after it. */
  lemma Chained(infos: seq<TexInfo>, o: Options, out0: seq<Option<nat>>, b0: Lumps, out2: seq<Option<nat>>, b2: Lumps,
                t: nat, pending: set<nat>, rn: Fallible<int>, r: Fallible<int>, b: Lumps)
    requires TexOk(out0, infos, o, b0.texinfo) && Linked(out0, infos, o, b0.texinfo, pending)
    requires t < |infos| && out0[t].None? && !Skipped(infos[t].flags, o) && infos[t].flags.valid && infos[t].next.Some?
    requires var i := |b0.texinfo|;
      TexResult(infos, o, out0[t := Some(i)], b0.(texinfo := b0.texinfo + [DTexinfo(t, infos[t].flags, infos[t].miptex, -1)]),
                out2, b2, infos[t].next.value, rn, pending + {i})
    requires rn.Fatal? ==> r.Fatal?
    requires rn.Ok? ==>
      var i := |b0.texinfo|;
      i < |b2.texinfo| && r == Ok(i) && b == b2.(texinfo := b2.texinfo[i := b2.texinfo[i].(next := rn.value)])
    ensures TexResult(infos, o, out0, b0, out2, b, t, r, pending)
  {
    var i := |b0.texinfo|;
    var out1 := out0[t := Some(i)];
    var b1 := b0.(texinfo := b0.texinfo + [DTexinfo(t, infos[t].flags, infos[t].miptex, -1)]);
    PushTex(out0, infos, o, b0.texinfo, pending, t);
    if rn.Ok? {
      assert b2.texinfo[i] == b1.texinfo[i];
      LinkTex(out2, infos, o, b2.texinfo, pending, i, infos[t].next.value, rn.value);
      TexGrowsTrans(out0, b0, out1, b1, out2, b2, i, b2.texinfo[i].(next := rn.value));
    }
  }

  /** The clipping hull rooted at n is written from clipnode base on, in
      preorder, and r is how its parent refers to it: a leaf by its native
      contents, a split by its clipnode number. */
  ghost predicate ClipTree(clips: seq<DClipnode>, planes: seq<nat>, r: int, n: Node, base: nat)
    decreases n
  {
    match n
    case Leaf(c, _, _, _, _, _, _, _) => r == c
    case Split(p, _, _, _, _, f, b) =>
      r == base && base < |clips| &&
      clips[base].planenum < |planes| && planes[clips[base].planenum] == p &&
      ClipTree(clips, planes, clips[base].child0, f, base + 1) &&
      ClipTree(clips, planes, clips[base].child1, b, base + 1 + Splits(f))
  }

  /** dleaf l is leaf n written with its mark surfaces: remapped contents,
      bounds rounded outwards, no visibility data yet, and the mark-surface
      range holding exactly the leaf's mark surfaces. */
  ghost predicate LeafWritten(b: Lumps, l: nat, n: Node, o: Options)
    requires n.Leaf?
  {
    l < |b.leafs| &&
    var d := b.leafs[l];
    d.contents == o.game.remap(n.contents) && o.game.valid(d.contents) &&
    d.mins == FloorV(n.mins) && d.maxs == CeilV(n.maxs) && d.visofs == -1 &&
    d.firstmarksurface + d.nummarksurfaces <= |b.leaffaces| &&
    b.leaffaces[d.firstmarksurface..d.firstmarksurface + d.nummarksurfaces] == MarkSurfaces(n.markfaces, o) &&
    d.area == n.area && d.cluster == n.cluster &&
    d.firstleafbrush == n.firstleafbrush && d.numleafbrushes == n.numleafbrushes
  }

  /** Child c, whose subtree's nodes are numbered from n and whose leafs from
      l, is referred to by ref: a shared solid leaf by -1, another leaf by
      -(leaf number + 1), a split by its node number. */
  ghost predicate ChildOk(b: Lumps, c: Node, ref: int, n: nat, l: nat, o: Options)
    decreases c, 1
  {
    if c.Leaf? then
      if SharedSolid(c, o) then ref == -1 else ref == -(l + 1) && LeafWritten(b, l, c, o)
    else ref == n && DrawTree(b, c, n, l, o)
  }

  /** The drawing hull rooted at split t is written in preorder: its dnode
      at n, the leafs of its children from l on, and its two children
      referred to differently. */
  ghost predicate DrawTree(b: Lumps, t: Node, n: nat, l: nat, o: Options)
    requires t.Split?
    decreases t, 0
  {
    n < |b.nodes| &&
    var d := b.nodes[n];
    d.planenum < |b.planes| && b.planes[d.planenum] == t.planenum &&
    d.mins == FloorV(t.mins) && d.maxs == CeilV(t.maxs) &&
    d.firstface == t.firstface && d.numfaces == t.numfaces &&
    d.child0 != d.child1 &&
    ChildOk(b, t.front, d.child0, n + 1, l, o) &&
    ChildOk(b, t.back, d.child1, n + 1 + Splits(t.front), l + LeafsBelow(t.front, o), o)
  }

  /** b2 extends b1 as far as the subtree written at nodes [n, n + count)
      is concerned. */
  ghost predicate Extends(b1: Lumps, b2: Lumps, n: nat, count: nat)
  {
    n + count <= |b1.nodes| <= |b2.nodes| &&
    (forall k :: n <= k < n + count ==> b2.nodes[k] == b1.nodes[k]) &&
    b1.leafs <= b2.leafs && b1.leaffaces <= b2.leaffaces && b1.planes <= b2.planes
  }

  lemma LeafStable(b1: Lumps, b2: Lumps, l: nat, c: Node, o: Options)
    requires c.Leaf? && LeafWritten(b1, l, c, o)
    requires b1.leafs <= b2.leafs && b1.leaffaces <= b2.leaffaces
    ensures LeafWritten(b2, l, c, o)
  {
    var d := b1.leafs[l];
    assert b2.leafs[l] == d;
    assert b2.leaffaces[d.firstmarksurface..d.firstmarksurface + d.nummarksurfaces]
        == b1.leaffaces[d.firstmarksurface..d.firstmarksurface + d.nummarksurfaces];
  }

  lemma {:induction false} ChildStable(b1: Lumps, b2: Lumps, c: Node, ref: int, n: nat, l: nat, o: Options)
    requires ChildOk(b1, c, ref, n, l, o) && Extends(b1, b2, n, Splits(c))
    ensures ChildOk(b2, c, ref, n, l, o)
    decreases c, 1
  {
    if c.Leaf? {
      if !SharedSolid(c, o) {
        LeafStable(b1, b2, l, c, o);
      }
    } else {
      DrawStable(b1, b2, c, n, l, o);
    }
  }

  /** A written drawing hull stays written while later exports append to
      the lumps and leave its nodes alone. */
  lemma {:induction false} DrawStable(b1: Lumps, b2: Lumps, t: Node, n: nat, l: nat, o: Options)
    requires t.Split? && DrawTree(b1, t, n, l, o) && Extends(b1, b2, n, Splits(t))
    ensures DrawTree(b2, t, n, l, o)
    decreases t, 0
  {
    var d := b1.nodes[n];
    assert b2.nodes[n] == d;
    assert b2.planes[d.planenum] == b1.planes[d.planenum];
    ChildStable(b1, b2, t.front, d.child0, n + 1, l, o);
    ChildStable(b1, b2, t.back, d.child1, n + 1 + Splits(t.front), l + LeafsBelow(t.front, o), o);
  }

  lemma {:induction false} ClipStable(c1: seq<DClipnode>, p1: seq<nat>, c2: seq<DClipnode>, p2: seq<nat>,
                                      r: int, t: Node, base: nat)
    requires ClipTree(c1, p1, r, t, base)
    requires base + Splits(t) <= |c1| <= |c2| && p1 <= p2
    requires forall k :: base <= k < base + Splits(t) ==> c2[k] == c1[k]
    ensures ClipTree(c2, p2, r, t, base)
    decreases t
  {
    if t.Split? {
      var d := c1[base];
      assert c2[base] == d;
      assert p2[d.planenum] == p1[d.planenum];
      ClipStable(c1, p1, c2, p2, d.child0, t.front, base + 1);
      ClipStable(c1, p1, c2, p2, d.child1, t.back, base + 1 + Splits(t.front));
    }
  }

  /** What exporting a texinfo may change: output texinfos are appended
      and finished, and map texinfos gain output numbers, nothing else. */
  ghost predicate TexGrows(out0: seq<Option<nat>>, b0: Lumps, out: seq<Option<nat>>, b: Lumps)
  {
    b == b0.(texinfo := b.texinfo) && b0.texinfo <= b.texinfo &&
    |out| == |out0| && forall k :: 0 <= k < |out| && out0[k].Some? ==> out[k] == out0[k]
  }

  lemma TexGrowsTrans(out0: seq<Option<nat>>, b0: Lumps, out1: seq<Option<nat>>, b1: Lumps,
                      out2: seq<Option<nat>>, b2: Lumps, i: nat, d: DTexinfo)
    requires TexGrows(out0, b0, out1, b1) && TexGrows(out1, b1, out2, b2)
    requires |b0.texinfo| <= i < |b2.texinfo|
    ensures TexGrows(out0, b0, out2, b2.(texinfo := b2.texinfo[i := d]))
  {
    assert b2.texinfo[i := d][..|b0.texinfo|] == b2.texinfo[..|b0.texinfo|];
  }

  /** b is b0 with the clipping hull rooted at t written after its
      clipnodes, r being how its parent refers to it. */
  ghost predicate ClipWritten(b0: Lumps, b: Lumps, r: int, t: Node)
  {
    |b.clipnodes| == |b0.clipnodes| + Splits(t) && b.clipnodes[..|b0.clipnodes|] == b0.clipnodes &&
    b0.planes <= b.planes && b == b0.(clipnodes := b.clipnodes, planes := b.planes) &&
    ClipTree(b.clipnodes, b.planes, r, t, |b0.clipnodes|)
  }

  /** A split's clipnode, reserved before its two subtrees and filled in
      after them, completes the written hull. */
  lemma ClipJoin(b0: Lumps, b1: Lumps, b2: Lumps, b3: Lumps, t: Node, c0: int, c1: int, p: nat)
    requires t.Split?
    requires ClipWritten(b0.(clipnodes := b0.clipnodes + [DClipnode(0, 0, 0)]), b1, c0, t.front)
    requires ClipWritten(b1, b2, c1, t.back)
    requires b2.planes <= b3.planes && b3 == b2.(planes := b3.planes) && p < |b3.planes| && b3.planes[p] == t.planenum
    ensures ClipWritten(b0, b3.(clipnodes := b3.clipnodes[|b0.clipnodes| := DClipnode(p, c0, c1)]), |b0.clipnodes|, t)
  {
    var n := |b0.clipnodes|;
    var cs := b3.clipnodes[n := DClipnode(p, c0, c1)];
    assert b1.clipnodes[..n] == b0.clipnodes by {
      assert b1.clipnodes[..n + 1][..n] == b1.clipnodes[..n];
    }
    assert b2.clipnodes[..n] == b0.clipnodes by {
      assert b2.clipnodes[..|b1.clipnodes|][..n] == b2.clipnodes[..n];
    }
    assert cs[..n] == b0.clipnodes;
    ClipStable(b1.clipnodes, b1.planes, cs, b3.planes, c0, t.front, n + 1);
    ClipStable(b2.clipnodes, b2.planes, cs, b3.planes, c1, t.back, n + 1 + Splits(t.front));
  }

  /** How a written child is referred to depends only on its kind and the
      numbers its subtree starts at. */
  lemma ChildRef(b: Lumps, c: Node, ref: int, n: nat, l: nat, o: Options)
    requires ChildOk(b, c, ref, n, l, o)
    ensures c.Leaf? && SharedSolid(c, o) ==> ref == -1
    ensures c.Leaf? && !SharedSolid(c, o) ==> ref == -(l + 1)
    ensures c.Split? ==> ref == n
  {
  }

  /** With leaf 0 taken by the placeholder, the two children of a split
      are referred to differently unless both are shared solid leafs. */
  lemma ChildrenDiffer(f: Node, b: Node, r0: int, r1: int, n: nat, l: nat, o: Options)
    requires l >= 1
    requires f.Leaf? && SharedSolid(f, o) ==> r0 == -1
    requires f.Leaf? && !SharedSolid(f, o) ==> r0 == -(l + 1)
    requires f.Split? ==> r0 == n
    requires b.Leaf? && SharedSolid(b, o) ==> r1 == -1
    requires b.Leaf? && !SharedSolid(b, o) ==> r1 == -(l + LeafsBelow(f, o) + 1)
    requires b.Split? ==> r1 == n + Splits(f)
    ensures r0 == r1 <==> SharedSolid(f, o) && SharedSolid(b, o)
  {
    if f.Split? {
      assert Splits(f) >= 1;
    }
  }

  /** The lumps b after writing tree t from b0: its dnodes and dleafs are
      appended, the mark surfaces and planes only grow, and nothing else
      changes. */
  ghost predicate Written(b0: Lumps, b: Lumps, t: Node, o: Options)
  {
    |b.nodes| == |b0.nodes| + Splits(t) && b.nodes[..|b0.nodes|] == b0.nodes &&
    |b.leafs| == |b0.leafs| + LeafsBelow(t, o) && b0.leafs <= b.leafs &&
    b0.leaffaces <= b.leaffaces && b0.planes <= b.planes &&
    b == b0.(nodes := b.nodes, leafs := b.leafs, leaffaces := b.leaffaces, planes := b.planes)
  }

  /** What exporting child c from b0 leads to: without the placeholder
      leaf taken nothing is promised about errors; with it, an error
      exactly when the subtree is not exportable; on success the child is
      written and ref is how its parent refers to it. */
  ghost predicate ChildResult(b0: Lumps, b: Lumps, c: Node, r: Fallible<int>, o: Options)
  {
    (|b0.leafs| >= 1 ==> (r.Ok? <==> Exportable(c, o))) &&
    (r.Ok? ==> Written(b0, b, c, o) && ChildOk(b, c, r.value, |b0.nodes|, |b0.leafs|, o))
  }

  /** The same for a split written from b0 as the root of a drawing hull. */
  ghost predicate DrawResult(b0: Lumps, b: Lumps, t: Node, r: Fallible<()>, o: Options)
    requires t.Split?
  {
    (|b0.leafs| >= 1 ==> (r.Ok? <==> Exportable(t, o))) &&
    (r.Ok? ==> Written(b0, b, t, o) && DrawTree(b, t, |b0.nodes|, |b0.leafs|, o))
  }

  /** b0 with plane p exported for split t (bP) and t's dnode reserved. */
  ghost predicate Reserved(b0: Lumps, bP: Lumps, t: Node, p: nat)
    requires t.Split?
  {
    b0.planes <= bP.planes && bP == b0.(planes := bP.planes) && p < |bP.planes| && bP.planes[p] == t.planenum
  }

  function WithNode(bP: Lumps, t: Node, p: nat): Lumps
    requires t.Split?
  {
    bP.(nodes := bP.nodes + [DNode(p, FloorV(t.mins), CeilV(t.maxs), t.firstface, t.numfaces, 0, 0)])
  }

  /** An error in the front child is an error of the split. */
  lemma FrontFailed(b0: Lumps, bP: Lumps, b1: Lumps, t: Node, p: nat, r0: Fallible<int>, o: Options, r: Fallible<()>)
    requires t.Split? && Reserved(b0, bP, t, p) && ChildResult(WithNode(bP, t, p), b1, t.front, r0, o) && r0.Fatal?
    requires r.Fatal?
    ensures DrawResult(b0, b1, t, r, o)
  {
  }

  /** After both children: an error in the back child or two equal child
      references is an error of the split, and otherwise filling in the
      reserved dnode completes the written drawing hull. */
  lemma DrawOutcome(b0: Lumps, bP: Lumps, b1: Lumps, b2: Lumps, t: Node, p: nat, r0: Fallible<int>, r1: Fallible<int>,
                    o: Options, r: Fallible<()>, b: Lumps)
    requires t.Split? && Reserved(b0, bP, t, p) && ChildResult(WithNode(bP, t, p), b1, t.front, r0, o) && r0.Ok?
    requires ChildResult(b1, b2, t.back, r1, o)
    requires r1.Fatal? ==> r.Fatal?
    requires r1.Ok? ==>
      b == b2.(nodes := b2.nodes[|b0.nodes| := b2.nodes[|b0.nodes|].(child0 := r0.value, child1 := r1.value)]) &&
      (r.Ok? <==> r0.value != r1.value)
    ensures DrawResult(b0, b, t, r, o)
  {
    if r.Ok? {
      DrawSucceeded(b0, bP, b1, b2, t, p, r0.value, r1.value, o, b);
    } else {
      DrawFailed(b0, bP, b1, b2, t, p, r0, r1, o);
    }
  }

  /** An error after the front child: the back child's, or the two child
      references being equal, which with leaf 0 taken only happens for two
      shared solid leafs. */
  lemma DrawFailed(b0: Lumps, bP: Lumps, b1: Lumps, b2: Lumps, t: Node, p: nat, r0: Fallible<int>, r1: Fallible<int>, o: Options)
    requires t.Split? && Reserved(b0, bP, t, p) && ChildResult(WithNode(bP, t, p), b1, t.front, r0, o) && r0.Ok?
    requires ChildResult(b1, b2, t.back, r1, o)
    requires r1.Ok? ==> r0.value == r1.value
    ensures |b0.leafs| >= 1 ==> !Exportable(t, o)
  {
    if r1.Ok? {
      var n := |b0.nodes|;
      ChildRef(b1, t.front, r0.value, n + 1, |b0.leafs|, o);
      ChildRef(b2, t.back, r1.value, |b1.nodes|, |b1.leafs|, o);
      if |b0.leafs| >= 1 {
        ChildrenDiffer(t.front, t.back, r0.value, r1.value, n + 1, |b0.leafs|, o);
      }
    }
  }

  /** Two different child references: filling in the reserved dnode
      completes the written drawing hull. */
  lemma DrawSucceeded(b0: Lumps, bP: Lumps, b1: Lumps, b2: Lumps, t: Node, p: nat, r0: int, r1: int, o: Options, b: Lumps)
    requires t.Split? && Reserved(b0, bP, t, p) && r0 != r1
    requires Written(WithNode(bP, t, p), b1, t.front, o) && ChildOk(b1, t.front, r0, |b0.nodes| + 1, |b0.leafs|, o)
    requires Written(b1, b2, t.back, o) && ChildOk(b2, t.back, r1, |b1.nodes|, |b1.leafs|, o)
    requires |b0.leafs| >= 1 ==> Exportable(t.front, o) && Exportable(t.back, o)
    requires b == b2.(nodes := b2.nodes[|b0.nodes| := b2.nodes[|b0.nodes|].(child0 := r0, child1 := r1)])
    ensures DrawResult(b0, b, t, Ok(()), o)
  {
    var n := |b0.nodes|;
    WrittenJoin(b0, bP, b1, b2, t, p, r0, r1, o);
    ChildStable(b1, b, t.front, r0, n + 1, |b0.leafs|, o);
    ChildStable(b2, b, t.back, r1, |b1.nodes|, |b1.leafs|, o);
    DrawTreeIntro(b, t, n, |b0.leafs|, p, r0, r1, |b1.nodes|, |b1.leafs|, o);
    ChildRef(b1, t.front, r0, n + 1, |b0.leafs|, o);
    ChildRef(b2, t.back, r1, |b1.nodes|, |b1.leafs|, o);
    if |b0.leafs| >= 1 {
      ChildrenDiffer(t.front, t.back, r0, r1, n + 1, |b0.leafs|, o);
    }
  }

  /** The lumps after both children are written and the reserved dnode is
      filled in: the whole tree is written, and each child's part of the
      lumps is as its export left it. */
  lemma WrittenJoin(b0: Lumps, bP: Lumps, b1: Lumps, b2: Lumps, t: Node, p: nat, r0: int, r1: int, o: Options)
    requires t.Split? && Reserved(b0, bP, t, p)
    requires Written(WithNode(bP, t, p), b1, t.front, o) && Written(b1, b2, t.back, o)
    ensures var n := |b0.nodes|;
      var b := b2.(nodes := b2.nodes[n := b2.nodes[n].(child0 := r0, child1 := r1)]);
      Written(b0, b, t, o) &&
      |b1.nodes| == n + 1 + Splits(t.front) && |b1.leafs| == |b0.leafs| + LeafsBelow(t.front, o) &&
      Extends(b1, b, n + 1, Splits(t.front)) && Extends(b2, b, |b1.nodes|, Splits(t.back)) &&
      b.nodes[n] == DNode(p, FloorV(t.mins), CeilV(t.maxs), t.firstface, t.numfaces, r0, r1) &&
      p < |b.planes| && b.planes[p] == t.planenum
  {
    var n := |b0.nodes|;
    var b := b2.(nodes := b2.nodes[n := b2.nodes[n].(child0 := r0, child1 := r1)]);
    assert b1.nodes[..n + 1][..n] == b1.nodes[..n];
    assert b2.nodes[..|b1.nodes|][..n + 1] == b2.nodes[..n + 1];
    assert b.nodes[..n] == b2.nodes[..n];
    assert b2.nodes[n] == b1.nodes[n];
  }

  /** One unfolding of DrawTree. */
  lemma DrawTreeIntro(b: Lumps, t: Node, n: nat, l: nat, p: nat, r0: int, r1: int, nb: nat, lb: nat, o: Options)
    requires t.Split? && n < |b.nodes| && r0 != r1
    requires b.nodes[n] == DNode(p, FloorV(t.mins), CeilV(t.maxs), t.firstface, t.numfaces, r0, r1)
    requires p < |b.planes| && b.planes[p] == t.planenum
    requires nb == n + 1 + Splits(t.front) && lb == l + LeafsBelow(t.front, o)
    requires ChildOk(b, t.front, r0, n + 1, l, o) && ChildOk(b, t.back, r1, nb, lb, o)
    ensures DrawTree(b, t, n, l, o)
  {
  }

  /** The mark surfaces of a leaf, as ExportLeaf appends them. */
  method CollectMarkSurfaces(faces: seq<Face>, o: Options) returns (marks: seq<nat>)
    ensures marks == MarkSurfaces(faces, o)
  {
    marks := [];
    var i := 0;
    while i < |faces|
      invariant i <= |faces|
      invariant marks == MarkSurfaces(faces[..i], o)
    {
      assert faces[..i + 1][..i] == faces[..i];
      var f := faces[i];
      if !Skipped(f.flags, o) {
        var k := 0;
        ghost var before := marks;
        while k < |f.fragments|
          invariant k <= |f.fragments|
          invariant marks == before + Outputs(f.fragments[..k])
        {
          assert f.fragments[..k + 1][..k] == f.fragments[..k];
          if f.fragments[k].Some? {
            marks := marks + [f.fragments[k].value];
          }
          k := k + 1;
        }
        assert f.fragments[..k] == f.fragments;
      }
      i := i + 1;
    }
    assert faces[..i] == faces;
  }

  // ---------------------------------------------------------------------------
  // The map being written

  class MapOutput {
    const planeCount: nat
    const texinfos: seq<TexInfo>      // map.mtexinfos
    const opts: Options
    var planeOut: seq<Option<nat>>    // map.planes[i].outputnum
    var texOut: seq<Option<nat>>      // map.mtexinfos[i].outputnum
    var bsp: Lumps                    // map.bsp

    /** The memo tables agree with the lumps, skipped texinfos are never
        written, and every finished output texinfo is linked. */
    ghost predicate Valid()
      reads this
    {
      |planeOut| == planeCount && PlaneMemo(planeOut, bsp.planes) && TexOk(texOut, texinfos, opts, bsp.texinfo)
    }

    constructor (planeCount: nat, texinfos: seq<TexInfo>, opts: Options)
      ensures Valid() && Linked(texOut, texinfos, opts, bsp.texinfo, {})
      ensures this.planeCount == planeCount && this.texinfos == texinfos && this.opts == opts
      ensures planeOut == seq(planeCount, _ => None) && texOut == seq(|texinfos|, _ => None)
      ensures bsp == Lumps([], [], [], [], [], [], 0, 0, 0, [])
    {
      this.planeCount := planeCount;
      this.texinfos := texinfos;
      this.opts := opts;
      planeOut := seq(planeCount, _ => None);
      texOut := seq(|texinfos|, _ => None);
      bsp := Lumps([], [], [], [], [], [], 0, 0, 0, []);
    }

    /** ExportMapPlane: the output number of a map plane, appending the
        plane the first time it is asked for. */
    method ExportMapPlane(planenum: nat) returns (n: nat)
      requires Valid() && planenum < planeCount
      modifies this`planeOut, this`bsp
      ensures Valid()
      ensures planeOut[planenum] == Some(n) && n < |bsp.planes| && bsp.planes[n] == planenum
      ensures old(planeOut[planenum]).Some? ==> n == old(planeOut[planenum]).value && bsp == old(bsp) && planeOut == old(planeOut)
      ensures old(planeOut[planenum]).None? ==>
        n == old(|bsp.planes|) && bsp == old(bsp).(planes := old(bsp.planes) + [planenum]) &&
        planeOut == old(planeOut)[planenum := Some(n)]
    {
      if planeOut[planenum].Some? {
        return planeOut[planenum].value;
      }
      n := |bsp.planes|;
      planeOut := planeOut[planenum := Some(n)];
      bsp := bsp.(planes := bsp.planes + [planenum]);
    }

    /** ExportMapTexinfo: the output number of a map texinfo, or -1 for a
        skipped one. The first export appends the texinfo, records its
        number, and then exports the chain after it to fill in
        nexttexinfo; pending holds the output texinfos whose chain the
        callers are still exporting. */
    method ExportMapTexinfo(t: nat, ghost pending: set<nat>) returns (r: Fallible<int>)
      requires Valid() && Linked(texOut, texinfos, opts, bsp.texinfo, pending)
      requires forall j :: j in pending ==> j < |bsp.texinfo|
      modifies this`texOut, this`bsp
      ensures t >= |texinfos| ==> r.Fatal?
      ensures t < |texinfos| && old(texOut[t]).Some? ==> r == Ok(old(texOut[t]).value as int) && unchanged(this)
      ensures r.Ok? ==> Valid()
      ensures TexResult(texinfos, opts, old(texOut), old(bsp), texOut, bsp, t, r, pending)
      decreases Count(Unwritten(texOut)), 1
    {
      if t >= |texinfos| {
        r := Fatal("texinfo number out of range");
      } else if texOut[t].Some? {
        r := Ok(texOut[t].value);
      } else if Skipped(texinfos[t].flags, opts) {
        r := Ok(-1);
      } else {
        r := WriteTexinfo(t, pending);
      }
    }

    /** The first export of a texinfo that is not skipped: it is appended
        with nexttexinfo -1 and its number recorded, then the chain after
        it is exported and nexttexinfo set to the result. */
    method WriteTexinfo(t: nat, ghost pending: set<nat>) returns (r: Fallible<int>)
      requires Valid() && Linked(texOut, texinfos, opts, bsp.texinfo, pending)
      requires forall j :: j in pending ==> j < |bsp.texinfo|
      modifies this`texOut, this`bsp
      requires t < |texinfos| && texOut[t].None? && !Skipped(texinfos[t].flags, opts)
      ensures r.Ok? ==> Valid()
      ensures TexResult(texinfos, opts, old(texOut), old(bsp), texOut, bsp, t, r, pending)
      decreases Count(Unwritten(texOut)), 0
    {
      var src := texinfos[t];
      var i := |bsp.texinfo|;
      ghost var out0, b0 := texOut, bsp;
      bsp := bsp.(texinfo := bsp.texinfo + [DTexinfo(t, src.flags, src.miptex, -1)]);
      if !src.flags.valid {
        return Fatal("Internal error: Texinfo has invalid surface flags");
      }
      texOut := texOut[t := Some(i)];
      PushTex(out0, texinfos, opts, b0.texinfo, pending, t);
      assert Unwritten(texOut) == Unwritten(out0)[t := false];
      CountClear(Unwritten(out0), t);
      ghost var out1, b1 := texOut, bsp;
      if src.next.None? {
        r := Ok(i);
        NoChain(texinfos, opts, out0, b0, t, pending);
      } else {
        var rn := ExportMapTexinfo(src.next.value, pending + {i});
        ghost var out2, b2 := texOut, bsp;
        if rn.Fatal? {
          r := rn;
        } else {
          bsp := bsp.(texinfo := bsp.texinfo[i := bsp.texinfo[i].(next := rn.value)]);
          r := Ok(i);
        }
        Chained(texinfos, opts, out0, b0, out2, b2, t, pending, rn, r, bsp);
      }
    }

    /** ExportClipNodes: writes the clipping hull below t in preorder,
        reserving a split's clipnode before its children, and returns how
        the parent refers to it. */
    method ExportClipNodes(t: Node) returns (r: int)
      requires Valid() && PlanesIn(t, planeCount)
      modifies this`planeOut, this`bsp
      ensures Valid() && ClipWritten(old(bsp), bsp, r, t) && texOut == old(texOut)
      decreases t
    {
      if t.Leaf? {
        return t.contents;
      }
      ghost var b0 := bsp;
      var nodenum := |bsp.clipnodes|;
      bsp := bsp.(clipnodes := bsp.clipnodes + [DClipnode(0, 0, 0)]);
      var c0 := ExportClipNodes(t.front);
      ghost var b1 := bsp;
      var c1 := ExportClipNodes(t.back);
      ghost var b2 := bsp;
      var p := ExportMapPlane(t.planenum);
      ghost var b3 := bsp;
      bsp := bsp.(clipnodes := bsp.clipnodes[nodenum := DClipnode(p, c0, c1)]);
      ClipJoin(b0, b1, b2, b3, t, c0, c1, p);
      return nodenum;
    }

    /** ExportClipNodes for a model: the hull's head is recorded in the
        model's headnode slot. */
    method ExportModelClipNodes(model: nat, t: Node, hull: nat) returns (r: Fallible<()>)
      requires Valid() && PlanesIn(t, planeCount)
      requires model < |bsp.models| ==> hull < |bsp.models[model].headnode|
      modifies this`planeOut, this`bsp
      ensures r.Fatal? <==> model >= old(|bsp.models|)
      ensures r.Ok? ==>
        Valid() && |bsp.models| == old(|bsp.models|) && hull < |bsp.models[model].headnode| &&
        ClipTree(bsp.clipnodes, bsp.planes, bsp.models[model].headnode[hull], t, old(|bsp.clipnodes|)) &&
        |bsp.clipnodes| == old(|bsp.clipnodes|) + Splits(t)
      ensures r.Ok? ==>
        |bsp.models| == old(|bsp.models|) && model < |bsp.models| && hull < |bsp.models[model].headnode| &&
        bsp.models == old(bsp.models)[model := old(bsp.models[model]).(headnode :=
          old(bsp.models[model].headnode)[hull := bsp.models[model].headnode[hull]])] &&
        ClipWritten(old(bsp), bsp.(models := old(bsp.models)), bsp.models[model].headnode[hull], t)
      ensures r.Fatal? ==> bsp == old(bsp) && planeOut == old(planeOut)
    {
      if model >= |bsp.models| {
        return Fatal("model number out of range");
      }
      var head := ExportClipNodes(t);
      var m := bsp.models[model];
      bsp := bsp.(models := bsp.models[model := m.(headnode := m.headnode[hull := head])]);
      return Ok(());
    }

    /** ExportLeaf: appends the dleaf for leaf t and its mark surfaces. */
    method ExportLeaf(t: Node) returns (r: Fallible<()>)
      requires t.Leaf?
      modifies this`bsp
      ensures r.Ok? <==> opts.game.valid(opts.game.remap(t.contents)) && t.mins.x <= t.maxs.x
      ensures r.Ok? ==>
        |bsp.leafs| == old(|bsp.leafs|) + 1 && LeafWritten(bsp, old(|bsp.leafs|), t, opts) &&
        bsp.leafs[old(|bsp.leafs|)].firstmarksurface == old(|bsp.leaffaces|) &&
        bsp == old(bsp).(leafs := bsp.leafs, leaffaces := bsp.leaffaces) &&
        old(bsp.leafs) <= bsp.leafs && old(bsp.leaffaces) <= bsp.leaffaces
    {
      var contents := opts.game.remap(t.contents);
      if !opts.game.valid(contents) {
        return Fatal("Internal error: tried to save invalid contents type");
      }
      if t.maxs.x < t.mins.x {
        return Fatal("leaf bounds was unassigned");
      }
      var first := |bsp.leaffaces|;
      var marks := CollectMarkSurfaces(t.markfaces, opts);
      var leaf := DLeaf(contents, FloorV(t.mins), CeilV(t.maxs), -1, first, |marks|,
                        t.area, t.cluster, t.firstleafbrush, t.numleafbrushes);
      bsp := bsp.(leafs := bsp.leafs + [leaf], leaffaces := bsp.leaffaces + marks);
      assert bsp.leaffaces[first..first + |marks|] == marks;
      return Ok(());
    }

    /** One child of ExportDrawNodes: a shared solid leaf is -1, another
        leaf is written and referred to as -(its number + 1), and a split
        is written and referred to by its node number. */
    method ExportChild(c: Node) returns (r: Fallible<int>)
      requires Valid() && PlanesIn(c, planeCount)
      modifies this`planeOut, this`bsp
      ensures ChildResult(old(bsp), bsp, c, r, opts) && (r.Ok? ==> Valid())
      decreases c, 1
    {
      if c.Leaf? {
        if !opts.game.q2 && opts.game.solid(c.contents) {
          return Ok(-1);
        }
        var l := |bsp.leafs|;
        var e := ExportLeaf(c);
        if e.Fatal? {
          return Fatal(e.msg);
        }
        return Ok(-(l + 1));
      }
      var n := |bsp.nodes|;
      var e := ExportDrawNode(c);
      if e.Fatal? {
        return Fatal(e.msg);
      }
      return Ok(n);
    }

    /** ExportDrawNodes for a split: reserves its dnode, writes both
        children, and checks that they are referred to differently. */
    method ExportDrawNode(t: Node) returns (r: Fallible<()>)
      requires t.Split? && Valid() && PlanesIn(t, planeCount)
      modifies this`planeOut, this`bsp
      ensures DrawResult(old(bsp), bsp, t, r, opts) && (r.Ok? ==> Valid())
      decreases t, 0
    {
      ghost var b0 := bsp;
      var our := |bsp.nodes|;
      var p := ExportMapPlane(t.planenum);
      ghost var bP := bsp;
      bsp := bsp.(nodes := bsp.nodes + [DNode(p, FloorV(t.mins), CeilV(t.maxs), t.firstface, t.numfaces, 0, 0)]);
      var r0 := ExportChild(t.front);
      if r0.Fatal? {
        r := Fatal(r0.msg);
        FrontFailed(b0, bP, bsp, t, p, r0, opts, r);
        return;
      }
      ghost var b1 := bsp;
      var r1 := ExportChild(t.back);
      ghost var b2 := bsp;
      if r1.Fatal? {
        r := Fatal(r1.msg);
      } else {
        var d := bsp.nodes[our];
        bsp := bsp.(nodes := bsp.nodes[our := d.(child0 := r0.value, child1 := r1.value)]);
        if r0.value == r1.value {
          r := Fatal("assertion failed: dnode->children[0] != dnode->children[1]");
        } else {
          r := Ok(());
        }
      }
      DrawOutcome(b0, bP, b1, b2, t, p, r0, r1, opts, r, bsp);
    }

    /** ExportDrawNodes for a model: records the head node number, the
        model's faces, writes the tree (a head leaf is always written), sets
        visleafs to the number of dleafs written and strips the bounds
        padding, by one unit more outside Quake II. */
    method ExportDrawNodes(model: nat, head: Node, firstface: int, sidespace: real) returns (r: Fallible<()>)
      requires Valid() && PlanesIn(head, planeCount) && |bsp.leafs| >= 1
      requires model < |bsp.models| ==> |bsp.models[model].headnode| >= 1
      modifies this`planeOut, this`bsp
      ensures model >= old(|bsp.models|) ==> r.Fatal?
      ensures model < old(|bsp.models|) ==>
        (r.Ok? <==> (if head.Leaf? then old(opts.game.valid(opts.game.remap(head.contents))) && head.mins.x <= head.maxs.x
                     else Exportable(head, opts)))
      ensures r.Ok? ==>
        Valid() && |bsp.models| == old(|bsp.models|) &&
        bsp.models[model].headnode == old(bsp.models[model].headnode)[0 := old(|bsp.nodes|)]
      ensures r.Ok? ==>
        var m := bsp.models[model];
        var shrink := if opts.game.q2 then 0.0 else 1.0;
        m.firstface == firstface && m.numfaces == bsp.faces - firstface &&
        m.visleafs == |bsp.leafs| - old(|bsp.leafs|) &&
        m.visleafs == (if head.Leaf? then 1 else LeafsBelow(head, opts)) &&
        m.mins == V3(head.mins.x + sidespace + shrink, head.mins.y + sidespace + shrink, head.mins.z + sidespace + shrink) &&
        m.maxs == V3(head.maxs.x - sidespace - shrink, head.maxs.y - sidespace - shrink, head.maxs.z - sidespace - shrink)
      ensures r.Ok? && head.Leaf? ==> LeafWritten(bsp, old(|bsp.leafs|), head, opts)
      ensures r.Ok? && head.Split? ==> DrawTree(bsp, head, old(|bsp.nodes|), old(|bsp.leafs|), opts)
      ensures model < old(|bsp.models|) && head.Split? ==> DrawResult(old(bsp), bsp.(models := old(bsp.models)), head, r, opts)
      ensures r.Ok? ==> model < |bsp.models| && bsp.models == old(bsp.models)[model := bsp.models[model]]
      ensures r.Ok? ==>
        bsp.(models := old(bsp.models)) ==
          old(bsp).(nodes := bsp.nodes, leafs := bsp.leafs, leaffaces := bsp.leaffaces, planes := bsp.planes) &&
        old(bsp.nodes) <= bsp.nodes && old(bsp.leafs) <= bsp.leafs && old(bsp.leaffaces) <= bsp.leaffaces &&
        old(bsp.planes) <= bsp.planes
      ensures r.Fatal? && model >= old(|bsp.models|) ==> bsp == old(bsp) && planeOut == old(planeOut)
    {
      if model >= |bsp.models| {
        return Fatal("model number out of range");
      }
      var start := |bsp.leafs|;
      var headnum := |bsp.nodes|;
      if head.Leaf? {
        r := ExportLeaf(head);
      } else {
        r := ExportDrawNode(head);
      }
      if r.Ok? {
        ghost var b1 := bsp;
        var m := bsp.models[model];
        var shrink := if opts.game.q2 then 0.0 else 1.0;
        m := m.(headnode := m.headnode[0 := headnum],
                firstface := firstface, numfaces := bsp.faces - firstface, visleafs := |bsp.leafs| - start,
                mins := V3(head.mins.x + sidespace + shrink, head.mins.y + sidespace + shrink, head.mins.z + sidespace + shrink),
                maxs := V3(head.maxs.x - sidespace - shrink, head.maxs.y - sidespace - shrink, head.maxs.z - sidespace - shrink));
        bsp := bsp.(models := bsp.models[model := m]);
        if head.Leaf? {
          LeafStable(b1, bsp, start, head, opts);
        } else {
          DrawStable(b1, bsp, head, headnum, start, opts);
        }
      }
    }

    /** BeginBSPFile: the unused edge 0 and the solid leaf 0. */
    method BeginBSPFile() returns (r: Fallible<()>)
      modifies this`bsp
      ensures r.Ok? <==> old(bsp.edges) == 0 && old(|bsp.leafs|) == 0
      ensures r.Ok? ==>
        bsp == old(bsp).(edges := 1, leafs := [BlankLeaf(opts.game.solidNative)])
    {
      bsp := bsp.(edges := bsp.edges + 1);
      if bsp.edges != 1 {
        return Fatal("assertion failed: map.bsp.dedges.size() == 1");
      }
      bsp := bsp.(leafs := bsp.leafs + [BlankLeaf(opts.game.solidNative)]);
      if |bsp.leafs| != 1 {
        return Fatal("assertion failed: map.bsp.dleafs.size() == 1");
      }
      return Ok(());
    }

    /** FinishBSPFile: the BSP gets at least one vertex, as edge 0 refers to
        vertex 0. */
    method FinishBSPFile()
      modifies this`bsp
      ensures bsp == old(bsp).(vertexes := if old(bsp.vertexes) == 0 then 1 else old(bsp.vertexes))
    {
      if bsp.vertexes == 0 {
        bsp := bsp.(vertexes := 1);
      }
    }
  }

  /** The set of texinfos not written yet, as a bit row. */
  function Unwritten(out: seq<Option<nat>>): (r: seq<bool>)
    ensures |r| == |out| && forall k :: 0 <= k < |out| ==> (r[k] <==> out[k].None?)
  {
    seq(|out|, k requires 0 <= k < |out| => out[k].None?)
  }
}
