/**
  * bsputil: the stand-alone inspection tool. It measures node-tree heights, checks
  * the index ranges of a compiled BSP file, lays out the lumps of an exported WAD,
  * parses .map/.ent entity files and moves brushes between two entity lists for
  * --replace-entities.
  */
module BspUtil {
  import opened Common

  // ------------------------------------------------------------------
  // Node heights
  // ------------------------------------------------------------------

  /** A draw node: its plane and its two children (a child >= 0 is a node index,
    * a child < 0 is the leaf -1 - child). */
  datatype DNode = DNode(planenum: int, child0: int, child1: int)

  /** A node child that is a node lies after its parent and inside the lump,
    * as the pre-order export of the compiler writes them. */
  predicate ChildAfter(nodes: seq<DNode>, i: nat, c: int)
  {
    c < 0 || i < c < |nodes|
  }

  /** Every node's children lie after it: this is what makes the height
    * recursion finite (on a cyclic lump the source recurses without end). */
  ghost predicate Ordered(nodes: seq<DNode>)
  {
    forall i :: 0 <= i < |nodes| ==> ChildAfter(nodes, i, nodes[i].child0) && ChildAfter(nodes, i, nodes[i].child1)
  }

  function Max(a: int, b: int): int { if a < b then b else a }

  /** Height of node i: a leaf child counts 0, a node one more than its higher child. */
  function Height(nodes: seq<DNode>, i: nat): (h: nat)
    requires Ordered(nodes) && i < |nodes|
    decreases |nodes| - i
  {
    var c0 := nodes[i].child0;
    var c1 := nodes[i].child1;
    var h0 := if c0 >= 0 then Height(nodes, c0) else 0;
    var h1 := if c1 >= 0 then Height(nodes, c1) else 0;
    Max(h0, h1) + 1
  }

  /** A node is strictly higher than each of its node children, and a node with
    * two leaf children has height 1. */
  lemma HeightAboveChildren(nodes: seq<DNode>, i: nat)
    requires Ordered(nodes) && i < |nodes|
    ensures Height(nodes, i) >= 1
    ensures nodes[i].child0 >= 0 ==> Height(nodes, i) > Height(nodes, nodes[i].child0)
    ensures nodes[i].child1 >= 0 ==> Height(nodes, i) > Height(nodes, nodes[i].child1)
    ensures nodes[i].child0 < 0 && nodes[i].child1 < 0 ==> Height(nodes, i) == 1
  {
  }

  /** The height of node i never exceeds the number of nodes from i to the end
    * of the lump, since every step down moves to a later index. */
  lemma {:induction false} HeightBound(nodes: seq<DNode>, i: nat)
    requires Ordered(nodes) && i < |nodes|
    ensures Height(nodes, i) <= |nodes| - i
    decreases |nodes| - i
  {
    var c0 := nodes[i].child0;
    var c1 := nodes[i].child1;
    if c0 >= 0 { HeightBound(nodes, c0); }
    if c1 >= 0 { HeightBound(nodes, c1); }
  }

  /** The nodes reached from node i, i included. */
  ghost function Below(nodes: seq<DNode>, i: nat): (s: set<nat>)
    requires Ordered(nodes) && i < |nodes|
    ensures i in s
    ensures forall n :: n in s ==> i <= n < |nodes|
    decreases |nodes| - i
  {
    var c0 := nodes[i].child0;
    var c1 := nodes[i].child1;
    {i} + (if c0 >= 0 then Below(nodes, c0) else {}) + (if c1 >= 0 then Below(nodes, c1) else {})
  }

  /** The cache after the heights of the nodes below i were recorded into m. */
  ghost function Recorded(m: map<nat, int>, nodes: seq<DNode>, i: nat): map<nat, int>
    requires Ordered(nodes) && i < |nodes|
  {
    map n | n in m.Keys + Below(nodes, i) :: if n in Below(nodes, i) then Height(nodes, n) else m[n]
  }

  /** Recording child 0, then child 1, then the node itself records the whole subtree. */
  lemma RecordStep(m: map<nat, int>, nodes: seq<DNode>, i: nat)
    requires Ordered(nodes) && i < |nodes|
    ensures var c0 := nodes[i].child0;
            var c1 := nodes[i].child1;
            var m0 := if c0 >= 0 then Recorded(m, nodes, c0) else m;
            var m1 := if c1 >= 0 then Recorded(m0, nodes, c1) else m0;
            m1[i := Height(nodes, i)] == Recorded(m, nodes, i)
  {
  }

  /** The map filled by the height walk: node index to height. */
  class HeightCache {
    var entries: map<nat, int>

    constructor ()
      ensures entries == map[]
    {
      entries := map[];
    }
  }

  /** Node_Height: the height of node i, recording every node of its subtree
    * in the cache when there is one. */
  method NodeHeight(nodes: seq<DNode>, i: nat, cache: HeightCache?) returns (h: int)
    requires Ordered(nodes) && i < |nodes|
    modifies cache
    ensures h == Height(nodes, i)
    ensures cache != null ==> cache.entries == Recorded(old(cache.entries), nodes, i)
    decreases |nodes| - i
  {
    var h0, h1 := 0, 0;
    var c0 := nodes[i].child0;
    var c1 := nodes[i].child1;
    if c0 >= 0 {
      h0 := NodeHeight(nodes, c0, cache);
    }
    if c1 >= 0 {
      h1 := NodeHeight(nodes, c1, cache);
    }
    h := Max(h0, h1) + 1;
    if cache != null {
      RecordStep(old(cache.entries), nodes, i);
      cache.entries := cache.entries[i := h];
    }
  }

  // ------------------------------------------------------------------
  // WAD export layout
  // ------------------------------------------------------------------

  /** A texture of the BSP's texture lump: name, the size of its stored data
    * and its dimensions. */
  datatype Miptex = Miptex(name: string, dataSize: nat, width: nat, height: nat)

  /** One entry of the WAD lump table. */
  datatype WadLump = WadLump(filepos: nat, disksize: nat, size: nat, name: string)

  /** The WAD header: four identification bytes, the lump count, the table offset. */
  const WADINFO_SIZE: nat := 12
  /** A lump table entry: three 32-bit fields, four single bytes and a 16-byte name. */
  const LUMPINFO_SIZE: nat := 32
  /** The Quake miptex header: a 16-byte name, width, height and four mip offsets. */
  const DMIPTEX_SIZE: nat := 40
  /** The lump name field holds at most this many characters before its terminator. */
  const LUMP_NAME_MAX: nat := 15

  /** A texture is exported only when it carries pixel data beyond its header. */
  predicate HasData(t: Miptex) { t.dataSize > DMIPTEX_SIZE }

  /** Size written for a texture: the header plus all four mip levels
    * (w*h/64*85 is w*h*(1 + 1/4 + 1/16 + 1/64) in integer steps). */
  function LumpSize(t: Miptex): nat { DMIPTEX_SIZE + t.width * t.height / 64 * 85 }

  function LumpName(name: string): (r: string)
    ensures |r| <= LUMP_NAME_MAX && |r| <= |name|
    ensures r == name[..|r|]
  {
    if |name| <= LUMP_NAME_MAX then name else name[..LUMP_NAME_MAX]
  }

  /** The textures that are exported, in order. */
  function Exported(texs: seq<Miptex>): (r: seq<Miptex>)
  {
    if |texs| == 0 then []
    else (if HasData(texs[0]) then [texs[0]] else []) + Exported(texs[1..])
  }

  /** The lump table for texs when the first lump's data starts at pos. */
  function LumpsFrom(texs: seq<Miptex>, pos: nat): seq<WadLump>
  {
    if |texs| == 0 then []
    else if HasData(texs[0]) then
      var size := LumpSize(texs[0]);
      [WadLump(pos, size, size, LumpName(texs[0].name))] + LumpsFrom(texs[1..], pos + size)
    else LumpsFrom(texs[1..], pos)
  }

  /** The end of the data region whose lumps are ls, starting at pos. */
  function DataEnd(ls: seq<WadLump>, pos: nat): nat
  {
    if |ls| == 0 then pos else DataEnd(ls[1..], pos + ls[0].disksize)
  }

  /** The lump table lists exactly the exported textures, each with its computed
    * size, the first starting at pos and each starting where the previous one ends. */
  lemma {:induction false} LumpsLayout(texs: seq<Miptex>, pos: nat)
    ensures var ls := LumpsFrom(texs, pos);
            var ex := Exported(texs);
            |ls| == |ex|
            && (forall k :: 0 <= k < |ls| ==>
                  (ls[k].name == LumpName(ex[k].name) && ls[k].size == LumpSize(ex[k]) && ls[k].disksize == ls[k].size))
            && (|ls| > 0 ==> ls[0].filepos == pos)
            && (forall k :: 0 <= k < |ls| - 1 ==> ls[k + 1].filepos == ls[k].filepos + ls[k].disksize)
    decreases |texs|
  {
    if |texs| > 0 {
      var size := LumpSize(texs[0]);
      if HasData(texs[0]) {
        LumpsLayout(texs[1..], pos + size);
        var rest := LumpsFrom(texs[1..], pos + size);
        assert |rest| > 0 ==> rest[0].filepos == pos + size;
      } else {
        LumpsLayout(texs[1..], pos);
      }
    }
  }

  /** Every lump of ls lies between pos and the end of the data region. */
  predicate LumpsWithin(ls: seq<WadLump>, pos: nat)
  {
    forall k :: 0 <= k < |ls| ==> pos <= ls[k].filepos && ls[k].filepos + ls[k].disksize <= DataEnd(ls, pos)
  }

  /** No lump reaches before the start of the data or past its end. */
  lemma {:induction false} LumpsInside(texs: seq<Miptex>, pos: nat)
    ensures LumpsWithin(LumpsFrom(texs, pos), pos)
    decreases |texs|
  {
    if |texs| > 0 {
      if HasData(texs[0]) {
        var size := LumpSize(texs[0]);
        var rest := LumpsFrom(texs[1..], pos + size);
        var ls := LumpsFrom(texs, pos);
        LumpsInside(texs[1..], pos + size);
        DataEndAbove(rest, pos + size);
        assert ls[1..] == rest;
        assert DataEnd(ls, pos) == DataEnd(rest, pos + size);
        forall k | 0 <= k < |ls|
          ensures pos <= ls[k].filepos && ls[k].filepos + ls[k].disksize <= DataEnd(ls, pos)
        {
          if k > 0 {
            assert ls[k] == rest[k - 1];
          }
        }
      } else {
        LumpsInside(texs[1..], pos);
      }
    }
  }

  lemma {:induction false} DataEndAbove(ls: seq<WadLump>, pos: nat)
    ensures DataEnd(ls, pos) >= pos
    decreases |ls|
  {
    if |ls| > 0 { DataEndAbove(ls[1..], pos + ls[0].disksize); }
  }

  /** ExportWad's counting loop: the number of textures with data. */
  method CountValid(texs: seq<Miptex>) returns (n: nat)
    ensures n == |Exported(texs)|
  {
    n := 0;
    var i := 0;
    while i < |texs|
      invariant i <= |texs|
      invariant n + |Exported(texs[i..])| == |Exported(texs)|
    {
      assert texs[i..][1..] == texs[i + 1..];
      if HasData(texs[i]) {
        n := n + 1;
      }
      i := i + 1;
    }
  }

  /** ExportWad's layout: the lump count and the lump table; miptex data follows
    * the header and the table. */
  method WadLayout(texs: seq<Miptex>) returns (numlumps: nat, lumps: seq<WadLump>)
    ensures numlumps == |Exported(texs)|
    ensures lumps == LumpsFrom(texs, WADINFO_SIZE + numlumps * LUMPINFO_SIZE)
  {
    numlumps := CountValid(texs);
    var filepos: nat := WADINFO_SIZE + numlumps * LUMPINFO_SIZE;
    lumps := [];
    var i := 0;
    while i < |texs|
      invariant i <= |texs|
      invariant lumps + LumpsFrom(texs[i..], filepos) == LumpsFrom(texs, WADINFO_SIZE + numlumps * LUMPINFO_SIZE)
    {
      assert texs[i..][1..] == texs[i + 1..];
      if HasData(texs[i]) {
        var size := LumpSize(texs[i]);
        lumps := lumps + [WadLump(filepos, size, size, LumpName(texs[i].name))];
        filepos := filepos + size;
      }
      i := i + 1;
    }
  }

  // ------------------------------------------------------------------
  // CheckBSPFile: range checks and unreferenced counts
  // ------------------------------------------------------------------

  datatype Face = Face(texinfo: int, planenum: int, lightofs: int, firstedge: int, numedges: int)
  /** An edge's two vertex numbers (unsigned in the file). */
  datatype Edge = Edge(v0: nat, v1: nat)
  datatype Leaf = Leaf(firstmarksurface: nat, nummarksurfaces: nat, visofs: int)
  datatype Clipnode = Clipnode(planenum: int, child0: int, child1: int)

  /** The lumps CheckBSPFile looks at; lumps whose contents it never reads are
    * represented by their sizes. */
  datatype Bsp = Bsp(faces: seq<Face>, numTexinfo: nat, numPlanes: nat, lightdataSize: nat,
                     edges: seq<Edge>, numVertexes: nat, surfedges: seq<int>, leaffaces: seq<nat>,
                     leafs: seq<Leaf>, visdataSize: nat, nodes: seq<DNode>, clipnodes: seq<Clipnode>)

  /** One printed warning, with the index of the element it is about (and the
    * child side, 0 or 1, where the message names one). */
  /** What is wrong with one element of a lump. */
  datatype Issue =
    | NegativeTexinfo | TexinfoOutOfRange
    | NegativePlanenum | PlanenumOutOfRange
    | NegativeLightofs | LightofsOutOfRange
    | NegativeFirstedge | TooFewEdges | EdgesOutOfRange
    | VertexOutOfRange(side: nat)
    | ZeroSurfedge | SurfedgeOutOfRange
    | MarksurfaceOutOfRange
    | LeafMarksurfacesOutOfRange | NegativeVisofs | VisofsOutOfRange
    | NodeChildOutOfRange(side: nat) | NodeLeafOutOfRange(side: nat) | NodeSameChildren
    | ClipChildOutOfRange(side: nat) | ClipInvalidContents(side: nat) | ClipSameChildren

  /** The lumps whose unreferenced entries are counted. */
  datatype Counted = Texinfos | Planes | Vertexes

  /** One printed warning: an issue with element `at` of its lump, or a count of
    * unreferenced entries. */
  datatype Warning =
    | Problem(issue: Issue, at: nat)
    | Unused(lump: Counted, count: nat)

  /** `x >= size` where a signed x is compared with an unsigned size: the usual
    * arithmetic conversions turn a negative x into a huge unsigned value. */
  predicate SignedGe(x: int, size: nat) { x < 0 || x >= size }
  /** `x > size` under the same conversion. */
  predicate SignedGt(x: int, size: nat) { x < 0 || x > size }

  /** Light offset check: -1 means "no lightmap" and is not out of range. */
  predicate LightofsOut(lightofs: int, size: nat) { lightofs >= 0 && lightofs >= size }
  /** The light offset check as written (see the findings): the -1 of an unlit face
    * is converted to a huge unsigned value and compares as out of range. */
  predicate LightofsOutAsWritten(lightofs: int, size: nat) { SignedGe(lightofs, size) }

  /** Every face with no lightmap draws the out-of-range warning under the check as written. */
  lemma UnlitFaceWarnsAsWritten(size: nat)
    ensures LightofsOutAsWritten(-1, size)
    ensures !LightofsOut(-1, size)
  {
  }

  /** Vis offset check: -1 means "no visdata" and is not out of range. */
  predicate VisofsOut(visofs: int, size: nat) { visofs >= 0 && visofs >= size }
  /** The vis offset check as written: -1 compares as out of range. */
  predicate VisofsOutAsWritten(visofs: int, size: nat) { SignedGe(visofs, size) }

  lemma NoVisLeafWarnsAsWritten(size: nat)
    ensures VisofsOutAsWritten(-1, size)
    ensures !VisofsOut(-1, size)
  {
  }

  /** Edge vertex check: a vertex number is valid below the vertex count. */
  predicate VertexOut(vertex: nat, count: nat) { vertex >= count }
  /** The edge vertex check as written compares with `>`, so the first number past
    * the end passes. */
  predicate VertexOutAsWritten(vertex: nat, count: nat) { vertex > count }

  /** A vertex number equal to the vertex count indexes past the lump, yet the
    * check as written does not report it. */
  lemma VertexCheckAsWrittenMisses(count: nat)
    ensures !VertexOutAsWritten(count, count)
    ensures VertexOut(count, count)
  {
  }

  /** Which range tests a report uses: the tests as the source writes them, or
    * the tests it evidently intends (see the findings: -1 light and vis offsets
    * are "none", and a vertex number equal to the count is past the end). */
  datatype Reading = AsWritten | Intended

  function LightofsBad(r: Reading, lightofs: int, size: nat): bool
  {
    if r.AsWritten? then LightofsOutAsWritten(lightofs, size) else LightofsOut(lightofs, size)
  }

  function VisofsBad(r: Reading, visofs: int, size: nat): bool
  {
    if r.AsWritten? then VisofsOutAsWritten(visofs, size) else VisofsOut(visofs, size)
  }

  function VertexBad(r: Reading, vertex: nat, count: nat): bool
  {
    if r.AsWritten? then VertexOutAsWritten(vertex, count) else VertexOut(vertex, count)
  }

  /** One conditional print of the check: the warning, and whether its condition holds. */
  datatype Check = Check(fails: bool, warning: Warning)

  /** The warnings a list of checks prints, in order. */
  function Printed(cs: seq<Check>): seq<Warning>
  {
    if |cs| == 0 then [] else (if cs[0].fails then [cs[0].warning] else []) + Printed(cs[1..])
  }

  /** The checks of face i: texinfo, plane, light offset, then edges. */
  function FaceChecks(b: Bsp, i: nat, r: Reading): seq<Check>
    requires i < |b.faces|
  {
    var f := b.faces[i];
    [ Check(f.texinfo < 0, Problem(NegativeTexinfo, i)),
      Check(SignedGe(f.texinfo, b.numTexinfo), Problem(TexinfoOutOfRange, i)),
      Check(f.planenum < 0, Problem(NegativePlanenum, i)),
      Check(SignedGe(f.planenum, b.numPlanes), Problem(PlanenumOutOfRange, i)),
      Check(f.lightofs < -1, Problem(NegativeLightofs, i)),
      Check(LightofsBad(r, f.lightofs, b.lightdataSize), Problem(LightofsOutOfRange, i)),
      Check(f.firstedge < 0, Problem(NegativeFirstedge, i)),
      Check(f.numedges < 3, Problem(TooFewEdges, i)),
      Check(SignedGt(f.firstedge + f.numedges, |b.surfedges|), Problem(EdgesOutOfRange, i)) ]
  }

  function FaceWarnings(b: Bsp, i: nat, r: Reading): seq<Warning>
    requires i < |b.faces|
  {
    Printed(FaceChecks(b, i, r))
  }

  /** The checks of edge i, one per vertex. */
  function EdgeChecks(b: Bsp, i: nat, r: Reading): seq<Check>
    requires i < |b.edges|
  {
    [ Check(VertexBad(r, b.edges[i].v0, b.numVertexes), Problem(VertexOutOfRange(0), i)),
      Check(VertexBad(r, b.edges[i].v1, b.numVertexes), Problem(VertexOutOfRange(1), i)) ]
  }

  function EdgeWarnings(b: Bsp, i: nat, r: Reading): seq<Warning>
    requires i < |b.edges|
  {
    Printed(EdgeChecks(b, i, r))
  }

  /** An edge ending on the vertex just past the lump goes unreported as written,
    * and is reported by the intended check. */
  lemma EdgePastEndUnreported(b: Bsp, i: nat)
    requires i < |b.edges| && b.edges[i] == Edge(b.numVertexes, b.numVertexes)
    ensures EdgeWarnings(b, i, AsWritten) == []
    ensures EdgeWarnings(b, i, Intended) == [Problem(VertexOutOfRange(0), i), Problem(VertexOutOfRange(1), i)]
  {
    PrintedPair(EdgeChecks(b, i, AsWritten)[0], EdgeChecks(b, i, AsWritten)[1]);
    assert EdgeChecks(b, i, AsWritten) == [EdgeChecks(b, i, AsWritten)[0], EdgeChecks(b, i, AsWritten)[1]];
    PrintedPair(EdgeChecks(b, i, Intended)[0], EdgeChecks(b, i, Intended)[1]);
    assert EdgeChecks(b, i, Intended) == [EdgeChecks(b, i, Intended)[0], EdgeChecks(b, i, Intended)[1]];
  }

  lemma PrintedPair(c0: Check, c1: Check)
    ensures Printed([c0, c1]) == (if c0.fails then [c0.warning] else []) + (if c1.fails then [c1.warning] else [])
  {
    assert [c0, c1][1..] == [c1];
    assert [c1][1..] == [];
    assert Printed([c1]) == (if c1.fails then [c1.warning] else []) + Printed([]);
  }

  function Abs(x: int): nat { if x < 0 then -x else x }

  function SurfedgeWarnings(b: Bsp, i: nat): seq<Warning>
    requires i < |b.surfedges|
  {
    Printed([ Check(b.surfedges[i] == 0, Problem(ZeroSurfedge, i)),
              Check(Abs(b.surfedges[i]) >= |b.edges|, Problem(SurfedgeOutOfRange, i)) ])
  }

  function MarksurfaceWarnings(b: Bsp, i: nat): seq<Warning>
    requires i < |b.leaffaces|
  {
    Printed([Check(b.leaffaces[i] >= |b.faces|, Problem(MarksurfaceOutOfRange, i))])
  }

  /** The end of a leaf's marksurface range, held in a 32-bit unsigned value. */
  function EndMarksurface(l: Leaf): nat { (l.firstmarksurface + l.nummarksurfaces) % 0x1_0000_0000 }

  /** The checks of leaf i: marksurface range, then vis offset. */
  function LeafChecks(b: Bsp, i: nat, r: Reading): seq<Check>
    requires i < |b.leafs|
  {
    var l := b.leafs[i];
    [ Check(EndMarksurface(l) > |b.leaffaces|, Problem(LeafMarksurfacesOutOfRange, i)),
      Check(l.visofs < -1, Problem(NegativeVisofs, i)),
      Check(VisofsBad(r, l.visofs, b.visdataSize), Problem(VisofsOutOfRange, i)) ]
  }

  function LeafWarnings(b: Bsp, i: nat, r: Reading): seq<Warning>
    requires i < |b.leafs|
  {
    Printed(LeafChecks(b, i, r))
  }

  /** The checks of one child of node i: a node number or a leaf number. */
  function NodeChildChecks(b: Bsp, i: nat, side: nat, child: int): seq<Check>
  {
    [ Check(child >= 0 && child >= |b.nodes|, Problem(NodeChildOutOfRange(side), i)),
      Check(child < 0 && -child - 1 >= |b.leafs|, Problem(NodeLeafOutOfRange(side), i)) ]
  }

  function NodeChecks(b: Bsp, i: nat): seq<Check>
    requires i < |b.nodes|
  {
    var n := b.nodes[i];
    NodeChildChecks(b, i, 0, n.child0) + NodeChildChecks(b, i, 1, n.child1)
    + [Check(n.child0 == n.child1, Problem(NodeSameChildren, i))]
  }

  function NodeWarnings(b: Bsp, i: nat): seq<Warning>
    requires i < |b.nodes|
  {
    Printed(NodeChecks(b, i))
  }

  /** The checks of one child of clipnode i: a clipnode number or a contents value. */
  function ClipChildChecks(b: Bsp, contentsMin: int, i: nat, side: nat, child: int): seq<Check>
  {
    [ Check(child >= 0 && child >= |b.clipnodes|, Problem(ClipChildOutOfRange(side), i)),
      Check(child < 0 && child < contentsMin, Problem(ClipInvalidContents(side), i)) ]
  }

  function ClipnodeWarnings(b: Bsp, contentsMin: int, i: nat): seq<Warning>
    requires i < |b.clipnodes|
  {
    var c := b.clipnodes[i];
    Printed(ClipChildChecks(b, contentsMin, i, 0, c.child0) + ClipChildChecks(b, contentsMin, i, 1, c.child1)
            + [Check(c.child0 == c.child1, Problem(ClipSameChildren, i))])
  }

  // The warnings of the first n elements of each lump, in order.

  function FacesUpTo(b: Bsp, n: nat, r: Reading): seq<Warning>
    requires n <= |b.faces|
  {
    if n == 0 then [] else FacesUpTo(b, n - 1, r) + FaceWarnings(b, n - 1, r)
  }

  function EdgesUpTo(b: Bsp, n: nat, r: Reading): seq<Warning>
    requires n <= |b.edges|
  {
    if n == 0 then [] else EdgesUpTo(b, n - 1, r) + EdgeWarnings(b, n - 1, r)
  }

  function SurfedgesUpTo(b: Bsp, n: nat): seq<Warning>
    requires n <= |b.surfedges|
  {
    if n == 0 then [] else SurfedgesUpTo(b, n - 1) + SurfedgeWarnings(b, n - 1)
  }

  function MarksurfacesUpTo(b: Bsp, n: nat): seq<Warning>
    requires n <= |b.leaffaces|
  {
    if n == 0 then [] else MarksurfacesUpTo(b, n - 1) + MarksurfaceWarnings(b, n - 1)
  }

  function LeafsUpTo(b: Bsp, n: nat, r: Reading): seq<Warning>
    requires n <= |b.leafs|
  {
    if n == 0 then [] else LeafsUpTo(b, n - 1, r) + LeafWarnings(b, n - 1, r)
  }

  function NodesUpTo(b: Bsp, n: nat): seq<Warning>
    requires n <= |b.nodes|
  {
    if n == 0 then [] else NodesUpTo(b, n - 1) + NodeWarnings(b, n - 1)
  }

  function ClipnodesUpTo(b: Bsp, contentsMin: int, n: nat): seq<Warning>
    requires n <= |b.clipnodes|
  {
    if n == 0 then [] else ClipnodesUpTo(b, contentsMin, n - 1) + ClipnodeWarnings(b, contentsMin, n - 1)
  }

  /** Texinfo numbers referenced by the first n faces. */
  function TexinfosUpTo(faces: seq<Face>, n: nat): set<int>
    requires n <= |faces|
  {
    if n == 0 then {} else TexinfosUpTo(faces, n - 1) + {faces[n - 1].texinfo}
  }

  /** Plane numbers referenced by the first n faces. */
  function FacePlanesUpTo(faces: seq<Face>, n: nat): set<int>
    requires n <= |faces|
  {
    if n == 0 then {} else FacePlanesUpTo(faces, n - 1) + {faces[n - 1].planenum}
  }

  function NodePlanesUpTo(nodes: seq<DNode>, n: nat): set<int>
    requires n <= |nodes|
  {
    if n == 0 then {} else NodePlanesUpTo(nodes, n - 1) + {nodes[n - 1].planenum}
  }

  function ClipPlanesUpTo(clipnodes: seq<Clipnode>, n: nat): set<int>
    requires n <= |clipnodes|
  {
    if n == 0 then {} else ClipPlanesUpTo(clipnodes, n - 1) + {clipnodes[n - 1].planenum}
  }

  /** Vertex numbers referenced by the first n edges. */
  function VertexesUpTo(edges: seq<Edge>, n: nat): set<int>
    requires n <= |edges|
  {
    if n == 0 then {} else VertexesUpTo(edges, n - 1) + {edges[n - 1].v0 as int, edges[n - 1].v1 as int}
  }

  function TexinfoRefs(b: Bsp): set<int> { TexinfosUpTo(b.faces, |b.faces|) }

  /** Plane numbers referenced by faces, nodes and clipnodes. */
  function PlaneRefs(b: Bsp): set<int>
  {
    FacePlanesUpTo(b.faces, |b.faces|) + NodePlanesUpTo(b.nodes, |b.nodes|) + ClipPlanesUpTo(b.clipnodes, |b.clipnodes|)
  }

  function VertexRefs(b: Bsp): set<int> { VertexesUpTo(b.edges, |b.edges|) }

  /** A number is referenced by the faces exactly when some face uses it. */
  lemma {:induction false} TexinfosUpToMembers(faces: seq<Face>, n: nat, t: int)
    requires n <= |faces|
    ensures t in TexinfosUpTo(faces, n) <==> exists k :: 0 <= k < n && faces[k].texinfo == t
  {
    if n > 0 {
      TexinfosUpToMembers(faces, n - 1, t);
    }
  }

  /** The indices of a lump of the given size that nothing references. */
  function Unreferenced(size: nat, refs: set<int>): set<int>
  {
    set i | 0 <= i < size && i !in refs
  }

  /** No index is unreferenced exactly when every index of the lump is referenced. */
  lemma UnreferencedNone(size: nat, refs: set<int>)
    ensures |Unreferenced(size, refs)| == 0 <==> forall i :: 0 <= i < size ==> i in refs
  {
    if |Unreferenced(size, refs)| == 0 {
      assert Unreferenced(size, refs) == {};
      forall i | 0 <= i < size
        ensures i in refs
      {
        assert i !in Unreferenced(size, refs);
      }
    } else {
      var i :| i in Unreferenced(size, refs);
    }
  }

  /** The per-lump warnings of CheckBSPFile, in the order the source prints them. */
  function Sections(b: Bsp, contentsMin: int, r: Reading): seq<Warning>
  {
    FacesUpTo(b, |b.faces|, r) + EdgesUpTo(b, |b.edges|, r) + SurfedgesUpTo(b, |b.surfedges|)
    + MarksurfacesUpTo(b, |b.leaffaces|) + LeafsUpTo(b, |b.leafs|, r) + NodesUpTo(b, |b.nodes|)
    + ClipnodesUpTo(b, contentsMin, |b.clipnodes|)
  }

  /** The unreferenced-count lines that close the report. */
  function Summary(b: Bsp): seq<Warning>
  {
    var tex := |Unreferenced(b.numTexinfo, TexinfoRefs(b))|;
    var planes := |Unreferenced(b.numPlanes, PlaneRefs(b))|;
    var verts := |Unreferenced(b.numVertexes, VertexRefs(b))|;
    Printed(SummaryChecks(tex, planes, verts))
  }

  function SummaryChecks(tex: nat, planes: nat, verts: nat): seq<Check>
  {
    [Check(tex > 0, Unused(Texinfos, tex)), Check(planes > 0, Unused(Planes, planes)),
     Check(verts > 0, Unused(Vertexes, verts))]
  }

  /** A count line appears exactly when some index of its lump is unreferenced,
    * and it carries the number of such indices. */
  lemma SummaryMeaning(b: Bsp, count: nat)
    ensures Unused(Texinfos, count) in Summary(b)
            <==> count > 0 && count == |Unreferenced(b.numTexinfo, TexinfoRefs(b))|
    ensures Unused(Planes, count) in Summary(b)
            <==> count > 0 && count == |Unreferenced(b.numPlanes, PlaneRefs(b))|
    ensures Unused(Vertexes, count) in Summary(b)
            <==> count > 0 && count == |Unreferenced(b.numVertexes, VertexRefs(b))|
  {
    var cs := SummaryChecks(|Unreferenced(b.numTexinfo, TexinfoRefs(b))|,
                            |Unreferenced(b.numPlanes, PlaneRefs(b))|, |Unreferenced(b.numVertexes, VertexRefs(b))|);
    PrintedMeaning(cs, Unused(Texinfos, count));
    PrintedMeaning(cs, Unused(Planes, count));
    PrintedMeaning(cs, Unused(Vertexes, count));
    assert cs[0] in cs && cs[1] in cs && cs[2] in cs;
  }

  /** The full warning list of CheckBSPFile. */
  function Report(b: Bsp, contentsMin: int, r: Reading): seq<Warning>
  {
    Sections(b, contentsMin, r) + Summary(b)
  }

  /** The element a warning is about (-1 for the unreferenced summaries). */
  function Subject(w: Warning): int
  {
    if w.Problem? then w.at else -1
  }

  /** A warning is printed exactly when some failing check carries it. */
  lemma {:induction false} PrintedMeaning(cs: seq<Check>, v: Warning)
    ensures v in Printed(cs) <==> exists c :: c in cs && c.fails && c.warning == v
  {
    if |cs| > 0 {
      var rest := cs[1..];
      PrintedMeaning(rest, v);
      assert cs == [cs[0]] + rest;
      if exists c :: c in cs && c.fails && c.warning == v {
        var c :| c in cs && c.fails && c.warning == v;
        if c != cs[0] {
          assert c in rest;
        }
      }
    }
  }

  /** The check c is the only one in cs that carries its warning. */
  predicate Sole(cs: seq<Check>, c: Check)
  {
    c in cs && forall d :: d in cs && d.warning == c.warning ==> d == c
  }

  /** A check that alone carries its warning prints it exactly when it fails. */
  lemma PrintedHas(cs: seq<Check>, c: Check)
    requires Sole(cs, c)
    ensures c.warning in Printed(cs) <==> c.fails
  {
    PrintedMeaning(cs, c.warning);
  }

  /** Every check in cs is about element i. */
  predicate About(cs: seq<Check>, i: int)
  {
    forall c :: c in cs ==> Subject(c.warning) == i
  }

  lemma PrintedAbout(cs: seq<Check>, i: int, v: Warning)
    requires About(cs, i) && v in Printed(cs)
    ensures Subject(v) == i
  {
    PrintedMeaning(cs, v);
  }

  /** The concatenation of a table of warning lists. */
  function Flatten(t: seq<seq<Warning>>): seq<Warning>
  {
    if |t| == 0 then [] else Flatten(t[..|t| - 1]) + t[|t| - 1]
  }

  /** Every warning in entry k of the table is about element k. */
  predicate Tagged(t: seq<seq<Warning>>)
  {
    forall k, v :: 0 <= k < |t| && v in t[k] ==> Subject(v) == k
  }

  lemma FlattenSnoc(t: seq<seq<Warning>>, x: seq<Warning>)
    ensures Flatten(t + [x]) == Flatten(t) + x
  {
    assert (t + [x])[..|t|] == t;
  }

  /** In a tagged table, a warning about element i is in the concatenation exactly
    * when it is in entry i. */
  lemma {:induction false} FlattenListed(t: seq<seq<Warning>>, i: nat, w: Warning)
    requires Tagged(t) && Subject(w) == i
    ensures w in Flatten(t) <==> i < |t| && w in t[i]
  {
    if |t| > 0 {
      var init := t[..|t| - 1];
      assert Tagged(init) by {
        forall k, v | 0 <= k < |init| && v in init[k]
          ensures Subject(v) == k
        {
          assert init[k] == t[k];
        }
      }
      FlattenListed(init, i, w);
      if i < |init| {
        assert init[i] == t[i];
      }
    }
  }

  /** The warnings of the first n faces, one entry per element. */
  function FaceTable(b: Bsp, n: nat, r: Reading): (t: seq<seq<Warning>>)
    requires n <= |b.faces|
    ensures |t| == n && forall k :: 0 <= k < n ==> t[k] == FaceWarnings(b, k, r)
  {
    if n == 0 then [] else FaceTable(b, n - 1, r) + [FaceWarnings(b, n - 1, r)]
  }

  lemma {:induction false} FacesFlat(b: Bsp, n: nat, r: Reading)
    requires n <= |b.faces|
    ensures FacesUpTo(b, n, r) == Flatten(FaceTable(b, n, r))
  {
    if n > 0 {
      FacesFlat(b, n - 1, r);
      FlattenSnoc(FaceTable(b, n - 1, r), FaceWarnings(b, n - 1, r));
    }
  }

  /** A warning about face i is in the face section exactly when face i prints it. */
  lemma FaceChecksAbout(b: Bsp, i: nat, r: Reading)
    requires i < |b.faces|
    ensures About(FaceChecks(b, i, r), i)
  {
  }

  lemma FaceChecksSole(b: Bsp, i: nat, c: Check, r: Reading)
    requires i < |b.faces| && c in FaceChecks(b, i, r)
    ensures Sole(FaceChecks(b, i, r), c)
  {
  }

  lemma FacesListed(b: Bsp, i: nat, w: Warning, r: Reading)
    requires i < |b.faces| && Subject(w) == i
    ensures w in FacesUpTo(b, |b.faces|, r) <==> w in FaceWarnings(b, i, r)
  {
    var t := FaceTable(b, |b.faces|, r);
    forall k, v | 0 <= k < |t| && v in t[k]
      ensures Subject(v) == k
    {
      FaceChecksAbout(b, k, r);
      PrintedAbout(FaceChecks(b, k, r), k, v);
    }
    FacesFlat(b, |b.faces|, r);
    FlattenListed(t, i, w);
  }

  /** A check of face i is reported exactly when it fails. */
  lemma FaceCheckReported(b: Bsp, i: nat, c: Check, r: Reading)
    requires i < |b.faces| && c in FaceChecks(b, i, r)
    ensures c.warning in FacesUpTo(b, |b.faces|, r) <==> c.fails
  {
    FaceChecksAbout(b, i, r);
    FacesListed(b, i, c.warning, r);
    FaceChecksSole(b, i, c, r);
    PrintedHas(FaceChecks(b, i, r), c);
  }

  /** Face i is reported for its texinfo, plane, light offset or edge range exactly
    * when that value lies outside the lump it indexes; the intended reading allows
    * a light offset of -1, the reading as written does not. */
  lemma FaceSection(b: Bsp, i: nat, r: Reading)
    requires i < |b.faces|
    ensures var ws := FacesUpTo(b, |b.faces|, r);
            var f := b.faces[i];
            && ((Problem(NegativeTexinfo, i) in ws || Problem(TexinfoOutOfRange, i) in ws) <==> !(0 <= f.texinfo < b.numTexinfo))
            && ((Problem(NegativePlanenum, i) in ws || Problem(PlanenumOutOfRange, i) in ws) <==> !(0 <= f.planenum < b.numPlanes))
            && ((Problem(NegativeLightofs, i) in ws || Problem(LightofsOutOfRange, i) in ws)
                <==> !((if r.AsWritten? then 0 else -1) <= f.lightofs < b.lightdataSize))
            && ((Problem(NegativeFirstedge, i) in ws || Problem(TooFewEdges, i) in ws || Problem(EdgesOutOfRange, i) in ws)
                <==> !(0 <= f.firstedge && 3 <= f.numedges && f.firstedge + f.numedges <= |b.surfedges|))
  {
    var cs := FaceChecks(b, i, r);
    FaceCheckReported(b, i, cs[0], r);
    FaceCheckReported(b, i, cs[1], r);
    FaceCheckReported(b, i, cs[2], r);
    FaceCheckReported(b, i, cs[3], r);
    FaceCheckReported(b, i, cs[4], r);
    FaceCheckReported(b, i, cs[5], r);
    FaceCheckReported(b, i, cs[6], r);
    FaceCheckReported(b, i, cs[7], r);
    FaceCheckReported(b, i, cs[8], r);
  }

  /** A face without a lightmap is reported out of range by the check as written,
    * and not by the intended one. */
  lemma UnlitFaceReported(b: Bsp, i: nat)
    requires i < |b.faces| && b.faces[i].lightofs == -1
    ensures Problem(LightofsOutOfRange, i) in FacesUpTo(b, |b.faces|, AsWritten)
    ensures Problem(LightofsOutOfRange, i) !in FacesUpTo(b, |b.faces|, Intended)
  {
    FaceCheckReported(b, i, FaceChecks(b, i, AsWritten)[5], AsWritten);
    FaceCheckReported(b, i, FaceChecks(b, i, Intended)[5], Intended);
  }

  /** The warnings of the first n edges, one entry per element. */
  function EdgeTable(b: Bsp, n: nat, r: Reading): (t: seq<seq<Warning>>)
    requires n <= |b.edges|
    ensures |t| == n && forall k :: 0 <= k < n ==> t[k] == EdgeWarnings(b, k, r)
  {
    if n == 0 then [] else EdgeTable(b, n - 1, r) + [EdgeWarnings(b, n - 1, r)]
  }

  lemma {:induction false} EdgesFlat(b: Bsp, n: nat, r: Reading)
    requires n <= |b.edges|
    ensures EdgesUpTo(b, n, r) == Flatten(EdgeTable(b, n, r))
  {
    if n > 0 {
      EdgesFlat(b, n - 1, r);
      FlattenSnoc(EdgeTable(b, n - 1, r), EdgeWarnings(b, n - 1, r));
    }
  }

  /** A warning about edge i is in the edge section exactly when edge i prints it. */
  lemma EdgeChecksAbout(b: Bsp, i: nat, r: Reading)
    requires i < |b.edges|
    ensures About(EdgeChecks(b, i, r), i)
  {
  }

  lemma EdgeChecksSole(b: Bsp, i: nat, c: Check, r: Reading)
    requires i < |b.edges| && c in EdgeChecks(b, i, r)
    ensures Sole(EdgeChecks(b, i, r), c)
  {
  }

  lemma EdgesListed(b: Bsp, i: nat, w: Warning, r: Reading)
    requires i < |b.edges| && Subject(w) == i
    ensures w in EdgesUpTo(b, |b.edges|, r) <==> w in EdgeWarnings(b, i, r)
  {
    var t := EdgeTable(b, |b.edges|, r);
    forall k, v | 0 <= k < |t| && v in t[k]
      ensures Subject(v) == k
    {
      EdgeChecksAbout(b, k, r);
      PrintedAbout(EdgeChecks(b, k, r), k, v);
    }
    EdgesFlat(b, |b.edges|, r);
    FlattenListed(t, i, w);
  }

  /** A check of edge i is reported exactly when it fails. */
  lemma EdgeCheckReported(b: Bsp, i: nat, c: Check, r: Reading)
    requires i < |b.edges| && c in EdgeChecks(b, i, r)
    ensures c.warning in EdgesUpTo(b, |b.edges|, r) <==> c.fails
  {
    EdgeChecksAbout(b, i, r);
    EdgesListed(b, i, c.warning, r);
    EdgeChecksSole(b, i, c, r);
    PrintedHas(EdgeChecks(b, i, r), c);
  }

  /** Edge i is reported on a side exactly when that vertex number indexes past
    * the vertex lump (intended), or past the first number beyond it (as written). */
  lemma EdgeSection(b: Bsp, i: nat, r: Reading)
    requires i < |b.edges|
    ensures var ws := EdgesUpTo(b, |b.edges|, r);
            var last := if r.AsWritten? then b.numVertexes else b.numVertexes - 1;
            && (Problem(VertexOutOfRange(0), i) in ws <==> b.edges[i].v0 > last)
            && (Problem(VertexOutOfRange(1), i) in ws <==> b.edges[i].v1 > last)
  {
    var cs := EdgeChecks(b, i, r);
    EdgeCheckReported(b, i, cs[0], r);
    EdgeCheckReported(b, i, cs[1], r);
  }

  /** The warnings of the first n leafs, one entry per element. */
  function LeafTable(b: Bsp, n: nat, r: Reading): (t: seq<seq<Warning>>)
    requires n <= |b.leafs|
    ensures |t| == n && forall k :: 0 <= k < n ==> t[k] == LeafWarnings(b, k, r)
  {
    if n == 0 then [] else LeafTable(b, n - 1, r) + [LeafWarnings(b, n - 1, r)]
  }

  lemma {:induction false} LeafsFlat(b: Bsp, n: nat, r: Reading)
    requires n <= |b.leafs|
    ensures LeafsUpTo(b, n, r) == Flatten(LeafTable(b, n, r))
  {
    if n > 0 {
      LeafsFlat(b, n - 1, r);
      FlattenSnoc(LeafTable(b, n - 1, r), LeafWarnings(b, n - 1, r));
    }
  }

  /** A warning about leaf i is in the leaf section exactly when leaf i prints it. */
  lemma LeafChecksAbout(b: Bsp, i: nat, r: Reading)
    requires i < |b.leafs|
    ensures About(LeafChecks(b, i, r), i)
  {
  }

  lemma LeafChecksSole(b: Bsp, i: nat, c: Check, r: Reading)
    requires i < |b.leafs| && c in LeafChecks(b, i, r)
    ensures Sole(LeafChecks(b, i, r), c)
  {
  }

  lemma LeafsListed(b: Bsp, i: nat, w: Warning, r: Reading)
    requires i < |b.leafs| && Subject(w) == i
    ensures w in LeafsUpTo(b, |b.leafs|, r) <==> w in LeafWarnings(b, i, r)
  {
    var t := LeafTable(b, |b.leafs|, r);
    forall k, v | 0 <= k < |t| && v in t[k]
      ensures Subject(v) == k
    {
      LeafChecksAbout(b, k, r);
      PrintedAbout(LeafChecks(b, k, r), k, v);
    }
    LeafsFlat(b, |b.leafs|, r);
    FlattenListed(t, i, w);
  }

  /** A check of leaf i is reported exactly when it fails. */
  lemma LeafCheckReported(b: Bsp, i: nat, c: Check, r: Reading)
    requires i < |b.leafs| && c in LeafChecks(b, i, r)
    ensures c.warning in LeafsUpTo(b, |b.leafs|, r) <==> c.fails
  {
    LeafChecksAbout(b, i, r);
    LeafsListed(b, i, c.warning, r);
    LeafChecksSole(b, i, c, r);
    PrintedHas(LeafChecks(b, i, r), c);
  }

  /** Leaf i is reported for its vis offset exactly when the offset is neither -1
    * nor inside the visdata; a marksurface range inside the lump is never reported,
    * and one past it is reported unless its end wraps around 32 bits. */
  lemma LeafSection(b: Bsp, i: nat, r: Reading)
    requires i < |b.leafs|
    ensures var ws := LeafsUpTo(b, |b.leafs|, r);
            var l := b.leafs[i];
            && ((Problem(NegativeVisofs, i) in ws || Problem(VisofsOutOfRange, i) in ws)
                <==> !((if r.AsWritten? then 0 else -1) <= l.visofs < b.visdataSize))
            && (l.firstmarksurface + l.nummarksurfaces <= |b.leaffaces| ==> Problem(LeafMarksurfacesOutOfRange, i) !in ws)
            && (|b.leaffaces| < l.firstmarksurface + l.nummarksurfaces < 0x1_0000_0000 ==> Problem(LeafMarksurfacesOutOfRange, i) in ws)
  {
    var cs := LeafChecks(b, i, r);
    LeafCheckReported(b, i, cs[0], r);
    LeafCheckReported(b, i, cs[1], r);
    LeafCheckReported(b, i, cs[2], r);
  }

  /** A leaf without visdata is reported out of range by the check as written,
    * and not by the intended one. */
  lemma NoVisLeafReported(b: Bsp, i: nat)
    requires i < |b.leafs| && b.leafs[i].visofs == -1
    ensures Problem(VisofsOutOfRange, i) in LeafsUpTo(b, |b.leafs|, AsWritten)
    ensures Problem(VisofsOutOfRange, i) !in LeafsUpTo(b, |b.leafs|, Intended)
  {
    LeafCheckReported(b, i, LeafChecks(b, i, AsWritten)[2], AsWritten);
    LeafCheckReported(b, i, LeafChecks(b, i, Intended)[2], Intended);
  }

  /** The warnings of the first n nodes, one entry per element. */
  function NodeTable(b: Bsp, n: nat): (t: seq<seq<Warning>>)
    requires n <= |b.nodes|
    ensures |t| == n && forall k :: 0 <= k < n ==> t[k] == NodeWarnings(b, k)
  {
    if n == 0 then [] else NodeTable(b, n - 1) + [NodeWarnings(b, n - 1)]
  }

  lemma {:induction false} NodesFlat(b: Bsp, n: nat)
    requires n <= |b.nodes|
    ensures NodesUpTo(b, n) == Flatten(NodeTable(b, n))
  {
    if n > 0 {
      NodesFlat(b, n - 1);
      FlattenSnoc(NodeTable(b, n - 1), NodeWarnings(b, n - 1));
    }
  }

  /** A warning about node i is in the node section exactly when node i prints it. */
  lemma NodeChecksAbout(b: Bsp, i: nat)
    requires i < |b.nodes|
    ensures About(NodeChecks(b, i), i)
  {
  }

  lemma NodeChecksSole(b: Bsp, i: nat, c: Check)
    requires i < |b.nodes| && c in NodeChecks(b, i)
    ensures Sole(NodeChecks(b, i), c)
  {
  }

  lemma NodesListed(b: Bsp, i: nat, w: Warning)
    requires i < |b.nodes| && Subject(w) == i
    ensures w in NodesUpTo(b, |b.nodes|) <==> w in NodeWarnings(b, i)
  {
    var t := NodeTable(b, |b.nodes|);
    forall k, v | 0 <= k < |t| && v in t[k]
      ensures Subject(v) == k
    {
      NodeChecksAbout(b, k);
      PrintedAbout(NodeChecks(b, k), k, v);
    }
    NodesFlat(b, |b.nodes|);
    FlattenListed(t, i, w);
  }

  /** A check of node i is reported exactly when it fails. */
  lemma NodeCheckReported(b: Bsp, i: nat, c: Check)
    requires i < |b.nodes| && c in NodeChecks(b, i)
    ensures c.warning in NodesUpTo(b, |b.nodes|) <==> c.fails
  {
    NodeChecksAbout(b, i);
    NodesListed(b, i, c.warning);
    NodeChecksSole(b, i, c);
    PrintedHas(NodeChecks(b, i), c);
  }

  /** Node i is reported on a side exactly when that child indexes past the node
    * lump or the leaf lump, and for equal children exactly when they are equal. */
  lemma NodeSection(b: Bsp, i: nat)
    requires i < |b.nodes|
    ensures var ws := NodesUpTo(b, |b.nodes|);
            var n := b.nodes[i];
            && ((Problem(NodeChildOutOfRange(0), i) in ws || Problem(NodeLeafOutOfRange(0), i) in ws)
                <==> !(if n.child0 >= 0 then n.child0 < |b.nodes| else -1 - n.child0 < |b.leafs|))
            && ((Problem(NodeChildOutOfRange(1), i) in ws || Problem(NodeLeafOutOfRange(1), i) in ws)
                <==> !(if n.child1 >= 0 then n.child1 < |b.nodes| else -1 - n.child1 < |b.leafs|))
            && (Problem(NodeSameChildren, i) in ws <==> n.child0 == n.child1)
  {
    var cs := NodeChecks(b, i);
    NodeCheckReported(b, i, cs[0]);
    NodeCheckReported(b, i, cs[1]);
    NodeCheckReported(b, i, cs[2]);
    NodeCheckReported(b, i, cs[3]);
    NodeCheckReported(b, i, cs[4]);
  }

  // The loops of CheckBSPFile, one per lump; each appends the warnings its
  // element prints (the conditional prints are the Warn terms of the functions above).

  method CheckFaces(b: Bsp, r: Reading) returns (ws: seq<Warning>, texRefs: set<int>, planeRefs: set<int>)
    ensures ws == FacesUpTo(b, |b.faces|, r)
    ensures texRefs == TexinfoRefs(b)
    ensures planeRefs == FacePlanesUpTo(b.faces, |b.faces|)
  {
    ws, texRefs, planeRefs := [], {}, {};
    var i := 0;
    while i < |b.faces|
      invariant i <= |b.faces|
      invariant ws == FacesUpTo(b, i, r)
      invariant texRefs == TexinfosUpTo(b.faces, i)
      invariant planeRefs == FacePlanesUpTo(b.faces, i)
    {
      texRefs := texRefs + {b.faces[i].texinfo};
      planeRefs := planeRefs + {b.faces[i].planenum};
      ws := ws + FaceWarnings(b, i, r);
      i := i + 1;
    }
  }

  method CheckEdges(b: Bsp, r: Reading) returns (ws: seq<Warning>, vertRefs: set<int>)
    ensures ws == EdgesUpTo(b, |b.edges|, r)
    ensures vertRefs == VertexRefs(b)
  {
    ws, vertRefs := [], {};
    var i := 0;
    while i < |b.edges|
      invariant i <= |b.edges|
      invariant ws == EdgesUpTo(b, i, r)
      invariant vertRefs == VertexesUpTo(b.edges, i)
    {
      var e := b.edges[i];
      ws := ws + EdgeWarnings(b, i, r);
      vertRefs := vertRefs + {e.v0 as int, e.v1 as int};
      i := i + 1;
    }
  }

  method CheckSurfedges(b: Bsp) returns (ws: seq<Warning>)
    ensures ws == SurfedgesUpTo(b, |b.surfedges|)
  {
    ws := [];
    var i := 0;
    while i < |b.surfedges|
      invariant i <= |b.surfedges|
      invariant ws == SurfedgesUpTo(b, i)
    {
      ws := ws + SurfedgeWarnings(b, i);
      i := i + 1;
    }
  }

  method CheckMarksurfaces(b: Bsp) returns (ws: seq<Warning>)
    ensures ws == MarksurfacesUpTo(b, |b.leaffaces|)
  {
    ws := [];
    var i := 0;
    while i < |b.leaffaces|
      invariant i <= |b.leaffaces|
      invariant ws == MarksurfacesUpTo(b, i)
    {
      ws := ws + MarksurfaceWarnings(b, i);
      i := i + 1;
    }
  }

  method CheckLeafs(b: Bsp, r: Reading) returns (ws: seq<Warning>)
    ensures ws == LeafsUpTo(b, |b.leafs|, r)
  {
    ws := [];
    var i := 0;
    while i < |b.leafs|
      invariant i <= |b.leafs|
      invariant ws == LeafsUpTo(b, i, r)
    {
      ws := ws + LeafWarnings(b, i, r);
      i := i + 1;
    }
  }

  method CheckNodes(b: Bsp, planesIn: set<int>) returns (ws: seq<Warning>, planeRefs: set<int>)
    ensures ws == NodesUpTo(b, |b.nodes|)
    ensures planeRefs == planesIn + NodePlanesUpTo(b.nodes, |b.nodes|)
  {
    ws, planeRefs := [], planesIn;
    var i := 0;
    while i < |b.nodes|
      invariant i <= |b.nodes|
      invariant ws == NodesUpTo(b, i)
      invariant planeRefs == planesIn + NodePlanesUpTo(b.nodes, i)
    {
      ws := ws + NodeWarnings(b, i);
      planeRefs := planeRefs + {b.nodes[i].planenum};
      i := i + 1;
    }
  }

  method CheckClipnodes(b: Bsp, contentsMin: int, planesIn: set<int>) returns (ws: seq<Warning>, planeRefs: set<int>)
    ensures ws == ClipnodesUpTo(b, contentsMin, |b.clipnodes|)
    ensures planeRefs == planesIn + ClipPlanesUpTo(b.clipnodes, |b.clipnodes|)
  {
    ws, planeRefs := [], planesIn;
    var i := 0;
    while i < |b.clipnodes|
      invariant i <= |b.clipnodes|
      invariant ws == ClipnodesUpTo(b, contentsMin, i)
      invariant planeRefs == planesIn + ClipPlanesUpTo(b.clipnodes, i)
    {
      ws := ws + ClipnodeWarnings(b, contentsMin, i);
      planeRefs := planeRefs + {b.clipnodes[i].planenum};
      i := i + 1;
    }
  }

  /** The count of indices of a lump of the given size that are not referenced. */
  method CountUnreferenced(size: nat, refs: set<int>) returns (n: nat)
    ensures n == |Unreferenced(size, refs)|
  {
    n := 0;
    var i := 0;
    while i < size
      invariant i <= size
      invariant n == |Unreferenced(i, refs)|
    {
      if i !in refs {
        assert Unreferenced(i + 1, refs) == Unreferenced(i, refs) + {i};
        n := n + 1;
      } else {
        assert Unreferenced(i + 1, refs) == Unreferenced(i, refs);
      }
      i := i + 1;
    }
  }

  /** CheckBSPFile: every warning it prints, in order. The statistics it prints
    * afterwards (node heights, unique vis offsets, light styles) are not warnings
    * and are not part of the list. */
  method CheckBSPFile(b: Bsp, contentsMin: int) returns (ws: seq<Warning>)
    ensures ws == Report(b, contentsMin, AsWritten)
  {
    var faceWs, texRefs, planeRefs := CheckFaces(b, AsWritten);
    var edgeWs, vertRefs := CheckEdges(b, AsWritten);
    var surfWs := CheckSurfedges(b);
    var markWs := CheckMarksurfaces(b);
    var leafWs := CheckLeafs(b, AsWritten);
    var nodeWs, clipWs;
    nodeWs, planeRefs := CheckNodes(b, planeRefs);
    clipWs, planeRefs := CheckClipnodes(b, contentsMin, planeRefs);
    ws := faceWs + edgeWs + surfWs + markWs + leafWs + nodeWs + clipWs;
    var tex := CountUnreferenced(b.numTexinfo, texRefs);
    var planes := CountUnreferenced(b.numPlanes, planeRefs);
    var verts := CountUnreferenced(b.numVertexes, vertRefs);
    ws := ws + Printed(SummaryChecks(tex, planes, verts));
  }
}
