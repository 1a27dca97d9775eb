/**
 * Bookkeeping of the light tool around a face (light/ltface.cc): decoding a
 * leaf's PVS row, the surface PVS merged over its sample points, the table of
 * lightmaps by style, the style selection when a face is saved, the mottle
 * coordinate wrap and the alpha channel of the lightmap filters. Lighting
 * values themselves are not modelled.
 */
module LtFace {
  import opened Common
  import Trace

  // ---------------------------------------------------------------------------
  // PVS rows (DecompressedVisSize, Mod_Q1BSP_DecompressVis, Mod_LeafPvs,
  // Pvs_LeafVisible, CalcPvs)

  /** The visibility lump and the counts the PVS code reads from the bsp. */
  datatype VisData = VisData(
    isQ2: bool,
    pvsOffsets: seq<int>,  // Quake II: the PVS offset of each cluster
    bits: seq<byte>,        // the compressed rows
    visleafs: nat)         // dmodels[0].visleafs

  /** The PVS fields of a leaf and whether its contents are liquid. */
  datatype LeafInfo = LeafInfo(cluster: int, visofs: int, liquid: bool)

  /** The number of bits in a row: clusters in Quake II, visleafs otherwise. */
  function RowBits(vd: VisData): nat
  {
    if vd.isQ2 then |vd.pvsOffsets| else vd.visleafs
  }

  /** DecompressedVisSize: the fewest bytes that hold a row's bits. */
  function DecompressedVisSize(vd: VisData): (n: nat)
    ensures 8 * n >= RowBits(vd) && 8 * n < RowBits(vd) + 8
  {
    (RowBits(vd) + 7) / 8
  }

  /** n copies of the byte b. */
  function Fill(n: nat, b: byte): (r: seq<byte>)
    ensures |r| == n
  {
    seq(n, _ => b)
  }

  function ZeroBytes(n: nat): (r: seq<byte>)
    ensures |r| == n
  {
    Fill(n, 0)
  }

  function FFBytes(n: nat): (r: seq<byte>)
    ensures |r| == n
  {
    Fill(n, 0xFF)
  }

  /** The bytes Mod_Q1BSP_DecompressVis writes into an output of room bytes
      when reading from position i of input: a nonzero byte is copied, a zero
      byte and the count after it stand for that many zero bytes; it stops
      when the output is full or the input runs out, also in the middle of a
      zero run. */
  function Decode(input: seq<byte>, i: nat, room: nat): (r: seq<byte>)
    requires i <= |input|
    ensures |r| <= room
    decreases |input| - i
  {
    if room == 0 || i == |input| then []
    else if input[i] != 0 then [input[i]] + Decode(input, i + 1, room - 1)
    else if i + 1 == |input| then []
    else if input[i + 1] >= room then ZeroBytes(room)
    else ZeroBytes(input[i + 1]) + Decode(input, i + 2, room - input[i + 1])
  }

  /** The run-length expansion of input[i..] with unbounded output. */
  function Expand(input: seq<byte>, i: nat): seq<byte>
    requires i <= |input|
    decreases |input| - i
  {
    if i == |input| then []
    else if input[i] != 0 then [input[i]] + Expand(input, i + 1)
    else if i + 1 == |input| then []
    else ZeroBytes(input[i + 1]) + Expand(input, i + 2)
  }

  function Min(a: nat, b: nat): nat { if a <= b then a else b }

  /** The bounded decoder writes exactly the first room bytes of the
      expansion, or all of it when it is shorter. */
  lemma {:induction false} DecodeIsTruncatedExpand(input: seq<byte>, i: nat, room: nat)
    requires i <= |input|
    ensures Decode(input, i, room) == Expand(input, i)[..Min(room, |Expand(input, i)|)]
    decreases |input| - i
  {
    if room == 0 || i == |input| {
    } else if input[i] != 0 {
      DecodeIsTruncatedExpand(input, i + 1, room - 1);
      var e := Expand(input, i + 1);
      assert ([input[i]] + e)[..Min(room, 1 + |e|)] == [input[i]] + e[..Min(room - 1, |e|)];
    } else if i + 1 == |input| {
    } else {
      var n := input[i + 1];
      var e := Expand(input, i + 2);
      if n >= room {
        assert (ZeroBytes(n) + e)[..room] == ZeroBytes(room);
      } else {
        DecodeIsTruncatedExpand(input, i + 2, room - n);
        assert (ZeroBytes(n) + e)[..Min(room, n + |e|)] == ZeroBytes(n) + e[..Min(room - n, |e|)];
      }
    }
  }

  /** Mod_Q1BSP_DecompressVis with in at position start of input and inend
      at its end: decode into out, never past its end; bytes it does not
      reach keep their old value. */
  method DecompressVis(input: seq<byte>, start: nat, out: array<byte>)
    requires start <= |input|
    modifies out
    ensures out[..] == Decode(input, start, out.Length) + old(out[..])[|Decode(input, start, out.Length)|..]
  {
    ghost var target := Decode(input, start, out.Length);
    ghost var before := out[..];
    var i := start;
    var o := 0;
    var stop := false;
    while !stop && o < out.Length
      invariant start <= i <= |input| && 0 <= o <= out.Length
      invariant !stop ==> out[..o] + Decode(input, i, out.Length - o) == target
      invariant stop ==> out[..o] == target
      invariant out[o..] == before[o..]
      decreases |input| - i, if stop then 0 else 1
    {
      if i == |input| {
        // input underrun
        assert out[..o] == target;
        stop := true;
      } else {
        ghost var w := out[..];
        var o' := o;
        i, o', stop := DecodeToken(input, i, out, o);
        assert w[o'..] == w[o..][o' - o..] == before[o..][o' - o..] == before[o'..];
        o := o';
      }
    }
    if !stop {
      assert Decode(input, i, out.Length - o) == [];
    }
    assert out[..] == out[..o] + out[o..];
  }

  /** One step of Mod_Q1BSP_DecompressVis: copy a nonzero byte, or write a
      zero run of the length the next byte gives; stop is set when the input
      ends inside the run or the run reaches the end of out. */
  method DecodeToken(input: seq<byte>, i: nat, out: array<byte>, o: nat) returns (i': nat, o': nat, stop: bool)
    requires i < |input| && o < out.Length
    modifies out
    ensures i < i' <= |input| && o <= o' <= out.Length
    ensures !stop ==> out[..o'] + Decode(input, i', out.Length - o') == old(out[..o]) + Decode(input, i, out.Length - o)
    ensures stop ==> out[..o'] == old(out[..o]) + Decode(input, i, out.Length - o)
    ensures out[o'..] == old(out[o'..])
  {
    if input[i] != 0 {
      o' := CopyLiteral(input, i, out, o);
      i', stop := i + 1, false;
    } else if i + 1 == |input| {
      // underrun during a zero run
      assert Decode(input, i, out.Length - o) == [];
      i', o', stop := i + 1, o, true;
    } else {
      o' := ZeroRun(input, i, out, o);
      i', stop := i + 2, o' == out.Length;
    }
  }

  method CopyLiteral(input: seq<byte>, i: nat, out: array<byte>, o: nat) returns (o': nat)
    requires i < |input| && input[i] != 0 && o < out.Length
    modifies out
    ensures o' == o + 1
    ensures out[..o'] + Decode(input, i + 1, out.Length - o') == old(out[..o]) + Decode(input, i, out.Length - o)
    ensures out[o'..] == old(out[o'..])
  {
    ghost var pre := out[..o];
    ghost var rest := Decode(input, i + 1, out.Length - o - 1);
    assert Decode(input, i, out.Length - o) == [input[i]] + rest;
    o' := WriteRun(out, o, input[i], 1);
    assert Fill(1, input[i]) == [input[i]];
    assert (pre + [input[i]]) + rest == pre + ([input[i]] + rest);
  }

  /** A zero byte and its count: the run is cut at the end of out. */
  method ZeroRun(input: seq<byte>, i: nat, out: array<byte>, o: nat) returns (o': nat)
    requires i + 1 < |input| && input[i] == 0 && o < out.Length
    modifies out
    ensures o <= o' <= out.Length
    ensures o' == out.Length ==> out[..o'] == old(out[..o]) + Decode(input, i, out.Length - o)
    ensures o' < out.Length ==>
      out[..o'] + Decode(input, i + 2, out.Length - o') == old(out[..o]) + Decode(input, i, out.Length - o)
    ensures out[o'..] == old(out[o'..])
  {
    ghost var pre := out[..o];
    ghost var room := out.Length - o;
    var n := input[i + 1];
    DecodeZeroRun(input, i, room);
    o' := WriteRun(out, o, 0, n);
    if n >= room {
    } else {
      ghost var rest := Decode(input, i + 2, room - n);
      assert (pre + ZeroBytes(n)) + rest == pre + (ZeroBytes(n) + rest);
    }
  }

  lemma DecodeZeroRun(input: seq<byte>, i: nat, room: nat)
    requires i + 1 < |input| && input[i] == 0 && room > 0
    ensures input[i + 1] >= room ==> Decode(input, i, room) == ZeroBytes(room)
    ensures input[i + 1] < room ==>
      Decode(input, i, room) == ZeroBytes(input[i + 1]) + Decode(input, i + 2, room - input[i + 1])
  {
  }

  /** Write n copies of b from position o on, stopping at the end of out. */
  method WriteRun(out: array<byte>, o: nat, b: byte, n: nat) returns (o': nat)
    requires o < out.Length
    modifies out
    ensures o' == Min(o + n, out.Length)
    ensures out[..o'] == old(out[..o]) + Fill(o' - o, b)
    ensures out[o'..] == old(out[o'..])
  {
    o' := o;
    var k := n;
    while k > 0 && o' < out.Length
      invariant o <= o' <= out.Length && o' - o + k == n
      invariant out[..o'] == old(out[..o]) + Fill(o' - o, b)
      invariant out[o'..] == old(out[o'..])
    {
      ghost var w := out[..o'];
      out[o'] := b;
      assert Fill(o' + 1 - o, b) == Fill(o' - o, b) + [b];
      assert out[..o' + 1] == w + [b];
      o' := o' + 1;
      k := k - 1;
    }
  }

  /** Whether Mod_LeafPvs finds a row for the leaf; leafnum is the leaf's index
      in dleafs. A negative Quake II offset compares as a huge unsigned value
      and is rejected with the others. */
  predicate HasRow(vd: VisData, leaf: LeafInfo, leafnum: int)
  {
    if vd.isQ2 then
      leaf.cluster >= 0 && leaf.cluster < |vd.pvsOffsets| &&
      0 <= vd.pvsOffsets[leaf.cluster] < |vd.bits|
    else
      leaf.visofs >= 0 && 0 <= leafnum - 1 < vd.visleafs && leaf.visofs < |vd.bits|
  }

  function RowStart(vd: VisData, leaf: LeafInfo, leafnum: int): (s: nat)
    requires HasRow(vd, leaf, leafnum)
    ensures s < |vd.bits|
  {
    if vd.isQ2 then vd.pvsOffsets[leaf.cluster] else leaf.visofs
  }

  /** The row Mod_LeafPvs leaves in its output: all visible when there is no
      row, otherwise the decoded row over an all-visible background. */
  function PvsRow(vd: VisData, leaf: LeafInfo, leafnum: int): (r: seq<byte>)
    ensures |r| == DecompressedVisSize(vd)
  {
    var n := DecompressedVisSize(vd);
    if !HasRow(vd, leaf, leafnum) then FFBytes(n)
    else
      var d := Decode(vd.bits, RowStart(vd, leaf, leafnum), n);
      d + FFBytes(n)[|d|..]
  }

  /** Mod_LeafPvs. */
  method LeafPvs(vd: VisData, leaf: LeafInfo, leafnum: int, out: array<byte>) returns (ok: bool)
    requires out.Length == DecompressedVisSize(vd)
    modifies out
    ensures ok == HasRow(vd, leaf, leafnum)
    ensures out[..] == PvsRow(vd, leaf, leafnum)
    ensures !ok ==> forall j :: 0 <= j < out.Length ==> out[j] == 0xFF
  {
    var n := out.Length;
    var j := 0;
    while j < n
      invariant 0 <= j <= n
      invariant forall k :: 0 <= k < j ==> out[k] == 0xFF
    {
      out[j] := 0xFF;
      j := j + 1;
    }
    assert out[..] == FFBytes(n);
    if vd.isQ2 {
      if leaf.cluster < 0 {
        return false;
      }
      if leaf.cluster >= |vd.pvsOffsets| || vd.pvsOffsets[leaf.cluster] < 0 ||
         vd.pvsOffsets[leaf.cluster] >= |vd.bits| {
        return false;
      }
      DecompressVis(vd.bits, vd.pvsOffsets[leaf.cluster], out);
    } else {
      if leaf.visofs < 0 {
        return false;
      }
      var visleaf := leafnum - 1;
      if visleaf < 0 || visleaf >= vd.visleafs {
        return false;
      }
      if leaf.visofs >= |vd.bits| {
        return false;
      }
      DecompressVis(vd.bits, leaf.visofs, out);
    }
    return true;
  }

  /** Pvs_LeafVisible: the leaf's bit in a row, false for a leaf without vis data. */
  function LeafVisible(vd: VisData, pvs: seq<byte>, leaf: LeafInfo, leafnum: int): (b: bool)
    requires |pvs| == DecompressedVisSize(vd)
    ensures b ==> (if vd.isQ2 then HasRow(vd, leaf, leafnum) else 0 <= leafnum - 1 < vd.visleafs)
  {
    if vd.isQ2 then
      if leaf.cluster < 0 then false
      else if leaf.cluster >= |vd.pvsOffsets| || vd.pvsOffsets[leaf.cluster] < 0 ||
              vd.pvsOffsets[leaf.cluster] >= |vd.bits| then false
      else RowBit(pvs, leaf.cluster)
    else
      var visleaf := leafnum - 1;
      if visleaf < 0 || visleaf >= vd.visleafs then false
      else RowBit(pvs, visleaf)
  }

  /** An all-visible row sees exactly the leaves that have vis data, and an
      all-clear row sees none. */
  lemma LeafVisibleExtremes(vd: VisData, leaf: LeafInfo, leafnum: int)
    ensures LeafVisible(vd, FFBytes(DecompressedVisSize(vd)), leaf, leafnum) <==>
            (if vd.isQ2 then HasRow(vd, leaf, leafnum) else 0 <= leafnum - 1 < vd.visleafs)
    ensures !LeafVisible(vd, ZeroBytes(DecompressedVisSize(vd)), leaf, leafnum)
  {
    var n := DecompressedVisSize(vd);
    if vd.isQ2 {
      if 0 <= leaf.cluster < |vd.pvsOffsets| {
        RowBitOfFill(n, leaf.cluster);
      }
    } else if 0 <= leafnum - 1 < vd.visleafs {
      RowBitOfFill(n, leafnum - 1);
    }
  }

  lemma RowBitOfFill(n: nat, i: nat)
    requires i < 8 * n
    ensures RowBit(FFBytes(n), i) && !RowBit(ZeroBytes(n), i)
  {
    var k := i / 8;
    assert k < n;
    assert FFBytes(n)[k] == 255 && ZeroBytes(n)[k] == 0;
    BitOfFF(i % 8);
  }

  lemma BitOfFF(k: nat)
    requires k < 8
    ensures (255 / Pow2(k)) % 2 == 1
  {
    assert Pow2(0) == 1 && Pow2(1) == 2 && Pow2(2) == 4 && Pow2(3) == 8;
    assert Pow2(4) == 16 && Pow2(5) == 32 && Pow2(6) == 64 && Pow2(7) == 128;
  }

  /** The bitwise OR of two bytes. */
  function OrByte(a: byte, b: byte): (r: byte)
  {
    ((a as bv8) | (b as bv8)) as byte
  }

  /** ORing with 0xFF gives 0xFF, and ORing the same byte twice is ORing once. */
  lemma OrByteLaws(a: byte, b: byte)
    ensures OrByte(a, 0xFF) == 0xFF
    ensures OrByte(OrByte(a, b), b) == OrByte(a, b)
  {
    var c := (a as bv8) | (b as bv8);
    assert (c as byte) as bv8 == c;
    assert c | (b as bv8) == c;
  }

  function OrBytes(a: seq<byte>, b: seq<byte>): (r: seq<byte>)
    requires |a| == |b|
    ensures |r| == |a| && forall j :: 0 <= j < |a| ==> r[j] == OrByte(a[j], b[j])
  {
    seq(|a|, j requires 0 <= j < |a| => OrByte(a[j], b[j]))
  }

  lemma OrBytesLaws(a: seq<byte>, b: seq<byte>)
    requires |a| == |b|
    ensures OrBytes(a, FFBytes(|a|)) == FFBytes(|a|)
    ensures OrBytes(OrBytes(a, b), b) == OrBytes(a, b)
  {
    forall j | 0 <= j < |a| {
      OrByteLaws(a[j], b[j]);
    }
  }

  /** The surface PVS after visiting the leaves ls in order, with last the leaf
      visited just before: a repeat of the previous leaf is skipped, a liquid
      leaf makes every byte 0xFF and ends the scan, any other leaf ORs its row in. */
  function MergeRows(vd: VisData, leafs: seq<LeafInfo>, ls: seq<nat>, last: int, acc: seq<byte>): (r: seq<byte>)
    requires |acc| == DecompressedVisSize(vd)
    requires forall k :: 0 <= k < |ls| ==> ls[k] < |leafs|
    ensures |r| == |acc|
    decreases |ls|
  {
    if ls == [] then acc
    else if ls[0] == last then MergeRows(vd, leafs, ls[1..], last, acc)
    else if leafs[ls[0]].liquid then OrBytes(acc, FFBytes(|acc|))
    else MergeRows(vd, leafs, ls[1..], ls[0], OrBytes(acc, PvsRow(vd, leafs[ls[0]], ls[0])))
  }

  /** The row of every leaf in ls ORed into acc, repeats and all. */
  function OrAll(vd: VisData, leafs: seq<LeafInfo>, ls: seq<nat>, acc: seq<byte>): (r: seq<byte>)
    requires |acc| == DecompressedVisSize(vd)
    requires forall k :: 0 <= k < |ls| ==> ls[k] < |leafs|
    ensures |r| == |acc|
    decreases |ls|
  {
    if ls == [] then acc else OrAll(vd, leafs, ls[1..], OrBytes(acc, PvsRow(vd, leafs[ls[0]], ls[0])))
  }

  /** Skipping a repeated leaf loses nothing: without liquid leaves the
      merged PVS is the OR of the rows of all visited leaves. */
  lemma {:induction false} MergeRowsIsOrAll(vd: VisData, leafs: seq<LeafInfo>, ls: seq<nat>, last: int, acc: seq<byte>)
    requires |acc| == DecompressedVisSize(vd)
    requires forall k :: 0 <= k < |ls| ==> ls[k] < |leafs| && !leafs[ls[k]].liquid
    requires 0 <= last < |leafs| ==> OrBytes(acc, PvsRow(vd, leafs[last], last)) == acc
    ensures MergeRows(vd, leafs, ls, last, acc) == OrAll(vd, leafs, ls, acc)
    decreases |ls|
  {
    if ls != [] {
      var row := PvsRow(vd, leafs[ls[0]], ls[0]);
      var acc' := OrBytes(acc, row);
      OrBytesLaws(acc, row);
      if ls[0] == last {
        assert acc' == acc;
      }
      MergeRowsIsOrAll(vd, leafs, ls[1..], ls[0], acc');
    }
  }

  /** A liquid leaf among the visited ones makes the whole surface PVS visible. */
  lemma {:induction false} MergeRowsLiquid(vd: VisData, leafs: seq<LeafInfo>, ls: seq<nat>, last: int, acc: seq<byte>, k: nat)
    requires |acc| == DecompressedVisSize(vd)
    requires forall k :: 0 <= k < |ls| ==> ls[k] < |leafs|
    requires k < |ls| && leafs[ls[k]].liquid && (0 <= last < |leafs| ==> !leafs[last].liquid)
    ensures MergeRows(vd, leafs, ls, last, acc) == FFBytes(|acc|)
    decreases |ls|
  {
    if ls[0] == last {
      MergeRowsLiquid(vd, leafs, ls[1..], last, acc, k - 1);
    } else if leafs[ls[0]].liquid {
      OrBytesLaws(acc, FFBytes(|acc|));
    } else {
      MergeRowsLiquid(vd, leafs, ls[1..], ls[0], OrBytes(acc, PvsRow(vd, leafs[ls[0]], ls[0])), k - 1);
    }
  }

  /** The leaf of every sample point, found by descending the tree. */
  function PointLeaves(nodes: seq<Trace.DNode>, leafs: seq<LeafInfo>, pointDists: seq<seq<real>>): (ls: seq<nat>)
    requires forall i :: 0 <= i < |pointDists| ==> Trace.Tree(nodes, |leafs|, pointDists[i])
    ensures |ls| == |pointDists| && forall k :: 0 <= k < |ls| ==> ls[k] < |leafs|
  {
    seq(|pointDists|, i requires 0 <= i < |pointDists| => Trace.Descend(nodes, |leafs|, pointDists[i], 0))
  }

  /** The surface PVS CalcPvs computes: empty without visibility data. */
  function SurfacePvs(vd: VisData, nodes: seq<Trace.DNode>, leafs: seq<LeafInfo>, pointDists: seq<seq<real>>): seq<byte>
    requires forall i :: 0 <= i < |pointDists| ==> Trace.Tree(nodes, |leafs|, pointDists[i])
  {
    if |vd.bits| == 0 then []
    else MergeRows(vd, leafs, PointLeaves(nodes, leafs, pointDists), -1, ZeroBytes(DecompressedVisSize(vd)))
  }

  /** CalcPvs: sample point i lies in the leaf found by descending with its
      plane distances pointDists[i]. */
  method CalcPvs(vd: VisData, nodes: seq<Trace.DNode>, leafs: seq<LeafInfo>, pointDists: seq<seq<real>>)
    returns (pvs: seq<byte>)
    requires forall i :: 0 <= i < |pointDists| ==> Trace.Tree(nodes, |leafs|, pointDists[i])
    ensures pvs == SurfacePvs(vd, nodes, leafs, pointDists)
  {
    var pvssize := DecompressedVisSize(vd);
    pvs := [];
    if |vd.bits| == 0 {
      return;
    }
    var pointpvs := new byte[pvssize];
    pvs := ZeroBytes(pvssize);
    ghost var ls := PointLeaves(nodes, leafs, pointDists);
    var lastleaf: int := -1;
    var i := 0;
    while i < |pointDists|
      invariant 0 <= i <= |pointDists| && |pvs| == pvssize
      invariant MergeRows(vd, leafs, ls[i..], lastleaf, pvs) == SurfacePvs(vd, nodes, leafs, pointDists)
    {
      var leaf := Trace.PointInLeaf(nodes, |leafs|, pointDists[i]);
      assert ls[i..][0] == leaf && ls[i..][1..] == ls[i + 1..];
      if leaf == lastleaf {
        i := i + 1;
        continue;
      }
      var prev := lastleaf;
      lastleaf := leaf;
      var _ := LeafPvs(vd, leafs[leaf], leaf, pointpvs);
      if leafs[leaf].liquid {
        var j := 0;
        var merged := pvs;
        while j < pvssize
          invariant 0 <= j <= pvssize && |merged| == pvssize
          invariant forall k :: 0 <= k < pvssize ==> merged[k] == if k < j then OrByte(pvs[k], 0xFF) else pvs[k]
        {
          merged := merged[j := OrByte(merged[j], 0xFF)];
          j := j + 1;
        }
        assert merged == OrBytes(pvs, FFBytes(pvssize));
        assert MergeRows(vd, leafs, ls[i..], prev, pvs) == merged;
        pvs := merged;
        return;
      }
      var j := 0;
      var merged := pvs;
      while j < pvssize
        invariant 0 <= j <= pvssize && |merged| == pvssize
        invariant forall k :: 0 <= k < pvssize ==> merged[k] == if k < j then OrByte(pvs[k], pointpvs[k]) else pvs[k]
      {
        merged := merged[j := OrByte(merged[j], pointpvs[j])];
        j := j + 1;
      }
      assert merged == OrBytes(pvs, PvsRow(vd, leafs[leaf], leaf));
      pvs := merged;
      i := i + 1;
    }
  }

  // ---------------------------------------------------------------------------
  // The lightmaps of a face, one per light style (Lightmap_AllocOrClear,
  // Lightmap_ForStyle, Lightmap_ClearAll, Lightmap_Save)

  /** The style number of a lightmap that has not been saved. The value comes
      from bspfile.hh, which is not part of this model. */
  const INVALID_LIGHTSTYLE: int := 0xffff
  /** The one-byte marker the face's style array of the base format uses. */
  const INVALID_LIGHTSTYLE_OLD: int := 0xff
  /** The style slots of a face in the base format and in the supplementary
      LMSTYLE16 lump, also from bspfile.hh. */
  const MAXLIGHTMAPS: nat := 4
  const MAXLIGHTMAPSSUP: nat := 16

  datatype Vec3 = Vec3(x: real, y: real, z: real)

  /** lightsample_t: an accumulated color and light direction. */
  datatype LightSample = LightSample(color: Vec3, direction: Vec3)

  const EMPTY_SAMPLE: LightSample := LightSample(Vec3(0.0, 0.0, 0.0), Vec3(0.0, 0.0, 0.0))

  datatype Lightmap = Lightmap(style: int, samples: seq<LightSample>)

  function Samples(n: nat): (r: seq<LightSample>)
    ensures |r| == n
  {
    seq(n, _ => EMPTY_SAMPLE)
  }

  /** The first slot holding style, before position from on. */
  function FindStyle(maps: seq<Lightmap>, style: int, from: nat): (r: Option<nat>)
    requires from <= |maps|
    ensures r.Some? ==> from <= r.value < |maps| && maps[r.value].style == style &&
                        forall j :: from <= j < r.value ==> maps[j].style != style
    ensures r.None? ==> forall j :: from <= j < |maps| ==> maps[j].style != style
    decreases |maps| - from
  {
    if from == |maps| then None
    else if maps[from].style == style then Some(from)
    else FindStyle(maps, style, from + 1)
  }

  /** No two saved lightmaps of a face share a style. */
  predicate UniqueStyles(maps: seq<Lightmap>)
  {
    forall i, j :: 0 <= i < j < |maps| && maps[i].style != INVALID_LIGHTSTYLE ==> maps[i].style != maps[j].style
  }

  /** lightmapdict_t: the lightmaps of one face, in the order they were added. */
  class LightmapDict {
    var maps: seq<Lightmap>

    constructor ()
      ensures maps == []
    {
      maps := [];
    }

    /** Lightmap_AllocOrClear for slot k with points samples: a slot without
        samples gets points empty ones; a saved slot has its first points
        samples cleared; an unsaved slot with samples is left as it is. */
    method AllocOrClear(k: nat, points: nat)
      requires k < |maps|
      requires |maps[k].samples| == 0 || maps[k].style == INVALID_LIGHTSTYLE || points <= |maps[k].samples|
      modifies this
      ensures |maps| == |old(maps)| && maps[k].style == old(maps[k].style)
      ensures forall j :: 0 <= j < |maps| && j != k ==> maps[j] == old(maps[j])
      ensures |old(maps[k].samples)| == 0 ==> maps[k].samples == Samples(points)
      ensures |old(maps[k].samples)| != 0 && old(maps[k].style) != INVALID_LIGHTSTYLE ==>
        maps[k].samples == Samples(points) + old(maps[k].samples)[points..]
      ensures |old(maps[k].samples)| != 0 && old(maps[k].style) == INVALID_LIGHTSTYLE ==> maps[k] == old(maps[k])
    {
      var lm := maps[k];
      if |lm.samples| == 0 {
        maps := maps[k := lm.(samples := Samples(points))];
      } else if lm.style != INVALID_LIGHTSTYLE {
        maps := maps[k := lm.(samples := Samples(points) + lm.samples[points..])];
      }
    }

    /** Lightmap_ForStyle: the slot already holding style; else the first
        unsaved slot, allocated when it has no samples yet (its style stays
        INVALID_LIGHTSTYLE, so old samples are kept); else a new unsaved slot
        with points empty samples. */
    method ForStyle(style: int, points: nat) returns (k: nat)
      modifies this
      ensures k < |maps|
      ensures FindStyle(old(maps), style, 0).Some? ==> maps == old(maps) && k == FindStyle(old(maps), style, 0).value
      ensures FindStyle(old(maps), style, 0).None? && FindStyle(old(maps), INVALID_LIGHTSTYLE, 0).Some? ==>
        k == FindStyle(old(maps), INVALID_LIGHTSTYLE, 0).value &&
        maps == old(maps)[k := Lightmap(INVALID_LIGHTSTYLE,
                                        if |old(maps[k].samples)| == 0 then Samples(points) else old(maps[k].samples))]
      ensures FindStyle(old(maps), style, 0).None? && FindStyle(old(maps), INVALID_LIGHTSTYLE, 0).None? ==>
        k == |old(maps)| && maps == old(maps) + [Lightmap(INVALID_LIGHTSTYLE, Samples(points))]
    {
      var i := 0;
      while i < |maps|
        invariant i <= |maps| && FindStyle(maps, style, 0) == FindStyle(maps, style, i)
      {
        if maps[i].style == style {
          return i;
        }
        i := i + 1;
      }
      i := 0;
      while i < |maps|
        invariant i <= |maps| && FindStyle(maps, INVALID_LIGHTSTYLE, 0) == FindStyle(maps, INVALID_LIGHTSTYLE, i)
      {
        if maps[i].style == INVALID_LIGHTSTYLE {
          AllocOrClear(i, points);
          return i;
        }
        i := i + 1;
      }
      maps := maps + [Lightmap(INVALID_LIGHTSTYLE, [])];
      k := |maps| - 1;
      AllocOrClear(k, points);
    }

    /** Lightmap_ClearAll: every slot becomes unsaved; the samples stay. */
    method ClearAll()
      modifies this
      ensures |maps| == |old(maps)|
      ensures forall j :: 0 <= j < |maps| ==> maps[j] == old(maps[j]).(style := INVALID_LIGHTSTYLE)
    {
      var i := 0;
      while i < |maps|
        invariant i <= |maps| == |old(maps)|
        invariant forall j :: 0 <= j < i ==> maps[j] == old(maps[j]).(style := INVALID_LIGHTSTYLE)
        invariant forall j :: i <= j < |maps| ==> maps[j] == old(maps[j])
      {
        maps := maps[i := maps[i].(style := INVALID_LIGHTSTYLE)];
        i := i + 1;
      }
    }

    /** A direct write of a slot's style. */
    method SetStyle(k: nat, style: int)
      requires k < |maps|
      modifies this
      ensures maps == old(maps)[k := old(maps[k]).(style := style)]
    {
      maps := maps[k := maps[k].(style := style)];
    }

    /** Lightmap_Save: an unsaved slot takes the style; a saved one keeps its own. */
    method Save(k: nat, style: int)
      requires k < |maps|
      modifies this
      ensures maps == old(maps)[k := if old(maps[k].style) == INVALID_LIGHTSTYLE then old(maps[k]).(style := style)
                                     else old(maps[k])]
    {
      if maps[k].style == INVALID_LIGHTSTYLE {
        maps := maps[k := maps[k].(style := style)];
      }
    }
  }

  /** The light loops' use of the table: find the slot for style and save it
      there. The slot then holds style and styles stay unique. */
  method LightInto(dict: LightmapDict, style: int, points: nat) returns (k: nat)
    requires UniqueStyles(dict.maps) && style != INVALID_LIGHTSTYLE
    modifies dict
    ensures UniqueStyles(dict.maps)
    ensures k < |dict.maps| && dict.maps[k].style == style
  {
    k := dict.ForStyle(style, points);
    dict.Save(k, style);
  }

  /** A slot that Lightmap_ForStyle hands out for reuse keeps whatever samples
      an earlier, unsaved light left in it: its clear branch is never taken. */
  method ReusedSlotKeepsSamples(dict: LightmapDict, style: int, points: nat) returns (k: nat)
    requires FindStyle(dict.maps, style, 0).None?
    requires FindStyle(dict.maps, INVALID_LIGHTSTYLE, 0).Some?
    requires |dict.maps[FindStyle(dict.maps, INVALID_LIGHTSTYLE, 0).value].samples| > 0
    modifies dict
    ensures k < |dict.maps| && k < |old(dict.maps)| && dict.maps[k] == old(dict.maps[k])
  {
    k := dict.ForStyle(style, points);
  }

  // ---------------------------------------------------------------------------
  // The mottle texture coordinate (mod_round_to_neg_inf)

  /** The size of the mottle noise texture. */
  const MOTTLE_TEXSIZE: nat := 256

  /** mod_round_to_neg_inf as written: x % y for x >= 0, y - ((-x) % y)
      otherwise. Both remainders have non-negative operands, where C's % and
      the Euclidean one agree. */
  function ModRoundAsWritten(x: int, y: int): (r: int)
    requires y > 0
  {
    if x >= 0 then x % y else y - (-x) % y
  }

  /** The as-written result lies in [0, y], and it is y exactly for the
      negative multiples of y. */
  lemma ModRoundAsWrittenRange(x: int, y: int)
    requires y > 0
    ensures 0 <= ModRoundAsWritten(x, y) <= y
    ensures ModRoundAsWritten(x, y) == y <==> x < 0 && x % y == 0
  {
    if x < 0 {
      var q := (-x) / y;
      var m := (-x) % y;
      assert -x == q * y + m;
      NegMul(q, y);
      if m == 0 {
        ModUnique(x, y, -q, 0);
      } else {
        ModUnique(x, y, -q - 1, y - m);
      }
    }
  }

  /** Mottle's wrap of the coordinate -256 gives 256, which fails its
      assertion that the coordinate is below the texture size. */
  lemma ModRoundAsWrittenReachesSize()
    ensures ModRoundAsWritten(-256, MOTTLE_TEXSIZE) == MOTTLE_TEXSIZE
  {
  }

  /** The intended wrap: a negative multiple of y goes to 0. */
  function ModRound(x: int, y: int): (r: int)
    requires y > 0
    ensures 0 <= r < y
  {
    if x >= 0 then x % y
    else
      var temp := (-x) % y;
      if temp == 0 then 0 else y - temp
  }

  /** The corrected wrap is the remainder rounded towards negative infinity:
      x - r is a multiple of y. */
  lemma ModRoundIsFloorMod(x: int, y: int)
    requires y > 0
    ensures ModRound(x, y) == x % y
  {
    if x < 0 {
      var q := (-x) / y;
      var m := (-x) % y;
      assert -x == q * y + m;
      NegMul(q, y);
      if m == 0 {
        ModUnique(x, y, -q, 0);
      } else {
        ModUnique(x, y, -q - 1, y - m);
      }
    }
  }

  // ---------------------------------------------------------------------------
  // Choosing the styles a face keeps (style selection in SaveLightmapSurface).
  // The brightness of each lightmap is computed from its samples in floating
  // point; here it is given, per slot, as maxb and avgb.

  /** Whether SaveLightmapSurface takes a lightmap into its candidates: it must
      be saved, its style must fit the output, and outside Quake II some
      sample must reach brightness 1. */
  predicate Keeps(lm: Lightmap, maxb: real, isQ2: bool, facesup: bool)
  {
    var maxstyle := if facesup then INVALID_LIGHTSTYLE else INVALID_LIGHTSTYLE_OLD;
    lm.style != INVALID_LIGHTSTYLE &&
    !(lm.style > maxstyle || (facesup && lm.style > INVALID_LIGHTSTYLE_OLD)) &&
    (isQ2 || !(maxb < 1.0))
  }

  /** A kept style fits one byte, also with the supplementary output. */
  lemma KeptStyleFitsByte(lm: Lightmap, maxb: real, isQ2: bool, facesup: bool)
    requires Keeps(lm, maxb, isQ2, facesup)
    ensures lm.style <= INVALID_LIGHTSTYLE_OLD
  {
  }

  /** An entry of the sortable vector: the average brightness and the slot. */
  datatype Candidate = Candidate(avgb: real, slot: nat, style: int)

  /** The candidates among the first n slots, in slot order. */
  function Candidates(maps: seq<Lightmap>, maxb: seq<real>, avgb: seq<real>, isQ2: bool, facesup: bool, n: nat)
    : (r: seq<Candidate>)
    requires n <= |maps| && |maxb| == |maps| && |avgb| == |maps|
    ensures |r| <= n
  {
    if n == 0 then []
    else
      Candidates(maps, maxb, avgb, isQ2, facesup, n - 1) +
      (if Keeps(maps[n - 1], maxb[n - 1], isQ2, facesup) then [Candidate(avgb[n - 1], n - 1, maps[n - 1].style)]
       else [])
  }

  /** c is the candidate entry of a kept slot below n. */
  predicate CandidateOf(maps: seq<Lightmap>, maxb: seq<real>, avgb: seq<real>, isQ2: bool, facesup: bool, n: nat,
                        c: Candidate)
    requires n <= |maps| && |maxb| == |maps| && |avgb| == |maps|
  {
    c.slot < n && Keeps(maps[c.slot], maxb[c.slot], isQ2, facesup) &&
    c == Candidate(avgb[c.slot], c.slot, maps[c.slot].style)
  }

  predicate SlotsIncrease(r: seq<Candidate>)
  {
    forall i, j :: 0 <= i < j < |r| ==> r[i].slot < r[j].slot
  }

  /** Every candidate is a kept slot with its own brightness and style, and
      the slots increase. */
  lemma {:induction false} CandidatesSound(maps: seq<Lightmap>, maxb: seq<real>, avgb: seq<real>, isQ2: bool,
                                            facesup: bool, n: nat)
    requires n <= |maps| && |maxb| == |maps| && |avgb| == |maps|
    ensures forall c :: c in Candidates(maps, maxb, avgb, isQ2, facesup, n) ==>
      CandidateOf(maps, maxb, avgb, isQ2, facesup, n, c)
    ensures SlotsIncrease(Candidates(maps, maxb, avgb, isQ2, facesup, n))
  {
    if n > 0 {
      CandidatesSound(maps, maxb, avgb, isQ2, facesup, n - 1);
      var p := Candidates(maps, maxb, avgb, isQ2, facesup, n - 1);
      var r := Candidates(maps, maxb, avgb, isQ2, facesup, n);
      forall c | c in r
        ensures CandidateOf(maps, maxb, avgb, isQ2, facesup, n, c)
      {
        if c in p {
          assert CandidateOf(maps, maxb, avgb, isQ2, facesup, n - 1, c);
        }
      }
      forall i, j | 0 <= i < j < |r|
        ensures r[i].slot < r[j].slot
      {
        if j < |p| {
          assert r[i] == p[i] && r[j] == p[j];
        } else {
          assert r[i] == p[i] && p[i] in p;
          assert CandidateOf(maps, maxb, avgb, isQ2, facesup, n - 1, p[i]);
        }
      }
    }
  }

  /** Every kept slot is a candidate. */
  lemma {:induction false} CandidatesComplete(maps: seq<Lightmap>, maxb: seq<real>, avgb: seq<real>, isQ2: bool,
                                               facesup: bool, n: nat, k: nat)
    requires n <= |maps| && |maxb| == |maps| && |avgb| == |maps|
    requires k < n && Keeps(maps[k], maxb[k], isQ2, facesup)
    ensures Candidate(avgb[k], k, maps[k].style) in Candidates(maps, maxb, avgb, isQ2, facesup, n)
  {
    if k < n - 1 {
      CandidatesComplete(maps, maxb, avgb, isQ2, facesup, n - 1, k);
    }
  }

  /** The collection loop of SaveLightmapSurface over the slots. */
  method CollectCandidates(maps: seq<Lightmap>, maxb: seq<real>, avgb: seq<real>, isQ2: bool, facesup: bool)
    returns (sortable: seq<Candidate>)
    requires |maxb| == |maps| && |avgb| == |maps|
    ensures sortable == Candidates(maps, maxb, avgb, isQ2, facesup, |maps|)
  {
    sortable := [];
    var k := 0;
    while k < |maps|
      invariant k <= |maps| && sortable == Candidates(maps, maxb, avgb, isQ2, facesup, k)
    {
      var lm := maps[k];
      var maxstyle := if facesup then INVALID_LIGHTSTYLE else INVALID_LIGHTSTYLE_OLD;
      if lm.style == INVALID_LIGHTSTYLE {
        // skip un-saved lightmaps
      } else if lm.style > maxstyle || (facesup && lm.style > INVALID_LIGHTSTYLE_OLD) {
        // style too high for the output
      } else if !isQ2 && maxb[k] < 1.0 {
        // too dark to keep
      } else {
        sortable := sortable + [Candidate(avgb[k], k, lm.style)];
      }
      k := k + 1;
    }
  }

  /** a comes before b after sorting the (brightness, slot) pairs ascending and
      reversing them. */
  predicate Before(a: Candidate, b: Candidate)
  {
    a.avgb > b.avgb || (a.avgb == b.avgb && a.slot > b.slot)
  }

  predicate SortedDesc(s: seq<Candidate>)
  {
    forall i, j :: 0 <= i < j < |s| ==> !Before(s[j], s[i])
  }

  function Insert(c: Candidate, s: seq<Candidate>): (r: seq<Candidate>)
    ensures |r| == |s| + 1
  {
    if s == [] then [c]
    else if Before(s[0], c) then [s[0]] + Insert(c, s[1..])
    else [c] + s
  }

  /** std::sort followed by std::reverse: brightest first, and of two
      lightmaps equally bright the later slot first. */
  function SortDesc(s: seq<Candidate>): (r: seq<Candidate>)
    ensures |r| == |s|
  {
    if s == [] then [] else Insert(s[0], SortDesc(s[1..]))
  }

  lemma {:induction false} InsertPerm(c: Candidate, s: seq<Candidate>)
    ensures multiset(Insert(c, s)) == multiset(s) + multiset{c}
  {
    if s != [] && Before(s[0], c) {
      InsertPerm(c, s[1..]);
      assert s == [s[0]] + s[1..];
    }
  }

  lemma {:induction false} InsertSorted(c: Candidate, s: seq<Candidate>)
    requires SortedDesc(s)
    ensures SortedDesc(Insert(c, s))
  {
    if s != [] && Before(s[0], c) {
      var t := s[1..];
      assert SortedDesc(t);
      InsertSorted(c, t);
      InsertPerm(c, t);
      var r := Insert(c, t);
      forall j | 0 <= j < |r|
        ensures !Before(r[j], s[0])
      {
        assert r[j] in multiset(r);
        if r[j] != c {
          assert r[j] in multiset(t);
          var m :| 0 <= m < |t| && t[m] == r[j];
          assert s[m + 1] == r[j];
        }
      }
      assert Insert(c, s) == [s[0]] + r;
    } else if s != [] {
      forall j | 0 <= j < |s|
        ensures !Before(s[j], c)
      {
        assert !Before(s[j], s[0]);
      }
    }
  }

  /** The sorted candidates are the same multiset, in descending order. */
  lemma {:induction false} SortDescCorrect(s: seq<Candidate>)
    ensures SortedDesc(SortDesc(s)) && multiset(SortDesc(s)) == multiset(s)
  {
    if s != [] {
      SortDescCorrect(s[1..]);
      InsertSorted(s[0], SortDesc(s[1..]));
      InsertPerm(s[0], SortDesc(s[1..]));
      assert s == [s[0]] + s[1..];
    }
  }

  /** The copy loop of SaveLightmapSurface: stop once maxfstyles are taken. */
  method TakeStyles(sortable: seq<Candidate>, maxfstyles: nat) returns (sorted: seq<Candidate>)
    ensures sorted == sortable[..Min(maxfstyles, |sortable|)]
  {
    sorted := [];
    var i := 0;
    while i < |sortable|
      invariant i <= |sortable| && i <= maxfstyles && sorted == sortable[..i]
    {
      if |sorted| == maxfstyles {
        break;
      }
      sorted := sorted + [sortable[i]];
      i := i + 1;
    }
  }

  /** The lightmaps kept: the brightest maxfstyles candidates. */
  function Chosen(cands: seq<Candidate>, maxfstyles: nat): seq<Candidate>
  {
    SortDesc(cands)[..Min(maxfstyles, |cands|)]
  }

  /** At most maxfstyles are kept, brightest first, and no candidate left out
      is brighter than one kept. */
  lemma ChosenAreBrightest(cands: seq<Candidate>, maxfstyles: nat, c: Candidate)
    requires c in cands && c !in Chosen(cands, maxfstyles)
    ensures |Chosen(cands, maxfstyles)| <= maxfstyles && SortedDesc(Chosen(cands, maxfstyles))
    ensures forall d :: d in Chosen(cands, maxfstyles) ==> !Before(c, d)
  {
    var s := SortDesc(cands);
    SortDescCorrect(cands);
    var n := Min(maxfstyles, |cands|);
    assert c in multiset(s);
    var m :| 0 <= m < |s| && s[m] == c;
    assert m >= n;
    forall d | d in s[..n]
      ensures !Before(c, d)
    {
      var j :| 0 <= j < n && s[j] == d;
    }
  }

  function StyleOf(c: Candidate): int { c.style }

  /** The style loops that fill face->styles or facesup->styles: the chosen
      styles first, then the unsaved marker up to the end. */
  method FillStyleSlots(styles: array<int>, chosen: seq<int>, pad: int)
    modifies styles
    ensures styles[..] == chosen[..Min(|chosen|, styles.Length)] + Pad(styles.Length - Min(|chosen|, styles.Length), pad)
  {
    var mapnum := 0;
    while mapnum < |chosen| && mapnum < styles.Length
      invariant mapnum <= Min(|chosen|, styles.Length)
      invariant styles[..mapnum] == chosen[..mapnum]
    {
      styles[mapnum] := chosen[mapnum];
      mapnum := mapnum + 1;
    }
    var n := mapnum;
    while mapnum < styles.Length
      invariant n <= mapnum <= styles.Length
      invariant styles[..n] == chosen[..n]
      invariant forall j :: n <= j < mapnum ==> styles[j] == pad
    {
      styles[mapnum] := pad;
      mapnum := mapnum + 1;
    }
    assert styles[..] == styles[..n] + styles[n..];
  }

  /** n copies of the marker v. */
  function Pad(n: nat, v: int): (r: seq<int>)
    ensures |r| == n && forall i :: 0 <= i < n ==> r[i] == v
  {
    seq(n, _ => v)
  }

  /** The marker of an unused style slot of face->styles or facesup->styles. */
  function StyleMarker(facesup: bool): int
  {
    if facesup then INVALID_LIGHTSTYLE else INVALID_LIGHTSTYLE_OLD
  }

  function StylesOf(cs: seq<Candidate>): (r: seq<int>)
    ensures |r| == |cs| && forall i :: 0 <= i < |cs| ==> r[i] == cs[i].style
  {
    seq(|cs|, i requires 0 <= i < |cs| => cs[i].style)
  }

  /** maxfstyles: the facestyles option capped by the slots of the output. */
  function MaxFaceStyles(facestyles: nat, facesup: bool): (m: nat)
    ensures m <= MAXLIGHTMAPSSUP && (!facesup ==> m <= MAXLIGHTMAPS)
  {
    Min(facestyles, if facesup then MAXLIGHTMAPSSUP else MAXLIGHTMAPS)
  }

  /** The slot Lightmap_ForStyle hands out for style. */
  function ForStyleSlot(maps: seq<Lightmap>, style: int): nat
  {
    var m := FindStyle(maps, style, 0);
    if m.Some? then m.value
    else
      var u := FindStyle(maps, INVALID_LIGHTSTYLE, 0);
      if u.Some? then u.value else |maps|
  }

  /** The entries SaveLightmapSurface sorts: the candidates, or in Quake II a
      style 0 placeholder of brightness 0 when there are none (a face without
      a lightmap would be drawn fullbright there). */
  function Sortable(maps: seq<Lightmap>, maxb: seq<real>, avgb: seq<real>, isQ2: bool, facesup: bool)
    : seq<Candidate>
    requires |maxb| == |maps| && |avgb| == |maps|
  {
    var cands := Candidates(maps, maxb, avgb, isQ2, facesup, |maps|);
    if isQ2 && cands == [] then [Candidate(0.0, ForStyleSlot(maps, 0), 0)] else cands
  }

  /** Every style SaveLightmapSurface may write is a byte value or the marker
      of the output it goes to. */
  lemma ChosenStylesFit(maps: seq<Lightmap>, maxb: seq<real>, avgb: seq<real>, isQ2: bool, facesup: bool,
                        maxfstyles: nat, c: Candidate)
    requires |maxb| == |maps| && |avgb| == |maps|
    requires c in Chosen(Sortable(maps, maxb, avgb, isQ2, facesup), maxfstyles)
    ensures c.style <= INVALID_LIGHTSTYLE_OLD
  {
    var cands := Candidates(maps, maxb, avgb, isQ2, facesup, |maps|);
    var so := Sortable(maps, maxb, avgb, isQ2, facesup);
    SortDescCorrect(so);
    assert c in SortDesc(so);
    assert c in multiset(SortDesc(so));
    assert c in so;
    if !(isQ2 && cands == []) {
      CandidatesSound(maps, maxb, avgb, isQ2, facesup, |maps|);
      assert CandidateOf(maps, maxb, avgb, isQ2, facesup, |maps|, c);
    }
  }

  /** The candidate list SaveLightmapSurface sorts, with the Quake II style 0
      placeholder allocated in the dictionary when there is no candidate. */
  method GatherSortable(dict: LightmapDict, maxb: seq<real>, avgb: seq<real>, isQ2: bool, facesup: bool,
                        points: nat) returns (sortable: seq<Candidate>)
    requires |maxb| == |dict.maps| && |avgb| == |dict.maps|
    modifies dict
    ensures sortable == Sortable(old(dict.maps), maxb, avgb, isQ2, facesup)
    ensures var cands := Candidates(old(dict.maps), maxb, avgb, isQ2, facesup, |old(dict.maps)|);
      var k := ForStyleSlot(old(dict.maps), 0);
      if isQ2 && cands == [] then
        k <= |old(dict.maps)| && |dict.maps| == |old(dict.maps)| + (if k == |old(dict.maps)| then 1 else 0) &&
        dict.maps[k].style == 0 &&
        forall j :: 0 <= j < |old(dict.maps)| && j != k ==> dict.maps[j] == old(dict.maps[j])
      else dict.maps == old(dict.maps)
  {
    ghost var maps0 := dict.maps;
    sortable := CollectCandidates(dict.maps, maxb, avgb, isQ2, facesup);
    if isQ2 && |sortable| == 0 {
      var k := dict.ForStyle(0, points);
      assert k == ForStyleSlot(maps0, 0);
      dict.SetStyle(k, 0);
      sortable := [Candidate(0.0, k, 0)];
    }
  }

  /** Style selection of SaveLightmapSurface for a face whose number of
      samples is points: collect, sort, cap at maxfstyles and write the face's
      style slots (the supplementary ones when facesup). In Quake II a face
      must keep at least one style. */
  method SelectFaceStyles(dict: LightmapDict, maxb: seq<real>, avgb: seq<real>, isQ2: bool, facesup: bool,
                          facestyles: nat, points: nat, styles: array<int>) returns (numstyles: Fallible<nat>)
    requires |maxb| == |dict.maps| && |avgb| == |dict.maps|
    requires styles.Length == if facesup then MAXLIGHTMAPSSUP else MAXLIGHTMAPS
    modifies dict, styles
    ensures var chosen := Chosen(Sortable(old(dict.maps), maxb, avgb, isQ2, facesup), MaxFaceStyles(facestyles, facesup));
      numstyles == (if isQ2 && chosen == [] then Fatal("numstyles > 0") else Ok(|chosen|)) &&
      (numstyles.Ok? ==>
        styles[..] == StylesOf(chosen) + Pad(styles.Length - |chosen|, StyleMarker(facesup)))
    ensures var cands := Candidates(old(dict.maps), maxb, avgb, isQ2, facesup, |old(dict.maps)|);
      var k := ForStyleSlot(old(dict.maps), 0);
      if isQ2 && cands == [] then
        k <= |old(dict.maps)| && |dict.maps| == |old(dict.maps)| + (if k == |old(dict.maps)| then 1 else 0) &&
        dict.maps[k].style == 0 &&
        forall j :: 0 <= j < |old(dict.maps)| && j != k ==> dict.maps[j] == old(dict.maps[j])
      else dict.maps == old(dict.maps)
  {
    var maxfstyles := MaxFaceStyles(facestyles, facesup);
    var sortable := GatherSortable(dict, maxb, avgb, isQ2, facesup, points);
    var sorted := TakeStyles(SortDesc(sortable), maxfstyles);
    var count := |sorted|;
    if isQ2 && count == 0 {
      return Fatal("numstyles > 0");
    }
    var names := StylesOf(sorted);
    FillStyleSlots(styles, names, StyleMarker(facesup));
    assert names[..Min(|names|, styles.Length)] == names;
    numstyles := Ok(count);
  }

  // ---------------------------------------------------------------------------
  // The alpha channel of the lightmap filters (IntegerDownsampleImage,
  // FloodFillTransparent). A sample's alpha is 0 (occluded) or 1; true stands
  // for 1. Colors are averaged in floating point and are not modelled.

  /** Pixel (x, y) of a w x h image stored row by row is inside it and opaque. */
  predicate Opaque(alpha: seq<bool>, w: nat, h: nat, x: int, y: int)
    requires |alpha| == w * h
  {
    0 <= x < w && 0 <= y < h && (MulRowBound(w, h, y, x); alpha[Mul(w, y) + x])
  }

  /** Some pixel x + x0, y with x0 < n is opaque. */
  predicate RowAny(alpha: seq<bool>, w: nat, h: nat, x: int, y: int, n: nat)
    requires |alpha| == w * h
  {
    n > 0 && (RowAny(alpha, w, h, x, y, n - 1) || Opaque(alpha, w, h, x + n - 1, y))
  }

  /** Some pixel of the first m rows of the factor x factor kernel at (x, y) is opaque. */
  predicate KernelAny(alpha: seq<bool>, w: nat, h: nat, factor: nat, x: int, y: int, m: nat)
    requires |alpha| == w * h
  {
    m > 0 && (KernelAny(alpha, w, h, factor, x, y, m - 1) || RowAny(alpha, w, h, x, y + m - 1, factor))
  }

  /** The recursive kernel test means what it says. */
  lemma {:induction false} RowAnyMeaning(alpha: seq<bool>, w: nat, h: nat, x: int, y: int, n: nat)
    requires |alpha| == w * h
    ensures RowAny(alpha, w, h, x, y, n) <==> exists px :: x <= px < x + n && Opaque(alpha, w, h, px, y)
  {
    if n > 0 {
      RowAnyMeaning(alpha, w, h, x, y, n - 1);
    }
  }

  lemma {:induction false} KernelAnyMeaning(alpha: seq<bool>, w: nat, h: nat, factor: nat, x: int, y: int, m: nat)
    requires |alpha| == w * h
    ensures KernelAny(alpha, w, h, factor, x, y, m) <==>
      exists py, px :: y <= py < y + m && x <= px < x + factor && Opaque(alpha, w, h, px, py)
  {
    if m > 0 {
      KernelAnyMeaning(alpha, w, h, factor, x, y, m - 1);
      RowAnyMeaning(alpha, w, h, x, y + m - 1, factor);
    }
  }

  /** The alpha of output pixel i of an outw-wide downsampled image. */
  predicate OutAlpha(alpha: seq<bool>, w: nat, h: nat, factor: nat, outw: nat, i: nat)
    requires |alpha| == w * h && outw > 0
  {
    KernelAny(alpha, w, h, factor, Mul(i % outw, factor), Mul(i / outw, factor), factor)
  }

  /** The alpha IntegerDownsampleImage produces: the input itself for factor
      1; otherwise one pixel per whole factor x factor block, opaque when some
      sample of its block is. */
  function DownsampleAlpha(alpha: seq<bool>, w: nat, h: nat, factor: nat): (r: seq<bool>)
    requires factor >= 1 && |alpha| == w * h
  {
    if factor == 1 then alpha
    else
      var outw := w / factor;
      var outh := h / factor;
      if outw == 0 then []
      else seq(Mul(outw, outh), i requires 0 <= i => OutAlpha(alpha, w, h, factor, outw, i))
  }

  /** The kernel loops of IntegerDownsampleImage for the block at (x, y); the
      kernel has no extra radius, and samples outside the image are skipped. */
  method KernelAlpha(alpha: seq<bool>, w: nat, h: nat, factor: nat, x: nat, y: nat) returns (lit: bool)
    requires |alpha| == w * h
    ensures lit == KernelAny(alpha, w, h, factor, x, y, factor)
  {
    var totalWeight := 0;
    var y0 := 0;
    while y0 < factor
      invariant y0 <= factor && (totalWeight > 0 <==> KernelAny(alpha, w, h, factor, x, y, y0))
    {
      var x0 := 0;
      while x0 < factor
        invariant x0 <= factor
        invariant totalWeight > 0 <==> KernelAny(alpha, w, h, factor, x, y, y0) || RowAny(alpha, w, h, x, y + y0, x0)
      {
        var x1 := x + x0;
        var y1 := y + y0;
        if x1 < w && y1 < h {
          MulRowBound(w, h, y1, x1);
          if alpha[Mul(w, y1) + x1] {
            totalWeight := totalWeight + 1;
          }
        }
        x0 := x0 + 1;
      }
      y0 := y0 + 1;
    }
    lit := totalWeight > 0;
  }

  /** Row y, column x of an outw-wide image is its pixel y * outw + x. */
  lemma RowColumn(y: nat, x: nat, outw: nat)
    requires x < outw
    ensures (Mul(y, outw) + x) % outw == x && (Mul(y, outw) + x) / outw == y
  {
    var i := Mul(y, outw) + x;
    ModUnique(i, outw, y, x);
    var q := i / outw;
    assert i == q * outw + x;
    assert (q - y) * outw == 0;
    if q > y {
      MulAtLeast(q - y, outw);
    } else if q < y {
      MulAtLeast(y - q, outw);
    }
  }

  /** Appending the block at column x of row y extends the computed prefix. */
  lemma AlphaStep(alpha: seq<bool>, w: nat, h: nat, factor: nat, outw: nat, res: seq<bool>, x: nat, y: nat, a: bool)
    requires |alpha| == w * h && x < outw && |res| == Mul(y, outw) + x
    requires forall i :: 0 <= i < |res| ==> res[i] == OutAlpha(alpha, w, h, factor, outw, i)
    requires a == KernelAny(alpha, w, h, factor, Mul(x, factor), Mul(y, factor), factor)
    ensures forall i :: 0 <= i < |res + [a]| ==> (res + [a])[i] == OutAlpha(alpha, w, h, factor, outw, i)
  {
    RowColumn(y, x, outw);
    assert a == OutAlpha(alpha, w, h, factor, outw, |res|);
  }

  /** IntegerDownsampleImage, alpha channel. */
  method IntegerDownsampleAlpha(alpha: seq<bool>, w: nat, h: nat, factor: nat) returns (res: seq<bool>)
    requires factor >= 1 && |alpha| == w * h
    ensures res == DownsampleAlpha(alpha, w, h, factor)
  {
    if factor == 1 {
      return alpha;
    }
    var outw := w / factor;
    var outh := h / factor;
    res := [];
    if outw == 0 {
      return;
    }
    var y := 0;
    while y < outh
      invariant y <= outh && |res| == Mul(y, outw)
      invariant forall i :: 0 <= i < |res| ==> res[i] == OutAlpha(alpha, w, h, factor, outw, i)
    {
      var x := 0;
      while x < outw
        invariant x <= outw && |res| == Mul(y, outw) + x
        invariant forall i :: 0 <= i < |res| ==> res[i] == OutAlpha(alpha, w, h, factor, outw, i)
      {
        var a := KernelAlpha(alpha, w, h, factor, Mul(x, factor), Mul(y, factor));
        AlphaStep(alpha, w, h, factor, outw, res, x, y, a);
        res := res + [a];
        x := x + 1;
      }
      assert Mul(y + 1, outw) == Mul(y, outw) + outw;
      y := y + 1;
    }
    assert Mul(outh, outw) == Mul(outw, outh);
  }

  /** Block x of width factor starts inside the image when x < w / factor. */
  lemma BlockInside(x: nat, w: nat, factor: nat)
    requires factor >= 1 && x < w / factor
    ensures Mul(x, factor) < w
  {
    var q := w / factor;
    assert w == q * factor + w % factor;
    MulAtLeast(q - x, factor);
    assert (q - x) * factor == q * factor - x * factor;
  }

  lemma RowBelow(i: nat, outw: nat, outh: nat)
    requires outw > 0 && i < Mul(outw, outh)
    ensures i / outw < outh
  {
    var q := i / outw;
    assert q * outw <= i;
    if outh <= q {
      MulMono(outh, q, outw);
      assert false;
    }
  }

  lemma MulMono(a: nat, b: nat, c: nat)
    requires a <= b
    ensures Mul(a, c) <= Mul(b, c)
  {
    if a < b {
      MulAtLeast(b - a, c);
      assert b * c == a * c + (b - a) * c;
    }
  }

  /** The block at column x, row y of the output of an image of one alpha
      has that alpha. */
  lemma BlockUniform(alpha: seq<bool>, w: nat, h: nat, factor: nat, v: bool, x: nat, y: nat)
    requires factor >= 1 && |alpha| == w * h && x < w / factor && y < h / factor
    requires forall i :: 0 <= i < |alpha| ==> alpha[i] == v
    ensures KernelAny(alpha, w, h, factor, Mul(x, factor), Mul(y, factor), factor) == v
  {
    BlockInside(x, w, factor);
    BlockInside(y, h, factor);
    var px, py := Mul(x, factor), Mul(y, factor);
    KernelAnyMeaning(alpha, w, h, factor, px, py, factor);
    if v {
      MulRowBound(w, h, py, px);
      assert Opaque(alpha, w, h, px, py);
    } else {
      forall qy, qx | 0 <= qx < w && 0 <= qy < h
        ensures !Opaque(alpha, w, h, qx, qy)
      {
        MulRowBound(w, h, qy, qx);
      }
    }
  }

  /** Downsampling an image of one alpha gives an image of that alpha. */
  lemma DownsampleKeepsUniform(alpha: seq<bool>, w: nat, h: nat, factor: nat, v: bool)
    requires factor >= 1 && |alpha| == w * h
    requires forall i :: 0 <= i < |alpha| ==> alpha[i] == v
    ensures forall j :: 0 <= j < |DownsampleAlpha(alpha, w, h, factor)| ==> DownsampleAlpha(alpha, w, h, factor)[j] == v
  {
    if factor > 1 && w / factor > 0 {
      var outw := w / factor;
      var outh := h / factor;
      var r := DownsampleAlpha(alpha, w, h, factor);
      forall j | 0 <= j < |r|
        ensures r[j] == v
      {
        RowBelow(j, outw, outh);
        BlockUniform(alpha, w, h, factor, v, j % outw, j / outw);
      }
    }
  }

  /** The neighbour loops of FloodFillTransparent: whether one of the up to
      eight pixels around (x, y) inside the image is opaque (the pixel itself
      is transparent when this is asked). */
  method OpaqueNeighbours(alpha: seq<bool>, w: nat, h: nat, x: int, y: int) returns (found: bool)
    requires |alpha| == w * h
    ensures found == KernelAny(alpha, w, h, 3, x - 1, y - 1, 3)
  {
    var opaqueNeighbours := 0;
    var y0 := -1;
    while y0 <= 1
      invariant -1 <= y0 <= 2 && (opaqueNeighbours > 0 <==> KernelAny(alpha, w, h, 3, x - 1, y - 1, y0 + 1))
    {
      var x0 := -1;
      while x0 <= 1
        invariant -1 <= x0 <= 2
        invariant opaqueNeighbours > 0 <==>
          KernelAny(alpha, w, h, 3, x - 1, y - 1, y0 + 1) || RowAny(alpha, w, h, x - 1, y + y0, x0 + 1)
      {
        var x1 := x + x0;
        var y1 := y + y0;
        if 0 <= x1 < w && 0 <= y1 < h {
          MulRowBound(w, h, y1, x1);
          if alpha[Mul(w, y1) + x1] {
            opaqueNeighbours := opaqueNeighbours + 1;
          }
        }
        x0 := x0 + 1;
      }
      y0 := y0 + 1;
    }
    found := opaqueNeighbours > 0;
  }

  /** Visiting pixel i of a pass: a transparent pixel with an opaque
      neighbour becomes opaque. */
  function Visit(a: seq<bool>, w: nat, h: nat, i: nat): (r: seq<bool>)
    requires |a| == w * h && i < |a| && w > 0
    ensures |r| == |a|
  {
    if !a[i] && KernelAny(a, w, h, 3, i % w - 1, i / w - 1, 3) then a[i := true] else a
  }

  /** The image after a pass has visited its first i pixels in row order;
      later pixels see the ones already filled. */
  function PassState(a: seq<bool>, w: nat, h: nat, i: nat): (r: seq<bool>)
    requires |a| == w * h && i <= |a| && (i > 0 ==> w > 0)
    ensures |r| == |a|
  {
    if i == 0 then a else Visit(PassState(a, w, h, i - 1), w, h, i - 1)
  }

  function CountFalse(s: seq<bool>): (n: nat)
    ensures n <= |s|
  {
    if s == [] then 0 else CountFalse(s[..|s| - 1]) + (if s[|s| - 1] then 0 else 1)
  }

  /** A pass never makes a pixel transparent and leaves unvisited pixels alone. */
  lemma {:induction false} PassMonotone(a: seq<bool>, w: nat, h: nat, i: nat, k: nat)
    requires |a| == w * h && i <= |a| && (i > 0 ==> w > 0) && k < |a|
    ensures a[k] ==> PassState(a, w, h, i)[k]
    ensures k >= i ==> PassState(a, w, h, i)[k] == a[k]
  {
    if i > 0 {
      PassMonotone(a, w, h, i - 1, k);
    }
  }

  lemma MulSucc(a: nat, b: nat)
    ensures Mul(a + 1, b) == Mul(a, b) + b
  {
  }

  lemma CountFalseStep(s: seq<bool>, t: seq<bool>, i: nat)
    requires i < |s| == |t| && s[..i] == t[..i]
    ensures CountFalse(t[..i + 1]) == CountFalse(s[..i]) + (if t[i] then 0 else 1)
  {
    assert t[..i + 1][..i] == t[..i];
  }

  /** The body of FloodFillTransparent's pixel loop for pixel i at (x, y). */
  method VisitPixel(res: seq<bool>, w: nat, h: nat, x: nat, y: nat, i: nat) returns (res': seq<bool>)
    requires |res| == w * h && x < w && y < h && i == Mul(y, w) + x && i < |res|
    ensures res' == Visit(res, w, h, i)
  {
    RowColumn(y, x, w);
    res' := res;
    if !res[i] {
      var found := OpaqueNeighbours(res, w, h, x, y);
      if found {
        res' := res[i := true];
      }
    }
  }

  /** The x loop of a pass over row y. */
  method FloodRow(a: seq<bool>, w: nat, h: nat, y: nat, res0: seq<bool>, unhandled0: nat)
    returns (res: seq<bool>, unhandled: nat)
    requires |a| == w * h && w > 0 && y < h
    requires res0 == PassState(a, w, h, Mul(y, w)) && unhandled0 == CountFalse(res0[..Mul(y, w)])
    ensures Mul(y + 1, w) <= |a|
    ensures res == PassState(a, w, h, Mul(y + 1, w)) && unhandled == CountFalse(res[..Mul(y + 1, w)])
  {
    MulSucc(y, w);
    MulRowBound(w, h, y, w - 1);
    assert Mul(w, y) == Mul(y, w);
    res, unhandled := res0, unhandled0;
    var x := 0;
    while x < w
      invariant x <= w
      invariant res == PassState(a, w, h, Mul(y, w) + x) && unhandled == CountFalse(res[..Mul(y, w) + x])
    {
      var i := Mul(y, w) + x;
      ghost var prev := res;
      res := VisitPixel(res, w, h, x, y, i);
      if !res[i] {
        unhandled := unhandled + 1;
      }
      CountFalseStep(prev, res, i);
      x := x + 1;
    }
  }

  /** One pass of FloodFillTransparent; unhandled counts the pixels still
      transparent after it. */
  method FloodPass(a: seq<bool>, w: nat, h: nat) returns (res: seq<bool>, unhandled: nat)
    requires |a| == w * h
    ensures w > 0 ==> res == PassState(a, w, h, |a|)
    ensures w == 0 ==> res == a
    ensures unhandled == CountFalse(res)
  {
    res := a;
    unhandled := 0;
    if w == 0 {
      return;
    }
    var y := 0;
    while y < h
      invariant y <= h && Mul(y, w) <= |a|
      invariant res == PassState(a, w, h, Mul(y, w)) && unhandled == CountFalse(res[..Mul(y, w)])
    {
      res, unhandled := FloodRow(a, w, h, y, res, unhandled);
      y := y + 1;
    }
    assert Mul(h, w) == |a|;
    assert res[..|a|] == res;
  }

  predicate AllTransparent(s: seq<bool>)
  {
    forall i :: 0 <= i < |s| ==> !s[i]
  }

  /** Every pixel is transparent exactly when all of them are counted. */
  lemma {:induction false} CountFalseAll(s: seq<bool>)
    ensures CountFalse(s) == |s| <==> AllTransparent(s)
  {
    if s != [] {
      var n := |s| - 1;
      CountFalseAll(s[..n]);
      assert forall i :: 0 <= i < n ==> s[..n][i] == s[i];
    }
  }

  /** No pixel is counted exactly when all of them are opaque. */
  lemma {:induction false} CountFalseNone(s: seq<bool>)
    ensures CountFalse(s) == 0 <==> forall i :: 0 <= i < |s| ==> s[i]
  {
    if s != [] {
      var n := |s| - 1;
      CountFalseNone(s[..n]);
      assert forall i :: 0 <= i < n ==> s[..n][i] == s[i];
    }
  }

  /** Making pixels opaque never raises the count, and making a transparent one
      opaque lowers it. */
  lemma {:induction false} CountFalseSubset(s: seq<bool>, t: seq<bool>)
    requires Subset(s, t)
    ensures CountFalse(t) <= CountFalse(s)
    ensures (exists k :: 0 <= k < |s| && !s[k] && t[k]) ==> CountFalse(t) < CountFalse(s)
  {
    if s != [] {
      var n := |s| - 1;
      assert Subset(s[..n], t[..n]);
      CountFalseSubset(s[..n], t[..n]);
      if exists k :: 0 <= k < |s| && !s[k] && t[k] {
        var k :| 0 <= k < |s| && !s[k] && t[k];
        if k < n {
          assert !s[..n][k] && t[..n][k];
        }
      }
    }
  }

  /** Pixel k of a w-wide image of h rows is at column k % w, row k / w. */
  lemma IndexCoords(k: nat, w: nat, h: nat)
    requires k < w * h
    ensures w > 0 && k % w < w && k / w < h && Mul(w, k / w) + k % w == k
  {
    if k / w >= h {
      MulMono(h, k / w, w);
      assert false;
    }
  }

  /** A later point of a pass keeps every pixel an earlier point made opaque. */
  lemma {:induction false} PassGrows(a: seq<bool>, w: nat, h: nat, j: nat, i: nat, k: nat)
    requires |a| == w * h && j <= i <= |a| && w > 0 && k < |a|
    requires PassState(a, w, h, j)[k]
    ensures PassState(a, w, h, i)[k]
    decreases i
  {
    if i > j {
      PassGrows(a, w, h, j, i - 1, k);
    }
  }

  /** A pass over an image with no opaque pixel changes nothing. */
  lemma {:induction false} PassNoOpaque(a: seq<bool>, w: nat, h: nat, i: nat)
    requires |a| == w * h && i <= |a| && w > 0 && AllTransparent(a)
    ensures PassState(a, w, h, i) == a
  {
    if i > 0 {
      PassNoOpaque(a, w, h, i - 1);
      var k := i - 1;
      KernelAnyMeaning(a, w, h, 3, k % w - 1, k / w - 1, 3);
      forall py, px | Opaque(a, w, h, px, py)
        ensures false
      {
        MulRowBound(w, h, py, px);
      }
    }
  }

  /** A transparent pixel next to an opaque one is opaque after the pass. */
  lemma PassFillsBoundary(a: seq<bool>, w: nat, h: nat, px: nat, py: nat)
    requires |a| == w * h && px < w && py < h
    requires !Opaque(a, w, h, px, py) && KernelAny(a, w, h, 3, px - 1, py - 1, 3)
    ensures Opaque(PassState(a, w, h, |a|), w, h, px, py)
  {
    MulRowBound(w, h, py, px);
    var p := Mul(w, py) + px;
    assert Mul(w, py) == Mul(py, w);
    RowColumn(py, px, w);
    var s := PassState(a, w, h, p);
    PassMonotone(a, w, h, p, p);
    KernelAnyMeaning(a, w, h, 3, px - 1, py - 1, 3);
    var qy, qx :| py - 1 <= qy < py + 2 && px - 1 <= qx < px + 2 && Opaque(a, w, h, qx, qy);
    MulRowBound(w, h, qy, qx);
    PassMonotone(a, w, h, p, Mul(w, qy) + qx);
    assert Opaque(s, w, h, qx, qy);
    KernelAnyMeaning(s, w, h, 3, px - 1, py - 1, 3);
    assert PassState(a, w, h, p + 1)[p];
    PassGrows(a, w, h, p + 1, |a|, p);
  }

  function Abs(x: int): nat { if x < 0 then -x else x }

  function StepToward(from: int, to: int): int { if from < to then from + 1 else if from > to then from - 1 else from }

  /** An image with a transparent pixel (tx, ty) and an opaque pixel (ox, oy)
      has a transparent pixel with an opaque neighbour: walk from the first
      toward the second. */
  lemma {:induction false} Boundary(a: seq<bool>, w: nat, h: nat, tx: nat, ty: nat, ox: nat, oy: nat)
    returns (px: nat, py: nat)
    requires |a| == w * h && tx < w && ty < h
    requires !Opaque(a, w, h, tx, ty) && Opaque(a, w, h, ox, oy)
    ensures px < w && py < h && !Opaque(a, w, h, px, py) && KernelAny(a, w, h, 3, px - 1, py - 1, 3)
    decreases Abs(tx - ox) + Abs(ty - oy)
  {
    var nx, ny := StepToward(tx, ox), StepToward(ty, oy);
    if Opaque(a, w, h, nx, ny) {
      KernelAnyMeaning(a, w, h, 3, tx - 1, ty - 1, 3);
      px, py := tx, ty;
    } else {
      px, py := Boundary(a, w, h, nx, ny, ox, oy);
    }
  }

  /** A pass over an image with both an opaque and a transparent pixel turns
      at least one transparent pixel opaque. */
  lemma PassProgress(a: seq<bool>, w: nat, h: nat, t: nat, o: nat)
    requires |a| == w * h && t < |a| && o < |a| && !a[t] && a[o]
    ensures CountFalse(PassState(a, w, h, |a|)) < CountFalse(a)
  {
    IndexCoords(t, w, h);
    IndexCoords(o, w, h);
    var px, py := Boundary(a, w, h, t % w, t / w, o % w, o / w);
    PassFillsBoundary(a, w, h, px, py);
    var next := PassState(a, w, h, |a|);
    MulRowBound(w, h, py, px);
    var p := Mul(w, py) + px;
    forall k | 0 <= k < |a| && a[k]
      ensures next[k]
    {
      PassMonotone(a, w, h, |a|, k);
    }
    assert !a[p] && next[p];
    CountFalseSubset(a, next);
  }

  /** FloodFillTransparent on the alpha channel: passes repeat until no pixel
      is left transparent, or until a pass finds every pixel transparent. An
      image with an opaque pixel comes out wholly opaque; a wholly transparent
      one comes out as it went in. */
  method FloodFillTransparentAlpha(input: seq<bool>, w: nat, h: nat) returns (res: seq<bool>)
    requires |input| == w * h
    ensures res == if AllTransparent(input) then input else seq(|input|, _ => true)
  {
    res := input;
    while true
      invariant |res| == |input| && Subset(input, res)
      invariant AllTransparent(input) ==> res == input
      decreases CountFalse(res)
    {
      var next, unhandled := FloodPass(res, w, h);
      if w > 0 {
        forall k | 0 <= k < |res| && res[k]
          ensures next[k]
        {
          PassMonotone(res, w, h, |res|, k);
        }
      }
      if AllTransparent(res) && w > 0 {
        PassNoOpaque(res, w, h, |res|);
      }
      CountFalseAll(next);
      if unhandled == |input| {
        res := next;
        break;
      }
      CountFalseNone(next);
      if unhandled == 0 {
        res := next;
        break;
      }
      var t :| 0 <= t < |next| && !next[t];
      var o :| 0 <= o < |res| && res[o];
      PassProgress(res, w, h, t, o);
      res := next;
    }
  }
}
