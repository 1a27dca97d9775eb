// The BRUSHLIST extension lump that qbsp writes for each model: one
// per-model header, then for each brush a per-brush record followed by one
// per-face record for each of its non-axial faces.

module Bspx {

  // Quake 1 native contents values.
  const CONTENTS_EMPTY: int := -1
  const CONTENTS_SOLID: int := -2
  const CONTENTS_WATER: int := -3
  const CONTENTS_SLIME: int := -4
  const CONTENTS_LAVA: int := -5
  const CONTENTS_SKY: int := -6
  /** What the engine reads as a clip brush. */
  const CONTENTS_CLIP: int := -8

  /** The per-brush face count is an unsigned 16-bit field. */
  const U16: nat := 0x1_0000

  datatype Vec3 = Vec3(x: real, y: real, z: real)

  datatype Plane = Plane(normal: Vec3, dist: real)

  /** A brush face: the map plane it lies on, and whether it faces the
      opposite way. */
  datatype Face = Face(planenum: nat, planeside: bool)

  /** A brush's contents: the native value, whether the clip flag of the
      extended contents is set, and what is_clip() answers. */
  datatype Contents = Contents(native: int, clipFlag: bool, isClip: bool)

  datatype Brush = Brush(faces: seq<Face>, mins: Vec3, maxs: Vec3, contents: Contents)

  datatype LumpRecord =
    | PerModel(ver: int, modelnum: int, numbrushes: nat, numfaces: nat)
    | PerBrush(mins: Vec3, maxs: Vec3, contents: int, numfaces: nat)
    | PerFace(normal: Vec3, dist: real)

  function Abs(r: real): real
  {
    if r < 0.0 then -r else r
  }

  function Negate(v: Vec3): Vec3
  {
    Vec3(-v.x, -v.y, -v.z)
  }

  /** A plane is axial when some component of its normal is 1 or -1. */
  predicate AxialNormal(n: Vec3)
  {
    Abs(n.x) == 1.0 || Abs(n.y) == 1.0 || Abs(n.z) == 1.0
  }

  predicate FacesIn(faces: seq<Face>, planes: seq<Plane>)
  {
    forall j :: 0 <= j < |faces| ==> faces[j].planenum < |planes|
  }

  predicate BrushesIn(brushes: seq<Brush>, planes: seq<Plane>)
  {
    forall i :: 0 <= i < |brushes| ==> FacesIn(brushes[i].faces, planes)
  }

  predicate Skipped(f: Face, planes: seq<Plane>)
    requires f.planenum < |planes|
  {
    AxialNormal(planes[f.planenum].normal)
  }

  /** The number of faces that are not skipped as axial. */
  function NonAxial(faces: seq<Face>, planes: seq<Plane>): nat
    requires FacesIn(faces, planes)
  {
    if faces == [] then 0
    else (if Skipped(faces[0], planes) then 0 else 1) + NonAxial(faces[1..], planes)
  }

  /** The number of faces the per-model header counts over all brushes. */
  function ModelFaceCount(brushes: seq<Brush>, planes: seq<Plane>): nat
    requires BrushesIn(brushes, planes)
  {
    if brushes == [] then 0
    else NonAxial(brushes[0].faces, planes) + ModelFaceCount(brushes[1..], planes)
  }

  /** The contents written for a brush: the six engine contents pass
      through unless the clip flag is set, anything else is clip when
      is_clip() says so and solid otherwise. */
  function BrushContents(c: Contents): (r: int)
    ensures r == CONTENTS_CLIP || CONTENTS_SKY <= r <= CONTENTS_EMPTY
    ensures r == CONTENTS_CLIP <==>
      (if CONTENTS_SKY <= c.native <= CONTENTS_EMPTY then c.clipFlag else c.isClip)
    ensures r != CONTENTS_CLIP && !(CONTENTS_SKY <= c.native <= CONTENTS_EMPTY) ==> r == CONTENTS_SOLID
    ensures r != CONTENTS_CLIP && CONTENTS_SKY <= c.native <= CONTENTS_EMPTY ==> r == c.native
  {
    if CONTENTS_SKY <= c.native <= CONTENTS_EMPTY then
      if c.clipFlag then CONTENTS_CLIP else c.native
    else if c.isClip then CONTENTS_CLIP
    else CONTENTS_SOLID
  }

  /** The plane a face record carries: the map plane, negated when the face
      is on its back side. */
  function FacePlane(f: Face, planes: seq<Plane>): (p: Plane)
    requires f.planenum < |planes|
    ensures f.planeside ==> p.normal == Negate(planes[f.planenum].normal) && p.dist == -planes[f.planenum].dist
    ensures !f.planeside ==> p == planes[f.planenum]
  {
    var q := planes[f.planenum];
    if f.planeside then Plane(Negate(q.normal), -q.dist) else q
  }

  /** One PerFace record per face that is not axial, in face order. */
  function FaceRecords(faces: seq<Face>, planes: seq<Plane>): (r: seq<LumpRecord>)
    requires FacesIn(faces, planes)
    ensures |r| == NonAxial(faces, planes)
    ensures forall k :: 0 <= k < |r| ==> r[k].PerFace? && !AxialNormal(r[k].normal)
  {
    if faces == [] then []
    else if Skipped(faces[0], planes) then FaceRecords(faces[1..], planes)
    else
      var p := FacePlane(faces[0], planes);
      [PerFace(p.normal, p.dist)] + FaceRecords(faces[1..], planes)
  }

  /** A brush's record followed by its faces' records. */
  function BrushRecords(b: Brush, planes: seq<Plane>): seq<LumpRecord>
    requires FacesIn(b.faces, planes)
  {
    [PerBrush(b.mins, b.maxs, BrushContents(b.contents), NonAxial(b.faces, planes) % U16)]
      + FaceRecords(b.faces, planes)
  }

  function AllBrushRecords(brushes: seq<Brush>, planes: seq<Plane>): seq<LumpRecord>
    requires BrushesIn(brushes, planes)
  {
    if brushes == [] then []
    else BrushRecords(brushes[0], planes) + AllBrushRecords(brushes[1..], planes)
  }

  /** Everything BSPX_Brushes_AddModel appends for one model. */
  function ModelRecords(modelnum: int, brushes: seq<Brush>, planes: seq<Plane>): seq<LumpRecord>
    requires BrushesIn(brushes, planes)
  {
    [PerModel(1, modelnum, |brushes|, ModelFaceCount(brushes, planes))] + AllBrushRecords(brushes, planes)
  }

  // ---------------------------------------------------------------------------
  // Reading a lump back

  function PerFaceCount(recs: seq<LumpRecord>): nat
  {
    if recs == [] then 0 else (if recs[0].PerFace? then 1 else 0) + PerFaceCount(recs[1..])
  }

  function PerBrushCount(recs: seq<LumpRecord>): nat
  {
    if recs == [] then 0 else (if recs[0].PerBrush? then 1 else 0) + PerBrushCount(recs[1..])
  }

  /** The sum of the face counts the per-brush records declare. */
  function DeclaredFaces(recs: seq<LumpRecord>): nat
  {
    if recs == [] then 0 else (if recs[0].PerBrush? then recs[0].numfaces else 0) + DeclaredFaces(recs[1..])
  }

  lemma {:induction false} CountsAppend(a: seq<LumpRecord>, b: seq<LumpRecord>)
    ensures PerFaceCount(a + b) == PerFaceCount(a) + PerFaceCount(b)
    ensures PerBrushCount(a + b) == PerBrushCount(a) + PerBrushCount(b)
    ensures DeclaredFaces(a + b) == DeclaredFaces(a) + DeclaredFaces(b)
  {
    if a == [] {
      assert a + b == b;
    } else {
      assert (a + b)[1..] == a[1..] + b;
      CountsAppend(a[1..], b);
    }
  }

  lemma {:induction false} FaceRecordsCounts(faces: seq<Face>, planes: seq<Plane>)
    requires FacesIn(faces, planes)
    ensures PerFaceCount(FaceRecords(faces, planes)) == NonAxial(faces, planes)
    ensures PerBrushCount(FaceRecords(faces, planes)) == 0
    ensures DeclaredFaces(FaceRecords(faces, planes)) == 0
  {
    if faces != [] {
      FaceRecordsCounts(faces[1..], planes);
      if !Skipped(faces[0], planes) {
        var p := FacePlane(faces[0], planes);
        CountsAppend([PerFace(p.normal, p.dist)], FaceRecords(faces[1..], planes));
      }
    }
  }

  /** The lump is self-consistent: as long as no brush has 65536 or more
      non-axial faces (where its 16-bit count wraps), the header's face count,
      the sum of the per-brush counts and the number of face records agree,
      and there is one per-brush record per brush. */
  lemma {:induction false} ModelRecordsConsistent(modelnum: int, brushes: seq<Brush>, planes: seq<Plane>)
    requires BrushesIn(brushes, planes)
    requires forall i :: 0 <= i < |brushes| ==> NonAxial(brushes[i].faces, planes) < U16
    ensures var recs := ModelRecords(modelnum, brushes, planes);
      recs[0].numfaces == DeclaredFaces(recs[1..]) == PerFaceCount(recs) &&
      recs[0].numbrushes == PerBrushCount(recs[1..])
  {
    AllBrushRecordsCounts(brushes, planes);
    var recs := ModelRecords(modelnum, brushes, planes);
    assert recs[1..] == AllBrushRecords(brushes, planes);
  }

  /** One brush's records: a per-brush record declaring its non-axial faces
      and one per-face record for each of them. */
  lemma BrushRecordsCounts(b: Brush, planes: seq<Plane>)
    requires FacesIn(b.faces, planes) && NonAxial(b.faces, planes) < U16
    ensures DeclaredFaces(BrushRecords(b, planes)) == NonAxial(b.faces, planes)
    ensures PerFaceCount(BrushRecords(b, planes)) == NonAxial(b.faces, planes)
    ensures PerBrushCount(BrushRecords(b, planes)) == 1
  {
    FaceRecordsCounts(b.faces, planes);
    var head := PerBrush(b.mins, b.maxs, BrushContents(b.contents), NonAxial(b.faces, planes));
    CountsAppend([head], FaceRecords(b.faces, planes));
  }

  lemma {:induction false} AllBrushRecordsCounts(brushes: seq<Brush>, planes: seq<Plane>)
    requires BrushesIn(brushes, planes)
    requires forall i :: 0 <= i < |brushes| ==> NonAxial(brushes[i].faces, planes) < U16
    ensures DeclaredFaces(AllBrushRecords(brushes, planes)) == ModelFaceCount(brushes, planes)
    ensures PerFaceCount(AllBrushRecords(brushes, planes)) == ModelFaceCount(brushes, planes)
    ensures PerBrushCount(AllBrushRecords(brushes, planes)) == |brushes|
  {
    if brushes != [] {
      var b := brushes[0];
      var rest := brushes[1..];
      assert forall i :: 0 <= i < |rest| ==> rest[i] == brushes[i + 1];
      AllBrushRecordsCounts(rest, planes);
      BrushRecordsCounts(b, planes);
      var br := BrushRecords(b, planes);
      assert AllBrushRecords(brushes, planes) == br + AllBrushRecords(rest, planes);
      assert ModelFaceCount(brushes, planes) == NonAxial(b.faces, planes) + ModelFaceCount(rest, planes);
      CountsAppend(br, AllBrushRecords(rest, planes));
    }
  }

  /** A brush with 65536 non-axial faces declares none in its record. */
  lemma FaceCountWraps(b: Brush, planes: seq<Plane>)
    requires FacesIn(b.faces, planes) && NonAxial(b.faces, planes) == U16
    ensures BrushRecords(b, planes)[0].numfaces == 0
    ensures PerFaceCount(BrushRecords(b, planes)) == U16
  {
    FaceRecordsCounts(b.faces, planes);
    var head := PerBrush(b.mins, b.maxs, BrushContents(b.contents), 0);
    CountsAppend([head], FaceRecords(b.faces, planes));
  }

  // ---------------------------------------------------------------------------
  // The appending code

  /** The first pass: the number of brushes and the faces they keep. */
  method CountModel(brushes: seq<Brush>, planes: seq<Plane>) returns (numbrushes: nat, numfaces: nat)
    requires BrushesIn(brushes, planes)
    ensures numbrushes == |brushes| && numfaces == ModelFaceCount(brushes, planes)
  {
    numbrushes, numfaces := 0, 0;
    var i := 0;
    while i < |brushes|
      invariant i <= |brushes| && numbrushes == i
      invariant numfaces + ModelFaceCount(brushes[i..], planes) == ModelFaceCount(brushes, planes)
    {
      assert brushes[i..][1..] == brushes[i + 1..];
      numbrushes := numbrushes + 1;
      var faces := brushes[i].faces;
      var j := 0;
      ghost var start := numfaces;
      while j < |faces|
        invariant j <= |faces|
        invariant numfaces + NonAxial(faces[j..], planes) == start + NonAxial(faces, planes)
      {
        assert faces[j..][1..] == faces[j + 1..];
        if !AxialNormal(planes[faces[j].planenum].normal) {
          numfaces := numfaces + 1;
        }
        j := j + 1;
      }
      i := i + 1;
    }
  }

  /** The per-brush face count, in its 16-bit field. */
  method CountBrushFaces(faces: seq<Face>, planes: seq<Plane>) returns (n: nat)
    requires FacesIn(faces, planes)
    ensures n == NonAxial(faces, planes) % U16
  {
    n := 0;
    var j := 0;
    while j < |faces|
      invariant j <= |faces| && n < U16
      invariant (n + NonAxial(faces[j..], planes)) % U16 == NonAxial(faces, planes) % U16
    {
      assert faces[j..][1..] == faces[j + 1..];
      var one := if Skipped(faces[j], planes) then 0 else 1;
      ModAddStep(n, one, NonAxial(faces[j + 1..], planes));
      if !AxialNormal(planes[faces[j].planenum].normal) {
        n := (n + 1) % U16;
      }
      j := j + 1;
    }
  }

  /** Reducing a running count modulo 2^16 after each step does not change
      the final residue. */
  lemma ModAddStep(n: nat, one: nat, rest: nat)
    ensures ((n + one) % U16 + rest) % U16 == (n + (one + rest)) % U16
  {
  }

  /** FaceRecords of a suffix, one face unfolded. */
  lemma FaceRecordsStep(faces: seq<Face>, planes: seq<Plane>, j: nat)
    requires FacesIn(faces, planes) && j < |faces|
    ensures FaceRecords(faces[j..], planes) ==
      (if Skipped(faces[j], planes) then []
       else [PerFace(FacePlane(faces[j], planes).normal, FacePlane(faces[j], planes).dist)])
      + FaceRecords(faces[j + 1..], planes)
  {
    assert faces[j..][1..] == faces[j + 1..];
  }

  lemma AppendAssoc<T>(a: seq<T>, b: seq<T>, c: seq<T>)
    ensures a + (b + c) == (a + b) + c
  {
  }

  /** The per-face records of one brush. */
  method EmitFaces(faces: seq<Face>, planes: seq<Plane>) returns (recs: seq<LumpRecord>)
    requires FacesIn(faces, planes)
    ensures recs == FaceRecords(faces, planes)
  {
    recs := [];
    var j := 0;
    while j < |faces|
      invariant j <= |faces|
      invariant recs + FaceRecords(faces[j..], planes) == FaceRecords(faces, planes)
    {
      FaceRecordsStep(faces, planes, j);
      var q := planes[faces[j].planenum];
      if !AxialNormal(q.normal) {
        var rec;
        if faces[j].planeside {
          rec := PerFace(Vec3(-q.normal.x, -q.normal.y, -q.normal.z), -q.dist);
        } else {
          rec := PerFace(q.normal, q.dist);
        }
        AppendAssoc(recs, [rec], FaceRecords(faces[j + 1..], planes));
        recs := recs + [rec];
      }
      j := j + 1;
    }
  }

  /** The per-brush pass: each brush's record, then its faces' records. */
  method EmitBrushes(brushes: seq<Brush>, planes: seq<Plane>) returns (recs: seq<LumpRecord>)
    requires BrushesIn(brushes, planes)
    ensures recs == AllBrushRecords(brushes, planes)
  {
    recs := [];
    var i := 0;
    while i < |brushes|
      invariant i <= |brushes|
      invariant recs + AllBrushRecords(brushes[i..], planes) == AllBrushRecords(brushes, planes)
    {
      assert brushes[i..][1..] == brushes[i + 1..];
      var b := brushes[i];
      var numfaces := CountBrushFaces(b.faces, planes);
      var contents := SelectContents(b.contents);
      var faceRecs := EmitFaces(b.faces, planes);
      var these := [PerBrush(b.mins, b.maxs, contents, numfaces)] + faceRecs;
      assert these == BrushRecords(b, planes);
      assert AllBrushRecords(brushes[i..], planes) == these + AllBrushRecords(brushes[i + 1..], planes);
      recs := recs + these;
      i := i + 1;
    }
  }

  /** The switch on native contents. */
  method SelectContents(c: Contents) returns (r: int)
    ensures r == BrushContents(c)
  {
    if c.native == CONTENTS_EMPTY || c.native == CONTENTS_SOLID || c.native == CONTENTS_WATER
      || c.native == CONTENTS_SLIME || c.native == CONTENTS_LAVA || c.native == CONTENTS_SKY
    {
      if c.clipFlag {
        r := CONTENTS_CLIP;
      } else {
        r := c.native;
      }
    } else if c.isClip {
      r := CONTENTS_CLIP;
    } else {
      r := CONTENTS_SOLID;
    }
  }

  /** The BRUSHLIST lump under construction. */
  class BrushList {
    var lumpdata: seq<LumpRecord>

    constructor()
      ensures lumpdata == []
    {
      lumpdata := [];
    }

    /** BSPX_Brushes_AddModel: append one model's records. */
    method AddModel(modelnum: int, brushes: seq<Brush>, planes: seq<Plane>)
      requires BrushesIn(brushes, planes)
      modifies this
      ensures lumpdata == old(lumpdata) + ModelRecords(modelnum, brushes, planes)
    {
      var numbrushes, numfaces := CountModel(brushes, planes);
      var perModel := PerModel(1, modelnum, numbrushes, numfaces);
      var rest := EmitBrushes(brushes, planes);
      lumpdata := lumpdata + [perModel] + rest;
    }
  }
}
