/**
  * The --replace-entities pass of bsputil on a .map file: the brushes of the
  * .map's entities are moved, in order, onto the brush entities of an .ent file
  * (those with a "model" key, and func_areaportal), and then keys that the
  * brushes make stale are dropped.
  *
  * A moved-from std::string is taken to be empty, as it is in practice.
  */
module ReplaceEntities {
  import opened Common
  import opened MapFile

  const MISMATCH := "ent files' map brushes don't match"

  /** entdict_t::get: the value of a key, or "" when it is missing. */
  function Get(e: MapEntity, key: string): string
  {
    if key in e.epairs then e.epairs[key] else ""
  }

  /** An entity of the .ent file that takes brushes: it names a model or is an area portal. */
  predicate Eligible(e: MapEntity)
  {
    Get(e, "model") != "" || Get(e, "classname") == "func_areaportal"
  }

  // ------------------------------------------------------------------
  // Which entities give brushes and which take them
  // ------------------------------------------------------------------

  /** The .map entities among the first n, past the worldspawn, that have brushes. */
  function Sources(m: seq<MapEntity>, n: nat): (s: seq<nat>)
    requires n <= |m|
    ensures |s| <= n
    ensures forall b :: 0 <= b < |s| ==> 1 <= s[b] < n
  {
    if n == 0 then []
    else if n - 1 >= 1 && m[n - 1].brushes != "" then Sources(m, n - 1) + [n - 1]
    else Sources(m, n - 1)
  }

  /** The eligible entities among the first n of the .ent file. */
  function Targets(x: seq<MapEntity>, n: nat): (t: seq<nat>)
    requires n <= |x|
    ensures |t| <= n
    ensures forall b :: 0 <= b < |t| ==> t[b] < n
  {
    if n == 0 then []
    else if Eligible(x[n - 1]) then Targets(x, n - 1) + [n - 1]
    else Targets(x, n - 1)
  }

  /** Sources lists, in increasing order, exactly the entities past the first
    * that have brushes. */
  lemma {:induction false} SourcesMeaning(m: seq<MapEntity>, n: nat)
    requires n <= |m|
    ensures forall i :: 0 <= i < n ==> (i in Sources(m, n) <==> i >= 1 && m[i].brushes != "")
    ensures forall b, c :: 0 <= b < c < |Sources(m, n)| ==> Sources(m, n)[b] < Sources(m, n)[c]
  {
    if n > 0 {
      SourcesMeaning(m, n - 1);
    }
  }

  /** Targets lists, in increasing order, exactly the eligible entities. */
  lemma {:induction false} TargetsMeaning(x: seq<MapEntity>, n: nat)
    requires n <= |x|
    ensures forall i :: 0 <= i < n ==> (i in Targets(x, n) <==> Eligible(x[i]))
    ensures forall b, c :: 0 <= b < c < |Targets(x, n)| ==> Targets(x, n)[b] < Targets(x, n)[c]
  {
    if n > 0 {
      TargetsMeaning(x, n - 1);
    }
  }

  /** Reading further only adds eligible entities at the end. */
  lemma {:induction false} TargetsPrefix(x: seq<MapEntity>, n: nat, n': nat)
    requires n <= n' <= |x|
    ensures Targets(x, n) <= Targets(x, n')
    decreases n' - n
  {
    if n < n' {
      TargetsPrefix(x, n, n' - 1);
    }
  }

  // ------------------------------------------------------------------
  // The result
  // ------------------------------------------------------------------

  /** The entities with the brushes of entity i replaced by text. */
  function SetBrushes(x: seq<MapEntity>, i: nat, text: string): (y: seq<MapEntity>)
    requires i < |x|
    ensures |y| == |x|
    ensures y[i] == x[i].(brushes := text)
    ensures forall k :: 0 <= k < |x| && k != i ==> y[k] == x[k]
  {
    x[i := x[i].(brushes := text)]
  }

  /** The .ent entities once the worldspawn's brushes and then the brushes of the
    * sources s have been moved over, the b-th source onto the b-th target. */
  function Filled(m: seq<MapEntity>, x: seq<MapEntity>, t: seq<nat>, s: seq<nat>): (y: seq<MapEntity>)
    requires |m| > 0 && |x| > 0 && |s| <= |t|
    requires forall b :: 0 <= b < |t| ==> t[b] < |x|
    requires forall b :: 0 <= b < |s| ==> s[b] < |m|
    ensures |y| == |x|
    decreases |s|
  {
    if s == [] then SetBrushes(x, 0, m[0].brushes)
    else
      var k := |s| - 1;
      SetBrushes(Filled(m, x, t, s[..k]), t[k], m[s[k]].brushes)
  }

  /** The outcome of the brush transfer. */
  function Replaced(m: seq<MapEntity>, x: seq<MapEntity>): Fallible<seq<MapEntity>>
    requires |m| > 0 && |x| > 0
  {
    var s, t := Sources(m, |m|), Targets(x, |x|);
    if |s| > |t| then Fatal(MISMATCH) else Ok(Filled(m, x, t, s))
  }

  /** The transfer keeps every pair; the b-th target gets the brushes of the b-th
    * source, and any other entity keeps its own brushes, except that the first
    * takes over the worldspawn's brushes unless it is a target. */
  lemma {:induction false} FilledMeaning(m: seq<MapEntity>, x: seq<MapEntity>, t: seq<nat>, s: seq<nat>, i: nat)
    requires |m| > 0 && |x| > 0 && |s| <= |t|
    requires forall b :: 0 <= b < |t| ==> t[b] < |x|
    requires forall b :: 0 <= b < |s| ==> s[b] < |m|
    requires forall b, c :: 0 <= b < c < |t| ==> t[b] < t[c]
    requires i < |x|
    ensures Filled(m, x, t, s)[i].epairs == x[i].epairs
    ensures forall b :: 0 <= b < |s| && t[b] == i ==> Filled(m, x, t, s)[i].brushes == m[s[b]].brushes
    ensures (forall b :: 0 <= b < |s| ==> t[b] != i) ==>
              Filled(m, x, t, s)[i].brushes == if i == 0 then m[0].brushes else x[i].brushes
    decreases |s|
  {
    if s != [] {
      var k := |s| - 1;
      var s' := s[..k];
      FilledMeaning(m, x, t, s', i);
      forall b | 0 <= b < |s| && t[b] == i
        ensures Filled(m, x, t, s)[i].brushes == m[s[b]].brushes
      {
        if b < k {
          assert t[b] < t[k];
        }
      }
    }
  }

  /** The brushes go over exactly when the .ent file has at least as many
    * eligible entities as the .map has brush entities past the worldspawn. */
  lemma ReplacedMeaning(m: seq<MapEntity>, x: seq<MapEntity>, i: nat)
    requires |m| > 0 && |x| > 0 && i < |x|
    ensures Replaced(m, x).Fatal? <==> |Sources(m, |m|)| > |Targets(x, |x|)|
    ensures Replaced(m, x).Ok? ==> |Replaced(m, x).value| == |x| && Replaced(m, x).value[i].epairs == x[i].epairs
    ensures Replaced(m, x).Ok? ==>
              forall b :: 0 <= b < |Sources(m, |m|)| && Targets(x, |x|)[b] == i ==>
                Replaced(m, x).value[i].brushes == m[Sources(m, |m|)[b]].brushes
    ensures Replaced(m, x).Ok? && (forall b :: 0 <= b < |Sources(m, |m|)| ==> Targets(x, |x|)[b] != i) ==>
              Replaced(m, x).value[i].brushes == if i == 0 then m[0].brushes else x[i].brushes
  {
    TargetsMeaning(x, |x|);
    var s, t := Sources(m, |m|), Targets(x, |x|);
    if |s| <= |t| {
      FilledMeaning(m, x, t, s, i);
    }
  }

  // ------------------------------------------------------------------
  // The loops
  // ------------------------------------------------------------------

  /** The inner loop: the b-th eligible entity (counting from 1), if there is one. */
  method FindTarget(x: seq<MapEntity>, b: nat) returns (r: Option<nat>)
    requires b >= 1
    ensures b - 1 < |Targets(x, |x|)| ==> r == Some(Targets(x, |x|)[b - 1])
    ensures b - 1 >= |Targets(x, |x|)| ==> r == None
  {
    var i2 := 0;
    var b2 := 1;
    while i2 < |x|
      invariant i2 <= |x| && b2 == |Targets(x, i2)| + 1 && b2 <= b
    {
      if Eligible(x[i2]) {
        if b2 == b {
          TargetsPrefix(x, i2 + 1, |x|);
          assert Targets(x, i2 + 1)[b - 1] == i2;
          return Some(i2);
        }
        b2 := b2 + 1;
      }
      i2 := i2 + 1;
    }
    r := None;
  }

  /** The pairs of the entities are left alone while brushes move. */
  predicate SamePairs(x: seq<MapEntity>, y: seq<MapEntity>)
  {
    |x| == |y| && forall i :: 0 <= i < |x| ==> x[i].epairs == y[i].epairs
  }

  lemma {:induction false} EligibleSamePairs(x: seq<MapEntity>, y: seq<MapEntity>)
    requires SamePairs(x, y)
    ensures Targets(x, |x|) == Targets(y, |y|)
  {
    TargetsAgree(x, y, |x|);
  }

  lemma {:induction false} TargetsAgree(x: seq<MapEntity>, y: seq<MapEntity>, n: nat)
    requires SamePairs(x, y) && n <= |x|
    ensures Targets(x, n) == Targets(y, n)
  {
    if n > 0 {
      TargetsAgree(x, y, n - 1);
      assert Eligible(x[n - 1]) == Eligible(y[n - 1]);
    }
  }

  /** Moving brushes keeps the eligible entities where they were. */
  lemma FilledTargets(m: seq<MapEntity>, x: seq<MapEntity>, t: seq<nat>, s: seq<nat>)
    requires |m| > 0 && |x| > 0 && |s| <= |t|
    requires forall b :: 0 <= b < |t| ==> t[b] < |x|
    requires forall b :: 0 <= b < |s| ==> s[b] < |m|
    requires forall b, c :: 0 <= b < c < |t| ==> t[b] < t[c]
    ensures Targets(Filled(m, x, t, s), |x|) == Targets(x, |x|)
  {
    var y := Filled(m, x, t, s);
    forall i | 0 <= i < |x|
      ensures y[i].epairs == x[i].epairs
    {
      FilledMeaning(m, x, t, s, i);
    }
    assert SamePairs(x, y);
    EligibleSamePairs(x, y);
  }

  /** One source more: its brushes go onto the next target. */
  lemma FilledSnoc(m: seq<MapEntity>, x: seq<MapEntity>, t: seq<nat>, s: seq<nat>, i1: nat)
    requires |m| > 0 && |x| > 0 && |s| < |t| && i1 < |m|
    requires forall b :: 0 <= b < |t| ==> t[b] < |x|
    requires forall b :: 0 <= b < |s| ==> s[b] < |m|
    ensures Filled(m, x, t, s + [i1]) == SetBrushes(Filled(m, x, t, s), t[|s|], m[i1].brushes)
  {
    assert (s + [i1])[..|s|] == s;
  }

  /** One pass of the outer loop for a .map entity i1 past the worldspawn that
    * has brushes, with b the number of the next brush entity. */
  method MoveOne(m: seq<MapEntity>, x: seq<MapEntity>, t: seq<nat>, ents: seq<MapEntity>, i1: nat, b: nat)
    returns (r: Fallible<seq<MapEntity>>)
    requires |m| > 0 && |x| > 0 && 1 <= i1 < |m| && m[i1].brushes != ""
    requires t == Targets(x, |x|) && b == |Sources(m, i1)| + 1 && |Sources(m, i1)| <= |t|
    requires ents == Filled(m, x, t, Sources(m, i1))
    ensures r.Fatal? ==> r == Fatal(MISMATCH) && |Sources(m, i1)| == |t|
    ensures r.Ok? ==> |Sources(m, i1)| < |t| && r.value == Filled(m, x, t, Sources(m, i1) + [i1])
  {
    TargetsMeaning(x, |x|);
    FilledTargets(m, x, t, Sources(m, i1));
    var target := FindTarget(ents, b);
    var left := m[i1].brushes;
    var ents' := ents;
    if target.Some? {
      ents' := SetBrushes(ents, target.value, left);
      left := "";
    }
    if left != "" {
      // the brushes stayed behind in map_file
      r := Fatal(MISMATCH);
    } else {
      FilledSnoc(m, x, t, Sources(m, i1), i1);
      r := Ok(ents');
    }
  }

  /** One pass of the outer loop, for any .map entity i1: the worldspawn and
    * entities without brushes are skipped. */
  method MoveStep(m: seq<MapEntity>, x: seq<MapEntity>, t: seq<nat>, ents: seq<MapEntity>, i1: nat, b: nat)
    returns (r: Fallible<seq<MapEntity>>, b': nat)
    requires |m| > 0 && |x| > 0 && i1 < |m|
    requires t == Targets(x, |x|) && b == |Sources(m, i1)| + 1 && |Sources(m, i1)| <= |t|
    requires ents == Filled(m, x, t, Sources(m, i1))
    ensures r.Fatal? ==> r == Fatal(MISMATCH) && |Sources(m, |m|)| > |t|
    ensures r.Ok? ==> b' == |Sources(m, i1 + 1)| + 1 && |Sources(m, i1 + 1)| <= |t|
    ensures r.Ok? ==> r.value == Filled(m, x, t, Sources(m, i1 + 1))
  {
    SourcesStep(m, i1);
    r, b' := Ok(ents), b;
    if i1 >= 1 && m[i1].brushes != "" {
      r := MoveOne(m, x, t, ents, i1, b);
      if r.Fatal? {
        SourcesPrefix(m, i1 + 1, |m|);
      } else {
        b' := b + 1;
      }
    }
  }

  /** The brush transfer of --replace-entities, with map_file (m) and the .ent
    * file's entities (x); indexing the first entity of each requires both to be
    * non-empty. */
  method MoveBrushes(m: seq<MapEntity>, x: seq<MapEntity>) returns (r: Fallible<seq<MapEntity>>)
    requires |m| > 0 && |x| > 0
    ensures r == Replaced(m, x)
  {
    var t := Targets(x, |x|);
    var ents := SetBrushes(x, 0, m[0].brushes);
    var i1 := 0;
    var b := 1;
    ghost var s := [];
    while i1 < |m|
      invariant i1 <= |m| && s == Sources(m, i1) && b == |s| + 1 && |s| <= |t|
      invariant ents == Filled(m, x, t, s)
    {
      var moved;
      moved, b := MoveStep(m, x, t, ents, i1, b);
      if moved.Fatal? {
        return moved;
      }
      ents := moved.value;
      i1 := i1 + 1;
      s := Sources(m, i1);
    }
    r := Ok(ents);
  }

  lemma SourcesStep(m: seq<MapEntity>, i1: nat)
    requires i1 < |m|
    ensures Sources(m, i1 + 1) == if i1 >= 1 && m[i1].brushes != "" then Sources(m, i1) + [i1] else Sources(m, i1)
  {
  }

  /** Reading further only adds sources at the end. */
  lemma {:induction false} SourcesPrefix(m: seq<MapEntity>, n: nat, n': nat)
    requires n <= n' <= |m|
    ensures |Sources(m, n)| <= |Sources(m, n')|
    decreases n' - n
  {
    if n < n' {
      SourcesPrefix(m, n, n' - 1);
    }
  }

  // ------------------------------------------------------------------
  // Clean-up of the keys
  // ------------------------------------------------------------------

  /** Whether the clean-up drops "style": from a light with a targetname, and
    * from an area portal. */
  predicate StyleDropped(e: MapEntity)
  {
    (Get(e, "classname") == "light" && "targetname" in e.epairs) || Get(e, "classname") == "func_areaportal"
  }

  /** One pass of the clean-up loop on an entity. */
  function Cleaned(e: MapEntity): MapEntity
  {
    var e1 := if e.brushes != "" && "origin" in e.epairs then e.(epairs := e.epairs - {"origin"}) else e;
    if "style" in e1.epairs then
      if Get(e1, "classname") == "light" then
        if "targetname" in e1.epairs then e1.(epairs := e1.epairs - {"style"}) else e1
      else if Get(e1, "classname") == "func_areaportal" then e1.(epairs := e1.epairs - {"style"})
      else e1
    else e1
  }

  /** The clean-up keeps the brushes and every other pair as it was; it drops
    * "origin" exactly when the entity has brushes, and "style" exactly from
    * lights with a targetname and from area portals. */
  lemma CleanedMeaning(e: MapEntity)
    ensures Cleaned(e).brushes == e.brushes
    ensures forall k :: k in Cleaned(e).epairs <==>
              k in e.epairs && !(k == "origin" && e.brushes != "") && !(k == "style" && StyleDropped(e))
    ensures forall k :: k in Cleaned(e).epairs ==> Cleaned(e).epairs[k] == e.epairs[k]
  {
    var e1 := if e.brushes != "" && "origin" in e.epairs then e.(epairs := e.epairs - {"origin"}) else e;
    assert Get(e1, "classname") == Get(e, "classname");
    assert ("targetname" in e1.epairs) == ("targetname" in e.epairs);
  }

  /** The clean-up loop over the .ent file's entities. */
  method CleanAll(x: seq<MapEntity>) returns (y: seq<MapEntity>)
    ensures |y| == |x|
    ensures forall i :: 0 <= i < |x| ==> y[i] == Cleaned(x[i])
  {
    y := x;
    for i := 0 to |x|
      invariant |y| == |x|
      invariant forall k :: 0 <= k < i ==> y[k] == Cleaned(x[k])
      invariant forall k :: i <= k < |x| ==> y[k] == x[k]
    {
      y := y[i := Cleaned(y[i])];
    }
  }

  /** --replace-entities on a .map file: the brushes move over, then the keys are
    * cleaned; the .replaced.map it then writes is not part of this model. */
  method Replace(m: seq<MapEntity>, x: seq<MapEntity>) returns (r: Fallible<seq<MapEntity>>)
    requires |m| > 0 && |x| > 0
    ensures r.Fatal? <==> Replaced(m, x).Fatal?
    ensures r.Ok? ==> |r.value| == |x| && forall i :: 0 <= i < |x| ==> r.value[i] == Cleaned(Replaced(m, x).value[i])
  {
    var moved := MoveBrushes(m, x);
    if moved.Fatal? {
      return Fatal(moved.msg);
    }
    var cleaned := CleanAll(moved.value);
    r := Ok(cleaned);
  }
}
