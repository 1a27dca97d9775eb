/**
 * The qbsp front end (qbsp/qbsp.cc): the command-line tokenizer that cuts a
 * NUL-terminated character buffer into tokens in place, the option loop that
 * turns those tokens into compiler options, the concatenation of the
 * program's arguments into one quoted buffer, and the BSPX brush-list lump
 * written for each model.
 */
module Qbsp {
  import opened Common

  // ---------------------------------------------------------------------------
  // Character classes and C strings

  predicate IsSpace(c: char) { c == ' ' || c == '\n' || c == '\t' || c == '\r' }

  /** The characters that end a token: a quoted token ends at a quote, a line
      break or the terminator; any other token at white space or the terminator. */
  predicate EndsToken(c: char, quoted: bool)
  {
    if quoted then c == '\0' || c == '"' || c == '\n' || c == '\r' else IsSpace(c) || c == '\0'
  }

  predicate NoNul(s: seq<char>) { forall k :: 0 <= k < |s| ==> s[k] != '\0' }

  predicate HasNulFrom(s: seq<char>, i: nat) { exists k :: i <= k < |s| && s[k] == '\0' }

  /** strlen: the index of the first NUL at or after i. */
  function CStrEnd(s: seq<char>, i: nat): (e: nat)
    requires HasNulFrom(s, i)
    ensures i <= e < |s| && s[e] == '\0'
    ensures forall k :: i <= k < e ==> s[k] != '\0'
    decreases |s| - i
  {
    if s[i] == '\0' then i
    else
      assert HasNulFrom(s, i + 1) by {
        var k :| i <= k < |s| && s[k] == '\0';
        assert k != i;
      }
      CStrEnd(s, i + 1)
  }

  /** A NUL at m with none before it from i is where the C string at i ends. */
  lemma {:induction false} CStrEndAt(s: seq<char>, i: nat, m: nat)
    requires i <= m < |s| && s[m] == '\0'
    requires forall k :: i <= k < m ==> s[k] != '\0'
    ensures HasNulFrom(s, i) && CStrEnd(s, i) == m
    decreases m - i
  {
    if i < m {
      CStrEndAt(s, i + 1, m);
    }
  }

  /** The C string that starts at index i of the buffer, copied out (what
      strlen measures and a std::string built from a char pointer holds). */
  method CStringAt(buf: array<char>, i: nat) returns (w: string)
    requires HasNulFrom(buf[..], i)
    ensures w == buf[i..CStrEnd(buf[..], i)]
    ensures NoNul(w)
  {
    var e := i;
    while buf[e] != '\0'
      invariant i <= e <= CStrEnd(buf[..], i)
      decreases CStrEnd(buf[..], i) - e
    {
      e := e + 1;
    }
    w := buf[i..e];
  }

  // ---------------------------------------------------------------------------
  // GetTok

  /** The first index from i that is not white space (the text ends in a NUL,
      which stops the skip at |t|). */
  function SkipSpaces(t: seq<char>, i: nat): (j: nat)
    requires i <= |t|
    ensures i <= j <= |t| && (j < |t| ==> !IsSpace(t[j]))
    decreases |t| - i
  {
    if i < |t| && IsSpace(t[i]) then SkipSpaces(t, i + 1) else i
  }

  /** The first index from i holding a character that ends the token. */
  function ScanToken(t: seq<char>, i: nat, quoted: bool): (j: nat)
    requires i <= |t|
    ensures i <= j <= |t| && (j < |t| ==> EndsToken(t[j], quoted))
    decreases |t| - i
  {
    if i < |t| && !EndsToken(t[i], quoted) then ScanToken(t, i + 1, quoted) else i
  }

  /** A token t[start..stop]; GetTok writes a NUL at stop. */
  datatype Span = Span(start: nat, stop: nat)

  /** What GetTok finds in the text t when it starts scanning at i: nothing
      at or past the end or after only white space; otherwise a quoted token
      (quotes excluded) or a bare one. */
  function NextTok(t: seq<char>, i: nat): (r: Option<Span>)
    ensures r.None? <==> i >= |t| || SkipSpaces(t, i) == |t|
    ensures r.Some? ==> var j := SkipSpaces(t, i);
      i <= r.value.start <= r.value.stop <= |t| &&
      (t[j] == '"' ==> r.value.start == j + 1 && r.value.stop == ScanToken(t, j + 1, true)) &&
      (t[j] != '"' ==> r.value.start == j && r.value.stop == ScanToken(t, j, false))
  {
    if i >= |t| then None
    else
      var j := SkipSpaces(t, i);
      if j >= |t| then None
      else if t[j] == '"' then Some(Span(j + 1, ScanToken(t, j + 1, true)))
      else Some(Span(j, ScanToken(t, j, false)))
  }

  /** The whole token sequence of the text from position i; each next scan
      starts one past the NUL written after the previous token. */
  function Tokens(t: seq<char>, i: nat): seq<string>
    decreases |t| + 1 - i
  {
    match NextTok(t, i)
    case None => []
    case Some(sp) => [t[sp.start..sp.stop]] + Tokens(t, sp.stop + 1)
  }

  /** The buffer holds the text t from position pos on, followed by its NUL. */
  predicate Holds(buf: array<char>, t: seq<char>, pos: nat)
    reads buf
  {
    |t| < buf.Length && buf[|t|] == '\0' &&
    forall k :: pos <= k < |t| ==> buf[k] == t[k]
  }

  /** GetTok(szBuf, szEnd): find the next token from pos, write a NUL over the
      character that ends it and return where it starts. */
  method GetTok(buf: array<char>, pos: nat, end: nat, ghost t: seq<char>) returns (tok: Option<nat>)
    requires end == |t| && NoNul(t) && Holds(buf, t, pos)
    modifies buf
    ensures NextTok(t, pos).None? ==> tok.None? && buf[..] == old(buf[..])
    ensures NextTok(t, pos).Some? ==> var sp := NextTok(t, pos).value;
      tok == Some(sp.start) && buf[..] == old(buf[..])[sp.stop := '\0']
  {
    if pos >= end {
      return None;
    }
    var j := pos;
    while buf[j] == ' ' || buf[j] == '\n' || buf[j] == '\t' || buf[j] == '\r'
      invariant pos <= j <= end && SkipSpaces(t, j) == SkipSpaces(t, pos)
      decreases end - j
    {
      j := j + 1;
    }
    if j >= end {
      return None;
    }
    var quoted := buf[j] == '"';
    if quoted {
      j := j + 1;
    }
    var start := j;
    while !EndsToken(buf[j], quoted)
      invariant start <= j <= end && ScanToken(t, j, quoted) == ScanToken(t, start, quoted)
      decreases end - j
    {
      j := j + 1;
    }
    if buf[j] != '\0' {
      buf[j] := '\0';
    }
    tok := Some(start);
  }

  // ---------------------------------------------------------------------------
  // Options

  /** The boolean fields of the options record that the command line sets. */
  datatype Flag =
    | Nofill | Noclip | Noskip | Nodetail | Onlyents | Allverbose | Splitspecial | Splitsky | Splitturb
    | Transwater | Transsky | NoTextures | Oldaxis | ForceGoodTree | Noverbose | Nopercent | BspxBrushes
    | FixRotateObjTexture | ObjExport | OmitDetail | OmitDetailWall | OmitDetailIllusionary
    | OmitDetailFence | ConvertMapFormat | ForcePRT1 | TestExpand | LeakTest | ContentHack | NoThreads

  /** The log channels the options switch on and off. */
  datatype LogChannel = LogVerbose | LogPercent | LogStat | LogProgress

  /** The BSP format versions the options can select. */
  datatype BspVersion = Q1 | H2 | Bsp2 | Bsp2rmq | H2Bsp2 | H2Bsp2rmq | Q2 | Qbism | HL

  datatype Game = Quake | Hexen2 | Quake2 | HalfLife

  /** The game each format version belongs to. */
  function GameOf(v: BspVersion): Game
  {
    match v
    case Q1 | Bsp2 | Bsp2rmq => Quake
    case H2 | H2Bsp2 | H2Bsp2rmq => Hexen2
    case Q2 | Qbism => Quake2
    case HL => HalfLife
  }

  datatype Conversion = ConvQuake | ConvQuake2 | ConvValve | ConvBp

  /** The options that take a numeric argument; the argument is kept as text. */
  datatype NumericOption = LeakDist | Subdivide | MaxNodeSize | MidsplitSurfFraction | Epsilon | WorldExtent

  datatype WadPath = WadPath(path: string, external: bool)

  datatype Options = Options(
    mapName: string,
    bspName: string,
    flags: set<Flag>,
    logMask: set<LogChannel>,
    targetVersion: BspVersion,
    targetGame: Game,
    numeric: map<NumericOption, string>,
    wadPaths: seq<WadPath>,
    convert: Option<Conversion>)

  /** ASCII lower case, as Q_strcasecmp compares. */
  function Lower(c: char): char
  {
    if 'A' <= c <= 'Z' then (c as int - 'A' as int + 'a' as int) as char else c
  }

  function Lowered(s: string): (r: string)
    ensures |r| == |s| && forall k :: 0 <= k < |s| ==> r[k] == Lower(s[k])
  {
    if s == [] then [] else [Lower(s[0])] + Lowered(s[1..])
  }

  /** The options that take no argument, applied to o; None for any other
      name. n is the option name in lower case. */
  function SimpleOption(n: string, o: Options): Option<Options>
  {
    if n == "nofill" then Some(o.(flags := o.flags + {Nofill}))
    else if n == "noclip" then Some(o.(flags := o.flags + {Noclip}))
    else if n == "noskip" then Some(o.(flags := o.flags + {Noskip}))
    else if n == "nodetail" then Some(o.(flags := o.flags + {Nodetail}))
    else if n == "onlyents" then Some(o.(flags := o.flags + {Onlyents}))
    else if n == "verbose" then Some(o.(flags := o.flags + {Allverbose}, logMask := o.logMask + {LogVerbose}))
    else if n == "splitspecial" then Some(o.(flags := o.flags + {Splitspecial}))
    else if n == "splitsky" then Some(o.(flags := o.flags + {Splitsky}))
    else if n == "splitturb" then Some(o.(flags := o.flags + {Splitturb}))
    else if n == "notranswater" then Some(o.(flags := o.flags - {Transwater}))
    else if n == "transwater" then Some(o.(flags := o.flags + {Transwater}))
    else if n == "transsky" then Some(o.(flags := o.flags + {Transsky}))
    else if n == "notex" then Some(o.(flags := o.flags + {NoTextures}))
    else if n == "oldaxis" then Some(o)
    else if n == "nooldaxis" then Some(o.(flags := o.flags - {Oldaxis}))
    else if n == "forcegoodtree" then Some(o.(flags := o.flags + {ForceGoodTree}))
    else if n == "noverbose" then
      Some(o.(flags := o.flags + {Noverbose}, logMask := o.logMask - {LogPercent, LogStat, LogProgress}))
    else if n == "nopercent" then Some(o.(flags := o.flags + {Nopercent}, logMask := o.logMask - {LogPercent}))
    else if n == "q2bsp" then Some(o.(targetVersion := Q2))
    else if n == "qbism" then Some(o.(targetVersion := Qbism))
    else if n == "wrbrushes" || n == "bspx" then Some(o.(flags := o.flags + {BspxBrushes}))
    else if n == "wrbrushesonly" || n == "bspxonly" then Some(o.(flags := o.flags + {BspxBrushes, Noclip}))
    else if n == "hlbsp" then Some(o.(targetVersion := HL))
    else if n == "bsp2" then Some(o.(targetVersion := Bsp2))
    else if n == "2psb" then Some(o.(targetVersion := Bsp2rmq))
    else if n == "oldrottex" then Some(o.(flags := o.flags - {FixRotateObjTexture}))
    else if n == "objexport" then Some(o.(flags := o.flags + {ObjExport}))
    else if n == "omitdetail" then Some(o.(flags := o.flags + {OmitDetail}))
    else if n == "omitdetailwall" then Some(o.(flags := o.flags + {OmitDetailWall}))
    else if n == "omitdetailillusionary" then Some(o.(flags := o.flags + {OmitDetailIllusionary}))
    else if n == "omitdetailfence" then Some(o.(flags := o.flags + {OmitDetailFence}))
    else if n == "forceprt1" then Some(o.(flags := o.flags + {ForcePRT1}))
    else if n == "expand" then Some(o.(flags := o.flags + {TestExpand}))
    else if n == "leaktest" then Some(o.(flags := o.flags + {LeakTest}))
    else if n == "contenthack" then Some(o.(flags := o.flags + {ContentHack}))
    else if n == "nothreads" then Some(o.(flags := o.flags + {NoThreads}))
    else None
  }

  /** The options that read the next token as their argument. */
  datatype ArgOption = Numeric(which: NumericOption) | Wad(external: bool) | Convert

  function ArgOptionOf(n: string): Option<ArgOption>
  {
    if n == "leakdist" then Some(Numeric(LeakDist))
    else if n == "subdivide" then Some(Numeric(Subdivide))
    else if n == "wadpath" || n == "xwadpath" then Some(Wad(n != "wadpath"))
    else if n == "maxnodesize" then Some(Numeric(MaxNodeSize))
    else if n == "midsplitsurffraction" then Some(Numeric(MidsplitSurfFraction))
    else if n == "epsilon" then Some(Numeric(Epsilon))
    else if n == "worldextent" then Some(Numeric(WorldExtent))
    else if n == "convert" then Some(Convert)
    else None
  }

  /** A wad path with one trailing '/' removed. */
  function StripSlash(p: string): (r: string)
    ensures |p| > 0 && p[|p| - 1] == '/' ==> r == p[..|p| - 1]
    ensures !(|p| > 0 && p[|p| - 1] == '/') ==> r == p
  {
    if |p| > 0 && p[|p| - 1] == '/' then p[..|p| - 1] else p
  }

  function ConversionOf(arg: string): Option<Conversion>
  {
    var a := Lowered(arg);
    if a == "quake" then Some(ConvQuake)
    else if a == "quake2" then Some(ConvQuake2)
    else if a == "valve" then Some(ConvValve)
    else if a == "bp" then Some(ConvBp)
    else None
  }

  /** An option with its argument applied to o; only -convert can reject its argument. */
  function ApplyArg(k: ArgOption, arg: string, o: Options): (r: Fallible<Options>)
    ensures r.Fatal? <==> k.Convert? && ConversionOf(arg).None?
    ensures k.Wad? ==> r == Ok(o.(wadPaths := o.wadPaths + [WadPath(StripSlash(arg), k.external)]))
  {
    match k
    case Numeric(which) => Ok(o.(numeric := o.numeric[which := arg]))
    case Wad(external) => Ok(o.(wadPaths := o.wadPaths + [WadPath(StripSlash(arg), external)]))
    case Convert =>
      match ConversionOf(arg)
      case Some(c) => Ok(o.(convert := Some(c), flags := o.flags + {ConvertMapFormat}))
      case None => Fatal("'-convert' requires one of: quake,quake2,valve,bp")
  }

  /** The state of the option loop: the options, how many file names were
      seen, and the temporary hexen2 flag. */
  datatype Pass = Pass(o: Options, names: nat, hexen2: bool)

  /** How the loop ends: all tokens used, the usage text printed (which exits),
      or a fatal error. */
  datatype LoopEnd = Finished(p: Pass) | Usage | Failed(msg: string)

  /** One pass of the option loop: what a token does, and how many tokens it
      uses (an option with an argument uses the next token too). The option
      names are distinct, so testing the options that take an argument first
      picks the same branch as the source's single chain of comparisons. */
  datatype StepOut = Next(p: Pass, used: nat) | Stop(e: LoopEnd)

  predicate IsOption(tok: string) { |tok| > 0 && tok[0] == '-' }

  /** Whether a token is an option that reads an argument. */
  predicate NeedsArg(tok: string) { IsOption(tok) && ArgOptionOf(Lowered(tok[1..])).Some? }

  function StepOne(tok: string, arg: Option<string>, s: Pass): (r: StepOut)
    ensures r.Next? ==> r.used == (if NeedsArg(tok) then 2 else 1)
    ensures NeedsArg(tok) && arg.None? ==> r.Stop? && r.e.Failed?
  {
    if !IsOption(tok) then
      if s.names == 0 then Next(s.(o := s.o.(mapName := tok), names := 1), 1)
      else if s.names == 1 then Next(s.(o := s.o.(bspName := tok), names := 2), 1)
      else Stop(Failed("Unknown option"))
    else
      var n := Lowered(tok[1..]);
      match ArgOptionOf(n)
      case Some(k) =>
        (match arg
         case None => Stop(Failed("Invalid argument to option"))
         case Some(a) =>
           match ApplyArg(k, a, s.o)
           case Ok(o') => Next(s.(o := o'), 2)
           case Fatal(m) => Stop(Failed(m)))
      case None =>
        if n == "hexen2" then Next(s.(hexen2 := true), 1)
        else match SimpleOption(n, s.o)
          case Some(o') => Next(s.(o := o'), 1)
          case None =>
            if n == "?" || n == "help" then Stop(Usage)
            else Stop(Failed("Unknown option"))
  }

  /** The option loop over a token sequence. */
  function Loop(toks: seq<string>, s: Pass): LoopEnd
    decreases |toks|
  {
    if toks == [] then Finished(s)
    else match StepOne(toks[0], if |toks| > 1 then Some(toks[1]) else None, s)
      case Next(s', used) => Loop(toks[used..], s')
      case Stop(e) => e
  }

  /** The version after the loop: -hexen2 turns the chosen version into its
      Hexen II counterpart. */
  function Hexen2Version(v: BspVersion, hexen2: bool): BspVersion
  {
    if !hexen2 then v
    else if v == Bsp2 then H2Bsp2
    else if v == Bsp2rmq then H2Bsp2rmq
    else H2
  }

  /** The end of ParseOptions as written: noclip is forced when the game the
      options named BEFORE this parse is Quake II, and only then is the game
      updated from the version. */
  function FinishOptionsAsWritten(o: Options, hexen2: bool): (r: Options)
    ensures r.targetGame == GameOf(r.targetVersion)
    ensures (Noclip in r.flags) <==> Noclip in o.flags || o.targetGame == Quake2
  {
    var v := Hexen2Version(o.targetVersion, hexen2);
    var f := if o.targetGame == Quake2 then o.flags + {Noclip} else o.flags;
    o.(targetVersion := v, flags := f, targetGame := GameOf(v))
  }

  /** A first parse that selects the Quake II format does not force noclip,
      although the game it leaves behind is Quake II. */
  lemma NoclipReadsOldGame(o: Options)
    requires o.targetGame == Quake && Noclip !in o.flags
    ensures var r := FinishOptionsAsWritten(o.(targetVersion := Q2), false);
      r.targetGame == Quake2 && Noclip !in r.flags
  {
  }

  /** The end of ParseOptions as intended: the game follows the final version,
      and a Quake II target always compiles without clipping hulls. */
  function FinishOptions(o: Options, hexen2: bool): (r: Options)
    ensures r.targetVersion == Hexen2Version(o.targetVersion, hexen2)
    ensures r.targetGame == GameOf(r.targetVersion)
    ensures (Noclip in r.flags) <==> Noclip in o.flags || r.targetGame == Quake2
    ensures r.flags - {Noclip} == o.flags - {Noclip}
    ensures r.mapName == o.mapName && r.bspName == o.bspName && r.wadPaths == o.wadPaths
  {
    var v := Hexen2Version(o.targetVersion, hexen2);
    var f := if GameOf(v) == Quake2 then o.flags + {Noclip} else o.flags;
    o.(targetVersion := v, flags := f, targetGame := GameOf(v))
  }

  /** The two differ exactly when the old and new games disagree about Quake II. */
  lemma FinishOptionsDiffers(o: Options, hexen2: bool)
    requires Noclip !in o.flags
    ensures (FinishOptions(o, hexen2) == FinishOptionsAsWritten(o, hexen2)) <==>
      ((o.targetGame == Quake2) == (GameOf(Hexen2Version(o.targetVersion, hexen2)) == Quake2))
  {
    var a := FinishOptions(o, hexen2);
    var b := FinishOptionsAsWritten(o, hexen2);
    if (o.targetGame == Quake2) != (GameOf(Hexen2Version(o.targetVersion, hexen2)) == Quake2) {
      assert (Noclip in a.flags) != (Noclip in b.flags);
    }
  }

  /** -hexen2 combines with -bsp2 and -2psb and otherwise selects plain
      Hexen II; without it the version is kept. */
  lemma Hexen2Versions(o: Options)
    ensures FinishOptions(o, true).targetVersion ==
      (if o.targetVersion == Bsp2 then H2Bsp2 else if o.targetVersion == Bsp2rmq then H2Bsp2rmq else H2)
    ensures FinishOptions(o, true).targetGame == Hexen2
    ensures FinishOptions(o, false).targetVersion == o.targetVersion
  {
  }

  /** The loop's outcome turned into the result of ParseOptions. */
  datatype Outcome = Parsed(o: Options) | ShowUsage | Error(msg: string)

  function Finish(e: LoopEnd): Outcome
  {
    match e
    case Finished(p) => Parsed(FinishOptionsAsWritten(p.o, p.hexen2))
    case Usage => ShowUsage
    case Failed(m) => Error(m)
  }

  lemma Q2Step(o: Options, m: string)
    ensures StepOne("-q2bsp", Some(m), Pass(o, 0, false)) == Next(Pass(o.(targetVersion := Q2), 0, false), 1)
  {
    assert Lowered("-q2bsp"[1..]) == "q2bsp";
    assert ArgOptionOf("q2bsp").None?;
    assert SimpleOption("q2bsp", o) == Some(o.(targetVersion := Q2));
  }

  /** `-q2bsp` on a first parse selects Quake II without forcing noclip, where
      the intended ending forces it. */
  lemma Q2CommandLineKeepsClipping(m: string, o: Options)
    requires !IsOption(m) && o.targetGame == Quake && Noclip !in o.flags
    ensures var e := Loop(["-q2bsp", m], Pass(o, 0, false));
      && e.Finished?
      && Finish(e).o.targetGame == Quake2 && Noclip !in Finish(e).o.flags
      && Noclip in FinishOptions(e.p.o, e.p.hexen2).flags
  {
    Q2Step(o, m);
    assert ["-q2bsp", m][1..] == [m];
    var s1 := Pass(o.(targetVersion := Q2), 0, false);
    assert Loop(["-q2bsp", m], Pass(o, 0, false)) == Loop([m], s1);
    var p := Pass(o.(targetVersion := Q2, mapName := m), 1, false);
    assert Loop([m], s1) == Loop([], p);
    var r := FinishOptionsAsWritten(p.o, false);
    assert r.targetVersion == Q2;
    assert Finish(Finished(p)) == Parsed(r);
  }

  /** What ParseOptions does with the text t, starting from options o. */
  function ParseText(t: seq<char>, o: Options): Outcome
  {
    Finish(Loop(Tokens(t, 0), Pass(o, 0, false)))
  }

  /** After a token at sp, the token sequence from the scan position is that
      token followed by the tokens after its NUL. */
  lemma TokensUnfold(t: seq<char>, pos: nat)
    requires NextTok(t, pos).Some?
    ensures var sp := NextTok(t, pos).value;
      Tokens(t, pos) == [t[sp.start..sp.stop]] + Tokens(t, sp.stop + 1)
  {
  }

  /** Writing the NUL after a token leaves the rest of the text in place. */
  lemma HoldsAfterWrite(buf: array<char>, t: seq<char>, pos: nat, sp: Span, before: seq<char>)
    requires NoNul(t) && |before| == buf.Length && |t| < |before| && before[|t|] == '\0'
    requires forall k :: pos <= k < |t| ==> before[k] == t[k]
    requires NextTok(t, pos) == Some(sp) && buf[..] == before[sp.stop := '\0']
    ensures Holds(buf, t, sp.stop + 1)
    ensures HasNulFrom(buf[..], sp.start) && CStrEnd(buf[..], sp.start) == sp.stop
    ensures buf[sp.start..sp.stop] == t[sp.start..sp.stop]
  {
    assert forall k :: sp.start <= k < sp.stop ==> buf[..][k] == t[k];
    CStrEndAt(buf[..], sp.start, sp.stop);
  }

  /** One pass of the loop over tokens [w] + more, where arg is the token after
      w when w needs one and there is one, and rest is what follows the
      tokens the pass uses. */
  lemma LoopAdvance(w: string, more: seq<string>, arg: Option<string>, rest: seq<string>, s: Pass)
    requires NeedsArg(w) ==> (more == [] && arg.None?) || (more != [] && arg == Some(more[0]) && rest == more[1..])
    requires !NeedsArg(w) ==> arg.None? && rest == more
    ensures var out := StepOne(w, arg, s);
      (out.Next? ==> Loop([w] + more, s) == Loop(rest, out.p)) && (out.Stop? ==> Loop([w] + more, s) == out.e)
  {
    var toks := [w] + more;
    assert toks[0] == w && toks[1..] == more;
    if |toks| > 1 {
      assert toks[1] == more[0] && toks[2..] == more[1..];
    }
  }

  /** One token from the buffer at pos: its text and the position after its NUL. */
  method ReadToken(buf: array<char>, pos: nat, end: nat, ghost t: seq<char>) returns (w: Option<string>, next: nat)
    requires end == |t| && NoNul(t) && Holds(buf, t, pos)
    modifies buf
    ensures Holds(buf, t, next)
    ensures w.None? ==> next == pos && Tokens(t, pos) == []
    ensures w.Some? ==> pos < next <= |t| + 1 && Tokens(t, pos) == [w.value] + Tokens(t, next)
  {
    ghost var before := buf[..];
    var tok := GetTok(buf, pos, end, t);
    if tok.None? {
      TokensEmpty(t, pos);
      return None, pos;
    }
    ghost var sp := NextTok(t, pos).value;
    HoldsAfterWrite(buf, t, pos, sp, before);
    TokensUnfold(t, pos);
    var s := CStringAt(buf, tok.value);
    w := Some(s);
    next := tok.value + |s| + 1;
  }

  /** strlen of the whole buffer. */
  method Strlen(buf: array<char>) returns (end: nat)
    requires HasNulFrom(buf[..], 0)
    ensures end == CStrEnd(buf[..], 0)
    ensures NoNul(buf[..end]) && Holds(buf, buf[..end], 0)
  {
    end := 0;
    while buf[end] != '\0'
      invariant end <= CStrEnd(buf[..], 0)
      decreases CStrEnd(buf[..], 0) - end
    {
      end := end + 1;
    }
  }

  /** ParseOptions(szOptions): tokenize the NUL-terminated buffer in place and
      run the option loop over its tokens. */
  method ParseOptions(buf: array<char>, o: Options) returns (r: Outcome)
    requires HasNulFrom(buf[..], 0)
    modifies buf
    ensures r == ParseText(old(buf[..CStrEnd(buf[..], 0)]), o)
  {
    var end := Strlen(buf);
    ghost var t := buf[..end];
    var s := Pass(o, 0, false);
    var pos := 0;
    while true
      invariant end == |t| && NoNul(t) && Holds(buf, t, pos)
      invariant Loop(Tokens(t, pos), s) == Loop(Tokens(t, 0), Pass(o, 0, false))
      decreases |t| + 1 - pos
    {
      var stop, s', pos' := ParseStep(buf, pos, end, t, s);
      if stop.Some? {
        return Finish(stop.value);
      }
      if pos' == pos {
        break;
      }
      s, pos := s', pos';
    }
    r := Finish(Finished(s));
  }

  /** One trip round ParseOptions' loop: read a token (and its argument when
      it takes one) and apply it. pos' == pos when the text has no more tokens. */
  method ParseStep(buf: array<char>, pos: nat, end: nat, ghost t: seq<char>, s: Pass)
      returns (stop: Option<LoopEnd>, s': Pass, pos': nat)
    requires end == |t| && NoNul(t) && Holds(buf, t, pos)
    modifies buf
    ensures stop.Some? ==> Loop(Tokens(t, pos), s) == stop.value
    ensures stop.None? ==> Holds(buf, t, pos') && Loop(Tokens(t, pos), s) == Loop(Tokens(t, pos'), s')
    ensures stop.None? && pos' == pos ==> Tokens(t, pos) == []
    ensures stop.None? && pos' != pos ==> pos < pos' <= |t| + 1
  {
    var w, next := ReadToken(buf, pos, end, t);
    if w.None? {
      return None, s, pos;
    }
    var arg: Option<string> := None;
    var after := next;
    if NeedsArg(w.value) {
      arg, after := ReadToken(buf, next, end, t);
    }
    LoopAdvance(w.value, Tokens(t, next), arg, Tokens(t, after), s);
    var out := StepOne(w.value, arg, s);
    if out.Stop? {
      return Some(out.e), s, pos;
    }
    return None, out.p, after;
  }

  // ---------------------------------------------------------------------------
  // InitQBSP: the command line as one buffer

  /** Arguments that do not start with '-' are file names, and get quoted. */
  function Quoted(a: string): string
  {
    if IsOption(a) then a + " " else "\"" + a + "\" "
  }

  function Joined(args: seq<string>): string
  {
    if args == [] then [] else Quoted(args[0]) + Joined(args[1..])
  }

  /** The buffer size InitQBSP computes: one for the terminator, and for each
      argument its length, one for the space and two for quotes around a
      file name. */
  function CommandLineLength(args: seq<string>): nat
  {
    if args == [] then 1
    else |args[0]| + 1 + (if IsOption(args[0]) then 0 else 2) + CommandLineLength(args[1..])
  }

  /** The size is exact: the joined arguments and the terminator fill it. */
  lemma {:induction false} LengthIsExact(args: seq<string>)
    ensures |Joined(args)| + 1 == CommandLineLength(args)
  {
    if args != [] {
      LengthIsExact(args[1..]);
    }
  }

  lemma {:induction false} JoinedAppend(args: seq<string>, i: nat)
    requires i < |args|
    ensures Joined(args[..i + 1]) == Joined(args[..i]) + Quoted(args[i])
  {
    if i == 0 {
      assert args[..1][1..] == [];
    } else {
      assert args[..i + 1][1..] == args[1..][..i];
      assert args[..i][1..] == args[1..][..i - 1];
      JoinedAppend(args[1..], i - 1);
    }
  }

  /** strcat of s onto the buffer whose string ends at pos. */
  method Append(buf: array<char>, pos: nat, s: string) returns (pos': nat)
    requires pos + |s| <= buf.Length
    modifies buf
    ensures pos' == pos + |s|
    ensures buf[..] == old(buf[..pos]) + s + old(buf[pos + |s|..])
  {
    var k := 0;
    while k < |s|
      invariant k <= |s|
      invariant buf[..] == old(buf[..pos]) + s[..k] + old(buf[pos + k..])
    {
      buf[pos + k] := s[k];
      k := k + 1;
    }
    pos' := pos + |s|;
  }

  /** The size loop of InitQBSP. */
  method CommandLineSize(args: seq<string>) returns (length: nat)
    ensures length == CommandLineLength(args)
  {
    length := 1;
    var i := 0;
    while i < |args|
      invariant i <= |args|
      invariant length + CommandLineLength(args[i..]) == CommandLineLength(args) + 1
    {
      assert args[i..][1..] == args[i + 1..];
      length := length + |args[i]| + 1;
      if !IsOption(args[i]) {
        length := length + 2;
      }
      i := i + 1;
    }
    assert args[i..] == [];
  }

  /** InitQBSP's concatenation: size the buffer, then append each argument,
      quoted when it is a file name, followed by a space. */
  method BuildCommandLine(args: seq<string>) returns (buf: array<char>)
    ensures fresh(buf)
    ensures buf.Length == CommandLineLength(args)
    ensures buf[..] == Joined(args) + "\0"
  {
    var length := CommandLineSize(args);
    buf := new char[length](_ => '\0');
    LengthIsExact(args);
    var pos := 0;
    var i := 0;
    while i < |args|
      invariant i <= |args| && pos == |Joined(args[..i])| && pos <= length
      invariant buf.Length == length == |Joined(args)| + 1
      invariant buf[..] == Joined(args[..i]) + Zeros(length - pos)
    {
      ArgumentWrittenAt(args, i);
      JoinedAppend(args, i);
      pos := AppendPiece(buf, pos, Joined(args[..i]), Quoted(args[i]), length - pos);
      i := i + 1;
    }
    assert args[..i] == args;
  }

  function Zeros(n: nat): string
  {
    seq(n, _ => '\0')
  }

  /** strcat onto a buffer whose tail is still zero-filled. */
  method AppendPiece(buf: array<char>, pos: nat, ghost prefix: string, piece: string, ghost n: nat) returns (pos': nat)
    requires pos == |prefix| && |piece| <= n && buf[..] == prefix + Zeros(n)
    modifies buf
    ensures pos' == pos + |piece| && buf[..] == (prefix + piece) + Zeros(n - |piece|)
  {
    assert buf[..][..pos] == prefix;
    assert buf[..][pos + |piece|..] == Zeros(n - |piece|);
    pos' := Append(buf, pos, piece);
  }

  /** The joined arguments of a list split at i are the two halves joined. */
  lemma {:induction false} JoinedSplit(args: seq<string>, i: nat)
    requires i <= |args|
    ensures Joined(args) == Joined(args[..i]) + Joined(args[i..])
  {
    if i > 0 {
      assert args[..i][1..] == args[1..][..i - 1];
      assert args[i..] == args[1..][i - 1..];
      JoinedSplit(args[1..], i - 1);
    } else {
      assert args[..0] == [];
    }
  }

  /** An argument the tokenizer hands back unchanged: no NUL, an option with no
      white space, a file name with no quote or line break. */
  predicate Plain(a: string)
  {
    NoNul(a) &&
    (IsOption(a) ==> forall k :: 0 <= k < |a| ==> !IsSpace(a[k])) &&
    (!IsOption(a) ==> forall k :: 0 <= k < |a| ==> a[k] != '"' && a[k] != '\n' && a[k] != '\r')
  }

  lemma TokensEmpty(t: seq<char>, i: nat)
    requires NextTok(t, i).None?
    ensures Tokens(t, i) == []
  {
  }

  /** White space before the scan position changes nothing. */
  lemma TokensSkipSpace(t: seq<char>, i: nat)
    requires i < |t| && IsSpace(t[i])
    ensures Tokens(t, i) == Tokens(t, i + 1)
  {
    assert NextTok(t, i) == NextTok(t, i + 1);
  }

  /** ScanToken stops at the first character that ends the token. */
  lemma {:induction false} ScanTokenAt(t: seq<char>, i: nat, m: nat, quoted: bool)
    requires i <= m < |t| && EndsToken(t[m], quoted)
    requires forall k :: i <= k < m ==> !EndsToken(t[k], quoted)
    ensures ScanToken(t, i, quoted) == m
    decreases m - i
  {
    if i < m {
      ScanTokenAt(t, i + 1, m, quoted);
    }
  }

  /** The text holds q at position p. */
  predicate HoldsAt(t: seq<char>, p: nat, q: seq<char>)
  {
    p + |q| <= |t| && forall j :: 0 <= j < |q| ==> t[p + j] == q[j]
  }

  lemma HoldsAtMiddle(x: seq<char>, q: seq<char>, y: seq<char>)
    ensures HoldsAt(x + q + y, |x|, q)
  {
  }

  /** An option written by InitQBSP reads back as itself. */
  lemma OptionTokenAt(t: seq<char>, p: nat, a: string)
    requires Plain(a) && IsOption(a) && HoldsAt(t, p, a + " ")
    ensures Tokens(t, p) == [a] + Tokens(t, p + |a| + 1)
  {
    assert t[p + |a|] == (a + " ")[|a|];
    forall k | p <= k < p + |a|
      ensures !EndsToken(t[k], false) && t[k] == a[k - p]
    {
      assert t[k] == (a + " ")[k - p] == a[k - p];
    }
    ScanTokenAt(t, p, p + |a|, false);
    assert t[p] == a[0];
    assert NextTok(t, p) == Some(Span(p, p + |a|));
    TokensUnfold(t, p);
    assert t[p..p + |a|] == a by {
      forall k | 0 <= k < |a| ensures t[p..p + |a|][k] == a[k] {
        assert t[p..p + |a|][k] == t[p + k];
      }
    }
  }

  lemma FileNameChars(t: seq<char>, p: nat, a: string)
    requires Plain(a) && !IsOption(a) && HoldsAt(t, p, "\"" + a + "\" ")
    ensures t[p] == '"' && t[p + |a| + 1] == '"' && t[p + |a| + 2] == ' '
    ensures forall k :: p + 1 <= k < p + 1 + |a| ==> !EndsToken(t[k], true) && t[k] == a[k - p - 1]
  {
    var q := "\"" + a + "\" ";
    assert t[p] == q[0] && t[p + |a| + 1] == q[|a| + 1] && t[p + |a| + 2] == q[|a| + 2];
    forall k | p + 1 <= k < p + 1 + |a|
      ensures !EndsToken(t[k], true) && t[k] == a[k - p - 1]
    {
      assert t[k] == q[k - p] == a[k - p - 1];
    }
  }

  /** A file name written by InitQBSP, in quotes, reads back as itself. */
  lemma FileNameTokenAt(t: seq<char>, p: nat, a: string)
    requires Plain(a) && !IsOption(a) && HoldsAt(t, p, "\"" + a + "\" ")
    ensures Tokens(t, p) == [a] + Tokens(t, p + |a| + 3)
  {
    FileNameChars(t, p, a);
    ScanTokenAt(t, p + 1, p + 1 + |a|, true);
    assert NextTok(t, p) == Some(Span(p + 1, p + 1 + |a|));
    TokensUnfold(t, p);
    assert t[p + 1..p + 1 + |a|] == a by {
      forall k | 0 <= k < |a| ensures t[p + 1..p + 1 + |a|][k] == a[k] {
        assert t[p + 1..p + 1 + |a|][k] == t[p + 1 + k];
      }
    }
    TokensSkipSpace(t, p + |a| + 2);
  }

  /** An argument as InitQBSP writes it reads back as itself, and the scan
      goes on after what was written. */
  lemma ArgumentTokenAt(t: seq<char>, p: nat, a: string, p': nat)
    requires Plain(a) && HoldsAt(t, p, Quoted(a)) && p' == p + |Quoted(a)|
    ensures Tokens(t, p) == [a] + Tokens(t, p')
  {
    if IsOption(a) {
      OptionTokenAt(t, p, a);
    } else {
      FileNameTokenAt(t, p, a);
    }
  }

  /** Argument k sits in the joined command line right after the arguments
      before it. */
  lemma ArgumentWrittenAt(args: seq<string>, k: nat)
    requires k < |args|
    ensures HoldsAt(Joined(args), |Joined(args[..k])|, Quoted(args[k]))
    ensures |Joined(args[..k + 1])| == |Joined(args[..k])| + |Quoted(args[k])|
  {
    var a := args[k];
    JoinedSplit(args, k);
    JoinedSplit(args[k..], 1);
    assert args[k..][..1] == [a] && args[k..][1..] == args[k + 1..];
    assert Joined([a]) == Quoted(a) + Joined([]);
    HoldsAtMiddle(Joined(args[..k]), Quoted(a), Joined(args[k + 1..]));
    JoinedAppend(args, k);
  }

  /** A reading f that, at each position of ps, yields one element of xs
      followed by its reading at the next position, and nothing at the
      last, yields the whole suffix of xs from any of them. */
  lemma {:induction false} Chain(f: nat -> seq<string>, ps: seq<nat>, xs: seq<string>, k: nat)
    requires |ps| == |xs| + 1 && k <= |xs|
    requires forall j :: 0 <= j < |xs| ==> f(ps[j]) == [xs[j]] + f(ps[j + 1])
    requires f(ps[|xs|]) == []
    ensures f(ps[k]) == xs[k..]
    decreases |xs| - k
  {
    if k < |xs| {
      Chain(f, ps, xs, k + 1);
      assert xs[k..] == [xs[k]] + xs[k + 1..];
    }
  }

  /** The tokenizer splits the concatenated command line back into exactly
      the program's arguments, when each is Plain. */
  lemma CommandLineRoundTrip(args: seq<string>)
    requires forall k :: 0 <= k < |args| ==> Plain(args[k])
    ensures Tokens(Joined(args), 0) == args
  {
    var t := Joined(args);
    var ps: seq<nat> := seq(|args| + 1, j requires 0 <= j <= |args| => |Joined(args[..j])|);
    forall j | 0 <= j < |args|
      ensures Tokens(t, ps[j]) == [args[j]] + Tokens(t, ps[j + 1])
    {
      ArgumentReadAt(args, j);
    }
    assert args[..|args|] == args;
    TokensEmpty(t, ps[|args|]);
    Chain((p: nat) => Tokens(t, p), ps, args, 0);
    assert args[..0] == [];
  }

  lemma ArgumentReadAt(args: seq<string>, k: nat)
    requires k < |args| && Plain(args[k])
    ensures Tokens(Joined(args), |Joined(args[..k])|) == [args[k]] + Tokens(Joined(args), |Joined(args[..k + 1])|)
  {
    ArgumentWrittenAt(args, k);
    ArgumentTokenAt(Joined(args), |Joined(args[..k])|, args[k], |Joined(args[..k + 1])|);
  }

  lemma {:induction false} JoinedNoNul(args: seq<string>)
    requires forall k :: 0 <= k < |args| ==> NoNul(args[k])
    ensures NoNul(Joined(args))
  {
    if args != [] {
      JoinedNoNul(args[1..]);
      assert forall k :: 0 <= k < |Quoted(args[0])| ==>
        (Quoted(args[0])[k] == '"' || Quoted(args[0])[k] == ' ' || Quoted(args[0])[k] in args[0]);
    }
  }

  /** The text ParseOptions reads from a file's contents: up to the first NUL. */
  function FileText(f: seq<char>): seq<char>
  {
    var b := f + "\0";
    assert HasNulFrom(b, 0) by { assert b[|f|] == '\0'; }
    b[..CStrEnd(b, 0)]
  }

  /** InitQBSP after both parses: no map name prints the usage text, and the
      BSP name defaults to the map name. */
  function Complete(r: Outcome): Outcome
  {
    match r
    case Parsed(o) =>
      if o.mapName == [] then ShowUsage
      else Parsed(if o.bspName == [] then o.(bspName := o.mapName) else o)
    case _ => r
  }

  /** InitQBSP's option handling: the options file first (when it has
      content), then the concatenated command line. */
  function InitOptions(ini: Option<seq<char>>, args: seq<string>, o: Options): Outcome
  {
    var first := if ini.Some? && |ini.value| > 0 then ParseText(FileText(ini.value), o) else Parsed(o);
    match first
    case Parsed(o1) => Complete(ParseText(Joined(args), o1))
    case _ => first
  }

  method InitQbsp(ini: Option<seq<char>>, args: seq<string>, o: Options) returns (r: Outcome)
    requires forall k :: 0 <= k < |args| ==> NoNul(args[k])
    ensures r == InitOptions(ini, args, o)
  {
    var cur := o;
    if ini.Some? && |ini.value| > 0 {
      var f := ini.value;
      var b := new char[|f| + 1](k requires 0 <= k <= |f| => if k < |f| then f[k] else '\0');
      assert b[..] == f + "\0";
      assert b[|f|] == '\0';
      var r1 := ParseOptions(b, cur);
      if !r1.Parsed? {
        return r1;
      }
      cur := r1.o;
    }
    var buf := BuildCommandLine(args);
    JoinedNoNul(args);
    CStrEndAt(buf[..], 0, |Joined(args)|);
    assert buf[..CStrEnd(buf[..], 0)] == Joined(args);
    var r2 := ParseOptions(buf, cur);
    r := Complete(r2);
  }

  /** A command line of Plain arguments is parsed exactly as its argument list. */
  lemma InitOptionsSeesArguments(args: seq<string>, o: Options)
    requires forall k :: 0 <= k < |args| ==> Plain(args[k])
    ensures InitOptions(None, args, o) == Complete(Finish(Loop(args, Pass(o, 0, false))))
  {
    CommandLineRoundTrip(args);
  }

  /** The first two file names are the map and BSP names; a third is an error. */
  lemma FileNames(m: string, b: string, c: string, o: Options)
    requires !IsOption(m) && !IsOption(b) && !IsOption(c)
    ensures Loop([m], Pass(o, 0, false)) == Finished(Pass(o.(mapName := m), 1, false))
    ensures Loop([m, b], Pass(o, 0, false)) == Finished(Pass(o.(mapName := m, bspName := b), 2, false))
    ensures Loop([m, b, c], Pass(o, 0, false)).Failed?
  {
    assert [m, b][1..] == [b];
    assert [m, b, c][1..] == [b, c] && [b, c][1..] == [c];
    var s1 := Pass(o.(mapName := m), 1, false);
    assert Loop([m, b], Pass(o, 0, false)) == Loop([b], s1);
    assert Loop([b], s1) == Loop([], Pass(o.(mapName := m, bspName := b), 2, false));
    var s2 := Pass(o.(mapName := m, bspName := b), 2, false);
    assert Loop([m, b, c], Pass(o, 0, false)) == Loop([b, c], s1) == Loop([c], s2);
  }

  /** An option that takes an argument fails when it is the last token. */
  lemma MissingArgument(w: string, s: Pass)
    requires NeedsArg(w)
    ensures Loop([w], s).Failed?
  {
  }
}
