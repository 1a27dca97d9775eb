/**
  * The .map/.ent reader of bsputil and its --replace-entities pass: entities are
  * read as key/value pairs plus the raw text of their brushes, and the brushes of
  * a .map file are moved onto the entities of an .ent file.
  *
  * The tokenizer (parser_t) and the entity dictionary (entdict_t) are not part of
  * this model: the input of the reader is the file text together with its token
  * list, and an entity's pairs are a map from key to value.
  */
module MapFile {
  import opened Common

  // ------------------------------------------------------------------
  // Key trimming
  // ------------------------------------------------------------------

  /** std::isspace in the "C" locale. */
  predicate IsSpace(c: char)
  {
    c == ' ' || c == '\t' || c == '\n' || c == '\U{000B}' || c == '\U{000C}' || c == '\r'
  }

  predicate HasNonSpace(s: string)
  {
    exists i :: 0 <= i < |s| && !IsSpace(s[i])
  }

  /** s without its leading white space. */
  function TrimFront(s: string): (r: string)
    ensures |r| <= |s|
  {
    if |s| > 0 && IsSpace(s[0]) then TrimFront(s[1..]) else s
  }

  /** s without its trailing white space. */
  function TrimBack(s: string): string
  {
    if |s| > 0 && IsSpace(s[|s| - 1]) then TrimBack(s[..|s| - 1]) else s
  }

  /** TrimFront removes a prefix of white space and stops at a non-space character. */
  lemma {:induction false} FrontMeaning(s: string)
    ensures |TrimFront(s)| <= |s| && TrimFront(s) == s[|s| - |TrimFront(s)|..]
    ensures forall i :: 0 <= i < |s| - |TrimFront(s)| ==> IsSpace(s[i])
    ensures |TrimFront(s)| > 0 ==> !IsSpace(TrimFront(s)[0])
  {
    if |s| > 0 && IsSpace(s[0]) {
      var rest := s[1..];
      assert TrimFront(s) == TrimFront(rest);
      FrontMeaning(rest);
      assert rest[|rest| - |TrimFront(rest)|..] == s[|s| - |TrimFront(s)|..];
      forall i | 1 <= i < |s| - |TrimFront(s)|
        ensures IsSpace(s[i])
      {
        assert s[i] == s[1..][i - 1];
      }
    }
  }

  /** TrimBack removes a suffix of white space and stops at a non-space character. */
  lemma {:induction false} BackMeaning(s: string)
    ensures |TrimBack(s)| <= |s| && TrimBack(s) == s[..|TrimBack(s)|]
    ensures forall i :: |TrimBack(s)| <= i < |s| ==> IsSpace(s[i])
    ensures |TrimBack(s)| > 0 ==> !IsSpace(TrimBack(s)[|TrimBack(s)| - 1])
  {
    if |s| > 0 && IsSpace(s[|s| - 1]) {
      var init := s[..|s| - 1];
      BackMeaning(init);
      forall i | |TrimBack(s)| <= i < |s| - 1
        ensures IsSpace(s[i])
      {
        assert s[i] == init[i];
      }
    }
  }

  /** The key of an epair: its token with white space trimmed from both ends. */
  function TrimKey(s: string): string
  {
    TrimBack(TrimFront(s))
  }

  /** The number of leading white-space characters of s. */
  function Lead(s: string): nat
  {
    |s| - |TrimFront(s)|
  }

  /** The trimmed key is the part of s that follows its leading white space. */
  lemma TrimKeySlice(s: string)
    ensures Lead(s) + |TrimKey(s)| <= |s|
    ensures TrimKey(s) == s[Lead(s)..Lead(s) + |TrimKey(s)|]
  {
    var t := TrimFront(s);
    var r := TrimBack(t);
    FrontMeaning(s);
    BackMeaning(t);
    assert t == s[Lead(s)..];
    assert r == t[..|r|];
  }

  /** Only white space is trimmed, and the trimmed key neither starts nor ends
    * with white space. */
  lemma TrimKeyMeaning(s: string)
    ensures forall i :: 0 <= i < Lead(s) ==> IsSpace(s[i])
    ensures forall i :: Lead(s) + |TrimKey(s)| <= i < |s| ==> IsSpace(s[i])
    ensures |TrimKey(s)| > 0 ==> !IsSpace(TrimKey(s)[0]) && !IsSpace(TrimKey(s)[|TrimKey(s)| - 1])
  {
    FrontMeaning(s);
    TrimKeyTail(s);
    TrimKeyEnds(s);
  }

  lemma TrimKeyTail(s: string)
    ensures forall i :: Lead(s) + |TrimKey(s)| <= i < |s| ==> IsSpace(s[i])
  {
    var t := TrimFront(s);
    var r := TrimBack(t);
    FrontMeaning(s);
    BackMeaning(t);
    var lead := Lead(s);
    assert t == s[lead..];
    forall i | lead + |r| <= i < |s|
      ensures IsSpace(s[i])
    {
      assert s[i] == t[i - lead];
    }
  }

  lemma TrimKeyEnds(s: string)
    ensures |TrimKey(s)| > 0 ==> !IsSpace(TrimKey(s)[0]) && !IsSpace(TrimKey(s)[|TrimKey(s)| - 1])
  {
    var t := TrimFront(s);
    var r := TrimBack(t);
    FrontMeaning(s);
    BackMeaning(t);
    if |r| > 0 {
      assert r[0] == t[0];
    }
  }

  /** Trimming a trimmed key changes nothing. */
  lemma TrimKeyIdempotent(s: string)
    ensures TrimKey(TrimKey(s)) == TrimKey(s)
  {
    var r := TrimKey(s);
    TrimKeyMeaning(s);
    assert TrimFront(r) == r;
  }

  /** A key trims to nothing exactly when it is all white space. */
  lemma TrimKeyEmpty(s: string)
    ensures TrimKey(s) == "" <==> !HasNonSpace(s)
  {
    TrimKeyMeaning(s);
    TrimKeySlice(s);
    if TrimKey(s) != "" {
      assert !IsSpace(s[Lead(s)]);
    }
  }

  /** The leading loop as written: it reads key.front() before every erase, also
    * once the key has become empty (None: undefined behaviour). */
  function TrimFrontAsWritten(s: string): Option<string>
  {
    if |s| == 0 then None else if IsSpace(s[0]) then TrimFrontAsWritten(s[1..]) else Some(s)
  }

  /** The trailing loop as written, reading key.back() the same way. */
  function TrimBackAsWritten(s: string): Option<string>
  {
    if |s| == 0 then None else if IsSpace(s[|s| - 1]) then TrimBackAsWritten(s[..|s| - 1]) else Some(s)
  }

  function TrimKeyAsWritten(s: string): Option<string>
  {
    match TrimFrontAsWritten(s)
    case None => None
    case Some(t) => TrimBackAsWritten(t)
  }

  /** The loops as written agree with TrimKey on every key holding a non-space
    * character, and read past the end of every blank key (the empty key included). */
  lemma {:induction false} TrimKeyAsWrittenBlank(s: string)
    ensures TrimKeyAsWritten(s) == if HasNonSpace(s) then Some(TrimKey(s)) else None
  {
    FrontAsWritten(s);
    if HasNonSpace(s) {
      var t := TrimFront(s);
      FrontMeaning(s);
      TrimKeyEmpty(s);
      assert |t| > 0;
      BackAsWritten(t);
      assert HasNonSpace(t) by {
        assert !IsSpace(t[0]);
      }
    }
  }

  lemma {:induction false} FrontAsWritten(s: string)
    ensures TrimFrontAsWritten(s) == if HasNonSpace(s) then Some(TrimFront(s)) else None
  {
    if |s| > 0 {
      FrontAsWritten(s[1..]);
      if IsSpace(s[0]) {
        if HasNonSpace(s) {
          var i :| 0 <= i < |s| && !IsSpace(s[i]);
          assert s[1..][i - 1] == s[i];
        }
        if HasNonSpace(s[1..]) {
          var i :| 0 <= i < |s| - 1 && !IsSpace(s[1..][i]);
          assert s[i + 1] == s[1..][i];
        }
      } else {
        assert !IsSpace(s[0]);
      }
    }
  }

  lemma {:induction false} BackAsWritten(s: string)
    ensures TrimBackAsWritten(s) == if HasNonSpace(s) then Some(TrimBack(s)) else None
  {
    if |s| > 0 {
      var init := s[..|s| - 1];
      BackAsWritten(init);
      if IsSpace(s[|s| - 1]) {
        if HasNonSpace(s) {
          var i :| 0 <= i < |s| && !IsSpace(s[i]);
          assert init[i] == s[i];
        }
        if HasNonSpace(init) {
          var i :| 0 <= i < |init| && !IsSpace(init[i]);
          assert s[i] == init[i];
        }
      } else {
        assert !IsSpace(s[|s| - 1]);
      }
    }
  }

  /** The two erase loops of ParseEpair, stopping once the key is empty. */
  method TrimKeyInPlace(token: string) returns (key: string)
    ensures key == TrimKey(token)
  {
    key := token;
    while |key| > 0 && IsSpace(key[0])
      invariant TrimFront(key) == TrimFront(token)
    {
      key := key[1..];
    }
    ghost var front := key;
    while |key| > 0 && IsSpace(key[|key| - 1])
      invariant TrimBack(key) == TrimBack(front)
    {
      key := key[..|key| - 1];
    }
  }

  // ------------------------------------------------------------------
  // Tokens and the parser state
  // ------------------------------------------------------------------

  /** A token of the file: its text, whether a line break comes between it and
    * the token before, and the offset just past its last character. */
  datatype Token = Token(text: string, newline: bool, end: nat)

  /** Tokens lie inside the text, in order, each at least one character long. */
  predicate WellFormed(src: string, toks: seq<Token>)
  {
    && (forall i :: 0 <= i < |toks| ==> 1 <= toks[i].end <= |src|)
    && (forall i, j :: 0 <= i < j < |toks| ==> toks[i].end < toks[j].end)
  }

  const NO_CLOSE := "Unexpected EOF (no closing brace)"
  const NO_OPEN := "Invalid entity format, { not found"
  const INCOMPLETE := "incomplete entry"

  /** parse_token at token position pos: false at the end of the file, and with
    * PARSE_SAMELINE a fatal error when the next token is on a later line or missing. */
  function ReadToken(toks: seq<Token>, pos: nat, sameLine: bool): Fallible<bool>
    requires pos <= |toks|
  {
    if pos == |toks| then (if sameLine then Fatal(INCOMPLETE) else Ok(false))
    else if sameLine && toks[pos].newline then Fatal(INCOMPLETE)
    else Ok(true)
  }

  /** The reader over one file: its text and tokens, the number of tokens read,
    * and the last token read. */
  class Parser {
    const src: string
    const toks: seq<Token>
    var next: nat
    var token: string

    ghost predicate Valid()
      reads this
    {
      WellFormed(src, toks) && next <= |toks| && (next > 0 ==> token == toks[next - 1].text)
    }

    constructor(src: string, toks: seq<Token>)
      requires WellFormed(src, toks)
      ensures Valid() && this.src == src && this.toks == toks && next == 0 && token == ""
    {
      this.src := src;
      this.toks := toks;
      next := 0;
      token := "";
    }

    /** Offset just past the last token read (the parser's pos). */
    function Pos(): nat
      reads this
      requires Valid()
    {
      if next == 0 then 0 else toks[next - 1].end
    }

    method ParseToken(sameLine: bool) returns (r: Fallible<bool>)
      requires Valid()
      modifies this
      ensures Valid()
      ensures r == ReadToken(toks, old(next), sameLine)
      ensures r == Ok(true) ==> next == old(next) + 1 && token == toks[old(next)].text
      ensures r != Ok(true) ==> next == old(next) && token == old(token)
    {
      r := ReadToken(toks, next, sameLine);
      if r == Ok(true) {
        token := toks[next].text;
        next := next + 1;
      }
    }
  }

  // ------------------------------------------------------------------
  // Entities
  // ------------------------------------------------------------------

  /** map_entity_t: the key/value pairs and the raw text of the brushes. */
  datatype MapEntity = MapEntity(epairs: map<string, string>, brushes: string)

  const Blank := MapEntity(map[], "")

  /** What ParseEntity returns, the entity it filled in and where the parser stops. */
  datatype Outcome = Outcome(status: Fallible<bool>, entity: MapEntity, next: nat)

  /** The first "}" at or after token position from. */
  function CloseAt(toks: seq<Token>, from: nat): (r: Option<nat>)
    requires from <= |toks|
    ensures r.Some? ==> from <= r.value < |toks| && toks[r.value].text == "}"
    ensures r.Some? ==> forall k :: from <= k < r.value ==> toks[k].text != "}"
    ensures r.None? ==> forall k :: from <= k < |toks| ==> toks[k].text != "}"
    decreases |toks| - from
  {
    if from == |toks| then None
    else if toks[from].text == "}" then Some(from)
    else CloseAt(toks, from + 1)
  }

  /** The raw text of a brush opened by token open and closed by token close:
    * from the "{" through the "}", then a line break. */
  function BrushText(src: string, toks: seq<Token>, open: nat, close: nat): string
    requires open < close < |toks|
  {
    var from, to := toks[open].end - 1, toks[close].end;
    // always within the text when the tokens are WellFormed
    if 0 <= from <= to <= |src| then src[from..to] + "\n" else "\n"
  }

  /** The body of an entity from token position pos on, with e filled in so far. */
  function Body(src: string, toks: seq<Token>, pos: nat, e: MapEntity): (o: Outcome)
    requires pos <= |toks|
    ensures o.status != Ok(false)
    ensures o.status == Ok(true) ==> pos < o.next <= |toks|
    decreases |toks| - pos
  {
    if pos == |toks| then Outcome(Fatal(NO_CLOSE), e, pos)
    else if toks[pos].text == "}" then Outcome(Ok(true), e, pos + 1)
    else if toks[pos].text == "{" then
      match CloseAt(toks, pos + 1)
      case None => Outcome(Fatal(NO_CLOSE), e, |toks|)
      case Some(j) => Body(src, toks, j + 1, e.(brushes := e.brushes + BrushText(src, toks, pos, j)))
    else if pos + 1 == |toks| || toks[pos + 1].newline then Outcome(Fatal(INCOMPLETE), e, pos + 1)
    else Body(src, toks, pos + 2, e.(epairs := e.epairs[TrimKey(toks[pos].text) := toks[pos + 1].text]))
  }

  /** ParseEntity from token position pos: false at the end of the file, a fatal
    * error unless the entity opens with "{", and otherwise its body. */
  function EntitySpec(src: string, toks: seq<Token>, pos: nat): (o: Outcome)
    requires pos <= |toks|
    ensures o.status == Ok(false) <==> pos == |toks|
    ensures o.status == Ok(false) ==> o.entity == Blank
    ensures o.status == Ok(true) ==> pos < o.next <= |toks|
  {
    if pos == |toks| then Outcome(Ok(false), Blank, pos)
    else if toks[pos].text != "{" then Outcome(Fatal(NO_OPEN), Blank, pos)
    else Body(src, toks, pos + 1, Blank)
  }

  /** The tokens of one epair: its key is trimmed and its value must follow on the
    * same line. */
  method ParseEpair(p: Parser, e: MapEntity) returns (r: Fallible<MapEntity>)
    requires p.Valid() && p.next > 0
    modifies p
    ensures p.Valid() && old(p.next) <= p.next
    ensures var pos := old(p.next);
            if pos == |p.toks| || p.toks[pos].newline then r == Fatal(INCOMPLETE)
            else r == Ok(e.(epairs := e.epairs[TrimKey(p.toks[pos - 1].text) := p.toks[pos].text])) && p.next == pos + 1
  {
    var key := TrimKeyInPlace(p.token);
    var ok := p.ParseToken(true);
    if ok.Fatal? {
      r := Fatal(ok.msg);
    } else {
      r := Ok(e.(epairs := e.epairs[key := p.token]));
    }
  }

  /** The inner loop of ParseEntity: read tokens up to the first "}". On success
    * it returns the position of the "}". */
  method SkipBrush(p: Parser) returns (r: Fallible<nat>)
    requires p.Valid()
    modifies p
    ensures p.Valid() && old(p.next) <= p.next
    ensures var c := CloseAt(p.toks, old(p.next));
            if c.None? then r == Fatal(NO_CLOSE) else r == Ok(c.value) && p.next == c.value + 1
  {
    ghost var start := p.next;
    var done := false;
    r := Fatal(NO_CLOSE);
    while !done
      invariant p.Valid() && start <= p.next
      invariant !done ==> CloseAt(p.toks, p.next) == CloseAt(p.toks, start)
      invariant done ==> var c := CloseAt(p.toks, start);
                         if c.None? then r == Fatal(NO_CLOSE) else r == Ok(c.value) && p.next == c.value + 1
      decreases !done, |p.toks| - p.next
    {
      var ok := p.ParseToken(false);
      if ok != Ok(true) {
        r := Fatal(NO_CLOSE);
        done := true;
      } else if p.token == "}" {
        r := Ok(p.next - 1);
        done := true;
      }
    }
  }

  /** A "{" inside an entity: the body goes on after the brush it opens. */
  lemma {:induction false} BodyAtBrush(src: string, toks: seq<Token>, pos: nat, e: MapEntity, j: nat, e': MapEntity)
    requires pos < j < |toks|
    requires toks[pos].text == "{" && CloseAt(toks, pos + 1) == Some(j)
    requires e' == e.(brushes := e.brushes + BrushText(src, toks, pos, j))
    ensures Body(src, toks, pos, e) == Body(src, toks, j + 1, e')
  {
    var c := CloseAt(toks, pos + 1);
    assert c == Some(j);
    assert toks[pos].text != "}";
  }

  /** A key inside an entity with its value on the same line: the body goes on after the value. */
  lemma {:induction false} BodyAtPair(src: string, toks: seq<Token>, pos: nat, e: MapEntity)
    requires pos + 1 < |toks| && !toks[pos + 1].newline
    requires toks[pos].text != "{" && toks[pos].text != "}"
    ensures Body(src, toks, pos, e) == Body(src, toks, pos + 2, e.(epairs := e.epairs[TrimKey(toks[pos].text) := toks[pos + 1].text]))
  {
  }

  /** A "}" ends the entity. */
  lemma {:induction false} BodyAtClose(src: string, toks: seq<Token>, pos: nat, e: MapEntity)
    requires pos < |toks| && toks[pos].text == "}"
    ensures Body(src, toks, pos, e) == Outcome(Ok(true), e, pos + 1)
  {
  }

  /** The brush opened by the last token read: its text is added to the entity. */
  method BrushStep(p: Parser, e: MapEntity) returns (r: Fallible<MapEntity>)
    requires p.Valid() && p.next > 0 && p.toks[p.next - 1].text == "{"
    modifies p
    ensures p.Valid() && old(p.next) <= p.next
    ensures var c := CloseAt(p.toks, old(p.next));
            if c.None? then r == Fatal(NO_CLOSE)
            else p.next == c.value + 1 && r == Ok(e.(brushes := e.brushes + BrushText(p.src, p.toks, old(p.next) - 1, c.value)))
  {
    ghost var open := p.next - 1;
    var start := p.Pos() - 1;
    var close := SkipBrush(p);
    if close.Fatal? {
      r := Fatal(close.msg);
    } else {
      r := Ok(e.(brushes := e.brushes + (p.src[start..p.Pos()] + "\n")));
    }
  }

  /** One pass of the do-while loop of ParseEntity: one token, and for a "{" the
    * brush it opens, or for a key the value after it. `more` is false once the
    * loop has ended, with a closing brace or a fatal error. */
  method EntityStep(p: Parser, e: MapEntity) returns (more: bool, r: Fallible<bool>, e': MapEntity)
    requires p.Valid() && p.next > 0
    modifies p
    ensures p.Valid() && p.next > 0
    ensures var o := Body(p.src, p.toks, old(p.next), e);
            if more then old(p.next) < p.next && Body(p.src, p.toks, p.next, e') == o
            else r == o.status && (r.Ok? ==> e' == o.entity && p.next == o.next)
  {
    e' := e;
    more := false;
    ghost var pos := p.next;
    var ok := p.ParseToken(false);
    if ok != Ok(true) {
      r := Fatal(NO_CLOSE);
    } else if p.token == "}" {
      r := Ok(true);
    } else if p.token == "{" {
      var brush := BrushStep(p, e);
      if brush.Fatal? {
        r := Fatal(brush.msg);
      } else {
        BodyAtBrush(p.src, p.toks, pos, e, p.next - 1, brush.value);
        e' := brush.value;
        r := Ok(true);
        more := true;
      }
    } else {
      var pair := ParseEpair(p, e);
      if pair.Fatal? {
        r := Fatal(pair.msg);
      } else {
        BodyAtPair(p.src, p.toks, pos, e);
        e' := pair.value;
        r := Ok(true);
        more := true;
      }
    }
  }

  /** ParseEntity: reads one entity; false when the file has no more tokens. */
  method ParseEntity(p: Parser) returns (r: Fallible<bool>, e: MapEntity)
    requires p.Valid()
    modifies p
    ensures p.Valid()
    ensures var o := EntitySpec(p.src, p.toks, old(p.next));
            r == o.status && (r.Ok? ==> e == o.entity && p.next == o.next)
  {
    ghost var goal := EntitySpec(p.src, p.toks, p.next);
    e := Blank;
    var ok := p.ParseToken(false);
    if ok != Ok(true) {
      r := Ok(false);
    } else if p.token != "{" {
      r := Fatal(NO_OPEN);
    } else {
      var more := true;
      r := Ok(true);
      while more
        invariant p.Valid() && p.next > 0
        invariant more ==> Body(p.src, p.toks, p.next, e) == goal
        invariant !more ==> r == goal.status && (r.Ok? ==> e == goal.entity && p.next == goal.next)
        decreases more, |p.toks| - p.next
      {
        more, r, e := EntityStep(p, e);
      }
    }
  }

  // ------------------------------------------------------------------
  // Brushless entities read back
  // ------------------------------------------------------------------

  /** The pairs of an entity, set one after the other under their trimmed keys. */
  function Epairs(pairs: seq<(string, string)>): map<string, string>
    decreases |pairs|
  {
    if pairs == [] then map[]
    else var k := |pairs| - 1; Epairs(pairs[..k])[TrimKey(pairs[k].0) := pairs[k].1]
  }

  /** The tokens from pos on spell out "{", then each key followed by its value on
    * the same line, then "}": the layout in which entities are written back. */
  predicate Lays(toks: seq<Token>, pos: nat, pairs: seq<(string, string)>)
  {
    && pos + 2 * |pairs| + 2 <= |toks|
    && toks[pos].text == "{"
    && toks[pos + 2 * |pairs| + 1].text == "}"
    && (forall k :: 0 <= k < |pairs| ==>
          && toks[pos + 1 + 2 * k].text == pairs[k].0
          && pairs[k].0 != "{" && pairs[k].0 != "}"
          && toks[pos + 2 + 2 * k].text == pairs[k].1
          && !toks[pos + 2 + 2 * k].newline)
  }

  /** The body from the k-th pair on completes the pairs read before it. */
  lemma {:induction false} BodyReadsPairs(src: string, toks: seq<Token>, pos: nat, pairs: seq<(string, string)>, k: nat)
    requires Lays(toks, pos, pairs) && k <= |pairs|
    ensures Body(src, toks, pos + 1 + 2 * k, MapEntity(Epairs(pairs[..k]), ""))
            == Outcome(Ok(true), MapEntity(Epairs(pairs), ""), pos + 2 * |pairs| + 2)
    decreases |pairs| - k
  {
    var at := pos + 1 + 2 * k;
    var e := MapEntity(Epairs(pairs[..k]), "");
    if k == |pairs| {
      assert pairs[..k] == pairs;
      BodyAtClose(src, toks, at, e);
    } else {
      var key, value := pairs[k].0, pairs[k].1;
      BodyReadsPairs(src, toks, pos, pairs, k + 1);
      assert Epairs(pairs[..k + 1]) == e.epairs[TrimKey(key) := value] by {
        assert pairs[..k + 1][..k] == pairs[..k];
      }
      assert toks[at].text == key && key != "{" && key != "}" && toks[at + 1].text == value && !toks[at + 1].newline;
      BodyAtPair(src, toks, at, e);
    }
  }

  /** An entity laid out as "{", key/value lines and "}" is read back as exactly
    * those pairs, with no brushes, and reading stops after its "}". */
  lemma ReadBack(src: string, toks: seq<Token>, pos: nat, pairs: seq<(string, string)>)
    requires Lays(toks, pos, pairs)
    ensures EntitySpec(src, toks, pos) == Outcome(Ok(true), MapEntity(Epairs(pairs), ""), pos + 2 * |pairs| + 2)
  {
    assert pairs[..0] == [];
    assert MapEntity(Epairs(pairs[..0]), "") == Blank;
    BodyReadsPairs(src, toks, pos, pairs, 0);
    assert toks[pos].text == "{";
  }

  /** The entities of a file from token position pos on, until the end of the file. */
  function Entities(src: string, toks: seq<Token>, pos: nat): Fallible<seq<MapEntity>>
    requires pos <= |toks|
    decreases |toks| - pos
  {
    var o := EntitySpec(src, toks, pos);
    match o.status
    case Fatal(msg) => Fatal(msg)
    case Ok(more) =>
      if !more then Ok([])
      else match Entities(src, toks, o.next)
        case Fatal(msg) => Fatal(msg)
        case Ok(rest) => Ok([o.entity] + rest)
  }

  /** The entities read so far, followed by the outcome of the rest of the file. */
  function Then(read: seq<MapEntity>, rest: Fallible<seq<MapEntity>>): Fallible<seq<MapEntity>>
  {
    match rest
    case Fatal(msg) => Fatal(msg)
    case Ok(more) => Ok(read + more)
  }

  /** One call of ParseEntity more: the outcome of the whole file is unchanged. */
  lemma ThenStep(read: seq<MapEntity>, src: string, toks: seq<Token>, pos: nat)
    requires pos <= |toks|
    ensures var o := EntitySpec(src, toks, pos);
            match o.status
            case Fatal(msg) => Then(read, Entities(src, toks, pos)) == Fatal(msg)
            case Ok(more) =>
              if more then Then(read, Entities(src, toks, pos)) == Then(read + [o.entity], Entities(src, toks, o.next))
              else Then(read, Entities(src, toks, pos)) == Ok(read)
  {
    var o := EntitySpec(src, toks, pos);
    if o.status == Ok(true) {
      var rest := Entities(src, toks, o.next);
      if rest.Ok? {
        assert read + ([o.entity] + rest.value) == (read + [o.entity]) + rest.value;
      }
    } else if o.status == Ok(false) {
      assert read + [] == read;
    }
  }

  /** LoadMapOrEntFile: an unreadable file is a fatal error; otherwise entities are
    * parsed until the end of the file, and the empty entity the last call leaves
    * behind is dropped. */
  method LoadMapOrEntFile(file: Option<string>, toks: seq<Token>) returns (r: Fallible<seq<MapEntity>>)
    requires file.Some? ==> WellFormed(file.value, toks)
    ensures file.None? ==> r.Fatal?
    ensures file.Some? ==> r == Entities(file.value, toks, 0)
  {
    if file.None? {
      r := Fatal("Couldn't load map/entity file");
    } else {
      var src := file.value;
      var p := new Parser(src, toks);
      var entities: seq<MapEntity> := [];
      var more := true;
      r := Ok([]);
      assert Entities(src, toks, 0).Ok? ==> [] + Entities(src, toks, 0).value == Entities(src, toks, 0).value;
      while more
        invariant p.Valid() && p.src == src && p.toks == toks
        invariant more ==> Then(entities, Entities(src, toks, p.next)) == Entities(src, toks, 0)
        invariant !more ==> r == Entities(src, toks, 0)
        decreases more, |toks| - p.next
      {
        ghost var pos := p.next;
        var ok, entity := ParseEntity(p);
        ThenStep(entities, src, toks, pos);
        if ok.Fatal? {
          r := Fatal(ok.msg);
          more := false;
        } else if !ok.value {
          r := Ok(entities);
          more := false;
        } else {
          entities := entities + [entity];
        }
      }
    }
  }
}
