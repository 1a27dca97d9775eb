/**
 * The tools' settings framework (common/settings.cc, include/common/settings.hh):
 * settings that carry a value, a default and the source that last set them;
 * a container that indexes them by every name and by group; and the
 * command-line loop that feeds them from a token stream.
 *
 * A setting object is modelled as a value held by the container that owns
 * it; the container's methods replace it in place. The token stream is the
 * sequence of tokens the program's parser hands out (how it splits a string
 * or a command line into tokens is not part of this model).
 */
module Settings {
  import opened Common

  // ---------------------------------------------------------------------------
  // Sources and values

  /** Where a value came from, in increasing priority. */
  datatype Source = DEFAULT | GAME_TARGET | MAP | COMMANDLINE

  function Rank(s: Source): nat
  {
    match s
    case DEFAULT => 0
    case GAME_TARGET => 1
    case MAP => 2
    case COMMANDLINE => 3
  }

  /** The stronger of two sources; the later one on a tie. */
  function MaxSource(a: Source, b: Source): (m: Source)
    ensures Rank(m) >= Rank(a) && Rank(m) >= Rank(b) && (m == a || m == b)
  {
    if Rank(b) >= Rank(a) then b else a
  }

  /** Setting values; an enum's value is its integer. */
  datatype Value = BoolV(b: bool) | IntV(i: int) | StrV(s: string) | SetV(vals: set<string>) | NoValue

  /** The concrete setting classes that parse tokens. A redirect names the
      settings it forwards to by their registration index. */
  datatype Kind =
    | BoolK(invertible: bool)
    | Int32K(min: int, max: int)
    | EnumK(enumType: nat, labels: seq<(string, int)>)
    | StringK
    | PathK
    | SetK
    | RedirectK(targets: seq<nat>)
    | FuncK

  /** A setting: its names (the first is the primary one), the order of its
      group (None when it has none), its class, the source of its value, the
      value, the default, and the extra check of a setting_validator. */
  datatype Setting = Setting(names: seq<string>, group: Option<int>, kind: Kind, source: Source,
                             value: Value, default: Value, validator: Option<Value -> bool>)

  /** The kinds that have a value of their own (setting_value and setting_set). */
  predicate HasValue(k: Kind)
  {
    !k.RedirectK? && !k.FuncK?
  }

  /** isChanged: the value was set by something other than the default. */
  predicate IsChanged(s: Setting)
  {
    s.source != DEFAULT
  }

  // ---------------------------------------------------------------------------
  // setting_base / setting_value members

  datatype Changed = Changed(ok: bool, setting: Setting)

  /** changeSource: the new source is taken when it is at least as strong as
      the current one. */
  function ChangeSource(s: Setting, newSource: Source): (r: Changed)
    ensures r.ok <==> Rank(newSource) >= Rank(s.source)
    ensures r.setting == s.(source := MaxSource(s.source, newSource))
  {
    if Rank(newSource) >= Rank(s.source) then Changed(true, s.(source := newSource)) else Changed(false, s)
  }

  /** A source never gets weaker, and a command-line source always wins. */
  lemma ChangeSourceMonotone(s: Setting, newSource: Source)
    ensures Rank(ChangeSource(s, newSource).setting.source) >= Rank(s.source)
    ensures newSource == COMMANDLINE ==> ChangeSource(s, newSource).ok
    ensures ChangeSource(ChangeSource(s, newSource).setting, newSource).setting == ChangeSource(s, newSource).setting
  {
  }

  /** std::clamp(f, lo, hi). */
  function Clamp(f: int, lo: int, hi: int): int
  {
    if f < lo then lo else if hi < f then hi else f
  }

  /** The value a setting's setValue stores: setting_numeric clamps to its
      range first. */
  function Stored(k: Kind, v: Value): Value
  {
    if k.Int32K? && v.IntV? then IntV(Clamp(v.i, k.min, k.max)) else v
  }

  /** setValue: the value changes only when changeSource accepts the source. */
  function SetValue(s: Setting, v: Value, newSource: Source): (r: Setting)
    ensures r == (if Rank(newSource) >= Rank(s.source) then s.(source := newSource, value := Stored(s.kind, v)) else s)
  {
    var c := ChangeSource(s, newSource);
    if c.ok then c.setting.(value := Stored(s.kind, v)) else s
  }

  /** A weaker source cannot override a value; the stored value of a numeric
      setting lies in its range. */
  lemma SetValueRespectsPriority(s: Setting, v: Value, newSource: Source)
    ensures Rank(newSource) < Rank(s.source) ==> SetValue(s, v, newSource) == s
    ensures Rank(SetValue(s, v, newSource).source) >= Rank(s.source)
    ensures s.kind.Int32K? && s.kind.min <= s.kind.max && v.IntV? && Rank(newSource) >= Rank(s.source) ==>
      s.kind.min <= SetValue(s, v, newSource).value.i <= s.kind.max
  {
  }

  /** A numeric setting whose value lies in its range, as its constructor
      asserts for the default. */
  predicate InRange(s: Setting)
  {
    s.kind.Int32K? ==> s.kind.min < s.kind.max && s.value.IntV? && s.kind.min <= s.value.i <= s.kind.max
  }

  lemma SetValueKeepsRange(s: Setting, v: Value, newSource: Source)
    requires InRange(s) && (s.kind.Int32K? ==> v.IntV?)
    ensures InRange(SetValue(s, v, newSource))
  {
  }

  /** setting_set::addValue: the value joins the set when the source is accepted. */
  function AddValue(s: Setting, v: string, newSource: Source): (r: Setting)
    requires s.value.SetV?
    ensures r.value.SetV? && r.source == MaxSource(s.source, newSource)
    ensures r.value.vals == if Rank(newSource) >= Rank(s.source) then s.value.vals + {v} else s.value.vals
  {
    var c := ChangeSource(s, newSource);
    if c.ok then c.setting.(value := SetV(s.value.vals + {v})) else s
  }

  /** reset: back to the default with source DEFAULT; a set empties; a
      redirect or a function setting has nothing to reset. */
  function ResetValue(s: Setting): (r: Setting)
    ensures HasValue(s.kind) ==> !IsChanged(r)
    ensures r.names == s.names && r.kind == s.kind && r.default == s.default
  {
    if s.kind.SetK? then s.(value := SetV({}), source := DEFAULT)
    else if HasValue(s.kind) then s.(value := s.default, source := DEFAULT)
    else s
  }

  /** Resetting twice is resetting once, and a numeric setting whose default
      is in range is in range after a reset. */
  lemma ResetIdempotent(s: Setting)
    ensures ResetValue(ResetValue(s)) == ResetValue(s)
    ensures (s.kind.Int32K? && s.kind.min < s.kind.max && s.default.IntV? &&
             s.kind.min <= s.default.i <= s.kind.max) ==> InRange(ResetValue(s))
  {
  }

  /** The C++ type a copyFrom cast tests for: setting_value<T> by T, or setting_set. */
  datatype ValueType = TBool | TInt32 | TEnum(t: nat) | TString | TPath | TSet | TNone

  function TypeOf(k: Kind): ValueType
  {
    match k
    case BoolK(_) => TBool
    case Int32K(_, _) => TInt32
    case EnumK(t, _) => TEnum(t)
    case StringK => TString
    case PathK => TPath
    case SetK => TSet
    case RedirectK(_) => TNone
    case FuncK => TNone
  }

  /** copyFrom: a setting with a value copies value and source from one of the
      same value type and refuses any other; redirects and function settings
      accept and copy nothing. */
  function CopyValue(s: Setting, other: Setting): (r: Changed)
    ensures !HasValue(s.kind) ==> r == Changed(true, s)
    ensures HasValue(s.kind) ==>
      (r.ok <==> TypeOf(other.kind) == TypeOf(s.kind)) &&
      r.setting == if r.ok then s.(value := other.value, source := other.source) else s
  {
    if !HasValue(s.kind) then Changed(true, s)
    else if TypeOf(other.kind) == TypeOf(s.kind) then Changed(true, s.(value := other.value, source := other.source))
    else Changed(false, s)
  }

  /** After a successful copy the two settings agree on value and on whether
      they were changed. */
  lemma CopyFromAgrees(s: Setting, other: Setting)
    requires HasValue(s.kind) && CopyValue(s, other).ok
    ensures CopyValue(s, other).setting.value == other.value
    ensures IsChanged(CopyValue(s, other).setting) <==> IsChanged(other)
  {
  }

  // ---------------------------------------------------------------------------
  // The library conversions the parsers call (std::stoi, std::stoull)

  predicate IsDigit(c: char) { '0' <= c <= '9' }

  /** isspace in the C locale. */
  predicate IsSpace(c: char)
  {
    c == ' ' || c == '\t' || c == '\n' || c == '\U{B}' || c == '\U{C}' || c == '\r'
  }

  /** The leading whitespace strtol and strtoull skip. */
  function SkipSpaces(s: string): (r: string)
    ensures |r| <= |s|
  {
    if s != [] && IsSpace(s[0]) then SkipSpaces(s[1..]) else s
  }

  /** The leading run of decimal digits of s, read onto acc: its value and
      its length. */
  function ReadDigits(s: string, acc: nat): (r: (nat, nat))
    ensures r.1 <= |s| && (r.1 == 0 ==> r.0 == acc)
  {
    if s != [] && IsDigit(s[0]) then
      var r := ReadDigits(s[1..], 10 * acc + (s[0] as int - '0' as int));
      (r.0, r.1 + 1)
    else (acc, 0)
  }

  datatype Scan = NoDigits | Scanned(neg: bool, mag: nat)

  /** Spaces, an optional sign, then the longest run of digits; anything after
      it is ignored. */
  function ScanInteger(s: string): Scan
  {
    var t := SkipSpaces(s);
    var neg := t != [] && t[0] == '-';
    var u := if t != [] && (t[0] == '-' || t[0] == '+') then t[1..] else t;
    var (v, n) := ReadDigits(u, 0);
    if n == 0 then NoDigits else Scanned(neg, v)
  }

  /** The result of a conversion: std::invalid_argument, std::out_of_range, or a number. */
  datatype Conv = Invalid | OutOfRange | Converted(v: int)

  const INT32_MIN: int := -0x8000_0000
  const INT32_MAX: int := 0x7fff_ffff
  const UINT64_MAX: int := 0xffff_ffff_ffff_ffff

  /** std::stoi: out of range when the number does not fit an int. */
  function Stoi(s: string): (r: Conv)
    ensures r.Converted? ==> INT32_MIN <= r.v <= INT32_MAX
  {
    match ScanInteger(s)
    case NoDigits => Invalid
    case Scanned(neg, mag) =>
      var m: int := mag;
      var v := if neg then -m else m;
      if v < INT32_MIN || v > INT32_MAX then OutOfRange else Converted(v)
  }

  /** std::stoull: a magnitude past 64 bits is out of range; a minus sign
      negates modulo 2^64. */
  function Stoull(s: string): (r: Conv)
    ensures r.Converted? ==> 0 <= r.v <= UINT64_MAX
  {
    match ScanInteger(s)
    case NoDigits => Invalid
    case Scanned(neg, mag) =>
      if mag > UINT64_MAX then OutOfRange
      else Converted(if neg then (UINT64_MAX + 1 - mag) % (UINT64_MAX + 1) else mag)
  }

  /** static_cast<int32_t> of an unsigned 64-bit value: the low 32 bits, as a
      two's complement number. */
  function ToInt32(u: int): (r: int)
    ensures INT32_MIN <= r <= INT32_MAX && (r - u) % 0x1_0000_0000 == 0
  {
    var low := u % 0x1_0000_0000;
    if low > INT32_MAX then low - 0x1_0000_0000 else low
  }

  /** A single digit, with or without a minus sign, reads as itself. */
  lemma ScanDigit(c: char)
    requires IsDigit(c)
    ensures ScanInteger([c]) == Scanned(false, c as int - '0' as int)
    ensures ScanInteger(['-', c]) == Scanned(true, c as int - '0' as int)
  {
    assert [c][1..] == [] && ['-', c][1..] == [c];
    assert ReadDigits([c], 0) == (c as int - '0' as int, 1);
    assert SkipSpaces([c]) == [c];
    assert SkipSpaces(['-', c]) == ['-', c];
  }

  /** The decimal digits of n, most significant first, as printed by %d. */
  function Digits(n: nat): (r: string)
    ensures |r| > 0 && forall k :: 0 <= k < |r| ==> IsDigit(r[k])
  {
    var d := ['0' + (n % 10) as char];
    if n < 10 then d else Digits(n / 10) + d
  }

  /** The decimal text of an integer: a minus sign for a negative one. */
  function DecimalText(v: int): (r: string)
  {
    if v < 0 then "-" + Digits(-v) else Digits(v)
  }

  /** Reading a run of digits followed by more text continues from the value
      the run gave. */
  lemma {:induction false} ReadDigitsAppend(a: string, b: string, acc: nat)
    requires forall k :: 0 <= k < |a| ==> IsDigit(a[k])
    ensures var ra := ReadDigits(a, acc);
      var rb := ReadDigits(b, ra.0);
      ReadDigits(a + b, acc) == (rb.0, |a| + rb.1) && ra.1 == |a|
  {
    if a != [] {
      assert (a + b)[0] == a[0] && (a + b)[1..] == a[1..] + b;
      ReadDigitsAppend(a[1..], b, 10 * acc + (a[0] as int - '0' as int));
    } else {
      assert a + b == b;
    }
  }

  /** The digits of n read back as n. */
  lemma {:induction false} ReadDigitsOfDigits(n: nat)
    ensures ReadDigits(Digits(n), 0) == (n, |Digits(n)|)
  {
    var d := ['0' + (n % 10) as char];
    assert ReadDigits(d, n / 10) == (n, 1) by {
      assert d[1..] == [];
    }
    if n >= 10 {
      ReadDigitsOfDigits(n / 10);
      ReadDigitsAppend(Digits(n / 10), d, 0);
    } else {
      assert ReadDigits(d, 0) == (n, 1) by {
        assert d[1..] == [];
      }
    }
  }

  /** The decimal text of v scans as its sign and magnitude. */
  lemma ScanDecimal(v: int)
    ensures ScanInteger(DecimalText(v)) == Scanned(v < 0, if v < 0 then -v else v)
  {
    var t := DecimalText(v);
    assert SkipSpaces(t) == t;
    if v < 0 {
      assert t[1..] == Digits(-v);
      ReadDigitsOfDigits(-v);
    } else {
      ReadDigitsOfDigits(v);
    }
  }

  /** Every int32 setting value printed in decimal and read back through stoull
      and the cast comes back unchanged, negative ones included. */
  lemma StoullRoundTrip(v: int)
    requires INT32_MIN <= v <= INT32_MAX
    ensures Stoull(DecimalText(v)).Converted?
    ensures ToInt32(Stoull(DecimalText(v)).v) == v
  {
    ScanDecimal(v);
    if v < 0 {
      NegatedCast(-v);
    }
  }

  /** A magnitude up to 2^31 negated modulo 2^64 casts back to its negation. */
  lemma NegatedCast(m: int)
    requires 0 < m <= 0x8000_0000
    ensures ToInt32((UINT64_MAX + 1 - m) % (UINT64_MAX + 1)) == -m
  {
    var u := UINT64_MAX + 1 - m;
    assert u % (UINT64_MAX + 1) == u;
    assert u == 0xffff_ffff * 0x1_0000_0000 + (0x1_0000_0000 - m);
    assert u % 0x1_0000_0000 == 0x1_0000_0000 - m;
  }

  /** stoi reads back every int32 printed in decimal, and rejects the first
      value past either end as out of range. */
  lemma StoiRoundTrip(v: int)
    ensures INT32_MIN <= v <= INT32_MAX ==> Stoi(DecimalText(v)) == Converted(v)
    ensures v == INT32_MAX + 1 || v == INT32_MIN - 1 ==> Stoi(DecimalText(v)) == OutOfRange
  {
    ScanDecimal(v);
  }

  /** Past 32 bits the cast wraps. */
  lemma CastWraps()
    ensures ToInt32(0x1_0000_0001) == 1
    ensures ToInt32(0x8000_0000) == INT32_MIN
  {
  }

  // ---------------------------------------------------------------------------
  // Tokens

  /** The parser's token stream and its position; push_state/pop_state save
      and restore the position. */
  datatype Tokens = Tokens(toks: seq<string>, pos: nat)

  predicate Live(p: Tokens) { p.pos <= |p.toks| }

  /** parse_token(PARSE_PEEK): the next token, without consuming it. */
  function Peek(p: Tokens): (r: Option<string>)
    requires Live(p)
    ensures r.Some? <==> p.pos < |p.toks|
  {
    if p.pos < |p.toks| then Some(p.toks[p.pos]) else None
  }

  function Advance(p: Tokens): (r: Tokens)
    requires Live(p) && p.pos < |p.toks|
    ensures Live(r) && r.toks == p.toks && r.pos == p.pos + 1
  {
    p.(pos := p.pos + 1)
  }

  // ---------------------------------------------------------------------------
  // Parsing one setting

  /** The settings, and a name index: redirects forward only to settings
      registered before them, and only settings with a value ever change
      their source. */
  predicate Wf(settings: seq<Setting>)
  {
    forall i :: 0 <= i < |settings| ==> WfAt(settings[i], i)
  }

  /** Setting s, registered at index i, is well formed. */
  predicate WfAt(s: Setting, i: nat)
  {
    (s.kind.RedirectK? ==> forall j :: 0 <= j < |s.kind.targets| ==> s.kind.targets[j] < i) &&
    (!HasValue(s.kind) ==> s.source == DEFAULT) &&
    (s.kind.SetK? ==> s.value.SetV?)
  }

  /** b holds the same settings as a, with possibly different values and sources. */
  predicate SameShape(a: seq<Setting>, b: seq<Setting>)
  {
    |a| == |b| && forall i :: 0 <= i < |a| ==> SameSetting(a[i], b[i])
  }

  /** t is s with possibly another value and source. */
  predicate SameSetting(s: Setting, t: Setting)
  {
    t.names == s.names && t.kind == s.kind && t.group == s.group && t.default == s.default
  }

  /** Storing a value in a setting that has one keeps the table well formed. */
  lemma WfStore(settings: seq<Setting>, id: nat, t: Setting)
    requires Wf(settings) && id < |settings| && HasValue(settings[id].kind)
    requires t.kind == settings[id].kind && t.names == settings[id].names && t.group == settings[id].group
    requires t.default == settings[id].default && (t.kind.SetK? ==> t.value.SetV?)
    ensures Wf(settings[id := t]) && SameShape(settings, settings[id := t])
  {
  }

  /** The result of a setting's parse: whether it succeeded, the settings
      after it, and where the stream stands. */
  datatype Parsed = Parsed(ok: bool, settings: seq<Setting>, p: Tokens)

  /** setting_invertible_bool::parse: a name starting with "no" gives false. */
  function InvertibleTruth(settingName: string): (r: bool)
    ensures !r <==> exists rest: string :: settingName == "no" + rest
  {
    if |settingName| >= 2 && settingName[..2] == "no" then
      assert settingName == "no" + settingName[2..];
      false
    else
      assert forall rest: string :: settingName != "no" + rest by {
        forall rest: string ensures settingName != "no" + rest {
          assert ("no" + rest)[..2] == "no";
        }
      }
      true
  }

  /** setting_bool::parseInternal: a following "1", "0" or "-1" is consumed as
      the value ("0" and "-1" negate truthValue); otherwise nothing is
      consumed and the setting takes truthValue. */
  function ParseBool(settings: seq<Setting>, id: nat, p: Tokens, src: Source, truthValue: bool): (r: Parsed)
    requires Wf(settings) && id < |settings| && settings[id].kind.BoolK? && Live(p)
    ensures Wf(r.settings) && SameShape(settings, r.settings)
    ensures r.ok && Live(r.p) && r.p.toks == p.toks
    ensures var t := Peek(p);
      if t.Some? && t.value in {"1", "0", "-1"} then
        r.p.pos == p.pos + 1 && r.settings == settings[id := SetValue(settings[id], BoolV(if t.value == "1" then truthValue else !truthValue), src)]
      else r.p == p && r.settings == settings[id := SetValue(settings[id], BoolV(truthValue), src)]
  {
    var t := Peek(p);
    if t.Some? && (t.value == "1" || t.value == "0" || t.value == "-1") then
      var f := if t.value == "1" then truthValue else !truthValue;
      Parsed(true, settings[id := SetValue(settings[id], BoolV(f), src)], Advance(p))
    else Parsed(true, settings[id := SetValue(settings[id], BoolV(truthValue), src)], p)
  }

  /** The three tokens parseInternal accepts are the ones stoi reads as 1, 0
      and -1, and only "1" leaves truthValue standing. */
  lemma BoolTokens()
    ensures Stoi("1") == Converted(1) && Stoi("0") == Converted(0) && Stoi("-1") == Converted(-1)
  {
    ScanDigit('1');
    ScanDigit('0');
    assert "1" == ['1'] && "0" == ['0'] && "-1" == ['-', '1'];
  }

  /** setting_numeric<int32_t>::parse: consume a token, convert it with
      stoull and the cast, and store it clamped; a token that does not
      convert fails. */
  function ParseInt32(settings: seq<Setting>, id: nat, p: Tokens, src: Source): (r: Parsed)
    requires Wf(settings) && id < |settings| && settings[id].kind.Int32K? && Live(p)
    ensures Wf(r.settings) && SameShape(settings, r.settings)
    ensures Live(r.p) && r.p.toks == p.toks && r.p.pos == Min(p.pos + 1, |p.toks|)
    ensures r.ok <==> p.pos < |p.toks| && Stoull(p.toks[p.pos]).Converted?
    ensures r.ok ==> r.settings == settings[id := SetValue(settings[id], IntV(ToInt32(Stoull(p.toks[p.pos]).v)), src)]
    ensures !r.ok ==> r.settings == settings
  {
    if p.pos == |p.toks| then Parsed(false, settings, p)
    else
      var c := Stoull(p.toks[p.pos]);
      if c.Converted? then Parsed(true, settings[id := SetValue(settings[id], IntV(ToInt32(c.v)), src)], Advance(p))
      else Parsed(false, settings, Advance(p))
  }

  function Min(a: int, b: int): int { if a < b then a else b }

  /** The first label of an enum with the given name. */
  function FindLabel(labels: seq<(string, int)>, t: string): (r: Option<int>)
    ensures r.Some? <==> exists i :: 0 <= i < |labels| && labels[i].0 == t
    ensures r.Some? ==> exists i :: 0 <= i < |labels| && labels[i] == (t, r.value)
  {
    if labels == [] then None
    else if labels[0].0 == t then Some(labels[0].1)
    else
      var r := FindLabel(labels[1..], t);
      assert forall i :: 1 <= i < |labels| ==> labels[i] == labels[1..][i - 1];
      if r.Some? then
        var i :| 0 <= i < |labels[1..]| && labels[1..][i] == (t, r.value);
        assert labels[i + 1] == (t, r.value);
        r
      else r
  }

  /** setting_enum::parse: a label first, then an integer; anything else fails. */
  function ParseEnum(settings: seq<Setting>, id: nat, p: Tokens, src: Source): (r: Parsed)
    requires Wf(settings) && id < |settings| && settings[id].kind.EnumK? && Live(p)
    ensures Wf(r.settings) && SameShape(settings, r.settings)
    ensures Live(r.p) && r.p.toks == p.toks && r.p.pos == Min(p.pos + 1, |p.toks|)
    ensures r.ok <==> (p.pos < |p.toks| &&
      (FindLabel(settings[id].kind.labels, p.toks[p.pos]).Some? || Stoi(p.toks[p.pos]).Converted?))
    ensures r.ok ==> var t := p.toks[p.pos]; var l := FindLabel(settings[id].kind.labels, t);
      r.settings == settings[id := SetValue(settings[id], IntV(if l.Some? then l.value else Stoi(t).v), src)]
    ensures !r.ok ==> r.settings == settings
  {
    if p.pos == |p.toks| then Parsed(false, settings, p)
    else
      var t := p.toks[p.pos];
      var l := FindLabel(settings[id].kind.labels, t);
      if l.Some? then Parsed(true, settings[id := SetValue(settings[id], IntV(l.value), src)], Advance(p))
      else
        var c := Stoi(t);
        if c.Converted? then Parsed(true, settings[id := SetValue(settings[id], IntV(c.v), src)], Advance(p))
        else Parsed(false, settings, Advance(p))
  }

  /** setting_enum::stringValue: the first label carrying the value; None
      where the source throws. */
  function EnumString(labels: seq<(string, int)>, v: int): (r: Option<string>)
    ensures r.Some? <==> exists i :: 0 <= i < |labels| && labels[i].1 == v
    ensures r.Some? ==> exists i :: 0 <= i < |labels| && labels[i] == (r.value, v) &&
                                    forall j :: 0 <= j < i ==> labels[j].1 != v
  {
    if labels == [] then None
    else if labels[0].1 == v then Some(labels[0].0)
    else
      var r := EnumString(labels[1..], v);
      if r.Some? then
        var i :| 0 <= i < |labels[1..]| && labels[1..][i] == (r.value, v) && forall j :: 0 <= j < i ==> labels[1..][j].1 != v;
        assert labels[i + 1] == (r.value, v) && forall j :: 0 <= j < i + 1 ==> labels[j].1 != v;
        r
      else
        assert forall i :: 1 <= i < |labels| ==> labels[i] == labels[1..][i - 1];
        r
  }

  /** A label parsed back gives a value whose string is a label with that value. */
  lemma EnumLabelRoundTrip(labels: seq<(string, int)>, t: string)
    requires FindLabel(labels, t).Some?
    ensures EnumString(labels, FindLabel(labels, t).value).Some?
  {
  }

  /** setting_string and setting_path: consume a token and store it. */
  function ParseString(settings: seq<Setting>, id: nat, p: Tokens, src: Source): (r: Parsed)
    requires Wf(settings) && id < |settings| && (settings[id].kind.StringK? || settings[id].kind.PathK?) && Live(p)
    ensures Wf(r.settings) && SameShape(settings, r.settings)
    ensures Live(r.p) && r.p.toks == p.toks && r.p.pos == Min(p.pos + 1, |p.toks|)
    ensures r.ok <==> p.pos < |p.toks|
    ensures r.settings == if r.ok then settings[id := SetValue(settings[id], StrV(p.toks[p.pos]), src)] else settings
  {
    if p.pos == |p.toks| then Parsed(false, settings, p)
    else Parsed(true, settings[id := SetValue(settings[id], StrV(p.toks[p.pos]), src)], Advance(p))
  }

  /** setting_set::parse: consume a token and add it to the set. */
  function ParseSet(settings: seq<Setting>, id: nat, p: Tokens, src: Source): (r: Parsed)
    requires Wf(settings) && id < |settings| && settings[id].kind.SetK? && Live(p)
    ensures Wf(r.settings) && SameShape(settings, r.settings)
    ensures Live(r.p) && r.p.toks == p.toks && r.p.pos == Min(p.pos + 1, |p.toks|)
    ensures r.ok <==> p.pos < |p.toks|
    ensures r.settings == if r.ok then settings[id := AddValue(settings[id], p.toks[p.pos], src)] else settings
  {
    if p.pos == |p.toks| then Parsed(false, settings, p)
    else Parsed(true, settings[id := AddValue(settings[id], p.toks[p.pos], src)], Advance(p))
  }

  /** The parse of setting id under the name settingName it was found by,
      by the setting's class. */
  function ParseBase(settings: seq<Setting>, id: nat, settingName: string, p: Tokens, src: Source): (r: Parsed)
    requires Wf(settings) && id < |settings| && Live(p)
    ensures Live(r.p) && r.p.toks == p.toks && r.p.pos >= p.pos
    ensures Wf(r.settings) && SameShape(settings, r.settings)
    ensures settings[id].kind.BoolK? ==>
      r == ParseBool(settings, id, p, src, !settings[id].kind.invertible || InvertibleTruth(settingName))
    ensures settings[id].kind.Int32K? ==> r == ParseInt32(settings, id, p, src)
    ensures settings[id].kind.EnumK? ==> r == ParseEnum(settings, id, p, src)
    ensures settings[id].kind.StringK? || settings[id].kind.PathK? ==> r == ParseString(settings, id, p, src)
    ensures settings[id].kind.SetK? ==> r == ParseSet(settings, id, p, src)
    ensures settings[id].kind.RedirectK? ==> r == ParseRedirect(settings, id, 0, settingName, p, p, src)
    ensures settings[id].kind.FuncK? ==> r == Parsed(true, settings, p)
    decreases id, 1
  {
    match settings[id].kind
    case BoolK(inv) => ParseBool(settings, id, p, src, if inv then InvertibleTruth(settingName) else true)
    case Int32K(_, _) => ParseInt32(settings, id, p, src)
    case EnumK(_, _) => ParseEnum(settings, id, p, src)
    case StringK => ParseString(settings, id, p, src)
    case PathK => ParseString(settings, id, p, src)
    case SetK => ParseSet(settings, id, p, src)
    case RedirectK(targets) => ParseRedirect(settings, id, 0, settingName, p, p, src)
    case FuncK => Parsed(true, settings, p)
  }

  /** setting_validator::parse: the class's parse, then the validator when
      the setting has one. The parse succeeds exactly when the class's parse
      does and the validator, if any, accepts the value it left; the
      settings and the stream are the class's parse's either way. */
  function ParseOne(settings: seq<Setting>, id: nat, settingName: string, p: Tokens, src: Source): (r: Parsed)
    requires Wf(settings) && id < |settings| && Live(p)
    ensures Live(r.p) && r.p.toks == p.toks && r.p.pos >= p.pos
    ensures Wf(r.settings) && SameShape(settings, r.settings)
    ensures var base := ParseBase(settings, id, settingName, p, src);
      r.settings == base.settings && r.p == base.p &&
      (r.ok <==> base.ok && (settings[id].validator.Some? ==> settings[id].validator.value(base.settings[id].value)))
    decreases id, 2
  {
    var base := ParseBase(settings, id, settingName, p, src);
    var s := settings[id];
    if base.ok && s.validator.Some? then
      base.(ok := s.validator.value(base.settings[id].value))
    else base
  }

  /** An invertible flag found under a name starting with "no" stores false,
      unless a following "0" or "-1" negates that; under a name that does
      not start with "no" it stores true, with the same negation. A source
      at least as strong as the setting's is assumed, and no validator. */
  lemma InvertedFlag(settings: seq<Setting>, id: nat, name: string, p: Tokens, src: Source)
    requires Wf(settings) && id < |settings| && Live(p)
    requires settings[id].kind == BoolK(true) && settings[id].validator.None?
    requires Rank(src) >= Rank(settings[id].source)
    ensures var r := ParseOne(settings, id, "no" + name, p, src);
      r.ok && r.settings[id].value == BoolV(Peek(p) == Some("0") || Peek(p) == Some("-1"))
    ensures !(|name| >= 2 && name[..2] == "no") ==> var r := ParseOne(settings, id, name, p, src);
      r.ok && r.settings[id].value == BoolV(!(Peek(p) == Some("0") || Peek(p) == Some("-1")))
  {
    assert ("no" + name)[..2] == "no";
  }

  /** setting_redirect::parse from target k on: every target but the last
      parses from the saved position start; the last one's position stands;
      the first failure ends the loop where that parse left the stream. */
  function ParseRedirect(settings: seq<Setting>, owner: nat, k: nat, settingName: string, start: Tokens, p: Tokens,
                         src: Source): (r: Parsed)
    requires Wf(settings) && owner < |settings| && settings[owner].kind.RedirectK? && Live(start) && Live(p)
    requires k <= |settings[owner].kind.targets| && p.toks == start.toks && p.pos >= start.pos
    ensures Live(r.p) && r.p.toks == p.toks && r.p.pos >= start.pos
    ensures Wf(r.settings) && SameShape(settings, r.settings)
    decreases owner, 0, |settings[owner].kind.targets| - k
  {
    var targets := settings[owner].kind.targets;
    if k == |targets| then Parsed(true, settings, p)
    else
      var q := ParseOne(settings, targets[k], settingName, start, src);
      if !q.ok then q
      else if k == |targets| - 1 then q
      else
        var r := ParseRedirect(q.settings, owner, k + 1, settingName, start, start, src);
        SameShapeTrans(settings, q.settings, r.settings);
        r
  }

  /** r is target j's parse from start over some table of the same shape,
      and if it succeeded j is the last target. */
  ghost predicate TargetParse(settings: seq<Setting>, owner: nat, j: nat, s: seq<Setting>, settingName: string,
                              start: Tokens, src: Source, r: Parsed)
    requires owner < |settings| && settings[owner].kind.RedirectK?
  {
    var targets := settings[owner].kind.targets;
    j < |targets| && Wf(s) && SameShape(settings, s) && targets[j] < |s| && Live(start) &&
    r == ParseOne(s, targets[j], settingName, start, src) && (r.ok ==> j == |targets| - 1)
  }

  /** One step of the redirect loop. */
  lemma RedirectUnfold(settings: seq<Setting>, owner: nat, k: nat, settingName: string, start: Tokens, p: Tokens,
                       src: Source)
    requires Wf(settings) && owner < |settings| && settings[owner].kind.RedirectK? && Live(start) && Live(p)
    requires k < |settings[owner].kind.targets| && p.toks == start.toks && p.pos >= start.pos
    ensures var targets := settings[owner].kind.targets;
      var q := ParseOne(settings, targets[k], settingName, start, src);
      ParseRedirect(settings, owner, k, settingName, start, p, src) ==
        if !q.ok || k == |targets| - 1 then q else ParseRedirect(q.settings, owner, k + 1, settingName, start, start, src)
  {
  }

  /** A redirect's result is one target's parse from the saved position:
      the first target that fails, returned as it is, or on success the last
      target; the position the redirect was handed does not matter once a
      target remains. */
  lemma {:induction false} RedirectIsOneTargetParse(settings: seq<Setting>, owner: nat, k: nat, settingName: string,
                                                    start: Tokens, p: Tokens, src: Source)
    requires Wf(settings) && owner < |settings| && settings[owner].kind.RedirectK? && Live(start) && Live(p)
    requires k < |settings[owner].kind.targets| && p.toks == start.toks && p.pos >= start.pos
    ensures var r := ParseRedirect(settings, owner, k, settingName, start, p, src);
      exists j: nat, s: seq<Setting> :: k <= j && TargetParse(settings, owner, j, s, settingName, start, src, r)
    ensures ParseRedirect(settings, owner, k, settingName, start, p, src) ==
            ParseRedirect(settings, owner, k, settingName, start, start, src)
    decreases |settings[owner].kind.targets| - k
  {
    var targets := settings[owner].kind.targets;
    var q := ParseOne(settings, targets[k], settingName, start, src);
    RedirectUnfold(settings, owner, k, settingName, start, p, src);
    RedirectUnfold(settings, owner, k, settingName, start, start, src);
    var r := ParseRedirect(settings, owner, k, settingName, start, p, src);
    if q.ok && k < |targets| - 1 {
      RedirectIsOneTargetParse(q.settings, owner, k + 1, settingName, start, start, src);
      var j: nat, s: seq<Setting> :| k + 1 <= j && TargetParse(q.settings, owner, j, s, settingName, start, src, r);
      SameShapeTrans(settings, q.settings, s);
      assert TargetParse(settings, owner, j, s, settingName, start, src, r);
    } else {
      assert SameShape(settings, settings);
      assert TargetParse(settings, owner, k, settings, settingName, start, src, r);
    }
  }

  /** A redirect with one target parses exactly as that target. */
  lemma RedirectSingle(settings: seq<Setting>, owner: nat, settingName: string, p: Tokens, src: Source)
    requires Wf(settings) && owner < |settings| && settings[owner].kind.RedirectK? && Live(p)
    requires |settings[owner].kind.targets| == 1
    ensures ParseRedirect(settings, owner, 0, settingName, p, p, src) ==
            ParseOne(settings, settings[owner].kind.targets[0], settingName, p, src)
  {
  }

  lemma SameShapeTrans(a: seq<Setting>, b: seq<Setting>, c: seq<Setting>)
    requires SameShape(a, b) && SameShape(b, c)
    ensures SameShape(a, c)
  {
  }

  // ---------------------------------------------------------------------------
  // setting_container

  /** The name a lookup uses: findSetting strips every leading underscore. */
  function StripUnderscores(name: string): (r: string)
    ensures |r| <= |name| && r == name[|name| - |r|..]
    ensures r == [] || r[0] != '_'
    ensures forall i :: 0 <= i < |name| - |r| ==> name[i] == '_'
  {
    if name != [] && name[0] == '_' then StripUnderscores(name[1..]) else name
  }

  /** findSetting over a name index. */
  function Lookup(index: map<string, nat>, name: string): (r: Option<nat>)
    ensures r.Some? <==> StripUnderscores(name) in index
    ensures r.Some? ==> r.value == index[StripUnderscores(name)]
  {
    var n := StripUnderscores(name);
    if n in index then Some(index[n]) else None
  }

  /** Leading underscores make no difference to a lookup, however many there are. */
  lemma {:induction false} LookupIgnoresUnderscores(index: map<string, nat>, k: nat, name: string)
    ensures Lookup(index, seq(k, _ => '_') + name) == Lookup(index, name)
  {
    if k > 0 {
      assert (seq(k, _ => '_') + name)[1..] == seq(k - 1, _ => '_') + name;
      LookupIgnoresUnderscores(index, k - 1, name);
    } else {
      assert seq(k, _ => '_') + name == name;
    }
  }

  /** The key a setting's group is filed under: groups compare by their order
      alone, and no group sorts as the lowest int32. */
  function GroupKey(g: Option<int>): int
  {
    if g.None? then INT32_MIN else g.value
  }

  /** extendNames: the names, then each of them again prefixed with "no". */
  function ExtendNames(names: seq<string>): (r: seq<string>)
    ensures |r| == 2 * |names| && r[..|names|] == names
    ensures forall i :: 0 <= i < |names| ==> r[|names| + i] == "no" + names[i]
    ensures forall n :: n in r <==> n in names || exists m :: m in names && n == "no" + m
  {
    var r := names + seq(|names|, i requires 0 <= i < |names| => "no" + names[i]);
    assert forall n :: n in r ==> n in names || exists m :: m in names && n == "no" + m by {
      forall n | n in r
        ensures n in names || exists m :: m in names && n == "no" + m
      {
        var j :| 0 <= j < |r| && r[j] == n;
        if j >= |names| {
          assert names[j - |names|] in names;
        }
      }
    }
    assert forall m :: m in names ==> "no" + m in r by {
      forall m | m in names
        ensures "no" + m in r
      {
        var i :| 0 <= i < |names| && names[i] == m;
        assert r[|names| + i] == "no" + m;
      }
    }
    r
  }

  /** The names a setting registers are new to the index and distinct. */
  predicate NamesFresh(index: map<string, nat>, names: seq<string>)
  {
    (forall i :: 0 <= i < |names| ==> names[i] !in index) &&
    (forall i, j :: 0 <= i < j < |names| ==> names[i] != names[j])
  }

  /** A setting as its constructor leaves it: at its default, from source DEFAULT. */
  predicate Pristine(s: Setting)
  {
    |s.names| > 0 && s.source == DEFAULT && s.value == (if s.kind.SetK? then SetV({}) else s.default)
  }

  /** The outcome of setSetting (setting_error); an unknown command-line
      option throws instead. */
  datatype SettingError = NONE | MISSING | INVALID

  /** The outcome of the command-line loop: the tokens left over, the help
      request (printHelp throws quit_after_help_exception), or a parse_exception. */
  datatype CmdLine = Remainder(rest: seq<string>) | QuitAfterHelp | ParseError(msg: string)

  /** The token starts an option. An empty token reads its terminating NUL,
      which is not a hyphen. */
  predicate IsOption(t: string)
  {
    t != [] && t[0] == '-'
  }

  /** The names that ask for the help text. */
  predicate IsHelp(name: string)
  {
    name == "help" || name == "h" || name == "?"
  }

  /** The token with all its leading hyphens removed. */
  function StripHyphens(t: string): (r: string)
    ensures |r| <= |t| && r == t[|t| - |r|..]
    ensures r == [] || r[0] != '-'
  {
    if t != [] && t[0] == '-' then StripHyphens(t[1..]) else t
  }

  /** The command-line loop of setting_container::parse from the position of
      p on: each option token is consumed, stripped of its hyphens, looked up
      and handed to its setting with source COMMANDLINE; the first token that
      is not an option ends the loop and it and all after it are returned. */
  function OptionsLoop(settings: seq<Setting>, index: map<string, nat>, p: Tokens): (r: (CmdLine, seq<Setting>))
    requires Wf(settings) && Live(p) && forall n :: n in index ==> index[n] < |settings|
    ensures Wf(r.1) && SameShape(settings, r.1)
    decreases |p.toks| - p.pos
  {
    if p.pos == |p.toks| || !IsOption(p.toks[p.pos]) then (Remainder(p.toks[p.pos..]), settings)
    else
      var name := StripHyphens(p.toks[p.pos]);
      if name == [] then (ParseError("stray \"-\" in command line"), settings)
      else if IsHelp(name) then (QuitAfterHelp, settings)
      else match Lookup(index, name)
        case None => (ParseError("unknown option"), settings)
        case Some(id) =>
          var q := ParseOne(settings, id, name, Advance(p), COMMANDLINE);
          if !q.ok then (ParseError("invalid value for option"), q.settings)
          else
            var r := OptionsLoop(q.settings, index, q.p);
            SameShapeTrans(settings, q.settings, r.1);
            r
  }

  /** The loop stops at the first token that is not an option: what it
      returns is a suffix of the tokens that is empty or starts with a
      non-option, and every token before it was consumed as an option or as
      an option's value. */
  lemma {:induction false} OptionsLoopRemainder(settings: seq<Setting>, index: map<string, nat>, p: Tokens)
    requires Wf(settings) && Live(p) && forall n :: n in index ==> index[n] < |settings|
    ensures var r := OptionsLoop(settings, index, p).0;
      r.Remainder? ==> exists k :: p.pos <= k <= |p.toks| && r.rest == p.toks[k..] &&
                                   (k == |p.toks| || !IsOption(p.toks[k]))
    decreases |p.toks| - p.pos
  {
    if p.pos == |p.toks| || !IsOption(p.toks[p.pos]) {
      assert OptionsLoop(settings, index, p).0.rest == p.toks[p.pos..];
    } else {
      var name := StripHyphens(p.toks[p.pos]);
      if name != [] && !IsHelp(name) && Lookup(index, name).Some? {
        var q := ParseOne(settings, Lookup(index, name).value, name, Advance(p), COMMANDLINE);
        if q.ok {
          OptionsLoopRemainder(q.settings, index, q.p);
        }
      }
    }
  }

  /** A command line made only of non-options changes nothing and comes back whole. */
  lemma OptionsLoopNoOptions(settings: seq<Setting>, index: map<string, nat>, toks: seq<string>)
    requires Wf(settings) && forall n :: n in index ==> index[n] < |settings|
    requires toks == [] || !IsOption(toks[0])
    ensures OptionsLoop(settings, index, Tokens(toks, 0)) == (Remainder(toks), settings)
  {
  }

  /** The registry's indexes agree with its settings: each name leads to a
      setting that carries it, each group lists settings filed under it. */
  predicate Indexed(settings: seq<Setting>, index: map<string, nat>, grouped: map<int, set<nat>>)
  {
    (forall i :: 0 <= i < |settings| ==> |settings[i].names| > 0) &&
    (forall n :: n in index ==> index[n] < |settings| && n in settings[index[n]].names) &&
    (forall k :: k in grouped ==> forall i :: i in grouped[k] ==> i < |settings| && GroupKey(settings[i].group) == k)
  }

  /** New values and sources leave the indexes valid. */
  lemma SameShapeIndexed(a: seq<Setting>, b: seq<Setting>, index: map<string, nat>, grouped: map<int, set<nat>>)
    requires SameShape(a, b) && Indexed(a, index, grouped)
    ensures Indexed(b, index, grouped)
  {
  }

  /** What s becomes when copied from the setting of the same primary name
      in another registry, if it has one. */
  function CopiedFrom(src: seq<Setting>, srcIndex: map<string, nat>, s: Setting): Setting
    requires |s.names| > 0 && forall n :: n in srcIndex ==> srcIndex[n] < |src|
  {
    match Lookup(srcIndex, s.names[0])
    case None => s
    case Some(j) => CopyValue(s, src[j]).setting
  }

  /** Resetting every setting keeps the registry well formed and its shape. */
  lemma ResetKeepsShape(settings: seq<Setting>, reset: seq<Setting>)
    requires Wf(settings) && |reset| == |settings|
    requires forall j :: 0 <= j < |settings| ==> reset[j] == ResetValue(settings[j])
    ensures Wf(reset) && SameShape(settings, reset)
  {
  }

  /** Copying into one setting keeps the registry well formed and its shape. */
  lemma CopiedFromKeepsShape(settings: seq<Setting>, i: nat, src: seq<Setting>, srcIndex: map<string, nat>)
    requires Wf(settings) && i < |settings| && |settings[i].names| > 0
    requires Wf(src) && forall n :: n in srcIndex ==> srcIndex[n] < |src|
    ensures var t := CopiedFrom(src, srcIndex, settings[i]);
      Wf(settings[i := t]) && SameShape(settings, settings[i := t])
  {
    var t := CopiedFrom(src, srcIndex, settings[i]);
    if HasValue(settings[i].kind) {
      match Lookup(srcIndex, settings[i].names[0])
      case None =>
      case Some(j) =>
        assert src[j].kind.SetK? ==> src[j].value.SetV?;
        WfStore(settings, i, t);
    } else {
      assert settings[i := t] == settings;
    }
  }

  /** The setting registry: every setting by each of its names and by group. */
  class Container {
    var settings: seq<Setting>          // _settings, by registration index
    var index: map<string, nat>         // _settingsmap
    var grouped: map<int, set<nat>>     // _groupedSettings, keyed by GroupKey

    ghost predicate Valid()
      reads this
    {
      Wf(settings) && Indexed(settings, index, grouped)
    }

    constructor ()
      ensures Valid() && settings == [] && index == map[] && grouped == map[]
    {
      settings, index, grouped := [], map[], map[];
    }

    /** findSetting: the setting registered under the name, leading underscores stripped. */
    function FindSetting(name: string): (r: Option<nat>)
      reads this
      requires Valid()
      ensures r.Some? ==> r.value < |settings| && StripUnderscores(name) in settings[r.value].names
      ensures r.Some? <==> StripUnderscores(name) in index
    {
      Lookup(index, name)
    }

    /** registerSetting: every name must be new (a failed assertion
        otherwise); the setting is then found under each of its names and
        filed under its group. */
    method RegisterSetting(s: Setting) returns (r: Fallible<nat>)
      requires Valid() && Pristine(s)
      requires s.kind.RedirectK? ==> forall j :: 0 <= j < |s.kind.targets| ==> s.kind.targets[j] < |settings|
      modifies this
      ensures r.Ok? <==> NamesFresh(old(index), s.names)
      ensures r.Ok? ==> Valid() && r.value == |old(settings)| && settings == old(settings) + [s]
      ensures r.Ok? ==> index.Keys == old(index).Keys + set n | n in s.names
      ensures r.Ok? ==> (forall n :: n in old(index) ==> index[n] == old(index)[n]) &&
                        forall n :: n in s.names ==> index[n] == r.value
      ensures r.Ok? ==> var k := GroupKey(s.group);
        grouped == old(grouped)[k := (if k in old(grouped) then old(grouped)[k] else {}) + {r.value}]
    {
      var id := |settings|;
      var ok := IndexNames(s.names, id);
      if !ok {
        return Fatal("Q_assert(_settingsmap.find(name) == _settingsmap.end())");
      }
      settings := settings + [s];
      var k := GroupKey(s.group);
      grouped := grouped[k := (if k in grouped then grouped[k] else {}) + {id}];
      return Ok(id);
    }

    /** The setting_invertible_bool constructor: a flag, at its default v,
        registered under its names and under each of them prefixed with "no". */
    method RegisterInvertibleBool(names: seq<string>, group: Option<int>, v: bool) returns (r: Fallible<nat>)
      requires Valid() && |names| > 0
      modifies this
      ensures r.Ok? <==> NamesFresh(old(index), ExtendNames(names))
      ensures r.Ok? ==> Valid() && r.value == |old(settings)|
      ensures r.Ok? ==> settings == old(settings) + [Setting(ExtendNames(names), group, BoolK(true), DEFAULT, BoolV(v), BoolV(v), None)]
      ensures r.Ok? ==> forall i :: 0 <= i < |names| ==>
        names[i] in index && "no" + names[i] in index && index[names[i]] == r.value && index["no" + names[i]] == r.value
      ensures r.Ok? ==> forall n :: n in old(index) ==> n in index && index[n] == old(index)[n]
    {
      var s := Setting(ExtendNames(names), group, BoolK(true), DEFAULT, BoolV(v), BoolV(v), None);
      r := RegisterSetting(s);
      if r.Ok? {
        forall i | 0 <= i < |names|
          ensures names[i] in index && "no" + names[i] in index
          ensures index[names[i]] == r.value && index["no" + names[i]] == r.value
        {
          assert names[i] in s.names && "no" + names[i] in s.names;
        }
      }
    }

    /** The name loop of registerSetting: each name, asserted new, is mapped to id. */
    method IndexNames(names: seq<string>, id: nat) returns (ok: bool)
      modifies this`index
      ensures ok <==> NamesFresh(old(index), names)
      ensures ok ==> index.Keys == old(index).Keys + set n | n in names
      ensures ok ==> (forall n :: n in old(index) ==> index[n] == old(index)[n]) &&
                     forall n :: n in names ==> index[n] == id
    {
      var i := 0;
      while i < |names|
        invariant 0 <= i <= |names|
        invariant NamesFresh(old(index), names[..i])
        invariant index.Keys == old(index).Keys + set j | 0 <= j < i :: names[j]
        invariant forall n :: n in old(index) ==> index[n] == old(index)[n]
        invariant forall j :: 0 <= j < i ==> index[names[j]] == id
      {
        if names[i] in index {
          assert names[i] in old(index) || exists j :: 0 <= j < i && names[j] == names[i];
          return false;
        }
        index := index[names[i] := id];
        i := i + 1;
      }
      assert names[..i] == names;
      assert (set j | 0 <= j < i :: names[j]) == set n | n in names;
      return true;
    }

    /** reset: every setting back to its default, from source DEFAULT. */
    method Reset()
      requires Valid()
      modifies this`settings
      ensures Valid() && SameShape(old(settings), settings)
      ensures forall i :: 0 <= i < |settings| ==> settings[i] == ResetValue(old(settings)[i])
      ensures forall i :: 0 <= i < |settings| ==> HasValue(settings[i].kind) ==> !IsChanged(settings[i])
    {
      var cur := settings;
      var i := 0;
      while i < |cur|
        invariant settings == old(settings) && 0 <= i <= |cur| && |cur| == |settings|
        invariant forall j :: 0 <= j < i ==> cur[j] == ResetValue(settings[j])
        invariant forall j :: i <= j < |cur| ==> cur[j] == settings[j]
      {
        cur := cur[i := ResetValue(cur[i])];
        i := i + 1;
      }
      ResetKeepsShape(settings, cur);
      SameShapeIndexed(settings, cur, index, grouped);
      settings := cur;
    }

    /** copyFrom: each setting copies from the setting of the other container
        found under its primary name, when there is one. */
    method CopyFrom(other: Container)
      requires Valid() && other.Valid()
      modifies this`settings
      ensures Valid() && SameShape(old(settings), settings)
      ensures forall i :: 0 <= i < |settings| ==>
        settings[i] == CopiedFrom(old(other.settings), old(other.index), old(settings)[i])
    {
      var cur := CopyAll(settings, other.settings, other.index);
      SameShapeIndexed(settings, cur, index, grouped);
      settings := cur;
    }

    /** setSetting: parse the value's tokens into the setting found under the
        name; an unknown name throws for the command line and is MISSING
        otherwise; a failed parse is INVALID. */
    method SetSetting(name: string, value: seq<string>, src: Source) returns (r: Fallible<SettingError>)
      requires Valid()
      modifies this`settings
      ensures Valid() && SameShape(old(settings), settings)
      ensures r.Fatal? <==> FindSetting(name).None? && src == COMMANDLINE
      ensures FindSetting(name).None? ==> settings == old(settings) && (r.Ok? ==> r.value == MISSING)
      ensures FindSetting(name).Some? ==>
        var q := ParseOne(old(settings), FindSetting(name).value, name, Tokens(value, 0), src);
        settings == q.settings && r == Ok(if q.ok then NONE else INVALID)
    {
      var id := FindSetting(name);
      if id.None? {
        if src == COMMANDLINE {
          return Fatal("Unrecognized command-line option");
        }
        return Ok(MISSING);
      }
      var q := ParseOne(settings, id.value, name, Tokens(value, 0), src);
      settings := q.settings;
      return Ok(if q.ok then NONE else INVALID);
    }

    /** parse: the command-line loop, then the remainder. */
    method Parse(toks: seq<string>) returns (r: CmdLine)
      requires Valid()
      modifies this`settings
      ensures Valid() && SameShape(old(settings), settings)
      ensures (r, settings) == OptionsLoop(old(settings), index, Tokens(toks, 0))
    {
      var cur, p, stop := ConsumeOptions(settings, index, toks);
      SameShapeIndexed(settings, cur, index, grouped);
      settings := cur;
      if stop.Some? {
        return stop.value;
      }
      var rest := TakeRemainder(p);
      return Remainder(rest);
    }
  }

  /** The remainder loop of setting_container::parse: every token left, in order. */
  method TakeRemainder(p: Tokens) returns (rest: seq<string>)
    requires Live(p)
    ensures rest == p.toks[p.pos..]
  {
    var q := p;
    rest := [];
    while q.pos < |q.toks|
      invariant Live(q) && q.toks == p.toks && p.pos <= q.pos
      invariant |rest| == q.pos - p.pos && forall j :: 0 <= j < |rest| ==> rest[j] == p.toks[p.pos + j]
    {
      rest := rest + [q.toks[q.pos]];
      q := Advance(q);
    }
  }

  /** The loop of setting_container::copyFrom over the settings' values. */
  method CopyAll(settings: seq<Setting>, src: seq<Setting>, srcIndex: map<string, nat>) returns (cur: seq<Setting>)
    requires Wf(settings) && forall j :: 0 <= j < |settings| ==> |settings[j].names| > 0
    requires Wf(src) && forall n :: n in srcIndex ==> srcIndex[n] < |src|
    ensures Wf(cur) && SameShape(settings, cur)
    ensures forall i :: 0 <= i < |cur| ==> cur[i] == CopiedFrom(src, srcIndex, settings[i])
  {
    cur := settings;
    var i := 0;
    while i < |cur|
      invariant 0 <= i <= |cur| && |cur| == |settings| && Wf(cur) && SameShape(settings, cur)
      invariant forall j :: 0 <= j < i ==> cur[j] == CopiedFrom(src, srcIndex, settings[j])
      invariant forall j :: i <= j < |cur| ==> cur[j] == settings[j]
    {
      var t := CopiedFrom(src, srcIndex, cur[i]);
      CopiedFromKeepsShape(cur, i, src, srcIndex);
      SameShapeTrans(settings, cur, cur[i := t]);
      cur := cur[i := t];
      i := i + 1;
    }
  }

  /** The option loop of setting_container::parse: stop is the exception that
      ended it, if any; otherwise p stands on the first token that is not an
      option. */
  method ConsumeOptions(settings: seq<Setting>, index: map<string, nat>, toks: seq<string>)
    returns (cur: seq<Setting>, p: Tokens, stop: Option<CmdLine>)
    requires Wf(settings) && forall n :: n in index ==> index[n] < |settings|
    ensures Wf(cur) && SameShape(settings, cur) && Live(p) && p.toks == toks
    ensures stop.Some? ==> (stop.value, cur) == OptionsLoop(settings, index, Tokens(toks, 0))
    ensures stop.None? ==> (Remainder(toks[p.pos..]), cur) == OptionsLoop(settings, index, Tokens(toks, 0))
  {
    cur, p := settings, Tokens(toks, 0);
    while true
      invariant Live(p) && p.toks == toks && Wf(cur) && SameShape(settings, cur)
      invariant OptionsLoop(cur, index, p) == OptionsLoop(settings, index, Tokens(toks, 0))
      decreases |toks| - p.pos
    {
      OptionsLoopStops(cur, index, p);
      var t := Peek(p);
      if t.None? || !IsOption(t.value) {
        return cur, p, None;
      }
      var name := StripHyphens(t.value);
      if name == [] {
        return cur, p, Some(ParseError("stray \"-\" in command line"));
      }
      if IsHelp(name) {
        return cur, p, Some(QuitAfterHelp);
      }
      var id := Lookup(index, name);
      if id.None? {
        return cur, p, Some(ParseError("unknown option"));
      }
      var q := ParseOne(cur, id.value, name, Advance(p), COMMANDLINE);
      OptionsLoopStep(cur, index, p, id.value);
      SameShapeTrans(settings, cur, q.settings);
      if !q.ok {
        return q.settings, p, Some(ParseError("invalid value for option"));
      }
      cur, p := q.settings, q.p;
    }
  }

  /** The ways the command-line loop ends at the token p stands on. */
  lemma OptionsLoopStops(settings: seq<Setting>, index: map<string, nat>, p: Tokens)
    requires Wf(settings) && Live(p) && forall n :: n in index ==> index[n] < |settings|
    ensures p.pos == |p.toks| || !IsOption(p.toks[p.pos]) ==>
      OptionsLoop(settings, index, p) == (Remainder(p.toks[p.pos..]), settings)
    ensures p.pos < |p.toks| && IsOption(p.toks[p.pos]) ==>
      var name := StripHyphens(p.toks[p.pos]);
      (name == [] ==> OptionsLoop(settings, index, p) == (ParseError("stray \"-\" in command line"), settings)) &&
      (name != [] && IsHelp(name) ==> OptionsLoop(settings, index, p) == (QuitAfterHelp, settings)) &&
      (name != [] && !IsHelp(name) && Lookup(index, name).None? ==>
         OptionsLoop(settings, index, p) == (ParseError("unknown option"), settings))
  {
  }

  /** One turn of the command-line loop: an option handed to the setting its
      name finds. */
  lemma OptionsLoopStep(settings: seq<Setting>, index: map<string, nat>, p: Tokens, id: nat)
    requires Wf(settings) && Live(p) && forall n :: n in index ==> index[n] < |settings|
    requires p.pos < |p.toks| && IsOption(p.toks[p.pos])
    requires var name := StripHyphens(p.toks[p.pos]);
      name != [] && !IsHelp(name) && Lookup(index, name) == Some(id)
    ensures var q := ParseOne(settings, id, StripHyphens(p.toks[p.pos]), Advance(p), COMMANDLINE);
      OptionsLoop(settings, index, p) ==
        if q.ok then OptionsLoop(q.settings, index, q.p) else (ParseError("invalid value for option"), q.settings)
  {
  }
}
