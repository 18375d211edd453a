/** Capture ordering keys: `natural_key` and the `strptime` parsing it relies on
    (tools/compare_latest_pair.py, lines 19 and 27-34).

    Parsing is modelled for zero-padded, fixed-width fields: `%Y` is four ASCII
    digits, `%m %d %H %M %S` two each, every other character of the format must
    appear literally, and the whole stem must be consumed. The parsed fields are
    then range-checked as `datetime` does. */
module Timestamps {
  import opened Basics

  /** The filename formats, tried in this order. */
  const TS_FORMATS: seq<string> :=
    ["%Y-%m-%d_%H-%M-%S", "%Y%m%d-%H%M%S", "%Y%m%d_%H%M%S", "%Y-%m-%d %H.%M.%S"]

  datatype DateTime = DateTime(year: nat, month: nat, day: nat, hour: nat, minute: nat, second: nat)

  /** The values `strptime` gives the fields a format does not name. */
  const Defaults := DateTime(1900, 1, 1, 0, 0, 0)

  predicate IsLeap(year: nat) {
    year % 4 == 0 && (year % 100 != 0 || year % 400 == 0)
  }

  function DaysInMonth(year: nat, month: nat): nat {
    if month == 2 then (if IsLeap(year) then 29 else 28)
    else if month == 4 || month == 6 || month == 9 || month == 11 then 30
    else 31
  }

  /** The values `datetime` accepts. */
  predicate Valid(t: DateTime) {
    && 1 <= t.year <= 9999
    && 1 <= t.month <= 12
    && 1 <= t.day <= DaysInMonth(t.year, t.month)
    && t.hour <= 23 && t.minute <= 59 && t.second <= 59
  }

  /** Chronological order, which on valid values is lexicographic order of the fields. */
  predicate DateLt(a: DateTime, b: DateTime) {
    || a.year < b.year
    || (a.year == b.year && a.month < b.month)
    || (a.year == b.year && a.month == b.month && a.day < b.day)
    || (a.year == b.year && a.month == b.month && a.day == b.day && a.hour < b.hour)
    || (a.year == b.year && a.month == b.month && a.day == b.day && a.hour == b.hour && a.minute < b.minute)
    || (a.year == b.year && a.month == b.month && a.day == b.day && a.hour == b.hour && a.minute == b.minute
        && a.second < b.second)
  }

  // ---------------------------------------------------------------------------
  // Formats

  datatype Token = Field(code: char) | Lit(c: char)

  /** A format string as directives and literal characters. */
  function Tokens(fmt: string): seq<Token> {
    TokensFrom(fmt, 0)
  }

  function TokensFrom(fmt: string, i: nat): seq<Token>
    decreases |fmt| - i
  {
    if i >= |fmt| then []
    else if fmt[i] == '%' && i + 1 < |fmt| then [Field(fmt[i + 1])] + TokensFrom(fmt, i + 2)
    else [Lit(fmt[i])] + TokensFrom(fmt, i + 1)
  }

  /** Digits a directive takes; 0 for a directive outside this model. */
  function Width(code: char): nat {
    if code == 'Y' then 4
    else if code == 'm' || code == 'd' || code == 'H' || code == 'M' || code == 'S' then 2
    else 0
  }

  function Get(t: DateTime, code: char): nat {
    match code
    case 'Y' => t.year
    case 'm' => t.month
    case 'd' => t.day
    case 'H' => t.hour
    case 'M' => t.minute
    case 'S' => t.second
    case _ => 0
  }

  function Set(t: DateTime, code: char, v: nat): (r: DateTime)
    ensures forall c :: Width(c) > 0 ==> Get(r, c) == if c == code then v else Get(t, c)
  {
    match code
    case 'Y' => t.(year := v)
    case 'm' => t.(month := v)
    case 'd' => t.(day := v)
    case 'H' => t.(hour := v)
    case 'M' => t.(minute := v)
    case 'S' => t.(second := v)
    case _ => t
  }

  function Codes(toks: seq<Token>): set<char> {
    if toks == [] then {}
    else (if toks[0].Field? then {toks[0].code} else {}) + Codes(toks[1..])
  }

  /** Every directive is one this model parses, and none appears twice. */
  predicate WellFormed(toks: seq<Token>) {
    toks != [] ==>
      && (toks[0].Field? ==> Width(toks[0].code) > 0 && toks[0].code !in Codes(toks[1..]))
      && WellFormed(toks[1..])
  }

  /** The format names all six fields of a date and time. */
  predicate Complete(toks: seq<Token>) {
    Codes(toks) == {'Y', 'm', 'd', 'H', 'M', 'S'}
  }

  // ---------------------------------------------------------------------------
  // strptime and its inverse

  /** Matches `s` against the tokens, recording each field in `acc`. */
  function Match(toks: seq<Token>, s: string, acc: DateTime): Option<DateTime>
    decreases toks
  {
    if toks == [] then (if s == [] then Some(acc) else None)
    else match toks[0]
      case Lit(c) =>
        if s != [] && s[0] == c then Match(toks[1..], s[1..], acc) else None
      case Field(code) =>
        var w := Width(code);
        if w == 0 || |s| < w || !AllDigits(s[..w]) then None
        else Match(toks[1..], s[w..], Set(acc, code, DigitsValue(s[..w])))
  }

  /** `datetime.strptime(stem, fmt)`; `None` where it raises. */
  function Strptime(stem: string, fmt: string): Option<DateTime> {
    match Match(Tokens(fmt), stem, Defaults)
    case Some(t) => if Valid(t) then Some(t) else None
    case None => None
  }

  /** `t.strftime(fmt)` for the directives of this model. */
  function Strftime(t: DateTime, toks: seq<Token>): string {
    if toks == [] then []
    else match toks[0]
      case Lit(c) => [c] + Strftime(t, toks[1..])
      case Field(code) => ShowDigits(Get(t, code), Width(code)) + Strftime(t, toks[1..])
  }

  lemma {:induction false} MatchKeepsOthers(toks: seq<Token>, s: string, acc: DateTime, t: DateTime, c: char)
    requires Match(toks, s, acc) == Some(t) && Width(c) > 0 && c !in Codes(toks)
    ensures Get(t, c) == Get(acc, c)
    decreases toks
  {
    if toks != [] {
      match toks[0]
      case Lit(_) => MatchKeepsOthers(toks[1..], s[1..], acc, t, c);
      case Field(code) =>
        var w := Width(code);
        MatchKeepsOthers(toks[1..], s[w..], Set(acc, code, DigitsValue(s[..w])), t, c);
    }
  }

  /** What was parsed prints back as the same text. */
  lemma {:induction false} MatchThenFormat(toks: seq<Token>, s: string, acc: DateTime, t: DateTime)
    requires WellFormed(toks) && Match(toks, s, acc) == Some(t)
    ensures Strftime(t, toks) == s
    decreases toks
  {
    if toks != [] {
      match toks[0]
      case Lit(c) =>
        MatchThenFormat(toks[1..], s[1..], acc, t);
        assert s == [c] + s[1..];
      case Field(code) =>
        var w := Width(code);
        var v := DigitsValue(s[..w]);
        var acc' := Set(acc, code, v);
        assert Strftime(t, toks[1..]) == s[w..] by {
          MatchThenFormat(toks[1..], s[w..], acc', t);
        }
        assert Get(t, code) == v by {
          MatchKeepsOthers(toks[1..], s[w..], acc', t, code);
        }
        assert ShowDigits(v, w) == s[..w] by {
          ShowDigitsValue(s[..w]);
        }
        assert s == s[..w] + s[w..];
    }
  }

  /** `acc` with every field the tokens name taken from `t`. */
  function Overlay(acc: DateTime, t: DateTime, toks: seq<Token>): DateTime
    decreases toks
  {
    if toks == [] then acc
    else if toks[0].Field? then Overlay(Set(acc, toks[0].code, Get(t, toks[0].code)), t, toks[1..])
    else Overlay(acc, t, toks[1..])
  }

  lemma {:induction false} OverlayGet(acc: DateTime, t: DateTime, toks: seq<Token>, c: char)
    requires Width(c) > 0
    ensures Get(Overlay(acc, t, toks), c) == if c in Codes(toks) then Get(t, c) else Get(acc, c)
    decreases toks
  {
    if toks != [] {
      if toks[0].Field? {
        OverlayGet(Set(acc, toks[0].code, Get(t, toks[0].code)), t, toks[1..], c);
      } else {
        OverlayGet(acc, t, toks[1..], c);
      }
    }
  }

  predicate Fits(t: DateTime, toks: seq<Token>) {
    forall c :: c in Codes(toks) ==> Get(t, c) < Pow10(Width(c))
  }

  lemma {:induction false} FormatThenMatch(toks: seq<Token>, t: DateTime, acc: DateTime)
    requires WellFormed(toks) && Fits(t, toks)
    ensures Match(toks, Strftime(t, toks), acc) == Some(Overlay(acc, t, toks))
    decreases toks
  {
    if toks != [] {
      var s := Strftime(t, toks);
      assert Fits(t, toks[1..]);
      match toks[0]
      case Lit(c) =>
        FormatThenMatch(toks[1..], t, acc);
        assert s[1..] == Strftime(t, toks[1..]);
      case Field(code) =>
        var w := Width(code);
        var digits := ShowDigits(Get(t, code), w);
        assert s[..w] == digits && s[w..] == Strftime(t, toks[1..]);
        DigitsValueShow(Get(t, code), w);
        FormatThenMatch(toks[1..], t, Set(acc, code, Get(t, code)));
    }
  }

  lemma ValidFits(t: DateTime, toks: seq<Token>)
    requires Valid(t) && Complete(toks)
    ensures Fits(t, toks)
  {
    assert Pow10(2) == 100 && Pow10(4) == 10000;
  }

  /** Round trip, one way: a stem a format accepts is exactly that format's
      rendering of the parsed time, which is a valid `datetime`. */
  lemma ParseThenFormat(stem: string, fmt: string, t: DateTime)
    requires WellFormed(Tokens(fmt)) && Strptime(stem, fmt) == Some(t)
    ensures Valid(t) && Strftime(t, Tokens(fmt)) == stem
  {
    MatchThenFormat(Tokens(fmt), stem, Defaults, t);
  }

  /** Round trip, the other way: every valid time, rendered with a format that
      names all six fields, parses back to itself. */
  lemma FormatThenParse(t: DateTime, fmt: string)
    requires WellFormed(Tokens(fmt)) && Complete(Tokens(fmt)) && Valid(t)
    ensures Strptime(Strftime(t, Tokens(fmt)), fmt) == Some(t)
  {
    var toks := Tokens(fmt);
    ValidFits(t, toks);
    FormatThenMatch(toks, t, Defaults);
    var o := Overlay(Defaults, t, toks);
    forall c | c in {'Y', 'm', 'd', 'H', 'M', 'S'} ensures Get(o, c) == Get(t, c) {
      OverlayGet(Defaults, t, toks, c);
    }
    assert Get(o, 'Y') == Get(t, 'Y') && Get(o, 'm') == Get(t, 'm') && Get(o, 'd') == Get(t, 'd');
    assert Get(o, 'H') == Get(t, 'H') && Get(o, 'M') == Get(t, 'M') && Get(o, 'S') == Get(t, 'S');
    assert o == t;
  }

  // Index-based forms of `Codes` and `WellFormed`, which the verifier can
  // evaluate on the constant formats.

  function CodesFrom(toks: seq<Token>, i: nat): set<char>
    decreases |toks| - i
  {
    if i >= |toks| then {}
    else (if toks[i].Field? then {toks[i].code} else {}) + CodesFrom(toks, i + 1)
  }

  predicate WellFormedFrom(toks: seq<Token>, i: nat)
    decreases |toks| - i
  {
    i < |toks| ==>
      && (toks[i].Field? ==> Width(toks[i].code) > 0 && toks[i].code !in CodesFrom(toks, i + 1))
      && WellFormedFrom(toks, i + 1)
  }

  lemma {:induction false} FromAgrees(toks: seq<Token>, i: nat)
    requires i <= |toks|
    ensures CodesFrom(toks, i) == Codes(toks[i..])
    ensures WellFormedFrom(toks, i) <==> WellFormed(toks[i..])
    decreases |toks| - i
  {
    if i < |toks| {
      FromAgrees(toks, i + 1);
      assert toks[i..][1..] == toks[i + 1..];
    }
  }

  lemma FormatInFragment(fmt: string, toks: seq<Token>)
    requires Tokens(fmt) == toks
    requires WellFormedFrom(toks, 0) && CodesFrom(toks, 0) == {'Y', 'm', 'd', 'H', 'M', 'S'}
    ensures WellFormed(Tokens(fmt)) && Complete(Tokens(fmt))
  {
    FromAgrees(toks, 0);
    assert toks[0..] == toks;
  }

  /** Proof scaffolding, not a second definition: the token lists of the four
      `TS_FORMATS` written out, so that the verifier need not unfold `Tokens`
      on literal strings. `Format0Tokens` to `Format3Tokens` check each list
      against `Tokens`. */
  const FORMAT_TOKENS: seq<seq<Token>> := [
    [Field('Y'), Lit('-'), Field('m'), Lit('-'), Field('d'), Lit('_'),
     Field('H'), Lit('-'), Field('M'), Lit('-'), Field('S')],
    [Field('Y'), Field('m'), Field('d'), Lit('-'), Field('H'), Field('M'), Field('S')],
    [Field('Y'), Field('m'), Field('d'), Lit('_'), Field('H'), Field('M'), Field('S')],
    [Field('Y'), Lit('-'), Field('m'), Lit('-'), Field('d'), Lit(' '),
     Field('H'), Lit('.'), Field('M'), Lit('.'), Field('S')]
  ]

  lemma Format0Tokens() ensures Tokens(TS_FORMATS[0]) == FORMAT_TOKENS[0] {
    var f := TS_FORMATS[0];
    assert TokensFrom(f, 12) == [Field('M'), Lit('-'), Field('S')];
    assert TokensFrom(f, 6) == [Field('d'), Lit('_'), Field('H'), Lit('-'), Field('M'), Lit('-'), Field('S')];
    assert TokensFrom(f, 0) == [Field('Y'), Lit('-'), Field('m'), Lit('-'), Field('d'), Lit('_'), Field('H'), Lit('-'), Field('M'), Lit('-'), Field('S')];
  }
  lemma Format1Tokens() ensures Tokens(TS_FORMATS[1]) == FORMAT_TOKENS[1] {
    var f := TS_FORMATS[1];
    assert TokensFrom(f, 7) == [Field('H'), Field('M'), Field('S')];
    assert TokensFrom(f, 0) == [Field('Y'), Field('m'), Field('d'), Lit('-'), Field('H'), Field('M'), Field('S')];
  }
  lemma Format2Tokens() ensures Tokens(TS_FORMATS[2]) == FORMAT_TOKENS[2] {
    var f := TS_FORMATS[2];
    assert TokensFrom(f, 7) == [Field('H'), Field('M'), Field('S')];
    assert TokensFrom(f, 0) == [Field('Y'), Field('m'), Field('d'), Lit('_'), Field('H'), Field('M'), Field('S')];
  }
  lemma Format3Tokens() ensures Tokens(TS_FORMATS[3]) == FORMAT_TOKENS[3] {
    var f := TS_FORMATS[3];
    assert TokensFrom(f, 12) == [Field('M'), Lit('.'), Field('S')];
    assert TokensFrom(f, 6) == [Field('d'), Lit(' '), Field('H'), Lit('.'), Field('M'), Lit('.'), Field('S')];
    assert TokensFrom(f, 0) == [Field('Y'), Lit('-'), Field('m'), Lit('-'), Field('d'), Lit(' '), Field('H'), Lit('.'), Field('M'), Lit('.'), Field('S')];
  }

  /** Each token list uses every directive once and only supported ones. */
  lemma FormatTokensChecked(k: nat)
    requires k < 4
    ensures WellFormedFrom(FORMAT_TOKENS[k], 0)
    ensures CodesFrom(FORMAT_TOKENS[k], 0) == {'Y', 'm', 'd', 'H', 'M', 'S'}
  {
  }

  lemma FormatInFragmentAt(k: nat)
    requires k < 4
    ensures WellFormed(Tokens(TS_FORMATS[k])) && Complete(Tokens(TS_FORMATS[k]))
  {
    if k == 0 { Format0Tokens(); }
    else if k == 1 { Format1Tokens(); }
    else if k == 2 { Format2Tokens(); }
    else { Format3Tokens(); }
    FormatTokensChecked(k);
    FormatInFragment(TS_FORMATS[k], FORMAT_TOKENS[k]);
  }

  /** The four formats are in the fragment the round trips speak of. */
  lemma FormatsWellFormed()
    ensures forall i :: 0 <= i < |TS_FORMATS| ==> WellFormed(Tokens(TS_FORMATS[i])) && Complete(Tokens(TS_FORMATS[i]))
  {
    forall i | 0 <= i < |TS_FORMATS|
      ensures WellFormed(Tokens(TS_FORMATS[i])) && Complete(Tokens(TS_FORMATS[i]))
    {
      FormatInFragmentAt(i);
    }
  }

  // ---------------------------------------------------------------------------
  // natural_key

  /** The first format, in order, that parses the stem. */
  function FirstParse(formats: seq<string>, stem: string): (r: Option<DateTime>)
    ensures r.None? <==> forall i :: 0 <= i < |formats| ==> Strptime(stem, formats[i]).None?
    ensures r.Some? ==>
      exists i :: 0 <= i < |formats| && Strptime(stem, formats[i]) == r
        && forall j :: 0 <= j < i ==> Strptime(stem, formats[j]).None?
  {
    if formats == [] then None
    else match Strptime(stem, formats[0])
      case Some(t) => Some(t)
      case None =>
        var r := FirstParse(formats[1..], stem);
        assert forall i :: 0 < i < |formats| ==> formats[i] == formats[1..][i - 1];
        if r.Some? then
          var i :| 0 <= i < |formats[1..]| && Strptime(stem, formats[1..][i]) == r
            && forall j :: 0 <= j < i ==> Strptime(stem, formats[1..][j]).None?;
          assert Strptime(stem, formats[i + 1]) == r;
          r
        else r
  }

  /** The first format that parses decides the result. */
  lemma {:induction false} FirstParseAt(formats: seq<string>, stem: string, i: nat)
    requires i < |formats| && Strptime(stem, formats[i]).Some?
    requires forall j :: 0 <= j < i ==> Strptime(stem, formats[j]).None?
    ensures FirstParse(formats, stem) == Strptime(stem, formats[i])
  {
    if i > 0 {
      assert Strptime(stem, formats[0]).None?;
      forall j | 0 <= j < i - 1 ensures Strptime(stem, formats[1..][j]).None? {
        assert formats[1..][j] == formats[j + 1];
      }
      FirstParseAt(formats[1..], stem, i - 1);
    }
  }

  /** Index of the final '.' of a name, if any. */
  function LastDot(name: string): (r: Option<nat>)
    ensures r.Some? ==>
      && r.value < |name| && name[r.value] == '.'
      && forall j :: r.value < j < |name| ==> name[j] != '.'
    ensures r.None? ==> forall j :: 0 <= j < |name| ==> name[j] != '.'
  {
    if name == [] then None
    else if name[|name| - 1] == '.' then Some(|name| - 1)
    else LastDot(name[..|name| - 1])
  }

  /** `Path(name).stem`: the name without its final suffix; a leading dot or a
      trailing dot does not start a suffix. */
  function Stem(name: string): string {
    match LastDot(name)
    case Some(i) => if 0 < i < |name| - 1 then name[..i] else name
    case None => name
  }

  lemma StemDropsExtension(name: string, ext: string)
    requires |ext| > 0 && (forall j :: 0 <= j < |ext| ==> ext[j] != '.')
    requires EndsWith(name, "." + ext) && |name| > |ext| + 1
    ensures Stem(name) == name[..|name| - |ext| - 1]
  {
    var i := |name| - |ext| - 1;
    assert name[i..] == "." + ext;
    assert name[i] == '.';
    forall j | i < j < |name| ensures name[j] != '.' {
      assert name[j] == ("." + ext)[j - i] == ext[j - i - 1];
    }
    assert i > 0;
  }

  datatype SortKey = DateKey(time: DateTime) | MtimeKey(mtime: real) | StemKey(stem: string)

  datatype KeyKind = DateKind | MtimeKind | StemKind

  function Kind(k: SortKey): KeyKind {
    match k
    case DateKey(_) => DateKind
    case MtimeKey(_) => MtimeKind
    case StemKey(_) => StemKind
  }

  /** Python's `<` between two keys of one kind. Between kinds Python raises
      `TypeError`; callers only compare keys of one kind, so the `false` there
      is never consulted. */
  predicate KeyLt(a: SortKey, b: SortKey) {
    match (a, b)
    case (DateKey(x), DateKey(y)) => DateLt(x, y)
    case (MtimeKey(x), MtimeKey(y)) => x < y
    case (StemKey(x), StemKey(y)) => StrLt(x, y)
    case _ => false
  }

  lemma KeyLtAsymmetric(a: SortKey, b: SortKey)
    requires KeyLt(a, b)
    ensures !KeyLt(b, a)
  {
    if a.StemKey? && b.StemKey? && KeyLt(b, a) {
      StrLtTransitive(a.stem, b.stem, a.stem);
      StrLtIrreflexive(a.stem);
    }
  }

  lemma KeyLtNegTransitive(a: SortKey, b: SortKey, c: SortKey)
    requires Kind(a) == Kind(b) == Kind(c) && KeyLt(a, c)
    ensures KeyLt(a, b) || KeyLt(b, c)
  {
    if a.StemKey? {
      StrLtTotal(a.stem, b.stem);
      if StrLt(b.stem, a.stem) {
        StrLtTransitive(b.stem, a.stem, c.stem);
      }
    }
  }

  /** The key `natural_key` gives a file: the first format that parses the stem,
      else the modification time (when `stat` succeeds), else the stem. */
  function CaptureKey(name: string, mtime: Option<real>): (k: SortKey)
    ensures k.DateKey? <==> exists i :: 0 <= i < |TS_FORMATS| && Strptime(Stem(name), TS_FORMATS[i]).Some?
    ensures k.DateKey? ==>
      exists i :: 0 <= i < |TS_FORMATS| && Strptime(Stem(name), TS_FORMATS[i]) == Some(k.time)
        && forall j :: 0 <= j < i ==> Strptime(Stem(name), TS_FORMATS[j]).None?
    ensures k.MtimeKey? <==> !k.DateKey? && mtime.Some?
    ensures k.MtimeKey? ==> k.mtime == mtime.value
    ensures k.StemKey? ==> k.stem == Stem(name)
  {
    match FirstParse(TS_FORMATS, Stem(name))
    case Some(t) => DateKey(t)
    case None => if mtime.Some? then MtimeKey(mtime.value) else StemKey(Stem(name))
  }

  /** A stem of fewer than four characters cannot hold the `%Y` that every
      format begins with, so a file that `stat` reports on gets its
      modification time as key. */
  lemma MtimeKeyForShortStem(name: string, mtime: Option<real>)
    requires |Stem(name)| < 4 && mtime.Some?
    ensures CaptureKey(name, mtime) == MtimeKey(mtime.value)
  {
    var stem := Stem(name);
    Format0Tokens();
    Format1Tokens();
    Format2Tokens();
    Format3Tokens();
    forall i | 0 <= i < |TS_FORMATS| ensures Strptime(stem, TS_FORMATS[i]).None? {
      assert Tokens(TS_FORMATS[i])[0] == Field('Y');
    }
  }

  /** `natural_key`: tries the formats in order and returns at the first that
      parses. `mtime` is what `stat` reports, `None` where it raises. */
  method NaturalKey(name: string, mtime: Option<real>) returns (k: SortKey)
    ensures k == CaptureKey(name, mtime)
  {
    var stem := Stem(name);
    for i := 0 to |TS_FORMATS|
      invariant forall j :: 0 <= j < i ==> Strptime(stem, TS_FORMATS[j]).None?
    {
      var parsed := Strptime(stem, TS_FORMATS[i]);
      if parsed.Some? {
        FirstParseAt(TS_FORMATS, stem, i);
        return DateKey(parsed.value);
      }
    }
    assert FirstParse(TS_FORMATS, stem) == None;
    if mtime.Some? {
      return MtimeKey(mtime.value);
    }
    return StemKey(stem);
  }
}
