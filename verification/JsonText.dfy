/** JSON text: Python's `json.dumps(v, separators=(",", ":"), sort_keys=True,
    ensure_ascii=False)` and `json.loads` (RFC 8259, with Python's extra number
    constants). */
module JsonText {
  import opened Basics
  import opened Decimal
  import opened Json
  import Hex

  // ---- Key order ----

  /** Lexicographic order by code point. */
  predicate Before(a: string, b: string) {
    a == "" || (b != "" && (a[0] < b[0] || (a[0] == b[0] && Before(a[1..], b[1..]))))
  }

  lemma {:induction false} BeforeTotal(a: string, b: string)
    ensures Before(a, b) || Before(b, a)
  {
    if a != "" && b != "" && a[0] == b[0] { BeforeTotal(a[1..], b[1..]); }
  }

  lemma {:induction false} BeforeTransitive(a: string, b: string, c: string)
    requires Before(a, b) && Before(b, c)
    ensures Before(a, c)
  {
    if a != "" && a[0] == b[0] == c[0] { BeforeTransitive(a[1..], b[1..], c[1..]); }
  }

  predicate IsLeast(keys: set<string>, least: string) {
    least in keys && forall k :: k in keys ==> Before(least, k)
  }

  lemma {:induction false} LeastExists(keys: set<string>)
    requires keys != {}
    ensures exists least :: IsLeast(keys, least)
  {
    var k :| k in keys;
    BeforeTotal(k, k);
    if keys == {k} {
      assert IsLeast(keys, k);
    } else {
      LeastExists(keys - {k});
      var l :| IsLeast(keys - {k}, l);
      BeforeTotal(k, l);
      var least := if Before(k, l) then k else l;
      forall x | x in keys ensures Before(least, x) {
        if x != k && least == k { BeforeTransitive(k, l, x); }
      }
      assert IsLeast(keys, least);
    }
  }

  lemma {:induction false} BeforeAntisymmetric(a: string, b: string)
    requires Before(a, b) && Before(b, a)
    ensures a == b
  {
    if a != "" { BeforeAntisymmetric(a[1..], b[1..]); }
  }

  lemma LeastUnique(keys: set<string>)
    ensures forall a, b :: IsLeast(keys, a) && IsLeast(keys, b) ==> a == b
  {
    forall a, b | IsLeast(keys, a) && IsLeast(keys, b) ensures a == b {
      BeforeAntisymmetric(a, b);
    }
  }

  function Least(keys: set<string>): string
    requires keys != {}
  {
    LeastExists(keys);
    LeastUnique(keys);
    var least :| least in keys && IsLeast(keys, least);
    least
  }

  function SortedKeys(keys: set<string>): (r: seq<string>)
    ensures forall k :: k in r <==> k in keys
    ensures forall i, j :: 0 <= i < j < |r| ==> r[i] != r[j] && Before(r[i], r[j])
  {
    if keys == {} then [] else [Least(keys)] + SortedKeys(keys - {Least(keys)})
  }

  // ---- Numbers ----

  function DigitsLength(s: string): (n: nat)
    ensures n <= |s|
  {
    if s == "" || !IsDigit(s[0]) then 0 else 1 + DigitsLength(s[1..])
  }

  function IntLength(s: string): (n: nat)
    ensures n <= |s|
  {
    if s != "" && s[0] == '0' then 1 else DigitsLength(s)
  }

  function FractionLength(s: string): (n: nat)
    ensures n <= |s|
  {
    if |s| >= 2 && s[0] == '.' && IsDigit(s[1]) then 1 + DigitsLength(s[1..]) else 0
  }

  function ExponentLength(s: string): (n: nat)
    ensures n <= |s|
  {
    if |s| < 2 || s[0] !in {'e', 'E'} then 0
    else
      var sign := if s[1] in {'+', '-'} then 1 else 0;
      var digits := DigitsLength(s[1 + sign..]);
      if digits > 0 then 1 + sign + digits else 0
  }

  /** The length of the number at the start of `s`, zero if there is none. */
  function NumberLength(s: string): (n: nat)
    ensures n <= |s|
  {
    var sign := if s != "" && s[0] == '-' then 1 else 0;
    var whole := IntLength(s[sign..]);
    if whole == 0 then 0
    else
      var fraction := FractionLength(s[sign + whole..]);
      sign + whole + fraction + ExponentLength(s[sign + whole + fraction..])
  }

  const CONSTANTS: seq<string> := ["NaN", "Infinity", "-Infinity"]

  predicate ValidNumber(literal: string) {
    literal in CONSTANTS || (literal != "" && NumberLength(literal) == |literal|)
  }

  // ---- Printing ----

  function EscapeChar(c: char): string {
    if c == '"' then "\\\""
    else if c == '\\' then "\\\\"
    else if c == '\n' then "\\n"
    else if c == '\r' then "\\r"
    else if c == '\t' then "\\t"
    else if c as int == 8 then "\\b"
    else if c as int == 12 then "\\f"
    else if c as int < 32 then "\\u00" + [Hex.HexChar(c as int / 16), Hex.HexChar(c as int % 16)]
    else [c]
  }

  function Escape(s: string): string {
    if s == "" then "" else EscapeChar(s[0]) + Escape(s[1..])
  }

  function Quote(s: string): string { "\"" + Escape(s) + "\"" }

  function PrintMembers(v: Json, keys: seq<string>): string
    requires v.Obj? && forall k :: k in keys ==> k in v.fields
    decreases v, 1, |keys|
  {
    if keys == [] then ""
    else if |keys| == 1 then Quote(keys[0]) + ":" + Print(v.fields[keys[0]])
    else Quote(keys[0]) + ":" + Print(v.fields[keys[0]]) + "," + PrintMembers(v, keys[1..])
  }

  function Print(v: Json): string
    decreases v, 2, 0
  {
    match v
    case Null => "null"
    case Bool(b) => if b then "true" else "false"
    case Number(literal) => literal
    case Str(s) => Quote(s)
    case Arr(items) => "[" + PrintItems(items) + "]"
    case Obj(fields) => "{" + PrintMembers(v, SortedKeys(fields.Keys)) + "}"
  }

  function PrintItems(items: seq<Json>): string
    decreases items, 1, 0
  {
    if items == [] then ""
    else if |items| == 1 then Print(items[0])
    else Print(items[0]) + "," + PrintItems(items[1..])
  }

  /** Every number in the value is spelled as JSON spells numbers. */
  ghost predicate Printable(v: Json) {
    match v
    case Number(literal) => ValidNumber(literal)
    case Arr(items) => forall i :: 0 <= i < |items| ==> Printable(items[i])
    case Obj(fields) => forall k :: k in fields ==> Printable(fields[k])
    case _ => true
  }

  // ---- Parsing ----

  function SkipSpace(s: string): (r: string)
    ensures |r| <= |s|
  {
    if s != "" && s[0] in {' ', '\t', '\n', '\r'} then SkipSpace(s[1..]) else s
  }

  /** Four hexadecimal digits. */
  function CodeUnit(s: string): (r: Option<nat>)
    ensures r.Some? ==> r.value < 0x10000 && |s| >= 4
  {
    if |s| < 4 || exists i :: 0 <= i < 4 && Hex.HexValue(s[i]).None? then None
    else Some(Hex.HexValue(s[0]).value * 4096 + Hex.HexValue(s[1]).value * 256 + Hex.HexValue(s[2]).value * 16 +
      Hex.HexValue(s[3]).value)
  }

  /** The character an escape denotes and how much text it takes after the
      backslash. A surrogate that is not part of a pair denotes no character. */
  function ParseEscape(s: string): (r: Option<(char, nat)>)
    ensures r.Some? ==> 1 <= r.value.1 <= |s|
  {
    if s == "" then None
    else if s[0] in {'"', '\\', '/'} then Some((s[0], 1))
    else if s[0] == 'b' then Some((8 as char, 1))
    else if s[0] == 'f' then Some((12 as char, 1))
    else if s[0] == 'n' then Some(('\n', 1))
    else if s[0] == 'r' then Some(('\r', 1))
    else if s[0] == 't' then Some(('\t', 1))
    else if s[0] == 'u' then
      match CodeUnit(s[1..])
      case None => None
      case Some(unit) =>
        if unit < 0xD800 || unit > 0xDFFF then Some((unit as char, 5))
        else if unit < 0xDC00 && |s| >= 11 && s[5] == '\\' && s[6] == 'u' then
          match CodeUnit(s[7..])
          case None => None
          case Some(low) =>
            if 0xDC00 <= low <= 0xDFFF then Some(((0x10000 + (unit - 0xD800) * 1024 +
              (low - 0xDC00)) as char, 11)) else None
        else None
    else None
  }

  /** The string whose opening quote has been read. Control characters must be
      escaped. */
  function ParseString(s: string): (r: Option<(string, string)>)
    ensures r.Some? ==> |r.value.1| < |s|
    decreases |s|
  {
    if s == "" then None
    else if s[0] == '"' then Some(("", s[1..]))
    else if s[0] == '\\' then
      match ParseEscape(s[1..])
      case None => None
      case Some((c, n)) =>
        match ParseString(s[1 + n..])
        case None => None
        case Some((tail, rest)) => Some(([c] + tail, rest))
    else if s[0] as int < 32 then None
    else
      match ParseString(s[1..])
      case None => None
      case Some((tail, rest)) => Some(([s[0]] + tail, rest))
  }

  function ParseWord(s: string, word: string, v: Json): (r: Option<(Json, nat)>)
    requires word != ""
    ensures r.Some? ==> 1 <= r.value.1 <= |s|
  {
    if StartsWith(s, word) then Some((v, |word|)) else None
  }

  /** A literal name or number at the start of `s`, with its length. */
  function ParseScalar(s: string): (r: Option<(Json, nat)>)
    ensures r.Some? ==> 1 <= r.value.1 <= |s|
  {
    if s == "" then None
    else if s[0] == 'n' then ParseWord(s, "null", Null)
    else if s[0] == 't' then ParseWord(s, "true", Bool(true))
    else if s[0] == 'f' then ParseWord(s, "false", Bool(false))
    else if s[0] == 'N' then ParseWord(s, "NaN", Number("NaN"))
    else if s[0] == 'I' then ParseWord(s, "Infinity", Number("Infinity"))
    else if |s| > 1 && s[0] == '-' && s[1] == 'I' then ParseWord(s, "-Infinity", Number("-Infinity"))
    else if NumberLength(s) > 0 then Some((Number(s[..NumberLength(s)]), NumberLength(s)))
    else None
  }

  /** `dict(pairs)`: a repeated key keeps its last value. */
  function FromPairs(pairs: seq<(string, Json)>): Object {
    if pairs == [] then map[]
    else FromPairs(pairs[..|pairs| - 1])[pairs[|pairs| - 1].0 := pairs[|pairs| - 1].1]
  }

  function ParseMembers(s: string): (r: Option<(seq<(string, Json)>, string)>)
    ensures r.Some? ==> |r.value.1| < |s|
    decreases |s|, 1
  {
    if s == "" || s[0] != '"' then None
    else match ParseString(s[1..])
      case None => None
      case Some((key, afterKey)) =>
        var colon := SkipSpace(afterKey);
        if colon == "" || colon[0] != ':' then None
        else match ParseValue(SkipSpace(colon[1..]))
          case None => None
          case Some((v, after)) =>
            var next := SkipSpace(after);
            if next == "" then None
            else if next[0] == '}' then Some(([(key, v)], next[1..]))
            else if next[0] == ',' then
              match ParseMembers(SkipSpace(next[1..]))
              case None => None
              case Some((pairs, rest)) => Some(([(key, v)] + pairs, rest))
            else None
  }

  function ParseValue(s: string): (r: Option<(Json, string)>)
    ensures r.Some? ==> |r.value.1| < |s|
    decreases |s|, 0
  {
    if s == "" then None
    else if s[0] == '"' then
      match ParseString(s[1..])
      case None => None
      case Some((text, rest)) => Some((Str(text), rest))
    else if s[0] == '[' then
      var body := SkipSpace(s[1..]);
      if body != "" && body[0] == ']' then Some((Arr([]), body[1..]))
      else
        match ParseItems(body)
        case None => None
        case Some((items, rest)) => Some((Arr(items), rest))
    else if s[0] == '{' then
      var body := SkipSpace(s[1..]);
      if body != "" && body[0] == '}' then Some((Obj(map[]), body[1..]))
      else
        match ParseMembers(body)
        case None => None
        case Some((pairs, rest)) => Some((Obj(FromPairs(pairs)), rest))
    else
      match ParseScalar(s)
      case None => None
      case Some((v, n)) => Some((v, s[n..]))
  }

  function ParseItems(s: string): (r: Option<(seq<Json>, string)>)
    ensures r.Some? ==> |r.value.1| < |s|
    decreases |s|, 1
  {
    match ParseValue(s)
    case None => None
    case Some((v, after)) =>
      var next := SkipSpace(after);
      if next == "" then None
      else if next[0] == ']' then Some(([v], next[1..]))
      else if next[0] == ',' then
        match ParseItems(SkipSpace(next[1..]))
        case None => None
        case Some((vs, rest)) => Some(([v] + vs, rest))
      else None
  }

  /** `json.loads`; None stands for its ValueError. */
  function Loads(s: string): Option<Json> {
    match ParseValue(SkipSpace(s))
    case None => None
    case Some((v, rest)) => if SkipSpace(rest) == "" then Some(v) else None
  }

  // ---- Round trip ----

  lemma ParseEscapedChar(c: char, rest: string)
    ensures var s := EscapeChar(c) + rest;
            if s[0] == '\\' then ParseEscape(s[1..]) == Some((c, |EscapeChar(c)| - 1))
            else s == [c] + rest && c != '"' && c as int >= 32
  {
    var s := EscapeChar(c) + rest;
    var n := c as int;
    if n < 32 && c !in {'\n', '\r', '\t'} && n != 8 && n != 12 {
      Hex.HexCharValue(n / 16);
      Hex.HexCharValue(n % 16);
      assert Hex.HexValue('0') == Some(0);
      var u := s[2..];
      assert u[0] == '0' && u[1] == '0' && u[2] == Hex.HexChar(n / 16) && u[3] == Hex.HexChar(n % 16);
      assert s[1..][1..] == u;
      assert CodeUnit(u) == Some(n);
    }
  }

  lemma {:induction false} ParseQuoted(s: string, rest: string)
    ensures ParseString(Escape(s) + "\"" + rest) == Some((s, rest))
  {
    if s == "" {
      assert Escape(s) + "\"" + rest == "\"" + rest;
    } else {
      var tail := Escape(s[1..]) + "\"" + rest;
      var text := EscapeChar(s[0]) + tail;
      assert Escape(s) + "\"" + rest == text;
      ParseEscapedChar(s[0], tail);
      ParseQuoted(s[1..], rest);
      assert text[|EscapeChar(s[0])|..] == tail;
      assert [s[0]] + s[1..] == s;
      if text[0] != '\\' {
        assert text[1..] == tail;
      } else {
        assert text[1 + (|EscapeChar(s[0])| - 1)..] == tail;
      }
    }
  }

  /** What may follow a value inside a text. */
  predicate Delimited(rest: string) { rest == "" || rest[0] in {',', ']', '}', ' ', '\t', '\n', '\r'} }

  lemma {:induction false} DigitsStop(s: string, rest: string)
    requires Delimited(rest)
    ensures DigitsLength(s + rest) == DigitsLength(s)
  {
    if s != "" {
      assert (s + rest)[1..] == s[1..] + rest;
      DigitsStop(s[1..], rest);
    }
  }

  lemma FractionStops(s: string, rest: string)
    requires Delimited(rest)
    ensures FractionLength(s + rest) == FractionLength(s)
  {
    if s != "" {
      assert (s + rest)[1..] == s[1..] + rest;
      DigitsStop(s[1..], rest);
    }
  }

  lemma ExponentStops(s: string, rest: string)
    requires Delimited(rest)
    ensures ExponentLength(s + rest) == ExponentLength(s)
  {
    if |s| >= 2 {
      assert (s + rest)[1..] == s[1..] + rest && (s + rest)[2..] == s[2..] + rest;
      DigitsStop(s[1..], rest);
      DigitsStop(s[2..], rest);
    } else if |s| == 1 {
      assert (s + rest)[1..] == rest;
      DigitsStop("", rest);
      assert "" + rest == rest;
    }
  }

  lemma IntStops(s: string, rest: string)
    requires Delimited(rest)
    ensures IntLength(s + rest) == IntLength(s)
  {
    DigitsStop(s, rest);
    assert s != "" ==> (s + rest)[0] == s[0];
    assert s == "" ==> s + rest == rest;
  }

  lemma NumberStops(s: string, rest: string)
    requires Delimited(rest) && s != ""
    ensures NumberLength(s + rest) == NumberLength(s)
  {
    hide DigitsLength, IntLength, FractionLength, ExponentLength, Delimited;
    var sign := if s[0] == '-' then 1 else 0;
    assert (s + rest)[0] == s[0];
    assert (s + rest)[sign..] == s[sign..] + rest;
    IntStops(s[sign..], rest);
    var whole := IntLength(s[sign..]);
    var tail := s[sign + whole..];
    assert (s + rest)[sign + whole..] == tail + rest;
    FractionStops(tail, rest);
    var fraction := FractionLength(tail);
    assert (s + rest)[sign + whole + fraction..] == s[sign + whole + fraction..] + rest;
    ExponentStops(s[sign + whole + fraction..], rest);
  }

  lemma NumberStart(s: string)
    requires NumberLength(s) > 0
    ensures s != "" && (IsDigit(s[0]) || (s[0] == '-' && |s| > 1 && IsDigit(s[1])))
  {
  }

  lemma ParseKeyword(v: Json, rest: string)
    requires v.Null? || v.Bool? || (v.Number? && v.literal in CONSTANTS)
    ensures ParseScalar(Print(v) + rest) == Some((v, |Print(v)|))
  {
  }

  lemma ParseNumber(literal: string, rest: string)
    requires literal !in CONSTANTS && ValidNumber(literal) && Delimited(rest)
    ensures IsDigit(literal[0]) || literal[0] == '-'
    ensures ParseScalar(literal + rest) == Some((Number(literal), |literal|))
  {
    NumberStops(literal, rest);
    NumberStart(literal);
    hide NumberLength;
    var s := literal + rest;
    assert s[..|literal|] == literal && s[0] == literal[0];
    if literal[0] == '-' { assert s[1] == literal[1]; }
  }

  lemma ParsePrintedScalar(v: Json, rest: string)
    requires v.Null? || v.Bool? || v.Number?
    requires Printable(v) && Delimited(rest)
    ensures Print(v) != "" && Print(v)[0] !in {'"', '[', '{', ' ', '\t', '\n', '\r', ']', '}'}
    ensures ParseScalar(Print(v) + rest) == Some((v, |Print(v)|))
  {
    hide NumberLength, ParseScalar;
    if v.Number? && v.literal !in CONSTANTS {
      ParseNumber(v.literal, rest);
    } else {
      ParseKeyword(v, rest);
    }
  }

  /** Printing starts with a character that is neither space nor a closing bracket. */
  lemma PrintStarts(v: Json)
    requires Printable(v)
    ensures Print(v) != "" && Print(v)[0] !in {' ', '\t', '\n', '\r', ']', '}'}
  {
    hide ParseScalar, NumberLength;
    if v.Null? || v.Bool? || v.Number? { ParsePrintedScalar(v, ""); }
  }

  function Pairs(fields: Object, keys: seq<string>): (r: seq<(string, Json)>)
    requires forall k :: k in keys ==> k in fields
    ensures |r| == |keys| && forall i :: 0 <= i < |keys| ==> r[i] == (keys[i], fields[keys[i]])
  {
    seq(|keys|, i requires 0 <= i < |keys| => (keys[i], fields[keys[i]]))
  }

  lemma {:induction false} FromPairsOf(fields: Object, keys: seq<string>)
    requires forall k :: k in keys ==> k in fields
    ensures FromPairs(Pairs(fields, keys)) == map k | k in keys :: fields[k]
  {
    if keys != [] {
      var front := keys[..|keys| - 1];
      FromPairsOf(fields, front);
      assert Pairs(fields, keys)[..|keys| - 1] == Pairs(fields, front);
      assert keys == front + [keys[|keys| - 1]];
    }
  }

  lemma ParseBracketed(items: seq<Json>, rest: string)
    requires var s := PrintItems(items) + "]" + rest;
             items != [] ==> ParseItems(s) == Some((items, rest)) && SkipSpace(s) == s && s[0] != ']'
    ensures ParseValue(Print(Arr(items)) + rest) == Some((Arr(items), rest))
  {
    hide ParseItems;
    assert (Print(Arr(items)) + rest)[1..] == PrintItems(items) + "]" + rest;
    if items == [] { assert PrintItems(items) + "]" + rest == "]" + rest; }
  }

  lemma PrintBraced(v: Json)
    requires v.Obj?
    ensures var keys := SortedKeys(v.fields.Keys);
            Print(v) == "{" + PrintMembers(v, keys) + "}" && (keys == [] ==> PrintMembers(v, keys) == "")
  {
  }

  lemma SpaceSkipped(s: string)
    requires s != "" && s[0] == '}'
    ensures SkipSpace(s) == s
  {
  }

  lemma ParseOpenBrace(body: string, fields: Object, rest: string)
    requires SkipSpace(body) == body != ""
    requires if body[0] == '}' then fields == map[] && body[1..] == rest
             else ParseMembers(body).Some? &&
                  FromPairs(ParseMembers(body).value.0) == fields && ParseMembers(body).value.1 == rest
    ensures ParseValue("{" + body) == Some((Obj(fields), rest))
  {
  }

  lemma ParseBraced(v: Json, keys: seq<string>, rest: string)
    requires v.Obj? && keys == SortedKeys(v.fields.Keys)
    requires var s := PrintMembers(v, keys) + "}" + rest;
             keys != [] ==> ParseMembers(s) == Some((Pairs(v.fields, keys), rest)) && SkipSpace(s) == s && s[0] != '}'
    ensures ParseValue(Print(v) + rest) == Some((v, rest))
  {
    hide *;
    PrintBraced(v);
    FromPairsOf(v.fields, keys);
    assert v.fields == map k | k in keys :: v.fields[k];
    var body := PrintMembers(v, keys) + "}" + rest;
    assert Print(v) + rest == "{" + body;
    if keys == [] {
      assert body == "}" + rest && body[1..] == rest;
      SpaceSkipped(body);
    }
    ParseOpenBrace(body, v.fields, rest);
  }

  lemma NoSpace(s: string)
    requires s == "" || s[0] !in {' ', '\t', '\n', '\r'}
    ensures SkipSpace(s) == s
  {
  }

  lemma QuotedHead(key: string, value: string, tail: string)
    ensures var s := Quote(key) + ":" + value + tail;
            s != "" && s[0] == '"' && s[1..] == Escape(key) + "\"" + (":" + (value + tail))
  {
  }

  /** Reading one printed member leaves what follows it. */
  lemma ParseOneMember(key: string, value: Json, tail: string)
    requires ParseValue(Print(value) + tail) == Some((value, tail))
    requires Printable(value) && tail != "" && tail[0] in {'}', ','}
    ensures var next := ParseMembers(SkipSpace(tail[1..]));
            ParseMembers(Quote(key) + ":" + Print(value) + tail) ==
            if tail[0] == '}' then Some(([(key, value)], tail[1..]))
            else if next.None? then None
            else Some(([(key, value)] + next.value.0, next.value.1))
  {
    var afterKey := ":" + (Print(value) + tail);
    var s := Quote(key) + ":" + Print(value) + tail;
    PrintStarts(value);
    NoSpace(Print(value) + tail);
    NoSpace(afterKey);
    NoSpace(tail);
    QuotedHead(key, Print(value), tail);
    ParseQuoted(key, afterKey);
    hide ParseValue, ParseString, Print, Escape, Printable, SkipSpace, Quote;
    assert afterKey[1..] == Print(value) + tail;
  }

  lemma {:induction false} ParsePrintedMembers(v: Json, keys: seq<string>, rest: string)
    requires v.Obj? && Printable(v) && keys != [] && forall k :: k in keys ==> k in v.fields
    ensures var s := PrintMembers(v, keys) + "}" + rest;
            && ParseMembers(s) == Some((Pairs(v.fields, keys), rest))
            && SkipSpace(s) == s && s[0] != '}'
    decreases v, 1, |keys|
  {
    hide ParseValue, ParseString, ParseMembers, Print, Escape;
    var s := PrintMembers(v, keys) + "}" + rest;
    var value := v.fields[keys[0]];
    var head := Quote(keys[0]) + ":" + Print(value);
    if |keys| == 1 {
      assert s == head + ("}" + rest);
      ParsePrinted(value, "}" + rest);
      ParseOneMember(keys[0], value, "}" + rest);
      assert ("}" + rest)[1..] == rest;
      assert Pairs(v.fields, keys) == [(keys[0], value)];
    } else {
      var tail := PrintMembers(v, keys[1..]) + "}" + rest;
      assert s == head + ("," + tail);
      ParsePrinted(value, "," + tail);
      ParsePrintedMembers(v, keys[1..], rest);
      ParseOneMember(keys[0], value, "," + tail);
      assert ("," + tail)[1..] == tail;
      assert Pairs(v.fields, keys) == [(keys[0], value)] + Pairs(v.fields, keys[1..]);
    }
  }

  lemma ParsePrintedString(text: string, rest: string)
    ensures ParseValue(Print(Str(text)) + rest) == Some((Str(text), rest))
  {
    hide ParseString, Escape;
    ParseQuoted(text, rest);
    assert (Print(Str(text)) + rest)[1..] == Escape(text) + "\"" + rest;
  }

  lemma ParsePrintedOther(v: Json, rest: string)
    requires Printable(v) && Delimited(rest) && (v.Null? || v.Bool? || v.Number?)
    ensures ParseValue(Print(v) + rest) == Some((v, rest))
  {
    hide ParseScalar;
    ParsePrintedScalar(v, rest);
    assert (Print(v) + rest)[|Print(v)|..] == rest;
  }

  lemma {:induction false} ParsePrinted(v: Json, rest: string)
    requires Printable(v) && (Delimited(rest) || v.Str? || v.Arr? || v.Obj?)
    ensures ParseValue(Print(v) + rest) == Some((v, rest))
    decreases v, 2, 0
  {
    hide ParseValue, Print;
    match v
    case Str(text) => ParsePrintedString(text, rest);
    case Arr(items) =>
      if items != [] { ParsePrintedItems(items, rest); }
      ParseBracketed(items, rest);
    case Obj(fields) =>
      var keys := SortedKeys(fields.Keys);
      if keys != [] { ParsePrintedMembers(v, keys, rest); }
      ParseBraced(v, keys, rest);
    case _ => ParsePrintedOther(v, rest);
  }

  lemma {:induction false} ParsePrintedItems(items: seq<Json>, rest: string)
    requires items != [] && forall i :: 0 <= i < |items| ==> Printable(items[i])
    ensures var s := PrintItems(items) + "]" + rest;
            && ParseItems(s) == Some((items, rest))
            && SkipSpace(s) == s && s[0] != ']'
    decreases items, 1, 0
  {
    hide ParseValue, Print, ValidNumber;
    var s := PrintItems(items) + "]" + rest;
    PrintStarts(items[0]);
    assert s[0] == Print(items[0])[0];
    if |items| == 1 {
      ParsePrinted(items[0], "]" + rest);
      assert s == Print(items[0]) + ("]" + rest);
      assert ("]" + rest)[1..] == rest && items == [items[0]];
    } else {
      var tail := PrintItems(items[1..]) + "]" + rest;
      assert s == Print(items[0]) + ("," + tail);
      ParsePrinted(items[0], "," + tail);
      ParsePrintedItems(items[1..], rest);
      assert ("," + tail)[1..] == tail;
      assert [items[0]] + items[1..] == items;
    }
  }

  /** Loading the canonical text of any JSON value gives the value back. */
  lemma LoadsOfPrint(v: Json)
    requires Printable(v)
    ensures Loads(Print(v)) == Some(v)
  {
    PrintStarts(v);
    ParsePrinted(v, "");
    assert Print(v) + "" == Print(v);
  }

  /** Canonical texts of different values differ. */
  lemma PrintInjective(v: Json, w: Json)
    requires Printable(v) && Printable(w)
    ensures Print(v) == Print(w) <==> v == w
  {
    LoadsOfPrint(v);
    LoadsOfPrint(w);
  }
}
