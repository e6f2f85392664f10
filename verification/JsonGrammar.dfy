/** Which texts `json.loads` reads, and as what: a grammar of JSON texts (RFC 8259, with
    Python's number constants) given by the trees that derive them. */
module JsonGrammar {
  import opened Basics
  import opened Decimal
  import opened Json
  import opened JsonText
  import Hex

  // ---- Numbers ----

  predicate Whole(s: string) { s == "0" || (s != "" && s[0] != '0' && AllDigits(s)) }

  predicate Fraction(s: string) { s == "" || (|s| > 1 && s[0] == '.' && AllDigits(s[1..])) }

  predicate Exponent(s: string) {
    || s == ""
    || (|s| > 1 && s[0] in {'e', 'E'} && AllDigits(s[1..]))
    || (|s| > 2 && s[0] in {'e', 'E'} && s[1] in {'+', '-'} && AllDigits(s[2..]))
  }

  predicate NumberParts(sign: string, whole: string, fraction: string, exponent: string) {
    sign in {"", "-"} && Whole(whole) && Fraction(fraction) && Exponent(exponent)
  }

  ghost predicate Numeral(s: string) {
    exists sign, whole, fraction, exponent ::
      NumberParts(sign, whole, fraction, exponent) && s == sign + (whole + (fraction + exponent))
  }

  lemma {:induction false} DigitsOnly(s: string, rest: string)
    requires AllDigits(s) && (rest == "" || !IsDigit(rest[0]))
    ensures DigitsLength(s + rest) == |s|
  {
    if s == "" {
      assert s + rest == rest;
    } else {
      assert (s + rest)[1..] == s[1..] + rest;
      DigitsOnly(s[1..], rest);
    }
  }

  lemma {:induction false} DigitsFound(s: string)
    ensures AllDigits(s[..DigitsLength(s)])
  {
    if s != "" && IsDigit(s[0]) {
      DigitsFound(s[1..]);
      assert s[..DigitsLength(s)] == [s[0]] + s[1..][..DigitsLength(s[1..])];
    }
  }

  lemma WholeFound(s: string)
    ensures IntLength(s) > 0 ==> Whole(s[..IntLength(s)])
  {
    DigitsFound(s);
  }

  lemma WholeOnly(s: string, rest: string)
    requires Whole(s) && (rest == "" || !IsDigit(rest[0]))
    ensures IntLength(s + rest) == |s|
  {
    if s != "0" { DigitsOnly(s, rest); }
  }

  lemma FractionFound(s: string)
    ensures Fraction(s[..FractionLength(s)])
  {
    if FractionLength(s) > 0 {
      DigitsFound(s[1..]);
      assert s[..FractionLength(s)][1..] == s[1..][..DigitsLength(s[1..])];
    }
  }

  lemma FractionOnly(s: string, rest: string)
    requires Fraction(s) && (rest == "" || rest[0] in {'e', 'E'})
    ensures FractionLength(s + rest) == |s|
  {
    if s != "" {
      assert (s + rest)[1..] == s[1..] + rest;
      DigitsOnly(s[1..], rest);
    } else {
      assert s + rest == rest;
    }
  }

  lemma ExponentFound(s: string)
    ensures Exponent(s[..ExponentLength(s)])
  {
    if ExponentLength(s) > 0 {
      var n, sign := ExponentLength(s), if s[1] in {'+', '-'} then 1 else 0;
      DigitsFound(s[1 + sign..]);
      assert s[..n][1 + sign..] == s[1 + sign..][..n - 1 - sign];
    }
  }

  lemma ExponentOnly(s: string)
    requires Exponent(s)
    ensures ExponentLength(s) == |s|
  {
    if s != "" {
      var sign := if s[1] in {'+', '-'} then 1 else 0;
      DigitsOnly(s[1 + sign..], "");
      assert s[1 + sign..] + "" == s[1 + sign..];
    }
  }

  lemma FourParts(a: string, b: string, c: string, d: string)
    ensures var s := a + (b + (c + d));
            && |s| == |a| + |b| + |c| + |d|
            && s[|a|..] == b + (c + d) && s[|a| + |b|..] == c + d && s[|a| + |b| + |c|..] == d
  {
  }

  lemma PartsOf(s: string, i: nat, j: nat, k: nat, n: nat)
    requires i <= j <= k <= n <= |s|
    ensures s[..n] == s[..i] + (s[i..][..j - i] + (s[j..][..k - j] + s[k..][..n - k]))
  {
    OnePart(s, i, n);
    OnePart(s[i..], j - i, n - i);
    OnePart(s[j..], k - j, n - j);
    assert s[i..][j - i..] == s[j..] && s[j..][k - j..] == s[k..];
  }

  lemma OnePart(s: string, i: nat, n: nat)
    requires i <= n <= |s|
    ensures s[..n] == s[..i] + s[i..][..n - i]
  {
  }

  /** The number found at the start of a text is spelled like one. */
  lemma NumberFound(s: string)
    requires NumberLength(s) > 0
    ensures Numeral(s[..NumberLength(s)])
  {
    hide IntLength, FractionLength, ExponentLength, Whole, Fraction, Exponent;
    var sign := if s != "" && s[0] == '-' then 1 else 0;
    var whole := sign + IntLength(s[sign..]);
    var fraction := whole + FractionLength(s[whole..]);
    var n := NumberLength(s);
    assert n == fraction + ExponentLength(s[fraction..]);
    WholeFound(s[sign..]);
    FractionFound(s[whole..]);
    ExponentFound(s[fraction..]);
    assert s[..sign] in {"", "-"} by { assert sign == 1 ==> s[..1] == "-"; }
    assert NumberParts(s[..sign], s[sign..][..whole - sign], s[whole..][..fraction - whole],
                       s[fraction..][..n - fraction]);
    hide NumberLength, NumberParts;
    PartsOf(s, sign, whole, fraction, n);
  }

  lemma SumOfParts(s: string, sign: nat, whole: nat, fraction: nat)
    requires sign == (if s != "" && s[0] == '-' then 1 else 0)
    requires sign + whole + fraction <= |s| && whole > 0
    requires IntLength(s[sign..]) == whole && FractionLength(s[sign + whole..]) == fraction
    ensures NumberLength(s) == sign + whole + fraction + ExponentLength(s[sign + whole + fraction..])
  {
    hide IntLength, FractionLength, ExponentLength;
  }

  /** What part of a number may begin with. */
  lemma PartStarts(whole: string, fraction: string, exponent: string)
    requires NumberParts("", whole, fraction, exponent)
    ensures whole != "" && whole[0] != '-'
    ensures exponent == "" || exponent[0] in {'e', 'E'}
    ensures var tail := fraction + exponent; tail == "" || !IsDigit(tail[0])
  {
  }

  lemma NumberSum(sign: string, whole: string, fraction: string, exponent: string)
    requires sign in {"", "-"} && whole != "" && whole[0] != '-'
    requires IntLength(whole + (fraction + exponent)) == |whole|
    requires FractionLength(fraction + exponent) == |fraction| && ExponentLength(exponent) == |exponent|
    ensures var s := sign + (whole + (fraction + exponent)); s != "" && NumberLength(s) == |s|
  {
    hide *;
    var s := sign + (whole + (fraction + exponent));
    FourParts(sign, whole, fraction, exponent);
    assert s[0] == if sign == "" then whole[0] else '-';
    SumOfParts(s, |sign|, |whole|, |fraction|);
  }

  lemma NumberOnly(sign: string, whole: string, fraction: string, exponent: string)
    requires NumberParts(sign, whole, fraction, exponent)
    ensures var s := sign + (whole + (fraction + exponent)); s != "" && NumberLength(s) == |s|
  {
    PartStarts(whole, fraction, exponent);
    hide Whole, Fraction, Exponent, IntLength, FractionLength, ExponentLength, NumberLength;
    WholeOnly(whole, fraction + exponent);
    FractionOnly(fraction, exponent);
    ExponentOnly(exponent);
    NumberSum(sign, whole, fraction, exponent);
  }

  /** The literals numbers are printed and read in: an optional minus sign, digits
      without a leading zero, then maybe a fraction and an exponent. */
  lemma NumberMeaning(literal: string)
    ensures ValidNumber(literal) <==> literal in {"NaN", "Infinity", "-Infinity"} || Numeral(literal)
  {
    if literal != "" && NumberLength(literal) == |literal| {
      NumberFound(literal);
      assert literal[..|literal|] == literal;
    }
    hide NumberLength, NumberParts;
    forall sign, whole, fraction, exponent | NumberParts(sign, whole, fraction, exponent)
      ensures var s := sign + (whole + (fraction + exponent)); s != "" && NumberLength(s) == |s|
    {
      NumberOnly(sign, whole, fraction, exponent);
    }
  }

  // ---- Strings ----

  /** One character of a string: as itself, after a backslash, by its code, or by the
      codes of its two surrogates. */
  datatype Piece =
    | Plain(c: char)
    | Short(letter: char, c: char)
    | Code(digits: string, c: char)
    | Surrogates(high: string, low: string, c: char)

  predicate PieceOk(p: Piece) {
    match p
    case Plain(c) => c as int >= 32 && c !in {'"', '\\'}
    case Short(letter, c) =>
      (letter, c) in {('"', '"'), ('\\', '\\'), ('/', '/'), ('b', 8 as char), ('f', 12 as char), ('n', '\n'),
                      ('r', '\r'), ('t', '\t')}
    case Code(digits, c) => |digits| == 4 && CodeUnit(digits) == Some(c as int)
    case Surrogates(high, low, c) =>
      && |high| == |low| == 4 && CodeUnit(high).Some? && CodeUnit(low).Some?
      && 0xD800 <= CodeUnit(high).value < 0xDC00 && 0xDC00 <= CodeUnit(low).value < 0xE000
      && c as int == 0x10000 + (CodeUnit(high).value - 0xD800) * 0x400 + (CodeUnit(low).value - 0xDC00)
  }

  function PieceText(p: Piece): string {
    match p
    case Plain(c) => [c]
    case Short(letter, _) => ['\\', letter]
    case Code(digits, _) => "\\u" + digits
    case Surrogates(high, low, _) => "\\u" + (high + ("\\u" + low))
  }

  function PiecesText(pieces: seq<Piece>): string {
    if pieces == [] then "" else PieceText(pieces[0]) + PiecesText(pieces[1..])
  }

  function Chars(pieces: seq<Piece>): (s: string)
    ensures |s| == |pieces| && forall i :: 0 <= i < |s| ==> s[i] == pieces[i].c
  {
    seq(|pieces|, i requires 0 <= i < |pieces| => pieces[i].c)
  }

  predicate PiecesOk(pieces: seq<Piece>) { forall i :: 0 <= i < |pieces| ==> PieceOk(pieces[i]) }

  lemma UnitPrefix(digits: string, rest: string)
    requires |digits| == 4
    ensures CodeUnit(digits + rest) == CodeUnit(digits)
  {
    hide Hex.HexValue;
    var s := digits + rest;
    assert s[0] == digits[0] && s[1] == digits[1] && s[2] == digits[2] && s[3] == digits[3];
  }

  /** How long an escape is tells its kind. */
  lemma EscapeKinds(s: string)
    requires ParseEscape(s).Some?
    ensures var (c, n) := ParseEscape(s).value;
            && n in {1, 5, 11} && n <= |s|
            && (n == 1 ==> PieceOk(Short(s[0], c)))
            && (n > 1 ==> s[0] == 'u' && CodeUnit(s[1..]).Some?)
            && (n == 5 ==> CodeUnit(s[1..]) == Some(c as int))
            && (n == 11 ==>
                  && s[5] == '\\' && s[6] == 'u' && CodeUnit(s[7..]).Some?
                  && 0xD800 <= CodeUnit(s[1..]).value < 0xDC00 && 0xDC00 <= CodeUnit(s[7..]).value < 0xE000
                  && c as int ==
                     0x10000 + (CodeUnit(s[1..]).value - 0xD800) * 0x400 + (CodeUnit(s[7..]).value - 0xDC00))
  {
    hide CodeUnit;
  }

  /** The four digits that spell a code unit. */
  lemma UnitDigits(s: string, at: nat)
    requires at <= |s| && CodeUnit(s[at..]).Some?
    ensures at + 4 <= |s| && CodeUnit(s[at..at + 4]) == CodeUnit(s[at..])
  {
    assert at + 4 <= |s|;
    UnitPrefix(s[at..at + 4], s[at + 4..]);
    assert s[at..] == s[at..at + 4] + s[at + 4..];
  }

  /** The pieces an escape can be, in the text of the escape. */
  lemma EscapeTexts(s: string)
    ensures |s| >= 1 ==> ['\\', s[0]] == "\\" + s[..1]
    ensures |s| >= 5 && s[0] == 'u' ==> "\\u" + s[1..5] == "\\" + s[..5]
    ensures |s| >= 11 && s[0] == s[6] == 'u' && s[5] == '\\' ==>
              "\\u" + (s[1..5] + ("\\u" + s[7..11])) == "\\" + s[..11]
  {
  }

  lemma EscapeFound(s: string) returns (p: Piece)
    requires ParseEscape(s).Some?
    ensures PieceOk(p) && !p.Plain? && p.c == ParseEscape(s).value.0
    ensures PieceText(p) == "\\" + s[..ParseEscape(s).value.1]
  {
    hide CodeUnit, ParseEscape, PieceOk;
    EscapeKinds(s);
    EscapeTexts(s);
    var (c, n) := ParseEscape(s).value;
    if n == 1 {
      p := Short(s[0], c);
    } else if n == 5 {
      UnitDigits(s, 1);
      p := Code(s[1..5], c);
      CodeOk(s[1..5], c);
    } else {
      UnitDigits(s, 1);
      UnitDigits(s, 7);
      p := Surrogates(s[1..5], s[7..11], c);
      SurrogatesOk(s[1..5], CodeUnit(s[1..]).value, s[7..11], CodeUnit(s[7..]).value, c);
    }
  }

  lemma CodeOk(digits: string, c: char)
    requires |digits| == 4 && CodeUnit(digits) == Some(c as int)
    ensures PieceOk(Code(digits, c))
  {
  }

  lemma SurrogatesOk(high: string, h: nat, low: string, l: nat, c: char)
    requires |high| == |low| == 4 && CodeUnit(high) == Some(h) && CodeUnit(low) == Some(l)
    requires 0xD800 <= h < 0xDC00 && 0xDC00 <= l < 0xE000 && c as int == 0x10000 + (h - 0xD800) * 0x400 + (l - 0xDC00)
    ensures PieceOk(Surrogates(high, low, c))
  {
    hide CodeUnit;
  }

  lemma CodeOnly(digits: string, c: char, rest: string)
    requires PieceOk(Code(digits, c))
    ensures ParseEscape("u" + (digits + rest)) == Some((c, 5))
  {
    hide CodeUnit;
    UnitPrefix(digits, rest);
    assert ("u" + (digits + rest))[1..] == digits + rest;
  }

  lemma SurrogatesOnly(high: string, low: string, c: char, rest: string)
    requires PieceOk(Surrogates(high, low, c))
    ensures ParseEscape("u" + (high + ("\\u" + (low + rest)))) == Some((c, 11))
  {
    hide CodeUnit;
    var tail := "\\u" + (low + rest);
    var s := "u" + (high + tail);
    assert s[1..] == high + tail && s[5] == tail[0] && s[6] == tail[1] && s[7..] == low + rest;
    UnitPrefix(high, tail);
    UnitPrefix(low, rest);
  }

  lemma ShortOnly(letter: char, c: char, rest: string)
    requires PieceOk(Short(letter, c))
    ensures ParseEscape([letter] + rest) == Some((c, 1))
  {
    hide CodeUnit;
  }

  lemma CodeTail(digits: string, rest: string)
    ensures ("\\u" + digits + rest)[1..] == "u" + (digits + rest)
  {
  }

  lemma SurrogatesTail(high: string, low: string, rest: string)
    ensures ("\\u" + (high + ("\\u" + low)) + rest)[1..] == "u" + (high + ("\\u" + (low + rest)))
  {
    assert high + ("\\u" + low) + rest == high + ("\\u" + (low + rest));
  }

  lemma EscapeOnly(p: Piece, rest: string)
    requires PieceOk(p) && !p.Plain?
    ensures ParseEscape((PieceText(p) + rest)[1..]) == Some((p.c, |PieceText(p)| - 1))
  {
    hide CodeUnit, ParseEscape;
    match p
    case Short(letter, c) =>
      ShortOnly(letter, c, rest);
      assert (['\\', letter] + rest)[1..] == [letter] + rest;
    case Code(digits, c) =>
      CodeOnly(digits, c, rest);
      CodeTail(digits, rest);
    case Surrogates(high, low, c) =>
      SurrogatesOnly(high, low, c, rest);
      SurrogatesTail(high, low, rest);
  }

  lemma PlainStep(c: char, tail: string)
    requires PieceOk(Plain(c))
    ensures ParseString([c] + tail) ==
            match ParseString(tail) case None => None case Some((text, rest)) => Some(([c] + text, rest))
  {
    hide ParseEscape;
    assert ([c] + tail)[1..] == tail;
  }

  lemma EscapeStep(e: string)
    requires ParseEscape(e).Some?
    ensures ParseString("\\" + e) ==
            match ParseString(e[ParseEscape(e).value.1..])
            case None => None
            case Some((text, rest)) => Some(([ParseEscape(e).value.0] + text, rest))
  {
    hide ParseEscape;
    var s, n := "\\" + e, ParseEscape(e).value.1;
    assert s[1..] == e && s[1 + n..] == e[n..];
  }

  /** One piece of a string is read as its character. */
  lemma PieceStep(p: Piece, tail: string)
    requires PieceOk(p)
    ensures ParseString(PieceText(p) + tail) ==
            match ParseString(tail) case None => None case Some((text, rest)) => Some(([p.c] + text, rest))
  {
    if p.Plain? {
      PlainStep(p.c, tail);
    } else {
      EscapeOnly(p, tail);
      var e := (PieceText(p) + tail)[1..];
      assert PieceText(p) + tail == "\\" + e && e[|PieceText(p)| - 1..] == tail;
      hide PieceText, PieceOk, ParseString, ParseEscape;
      EscapeStep(e);
    }
  }

  /** A string that goes on does so with a piece. */
  lemma PieceFound(s: string) returns (p: Piece)
    requires ParseString(s).Some? && s[0] != '"'
    ensures PieceOk(p) && |PieceText(p)| <= |s| && s == PieceText(p) + s[|PieceText(p)|..]
  {
    hide ParseEscape;
    if s[0] == '\\' {
      p := EscapeFound(s[1..]);
      hide PieceText, PieceOk, ParseString;
      assert s == ("\\" + s[1..][..ParseEscape(s[1..]).value.1]) + s[1 + ParseEscape(s[1..]).value.1..];
    } else {
      p := Plain(s[0]);
    }
  }

  lemma PiecesCons(p: Piece, pieces: seq<Piece>)
    ensures PiecesText([p] + pieces) == PieceText(p) + PiecesText(pieces)
    ensures Chars([p] + pieces) == [p.c] + Chars(pieces)
    ensures PiecesText([]) == "" && Chars([]) == ""
  {
    hide PieceText;
    assert ([p] + pieces)[1..] == pieces;
  }

  lemma ClosingQuote(s: string)
    requires ParseString(s).Some?
    ensures s != "" && (s[0] == '"' ==> s == "\"" + s[1..] && ParseString(s) == Some(("", s[1..])))
  {
  }

  lemma PieceLength(p: Piece)
    ensures |PieceText(p)| > 0
  {
  }

  /** A string that is read is spelled by pieces up to its closing quote. */
  lemma {:induction false} StringFound(s: string) returns (pieces: seq<Piece>)
    requires ParseString(s).Some?
    ensures PiecesOk(pieces) && Chars(pieces) == ParseString(s).value.0
    ensures s == PiecesText(pieces) + ("\"" + ParseString(s).value.1)
    decreases |s|
  {
    hide ParseString, PieceText, PieceOk, PiecesText, Chars;
    ClosingQuote(s);
    if s[0] == '"' {
      pieces := [];
      PiecesCons(Plain('a'), []);
    } else {
      var p := PieceFound(s);
      var tail := s[|PieceText(p)|..];
      PieceStep(p, tail);
      PieceLength(p);
      var more := StringFound(tail);
      pieces := [p] + more;
      PiecesCons(p, more);
    }
  }

  lemma {:induction false} StringMore(p: Piece, more: seq<Piece>, rest: string)
    requires PieceOk(p) && ParseString(PiecesText(more) + ("\"" + rest)) == Some((Chars(more), rest))
    ensures ParseString(PiecesText([p] + more) + ("\"" + rest)) == Some((Chars([p] + more), rest))
  {
    hide *;
    PiecesCons(p, more);
    PieceStep(p, PiecesText(more) + ("\"" + rest));
    assert PiecesText([p] + more) + ("\"" + rest) == PieceText(p) + (PiecesText(more) + ("\"" + rest));
  }

  /** And every such spelling is read. */
  lemma {:induction false} StringOnly(pieces: seq<Piece>, rest: string)
    requires PiecesOk(pieces)
    ensures ParseString(PiecesText(pieces) + ("\"" + rest)) == Some((Chars(pieces), rest))
  {
    hide PieceText, PieceOk;
    if pieces == [] {
      assert PiecesText(pieces) + ("\"" + rest) == "\"" + rest;
      assert ("\"" + rest)[1..] == rest;
    } else {
      StringOnly(pieces[1..], rest);
      StringMore(pieces[0], pieces[1..], rest);
      assert pieces == [pieces[0]] + pieces[1..];
    }
  }

  // ---- Values ----

  datatype Item = Item(before: string, node: Node, after: string)

  datatype Member = Member(before: string, key: seq<Piece>, colon: string, item: Item)

  /** A derivation of a JSON text, with the white space it leaves between tokens. */
  datatype Node =
    | Word(word: string)
    | Numeric(literal: string)
    | Text(pieces: seq<Piece>)
    | List(gap: string, items: seq<Item>)
    | Dict(gap: string, members: seq<Member>)

  predicate Blank(s: string) { forall i :: 0 <= i < |s| ==> s[i] in {' ', '\t', '\n', '\r'} }

  function WrittenItem(item: Item): string
    decreases item, 2
  {
    item.before + (Written(item.node) + item.after)
  }

  function WrittenItems(items: seq<Item>): string
    decreases items, 0
  {
    if items == [] then ""
    else if |items| == 1 then WrittenItem(items[0])
    else WrittenItem(items[0]) + ("," + WrittenItems(items[1..]))
  }

  function WrittenMember(member: Member): string
    decreases member, 3
  {
    member.before + ("\"" + (PiecesText(member.key) + ("\"" + (member.colon + (":" + WrittenItem(member.item))))))
  }

  function WrittenMembers(members: seq<Member>): string
    decreases members, 0
  {
    if members == [] then ""
    else if |members| == 1 then WrittenMember(members[0])
    else WrittenMember(members[0]) + ("," + WrittenMembers(members[1..]))
  }

  /** The text of a derivation. */
  function Written(node: Node): string
    decreases node, 1
  {
    match node
    case Word(word) => word
    case Numeric(literal) => literal
    case Text(pieces) => "\"" + (PiecesText(pieces) + "\"")
    case List(gap, items) => "[" + ((if items == [] then gap else WrittenItems(items)) + "]")
    case Dict(gap, members) => "{" + ((if members == [] then gap else WrittenMembers(members)) + "}")
  }

  function Values(items: seq<Item>): seq<Json>
    decreases items, 0
  {
    if items == [] then [] else [Value(items[0].node)] + Values(items[1..])
  }

  function PairsOf(members: seq<Member>): seq<(string, Json)>
    decreases members, 0
  {
    if members == [] then [] else [(Chars(members[0].key), Value(members[0].item.node))] + PairsOf(members[1..])
  }

  /** The value of a derivation. */
  function Value(node: Node): Json
    decreases node, 1
  {
    match node
    case Word(word) =>
      if word == "null" then Null
      else if word in {"true", "false"} then Bool(word == "true")
      else Number(word)
    case Numeric(literal) => Number(literal)
    case Text(pieces) => Str(Chars(pieces))
    case List(_, items) => Arr(Values(items))
    case Dict(_, members) => Obj(FromPairs(PairsOf(members)))
  }

  ghost predicate ProperItem(item: Item)
    decreases item, 2
  {
    Blank(item.before) && Proper(item.node) && Blank(item.after)
  }

  ghost predicate ProperMember(member: Member)
    decreases member, 3
  {
    Blank(member.before) && PiecesOk(member.key) && Blank(member.colon) && ProperItem(member.item)
  }

  /** A derivation by the rules of the grammar. */
  ghost predicate Proper(node: Node)
    decreases node, 1
  {
    match node
    case Word(word) => word in {"null", "true", "false", "NaN", "Infinity", "-Infinity"}
    case Numeric(literal) => Numeral(literal)
    case Text(pieces) => PiecesOk(pieces)
    case List(gap, items) => Blank(gap) && forall i :: 0 <= i < |items| ==> ProperItem(items[i])
    case Dict(gap, members) => Blank(gap) && forall i :: 0 <= i < |members| ==> ProperMember(members[i])
  }

  lemma {:induction false} SpaceFound(s: string) returns (gap: string)
    ensures Blank(gap) && s == gap + SkipSpace(s)
  {
    if s != "" && s[0] in {' ', '\t', '\n', '\r'} {
      var more := SpaceFound(s[1..]);
      gap := [s[0]] + more;
      hide SkipSpace;
      assert s == [s[0]] + (more + SkipSpace(s[1..]));
    } else {
      gap := "";
    }
  }

  lemma {:induction false} SpaceOnly(gap: string, s: string)
    requires Blank(gap)
    ensures SkipSpace(gap + s) == SkipSpace(s)
  {
    if gap == "" {
      assert gap + s == s;
    } else {
      assert (gap + s)[1..] == gap[1..] + s;
      SpaceOnly(gap[1..], s);
    }
  }

  // ---- What is read has a derivation ----

  lemma ScalarFound(s: string) returns (node: Node)
    requires ParseScalar(s).Some?
    ensures Proper(node) && Value(node) == ParseScalar(s).value.0
    ensures Written(node) == s[..ParseScalar(s).value.1]
  {
    hide NumberLength, Numeral;
    var (v, n) := ParseScalar(s).value;
    if s[0] in {'n', 't', 'f', 'N', 'I'} || (|s| > 1 && s[0] == '-' && s[1] == 'I') {
      node := Word(s[..n]);
    } else {
      NumberFound(s);
      node := Numeric(s[..n]);
    }
  }

  lemma ItemsCons(item: Item, items: seq<Item>)
    ensures WrittenItems([item]) == WrittenItem(item) && Values([item]) == [Value(item.node)]
    ensures items != [] ==> WrittenItems([item] + items) == WrittenItem(item) + ("," + WrittenItems(items))
    ensures Values([item] + items) == [Value(item.node)] + Values(items)
  {
    hide Written, Value;
    assert ([item] + items)[1..] == items;
    assert [item][1..] == [] && Values([]) == [];
  }

  lemma MembersCons(member: Member, members: seq<Member>)
    ensures var pair := (Chars(member.key), Value(member.item.node));
            && WrittenMembers([member]) == WrittenMember(member) && PairsOf([member]) == [pair]
            && (members != [] ==> WrittenMembers([member] + members) == WrittenMember(member) + ("," +
                                                                        WrittenMembers(members)))
            && PairsOf([member] + members) == [pair] + PairsOf(members)
  {
    hide WrittenMember, Value, Chars;
    assert ([member] + members)[1..] == members;
    assert [member][1..] == [] && PairsOf([]) == [];
  }

  /** How the items of a list go on. */
  lemma ItemsCases(s: string)
    requires ParseItems(s).Some?
    ensures ParseValue(s).Some? && SkipSpace(ParseValue(s).value.1) != ""
    ensures var (vs, rest) := ParseItems(s).value;
            var (v, after) := ParseValue(s).value;
            var next := SkipSpace(after);
            if next[0] == ']' then vs == [v] && rest == next[1..]
            else
              && next[0] == ',' && ParseItems(SkipSpace(next[1..])).Some?
              && vs == [v] + ParseItems(SkipSpace(next[1..])).value.0
              && rest == ParseItems(SkipSpace(next[1..])).value.1
  {
    hide ParseValue;
  }

  /** How a member begins, up to its colon. */
  lemma MemberHead(s: string)
    requires ParseMembers(s).Some?
    ensures s != "" && s[0] == '"' && s == "\"" + s[1..] && ParseString(s[1..]).Some?
    ensures var colon := SkipSpace(ParseString(s[1..]).value.1);
            && colon != "" && colon[0] == ':' && colon == ":" + colon[1..] && |colon| < |s|
            && ParseValue(SkipSpace(colon[1..])).Some?
  {
    hide ParseString, ParseValue, SkipSpace;
  }

  /** How the members of an object go on. */
  lemma MembersCases(s: string, key: string, colon: string, v: Json, next: string)
    requires ParseMembers(s).Some? && s != "" && ParseString(s[1..]).Some? && colon != ""
    requires key == ParseString(s[1..]).value.0 && colon == SkipSpace(ParseString(s[1..]).value.1)
    requires ParseValue(SkipSpace(colon[1..])).Some? && v == ParseValue(SkipSpace(colon[1..])).value.0
    requires next == SkipSpace(ParseValue(SkipSpace(colon[1..])).value.1)
    ensures var (pairs, rest) := ParseMembers(s).value;
            && next != ""
            && if next[0] == '}' then pairs == [(key, v)] && rest == next[1..]
               else
                 && next[0] == ',' && ParseMembers(SkipSpace(next[1..])).Some?
                 && pairs == [(key, v)] + ParseMembers(SkipSpace(next[1..])).value.0
                 && rest == ParseMembers(SkipSpace(next[1..])).value.1
  {
    hide ParseString, ParseValue, SkipSpace;
  }

  lemma ItemText(item: Item, tail: string, next: string)
    requires tail == item.after + next
    ensures item.before + (Written(item.node) + tail) == WrittenItem(item) + next
  {
    hide Written;
  }

  lemma MemberText(member: Member, s: string, afterKey: string, afterColon: string, next: string)
    requires s == "\"" + (PiecesText(member.key) + ("\"" + afterKey))
    requires afterKey == member.colon + (":" + afterColon)
    requires afterColon == WrittenItem(member.item) + next
    ensures member.before + s == WrittenMember(member) + next
  {
    hide Written, PiecesText, WrittenItem;
  }

  lemma Onward(a: string, b: string, c: string)
    ensures (a + b) + c == a + (b + c)
  {
  }

  lemma NothingInside()
    ensures Values([]) == [] && FromPairs(PairsOf([])) == map[]
  {
  }

  lemma {:induction false} ItemsFound(before: string, s: string) returns (items: seq<Item>)
    requires Blank(before) && ParseItems(s).Some?
    ensures items != [] && (forall i :: 0 <= i < |items| ==> ProperItem(items[i]))
    ensures Values(items) == ParseItems(s).value.0
    ensures before + s == WrittenItems(items) + ("]" + ParseItems(s).value.1)
    decreases |s|, 2
  {
    ItemsCases(s);
    hide ParseItems, ParseValue, Proper, Value, Written, WrittenItem, Values, WrittenItems, Blank, SkipSpace;
    var (v, after) := ParseValue(s).value;
    var node := ValueFound(s);
    var gap := SpaceFound(after);
    var next := SkipSpace(after);
    var item := Item(before, node, gap);
    assert next == [next[0]] + next[1..];
    ItemText(item, after, next);
    if next[0] == ']' {
      items := [item];
      ItemsCons(item, []);
    } else {
      var gap' := SpaceFound(next[1..]);
      var more := ItemsFound(gap', SkipSpace(next[1..]));
      items := [item] + more;
      ItemsCons(item, more);
      Onward(",", WrittenItems(more), "]" + ParseItems(s).value.1);
      Onward(WrittenItem(item), "," + WrittenItems(more), "]" + ParseItems(s).value.1);
    }
  }

  /** A value between white space. */
  lemma {:induction false} ItemFound(s: string) returns (item: Item, next: string)
    requires ParseValue(SkipSpace(s)).Some?
    ensures ProperItem(item) && Value(item.node) == ParseValue(SkipSpace(s)).value.0
    ensures next == SkipSpace(ParseValue(SkipSpace(s)).value.1) && s == WrittenItem(item) + next
    decreases |s|, 2
  {
    hide ParseValue, Proper, Value, Written, WrittenItem, Blank, SkipSpace;
    var before := SpaceFound(s);
    var node := ValueFound(SkipSpace(s));
    var after := ParseValue(SkipSpace(s)).value.1;
    var gap := SpaceFound(after);
    next := SkipSpace(after);
    item := Item(before, node, gap);
    ItemText(item, after, next);
  }

  lemma ProperMade(member: Member)
    requires Blank(member.before) && PiecesOk(member.key) && Blank(member.colon) && ProperItem(member.item)
    ensures ProperMember(member)
  {
  }

  lemma {:induction false} MembersFound(before: string, s: string) returns (members: seq<Member>)
    requires Blank(before) && ParseMembers(s).Some?
    ensures members != [] && (forall i :: 0 <= i < |members| ==> ProperMember(members[i]))
    ensures PairsOf(members) == ParseMembers(s).value.0
    ensures before + s == WrittenMembers(members) + ("}" + ParseMembers(s).value.1)
    decreases |s|, 2
  {
    hide *;
    MemberHead(s);
    var (key, afterKey) := ParseString(s[1..]).value;
    var pieces := StringFound(s[1..]);
    var colon := SpaceFound(afterKey);
    var rest := SkipSpace(afterKey);
    var item, next := ItemFound(rest[1..]);
    MembersCases(s, key, rest, Value(item.node), next);
    var member := Member(before, pieces, colon, item);
    ProperMade(member);
    assert next == [next[0]] + next[1..];
    MemberText(member, s, afterKey, rest[1..], next);
    if next[0] == '}' {
      members := [member];
      MembersCons(member, []);
    } else {
      var gap := SpaceFound(next[1..]);
      var more := MembersFound(gap, SkipSpace(next[1..]));
      members := [member] + more;
      MembersCons(member, more);
      Onward(",", WrittenMembers(more), "}" + ParseMembers(s).value.1);
      Onward(WrittenMember(member), "," + WrittenMembers(more), "}" + ParseMembers(s).value.1);
    }
  }

  /** A list, and an object, from the bracket on. */
  lemma {:induction false} ListFound(s: string) returns (node: Node)
    requires ParseValue(s).Some? && s[0] == '['
    ensures Proper(node) && Value(node) == ParseValue(s).value.0
    ensures s == Written(node) + ParseValue(s).value.1
    decreases |s|, 0
  {
    hide ParseItems, ParseMembers, ParseString, ParseScalar, WrittenItems, WrittenMembers, Values, PairsOf, SkipSpace,
      ProperItem;
    var gap := SpaceFound(s[1..]);
    var body := SkipSpace(s[1..]);
    assert s == "[" + (gap + body);
    if body != "" && body[0] == ']' {
      node := List(gap, []);
      NothingInside();
      assert body == "]" + body[1..];
    } else {
      var items := ItemsFound(gap, body);
      node := List(gap, items);
    }
  }

  lemma {:induction false} DictFound(s: string) returns (node: Node)
    requires ParseValue(s).Some? && s[0] == '{'
    ensures Proper(node) && Value(node) == ParseValue(s).value.0
    ensures s == Written(node) + ParseValue(s).value.1
    decreases |s|, 0
  {
    hide ParseItems, ParseMembers, ParseString, ParseScalar, WrittenItems, WrittenMembers, Values, PairsOf, SkipSpace,
      FromPairs, ProperMember;
    var gap := SpaceFound(s[1..]);
    var body := SkipSpace(s[1..]);
    assert s == "{" + (gap + body);
    if body != "" && body[0] == '}' {
      node := Dict(gap, []);
      NothingInside();
      assert body == "}" + body[1..];
    } else {
      var members := MembersFound(gap, body);
      node := Dict(gap, members);
    }
  }

  lemma {:induction false} ValueFound(s: string) returns (node: Node)
    requires ParseValue(s).Some?
    ensures Proper(node) && Value(node) == ParseValue(s).value.0
    ensures s == Written(node) + ParseValue(s).value.1
    decreases |s|, 1
  {
    hide ParseItems, ParseMembers, ParseString, ParseScalar, WrittenItems, WrittenMembers, Values, PairsOf, Chars,
      PiecesText, SkipSpace, FromPairs, PiecesOk, ProperItem, ProperMember;
    if s[0] == '"' {
      var pieces := StringFound(s[1..]);
      node := Text(pieces);
      assert s == "\"" + s[1..];
    } else if s[0] == '[' {
      node := ListFound(s);
    } else if s[0] == '{' {
      node := DictFound(s);
    } else {
      node := ScalarFound(s);
      var n := ParseScalar(s).value.1;
      assert s == s[..n] + s[n..];
    }
  }

  /** Whatever `loads` reads is a derivation of the value, between white space. */
  lemma LoadsFound(s: string) returns (before: string, node: Node, after: string)
    requires Loads(s).Some?
    ensures Blank(before) && Proper(node) && Blank(after)
    ensures s == before + (Written(node) + after) && Loads(s) == Some(Value(node))
  {
    hide ParseValue, Proper, Written, Value, SkipSpace;
    before := SpaceFound(s);
    node := ValueFound(SkipSpace(s));
    after := SpaceFound(ParseValue(SkipSpace(s)).value.1);
  }

  // ---- And every derivation is read ----

  lemma NumeralStarts(literal: string)
    requires Numeral(literal)
    ensures literal != "" && (IsDigit(literal[0]) || (literal[0] == '-' && |literal| > 1 && IsDigit(literal[1])))
    ensures ValidNumber(literal)
  {
    NumberMeaning(literal);
    hide NumberLength, NumberParts;
    var sign, whole, fraction, exponent :|
      NumberParts(sign, whole, fraction, exponent) && literal == sign + (whole + (fraction + exponent));
    NumberOnly(sign, whole, fraction, exponent);
    NumberStart(literal);
  }

  lemma NumeralReads(literal: string, rest: string)
    requires Numeral(literal) && Delimited(rest)
    ensures literal != "" && (IsDigit(literal[0]) || literal[0] == '-')
    ensures ParseScalar(literal + rest) == Some((Number(literal), |literal|))
  {
    hide Numeral, ValidNumber, ParseScalar;
    NumeralStarts(literal);
    assert literal !in CONSTANTS;
    ParseNumber(literal, rest);
  }

  lemma WordReads(word: string, rest: string)
    requires word in {"null", "true", "false", "NaN", "Infinity", "-Infinity"}
    ensures ParseScalar(word + rest) == Some((Value(Word(word)), |word|))
  {
    hide NumberLength;
    var s := word + rest;
    assert s[..|word|] == word;
    assert s[0] == word[0] && s[1] == word[1];
  }

  lemma ScalarReads(node: Node, rest: string)
    requires (node.Word? || node.Numeric?) && Proper(node) && Delimited(rest)
    ensures Written(node) != "" && Written(node)[0] !in {'"', '[', '{', ' ', '\t', '\n', '\r', ']', '}', ','}
    ensures ParseScalar(Written(node) + rest) == Some((Value(node), |Written(node)|))
  {
    if node.Numeric? {
      hide Numeral, ParseScalar;
      NumeralReads(node.literal, rest);
    } else {
      WordReads(node.word, rest);
      hide ParseScalar;
    }
  }

  /** A derivation starts with a character that is neither space nor closes anything. */
  lemma NodeStarts(node: Node)
    requires Proper(node)
    ensures Written(node) != "" && Written(node)[0] !in {' ', '\t', '\n', '\r', ']', '}', ','}
  {
    if node.Word? || node.Numeric? { ScalarReads(node, ""); }
  }

  /** An item is read up to what follows it. */
  lemma ItemReads(item: Item, tail: string) returns (after: string)
    requires ProperItem(item) && tail != "" && tail[0] in {',', ']', '}'}
    requires forall rest :: Delimited(rest) ==>
               ParseValue(Written(item.node) + rest) == Some((Value(item.node), rest))
    ensures var s := SkipSpace(WrittenItem(item) + tail);
            && s != "" && s[0] !in {']', '}'}
            && ParseValue(s) == Some((Value(item.node), after)) && SkipSpace(after) == tail
  {
    hide Proper, Value, Written, ParseValue;
    after := item.after + tail;
    var s := Written(item.node) + after;
    NodeStarts(item.node);
    assert WrittenItem(item) + tail == item.before + s;
    SpaceOnly(item.before, s);
    SpaceOnly(item.after, tail);
    NoSpace(s);
    NoSpace(tail);
    assert Delimited(after) by { assert after[0] == (if item.after == "" then tail[0] else item.after[0]); }
  }

  lemma ItemsStep(s: string, v: Json, after: string)
    requires ParseValue(s) == Some((v, after)) && SkipSpace(after) != ""
    ensures var next := SkipSpace(after);
            && (next[0] == ']' ==> ParseItems(s) == Some(([v], next[1..])))
            && (next[0] == ',' ==>
                  ParseItems(s) ==
                  match ParseItems(SkipSpace(next[1..]))
                  case None => None
                  case Some((vs, rest)) => Some(([v] + vs, rest)))
  {
    hide ParseValue, SkipSpace;
  }

  lemma MembersStep(s: string, key: string, colon: string, v: Json, next: string)
    requires s != "" && s[0] == '"' && ParseString(s[1..]).Some? && ParseString(s[1..]).value.0 == key
    requires colon == SkipSpace(ParseString(s[1..]).value.1) && colon != "" && colon[0] == ':'
    requires ParseValue(SkipSpace(colon[1..])).Some? && ParseValue(SkipSpace(colon[1..])).value.0 == v
    requires next == SkipSpace(ParseValue(SkipSpace(colon[1..])).value.1) && next != ""
    ensures (next[0] == '}' ==> ParseMembers(s) == Some(([(key, v)], next[1..])))
    ensures next[0] == ',' ==>
              ParseMembers(s) ==
              match ParseMembers(SkipSpace(next[1..]))
              case None => None
              case Some((pairs, rest)) => Some(([(key, v)] + pairs, rest))
  {
    hide ParseString, ParseValue, SkipSpace;
  }

  /** A member is read up to what follows it. */
  lemma MemberReads(member: Member, tail: string, after: string)
    requires ProperMember(member) && tail != ""
    requires ParseValue(SkipSpace(WrittenItem(member.item) + tail)) == Some((Value(member.item.node), after))
    requires SkipSpace(after) == tail
    ensures var s := SkipSpace(WrittenMember(member) + tail);
            var pair := (Chars(member.key), Value(member.item.node));
            && s != "" && s[0] == '"'
            && (tail[0] == '}' ==> ParseMembers(s) == Some(([pair], tail[1..])))
            && (tail[0] == ',' ==>
                  ParseMembers(s) ==
                  match ParseMembers(SkipSpace(tail[1..]))
                  case None => None
                  case Some((pairs, rest)) => Some(([pair] + pairs, rest)))
  {
    hide ParseMembers, ParseValue, ParseString, ProperItem, Value, Written, WrittenItem, PiecesOk, PiecesText, Chars;
    var afterColon := WrittenItem(member.item) + tail;
    var colon := ":" + afterColon;
    var afterKey := member.colon + colon;
    var s := "\"" + (PiecesText(member.key) + ("\"" + afterKey));
    MemberText(member, s, afterKey, afterColon, tail);
    StringOnly(member.key, afterKey);
    SpaceOnly(member.before, s);
    NoSpace(s);
    SpaceOnly(member.colon, colon);
    NoSpace(colon);
    hide SkipSpace, WrittenMember, Blank;
    assert colon[1..] == afterColon && s[1..] == PiecesText(member.key) + ("\"" + afterKey);
    MembersStep(s, Chars(member.key), colon, Value(member.item.node), tail);
  }

  lemma {:induction false} MembersOnly(members: seq<Member>, rest: string)
    requires members != [] && forall i :: 0 <= i < |members| ==> ProperMember(members[i])
    ensures var s := SkipSpace(WrittenMembers(members) + ("}" + rest));
            s != "" && s[0] != '}' && ParseMembers(s) == Some((PairsOf(members), rest))
    decreases members, 0
  {
    hide ParseMembers, ParseValue, ParseString, Proper, Value, Written, WrittenItem, WrittenMember, PairsOf,
      WrittenMembers, Blank, SkipSpace, PiecesOk, PiecesText, Chars, Delimited;
    var member, more := members[0], members[1..];
    var item := member.item;
    assert members == [member] + more && ProperMember(member) && ProperItem(item);
    assert more == [] ==> members == [member];
    MembersCons(member, more);
    forall tail: string | Delimited(tail)
      ensures ParseValue(Written(item.node) + tail) == Some((Value(item.node), tail))
    {
      ValueOnly(item.node, tail);
    }
    var tail := if more == [] then "}" + rest else "," + (WrittenMembers(more) + ("}" + rest));
    var after := ItemReads(item, tail);
    MemberReads(member, tail, after);
    assert tail[1..] == if more == [] then rest else WrittenMembers(more) + ("}" + rest);
    if more != [] {
      MembersOnly(more, rest);
      Onward(",", WrittenMembers(more), "}" + rest);
      Onward(WrittenMember(member), "," + WrittenMembers(more), "}" + rest);
    }
  }

  lemma {:induction false} ValueOnly(node: Node, rest: string)
    requires Proper(node) && Delimited(rest)
    ensures ParseValue(Written(node) + rest) == Some((Value(node), rest))
    decreases node, 1
  {
    hide ParseItems, ParseMembers, ParseString, ParseScalar, WrittenItems, WrittenMembers, Values, PairsOf, Chars,
      PiecesText, SkipSpace, FromPairs, PiecesOk, ProperItem, ProperMember, Blank;
    var s := Written(node) + rest;
    match node
    case Text(pieces) =>
      StringOnly(pieces, rest);
      assert s[1..] == PiecesText(pieces) + ("\"" + rest);
    case List(gap, items) =>
      if items == [] {
        assert s[1..] == gap + ("]" + rest);
        SpaceOnly(gap, "]" + rest);
        NoSpace("]" + rest);
        NothingInside();
      } else {
        assert s[1..] == WrittenItems(items) + ("]" + rest);
        ItemsOnly(items, rest);
      }
    case Dict(gap, members) =>
      if members == [] {
        assert s[1..] == gap + ("}" + rest);
        SpaceOnly(gap, "}" + rest);
        NoSpace("}" + rest);
        NothingInside();
      } else {
        assert s[1..] == WrittenMembers(members) + ("}" + rest);
        MembersOnly(members, rest);
      }
    case _ =>
      ScalarReads(node, rest);
      assert s[|Written(node)|..] == rest && s[0] == Written(node)[0];
  }

  lemma {:induction false} ItemsOnly(items: seq<Item>, rest: string)
    requires items != [] && forall i :: 0 <= i < |items| ==> ProperItem(items[i])
    ensures var s := SkipSpace(WrittenItems(items) + ("]" + rest));
            s != "" && s[0] != ']' && ParseItems(s) == Some((Values(items), rest))
    decreases items, 0
  {
    hide ParseItems, ParseValue, Proper, Value, Written, WrittenItem, Values, WrittenItems, Blank, SkipSpace, Delimited;
    var item, more := items[0], items[1..];
    assert items == [item] + more && ProperItem(item);
    assert more == [] ==> items == [item];
    ItemsCons(item, more);
    forall tail: string | Delimited(tail)
      ensures ParseValue(Written(item.node) + tail) == Some((Value(item.node), tail))
    {
      ValueOnly(item.node, tail);
    }
    var tail := if more == [] then "]" + rest else "," + (WrittenItems(more) + ("]" + rest));
    var after := ItemReads(item, tail);
    ItemsStep(SkipSpace(WrittenItem(item) + tail), Value(item.node), after);
    assert tail[1..] == if more == [] then rest else WrittenItems(more) + ("]" + rest);
    if more != [] {
      ItemsOnly(more, rest);
      Onward(",", WrittenItems(more), "]" + rest);
      Onward(WrittenItem(item), "," + WrittenItems(more), "]" + rest);
    }
  }

  lemma {:induction false} MemberKeys(pairs: seq<(string, Json)>, key: string)
    ensures key in FromPairs(pairs) <==> exists j :: 0 <= j < |pairs| && pairs[j].0 == key
  {
    if pairs != [] {
      var n := |pairs| - 1;
      MemberKeys(pairs[..n], key);
      assert pairs == pairs[..n] + [pairs[n]];
    }
  }

  /** Of several members under one key the last counts. */
  lemma {:induction false} LastMemberCounts(pairs: seq<(string, Json)>, i: nat)
    requires i < |pairs| && forall j :: i < j < |pairs| ==> pairs[j].0 != pairs[i].0
    ensures Get(FromPairs(pairs), pairs[i].0) == Some(pairs[i].1)
    ensures forall key :: key in FromPairs(pairs) <==> exists j :: 0 <= j < |pairs| && pairs[j].0 == key
  {
    var n := |pairs| - 1;
    if i < n { LastMemberCounts(pairs[..n], i); }
    forall key ensures key in FromPairs(pairs) <==> exists j :: 0 <= j < |pairs| && pairs[j].0 == key {
      MemberKeys(pairs, key);
    }
  }

  lemma LoadsReads(before: string, node: Node, after: string)
    requires Blank(before) && Proper(node) && Blank(after)
    ensures Loads(before + (Written(node) + after)) == Some(Value(node))
  {
    hide Proper, Written, Value, ParseValue;
    NodeStarts(node);
    SpaceOnly(before, Written(node) + after);
    NoSpace(Written(node) + after);
    ValueOnly(node, after);
    SpaceOnly(after, "");
    assert after + "" == after;
  }

  /** Main result: `loads` reads a text as a value if and only if the grammar derives
      the text, between white space, with that value. */
  lemma LoadsMeaning(s: string, v: Json)
    ensures Loads(s) == Some(v) <==> exists before, node, after ::
              Blank(before) && Proper(node) && Blank(after) && s == before + (Written(node) + after) && Value(node) == v
  {
    hide Proper, Written, Value, Blank, Loads;
    if Loads(s) == Some(v) {
      var before, node, after := LoadsFound(s);
    }
    forall before, node, after |
      Blank(before) && Proper(node) && Blank(after) && s == before + (Written(node) + after)
      ensures Loads(s) == Some(Value(node))
    {
      LoadsReads(before, node, after);
    }
  }
}
