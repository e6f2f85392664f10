/** The wire forms of the codecs themselves, digit by digit and bit by bit: what an
    encoder writes, and what else a decoder accepts. */
module CodecMeaning {
  import opened Basics
  import opened Bytes
  import opened Json
  import Hex
  import Utf8
  import Base64
  import JsonText

  // ---- Hexadecimal ----

  const HEX := "0123456789abcdef"

  const UPPER_HEX := "0123456789ABCDEF"

  lemma HexCharMeaning(d: nat)
    requires d < 16
    ensures Hex.HexChar(d) == HEX[d]
    ensures Hex.HexValue(HEX[d]) == Hex.HexValue(UPPER_HEX[d]) == Some(d)
  {
  }

  /** Two lower-case digits a byte, the high one first. */
  lemma {:induction false} HexMeaning(b: Bytes, i: nat)
    ensures |Hex.Encode(b)| == 2 * |b|
    ensures i < |b| ==> Hex.Encode(b)[2 * i] == HEX[b[i] / 16] && Hex.Encode(b)[2 * i + 1] == HEX[b[i] % 16]
  {
    if b != [] {
      HexCharMeaning(b[0] / 16);
      HexCharMeaning(b[0] % 16);
      hide Hex.HexChar;
      HexMeaning(b[1..], if i > 0 then i - 1 else 0);
    }
  }

  /** Readable text spelled out: bytes of two digits in either case, with white space
      before any of them and at the end. */
  datatype Pair = Pair(gap: string, high: char, low: char)

  predicate Blank(s: string) { forall i :: 0 <= i < |s| ==> s[i] in " \t\n\r" || s[i] as int in {11, 12} }

  function Spelled(pairs: seq<Pair>, end: string): string {
    if pairs == [] then end else pairs[0].gap + [pairs[0].high, pairs[0].low] + Spelled(pairs[1..], end)
  }

  lemma {:induction false} SkipBlank(gap: string, s: string)
    requires Blank(gap)
    ensures Hex.Decode(gap + s) == Hex.Decode(s)
  {
    if gap == "" {
      assert gap + s == s;
    } else {
      assert (gap + s)[1..] == gap[1..] + s;
      SkipBlank(gap[1..], s);
    }
  }

  predicate Spells(pair: Pair, x: Byte) {
    && Blank(pair.gap)
    && pair.high in [HEX[x / 16], UPPER_HEX[x / 16]]
    && pair.low in [HEX[x % 16], UPPER_HEX[x % 16]]
  }

  lemma OnePair(pair: Pair, x: Byte, tail: string)
    requires Spells(pair, x)
    ensures Hex.Decode(pair.gap + [pair.high, pair.low] + tail) ==
            match Hex.Decode(tail) case None => None case Some(rest) => Some([x] + rest)
  {
    var s := [pair.high, pair.low] + tail;
    HexCharMeaning(x / 16);
    HexCharMeaning(x % 16);
    SkipBlank(pair.gap, s);
    assert pair.gap + [pair.high, pair.low] + tail == pair.gap + s;
    TwoDigits(pair.high, x / 16, pair.low, x % 16, tail);
    hide Hex.Decode;
    assert 16 * (x / 16) + x % 16 == x;
  }

  lemma TwoDigits(high: char, h: nat, low: char, l: nat, tail: string)
    requires Hex.HexValue(high) == Some(h) && Hex.HexValue(low) == Some(l)
    ensures Hex.Decode([high, low] + tail) ==
            match Hex.Decode(tail) case None => None case Some(rest) => Some([16 * h + l] + rest)
  {
    assert !Hex.Space(high);
    hide Hex.HexValue;
    assert ([high, low] + tail)[2..] == tail;
  }

  lemma DecodeNothing()
    ensures Hex.Decode("") == Some([])
  {
  }

  lemma {:induction false} SpelledMeaning(pairs: seq<Pair>, end: string, b: Bytes)
    requires |b| == |pairs| && Blank(end) && forall i :: 0 <= i < |pairs| ==> Spells(pairs[i], b[i])
    ensures Hex.Decode(Spelled(pairs, end)) == Some(b)
  {
    hide Spells, Blank, Hex.Decode;
    if pairs == [] {
      SkipBlank(end, "");
      assert end + "" == end && Hex.Decode("") == Some([]) by { DecodeNothing(); }
    } else {
      SpelledMeaning(pairs[1..], end, b[1..]);
      OnePair(pairs[0], b[0], Spelled(pairs[1..], end));
      assert b == [b[0]] + b[1..];
    }
  }

  // ---- UTF-8 ----

  /** What a byte adds to its mark. */
  function Payload(b: int, mark: int): int { b - mark }

  /** One lead byte that tells the length, then continuation bytes, and together the
      bits of the code point; no shorter form would do. */
  lemma CharMeaning(c: char)
    ensures var b, n := Utf8.EncodeChar(c), c as int;
            && (forall i :: 1 <= i < |b| ==> 0x80 <= b[i] < 0xC0)
            && (|b| == 1 ==> b[0] == n < 0x80)
            && (|b| == 2 ==> 0xC0 <= b[0] < 0xE0 && n >= 0x80)
            && (|b| == 2 ==>
                  n == Payload(b[0], 0xC0) * 0x40 + Payload(b[1], 0x80))
            && (|b| == 3 ==> 0xE0 <= b[0] < 0xF0 && n >= 0x800)
            && (|b| == 3 ==>
                  n == Payload(b[0], 0xE0) * 0x1000 + Payload(b[1], 0x80) * 0x40 + Payload(b[2], 0x80))
            && (|b| == 4 ==> 0xF0 <= b[0] < 0xF8 && n >= 0x10000)
            && (|b| == 4 ==>
                  n == Payload(b[0], 0xF0) * 0x40000 + Payload(b[1], 0x80) * 0x1000 + Payload(b[2], 0x80) * 0x40 +
                       Payload(b[3], 0x80))
  {
    Utf8.SixBits(c as int);
  }

  /** Some character's encoding begins with these bytes. */
  ghost predicate Begins(b: Bytes) { exists c: char :: StartsWith(Utf8.EncodeChar(c), b) }

  lemma SameStart(b: Bytes, n: nat, e: Bytes)
    requires b != [] && e != [] && Utf8.DecodeStep(b) == Utf8.Bad(n) && n < |b| && StartsWith(e, b[..n + 1])
    ensures Utf8.DecodeStep(e) == Utf8.Bad(n)
  {
    assert forall i :: 0 <= i <= n ==> e[i] == b[..n + 1][i] == b[i];
  }

  lemma EncodingReads(c: char)
    ensures Utf8.DecodeStep(Utf8.EncodeChar(c)).Char?
  {
    Utf8.StepOfEncodeChar(c, []);
    assert Utf8.EncodeChar(c) + [] == Utf8.EncodeChar(c);
  }

  lemma Completed(b: Bytes, rest: Bytes)
    requires b != [] && Utf8.DecodeStep(b + rest).Char? && Utf8.DecodeStep(b + rest).length == |b + rest|
    ensures Begins(b)
  {
    var e := b + rest;
    Utf8.EncodeCharOfStep(e);
    assert StartsWith(Utf8.EncodeChar(Utf8.DecodeStep(e).c), b) by {
      assert e[..|e|] == e && e[..|b|] == b;
    }
  }

  /** An ill-formed stretch is as long as it can be: no encoding begins with it and the
      byte after it, and unless it is a single byte some encoding begins with it. */
  lemma BadMeaning(b: Bytes)
    requires b != [] && Utf8.DecodeStep(b).Bad?
    ensures var n := Utf8.DecodeStep(b).length; (n < |b| ==> !Begins(b[..n + 1])) && (n > 1 ==> Begins(b[..n]))
  {
    var n := Utf8.DecodeStep(b).length;
    if n < |b| {
      forall c: char ensures !StartsWith(Utf8.EncodeChar(c), b[..n + 1]) {
        EncodingReads(c);
        if StartsWith(Utf8.EncodeChar(c), b[..n + 1]) {
          SameStart(b, n, Utf8.EncodeChar(c));
        }
      }
    }
    if n > 1 {
      Completed(b[..n], if n == 2 && b[0] >= 0xF0 then [0x80, 0x80] else [0x80]);
    }
  }

  // ---- Base64 ----

  const ALPHABET := "ABCDEFGHIJKLMNOP" + "QRSTUVWXYZabcdef" + "ghijklmnopqrstuv" + "wxyz0123456789+/"

  function Letter(d: nat): char
    requires d < 64
  {
    ALPHABET[d]
  }

  predicate InAlphabet(c: char) { exists d :: 0 <= d < 64 && Letter(d) == c }

  lemma SymbolMeaning(d: nat)
    requires d < 64
    ensures Base64.Symbol(d) == Letter(d)
  {
    if d < 16 {
      assert ALPHABET[d] == "ABCDEFGHIJKLMNOP"[d];
    } else if d < 32 {
      assert ALPHABET[d] == "QRSTUVWXYZabcdef"[d - 16];
    } else if d < 48 {
      assert ALPHABET[d] == "ghijklmnopqrstuv"[d - 32];
    } else {
      assert ALPHABET[d] == "wxyz0123456789+/"[d - 48];
    }
  }

  lemma ValueMeaning(c: char)
    ensures Base64.SymbolValue(c).Some? <==> InAlphabet(c)
    ensures !InAlphabet('=')
  {
    hide Letter;
    if Base64.SymbolValue(c).Some? {
      SymbolMeaning(Base64.SymbolValue(c).value);
      assert Letter(Base64.SymbolValue(c).value) == c;
    }
    if InAlphabet(c) {
      var d: nat :| d < 64 && Letter(d) == c;
      SymbolMeaning(d);
    }
    if InAlphabet('=') {
      var d: nat :| d < 64 && Letter(d) == '=';
      SymbolMeaning(d);
    }
  }

  lemma Sextets(x: Byte, y: Byte, z: Byte)
    ensures var n: int := x * 0x10000 + y * 0x100 + z;
            && n / 0x40000 == x / 4 && n / 0x1000 % 64 == x % 4 * 16 + y / 16
            && n / 64 % 64 == y % 16 * 4 + z / 64 && n % 64 == z % 64
  {
    Utf8.FourDigits(x / 4, x % 4 * 16 + y / 16, y % 16 * 4 + z / 64, z % 64, x * 0x10000 + y * 0x100 + z);
  }

  /** Three bytes are one number, written in four digits to the base 64, the highest
      first; a missing byte counts as zero and is marked. */
  lemma Base64Meaning(x: Byte, y: Byte, z: Byte, rest: Bytes)
    ensures var n: int := x * 0x10000 + y * 0x100 + z;
            && n < 0x1000000
            && var quad := [Letter(n / 0x40000), Letter(n / 0x1000 % 64), Letter(n / 64 % 64), Letter(n % 64)];
               && Base64.Encode([x, y, z] + rest) == quad + Base64.Encode(rest)
               && (z == 0 ==> Base64.Encode([x, y]) == quad[..3] + "=")
               && (y == z == 0 ==> Base64.Encode([x]) == quad[..2] + "==")
  {
    hide Base64.Symbol, Letter;
    Sextets(x, y, z);
    SymbolMeaning(x / 4);
    SymbolMeaning(x % 4 * 16 + y / 16);
    SymbolMeaning(y % 16 * 4 + z / 64);
    SymbolMeaning(z % 64);
    assert ([x, y, z] + rest)[3..] == rest;
  }

  predicate Symbols(s: string) { forall i :: 0 <= i < |s| ==> InAlphabet(s[i]) }

  /** Symbols, but for padding in the last place or the last two. */
  predicate Padded(s: string) {
    || Symbols(s)
    || (s != "" && s[|s| - 1] == '=' && Symbols(s[..|s| - 1]))
    || (|s| > 1 && s[|s| - 1] == s[|s| - 2] == '=' && Symbols(s[..|s| - 2]))
  }

  lemma QuadAccepts(a: char, b: char, c: char, d: char, last: bool)
    ensures Base64.DecodeQuad(a, b, c, d, last).Some? <==>
            && InAlphabet(a) && InAlphabet(b)
            && ((InAlphabet(c) && InAlphabet(d)) || (last && d == '=' && (InAlphabet(c) || c == '=')))
  {
    ValueMeaning(a);
    ValueMeaning(b);
    ValueMeaning(c);
    ValueMeaning(d);
    hide Base64.SymbolValue, InAlphabet, Base64.Unpack;
  }

  lemma PaddedQuad(s: string)
    requires |s| == 4
    ensures Symbols(s) <==> InAlphabet(s[0]) && InAlphabet(s[1]) && InAlphabet(s[2]) && InAlphabet(s[3])
    ensures Padded(s) <==>
            && InAlphabet(s[0]) && InAlphabet(s[1])
            && ((InAlphabet(s[2]) && InAlphabet(s[3])) || (s[3] == '=' && (InAlphabet(s[2]) || s[2] == '=')))
  {
    hide InAlphabet;
    var three, two := s[..3], s[..2];
    assert Symbols(three) <==> InAlphabet(three[0]) && InAlphabet(three[1]) && InAlphabet(three[2]);
    assert Symbols(two) <==> InAlphabet(two[0]) && InAlphabet(two[1]);
  }

  lemma SymbolsSplit(s: string)
    requires |s| >= 4
    ensures Symbols(s) <==> Symbols(s[..4]) && Symbols(s[4..])
  {
    hide InAlphabet;
    assert s == s[..4] + s[4..];
  }

  lemma PaddedParts(s: string)
    requires |s| >= 8
    ensures Padded(s) <==> Symbols(s[..4]) && Padded(s[4..])
  {
    var n := |s|;
    SymbolsSplit(s);
    SymbolsSplit(s[..n - 1]);
    SymbolsSplit(s[..n - 2]);
    assert s[..n - 1][4..] == s[4..][..n - 5] && s[..n - 2][4..] == s[4..][..n - 6];
    assert s[..n - 1][..4] == s[..4] == s[..n - 2][..4];
    hide Symbols;
  }

  /** Text decodes exactly if its length is a multiple of four and it consists of
      symbols, but for padding in the last place or the last two. */
  lemma {:induction false} Base64Accepts(s: string)
    ensures Base64.Decode(s).Some? <==> |s| % 4 == 0 && Padded(s)
  {
    hide Base64.DecodeQuad, InAlphabet;
    if |s| == 4 {
      QuadAccepts(s[0], s[1], s[2], s[3], true);
      PaddedQuad(s);
      assert s[4..] == "";
    } else if |s| > 4 {
      QuadAccepts(s[0], s[1], s[2], s[3], false);
      PaddedQuad(s[..4]);
      Base64Accepts(s[4..]);
      if |s| >= 8 {
        PaddedParts(s);
        hide Padded, Symbols;
      }
    }
  }

  // ---- JSON text ----

  /** Only quotes, backslashes and control characters are escaped, by a letter where
      there is one and else by their code in hexadecimal. */
  lemma EscapeMeaning(c: char)
    ensures JsonText.EscapeChar(c) == [c] <==> c as int >= 32 && c !in {'"', '\\'}
    ensures c in {'"', '\\'} ==> JsonText.EscapeChar(c) == ['\\', c]
    ensures c in {'\n', '\r', '\t', 8 as char, 12 as char} ==>
              JsonText.EscapeChar(c) == ['\\', "btn?fr"[c as int - 8]]
    ensures c as int < 32 && c !in {'\n', '\r', '\t', 8 as char, 12 as char} ==>
              JsonText.EscapeChar(c) == ['\\', 'u', '0', '0', HEX[c as int / 16], HEX[c as int % 16]]
  {
  }

  /** A number below 0x10000 in four hexadecimal digits. */
  function FourHex(n: nat): (s: string)
    requires n < 0x10000
    ensures |s| == 4
  {
    [HEX[n / 0x1000], HEX[n / 0x100 % 16], HEX[n / 16 % 16], HEX[n % 16]]
  }

  lemma UnitMeaning(n: nat, rest: string)
    requires n < 0x10000
    ensures JsonText.CodeUnit(FourHex(n) + rest) == Some(n)
  {
    var s := FourHex(n) + rest;
    HexCharMeaning(n / 0x1000);
    HexCharMeaning(n / 0x100 % 16);
    HexCharMeaning(n / 16 % 16);
    HexCharMeaning(n % 16);
    assert s[0] == HEX[n / 0x1000] && s[1] == HEX[n / 0x100 % 16] && s[2] == HEX[n / 16 % 16] && s[3] == HEX[n % 16];
    hide Hex.HexValue;
    assert n / 0x1000 == n / 16 / 16 / 16 && n / 0x100 == n / 16 / 16;
  }

  /** Every character may be written by its code: one escape, or two for a character
      past the first 0x10000. */
  lemma CodeEscapeMeaning(c: char, rest: string)
    requires c as int < 0x10000
    ensures JsonText.ParseEscape("u" + (FourHex(c as int) + rest)) == Some((c, 5))
  {
    hide FourHex, JsonText.CodeUnit;
    UnitMeaning(c as int, rest);
    assert ("u" + (FourHex(c as int) + rest))[1..] == FourHex(c as int) + rest;
  }

  lemma PairReads(s: string, high: nat, low: nat)
    requires |s| >= 11 && s[0] == 'u' && s[5] == '\\' && s[6] == 'u'
    requires 0xD800 <= high < 0xDC00 && 0xDC00 <= low < 0xE000
    requires JsonText.CodeUnit(s[1..]) == Some(high) && JsonText.CodeUnit(s[7..]) == Some(low)
    ensures JsonText.ParseEscape(s) == Some(((0x10000 + (high - 0xD800) * 0x400 + (low - 0xDC00)) as char, 11))
  {
    hide JsonText.CodeUnit;
  }

  lemma PairEscapeMeaning(c: char, rest: string)
    requires c as int >= 0x10000
    ensures var n := c as int - 0x10000;
            var low := FourHex(0xDC00 + n % 0x400) + rest;
            JsonText.ParseEscape("u" + (FourHex(0xD800 + n / 0x400) + ("\\u" + low))) == Some((c, 11))
  {
    hide *;
    var n := c as int - 0x10000;
    var high, low := FourHex(0xD800 + n / 0x400), FourHex(0xDC00 + n % 0x400) + rest;
    UnitMeaning(0xD800 + n / 0x400, "\\u" + low);
    UnitMeaning(0xDC00 + n % 0x400, rest);
    PairParts(high, low);
    PairReads("u" + (high + ("\\u" + low)), 0xD800 + n / 0x400, 0xDC00 + n % 0x400);
  }

  lemma PairParts(high: string, low: string)
    requires |high| == 4
    ensures var s := "u" + (high + ("\\u" + low));
            && |s| == 7 + |low| && s[0] == 'u' && s[1..] == high + ("\\u" + low)
            && s[5] == '\\' && s[6] == 'u' && s[7..] == low
  {
    var tail := "\\u" + low;
    assert tail[0] == '\\' && tail[1] == 'u' && tail[2..] == low;
    assert (high + tail)[4..] == tail;
  }

  lemma {:induction false} ItemsMeaning(items: seq<Json>)
    ensures JsonText.PrintItems(items) == Join(Map(JsonText.Print, items), ",")
  {
    if |items| > 1 {
      ItemsMeaning(items[1..]);
      assert Map(JsonText.Print, items)[1..] == Map(JsonText.Print, items[1..]);
    }
  }

  /** One member of a printed object. */
  function Member(fields: Object, key: string): string {
    JsonText.Quote(key) + ":" + JsonText.Print(GetOrNull(fields, key))
  }

  lemma {:induction false} MembersMeaning(v: Json, keys: seq<string>)
    requires v.Obj? && forall k :: k in keys ==> k in v.fields
    ensures JsonText.PrintMembers(v, keys) == Join(Map((k: string) => Member(v.fields, k), keys), ",")
    decreases |keys|
  {
    var member := (k: string) => Member(v.fields, k);
    if |keys| > 1 {
      MembersMeaning(v, keys[1..]);
      assert Map(member, keys)[1..] == Map(member, keys[1..]);
    }
  }

  lemma {:induction false} EscapedString(s: string)
    ensures JsonText.Escape(s) == Flatten(Map(JsonText.EscapeChar, s))
  {
    if s != "" {
      EscapedString(s[1..]);
      assert Map(JsonText.EscapeChar, s)[1..] == Map(JsonText.EscapeChar, s[1..]);
    }
  }

  /** Canonical text: items between brackets and members between braces, separated by
      commas, without spaces; every key once, in code point order, before a colon. */
  lemma PrintMeaning(v: Json)
    ensures v.Arr? ==> JsonText.Print(v) == "[" + Join(Map(JsonText.Print, v.items), ",") + "]"
    ensures v.Obj? ==>
              var keys := JsonText.SortedKeys(v.fields.Keys);
              JsonText.Print(v) == "{" + Join(Map((k: string) => Member(v.fields, k), keys), ",") + "}"
    ensures v.Str? ==> JsonText.Print(v) == "\"" + Flatten(Map(JsonText.EscapeChar, v.s)) + "\""
  {
    hide JsonText.SortedKeys;
    if v.Arr? { ItemsMeaning(v.items); }
    if v.Obj? { MembersMeaning(v, JsonText.SortedKeys(v.fields.Keys)); }
    if v.Str? { EscapedString(v.s); }
  }
}
