/** Lower-case hexadecimal, as `bytes.hex` prints it and `bytes.fromhex` reads it. */
module Hex {
  import opened Basics
  import opened Bytes

  function HexChar(d: nat): char
    requires d < 16
  {
    if d < 10 then ('0' as int + d) as char else ('a' as int + d - 10) as char
  }

  function HexValue(c: char): (r: Option<nat>)
    ensures r.Some? ==> r.value < 16
  {
    if '0' <= c <= '9' then Some(c as int - '0' as int)
    else if 'a' <= c <= 'f' then Some(c as int - 'a' as int + 10)
    else if 'A' <= c <= 'F' then Some(c as int - 'A' as int + 10)
    else None
  }

  lemma HexCharValue(d: nat)
    requires d < 16
    ensures HexValue(HexChar(d)) == Some(d)
  {
  }

  function Encode(b: Bytes): string {
    if b == [] then "" else [HexChar(b[0] / 16), HexChar(b[0] % 16)] + Encode(b[1..])
  }

  predicate Space(c: char) { c == ' ' || 9 <= c as int <= 13 }

  /** Pairs of digits; ASCII white space is skipped between pairs only. */
  function Decode(s: string): Option<Bytes> {
    if s == "" then Some([])
    else if Space(s[0]) then Decode(s[1..])
    else if |s| < 2 || HexValue(s[0]).None? || HexValue(s[1]).None? then None
    else match Decode(s[2..])
         case None => None
         case Some(rest) => Some([16 * HexValue(s[0]).value + HexValue(s[1]).value] + rest)
  }

  lemma {:induction false} DecodeOfEncode(b: Bytes)
    ensures Decode(Encode(b)) == Some(b)
  {
    if b != [] {
      var s := Encode(b);
      HexCharValue(b[0] / 16);
      HexCharValue(b[0] % 16);
      assert s[2..] == Encode(b[1..]);
      DecodeOfEncode(b[1..]);
      assert !Space(s[0]);
      assert [b[0]] + b[1..] == b;
    }
  }

  /** The number of hex digits in a text. */
  function DigitCount(s: string): nat {
    if s == "" then 0 else (if HexValue(s[0]).Some? then 1 else 0) + DigitCount(s[1..])
  }

  /** Readable text has two digits for every byte, so an odd digit makes it unreadable. */
  lemma {:induction false} DecodePairs(s: string)
    requires Decode(s).Some?
    ensures DigitCount(s) == 2 * |Decode(s).value|
  {
    if s != "" && Space(s[0]) {
      DecodePairs(s[1..]);
    } else if s != "" {
      assert s[1..][1..] == s[2..];
      DecodePairs(s[2..]);
    }
  }

  /** Anything but hex digits and white space makes the text unreadable. */
  lemma {:induction false} DecodeRejects(s: string, i: nat)
    requires i < |s| && HexValue(s[i]).None? && !Space(s[i])
    ensures Decode(s).None?
  {
    if Space(s[0]) {
      DecodeRejects(s[1..], i - 1);
    } else if i >= 2 && HexValue(s[0]).Some? && HexValue(s[1]).Some? {
      DecodeRejects(s[2..], i - 2);
    }
  }
}

/** UTF-8 (RFC 3629, section 3), with Python's strict and replacing decoders. */
module Utf8 {
  import opened Basics
  import opened Bytes

  const REPLACEMENT := '\U{FFFD}'

  function EncodeChar(c: char): (r: Bytes)
    ensures 1 <= |r| <= 4
  {
    var n := c as int;
    if n < 0x80 then [n]
    else if n < 0x800 then [0xC0 + n / 64, 0x80 + n % 64]
    else if n < 0x10000 then [0xE0 + n / 4096, 0x80 + n / 64 % 64, 0x80 + n % 64]
    else [0xF0 + n / 262144, 0x80 + n / 4096 % 64, 0x80 + n / 64 % 64, 0x80 + n % 64]
  }

  function Encode(s: string): Bytes {
    if s == "" then [] else EncodeChar(s[0]) + Encode(s[1..])
  }

  predicate Continuation(b: Byte) { 0x80 <= b <= 0xBF }

  /** The second byte of a sequence, excluding overlong forms, surrogates and
      values past the last code point. */
  predicate SecondByte(lead: Byte, b: Byte) {
    && Continuation(b)
    && (lead == 0xE0 ==> b >= 0xA0) && (lead == 0xED ==> b <= 0x9F)
    && (lead == 0xF0 ==> b >= 0x90) && (lead == 0xF4 ==> b <= 0x8F)
  }

  /** The code points of two-, three- and four-byte sequences. */
  function Point2(b0: int, b1: int): int { (b0 - 0xC0) * 64 + (b1 - 0x80) }

  function Point3(b0: int, b1: int, b2: int): int { (b0 - 0xE0) * 4096 + (b1 - 0x80) * 64 + (b2 - 0x80) }

  function Point4(b0: int, b1: int, b2: int, b3: int): int {
    (b0 - 0xF0) * 262144 + (b1 - 0x80) * 4096 + (b2 - 0x80) * 64 + (b3 - 0x80)
  }

  /** One decoding step: a character and its length, or an ill-formed stretch. */
  datatype Step = Char(c: char, length: nat) | Bad(length: nat)

  function DecodeStep(b: Bytes): (r: Step)
    requires b != []
    ensures 1 <= r.length <= |b|
  {
    var lead: int := b[0];
    if lead < 0x80 then Char(lead as char, 1)
    else if lead < 0xC2 || lead > 0xF4 then Bad(1)
    else if |b| < 2 || !SecondByte(lead, b[1]) then Bad(1)
    else if lead < 0xE0 then Char(Point2(lead, b[1]) as char, 2)
    else if |b| < 3 || !Continuation(b[2]) then Bad(2)
    else if lead < 0xF0 then Char(Point3(lead, b[1], b[2]) as char, 3)
    else if |b| < 4 || !Continuation(b[3]) then Bad(3)
    else Char(Point4(lead, b[1], b[2], b[3]) as char, 4)
  }

  /** `bytes.decode("utf-8")`; None stands for the UnicodeDecodeError. */
  function Decode(b: Bytes): Option<string>
    decreases |b|
  {
    if b == [] then Some("")
    else match DecodeStep(b)
         case Bad(_) => None
         case Char(c, n) =>
           match Decode(b[n..])
           case None => None
           case Some(rest) => Some([c] + rest)
  }

  /** `bytes.decode("utf-8", errors="replace")`. */
  function DecodeReplacing(b: Bytes): string
    decreases |b|
  {
    if b == [] then ""
    else match DecodeStep(b)
         case Bad(n) => [REPLACEMENT] + DecodeReplacing(b[n..])
         case Char(c, n) => [c] + DecodeReplacing(b[n..])
  }

  lemma SixBits(n: int)
    requires 0 <= n < 0x110000
    ensures n == n / 64 * 64 + n % 64 == n / 4096 * 4096 + n / 64 % 64 * 64 + n % 64
    ensures n == n / 262144 * 262144 + n / 4096 % 64 * 4096 + n / 64 % 64 * 64 + n % 64
  {
    assert n / 64 / 64 == n / 4096 && n / 4096 / 64 == n / 262144;
  }

  lemma StepOfEncodeChar(c: char, rest: Bytes)
    ensures DecodeStep(EncodeChar(c) + rest) == Char(c, |EncodeChar(c)|)
  {
    var n := c as int;
    var b := EncodeChar(c) + rest;
    SixBits(n);
    if 0x80 <= n < 0x800 {
      assert b[0] == 0xC0 + n / 64 && b[1] == 0x80 + n % 64;
      assert Point2(b[0], b[1]) == n;
    } else if 0x800 <= n < 0x10000 {
      assert b[0] == 0xE0 + n / 4096 && b[1] == 0x80 + n / 64 % 64 && b[2] == 0x80 + n % 64;
      assert Point3(b[0], b[1], b[2]) == n;
      assert SecondByte(b[0], b[1]);
    } else if 0x10000 <= n {
      assert b[0] == 0xF0 + n / 262144 && b[1] == 0x80 + n / 4096 % 64;
      assert b[2] == 0x80 + n / 64 % 64 && b[3] == 0x80 + n % 64;
      assert Point4(b[0], b[1], b[2], b[3]) == n;
      assert SecondByte(b[0], b[1]);
    }
  }

  lemma LastDigit(q: int, r: int)
    requires 0 <= r < 64
    ensures (q * 64 + r) / 64 == q && (q * 64 + r) % 64 == r
  {
  }

  lemma DigitShifts(n: int)
    requires 0 <= n
    ensures n / 4096 == n / 64 / 64 && n / 262144 == n / 64 / 64 / 64
  {
  }

  lemma ThreeDigits(x: int, y: int, z: int, n: int)
    requires 0 <= x && 0 <= y < 64 && 0 <= z < 64 && n == x * 4096 + y * 64 + z
    ensures n / 4096 == x && n / 64 % 64 == y && n % 64 == z
  {
    DigitShifts(n);
    LastDigit(x * 64 + y, z);
    LastDigit(x, y);
  }

  lemma FourDigits(w: int, x: int, y: int, z: int, n: int)
    requires 0 <= w && 0 <= x < 64 && 0 <= y < 64 && 0 <= z < 64 && n == w * 262144 + x * 4096 + y * 64 + z
    ensures n / 262144 == w && n / 4096 % 64 == x && n / 64 % 64 == y && n % 64 == z
  {
    DigitShifts(n);
    LastDigit((w * 64 + x) * 64 + y, z);
    LastDigit(w * 64 + x, y);
    LastDigit(w, x);
  }

  /** Encoding what one well-formed step decoded gives back its bytes. */
  lemma EncodeCharOfStep(b: Bytes)
    requires b != [] && DecodeStep(b).Char?
    ensures EncodeChar(DecodeStep(b).c) == b[..DecodeStep(b).length]
  {
    var n := DecodeStep(b).c as int;
    if b[0] >= 0xF0 {
      FourDigits(b[0] - 0xF0, b[1] - 0x80, b[2] - 0x80, b[3] - 0x80, n);
      assert EncodeChar(DecodeStep(b).c) == [b[0], b[1], b[2], b[3]];
    } else if b[0] >= 0xE0 {
      ThreeDigits(b[0] - 0xE0, b[1] - 0x80, b[2] - 0x80, n);
      assert EncodeChar(DecodeStep(b).c) == [b[0], b[1], b[2]];
    } else if b[0] >= 0x80 {
      assert n == Point2(b[0], b[1]);
      assert EncodeChar(DecodeStep(b).c) == [b[0], b[1]];
    }
  }

  lemma {:induction false} DecodeOfEncode(s: string)
    ensures Decode(Encode(s)) == Some(s)
    ensures DecodeReplacing(Encode(s)) == s
  {
    if s != "" {
      var b := Encode(s);
      StepOfEncodeChar(s[0], Encode(s[1..]));
      assert b[|EncodeChar(s[0])|..] == Encode(s[1..]);
      DecodeOfEncode(s[1..]);
      assert [s[0]] + s[1..] == s;
    }
  }

  /** Strict decoding accepts nothing but encodings. */
  lemma {:induction false} EncodeOfDecode(b: Bytes)
    requires Decode(b).Some?
    ensures Encode(Decode(b).value) == b
    decreases |b|
  {
    hide DecodeStep, EncodeChar;
    if b != [] {
      var n := DecodeStep(b).length;
      EncodeCharOfStep(b);
      EncodeOfDecode(b[n..]);
      assert Decode(b).value[1..] == Decode(b[n..]).value;
      assert b[..n] + b[n..] == b;
    }
  }
}

/** Base64 (RFC 4648, section 4), as `b64encode` and `b64decode(validate=True)`. */
module Base64 {
  import opened Basics
  import opened Bytes

  function Symbol(d: nat): (c: char)
    requires d < 64
    ensures c != '='
  {
    if d < 26 then ('A' as int + d) as char
    else if d < 52 then ('a' as int + d - 26) as char
    else if d < 62 then ('0' as int + d - 52) as char
    else if d == 62 then '+' else '/'
  }

  function SymbolValue(c: char): (r: Option<nat>)
    ensures r.Some? ==> r.value < 64
  {
    if 'A' <= c <= 'Z' then Some(c as int - 'A' as int)
    else if 'a' <= c <= 'z' then Some(c as int - 'a' as int + 26)
    else if '0' <= c <= '9' then Some(c as int - '0' as int + 52)
    else if c == '+' then Some(62)
    else if c == '/' then Some(63)
    else None
  }

  lemma SymbolOfValue(d: nat)
    requires d < 64
    ensures SymbolValue(Symbol(d)) == Some(d)
  {
  }

  function Encode(b: Bytes): string {
    if b == [] then ""
    else if |b| == 1 then [Symbol(b[0] / 4), Symbol(b[0] % 4 * 16), '=', '=']
    else if |b| == 2 then [Symbol(b[0] / 4), Symbol(b[0] % 4 * 16 + b[1] / 16), Symbol(b[1] % 16 * 4), '=']
    else
      [Symbol(b[0] / 4), Symbol(b[0] % 4 * 16 + b[1] / 16), Symbol(b[1] % 16 * 4 + b[2] / 64), Symbol(b[2] % 64)]
      + Encode(b[3..])
  }

  /** The three bytes of four sextets. */
  function Unpack(w: nat, x: nat, y: nat, z: nat): (r: Bytes)
    requires w < 64 && x < 64 && y < 64 && z < 64
    ensures |r| == 3
  {
    [w * 4 + x / 16, x % 16 * 16 + y / 4, y % 4 * 64 + z]
  }

  /** The bytes of one quad; padding is allowed in the last quad only. */
  function DecodeQuad(a: char, b: char, c: char, d: char, last: bool): Option<Bytes> {
    match (SymbolValue(a), SymbolValue(b), SymbolValue(c), SymbolValue(d))
    case (Some(w), Some(x), Some(y), Some(z)) => Some(Unpack(w, x, y, z))
    case (Some(w), Some(x), Some(y), None) => if last && d == '=' then Some(Unpack(w, x, y, 0)[..2]) else None
    case (Some(w), Some(x), None, None) => if last && c == '=' && d == '=' then Some(Unpack(w, x, 0, 0)[..1]) else None
    case _ => None
  }

  /** None stands for the binascii.Error or ValueError. */
  function Decode(s: string): Option<Bytes> {
    if s == "" then Some([])
    else if |s| < 4 then None
    else match DecodeQuad(s[0], s[1], s[2], s[3], |s| == 4)
         case None => None
         case Some(quad) =>
           match Decode(s[4..])
           case None => None
           case Some(rest) => Some(quad + rest)
  }

  lemma UnpackOfPack(x: Byte, y: Byte, z: Byte)
    ensures x % 4 * 16 + y / 16 < 64 && y % 16 * 4 + z / 64 < 64
    ensures Unpack(x / 4, x % 4 * 16 + y / 16, y % 16 * 4 + z / 64, z % 64) == [x, y, z]
  {
  }

  lemma QuadOfTriple(x: Byte, y: Byte, z: Byte, last: bool)
    ensures DecodeQuad(Symbol(x / 4), Symbol(x % 4 * 16 + y / 16), Symbol(y % 16 * 4 +
            z / 64), Symbol(z % 64), last) == Some([x, y, z])
  {
    UnpackOfPack(x, y, z);
    SymbolOfValue(x / 4);
    SymbolOfValue(x % 4 * 16 + y / 16);
    SymbolOfValue(y % 16 * 4 + z / 64);
    SymbolOfValue(z % 64);
  }

  lemma QuadOfPair(x: Byte, y: Byte)
    ensures DecodeQuad(Symbol(x / 4), Symbol(x % 4 * 16 + y / 16), Symbol(y % 16 * 4), '=', true) == Some([x, y])
  {
    UnpackOfPack(x, y, 0);
    SymbolOfValue(x / 4);
    SymbolOfValue(x % 4 * 16 + y / 16);
    SymbolOfValue(y % 16 * 4);
    assert [x, y, 0][..2] == [x, y];
  }

  lemma QuadOfOne(x: Byte)
    ensures DecodeQuad(Symbol(x / 4), Symbol(x % 4 * 16), '=', '=', true) == Some([x])
  {
    UnpackOfPack(x, 0, 0);
    SymbolOfValue(x / 4);
    SymbolOfValue(x % 4 * 16);
    assert [x, 0, 0][..1] == [x];
  }

  lemma {:induction false} DecodeOfEncode(b: Bytes)
    ensures Decode(Encode(b)) == Some(b)
  {
    hide Symbol, DecodeQuad;
    var s := Encode(b);
    if |b| == 1 {
      QuadOfOne(b[0]);
      assert s[4..] == "" && [b[0]] + [] == b;
    } else if |b| == 2 {
      QuadOfPair(b[0], b[1]);
      assert s[4..] == "" && [b[0], b[1]] + [] == b;
    } else if |b| > 2 {
      QuadOfTriple(b[0], b[1], b[2], |s| == 4);
      DecodeOfEncode(b[3..]);
      assert s[4..] == Encode(b[3..]);
      assert [b[0], b[1], b[2]] + b[3..] == b;
    }
  }
}
