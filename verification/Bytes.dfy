/** Bytes and the few `bytes` operations the framings use. */
module Bytes {
  import opened Basics
  import opened Decimal

  type Byte = b: int | 0 <= b < 256

  type Bytes = seq<Byte>

  const LF: Byte := 10

  const CR: Byte := 13

  const SPACE: Byte := 32

  const COLON: Byte := 58

  predicate Whitespace(b: Byte) { b == SPACE || 9 <= b <= 13 }

  function StripLeft(s: Bytes): Bytes {
    if s != [] && Whitespace(s[0]) then StripLeft(s[1..]) else s
  }

  function StripRight(s: Bytes): Bytes {
    if s != [] && Whitespace(s[|s| - 1]) then StripRight(s[..|s| - 1]) else s
  }

  /** `bytes.strip()`. */
  function Strip(s: Bytes): Bytes { StripRight(StripLeft(s)) }

  /** `bytes.rstrip(b"\r\n")`. */
  function StripLineEnd(s: Bytes): (r: Bytes)
    ensures |r| <= |s| && r == s[..|r|]
    ensures r == [] || (r[|r| - 1] != CR && r[|r| - 1] != LF)
    ensures forall i :: |r| <= i < |s| ==> s[i] == CR || s[i] == LF
  {
    if s != [] && (s[|s| - 1] == CR || s[|s| - 1] == LF) then StripLineEnd(s[..|s| - 1]) else s
  }

  /** `bytes.lower()`. */
  function Lower(s: Bytes): (r: Bytes)
    ensures |r| == |s|
  {
    seq(|s|, i requires 0 <= i < |s| => if 65 <= s[i] <= 90 then s[i] + 32 else s[i])
  }

  /** `bytes.split(sep)`. */
  function SplitOn(s: Bytes, sep: Bytes): (r: seq<Bytes>)
    requires sep != []
    ensures r != []
    decreases |s|
  {
    match Partition(s, sep)
    case None => [s]
    case Some((before, after)) => [before] + SplitOn(after, sep)
  }

  lemma {:induction false} JoinOfSplit(s: Bytes, sep: Bytes)
    requires sep != []
    ensures Join(SplitOn(s, sep), sep) == s
    ensures forall part :: part in SplitOn(s, sep) ==> Partition(part, sep).None?
    decreases |s|
  {
    match Partition(s, sep)
    case None =>
    case Some((before, after)) =>
      JoinOfSplit(after, sep);
      PartitionFront(s, sep);
      assert SplitOn(s, sep)[1..] == SplitOn(after, sep);
  }

  /** ASCII text as bytes. */
  function Ascii(s: string): (r: Bytes)
    requires AllDigits(s)
    ensures |r| == |s| && forall i :: 0 <= i < |s| ==> r[i] == s[i] as int
  {
    seq(|s|, i requires 0 <= i < |s| => s[i] as int)
  }

  predicate DigitByte(b: Byte) { 48 <= b <= 57 }

  /** The digits of a Python integer literal: single underscores may separate them. */
  function ParseNat(s: Bytes): Option<nat> {
    if s == [] || !DigitByte(s[|s| - 1]) then None
    else
      var last := s[|s| - 1] - 48;
      if |s| == 1 then Some(last)
      else
        var front := if s[|s| - 2] == 95 then s[..|s| - 2] else s[..|s| - 1];
        match ParseNat(front)
        case None => None
        case Some(n) => Some(10 * n + last)
  }

  /** `int(b)` on stripped bytes; None stands for its ValueError. */
  function ParseInt(s: Bytes): Option<int> {
    var signed := s != [] && (s[0] == 45 || s[0] == 43);
    match ParseNat(if signed then s[1..] else s)
    case None => None
    case Some(n) =>
      var value: int := if signed && s[0] == 45 then 0 - n else n;
      Some(value)
  }

  lemma {:induction false} ParseOfPrint(n: nat)
    ensures ParseNat(Ascii(Print(n))) == Some(n)
    ensures ParseInt(Ascii(Print(n))) == Some(n)
  {
    var s := Ascii(Print(n));
    assert forall i :: 0 <= i < |s| ==> DigitByte(s[i]);
    if n >= 10 {
      ParseOfPrint(n / 10);
      assert s[..|s| - 1] == Ascii(Print(n / 10));
    }
  }

  lemma StripOfDigits(digits: Bytes)
    requires digits != [] && forall i :: 0 <= i < |digits| ==> DigitByte(digits[i])
    ensures Strip([SPACE] + digits) == digits
  {
    assert ([SPACE] + digits)[1..] == digits;
    assert StripLeft(digits) == digits;
  }
}
