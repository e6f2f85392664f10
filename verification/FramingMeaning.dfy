/** What the decoders do on any bytes at all, not only on what the encoders
    write: the header of a sized frame in whatever spelling, a stream that ends in
    the middle of a message, and events with comments and other fields. */
module FramingMeaning {
  import opened Basics
  import opened Bytes
  import opened Decimal
  import opened Framing

  // ---- Lines ----

  /** A line ends at the first newline, and the end of the stream ends the last
      one; only an exhausted stream has no message. */
  lemma LineMeaning(line: Bytes, rest: Bytes)
    requires LF !in line
    ensures ReceiveLine(line + [LF] + rest) == (Message(line), rest)
    ensures ReceiveLine(line) == (if line == [] then EndOfStream else Message(line), [])
  {
    PartitionUnit(line, LF, rest);
    PartitionUnitNone(line, LF);
  }

  // ---- Sized frames ----

  predicate Blank(s: Bytes) { forall i :: 0 <= i < |s| ==> s[i] in {9, 10, 11, 12, 13, 32} }

  predicate Trimmed(s: Bytes) { s != [] ==> !Blank([s[0]]) && !Blank([s[|s| - 1]]) }

  lemma {:induction false} StripLeftOf(left: Bytes, core: Bytes)
    requires Blank(left) && (core == [] || !Blank([core[0]]))
    ensures StripLeft(left + core) == core
  {
    if left != [] {
      assert Blank(left[1..]);
      assert (left + core)[1..] == left[1..] + core;
      StripLeftOf(left[1..], core);
    } else {
      assert left + core == core;
    }
  }

  lemma {:induction false} StripRightOf(core: Bytes, right: Bytes)
    requires Blank(right) && (core == [] || !Blank([core[|core| - 1]]))
    ensures StripRight(core + right) == core
  {
    if right != [] {
      var right' := right[..|right| - 1];
      assert (core + right)[..|core + right| - 1] == core + right';
      StripRightOf(core, right');
    } else {
      assert core + right == core;
    }
  }

  /** Stripping removes the blanks on both sides and nothing else. */
  lemma StripMeaning(left: Bytes, core: Bytes, right: Bytes)
    requires Blank(left) && Trimmed(core) && Blank(right)
    ensures Strip(left + core + right) == core
  {
    if core == [] {
      assert Blank(left + right) && left + core + right == (left + right) + [];
      StripLeftOf(left + right, []);
    } else {
      assert left + core + right == left + (core + right);
      StripLeftOf(left, core + right);
      StripRightOf(core, right);
    }
  }

  /** The letters of `Content-Length`, each in upper or lower case. */
  predicate SpellsContentLength(name: Bytes) {
    && |name| == 14
    && forall i :: 0 <= i < 14 ==> name[i] == "CONTENT-LENGTH"[i] as int || name[i] == "content-length"[i] as int
  }

  lemma LowerMeaning(name: Bytes)
    ensures Lower(name) == LENGTH_KEY <==> SpellsContentLength(name)
  {
    forall i | 0 <= i < 14
      ensures LENGTH_KEY[i] == "content-length"[i] as int
      ensures |name| == 14 ==> (Lower(name)[i] == LENGTH_KEY[i] <==>
              name[i] == "CONTENT-LENGTH"[i] as int || name[i] == "content-length"[i] as int)
    {
    }
  }

  /** A header line declares a length when what stands before its first colon
      spells the name, in any case and between any blanks. */
  lemma HeaderLineMeaning(l: Bytes, name: Bytes, m: Bytes, n: Bytes, value: Bytes, r: Bytes)
    requires Blank(l) && Trimmed(name) && COLON !in name && Blank(m)
    requires Blank(n) && Trimmed(value) && Blank(r)
    ensures LengthField(l + name + m + [COLON] + (n + value + r)) ==
            (if SpellsContentLength(name) then Some(value) else None)
    ensures LengthField(l + name + m) == None
  {
    PartitionUnit(l + name + m, COLON, n + value + r);
    PartitionUnitNone(l + name + m, COLON);
    StripMeaning(l, name, m);
    StripMeaning(n, value, r);
    LowerMeaning(name);
  }

  predicate LiteralAt(s: Bytes, i: nat)
    requires i < |s|
  {
    48 <= s[i] <= 57 || (s[i] == 95 && 0 < i < |s| - 1 && s[i - 1] != 95)
  }

  /** A Python integer literal: digits, with single underscores between them. */
  predicate Literal(s: Bytes) { s != [] && forall i :: 0 <= i < |s| ==> LiteralAt(s, i) }

  /** Its digits. */
  function Digits(s: Bytes): (r: string)
    ensures AllDigits(r)
  {
    if s == [] then ""
    else Digits(s[..|s| - 1]) + if 48 <= s[|s| - 1] <= 57 then [s[|s| - 1] as char] else ""
  }

  /** A literal without its last digit and the underscore before that. */
  function Front(s: Bytes): (r: Bytes)
    requires |s| >= 2
    ensures |r| < |s| && Digits(r) == Digits(s[..|s| - 1])
  {
    var n := |s| - 1;
    assert s[..n][..n - 1] == s[..n - 1];
    if s[n - 1] == 95 then s[..n - 1] else s[..n]
  }

  lemma LiteralFront(s: Bytes, front: Bytes)
    requires |s| >= 2 && DigitByte(s[|s| - 1]) && front == Front(s)
    ensures Literal(s) <==> Literal(front)
  {
    assert LiteralAt(s, |s| - 1);
    if Literal(s) {
      assert LiteralAt(s, |s| - 2);
      assert front != [] ==> LiteralAt(s, |front| - 1);
      forall i | 0 <= i < |front| ensures LiteralAt(front, i) {
        assert LiteralAt(s, i);
      }
    }
    if Literal(front) {
      assert LiteralAt(front, |front| - 1);
      forall i | 0 <= i < |s| ensures LiteralAt(s, i) {
        assert i < |front| ==> LiteralAt(front, i);
      }
    }
  }

  lemma LiteralCases(s: Bytes)
    ensures s == [] || !DigitByte(s[|s| - 1]) ==> !Literal(s)
    ensures |s| == 1 && DigitByte(s[0]) ==> Literal(s)
    ensures |s| >= 2 && DigitByte(s[|s| - 1]) ==> (Literal(s) <==> Literal(Front(s)))
  {
    if s != [] {
      var n := |s| - 1;
      assert Literal(s) ==> LiteralAt(s, n);
      if n > 0 && DigitByte(s[n]) {
        LiteralFront(s, Front(s));
      }
    }
  }

  lemma LastDigit(s: Bytes)
    requires s != [] && DigitByte(s[|s| - 1])
    ensures Value(Digits(s)) == 10 * Value(Digits(s[..|s| - 1])) + (s[|s| - 1] - 48)
  {
    assert Digits(s)[..|Digits(s)| - 1] == Digits(s[..|s| - 1]);
  }

  lemma NoDigits()
    ensures Value(Digits([])) == 0
  {
  }

  lemma {:induction false} NaturalMeaning(s: Bytes)
    ensures ParseNat(s) == if Literal(s) then Some(Value(Digits(s))) else None
  {
    hide Literal, Value, Digits;
    LiteralCases(s);
    if s != [] && DigitByte(s[|s| - 1]) {
      LastDigit(s);
      if |s| == 1 {
        NoDigits();
      } else {
        NaturalMeaning(Front(s));
      }
    }
  }

  lemma SignedInteger(sign: Byte, s: Bytes)
    requires sign in {43, 45}
    ensures ParseInt([sign] + s).Some? <==> ParseNat(s).Some?
    ensures ParseNat(s).Some? ==>
              ParseInt([sign] + s).value == if sign == 45 then 0 - ParseNat(s).value else ParseNat(s).value
  {
    assert ([sign] + s)[1..] == s;
    hide ParseNat;
  }

  lemma UnsignedInteger(s: Bytes)
    requires s == [] || s[0] !in {43, 45}
    ensures ParseInt(s).Some? <==> ParseNat(s).Some?
    ensures ParseNat(s).Some? ==> ParseInt(s).value == ParseNat(s).value
  {
    hide ParseNat;
  }

  /** Integers as Python reads them: a literal, possibly after a sign. */
  lemma IntegerMeaning(s: Bytes)
    ensures !Literal(s) && (s == [] || s[0] !in {43, 45}) ==> ParseInt(s).None?
    ensures !Literal(s) ==> ParseInt([43] + s).None? && ParseInt([45] + s).None?
    ensures Literal(s) ==> ParseInt(s).Some? && ParseInt([43] + s).Some? && ParseInt([45] + s).Some?
    ensures Literal(s) ==>
              var n: int := Value(Digits(s));
              ParseInt(s).value == n && ParseInt([43] + s).value == n && ParseInt([45] + s).value == -n
  {
    NaturalMeaning(s);
    assert Literal(s) ==> LiteralAt(s, 0);
    hide ParseInt, ParseNat, Value, Digits, Literal;
    SignedInteger(43, s);
    SignedInteger(45, s);
    if s == [] || s[0] !in {43, 45} {
      UnsignedInteger(s);
    }
  }

  /** The first header line that declares a length decides. */
  lemma {:induction false} DeclaredMeaning(lines: seq<Bytes>, k: nat)
    requires k <= |lines| && forall i :: 0 <= i < k ==> LengthField(lines[i]).None?
    ensures k == |lines| ==> DeclaredLength(lines) == None
    ensures k < |lines| && LengthField(lines[k]).Some? ==>
              var n := ParseInt(LengthField(lines[k]).value);
              DeclaredLength(lines) == if n.Some? && 0 <= n.value <= 67108864 then Some(n.value) else None
  {
    if k > 0 {
      DeclaredMeaning(lines[1..], k - 1);
    }
  }

  /** A sized frame: the header reaches to the first blank line; no usable length
      is an error; and of a frame that the stream cuts short there remains what
      has arrived of it. */
  lemma FrameMeaning(buf: Bytes, h: nat)
    ensures (forall i: nat :: !OccursAt(buf, [CR, LF, CR, LF], i)) ==> ReceiveFramed(buf) == (EndOfStream, [])
    ensures OccursAt(buf, [CR, LF, CR, LF], h) && (forall i: nat :: i < h ==> !OccursAt(buf, [CR, LF, CR, LF], i)) ==>
              var body := buf[h + 4..];
              match DeclaredLength(SplitOn(buf[..h + 4], [CR, LF]))
              case None => ReceiveFramed(buf) == (Malformed, body)
              case Some(n) =>
                && (n <= |body| ==> ReceiveFramed(buf) == (Message(body[..n]), body[n..]))
                && (n > |body| ==> ReceiveFramed(buf) == (if body == [] then EndOfStream else Message(body), []))
  {
    if OccursAt(buf, HEADER_END, h) && forall i: nat :: i < h ==> !OccursAt(buf, HEADER_END, i) {
      assert buf == buf[..h] + HEADER_END + buf[h + 4..];
      PartitionAt(buf[..h], HEADER_END, buf[h + 4..]);
      assert buf[..h] + HEADER_END == buf[..h + 4];
    }
  }

  // ---- Events ----

  /** What a line, without its line end, adds to its event: the text after `data:`
      and one optional space. */
  predicate Adds(line: Bytes, values: seq<Bytes>) {
    if StartsWith(line, [100, 97, 116, 97, 58, SPACE]) then values == [line[6..]]
    else if StartsWith(line, [100, 97, 116, 97, 58]) then values == [line[5..]]
    else values == []
  }

  predicate LineAdds(line: Bytes, values: seq<Bytes>) { LF !in line && Adds(StripLineEnd(line), values) }

  function Terminated(lines: seq<Bytes>): Bytes {
    if lines == [] then [] else lines[0] + [LF] + Terminated(lines[1..])
  }

  lemma ValueAdded(read: Bytes, values: seq<Bytes>)
    requires Adds(read, values)
    ensures values == if StartsWith(read, DATA) then [FieldValue(read)] else []
  {
    if |read| >= 6 {
      assert read[..6] == read[..5] + [read[5]];
    }
  }

  lemma StripNewline(line: Bytes)
    ensures StripLineEnd(line + [LF]) == StripLineEnd(line)
  {
    assert (line + [LF])[..|line|] == line;
  }

  lemma OneLine(line: Bytes, values: seq<Bytes>, data: seq<Bytes>, rest: Bytes)
    requires LineAdds(line, values) && StripLineEnd(line) != []
    ensures ReceiveSse(line + [LF] + rest, data) == ReceiveSse(rest, data + values)
  {
    hide Partition, StripLineEnd, FieldValue;
    PartitionUnit(line, LF, rest);
    StripNewline(line);
    var read := StripLineEnd(line);
    ValueAdded(read, values);
    assert StartsWith(read, DATA) ==> read[0] == read[..5][0] == 100;
    assert data + [] == data;
  }

  lemma BlankLine(blank: Bytes, data: seq<Bytes>, rest: Bytes)
    requires LF !in blank && StripLineEnd(blank) == []
    ensures ReceiveSse(blank + [LF] + rest, data) ==
            if data == [] then ReceiveSse(rest, []) else (Message(Join(data, [LF])), rest)
  {
    hide Partition;
    PartitionUnit(blank, LF, rest);
    StripNewline(blank);
  }

  lemma LastLine(last: Bytes, values: seq<Bytes>, data: seq<Bytes>)
    requires LineAdds(last, values)
    ensures ReceiveSse(last, data) ==
            (if data + values == [] then EndOfStream else Message(Join(data + values, [LF])), [])
  {
    hide FieldValue, StripLineEnd;
    PartitionUnitNone(last, LF);
    ValueAdded(StripLineEnd(last), values);
    assert data + [] == data;
  }

  /** An event is the values of its data lines, joined by newlines, whatever other
      lines stand between them. A blank line ends it, and so does the end of the
      stream, even inside a data line; without data there is no event. */
  lemma {:induction false} EventMeaning(lines: seq<Bytes>, values: seq<seq<Bytes>>, data: seq<Bytes>, blank: Bytes,
                                        rest: Bytes, last: Bytes, lastValues: seq<Bytes>)
    requires |values| == |lines|
    requires forall i :: 0 <= i < |lines| ==> LineAdds(lines[i], values[i]) && StripLineEnd(lines[i]) != []
    requires LF !in blank && StripLineEnd(blank) == [] && LineAdds(last, lastValues)
    ensures var all := data + Flatten(values);
            ReceiveSse(Terminated(lines) + (blank + [LF] + rest), data) ==
            if all == [] then ReceiveSse(rest, []) else (Message(Join(all, [LF])), rest)
    ensures var all := data + Flatten(values) + lastValues;
            ReceiveSse(Terminated(lines) + last, data) ==
            (if all == [] then EndOfStream else Message(Join(all, [LF])), [])
  {
    hide ReceiveSse, StripLineEnd, LineAdds, Join;
    if lines == [] {
      BlankLine(blank, data, rest);
      LastLine(last, lastValues, data);
      assert data + Flatten(values) == data;
      assert Terminated(lines) + (blank + [LF] + rest) == blank + [LF] + rest && Terminated(lines) + last == last;
    } else {
      EventMeaning(lines[1..], values[1..], data + values[0], blank, rest, last, lastValues);
      forall tail: Bytes
        ensures ReceiveSse(Terminated(lines) + tail, data) ==
                ReceiveSse(Terminated(lines[1..]) + tail, data + values[0])
      {
        assert Terminated(lines) + tail == lines[0] + [LF] + (Terminated(lines[1..]) + tail);
        OneLine(lines[0], values[0], data, Terminated(lines[1..]) + tail);
      }
      assert data + Flatten(values) == data + values[0] + Flatten(values[1..]);
    }
  }
}
