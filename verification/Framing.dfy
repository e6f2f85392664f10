/** The three message framings (yamp/transport/line.py, framed.py, sse.py) over
    finite byte streams, and the relay that bridges them (yamp/relay.py). */
module Framing {
  import opened Basics
  import opened Bytes
  import opened Decimal

  const CRLF: Bytes := [CR, LF]

  const HEADER_END: Bytes := [CR, LF, CR, LF]

  const MAX_FRAME_BYTES := 64 * 1024 * 1024

  /** `Content-Length`, as sent and as compared. */
  const LENGTH_NAME: Bytes := [67, 111, 110, 116, 101, 110, 116, 45, 76, 101, 110, 103, 116, 104]

  const LENGTH_KEY: Bytes := [99, 111, 110, 116, 101, 110, 116, 45, 108, 101, 110, 103, 116, 104]

  /** `data:` */
  const DATA: Bytes := [100, 97, 116, 97, 58]

  datatype Framing = Line | ContentLength | Sse

  /** The outcome of one `receive`; Malformed stands for the ValueError. */
  datatype Received = Message(payload: Bytes) | EndOfStream | Malformed

  // ---- Newline framing ----

  function EncodeLine(payload: Bytes): Bytes { payload + [LF] }

  function ReceiveLine(buf: Bytes): (Received, Bytes) {
    match Partition(buf, [LF])
    case None => (if buf == [] then EndOfStream else Message(buf), [])
    case Some((line, rest)) => (Message(line), rest)
  }

  // ---- Content-Length framing ----

  function EncodeFramed(payload: Bytes): Bytes {
    LENGTH_NAME + [COLON, SPACE] + Ascii(Print(|payload|)) + HEADER_END + payload
  }

  /** A header line that names the content length, with its value. */
  function LengthField(line: Bytes): Option<Bytes> {
    match Partition(line, [COLON])
    case None => None
    case Some((name, value)) => if Lower(Strip(name)) == LENGTH_KEY then Some(Strip(value)) else None
  }

  /** The length declared by the first line that declares one; None if that value
      is unusable or there is no such line. */
  function DeclaredLength(lines: seq<Bytes>): Option<nat> {
    if lines == [] then None
    else match LengthField(lines[0])
         case None => DeclaredLength(lines[1..])
         case Some(value) =>
           match ParseInt(value)
           case None => None
           case Some(n) => if 0 <= n <= MAX_FRAME_BYTES then Some(n) else None
  }

  function ReceiveFramed(buf: Bytes): (Received, Bytes) {
    match Partition(buf, HEADER_END)
    case None => (EndOfStream, [])
    case Some((head, rest)) =>
      match DeclaredLength(SplitOn(head + HEADER_END, CRLF))
      case None => (Malformed, rest)
      case Some(n) =>
        if n <= |rest| then (Message(rest[..n]), rest[n..])
        else (if rest == [] then EndOfStream else Message(rest), [])
  }

  // ---- Server-sent events ----

  function DataLine(part: Bytes): Bytes { DATA + [SPACE] + part + [LF] }

  function EncodeParts(parts: seq<Bytes>): Bytes {
    if parts == [] then [] else DataLine(parts[0]) + EncodeParts(parts[1..])
  }

  function EncodeSse(payload: Bytes): Bytes { EncodeParts(SplitOn(payload, [LF])) + [LF] }

  function FieldValue(line: Bytes): Bytes
    requires StartsWith(line, DATA)
  {
    var value := line[|DATA|..];
    if value != [] && value[0] == SPACE then value[1..] else value
  }

  function ReceiveSse(buf: Bytes, data: seq<Bytes>): (Received, Bytes)
    decreases |buf|
  {
    match Partition(buf, [LF])
    case None =>
      var partial := StripLineEnd(buf);
      var all := if StartsWith(partial, DATA) then data + [FieldValue(partial)] else data;
      (if all != [] then Message(Join(all, [LF])) else EndOfStream, [])
    case Some((before, rest)) =>
      var line := StripLineEnd(before + [LF]);
      if line == [] then
        if data != [] then (Message(Join(data, [LF])), rest) else ReceiveSse(rest, data)
      else if line[0] == COLON then ReceiveSse(rest, data)
      else if StartsWith(line, DATA) then ReceiveSse(rest, data + [FieldValue(line)])
      else ReceiveSse(rest, data)
  }

  // ---- Any framing ----

  function Encode(f: Framing, payload: Bytes): Bytes {
    match f
    case Line => EncodeLine(payload)
    case ContentLength => EncodeFramed(payload)
    case Sse => EncodeSse(payload)
  }

  function ReceiveOne(f: Framing, buf: Bytes): (Received, Bytes) {
    match f
    case Line => ReceiveLine(buf)
    case ContentLength => ReceiveFramed(buf)
    case Sse => ReceiveSse(buf, [])
  }

  /** What each framing can carry. */
  predicate Carries(f: Framing, payload: Bytes) {
    match f
    case Line => LF !in payload
    case ContentLength => |payload| <= MAX_FRAME_BYTES
    case Sse => forall part :: part in SplitOn(payload, [LF]) ==> part == [] || part[|part| - 1] != CR
  }

  lemma LineExact(payload: Bytes, rest: Bytes)
    ensures ReceiveLine(EncodeLine(payload) + rest) == (Message(payload), rest) <==> LF !in payload
  {
    assert EncodeLine(payload) + rest == payload + [LF] + rest;
    PartitionUnit(payload, LF, rest);
    PartitionUnitNone(payload + [LF] + rest, LF);
  }

  lemma LengthNameIsKey()
    ensures COLON !in LENGTH_NAME && Lower(Strip(LENGTH_NAME)) == LENGTH_KEY
  {
    assert StripLeft(LENGTH_NAME) == LENGTH_NAME && StripRight(LENGTH_NAME) == LENGTH_NAME;
  }

  lemma LengthHeaderReads(digits: Bytes)
    requires digits != [] && forall i :: 0 <= i < |digits| ==> DigitByte(digits[i])
    ensures LengthField(LENGTH_NAME + [COLON, SPACE] + digits) == Some(digits)
  {
    hide Strip, Lower, Partition, DigitByte;
    LengthNameIsKey();
    var line := LENGTH_NAME + [COLON, SPACE] + digits;
    assert line == LENGTH_NAME + [COLON] + ([SPACE] + digits);
    PartitionUnit(LENGTH_NAME, COLON, [SPACE] + digits);
    StripOfDigits(digits);
  }

  lemma NoEarlyCr(head: Bytes, sep: Bytes, rest: Bytes)
    requires CR !in head && sep != [] && sep[0] == CR
    ensures Partition(head + sep + rest, sep) == Some((head, rest))
  {
    var s := head + sep + rest;
    PartitionAt(head, sep, rest);
    forall j: nat | j < |head| ensures !OccursAt(s, sep, j) {
      assert s[j] == head[j] != CR;
      if j + |sep| <= |s| {
        assert s[j..j + |sep|][0] == s[j];
      }
    }
  }

  /** A header written for `n` is found and read back as `n`. */
  lemma HeaderReads(n: nat, body: Bytes)
    ensures var head := LENGTH_NAME + [COLON, SPACE] + Ascii(Print(n));
            && Partition(head + HEADER_END + body, HEADER_END) == Some((head, body))
            && DeclaredLength(SplitOn(head + HEADER_END, CRLF)) == (if n <= MAX_FRAME_BYTES then Some(n) else None)
  {
    var digits := Ascii(Print(n));
    var head := LENGTH_NAME + [COLON, SPACE] + digits;
    assert forall i :: 0 <= i < |digits| ==> DigitByte(digits[i]);
    assert CR !in head;
    NoEarlyCr(head, HEADER_END, body);
    assert head + HEADER_END == head + CRLF + CRLF;
    NoEarlyCr(head, CRLF, CRLF);
    assert SplitOn(head + HEADER_END, CRLF)[0] == head;
    LengthHeaderReads(digits);
    ParseOfPrint(n);
  }

  lemma FramedExact(payload: Bytes, rest: Bytes)
    ensures |payload| <= MAX_FRAME_BYTES ==> ReceiveFramed(EncodeFramed(payload) + rest) == (Message(payload), rest)
    ensures |payload| > MAX_FRAME_BYTES ==> ReceiveFramed(EncodeFramed(payload) + rest).0 == Malformed
  {
    var head := LENGTH_NAME + [COLON, SPACE] + Ascii(Print(|payload|));
    assert EncodeFramed(payload) + rest == head + HEADER_END + (payload + rest);
    HeaderReads(|payload|, payload + rest);
    assert (payload + rest)[..|payload|] == payload && (payload + rest)[|payload|..] == rest;
  }

  function Cleaned(parts: seq<Bytes>): (r: seq<Bytes>)
    ensures |r| == |parts| && forall i :: 0 <= i < |parts| ==> r[i] == StripLineEnd(parts[i])
  {
    seq(|parts|, i requires 0 <= i < |parts| => StripLineEnd(parts[i]))
  }

  lemma {:induction false} StripDataLine(part: Bytes)
    ensures StripLineEnd(DATA + [SPACE] + part) == DATA + [SPACE] + StripLineEnd(part)
  {
    var line := DATA + [SPACE] + part;
    if part != [] && (part[|part| - 1] == CR || part[|part| - 1] == LF) {
      assert line[..|line| - 1] == DATA + [SPACE] + part[..|part| - 1];
      StripDataLine(part[..|part| - 1]);
    }
  }

  lemma SseTakesLine(before: Bytes, data: seq<Bytes>, rest: Bytes)
    requires LF !in before && StartsWith(StripLineEnd(before), DATA)
    ensures ReceiveSse(before + [LF] + rest, data) == ReceiveSse(rest, data + [FieldValue(StripLineEnd(before))])
  {
    hide Partition, FieldValue;
    PartitionUnit(before, LF, rest);
    assert (before + [LF])[..|before|] == before;
    var line := StripLineEnd(before);
    assert line[0] == line[..|DATA|][0] == DATA[0];
  }

  /** Reading one `data:` line takes in its value, cleaned. */
  lemma SseDataLine(part: Bytes, data: seq<Bytes>, rest: Bytes)
    requires LF !in part
    ensures ReceiveSse(DataLine(part) + rest, data) == ReceiveSse(rest, data + [StripLineEnd(part)])
  {
    hide ReceiveSse, StripLineEnd;
    StripDataLine(part);
    var read := DATA + [SPACE] + StripLineEnd(part);
    assert read[..|DATA|] == DATA && read[|DATA|..][1..] == StripLineEnd(part);
    SseTakesLine(DATA + [SPACE] + part, data, rest);
  }

  /** A blank line ends an event that has data. */
  lemma SseBlankLine(data: seq<Bytes>, rest: Bytes)
    requires data != []
    ensures ReceiveSse([LF] + rest, data) == (Message(Join(data, [LF])), rest)
  {
  }

  lemma CleanedStep(data: seq<Bytes>, parts: seq<Bytes>)
    requires parts != []
    ensures (data + [StripLineEnd(parts[0])]) + Cleaned(parts[1..]) == data + Cleaned(parts)
  {
  }

  lemma Regroup(a: Bytes, b: Bytes, c: Bytes, d: Bytes)
    ensures (a + b) + c + d == a + (b + c + d)
  {
  }

  lemma {:induction false} SseParts(parts: seq<Bytes>, data: seq<Bytes>, rest: Bytes)
    requires data + parts != []
    requires forall i :: 0 <= i < |parts| ==> LF !in parts[i]
    ensures ReceiveSse(EncodeParts(parts) + [LF] + rest, data) == (Message(Join(data + Cleaned(parts), [LF])), rest)
    decreases |parts|
  {
    var buf := EncodeParts(parts) + [LF] + rest;
    if parts == [] {
      assert buf == [LF] + rest;
      SseBlankLine(data, rest);
      assert data + Cleaned(parts) == data;
    } else {
      var rest' := EncodeParts(parts[1..]) + [LF] + rest;
      Regroup(DataLine(parts[0]), EncodeParts(parts[1..]), [LF], rest);
      SseDataLine(parts[0], data, rest');
      var data' := data + [StripLineEnd(parts[0])];
      SseParts(parts[1..], data', rest);
      CleanedStep(data, parts);
    }
  }

  lemma StripShorter(part: Bytes)
    ensures StripLineEnd(part) == part || |StripLineEnd(part)| < |part|
  {
  }

  lemma {:induction false} CleanedShorter(parts: seq<Bytes>)
    ensures |Join(Cleaned(parts), [LF])| <= |Join(parts, [LF])|
    ensures Cleaned(parts) != parts ==> |Join(Cleaned(parts), [LF])| < |Join(parts, [LF])|
  {
    hide StripLineEnd, Cleaned;
    if parts != [] {
      StripShorter(parts[0]);
      CleanedShorter(parts[1..]);
      assert Cleaned(parts) == [StripLineEnd(parts[0])] + Cleaned(parts[1..]);
      assert parts == [parts[0]] + parts[1..];
    }
  }

  lemma StripSame(part: Bytes)
    ensures StripLineEnd(part) == part <==> part == [] || (part[|part| - 1] != CR && part[|part| - 1] != LF)
  {
    if part != [] { StripShorter(part[..|part| - 1]); }
  }

  /** Cleaning changes nothing exactly when no line ends in a carriage return. */
  lemma CleanedSame(parts: seq<Bytes>)
    requires forall i :: 0 <= i < |parts| ==> LF !in parts[i]
    ensures Cleaned(parts) == parts <==> forall part :: part in parts ==> part == [] || part[|part| - 1] != CR
  {
    hide StripLineEnd;
    forall i | 0 <= i < |parts|
      ensures Cleaned(parts)[i] == parts[i] <==> parts[i] == [] || parts[i][|parts[i]| - 1] != CR
    {
      StripSame(parts[i]);
    }
  }

  lemma SplitLines(payload: Bytes)
    ensures Join(SplitOn(payload, [LF]), [LF]) == payload
    ensures forall part :: part in SplitOn(payload, [LF]) ==> LF !in part
  {
    JoinOfSplit(payload, [LF]);
    forall part | part in SplitOn(payload, [LF]) ensures LF !in part {
      PartitionUnitNone(part, LF);
    }
  }

  /** An event carries its payload with the carriage returns at the end of every
      line removed. */
  lemma SseExact(payload: Bytes, rest: Bytes)
    ensures ReceiveSse(EncodeSse(payload) + rest, []) == (Message(Join(Cleaned(SplitOn(payload, [LF])), [LF])), rest)
    ensures ReceiveSse(EncodeSse(payload) + rest, []) == (Message(payload), rest) <==> Carries(Sse, payload)
  {
    hide ReceiveSse, Join, SplitOn, EncodeParts, Cleaned;
    var parts := SplitOn(payload, [LF]);
    SplitLines(payload);
    assert EncodeSse(payload) + rest == EncodeParts(parts) + [LF] + rest;
    assert [] + Cleaned(parts) == Cleaned(parts);
    SseParts(parts, [], rest);
    CleanedShorter(parts);
    CleanedSame(parts);
  }

  /** A payload that SSE framing shortens. */
  lemma SseDropsTrailingCr()
    ensures ReceiveSse(EncodeSse([65, CR]), []) == (Message([65]), [])
  {
    var payload: Bytes := [65, CR];
    assert EncodeSse(payload) + [] == EncodeSse(payload);
    PartitionUnitNone(payload, LF);
    assert SplitOn(payload, [LF]) == [payload];
    assert payload[..1] == [65] && StripLineEnd(payload) == [65];
    assert Cleaned([payload]) == [[65]];
    SseExact(payload, []);
  }

  /** A payload survives one framing, whatever follows it on the stream, exactly
      when the framing carries it. */
  lemma FramingExact(f: Framing, payload: Bytes, rest: Bytes)
    ensures ReceiveOne(f, Encode(f, payload) + rest) == (Message(payload), rest) <==> Carries(f, payload)
  {
    match f
    case Line => LineExact(payload, rest);
    case ContentLength => FramedExact(payload, rest);
    case Sse => SseExact(payload, rest);
  }

  lemma {:induction false} SseProgress(buf: Bytes, data: seq<Bytes>)
    ensures var (r, rest) := ReceiveSse(buf, data);
            && r != Malformed
            && |rest| <= |buf| && (buf != [] ==> |rest| < |buf|)
            && (buf == [] && data == [] ==> r == EndOfStream)
    decreases |buf|
  {
    match Partition(buf, [LF])
    case None =>
    case Some((before, rest)) =>
      var line := StripLineEnd(before + [LF]);
      if line == [] {
        if data == [] { SseProgress(rest, data); }
      } else if line[0] != COLON && StartsWith(line, DATA) {
        SseProgress(rest, data + [FieldValue(line)]);
      } else {
        SseProgress(rest, data);
      }
  }

  lemma FramedProgress(buf: Bytes)
    ensures var (r, rest) := ReceiveFramed(buf);
            (r != EndOfStream ==> |rest| < |buf|) && |rest| <= |buf| && (buf == [] ==> r == EndOfStream)
  {
    hide DeclaredLength, SplitOn;
  }

  lemma LineProgress(buf: Bytes)
    ensures var (r, rest) := ReceiveLine(buf);
            (r != EndOfStream ==> |rest| < |buf|) && |rest| <= |buf| && (buf == [] ==> r == EndOfStream)
  {
  }

  /** Every decoder consumes something unless the stream has ended, so it reaches
      the end of any finite stream. */
  lemma Progress(f: Framing, buf: Bytes)
    ensures ReceiveOne(f, buf).0 != EndOfStream ==> |ReceiveOne(f, buf).1| < |buf|
    ensures |ReceiveOne(f, buf).1| <= |buf|
    ensures buf == [] ==> ReceiveOne(f, buf).0 == EndOfStream
  {
    hide ReceiveLine, ReceiveFramed, ReceiveSse;
    match f
    case Line => LineProgress(buf);
    case ContentLength => FramedProgress(buf);
    case Sse => SseProgress(buf, []);
  }

  /** How a stream ended: cleanly, or with an exception. */
  datatype Ending = Clean | Failed

  function DecodeAll(f: Framing, buf: Bytes): (seq<Bytes>, Ending)
    decreases |buf|
  {
    Progress(f, buf);
    match ReceiveOne(f, buf)
    case (EndOfStream, _) => ([], Clean)
    case (Malformed, _) => ([], Failed)
    case (Message(p), rest) =>
      var (later, ending) := DecodeAll(f, rest);
      ([p] + later, ending)
  }

  function EncodeAll(f: Framing, payloads: seq<Bytes>): Bytes {
    if payloads == [] then [] else Encode(f, payloads[0]) + EncodeAll(f, payloads[1..])
  }

  lemma EncodeAllCases(f: Framing, payloads: seq<Bytes>)
    ensures EncodeAll(f, payloads) ==
            if payloads == [] then [] else Encode(f, payloads[0]) + EncodeAll(f, payloads[1..])
  {
    hide Encode;
  }

  lemma NothingDecoded(f: Framing)
    ensures DecodeAll(f, []) == ([], Clean)
  {
    hide ReceiveOne;
    Progress(f, []);
  }

  lemma DecodeFirst(f: Framing, buf: Bytes, payload: Bytes, rest: Bytes)
    requires ReceiveOne(f, buf) == (Message(payload), rest)
    ensures DecodeAll(f, buf) == ([payload] + DecodeAll(f, rest).0, DecodeAll(f, rest).1)
  {
    hide ReceiveOne;
  }

  /** Decoding the concatenated encodings of any sequence of carried payloads gives
      that sequence and then a clean end of stream. */
  lemma {:induction false} StreamRoundTrip(f: Framing, payloads: seq<Bytes>)
    requires forall i :: 0 <= i < |payloads| ==> Carries(f, payloads[i])
    ensures DecodeAll(f, EncodeAll(f, payloads)) == (payloads, Clean)
  {
    hide *;
    EncodeAllCases(f, payloads);
    if payloads == [] {
      NothingDecoded(f);
    } else {
      FramingExact(f, payloads[0], EncodeAll(f, payloads[1..]));
      StreamRoundTrip(f, payloads[1..]);
      DecodeFirst(f, EncodeAll(f, payloads), payloads[0], EncodeAll(f, payloads[1..]));
      assert payloads == [payloads[0]] + payloads[1..];
    }
  }

  lemma {:induction false} EncodeAllAppend(f: Framing, payloads: seq<Bytes>, last: Bytes)
    ensures EncodeAll(f, payloads + [last]) == EncodeAll(f, payloads) + Encode(f, last)
  {
    if payloads == [] {
      assert EncodeAll(f, [last][1..]) == [];
    } else {
      assert (payloads + [last])[1..] == payloads[1..] + [last];
      EncodeAllAppend(f, payloads[1..], last);
    }
  }

  // ---- The transports ----

  /** One direction of a byte pipe: what is still to be read before end of stream. */
  class Pipe {
    var buf: Bytes
    var ended: bool

    constructor ()
      ensures buf == [] && !ended
    {
      buf, ended := [], false;
    }

    method Write(data: Bytes)
      modifies this`buf
      ensures buf == old(buf) + data
    {
      buf := buf + data;
    }

    method WriteEof()
      modifies this`ended
      ensures ended
    {
      ended := true;
    }

    /** `readuntil`: the bytes up to and including the separator, or at end of
        stream the partial rest. */
    method ReadUntil(sep: Bytes) returns (found: bool, chunk: Bytes)
      modifies this`buf
      ensures found <==> Partition(old(buf), sep).Some?
      ensures found ==> chunk == Partition(old(buf), sep).value.0 + sep && buf == Partition(old(buf), sep).value.1
      ensures !found ==> chunk == old(buf) && buf == []
    {
      match Partition(buf, sep)
      case None =>
        found, chunk, buf := false, buf, [];
      case Some((before, after)) =>
        found, chunk, buf := true, before + sep, after;
    }

    /** `readexactly`. */
    method ReadExactly(n: nat) returns (complete: bool, chunk: Bytes)
      modifies this`buf
      ensures complete <==> n <= |old(buf)|
      ensures complete ==> chunk == old(buf)[..n] && buf == old(buf)[n..]
      ensures !complete ==> chunk == old(buf) && buf == []
    {
      if n <= |buf| {
        complete, chunk, buf := true, buf[..n], buf[n..];
      } else {
        complete, chunk, buf := false, buf, [];
      }
    }
  }

  method LineReceive(pipe: Pipe) returns (r: Received)
    modifies pipe`buf
    ensures (r, pipe.buf) == ReceiveLine(old(pipe.buf))
  {
    var found, line := pipe.ReadUntil([LF]);
    if !found {
      return if line == [] then EndOfStream else Message(line);
    }
    return Message(line[..|line| - 1]);
  }

  /** The header search: the first line naming the content length decides. */
  method ParseContentLength(header: Bytes) returns (length: Option<nat>)
    ensures length == DeclaredLength(SplitOn(header, CRLF))
  {
    var lines := SplitOn(header, CRLF);
    var i := 0;
    while i < |lines|
      invariant 0 <= i <= |lines|
      invariant DeclaredLength(lines) == DeclaredLength(lines[i..])
    {
      var field := LengthField(lines[i]);
      if field.Some? {
        var n := ParseInt(field.value);
        if n.None? || n.value < 0 || n.value > MAX_FRAME_BYTES {
          return None;
        }
        return Some(n.value);
      }
      i := i + 1;
    }
    return None;
  }

  method FramedReceive(pipe: Pipe) returns (r: Received)
    modifies pipe`buf
    ensures (r, pipe.buf) == ReceiveFramed(old(pipe.buf))
  {
    var found, header := pipe.ReadUntil(HEADER_END);
    if !found {
      return EndOfStream;
    }
    var length := ParseContentLength(header);
    if length.None? {
      return Malformed;
    }
    var complete, body := pipe.ReadExactly(length.value);
    if !complete {
      return if body == [] then EndOfStream else Message(body);
    }
    return Message(body);
  }

  method SseReceive(pipe: Pipe) returns (r: Received)
    modifies pipe`buf
    ensures (r, pipe.buf) == ReceiveSse(old(pipe.buf), [])
  {
    var data: seq<Bytes> := [];
    while true
      invariant ReceiveSse(pipe.buf, data) == ReceiveSse(old(pipe.buf), [])
      decreases |pipe.buf|
    {
      var found, line := pipe.ReadUntil([LF]);
      if !found {
        var partial := StripLineEnd(line);
        if StartsWith(partial, DATA) {
          data := data + [FieldValue(partial)];
        }
        return if data != [] then Message(Join(data, [LF])) else EndOfStream;
      }
      line := StripLineEnd(line);
      if line == [] {
        if data != [] {
          return Message(Join(data, [LF]));
        }
        continue;
      }
      if line[0] == COLON {
        continue;
      }
      if StartsWith(line, DATA) {
        data := data + [FieldValue(line)];
      }
    }
  }

  method SseSend(pipe: Pipe, payload: Bytes)
    modifies pipe`buf
    ensures pipe.buf == old(pipe.buf) + EncodeSse(payload)
  {
    var parts := SplitOn(payload, [LF]);
    var out: Bytes := [];
    var i := 0;
    while i < |parts|
      invariant 0 <= i <= |parts|
      invariant out + EncodeParts(parts[i..]) == EncodeParts(parts)
    {
      out := out + DataLine(parts[i]);
      i := i + 1;
    }
    pipe.Write(out + [LF]);
  }

  method Receive(f: Framing, pipe: Pipe) returns (r: Received)
    modifies pipe`buf
    ensures (r, pipe.buf) == ReceiveOne(f, old(pipe.buf))
  {
    match f
    case Line => r := LineReceive(pipe);
    case ContentLength => r := FramedReceive(pipe);
    case Sse => r := SseReceive(pipe);
  }

  method Send(f: Framing, pipe: Pipe, payload: Bytes)
    modifies pipe`buf
    ensures pipe.buf == old(pipe.buf) + Encode(f, payload)
  {
    match f
    case Line => pipe.Write(payload + [LF]);
    case ContentLength => pipe.Write(LENGTH_NAME + [COLON, SPACE] + Ascii(Print(|payload|)) + HEADER_END + payload);
    case Sse => SseSend(pipe, payload);
  }

  // ---- The relay ----

  /** Reading `all` gives the payloads `done` and then whatever `rest` gives. */
  ghost predicate StillToCome(f: Framing, all: Bytes, done: seq<Bytes>, rest: Bytes) {
    DecodeAll(f, all) == (done + DecodeAll(f, rest).0, DecodeAll(f, rest).1)
  }

  lemma NothingRelayed(f: Framing, all: Bytes, g: Framing)
    ensures StillToCome(f, all, [], all) && EncodeAll(g, []) == []
  {
    assert [] + DecodeAll(f, all).0 == DecodeAll(f, all).0;
  }

  lemma OneMoreRelayed(f: Framing, all: Bytes, done: seq<Bytes>, rest: Bytes)
    requires StillToCome(f, all, done, rest)
    ensures var r, rest' := ReceiveOne(f, rest).0, ReceiveOne(f, rest).1;
            && (r.Message? ==> StillToCome(f, all, done + [r.payload], rest') && |rest'| < |rest|)
            && (r.EndOfStream? ==> DecodeAll(f, all) == (done, Clean))
            && (r.Malformed? ==> DecodeAll(f, all) == (done, Failed))
  {
    Progress(f, rest);
    match ReceiveOne(f, rest)
    case (Message(payload), rest') =>
      var later := DecodeAll(f, rest').0;
      assert DecodeAll(f, rest).0 == [payload] + later;
      assert done + ([payload] + later) == (done + [payload]) + later;
    case _ =>
      assert done + [] == done;
  }

  /** One direction of the relay: every message read is sent on, and a clean end of
      stream is passed along; a framing error ends the pump without one. */
  method Pump(f: Framing, src: Pipe, g: Framing, dst: Pipe) returns (ghost relayed: seq<Bytes>, failed: bool)
    requires src != dst
    modifies src`buf, dst
    ensures relayed == DecodeAll(f, old(src.buf)).0
    ensures dst.buf == old(dst.buf) + EncodeAll(g, relayed)
    ensures failed <==> DecodeAll(f, old(src.buf)).1 == Failed
    ensures dst.ended == (!failed || old(dst.ended))
  {
    hide *;
    relayed := [];
    NothingRelayed(f, src.buf, g);
    while true
      invariant dst.buf == old(dst.buf) + EncodeAll(g, relayed)
      invariant StillToCome(f, old(src.buf), relayed, src.buf)
      invariant dst.ended == old(dst.ended)
      decreases |src.buf|
    {
      ghost var before := src.buf;
      var message := Receive(f, src);
      OneMoreRelayed(f, old(src.buf), relayed, before);
      if !message.Message? {
        if message == EndOfStream {
          dst.WriteEof();
        }
        failed := message == Malformed;
        break;
      }
      Send(g, dst, message.payload);
      EncodeAllAppend(g, relayed, message.payload);
      relayed := relayed + [message.payload];
    }
  }

  /** What a relay leaves on its destination (see `Pump`). */
  function Relayed(f: Framing, buf: Bytes, g: Framing): Bytes { EncodeAll(g, DecodeAll(f, buf).0) }

  /** A stream passed through relays that bridge `f` to each framing in turn. */
  function RelayedThrough(f: Framing, buf: Bytes, hops: seq<Framing>): Bytes
    decreases |hops|
  {
    if hops == [] then buf else RelayedThrough(hops[0], Relayed(f, buf, hops[0]), hops[1..])
  }

  function LastFraming(f: Framing, hops: seq<Framing>): Framing {
    if hops == [] then f else hops[|hops| - 1]
  }

  /** Payloads that every framing on the way carries are delivered in order and
      followed by a clean end of stream, for any number of relays in a row. */
  lemma {:induction false} RelaysDeliver(f: Framing, hops: seq<Framing>, payloads: seq<Bytes>)
    requires forall i :: 0 <= i < |payloads| ==> Carries(f, payloads[i]) && forall g :: g in hops ==>
             Carries(g, payloads[i])
    ensures DecodeAll(LastFraming(f, hops), RelayedThrough(f, EncodeAll(f, payloads), hops)) == (payloads, Clean)
    decreases |hops|
  {
    hide Carries, EncodeAll, DecodeAll;
    StreamRoundTrip(f, payloads);
    if hops != [] {
      RelaysDeliver(hops[0], hops[1..], payloads);
    }
  }
}
