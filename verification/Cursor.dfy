/** Composite cursors (yamp/variants.py): the active variant and every paginating
    backend's own cursor, as hex-encoded canonical JSON. */
module Cursor {
  import opened Basics
  import opened Bytes
  import opened Json
  import opened JsonText
  import Hex
  import Utf8

  const CURSOR_PREFIX := "yv1:"

  type BackendCursors = map<string, string>

  function Payload(variant: Option<string>, cursors: BackendCursors): Json {
    Obj(map["v" := if variant.Some? then Str(variant.value) else Null,
            "c" := Obj(map id | id in cursors :: Str(cursors[id]))])
  }

  function BindCursor(variant: Option<string>, cursors: BackendCursors): string {
    CURSOR_PREFIX + Hex.Encode(Utf8.Encode(Print(Payload(variant, cursors))))
  }

  /** The string-valued entries of an object. */
  function StringEntries(fields: Object): BackendCursors {
    map k | k in fields && fields[k].Str? :: fields[k].s
  }

  /** None for anything the proxy could not have minted. */
  function ResolveCursor(cursor: Json): Option<(Option<string>, BackendCursors)> {
    if !cursor.Str? || !StartsWith(cursor.s, CURSOR_PREFIX) then None
    else match Hex.Decode(cursor.s[|CURSOR_PREFIX|..])
      case None => None
      case Some(bytes) =>
        match Utf8.Decode(bytes)
        case None => None
        case Some(text) =>
          match Loads(text)
          case None => None
          case Some(payload) =>
            if !payload.Obj? || "c" !in payload.fields || !payload.fields["c"].Obj? then None
            else
              var v := GetOrNull(payload.fields, "v");
              var variant := if v.Str? then Some(v.s) else None;
              Some((variant, StringEntries(payload.fields["c"].fields)))
  }

  lemma ReadPayload(variant: Option<string>, cursors: BackendCursors)
    ensures var payload := Payload(variant, cursors);
            && Printable(payload) && payload.Obj? && "c" in payload.fields && payload.fields["c"].Obj?
            && StringEntries(payload.fields["c"].fields) == cursors
            && "v" in payload.fields
            && payload.fields["v"] == if variant.Some? then Str(variant.value) else Null
  {
  }

  /** Main result: resolving a bound cursor gives back the variant and the cursors,
      whatever characters they hold. */
  lemma CursorRoundTrip(variant: Option<string>, cursors: BackendCursors)
    ensures ResolveCursor(Str(BindCursor(variant, cursors))) == Some((variant, cursors))
  {
    hide Hex.Encode, Hex.Decode, Utf8.Encode, Utf8.Decode, Print, Loads, Printable, Payload, StringEntries;
    var payload := Payload(variant, cursors);
    var bytes := Utf8.Encode(Print(payload));
    var cursor := BindCursor(variant, cursors);
    assert cursor[|CURSOR_PREFIX|..] == Hex.Encode(bytes);
    Hex.DecodeOfEncode(bytes);
    Utf8.DecodeOfEncode(Print(payload));
    ReadPayload(variant, cursors);
    LoadsOfPrint(payload);
  }

  lemma BindCursorInjective(variant: Option<string>, cursors: BackendCursors, variant': Option<string>,
                            cursors': BackendCursors)
    ensures BindCursor(variant, cursors) == BindCursor(variant', cursors') <==>
            variant == variant' && cursors == cursors'
  {
    CursorRoundTrip(variant, cursors);
    CursorRoundTrip(variant', cursors');
  }

  /** A backend's raw cursor is not mistaken for a bound one unless it carries the
      prefix and nothing but hexadecimal text after it. */
  lemma RawCursorRejected(s: string, i: nat)
    requires i < |s|
    requires i >= |CURSOR_PREFIX| ==> Hex.HexValue(s[i]).None? && !Hex.Space(s[i])
    requires i < |CURSOR_PREFIX| ==> s[i] != CURSOR_PREFIX[i]
    ensures ResolveCursor(Str(s)).None?
  {
    if StartsWith(s, CURSOR_PREFIX) {
      assert forall j :: 0 <= j < |CURSOR_PREFIX| ==> s[j] == s[..|CURSOR_PREFIX|][j];
      Hex.DecodeRejects(s[|CURSOR_PREFIX|..], i - |CURSOR_PREFIX|);
    }
  }

  /** Nor is one with an odd number of hexadecimal digits. */
  lemma OddDigitsRejected(s: string)
    requires StartsWith(s, CURSOR_PREFIX) && Hex.DigitCount(s[|CURSOR_PREFIX|..]) % 2 == 1
    ensures ResolveCursor(Str(s)).None?
  {
    hide Hex.Decode, Hex.DigitCount, Utf8.Decode, Loads, StringEntries;
    if Hex.Decode(s[|CURSOR_PREFIX|..]).Some? { Hex.DecodePairs(s[|CURSOR_PREFIX|..]); }
  }

  predicate HoldsCursors(payload: Json) { payload.Obj? && "c" in payload.fields && payload.fields["c"].Obj? }

  /** Bytes in hexadecimal resolve if and only if they are the UTF-8 encoding of a
      JSON object whose `c` is an object: bad UTF-8, malformed JSON and JSON of
      another shape do not. */
  lemma ResolvesExactly(bytes: Bytes)
    ensures ResolveCursor(Str(CURSOR_PREFIX + Hex.Encode(bytes))).Some? <==>
            exists text :: Utf8.Encode(text) == bytes && Loads(text).Some? && HoldsCursors(Loads(text).value)
  {
    hide Hex.Encode, Hex.Decode, Utf8.Encode, Utf8.Decode, Loads, StringEntries;
    var cursor := CURSOR_PREFIX + Hex.Encode(bytes);
    assert cursor[|CURSOR_PREFIX|..] == Hex.Encode(bytes);
    Hex.DecodeOfEncode(bytes);
    if Utf8.Decode(bytes).Some? { Utf8.EncodeOfDecode(bytes); }
    forall text | Utf8.Encode(text) == bytes ensures Utf8.Decode(bytes) == Some(text) {
      Utf8.DecodeOfEncode(text);
    }
  }

  /** Anything but white space after a canonical object makes it malformed. */
  lemma TrailingTextRejected(v: Json, junk: string)
    requires v.Obj? && Printable(v) && SkipSpace(junk) != ""
    ensures Loads(Print(v) + junk).None?
  {
    hide ParseValue, Printable, Print;
    PrintStarts(v);
    ParsePrinted(v, junk);
    assert (Print(v) + junk)[0] == Print(v)[0];
  }
}
