/** JSON values as Python's `json` module sees them. An object is a map, because
    dictionary equality ignores order; a number is kept as its literal text. */
module Json {
  import opened Basics

  datatype Json =
    | Null
    | Bool(b: bool)
    | Number(literal: string)
    | Str(s: string)
    | Arr(items: seq<Json>)
    | Obj(fields: map<string, Json>)

  type Object = map<string, Json>

  /** `d.get(key)` with absence kept apart from `null`. */
  function Get(fields: Object, key: string): Option<Json> {
    if key in fields then Some(fields[key]) else None
  }

  /** Whether a number literal denotes zero: only zeros before any exponent. */
  predicate ZeroLiteral(literal: string) {
    literal == "" || literal[0] in {'e', 'E'} ||
    (literal[0] in {'-', '0', '.'} && ZeroLiteral(literal[1..]))
  }

  /** Python truthiness. */
  predicate Truthy(v: Json) {
    match v
    case Null => false
    case Bool(b) => b
    case Number(literal) => !ZeroLiteral(literal)
    case Str(s) => s != ""
    case Arr(items) => items != []
    case Obj(fields) => fields != map[]
  }

  /** `d.get(key)`: a missing key reads as null. */
  function GetOrNull(fields: Object, key: string): Json {
    if key in fields then fields[key] else Null
  }

  /** A value that cannot be a dictionary key makes a lookup raise. */
  predicate Unhashable(v: Json) { v.Arr? || v.Obj? }

  /** A pair is a two-element list or a two-character string. Entries whose key is
      null, a boolean or a number are dropped: no string key can find them. */
  function DictOfPairs(items: seq<Json>): Option<Object> {
    if items == [] then Some(map[])
    else
      var last := items[|items| - 1];
      match DictOfPairs(items[..|items| - 1])
      case None => None
      case Some(fields) =>
        if last.Str? && |last.s| == 2 then Some(fields[last.s[..1] := Str(last.s[1..])])
        else if last.Arr? && |last.items| == 2 then
          var key := last.items[0];
          if key.Str? then Some(fields[key.s := last.items[1]])
          else if Unhashable(key) then None
          else Some(fields)
        else None
  }

  /** `dict(v or {})`: a falsy value counts as empty, an object is copied, and a
      list is read as key/value pairs. None stands for the TypeError or ValueError. */
  function DictOf(v: Json): Option<Object> {
    if !Truthy(v) then Some(map[])
    else match v
      case Obj(fields) => Some(fields)
      case Arr(items) => DictOfPairs(items)
      case _ => None
  }

  /** `dict(v or {})` written out: nothing, false, zero and the empty values read as
      empty, an object as itself, and any other single value raises. */
  lemma DictMeaning(v: Json)
    ensures v in [Null, Bool(false), Str(""), Arr([])] ==> DictOf(v) == Some(map[])
    ensures v.Number? ==> DictOf(v) == if ZeroLiteral(v.literal) then Some(map[]) else None
    ensures v.Obj? ==> DictOf(v) == Some(v.fields)
    ensures v.Arr? ==> DictOf(v) == DictOfPairs(v.items)
    ensures v == Bool(true) || (v.Str? && v.s != "") ==> DictOf(v) == None
  {
  }

  /** What is left of a zero: minus sign, zeros and point up to an exponent or the end. */
  lemma {:induction false} ZeroMeaning(literal: string, n: nat)
    requires n <= |literal| && (n < |literal| ==> literal[n] !in "-0.")
    requires forall i :: 0 <= i < n ==> literal[i] in "-0."
    ensures ZeroLiteral(literal) <==> n == |literal| || literal[n] in "eE"
  {
    if n > 0 {
      ZeroMeaning(literal[1..], n - 1);
    }
  }

  /** What a list item says: a key with its value, or something no key can find. */
  predicate PairOf(item: Json, key: string, value: Json) {
    item == Arr([Str(key), value]) || (|key| == 1 && value.Str? && |value.s| == 1 && item == Str(key + value.s))
  }

  predicate PairLike(item: Json) {
    (item.Str? && |item.s| == 2) || (item.Arr? && |item.items| == 2 && !item.items[0].Arr? && !item.items[0].Obj?)
  }

  /** `items[i]` is the last item about `key`. */
  ghost predicate LastPair(items: seq<Json>, i: nat, key: string, value: Json) {
    && i < |items| && PairOf(items[i], key, value)
    && forall j, v :: i < j < |items| ==> !PairOf(items[j], key, v)
  }

  /** What a list tells about a key: the value of the last pair about it, if there is one. */
  ghost predicate Tells(items: seq<Json>, key: string, found: Option<Json>) {
    match found
    case Some(value) => exists i :: LastPair(items, i, key, value)
    case None => forall i, v :: 0 <= i < |items| ==> !PairOf(items[i], key, v)
  }

  lemma TellsLast(items: seq<Json>, key: string, value: Json)
    requires items != [] && PairOf(items[|items| - 1], key, value)
    ensures Tells(items, key, Some(value))
  {
    hide PairOf;
    assert LastPair(items, |items| - 1, key, value);
  }

  lemma TellsEarlier(items: seq<Json>, key: string, found: Option<Json>)
    requires items != [] && var last := items[|items| - 1]; forall v :: !PairOf(last, key, v)
    requires Tells(items[..|items| - 1], key, found)
    ensures Tells(items, key, found)
  {
    hide PairOf;
    var n := |items| - 1;
    assert forall i :: 0 <= i < n ==> items[..n][i] == items[i];
    if found.Some? {
      var i :| LastPair(items[..n], i, key, found.value);
      assert LastPair(items, i, key, found.value);
    }
  }

  /** The key and value of an item that has them. */
  function PairIn(item: Json): Option<(string, Json)> {
    if item.Str? && |item.s| == 2 then Some((item.s[..1], Str(item.s[1..])))
    else if item.Arr? && |item.items| == 2 && item.items[0].Str? then Some((item.items[0].s, item.items[1]))
    else None
  }

  lemma PairOfIn(item: Json, key: string, value: Json)
    ensures PairOf(item, key, value) <==> PairIn(item) == Some((key, value))
  {
    if item.Str? && |item.s| == 2 { assert item.s == item.s[..1] + item.s[1..]; }
  }

  lemma LastAdded(fields: Object, items: seq<Json>)
    requires items != [] && DictOfPairs(items[..|items| - 1]) == Some(fields) && DictOfPairs(items).Some?
    ensures DictOfPairs(items).value ==
            match PairIn(items[|items| - 1]) case None => fields case Some((key, value)) => fields[key := value]
  {
  }

  /** What the last item does to a key. */
  lemma LastItem(fields: Object, items: seq<Json>, key: string)
    requires items != [] && DictOfPairs(items[..|items| - 1]) == Some(fields) && DictOfPairs(items).Some?
    ensures var last, found := items[|items| - 1], Get(DictOfPairs(items).value, key);
            || (found.Some? && PairOf(last, key, found.value))
            || (found == Get(fields, key) && forall v :: !PairOf(last, key, v))
  {
    LastAdded(fields, items);
    var last := items[|items| - 1];
    hide PairOf, PairIn, DictOfPairs;
    forall v { PairOfIn(last, key, v); }
  }

  lemma {:induction false} PairsReadable(items: seq<Json>)
    ensures DictOfPairs(items).Some? <==> forall i :: 0 <= i < |items| ==> PairLike(items[i])
  {
    if items != [] {
      PairsReadable(items[..|items| - 1]);
      assert items == items[..|items| - 1] + [items[|items| - 1]];
    }
  }

  /** A list reads as a dictionary exactly when every item is like a pair, and then
      the last pair about a key gives its value. */
  lemma {:induction false} PairsMeaning(items: seq<Json>, key: string)
    ensures DictOfPairs(items).Some? <==> forall i :: 0 <= i < |items| ==> PairLike(items[i])
    ensures DictOfPairs(items).Some? ==> Tells(items, key, Get(DictOfPairs(items).value, key))
  {
    PairsReadable(items);
    if items != [] && DictOfPairs(items).Some? {
      var front := items[..|items| - 1];
      PairsReadable(front);
      PairsMeaning(front, key);
      LastItem(DictOfPairs(front).value, items, key);
      hide Tells, PairOf, PairLike, DictOfPairs;
      var found := Get(DictOfPairs(items).value, key);
      if found.Some? && PairOf(items[|items| - 1], key, found.value) {
        TellsLast(items, key, found.value);
      } else {
        TellsEarlier(items, key, found);
      }
    }
  }
}

/** Error objects the proxy makes itself (yamp/errors.py, yamp/jsonrpc.py). */
module Errors {
  import opened Basics
  import opened Json

  /** The normalized internal error, with an optional detail. */
  function InternalError(detail: Option<string>): Json {
    var id: Object := map["errorId" := Str("E5000")];
    Obj(map["code" := Number("-32603"), "message" := Str("Internal Error"),
            "data" := Obj(if detail.Some? then id["detail" := Str(detail.value)] else id)])
  }

  function ErrorResponse(id: Json, error: Json): Json {
    Obj(map["jsonrpc" := Str("2.0"), "id" := id, "error" := error])
  }
}
