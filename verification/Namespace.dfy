/** Namespacing of names and URIs (yamp/namespace.py). */
module Namespace {
  import opened Basics

  const DELIMITER := "__"

  predicate IdChar(c: char) {
    'A' <= c <= 'Z' || 'a' <= c <= 'z' || '0' <= c <= '9' || c == '_' || c == '-'
  }

  predicate ValidBackendId(id: string) {
    |id| > 0 && (forall i :: 0 <= i < |id| ==> IdChar(id[i])) && Partition(id, DELIMITER).None?
  }

  const UPPER := "ABCDEFGHIJKLMNOPQRSTUVWXYZ"

  const LOWER := "abcdefghijklmnopqrstuvwxyz"

  const DIGITS := "0123456789"

  predicate Letters(s: string, first: char) { forall i :: 0 <= i < |s| ==> s[i] as int == first as int + i }

  lemma InRun(s: string, first: char, c: char)
    requires Letters(s, first)
    ensures c in s <==> 0 <= c as int - first as int < |s|
  {
    if 0 <= c as int - first as int < |s| { assert s[c as int - first as int] == c; }
  }

  lemma Runs()
    ensures Letters(UPPER, 'A') && Letters(LOWER, 'a') && Letters(DIGITS, '0')
    ensures |UPPER| == |LOWER| == 26 && |DIGITS| == 10
  {
  }

  /** A valid id is letters, digits, underscores and hyphens, at least one of them, and
      cannot be cut around the delimiter. */
  lemma ValidIdMeaning(id: string)
    ensures ValidBackendId(id) <==>
            && id != ""
            && (forall i :: 0 <= i < |id| ==>
                  id[i] in UPPER || id[i] in LOWER || id[i] in DIGITS || id[i] in {'_', '-'})
            && forall before, after :: id != before + "__" + after
  {
    Runs();
    hide Letters;
    forall i | 0 <= i < |id|
      ensures IdChar(id[i]) <==> id[i] in UPPER || id[i] in LOWER || id[i] in DIGITS || id[i] in {'_', '-'}
    {
      InRun(UPPER, 'A', id[i]);
      InRun(LOWER, 'a', id[i]);
      InRun(DIGITS, '0', id[i]);
    }
    hide IdChar;
    if Partition(id, "__").Some? {
      assert id == Partition(id, "__").value.0 + "__" + Partition(id, "__").value.1;
    }
    forall before, after | id == before + "__" + after ensures Partition(id, "__").Some? {
      assert id[|before|..|before| + 2] == "__";
      assert OccursAt(id, "__", |before|);
    }
  }

  function Prefix(backendId: string, name: string): string {
    backendId + DELIMITER + name
  }

  function Split(name: string): Option<(string, string)> {
    match Partition(name, DELIMITER)
    case None => None
    case Some((id, original)) => if id == "" || original == "" then None else Some((id, original))
  }

  /** An id whose names survive the round trip. A valid id may still end in one
      underscore, and then the first delimiter is found one character early. */
  predicate RoutableId(id: string) {
    id != "" && Partition(id, DELIMITER).None? && id[|id| - 1] != '_'
  }

  /** Where a delimiter starts inside the id of a prefixed name. */
  lemma DelimiterIn(id: string, name: string, j: nat)
    ensures j < |id| ==> (OccursAt(Prefix(id, name), DELIMITER, j) <==>
            OccursAt(id, DELIMITER, j) || (j == |id| - 1 && id[j] == '_'))
    ensures OccursAt(id, DELIMITER, j) ==> j < |id| - 1
  {
    var s := Prefix(id, name);
    if j < |id| - 1 {
      assert s[j..j + 2] == id[j..j + 2];
    } else if j == |id| - 1 {
      assert s[j..j + 2] == [id[j], '_'];
    }
  }

  /** Listing under a prefix and splitting again gives back the lister and the
      original name, for exactly the routable ids and non-empty names. */
  lemma SplitOfPrefix(id: string, name: string)
    ensures Split(Prefix(id, name)) == Some((id, name)) <==> RoutableId(id) && name != ""
  {
    hide OccursAt;
    PartitionAt(id, DELIMITER, name);
    forall j: nat
      ensures j < |id| ==> (OccursAt(Prefix(id, name), DELIMITER, j) <==>
              OccursAt(id, DELIMITER, j) || (j == |id| - 1 && id[j] == '_'))
      ensures OccursAt(id, DELIMITER, j) ==> j < |id| - 1
    {
      DelimiterIn(id, name, j);
    }
    if id != "" { DelimiterIn(id, name, |id| - 1); }
  }

  /** `prefix` undoes every successful `split`. */
  lemma PrefixOfSplit(name: string)
    requires Split(name).Some?
    ensures Prefix(Split(name).value.0, Split(name).value.1) == name
    ensures Split(name).value.0 != "" && Split(name).value.1 != ""
    ensures Partition(Split(name).value.0, DELIMITER).None?
  {
    var p := Split(name).value;
    PartitionAt(p.0, DELIMITER, p.1);
    forall j: nat | OccursAt(p.0, DELIMITER, j) ensures false {
      assert name[j..j + 2] == p.0[j..j + 2];
      assert OccursAt(name, DELIMITER, j);
    }
  }

  /** Prefixed names of different backends never clash. */
  lemma PrefixInjective(id: string, name: string, id': string, name': string)
    requires RoutableId(id) && RoutableId(id') && name != "" && name' != ""
    ensures Prefix(id, name) == Prefix(id', name') <==> id == id' && name == name'
  {
    SplitOfPrefix(id, name);
    SplitOfPrefix(id', name');
  }

  /** A valid id is routable unless it ends in an underscore. */
  lemma ValidIsRoutable(id: string)
    requires ValidBackendId(id)
    ensures RoutableId(id) <==> id[|id| - 1] != '_'
  {
  }

  /** Two valid ids whose listings do clash: a trailing underscore is enough. */
  lemma TrailingUnderscoreClash()
    ensures ValidBackendId("a_") && ValidBackendId("a")
    ensures Prefix("a_", "x") == Prefix("a", "_x")
    ensures Split(Prefix("a_", "x")) == Some(("a", "_x"))
  {
    PartitionAt("a", DELIMITER, "_x");
    var s := "a" + DELIMITER + "_x";
    assert s == Prefix("a_", "x");
    assert s[0..2] == "a_";
    assert !OccursAt(s, DELIMITER, 0);
    assert !OccursAt("a_", DELIMITER, 0) && !OccursAt("a", DELIMITER, 0);
  }

  const SCHEME_SEP := "://"

  /** Insert an id as the first path segment of `authority/path`. */
  function InsertSegment(id: string, rest: string): string {
    match Partition(rest, "/")
    case None => rest + "/" + id
    case Some((authority, path)) => authority + "/" + (id + "/" + path)
  }

  /** Take the first path segment out again. */
  function TakeSegment(rest: string): Option<(string, string)> {
    match Partition(rest, "/")
    case None => None
    case Some((authority, path)) =>
      match Partition(path, "/")
      case None => if path == "" then None else Some((path, authority))
      case Some((id, remainder)) => if id == "" then None else Some((id, authority + "/" + remainder))
  }

  function PrefixUri(backendId: string, uri: string): string {
    match Partition(uri, SCHEME_SEP)
    case None => uri
    case Some((scheme, rest)) => scheme + SCHEME_SEP + InsertSegment(backendId, rest)
  }

  function SplitUri(uri: string): Option<(string, string)> {
    match Partition(uri, SCHEME_SEP)
    case None => None
    case Some((scheme, rest)) =>
      match TakeSegment(rest)
      case None => None
      case Some((id, original)) => Some((id, scheme + SCHEME_SEP + original))
  }

  lemma OccursInFront(head: string, tail: string, sep: string, j: nat)
    requires j + |sep| <= |head|
    ensures OccursAt(head + tail, sep, j) <==> OccursAt(head, sep, j)
  {
  }

  /** Everything up to and including the first scheme separator decides where the
      separator is found, whatever follows it. */
  lemma SchemeStays(scheme: string, rest: string, rest': string)
    requires Partition(scheme + SCHEME_SEP + rest, SCHEME_SEP) == Some((scheme, rest))
    ensures Partition(scheme + SCHEME_SEP + rest', SCHEME_SEP) == Some((scheme, rest'))
  {
    hide OccursAt, Partition;
    var s, s' := scheme + SCHEME_SEP + rest, scheme + SCHEME_SEP + rest';
    PartitionAt(scheme, SCHEME_SEP, rest);
    PartitionAt(scheme, SCHEME_SEP, rest');
    forall j: nat | j < |scheme| ensures OccursAt(s, SCHEME_SEP, j) <==> OccursAt(s', SCHEME_SEP, j) {
      OccursInFront(scheme + SCHEME_SEP, rest, SCHEME_SEP, j);
      OccursInFront(scheme + SCHEME_SEP, rest', SCHEME_SEP, j);
    }
  }

  lemma TakeOfInsert(id: string, rest: string)
    ensures TakeSegment(InsertSegment(id, rest)) == Some((id, rest)) <==> id != "" && '/' !in id
  {
    match Partition(rest, "/")
    case None =>
      PartitionUnitNone(rest, '/');
      PartitionUnit(rest, '/', id);
      PartitionUnitNone(id, '/');
      if '/' in id { PartitionUnitParts(id, '/'); }
    case Some((authority, path)) =>
      PartitionUnitParts(rest, '/');
      PartitionUnit(authority, '/', id + "/" + path);
      assert authority + "/" + (id + "/" + path) == authority + ['/'] + (id + "/" + path);
      PartitionUnit(id, '/', path);
      PartitionUnitNone(id + "/" + path, '/');
      PartitionUnitParts(id + "/" + path, '/');
      assert rest == authority + "/" + path;
  }

  lemma InsertOfTake(rest: string)
    requires TakeSegment(rest).Some?
    ensures InsertSegment(TakeSegment(rest).value.0, TakeSegment(rest).value.1) == rest
  {
    var (authority, path) := Partition(rest, "/").value;
    PartitionUnitParts(rest, '/');
    match Partition(path, "/")
    case None => PartitionUnitNone(authority, '/');
    case Some((id, remainder)) =>
      PartitionUnit(authority, '/', remainder);
      assert path == id + "/" + remainder;
  }

  /** A hierarchical URI survives being listed under a backend id and split again
      for exactly the non-empty ids without a slash; any other URI passes
      unprefixed and does not split. */
  lemma SplitOfPrefixUri(id: string, uri: string)
    ensures Partition(uri, SCHEME_SEP).Some? ==>
            (SplitUri(PrefixUri(id, uri)) == Some((id, uri)) <==> id != "" && '/' !in id)
    ensures Partition(uri, SCHEME_SEP).None? ==>
            PrefixUri(id, uri) == uri && SplitUri(uri).None?
  {
    if Partition(uri, SCHEME_SEP).Some? {
      var (scheme, rest) := Partition(uri, SCHEME_SEP).value;
      SchemeStays(scheme, rest, InsertSegment(id, rest));
      TakeOfInsert(id, rest);
      match TakeSegment(InsertSegment(id, rest))
      case None =>
      case Some((id', rest')) =>
        if scheme + SCHEME_SEP + rest' == uri {
          assert rest' == uri[|scheme| + 3..] == rest;
        }
    }
  }

  /** `prefix_uri` undoes every successful `split_uri`. */
  lemma PrefixUriOfSplit(uri: string)
    requires SplitUri(uri).Some?
    ensures PrefixUri(SplitUri(uri).value.0, SplitUri(uri).value.1) == uri
  {
    var (scheme, rest) := Partition(uri, SCHEME_SEP).value;
    InsertOfTake(rest);
    SchemeStays(scheme, rest, TakeSegment(rest).value.1);
  }
}
