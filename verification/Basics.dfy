/** Shared vocabulary: optional values, first occurrence of a separator in a
    sequence (the basis of `partition`, `split` and `readuntil`), and the decimal
    printing that mints ids and frame headers. */
module Basics {
  datatype Option<+T> = None | Some(value: T)

  /** Whether `sep` is found in `s` starting at index `i`. */
  predicate OccursAt<T(==)>(s: seq<T>, sep: seq<T>, i: nat) {
    i + |sep| <= |s| && s[i..i + |sep|] == sep
  }

  predicate StartsWith<T(==)>(s: seq<T>, start: seq<T>) { |start| <= |s| && s[..|start|] == start }

  /** The first index at or after `from` where `sep` occurs. */
  function IndexFrom<T(==)>(s: seq<T>, sep: seq<T>, from: nat): (r: Option<nat>)
    requires from <= |s|
    ensures r.Some? ==> from <= r.value && OccursAt(s, sep, r.value)
    ensures r.Some? ==> forall j: nat :: from <= j < r.value ==> !OccursAt(s, sep, j)
    ensures r.None? ==> forall j: nat :: from <= j ==> !OccursAt(s, sep, j)
    decreases |s| - from
  {
    if OccursAt(s, sep, from) then Some(from)
    else if from == |s| then None
    else IndexFrom(s, sep, from + 1)
  }

  /** Split at the first occurrence of `sep`, if there is one. */
  function Partition<T(==)>(s: seq<T>, sep: seq<T>): (r: Option<(seq<T>, seq<T>)>)
    ensures r.Some? ==> s == r.value.0 + sep + r.value.1
    ensures r.None? <==> forall j: nat :: !OccursAt(s, sep, j)
  {
    match IndexFrom(s, sep, 0)
    case None => None
    case Some(i) => Some((s[..i], s[i + |sep|..]))
  }

  /** `before + sep + after` is cut after `before` exactly when no occurrence of
      `sep` starts earlier. */
  lemma PartitionAt<T>(before: seq<T>, sep: seq<T>, after: seq<T>)
    ensures Partition(before + sep + after, sep) == Some((before, after)) <==>
            forall j: nat :: j < |before| ==> !OccursAt(before + sep + after, sep, j)
  {
    var s := before + sep + after;
    assert s[|before|..|before| + |sep|] == sep;
    assert OccursAt(s, sep, |before|);
    assert s[..|before|] == before && s[|before| + |sep|..] == after;
    var i := IndexFrom(s, sep, 0).value;
    if i != |before| {
      assert i < |before|;
      assert |s[..i]| != |before|;
    }
  }

  /** What stands before the cut lacks the separator. */
  lemma PartitionFront<T>(s: seq<T>, sep: seq<T>)
    requires sep != [] && Partition(s, sep).Some?
    ensures Partition(Partition(s, sep).value.0, sep).None?
  {
    var before := Partition(s, sep).value.0;
    assert before == s[..IndexFrom(s, sep, 0).value];
    forall j: nat | j + |sep| <= |before| ensures !OccursAt(before, sep, j) {
      assert before[j..j + |sep|] == s[j..j + |sep|];
      assert !OccursAt(s, sep, j);
    }
  }

  /** A one-element separator cuts after the first stretch that lacks it. */
  lemma PartitionUnit<T>(before: seq<T>, c: T, after: seq<T>)
    ensures Partition(before + [c] + after, [c]) == Some((before, after)) <==> c !in before
  {
    var s := before + [c] + after;
    PartitionAt(before, [c], after);
    forall j: nat | j < |before| ensures OccursAt(s, [c], j) <==> before[j] == c {
      assert s[j..j + 1] == [before[j]];
    }
  }

  lemma PartitionUnitNone<T>(s: seq<T>, c: T)
    ensures Partition(s, [c]).None? <==> c !in s
  {
    forall j: nat | j < |s| ensures OccursAt(s, [c], j) <==> s[j] == c {
      assert s[j..j + 1] == [s[j]];
    }
  }

  lemma PartitionUnitParts<T>(s: seq<T>, c: T)
    requires Partition(s, [c]).Some?
    ensures c !in Partition(s, [c]).value.0
  {
    var p := Partition(s, [c]).value;
    PartitionUnit(p.0, c, p.1);
  }

  function Map<T, R>(f: T -> R, s: seq<T>): (r: seq<R>)
    ensures |r| == |s| && forall i :: 0 <= i < |s| ==> r[i] == f(s[i])
  {
    seq(|s|, i requires 0 <= i < |s| => f(s[i]))
  }

  /** The elements that satisfy `keep`, in order. */
  function Kept<T>(keep: T -> bool, s: seq<T>): seq<T> {
    if s == [] then [] else Kept(keep, s[..|s| - 1]) + if keep(s[|s| - 1]) then [s[|s| - 1]] else []
  }

  /** `sep.join(parts)`. */
  function Join<T>(parts: seq<seq<T>>, sep: seq<T>): seq<T> {
    if parts == [] then []
    else if |parts| == 1 then parts[0]
    else parts[0] + sep + Join(parts[1..], sep)
  }

  /** Concatenation of a sequence of sequences. */
  function Flatten<T>(parts: seq<seq<T>>): seq<T> {
    if parts == [] then [] else parts[0] + Flatten(parts[1..])
  }

  lemma {:induction false} FlattenAppend<T>(a: seq<seq<T>>, b: seq<seq<T>>)
    ensures Flatten(a + b) == Flatten(a) + Flatten(b)
  {
    if a == [] {
      assert a + b == b;
    } else {
      assert (a + b)[1..] == a[1..] + b;
      FlattenAppend(a[1..], b);
    }
  }
}

/** Decimal numerals, as Python's `%d` and f-strings print them. */
module Decimal {
  predicate IsDigit(c: char) { '0' <= c <= '9' }

  predicate AllDigits(s: string) { forall i :: 0 <= i < |s| ==> IsDigit(s[i]) }

  function DigitChar(d: nat): (c: char)
    requires d < 10
    ensures IsDigit(c) && c as int - '0' as int == d
  {
    ('0' as int + d) as char
  }

  function Print(n: nat): (s: string)
    ensures |s| > 0 && AllDigits(s)
  {
    if n < 10 then [DigitChar(n)] else Print(n / 10) + [DigitChar(n % 10)]
  }

  function Value(s: string): nat
    requires AllDigits(s)
  {
    if s == "" then 0
    else 10 * Value(s[..|s| - 1]) + (s[|s| - 1] as int - '0' as int)
  }

  lemma {:induction false} PrintThenValue(n: nat)
    ensures Value(Print(n)) == n
  {
    if n < 10 {
      assert Print(n)[..0] == "";
    } else {
      PrintThenValue(n / 10);
      assert Print(n)[..|Print(n)| - 1] == Print(n / 10);
    }
  }

  /** Two different numbers never print alike, so minted ids are fresh. */
  lemma PrintInjective(m: nat, n: nat)
    requires Print(m) == Print(n)
    ensures m == n
  {
    PrintThenValue(m);
    PrintThenValue(n);
  }

  /** An id made of a fixed stem and a counter. */
  function Mint(stem: string, n: nat): string { stem + Print(n) }

  lemma MintInjective(stem: string, m: nat, n: nat)
    ensures Mint(stem, m) == Mint(stem, n) <==> m == n
  {
    if Mint(stem, m) == Mint(stem, n) {
      assert Print(m) == Mint(stem, m)[|stem|..] == Print(n);
      PrintInjective(m, n);
    }
  }

  /** One of the first `n` ids of a stem. */
  predicate Minted(stem: string, id: string, n: nat) { exists k :: 1 <= k <= n && id == Mint(stem, k) }

  /** The next id has never been minted, and the earlier ones stay minted. */
  lemma NextIdIsFresh(stem: string, n: nat)
    ensures !Minted(stem, Mint(stem, n + 1), n) && Minted(stem, Mint(stem, n + 1), n + 1)
    ensures forall id :: Minted(stem, id, n) ==> Minted(stem, id, n + 1)
  {
    forall k | 1 <= k <= n ensures Mint(stem, n + 1) != Mint(stem, k) {
      MintInjective(stem, k, n + 1);
    }
    forall id | Minted(stem, id, n) ensures Minted(stem, id, n + 1) {
      var k :| 1 <= k <= n && id == Mint(stem, k);
    }
  }
}
