/** The audit log (yamp/signing.py). The digest and the keyed digest are arbitrary
    functions onto 32 bytes; nothing is assumed about collisions. */
module Signing {
  import opened Basics
  import opened Bytes
  import opened Json
  import opened JsonText
  import Hex
  import Utf8

  type Digest = b: Bytes | |b| == 32 witness seq(32, _ => 0)

  datatype Crypto = Crypto(sha256: Bytes -> Digest, hmacSha256: (Bytes, Bytes) -> Digest)

  datatype Entry = Entry(record: Json, prev: string, signature: string, hash: string)

  function Canonical(record: Json): Bytes { Utf8.Encode(Print(record)) }

  function Sign(c: Crypto, secret: string, record: Json): string {
    Hex.Encode(c.hmacSha256(Utf8.Encode(secret), Canonical(record)))
  }

  /** What is hashed for one link. */
  function LinkInput(prev: string, record: Json): Bytes { Utf8.Encode(prev + "|") + Canonical(record) }

  function Chain(c: Crypto, prev: string, record: Json): string {
    Hex.Encode(c.sha256(LinkInput(prev, record)))
  }

  function MakeEntry(c: Crypto, secret: string, head: string, record: Json): Entry {
    Entry(record, head, Sign(c, secret, record), Chain(c, head, record))
  }

  /** The head after appending some records to an empty log. */
  function HeadAfter(c: Crypto, genesis: string, records: seq<Json>): string {
    if records == [] then genesis
    else Chain(c, HeadAfter(c, genesis, records[..|records| - 1]), records[|records| - 1])
  }

  /** The entries `append` builds from some records. */
  function Build(c: Crypto, secret: string, genesis: string, records: seq<Json>): (r: seq<Entry>)
    ensures |r| == |records|
  {
    if records == [] then []
    else
      var front := records[..|records| - 1];
      Build(c, secret, genesis, front)
      + [MakeEntry(c, secret, HeadAfter(c, genesis, front), records[|records| - 1])]
  }

  function RecordsOf(entries: seq<Entry>): (r: seq<Json>)
    ensures |r| == |entries| && forall i :: 0 <= i < |entries| ==> r[i] == entries[i].record
  {
    seq(|entries|, i requires 0 <= i < |entries| => entries[i].record)
  }

  lemma {:induction false} BuildPrefix(c: Crypto, secret: string, genesis: string, records: seq<Json>, i: nat)
    requires i <= |records|
    ensures Build(c, secret, genesis, records)[..i] == Build(c, secret, genesis, records[..i])
  {
    hide HeadAfter, MakeEntry;
    if i < |records| {
      var n := |records| - 1;
      BuildPrefix(c, secret, genesis, records[..n], i);
      assert records[..n][..i] == records[..i];
    } else {
      assert records[..i] == records;
    }
  }

  lemma BuildAppend(c: Crypto, secret: string, genesis: string, records: seq<Json>, last: Json)
    ensures HeadAfter(c, genesis, records + [last]) == Chain(c, HeadAfter(c, genesis, records), last)
    ensures Build(c, secret, genesis, records + [last]) ==
            Build(c, secret, genesis, records) + [MakeEntry(c, secret, HeadAfter(c, genesis, records), last)]
  {
  }

  /** One turn of the verifying loop: the first i + 1 entries are as built exactly
      when the first i are and this one passes its three checks. */
  lemma BuildStep(c: Crypto, secret: string, genesis: string, entries: seq<Entry>, i: nat)
    requires i < |entries|
    requires entries[..i] == Build(c, secret, genesis, RecordsOf(entries[..i]))
    ensures var head := HeadAfter(c, genesis, RecordsOf(entries[..i]));
            && HeadAfter(c, genesis, RecordsOf(entries[..i + 1])) == Chain(c, head, entries[i].record)
            && (entries[i] == MakeEntry(c, secret, head, entries[i].record) ==>
                  entries[..i + 1] == Build(c, secret, genesis, RecordsOf(entries[..i + 1])))
            && (entries[i] != MakeEntry(c, secret, head, entries[i].record) ==>
                  entries != Build(c, secret, genesis, RecordsOf(entries)))
  {
    hide Build, HeadAfter, Chain, MakeEntry;
    var front, now := RecordsOf(entries[..i]), RecordsOf(entries[..i + 1]);
    assert now == front + [entries[i].record];
    BuildAppend(c, secret, genesis, front, entries[i].record);
    assert RecordsOf(entries)[..i + 1] == now;
    BuildPrefix(c, secret, genesis, RecordsOf(entries), i + 1);
    assert entries[..i + 1] == entries[..i] + [entries[i]];
  }

  /** `records` is a public list: anyone may have changed it before `Verify`. */
  class AuditLog {
    const crypto: Crypto
    const secret: string
    const genesis: string
    var head: string
    var records: seq<Entry>

    /** Nothing but `Append` has touched the log. */
    ghost predicate Untampered()
      reads this
    {
      && records == Build(crypto, secret, genesis, RecordsOf(records))
      && head == HeadAfter(crypto, genesis, RecordsOf(records))
    }

    constructor (crypto: Crypto, secret: string, genesis: string)
      ensures Untampered() && records == []
      ensures this.crypto == crypto && this.secret == secret && this.genesis == genesis
    {
      this.crypto, this.secret, this.genesis := crypto, secret, genesis;
      head, records := genesis, [];
    }

    method Append(record: Json) returns (entry: Entry)
      modifies this
      ensures records == old(records) + [entry] && head == entry.hash
      ensures entry == MakeEntry(crypto, secret, old(head), record)
      ensures old(Untampered()) ==> Untampered()
    {
      entry := MakeEntry(crypto, secret, head, record);
      head := entry.hash;
      records := records + [entry];
      assert RecordsOf(records)[..|records| - 1] == RecordsOf(old(records));
    }

    /** The verifying loop with its running head. */
    method Verify() returns (intact: bool)
      ensures intact <==> records == Build(crypto, secret, genesis, RecordsOf(records))
    {
      var running := genesis;
      var i := 0;
      while i < |records|
        invariant 0 <= i <= |records|
        invariant running == HeadAfter(crypto, genesis, RecordsOf(records[..i]))
        invariant records[..i] == Build(crypto, secret, genesis, RecordsOf(records[..i]))
      {
        var entry := records[i];
        BuildStep(crypto, secret, genesis, records, i);
        if entry.signature != Sign(crypto, secret, entry.record) {
          return false;
        }
        if entry.prev != running {
          return false;
        }
        if Chain(crypto, running, entry.record) != entry.hash {
          return false;
        }
        running := entry.hash;
        i := i + 1;
      }
      assert records[..i] == records;
      return true;
    }
  }

  /** Two logs whose k-th links hash different inputs to the same digest. */
  ghost predicate Collision(c: Crypto, genesis: string, rs: seq<Json>, ss: seq<Json>, k: nat)
    requires k < |rs| && k < |ss|
  {
    var x := LinkInput(HeadAfter(c, genesis, rs[..k]), rs[k]);
    var y := LinkInput(HeadAfter(c, genesis, ss[..k]), ss[k]);
    x != y && c.sha256(x) == c.sha256(y)
  }

  ghost predicate SomeCollision(c: Crypto, genesis: string, rs: seq<Json>, ss: seq<Json>)
    requires |rs| == |ss|
  {
    exists k :: 0 <= k < |rs| && Collision(c, genesis, rs, ss, k)
  }

  lemma HereIsOne(c: Crypto, genesis: string, rs: seq<Json>, ss: seq<Json>, n: nat)
    requires |rs| == |ss| && n < |rs| && Collision(c, genesis, rs, ss, n)
    ensures SomeCollision(c, genesis, rs, ss)
  {
  }

  lemma CollisionExtends(c: Crypto, genesis: string, rs: seq<Json>, ss: seq<Json>, n: nat)
    requires |rs| == |ss| && n <= |rs|
    requires SomeCollision(c, genesis, rs[..n], ss[..n])
    ensures SomeCollision(c, genesis, rs, ss)
  {
    hide HeadAfter, LinkInput;
    var k :| 0 <= k < n && Collision(c, genesis, rs[..n], ss[..n], k);
    assert rs[..n][..k] == rs[..k] && ss[..n][..k] == ss[..k];
    assert Collision(c, genesis, rs, ss, k);
  }

  predicate Ascii(s: string) { forall i :: 0 <= i < |s| ==> s[i] as int < 0x80 }

  lemma {:induction false} AsciiLength(s: string)
    requires Ascii(s)
    ensures |Utf8.Encode(s)| == |s|
  {
    if s != "" { AsciiLength(s[1..]); }
  }

  lemma {:induction false} HexText(b: Bytes)
    ensures Ascii(Hex.Encode(b)) && |Hex.Encode(b)| == 2 * |b|
  {
    if b != [] { HexText(b[1..]); }
  }

  /** Links made from heads of equal encoded length hash equal inputs only for
      equal heads and records. */
  lemma LinkInputInjective(prev: string, record: Json, prev': string, record': Json)
    requires |Utf8.Encode(prev + "|")| == |Utf8.Encode(prev' + "|")|
    requires Printable(record) && Printable(record')
    requires LinkInput(prev, record) == LinkInput(prev', record')
    ensures prev == prev' && record == record'
  {
    var p, p' := Utf8.Encode(prev + "|"), Utf8.Encode(prev' + "|");
    assert p == LinkInput(prev, record)[..|p|] == p';
    assert Canonical(record) == LinkInput(prev, record)[|p|..] == Canonical(record');
    Utf8.DecodeOfEncode(prev + "|");
    Utf8.DecodeOfEncode(prev' + "|");
    assert prev == (prev + "|")[..|prev|] && prev' == (prev' + "|")[..|prev'|];
    Utf8.DecodeOfEncode(Print(record));
    Utf8.DecodeOfEncode(Print(record'));
    PrintInjective(record, record');
  }

  lemma HeadLength(c: Crypto, genesis: string, rs: seq<Json>, ss: seq<Json>)
    requires |rs| == |ss|
    ensures var p, q := HeadAfter(c, genesis, rs) + "|", HeadAfter(c, genesis, ss) + "|";
            |Utf8.Encode(p)| == |Utf8.Encode(q)|
  {
    if rs != [] {
      HexText(c.sha256(LinkInput(HeadAfter(c, genesis, rs[..|rs| - 1]), rs[|rs| - 1])));
      HexText(c.sha256(LinkInput(HeadAfter(c, genesis, ss[..|ss| - 1]), ss[|ss| - 1])));
      AsciiLength(HeadAfter(c, genesis, rs) + "|");
      AsciiLength(HeadAfter(c, genesis, ss) + "|");
    }
  }

  /** Equal heads come from equal last links, or collide there. */
  lemma LastLink(c: Crypto, genesis: string, rs: seq<Json>, ss: seq<Json>, n: nat)
    requires |rs| == |ss| == n + 1 && HeadAfter(c, genesis, rs) == HeadAfter(c, genesis, ss)
    requires Printable(rs[n]) && Printable(ss[n])
    ensures Collision(c, genesis, rs, ss, n) ||
            (rs[n] == ss[n] && HeadAfter(c, genesis, rs[..n]) == HeadAfter(c, genesis, ss[..n]))
  {
    hide Printable, LinkInput, Hex.Encode, Hex.Decode;
    var x := LinkInput(HeadAfter(c, genesis, rs[..n]), rs[n]);
    var y := LinkInput(HeadAfter(c, genesis, ss[..n]), ss[n]);
    Hex.DecodeOfEncode(c.sha256(x));
    Hex.DecodeOfEncode(c.sha256(y));
    if x == y {
      HeadLength(c, genesis, rs[..n], ss[..n]);
      LinkInputInjective(HeadAfter(c, genesis, rs[..n]), rs[n], HeadAfter(c, genesis, ss[..n]), ss[n]);
    }
  }

  lemma SameEnds(rs: seq<Json>, ss: seq<Json>, n: nat)
    requires |rs| == |ss| == n + 1 && rs[..n] == ss[..n] && rs[n] == ss[n]
    ensures rs == ss
  {
  }

  /** Two record sequences of one length that lead to one head are the same, unless
      some pair of links is a collision of the digest. */
  lemma {:induction false} SameHeadSameRecords(c: Crypto, genesis: string, rs: seq<Json>, ss: seq<Json>)
    requires |rs| == |ss| && HeadAfter(c, genesis, rs) == HeadAfter(c, genesis, ss)
    requires forall i :: 0 <= i < |rs| ==> Printable(rs[i]) && Printable(ss[i])
    ensures rs == ss || SomeCollision(c, genesis, rs, ss)
  {
    if rs != [] {
      var n := |rs| - 1;
      LastLink(c, genesis, rs, ss, n);
      hide *;
      if Collision(c, genesis, rs, ss, n) {
        HereIsOne(c, genesis, rs, ss, n);
      } else {
        SameHeadSameRecords(c, genesis, rs[..n], ss[..n]);
        if rs[..n] == ss[..n] {
          SameEnds(rs, ss, n);
        } else {
          CollisionExtends(c, genesis, rs, ss, n);
        }
      }
    }
  }

  /** Main result: of two logs of one length that both verify under one genesis and
      show one head, every record, link and signature agrees, or the logs exhibit a
      collision of the digest. */
  lemma TamperingShows(c: Crypto, secret: string, genesis: string, es: seq<Entry>, fs: seq<Entry>)
    requires |es| == |fs|
    requires es == Build(c, secret, genesis, RecordsOf(es)) && fs == Build(c, secret, genesis, RecordsOf(fs))
    requires es != [] ==> es[|es| - 1].hash == fs[|fs| - 1].hash
    requires forall i :: 0 <= i < |es| ==> Printable(es[i].record) && Printable(fs[i].record)
    ensures es == fs || SomeCollision(c, genesis, RecordsOf(es), RecordsOf(fs))
  {
    SameHeadSameRecords(c, genesis, RecordsOf(es), RecordsOf(fs));
  }

  // ---- What the signatures vouch for ----

  lemma {:induction false} BuiltEntry(c: Crypto, secret: string, genesis: string, records: seq<Json>, i: nat)
    requires i < |records|
    ensures Build(c, secret, genesis, records)[i] ==
            MakeEntry(c, secret, HeadAfter(c, genesis, records[..i]), records[i])
  {
    hide MakeEntry, HeadAfter;
    var n := |records| - 1;
    if i < n {
      BuiltEntry(c, secret, genesis, records[..n], i);
      assert records[..n][..i] == records[..i];
    }
  }

  /** Every entry of a verifying log carries the keyed digest of its own record's
      canonical text, the head its predecessors lead to, and the digest of both. */
  lemma VerifiedEntries(c: Crypto, secret: string, genesis: string, es: seq<Entry>, i: nat)
    requires es == Build(c, secret, genesis, RecordsOf(es)) && i < |es|
    ensures es[i].signature == Hex.Encode(c.hmacSha256(Utf8.Encode(secret), Utf8.Encode(Print(es[i].record))))
    ensures es[i].prev == if i == 0 then genesis else es[i - 1].hash
    ensures es[i].hash == Hex.Encode(c.sha256(Utf8.Encode(es[i].prev + "|") + Utf8.Encode(Print(es[i].record))))
  {
    var records := RecordsOf(es);
    BuiltEntry(c, secret, genesis, records, i);
    if i == 0 {
      assert records[..0] == [];
    } else {
      BuiltEntry(c, secret, genesis, records, i - 1);
      assert records[..i][..i - 1] == records[..i - 1];
    }
  }

  /** A signature vouches for one record: two entries of verifying logs under one
      secret that carry equal signatures hold equal records, or the keyed digest
      collides at exactly their two canonical texts. */
  lemma SignatureBindsRecord(c: Crypto, secret: string, g: string, h: string, es: seq<Entry>, fs: seq<Entry>, i: nat,
                             j: nat)
    requires es == Build(c, secret, g, RecordsOf(es)) && i < |es|
    requires fs == Build(c, secret, h, RecordsOf(fs)) && j < |fs|
    requires es[i].signature == fs[j].signature && Printable(es[i].record) && Printable(fs[j].record)
    ensures var key, x, y := Utf8.Encode(secret), Utf8.Encode(Print(es[i].record)), Utf8.Encode(Print(fs[j].record));
            es[i].record == fs[j].record || (x != y && c.hmacSha256(key, x) == c.hmacSha256(key, y))
  {
    hide Build, Printable, Print, Hex.Encode, Hex.Decode, Utf8.Encode, Utf8.Decode;
    var key, x, y := Utf8.Encode(secret), Utf8.Encode(Print(es[i].record)), Utf8.Encode(Print(fs[j].record));
    VerifiedEntries(c, secret, g, es, i);
    VerifiedEntries(c, secret, h, fs, j);
    Hex.DecodeOfEncode(c.hmacSha256(key, x));
    Hex.DecodeOfEncode(c.hmacSha256(key, y));
    if x == y {
      Utf8.DecodeOfEncode(Print(es[i].record));
      Utf8.DecodeOfEncode(Print(fs[j].record));
      PrintInjective(es[i].record, fs[j].record);
    }
  }
}
