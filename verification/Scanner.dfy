/** The content scanner (yamp/icap.py): every block of a message is judged out of
    process and the verdicts are applied to a working copy. */
module Scanner {
  import opened Basics

  /** `_block_payload`: the bytes to scan, nothing in line, or the AttributeError of
      a text that is not a string. */
  datatype Payload = Bytes(data: Bytes) | NoPayload | NotText

  import opened Bytes
  import opened Json
  import opened Content
  import Filters
  import Utf8

  datatype Kind = Allow | Deny | Mutate | Annotate | Quarantine | Continue

  /** A verdict on one block; `bytes` is the replacement a mutation carries. */
  datatype Verdict = Verdict(kind: Kind, bytes: Option<Bytes>, provenance: Object, reason: Json)

  /** The service's answer to the k-th block's payload. Nothing is assumed of it. */
  type Judgement = (nat, Bytes) -> Verdict

  datatype Outcome = Forward(message: Json) | Blocked(response: Json, quarantined: bool) | Raised

  function PayloadOf(block: Block): Payload {
    if block.bytes.Some? then Payload.Bytes(block.bytes.value)
    else if block.text.Null? then NoPayload
    else if block.text.Str? then Payload.Bytes(Utf8.Encode(block.text.s))
    else NotText
  }

  /** Merge provenance into `result._meta`; None if `_meta` cannot be copied. */
  function AddProvenance(message: Json, provenance: Object): Option<Json>
    requires message.Obj? && GetOrNull(message.fields, "result").Obj?
  {
    var holder := message.fields["result"].fields;
    match DictOf(GetOrNull(holder, "_meta"))
    case None => None
    case Some(meta) => Some(Obj(message.fields["result" := Obj(holder["_meta" := Obj(meta + provenance)])]))
  }

  predicate HasResult(message: Json) { message.Obj? && GetOrNull(message.fields, "result").Obj? }

  /** What a verdict makes of the working copy. */
  function Applied(working: Json, block: Block, v: Verdict): Json
    requires block.path != []
  {
    if v.kind.Mutate? && v.bytes.Some? then WriteBlock(working, block, v.bytes.value) else working
  }

  /** What it makes of the block, seen on its own. */
  function Judged(block: Block, v: Verdict): Block {
    if v.kind.Mutate? && v.bytes.Some? then WithPayload(block, v.bytes.value) else block
  }

  predicate Stops(v: Verdict) { v.kind.Deny? || v.kind.Quarantine? }

  predicate AllAddressed(blocks: seq<Block>) { forall i :: 0 <= i < |blocks| ==> blocks[i].path != [] }

  /** The rest of a scan from block k on. */
  function ScanFrom(blocks: seq<Block>, k: nat, judge: Judgement, working: Json, provenance: Object, id: Json): Outcome
    requires k <= |blocks| && AllAddressed(blocks)
    decreases |blocks| - k
  {
    if k == |blocks| then
      if provenance == map[] then Forward(working)
      else if !HasResult(working) then Raised
      else match AddProvenance(working, provenance)
        case None => Raised
        case Some(annotated) => Forward(annotated)
    else
      match PayloadOf(blocks[k])
      case NotText => Raised
      case NoPayload => ScanFrom(blocks, k + 1, judge, working, provenance, id)
      case Bytes(data) =>
        var v := judge(k, data);
        if Stops(v) then Blocked(Filters.DenyResponse(id, v.reason), v.kind.Quarantine?)
        else ScanFrom(blocks, k + 1, judge, Applied(working, blocks[k], v), provenance + v.provenance, id)
  }

  lemma BlockPaths(message: Json)
    requires Blocks(message).Some?
    ensures AllAddressed(Blocks(message).value)
  {
    hide BlocksIn;
    if HasResult(message) {
      var result := message.fields["result"].fields;
      PathsIn(InContent, Elements(GetOrNull(result, PlaceKey(InContent))).value, 0);
      PathsIn(InContents, Elements(GetOrNull(result, PlaceKey(InContents))).value, 0);
    }
  }

  function Scanned(message: Json, direction: string, judge: Judgement): Outcome
    requires message.Obj?
  {
    if Filters.MessageContext(message.fields, direction).None? then Raised
    else
      match Blocks(message)
      case None => Raised
      case Some(blocks) =>
        BlockPaths(message);
        ScanFrom(blocks, 0, judge, message, map[], GetOrNull(message.fields, "id"))
  }

  /** The scanning loop over the blocks found in the original message. Describing
      the message to the service comes first and may raise. */
  method Scan(message: Json, direction: string, judge: Judgement) returns (outcome: Outcome)
    requires message.Obj?
    ensures outcome == Scanned(message, direction, judge)
  {
    if Filters.MessageContext(message.fields, direction).None? {
      return Raised;
    }
    var blocks := Traverse(message);
    if blocks.None? {
      return Raised;
    }
    BlockPaths(message);
    var working := message;
    var provenance: Object := map[];
    var k := 0;
    while k < |blocks.value|
      invariant 0 <= k <= |blocks.value|
      invariant ScanFrom(blocks.value, 0, judge, message, map[], GetOrNull(message.fields, "id")) ==
                ScanFrom(blocks.value, k, judge, working, provenance, GetOrNull(message.fields, "id"))
    {
      var block := blocks.value[k];
      var payload := PayloadOf(block);
      if payload.NotText? {
        return Raised;
      }
      if payload.Bytes? {
        var v := judge(k, payload.data);
        if Stops(v) {
          return Blocked(Filters.DenyResponse(GetOrNull(message.fields, "id"), v.reason), v.kind.Quarantine?);
        }
        if v.kind.Mutate? && v.bytes.Some? {
          working := WriteBlock(working, block, v.bytes.value);
        }
        provenance := provenance + v.provenance;
      }
      k := k + 1;
    }
    if provenance != map[] {
      if !HasResult(working) {
        return Raised;
      }
      var annotated := AddProvenance(working, provenance);
      return if annotated.None? then Raised else Forward(annotated.value);
    }
    return Forward(working);
  }

  // ---- What a scan achieves ----

  /** Block k is passed: it has no payload in line, or its verdict lets it through. */
  predicate Passes(blocks: seq<Block>, judge: Judgement, k: nat)
    requires k < |blocks|
  {
    match PayloadOf(blocks[k])
    case NotText => false
    case NoPayload => true
    case Bytes(data) => !Stops(judge(k, data))
  }

  /** Block k after its verdict, computed from the original block alone. */
  function Rewritten(blocks: seq<Block>, judge: Judgement, k: nat): Block
    requires k < |blocks|
  {
    match PayloadOf(blocks[k])
    case Bytes(data) => Judged(blocks[k], judge(k, data))
    case _ => blocks[k]
  }

  /** The provenance gathered from block k on. */
  function Gathered(blocks: seq<Block>, judge: Judgement, k: nat): Object
    requires k <= |blocks|
    decreases |blocks| - k
  {
    if k == |blocks| then map[]
    else
      (match PayloadOf(blocks[k]) case Bytes(data) => judge(k, data).provenance case _ => map[])
      + Gathered(blocks, judge, k + 1)
  }

  function MetaOf(message: Json): Json
    requires HasResult(message)
  {
    GetOrNull(message.fields["result"].fields, "_meta")
  }

  /** The working copy when the scan reaches block k: the earlier blocks are
      rewritten, the later ones are still the original's, and so is the metadata. */
  ghost predicate Reached(blocks: seq<Block>, judge: Judgement, k: nat, meta: Json, working: Json)
    requires k <= |blocks|
  {
    && HasResult(working) && MetaOf(working) == meta
    && Blocks(working).Some? && |Blocks(working).value| == |blocks|
    && (forall i :: 0 <= i < k ==> Blocks(working).value[i] == Rewritten(blocks, judge, i))
    && (forall i :: k <= i < |blocks| ==> Blocks(working).value[i] == blocks[i])
  }

  lemma ResultPaths(message: Json, k: nat)
    requires Blocks(message).Some? && k < |Blocks(message).value|
    ensures var path := Blocks(message).value[k].path;
            |path| > 2 && path[0] == Key("result") && path[1].Key? && path[1].key != "_meta"
  {
    hide BlocksIn;
    var result := message.fields["result"].fields;
    PathsIn(InContent, Elements(GetOrNull(result, PlaceKey(InContent))).value, 0);
    PathsIn(InContents, Elements(GetOrNull(result, PlaceKey(InContents))).value, 0);
  }

  /** A write inside the result's content keeps the result and its metadata. */
  lemma WriteKeepsMeta(working: Json, block: Block, data: Bytes)
    requires HasResult(working) && |block.path| > 2
    requires block.path[0] == Key("result") && block.path[1].Key? && block.path[1].key != "_meta"
    ensures HasResult(WriteBlock(working, block, data)) && MetaOf(WriteBlock(working, block, data)) == MetaOf(working)
  {
    var result := working.fields["result"];
    var x := StoredValue(block, data);
    assert WriteBlock(working, block, data) == Obj(working.fields["result" := SetAt(result, block.path[1..], x)]);
  }

  lemma ReachNext(blocks: seq<Block>, judge: Judgement, k: nat, meta: Json, working: Json)
    requires k < |blocks| && Reached(blocks, judge, k, meta, working) && Passes(blocks, judge, k)
    ensures PayloadOf(blocks[k]).Bytes? ==>
              var v := judge(k, PayloadOf(blocks[k]).data);
              blocks[k].path != [] && Reached(blocks, judge, k + 1, meta, Applied(working, blocks[k], v))
    ensures !PayloadOf(blocks[k]).Bytes? ==> Reached(blocks, judge, k + 1, meta, working)
  {
    hide Blocks, WriteBlock, WithPayload, MetaOf;
    if PayloadOf(blocks[k]).Bytes? {
      var v := judge(k, PayloadOf(blocks[k]).data);
      ResultPaths(working, k);
      if v.kind.Mutate? && v.bytes.Some? {
        WriteThenTraverse(working, k, v.bytes.value);
        WriteKeepsMeta(working, blocks[k], v.bytes.value);
      }
    }
  }

  /** Annotating touches no block. */
  lemma ProvenanceKeepsBlocks(message: Json, provenance: Object)
    requires HasResult(message) && AddProvenance(message, provenance).Some?
    ensures Blocks(AddProvenance(message, provenance).value) == Blocks(message)
  {
  }

  /** The first block from k on that is not passed, or the number of blocks. */
  function FirstStop(blocks: seq<Block>, judge: Judgement, k: nat): (i: nat)
    requires k <= |blocks|
    ensures k <= i <= |blocks| && (forall j :: k <= j < i ==> Passes(blocks, judge, j))
    ensures i < |blocks| ==> !Passes(blocks, judge, i)
    decreases |blocks| - k
  {
    if k == |blocks| || !Passes(blocks, judge, k) then k else FirstStop(blocks, judge, k + 1)
  }

  /** The outcome a scan must have, in terms of the original blocks only: the first
      block not passed decides; if all pass, the message forwarded holds every block
      rewritten by its own verdict, with the gathered provenance in its metadata. */
  ghost predicate AsJudged(blocks: seq<Block>, judge: Judgement, meta: Json, provenance: Object, id: Json,
                           stop: nat, outcome: Outcome)
    requires stop <= |blocks|
  {
    if stop < |blocks| then
      match PayloadOf(blocks[stop])
      case Bytes(data) =>
        var v := judge(stop, data);
        outcome == Blocked(Filters.DenyResponse(id, v.reason), v.kind.Quarantine?)
      case _ => outcome.Raised?
    else if provenance == map[] then
      outcome.Forward? && Reached(blocks, judge, |blocks|, meta, outcome.message)
    else
      match DictOf(meta)
      case None => outcome.Raised?
      case Some(m) => outcome.Forward? && Reached(blocks, judge, |blocks|, Obj(m + provenance), outcome.message)
  }

  lemma AnnotatedAsJudged(blocks: seq<Block>, judge: Judgement, meta: Json, provenance: Object, working: Json)
    requires Reached(blocks, judge, |blocks|, meta, working) && provenance != map[]
    ensures match AddProvenance(working, provenance)
            case None => DictOf(meta).None?
            case Some(annotated) =>
              DictOf(meta).Some? && Reached(blocks, judge, |blocks|, Obj(DictOf(meta).value + provenance), annotated)
  {
    hide Blocks;
    if AddProvenance(working, provenance).Some? { ProvenanceKeepsBlocks(working, provenance); }
  }

  lemma ReachedHasResult(blocks: seq<Block>, judge: Judgement, k: nat, meta: Json, working: Json)
    requires k <= |blocks| && Reached(blocks, judge, k, meta, working)
    ensures HasResult(working)
  {
  }

  /** A scan that has passed every block. */
  lemma ScanEnds(blocks: seq<Block>, judge: Judgement, meta: Json, working: Json, provenance: Object, id: Json)
    requires AllAddressed(blocks) && Reached(blocks, judge, |blocks|, meta, working)
    ensures AsJudged(blocks, judge, meta, provenance, id, |blocks|,
                     ScanFrom(blocks, |blocks|, judge, working, provenance, id))
  {
    hide Reached, AddProvenance, DictOf;
    if provenance != map[] {
      ReachedHasResult(blocks, judge, |blocks|, meta, working);
      AnnotatedAsJudged(blocks, judge, meta, provenance, working);
    }
  }

  /** A scan at a block that is not passed. */
  lemma ScanStops(blocks: seq<Block>, k: nat, judge: Judgement, meta: Json, working: Json, provenance: Object,
                  gathered: Object, id: Json)
    requires k < |blocks| && AllAddressed(blocks) && !Passes(blocks, judge, k)
    ensures AsJudged(blocks, judge, meta, gathered, id, k, ScanFrom(blocks, k, judge, working, provenance, id))
  {
    hide Reached, AddProvenance, DictOf;
  }

  lemma {:induction false} ScanFromMeaning(blocks: seq<Block>, k: nat, judge: Judgement, meta: Json, working: Json,
                                           provenance: Object, id: Json)
    requires k <= |blocks| && AllAddressed(blocks) && Reached(blocks, judge, k, meta, working)
    ensures AsJudged(blocks, judge, meta, provenance + Gathered(blocks, judge, k), id, FirstStop(blocks, judge, k),
                     ScanFrom(blocks, k, judge, working, provenance, id))
    decreases |blocks| - k
  {
    hide Reached, AddProvenance, Applied, DictOf, Rewritten, AsJudged, HasResult, AllAddressed;
    if k == |blocks| {
      ScanEnds(blocks, judge, meta, working, provenance, id);
      assert provenance + map[] == provenance;
    } else if Passes(blocks, judge, k) {
      ReachNext(blocks, judge, k, meta, working);
      match PayloadOf(blocks[k])
      case Bytes(data) =>
        var v := judge(k, data);
        ScanFromMeaning(blocks, k + 1, judge, meta, Applied(working, blocks[k], v), provenance + v.provenance, id);
        assert (provenance + v.provenance) + Gathered(blocks, judge, k + 1) == provenance + Gathered(blocks, judge, k);
      case NoPayload =>
        ScanFromMeaning(blocks, k + 1, judge, meta, working, provenance, id);
        assert provenance + Gathered(blocks, judge, k + 1) == provenance + Gathered(blocks, judge, k);
    } else {
      ScanStops(blocks, k, judge, meta, working, provenance, provenance + Gathered(blocks, judge, k), id);
    }
  }

  /** Main result: scanning either stops at the first block that is denied,
      quarantined or not text, or forwards a message whose blocks are the pointwise
      rewrite of the original's. */
  lemma ScanIsPointwise(message: Json, direction: string, judge: Judgement)
    requires HasResult(message) && Filters.MessageContext(message.fields, direction).Some?
    ensures Blocks(message).Some?
    ensures var blocks := Blocks(message).value;
            AsJudged(blocks, judge, MetaOf(message), Gathered(blocks, judge, 0), GetOrNull(message.fields, "id"),
                     FirstStop(blocks, judge, 0), Scanned(message, direction, judge))
  {
    hide Blocks, AsJudged, Gathered, FirstStop, ScanFrom;
    assert Obj(message.fields) == message;
    BlockPaths(message);
    var blocks := Blocks(message).value;
    ScanFromMeaning(blocks, 0, judge, MetaOf(message), message, map[], GetOrNull(message.fields, "id"));
    assert map[] + Gathered(blocks, judge, 0) == Gathered(blocks, judge, 0);
  }

  /** A message without a result has nothing to scan and passes unchanged. */
  lemma NothingToScan(message: Json, direction: string, judge: Judgement)
    requires message.Obj? && !HasResult(message) && Filters.MessageContext(message.fields, direction).Some?
    ensures Scanned(message, direction, judge) == Forward(message)
  {
  }

  // ---- The outcome in the verdicts' own terms ----

  /** The verdict block k gets: on its bytes, or on its text encoded as UTF-8; none if
      it carries neither in line. */
  function VerdictOn(blocks: seq<Block>, judge: Judgement, k: nat): Option<Verdict>
    requires k < |blocks|
  {
    if blocks[k].bytes.Some? then Some(judge(k, blocks[k].bytes.value))
    else if blocks[k].text.Str? then Some(judge(k, Utf8.Encode(blocks[k].text.s)))
    else None
  }

  /** Block k raises: it has no bytes, and a text that is neither a string nor absent. */
  predicate Unreadable(blocks: seq<Block>, k: nat)
    requires k < |blocks|
  {
    blocks[k].bytes.None? && !blocks[k].text.Str? && !blocks[k].text.Null?
  }

  /** The first block the scan cannot pass, by the verdicts themselves. */
  ghost predicate FirstBad(blocks: seq<Block>, judge: Judgement, k: nat) {
    && k < |blocks|
    && (Unreadable(blocks, k) ||
        (VerdictOn(blocks, judge, k).Some? && VerdictOn(blocks, judge, k).value.kind in {Deny, Quarantine}))
    && forall j: nat :: j < k ==>
         !Unreadable(blocks, j) &&
         (VerdictOn(blocks, judge, j).Some? ==> VerdictOn(blocks, judge, j).value.kind !in {Deny, Quarantine})
  }

  /** `FirstStop` is the first block whose verdict denies or quarantines it, or that
      cannot be read. */
  lemma FirstStopIsBad(blocks: seq<Block>, judge: Judgement)
    ensures var stop := FirstStop(blocks, judge, 0);
            && (stop < |blocks| ==> FirstBad(blocks, judge, stop))
            && forall k: nat :: k < |blocks| && FirstBad(blocks, judge, k) ==> k == stop
  {
    forall k: nat | k < |blocks|
      ensures Passes(blocks, judge, k) <==>
        !Unreadable(blocks, k) &&
        (VerdictOn(blocks, judge, k).Some? ==> VerdictOn(blocks, judge, k).value.kind !in {Deny, Quarantine})
    {
    }
  }

  /** What is forwarded for block k: new bytes or new text if its verdict mutates it,
      and the block as it was otherwise. */
  ghost predicate ForwardedAs(before: Block, verdict: Option<Verdict>, after: Block) {
    if verdict.Some? && verdict.value.kind == Mutate && verdict.value.bytes.Some? then
      && after.kind == before.kind && after.path == before.path && after.mime == before.mime && after.uri == before.uri
      && (before.bytes.Some? ==> after.bytes == verdict.value.bytes && after.text == before.text)
      && (before.bytes.None? ==>
        after.bytes.None? && after.text == Str(Utf8.DecodeReplacing(verdict.value.bytes.value)))
    else after == before
  }

  lemma {:induction false} GatheredNone(blocks: seq<Block>, judge: Judgement, k: nat, key: string)
    requires k <= |blocks|
    requires forall j: nat :: k <= j < |blocks| && VerdictOn(blocks, judge, j).Some? ==>
               key !in VerdictOn(blocks, judge, j).value.provenance
    ensures key !in Gathered(blocks, judge, k)
    decreases |blocks| - k
  {
    if k < |blocks| {
      assert VerdictOn(blocks, judge, k).Some? ==> key !in VerdictOn(blocks, judge, k).value.provenance;
      GatheredNone(blocks, judge, k + 1, key);
    }
  }

  /** Provenance key by key: the last verdict that gives the key decides it. */
  lemma {:induction false} GatheredLast(blocks: seq<Block>, judge: Judgement, k: nat, i: nat, key: string)
    requires k <= i < |blocks| && VerdictOn(blocks, judge, i).Some?
    requires key in VerdictOn(blocks, judge, i).value.provenance
    requires forall j: nat :: i < j < |blocks| && VerdictOn(blocks, judge, j).Some? ==>
               key !in VerdictOn(blocks, judge, j).value.provenance
    ensures key in Gathered(blocks, judge, k)
    ensures Gathered(blocks, judge, k)[key] == VerdictOn(blocks, judge, i).value.provenance[key]
    decreases |blocks| - k
  {
    if k == i {
      GatheredNone(blocks, judge, k + 1, key);
    } else {
      GatheredLast(blocks, judge, k + 1, i, key);
    }
  }

  /** Main result in the verdicts' own terms. A scan blocks if and only if some block is
      denied or quarantined before any that cannot be read; then the response is the
      policy error with the first such verdict's reason, and it is quarantined exactly
      for a quarantine. A forwarded message has every block forwarded by its own
      verdict, and none was denied, quarantined or unreadable. */
  lemma ScanByVerdicts(message: Json, direction: string, judge: Judgement)
    requires HasResult(message) && Filters.MessageContext(message.fields, direction).Some?
    ensures Blocks(message).Some?
    ensures var blocks := Blocks(message).value;
            var outcome := Scanned(message, direction, judge);
            && (outcome.Blocked? <==>
                  exists k: nat :: k < |blocks| && FirstBad(blocks, judge, k) && !Unreadable(blocks, k))
            && (forall k: nat :: k < |blocks| && FirstBad(blocks, judge, k) && !Unreadable(blocks, k) ==>
                  var v := VerdictOn(blocks, judge, k).value;
                  outcome == Blocked(Obj(map["jsonrpc" := Str("2.0"), "id" := GetOrNull(message.fields, "id"),
                    "error" := Obj(map["code" := Number("-32001"), "message" := v.reason])]), v.kind == Quarantine))
            && (forall k: nat :: k < |blocks| && FirstBad(blocks, judge, k) && Unreadable(blocks, k) ==>
                  outcome.Raised?)
            && (outcome.Forward? ==>
                  && (forall k: nat :: k < |blocks| ==> !FirstBad(blocks, judge, k))
                  && (Gathered(blocks, judge, 0) != map[] ==> DictOf(MetaOf(message)).Some?)
                  && HasResult(outcome.message)
                  && MetaOf(outcome.message) == (if Gathered(blocks, judge, 0) == map[] then MetaOf(message)
                                                 else Obj(DictOf(MetaOf(message)).value + Gathered(blocks, judge, 0)))
                  && Blocks(outcome.message).Some? && |Blocks(outcome.message).value| == |blocks|
                  && forall k: nat :: k < |blocks| ==>
                       ForwardedAs(blocks[k], VerdictOn(blocks, judge, k), Blocks(outcome.message).value[k]))
  {
    ScanIsPointwise(message, direction, judge);
    hide Blocks, Scanned, MetaOf, Gathered;
    var blocks := Blocks(message).value;
    FirstStopIsBad(blocks, judge);
    var stop := FirstStop(blocks, judge, 0);
    if stop == |blocks| {
      forall k: nat | k < |blocks|
        ensures ForwardedAs(blocks[k], VerdictOn(blocks, judge, k), Rewritten(blocks, judge, k))
      {
        assert Passes(blocks, judge, k);
      }
    }
  }
}
