/** Content blocks of a message and writing one back (yamp/content.py). */
module Content {
  import opened Basics
  import opened Bytes
  import opened Json
  import Base64
  import Utf8

  datatype Segment = Key(key: string) | Index(index: nat)

  type Path = seq<Segment>

  /** A block descriptor; a field Python would hold None in is null. */
  datatype Block = Block(kind: string, path: Path, mime: Json, uri: Json, text: Json, bytes: Option<Bytes>)

  /** The base64 payload of a field, if it is one. */
  function BytesOf(v: Json): Option<Bytes> {
    if v.Str? then Base64.Decode(v.s) else None
  }

  /** What one array element yields: the AttributeError of an element that is not
      an object, no block, or one block. */
  datatype Slot = Raises | Nothing | One(block: Block)

  /** The text or blob of an embedded resource. */
  function ResourceSlot(base: Path, resource: Object): Slot {
    var uri, mime := GetOrNull(resource, "uri"), GetOrNull(resource, "mimeType");
    if "text" in resource then One(Block("resource", base + [Key("text")], mime, uri, resource["text"], None))
    else if "blob" in resource then
      One(Block("resource", base + [Key("blob")], mime, uri, Null, BytesOf(resource["blob"])))
    else Nothing
  }

  /** One element of `result.content`. */
  function ContentSlot(base: Path, item: Json): Slot {
    if !item.Obj? then Raises
    else
      var kind := GetOrNull(item.fields, "type");
      var mime := GetOrNull(item.fields, "mimeType");
      if kind == Str("text") then
        One(Block("text", base + [Key("text")], Null, Null, GetOrNull(item.fields, "text"), None))
      else if kind == Str("image") || kind == Str("audio") then
        One(Block(kind.s, base + [Key("data")], mime, Null, Null, BytesOf(GetOrNull(item.fields, "data"))))
      else if kind == Str("resource_link") then
        One(Block("resource_link", base + [Key("uri")], mime, GetOrNull(item.fields, "uri"), Null, None))
      else if kind == Str("resource") then
        var resource := GetOrNull(item.fields, "resource");
        if !Truthy(resource) then Nothing
        else if !resource.Obj? then Raises
        else ResourceSlot(base + [Key("resource")], resource.fields)
      else One(Block("unknown", base, Null, Null, Null, None))
  }

  /** One element of `result.contents`. */
  function ContentsSlot(base: Path, item: Json): Slot {
    if item.Obj? then ResourceSlot(base, item.fields) else Raises
  }

  /** The two arrays blocks live in. */
  datatype Place = InContent | InContents

  function PlaceKey(place: Place): string {
    match place case InContent => "content" case InContents => "contents"
  }

  function Base(place: Place, index: nat): Path { [Key("result"), Key(PlaceKey(place)), Index(index)] }

  function SlotAt(place: Place, index: nat, item: Json): Slot {
    match place
    case InContent => ContentSlot(Base(place, index), item)
    case InContents => ContentsSlot(Base(place, index), item)
  }

  /** The blocks of the elements from position `from` on; None stands for a raised
      exception. */
  function BlocksIn(place: Place, items: seq<Json>, from: nat): Option<seq<Block>> {
    if items == [] then Some([])
    else
      match SlotAt(place, from, items[0])
      case Raises => None
      case Nothing => BlocksIn(place, items[1..], from + 1)
      case One(block) =>
        match BlocksIn(place, items[1..], from + 1)
        case None => None
        case Some(blocks) => Some([block] + blocks)
  }

  /** `value or []`, as far as iterating it succeeds. */
  function Elements(v: Json): Option<seq<Json>> {
    if !Truthy(v) then Some([]) else if v.Arr? then Some(v.items) else None
  }

  function PlaceBlocks(result: Object, place: Place): Option<seq<Block>> {
    match Elements(GetOrNull(result, PlaceKey(place)))
    case None => None
    case Some(items) => BlocksIn(place, items, 0)
  }

  /** Every content block of a message; None stands for a raised exception. */
  function Blocks(message: Json): Option<seq<Block>> {
    if !message.Obj? || !GetOrNull(message.fields, "result").Obj? then Some([])
    else
      var result := message.fields["result"].fields;
      match PlaceBlocks(result, InContent)
      case None => None
      case Some(blocks) =>
        match PlaceBlocks(result, InContents)
        case None => None
        case Some(more) => Some(blocks + more)
  }

  method TraversePlace(result: Object, place: Place) returns (r: Option<seq<Block>>)
    ensures r == PlaceBlocks(result, place)
  {
    hide SlotAt, Elements;
    var items := Elements(GetOrNull(result, PlaceKey(place)));
    if items.None? {
      return None;
    }
    var out: seq<Block> := [];
    var index := 0;
    assert items.value[0..] == items.value;
    assert forall tail: seq<Block> :: [] + tail == tail && tail + [] == tail;
    while index < |items.value|
      invariant 0 <= index <= |items.value|
      invariant var tail := BlocksIn(place, items.value[index..], index);
                BlocksIn(place, items.value, 0) == if tail.None? then None else Some(out + tail.value)
    {
      var slot := SlotAt(place, index, items.value[index]);
      assert items.value[index..][1..] == items.value[index + 1..];
      match slot {
        case Raises => return None;
        case Nothing =>
        case One(block) =>
          ghost var tail := BlocksIn(place, items.value[index + 1..], index + 1);
          assert tail.Some? ==> out + ([block] + tail.value) == (out + [block]) + tail.value;
          out := out + [block];
      }
      index := index + 1;
    }
    assert out + [] == out;
    return Some(out);
  }

  /** The traversal as the source runs it: two loops appending to `out`. */
  method Traverse(message: Json) returns (r: Option<seq<Block>>)
    ensures r == Blocks(message)
  {
    if !message.Obj? || !GetOrNull(message.fields, "result").Obj? {
      return Some([]);
    }
    var result := message.fields["result"].fields;
    var content := TraversePlace(result, InContent);
    if content.None? {
      return None;
    }
    var contents := TraversePlace(result, InContents);
    if contents.None? {
      return None;
    }
    return Some(content.value + contents.value);
  }

  // ---- Writing back ----

  /** One navigation step into a container. */
  predicate HasChild(v: Json, at: Segment) {
    match at
    case Key(key) => v.Obj? && key in v.fields
    case Index(index) => v.Arr? && index < |v.items|
  }

  function Child(v: Json, at: Segment): Json
    requires HasChild(v, at)
  {
    match at
    case Key(key) => v.fields[key]
    case Index(index) => v.items[index]
  }

  function PutChild(v: Json, at: Segment, x: Json): Json
    requires HasChild(v, at)
  {
    match at
    case Key(key) => Obj(v.fields[key := x])
    case Index(index) => Arr(v.items[index := x])
  }

  /** Put `x` in the slot at `path`; a path that leads nowhere changes nothing. */
  function SetAt(v: Json, path: Path, x: Json): Json
    requires path != []
    decreases |path|
  {
    if !HasChild(v, path[0]) then v
    else PutChild(v, path[0], if |path| == 1 then x else SetAt(Child(v, path[0]), path[1..], x))
  }

  function SetText(message: Json, path: Path, text: string): Json
    requires path != []
  {
    SetAt(message, path, Str(text))
  }

  function SetBytes(message: Json, path: Path, data: Bytes): Json
    requires path != []
  {
    SetAt(message, path, Str(Base64.Encode(data)))
  }

  /** Whether a block carries text or decodable bytes in line. */
  predicate HasPayload(block: Block) { block.bytes.Some? || block.text.Str? }

  /** Put new bytes in a block of a message: base64 where it held base64, text
      decoded with replacement where it held text. */
  function WriteBlock(message: Json, block: Block, data: Bytes): Json
    requires block.path != []
  {
    if block.bytes.Some? then SetBytes(message, block.path, data)
    else SetText(message, block.path, Utf8.DecodeReplacing(data))
  }

  /** The same block with another payload. */
  function WithPayload(block: Block, data: Bytes): Block {
    if block.bytes.Some? then block.(bytes := Some(data)) else block.(text := Str(Utf8.DecodeReplacing(data)))
  }

  /** The value a write stores. */
  function StoredValue(block: Block, data: Bytes): Json {
    Str(if block.bytes.Some? then Base64.Encode(data) else Utf8.DecodeReplacing(data))
  }

  lemma ResourceSlotWrite(base: Path, resource: Object, block: Block, data: Bytes)
    requires ResourceSlot(base, resource) == One(block) && HasPayload(block)
    ensures |block.path| == |base| + 1 && block.path[..|base|] == base
    ensures var leaf := block.path[|base|];
            && leaf.Key? && leaf.key in resource
            && ResourceSlot(base, resource[leaf.key := StoredValue(block, data)]) == One(WithPayload(block, data))
  {
    Base64.DecodeOfEncode(data);
  }

  /** The same for a resource embedded in a content element. */
  lemma EmbeddedWrite(index: nat, item: Json, block: Block, data: Bytes)
    requires SlotAt(InContent, index, item) == One(block) && HasPayload(block) && item.fields["type"] == Str("resource")
    ensures |block.path| == 5 && block.path[..3] == Base(InContent, index)
    ensures SlotAt(InContent, index, SetAt(item, block.path[3..], StoredValue(block, data))) ==
            One(WithPayload(block, data))
  {
    var inner := Base(InContent, index) + [Key("resource")];
    var resource := item.fields["resource"].fields;
    ResourceSlotWrite(inner, resource, block, data);
    hide StoredValue, WithPayload, ResourceSlot, HasPayload;
    var x := StoredValue(block, data);
    assert block.path == inner + [block.path[4]];
    assert block.path[3..] == [Key("resource"), block.path[4]] && block.path[3..][1..] == [block.path[4]];
    var resource' := resource[block.path[4].key := x];
    assert SetAt(item, block.path[3..], x) == Obj(item.fields["resource" := Obj(resource')]);
  }

  /** Writing a payload inside one element changes its block's payload only. */
  lemma SlotWrite(place: Place, index: nat, item: Json, block: Block, data: Bytes)
    requires SlotAt(place, index, item) == One(block) && HasPayload(block)
    ensures |block.path| > 3 && block.path[..3] == Base(place, index)
    ensures SlotAt(place, index, SetAt(item, block.path[3..], StoredValue(block, data))) ==
            One(WithPayload(block, data))
  {
    if place.InContents? {
      ResourceSlotWrite(Base(place, index), item.fields, block, data);
      hide ResourceSlot, StoredValue, WithPayload;
      assert block.path[3..] == [block.path[3]];
    } else if item.fields["type"] == Str("resource") {
      EmbeddedWrite(index, item, block, data);
    } else {
      Base64.DecodeOfEncode(data);
      assert block.path[3..] == [block.path[3]];
    }
  }

  /** The element the k-th block comes from. */
  function ElementOf(place: Place, items: seq<Json>, from: nat, k: nat): (i: nat)
    requires BlocksIn(place, items, from).Some? && k < |BlocksIn(place, items, from).value|
    ensures i < |items|
  {
    if !SlotAt(place, from, items[0]).One? then 1 + ElementOf(place, items[1..], from + 1, k)
    else if k == 0 then 0
    else 1 + ElementOf(place, items[1..], from + 1, k - 1)
  }

  lemma {:induction false} ElementMakes(place: Place, items: seq<Json>, from: nat, k: nat)
    requires BlocksIn(place, items, from).Some? && k < |BlocksIn(place, items, from).value|
    ensures var i := ElementOf(place, items, from, k);
            SlotAt(place, from + i, items[i]) == One(BlocksIn(place, items, from).value[k])
  {
    hide SlotAt;
    if !SlotAt(place, from, items[0]).One? {
      ElementMakes(place, items[1..], from + 1, k);
    } else if k > 0 {
      ElementMakes(place, items[1..], from + 1, k - 1);
    }
  }

  /** Replacing that element by one with another block replaces just that block. */
  lemma {:induction false} ReplaceElement(place: Place, items: seq<Json>, from: nat, k: nat, item': Json, block': Block)
    requires BlocksIn(place, items, from).Some? && k < |BlocksIn(place, items, from).value|
    requires SlotAt(place, from + ElementOf(place, items, from, k), item') == One(block')
    ensures BlocksIn(place, items[ElementOf(place, items, from, k) := item'], from) ==
            Some(BlocksIn(place, items, from).value[k := block'])
  {
    hide SlotAt;
    var blocks, i := BlocksIn(place, items, from).value, ElementOf(place, items, from, k);
    var slot := SlotAt(place, from, items[0]);
    if slot.One? && k == 0 {
      assert items[0 := item'][1..] == items[1..];
      assert blocks[0 := block'] == [block'] + blocks[1..];
    } else {
      var skipped := if slot.One? then 1 else 0;
      ReplaceElement(place, items[1..], from + 1, k - skipped, item', block');
      assert items[i := item'][1..] == items[1..][i - 1 := item'];
      if slot.One? { assert blocks[k := block'] == [blocks[0]] + blocks[1..][k - 1 := block']; }
    }
  }

  /** Writing block k of one array. */
  lemma PlaceWrite(result: Object, place: Place, k: nat, data: Bytes)
    requires PlaceBlocks(result, place).Some? && k < |PlaceBlocks(result, place).value|
    requires HasPayload(PlaceBlocks(result, place).value[k])
    ensures var block := PlaceBlocks(result, place).value[k];
            && |block.path| > 3 && block.path[0] == Key("result") && block.path[1] == Key(PlaceKey(place))
            && PlaceKey(place) in result
            && var v := SetAt(result[PlaceKey(place)], block.path[2..], StoredValue(block, data));
               PlaceBlocks(result[PlaceKey(place) := v], place) ==
                 Some(PlaceBlocks(result, place).value[k := WithPayload(block, data)])
  {
    hide SlotAt, StoredValue, WithPayload, HasPayload;
    var items := Elements(GetOrNull(result, PlaceKey(place))).value;
    var blocks := PlaceBlocks(result, place).value;
    var block := blocks[k];
    var i := ElementOf(place, items, 0, k);
    ElementMakes(place, items, 0, k);
    SlotWrite(place, i, items[i], block, data);
    assert block.path[0] == block.path[..3][0] && block.path[1] == block.path[..3][1];
    assert block.path[2] == block.path[..3][2];
    assert block.path[2..][0] == Index(i) && block.path[2..][1..] == block.path[3..];
    var item' := SetAt(items[i], block.path[3..], StoredValue(block, data));
    assert SetAt(result[PlaceKey(place)], block.path[2..], StoredValue(block, data)) == Arr(items[i := item']);
    ReplaceElement(place, items, 0, k, item', WithPayload(block, data));
  }

  /** The two arrays do not interfere, nor does any other field. */
  lemma OtherPlaceKept(result: Object, place: Place, v: Json)
    ensures var other := if place.InContent? then InContents else InContent;
            PlaceBlocks(result[PlaceKey(place) := v], other) == PlaceBlocks(result, other)
  {
  }

  lemma WriteIsSet(message: Json, block: Block, data: Bytes)
    requires block.path != []
    ensures WriteBlock(message, block, data) == SetAt(message, block.path, StoredValue(block, data))
  {
    hide SetAt;
  }

  /** A write into one array of a result. */
  lemma ResultWrite(message: Json, path: Path, x: Json, key: string)
    requires message.Obj? && "result" in message.fields && message.fields["result"].Obj?
    requires |path| > 2 && path[0] == Key("result") && path[1] == Key(key) && key in message.fields["result"].fields
    ensures var result := message.fields["result"].fields;
            SetAt(message, path, x) ==
            Obj(message.fields["result" := Obj(result[key := SetAt(result[key], path[2..], x)])])
  {
    assert path[1..][1..] == path[2..];
  }

  /** Lens law: writing at a block's path and traversing again gives the same
      blocks with only that block's payload replaced. */
  lemma WriteThenTraverse(message: Json, k: nat, data: Bytes)
    requires Blocks(message).Some? && k < |Blocks(message).value| && HasPayload(Blocks(message).value[k])
    ensures Blocks(message).value[k].path != []
    ensures var block := Blocks(message).value[k];
            Blocks(WriteBlock(message, block, data)) == Some(Blocks(message).value[k := WithPayload(block, data)])
  {
    hide PlaceBlocks, HasPayload, WithPayload, SetAt, StoredValue;
    var result := message.fields["result"].fields;
    var content, contents := PlaceBlocks(result, InContent).value, PlaceBlocks(result, InContents).value;
    var block := Blocks(message).value[k];
    var place := if k < |content| then InContent else InContents;
    var k' := if k < |content| then k else k - |content|;
    PlaceWrite(result, place, k', data);
    var v := SetAt(result[PlaceKey(place)], block.path[2..], StoredValue(block, data));
    var result' := result[PlaceKey(place) := v];
    ResultWrite(message, block.path, StoredValue(block, data), PlaceKey(place));
    WriteIsSet(message, block, data);
    assert WriteBlock(message, block, data) == Obj(message.fields["result" := Obj(result')]);
    OtherPlaceKept(result, place, v);
    assert (content + contents)[k := WithPayload(block, data)] ==
      if place.InContent? then content[k' := WithPayload(block, data)] + contents
      else content + contents[k' := WithPayload(block, data)];
  }

  // ---- Independence of blocks ----

  /** Two paths part before either ends. */
  predicate Parts(p: Path, q: Path) {
    exists i :: 0 <= i < |p| && i < |q| && p[i] != q[i]
  }

  lemma ChildLaws(v: Json, p: Segment, x: Json, q: Segment, y: Json)
    requires HasChild(v, p)
    ensures HasChild(PutChild(v, p, x), q) == HasChild(v, q)
    ensures Child(PutChild(v, p, x), p) == x
    ensures PutChild(PutChild(v, p, x), p, y) == PutChild(v, p, y)
    ensures p != q && HasChild(v, q) ==>
              Child(PutChild(v, p, x), q) == Child(v, q) &&
              PutChild(PutChild(v, p, x), q, y) == PutChild(PutChild(v, q, y), p, x)
  {
  }

  /** Writes below different children commute. */
  lemma StepsCommute(v: Json, p: Path, x: Json, q: Path, y: Json)
    requires p != [] && q != [] && p[0] != q[0]
    ensures SetAt(SetAt(v, p, x), q, y) == SetAt(SetAt(v, q, y), p, x)
  {
  }

  /** Writes at paths that part commute. */
  lemma {:induction false} WritesCommute(v: Json, p: Path, x: Json, q: Path, y: Json)
    requires Parts(p, q)
    ensures p != [] && q != []
    ensures SetAt(SetAt(v, p, x), q, y) == SetAt(SetAt(v, q, y), p, x)
    decreases |p|
  {
    hide HasChild, Child, PutChild;
    var s, t := p[0], q[0];
    if s != t {
      StepsCommute(v, p, x, q, y);
    } else if HasChild(v, s) {
      var i :| 0 <= i < |p| && i < |q| && p[i] != q[i];
      assert p[1..][i - 1] != q[1..][i - 1];
      WritesCommute(Child(v, s), p[1..], x, q[1..], y);
      var x', y' := SetAt(Child(v, s), p[1..], x), SetAt(Child(v, s), q[1..], y);
      ChildLaws(v, s, x', s, SetAt(x', q[1..], y));
      ChildLaws(v, s, y', s, SetAt(y', p[1..], x));
    }
  }

  lemma SlotPath(place: Place, index: nat, item: Json)
    requires SlotAt(place, index, item).One?
    ensures var path := SlotAt(place, index, item).block.path;
            && |path| >= 3
            && path[0] == Key("result") && path[1] == Key(PlaceKey(place)) && path[2] == Index(index)
  {
  }

  lemma {:induction false} PathsIn(place: Place, items: seq<Json>, from: nat)
    requires BlocksIn(place, items, from).Some?
    ensures forall k :: 0 <= k < |BlocksIn(place, items, from).value| ==>
      var path := BlocksIn(place, items, from).value[k].path;
      && |path| >= 3 && path[0] == Key("result") && path[1] == Key(PlaceKey(place))
      && path[2].Index? && path[2].index >= from
    ensures forall j, k :: 0 <= j < k < |BlocksIn(place, items, from).value| ==>
      BlocksIn(place, items, from).value[j].path[2] != BlocksIn(place, items, from).value[k].path[2]
  {
    hide SlotAt;
    if items != [] {
      PathsIn(place, items[1..], from + 1);
      if SlotAt(place, from, items[0]).One? { SlotPath(place, from, items[0]); }
    }
  }

  /** Every two blocks of a message lie at paths that part. */
  lemma BlockPathsPart(message: Json, j: nat, k: nat)
    requires Blocks(message).Some? && j < k < |Blocks(message).value|
    ensures Parts(Blocks(message).value[j].path, Blocks(message).value[k].path)
  {
    hide BlocksIn;
    var result := message.fields["result"].fields;
    var blocks := Blocks(message).value;
    forall place: Place { PathsIn(place, Elements(GetOrNull(result, PlaceKey(place))).value, 0); }
    var p, q := blocks[j].path, blocks[k].path;
    assert p[1] != q[1] || p[2] != q[2];
  }

  /** Writes to different blocks of a message can be made in either order. */
  lemma BlockWritesCommute(message: Json, j: nat, x: Bytes, k: nat, y: Bytes)
    requires Blocks(message).Some? && j < |Blocks(message).value| && k < |Blocks(message).value| && j != k
    ensures var b, c := Blocks(message).value[j], Blocks(message).value[k];
            && b.path != [] && c.path != []
            && WriteBlock(WriteBlock(message, b, x), c, y) == WriteBlock(WriteBlock(message, c, y), b, x)
  {
    hide Blocks;
    var b, c := Blocks(message).value[j], Blocks(message).value[k];
    if j < k { BlockPathsPart(message, j, k); } else { BlockPathsPart(message, k, j); }
    assert Parts(b.path, c.path);
    WritesCommute(message, b.path, StoredValue(b, x), c.path, StoredValue(c, y));
  }
}
