/** Which blocks a message has and what their descriptors say, in terms of the
    elements they come from. */
module ContentMeaning {
  import opened Basics
  import opened Json
  import opened Content
  import Base64

  /** The value a path leads to. */
  function Follow(v: Json, path: Path): Option<Json> {
    if path == [] then Some(v)
    else if HasChild(v, path[0]) then Follow(Child(v, path[0]), path[1..])
    else None
  }

  lemma {:induction false} FollowOn(v: Json, p: Path, q: Path)
    ensures Follow(v, p + q) == match Follow(v, p) case None => None case Some(w) => Follow(w, q)
  {
    if p == [] {
      assert p + q == q;
    } else if HasChild(v, p[0]) {
      assert (p + q)[1..] == p[1..] + q;
      FollowOn(Child(v, p[0]), p[1..], q);
    }
  }

  /** The value at a path, or null. */
  function ValueAt(v: Json, path: Path): Json {
    match Follow(v, path) case None => Null case Some(w) => w
  }

  /** The kind of a content element, and of a `contents` element. */
  function KindOf(place: Place, item: Json): string {
    if place.InContents? then "resource"
    else match ValueAt(item, [Key("type")])
      case Str(kind) => if kind in {"text", "image", "audio", "resource_link", "resource"} then kind else "unknown"
      case _ => "unknown"
  }

  /** Where an element keeps the fields that describe its block. */
  function Holder(place: Place, item: Json): Path {
    if place.InContent? && KindOf(place, item) == "resource" then [Key("resource")] else []
  }

  /** Where an element keeps its payload; an unknown element is its own. */
  function Leaf(place: Place, item: Json): Path {
    var kind, holder := KindOf(place, item), Holder(place, item);
    if kind == "text" then [Key("text")]
    else if kind == "resource_link" then [Key("uri")]
    else if kind in {"image", "audio"} then [Key("data")]
    else if kind == "unknown" then []
    else holder + [Key(if Follow(item, holder + [Key("text")]).Some? then "text" else "blob")]
  }

  /** A resource that is neither an object nor empty raises. */
  predicate Broken(place: Place, item: Json) {
    var holder := ValueAt(item, Holder(place, item));
    !item.Obj? || (Holder(place, item) != [] && Truthy(holder) && !holder.Obj?)
  }

  /** A resource with neither text nor blob has no block. */
  predicate Empty(place: Place, item: Json) {
    KindOf(place, item) == "resource" && Follow(item, Leaf(place, item)).None?
  }

  lemma FieldAt(item: Json, key: string)
    ensures Follow(item, [Key(key)]) == Follow(item, [] + [Key(key)]) ==
            if item.Obj? then Get(item.fields, key) else None
  {
    assert [] + [Key(key)] == [Key(key)];
  }

  lemma InnerFieldAt(item: Json, outer: string, key: string)
    ensures Follow(item, [Key(outer)] + [Key(key)]) ==
            if item.Obj? && GetOrNull(item.fields, outer).Obj? then Get(item.fields[outer].fields, key) else None
  {
    FollowOn(item, [Key(outer)], [Key(key)]);
  }

  /** A block points at its element's payload and repeats the fields that describe it. */
  predicate Describes(place: Place, index: nat, item: Json, block: Block) {
    var leaf, holder := Leaf(place, item), Holder(place, item);
    var last := if leaf == [] then Index(0) else leaf[|leaf| - 1];
    && block.kind == KindOf(place, item)
    && block.path == Base(place, index) + leaf
    && block.text == (if last == Key("text") then ValueAt(item, leaf) else Null)
    && block.bytes == (if last in {Key("data"), Key("blob")} then BytesOf(ValueAt(item, leaf)) else None)
    && block.mime == (if block.kind in {"text", "unknown"} then Null else ValueAt(item, holder + [Key("mimeType")]))
    && block.uri == (if block.kind in {"resource_link", "resource"} then ValueAt(item, holder + [Key("uri")]) else Null)
  }

  lemma PlainMeaning(index: nat, item: Json)
    requires item.Obj? && KindOf(InContent, item) != "resource"
    ensures var slot := SlotAt(InContent, index, item); slot.One? && Describes(InContent, index, item, slot.block)
  {
    hide BytesOf;
    FieldAt(item, "type"); FieldAt(item, "text"); FieldAt(item, "data"); FieldAt(item, "uri");
    FieldAt(item, "mimeType");
    hide Follow;
  }

  lemma EmbeddedMeaning(index: nat, item: Json)
    requires item.Obj? && KindOf(InContent, item) == "resource"
    ensures match SlotAt(InContent, index, item)
            case Raises => Broken(InContent, item)
            case Nothing => !Broken(InContent, item) && Empty(InContent, item)
            case One(block) =>
              !Broken(InContent, item) && !Empty(InContent, item) && Describes(InContent, index, item, block)
  {
    hide BytesOf;
    FieldAt(item, "type"); FieldAt(item, "resource");
    InnerFieldAt(item, "resource", "text"); InnerFieldAt(item, "resource", "blob");
    InnerFieldAt(item, "resource", "mimeType"); InnerFieldAt(item, "resource", "uri");
    hide Follow;
  }

  lemma ContentsMeaning(index: nat, item: Json)
    requires item.Obj?
    ensures match SlotAt(InContents, index, item)
            case Raises => false
            case Nothing => Empty(InContents, item)
            case One(block) => !Empty(InContents, item) && Describes(InContents, index, item, block)
  {
    hide BytesOf;
    FieldAt(item, "text"); FieldAt(item, "blob"); FieldAt(item, "mimeType"); FieldAt(item, "uri");
    hide Follow;
  }

  /** An element makes a block that describes it, unless it is a resource with
      nothing in it; a broken one raises. */
  lemma SlotMeaning(place: Place, index: nat, item: Json)
    ensures match SlotAt(place, index, item)
            case Raises => Broken(place, item)
            case Nothing => !Broken(place, item) && Empty(place, item)
            case One(block) => !Broken(place, item) && !Empty(place, item) && Describes(place, index, item, block)
  {
    hide Describes, Leaf;
    if item.Obj? {
      if place.InContents? {
        ContentsMeaning(index, item);
      } else if KindOf(place, item) == "resource" {
        EmbeddedMeaning(index, item);
      } else {
        PlainMeaning(index, item);
      }
    }
  }

  // ---- Whole messages ----

  lemma {:induction false} RaisesSomewhere(place: Place, items: seq<Json>, from: nat)
    ensures BlocksIn(place, items, from).None? <==> exists i :: 0 <= i < |items| && Broken(place, items[i])
  {
    hide SlotAt, Broken, Empty, Describes;
    if items != [] {
      SlotMeaning(place, from, items[0]);
      RaisesSomewhere(place, items[1..], from + 1);
      assert items == [items[0]] + items[1..];
    }
  }

  /** Every element that is not empty has its block, and in order. */
  lemma {:induction false} ElementShown(place: Place, items: seq<Json>, from: nat, i: nat) returns (k: nat)
    requires BlocksIn(place, items, from).Some? && i < |items| && !Empty(place, items[i])
    ensures k < |BlocksIn(place, items, from).value|
    ensures Describes(place, from + i, items[i], BlocksIn(place, items, from).value[k])
  {
    hide SlotAt, Broken, Empty, Describes;
    SlotMeaning(place, from, items[0]);
    if i == 0 {
      k := 0;
    } else {
      k := ElementShown(place, items[1..], from + 1, i - 1);
      if SlotAt(place, from, items[0]).One? {
        k := k + 1;
      }
    }
  }

  lemma {:induction false} PlaceInOrder(place: Place, items: seq<Json>, from: nat)
    requires BlocksIn(place, items, from).Some?
    ensures var blocks := BlocksIn(place, items, from).value;
            && (forall k :: 0 <= k < |blocks| ==>
                  |blocks[k].path| >= 3 && blocks[k].path[2].Index? && blocks[k].path[2].index >= from)
            && (forall j, k :: 0 <= j < k < |blocks| ==> blocks[j].path[2].index < blocks[k].path[2].index)
  {
    hide SlotAt;
    if items != [] {
      PlaceInOrder(place, items[1..], from + 1);
      if SlotAt(place, from, items[0]).One? { SlotPath(place, from, items[0]); }
    }
  }

  /** What stands in one of the two places of a message. */
  function HeldIn(message: Json, place: Place): Json { ValueAt(message, [Key("result"), Key(PlaceKey(place))]) }

  function ItemsOf(message: Json, place: Place): seq<Json> {
    if HeldIn(message, place).Arr? then HeldIn(message, place).items else []
  }

  lemma HeldInResult(message: Json, place: Place)
    ensures HeldIn(message, place) ==
            if message.Obj? && GetOrNull(message.fields, "result").Obj?
            then GetOrNull(message.fields["result"].fields, PlaceKey(place)) else Null
  {
    assert [Key("result"), Key(PlaceKey(place))] == [Key("result")] + [Key(PlaceKey(place))];
    InnerFieldAt(message, "result", PlaceKey(place));
  }

  /** A place raises when it holds something that is neither a list nor empty, or a
      broken element. */
  predicate Unreadable(message: Json, place: Place) {
    || (Truthy(HeldIn(message, place)) && !HeldIn(message, place).Arr?)
    || exists i :: 0 <= i < |ItemsOf(message, place)| && Broken(place, ItemsOf(message, place)[i])
  }

  function BlocksAt(message: Json, place: Place): (blocks: seq<Block>)
    requires !Unreadable(message, place)
    ensures BlocksIn(place, ItemsOf(message, place), 0) == Some(blocks)
  {
    RaisesSomewhere(place, ItemsOf(message, place), 0);
    BlocksIn(place, ItemsOf(message, place), 0).value
  }

  lemma PlaceMeaning(message: Json, place: Place)
    requires message.Obj? && GetOrNull(message.fields, "result").Obj?
    ensures PlaceBlocks(message.fields["result"].fields, place) ==
            if Unreadable(message, place) then None else Some(BlocksAt(message, place))
  {
    hide SlotAt, Broken, BlocksIn;
    HeldInResult(message, place);
    RaisesSomewhere(place, ItemsOf(message, place), 0);
  }

  /** The traversal raises when either place does; otherwise it gives the blocks of
      the two places. */
  lemma Traversal(message: Json)
    ensures Blocks(message) ==
            if Unreadable(message, InContent) || Unreadable(message, InContents) then None
            else Some(BlocksAt(message, InContent) + BlocksAt(message, InContents))
  {
    hide PlaceBlocks;
    HeldInResult(message, InContent);
    HeldInResult(message, InContents);
    if message.Obj? && GetOrNull(message.fields, "result").Obj? {
      PlaceMeaning(message, InContent);
      PlaceMeaning(message, InContents);
    } else {
      assert !Unreadable(message, InContent) && !Unreadable(message, InContents);
      assert BlocksAt(message, InContent) + BlocksAt(message, InContents) == [];
    }
  }

  lemma LeadsToElement(message: Json, place: Place, i: nat)
    requires i < |ItemsOf(message, place)|
    ensures Follow(message, Base(place, i)) == Some(ItemsOf(message, place)[i])
  {
    assert Base(place, i) == [Key("result"), Key(PlaceKey(place))] + [Index(i)];
    FollowOn(message, [Key("result"), Key(PlaceKey(place))], [Index(i)]);
  }

  /** A block describes an element of one of the places, and its path, followed from
      the message, leads to that element's payload. */
  lemma BlockMeaning(message: Json, k: nat) returns (place: Place, i: nat)
    requires Blocks(message).Some? && k < |Blocks(message).value|
    ensures i < |ItemsOf(message, place)|
    ensures var item, block := ItemsOf(message, place)[i], Blocks(message).value[k];
            Describes(place, i, item, block) && Follow(message, block.path) == Follow(item, Leaf(place, item))
  {
    Traversal(message);
    hide SlotAt, Broken, BlocksIn, Leaf, HeldIn, PlaceKey, Blocks, Follow;
    var k' := k;
    place := InContent;
    if k >= |BlocksAt(message, InContent)| {
      place, k' := InContents, k - |BlocksAt(message, InContent)|;
    }
    i := ElementOf(place, ItemsOf(message, place), 0, k');
    var item := ItemsOf(message, place)[i];
    ElementMakes(place, ItemsOf(message, place), 0, k');
    SlotMeaning(place, i, item);
    LeadsToElement(message, place, i);
    FollowOn(message, Base(place, i), Leaf(place, item));
  }

  /** And every element that is not an empty resource is described by a block. */
  lemma ElementMeaning(message: Json, place: Place, i: nat) returns (k: nat)
    requires Blocks(message).Some? && i < |ItemsOf(message, place)| && !Empty(place, ItemsOf(message, place)[i])
    ensures k < |Blocks(message).value|
    ensures Describes(place, i, ItemsOf(message, place)[i], Blocks(message).value[k])
  {
    Traversal(message);
    hide SlotAt, Broken, Empty, BlocksIn, Describes, HeldIn, PlaceKey, Blocks;
    k := ElementShown(place, ItemsOf(message, place), 0, i);
    if place.InContents? {
      k := k + |BlocksAt(message, InContent)|;
    }
  }

  /** Blocks come in the order of their elements, those of `content` first. */
  lemma BlocksInOrder(message: Json, j: nat, k: nat)
    requires Blocks(message).Some? && j < k < |Blocks(message).value|
    ensures var p, q := Blocks(message).value[j].path, Blocks(message).value[k].path;
            && |p| >= 3 && |q| >= 3 && p[2].Index? && q[2].Index?
            && ((p[1] == Key("content") && q[1] == Key("contents")) || (p[1] == q[1] && p[2].index < q[2].index))
  {
    Traversal(message);
    hide SlotAt, Broken, BlocksIn, HeldIn, Blocks;
    var n := |BlocksAt(message, InContent)|;
    PathsIn(InContent, ItemsOf(message, InContent), 0);
    PathsIn(InContents, ItemsOf(message, InContents), 0);
    PlaceInOrder(InContent, ItemsOf(message, InContent), 0);
    PlaceInOrder(InContents, ItemsOf(message, InContents), 0);
  }
}
