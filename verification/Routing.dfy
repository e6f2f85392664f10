/** Listing a capability under its exposed name and resolving a call to that name
    again (yamp/router.py: labelling in `_collect` and `_aggregate`, dispatch in
    `_route_call`), for every collision strategy. */
module Routing {
  import opened Basics
  import opened Namespace
  import opened Collision

  datatype Capability = Tools | Prompts | Resources

  datatype Strategy =
    | Prefixed
    | Priority(order: seq<string>)
    | Manual(overrides: Overrides)
    | Passthrough

  /** `listed` is everything listed so far under the passthrough strategy, oldest
      first: backend and name. The table it fills is `ReverseOf(listed)`. */
  datatype Router = Router(
    backends: seq<string>,
    handlers: set<string>,
    strategy: Strategy,
    listed: seq<(string, string)>)

  /** Where a call goes. */
  datatype Target =
    | Local(handler: string, tool: string)
    | Routed(backend: string, original: string)
    | Unknown

  predicate Single(r: Router) { |r.backends| == 1 && r.handlers == {} }

  function CapPrefix(cap: Capability, id: string, value: string): string {
    if cap.Resources? then PrefixUri(id, value) else Prefix(id, value)
  }

  function CapSplit(cap: Capability, value: string): Option<(string, string)> {
    if cap.Resources? then SplitUri(value) else Split(value)
  }

  /** The label `_collect` gives one listed item. */
  function Label(r: Router, cap: Capability, id: string, value: string): string {
    if Single(r) || (cap.Tools? && r.strategy.Passthrough?) then value else CapPrefix(cap, id, value)
  }

  /** The name the client finally sees: manual renames apply on top of the label. */
  function Shown(r: Router, cap: Capability, id: string, value: string): string {
    var l := Label(r, cap, id, value);
    if cap.Tools? && r.strategy.Manual? then Exposed(r.strategy.overrides, l) else l
  }

  /** `{exposed: namespaced for namespaced, exposed in overrides.items()}`: of two
      renames to one name the later one is inverted. */
  function Inverted(overrides: Overrides, name: string): string {
    if overrides == [] then name
    else
      var n := |overrides| - 1;
      if overrides[n].1 == name then overrides[n].0 else Inverted(overrides[..n], name)
  }

  predicate IsLocal(r: Router, value: string) {
    Split(value).Some? && Split(value).value.0 in r.handlers
  }

  function ToBackend(r: Router, resolved: Option<(string, string)>): Target {
    if resolved.Some? && resolved.value.0 in r.backends then Routed(resolved.value.0, resolved.value.1) else Unknown
  }

  /** The table the passthrough strategy fills: by name, the lister and the name. */
  type ReverseTable = map<string, (string, string)>

  /** `_reverse.setdefault` over everything listed so far, oldest first. */
  function ReverseOf(listed: seq<(string, string)>): ReverseTable {
    if listed == [] then map[]
    else
      var earlier, last := ReverseOf(listed[..|listed| - 1]), listed[|listed| - 1];
      if last.1 in earlier then earlier else earlier[last.1 := last]
  }

  lemma ReverseStep(listed: seq<(string, string)>, last: (string, string))
    ensures ReverseOf(listed + [last]) ==
            if last.1 in ReverseOf(listed) then ReverseOf(listed) else ReverseOf(listed)[last.1 := last]
  {
    assert (listed + [last])[..|listed|] == listed;
  }

  /** Some backend listed this name before position `i`. */
  predicate ListedBefore(listed: seq<(string, string)>, i: nat, name: string)
    requires i <= |listed|
  {
    exists j :: 0 <= j < i && listed[j].1 == name
  }

  lemma {:induction false} ReverseKeys(listed: seq<(string, string)>, name: string)
    ensures name in ReverseOf(listed) <==> ListedBefore(listed, |listed|, name)
  {
    if listed != [] {
      var n := |listed| - 1;
      ReverseKeys(listed[..n], name);
      if ListedBefore(listed[..n], n, name) {
        var j :| 0 <= j < n && listed[..n][j].1 == name;
        assert listed[j].1 == name;
      }
    }
  }

  lemma {:induction false} ReverseHoldsFirst(listed: seq<(string, string)>, first: nat)
    requires first < |listed| && !ListedBefore(listed, first, listed[first].1)
    ensures listed[first].1 in ReverseOf(listed) && ReverseOf(listed)[listed[first].1] == listed[first]
  {
    var n := |listed| - 1;
    if first < n {
      assert forall j :: 0 <= j < first ==> listed[..n][j] == listed[j];
      ReverseHoldsFirst(listed[..n], first);
    } else {
      assert forall j :: 0 <= j < n ==> listed[..n][j] == listed[j];
      ReverseKeys(listed[..n], listed[n].1);
    }
  }

  lemma {:induction false} FirstLister(listed: seq<(string, string)>, i: nat) returns (j: nat)
    requires i < |listed|
    ensures j <= i && listed[j].1 == listed[i].1 && !ListedBefore(listed, j, listed[j].1)
  {
    if ListedBefore(listed, i, listed[i].1) {
      var k :| 0 <= k < i && listed[k].1 == listed[i].1;
      j := FirstLister(listed, k);
    } else {
      j := i;
    }
  }

  /** The dispatch of `_route_call`. */
  function Resolve(r: Router, cap: Capability, value: string): Target {
    if cap.Tools? && IsLocal(r, value) then Local(Split(value).value.0, Split(value).value.1)
    else if Single(r) then Routed(r.backends[0], value)
    else if cap.Tools? && r.strategy.Manual? then ToBackend(r, Split(Inverted(r.strategy.overrides, value)))
    else if cap.Tools? && r.strategy.Passthrough? then
      ToBackend(r, if value in ReverseOf(r.listed) then Some(ReverseOf(r.listed)[value]) else None)
    else ToBackend(r, CapSplit(cap, value))
  }

  /** Another rename claims the name that `name` is shown under, and inverting the
      renames finds that one. */
  predicate Shadowed(overrides: Overrides, name: string) {
    exists j :: 0 <= j < |overrides| && overrides[j].1 == Exposed(overrides, name) && overrides[j].0 != name &&
      forall i :: 0 <= i < |overrides| && overrides[i].0 == name ==> i < j
  }

  predicate NoneAfter(overrides: Overrides, j: nat, name: string) {
    forall i :: j < i < |overrides| ==> overrides[i].1 != name
  }

  /** The last rename to a name is the one inverted. */
  lemma {:induction false} InvertedIsLast(overrides: Overrides, name: string, j: nat)
    requires j < |overrides| && overrides[j].1 == name && NoneAfter(overrides, j, name)
    ensures Inverted(overrides, name) == overrides[j].0
  {
    var n := |overrides| - 1;
    if j < n {
      assert overrides[n].1 != name;
      InvertedIsLast(overrides[..n], name, j);
    }
  }

  lemma {:induction false} InvertedIsSame(overrides: Overrides, name: string)
    requires forall j :: 0 <= j < |overrides| ==> overrides[j].1 != name
    ensures Inverted(overrides, name) == name
  {
    if overrides != [] { InvertedIsSame(overrides[..|overrides| - 1], name); }
  }

  lemma {:induction false} LastTo(overrides: Overrides, name: string) returns (j: nat)
    requires exists i :: 0 <= i < |overrides| && overrides[i].1 == name
    ensures j < |overrides| && overrides[j].1 == name
    ensures NoneAfter(overrides, j, name)
  {
    var n := |overrides| - 1;
    if overrides[n].1 == name {
      j := n;
    } else {
      var i :| 0 <= i < |overrides| && overrides[i].1 == name;
      assert overrides[..n][i].1 == name;
      j := LastTo(overrides[..n], name);
    }
  }

  /** Inverting the renames undoes renaming exactly for the names not shadowed. */
  lemma InvertedOfExposed(overrides: Overrides, name: string)
    requires DistinctKeys(overrides)
    ensures Inverted(overrides, Exposed(overrides, name)) == name <==> !Shadowed(overrides, name)
  {
    var e := Exposed(overrides, name);
    if exists i :: 0 <= i < |overrides| && overrides[i].1 == e {
      var j := LastTo(overrides, e);
      InvertedIsLast(overrides, e, j);
      if overrides[j].0 == name {
        assert forall k :: 0 <= k < |overrides| && overrides[k].1 == e ==> k <= j;
        assert !Shadowed(overrides, name);
      } else {
        forall i | 0 <= i < |overrides| && overrides[i].0 == name ensures i < j {
          assert overrides[i].1 == e;
        }
        assert Shadowed(overrides, name);
      }
    } else {
      InvertedIsSame(overrides, e);
    }
  }

  /** Backend `id` listed this name, and no other backend had listed it earlier. */
  predicate ListedFirstBy(listed: seq<(string, string)>, id: string, name: string) {
    exists i :: 0 <= i < |listed| && listed[i] == (id, name) && !ListedBefore(listed, i, name)
  }

  lemma ReverseIsFirst(listed: seq<(string, string)>, id: string, name: string)
    ensures name in ReverseOf(listed) && ReverseOf(listed)[name] == (id, name) <==> ListedFirstBy(listed, id, name)
  {
    ReverseKeys(listed, name);
    if ListedFirstBy(listed, id, name) {
      var i :| 0 <= i < |listed| && listed[i] == (id, name) && !ListedBefore(listed, i, name);
      ReverseHoldsFirst(listed, i);
    } else if ListedBefore(listed, |listed|, name) {
      var k :| 0 <= k < |listed| && listed[k].1 == name;
      var first := FirstLister(listed, k);
      ReverseHoldsFirst(listed, first);
    }
  }

  /** What must hold for a listed capability to be called back: a condition on the
      configuration and, for the passthrough strategy, on what was listed so far. */
  predicate Callable(r: Router, cap: Capability, id: string, value: string) {
    if Single(r) then
      cap.Tools? && r.strategy.Manual? ==> Exposed(r.strategy.overrides, value) == value
    else if cap.Tools? && r.strategy.Manual? then
      && RoutableId(id) && value != ""
      && !Shadowed(r.strategy.overrides, Prefix(id, value))
      && !IsLocal(r, Exposed(r.strategy.overrides, Prefix(id, value)))
    else if cap.Tools? && r.strategy.Passthrough? then
      ListedFirstBy(r.listed, id, value) && !IsLocal(r, value)
    else if cap.Resources? then
      Partition(value, SCHEME_SEP).Some? && id != "" && '/' !in id
    else
      RoutableId(id) && value != "" && (cap.Tools? ==> id !in r.handlers)
  }

  lemma SplitIsPrefix(name: string, id: string, original: string)
    requires Split(name) == Some((id, original))
    ensures name == Prefix(id, original)
  {
  }

  lemma ManualCall(r: Router, id: string, value: string)
    requires id in r.backends && !Single(r)
    requires r.strategy.Manual? && DistinctKeys(r.strategy.overrides)
    ensures Resolve(r, Tools, Shown(r, Tools, id, value)) == Routed(id, value) <==> Callable(r, Tools, id, value)
  {
    var name := Prefix(id, value);
    var shown := Exposed(r.strategy.overrides, name);
    SplitOfPrefix(id, value);
    InvertedOfExposed(r.strategy.overrides, name);
    var back := Inverted(r.strategy.overrides, shown);
    if Split(back) == Some((id, value)) {
      SplitIsPrefix(back, id, value);
    }
  }

  /** Main result: for every strategy and capability, calling what was listed
      reaches the backend that listed it under its original name, exactly when
      `Callable` holds. */
  lemma ListThenCall(r: Router, cap: Capability, id: string, value: string)
    requires id in r.backends
    requires r.strategy.Manual? ==> DistinctKeys(r.strategy.overrides)
    ensures Resolve(r, cap, Shown(r, cap, id, value)) == Routed(id, value) <==> Callable(r, cap, id, value)
  {
    hide Partition, IndexFrom, OccursAt, ValidBackendId;
    SplitOfPrefix(id, value);
    SplitOfPrefixUri(id, value);
    if Single(r) {
      assert r.backends == [id];
    } else if cap.Tools? && r.strategy.Manual? {
      ManualCall(r, id, value);
    } else if cap.Tools? && r.strategy.Passthrough? {
      ReverseIsFirst(r.listed, id, value);
    } else if cap.Tools? {
      var name := Prefix(id, value);
      if IsLocal(r, name) {
        var p := Split(name).value;
        if RoutableId(id) && value != "" { assert p == (id, value); }
      }
    }
  }

  /** The manual strategy end to end. If the rename check accepts the listed names,
      distinct tools are shown under distinct names; with pairwise distinct rename
      targets, none of them a listed name that is not itself renamed and no shown
      name belonging to a handler, every tool routes back to its backend. */
  lemma ManualEndToEnd(r: Router, tools: seq<(string, string)>)
    requires r.strategy.Manual? && DistinctKeys(r.strategy.overrides) && !Single(r)
    requires forall i :: 0 <= i < |tools| ==> tools[i].0 in r.backends && RoutableId(tools[i].0) && tools[i].1 != ""
    requires !Clash(seq(|tools|, i requires 0 <= i < |tools| => Prefix(tools[i].0, tools[i].1)), r.strategy.overrides)
    requires forall i, j :: 0 <= i < j < |r.strategy.overrides| ==>
             r.strategy.overrides[i].1 != r.strategy.overrides[j].1
    requires forall i, j ::
               0 <= i < |tools| && 0 <= j < |r.strategy.overrides| &&
               r.strategy.overrides[j].1 == Prefix(tools[i].0, tools[i].1) ==>
               Renames(r.strategy.overrides, Prefix(tools[i].0, tools[i].1))
    requires forall i :: 0 <= i < |tools| ==> !IsLocal(r, Shown(r, Tools, tools[i].0, tools[i].1))
    ensures forall i :: 0 <= i < |tools| ==>
      Resolve(r, Tools, Shown(r, Tools, tools[i].0, tools[i].1)) == Routed(tools[i].0, tools[i].1)
    ensures forall i, j :: 0 <= i < j < |tools| && tools[i] != tools[j] ==>
      Shown(r, Tools, tools[i].0, tools[i].1) != Shown(r, Tools, tools[j].0, tools[j].1)
  {
    var overrides := r.strategy.overrides;
    var names := seq(|tools|, i requires 0 <= i < |tools| => Prefix(tools[i].0, tools[i].1));
    forall i | 0 <= i < |tools|
      ensures Resolve(r, Tools, Shown(r, Tools, tools[i].0, tools[i].1)) == Routed(tools[i].0, tools[i].1)
    {
      var name := names[i];
      assert !Shadowed(overrides, name);
      ManualCall(r, tools[i].0, tools[i].1);
    }
    forall i, j | 0 <= i < j < |tools| && tools[i] != tools[j]
      ensures Exposed(overrides, names[i]) != Exposed(overrides, names[j])
    {
      PrefixInjective(tools[i].0, tools[i].1, tools[j].0, tools[j].1);
    }
  }

  /** Sharing a rename target misroutes even though the check accepts the listing:
      only `b`'s tool is listed, but inverting the renames finds `c`'s. */
  lemma SharedTargetMisroutes()
    ensures var overrides: Overrides := [("b__x", "x"), ("c__x", "x")];
            var r := Router(["b", "c"], {}, Manual(overrides), []);
            && !Clash(["b__x"], overrides)
            && Resolve(r, Tools, Shown(r, Tools, "b", "x")) == Routed("c", "x")
  {
    var overrides: Overrides := [("b__x", "x"), ("c__x", "x")];
    assert Inverted(overrides, "x") == "c__x";
    assert Prefix("b", "x") == "b__x" && Prefix("c", "x") == "c__x";
    assert !OccursAt("c", DELIMITER, 0) && !OccursAt("x", DELIMITER, 0);
    SplitOfPrefix("c", "x");
  }

  /** A handler's tool can be called under the name it is listed by exactly when no
      rename changes that name: the dispatch looks for a handler before it inverts
      the renames. */
  lemma HandlerToolCallable(r: Router, handler: string, tool: string)
    requires r.strategy.Manual?
    requires handler in r.handlers && RoutableId(handler) && tool != ""
    ensures var name := Prefix(handler, tool);
            var shown := Exposed(r.strategy.overrides, name);
            Resolve(r, Tools, shown) == Local(handler, tool) <==> shown == name
  {
    hide Partition, ReverseOf, Inverted, Exposed;
    var name := Prefix(handler, tool);
    var shown := Exposed(r.strategy.overrides, name);
    SplitOfPrefix(handler, tool);
    if Split(shown) == Some((handler, tool)) { SplitIsPrefix(shown, handler, tool); }
  }

  lemma NoDelimiter(name: string)
    requires |name| == 1
    ensures Split(name).None?
  {
  }

  /** A renamed handler tool that cannot be called at all. */
  lemma RenamedHandlerToolIsUnknown()
    ensures var overrides: Overrides := [("h__x", "x")];
            var r := Router(["b"], {"h"}, Manual(overrides), []);
            && Exposed(overrides, Prefix("h", "x")) == "x"
            && !Clash([Prefix("h", "x")], overrides)
            && Resolve(r, Tools, "x") == Unknown
  {
    var overrides: Overrides := [("h__x", "x")];
    assert Prefix("h", "x") == "h__x";
    assert Inverted(overrides, "x") == "h__x";
    NoDelimiter("x");
    assert !OccursAt("h", DELIMITER, 0);
    SplitOfPrefix("h", "x");
  }

  /** With one backend and no handlers, a rename is shown but never inverted. */
  lemma SingleBackendRenameMisroutes()
    ensures var overrides: Overrides := [("x", "y")];
            var r := Router(["b"], {}, Manual(overrides), []);
            && Shown(r, Tools, "b", "x") == "y"
            && Resolve(r, Tools, "y") == Routed("b", "y")
  {
    NoDelimiter("y");
  }

  /** A URI without `://` is listed as it is and cannot be read back. */
  lemma OpaqueUriIsUnknown()
    ensures var r := Router(["a", "b"], {}, Prefixed, []);
            && Shown(r, Resources, "a", "mailto:x") == "mailto:x"
            && Resolve(r, Resources, "mailto:x") == Unknown
  {
    var uri := "mailto:x";
    forall j: nat ensures !OccursAt(uri, SCHEME_SEP, j) {
      if j + 3 <= |uri| { assert uri[j..j + 3][1] == uri[j + 1] != '/'; }
    }
    assert Partition(uri, SCHEME_SEP).None?;
  }

  /** Passthrough end to end: every listed name is called at the backend that
      listed it first (`first`), so a tool reaches its own backend exactly when that
      is where the name was first listed. */
  lemma PassthroughReachesFirstLister(r: Router, i: nat) returns (first: nat)
    requires r.strategy.Passthrough? && !Single(r)
    requires forall k :: 0 <= k < |r.listed| ==> r.listed[k].0 in r.backends
    requires i < |r.listed| && !IsLocal(r, r.listed[i].1)
    ensures first <= i && r.listed[first].1 == r.listed[i].1 && !ListedBefore(r.listed, first, r.listed[i].1)
    ensures Resolve(r, Tools, r.listed[i].1) == Routed(r.listed[first].0, r.listed[i].1)
  {
    first := FirstLister(r.listed, i);
    ReverseHoldsFirst(r.listed, first);
  }

  /** A call only ever goes to a backend there is, under a name that splits to it or that
      it listed. */
  lemma RoutedIsKnown(r: Router, cap: Capability, value: string)
    ensures Resolve(r, cap, value).Routed? ==> Resolve(r, cap, value).backend in r.backends
    ensures Resolve(r, cap, value).Local? ==>
      var target := Resolve(r, cap, value);
      cap.Tools? && target.handler in r.handlers && target.tool != "" && value == Prefix(target.handler, target.tool)
    ensures r.strategy.Prefixed? && !Single(r) && Resolve(r, cap, value).Routed? && !cap.Resources? ==>
      value == Prefix(Resolve(r, cap, value).backend, Resolve(r, cap, value).original)
  {
    if Split(value).Some? { PrefixOfSplit(value); }
    if Single(r) { assert r.backends[0] in r.backends; }
  }

  /** A handler's tool that is not renamed reaches the handler, whatever the strategy
      and however many backends there are. */
  lemma HandlerServes(r: Router, handler: string, tool: string)
    requires handler in r.handlers && RoutableId(handler) && tool != ""
    ensures Resolve(r, Tools, Prefix(handler, tool)) == Local(handler, tool)
    ensures !Resolve(r, Prompts, Prefix(handler, tool)).Local? && !Resolve(r, Resources, Prefix(handler, tool)).Local?
  {
    SplitOfPrefix(handler, tool);
  }
}
