/** Collision strategies over a composed tool list (yamp/collision.py). */
module Collision {
  import opened Basics
  import opened Listing
  import Namespace

  type Splitter = string -> Option<(string, string)>

  /** The name a tool carries at its backend. */
  function Original(split: Splitter, tool: Item): string {
    match split(tool.name)
    case None => tool.name
    case Some((_, original)) => original
  }

  /** The position of an id in the priority list; a repeated id keeps its last
      position, and an unlisted one ranks below all. */
  function RankOfId(priority: seq<string>, id: string): nat {
    if priority == [] then 0
    else
      var n := |priority| - 1;
      if priority[n] == id then n
      else if id in priority[..n] then RankOfId(priority[..n], id)
      else |priority|
  }

  function Rank(split: Splitter, priority: seq<string>, tool: Item): nat {
    match split(tool.name)
    case None => |priority|
    case Some((id, _)) => RankOfId(priority, id)
  }

  /** The original names in order of first appearance. */
  function Order(split: Splitter, tools: seq<Item>): seq<string> {
    if tools == [] then []
    else
      var n := |tools| - 1;
      var earlier, key := Order(split, tools[..n]), Original(split, tools[n]);
      if key in earlier then earlier else earlier + [key]
  }

  /** The copy of `key` to keep, scanning from the left. */
  function Best(split: Splitter, priority: seq<string>, tools: seq<Item>, key: string): Option<Item> {
    if tools == [] then None
    else
      var n := |tools| - 1;
      var earlier, tool := Best(split, priority, tools[..n], key), tools[n];
      if Original(split, tool) != key then earlier
      else if earlier.Some? && Rank(split, priority, earlier.value) <= Rank(split, priority, tool) then earlier
      else Some(tool)
  }

  lemma {:induction false} OrderHoldsNames(split: Splitter, tools: seq<Item>)
    ensures forall i, j :: 0 <= i < j < |Order(split, tools)| ==> Order(split, tools)[i] != Order(split, tools)[j]
    ensures forall key :: key in Order(split, tools) <==> Best(split, [], tools, key).Some?
    ensures forall tool :: tool in tools ==> Original(split, tool) in Order(split, tools)
  {
    if tools != [] {
      var n := |tools| - 1;
      OrderHoldsNames(split, tools[..n]);
      assert tools == tools[..n] + [tools[n]];
    }
  }

  lemma {:induction false} BestExists(split: Splitter, priority: seq<string>, tools: seq<Item>, key: string)
    ensures Best(split, priority, tools, key).Some? <==> key in Order(split, tools)
  {
    if tools != [] {
      BestExists(split, priority, tools[..|tools| - 1], key);
    }
  }

  /** `i` is the first of the tools of least rank among those called `key`. */
  ghost predicate IsWinner(split: Splitter, priority: seq<string>, tools: seq<Item>, key: string, i: nat) {
    && i < |tools| && Original(split, tools[i]) == key
    && forall j :: 0 <= j < |tools| && Original(split, tools[j]) == key ==>
         && Rank(split, priority, tools[i]) <= Rank(split, priority, tools[j])
         && (j < i ==> Rank(split, priority, tools[i]) < Rank(split, priority, tools[j]))
  }

  lemma {:induction false} BestIsWinner(split: Splitter, priority: seq<string>, tools: seq<Item>, key: string)
    returns (i: nat)
    requires Best(split, priority, tools, key).Some?
    ensures IsWinner(split, priority, tools, key, i)
    ensures Best(split, priority, tools, key) == Some(tools[i])
  {
    var n := |tools| - 1;
    var earlier := tools[..n];
    if Best(split, priority, earlier, key).Some? {
      var w := BestIsWinner(split, priority, earlier, key);
      i := if Best(split, priority, tools, key) == Some(earlier[w]) &&
              !(Original(split, tools[n]) == key && Rank(split, priority, tools[n]) < Rank(split, priority, earlier[w]))
           then w else n;
    } else {
      i := n;
      forall j | 0 <= j < n ensures Original(split, tools[j]) != key {
        OrderHoldsNames(split, earlier);
        BestExists(split, priority, earlier, key);
        assert earlier[j] in earlier;
      }
    }
  }

  lemma WinnerUnique(split: Splitter, priority: seq<string>, tools: seq<Item>, key: string, i: nat, j: nat)
    requires IsWinner(split, priority, tools, key, i) && IsWinner(split, priority, tools, key, j)
    ensures i == j
  {
  }

  function Pick(order: seq<string>, kept: map<string, Item>): (r: seq<Item>)
    requires forall k :: k in order ==> k in kept
    ensures |r| == |order| && forall i :: 0 <= i < |order| ==> r[i] == kept[order[i]]
  {
    seq(|order|, i requires 0 <= i < |order| => kept[order[i]])
  }

  /** One tool per original name, in order of first appearance. */
  function Prioritized(split: Splitter, priority: seq<string>, tools: seq<Item>): seq<Item> {
    var order := Order(split, tools);
    seq(|order|, i requires 0 <= i < |order| =>
      BestExists(split, priority, tools, order[i]);
      Best(split, priority, tools, order[i]).value)
  }

  /** What the result holds, without naming how it is computed: one tool per
      original name, each the first of least rank, ordered by first appearance. */
  lemma PriorityMeaning(split: Splitter, priority: seq<string>, tools: seq<Item>)
    ensures var r := Prioritized(split, priority, tools);
            && (forall i, j :: 0 <= i < j < |r| ==> Original(split, r[i]) != Original(split, r[j]))
            && (forall i :: 0 <= i < |r| ==>
                  Original(split, r[i]) == Order(split, tools)[i] &&
                  exists w: nat :: IsWinner(split, priority, tools, Original(split, r[i]), w) && r[i] == tools[w])
            && (forall tool :: tool in tools ==>
              exists j :: 0 <= j < |r| && Original(split, r[j]) == Original(split, tool))
  {
    var r, order := Prioritized(split, priority, tools), Order(split, tools);
    OrderHoldsNames(split, tools);
    forall i | 0 <= i < |r|
      ensures Original(split, r[i]) == order[i]
      ensures exists w: nat :: IsWinner(split, priority, tools, order[i], w) && r[i] == tools[w]
    {
      BestExists(split, priority, tools, order[i]);
      var w := BestIsWinner(split, priority, tools, order[i]);
    }
    forall tool | tool in tools ensures exists j :: 0 <= j < |r| && Original(split, r[j]) == Original(split, tool) {
      var j :| 0 <= j < |order| && order[j] == Original(split, tool);
      assert Original(split, r[j]) == order[j];
    }
  }

  /** First appearance order: an earlier listed name was met earlier. */
  lemma {:induction false} OrderIsFirstAppearance(split: Splitter, tools: seq<Item>, i: nat, j: nat) returns (a: nat)
    requires i < j < |Order(split, tools)|
    ensures a < |tools| && Original(split, tools[a]) == Order(split, tools)[i]
    ensures forall b :: 0 <= b < |tools| && Original(split, tools[b]) == Order(split, tools)[j] ==> a < b
  {
    var n := |tools| - 1;
    var earlier := tools[..n];
    OrderHoldsNames(split, earlier);
    OrderHoldsNames(split, tools);
    if j < |Order(split, earlier)| {
      a := OrderIsFirstAppearance(split, earlier, i, j);
    } else {
      BestExists(split, [], earlier, Order(split, tools)[i]);
      a := BestIsWinner(split, [], earlier, Order(split, tools)[i]);
      forall b | 0 <= b < n ensures Original(split, tools[b]) != Order(split, tools)[j] {
        assert earlier[b] in earlier;
      }
    }
  }

  lemma {:induction false} DistinctAlreadyPrioritized(split: Splitter, priority: seq<string>, tools: seq<Item>)
    requires forall i, j :: 0 <= i < j < |tools| ==> Original(split, tools[i]) != Original(split, tools[j])
    ensures |Order(split, tools)| == |tools|
    ensures forall i :: 0 <= i < |tools| ==>
      Order(split, tools)[i] == Original(split, tools[i]) &&
      Best(split, priority, tools, Original(split, tools[i])) == Some(tools[i])
  {
    if tools != [] {
      var n := |tools| - 1;
      DistinctAlreadyPrioritized(split, priority, tools[..n]);
      BestExists(split, priority, tools[..n], Original(split, tools[n]));
    }
  }

  /** Resolving an already resolved list changes nothing. */
  lemma PriorityIdempotent(split: Splitter, priority: seq<string>, tools: seq<Item>)
    ensures var once := Prioritized(split, priority, tools);
            Prioritized(split, priority, once) == once
  {
    PriorityMeaning(split, priority, tools);
    DistinctAlreadyPrioritized(split, priority, Prioritized(split, priority, tools));
  }

  /** The loop's tables describe the tools seen so far. */
  ghost predicate Tracks(split: Splitter, priority: seq<string>, seen: seq<Item>,
                         order: seq<string>, best: map<string, nat>, kept: map<string, Item>) {
    && order == Order(split, seen)
    && (forall k :: k in order <==> k in kept)
    && kept.Keys == best.Keys
    && (forall k :: k in order ==> Best(split, priority, seen, k) == Some(kept[k]))
    && (forall k :: k in order ==> best[k] == Rank(split, priority, kept[k]))
  }

  /** A tool under a new name, or a better copy, is recorded; any other copy leaves
      the tables alone. */
  lemma TrackStep(split: Splitter, priority: seq<string>, seen: seq<Item>, tool: Item,
                  order: seq<string>, best: map<string, nat>, kept: map<string, Item>)
    requires Tracks(split, priority, seen, order, best, kept)
    ensures var key, rank := Original(split, tool), Rank(split, priority, tool);
            if key !in best || rank < best[key] then
              Tracks(split, priority, seen + [tool], if key in best then order else order + [key],
                     best[key := rank], kept[key := tool])
            else
              Tracks(split, priority, seen + [tool], order, best, kept)
  {
    assert (seen + [tool])[..|seen|] == seen;
    BestExists(split, priority, seen, Original(split, tool));
  }

  lemma ReplaceOne(order: seq<string>, kept: map<string, Item>, key: string, tool: Item)
    requires forall k :: k in order ==> k in kept
    requires key in order && forall i, j :: 0 <= i < j < |order| ==> order[i] != order[j]
    ensures multiset(Pick(order, kept[key := tool])) + multiset{kept[key]} ==
            multiset(Pick(order, kept)) + multiset{tool}
  {
    var i :| 0 <= i < |order| && order[i] == key;
    assert Pick(order, kept[key := tool]) == Pick(order, kept)[i := tool];
  }

  lemma SwapIn(order: seq<string>, kept: map<string, Item>, key: string, tool: Item, discarded: seq<Item>,
               seen: seq<Item>)
    requires forall k :: k in order ==> k in kept
    requires key in order && forall i, j :: 0 <= i < j < |order| ==> order[i] != order[j]
    requires multiset(Pick(order, kept)) + multiset(discarded) == multiset(seen)
    ensures multiset(Pick(order, kept[key := tool])) + multiset(discarded + [kept[key]]) == multiset(seen + [tool])
  {
    ReplaceOne(order, kept, key, tool);
    var was, now := multiset(Pick(order, kept)), multiset(Pick(order, kept[key := tool]));
    calc {
      now + multiset(discarded + [kept[key]]);
      (now + multiset{kept[key]}) + multiset(discarded);
      (was + multiset{tool}) + multiset(discarded);
      multiset(seen + [tool]);
    }
  }

  lemma DistinctOrder(split: Splitter, tools: seq<Item>)
    ensures forall i, j :: 0 <= i < j < |Order(split, tools)| ==> Order(split, tools)[i] != Order(split, tools)[j]
  {
  }

  lemma AddOne(order: seq<string>, kept: map<string, Item>, key: string, tool: Item)
    requires forall k :: k in order ==> k in kept
    requires key !in order
    ensures Pick(order + [key], kept[key := tool]) == Pick(order, kept) + [tool]
  {
  }

  /** What the discarding loop keeps true: its tables are right and no tool seen
      so far is lost or doubled. */
  ghost predicate LoopState(split: Splitter, priority: seq<string>, seen: seq<Item>, order: seq<string>,
                            best: map<string, nat>, kept: map<string, Item>, discarded: seq<Item>) {
    && Tracks(split, priority, seen, order, best, kept)
    && multiset(Pick(order, kept)) + multiset(discarded) == multiset(seen)
  }

  lemma StepNew(split: Splitter, priority: seq<string>, seen: seq<Item>, tool: Item, order: seq<string>,
                best: map<string, nat>, kept: map<string, Item>, discarded: seq<Item>)
    requires LoopState(split, priority, seen, order, best, kept, discarded)
    requires Original(split, tool) !in best
    ensures var key, rank := Original(split, tool), Rank(split, priority, tool);
            LoopState(split, priority, seen + [tool], order + [key], best[key := rank], kept[key := tool], discarded)
  {
    TrackStep(split, priority, seen, tool, order, best, kept);
    AddOne(order, kept, Original(split, tool), tool);
  }

  lemma StepBetter(split: Splitter, priority: seq<string>, seen: seq<Item>, tool: Item, order: seq<string>,
                   best: map<string, nat>, kept: map<string, Item>, discarded: seq<Item>)
    requires LoopState(split, priority, seen, order, best, kept, discarded)
    requires var key := Original(split, tool); key in best && Rank(split, priority, tool) < best[key]
    ensures var key, rank := Original(split, tool), Rank(split, priority, tool);
            LoopState(split, priority, seen + [tool], order, best[key := rank], kept[key := tool], discarded +
              [kept[key]])
  {
    TrackStep(split, priority, seen, tool, order, best, kept);
    DistinctOrder(split, seen);
    SwapIn(order, kept, Original(split, tool), tool, discarded, seen);
  }

  lemma StepWorse(split: Splitter, priority: seq<string>, seen: seq<Item>, tool: Item, order: seq<string>,
                  best: map<string, nat>, kept: map<string, Item>, discarded: seq<Item>)
    requires LoopState(split, priority, seen, order, best, kept, discarded)
    requires var key := Original(split, tool); key in best && Rank(split, priority, tool) >= best[key]
    ensures LoopState(split, priority, seen + [tool], order, best, kept, discarded + [tool])
  {
    TrackStep(split, priority, seen, tool, order, best, kept);
  }

  /** The discarding loop: keeps the best copy of each name seen so far and hands
      every other one to `on_discard`. */
  method ApplyPriority(split: Splitter, priority: seq<string>, tools: seq<Item>)
    returns (result: seq<Item>, discarded: seq<Item>)
    ensures result == Prioritized(split, priority, tools)
    ensures multiset(result) + multiset(discarded) == multiset(tools)
  {
    var best: map<string, nat> := map[];
    var kept: map<string, Item> := map[];
    var order: seq<string> := [];
    discarded := [];
    for n := 0 to |tools|
      invariant LoopState(split, priority, tools[..n], order, best, kept, discarded)
    {
      var tool := tools[n];
      var original := Original(split, tool);
      var thisRank := Rank(split, priority, tool);
      assert tools[..n + 1] == tools[..n] + [tool];
      if original !in best {
        StepNew(split, priority, tools[..n], tool, order, best, kept, discarded);
        best := best[original := thisRank];
        kept := kept[original := tool];
        order := order + [original];
      } else if thisRank < best[original] {
        StepBetter(split, priority, tools[..n], tool, order, best, kept, discarded);
        discarded := discarded + [kept[original]];
        best := best[original := thisRank];
        kept := kept[original := tool];
      } else {
        StepWorse(split, priority, tools[..n], tool, order, best, kept, discarded);
        discarded := discarded + [tool];
      }
    }
    assert tools[..|tools|] == tools;
    result := Pick(order, kept);
  }

  /** Explicit renames in the order they are declared: namespaced to exposed. */
  type Overrides = seq<(string, string)>

  predicate DistinctKeys(overrides: Overrides) {
    forall i, j :: 0 <= i < j < |overrides| ==> overrides[i].0 != overrides[j].0
  }

  predicate Renames(overrides: Overrides, name: string) {
    exists i :: 0 <= i < |overrides| && overrides[i].0 == name
  }

  function Exposed(overrides: Overrides, name: string): (r: string)
    ensures DistinctKeys(overrides) ==>
      forall i :: 0 <= i < |overrides| && overrides[i].0 == name ==> r == overrides[i].1
    ensures !Renames(overrides, name) ==> r == name
    ensures Renames(overrides, name) ==>
      exists i :: 0 <= i < |overrides| && overrides[i].0 == name && overrides[i].1 == r
  {
    if overrides == [] then name
    else if overrides[0].0 == name then
      assert overrides[0].0 == name;
      overrides[0].1
    else
      assert forall i :: 0 < i < |overrides| ==> overrides[i] == overrides[1..][i - 1];
      Exposed(overrides[1..], name)
  }

  /** Two listed names that would share an exposed name. */
  predicate Clash(names: seq<string>, overrides: Overrides) {
    exists i, j :: 0 <= i < j < |names| && names[i] != names[j] &&
      Exposed(overrides, names[i]) == Exposed(overrides, names[j])
  }

  /** The two tables built from the names seen so far. */
  ghost predicate Claims(names: seq<string>, overrides: Overrides, exposed: map<string, string>,
                         seen: map<string, string>) {
    && (forall n :: n in exposed <==> n in names)
    && (forall n :: n in names ==> exposed[n] == Exposed(overrides, n))
    && (forall n :: n in names ==> exposed[n] in seen && seen[exposed[n]] == n)
    && (forall t :: t in seen ==> seen[t] in names && Exposed(overrides, seen[t]) == t)
  }

  lemma NoClash(names: seq<string>, overrides: Overrides, exposed: map<string, string>, seen: map<string, string>)
    requires Claims(names, overrides, exposed, seen)
    ensures !Clash(names, overrides)
    ensures forall m, n :: m in exposed && n in exposed && exposed[m] == exposed[n] ==> m == n
  {
  }

  /** `resolve_manual`: None stands for the UnresolvedCollision it raises. */
  method ResolveManual(names: seq<string>, overrides: Overrides) returns (r: Option<map<string, string>>)
    ensures r.None? <==> Clash(names, overrides)
    ensures r.Some? ==> forall n :: n in r.value <==> n in names
    ensures r.Some? ==> forall n :: n in names ==> r.value[n] == Exposed(overrides, n)
    ensures r.Some? ==> forall m, n :: m in r.value && n in r.value && r.value[m] == r.value[n] ==> m == n
  {
    var exposed: map<string, string> := map[];
    var seen: map<string, string> := map[];
    for k := 0 to |names|
      invariant Claims(names[..k], overrides, exposed, seen)
    {
      var name := names[k];
      var target := Exposed(overrides, name);
      assert names[..k + 1] == names[..k] + [name];
      if target in seen && seen[target] != name {
        ghost var i :| 0 <= i < k && names[..k][i] == seen[target];
        assert names[i] != names[k];
        return None;
      }
      seen := seen[target := name];
      exposed := exposed[name := target];
    }
    assert names[..|names|] == names;
    NoClash(names, overrides, exposed, seen);
    return Some(exposed);
  }

  // ---- Priorities over backends ----

  /** `p` is the priority of a backend: its last position in the list, or the list's
      length if it is not listed. */
  predicate IsPriority(priority: seq<string>, id: string, p: nat) {
    if id in priority then p < |priority| && priority[p] == id && forall j :: p < j < |priority| ==> priority[j] != id
    else p == |priority|
  }

  lemma {:induction false} RankOfIdMeaning(priority: seq<string>, id: string)
    ensures IsPriority(priority, id, RankOfId(priority, id))
  {
    if priority != [] {
      var n := |priority| - 1;
      assert priority == priority[..n] + [priority[n]];
      RankOfIdMeaning(priority[..n], id);
    }
  }

  /** Of two listed tools with one original name, `w` is kept rather than `i`: its
      backend comes first in the priorities, or they are equal and it was listed first. */
  ghost predicate Preferred(priority: seq<string>, tools: seq<(string, string)>, w: nat, i: nat)
    requires w < |tools| && i < |tools|
  {
    forall p, q :: IsPriority(priority, tools[w].0, p) && IsPriority(priority, tools[i].0, q) ==>
      p < q || (p == q && w <= i)
  }

  /** Tool `w` is preferred to every tool with its original name. */
  ghost predicate Wins(priority: seq<string>, tools: seq<(string, string)>, w: nat) {
    w < |tools| && forall i: nat :: i < |tools| && tools[i].1 == tools[w].1 ==> Preferred(priority, tools, w, i)
  }

  /** Items that list some tools of routable backends under the prefix strategy. */
  predicate Lists(items: seq<Item>, tools: seq<(string, string)>) {
    |items| == |tools| &&
    forall i :: 0 <= i < |tools| ==>
      Namespace.RoutableId(tools[i].0) && tools[i].1 != "" && items[i].name == Namespace.Prefix(tools[i].0, tools[i].1)
  }

  lemma ListedRank(priority: seq<string>, tools: seq<(string, string)>, items: seq<Item>, i: nat)
    requires Lists(items, tools) && i < |tools|
    ensures Original(Namespace.Split, items[i]) == tools[i].1
    ensures Rank(Namespace.Split, priority, items[i]) == RankOfId(priority, tools[i].0)
  {
    Namespace.SplitOfPrefix(tools[i].0, tools[i].1);
  }

  lemma ListsLength(items: seq<Item>, tools: seq<(string, string)>)
    requires Lists(items, tools)
    ensures |items| == |tools|
  {
  }

  lemma PriorityUnique(priority: seq<string>, id: string, p: nat, q: nat)
    requires IsPriority(priority, id, p) && IsPriority(priority, id, q)
    ensures p == q
  {
  }

  lemma WinnerPreferred(priority: seq<string>, tools: seq<(string, string)>, w: nat, i: nat)
    requires w < |tools| && i < |tools|
    requires RankOfId(priority, tools[w].0) <= RankOfId(priority, tools[i].0)
    requires i < w ==> RankOfId(priority, tools[w].0) < RankOfId(priority, tools[i].0)
    ensures Preferred(priority, tools, w, i)
  {
    hide RankOfId;
    RankOfIdMeaning(priority, tools[w].0);
    RankOfIdMeaning(priority, tools[i].0);
    forall p: nat, q: nat | IsPriority(priority, tools[w].0, p) && IsPriority(priority, tools[i].0, q)
      ensures p < q || (p == q && w <= i)
    {
      PriorityUnique(priority, tools[w].0, p, RankOfId(priority, tools[w].0));
      PriorityUnique(priority, tools[i].0, q, RankOfId(priority, tools[i].0));
    }
  }

  lemma WinnerWins(priority: seq<string>, tools: seq<(string, string)>, items: seq<Item>, w: nat)
    requires Lists(items, tools) && w < |tools|
    requires IsWinner(Namespace.Split, priority, items, tools[w].1, w)
    ensures Wins(priority, tools, w)
  {
    hide Lists, Original, Rank, RankOfId, Preferred;
    assert |items| == |tools| by { ListsLength(items, tools); }
    ListedRank(priority, tools, items, w);
    forall i: nat | i < |tools| && tools[i].1 == tools[w].1 ensures Preferred(priority, tools, w, i) {
      ListedRank(priority, tools, items, i);
      WinnerPreferred(priority, tools, w, i);
    }
  }

  lemma WinsUnique(priority: seq<string>, tools: seq<(string, string)>, v: nat, w: nat)
    requires Wins(priority, tools, v) && Wins(priority, tools, w) && tools[v].1 == tools[w].1
    ensures v == w
  {
    RankOfIdMeaning(priority, tools[v].0);
    RankOfIdMeaning(priority, tools[w].0);
    assert Preferred(priority, tools, v, w) && Preferred(priority, tools, w, v);
  }

  /** Each kept item is that of a preferred tool. */
  lemma KeptWins(priority: seq<string>, tools: seq<(string, string)>, items: seq<Item>, j: nat) returns (w: nat)
    requires Lists(items, tools) && j < |Prioritized(Namespace.Split, priority, items)|
    ensures Wins(priority, tools, w) && w < |tools| && w < |items|
    ensures Prioritized(Namespace.Split, priority, items)[j] == items[w]
    ensures Order(Namespace.Split, items)[j] == tools[w].1
  {
    var split := Namespace.Split;
    PriorityMeaning(split, priority, items);
    ListsLength(items, tools);
    var kept := Prioritized(split, priority, items);
    var key := Original(split, kept[j]);
    hide Prioritized, Original, Rank, Lists, Wins, Order;
    w :| IsWinner(split, priority, items, key, w) && kept[j] == items[w];
    ListedRank(priority, tools, items, w);
    WinnerWins(priority, tools, items, w);
  }

  /** The item of a preferred tool. */
  ghost predicate FromWinner(priority: seq<string>, tools: seq<(string, string)>, items: seq<Item>, item: Item) {
    exists w: nat :: w < |tools| && w < |items| && Wins(priority, tools, w) && item == items[w]
  }

  /** The priority strategy over prefixed listings, in terms of backends and original
      names: a tool is kept if and only if it is preferred to every other that shares
      its original name. */
  lemma PriorityOverBackends(priority: seq<string>, tools: seq<(string, string)>, items: seq<Item>)
    requires Lists(items, tools)
    ensures forall item :: item in Prioritized(Namespace.Split, priority, items) <==>
            FromWinner(priority, tools, items, item)
  {
    var kept := Prioritized(Namespace.Split, priority, items);
    PriorityMeaning(Namespace.Split, priority, items);
    hide Prioritized, Order, Original, Rank, Lists, Wins;
    forall item ensures item in kept <==> FromWinner(priority, tools, items, item) {
      if item in kept {
        var j: nat :| j < |kept| && kept[j] == item;
        var w := KeptWins(priority, tools, items, j);
      }
      if FromWinner(priority, tools, items, item) {
        var w: nat :| w < |tools| && w < |items| && Wins(priority, tools, w) && item == items[w];
        assert items[w] in items;
        var j :| 0 <= j < |kept| && Original(Namespace.Split, kept[j]) == Original(Namespace.Split, items[w]);
        var v := KeptWins(priority, tools, items, j);
        ListedRank(priority, tools, items, v);
        ListedRank(priority, tools, items, w);
        WinsUnique(priority, tools, v, w);
      }
    }
  }
}
