/** The composed list surface (`_collect` and `_aggregate` in yamp/router.py,
    filters in yamp/routing.py): fan out, label, filter, resolve collisions, and mint
    one composite cursor. */
module Aggregation {
  import opened Basics
  import opened Json
  import opened Listing
  import opened Collision
  import opened Routing
  import opened Cursor
  import opened ListCache
  import JsonText
  import Namespace

  datatype Member = Member(id: string, keywords: seq<string>)

  /** Everything about the router that does not change during one list request.
      `local` holds the handlers' tools under their exposed names. */
  datatype Config = Config(
    members: seq<Member>,
    router: Router,
    cap: Capability,
    resilient: bool,
    variants: seq<string>,
    local: seq<Item>)

  predicate Consistent(c: Config) {
    && |c.router.backends| == |c.members|
    && (forall i :: 0 <= i < |c.members| ==> c.router.backends[i] == c.members[i].id)
    && (forall i, j :: 0 <= i < j < |c.members| ==> c.members[i].id != c.members[j].id)
  }

  /** The client's filter; an empty filter object counts as none. */
  datatype ListFilter = ListFilter(given: bool, keywords: seq<string>, patterns: seq<string>)

  datatype Query = Query(filter: ListFilter, cursor: Option<Json>, variant: Option<string>)

  /** A backend's answer to one list request, or the exception it raised. */
  datatype Reply = Reply(result: ListResult) | Failed

  /** What the backends answer under the query's filter and variant: by backend id
      and continuation cursor. */
  type Backends = (string, Option<Json>) -> Reply

  // ---- Name patterns ----

  predicate Contains(s: string, part: string) { IndexFrom(s, part, 0).Some? }

  predicate Glob(pattern: string, name: string) {
    var n := |pattern|;
    if pattern == "*" then true
    else if n > 0 && pattern[0] == '*' && pattern[n - 1] == '*' then Contains(name, pattern[1..n - 1])
    else if n > 0 && pattern[n - 1] == '*' then pattern[..n - 1] <= name
    else if n > 0 && pattern[0] == '*' then n - 1 <= |name| && name[|name| - (n - 1)..] == pattern[1..]
    else name == pattern
  }

  predicate NameMatches(name: string, patterns: seq<string>) {
    patterns == [] || exists p :: p in patterns && Glob(p, name)
  }

  predicate BackendSelected(own: seq<string>, wanted: seq<string>) {
    own == [] || wanted == [] || exists k :: k in own && k in wanted
  }

  // ---- Collecting ----

  function EffectiveVariant(c: Config, variant: Option<string>): Option<string> {
    if variant.Some? then variant else if c.variants != [] then Some(c.variants[0]) else None
  }

  function Resolved(q: Query): Option<(Option<string>, BackendCursors)> {
    if q.cursor.Some? then ResolveCursor(q.cursor.value) else None
  }

  /** A composite cursor restricts the continuation to the backends it names. */
  function Restriction(q: Query): Option<BackendCursors> {
    match Resolved(q) case None => None case Some((_, cursors)) => Some(cursors)
  }

  predicate Asked(c: Config, up: set<string>, q: Query, m: Member) {
    && (c.resilient ==> m.id in up)
    && BackendSelected(m.keywords, q.filter.keywords)
    && (Restriction(q).Some? ==> m.id in Restriction(q).value)
  }

  /** The backends a query fans out to, in order. */
  function Available(c: Config, up: set<string>, q: Query, members: seq<Member>): (r: seq<string>)
    ensures forall id :: id in r <==> exists m :: m in members && m.id == id && Asked(c, up, q, m)
  {
    if members == [] then []
    else
      assert members == [members[0]] + members[1..];
      (if Asked(c, up, q, members[0]) then [members[0].id] else []) + Available(c, up, q, members[1..])
  }

  function Down(c: Config, up: set<string>, members: seq<Member>): seq<string> {
    if members == [] then []
    else (if c.resilient && members[0].id !in up then [members[0].id] else []) + Down(c, up, members[1..])
  }

  /** The continuation cursor one backend is sent. */
  function CursorFor(c: Config, q: Query, id: string): Option<Json>
    requires Restriction(q).Some? ==> id in Restriction(q).value
  {
    if Restriction(q).Some? then Some(Str(Restriction(q).value[id]))
    else if q.cursor.Some? && Single(c.router) then q.cursor
    else None
  }

  /** The items of one backend as the client sees them: labelled, then filtered. */
  function ShownItems(c: Config, id: string, patterns: seq<string>, items: seq<Item>): seq<Item> {
    if items == [] then []
    else
      var labelled := Label(c.router, c.cap, id, items[0].name);
      (if NameMatches(labelled, patterns) then [items[0].(name := labelled)] else [])
      + ShownItems(c, id, patterns, items[1..])
  }

  /** What each backend of a fan-out replied, by id. */
  type Replies = map<string, Reply>

  function AllItems(c: Config, patterns: seq<string>, ids: seq<string>, replies: Replies): seq<Item>
    requires forall id :: id in ids ==> id in replies
  {
    if ids == [] then []
    else
      (if replies[ids[0]].Reply? then ShownItems(c, ids[0], patterns, replies[ids[0]].result.items) else [])
      + AllItems(c, patterns, ids[1..], replies)
  }

  function FailedIds(ids: seq<string>, replies: Replies): seq<string>
    requires forall id :: id in ids ==> id in replies
  {
    if ids == [] then []
    else
      var n := |ids| - 1;
      FailedIds(ids[..n], replies) + if replies[ids[n]].Failed? then [ids[n]] else []
  }

  predicate HasMore(reply: Reply) { reply.Reply? && reply.result.nextCursor.Some? }

  /** The backends that have more pages, with their own cursors. */
  function NextCursors(replies: Replies): BackendCursors {
    map id | id in replies && HasMore(replies[id]) :: replies[id].result.nextCursor.value
  }

  /** What `_collect` returns, or the exception it passes on. */
  datatype Collected = Collected(items: seq<Item>, unavailable: seq<string>, cursors: BackendCursors) | FetchRaised

  function CollectedFrom(c: Config, up: set<string>, q: Query, replies: Replies): Collected
    requires forall id :: id in replies <==> id in Available(c, up, q, c.members)
  {
    var ids := Available(c, up, q, c.members);
    if !c.resilient && exists id :: id in ids && replies[id].Failed? then FetchRaised
    else Collected(AllItems(c, q.filter.patterns, ids, replies),
                   Down(c, up, c.members) + FailedIds(ids, replies), NextCursors(replies))
  }

  // ---- The cache in front of the fan-out ----

  function ListMethod(cap: Capability): string {
    match cap case Tools => "tools/list" case Prompts => "prompts/list" case Resources => "resources/list"
  }

  /** Only the plain listing is cached: no filter, cursor or variant. */
  predicate Cacheable(c: Config, q: Query) {
    !q.filter.given && q.cursor.None? && EffectiveVariant(c, q.variant).None?
  }

  /** What the cache would answer, if there is one. */
  datatype CacheView = NoCache | View(history: seq<Event>, defaultTtlMs: real, principal: Option<string>, now: real)

  function Hit(view: CacheView, cap: Capability, id: string): Option<ListResult> {
    match view
    case NoCache => None
    case View(history, ttl, principal, now) => Answer(history, ttl, (id, ListMethod(cap)), principal, now)
  }

  /** A request without filter, cursor or variant, to a router that offers none. */
  predicate Unspecific(c: Config, q: Query) {
    !q.filter.given && q.cursor.None? && q.variant.None? && c.variants == []
  }

  /** The replies a query is answered from: a fresh cache entry, or the backend. */
  function RepliesTo(c: Config, up: set<string>, q: Query, view: CacheView, ask: Backends): (r: Replies)
    ensures forall id :: id in r <==> id in Available(c, up, q, c.members)
  {
    map id | id in Available(c, up, q, c.members) ::
      if Cacheable(c, q) && Hit(view, c.cap, id).Some? then Reply(Hit(view, c.cap, id).value)
      else ask(id, CursorFor(c, q, id))
  }

  // ---- Aggregating ----

  /** The response to a list request, or the error it is refused with. */
  datatype Answered =
    | Page(items: seq<Item>, nextCursor: Option<string>, unavailable: seq<string>)
    | WrongVariant
    | UnknownCursor
    | ManualCollision
    | Raised

  /** The cursor is refused before any backend is asked. */
  function Refusal(c: Config, q: Query): Option<Answered> {
    if Resolved(q).Some? then
      if Resolved(q).value.0 != EffectiveVariant(c, q.variant) then Some(WrongVariant) else None
    else if q.cursor.Some? && !Single(c.router) then Some(UnknownCursor)
    else None
  }

  function LocalItems(local: seq<Item>, patterns: seq<string>): seq<Item> {
    if local == [] then []
    else (if NameMatches(local[0].name, patterns) then [local[0]] else []) + LocalItems(local[1..], patterns)
  }

  function ItemNames(items: seq<Item>): (r: seq<string>)
    ensures |r| == |items| && forall i :: 0 <= i < |items| ==> r[i] == items[i].name
  {
    seq(|items|, i requires 0 <= i < |items| => items[i].name)
  }

  function Renamed(items: seq<Item>, overrides: Overrides): (r: seq<Item>)
    ensures |r| == |items| && forall i :: 0 <= i < |items| ==>
            r[i] == items[i].(name := Exposed(overrides, items[i].name))
  {
    seq(|items|, i requires 0 <= i < |items| => items[i].(name := Exposed(overrides, items[i].name)))
  }

  /** Resolve name collisions over the whole composed list; None if renames clash. */
  function Settled(c: Config, items: seq<Item>): Option<seq<Item>> {
    if !c.cap.Tools? then Some(items)
    else match c.router.strategy
      case Manual(overrides) => if Clash(ItemNames(items), overrides) then None else Some(Renamed(items, overrides))
      case Priority(order) => Some(Prioritized(Namespace.Split, order, items))
      case _ => Some(items)
  }

  /** `sorted(set(unavailable))`: each missing backend once, in code point order. */
  function Announced(unavailable: seq<string>): (r: seq<string>)
    ensures forall id :: id in r <==> id in unavailable
    ensures forall i, j :: 0 <= i < j < |r| ==> r[i] != r[j] && JsonText.Before(r[i], r[j])
  {
    JsonText.SortedKeys(set id | id in unavailable)
  }

  function AnswerFrom(c: Config, q: Query, collected: Collected): Answered {
    match collected
    case FetchRaised => Raised
    case Collected(items, unavailable, cursors) =>
      match Settled(c, items + if c.cap.Tools? then LocalItems(c.local, q.filter.patterns) else [])
      case None => ManualCollision
      case Some(settled) =>
        Page(settled,
             if cursors != map[] then Some(BindCursor(EffectiveVariant(c, q.variant), cursors)) else None,
             Announced(unavailable))
  }

  function AnswerTo(c: Config, up: set<string>, q: Query, view: CacheView, ask: Backends): Answered {
    if Refusal(c, q).Some? then Refusal(c, q).value
    else AnswerFrom(c, q, CollectedFrom(c, up, q, RepliesTo(c, up, q, view, ask)))
  }

  /** Any other request is answered as if there were no cache. */
  lemma SpecificBypassesCache(c: Config, up: set<string>, q: Query, view: CacheView, ask: Backends)
    ensures Cacheable(c, q) <==> Unspecific(c, q)
    ensures Unspecific(c, q) <==> !(q.filter.given || q.cursor.Some? || q.variant.Some? || c.variants != [])
    ensures q.filter.given || q.cursor.Some? || q.variant.Some? || c.variants != [] ==>
      RepliesTo(c, up, q, view, ask) == RepliesTo(c, up, q, NoCache, ask) &&
      AnswerTo(c, up, q, view, ask) == AnswerTo(c, up, q, NoCache, ask)
  {
    hide Available, CursorFor, CollectedFrom, Refusal;
    if !Cacheable(c, q) {
      assert RepliesTo(c, up, q, view, ask) == RepliesTo(c, up, q, NoCache, ask);
    }
  }

  // ---- The methods ----

  /** `_reverse.setdefault` for every item of one backend. */
  function Remember(reverse: ReverseTable, id: string, items: seq<Item>): ReverseTable {
    if items == [] then reverse
    else
      var n := |items| - 1;
      var earlier := Remember(reverse, id, items[..n]);
      if items[n].name in earlier then earlier else earlier[items[n].name := (id, items[n].name)]
  }

  predicate RemembersNames(c: Config) { c.cap.Tools? && c.router.strategy.Passthrough? && !Single(c.router) }

  /** The reverse table after a whole fan-out. */
  function Remembered(c: Config, reverse: ReverseTable, ids: seq<string>,
                      replies: Replies): ReverseTable
    requires forall id :: id in ids ==> id in replies
  {
    if ids == [] || !RemembersNames(c) then reverse
    else
      var n := |ids| - 1;
      var earlier := Remembered(c, reverse, ids[..n], replies);
      if replies[ids[n]].Reply? then Remember(earlier, ids[n], replies[ids[n]].result.items) else earlier
  }

  function NamesBy(id: string, items: seq<Item>): seq<(string, string)> {
    if items == [] then [] else NamesBy(id, items[..|items| - 1]) + [(id, items[|items| - 1].name)]
  }

  /** Everything a fan-out listed, in the order it was listed. */
  function ListedBy(ids: seq<string>, replies: Replies): seq<(string, string)>
    requires forall id :: id in ids ==> id in replies
  {
    if ids == [] then []
    else
      var n := |ids| - 1;
      ListedBy(ids[..n], replies) +
      if replies[ids[n]].Reply? then NamesBy(ids[n], replies[ids[n]].result.items) else []
  }

  lemma {:induction false} RememberListed(listed: seq<(string, string)>, id: string, items: seq<Item>)
    ensures Remember(ReverseOf(listed), id, items) == ReverseOf(listed + NamesBy(id, items))
  {
    hide ReverseOf;
    if items == [] {
      assert listed + [] == listed;
    } else {
      var n := |items| - 1;
      var before, last := listed + NamesBy(id, items[..n]), (id, items[n].name);
      RememberListed(listed, id, items[..n]);
      assert listed + NamesBy(id, items) == before + [last];
      ReverseStep(before, last);
    }
  }

  /** A fan-out extends the passthrough table by what it lists, so that the table is
      always the one of the whole listing history. */
  lemma {:induction false} RememberedIsHistory(c: Config, listed: seq<(string, string)>, ids: seq<string>,
                                               replies: Replies)
    requires RemembersNames(c) && forall id :: id in ids ==> id in replies
    ensures Remembered(c, ReverseOf(listed), ids, replies) == ReverseOf(listed + ListedBy(ids, replies))
  {
    hide Remember, ReverseOf, NamesBy, RemembersNames;
    if ids == [] {
      assert listed + [] == listed;
    } else {
      var n := |ids| - 1;
      RememberedIsHistory(c, listed, ids[..n], replies);
      var before := listed + ListedBy(ids[..n], replies);
      if replies[ids[n]].Reply? {
        RememberListed(before, ids[n], replies[ids[n]].result.items);
        assert before + NamesBy(ids[n], replies[ids[n]].result.items) == listed + ListedBy(ids, replies);
      } else {
        assert before == listed + ListedBy(ids, replies);
      }
    }
  }

  /** The labelling loop after `i` items. */
  ghost predicate Labelled(c: Config, id: string, patterns: seq<string>, items: seq<Item>,
                           reverse: ReverseTable,
                           i: nat, shown: seq<Item>, reverse': ReverseTable)
    requires i <= |items|
  {
    && shown + ShownItems(c, id, patterns, items[i..]) == ShownItems(c, id, patterns, items)
    && reverse' == if RemembersNames(c) then Remember(reverse, id, items[..i]) else reverse
  }

  lemma LabelledNone(c: Config, id: string, patterns: seq<string>, items: seq<Item>,
                     reverse: ReverseTable)
    ensures Labelled(c, id, patterns, items, reverse, 0, [], reverse)
  {
  }

  lemma LabelledStep(c: Config, id: string, patterns: seq<string>, items: seq<Item>,
                     reverse: ReverseTable,
                     i: nat, shown: seq<Item>, reverse': ReverseTable)
    requires i < |items| && Labelled(c, id, patterns, items, reverse, i, shown, reverse')
    ensures var item := items[i];
            var labelled := Label(c.router, c.cap, id, item.name);
            Labelled(c, id, patterns, items, reverse, i + 1,
                     if NameMatches(labelled, patterns) then shown + [item.(name := labelled)] else shown,
                     if RemembersNames(c) && item.name !in reverse' then reverse'[item.name := (id,
                       item.name)] else reverse')
  {
    hide Label, NameMatches, RemembersNames;
    assert items[i..][1..] == items[i + 1..];
    assert items[..i + 1][..i] == items[..i];
    var labelled := Label(c.router, c.cap, id, items[i].name);
    if NameMatches(labelled, patterns) {
      assert (shown + [items[i].(name := labelled)]) + ShownItems(c, id, patterns, items[i + 1..]) ==
             shown + ShownItems(c, id, patterns, items[i..]);
    }
  }

  lemma LabelledAll(c: Config, id: string, patterns: seq<string>, items: seq<Item>,
                    reverse: ReverseTable,
                    shown: seq<Item>, reverse': ReverseTable)
    requires Labelled(c, id, patterns, items, reverse, |items|, shown, reverse')
    ensures shown == ShownItems(c, id, patterns, items)
    ensures reverse' == if RemembersNames(c) then Remember(reverse, id, items) else reverse
  {
    assert items[..|items|] == items;
  }

  /** Label one backend's items and drop those the patterns exclude. */
  method LabelItems(c: Config, id: string, patterns: seq<string>, items: seq<Item>,
                    reverse: ReverseTable)
    returns (shown: seq<Item>, reverse': ReverseTable)
    ensures shown == ShownItems(c, id, patterns, items)
    ensures reverse' == if RemembersNames(c) then Remember(reverse, id, items) else reverse
  {
    hide *;
    shown, reverse' := [], reverse;
    LabelledNone(c, id, patterns, items, reverse);
    var passthrough := RemembersNames(c);
    for i := 0 to |items|
      invariant Labelled(c, id, patterns, items, reverse, i, shown, reverse')
    {
      var item := items[i];
      LabelledStep(c, id, patterns, items, reverse, i, shown, reverse');
      if passthrough && item.name !in reverse' {
        reverse' := reverse'[item.name := (id, item.name)];
      }
      var labelled := Label(c.router, c.cap, id, item.name);
      if NameMatches(labelled, patterns) {
        shown := shown + [item.(name := labelled)];
      }
    }
    LabelledAll(c, id, patterns, items, reverse, shown, reverse');
  }

  /** Every entry added to the cache is a read, or a put of what a backend replied. */
  ghost predicate OnlyFetched(before: seq<Event>, after: seq<Event>, c: Config, ask: Backends,
                              principal: Option<string>) {
    && before <= after
    && forall i :: |before| <= i < |after| ==>
         match after[i]
         case Read(_, _) => true
         case Put(_, key, p, result) =>
           key.1 == ListMethod(c.cap) && p == principal && ask(key.0, None) == Reply(result)
         case Invalidate(_) => false
  }

  /** The view of a cache a request starts from. */
  ghost function ViewOf(cache: ListCache?, principal: Option<string>, now: real): CacheView
    reads cache
  {
    if cache == null then NoCache else View(cache.history, cache.defaultTtlMs, principal, now)
  }

  /** Reading the cache never changes what it answers at the same moment. */
  lemma ReadKeepsAnswers(history: seq<Event>, e: Event, ttl: real, principal: Option<string>, now: real)
    requires e.Read?
    ensures forall key :: Answer(history + [e], ttl, key, principal, now) == Answer(history, ttl, key, principal, now)
  {
  }

  function Misses(ids: seq<string>, cached: map<string, ListResult>): seq<string> {
    if ids == [] then []
    else
      var n := |ids| - 1;
      Misses(ids[..n], cached) + if ids[n] in cached then [] else [ids[n]]
  }

  lemma {:induction false} MissesMembers(ids: seq<string>, cached: map<string, ListResult>)
    ensures forall id :: id in Misses(ids, cached) <==> id in ids && id !in cached
  {
    if ids != [] {
      var n := |ids| - 1;
      MissesMembers(ids[..n], cached);
      assert ids == ids[..n] + [ids[n]];
    }
  }

  /** The entries a cache answers for. */
  function Hits(c: Config, q: Query, ids: seq<string>, view: CacheView): map<string, ListResult> {
    map id | id in ids && Cacheable(c, q) && Hit(view, c.cap, id).Some? :: Hit(view, c.cap, id).value
  }

  /** What looking some backends up adds to a cache's history. */
  function Reads(c: Config, now: real, ids: seq<string>): (r: seq<Event>)
    ensures |r| == |ids| && forall i :: 0 <= i < |ids| ==> r[i] == Read(now, (ids[i], ListMethod(c.cap)))
  {
    seq(|ids|, i requires 0 <= i < |ids| => Read(now, (ids[i], ListMethod(c.cap))))
  }

  /** What storing the successful replies adds to it. */
  function Puts(c: Config, now: real, principal: Option<string>, ids: seq<string>, replies: Replies): seq<Event>
    requires forall id :: id in ids ==> id in replies
  {
    if ids == [] then []
    else
      var n := |ids| - 1;
      Puts(c, now, principal, ids[..n], replies) +
      if replies[ids[n]].Reply? then [Event.Put(now, (ids[n], ListMethod(c.cap)), principal,
        replies[ids[n]].result)] else []
  }

  /** The lookup loop after `i` backends, starting from history `base`. */
  ghost predicate LookedUp(c: Config, ids: seq<string>, base: seq<Event>, ttl: real, principal: Option<string>,
                           now: real,
                           i: nat, history: seq<Event>, cached: map<string, ListResult>)
    requires i <= |ids|
  {
    && history == base + Reads(c, now, ids[..i])
    && (forall key :: Answer(history, ttl, key, principal, now) == Answer(base, ttl, key, principal, now))
    && (forall id :: id in cached <==>
      id in ids[..i] && Answer(base, ttl, (id, ListMethod(c.cap)), principal, now).Some?)
    && (forall id :: id in cached ==> Answer(base, ttl, (id, ListMethod(c.cap)), principal, now) == Some(cached[id]))
  }

  lemma NothingLookedUp(c: Config, ids: seq<string>, base: seq<Event>, ttl: real, principal: Option<string>, now: real)
    ensures LookedUp(c, ids, base, ttl, principal, now, 0, base, map[])
  {
  }

  lemma LookedUpStep(c: Config, ids: seq<string>, base: seq<Event>, ttl: real, principal: Option<string>, now: real,
                     i: nat, history: seq<Event>, cached: map<string, ListResult>)
    requires i < |ids| && LookedUp(c, ids, base, ttl, principal, now, i, history, cached)
    ensures var hit := Answer(history, ttl, (ids[i], ListMethod(c.cap)), principal, now);
            LookedUp(c, ids, base, ttl, principal, now, i + 1, history + [Read(now, (ids[i], ListMethod(c.cap)))],
                     if hit.Some? then cached[ids[i] := hit.value] else cached)
  {
    hide Answer, ListMethod;
    ReadKeepsAnswers(history, Read(now, (ids[i], ListMethod(c.cap))), ttl, principal, now);
    assert ids[..i + 1] == ids[..i] + [ids[i]];
    assert Reads(c, now, ids[..i + 1]) == Reads(c, now, ids[..i]) + [Read(now, (ids[i], ListMethod(c.cap)))];
  }

  lemma AllLookedUp(c: Config, q: Query, ids: seq<string>, base: seq<Event>, ttl: real, principal: Option<string>,
                    now: real,
                    history: seq<Event>, cached: map<string, ListResult>)
    requires LookedUp(c, ids, base, ttl, principal, now, |ids|, history, cached) && Cacheable(c, q)
    ensures history == base + Reads(c, now, ids) && cached == Hits(c, q, ids, View(base, ttl, principal, now))
  {
    hide Answer, Cacheable;
    assert ids[..|ids|] == ids;
  }

  /** First loop of `_collect`: which backends the cache answers for. */
  method LookUp(c: Config, q: Query, ids: seq<string>, cache: ListCache?, principal: Option<string>, now: real)
    returns (cached: map<string, ListResult>)
    requires cache != null ==> cache.Valid() && cache.clock <= now
    modifies if cache == null then {} else {cache}
    ensures cache != null ==> cache.Valid() && cache.clock <= now
    ensures cache != null ==> cache.history == old(cache.history) + if Cacheable(c, q) then Reads(c, now, ids) else []
    ensures cached == Hits(c, q, ids, old(ViewOf(cache, principal, now)))
  {
    hide Answer, Cacheable, LookedUp, ListMethod, ListCache.Valid, Reads;
    cached := map[];
    if cache == null || !Cacheable(c, q) {
      return;
    }
    ghost var base := cache.history;
    ghost var ttl := cache.defaultTtlMs;
    assert ViewOf(cache, principal, now) == View(base, ttl, principal, now);
    hide *;
    NothingLookedUp(c, ids, base, ttl, principal, now);
    for i := 0 to |ids|
      invariant cache.Valid() && cache.clock <= now
      invariant LookedUp(c, ids, base, ttl, principal, now, i, cache.history, cached)
    {
      LookedUpStep(c, ids, base, ttl, principal, now, i, cache.history, cached);
      var hit := cache.Get(ids[i], ListMethod(c.cap), principal, now);
      if hit.Some? {
        cached := cached[ids[i] := hit.value];
      }
    }
    AllLookedUp(c, q, ids, base, ttl, principal, now, cache.history, cached);
  }

  /** What the backends in `ids` answer to a query. */
  function Asking(c: Config, q: Query, ids: seq<string>, ask: Backends): (r: Replies)
    requires Restriction(q).Some? ==> forall id :: id in ids ==> id in Restriction(q).value
    ensures forall id :: id in r <==> id in ids
    ensures forall id :: id in ids ==> r[id] == ask(id, CursorFor(c, q, id))
  {
    map id | id in ids :: ask(id, CursorFor(c, q, id))
  }

  /** The results among some replies. */
  function Results(ids: seq<string>, replies: Replies): (r: map<string, ListResult>)
    requires forall id :: id in ids ==> id in replies
    ensures forall id :: id in r <==> id in ids && replies[id].Reply?
    ensures forall id :: id in r ==> r[id] == replies[id].result
  {
    map id | id in ids && replies[id].Reply? :: replies[id].result
  }

  lemma FailedAppend(ids: seq<string>, last: string, replies: Replies)
    requires forall id :: id in ids + [last] ==> id in replies
    ensures FailedIds(ids + [last], replies) == FailedIds(ids, replies) + if replies[last].Failed? then [last] else []
  {
    assert (ids + [last])[..|ids|] == ids;
  }

  lemma ResultsAppend(ids: seq<string>, last: string, replies: Replies)
    requires forall id :: id in ids + [last] ==> id in replies
    ensures last in ids + [last]
    ensures Results(ids + [last], replies) ==
            if replies[last].Reply? then Results(ids, replies)[last := replies[last].result] else Results(ids, replies)
  {
    var all := ids + [last];
    assert all[|ids|] == last;
    assert forall id :: id in all <==> id in ids || id == last;
  }

  /** The fetching loop after `i` replies. */
  ghost predicate FetchedSoFar(c: Config, ids: seq<string>, replies: Replies, i: nat,
                               fetched: map<string, ListResult>, failed: seq<string>)
    requires i <= |ids| && forall id :: id in ids ==> id in replies
  {
    && (!c.resilient ==> forall id :: id in ids[..i] ==> replies[id].Reply?)
    && fetched == Results(ids[..i], replies)
    && failed == FailedIds(ids[..i], replies)
  }

  lemma FetchedNone(c: Config, ids: seq<string>, replies: Replies)
    requires forall id :: id in ids ==> id in replies
    ensures FetchedSoFar(c, ids, replies, 0, map[], [])
  {
  }

  lemma FetchedStep(c: Config, ids: seq<string>, replies: Replies, i: nat, fetched: map<string, ListResult>,
                    failed: seq<string>)
    requires i < |ids| && forall id :: id in ids ==> id in replies
    requires FetchedSoFar(c, ids, replies, i, fetched, failed)
    ensures replies[ids[i]].Reply? ==>
      FetchedSoFar(c, ids, replies, i + 1, fetched[ids[i] := replies[ids[i]].result], failed)
    ensures replies[ids[i]].Failed? && c.resilient ==>
      FetchedSoFar(c, ids, replies, i + 1, fetched, failed + [ids[i]])
  {
    hide FailedIds, Results;
    assert ids[..i + 1] == ids[..i] + [ids[i]];
    FailedAppend(ids[..i], ids[i], replies);
    ResultsAppend(ids[..i], ids[i], replies);
  }

  lemma FetchedAll(c: Config, ids: seq<string>, replies: Replies, fetched: map<string, ListResult>, failed: seq<string>)
    requires forall id :: id in ids ==> id in replies
    requires FetchedSoFar(c, ids, replies, |ids|, fetched, failed)
    ensures !c.resilient ==> forall id :: id in ids ==> replies[id].Reply?
    ensures fetched == Results(ids, replies) && failed == FailedIds(ids, replies)
  {
    hide FailedIds;
    assert ids[..|ids|] == ids;
  }

  /** What a fan-out that has fetched from `ids` has put into the cache. */
  function Stored(c: Config, q: Query, now: real, principal: Option<string>, ids: seq<string>,
                  replies: Replies): seq<Event>
    requires forall id :: id in ids ==> id in replies
  {
    if Cacheable(c, q) then Puts(c, now, principal, ids, replies) else []
  }

  lemma StoredStep(c: Config, q: Query, now: real, principal: Option<string>, ids: seq<string>, replies: Replies,
                   i: nat, before: seq<Event>)
    requires i < |ids| && forall id :: id in ids ==> id in replies
    ensures before + Stored(c, q, now, principal, ids[..i + 1], replies) ==
            (before + Stored(c, q, now, principal, ids[..i], replies)) +
            if Cacheable(c, q) && replies[ids[i]].Reply?
            then [Event.Put(now, (ids[i], ListMethod(c.cap)), principal, replies[ids[i]].result)] else []
  {
    assert ids[..i + 1][..i] == ids[..i];
    hide Cacheable;
  }

  lemma NothingStored(c: Config, q: Query, now: real, principal: Option<string>, ids: seq<string>, replies: Replies,
                      before: seq<Event>)
    requires forall id :: id in ids ==> id in replies
    ensures before + Stored(c, q, now, principal, ids[..0], replies) == before && ids[..|ids|] == ids
  {
    hide Cacheable;
  }

  lemma NothingFetched(history: seq<Event>, c: Config, ask: Backends, principal: Option<string>)
    ensures OnlyFetched(history, history, c, ask, principal)
  {
  }

  /** What is stored was replied. */
  lemma {:induction false} StoredIsFetched(before: seq<Event>, c: Config, q: Query, ask: Backends,
                                           principal: Option<string>, now: real, ids: seq<string>, replies: Replies)
    requires Restriction(q).Some? ==> forall id :: id in ids ==> id in Restriction(q).value
    requires forall id :: id in ids ==> id in replies && replies[id] == ask(id, CursorFor(c, q, id))
    ensures OnlyFetched(before, before + Stored(c, q, now, principal, ids, replies), c, ask, principal)
    ensures !Cacheable(c, q) ==> before + Stored(c, q, now, principal, ids, replies) == before
  {
    if ids == [] || !Cacheable(c, q) {
      assert before + [] == before;
    } else {
      var n := |ids| - 1;
      assert ids == ids[..n] + [ids[n]] && ids[n] in ids;
      assert CursorFor(c, q, ids[n]) == None;
      hide Cacheable, CursorFor, Restriction;
      StoredIsFetched(before, c, q, ask, principal, now, ids[..n], replies);
      StoredStep(c, q, now, principal, ids, replies, n, before);
      assert ids[..n + 1] == ids;
    }
  }

  /** Put one fetched result into the cache, if it is in use for the query. */
  method Store(c: Config, q: Query, cache: ListCache?, principal: Option<string>, id: string,
               result: ListResult, now: real)
    requires cache != null ==> cache.Valid() && cache.clock <= now
    modifies if cache == null then {} else {cache}
    ensures cache != null ==> cache.Valid() && cache.clock <= now
    ensures cache != null ==>
      cache.history ==
      old(cache.history) + if Cacheable(c, q) then [Event.Put(now, (id, ListMethod(c.cap)), principal, result)] else []
  {
    hide *;
    if cache != null && Cacheable(c, q) {
      cache.Put(id, ListMethod(c.cap), principal, result, now);
    }
  }

  /** Second loop of `_collect`: the gathered replies, cached as they are read. */
  method Fetch(c: Config, q: Query, toFetch: seq<string>, ask: Backends, cache: ListCache?,
               principal: Option<string>, now: real)
    returns (fetched: map<string, ListResult>, failed: seq<string>, raised: bool)
    requires cache != null ==> cache.Valid() && cache.clock <= now
    requires Restriction(q).Some? ==> forall id :: id in toFetch ==> id in Restriction(q).value
    modifies if cache == null then {} else {cache}
    ensures cache != null ==> cache.Valid() && OnlyFetched(old(cache.history), cache.history, c, ask, principal)
    ensures cache != null ==> cache.clock <= now
    ensures cache != null && !Cacheable(c, q) ==> cache.history == old(cache.history)
    ensures cache != null && !raised ==>
      cache.history == old(cache.history) + Stored(c, q, now, principal, toFetch, Asking(c, q, toFetch, ask))
    ensures raised <==> !c.resilient && exists id :: id in toFetch && ask(id, CursorFor(c, q, id)).Failed?
    ensures !raised ==> fetched == Results(toFetch, Asking(c, q, toFetch, ask))
    ensures !raised ==> failed == FailedIds(toFetch, Asking(c, q, toFetch, ask))
  {
    hide *;
    fetched, failed := map[], [];
    ghost var replies := Asking(c, q, toFetch, ask);
    ghost var before := if cache == null then [] else cache.history;
    NothingStored(c, q, now, principal, toFetch, replies, before);
    FetchedNone(c, toFetch, replies);
    for i := 0 to |toFetch|
      invariant cache != null ==> cache.Valid() && cache.clock <= now
      invariant cache != null ==> cache.history == before + Stored(c, q, now, principal, toFetch[..i], replies)
      invariant FetchedSoFar(c, toFetch, replies, i, fetched, failed)
    {
      var id := toFetch[i];
      var reply := ask(id, CursorFor(c, q, id));
      FetchedStep(c, toFetch, replies, i, fetched, failed);
      StoredStep(c, q, now, principal, toFetch, replies, i, before);
      if reply.Failed? {
        if !c.resilient {
          StoredIsFetched(before, c, q, ask, principal, now, toFetch[..i], replies);
          raised := true;
          return;
        }
        failed := failed + [id];
      } else {
        Store(c, q, cache, principal, id, reply.result, now);
        fetched := fetched[id := reply.result];
      }
    }
    StoredIsFetched(before, c, q, ask, principal, now, toFetch, replies);
    FetchedAll(c, toFetch, replies, fetched, failed);
    raised := false;
  }

  lemma MissesStep(ids: seq<string>, cached: map<string, ListResult>)
    requires ids != []
    ensures var n := |ids| - 1;
            Misses(ids, cached) == Misses(ids[..n], cached) + if ids[n] in cached then [] else [ids[n]]
  {
  }

  lemma NothingMissed(cached: map<string, ListResult>, replies: Replies, asked: Replies)
    ensures Misses([], cached) == [] && FailedIds([], replies) == [] && FailedIds([], asked) == []
  {
  }

  lemma {:induction false} FailuresAreMisses(ids: seq<string>, cached: map<string, ListResult>, replies: Replies,
                                             asked: Replies)
    requires forall id :: id in ids ==> id in replies
    requires forall id :: id in Misses(ids, cached) ==> id in asked
    requires forall id :: id in ids && id in cached ==> replies[id].Reply?
    requires forall id :: id in ids && id !in cached && id in asked ==> replies[id] == asked[id]
    ensures FailedIds(Misses(ids, cached), asked) == FailedIds(ids, replies)
  {
    hide FailedIds, Misses;
    if ids == [] {
      NothingMissed(cached, replies, asked);
    } else {
      var n := |ids| - 1;
      var front, id := ids[..n], ids[n];
      assert ids == front + [id] && id in ids;
      MissesMembers(ids, cached);
      MissesStep(ids, cached);
      FailuresAreMisses(front, cached, replies, asked);
      FailedAppend(front, id, replies);
      if id in cached {
        assert Misses(front, cached) + [] == Misses(front, cached);
      } else {
        FailedAppend(Misses(front, cached), id, asked);
      }
    }
  }

  lemma NothingComposed(c: Config, patterns: seq<string>, ids: seq<string>, replies: Replies,
                        reverse: ReverseTable)
    requires forall id :: id in ids ==> id in replies
    ensures AllItems(c, patterns, ids[|ids|..], replies) == [] && Remembered(c, reverse, ids[..0], replies) == reverse
    ensures ids[0..] == ids && ids[..|ids|] == ids
  {
  }

  lemma ComposeStep(c: Config, patterns: seq<string>, ids: seq<string>, replies: Replies,
                    reverse: ReverseTable, i: nat)
    requires forall id :: id in ids ==> id in replies
    requires i < |ids|
    ensures AllItems(c, patterns, ids[i..], replies) ==
      (if replies[ids[i]].Reply? then ShownItems(c, ids[i], patterns, replies[ids[i]].result.items) else [])
      + AllItems(c, patterns, ids[i + 1..], replies)
    ensures var earlier := Remembered(c, reverse, ids[..i], replies);
            Remembered(c, reverse, ids[..i + 1], replies) ==
              if RemembersNames(c) && replies[ids[i]].Reply? then Remember(earlier, ids[i],
                replies[ids[i]].result.items) else earlier
  {
    hide ShownItems, Remember, RemembersNames;
    assert ids[i..][1..] == ids[i + 1..];
    assert ids[..i + 1][..i] == ids[..i];
  }

  /** Last loop of `_collect`: label and filter the results in backend order. */
  method Compose(c: Config, patterns: seq<string>, ids: seq<string>, results: map<string, ListResult>,
                 reverse: ReverseTable, ghost replies: Replies)
    returns (items: seq<Item>, reverse': ReverseTable)
    requires forall id :: id in ids ==> id in replies
    requires forall id :: id in ids ==> (id in results <==> replies[id].Reply?)
    requires forall id :: id in ids && id in results ==> results[id] == replies[id].result
    ensures items == AllItems(c, patterns, ids, replies)
    ensures reverse' == Remembered(c, reverse, ids, replies)
  {
    hide *;
    items, reverse' := [], reverse;
    NothingComposed(c, patterns, ids, replies, reverse);
    for i := 0 to |ids|
      invariant items + AllItems(c, patterns, ids[i..], replies) == AllItems(c, patterns, ids, replies)
      invariant reverse' == Remembered(c, reverse, ids[..i], replies)
    {
      ComposeStep(c, patterns, ids, replies, reverse, i);
      if ids[i] in results {
        var shown, r := LabelItems(c, ids[i], patterns, results[ids[i]].items, reverse');
        items, reverse' := items + shown, r;
      }
    }
    assert ids[..|ids|] == ids;
  }

  /** What a whole fan-out adds to a cache's history: every lookup, and every reply
      that was not already cached. */
  function Recorded(c: Config, up: set<string>, q: Query, view: CacheView, ask: Backends, principal: Option<string>,
                    now: real): seq<Event> {
    if !Cacheable(c, q) then []
    else
      var ids := Available(c, up, q, c.members);
      var misses := Misses(ids, Hits(c, q, ids, view));
      MissesMembers(ids, Hits(c, q, ids, view));
      Reads(c, now, ids) + Puts(c, now, principal, misses, Asking(c, q, misses, ask))
  }

  lemma Restricted(c: Config, up: set<string>, q: Query, members: seq<Member>)
    ensures Restriction(q).Some? ==> forall id :: id in Available(c, up, q, members) ==> id in Restriction(q).value
  {
  }

  lemma WasRecorded(c: Config, up: set<string>, q: Query, view: CacheView, ask: Backends, principal: Option<string>,
                    now: real, cached: map<string, ListResult>, before: seq<Event>, middle: seq<Event>,
                    after: seq<Event>)
    requires var ids := Available(c, up, q, c.members);
             cached == Hits(c, q, ids, view) && forall id :: id in Misses(ids, cached) ==> id in ids
    requires Restriction(q).Some? ==> forall id :: id in Available(c, up, q, c.members) ==> id in Restriction(q).value
    requires middle == before + if Cacheable(c, q) then Reads(c, now, Available(c, up, q, c.members)) else []
    requires var misses := Misses(Available(c, up, q, c.members), cached);
             after == middle + Stored(c, q, now, principal, misses, Asking(c, q, misses, ask))
    ensures after == before + Recorded(c, up, q, view, ask, principal, now)
  {
    hide Reads, Puts, Asking, Misses, Available, Hits, Cacheable, Restriction;
  }

  /** A reply is the cache's where it has one and the backend's otherwise. */
  lemma RepliesSplit(c: Config, up: set<string>, q: Query, view: CacheView, ask: Backends,
                     cached: map<string, ListResult>)
    requires cached == Hits(c, q, Available(c, up, q, c.members), view)
    requires Restriction(q).Some? ==> forall id :: id in Available(c, up, q, c.members) ==> id in Restriction(q).value
    ensures var ids, replies := Available(c, up, q, c.members), RepliesTo(c, up, q, view, ask);
            && (forall id :: id in Misses(ids, cached) ==> id in ids)
            && (forall id :: id in ids && id in cached ==> replies[id] == Reply(cached[id]))
            && (forall id :: id in ids && id !in cached ==> replies[id] == ask(id, CursorFor(c, q, id)))
            && (forall id :: id in cached ==> id in ids)
  {
    hide Available, Hit, Cacheable;
    MissesMembers(Available(c, up, q, c.members), cached);
  }

  lemma ReadsThenFetches(before: seq<Event>, middle: seq<Event>, after: seq<Event>, c: Config, ask: Backends,
                         principal: Option<string>,
                         now: real, ids: seq<string>, looked: bool)
    requires middle == before + if looked then Reads(c, now, ids) else []
    requires OnlyFetched(middle, after, c, ask, principal)
    ensures OnlyFetched(before, after, c, ask, principal)
  {
  }

  /** What the fetching loop adds, seen from the whole fan-out. */
  lemma FetchedPart(c: Config, up: set<string>, q: Query, replies: Replies, cached: map<string, ListResult>,
                    ask: Backends,
                    fetched: map<string, ListResult>, failed: seq<string>, raised: bool)
    requires forall id :: id in replies <==> id in Available(c, up, q, c.members)
    requires Restriction(q).Some? ==> forall id :: id in Available(c, up, q, c.members) ==> id in Restriction(q).value
    requires var ids := Available(c, up, q, c.members);
             && (forall id :: id in Misses(ids, cached) ==> id in ids)
             && (forall id :: id in ids && id in cached ==> replies[id] == Reply(cached[id]))
             && (forall id :: id in ids && id !in cached ==> replies[id] == ask(id, CursorFor(c, q, id)))
             && (forall id :: id in cached ==> id in ids)
    requires var toFetch := Misses(Available(c, up, q, c.members), cached);
             && (raised <==> !c.resilient && exists id :: id in toFetch && ask(id, CursorFor(c, q, id)).Failed?)
             && (!raised ==> fetched == Results(toFetch, Asking(c, q, toFetch, ask)))
             && (!raised ==> failed == FailedIds(toFetch, Asking(c, q, toFetch, ask)))
    ensures raised ==> CollectedFrom(c, up, q, replies) == FetchRaised
    ensures !raised ==>
      && (c.resilient || forall id :: id in replies ==> replies[id].Reply?)
      && failed == FailedIds(Available(c, up, q, c.members), replies)
      && (forall id :: id in replies ==> (id in cached + fetched <==> replies[id].Reply?))
      && (forall id :: id in cached + fetched ==> id in replies && (cached + fetched)[id] == replies[id].result)
  {
    hide Available, CursorFor, FailedIds, AllItems, NextCursors;
    var ids := Available(c, up, q, c.members);
    MissesMembers(ids, cached);
    FailuresAreMisses(ids, cached, replies, Asking(c, q, Misses(ids, cached), ask));
  }

  lemma CollectedParts(c: Config, up: set<string>, q: Query, replies: Replies, results: map<string, ListResult>,
                       items: seq<Item>, failed: seq<string>)
    requires forall id :: id in replies <==> id in Available(c, up, q, c.members)
    requires c.resilient || forall id :: id in replies ==> replies[id].Reply?
    requires forall id :: id in replies ==> (id in results <==> replies[id].Reply?)
    requires forall id :: id in results ==> id in replies && results[id] == replies[id].result
    requires items == AllItems(c, q.filter.patterns, Available(c, up, q, c.members), replies)
    requires failed == FailedIds(Available(c, up, q, c.members), replies)
    ensures CollectedFrom(c, up, q, replies) ==
            Collected(items, Down(c, up, c.members) + failed,
                      map id | id in results && results[id].nextCursor.Some? :: results[id].nextCursor.value)
  {
    hide Available, FailedIds, AllItems;
    assert NextCursors(replies) == map id | id in results && results[id].nextCursor.Some? ::
           results[id].nextCursor.value;
  }

  /** `_collect`. */
  method Collect(c: Config, up: set<string>, q: Query, ask: Backends, cache: ListCache?, principal: Option<string>,
                 now: real, reverse: ReverseTable)
    returns (r: Collected, reverse': ReverseTable)
    requires cache != null ==> cache.Valid() && cache.clock <= now
    modifies if cache == null then {} else {cache}
    ensures cache != null ==> cache.Valid() && OnlyFetched(old(cache.history), cache.history, c, ask, principal)
    ensures cache != null ==> cache.clock <= now && (!Cacheable(c, q) ==> cache.history == old(cache.history))
    ensures var replies := RepliesTo(c, up, q, old(ViewOf(cache, principal, now)), ask);
            && r == CollectedFrom(c, up, q, replies)
            && (cache != null && !r.FetchRaised? ==>
                  cache.history == old(cache.history) +
                    Recorded(c, up, q, old(ViewOf(cache, principal, now)), ask, principal, now))
            && reverse' == if r.FetchRaised? then reverse else Remembered(c, reverse, Available(c, up, q, c.members),
              replies)
  {
    hide *;
    reverse' := reverse;
    ghost var view := ViewOf(cache, principal, now);
    ghost var replies := RepliesTo(c, up, q, view, ask);
    var ids := Available(c, up, q, c.members);
    var cached := LookUp(c, q, ids, cache, principal, now);
    Restricted(c, up, q, c.members);
    RepliesSplit(c, up, q, view, ask, cached);
    var toFetch := Misses(ids, cached);
    ghost var history := if cache == null then [] else cache.history;
    var fetched, failed, raised := Fetch(c, q, toFetch, ask, cache, principal, now);
    if cache != null {
      ReadsThenFetches(old(cache.history), history, cache.history, c, ask, principal, now, ids, Cacheable(c, q));
      if !raised { WasRecorded(c, up, q, view, ask, principal, now, cached, old(cache.history), history,
        cache.history); }
    }
    FetchedPart(c, up, q, replies, cached, ask, fetched, failed, raised);
    if raised {
      return FetchRaised, reverse';
    }
    var results := cached + fetched;
    var items;
    items, reverse' := Compose(c, q.filter.patterns, ids, results, reverse, replies);
    var cursors := map id | id in results && results[id].nextCursor.Some? :: results[id].nextCursor.value;
    r := Collected(items, Down(c, up, c.members) + failed, cursors);
    CollectedParts(c, up, q, replies, results, items, failed);
  }

  /** The collision step of `_aggregate`; None stands for the UnresolvedCollision. */
  method Settle(c: Config, listed: seq<Item>) returns (r: Option<seq<Item>>)
    ensures r == Settled(c, listed)
  {
    hide Prioritized, Clash, Exposed;
    var items := listed;
    if c.cap.Tools? {
      if c.router.strategy.Manual? {
        var mapping := ResolveManual(ItemNames(items), c.router.strategy.overrides);
        if mapping.None? {
          return None;
        }
        assert forall i :: 0 <= i < |items| ==> items[i].name == ItemNames(items)[i];
        items := seq(|items|, i requires 0 <= i < |items| && items[i].name in mapping.value =>
                   items[i].(name := mapping.value[items[i].name]));
        assert items == Renamed(listed, c.router.strategy.overrides);
      } else if c.router.strategy.Priority? {
        var discarded;
        items, discarded := ApplyPriority(Namespace.Split, c.router.strategy.order, items);
      }
    }
    return Some(items);
  }

  /** `_aggregate`. */
  method Aggregate(c: Config, up: set<string>, q: Query, ask: Backends, cache: ListCache?, principal: Option<string>,
                   now: real, reverse: ReverseTable)
    returns (answer: Answered, reverse': ReverseTable)
    requires cache != null ==> cache.Valid() && cache.clock <= now
    modifies if cache == null then {} else {cache}
    ensures cache != null ==> cache.Valid() && OnlyFetched(old(cache.history), cache.history, c, ask, principal)
    ensures cache != null ==> cache.clock <= now
    ensures q.filter.given || q.cursor.Some? || q.variant.Some? || c.variants != [] ==>
      answer == AnswerTo(c, up, q, NoCache, ask) && (cache != null ==> cache.history == old(cache.history))
    ensures answer == AnswerTo(c, up, q, old(ViewOf(cache, principal, now)), ask)
    ensures Refusal(c, q).Some? ==> reverse' == reverse && (cache != null ==> cache.history == old(cache.history))
    ensures Refusal(c, q).None? && !answer.Raised? ==>
      var view := old(ViewOf(cache, principal, now));
      && reverse' == Remembered(c, reverse, Available(c, up, q, c.members), RepliesTo(c, up, q, view, ask))
      && (cache != null ==> cache.history == old(cache.history) + Recorded(c, up, q, view, ask, principal, now))
  {
    NothingFetched(if cache == null then [] else cache.history, c, ask, principal);
    SpecificBypassesCache(c, up, q, ViewOf(cache, principal, now), ask);
    hide Refusal, Settled, CollectedFrom, RepliesTo, BindCursor, LocalItems, OnlyFetched, EffectiveVariant, ViewOf,
      Announced,
      ListCache.Valid, Recorded, Remembered, Available;
    reverse' := reverse;
    var refusal := Refusal(c, q);
    if refusal.Some? {
      return refusal.value, reverse';
    }
    var collected;
    collected, reverse' := Collect(c, up, q, ask, cache, principal, now, reverse);
    if collected.FetchRaised? {
      return Raised, reverse';
    }
    var settled := Settle(c, collected.items + if c.cap.Tools? then LocalItems(c.local, q.filter.patterns) else []);
    if settled.None? {
      return ManualCollision, reverse';
    }
    var nextCursor := if collected.cursors != map[]
      then Some(BindCursor(EffectiveVariant(c, q.variant), collected.cursors)) else None;
    answer := Page(settled.value, nextCursor, Announced(collected.unavailable));
  }
}
