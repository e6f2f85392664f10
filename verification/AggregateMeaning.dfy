/** What a list request is answered, in terms of the members, their replies and the
    query alone: an independent description of the aggregated surface that the fan-out
    in `Aggregation` is proved to meet. */
module AggregateMeaning {
  import opened Basics
  import opened Json
  import opened Listing
  import opened Collision
  import opened Routing
  import opened Cursor
  import opened ListCache
  import opened Aggregation
  import JsonText

  // ---- Name patterns ----

  /** A text contains another if it can be cut around it. */
  lemma ContainsMeaning(s: string, part: string)
    ensures Contains(s, part) <==> exists before, after :: s == before + part + after
  {
    if Contains(s, part) {
      var i := IndexFrom(s, part, 0).value;
      assert s == s[..i] + part + s[i + |part|..];
    }
    forall before, after | s == before + part + after ensures Contains(s, part) {
      assert s[|before|..|before| + |part|] == part;
      assert OccursAt(s, part, |before|);
    }
  }

  lemma GlobContains(text: string, name: string)
    ensures Glob("*" + text + "*", name) <==> exists before, after :: name == before + text + after
  {
    ContainsMeaning(name, text);
    var both := "*" + text + "*";
    assert both[1..|both| - 1] == text && both != "*";
    hide Contains;
  }

  lemma GlobEnds(text: string, name: string)
    requires text != "" && text[0] != '*' && text[|text| - 1] != '*'
    ensures Glob(text + "*", name) <==> |text| <= |name| && name[..|text|] == text
    ensures Glob("*" + text, name) <==> |text| <= |name| && name[|name| - |text|..] == text
  {
    var front, back := text + "*", "*" + text;
    assert front[0] == text[0] && front[|front| - 1] == '*' && front[..|front| - 1] == text;
    assert back[0] == '*' && back[|back| - 1] == text[|text| - 1] && back[1..] == text;
  }

  lemma FrontCut(text: string, name: string)
    ensures (|text| <= |name| && name[..|text|] == text) <==> exists after :: name == text + after
  {
    if |text| <= |name| && name[..|text|] == text { assert name == text + name[|text|..]; }
    forall after | name == text + after ensures |text| <= |name| && name[..|text|] == text {
    }
  }

  lemma BackCut(text: string, name: string)
    ensures (|text| <= |name| && name[|name| - |text|..] == text) <==> exists before :: name == before + text
  {
    if |text| <= |name| && name[|name| - |text|..] == text { assert name == name[..|name| - |text|] + text; }
    forall before | name == before + text ensures |text| <= |name| && name[|name| - |text|..] == text {
    }
  }

  lemma GlobExact(text: string, name: string)
    requires text == "" || (text[0] != '*' && text[|text| - 1] != '*')
    ensures Glob("*", name)
    ensures Glob(text, name) <==> name == text
  {
  }

  /** The five kinds of pattern: everything, contains, starts with, ends with, is. */
  lemma GlobMeaning(text: string, name: string)
    requires text == "" || (text[0] != '*' && text[|text| - 1] != '*')
    ensures Glob("*", name)
    ensures Glob("*" + text + "*", name) <==> exists before, after :: name == before + text + after
    ensures text != "" ==> (Glob(text + "*", name) <==> exists after :: name == text + after)
    ensures text != "" ==> (Glob("*" + text, name) <==> exists before :: name == before + text)
    ensures Glob(text, name) <==> name == text
  {
    hide Glob;
    GlobExact(text, name);
    GlobContains(text, name);
    FrontCut(text, name);
    BackCut(text, name);
    if text != "" { GlobEnds(text, name); }
  }

  // ---- Who is asked, and for what ----

  /** A member is asked: it is up, its keywords do not rule it out, and a composite
      cursor names it. */
  predicate Reached(c: Config, up: set<string>, q: Query, m: Member) {
    && (c.resilient ==> m.id in up)
    && (m.keywords == [] || q.filter.keywords == [] || exists k :: k in m.keywords && k in q.filter.keywords)
    && (q.cursor.Some? && ResolveCursor(q.cursor.value).Some? ==> m.id in ResolveCursor(q.cursor.value).value.1)
  }

  /** The cursor a member is sent: its own from a composite cursor, or the client's
      as it is if there is but one backend. */
  function SentCursor(c: Config, q: Query, id: string): Option<Json> {
    match q.cursor
    case None => None
    case Some(cursor) =>
      match ResolveCursor(cursor)
      case Some((_, own)) => if id in own then Some(Str(own[id])) else None
      case None => if |c.members| == 1 && c.router.handlers == {} then Some(cursor) else None
  }

  function ReplyOf(c: Config, q: Query, ask: Backends, m: Member): Reply { ask(m.id, SentCursor(c, q, m.id)) }

  /** A member that is asked and fails. */
  predicate Fails(c: Config, up: set<string>, q: Query, ask: Backends, m: Member) {
    Reached(c, up, q, m) && ReplyOf(c, q, ask, m).Failed?
  }

  /** A member that is asked and has another page. */
  predicate Continues(c: Config, up: set<string>, q: Query, ask: Backends, m: Member) {
    Reached(c, up, q, m) && ReplyOf(c, q, ask, m).Reply? && ReplyOf(c, q, ask, m).result.nextCursor.Some?
  }

  /** A member missing from the answer: down, or failing where that is allowed. */
  predicate Missing(c: Config, up: set<string>, q: Query, ask: Backends, m: Member) {
    (c.resilient && m.id !in up) || Fails(c, up, q, ask, m)
  }

  predicate SomeFails(c: Config, up: set<string>, q: Query, ask: Backends) {
    exists m :: m in c.members && Fails(c, up, q, ask, m)
  }

  predicate NamesMissing(c: Config, up: set<string>, q: Query, ask: Backends, id: string) {
    exists m :: m in c.members && m.id == id && Missing(c, up, q, ask, m)
  }

  predicate NamesContinuing(c: Config, up: set<string>, q: Query, ask: Backends, id: string) {
    exists m :: m in c.members && m.id == id && Continues(c, up, q, ask, m)
  }

  predicate Matches(q: Query, name: string) {
    q.filter.patterns == [] || exists p :: p in q.filter.patterns && Glob(p, name)
  }

  /** What one member adds to the list. */
  function Contribution(c: Config, up: set<string>, q: Query, ask: Backends, m: Member): seq<Item> {
    if !Reached(c, up, q, m) || ReplyOf(c, q, ask, m).Failed? then []
    else Kept((i: Item) => Matches(q, i.name),
              Map((i: Item) => i.(name := Label(c.router, c.cap, m.id, i.name)), ReplyOf(c, q, ask, m).result.items))
  }

  /** The whole list before collisions are resolved. */
  function Composed(c: Config, up: set<string>, q: Query, ask: Backends): seq<Item> {
    Flatten(Map((m: Member) => Contribution(c, up, q, ask, m), c.members))
    + if c.cap.Tools? then Kept((i: Item) => Matches(q, i.name), c.local) else []
  }

  /** The variant that applies. */
  function Variant(c: Config, q: Query): Option<string> {
    match q.variant
    case Some(v) => Some(v)
    case None => if |c.variants| > 0 then Some(c.variants[0]) else None
  }

  /** Whether a cursor is refused: minted under another variant, or not minted here and
      nobody to pass it to. */
  predicate Foreign(c: Config, q: Query) {
    q.cursor.Some? && ResolveCursor(q.cursor.value).None? && !(|c.members| == 1 && c.router.handlers == {})
  }

  predicate Mismatched(c: Config, q: Query) {
    q.cursor.Some? && ResolveCursor(q.cursor.value).Some? && ResolveCursor(q.cursor.value).value.0 != Variant(c, q)
  }

  // ---- Lemmas on the parts ----

  lemma ReachedIsAsked(c: Config, up: set<string>, q: Query, m: Member)
    ensures Asked(c, up, q, m) <==> Reached(c, up, q, m)
  {
    hide ResolveCursor;
  }

  lemma SentIsCursorFor(c: Config, q: Query, id: string)
    requires Consistent(c) && (Restriction(q).Some? ==> id in Restriction(q).value)
    ensures CursorFor(c, q, id) == SentCursor(c, q, id)
  {
    hide ResolveCursor;
  }

  lemma {:induction false} KeptCons<T>(keep: T -> bool, first: T, rest: seq<T>)
    ensures Kept(keep, [first] + rest) == (if keep(first) then [first] else []) + Kept(keep, rest)
  {
    var all := [first] + rest;
    var n := |all| - 1;
    if rest == [] {
      assert all[..n] == [];
    } else {
      assert all[..n] == [first] + rest[..|rest| - 1] && all[n] == rest[|rest| - 1];
      KeptCons(keep, first, rest[..|rest| - 1]);
    }
  }

  lemma {:induction false} ShownIsKept(c: Config, id: string, q: Query, items: seq<Item>)
    ensures ShownItems(c, id, q.filter.patterns, items) ==
            Kept((i: Item) => Matches(q, i.name),
                 Map((i: Item) => i.(name := Label(c.router, c.cap, id, i.name)), items))
  {
    hide Label, Glob;
    if items != [] {
      var keep, name := (i: Item) => Matches(q, i.name), (i: Item) => i.(name := Label(c.router, c.cap, id, i.name));
      ShownIsKept(c, id, q, items[1..]);
      assert Map(name, items) == [name(items[0])] + Map(name, items[1..]);
      KeptCons(keep, name(items[0]), Map(name, items[1..]));
    }
  }

  lemma {:induction false} LocalIsKept(q: Query, local: seq<Item>)
    ensures LocalItems(local, q.filter.patterns) == Kept((i: Item) => Matches(q, i.name), local)
  {
    hide Glob;
    if local != [] {
      LocalIsKept(q, local[1..]);
      assert local == [local[0]] + local[1..];
      KeptCons((i: Item) => Matches(q, i.name), local[0], local[1..]);
    }
  }

  /** The items of a fan-out are the contributions put together. */
  lemma {:induction false} ItemsAreContributions(c: Config, up: set<string>, q: Query, ask: Backends, replies: Replies,
                                                 members: seq<Member>)
    requires forall m :: m in members && Reached(c, up, q, m) ==>
             m.id in replies && replies[m.id] == ReplyOf(c, q, ask, m)
    requires forall id :: id in Available(c, up, q, members) ==> id in replies
    ensures AllItems(c, q.filter.patterns, Available(c, up, q, members), replies) ==
            Flatten(Map((m: Member) => Contribution(c, up, q, ask, m), members))
  {
    var share := (m: Member) => Contribution(c, up, q, ask, m);
    if members != [] {
      var m, rest := members[0], members[1..];
      ReachedIsAsked(c, up, q, m);
      assert Map(share, members) == [share(m)] + Map(share, rest);
      assert Map(share, members)[1..] == Map(share, rest);
      var tail := Available(c, up, q, rest);
      hide Reached, Asked, ReplyOf, ShownItems;
      ItemsAreContributions(c, up, q, ask, replies, rest);
      if Asked(c, up, q, m) {
        assert ([m.id] + tail)[1..] == tail;
        if replies[m.id].Reply? { ShownIsKept(c, m.id, q, replies[m.id].result.items); }
      } else {
        assert [] + tail == tail;
      }
    }
  }

  lemma {:induction false} DownMembers(c: Config, up: set<string>, members: seq<Member>)
    ensures forall id :: id in Down(c, up, members) <==>
            c.resilient && exists m :: m in members && m.id == id && id !in up
  {
    if members != [] {
      assert members == [members[0]] + members[1..];
      DownMembers(c, up, members[1..]);
    }
  }

  lemma {:induction false} FailedMembers(ids: seq<string>, replies: Replies)
    requires forall id :: id in ids ==> id in replies
    ensures forall id :: id in FailedIds(ids, replies) <==> id in ids && replies[id].Failed?
  {
    if ids != [] {
      var n := |ids| - 1;
      assert ids == ids[..n] + [ids[n]];
      FailedMembers(ids[..n], replies);
    }
  }

  /** The replies of a fan-out without a cache are those of the members reached. */
  lemma RepliesAreReached(c: Config, up: set<string>, q: Query, ask: Backends)
    requires Consistent(c)
    ensures var replies := RepliesTo(c, up, q, NoCache, ask);
            && (forall m :: m in c.members && Reached(c, up, q, m) ==>
                  m.id in replies && replies[m.id] == ReplyOf(c, q, ask, m))
            && (forall id :: id in replies <==> exists m :: m in c.members && m.id == id && Reached(c, up, q, m))
  {
    var replies := RepliesTo(c, up, q, NoCache, ask);
    Restricted(c, up, q, c.members);
    hide Available, ResolveCursor, Reached, Asked, CursorFor, SentCursor;
    forall m: Member { ReachedIsAsked(c, up, q, m); }
    forall m | m in c.members && Reached(c, up, q, m)
      ensures m.id in replies && replies[m.id] == ReplyOf(c, q, ask, m)
    {
      assert m.id in Available(c, up, q, c.members);
      SentIsCursorFor(c, q, m.id);
    }
  }

  // ---- The answer ----

  /** The cursors of a collection are those of the members with another page. */
  ghost predicate CursorsOf(c: Config, up: set<string>, q: Query, ask: Backends, cursors: BackendCursors) {
    && (forall id :: id in cursors <==> NamesContinuing(c, up, q, ask, id))
    && (forall m :: m in c.members && Continues(c, up, q, ask, m) ==>
          m.id in cursors && cursors[m.id] == ReplyOf(c, q, ask, m).result.nextCursor.value)
  }

  lemma RaisedMeaning(c: Config, up: set<string>, q: Query, ask: Backends)
    requires Consistent(c)
    ensures CollectedFrom(c, up, q, RepliesTo(c, up, q, NoCache, ask)).FetchRaised? <==>
            !c.resilient && SomeFails(c, up, q, ask)
  {
    var replies := RepliesTo(c, up, q, NoCache, ask);
    RepliesAreReached(c, up, q, ask);
    hide Available, RepliesTo, AllItems, FailedIds, Down, Reached, ReplyOf, Consistent;
    if SomeFails(c, up, q, ask) {
      var m :| m in c.members && Fails(c, up, q, ask, m);
      assert replies[m.id].Failed?;
    }
  }

  lemma MissingMeaning(c: Config, up: set<string>, q: Query, ask: Backends, id: string)
    requires Consistent(c)
    ensures var replies := RepliesTo(c, up, q, NoCache, ask);
            id in Down(c, up, c.members) + FailedIds(Available(c, up, q, c.members), replies) <==>
            NamesMissing(c, up, q, ask, id)
  {
    var replies := RepliesTo(c, up, q, NoCache, ask);
    RepliesAreReached(c, up, q, ask);
    DownMembers(c, up, c.members);
    FailedMembers(Available(c, up, q, c.members), replies);
    hide Available, RepliesTo, FailedIds, Down, Reached, ReplyOf, Consistent;
    if NamesMissing(c, up, q, ask, id) {
      var m :| m in c.members && m.id == id && Missing(c, up, q, ask, m);
    }
  }

  lemma CursorsMeaning(c: Config, up: set<string>, q: Query, ask: Backends)
    requires Consistent(c)
    ensures CursorsOf(c, up, q, ask, NextCursors(RepliesTo(c, up, q, NoCache, ask)))
  {
    var replies := RepliesTo(c, up, q, NoCache, ask);
    RepliesAreReached(c, up, q, ask);
    hide Available, RepliesTo, Reached, ReplyOf, Consistent;
    forall id ensures id in NextCursors(replies) <==> NamesContinuing(c, up, q, ask, id) {
      if id in NextCursors(replies) {
        var m :| m in c.members && m.id == id && Reached(c, up, q, m);
        assert Continues(c, up, q, ask, m);
      }
    }
  }

  /** What `_collect` returns without a cache. */
  lemma CollectedMeaning(c: Config, up: set<string>, q: Query, ask: Backends)
    requires Consistent(c)
    ensures var collected := CollectedFrom(c, up, q, RepliesTo(c, up, q, NoCache, ask));
            && (collected.FetchRaised? <==> !c.resilient && SomeFails(c, up, q, ask))
            && (collected.Collected? ==>
                  && collected.items == Flatten(Map((m: Member) => Contribution(c, up, q, ask, m), c.members))
                  && (forall id :: id in collected.unavailable <==> NamesMissing(c, up, q, ask, id))
                  && CursorsOf(c, up, q, ask, collected.cursors))
  {
    RepliesAreReached(c, up, q, ask);
    ItemsAreContributions(c, up, q, ask, RepliesTo(c, up, q, NoCache, ask), c.members);
    hide Available, RepliesTo, AllItems, FailedIds, Down, Reached, ReplyOf, Contribution, NextCursors, SomeFails,
      NamesMissing, CursorsOf, Consistent;
    RaisedMeaning(c, up, q, ask);
    CursorsMeaning(c, up, q, ask);
    forall id: string { MissingMeaning(c, up, q, ask, id); }
  }

  /** Collisions resolved over a list of tools: under manual renames every item shows
      its exposed name, unless two different names would share one; under priorities
      the resolution; and anything else as it is. */
  ghost predicate Resolves(c: Config, items: seq<Item>, settled: Option<seq<Item>>) {
    if c.cap.Tools? && c.router.strategy.Manual? then
      var shown := (i: int) requires 0 <= i < |items| => Exposed(c.router.strategy.overrides, items[i].name);
      if exists i, j :: 0 <= i < j < |items| && items[i].name != items[j].name && shown(i) == shown(j)
      then settled.None?
      else
        && settled.Some? && |settled.value| == |items|
        && forall i :: 0 <= i < |items| ==> settled.value[i] == items[i].(name := shown(i))
    else if c.cap.Tools? && c.router.strategy.Priority? then
      settled == Some(Prioritized(Namespace.Split, c.router.strategy.order, items))
    else settled == Some(items)
  }

  lemma SettledResolves(c: Config, items: seq<Item>)
    ensures Resolves(c, items, Settled(c, items))
  {
    hide Prioritized, Exposed;
    if c.cap.Tools? && c.router.strategy.Manual? {
      var names := ItemNames(items);
      assert forall i :: 0 <= i < |items| ==> names[i] == items[i].name;
    }
  }

  /** The parts of a page other than its items. */
  ghost predicate PageMeaning(c: Config, up: set<string>, q: Query, ask: Backends, page: Answered)
    requires page.Page?
  {
    && (forall id :: id in page.unavailable <==> NamesMissing(c, up, q, ask, id))
    && (forall i, j :: 0 <= i < j < |page.unavailable| ==> JsonText.Before(page.unavailable[i], page.unavailable[j]))
    && (page.nextCursor.Some? <==> exists id :: NamesContinuing(c, up, q, ask, id))
    && (page.nextCursor.Some? ==>
          var resolved := ResolveCursor(Str(page.nextCursor.value));
          resolved.Some? && resolved.value.0 == Variant(c, q) && CursorsOf(c, up, q, ask, resolved.value.1))
  }

  lemma CursorsPresent(c: Config, up: set<string>, q: Query, ask: Backends, cursors: BackendCursors)
    requires CursorsOf(c, up, q, ask, cursors)
    ensures cursors != map[] <==> exists id :: NamesContinuing(c, up, q, ask, id)
  {
    hide NamesContinuing, Continues, ReplyOf;
    if cursors != map[] { var id :| id in cursors; assert NamesContinuing(c, up, q, ask, id); }
  }

  lemma RefusalMeaning(c: Config, q: Query)
    requires Consistent(c)
    ensures Refusal(c, q) ==
            if Mismatched(c, q) then Some(WrongVariant) else if Foreign(c, q) then Some(UnknownCursor) else None
    ensures EffectiveVariant(c, q.variant) == Variant(c, q)
  {
    hide ResolveCursor;
    assert |c.router.backends| == |c.members|;
  }

  lemma ComposedMeaning(c: Config, up: set<string>, q: Query, ask: Backends)
    ensures Composed(c, up, q, ask) ==
            Flatten(Map((m: Member) => Contribution(c, up, q, ask, m), c.members)) +
            if c.cap.Tools? then LocalItems(c.local, q.filter.patterns) else []
  {
    hide Contribution, Flatten;
    LocalIsKept(q, c.local);
  }

  lemma AnswerCases(c: Config, up: set<string>, q: Query, ask: Backends)
    ensures var collected := CollectedFrom(c, up, q, RepliesTo(c, up, q, NoCache, ask));
            var answer := AnswerTo(c, up, q, NoCache, ask);
            if Refusal(c, q).Some? then answer == Refusal(c, q).value
            else if collected.FetchRaised? then answer == Raised
            else
              var local := if c.cap.Tools? then LocalItems(c.local, q.filter.patterns) else [];
              var settled := Settled(c, collected.items + local);
              var variant := EffectiveVariant(c, q.variant);
              var cursor := if collected.cursors != map[] then Some(BindCursor(variant, collected.cursors))
                            else None;
              answer == if settled.None? then ManualCollision
                        else Page(settled.value, cursor, Announced(collected.unavailable))
  {
    hide RepliesTo, CollectedFrom, Refusal, Settled, LocalItems, BindCursor, Announced, EffectiveVariant;
  }

  /** The page made of a collection. */
  lemma PageParts(c: Config, up: set<string>, q: Query, ask: Backends, unavailable: seq<string>,
                  cursors: BackendCursors, page: Answered)
    requires page.Page? && CursorsOf(c, up, q, ask, cursors)
    requires forall id :: id in unavailable <==> NamesMissing(c, up, q, ask, id)
    requires page.unavailable == Announced(unavailable)
    requires page.nextCursor == if cursors != map[] then Some(BindCursor(Variant(c, q), cursors)) else None
    ensures PageMeaning(c, up, q, ask, page)
  {
    hide NamesMissing, NamesContinuing, CursorsOf, ResolveCursor, BindCursor, Announced, Variant;
    CursorsPresent(c, up, q, ask, cursors);
    CursorRoundTrip(Variant(c, q), cursors);
  }

  /** Main result: the answer to a list request without a cache, in the query's own
      terms. A foreign or mismatched cursor is refused; a failing backend raises where
      backends are not allowed to fail; and otherwise the page holds what every member
      contributes, with collisions resolved, names each missing member once, and has a
      cursor that resolves to exactly the members with more pages and their cursors. */
  lemma AnswerMeaning(c: Config, up: set<string>, q: Query, ask: Backends)
    requires Consistent(c)
    ensures var answer := AnswerTo(c, up, q, NoCache, ask);
            if Mismatched(c, q) then answer == WrongVariant
            else if Foreign(c, q) then answer == UnknownCursor
            else if !c.resilient && SomeFails(c, up, q, ask) then answer == Raised
            else
              && (answer == ManualCollision || answer.Page?)
              && Resolves(c, Composed(c, up, q, ask), if answer.Page? then Some(answer.items) else None)
              && (answer.Page? ==> PageMeaning(c, up, q, ask, answer))
  {
    hide *;
    CollectedMeaning(c, up, q, ask);
    RefusalMeaning(c, q);
    AnswerCases(c, up, q, ask);
    var collected := CollectedFrom(c, up, q, RepliesTo(c, up, q, NoCache, ask));
    ComposedMeaning(c, up, q, ask);
    SettledResolves(c, Composed(c, up, q, ask));
    var answer := AnswerTo(c, up, q, NoCache, ask);
    if answer.Page? && Refusal(c, q).None? && collected.Collected? {
      PageParts(c, up, q, ask, collected.unavailable, collected.cursors, answer);
    }
  }

  // ---- The passthrough table ----

  /** The names one reply lists, with their backend. */
  function NamesIn(replies: Replies, id: string): seq<(string, string)> {
    if id in replies && replies[id].Reply? then Map((i: Item) => (id, i.name), replies[id].result.items) else []
  }

  lemma {:induction false} NamesAreThose(id: string, items: seq<Item>)
    ensures NamesBy(id, items) == Map((i: Item) => (id, i.name), items)
  {
    if items != [] { NamesAreThose(id, items[..|items| - 1]); }
  }

  lemma ListedLast(ids: seq<string>, replies: Replies)
    requires ids != [] && forall id :: id in ids ==> id in replies
    ensures var n := |ids| - 1;
            ListedBy(ids, replies) == ListedBy(ids[..n], replies) + NamesIn(replies, ids[n])
  {
    var n := |ids| - 1;
    if replies[ids[n]].Reply? { NamesAreThose(ids[n], replies[ids[n]].result.items); }
    hide NamesBy;
  }

  lemma FlattenLast<T, R>(f: T -> seq<R>, s: seq<T>)
    requires s != []
    ensures Flatten(Map(f, s)) == Flatten(Map(f, s[..|s| - 1])) + f(s[|s| - 1])
  {
    var n := |s| - 1;
    assert Map(f, s) == Map(f, s[..n]) + [f(s[n])];
    FlattenAppend(Map(f, s[..n]), [f(s[n])]);
    assert Flatten([f(s[n])]) == f(s[n]);
  }

  lemma {:induction false} ListedAreThose(ids: seq<string>, replies: Replies)
    requires forall id :: id in ids ==> id in replies
    ensures ListedBy(ids, replies) == Flatten(Map((id: string) => NamesIn(replies, id), ids))
  {
    hide NamesIn;
    if ids != [] {
      ListedAreThose(ids[..|ids| - 1], replies);
      ListedLast(ids, replies);
      FlattenLast((id: string) => NamesIn(replies, id), ids);
      hide ListedBy, Flatten, Map;
    }
  }

  /** A fan-out adds what it lists to the listing history of the table, under the
      passthrough strategy for tools of several backends, and nothing otherwise. */
  lemma TableMeaning(c: Config, listed: seq<(string, string)>, ids: seq<string>, replies: Replies)
    requires forall id :: id in ids ==> id in replies
    ensures Remembered(c, ReverseOf(listed), ids, replies) ==
            if c.cap.Tools? && c.router.strategy.Passthrough? && (|c.router.backends| != 1 || c.router.handlers != {})
            then ReverseOf(listed + Flatten(Map((id: string) => NamesIn(replies, id), ids)))
            else ReverseOf(listed)
  {
    ListedAreThose(ids, replies);
    if RemembersNames(c) { RememberedIsHistory(c, listed, ids, replies); }
  }

  // ---- With a cache ----

  /** The backends with a cache in front: where a result still stands it answers. */
  function Overlaid(history: seq<Event>, ttl: real, cap: Capability, principal: Option<string>, now: real,
                    ask: Backends): Backends {
    var list := match cap case Tools => "tools/list" case Prompts => "prompts/list" case Resources => "resources/list";
    (id, cursor) =>
      match Answer(history, ttl, (id, list), principal, now)
      case Some(result) => Reply(result)
      case None => ask(id, cursor)
  }

  /** A request without filter, cursor or variant is answered as if the results that
      stand in the cache were the backends' own replies, and every other request as if
      there were no cache. What stands is told by `ListCache.AnswerInFull`. */
  lemma CacheMeaning(c: Config, up: set<string>, q: Query, history: seq<Event>, ttl: real, principal: Option<string>,
                     now: real, ask: Backends)
    ensures var view := View(history, ttl, principal, now);
            AnswerTo(c, up, q, view, ask) ==
            if q.filter.given || q.cursor.Some? || q.variant.Some? || c.variants != []
            then AnswerTo(c, up, q, NoCache, ask)
            else AnswerTo(c, up, q, NoCache, Overlaid(history, ttl, c.cap, principal, now, ask))
  {
    var view := View(history, ttl, principal, now);
    var overlaid := Overlaid(history, ttl, c.cap, principal, now, ask);
    SpecificBypassesCache(c, up, q, view, ask);
    if !(q.filter.given || q.cursor.Some? || q.variant.Some? || c.variants != []) {
      hide Available, Answer, CollectedFrom, Refusal;
      assert RepliesTo(c, up, q, view, ask) == RepliesTo(c, up, q, NoCache, overlaid);
    }
  }
}
