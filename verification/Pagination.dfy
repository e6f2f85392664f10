/** Following the proxy's composite cursors to the end (yamp/router.py: `_collect`
    and `_aggregate`; cursors in yamp/variants.py). */
module Pagination {
  import opened Basics
  import opened Json
  import opened Listing
  import opened Collision
  import opened Routing
  import opened Cursor
  import opened Aggregation
  import Namespace

  /** A backend's own pages. */
  type Book = seq<seq<Item>>

  /** The query for one page, under a fixed filter and variant. */
  function PageQuery(filter: ListFilter, variant: Option<string>, cursor: Option<string>): Query {
    Query(filter, if cursor.Some? then Some(Str(cursor.value)) else None, variant)
  }

  function AsJson(cursor: Option<string>): Option<Json> {
    if cursor.Some? then Some(Str(cursor.value)) else None
  }

  /** The cursor a backend gave with its page before page k. */
  function CursorAt(ask: Backends, id: string, k: nat): Option<string> {
    if k == 0 then None
    else
      match ask(id, AsJson(CursorAt(ask, id, k - 1)))
      case Reply(r) => r.nextCursor
      case Failed => None
  }

  /** Following a backend's own cursors gives these pages and then no cursor. */
  ghost predicate HasBook(ask: Backends, id: string, pages: Book) {
    && pages != []
    && forall k :: 0 <= k < |pages| ==>
         var reply := ask(id, AsJson(CursorAt(ask, id, k)));
         reply.Reply? && reply.result.items == pages[k] && (reply.result.nextCursor.Some? <==> k + 1 < |pages|)
  }

  /** One list, asked for page by page: the setting of a whole run. */
  datatype Setting = Setting(c: Config, up: set<string>, filter: ListFilter, variant: Option<string>, ask: Backends,
                             books: map<string, Book>)

  /** The backends the first request fans out to. */
  function Base(s: Setting): seq<string> { Available(s.c, s.up, PageQuery(s.filter, s.variant, None), s.c.members) }

  /** Backends stay available and have finite books. */
  ghost predicate Ready(s: Setting) {
    forall id :: id in Base(s) ==> id in s.books && HasBook(s.ask, id, s.books[id])
  }

  predicate HasPage(s: Setting, id: string, k: nat) { id in s.books && k < |s.books[id]| }

  /** The backends that still have a page k. */
  function Still(s: Setting, ids: seq<string>, k: nat): seq<string> {
    if ids == [] then [] else (if HasPage(s, ids[0], k) then [ids[0]] else []) + Still(s, ids[1..], k)
  }

  /** Page k of every backend that has one, in backend order, each item labelled and
      passing the name patterns. */
  function PageItems(s: Setting, ids: seq<string>, k: nat): seq<Item> {
    if ids == [] then []
    else
      (if HasPage(s, ids[0], k) then ShownItems(s.c, ids[0], s.filter.patterns, s.books[ids[0]][k]) else [])
      + PageItems(s, ids[1..], k)
  }

  /** The list for page k before name collisions are resolved: the local tools are
      part of every page. */
  function Composed(s: Setting, k: nat): seq<Item> {
    PageItems(s, Base(s), k) + if s.c.cap.Tools? then LocalItems(s.c.local, s.filter.patterns) else []
  }

  /** Some backend of the fan-out has a page k. */
  predicate AnyPage(s: Setting, k: nat) { exists id :: id in Base(s) && HasPage(s, id, k) }

  /** The backend cursors for page k. */
  function CursorsAt(s: Setting, k: nat): BackendCursors {
    map id | id in Base(s) && HasPage(s, id, k) && CursorAt(s.ask, id, k).Some? :: CursorAt(s.ask, id, k).value
  }

  /** The proxy's cursor for page k: none for the first page and past the last. */
  function ProxyCursor(s: Setting, k: nat): Option<string> {
    if k == 0 || CursorsAt(s, k) == map[] then None
    else Some(BindCursor(EffectiveVariant(s.c, s.variant), CursorsAt(s, k)))
  }

  function PageRequest(s: Setting, cursor: Option<string>): Answered {
    AnswerTo(s.c, s.up, PageQuery(s.filter, s.variant, cursor), NoCache, s.ask)
  }

  lemma BookCursors(s: Setting, id: string, k: nat)
    requires Ready(s) && id in Base(s) && 0 < k
    ensures HasPage(s, id, k) ==> CursorAt(s.ask, id, k).Some?
  {
  }

  /** The cursors for page k name exactly the backends that have one. */
  lemma CursorsAtKeys(s: Setting, k: nat)
    requires Ready(s) && 0 < k
    ensures forall id :: id in CursorsAt(s, k) <==> id in Base(s) && HasPage(s, id, k)
    ensures CursorsAt(s, k) == map[] <==> !AnyPage(s, k)
  {
    hide Base;
    forall id | id in Base(s) { BookCursors(s, id, k); }
    if AnyPage(s, k) {
      var id :| id in Base(s) && HasPage(s, id, k);
      assert id in CursorsAt(s, k);
    }
  }

  /** The query for page k, and what its cursor means. */
  function QueryAt(s: Setting, k: nat): Query { PageQuery(s.filter, s.variant, ProxyCursor(s, k)) }

  lemma QueryResolves(s: Setting, k: nat)
    requires Ready(s) && (k == 0 || AnyPage(s, k))
    ensures Refusal(s.c, QueryAt(s, k)).None?
    ensures k == 0 ==> QueryAt(s, k).cursor.None?
    ensures Restriction(QueryAt(s, k)) == if k == 0 then None else Some(CursorsAt(s, k))
  {
    hide BindCursor, ResolveCursor, CursorsAt, AnyPage;
    if k > 0 {
      CursorsAtKeys(s, k);
      CursorRoundTrip(EffectiveVariant(s.c, s.variant), CursorsAt(s, k));
    }
  }

  /** A member is asked for page k exactly if it was asked at first and has one. */
  lemma AskedAt(s: Setting, k: nat, m: Member)
    requires Ready(s) && (k == 0 || AnyPage(s, k)) && m in s.c.members
    ensures Asked(s.c, s.up, QueryAt(s, k), m) <==>
            Asked(s.c, s.up, PageQuery(s.filter, s.variant, None), m) && HasPage(s, m.id, k)
  {
    hide ProxyCursor, AnyPage, CursorsAt, BackendSelected;
    QueryResolves(s, k);
    if k > 0 { CursorsAtKeys(s, k); }
    if Asked(s.c, s.up, PageQuery(s.filter, s.variant, None), m) {
      assert m.id in Base(s);
      assert HasBook(s.ask, m.id, s.books[m.id]);
    }
  }

  lemma {:induction false} AvailableAt(s: Setting, k: nat, members: seq<Member>)
    requires Ready(s) && (k == 0 || AnyPage(s, k))
    requires forall m :: m in members ==> m in s.c.members
    ensures Available(s.c, s.up, QueryAt(s, k), members) ==
            Still(s, Available(s.c, s.up, PageQuery(s.filter, s.variant, None), members), k)
  {
    if members != [] {
      hide Asked, QueryAt, PageQuery, Ready, AnyPage, HasPage;
      assert members == [members[0]] + members[1..];
      AskedAt(s, k, members[0]);
      AvailableAt(s, k, members[1..]);
      var rest := Available(s.c, s.up, PageQuery(s.filter, s.variant, None), members[1..]);
      assert ([members[0].id] + rest)[1..] == rest && [] + rest == rest;
    }
  }

  function RepliesAt(s: Setting, k: nat): Replies { RepliesTo(s.c, s.up, QueryAt(s, k), NoCache, s.ask) }

  /** Every backend asked for page k answers with its page k. */
  lemma ReplyAt(s: Setting, k: nat, id: string)
    requires Ready(s) && (k == 0 || AnyPage(s, k))
    requires id in Base(s) && HasPage(s, id, k)
    requires id in RepliesAt(s, k)
    ensures var reply := RepliesAt(s, k)[id];
            && reply.Reply? && reply.result.items == s.books[id][k]
            && reply.result.nextCursor == CursorAt(s.ask, id, k + 1)
            && (HasMore(reply) <==> HasPage(s, id, k + 1))
  {
    hide Available, ProxyCursor, AnyPage;
    QueryResolves(s, k);
    if k > 0 { CursorsAtKeys(s, k); BookCursors(s, id, k); }
    assert HasBook(s.ask, id, s.books[id]);
    assert CursorFor(s.c, QueryAt(s, k), id) == AsJson(CursorAt(s.ask, id, k));
  }

  lemma StillStep(s: Setting, ids: seq<string>, k: nat)
    requires ids != []
    ensures Still(s, ids, k) ==
            if HasPage(s, ids[0], k) then [ids[0]] + Still(s, ids[1..], k) else Still(s, ids[1..], k)
    ensures PageItems(s, ids, k) ==
      (if HasPage(s, ids[0], k) then ShownItems(s.c, ids[0], s.filter.patterns, s.books[ids[0]][k]) else [])
      + PageItems(s, ids[1..], k)
  {
    hide ShownItems;
  }

  /** One more backend that answered. */
  lemma AnsweredFirst(c: Config, patterns: seq<string>, id: string, tail: seq<string>, replies: Replies)
    requires forall i :: i in [id] + tail ==> i in replies
    requires replies[id].Reply?
    ensures AllItems(c, patterns, [id] + tail, replies) ==
            ShownItems(c, id, patterns, replies[id].result.items) + AllItems(c, patterns, tail, replies)
  {
    hide ShownItems;
    assert ([id] + tail)[1..] == tail;
  }

  lemma {:induction false} NoneFailed(ids: seq<string>, replies: Replies)
    requires forall id :: id in ids ==> id in replies && replies[id].Reply?
    ensures FailedIds(ids, replies) == []
  {
    if ids != [] { NoneFailed(ids[..|ids| - 1], replies); }
  }

  lemma {:induction false} ItemsAt(s: Setting, k: nat, ids: seq<string>, replies: Replies)
    requires forall id :: id in Still(s, ids, k) ==>
               id in replies && HasPage(s, id, k) && replies[id].Reply? && replies[id].result.items == s.books[id][k]
    ensures AllItems(s.c, s.filter.patterns, Still(s, ids, k), replies) == PageItems(s, ids, k)
    ensures FailedIds(Still(s, ids, k), replies) == []
  {
    NoneFailed(Still(s, ids, k), replies);
    if ids != [] {
      hide AllItems, FailedIds, PageItems, Still, ShownItems;
      StillStep(s, ids, k);
      var tail := Still(s, ids[1..], k);
      ItemsAt(s, k, ids[1..], replies);
      if HasPage(s, ids[0], k) {
        assert ids[0] in [ids[0]] + tail;
        AnsweredFirst(s.c, s.filter.patterns, ids[0], tail, replies);
      } else {
        assert [] + PageItems(s, ids[1..], k) == PageItems(s, ids[1..], k);
      }
    }
  }

  lemma {:induction false} StillMembers(s: Setting, ids: seq<string>, k: nat)
    ensures forall id :: id in Still(s, ids, k) <==> id in ids && HasPage(s, id, k)
  {
    if ids != [] {
      assert ids == [ids[0]] + ids[1..];
      StillMembers(s, ids[1..], k);
    }
  }

  /** The response for page k. */
  function PageK(s: Setting, k: nat): Answered {
    match Settled(s.c, Composed(s, k))
    case None => ManualCollision
    case Some(items) => Page(items, ProxyCursor(s, k + 1), Announced(Down(s.c, s.up, s.c.members)))
  }

  lemma HasPageDown(s: Setting, k: nat)
    ensures forall id :: HasPage(s, id, k + 1) ==> HasPage(s, id, k)
  {
  }

  lemma SameCursors(s: Setting, k: nat)
    requires Ready(s) && (k == 0 || AnyPage(s, k))
    requires forall id :: id in RepliesAt(s, k) <==> id in Base(s) && HasPage(s, id, k)
    ensures NextCursors(RepliesAt(s, k)) == CursorsAt(s, k + 1)
  {
    hide Base, RepliesAt, AnyPage, HasMore;
    forall id | id in RepliesAt(s, k) { ReplyAt(s, k, id); }
    CursorsAtKeys(s, k + 1);
    HasPageDown(s, k);
    assert forall id :: id in NextCursors(RepliesAt(s, k)) <==> id in CursorsAt(s, k + 1);
  }

  lemma CollectedAt(s: Setting, k: nat)
    requires Ready(s) && (k == 0 || AnyPage(s, k))
    ensures CollectedFrom(s.c, s.up, QueryAt(s, k), RepliesAt(s, k)) ==
            Collected(PageItems(s, Base(s), k), Down(s.c, s.up, s.c.members), CursorsAt(s, k + 1))
  {
    var replies := RepliesAt(s, k);
    AvailableAt(s, k, s.c.members);
    StillMembers(s, Base(s), k);
    hide Available, AnyPage, ProxyCursor, HasPage, CursorAt, HasMore, AllItems, FailedIds, PageItems, Still,
         ShownItems, Down;
    var ids := Still(s, Base(s), k);
    forall id | id in replies { ReplyAt(s, k, id); }
    ItemsAt(s, k, Base(s), replies);
    CursorsAtKeys(s, k + 1);
    HasPageDown(s, k);
    assert Down(s.c, s.up, s.c.members) + [] == Down(s.c, s.up, s.c.members);
    SameCursors(s, k);
  }

  lemma AnswerAt(s: Setting, k: nat)
    requires Ready(s) && Refusal(s.c, QueryAt(s, k)).None?
    requires CollectedFrom(s.c, s.up, QueryAt(s, k), RepliesAt(s, k)) ==
             Collected(PageItems(s, Base(s), k), Down(s.c, s.up, s.c.members), CursorsAt(s, k + 1))
    ensures PageRequest(s, ProxyCursor(s, k)) == PageK(s, k)
  {
    hide CollectedFrom, RepliesTo, PageItems, Base, Down, CursorsAt, BindCursor, Refusal, Settled, LocalItems;
  }

  /** The k-th request gets page k of every backend that has one, composed with the
      local tools and with collisions resolved, and the cursor for the next page. */
  lemma PageAt(s: Setting, k: nat)
    requires Ready(s) && (k == 0 || AnyPage(s, k))
    ensures PageRequest(s, ProxyCursor(s, k)) == PageK(s, k)
  {
    CollectedAt(s, k);
    QueryResolves(s, k);
    hide *;
    AnswerAt(s, k);
  }

  // ---- Whole runs ----

  /** The client follows the cursor of each page until there is none. */
  ghost predicate IsRun(s: Setting, cursor: Option<string>, run: seq<Answered>)
    decreases |run|
  {
    && run != [] && run[0] == PageRequest(s, cursor) && run[0].Page?
    && if run[0].nextCursor.None? then |run| == 1 else IsRun(s, run[0].nextCursor, run[1..])
  }

  /** There is a cursor for the next page exactly when some backend has one more. */
  lemma PageKCursor(s: Setting, k: nat)
    requires Ready(s) && PageK(s, k).Page?
    ensures PageK(s, k).nextCursor == ProxyCursor(s, k + 1)
    ensures PageK(s, k).nextCursor.Some? <==> AnyPage(s, k + 1)
  {
    CursorsAtKeys(s, k + 1);
  }

  lemma RunUnfolds(s: Setting, cursor: Option<string>, run: seq<Answered>)
    requires IsRun(s, cursor, run)
    ensures run != [] && run[0] == PageRequest(s, cursor) && run[0].Page?
    ensures if run[0].nextCursor.None? then |run| == 1 else IsRun(s, run[0].nextCursor, run[1..])
  {
  }

  /** From page k on, a run is pages k, k + 1, ... to the last. */
  ghost predicate Pages(s: Setting, k: nat, run: seq<Answered>)
    decreases |run|
  {
    if run == [] then !AnyPage(s, k)
    else
      && run[0] == PageK(s, k) && run[0].Page? && (|run| > 1 ==> AnyPage(s, k + 1))
      && Pages(s, k + 1, run[1..])
  }

  /** Page k, and then the pages of a run from page k + 1 on. */
  lemma PagesCons(s: Setting, k: nat, run: seq<Answered>)
    requires run != [] && run[0] == PageK(s, k) && run[0].Page?
    requires if |run| == 1 then !AnyPage(s, k + 1) else AnyPage(s, k + 1) && Pages(s, k + 1, run[1..])
    ensures Pages(s, k, run)
  {
    hide PageK, AnyPage;
    if |run| == 1 { assert run[1..] == []; }
  }

  lemma {:induction false} RunFrom(s: Setting, k: nat, run: seq<Answered>)
    requires Ready(s) && (k == 0 || AnyPage(s, k)) && IsRun(s, ProxyCursor(s, k), run)
    ensures Pages(s, k, run)
    decreases |run|
  {
    hide *;
    PageAt(s, k);
    RunUnfolds(s, ProxyCursor(s, k), run);
    PageKCursor(s, k);
    if run[0].nextCursor.Some? {
      RunFrom(s, k + 1, run[1..]);
      RunUnfolds(s, run[0].nextCursor, run[1..]);
    }
    PagesCons(s, k, run);
  }

  lemma PageIsSettled(s: Setting, k: nat)
    ensures PageK(s, k).Page? ==>
      Settled(s.c, Composed(s, k)) == Some(PageK(s, k).items) &&
      PageK(s, k).unavailable == Announced(Down(s.c, s.up, s.c.members))
    ensures PageK(s, k).Page? <==> Settled(s.c, Composed(s, k)).Some?
  {
  }

  /** Pages come without gaps: whoever has page k has the earlier ones. */
  lemma PagesAreContiguous(s: Setting, i: nat, k: nat)
    requires i <= k && AnyPage(s, k)
    ensures AnyPage(s, i)
  {
  }

  lemma FirstCursor(s: Setting)
    ensures ProxyCursor(s, 0) == None
  {
  }

  lemma {:induction false} PagesAt(s: Setting, k: nat, run: seq<Answered>, i: nat)
    requires Pages(s, k, run) && i < |run|
    ensures run[i] == PageK(s, k + i) && run[i].Page? && (i > 0 ==> AnyPage(s, k + i))
    decreases i
  {
    hide PageK, AnyPage;
    if i > 0 {
      assert run[i] == run[1..][i - 1] && k + 1 + (i - 1) == k + i;
      PagesAt(s, k + 1, run[1..], i - 1);
    }
  }

  lemma {:induction false} PagesEnd(s: Setting, k: nat, run: seq<Answered>)
    requires Pages(s, k, run)
    ensures !AnyPage(s, k + |run|)
    decreases |run|
  {
    hide PageK, AnyPage;
    if run != [] {
      PagesEnd(s, k + 1, run[1..]);
      assert k + 1 + |run[1..]| == k + |run|;
    }
  }

  lemma NoPageLeft(s: Setting, run: seq<Answered>, id: string)
    requires Pages(s, 0, run) && id in Base(s) && id in s.books
    ensures |s.books[id]| <= |run|
  {
    hide Base, PageK, Pages;
    PagesEnd(s, 0, run);
    assert !HasPage(s, id, |run|);
  }

  lemma BaseHasBooks(s: Setting, id: string)
    requires Ready(s) && id in Base(s)
    ensures id in s.books
  {
  }

  /** Main result: whatever run the client makes from a plain list to a page without
      a cursor, response k holds page k of every backend that has one, in backend
      order, each item labelled and passing the name patterns, together with the local
      tools and with that list's collisions resolved. Every page of every backend is
      in some response. */
  lemma WholeRun(s: Setting, run: seq<Answered>)
    requires Ready(s) && IsRun(s, None, run)
    ensures forall k :: 0 <= k < |run| ==>
      && run[k].Page? && Settled(s.c, Composed(s, k)) == Some(run[k].items)
      && run[k].unavailable == Announced(Down(s.c, s.up, s.c.members))
    ensures forall id :: id in Base(s) ==> id in s.books && |s.books[id]| <= |run|
    ensures forall k :: 0 < k < |run| ==> run[k].Page? && AnyPage(s, k)
  {
    hide *;
    FirstCursor(s);
    RunFrom(s, 0, run);
    forall id | id in Base(s) ensures id in s.books && |s.books[id]| <= |run| {
      BaseHasBooks(s, id);
      NoPageLeft(s, run, id);
    }
    forall k | 0 <= k < |run|
      ensures run[k].Page? && Settled(s.c, Composed(s, k)) == Some(run[k].items)
      ensures run[k].unavailable == Announced(Down(s.c, s.up, s.c.members)) && (k > 0 ==> AnyPage(s, k))
    {
      PagesAt(s, 0, run, k);
      PageIsSettled(s, k);
    }
  }

  /** The pages left at all backends from page k on. */
  function PagesLeft(s: Setting, ids: seq<string>, k: nat): nat {
    if ids == [] then 0
    else (if HasPage(s, ids[0], k) then |s.books[ids[0]]| - k else 0) + PagesLeft(s, ids[1..], k)
  }

  lemma {:induction false} PagesLeftDecreases(s: Setting, ids: seq<string>, k: nat)
    ensures PagesLeft(s, ids, k + 1) <= PagesLeft(s, ids, k)
    ensures (exists id :: id in ids && HasPage(s, id, k)) ==> PagesLeft(s, ids, k + 1) < PagesLeft(s, ids, k)
  {
    if ids != [] {
      assert ids == [ids[0]] + ids[1..];
      PagesLeftDecreases(s, ids[1..], k);
    }
  }

  lemma LeftDecreases(s: Setting, k: nat)
    requires AnyPage(s, k)
    ensures PagesLeft(s, Base(s), k + 1) < PagesLeft(s, Base(s), k)
  {
    PagesLeftDecreases(s, Base(s), k);
  }

  lemma RunFolds(s: Setting, cursor: Option<string>, run: seq<Answered>)
    requires run != [] && run[0] == PageRequest(s, cursor) && run[0].Page?
    requires if run[0].nextCursor.None? then |run| == 1 else IsRun(s, run[0].nextCursor, run[1..])
    ensures IsRun(s, cursor, run)
  {
  }

  /** No page of the run has clashing manual renames. */
  ghost predicate NoPageClashes(s: Setting) { forall k: nat :: Settled(s.c, Composed(s, k)).Some? }

  /** Only the manual strategy can refuse a page. */
  lemma OthersNeverClash(s: Setting)
    requires !(s.c.cap.Tools? && s.c.router.strategy.Manual?)
    ensures NoPageClashes(s)
  {
    hide Composed, Prioritized;
  }

  lemma PageSettles(s: Setting, k: nat)
    requires NoPageClashes(s)
    ensures Settled(s.c, Composed(s, k)).Some?
  {
    hide Settled, Composed;
  }

  /** The run ends: following the cursors always reaches a page without one, because
      every continuation takes a page off what is left. */
  lemma {:induction false} RunEnds(s: Setting, k: nat) returns (run: seq<Answered>)
    requires Ready(s) && NoPageClashes(s) && (k == 0 || AnyPage(s, k))
    ensures IsRun(s, ProxyCursor(s, k), run)
    decreases PagesLeft(s, Base(s), k)
  {
    hide *;
    PageAt(s, k);
    PageSettles(s, k);
    PageIsSettled(s, k);
    PageKCursor(s, k);
    var page := PageRequest(s, ProxyCursor(s, k));
    if page.nextCursor.None? {
      run := [page];
    } else {
      PagesAreContiguous(s, k, k + 1);
      LeftDecreases(s, k);
      var rest := RunEnds(s, k + 1);
      run := [page] + rest;
      assert run[1..] == rest;
    }
    RunFolds(s, ProxyCursor(s, k), run);
  }

  /** A continuation is answered the same whatever a cache holds; for the first page
      see the agreement of the cached and the uncached list. */
  lemma ContinuationNotCached(s: Setting, cursor: string, view: CacheView)
    ensures AnswerTo(s.c, s.up, PageQuery(s.filter, s.variant, Some(cursor)), view, s.ask) ==
            PageRequest(s, Some(cursor))
  {
    hide CollectedFrom, Available;
    var q := PageQuery(s.filter, s.variant, Some(cursor));
    assert RepliesTo(s.c, s.up, q, view, s.ask) == RepliesTo(s.c, s.up, q, NoCache, s.ask);
  }

  /** A cursor is good for its own variant only: under any other, or if it is not
      the proxy's, the request is refused whatever the backends would say. */
  lemma CursorBoundToVariant(c: Config, up: set<string>, filter: ListFilter, variant: Option<string>,
                             minted: Option<string>, cursors: BackendCursors, view: CacheView, ask: Backends)
    ensures AnswerTo(c, up, PageQuery(filter, variant, Some(BindCursor(minted, cursors))), view, ask) ==
            WrongVariant <==>
            minted != EffectiveVariant(c, variant)
  {
    hide BindCursor, ResolveCursor, CollectedFrom, RepliesTo;
    CursorRoundTrip(minted, cursors);
  }

  // ---- Every backend in full ----

  /** The exposed name of this item splits back to its backend. */
  predicate Traceable(cap: Capability, id: string, name: string) {
    if cap.Resources? then Partition(name, Namespace.SCHEME_SEP).Some? && id != "" && '/' !in id
    else Namespace.RoutableId(id) && name != ""
  }

  /** The items whose exposed name splits to backend `id`. */
  function OfBackend(cap: Capability, id: string, items: seq<Item>): seq<Item> {
    if items == [] then []
    else
      var split := CapSplit(cap, items[0].name);
      (if split.Some? && split.value.0 == id then [items[0]] else []) + OfBackend(cap, id, items[1..])
  }

  lemma {:induction false} OfBackendAppend(cap: Capability, id: string, a: seq<Item>, b: seq<Item>)
    ensures OfBackend(cap, id, a + b) == OfBackend(cap, id, a) + OfBackend(cap, id, b)
  {
    hide CapSplit;
    if a == [] {
      assert a + b == b;
    } else {
      assert (a + b)[1..] == a[1..] + b;
      OfBackendAppend(cap, id, a[1..], b);
    }
  }

  lemma {:induction false} ShownAppend(c: Config, id: string, patterns: seq<string>, a: seq<Item>, b: seq<Item>)
    ensures ShownItems(c, id, patterns, a + b) == ShownItems(c, id, patterns, a) + ShownItems(c, id, patterns, b)
  {
    hide Label, NameMatches;
    if a == [] {
      assert a + b == b;
    } else {
      assert (a + b)[1..] == a[1..] + b;
      ShownAppend(c, id, patterns, a[1..], b);
    }
  }

  /** Names are exposed with their backend's id. */
  predicate Prefixing(c: Config) { !Single(c.router) && !(c.cap.Tools? && c.router.strategy.Passthrough?) }

  lemma LabelTraces(c: Config, id: string, name: string)
    requires Prefixing(c) && Traceable(c.cap, id, name)
    ensures CapSplit(c.cap, Label(c.router, c.cap, id, name)) == Some((id, name))
  {
    Namespace.SplitOfPrefix(id, name);
    Namespace.SplitOfPrefixUri(id, name);
  }

  lemma {:induction false} OfShown(c: Config, id: string, lister: string, patterns: seq<string>, items: seq<Item>)
    requires Prefixing(c) && forall i :: 0 <= i < |items| ==> Traceable(c.cap, lister, items[i].name)
    ensures OfBackend(c.cap, id, ShownItems(c, lister, patterns, items)) ==
            if lister == id then ShownItems(c, lister, patterns, items) else []
  {
    hide Label, NameMatches, CapSplit, Traceable, Prefixing;
    if items != [] {
      LabelTraces(c, lister, items[0].name);
      var labelled := Label(c.router, c.cap, lister, items[0].name);
      var tail := ShownItems(c, lister, patterns, items[1..]);
      OfShown(c, id, lister, patterns, items[1..]);
      if NameMatches(labelled, patterns) {
        assert ([items[0].(name := labelled)] + tail)[1..] == tail;
      } else {
        assert [] + tail == tail;
      }
    }
  }

  /** Every item of every book can be traced, and no id is used twice. */
  ghost predicate AllTraceable(s: Setting) {
    && Prefixing(s.c) && Consistent(s.c)
    && forall id, k, i :: id in s.books && 0 <= k < |s.books[id]| && 0 <= i < |s.books[id][k]| ==>
         Traceable(s.c.cap, id, s.books[id][k][i].name)
  }

  predicate Distinct(ids: seq<string>) { forall i, j :: 0 <= i < j < |ids| ==> ids[i] != ids[j] }

  lemma {:induction false} BaseDistinct(c: Config, up: set<string>, q: Query, members: seq<Member>)
    requires forall i, j :: 0 <= i < j < |members| ==> members[i].id != members[j].id
    ensures Distinct(Available(c, up, q, members))
  {
    hide Asked;
    if members != [] {
      BaseDistinct(c, up, q, members[1..]);
      var rest := Available(c, up, q, members[1..]);
      assert members[0].id !in rest;
    }
  }

  /** Nothing but labelling and filtering happens to the composed list. */
  predicate Plain(c: Config) {
    c.cap.Tools? ==> c.local == [] && (c.router.strategy.Prefixed? || c.router.strategy.Passthrough?)
  }

  lemma PlainPages(s: Setting, k: nat)
    requires Plain(s.c)
    ensures Settled(s.c, Composed(s, k)) == Some(PageItems(s, Base(s), k))
  {
    hide Base, PageItems;
    assert PageItems(s, Base(s), k) + [] == PageItems(s, Base(s), k);
  }

  /** What backend `id` contributes to page k. */
  function Share(s: Setting, id: string, k: nat): seq<Item> {
    if HasPage(s, id, k) then ShownItems(s.c, id, s.filter.patterns, s.books[id][k]) else []
  }

  lemma OfShare(s: Setting, id: string, lister: string, k: nat)
    requires AllTraceable(s)
    ensures OfBackend(s.c.cap, id, Share(s, lister, k)) == if lister == id then Share(s, lister, k) else []
  {
    hide Traceable, Prefixing, Consistent;
    if HasPage(s, lister, k) {
      OfShown(s.c, id, lister, s.filter.patterns, s.books[lister][k]);
    }
  }

  lemma {:induction false} OfPage(s: Setting, id: string, ids: seq<string>, k: nat)
    requires AllTraceable(s) && Distinct(ids)
    ensures OfBackend(s.c.cap, id, PageItems(s, ids, k)) == if id in ids then Share(s, id, k) else []
  {
    if ids != [] {
      assert PageItems(s, ids, k) == Share(s, ids[0], k) + PageItems(s, ids[1..], k);
      hide AllTraceable, PageItems, OfBackend, Share;
      OfBackendAppend(s.c.cap, id, Share(s, ids[0], k), PageItems(s, ids[1..], k));
      OfShare(s, id, ids[0], k);
      OfPage(s, id, ids[1..], k);
      assert id in ids <==> id == ids[0] || id in ids[1..];
      assert ids[0] !in ids[1..];
    }
  }

  /** All items a run delivered, in order. */
  function RunItems(run: seq<Answered>): seq<Item> {
    if run == [] then []
    else
      var last := run[|run| - 1];
      RunItems(run[..|run| - 1]) + if last.Page? then last.items else []
  }

  /** The items of a book's first n pages. */
  function BookItems(book: Book, n: nat): seq<Item> { Flatten(book[..if n <= |book| then n else |book|]) }

  lemma BookNext(book: Book, n: nat)
    ensures BookItems(book, n + 1) == BookItems(book, n) + if n < |book| then book[n] else []
  {
    if n < |book| {
      FlattenAppend(book[..n], [book[n]]);
      assert book[..n + 1] == book[..n] + [book[n]];
      assert Flatten([book[n]]) == book[n];
    }
  }

  lemma RunItemsStep(run: seq<Answered>, n: nat)
    requires 0 < n <= |run| && run[n - 1].Page?
    ensures RunItems(run[..n]) == RunItems(run[..n - 1]) + run[n - 1].items
  {
    assert run[..n][..n - 1] == run[..n - 1];
  }

  /** A book's items grow by what its backend contributes to the next page. */
  lemma ShareStep(s: Setting, id: string, n: nat)
    requires id in s.books
    ensures ShownItems(s.c, id, s.filter.patterns, BookItems(s.books[id], n + 1)) ==
            ShownItems(s.c, id, s.filter.patterns, BookItems(s.books[id], n)) + Share(s, id, n)
  {
    hide ShownItems, BookItems;
    BookNext(s.books[id], n);
    var before := BookItems(s.books[id], n);
    if n < |s.books[id]| {
      ShownAppend(s.c, id, s.filter.patterns, before, s.books[id][n]);
    } else {
      assert before + [] == before;
      var shown := ShownItems(s.c, id, s.filter.patterns, before);
      assert shown + [] == shown;
    }
  }

  lemma NothingShown(s: Setting, id: string)
    requires id in s.books
    ensures OfBackend(s.c.cap, id, RunItems([])) == ShownItems(s.c, id, s.filter.patterns, BookItems(s.books[id], 0))
  {
  }

  lemma {:induction false} OfRun(s: Setting, run: seq<Answered>, id: string, n: nat)
    requires AllTraceable(s) && Distinct(Base(s)) && id in Base(s) && id in s.books
    requires n <= |run| && forall k :: 0 <= k < n ==> run[k].Page? && run[k].items == PageItems(s, Base(s), k)
    ensures OfBackend(s.c.cap, id, RunItems(run[..n])) ==
            ShownItems(s.c, id, s.filter.patterns, BookItems(s.books[id], n))
  {
    hide *;
    if n == 0 {
      assert run[..0] == [];
      NothingShown(s, id);
    } else {
      OfRun(s, run, id, n - 1);
      RunItemsStep(run, n);
      OfBackendAppend(s.c.cap, id, RunItems(run[..n - 1]), PageItems(s, Base(s), n - 1));
      OfPage(s, id, Base(s), n - 1);
      ShareStep(s, id, n - 1);
    }
  }

  lemma DistinctBase(s: Setting)
    requires AllTraceable(s)
    ensures Distinct(Base(s))
  {
    hide Traceable, Prefixing, Available;
    BaseDistinct(s.c, s.up, PageQuery(s.filter, s.variant, None), s.c.members);
  }

  lemma AllOfBook(book: Book, n: nat)
    requires |book| <= n
    ensures BookItems(book, n) == Flatten(book)
  {
    assert book[..|book|] == book;
  }

  /** Main result, backend by backend: of everything a whole run delivers, the items
      whose exposed names lead to one backend are exactly that backend's pages put
      together, labelled and passing the name patterns: complete, in its own order
      and without repetition. */
  lemma EachBackendInFull(s: Setting, run: seq<Answered>, id: string)
    requires Ready(s) && Plain(s.c) && AllTraceable(s) && IsRun(s, None, run) && id in Base(s)
    ensures id in s.books
    ensures OfBackend(s.c.cap, id, RunItems(run)) == ShownItems(s.c, id, s.filter.patterns, Flatten(s.books[id]))
  {
    hide *;
    WholeRun(s, run);
    forall k: nat { PlainPages(s, k); }
    DistinctBase(s);
    OfRun(s, run, id, |run|);
    AllOfBook(s.books[id], |run|);
    assert run[..|run|] == run;
  }
}
