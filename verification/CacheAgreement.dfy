/** The cached fan-out agrees with the uncached one over any run in which a list
    changes only together with its `list_changed` notification (yamp/router.py:
    cache use in `_collect`, invalidation in `_server_message` and
    `emit_if_surface_changed`). */
module CacheAgreement {
  import opened Basics
  import opened Listing
  import opened ListCache
  import opened Aggregation
  import opened Routing

  /** What every backend would answer now, by list method and asking principal. */
  type Answers = (string, string, Option<string>) -> ListResult

  /** An answer not marked private is the same for every principal. */
  ghost predicate PublicShared(answers: Answers) {
    forall b, m, p, p' :: !IsPrivate(answers(b, m, p)) ==> answers(b, m, p') == answers(b, m, p)
  }

  datatype World = World(history: seq<Event>, now: real, answers: Answers)

  /** The things that happen between list requests. */
  datatype Step =
    | Tick(now: real)
    | LookUp(key: Key)
    | FetchAndPut(key: Key, principal: Option<string>)
    | ListChanged(backend: string, answers: Answers)
    | SurfaceChanged(lost: string)

  /** Clocks do not go back, and a notification accounts for every change. */
  ghost predicate Legal(w: World, s: Step) {
    match s
    case Tick(now) => w.now <= now
    case ListChanged(backend, answers) =>
      PublicShared(answers) && forall b, m, p :: b != backend ==> answers(b, m, p) == w.answers(b, m, p)
    case _ => true
  }

  function Next(w: World, s: Step): World {
    match s
    case Tick(now) => w.(now := now)
    case LookUp(key) => w.(history := w.history + [Read(w.now, key)])
    case FetchAndPut(key, principal) =>
      w.(history := w.history + [Put(w.now, key, principal, w.answers(key.0, key.1, principal))])
    case ListChanged(backend, answers) => w.(history := w.history + [Invalidate(backend)], answers := answers)
    case SurfaceChanged(lost) => w.(history := w.history + [Invalidate(lost)])
  }

  /** Whatever the cache would serve is what the backend would answer. */
  ghost predicate Agrees(w: World, defaultTtlMs: real) {
    && PublicShared(w.answers)
    && forall key, principal ::
         Answer(w.history, defaultTtlMs, key, principal, w.now).Some? ==>
           Answer(w.history, defaultTtlMs, key, principal, w.now).value == w.answers(key.0, key.1, principal)
  }

  lemma StepKeepsAgreement(w: World, s: Step, defaultTtlMs: real)
    requires Agrees(w, defaultTtlMs) && Legal(w, s)
    ensures Agrees(Next(w, s), defaultTtlMs)
  {
  }

  function Run(w: World, steps: seq<Step>): World
    decreases |steps|
  {
    if steps == [] then w else Run(Next(w, steps[0]), steps[1..])
  }

  ghost predicate LegalRun(w: World, steps: seq<Step>)
    decreases |steps|
  {
    steps != [] ==> Legal(w, steps[0]) && LegalRun(Next(w, steps[0]), steps[1..])
  }

  /** Agreement holds after any legal run. */
  lemma {:induction false} RunKeepsAgreement(w: World, steps: seq<Step>, defaultTtlMs: real)
    requires Agrees(w, defaultTtlMs) && LegalRun(w, steps)
    ensures Agrees(Run(w, steps), defaultTtlMs)
    decreases |steps|
  {
    if steps != [] {
      StepKeepsAgreement(w, steps[0], defaultTtlMs);
      RunKeepsAgreement(Next(w, steps[0]), steps[1..], defaultTtlMs);
    }
  }

  lemma PlainCursor(c: Config, q: Query, id: string)
    requires Cacheable(c, q)
    ensures Restriction(q).None? && CursorFor(c, q, id) == None
  {
  }

  lemma HitIsCurrent(w: World, defaultTtlMs: real, cap: Capability, principal: Option<string>, id: string)
    requires Agrees(w, defaultTtlMs)
    ensures var hit := Hit(View(w.history, defaultTtlMs, principal, w.now), cap, id);
            hit.Some? ==> hit.value == w.answers(id, ListMethod(cap), principal)
  {
    hide Answer, ListMethod;
    var key := (id, ListMethod(cap));
    assert Answer(w.history, defaultTtlMs, key, principal, w.now).Some? ==>
        Answer(w.history, defaultTtlMs, key, principal, w.now).value == w.answers(key.0, key.1, principal);
  }

  lemma CachedReplies(w: World, defaultTtlMs: real, c: Config, up: set<string>, q: Query, principal: Option<string>,
                      ask: Backends)
    requires Agrees(w, defaultTtlMs)
    requires Unspecific(c, q) ==> forall id :: id in Available(c, up, q, c.members) ==>
               ask(id, None) == Reply(w.answers(id, ListMethod(c.cap), principal))
    ensures RepliesTo(c, up, q, View(w.history, defaultTtlMs, principal, w.now), ask) ==
            RepliesTo(c, up, q, NoCache, ask)
  {
    SpecificBypassesCache(c, up, q, NoCache, ask);
    hide Agrees, Available, CursorFor, Answer, Cacheable, Unspecific, AnswerTo, ListMethod;
    if Cacheable(c, q) {
      var view := View(w.history, defaultTtlMs, principal, w.now);
      forall id | id in Available(c, up, q, c.members)
        ensures RepliesTo(c, up, q, view, ask)[id] == RepliesTo(c, up, q, NoCache, ask)[id]
      {
        PlainCursor(c, q, id);
        HitIsCurrent(w, defaultTtlMs, c.cap, principal, id);
        hide Hit;
      }
    }
  }

  /** Main result: while the world agrees and fetches succeed, a list request gets
      the same response with the cache as without it. */
  lemma CachedAnswerIsFresh(w: World, defaultTtlMs: real, c: Config, up: set<string>, q: Query,
                            principal: Option<string>, ask: Backends)
    requires Agrees(w, defaultTtlMs)
    requires Unspecific(c, q) ==> forall id :: id in Available(c, up, q, c.members) ==>
               ask(id, None) == Reply(w.answers(id, ListMethod(c.cap), principal))
    ensures var view := View(w.history, defaultTtlMs, principal, w.now);
            && RepliesTo(c, up, q, view, ask) == RepliesTo(c, up, q, NoCache, ask)
            && AnswerTo(c, up, q, view, ask) == AnswerTo(c, up, q, NoCache, ask)
  {
    CachedReplies(w, defaultTtlMs, c, up, q, principal, ask);
    hide Agrees, RepliesTo, Unspecific, Available, CollectedFrom, Refusal, Settled;
  }

  /** One read, or one put of a current answer, whenever it was stamped. */
  lemma AddedEntry(w: World, defaultTtlMs: real, e: Event)
    requires Agrees(w, defaultTtlMs)
    requires e.Read? || (e.Put? && e.result == w.answers(e.key.0, e.key.1, e.principal))
    ensures Agrees(w.(history := w.history + [e]), defaultTtlMs)
  {
  }

  /** What a request itself adds to the cache keeps agreement too. */
  lemma {:induction false} FetchesKeepAgreement(w: World, defaultTtlMs: real, after: seq<Event>, c: Config,
                                                ask: Backends,
                                                principal: Option<string>)
    requires Agrees(w, defaultTtlMs) && OnlyFetched(w.history, after, c, ask, principal)
    requires forall id :: ask(id, None).Reply? ==> ask(id, None).result == w.answers(id, ListMethod(c.cap), principal)
    ensures Agrees(w.(history := after), defaultTtlMs)
    decreases |after|
  {
    if |after| > |w.history| {
      var n := |after| - 1;
      FetchesKeepAgreement(w, defaultTtlMs, after[..n], c, ask, principal);
      assert after == after[..n] + [after[n]];
      AddedEntry(w.(history := after[..n]), defaultTtlMs, after[n]);
    } else {
      assert after == w.history;
    }
  }

  /** A fetch that straddles the notification stores the old answer after the
      invalidation. That is harmless exactly when the answer is not kept, or when it
      did not change for this principal after all; otherwise the cache serves it. */
  lemma StraddlingFetch(w: World, key: Key, principal: Option<string>, answers: Answers, defaultTtlMs: real)
    requires Agrees(w, defaultTtlMs) && Legal(w, ListChanged(key.0, answers))
    ensures var stale := w.answers(key.0, key.1, principal);
            var changed := Next(w, ListChanged(key.0, answers));
            Agrees(changed.(history := changed.history + [Put(w.now, key, principal, stale)]), defaultTtlMs) <==>
            TtlMs(stale, defaultTtlMs) <= 0.0 || answers(key.0, key.1, principal) == stale
  {
    var stale := w.answers(key.0, key.1, principal);
    var changed := Next(w, ListChanged(key.0, answers));
    var late := Put(w.now, key, principal, stale);
    var after := changed.history + [late];
    StepKeepsAgreement(w, ListChanged(key.0, answers), defaultTtlMs);
    assert after[..|changed.history|] == changed.history;
    if TtlMs(stale, defaultTtlMs) > 0.0 {
      assert Answer(after, defaultTtlMs, key, principal, w.now) == Some(stale);
    }
    if TtlMs(stale, defaultTtlMs) <= 0.0 || answers(key.0, key.1, principal) == stale {
      forall k, p | Answer(after, defaultTtlMs, k, p, w.now).Some?
        ensures Answer(after, defaultTtlMs, k, p, w.now).value == answers(k.0, k.1, p)
      {
        if k != key {
          assert LastPut(after, k) == LastPut(changed.history, k);
        }
      }
    }
  }

  /** A concrete run that ends stale: an empty list is fetched while the backend
      announces one that holds a tool. */
  lemma StraddlingFetchGoesStale(item: Item)
    ensures var before := ListResult([], None, Milliseconds(60000.0), None);
            var now := ListResult([item], None, Milliseconds(60000.0), None);
            var answers: Answers := (b, m, p) => if b == "b" then now else before;
            var w := World([], 0.0, (b, m, p) => before);
            var changed := Next(w, ListChanged("b", answers));
            var late := Put(0.0, ("b", "tools/list"), None, before);
            && Agrees(w, 0.0) && Legal(w, ListChanged("b", answers))
            && Answer(changed.history + [late], 0.0, ("b", "tools/list"), None, 0.0) == Some(before)
            && changed.answers("b", "tools/list", None) == now != before
  {
  }

  // ---- Runs of requests on one cache ----

  /** What happens to a router with a cache: a list request, served by the backends
      as `ask` says, or a notification, or a backend that leaves the surface. */
  datatype Action =
    | Request(c: Config, up: set<string>, q: Query, principal: Option<string>, at: real, ask: Backends)
    | Changed(backend: string, answers: Answers)
    | Lost(backend: string)

  /** The backends serve an unspecific request from their current lists, and those
      asked do not fail. */
  ghost predicate Serves(a: Action, answers: Answers)
    requires a.Request?
  {
    && (forall id :: a.ask(id, None).Reply? ==> a.ask(id, None).result == answers(id, ListMethod(a.c.cap), a.principal))
    && (forall id :: id in Available(a.c, a.up, a.q, a.c.members) ==> a.ask(id, None).Reply?)
  }

  ghost predicate LegalActions(now: real, answers: Answers, actions: seq<Action>)
    decreases |actions|
  {
    actions == [] ||
    match actions[0]
    case Request(c, _, q, _, at, _) =>
      now <= at && (Unspecific(c, q) ==> Serves(actions[0], answers)) && LegalActions(at, answers, actions[1..])
    case Changed(backend, answers') =>
      Legal(World([], now, answers), ListChanged(backend, answers')) && LegalActions(now, answers', actions[1..])
    case Lost(_) => LegalActions(now, answers, actions[1..])
  }

  /** The responses the requests get from a router without a cache. */
  function Uncached(actions: seq<Action>): seq<Answered> {
    if actions == [] then []
    else
      var a := actions[0];
      (if a.Request? then [AnswerTo(a.c, a.up, a.q, NoCache, a.ask)] else []) + Uncached(actions[1..])
  }

  /** One request: its response is the uncached one, and what it leaves in the cache
      agrees with the backends. */
  lemma RequestAgrees(w: World, a: Action, defaultTtlMs: real, after: seq<Event>)
    requires a.Request? && Agrees(w, defaultTtlMs) && w.now <= a.at
    requires Unspecific(a.c, a.q) ==> Serves(a, w.answers)
    requires OnlyFetched(w.history, after, a.c, a.ask, a.principal)
    requires !Unspecific(a.c, a.q) ==> after == w.history
    ensures AnswerTo(a.c, a.up, a.q, View(w.history, defaultTtlMs, a.principal, a.at), a.ask) ==
            AnswerTo(a.c, a.up, a.q, NoCache, a.ask)
    ensures Agrees(World(after, a.at, w.answers), defaultTtlMs)
  {
    SpecificBypassesCache(a.c, a.up, a.q, NoCache, a.ask);
    StepKeepsAgreement(w, Tick(a.at), defaultTtlMs);
    var w' := w.(now := a.at);
    hide Agrees, AnswerTo, Available, CursorFor, Cacheable, OnlyFetched, Unspecific;
    if Cacheable(a.c, a.q) {
      forall id: string { PlainCursor(a.c, a.q, id); }
      FetchesKeepAgreement(w', defaultTtlMs, after, a.c, a.ask, a.principal);
    }
    CachedAnswerIsFresh(w', defaultTtlMs, a.c, a.up, a.q, a.principal, a.ask);
  }

  /** One action of a legal run. */
  lemma ActionStep(now: real, answers: Answers, actions: seq<Action>, i: nat)
    requires i < |actions| && LegalActions(now, answers, actions[i..])
    ensures var a := actions[i];
            Uncached(actions[i..]) ==
            (if a.Request? then [AnswerTo(a.c, a.up, a.q, NoCache, a.ask)] else []) + Uncached(actions[i + 1..])
    ensures match actions[i]
            case Request(c, _, q, _, at, _) =>
              now <= at && (Unspecific(c, q) ==>
                Serves(actions[i], answers)) && LegalActions(at, answers, actions[i + 1..])
            case Changed(backend, answers') =>
              Legal(World([], now, answers), ListChanged(backend, answers')) && LegalActions(now, answers',
                actions[i + 1..])
            case Lost(_) => LegalActions(now, answers, actions[i + 1..])
  {
    hide AnswerTo, Unspecific, Serves, Legal;
    assert actions[i..][0] == actions[i] && actions[i..][1..] == actions[i + 1..];
  }

  /** What the two notifications do to the world. */
  lemma Notified(w: World, backend: string, answers': Answers)
    ensures Legal(World([], w.now, w.answers), ListChanged(backend, answers')) ==
            Legal(w, ListChanged(backend, answers'))
    ensures Next(w, ListChanged(backend, answers')) == World(w.history + [Invalidate(backend)], w.now, answers')
    ensures Next(w, SurfaceChanged(backend)) == World(w.history + [Invalidate(backend)], w.now, w.answers)
    ensures Legal(w, SurfaceChanged(backend))
  {
  }

  lemma ViewIs(cache: ListCache, principal: Option<string>, now: real)
    ensures ViewOf(cache, principal, now) == View(cache.history, cache.defaultTtlMs, principal, now)
  {
  }

  lemma NoActions(actions: seq<Action>)
    ensures Uncached(actions[|actions|..]) == [] && actions[0..] == actions
  {
  }

  /** The whole of it: any run of list requests on one cache, interleaved with changes
      that are notified and backends that are lost, gets the responses a router
      without a cache would give. */
  method Serve(cache: ListCache, now: real, actions: seq<Action>, reverse: ReverseTable, ghost answers: Answers)
    returns (responses: seq<Answered>, reverse': ReverseTable)
    requires cache.Valid() && cache.clock <= now
    requires Agrees(World(cache.history, now, answers), cache.defaultTtlMs) && LegalActions(now, answers, actions)
    modifies cache
    ensures cache.Valid() && responses == Uncached(actions)
  {
    hide *;
    responses, reverse' := [], reverse;
    ghost var clock, current := now, answers;
    NoActions(actions);
    for i := 0 to |actions|
      invariant cache.Valid() && cache.clock <= clock
      invariant Agrees(World(cache.history, clock, current), cache.defaultTtlMs)
      invariant LegalActions(clock, current, actions[i..])
      invariant responses + Uncached(actions[i..]) == Uncached(actions)
    {
      ghost var w := World(cache.history, clock, current);
      var a := actions[i];
      ActionStep(clock, current, actions, i);
      match a {
        case Request(c, up, q, principal, at, ask) =>
          var response;
          ghost var view := ViewOf(cache, principal, at);
          assert view == View(w.history, cache.defaultTtlMs, principal, at) by { ViewIs(cache, principal, at); }
          response, reverse' := Aggregate(c, up, q, ask, cache, principal, at, reverse');
          SpecificBypassesCache(c, up, q, NoCache, ask);
          RequestAgrees(w, a, cache.defaultTtlMs, cache.history);
          responses := responses + [response];
          clock := at;
        case Changed(backend, answers') =>
          Notified(w, backend, answers');
          StepKeepsAgreement(w, ListChanged(backend, answers'), cache.defaultTtlMs);
          cache.InvalidateBackend(backend);
          current := answers';
        case Lost(backend) =>
          Notified(w, backend, current);
          StepKeepsAgreement(w, SurfaceChanged(backend), cache.defaultTtlMs);
          cache.InvalidateBackend(backend);
      }
    }
  }
}
