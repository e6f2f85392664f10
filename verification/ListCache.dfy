/** The shared list cache (yamp/cache.py). */
module ListCache {
  import opened Basics
  import opened Listing

  const PRIVATE := "private"

  type Key = (string, string)

  datatype Entry = Entry(result: ListResult, expiresAt: real, private': bool, principal: Option<string>)

  /** What happens to a cache: keys are (backend id, list method). */
  datatype Event =
    | Read(at: real, key: Key)
    | Put(at: real, key: Key, principal: Option<string>, result: ListResult)
    | Invalidate(backendId: string)

  /** Freshness in milliseconds: a missing or non-numeric directive falls back. */
  function TtlMs(result: ListResult, defaultTtlMs: real): real {
    match result.ttl
    case Milliseconds(ms) => ms
    case _ => defaultTtlMs
  }

  predicate IsPrivate(result: ListResult) { result.scope == Some(PRIVATE) }

  /** The last `put` under a key since its backend was last invalidated. */
  function LastPut(history: seq<Event>, key: Key): (r: Option<Event>)
    ensures r.Some? ==> r.value.Put? && r.value.key == key
  {
    if history == [] then None
    else
      var e := history[|history| - 1];
      if e.Put? && e.key == key then Some(e)
      else if e.Invalidate? && e.backendId == key.0 then None
      else LastPut(history[..|history| - 1], key)
  }

  predicate Fresh(put: Event, defaultTtlMs: real, now: real)
    requires put.Put?
  {
    var ttl := TtlMs(put.result, defaultTtlMs);
    ttl > 0.0 && now < put.at + ttl / 1000.0
  }

  predicate Visible(put: Event, principal: Option<string>)
    requires put.Put?
  {
    IsPrivate(put.result) ==> put.principal == principal
  }

  /** The simple specification: the answer a cache with this history gives. */
  function Answer(history: seq<Event>, defaultTtlMs: real, key: Key, principal: Option<string>,
                  now: real): Option<ListResult> {
    match LastPut(history, key)
    case None => None
    case Some(put) => if Fresh(put, defaultTtlMs, now) && Visible(put, principal) then Some(put.result) else None
  }

  class ListCache {
    const defaultTtlMs: real
    var entries: map<Key, Entry>
    ghost var history: seq<Event>
    ghost var clock: real

    /** The entry that a `put` leaves behind. */
    ghost function EntryOf(put: Event): Entry
      requires put.Put?
      reads this
    {
      Entry(put.result, put.at + TtlMs(put.result, defaultTtlMs) / 1000.0, IsPrivate(put.result),
            if IsPrivate(put.result) then put.principal else None)
    }

    /** A present entry is what the last put stored; an absent one was never put,
        was put stale, was invalidated, or has expired. */
    ghost predicate Valid()
      reads this
    {
      forall key ::
        match LastPut(history, key)
        case None => key !in entries
        case Some(put) =>
          && (key in entries ==> TtlMs(put.result, defaultTtlMs) > 0.0 && entries[key] == EntryOf(put))
          && (key !in entries ==> !Fresh(put, defaultTtlMs, clock))
    }

    constructor (defaultTtlMs: real, ghost now: real)
      ensures Valid() && history == [] && clock == now && this.defaultTtlMs == defaultTtlMs
    {
      this.defaultTtlMs := defaultTtlMs;
      entries, history, clock := map[], [], now;
    }

    method Get(backendId: string, listMethod: string, principal: Option<string>,
               now: real) returns (r: Option<ListResult>)
      requires Valid() && clock <= now
      modifies this
      ensures Valid() && clock == now && history == old(history) + [Read(now, (backendId, listMethod))]
      ensures r == Answer(old(history), defaultTtlMs, (backendId, listMethod), principal, now)
    {
      var key := (backendId, listMethod);
      history := history + [Read(now, key)];
      clock := now;
      assert history[..|history| - 1] == old(history);
      assert forall k :: LastPut(history, k) == LastPut(old(history), k);
      if key !in entries {
        return None;
      }
      var entry := entries[key];
      if now >= entry.expiresAt {
        entries := entries - {key};
        return None;
      }
      if entry.private' && entry.principal != principal {
        return None;
      }
      return Some(entry.result);
    }

    method Put(backendId: string, listMethod: string, principal: Option<string>, result: ListResult, now: real)
      requires Valid() && clock <= now
      modifies this
      ensures Valid() && clock == now
      ensures history == old(history) + [Event.Put(now, (backendId, listMethod), principal, result)]
    {
      var key := (backendId, listMethod);
      history := history + [Event.Put(now, key, principal, result)];
      clock := now;
      assert history[..|history| - 1] == old(history);
      ghost var put := Event.Put(now, key, principal, result);
      assert forall k :: LastPut(history, k) == if k == key then Some(put) else LastPut(old(history), k);
      var ttlMs := TtlMs(result, defaultTtlMs);
      if ttlMs <= 0.0 {
        entries := entries - {key};
        return;
      }
      var isPrivate := IsPrivate(result);
      entries := entries[key := Entry(result, now + ttlMs / 1000.0, isPrivate, if isPrivate then principal else None)];
    }

    method InvalidateBackend(backendId: string)
      requires Valid()
      modifies this
      ensures Valid() && clock == old(clock) && history == old(history) + [Invalidate(backendId)]
    {
      var doomed := set k | k in entries && k.0 == backendId;
      while doomed != {}
        invariant forall k :: k in doomed ==> k in old(entries) && k.0 == backendId
        invariant forall k :: k in entries <==> k in old(entries) && (k.0 == backendId ==> k in doomed)
        invariant forall k :: k in entries ==> entries[k] == old(entries)[k]
        invariant history == old(history) && clock == old(clock)
      {
        var k :| k in doomed;
        entries := entries - {k};
        doomed := doomed - {k};
      }
      history := history + [Invalidate(backendId)];
      assert history[..|history| - 1] == old(history);
      assert forall k :: LastPut(history, k) == if k.0 == backendId then None else LastPut(old(history), k);
    }
  }

  /** A history without its reads. */
  function Unread(history: seq<Event>): seq<Event> { Kept((e: Event) => !e.Read?, history) }

  /** Dropping an expired entry while reading is unobservable. */
  lemma {:induction false} ReadsAreInvisible(history: seq<Event>, key: Key)
    ensures LastPut(history, key) == LastPut(Unread(history), key)
  {
    if history != [] {
      var rest := history[..|history| - 1];
      ReadsAreInvisible(rest, key);
      var u := Unread(history);
      if !history[|history| - 1].Read? {
        assert u[..|u| - 1] == Unread(rest);
      } else {
        assert u == Unread(rest);
      }
    }
  }

  /** Position `i` is a put under `key` that is neither replaced nor invalidated. */
  predicate Stands(history: seq<Event>, i: nat, key: Key) {
    && i < |history| && history[i].Put? && history[i].key == key
    && forall j :: i < j < |history| ==>
         !(history[j].Put? && history[j].key == key) && !(history[j].Invalidate? && history[j].backendId == key.0)
  }

  lemma {:induction false} LastPutStands(history: seq<Event>, key: Key)
    ensures LastPut(history, key).Some? ==>
            exists i :: 0 <= i < |history| && Stands(history, i, key) && history[i] == LastPut(history, key).value
    ensures LastPut(history, key).None? ==> forall i :: 0 <= i < |history| ==> !Stands(history, i, key)
  {
    if history != [] {
      var n := |history| - 1;
      var rest := history[..n];
      LastPutStands(rest, key);
      if LastPut(history, key).Some? && !(history[n].Put? && history[n].key == key) {
        var i :| 0 <= i < n && Stands(rest, i, key) && rest[i] == LastPut(rest, key).value;
        assert Stands(history, i, key);
      } else if LastPut(history, key).Some? {
        assert Stands(history, n, key);
      } else {
        forall i | 0 <= i < |history| ensures !Stands(history, i, key) {
          if i < n && Stands(history, i, key) {
            assert Stands(rest, i, key);
          }
        }
      }
    }
  }

  /** The answer in terms of positions in the history: a put of this very result
      that nothing under its key has replaced and no invalidation of its backend
      has followed, fresh and shown to this principal. */
  lemma {:induction false} AnswerMeaning(history: seq<Event>, defaultTtlMs: real, key: Key, principal: Option<string>,
                                         now: real, result: ListResult)
    ensures Answer(history, defaultTtlMs, key, principal, now) == Some(result) <==>
            exists i :: 0 <= i < |history| && Stands(history, i, key) && history[i].result == result &&
              Fresh(history[i], defaultTtlMs, now) && Visible(history[i], principal)
  {
    LastPutStands(history, key);
    forall i, j | 0 <= i < |history| && 0 <= j < |history| && Stands(history, i, key) && Stands(history, j, key)
      ensures i == j
    {
    }
  }

  /** The answer, with nothing left to a definition: some put of this result under the
      key, not replaced and not invalidated since; a positive lifetime, taken from the
      result if it gives one in numbers, that has not run out; and a result that is not
      private, or was put by this very principal. */
  lemma AnswerInFull(history: seq<Event>, defaultTtlMs: real, key: Key, principal: Option<string>, now: real,
                     result: ListResult)
    ensures Answer(history, defaultTtlMs, key, principal, now) == Some(result) <==>
            exists i :: 0 <= i < |history| && history[i].Put? && history[i].key == key && history[i].result == result &&
              (forall j :: i < j < |history| && history[j].Put? ==> history[j].key != key) &&
              (forall j :: i < j < |history| && history[j].Invalidate? ==> history[j].backendId != key.0) &&
              (var ttl := if result.ttl.Milliseconds? then result.ttl.ms else defaultTtlMs;
               ttl > 0.0 && now < history[i].at + ttl / 1000.0) &&
              (result.scope == Some("private") ==> history[i].principal == principal)
  {
    hide Answer, LastPut;
    AnswerMeaning(history, defaultTtlMs, key, principal, now, result);
    forall i | 0 <= i < |history| && history[i].Put? && history[i].key == key
      ensures Stands(history, i, key) <==>
              (forall j :: i < j < |history| && history[j].Put? ==> history[j].key != key) &&
              (forall j :: i < j < |history| && history[j].Invalidate? ==> history[j].backendId != key.0)
    {
    }
  }
}
