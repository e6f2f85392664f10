/** One backend connection (`Backend` in yamp/router.py): a background reader
    matches answers to pending requests. Each method is one atomic step, from one
    `await` to the next, so every interleaving is some sequence of calls. */
module Demux {
  import opened Basics
  import opened Json
  import Decimal

  /** A request's future. */
  datatype Future = Waiting | Answered(message: Object) | Failed | TimedOut | Cancelled

  /** Where the reader put one received message. */
  datatype Route = ToRequest(mid: string) | Discarded | ToSink

  function RequestId(backendId: string, n: nat): string { Decimal.Mint(backendId + "-", n) }

  /** The messages routed to the sink, in order. */
  function SinkOf(received: seq<Object>, routes: seq<Route>): seq<Object>
    requires |received| == |routes|
  {
    if received == [] then []
    else
      var n := |received| - 1;
      SinkOf(received[..n], routes[..n]) + if routes[n].ToSink? then [received[n]] else []
  }

  /** The answers given so far account for each other: an answered request got one
      message, bearing its id. */
  predicate Accounts(futures: map<string, Future>, pending: set<string>, received: seq<Object>, routes: seq<Route>)
    requires |received| == |routes|
  {
    && (forall i :: 0 <= i < |routes| && routes[i].ToRequest? ==>
          && routes[i].mid in futures && futures[routes[i].mid] == Answered(received[i])
          && routes[i].mid !in pending && GetOrNull(received[i], "id") == Str(routes[i].mid))
    && (forall i, j :: 0 <= i < j < |routes| && routes[i].ToRequest? && routes[j].ToRequest? ==>
      routes[i].mid != routes[j].mid)
    && (forall mid :: mid in futures && futures[mid].Answered? ==>
          exists i :: 0 <= i < |routes| && routes[i] == ToRequest(mid))
  }

  // ---- The history of a connection ----

  datatype Event =
    | Began(mid: string)
    | Received(message: Object)
    | ReaderEnded
    | Expired(mid: string)
    | TaskCancelled(mid: string)
    | Resumed(mid: string)

  predicate Bears(e: Event, mid: string) { e.Received? && GetOrNull(e.message, "id") == Str(mid) }

  /** Whether a request was ever made under this id. */
  predicate Known(log: seq<Event>, mid: string) {
    log != [] && (log[|log| - 1] == Began(mid) || Known(log[..|log| - 1], mid))
  }

  /** Whether `_pending` holds the id after a history. */
  predicate InTable(log: seq<Event>, mid: string) {
    if log == [] then false
    else
      var e := log[|log| - 1];
      e == Began(mid) || (!Bears(e, mid) && !e.ReaderEnded? && e != Resumed(mid) && InTable(log[..|log| - 1], mid))
  }

  /** Whether the task that made the request still waits for it. */
  predicate Suspended(log: seq<Event>, mid: string) {
    if log == [] then false
    else
      var e := log[|log| - 1];
      e == Began(mid) || (e != TaskCancelled(mid) && e != Resumed(mid) && Suspended(log[..|log| - 1], mid))
  }

  /** Ids are fresh, and only a waiting task is cancelled or resumed. */
  predicate WellFormed(log: seq<Event>) {
    log != [] ==>
      var n := |log| - 1;
      && WellFormed(log[..n])
      && (log[n].Began? ==> !Known(log[..n], log[n].mid))
      && (log[n].TaskCancelled? || log[n].Resumed? ==> Suspended(log[..n], log[n].mid))
  }

  /** The fields agree with the history. */
  ghost predicate Follows(log: seq<Event>, futures: set<string>, pending: set<string>, waiters: set<string>) {
    && WellFormed(log)
    && (forall mid :: mid in futures <==> Known(log, mid))
    && (forall mid :: mid in pending <==> InTable(log, mid))
    && (forall mid :: mid in waiters <==> Suspended(log, mid))
  }

  /** What one event does to the table of an agreeing state. */
  lemma FollowsStep(log: seq<Event>, futures: set<string>, pending: set<string>, waiters: set<string>, e: Event)
    requires Follows(log, futures, pending, waiters)
    requires e.Began? ==> e.mid !in futures
    requires e.TaskCancelled? || e.Resumed? ==> e.mid in waiters
    ensures match e
            case Began(mid) => Follows(log + [e], futures + {mid}, pending + {mid}, waiters + {mid})
            case Received(message) =>
              var id := GetOrNull(message, "id");
              Follows(log + [e], futures, if id.Str? then pending - {id.s} else pending, waiters)
            case ReaderEnded => Follows(log + [e], futures, {}, waiters)
            case Expired(_) => Follows(log + [e], futures, pending, waiters)
            case TaskCancelled(mid) => Follows(log + [e], futures, pending, waiters - {mid})
            case Resumed(mid) => Follows(log + [e], futures, pending - {mid}, waiters - {mid})
  {
    assert (log + [e])[..|log|] == log;
  }

  lemma AnsweredIsNotPending(futures: map<string, Future>, pending: set<string>, received: seq<Object>,
                             routes: seq<Route>, mid: string)
    requires |received| == |routes| && Accounts(futures, pending, received, routes)
    requires mid in futures && futures[mid].Answered?
    ensures mid !in pending
  {
    var i :| 0 <= i < |routes| && routes[i] == ToRequest(mid);
  }

  lemma AccountsStep(futures: map<string, Future>, pending: set<string>, received: seq<Object>, routes: seq<Route>,
                     message: Object, route: Route, futures': map<string, Future>, pending': set<string>)
    requires |received| == |routes| && Accounts(futures, pending, received, routes)
    requires forall mid :: mid in pending ==> mid in futures
    requires route.ToRequest? ==>
      route.mid in pending && futures[route.mid].Waiting? && GetOrNull(message, "id") == Str(route.mid)
    requires futures' == if route.ToRequest? then futures[route.mid := Answered(message)] else futures
    requires pending' <= pending && (route.ToRequest? ==> route.mid !in pending')
    ensures Accounts(futures', pending', received + [message], routes + [route])
  {
    var routes' := routes + [route];
    forall mid | mid in futures' && futures'[mid].Answered?
      ensures exists i :: 0 <= i < |routes'| && routes'[i] == ToRequest(mid)
    {
      if route == ToRequest(mid) {
        assert routes'[|routes|] == ToRequest(mid);
      } else {
        var i :| 0 <= i < |routes| && routes[i] == ToRequest(mid);
        assert routes'[i] == ToRequest(mid);
      }
    }
  }

  /** Failing what is pending leaves the answers given so far alone. */
  lemma AllFailed(futures: map<string, Future>, pending: set<string>, received: seq<Object>, routes: seq<Route>,
                  futures': map<string, Future>)
    requires |received| == |routes| && Accounts(futures, pending, received, routes)
    requires forall mid :: mid in futures' <==> mid in futures
    requires forall mid :: mid in futures ==> futures'[mid] == if futures[mid].Waiting? then Failed else futures[mid]
    ensures Accounts(futures', {}, received, routes)
  {
  }

  lemma SinkStep(received: seq<Object>, routes: seq<Route>, message: Object, route: Route)
    requires |received| == |routes|
    ensures SinkOf(received + [message], routes + [route]) ==
            SinkOf(received, routes) + if route.ToSink? then [message] else []
  {
  }

  class Backend {
    const id: string
    /** Whether requests have a timeout. */
    const timed: bool
    var nextId: nat
    /** `_pending`, by request id; the futures themselves are in `futures`, which
        also keeps those that only their waiter still refers to. */
    var pending: set<string>
    var futures: map<string, Future>
    /** The requests whose task is still suspended in `request`. */
    var waiters: set<string>
    ghost var log: seq<Event>
    ghost var received: seq<Object>
    ghost var routes: seq<Route>
    ghost var sink: seq<Object>

    ghost predicate Valid()
      reads this
    {
      && (forall mid :: mid in futures ==> Decimal.Minted(id + "-", mid, nextId))
      && pending <= futures.Keys && waiters <= futures.Keys
      && (forall mid :: mid in futures && futures[mid].Waiting? ==> mid in pending && mid in waiters)
      && (forall mid :: mid in waiters ==> !futures[mid].Cancelled?)
      && Follows(log, futures.Keys, pending, waiters)
      && |received| == |routes|
      && Accounts(futures, pending, received, routes)
      && sink == SinkOf(received, routes)
    }

    constructor (id: string, timed: bool)
      ensures Valid() && this.id == id && this.timed == timed
      ensures nextId == 0 && pending == {} && waiters == {} && log == [] && received == [] && sink == []
    {
      this.id, this.timed := id, timed;
      nextId, pending, futures, waiters := 0, {}, map[], {};
      log, received, routes, sink := [], [], [], [];
    }

    /** `request` up to its first suspension: mint an id and register a future. */
    method Begin() returns (mid: string)
      requires Valid()
      modifies this
      ensures Valid() && nextId == old(nextId) + 1 && mid == RequestId(id, nextId) && log == old(log) + [Began(mid)]
      ensures mid !in old(futures) && futures == old(futures)[mid := Waiting]
      ensures pending == old(pending) + {mid} && waiters == old(waiters) + {mid}
      ensures received == old(received) && routes == old(routes) && sink == old(sink)
    {
      hide Decimal.Mint, Decimal.Minted, Follows, SinkOf, Known, InTable, Suspended;
      Decimal.NextIdIsFresh(id + "-", nextId);
      nextId := nextId + 1;
      mid := RequestId(id, nextId);
      FollowsStep(log, futures.Keys, pending, waiters, Began(mid));
      futures := futures[mid := Waiting];
      pending := pending + {mid};
      waiters := waiters + {mid};
      log := log + [Began(mid)];
      assert futures.Keys == old(futures).Keys + {mid};
    }

    /** One turn of the reader with a decoded message. An id that cannot be looked up
        raises, and the reader must then end. */
    method Deliver(message: Object) returns (raised: bool)
      requires Valid()
      modifies this
      ensures Valid() && nextId == old(nextId) && waiters == old(waiters)
      ensures raised <==> Unhashable(GetOrNull(message, "id"))
      ensures raised ==> futures == old(futures) && pending == old(pending) && log == old(log)
      ensures raised ==> received == old(received) && routes == old(routes) && sink == old(sink)
      ensures !raised ==> log == old(log) + [Received(message)]
      ensures !raised ==> received == old(received) + [message]
      ensures !raised ==> |routes| == |old(routes)| + 1 && old(routes) <= routes
      ensures !raised ==>
        var key := GetOrNull(message, "id");
        if key.Str? && key.s in old(pending) then
          && pending == old(pending) - {key.s} && sink == old(sink)
          && futures ==
             (if old(futures)[key.s].Waiting? then old(futures)[key.s := Answered(message)] else old(futures))
          && routes[|old(routes)|] == (if old(futures)[key.s].Waiting? then ToRequest(key.s) else Discarded)
        else
          && pending == old(pending) && futures == old(futures) && sink == old(sink) + [message]
          && routes[|old(routes)|] == ToSink
    {
      hide Accounts, SinkOf, Follows, Decimal.Mint, Decimal.Minted;
      var key := GetOrNull(message, "id");
      if Unhashable(key) {
        return true;
      }
      FollowsStep(log, futures.Keys, pending, waiters, Received(message));
      var route := ToSink;
      if key.Str? && key.s in pending {
        pending := pending - {key.s};
        if futures[key.s].Waiting? {
          futures := futures[key.s := Answered(message)];
          route := ToRequest(key.s);
        } else {
          route := Discarded;
        }
      } else {
        sink := sink + [message];
      }
      log, received, routes := log + [Received(message)], received + [message], routes + [route];
      assert futures.Keys == old(futures).Keys && pending == if key.Str? then old(pending) - {key.s} else old(pending);
      SinkStep(old(received), old(routes), message, route);
      AccountsStep(old(futures), old(pending), old(received), old(routes), message, route, futures, pending);
      return false;
    }

    /** The reader ends, for whatever reason: everything pending fails. */
    method ReaderEnds()
      requires Valid()
      modifies this
      ensures Valid() && pending == {} && nextId == old(nextId) && waiters == old(waiters)
      ensures log == old(log) + [ReaderEnded]
      ensures received == old(received) && routes == old(routes) && sink == old(sink)
      ensures futures == map mid | mid in old(futures) ::
              if old(futures)[mid].Waiting? then Failed else old(futures)[mid]
      ensures forall mid :: mid in futures ==> !futures[mid].Waiting?
    {
      hide Decimal.Mint, Decimal.Minted, Accounts, SinkOf, Follows;
      FollowsStep(log, futures.Keys, pending, waiters, ReaderEnded);
      var left := pending;
      while left != {}
        invariant left <= pending == old(pending)
        invariant futures == map mid | mid in old(futures) ::
          if old(futures)[mid].Waiting? && mid !in left then Failed else old(futures)[mid]
        invariant nextId == old(nextId) && waiters == old(waiters) && log == old(log)
        invariant received == old(received) && routes == old(routes) && sink == old(sink)
      {
        var mid :| mid in left;
        if futures[mid].Waiting? {
          futures := futures[mid := Failed];
        }
        left := left - {mid};
      }
      AllFailed(old(futures), pending, received, routes, futures);
      pending := {};
      log := log + [ReaderEnded];
      assert futures.Keys == old(futures).Keys;
    }

    /** `wait_for` runs out: the future is cancelled and its waiter will see a timeout. */
    method TimeOut(mid: string)
      requires Valid() && timed && mid in futures && futures[mid].Waiting?
      modifies this
      ensures Valid() && pending == old(pending) && waiters == old(waiters) && nextId == old(nextId)
      ensures log == old(log) + [Expired(mid)]
      ensures received == old(received) && routes == old(routes) && sink == old(sink)
      ensures futures == old(futures)[mid := TimedOut]
    {
      hide Decimal.Mint, Decimal.Minted, SinkOf, Follows;
      FollowsStep(log, futures.Keys, pending, waiters, Expired(mid));
      futures := futures[mid := TimedOut];
      log := log + [Expired(mid)];
      assert futures.Keys == old(futures).Keys;
    }

    /** The task that waits is cancelled: it unwinds past the handler of timeouts and
        failures, so nothing is removed from the table. */
    method CancelTask(mid: string)
      requires Valid() && mid in waiters
      modifies this
      ensures Valid() && pending == old(pending) && waiters == old(waiters) - {mid} && nextId == old(nextId)
      ensures log == old(log) + [TaskCancelled(mid)]
      ensures received == old(received) && routes == old(routes) && sink == old(sink)
      ensures futures == if old(futures)[mid].Waiting? then old(futures)[mid := Cancelled] else old(futures)
    {
      hide Decimal.Mint, Decimal.Minted, SinkOf, Follows;
      FollowsStep(log, futures.Keys, pending, waiters, TaskCancelled(mid));
      if futures[mid].Waiting? {
        futures := futures[mid := Cancelled];
      }
      waiters := waiters - {mid};
      log := log + [TaskCancelled(mid)];
      assert futures.Keys == old(futures).Keys;
    }

    /** The waiter of a settled future resumes: a failure or timeout removes what is
        left of the request. */
    method Resume(mid: string) returns (answer: Option<Object>)
      requires Valid() && mid in waiters && !futures[mid].Waiting?
      modifies this
      ensures Valid() && futures == old(futures) && nextId == old(nextId) && log == old(log) + [Resumed(mid)]
      ensures received == old(received) && routes == old(routes) && sink == old(sink)
      ensures answer == if futures[mid].Answered? then Some(futures[mid].message) else None
      ensures pending == old(pending) - {mid} && waiters == old(waiters) - {mid}
      ensures answer.Some? ==> mid !in old(pending)
    {
      if futures[mid].Answered? { AnsweredIsNotPending(futures, pending, received, routes, mid); }
      hide Decimal.Mint, Decimal.Minted, SinkOf, Follows;
      FollowsStep(log, futures.Keys, pending, waiters, Resumed(mid));
      waiters := waiters - {mid};
      log := log + [Resumed(mid)];
      if futures[mid].Answered? {
        assert pending == pending - {mid};
        return Some(futures[mid].message);
      }
      pending := pending - {mid};
      return None;
    }
  }

  /** After this event an entry may remain that nobody waits for. */
  predicate LeavesEntry(log: seq<Event>, c: nat, mid: string) {
    && c < |log| && log[c] == TaskCancelled(mid) && InTable(log[..c], mid)
    && forall j :: c < j < |log| ==> !Bears(log[j], mid) && !log[j].ReaderEnded?
  }

  lemma {:induction false} SuspendedIsKnown(log: seq<Event>, mid: string)
    requires Suspended(log, mid)
    ensures Known(log, mid)
  {
    if log[|log| - 1] != Began(mid) { SuspendedIsKnown(log[..|log| - 1], mid); }
  }

  lemma {:induction false} KnownOnce(log: seq<Event>, c: nat, mid: string)
    requires c <= |log| && WellFormed(log) && Known(log[..c], mid)
    ensures Known(log, mid) && forall j :: c <= j < |log| ==> log[j] != Began(mid)
  {
    var n := |log| - 1;
    if c < |log| {
      assert log[..n][..c] == log[..c];
      KnownOnce(log[..n], c, mid);
    } else {
      assert log[..c] == log;
    }
  }

  lemma {:induction false} SuspendedBefore(log: seq<Event>, c: nat, mid: string)
    requires WellFormed(log) && c < |log| && (log[c] == TaskCancelled(mid) || log[c] == Resumed(mid))
    ensures Suspended(log[..c], mid)
  {
    var n := |log| - 1;
    if c < n {
      assert log[..n][..c] == log[..c];
      SuspendedBefore(log[..n], c, mid);
    }
  }

  /** A cancelled task never waits again. */
  lemma {:induction false} CancelledStays(log: seq<Event>, c: nat, mid: string)
    requires WellFormed(log) && c < |log| && log[c] == TaskCancelled(mid)
    ensures !Suspended(log, mid)
    ensures forall j :: c < j < |log| ==> log[j] != Resumed(mid) && log[j] != Began(mid)
  {
    var n := |log| - 1;
    if c < n {
      CancelledStays(log[..n], c, mid);
      assert log[..n][..c] == log[..c];
      SuspendedBefore(log, c, mid);
      SuspendedIsKnown(log[..c], mid);
      KnownOnce(log, c, mid);
    }
  }

  /** Main result on what is left behind: `_pending` holds an entry that nobody waits
      for if and only if its task was cancelled while the entry was there, and since
      then no message bore its id and the reader did not end. */
  lemma {:induction false} LeftBehind(log: seq<Event>, mid: string)
    requires WellFormed(log)
    ensures InTable(log, mid) && !Suspended(log, mid) <==> exists c: nat :: c < |log| && LeavesEntry(log, c, mid)
  {
    if log != [] {
      var n := |log| - 1;
      var front, e := log[..n], log[n];
      LeftBehind(front, mid);
      if exists c: nat :: c < |log| && LeavesEntry(log, c, mid) {
        var c: nat :| c < |log| && LeavesEntry(log, c, mid);
        CancelledStays(log, c, mid);
        if c < n {
          assert front[..c] == log[..c];
          assert LeavesEntry(front, c, mid);
        }
      } else if exists c: nat :: c < n && LeavesEntry(front, c, mid) {
        var c: nat :| c < n && LeavesEntry(front, c, mid);
        assert front[..c] == log[..c];
        assert !LeavesEntry(log, c, mid);
      } else if e == TaskCancelled(mid) {
        assert !LeavesEntry(log, n, mid);
      }
    }
  }

  /** The same of every reachable state. */
  lemma EntriesLeftBehind(b: Backend, mid: string)
    requires b.Valid()
    ensures mid in b.pending && mid !in b.waiters <==> exists c: nat :: c < |b.log| && LeavesEntry(b.log, c, mid)
  {
    LeftBehind(b.log, mid);
  }

  /** A run that leaves an entry behind: a request whose task is cancelled. */
  method CancelledRequestStays() returns (b: Backend, mid: string)
    ensures b.Valid() && mid in b.pending && mid !in b.waiters
  {
    b := new Backend("b", true);
    mid := b.Begin();
    b.CancelTask(mid);
  }

  /** No request id is ever issued twice on a connection. */
  lemma RequestIdsDistinct(backendId: string, m: nat, n: nat)
    ensures RequestId(backendId, n) == backendId + "-" + Decimal.Print(n)
    ensures RequestId(backendId, m) == RequestId(backendId, n) <==> m == n
  {
    Decimal.MintInjective(backendId + "-", m, n);
  }

  /** A message goes to at most one request, and a request gets at most one message:
      over any run the pairing of answered requests and messages is one to one. */
  lemma AnswersPairUp(b: Backend, mid: string)
    requires b.Valid() && mid in b.futures && b.futures[mid].Answered?
    ensures exists i ::
              0 <= i < |b.received| && b.routes[i] == ToRequest(mid) && b.futures[mid] == Answered(b.received[i]) &&
              GetOrNull(b.received[i], "id") == Str(mid) &&
              forall j :: 0 <= j < |b.received| && j != i ==> b.routes[j] != ToRequest(mid)
  {
  }

  /** The sink gets the unmatched messages once each and in the order received. */
  lemma {:induction false} SinkInOrder(received: seq<Object>, routes: seq<Route>, i: nat) returns (k: nat)
    requires |received| == |routes| && i < |routes| && routes[i].ToSink?
    ensures k < |SinkOf(received, routes)| && SinkOf(received, routes)[k] == received[i]
    ensures SinkOf(received, routes)[..k] == SinkOf(received[..i], routes[..i])
  {
    var n := |received| - 1;
    if i < n {
      k := SinkInOrder(received[..n], routes[..n], i);
      assert received[..n][..i] == received[..i] && routes[..n][..i] == routes[..i];
    } else {
      k := |SinkOf(received[..n], routes[..n])|;
    }
  }
}
