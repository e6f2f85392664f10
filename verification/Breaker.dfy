/** The circuit breaker (yamp/resilience.py). Its state is updated lazily, when it
    is read; the history it keeps in ghost state shows that nobody can tell. */
module Breaker {
  import opened Basics

  datatype CircuitState = CLOSED | OPEN | HALF_OPEN

  /** What happens to a breaker. A failure carries the clock when it was recorded. */
  datatype Event = Read | Success | Failure(at: real)

  /** Failures since the last success. */
  function FailureCount(history: seq<Event>): nat {
    if history == [] then 0
    else match history[|history| - 1]
         case Success => 0
         case Failure(_) => FailureCount(history[..|history| - 1]) + 1
         case Read => FailureCount(history[..|history| - 1])
  }

  function LastFailure(history: seq<Event>): Option<real> {
    if history == [] then None
    else match history[|history| - 1]
         case Failure(at) => Some(at)
         case _ => LastFailure(history[..|history| - 1])
  }

  lemma {:induction false} CountedFailureExists(history: seq<Event>)
    requires FailureCount(history) > 0
    ensures LastFailure(history).Some?
  {
    if !history[|history| - 1].Failure? {
      CountedFailureExists(history[..|history| - 1]);
    }
  }

  /** The closed form: what a breaker with this history shows at time `now`. A
      threshold below one acts like one. */
  function Observed(threshold: int, resetTimeout: real, history: seq<Event>, now: real): CircuitState {
    var n := FailureCount(history);
    if n == 0 || n < threshold then CLOSED
    else
      CountedFailureExists(history);
      if now - LastFailure(history).value < resetTimeout then OPEN else HALF_OPEN
  }

  class CircuitBreaker {
    const threshold: int
    const resetTimeout: real
    var state: CircuitState
    var failures: int
    var openedAt: real
    ghost var history: seq<Event>
    ghost var clock: real

    /** The fields agree with the closed form as of the last clock reading, up to
        the open-to-half-open step that waits for the next read. */
    ghost predicate Valid()
      reads this
    {
      var n := FailureCount(history);
      && (LastFailure(history).Some? ==> LastFailure(history).value <= clock)
      && (state.CLOSED? ==> failures == n && (n == 0 || n < threshold))
      && (state.OPEN? ==> n > 0 && n >= threshold == failures && LastFailure(history) == Some(openedAt))
      && (state.HALF_OPEN? ==>
            n > 0 && n >= threshold && LastFailure(history).Some? && clock - LastFailure(history).value >= resetTimeout)
    }

    constructor (failureThreshold: int, resetTimeout: real, ghost now: real)
      ensures Valid() && history == [] && clock == now
      ensures threshold == failureThreshold && this.resetTimeout == resetTimeout
    {
      threshold := failureThreshold;
      this.resetTimeout := resetTimeout;
      state, failures, openedAt := CLOSED, 0, 0.0;
      history, clock := [], now;
    }

    /** The `state` property: an open breaker turns half-open when read late. */
    method State(now: real) returns (s: CircuitState)
      requires Valid() && clock <= now
      modifies this
      ensures Valid() && clock == now && history == old(history) + [Read]
      ensures s == state == Observed(threshold, resetTimeout, old(history), now)
    {
      if state == OPEN && now - openedAt >= resetTimeout {
        state := HALF_OPEN;
      }
      clock := now;
      history := history + [Read];
      assert history[..|history| - 1] == old(history);
      return state;
    }

    method Allow(now: real) returns (allowed: bool)
      requires Valid() && clock <= now
      modifies this
      ensures Valid() && clock == now && history == old(history) + [Read]
      ensures allowed <==> Observed(threshold, resetTimeout, old(history), now) != OPEN
    {
      var s := State(now);
      return s != OPEN;
    }

    method RecordSuccess()
      requires Valid()
      modifies this
      ensures Valid() && clock == old(clock) && history == old(history) + [Success]
    {
      failures := 0;
      state := CLOSED;
      history := history + [Success];
      assert history[..|history| - 1] == old(history);
    }

    /** Two clock readings: `readAt` by the state check, `tripAt` by `_trip`. */
    method RecordFailure(readAt: real, tripAt: real)
      requires Valid() && clock <= readAt <= tripAt
      modifies this
      ensures Valid() && clock == tripAt && history == old(history) + [Read, Failure(tripAt)]
    {
      var s := State(readAt);
      ghost var before := history;
      history := history + [Failure(tripAt)];
      clock := tripAt;
      assert history[..|history| - 1] == before;
      assert history == old(history) + [Read, Failure(tripAt)];
      if s == HALF_OPEN {
        Trip(tripAt);
        return;
      }
      failures := failures + 1;
      if failures >= threshold {
        Trip(tripAt);
      }
    }

    method Trip(now: real)
      modifies this`state, this`openedAt, this`failures
      ensures state == OPEN && openedAt == now && failures == threshold
    {
      state := OPEN;
      openedAt := now;
      failures := threshold;
    }
  }

  /** A history without its reads. */
  function Unread(history: seq<Event>): seq<Event> { Kept((e: Event) => !e.Read?, history) }

  /** The lazy update is unobservable: reading a breaker, however often and
      whenever, never changes what it shows later. */
  lemma {:induction false} ReadsAreInvisible(threshold: int, resetTimeout: real, history: seq<Event>, now: real)
    ensures Observed(threshold, resetTimeout, history, now) == Observed(threshold, resetTimeout, Unread(history), now)
    ensures FailureCount(history) == FailureCount(Unread(history))
    ensures LastFailure(history) == LastFailure(Unread(history))
  {
    if history != [] {
      var rest := history[..|history| - 1];
      ReadsAreInvisible(threshold, resetTimeout, rest, now);
      var u := Unread(history);
      if !history[|history| - 1].Read? {
        assert u[..|u| - 1] == Unread(rest);
      } else {
        assert u == Unread(rest);
      }
    }
  }

  /** Left alone, a breaker only ever moves from open to half-open. */
  lemma WaitingOnlyHalfOpens(threshold: int, resetTimeout: real, history: seq<Event>, now: real, later: real)
    requires now <= later
    ensures var before := Observed(threshold, resetTimeout, history, now);
            var after := Observed(threshold, resetTimeout, history, later);
            after == before || (before == OPEN && after == HALF_OPEN)
  {
  }

  /** A half-open breaker admits every call that asks, not one trial. */
  method HalfOpenAdmitsMany() returns (b: CircuitBreaker, first: bool, second: bool)
    ensures b.Valid() && first && second
    ensures Observed(b.threshold, b.resetTimeout, b.history, 30.0) == HALF_OPEN
  {
    b := new CircuitBreaker(1, 30.0, 0.0);
    b.RecordFailure(0.0, 0.0);
    ghost var failed := b.history;
    assert failed[..|failed| - 1] == [Read] && [Read][..0] == [];
    first := b.Allow(30.0);
    assert b.history[..|b.history| - 1] == failed;
    ghost var asked := b.history;
    second := b.Allow(30.0);
    assert b.history[..|b.history| - 1] == asked;
  }

  // ---- The closed form over positions ----

  /** The positions of the failures that no success has followed. */
  function FailuresSince(history: seq<Event>): set<nat> {
    set i: nat | i < |history| && history[i].Failure? && forall j :: i < j < |history| ==> !history[j].Success?
  }

  lemma {:induction false} CountIsPositions(history: seq<Event>)
    ensures FailureCount(history) == |FailuresSince(history)|
  {
    if history != [] {
      var n := |history| - 1;
      var front := history[..n];
      CountIsPositions(front);
      match history[n]
      case Success =>
        assert FailuresSince(history) == {};
      case Failure(_) =>
        assert forall i: nat :: i < n ==> history[i] == front[i];
        assert FailuresSince(history) == FailuresSince(front) + {n};
      case Read =>
        assert forall i: nat :: i < n ==> history[i] == front[i];
        assert FailuresSince(history) == FailuresSince(front);
    }
  }

  /** `at` is the time of the failure at the greatest position. */
  predicate LastFailedAt(history: seq<Event>, i: nat, at: real) {
    i < |history| && history[i] == Failure(at) && forall j :: i < j < |history| ==> !history[j].Failure?
  }

  lemma {:induction false} LastFailureIsPosition(history: seq<Event>, i: nat, at: real)
    requires LastFailedAt(history, i, at)
    ensures LastFailure(history) == Some(at)
  {
    var n := |history| - 1;
    if i < n {
      assert !history[n].Failure?;
      LastFailureIsPosition(history[..n], i, at);
    }
  }

  /** What a breaker shows, read off its history: closed if and only if no failure has
      followed the last success or fewer than the threshold have; and otherwise open if
      and only if less than the reset time has passed since the last failure. */
  lemma ObservedMeaning(threshold: int, resetTimeout: real, history: seq<Event>, now: real)
    ensures var failures := set i: nat | i < |history| && history[i].Failure? &&
                                         forall j :: i < j < |history| ==> !history[j].Success?;
            var shown := Observed(threshold, resetTimeout, history, now);
            && (shown == CLOSED <==> |failures| == 0 || |failures| < threshold)
            && (shown != CLOSED ==> forall i: nat, at ::
                  i < |history| && history[i] == Failure(at) &&
                  (forall j :: i < j < |history| ==> !history[j].Failure?) ==>
                  (shown == OPEN <==> now - at < resetTimeout))
  {
    CountIsPositions(history);
    assert FailuresSince(history) == set i: nat | i < |history| && history[i].Failure? &&
                                                  forall j :: i < j < |history| ==> !history[j].Success?;
    forall i: nat, at |
      i < |history| && history[i] == Failure(at) && (forall j :: i < j < |history| ==> !history[j].Failure?)
      ensures LastFailure(history) == Some(at)
    {
      assert LastFailedAt(history, i, at);
      LastFailureIsPosition(history, i, at);
    }
  }

  /** After a success the breaker is closed, at any time, until enough failures follow. */
  lemma {:induction false} SuccessCloses(threshold: int, resetTimeout: real, history: seq<Event>, later: seq<Event>,
                                         now: real)
    requires forall i :: 0 <= i < |later| ==> !later[i].Success?
    ensures var failures := set i: nat | i < |later| && later[i].Failure?;
            FailureCount(history + [Success] + later) == |failures|
    ensures var failures := set i: nat | i < |later| && later[i].Failure?;
            (|failures| == 0 || |failures| < threshold) ==>
              Observed(threshold, resetTimeout, history + [Success] + later, now) == CLOSED
  {
    var all := history + [Success] + later;
    var n := |all| - 1;
    var failures := set i: nat | i < |later| && later[i].Failure?;
    if later == [] {
      assert all[n] == Success && failures == {};
    } else {
      var m := |later| - 1;
      var before := set i: nat | i < |later[..m]| && later[..m][i].Failure?;
      assert all[..n] == history + [Success] + later[..m] && all[n] == later[m];
      SuccessCloses(threshold, resetTimeout, history, later[..m], now);
      assert failures == if later[m].Failure? then before + {m} else before;
    }
  }
}
