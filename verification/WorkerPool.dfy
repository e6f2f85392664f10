/** The worker pool for server-originated calls (yamp/pool.py and the pool methods
    of yamp/router.py). A call is an asyncio task; each method is one atomic step,
    so every interleaving of calls, cancellations and callbacks is some sequence of
    method calls. */
module WorkerPool {
  import opened Basics
  import opened Json
  import Errors

  /** The idle deadline; zero stands for none. */
  function Deadline(nowMs: int, idleMs: int): int {
    if idleMs <= 0 then 0 else nowMs + idleMs
  }

  predicate Expired(deadlineMs: int, nowMs: int) { deadlineMs > 0 && nowMs >= deadlineMs }

  /** A call never outlives its budget unnoticed: from `register` or `touch` on it
      expires exactly when there is a budget and that much time has passed. */
  lemma DeadlineExpires(startMs: int, idleMs: int, nowMs: int)
    requires startMs >= 0
    ensures Expired(Deadline(startMs, idleMs), nowMs) <==> idleMs > 0 && nowMs - startMs >= idleMs
  {
  }

  /** Waiting for a slot; running its handler since the given time; about to send its
      response; ended; and ended with its done callback run. */
  datatype Phase = Queued | Running(since: int) | Sending(response: Json) | Done | Reaped

  datatype Call = Call(callId: Json, token: Option<Json>, phase: Phase, cancelled: bool)

  /** Signs of life of a call: its handler started, or progress came under its token. */
  datatype Sign = Started(call: nat, at: int) | Progressed(call: nat, at: int)

  predicate HoldsSlot(phase: Phase) { phase.Running? || phase.Sending? }

  predicate Live(call: Call) { !call.phase.Reaped? }

  /** The calls that hold a slot. */
  function Holders(calls: seq<Call>): set<nat> {
    set i: nat | i < |calls| && HoldsSlot(calls[i].phase)
  }

  function RunningCalls(calls: seq<Call>): set<nat> {
    set i: nat | i < |calls| && calls[i].phase.Running?
  }

  lemma OneMore(s: set<nat>, i: nat)
    ensures i !in s ==> |s + {i}| == |s| + 1
    ensures i in s ==> |s - {i}| == |s| - 1
  {
  }

  lemma HoldersAfter(calls: seq<Call>, i: nat, call: Call)
    requires i < |calls|
    ensures i in Holders(calls) <==> HoldsSlot(calls[i].phase)
    ensures Holders(calls[i := call]) == if HoldsSlot(call.phase) then Holders(calls) + {i} else Holders(calls) - {i}
  {
  }

  lemma HoldersChange(calls: seq<Call>, i: nat, call: Call)
    requires i < |calls|
    ensures |Holders(calls[i := call])| ==
            |Holders(calls)| + (if HoldsSlot(call.phase) then 1 else 0) - (if HoldsSlot(calls[i].phase) then 1 else 0)
  {
    hide *;
    HoldersAfter(calls, i, call);
    var before := Holders(calls);
    OneMore(before, i);
    assert i in before ==> before + {i} == before;
    assert i !in before ==> before - {i} == before;
  }

  lemma HoldersAppend(calls: seq<Call>, call: Call)
    requires !HoldsSlot(call.phase)
    ensures Holders(calls + [call]) == Holders(calls)
  {
  }

  // ---- What always holds ----

  /** `poolTasks` names live calls by their ids. */
  ghost predicate Tracked(calls: seq<Call>, poolTasks: map<Json, nat>) {
    forall id :: id in poolTasks ==>
      poolTasks[id] < |calls| && calls[poolTasks[id]].callId == id && Live(calls[poolTasks[id]])
  }

  /** Responses go out at most once a call, to calls that have ended and were not
      cancelled before. */
  ghost predicate SentOnce(calls: seq<Call>, sent: seq<(nat, Json)>) {
    && (forall k :: 0 <= k < |sent| ==> sent[k].0 < |calls|)
    && (forall k :: 0 <= k < |sent| && sent[k].0 < |calls| ==>
          (calls[sent[k].0].phase.Done? || calls[sent[k].0].phase.Reaped?) && !calls[sent[k].0].cancelled)
    && (forall j, k :: 0 <= j < k < |sent| ==> sent[j].0 != sent[k].0)
  }

  // ---- What holds while live ids and tokens are distinct ----

  /** Every live call is tracked. */
  ghost predicate AllTracked(calls: seq<Call>, poolTasks: map<Json, nat>) {
    forall i :: 0 <= i < |calls| && Live(calls[i]) ==>
      calls[i].callId in poolTasks && poolTasks[calls[i].callId] == i
  }

  /** `inflight` names exactly the calls whose handler runs. */
  ghost predicate InflightMatch(calls: seq<Call>, inflight: map<Json, int>, poolTasks: map<Json, nat>) {
    forall id :: id in inflight <==> id in poolTasks && poolTasks[id] < |calls| && calls[poolTasks[id]].phase.Running?
  }

  /** Every tracked progress token names the live call that brought it. */
  ghost predicate TokensMatch(calls: seq<Call>, tokens: map<Json, Json>, poolTasks: map<Json, nat>) {
    && (forall t :: t in tokens ==>
          tokens[t] in poolTasks && poolTasks[tokens[t]] < |calls| && calls[poolTasks[tokens[t]]].token == Some(t))
    && (forall i :: 0 <= i < |calls| && Live(calls[i]) && calls[i].token.Some? ==>
          calls[i].token.value in tokens && tokens[calls[i].token.value] == calls[i].callId)
  }

  /** All of the pool's tables agree with the tasks. */
  ghost predicate Agree(calls: seq<Call>, poolTasks: map<Json, nat>, inflight: map<Json, int>,
                        tokens: map<Json, Json>) {
    && Tracked(calls, poolTasks) && AllTracked(calls, poolTasks)
    && InflightMatch(calls, inflight, poolTasks)
    && TokensMatch(calls, tokens, poolTasks)
  }

  /** The time of a call's last sign of life. */
  function LastSign(log: seq<Sign>, i: nat): Option<int> {
    if log == [] then None
    else if log[|log| - 1].call == i then Some(log[|log| - 1].at)
    else LastSign(log[..|log| - 1], i)
  }

  /** Signs come in the order of time, from calls that have started, and those of a
      running call begin with its start. */
  ghost predicate SignsInOrder(calls: seq<Call>, log: seq<Sign>, clock: int) {
    && (forall j, k :: 0 <= j < k < |log| ==> log[j].at <= log[k].at)
    && (forall k :: 0 <= k < |log| ==> log[k].at <= clock && log[k].call < |calls| && !calls[log[k].call].phase.Queued?)
    && (forall k :: 0 <= k < |log| && log[k].call < |calls| && calls[log[k].call].phase.Running? ==>
          log[k].at >= calls[log[k].call].phase.since && (log[k].Started? ==>
            log[k].at == calls[log[k].call].phase.since))
  }

  /** The recorded deadline of every running call counts from its last sign of life. */
  ghost predicate Recorded(calls: seq<Call>, inflight: map<Json, int>, log: seq<Sign>, idleMs: int) {
    forall i :: 0 <= i < |calls| && calls[i].phase.Running? ==>
      && LastSign(log, i).Some? && calls[i].callId in inflight
      && inflight[calls[i].callId] == Deadline(LastSign(log, i).value, idleMs)
  }

  // ---- Steps of the tables ----

  /** The steps a call can take short of having its callback run. */
  ghost predicate Moves(a: Call, b: Call) {
    && b.callId == a.callId && b.token == a.token
    && !a.phase.Done? && Live(a) && Live(b) && (a.cancelled ==> b.cancelled)
  }

  lemma SentKept(calls: seq<Call>, sent: seq<(nat, Json)>, i: nat, call: Call)
    requires SentOnce(calls, sent) && i < |calls|
    requires Moves(calls[i], call) || (calls[i].phase.Done? && call == calls[i].(phase := Reaped))
    ensures SentOnce(calls[i := call], sent)
  {
  }

  lemma TrackedKept(calls: seq<Call>, poolTasks: map<Json, nat>, i: nat, call: Call)
    requires Tracked(calls, poolTasks) && i < |calls| && call.callId == calls[i].callId
    ensures Live(call) ==> Tracked(calls[i := call], poolTasks)
    ensures Tracked(calls[i := call], poolTasks - {call.callId})
  {
  }

  /** Moving one call, with its in-flight entry following. */
  lemma AgreeMove(calls: seq<Call>, poolTasks: map<Json, nat>, inflight: map<Json, int>, tokens: map<Json, Json>,
                  i: nat, call: Call, inflight': map<Json, int>)
    requires Agree(calls, poolTasks, inflight, tokens)
    requires i < |calls| && Moves(calls[i], call)
    requires inflight'.Keys ==
             if call.phase.Running? then inflight.Keys + {call.callId} else inflight.Keys - {call.callId}
    ensures Agree(calls[i := call], poolTasks, inflight', tokens)
  {
    assert forall id :: id in poolTasks && id != call.callId ==> poolTasks[id] != i;
  }

  lemma AgreeSpawn(calls: seq<Call>, poolTasks: map<Json, nat>, inflight: map<Json, int>, tokens: map<Json, Json>,
                   call: Call)
    requires Agree(calls, poolTasks, inflight, tokens)
    requires call.phase.Queued? && call.callId !in poolTasks && (call.token.Some? ==> call.token.value !in tokens)
    ensures Agree(calls + [call], poolTasks[call.callId := |calls|], inflight,
                  if call.token.Some? then tokens[call.token.value := call.callId] else tokens)
  {
  }

  lemma AgreeReap(calls: seq<Call>, poolTasks: map<Json, nat>, inflight: map<Json, int>, tokens: map<Json, Json>,
                  i: nat)
    requires Agree(calls, poolTasks, inflight, tokens)
    requires i < |calls| && calls[i].phase.Done?
    ensures Agree(calls[i := calls[i].(phase := Reaped)], poolTasks - {calls[i].callId}, inflight,
                  if calls[i].token.Some? then tokens - {calls[i].token.value} else tokens)
  {
    var calls', poolTasks' := calls[i := calls[i].(phase := Reaped)], poolTasks - {calls[i].callId};
    assert poolTasks[calls[i].callId] == i;
    assert Tracked(calls', poolTasks') && AllTracked(calls', poolTasks');
    assert InflightMatch(calls', inflight, poolTasks') by { hide TokensMatch; }
  }

  lemma AgreeTouch(calls: seq<Call>, poolTasks: map<Json, nat>, inflight: map<Json, int>, tokens: map<Json, Json>,
                   id: Json, deadline: int)
    requires Agree(calls, poolTasks, inflight, tokens) && id in inflight
    ensures Agree(calls, poolTasks, inflight[id := deadline], tokens)
  {
  }

  /** A new call disturbs nothing that always holds. */
  lemma SpawnKeeps(calls: seq<Call>, poolTasks: map<Json, nat>, sent: seq<(nat, Json)>, log: seq<Sign>, clock: int,
                   call: Call)
    requires Tracked(calls, poolTasks) && SentOnce(calls, sent) && SignsInOrder(calls, log, clock) && call.phase.Queued?
    ensures Tracked(calls + [call], poolTasks[call.callId := |calls|])
    ensures SentOnce(calls + [call], sent) && SignsInOrder(calls + [call], log, clock)
  {
  }

  /** An id in flight is that of a running call, which has shown a sign of life. */
  lemma InflightRuns(calls: seq<Call>, poolTasks: map<Json, nat>, inflight: map<Json, int>, tokens: map<Json, Json>,
                     log: seq<Sign>, idleMs: int, id: Json) returns (i: nat)
    requires Agree(calls, poolTasks, inflight, tokens) && Recorded(calls, inflight, log, idleMs) && id in inflight
    ensures id in poolTasks && i == poolTasks[id] && i < |calls| && calls[i].callId == id && calls[i].phase.Running?
    ensures AllTracked(calls, poolTasks) && LastSign(log, i).Some?
  {
    i := poolTasks[id];
  }

  // ---- Steps of the deadlines ----

  lemma SignsKept(calls: seq<Call>, log: seq<Sign>, clock: int, i: nat, call: Call)
    requires SignsInOrder(calls, log, clock) && i < |calls|
    requires call.phase == calls[i].phase || !(call.phase.Running? || call.phase.Queued?)
    ensures SignsInOrder(calls[i := call], log, clock)
  {
  }

  lemma SignsStart(calls: seq<Call>, log: seq<Sign>, clock: int, i: nat, at: int)
    requires SignsInOrder(calls, log, clock) && i < |calls| && calls[i].phase.Queued? && clock <= at
    ensures SignsInOrder(calls[i := calls[i].(phase := Running(at))], log + [Started(i, at)], at)
  {
  }

  lemma {:induction false} LastSignIsLatest(log: seq<Sign>, i: nat)
    requires forall j, k :: 0 <= j < k < |log| ==> log[j].at <= log[k].at
    ensures LastSign(log, i).None? ==> forall k :: 0 <= k < |log| ==> log[k].call != i
    ensures LastSign(log, i).Some? ==>
      && (exists k :: 0 <= k < |log| && log[k].call == i && log[k].at == LastSign(log, i).value)
      && (forall k :: 0 <= k < |log| && log[k].call == i ==> log[k].at <= LastSign(log, i).value)
  {
    if log != [] {
      var n := |log| - 1;
      LastSignIsLatest(log[..n], i);
      if log[n].call != i && LastSign(log, i).Some? {
        var k :| 0 <= k < n && log[..n][k].call == i && log[..n][k].at == LastSign(log[..n], i).value;
        assert log[k].call == i && log[k].at == LastSign(log, i).value;
      }
    }
  }

  lemma SignsTouch(calls: seq<Call>, log: seq<Sign>, clock: int, i: nat, at: int)
    requires SignsInOrder(calls, log, clock) && i < |calls| && calls[i].phase.Running? && clock <= at
    requires LastSign(log, i).Some?
    ensures SignsInOrder(calls, log + [Progressed(i, at)], at)
  {
    LastSignIsLatest(log, i);
  }

  lemma SignsTick(calls: seq<Call>, log: seq<Sign>, clock: int, at: int)
    requires SignsInOrder(calls, log, clock) && clock <= at
    ensures SignsInOrder(calls, log, at)
  {
  }

  lemma RecordedSpawn(calls: seq<Call>, inflight: map<Json, int>, log: seq<Sign>, idleMs: int, call: Call)
    requires Recorded(calls, inflight, log, idleMs) && call.phase.Queued?
    ensures Recorded(calls + [call], inflight, log, idleMs)
  {
  }

  lemma SignStep(log: seq<Sign>, s: Sign, i: nat)
    ensures LastSign(log + [s], i) == if s.call == i then Some(s.at) else LastSign(log, i)
  {
    assert (log + [s])[..|log|] == log;
  }

  /** A call that is not running afterwards leaves the other deadlines alone. */
  lemma RecordedKept(calls: seq<Call>, poolTasks: map<Json, nat>, inflight: map<Json, int>, tokens: map<Json, Json>,
                     log: seq<Sign>, idleMs: int,
                     i: nat, call: Call)
    requires Agree(calls, poolTasks, inflight, tokens) && Recorded(calls, inflight, log, idleMs)
    requires i < |calls| && Live(calls[i]) && call.callId == calls[i].callId && !call.phase.Running?
    ensures Recorded(calls[i := call], inflight - {call.callId}, log, idleMs)
    ensures !calls[i].phase.Running? ==> Recorded(calls[i := call], inflight, log, idleMs)
  {
    hide LastSign;
  }

  lemma RecordedStart(calls: seq<Call>, poolTasks: map<Json, nat>, inflight: map<Json, int>, tokens: map<Json, Json>,
                      log: seq<Sign>, idleMs: int,
                      i: nat, call: Call, at: int)
    requires Agree(calls, poolTasks, inflight, tokens) && Recorded(calls, inflight, log, idleMs)
    requires i < |calls| && calls[i].phase.Queued? && call.callId == calls[i].callId && call.phase.Running?
    ensures Recorded(calls[i := call], inflight[call.callId := Deadline(at, idleMs)], log + [Started(i, at)], idleMs)
  {
    hide LastSign;
    forall j: nat { SignStep(log, Started(i, at), j); }
  }

  lemma RecordedTouch(calls: seq<Call>, poolTasks: map<Json, nat>, inflight: map<Json, int>, tokens: map<Json, Json>,
                      log: seq<Sign>, idleMs: int,
                      i: nat, at: int)
    requires Agree(calls, poolTasks, inflight, tokens) && Recorded(calls, inflight, log, idleMs)
    requires i < |calls| && calls[i].phase.Running?
    ensures Recorded(calls, inflight[calls[i].callId := Deadline(at, idleMs)], log + [Progressed(i, at)], idleMs)
  {
    hide LastSign;
    forall j: nat { SignStep(log, Progressed(i, at), j); }
  }

  lemma EmptyPool(idleMs: int, nowMs: int)
    ensures Holders([]) == {} && Tracked([], map[]) && SentOnce([], []) && SignsInOrder([], [], nowMs)
    ensures Agree([], map[], map[], map[]) && Recorded([], map[], [], idleMs)
  {
  }

  /** The error sent when a handler runs past its enforced timeout. */
  function TimeoutResponse(callId: Json): Json {
    Errors.ErrorResponse(callId, Errors.InternalError(Some("call exceeded idle deadline")))
  }

  /** The call that ran out of time gets a normalized internal error under its own id. */
  lemma TimeoutMeaning(callId: Json)
    ensures TimeoutResponse(callId) ==
            Obj(map["jsonrpc" := Str("2.0"), "id" := callId,
                    "error" := Obj(map["code" := Number("-32603"), "message" := Str("Internal Error"),
                      "data" := Obj(map["errorId" := Str("E5000"), "detail" := Str("call exceeded idle deadline")])])])
  {
  }

  /** A response leaves, and its call ends. */
  lemma SentGrows(calls: seq<Call>, sent: seq<(nat, Json)>, i: nat, response: Json)
    requires SentOnce(calls, sent) && i < |calls| && calls[i].phase.Sending? && !calls[i].cancelled
    ensures SentOnce(calls[i := calls[i].(phase := Done)], sent + [(i, response)])
  {
  }

  lemma NotInflight(calls: seq<Call>, poolTasks: map<Json, nat>, inflight: map<Json, int>, tokens: map<Json, Json>,
                    i: nat)
    requires Agree(calls, poolTasks, inflight, tokens) && i < |calls| && Live(calls[i]) && !calls[i].phase.Running?
    ensures inflight.Keys == inflight.Keys - {calls[i].callId}
  {
  }

  lemma KeptInflight(calls: seq<Call>, poolTasks: map<Json, nat>, inflight: map<Json, int>, tokens: map<Json, Json>,
                     i: nat)
    requires Agree(calls, poolTasks, inflight, tokens) && i < |calls| && Live(calls[i])
    ensures inflight.Keys ==
            if calls[i].phase.Running? then inflight.Keys + {calls[i].callId} else inflight.Keys - {calls[i].callId}
  {
    assert poolTasks[calls[i].callId] == i;
  }

  // ---- Draining ----

  /** A drain in progress: whatever is still tracked has ended or been cancelled,
      what no longer is tracked was reaped, and no other call was touched. */
  ghost predicate Draining(calls0: seq<Call>, tasks0: map<Json, nat>, calls: seq<Call>, tasks: map<Json, nat>) {
    && |calls| == |calls0|
    && (forall id :: id in tasks ==>
          && id in tasks0 && tasks[id] == tasks0[id] && tasks[id] < |calls|
          && Live(calls[tasks[id]]) && calls[tasks[id]].callId == id
          && (calls[tasks[id]].phase.Done? || calls[tasks[id]].cancelled))
    && (forall i :: 0 <= i < |calls| && i !in tasks0.Values ==> calls[i] == calls0[i])
    && (forall id :: id in tasks0 && id !in tasks ==> tasks0[id] < |calls| && calls[tasks0[id]].phase.Reaped?)
  }

  /** The tracked calls that have not ended. */
  function Unended(calls: seq<Call>, tasks: map<Json, nat>): set<Json> {
    set id | id in tasks && tasks[id] < |calls| && !calls[tasks[id]].phase.Done?
  }

  /** One tracked call of a drain: ended, it is reaped; cancelled, it unwinds. */
  lemma DrainStep(calls0: seq<Call>, tasks0: map<Json, nat>, calls: seq<Call>, tasks: map<Json, nat>, id: Json)
    requires Draining(calls0, tasks0, calls, tasks) && id in tasks
    ensures var i := tasks[id];
            && i < |calls| && Live(calls[i]) && calls[i].callId == id
            && (calls[i].phase.Done? ==>
                  Draining(calls0, tasks0, calls[i := calls[i].(phase := Reaped)], tasks - {calls[i].callId}))
            && (!calls[i].phase.Done? ==>
                  && calls[i].cancelled
                  && Draining(calls0, tasks0, calls[i := calls[i].(phase := Done)], tasks)
                  && |Unended(calls[i := calls[i].(phase := Done)], tasks)| < |Unended(calls, tasks)|)
  {
    var i := tasks[id];
    assert i in tasks0.Values;
    if !calls[i].phase.Done? {
      var calls' := calls[i := calls[i].(phase := Done)];
      assert Unended(calls', tasks) == Unended(calls, tasks) - {id};
      assert id in Unended(calls, tasks);
    }
  }

  lemma AllDrained(calls0: seq<Call>, tasks0: map<Json, nat>, calls: seq<Call>)
    requires Draining(calls0, tasks0, calls, map[])
    ensures |calls| == |calls0|
    ensures forall i :: 0 <= i < |calls| ==>
            if i in tasks0.Values then calls[i].phase.Reaped? else calls[i] == calls0[i]
  {
  }

  /** Cancelling the tracked tasks, with those named in `left` still to come. */
  ghost predicate Cancelling(calls0: seq<Call>, tasks: map<Json, nat>, calls: seq<Call>, left: set<Json>) {
    && |calls| == |calls0|
    && (forall id :: id in tasks ==> tasks[id] < |calls| && calls[tasks[id]].callId == id && Live(calls[tasks[id]]))
    && (forall id :: id in tasks && id !in left ==> calls[tasks[id]].phase.Done? || calls[tasks[id]].cancelled)
    && (forall i :: 0 <= i < |calls| && i !in tasks.Values ==> calls[i] == calls0[i])
  }

  lemma CancelStep(calls0: seq<Call>, tasks: map<Json, nat>, calls: seq<Call>, left: set<Json>, id: Json)
    requires Cancelling(calls0, tasks, calls, left) && id in tasks
    ensures tasks[id] < |calls|
    ensures var i := tasks[id];
            Cancelling(calls0, tasks,
                       if calls[i].phase.Done? then calls else calls[i := calls[i].(cancelled := true)], left - {id})
  {
    assert tasks[id] in tasks.Values;
  }

  lemma AllCancelled(calls0: seq<Call>, tasks: map<Json, nat>, calls: seq<Call>)
    requires Cancelling(calls0, tasks, calls, {})
    ensures Draining(calls0, tasks, calls, tasks)
  {
  }

  // ---- The pool ----

  class Pool {
    const cap: int
    const idleMs: int
    /** Every task ever spawned, by number. */
    var calls: seq<Call>
    var poolTasks: map<Json, nat>
    var inflight: map<Json, int>
    var tokens: map<Json, Json>
    /** Slots taken from the semaphore, which has `cap` of them; none or fewer
        means no semaphore. */
    var slots: nat
    ghost var sent: seq<(nat, Json)>
    ghost var log: seq<Sign>
    ghost var clock: int
    /** No call was ever spawned with an id or token then in use. */
    ghost var distinct: bool

    ghost predicate Valid()
      reads this
    {
      && Tracked(calls, poolTasks) && SentOnce(calls, sent)
      && slots == |Holders(calls)| && (cap > 0 ==> slots <= cap)
      && SignsInOrder(calls, log, clock)
      && (distinct ==> Agree(calls, poolTasks, inflight, tokens) && Recorded(calls, inflight, log, idleMs))
    }

    constructor (cap: int, idleMs: int, ghost nowMs: int)
      ensures Valid() && this.cap == cap && this.idleMs == idleMs && clock == nowMs && distinct
      ensures calls == [] && sent == [] && log == [] && poolTasks == map[] && inflight == map[] && tokens == map[]
    {
      EmptyPool(idleMs, nowMs);
      hide Agree, Holders, Tracked, SentOnce, Recorded, SignsInOrder;
      this.cap, this.idleMs := cap, idleMs;
      calls, poolTasks, inflight, tokens, slots := [], map[], map[], map[], 0;
      sent, log, clock, distinct := [], [], nowMs, true;
    }

    /** `_spawn_pooled_call`. */
    method Spawn(callId: Json, token: Option<Json>) returns (i: nat)
      requires Valid()
      modifies this
      ensures Valid() && sent == old(sent) && log == old(log) && clock == old(clock)
      ensures i == |old(calls)| && calls == old(calls) + [Call(callId, token, Queued, false)]
      ensures poolTasks == old(poolTasks)[callId := i]
      ensures tokens == if token.Some? then old(tokens)[token.value := callId] else old(tokens)
      ensures inflight == old(inflight) && slots == old(slots)
      ensures distinct == (old(distinct) && callId !in old(poolTasks) && (token.Some? ==> token.value !in old(tokens)))
    {
      hide Agree, Holders, Tracked, SentOnce, Recorded, SignsInOrder;
      i := |calls|;
      var call := Call(callId, token, Queued, false);
      HoldersAppend(calls, call);
      distinct := distinct && callId !in poolTasks && (token.Some? ==> token.value !in tokens);
      SpawnKeeps(calls, poolTasks, sent, log, clock, call);
      if distinct {
        AgreeSpawn(calls, poolTasks, inflight, tokens, call);
        RecordedSpawn(calls, inflight, log, idleMs, call);
      }
      calls := calls + [call];
      poolTasks := poolTasks[callId := i];
      if token.Some? {
        tokens := tokens[token.value := callId];
      }
    }

    /** Task i, not running afterwards, leaves the in-flight set. */
    method Move(i: nat, phase: Phase)
      requires Valid() && i < |calls| && Moves(calls[i], calls[i].(phase := phase)) && !phase.Running?
      requires HoldsSlot(phase) ==> HoldsSlot(calls[i].phase)
      requires !phase.Queued?
      modifies this
      ensures Valid() && sent == old(sent) && log == old(log) && clock == old(clock) && distinct == old(distinct)
      ensures poolTasks == old(poolTasks) && tokens == old(tokens)
      ensures calls == old(calls)[i := old(calls)[i].(phase := phase)]
      ensures inflight == old(inflight) - {old(calls)[i].callId}
    {
      hide Agree, Holders, Tracked, SentOnce, Recorded, SignsInOrder;
      var call := calls[i].(phase := phase);
      HoldersChange(calls, i, call);
      SentKept(calls, sent, i, call);
      TrackedKept(calls, poolTasks, i, call);
      SignsKept(calls, log, clock, i, call);
      if distinct {
        AgreeMove(calls, poolTasks, inflight, tokens, i, call, inflight - {call.callId});
        RecordedKept(calls, poolTasks, inflight, tokens, log, idleMs, i, call);
      }
      slots := slots + (if HoldsSlot(phase) then 1 else 0) - (if HoldsSlot(calls[i].phase) then 1 else 0);
      calls := calls[i := call];
      inflight := inflight - {call.callId};
    }

    /** A queued call gets a free slot, registers its deadline and starts its handler,
        whose enforced timeout counts from now. */
    method Acquire(i: nat, nowMs: int)
      requires Valid() && clock <= nowMs && i < |calls| && calls[i].phase.Queued? && !calls[i].cancelled
      requires cap > 0 ==> slots < cap
      modifies this
      ensures Valid() && sent == old(sent) && clock == nowMs && log == old(log) + [Started(i, nowMs)]
      ensures poolTasks == old(poolTasks) && tokens == old(tokens) && distinct == old(distinct)
      ensures calls == old(calls)[i := old(calls)[i].(phase := Running(nowMs))]
      ensures inflight == old(inflight)[old(calls)[i].callId := Deadline(nowMs, idleMs)]
    {
      hide Agree, Holders, Tracked, SentOnce, Recorded, SignsInOrder;
      var call := calls[i].(phase := Running(nowMs));
      var inflight' := inflight[call.callId := Deadline(nowMs, idleMs)];
      HoldersChange(calls, i, call);
      SentKept(calls, sent, i, call);
      TrackedKept(calls, poolTasks, i, call);
      SignsStart(calls, log, clock, i, nowMs);
      if distinct {
        AgreeMove(calls, poolTasks, inflight, tokens, i, call, inflight');
        RecordedStart(calls, poolTasks, inflight, tokens, log, idleMs, i, call, nowMs);
      }
      slots := slots + 1;
      calls := calls[i := call];
      inflight := inflight';
      clock := nowMs;
      log := log + [Started(i, nowMs)];
    }

    /** The handler returned: the call is no longer in flight and goes on to send. */
    method Finish(i: nat, response: Json)
      requires Valid() && i < |calls| && calls[i].phase.Running? && !calls[i].cancelled
      modifies this
      ensures Valid() && sent == old(sent) && log == old(log) && clock == old(clock) && distinct == old(distinct)
      ensures poolTasks == old(poolTasks) && tokens == old(tokens)
      ensures calls == old(calls)[i := old(calls)[i].(phase := Sending(response))]
      ensures inflight == old(inflight) - {old(calls)[i].callId}
    {
      Move(i, Sending(response));
    }

    /** `wait_for` runs out: the handler is stopped, and an error is sent instead. The
        timeout was fixed when the handler started. */
    method TimeOut(i: nat, nowMs: int)
      requires Valid() && clock <= nowMs && i < |calls| && calls[i].phase.Running? && !calls[i].cancelled
      requires idleMs > 0 && nowMs >= calls[i].phase.since + idleMs
      modifies this
      ensures Valid() && sent == old(sent) && log == old(log) && clock == nowMs && distinct == old(distinct)
      ensures poolTasks == old(poolTasks) && tokens == old(tokens)
      ensures calls == old(calls)[i := old(calls)[i].(phase := Sending(TimeoutResponse(old(calls)[i].callId)))]
      ensures inflight == old(inflight) - {old(calls)[i].callId}
    {
      SignsTick(calls, log, clock, nowMs);
      clock := nowMs;
      Move(i, Sending(TimeoutResponse(calls[i].callId)));
    }

    /** The handler raised: the task ends without a response. */
    method Throw(i: nat)
      requires Valid() && i < |calls| && calls[i].phase.Running?
      modifies this
      ensures Valid() && sent == old(sent) && log == old(log) && clock == old(clock) && distinct == old(distinct)
      ensures poolTasks == old(poolTasks) && tokens == old(tokens)
      ensures calls == old(calls)[i := old(calls)[i].(phase := Done)]
      ensures inflight == old(inflight) - {old(calls)[i].callId}
    {
      Move(i, Done);
    }

    /** The response is written and the task ends. */
    method Send(i: nat)
      requires Valid() && i < |calls| && calls[i].phase.Sending? && !calls[i].cancelled
      modifies this
      ensures Valid() && sent == old(sent) + [(i, old(calls)[i].phase.response)] && distinct == old(distinct)
      ensures calls == old(calls)[i := old(calls)[i].(phase := Done)] && log == old(log) && clock == old(clock)
      ensures poolTasks == old(poolTasks) && tokens == old(tokens) && inflight == old(inflight)
    {
      hide Agree, Holders, Tracked, SentOnce, Recorded, SignsInOrder;
      var response := calls[i].phase.response;
      var call := calls[i].(phase := Done);
      HoldersChange(calls, i, call);
      SentKept(calls, sent, i, call);
      TrackedKept(calls, poolTasks, i, call);
      SignsKept(calls, log, clock, i, call);
      SentGrows(calls, sent, i, response);
      if distinct {
        NotInflight(calls, poolTasks, inflight, tokens, i);
        AgreeMove(calls, poolTasks, inflight, tokens, i, call, inflight);
        RecordedKept(calls, poolTasks, inflight, tokens, log, idleMs, i, call);
      }
      slots := slots - 1;
      calls := calls[i := call];
      sent := sent + [(i, response)];
    }

    /** `notifications/cancelled`: returns whether the id named a pooled call. A task
        that has already ended is not affected. */
    method Cancel(callId: Json) returns (found: bool)
      requires Valid()
      modifies this
      ensures Valid() && sent == old(sent) && log == old(log) && clock == old(clock) && distinct == old(distinct)
      ensures poolTasks == old(poolTasks) && tokens == old(tokens) && inflight == old(inflight) && slots == old(slots)
      ensures found <==> callId in old(poolTasks)
      ensures found ==> old(poolTasks)[callId] < |old(calls)|
      ensures calls == if found && !old(calls)[old(poolTasks)[callId]].phase.Done?
                       then old(calls)[old(poolTasks)[callId] := old(calls)[old(poolTasks)[callId]].(cancelled := true)]
                       else old(calls)
    {
      if callId !in poolTasks {
        return false;
      }
      var i := poolTasks[callId];
      if !calls[i].phase.Done? {
        var call := calls[i].(cancelled := true);
        HoldersChange(calls, i, call);
        SentKept(calls, sent, i, call);
        TrackedKept(calls, poolTasks, i, call);
        SignsKept(calls, log, clock, i, call);
        if distinct {
          KeptInflight(calls, poolTasks, inflight, tokens, i);
          AgreeMove(calls, poolTasks, inflight, tokens, i, call, inflight);
        }
        hide Agree, Holders, SentOnce, Recorded, SignsInOrder, Tracked;
        calls := calls[i := call];
      }
      return true;
    }

    /** The cancellation is raised inside the task: it unwinds and sends nothing. */
    method Unwind(i: nat)
      requires Valid() && i < |calls| && calls[i].cancelled && !calls[i].phase.Done? && Live(calls[i])
      modifies this
      ensures Valid() && sent == old(sent) && log == old(log) && clock == old(clock) && distinct == old(distinct)
      ensures poolTasks == old(poolTasks) && tokens == old(tokens)
      ensures calls == old(calls)[i := old(calls)[i].(phase := Done)]
      ensures inflight == old(inflight) - {old(calls)[i].callId}
    {
      Move(i, Done);
    }

    /** The done callback forgets the task and its token. */
    method Reap(i: nat)
      requires Valid() && i < |calls| && calls[i].phase.Done?
      modifies this
      ensures Valid() && sent == old(sent) && log == old(log) && clock == old(clock) && distinct == old(distinct)
      ensures inflight == old(inflight) && slots == old(slots)
      ensures calls == old(calls)[i := old(calls)[i].(phase := Reaped)]
      ensures poolTasks == old(poolTasks) - {old(calls)[i].callId}
      ensures tokens == if old(calls)[i].token.Some? then old(tokens) - {old(calls)[i].token.value} else old(tokens)
    {
      hide Agree, Holders, Tracked, SentOnce, Recorded, SignsInOrder;
      var call := calls[i].(phase := Reaped);
      HoldersChange(calls, i, call);
      SentKept(calls, sent, i, call);
      TrackedKept(calls, poolTasks, i, call);
      SignsKept(calls, log, clock, i, call);
      if distinct {
        AgreeReap(calls, poolTasks, inflight, tokens, i);
        RecordedKept(calls, poolTasks, inflight, tokens, log, idleMs, i, call);
      }
      calls := calls[i := call];
      poolTasks := poolTasks - {call.callId};
      if call.token.Some? {
        tokens := tokens - {call.token.value};
      }
    }

    /** A progress notification resets the recorded deadline of the call its token
        names, if its handler runs. */
    method TouchProgress(token: Json, nowMs: int)
      requires Valid() && clock <= nowMs
      modifies this
      ensures Valid() && sent == old(sent) && calls == old(calls)
      ensures poolTasks == old(poolTasks) && tokens == old(tokens)
      ensures slots == old(slots) && clock == nowMs && distinct == old(distinct)
      ensures inflight == if token in tokens && tokens[token] in old(inflight)
                          then old(inflight)[tokens[token] := Deadline(nowMs, idleMs)] else old(inflight)
      ensures log == if distinct && token in tokens && tokens[token] in old(inflight) && tokens[token] in poolTasks
                     then old(log) + [Progressed(poolTasks[tokens[token]], nowMs)] else old(log)
    {
      hide Agree, Recorded, Holders, Tracked, SentOnce, SignsInOrder;
      SignsTick(calls, log, clock, nowMs);
      clock := nowMs;
      if token in tokens && tokens[token] in inflight {
        if distinct {
          ghost var i := InflightRuns(calls, poolTasks, inflight, tokens, log, idleMs, tokens[token]);
          AgreeTouch(calls, poolTasks, inflight, tokens, tokens[token], Deadline(nowMs, idleMs));
          RecordedTouch(calls, poolTasks, inflight, tokens, log, idleMs, i, nowMs);
          SignsTouch(calls, log, nowMs, i, nowMs);
          log := log + [Progressed(i, nowMs)];
        }
        inflight := inflight[tokens[token] := Deadline(nowMs, idleMs)];
      }
    }

    /** `_drain` once its window is over: every tracked call is cancelled, and then the
        cancelled tasks unwind and their callbacks run, in any order. Nothing tracked
        is left; if ids and tokens were distinct, nothing at all is. */
    method Drain()
      requires Valid()
      modifies this
      ensures Valid() && sent == old(sent) && log == old(log) && clock == old(clock) && distinct == old(distinct)
      ensures poolTasks == map[] && |calls| == |old(calls)|
      ensures forall i :: 0 <= i < |calls| ==>
        if i in old(poolTasks.Values) then calls[i].phase.Reaped? else calls[i] == old(calls[i])
      ensures distinct ==> inflight == map[] && tokens == map[] && slots == 0
      ensures distinct ==> forall i :: 0 <= i < |calls| ==> calls[i].phase.Reaped?
    {
      hide *;
      CancelAll();
      while poolTasks != map[]
        invariant Valid() && sent == old(sent) && log == old(log) && clock == old(clock) && distinct == old(distinct)
        invariant |calls| == |old(calls)|
        invariant Draining(old(calls), old(poolTasks), calls, poolTasks)
        decreases |poolTasks|, |Unended(calls, poolTasks)|
      {
        var id :| id in poolTasks;
        ghost var before := poolTasks;
        DrainStep(old(calls), old(poolTasks), calls, poolTasks, id);
        var i := poolTasks[id];
        if calls[i].phase.Done? {
          Reap(i);
          assert poolTasks.Keys == before.Keys - {id};
          assert |poolTasks.Keys| == |before.Keys| - 1;
        } else {
          Unwind(i);
        }
      }
      AllDrained(old(calls), old(poolTasks), calls);
      NothingLeft(this);
    }

    /** `task.cancel()` for every tracked task. */
    method CancelAll()
      requires Valid()
      modifies this
      ensures Valid() && sent == old(sent) && log == old(log) && clock == old(clock) && distinct == old(distinct)
      ensures |calls| == |old(calls)| && poolTasks == old(poolTasks)
      ensures Draining(old(calls), old(poolTasks), calls, poolTasks)
    {
      var left := poolTasks.Keys;
      while left != {}
        invariant Valid() && sent == old(sent) && log == old(log) && clock == old(clock) && distinct == old(distinct)
        invariant |calls| == |old(calls)| && poolTasks == old(poolTasks) && left <= poolTasks.Keys
        invariant Cancelling(old(calls), poolTasks, calls, left)
      {
        var id :| id in left;
        assert poolTasks[id] < |calls| && calls[poolTasks[id]].callId == id;
        CancelStep(old(calls), poolTasks, calls, left, id);
        hide *;
        var found := Cancel(id);
        left := left - {id};
      }
      AllCancelled(old(calls), poolTasks, calls);
    }
  }

  /** When no task is tracked, the drained calls are reaped; with distinct ids and
      tokens nothing is in flight, no token is tracked and no slot is held. */
  lemma NothingLeft(p: Pool)
    requires p.Valid() && p.poolTasks == map[]
    ensures p.distinct ==> forall i :: 0 <= i < |p.calls| ==> p.calls[i].phase.Reaped?
    ensures p.distinct ==> p.slots == 0 && p.inflight == map[] && p.tokens == map[]
  {
    if p.distinct {
      assert forall i :: 0 <= i < |p.calls| ==> p.calls[i].phase.Reaped?;
      assert Holders(p.calls) == {};
      assert p.inflight.Keys == {} && p.tokens.Keys == {};
    }
  }

  // ---- What the pool promises ----

  lemma Subset(a: set<nat>, b: set<nat>)
    requires a <= b
    ensures |a| <= |b|
  {
    assert b == a + (b - a);
  }

  /** In-flight ids and running calls correspond one to one. */
  lemma {:induction false} SameCount(ids: set<Json>, running: set<nat>, poolTasks: map<Json, nat>, calls: seq<Call>)
    requires forall id :: id in ids ==>
               && id in poolTasks && poolTasks[id] in running
               && poolTasks[id] < |calls| && calls[poolTasks[id]].callId == id
    requires forall i :: i in running ==> i < |calls| && calls[i].callId in ids && poolTasks[calls[i].callId] == i
    ensures |ids| == |running|
  {
    if ids == {} {
      assert running == {};
    } else {
      var id :| id in ids;
      SameCount(ids - {id}, running - {poolTasks[id]}, poolTasks, calls);
    }
  }

  /** In every reachable state the taken slots are those of the calls whose handler
      runs or whose response is on its way out, and there are at most `cap` of them;
      each call was sent at most one response, and a call cancelled before its
      response left was sent none. While live ids and tokens are distinct, in-flight ids are tracked tasks, one for each
      running handler, and every tracked token names a live call. */
  lemma PoolIsBounded(p: Pool)
    requires p.Valid()
    ensures var busy := set i: nat | i < |p.calls| && (p.calls[i].phase.Running? || p.calls[i].phase.Sending?);
            p.slots == |busy| && (p.cap > 0 ==> |busy| <= p.cap)
    ensures p.cap > 0 ==> |RunningCalls(p.calls)| <= p.cap
    ensures forall j, k :: 0 <= j < |p.sent| && 0 <= k < |p.sent| && p.sent[j].0 == p.sent[k].0 ==> j == k
    ensures forall k :: 0 <= k < |p.sent| ==> p.sent[k].0 < |p.calls| && !p.calls[p.sent[k].0].cancelled
    ensures p.distinct ==> p.inflight.Keys <= p.poolTasks.Keys && |p.inflight| == |RunningCalls(p.calls)|
    ensures p.distinct ==> forall t :: t in p.tokens ==> p.tokens[t] in p.poolTasks
  {
    assert Holders(p.calls) ==
           set i: nat | i < |p.calls| && (p.calls[i].phase.Running? || p.calls[i].phase.Sending?);
    assert RunningCalls(p.calls) <= Holders(p.calls);
    Subset(RunningCalls(p.calls), Holders(p.calls));
    if p.distinct {
      SameCount(p.inflight.Keys, RunningCalls(p.calls), p.poolTasks, p.calls);
    }
  }

  /** The recorded deadline of a running call is the one that is enforced if and only
      if no progress came under its token later than its start. */
  lemma DeadlinesAgree(p: Pool, i: nat)
    requires p.Valid() && p.distinct && p.idleMs > 0
    requires i < |p.calls| && p.calls[i].phase.Running?
    ensures p.calls[i].callId in p.inflight
    ensures p.inflight[p.calls[i].callId] == p.calls[i].phase.since + p.idleMs <==>
            forall k :: 0 <= k < |p.log| && p.log[k].call == i && p.log[k].Progressed? ==>
              p.log[k].at == p.calls[i].phase.since
  {
    hide Agree, Holders, Tracked, SentOnce, LastSign;
    LastSignIsLatest(p.log, i);
  }

  lemma BudgetFrom(nowMs: int, idleMs: int)
    requires idleMs > 0
    ensures Deadline(nowMs, idleMs) == nowMs + idleMs
    ensures !Expired(nowMs + idleMs, nowMs + idleMs - 1)
    ensures nowMs == 900 && idleMs == 1000 ==> !Expired(1900, 1000)
  {
  }

  lemma HoldersEmpty(p: Pool)
    requires p.Valid() && p.calls == []
    ensures p.slots == 0
  {
    assert Holders(p.calls) == {};
  }

  /** A call that made progress and is timed out all the same, before the deadline
      recorded for it: started at 0 with a budget of 1000, progress at 900. */
  method ProgressDoesNotSave() returns (p: Pool, recorded: int)
    ensures p.Valid() && |p.calls| == 1 && p.calls[0].phase == Sending(TimeoutResponse(Number("1")))
    ensures recorded == 1900 && !Expired(recorded, 1000) && p.clock == 1000
  {
    hide *;
    p := new Pool(1, 1000, 0);
    HoldersEmpty(p);
    var i := p.Spawn(Number("1"), Some(Str("t")));
    p.Acquire(i, 0);
    p.TouchProgress(Str("t"), 900);
    recorded := p.inflight[Number("1")];
    BudgetFrom(900, 1000);
    p.TimeOut(i, 1000);
  }

  /** An id used again while its call is live hides the first call from the drain. */
  method ReusedIdEscapesDrain() returns (p: Pool)
    ensures p.Valid() && p.poolTasks == map[] && |p.calls| == 2 && p.calls[0].phase.Running?
  {
    hide *;
    p := new Pool(1, 0, 0);
    HoldersEmpty(p);
    var i := p.Spawn(Number("1"), None);
    p.Acquire(i, 0);
    var j := p.Spawn(Number("1"), None);
    assert p.poolTasks.Values == {1} by { assert p.poolTasks == map[Number("1") := 1]; }
    p.Drain();
  }
}
