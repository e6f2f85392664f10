/** Server-originated tasks (yamp/tasks.py) and the steps the router takes with
    them (yamp/router.py). */
module Tasks {
  import opened Basics
  import opened Json
  import Decimal
  import Errors
  import Namespace

  datatype Status = Working | Completed(result: Json) | Failed(error: Json) | Cancelled

  const TASK_STEM := "task-"

  function NewTaskId(n: nat): string { Decimal.Mint(TASK_STEM, n) }

  /** What happens to a store: a task is created, or someone tries to settle one. */
  datatype Event = Created(id: string) | Settled(id: string, outcome: Status)

  function CreatedCount(log: seq<Event>): nat {
    if log == [] then 0
    else CreatedCount(log[..|log| - 1]) + if log[|log| - 1].Created? then 1 else 0
  }

  predicate MintedAt(log: seq<Event>, i: nat)
    requires i < |log|
  {
    log[i].Created? ==> log[i].id == NewTaskId(CreatedCount(log[..i]) + 1)
  }

  /** Ids are minted in order, so no id is created twice. */
  predicate WellMinted(log: seq<Event>) { forall i: nat :: i < |log| ==> MintedAt(log, i) }

  /** What one event makes of a task's status. */
  function Step(before: Option<Status>, e: Event, id: string): Option<Status> {
    if e.id != id then before
    else if e.Created? then Some(Working)
    else if before == Some(Working) then Some(e.outcome)
    else before
  }

  /** The status after a log. */
  function StatusAfter(log: seq<Event>, id: string): Option<Status> {
    if log == [] then None else Step(StatusAfter(log[..|log| - 1], id), log[|log| - 1], id)
  }

  lemma MintedStep(log: seq<Event>, e: Event)
    ensures WellMinted(log + [e]) <==> WellMinted(log) && (e.Created? ==> e.id == NewTaskId(CreatedCount(log) + 1))
  {
    hide Decimal.Mint, CreatedCount;
    var now := log + [e];
    assert now[..|log|] == log;
    forall i: nat | i < |log| ensures MintedAt(now, i) == MintedAt(log, i) {
      assert now[..i] == log[..i];
    }
    assert MintedAt(now, |log|) <==> (e.Created? ==> e.id == NewTaskId(CreatedCount(log) + 1));
    hide MintedAt;
  }

  lemma LogStep(log: seq<Event>, e: Event)
    ensures CreatedCount(log + [e]) == CreatedCount(log) + if e.Created? then 1 else 0
    ensures WellMinted(log + [e]) <==> WellMinted(log) && (e.Created? ==> e.id == NewTaskId(CreatedCount(log) + 1))
    ensures forall id :: StatusAfter(log + [e], id) == Step(StatusAfter(log, id), e, id)
  {
    var now := log + [e];
    assert now[..|log|] == log;
    MintedStep(log, e);
  }

  class ServerTasks {
    var tasks: map<string, Status>
    var count: nat
    ghost var log: seq<Event>

    ghost predicate Valid()
      reads this
    {
      && WellMinted(log) && count == CreatedCount(log)
      && (forall id :: id in tasks <==> StatusAfter(log, id).Some?)
      && (forall id :: id in tasks ==> StatusAfter(log, id) == Some(tasks[id]))
      && (forall id :: id in tasks ==> Decimal.Minted(TASK_STEM, id, count))
    }

    constructor ()
      ensures Valid() && log == [] && tasks == map[]
    {
      tasks, count, log := map[], 0, [];
    }

    method Create() returns (id: string)
      requires Valid()
      modifies this
      ensures Valid() && log == old(log) + [Created(id)]
      ensures id !in old(tasks) && id == NewTaskId(old(count) + 1)
      ensures tasks == old(tasks)[id := Working] && count == old(count) + 1
    {
      hide Decimal.Mint, Decimal.Minted, WellMinted, CreatedCount, StatusAfter;
      Decimal.NextIdIsFresh(TASK_STEM, count);
      count := count + 1;
      id := NewTaskId(count);
      tasks := tasks[id := Working];
      log := log + [Created(id)];
      LogStep(old(log), Created(id));
    }

    /** `complete`, `fail` and `cancel`: only a working task changes. */
    method Settle(id: string, outcome: Status) returns (changed: bool)
      requires Valid() && !outcome.Working?
      modifies this
      ensures Valid() && log == old(log) + [Settled(id, outcome)] && count == old(count)
      ensures changed <==> id in old(tasks) && old(tasks)[id] == Working
      ensures tasks == if changed then old(tasks)[id := outcome] else old(tasks)
    {
      log := log + [Settled(id, outcome)];
      LogStep(old(log), Settled(id, outcome));
      changed := id in tasks && tasks[id] == Working;
      if changed {
        tasks := tasks[id := outcome];
      }
    }
  }

  lemma {:induction false} CountGrows(log: seq<Event>, i: nat, j: nat)
    requires i <= j <= |log|
    ensures CreatedCount(log[..i]) <= CreatedCount(log[..j])
    ensures i < j && log[i].Created? ==> CreatedCount(log[..i]) < CreatedCount(log[..j])
  {
    if i < j {
      CountGrows(log, i, j - 1);
      assert log[..j][..j - 1] == log[..j - 1];
    }
  }

  /** No id is ever created twice. */
  lemma IdsAreFresh(log: seq<Event>, i: nat, j: nat)
    requires WellMinted(log) && i < j < |log| && log[i].Created? && log[j].Created?
    ensures log[i].id != log[j].id
  {
    assert MintedAt(log, i) && MintedAt(log, j);
    CountGrows(log, i, j);
    Decimal.MintInjective(TASK_STEM, CreatedCount(log[..i]) + 1, CreatedCount(log[..j]) + 1);
  }

  lemma {:induction false} CreationOf(log: seq<Event>, id: string) returns (c: nat)
    requires StatusAfter(log, id).Some?
    ensures c < |log| && log[c] == Created(id)
  {
    var n := |log| - 1;
    if log[n] == Created(id) {
      c := n;
    } else {
      c := CreationOf(log[..n], id);
    }
  }

  /** Terminal statuses are final: once settled, a task keeps status and payload
      whatever is logged later. */
  lemma {:induction false} TerminalIsFinal(log: seq<Event>, i: nat, id: string)
    requires WellMinted(log) && i <= |log|
    requires StatusAfter(log[..i], id).Some? && !StatusAfter(log[..i], id).value.Working?
    ensures StatusAfter(log, id) == StatusAfter(log[..i], id)
  {
    var n := |log| - 1;
    if i < |log| {
      assert log == log[..n] + [log[n]];
      LogStep(log[..n], log[n]);
      assert log[..n][..i] == log[..i];
      TerminalIsFinal(log[..n], i, id);
      if log[n] == Created(id) {
        var c := CreationOf(log[..i], id);
        IdsAreFresh(log, c, n);
      }
    } else {
      assert log[..i] == log;
    }
  }

  lemma {:induction false} StillWorking(log: seq<Event>, c: nat, s: nat, id: string)
    requires c < s <= |log| && log[c] == Created(id)
    requires forall j :: c < j < s ==> log[j].id != id
    ensures StatusAfter(log[..s], id) == Some(Working)
  {
    assert log[..s] == log[..s - 1] + [log[s - 1]];
    LogStep(log[..s - 1], log[s - 1]);
    if c < s - 1 {
      StillWorking(log, c, s - 1, id);
    }
  }

  /** The first settlement of a task after its creation decides its outcome. */
  lemma {:induction false} FirstSettlementWins(log: seq<Event>, c: nat, s: nat, id: string)
    requires WellMinted(log) && c < s < |log|
    requires log[c] == Created(id) && log[s].Settled? && log[s].id == id && !log[s].outcome.Working?
    requires forall j :: c < j < s ==> log[j].id != id
    ensures StatusAfter(log, id) == Some(log[s].outcome)
  {
    StillWorking(log, c, s, id);
    assert log[..s + 1] == log[..s] + [log[s]];
    LogStep(log[..s], log[s]);
    TerminalIsFinal(log, s + 1, id);
  }

  // ---- The router's steps ----

  /** The response an execution ends with; an error response may lack its error. */
  datatype Response = Result(result: Json) | Error(error: Option<Json>)

  /** What the client is shown of a task, in order. */
  datatype Shown = Shown(id: string, status: Status)

  /** A client that was shown a terminal status of a task is shown just that, with
      the same payload, ever after. */
  predicate OnceTerminal(shown: seq<Shown>) {
    forall i, j :: 0 <= i < j < |shown| && shown[i].id == shown[j].id && !shown[i].status.Working? ==>
      shown[j].status == shown[i].status
  }

  /** What was shown agrees with the store and with itself. */
  predicate Consistent(shown: seq<Shown>, tasks: map<string, Status>) {
    && (forall i :: 0 <= i < |shown| ==> shown[i].id in tasks)
    && (forall i :: 0 <= i < |shown| && !shown[i].status.Working? ==> tasks[shown[i].id] == shown[i].status)
    && OnceTerminal(shown)
  }

  lemma ShowCurrent(shown: seq<Shown>, tasks: map<string, Status>, id: string)
    requires Consistent(shown, tasks) && id in tasks
    ensures Consistent(shown + [Shown(id, tasks[id])], tasks)
  {
  }

  lemma AddTask(shown: seq<Shown>, tasks: map<string, Status>, id: string)
    requires Consistent(shown, tasks) && id !in tasks
    ensures Consistent(shown, tasks[id := Working])
  {
  }

  lemma SettleTask(shown: seq<Shown>, tasks: map<string, Status>, id: string, outcome: Status)
    requires Consistent(shown, tasks) && id in tasks && tasks[id] == Working
    ensures Consistent(shown, tasks[id := outcome])
  {
  }

  function RunOutcome(response: Option<Response>, cancelled: bool): (s: Status)
    ensures !s.Working?
  {
    if cancelled then Cancelled
    else match response
      case None => Failed(Errors.InternalError(Some("task execution failed")))
      case Some(Result(r)) => Completed(r)
      case Some(Error(e)) => Failed(if e.Some? then e.value else Errors.InternalError(None))
  }

  /** Each method is one atomic step; any interleaving of them is a sequence of
      calls. `handles` holds the tasks whose execution has not been given up. */
  class TaskService {
    const store: ServerTasks
    var handles: set<string>
    ghost var shown: seq<Shown>

    ghost predicate Valid()
      reads this, store
    {
      && store.Valid()
      && (forall id :: id in handles ==> id in store.tasks)
      && Consistent(shown, store.tasks)
    }

    constructor ()
      ensures Valid() && fresh(store) && shown == [] && handles == {}
    {
      store := new ServerTasks();
      handles, shown := {}, [];
    }

    /** `_originate_task`: create, start, and hand out a working handle. */
    method Originate() returns (handle: Shown)
      requires Valid()
      modifies this, store
      ensures Valid() && shown == old(shown) + [handle]
      ensures handle.id !in old(store.tasks) && handle.status == Working
      ensures store.tasks == old(store.tasks)[handle.id := Working] && handles == old(handles) + {handle.id}
    {
      hide Consistent, ServerTasks.Valid;
      ghost var before := store.tasks;
      var id := store.Create();
      AddTask(shown, before, id);
      ShowCurrent(shown, store.tasks, id);
      handles := handles + {id};
      handle := Shown(id, Working);
      shown := shown + [handle];
    }

    /** `_run_task` ends: with a response, with another exception, or cancelled. */
    method RunEnds(id: string, response: Option<Response>, cancelled: bool)
      requires Valid()
      modifies store
      ensures Valid() && shown == old(shown) && handles == old(handles)
      ensures store.tasks ==
        if id in old(store.tasks) && old(store.tasks)[id] == Working
        then old(store.tasks)[id := RunOutcome(response, cancelled)] else old(store.tasks)
      ensures id in old(store.tasks) && old(store.tasks)[id] == Working ==>
        && (store.tasks[id] == Cancelled <==> cancelled)
        && (forall r :: store.tasks[id] == Completed(r) <==> !cancelled && response == Some(Result(r)))
        && (!cancelled && response == None ==>
              store.tasks[id] == Failed(Errors.InternalError(Some("task execution failed"))))
        && (forall e :: !cancelled && response == Some(Error(Some(e))) ==> store.tasks[id] == Failed(e))
        && (!cancelled && response == Some(Error(None)) ==> store.tasks[id] == Failed(Errors.InternalError(None)))
    {
      hide Consistent, ServerTasks.Valid;
      ghost var before := store.tasks;
      var changed := store.Settle(id, RunOutcome(response, cancelled));
      if changed {
        SettleTask(shown, before, id, RunOutcome(response, cancelled));
      }
    }

    /** The done callback of a task's execution. */
    method RunDone(id: string)
      requires Valid()
      modifies this
      ensures Valid() && shown == old(shown) && handles == old(handles) - {id}
    {
      handles := handles - {id};
    }

    /** `_drain` for the executions: each is cancelled and unwinds. One that had not
        started yet (not in `started`) records nothing. */
    method Drain(started: set<string>)
      requires Valid()
      modifies this, store
      ensures Valid() && shown == old(shown) && handles == {}
      ensures store.tasks == map id | id in old(store.tasks) ::
        if id in old(handles) && id in started && old(store.tasks)[id] == Working then Cancelled
        else old(store.tasks)[id]
    {
      hide Consistent, ServerTasks.Valid;
      while handles != {}
        invariant Valid() && shown == old(shown) && handles <= old(handles)
        invariant store.tasks == map id | id in old(store.tasks) ::
          if id in old(handles) && id !in handles && id in started && old(store.tasks)[id] == Working then Cancelled
          else old(store.tasks)[id]
        decreases |handles|
      {
        var id :| id in handles;
        if id in started {
          RunEnds(id, None, true);
        }
        RunDone(id);
      }
    }

    /** `_serve_local_task`: a cancellation settles the task first; every method
        answers with the current status. */
    method Serve(id: string, cancel: bool) returns (handle: Shown)
      requires Valid() && id in store.tasks
      modifies this, store
      ensures Valid() && shown == old(shown) + [handle]
      ensures store.tasks ==
        if cancel && old(store.tasks)[id] == Working then old(store.tasks)[id := Cancelled] else old(store.tasks)
      ensures handle.id == id && handle.status == store.tasks[id]
      ensures handles == if cancel then old(handles) - {id} else old(handles)
    {
      hide Consistent, ServerTasks.Valid;
      if cancel {
        ghost var before := store.tasks;
        handles := handles - {id};
        var changed := store.Settle(id, Cancelled);
        if changed {
          SettleTask(shown, before, id, Cancelled);
        }
      }
      ShowCurrent(shown, store.tasks, id);
      handle := Shown(id, store.tasks[id]);
      shown := shown + [handle];
    }
  }

  /** So what a client sees of one task, in any run, is `working` some number of times
      and then one terminal status, the one the store keeps. */
  lemma {:induction false} WorkingThenOneOutcome(service: TaskService, id: string) returns (settled: nat)
    requires service.Valid()
    ensures var shown := service.shown;
            && settled <= |shown|
            && (forall i :: 0 <= i < settled && shown[i].id == id ==> shown[i].status == Working)
            && (forall i :: settled <= i < |shown| && shown[i].id == id ==>
                  id in service.store.tasks && shown[i].status == service.store.tasks[id] && !shown[i].status.Working?)
  {
    var shown := service.shown;
    settled := 0;
    while settled < |shown| && (shown[settled].id != id || shown[settled].status.Working?)
      invariant settled <= |shown|
      invariant forall i :: 0 <= i < settled && shown[i].id == id ==> shown[i].status == Working
    {
      settled := settled + 1;
    }
  }

  // ---- Local and namespaced ids ----

  /** A local id never resolves as a namespaced one. */
  lemma LocalIdDoesNotSplit(n: nat)
    ensures Namespace.Split(NewTaskId(n)).None?
  {
    var id := NewTaskId(n);
    assert forall i :: 0 <= i < |id| ==> id[i] != '_';
    forall j: nat ensures !OccursAt(id, Namespace.DELIMITER, j) {
      if j + 2 <= |id| { assert id[j..j + 2][0] == id[j]; }
    }
  }

  /** Where a task request goes. */
  datatype Target = Local | Backend(id: string, original: string) | Unknown

  function RouteTask(serverTasks: bool, store: map<string, Status>, backends: seq<string>, taskId: string): Target {
    if serverTasks && taskId in store then Local
    else match Namespace.Split(taskId)
      case None => Unknown
      case Some((id, original)) => if id in backends then Backend(id, original) else Unknown
  }

  /** The server's own tasks are served locally when it keeps tasks, and are no
      backend's otherwise. */
  lemma OwnTaskStaysHere(serverTasks: bool, tasks: ServerTasks, backends: seq<string>, id: string)
    requires tasks.Valid() && id in tasks.tasks
    ensures RouteTask(serverTasks, tasks.tasks, backends, id) == if serverTasks then Local else Unknown
  {
    hide Namespace.Split, Decimal.Mint, WellMinted, CreatedCount, StatusAfter;
    var k :| 1 <= k <= tasks.count && id == Decimal.Mint(TASK_STEM, k);
    LocalIdDoesNotSplit(k);
  }

  /** A task handle namespaced for a backend goes back to that backend under its
      own id, whatever the local store holds, exactly for known backends with
      routable ids. */
  lemma BackendTaskRoutesBack(serverTasks: bool, tasks: ServerTasks, backends: seq<string>, id: string,
                              original: string)
    requires tasks.Valid()
    ensures RouteTask(serverTasks, tasks.tasks, backends, Namespace.Prefix(id, original)) == Backend(id, original) <==>
            id in backends && Namespace.RoutableId(id) && original != ""
  {
    var taskId := Namespace.Prefix(id, original);
    Namespace.SplitOfPrefix(id, original);
    hide Namespace.Split, Namespace.Prefix, Namespace.RoutableId, Decimal.Mint, WellMinted, CreatedCount, StatusAfter;
    if taskId in tasks.tasks {
      var k :| 1 <= k <= tasks.count && taskId == Decimal.Mint(TASK_STEM, k);
      LocalIdDoesNotSplit(k);
    }
  }
}
