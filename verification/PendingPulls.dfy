/**
 Outstanding pull requests of tpu_sync/core/grpc_control_plane_backend.cc and the
 cancel-and-wait that precedes destruction, as interleaved steps of the requesting,
 completing and cancelling threads. gRPC runs one completion per started call.
 */
module PendingPulls {

  datatype Option<T> = None | Some(value: T)

  /** Where a call is. A request failed by fault injection is never registered. */
  datatype Phase = Registered | Started | CallbacksRunning | CallbacksReturned | Extracted | Injected

  /** `sets` logs every value the promise was set to. */
  datatype Call = Call(phase: Phase, sets: seq<int>, cancelled: bool)

  datatype Cancel = Idle | Cancelling(todo: set<nat>) | Waiting | Finished

  /**
   Calls are numbered in the order they were made. `table` is the map of pending pulls,
   which owns its calls; `copies` are the calls the canceller's snapshot also owns.
   */
  datatype State = State(calls: seq<Call>, table: set<nat>, snapshot: set<nat>, copies: set<nat>, cancel: Cancel)

  datatype Action =
    | Inject(result: int)
    | Register
    | Start(id: nat)
    | SetPromise(id: nat, result: int)
    | ReturnFromCallbacks(id: nat)
    | Extract(id: nat)
    | TakeSnapshot
    | TryCancel(id: nat)
    | BeginWait
    | EndWait

  const INIT := State([], {}, {}, {}, Idle)

  predicate At(s: State, id: nat, phase: Phase)
  {
    id < |s.calls| && s.calls[id].phase == phase
  }

  predicate Enabled(s: State, a: Action)
  {
    match a
    case Inject(_) => true
    case Register => true
    case Start(id) => At(s, id, Registered)
    case SetPromise(id, _) => At(s, id, Started)
    case ReturnFromCallbacks(id) => At(s, id, CallbacksRunning)
    case Extract(id) => At(s, id, CallbacksReturned)
    case TakeSnapshot => s.cancel == Idle
    case TryCancel(id) => s.cancel.Cancelling? && id in s.cancel.todo && id < |s.calls|
    case BeginWait => s.cancel == Cancelling({})
    case EndWait => s.cancel == Waiting && s.table == {}
  }

  function Update(s: State, id: nat, call: Call): (r: State)
    requires id < |s.calls|
  {
    s.(calls := s.calls[id := call])
  }

  function Apply(s: State, a: Action): (r: State)
    requires Enabled(s, a)
  {
    match a
    case Inject(result) => s.(calls := s.calls + [Call(Injected, [result], false)])
    case Register => s.(calls := s.calls + [Call(Registered, [], false)], table := s.table + {|s.calls|})
    case Start(id) => Update(s, id, s.calls[id].(phase := Started))
    case SetPromise(id, result) =>
      Update(s, id, s.calls[id].(phase := CallbacksRunning, sets := s.calls[id].sets + [result]))
    case ReturnFromCallbacks(id) => Update(s, id, s.calls[id].(phase := CallbacksReturned))
    case Extract(id) => Update(s, id, s.calls[id].(phase := Extracted)).(table := s.table - {id})
    case TakeSnapshot => s.(snapshot := s.table, copies := s.table, cancel := Cancelling(s.table))
    case TryCancel(id) =>
      Update(s, id, s.calls[id].(cancelled := true)).(cancel := Cancelling(s.cancel.todo - {id}))
    case BeginWait => s.(copies := {}, cancel := Waiting)
    case EndWait => s.(cancel := Finished)
  }

  predicate CanRun(s: State, actions: seq<Action>)
    decreases |actions|
  {
    actions == [] || (Enabled(s, actions[0]) && CanRun(Apply(s, actions[0]), actions[1..]))
  }

  function Run(s: State, actions: seq<Action>): (r: State)
    requires CanRun(s, actions)
    decreases |actions|
  {
    if actions == [] then s else Run(Apply(s, actions[0]), actions[1..])
  }

  lemma {:induction false} RunAppend(s: State, actions: seq<Action>, a: Action)
    requires CanRun(s, actions) && Enabled(Run(s, actions), a)
    ensures CanRun(s, actions + [a]) && Run(s, actions + [a]) == Apply(Run(s, actions), a)
    decreases |actions|
  {
    if actions == [] {
      assert [a][1..] == [];
    } else {
      RunAppend(Apply(s, actions[0]), actions[1..], a);
      assert (actions + [a])[1..] == actions[1..] + [a];
    }
  }

  // ---- the invariant ----

  /** The promise is set exactly when the call has got past setting it. */
  predicate CallOk(c: Call)
  {
    match c.phase
    case Registered => c.sets == []
    case Started => c.sets == []
    case _ => |c.sets| == 1
  }

  predicate Pending(c: Call)
  {
    c.phase != Extracted && c.phase != Injected
  }

  ghost predicate Inv(s: State)
  {
    CallsOk(s) && TableOk(s) && CancelOk(s)
  }

  predicate CallsOk(s: State)
  {
    forall i :: 0 <= i < |s.calls| ==> CallOk(s.calls[i])
  }

  /** The table holds exactly the pending calls. */
  ghost predicate TableOk(s: State)
  {
    forall id: nat :: id in s.table <==> id < |s.calls| && Pending(s.calls[id])
  }

  /** What is left to cancel comes from the snapshot; the rest of the snapshot is cancelled. */
  ghost predicate CancelOk(s: State)
  {
    && (s.cancel.Cancelling? ==> s.cancel.todo <= s.snapshot == s.copies)
    && (s.cancel != Idle ==>
          forall id :: id in s.snapshot ==>
            id < |s.calls| && (s.calls[id].cancelled || (s.cancel.Cancelling? && id in s.cancel.todo)))
  }

  lemma ApplyKeepsInv(s: State, a: Action)
    requires Inv(s) && Enabled(s, a)
    ensures Inv(Apply(s, a))
  {
    ApplyKeepsCalls(s, a);
    ApplyKeepsTable(s, a);
    ApplyKeepsCancel(s, a);
  }

  lemma ApplyKeepsCalls(s: State, a: Action)
    requires CallsOk(s) && Enabled(s, a)
    ensures CallsOk(Apply(s, a))
  {
  }

  lemma ApplyKeepsTable(s: State, a: Action)
    requires TableOk(s) && Enabled(s, a)
    ensures TableOk(Apply(s, a))
  {
  }

  lemma ApplyKeepsCancel(s: State, a: Action)
    requires TableOk(s) && CancelOk(s) && Enabled(s, a)
    ensures CancelOk(Apply(s, a))
  {
  }

  lemma {:induction false} RunKeepsInv(s: State, actions: seq<Action>)
    requires Inv(s) && CanRun(s, actions)
    ensures Inv(Run(s, actions))
    decreases |actions|
  {
    if actions != [] {
      ApplyKeepsInv(s, actions[0]);
      RunKeepsInv(Apply(s, actions[0]), actions[1..]);
    }
  }

  // ---- guarantees ----

  /** No promise is ever set twice, under any interleaving. */
  lemma PromiseSetAtMostOnce(actions: seq<Action>, id: nat)
    requires CanRun(INIT, actions) && id < |Run(INIT, actions).calls|
    ensures |Run(INIT, actions).calls[id].sets| <= 1
  {
    RunKeepsInv(INIT, actions);
    assert CallOk(Run(INIT, actions).calls[id]);
  }

  /** A promise keeps the value it was set to. */
  lemma {:induction false} ResultsAreKept(s: State, actions: seq<Action>, id: nat)
    requires CanRun(s, actions) && id < |s.calls|
    ensures id < |Run(s, actions).calls| && s.calls[id].sets <= Run(s, actions).calls[id].sets
    decreases |actions|
  {
    if actions != [] {
      ResultsAreKept(Apply(s, actions[0]), actions[1..], id);
    }
  }

  /**
   When the wait returns, every call made so far has its promise set exactly once, its
   callbacks have returned, and nothing refers to it any more.
   */
  lemma WaitReturnsWhenAllResolved(actions: seq<Action>, id: nat)
    requires CanRun(INIT, actions)
    requires Enabled(Run(INIT, actions), EndWait) && id < |Run(INIT, actions).calls|
    ensures var c := Run(INIT, actions).calls[id];
            |c.sets| == 1 && (c.phase == Extracted || c.phase == Injected)
  {
    RunKeepsInv(INIT, actions);
    var s := Run(INIT, actions);
    assert id !in s.table;
    assert CallOk(s.calls[id]);
  }

  /** Waiting begins only after every call of the snapshot was asked to cancel. */
  lemma SnapshotIsCancelled(actions: seq<Action>, id: nat)
    requires CanRun(INIT, actions)
    requires var s := Run(INIT, actions);
             (s.cancel == Waiting || s.cancel == Finished) && id in s.snapshot
    ensures var s := Run(INIT, actions);
            id < |s.calls| && s.calls[id].cancelled
  {
    RunKeepsInv(INIT, actions);
  }

  /** A call whose memory someone still owns. */
  predicate Alive(s: State, id: nat)
  {
    id in s.table || id in s.copies
  }

  /** The call an action reaches through a pointer, if any. */
  function Touched(a: Action): (r: Option<nat>)
  {
    match a
    case Start(id) => Some(id)
    case SetPromise(id, _) => Some(id)
    case ReturnFromCallbacks(id) => Some(id)
    case Extract(id) => Some(id)
    case TryCancel(id) => Some(id)
    case _ => None
  }

  /** No thread ever reaches a call that has been freed. */
  lemma TouchedCallsAreAlive(actions: seq<Action>, a: Action)
    requires CanRun(INIT, actions) && Enabled(Run(INIT, actions), a) && Touched(a).Some?
    ensures Alive(Run(INIT, actions), Touched(a).value)
  {
    RunKeepsInv(INIT, actions);
  }

  /** The snapshot's copies are what makes that so: a call can finish before it is cancelled. */
  lemma CopiesAreNeeded() returns (actions: seq<Action>)
    ensures CanRun(INIT, actions)
    ensures var s := Run(INIT, actions);
            Enabled(s, TryCancel(0)) && 0 !in s.table && 0 in s.copies
  {
    actions := [];
    RunAppend(INIT, actions, Register);
    actions := actions + [Register];
    RunAppend(INIT, actions, Start(0));
    actions := actions + [Start(0)];
    RunAppend(INIT, actions, TakeSnapshot);
    actions := actions + [TakeSnapshot];
    RunAppend(INIT, actions, SetPromise(0, 7));
    actions := actions + [SetPromise(0, 7)];
    RunAppend(INIT, actions, ReturnFromCallbacks(0));
    actions := actions + [ReturnFromCallbacks(0)];
    RunAppend(INIT, actions, Extract(0));
    actions := actions + [Extract(0)];
  }

  // ---- the wait ends ----

  function StepsLeft(c: Call): (r: nat)
  {
    match c.phase
    case Registered => 4
    case Started => 3
    case CallbacksRunning => 2
    case CallbacksReturned => 1
    case _ => 0
  }

  function CallWork(calls: seq<Call>): (r: nat)
  {
    if calls == [] then 0 else CallWork(calls[..|calls| - 1]) + StepsLeft(calls[|calls| - 1])
  }

  function CancelWork(c: Cancel): (r: nat)
  {
    match c
    case Cancelling(todo) => |todo| + 2
    case Waiting => 1
    case _ => 0
  }

  /** Steps that calls made so far and a cancellation begun still have to take. */
  function Work(s: State): (r: nat)
  {
    CallWork(s.calls) + CancelWork(s.cancel)
  }

  /** Steps that finish what has begun, as opposed to new requests and a new cancellation. */
  predicate Finishing(a: Action)
  {
    !a.Inject? && !a.Register? && !a.TakeSnapshot?
  }

  lemma {:induction false} WorkUpdate(calls: seq<Call>, id: nat, call: Call)
    requires id < |calls|
    ensures CallWork(calls[id := call]) == CallWork(calls) - StepsLeft(calls[id]) + StepsLeft(call)
  {
    var front := calls[..|calls| - 1];
    if id == |calls| - 1 {
      assert calls[id := call][..|calls| - 1] == front;
    } else {
      WorkUpdate(front, id, call);
      assert calls[id := call][..|calls| - 1] == front[id := call];
    }
  }

  lemma FinishingTakesWork(s: State, a: Action)
    requires Enabled(s, a) && Finishing(a)
    ensures Work(Apply(s, a)) == Work(s) - 1
  {
    if Touched(a).Some? {
      var id := Touched(a).value;
      WorkUpdate(s.calls, id, Apply(s, a).calls[id]);
    }
  }

  /** Any run of finishing steps, in any order, has at most as many steps as there is work. */
  lemma {:induction false} FinishingIsBounded(s: State, actions: seq<Action>)
    requires CanRun(s, actions) && forall i :: 0 <= i < |actions| ==> Finishing(actions[i])
    ensures |actions| + Work(Run(s, actions)) == Work(s)
    decreases |actions|
  {
    if actions != [] {
      FinishingTakesWork(s, actions[0]);
      FinishingIsBounded(Apply(s, actions[0]), actions[1..]);
    }
  }

  /** While work is left a finishing step can happen; with the bound, every such run ends with none left. */
  lemma FinishingCanContinue(s: State) returns (a: Action)
    requires Inv(s) && Work(s) > 0
    ensures Finishing(a) && Enabled(s, a)
  {
    if s.table != {} {
      var id := Member(s.table);
      a := NextStep(s, id);
    } else {
      NoCallWork(s);
      if s.cancel == Waiting {
        a := EndWait;
      } else if s.cancel.todo == {} {
        a := BeginWait;
      } else {
        var id := Member(s.cancel.todo);
        a := TryCancel(id);
      }
    }
  }

  lemma Member(s: set<nat>) returns (x: nat)
    requires s != {}
    ensures x in s
  {
    assert (forall y: nat :: y !in s) ==> s == {};
    x :| x in s;
  }

  /** The step a pending call takes next. */
  function NextStep(s: State, id: nat): (a: Action)
    requires id < |s.calls| && Pending(s.calls[id])
    ensures Enabled(s, a) && Finishing(a)
  {
    match s.calls[id].phase
    case Registered => Start(id)
    case Started => SetPromise(id, 0)
    case CallbacksRunning => ReturnFromCallbacks(id)
    case CallbacksReturned => Extract(id)
  }

  lemma NoCallWork(s: State)
    requires Inv(s) && s.table == {}
    ensures CallWork(s.calls) == 0
  {
    forall i | 0 <= i < |s.calls|
      ensures StepsLeft(s.calls[i]) == 0
    {
      assert i !in s.table;
    }
    AllDone(s.calls);
  }

  lemma {:induction false} AllDone(calls: seq<Call>)
    requires forall i :: 0 <= i < |calls| ==> StepsLeft(calls[i]) == 0
    ensures CallWork(calls) == 0
  {
    if calls != [] {
      AllDone(calls[..|calls| - 1]);
    }
  }

  /** A cancellation without work left has returned, with the table empty. */
  lemma NoWorkMeansReturned(s: State)
    requires Inv(s) && Work(s) == 0 && s.cancel != Idle
    ensures s.cancel == Finished && s.table == {}
  {
    if s.table != {} {
      var id := Member(s.table);
      WorkUpdate(s.calls, id, s.calls[id].(phase := Extracted));
    }
  }

  /** A started call run to its end. */
  function AfterCompletion(s: State, id: nat, result: int): (r: State)
    requires id < |s.calls|
  {
    Update(s, id, Call(Extracted, [result], s.calls[id].cancelled)).(table := s.table - {id})
  }

  lemma CompletionSteps(s: State, id: nat, result: int)
    requires At(s, id, Started) && CallsOk(s)
    ensures var s1 := Apply(s, SetPromise(id, result));
            && Enabled(s1, ReturnFromCallbacks(id))
            && var s2 := Apply(s1, ReturnFromCallbacks(id));
               && Enabled(s2, Extract(id))
               && Apply(s2, Extract(id)) == AfterCompletion(s, id, result)
  {
    assert CallOk(s.calls[id]);
    assert s.calls[id].sets + [result] == [result];
    var s1 := Apply(s, SetPromise(id, result));
    var s2 := Apply(s1, ReturnFromCallbacks(id));
    var s3 := Apply(s2, Extract(id));
    assert s3.calls == AfterCompletion(s, id, result).calls;
  }

  // ---- the object ----

  /** A promise may be set once only. */
  class Promise {
    var value: Option<int>

    constructor ()
      ensures value == None
    {
      value := None;
    }

    method Set(result: int)
      requires value == None
      modifies this
      ensures value == Some(result)
    {
      value := Some(result);
    }
  }

  /** The calls still in the table when those outside `todo` were cancelled. */
  function Remaining(all: set<nat>, inline: set<nat>, todo: set<nat>): (r: set<nat>)
    ensures todo == {} ==> r == all - inline
    ensures todo == all ==> r == all
  {
    set id | id in all && (id in todo || id !in inline)
  }

  lemma RemainingStep(all: set<nat>, inline: set<nat>, todo: set<nat>, id: nat)
    requires id in todo
    ensures Remaining(all, inline, todo - {id}) == Remaining(all, inline, todo) - if id in inline then {id} else {}
  {
  }

  /** The status a cancelled call completes with. */
  const CANCELLED := 1

  /** A call after it was cancelled, and completed by that or not. */
  function AfterCancel(c: Call, completes: bool): (r: Call)
  {
    if completes then Call(Extracted, [CANCELLED], true) else c.(cancelled := true)
  }

  /** The calls of `all` outside `todo` were cancelled, those of `inline` among them completed; no other changed. */
  predicate CallsCancelled(before: seq<Call>, calls: seq<Call>, all: set<nat>, inline: set<nat>, todo: set<nat>)
  {
    && |calls| == |before|
    && forall i :: 0 <= i < |before| ==>
         calls[i] == if i in all && i !in todo then AfterCancel(before[i], i in inline) else before[i]
  }

  /** The calls of `ids` have completed with their results; no other changed. */
  predicate CallsCompleted(before: seq<Call>, calls: seq<Call>, ids: set<nat>, results: nat -> int)
  {
    && |calls| == |before|
    && forall i :: 0 <= i < |before| ==>
         calls[i] == if i in ids then Call(Extracted, [results(i)], before[i].cancelled) else before[i]
  }

  /** What cancelling one call adds to the history. */
  function CancelSteps(id: nat, completes: bool): (r: seq<Action>)
  {
    [TryCancel(id)] + if completes then [SetPromise(id, CANCELLED), ReturnFromCallbacks(id), Extract(id)] else []
  }

  /** What cancelling the calls in this order adds to it. */
  function CancelLog(order: seq<nat>, inline: set<nat>): (r: seq<Action>)
  {
    if order == [] then [] else
      var last := |order| - 1;
      CancelLog(order[..last], inline) + CancelSteps(order[last], order[last] in inline)
  }

  lemma CancelLogAppend(start: seq<Action>, order: seq<nat>, id: nat, inline: set<nat>)
    ensures start + CancelLog(order + [id], inline)
         == start + CancelLog(order, inline) + CancelSteps(id, id in inline)
  {
    assert (order + [id])[..|order|] == order;
  }

  /** `order` lists each of the calls once. */
  ghost predicate Lists(order: seq<nat>, ids: set<nat>)
  {
    && (forall id :: id in order <==> id in ids)
    && forall i, j :: 0 <= i < j < |order| ==> order[i] != order[j]
  }

  lemma ListsAppend(order: seq<nat>, all: set<nat>, todo: set<nat>, id: nat)
    requires Lists(order, all - todo) && id in todo && todo <= all
    ensures Lists(order + [id], all - (todo - {id}))
  {
    assert all - (todo - {id}) == (all - todo) + {id};
  }

  class Backend {
    var promises: seq<Promise>
    var pendingPulls: set<nat>
    ghost var model: State
    ghost var history: seq<Action>

    /** The history led to the model, and the real fields are those of the model. */
    ghost predicate Valid()
      reads this, promises
    {
      Tracked() && pendingPulls == model.table && PromisesAgree()
    }

    ghost predicate Tracked()
      reads this
    {
      CanRun(INIT, history) && model == Run(INIT, history) && Inv(model)
    }

    ghost predicate PromisesAgree()
      reads this, promises
    {
      && |promises| == |model.calls|
      && (forall i, j :: 0 <= i < j < |promises| ==> promises[i] != promises[j])
      && forall i :: 0 <= i < |promises| ==>
           promises[i].value == if model.calls[i].sets == [] then None else Some(model.calls[i].sets[0])
    }

    constructor ()
      ensures Valid() && history == []
    {
      promises, pendingPulls, model, history := [], {}, INIT, [];
    }

    ghost method Take(a: Action)
      requires Tracked() && Enabled(model, a)
      modifies this`model, this`history
      ensures Tracked() && model == Apply(old(model), a) && history == old(history) + [a]
    {
      ApplyKeepsInv(model, a);
      RunAppend(INIT, history, a);
      model, history := Apply(model, a), history + [a];
    }

    /** The section that registers a call, or answers at once when a fault is injected. */
    method RegisterPull(fault: Option<int>) returns (id: nat)
      requires Valid()
      modifies this
      ensures Valid() && id == |old(promises)| && |promises| == id + 1 && promises[..id] == old(promises)
      ensures fresh(promises[id])
      ensures history == old(history) + [if fault.Some? then Inject(fault.value) else Register]
      ensures model == Apply(old(model), if fault.Some? then Inject(fault.value) else Register)
    {
      var promise := new Promise();
      id := |promises|;
      if fault.Some? {
        promise.Set(fault.value);
        Take(Inject(fault.value));
      } else {
        Take(Register);
        pendingPulls := pendingPulls + {id};
      }
      promises := promises + [promise];
    }

    /** Hands the registered call to gRPC. */
    method StartPull(id: nat)
      requires Valid() && At(model, id, Registered)
      modifies this`model, this`history
      ensures Valid() && model == Apply(old(model), Start(id)) && history == old(history) + [Start(id)]
    {
      Take(Start(id));
    }

    /** Registers and starts a call; the entry is in the table before the call can complete. */
    method SendPullRequest(fault: Option<int>) returns (id: nat)
      requires Valid()
      modifies this
      ensures Valid() && id == |old(promises)| && |promises| == id + 1 && promises[..id] == old(promises)
      ensures fresh(promises[id])
      ensures history == old(history) + if fault.Some? then [Inject(fault.value)] else [Register, Start(id)]
      ensures model == old(model).(calls := model.calls, table := model.table)
      ensures |model.calls| == id + 1 && model.calls[..id] == old(model.calls)
      ensures fault.Some? ==> promises[id].value == fault && pendingPulls == old(pendingPulls)
      ensures fault.None? ==> At(model, id, Started) && pendingPulls == old(pendingPulls) + {id}
    {
      id := RegisterPull(fault);
      if fault.None? {
        StartPull(id);
        assert history == old(history) + [Register, Start(id)];
      } else {
        assert model.calls[id].sets == [fault.value];
      }
    }

    /** Completion sets the promise first; the entry stays registered while callbacks run. */
    method ResolvePull(id: nat, result: int)
      requires Valid() && At(model, id, Started)
      modifies this`model, this`history, promises
      ensures Valid() && model == Apply(old(model), SetPromise(id, result))
      ensures history == old(history) + [SetPromise(id, result)] && id in pendingPulls
    {
      assert CallOk(model.calls[id]);
      promises[id].Set(result);
      Take(SetPromise(id, result));
    }

    method ReturnFromPull(id: nat)
      requires Valid() && At(model, id, CallbacksRunning)
      modifies this`model, this`history
      ensures Valid() && model == Apply(old(model), ReturnFromCallbacks(id))
      ensures history == old(history) + [ReturnFromCallbacks(id)]
    {
      Take(ReturnFromCallbacks(id));
    }

    /** Only after the callbacks returned is the entry taken out. */
    method ExtractPull(id: nat)
      requires Valid() && At(model, id, CallbacksReturned)
      modifies this`model, this`history, this`pendingPulls
      ensures Valid() && model == Apply(old(model), Extract(id))
      ensures history == old(history) + [Extract(id)] && id !in pendingPulls
    {
      Take(Extract(id));
      pendingPulls := pendingPulls - {id};
    }

    /** The completion of a started call, from setting its promise to dropping its entry. */
    method CompletePendingPull(id: nat, result: int)
      requires Valid() && At(model, id, Started)
      modifies this`model, this`history, this`pendingPulls, promises
      ensures Valid() && pendingPulls == old(pendingPulls) - {id} && promises[id].value == Some(result)
      ensures history == old(history) + [SetPromise(id, result), ReturnFromCallbacks(id), Extract(id)]
      ensures model == AfterCompletion(old(model), id, result)
    {
      CompletionSteps(model, id, result);
      ResolvePull(id, result);
      ReturnFromPull(id);
      ExtractPull(id);
      assert model == AfterCompletion(old(model), id, result);
      assert history == old(history) + [SetPromise(id, result), ReturnFromCallbacks(id), Extract(id)];
    }

    /** Copies the pending calls; the copies keep them alive until each was cancelled. */
    method TakeSnapshotOfPulls() returns (toCancel: set<nat>)
      requires Valid() && model.cancel == Idle
      modifies this`model, this`history
      ensures Valid() && toCancel == pendingPulls
      ensures model == Apply(old(model), TakeSnapshot) && history == old(history) + [TakeSnapshot]
    {
      toCancel := pendingPulls;
      Take(TakeSnapshot);
    }

    /** Cancels one call of the snapshot, which may complete it at once. */
    method CancelPull(id: nat, completes: bool)
      requires Valid() && Enabled(model, TryCancel(id)) && (completes ==> At(model, id, Started))
      modifies this`model, this`history, this`pendingPulls, promises
      ensures Valid() && model.snapshot == old(model.snapshot)
      ensures model.cancel == Cancelling(old(model.cancel.todo) - {id})
      ensures pendingPulls == old(pendingPulls) - if completes then {id} else {}
      ensures |model.calls| == |old(model.calls)|
      ensures forall i :: 0 <= i < |model.calls| ==>
        model.calls[i] == if i == id then AfterCancel(old(model.calls[i]), completes) else old(model.calls[i])
      ensures history == old(history) + CancelSteps(id, completes)
    {
      Take(TryCancel(id));
      if completes {
        CompletePendingPull(id, CANCELLED);
      }
    }

    /** Of the calls as they were before, those in `todo` are left to cancel. */
    ghost predicate Cancels(before: seq<Call>, all: set<nat>, inline: set<nat>, todo: set<nat>)
      reads this
    {
      && model.cancel == Cancelling(todo) && todo <= all
      && pendingPulls == Remaining(all, inline, todo)
      && CallsCancelled(before, model.calls, all, inline, todo)
    }

    /** The calls no longer in `todo` were cancelled in this order. */
    ghost predicate Logged(start: seq<Action>, order: seq<nat>, all: set<nat>, inline: set<nat>, todo: set<nat>)
      reads this
    {
      Lists(order, all - todo) && history == start + CancelLog(order, inline)
    }

    method CancelNext(ghost before: seq<Call>, ghost all: set<nat>, inline: set<nat>, todo: set<nat>)
      returns (id: nat)
      requires Valid() && todo != {} && Cancels(before, all, inline, todo)
      requires forall i :: i in inline ==> i < |before| && before[i].phase == Started
      modifies this`model, this`history, this`pendingPulls, promises
      ensures Valid() && id in todo && Cancels(before, all, inline, todo - {id})
      ensures model.snapshot == old(model.snapshot)
      ensures history == old(history) + CancelSteps(id, id in inline)
    {
      ghost var member := Member(todo);
      id :| id in todo;
      RemainingStep(all, inline, todo, id);
      CancelPull(id, id in inline);
    }

    method CancelOne(ghost before: seq<Call>, ghost start: seq<Action>, ghost order: seq<nat>, ghost all: set<nat>,
                     inline: set<nat>, todo: set<nat>)
      returns (rest: set<nat>, ghost longer: seq<nat>)
      requires Valid() && todo != {} && Cancels(before, all, inline, todo) && Logged(start, order, all, inline, todo)
      requires forall i :: i in inline ==> i < |before| && before[i].phase == Started
      modifies this`model, this`history, this`pendingPulls, promises
      ensures Valid() && rest < todo && Cancels(before, all, inline, rest) && Logged(start, longer, all, inline, rest)
      ensures model.snapshot == old(model.snapshot)
    {
      var id := CancelNext(before, all, inline, todo);
      rest, longer := todo - {id}, order + [id];
      CancelLogAppend(start, order, id, inline);
      ListsAppend(order, all, todo, id);
    }

    /** The cancel loop over the snapshot, in the order the table gives. */
    method CancelSnapshot(toCancel: set<nat>, inline: set<nat>) returns (ghost order: seq<nat>)
      requires Valid() && Cancels(model.calls, toCancel, inline, toCancel)
      requires forall id :: id in inline ==> At(model, id, Started)
      modifies this`model, this`history, this`pendingPulls, promises
      ensures Valid() && model.snapshot == old(model.snapshot)
      ensures Cancels(old(model.calls), toCancel, inline, {})
      ensures Lists(order, toCancel) && history == old(history) + CancelLog(order, inline)
    {
      assert toCancel - {} == toCancel;
      var todo := toCancel;
      order := [];
      while todo != {}
        invariant Valid() && Cancels(old(model.calls), toCancel, inline, todo)
        invariant model.snapshot == old(model.snapshot)
        invariant Logged(old(history), order, toCancel, inline, todo)
        decreases todo
      {
        todo, order := CancelOne(old(model.calls), old(history), order, toCancel, inline, todo);
      }
    }

    method SnapshotAndCancel(inline: set<nat>) returns (ghost order: seq<nat>)
      requires Valid() && model.cancel == Idle
      requires forall id :: id in inline ==> At(model, id, Started)
      modifies this`model, this`history, this`pendingPulls, promises
      ensures Valid() && model.snapshot == old(pendingPulls)
      ensures Cancels(old(model.calls), old(pendingPulls), inline, {})
      ensures Lists(order, old(pendingPulls))
      ensures history == old(history) + [TakeSnapshot] + CancelLog(order, inline)
    {
      var toCancel := TakeSnapshotOfPulls();
      order := CancelSnapshot(toCancel, inline);
    }

    /** Drops the copies and starts to wait. */
    method BeginWaiting()
      requires Valid() && model.cancel == Cancelling({})
      modifies this`model, this`history
      ensures Valid() && model == Apply(old(model), BeginWait) && history == old(history) + [BeginWait]
      ensures forall id :: id in model.snapshot ==> id < |model.calls| && model.calls[id].cancelled
    {
      Take(BeginWait);
    }

    /**
     Cancels every call pending now and begins to wait. Cancelling may complete a started
     call on this thread, as it does here for the calls in `inline`; others complete later.
     `order` is the order in which the snapshot was cancelled.
     */
    method CancelPendingPulls(inline: set<nat>) returns (ghost order: seq<nat>)
      requires Valid() && model.cancel == Idle
      requires forall id :: id in inline ==> At(model, id, Started)
      modifies this`model, this`history, this`pendingPulls, promises
      ensures Valid() && model.cancel == Waiting && model.snapshot == old(pendingPulls)
      ensures pendingPulls == old(pendingPulls) - inline
      ensures CallsCancelled(old(model.calls), model.calls, old(pendingPulls), inline, {})
      ensures Lists(order, old(pendingPulls))
      ensures history == old(history) + [TakeSnapshot] + CancelLog(order, inline) + [BeginWait]
    {
      order := SnapshotAndCancel(inline);
      BeginWaiting();
    }

    /** The wait returns when the table is empty, and then every promise is set. */
    method AwaitEmpty() returns (returned: bool)
      requires Valid() && model.cancel == Waiting
      modifies this`model, this`history
      ensures Valid() && (returned <==> pendingPulls == {})
      ensures returned ==> model.cancel == Finished && forall i :: 0 <= i < |promises| ==> promises[i].value.Some?
      ensures history == old(history) + if returned then [EndWait] else []
    {
      returned := pendingPulls == {};
      if returned {
        forall i | 0 <= i < |promises|
          ensures promises[i].value.Some?
        {
          WaitReturnsWhenAllResolved(history, i);
        }
        Take(EndWait);
      }
    }

    method CompleteNext(ghost before: seq<Call>, ghost all: set<nat>, results: nat -> int)
      requires Valid() && pendingPulls != {} && pendingPulls <= all
      requires forall id :: id in all ==> id < |before| && before[id].phase == Started
      requires CallsCompleted(before, model.calls, all - pendingPulls, results)
      modifies this`model, this`history, this`pendingPulls, promises
      ensures Valid() && pendingPulls < old(pendingPulls) && model.cancel == old(model.cancel)
      ensures CallsCompleted(before, model.calls, all - pendingPulls, results)
    {
      ghost var member := Member(pendingPulls);
      var id :| id in pendingPulls;
      assert At(model, id, Started);
      CompletePendingPull(id, results(id));
    }

    /** The calls a cancellation left behind complete on other threads, in any order. */
    method CompleteRemaining(results: nat -> int)
      requires Valid() && forall id :: id in pendingPulls ==> At(model, id, Started)
      modifies this`model, this`history, this`pendingPulls, promises
      ensures Valid() && pendingPulls == {} && model.cancel == old(model.cancel)
      ensures CallsCompleted(old(model.calls), model.calls, old(pendingPulls), results)
    {
      assert old(pendingPulls) - {} == old(pendingPulls);
      while pendingPulls != {}
        invariant Valid() && pendingPulls <= old(pendingPulls) && model.cancel == old(model.cancel)
        invariant CallsCompleted(old(model.calls), model.calls, old(pendingPulls) - pendingPulls, results)
        decreases pendingPulls
      {
        CompleteNext(old(model.calls), old(pendingPulls), results);
      }
    }

    /**
     The destructor, with every call started. Whichever calls the cancellation completes
     itself, the wait returns once the others have completed, with whatever results.
     */
    method Destroy(inline: set<nat>, results: nat -> int)
      requires Valid() && model.cancel == Idle && inline <= pendingPulls
      requires forall id :: id in pendingPulls ==> At(model, id, Started)
      modifies this`model, this`history, this`pendingPulls, promises
      ensures Valid() && pendingPulls == {} && model.cancel == Finished
      ensures forall i :: 0 <= i < |promises| ==>
        promises[i].value == if i in inline then Some(CANCELLED)
                             else if i in old(pendingPulls) then Some(results(i)) else old(promises[i].value)
    {
      ghost var order := CancelPendingPulls(inline);
      CompleteRemaining(results);
      var returned := AwaitEmpty();
      assert returned;
    }
  }
}
