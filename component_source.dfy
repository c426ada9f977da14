/** The component base class `ComponentSource<T>`: parameter intake, the
    initialise-once lifecycle with its synchronous and asynchronous hooks, the
    re-render requests it issues, and rendering through a cached root descriptor.
    The derived class's hooks are given by what their tasks do; the events the class
    causes are recorded in `log` in the order they happen. */
module Lifecycle {
  import opened Common
  import opened Eventing
  import opened Builder

  /** How a task ends. */
  datatype TaskOutcome = Succeeded | Canceled | Faulted(exception: nat)

  /** The task a hook returned: whether it had already completed when its status was
      inspected, and how it ends. */
  datatype HookTask = HookTask(completedSynchronously: bool, outcome: TaskOutcome)

  /** `task.Status != RanToCompletion && task.Status != Canceled`: true for a pending
      task and for one that has already faulted. */
  predicate ShouldAwait(t: HookTask)
  {
    !(t.completedSynchronously && (t.outcome.Succeeded? || t.outcome.Canceled?))
  }

  datatype Event =
    | InitializeInvoked      // the Initialize action, from the constructor
    | OnInitialized
    | OnInitializedAsync
    | OnParametersSet
    | OnParametersSetAsync
    | StateHasChanged
    | Suspended              // an await on a task that had not completed
    | SelfEvaluated          // the Self getter, read to fill the cache

  /** The events of one lifecycle call and how the task it returns ends. */
  datatype Run = Run(events: seq<Event>, outcome: TaskOutcome)

  function AwaitEvents(t: HookTask): seq<Event>
  {
    if t.completedSynchronously then [] else [Suspended]
  }

  /** CallOnParametersSetAsync with CallStateHasChangedOnAsyncCompletion: the hooks,
      one re-render request, and, when the task must be awaited, a second one after
      it succeeds; a cancelled task ends quietly, a faulted one faults the result. */
  function ParametersSetRun(p: HookTask): Run
  {
    var head := [OnParametersSet, OnParametersSetAsync, StateHasChanged];
    if !ShouldAwait(p) then Run(head, Succeeded)
    else
      match p.outcome
      case Succeeded => Run(head + AwaitEvents(p) + [StateHasChanged], Succeeded)
      case Canceled => Run(head + AwaitEvents(p), Succeeded)
      case Faulted(x) => Run(head + AwaitEvents(p), Faulted(x))
  }

  /** RunInitAndSetParametersAsync: the initialisation hooks; a re-render request
      before awaiting their task when it must be awaited; a fault ends the run, a
      cancellation is ignored; then the parameters-set run. */
  function InitRun(i: HookTask, p: HookTask): Run
  {
    var head := [OnInitialized, OnInitializedAsync];
    if ShouldAwait(i) && i.outcome.Faulted? then Run(head + [StateHasChanged] + AwaitEvents(i), i.outcome)
    else
      var pre := head + (if ShouldAwait(i) then [StateHasChanged] + AwaitEvents(i) else []);
      var rest := ParametersSetRun(p);
      Run(pre + rest.events, rest.outcome)
  }

  /** The value a parameter carries: a `ComponentData<T>` (possibly null), or
      something else. */
  datatype ParamValue = DataParam(data: Option<DataId>) | OtherParam

  datatype ParameterView = ParameterView(values: map<string, ParamValue>)

  /** `parameters.TryGetValue("Data", out ComponentData<T>? a)`: absent gives false;
      present gives the value, whose cast throws if it is not component data. */
  function TryGetData(parameters: ParameterView): (r: Result<Option<Option<DataId>>>)
    ensures r.Err? <==> "Data" in parameters.values && parameters.values["Data"].OtherParam?
    ensures r.Ok? && r.value.Some? <==> "Data" in parameters.values && parameters.values["Data"].DataParam?
    ensures r.Ok? && r.value.Some? ==> r.value.value == parameters.values["Data"].data
    ensures r.Err? ==> r.error == InvalidCast
  {
    if "Data" !in parameters.values then Ok(None)
    else
      match parameters.values["Data"]
      case DataParam(d) => Ok(Some(d))
      case OtherParam => Err(InvalidCast)
  }

  function Count(e: Event, events: seq<Event>): nat
  {
    if events == [] then 0 else (if events[0] == e then 1 else 0) + Count(e, events[1..])
  }

  lemma {:induction false} CountAppend(e: Event, a: seq<Event>, b: seq<Event>)
    ensures Count(e, a + b) == Count(e, a) + Count(e, b)
  {
    if a == [] {
      assert a + b == b;
    } else {
      assert (a + b)[0] == a[0];
      assert (a + b)[1..] == a[1..] + b;
      CountAppend(e, a[1..], b);
    }
  }

  /** The task SetParametersAsync returns never ends cancelled; it faults exactly when
      a hook's task faults, with the initialisation fault taking precedence. */
  lemma LifecycleOutcome(i: HookTask, p: HookTask)
    ensures ParametersSetRun(p).outcome != Canceled && InitRun(i, p).outcome != Canceled
    ensures ParametersSetRun(p).outcome == (if p.outcome.Faulted? then p.outcome else Succeeded)
    ensures InitRun(i, p).outcome ==
      (if i.outcome.Faulted? then i.outcome else if p.outcome.Faulted? then p.outcome else Succeeded)
  {
  }

  /** The parameters-set run requests one re-render, and a second one when its task
      was still running and then succeeded. */
  lemma {:induction false} ParametersSetRenders(p: HookTask)
    ensures Count(StateHasChanged, ParametersSetRun(p).events) ==
      1 + (if !p.completedSynchronously && p.outcome.Succeeded? then 1 else 0)
  {
    var head := [OnParametersSet, OnParametersSetAsync, StateHasChanged];
    assert Count(StateHasChanged, head) == 1 by {
      assert head[1..][1..][1..] == [];
    }
    CountAppend(StateHasChanged, head, AwaitEvents(p));
    CountAppend(StateHasChanged, head + AwaitEvents(p), [StateHasChanged]);
    assert Count(StateHasChanged, AwaitEvents(p)) == 0;
    assert Count(StateHasChanged, [StateHasChanged]) == 1;
  }

  /** The first call requests a re-render before awaiting initialisation only when
      that task must be awaited, and runs the parameters-set part unless it faulted. */
  lemma {:induction false} InitRenders(i: HookTask, p: HookTask)
    ensures Count(StateHasChanged, InitRun(i, p).events) ==
      (if ShouldAwait(i) then 1 else 0)
      + (if i.outcome.Faulted? then 0 else Count(StateHasChanged, ParametersSetRun(p).events))
  {
    var head := [OnInitialized, OnInitializedAsync];
    assert Count(StateHasChanged, head) == 0 by {
      assert head[1..][1..] == [];
    }
    var mid := if ShouldAwait(i) then [StateHasChanged] + AwaitEvents(i) else [];
    assert Count(StateHasChanged, mid) == (if ShouldAwait(i) then 1 else 0) by {
      if ShouldAwait(i) {
        CountAppend(StateHasChanged, [StateHasChanged], AwaitEvents(i));
        assert [StateHasChanged][1..] == [];
      }
    }
    CountAppend(StateHasChanged, head, mid);
    if !(ShouldAwait(i) && i.outcome.Faulted?) {
      CountAppend(StateHasChanged, head + mid, ParametersSetRun(p).events);
    } else {
      assert InitRun(i, p).events == head + mid;
    }
  }

  /** When initialisation must be awaited, the re-render request comes before the
      component suspends on it. */
  lemma RenderBeforeSuspending(i: HookTask, p: HookTask)
    ensures var events := InitRun(i, p).events;
      && events[0] == OnInitialized && events[1] == OnInitializedAsync
      && (ShouldAwait(i) ==> events[2] == StateHasChanged)
      && (!i.completedSynchronously ==> events[3] == Suspended)
      && (!ShouldAwait(i) ==> events[2] == OnParametersSet)
  {
  }

  /** The component suspends exactly when a task it awaits had not completed. */
  lemma SuspendsOnlyOnPending(i: HookTask, p: HookTask)
    ensures Suspended in ParametersSetRun(p).events <==> !p.completedSynchronously
    ensures Suspended in InitRun(i, p).events <==>
      !i.completedSynchronously || (!i.outcome.Faulted? && !p.completedSynchronously)
  {
  }

  /** The events of successive SetParametersAsync calls, each with the tasks its
      hooks return, starting from `initialized`. */
  function Calls(initialized: bool, calls: seq<(HookTask, HookTask)>): seq<Event>
    decreases |calls|
  {
    if calls == [] then []
    else
      (if initialized then ParametersSetRun(calls[0].1).events else InitRun(calls[0].0, calls[0].1).events)
      + Calls(true, calls[1..])
  }

  /** Over any number of calls the initialisation hooks run once, on the first. */
  lemma {:induction false} InitializedOnce(initialized: bool, calls: seq<(HookTask, HookTask)>)
    ensures Count(OnInitialized, Calls(initialized, calls)) == (if !initialized && calls != [] then 1 else 0)
    ensures Count(OnInitializedAsync, Calls(initialized, calls)) == (if !initialized && calls != [] then 1 else 0)
    decreases |calls|
  {
    if calls != [] {
      InitializedOnce(true, calls[1..]);
      var first := if initialized then ParametersSetRun(calls[0].1).events else InitRun(calls[0].0, calls[0].1).events;
      CountAppend(OnInitialized, first, Calls(true, calls[1..]));
      CountAppend(OnInitializedAsync, first, Calls(true, calls[1..]));
      HookCounts(calls[0].0, calls[0].1);
    }
  }

  /** Each call runs the parameters-set hooks once, except a first call whose
      initialisation faulted. */
  lemma {:induction false} ParametersSetEachCall(initialized: bool, calls: seq<(HookTask, HookTask)>)
    ensures Count(OnParametersSet, Calls(initialized, calls)) ==
      |calls| - (if !initialized && calls != [] && calls[0].0.outcome.Faulted? then 1 else 0)
    decreases |calls|
  {
    if calls != [] {
      ParametersSetEachCall(true, calls[1..]);
      var first := if initialized then ParametersSetRun(calls[0].1).events else InitRun(calls[0].0, calls[0].1).events;
      CountAppend(OnParametersSet, first, Calls(true, calls[1..]));
      HookCounts(calls[0].0, calls[0].1);
    }
  }

  lemma HookCounts(i: HookTask, p: HookTask)
    ensures Count(OnInitialized, ParametersSetRun(p).events) == 0
    ensures Count(OnInitializedAsync, ParametersSetRun(p).events) == 0
    ensures Count(OnParametersSet, ParametersSetRun(p).events) == 1
    ensures Count(OnInitialized, InitRun(i, p).events) == 1
    ensures Count(OnInitializedAsync, InitRun(i, p).events) == 1
    ensures Count(OnParametersSet, InitRun(i, p).events) == (if i.outcome.Faulted? then 0 else 1)
  {
    ParametersSetHookCounts(p, OnInitialized);
    ParametersSetHookCounts(p, OnInitializedAsync);
    ParametersSetHookCounts(p, OnParametersSet);
    InitHookCounts(i, p, OnInitialized);
    InitHookCounts(i, p, OnInitializedAsync);
    InitHookCounts(i, p, OnParametersSet);
  }

  /** Beyond its three leading events a parameters-set run holds only suspensions and
      re-render requests. */
  lemma ParametersSetHookCounts(p: HookTask, e: Event)
    requires e != StateHasChanged && e != Suspended
    ensures Count(e, ParametersSetRun(p).events) == Count(e, [OnParametersSet, OnParametersSetAsync, StateHasChanged])
  {
    var ph := [OnParametersSet, OnParametersSetAsync, StateHasChanged];
    var tail := ParametersSetRun(p).events[3..];
    assert ParametersSetRun(p).events == ph + tail;
    NoneOf(e, tail);
    CountAppend(e, ph, tail);
  }

  lemma InitHookCounts(i: HookTask, p: HookTask, e: Event)
    requires e != StateHasChanged && e != Suspended
    ensures Count(e, InitRun(i, p).events) ==
      Count(e, [OnInitialized, OnInitializedAsync])
      + (if i.outcome.Faulted? then 0 else Count(e, ParametersSetRun(p).events))
  {
    var ih := [OnInitialized, OnInitializedAsync];
    var mid := if ShouldAwait(i) then [StateHasChanged] + AwaitEvents(i) else [];
    NoneOf(e, mid);
    CountAppend(e, ih, mid);
    if !(ShouldAwait(i) && i.outcome.Faulted?) {
      CountAppend(e, ih + mid, ParametersSetRun(p).events);
    } else {
      assert InitRun(i, p).events == ih + mid;
    }
  }

  lemma {:induction false} NoneOf(e: Event, events: seq<Event>)
    requires forall k :: 0 <= k < |events| ==> events[k] != e
    ensures Count(e, events) == 0
  {
    if events != [] {
      NoneOf(e, events[1..]);
    }
  }

  class ComponentSource {
    var hasInitialized: bool
    /** The `Data` parameter; None is null. */
    var data: Option<DataId>
    /** `_self`, the cached root descriptor. */
    var selfCache: RenderFragmentGen?
    var log: seq<Event>

    /** The constructor invokes the Initialize action when the derived class
        supplies one. */
    constructor (hasInitializeAction: bool)
      ensures !hasInitialized && data.None? && selfCache == null
      ensures log == (if hasInitializeAction then [InitializeInvoked] else [])
    {
      hasInitialized := false;
      data := None;
      selfCache := null;
      log := if hasInitializeAction then [InitializeInvoked] else [];
    }

    /** SetParametersAsync(parameters): takes `Data` if it is present, then runs the
        initialisation path on the first call and the parameters-set path afterwards.
        `initTask` and `paramTask` are what OnInitializedAsync and
        OnParametersSetAsync return. A parameter that is not component data throws
        before anything else happens. */
    method SetParametersAsync(parameters: ParameterView, initTask: HookTask, paramTask: HookTask)
      returns (task: Result<TaskOutcome>)
      modifies this`data, this`hasInitialized, this`log
      ensures var found := TryGetData(parameters);
        if found.Err? then task == Err(found.error) && unchanged(this)
        else
          && data == (if found.value.Some? then found.value.value else old(data))
          && hasInitialized
          && var run := if old(hasInitialized) then ParametersSetRun(paramTask) else InitRun(initTask, paramTask);
          log == old(log) + run.events && task == Ok(run.outcome)
    {
      var found := TryGetData(parameters);
      if found.Err? {
        return Err(found.error);
      }
      if found.value.Some? {
        data := found.value.value;
      }
      var outcome;
      if !hasInitialized {
        hasInitialized := true;
        outcome := RunInitAndSetParametersAsync(initTask, paramTask);
      } else {
        outcome := CallOnParametersSetAsync(paramTask);
      }
      return Ok(outcome);
    }

    method RunInitAndSetParametersAsync(initTask: HookTask, paramTask: HookTask) returns (outcome: TaskOutcome)
      modifies this`log
      ensures log == old(log) + InitRun(initTask, paramTask).events
      ensures outcome == InitRun(initTask, paramTask).outcome
    {
      log := log + [OnInitialized];
      log := log + [OnInitializedAsync];
      if ShouldAwait(initTask) {
        log := log + [StateHasChanged];
        if !initTask.completedSynchronously {
          log := log + [Suspended];
        }
        if initTask.outcome.Faulted? {
          return initTask.outcome;
        }
      }
      outcome := CallOnParametersSetAsync(paramTask);
    }

    method CallOnParametersSetAsync(paramTask: HookTask) returns (outcome: TaskOutcome)
      modifies this`log
      ensures log == old(log) + ParametersSetRun(paramTask).events
      ensures outcome == ParametersSetRun(paramTask).outcome
    {
      log := log + [OnParametersSet];
      log := log + [OnParametersSetAsync];
      var shouldAwaitTask := ShouldAwait(paramTask);
      log := log + [StateHasChanged];
      if shouldAwaitTask {
        outcome := CallStateHasChangedOnAsyncCompletion(paramTask);
      } else {
        outcome := Succeeded;
      }
    }

    method CallStateHasChangedOnAsyncCompletion(task: HookTask) returns (outcome: TaskOutcome)
      modifies this`log
      ensures log == old(log) + AwaitEvents(task) + (if task.outcome.Succeeded? then [StateHasChanged] else [])
      ensures outcome == (if task.outcome.Faulted? then task.outcome else Succeeded)
    {
      if !task.completedSynchronously {
        log := log + [Suspended];
      }
      if task.outcome.Canceled? {
        return Succeeded;
      }
      if task.outcome.Faulted? {
        return task.outcome;
      }
      log := log + [StateHasChanged];
      outcome := Succeeded;
    }

    /** BuildRenderTree / RenderSelf on the host builder: the Self getter is read only
        while the cache is null (its current value is `selfValue`); a null root
        renders nothing; otherwise the root's fragment is obtained and invoked. */
    method RenderSelf(selfValue: RenderFragmentGen?, frames: seq<Frame>, env: Env)
      returns (instrs: seq<Instr>, failure: Option<Error>)
      modifies this`selfCache, this`log, {selfValue, selfCache} - {null}`cssKey
      ensures old(selfCache) != null ==> selfCache == old(selfCache) && log == old(log)
      ensures old(selfCache) == null ==> selfCache == selfValue && log == old(log) + [SelfEvaluated]
      ensures selfCache == null ==> instrs == [] && failure.None?
      ensures selfCache != null && OpenCloseOf(selfCache.identity).Err? ==> instrs == [] && failure == Some(KeyNotFound)
      ensures var root := selfCache;
        root != null && OpenCloseOf(root.identity).Ok? ==>
          var oc := OpenCloseOf(root.identity).value;
          var run := FragmentRun(old(root.View()), oc, old(root.ContentsOrEmpty()), frames, env);
          && instrs == Number(run.ops, 0) && failure == run.failure
          && root.cssKey == EffectiveCssKey(old(root.cssKey), oc, frames)
    {
      if selfCache == null {
        log := log + [SelfEvaluated];
        selfCache := selfValue;
      }
      var root := selfCache;
      if root == null {
        return [], None;
      }
      var fragment := root.GetRenderFragment();
      if fragment.Err? {
        return [], Some(fragment.error);
      }
      instrs, failure := root.Render(fragment.value, frames, env);
    }
  }

  /** Rendering a cached root changes nothing on it but its scope key. */
  method RenderSelfKeepsRoot(c: ComponentSource, root: RenderFragmentGen, frames: seq<Frame>, env: Env)
    returns (instrs: seq<Instr>, failure: Option<Error>)
    requires c.selfCache == root
    modifies c, root
    ensures root.View() == old(root.View()).(cssKey := root.cssKey)
    ensures root.contents == old(root.contents)
  {
    instrs, failure := c.RenderSelf(null, frames, env);
  }

  /** Two calls on a new component: the first initialises, the second only runs the
      parameters-set hooks, and the flag stays set. */
  method TwoCalls(parameters: ParameterView, i1: HookTask, p1: HookTask, i2: HookTask, p2: HookTask)
    returns (c: ComponentSource)
    requires "Data" !in parameters.values
    ensures fresh(c) && c.hasInitialized
    ensures c.log == InitRun(i1, p1).events + ParametersSetRun(p2).events
    ensures Count(OnInitialized, c.log) == 1
  {
    c := new ComponentSource(false);
    var t1 := c.SetParametersAsync(parameters, i1, p1);
    var t2 := c.SetParametersAsync(parameters, i2, p2);
    assert c.log == [] + InitRun(i1, p1).events + ParametersSetRun(p2).events;
    HookCounts(i1, p1);
    HookCounts(i2, p2);
    CountAppend(OnInitialized, InitRun(i1, p1).events, ParametersSetRun(p2).events);
  }
}
