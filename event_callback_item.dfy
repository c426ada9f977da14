/** An event registration: a named chain of handlers with two optional, lazily
    evaluated guards (prevent-default and stop-propagation). Delegates are
    modelled by ids; a runtime type (the `T` of `EventCallbackItem<T>`, or the
    type of an event payload) by a `TypeId`. */
module Eventing {
  import opened Common

  type TypeId = nat
  type HandlerId = nat
  type MapperId = nat
  type PredicateId = nat

  /** A guard installed by SetPreventDefault / SetStopPropagation: the default
      `() => true`, or a predicate the caller supplied. */
  datatype Guard = AlwaysTrue | Predicate(id: PredicateId)

  /** `guard?.Invoke() is true`: an absent guard never holds; `eval` gives what
      each predicate returns when it is invoked. */
  predicate GuardHolds(guard: Option<Guard>, eval: PredicateId -> bool)
  {
    guard.Some? && (guard.value.AlwaysTrue? || eval(guard.value.id))
  }

  /** One delegate in the multicast chain `SetCallback`. */
  datatype Entry =
    | Direct(handler: HandlerId)                  // SetCallbackAction(t): t itself
    | Casting(handler: HandlerId, target: TypeId) // Add(action): x => action((T)x)
    | Mapping(mapper: MapperId, target: TypeId)   // Add<A>(f): a => f(this as A)((A)a)

  /** What EventCallbackItem.Deconstruct hands out, and what a descriptor stores per
      listener (`RenderFragmentGen.EventValue`). */
  datatype EventValue = EventValue(
    eventName: string,
    callback: seq<Entry>,
    preventDefault: Option<Guard>,
    stopPropagation: Option<Guard>)

  class EventCallbackItem {
    /** `EventName`; set once by the object initializer of CreateDefaultItem. */
    const eventName: string
    /** The `T` of `EventCallbackItem<T>`, which is also the item's runtime type. */
    const argsType: TypeId
    /** `SetCallback`; the empty chain is the null delegate. */
    var chain: seq<Entry>
    var preventDefault: Option<Guard>
    var stopPropagation: Option<Guard>

    constructor (eventName: string, argsType: TypeId)
      ensures this.eventName == eventName && this.argsType == argsType
      ensures chain == [] && preventDefault == None && stopPropagation == None
    {
      this.eventName := eventName;
      this.argsType := argsType;
      chain := [];
      preventDefault := None;
      stopPropagation := None;
    }

    /** `SetCallback += t`: the delegate itself joins the end of the chain. */
    method SetCallbackAction(t: HandlerId)
      modifies this`chain
      ensures chain == old(chain) + [Direct(t)]
    {
      chain := chain + [Direct(t)];
    }

    /** Add(action): a fresh closure that casts the payload to `T` joins the chain. */
    method Add(action: HandlerId)
      modifies this`chain
      ensures chain == old(chain) + [Casting(action, argsType)]
    {
      chain := chain + [Casting(action, argsType)];
    }

    /** Add<A>(actionAction): a fresh closure that asks the mapper for a handler and
        calls it with the payload cast to `A`. */
    method AddMapped(actionAction: MapperId, a: TypeId)
      modifies this`chain
      ensures chain == old(chain) + [Mapping(actionAction, a)]
    {
      chain := chain + [Mapping(actionAction, a)];
    }

    /** `StopPropagation = func ?? (() => true)`. */
    method SetStopPropagation(func: Option<PredicateId>)
      modifies this`stopPropagation
      ensures stopPropagation == Some(if func.Some? then Predicate(func.value) else AlwaysTrue)
    {
      stopPropagation := Some(if func.Some? then Predicate(func.value) else AlwaysTrue);
    }

    /** `PreventDefault = func ?? (() => true)`. */
    method SetPreventDefault(func: Option<PredicateId>)
      modifies this`preventDefault
      ensures preventDefault == Some(if func.Some? then Predicate(func.value) else AlwaysTrue)
    {
      preventDefault := Some(if func.Some? then Predicate(func.value) else AlwaysTrue);
    }

    /** The four components: name, accumulated chain and both guards. */
    function Deconstruct(): (v: EventValue)
      reads this
    {
      EventValue(eventName, chain, preventDefault, stopPropagation)
    }

    /** Equals(object): false against null, true for the same reference, otherwise the
        same runtime type and the same EventName. Handlers and guards play no part. */
    function Equals(obj: EventCallbackItem?): (r: bool)
      ensures obj == null ==> !r
      ensures obj == this ==> r
      ensures obj != null ==> (r <==> obj.argsType == argsType && obj.eventName == eventName)
    {
      if obj == null then false
      else if obj == this then true
      else obj.argsType == argsType && obj.eventName == eventName
    }

    /** GetHashCode(): the runtime's string hash of EventName, passed in as `hash`. */
    function GetHashCode(hash: string -> int): int
    {
      hash(eventName)
    }
  }

  /** Equal items hash equal, whatever the string hash is. */
  lemma EqualItemsHashEqual(a: EventCallbackItem, b: EventCallbackItem, hash: string -> int)
    requires a.Equals(b)
    ensures a.GetHashCode(hash) == b.GetHashCode(hash)
  {
  }

  /** Equals is an equivalence relation on items. */
  lemma EqualsIsEquivalence(a: EventCallbackItem, b: EventCallbackItem, c: EventCallbackItem)
    ensures a.Equals(a)
    ensures a.Equals(b) ==> b.Equals(a)
    ensures a.Equals(b) && b.Equals(c) ==> a.Equals(c)
  {
  }

  /** A call made while the multicast delegate runs. */
  datatype Call =
    | HandlerCall(handler: HandlerId)  // a handler given to SetCallbackAction or Add
    | MapperCall(mapper: MapperId)     // the Add<A> mapper producing its handler
    | MappedCall(mapper: MapperId)     // the handler that mapper produced

  /** The calls made by invoking a chain, and the exception that stopped it, if any. */
  datatype Dispatch = Dispatch(calls: seq<Call>, fault: Option<Error>)

  /** The calls one delegate of the chain makes for a payload of runtime type
      `payload`; `isA(p, t)` says whether a `p` can be cast to `t`. */
  function EntryRun(e: Entry, payload: TypeId, isA: (TypeId, TypeId) -> bool): Dispatch
  {
    match e
    case Direct(h) => Dispatch([HandlerCall(h)], None)
    case Casting(h, t) =>
      if isA(payload, t) then Dispatch([HandlerCall(h)], None) else Dispatch([], Some(InvalidCast))
    case Mapping(m, t) =>
      if isA(payload, t) then Dispatch([MapperCall(m), MappedCall(m)], None)
      else Dispatch([MapperCall(m)], Some(InvalidCast))
  }

  /** Invoking the multicast delegate: its delegates run in chain order, and an
      exception from one stops the rest. */
  function Invoke(chain: seq<Entry>, payload: TypeId, isA: (TypeId, TypeId) -> bool): Dispatch
  {
    if chain == [] then Dispatch([], None)
    else
      var first := EntryRun(chain[0], payload, isA);
      if first.fault.Some? then first
      else
        var rest := Invoke(chain[1..], payload, isA);
        Dispatch(first.calls + rest.calls, rest.fault)
  }

  /** Appending a delegate runs it after everything already in the chain. */
  lemma {:induction false} InvokeAppend(chain: seq<Entry>, e: Entry, payload: TypeId, isA: (TypeId, TypeId) -> bool)
    ensures var before := Invoke(chain, payload, isA);
            var after := Invoke(chain + [e], payload, isA);
            if before.fault.Some? then after == before
            else after == Dispatch(before.calls + EntryRun(e, payload, isA).calls, EntryRun(e, payload, isA).fault)
  {
    if chain == [] {
      assert [e][1..] == [];
    } else {
      assert (chain + [e])[0] == chain[0];
      assert (chain + [e])[1..] == chain[1..] + [e];
      InvokeAppend(chain[1..], e, payload, isA);
    }
  }

  /** The handlers of a chain made only by Add, in the order they were added. */
  function AddedHandlers(chain: seq<Entry>): seq<Call>
    requires forall i :: 0 <= i < |chain| ==> chain[i].Casting?
  {
    if chain == [] then [] else [HandlerCall(chain[0].handler)] + AddedHandlers(chain[1..])
  }

  /** A payload that is a `T` runs every handler added through Add, in addition order. */
  lemma {:induction false} InvokeAddedInOrder(chain: seq<Entry>, payload: TypeId, isA: (TypeId, TypeId) -> bool)
    requires forall i :: 0 <= i < |chain| ==> chain[i].Casting? && isA(payload, chain[i].target)
    ensures Invoke(chain, payload, isA) == Dispatch(AddedHandlers(chain), None)
  {
    if chain != [] {
      InvokeAddedInOrder(chain[1..], payload, isA);
    }
  }

  /** A payload that is not a `T` makes the first Add-ed handler fail with a cast
      error: the handlers before it ran, none after it. */
  lemma {:induction false} InvokeStopsAtBadCast(chain: seq<Entry>, k: nat, payload: TypeId, isA: (TypeId, TypeId) -> bool)
    requires k < |chain|
    requires forall i :: 0 <= i < k ==> chain[i].Casting? && isA(payload, chain[i].target)
    requires chain[k].Casting? && !isA(payload, chain[k].target)
    ensures Invoke(chain, payload, isA) == Dispatch(AddedHandlers(chain[..k]), Some(InvalidCast))
  {
    if k == 0 {
      assert chain[..0] == [];
    } else {
      assert chain[1..][..k - 1] == chain[..k][1..];
      InvokeStopsAtBadCast(chain[1..], k - 1, payload, isA);
    }
  }
}
