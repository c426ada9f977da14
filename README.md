# Component Preview core, modelled in Dafny

This project models the core of a small Blazor library. The library describes UI
trees as descriptor objects (`RenderFragmentGen`) instead of tree-building calls.
Each descriptor has a fixed identity (an element tag, a component type, or a
transparent region), plus listeners, static attributes, bound attributes, an id,
a key, a reference capture and child content. When the host renderer invokes a
descriptor's fragment, the descriptor linearises itself into an ordered stream of
sequence-numbered builder calls.

Around the builder the core has four further parts:

- a component base class (`ComponentSource<T>`) that runs the initialise-once
  lifecycle and requests re-renders depending on the status of the hook tasks;
- event registrations (`EventCallbackItem<T>`) with multicast handler chains and
  lazy guards;
- an observable value cell (`ObservableValue<T>`);
- a layout slot map (`Layout`).

The model has one module per source file:

- `Common` (`common.dfy`): optional values, the .NET exceptions raised, ASCII lower-casing, `string.Join(' ', …)`
- `Eventing` (`event_callback_item.dfy`): `Construct/Eventing/EventCallbackItem.cs`
- `EventItems` (`event_callback_items.dfy`): `Construct/Eventing/EventCallbackItems.cs`
- `Builder` (`component_source_builder.dfy`): `Construct/ComponentSourceBuilder.cs`
- `Lifecycle` (`component_source.dfy`): `Construct/ComponentSource.cs`
- `Observable` (`observable_value.dfy`): `Construct/ObservableValue.cs`
- `Layouts` (`layout.dfy`): `Construct/Layout.cs`

How the source's entities map to Dafny:

- **Objects the source mutates are classes.** `RenderFragmentGen`,
  `EventCallbackItem`, `ComponentSource`, `ObservableValue` and `Layout` keep
  their fields, and their methods carry `modifies` clauses. Lists and
  dictionaries become `seq` and `map` fields.
- **The host builder is an instruction log.** A call is `At(n, op)` when it takes
  sequence number `n`, and `Unnumbered(op)` for `SetKey` and the close calls.
- **Rendering is proved against a function.** `Render` is proved to produce
  exactly `Number(FragmentRun(...).ops, 0)`. `FragmentRun` is the specification
  function for a fragment.
- **Outside values are parameters.** These are the tasks the lifecycle hooks
  return, what guard predicates and content producers return when invoked, the
  host's frame buffer, and the string hash.
- **Delegates and runtime types are ids.**
- **Integer `++`/`--` wrap around.** They use the two's-complement arithmetic of
  unchecked C#.

Behaviour of the code that the model keeps:

- **AddClasses order.** Two `AddClasses` calls give the second call's names
  first, then the first call's names. A trailing space follows when there was no
  earlier class (`TwoAddClasses`).
- **Child descriptors are not inlined.** A child descriptor becomes one content
  call carrying the child's own fragment. So a region holding a markup child and
  a `span` descriptor logs calls 0, 1, 2 and an unnumbered close
  (`RegionExample`).
- **The scope-key scan reads any frame's name.** `GetCssKey` skips only the
  trailing frames that are not attributes. After that it takes the first name
  with the `b-` prefix, from any kind of frame. It equals "the last attribute
  frame named `b-…`" only when no other kind of frame carries a name
  (`GetCssKeyIsLastScopeAttribute`). An earlier text or element frame whose name
  has the prefix wins otherwise (`GetCssKeyReadsAnyNamedFrame`).
- **Not every call takes a number.** `SetKey` and the close call take no
  sequence number.
- **Equality of registrations.** Two registrations are equal when they have the
  same runtime type and the same event name.
- **Lifecycle state is one flag.** The flag is set before the initialisation
  hooks run. An initialisation task that faults ends the call before the
  parameters-set hooks run, and the flag stays set.
- **A faulted task counts as "must await".** A task that has already faulted
  when it is inspected makes the component request a re-render, although the
  component never suspends on it.
- **Only some null content is dropped.** `WithContent` drops nothing but the
  items a `ProcRenderItem` returns with a null `Value`. A null argument throws
  `NotSupportedException` at once. A null `RenderItem` is stored and fails with a
  null reference when rendered. A stored item whose `Value` is null fails the
  render's switch. A producer that returns null adds nothing.
- **Unknown content is not rejected.** Content that is not recognised is passed
  to the host as it is, rather than rejected.

## Model

| member | source | states |
|---|---|---|
| Common.Lower | Construct/Eventing/EventCallbackItems.cs:13 | lower-casing keeps the length, turns each upper-case ASCII letter into its lower-case partner (code point plus 32) and keeps every other character |
| Common.LowerIdempotent | Construct/Eventing/EventCallbackItems.cs:13 | lower-casing an already lower-cased name changes nothing |
| Common.JoinWithSpaceAppend | Construct/ComponentSourceBuilder.cs:196 | joining one more part adds exactly one space and that part at the end |
| Eventing.EventCallbackItem.constructor | Construct/Eventing/EventCallbackItem.cs:3-9 | a new item has its name and payload type, an empty chain and no guards |
| Eventing.EventCallbackItem.SetCallbackAction | Construct/Eventing/EventCallbackItem.cs:36-40 | `+=` appends the delegate itself to the end of the chain |
| Eventing.EventCallbackItem.Add | Construct/Eventing/EventCallbackItem.cs:42-45 | Add appends one casting closure for the handler and the item's payload type |
| Eventing.EventCallbackItem.AddMapped | Construct/Eventing/EventCallbackItem.cs:47-50 | Add<A> appends one mapping closure for the mapper and the type `A` |
| Eventing.EventCallbackItem.SetStopPropagation | Construct/Eventing/EventCallbackItem.cs:52-56 | the guard becomes the given predicate, or always-true when none is given |
| Eventing.EventCallbackItem.SetPreventDefault | Construct/Eventing/EventCallbackItem.cs:58-62 | the guard becomes the given predicate, or always-true when none is given |
| Eventing.EventCallbackItem.Deconstruct | Construct/Eventing/EventCallbackItem.cs:11-21 | the four parts as stored: the event name, the `SetCallback` chain, and the prevent-default and stop-propagation guards. `Builder.EventValues` relies on it |
| Eventing.EventCallbackItem.Equals | Construct/Eventing/EventCallbackItem.cs:64-69 | false for null, true for itself, otherwise true exactly when the runtime type and the event name agree |
| Eventing.EventCallbackItem.GetHashCode | Construct/Eventing/EventCallbackItem.cs:71-74 | the string hash of the event name alone. `EqualItemsHashEqual` relies on it |
| Eventing.EqualItemsHashEqual | Construct/Eventing/EventCallbackItem.cs:64-74 | Equal items have equal hash codes, whatever the string hash is |
| Eventing.EqualsIsEquivalence | Construct/Eventing/EventCallbackItem.cs:64-69 | Equals is reflexive, symmetric and transitive |
| Eventing.EntryRun | Construct/Eventing/EventCallbackItem.cs:42-50 | a delegate given to SetCallbackAction is called as it is. Add's closure casts the payload to `T` and fails with an invalid cast before calling the handler. Add<A>'s closure calls the mapper first and then casts to `A` |
| Eventing.Invoke | Construct/Eventing/EventCallbackItem.cs:36-40 | the multicast chain built by `+=` runs its delegates in chain order, and the first exception stops the rest. `InvokeAppend` and `InvokeAddedInOrder` relate it to the chain |
| Eventing.InvokeAppend | Construct/Eventing/EventCallbackItem.cs:36-40 | an appended delegate runs after the whole earlier chain, and not at all if that chain threw |
| Eventing.InvokeAddedInOrder | Construct/Eventing/EventCallbackItem.cs:42-45 | for a payload of the item's type, every Add-ed handler runs once, in the order added |
| Eventing.InvokeStopsAtBadCast | Construct/Eventing/EventCallbackItem.cs:44 | a payload of the wrong type fails the first Add-ed closure with an invalid cast; the handlers before it have run and none after it |
| EventItems.CreateDefaultItem | Construct/Eventing/EventCallbackItems.cs:9-14 | a fresh item named after the lower-cased property name, with no handlers and no guards |
| EventItems.PredefinedItem | Construct/Eventing/EventCallbackItems.cs:16-26 | each predefined property yields a fresh item with the DOM event name (`onclick`, …) and its payload type |
| EventItems.PredefinedNameIsDomName | Construct/Eventing/EventCallbackItems.cs:16-26 | lower-casing each property name gives exactly the DOM event name |
| EventItems.LastIndexOf | Construct/Eventing/EventCallbackItems.cs:39 | finds the last occurrence of a delegate, or reports that there is none |
| EventItems.RemoveDelegate | Construct/Eventing/EventCallbackItems.cs:39 | `-=` with a null or absent action leaves the chain unchanged |
| EventItems.RemoveDelegateCounts | Construct/Eventing/EventCallbackItems.cs:39 | `-=` with a present action removes the occurrence at some index `i` with no later occurrence, so the last one. The result is the chain before `i` followed by the chain after it, so the other delegates keep their order. As multisets, exactly one copy of the action goes |
| EventItems.RemoveEventListener | Construct/Eventing/EventCallbackItems.cs:33-42 | null gives null; otherwise the same set comes back, only the member Equal to the item has the action removed from its chain, and no guard changes |
| Builder.OpenCloseOf | Construct/ComponentSourceBuilder.cs:158-164 | the open/close lookup throws KeyNotFound exactly for a null identity or an empty tag without a component |
| Builder.OpenCloseCases | Construct/ComponentSourceBuilder.cs:158-164 | a non-empty tag opens an element, else a component type opens a component, and neither opens a region |
| Builder.NumberIsConsecutive | Construct/ComponentSourceBuilder.cs:288-321 | the sequence numbers used are start, start+1, … with no gap and no repeat |
| Builder.GetCssKey | Construct/ComponentSourceBuilder.cs:272-278 | the scan runs from the end, skips the trailing non-attribute frames and takes the first name with the `b-` prefix. Any key it returns has that prefix |
| Builder.GetCssKeyIsLastScopeAttribute | Construct/ComponentSourceBuilder.cs:272-278 | when only attribute frames carry a name, the scan finds the last attribute frame whose name starts with `b-` |
| Builder.GetCssKeyReadsAnyNamedFrame | Construct/ComponentSourceBuilder.cs:274-275 | without that condition, the frames `b-a` (attribute), `b-t` (not an attribute), `class` (attribute) give `b-t`, while the last scope attribute is `b-a` |
| Builder.EffectiveCssKey | Construct/ComponentSourceBuilder.cs:291-293 | an element node over frames with a key takes that key. An element node over frames without one, and every other node, keeps the cached key |
| Builder.EffectiveCssKeyStable | Construct/ComponentSourceBuilder.cs:291-293 | a key once cached survives a second pass over the same frames, or over frames without a key |
| Builder.GetAttributes | Construct/ComponentSourceBuilder.cs:250-270 | the listener calls, then one call per static attribute, then the Data attribute of a typed node that has Data (its override at lines 124-132). `GetAttributesLength` counts them |
| Builder.ListenerOps | Construct/ComponentSourceBuilder.cs:252-261 | for each listener in order: its handler attribute, then prevent-default when that guard returns true, then stop-propagation when that guard returns true |
| Builder.StaticOps | Construct/ComponentSourceBuilder.cs:263-269 | one attribute call per static attribute, with its key and value, in list order |
| Builder.GetAttributesLength | Construct/ComponentSourceBuilder.cs:250-270 | GetAttributes makes one call per listener, one per holding guard, one per static attribute, and one for Data on a typed node that has it |
| Builder.ListenerOpsLength | Construct/ComponentSourceBuilder.cs:252-261 | each listener gives its handler call plus one call per guard that holds |
| Builder.ListenerOpsHaveNoFlag | Construct/ComponentSourceBuilder.cs:252-261 | no listener call is the boolean scope attribute |
| Builder.ScopeAttributeEmitted | Construct/ComponentSourceBuilder.cs:317-318 | the scope attribute appears exactly for an element node whose effective key is non-empty |
| Builder.HeaderOps | Construct/ComponentSourceBuilder.cs:288-321 | the calls before the contents: open, the unnumbered key, the id, the bound attributes, GetAttributes, the scope flag of an element with a non-empty key, and the reference capture |
| Builder.Resolve | Construct/ComponentSourceBuilder.cs:327-339 | the first switch: a null item throws a null reference, a null Value matches no arm, producers are invoked, a node becomes its fragment (also a node a `Func<object>` returns), and anything else is taken as it is |
| Builder.Classify | Construct/ComponentSourceBuilder.cs:341-360 | the second switch: markup gives a markup call, a node sequence gives `NodesRun`, null gives nothing, and anything else gives one content call |
| Builder.ContentRun | Construct/ComponentSourceBuilder.cs:324-361 | the content loop runs each captured item in order and stops at the first exception. `ContentRunAppend` and `ContentRunStops` state this |
| Builder.FragmentRun | Construct/ComponentSourceBuilder.cs:286-364 | the header with the effective scope key, then the contents, then the close call unless the contents threw. `FragmentLogShape` states its shape |
| Builder.ContentRunStops | Construct/ComponentSourceBuilder.cs:324-361 | once a child throws, later children add nothing |
| Builder.ContentRunAppend | Construct/ComponentSourceBuilder.cs:324-361 | the contents are emitted in order: the run over `a + b` is the run over `a` followed, unless it threw, by the run over `b` |
| Builder.NodesRunAllBuilt | Construct/ComponentSourceBuilder.cs:346-351 | a sequence of buildable nodes gives one content call per node, carrying its fragment, in order |
| Builder.ItemRunCases | Construct/ComponentSourceBuilder.cs:327-360 | a null item throws a null reference; a null Value fails the switch; markup gives a markup call; strings, fragments and other objects give a content call; a node gives its fragment; a producer returning null gives nothing |
| Builder.FragmentLogShape | Construct/ComponentSourceBuilder.cs:286-364 | every log starts with open numbered 0, numbers consecutively and, when nothing threw, ends with the unnumbered close |
| Builder.RenderAgainSameLog | Construct/ComponentSourceBuilder.cs:289-318 | rendering again over the same frames, with the key the first pass cached, gives the same log |
| Builder.EmitItem | Construct/ComponentSourceBuilder.cs:327-360 | one pass of the content loop emits exactly the calls of `ItemRun` and reports its exception |
| Builder.EmitClassified | Construct/ComponentSourceBuilder.cs:341-360 | the second switch emits exactly the calls of `Classify` |
| Builder.EmitNodes | Construct/ComponentSourceBuilder.cs:346-351 | the loop over a node sequence emits exactly `NodesRun`, stopping at a node that throws |
| Builder.EmitContents | Construct/ComponentSourceBuilder.cs:324-361 | the content loop emits exactly `ContentRun` with consecutive numbers, stopping at the first exception |
| Builder.HeldClass | Construct/ComponentSourceBuilder.cs:192 | the value of the first `class` entry, `""` when there is none or it is null, and an invalid cast when it is not a string |
| Builder.MergeClasses | Construct/ComponentSourceBuilder.cs:186-199 | no names leave the list unchanged; otherwise the first `class` entry goes and one entry is appended: the new names, a space, then the held value. `MergeClassesValue` and `MergeClassesKeepsOthers` state it |
| Builder.ClassIndex | Construct/ComponentSourceBuilder.cs:192 | finds the first `class` entry, or reports that there is none |
| Builder.MergeClassesValue | Construct/ComponentSourceBuilder.cs:186-199 | AddClasses fails exactly when the old class value is not a string; otherwise the last entry is `class` = new names, a space, and the old value |
| Builder.MergeClassesKeepsOthers | Construct/ComponentSourceBuilder.cs:186-199 | AddClasses keeps every non-class attribute in order, and leaves exactly one class entry when there was at most one |
| Builder.MergeWithoutClass | Construct/ComponentSourceBuilder.cs:192-196 | without an earlier class entry, AddClasses appends `class` = names joined plus a trailing space |
| Builder.TwoAddClasses | Construct/ComponentSourceBuilder.cs:186-199 | two calls give the second call's names, a space, the first call's names and a trailing space |
| Builder.ItemOf | Construct/ComponentSourceBuilder.cs:401-413 | a null argument throws NotSupported; a ProcRenderItem's item is kept unless its Value is null; any other argument is wrapped in a new RenderItem |
| Builder.AcceptArgs | Construct/ComponentSourceBuilder.cs:395-415 | AddRange appends the accepted items of the arguments in order and stops at the first that throws, keeping the items before it |
| Builder.AcceptPlainArgs | Construct/ComponentSourceBuilder.cs:395-415 | plain arguments are each wrapped in one RenderItem, in argument order |
| Builder.AcceptStopsAtNull | Construct/ComponentSourceBuilder.cs:395-415 | a null argument throws NotSupported, and the items before it stay appended |
| Builder.AcceptedHaveValues | Construct/ComponentSourceBuilder.cs:413 | WithContent never stores an item whose Value is null |
| Builder.AcceptStopsHere | Construct/ComponentSourceBuilder.cs:400-413 | once an argument throws, later arguments add nothing |
| Builder.EventValues | Construct/ComponentSourceBuilder.cs:146-150 | each item becomes its deconstruction, one for one, in order |
| Builder.RenderFragmentGen.constructor | Construct/ComponentSourceBuilder.cs:135-166 | a new node holds its identity and nothing else |
| Builder.RenderFragmentGen.CreateWithTag | Construct/ComponentSourceBuilder.cs:228-236 | a fresh blank node whose identity is the tag and no component |
| Builder.RenderFragmentGen.CreateWithType | Construct/ComponentSourceBuilder.cs:207-245 | a fresh blank node whose identity is the component type and no tag |
| Builder.RenderFragmentGen.GetRenderFragment | Construct/ComponentSourceBuilder.cs:280-286 | the getter throws exactly when the identity has no open/close pair; otherwise it captures this node, its pair and a copy of its contents |
| Builder.RenderFragmentGen.AddEventListener | Construct/ComponentSourceBuilder.cs:174-178 | the items' deconstructions are appended in order, and nothing else changes |
| Builder.RenderFragmentGen.AddBoundAttribute | Construct/ComponentSourceBuilder.cs:180-184 | one bound attribute is appended, and nothing else changes |
| Builder.RenderFragmentGen.AddAttributes | Construct/ComponentSourceBuilder.cs:201-205 | the pairs are appended in order, without deduplication |
| Builder.RenderFragmentGen.AddClasses | Construct/ComponentSourceBuilder.cs:186-199 | no names change nothing; otherwise the attributes become `MergeClasses`, or stay unchanged when the cast fails |
| Builder.RenderFragmentGen.SetId | Construct/ComponentSourceBuilder.cs:377-381 | the id is overwritten |
| Builder.RenderFragmentGen.SetKey | Construct/ComponentSourceBuilder.cs:383-387 | the key is overwritten |
| Builder.RenderFragmentGen.SetRef | Construct/ComponentSourceBuilder.cs:389-393 | the reference item is replaced by one holding the reference |
| Builder.RenderFragmentGen.SetData | Construct/ComponentSourceBuilder.cs:118-122 | the Data of a typed node is overwritten |
| Builder.RenderFragmentGen.WithContent | Construct/ComponentSourceBuilder.cs:395-415 | no arguments change nothing; otherwise the list is created if null and the accepted items are appended, up to the argument that throws |
| Builder.RenderFragmentGen.WithPath | Construct/ComponentSourceBuilder.cs:99-110 | a non-empty `d` appends one fresh `path` child carrying `d`; otherwise nothing changes |
| Builder.RenderFragmentGen.EmitHeader | Construct/ComponentSourceBuilder.cs:288-321 | the calls before the contents are exactly `HeaderOps`, numbered from 0 |
| Builder.RenderFragmentGen.EmitOpening | Construct/ComponentSourceBuilder.cs:289-309 | open, then the key if set, then the id if set |
| Builder.RenderFragmentGen.EmitScopeAndReference | Construct/ComponentSourceBuilder.cs:317-321 | the scope flag of an element with a non-empty key, then the reference capture if set |
| Builder.RenderFragmentGen.Render | Construct/ComponentSourceBuilder.cs:286-364 | invoking a fragment produces exactly the numbered `FragmentRun` of the node as it was, and an element caches the key it found |
| Builder.RegionExample | Construct/ComponentSourceBuilder.cs:286-364 | a region with a markup child and a span child logs open 0, markup 1, the span's fragment 2, then the unnumbered close |
| Builder.SnapshotBeforeContent | Construct/ComponentSourceBuilder.cs:284 | content added after the fragment was obtained is not rendered by it |
| Lifecycle.TryGetData | Construct/ComponentSource.cs:32-35 | an absent Data parameter gives nothing; a component-data value is taken; any other value throws an invalid cast |
| Lifecycle.ShouldAwait | Construct/ComponentSource.cs:92-93 | a task must be awaited unless it had already run to completion or been cancelled when inspected, so a faulted task counts too |
| Lifecycle.ParametersSetRun | Construct/ComponentSource.cs:85-122 | OnParametersSet, OnParametersSetAsync and a render request; a task that must be awaited is awaited, with one more request after success, none after cancellation and the fault rethrown. `ParametersSetRenders` counts the requests |
| Lifecycle.InitRun | Construct/ComponentSource.cs:49-83 | OnInitialized and OnInitializedAsync; a task that must be awaited gets a request first and is awaited; a fault ends the run, otherwise the parameters-set run follows. `InitRenders` counts the requests |
| Lifecycle.LifecycleOutcome | Construct/ComponentSource.cs:49-122 | the returned task is never cancelled; it faults exactly when a hook task faults, and the initialisation fault wins |
| Lifecycle.ParametersSetRenders | Construct/ComponentSource.cs:85-122 | the parameters-set phase requests one re-render, plus a second when its task was pending and then succeeded |
| Lifecycle.InitRenders | Construct/ComponentSource.cs:49-83 | the first call requests a re-render before awaiting initialisation exactly when that task must be awaited, and then includes the parameters-set re-renders unless initialisation faulted |
| Lifecycle.RenderBeforeSuspending | Construct/ComponentSource.cs:51-65 | the hooks run in order, and the re-render request comes before the component suspends on a pending initialisation |
| Lifecycle.SuspendsOnlyOnPending | Construct/ComponentSource.cs:54-65 | the component suspends exactly when a task it awaits had not completed |
| Lifecycle.InitializedOnce | Construct/ComponentSource.cs:37-46 | over any number of calls, OnInitialized and OnInitializedAsync each run once, on the first call |
| Lifecycle.ParametersSetEachCall | Construct/ComponentSource.cs:30-47 | OnParametersSet runs once per call, except in a first call whose initialisation faulted |
| Lifecycle.HookCounts | Construct/ComponentSource.cs:49-102 | how often each hook runs in one initialising or one parameters-set call |
| Lifecycle.ComponentSource.constructor | Construct/ComponentSource.cs:10-13 | a new component is uninitialised with no Data and no cached root, and has invoked Initialize when there is one |
| Lifecycle.ComponentSource.SetParametersAsync | Construct/ComponentSource.cs:30-47 | a bad Data value throws and changes nothing; otherwise Data is taken when present, the flag is set, and the first call runs `InitRun` while later calls run `ParametersSetRun` |
| Lifecycle.ComponentSource.RunInitAndSetParametersAsync | Construct/ComponentSource.cs:49-83 | logs exactly `InitRun` and ends as it does |
| Lifecycle.ComponentSource.CallOnParametersSetAsync | Construct/ComponentSource.cs:85-102 | logs exactly `ParametersSetRun` and ends as it does |
| Lifecycle.ComponentSource.CallStateHasChangedOnAsyncCompletion | Construct/ComponentSource.cs:104-122 | re-renders only after success; a cancellation ends quietly; a fault faults |
| Lifecycle.ComponentSource.RenderSelf | Construct/ComponentSource.cs:22-26 | Self is read only while the cache is null; a null root renders nothing; otherwise the root's fragment is obtained and rendered. Only the cache, the log and the root's scope key may change |
| Lifecycle.RenderSelfKeepsRoot | Construct/ComponentSource.cs:23 | rendering a cached root leaves every field but its scope key as it was: attributes, listeners, bound attributes, contents, id, key, reference item and Data |
| Lifecycle.TwoCalls | Construct/ComponentSource.cs:30-47 | two calls on a new component log the initialising run, then a parameters-set run, with initialisation once |
| Observable.Inc32 | Construct/ObservableValue.cs:37 | `++` on an int is the successor wrapped into 32 bits |
| Observable.Dec32 | Construct/ObservableValue.cs:59 | `--` on an int is the predecessor wrapped into 32 bits |
| Observable.Inc64 | Construct/ObservableValue.cs:38 | `++` on a long is the successor wrapped into 64 bits |
| Observable.Dec64 | Construct/ObservableValue.cs:60 | `--` on a long is the predecessor wrapped into 64 bits |
| Observable.Incremented | Construct/ObservableValue.cs:28-48 | `++` throws InvalidOperation exactly for null and for values that are neither int nor long |
| Observable.Decremented | Construct/ObservableValue.cs:50-70 | `--` throws InvalidOperation exactly for null and for values that are neither int nor long |
| Observable.IncDecInverse | Construct/ObservableValue.cs:28-70 | `--` undoes `++` and `++` undoes `--`, across the wrap-around too |
| Observable.StepChanges | Construct/ObservableValue.cs:28-70 | `++` and `--` always store a different value, so the setter always notifies |
| Observable.StepWithoutOverflow | Construct/ObservableValue.cs:37-60 | away from the bounds, `++` adds one and `--` subtracts one |
| Observable.SetterSkips | Construct/ObservableValue.cs:17 | the setter returns early exactly when the stored value is non-null and equal to the new one. `SetValue` and `SetTwice` rely on it |
| Observable.Deliveries | Construct/ObservableValue.cs:11-12 | raising the event calls each subscriber once, in order, with the key and value |
| Observable.ObservableValue.Empty | Construct/ObservableValue.cs:8 | a new cell holds `default(T)` and has no subscriber |
| Observable.ObservableValue.constructor | Construct/ObservableValue.cs:9 | a cell built with a value holds it, having notified nobody |
| Observable.ObservableValue.GetValue | Construct/ObservableValue.cs:15 | the getter returns a value the type admits |
| Observable.ObservableValue.Subscribe | Construct/ObservableValue.cs:24 | a subscriber joins the end of the list |
| Observable.ObservableValue.OnChangeOccur | Construct/ObservableValue.cs:11-12 | every subscriber is called with the key and value, in order |
| Observable.ObservableValue.SetValue | Construct/ObservableValue.cs:15-22 | a value equal to the non-null current one changes nothing; any other value is stored and reported once to each subscriber under `Value` |
| Observable.ObservableValue.Increment | Construct/ObservableValue.cs:28-48 | a null or non-integer value throws and changes nothing; otherwise the successor is stored and notified |
| Observable.ObservableValue.Decrement | Construct/ObservableValue.cs:50-70 | a null or non-integer value throws and changes nothing; otherwise the predecessor is stored and notified |
| Observable.ObservableValue.Equals | Construct/ObservableValue.cs:72-80 | true exactly against an observable with an equal value or against an equal raw `T`; false for null and anything else |
| Observable.ObservableValue.ToString | Construct/ObservableValue.cs:82-85 | null exactly when the value is null, else the value's text |
| Observable.SetTwice | Construct/ObservableValue.cs:15-22 | reading right after setting gives the value set; the same non-null value a second time notifies nobody, while null notifies every time |
| Observable.EqualsItsValue | Construct/ObservableValue.cs:72-80 | a cell equals its own value and exactly the observables holding the same value, and never null or an unrelated object |
| Layouts.LastValue | Construct/Layout.cs:20-21 | the value of the last pair naming the key, or none. `LastValueIsLastOccurrence` states it |
| Layouts.Assign | Construct/Layout.cs:18-24 | the dictionary after `LayoutMap[key] = val` for each pair in order. `AssignLastWins` states it |
| Layouts.AssignLastWins | Construct/Layout.cs:18-24 | after SetLayout, each named key holds its last pair's value (null included), other keys keep theirs, and no key appears from nowhere |
| Layouts.LastValueIsLastOccurrence | Construct/Layout.cs:20-21 | the value taken is that of the last pair naming the key |
| Layouts.Lookup | Construct/Layout.cs:30 | the getter throws KeyNotFound exactly for an absent key, and otherwise returns the stored value |
| Layouts.Layout.constructor | Construct/Layout.cs:13-16 | construction is SetLayout on an empty map |
| Layouts.Layout.SetLayout | Construct/Layout.cs:18-24 | the map becomes the old map with every pair assigned in order, and the layout itself is returned |
| Layouts.Layout.Get | Construct/Layout.cs:28-30 | the indexer getter is the dictionary lookup |
| Layouts.Layout.Set | Construct/Layout.cs:31 | the indexer setter overwrites exactly one key |
| Layouts.StoreThenLookup | Construct/Layout.cs:28-32 | reading a slot right after writing it gives what was written, and other slots read as before |
| Layouts.BuildAndRead | Construct/Layout.cs:13-30 | a layout built from pairs reads each named key as its last pair and throws for any other key |

## Left out

- Floating-point and decimal `++`/`--`: values that are neither int nor long are modelled as throwing InvalidOperation, whereas float, double and decimal values are in fact incremented.
- The exception messages of `++`/`--` are not modelled; the message of `--` says "increment".
- `ObservableValue` event removal (`-=`) is not modelled. The implicit conversion to `T` is the getter; the conversion to `string` is `ToString`.
- Observable.ObservableValue.ToString: the text of a value is a parameter, because the source uses the runtime's culture-dependent `ToString`.
- Observable.ObservableValue.Equals: the caller says which of the three switch arms an argument falls into. When `T` is `object`, an observable of another type argument counts as a raw `T`.
- Layout record semantics are not modelled: record equality, `with` copies that share the dictionary, and replacing `LayoutMap` through `init`. `GetLayout`, which returns the layout itself, is not modelled either.
- A null key to the layout dictionary would throw ArgumentNullException; keys are modelled as non-null strings.
- Real asynchronous scheduling is not modelled. A hook task is given by whether it had completed when inspected and how it ends, and an await either suspends or resumes at once.
- Hooks that throw synchronously are not modelled. A fault is always carried by the hook's task.
- A hook task that ends faulted with an OperationCanceledException is not modelled separately.
- The internals of `ComponentBase.StateHasChanged` (pending-render and ShouldRender checks) are not modelled. Each call is recorded as a request.
- The `SetParametersAsync` override never calls the base implementation, so `[Parameter]` properties other than `Data` are never assigned. The model has only `Data`.
- The host builder and its frame buffer are not modelled beyond the instruction log. The frames `GetCssKey` reads are a parameter and are not extended by the instructions a render emits.
- A child fragment is one content instruction; the host running that fragment is not part of this model.
- The reference capture's callback writing `RefItem.ElementReference` is not modelled. Invoking handlers through `Callback` is not modelled, since `CallbackAction` is never assigned.
- The null `EventCallbackItem` passed to an `Add<A>` mapper when `A` is not `T` is not modelled; what the mapper does with it is caller code.
- Null arrays passed to the `params` methods, null elements inside them, a null event name, and null nodes inside node sequences are not modelled. Each throws an exception the model does not represent.
- Outside code never throws in the model. These are the guard predicates, the content producers and the `ObservableValue` subscribers. In the source, a throwing `PreventDefault`/`StopPropagation` guard ends the render in the middle of the header. A throwing producer ends the content loop. A throwing subscriber stops the later subscribers and escapes the setter after the backing field has been stored.
- Null delegates are not modelled. A null delegate given to `SetCallbackAction`, `Add` or `Add<A>` would leave the chain unchanged under `+=` (or, for `Add`, wrap null in a closure that throws when run). A null `item` given to `RemoveEventListener` finds no non-null member, so nothing changes. Delegates are ids, with no null among them.
- An identity reassigned through the public `Tag` setter is not modelled: identity is fixed by the factories. Likewise `EventName` is fixed at creation (a `const`), although its setter is public; renaming an item already in a `HashSet` would change its hash, so `TryGetValue` in `RemoveEventListener` could miss it. `RenderItem.Value` is likewise treated as immutable, since nothing in the core mutates it.
- `AddVoid` is the same closure as `Add`, so it is modelled by `Add`.
- `Create<T>(Type)`, `FromComponent<T>()` and `Create<T>()` are all modelled by `CreateWithType`.
- Builder.RenderFragmentGen.WithPath is modelled on any node, not only on `SvgElement`.
- These thin wrappers over the modelled builder are not modelled: `AtrinsicElements`, `AuthorizingComponent`, the `IntrinsicElement` presets, `HrefElement`, the other `SvgElement` setters, `ViewboxValue`, `ElementConditionExt` and `WithComponentContent`.
- `PageBase`, `PageImplementation`, `DefaultLayout` and `Extensions/StartupExt.cs` are not part of this model. They hold declarations, a fallback `Self`, and dependency-injection registration through `DynamicInvoke`.
- `ToLowerInvariant` is modelled for ASCII letters only.
- A producer's node sequence is modelled as finite and fully materialised.
- The delegate and reflection machinery, `[CallerMemberName]` and `typeof` are not modelled.
