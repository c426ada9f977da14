/** The render-descriptor builder `RenderFragmentGen`: a node with a fixed identity
    (element tag, component type or region), lists of listeners, static attributes and
    bound attributes, an Id, a Key, a reference capture and child content, and the
    linearisation of a node into the ordered, sequence-numbered instructions the host
    renderer receives. The host builder is modelled by the instruction log it is
    handed; a child descriptor becomes a single content instruction carrying that
    child's own fragment. */
module Builder {
  import opened Common
  import opened Eventing

  type ComponentType = nat
  type CallbackId = nat
  type ProducerId = nat
  type FragmentId = nat
  type DataId = nat
  type ElementRef = nat

  /** The nullable tuple `(string? Tag, Type? Component)?` a factory stores. */
  datatype Identity = Identity(tag: Option<string>, component: Option<ComponentType>)

  /** Which open/close pair a node uses. */
  datatype OpenClose = ElementOC(tag: string) | ComponentOC(component: ComponentType) | RegionOC

  /** GetOpenCloseActions: a non-empty tag opens an element, otherwise a component
      type opens a component, and neither opens a region; anything else throws. */
  function OpenCloseOf(identity: Option<Identity>): (r: Result<OpenClose>)
    ensures r.Err? <==> identity.None? || (identity.value.tag == Some("") && identity.value.component.None?)
    ensures r.Err? ==> r.error == KeyNotFound
  {
    if identity.None? then Err(KeyNotFound)
    else
      var id := identity.value;
      if id.tag.Some? && |id.tag.value| > 0 then Ok(ElementOC(id.tag.value))
      else if id.component.Some? then Ok(ComponentOC(id.component.value))
      else if id.tag.None? then Ok(RegionOC)
      else Err(KeyNotFound)
  }

  /** The three arms of the switch, each stated on its own. */
  lemma OpenCloseCases(tag: Option<string>, component: Option<ComponentType>)
    ensures tag.Some? && |tag.value| > 0 ==> OpenCloseOf(Some(Identity(tag, component))) == Ok(ElementOC(tag.value))
    ensures (tag.None? || tag == Some("")) && component.Some? ==>
      OpenCloseOf(Some(Identity(tag, component))) == Ok(ComponentOC(component.value))
    ensures tag.None? && component.None? ==> OpenCloseOf(Some(Identity(tag, component))) == Ok(RegionOC)
  {
  }

  /** The three delegate types a content producer can have. */
  datatype ProducerKind = ElementCondition | ValueCondition | FuncObject

  /** A .NET object as it can appear as an attribute value, as child content, or as
      what a producer returns. */
  datatype Obj =
    | Null
    | Str(s: string)
    | Markup(html: string)                         // MarkupString
    | Nodes(nodes: seq<RenderFragmentGen>)         // IEnumerable<RenderFragmentGen>
    | FragmentObj(fragment: Fragment)              // RenderFragment
    | NodeObj(node: RenderFragmentGen)             // RenderFragmentGen
    | Producer(kind: ProducerKind, id: ProducerId) // ElementCondition, ValueCondition, Func<object>
    | ProcItem(item: RenderItem)                   // ProcRenderItem, with what it returns
    | Other(id: nat)                               // any other object

  /** A child slot: a null RenderItem, or one holding a value. */
  datatype RenderItem = NullItem | Item(value: Obj)

  /** A RenderFragment: the closure GetRenderFragment returns, which holds the node,
      the open/close pair and the contents as they were when the getter ran; or a
      fragment that came from elsewhere. */
  datatype Fragment =
    | NodeFragment(node: RenderFragmentGen, openClose: OpenClose, contents: seq<RenderItem>)
    | HostFragment(id: FragmentId)

  /** The value part of an attribute instruction. */
  datatype AttrValue =
    | Value(obj: Obj)                  // a static attribute or the id
    | Handler(chain: seq<Entry>)       // a listener's callback delegate
    | BoundCallback(callback: CallbackId)
    | Flag(b: bool)                    // the scope attribute
    | DataValue(data: DataId)          // the Data attribute of a component node

  /** One call on the host builder, without its sequence number. */
  datatype Op =
    | Open(openClose: OpenClose)
    | SetKey(key: string)
    | Attribute(name: string, value: AttrValue)
    | PreventDefault(eventName: string)
    | StopPropagation(eventName: string)
    | MarkupContent(html: string)
    | Content(content: Obj)
    | ReferenceCapture
    | Close(openClose: OpenClose)

  /** SetKey and the close calls take no sequence number; every other call does. */
  predicate Numbered(op: Op) { !op.SetKey? && !op.Close? }

  datatype Instr = At(sequence: nat, op: Op) | Unnumbered(op: Op)

  function Stamp(op: Op, n: nat): Instr
  {
    if Numbered(op) then At(n, op) else Unnumbered(op)
  }

  function CountNumbered(ops: seq<Op>): nat
  {
    if ops == [] then 0 else (if Numbered(ops[0]) then 1 else 0) + CountNumbered(ops[1..])
  }

  /** The instructions a run of calls produces when the counter starts at `start` and
      `seq++` is used by every numbered call. */
  function Number(ops: seq<Op>, start: nat): (r: seq<Instr>)
    ensures |r| == |ops|
  {
    if ops == [] then []
    else [Stamp(ops[0], start)] + Number(ops[1..], if Numbered(ops[0]) then start + 1 else start)
  }

  /** One more call is stamped with the counter value reached so far. */
  lemma {:induction false} NumberSnoc(ops: seq<Op>, op: Op, start: nat)
    ensures Number(ops + [op], start) == Number(ops, start) + [Stamp(op, start + CountNumbered(ops))]
    ensures CountNumbered(ops + [op]) == CountNumbered(ops) + (if Numbered(op) then 1 else 0)
  {
    if ops == [] {
      assert [op][1..] == [];
    } else {
      assert (ops + [op])[0] == ops[0];
      assert (ops + [op])[1..] == ops[1..] + [op];
      NumberSnoc(ops[1..], op, if Numbered(ops[0]) then start + 1 else start);
    }
  }

  /** The sequence numbers carried by a run of instructions, in order. */
  function SeqNumbers(instrs: seq<Instr>): seq<nat>
  {
    if instrs == [] then []
    else (if instrs[0].At? then [instrs[0].sequence] else []) + SeqNumbers(instrs[1..])
  }

  function Range(lo: nat, hi: nat): (r: seq<nat>)
    requires lo <= hi
    ensures |r| == hi - lo && forall i :: 0 <= i < |r| ==> r[i] == lo + i
    decreases hi - lo
  {
    if lo == hi then [] else [lo] + Range(lo + 1, hi)
  }

  /** The numbers used are consecutive from `start`, with no gap and no repetition. */
  lemma {:induction false} NumberIsConsecutive(ops: seq<Op>, start: nat)
    ensures SeqNumbers(Number(ops, start)) == Range(start, start + CountNumbered(ops))
  {
    if ops != [] {
      var next := if Numbered(ops[0]) then start + 1 else start;
      NumberIsConsecutive(ops[1..], next);
      var r := Number(ops, start);
      assert r[0] == Stamp(ops[0], start);
      assert r[1..] == Number(ops[1..], next);
      if Numbered(ops[0]) {
        assert Range(start, start + CountNumbered(ops)) == [start] + Range(start + 1, start + CountNumbered(ops));
      }
    }
  }

  /** A frame of the host's frame buffer: whether it is an attribute frame, and what
      its AttributeName reads as. */
  datatype Frame = Frame(isAttribute: bool, attributeName: Option<string>)

  function Reverse<T>(s: seq<T>): (r: seq<T>)
    ensures |r| == |s|
  {
    if s == [] then [] else Reverse(s[1..]) + [s[0]]
  }

  /** `SkipWhile(e => e.FrameType is not Attribute)`. */
  function SkipNonAttributes(frames: seq<Frame>): seq<Frame>
  {
    if frames == [] then []
    else if !frames[0].isAttribute then SkipNonAttributes(frames[1..])
    else frames
  }

  /** `FirstOrDefault(e => e.AttributeName is ['b', '-', ..])`, as the name. */
  function FirstScopeName(frames: seq<Frame>): (r: Option<string>)
    ensures r.Some? ==> HasScopePrefix(r.value)
  {
    if frames == [] then None
    else if frames[0].attributeName.Some? && HasScopePrefix(frames[0].attributeName.value) then frames[0].attributeName
    else FirstScopeName(frames[1..])
  }

  /** GetCssKey(frames): scan the frames from the end, past the trailing frames that
      are not attributes, for the first name with the scope prefix. */
  function GetCssKey(frames: seq<Frame>): (r: Option<string>)
    ensures r.Some? ==> HasScopePrefix(r.value)
  {
    FirstScopeName(SkipNonAttributes(Reverse(frames)))
  }

  /** The last attribute frame whose name has the scope prefix. */
  function LastScopeAttribute(frames: seq<Frame>): Option<string>
  {
    if frames == [] then None
    else
      var last := frames[|frames| - 1];
      if last.isAttribute && last.attributeName.Some? && HasScopePrefix(last.attributeName.value)
      then last.attributeName
      else LastScopeAttribute(frames[..|frames| - 1])
  }

  /** Only attribute frames carry an AttributeName. */
  predicate NamesOnAttributes(frames: seq<Frame>)
  {
    forall i :: 0 <= i < |frames| && !frames[i].isAttribute ==> frames[i].attributeName.None?
  }

  lemma {:induction false} FirstScopeNameSkips(frames: seq<Frame>)
    requires NamesOnAttributes(frames)
    ensures FirstScopeName(SkipNonAttributes(frames)) == FirstScopeName(frames)
  {
    if frames != [] && !frames[0].isAttribute {
      FirstScopeNameSkips(frames[1..]);
    }
  }

  lemma ReverseSnoc<T>(s: seq<T>, x: T)
    ensures Reverse(s + [x]) == [x] + Reverse(s)
  {
    if s != [] {
      assert (s + [x])[1..] == s[1..] + [x];
      ReverseSnoc(s[1..], x);
    }
  }

  lemma {:induction false} ReverseNames(frames: seq<Frame>)
    requires NamesOnAttributes(frames)
    ensures NamesOnAttributes(Reverse(frames))
  {
    if frames != [] {
      ReverseNames(frames[1..]);
      var r := Reverse(frames[1..]);
      assert Reverse(frames) == r + [frames[0]];
    }
  }

  /** When only attribute frames carry names, GetCssKey finds the name of the last
      attribute frame with the scope prefix, or nothing. */
  lemma {:induction false} GetCssKeyIsLastScopeAttribute(frames: seq<Frame>)
    requires NamesOnAttributes(frames)
    ensures GetCssKey(frames) == LastScopeAttribute(frames)
  {
    if frames != [] {
      var init, last := frames[..|frames| - 1], frames[|frames| - 1];
      assert frames == init + [last];
      assert NamesOnAttributes(init);
      GetCssKeyIsLastScopeAttribute(init);
      ReverseSnoc(init, last);
      var rest := Reverse(init);
      assert Reverse(frames) == [last] + rest;
      assert ([last] + rest)[1..] == rest;
      if last.isAttribute {
        ReverseNames(init);
        FirstScopeNameSkips(rest);
      }
    }
  }

  /** Without the condition on names the scan can differ from the last scope
      attribute: past the trailing non-attributes it reads the name of any frame,
      so an earlier text or element frame whose name has the prefix wins. */
  lemma GetCssKeyReadsAnyNamedFrame()
    ensures var frames := [Frame(true, Some("b-a")), Frame(false, Some("b-t")), Frame(true, Some("class"))];
      GetCssKey(frames) == Some("b-t") && LastScopeAttribute(frames) == Some("b-a")
  {
    var frames := [Frame(true, Some("b-a")), Frame(false, Some("b-t")), Frame(true, Some("class"))];
    assert Reverse(frames) == [frames[2], frames[1], frames[0]] by {
      assert frames[1..] == [frames[1], frames[2]];
      assert frames[1..][1..] == [frames[2]];
      assert frames[1..][1..][1..] == [];
    }
    assert frames[..2] == [frames[0], frames[1]];
    assert frames[..2][..1] == [frames[0]];
  }

  /** `CssKey = GetCssKey(frames) ?? CssKey`, done only for element nodes. */
  function EffectiveCssKey(cached: Option<string>, oc: OpenClose, frames: seq<Frame>): (r: Option<string>)
    ensures !oc.ElementOC? ==> r == cached
    ensures oc.ElementOC? && GetCssKey(frames).None? ==> r == cached
    ensures oc.ElementOC? && GetCssKey(frames).Some? ==> r == GetCssKey(frames)
  {
    if oc.ElementOC? && GetCssKey(frames).Some? then GetCssKey(frames) else cached
  }

  /** A key once found stays cached: running again over the same frames, or over
      frames without a key, keeps it. */
  lemma EffectiveCssKeyStable(cached: Option<string>, oc: OpenClose, frames: seq<Frame>, later: seq<Frame>)
    requires GetCssKey(later).None?
    ensures EffectiveCssKey(EffectiveCssKey(cached, oc, frames), oc, frames) == EffectiveCssKey(cached, oc, frames)
    ensures EffectiveCssKey(EffectiveCssKey(cached, oc, frames), oc, later) == EffectiveCssKey(cached, oc, frames)
  {
  }

  /** The state of a node that rendering reads, apart from its contents. */
  datatype NodeView = NodeView(
    identity: Option<Identity>,
    typed: bool,
    id: Option<string>,
    key: Option<string>,
    cssKey: Option<string>,
    listeners: seq<EventValue>,
    attributes: seq<(string, Obj)>,
    attributeCallbacks: seq<(string, CallbackId)>,
    referenceItem: Option<ElementRef>,
    data: Option<DataId>)

  /** What the code the builder calls out to returns: the value of each guard
      predicate, and the object each content producer returns when invoked. */
  datatype Env = Env(guards: PredicateId -> bool, produce: ProducerId -> Obj)

  /** A run of builder calls, and the exception that ended it, if any. */
  datatype Emitted = Emitted(ops: seq<Op>, failure: Option<Error>)

  /** Running `a` and then, unless it threw, `b`. */
  function Then(a: Emitted, b: Emitted): Emitted
  {
    if a.failure.Some? then a else Emitted(a.ops + b.ops, b.failure)
  }

  /** For each listener: its handler; the prevent-default flag if that guard holds
      now; the stop-propagation flag if that guard holds now. */
  function ListenerOps(ls: seq<EventValue>, guards: PredicateId -> bool): seq<Op>
  {
    if ls == [] then []
    else
      var l := ls[0];
      [Attribute(l.eventName, Handler(l.callback))]
      + (if GuardHolds(l.preventDefault, guards) then [PreventDefault(l.eventName)] else [])
      + (if GuardHolds(l.stopPropagation, guards) then [StopPropagation(l.eventName)] else [])
      + ListenerOps(ls[1..], guards)
  }

  function StaticOps(attrs: seq<(string, Obj)>): seq<Op>
  {
    seq(|attrs|, i requires 0 <= i < |attrs| => Attribute(attrs[i].0, Value(attrs[i].1)))
  }

  function BoundOps(callbacks: seq<(string, CallbackId)>): seq<Op>
  {
    seq(|callbacks|, i requires 0 <= i < |callbacks| => Attribute(callbacks[i].0, BoundCallback(callbacks[i].1)))
  }

  /** GetAttributes(): listeners, then static attributes in insertion order, then, for
      a component node of `RenderFragmentGen<T>` whose Data is set, the Data attribute. */
  function GetAttributes(v: NodeView, guards: PredicateId -> bool): seq<Op>
  {
    ListenerOps(v.listeners, guards)
    + StaticOps(v.attributes)
    + (if v.typed && v.data.Some? then [Attribute("Data", DataValue(v.data.value))] else [])
  }

  /** How many guard flags the listeners produce. */
  function GuardCount(ls: seq<EventValue>, guards: PredicateId -> bool): nat
  {
    if ls == [] then 0
    else
      (if GuardHolds(ls[0].preventDefault, guards) then 1 else 0)
      + (if GuardHolds(ls[0].stopPropagation, guards) then 1 else 0)
      + GuardCount(ls[1..], guards)
  }

  /** One handler per listener, one entry per static attribute, one per holding
      guard, and Data when it applies. */
  lemma {:induction false} GetAttributesLength(v: NodeView, guards: PredicateId -> bool)
    ensures |GetAttributes(v, guards)| ==
      |v.listeners| + GuardCount(v.listeners, guards) + |v.attributes| + (if v.typed && v.data.Some? then 1 else 0)
  {
    ListenerOpsLength(v.listeners, guards);
  }

  lemma {:induction false} ListenerOpsLength(ls: seq<EventValue>, guards: PredicateId -> bool)
    ensures |ListenerOps(ls, guards)| == |ls| + GuardCount(ls, guards)
  {
    if ls != [] {
      ListenerOpsLength(ls[1..], guards);
    }
  }

  /** No listener, static attribute, id, bound attribute or Data entry is a flag. */
  lemma {:induction false} ListenerOpsHaveNoFlag(ls: seq<EventValue>, guards: PredicateId -> bool)
    ensures forall op :: op in ListenerOps(ls, guards) ==> !(op.Attribute? && op.value.Flag?)
  {
    if ls != [] {
      ListenerOpsHaveNoFlag(ls[1..], guards);
    }
  }

  /** The calls made before any content: open; the key; the id; bound attributes;
      GetAttributes; the scope attribute of an element whose key `css` is non-empty;
      the reference capture. */
  function HeaderOps(v: NodeView, oc: OpenClose, css: Option<string>, guards: PredicateId -> bool): seq<Op>
  {
    [Open(oc)]
    + (if v.key.Some? then [SetKey(v.key.value)] else [])
    + (if v.id.Some? then [Attribute("id", Value(Str(v.id.value)))] else [])
    + BoundOps(v.attributeCallbacks)
    + GetAttributes(v, guards)
    + (if oc.ElementOC? && css.Some? && |css.value| > 0 then [Attribute(css.value, Flag(true))] else [])
    + (if v.referenceItem.Some? then [ReferenceCapture] else [])
  }

  /** The scope attribute is emitted exactly for an element node whose key, from the
      frames or cached, is non-empty. */
  lemma ScopeAttributeEmitted(v: NodeView, oc: OpenClose, frames: seq<Frame>, guards: PredicateId -> bool)
    ensures var css := EffectiveCssKey(v.cssKey, oc, frames);
      (exists op :: op in HeaderOps(v, oc, css, guards) && op.Attribute? && op.value.Flag?)
      <==> oc.ElementOC? && css.Some? && |css.value| > 0
  {
    var css := EffectiveCssKey(v.cssKey, oc, frames);
    ListenerOpsHaveNoFlag(v.listeners, guards);
    if oc.ElementOC? && css.Some? && |css.value| > 0 {
      assert Attribute(css.value, Flag(true)) in HeaderOps(v, oc, css, guards);
    }
  }

  /** `r.GetRenderFragment` for a child node, as an object. */
  function AsFragment(n: RenderFragmentGen): Result<Obj>
    reads n
  {
    match n.GetRenderFragment()
    case Ok(f) => Ok(FragmentObj(f))
    case Err(e) => Err(e)
  }

  /** The first switch over `v.Value`: producers are invoked, a node (also one a
      `Func<object>` returns) becomes its fragment, anything else is taken as it is.
      A null RenderItem throws on `.Value`; a null Value matches no arm. */
  function Resolve(item: RenderItem, env: Env): Result<Obj>
    reads *
  {
    match item
    case NullItem => Err(NullReference)
    case Item(v) =>
      match v
      case Null => Err(InvalidOperation)
      case Producer(kind, p) =>
        var o := env.produce(p);
        if kind == FuncObject && o.NodeObj? then AsFragment(o.node) else Ok(o)
      case NodeObj(n) => AsFragment(n)
      case _ => Ok(v)
  }

  /** One content call per node of a sequence, in order; a node whose fragment
      cannot be built stops the run. */
  function NodeContent(n: RenderFragmentGen): Emitted
    reads n
  {
    match n.GetRenderFragment()
    case Ok(f) => Emitted([Content(FragmentObj(f))], None)
    case Err(e) => Emitted([], Some(e))
  }

  function NodesRun(ns: seq<RenderFragmentGen>): Emitted
    reads set n | n in ns
  {
    if ns == [] then Emitted([], None)
    else Then(NodesRun(ns[..|ns| - 1]), NodeContent(ns[|ns| - 1]))
  }

  /** The second switch: markup, a sequence of nodes, nothing for null, content for
      anything else. */
  function Classify(o: Obj): Emitted
    reads *
  {
    match o
    case Markup(html) => Emitted([MarkupContent(html)], None)
    case Nodes(ns) => NodesRun(ns)
    case Null => Emitted([], None)
    case _ => Emitted([Content(o)], None)
  }

  function ItemRun(item: RenderItem, env: Env): Emitted
    reads *
  {
    match Resolve(item, env)
    case Err(e) => Emitted([], Some(e))
    case Ok(o) => Classify(o)
  }

  /** The content loop, over the contents captured by the fragment. */
  function ContentRun(items: seq<RenderItem>, env: Env): Emitted
    reads *
  {
    if items == [] then Emitted([], None)
    else Then(ContentRun(items[..|items| - 1], env), ItemRun(items[|items| - 1], env))
  }

  /** The whole fragment: header, content, and the close call unless content threw. */
  function FragmentRun(v: NodeView, oc: OpenClose, items: seq<RenderItem>, frames: seq<Frame>, env: Env): Emitted
    reads *
  {
    var header := HeaderOps(v, oc, EffectiveCssKey(v.cssKey, oc, frames), env.guards);
    Then(Then(Emitted(header, None), ContentRun(items, env)), Emitted([Close(oc)], None))
  }

  lemma {:induction false} NodesRunStops(ns: seq<RenderFragmentGen>, k: nat)
    requires k <= |ns| && NodesRun(ns[..k]).failure.Some?
    ensures NodesRun(ns) == NodesRun(ns[..k])
    decreases |ns|
  {
    if k < |ns| {
      var init := ns[..|ns| - 1];
      assert init[..k] == ns[..k];
      NodesRunStops(init, k);
    } else {
      assert ns[..k] == ns;
    }
  }

  lemma {:induction false} ContentRunStops(items: seq<RenderItem>, k: nat, env: Env)
    requires k <= |items| && ContentRun(items[..k], env).failure.Some?
    ensures ContentRun(items, env) == ContentRun(items[..k], env)
    decreases |items|
  {
    if k < |items| {
      var init := items[..|items| - 1];
      assert init[..k] == items[..k];
      ContentRunStops(init, k, env);
    } else {
      assert items[..k] == items;
    }
  }

  lemma ThenAssociative(a: Emitted, b: Emitted, c: Emitted)
    ensures Then(Then(a, b), c) == Then(a, Then(b, c))
  {
  }

  /** Contents run in order: the run over `a + b` is the run over `a` followed, unless
      it threw, by the run over `b`. */
  lemma {:induction false} ContentRunAppend(a: seq<RenderItem>, b: seq<RenderItem>, env: Env)
    ensures ContentRun(a + b, env) == Then(ContentRun(a, env), ContentRun(b, env))
    decreases |b|
  {
    if b == [] {
      assert a + b == a;
    } else {
      var b0 := b[..|b| - 1];
      assert (a + b)[..|a + b| - 1] == a + b0;
      ContentRunAppend(a, b0, env);
      ThenAssociative(ContentRun(a, env), ContentRun(b0, env), ItemRun(b[|b| - 1], env));
    }
  }

  /** The fragments of nodes that can all be built, in sequence order. */
  function BuiltFragments(ns: seq<RenderFragmentGen>): seq<Op>
    requires forall i :: 0 <= i < |ns| ==> ns[i].GetRenderFragment().Ok?
    reads set n | n in ns
  {
    if ns == [] then []
    else BuiltFragments(ns[..|ns| - 1]) + [Content(FragmentObj(ns[|ns| - 1].GetRenderFragment().value))]
  }

  /** Every node of a sequence whose fragment can be built becomes one content call
      carrying that fragment, in sequence order. */
  lemma {:induction false} NodesRunAllBuilt(ns: seq<RenderFragmentGen>)
    requires forall i :: 0 <= i < |ns| ==> ns[i].GetRenderFragment().Ok?
    ensures NodesRun(ns) == Emitted(BuiltFragments(ns), None)
    ensures |BuiltFragments(ns)| == |ns|
  {
    if ns != [] {
      NodesRunAllBuilt(ns[..|ns| - 1]);
    }
  }

  /** How each kind of child shows up in the instruction log. */
  lemma ItemRunCases(item: RenderItem, env: Env)
    ensures item == NullItem ==> ItemRun(item, env) == Emitted([], Some(NullReference))
    ensures item == Item(Null) ==> ItemRun(item, env) == Emitted([], Some(InvalidOperation))
    ensures item.Item? && item.value.Markup? ==> ItemRun(item, env) == Emitted([MarkupContent(item.value.html)], None)
    ensures item.Item? && (item.value.Str? || item.value.FragmentObj? || item.value.Other?) ==>
      ItemRun(item, env) == Emitted([Content(item.value)], None)
    ensures item.Item? && item.value.NodeObj? && item.value.node.GetRenderFragment().Ok? ==>
      ItemRun(item, env) == Emitted([Content(FragmentObj(item.value.node.GetRenderFragment().value))], None)
    ensures item.Item? && item.value.Producer? && env.produce(item.value.id) == Null ==> ItemRun(item, env) == Emitted([], None)
  {
  }

  /** Whatever the node holds, the log opens first, numbers its calls 0, 1, 2, ...
      without gaps, and, when nothing threw, ends with the unnumbered close. */
  lemma FragmentLogShape(v: NodeView, oc: OpenClose, items: seq<RenderItem>, frames: seq<Frame>, env: Env)
    ensures var run := FragmentRun(v, oc, items, frames, env);
      var log := Number(run.ops, 0);
      && |log| > 0
      && log[0] == At(0, Open(oc))
      && SeqNumbers(log) == Range(0, CountNumbered(run.ops))
      && (run.failure.None? ==> log[|log| - 1] == Unnumbered(Close(oc)))
  {
    var run := FragmentRun(v, oc, items, frames, env);
    NumberIsConsecutive(run.ops, 0);
    if run.failure.None? {
      var body := HeaderOps(v, oc, EffectiveCssKey(v.cssKey, oc, frames), env.guards) + ContentRun(items, env).ops;
      assert run.ops == body + [Close(oc)];
      NumberSnoc(body, Close(oc), 0);
    }
  }

  /** Rendering again over the same frames produces the same log: the key cached by
      the first run is what the second run finds. */
  lemma RenderAgainSameLog(v: NodeView, oc: OpenClose, items: seq<RenderItem>, frames: seq<Frame>, env: Env)
    ensures FragmentRun(v.(cssKey := EffectiveCssKey(v.cssKey, oc, frames)), oc, items, frames, env)
         == FragmentRun(v, oc, items, frames, env)
  {
  }

  /** `log` is what the calls `ops` produced, and `counter` the value `seq` has
      reached. */
  predicate Tracks(log: seq<Instr>, counter: nat, ops: seq<Op>)
  {
    log == Number(ops, 0) && counter == CountNumbered(ops)
  }

  /** Stamp and append one call: `b.Call(seq++, ...)`, or `b.Call(...)` for the
      unnumbered ones. */
  method Emit(log: seq<Instr>, counter: nat, ghost ops: seq<Op>, op: Op)
    returns (log': seq<Instr>, counter': nat, ghost ops': seq<Op>)
    requires Tracks(log, counter, ops)
    ensures ops' == ops + [op] && Tracks(log', counter', ops')
  {
    NumberSnoc(ops, op, 0);
    if Numbered(op) {
      log', counter' := log + [At(counter, op)], counter + 1;
    } else {
      log', counter' := log + [Unnumbered(op)], counter;
    }
    ops' := ops + [op];
  }

  /** One pass of the content loop: the first switch, then the second. */
  method EmitItem(item: RenderItem, env: Env, log: seq<Instr>, counter: nat, ghost ops: seq<Op>)
    returns (log': seq<Instr>, counter': nat, ghost ops': seq<Op>, failure: Option<Error>)
    requires Tracks(log, counter, ops)
    ensures Tracks(log', counter', ops')
    ensures ops' == ops + ItemRun(item, env).ops && failure == ItemRun(item, env).failure
  {
    var resolved := Resolve(item, env);
    if resolved.Err? {
      return log, counter, ops, Some(resolved.error);
    }
    log', counter', ops', failure := EmitClassified(resolved.value, log, counter, ops);
  }

  /** The second switch, over the resolved value. */
  method EmitClassified(o: Obj, log: seq<Instr>, counter: nat, ghost ops: seq<Op>)
    returns (log': seq<Instr>, counter': nat, ghost ops': seq<Op>, failure: Option<Error>)
    requires Tracks(log, counter, ops)
    ensures Tracks(log', counter', ops')
    ensures ops' == ops + Classify(o).ops && failure == Classify(o).failure
  {
    log', counter', ops', failure := log, counter, ops, None;
    match o {
      case Markup(html) =>
        log', counter', ops' := Emit(log, counter, ops, MarkupContent(html));
      case Nodes(ns) =>
        log', counter', ops', failure := EmitNodes(ns, log, counter, ops);
      case Null =>
      case _ =>
        log', counter', ops' := Emit(log, counter, ops, Content(o));
    }
  }

  /** One more node of the loop: its content call is appended, or its exception
      ends the run. */
  lemma NodesRunStep(ns: seq<RenderFragmentGen>, j: nat, nodeOps: seq<Op>)
    requires j < |ns| && NodesRun(ns[..j]) == Emitted(nodeOps, None)
    ensures NodesRun(ns[..j + 1]) == Emitted(nodeOps + NodeContent(ns[j]).ops, NodeContent(ns[j]).failure)
  {
    assert ns[..j + 1][..j] == ns[..j];
  }

  /** `foreach (var f in a) b.AddContent(seq++, f.GetRenderFragment)`. */
  method EmitNodes(ns: seq<RenderFragmentGen>, log: seq<Instr>, counter: nat, ghost ops: seq<Op>)
    returns (log': seq<Instr>, counter': nat, ghost ops': seq<Op>, failure: Option<Error>)
    requires Tracks(log, counter, ops)
    ensures Tracks(log', counter', ops')
    ensures ops' == ops + NodesRun(ns).ops && failure == NodesRun(ns).failure
  {
    log', counter', ops', failure := log, counter, ops, None;
    ghost var nodeOps: seq<Op> := [];
    var j := 0;
    while j < |ns|
      invariant 0 <= j <= |ns|
      invariant NodesRun(ns[..j]) == Emitted(nodeOps, None)
      invariant ops' == ops + nodeOps
      invariant Tracks(log', counter', ops')
    {
      var f := ns[j].GetRenderFragment();
      NodesRunStep(ns, j, nodeOps);
      if f.Err? {
        NodesRunStops(ns, j + 1);
        failure := Some(f.error);
        return;
      }
      log', counter', ops' := Emit(log', counter', ops', Content(FragmentObj(f.value)));
      nodeOps := nodeOps + [Content(FragmentObj(f.value))];
      j := j + 1;
    }
    assert ns[..j] == ns;
  }

  /** The content loop over the captured contents. */
  method EmitContents(items: seq<RenderItem>, env: Env, log: seq<Instr>, counter: nat, ghost ops: seq<Op>)
    returns (log': seq<Instr>, counter': nat, ghost ops': seq<Op>, failure: Option<Error>)
    requires Tracks(log, counter, ops)
    ensures Tracks(log', counter', ops')
    ensures ops' == ops + ContentRun(items, env).ops && failure == ContentRun(items, env).failure
  {
    log', counter', ops', failure := log, counter, ops, None;
    assert items[..0] == [];
    var i := 0;
    while i < |items|
      invariant 0 <= i <= |items|
      invariant ContentRun(items[..i], env).failure.None? && failure.None?
      invariant ops' == ops + ContentRun(items[..i], env).ops
      invariant Tracks(log', counter', ops')
    {
      log', counter', ops', failure := EmitContentAt(items, i, env, log', counter', ops', ops);
      if failure.Some? {
        ContentRunStops(items, i + 1, env);
        return;
      }
      i := i + 1;
    }
    assert items[..i] == items;
  }

  /** The pass of the content loop over `items[i]`. */
  method EmitContentAt(items: seq<RenderItem>, i: nat, env: Env, log: seq<Instr>, counter: nat, ghost ops: seq<Op>, ghost base: seq<Op>)
    returns (log': seq<Instr>, counter': nat, ghost ops': seq<Op>, failure: Option<Error>)
    requires i < |items| && ContentRun(items[..i], env).failure.None?
    requires ops == base + ContentRun(items[..i], env).ops && Tracks(log, counter, ops)
    ensures Tracks(log', counter', ops')
    ensures ops' == base + ContentRun(items[..i + 1], env).ops && failure == ContentRun(items[..i + 1], env).failure
  {
    log', counter', ops', failure := EmitItem(items[i], env, log, counter, ops);
    ContentRunStep(items, i, env);
  }

  lemma ContentRunStep(items: seq<RenderItem>, i: nat, env: Env)
    requires i < |items| && ContentRun(items[..i], env).failure.None?
    ensures ContentRun(items[..i + 1], env)
      == Emitted(ContentRun(items[..i], env).ops + ItemRun(items[i], env).ops, ItemRun(items[i], env).failure)
  {
    assert items[..i + 1][..i] == items[..i];
  }

  /** Emitting a whole run of calls in order. */
  method EmitAll(run: seq<Op>, log: seq<Instr>, counter: nat, ghost ops: seq<Op>)
    returns (log': seq<Instr>, counter': nat, ghost ops': seq<Op>)
    requires Tracks(log, counter, ops)
    ensures ops' == ops + run && Tracks(log', counter', ops')
  {
    log', counter', ops' := log, counter, ops;
    var i := 0;
    while i < |run|
      invariant 0 <= i <= |run|
      invariant ops' == ops + run[..i]
      invariant Tracks(log', counter', ops')
    {
      assert run[..i + 1] == run[..i] + [run[i]];
      log', counter', ops' := Emit(log', counter', ops', run[i]);
      i := i + 1;
    }
    assert run[..i] == run;
  }

  /** The operand of `AddClasses` that ends up after the new names: the value of the
      first "class" entry, "" when there is none or it is null; a value that is not a
      string fails the tuple cast. */
  function HeldClass(attrs: seq<(string, Obj)>): Result<string>
  {
    match ClassIndex(attrs)
    case None => Ok("")
    case Some(i) =>
      match attrs[i].1
      case Str(s) => Ok(s)
      case Null => Ok("")
      case _ => Err(InvalidCast)
  }

  /** The index of the first "class" entry. */
  function ClassIndex(attrs: seq<(string, Obj)>): (r: Option<nat>)
    ensures r.None? <==> forall j :: 0 <= j < |attrs| ==> attrs[j].0 != "class"
    ensures r.Some? ==> r.value < |attrs| && attrs[r.value].0 == "class"
    ensures r.Some? ==> forall j :: 0 <= j < r.value ==> attrs[j].0 != "class"
  {
    if attrs == [] then None
    else if attrs[0].0 == "class" then Some(0)
    else
      var r := ClassIndex(attrs[1..]);
      if r.Some? then Some(r.value + 1) else None
  }

  /** The attribute list after AddClasses(names). */
  function MergeClasses(attrs: seq<(string, Obj)>, names: seq<string>): Result<seq<(string, Obj)>>
  {
    if |names| == 0 then Ok(attrs)
    else
      match HeldClass(attrs)
      case Err(e) => Err(e)
      case Ok(held) =>
        var rest := if ClassIndex(attrs).Some? then attrs[..ClassIndex(attrs).value] + attrs[ClassIndex(attrs).value + 1..] else attrs;
        Ok(rest + [("class", Str(JoinWithSpace(names + [held])))])
  }

  /** The entries whose key is not "class", in order. */
  function NonClass(attrs: seq<(string, Obj)>): seq<(string, Obj)>
  {
    if attrs == [] then [] else (if attrs[0].0 != "class" then [attrs[0]] else []) + NonClass(attrs[1..])
  }

  function ClassCount(attrs: seq<(string, Obj)>): nat
  {
    if attrs == [] then 0 else (if attrs[0].0 == "class" then 1 else 0) + ClassCount(attrs[1..])
  }

  lemma {:induction false} FilterAppend(a: seq<(string, Obj)>, b: seq<(string, Obj)>)
    ensures NonClass(a + b) == NonClass(a) + NonClass(b)
    ensures ClassCount(a + b) == ClassCount(a) + ClassCount(b)
  {
    if a != [] {
      assert (a + b)[0] == a[0];
      assert (a + b)[1..] == a[1..] + b;
      FilterAppend(a[1..], b);
    } else {
      assert a + b == b;
    }
  }

  /** AddClasses puts one "class" entry at the end, holding the new names and then
      the old value, space-separated; it fails exactly when the old value is not a
      string. */
  lemma MergeClassesValue(attrs: seq<(string, Obj)>, names: seq<string>)
    requires |names| > 0
    ensures MergeClasses(attrs, names).Err? <==> HeldClass(attrs).Err?
    ensures MergeClasses(attrs, names).Ok? ==>
      var r := MergeClasses(attrs, names).value;
      |r| > 0 && r[|r| - 1] == ("class", Str(JoinWithSpace(names) + " " + HeldClass(attrs).value))
  {
    JoinWithSpaceAppend(names, if HeldClass(attrs).Ok? then HeldClass(attrs).value else "");
  }

  /** AddClasses keeps every other attribute, in order, and leaves exactly one "class"
      entry when there was at most one. */
  lemma {:induction false} MergeClassesKeepsOthers(attrs: seq<(string, Obj)>, names: seq<string>)
    requires |names| > 0 && MergeClasses(attrs, names).Ok?
    ensures NonClass(MergeClasses(attrs, names).value) == NonClass(attrs)
    ensures ClassCount(attrs) <= 1 ==> ClassCount(MergeClasses(attrs, names).value) == 1
  {
    var r := MergeClasses(attrs, names).value;
    var entry := ("class", Str(JoinWithSpace(names + [HeldClass(attrs).value])));
    var one := [entry];
    assert NonClass(one) == [] && ClassCount(one) == 1 by {
      assert one[1..] == [];
    }
    match ClassIndex(attrs)
    case None =>
      assert r == attrs + one;
      FilterAppend(attrs, one);
      assert ClassCount(attrs) == 0 by { NoClassCount(attrs); }
    case Some(i) =>
      var rest := attrs[..i] + attrs[i + 1..];
      assert r == rest + one;
      assert attrs == attrs[..i] + ([attrs[i]] + attrs[i + 1..]);
      FilterAppend(attrs[..i], [attrs[i]] + attrs[i + 1..]);
      FilterAppend([attrs[i]], attrs[i + 1..]);
      assert ([attrs[i]] + attrs[i + 1..])[1..] == attrs[i + 1..];
      FilterAppend(attrs[..i], attrs[i + 1..]);
      FilterAppend(rest, one);
  }

  lemma {:induction false} NoClassCount(attrs: seq<(string, Obj)>)
    requires forall j :: 0 <= j < |attrs| ==> attrs[j].0 != "class"
    ensures ClassCount(attrs) == 0
  {
    if attrs != [] {
      NoClassCount(attrs[1..]);
    }
  }

  /** On a list without a "class" entry, AddClasses appends one. */
  lemma MergeWithoutClass(attrs: seq<(string, Obj)>, names: seq<string>)
    requires |names| > 0 && ClassIndex(attrs).None?
    ensures MergeClasses(attrs, names) == Ok(attrs + [("class", Str(JoinWithSpace(names) + " "))])
  {
    JoinWithSpaceAppend(names, "");
    assert JoinWithSpace(names) + " " + "" == JoinWithSpace(names) + " ";
  }

  lemma {:induction false} ClassIndexOfAppended(attrs: seq<(string, Obj)>, value: Obj)
    requires ClassIndex(attrs).None?
    ensures ClassIndex(attrs + [("class", value)]) == Some(|attrs|)
  {
    var r := attrs + [("class", value)];
    assert forall j :: 0 <= j < |attrs| ==> r[j] == attrs[j];
    assert r[|attrs|].0 == "class";
  }

  /** Two calls on a node without classes: the second call's names come first, then
      the first call's names, then the trailing space left by the missing old value. */
  lemma TwoAddClasses(attrs: seq<(string, Obj)>, first: seq<string>, second: seq<string>)
    requires |first| > 0 && |second| > 0
    requires ClassIndex(attrs).None?
    ensures MergeClasses(attrs, first).Ok?
    ensures var once := MergeClasses(attrs, first).value;
      && MergeClasses(once, second).Ok?
      && var twice := MergeClasses(once, second).value;
      twice[|twice| - 1] == ("class", Str(JoinWithSpace(second) + " " + (JoinWithSpace(first) + " ")))
  {
    MergeWithoutClass(attrs, first);
    var once := attrs + [("class", Str(JoinWithSpace(first) + " "))];
    ClassIndexOfAppended(attrs, Str(JoinWithSpace(first) + " "));
    assert HeldClass(once) == Ok(JoinWithSpace(first) + " ");
    MergeClassesValue(once, second);
  }


  /** What one argument of WithContent becomes: a ProcRenderItem is invoked and its
      item kept unless that item's Value is null; a null argument throws; anything
      else is wrapped in a new RenderItem. */
  function ItemOf(arg: Obj): Result<Option<RenderItem>>
  {
    match arg
    case Null => Err(NotSupported)
    case ProcItem(r) => if r == Item(Null) then Ok(None) else Ok(Some(r))
    case _ => Ok(Some(Item(arg)))
  }

  /** The items AddRange appended, and the exception that interrupted it. */
  datatype Accepted = Accepted(items: seq<RenderItem>, failure: Option<Error>)

  /** AddRange over the lazy Select/Where: elements are appended one by one, so the
      items before a throwing argument stay appended. */
  function AcceptArgs(args: seq<Obj>): Accepted
  {
    if args == [] then Accepted([], None)
    else
      var prior := AcceptArgs(args[..|args| - 1]);
      if prior.failure.Some? then prior
      else
        match ItemOf(args[|args| - 1])
        case Err(e) => Accepted(prior.items, Some(e))
        case Ok(None) => prior
        case Ok(Some(r)) => Accepted(prior.items + [r], None)
  }

  /** Plain arguments are each wrapped once, in argument order. */
  lemma {:induction false} AcceptPlainArgs(args: seq<Obj>)
    requires forall i :: 0 <= i < |args| ==> !args[i].Null? && !args[i].ProcItem?
    ensures AcceptArgs(args) == Accepted(seq(|args|, i requires 0 <= i < |args| => Item(args[i])), None)
  {
    if args != [] {
      AcceptPlainArgs(args[..|args| - 1]);
    }
  }

  /** A null argument stops the call with NotSupported; what came before it is kept. */
  lemma {:induction false} AcceptStopsAtNull(args: seq<Obj>, k: nat)
    requires k < |args| && args[k].Null?
    requires forall i :: 0 <= i < k ==> !args[i].Null?
    ensures AcceptArgs(args) == Accepted(AcceptArgs(args[..k]).items, Some(NotSupported))
    decreases |args|
  {
    if k == |args| - 1 {
      NoFailureBeforeNull(args[..k]);
    } else {
      var init := args[..|args| - 1];
      assert init[..k] == args[..k];
      AcceptStopsAtNull(init, k);
    }
  }

  lemma {:induction false} NoFailureBeforeNull(args: seq<Obj>)
    requires forall i :: 0 <= i < |args| ==> !args[i].Null?
    ensures AcceptArgs(args).failure.None?
  {
    if args != [] {
      NoFailureBeforeNull(args[..|args| - 1]);
    }
  }

  /** WithContent never stores an item whose Value is null (a null item it may). */
  lemma {:induction false} AcceptedHaveValues(args: seq<Obj>)
    ensures Item(Null) !in AcceptArgs(args).items
  {
    if args != [] {
      AcceptedHaveValues(args[..|args| - 1]);
    }
  }

  class RenderFragmentGen {
    /** `Tag`: what the factory stored. */
    const identity: Option<Identity>
    /** Whether this is a `RenderFragmentGen<T>`, the only kind with Data. */
    const typed: bool
    var id: Option<string>
    var key: Option<string>
    var cssKey: Option<string>
    var listeners: seq<EventValue>
    var attributes: seq<(string, Obj)>
    var attributeCallbacks: seq<(string, CallbackId)>
    /** `ReferenceItem`, by the element reference it was created with. */
    var referenceItem: Option<ElementRef>
    /** `Contents`; None is the null list. */
    var contents: Option<seq<RenderItem>>
    var data: Option<DataId>

    /** A freshly constructed node: nothing set but what the factory passed. */
    predicate Blank()
      reads this
    {
      && id.None? && key.None? && cssKey.None?
      && listeners == [] && attributes == [] && attributeCallbacks == []
      && referenceItem.None? && contents.None? && data.None?
    }

    constructor (identity: Option<Identity>, typed: bool)
      ensures this.identity == identity && this.typed == typed && Blank()
    {
      this.identity := identity;
      this.typed := typed;
      id, key, cssKey := None, None, None;
      listeners, attributes, attributeCallbacks := [], [], [];
      referenceItem, contents, data := None, None, None;
    }

    /** Create<T>(tag): a node of kind `T` whose tag is `tag`. */
    static method CreateWithTag(tag: Option<string>, typedNode: bool) returns (n: RenderFragmentGen)
      ensures fresh(n) && n.identity == Some(Identity(tag, None)) && n.typed == typedNode && n.Blank()
    {
      n := new RenderFragmentGen(Some(Identity(tag, None)), typedNode);
    }

    /** FromComponent<T>(), Create<T>() and Create<T>(Type): a node standing for a
        component type; Create<T>() makes the typed kind. */
    static method CreateWithType(component: ComponentType, typedNode: bool) returns (n: RenderFragmentGen)
      ensures fresh(n) && n.identity == Some(Identity(None, Some(component))) && n.typed == typedNode && n.Blank()
    {
      n := new RenderFragmentGen(Some(Identity(None, Some(component))), typedNode);
    }

    function View(): NodeView
      reads this
    {
      NodeView(identity, typed, id, key, cssKey, listeners, attributes, attributeCallbacks, referenceItem, data)
    }

    function ContentsOrEmpty(): seq<RenderItem>
      reads this
    {
      if contents.Some? then contents.value else []
    }

    /** The getter GetRenderFragment: it throws for an identity with no open/close
        pair; otherwise it captures the pair and a copy of the contents as they are
        now. */
    function GetRenderFragment(): (r: Result<Fragment>)
      reads this
      ensures r.Err? <==> OpenCloseOf(identity).Err?
      ensures r.Err? ==> r.error == KeyNotFound
      ensures r.Ok? ==> r.value.NodeFragment? && r.value.node == this
      ensures r.Ok? ==> Ok(r.value.openClose) == OpenCloseOf(identity) && r.value.contents == ContentsOrEmpty()
    {
      match OpenCloseOf(identity)
      case Err(e) => Err(e)
      case Ok(oc) => Ok(NodeFragment(this, oc, ContentsOrEmpty()))
    }

    /** AddEventListener(items): each item's deconstruction joins the listeners. */
    method AddEventListener(items: seq<EventCallbackItem>)
      modifies this`listeners
      ensures listeners == old(listeners) + EventValues(items)
    {
      listeners := listeners + EventValues(items);
    }

    method AddBoundAttribute(name: string, callback: CallbackId)
      modifies this`attributeCallbacks
      ensures attributeCallbacks == old(attributeCallbacks) + [(name, callback)]
    {
      attributeCallbacks := attributeCallbacks + [(name, callback)];
    }

    method AddAttributes(attrs: seq<(string, Obj)>)
      modifies this`attributes
      ensures attributes == old(attributes) + attrs
    {
      attributes := attributes + attrs;
    }

    /** AddClasses(names): see MergeClasses; on a failed cast nothing changes. */
    method AddClasses(classNames: seq<string>) returns (outcome: Outcome)
      modifies this`attributes
      ensures var merged := MergeClasses(old(attributes), classNames);
        && (merged.Ok? ==> outcome == Pass && attributes == merged.value)
        && (merged.Err? ==> outcome == Fail(merged.error) && attributes == old(attributes))
    {
      if |classNames| == 0 {
        return Pass;
      }
      var i := 0;
      while i < |attributes| && attributes[i].0 != "class"
        invariant 0 <= i <= |attributes|
        invariant forall j :: 0 <= j < i ==> attributes[j].0 != "class"
      {
        i := i + 1;
      }
      var held := "";
      if i < |attributes| {
        match attributes[i].1 {
          case Str(s) => held := s;
          case Null =>
          case _ => return Fail(InvalidCast);
        }
        attributes := attributes[..i] + attributes[i + 1..];
      }
      AddAttributes([("class", Str(JoinWithSpace(classNames + [held])))]);
      return Pass;
    }

    method SetId(newId: Option<string>)
      modifies this`id
      ensures id == newId
    {
      id := newId;
    }

    method SetKey(newKey: Option<string>)
      modifies this`key
      ensures key == newKey
    {
      key := newKey;
    }

    /** SetRef(reference): a new RefItem holding the reference. */
    method SetRef(reference: ElementRef)
      modifies this`referenceItem
      ensures referenceItem == Some(reference)
    {
      referenceItem := Some(reference);
    }

    /** SetData(data), on the typed kind only. */
    method SetData(d: Option<DataId>)
      requires typed
      modifies this`data
      ensures data == d
    {
      data := d;
    }

    /** WithContent(args): no arguments change nothing; otherwise the list is created
        if needed and the accepted items appended, up to a throwing argument. */
    method WithContent(args: seq<Obj>) returns (outcome: Outcome)
      modifies this`contents
      ensures |args| == 0 ==> contents == old(contents) && outcome == Pass
      ensures |args| > 0 ==>
        var acc := AcceptArgs(args);
        && contents == Some((if old(contents).Some? then old(contents).value else []) + acc.items)
        && outcome == (if acc.failure.Some? then Fail(acc.failure.value) else Pass)
    {
      if |args| == 0 {
        return Pass;
      }
      if contents.None? {
        contents := Some([]);
      }
      ghost var start := contents.value;
      assert args[..0] == [];
      assert AcceptArgs(args[..0]) == Accepted([], None);
      assert contents == Some(start);
      assert start + [] == start;
      var i := 0;
      while i < |args|
        invariant 0 <= i <= |args|
        invariant AcceptArgs(args[..i]).failure.None?
        invariant contents == Some(start + AcceptArgs(args[..i]).items)
      {
        assert args[..i + 1][..i] == args[..i];
        assert args[..i + 1][i] == args[i];
        var next := ItemOf(args[i]);
        match next {
          case Err(e) =>
            AcceptStopsHere(args, i + 1);
            return Fail(e);
          case Ok(r) =>
            ghost var prior := AcceptArgs(args[..i]).items;
            assert AcceptArgs(args[..i + 1]).items == if r.Some? then prior + [r.value] else prior;
            if r.Some? {
              contents := Some(contents.value + [r.value]);
              assert contents.value == start + (prior + [r.value]);
            }
        }
        i := i + 1;
      }
      assert args[..i] == args;
      return Pass;
    }

    /** SvgElement.WithPath(value): a non-empty `d` adds a `path` child carrying it. */
    method WithPath(d: Option<string>) returns (ghost path: RenderFragmentGen?)
      modifies this`contents
      ensures d.Some? && |d.value| > 0 ==>
        && path != null && fresh(path)
        && path.identity == Some(Identity(Some("path"), None))
        && path.attributes == [("d", Str(d.value))]
        && contents == Some((if old(contents).Some? then old(contents).value else []) + [Item(NodeObj(path))])
      ensures !(d.Some? && |d.value| > 0) ==> path == null && contents == old(contents)
    {
      path := null;
      if d.Some? && |d.value| > 0 {
        var p := CreateWithTag(Some("path"), false);
        p.AddAttributes([("d", Str(d.value))]);
        assert [NodeObj(p)][..0] == [];
        assert AcceptArgs([NodeObj(p)]) == Accepted([Item(NodeObj(p))], None);
        var _ := WithContent([NodeObj(p)]);
        path := p;
      }
    }

    /** The calls before the content loop, with `cssKey` already updated. */
    method EmitHeader(oc: OpenClose, guards: PredicateId -> bool) returns (log: seq<Instr>, counter: nat, ghost ops: seq<Op>)
      ensures ops == HeaderOps(View(), oc, cssKey, guards)
      ensures Tracks(log, counter, ops)
    {
      log, counter, ops := EmitOpening(oc);
      log, counter, ops := EmitAll(BoundOps(attributeCallbacks), log, counter, ops);
      log, counter, ops := EmitAll(GetAttributes(View(), guards), log, counter, ops);
      log, counter, ops := EmitScopeAndReference(oc, log, counter, ops);
    }

    /** Open, then the key, then the id. */
    method EmitOpening(oc: OpenClose) returns (log: seq<Instr>, counter: nat, ghost ops: seq<Op>)
      ensures ops == [Open(oc)]
        + (if key.Some? then [Op.SetKey(key.value)] else [])
        + (if id.Some? then [Attribute("id", Value(Str(id.value)))] else [])
      ensures Tracks(log, counter, ops)
    {
      log, counter, ops := Emit([], 0, [], Open(oc));
      if key.Some? {
        log, counter, ops := Emit(log, counter, ops, Op.SetKey(key.value));
      }
      if id.Some? {
        log, counter, ops := Emit(log, counter, ops, Attribute("id", Value(Str(id.value))));
      }
    }

    /** The scope attribute of an element, then the reference capture. */
    method EmitScopeAndReference(oc: OpenClose, log: seq<Instr>, counter: nat, ghost ops: seq<Op>)
      returns (log': seq<Instr>, counter': nat, ghost ops': seq<Op>)
      requires Tracks(log, counter, ops)
      ensures ops' == ops
        + (if oc.ElementOC? && cssKey.Some? && |cssKey.value| > 0 then [Attribute(cssKey.value, Flag(true))] else [])
        + (if referenceItem.Some? then [ReferenceCapture] else [])
      ensures Tracks(log', counter', ops')
    {
      log', counter', ops' := log, counter, ops;
      if oc.ElementOC? && cssKey.Some? && |cssKey.value| > 0 {
        log', counter', ops' := Emit(log', counter', ops', Attribute(cssKey.value, Flag(true)));
      }
      if referenceItem.Some? {
        log', counter', ops' := Emit(log', counter', ops', ReferenceCapture);
      }
    }

    /** Invoking the fragment `snap` of this node on the host builder, whose frame
        buffer is `frames`: the log is the numbered FragmentRun of the node as it was,
        and an element node caches the CSS key found. */
    method Render(snap: Fragment, frames: seq<Frame>, env: Env) returns (log: seq<Instr>, failure: Option<Error>)
      requires snap.NodeFragment? && snap.node == this && OpenCloseOf(identity) == Ok(snap.openClose)
      modifies this`cssKey
      ensures cssKey == EffectiveCssKey(old(cssKey), snap.openClose, frames)
      ensures var run := FragmentRun(old(View()), snap.openClose, snap.contents, frames, env);
        log == Number(run.ops, 0) && failure == run.failure
    {
      var oc := snap.openClose;
      if oc.ElementOC? {
        var found := GetCssKey(frames);
        cssKey := if found.Some? then found else cssKey;
      }
      var counter;
      ghost var ops;
      log, counter, ops := EmitHeader(oc, env.guards);
      assert ops == HeaderOps(old(View()), oc, EffectiveCssKey(old(cssKey), oc, frames), env.guards);
      log, counter, ops, failure := EmitContents(snap.contents, env, log, counter, ops);
      if failure.None? {
        log, counter, ops := Emit(log, counter, ops, Close(oc));
      }
    }
  }

  lemma {:induction false} AcceptStopsHere(args: seq<Obj>, k: nat)
    requires k <= |args| && AcceptArgs(args[..k]).failure.Some?
    ensures AcceptArgs(args) == AcceptArgs(args[..k])
    decreases |args|
  {
    if k < |args| {
      var init := args[..|args| - 1];
      assert init[..k] == args[..k];
      AcceptStopsHere(init, k);
    } else {
      assert args[..k] == args;
    }
  }

  /** `Select(GetEventValueFromEventCallbackItem)` over the items. */
  function EventValues(items: seq<EventCallbackItem>): (r: seq<EventValue>)
    reads set e | e in items
    ensures |r| == |items|
    ensures forall i :: 0 <= i < |items| ==> r[i] == items[i].Deconstruct()
  {
    if items == [] then [] else [items[0].Deconstruct()] + EventValues(items[1..])
  }

  /** A region holding a markup child and a span: open, markup and the span's own
      fragment are numbered 0, 1, 2, and the close call is unnumbered. */
  method RegionExample(env: Env) returns (log: seq<Instr>, failure: Option<Error>)
    ensures failure.None?
    ensures exists span: RenderFragmentGen ::
      log == [At(0, Open(RegionOC)), At(1, MarkupContent("<b>hi</b>")),
              At(2, Content(FragmentObj(NodeFragment(span, ElementOC("span"), [])))),
              Unnumbered(Close(RegionOC))]
  {
    var region := new RenderFragmentGen(Some(Identity(None, None)), false);
    var span := RenderFragmentGen.CreateWithTag(Some("span"), false);
    RegionArgs("<b>hi</b>", span);
    var _ := region.WithContent([Markup("<b>hi</b>"), NodeObj(span)]);
    var snap := region.GetRenderFragment();
    ghost var v := region.View();
    assert snap.value.contents == [Item(Markup("<b>hi</b>")), Item(NodeObj(span))];
    log, failure := region.Render(snap.value, [], env);
    RegionLog(v, "<b>hi</b>", span, env);
  }

  lemma RegionArgs(html: string, span: RenderFragmentGen)
    ensures AcceptArgs([Markup(html), NodeObj(span)]) == Accepted([Item(Markup(html)), Item(NodeObj(span))], None)
  {
    var args := [Markup(html), NodeObj(span)];
    assert args[..1] == [Markup(html)] && args[..1][..0] == [];
    assert AcceptArgs(args[..1][..0]) == Accepted([], None);
    assert AcceptArgs(args[..1]) == Accepted([Item(Markup(html))], None);
  }

  lemma RegionContent(html: string, span: RenderFragmentGen, env: Env)
    requires span.identity == Some(Identity(Some("span"), None)) && span.contents.None?
    ensures ContentRun([Item(Markup(html)), Item(NodeObj(span))], env)
      == Emitted([MarkupContent(html), Content(FragmentObj(NodeFragment(span, ElementOC("span"), [])))], None)
  {
    var items := [Item(Markup(html)), Item(NodeObj(span))];
    assert items[..1] == [Item(Markup(html))] && items[..1][..0] == [];
    assert ContentRun(items[..1][..0], env) == Emitted([], None);
    assert ContentRun(items[..1], env) == Emitted([MarkupContent(html)], None);
    assert span.GetRenderFragment() == Ok(NodeFragment(span, ElementOC("span"), []));
    assert ItemRun(items[1], env) == Emitted([Content(FragmentObj(NodeFragment(span, ElementOC("span"), [])))], None);
  }

  lemma RegionHeader(v: NodeView, env: Env)
    requires v == NodeView(Some(Identity(None, None)), false, None, None, None, [], [], [], None, None)
    ensures HeaderOps(v, RegionOC, EffectiveCssKey(v.cssKey, RegionOC, []), env.guards) == [Open(RegionOC)]
  {
    assert BoundOps([]) == [] && StaticOps([]) == [];
    assert GetAttributes(v, env.guards) == [];
  }

  lemma RegionRun(v: NodeView, html: string, span: RenderFragmentGen, env: Env)
    requires v == NodeView(Some(Identity(None, None)), false, None, None, None, [], [], [], None, None)
    requires span.identity == Some(Identity(Some("span"), None)) && span.contents.None?
    ensures FragmentRun(v, RegionOC, [Item(Markup(html)), Item(NodeObj(span))], [], env)
      == Emitted([Open(RegionOC), MarkupContent(html),
                  Content(FragmentObj(NodeFragment(span, ElementOC("span"), []))), Close(RegionOC)], None)
  {
    RegionContent(html, span, env);
    RegionHeader(v, env);
  }

  lemma RegionNumbered(html: string, f: Obj)
    ensures Number([Open(RegionOC), MarkupContent(html), Content(f), Close(RegionOC)], 0)
      == [At(0, Open(RegionOC)), At(1, MarkupContent(html)), At(2, Content(f)), Unnumbered(Close(RegionOC))]
  {
    var ops := [Open(RegionOC), MarkupContent(html), Content(f), Close(RegionOC)];
    assert ops[1..][1..][1..][1..] == [];
    assert Number(ops[1..][1..][1..], 3) == [Unnumbered(Close(RegionOC))];
    assert Number(ops[1..][1..], 2) == [At(2, Content(f)), Unnumbered(Close(RegionOC))];
    assert Number(ops[1..], 1) == [At(1, MarkupContent(html)), At(2, Content(f)), Unnumbered(Close(RegionOC))];
  }

  lemma RegionLog(v: NodeView, html: string, span: RenderFragmentGen, env: Env)
    requires v == NodeView(Some(Identity(None, None)), false, None, None, None, [], [], [], None, None)
    requires span.identity == Some(Identity(Some("span"), None)) && span.contents.None?
    ensures Number(FragmentRun(v, RegionOC, [Item(Markup(html)), Item(NodeObj(span))], [], env).ops, 0)
      == [At(0, Open(RegionOC)), At(1, MarkupContent(html)),
          At(2, Content(FragmentObj(NodeFragment(span, ElementOC("span"), [])))),
          Unnumbered(Close(RegionOC))]
    ensures FragmentRun(v, RegionOC, [Item(Markup(html)), Item(NodeObj(span))], [], env).failure.None?
  {
    RegionRun(v, html, span, env);
    RegionNumbered(html, FragmentObj(NodeFragment(span, ElementOC("span"), [])));
  }

  /** The fragment captures the contents when it is obtained: content added
      afterwards is not rendered by it. */
  method SnapshotBeforeContent(env: Env) returns (log: seq<Instr>)
    ensures log == [At(0, Open(ElementOC("div"))), Unnumbered(Close(ElementOC("div")))]
  {
    var div := RenderFragmentGen.CreateWithTag(Some("div"), false);
    var snap := div.GetRenderFragment();
    var _ := div.WithContent([Str("late")]);
    assert GetCssKey([]) == None;
    var failure;
    log, failure := div.Render(snap.value, [], env);
  }
}
