/** The predefined event items and removal of a handler from a registration held in a
    hash set. */
module EventItems {
  import opened Common
  import opened Eventing

  /** The payload types of the predefined items. */
  const MouseEventArgs: TypeId := 1
  const KeyboardEventArgs: TypeId := 2
  const FocusEventArgs: TypeId := 3
  const ChangeEventArgs: TypeId := 4

  /** CreateDefaultItem<Args>(propertyName): a fresh item named after the calling
      property, lower-cased, with no handlers and no guards. */
  method CreateDefaultItem(propertyName: string, args: TypeId) returns (item: EventCallbackItem)
    ensures fresh(item)
    ensures item.eventName == Lower(propertyName) && item.argsType == args
    ensures item.chain == [] && item.preventDefault == None && item.stopPropagation == None
  {
    item := new EventCallbackItem(Lower(propertyName), args);
  }

  /** The static properties of EventCallbackItems. */
  datatype Predefined =
    | OnMouseDown | OnMouseUp | OnClick | OnKeyDown | OnKeyUp
    | OnBlur | OnFocus | OnFocusIn | OnFocusOut | OnChange | OnInput

  /** The property's own name, which `[CallerMemberName]` passes to CreateDefaultItem. */
  function PropertyName(p: Predefined): string
  {
    match p
    case OnMouseDown => "OnMouseDown"
    case OnMouseUp => "OnMouseUp"
    case OnClick => "OnClick"
    case OnKeyDown => "OnKeyDown"
    case OnKeyUp => "OnKeyUp"
    case OnBlur => "OnBlur"
    case OnFocus => "OnFocus"
    case OnFocusIn => "OnFocusIn"
    case OnFocusOut => "OnFocusOut"
    case OnChange => "OnChange"
    case OnInput => "OnInput"
  }

  function ArgsOf(p: Predefined): TypeId
  {
    match p
    case OnMouseDown | OnMouseUp | OnClick => MouseEventArgs
    case OnKeyDown | OnKeyUp => KeyboardEventArgs
    case OnBlur | OnFocus | OnFocusIn | OnFocusOut => FocusEventArgs
    case OnChange | OnInput => ChangeEventArgs
  }

  /** The DOM event names the host expects for these properties. */
  function DomEventName(p: Predefined): string
  {
    match p
    case OnMouseDown => "onmousedown"
    case OnMouseUp => "onmouseup"
    case OnClick => "onclick"
    case OnKeyDown => "onkeydown"
    case OnKeyUp => "onkeyup"
    case OnBlur => "onblur"
    case OnFocus => "onfocus"
    case OnFocusIn => "onfocusin"
    case OnFocusOut => "onfocusout"
    case OnChange => "onchange"
    case OnInput => "oninput"
  }

  /** Reading a predefined property creates a fresh default item each time. */
  method PredefinedItem(p: Predefined) returns (item: EventCallbackItem)
    ensures fresh(item)
    ensures item.eventName == DomEventName(p) && item.argsType == ArgsOf(p)
    ensures item.chain == [] && item.preventDefault == None && item.stopPropagation == None
  {
    PredefinedNameIsDomName(p);
    item := CreateDefaultItem(PropertyName(p), ArgsOf(p));
  }

  /** Lower-casing each property name gives the DOM event name. */
  lemma PredefinedNameIsDomName(p: Predefined)
    ensures Lower(PropertyName(p)) == DomEventName(p)
  {
    LowerMatches(PropertyName(p), DomEventName(p));
  }

  lemma {:induction false} LowerMatches(s: string, t: string)
    requires |s| == |t|
    requires forall i :: 0 <= i < |s| ==> LowerChar(s[i]) == t[i]
    ensures Lower(s) == t
  {
    if s != [] {
      LowerMatches(s[1..], t[1..]);
      assert t == [t[0]] + t[1..];
    }
  }

  /** What a HashSet guarantees of its members: no two distinct members are Equal. */
  predicate IsHashSet(s: set<EventCallbackItem>)
  {
    forall a, b :: a in s && b in s && a.Equals(b) ==> a == b
  }

  /** `Delegate.Remove(chain, action)`: a null action changes nothing; otherwise the
      last entry that is that very delegate goes. Closures made by Add and Add<A> are
      never equal to the action they wrap. */
  function RemoveDelegate(chain: seq<Entry>, action: Option<HandlerId>): (r: seq<Entry>)
    ensures action.None? || Direct(action.value) !in chain ==> r == chain
  {
    if action.None? then chain
    else
      match LastIndexOf(chain, Direct(action.value))
      case None => chain
      case Some(i) => chain[..i] + chain[i + 1..]
  }

  function LastIndexOf(chain: seq<Entry>, e: Entry): (r: Option<nat>)
    ensures r.None? <==> e !in chain
    ensures r.Some? ==> r.value < |chain| && chain[r.value] == e && e !in chain[r.value + 1..]
  {
    if chain == [] then None
    else if chain[|chain| - 1] == e then Some(|chain| - 1)
    else
      var r := LastIndexOf(chain[..|chain| - 1], e);
      assert chain == chain[..|chain| - 1] + [chain[|chain| - 1]];
      if r.Some? then
        assert chain[r.value + 1..] == chain[..|chain| - 1][r.value + 1..] + [chain[|chain| - 1]];
        r
      else r
  }

  /** Removal takes away exactly one occurrence of the action, the last one, and keeps
      every other delegate in its order, including those Add wrapped around the same
      action. */
  lemma RemoveDelegateCounts(chain: seq<Entry>, action: HandlerId)
    ensures Direct(action) in chain ==>
      multiset(RemoveDelegate(chain, Some(action))) == multiset(chain) - multiset{Direct(action)}
    ensures Direct(action) in chain ==>
      exists i :: 0 <= i < |chain| && chain[i] == Direct(action) && Direct(action) !in chain[i + 1..]
        && RemoveDelegate(chain, Some(action)) == chain[..i] + chain[i + 1..]
    ensures Direct(action) !in chain ==> RemoveDelegate(chain, Some(action)) == chain
  {
    var found := LastIndexOf(chain, Direct(action));
    if found.Some? {
      var i := found.value;
      var r := RemoveDelegate(chain, Some(action));
      assert r == chain[..i] + chain[i + 1..];
      assert chain == chain[..i] + [chain[i]] + chain[i + 1..];
      calc {
        multiset(chain);
        multiset(chain[..i]) + multiset{chain[i]} + multiset(chain[i + 1..]);
        multiset(r) + multiset{Direct(action)};
      }
    }
  }

  /** RemoveEventListener(source, item, action): a null set gives null; otherwise the
      member Equal to `item`, if there is one and its chain is not null, loses one
      occurrence of `action`. The set itself is returned, with the same members. */
  method RemoveEventListener(source: Option<set<EventCallbackItem>>, item: EventCallbackItem, action: Option<HandlerId>)
    returns (r: Option<set<EventCallbackItem>>)
    requires source.Some? ==> IsHashSet(source.value)
    modifies if source.Some? then source.value else {}
    ensures r == source
    ensures source.Some? ==> forall e :: e in source.value ==>
      && e.chain == (if e.Equals(item) then RemoveDelegate(old(e.chain), action) else old(e.chain))
      && e.preventDefault == old(e.preventDefault)
      && e.stopPropagation == old(e.stopPropagation)
  {
    if source.None? {
      return None;
    }
    var members := source.value;
    if e :| e in members && e.Equals(item) {
      forall x | x in members && x.Equals(item) ensures x == e {
        assert x.Equals(e);
      }
      if e.chain != [] {
        e.chain := RemoveDelegate(e.chain, action);
      }
    }
    return source;
  }
}
