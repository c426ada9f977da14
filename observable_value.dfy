/** `ObservableValue<T>`: one stored value whose setter skips a value equal to the
    current one and otherwise stores it and notifies every subscriber, with integer
    increment and decrement written back through that setter. */
module Observable {
  import opened Common
  import opened Eventing

  newtype int32 = x: int | -0x8000_0000 <= x < 0x8000_0000
  newtype int64 = x: int | -0x8000_0000_0000_0000 <= x < 0x8000_0000_0000_0000

  /** Two's-complement wrap-around of an integer into 32 bits, as unchecked C#
      arithmetic on an int does. */
  function Wrap32(n: int): (r: int)
    ensures -0x8000_0000 <= r < 0x8000_0000
    ensures (r - n) % 0x1_0000_0000 == 0
    ensures -0x8000_0000 <= n < 0x8000_0000 ==> r == n
  {
    (n + 0x8000_0000) % 0x1_0000_0000 - 0x8000_0000
  }

  /** The same into 64 bits, for a long. */
  function Wrap64(n: int): (r: int)
    ensures -0x8000_0000_0000_0000 <= r < 0x8000_0000_0000_0000
    ensures (r - n) % 0x1_0000_0000_0000_0000 == 0
    ensures -0x8000_0000_0000_0000 <= n < 0x8000_0000_0000_0000 ==> r == n
  {
    (n + 0x8000_0000_0000_0000) % 0x1_0000_0000_0000_0000 - 0x8000_0000_0000_0000
  }

  /** `++x` on an int. */
  function Inc32(x: int32): (r: int32)
    ensures r as int == Wrap32(x as int + 1)
  {
    if x == 0x7fff_ffff then -0x8000_0000 else x + 1
  }

  /** `--x` on an int. */
  function Dec32(x: int32): (r: int32)
    ensures r as int == Wrap32(x as int - 1)
  {
    if x == -0x8000_0000 then 0x7fff_ffff else x - 1
  }

  /** `++x` on a long. */
  function Inc64(x: int64): (r: int64)
    ensures r as int == Wrap64(x as int + 1)
  {
    if x == 0x7fff_ffff_ffff_ffff then -0x8000_0000_0000_0000 else x + 1
  }

  /** `--x` on a long. */
  function Dec64(x: int64): (r: int64)
    ensures r as int == Wrap64(x as int - 1)
  {
    if x == -0x8000_0000_0000_0000 then 0x7fff_ffff_ffff_ffff else x - 1
  }

  /** The runtime value held: a boxed int, a boxed long, or any other object, which
      is equal to another exactly when their ids agree. */
  datatype Val = I32(i: int32) | I64(l: int64) | Obj(id: nat)

  /** The type argument `T`: int or long (non-nullable value types, whose default is
      0), or a type whose default is null (a reference type or a nullable value type,
      which may hold any value). */
  datatype TypeParam = Int32Type | Int64Type | NullableType

  /** `default(T)`, the initial contents of BackingField. */
  function DefaultOf(t: TypeParam): Option<Val>
  {
    match t
    case Int32Type => Some(I32(0))
    case Int64Type => Some(I64(0))
    case NullableType => None
  }

  /** Which values a variable of type `T` can hold; None is null. */
  predicate Admits(t: TypeParam, v: Option<Val>)
  {
    match t
    case Int32Type => v.Some? && v.value.I32?
    case Int64Type => v.Some? && v.value.I64?
    case NullableType => true
  }

  /** `object.Equals(a, b)`: two nulls are equal, a null and a value are not, and two
      values compare by type and contents. */
  predicate ObjectEquals(a: Option<Val>, b: Option<Val>)
  {
    a == b
  }

  /** `BackingField?.Equals(value) == true`: only a non-null stored value that equals
      the new one makes the setter skip. */
  predicate SetterSkips(stored: Option<Val>, value: Option<Val>)
  {
    stored.Some? && value.Some? && stored.value == value.value
  }

  /** The value `++` stores, or the exception it throws. */
  function Incremented(v: Option<Val>): (r: Result<Val>)
    ensures r.Err? <==> v.None? || v.value.Obj?
    ensures r.Err? ==> r.error == InvalidOperation
  {
    if v.None? then Err(InvalidOperation)
    else
      match v.value
      case I32(x) => Ok(I32(Inc32(x)))
      case I64(x) => Ok(I64(Inc64(x)))
      case Obj(_) => Err(InvalidOperation)
  }

  /** The value `--` stores, or the exception it throws. */
  function Decremented(v: Option<Val>): (r: Result<Val>)
    ensures r.Err? <==> v.None? || v.value.Obj?
    ensures r.Err? ==> r.error == InvalidOperation
  {
    if v.None? then Err(InvalidOperation)
    else
      match v.value
      case I32(x) => Ok(I32(Dec32(x)))
      case I64(x) => Ok(I64(Dec64(x)))
      case Obj(_) => Err(InvalidOperation)
  }

  /** `--` undoes `++` and `++` undoes `--`, across the wrap-around as well. */
  lemma IncDecInverse(v: Val)
    requires !v.Obj?
    ensures Incremented(Some(v)).Ok? && Decremented(Some(Incremented(Some(v)).value)) == Ok(v)
    ensures Decremented(Some(v)).Ok? && Incremented(Some(Decremented(Some(v)).value)) == Ok(v)
  {
  }

  /** `++` and `--` always store a value different from the current one, so the
      setter never skips them. */
  lemma {:induction false} StepChanges(v: Val)
    requires !v.Obj?
    ensures Incremented(Some(v)).value != v && Decremented(Some(v)).value != v
    ensures !SetterSkips(Some(v), Some(Incremented(Some(v)).value))
    ensures !SetterSkips(Some(v), Some(Decremented(Some(v)).value))
  {
  }

  /** Away from the bounds, `++` and `--` add and subtract one. */
  lemma {:induction false} StepWithoutOverflow(x: int32, y: int64)
    ensures x as int < 0x7fff_ffff ==> Inc32(x) as int == x as int + 1
    ensures x as int > -0x8000_0000 ==> Dec32(x) as int == x as int - 1
    ensures y as int < 0x7fff_ffff_ffff_ffff ==> Inc64(y) as int == y as int + 1
    ensures y as int > -0x8000_0000_0000_0000 ==> Dec64(y) as int == y as int - 1
  {
  }

  /** What `Equals(object)` can be handed: null, an `ObservableValue<T>` holding some
      value, a non-null `T`, or anything else. */
  datatype Operand = NullOperand | OfObservable(value: Option<Val>) | OfT(v: Val) | Unrelated

  /** One call of a subscriber: the key and the value handed to it. */
  datatype Delivery = Delivery(handler: HandlerId, key: Option<string>, value: Option<Val>)

  /** Invoking the multicast event calls each subscriber in subscription order. */
  function Deliveries(handlers: seq<HandlerId>, key: Option<string>, value: Option<Val>): (r: seq<Delivery>)
    ensures |r| == |handlers|
    ensures forall k :: 0 <= k < |r| ==> r[k] == Delivery(handlers[k], key, value)
  {
    if handlers == [] then [] else [Delivery(handlers[0], key, value)] + Deliveries(handlers[1..], key, value)
  }

  class ObservableValue {
    const typeParam: TypeParam
    /** BackingField. */
    var backing: Option<Val>
    /** The subscribers of ChangedEventHandler, in subscription order. */
    var handlers: seq<HandlerId>
    /** Every subscriber call made so far. */
    var delivered: seq<Delivery>

    predicate Valid()
      reads this
    {
      Admits(typeParam, backing)
    }

    /** `new ObservableValue<T>()`: BackingField holds `default(T)`. */
    constructor Empty(t: TypeParam)
      ensures typeParam == t && backing == DefaultOf(t) && Valid()
      ensures handlers == [] && delivered == []
    {
      typeParam := t;
      backing := DefaultOf(t);
      handlers := [];
      delivered := [];
    }

    /** `new ObservableValue<T>(value)`: assigns through the setter, which has no
        subscriber to notify yet. */
    constructor (t: TypeParam, value: Option<Val>)
      requires Admits(t, value)
      ensures typeParam == t && backing == value && Valid()
      ensures handlers == [] && delivered == []
    {
      typeParam := t;
      backing := DefaultOf(t);
      handlers := [];
      delivered := [];
      new;
      SetValue(value);
    }

    /** The Value getter. */
    function GetValue(): (r: Option<Val>)
      reads this
      ensures Valid() ==> Admits(typeParam, r)
    {
      backing
    }

    /** `ChangedEventHandler += h`. */
    method Subscribe(h: HandlerId)
      modifies this`handlers
      ensures handlers == old(handlers) + [h]
    {
      handlers := handlers + [h];
    }

    /** OnChangeOccur(key, value): every subscriber is called with the pair. */
    method OnChangeOccur(key: Option<string>, value: Option<Val>)
      modifies this`delivered
      ensures delivered == old(delivered) + Deliveries(handlers, key, value)
    {
      var k := 0;
      while k < |handlers|
        invariant 0 <= k <= |handlers|
        invariant delivered == old(delivered) + Deliveries(handlers[..k], key, value)
      {
        DeliveriesSnoc(handlers, k, key, value);
        delivered := delivered + [Delivery(handlers[k], key, value)];
        k := k + 1;
      }
      assert handlers[..k] == handlers;
    }

    /** The Value setter: a value equal to the current non-null one changes nothing;
        any other value is stored and reported under the key "Value". */
    method SetValue(value: Option<Val>)
      requires Admits(typeParam, value)
      modifies this`backing, this`delivered
      ensures Valid()
      ensures SetterSkips(old(backing), value) ==> backing == old(backing) && delivered == old(delivered)
      ensures !SetterSkips(old(backing), value) ==>
        backing == value && delivered == old(delivered) + Deliveries(handlers, Some("Value"), value)
    {
      if SetterSkips(backing, value) {
        return;
      }
      backing := value;
      OnChangeOccur(Some("Value"), value);
    }

    /** `++`: a null value, or one that is not an int or a long, throws and changes
        nothing; otherwise the successor is assigned through the setter. */
    method Increment() returns (r: Outcome)
      requires Valid()
      modifies this`backing, this`delivered
      ensures Valid()
      ensures var next := Incremented(old(backing));
        && (next.Err? ==> r == Fail(next.error) && backing == old(backing) && delivered == old(delivered))
        && (next.Ok? ==>
              r == Pass && backing == Some(next.value)
              && delivered == old(delivered) + Deliveries(handlers, Some("Value"), Some(next.value)))
    {
      var next := Incremented(backing);
      if next.Err? {
        return Fail(next.error);
      }
      StepChanges(backing.value);
      SetValue(Some(next.value));
      return Pass;
    }

    /** `--`, the mirror image of `++`. */
    method Decrement() returns (r: Outcome)
      requires Valid()
      modifies this`backing, this`delivered
      ensures Valid()
      ensures var next := Decremented(old(backing));
        && (next.Err? ==> r == Fail(next.error) && backing == old(backing) && delivered == old(delivered))
        && (next.Ok? ==>
              r == Pass && backing == Some(next.value)
              && delivered == old(delivered) + Deliveries(handlers, Some("Value"), Some(next.value)))
    {
      var next := Decremented(backing);
      if next.Err? {
        return Fail(next.error);
      }
      StepChanges(backing.value);
      SetValue(Some(next.value));
      return Pass;
    }

    /** Equals(object): against another observable or a raw `T`, whether the stored
        values are equal; false for null and anything else. */
    function Equals(obj: Operand): (r: bool)
      reads this
      ensures r <==>
        (obj.OfObservable? && ObjectEquals(backing, obj.value)) || (obj.OfT? && backing == Some(obj.v))
    {
      match obj
      case OfObservable(o) => ObjectEquals(backing, o)
      case OfT(o) => ObjectEquals(backing, Some(o))
      case _ => false
    }

    /** ToString(): null when the value is null, else the value's own text, which
        `show` gives. */
    function ToString(show: Val -> string): (r: Option<string>)
      reads this
      ensures r.None? <==> backing.None?
      ensures r.Some? ==> r.value == show(backing.value)
    {
      if backing.None? then None else Some(show(backing.value))
    }
  }

  lemma {:induction false} DeliveriesSnoc(handlers: seq<HandlerId>, k: nat, key: Option<string>, value: Option<Val>)
    requires k < |handlers|
    ensures Deliveries(handlers[..k + 1], key, value) == Deliveries(handlers[..k], key, value) + [Delivery(handlers[k], key, value)]
  {
    var a := Deliveries(handlers[..k + 1], key, value);
    var b := Deliveries(handlers[..k], key, value) + [Delivery(handlers[k], key, value)];
    assert |a| == |b|;
    forall j | 0 <= j < |a| ensures a[j] == b[j] {
    }
  }

  /** Reading Value right after assigning it gives the value just assigned; a second
      assignment of the same non-null value notifies nobody, while null notifies
      every time. */
  method SetTwice(o: ObservableValue, value: Option<Val>) returns (read: Option<Val>)
    requires Admits(o.typeParam, value)
    modifies o
    ensures read == value
    ensures value.Some? ==>
      o.delivered == old(o.delivered) + (if SetterSkips(old(o.backing), value) then [] else Deliveries(o.handlers, Some("Value"), value))
    ensures value.None? ==>
      o.delivered == old(o.delivered) + Deliveries(o.handlers, Some("Value"), None) + Deliveries(o.handlers, Some("Value"), None)
  {
    o.SetValue(value);
    o.SetValue(value);
    read := o.GetValue();
  }

  /** An observable and its stored value, or another observable holding the same
      value, are Equal. */
  lemma EqualsItsValue(o: ObservableValue, p: ObservableValue)
    ensures o.backing.Some? ==> o.Equals(OfT(o.backing.value))
    ensures o.Equals(OfObservable(p.backing)) <==> o.backing == p.backing
    ensures !o.Equals(NullOperand) && !o.Equals(Unrelated)
  {
  }
}
