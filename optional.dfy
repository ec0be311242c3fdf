/** `keel::Optional<T>`: a container that is either empty or holds one T in inline storage.

    The class keeps the two fields of the C++ class: the storage `value` and the presence
    flag `hasValue`.  The ghost log `events` records every T constructed into and destroyed
    in the storage; `Valid()` is the container's invariant, that the flag is set exactly
    when the storage holds a live T. */
module Keel {
  import opened Lifetime

  /** The abstract value of an Optional. */
  datatype State<T> = Empty | Holding(value: T) {

    /** `==` on Optionals, given T's `==`: both empty, or both holding values `eq` relates. */
    predicate EqualUnder(other: State<T>, eq: (T, T) -> bool) {
      match (this, other)
      case (Empty, Empty) => true
      case (Holding(a), Holding(b)) => eq(a, b)
      case _ => false
    }

    /** `!=` on Optionals, given T's `!=`: presence differs, or both hold values `ne` relates. */
    predicate DifferUnder(other: State<T>, ne: (T, T) -> bool) {
      match (this, other)
      case (Empty, Empty) => false
      case (Holding(a), Holding(b)) => ne(a, b)
      case _ => true
    }
  }

  /** The lifetime events of bringing a container into state `s` from dead storage. */
  ghost function Arrival<T>(s: State<T>): seq<Event<T>> {
    match s
    case Empty => []
    case Holding(v) => [Constructed(v)]
  }

  /** The lifetime events of emptying a container that is in state `s`. */
  ghost function Departure<T>(s: State<T>): seq<Event<T>> {
    match s
    case Empty => []
    case Holding(v) => [Destroyed(v)]
  }

  /** What the pointer conversion yields: null, or the address of a container's storage. */
  datatype Pointer<T(0)> = Null | StorageOf(owner: Optional<T>)

  class Optional<T(0)> {
    var value: T        // the inline storage; meaningful only while a T lives there
    var hasValue: bool  // the presence flag

    /** Every construction into and destruction in `value`, oldest first. */
    ghost var events: seq<Event<T>>

    /** The storage currently holds a constructed, not yet destroyed T. */
    ghost predicate Live()
      reads this
    {
      LiveAfter(events)
    }

    /** The container's invariant: the lifetime discipline was kept, and the flag says
        exactly whether a live T is in the storage. */
    ghost predicate Valid()
      reads this
    {
      WellNested(events) && (hasValue <==> Live())
    }

    ghost function Model(): State<T>
      reads this
    {
      if hasValue then Holding(value) else Empty
    }

    /** Placement-new of `v` into the storage, which must not hold a live T. */
    method Construct(v: T)
      requires WellNested(events) && !Live()
      modifies this`value, this`events
      ensures WellNested(events) && Live()
      ensures value == v && events == old(events) + [Constructed(v)]
    {
      value := v;
      events := events + [Constructed(v)];
    }

    /** Explicit destructor call on the live T in the storage. */
    method Destroy()
      requires WellNested(events) && Live()
      modifies this`events
      ensures WellNested(events) && !Live()
      ensures events == old(events) + [Destroyed(value)]
    {
      events := events + [Destroyed(value)];
    }

    /** The default constructor: an empty container, storage left unconstructed. */
    constructor ()
      ensures Valid() && Model() == Empty && events == []
    {
      hasValue := false;
      events := [];
    }

    /** Construction from a value (the `const T&` and `T&&` overloads): the storage
        holds a new T made from `v` and the flag is set. */
    constructor FromValue(v: T)
      ensures Valid() && Model() == Holding(v) && events == [Constructed(v)]
    {
      events := [];
      new;
      Construct(v);
      hasValue := true;
    }

    /** Copy construction: the same presence as `src` and, when present, a copy of its
        value in this container's own storage; `src` is not touched. */
    constructor CopyOf(src: Optional<T>)
      requires src.Valid()
      ensures Valid() && Model() == src.Model() && events == Arrival(src.Model())
    {
      hasValue := src.hasValue;
      events := [];
      new;
      if src.hasValue {
        Construct(src.value);
      }
    }

    /** Move construction: the same presence as `src` and, when present, the value moved
        out of `src`.  The source keeps its flag and its lifetime; what is left in its
        storage is whatever T's move constructor leaves behind. */
    constructor MoveFrom(src: Optional<T>)
      requires src.Valid()
      modifies src`value
      ensures Valid() && Model() == old(src.Model()) && events == Arrival(old(src.Model()))
      ensures src.Valid() && src.hasValue == old(src.hasValue) && src.events == old(src.events)
    {
      hasValue := src.hasValue;
      events := [];
      new;
      if src.hasValue {
        Construct(src.value);
        src.value := *;
      }
    }

    /** Copy assignment.  Assigning a container to itself changes nothing; otherwise the
        held value, if any, is destroyed and a copy of `src`'s value, if any, is made. */
    method CopyAssign(src: Optional<T>)
      requires Valid() && src.Valid()
      modifies this
      ensures Valid() && Model() == old(src.Model())
      ensures src == this ==> unchanged(this)
      ensures src != this ==>
        events == old(events) + old(Departure(Model())) + Arrival(old(src.Model()))
    {
      if src != this {
        Reset();
        hasValue := src.hasValue;
        if src.hasValue {
          Construct(src.value);
        }
      }
    }

    /** Move assignment.  Self-assignment changes nothing; otherwise the held value, if
        any, is destroyed and `src`'s value, if any, is moved in.  The source keeps its
        flag and its lifetime; its storage is left in a moved-from state. */
    method MoveAssign(src: Optional<T>)
      requires Valid() && src.Valid()
      modifies this, src`value
      ensures Valid() && Model() == old(src.Model())
      ensures src == this ==> unchanged(this)
      ensures src != this ==>
        events == old(events) + old(Departure(Model())) + Arrival(old(src.Model()))
      ensures src.Valid() && src.hasValue == old(src.hasValue) && src.events == old(src.events)
    {
      if src != this {
        Reset();
        hasValue := src.hasValue;
        if src.hasValue {
          Construct(src.value);
          src.value := *;
        }
      }
    }

    /** Assignment from a value (the `const T&` and `T&&` overloads).  When the argument
        is a reference to this container's own held value (`aliasesOwnValue`), nothing
        happens; otherwise any held value is destroyed and `v` is constructed in its place.
        Either way the container ends up holding `v`. */
    method AssignValue(v: T, aliasesOwnValue: bool)
      requires Valid()
      requires aliasesOwnValue ==> hasValue && value == v
      modifies this
      ensures Valid() && Model() == Holding(v)
      ensures aliasesOwnValue ==> unchanged(this)
      ensures !aliasesOwnValue ==>
        events == old(events) + old(Departure(Model())) + [Constructed(v)]
    {
      if !aliasesOwnValue {
        Reset();
        Construct(v);
        hasValue := true;
      }
    }

    /** Destroys the held value, if there is one, and leaves the container empty.  On an
        empty container it does nothing. */
    method Reset()
      requires Valid()
      modifies this`hasValue, this`events
      ensures Valid() && Model() == Empty
      ensures events == old(events) + old(Departure(Model()))
      ensures !old(hasValue) ==> unchanged(this)
    {
      if hasValue {
        Destroy();
        hasValue := false;
      }
    }

    /** Destroys any held value, then constructs in place the T that T's constructor
        `make` builds from `args`. */
    method Emplace<A>(make: A -> T, args: A)
      requires Valid()
      modifies this
      ensures Valid() && Model() == Holding(make(args))
      ensures events == old(events) + old(Departure(Model())) + [Constructed(make(args))]
    {
      Reset();
      Construct(make(args));
      hasValue := true;
    }

    /** The destructor: it resets the container, after which every T ever constructed in
        the storage has been destroyed exactly once. */
    method Dispose()
      requires Valid()
      modifies this`hasValue, this`events
      ensures Valid() && Model() == Empty
      ensures events == old(events) + old(Departure(Model()))
      ensures Constructions(events) == Destructions(events)
    {
      Reset();
      Balance(events);
    }

    /** `HasValue()`: the flag, which under the invariant says whether a live T is stored. */
    predicate HasValue()
      reads this
      ensures HasValue() <==> Model().Holding?
      ensures Valid() ==> (HasValue() <==> Live())
    {
      hasValue
    }

    /** The explicit conversion to `bool`: the same answer as `HasValue()`. */
    predicate AsBool()
      reads this
      ensures AsBool() <==> Model() != Empty
    {
      hasValue
    }

    /** The conversion to `T*` (and `const T*`): null exactly when the container is
        empty, otherwise the address of this container's storage, which holds the value. */
    function AsPointer(): (p: Pointer<T>)
      reads this
      ensures p.Null? <==> Model() == Empty
      ensures p.StorageOf? ==> p.owner == this && Model() == Holding(p.owner.value)
    {
      if HasValue() then StorageOf(this) else Null
    }

    /** `GetValue()` (and `*`, `->`, which call it): the held value.  Calling it on an
        empty container is an assertion failure, so it is a precondition here. */
    function GetValue(): (r: T)
      reads this
      requires HasValue()
      ensures Model() == Holding(r)
    {
      value
    }

    /** `Get(defaultValue)`: the held value when there is one, otherwise `defaultValue`. */
    function Get(defaultValue: T): (r: T)
      reads this
      ensures Model().Holding? ==> Model() == Holding(r)
      ensures Model() == Empty ==> r == defaultValue
    {
      if HasValue() then value else defaultValue
    }
  }

  /** `operator==`, given T's `==` as `eq`: it first compares presence, then values. */
  function Equal<T(0)>(lhs: Optional<T>, rhs: Optional<T>, eq: (T, T) -> bool): (r: bool)
    reads lhs, rhs
    ensures r <==> lhs.Model().EqualUnder(rhs.Model(), eq)
  {
    if lhs.hasValue != rhs.hasValue then false
    else if !lhs.hasValue then true
    else eq(lhs.value, rhs.value)
  }

  /** `operator!=`, given T's `!=` as `ne`: it first compares presence, then values. */
  function NotEqual<T(0)>(lhs: Optional<T>, rhs: Optional<T>, ne: (T, T) -> bool): (r: bool)
    reads lhs, rhs
    ensures r <==> lhs.Model().DifferUnder(rhs.Model(), ne)
  {
    if lhs.hasValue != rhs.hasValue then true
    else if !lhs.hasValue then false
    else ne(lhs.value, rhs.value)
  }
}
