/** Client code that uses only the contracts of `Keel.Optional`, showing the container's
    documented behaviour follows from them. */
module OptionalUsage {
  import opened Lifetime
  import opened Keel

  function IntEq(a: int, b: int): bool { a == b }
  function IntNe(a: int, b: int): bool { a != b }

  /** Construction from a value, default construction, `==`, `!=` and `Get`. */
  method Examples()
  {
    var five := new Optional.FromValue(5);
    var otherFive := new Optional.FromValue(5);
    var six := new Optional.FromValue(6);
    var none := new Optional<int>();
    var otherNone := new Optional<int>();

    assert five.HasValue() && five.GetValue() == 5;
    assert !none.HasValue() && none.AsPointer().Null?;

    assert Equal(five, otherFive, IntEq) && !NotEqual(five, otherFive, IntNe);
    assert !Equal(five, six, IntEq) && NotEqual(five, six, IntNe);
    assert Equal(none, otherNone, IntEq) && !NotEqual(none, otherNone, IntNe);
    assert !Equal(five, none, IntEq) && NotEqual(five, none, IntNe);

    assert none.Get(9) == 9;
    assert five.Get(9) == 5;
  }

  /** A second `Reset` is a no-op: it destroys nothing and leaves the container empty. */
  method ResetTwice<T(0)>(o: Optional<T>)
    requires o.Valid()
    modifies o
    ensures o.Valid() && o.Model() == Empty
    ensures o.events == old(o.events) + old(Departure(o.Model()))
  {
    o.Reset();
    ghost var once := o.events;
    o.Reset();
    assert o.events == once;
  }

  /** Copy- and move-assigning a container to itself leaves presence and value as they were. */
  method SelfAssignment<T(0)>(o: Optional<T>)
    requires o.Valid()
    modifies o
    ensures unchanged(o)
  {
    o.CopyAssign(o);
    o.MoveAssign(o);
  }

  /** A copy owns its own storage: emplacing into the copy leaves the original alone. */
  method CopyIsIndependent(src: Optional<int>)
    requires src.Valid() && src.HasValue()
  {
    var copy := new Optional.CopyOf(src);
    assert copy.GetValue() == src.GetValue();
    copy.Emplace((n: int) => n + 1, src.GetValue());
    assert copy.GetValue() == src.GetValue() + 1;
    assert src.Valid() && src.HasValue();
  }

  /** Moving out of a present container leaves the destination holding the value and
      the source still present. */
  method MoveKeepsSourcePresent<T(0)>(src: Optional<T>, dst: Optional<T>)
    requires src.Valid() && dst.Valid() && src.HasValue() && src != dst
    modifies src, dst
  {
    ghost var moved := src.GetValue();
    dst.MoveAssign(src);
    assert dst.HasValue() && dst.GetValue() == moved;
    assert src.HasValue();
  }

  /** Emplacing into a present container destroys exactly the old value first. */
  method EmplaceDestroysOldValue(o: Optional<int>)
    requires o.Valid() && o.HasValue()
    modifies o
  {
    ghost var previous := o.GetValue();
    ghost var before := o.events;
    o.Emplace((n: int) => n, 7);
    assert o.events == before + [Destroyed(previous), Constructed(7)];
    assert o.GetValue() == 7;
  }
}
