# keel::Optional, modelled in Dafny

`keel::Optional<T>` (Optional.h) is a container that is either empty or holds one `T`
in inline storage, with value semantics: construction, copy and move, assignment, in-place
construction (`Emplace`), `Reset`, queries and `==` / `!=`.

The model follows the class field by field:

- `Keel.Optional<T>` is a Dafny class with the two fields of the C++ class, `value` (the
  storage `m_Value`) and `hasValue` (the flag `m_HasValue`). Its constructors and
  assignment methods overwrite them step by step in the same order as the C++ code.
- A ghost log `events` records every `T` constructed into the storage (placement-new) and
  destroyed in it (explicit `~T()`). The helper methods `Construct` and `Destroy` stand for
  those two C++ operations. Their preconditions state the lifetime rule: never construct over
  a live `T`, never destroy storage that holds none.
- `Valid()` is the container's invariant. The log alternates constructions and destructions,
  and the flag is set exactly when the storage holds a live `T`. Every operation keeps it.
- `Model()` is the abstract value, `Empty` or `Holding(v)`. Each mutating operation states
  its new `Model()` and exactly which lifetime events it adds. So `Reset` destroys exactly
  the held value and nothing on an empty container. `Emplace` and assignment destroy the old
  value before constructing the new one. Self-assignment changes nothing.
- `Lifetime.Balance` proves that in any such log every construction is matched by exactly
  one destruction, except the value still live. The destructor (`Dispose`) uses it: once a
  container is destroyed, every `T` it ever held has been destroyed exactly once.
- `T`'s own `==` and `!=`, and the constructor `Emplace` forwards its arguments to, are
  function parameters.
- `KEEL_ASSERT` in `GetValue` becomes a precondition.

The module `OptionalUsage` is client code that uses only the contracts, the way a caller
would.

## Model

| member | source | states |
|---|---|---|
| `Keel.Optional.constructor` | Optional.h:84-87 | The default constructor gives an empty container with no `T` ever constructed. |
| `Keel.Optional.FromValue` | Optional.h:72-82 | Constructing from `v` gives a container holding `v`, with one construction logged. |
| `Keel.Optional.CopyOf` | Optional.h:89-94 | The copy has the source's presence and value. A `T` is constructed only when the source is present. The source is not modified. |
| `Keel.Optional.MoveFrom` | Optional.h:96-103 | The new container has the source's former presence and value. The source keeps its flag and lifetime log. Its storage value is left unconstrained (moved-from). |
| `Keel.Optional.CopyAssign` | Optional.h:105-115 | Afterwards the container has the source's presence and value. Self-assignment changes nothing. Otherwise the old value, if any, is destroyed before the copy is constructed. |
| `Keel.Optional.MoveAssign` | Optional.h:117-127 | Same as copy assignment, with the value moved. The source keeps its presence flag and lifetime log. |
| `Keel.Optional.AssignValue` | Optional.h:129-148 | Afterwards the container holds `v`, whatever it held before. When the argument is the container's own held value, nothing happens. Otherwise the old value, if any, is destroyed, then `v` is constructed. |
| `Keel.Optional.Reset` | Optional.h:155-162 | Afterwards the container is empty. It destroys exactly the held value, and on an empty container it changes nothing. |
| `Keel.Optional.Emplace` | Optional.h:164-170 | Afterwards the container holds the `T` built from the arguments. Any previous value is destroyed first. |
| `Keel.Optional.Dispose` | Optional.h:150-153 | The destructor empties the container. After it, the number of constructions equals the number of destructions. |
| `Keel.Optional.Construct` | Optional.h:74 | Placement-new is allowed only into storage that holds no live `T`. Afterwards the storage holds the new live value. |
| `Keel.Optional.Destroy` | Optional.h:159 | The explicit destructor call is allowed only on a live `T`. It logs the destruction of exactly that value. |
| `Keel.Optional.HasValue` | Optional.h:175 | True exactly when the abstract value is `Holding`. Under the invariant, true exactly when the storage holds a live `T`. |
| `Keel.Optional.AsBool` | Optional.h:176 | `operator bool` is true exactly when the container is not empty. |
| `Keel.Optional.AsPointer` | Optional.h:178-179 | The pointer is null exactly when the container is empty. Otherwise it is this container's storage, which holds the value. |
| `Keel.Optional.GetValue` | Optional.h:181-188 | Requires a present value and returns the held value. |
| `Keel.Optional.Get` | Optional.h:190 | Returns the held value when present, otherwise the default. |
| `Keel.Equal` | Optional.h:197-209 | `==` holds exactly when both are empty, or both are present with values `T`'s `==` relates. |
| `Keel.NotEqual` | Optional.h:211-223 | `!=` holds exactly when presence differs, or both are present with values `T`'s `!=` relates. |
| `Lifetime.Balance` | Optional.h:150-162 | In a well-nested lifetime log, constructions equal destructions plus one if a value is still live. |
| `OptionalLaws.NotEqualNegatesEqual` | Optional.h:197-223 | `!=` is the negation of `==` whenever `T`'s `!=` negates `T`'s `==`. |
| `OptionalLaws.NotEqualNeedsNegatedElementOperator` | Optional.h:211-223 | Without that premise, two present Optionals can be neither `==` nor `!=`. |
| `OptionalLaws.EqualIsModelEquality` | Optional.h:197-209 | With `T`'s own equality, `==` holds exactly when the abstract values are equal. |
| `OptionalLaws.EqualReflexive` | Optional.h:197-209 | `==` is reflexive when `T`'s `==` is. |
| `OptionalLaws.EqualSymmetric` | Optional.h:197-209 | `==` is symmetric when `T`'s `==` is. |
| `OptionalLaws.EqualTransitive` | Optional.h:197-209 | `==` is transitive when `T`'s `==` is. |
| `OptionalUsage.ResetTwice` | Optional.h:155-162 | Two `Reset` calls in a row destroy no more than one. The second call is a no-op. |
| `OptionalUsage.SelfAssignment` | Optional.h:105-127 | Copy- and move-assigning a container to itself leaves it unchanged. |

## Left out

- Raw aligned storage (`TypeCompatibleBytes`, `std::launder`, `reinterpret_cast`, placement `new`) is memory-layout mechanics. The storage is a field of type `T`, and the ghost log says when a `T` lives there.
- The class requires `T` to have a default value (`T(0)`), so the `value` field exists while no `T` is live. The C++ type has no such requirement. No contract reads `value` while the container is empty.
- `detail::RemoveReference`, `Move` and `Forward` are compile-time reference casts with no runtime behaviour.
- The `const T&` and `T&&` overloads of the value constructor and of value assignment are one member each. On values they differ in whether `T`'s copy or move constructor runs. The `T&&` overloads (Optional.h:78-82 and Optional.h:139-148) also leave the caller's argument moved-from. The model takes `v` by value and leaves it untouched, so that moved-from argument is not modelled.
- References are not modelled. `GetValue`, `*` and `->` return the held value, so changing the held `T` through the returned reference is not modelled. The const and non-const overloads are one member.
- `operator=` returns `*this` in C++. The assignment methods return nothing, because the reference only allows chained assignment.
- Keel.Optional.MoveFrom: the moved-from value left in the source is unconstrained. The C++ code leaves it to `T`'s move constructor, which the model cannot see.
- Keel.Optional.CopyAssign: a source Optional owned by the held value is not modelled. An example is one reached through a member of the held `T`. Such a source passes the `&Value != this` guard, and the C++ code calls `Reset()` (Optional.h:109) before reading `Value.m_HasValue` and `Value.m_Value` (Optional.h:110-112), so it reads a destroyed object. In the model `src` is a separate object that `Reset` does not touch, so the contract ends with `Model() == old(src.Model())`.
- Keel.Optional.MoveAssign: the same case is not modelled. A source Optional owned by the held value passes the guard, is destroyed by `Reset()` (Optional.h:121), and is read and moved from afterwards (Optional.h:122-124).
- Keel.NotEqual: `operator!=` has the same declaration problem as `operator==`, described on the next line. The model gives it the meaning of the body at Optional.h:211-223.
- Keel.Equal: the class body declares `operator==` and `operator!=` as non-template friends (Optional.h:172-173), and those functions are never defined. Read as written, overload resolution prefers these exact-match friends over the templates at Optional.h:197-223, so a comparison would not link. The templates themselves are not friends, yet they read the private fields (Optional.h:192-194). The model gives `==` and `!=` the meaning of the bodies at Optional.h:197-223, which is evidently what was intended.
- Keel.Optional.AssignValue: whether the argument refers to the container's own value is an explicit `aliasesOwnValue` flag, because Dafny values have no addresses. The flag covers only an argument that is the held value itself, which the address guard at Optional.h:131 and Optional.h:141 catches. It is set only when the container is present and passed its own value. An argument owned by the held value, reached through one of its members, passes the guard. The C++ code then reads it after `Reset()` has destroyed it (Optional.h:133-134 and Optional.h:143-144). The model reads `v` by value before the reset, so it does not capture that read of a destroyed object.
- Keel.Optional.Emplace: the variadic arguments and their perfect forwarding are one argument `args`, and `T`'s constructor is the function `make`. Arguments that alias the held value, or anything it owns, are not modelled. The C++ code passes the arguments by reference and reads them only after `Reset()` has destroyed the held `T` (Optional.h:167-168). So `o.Emplace(o.GetValue())` builds the new `T` from a destroyed object. The model takes `args` by value, reads it before the reset, and ends holding the old value.
- `noexcept` specifications and exceptions thrown by `T`'s constructors are left out, because Dafny has no exceptions. One consequence is not modelled. Copy and move assignment set the flag before constructing the new value (Optional.h:110-112 and Optional.h:122-124). If `T`'s constructor throws there, the assigned-to container (`*this`) is left with the flag set and no live `T`, and its destructor then destroys empty storage. The model shows the same intermediate state, where `Valid()` does not hold between setting the flag and `Construct`. The value constructors, value assignment and `Emplace` set the flag only after construction, so they do not have this hazard.
- `KEEL_CONSTEXPR` and the `KEEL_ASSERT` macro are left out. The assertion in `GetValue` is its precondition.
- The `IsOptional` trait is left out. It is a compile-time type predicate with no runtime behaviour.
- Concurrency is left out. The type has no synchronisation.
