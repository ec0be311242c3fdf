/** Properties of `operator==` and `operator!=` on Optionals. */
module OptionalLaws {
  import opened Keel

  /** `!=` is the negation of `==` whenever T's `!=` is the negation of T's `==`. */
  lemma NotEqualNegatesEqual<T(0)>(lhs: Optional<T>, rhs: Optional<T>,
                                   eq: (T, T) -> bool, ne: (T, T) -> bool)
    requires forall a, b :: ne(a, b) == !eq(a, b)
    ensures NotEqual(lhs, rhs, ne) == !Equal(lhs, rhs, eq)
  {
  }

  /** Without that premise the two operators can agree: with T's `!=` left as
      "always false", two present Optionals with values `eq` rejects are neither equal
      nor unequal. */
  lemma NotEqualNeedsNegatedElementOperator<T(0)>(lhs: Optional<T>, rhs: Optional<T>,
                                                  eq: (T, T) -> bool)
    requires lhs.hasValue && rhs.hasValue && !eq(lhs.value, rhs.value)
    ensures !Equal(lhs, rhs, eq) && !NotEqual(lhs, rhs, (a: T, b: T) => false)
  {
  }

  /** With T's own equality, two Optionals are equal exactly when their abstract values are. */
  lemma EqualIsModelEquality<T(0)>(lhs: Optional<T>, rhs: Optional<T>)
    ensures Equal(lhs, rhs, (a: T, b: T) => a == b) <==> lhs.Model() == rhs.Model()
  {
  }

  /** `==` is reflexive when T's `==` is. */
  lemma EqualReflexive<T(0)>(o: Optional<T>, eq: (T, T) -> bool)
    requires forall a :: eq(a, a)
    ensures Equal(o, o, eq)
  {
  }

  /** `==` is symmetric when T's `==` is. */
  lemma EqualSymmetric<T(0)>(lhs: Optional<T>, rhs: Optional<T>, eq: (T, T) -> bool)
    requires forall a, b :: eq(a, b) ==> eq(b, a)
    ensures Equal(lhs, rhs, eq) ==> Equal(rhs, lhs, eq)
  {
  }

  /** `==` is transitive when T's `==` is. */
  lemma EqualTransitive<T(0)>(x: Optional<T>, y: Optional<T>, z: Optional<T>, eq: (T, T) -> bool)
    requires forall a, b, c :: eq(a, b) && eq(b, c) ==> eq(a, c)
    ensures Equal(x, y, eq) && Equal(y, z, eq) ==> Equal(x, z, eq)
  {
  }
}
