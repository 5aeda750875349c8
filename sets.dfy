/**
 * Facts about finite sets that `Store.NextRowIdExists` and the loops of
 * `Session.AllocateRowId`, `Session.Rows` and `Session.Members` rely on to
 * pick an element of a non-empty set.
 */
module Sets {

  /** A set with no element is the empty set. */
  lemma NoElementMeansEmpty<T>(s: set<T>)
    requires forall y :: y !in s
    ensures s == {}
  {
  }

  /** A non-empty set has an element, so `var x :| x in s` can pick one. */
  lemma HasElement<T>(s: set<T>)
    requires s != {}
    ensures exists y :: y in s
  {
  }

  /**
   * The same for a set of integers: a property of a generic set speaks of
   * boxed values, which the solver does not carry over to `int` on its own.
   */
  lemma HasInt(s: set<int>)
    requires s != {}
    ensures exists y :: y in s
  {
    if forall y :: y !in s {
      NoElementMeansEmpty(s);
      assert false;
    }
  }

  /** An element of a non-empty set, for proofs. */
  lemma Pick<T>(s: set<T>) returns (x: T)
    requires s != {}
    ensures x in s
  {
    if forall y :: y !in s {
      NoElementMeansEmpty(s);
      assert false;
    }
    x :| x in s;
  }
}
