/** Small facts about finite sets used by the loops that walk a set. */
module Sets {

  /** A non-empty set has an element. */
  lemma NonEmptyHasElement<T>(s: set<T>)
    requires s != {}
    ensures exists v :: v in s
  {
    if forall v :: v !in s {
      assert false;
    }
  }

  /** An element of a non-empty set, so that a loop can then pick one with
      `:|`. */
  lemma Witness<T>(s: set<T>) returns (v: T)
    requires s != {}
    ensures v in s
  {
    NonEmptyHasElement(s);
    v :| v in s;
  }
}
