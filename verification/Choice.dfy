/** Picking an arbitrary element of a set, as iterating over a hash map does. */
module Choice {

  ghost function Any<T>(s: set<T>): (x: T)
    requires s != {}
    ensures x in s
  {
    var x :| x in s;
    x
  }

  /** A nonempty set has an element. */
  lemma Pick<T>(s: set<T>) returns (x: T)
    requires s != {}
    ensures x in s
  {
    x := Any(s);
  }
}
