module Common {

  datatype Option<+T> = None | Some(value: T)

  /** Threads have names; any number of them take part. */
  type Thread = nat

  lemma {:induction false} SubsetCount<T>(a: set<T>, b: set<T>)
    requires a <= b
    ensures |a| <= |b|
    decreases a
  {
    if a != {} {
      var x :| x in a;
      SubsetCount(a - {x}, b - {x});
    }
  }
}
