/** What several components share. */
module Basics {

  const PGSIZE: nat := 4096

  datatype Option<T> = None | Some(value: T)

  lemma {:induction false} SubsetSize(a: set<nat>, b: set<nat>)
    requires a <= b
    ensures |a| <= |b|
  {
    if a != {} {
      var x :| x in a;
      SubsetSize(a - {x}, b - {x});
    }
  }
}
