/** Go visits the keys of a map in no particular order; the model picks any remaining one. */
module Iteration {

  method AnyOf<T>(remaining: set<T>) returns (x: T)
    requires remaining != {}
    ensures x in remaining
  {
    x :| x in remaining;
  }
}
