/** Counting what is true. */
module Counting {
  function Count(b: bool): nat {
    if b then 1 else 0
  }
}
