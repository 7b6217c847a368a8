/** Addresses in the memory of a linked structure. */
module Pointers {
  type Ptr = nat

  const NULL: Ptr := 0
}
