/** The two directions in a binary tree.  A pair of branches that mirror each other in the
    original tree macros is modelled as one branch indexed by a side. */
module Sides {
  datatype Side = L | R

  function Other(s: Side): Side { if s == L then R else L }
}
