/** Linked chains: what several tables have in common. */
module Chains {

  /** The i-th of the objects of a chain, or null in front of the first and behind the last. */
  function At(c: seq<object>, i: int): object? {
    if 0 <= i < |c| then c[i] else null
  }
}
