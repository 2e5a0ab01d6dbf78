/** Indices in a buffer that is used in a circle. */
module Circular {
  /** The index k places on from an index, in a buffer of n places. */
  function At(base: nat, k: nat, n: nat): (i: nat)
    requires base < n && k <= n
    ensures i < n
  {
    if base + k < n then base + k else base + k - n
  }

  lemma AtAt(base: nat, j: nat, k: nat, n: nat)
    requires base < n && j + k <= n
    ensures At(At(base, j, n), k, n) == At(base, j + k, n)
  {
  }

  lemma AtApart(base: nat, j: nat, k: nat, n: nat)
    requires base < n && j < k < n
    ensures At(base, j, n) != At(base, k, n)
  {
  }
}
