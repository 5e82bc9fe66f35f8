/**
  The two comparison rules the benchmark hands to its sort routine. Each one
  answers `1` or `-1` for every pair of integers; the sort swaps a pair exactly
  when the answer is `-1`.
*/
module Comparators {

  /** `a > b ? 1 : -1`: answers "swap" (-1) exactly when `a <= b`, ties included. */
  function CompareVariant1(a: int, b: int): (r: int)
    ensures r == 1 || r == -1
    ensures r == -1 <==> a <= b
    ensures a == b ==> r == -1
  {
    if a > b then 1 else -1
  }

  /** `a > b ? -1 : 1`: answers "swap" (-1) exactly when `a > b`; the mirror image of CompareVariant1. */
  function CompareVariant2(a: int, b: int): (r: int)
    ensures r == 1 || r == -1
    ensures r == -1 <==> b < a
    ensures a == b ==> r == 1
    ensures r == -CompareVariant1(a, b)
  {
    if a > b then -1 else 1
  }
}
