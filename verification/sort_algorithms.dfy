/**
  The five sort routines of the benchmark, each working in place on a buffer
  of `int` with a count `n`. Every one of them is proved to leave the buffer
  equal to SortPrefix of its old contents, so, given the same comparison
  rule, they compute the same function. The template parameter, the closure
  factory and the generic callable of the source all hand the rule over as a
  value, which here is a function-valued parameter.
*/
module SortAlgorithms {
  import opened Comparators
  import opened SortSpec

  /** `std::swap(a[i], a[k])`. */
  method SwapAt(a: array<int>, i: nat, k: nat)
    requires i < a.Length && k < a.Length
    modifies a
    ensures a[..] == Swap(old(a[..]), i, k)
  {
    a[i], a[k] := a[k], a[i];
  }

  /** Example 1: the comparison `a[i] > a[k] ? 1 : -1` written inline. */
  method ManuallyInlinedSort(a: array<int>, n: int)
    requires n <= a.Length
    modifies a
    ensures a[..] == SortPrefix(CompareVariant1, old(a[..]), n)
    ensures multiset(a[..]) == multiset(old(a[..]))
    ensures NonIncreasing(a[..], n)
    ensures 0 <= n ==> a[n..] == old(a[n..])
    ensures 0 <= n ==> multiset(a[..n]) == multiset(old(a[..n]))
  {
    ghost var m: nat := if n < 0 then 0 else n;
    var i := 0;
    while i < n
      invariant 0 <= i <= m
      invariant OuterPass(CompareVariant1, a[..], m, i) == SortPrefix(CompareVariant1, old(a[..]), n)
    {
      ghost var start := a[..];
      var k := i + 1;
      while k < n
        invariant i + 1 <= k <= m
        invariant InnerPass(CompareVariant1, a[..], m, i, k) == InnerPass(CompareVariant1, start, m, i, i + 1)
      {
        var cmpResult := if a[i] > a[k] then 1 else -1;
        if cmpResult == -1 {
          SwapAt(a, i, k);
        }
        k := k + 1;
      }
      i := i + 1;
    }
    SortPrefixPermutes(CompareVariant1, old(a[..]), n);
    Variant1SortsNonIncreasing(old(a[..]), n);
  }

  /** Example 2: the comparison rule passed as a function pointer. */
  method PassedAsAPointerSort(a: array<int>, n: int, cmp: Comparator)
    requires n <= a.Length
    modifies a
    ensures a[..] == SortPrefix(cmp, old(a[..]), n)
    ensures multiset(a[..]) == multiset(old(a[..]))
    ensures 0 <= n ==> a[n..] == old(a[n..])
    ensures 0 <= n ==> multiset(a[..n]) == multiset(old(a[..n]))
  {
    ghost var m: nat := if n < 0 then 0 else n;
    var i := 0;
    while i < n
      invariant 0 <= i <= m
      invariant OuterPass(cmp, a[..], m, i) == SortPrefix(cmp, old(a[..]), n)
    {
      ghost var start := a[..];
      var k := i + 1;
      while k < n
        invariant i + 1 <= k <= m
        invariant InnerPass(cmp, a[..], m, i, k) == InnerPass(cmp, start, m, i, i + 1)
      {
        var cmpResult := cmp(a[i], a[k]);
        if cmpResult == -1 {
          SwapAt(a, i, k);
        }
        k := k + 1;
      }
      i := i + 1;
    }
    SortPrefixPermutes(cmp, old(a[..]), n);
  }

  /** Example 3: `sort_alg_factory<Compare_Variant1>()`, the template instantiated with CompareVariant1. */
  method CompileTimeParametrizedSort(a: array<int>, n: int)
    requires n <= a.Length
    modifies a
    ensures a[..] == SortPrefix(CompareVariant1, old(a[..]), n)
    ensures multiset(a[..]) == multiset(old(a[..]))
    ensures 0 <= n ==> a[n..] == old(a[n..])
    ensures 0 <= n ==> multiset(a[..n]) == multiset(old(a[..n]))
    ensures NonIncreasing(a[..], n)
  {
    PassedAsAPointerSort(a, n, CompareVariant1);
    SortPrefixPermutes(CompareVariant1, old(a[..]), n);
    Variant1SortsNonIncreasing(old(a[..]), n);
  }

  /** Example 4: the closure factory applied to the lambda `a > b ? 1 : -1`. */
  method CompileTimeInvocableSort(a: array<int>, n: int)
    requires n <= a.Length
    modifies a
    ensures a[..] == SortPrefix(CompareVariant1, old(a[..]), n)
    ensures multiset(a[..]) == multiset(old(a[..]))
    ensures 0 <= n ==> a[n..] == old(a[n..])
    ensures 0 <= n ==> multiset(a[..n]) == multiset(old(a[..n]))
    ensures NonIncreasing(a[..], n)
  {
    var cmpFunc := (x: int, y: int) => if x > y then 1 else -1;
    PassedAsAPointerSort(a, n, cmpFunc);
    SortPrefixExtensional(cmpFunc, CompareVariant1, old(a[..]), n);
    SortPrefixPermutes(CompareVariant1, old(a[..]), n);
    Variant1SortsNonIncreasing(old(a[..]), n);
  }

  /** Example 5: a generic callable, a lambda or a function alike; the same loop as Example 2. */
  method PassingInvocableSort(a: array<int>, n: int, cmp: Comparator)
    requires n <= a.Length
    modifies a
    ensures a[..] == SortPrefix(cmp, old(a[..]), n)
    ensures multiset(a[..]) == multiset(old(a[..]))
    ensures 0 <= n ==> a[n..] == old(a[n..])
    ensures 0 <= n ==> multiset(a[..n]) == multiset(old(a[..n]))
  {
    PassedAsAPointerSort(a, n, cmp);
    SortPrefixPermutes(cmp, old(a[..]), n);
  }
}
