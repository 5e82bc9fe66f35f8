# Exchange sort with injected comparison rules

This project models the sorting core of a C++ micro-benchmark that compares
ways of handing a comparison rule to one in-place sort routine: the
comparison written inline, a function pointer, a template parameter, a
closure built by a factory, and a generic callable parameter. All five
routines run the same quadratic exchange sort over the first `n` elements of
an `int` buffer. For each `i < n` and each `k` with `i < k < n`, the routine
swaps `numbers[i]` and `numbers[k]` whenever the rule answers `-1` for
`(numbers[i], numbers[k])`.

The project has three modules.

- `Comparators` (`comparators.dfy`) holds the two rules, `Compare_Variant1`
  and `Compare_Variant2`.
- `SortSpec` (`sort_spec.dfy`) is a functional model of the loops.
  `InnerPass` is the loop over `k`, `OuterPass` the loop over `i`, and
  `SortPrefix(cmp, s, n)` is the whole routine on a buffer holding `s`. The
  module also holds the lemmas about them:
  - permutation, for any rule;
  - sortedness, for any rule that agrees with a transitive order, with
    corollaries for the two variants;
  - the outer-loop invariant;
  - fixed points (an already sorted buffer comes back unchanged);
  - the result depends only on the rule's answers.
- `SortAlgorithms` (`sort_algorithms.dfy`) holds the five routines as methods
  over `array<int>` with a count `n: int`. Each one is proved to leave the
  buffer equal to `SortPrefix` of its old contents, so the five compute the
  same function when given the same rule.

Every dispatch mechanism of the source passes the rule as a value, so each
becomes a parameter of type `(int, int) -> int`. The template instantiation
`sort_alg_factory<Compare_Variant1>()` and the factory closure over the
lambda `a > b ? 1 : -1` become methods that call the generic loop with that
rule.

What the rule determines:

- `Compare_Variant1` swaps when `numbers[i] <= numbers[k]`, so the buffer comes
  out non-increasing. Examples 1, 3, 4 and 5 use this order.
- `Compare_Variant2` swaps when `numbers[i] > numbers[k]`, so the buffer comes
  out non-decreasing. The benchmark passes it to Example 2.

Read as a conventional three-way comparison, `Compare_Variant1`
(`a > b ? 1 : -1`) describes ascending order. The routine swaps on `-1`, so
it produces the reverse. The benchmark also hands Example 2 a different rule
(sources/main_test_bench.cpp:156) from the other four (lines 166, 176, 189
and 203), so its five calls do not all sort the same way. Given the same
rule, the five routines do agree. Sorting an already sorted buffer gives it
back only when the buffer is sorted in the order that the rule produces.
`WorkedExamples` shows an ascending buffer being reversed by
`Compare_Variant1`.

Buffer elements are modelled as unbounded `int`. The routines only compare
and swap them, so every property proved here holds for 32-bit `int` values
too. A negative `n` makes both loops skip, as in the source. Callers must
pass a buffer holding at least `n` elements (`requires n <= a.Length`);
otherwise the C++ reads out of bounds.

## Model

| member | source | states |
|---|---|---|
| `Comparators.CompareVariant1` | sources/main_test_bench.cpp:46-48 | answers only `1` or `-1`, never `0`; answers `-1` exactly when `a <= b`, so equal values answer `-1` |
| `Comparators.CompareVariant2` | sources/main_test_bench.cpp:50-52 | answers only `1` or `-1`, never `0`; answers `-1` exactly when `a > b`, so equal values answer `1`; always the negation of `CompareVariant1` |
| `SortSpec.Swap` | sources/main_test_bench.cpp:37 | `std::swap` of two positions keeps the length |
| `SortSpec.SwapExchanges` | sources/main_test_bench.cpp:37 | a swap exchanges the two positions, keeps every other position and keeps the multiset of values |
| `SortSpec.Step` | sources/main_test_bench.cpp:57-60 | one inner-loop body (compare `numbers[i]` with `numbers[k]`, swap on `-1`) keeps the length |
| `SortSpec.InnerPass` | sources/main_test_bench.cpp:56-61 | the loop over `k` from `k` to `n` keeps the length; what it does to the values is stated by `InnerPassPermutes` and `InnerPassSettles` |
| `SortSpec.OuterPass` | sources/main_test_bench.cpp:55-62 | the loop over `i` from `i` to `n` keeps the length; what it does to the values is stated by `OuterPassPermutes` and `OuterPassSorts` |
| `SortSpec.SortPrefix` | sources/main_test_bench.cpp:54-63 | the whole routine keeps the length; with `n <= 1` (none, one, or a negative count) the loops do nothing and the buffer is unchanged |
| `SortSpec.InnerPassPermutes` | sources/main_test_bench.cpp:56-61 | the inner loop of iteration `i` only permutes the buffer; positions before `i` and from `n` on are untouched |
| `SortSpec.OuterPassPermutes` | sources/main_test_bench.cpp:55-62 | from iteration `i` on, the routine only permutes the buffer, never touches the first `i` positions again, and leaves positions from `n` on alone |
| `SortSpec.SortPrefixPermutes` | sources/main_test_bench.cpp:54-63 | whatever the rule answers, the routine leaves a permutation of the old buffer; the first `n` elements are a permutation of the old first `n`, and everything from `n` on is unchanged |
| `SortSpec.StepKeepsBounds` | sources/main_test_bench.cpp:57-60 | for a rule agreeing with a transitive order `le`, one compare-and-swap keeps the settled prefix and makes `numbers[i]` `le` every element up to `k` |
| `SortSpec.InnerPassSettles` | sources/main_test_bench.cpp:33-40 | outer-loop invariant: after iteration `i`, each of the first `i + 1` elements is `le` every later element below `n`, so that prefix is sorted and bounds the rest |
| `SortSpec.OuterPassSorts` | sources/main_test_bench.cpp:33-40 | from a settled prefix, the remaining iterations leave the first `n` elements sorted by `le` |
| `SortSpec.SortPrefixSorts` | sources/main_test_bench.cpp:54-63 | a rule that agrees with a transitive order `le` sorts the first `n` elements by `le` |
| `SortSpec.Variant1SortsNonIncreasing` | sources/main_test_bench.cpp:32-48 | with `Compare_Variant1`, the first `n` elements come out non-increasing |
| `SortSpec.Variant2SortsNonDecreasing` | sources/main_test_bench.cpp:50-63 | with `Compare_Variant2`, the first `n` elements come out non-decreasing |
| `SortSpec.InnerPassFixesSorted` | sources/main_test_bench.cpp:34-39 | when `numbers[i]` is already `le` every later element, any swap exchanges equal values and the inner loop leaves the buffer as it was |
| `SortSpec.OuterPassFixesSorted` | sources/main_test_bench.cpp:33-40 | on a prefix already sorted by `le`, the remaining iterations change nothing |
| `SortSpec.SortedIsFixedPoint` | sources/main_test_bench.cpp:54-63 | a buffer already sorted by the order the rule agrees with comes back unchanged |
| `SortSpec.Variant1FixesNonIncreasing` | sources/main_test_bench.cpp:32-41 | sorting an already non-increasing buffer with `Compare_Variant1` returns the same values in the same order |
| `SortSpec.Variant2FixesNonDecreasing` | sources/main_test_bench.cpp:50-63 | sorting an already non-decreasing buffer with `Compare_Variant2` returns it unchanged |
| `SortSpec.InnerPassExtensional` | sources/main_test_bench.cpp:112-117 | two rules that agree on every pair make the inner loop produce the same buffer |
| `SortSpec.OuterPassExtensional` | sources/main_test_bench.cpp:112-118 | two rules that agree on every pair make the outer loop produce the same buffer |
| `SortSpec.SortPrefixExtensional` | sources/main_test_bench.cpp:109-119 | the routine's result depends only on the rule's answers, so a lambda with the same answers as `Compare_Variant1` sorts the same way |
| `SortSpec.WorkedExamples` | sources/main_test_bench.cpp:46-63 | `{5,4,3,2,1}` comes out `{1,2,3,4,5}` with `Compare_Variant2`; `{1,2,3,4,5}` comes out reversed with `Compare_Variant1`; a count of 3 sorts only the first three; a negative count changes nothing |
| `SortAlgorithms.SwapAt` | sources/main_test_bench.cpp:37 | `std::swap(numbers[i], numbers[k])` changes the buffer exactly as `Swap` does |
| `SortAlgorithms.ManuallyInlinedSort` | sources/main_test_bench.cpp:32-41 | Example 1 (inline comparison) leaves the buffer equal to the generic routine run with `Compare_Variant1`: the first `n` elements become a non-increasing permutation of themselves, and the rest is untouched |
| `SortAlgorithms.PassedAsAPointerSort` | sources/main_test_bench.cpp:54-63 | Example 2 (function pointer) leaves the buffer equal to `SortPrefix` with the given rule: the first `n` elements are a permutation of the old first `n`, and the elements from `n` on are untouched |
| `SortAlgorithms.CompileTimeParametrizedSort` | sources/main_test_bench.cpp:68-82 | Example 3 (the template instantiated with `Compare_Variant1`) computes the same buffer as Example 1: the first `n` elements become a non-increasing permutation of themselves, and the rest is untouched |
| `SortAlgorithms.CompileTimeInvocableSort` | sources/main_test_bench.cpp:87-104 | Example 4 (the factory closure over the lambda `a > b ? 1 : -1`) computes the same buffer as Example 1: the first `n` elements become a non-increasing permutation of themselves, and the rest is untouched |
| `SortAlgorithms.PassingInvocableSort` | sources/main_test_bench.cpp:109-119 | Example 5 (generic callable) computes the same buffer as Example 2 for the same rule: the first `n` elements are a permutation of the old first `n`, and the rest is untouched |

## Left out

- `GetVectorOfNumbers` (sources/main_test_bench.cpp:12-27) is left out. It reads a file through `std::ifstream`, and the library's `operator>>` does all the parsing. An unreadable file silently yields an empty vector. An empty buffer is covered by `SortPrefix` (a count of 0 changes nothing).
- `Calculate` and `main` (sources/main_test_bench.cpp:121-229) are left out. They are benchmark plumbing: timing phases of an external library, formatted labels, a copy of the vector per trial, and a report. Their conversion of `numbers.size()` to `int` is not modelled.
- The commented-out threading block (sources/main_test_bench.cpp:214-223) is left out because it is inactive.
- generate_numbers.py is left out. It writes random numbers to files.
- Timing results and performance comparisons are left out. They are measurements, not properties of the code.
- Factories as values: `sort_alg_factory` and `sort_alg_factory_invocable` return closures. Dafny methods are not values, so only the two instantiations the benchmark builds are modelled, as methods.
- Closure capture: the closure of Example 4 captures `cmp_func` by reference (sources/main_test_bench.cpp:90). At line 102 that reference is bound to a temporary lambda, whose life ends when the initializer at lines 101-104 finishes. The reference therefore dangles after line 104, and every call at line 176 goes through a dead object. The model assumes that a captureless lambda answers as if it were still alive, and does not model object lifetimes.
- CompileTimeParametrizedSort, CompileTimeInvocableSort and PassingInvocableSort call the loop of PassedAsAPointerSort instead of repeating it. In the source, Examples 3, 4 and 5 repeat the loop of Example 2 word for word, except for how the rule is called.
- Comparison rules are modelled as pure, total functions of type `(int, int) -> int`. A C++ function pointer or `std::invocable` could keep state or return a type other than `int`. The benchmark never passes such a rule.
