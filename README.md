# Sum of 1..n and the wallet-balance ranking, verified in Dafny

This project models two exercises.

- `src/problem1/index.js` computes 1 + 2 + … + n in five ways:
  - an accumulating loop (`sum_to_n_a`);
  - the same loop behind a persistent memo dictionary (`sum_to_n_a_with_cache`);
  - a recursion (`sum_to_n_b`);
  - the recursion behind a memo dictionary (`sum_to_n_b_with_cache`);
  - the closed form n·(n+1)/2 (`sum_to_n_c`).

  Module `SumToN` (`sum_to_n.dfy`) models each one:
  - the loop is a method with a loop invariant;
  - the recursion and the closed form are functions;
  - each memo dictionary is a class with a `map<int, int>` field, whose `Valid()` invariant says every entry is the sum for its key.

  They are all compared with one reference definition, `SumUpTo`:
  - for n ≥ 1, all five return `SumUpTo(n)`, which equals n·(n+1)/2;
  - for n ≤ 0 the two loops (and the loop behind its memo table) return `SumUpTo(n)` = 0, which matches the closed form only at n = 0 and n = -1 (`ClosedFormAgreesExactlyFromMinusOne`);
  - the two recursive variants are defined only for n ≥ 1.
- `src/problem3/` holds a React wallet page in two versions. Both rank balances the same way:
  1. give each blockchain a priority;
  2. keep the balances on a ranked chain whose amount is at most zero;
  3. sort them by priority, highest first;
  4. render one row per balance.

  Module `Refactored` (`refactored.dfy`) models `refactored.tsx`. Module `Original` (`original.dfy`) models `original_and_explain.tsx`. It proves that both versions produce the same ranking when the refactored table lookup behaves as intended. As written, the two pages differ on chain names inherited from `Object.prototype`, such as "toString" (see Findings). The equality also relies on the original filter reading `balancePriority` where it names the undeclared `lhsPriority` (see the modelling choices below).
- Module `JsArray` (`js_array.dfy`) gives the two JavaScript array operations that both pages use:
  - `Array.prototype.filter`, as `Filter`;
  - `Array.prototype.sort`, which is stable and reorders the array in place. `SortBy` is the reference stable insertion sort on sequences. `SortInPlace` is its in-place version on an `array`, proved equal to it. `StableSortIsSortBy` shows that, with a comparator that orders by an integer key, any stable sort gives the same sequence.

Modelling choices:
- JavaScript numbers are unbounded integers for n, and reals for amounts.
- The price lookup, `toFixed()` and rendering are not modelled. `toFixed()` appears only as an opaque function parameter.
- Where the code and the surrounding prose differ, the model follows the code:
  - `sum_to_n_a(n)` returns 0 for every n ≤ 0; it does not fail.
  - The memo check is truthy, so a stored 0 is computed again.
  - `sum_to_n_b_with_cache` returns at n = 1 without writing an entry.
- The filter keeps `amount <= 0` exactly as written. That is most likely an inverted condition, but it is what both versions do.
- The original filter tests an undeclared `lhsPriority`. Its comment says the balance's own `balancePriority` was meant, and `Original.Keeps` models that intended predicate.

## Model

| member | source | states |
|---|---|---|
| SumToN.SumUpTo | src/problem1/index.js:7-9 | reference sum of 1..n; 0 for n ≤ 0, at least n for n ≥ 1 |
| SumToN.ConsecutiveProductIsEven | src/problem1/index.js:65 | n·(n+1) is even for every integer n, so the division never leaves a fraction |
| SumToN.SumToNC | src/problem1/index.js:64-66 | the closed form r satisfies 2·r = n·(n+1) exactly |
| SumToN.SumUpToClosedForm | src/problem1/index.js:4-12 | for n ≥ 0 the sum 1..n equals n·(n+1)/2 |
| SumToN.ClosedFormAgreesExactlyFromMinusOne | src/problem1/index.js:64-66 | the loop's sum and the closed form agree iff n ≥ -1: at n = -1 both are 0, and for every n ≤ -2 the closed form is positive while the loop returns 0 |
| SumToN.SumToNA | src/problem1/index.js:4-12 | the loop returns the sum 1..n for every n (0 when the body never runs), and n·(n+1)/2 for n ≥ 0 |
| SumToN.SumToNB | src/problem1/index.js:37-41 | for n ≥ 1 the recursion returns r with 2·r = n·(n+1) |
| SumToN.SumToNBAgrees | src/problem1/index.js:37-41 | the recursion equals the loop's sum and the closed form for n ≥ 1 |
| SumToN.SumToNACache.constructor | src/problem1/index.js:17 | the cache starts empty and valid |
| SumToN.SumToNACache.SumToN | src/problem1/index.js:16-32 | returns the loop's value; afterwards the cache is the old one with n mapped to that value, and unchanged when n was already stored; every entry stays correct |
| SumToN.SumToNBCache.constructor | src/problem1/index.js:45 | the cache starts empty and valid |
| SumToN.SumToNBCache.SumToN | src/problem1/index.js:44-58 | returns the sum 1..n for n ≥ 1; afterwards the keys are exactly the old keys plus every k in 2..n (n = 1 writes nothing), old entries keep their values, a stored n leaves the cache unchanged; every entry stays correct and the keys stay closed downwards from 2 |
| SumToN.CallTwiceA | src/problem1/index.js:16-32 | two calls with the same n return the same value and leave the cache as after the first call |
| SumToN.CallTwiceB | src/problem1/index.js:44-58 | two calls with the same n return the same value, n·(n+1)/2; afterwards the keys are exactly the old keys plus 2..n and old entries keep their values, so the second call changes nothing |
| JsArray.Filter | src/problem3/refactored.tsx:25-29 | the filtered array is no longer than the input and every element passes the callback |
| JsArray.FilterIsSubsequence | src/problem3/refactored.tsx:25-29 | the filtered array is a subsequence of the input, in input order |
| JsArray.FilterCounts | src/problem3/refactored.tsx:25-29 | an accepted element occurs as often as in the input, a rejected one never |
| JsArray.FilterMembers | src/problem3/refactored.tsx:25-29 | x is in the result iff x is in the input and passes the callback |
| JsArray.FilterOfAccepted | src/problem3/refactored.tsx:25-29 | filtering an array whose every element passes returns it unchanged |
| JsArray.FilterSameCallback | src/problem3/original_and_explain.tsx:74-94 | callbacks that agree on every element filter alike |
| JsArray.Insert | src/problem3/refactored.tsx:33 | definition: one insertion step of the stable sort, placing x after the last element it does not compare below; its properties are InsertPermutes and InsertNonIncreasing |
| JsArray.SortBy | src/problem3/refactored.tsx:33-37 | definition: the reference stable insertion sort taking a comparator, with a result ≤ 0 meaning "keep this order"; its properties are SortByPermutes, SortByNonIncreasing, SortByStable, SortByOfNonIncreasing and StableSortIsSortBy |
| JsArray.SortByPermutes | src/problem3/refactored.tsx:33-37 | the sorted array is a permutation of the input |
| JsArray.SortBySameSign | src/problem3/original_and_explain.tsx:96-106 | comparators that agree on whether they are positive sort alike |
| JsArray.SortByNonIncreasing | src/problem3/refactored.tsx:33-37 | with a comparator that orders by a key, highest first, consecutive keys of the result never increase |
| JsArray.SortByStable | src/problem3/refactored.tsx:33-37 | elements with equal keys keep their input order |
| JsArray.SortByOfNonIncreasing | src/problem3/refactored.tsx:33-37 | sorting an already sorted array changes nothing |
| JsArray.NonIncreasingUnique | src/problem3/refactored.tsx:33-37 | two key-sorted sequences that agree on the order within each key are equal |
| JsArray.StableSortIsSortBy | src/problem3/refactored.tsx:33-37 | any key-sorted sequence that keeps the input order within each key is SortBy's result, so the model does not depend on which stable sort the engine uses |
| JsArray.InsertInPlace | src/problem3/refactored.tsx:33 | the in-place shift of a[i] into the sorted prefix yields Insert of it, and the rest of the array is untouched |
| JsArray.SortInPlace | src/problem3/refactored.tsx:33 | the array sorted in place is SortBy of its old contents |
| Refactored.GetPriority | src/problem3/refactored.tsx:56-69 | the result is the sentinel -99 iff the chain is not in the table; every rank is one of 100, 50, 30, 20, -99 |
| Refactored.GetPriorityTable | src/problem3/refactored.tsx:60-66 | Osmosis 100, Ethereum 50, Arbitrum 30, Zilliqa 20, Neo 20, other names -99 |
| Refactored.GetPriorityAsWritten | src/problem3/refactored.tsx:57-69 | the lookup as written is `NullishOr(LiteralLookup(table, name), -99)`. LiteralLookup reads an object literal: an own key gives its number, an Object.prototype name gives the inherited member, anything else gives undefined. NullishOr (`??`) replaces only undefined. Contract: off the inherited names the result is the intended rank; on them it is the inherited member |
| Refactored.IsValidBalanceAsWritten | src/problem3/refactored.tsx:25-29 | definition: the filter callback on top of the lookup as written; InheritedNameEscapesSentinel and AsWrittenAgreesOffPrototype state where it differs from IsValidBalance and where it agrees |
| Refactored.InheritedNameEscapesSentinel | src/problem3/refactored.tsx:60-68 | "toString" gets an inherited member instead of -99, so the filter as written keeps such a balance and the intended one drops it |
| Refactored.AsWrittenAgreesOffPrototype | src/problem3/refactored.tsx:25-29 | for a chain name that is not inherited, the filter as written and the intended filter agree |
| Refactored.IsValidBalance | src/problem3/refactored.tsx:25-29 | definition: the filter callback with the intended lookup, a ranked chain and amount ≤ 0; RankIsValidBalances states that the ranking holds exactly the input balances it accepts |
| Refactored.PriorityComparator | src/problem3/refactored.tsx:34-36 | the comparator is negative iff left ranks strictly higher, zero iff they tie, positive iff right ranks strictly higher |
| Refactored.ZilliqaNeoTie | src/problem3/refactored.tsx:34-36 | Zilliqa and Neo compare as equal |
| Refactored.PriorityComparatorOrdersByPriority | src/problem3/refactored.tsx:34-36 | the comparator orders by priority, highest first |
| Refactored.Rank | src/problem3/refactored.tsx:23-38 | definition: the memoised body, SortBy(Filter(balances, IsValidBalance), PriorityComparator); its properties are RankIsValidBalances, RankOrderedByPriority, RankStable, RankIsTheStableSort and RankIdempotent |
| Refactored.RankBalances | src/problem3/refactored.tsx:23-38 | filter into a new array, then sort it in place, gives Rank |
| Refactored.RankIsValidBalances | src/problem3/refactored.tsx:25-37 | every ranked balance passes the filter; the ranking is a permutation of the filtered balances; a balance is ranked iff it is in the input and valid, as often as in the input |
| Refactored.RankOrderedByPriority | src/problem3/refactored.tsx:33-37 | consecutive ranked balances never go up in priority |
| Refactored.RankStable | src/problem3/refactored.tsx:33-37 | ranked balances of equal priority keep their input order |
| Refactored.RankIsTheStableSort | src/problem3/refactored.tsx:33-37 | any priority-sorted arrangement of the valid balances that keeps input order on ties is Rank |
| Refactored.RankIdempotent | src/problem3/refactored.tsx:25-37 | ranking a ranked list returns it unchanged |
| Refactored.RankExample | src/problem3/refactored.tsx:23-38 | an unknown chain and a positive amount are dropped, and Osmosis comes before Ethereum |
| Refactored.Rows | src/problem3/refactored.tsx:42-51 | definition: `sortedValidBalances.map((balance, index) => …)`, one row per ranked balance keyed by its index, with that balance's amount and toFixed() text; RowsShowValidBalances and Original.RowsAsWrittenDifferOnlyInFormatting state its properties |
| Refactored.RowsShowValidBalances | src/problem3/refactored.tsx:23-51 | the page renders exactly as many rows as there are input balances passing the filter, and every row shows a non-positive amount with a formatted text |
| Original.GetPriority | src/problem3/original_and_explain.tsx:41-57 | the switch returns -99 iff the name is none of the five listed chains |
| Original.SwitchAgreesWithTable | src/problem3/original_and_explain.tsx:41-57 | the switch and the refactored table agree on every string |
| Original.SwitchTable | src/problem3/original_and_explain.tsx:43-55 | 100, 50, 30, 20, 20 for the five chains and -99 by default |
| Original.Keeps | src/problem3/original_and_explain.tsx:74-94 | definition: the nested-`if` filter callback, with the balance's own priority in place of the undeclared `lhsPriority`; KeepsAgreesWithRefactored states that it equals Refactored.IsValidBalance |
| Original.KeepsAgreesWithRefactored | src/problem3/original_and_explain.tsx:77-93 | `priority > -99 && amount <= 0` keeps exactly the balances the refactored `!== -99` filter keeps |
| Original.Comparator | src/problem3/original_and_explain.tsx:96-106 | definition: the three-way sort callback, -1, 1, or no return (read as 0) on a tie; ComparatorSign states its range and its agreement in sign with Refactored.PriorityComparator |
| Original.ComparatorSign | src/problem3/original_and_explain.tsx:96-106 | the three-way comparator returns -1, 0 or 1. Its sign always matches rightPriority - leftPriority, with a tie (no return) read as 0 |
| Original.SortedBalances | src/problem3/original_and_explain.tsx:63-107 | definition: SortBy(Filter(balances, Keeps), Comparator); SortedBalancesIsRank states that it equals Refactored.Rank |
| Original.SortedBalancesIsRank | src/problem3/original_and_explain.tsx:63-107 | the original filter and sort rank every list exactly as Refactored.Rank does, that is, as the refactored page does with the intended lookup; the refactored lookup as written differs on the Object.prototype names (see Findings) |
| Original.FormattedBalances | src/problem3/original_and_explain.tsx:113-118 | definition: `{...balance, formatted: balance.amount.toFixed()}` for each sorted balance; FormattedBalancesRoundTrip states its properties |
| Original.FormattedBalancesRoundTrip | src/problem3/original_and_explain.tsx:113-118 | removing the `formatted` property again gives back exactly the sorted balances, and the added property is each amount's toFixed() |
| Original.RowsAsWritten | src/problem3/original_and_explain.tsx:120-136 | definition: the rows mapped from sortedBalances, whose `formatted` is undefined; RowsAsWrittenDifferOnlyInFormatting and RowsAsWrittenLoseFormatting state its properties |
| Original.RowsAsWrittenDifferOnlyInFormatting | src/problem3/original_and_explain.tsx:120-136 | one row per sorted balance, keyed by its index, with its amount: the refactored rows with the formatted amount replaced by undefined |
| Original.RowsAsWrittenLoseFormatting | src/problem3/original_and_explain.tsx:120-136 | the rows as written carry no formatted amount and differ from the refactored rows on any non-empty list |
| Original.RowsFromFormatted | src/problem3/original_and_explain.tsx:113-136 | definition: the rows mapped from formattedBalances, reading each element's `formatted`; RowsFromFormattedMatchRefactored states its property |
| Original.RowsFromFormattedMatchRefactored | src/problem3/original_and_explain.tsx:113-136 | with rows mapped from formattedBalances, the original page renders exactly the refactored page's rows |

## Findings

| source | as written | input that shows it | evidently intended | confidence | as-written member | corrected member |
|---|---|---|---|---|---|---|
| src/problem3/refactored.tsx:60-68 | `blockchainPriorityMap[blockchain] ?? OTHERS_BLOCKCHAIN_PRIORITY` reads a plain object literal. For a name the literal inherits from Object.prototype, the read yields that member, which is not nullish. The sentinel is therefore not returned, and the `!== -99` filter keeps the balance | a balance `{currency: "ETH", amount: -1, blockchain: "toString"}` | every name outside the five chains gets -99, as with the switch it replaces (Original.SwitchAgreesWithTable) | high; not executed | Refactored.InheritedNameEscapesSentinel | Refactored.GetPriority |
| src/problem3/original_and_explain.tsx:113-136 | the rows are mapped from `sortedBalances`, whose elements have no `formatted` field, so every row gets `formattedAmount` undefined, and `formattedBalances` is computed but never used | any balance list with at least one valid balance | rows mapped from `formattedBalances`, so every row carries its formatted amount (Original.RowsFromFormattedMatchRefactored) | high; not executed | Original.RowsAsWrittenLoseFormatting | Original.RowsFromFormattedMatchRefactored |

## Left out

- React rendering, `WalletRow`, `classes.row`, props spreading and the `children` destructuring: these are presentation only. A row is modelled as its key, its amount and its formatted amount.
- `useWalletBalances` and `usePrices`: their code is not part of this model. The balances are an input sequence.
- `useMemo` and its dependency lists: these are a framework lifecycle concern. The memoised body is modelled as a plain function of the balances.
- `usdValue = prices[currency] * amount`: floating-point arithmetic on an external price map.
- `toFixed()`: number formatting, taken as an opaque parameter `toFixed: real -> string`.
- The button listener and the `console.time` / `console.log` harness in `src/problem1/index.js`: these are I/O.
- JavaScript number precision above 2^53 and non-integer arguments: n is an unbounded integer. The cache's string keys coincide with the integer keys for integral n.
- Stack overflow of the recursive variants for large n; they need n ≥ 1 because from n < 1 they never reach their base case.
- The runtime error from the undeclared `lhsPriority`: the intended `balancePriority` predicate is modelled instead.
- The sort as written for inherited chain names: there the comparator subtracts inherited members (functions, or the prototype object for `__proto__`), which gives NaN, and the resulting order depends on the engine. Only the filter's behaviour on such names is modelled (Refactored.IsValidBalanceAsWritten).
- Concurrency: none. Each memo dictionary belongs to one closure and is a single object here.
