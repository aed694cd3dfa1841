# Business rules of the qualite-test exercises, in Dafny

This project models three small modules of the repository and proves what
they promise.

- **Loyalty points** (`tp-tdd-fidelite/loyalty.js`). `getPointsAndTotal` runs one
  `reduce` over the cart. It skips a line that is missing, has a price that is
  not a number, or has a negative price. Every other line earns
  `rate * floor(price / 10)` points, where the rate is 2 for type `'premium'`
  and 1 otherwise, and its price is added to the total.
  `calculateLoyaltyPoints` and `analyzeLoyalty` add 10 bonus points when the
  total is strictly above 200. A cart that is not an array raises
  `TypeError('Cart must be an array')`.
  The model is module `Loyalty` (`loyalty.dfy`). The fold is `Accumulate`, a left
  fold from the first line to the last, as `reduce` runs. Prices are exact reals.
  A head-first reference definition (`Counted`, `SumPoints`, `SumPrices`) gives
  the meaning of the fold. The lemmas relate the fold to it, and prove that the
  order of the lines does not matter.
- **Utility functions** (`tp-tests-unitaires/utils.js`), module `Utils` (`utils.dfy`):
  - `isPalindrome` is specified by an index-wise mirror property.
  - `getMax` returns a member of the list that is at least every element.
  - `capitalize` is modelled through the exact behaviour of its regular
    expression `/^(\s*)(\S?)(.*)$/`. `MatchPattern` characterises the match a
    backtracking matcher finds, and when there is none.
  - `divide` checks a zero divisor first, then the argument types.
  - `generateFibonacci` is a method whose `while` loop pushes the next number.
    It is proved against the Fibonacci recurrence.
- **Subscription renewal** (`tp-tdd-renew-subscription/subscription.js`), module
  `Subscription` (`subscription.dfy`). Five guards, in the source's order, over
  the flags, the status and the end date. Dates are moments in milliseconds
  since the epoch, as `getTime()` gives them, so the time of day counts. The
  clock's current moment (`new Date()`) is an explicit parameter `now`, used
  when no current date is given.

`wrappers.dfy` holds `Option` (JavaScript's `null`) and `Result` (a return or a
throw). `js.dfy` holds the JavaScript notions that the code tests for: a value
that is or is not a number, the `Error`/`TypeError` exceptions, and
`Number.isInteger`.

## Model

| member | source | states |
|---|---|---|
| `Loyalty.Rate` | tp-tdd-fidelite/loyalty.js:30 | the rate is 2 exactly when the type is the string 'premium', and 1 otherwise, including a missing type |
| `Loyalty.IsCounted` | tp-tdd-fidelite/loyalty.js:23-27 | a missing line, a price that is not a number and a negative price each exclude a line on their own; a zero price is counted |
| `Loyalty.ItemPoints` | tp-tdd-fidelite/loyalty.js:31 | a counted line never earns negative points |
| `Loyalty.ItemPointsAreWholeTens` | tp-tdd-fidelite/loyalty.js:30-31 | a line's points are a multiple of its rate; the quotient is the largest number of whole tens not above the price (floor of price/10) |
| `Loyalty.GetPointsAndTotal` | tp-tdd-fidelite/loyalty.js:17-37 | a non-array cart fails with TypeError "Cart must be an array"; an array is folded, and points and total are non-negative |
| `Loyalty.CalculateLoyaltyPoints` | tp-tdd-fidelite/loyalty.js:44-47 | fails exactly for a non-array cart; adds 10 to the fold's points iff the total is strictly above 200, and nothing iff it is at most 200 |
| `Loyalty.AnalyzeLoyalty` | tp-tdd-fidelite/loyalty.js:54-61 | fails exactly for a non-array cart; totalPoints equals calculateLoyaltyPoints's result and bonusApplied is exactly total > 200 |
| `Loyalty.Step` | tp-tdd-fidelite/loyalty.js:22-34 | the callback never lowers points or total, and returns the accumulator unchanged unless the line is counted |
| `Loyalty.Counted` | tp-tdd-fidelite/loyalty.js:23-29 | the reference filter keeps exactly the lines that are present with a non-negative number price |
| `Loyalty.CountedKeepsMultiplicity` | tp-tdd-fidelite/loyalty.js:23-29 | the filter keeps each counted line as many times as it occurs in the cart, and no other line |
| `Loyalty.NothingCountedFoldsToZero` | tp-tdd-fidelite/loyalty.js:21-36 | a cart without a counted line folds to the initial accumulator: 0 points, total 0 |
| `Loyalty.AccumulateNonNegative` | tp-tdd-fidelite/loyalty.js:21-36 | the fold's points and total are never negative |
| `Loyalty.StepAfterPlus` | tp-tdd-fidelite/loyalty.js:22-34 | the reducer callback adds its line to the second of two summed tallies |
| `Loyalty.AccumulateAppend` | tp-tdd-fidelite/loyalty.js:21-36 | folding a concatenation sums the tallies of the two parts |
| `Loyalty.AccumulateIsReference` | tp-tdd-fidelite/loyalty.js:21-36 | points are the sum of the per-line points and total the sum of the prices, both over the counted lines only |
| `Loyalty.InvalidItemIgnored` | tp-tdd-fidelite/loyalty.js:23-29 | a missing line or one with a non-number or negative price changes neither points nor total, wherever it stands |
| `Loyalty.CountedItemAdds` | tp-tdd-fidelite/loyalty.js:30-32 | a counted line adds exactly rate * floor(price/10) points and its price to the total, wherever it stands |
| `Loyalty.InvalidOrCounted` | tp-tdd-fidelite/loyalty.js:22-34 | removing any one line from any position removes exactly that line's step |
| `Loyalty.AccumulatePermutation` | tp-tdd-fidelite/loyalty.js:21-36 | carts that are permutations of each other give the same points and total |
| `Loyalty.BonusBoundary` | tp-tdd-fidelite/loyalty.js:44-61 | a 200 total earns no bonus (20 points, bonusApplied false); 201 earns it (30 points, true) |
| `Loyalty.TwoLineCart` | tp-tdd-fidelite/loyalty.js:30-32 | two standard lines with a total of at most 200 earn the sum of their own floor(price/10) |
| `Loyalty.OnePremiumLine` | tp-tdd-fidelite/loyalty.js:30-31 | one premium line priced at most 200 earns twice floor(price/10) |
| `Loyalty.FlooringPerItem` | tp-tdd-fidelite/loyalty.js:30-31 | flooring is per line: 5+5 standard gives 0, 20+10 gives 3, premium 9.99 gives 0, premium 30 gives 6 |
| `Utils.WhitespaceClasses` | tp-tests-unitaires/utils.js:19 | letters and digits are never whitespace; every character `.` refuses (a line terminator) is whitespace |
| `Utils.Lower` | tp-tests-unitaires/utils.js:7 | lower-casing keeps the length, leaves no ASCII capital and changes no other character |
| `Utils.Upper` | tp-tests-unitaires/utils.js:22 | upper-casing keeps the length, leaves no ASCII small letter and changes no other character |
| `Utils.LowerAppend` | tp-tests-unitaires/utils.js:7 | lower-casing a concatenation lower-cases each part |
| `Utils.LowerOfUpper` | tp-tests-unitaires/utils.js:7 | lower-casing an upper-cased string gives the lower-cased original |
| `Utils.RemoveWhitespace` | tp-tests-unitaires/utils.js:7 | no whitespace character remains |
| `Utils.NoWhitespaceUnchanged` | tp-tests-unitaires/utils.js:7 | a string without whitespace comes back unchanged |
| `Utils.RemoveWhitespaceKeepsOthers` | tp-tests-unitaires/utils.js:7 | every non-whitespace character is kept as many times as it occurs, and no whitespace is |
| `Utils.Reverse` | tp-tests-unitaires/utils.js:8 | the reverse has the same length and the same characters, each as many times |
| `Utils.ReverseAt` | tp-tests-unitaires/utils.js:8 | the reverse has the same length and holds the characters from last to first |
| `Utils.IsPalindrome` | tp-tests-unitaires/utils.js:5-9 | true iff the lower-cased, whitespace-free string reads the same from both ends, index by index |
| `Utils.RemoveWhitespaceAppend` | tp-tests-unitaires/utils.js:7 | removing whitespace distributes over concatenation |
| `Utils.RemoveWhitespaceSkips` | tp-tests-unitaires/utils.js:7 | a whitespace character between two parts is dropped as if it were not there |
| `Utils.WhitespaceRemoved` | tp-tests-unitaires/utils.js:7 | a string of whitespace only becomes empty |
| `Utils.WhitespaceOnlyIsPalindrome` | tp-tests-unitaires/utils.js:5-9 | the empty string and every whitespace-only string are palindromes |
| `Utils.InsertedWhitespaceIgnored` | tp-tests-unitaires/utils.js:5-9 | inserting a whitespace character anywhere does not change the verdict |
| `Utils.CaseIgnored` | tp-tests-unitaires/utils.js:5-9 | upper-casing the input does not change the verdict |
| `Utils.MaxOf` | tp-tests-unitaires/utils.js:13 | the maximum of a non-empty list is one of its elements and at least every element |
| `Utils.GetMax` | tp-tests-unitaires/utils.js:11-14 | null exactly for a non-array or an empty array; otherwise an element that is at least every element |
| `Utils.LeadingWhitespace` | tp-tests-unitaires/utils.js:19 | the longest whitespace prefix: all whitespace, followed by a non-whitespace character or the end |
| `Utils.MatchPattern` | tp-tests-unitaires/utils.js:19 | the groups concatenate to the input and form a valid split |
| `Utils.MatchIsLongestSplit` | tp-tests-unitaires/utils.js:19-20 | among all splits the match has the longest first group, then the longest second; no match iff no split exists |
| `Utils.SplitsBound` | tp-tests-unitaires/utils.js:19 | no split's first group is longer than the whitespace prefix |
| `Utils.NoSplitAfterLineTerminator` | tp-tests-unitaires/utils.js:19-20 | a line terminator after the first non-whitespace character leaves no split, so no match |
| `Utils.CapitalizeMatched` | tp-tests-unitaires/utils.js:21-22 | capitalising the matched groups gives the corrected function's result |
| `Utils.Capitalize` | tp-tests-unitaires/utils.js:17-23 | "" exactly for "" or a line terminator after the first non-whitespace character; otherwise same length, leading whitespace kept, first other character upper-cased, the rest lower-cased |
| `Utils.CapitalizeDropsMultiline` | tp-tests-unitaires/utils.js:19-20 | "hello\nworld" and " a\r" capitalise to "" |
| `Utils.CapitalizeCorrected` | tp-tests-unitaires/utils.js:17-23 | same length as the input, leading whitespace kept, first other character upper-cased, the rest lower-cased, for every input |
| `Utils.CapitalizeCorrectedAgrees` | tp-tests-unitaires/utils.js:17-23 | the corrected function agrees with the original wherever the original returns a non-empty string, and is non-empty for every non-empty input |
| `Utils.Divide` | tp-tests-unitaires/utils.js:25-37 | a zero divisor throws "Division by zero" even when a is not a number; else a non-number throws the TypeError; otherwise the quotient q satisfies q * b == a |
| `Utils.FibonacciPrefix` | tp-tests-unitaires/utils.js:39-48 | n numbers that start 0, 1 and in which each later one is the sum of the two before |
| `Utils.FibonacciPrefixExtends` | tp-tests-unitaires/utils.js:39-48 | the first n numbers are a prefix of the first m numbers whenever n <= m |
| `Utils.GenerateFibonacci` | tp-tests-unitaires/utils.js:39-48 | null exactly for a non-number, non-integer or negative n; otherwise a list of length n that starts 0, 1 and follows the recurrence, equal to the first n Fibonacci numbers |
| `Utils.RecurrenceAt` | tp-tests-unitaires/utils.js:43-46 | in a list that follows the recurrence, the element at i is the i-th Fibonacci number |
| `Utils.RecurrenceIsFibonacci` | tp-tests-unitaires/utils.js:43-46 | any list that starts 0, 1 and follows the recurrence is the list of the first Fibonacci numbers |
| `Utils.ResultsArePrefixes` | tp-tests-unitaires/utils.js:39-48 | the result for n is a prefix of the result for any larger n |
| `Utils.SmallResults` | tp-tests-unitaires/utils.js:40-47 | 0 gives [], 1 gives [0], 5 and 10 give the expected lists |
| `Js.IntegersAreWholeNumbers` | tp-tests-unitaires/utils.js:40 | Number.isInteger accepts every integer and nothing strictly between two consecutive integers |
| `Subscription.ReferenceDate` | tp-tdd-renew-subscription/subscription.js:7 | the given current date when there is one, the clock's current moment otherwise |
| `Subscription.CanRenewSubscription` | tp-tdd-renew-subscription/subscription.js:1-9 | renewal is allowed iff not renewed, no unpaid debt, not a trial, status exactly "active" and the reference date is not after the end date |
| `Subscription.EarlierDateStillRenewable` | tp-tdd-renew-subscription/subscription.js:7 | renewal open at a moment stays open at every earlier moment |
| `Subscription.EndDateIsInclusive` | tp-tdd-renew-subscription/subscription.js:7 | the end moment itself still allows renewal; one millisecond later does not |
| `Subscription.OnlyActiveRenews` | tp-tdd-renew-subscription/subscription.js:6 | any status other than exactly "active" refuses renewal |
| `Subscription.MissingDateMeansNow` | tp-tdd-renew-subscription/subscription.js:7 | without a current date the decision is the one for the current moment |
| `Subscription.MissingDateLaterThanEnd` | tp-tdd-renew-subscription/subscription.js:7 | without a current date, a call made after the end moment refuses renewal, even later on the end day itself |

## Findings

| source | as written | input that shows it | evidently intended | confidence | as-written member | corrected member |
|---|---|---|---|---|---|---|
| tp-tests-unitaires/utils.js:19-20 | the third group `(.*)` followed by `$` cannot cross a line terminator, so the match fails and the function returns "" | `capitalize("hello\nworld")` gives "" | "Hello\nworld": the first non-whitespace character upper-cased, everything after it lower-cased | medium, not executed | `Utils.CapitalizeDropsMultiline` | `Utils.CapitalizeCorrected` |

## Left out

- `sum` (utils.js:1-3): JavaScript's `+` adds numbers, concatenates strings and coerces arrays. It has no single typed contract.
- IEEE-754 behaviour. Numbers are exact reals, so the model has no NaN, no Infinity and no rounding. The NaN and finiteness checks of `divide` (utils.js:30-35) therefore always pass. `Math.max` on NaN is not modelled. The float rounding of summed prices is not modelled either: 0.1 + 0.2 is exactly 0.3 here.
- Utils.GenerateFibonacci: numbers are exact naturals. JavaScript loses precision beyond 2^53 (from the 79th number on), and that loss is not modelled.
- Utils.Lower, Utils.Upper: case mapping is ASCII only. Full Unicode case mapping is not modelled (`'éclair'` becoming `'Éclair'`, or `'ß'` upper-casing to two characters).
- Utils.IsPalindrome: strings are sequences of Unicode scalar values. `split('')` works on UTF-16 code units, so a character outside the Basic Multilingual Plane would be split and reversed as two halves. That is not modelled.
- Arguments of other types: `isPalindrome` and `capitalize` take strings only. A falsy non-string argument of `capitalize` returns "". A non-string argument of either throws. `getMax` takes a list of numbers; a list with elements of other types, which `Math.max` would coerce, is not modelled. Neither is the engine's limit on spread arguments.
- Date parsing: `new Date(...)` on the end date and the current date is not modelled. Both are taken as already-parsed moments in milliseconds since the epoch. An unparsable date (an Invalid Date makes the comparison false, so renewal is allowed) is not modelled. A missing current date is `None`, which stands for every falsy value (`undefined`, `null`, `""`, `0`); the clock is read once, and its current moment is the parameter `now`.
- Mutation of the `reduce` accumulator (loyalty.js:31-32): the fold updates one fresh object that nothing else can see. It is modelled as a fold over values.
- Browser automation, the React component and its mocks, and the test-environment setup have no business logic and are not part of this model. Neither is the product generator, a wrapper over an external fake-data library. The shopping-cart module (`tp-cart-tests/cart.js`) is not part of this model.
