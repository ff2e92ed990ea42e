# Power sums, RGB colours, a list sieve and dual numbers in Dafny

This project models four small pieces of a Python repository and proves what each promises.

- **Power-sum enumerator** (`power_sum_visual.py`).
  - `ComputationEngine.compute_power_sums` finds every unordered pair 1 ≤ a ≤ b with aᵖ + bᵖ ≤ max_sum and groups the pairs by their sum. It keeps a counter of examined pairs and reports progress every 1000 pairs. It reads a `should_stop` flag at both loop heads (lines 99 and 107), and `ComputePowerSums` polls there.
  - The result feeds the views built on it:
    - the sorted (sum, count) series;
    - nearest-point selection for a mouse click;
    - the CSV export;
    - the point-info text.
  - Module `PowerSum` (`power_sum.dfy`) holds the engine as a class whose `shouldStop` flag and emitted `events` are fields. `ComputePowerSums` runs the same nested loops, breaks and counter. Its `ensures` ties the signals it emits to the specification functions `Enumerate`, `Scanned` and `Milestones`, and the reads of `should_stop` to `Checkpoints`.
  - Module `PowerSumView` (`power_sum_view.dfy`) holds the series, the click selection, the info text and the CSV text. Helper module `Text` (`text.dfy`) has decimal rendering, joining and line splitting.
- **RGB colour** (`ColorGradient/colorGrad.py`, class `RGB`). Module `ColorGrad` (`color_grad.dfy`) has:
  - the component arithmetic as functions on a `Color` value, with their algebraic laws;
  - hex formatting and parsing, with a round trip;
  - a class `RGB` whose fields `r`, `g`, `b` and `hx` are assigned by its constructor and by `SetHex`.
- **List sieve** (`Sieve_of_Eratosthenes.py`). Module `Sieve` (`sieve.dfy`) reproduces `prime_sieve` as it runs in Python.
  - `nums.remove(multiple)` inside `for multiple in nums` makes the list iterator skip the element that follows each removed one.
  - `PrimeSieve` is a pair of index-driven `while` loops over a mutable sequence.
  - The result is proved sound for every n.
  - It is proved complete for n ≤ 120, which covers the 100 used by `main`. So `number in prime_sieve(number)` decides primality there.
- **Dual numbers** (`DualNumbers.py`). Module `DualNumbers` (`dual_numbers.dfy`) covers `Dual` arithmetic over exact reals, the exceptions the operators raise, and `differentiate`.
  - Polynomial expressions are evaluated as Python evaluates them on a `Dual`. A constant is a plain number, and a plain number on the left of an operator raises `TypeError` when a `Dual` is on its right.
  - Whenever that evaluation succeeds and the variable occurs, the dual part of f(x + ε) is the derivative of f at x. This is proved by structural induction.

`wrappers.dfy` has the `Option` and `Result` datatypes. `seq_facts.dfy` has generic sequence equalities used by the proofs. `arith.dfy` has the integer monotonicity fact the modules share.

Where the doc comment and the code disagree, the code is modelled:
- The doc comment of `Dual.__truediv__` (`DualNumbers.py:95`) gives the real part as (a·c + b·d)/c². The code at line 103 computes a/c, and `DualNumbers.Div` follows the code.

## Model

| member | source | states |
|---|---|---|
| PowerSum.PowMonotone | power_sum_visual.py:102-104 | for positive bases, x ≤ y implies 1 ≤ xᵖ ≤ yᵖ; this is why the outer break loses nothing |
| PowerSum.ComputationEngine.constructor | power_sum_visual.py:68-70 | a new engine has `shouldStop` false and has emitted nothing |
| PowerSum.ComputationEngine.StopComputation | power_sum_visual.py:72-74 | sets `shouldStop` and emits nothing |
| PowerSum.ComputationEngine.Poll | power_sum_visual.py:99-100 | a checkpoint: the flag becomes set if it was set or a stop is requested at that poll, and the result is the flag |
| PowerSum.ComputationEngine.ComputePowerSums | power_sum_visual.py:76-131 | keeps the earlier events. If not stopped, it emits exactly the progress milestones for the pairs scanned, then `finished` with `Enumerate(...)`, after `Checkpoints(...)` reads of the flag. If stopped, it emits only a prefix of those milestones and never `finished`, and it stopped at the first read that saw a request. It is stopped iff a stop is requested at one of the reads of a full run |
| PowerSum.ComputationEngine.ScanRows | power_sum_visual.py:98-121 | the outer loop either completes with the grouping `Enumerate(...)`, counter `Scanned(...)` and `Checkpoints(...)` flag reads, or stops at the first read that sees a request, having counted no more than `Scanned(...)` |
| PowerSum.ComputationEngine.ScanRow | power_sum_visual.py:106-121 | one pass of the inner loop: appends that row's qualifying pairs in b order, keeps the map equal to the grouping of the pairs found, and advances the counter by m − a + 1, or by 0 when b == a already overflows. It reads the flag once per iteration and stops at the first read that sees a request |
| PowerSum.ComputationEngine.VisitRow | power_sum_visual.py:98-121 | one outer iteration: a stop at its first read, the break when aᵖ exceeds max_sum (no rows, pairs or reads remain), or row a scanned, with the found pairs, counter and reads advancing from row a to row a + 1 as `RowsFrom`, `ScannedFrom` and `CheckpointsFrom` do |
| PowerSum.ComputationEngine.ExaminePair | power_sum_visual.py:110-121 | one inner iteration after the flag check: stores (a, b) under its sum when within max_sum, breaks exactly when b == a overflows, and otherwise advances the counter by one with its progress signal |
| PowerSum.NoRequestBeforeAll | power_sum_visual.py:99-108 | no request at the first n reads, step by step, is the same as no request at any read below n |
| PowerSum.StopBeforeStartIsLost | power_sum_visual.py:88 | a stop requested before the run starts is reset on entry, so the run still finishes |
| PowerSum.RowFromMembers | power_sum_visual.py:106-117 | a pair is in row a from b on iff its first part is a, b ≤ its second part ≤ m, and its power sum ≤ max_sum |
| PowerSum.RowsFromMembers | power_sum_visual.py:98-117 | a pair is in the rows from a on iff a ≤ q.a ≤ q.b ≤ m and its power sum ≤ max_sum |
| PowerSum.QualifyingPairsMembers | power_sum_visual.py:98-117 | the pairs found are exactly those with 1 ≤ a ≤ b ≤ m and aᵖ + bᵖ ≤ max_sum |
| PowerSum.RowFromSorted | power_sum_visual.py:106-115 | a row is found in strictly increasing b order |
| PowerSum.RowsFromSorted | power_sum_visual.py:98-115 | the rows are found in strictly increasing (a, b) order |
| PowerSum.QualifyingPairsSorted | power_sum_visual.py:98-115 | the discovery order is strictly lexicographic, so no pair is found twice |
| PowerSum.WithSumMembers | power_sum_visual.py:115 | a pair is in the group of sum S iff it was found and its power sum is S |
| PowerSum.WithSumSorted | power_sum_visual.py:115 | a group keeps discovery order |
| PowerSum.GroupBySumIsFilter | power_sum_visual.py:115 | S is a key iff some found pair has sum S, and then its list is the found pairs with that sum, in order |
| PowerSum.GroupBySumSnoc | power_sum_visual.py:115 | appending a pair to the found list appends it to its sum's list |
| PowerSum.EnumerateSound | power_sum_visual.py:98-117 | every stored pair has 1 ≤ a ≤ b ≤ m and aᵖ + bᵖ equal to its key and ≤ max_sum |
| PowerSum.EnumerateComplete | power_sum_visual.py:102-117 | every pair with 1 ≤ a ≤ b ≤ m and aᵖ + bᵖ ≤ max_sum is stored under its sum |
| PowerSum.EnumerateCompleteUnbounded | power_sum_visual.py:93-117 | when (m + 1)ᵖ ≥ max_sum, every qualifying pair is stored, however large its b |
| PowerSum.EnumerateGroupsOrdered | power_sum_visual.py:115 | each group is strictly increasing, so it holds no duplicates |
| PowerSum.EnumerateGroupsDisjoint | power_sum_visual.py:115 | a pair is stored under one key only |
| PowerSum.EnumerateSmallMaxSum | power_sum_visual.py:98-117 | max_sum < 2 yields the empty map |
| PowerSum.RowFromEmpty | power_sum_visual.py:114-117 | once aᵖ + bᵖ exceeds max_sum, no later b of the row qualifies |
| PowerSum.RowsFromEmpty | power_sum_visual.py:103-104 | once aᵖ exceeds max_sum, no later row qualifies or is counted |
| PowerSum.TriangleFromClosed | power_sum_visual.py:94 | the pairs a ≤ b ≤ m number m(m + 1)/2, counted row by row |
| PowerSum.ScannedFromBound | power_sum_visual.py:119 | the rows from a on count at most the triangle of pairs from a on |
| PowerSum.ScannedAtMostTotal | power_sum_visual.py:94-119 | the counter never exceeds `total_pairs` |
| PowerSum.MilestonesShape | power_sum_visual.py:119-121 | after c examined pairs, the progress signals are (1000·(i+1), total) for i < c / 1000 |
| PowerSum.MilestonesPrefix | power_sum_visual.py:119-121 | the progress signals of an earlier count are a prefix of a later count's |
| PowerSum.MilestonesIncreasing | power_sum_visual.py:119-121 | reported counts are positive multiples of 1000, strictly increasing and at most the count |
| PowerSum.MilestonesStep | power_sum_visual.py:119-121 | one more examined pair adds a signal exactly when the new count is a multiple of 1000 |
| PowerSumView.SortedSet | power_sum_visual.py:196 | every element of the sorted sequence is a key |
| PowerSumView.SortedSetSpec | power_sum_visual.py:242 | `sorted(keys)` has the keys exactly once each, in strictly increasing order |
| PowerSumView.MinExists | power_sum_visual.py:196 | a non-empty set of sums has a least element |
| PowerSumView.Series | power_sum_visual.py:196-197 | each point is a key with the length of its list as count |
| PowerSumView.SeriesSpec | power_sum_visual.py:196-197 | one point per key, in strictly increasing sum order, and every key appears |
| PowerSumView.SeriesHasPoint | power_sum_visual.py:242-243 | every key's point (S, len(pairs)) is in the series |
| PowerSumView.MinTuple | power_sum_visual.py:261 | `min` over (distance, index) tuples is one of them and no tuple is smaller |
| PowerSumView.ClosestInSeries | power_sum_visual.py:249-261 | the chosen index is a valid one whose distance is minimal, and among equal distances it is the smallest index |
| PowerSumView.NearestOfSeries | power_sum_visual.py:242-261 | over a non-empty map, the chosen point is at least as close as every key's point, and ties go to the smaller sum |
| PowerSumView.MeasureDistances | power_sum_visual.py:249-258 | the loop builds the (distance, index) list for every point in order |
| PowerSumView.OnClick | power_sum_visual.py:236-266 | nothing is selected outside the axes, without data or without sums. A selection is a key with its count and pairs, at distance ≤ 50, nearest with ties to the smaller sum. No selection means every point is farther than 50 |
| PowerSumView.PairLinesSnoc | power_sum_visual.py:601-606 | formatting one more pair appends that pair's line |
| PowerSumView.FormatPairLines | power_sum_visual.py:601-606 | the loop yields one line per pair, in order: `2 × (a)^p = S` when a == b, `(a)^p + (b)^p = S` otherwise |
| PowerSumView.PointInfo | power_sum_visual.py:594-621 | without a current result nothing is shown; otherwise the info text for the result's power |
| PowerSumView.InfoTextSplit | power_sum_visual.py:609-619 | the info text's lines are the four header lines followed by the displayed pair lines |
| PowerSumView.InfoTextLines | power_sum_visual.py:609-619 | the text has the header lines, then the first min(20, n) pair lines, then `... and n−20 more` when n > 20, and nothing else |
| PowerSumView.NoNewlineInPairLine | power_sum_visual.py:604-606 | a pair line contains no line break |
| PowerSumView.PairTexts | power_sum_visual.py:659 | one `(a,b)` text per pair, in order |
| PowerSumView.RenderRowsSnoc | power_sum_visual.py:656-660 | writing one more row appends that row's text |
| PowerSumView.WriteRows | power_sum_visual.py:656-660 | the loop writes exactly the rendered rows for the sums, in order |
| PowerSumView.ExportCsv | power_sum_visual.py:639-660 | without a current result nothing is written; otherwise the header and one row per sum in ascending order |
| PowerSumView.HeaderText | power_sum_visual.py:654 | the header row is `Sum,Count,Pairs` ended by CR LF |
| PowerSumView.DecimalOfNat | power_sum_visual.py:660 | a non-negative sum or count is written as plain digits and never quoted |
| PowerSumView.PairsTextFacts | power_sum_visual.py:659 | a non-empty pairs field contains a comma and no double quote, so the writer quotes it without doubling quotes |
| PowerSumView.RowFields | power_sum_visual.py:660 | the written fields are the sum, the count and the quoted pairs text |
| PowerSumView.RowShape | power_sum_visual.py:660 | a row is `S,N,"(a,b); …"` ended by CR LF |
| PowerSumView.PairsTextRead | power_sum_visual.py:659 | the `"; "`-joined pairs text reads back as the same pairs |
| PowerSumView.RowRead | power_sum_visual.py:660 | a written row reads back as the same sum, count and pairs |
| PowerSumView.RowsRead | power_sum_visual.py:656-660 | the written rows read back as the same rows |
| PowerSumView.ExportRoundTrip | power_sum_visual.py:654-660 | the exported text parses back to the rows in ascending key order |
| PowerSumView.RebuildSorted | power_sum_visual.py:656-658 | rows for the sorted keys, gathered into a map, give back the map |
| PowerSumView.ExportRebuildsMap | power_sum_visual.py:654-660 | parsing the exported text rebuilds the exact `sum_combinations` map |
| PowerSumView.EnumerationExportable | power_sum_visual.py:98-115 | every enumerated group is non-empty with non-negative parts and keys |
| PowerSumView.EnumerationExportRoundTrip | power_sum_visual.py:654-660 | the CSV export of any enumeration result rebuilds that result |
| Text.NatToDecimal | power_sum_visual.py:604 | an integer is rendered as a non-empty run of digits with no leading zero |
| Text.DecimalRoundTrip | power_sum_visual.py:660 | rendered digits read back as the same number |
| Text.ReadNatDecimal | power_sum_visual.py:660 | reading a number stops at the first non-digit and returns the rest |
| Text.SplitJoin | power_sum_visual.py:618 | splitting a `"\n"`-joined list of break-free lines gives the lines back |
| ColorGrad.FloorDivSpec | ColorGradient/colorGrad.py:59 | Python's `//` is floor division for either sign of the divisor |
| ColorGrad.AddLaws | ColorGradient/colorGrad.py:47-48 | addition is commutative and capped at 255 in each component: the exact sum up to 255, otherwise 255. It stays in 0..255 for in-range inputs and black is its identity |
| ColorGrad.SubLaws | ColorGradient/colorGrad.py:50-51 | a − b == b − a, a − a is black, the difference is black only for equal colours, and it stays in range |
| ColorGrad.MulLaws | ColorGradient/colorGrad.py:53-54 | every component is at most 255, × 0 is black, × 1 is the identity on in-range colours, and a non-negative factor keeps them in range |
| ColorGrad.DivLaws | ColorGradient/colorGrad.py:56-59 | // 0 is black, // 1 is the identity, and a positive divisor keeps colours in range |
| ColorGrad.InvertLaws | ColorGradient/colorGrad.py:64-65 | invert is an involution, preserves the 0..255 range both ways, and c + invert(c) is white |
| ColorGrad.MixLaws | ColorGradient/colorGrad.py:67-68 | mix is commutative, mix(c, c) == c, each component lies between the two inputs, and it stays in range |
| ColorGrad.HexChar | ColorGradient/colorGrad.py:38 | a digit is written as a lower-case hex character that reads back as the digit |
| ColorGrad.Hex02Byte | ColorGradient/colorGrad.py:38 | `:02x` of a byte is its two lower-case hex digits |
| ColorGrad.ParseTwoDigits | ColorGradient/colorGrad.py:71 | `int(.., 16)` of a byte's two hex digits is the byte |
| ColorGrad.LowerLaws | ColorGradient/colorGrad.py:72 | `lower()` leaves no A–Z letter, is idempotent, is the identity on text without A–Z, and changes a character only by moving it 32 code points up |
| ColorGrad.HexRoundTrip | ColorGradient/colorGrad.py:38-73 | for in-range colours the hex text has 7 characters, parses back to the colour, and is already lower case |
| ColorGrad.ParseRefusesBadText | ColorGradient/colorGrad.py:71 | text of at most 5 characters raises, and so does any character at positions 1 to 6 that is not a hex digit, whitespace or a sign |
| ColorGrad.FieldRefuses | ColorGradient/colorGrad.py:71 | `int(s, 16)` raises when s holds a character that is not a hex digit, whitespace or a sign |
| ColorGrad.StripKeeps | ColorGradient/colorGrad.py:71 | stripping the surrounding whitespace keeps every non-whitespace character |
| ColorGrad.RGB.constructor | ColorGradient/colorGrad.py:34-38 | sets r, g, b (default 255) and hx to their `#rrggbb` text |
| ColorGrad.RGB.Plus | ColorGradient/colorGrad.py:47-48 | a new RGB holding the capped sum, with matching hx |
| ColorGrad.RGB.Minus | ColorGradient/colorGrad.py:50-51 | a new RGB holding the absolute difference, with matching hx |
| ColorGrad.RGB.Times | ColorGradient/colorGrad.py:53-54 | a new RGB holding the capped product, with matching hx |
| ColorGrad.RGB.FloorDivide | ColorGradient/colorGrad.py:56-59 | a new RGB holding black for 0, otherwise the floor quotients |
| ColorGrad.RGB.Inverted | ColorGradient/colorGrad.py:64-65 | a new RGB holding 255 − c per component |
| ColorGrad.RGB.MixedWith | ColorGradient/colorGrad.py:67-68 | a new RGB holding the floor average |
| ColorGrad.RGB.SetHex | ColorGradient/colorGrad.py:70-73 | on parsable text: sets the colour from characters 1:3, 3:5 and 5:7, sets hx to the lower-cased text, and returns the same object. Otherwise raises and leaves the object unchanged |
| ColorGrad.EqualsIgnoresHex | ColorGradient/colorGrad.py:61-62 | `==` holds iff r, g and b agree, whatever hx holds, and equal objects give equal `toRGB` |
| ColorGrad.HexRoundTripOnObjects | ColorGradient/colorGrad.py:34-76 | `RGB().setHex(RGB(r,g,b).toHex())` succeeds and returns the receiver itself, which equals `RGB(r,g,b)` and has the same hex text |
| Sieve.RangeSpec | Sieve_of_Eratosthenes.py:15 | `range(lo, hi)` is strictly increasing and holds exactly the integers v with lo ≤ v < hi |
| Sieve.RemoveFirst | Sieve_of_Eratosthenes.py:19 | `remove` drops exactly one element and adds none |
| Sieve.RemoveFirstAt | Sieve_of_Eratosthenes.py:19 | in a strictly sorted list, removing the value at j splices out position j |
| Sieve.InnerPass | Sieve_of_Eratosthenes.py:17-19 | a pass only removes elements |
| Sieve.PrimeSieve | Sieve_of_Eratosthenes.py:14-21 | the nested loops, with the iterator index left in place after each removal, compute `Sieve(n)` |
| Sieve.IsPrimeByMembership | Sieve_of_Eratosthenes.py:29 | membership in the sieve up to the number holds for every prime, and decides primality exactly for numbers ≤ 120 |
| Sieve.InnerPassKeeps | Sieve_of_Eratosthenes.py:18 | a value that is not a larger multiple of curr survives the pass |
| Sieve.InnerPassSorted | Sieve_of_Eratosthenes.py:17-19 | a pass keeps the list strictly sorted |
| Sieve.PassKeepsPrefix | Sieve_of_Eratosthenes.py:16-19 | a pass never touches positions up to curr's, so the outer loop visits survivors in order |
| Sieve.OuterPassSound | Sieve_of_Eratosthenes.py:16-19 | the list stays a strictly sorted sublist of 2..n that contains every prime |
| Sieve.SieveSound | Sieve_of_Eratosthenes.py:14-21 | the result is strictly increasing within 2..n, contains every prime ≤ n, and is empty for n < 2 |
| Sieve.RemovedAreComposite | Sieve_of_Eratosthenes.py:18-19 | every value a pass removes is composite |
| Sieve.InnerPassExact | Sieve_of_Eratosthenes.py:17-19 | if no two adjacent elements are both hit, the skipping pass removes every hit element |
| Sieve.NoAdjacentUpTo120 | Sieve_of_Eratosthenes.py:16-19 | for n ≤ 120, no two adjacent survivors are both multiples of the current prime, so no skip loses a removal |
| Sieve.SievedStep | Sieve_of_Eratosthenes.py:16-19 | for n ≤ 120, one outer step keeps the invariant: survivors are 2..n with no proper multiple of a processed value |
| Sieve.SievedFinal | Sieve_of_Eratosthenes.py:21 | when every position is processed, the survivors are exactly the primes ≤ n |
| Sieve.OuterPassComplete | Sieve_of_Eratosthenes.py:16-21 | for n ≤ 120, the remaining outer passes leave exactly the primes ≤ n |
| Sieve.SieveComplete | Sieve_of_Eratosthenes.py:14-25 | for n ≤ 120, `prime_sieve(n)` holds exactly the primes ≤ n |
| DualNumbers.IntRealIsCast | DualNumbers.py:115 | the integer exponent used as a factor is the exact real of the integer |
| DualNumbers.PowerNonZero | DualNumbers.py:103 | `c**2` and any power of a non-zero real are non-zero |
| DualNumbers.EqualsLaws | DualNumbers.py:53-61 | `==` is False against a non-Dual and compares both parts otherwise |
| DualNumbers.ScalarIsLifted | DualNumbers.py:63-103 | +, −, × and ÷ by a scalar c act like the operator on Dual(c, 0), for ÷ when c ≠ 0 |
| DualNumbers.LiftedDivisor | DualNumbers.py:99-103 | dividing by a non-zero scalar equals dividing by its dual lift |
| DualNumbers.AddLaws | DualNumbers.py:63-81 | addition is commutative and associative, subtraction undoes addition, and x − x is 0 |
| DualNumbers.MulLaws | DualNumbers.py:83-91 | multiplication is commutative, associative, distributes over addition, has identity 1, and ε·ε == 0 |
| DualNumbers.DivLaws | DualNumbers.py:93-103 | a zero real part raises ZeroDivisionError; otherwise (x / y)·y == x and (x·y) / y == x |
| DualNumbers.DivByScalar | DualNumbers.py:99-100 | ÷ 0 raises ZeroDivisionError; otherwise multiplying the quotient by the scalar gives x back |
| DualNumbers.PowNatural | DualNumbers.py:105-115 | for n ≥ 0, x**n succeeds with real part aⁿ and dual part n·aⁿ⁻¹·b (0 for n = 0) |
| DualNumbers.PowZero | DualNumbers.py:113-114 | x**0 is Dual(1, 0) |
| DualNumbers.PowPositive | DualNumbers.py:115 | for n > 0, x**n is (aⁿ, n·aⁿ⁻¹·b) |
| DualNumbers.PowErrors | DualNumbers.py:105-115 | a non-integer exponent raises ValueError, a negative exponent of a zero real part raises ZeroDivisionError, and every other integer exponent succeeds |
| DualNumbers.PowIsRepeatedMul | DualNumbers.py:83-115 | x**(n+1) == x**n · x, so `**` agrees with repeated multiplication |
| DualNumbers.PowMinusOne | DualNumbers.py:93-115 | for a non-zero real part, x**-1 == 1 / x |
| DualNumbers.ConjugateLaws | DualNumbers.py:117-124 | conjugate keeps the real part and negates the dual part, is an involution, and x·x̄ and x + x̄ are real |
| DualNumbers.DualEvaluation | DualNumbers.py:63-115 | with every constant taken as a Dual with no dual part, evaluating a polynomial expression at Dual(x, 1) gives its value and its derivative at x |
| DualNumbers.ConstantLifted | DualNumbers.py:63-115 | an expression without the variable evaluates, with lifted constants, to its plain value with no dual part |
| DualNumbers.ValueEvaluation | DualNumbers.py:63-115 | Python's evaluation on a Dual raises `TypeError` iff some operator has a variable-free left operand and the variable on its right. Otherwise it gives the lifted-constant evaluation as a Dual when the variable occurs, and the plain value when it does not |
| DualNumbers.DifferentiatePolynomial | DualNumbers.py:128-136 | `differentiate` of a polynomial expression is its derivative when the variable occurs and no plain number meets a Dual on its right. A constant function raises `AttributeError`, and any other expression raises `TypeError` |
| DualNumbers.DifferentiateExample | DualNumbers.py:157-160 | for f(x) = x**2 + x*2 + 1, `differentiate(f, x)` is 2x + 2, and 38 at x = 18 |

## Left out

- The Qt user interface: windows, signals, `QThread` start and stop, message boxes and file dialogs. `should_stop` is modelled as a field read sequentially at each checkpoint. A stop request arriving from another thread is an oracle `stopRequested(k)` consulted at the k-th checkpoint. Cross-thread visibility is not modelled.
- The float root `int(max_sum ** (1.0 / power)) + 1` (`power_sum_visual.py:93`): `max_individual` is a parameter m. Completeness beyond m is proved under (m + 1)ᵖ ≥ max_sum.
- Wall-clock `computation_time` and the `error` signal for exceptions: exact integers cannot raise here, and the timing is I/O.
- The progress percentage, the matplotlib drawing, `export_png` and the file write of the CSV export. The model produces the exported text.
- PowerSumView.OnClick: the display transform is an abstract map from sums and counts to reals, the click is given already transformed to display coordinates, and squared distances are compared with 2500. The square root is monotone, so the choice, the tie order and the threshold are the same. Floating-point rounding is not modelled.
- PowerSumView.ExportCsv: the text is what Python's `csv` writer produces in its default dialect. A field is quoted when it contains a comma, a quote or a line break, as in section 2 of RFC 4180, and rows end with CR LF. UTF-8 encoding is not modelled.
- `interpolate_color`, `generate_gradient` and the image functions of `colorGrad.py`: float steps and numpy, PIL or plotly display.
- `RGB.__str__`, `RGB.__repr__`, `Dual.__str__` and `Dual.__repr__`: text formatting with rounding.
- ColorGrad.RGB.Times: the factor is an integer. A float factor is not modelled. With one, Python's constructor raises `ValueError` in `:02x` unless every product is at least 255, since `min` then returns the integer 255.
- ColorGrad.RGB.FloorDivide: the divisor is an integer. A float divisor is not modelled. With one, 0.0 gives black, and any other float makes the quotients floats, so `:02x` raises `ValueError`.
- ColorGrad.RGB.SetHex: parses each two-character slice as `int(s, 16)` does for ASCII text: surrounding whitespace (blank, \t, \n, \v, \f, \r and \x1c–\x1f), an optional sign and hex digits. Unicode whitespace and digits, and underscores between digits, are not modelled. A malformed slice is an error result in place of the raised `ValueError`.
- ColorGrad.Lower: case mapping of A–Z only. Other Unicode letters are not lower-cased.
- Operators with an operand that is neither a Dual nor a number are not modelled; `Operand` is a Dual or a real.
- DualNumbers: numbers are exact reals, so float rounding and overflow are not modelled. `int` and `float` operands are both reals.
- DualNumbers.Pow: a negative integer exponent of a non-zero real part gives aⁿ as an exact real, where Python gives a float.
- DualNumbers.DifferentiatePolynomial: stated for polynomial expressions built from the variable, constants, +, −, × and natural powers. Functions using division are covered by the division laws, not by this lemma.
- Sieve.SieveComplete: completeness is proved for n ≤ 120 only. Soundness is proved for every n. Above 120 a composite may in principle survive because of the skip after `remove`, and no general argument is modelled.
- Sieve.IsPrimeByMembership: decides primality exactly only for numbers ≤ 120, for the same reason.
- The `input()` and `print` of the sieve's `main`. The unused `prime_sieve(100)` at line 25 is covered by `Sieve.SieveComplete`.
- The other programs in the repository: the data plotters, the camera formulas and text-to-speech. They are float formulas, plots or audio.
