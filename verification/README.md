# Square-root digital expansion: a Dafny model

This project models the program that solves Project Euler problem 80. For
each natural number x from 1 to n that is not a perfect square, the program
works out the first hundred digits of √x and adds up their digit sum.

The program keeps exact decimals in a `DecimalArray` class. A
`DecimalArray` is a list of decimal digits stored least significant first,
plus a count of how many of the low digits lie after the decimal point. The
class offers an int constructor and a digit-list constructor, `clean`
(strip redundant zeros), `floor`, `+` and `*`. `*` takes either a single
digit or another decimal. The search in `main` starts from ⌊√x⌋. It then
appends one fractional digit at a time. For each new place it tries 9 down
to 1 and keeps the first digit whose squared approximation has a floor below
x; if none fits it takes 0.

The modules, in dependency order:

- `Arith`: `Shift` (v·10^k), `Unshift` (⌊v/10^k⌋), `Mul` and `Sq`. Each is a
  recursive definition, with lemmas tying it to `*`.
- `DigitSeq`: digit lists and their value. It also holds the `str`/`int`
  conversions (`ToDigits`, `Value`), `Zeros`, `Reverse` and `DigitSum`.
- `Decimals`: the `DecimalArray` operations. Python exceptions become a
  `Result` type with `AssertionError`, `ValueError` and `IndexError`. Where
  the code departs from its evident intent there are two members. The plain
  one follows the code as written. The `Fixed` one carries the intended
  property.
- `DecimalLaws`: properties that relate several operations, and the
  counterexamples behind the findings below.
- `RootSearch`: `decimal_square`, `is_square`, the digit search and the
  summation in `main`.

The correctness argument for the search rests on one invariant. After k
fractional digits, the scaled approximation A is the largest integer with
A² < x·100^k. `GreedyStep` shows that the digit loop keeps this invariant.
`SearchRoot` ends with the digits of that integer. Since x·100^k is never a
perfect square when x is not (`ScaledNonSquare`), that integer is
⌊√x·10^k⌋. `RootDigitSum` is an independent description of the digit sum:
it reads the number of places off x's digit count (`RootPlaces`) and sums
the top hundred digits in place. `SumOfRootDigitSums` is proved to return
the sum of `RootDigitSum` over the non-squares in 1..n.

## Model

| member | source | states |
|---|---|---|
| Decimals.FromInt | decimal_array.py:9-12 | a negative int is refused with `AssertionError`; otherwise the decimal has no places, and its digits are the canonical digits of n (no leading zero), whose value is n |
| Decimals.FromDigits | decimal_array.py:13-18 | succeeds exactly when every element is a digit and the place count is non-negative; the stored list is the given list, or its reverse element by element when `reverse` is set |
| DigitSeq.ToDigits | decimal_array.py:11 | the digits of `str(n)` reversed have value n, have no leading zero, and are `[0]` exactly for zero |
| DigitSeq.CanonicalRoundTrip | decimal_array.py:11 | a digit list without a leading zero is the list `str` prints for its value, so value and digits are inverse |
| DigitSeq.Reverse | decimal_array.py:17 | `[::-1]` keeps the length and puts element i at position n-1-i |
| DigitSeq.Zeros | decimal_array.py:52-63 | `[0 for _ in range(k)]` is k zeros, none for k ≤ 0, and adds nothing to a value |
| Decimals.OfNat | decimal_array.py:9-12 | the int constructor's decimal: no places, canonical digits whose value is n |
| Decimals.IntOfDigits | decimal_array.py:36 | `int(''.join(...))` fails with `ValueError` exactly on an empty digit list, and otherwise reads the value of the digits |
| DigitSeq.ValueZeroIff | decimal_array.py:23-29 | a digit list is zero exactly when every digit is zero |
| DigitSeq.ValueLowZeros | decimal_array.py:51-54 | zeros put below the digits multiply the value by 10^k |
| DigitSeq.ValueHighZeros | decimal_array.py:60-63 | zeros put above the digits leave the value unchanged |
| DigitSeq.ValueSuffix | decimal_array.py:36 | dropping the k lowest digits is floor division by 10^k |
| Decimals.LowZeros | decimal_array.py:23-25 | the first loop of `clean` pops only zeros, and stops at a non-zero digit, at the end of the list, or when no decimal place is left |
| Decimals.HighEnd | decimal_array.py:28-29 | the second loop pops only zeros from the top, keeps at least one digit, and stops at a non-zero top digit |
| Decimals.Clean | decimal_array.py:21-31 | the result has no removable zero and represents the same number; places only decrease; digits run out exactly when the number is zero and every stored digit is fractional, and then one place is given up per digit popped |
| Decimals.CleanIsSlice | decimal_array.py:21-31 | `clean` removes digits only from the two ends, so what is left is a contiguous run of the original list |
| Decimals.CleanKeepsValue | decimal_array.py:21-31 | removing zeros below and above a run of digits keeps the value, up to the places given up |
| Decimals.CleanFixesClean | decimal_array.py:21-31 | a decimal with no removable zero is left unchanged |
| Decimals.CleanIdempotent | decimal_array.py:21-31 | cleaning twice is cleaning once |
| DecimalLaws.CleanWholeNumber | decimal_array.py:21-31 | a whole number with at least one digit cleans to exactly the digits the int constructor gives |
| DecimalLaws.CleanZeroLeavesNoDigits | decimal_array.py:21-31 | 0.0 cleans to an empty digit list, which the decimal product then refuses with `ValueError` |
| Decimals.Floor | decimal_array.py:33-36 | fails with `ValueError` exactly when there are more places than stored digits; otherwise it is the integer part ⌊value/10^places⌋ |
| Decimals.FloorFixed | decimal_array.py:33-36 | the corrected floor gives the integer part of every decimal |
| Decimals.FloorAgreesWithFixed | decimal_array.py:33-36 | where the code's floor succeeds it equals the corrected floor |
| Decimals.FloorOfClean | decimal_array.py:21-36 | for a value of at least one, floor after clean succeeds with the integer part of the uncleaned decimal |
| DecimalLaws.FloorOfInt | decimal_array.py:9-12 | round trip: the floor of the decimal built from a non-negative int n is n |
| Decimals.AlignPlaces | decimal_array.py:48-55 | after padding the low end, both operands have the larger place count and keep their values |
| Decimals.AddLoop | decimal_array.py:66-75 | the digit loop fails with `IndexError` exactly when a list runs out before `count` rounds; otherwise its digits are the sum of the two `count`-digit prefixes, exactly `count` of them when the sum is zero |
| Decimals.AddDigitsRaw | decimal_array.py:57-75 | as written, adding digit lists fails with `IndexError` exactly when the left list is shorter; otherwise it gives the digits of the sum, as many as the left list when the sum is zero |
| Decimals.AddRaw | decimal_array.py:44-77 | the uncleaned sum fails exactly when the left operand's `len(digits) − places` (which may be negative) is smaller than the right one's, so 0.05 + 0.5 fails as well as 1 + 10; otherwise it is the sum at the larger place count, and a zero sum keeps the left operand's aligned length |
| Decimals.AsDecimal | decimal_array.py:41-42 | a decimal operand is used as it is, and an int operand is converted exactly as the int constructor converts it |
| Decimals.Add | decimal_array.py:38-79 | a negative int is refused; otherwise the sum fails with `IndexError` exactly when the left operand's `len(digits) − places` (which may be negative) is smaller than the right one's; a successful sum is clean and represents a + b; it has no digits exactly when the sum is zero and the left operand has no integer digits, and then `len(digits) − places` of the left operand, negated, places remain (0.0 + 0.0 gives no digits and 0 places) |
| Decimals.AddDigits | decimal_array.py:57-75 | with both lists padded to the longer one, the digits are those of the sum, never shorter than either operand |
| Decimals.AddRawFixed | decimal_array.py:44-77 | the corrected uncleaned sum always represents a + b at the larger place count |
| Decimals.AddFixed | decimal_array.py:38-79 | with the corrected padding only a negative int fails; the result is clean and represents a + b |
| Decimals.AddAgreesWithFixed | decimal_array.py:38-79 | where the code's `+` succeeds it equals the corrected one |
| Decimals.AddDigitsAgree | decimal_array.py:57-75 | when the left list is not shorter, the as-written padding sums the same digits as the corrected one |
| DecimalLaws.AddOfIntegers | decimal_array.py:38-79 | adding whole numbers a + b succeeds exactly when b has no more digits than a, and then gives the decimal of a + b |
| DecimalLaws.AddFixedOfIntegers | decimal_array.py:38-79 | with the corrected padding, whole numbers always add to the decimal of a + b |
| DecimalLaws.AddShorterLeftFails | decimal_array.py:60-71 | 1 + 10 fails with `IndexError` as written; the corrected sum is 11 |
| Decimals.MulDigitLoop | decimal_array.py:92-95 | as written the loop appends each digit unchanged, and its final carry is ⌊other·value / 10^n⌋ |
| Decimals.MulDigitLoopFixed | decimal_array.py:92-95 | with the product digit appended, the digits plus the final carry times 10^n make other·value + carry |
| Decimals.ProductDigitStep | decimal_array.py:93-95 | one round of the corrected loop keeps that equation |
| Decimals.CarryStep | decimal_array.py:93-94 | one round of the carry is floor division of the running product by ten |
| Decimals.CarryDigits | decimal_array.py:98-100 | the carry's digits, least significant first, have the carry's value; none for a zero carry |
| Decimals.MulDigit | decimal_array.py:81-105 | multiplying by something other than a digit 0..9 fails with `AssertionError`; otherwise the result is the original digits with the final carry's digits on top, places kept, cleaned |
| DecimalLaws.MulDigitValue | decimal_array.py:84-105 | as written, a decimal of n digits and value v times d represents v + ⌊d·v/10^n⌋·10^n, not d·v |
| DecimalLaws.MulDigitByZeroOrOne | decimal_array.py:84-105 | as written, times 0 or times 1 returns the operand cleaned |
| DecimalLaws.MulDigitKeepsOperandDigits | decimal_array.py:95 | as written, a·2 for a digit a in 5..9 represents a + 10, while the corrected multiply gives 2a, which differs |
| Decimals.MulDigitFixed | decimal_array.py:81-105 | the corrected single-digit multiply refuses non-digits; otherwise the result is clean and represents other·value at the same places |
| DecimalLaws.MulDigitFixedOfInteger | decimal_array.py:84-105 | the corrected multiply of a whole number a by d is the decimal of d·a |
| Decimals.MulDecimal | decimal_array.py:107-118 | the decimal product fails with `ValueError` exactly when either digit list is empty; otherwise it is clean and represents the product with the places added; a zero product with places to give up cleans to no digits and one place fewer; a further `*` on it fails, and so does `floor` when the places add up to two or more |
| DecimalLaws.MulDecimalOfIntegers | decimal_array.py:107-118 | the product of two whole numbers is the decimal of their product |
| DecimalLaws.SelfProduct | decimal_array.py:107-118 | a decimal times itself is the cleaned digits of its squared value, with the places doubled |
| DecimalLaws.SquareFloor | decimal_array.py:107-118 | squaring a decimal of at least one and taking the floor never fails, and gives ⌊v²/10^(2·places)⌋ |
| DecimalLaws.FloorFailsBelowOneTenth | decimal_array.py:36 | 0.d·0.1 for a non-zero digit d is 0.0d, whose floor fails with `ValueError`, where the corrected floor is 0 |
| RootSearch.DecimalSquare | main.py:20-45 | a bad list or count fails with `AssertionError`, and an empty list fails with `ValueError`; otherwise the digits have no leading zero, represent the square of the value, and the place count doubles |
| RootSearch.DecimalSquareIsSelfProduct | main.py:41-45 | `decimal_square` agrees with squaring through the decimal `*`: the same number, before and after `clean` |
| RootSearch.Isqrt | main.py:101 | the seed r satisfies r² ≤ x < (r+1)², the exact value of ⌊√x⌋ |
| RootSearch.RootBelow | main.py:104-120 | the reference root: the largest integer whose square is below X |
| RootSearch.RootBelowUnique | main.py:104-120 | a square bracket a² < X ≤ (a+1)² determines its root |
| RootSearch.IsSquare | main.py:48-63 | a non-positive argument fails with `AssertionError`; otherwise the answer is true exactly when n is a perfect square |
| RootSearch.IsqrtDecidesSquare | main.py:62-63 | x is a perfect square exactly when ⌊√x⌋² = x |
| RootSearch.TargetIsShift | main.py:116 | x·100^k is x shifted by 2k decimal places |
| RootSearch.FloorBelowIff | main.py:116 | the floor of v²/10^(2k) is below x exactly when v² < x·100^k |
| RootSearch.SquareThenFloor | main.py:115-116 | squaring an approximation of at least one and taking the floor gives ⌊v²/10^(2·places)⌋ |
| RootSearch.FloorBelow | main.py:115-116 | the test in the digit loop is true exactly when the trial digit keeps the square below x·100^places |
| RootSearch.NextDigit | main.py:109-120 | the chosen digit fits, or is 0, and no larger digit fits |
| RootSearch.Trial | main.py:106-110 | inserting d below the digits and adding a place gives one more digit, d at the bottom, and scaled value d + 10·A |
| RootSearch.GreedyStep | main.py:104-120 | if A² < x·100^k ≤ (A+1)² and d is the largest fitting digit, then B = 10A + d keeps the bracket one place further on |
| RootSearch.BracketStep | main.py:104-120 | the chosen digit keeps the approximation the largest root below x·100^places |
| RootSearch.SearchStart | main.py:101 | the seed ⌊√x⌋ of a non-square x already satisfies the search invariant |
| RootSearch.SeedStep | main.py:106-107 | inserting a digit at the low end keeps the seed's digits on top and adds one place |
| RootSearch.SearchStep | main.py:104-120 | one pass of the `while` loop keeps the search invariant |
| RootSearch.SeedDone | main.py:104 | when the loop stops, the search has appended exactly the places the hundred-digit budget allows |
| RootSearch.BracketsRoot | main.py:104-120 | an approximation that keeps the bracket and has no leading zero holds the digits of the largest root below x·100^places |
| RootSearch.IsqrtOfBracket | main.py:101 | the seed of the search is ⌊√x⌋ |
| RootSearch.RootOfHundredfold | main.py:104-120 | a square that is a multiple of 100 has a root that is a multiple of 10 |
| RootSearch.HundredthOfSquare | main.py:104-120 | if 100·t is a perfect square, so is t |
| RootSearch.ScaledNonSquare | main.py:104-120 | x·100^k is never a perfect square when x is not |
| RootSearch.RootBelowNonSquare | main.py:104-120 | below a non-square X, the largest integer whose square is below X is ⌊√X⌋ |
| RootSearch.SearchRoot | main.py:100-123 | for a non-square x, the search ends with `RootPlaces(x)` places and at least a hundred digits, exactly a hundred when ⌊√x⌋ has at most a hundred; the digits are those of ⌊√x·10^places⌋, the largest integer whose square is below x·100^places, and the digit sum is `RootDigitSum(x)` |
| RootSearch.LastDigits | main.py:122 | `digits[-100:]` is the top hundred digits, or all digits when there are fewer, in their original order |
| RootSearch.SumFromIsDigitSum | main.py:122 | summing the digits in place from a position upwards equals summing the list of those digits |
| RootSearch.TopDigitSumIsLastDigits | main.py:122 | `sum(digits[-100:])` equals the sum of the top hundred digits taken in place |
| RootSearch.SquareBetweenPow10 | main.py:101-104 | if the seed s has k digits, then 10^(2k-2) ≤ x < 10^(2k) for any x between s² and (s+1)² |
| RootSearch.DigitCountBetween | main.py:104 | a number in [10^lo, 10^hi) has more than lo and at most hi digits |
| RootSearch.RootPlacesOfSeed | main.py:101-107 | the places the loop appends after the seed ⌊√x⌋ depend on x only through its digit count: the seed has ⌈d/2⌉ digits when x has d |
| DigitSeq.DigitSum | main.py:122 | the digit sum is at most 9 per digit and is zero exactly for a zero value |
| RootSearch.TermOf | main.py:97-123 | a pass of the loop adds 0 for a perfect square and `RootDigitSum(x)` otherwise |
| RootSearch.SumOfRootDigitSums | main.py:66-125 | a non-positive n fails with `AssertionError`; otherwise the result is the sum of `RootDigitSum(x)` over the x in 1..n that are not perfect squares |

## Left out

- The floating-point `sqrt` in `is_square` and in the seed `floor(sqrt(x))` is replaced by the exact integer root `Isqrt`. A correctly rounded `sqrt` gives the same answers for small x, but the model does not reason about floating point.
- The `__main__` block (reading n with `input` and printing the total) is I/O and is not modelled.
- The commented-out code at the end of decimal_array.py (lines 120-144) is not part of the program.
- The `type(...)` checks in the assertions are fixed by Dafny's types. Only the range and sign checks are modelled; they fail with `AssertionError`.
- In-place mutation is modelled by values: the digit list, `pop`, `insert` and `clean` on `self` become functions returning a new `DecimalArray`.
- `main` inserts `None` as a placeholder digit and then overwrites it. The model tries each digit in the new place directly.
- RootSearch.SumOfRootDigitSums: the total is proved equal to the sum of `RootDigitSum` over the non-squares, but no concrete total (such as the answer for n = 100) is evaluated.
- Decimals.FromInt, Decimals.Floor, Decimals.MulDecimal, Decimals.IntOfDigits, RootSearch.DecimalSquare: the `str`/`int` conversions (`list(str(n))` and `int(''.join(...))` at decimal_array.py:11, 36, 109-110 and 113 and main.py:42-44) are modelled by the exact `ToDigits` and `Value`, so these members state their failure cases for numbers of any length. CPython 3.11 and later (and the 3.7.14, 3.8.14, 3.9.14 and 3.10.7 security releases) also raise `ValueError` when such a conversion involves more than 4300 digits. That limit is not modelled; `main`'s numbers stay near 200 digits, far below it.
- Decimals.MulDecimal: the failure case is stated as an empty digit list. In the code, `int('')` on the joined digit string raises `ValueError`; the model treats the two as the same case.

## Findings

| source | as written | input that shows it | evidently intended | confidence | as-written member | corrected member |
|---|---|---|---|---|---|---|
| decimal_array.py:63 | pads the left list with `range(count1 - count2)` zeros, which is none when it is the shorter list, so the loop pops past its end | 1 + 10 raises `IndexError` | pad with `count2 - count1` zeros, giving 11 | high, not executed | DecimalLaws.AddShorterLeftFails | Decimals.AddFixed |
| decimal_array.py:95 | appends `d1`, the operand's digit, in place of the product digit `d` | 5 * 2 gives 15 | append `d`, giving 10 | high, not executed | DecimalLaws.MulDigitKeepsOperandDigits | Decimals.MulDigitFixed |
| decimal_array.py:36 | appends a single zero before slicing off `decimal_places` digits, which leaves an empty list when there are more places than stored digits | 0.5 * 0.1 = 0.05, whose `floor()` raises `ValueError` from `int('')` | pad with enough zeros that the integer part is never empty, giving 0 | high, not executed | DecimalLaws.FloorFailsBelowOneTenth | Decimals.FloorFixed |

None of the three changes what `main` computes. `main` uses neither `+` nor the single-digit `*`. Every approximation it squares is at least one, and `SquareFloor` shows that the floor of such a square always succeeds. The search is therefore modelled on the as-written members.
