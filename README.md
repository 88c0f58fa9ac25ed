# A verified model of the go-finance-sdk core

This project models five parts of a Go finance SDK in Dafny and proves properties about them:

- the backoff **retry loop** of package `resilience`;
- the **trip rule** the package gives its circuit breaker;
- the **Money** value object: an exact decimal amount with an upper-case currency code;
- the **historical Value at Risk** calculation of package `risk`;
- the **instruments** (equities and European options) behind the `Instrument` interface.

Files:

- `wrappers.dfy`: `Option` and `Result`.
- `numerics.dfy`: Go's float-to-integer truncation, powers of two, and Go's 64-bit `1 << i`.
- `retry.dfy`: `Retry`.
  - The environment of one call is three scripts indexed by attempt: what the operation returns, whether the context is cancelled during the following wait, and the `rand.Float64()` draw for that wait's jitter.
  - The method runs the loop and is proved equal to a recursive reference function, `Run`.
  - The properties are proved about `Run`.
- `breaker.dfy`: the `ReadyToTrip` callback.
- `money.dfy`:
  - `Money` with `New`, `Add`, `Sub`, `Mul`, `Div`, `String` and the sign tests;
  - `strings.ToUpper` restricted to ASCII;
  - `StringFixed(2)` as a function writing a count of hundredths, with a parser that reads it back.
- `risk.dfy`: `CalculateHistoricalVaR`.
  - An imperative method over arrays: it copies the input, sorts the copy in place, then reads one element.
  - It is proved equal to a specification function on sequences.
- `instrument.dfy`: `Equity`, `Option`, and the `Instrument` interface as a union of the two.

Amounts, prices, returns and jitter factors are reals, so decimal and floating-point arithmetic is exact here. Durations are integers counting nanoseconds, as `time.Duration` does.

## Model

| member | source | states |
|---|---|---|
| Numerics.TruncateToInt | pkg/common/resilience/retry.go:54 | converting a float to an integer drops the fraction toward zero: the result lies within one of x, on the side of zero |
| Numerics.TruncateMonotone | pkg/risk/var.go:18 | truncation toward zero preserves order |
| Numerics.Pow2Monotone | pkg/common/resilience/retry.go:42-43 | the power of two used for the backoff grows with the attempt number |
| Numerics.WrapInt64 | pkg/common/resilience/retry.go:42 | the 64-bit two's complement value lies in [-2^63, 2^63) and differs from x by a multiple of 2^64 |
| Numerics.ShiftLeftOne | pkg/common/resilience/retry.go:42 | Go's `1 << i` on a 64-bit int as i wrapped doublings of 1; its values are given by ShiftLeftOneOverflow |
| Numerics.ShiftLeftOneOverflow | pkg/common/resilience/retry.go:42 | derived from the wrapped doublings: `1 << i` is 2^i only below 63; it is -2^63 at 63 and zero beyond |
| Numerics.ShiftBelow63 | pkg/common/resilience/retry.go:42 | helper of ShiftLeftOneOverflow: below 63 no doubling wraps |
| Numerics.ShiftFrom63 | pkg/common/resilience/retry.go:42 | helper of ShiftLeftOneOverflow: the doubling at 63 wraps to -2^63, the next to 0, and zero stays zero |
| Numerics.Pow2Add | pkg/common/resilience/retry.go:42 | helper: 2^(a+b) = 2^a · 2^b, used to compute 2^62 |
| Retry.Backoff | pkg/common/resilience/retry.go:41-46 | the capped exponential backoff; BackoffCappedAndMonotone states it is at most MaxDelay and non-decreasing |
| Retry.Delay | pkg/common/resilience/retry.go:48-54 | the delay waited after an attempt; DelayWithoutJitter and DelayWithJitter state its value and bounds |
| Retry.Run | pkg/common/resilience/retry.go:28-65 | the reference behaviour of the loop; RunCallsBounded, RunStopReason, RunWaits and RunEarlierAttemptsFailed state what it returns, how often it calls, and what it waits |
| Retry.Retry | pkg/common/resilience/retry.go:28-65 | the loop returns exactly the trace of the reference behaviour `Run`: the error returned, the number of calls, and the waits in order |
| Retry.RunCallsBounded | pkg/common/resilience/retry.go:30 | the operation is called at least once if MaxRetries >= 0, and at most MaxRetries+1 times |
| Retry.RunEarlierAttemptsFailed | pkg/common/resilience/retry.go:32-59 | every call before the last one failed, and the wait after it was not cancelled |
| Retry.RunStopReason | pkg/common/resilience/retry.go:32-61 | nil exactly when the last call succeeded; the context error exactly when a non-final attempt failed and its wait was cancelled; otherwise the final attempt's own error |
| Retry.RunWaits | pkg/common/resilience/retry.go:41-62 | the waits are the delays of attempts 0, 1, … in order: one after each call but the last, plus the interrupted one on cancellation |
| Retry.NegativeMaxRetriesNeverCalls | pkg/common/resilience/retry.go:30-64 | a negative MaxRetries never calls the operation and returns nil |
| Retry.AlwaysFailingExhaustsAttempts | pkg/common/resilience/retry.go:25-39 | an operation that always fails, with no cancellation, is called MaxRetries+1 times, and its last error is returned after MaxRetries waits |
| Retry.FirstSuccessStops | pkg/common/resilience/retry.go:32-34 | the first success ends the loop with nil after j+1 calls |
| Retry.CancellationStops | pkg/common/resilience/retry.go:57-62 | cancellation during the wait after attempt j returns the context error, with no further call |
| Retry.BackoffCappedAndMonotone | pkg/common/resilience/retry.go:42-46 | no backoff exceeds MaxDelay, and backoffs never decrease with the attempt number |
| Retry.ScaleMonotone | pkg/common/resilience/retry.go:43 | helper of BackoffCappedAndMonotone: a non-negative base delay scales two powers without reversing their order |
| Retry.DelayWithoutJitter | pkg/common/resilience/retry.go:42-54 | without jitter the delay is `min(MaxDelay, BaseDelay * 2^i)` |
| Retry.DelayWithJitter | pkg/common/resilience/retry.go:48-54 | with jitter, the delay lies between 0.8 and 1.2 times the backoff, up to truncation |
| Retry.ScaledWithin | pkg/common/resilience/retry.go:50-54 | a duration scaled by a factor in [0.8, 1.2) and truncated stays within [⌊0.8·d⌋, 1.2·d], strictly below 1.2·d when d > 0 |
| Retry.WaitsNonDecreasing | pkg/common/resilience/retry.go:41-46 | without jitter the waits of one call never decrease and never exceed MaxDelay |
| Retry.DefaultBackoffs | pkg/common/resilience/retry.go:18-23 | the default settings give backoffs of 100ms, 200ms and 400ms after the first three failures |
| Retry.DefaultScheduleAlwaysFailing | pkg/common/resilience/retry.go:18-65 | with the default settings and jitter off, an always-failing operation is called four times, with waits of 100ms, 200ms and 400ms, and its fourth error is returned |
| Retry.BackoffAsWritten | pkg/common/resilience/retry.go:42-46 | the backoff with the source's 64-bit shift; BackoffAsWrittenAgrees and BackoffOverflowCounterexample state where it agrees with Backoff and where it does not |
| Retry.JitteredDelayBeyondInt64 | pkg/common/resilience/retry.go:48-54 | with jitter, a MaxDelay of 250 years, below 2^63 ns and so a valid Duration, gives a delay of at least 2^63 ns, outside the int64 range of `time.Duration(backoff)` |
| Retry.NegativeBaseDelayBeyondInt64 | pkg/common/resilience/retry.go:42-54 | a BaseDelay of -1s escapes the cap and gives a delay below -2^63 ns after attempt 34, with or without jitter |
| Retry.BackoffAsWrittenCases | pkg/common/resilience/retry.go:42-46 | for positive delays, the source's backoff is MaxDelay once the shift reaches it, negative for a negative shift and zero for a zero shift |
| Retry.BackoffAsWrittenAgrees | pkg/common/resilience/retry.go:42-46 | below attempt 63 the source's shift-based backoff equals the exact backoff |
| Retry.BackoffOverflowCounterexample | pkg/common/resilience/retry.go:37-46 | with the default delays and MaxRetries of at least 65 (so attempts 62 to 64 are each followed by a wait), the source's backoff is 2s after attempt 62, negative after 63 and zero after 64 |
| Breaker.ReadyToTrip | pkg/common/resilience/breaker.go:22-27 | the trip rule over naturals; ReadyToTripIsRatioTest states it is the source's ratio test, and NoTripBelowMinRequests, TripMonotoneInFailures and TripIgnoresOtherCounts state its behaviour |
| Breaker.ReadyToTripIsRatioTest | pkg/common/resilience/breaker.go:22-27 | the integer rule `requests >= 3 && 5·failures >= 2·requests` is exactly the source's `Requests >= 3 && TotalFailures/Requests >= 0.4` |
| Breaker.RatioAtLeastTwoFifths | pkg/common/resilience/breaker.go:25-26 | helper of ReadyToTripIsRatioTest: for a positive denominator, a ratio of at least 0.4 is the cross-multiplied comparison |
| Breaker.NoTripBelowMinRequests | pkg/common/resilience/breaker.go:26 | fewer than three requests never trip |
| Breaker.TripExamples | pkg/common/resilience/breaker.go:22-27 | 2 of 3 and 2 of 5 failures trip; 1 of 3 and 1 of 5 do not |
| Breaker.TripMonotoneInFailures | pkg/common/resilience/breaker.go:25-26 | for a fixed request count, more failures never undo a trip |
| Breaker.TripIgnoresOtherCounts | pkg/common/resilience/breaker.go:22-27 | only Requests and TotalFailures decide a trip; TotalSuccesses and the consecutive counters are ignored |
| Money.ToUpper | pkg/money/money.go:21 | upper-casing keeps the length and maps every character through the ASCII upper-case map |
| Money.ToUpperKeepsUpper | pkg/money/money.go:21 | upper-casing an upper-case code changes nothing |
| Money.New | pkg/money/money.go:17-23 | the amount is kept; the currency is upper case and equal to the argument up to case |
| Money.Money.Add | pkg/money/money.go:49-55 | success exactly when the currencies are equal, with the sum of the amounts in the same currency; otherwise the mismatch error naming both currencies |
| Money.Money.Sub | pkg/money/money.go:57-63 | success exactly when the currencies are equal, with the difference of the amounts in the same currency; otherwise the mismatch error |
| Money.Money.Mul | pkg/money/money.go:65-68 | the amount times the scalar, in the same currency |
| Money.Money.Div | pkg/money/money.go:70-73 | for a non-zero scalar, an amount that multiplied by the scalar gives back the original, in the same currency |
| Money.Money.String | pkg/money/money.go:75-78 | the rendering; StringLayout states its layout and that its number reads back as the rounded amount, and StringExample the test's "100.50 USD" |
| Money.Money.IsZero | pkg/money/money.go:80-83 | the amount is zero; ExactlyOneSign states that exactly one of the three sign tests holds |
| Money.Money.IsPositive | pkg/money/money.go:85-88 | the amount is above zero; ExactlyOneSign relates it to the other two tests |
| Money.Money.IsNegative | pkg/money/money.go:90-93 | the amount is below zero; ExactlyOneSign relates it to the other two tests |
| Money.Cents | pkg/money/money.go:77 | the amount rounded to hundredths; RoundHalfAwayFromZero states the rounding |
| Money.FormatCents | pkg/money/money.go:77 | `StringFixed(2)` on a count of hundredths; FormatCentsRoundTrip states it reads back exactly with a point and two digits |
| Money.RoundHalfAwayFromZero | pkg/money/money.go:77 | rounding lands within half a unit of x, with halves going away from zero |
| Money.DecimalString | pkg/money/money.go:77 | the whole part is written in decimal digits, with a leading zero only for zero |
| Money.DecimalRoundTrip | pkg/money/money.go:77 | the decimal digits of n read back as n |
| Money.FormatCentsRoundTrip | pkg/money/money.go:77 | the two-decimal rendering of a count of hundredths has a point and two digits, and reads back as that count, sign included |
| Money.ParseLayout | pkg/money/money.go:77 | helper of FormatCentsRoundTrip: a sign, a run of digits, a point and two digits read back as the signed number they spell |
| Money.HundredthsSplit | pkg/money/money.go:77 | helper of FormatCentsRoundTrip: hundreds, tens digit and units digit recompose the count |
| Money.StringLayout | pkg/money/money.go:75-78 | `String` is the amount rounded to hundredths, written with two decimals, a space and the currency code |
| Money.StringExample | pkg/money/money_test.go:70-73 | 100.5 USD is written "100.50 USD" |
| Money.FormatCentsExample | pkg/money/money_test.go:70-73 | 10050 hundredths are written "100.50" |
| Money.NewExample | pkg/money/money_test.go:10-14 | `New` keeps 100 and USD, `Amount` and `Currency` return them, and "usd" is upper-cased |
| Money.GettersOfNew | pkg/money/money.go:39-47 | `Amount` returns the amount given to `New`, and `Currency` the upper-cased code |
| Money.MismatchMessage | pkg/money/money.go:51-52 | both `Add` and `Sub` fail on a mismatch with the message "currency mismatch: <receiver's code> vs <other's code>" |
| Money.MismatchMessageExample | pkg/money/money.go:59-60 | 100 USD plus 50 EUR reports "currency mismatch: USD vs EUR" |
| Money.AddSubExamples | pkg/money/money_test.go:32-56 | 100 USD + 50 USD = 150 USD; 100 USD - 50 USD = 50 USD; EUR operands fail |
| Money.MulDivExamples | pkg/money/money_test.go:58-68 | 100 USD × 1.5 = 150 USD; 100 USD / 2 = 50 USD |
| Money.AddCommutative | pkg/money/money.go:49-55 | Add succeeds in one order exactly when it succeeds in the other, and then gives the same value |
| Money.SubAntisymmetric | pkg/money/money.go:57-63 | swapping the operands of Sub negates the difference |
| Money.AddSubRoundTrip | pkg/money/money.go:49-63 | Sub undoes Add and Add undoes Sub within one currency |
| Money.MulDivRoundTrip | pkg/money/money.go:65-73 | Div undoes Mul and Mul undoes Div by the same non-zero scalar |
| Money.ExactlyOneSign | pkg/money/money.go:80-93 | every amount is exactly one of zero, positive or negative |
| Risk.InsertPermutes | pkg/risk/var.go:16 | inserting one return adds exactly that element |
| Risk.InsertLowerBound | pkg/risk/var.go:16 | a lower bound of the inserted return and of the sequence bounds the result |
| Risk.InsertSorted | pkg/risk/var.go:16 | insertion into an ascending sequence keeps it ascending |
| Risk.SortSeq | pkg/risk/var.go:14-16 | the sorted copy is ascending and a permutation of the returns |
| Risk.SortedUnique | pkg/risk/var.go:16 | two ascending permutations of the same returns are equal |
| Risk.FirstIsLeast | pkg/risk/var.go:16 | the first element of an ascending sequence is at most any element of a permutation of it |
| Risk.DropFirst | pkg/risk/var.go:16 | dropping the head of an ascending sequence leaves it ascending and removes exactly that element |
| Risk.SelectIndex | pkg/risk/var.go:18-24 | the index `int(n·(1-c) + 1e-9)`, clamped, is always a valid index |
| Risk.LossAt | pkg/risk/var.go:10-28 | the loss read off ascending returns; LossAtMonotone and AnySortedCopy state its properties |
| Risk.HistoricalVaR | pkg/risk/var.go:9-29 | the specified VaR; PermutationInvariant, MonotoneInConfidence and HistoricalVaRExample state its properties, and CalculateHistoricalVaR is proved equal to it |
| Risk.SwapAdjacent | pkg/risk/var.go:16 | exchanging neighbours changes only those two cells and keeps the elements |
| Risk.SortInPlace | pkg/risk/var.go:16 | sorting in place leaves the array ascending and a permutation of its old contents |
| Risk.CalculateHistoricalVaR | pkg/risk/var.go:9-29 | the result is `HistoricalVaR` of the input: 0 for no returns, otherwise the negated selected return of the sorted copy times the portfolio value; the input array is only read |
| Risk.AnySortedCopy | pkg/risk/var.go:14-28 | reading the loss off any ascending permutation of the returns gives the specified value |
| Risk.PermutationInvariant | pkg/risk/var.go:14-16 | the VaR does not depend on the order of the returns |
| Risk.SortSeqOfSorted | pkg/risk/var.go:16 | sorting returns already in order changes nothing |
| Risk.SelectIndexArgumentInRange | pkg/risk/var.go:18 | for a confidence level in [0, 1] the value converted by `int(...)` lies in [0, n], well inside Go's int64 range |
| Risk.SelectIndexMonotone | pkg/risk/var.go:18-24 | a higher confidence level selects an index no larger |
| Risk.MonotoneInConfidence | pkg/risk/var.go:18-28 | for a non-negative portfolio value, a higher confidence level never gives a smaller VaR |
| Risk.LossAtMonotone | pkg/risk/var.go:18-28 | the same, for any ascending sequence of returns |
| Risk.LossMonotone | pkg/risk/var.go:26-28 | helper of LossAtMonotone: a lower return is a loss at least as large |
| Risk.HistoricalVaRExample | pkg/risk/var_test.go:9-27 | ten returns from -5% to 4% on 1000 give a VaR of 40 at 90% and 50 at 99% |
| Risk.ExampleHistorySorted | pkg/risk/var_test.go:10-12 | the test's returns are already ascending |
| Risk.SelectIndexExamples | pkg/risk/var_test.go:15-24 | with ten returns, 90% selects index 1 and 99% index 0 |
| Instrument.NewEquity | pkg/instrument/equity.go:10-33 | the getters return the identifier, currency and symbol given, and the kind is EQUITY |
| Instrument.NewEuropeanOption | pkg/instrument/option.go:33-75 | the getters return what was given; the style is EUROPEAN, the kind OPTION, and the currency is the underlying's |
| Instrument.InterfaceAgrees | pkg/instrument/instrument.go:12-17 | through the `Instrument` interface, an equity and an option keep their identifier, kind and currency |
| Instrument.Instrument.Currency | pkg/instrument/option.go:53-55 | the interface's currency, delegating through an option's underlying; CurrencyIsBaseEquityCurrency states it is the base equity's currency |
| Instrument.CurrencyIsBaseEquityCurrency | pkg/instrument/option.go:53-55 | an instrument's currency is that of the equity its chain of underlyings ends in |
| Instrument.OptionsOnOneEquityShareCurrency | pkg/instrument/option.go:53-55 | two European options on one equity have the equity's currency, whatever their other terms |
| Instrument.OptionExample | pkg/instrument/option_test.go:11-26 | the AAPL equity and the 150 call on it report what they were built with, and the call is in USD |

## Findings

| source | as written | input that shows it | evidently intended | confidence | as-written member | corrected member |
|---|---|---|---|---|---|---|
| pkg/common/resilience/retry.go:42-43 | `power := 1 << i` on a 64-bit int | MaxRetries = 65 with the default delays: the backoff after attempt 62 is 2s, after attempt 63 it is negative (its conversion to a Duration is platform-dependent and gives MinInt64 on amd64 and arm64, so the wait ends at once), after 64 it is zero | an exponential backoff capped at MaxDelay that never decreases | medium (needs MaxRetries > 63 on 64-bit targets, > 31 on 32-bit), not executed | Retry.BackoffOverflowCounterexample | Retry.BackoffCappedAndMonotone |

`Retry.Backoff` and the rest of the retry model use the exact power of two. `Numerics.ShiftLeftOne` models the shift as i doublings, each wrapped into the 64-bit range, and `Numerics.ShiftLeftOneOverflow` derives its three regimes from that. `Retry.BackoffAsWrittenAgrees` shows that the two agree below attempt 63.

## Left out

- The circuit breaker's state machine (closed, open and half-open) belongs to the gobreaker library and is not modelled. Of `NewCircuitBreaker`, only its `ReadyToTrip` closure is modelled; its name, timeout and empty `OnStateChange` callback only configure gobreaker. `Execute` and `ExecuteErr` delegate to gobreaker and are not modelled. `ErrOpenState` is declared but never returned by this code.
- The breaker's doc comment speaks of "> 3 failures" and "> 40%". The model follows the code: at least 3 requests and a ratio of at least 0.4.
- The breaker's counters are `uint32` there and naturals here. Wrap-around at 2^32 requests is not modelled.
- The rate limiter, the market client and provider, pricing (Black-Scholes and Monte Carlo), observability and the command-line programs are outside this model.
- `NewFromFloat` and `NewFromString` are not modelled: decimal parsing and float-to-decimal conversion belong to the decimal library. The tests that use them are modelled through `New` with the real value they produce.
- Money.Money.Div: divides exactly. The decimal library rounds a quotient to 16 decimal places, half away from zero, so `MulDivRoundTrip` holds only for quotients that need no more places there. A zero divisor makes the library panic; the model requires `scalar != 0.0` instead.
- Money.ToUpper: handles ASCII letters only. `strings.ToUpper` also maps non-ASCII letters, and can change the length of the string.
- Money: the zero value returned next to a currency-mismatch error is modelled as a `Failure` carrying no value.
- Numerics.ShiftLeftOne: assumes Go's `int` is 64 bits wide (amd64, arm64). On 32-bit targets (386, arm, mips) `1 << i` wraps from attempt 31 on: `1 << 31` is -2^31 and `1 << 32` is 0, so with the default delays the backoff falls from 2s to a negative value after attempt 31. The 32-bit shift is not modelled.
- Retry.Retry: the operation, the context, the clock and `rand.Float64` are replaced by the scripts. The select between the timer and `ctx.Done()` is one boolean per wait. A context already cancelled when the timer fires is not distinguished. The loop uses the exact 2^i backoff (`Backoff`), not the source's 64-bit `1 << i`, which overflows from attempt 63 on; see Findings and `BackoffAsWritten`.
- Retry.Delay: computes the backoff and jitter exactly. The source computes them in float64, so the last nanosecond of a delay may differ by rounding.
- Retry: `ctx.Err()` is modelled as one context error. Canceled and DeadlineExceeded are not distinguished.
- Risk.SortInPlace: an insertion sort stands in for `sort.Float64s` (pattern-defeating quicksort). Both give the unique ascending order of the returns, but the comparison count differs. NaN returns, which `sort.Float64s` orders first, are not modelled.
- Risk.CalculateHistoricalVaR: arithmetic on returns, the index and the loss is exact. The source's float64 rounding (for example of `n*(1-c)`) is not modelled; the `1e-9` term is kept.
- Risk.SelectIndex: truncates `n*(1-c) + 1e-9` exactly and then clamps. Go's `int(x)` of a float64 outside the int64 range, or of NaN, is platform-dependent; on amd64 it gives MinInt64, which the source clamps to index 0. So for a confidence level below about 1 - 2^63/n (where `n*(1-c)` exceeds 2^63), or NaN, the source selects index 0 while the model selects n-1; above 1 + 2^63/n both select index 0. `SelectIndexMonotone` and `MonotoneInConfidence` therefore describe the source only for confidence levels where `n*(1-c)` fits in an int64, which includes every level in [0, 1].
- Retry.Delay: `time.Duration(backoff)` of a float64 beyond the int64 range is platform-dependent (MinInt64 on amd64, so the wait ends at once); the model truncates exactly and waits the full delay. This arises at the overflowing attempts of the Findings row, with jitter on and a MaxDelay above about 244 years (2^63/1.2 ns; `JitteredDelayBeyondInt64`), or with a negative BaseDelay, which the cap never limits (-1s from attempt 34 on; `NegativeBaseDelayBeyondInt64`).
- Instrument: nil pointers and other implementations of the `Instrument` interface are not modelled. The interface is the union of `Equity` and `Option`.
- Instrument: `time.Time` is an integer and `decimal.Decimal` a real; both are only stored and returned.
- `InstrumentType` `BOND` exists as a value, but no bond instrument is defined in the source.
