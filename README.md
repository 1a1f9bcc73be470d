# Value bet calculator — a verified model

The calculator is a single React component, `ValueBetCalculator`. It takes a total
stake and a list of decimal odds ("picks"). On "Calculate" it fills three tables:

- **Dutching:** the stake is split across the picks in proportion to 1/odds, so every
  pick pays the same amount.
- **Guaranteed return:** each pick gets total/odds, so its own payout is the total.
- **Money back:** the guaranteed stake and payout, plus a refund of total − stake and a
  net return of payout − total + refund.

Every figure goes through `toFixed(2)`. Each payout is computed from the already
rounded stake.

The project has three modules:

- `Decimal` (`decimal.dfy`) has the two-decimal rounding `ToFixed2`. It rounds to the
  nearest cent, and a tie goes away from zero. The module also states what the table
  proofs need from a rounding: `WithinHalfCent`, `LandsOnCents` and `RoundsToCents`.
  `ToFixed2` is proved to meet them.
- `Allocation` (`allocation.dfy`) has the arithmetic:
  - the odds filter and the dutching denominator;
  - one row function per table and the three tables;
  - `CalculateResults`, which is the whole of one press of "Calculate" on the parsed
    inputs.

  Every table takes its rounding as a parameter. `Exact` (no rounding) gives the
  algebraic promises: the dutching stakes sum to the total, every dutching payout is
  the same, every guaranteed payout is the total, and net return = payout − stake.
  `ToFixed2` gives what is on the screen, where the same promises hold within stated
  cent bounds. Net return = payout − stake holds exactly on screen whenever the total
  stake is a whole number of cents; otherwise it holds within a cent.
- `Calculator` (`calculator.dfy`) has the component state as a class,
  `CalculatorState`, with the stake field, picks, results and active tab. Each event
  handler is a method that overwrites the fields its state setters overwrite. The
  class invariant `Valid()` says the tables on show are always the displayed tables
  of some positive stake and some odds above 1.

Text fields are modelled already parsed: `Option<real>`, where `None` stands for the
NaN that `parseFloat` returns. Table figures are the numeric values of the
two-decimal strings the component stores.

## Model

| member | source | states |
|---|---|---|
| Decimal.RoundHalfUp | src/components/ValueBetCalculator.jsx:43-44 | For a non-negative value, the result is a whole number of cents, never negative, and in (x − 0.005, x + 0.005]. |
| Decimal.ToFixed2 | src/components/ValueBetCalculator.jsx:43-44 | `toFixed(2)` as a number: whole cents, at most half a cent from the input, and not negative for a non-negative input. |
| Decimal.ToFixed2OfCents | src/components/ValueBetCalculator.jsx:57-60 | A value that is already whole cents is returned unchanged. This is why re-rounding a displayed figure changes nothing. |
| Decimal.ToFixed2RoundsToCents | src/components/ValueBetCalculator.jsx:43-60 | `ToFixed2` meets every property the rounded-table lemmas assume of a rounding. |
| Decimal.CentsDifference | src/components/ValueBetCalculator.jsx:59-60 | The difference of two whole-cent amounts is whole cents, as refund and net return need. |
| Allocation.ValidOdds | src/components/ValueBetCalculator.jsx:34-36 | The kept odds are at most as many as the picks, and every one is above 1. |
| Allocation.ValidOddsMembers | src/components/ValueBetCalculator.jsx:34-36 | A value is kept exactly when some pick parsed to it and it exceeds 1 (both directions). |
| Allocation.ValidOddsAppend | src/components/ValueBetCalculator.jsx:34-36 | Filtering distributes over concatenation, so the kept odds stay in pick order. |
| Allocation.ValidOddsKeepsUsable | src/components/ValueBetCalculator.jsx:34-36 | When every pick passes the filter, all are kept, in order, with their values. |
| Allocation.Denominator | src/components/ValueBetCalculator.jsx:41 | The sum of reciprocals is never negative, and it is positive for a non-empty list. So the dutching division is defined. |
| Allocation.DutchingTable | src/components/ValueBetCalculator.jsx:42-46 | One row per kept odds value, in order, each carrying its odds. |
| Allocation.GuaranteedTable | src/components/ValueBetCalculator.jsx:49-53 | One row per kept odds value, in order, each carrying its odds. |
| Allocation.MoneyBackTable | src/components/ValueBetCalculator.jsx:56-62 | One row per kept odds value, in order, each carrying its odds. |
| Allocation.Tables | src/components/ValueBetCalculator.jsx:64-68 | The three tables have as many rows as there are kept odds. |
| Allocation.CalculateResults | src/components/ValueBetCalculator.jsx:30-68 | No result exactly when the stake is NaN or not positive, or no odds pass the filter (both directions). Otherwise the result is the three rounded tables of the stake and the kept odds. |
| Allocation.DutchingRowExact | src/components/ValueBetCalculator.jsx:43-44 | Unrounded, the dutching stake is (total/d)·(1/odds) and it pays total/d. |
| Allocation.DutchingRowRounded | src/components/ValueBetCalculator.jsx:43-44 | Rounded, the stake is the exact stake rounded, and the payout is within (odds + 1) half-cents of total/d. |
| Allocation.GuaranteedRowExact | src/components/ValueBetCalculator.jsx:50-51 | Unrounded, stake · odds is the total and the payout is the total. |
| Allocation.GuaranteedRowRounded | src/components/ValueBetCalculator.jsx:50-51 | Rounded, the payout is within (odds + 1) half-cents of the total. |
| Allocation.MoneyBackRowExact | src/components/ValueBetCalculator.jsx:57-60 | Unrounded, refund = total − stake, payout = total and net return = payout − stake. |
| Allocation.MoneyBackRowRounded | src/components/ValueBetCalculator.jsx:57-60 | Rounded, net return is payout − stake within a cent. It is exact, with refund = total − stake, when the total is whole cents. |
| Allocation.DutchingStakesSumToTotal | src/components/ValueBetCalculator.jsx:41-46 | Unrounded, the dutching stakes add up to the total stake. |
| Allocation.DutchingPayoutsEqual | src/components/ValueBetCalculator.jsx:41-46 | Unrounded, every dutching payout is total/denominator, so any two payouts are equal. |
| Allocation.GuaranteedPayoutIsTotal | src/components/ValueBetCalculator.jsx:49-53 | Unrounded, every guaranteed stake times its odds is the total, and so is every payout. |
| Allocation.MoneyBackExtendsGuaranteed | src/components/ValueBetCalculator.jsx:49-62 | Under any rounding, the money-back stakes and payouts are the guaranteed ones. |
| Allocation.MoneyBackExact | src/components/ValueBetCalculator.jsx:56-62 | Unrounded, every money-back row has refund = total − stake, payout = total and net return = payout − stake. |
| Allocation.RoundedSumWithin | src/components/ValueBetCalculator.jsx:43 | Rounding each of n terms moves their sum by at most n half-cents. |
| Allocation.DutchingRoundedSum | src/components/ValueBetCalculator.jsx:41-46 | With a half-cent rounding, the dutching stakes add up to the total within half a cent per pick. |
| Allocation.DutchingRoundedPayouts | src/components/ValueBetCalculator.jsx:41-46 | With a half-cent rounding, every dutching payout is within (odds + 1) half-cents of the common exact payout. |
| Allocation.GuaranteedRoundedPayouts | src/components/ValueBetCalculator.jsx:49-53 | With a half-cent rounding, every guaranteed payout is within (odds + 1) half-cents of the total. |
| Allocation.MoneyBackRoundedNet | src/components/ValueBetCalculator.jsx:56-62 | With a cent rounding, every net return is payout − stake within a cent, and exactly when the total is whole cents. |
| Allocation.DisplayedDutchingSum | src/components/ValueBetCalculator.jsx:41-46 | On screen, the dutching stakes add up to the total within half a cent per pick. |
| Allocation.DisplayedGuaranteedPayouts | src/components/ValueBetCalculator.jsx:49-53 | On screen, every guaranteed payout is within (odds + 1) half-cents of the total. |
| Allocation.DisplayedMoneyBackNet | src/components/ValueBetCalculator.jsx:56-62 | On screen, every net return is payout − stake within a cent, and exactly when the total is whole cents. |
| Allocation.DutchingExample | src/components/ValueBetCalculator.jsx:41-46 | Stake 100 on odds 2 and 3 shows stakes 60 and 40, both paying 120. |
| Allocation.GuaranteedExample | src/components/ValueBetCalculator.jsx:49-53 | Stake 100 on odds 2.5 shows stake 40 paying 100. |
| Allocation.GuaranteedRoundingExample | src/components/ValueBetCalculator.jsx:49-53 | Stake 100 on odds 3 shows stake 33.33 paying 99.99: the rounded payout can miss the total. |
| Allocation.CalculateRejectsExamples | src/components/ValueBetCalculator.jsx:31-38 | An empty pick list, no odds above 1, a zero stake or a NaN stake gives no result. |
| Calculator.RemoveAt | src/components/ValueBetCalculator.jsx:21 | Filtering out a position never makes the list longer. |
| Calculator.RemoveAtSlices | src/components/ValueBetCalculator.jsx:21 | An index in range drops exactly that element and keeps the rest in order. An index out of range leaves the list as it was. |
| Calculator.CalculatorState.constructor | src/components/ValueBetCalculator.jsx:4-11 | Initial state: stake 100, one empty pick, empty tables, the dutching tab. |
| Calculator.CalculatorState.SetTotalStake | src/components/ValueBetCalculator.jsx:171 | The stake field takes the new value, and nothing else changes. |
| Calculator.CalculatorState.HandlePickChange | src/components/ValueBetCalculator.jsx:14-18 | Only the edited pick changes. The list keeps its length and every other pick. |
| Calculator.CalculatorState.AddPick | src/components/ValueBetCalculator.jsx:20 | One empty pick is appended after the existing ones. |
| Calculator.CalculatorState.RemovePick | src/components/ValueBetCalculator.jsx:21 | The pick at the index is removed, and the others keep their order. Nothing changes for an index out of range. |
| Calculator.CalculatorState.ResetAll | src/components/ValueBetCalculator.jsx:22-28 | Any state returns to the initial state, with no results on show. |
| Calculator.CalculatorState.SelectTab | src/components/ValueBetCalculator.jsx:231-260 | Only the active tab changes. |
| Calculator.CalculatorState.Calculate | src/components/ValueBetCalculator.jsx:30-73 | The tables are replaced by `CalculateResults` of the stake and picks, and the results section is then shown. When the calculation returns early, nothing changes. Stake, picks and tab never change. |

## Left out

- IEEE-754 doubles are not modelled. Figures are exact reals rounded to cents by
  `ToFixed2`. A double landing just beside a half-cent tie can round the other way.
- The string form of `toFixed` is not modelled, including exponent notation above
  1e21. Table cells hold the number the string denotes.
- `parseFloat` text parsing is not modelled: prefixes such as "2.5x", and "Infinity",
  which would pass the odds filter. Fields are already-parsed `Option<real>`, with
  `None` for NaN, and exact reals have no infinity.
- Allocation.DutchingRoundedPayouts is proved for every half-cent rounding but is not
  restated for `ToFixed2` alone; `ToFixed2RoundsToCents` supplies the hypothesis.
- Calculator.CalculatorState.HandlePickChange requires an index in range. The view
  only calls it on an existing pick (line 183). JavaScript's writing past the end of
  an array is not modelled.
- The rendering is not modelled: the JSX, the table layout, the sticky tabs.
- `window.scrollTo`, `scrollIntoView` and the `useRef` handle are not modelled; they
  are DOM side effects with no state of the calculator.
- `rowColor` (lines 75-79) is not modelled because nothing calls it.
- React's batching of state updates is not modelled; each handler is one atomic step
  on the state.
- vite.config.js is build configuration and is not part of this model.
