# Lease calculation engine

A Dafny model of the Lease Calculation Engine page
(`src/pages/Module2.tsx`) of an IFRS 16 lease accounting application. The
application also covers contract intake and approval, disclosures and
journal entries, the methodology, a portfolio dashboard and e-learning;
this model covers only the calculation engine. Two routines do the work:

- `calculateLease` turns five form fields into four figures. The lease
  liability is the present value of an escalating monthly rent, discounted
  at a flat monthly rate of annual/12. The right-of-use asset is the
  liability plus initial direct costs. The total cost of the lease is a
  closed-form approximation. The monthly depreciation is straight-line.
- `generateAmortizationTable` walks at most twelve months from the stored
  figures. Each month charges interest on a running liability balance, pays
  the flat first-month rent, and writes off depreciation against a running
  asset balance. Each row reports both balances clamped at zero.

All amounts are exact reals. `toFixed(2)` is modelled as rounding to
cents, half away from zero (`Cents.RoundCents`). The table is built from
the rounded figures the page stores (`LeaseCalculation.Publish`).

Files:

- `real_math.dfy` (`RealMath`): natural powers and the clamp at zero.
- `cents.dfy` (`Cents`): rounding to cents.
- `lease_calculation.dfy` (`LeaseCalculation`): the inputs, the summary, the
  error cases, the liability sum, `calculateLease` as a function and as a
  loop, and the lemmas about the liability and the total cost.
- `amortization_table.dfy` (`AmortizationTable`): the rows, the table as a
  function and as a loop, the display rounding, and the lemmas about the
  running balances.

Where the JavaScript would show a non-finite figure, the model returns an
error instead:

- a term of 0 divides the depreciation by zero, giving `ZeroTerm`;
- a positive term with a monthly discount factor `1 + rate/100/12` of 0
  divides every present value by zero, giving `ZeroDiscountFactor`.

A negative term is finite in the code. The loop runs no times, so the
liability is 0. The depreciation is `rou / term`. The table has no rows.

## Model

| member | source | states |
|---|---|---|
| LeaseCalculation.CalculateLease | src/pages/Module2.tsx:22-47 | fails exactly at term 0 or at a zero discount factor with a positive term; the liability is the discounted sum of escalating rents; ROU − liability = direct costs, so ROU ≥ liability when costs ≥ 0; depreciation × term = ROU; a negative term gives liability 0; no escalation gives total cost = rent × term |
| LeaseCalculation.CalculateLeaseLoop | src/pages/Module2.tsx:22-47 | the routine as written, loop included, computes exactly the functional summary or error |
| LeaseCalculation.PresentValueLoop | src/pages/Module2.tsx:29-36 | the `for i = 1..term` loop that recomputes both powers each month adds up exactly the present values of months 1..term, and nothing for term ≤ 0 |
| LeaseCalculation.Liability | src/pages/Module2.tsx:30-36 | (definition) the liability over n months: the present values rent × growth^(i−1) / factor^i of months 1..n added in month order; its properties are the lemmas below |
| LeaseCalculation.LiabilityOfNoRent | src/pages/Module2.tsx:30-36 | with zero rent the liability is zero for every term and rate |
| LeaseCalculation.LiabilityNonNegative | src/pages/Module2.tsx:30-36 | non-negative rent, growth factor ≥ 0 and discount factor > 0 give a non-negative liability |
| LeaseCalculation.LiabilitySign | src/pages/Module2.tsx:30-45 | the computed liability and its published `toFixed(2)` figure are 0 for zero rent, and ≥ 0 for rent ≥ 0 under a positive discount factor f and a growth factor ≥ −f |
| LeaseCalculation.AlternatingLiabilityNonNegative | src/pages/Module2.tsx:32-36 | with rent ≥ 0, factor f > 0 and −f ≤ growth < 0 the present values alternate in sign without growing in size, and the liability is ≥ 0 |
| LeaseCalculation.NegativeGrowthLiability | src/pages/Module2.tsx:32-36 | a growth factor below −f breaks non-negativity: rent 1, growth −2, no discount (f = 1), two months sum to −1 |
| LeaseCalculation.LiabilityUnwind | src/pages/Module2.tsx:32-36 | one month of interest on the (n+1)-month liability, less the first rent, is the n-month liability of a rent grown by one step |
| LeaseCalculation.LiabilityClosedForm | src/pages/Module2.tsx:32-36 | the growing-annuity formula: liability × (factor − growth) = rent − rent × growthⁿ / factorⁿ |
| LeaseCalculation.AnnuityLiability | src/pages/Module2.tsx:29-36 | without escalation, liability × monthly rate = rent × (1 − (1 + rate)^−term), the ordinary annuity present value |
| LeaseCalculation.OpeningInterestAtMostRent | src/pages/Module2.tsx:29-36 | without escalation, with rate ≥ 0 and rent ≥ 0, a month of interest on the computed liability is at most the rent |
| LeaseCalculation.LinearRentTotalClosedForm | src/pages/Module2.tsx:39 | the rents of a linearly growing stream sum to rent × n × (1 + m(n − 1)/2) |
| LeaseCalculation.TotalCostOfLease | src/pages/Module2.tsx:39 | (definition) rent × term × (1 + annual escalation × term / 24); TotalCostApproximation says what it amounts to |
| LeaseCalculation.TotalCostApproximation | src/pages/Module2.tsx:39 | the total cost is the linear-growth rent total plus rent × term × escalation / 24; without escalation it equals the true sum of the rents |
| LeaseCalculation.Publish | src/pages/Module2.tsx:41-46 | each stored figure is a whole number of cents within half a cent of the computed one |
| Cents.RoundCents | src/pages/Module2.tsx:42-45 | `toFixed(2)` read back gives whole cents, within half a cent, with the sign kept; an amount exactly half a cent from two neighbours goes to the one farther from zero |
| Cents.RoundCentsNearest | src/pages/Module2.tsx:42-45 | no whole-cents value is closer to the input than the rounded one |
| Cents.RoundCentsOfCents | src/pages/Module2.tsx:56-58 | a figure that is already whole cents reads back unchanged |
| Cents.RoundCentsIdempotent | src/pages/Module2.tsx:56-58 | rounding a rounded figure again changes nothing |
| Cents.RoundCentsOdd | src/pages/Module2.tsx:42-45 | rounding is symmetric about zero: a negative amount rounds to minus the rounding of its magnitude |
| AmortizationTable.RowCount | src/pages/Module2.tsx:60 | min(12, term) rows for a positive term, none otherwise, never more than 12 |
| AmortizationTable.RunningLiability | src/pages/Module2.tsx:61-63 | (definition) the unclamped liability balance after k rows: each row adds interest on the balance and takes off the flat rent |
| AmortizationTable.RunningAsset | src/pages/Module2.tsx:64 | (definition) the unclamped asset balance after k rows, less one depreciation per row |
| AmortizationTable.RowAt | src/pages/Module2.tsx:61-73 | (definition) the row for a month from the current inputs and the stored figures; TableRowFollowsBalances states its equations |
| AmortizationTable.GenerateAmortizationTable | src/pages/Module2.tsx:49-78 | empty before any calculation; otherwise RowCount(term) rows numbered 1, 2, … in order, each paying the flat rent, principal = payment − interest, depreciation = the stored depreciation, reported balances never negative. The rows hold the amounts before the `toFixed(2)` of lines 68-73, which Display applies; on the displayed figures principal = payment − interest can be off by a cent (payment 1.006 shows 1.01, interest 0.004 shows 0.00, principal 1.002 shows 1.00) |
| AmortizationTable.GenerateAmortizationTableLoop | src/pages/Module2.tsx:49-78 | the loop that carries the two balances yields exactly the functional table |
| AmortizationTable.TableRowFollowsBalances | src/pages/Module2.tsx:61-73 | in row m, interest = running liability before the month × rate; the running liability after = before − principal; the running asset after = before − depreciation; the reported balances are these clamped at zero |
| AmortizationTable.Display | src/pages/Module2.tsx:66-74 | a displayed row keeps its month; every amount is whole cents within half a cent; non-negative balances stay non-negative |
| AmortizationTable.RunningAssetStraightLine | src/pages/Module2.tsx:64 | after k rows the asset balance is opening − k × depreciation |
| AmortizationTable.RunningLiabilityShift | src/pages/Module2.tsx:61-63 | moving the opening liability by δ moves the balance after k rows by δ × (1 + rate)^k |
| AmortizationTable.RoundedOpeningDrift | src/pages/Module2.tsx:56-63 | reading the liability back at cents moves the balance after k rows by at most half a cent × (1 + rate)^k |
| AmortizationTable.RoundedAssetDrift | src/pages/Module2.tsx:57-64 | reading the asset and the depreciation back at cents moves the asset balance after k rows by at most half a cent plus half a cent per row |
| AmortizationTable.ExactScheduleAmortizes | src/pages/Module2.tsx:61-63 | without escalation, k flat payments take the exact n-month liability to the exact (n − k)-month liability |
| AmortizationTable.ExactTableClosesLease | src/pages/Module2.tsx:49-78 | for a term of 1 to 12 months without escalation, a table opened at the exact figures ends with both balances at 0 |
| AmortizationTable.SingleMonthLease | src/pages/Module2.tsx:49-78 | a one-month lease gives one row that, opened at the exact figures, closes both balances whatever the escalation |
| AmortizationTable.PrincipalNonNegative | src/pages/Module2.tsx:61-63 | with rate ≥ 0 and opening interest ≤ rent, the interest never exceeds the rent and the running liability never grows |
| AmortizationTable.ReportedAssetNonIncreasing | src/pages/Module2.tsx:64-73 | with depreciation ≥ 0 the reported asset never increases from row to row |
| AmortizationTable.ReportedLiabilityNonIncreasing | src/pages/Module2.tsx:61-71 | with rate ≥ 0 and opening interest ≤ rent the reported liability never increases from row to row |
| AmortizationTable.CalculatedLiabilityNonIncreasing | src/pages/Module2.tsx:29-71 | without escalation, with rate ≥ 0 and rent ≥ 0, the table opened at the computed summary reports a liability that never increases from row to row |
| AmortizationTable.FlatPaymentsCanGrowLiability | src/pages/Module2.tsx:32-63 | the table pays the flat rent on a liability measured on escalating rents, so the balance can grow: rent 1, two months, 1200 % discount and 12000 % escalation give a liability of 3.25 that the rows carry to 5.5 and 10 |
| RealMath.PowPositive | src/pages/Module2.tsx:34 | a positive discount factor has positive powers, so every present value divides by a positive number |
| RealMath.PowBounded | src/pages/Module2.tsx:33-34 | a base no larger in size than f has powers no larger in size than those of f |

## Left out

- Parsing of the form fields: `parseFloat` and `parseInt` (lines 23-27, 53-58) can produce NaN or stop at the first non-digit. The inputs arrive already parsed: the rent, rates and costs as reals, the term as a whole number.
- IEEE double arithmetic: the model computes over exact reals. It does not model accumulated floating-point error. NaN and Infinity are not modelled: the two division-by-zero cases become `LeaseError` values.
- The table when the stored figures are NaN or Infinity (after a term of 0 or a zero discount factor) is not modelled. Only tables built from a successful summary are.
- `toFixed(2)` is modelled as exact rounding of a real to cents, half away from zero. The exponential notation it uses at 1e21 and above, and the binary representation of the double it rounds, are not modelled. The strings are modelled as the reals they denote.
- React state, the input form and the JSX rendering of the page are not part of this model. Nor are the other pages (Module1, Module3, Module4, Module5, LandingPage, Header, Navigation, App): they show static text, hard-coded demo figures, a PDF export through a foreign library, or a wall-clock day count.
- LeaseCalculation.LiabilitySign: non-negativity is proved for a growth factor of at least minus the discount factor. Below that it can fail (NegativeGrowthLiability gives one case); the model does not characterise exactly when.
- AmortizationTable.ReportedLiabilityNonIncreasing: the reported liability is proved non-increasing only when the rate is ≥ 0 and the opening interest does not exceed the rent. The code does not guarantee it in general: FlatPaymentsCanGrowLiability gives inputs where it grows. CalculatedLiabilityNonIncreasing applies it to a computed summary without escalation. The table opened at the rounded figures, and negative rates, are not covered.
- AmortizationTable.RowCount: the row count is min(12, term) only for a positive term. For a term ≤ 0 the loop never runs and the table is empty, not of negative length.
- AmortizationTable.ExactTableClosesLease: the closing is proved for a table opened at the exact figures. The page opens it at the figures rounded to cents. That moves the liability balance after k rows by at most RoundedOpeningDrift's bound, half a cent × (1 + rate)^k. It moves the asset balance by at most RoundedAssetDrift's bound, half a cent plus half a cent per row, because the depreciation is read back at cents too. So the last rounded row need not show 0: rent 0, three months, 0 % rates and direct costs of 100 give a depreciation of 33.33 and a last asset of 0.01.
