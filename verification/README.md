# Canadian dividend-versus-wage tax arithmetic, in Dafny

This project models the tax arithmetic of the canadian-taxes comparison app. The app compares, income by income, what a British Columbia resident keeps when the income is paid as eligible dividends and when it is paid as wages.

- **Dividend side** (`calculateDividendTax`, present in two copies). The dividend is grossed up by 38% federally and, in British Columbia only, by a further 12%. Federal (15.0198%) and provincial (12%) credits are taken on the grossed-up amount, and the dividend net of both credits is reported.
- **Wage side** (`calculateCombinedMarginalTaxRate`). The income is walked through the federal bracket table, then through the provincial one. Each walk subtracts whole bracket limits from a single shared remaining-income variable, so the provincial walk starts from whatever the federal walk left behind. The walked amounts are divided by the income and reported as "rates". `lookupTaxRate` finds the rate of the first bracket whose upper limit is at least the income.
- **Comparison** (`calculateTaxComparisonForBC`). For each income:
  - it takes CPP (5.1%) and EI (1.58%) off the income;
  - it gives the remaining taxable income (93.32%) to both calculators;
  - it assembles the take-home amounts and the "percentage" fields.

Numbers are exact `real`s. An `Infinity` upper limit is the `Unbounded` case of `Limit`, and `remaining > Infinity` is the predicate `Exceeds`, which is false for it.

Modules:

| file | module | models |
|---|---|---|
| `wrappers.dfy` | `Wrappers` | `Option` and `Result` |
| `tax_calculation.dfy` | `TaxCalculation` | `app/routes/TaxCalculationResult.tsx` |
| `dividend_tax_copy.dfy` | `DividendTaxCopy` | `app/routes/calculateDividendTax.tsx` |
| `comparison.dfy` | `Comparison` | `calculateTaxComparisonForBC` of `app/routes/_index.tsx` |

The loops of `calculateCombinedMarginalTaxRate` are the method `TaxCalculation.CalculateCombinedMarginalTaxRate`:

- Each loop is one call of `TaxCalculation.WalkBrackets`, a `for` loop with the same `break`.
- Both calls thread the same `remainingIncome`.
- The loop is proved equal to the recursive specification `TaxCalculation.Walk`.
- The method is proved equal to the pure `TaxCalculation.TaxRates`, about which the other properties are proved.

## Model

| member | source | states |
|---|---|---|
| TaxCalculation.CalculateDividendTax | app/routes/TaxCalculationResult.tsx:9-38 | every field is a fixed multiple of the income: gross-up 1.50 (BC) or 1.38 (any other province string), federal credit 0.225297 or 0.20727324, provincial credit 0.18 or exactly 0, net 0.594703 or 0.79272676; and net = income − (federal + provincial credit) |
| TaxCalculation.DividendTaxBritishColumbia50000 | app/routes/TaxCalculationResult.tsx:14-30 | a 50000 dividend in British Columbia gives 75000, 11264.85, 9000 and 29735.15 |
| TaxCalculation.DividendCreditsFromGrossUp | app/routes/TaxCalculationResult.tsx:15-27 | the federal credit is the grossed-up dividend × 0.150198; outside British Columbia the provincial credit is 0 |
| TaxCalculation.ProvincialGrossUpRate | app/routes/TaxCalculationResult.tsx:18 | the provincial gross-up rate is non-zero exactly for "British Columbia", where it is 0.12 |
| TaxCalculation.ProvincialTaxCreditRate | app/routes/TaxCalculationResult.tsx:19 | the provincial credit rate is non-zero exactly for "British Columbia", where it is 0.12 |
| TaxCalculation.Exceeds | app/routes/TaxCalculationResult.tsx:81-92 | the test `remainingIncome > bracket.upperLimit` of both loops (lines 81 and 92): never true against the unbounded (`Infinity`) limit, and when true the amount is above the limit's value |
| TaxCalculation.FederalTaxBrackets | app/routes/TaxCalculationResult.tsx:43-49 | the federal table, limits 53359, 106717, 165430, 235675 and unbounded at rates 0.15, 0.205, 0.26, 0.29, 0.33; its invariant is stated by `TablesWellFormed` |
| TaxCalculation.BritishColumbiaTaxBrackets | app/routes/TaxCalculationResult.tsx:51-59 | the British Columbia table, limits 45654 to 240716 and unbounded at rates 0.0506 to 0.205; its invariant is stated by `TablesWellFormed` |
| TaxCalculation.ProvincialTaxBrackets | app/routes/TaxCalculationResult.tsx:50-61 | the provincial tables by province name, holding only British Columbia; `TablesWellFormed` states that every entry meets the invariant |
| TaxCalculation.Walk | app/routes/TaxCalculationResult.tsx:79-99 | the recursive specification of one bracket loop, returning the accumulated tax and the remaining income left; its properties are stated by `WalkStopsInTable`, `WalkRemainingPositive` and `WalkTaxLipschitz`, and `WalkBrackets` is proved equal to it |
| TaxCalculation.WellFormedTail | app/routes/TaxCalculationResult.tsx:43-61 | dropping the first bracket of a table keeps the table invariant (ascending positive limits, unbounded last bracket, rates in [0, 1] non-decreasing) |
| TaxCalculation.WellFormedIsSane | app/routes/TaxCalculationResult.tsx:43-61 | a table meeting the invariant has non-negative limits and rates in [0, 1] |
| TaxCalculation.TablesWellFormed | app/routes/TaxCalculationResult.tsx:43-61 | the federal table and every provincial table meet the invariant, and British Columbia has a table |
| TaxCalculation.LookupTaxRate | app/routes/TaxCalculationResult.tsx:62-64 | the result is absent exactly when the income exceeds every limit; otherwise it is the rate of a bracket the income does not exceed, and the income exceeds every earlier bracket (the first match) |
| TaxCalculation.LookupTaxRateFindsBracket | app/routes/TaxCalculationResult.tsx:43-64 | on a table meeting the invariant the lookup always finds a bracket, namely the one whose range (above the previous limit, not above its own) holds the income |
| TaxCalculation.LookupTaxRateMonotone | app/routes/TaxCalculationResult.tsx:43-64 | on such a table a larger income never looks up a smaller rate |
| TaxCalculation.RatesFromFirst | app/routes/TaxCalculationResult.tsx:43-59 | in such a table no later rate is below an earlier one |
| TaxCalculation.WalkStopsInTable | app/routes/TaxCalculationResult.tsx:79-99 | on a table meeting the invariant every walk leaves by the not-exceeded (`break`) branch, at the unbounded last bracket at the latest |
| TaxCalculation.WalkRemainingPositive | app/routes/TaxCalculationResult.tsx:79-99 | a positive remaining income stays positive through a walk and never grows |
| TaxCalculation.WalkTaxLipschitz | app/routes/TaxCalculationResult.tsx:79-88 | for 0 ≤ x ≤ y the walked tax satisfies 0 ≤ tax(y) − tax(x) ≤ y − x: nondecreasing and continuous in the income |
| TaxCalculation.SameBracketBounds | app/routes/TaxCalculationResult.tsx:85 | taxing [x, y] at one rate in [0, 1] costs between 0 and y − x |
| TaxCalculation.CrossBracketBounds | app/routes/TaxCalculationResult.tsx:81-85 | crossing a limit keeps the cost of [x, y] between 0 and y − x |
| TaxCalculation.LipschitzBothExceed | app/routes/TaxCalculationResult.tsx:81-83 | when both incomes exceed the first limit, the bound for the rest of the table carries over to the whole walk |
| TaxCalculation.LipschitzCrossing | app/routes/TaxCalculationResult.tsx:81-86 | when only the larger income crosses the first limit, the walked taxes still differ by between 0 and y − x |
| TaxCalculation.LipschitzWithin | app/routes/TaxCalculationResult.tsx:84-86 | when neither income exceeds the first limit, both walks stop at once and differ by between 0 and y − x |
| TaxCalculation.WalkOfZero | app/routes/TaxCalculationResult.tsx:79-88 | walking a zero income accumulates no tax |
| TaxCalculation.FederalTaxMonotone | app/routes/TaxCalculationResult.tsx:44-48 | the federal tax is nondecreasing in the income |
| TaxCalculation.FederalWalkFirstBracket | app/routes/TaxCalculationResult.tsx:75-88 | up to 53359 the federal walk taxes 15% of the income and leaves remainingIncome equal to the income, so the provincial walk starts from the income |
| TaxCalculation.FederalWalkSecondBracket | app/routes/TaxCalculationResult.tsx:75-96 | between 53359 and 53359 + 106717 the federal tax is 53359 × 0.15 + (income − 53359) × 0.205, and the provincial walk starts from income − 53359 |
| TaxCalculation.FederalTax | app/routes/TaxCalculationResult.tsx:75-88 | the federal walk's tax; for a non-negative income it lies between 0 and the income (monotonicity in `FederalTaxMonotone`) |
| TaxCalculation.ProvincialTax | app/routes/TaxCalculationResult.tsx:75-99 | the provincial walk starts from what the federal walk left in the shared remainingIncome: up to 53359 that is the income itself; for a non-negative income the tax lies between 0 and the income |
| TaxCalculation.SharedRemainingStaysPositive | app/routes/TaxCalculationResult.tsx:75-99 | for a positive income the shared remainingIncome stays positive through both walks and never exceeds the income |
| TaxCalculation.CombinedTaxNotMonotone | app/routes/TaxCalculationResult.tsx:75-99 | the combined federal and BC tax is 10907.2274 at 53359 but 8004.1056 at 53360 |
| TaxCalculation.RatesOf | app/routes/TaxCalculationResult.tsx:101-107 | the "rates" times the income give back the federal and provincial tax, and the combined rate is their sum |
| TaxCalculation.TaxRates | app/routes/TaxCalculationResult.tsx:71-109 | success exactly for a province with a table, failure naming the province otherwise; on success the rates are those of the federal walk and of the provincial walk started from what the federal walk left |
| TaxCalculation.TaxRatesRecoverTaxes | app/routes/TaxCalculationResult.tsx:101-107 | for a non-zero income and a supported province: federalTaxRate × income = federal tax, provincialTaxRate × income = provincial tax, combined rate = federal + provincial rate |
| TaxCalculation.TaxRatesBritishColumbia50000 | app/routes/TaxCalculationResult.tsx:75-107 | at 50000 in British Columbia the federal tax is 7500 (rate 0.15) and the provincial tax is 45654 × 0.0506 + 4346 × 0.077 |
| TaxCalculation.WalkBrackets | app/routes/TaxCalculationResult.tsx:79-88 | the loop with `break` ends with the tax and remaining income of the walk specification |
| TaxCalculation.CalculateCombinedMarginalTaxRate | app/routes/TaxCalculationResult.tsx:71-109 | the two loops over one shared remainingIncome, followed by the divisions, return exactly `TaxRates(income, province)` |
| DividendTaxCopy.CalculateDividendTax | app/routes/calculateDividendTax.tsx:3-32 | the copy returns the same record as the original in TaxCalculationResult.tsx for every income and province |
| DividendTaxCopy.DividendTaxIsLinear | app/routes/calculateDividendTax.tsx:17-24 | every field is the income times the field's value at income 1 |
| DividendTaxCopy.ZeroDividend | app/routes/calculateDividendTax.tsx:17-24 | a zero dividend gives all-zero fields |
| Comparison.Cpp | app/routes/_index.tsx:17 | the CPP of a non-negative income lies between 0 and the income |
| Comparison.Ei | app/routes/_index.tsx:18 | the EI of a non-negative income lies between 0 and the income |
| Comparison.TaxableIncome | app/routes/_index.tsx:19 | taxable income is income × 0.9332, and it is zero exactly when the income is |
| Comparison.ShareOfIncome | app/routes/_index.tsx:33-34 | a flat share of a non-zero income, divided by the income, is the rate back |
| Comparison.CompareIncome | app/routes/_index.tsx:14-58 | record income is the income; cpp = income × 0.051, ei = income × 0.0158; cppPercentage 5.1 and eiPercentage 1.58; dividend credits computed on taxable income in British Columbia; dividend percentage = federal + provincial credit; dividend take-home = the dividend calculator's net on taxable income; wage percentage = combined rate × 100 |
| Comparison.WageTaxesOfComparison | app/routes/_index.tsx:24-28 | the wage "rates" times the taxable income give the walked federal and provincial taxes, and wage take-home = taxable − (federal tax + provincial tax + cpp + ei) |
| Comparison.Comparison50000 | app/routes/_index.tsx:17-28 | at 50000: cpp 2550, ei 790, provincial credit 8398.8, dividend take-home 46660 × 0.594703, wage take-home 46660 − (6999 + 45654 × 0.0506 + 1006 × 0.077 + 2550 + 790) |
| Comparison.CalculateTaxComparisonForBC | app/routes/_index.tsx:13-60 | one record per income, same length and order; record i is the comparison of incomes[i] and carries incomes[i] |

## Left out

- `roundToTwo`, the `Index` component and `meta` in `app/routes/_index.tsx`. These are display and routing: rounding through number-to-string conversion, and JSX rendering.
- IEEE floating point. Numbers are exact reals, so representation error and rounding in the products are not modelled.
- TaxCalculation.TaxRates, TaxCalculation.CalculateCombinedMarginalTaxRate, Comparison.CompareIncome and Comparison.CalculateTaxComparisonForBC require a non-zero income. At zero the original divides 0 by 0 and reports NaN, which reals cannot represent.
- TaxCalculation.TaxRates and TaxCalculation.CalculateCombinedMarginalTaxRate return `Failure(UnsupportedProvince(province))` for every province name that is not a key of the provincial table. The original looks the name up in a plain object, so what it does depends on the name:
  - an ordinary unknown name reads the length of `undefined` and fails at run time;
  - names inherited from `Object.prototype` whose value has no positive length ("toString", "valueOf" and "toLocaleString", whose length is 0, and "__proto__", whose length is undefined) make the provincial loop run zero times, so the original returns a normal record with provincial tax 0 and provincial rate 0;
  - inherited functions with a positive length ("constructor", "hasOwnProperty", "isPrototypeOf" and the like) enter the loop, and the original fails reading `upperLimit` of a missing element.
  The model does not reproduce the inherited-member cases.
- TaxCalculation.LookupTaxRate returns `None` when no bracket matches. The original fails at run time dereferencing the missing bracket. On the real tables this cannot happen (`LookupTaxRateFindsBracket`).
- TaxCalculation.WalkTaxLipschitz states continuity and monotonicity of the walked tax as a bound. Piecewise linearity is stated only for the first two federal brackets (`FederalWalkFirstBracket`, `FederalWalkSecondBracket`), not for every bracket.
- Comparison.Cpp and Comparison.Ei are flat rates with no yearly maximum or basic exemption, as the original computes them.
