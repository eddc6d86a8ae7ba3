/** The per-income comparison of app/routes/_index.tsx: for each income, the
    flat CPP and EI deductions, the taxable income left after them, the
    dividend credits and the walked wage taxes on that taxable income, and the
    derived take-home and "percentage" figures.  The province is always
    British Columbia. */
module Comparison {
  import opened Wrappers
  import opened TaxCalculation

  /** Canada Pension Plan contribution: a flat 5.1% of the income, with no
      yearly maximum. */
  function Cpp(income: real): (cpp: real)
    ensures income >= 0.0 ==> 0.0 <= cpp <= income
  {
    income * 0.051
  }

  /** Employment Insurance premium: a flat 1.58% of the income, with no
      yearly maximum. */
  function Ei(income: real): (ei: real)
    ensures income >= 0.0 ==> 0.0 <= ei <= income
  {
    income * 0.0158
  }

  /** The income left after CPP and EI, which both calculators are given:
      93.32% of the income. */
  function TaxableIncome(income: real): (taxable: real)
    ensures taxable == income * 0.9332
    ensures taxable == 0.0 <==> income == 0.0
  {
    income - Cpp(income) - Ei(income)
  }

  /** A flat rate applied to a non-zero income and divided by it again gives
      the rate back. */
  lemma ShareOfIncome(income: real, rate: real)
    requires income != 0.0
    ensures income * rate / income == rate
  {
  }

  /** One income's record.  Both calculators see the taxable income, not the
      income; the dividend "percentage" is the sum of the two credits, not a
      percentage; the wage take-home subtracts CPP and EI again from an amount
      they were already taken out of. */
  function CompareIncome(income: real): (c: TaxComparisonResult)
    requires income != 0.0
    ensures c.income == income
    ensures c.wages.cpp == income * 0.051 && c.wages.ei == income * 0.0158
    ensures c.wages.cppPercentage == 5.1 && c.wages.eiPercentage == 1.58
    ensures c.dividends.taxed.federal == income * 0.9332 * 0.225297
    ensures c.dividends.taxed.provincial == income * 0.9332 * 0.18
    ensures c.dividends.taxed.percentage == c.dividends.taxed.federal + c.dividends.taxed.provincial
    ensures c.dividends.takeHome == CalculateDividendTax(TaxableIncome(income), BritishColumbia).netDividend
    ensures c.wages.taxes.percentage
         == TaxRates(TaxableIncome(income), BritishColumbia).value.combinedMarginalTaxRate * 100.0
  {
    var province := BritishColumbia;
    var cpp := Cpp(income);
    var ei := Ei(income);
    var taxableIncome := TaxableIncome(income);
    var dividendTax := CalculateDividendTax(taxableIncome, province);
    var wageTax := TaxRates(taxableIncome, province).value;
    var dividendTakeHome := taxableIncome - (dividendTax.federalTaxCredit + dividendTax.provincialTaxCredit);
    var wageTakeHome := taxableIncome - ((wageTax.federalTaxRate * wageTax.income)
                                         + (wageTax.provincialTaxRate * wageTax.income) + cpp + ei);
    var dividendTaxPercentage := dividendTax.federalTaxCredit + dividendTax.provincialTaxCredit;
    var wageTaxPercentage := (wageTax.federalTaxRate + wageTax.provincialTaxRate) * 100.0;
    ShareOfIncome(income, 0.051);
    ShareOfIncome(income, 0.0158);
    var cppPercentage := cpp / income * 100.0;
    var eiPercentage := ei / income * 100.0;
    TaxComparisonResult(
      income,
      DividendComparison(
        DividendTaxed(dividendTax.provincialTaxCredit, dividendTax.federalTaxCredit, dividendTaxPercentage),
        dividendTakeHome),
      WageComparison(
        cpp, ei,
        WageTaxes(wageTaxPercentage, wageTax.provincialTaxRate, wageTax.federalTaxRate),
        wageTakeHome, cppPercentage, eiPercentage))
  }

  /** The wage side of one record: the two "rates" times the taxable income
      give back the walked federal and provincial taxes, and the wage take-home
      is the taxable income less those taxes and less CPP and EI. */
  lemma WageTaxesOfComparison(income: real)
    requires income != 0.0
    ensures var c := CompareIncome(income);
            var taxable := TaxableIncome(income);
            && c.wages.taxes.federal * taxable == FederalTax(taxable)
            && c.wages.taxes.provincial * taxable == ProvincialTax(taxable, BritishColumbia)
            && c.wages.takeHome
               == taxable - (FederalTax(taxable) + ProvincialTax(taxable, BritishColumbia) + c.wages.cpp + c.wages.ei)
  {
    var taxable := TaxableIncome(income);
    TaxRatesRecoverTaxes(taxable, BritishColumbia);
  }

  /** The worked example: an income of 50000 leaves a taxable income of 46660,
      on which the federal walk stops in its first bracket (6999) and the
      provincial walk crosses its first limit. */
  lemma Comparison50000()
    ensures var c := CompareIncome(50000.0);
            && c.wages.cpp == 2550.0 && c.wages.ei == 790.0
            && c.dividends.taxed.federal == 46660.0 * 0.225297
            && c.dividends.taxed.provincial == 8398.8
            && c.dividends.takeHome == 46660.0 * 0.594703
            && c.wages.takeHome == 46660.0 - (6999.0 + 45654.0 * 0.0506 + 1006.0 * 0.077 + 2550.0 + 790.0)
  {
    var taxable := TaxableIncome(50000.0);
    assert taxable == 46660.0;
    FederalWalkFirstBracket(taxable);
    var bc := BritishColumbiaTaxBrackets;
    assert bc[1..][0] == TaxBracket(Bounded(91310.0), 0.077);
    assert Walk(1006.0, bc[1..]) == WalkResult(1006.0 * 0.077, 1006.0);
    WageTaxesOfComparison(50000.0);
  }

  /** The comparison for a list of incomes: one record per income, in the
      same order. */
  function CalculateTaxComparisonForBC(incomes: seq<real>): (results: seq<TaxComparisonResult>)
    requires forall i :: 0 <= i < |incomes| ==> incomes[i] != 0.0
    ensures |results| == |incomes|
    ensures forall i :: 0 <= i < |incomes| ==> results[i].income == incomes[i]
    ensures forall i :: 0 <= i < |incomes| ==> results[i] == CompareIncome(incomes[i])
  {
    if incomes == [] then []
    else [CompareIncome(incomes[0])] + CalculateTaxComparisonForBC(incomes[1..])
  }
}
