/** The second, stand-alone copy of the dividend calculator, in
    app/routes/calculateDividendTax.tsx.  It returns the same record type as
    the copy in app/routes/TaxCalculationResult.tsx. */
module DividendTaxCopy {
  import TaxCalculation

  /** Grosses a dividend up by 38% federally and, in British Columbia only, by
      a further 12%, then takes the 15.0198% federal credit and (in British
      Columbia only) the 12% provincial credit of the grossed-up amount; the
      net dividend is the income less both credits.  It agrees with the other
      copy on every input. */
  function CalculateDividendTax(income: real, province: string): (r: TaxCalculation.TaxCalculationResult)
    ensures r == TaxCalculation.CalculateDividendTax(income, province)
  {
    var federalGrossUpRate := 0.38;
    var federalTaxCreditRate := 0.150198;
    var provincialGrossUpRate := if province == "British Columbia" then 0.12 else 0.0;
    var provincialTaxCreditRate := if province == "British Columbia" then 0.12 else 0.0;
    var grossedUpDividend := income * (1.0 + federalGrossUpRate + provincialGrossUpRate);
    var federalTaxCredit := grossedUpDividend * federalTaxCreditRate;
    var provincialTaxCredit := grossedUpDividend * provincialTaxCreditRate;
    var netDividend := income - (federalTaxCredit + provincialTaxCredit);
    TaxCalculation.TaxCalculationResult(grossedUpDividend, federalTaxCredit, provincialTaxCredit, netDividend)
  }

  /** Every field is the income times the field for a dividend of 1, so the
      calculator is linear in the income. */
  lemma DividendTaxIsLinear(income: real, province: string)
    ensures var r := CalculateDividendTax(income, province);
            var unit := CalculateDividendTax(1.0, province);
            && r.grossedUpDividend == income * unit.grossedUpDividend
            && r.federalTaxCredit == income * unit.federalTaxCredit
            && r.provincialTaxCredit == income * unit.provincialTaxCredit
            && r.netDividend == income * unit.netDividend
  {
  }

  /** A zero dividend yields zero in every field, in every province. */
  lemma ZeroDividend(province: string)
    ensures CalculateDividendTax(0.0, province) == TaxCalculation.TaxCalculationResult(0.0, 0.0, 0.0, 0.0)
  {
  }
}
