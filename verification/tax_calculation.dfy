/** The tax rules of app/routes/TaxCalculationResult.tsx: the eligible-dividend
    gross-up and credit calculator, the static federal and British Columbia
    bracket tables, the bracket-rate lookup and the two-table bracket walk that
    produces the wage "tax rates".  Numbers are exact reals; the table entry
    `Infinity` is the `Unbounded` limit. */
module TaxCalculation {
  import opened Wrappers

  const BritishColumbia: string := "British Columbia"

  // ---------------------------------------------------------------------------
  // Dividend gross-up and tax credits
  // ---------------------------------------------------------------------------

  /** What the dividend calculator returns. */
  datatype TaxCalculationResult = TaxCalculationResult(
    grossedUpDividend: real,
    federalTaxCredit: real,
    provincialTaxCredit: real,
    netDividend: real)

  const FederalGrossUpRate: real := 0.38
  const FederalTaxCreditRate: real := 0.150198

  /** Provincial eligible-dividend gross-up rate; only British Columbia has one. */
  function ProvincialGrossUpRate(province: string): (rate: real)
    ensures rate != 0.0 <==> province == BritishColumbia
    ensures province == BritishColumbia ==> rate == 0.12
  {
    if province == BritishColumbia then 0.12 else 0.0
  }

  /** Provincial eligible-dividend credit rate; only British Columbia has one. */
  function ProvincialTaxCreditRate(province: string): (rate: real)
    ensures rate != 0.0 <==> province == BritishColumbia
    ensures province == BritishColumbia ==> rate == 0.12
  {
    if province == BritishColumbia then 0.12 else 0.0
  }

  /** Grosses a dividend up by the federal and provincial rates and derives the
      two credits and the dividend net of them.  Every field is a fixed multiple
      of the income: 1.50, 0.225297, 0.18 and 0.594703 in British Columbia;
      1.38, 0.20727324, 0 and 0.79272676 anywhere else. */
  function CalculateDividendTax(income: real, province: string): (r: TaxCalculationResult)
    ensures r.grossedUpDividend == income * (if province == BritishColumbia then 1.50 else 1.38)
    ensures r.federalTaxCredit == income * (if province == BritishColumbia then 0.225297 else 0.20727324)
    ensures r.provincialTaxCredit == (if province == BritishColumbia then income * 0.18 else 0.0)
    ensures r.netDividend == income * (if province == BritishColumbia then 0.594703 else 0.79272676)
    ensures r.netDividend == income - (r.federalTaxCredit + r.provincialTaxCredit)
  {
    var provincialGrossUpRate := ProvincialGrossUpRate(province);
    var provincialTaxCreditRate := ProvincialTaxCreditRate(province);
    var grossedUpDividend := income * (1.0 + FederalGrossUpRate + provincialGrossUpRate);
    var federalTaxCredit := grossedUpDividend * FederalTaxCreditRate;
    var provincialTaxCredit := grossedUpDividend * provincialTaxCreditRate;
    var netDividend := income - (federalTaxCredit + provincialTaxCredit);
    TaxCalculationResult(grossedUpDividend, federalTaxCredit, provincialTaxCredit, netDividend)
  }

  /** The worked example: a 50000 eligible dividend in British Columbia. */
  lemma DividendTaxBritishColumbia50000()
    ensures CalculateDividendTax(50000.0, BritishColumbia)
         == TaxCalculationResult(75000.0, 11264.85, 9000.0, 29735.15)
  {
  }

  /** The federal credit is the federal credit rate applied to the grossed-up
      amount, and a province other than British Columbia gets no credit. */
  lemma DividendCreditsFromGrossUp(income: real, province: string)
    ensures CalculateDividendTax(income, province).federalTaxCredit
         == CalculateDividendTax(income, province).grossedUpDividend * FederalTaxCreditRate
    ensures province != BritishColumbia ==> CalculateDividendTax(income, province).provincialTaxCredit == 0.0
  {
  }

  // ---------------------------------------------------------------------------
  // Bracket tables
  // ---------------------------------------------------------------------------

  /** An upper income limit; the top bracket of a table has none. */
  datatype Limit = Bounded(value: real) | Unbounded

  datatype TaxBracket = TaxBracket(upperLimit: Limit, rate: real)

  /** `amount > limit`, which is false for every amount when there is no limit. */
  predicate Exceeds(amount: real, limit: Limit)
    ensures limit.Unbounded? ==> !Exceeds(amount, limit)
    ensures Exceeds(amount, limit) ==> amount > limit.value
  {
    limit.Bounded? && amount > limit.value
  }

  /** Each table lists its bounded brackets in ascending order of limit,
      followed by the unbounded top bracket. */
  const FederalTaxBrackets: seq<TaxBracket> := [
    TaxBracket(Bounded(53359.0), 0.15),
    TaxBracket(Bounded(106717.0), 0.205),
    TaxBracket(Bounded(165430.0), 0.26),
    TaxBracket(Bounded(235675.0), 0.29)
  ] + [TaxBracket(Unbounded, 0.33)]

  const BritishColumbiaTaxBrackets: seq<TaxBracket> := [
    TaxBracket(Bounded(45654.0), 0.0506),
    TaxBracket(Bounded(91310.0), 0.077),
    TaxBracket(Bounded(104835.0), 0.105),
    TaxBracket(Bounded(127299.0), 0.1229),
    TaxBracket(Bounded(172602.0), 0.147),
    TaxBracket(Bounded(240716.0), 0.168)
  ] + [TaxBracket(Unbounded, 0.205)]

  /** The provincial tables by province name; only British Columbia is present. */
  const ProvincialTaxBrackets: map<string, seq<TaxBracket>> :=
    map[BritishColumbia := BritishColumbiaTaxBrackets]

  /** Every bounded limit is non-negative and every rate lies in [0, 1]. */
  ghost predicate SaneBrackets(brackets: seq<TaxBracket>) {
    forall i :: 0 <= i < |brackets| ==>
      (brackets[i].upperLimit.Bounded? ==> brackets[i].upperLimit.value >= 0.0)
      && 0.0 <= brackets[i].rate <= 1.0
  }

  /** The table invariant: non-empty, only the last bracket is unbounded, the
      bounded limits are positive and strictly increasing, the rates lie in
      [0, 1] and do not decrease from one bracket to the next. */
  ghost predicate WellFormed(brackets: seq<TaxBracket>) {
    && |brackets| > 0
    && brackets[|brackets| - 1].upperLimit.Unbounded?
    && (forall i :: 0 <= i < |brackets| - 1 ==>
          brackets[i].upperLimit.Bounded? && brackets[i].upperLimit.value > 0.0)
    && (forall i :: 0 <= i < |brackets| - 2 ==>
          brackets[i].upperLimit.value < brackets[i + 1].upperLimit.value)
    && (forall i :: 0 <= i < |brackets| ==> 0.0 <= brackets[i].rate <= 1.0)
    && (forall i :: 0 <= i < |brackets| - 1 ==> brackets[i].rate <= brackets[i + 1].rate)
  }

  lemma WellFormedIsSane(brackets: seq<TaxBracket>)
    requires WellFormed(brackets)
    ensures SaneBrackets(brackets)
  {
  }

  /** A non-empty suffix of a well-formed table is well-formed. */
  lemma WellFormedTail(brackets: seq<TaxBracket>)
    requires WellFormed(brackets) && |brackets| > 1
    ensures WellFormed(brackets[1..])
  {
  }

  /** Both configured tables satisfy the table invariant. */
  lemma TablesWellFormed()
    ensures WellFormed(FederalTaxBrackets)
    ensures BritishColumbia in ProvincialTaxBrackets
    ensures forall p :: p in ProvincialTaxBrackets ==> WellFormed(ProvincialTaxBrackets[p])
  {
    assert ProvincialTaxBrackets.Keys == {BritishColumbia};
  }

  // ---------------------------------------------------------------------------
  // Rate lookup
  // ---------------------------------------------------------------------------

  /** The rate of the first bracket whose limit is at least `income`; `None`
      when there is no such bracket, where the original dereferences the
      missing bracket and fails. */
  function LookupTaxRate(income: real, brackets: seq<TaxBracket>): (r: Option<real>)
    ensures r.None? <==> forall i :: 0 <= i < |brackets| ==> Exceeds(income, brackets[i].upperLimit)
    ensures r.Some? ==>
      exists i :: 0 <= i < |brackets| && !Exceeds(income, brackets[i].upperLimit)
        && r.value == brackets[i].rate
        && (forall j :: 0 <= j < i ==> Exceeds(income, brackets[j].upperLimit))
  {
    if brackets == [] then None
    else if !Exceeds(income, brackets[0].upperLimit) then Some(brackets[0].rate)
    else
      var r := LookupTaxRate(income, brackets[1..]);
      assert forall i :: 1 <= i < |brackets| ==> brackets[1..][i - 1] == brackets[i];
      if r.Some? then
        var k :| 0 <= k < |brackets| - 1 && !Exceeds(income, brackets[1..][k].upperLimit)
                 && r.value == brackets[1..][k].rate
                 && (forall j :: 0 <= j < k ==> Exceeds(income, brackets[1..][j].upperLimit));
        assert !Exceeds(income, brackets[k + 1].upperLimit) && r.value == brackets[k + 1].rate;
        r
      else r
  }

  /** The income lies in bracket i: above the previous limit, if any, and not
      above this one. */
  ghost predicate InBracket(income: real, brackets: seq<TaxBracket>, i: nat)
    requires i < |brackets|
  {
    !Exceeds(income, brackets[i].upperLimit)
    && (i > 0 ==> Exceeds(income, brackets[i - 1].upperLimit))
  }

  /** On a well-formed table the lookup always finds a bracket, and the bracket
      it finds is the one whose range contains the income. */
  lemma {:induction false} LookupTaxRateFindsBracket(income: real, brackets: seq<TaxBracket>)
    requires WellFormed(brackets)
    ensures LookupTaxRate(income, brackets).Some?
    ensures exists i :: (0 <= i < |brackets| && InBracket(income, brackets, i)
                         && LookupTaxRate(income, brackets) == Some(brackets[i].rate))
  {
    var last := |brackets| - 1;
    assert !Exceeds(income, brackets[last].upperLimit);
    var r := LookupTaxRate(income, brackets);
    var i :| 0 <= i < |brackets| && !Exceeds(income, brackets[i].upperLimit)
             && r.value == brackets[i].rate
             && (forall j :: 0 <= j < i ==> Exceeds(income, brackets[j].upperLimit));
    if i > 0 {
      assert Exceeds(income, brackets[i - 1].upperLimit);
    }
    assert InBracket(income, brackets, i);
  }

  /** With rates that never decrease, a larger income never looks up a smaller
      marginal rate. */
  lemma {:induction false} LookupTaxRateMonotone(x: real, y: real, brackets: seq<TaxBracket>)
    requires WellFormed(brackets) && x <= y
    ensures LookupTaxRate(x, brackets).Some? && LookupTaxRate(y, brackets).Some?
    ensures LookupTaxRate(x, brackets).value <= LookupTaxRate(y, brackets).value
  {
    LookupTaxRateFindsBracket(x, brackets);
    LookupTaxRateFindsBracket(y, brackets);
    if |brackets| > 1 && Exceeds(x, brackets[0].upperLimit) {
      WellFormedTail(brackets);
      LookupTaxRateMonotone(x, y, brackets[1..]);
    } else if |brackets| > 1 && Exceeds(y, brackets[0].upperLimit) {
      WellFormedTail(brackets);
      LookupTaxRateFindsBracket(y, brackets[1..]);
      RatesFromFirst(brackets, 0);
    }
  }

  /** In a table whose rates never decrease, no rate is below the first one. */
  lemma {:induction false} RatesFromFirst(brackets: seq<TaxBracket>, k: nat)
    requires WellFormed(brackets) && k < |brackets|
    ensures forall i :: k <= i < |brackets| ==> brackets[k].rate <= brackets[i].rate
    decreases |brackets| - k
  {
    if k + 1 < |brackets| {
      RatesFromFirst(brackets, k + 1);
    }
  }

  // ---------------------------------------------------------------------------
  // The bracket walk
  // ---------------------------------------------------------------------------

  /** The state a bracket walk ends in: the tax accumulated and the remaining
      income it leaves behind. */
  datatype WalkResult = WalkResult(tax: real, remaining: real)

  /** One bracket walk as the original performs it: while the remaining income
      exceeds a bracket's limit, the whole limit is taxed at that bracket's rate
      and subtracted from the remaining income; at the first bracket it does not
      exceed, the remaining income is taxed at that rate and the walk stops.
      The remaining income is not reduced at the stopping bracket. */
  function Walk(remaining: real, brackets: seq<TaxBracket>): WalkResult
    decreases |brackets|
  {
    if brackets == [] then WalkResult(0.0, remaining)
    else
      var bracket := brackets[0];
      if Exceeds(remaining, bracket.upperLimit) then
        var rest := Walk(remaining - bracket.upperLimit.value, brackets[1..]);
        WalkResult(bracket.upperLimit.value * bracket.rate + rest.tax, rest.remaining)
      else
        WalkResult(remaining * bracket.rate, remaining)
  }

  /** The walk stops at some bracket by taking the not-exceeded branch, as
      opposed to running off the end of the table. */
  ghost predicate StopsInTable(remaining: real, brackets: seq<TaxBracket>)
    decreases |brackets|
  {
    brackets != [] &&
    (Exceeds(remaining, brackets[0].upperLimit) ==>
       StopsInTable(remaining - brackets[0].upperLimit.value, brackets[1..]))
  }

  /** A table ending in an unbounded bracket always stops the walk inside the
      table, at the unbounded bracket at the latest. */
  lemma {:induction false} WalkStopsInTable(remaining: real, brackets: seq<TaxBracket>)
    requires WellFormed(brackets)
    ensures StopsInTable(remaining, brackets)
    decreases |brackets|
  {
    if Exceeds(remaining, brackets[0].upperLimit) {
      assert |brackets| > 1;
      WellFormedTail(brackets);
      WalkStopsInTable(remaining - brackets[0].upperLimit.value, brackets[1..]);
    }
  }

  /** Income is only subtracted while it exceeds a limit, so a positive
      remaining income stays positive; with non-negative limits it never grows. */
  lemma {:induction false} WalkRemainingPositive(remaining: real, brackets: seq<TaxBracket>)
    requires SaneBrackets(brackets) && remaining > 0.0
    ensures 0.0 < Walk(remaining, brackets).remaining <= remaining
    decreases |brackets|
  {
    if brackets != [] && Exceeds(remaining, brackets[0].upperLimit) {
      WalkRemainingPositive(remaining - brackets[0].upperLimit.value, brackets[1..]);
    }
  }

  /** Taxing [x, y] at one rate in [0, 1] costs between nothing and y - x. */
  lemma SameBracketBounds(x: real, y: real, rate: real)
    requires x <= y && 0.0 <= rate <= 1.0
    ensures 0.0 <= y * rate - x * rate <= y - x
  {
    var d := y - x;
    assert y * rate - x * rate == d * rate;
    assert d * rate >= 0.0;
    assert d - d * rate == d * (1.0 - rate);
    assert d * (1.0 - rate) >= 0.0;
  }

  /** Crossing a limit u: [x, u] at one rate in [0, 1], plus `above` for the
      part past u, which itself costs between nothing and y - u. */
  lemma CrossBracketBounds(x: real, y: real, u: real, rate: real, above: real)
    requires x <= u < y && 0.0 <= rate <= 1.0 && 0.0 <= above <= y - u
    ensures 0.0 <= u * rate + above - x * rate <= y - x
  {
    SameBracketBounds(x, u, rate);
  }

  /** Both incomes past the first limit: both walks tax the whole limit at the
      first rate, so the bound for the rest of the table carries over. */
  lemma LipschitzBothExceed(x: real, y: real, brackets: seq<TaxBracket>)
    requires brackets != [] && x <= y && Exceeds(x, brackets[0].upperLimit)
    requires var u := brackets[0].upperLimit.value;
             0.0 <= Walk(y - u, brackets[1..]).tax - Walk(x - u, brackets[1..]).tax <= y - x
    ensures 0.0 <= Walk(y, brackets).tax - Walk(x, brackets).tax <= y - x
  {
  }

  /** The larger income alone crosses the first limit u: the walk of x stops
      at once, and the walk of y taxes [x, u] at the first rate plus the part
      past u, which costs between nothing and y - u. */
  lemma LipschitzCrossing(x: real, y: real, brackets: seq<TaxBracket>)
    requires brackets != [] && 0.0 <= brackets[0].rate <= 1.0
    requires !Exceeds(x, brackets[0].upperLimit) && Exceeds(y, brackets[0].upperLimit)
    requires var u := brackets[0].upperLimit.value;
             0.0 <= Walk(y - u, brackets[1..]).tax <= y - u
    ensures 0.0 <= Walk(y, brackets).tax - Walk(x, brackets).tax <= y - x
  {
    var u := brackets[0].upperLimit.value;
    CrossBracketBounds(x, y, u, brackets[0].rate, Walk(y - u, brackets[1..]).tax);
  }

  /** Neither income past the first limit: both walks stop at once. */
  lemma LipschitzWithin(x: real, y: real, brackets: seq<TaxBracket>)
    requires brackets != [] && 0.0 <= brackets[0].rate <= 1.0
    requires x <= y && !Exceeds(y, brackets[0].upperLimit)
    ensures 0.0 <= Walk(y, brackets).tax - Walk(x, brackets).tax <= y - x
  {
    SameBracketBounds(x, y, brackets[0].rate);
  }

  /** The accumulated tax grows with the income, and never faster than the
      income itself: for x <= y, 0 <= tax(y) - tax(x) <= y - x.  So the walked
      tax is nondecreasing and continuous in the income. */
  lemma {:induction false} WalkTaxLipschitz(x: real, y: real, brackets: seq<TaxBracket>)
    requires SaneBrackets(brackets) && 0.0 <= x <= y
    ensures 0.0 <= Walk(y, brackets).tax - Walk(x, brackets).tax <= y - x
    decreases |brackets|
  {
    if brackets != [] {
      var b := brackets[0];
      var rest := brackets[1..];
      assert SaneBrackets(rest);
      if Exceeds(x, b.upperLimit) {
        WalkTaxLipschitz(x - b.upperLimit.value, y - b.upperLimit.value, rest);
        LipschitzBothExceed(x, y, brackets);
      } else if Exceeds(y, b.upperLimit) {
        WalkTaxLipschitz(0.0, y - b.upperLimit.value, rest);
        WalkOfZero(rest);
        LipschitzCrossing(x, y, brackets);
      } else {
        LipschitzWithin(x, y, brackets);
      }
    }
  }

  /** Walking a zero income accumulates no tax. */
  lemma WalkOfZero(brackets: seq<TaxBracket>)
    requires SaneBrackets(brackets)
    ensures Walk(0.0, brackets).tax == 0.0
  {
  }

  /** The federal walk is monotone in the income. */
  lemma FederalTaxMonotone(x: real, y: real)
    requires 0.0 <= x <= y
    ensures FederalTax(x) <= FederalTax(y)
  {
    TablesWellFormed();
    WellFormedIsSane(FederalTaxBrackets);
    WalkTaxLipschitz(x, y, FederalTaxBrackets);
  }

  /** Tax of the federal walk: for a non-negative income, between nothing and
      the income. */
  function FederalTax(income: real): (tax: real)
    ensures 0.0 <= income ==> 0.0 <= tax <= income
  {
    TablesWellFormed();
    WellFormedIsSane(FederalTaxBrackets);
    if 0.0 <= income then
      WalkTaxLipschitz(0.0, income, FederalTaxBrackets);
      WalkOfZero(FederalTaxBrackets);
      Walk(income, FederalTaxBrackets).tax
    else
      Walk(income, FederalTaxBrackets).tax
  }

  /** Tax of the provincial walk, which starts from the remaining income the
      federal walk left behind rather than from the income: up to the first
      federal limit that is the income itself, and past it the income less
      at least the first federal limit.  For a non-negative income the tax
      lies between nothing and the income. */
  function ProvincialTax(income: real, province: string): (tax: real)
    requires province in ProvincialTaxBrackets
    ensures income <= 53359.0 ==> tax == Walk(income, ProvincialTaxBrackets[province]).tax
    ensures 0.0 <= income ==> 0.0 <= tax <= income
  {
    TablesWellFormed();
    WellFormedIsSane(FederalTaxBrackets);
    WellFormedIsSane(ProvincialTaxBrackets[province]);
    var federal := Walk(income, FederalTaxBrackets);
    if 0.0 < income then
      WalkRemainingPositive(income, FederalTaxBrackets);
      WalkTaxLipschitz(0.0, federal.remaining, ProvincialTaxBrackets[province]);
      WalkOfZero(ProvincialTaxBrackets[province]);
      Walk(federal.remaining, ProvincialTaxBrackets[province]).tax
    else
      Walk(federal.remaining, ProvincialTaxBrackets[province]).tax
  }

  /** Up to the first federal limit the federal walk stops at once: it taxes
      the whole income at 15% and leaves the income untouched for the
      provincial walk. */
  lemma FederalWalkFirstBracket(income: real)
    requires income <= 53359.0
    ensures Walk(income, FederalTaxBrackets) == WalkResult(0.15 * income, income)
    ensures FederalTax(income) == 0.15 * income
    ensures ProvincialTax(income, BritishColumbia) == Walk(income, BritishColumbiaTaxBrackets).tax
  {
  }

  /** Past the first federal limit (and up to the second limit plus the first),
      the provincial walk starts from the income less 53359. */
  lemma FederalWalkSecondBracket(income: real)
    requires 53359.0 < income <= 53359.0 + 106717.0
    ensures Walk(income, FederalTaxBrackets).remaining == income - 53359.0
    ensures FederalTax(income) == 53359.0 * 0.15 + (income - 53359.0) * 0.205
    ensures ProvincialTax(income, BritishColumbia)
         == Walk(income - 53359.0, BritishColumbiaTaxBrackets).tax
  {
    var rest := FederalTaxBrackets[1..];
    assert rest[0] == TaxBracket(Bounded(106717.0), 0.205);
    assert Walk(income - 53359.0, rest) == WalkResult((income - 53359.0) * 0.205, income - 53359.0);
  }

  /** For a positive income the shared remaining income stays positive through
      both walks and never exceeds the income. */
  lemma SharedRemainingStaysPositive(income: real, province: string)
    requires income > 0.0 && province in ProvincialTaxBrackets
    ensures var federal := Walk(income, FederalTaxBrackets);
            0.0 < Walk(federal.remaining, ProvincialTaxBrackets[province]).remaining
                <= federal.remaining <= income
  {
    TablesWellFormed();
    WellFormedIsSane(FederalTaxBrackets);
    WellFormedIsSane(ProvincialTaxBrackets[province]);
    WalkRemainingPositive(income, FederalTaxBrackets);
    WalkRemainingPositive(Walk(income, FederalTaxBrackets).remaining, ProvincialTaxBrackets[province]);
  }

  /** Because the provincial walk continues from what the federal walk left,
      the combined tax is not monotone: one more dollar past the first federal
      limit removes 53359 from the provincial walk's starting point. */
  lemma CombinedTaxNotMonotone()
    ensures FederalTax(53359.0) + ProvincialTax(53359.0, BritishColumbia) == 10907.2274
    ensures FederalTax(53360.0) + ProvincialTax(53360.0, BritishColumbia) == 8004.1056
  {
    FederalWalkFirstBracket(53359.0);
    FederalWalkSecondBracket(53360.0);
    var bc := BritishColumbiaTaxBrackets;
    assert bc[1..][0] == TaxBracket(Bounded(91310.0), 0.077);
    assert Walk(7705.0, bc[1..]) == WalkResult(7705.0 * 0.077, 7705.0);
    assert Walk(53359.0, bc).tax == 45654.0 * 0.0506 + 7705.0 * 0.077;
  }

  // ---------------------------------------------------------------------------
  // Combined "marginal" tax rates
  // ---------------------------------------------------------------------------

  /** What the rate calculator returns: each "rate" is a walked tax amount
      divided by the income. */
  datatype TaxRateResult = TaxRateResult(
    income: real,
    combinedMarginalTaxRate: real,
    federalTaxRate: real,
    provincialTaxRate: real)

  datatype TaxError = UnsupportedProvince(province: string)

  /** Turns the two walked tax amounts into the calculator's record by
      dividing each, and their sum, by the income: the shares add up and give
      the amounts back when multiplied by the income. */
  function RatesOf(income: real, federalTax: real, provincialTax: real): (r: TaxRateResult)
    requires income != 0.0
    ensures r.income == income
    ensures r.federalTaxRate * income == federalTax
    ensures r.provincialTaxRate * income == provincialTax
    ensures r.combinedMarginalTaxRate == r.federalTaxRate + r.provincialTaxRate
  {
    TaxRateResult(income, (federalTax + provincialTax) / income,
                  federalTax / income, provincialTax / income)
  }

  /** The result the rate calculator computes, as a value: the province must
      have a bracket table, and dividing by the income recovers each walked
      tax when multiplied back. */
  function TaxRates(income: real, province: string): (r: Result<TaxRateResult, TaxError>)
    requires income != 0.0
    ensures r.Success? <==> province in ProvincialTaxBrackets
    ensures r.Failure? ==> r.error == UnsupportedProvince(province)
    ensures r.Success? ==> r.value == RatesOf(income, FederalTax(income), ProvincialTax(income, province))
  {
    if province !in ProvincialTaxBrackets then Failure(UnsupportedProvince(province))
    else
      Success(RatesOf(income, FederalTax(income), ProvincialTax(income, province)))
  }

  /** For a supported province the three "rates" are the walked amounts over
      the income: times the income they give back the federal and the
      provincial tax, and the combined rate is their sum. */
  lemma TaxRatesRecoverTaxes(income: real, province: string)
    requires income != 0.0 && province in ProvincialTaxBrackets
    ensures var r := TaxRates(income, province).value;
            && r.income == income
            && r.federalTaxRate * income == FederalTax(income)
            && r.provincialTaxRate * income == ProvincialTax(income, province)
            && r.combinedMarginalTaxRate == r.federalTaxRate + r.provincialTaxRate
  {
    var r := TaxRates(income, province).value;
    assert r == RatesOf(income, FederalTax(income), ProvincialTax(income, province));
  }

  /** The worked example: 50000 in British Columbia.  The federal walk stops at
      its first bracket, so the provincial walk sees all 50000. */
  lemma TaxRatesBritishColumbia50000()
    ensures TaxRates(50000.0, BritishColumbia).Success?
    ensures FederalTax(50000.0) == 7500.0
    ensures ProvincialTax(50000.0, BritishColumbia) == 45654.0 * 0.0506 + 4346.0 * 0.077
    ensures TaxRates(50000.0, BritishColumbia).value.federalTaxRate == 0.15
  {
    FederalWalkFirstBracket(50000.0);
    var bc := BritishColumbiaTaxBrackets;
    assert bc[1..][0] == TaxBracket(Bounded(91310.0), 0.077);
    assert Walk(4346.0, bc[1..]) == WalkResult(4346.0 * 0.077, 4346.0);
  }

  /** One table's loop of the rate calculator: walks `brackets` from the given
      remaining income, accumulating into `tax`, and hands back the remaining
      income for the next table. */
  method WalkBrackets(remainingIncome: real, brackets: seq<TaxBracket>)
    returns (tax: real, remainingAfter: real)
    ensures WalkResult(tax, remainingAfter) == Walk(remainingIncome, brackets)
  {
    tax := 0.0;
    remainingAfter := remainingIncome;
    for i := 0 to |brackets|
      invariant tax + Walk(remainingAfter, brackets[i..]).tax == Walk(remainingIncome, brackets).tax
      invariant Walk(remainingAfter, brackets[i..]).remaining == Walk(remainingIncome, brackets).remaining
    {
      var bracket := brackets[i];
      assert brackets[i..][1..] == brackets[i + 1..];
      if Exceeds(remainingAfter, bracket.upperLimit) {
        tax := tax + bracket.upperLimit.value * bracket.rate;
        remainingAfter := remainingAfter - bracket.upperLimit.value;
      } else {
        tax := tax + remainingAfter * bracket.rate;
        break;
      }
    }
  }

  /** The rate calculator: the federal table is walked first, then the
      province's table continues from the same depleted remaining income.  An
      unknown province fails where the original would dereference a missing
      table. */
  method CalculateCombinedMarginalTaxRate(income: real, province: string)
    returns (r: Result<TaxRateResult, TaxError>)
    requires income != 0.0
    ensures r == TaxRates(income, province)
  {
    var remainingIncome := income;
    var federalTax, provincialTax;
    federalTax, remainingIncome := WalkBrackets(remainingIncome, FederalTaxBrackets);
    if province !in ProvincialTaxBrackets {
      return Failure(UnsupportedProvince(province));
    }
    provincialTax, remainingIncome := WalkBrackets(remainingIncome, ProvincialTaxBrackets[province]);

    var combinedMarginalTaxRate := (federalTax + provincialTax) / income;
    r := Success(TaxRateResult(income, combinedMarginalTaxRate,
                               federalTax / income, provincialTax / income));
  }

  // ---------------------------------------------------------------------------
  // The comparison record
  // ---------------------------------------------------------------------------

  datatype DividendTaxed = DividendTaxed(provincial: real, federal: real, percentage: real)

  datatype DividendComparison = DividendComparison(taxed: DividendTaxed, takeHome: real)

  datatype WageTaxes = WageTaxes(percentage: real, provincial: real, federal: real)

  datatype WageComparison = WageComparison(
    cpp: real,
    ei: real,
    taxes: WageTaxes,
    takeHome: real,
    cppPercentage: real,
    eiPercentage: real)

  /** One income's dividend-versus-wage comparison. */
  datatype TaxComparisonResult = TaxComparisonResult(
    income: real,
    dividends: DividendComparison,
    wages: WageComparison)
}
