/** The contribution calculator of simulador.py: every figure the page
    derives from the six user inputs, as one pure function.

    Amounts and rates are exact reals. The percentages the sliders give
    (2.0 for 2%) are converted with `/ 100` as in the script. */
module Calculator {

  /** VALOR_UR_FIXO: the value of one reference unit (UR). */
  const UrValue: real := 795.68
  /** QUANTIDADE_UR_FIXA */
  const UrCount: int := 7
  /** percentual_maximo: the share of the annual salary eligible for the tax benefit. */
  const MaxFiscalFraction: real := 0.12
  /** The lower end of the custom sporadic-amount slider, written as a literal in the script. */
  const SliderMinimum: real := 2387.04

  /** The six values the page's widgets provide. */
  datatype Inputs = Inputs(
    monthlySalary: real,     // salario_mensal
    rateAPct: real,          // contribuicao_basica_pct
    rateBPct: real,          // contribuicao_basica_outro_pct
    voluntaryPct: real,      // contribuicao_voluntaria_pct
    contributions: int,      // quantidade_contribuicoes
    customSporadic: real)    // valor_esporadica_personalizado

  /** Which message the suggested sporadic amount produces. */
  datatype SporadicAdvice =
    | TargetMet        // the "already reached the maximum" panel
    | BelowMinimum     // the suggestion is shown, with a warning that it is below 3 x UR
    | AboveMaximum     // the suggestion is shown, with a warning that it is above 5 x salary
    | WithinBounds     // the suggestion is shown without a warning

  /** Which message the final percentage produces. */
  datatype FiscalStatus = WithinLimit | OverLimit

  /** The monthly and annual contributions, from the section "Contribuição Básica". */
  datatype Contributions = Contributions(
    rateA: real,              // contribuicao_basica
    partA: real,              // valor_basica
    rateB: real,              // contribuicao_basica_outro
    partBCaption: real,       // valor_outro (shown under slider B)
    partB: real,              // valor_base (used in the total)
    basicMonthly: real,       // contribuicao_mensal_sem_voluntaria
    voluntaryMonthly: real,   // contribuicao_voluntaria_valor
    totalMonthly: real,       // contribuicao_mensal_total
    annualTotal: real)        // total_contribuicao_anual

  /** Every derived figure of the page. */
  datatype Results = Results(
    annualSalary: real,       // salario_anual
    urTotal: real,            // total_ur
    contributions: Contributions,
    currentFraction: real,    // percentual_recolhido
    sporadicMin: real,        // valor_minimo_esporadica
    sporadicMax: real,        // valor_maximo_esporadica
    suggestedSporadic: real,  // valor_ideal_esporadica
    advice: SporadicAdvice,
    finalTotal: real,         // total_final
    finalFraction: real,      // novo_percentual
    progress: real,           // progresso
    fiscalStatus: FiscalStatus)

  function UrTotal(): real {
    UrCount as real * UrValue
  }

  function MinReal(x: real, y: real): real {
    if x <= y then x else y
  }

  /** Parcela B as the caption under slider B computes it. */
  function PartBCaption(salary: real, rateB: real): real {
    if salary < UrTotal() then 0.0 else (salary - UrTotal()) * rateB
  }

  /** Parcela B as the basic monthly contribution computes it. */
  function PartB(salary: real, rateB: real): real {
    if salary - UrTotal() < 0.0 then 0.0 else (salary - UrTotal()) * rateB
  }

  /** total / annual, with 0 when the annual salary is not positive. */
  function Fraction(total: real, annual: real): real {
    if annual > 0.0 then total / annual else 0.0
  }

  /** The custom amount is added unless it is zero. */
  function FinalTotal(custom: real, annualTotal: real): real {
    if custom != 0.0 then custom + annualTotal else annualTotal
  }

  /** The amount that would bring the year's contributions to 12% of the annual salary. */
  function SuggestedSporadic(currentFraction: real, annual: real): real {
    (MaxFiscalFraction - currentFraction) * annual
  }

  function Advice(suggested: real, minimum: real, maximum: real): SporadicAdvice {
    if suggested > 0.0 then
      if suggested < minimum then BelowMinimum
      else if suggested > maximum then AboveMaximum
      else WithinBounds
    else TargetMet
  }

  function Progress(finalFraction: real): real {
    MinReal(finalFraction / MaxFiscalFraction, 1.0)
  }

  function Status(finalFraction: real): FiscalStatus {
    if finalFraction <= MaxFiscalFraction then WithinLimit else OverLimit
  }

  /** The contributions, in the order the page computes them. */
  function Contribute(i: Inputs): (c: Contributions)
    ensures c.rateA == i.rateAPct / 100.0 && c.partA == i.monthlySalary * c.rateA
    ensures c.rateB == i.rateBPct / 100.0
    ensures c.basicMonthly == c.partA + c.partB
    ensures c.voluntaryMonthly == i.monthlySalary * i.voluntaryPct / 100.0
    ensures c.totalMonthly == c.basicMonthly + c.voluntaryMonthly
    ensures c.annualTotal == c.totalMonthly * i.contributions as real
    ensures c.partBCaption == c.partB
    ensures i.monthlySalary < 5569.76 ==> c.partB == 0.0
    ensures i.monthlySalary >= 5569.76 ==> c.partB == (i.monthlySalary - 5569.76) * c.rateB
    ensures i.rateBPct >= 0.0 ==> c.partB >= 0.0
  {
    var salary := i.monthlySalary;
    var rateA := i.rateAPct / 100.0;
    var partA := salary * rateA;
    var rateB := i.rateBPct / 100.0;
    var partBCaption := PartBCaption(salary, rateB);
    var partB := PartB(salary, rateB);
    var basicMonthly := salary * rateA + partB;
    var voluntaryMonthly := salary * i.voluntaryPct / 100.0;
    var totalMonthly := basicMonthly + voluntaryMonthly;
    PartBBranchesAgree(salary, rateB);
    Contributions(
      rateA, partA, rateB, partBCaption, partB, basicMonthly,
      voluntaryMonthly, totalMonthly, totalMonthly * i.contributions as real)
  }

  /** All the figures, in the order the page computes them. */
  function Calculate(i: Inputs): (r: Results)
    ensures r.contributions == Contribute(i)
    ensures r.annualSalary == 14.0 * i.monthlySalary
    ensures r.urTotal == 5569.76 && r.sporadicMin == SliderMinimum
    ensures r.annualSalary == 0.0 ==> r.currentFraction == 0.0 && r.finalFraction == 0.0
    ensures r.annualSalary > 0.0 ==>
      && r.currentFraction * r.annualSalary == r.contributions.annualTotal
      && r.finalFraction * r.annualSalary == r.finalTotal
    ensures r.finalTotal == r.contributions.annualTotal + i.customSporadic
    ensures r.suggestedSporadic == (0.12 - r.currentFraction) * r.annualSalary
    ensures r.advice == TargetMet <==> r.suggestedSporadic <= 0.0
    ensures r.progress <= 1.0
    ensures r.fiscalStatus == OverLimit ==> r.progress == 1.0
    ensures r.fiscalStatus == WithinLimit <==> r.finalFraction <= 0.12
    ensures r.fiscalStatus == WithinLimit <==> r.progress == r.finalFraction / 0.12
  {
    var salary := i.monthlySalary;
    var annualSalary := salary * 14.0;
    var urTotal := UrTotal();
    var c := Contribute(i);
    var currentFraction := Fraction(c.annualTotal, annualSalary);
    var sporadicMin := 3.0 * UrValue;
    var sporadicMax := salary * 5.0;
    var suggested := SuggestedSporadic(currentFraction, annualSalary);
    var finalTotal := FinalTotal(i.customSporadic, c.annualTotal);
    var finalFraction := Fraction(finalTotal, annualSalary);
    FractionGuard(c.annualTotal, annualSalary);
    FractionGuard(finalTotal, annualSalary);
    ProgressMatchesStatus(finalFraction);
    AdviceCases(suggested, sporadicMin, sporadicMax);
    Results(
      annualSalary, urTotal, c, currentFraction, sporadicMin, sporadicMax,
      suggested, Advice(suggested, sporadicMin, sporadicMax),
      finalTotal, finalFraction, Progress(finalFraction), Status(finalFraction))
  }

  // ---------------------------------------------------------------------
  // Properties of the parts

  /** The two tests of Parcela B agree, it is the rate applied to the part of
      the salary above 7 UR, and it is zero below that threshold. */
  lemma PartBBranchesAgree(salary: real, rateB: real)
    ensures PartBCaption(salary, rateB) == PartB(salary, rateB)
    ensures salary < 5569.76 ==> PartB(salary, rateB) == 0.0
    ensures salary >= 5569.76 ==> PartB(salary, rateB) == (salary - 5569.76) * rateB
    ensures rateB >= 0.0 ==> PartB(salary, rateB) >= 0.0
  {
  }

  /** The guarded ratio never divides by zero: it is 0 for a zero annual
      salary and the exact quotient for a positive one. */
  lemma FractionGuard(total: real, annual: real)
    ensures annual <= 0.0 ==> Fraction(total, annual) == 0.0
    ensures annual > 0.0 ==> Fraction(total, annual) * annual == total
    ensures annual > 0.0 && total >= 0.0 ==> Fraction(total, annual) >= 0.0
  {
  }

  /** Both branches of the custom-amount test add the custom amount. */
  lemma FinalTotalBranchesAgree(custom: real, annualTotal: real)
    ensures FinalTotal(custom, annualTotal) == annualTotal + custom
  {
  }

  /** The progress bar is clamped at 1 and the message follows the bar:
      "within the limit" exactly when the bar shows the unclamped ratio. */
  lemma ProgressMatchesStatus(f: real)
    ensures Progress(f) <= 1.0
    ensures f >= 0.0 ==> Progress(f) >= 0.0
    ensures Status(f) == WithinLimit <==> f / 0.12 <= 1.0
    ensures Status(f) == WithinLimit <==> Progress(f) == f / 0.12
    ensures Status(f) == OverLimit <==> Progress(f) == 1.0 && f / 0.12 > 1.0
  {
  }

  /** The advice partitions the suggestion: "target met" exactly for a
      non-positive one, otherwise at most one warning, the minimum checked
      first, and the suggestion itself is never changed. */
  lemma AdviceCases(s: real, minimum: real, maximum: real)
    ensures Advice(s, minimum, maximum) == TargetMet <==> s <= 0.0
    ensures Advice(s, minimum, maximum) == BelowMinimum <==> 0.0 < s < minimum
    ensures Advice(s, minimum, maximum) == AboveMaximum <==> 0.0 < s && minimum <= s && maximum < s
    ensures Advice(s, minimum, maximum) == WithinBounds <==> 0.0 < s && minimum <= s <= maximum
  {
  }

  // ---------------------------------------------------------------------
  // Properties of the whole calculation

  /** Contributing the suggested amount lands exactly on the 12% limit: the
      new percentage is 12%, the bar is full and the message is "within". */
  lemma SuggestionReachesLimit(i: Inputs)
    requires i.monthlySalary > 0.0
    ensures var r := Calculate(i);
      var f := Fraction(FinalTotal(r.suggestedSporadic, r.contributions.annualTotal), r.annualSalary);
      f == MaxFiscalFraction && Progress(f) == 1.0 && Status(f) == WithinLimit
  {
    var r := Calculate(i);
    assert r.annualSalary > 0.0;
    assert r.currentFraction == Fraction(r.contributions.annualTotal, r.annualSalary);
    assert r.suggestedSporadic == SuggestedSporadic(r.currentFraction, r.annualSalary);
    SuggestionFillsLimit(r.contributions.annualTotal, r.annualSalary);
    ProgressMatchesStatus(MaxFiscalFraction);
  }

  /** The suggestion is the gap between the year's contributions and 12% of the annual salary. */
  lemma SuggestionFillsLimit(total: real, annual: real)
    requires annual > 0.0
    ensures var s := SuggestedSporadic(Fraction(total, annual), annual);
      s == MaxFiscalFraction * annual - total
      && Fraction(FinalTotal(s, total), annual) == MaxFiscalFraction
  {
    var c := Fraction(total, annual);
    FractionGuard(total, annual);
    var s := SuggestedSporadic(c, annual);
    assert s == MaxFiscalFraction * annual - c * annual;
    FinalTotalBranchesAgree(s, total);
    assert FinalTotal(s, total) == MaxFiscalFraction * annual;
  }

  /** The warnings shown with a positive suggestion: below 3 UR first,
      otherwise above 5 salaries, otherwise none. */
  lemma SuggestionWarnings(i: Inputs)
    ensures var r := Calculate(i);
      && r.sporadicMin == 3.0 * UrValue && r.sporadicMax == 5.0 * i.monthlySalary
      && (r.advice == BelowMinimum <==> 0.0 < r.suggestedSporadic < r.sporadicMin)
      && (r.advice == AboveMaximum <==>
            0.0 < r.suggestedSporadic && r.sporadicMin <= r.suggestedSporadic && r.sporadicMax < r.suggestedSporadic)
      && (r.advice == WithinBounds <==>
            0.0 < r.suggestedSporadic && r.sporadicMin <= r.suggestedSporadic <= r.sporadicMax)
  {
    var r := Calculate(i);
    assert r.advice == Advice(r.suggestedSporadic, r.sporadicMin, r.sporadicMax);
    AdviceCases(r.suggestedSporadic, r.sporadicMin, r.sporadicMax);
  }

  /** For a positive salary "target already met" means the year's
      contributions already reach 12%; for a zero salary it is always shown. */
  lemma TargetMetMeansLimitReached(i: Inputs)
    ensures i.monthlySalary > 0.0 ==>
      (Calculate(i).advice == TargetMet <==> Calculate(i).currentFraction >= MaxFiscalFraction)
    ensures i.monthlySalary == 0.0 ==> Calculate(i).advice == TargetMet && Calculate(i).suggestedSporadic == 0.0
  {
    var r := Calculate(i);
    if i.monthlySalary > 0.0 {
      assert r.annualSalary > 0.0;
      assert r.suggestedSporadic <= 0.0 <==> r.currentFraction >= 0.12 by {
        var d := 0.12 - r.currentFraction;
        assert r.suggestedSporadic == d * r.annualSalary;
        if d > 0.0 {
          assert d * r.annualSalary > 0.0;
        }
      }
    }
  }

  /** The ranges the widgets enforce before the calculation runs. */
  predicate WidgetRanges(i: Inputs) {
    && i.monthlySalary >= 0.0
    && 0.0 <= i.rateAPct <= 100.0
    && 4.5 <= i.rateBPct <= 10.0
    && 0.0 <= i.voluntaryPct <= 10.0
    && 0 <= i.contributions <= 13
    && SliderMinimum <= i.customSporadic <= i.monthlySalary * 5.0 * 1.1
  }

  /** Within the widget ranges no contribution is negative. */
  lemma WidgetRangesKeepAmountsNonNegative(i: Inputs)
    requires WidgetRanges(i)
    ensures var c := Contribute(i);
      && c.partA >= 0.0 && c.partB >= 0.0 && c.voluntaryMonthly >= 0.0
      && c.totalMonthly >= 0.0 && c.annualTotal >= 0.0
  {
    ContributionsNonNegative(
      i.monthlySalary, i.rateAPct / 100.0, i.rateBPct / 100.0, i.voluntaryPct, i.contributions as real);
  }

  /** The monthly pieces and the annual total, for non-negative inputs. */
  lemma ContributionsNonNegative(s: real, rateA: real, rateB: real, voluntaryPct: real, n: real)
    requires s >= 0.0 && rateA >= 0.0 && rateB >= 0.0 && voluntaryPct >= 0.0 && n >= 0.0
    ensures s * rateA >= 0.0 && PartB(s, rateB) >= 0.0 && s * voluntaryPct / 100.0 >= 0.0
    ensures s * rateA + PartB(s, rateB) + s * voluntaryPct / 100.0 >= 0.0
    ensures (s * rateA + PartB(s, rateB) + s * voluntaryPct / 100.0) * n >= 0.0
  {
    NonNegativeProduct(s, rateA);
    NonNegativeProduct(s, voluntaryPct);
    PartBBranchesAgree(s, rateB);
    NonNegativeProduct(s * rateA + PartB(s, rateB) + s * voluntaryPct / 100.0, n);
  }

  /** Within the widget ranges the final total is positive, both percentages
      are non-negative and the progress bar stays in [0, 1]. */
  lemma WidgetRangesKeepProgressInUnitInterval(i: Inputs)
    requires WidgetRanges(i)
    ensures var r := Calculate(i);
      r.finalTotal > 0.0 && r.currentFraction >= 0.0 && r.finalFraction >= 0.0 && 0.0 <= r.progress <= 1.0
  {
    var r := Calculate(i);
    WidgetRangesKeepAmountsNonNegative(i);
    assert r.contributions == Contribute(i);
    assert r.finalTotal > 0.0;
    FractionGuard(r.contributions.annualTotal, r.annualSalary);
    FractionGuard(r.finalTotal, r.annualSalary);
    ProgressMatchesStatus(r.finalFraction);
  }

  lemma NonNegativeProduct(x: real, y: real)
    requires x >= 0.0 && y >= 0.0
    ensures x * y >= 0.0
  {
  }

  /** The worked figures for a salary of 10000 with rates 2% and 10%. */
  lemma ExampleTenThousand()
    ensures var r := Calculate(Inputs(10000.0, 2.0, 10.0, 0.0, 13, 5000.0));
      && r.annualSalary == 140000.0
      && r.contributions.partA == 200.0 && r.contributions.partB == 443.024
      && r.contributions.basicMonthly == 643.024
      && r.contributions.annualTotal == 8359.312
      && r.finalTotal == 13359.312
      && r.advice == WithinBounds
      && r.fiscalStatus == WithinLimit
  {
  }

  /** Below 7 UR Parcela B vanishes, as for a salary of 4000. */
  lemma ExampleBelowThreshold()
    ensures Contribute(Inputs(4000.0, 2.0, 10.0, 0.0, 13, 5000.0)).partB == 0.0
  {
  }
}
