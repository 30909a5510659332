# Sporadic-contribution simulator: formatter and calculator

`simulador.py` is a Streamlit page of the Fundação de Previdência Real
Grandeza. It takes a monthly salary, the two rates of the mandatory basic
contribution (Parcela A on the whole salary, Parcela B on the part above
7 reference units, UR), a voluntary rate, the number of contributions made
in the year and a custom sporadic amount. From these it derives the
monthly and annual contributions, the share of the annual salary they
represent, the sporadic amount that would reach the 12% fiscal limit, and
the resulting progress towards that limit. Every amount is shown in
Brazilian money format ("R$ 1.234,56").

The model has two modules, both pure functions with lemmas, as `simulador.py`
is a straight-line script:

- `formatting.dfy` (module `Formatting`) models `formatar_reais` and
  `formatar_numero`. An amount is an integer count of its smallest unit
  (`u` with `places` decimals stands for u / 10^places, so centavos for
  money). `UsFixed` is what Python's `format(v, ",.<places>f")` prints.
  `ReplaceChain` is the three-`replace` chain through the temporary `X`.
  `BrFixed` is the Brazilian rendering written directly with `.` between
  groups of three and `,` before the decimals. The lemmas prove that, on a
  string without `X`, the chain is exactly the separator swap, that the swap turns `UsFixed` into
  `BrFixed`, and that `BrFixed` has the Brazilian layout and reads back as
  the amount.
- `calculator.dfy` (module `Calculator`) gathers the formulas spread over
  the script into `Calculate`. It maps an `Inputs` record to a `Results`
  record holding every derived figure; the monthly and annual
  contributions are the `Contributions` record that `Contribute` computes.
  It also gives the two advisory outcomes: the sporadic-suggestion
  message (`SporadicAdvice`) and the fiscal-limit message (`FiscalStatus`).
  Amounts are exact `real`s, with the script's constants 795.68, 7 and
  0.12 and its `/ 100` conversions.

Inputs that the page gets from widgets are parameters (`Inputs`). The
widgets' ranges are the predicate `WidgetRanges`. Only the lemmas that
need them assume them; the calculator itself is total, as in the script.

Two behaviours are worth knowing:

- With a salary of zero, the suggested sporadic amount is 0. The page then
  shows the "target already met" panel
  (`Calculator.TargetMetMeansLimitReached`).
- The custom-amount slider runs from 2387.04 to 5.5 × salary. For a salary
  below 2387.04 / 5.5 that range is empty. This is a constraint of the host
  widget; `WidgetRanges` is then unsatisfiable, and the calculator is still
  defined.

## Model

| member | source | states |
|---|---|---|
| `Formatting.FormatReais` | simulador.py:7-23 | `formatar_reais`; no contract of its own: `FormatReaisIsBrazilian`, `NoneRendersAsZero` and `FormatReaisUsesNumero` state its properties |
| `Formatting.FormatNumero` | simulador.py:26-29 | `formatar_numero`; no contract of its own: `FormatNumeroIsBrazilian` and `BrFixedReadsBack` state its properties |
| `Formatting.ReplaceChain` | simulador.py:21 | the three-`replace` chain through `X` (also line 29); no contract of its own: `ChainExchangesSeparators`, `ChainIsSwapIffNoX` and `ChainInvolution` state its properties |
| `Formatting.UsFixed` | simulador.py:16 | the `,.Nf` rendering (also lines 27-28); no contract of its own: `UsFixedHasNoX` and `SwapFixed` state its properties |
| `Formatting.Replace` | simulador.py:21 | a one-character `replace` keeps the length and swaps every occurrence of the pattern for the replacement, leaving every other character |
| `Formatting.ChainExchangesSeparators` | simulador.py:18-21 | on a string without `X`, the chain turns every `,` into `.` and every `.` into `,`, leaves every other character as it is and keeps the length |
| `Formatting.ChainIsSwapIffNoX` | simulador.py:21 | the chain equals the separator swap exactly when its input holds no `X` (an `X` already there comes out as `.`) |
| `Formatting.ChainInvolution` | simulador.py:21 | applying the chain twice to a string without `X` gives the string back |
| `Formatting.UsFixedHasNoX` | simulador.py:16 | the US grouped rendering never contains `X`, so the chain's temporary character cannot collide |
| `Formatting.SwapFixed` | simulador.py:15-21 | exchanging the separators of the US rendering `1,234.56` yields the Brazilian rendering `1.234,56` |
| `Formatting.FormatReaisIsBrazilian` | simulador.py:7-23 | `formatar_reais(None)` is `R$ 0,00`; for any amount it is `R$ ` followed by the Brazilian two-decimal rendering |
| `Formatting.NoneRendersAsZero` | simulador.py:12-13 | a missing value renders exactly like an amount of zero |
| `Formatting.ZeroRendering` | simulador.py:13-21 | zero centavos render as `0,00` |
| `Formatting.FormatReaisUsesNumero` | simulador.py:7-29 | `formatar_reais` of an amount is `R$ ` and `formatar_numero` with its default of two decimals |
| `Formatting.FormatNumeroIsBrazilian` | simulador.py:26-29 | `formatar_numero` gives the Brazilian rendering for any number of decimals, and the chain applied once more gives back the US rendering |
| `Formatting.BrFixedReadsBack` | simulador.py:16-21 | with at least one decimal the rendering has a `-` exactly for negative amounts, a single `,` followed by exactly `places` digits (two for money), `.` between groups of three integer digits counted from the right, a first integer digit that is `0` only when it is the only one, and its digits read back as the amount |
| `Formatting.BrFixedWholeHasNoComma` | simulador.py:27-29 | with zero decimals the rendering has no `,` |
| `Formatting.Digits` | simulador.py:16 | the integer part is printed as at least one decimal digit, with no leading zero, and reads back as the number |
| `Formatting.FracDigits` | simulador.py:16 | the decimals are exactly `places` digits, zero-padded, and read back as the fraction |
| `Formatting.GroupIsGrouped` | simulador.py:16 | the `,` option puts the separator between groups of three digits counted from the right, with one to three digits in the first group |
| `Formatting.UngroupGroup` | simulador.py:16 | deleting the thousands separators gives back the digits |
| `Calculator.PartBCaption` | simulador.py:289 | Parcela B as the caption under slider B computes it; no contract of its own: `PartBBranchesAgree` states its properties |
| `Calculator.PartB` | simulador.py:293-296 | Parcela B as the basic total uses it; no contract of its own: `PartBBranchesAgree` states its properties |
| `Calculator.Fraction` | simulador.py:390 | the guarded share (also line 511); no contract of its own: `FractionGuard` states its properties |
| `Calculator.FinalTotal` | simulador.py:506-509 | `total_final`; no contract of its own: `FinalTotalBranchesAgree` states its properties |
| `Calculator.SuggestedSporadic` | simulador.py:452 | `valor_ideal_esporadica`; no contract of its own: `SuggestionFillsLimit` and `SuggestionReachesLimit` state its properties |
| `Calculator.Advice` | simulador.py:454-470 | which suggestion message shows; no contract of its own: `AdviceCases` states its properties |
| `Calculator.Progress` | simulador.py:512 | `progresso`; no contract of its own: `ProgressMatchesStatus` states its properties |
| `Calculator.Status` | simulador.py:541-544 | which fiscal-limit message shows; no contract of its own: `ProgressMatchesStatus` states its properties |
| `Calculator.Contribute` | simulador.py:265-389 | both rates are the sliders' percentages / 100 and Parcela A is salary × rate A; the basic contribution is Parcela A + Parcela B, the monthly total adds the voluntary salary × percentage / 100, and the annual total is the monthly total × the number of contributions; both Parcela B formulas agree; Parcela B is 0 below 7 UR (5569.76) and (salary − 5569.76) × rate B from there on, and is non-negative for a non-negative rate |
| `Calculator.Calculate` | simulador.py:239-544 | annual salary is 14 × monthly; the UR total is 5569.76 and 3 UR equal the slider minimum 2387.04; its contributions are those of `Contribute`; both shares are 0 for a zero annual salary and exact quotients for a positive annual salary; the final total is annual total + custom amount; the suggestion is (0.12 − current share) × annual salary, unclamped; "target met" exactly when it is ≤ 0; progress ≤ 1, and exactly 1 over the limit; "within the limit" exactly when the new share is ≤ 12%, which is exactly when the bar shows the unclamped ratio |
| `Calculator.PartBBranchesAgree` | simulador.py:285-296 | the caption's test `salary < 7 × UR` and the total's test `salary − 7 × UR < 0` give the same Parcela B, which is 0 below 5569.76, (salary − 5569.76) × rate otherwise, and never negative for a non-negative rate |
| `Calculator.FractionGuard` | simulador.py:389-390 | the guarded share (also used at line 511) is 0 when the annual salary is not positive, so nothing divides by zero, and times the annual salary gives the total otherwise |
| `Calculator.FinalTotalBranchesAgree` | simulador.py:506-509 | both branches of the custom-amount test give annual total + custom amount |
| `Calculator.ProgressMatchesStatus` | simulador.py:512-544 | progress is at most 1 and non-negative for a non-negative share; the "within the limit" message shows exactly when share / 0.12 ≤ 1, which is exactly when progress is the unclamped ratio; the warning shows exactly when progress is clamped at 1 |
| `Calculator.AdviceCases` | simulador.py:454-470 | "target met" exactly for a suggestion ≤ 0; otherwise at most one warning: below the minimum exactly when 0 < s < min, above the maximum exactly when s ≥ min and s > max |
| `Calculator.SuggestionFillsLimit` | simulador.py:452 | for a positive annual salary the suggestion is 12% of the annual salary minus the year's contributions, and adding it makes the share exactly 12% |
| `Calculator.SuggestionReachesLimit` | simulador.py:452-464 | applying the suggested amount yields a share of exactly 12%, a full progress bar and the "within the limit" message, as the page's panel promises |
| `Calculator.SuggestionWarnings` | simulador.py:412-469 | the minimum and maximum sporadic amounts are 3 UR and 5 × salary; with a positive suggestion the "below the minimum" warning shows exactly when it is under 3 UR, the "above the maximum" warning exactly when it is at least 3 UR and over 5 × salary, and no warning otherwise |
| `Calculator.TargetMetMeansLimitReached` | simulador.py:452-481 | for a positive salary "target met" shows exactly when the current share is at least 12%; for a zero salary it always shows, with a suggestion of 0 |
| `Calculator.WidgetRangesKeepAmountsNonNegative` | simulador.py:230-389 | within the widgets' ranges, Parcela A, Parcela B, the voluntary amount, the monthly total and the annual total are non-negative |
| `Calculator.WidgetRangesKeepProgressInUnitInterval` | simulador.py:495-512 | within the widgets' ranges the final total is positive, both shares are non-negative and progress lies in [0, 1] |
| `Calculator.ExampleTenThousand` | simulador.py:239-544 | for the page's defaults (salary 10000, rates 2% and 10%, 13 contributions, custom 5000): Parcela A 200, Parcela B 443.024, basic 643.024, annual total 8359.312, final total 13359.312, no warning, within the limit |
| `Calculator.ExampleBelowThreshold` | simulador.py:289-296 | a salary of 4000 (below 7 UR) has Parcela B equal to 0 |

## Left out

- Binary floating point. The script computes with Python floats, and `format` rounds them half-to-even on their binary value. The model uses exact reals in the calculator and exact integer centavos in the formatter. It therefore does not reproduce one-ulp differences, such as `7 * 795.68` compared with a salary of exactly 5569.76. It also does not describe how a float is rounded to centavos before it is rendered.
- Formatting.BrFixedWholeHasNoComma: for zero decimals only the absence of `,` is stated; the grouping and read-back are proved for one or more decimals (`BrFixedReadsBack`).
- Python's `-0.00`, which `format` prints for a negative float that rounds to zero. An integer amount has no negative zero. Non-finite values (`nan`, `inf`) are also not modelled.
- `formatar_numero` with a `casas_decimais` that is not a natural number (negative, fractional or `None`) builds an invalid format string such as `{:,.-1f}`, and `format` raises `ValueError`. `FormatNumero` takes `places: nat`, so this error path is not modelled; the script itself never calls `formatar_numero`.
- `formatar_numero(None)` raises `TypeError` in Python. `FormatNumero` takes an integer amount, so there is no such case.
- `str.replace` is modelled for one-character patterns only, which is all the chain uses.
- Percentage rendering (`:.2%`, `:.1f%` followed by `.replace(".", ",")`, simulador.py:400, 522, 604-619): presentation outside the formatter functions.
- All Streamlit calls: page setup, HTML and CSS markup, sliders, number input, progress bar, messages, button. The ranges the widgets enforce are the predicate `WidgetRanges`.
- The embedded CSS and JavaScript (simulador.py:48-189, 684-771): presentation only.
- `converter_para_excel` and the download button (simulador.py:32-38, 650-659): pandas/openpyxl I/O and a timestamped file name.
- The summary DataFrame (simulador.py:580-623): labels paired with the figures `Calculate` already returns, each formatted with the functions above.
- The unused `locale` import.
