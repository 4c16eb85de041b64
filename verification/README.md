# Rowing workout predictor — Dafny model

This project models the core of the Rowing Workout Predictor. Given an
athlete's erg test splits (seconds per 500 m over 2000 m, 5000 m and a
30-minute piece at rate 20) and an interval workout written as
`<reps>*<distance>m (<rest minutes>)`, the predictor recommends a target
split for the workout.

- `train_model.dfy`, module `TrainModel`, models `train_model.py`. The base
  pace is the 2k split up to 750 m and the 5k split from 3000 m, with a
  linear blend in between. Three relative-speed factors follow: for the
  distance (exponential saturation), the number of repetitions (linear) and
  the rest (linear). Their product scales the base pace. The result is
  clamped to within 20% of the base pace, as Python's
  `max(min(x, hi), lo)`. Floating point is modelled by `real`. `np.exp` is a
  parameter `exp: real -> real`. The lemmas assume only the facts collected
  in `IsExp`: exp(0) = 1, exp is positive, exp is strictly increasing, and
  exp(x)·(1 − x) ≤ 1 for x < 1. All four hold for the real exponential.
  `ExpEnvelopeIsExp` proves that one explicit function meets all four, so
  the lemmas that assume them are not vacuous.
- `app.dfy`, module `App`, models the logic in `app.py` around the
  predictor. It reads the workout shorthand the way the regex
  `(\d+)\*(\d+)(m|min) \((\d+)\)` does under `re.match`: anchored at the
  start, not at the end. The match and the conversion of its digit groups
  with `int` are separate steps. In CPython 3.11 and later, `int` raises
  `ValueError` on a decimal string of more than 4300 digits (the default
  `sys.int_max_str_digits`). app.py does not catch that error, so such a
  text gives its own outcome, `ConversionError`. It models the chain of range checks (reps, then
  distance, then rest) that decides whether the predictor is called, and the
  2.5 seconds added to the predictor's result before display. It also models
  how a split is entered as minutes and seconds. `ProcessWorkout` returns
  what the page would show, as a value.

The code and its comments disagree in places, and the model follows the
code:
- The rest factor at 2 minutes is 1.00125 by the formula; the comment says
  0.98.
- The reps factor at 8 reps is 0.95 + 1/70 ≈ 0.964; the comment says about 1.00.
  `CalibrationWorkoutFactors` states both values exactly.
- The blend runs from 750 m to 3000 m; the comment says "> 2000m" for the
  5k branch.
- The checks accept 1–50 reps and 50–5000 m. The error messages and the page
  text say 3–50 reps and 300–5000 m.

## Model

| member | source | states |
|---|---|---|
| `TrainModel.BasePace` | train_model.py:59-65 | at most 750 m gives exactly the 2k split; at least 3000 m gives exactly the 5k split; the base pace always lies between the two splits, and strictly between them for 750 < d < 3000 when they differ |
| `TrainModel.BlendWeightBetween` | train_model.py:63-64 | for 750 < d < 3000 the blend weight is strictly between 0 and 1 |
| `TrainModel.LerpBetween` | train_model.py:65 | a blend with weight in (0, 1) lies between its end points, strictly when they differ |
| `TrainModel.BasePaceIsClippedBlend` | train_model.py:59-65 | all three branches are one interpolation with the weight cut off at 0 and 1, so the branches meet at 750 m and 3000 m with no jump |
| `TrainModel.BasePaceLipschitz` | train_model.py:59-65 | the base pace is continuous in the distance: it changes by at most abs(5k − 2k)/2250 per metre |
| `TrainModel.BasePaceMonotone` | train_model.py:59-65 | when the 5k split is at least the 2k split, the base pace never decreases with distance |
| `TrainModel.ExpEnvelopeIsExp` | train_model.py:26 | the four facts the model assumes of `np.exp` hold together for one explicit function, so no lemma that assumes them is vacuous |
| `TrainModel.DistanceFactorBounds` | train_model.py:26 | the distance factor is 0.95 at 0 m, strictly between 0.95 and 1.18 for every positive distance, and always below 1.18 |
| `TrainModel.DistanceFactorIncreasing` | train_model.py:26 | the distance factor strictly increases with the distance |
| `TrainModel.DistanceFactorApproachesCeiling` | train_model.py:26 | the factor tends to 1.18: every distance of at least 575/eps metres has a factor above 1.18 − eps |
| `TrainModel.RepsFactorCurve` | train_model.py:35 | the reps factor is 0.95 at 1 rep and 1.05 at 50 reps, and strictly increasing |
| `TrainModel.RestFactorCurve` | train_model.py:43 | the rest factor is 1.01 at 1 minute and 0.94 at 9 minutes, and strictly decreasing |
| `TrainModel.CalibrationWorkoutFactors` | train_model.py:33-46 | for the 8*500m (2) workout, the formulas give reps factor 0.95 + 1/70 and rest factor 1.00125 |
| `TrainModel.FactorsPositive` | train_model.py:16-48 | over the ranges the page accepts, with positive splits, all three factors and the base pace are positive |
| `TrainModel.Clamp` | train_model.py:77 | `max(min(x, hi), lo)` is at least lo and at most hi when lo ≤ hi; it is x inside the bounds and the crossed bound outside them; lo wins when the bounds are crossed |
| `TrainModel.ClampMonotone` | train_model.py:77 | the clamp never decreases when the value or the bounds move up |
| `TrainModel.PredictTargetSplit` | train_model.py:50-77 | for a positive base pace the prediction lies in [0.8·base, 1.2·base]; it is never below 0.8·base; it equals base·relative speed when that already lies within the bounds; otherwise it is the bound that was crossed |
| `TrainModel.PredictMonotoneInReps` | train_model.py:68-77 | over valid inputs, more repetitions never give a faster predicted split |
| `TrainModel.PredictMonotoneInRest` | train_model.py:68-77 | over valid inputs, more rest never gives a slower predicted split |
| `TrainModel.PredictMonotoneInDistance` | train_model.py:59-77 | over valid inputs with the 5k split at least the 2k split, a longer interval never gives a faster predicted split |
| `App.DigitRun` | app.py:9 | the greedy `\d+`: the length of the longest digit prefix, with every character before it a digit and the next character not a digit |
| `App.NatToDigits` | app.py:11-13 | the decimal spelling of n is a nonempty digit string that `int` reads back as n |
| `App.NatToDigitsLength` | app.py:11-13 | the spelling of n has at most k digits exactly when n < 10^k, so `int`'s 4300-digit limit is the bound n < 10^4300 |
| `App.ReadDigitGroup` | app.py:9 | reading `\d+` fails exactly when the text does not start with a digit; otherwise it splits off a maximal digit group followed by a non-digit or the end |
| `App.ReadUnit` | app.py:9 | reading `m (` or `min (` fails exactly when the text starts with neither spelling; otherwise the text is that spelling followed by the rest |
| `App.MatchShorthand` | app.py:9 | whenever the match succeeds, its groups 1, 2 and 4 are digit groups and the text is those groups in the shorthand layout, with group 3 as the unit, followed by the unmatched rest |
| `App.MatchOfShorthand` | app.py:9 | on any text in the shorthand layout the match succeeds, and its groups are exactly the pieces the text was built from |
| `App.MatchSucceedsIffPattern` | app.py:9-10 | the match succeeds exactly when the pattern matches at the start of the text |
| `App.ExtractShorthand` | app.py:9-14 | on `<digits>*<digits>m (<digits>)` or `<digits>*<digits>min (<digits>)` followed by any text, the reader returns the values of the three digit groups when each has at most 4300 digits, and the `int` error otherwise |
| `App.ExtractSound` | app.py:9-14 | for every text: if the reader returns numbers, the text has that layout with digit groups of at most 4300 digits, and the numbers are the values of those groups |
| `App.ExtractSucceedsIffMatch` | app.py:9-15 | the reader returns no match exactly when the pattern does not match at the start; numbers exactly when it matches with every group within `int`'s digit limit; the `int` error exactly when it matches with a longer group |
| `App.UnitIsIgnored` | app.py:9-13 | `m` and `min` give the same result |
| `App.TrailingTextIsIgnored` | app.py:9 | text after the closing parenthesis is accepted and does not change the workout |
| `App.ExtractFormat` | app.py:6-15 | reading the canonical shorthand of any workout returns that workout when every number is below 10^4300, and the `int` error otherwise |
| `App.ExampleWorkout` | app.py:26 | the page's example `8*500m (2)` reads as 8 reps of 500 with 2 minutes of rest |
| `App.FirstFailingCheck` | app.py:77-82 | no error when every check passes; otherwise the reported error is a failing check, and no failing check comes before it in the order reps, distance, rest |
| `App.ProcessWorkout` | app.py:74-89 | empty text shows nothing; text the pattern does not match is a format error; a match with a digit group too long for `int` is the uncaught conversion error; a parsed workout that fails a check is rejected with the first failing check; otherwise the shown split is the predictor's result plus 2.5 seconds |
| `App.PredictorCalledOnlyInRange` | app.py:76-84 | the predictor is called exactly when the text parses with 1 ≤ reps ≤ 50, 50 ≤ distance ≤ 5000 and 1 ≤ rest ≤ 9 |
| `App.DisplayedSplitWithinBounds` | app.py:84 | with positive 2k and 5k splits, whenever a split is shown it lies in [0.8·base + 2.5, 1.2·base + 2.5] |
| `App.PaceSecondsRoundTrip` | app.py:36-39 | a split entered as minutes·60 + seconds, with seconds in [0, 60), is split back by `//` and `%` into the same minutes and seconds |
| `App.ErgSplitsFromInputs` | app.py:36-60 | with the widgets' minimums of one minute and zero seconds, each of the three splits is at least 60 seconds |
| `App.DisplayedSplitFromInputs` | app.py:36-48 | for splits built from the widgets' inputs within their minimums, every shown split lies in [0.8·base + 2.5, 1.2·base + 2.5]: the page's own inputs meet the positivity that bound needs |

## Left out

- `load_and_prepare_data` (train_model.py:4-14): CSV reading with pandas. The prediction never calls it.
- The Streamlit page: the logo, texts, number widgets and their bounds, session state and the error and success messages. This is presentation and I/O. `ProcessWorkout` returns the outcome as a value, and the message texts are not modelled.
- Display formatting of the recommended split (app.py:85-87): rounding to one decimal and the f-string. This is float formatting.
- `DistanceFactor`: `np.exp` is a parameter, not computed. The lemmas assume the four `IsExp` facts, which hold for the real exponential. No numeric value of exp is used, so approximate calibration values in the comments, such as "500m ≈ 1.00", are not proved.
- IEEE floating-point rounding: every quantity is a mathematical real.
- `ErgSplits.latest30at20`: the 30@20 split is carried but has no effect, as in the source.
- `ExtractWorkoutDetails`: `\d` is modelled as the ASCII digits 0-9. Python's `\d` and `int` also accept other Unicode decimal digits.
- `ExtractWorkoutDetails`: its contract is the lemmas about it (`ExtractShorthand`, `ExtractSound`, `ExtractSucceedsIffMatch`). The function itself carries no `ensures`.
- `IntMaxStrDigits`: fixed at CPython's default of 4300 digits. An interpreter without the limit (before 3.11 and without the security backports), or a changed `sys.int_max_str_digits`, is not modelled.
- Idempotence of the predictor is not stated: every function here is pure, so repeated calls with equal arguments are equal by construction.
