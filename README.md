# lentiTracker quantitative core in Dafny

lentiTracker is a bench notebook for lentivirus production. An experiment seeds a number of
vessels with a cell line. Each lentivirus prep takes some of those plates, is transfected,
has its media changed and is harvested. Titer runs then infect cells with the harvested
virus and score the surviving fraction to estimate transducing units per mL.

This project models the deterministic core behind that workflow:

- `constants.dfy` (`Constants`): the vessel catalog and the reference protocols from
  `app/constants.py`.
- `utils.dfy` (`Utils`): the calculators and parsers of `app/utils.py`:
  - surface-ratio, seeding and transfection scaling;
  - Poisson MOI and titer;
  - three-significant-figure rounding of average titers;
  - parsing of shorthand counts such as `750K`, positive integers and optional floats.
- `routes.dfy` (`Routes`): the logic that `app/routes.py` runs inside its endpoints:
  - the seeding date read with `strptime('%Y-%m-%d')`, and experiment name and status defaulting;
  - the plate-capacity check for new and edited preps;
  - ratio-mode parsing;
  - mass-to-volume conversion.
- `titer_results.dfy` (`TiterResults`): the results request of a titer run (`titer_results_endpoint`). It is modelled twice:
  - as a specification function on values (`RecordResults`);
  - as imperative code over `SampleRow`/`RunRow` objects, whose columns its two loops update in place (`RecordTiterResults`, `ReadOut`, `ScoreRows`). The imperative code is proved equal to the specification.
- `models.dfy` (`Models`): the derived fields of `app/models.py`:
  - per-prep status flags;
  - the latest-run titer summary;
  - the experiment aggregates.
- `client_numbers.dfy`, `client_ratio.dfy`, `client_text.dfy`, `client_titer.dfy`,
  `client_state.dfy`: the browser helpers of `app/static/js/app.js`:
  - numeric, shorthand and ratio input parsing;
  - volume formatting;
  - ASCII folding, CSV escaping, filename sanitising and label joining;
  - the average titer and the titer-well template;
  - the per-prep draft maps of the client `state`. These are a `WorkflowState` class whose methods update its `map` fields.
- Support modules:
  - `wrappers.dfy`: `Option` and `Result`;
  - `numeric.dfy`: powers of ten, Python `round` as round-half-to-even, JavaScript `Math.round`, sums and means;
  - `text.dfy`: the whitespace sets of Python's `str.strip` and JavaScript's `trim`, strip, lower-case, decimal numerals and their parser.

Quantities are exact `real`s. Python `round(x, n)` is modelled exactly, as round-half-to-even at
scale 10^n. `math.log` is a parameter `ln` that lemmas constrain by `Numeric.IsNaturalLog`:
ln(1) = 0, and ln is strictly increasing on the positive reals. `floor(log10|v|)` is computed
exactly from the number of decimal digits.

The model follows the code in these places, which are easy to misread:

- With a non-zero target cell count, the seeding volume is `target / 750000` whatever the vessel
  (`Utils.SeedingVolumeIgnoresVessel`).
- A survival fraction outside [0, 1] is clamped into an infected fraction, not rejected
  (`TiterResults.InfectedFraction`).
- A zero virus volume gives a titer of 0, not a missing one (`TiterResults.ZeroVolumeFullKill`).
- Control wells are not excluded from the average by role. Any scored entry with a titer counts,
  and a 0-volume control scores a titer of 0 (`TiterResults.AverageTiter`).
- The server does not check the length or sign of a custom ratio
  (`Routes.CustomRatioAsGiven`, `Routes.TwoPartRatioFailsToUnpack`).

## Model

| member | source | states |
|---|---|---|
| Constants.SurfaceArea | app/constants.py:3-15 | every catalogued vessel has a positive surface area, between 3.36 and 175 cm² |
| Constants.ReferencesConsistent | app/constants.py:17-34 | the T175 base vessel of both reference protocols is catalogued with area 175; 15,000,000 cells = 20 mL × 750,000 cells/mL; 76.8 µL reagent = 3.0 × 25.6 µg DNA; the default molar ratio has three positive parts summing to 8 |
| Numeric.RoundHalfEven | app/utils.py:134 | Python `round` to an integer: within 1/2 of x, strictly within 1/2 off a tie, and even on a tie |
| Numeric.PyRoundError | app/routes.py:378 | `round(x, n)` differs from x by at most half a unit in the n-th decimal place |
| Numeric.JsMathRound | app/static/js/app.js:1263 | `Math.round(x)` lies in (x − 1/2, x + 1/2] |
| Numeric.FloorLog10 | app/utils.py:130 | for x ≥ 1, the result k satisfies 10^k ≤ x < 10^(k+1) |
| Numeric.FloorLog10Unique | app/utils.py:130 | `floor(log10 x)` is the only k with 10^k ≤ x < 10^(k+1) |
| Numeric.MeanTimesCount | app/static/js/app.js:695-696 | the sum divided by the count, times the count, is the sum again, for any nonempty list |
| Utils.ParsePositiveInt | app/utils.py:17-26 | None, '', unparsable and non-positive input give the default; a positive number gives the non-negative integer nearest to it, the even one on a tie |
| Utils.ParsePositiveIntHalves | app/utils.py:26 | 0.5 is stored as 0 and 2.5 as 2 |
| Utils.ParsePositiveIntWhole | app/utils.py:17-26 | a positive whole number, given as a number or as its numeral, comes back unchanged |
| Utils.ParsePositiveIntRoundsToZero | app/utils.py:24-26 | a positive value below 1/2 passes the positivity check but rounds to 0 |
| Utils.ParseOptionalFloat | app/utils.py:37-43 | None and '' give None; a number passes through; booleans read as 1.0 and 0.0; a list gives None |
| Utils.OptionalFloatOfNumeral | app/utils.py:41 | a whole-number numeral reads as its value |
| Utils.OptionalFloatPadded | app/utils.py:41 | surrounding whitespace (Python's Unicode set) does not change the result |
| Utils.OptionalFloatRejectsComma | app/utils.py:41-43 | any text holding a comma gives None |
| Utils.OptionalFloatHasDigit | app/utils.py:41-43 | any text that reads as a number contains a digit |
| Utils.ParseShorthandNumber | app/utils.py:46-65 | None and '' give None; numbers pass through; booleans read as 1.0 and 0.0; lists give None |
| Utils.ShorthandOfNumeral | app/utils.py:57-62 | a numeral followed by K, M or B in either case reads as the numeral times 1e3, 1e6 or 1e9 |
| Utils.ShorthandOfPlainNumeral | app/utils.py:52-54 | a plain numeral reads as its value |
| Utils.ShorthandIgnoresCommas | app/utils.py:52 | for text without whitespace, removing commas does not change the result |
| Utils.ShorthandPadded | app/utils.py:52 | surrounding whitespace (Python's Unicode set, e.g. U+00A0) does not change the result |
| Utils.ShorthandHasDigit | app/utils.py:52-65 | any text that reads as a number contains a digit |
| Utils.BlankBetweenCommas | app/utils.py:52-55 | commas around a whitespace run give None |
| Utils.TotalPlateCount | app/utils.py:29-34 | the sum of the plate counts, missing ones as 0, is non-negative when every count is |
| Utils.TotalPlateCountExclude | app/utils.py:29-34 | the full total is the total without one id plus that id's plates |
| Utils.TotalPlateCountIgnoresExcluded | app/utils.py:29-34 | the total that excludes a prep does not depend on that prep's own count |
| Utils.CalculateSurfaceRatio | app/utils.py:68-73 | an unknown vessel is an error; otherwise the ratio is positive and equals area / 175 |
| Utils.SurfaceRatioOfReference | app/utils.py:68-73 | the ratio of T175 is exactly 1 |
| Utils.CalculateSeedingVolume | app/utils.py:76-81 | an unknown vessel is an error even when the cell count decides; volume × 750,000 = target cells when that count is non-zero; otherwise 20 mL × area / 175 |
| Utils.SeedingVolumeIgnoresVessel | app/utils.py:79-80 | with a non-zero cell count, any two catalogued vessels get the same volume |
| Utils.CalculateTransfectionScaling | app/utils.py:84-109 | fails exactly for an unknown vessel, a ratio without three parts or a ratio summing to 0, naming the reason; otherwise it is the exact scaling rounded to 3 places, with a missing ratio read as 4:3:1 |
| Utils.ExactMassesSumToTotal | app/utils.py:95-99 | before rounding, transfer + packaging + envelope mass equals the total plasmid mass |
| Utils.ExactReagentToDna | app/utils.py:87-93 | before rounding, reagent = 3 × total DNA, and Opti-MEM mL × 25.6 = total DNA |
| Utils.ExactScalingRatioInvariant | app/utils.py:95-99 | multiplying the ratio by any non-zero k leaves every quantity unchanged |
| Utils.RoundedWithinHalfThousandth | app/utils.py:101-109 | each reported quantity is within 0.0005 of its exact value |
| Utils.DefaultReferenceProtocol | app/utils.py:84-109 | T175 with no ratio gives 1 mL, 76.8 µL, 25.6 µg, and masses 12.8, 9.6 and 3.2 µg |
| Utils.ComputeMoi | app/utils.py:112-117 | +∞ exactly when f ≥ 1, 0 when f ≤ 0, finite otherwise |
| Utils.MoiNonNegative | app/utils.py:112-117 | for f < 1 the MOI is finite and non-negative, and positive when f > 0 |
| Utils.MoiMonotone | app/utils.py:117 | the MOI is non-decreasing in f below 1, and strictly increasing on (0, 1) |
| Utils.ComputeTiter | app/utils.py:120-124 | zero volume gives 0; otherwise titer × volume = cells × MOI × 1000, and a non-finite MOI gives a non-finite titer |
| Utils.TiterMonotone | app/utils.py:120-124 | for non-negative cells and a positive volume, the titer is non-decreasing in the MOI |
| Utils.RoundTiterAverage | app/utils.py:127-134 | None stays None and 0 gives 0; any other value becomes the multiple of the step 10^max(0, ⌊log10\|v\|⌋ − 2) nearest to it, the even multiple on a tie |
| Utils.RoundToStep | app/utils.py:134 | `round(v / step) * step`: a multiple of the step within half a step of v, strictly within off a tie, with an even quotient on a tie |
| Utils.TiterAverageTie | app/utils.py:127-134 | 1005 rounds to 1000, not 1010 |
| Utils.TiterMagnitudeThreeDigits | app/utils.py:130-133 | for \|v\| ≥ 100 the step is 10^k with 100·10^k ≤ \|v\| < 1000·10^k, so three significant figures are kept |
| Routes.ExperimentName | app/routes.py:64-67 | a name that is not blank under Python's Unicode whitespace is kept stripped; a blank or missing one becomes "cell line · seeding date"; the result is never empty |
| Routes.ParseSeedingDate | app/routes.py:54-58 | `strptime` with '%Y-%m-%d' followed by `.date()`: anything it accepts is a valid calendar date |
| Routes.ParseDateText | app/routes.py:54-58 | for a 4-digit year, a month 1..12 and a day 1..31 written with two digits each, the text parses iff the date exists (leap years included), to that date |
| Routes.SeedingDateRoundTrip | app/routes.py:54-66 | parsing the ISO text of a valid date gives the date back |
| Routes.UnpaddedDate | app/routes.py:54-58 | single-digit months and days without a leading zero are accepted |
| Routes.SeedingDate | app/routes.py:54-58 | a falsy value gives today; a string is parsed, and a string `strptime` rejects or a non-string value raises |
| Routes.ExperimentStatus | app/routes.py:69-71 | the status is 'finished' if it lower-cases to 'finished', else 'active'; a missing status is 'active'; a non-string fails |
| Routes.CreateExperiment | app/routes.py:52-87 | the seeding date is read first, so an invalid date raises before any other check; then an unparsable cell count is the 400 "cells_to_seed is required"; otherwise the experiment holds the parsed date and counts, the name built from the ISO form of that date, a valid status, a finish time exactly when finished, and "DMEM + 10% FBS" media by default |
| Routes.StatusIgnoresCase | app/routes.py:69 | the status does not depend on letter case |
| Routes.BlankNameDefaults | app/routes.py:54-67 | without a name or a seeding date, the seeding date is today and the name is "cell line · today" in ISO form |
| Routes.UnpaddedDateNamed | app/routes.py:54-67 | a seeding date sent as "2024-1-5" is stored as that date and named in its zero-padded ISO form |
| Routes.BadSeedingDateFirst | app/routes.py:54-61 | a well-formed but non-existent date (e.g. "2023-02-30") raises, whatever cells_to_seed holds |
| Routes.CapacityCheck | app/routes.py:295-304 | no capacity admits anything; otherwise a count is admitted iff it fits in capacity − used, with the "all allocated" message when nothing remains and "Only n plate(s) remain" otherwise |
| Routes.AdmitNewPrep | app/routes.py:291-304 | an admitted count is the parsed plate count, default 1; with a capacity it is admitted iff it fits beside the existing preps |
| Routes.NewPrepWithinCapacity | app/routes.py:291-304 | after an admitted new prep, the experiment's plates stay within vessels_seeded |
| Routes.AdmitPlateCountEdit | app/routes.py:342-357 | an unparsable or non-positive count is the 400; with a capacity, a count is admitted iff it fits beside the other preps |
| Routes.EditWithinCapacity | app/routes.py:342-357 | after an admitted edit, the experiment's plates stay within vessels_seeded |
| Routes.ResaveAccepted | app/routes.py:346-352 | re-saving a prep's own count in an experiment within capacity is always admitted |
| Routes.SmallPlateCountBecomesZero | app/routes.py:343 | an edit to 0.3 plates is admitted as 0 plates |
| Routes.FloatEach | app/routes.py:366 | converts every item, or fails if any item does not convert |
| Routes.ParseRatio | app/routes.py:363-366 | 'optimal' mode or an empty payload gives 4:3:1; otherwise each item goes through `float` with no count or sign check; a bare number fails as not iterable |
| Routes.CustomRatioAsGiven | app/routes.py:363-366 | a three-number custom ratio is used exactly as sent |
| Routes.TwoPartRatioFailsToUnpack | app/routes.py:366 | a two-part ratio is accepted here and only fails later, in the transfection scaling |
| Routes.StringRatio | app/routes.py:366 | a string payload is read character by character |
| Routes.DigitsAsRatio | app/routes.py:366 | a digit string gives one ratio part per digit ("431" gives 4:3:1) |
| Routes.ComputeVolume | app/routes.py:369-378 | there is a volume iff the concentration reads as a non-zero number, negative ones included; the volume is mass × 1000 / concentration passed through Python's `round(·, 3)`, so within 0.0005 µL of it |
| Routes.VolumeOfTextConcentration | app/routes.py:373 | a concentration sent as a numeral gives the same volume as the number |
| Routes.ReferenceTransferVolume | app/routes.py:369-378 | 12.8 µg at 500 ng/µL gives 25.6 µL |
| TiterResults.FindSample | app/routes.py:530-532 | the index of the first sample with the id, or the sample count when the id is not in the run |
| TiterResults.WithReadout | app/routes.py:533-537 | the sample keeps its identity; a sent selection flag replaces the stored one; a parsed cell concentration replaces the stored one |
| TiterResults.Collect | app/routes.py:529-546 | the first loop keeps the rows, and records one pending entry per payload entry, each pointing at a sample |
| TiterResults.CollectFindsAll | app/routes.py:530-544 | a successful first loop resolved every entry to the sample with its id, and pending entry j carries entry j's parsed concentration and its measured percent |
| TiterResults.CollectConcentration | app/routes.py:535-537 | after the first loop a sample's stored concentration is the parsed value of the last entry for its id that parses, or its old value when none does |
| TiterResults.CollectWhenAllFound | app/routes.py:529-532 | when every entry names a sample of the run, the first loop succeeds |
| TiterResults.CollectSelection | app/routes.py:533-534 | each sample ends with the selection flag its entries last sent, else its stored flag |
| TiterResults.ControlCandidateIsLast | app/routes.py:535-539 | the control candidate is the concentration of the last entry with one whose sample has selection off |
| TiterResults.ReadingOf | app/routes.py:558-569 | with a concentration and a non-zero control, survival = sample cells / control cells and percent = max(0, 100 × survival); otherwise the sent percent / 100; with neither, no reading |
| TiterResults.MediaCancels | app/routes.py:560-563 | the measurement media volume cancels: survival is sample concentration / control concentration |
| TiterResults.ReadingWithoutControl | app/routes.py:564-575 | without a usable control the sent percent is used; with no percent either there is no reading |
| TiterResults.InfectedFraction | app/routes.py:576 | the result is clamp(1 − survival, 0, 1): 1 iff survival ≤ 0, 0 iff survival ≥ 1 |
| TiterResults.ScoreSample | app/routes.py:570-581 | no reading clears percent, MOI and titer; otherwise percent is rounded to 2 places, MOI to 4 or None when survival ≤ 0 makes it infinite, and titer to 2 or None when not finite |
| TiterResults.ScoresNonNegative | app/routes.py:576-581 | stored MOI and titer are never negative for non-negative cells and volumes |
| TiterResults.ZeroVolumeFullKill | app/routes.py:576-581 | a 0-volume well with no survivors has no MOI but a titer of 0 |
| TiterResults.ScoreAll | app/routes.py:556-582 | the second loop keeps the rows and serialises one result per pending entry |
| TiterResults.ScoreAllEntry | app/routes.py:556-582 | the j-th result keeps the id, label and volume of its sample and carries the scores of its own entry |
| TiterResults.AverageTiter | app/routes.py:586-589 | None iff no result has a titer; otherwise the rounded mean of the titers |
| TiterResults.AverageTiterBounds | app/routes.py:586-589 | the average lies within half a rounding step of the range of the titers |
| TiterResults.MediaOrOne | app/routes.py:524 | the media factor is never 0, and is the stored volume when that is non-zero |
| TiterResults.Override | app/routes.py:517-522 | a readable value sent in the payload replaces the stored one; otherwise the stored one stays |
| TiterResults.StoredControlWins | app/routes.py:548-549 | the run keeps its control concentration, and takes the candidate only when it has none |
| TiterResults.RecordResults | app/routes.py:513-598 | the request succeeds iff every entry names a sample of the run |
| TiterResults.RecordResultsFound | app/routes.py:529-532 | the request succeeds iff every entry's id is found among the run's samples |
| TiterResults.RecordResultsShape | app/routes.py:513-598 | the run keeps its identity and rows; there is one result per entry; the response reports the new media and control and the average of its results |
| TiterResults.UnnamedSampleUnchanged | app/routes.py:529-582 | a sample that no entry names is left exactly as it was |
| TiterResults.SampleRow.ApplyReadout | app/routes.py:533-537 | the row's columns become the first-loop update of its old values |
| TiterResults.SampleRow.Score | app/routes.py:570-581 | the row's readout columns become the scores of its entry |
| TiterResults.ReadOut | app/routes.py:529-546 | the first loop succeeds iff `Collect` does, leaving the rows, pending entries and candidate it describes |
| TiterResults.ScoreRows | app/routes.py:556-582 | the second loop leaves the rows and results `ScoreAll` describes |
| TiterResults.RecordTiterResults | app/routes.py:513-598 | the request on the stored run returns what `RecordResults` describes and leaves the run in its new state |
| Models.Status | app/models.py:99-105 | `logged` is always set; each other flag is set iff the matching child exists, or any titer run does |
| Models.LatestRunIndex | app/models.py:85 | the first run with the greatest creation time |
| Models.LatestTiterSummary | app/models.py:82-96 | None without runs, or when the latest run has no titers; otherwise the prep, the latest run and the rounded mean of its titers |
| Models.SummaryAverageBounds | app/models.py:89 | the summary's average lies within half a rounding step of the range of the run's titers |
| Models.CompletedPreps | app/models.py:37 | the count of transfected preps: at most the prep count, equal to it iff all are transfected, and 0 iff none is |
| Models.CompletedPrepsAppend | app/models.py:37 | the count over two lists of preps is the sum of the counts |
| Models.CompletedPrepsOne | app/models.py:37 | one prep counts 1 iff it has a transfection |
| Models.TiterSummaries | app/models.py:57-59 | exactly the preps' summaries that exist, with none invented |
| Models.TiterSummariesAppend | app/models.py:57-59 | the summaries of two lists of preps are the summaries of each, in order |
| Models.TiterSummariesOne | app/models.py:57-59 | one prep contributes its summary when it has one, and nothing otherwise |
| Models.ExperimentAggregates | app/models.py:36-59 | prep_count is the number of preps; completed_preps is `CompletedPreps` of them; plates_allocated is the plate total, non-negative when every count is; the titer summaries are `TiterSummaries` of the preps, at most one per prep |
| ClientNumbers.ParseNumericInput | app/static/js/app.js:69-81 | missing input or input that cleans to nothing gives null; input of only whitespace and commas gives 0 |
| ClientNumbers.NumeralInput | app/static/js/app.js:69-74 | a whole-number numeral reads as its value |
| ClientNumbers.CommasIgnored | app/static/js/app.js:71 | for text without whitespace, removing commas does not change the result |
| ClientNumbers.GroupedNumeralInput | app/static/js/app.js:71-74 | a numeral with commas anywhere in it ("1,500") reads as the numeral without them |
| ClientNumbers.ShorthandInput | app/static/js/app.js:75-79 | a numeral with a K/M/B suffix in either case, followed by any letters, reads as numeral × 1e3/1e6/1e9 |
| ClientNumbers.DecimalShorthandInput | app/static/js/app.js:75-79 | a decimal w.f followed by K, M or B in either case and any letters reads as its value times 1e3, 1e6 or 1e9 ("1.5m" is 1,500,000) |
| ClientNumbers.ShorthandAgreesWithServer | app/static/js/app.js:69-81 | for a numeral with a K/M/B suffix, the client parser and the server's `parse_shorthand_number` agree |
| ClientNumbers.NumericInputCharset | app/static/js/app.js:69-81 | any input that parses uses only digits, signs, points, commas, whitespace and letters |
| ClientNumbers.BlankBetweenCommas | app/static/js/app.js:70-74 | commas around any whitespace run (e.g. ", ,") give 0 on the client, but None on the server and null in the corrected parser |
| ClientNumbers.ParseNumericInputStrict | app/static/js/app.js:69-81 | input that is blank once commas are gone gives null; any other input reads as `parseNumericInput` reads it |
| ClientNumbers.StrictNeedsDigit | app/static/js/app.js:69-81 | anything the corrected parser accepts contains a digit |
| ClientNumbers.FormatVolume | app/static/js/app.js:83-90 | there is text iff the value is present and finite |
| ClientNumbers.FormatVolumeReadsBack | app/static/js/app.js:83-90 | the text reads back as the `toFixed` value, with no trailing fractional zeros and no bare point |
| ClientNumbers.FormatVolumeError | app/static/js/app.js:83-90 | the text reads back within half a unit in the last requested place of the value |
| ClientNumbers.FormatWholeVolume | app/static/js/app.js:87-89 | a whole number formats as its plain numeral |
| ClientRatio.SplitRatio | app/static/js/app.js:1273 | at least one token and no token holding a separator (':', ',' or JavaScript's Unicode whitespace); a leading separator gives an empty first token |
| ClientRatio.SplitJoin | app/static/js/app.js:1273 | splitting tokens joined by a separator gives the tokens back |
| ClientRatio.TokenDropped | app/static/js/app.js:1274-1275 | a non-positive or non-numeric token does not count toward the three parts |
| ClientRatio.ParseRatioInput | app/static/js/app.js:1270-1278 | missing or empty input gives null; any result is exactly three positive numbers |
| ClientRatio.RatioTextReadsBack | app/static/js/app.js:1270-1278 | "a:b:c" with positive whole parts reads as [a, b, c] |
| ClientRatio.DefaultRatioTextReadsBack | app/static/js/app.js:1270-1278 | "4:3:1" reads as the server's default molar ratio |
| ClientRatio.MetricsRatio | app/static/js/app.js:1286-1294 | "4:3:1" requests optimal mode with the default ratio; other text requests custom mode with its parsed ratio, or nothing when it does not parse |
| ClientRatio.MetricsRatioPositive | app/static/js/app.js:1286-1294 | every ratio the client requests has three positive parts |
| ClientRatio.ServerUsesClientRatio | app/routes.py:363-366 | the server's ratio parser returns exactly the ratio the client sends |
| ClientText.NormalizeChar | app/static/js/app.js:103-105 | µ and μ become 'u'; en and em dashes become '-'; other characters are unchanged |
| ClientText.ToAsciiString | app/static/js/app.js:99-116 | the loop builds exactly the folded ASCII text of the value |
| ClientText.AsciiTextPrintable | app/static/js/app.js:107-115 | every character of the result has a code in 32..126 |
| ClientText.CharTable | app/static/js/app.js:103-113 | per character: µ/μ → 'u', dashes → '-', CR/LF → space, printable ASCII is kept, anything else is dropped |
| ClientText.AsciiTextKeepsPrintable | app/static/js/app.js:99-116 | printable ASCII text that normalisation leaves alone comes back unchanged |
| ClientText.AsciiTextIdempotent | app/static/js/app.js:99-116 | folding a folded text again changes nothing |
| ClientText.EscapeCsvValue | app/static/js/app.js:118-123 | text needing quotes comes back wrapped in quotes; other text comes back as its ASCII form |
| ClientText.AsciiNeedsQuotes | app/static/js/app.js:120 | after folding, quoting is needed iff the text holds '"' or ',' |
| ClientText.CsvRoundTrip | app/static/js/app.js:118-123 | reading the escaped field back gives the ASCII text |
| ClientText.BuildSafeFilenameBase | app/static/js/app.js:125-128 | the fallback when nothing alphanumeric is left; otherwise a safe name (only [a-z0-9-], no edge or doubled '-') with the same letters and digits in order |
| ClientText.SafeFilenameWords | app/static/js/app.js:125-128 | a name that lowers to two words of [a-z0-9] separated by other characters gives the two words joined by one dash ("my file" gives "my-file") |
| ClientText.DashedShape | app/static/js/app.js:126 | replacing runs of other characters leaves only [a-z0-9-], never two dashes in a row |
| ClientText.DashedOne | app/static/js/app.js:126 | one character stays when it is in [a-z0-9] and becomes one dash otherwise |
| ClientText.DashedAppend | app/static/js/app.js:126 | when a letter or digit sits at the seam, replacing runs in the whole is replacing them in each half |
| ClientText.DashedMerge | app/static/js/app.js:126 | when the seam falls inside a run, the two halves' dashes merge into one |
| ClientText.DashedSlugOnly | app/static/js/app.js:126 | a text of [a-z0-9] only is unchanged |
| ClientText.DashedRun | app/static/js/app.js:126 | a nonempty run without [a-z0-9] becomes a single dash |
| ClientText.DashedWords | app/static/js/app.js:126 | words of [a-z0-9] around a run of other characters come out joined by one dash |
| ClientText.SafeSlugEmpty | app/static/js/app.js:126-127 | the slug is empty iff the lower-cased ASCII text has no letter or digit |
| ClientText.SafeNameIdempotent | app/static/js/app.js:125-128 | sanitising a safe name returns it unchanged |
| ClientText.JoinLabelParts | app/static/js/app.js:92-97 | the result is empty iff every part is blank after JavaScript's `trim` (Unicode whitespace included); otherwise it neither starts nor ends with whitespace |
| ClientText.JoinLabelPartsAppend | app/static/js/app.js:92-97 | joining two lists of parts is joining their two joins |
| ClientText.JoinLabelPartsOne | app/static/js/app.js:92-97 | a single part joins to its trimmed text, empty when it is null or blank |
| ClientText.JoinLabelPartsIdempotent | app/static/js/app.js:92-97 | joining a single already-joined label returns it |
| ClientTiter.CalculateAverageTiter | app/static/js/app.js:688-697 | null iff no sample has a titer; otherwise the mean of the titers: the value times their number is their sum |
| ClientTiter.AverageBetween | app/static/js/app.js:688-697 | the average lies between any bounds of the titers |
| ClientTiter.AverageOfOne | app/static/js/app.js:688-697 | with one titer, the average is that titer |
| ClientTiter.ServerAverageAgrees | app/routes.py:586-589 | the server's average is the client's average rounded by `round_titer_average` |
| ClientTiter.TestCount | app/static/js/app.js:1953 | the number of whole numbers i with 1 <= i <= count: none below 1, otherwise the largest whole number not above count |
| ClientTiter.BuildTiterSamples | app/static/js/app.js:1951-1977 | the loop builds one test well per whole number from 1 to count, so a count of 2.5 gives two and a count below 1 none |
| ClientTiter.TemplateShape | app/static/js/app.js:1951-1977 | n + 2 wells: n unlocked "Test i" wells with selection on and a blank volume, then locked 0-volume controls with selection on, then off |
| ClientTiter.TemplateLabelsDistinct | app/static/js/app.js:1951-1977 | no two wells share a label |
| ClientState.FindPrep | app/static/js/app.js:955-957 | a found prep is one of the active preps and has the id; nothing is found iff no prep has it |
| ClientState.Synced | app/static/js/app.js:1196-1268 | the keys are exactly the selected ids that already had a draft or name a known prep; existing drafts are kept; new ones are seeds |
| ClientState.SeedsForFoundPreps | app/static/js/app.js:1219-1268 | each initialiser seeds a draft iff the prep is found |
| ClientState.SyncedIdempotent | app/static/js/app.js:1196-1217 | syncing twice for the same selection is syncing once |
| ClientState.Prune | app/static/js/app.js:1198-1209 | the loop keeps exactly the entries whose key is selected |
| ClientState.TransfectionSeedRatio | app/static/js/app.js:1225-1226 | the ratio is the stored display text, else "4:3:1", and the custom ratio equals it |
| ClientState.TransfectionSeedConcentration | app/static/js/app.js:1227 | the transfer concentration is the transfection's, else the prep's |
| ClientState.MediaSeedType | app/static/js/app.js:1240 | a non-empty media-change type wins; otherwise a non-empty experiment type; otherwise the default |
| ClientState.HarvestSeedFields | app/static/js/app.js:1249-1255 | the date is the harvest's, else today; the volume is the harvest's when set, otherwise the media change's, and null when there is no media change either |
| ClientState.TiterSeedCells | app/static/js/app.js:1262-1267 | default cells, when present, are never 0 and lie within half a cell of cells_to_seed / vessels_seeded; they are absent when either is missing |
| ClientState.Merge | app/static/js/app.js:2118-2124 | each field sent replaces the current one; fields not sent are kept |
| ClientState.MergeThen | app/static/js/app.js:2118-2124 | two updates in a row equal one combined update |
| ClientState.MergeIdempotent | app/static/js/app.js:2118-2124 | repeating an update changes nothing |
| ClientState.MergeNothing | app/static/js/app.js:2118-2124 | an empty update changes nothing |
| ClientState.AllRunIds | app/static/js/app.js:884-895 | an id is listed iff it is the id of a run of some active prep |
| ClientState.ChooseRun | app/static/js/app.js:874-882 | no experiment or no run gives null; a current run that still exists is kept; otherwise the first run is chosen |
| ClientState.ChooseRunIdempotent | app/static/js/app.js:874-882 | choosing again from the chosen run keeps it |
| ClientState.WorkflowState.constructor | app/static/js/app.js:41-67 | the client starts with no experiment, no selection and empty draft maps |
| ClientState.WorkflowState.InitializeTransfectionDraft | app/static/js/app.js:1219-1232 | only the transfection map changes, and only by seeding this prep when it has no draft |
| ClientState.WorkflowState.InitializeMediaDraft | app/static/js/app.js:1234-1243 | only the media map changes, and only by seeding this prep when it has no draft |
| ClientState.WorkflowState.InitializeHarvestDraft | app/static/js/app.js:1245-1256 | only the harvest map changes, and only by seeding this prep when it has no draft |
| ClientState.WorkflowState.InitializeTiterPrepInput | app/static/js/app.js:1258-1268 | only the titer-input map changes, and only by seeding this prep when it has no input |
| ClientState.WorkflowState.InitializeDrafts | app/static/js/app.js:1211-1216 | the four initialisers for one prep, in order |
| ClientState.WorkflowState.PruneDrafts | app/static/js/app.js:1198-1209 | each of the four maps keeps exactly its selected keys, and nothing else changes |
| ClientState.WorkflowState.SeedSelected | app/static/js/app.js:1211-1216 | every selected prep gets seeds in all four maps where it had none |
| ClientState.WorkflowState.SyncDraftsForSelection | app/static/js/app.js:1196-1217 | each of the four maps becomes `Synced` of its old value, and nothing else changes |
| ClientState.WorkflowState.UpdateTiterRunDraft | app/static/js/app.js:2118-2124 | the sample's draft becomes the update merged over the current draft or the blank default |
| ClientState.WorkflowState.EnsureCurrentRunSelection | app/static/js/app.js:874-882 | a selected run always belongs to the active experiment |

## Left out

- Flask request and response handling, JSON decoding, `db.session` commits and rollbacks, and 404s, are not modelled. The exception is the 404 for a sample id outside the run, which is `None` in `TiterResults.Collect`.
- The remaining endpoints (listing, the CSV export, persisting transfections, media changes, harvests and titer runs, and the metrics endpoints) are I/O around the modelled calculators and are not modelled.
- The schema migration, database paths and application bootstrapping are not modelled: they are filesystem and database setup.
- DOM rendering, event wiring, `fetch`, clipboard, printing, charts and `Date` are not modelled. Today's date is a parameter `today`.
- IEEE-754 doubles are not modelled. Quantities are exact reals, so overflow, NaN from arithmetic and binary rounding error are absent.
- `ClientNumbers.ToFixed` is idealised as round-half-up of the exact |x|, not the rounding of a binary double.
- `ClientNumbers.ToFixed`: for |x| ≥ 10^21 JavaScript's `toFixed` returns `String(x)` in exponent form ("1e+21"); the model prints every digit.
- `Routes.ParseSeedingDate`: `\d` in `strptime` is modelled as the ASCII digits only; Python also accepts other Unicode decimal digits there. The `%m` and `%d` alternatives are tried in the order Python's `_strptime` lists them, and locale settings are not modelled.
- `Utils.PyFloat`, `ClientNumbers.JsNumber` and `Text.ParseDecimal` accept only signed decimals with an optional point. 'inf', 'nan', exponents, hexadecimal and underscores are not parsed.
- `Utils.ComputeMoi` takes `math.log` as a parameter. Properties that need it are stated for any `ln` with ln(1) = 0 that is strictly increasing on the positive reals.
- Unicode NFKD normalisation in `toAsciiString` is a parameter `normalize` of `ClientText.ToAsciiString`. Lemmas that need it assume it leaves their text alone.
- `ClientTiter.BuildTiterSamples` takes the count as a finite real. The caller's `Number(value) || 1` turns NaN and 0 into 1; an infinite count, which would never stop the loop, is not modelled.
- `ClientState.TiterSeedCells` keeps the rounded cell count as a number. Its display through `formatNumber`/`toLocaleString` is not modelled.
- `ClientState.WorkflowState.SyncDraftsForSelection` requires an active experiment whenever preps are selected, because `getPrepById` dereferences `state.activeExperiment` and would throw otherwise.
- The duplicated or broken parts of app/static/js/app.js are not modelled: the earlier `fetchJSON`, `updateTransfectionMetrics` and `submitSeedingForm`, the references to undefined variables, and the orphaned block near the end.
- Persistence of the ORM rows is modelled by the in-place updates of `TiterResults.SampleRow`. Commit and refresh are not modelled, and neither are the timestamp columns, apart from a run's creation time.

## Findings

| source | as written | input that shows it | evidently intended | confidence | as-written member | corrected member |
|---|---|---|---|---|---|---|
| app/static/js/app.js:71-74 | commas are removed before the blank check, but the text is trimmed only once, before the removal; `Number` of what is left is then taken, and `Number(" ")` is 0 | `", ,"` reads as 0 on the client, while the server's `parse_shorthand_number` gives None | input with no digit is not a number, as on the server | not executed | ClientNumbers.BlankBetweenCommas | ClientNumbers.ParseNumericInputStrict |
