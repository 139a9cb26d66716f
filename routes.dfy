/**
 * The request-handling logic of the HTTP routes that the tracker's
 * invariants depend on: the defaults of a new experiment, the plate-capacity
 * check on new and edited preps, the molar-ratio payload and the plasmid
 * volume formula.
 */
module Routes {
  import opened Wrappers
  import opened Numeric
  import opened Text
  import opened Constants
  import opened Utils
  import opened Models

  /** How a request fails: a 400 answer with its message, or an exception the route does not catch. */
  datatype RequestError = BadRequest(message: string) | Uncaught

  // ------------------------------------------------------------ seeding dates

  /** A calendar date, as `datetime.date` holds it. */
  datatype Date = Date(year: nat, month: nat, day: nat)

  predicate IsLeapYear(y: nat) {
    y % 4 == 0 && (y % 100 != 0 || y % 400 == 0)
  }

  function DaysInMonth(y: nat, m: nat): nat
    requires 1 <= m <= 12
  {
    if m == 2 then (if IsLeapYear(y) then 29 else 28)
    else if m == 4 || m == 6 || m == 9 || m == 11 then 30
    else 31
  }

  /** The dates `datetime.date` accepts: years 1 to 9999 and a day that exists in its month. */
  predicate ValidDate(d: Date) {
    1 <= d.year <= 9999 && 1 <= d.month <= 12 && 1 <= d.day <= DaysInMonth(d.year, d.month)
  }

  /** `n` in two decimal digits. */
  function TwoDigits(n: nat): (s: string)
    requires n < 100
    ensures |s| == 2 && AllDigits(s)
  {
    [DigitChar(n / 10), DigitChar(n % 10)]
  }

  /** The text `%04d-%02d-%02d` of a year, a month and a day. */
  function DateText(y: nat, m: nat, d: nat): (s: string)
    requires y < 10000 && m < 100 && d < 100
    ensures |s| == 10
  {
    PaddedDigits(y, 4) + "-" + TwoDigits(m) + "-" + TwoDigits(d)
  }

  /** `date.isoformat()`. */
  function IsoFormat(d: Date): string
    requires ValidDate(d)
  {
    DateText(d.year, d.month, d.day)
  }

  /** Characters the `%m` pattern `1[0-2]|0[1-9]|[1-9]` takes at `i`, or 0 when it does not match there. */
  function MonthWidth(s: string, i: nat): (w: nat)
    ensures w <= 2 && (w > 0 ==> i + w <= |s|)
  {
    if i + 1 < |s| && s[i] == '1' && '0' <= s[i + 1] <= '2' then 2
    else if i + 1 < |s| && s[i] == '0' && '1' <= s[i + 1] <= '9' then 2
    else if i < |s| && '1' <= s[i] <= '9' then 1
    else 0
  }

  /**
   * Characters the `%d` pattern `3[01]|[12]\d|0[1-9]|[1-9]| [1-9]` takes at
   * `i`: the first alternative that matches wins, as in a regular expression
   * with nothing after it.
   */
  function DayWidth(s: string, i: nat): (w: nat)
    ensures w <= 2 && (w > 0 ==> i + w <= |s|)
  {
    if i + 1 < |s| && s[i] == '3' && (s[i + 1] == '0' || s[i + 1] == '1') then 2
    else if i + 1 < |s| && (s[i] == '1' || s[i] == '2') && IsDigit(s[i + 1]) then 2
    else if i + 1 < |s| && s[i] == '0' && '1' <= s[i + 1] <= '9' then 2
    else if i < |s| && '1' <= s[i] <= '9' then 1
    else if i + 1 < |s| && s[i] == ' ' && '1' <= s[i + 1] <= '9' then 2
    else 0
  }

  /** The value `int()` gives a matched field of one or two characters: a digit, two digits, or a space and a digit. */
  function FieldValue(s: string, i: nat, w: nat): nat
    requires 1 <= w <= 2 && i + w <= |s|
  {
    var last := if IsDigit(s[i + w - 1]) then DigitValue(s[i + w - 1]) else 0;
    if w == 2 && IsDigit(s[i]) then 10 * DigitValue(s[i]) + last else last
  }

  /**
   * `datetime.strptime(s, '%Y-%m-%d').date()`: four digits, a dash, the month
   * pattern, a dash and the day pattern, with nothing left over; `None` stands
   * for the `ValueError` raised when the text does not match or names a day
   * the calendar does not have.
   */
  function ParseSeedingDate(s: string): (r: Option<Date>)
    ensures r.Some? ==> ValidDate(r.value)
  {
    if |s| < 5 || !AllDigits(s[..4]) || s[4] != '-' then None
    else
      var mw := MonthWidth(s, 5);
      if mw == 0 || 5 + mw >= |s| || s[5 + mw] != '-' then None
      else
        var dw := DayWidth(s, 6 + mw);
        if dw == 0 || 6 + mw + dw != |s| then None
        else
          var d := Date(DigitsValue(s[..4]), FieldValue(s, 5, mw), FieldValue(s, 6 + mw, dw));
          if ValidDate(d) then Some(d) else None
  }

  /**
   * A year, month and day written as `isoformat` writes them read back as
   * that date exactly when the calendar has it: `isoformat` and `strptime`
   * are inverse on valid dates, and the 30th of February or the 29th in a
   * common year are refused.
   */
  lemma ParseDateText(y: nat, m: nat, d: nat)
    requires y < 10000 && 1 <= m <= 12 && 1 <= d <= 31
    ensures ParseSeedingDate(DateText(y, m, d)) == if ValidDate(Date(y, m, d)) then Some(Date(y, m, d)) else None
  {
    var s := DateText(y, m, d);
    var ys := PaddedDigits(y, 4);
    assert s[..4] == ys;
    assert s[4] == '-' && s[7] == '-';
    assert s[5] == DigitChar(m / 10) && s[6] == DigitChar(m % 10);
    assert s[8] == DigitChar(d / 10) && s[9] == DigitChar(d % 10);
    assert MonthWidth(s, 5) == 2;
    assert FieldValue(s, 5, 2) == m;
    assert DayWidth(s, 8) == 2;
    assert FieldValue(s, 8, 2) == d;
  }

  /** `isoformat` then `strptime` gives the date back. */
  lemma SeedingDateRoundTrip(d: Date)
    requires ValidDate(d)
    ensures ParseSeedingDate(IsoFormat(d)) == Some(d)
  {
    ParseDateText(d.year, d.month, d.day);
  }

  /**
   * `strptime` also takes a month and a day without their leading zero, and
   * the date it reads is the one `isoformat` then writes in full.
   */
  lemma UnpaddedDate(y: nat, m: nat, d: nat)
    requires ValidDate(Date(y, m, d)) && m < 10 && d < 10
    ensures ParseSeedingDate(PaddedDigits(y, 4) + "-" + [DigitChar(m)] + "-" + [DigitChar(d)]) == Some(Date(y, m, d))
  {
    var s := PaddedDigits(y, 4) + "-" + [DigitChar(m)] + "-" + [DigitChar(d)];
    assert s[..4] == PaddedDigits(y, 4);
    assert s[4] == '-' && s[5] == DigitChar(m) && s[6] == '-' && s[7] == DigitChar(d);
    assert MonthWidth(s, 5) == 1;
    assert DayWidth(s, 7) == 1;
  }

  /**
   * The seeding date of a new experiment: a falsy value is today; text is
   * read by `strptime`; any other value makes `strptime` raise.
   */
  function SeedingDate(value: PyValue, today: Date): (r: Result<Date, RequestError>)
    ensures !Truthy(value) ==> r == Ok(today)
    ensures value.PyStr? && value.s != "" ==>
      (r.Ok? <==> ParseSeedingDate(value.s).Some?) && (r.Ok? ==> Some(r.value) == ParseSeedingDate(value.s))
    ensures Truthy(value) && !value.PyStr? ==> r == Err(Uncaught)
    ensures r.Err? ==> r == Err(Uncaught)
  {
    if !Truthy(value) then Ok(today)
    else match value
      case PyStr(s) => (match ParseSeedingDate(s) case Some(d) => Ok(d) case None => Err(Uncaught))
      case _ => Err(Uncaught)
  }

  // ----------------------------------------------------------- new experiments

  /** The fields of a new-experiment request body that the route reads. */
  datatype ExperimentPayload = ExperimentPayload(
    name: PyValue,
    status: PyValue,
    cellLine: string,
    cellsToSeed: PyValue,
    vesselsSeeded: PyValue,
    mediaType: PyValue,
    seedingDate: PyValue)

  /** The values the route stores on a new experiment. */
  datatype NewExperiment = NewExperiment(
    name: string,
    status: string,
    finishedAt: Option<int>,
    cellLine: string,
    cellsToSeed: real,
    vesselsSeeded: Option<int>,
    mediaType: PyValue,
    seedingDate: Date)

  const DefaultMedia: string := "DMEM + 10% FBS"

  /** `(value or '').strip()`; a truthy non-string has no `strip` and raises. */
  function StrippedOrBlank(value: PyValue): (r: Result<string, RequestError>)
    ensures !Truthy(value) ==> r == Ok("")
    ensures value.PyStr? ==> r == Ok(Strip(Python, value.s))
    ensures Truthy(value) && !value.PyStr? ==> r == Err(Uncaught)
  {
    if !Truthy(value) then Ok("")
    else match value
      case PyStr(s) => Ok(Strip(Python, s))
      case _ => Err(Uncaught)
  }

  /** The experiment name: the given one stripped, or `<cell line> · <seeding date>` when blank. */
  function ExperimentName(value: PyValue, cellLine: string, seedingDate: string): (r: Result<string, RequestError>)
    ensures r.Ok? ==> |r.value| > 0
    ensures value.PyStr? && |Strip(Python, value.s)| > 0 ==> r == Ok(Strip(Python, value.s))
    ensures !Truthy(value) || (value.PyStr? && |Strip(Python, value.s)| == 0) ==>
      r == Ok(cellLine + " \U{00B7} " + seedingDate)
  {
    match StrippedOrBlank(value)
    case Err(e) => Err(e)
    case Ok(stripped) => if |stripped| > 0 then Ok(stripped) else Ok(cellLine + " \U{00B7} " + seedingDate)
  }

  /** The stored status: the lower-cased `finished` or `active`; anything else, blank included, is `active`. */
  function ExperimentStatus(value: PyValue): (r: Result<string, RequestError>)
    ensures r.Ok? ==> r.value == "active" || r.value == "finished"
    ensures value.PyStr? ==> r == Ok(if Lower(value.s) == "finished" then "finished" else "active")
    ensures !Truthy(value) ==> r == Ok("active")
    ensures Truthy(value) && !value.PyStr? ==> r == Err(Uncaught)
  {
    var raw := if Truthy(value) then value else PyStr("active");
    match raw
    case PyStr(s) =>
      var status := Lower(s);
      if status == "active" || status == "finished" then Ok(status) else Ok("active")
    case _ => Err(Uncaught)
  }

  /**
   * The POST branch of the experiments route up to the insert. `today` is the
   * current date and `now` the current time, both read from the clock by the
   * route. The seeding date is read first, so a date `strptime` refuses fails
   * the request before the cell count is looked at.
   */
  function CreateExperiment(data: ExperimentPayload, today: Date, now: int): (r: Result<NewExperiment, RequestError>)
    requires ValidDate(today)
    ensures SeedingDate(data.seedingDate, today).Err? ==> r == Err(Uncaught)
    ensures SeedingDate(data.seedingDate, today).Ok? && ParseShorthandNumber(data.cellsToSeed).None? ==>
      r == Err(BadRequest("cells_to_seed is required"))
    ensures r.Ok? ==>
      && r.value.seedingDate == SeedingDate(data.seedingDate, today).value
      && ValidDate(r.value.seedingDate)
      && Some(r.value.cellsToSeed) == ParseShorthandNumber(data.cellsToSeed)
      && r.value.vesselsSeeded == ParsePositiveInt(data.vesselsSeeded, Some(1))
      && r.value.vesselsSeeded.Some?
      && ExperimentName(data.name, data.cellLine, IsoFormat(r.value.seedingDate)) == Ok(r.value.name)
      && |r.value.name| > 0
      && (r.value.status == "active" || r.value.status == "finished")
      && (r.value.finishedAt.Some? <==> r.value.status == "finished")
      && (r.value.finishedAt.Some? ==> r.value.finishedAt == Some(now))
      && Truthy(r.value.mediaType)
      && (Truthy(data.mediaType) ==> r.value.mediaType == data.mediaType)
      && (!Truthy(data.mediaType) ==> r.value.mediaType == PyStr(DefaultMedia))
      && r.value.cellLine == data.cellLine
    ensures (SeedingDate(data.seedingDate, today).Ok? && ParseShorthandNumber(data.cellsToSeed).Some? &&
             StrippedOrBlank(data.name).Ok? && ExperimentStatus(data.status).Ok?) ==> r.Ok?
  {
    match SeedingDate(data.seedingDate, today)
    case Err(e) => Err(e)
    case Ok(seedingDate) =>
      var vessels := ParsePositiveInt(data.vesselsSeeded, Some(1));
      match ParseShorthandNumber(data.cellsToSeed)
      case None => Err(BadRequest("cells_to_seed is required"))
      case Some(cells) =>
        match ExperimentName(data.name, data.cellLine, IsoFormat(seedingDate))
        case Err(e) => Err(e)
        case Ok(name) =>
          match ExperimentStatus(data.status)
          case Err(e) => Err(e)
          case Ok(status) =>
            var finishedAt := if status == "finished" then Some(now) else None;
            var media := if Truthy(data.mediaType) then data.mediaType else PyStr(DefaultMedia);
            Ok(NewExperiment(name, status, finishedAt, data.cellLine, cells, vessels, media, seedingDate))
  }

  lemma LowerIdempotent(s: string)
    ensures Lower(Lower(s)) == Lower(s)
  {
  }

  /** The status is matched without regard to letter case: "Finished" and "FINISHED" both finish the experiment. */
  lemma StatusIgnoresCase(s: string)
    ensures ExperimentStatus(PyStr(s)) == ExperimentStatus(PyStr(Lower(s)))
  {
    LowerIdempotent(s);
  }

  /** A blank name is replaced by the cell line and the seeding date, which defaults to today. */
  lemma BlankNameDefaults(data: ExperimentPayload, today: Date, now: int)
    requires ValidDate(today)
    requires data.name == PyStr("") || data.name == PyNone
    requires data.seedingDate == PyNone || data.seedingDate == PyStr("")
    requires CreateExperiment(data, today, now).Ok?
    ensures CreateExperiment(data, today, now).value.name == data.cellLine + " \U{00B7} " + IsoFormat(today)
    ensures CreateExperiment(data, today, now).value.seedingDate == today
  {
  }

  /**
   * A seeding date given without leading zeros is stored as that date, and a
   * blank name then shows it in full: "2024-1-5" names the experiment
   * "<cell line> · 2024-01-05".
   */
  lemma UnpaddedDateNamed(data: ExperimentPayload, today: Date, now: int, y: nat, m: nat, d: nat)
    requires ValidDate(today) && ValidDate(Date(y, m, d)) && m < 10 && d < 10
    requires data.name == PyStr("") || data.name == PyNone
    requires data.seedingDate == PyStr(PaddedDigits(y, 4) + "-" + [DigitChar(m)] + "-" + [DigitChar(d)])
    requires CreateExperiment(data, today, now).Ok?
    ensures CreateExperiment(data, today, now).value.seedingDate == Date(y, m, d)
    ensures CreateExperiment(data, today, now).value.name == data.cellLine + " \U{00B7} " + DateText(y, m, d)
  {
    UnpaddedDate(y, m, d);
  }

  /** A seeding date the calendar does not have fails the request, even when the cell count is missing too. */
  lemma BadSeedingDateFirst(data: ExperimentPayload, today: Date, now: int, y: nat, m: nat, d: nat)
    requires ValidDate(today) && y < 10000 && 1 <= m <= 12 && 1 <= d <= 31 && !ValidDate(Date(y, m, d))
    requires data.seedingDate == PyStr(DateText(y, m, d))
    ensures CreateExperiment(data, today, now) == Err(Uncaught)
  {
    ParseDateText(y, m, d);
  }

  // ---------------------------------------------------------- plate capacity

  /** The outcome of the plate-capacity check: the plate count to store, or the 400 message. */
  datatype Admission = Admitted(count: int) | Rejected(message: string)

  const PlateCountMessage: string := "plate_count must be a positive integer"

  function OnlyRemainingMessage(remaining: nat): string {
    "Only " + NatToString(remaining) + " plate(s) remain available for this experiment"
  }

  /**
   * The capacity check shared by both routes: with a truthy capacity, a count
   * larger than what remains after `used` is refused.
   */
  function CapacityCheck(capacity: Option<int>, used: int, count: int, exhausted: string): (a: Admission)
    ensures capacity.None? || capacity.value == 0 ==> a == Admitted(count)
    ensures capacity.Some? && capacity.value != 0 ==> (a.Admitted? <==> count <= capacity.value - used)
    ensures a.Admitted? ==> a.count == count
    ensures a.Rejected? && capacity.value - used <= 0 ==> a.message == exhausted
    ensures a.Rejected? && capacity.value - used > 0 ==> a.message == OnlyRemainingMessage(capacity.value - used)
  {
    match capacity
    case None => Admitted(count)
    case Some(c) =>
      if c == 0 then Admitted(count)
      else
        var remaining := c - used;
        if count > remaining then
          if remaining <= 0 then Rejected(exhausted) else Rejected(OnlyRemainingMessage(remaining))
        else Admitted(count)
  }

  /** A capacity that is present and not zero is enforced (`if capacity:`). */
  predicate Enforced(capacity: Option<int>) {
    capacity.Some? && capacity.value != 0
  }

  /** The POST branch of the preps route: the plate count defaults to 1 and is checked against the experiment's capacity. */
  function AdmitNewPrep(e: Experiment, plateCount: PyValue): (a: Admission)
    ensures a.Admitted? ==> a.count >= 0
    ensures a.Admitted? ==> Some(a.count) == ParsePositiveInt(plateCount, Some(1))
    ensures Enforced(e.vesselsSeeded) ==>
      (a.Admitted? <==> ParsePositiveInt(plateCount, Some(1)).value <= e.vesselsSeeded.value - TotalPlateCount(PlateSlots(e.preps), None))
    ensures !Enforced(e.vesselsSeeded) ==> a.Admitted?
    ensures a != Rejected(PlateCountMessage)
  {
    match ParsePositiveInt(plateCount, Some(1))
    case None => Rejected(PlateCountMessage)
    case Some(n) =>
      CapacityCheck(e.vesselsSeeded, TotalPlateCount(PlateSlots(e.preps), None), n,
                    "All seeded plates are already allocated to preparations")
  }

  /** A prep admitted by the preps route keeps the experiment within its capacity. */
  lemma NewPrepWithinCapacity(e: Experiment, plateCount: PyValue, p: Prep)
    requires Enforced(e.vesselsSeeded)
    requires AdmitNewPrep(e, plateCount).Admitted?
    requires p.plateCount == Some(AdmitNewPrep(e, plateCount).count)
    ensures TotalPlateCount(PlateSlots(e.preps + [p]), None) <= e.vesselsSeeded.value
  {
    var slots := PlateSlots(e.preps + [p]);
    assert slots[..|slots| - 1] == PlateSlots(e.preps);
  }

  /**
   * The plate-count edit of the prep-update route: the count has no default,
   * and the capacity check leaves out the prep's own plates.
   */
  function AdmitPlateCountEdit(e: Option<Experiment>, prepId: int, plateCount: PyValue): (a: Admission)
    ensures ParsePositiveInt(plateCount, None).None? <==> a == Rejected(PlateCountMessage)
    ensures a.Admitted? ==> Some(a.count) == ParsePositiveInt(plateCount, None)
    ensures e.Some? && Enforced(e.value.vesselsSeeded) && ParsePositiveInt(plateCount, None).Some? ==>
      (a.Admitted? <==> ParsePositiveInt(plateCount, None).value
                          <= e.value.vesselsSeeded.value - TotalPlateCount(PlateSlots(e.value.preps), Some(prepId)))
    ensures (e.None? || !Enforced(e.value.vesselsSeeded)) && ParsePositiveInt(plateCount, None).Some? ==> a.Admitted?
  {
    match ParsePositiveInt(plateCount, None)
    case None => Rejected(PlateCountMessage)
    case Some(n) =>
      var capacity := if e.Some? then e.value.vesselsSeeded else None;
      var used := if e.Some? then TotalPlateCount(PlateSlots(e.value.preps), Some(prepId)) else 0;
      CapacityCheck(capacity, used, n, "All seeded plates are already allocated to other preparations")
  }

  /** The ids of an experiment's preps are distinct, as primary keys are. */
  predicate UniqueIds(preps: seq<Prep>) {
    forall i, j :: 0 <= i < j < |preps| ==> preps[i].id != preps[j].id
  }

  /** Storing an admitted edit keeps the experiment within its capacity. */
  lemma EditWithinCapacity(e: Experiment, k: nat, plateCount: PyValue)
    requires k < |e.preps| && UniqueIds(e.preps)
    requires Enforced(e.vesselsSeeded)
    requires AdmitPlateCountEdit(Some(e), e.preps[k].id, plateCount).Admitted?
    ensures var n := AdmitPlateCountEdit(Some(e), e.preps[k].id, plateCount).count;
      TotalPlateCount(PlateSlots(e.preps[k := e.preps[k].(plateCount := Some(n))]), None) <= e.vesselsSeeded.value
  {
    var n := AdmitPlateCountEdit(Some(e), e.preps[k].id, plateCount).count;
    assert n <= e.vesselsSeeded.value - TotalPlateCount(PlateSlots(e.preps), Some(e.preps[k].id));
    EditedTotal(e.preps, k, n, e.vesselsSeeded.value);
  }

  /** A prep's new plate count that fits beside the others keeps the total within `capacity`. */
  lemma EditedTotal(preps: seq<Prep>, k: nat, n: nat, capacity: int)
    requires k < |preps| && UniqueIds(preps)
    requires n <= capacity - TotalPlateCount(PlateSlots(preps), Some(preps[k].id))
    ensures TotalPlateCount(PlateSlots(preps[k := preps[k].(plateCount := Some(n))]), None) <= capacity
  {
    var id := preps[k].id;
    var slots := PlateSlots(preps);
    var edited := PlateSlots(preps[k := preps[k].(plateCount := Some(n))]);
    assert edited == slots[k := PlateSlot(id, Some(n))];
    TotalPlateCountIgnoresExcluded(slots, k, Some(n));
    TotalPlateCountExclude(edited, id);
    PlatesWithUniqueId(edited, k);
  }

  /**
   * Saving a prep with the plate count it already has is accepted whenever
   * the experiment is within its capacity.
   */
  lemma ResaveAccepted(e: Experiment, k: nat, n: nat)
    requires k < |e.preps| && UniqueIds(e.preps)
    requires n >= 1 && e.preps[k].plateCount == Some(n)
    requires Enforced(e.vesselsSeeded)
    requires TotalPlateCount(PlateSlots(e.preps), None) <= e.vesselsSeeded.value
    ensures AdmitPlateCountEdit(Some(e), e.preps[k].id, PyNum(n as real)) == Admitted(n)
  {
    var slots := PlateSlots(e.preps);
    TotalPlateCountExclude(slots, e.preps[k].id);
    PlatesWithUniqueId(slots, k);
    ParsePositiveIntWhole(n, None);
  }

  /** A fractional plate count below one half is stored as zero plates, which any capacity admits. */
  lemma SmallPlateCountBecomesZero(e: Experiment, prepId: int)
    requires Enforced(e.vesselsSeeded) ==> TotalPlateCount(PlateSlots(e.preps), Some(prepId)) <= e.vesselsSeeded.value
    ensures AdmitPlateCountEdit(Some(e), prepId, PyNum(0.3)) == Admitted(0)
  {
    ParsePositiveIntRoundsToZero(0.3, None);
  }

  // ----------------------------------------------------------- molar ratio

  /** Why the ratio payload cannot be read: it is not iterable, or an element is not a number. */
  datatype RatioError = NotIterable | NotANumber

  /** `float(v)` for each element, failing on the first that is not a number. */
  function FloatEach(items: seq<PyValue>): (r: Option<seq<real>>)
    ensures r.Some? <==> forall i :: 0 <= i < |items| ==> PyFloat(items[i]).Some?
    ensures r.Some? ==> |r.value| == |items| && forall i :: 0 <= i < |items| ==> Some(r.value[i]) == PyFloat(items[i])
  {
    if |items| == 0 then Some([])
    else
      var front := items[..|items| - 1];
      assert forall i :: 0 <= i < |front| ==> front[i] == items[i];
      match FloatEach(front)
      case None => None
      case Some(vs) =>
        match PyFloat(items[|items| - 1])
        case None => None
        case Some(v) => Some(vs + [v])
  }

  /** The characters of a string, each as a one-character string, the way iterating over it yields them. */
  function Characters(s: string): (cs: seq<PyValue>)
    ensures |cs| == |s| && forall i :: 0 <= i < |s| ==> cs[i] == PyStr([s[i]])
  {
    seq(|s|, i requires 0 <= i < |s| => PyStr([s[i]]))
  }

  /**
   * `_parse_ratio`: the default ratio in optimal mode or for a falsy payload,
   * otherwise `float` of every element, of any length; nothing checks the
   * arity or the sign.
   */
  function ParseRatio(payload: PyValue, mode: PyValue): (r: Result<seq<real>, RatioError>)
    ensures mode == PyStr("optimal") || !Truthy(payload) ==> r == Ok(DefaultMolarRatio)
    ensures mode != PyStr("optimal") && payload.PyList? && |payload.items| > 0 ==>
      (r.Ok? <==> FloatEach(payload.items).Some?) && (r.Ok? ==> r.value == FloatEach(payload.items).value)
    ensures mode != PyStr("optimal") && Truthy(payload) && (payload.PyNum? || payload.PyBool?) ==> r == Err(NotIterable)
  {
    if mode == PyStr("optimal") || !Truthy(payload) then Ok(DefaultMolarRatio)
    else
      var items := match payload
        case PyList(xs) => Some(xs)
        case PyStr(s) => Some(Characters(s))
        case _ => None;
      match items
      case None => Err(NotIterable)
      case Some(xs) =>
        match FloatEach(xs)
        case None => Err(NotANumber)
        case Some(vs) => Ok(vs)
  }

  /** A custom ratio of three numbers is used as given, without any check of its values. */
  lemma CustomRatioAsGiven(a: real, b: real, c: real)
    ensures ParseRatio(PyList([PyNum(a), PyNum(b), PyNum(c)]), PyStr("custom")) == Ok([a, b, c])
  {
    var items := [PyNum(a), PyNum(b), PyNum(c)];
    assert PyFloat(items[0]) == Some(a) && PyFloat(items[1]) == Some(b) && PyFloat(items[2]) == Some(c);
    assert FloatEach(items).Some?;
    var vs := FloatEach(items).value;
    assert |vs| == 3 && vs[0] == a && vs[1] == b && vs[2] == c;
    assert vs == [a, b, c];
  }

  /** A custom ratio of two numbers is accepted here and then fails to unpack in the scaling. */
  lemma TwoPartRatioFailsToUnpack(a: real, b: real)
    ensures ParseRatio(PyList([PyNum(a), PyNum(b)]), PyStr("custom")) == Ok([a, b])
    ensures CalculateTransfectionScaling("T175", Some([a, b])) == Err(RatioArity)
  {
    var items := [PyNum(a), PyNum(b)];
    assert PyFloat(items[0]) == Some(a) && PyFloat(items[1]) == Some(b);
    assert FloatEach(items).Some?;
    var vs := FloatEach(items).value;
    assert |vs| == 2 && vs[0] == a && vs[1] == b;
    assert vs == [a, b];
  }

  /** A string payload is read one character at a time, so "431" reads as the ratio 4:3:1. */
  lemma DigitStringRatio()
    ensures ParseRatio(PyStr("431"), PyStr("custom")) == Ok([4.0, 3.0, 1.0])
  {
    var s := "431";
    assert s[0] == '4' && s[1] == '3' && s[2] == '1';
    assert AllDigits(s);
    var vs := DigitValues(s);
    assert vs[0] == 4.0 && vs[1] == 3.0 && vs[2] == 1.0;
    assert vs == [4.0, 3.0, 1.0];
    DigitsAsRatio(s);
    StringRatio(s);
  }

  /** A custom ratio sent as a non-empty string is read character by character. */
  lemma StringRatio(s: string)
    requires |s| > 0
    ensures ParseRatio(PyStr(s), PyStr("custom")) ==
      if FloatEach(Characters(s)).Some? then Ok(FloatEach(Characters(s)).value) else Err(NotANumber)
  {
    var custom := "custom";
    assert custom[0] == 'c' && "optimal"[0] == 'o';
    assert PyStr(custom) != PyStr("optimal");
    assert Truthy(PyStr(s));
  }

  /** The value of each digit of a string of digits. */
  function DigitValues(s: string): (vs: seq<real>)
    requires AllDigits(s)
    ensures |vs| == |s| && forall i :: 0 <= i < |s| ==> vs[i] == DigitValue(s[i]) as real
  {
    seq(|s|, i requires 0 <= i < |s| => DigitValue(s[i]) as real)
  }

  /** Iterating over a string of digits reads each digit as a number. */
  lemma DigitsAsRatio(s: string)
    requires AllDigits(s)
    ensures FloatEach(Characters(s)) == Some(DigitValues(s))
  {
    var cs := Characters(s);
    forall i | 0 <= i < |s|
      ensures PyFloat(cs[i]) == Some(DigitValue(s[i]) as real)
    {
      DigitCharFloat(s[i]);
    }
    assert FloatEach(cs).Some?;
    var vs := FloatEach(cs).value;
    assert |vs| == |DigitValues(s)|;
    assert forall i :: 0 <= i < |s| ==> vs[i] == DigitValues(s)[i];
    assert vs == DigitValues(s);
  }

  /** `float` of a one-character digit string is the digit's value. */
  lemma DigitCharFloat(c: char)
    requires IsDigit(c)
    ensures PyFloat(PyStr([c])) == Some(DigitValue(c) as real)
  {
    StripNoEdges(Python, [c]);
    ParseDigit(c);
  }

  // --------------------------------------------------------- plasmid volume

  /** `concentration in (None, 0)`: `None`, zero and `False`. */
  predicate IsNoneOrZero(v: PyValue) {
    v == PyNone || v == PyNum(0.0) || v == PyBool(false)
  }

  /**
   * `_compute_volume`: the µL of a plasmid stock holding `massUg` µg at the
   * given ng/µL, rounded to three decimals; none when the concentration is
   * missing, zero or not a number.
   */
  function ComputeVolume(massUg: real, concentration: PyValue): (r: Option<real>)
    ensures r.Some? <==> PyFloat(concentration).Some? && PyFloat(concentration).value != 0.0
    ensures r.Some? ==> r.value == PyRound(massUg * 1000.0 / PyFloat(concentration).value, 3)
    ensures r.Some? ==>
      -0.0005 <= r.value - massUg * 1000.0 / PyFloat(concentration).value <= 0.0005
  {
    if IsNoneOrZero(concentration) then None
    else
      match PyFloat(concentration)
      case None => None
      case Some(c) =>
        if c == 0.0 then None
        else
          var v := (massUg * 1000.0) / c;
          PyRoundThreeError(v);
          Some(PyRound(v, 3))
  }

  /** A concentration sent as decimal text gives the same volume as the number itself. */
  lemma VolumeOfTextConcentration(massUg: real, n: nat)
    ensures ComputeVolume(massUg, PyStr(NatToString(n))) == ComputeVolume(massUg, PyNum(n as real))
  {
    var s := NatToString(n);
    ParseNatToString(n);
    assert IsDigit(s[0]) && IsDigit(s[|s| - 1]);
    StripNoEdges(Python, s);
  }

  /** The reference transfer mass of 12.8 µg at 500 ng/µL takes 25.6 µL. */
  lemma ReferenceTransferVolume()
    ensures ComputeVolume(12.8, PyNum(500.0)) == Some(25.6)
  {
    assert (12.8 * 1000.0) / 500.0 == 25.6;
    assert IsWhole(25.6 * 1000.0) by {
      assert 25.6 * 1000.0 == 25600.0;
    }
    PyRoundThreeWhole(25.6);
  }
}
