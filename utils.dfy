/**
 * The shared helpers of the server: lenient parsing of form values, the
 * surface-area scaling of the seeding and transfection protocols, and the
 * multiplicity-of-infection and titer formulas.
 */
module Utils {
  import opened Wrappers
  import opened Numeric
  import opened Text
  import opened Constants

  /** A dynamically typed value as it arrives from a JSON body or a form. */
  datatype PyValue =
    | PyNone
    | PyBool(b: bool)
    | PyNum(x: real)
    | PyStr(s: string)
    | PyList(items: seq<PyValue>)

  /** Python truthiness. */
  predicate Truthy(v: PyValue) {
    match v
    case PyNone => false
    case PyBool(b) => b
    case PyNum(x) => x != 0.0
    case PyStr(s) => |s| > 0
    case PyList(items) => |items| > 0
  }

  /** `value in (None, '')`. */
  predicate IsNoneOrEmpty(v: PyValue) {
    v == PyNone || v == PyStr("")
  }

  /** `float(value)`; `None` stands for the `TypeError` or `ValueError` it raises. */
  function PyFloat(v: PyValue): Option<real> {
    match v
    case PyNone => None
    case PyBool(b) => Some(if b then 1.0 else 0.0)
    case PyNum(x) => Some(x)
    case PyStr(s) => ParseDecimal(Strip(Python, s))
    case PyList(_) => None
  }

  /** A Python float: a finite value, an infinity or not-a-number. */
  datatype Float = Finite(v: real) | PosInf | NegInf | NaN

  /** Scaling failures: `ValueError` for an unknown vessel or a ratio that does not unpack, `ZeroDivisionError` for a zero ratio sum. */
  datatype ScalingError = UnknownVessel | RatioArity | RatioSumZero

  // ---------------------------------------------------------------- parsing

  /**
   * `parse_positive_int`: blank, unparsable and non-positive values give the
   * default; a positive number is rounded half-to-even, so a value in
   * (0, 0.5] gives 0.
   */
  function ParsePositiveInt(value: PyValue, default: Option<int>): (r: Option<int>)
    ensures IsNoneOrEmpty(value) || PyFloat(value).None? || PyFloat(value).value <= 0.0 ==> r == default
    ensures !IsNoneOrEmpty(value) && PyFloat(value).Some? && PyFloat(value).value > 0.0 ==>
      && r.Some? && r.value >= 0
      && -1.0 / 2.0 <= r.value as real - PyFloat(value).value <= 1.0 / 2.0
      && (IsHalfway(PyFloat(value).value) ==> r.value % 2 == 0)
      && (!IsHalfway(PyFloat(value).value) ==> -1.0 / 2.0 < r.value as real - PyFloat(value).value < 1.0 / 2.0)
  {
    if IsNoneOrEmpty(value) then default
    else
      match PyFloat(value)
      case None => default
      case Some(number) => if number <= 0.0 then default else Some(RoundHalfEven(number))
  }

  /** Halves round to the even neighbour: 0.5 plates are stored as 0, 2.5 as 2. */
  lemma ParsePositiveIntHalves(default: Option<int>)
    ensures ParsePositiveInt(PyNum(0.5), default) == Some(0)
    ensures ParsePositiveInt(PyNum(2.5), default) == Some(2)
  {
    assert IsHalfway(0.5) && IsHalfway(2.5);
  }

  /** A whole positive count, as a number or as its decimal text, is read back exactly. */
  lemma ParsePositiveIntWhole(n: nat, default: Option<int>)
    requires n >= 1
    ensures ParsePositiveInt(PyNum(n as real), default) == Some(n)
    ensures ParsePositiveInt(PyStr(NatToString(n)), default) == Some(n)
  {
    var s := NatToString(n);
    ParseNatToString(n);
    assert IsDigit(s[0]) && IsDigit(s[|s| - 1]);
    StripNoEdges(Python, s);
  }

  /** A positive value below one half is rounded to zero rather than replaced by the default. */
  lemma ParsePositiveIntRoundsToZero(x: real, default: Option<int>)
    requires 0.0 < x < 1.0 / 2.0
    ensures ParsePositiveInt(PyNum(x), default) == Some(0)
  {
  }

  /** `parse_optional_float`: blank values give `None`, anything else is `float(value)` or `None`. */
  function ParseOptionalFloat(value: PyValue): (r: Option<real>)
    ensures IsNoneOrEmpty(value) ==> r.None?
    ensures value.PyNum? ==> r == Some(value.x)
    ensures value.PyBool? ==> r == Some(if value.b then 1.0 else 0.0)
    ensures value.PyList? ==> r.None?
  {
    if IsNoneOrEmpty(value) then None else PyFloat(value)
  }

  /** A count written in plain digits reads as itself. */
  lemma OptionalFloatOfNumeral(n: nat)
    ensures ParseOptionalFloat(PyStr(NatToString(n))) == Some(n as real)
  {
    NumeralIsClean(n);
    ParseNatToString(n);
  }

  /** Whitespace around a value, Unicode spaces included, does not change what it reads as. */
  lemma OptionalFloatPadded(pre: string, t: string, post: string)
    requires forall i :: 0 <= i < |pre| ==> IsWhitespace(Python, pre[i])
    requires forall i :: 0 <= i < |post| ==> IsWhitespace(Python, post[i])
    requires |t| > 0 && !IsWhitespace(Python, t[0]) && !IsWhitespace(Python, t[|t| - 1])
    ensures ParseOptionalFloat(PyStr(pre + t + post)) == ParseOptionalFloat(PyStr(t))
  {
    var a := pre + t + post;
    assert |a| > 0 && PyStr(a) != PyStr("") && PyStr(t) != PyStr("");
    StripPadded(Python, pre, t, post);
    StripNoEdges(Python, t);
  }

  /** Unlike the shorthand reader, `float` takes no thousands separator: text with a comma is rejected. */
  lemma OptionalFloatRejectsComma(s: string, i: nat)
    requires i < |s| && s[i] == ','
    ensures ParseOptionalFloat(PyStr(s)).None?
  {
    StripKeepsAt(Python, s, i);
    var u := Strip(Python, s);
    var j :| 0 <= j < |u| && u[j] == ',';
    assert !IsNumeralChar(u[j]);
    ParseDecimalOnlyNumerals(u);
  }

  /** Text reads as a number only when it holds a digit. */
  lemma OptionalFloatHasDigit(s: string)
    requires ParseOptionalFloat(PyStr(s)).Some?
    ensures exists i :: 0 <= i < |s| && IsDigit(s[i])
  {
    var u := Strip(Python, s);
    assert ParseDecimal(u).Some?;
    ParseDecimalHasDigit(u);
    StripFrom(Python, s);
    DigitFrom(s, u);
  }

  /** The multiplier of a shorthand suffix letter (already upper-cased). */
  function ShorthandMultiplier(c: char): Option<real> {
    if c == 'K' then Some(1_000.0)
    else if c == 'M' then Some(1_000_000.0)
    else if c == 'B' then Some(1_000_000_000.0)
    else None
  }

  /** Text input: stripped, without its commas, then read. */
  function ShorthandString(s: string): Option<real> {
    ShorthandText(RemoveChar(Strip(Python, s), ','))
  }

  /** The part of `parse_shorthand_number` after stripping and removing commas. */
  function ShorthandText(text: string): Option<real> {
    match ParseDecimal(Strip(Python, text))
    case Some(v) => Some(v)
    case None => if |text| == 0 then None else SuffixedValue(text[..|text| - 1], text[|text| - 1])
  }

  /** `prefix` read as a number and multiplied by the multiplier of the letter `c`, if it is one. */
  function SuffixedValue(prefix: string, c: char): Option<real> {
    match ShorthandMultiplier(UpperChar(c))
    case None => None
    case Some(m) =>
      match ParseDecimal(Strip(Python, prefix))
      case Some(b) => Some(b * m)
      case None => None
  }

  /**
   * `parse_shorthand_number`: numbers (booleans included) pass through, text
   * is stripped, loses its commas and is read as a plain number or as a
   * number followed by one of the letters K, M, B in either case.
   */
  function ParseShorthandNumber(value: PyValue): (r: Option<real>)
    ensures IsNoneOrEmpty(value) ==> r.None?
    ensures value.PyNum? ==> r == Some(value.x)
    ensures value.PyBool? ==> r == Some(if value.b then 1.0 else 0.0)
    ensures value.PyList? ==> r.None?
  {
    if IsNoneOrEmpty(value) then None
    else
      match value
      case PyNum(x) => Some(x)
      case PyBool(b) => Some(if b then 1.0 else 0.0)
      case PyStr(s) => ShorthandString(s)
      // str() of a list ends with ']', which is neither a number nor a suffix
      case _ => None
  }

  /** A count written in digits with a K, M or B suffix is that count times the multiplier. */
  lemma ShorthandOfNumeral(n: nat, c: char)
    requires ShorthandMultiplier(UpperChar(c)).Some?
    ensures ParseShorthandNumber(PyStr(NatToString(n) + [c])) ==
      Some(n as real * ShorthandMultiplier(UpperChar(c)).value)
  {
    SuffixedNumeral(n, c);
    CleanShorthandText(NatToString(n) + [c]);
    ShorthandTextSuffix(NatToString(n), c);
    SuffixedNumeralValue(n, c);
  }

  /** Text that is already stripped and holds no comma is read as it is. */
  lemma CleanShorthandText(s: string)
    requires Strip(Python, s) == s && RemoveChar(s, ',') == s
    ensures ParseShorthandNumber(PyStr(s)) == ShorthandText(s)
  {
    if s == "" {
      ShorthandTextEmpty();
    }
  }

  /**
   * Whitespace around a value, the non-breaking space and the other Unicode
   * spaces `str.strip` removes included, does not change what it reads as.
   */
  lemma ShorthandPadded(pre: string, t: string, post: string)
    requires forall i :: 0 <= i < |pre| ==> IsWhitespace(Python, pre[i])
    requires forall i :: 0 <= i < |post| ==> IsWhitespace(Python, post[i])
    requires |t| > 0 && !IsWhitespace(Python, t[0]) && !IsWhitespace(Python, t[|t| - 1])
    ensures ParseShorthandNumber(PyStr(pre + t + post)) == ParseShorthandNumber(PyStr(t))
  {
    var a := pre + t + post;
    assert |a| > 0 && PyStr(a) != PyStr("") && PyStr(t) != PyStr("");
    StripPadded(Python, pre, t, post);
    StripNoEdges(Python, t);
    assert RemoveChar(Strip(Python, a), ',') == RemoveChar(Strip(Python, t), ',');
  }

  /** Text reads as a number only when it holds a digit. */
  lemma ShorthandHasDigit(s: string)
    requires ParseShorthandNumber(PyStr(s)).Some?
    ensures exists i :: 0 <= i < |s| && IsDigit(s[i])
  {
    var u := Strip(Python, s);
    var t := RemoveChar(u, ',');
    assert s != "";
    assert ShorthandText(t).Some?;
    ShorthandTextHasDigit(t);
    RemoveCharKeeps(u, ',');
    DigitFrom(u, t);
    StripFrom(Python, s);
    DigitFrom(s, u);
  }

  lemma ShorthandTextHasDigit(t: string)
    requires ShorthandText(t).Some?
    ensures exists i :: 0 <= i < |t| && IsDigit(t[i])
  {
    if ParseDecimal(Strip(Python, t)).Some? {
      ParseDecimalHasDigit(Strip(Python, t));
      StripFrom(Python, t);
      DigitFrom(t, Strip(Python, t));
    } else {
      var prefix := t[..|t| - 1];
      SuffixedHasDigit(prefix, t[|t| - 1]);
      var k :| 0 <= k < |prefix| && IsDigit(prefix[k]);
      assert t[k] == prefix[k];
    }
  }

  lemma SuffixedHasDigit(prefix: string, c: char)
    requires SuffixedValue(prefix, c).Some?
    ensures exists i :: 0 <= i < |prefix| && IsDigit(prefix[i])
  {
    ParseDecimalHasDigit(Strip(Python, prefix));
    StripFrom(Python, prefix);
    DigitFrom(prefix, Strip(Python, prefix));
  }

  /** Commas around nothing but whitespace read as missing: ", ," is one such text. */
  lemma BlankBetweenCommas(w: string)
    requires |w| > 0
    requires forall i :: 0 <= i < |w| ==> IsWhitespace(Python, w[i])
    ensures ParseShorthandNumber(PyStr("," + w + ",")) == None
  {
    var s := "," + w + ",";
    assert s[0] == ',' && s[|s| - 1] == ',';
    StripNoEdges(Python, s);
    RemoveAround(w, ',');
    StripBlank(Python, w);
    ShorthandTextEmpty();
    var c := w[|w| - 1];
    assert UpperChar(c) == c;
  }

  lemma ShorthandTextEmpty()
    ensures ShorthandText("") == None
  {
  }

  /** Decimal digits are already stripped and hold no comma. */
  lemma NumeralIsClean(n: nat)
    ensures Strip(Python, NatToString(n)) == NatToString(n)
    ensures RemoveChar(NatToString(n), ',') == NatToString(n)
  {
    var s := NatToString(n);
    assert IsDigit(s[0]) && IsDigit(s[|s| - 1]);
    StripNoEdges(Python, s);
    assert forall i :: 0 <= i < |s| ==> s[i] != ',' by {
      forall i | 0 <= i < |s| ensures s[i] != ',' {
        assert IsDigit(s[i]);
      }
    }
    RemoveCharAbsent(s, ',');
  }

  /** Digits followed by a suffix letter are already clean text that is not itself a number. */
  lemma SuffixedNumeral(n: nat, c: char)
    requires ShorthandMultiplier(UpperChar(c)).Some?
    ensures var s := NatToString(n) + [c];
      && Strip(Python, s) == s
      && RemoveChar(s, ',') == s
      && ParseDecimal(Strip(Python, s)).None?
  {
    SuffixedDigits(NatToString(n), c);
  }

  lemma SuffixedDigits(digits: string, c: char)
    requires |digits| > 0 && AllDigits(digits)
    requires ShorthandMultiplier(UpperChar(c)).Some?
    ensures var s := digits + [c];
      && Strip(Python, s) == s
      && RemoveChar(s, ',') == s
      && ParseDecimal(Strip(Python, s)).None?
  {
    var s := digits + [c];
    assert IsDigit(s[0]) && !IsWhitespace(Python, s[|s| - 1]);
    StripNoEdges(Python, s);
    assert forall i :: 0 <= i < |s| ==> s[i] != ',' by {
      forall i | 0 <= i < |s| ensures s[i] != ',' {
        if i < |digits| {
          assert IsDigit(digits[i]);
        }
      }
    }
    RemoveCharAbsent(s, ',');
    NotANumeral(s);
  }

  /** Text ending in a letter is not a decimal literal. */
  lemma NotANumeral(s: string)
    requires |s| > 0 && !IsNumeralChar(s[|s| - 1])
    ensures ParseDecimal(s).None?
  {
    if ParseDecimal(s).Some? {
      ParseDecimalCharset(s);
      assert false;
    }
  }

  /** The digits of `n` before a suffix letter give `n` times its multiplier. */
  lemma SuffixedNumeralValue(n: nat, c: char)
    requires ShorthandMultiplier(UpperChar(c)).Some?
    ensures SuffixedValue(NatToString(n), c) == Some(n as real * ShorthandMultiplier(UpperChar(c)).value)
  {
    NumeralIsClean(n);
    ParseNatToString(n);
  }

  /** Text that is not itself a number is read as a number with a suffix letter. */
  lemma ShorthandTextSuffix(prefix: string, c: char)
    requires ParseDecimal(Strip(Python, prefix + [c])).None?
    ensures ShorthandText(prefix + [c]) == SuffixedValue(prefix, c)
  {
    var text := prefix + [c];
    assert text[..|text| - 1] == prefix;
  }

  /** A count written in plain digits is read as itself. */
  lemma ShorthandOfPlainNumeral(n: nat)
    ensures ParseShorthandNumber(PyStr(NatToString(n))) == Some(n as real)
  {
    NumeralIsClean(n);
    CleanShorthandText(NatToString(n));
    ParseNatToString(n);
  }

  /** In text without whitespace, commas (thousands separators) make no difference. */
  lemma ShorthandIgnoresCommas(s: string)
    requires NoWhitespace(Python, s)
    ensures ParseShorthandNumber(PyStr(s)) == ParseShorthandNumber(PyStr(RemoveChar(s, ',')))
  {
    var t := RemoveChar(s, ',');
    CommasRemovedClean(s);
    if s != "" {
      assert ParseShorthandNumber(PyStr(s)) == ShorthandText(t);
      CleanShorthandText(t);
    }
  }

  lemma CommasRemovedClean(s: string)
    requires NoWhitespace(Python, s)
    ensures Strip(Python, s) == s
    ensures var t := RemoveChar(s, ','); Strip(Python, t) == t && RemoveChar(t, ',') == t
    ensures s == "" ==> RemoveChar(s, ',') == s
  {
    StripNoEdges(Python, s);
    RemoveCharNoWhitespace(Python, s, ',');
    StripNoEdges(Python, RemoveChar(s, ','));
    RemoveCharIdempotent(s, ',');
  }

  // ----------------------------------------------------------- plate counts

  /** The id and the plate count of one preparation of an experiment. */
  datatype PlateSlot = PlateSlot(id: int, plateCount: Option<int>)

  /** `prep.plate_count or 0`. */
  function PlatesOf(slot: PlateSlot): int {
    match slot.plateCount
    case Some(n) => n
    case None => 0
  }

  /** `total_plate_count`: the plates of all preparations, or of all but the one with id `exclude`. */
  function TotalPlateCount(slots: seq<PlateSlot>, exclude: Option<int>): (total: int)
    ensures (forall i :: 0 <= i < |slots| ==> PlatesOf(slots[i]) >= 0) ==> total >= 0
  {
    if |slots| == 0 then 0
    else
      var last := slots[|slots| - 1];
      var rest := TotalPlateCount(slots[..|slots| - 1], exclude);
      if exclude.None? || last.id != exclude.value then rest + PlatesOf(last) else rest
  }

  /** The plates of the preparations whose id is `id`. */
  function PlatesWithId(slots: seq<PlateSlot>, id: int): int {
    if |slots| == 0 then 0
    else
      var last := slots[|slots| - 1];
      PlatesWithId(slots[..|slots| - 1], id) + (if last.id == id then PlatesOf(last) else 0)
  }

  /** Excluding one id removes exactly the plates recorded under that id. */
  lemma {:induction false} TotalPlateCountExclude(slots: seq<PlateSlot>, id: int)
    ensures TotalPlateCount(slots, None) == TotalPlateCount(slots, Some(id)) + PlatesWithId(slots, id)
  {
    if |slots| > 0 {
      TotalPlateCountExclude(slots[..|slots| - 1], id);
    }
  }

  /** Excluding an id no preparation has changes nothing. */
  lemma TotalPlateCountExcludeAbsent(slots: seq<PlateSlot>, id: int)
    requires forall i :: 0 <= i < |slots| ==> slots[i].id != id
    ensures TotalPlateCount(slots, Some(id)) == TotalPlateCount(slots, None)
  {
    TotalPlateCountExclude(slots, id);
    PlatesWithAbsentId(slots, id);
  }

  /** With unique ids, the plates recorded under the id of `slots[k]` are that slot's own. */
  lemma {:induction false} PlatesWithUniqueId(slots: seq<PlateSlot>, k: nat)
    requires k < |slots|
    requires forall i, j :: 0 <= i < j < |slots| ==> slots[i].id != slots[j].id
    ensures PlatesWithId(slots, slots[k].id) == PlatesOf(slots[k])
  {
    var n := |slots| - 1;
    if k < n {
      PlatesWithUniqueId(slots[..n], k);
      assert slots[n].id != slots[k].id;
    } else {
      PlatesWithAbsentId(slots[..n], slots[k].id);
    }
  }

  lemma {:induction false} PlatesWithAbsentId(slots: seq<PlateSlot>, id: int)
    requires forall i :: 0 <= i < |slots| ==> slots[i].id != id
    ensures PlatesWithId(slots, id) == 0
  {
    if |slots| > 0 {
      PlatesWithAbsentId(slots[..|slots| - 1], id);
    }
  }

  /** The total that leaves out an id does not depend on the plate count recorded under it. */
  lemma {:induction false} TotalPlateCountIgnoresExcluded(slots: seq<PlateSlot>, k: nat, count: Option<int>)
    requires k < |slots|
    ensures TotalPlateCount(slots[k := PlateSlot(slots[k].id, count)], Some(slots[k].id))
         == TotalPlateCount(slots, Some(slots[k].id))
  {
    var n := |slots| - 1;
    var changed := slots[k := PlateSlot(slots[k].id, count)];
    if k < n {
      assert changed[..n] == slots[..n][k := PlateSlot(slots[k].id, count)];
      TotalPlateCountIgnoresExcluded(slots[..n], k, count);
    } else {
      assert changed[..n] == slots[..n];
    }
  }

  // ------------------------------------------------------ protocol scaling

  /** `calculate_surface_ratio`: the vessel's area relative to the T175 reference. */
  function CalculateSurfaceRatio(vessel: string): (r: Result<real, ScalingError>)
    ensures r.Ok? <==> vessel in SurfaceAreas
    ensures r.Err? ==> r.error == UnknownVessel
    ensures r.Ok? ==> r.value > 0.0 && r.value * 175.0 == SurfaceAreas[vessel]
  {
    if vessel !in SurfaceAreas then Err(UnknownVessel)
    else
      var area := SurfaceArea(vessel);
      if area == 0.0 then Err(UnknownVessel)
      else Ok(area / SurfaceArea(BaseSeeding.vessel))
  }

  /** The reference vessel has ratio one. */
  lemma SurfaceRatioOfReference()
    ensures CalculateSurfaceRatio(BaseSeeding.vessel) == Ok(1.0)
  {
  }

  /**
   * `calculate_seeding_volume`: with a nonzero target the volume holding that
   * many cells at the reference density, otherwise the reference volume
   * scaled by surface area; an unknown vessel is an error either way.
   */
  function CalculateSeedingVolume(vessel: string, targetCells: Option<real>): (r: Result<real, ScalingError>)
    ensures r.Ok? <==> vessel in SurfaceAreas
    ensures r.Err? ==> r.error == UnknownVessel
    ensures r.Ok? && targetCells.Some? && targetCells.value != 0.0 ==>
      r.value * BaseSeeding.density as real == targetCells.value
    ensures r.Ok? && (targetCells.None? || targetCells.value == 0.0) ==>
      r.value * 175.0 == BaseSeeding.volumeMl * SurfaceAreas[vessel]
  {
    match CalculateSurfaceRatio(vessel)
    case Err(e) => Err(e)
    case Ok(ratio) =>
      var baseVolume := BaseSeeding.volumeMl * ratio;
      if targetCells.Some? && targetCells.value != 0.0 then
        Ok(targetCells.value / BaseSeeding.density as real)
      else Ok(baseVolume)
  }

  /** With a target cell count, the volume does not depend on the vessel. */
  lemma SeedingVolumeIgnoresVessel(v1: string, v2: string, cells: real)
    requires v1 in SurfaceAreas && v2 in SurfaceAreas && cells != 0.0
    ensures CalculateSeedingVolume(v1, Some(cells)) == CalculateSeedingVolume(v2, Some(cells))
  {
  }

  /** The quantities of a transfection protocol. */
  datatype TransfectionScaling = TransfectionScaling(
    surfaceRatio: real,
    optiMemMl: real,
    xtremegeneUl: real,
    totalPlasmidUg: real,
    transferMassUg: real,
    packagingMassUg: real,
    envelopeMassUg: real)

  /** The exact protocol for a surface ratio and a transfer : packaging : envelope ratio. */
  function ExactScaling(surfaceRatio: real, ratio: seq<real>): TransfectionScaling
    requires |ratio| == 3 && Sum(ratio) != 0.0
  {
    var sum := Sum(ratio);
    ScaledProtocol(surfaceRatio, ratio[0] / sum, ratio[1] / sum, ratio[2] / sum)
  }

  /** The reference protocol scaled by `surfaceRatio`, the plasmid mass split by the given shares. */
  function ScaledProtocol(surfaceRatio: real, transferShare: real, packagingShare: real, envelopeShare: real): TransfectionScaling {
    var total := BaseTransfection.totalPlasmidUg * surfaceRatio;
    TransfectionScaling(
      surfaceRatio,
      BaseTransfection.optiMemMl * surfaceRatio,
      BaseTransfection.xtremegeneUl * surfaceRatio,
      total,
      total * transferShare,
      total * packagingShare,
      total * envelopeShare)
  }

  /** Every quantity but the surface ratio rounded to three decimals. */
  function Rounded(s: TransfectionScaling): TransfectionScaling {
    TransfectionScaling(
      s.surfaceRatio,
      PyRound(s.optiMemMl, 3),
      PyRound(s.xtremegeneUl, 3),
      PyRound(s.totalPlasmidUg, 3),
      PyRound(s.transferMassUg, 3),
      PyRound(s.packagingMassUg, 3),
      PyRound(s.envelopeMassUg, 3))
  }

  /** The ratio actually used: the given one, or the default (4, 3, 1). */
  function EffectiveRatio(ratio: Option<seq<real>>): seq<real> {
    ratio.GetOr(DefaultMolarRatio)
  }

  /**
   * `calculate_transfection_scaling`: the reference protocol scaled by surface
   * area, the plasmid mass split in proportion to the ratio, and rounded.
   * Failures come in the order the code meets them.
   */
  function CalculateTransfectionScaling(vessel: string, ratio: Option<seq<real>>): (r: Result<TransfectionScaling, ScalingError>)
    ensures r.Ok? <==> vessel in SurfaceAreas && |EffectiveRatio(ratio)| == 3 && Sum(EffectiveRatio(ratio)) != 0.0
    ensures r.Err? && vessel !in SurfaceAreas ==> r.error == UnknownVessel
    ensures r.Err? && vessel in SurfaceAreas && |EffectiveRatio(ratio)| != 3 ==> r.error == RatioArity
    ensures r.Err? && vessel in SurfaceAreas && |EffectiveRatio(ratio)| == 3 ==> r.error == RatioSumZero
    ensures r.Ok? ==> r.value == Rounded(ExactScaling(SurfaceAreas[vessel] / 175.0, EffectiveRatio(ratio)))
  {
    match CalculateSurfaceRatio(vessel)
    case Err(e) => Err(e)
    case Ok(surfaceRatio) =>
      var parts := EffectiveRatio(ratio);
      if |parts| != 3 then Err(RatioArity)
      else if Sum(parts) == 0.0 then Err(RatioSumZero)
      else Ok(Rounded(ExactScaling(surfaceRatio, parts)))
  }

  /** The three plasmid masses add up to the total plasmid mass, which is the reference total times the ratio. */
  lemma ExactMassesSumToTotal(surfaceRatio: real, ratio: seq<real>)
    requires |ratio| == 3 && Sum(ratio) != 0.0
    ensures var s := ExactScaling(surfaceRatio, ratio);
      s.transferMassUg + s.packagingMassUg + s.envelopeMassUg == s.totalPlasmidUg
  {
    var sum := Sum(ratio);
    Sum3(ratio);
    var total := BaseTransfection.totalPlasmidUg * surfaceRatio;
    var u := ratio[0] / sum + ratio[1] / sum + ratio[2] / sum;
    assert u == (ratio[0] + ratio[1] + ratio[2]) / sum;
    DivSelf(sum);
    assert total * (ratio[0] / sum) + total * (ratio[1] / sum) + total * (ratio[2] / sum) == total * u;
  }

  /** Reagent is three microlitres per microgram of plasmid, and Opti-MEM scales like the plasmid. */
  lemma ExactReagentToDna(surfaceRatio: real, ratio: seq<real>)
    requires |ratio| == 3 && Sum(ratio) != 0.0
    ensures var s := ExactScaling(surfaceRatio, ratio);
      && s.xtremegeneUl == BaseTransfection.reagentToDnaRatio * s.totalPlasmidUg
      && s.optiMemMl * BaseTransfection.totalPlasmidUg == s.totalPlasmidUg
  {
  }

  /** Multiplying every part of the ratio by the same nonzero factor changes nothing. */
  lemma ExactScalingRatioInvariant(surfaceRatio: real, ratio: seq<real>, k: real)
    requires |ratio| == 3 && Sum(ratio) != 0.0 && k != 0.0
    ensures Sum([k * ratio[0], k * ratio[1], k * ratio[2]]) != 0.0
    ensures ExactScaling(surfaceRatio, [k * ratio[0], k * ratio[1], k * ratio[2]]) == ExactScaling(surfaceRatio, ratio)
  {
    ScaledShares(ratio, k);
  }

  /** Each part's share of the ratio is unchanged by a common nonzero factor. */
  lemma ScaledShares(ratio: seq<real>, k: real)
    requires |ratio| == 3 && Sum(ratio) != 0.0 && k != 0.0
    ensures var scaled := [k * ratio[0], k * ratio[1], k * ratio[2]];
      && Sum(scaled) != 0.0
      && scaled[0] / Sum(scaled) == ratio[0] / Sum(ratio)
      && scaled[1] / Sum(scaled) == ratio[1] / Sum(ratio)
      && scaled[2] / Sum(scaled) == ratio[2] / Sum(ratio)
  {
    var scaled := [k * ratio[0], k * ratio[1], k * ratio[2]];
    var a, b, c := ratio[0], ratio[1], ratio[2];
    Sum3(ratio);
    Sum3(scaled);
    var sum := a + b + c;
    assert k * sum == k * a + k * b + k * c;
    MulNonZero(k, sum);
    DivCancel(a, k, sum);
    DivCancel(b, k, sum);
    DivCancel(c, k, sum);
    var t := Sum(scaled);
    assert scaled[0] == k * a && scaled[1] == k * b && scaled[2] == k * c && t == k * sum;
  }

  /** Each rounded quantity is within half a thousandth of the exact one. */
  lemma RoundedWithinHalfThousandth(s: TransfectionScaling)
    ensures var r := Rounded(s);
      && -0.0005 <= r.optiMemMl - s.optiMemMl <= 0.0005
      && -0.0005 <= r.xtremegeneUl - s.xtremegeneUl <= 0.0005
      && -0.0005 <= r.totalPlasmidUg - s.totalPlasmidUg <= 0.0005
      && -0.0005 <= r.transferMassUg - s.transferMassUg <= 0.0005
      && -0.0005 <= r.packagingMassUg - s.packagingMassUg <= 0.0005
      && -0.0005 <= r.envelopeMassUg - s.envelopeMassUg <= 0.0005
  {
    PyRoundThreeError(s.optiMemMl);
    PyRoundThreeError(s.xtremegeneUl);
    PyRoundThreeError(s.totalPlasmidUg);
    PyRoundThreeError(s.transferMassUg);
    PyRoundThreeError(s.packagingMassUg);
    PyRoundThreeError(s.envelopeMassUg);
  }

  /** The default T175 protocol: 25.6 µg of plasmid split 12.8 / 9.6 / 3.2 µg. */
  lemma DefaultReferenceProtocol()
    ensures CalculateTransfectionScaling("T175", None) ==
      Ok(TransfectionScaling(1.0, 1.0, 76.8, 25.6, 12.8, 9.6, 3.2))
  {
    SurfaceRatioOfReference();
    DefaultExactScaling();
    RoundedThreeDecimals(TransfectionScaling(1.0, 1.0, 76.8, 25.6, 12.8, 9.6, 3.2));
  }

  lemma DefaultExactScaling()
    ensures Sum(DefaultMolarRatio) == 8.0
    ensures ExactScaling(1.0, DefaultMolarRatio) == TransfectionScaling(1.0, 1.0, 76.8, 25.6, 12.8, 9.6, 3.2)
  {
    Sum3(DefaultMolarRatio);
  }

  /** Quantities that already have three decimals are left as they are by rounding. */
  lemma RoundedThreeDecimals(s: TransfectionScaling)
    requires IsWhole(s.optiMemMl * 1000.0) && IsWhole(s.xtremegeneUl * 1000.0)
    requires IsWhole(s.totalPlasmidUg * 1000.0) && IsWhole(s.transferMassUg * 1000.0)
    requires IsWhole(s.packagingMassUg * 1000.0) && IsWhole(s.envelopeMassUg * 1000.0)
    ensures Rounded(s) == s
  {
    PyRoundThreeWhole(s.optiMemMl);
    PyRoundThreeWhole(s.xtremegeneUl);
    PyRoundThreeWhole(s.totalPlasmidUg);
    PyRoundThreeWhole(s.transferMassUg);
    PyRoundThreeWhole(s.packagingMassUg);
    PyRoundThreeWhole(s.envelopeMassUg);
  }

  // --------------------------------------------------------- MOI and titer

  /**
   * `compute_moi`: the Poisson estimate -ln(1 - f) of infectious units per
   * cell from the infected fraction f; infinite from f = 1 on, zero at or
   * below f = 0. `ln` is the natural logarithm.
   */
  function ComputeMoi(fraction: real, ln: real -> real): (moi: Float)
    ensures fraction >= 1.0 <==> moi == PosInf
    ensures fraction <= 0.0 ==> moi == Finite(0.0)
    ensures moi.PosInf? || moi.Finite?
  {
    if fraction >= 1.0 then PosInf
    else if fraction <= 0.0 then Finite(0.0)
    else Finite(-ln(1.0 - fraction))
  }

  /** Below full infection the MOI is finite and non-negative, and positive when some cells are infected. */
  lemma MoiNonNegative(fraction: real, ln: real -> real)
    requires IsNaturalLog(ln)
    requires fraction < 1.0
    ensures ComputeMoi(fraction, ln).Finite?
    ensures ComputeMoi(fraction, ln).v >= 0.0
    ensures fraction > 0.0 ==> ComputeMoi(fraction, ln).v > 0.0
  {
    if fraction > 0.0 {
      assert 0.0 < 1.0 - fraction < 1.0;
      assert ln(1.0 - fraction) < ln(1.0);
    }
  }

  /** A larger infected fraction never gives a smaller MOI. */
  lemma MoiMonotone(f1: real, f2: real, ln: real -> real)
    requires IsNaturalLog(ln)
    requires f1 <= f2 < 1.0
    ensures ComputeMoi(f1, ln).v <= ComputeMoi(f2, ln).v
    ensures 0.0 < f1 < f2 ==> ComputeMoi(f1, ln).v < ComputeMoi(f2, ln).v
  {
    MoiNonNegative(f1, ln);
    MoiNonNegative(f2, ln);
    if 0.0 < f1 < f2 {
      assert 0.0 < 1.0 - f2 < 1.0 - f1;
      assert ln(1.0 - f2) < ln(1.0 - f1);
    }
  }

  /** A float divided by a nonzero real. */
  function DivideBy(x: Float, d: real): Float
    requires d != 0.0
  {
    match x
    case Finite(v) => Finite(v / d)
    case PosInf => if d > 0.0 then PosInf else NegInf
    case NegInf => if d > 0.0 then NegInf else PosInf
    case NaN => NaN
  }

  /** A real times a float; zero times an infinity is not a number. */
  function Times(c: real, x: Float): Float {
    match x
    case Finite(v) => Finite(c * v)
    case PosInf => if c > 0.0 then PosInf else if c < 0.0 then NegInf else NaN
    case NegInf => if c > 0.0 then NegInf else if c < 0.0 then PosInf else NaN
    case NaN => NaN
  }

  /**
   * `compute_titer`: infectious units per mL, cells × MOI / virus volume in
   * mL; zero when no virus volume is recorded.
   */
  function ComputeTiter(cells: real, moi: Float, virusVolumeUl: real): (titer: Float)
    ensures virusVolumeUl == 0.0 ==> titer == Finite(0.0)
    ensures virusVolumeUl != 0.0 && moi.Finite? ==>
      titer.Finite? && titer.v * virusVolumeUl == cells * moi.v * 1000.0
    ensures virusVolumeUl != 0.0 && !moi.Finite? ==> !titer.Finite?
  {
    if virusVolumeUl == 0.0 then Finite(0.0)
    else
      var volumeMl := virusVolumeUl / 1000.0;
      Times(cells, DivideBy(moi, volumeMl))
  }

  /** With positive volume and non-negative cells, the titer grows with the MOI. */
  lemma TiterMonotone(cells: real, m1: real, m2: real, virusVolumeUl: real)
    requires cells >= 0.0 && virusVolumeUl > 0.0 && m1 <= m2
    ensures ComputeTiter(cells, Finite(m1), virusVolumeUl).v <= ComputeTiter(cells, Finite(m2), virusVolumeUl).v
  {
    var volumeMl := virusVolumeUl / 1000.0;
    assert m1 / volumeMl <= m2 / volumeMl;
    assert cells * (m1 / volumeMl) <= cells * (m2 / volumeMl);
  }

  // ------------------------------------------------------ titer rounding

  /** The decimal exponent kept by `round_titer_average`: max(0, floor(log10 |v|) - 2). */
  function TiterMagnitude(v: real): nat
    requires v != 0.0
  {
    var a := if v < 0.0 then -v else v;
    if a < 1.0 then 0
    else
      var k := FloorLog10(a);
      if k < 2 then 0 else k - 2
  }

  /** `v` rounded, ties to even, to a multiple of `step`. */
  function RoundToStep(v: real, step: nat): (r: int)
    requires step >= 1
    ensures IsWhole(r as real / step as real)
    ensures -(step as real) / 2.0 <= r as real - v <= step as real / 2.0
    ensures IsHalfway(v / step as real) ==> (r / step) % 2 == 0
    ensures !IsHalfway(v / step as real) ==> -1.0 / 2.0 < (r / step) as real - v / step as real < 1.0 / 2.0
  {
    var q := RoundHalfEven(v / step as real);
    MultipleOfStep(v, step, q);
    ExactQuotient(q, step);
    q * step
  }

  /** A multiple of `step` divided by `step` gives the multiplier back. */
  lemma ExactQuotient(q: int, step: nat)
    requires step >= 1
    ensures (q * step) / step == q
  {
    var r := q * step;
    var d := r / step;
    var m := r % step;
    assert r == d * step + m && 0 <= m < step;
    var e := q - d;
    assert e * step == m by {
      assert e * step == q * step - d * step;
    }
  }

  lemma MultipleOfStep(v: real, step: nat, q: int)
    requires step >= 1
    requires -1.0 / 2.0 <= q as real - v / step as real <= 1.0 / 2.0
    ensures IsWhole((q * step) as real / step as real)
    ensures -(step as real) / 2.0 <= (q * step) as real - v <= step as real / 2.0
  {
    var p := step as real;
    var r := (q * step) as real;
    CastMul(q, step);
    MulDivCancel(q as real, p);
    assert r / p == q as real;
    var e := q as real - v / p;
    SubMul(q as real, v / p, p);
    DivMulCancel(v, p);
    assert e * p == r - v;
    MulBounds(e, 1.0 / 2.0, p);
  }

  /**
   * `round_titer_average`: `None` stays `None`, zero stays zero, and any other
   * value is rounded to three significant figures (whole numbers for
   * magnitudes below 1000).
   */
  function RoundTiterAverage(value: Option<real>): (r: Option<int>)
    ensures value.None? <==> r.None?
    ensures value == Some(0.0) ==> r == Some(0)
    ensures value.Some? && value.value != 0.0 ==>
      var step := Pow10(TiterMagnitude(value.value));
      && IsWhole(r.value as real / step as real)
      && -(step as real) / 2.0 <= r.value as real - value.value <= step as real / 2.0
      && (IsHalfway(value.value / step as real) ==> (r.value / step) % 2 == 0)
      && (!IsHalfway(value.value / step as real) ==>
            -1.0 / 2.0 < (r.value / step) as real - value.value / step as real < 1.0 / 2.0)
  {
    match value
    case None => None
    case Some(v) =>
      if v == 0.0 then Some(0)
      else Some(RoundToStep(v, Pow10(TiterMagnitude(v))))
  }

  /** A tie goes to the even multiple: 1005 rounds to 1000, not 1010. */
  lemma TiterAverageTie()
    ensures RoundTiterAverage(Some(1005.0)) == Some(1000)
  {
    assert Pow10(3) == 1000 && Pow10(4) == 10000;
    FloorLog10Unique(1005.0, 3);
    assert TiterMagnitude(1005.0) == 1;
    assert IsHalfway(1005.0 / 10.0);
  }

  /** From 100 on the rounding step keeps exactly three significant digits. */
  lemma TiterMagnitudeThreeDigits(v: real)
    requires v >= 100.0 || v <= -100.0
    ensures var a := if v < 0.0 then -v else v;
      var step := Pow10(TiterMagnitude(v)) as real;
      100.0 * step <= a < 1000.0 * step
  {
    var a := if v < 0.0 then -v else v;
    var k := FloorLog10(a);
    if k < 2 {
      assert false;
    }
    Pow10Add(2, k - 2);
    Pow10Add(3, k - 2);
    assert Pow10(2) == 100 && Pow10(3) == 1000;
    assert k + 1 == 3 + (k - 2);
  }
}
