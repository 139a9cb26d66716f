/**
 * Recording the readout of a titer run: each payload entry updates its
 * sample row, a control concentration is chosen, then every entry is scored
 * (survival, infected fraction, MOI, titer) and the run's average titer is
 * reported.
 */
module TiterResults {
  import opened Wrappers
  import opened Numeric
  import opened Utils
  import opened Models

  // ------------------------------------------------------------------ payload

  /** One entry of the request's `samples` list; `selectionUsed` is absent when the key is. */
  datatype SamplePayload = SamplePayload(
    id: int,
    selectionUsed: Option<PyValue>,
    cellConcentration: PyValue,
    measuredPercent: PyValue)

  datatype ResultsPayload = ResultsPayload(
    measurementMediaMl: PyValue,
    controlCellConcentration: PyValue,
    samples: seq<SamplePayload>)

  /** The response body: the entries' samples as serialised after scoring, and the run-level values. */
  datatype Response = Response(
    samples: seq<Sample>,
    averageTiter: Option<int>,
    controlCellConcentration: Option<real>,
    measurementMediaMl: Option<real>)

  // ------------------------------------------------- first pass: the readout

  /** Index of the run's sample with the given id, or the number of samples when there is none. */
  function FindSample(samples: seq<Sample>, id: int): (k: nat)
    ensures k <= |samples|
    ensures k < |samples| ==> samples[k].id == id
    ensures forall i :: 0 <= i < k ==> samples[i].id != id
  {
    if |samples| == 0 then 0 else if samples[0].id == id then 0 else 1 + FindSample(samples[1..], id)
  }

  /** The sample of an entry after the first pass: the selection flag and the cell concentration it sends. */
  function WithReadout(s: Sample, p: SamplePayload): (r: Sample)
    ensures r.id == s.id && r.sampleLabel == s.sampleLabel && r.virusVolumeUl == s.virusVolumeUl
    ensures r.selectionUsed == (if p.selectionUsed.Some? then Truthy(p.selectionUsed.value) else s.selectionUsed)
    ensures r.cellConcentration == (if ParseShorthandNumber(p.cellConcentration).Some? then ParseShorthandNumber(p.cellConcentration) else s.cellConcentration)
    ensures r.measuredPercent == s.measuredPercent && r.moi == s.moi && r.titerTuMl == s.titerTuMl
  {
    var selected := if p.selectionUsed.Some? then s.(selectionUsed := Truthy(p.selectionUsed.value)) else s;
    var conc := ParseShorthandNumber(p.cellConcentration);
    if conc.Some? then selected.(cellConcentration := conc) else selected
  }

  /** What the second pass needs of an entry: its sample, its parsed concentration and its raw percent. */
  datatype Pending = Pending(index: nat, cellConcentration: Option<real>, measuredPercent: PyValue)

  /** The state of the first pass: the samples as updated so far, the pending entries and the control candidate. */
  datatype Collected = Collected(samples: seq<Sample>, pending: seq<Pending>, candidate: Option<real>)

  /** The samples keep their identity: same ids, labels and virus volumes. */
  predicate SameRows(a: seq<Sample>, b: seq<Sample>) {
    && |a| == |b|
    && forall k :: 0 <= k < |a| ==> a[k].id == b[k].id && a[k].sampleLabel == b[k].sampleLabel && a[k].virusVolumeUl == b[k].virusVolumeUl
  }

  /** One entry of the first pass; `None` is the 404 for an id that is not a sample of the run. */
  function CollectStep(c: Collected, p: SamplePayload): Option<Collected> {
    var k := FindSample(c.samples, p.id);
    if k == |c.samples| then None
    else
      var s := WithReadout(c.samples[k], p);
      var conc := ParseShorthandNumber(p.cellConcentration);
      var candidate := if conc.Some? && !s.selectionUsed then conc else c.candidate;
      Some(Collected(c.samples[k := s], c.pending + [Pending(k, conc, p.measuredPercent)], candidate))
  }

  /** The first pass over the entries, in order. */
  function Collect(samples: seq<Sample>, payloads: seq<SamplePayload>): (r: Option<Collected>)
    ensures r.Some? ==>
      && SameRows(r.value.samples, samples)
      && |r.value.pending| == |payloads|
      && (forall j :: 0 <= j < |payloads| ==> r.value.pending[j].index < |samples|)
  {
    if |payloads| == 0 then Some(Collected(samples, [], None))
    else
      match Collect(samples, payloads[..|payloads| - 1])
      case None => None
      case Some(c) =>
        CollectStepKeepsRows(samples, c, payloads[|payloads| - 1]);
        CollectStep(c, payloads[|payloads| - 1])
  }

  /** One more entry keeps the rows and points its pending entry at one of them. */
  lemma CollectStepKeepsRows(samples: seq<Sample>, c: Collected, p: SamplePayload)
    requires SameRows(c.samples, samples)
    requires forall j :: 0 <= j < |c.pending| ==> c.pending[j].index < |samples|
    ensures CollectStep(c, p).Some? ==>
      && SameRows(CollectStep(c, p).value.samples, samples)
      && |CollectStep(c, p).value.pending| == |c.pending| + 1
      && (forall j :: 0 <= j < |c.pending| + 1 ==> CollectStep(c, p).value.pending[j].index < |samples|)
  {
    var k := FindSample(c.samples, p.id);
    if k < |c.samples| {
      var r := CollectStep(c, p).value;
      assert r.samples == c.samples[k := WithReadout(c.samples[k], p)];
      assert r.pending == c.pending + [Pending(k, ParseShorthandNumber(p.cellConcentration), p.measuredPercent)];
    }
  }

  // ------------------------------------------------ second pass: the scoring

  /** The percent to store and the surviving fraction it stands for. */
  datatype Reading = Reading(percent: real, survival: real)

  function Max(a: real, b: real): real {
    if a >= b then a else b
  }

  function Min(a: real, b: real): real {
    if a <= b then a else b
  }

  /** The cells counted in the measurement media at a concentration per mL. */
  function CellsIn(concentration: real, media: real): real {
    concentration * media
  }

  /**
   * The survival of an entry: its cells relative to the control cells when
   * both are known and the control is not zero, otherwise the percent it
   * sends, otherwise nothing.
   */
  function ReadingOf(conc: Option<real>, percent: PyValue, controlCells: Option<real>, media: real): (r: Option<Reading>)
    ensures conc.Some? && controlCells.Some? && controlCells.value != 0.0 ==>
      var survival := CellsIn(conc.value, media) / controlCells.value;
      r == Some(Reading(Max(0.0, survival * 100.0), survival))
    ensures !(conc.Some? && controlCells.Some? && controlCells.value != 0.0) ==>
      && (percent == PyNone ==> r.None?)
      && (percent != PyNone ==> (r.Some? <==> PyFloat(percent).Some?))
      && (percent != PyNone && r.Some? ==> r.value == Reading(PyFloat(percent).value, PyFloat(percent).value / 100.0))
  {
    if conc.Some? && controlCells.Some? && controlCells.value != 0.0 then
      var survival := CellsIn(conc.value, media) / controlCells.value;
      Some(Reading(Max(0.0, survival * 100.0), survival))
    else if percent != PyNone then
      match PyFloat(percent)
      case None => None
      case Some(p) => Some(Reading(p, p / 100.0))
    else None
  }

  /** The stored percent, MOI and titer of an entry. */
  datatype Scores = Scores(measuredPercent: Option<real>, moi: Option<real>, titerTuMl: Option<real>)

  /** `max(0, min(1, 1 - survival))`. */
  function InfectedFraction(survival: real): (f: real)
    ensures 0.0 <= f <= 1.0
    ensures 0.0 <= 1.0 - survival <= 1.0 ==> f == 1.0 - survival
    ensures survival <= 0.0 <==> f == 1.0
    ensures survival >= 1.0 <==> f == 0.0
  {
    Max(0.0, Min(1.0, 1.0 - survival))
  }

  /**
   * Scoring an entry: the percent rounded to two places, the MOI rounded to
   * four places unless infinite, the titer rounded to two places unless not
   * finite; all three are cleared without a reading.
   */
  function ScoreSample(reading: Option<Reading>, cells: real, virusVolumeUl: real, ln: real -> real): (r: Scores)
    ensures reading.None? ==> r == Scores(None, None, None)
    ensures reading.Some? ==>
      var moi := ComputeMoi(InfectedFraction(reading.value.survival), ln);
      var titer := ComputeTiter(cells, moi, virusVolumeUl);
      && r.measuredPercent == Some(PyRound(reading.value.percent, 2))
      && (r.moi.None? <==> reading.value.survival <= 0.0)
      && (r.moi.Some? ==> r.moi == Some(PyRound(moi.v, 4)))
      && (r.titerTuMl.None? <==> titer.NaN? || titer.PosInf? || titer.NegInf?)
      && (r.titerTuMl.Some? ==> r.titerTuMl == Some(PyRound(titer.v, 2)))
  {
    match reading
    case None => Scores(None, None, None)
    case Some(rd) =>
      var moi := ComputeMoi(InfectedFraction(rd.survival), ln);
      var titer := ComputeTiter(cells, moi, virusVolumeUl);
      Scores(Some(PyRound(rd.percent, 2)),
             if moi.Finite? then Some(PyRound(moi.v, 4)) else None,
             if titer.Finite? then Some(PyRound(titer.v, 2)) else None)
  }

  function WithScores(s: Sample, sc: Scores): Sample {
    s.(measuredPercent := sc.measuredPercent, moi := sc.moi, titerTuMl := sc.titerTuMl)
  }

  /** The fixed inputs of the second pass. */
  datatype ScoringContext = ScoringContext(controlCells: Option<real>, media: real, cells: real, ln: real -> real)

  /** The state of the second pass: the samples as scored so far and the serialised results. */
  datatype Scored = Scored(samples: seq<Sample>, updated: seq<Sample>)

  /** The scores of an entry for a sample with the given virus volume. */
  function EntryScores(e: Pending, virusVolumeUl: real, ctx: ScoringContext): Scores {
    ScoreSample(ReadingOf(e.cellConcentration, e.measuredPercent, ctx.controlCells, ctx.media), ctx.cells, virusVolumeUl, ctx.ln)
  }

  /** The sample of an entry once scored. */
  function ScoredSample(s: Sample, e: Pending, ctx: ScoringContext): Sample {
    WithScores(s, EntryScores(e, s.virusVolumeUl, ctx))
  }

  /** The second pass over the pending entries, in order. */
  function ScoreAll(samples: seq<Sample>, pending: seq<Pending>, ctx: ScoringContext): (r: Scored)
    requires forall j :: 0 <= j < |pending| ==> pending[j].index < |samples|
    ensures SameRows(r.samples, samples)
    ensures |r.updated| == |pending|
  {
    if |pending| == 0 then Scored(samples, [])
    else
      var front := pending[..|pending| - 1];
      var e := pending[|pending| - 1];
      assert forall j :: 0 <= j < |front| ==> front[j] == pending[j];
      var st := ScoreAll(samples, front, ctx);
      var s := ScoredSample(st.samples[e.index], e, ctx);
      Scored(st.samples[e.index := s], st.updated + [s])
  }

  /** `average_titer`: the rounded mean of the titers of the results, or nothing without any. */
  function AverageTiter(updated: seq<Sample>): (r: Option<int>)
    ensures r.None? <==> |Present(Titers(updated))| == 0
    ensures r.Some? ==> r == RoundTiterAverage(Some(Mean(Present(Titers(updated)))))
  {
    var titers := Present(Titers(updated));
    if |titers| == 0 then None else RoundTiterAverage(Some(Sum(titers) / |titers| as real))
  }

  /** `run.measurement_media_ml or 1.0`. */
  function MediaOrOne(media: Option<real>): (m: real)
    ensures m != 0.0
    ensures media.Some? && media.value != 0.0 ==> m == media.value
  {
    if media.Some? && media.value != 0.0 then media.value else 1.0
  }

  /** A value sent in the payload replaces the stored one; a missing or unreadable one keeps it. */
  function Override(sent: PyValue, stored: Option<real>): (r: Option<real>)
    ensures ParseShorthandNumber(sent).Some? ==> r == ParseShorthandNumber(sent)
    ensures ParseShorthandNumber(sent).None? ==> r == stored
  {
    var v := ParseShorthandNumber(sent);
    if v.Some? then v else stored
  }

  /** The control concentration after the first pass: the stored one, or else the candidate. */
  function ChosenControl(stored: Option<real>, candidate: Option<real>): Option<real> {
    if stored.None? && candidate.Some? then candidate else stored
  }

  function ControlCells(control: Option<real>, media: real): Option<real> {
    if control.Some? then Some(CellsIn(control.value, media)) else None
  }

  /** The run afterwards and the response. */
  datatype Outcome = Outcome(run: TiterRun, response: Response)

  /**
   * The whole request on the values of the run: `None` when an entry names a
   * sample that is not part of the run.
   */
  function RecordResults(run: TiterRun, data: ResultsPayload, ln: real -> real): (r: Option<Outcome>)
    ensures r.Some? <==> Collect(run.samples, data.samples).Some?
  {
    var media := Override(data.measurementMediaMl, run.measurementMediaMl);
    var stored := Override(data.controlCellConcentration, run.controlCellConcentration);
    match Collect(run.samples, data.samples)
    case None => None
    case Some(c) =>
      var control := ChosenControl(stored, c.candidate);
      var factor := MediaOrOne(media);
      var ctx := ScoringContext(ControlCells(control, factor), factor, run.cellsSeeded, ln);
      var scored := ScoreAll(c.samples, c.pending, ctx);
      var after := run.(measurementMediaMl := media, controlCellConcentration := control, samples := scored.samples);
      Some(Outcome(after, Response(scored.updated, AverageTiter(scored.updated), control, media)))
  }

  /**
   * The run keeps its identity and its samples; the response has one sample
   * per entry, the average of their titers, and the run-level values the run
   * now stores.
   */
  lemma RecordResultsShape(run: TiterRun, data: ResultsPayload, ln: real -> real)
    requires RecordResults(run, data, ln).Some?
    ensures var o := RecordResults(run, data, ln).value;
      && o.run.id == run.id && o.run.createdAt == run.createdAt && o.run.cellsSeeded == run.cellsSeeded
      && SameRows(o.run.samples, run.samples)
      && |o.response.samples| == |data.samples|
      && o.response.averageTiter == AverageTiter(o.response.samples)
      && o.response.measurementMediaMl == o.run.measurementMediaMl
      && o.response.controlCellConcentration == o.run.controlCellConcentration
      && o.run.measurementMediaMl == Override(data.measurementMediaMl, run.measurementMediaMl)
  {
  }

  // --------------------------------------------------------------- properties

  /**
   * The measurement media cancels: the survival of an entry is its own cell
   * concentration over the control's, whatever the media volume.
   */
  lemma MediaCancels(conc: real, control: real, media: real, percent: PyValue)
    requires control != 0.0 && media != 0.0
    ensures ReadingOf(Some(conc), percent, ControlCells(Some(control), media), media)
         == Some(Reading(Max(0.0, conc / control * 100.0), conc / control))
  {
    MulNonZero(control, media);
    DivCancel(conc, media, control);
    assert CellsIn(conc, media) / CellsIn(control, media) == conc / control by {
      assert CellsIn(conc, media) == media * conc && CellsIn(control, media) == media * control;
    }
  }

  /** Without a usable control the entry's percent is used; with neither, the entry has no reading. */
  lemma ReadingWithoutControl(conc: Option<real>, p: real, media: real)
    ensures ReadingOf(conc, PyNum(p), None, media) == Some(Reading(p, p / 100.0))
    ensures ReadingOf(conc, PyNum(p), Some(0.0), media) == Some(Reading(p, p / 100.0))
    ensures ReadingOf(None, PyNone, Some(1.0), media).None?
  {
  }

  /** The stored MOI and titer are never negative for non-negative cell counts and volumes. */
  lemma ScoresNonNegative(reading: Option<Reading>, cells: real, virusVolumeUl: real, ln: real -> real)
    requires IsNaturalLog(ln)
    requires cells >= 0.0 && virusVolumeUl >= 0.0
    ensures var sc := ScoreSample(reading, cells, virusVolumeUl, ln);
      && (sc.moi.Some? ==> sc.moi.value >= 0.0)
      && (sc.titerTuMl.Some? ==> sc.titerTuMl.value >= 0.0)
  {
    if reading.Some? {
      var f := InfectedFraction(reading.value.survival);
      var moi := ComputeMoi(f, ln);
      if moi.Finite? {
        if f < 1.0 {
          MoiNonNegative(f, ln);
        }
        PyRoundNonNegative(moi.v, 4);
        var titer := ComputeTiter(cells, moi, virusVolumeUl);
        if virusVolumeUl > 0.0 {
          assert titer.v * virusVolumeUl == cells * moi.v * 1000.0;
          assert cells * moi.v * 1000.0 >= 0.0;
          assert titer.v >= 0.0;
        }
        PyRoundNonNegative(titer.v, 2);
      } else {
        var titer := ComputeTiter(cells, moi, virusVolumeUl);
        if titer.Finite? {
          PyRoundNonNegative(titer.v, 2);
        }
      }
    }
  }

  /**
   * A well with no virus volume whose cells all died has no MOI, yet its
   * titer is stored as zero, because the zero-volume case of the titer
   * formula comes before the infinite MOI.
   */
  lemma ZeroVolumeFullKill(percent: real, survival: real, cells: real, ln: real -> real)
    requires survival <= 0.0
    ensures ScoreSample(Some(Reading(percent, survival)), cells, 0.0, ln).moi.None?
    ensures ScoreSample(Some(Reading(percent, survival)), cells, 0.0, ln).titerTuMl == Some(0.0)
  {
    assert PyRound(0.0, 2) == 0.0 by {
      RoundToScaleWhole(0.0, Pow10(2) as real);
    }
  }

  /** The ids of a run's samples are distinct, as primary keys are. */
  predicate UniqueSampleIds(samples: seq<Sample>) {
    forall i, j :: 0 <= i < j < |samples| ==> samples[i].id != samples[j].id
  }

  lemma {:induction false} FindSampleSameRows(a: seq<Sample>, b: seq<Sample>, id: int)
    requires SameRows(a, b)
    ensures FindSample(a, id) == FindSample(b, id)
  {
    if |a| > 0 && a[0].id != id {
      assert SameRows(a[1..], b[1..]);
      FindSampleSameRows(a[1..], b[1..], id);
    }
  }

  /** Every entry of a successful first pass names a sample, found by its id. */
  lemma {:induction false} CollectFindsAll(samples: seq<Sample>, payloads: seq<SamplePayload>)
    requires Collect(samples, payloads).Some?
    ensures forall j :: 0 <= j < |payloads| ==>
      Collect(samples, payloads).value.pending[j].index == FindSample(samples, payloads[j].id)
    ensures forall j :: 0 <= j < |payloads| ==> FindSample(samples, payloads[j].id) < |samples|
    ensures forall j :: 0 <= j < |payloads| ==>
      && Collect(samples, payloads).value.pending[j].cellConcentration == ParseShorthandNumber(payloads[j].cellConcentration)
      && Collect(samples, payloads).value.pending[j].measuredPercent == payloads[j].measuredPercent
  {
    if |payloads| > 0 {
      var n := |payloads| - 1;
      var front := payloads[..n];
      var p := payloads[n];
      CollectFindsAll(samples, front);
      var c := Collect(samples, front).value;
      CollectStepPending(c, p);
      FindSampleSameRows(c.samples, samples, p.id);
      var pending := Collect(samples, payloads).value.pending;
      assert pending == c.pending + [Pending(FindSample(samples, p.id), ParseShorthandNumber(p.cellConcentration), p.measuredPercent)];
      forall j | 0 <= j < |payloads|
        ensures pending[j].index == FindSample(samples, payloads[j].id)
        ensures pending[j].cellConcentration == ParseShorthandNumber(payloads[j].cellConcentration)
        ensures pending[j].measuredPercent == payloads[j].measuredPercent
      {
        if j < n {
          assert payloads[j] == front[j];
        }
      }
    }
  }

  /** Conversely, the first pass succeeds when every entry names a sample. */
  lemma {:induction false} CollectWhenAllFound(samples: seq<Sample>, payloads: seq<SamplePayload>)
    requires forall j :: 0 <= j < |payloads| ==> FindSample(samples, payloads[j].id) < |samples|
    ensures Collect(samples, payloads).Some?
  {
    if |payloads| > 0 {
      var n := |payloads| - 1;
      var front := payloads[..n];
      var p := payloads[n];
      assert forall j :: 0 <= j < n ==> front[j] == payloads[j];
      CollectWhenAllFound(samples, front);
      var c := Collect(samples, front).value;
      assert SameRows(c.samples, samples);
      FindSampleSameRows(c.samples, samples, p.id);
      assert FindSample(c.samples, p.id) < |c.samples|;
      assert Collect(samples, payloads) == CollectStep(c, p);
    }
  }

  /** The request succeeds exactly when every entry names a sample of the run; otherwise it is the 404. */
  lemma RecordResultsFound(run: TiterRun, data: ResultsPayload, ln: real -> real)
    ensures RecordResults(run, data, ln).Some? <==>
      forall j :: 0 <= j < |data.samples| ==> FindSample(run.samples, data.samples[j].id) < |run.samples|
  {
    if forall j :: 0 <= j < |data.samples| ==> FindSample(run.samples, data.samples[j].id) < |run.samples| {
      CollectWhenAllFound(run.samples, data.samples);
    }
    if Collect(run.samples, data.samples).Some? {
      CollectFindsAll(run.samples, data.samples);
    }
  }

  lemma CollectStepPending(c: Collected, p: SamplePayload)
    requires CollectStep(c, p).Some?
    ensures CollectStep(c, p).value.pending
         == c.pending + [Pending(FindSample(c.samples, p.id), ParseShorthandNumber(p.cellConcentration), p.measuredPercent)]
  {
  }

  /** The selection flag of a sample after some entries: the last one any entry for it sends, else the stored one. */
  function SelectionAfter(stored: bool, id: int, payloads: seq<SamplePayload>): bool {
    if |payloads| == 0 then stored
    else
      var p := payloads[|payloads| - 1];
      if p.id == id && p.selectionUsed.Some? then Truthy(p.selectionUsed.value)
      else SelectionAfter(stored, id, payloads[..|payloads| - 1])
  }

  /** The first pass leaves each sample with the selection flag its entries last sent. */
  lemma {:induction false} CollectSelection(samples: seq<Sample>, payloads: seq<SamplePayload>, k: nat)
    requires UniqueSampleIds(samples)
    requires Collect(samples, payloads).Some? && k < |samples|
    ensures Collect(samples, payloads).value.samples[k].selectionUsed
         == SelectionAfter(samples[k].selectionUsed, samples[k].id, payloads)
  {
    if |payloads| > 0 {
      var n := |payloads| - 1;
      var p := payloads[n];
      CollectSelection(samples, payloads[..n], k);
      var c := Collect(samples, payloads[..n]).value;
      FindSampleSameRows(c.samples, samples, p.id);
    }
  }

  /** The cell concentration of a sample after some entries: the last one any entry for it sends that parses, else the stored one. */
  function ConcentrationAfter(stored: Option<real>, id: int, payloads: seq<SamplePayload>): Option<real> {
    if |payloads| == 0 then stored
    else
      var p := payloads[|payloads| - 1];
      if p.id == id && ParseShorthandNumber(p.cellConcentration).Some? then ParseShorthandNumber(p.cellConcentration)
      else ConcentrationAfter(stored, id, payloads[..|payloads| - 1])
  }

  /** The first pass leaves each sample with the cell concentration its entries last sent. */
  lemma {:induction false} CollectConcentration(samples: seq<Sample>, payloads: seq<SamplePayload>, k: nat)
    requires UniqueSampleIds(samples)
    requires Collect(samples, payloads).Some? && k < |samples|
    ensures Collect(samples, payloads).value.samples[k].cellConcentration
         == ConcentrationAfter(samples[k].cellConcentration, samples[k].id, payloads)
  {
    if |payloads| > 0 {
      var n := |payloads| - 1;
      var p := payloads[n];
      CollectConcentration(samples, payloads[..n], k);
      var c := Collect(samples, payloads[..n]).value;
      FindSampleSameRows(c.samples, samples, p.id);
    }
  }

  /**
   * The control candidate of a payload: the concentration of the last entry
   * that sends one for a sample whose selection is then off.
   */
  function LastControlCandidate(samples: seq<Sample>, payloads: seq<SamplePayload>): Option<real>
    requires forall j :: 0 <= j < |payloads| ==> FindSample(samples, payloads[j].id) < |samples|
  {
    if |payloads| == 0 then None
    else
      var p := payloads[|payloads| - 1];
      var conc := ParseShorthandNumber(p.cellConcentration);
      var s := samples[FindSample(samples, p.id)];
      if conc.Some? && !SelectionAfter(s.selectionUsed, p.id, payloads) then conc
      else LastControlCandidate(samples, payloads[..|payloads| - 1])
  }

  /** The first pass picks as control candidate the one `LastControlCandidate` describes. */
  lemma {:induction false} ControlCandidateIsLast(samples: seq<Sample>, payloads: seq<SamplePayload>)
    requires UniqueSampleIds(samples)
    requires Collect(samples, payloads).Some?
    ensures forall j :: 0 <= j < |payloads| ==> FindSample(samples, payloads[j].id) < |samples|
    ensures Collect(samples, payloads).value.candidate == LastControlCandidate(samples, payloads)
  {
    CollectFindsAll(samples, payloads);
    if |payloads| > 0 {
      var n := |payloads| - 1;
      var p := payloads[n];
      ControlCandidateIsLast(samples, payloads[..n]);
      var c := Collect(samples, payloads[..n]).value;
      FindSampleSameRows(c.samples, samples, p.id);
      var k := FindSample(samples, p.id);
      CollectSelection(samples, payloads, k);
    }
  }

  /** Entries for other ids leave a sample as it was in the first pass. */
  lemma {:induction false} CollectKeepsUnnamed(samples: seq<Sample>, payloads: seq<SamplePayload>, k: nat)
    requires Collect(samples, payloads).Some? && k < |samples|
    requires forall j :: 0 <= j < |payloads| ==> payloads[j].id != samples[k].id
    ensures Collect(samples, payloads).value.samples[k] == samples[k]
    ensures forall j :: 0 <= j < |payloads| ==> Collect(samples, payloads).value.pending[j].index != k
  {
    if |payloads| > 0 {
      var n := |payloads| - 1;
      CollectKeepsUnnamed(samples, payloads[..n], k);
      var c := Collect(samples, payloads[..n]).value;
      var r := Collect(samples, payloads).value;
      assert FindSample(c.samples, payloads[n].id) != k;
      forall j | 0 <= j < |payloads| ensures r.pending[j].index != k {
        if j < n {
          assert r.pending[j] == c.pending[j];
        }
      }
    }
  }

  /**
   * The `j`-th serialised result is the sample entry `j` names, scored from
   * that entry's own concentration and percent and the sample's virus volume.
   */
  lemma {:induction false} ScoreAllEntry(samples: seq<Sample>, pending: seq<Pending>, ctx: ScoringContext, j: nat)
    requires forall i :: 0 <= i < |pending| ==> pending[i].index < |samples|
    requires j < |pending|
    ensures var u := ScoreAll(samples, pending, ctx).updated[j];
      var s := samples[pending[j].index];
      var sc := EntryScores(pending[j], s.virusVolumeUl, ctx);
      && u.id == s.id && u.sampleLabel == s.sampleLabel && u.virusVolumeUl == s.virusVolumeUl
      && u.measuredPercent == sc.measuredPercent && u.moi == sc.moi && u.titerTuMl == sc.titerTuMl
  {
    var n := |pending| - 1;
    var front := pending[..n];
    assert forall i :: 0 <= i < n ==> front[i] == pending[i];
    var st := ScoreAll(samples, front, ctx);
    var e := pending[n];
    if j == n {
      var u := ScoredSample(st.samples[e.index], e, ctx);
      assert ScoreAll(samples, pending, ctx).updated[j] == u;
      assert st.samples[e.index].virusVolumeUl == samples[e.index].virusVolumeUl;
      assert u == WithScores(st.samples[e.index], EntryScores(e, st.samples[e.index].virusVolumeUl, ctx));
    } else {
      assert ScoreAll(samples, pending, ctx).updated[j] == st.updated[j];
      ScoreAllEntry(samples, front, ctx, j);
    }
  }

  /** Scoring touches only the samples of the pending entries. */
  lemma {:induction false} ScoreAllKeepsUnpending(samples: seq<Sample>, pending: seq<Pending>, ctx: ScoringContext, k: nat)
    requires forall j :: 0 <= j < |pending| ==> pending[j].index < |samples|
    requires k < |samples|
    requires forall j :: 0 <= j < |pending| ==> pending[j].index != k
    ensures ScoreAll(samples, pending, ctx).samples[k] == samples[k]
  {
    if |pending| > 0 {
      var front := pending[..|pending| - 1];
      assert forall j :: 0 <= j < |front| ==> front[j] == pending[j];
      ScoreAllKeepsUnpending(samples, front, ctx, k);
    }
  }

  /** A sample that no entry names leaves the request unchanged. */
  lemma UnnamedSampleUnchanged(run: TiterRun, data: ResultsPayload, ln: real -> real, k: nat)
    requires RecordResults(run, data, ln).Some? && k < |run.samples|
    requires forall j :: 0 <= j < |data.samples| ==> data.samples[j].id != run.samples[k].id
    ensures RecordResults(run, data, ln).value.run.samples[k] == run.samples[k]
  {
    CollectKeepsUnnamed(run.samples, data.samples, k);
    var c := Collect(run.samples, data.samples).value;
    var media := Override(data.measurementMediaMl, run.measurementMediaMl);
    var control := ChosenControl(Override(data.controlCellConcentration, run.controlCellConcentration), c.candidate);
    var factor := MediaOrOne(media);
    var ctx := ScoringContext(ControlCells(control, factor), factor, run.cellsSeeded, ln);
    ScoreAllKeepsUnpending(c.samples, c.pending, ctx, k);
    RecordResultsOf(run, data, ln, c);
  }

  /** The stored control is kept; only a run without one takes the candidate. */
  lemma StoredControlWins(run: TiterRun, data: ResultsPayload, ln: real -> real)
    requires RecordResults(run, data, ln).Some?
    ensures var stored := Override(data.controlCellConcentration, run.controlCellConcentration);
      var c := Collect(run.samples, data.samples).value;
      RecordResults(run, data, ln).value.run.controlCellConcentration == (if stored.Some? then stored else c.candidate)
  {
  }

  /** The reported average lies within half a rounding step of the range of the results' titers. */
  lemma AverageTiterBounds(updated: seq<Sample>, lo: real, hi: real)
    requires |Present(Titers(updated))| > 0
    requires forall i :: 0 <= i < |Present(Titers(updated))| ==> lo <= Present(Titers(updated))[i] <= hi
    ensures var m := Mean(Present(Titers(updated)));
      && AverageTiter(updated).Some?
      && (m != 0.0 ==>
            var half := Pow10(TiterMagnitude(m)) as real / 2.0;
            lo - half <= AverageTiter(updated).value as real <= hi + half)
  {
    var ts := Present(Titers(updated));
    MeanBounds(ts, lo, hi);
    RoundedAverageBounds(Mean(ts), lo, hi);
  }

  // ----------------------------------------------------------- the ORM rows

  /** A stored titer sample, whose readout columns the request updates in place. */
  class SampleRow {
    const id: int
    const sampleLabel: string
    const virusVolumeUl: real
    var selectionUsed: bool
    var measuredPercent: Option<real>
    var moi: Option<real>
    var titerTuMl: Option<real>
    var cellConcentration: Option<real>

    /** A new sample as the titer-run route creates it: no readout yet. */
    constructor (id: int, sampleLabel: string, virusVolumeUl: real, selectionUsed: bool)
      ensures ToDict() == Sample(id, sampleLabel, virusVolumeUl, selectionUsed, None, None, None, None)
    {
      this.id := id;
      this.sampleLabel := sampleLabel;
      this.virusVolumeUl := virusVolumeUl;
      this.selectionUsed := selectionUsed;
      this.measuredPercent := None;
      this.moi := None;
      this.titerTuMl := None;
      this.cellConcentration := None;
    }

    /** `to_dict`: the row's columns as a value. */
    function ToDict(): Sample
      reads this
    {
      Sample(id, sampleLabel, virusVolumeUl, selectionUsed, measuredPercent, moi, titerTuMl, cellConcentration)
    }

    /** The first-pass updates of one entry. */
    method ApplyReadout(p: SamplePayload)
      modifies this
      ensures ToDict() == WithReadout(old(ToDict()), p)
    {
      if p.selectionUsed.Some? {
        selectionUsed := Truthy(p.selectionUsed.value);
      }
      var conc := ParseShorthandNumber(p.cellConcentration);
      if conc.Some? {
        cellConcentration := conc;
      }
    }

    /** The second-pass updates of one entry. */
    method Score(e: Pending, ctx: ScoringContext)
      modifies this
      ensures ToDict() == ScoredSample(old(ToDict()), e, ctx)
    {
      var reading := ReadingOf(e.cellConcentration, e.measuredPercent, ctx.controlCells, ctx.media);
      var sc := ScoreSample(reading, ctx.cells, virusVolumeUl, ctx.ln);
      measuredPercent := sc.measuredPercent;
      moi := sc.moi;
      titerTuMl := sc.titerTuMl;
    }
  }

  /** The values of some rows, in order. */
  function Snapshots(rows: seq<SampleRow>): (r: seq<Sample>)
    reads rows
    ensures |r| == |rows| && forall k :: 0 <= k < |rows| ==> r[k] == rows[k].ToDict()
  {
    seq(|rows|, k reads rows requires 0 <= k < |rows| => rows[k].ToDict())
  }

  /** A stored titer run with its sample rows. */
  class RunRow {
    const id: int
    const createdAt: int
    const cellsSeeded: real
    var measurementMediaMl: Option<real>
    var controlCellConcentration: Option<real>
    const samples: seq<SampleRow>

    constructor (id: int, createdAt: int, cellsSeeded: real, measurementMediaMl: Option<real>,
                 controlCellConcentration: Option<real>, samples: seq<SampleRow>)
      ensures this.id == id && this.createdAt == createdAt && this.cellsSeeded == cellsSeeded
      ensures this.measurementMediaMl == measurementMediaMl && this.controlCellConcentration == controlCellConcentration
      ensures this.samples == samples
    {
      this.id := id;
      this.createdAt := createdAt;
      this.cellsSeeded := cellsSeeded;
      this.measurementMediaMl := measurementMediaMl;
      this.controlCellConcentration := controlCellConcentration;
      this.samples := samples;
    }

    /** Each row is its own object, as the session's identity map guarantees. */
    ghost predicate Valid()
      reads this
    {
      Distinct(samples)
    }

    /** The run's columns and its samples as a value. */
    function Snapshot(): TiterRun
      reads this, samples
    {
      TiterRun(id, createdAt, cellsSeeded, measurementMediaMl, controlCellConcentration, Snapshots(samples))
    }
  }

  lemma CollectNoneStays(samples: seq<Sample>, payloads: seq<SamplePayload>, i: nat)
    requires i < |payloads|
    requires Collect(samples, payloads[..i + 1]).None?
    ensures Collect(samples, payloads).None?
    decreases |payloads| - i
  {
    if i + 1 < |payloads| {
      assert payloads[..i + 2][..i + 1] == payloads[..i + 1];
      CollectNoneStays(samples, payloads, i + 1);
    } else {
      assert payloads[..i + 1] == payloads;
    }
  }

  /** No row appears twice. */
  predicate Distinct(rows: seq<SampleRow>) {
    forall i, j :: 0 <= i < j < |rows| ==> rows[i] != rows[j]
  }

  /** The first pass after one more entry. */
  lemma CollectSnoc(samples: seq<Sample>, payloads: seq<SamplePayload>, i: nat)
    requires i < |payloads|
    ensures Collect(samples, payloads[..i + 1]) ==
      if Collect(samples, payloads[..i]).None? then None else CollectStep(Collect(samples, payloads[..i]).value, payloads[i])
  {
    assert payloads[..i + 1][..i] == payloads[..i];
  }

  /** The second pass after one more pending entry. */
  lemma ScoreAllSnoc(samples: seq<Sample>, pending: seq<Pending>, ctx: ScoringContext, j: nat)
    requires j < |pending|
    requires forall i :: 0 <= i < |pending| ==> pending[i].index < |samples|
    ensures var st := ScoreAll(samples, pending[..j], ctx);
      var e := pending[j];
      var s := ScoredSample(st.samples[e.index], e, ctx);
      ScoreAll(samples, pending[..j + 1], ctx) == Scored(st.samples[e.index := s], st.updated + [s])
  {
    assert pending[..j + 1][..j] == pending[..j];
  }

  /** Apply one entry's readout to row `k`; the other rows are untouched. */
  method ReadOneRow(rows: seq<SampleRow>, k: nat, p: SamplePayload)
    requires Distinct(rows) && k < |rows|
    modifies rows[k]
    ensures Snapshots(rows) == old(Snapshots(rows))[k := WithReadout(old(Snapshots(rows))[k], p)]
  {
    ghost var before := Snapshots(rows);
    rows[k].ApplyReadout(p);
    assert forall i :: 0 <= i < |rows| && i != k ==> rows[i].ToDict() == before[i];
  }

  /** Score row `e.index` for one pending entry; the other rows are untouched. */
  method ScoreOneRow(rows: seq<SampleRow>, e: Pending, ctx: ScoringContext)
    requires Distinct(rows) && e.index < |rows|
    modifies rows[e.index]
    ensures Snapshots(rows) == old(Snapshots(rows))[e.index := ScoredSample(old(Snapshots(rows))[e.index], e, ctx)]
  {
    ghost var before := Snapshots(rows);
    rows[e.index].Score(e, ctx);
    assert forall i :: 0 <= i < |rows| && i != e.index ==> rows[i].ToDict() == before[i];
  }

  /** The first loop of the route: apply each entry's readout to its row. */
  method ReadOut(rows: seq<SampleRow>, payloads: seq<SamplePayload>) returns (found: bool, pending: seq<Pending>, candidate: Option<real>)
    requires Distinct(rows)
    modifies rows
    ensures found <==> Collect(old(Snapshots(rows)), payloads).Some?
    ensures found ==> Collect(old(Snapshots(rows)), payloads) == Some(Collected(Snapshots(rows), pending, candidate))
  {
    ghost var start := Snapshots(rows);
    pending := [];
    candidate := None;
    var i := 0;
    while i < |payloads|
      invariant 0 <= i <= |payloads|
      invariant Collect(start, payloads[..i]) == Some(Collected(Snapshots(rows), pending, candidate))
    {
      var p := payloads[i];
      ghost var c := Collected(Snapshots(rows), pending, candidate);
      CollectSnoc(start, payloads, i);
      var k := FindSample(Snapshots(rows), p.id);
      if k == |rows| {
        CollectNoneStays(start, payloads, i);
        return false, pending, candidate;
      }
      ReadOneRow(rows, k, p);
      var conc := ParseShorthandNumber(p.cellConcentration);
      if conc.Some? && !rows[k].selectionUsed {
        candidate := conc;
      }
      pending := pending + [Pending(k, conc, p.measuredPercent)];
      assert CollectStep(c, p) == Some(Collected(Snapshots(rows), pending, candidate));
      i := i + 1;
    }
    assert payloads[..i] == payloads;
    found := true;
  }

  /** The second loop of the route: score each pending entry's row and serialise it. */
  method ScoreRows(rows: seq<SampleRow>, pending: seq<Pending>, ctx: ScoringContext) returns (updated: seq<Sample>)
    requires Distinct(rows)
    requires forall j :: 0 <= j < |pending| ==> pending[j].index < |rows|
    modifies rows
    ensures ScoreAll(old(Snapshots(rows)), pending, ctx) == Scored(Snapshots(rows), updated)
  {
    ghost var start := Snapshots(rows);
    updated := [];
    var j := 0;
    while j < |pending|
      invariant 0 <= j <= |pending|
      invariant ScoreAll(start, pending[..j], ctx) == Scored(Snapshots(rows), updated)
    {
      var e := pending[j];
      ScoreAllSnoc(start, pending, ctx, j);
      ScoreOneRow(rows, e, ctx);
      updated := updated + [rows[e.index].ToDict()];
      j := j + 1;
    }
    assert pending[..j] == pending;
  }

  /**
   * `titer_results_endpoint` on the stored rows: `None` is the 404 for an
   * unknown sample id, after which the session is discarded. Otherwise the
   * run and its rows end up as `RecordResults` describes and the response is
   * the one it computes. The route assigns the run's two columns before its
   * loops; between the two, only the media factor and the control check
   * read them, and here those read the locals `media` and `control`, so
   * writing the columns after the loops gives the same run.
   */
  method RecordTiterResults(run: RunRow, data: ResultsPayload, ln: real -> real) returns (r: Option<Response>)
    requires run.Valid()
    modifies run, run.samples
    ensures var outcome := RecordResults(old(run.Snapshot()), data, ln);
      && (r.None? <==> outcome.None?)
      && (r.Some? ==> r.value == outcome.value.response && run.Snapshot() == outcome.value.run)
  {
    ghost var start := run.Snapshot();
    var media := Override(data.measurementMediaMl, run.measurementMediaMl);
    var control := Override(data.controlCellConcentration, run.controlCellConcentration);
    var found, pending, candidate := ReadOut(run.samples, data.samples);
    if !found {
      return None;
    }
    ghost var c := Collected(Snapshots(run.samples), pending, candidate);
    RecordResultsOf(start, data, ln, c);
    if control.None? && candidate.Some? {
      control := candidate;
    }
    var factor := MediaOrOne(media);
    var updated := ScoreRows(run.samples, pending, ScoringContext(ControlCells(control, factor), factor, run.cellsSeeded, ln));
    ghost var rows := Snapshots(run.samples);
    run.measurementMediaMl := media;
    run.controlCellConcentration := control;
    assert Snapshots(run.samples) == rows;
    r := Some(Response(updated, AverageTiter(updated), control, media));
  }

  /** `RecordResults` once the first pass is known to succeed. */
  lemma RecordResultsOf(run: TiterRun, data: ResultsPayload, ln: real -> real, c: Collected)
    requires Collect(run.samples, data.samples) == Some(c)
    ensures var media := Override(data.measurementMediaMl, run.measurementMediaMl);
      var control := ChosenControl(Override(data.controlCellConcentration, run.controlCellConcentration), c.candidate);
      var factor := MediaOrOne(media);
      var scored := ScoreAll(c.samples, c.pending, ScoringContext(ControlCells(control, factor), factor, run.cellsSeeded, ln));
      RecordResults(run, data, ln) == Some(Outcome(
        run.(measurementMediaMl := media, controlCellConcentration := control, samples := scored.samples),
        Response(scored.updated, AverageTiter(scored.updated), control, media)))
  {
  }
}
