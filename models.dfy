/**
 * The stored entities of the tracker and the summaries derived from them when
 * they are serialised: per-prep status flags, the latest titer summary and
 * the experiment aggregates.
 */
module Models {
  import opened Wrappers
  import opened Numeric
  import opened Utils

  /** One well of a titer run. */
  datatype Sample = Sample(
    id: int,
    sampleLabel: string,
    virusVolumeUl: real,
    selectionUsed: bool,
    measuredPercent: Option<real>,
    moi: Option<real>,
    titerTuMl: Option<real>,
    cellConcentration: Option<real>)

  /** A titer run; `createdAt` is its creation timestamp, as a number that orders runs. */
  datatype TiterRun = TiterRun(
    id: int,
    createdAt: int,
    cellsSeeded: real,
    measurementMediaMl: Option<real>,
    controlCellConcentration: Option<real>,
    samples: seq<Sample>)

  datatype Transfection = Transfection(id: int, vesselType: string, ratioMode: string)
  datatype MediaChange = MediaChange(id: int, mediaType: string, volumeMl: real)
  datatype Harvest = Harvest(id: int, harvestDate: Option<string>, volumeMl: Option<real>)

  /** A lentivirus preparation with its optional workflow steps and its titer runs. */
  datatype Prep = Prep(
    id: int,
    transferName: string,
    transferConcentration: Option<real>,
    plateCount: Option<int>,
    transfection: Option<Transfection>,
    mediaChange: Option<MediaChange>,
    harvest: Option<Harvest>,
    titerRuns: seq<TiterRun>)

  datatype Experiment = Experiment(
    id: int,
    name: string,
    status: string,
    cellLine: string,
    vesselType: string,
    vesselsSeeded: Option<int>,
    preps: seq<Prep>)

  // ------------------------------------------------------------ status flags

  datatype PrepStatus = PrepStatus(logged: bool, transfected: bool, mediaChanged: bool, harvested: bool, titered: bool)

  /** The `status` block of a serialised prep: one flag per workflow step. */
  function Status(p: Prep): (s: PrepStatus)
    ensures s.logged
    ensures s.transfected <==> p.transfection.Some?
    ensures s.mediaChanged <==> p.mediaChange.Some?
    ensures s.harvested <==> p.harvest.Some?
    ensures s.titered <==> |p.titerRuns| > 0
  {
    PrepStatus(true, p.transfection.Some?, p.mediaChange.Some?, p.harvest.Some?, |p.titerRuns| > 0)
  }

  // ------------------------------------------------------------ titer summary

  /** The recorded values, in order, skipping the missing ones. */
  function Present<T>(xs: seq<Option<T>>): (vs: seq<T>)
    ensures |vs| <= |xs|
    ensures |vs| == 0 <==> forall i :: 0 <= i < |xs| ==> xs[i].None?
    ensures forall j :: 0 <= j < |vs| ==> Some(vs[j]) in xs
    ensures forall i :: 0 <= i < |xs| && xs[i].Some? ==> xs[i].value in vs
  {
    if |xs| == 0 then []
    else
      var rest := Present(xs[..|xs| - 1]);
      var last := xs[|xs| - 1];
      assert xs == xs[..|xs| - 1] + [last];
      if last.Some? then rest + [last.value] else rest
  }

  /** The titers recorded on some samples. */
  function Titers(samples: seq<Sample>): seq<Option<real>> {
    seq(|samples|, i requires 0 <= i < |samples| => samples[i].titerTuMl)
  }

  /**
   * The run `max(runs, key=created_at)` picks: the latest one, and of several
   * equally late runs the first.
   */
  function LatestRunIndex(runs: seq<TiterRun>): (k: nat)
    requires |runs| > 0
    ensures k < |runs|
    ensures forall j :: 0 <= j < |runs| ==> runs[j].createdAt <= runs[k].createdAt
    ensures forall j :: 0 <= j < k ==> runs[j].createdAt < runs[k].createdAt
  {
    if |runs| == 1 then 0
    else
      var k := LatestRunIndex(runs[..|runs| - 1]);
      if runs[|runs| - 1].createdAt > runs[k].createdAt then |runs| - 1 else k
  }

  datatype TiterSummary = TiterSummary(
    prepId: int,
    transferName: string,
    averageTiter: Option<int>,
    runId: int,
    runCreatedAt: int)

  /** The titers recorded in a prep's latest run. */
  function LatestTiters(p: Prep): seq<real>
    requires |p.titerRuns| > 0
  {
    Present(Titers(p.titerRuns[LatestRunIndex(p.titerRuns)].samples))
  }

  /**
   * `latest_titer_summary`: nothing without runs or when the latest run has no
   * titer; otherwise the rounded mean titer of the latest run.
   */
  function LatestTiterSummary(p: Prep): (r: Option<TiterSummary>)
    ensures |p.titerRuns| == 0 ==> r.None?
    ensures |p.titerRuns| > 0 ==>
      var latest := p.titerRuns[LatestRunIndex(p.titerRuns)];
      var titers := LatestTiters(p);
      && (r.Some? <==> |titers| > 0)
      && (r.Some? ==>
            && r.value.prepId == p.id && r.value.transferName == p.transferName
            && r.value.runId == latest.id && r.value.runCreatedAt == latest.createdAt
            && r.value.averageTiter == RoundTiterAverage(Some(Mean(titers))))
  {
    if |p.titerRuns| == 0 then None
    else
      var latest := p.titerRuns[LatestRunIndex(p.titerRuns)];
      var titers := LatestTiters(p);
      if |titers| == 0 then None
      else
        var average := RoundTiterAverage(Some(Sum(titers) / |titers| as real));
        Some(TiterSummary(p.id, p.transferName, average, latest.id, latest.createdAt))
  }

  /**
   * The summary's average is a whole number that lies, up to half a rounding
   * step, between the smallest and the largest titer of the latest run.
   */
  lemma SummaryAverageBounds(p: Prep, lo: real, hi: real)
    requires LatestTiterSummary(p).Some?
    requires forall i :: 0 <= i < |LatestTiters(p)| ==> lo <= LatestTiters(p)[i] <= hi
    ensures |LatestTiters(p)| > 0
    ensures var m := Mean(LatestTiters(p));
      var avg := LatestTiterSummary(p).value.averageTiter;
      && avg.Some?
      && (m != 0.0 ==>
            var half := Pow10(TiterMagnitude(m)) as real / 2.0;
            lo - half <= avg.value as real <= hi + half)
      && (m == 0.0 ==> avg == Some(0))
  {
    var titers := LatestTiters(p);
    MeanBounds(titers, lo, hi);
    RoundedAverageBounds(Mean(titers), lo, hi);
  }

  /** A rounded average stays within half a rounding step of the range its input lies in. */
  lemma RoundedAverageBounds(m: real, lo: real, hi: real)
    requires lo <= m <= hi
    ensures var avg := RoundTiterAverage(Some(m));
      && avg.Some?
      && (m != 0.0 ==>
            var half := Pow10(TiterMagnitude(m)) as real / 2.0;
            lo - half <= avg.value as real <= hi + half)
      && (m == 0.0 ==> avg == Some(0))
  {
  }

  // ------------------------------------------------------- experiment summary

  /** The plate slots of an experiment's preps, for `total_plate_count`. */
  function PlateSlots(preps: seq<Prep>): (slots: seq<PlateSlot>)
    ensures |slots| == |preps|
    ensures forall i :: 0 <= i < |preps| ==> slots[i] == PlateSlot(preps[i].id, preps[i].plateCount)
  {
    seq(|preps|, i requires 0 <= i < |preps| => PlateSlot(preps[i].id, preps[i].plateCount))
  }

  /** `completed_preps`: how many preps have been transfected. */
  function CompletedPreps(preps: seq<Prep>): (n: nat)
    ensures n <= |preps|
    ensures n == |preps| <==> forall i :: 0 <= i < |preps| ==> Status(preps[i]).transfected
    ensures n == 0 <==> forall i :: 0 <= i < |preps| ==> !Status(preps[i]).transfected
  {
    if |preps| == 0 then 0
    else
      var rest := preps[..|preps| - 1];
      var last := preps[|preps| - 1];
      assert forall i :: 0 <= i < |rest| ==> rest[i] == preps[i];
      CompletedPreps(rest) + (if last.transfection.Some? then 1 else 0)
  }

  /** `f` applied to each element of `xs`, in order. */
  function MapSeq<A, B>(f: A -> B, xs: seq<A>): (r: seq<B>)
    ensures |r| == |xs| && forall i :: 0 <= i < |xs| ==> r[i] == f(xs[i])
  {
    seq(|xs|, i requires 0 <= i < |xs| => f(xs[i]))
  }

  lemma MapSeqAppend<A, B>(f: A -> B, a: seq<A>, b: seq<A>)
    ensures MapSeq(f, a + b) == MapSeq(f, a) + MapSeq(f, b)
  {
    var l := MapSeq(f, a + b);
    var r := MapSeq(f, a) + MapSeq(f, b);
    forall i | 0 <= i < |l| ensures l[i] == r[i] {
      if i < |a| {
        assert (a + b)[i] == a[i];
      } else {
        assert (a + b)[i] == b[i - |a|];
      }
    }
  }

  /** The latest titer summary of each prep, present or not. */
  function PrepSummaries(preps: seq<Prep>): (r: seq<Option<TiterSummary>>)
    ensures |r| == |preps| && forall i :: 0 <= i < |preps| ==> r[i] == LatestTiterSummary(preps[i])
  {
    MapSeq(LatestTiterSummary, preps)
  }

  /** `titer_summaries`: the latest titer summary of every prep that has one, in prep order. */
  function TiterSummaries(preps: seq<Prep>): (r: seq<TiterSummary>)
    ensures |r| <= |preps|
    ensures forall s :: s in r ==> exists i :: 0 <= i < |preps| && LatestTiterSummary(preps[i]) == Some(s)
    ensures forall i :: 0 <= i < |preps| && LatestTiterSummary(preps[i]).Some? ==> LatestTiterSummary(preps[i]).value in r
    ensures |r| == 0 <==> forall i :: 0 <= i < |preps| ==> LatestTiterSummary(preps[i]).None?
  {
    var all := PrepSummaries(preps);
    var r := Present(all);
    assert forall i :: 0 <= i < |preps| ==> all[i] == LatestTiterSummary(preps[i]);
    r
  }

  /** Counting over two runs of preps adds up: with `CompletedPrepsOne`, the count is pinned to one per transfected prep. */
  lemma {:induction false} CompletedPrepsAppend(a: seq<Prep>, b: seq<Prep>)
    ensures CompletedPreps(a + b) == CompletedPreps(a) + CompletedPreps(b)
  {
    if |b| == 0 {
      assert a + b == a;
    } else {
      var front := b[..|b| - 1];
      assert (a + b)[..|a + b| - 1] == a + front;
      assert (a + b)[|a + b| - 1] == b[|b| - 1];
      CompletedPrepsAppend(a, front);
    }
  }

  /** A single prep counts once when it has been transfected, otherwise not at all. */
  lemma CompletedPrepsOne(p: Prep)
    ensures CompletedPreps([p]) == if p.transfection.Some? then 1 else 0
  {
    assert [p][..0] == [];
  }

  lemma {:induction false} PresentAppend<T>(a: seq<Option<T>>, b: seq<Option<T>>)
    ensures Present(a + b) == Present(a) + Present(b)
  {
    if |b| == 0 {
      assert a + b == a;
    } else {
      var front := b[..|b| - 1];
      assert (a + b)[..|a + b| - 1] == a + front;
      assert (a + b)[|a + b| - 1] == b[|b| - 1];
      PresentAppend(a, front);
    }
  }

  /**
   * The summaries of two runs of preps are those of the first run followed by
   * those of the second: with `TiterSummariesOne`, every summarised prep
   * contributes its summary once, in prep order.
   */
  lemma TiterSummariesAppend(a: seq<Prep>, b: seq<Prep>)
    ensures TiterSummaries(a + b) == TiterSummaries(a) + TiterSummaries(b)
  {
    MapSeqAppend(LatestTiterSummary, a, b);
    PresentAppend(PrepSummaries(a), PrepSummaries(b));
  }

  /** A single prep contributes its latest summary when it has one, otherwise nothing. */
  lemma TiterSummariesOne(p: Prep)
    ensures TiterSummaries([p]) == if LatestTiterSummary(p).Some? then [LatestTiterSummary(p).value] else []
  {
    var all := PrepSummaries([p]);
    assert all == [LatestTiterSummary(p)];
    assert all[..0] == [];
  }

  /** The derived fields of a serialised experiment. */
  datatype Aggregates = Aggregates(prepCount: nat, completedPreps: nat, platesAllocated: int, titerSummaries: seq<TiterSummary>)

  function ExperimentAggregates(e: Experiment): (a: Aggregates)
    ensures a.prepCount == |e.preps|
    ensures a.completedPreps == CompletedPreps(e.preps) && a.completedPreps <= a.prepCount
    ensures a.titerSummaries == TiterSummaries(e.preps)
    ensures a.platesAllocated == TotalPlateCount(PlateSlots(e.preps), None)
    ensures (forall i :: 0 <= i < |e.preps| ==> PlatesOf(PlateSlot(e.preps[i].id, e.preps[i].plateCount)) >= 0) ==> a.platesAllocated >= 0
    ensures |a.titerSummaries| <= a.prepCount
  {
    var slots := PlateSlots(e.preps);
    Aggregates(|e.preps|, CompletedPreps(e.preps), TotalPlateCount(slots, None), TiterSummaries(e.preps))
  }
}
