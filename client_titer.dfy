/**
 * The browser client's titer helpers: the average titer shown for a run, and
 * the well layout a new titer run starts from.
 */
module ClientTiter {
  import opened Wrappers
  import opened Numeric
  import opened Text
  import Utils
  import Models
  import TiterResults

  /**
   * `calculateAverageTiter(samples)`: the mean of the samples' numeric titers,
   * `null` when there are none. Serialised samples arrive with `titer_tu_ml`
   * a number or `null`; JSON carries no not-a-number.
   */
  function CalculateAverageTiter(samples: seq<Models.Sample>): (r: Option<real>)
    ensures r.None? <==> forall i :: 0 <= i < |samples| ==> samples[i].titerTuMl.None?
    ensures r.Some? ==> IsMeanOf(r.value, Models.Present(Models.Titers(samples)))
  {
    var values := Models.Present(Models.Titers(samples));
    assert |values| == 0 <==> forall i :: 0 <= i < |samples| ==> samples[i].titerTuMl.None? by {
      assert forall i :: 0 <= i < |samples| ==> Models.Titers(samples)[i] == samples[i].titerTuMl;
    }
    if |values| == 0 then None
    else
      MeanTimesCount(values);
      Some(Mean(values))
  }

  /** The average lies between any bounds of the titers. */
  lemma AverageBetween(samples: seq<Models.Sample>, lo: real, hi: real)
    requires forall i :: 0 <= i < |samples| && samples[i].titerTuMl.Some? ==>
      lo <= samples[i].titerTuMl.value <= hi
    ensures CalculateAverageTiter(samples).Some? ==> lo <= CalculateAverageTiter(samples).value <= hi
  {
    var titers := Models.Titers(samples);
    var values := Models.Present(titers);
    if |values| > 0 {
      forall j | 0 <= j < |values| ensures lo <= values[j] <= hi {
        assert Some(values[j]) in titers;
        var i :| 0 <= i < |titers| && titers[i] == Some(values[j]);
        assert samples[i].titerTuMl == Some(values[j]);
      }
      MeanBounds(values, lo, hi);
    }
  }

  /** One sample with a titer averages to that titer, whatever the samples without one. */
  lemma AverageOfOne(samples: seq<Models.Sample>, k: nat, v: real)
    requires k < |samples| && samples[k].titerTuMl == Some(v)
    requires forall i :: 0 <= i < |samples| && i != k ==> samples[i].titerTuMl.None?
    ensures CalculateAverageTiter(samples) == Some(v)
  {
    AverageBetween(samples, v, v);
  }

  /**
   * The server's run average is the client's average rounded to three
   * significant figures: both average the same titers.
   */
  lemma ServerAverageAgrees(samples: seq<Models.Sample>)
    ensures TiterResults.AverageTiter(samples) == Utils.RoundTiterAverage(CalculateAverageTiter(samples))
  {
  }

  // ------------------------------------------------------------ the wells

  datatype WellRole = Test | ControlSelection | ControlNoSelection

  /** The virus volume of a well: blank until typed for a test well, zero for a control. */
  datatype WellVolume = Blank | Microlitres(ul: real)

  datatype Well = Well(wellLabel: string, role: WellRole, volume: WellVolume, selection: bool, locked: bool)

  /** The `i`-th test well. */
  function TestWell(i: nat): Well {
    Well("Test " + NatToString(i), Test, Blank, true, false)
  }

  const SelectionControl := Well("No LV + Selection", ControlSelection, Microlitres(0.0), true, true)
  const NoSelectionControl := Well("No LV - Selection", ControlNoSelection, Microlitres(0.0), false, true)

  /** The wells for `n` test conditions: the tests numbered from one, then the two controls. */
  function TiterTemplate(n: nat): seq<Well> {
    seq(n, i requires 0 <= i < n => TestWell(i + 1)) + [SelectionControl, NoSelectionControl]
  }

  /**
   * The number of test wells for a requested count: the whole numbers from
   * one up to the count. The count may be fractional (2.5 asks for two).
   */
  function TestCount(count: real): (n: nat)
    ensures n == 0 || n as real <= count
    ensures count < (n + 1) as real
  {
    if count < 1.0 then 0 else count.Floor
  }

  /** `buildTiterSamples(count)`: one test well per whole number `i` with 1 <= i <= count, then the controls. */
  method BuildTiterSamples(count: real) returns (wells: seq<Well>)
    ensures wells == TiterTemplate(TestCount(count))
  {
    var n := TestCount(count);
    wells := [];
    var i := 1;
    while i as real <= count
      invariant 1 <= i <= n + 1
      invariant wells == seq(i - 1, j requires 0 <= j < i - 1 => TestWell(j + 1))
      decreases n + 1 - i
    {
      wells := wells + [TestWell(i)];
      i := i + 1;
    }
    wells := wells + [SelectionControl];
    wells := wells + [NoSelectionControl];
  }

  /** The layout: `n` unlocked test wells with selection, then a locked control with selection and one without. */
  lemma TemplateShape(n: nat)
    ensures var t := TiterTemplate(n);
      && |t| == n + 2
      && (forall i :: 0 <= i < n ==>
            t[i].role == Test && t[i].wellLabel == "Test " + NatToString(i + 1)
            && t[i].volume == Blank && t[i].selection && !t[i].locked)
      && t[n].role == ControlSelection && t[n].selection && t[n].locked && t[n].volume == Microlitres(0.0)
      && t[n + 1].role == ControlNoSelection && !t[n + 1].selection && t[n + 1].locked
      && t[n + 1].volume == Microlitres(0.0)
  {
  }

  /** Test wells with different numbers carry different labels. */
  lemma TestLabelsDiffer(a: nat, b: nat)
    requires a != b
    ensures "Test " + NatToString(a) != "Test " + NatToString(b)
  {
    assert DigitsValue(NatToString(a)) != DigitsValue(NatToString(b));
    assert ("Test " + NatToString(a))[5..] == NatToString(a);
    assert ("Test " + NatToString(b))[5..] == NatToString(b);
  }

  /** No two wells of a layout carry the same label. */
  lemma TemplateLabelsDistinct(n: nat)
    ensures var t := TiterTemplate(n);
      forall i, j :: 0 <= i < j < |t| ==> t[i].wellLabel != t[j].wellLabel
  {
    var t := TiterTemplate(n);
    forall i, j | 0 <= i < j < |t| ensures t[i].wellLabel != t[j].wellLabel {
      if j < n {
        TestLabelsDiffer(i + 1, j + 1);
      } else if i < n {
        assert t[i].wellLabel[0] == 'T';
        assert t[j].wellLabel[0] == 'N';
      } else {
        assert t[i].wellLabel[6] == '+' && t[j].wellLabel[6] == '-';
      }
    }
  }
}
