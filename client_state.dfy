/**
 * The browser client's workflow state: the drafts kept per selected prep
 * while the user fills in the transfection, media-change, harvest and titer
 * forms, the per-sample drafts of a titer run being edited, and the current
 * titer-run selection.
 *
 * Preps and experiments are seen here as the JSON the server sends for
 * them; a JSON `null`, and a field that is absent, are both `None` (and an
 * empty string for text fields).
 */
module ClientState {
  import opened Wrappers
  import opened Numeric

  datatype TransfectionView = TransfectionView(
    ratioDisplay: string,
    transferConcentration: Option<real>,
    packagingConcentration: Option<real>,
    envelopeConcentration: Option<real>)

  datatype MediaView = MediaView(mediaType: string, volumeMl: Option<real>)

  datatype HarvestView = HarvestView(harvestDate: string, volumeMl: Option<real>)

  datatype PrepView = PrepView(
    id: int,
    transferConcentration: Option<real>,
    transfection: Option<TransfectionView>,
    mediaChange: Option<MediaView>,
    harvest: Option<HarvestView>,
    titerRunIds: seq<int>)

  datatype ExperimentView = ExperimentView(
    mediaType: string,
    cellsToSeed: Option<real>,
    vesselsSeeded: Option<real>,
    preps: seq<PrepView>)

  datatype TransfectionDraft = TransfectionDraft(
    ratioMode: string,
    customRatio: string,
    transferConcentration: Option<real>,
    packagingConcentration: Option<real>,
    envelopeConcentration: Option<real>)

  datatype MediaDraft = MediaDraft(mediaType: string, volume: Option<real>)

  /** A harvest draft; `volume` is the number whose text the volume field starts from. */
  datatype HarvestDraft = HarvestDraft(date: string, volume: Option<real>)

  /** The titer form's per-prep input; `cellsSeeded` is the number whose text the field starts from. */
  datatype TiterPrepInput = TiterPrepInput(cellsSeeded: Option<int>)

  /** The per-sample draft of a titer run being edited. */
  datatype SampleDraft = SampleDraft(virusVolumeUl: string, selectionUsed: bool)

  /** The fields an edit of one sample changes. */
  datatype SampleUpdate = SampleUpdate(virusVolumeUl: Option<string>, selectionUsed: Option<bool>)

  // --------------------------------------------------------------- lookups

  /** `preps.find((prep) => prep.id === id)`. */
  function FindPrep(preps: seq<PrepView>, id: int): (r: Option<PrepView>)
    ensures r.Some? ==> r.value in preps && r.value.id == id
    ensures r.None? <==> forall i :: 0 <= i < |preps| ==> preps[i].id != id
  {
    if |preps| == 0 then None
    else if preps[0].id == id then Some(preps[0])
    else FindPrep(preps[1..], id)
  }

  /** `getPrepById(id)`, with no prep found when no experiment is open. */
  function PrepLookup(active: Option<ExperimentView>, id: int): Option<PrepView> {
    match active
    case None => None
    case Some(exp) => FindPrep(exp.preps, id)
  }

  /** `a || b` on text: the first unless it is empty. */
  function OrElse(a: string, b: string): string {
    if a != "" then a else b
  }

  /** `a ?? b`. */
  function Coalesce<T>(a: Option<T>, b: Option<T>): Option<T> {
    if a.Some? then a else b
  }

  // ----------------------------------------------------------- the seeds

  /** The draft `initializeTransfectionDraft` creates for a prep. */
  function TransfectionSeed(prep: PrepView): (d: TransfectionDraft) {
    var display := if prep.transfection.Some? then prep.transfection.value.ratioDisplay else "";
    var existing := prep.transfection;
    TransfectionDraft(
      OrElse(display, "4:3:1"),
      if display != "" && display != "4:3:1" then display else "4:3:1",
      Coalesce(if existing.Some? then existing.value.transferConcentration else None, prep.transferConcentration),
      if existing.Some? then existing.value.packagingConcentration else None,
      if existing.Some? then existing.value.envelopeConcentration else None)
  }

  /** The draft `initializeMediaDraft` creates for a prep. */
  function MediaSeed(prep: PrepView, experimentMedia: string, defaultMedia: string): MediaDraft {
    var media := if prep.mediaChange.Some? then prep.mediaChange.value.mediaType else "";
    MediaDraft(
      OrElse(media, OrElse(experimentMedia, defaultMedia)),
      if prep.mediaChange.Some? then prep.mediaChange.value.volumeMl else None)
  }

  /** The draft `initializeHarvestDraft` creates for a prep; `today` is `isoToday()`. */
  function HarvestSeed(prep: PrepView, today: string): HarvestDraft {
    var date := if prep.harvest.Some? then prep.harvest.value.harvestDate else "";
    HarvestDraft(
      OrElse(date, today),
      Coalesce(
        if prep.harvest.Some? then prep.harvest.value.volumeMl else None,
        if prep.mediaChange.Some? then prep.mediaChange.value.volumeMl else None))
  }

  /** The default cells per well: `Math.round(cells_to_seed / vessels_seeded)` when both are set and not zero. */
  function DefaultCells(exp: ExperimentView): Option<int> {
    if exp.cellsToSeed.Some? && exp.cellsToSeed.value != 0.0 && exp.vesselsSeeded.Some? && exp.vesselsSeeded.value != 0.0
    then Some(JsMathRound(exp.cellsToSeed.value / exp.vesselsSeeded.value))
    else None
  }

  /** The input `initializeTiterPrepInput` creates: blank when the default is missing or rounds to zero. */
  function TiterSeed(exp: ExperimentView): TiterPrepInput {
    var cells := DefaultCells(exp);
    TiterPrepInput(if cells.Some? && cells.value != 0 then cells else None)
  }

  /** For each prep id, the transfection draft it is seeded with, if its prep is found. */
  function TransfectionSeeds(active: Option<ExperimentView>): int -> Option<TransfectionDraft> {
    id => match PrepLookup(active, id)
      case None => None
      case Some(prep) => Some(TransfectionSeed(prep))
  }

  function MediaSeeds(active: Option<ExperimentView>, defaultMedia: string): int -> Option<MediaDraft> {
    id => match PrepLookup(active, id)
      case None => None
      case Some(prep) => Some(MediaSeed(prep, active.value.mediaType, defaultMedia))
  }

  function HarvestSeeds(active: Option<ExperimentView>, today: string): int -> Option<HarvestDraft> {
    id => match PrepLookup(active, id)
      case None => None
      case Some(prep) => Some(HarvestSeed(prep, today))
  }

  function TiterSeeds(active: Option<ExperimentView>): int -> Option<TiterPrepInput> {
    id => match PrepLookup(active, id)
      case None => None
      case Some(_) => Some(TiterSeed(active.value))
  }

  // ------------------------------------------------ draft-map bookkeeping

  /** The entries of `m` whose keys are in `keep`. */
  function Restricted<T>(m: map<int, T>, keep: set<int>): map<int, T> {
    map k | k in m && k in keep :: m[k]
  }

  /** `m` with a seed added for every id of `ids` that has none yet and whose seed exists. */
  function Seeded<T>(m: map<int, T>, ids: set<int>, seed: int -> Option<T>): map<int, T> {
    map k | k in m.Keys + ids && (k in m || seed(k).Some?) :: if k in m then m[k] else seed(k).value
  }

  /** What one `initialize*` call does: set the seed when there is no entry and the prep is found. */
  function SeedOne<T>(m: map<int, T>, id: int, seed: Option<T>): map<int, T> {
    if id in m || seed.None? then m else m[id := seed.value]
  }

  /**
   * A draft map after the selection is synchronised: its keys are exactly
   * the selected ids that had a draft or whose prep is found, drafts already
   * made are kept, and the others are the seeds.
   */
  function Synced<T>(m: map<int, T>, selected: set<int>, seed: int -> Option<T>): (r: map<int, T>)
    ensures forall k :: k in r <==> k in selected && (k in m || seed(k).Some?)
    ensures forall k :: k in r && k in m ==> r[k] == m[k]
    ensures forall k :: k in r && k !in m ==> r[k] == seed(k).value
  {
    Seeded(Restricted(m, selected), selected, seed)
  }

  /** A prep gets each of its four drafts exactly when it is found in the open experiment. */
  lemma SeedsForFoundPreps(active: Option<ExperimentView>, defaultMedia: string, today: string, id: int)
    ensures TransfectionSeeds(active)(id).Some? <==> PrepLookup(active, id).Some?
    ensures MediaSeeds(active, defaultMedia)(id).Some? <==> PrepLookup(active, id).Some?
    ensures HarvestSeeds(active, today)(id).Some? <==> PrepLookup(active, id).Some?
    ensures TiterSeeds(active)(id).Some? <==> PrepLookup(active, id).Some?
  {
  }

  /** Synchronising twice is synchronising once. */
  lemma SyncedIdempotent<T>(m: map<int, T>, selected: set<int>, seed: int -> Option<T>)
    ensures Synced(Synced(m, selected, seed), selected, seed) == Synced(m, selected, seed)
  {
    var once := Synced(m, selected, seed);
    assert Restricted(once, selected) == once;
  }

  lemma SeededStep<T>(m: map<int, T>, done: set<int>, id: int, seed: int -> Option<T>)
    ensures Seeded(m, done + {id}, seed) == SeedOne(Seeded(m, done, seed), id, seed(id))
  {
  }

  /** A set that is not empty has a member to pick. */
  lemma EmptyOrMember(ids: set<int>)
    ensures ids == {} || exists id :: id in ids
  {
    if forall id :: id !in ids {
      assert ids == {};
    }
  }

  /** `[...m.keys()].forEach((k) => { if (!keep.has(k)) m.delete(k); })`, on a copy of the map. */
  method Prune<T>(m: map<int, T>, keep: set<int>) returns (r: map<int, T>)
    ensures r == Restricted(m, keep)
  {
    r := m;
    var keys := m.Keys;
    while keys != {}
      invariant keys <= m.Keys
      invariant r == map k | k in m && (k in keep || k in keys) :: m[k]
      decreases keys
    {
      EmptyOrMember(keys);
      var k :| k in keys;
      if k !in keep {
        r := r - {k};
      }
      keys := keys - {k};
    }
  }

  // ------------------------------------------------- seed properties

  /** The custom-ratio field always starts equal to the ratio mode, the stored display or `4:3:1`. */
  lemma TransfectionSeedRatio(prep: PrepView)
    ensures TransfectionSeed(prep).customRatio == TransfectionSeed(prep).ratioMode
    ensures prep.transfection.Some? && prep.transfection.value.ratioDisplay != "" ==>
      TransfectionSeed(prep).ratioMode == prep.transfection.value.ratioDisplay
    ensures prep.transfection.None? || prep.transfection.value.ratioDisplay == "" ==>
      TransfectionSeed(prep).ratioMode == "4:3:1"
  {
  }

  /** The transfer concentration prefers the transfection's value, then the prep's own. */
  lemma TransfectionSeedConcentration(prep: PrepView)
    ensures prep.transfection.Some? && prep.transfection.value.transferConcentration.Some? ==>
      TransfectionSeed(prep).transferConcentration == prep.transfection.value.transferConcentration
    ensures (prep.transfection.None? || prep.transfection.value.transferConcentration.None?) ==>
      TransfectionSeed(prep).transferConcentration == prep.transferConcentration
  {
  }

  /** The media type is the first one set of the prep's media change, the experiment, and the default. */
  lemma MediaSeedType(prep: PrepView, experimentMedia: string, defaultMedia: string)
    ensures prep.mediaChange.Some? && prep.mediaChange.value.mediaType != "" ==>
      MediaSeed(prep, experimentMedia, defaultMedia).mediaType == prep.mediaChange.value.mediaType
    ensures (prep.mediaChange.None? || prep.mediaChange.value.mediaType == "") && experimentMedia != "" ==>
      MediaSeed(prep, experimentMedia, defaultMedia).mediaType == experimentMedia
    ensures (prep.mediaChange.None? || prep.mediaChange.value.mediaType == "") && experimentMedia == "" ==>
      MediaSeed(prep, experimentMedia, defaultMedia).mediaType == defaultMedia
  {
  }

  /** The harvest date is the recorded one, or today; the volume prefers the harvest's over the media change's. */
  lemma HarvestSeedFields(prep: PrepView, today: string)
    ensures prep.harvest.Some? && prep.harvest.value.harvestDate != "" ==>
      HarvestSeed(prep, today).date == prep.harvest.value.harvestDate
    ensures prep.harvest.None? || prep.harvest.value.harvestDate == "" ==> HarvestSeed(prep, today).date == today
    ensures prep.harvest.Some? && prep.harvest.value.volumeMl.Some? ==>
      HarvestSeed(prep, today).volume == prep.harvest.value.volumeMl
    ensures (prep.harvest.None? || prep.harvest.value.volumeMl.None?) && prep.mediaChange.Some? ==>
      HarvestSeed(prep, today).volume == prep.mediaChange.value.volumeMl
    ensures (prep.harvest.None? || prep.harvest.value.volumeMl.None?) && prep.mediaChange.None? ==>
      HarvestSeed(prep, today).volume.None?
  {
  }

  /** The default cell count is within half a cell of the cells per vessel, and never zero. */
  lemma TiterSeedCells(exp: ExperimentView)
    ensures TiterSeed(exp).cellsSeeded.Some? ==>
      var k := TiterSeed(exp).cellsSeeded.value;
      && k != 0
      && exp.cellsToSeed.Some? && exp.vesselsSeeded.Some? && exp.vesselsSeeded.value != 0.0
      && exp.cellsToSeed.value / exp.vesselsSeeded.value - 1.0 / 2.0 < k as real <= exp.cellsToSeed.value / exp.vesselsSeeded.value + 1.0 / 2.0
    ensures exp.cellsToSeed.None? || exp.vesselsSeeded.None? ==> TiterSeed(exp).cellsSeeded.None?
  {
  }

  // ------------------------------------------------- titer-run drafts

  /** `{ ...current, ...updates }`. */
  function Merge(current: SampleDraft, updates: SampleUpdate): (r: SampleDraft)
    ensures updates.virusVolumeUl.Some? ==> r.virusVolumeUl == updates.virusVolumeUl.value
    ensures updates.virusVolumeUl.None? ==> r.virusVolumeUl == current.virusVolumeUl
    ensures updates.selectionUsed.Some? ==> r.selectionUsed == updates.selectionUsed.value
    ensures updates.selectionUsed.None? ==> r.selectionUsed == current.selectionUsed
  {
    SampleDraft(
      if updates.virusVolumeUl.Some? then updates.virusVolumeUl.value else current.virusVolumeUl,
      if updates.selectionUsed.Some? then updates.selectionUsed.value else current.selectionUsed)
  }

  /** The updates of `first` then `second`, later fields winning. */
  function Then(first: SampleUpdate, second: SampleUpdate): SampleUpdate {
    SampleUpdate(Coalesce(second.virusVolumeUl, first.virusVolumeUl), Coalesce(second.selectionUsed, first.selectionUsed))
  }

  /** Applying two edits in turn is applying their combination. */
  lemma MergeThen(current: SampleDraft, first: SampleUpdate, second: SampleUpdate)
    ensures Merge(Merge(current, first), second) == Merge(current, Then(first, second))
  {
  }

  /** Repeating an edit changes nothing more. */
  lemma MergeIdempotent(current: SampleDraft, updates: SampleUpdate)
    ensures Merge(Merge(current, updates), updates) == Merge(current, updates)
  {
  }

  /** An edit naming no field leaves the draft as it is. */
  lemma MergeNothing(current: SampleDraft)
    ensures Merge(current, SampleUpdate(None, None)) == current
  {
  }

  /** The draft of a sample that has none yet: no volume typed, no selection. */
  const BlankSampleDraft := SampleDraft("", false)

  function CurrentDraft(drafts: map<int, SampleDraft>, sampleId: int): SampleDraft {
    if sampleId in drafts then drafts[sampleId] else BlankSampleDraft
  }

  // --------------------------------------------------- run selection

  /** The ids of all runs of the experiment's preps, prep by prep. */
  function AllRunIds(preps: seq<PrepView>): (ids: seq<int>)
    ensures forall id :: id in ids <==> exists i :: 0 <= i < |preps| && id in preps[i].titerRunIds
  {
    if |preps| == 0 then []
    else
      var rest := AllRunIds(preps[1..]);
      assert forall id :: id in rest <==> exists i :: 1 <= i < |preps| && id in preps[i].titerRunIds by {
        forall id ensures id in rest <==> exists i :: 1 <= i < |preps| && id in preps[i].titerRunIds {
          if id in rest {
            var i :| 0 <= i < |preps[1..]| && id in preps[1..][i].titerRunIds;
            assert id in preps[i + 1].titerRunIds;
          }
          if exists i :: 1 <= i < |preps| && id in preps[i].titerRunIds {
            var i :| 1 <= i < |preps| && id in preps[i].titerRunIds;
            assert id in preps[1..][i - 1].titerRunIds;
          }
        }
      }
      preps[0].titerRunIds + rest
  }

  /**
   * `ensureCurrentRunSelection()`: the current run while it is still one of
   * the experiment's runs, otherwise the first of them, and none when there
   * are no runs.
   */
  function ChooseRun(active: Option<ExperimentView>, current: Option<int>): (r: Option<int>)
    ensures active.None? ==> r.None?
    ensures active.Some? ==> (r.None? <==> |AllRunIds(active.value.preps)| == 0)
    ensures r.Some? ==> r.value in AllRunIds(active.value.preps)
    ensures active.Some? && current.Some? && current.value != 0 && current.value in AllRunIds(active.value.preps) ==> r == current
    ensures active.Some? && |AllRunIds(active.value.preps)| > 0
      && !(current.Some? && current.value != 0 && current.value in AllRunIds(active.value.preps))
      ==> r == Some(AllRunIds(active.value.preps)[0])
  {
    match active
    case None => None
    case Some(exp) =>
      var runs := AllRunIds(exp.preps);
      if |runs| == 0 then None
      else if current.Some? && current.value != 0 && current.value in runs then current
      else Some(runs[0])
  }

  /** Choosing again keeps the choice. */
  lemma ChooseRunIdempotent(active: Option<ExperimentView>, current: Option<int>)
    ensures ChooseRun(active, ChooseRun(active, current)) == ChooseRun(active, current)
  {
  }

  // ----------------------------------------------------------- the state

  /** The part of the client's `state` object the drafts live in. */
  class WorkflowState {
    var activeExperiment: Option<ExperimentView>
    var selectedPreps: set<int>
    var transfectionDraft: map<int, TransfectionDraft>
    var mediaDraft: map<int, MediaDraft>
    var harvestDraft: map<int, HarvestDraft>
    var titerPrepInputs: map<int, TiterPrepInput>
    var currentRunId: Option<int>
    var titerRunDraft: map<int, SampleDraft>
    /** `APP_DEFAULT_MEDIA`, set by the page. */
    const defaultMedia: string

    /** The state of a freshly loaded page. */
    constructor (defaultMedia: string)
      ensures this.defaultMedia == defaultMedia
      ensures activeExperiment.None? && selectedPreps == {} && currentRunId.None?
      ensures transfectionDraft == map[] && mediaDraft == map[] && harvestDraft == map[]
      ensures titerPrepInputs == map[] && titerRunDraft == map[]
    {
      this.defaultMedia := defaultMedia;
      activeExperiment := None;
      selectedPreps := {};
      transfectionDraft := map[];
      mediaDraft := map[];
      harvestDraft := map[];
      titerPrepInputs := map[];
      currentRunId := None;
      titerRunDraft := map[];
    }

    /** `initializeTransfectionDraft(prepId)`. */
    method InitializeTransfectionDraft(prepId: int)
      modifies this
      ensures transfectionDraft == SeedOne(old(transfectionDraft), prepId, TransfectionSeeds(activeExperiment)(prepId))
      ensures activeExperiment == old(activeExperiment) && selectedPreps == old(selectedPreps)
      ensures mediaDraft == old(mediaDraft) && harvestDraft == old(harvestDraft)
      ensures titerPrepInputs == old(titerPrepInputs)
      ensures currentRunId == old(currentRunId) && titerRunDraft == old(titerRunDraft)
    {
      if prepId in transfectionDraft {
        return;
      }
      var prep := PrepLookup(activeExperiment, prepId);
      if prep.None? {
        return;
      }
      transfectionDraft := transfectionDraft[prepId := TransfectionSeed(prep.value)];
    }

    /** `initializeMediaDraft(prepId)`. */
    method InitializeMediaDraft(prepId: int)
      modifies this
      ensures mediaDraft == SeedOne(old(mediaDraft), prepId, MediaSeeds(activeExperiment, defaultMedia)(prepId))
      ensures activeExperiment == old(activeExperiment) && selectedPreps == old(selectedPreps)
      ensures transfectionDraft == old(transfectionDraft) && harvestDraft == old(harvestDraft)
      ensures titerPrepInputs == old(titerPrepInputs)
      ensures currentRunId == old(currentRunId) && titerRunDraft == old(titerRunDraft)
    {
      if prepId in mediaDraft {
        return;
      }
      var prep := PrepLookup(activeExperiment, prepId);
      if prep.None? {
        return;
      }
      mediaDraft := mediaDraft[prepId := MediaSeed(prep.value, activeExperiment.value.mediaType, defaultMedia)];
    }

    /** `initializeHarvestDraft(prepId)`, with `today` for `isoToday()`. */
    method InitializeHarvestDraft(prepId: int, today: string)
      modifies this
      ensures harvestDraft == SeedOne(old(harvestDraft), prepId, HarvestSeeds(activeExperiment, today)(prepId))
      ensures activeExperiment == old(activeExperiment) && selectedPreps == old(selectedPreps)
      ensures transfectionDraft == old(transfectionDraft) && mediaDraft == old(mediaDraft)
      ensures titerPrepInputs == old(titerPrepInputs)
      ensures currentRunId == old(currentRunId) && titerRunDraft == old(titerRunDraft)
    {
      if prepId in harvestDraft {
        return;
      }
      var prep := PrepLookup(activeExperiment, prepId);
      if prep.None? {
        return;
      }
      harvestDraft := harvestDraft[prepId := HarvestSeed(prep.value, today)];
    }

    /** `initializeTiterPrepInput(prepId)`. */
    method InitializeTiterPrepInput(prepId: int)
      modifies this
      ensures titerPrepInputs == SeedOne(old(titerPrepInputs), prepId, TiterSeeds(activeExperiment)(prepId))
      ensures activeExperiment == old(activeExperiment) && selectedPreps == old(selectedPreps)
      ensures transfectionDraft == old(transfectionDraft) && mediaDraft == old(mediaDraft)
      ensures harvestDraft == old(harvestDraft)
      ensures currentRunId == old(currentRunId) && titerRunDraft == old(titerRunDraft)
    {
      if prepId in titerPrepInputs {
        return;
      }
      var prep := PrepLookup(activeExperiment, prepId);
      if prep.None? {
        return;
      }
      titerPrepInputs := titerPrepInputs[prepId := TiterSeed(activeExperiment.value)];
    }

    /** The body of the selection loop: every `initialize*` helper for one prep. */
    method InitializeDrafts(prepId: int, today: string)
      modifies this
      ensures transfectionDraft == SeedOne(old(transfectionDraft), prepId, TransfectionSeeds(activeExperiment)(prepId))
      ensures mediaDraft == SeedOne(old(mediaDraft), prepId, MediaSeeds(activeExperiment, defaultMedia)(prepId))
      ensures harvestDraft == SeedOne(old(harvestDraft), prepId, HarvestSeeds(activeExperiment, today)(prepId))
      ensures titerPrepInputs == SeedOne(old(titerPrepInputs), prepId, TiterSeeds(activeExperiment)(prepId))
      ensures activeExperiment == old(activeExperiment) && selectedPreps == old(selectedPreps)
      ensures currentRunId == old(currentRunId) && titerRunDraft == old(titerRunDraft)
    {
      InitializeTransfectionDraft(prepId);
      InitializeMediaDraft(prepId);
      InitializeHarvestDraft(prepId, today);
      InitializeTiterPrepInput(prepId);
    }

    /** The first half of `syncDraftsForSelection()`: drop the drafts of preps no longer selected. */
    method PruneDrafts()
      modifies this
      ensures transfectionDraft == Restricted(old(transfectionDraft), selectedPreps)
      ensures mediaDraft == Restricted(old(mediaDraft), selectedPreps)
      ensures harvestDraft == Restricted(old(harvestDraft), selectedPreps)
      ensures titerPrepInputs == Restricted(old(titerPrepInputs), selectedPreps)
      ensures activeExperiment == old(activeExperiment) && selectedPreps == old(selectedPreps)
      ensures currentRunId == old(currentRunId) && titerRunDraft == old(titerRunDraft)
    {
      transfectionDraft := Prune(transfectionDraft, selectedPreps);
      mediaDraft := Prune(mediaDraft, selectedPreps);
      harvestDraft := Prune(harvestDraft, selectedPreps);
      titerPrepInputs := Prune(titerPrepInputs, selectedPreps);
    }

    /**
     * `syncDraftsForSelection()`: drafts of preps no longer selected are
     * dropped, and every selected prep gets the drafts it lacks. Looking a
     * prep up needs an open experiment once anything is selected.
     */
    method SyncDraftsForSelection(today: string)
      requires activeExperiment.Some? || selectedPreps == {}
      modifies this
      ensures transfectionDraft == Synced(old(transfectionDraft), selectedPreps, TransfectionSeeds(activeExperiment))
      ensures mediaDraft == Synced(old(mediaDraft), selectedPreps, MediaSeeds(activeExperiment, defaultMedia))
      ensures harvestDraft == Synced(old(harvestDraft), selectedPreps, HarvestSeeds(activeExperiment, today))
      ensures titerPrepInputs == Synced(old(titerPrepInputs), selectedPreps, TiterSeeds(activeExperiment))
      ensures activeExperiment == old(activeExperiment) && selectedPreps == old(selectedPreps)
      ensures currentRunId == old(currentRunId) && titerRunDraft == old(titerRunDraft)
    {
      PruneDrafts();
      SeedSelected(today);
    }

    /** The second half of `syncDraftsForSelection()`: give every selected prep the drafts it lacks. */
    method SeedSelected(today: string)
      modifies this
      ensures transfectionDraft == Seeded(old(transfectionDraft), selectedPreps, TransfectionSeeds(activeExperiment))
      ensures mediaDraft == Seeded(old(mediaDraft), selectedPreps, MediaSeeds(activeExperiment, defaultMedia))
      ensures harvestDraft == Seeded(old(harvestDraft), selectedPreps, HarvestSeeds(activeExperiment, today))
      ensures titerPrepInputs == Seeded(old(titerPrepInputs), selectedPreps, TiterSeeds(activeExperiment))
      ensures activeExperiment == old(activeExperiment) && selectedPreps == old(selectedPreps)
      ensures currentRunId == old(currentRunId) && titerRunDraft == old(titerRunDraft)
    {
      var t0, m0, h0, p0 := transfectionDraft, mediaDraft, harvestDraft, titerPrepInputs;
      var tSeed, mSeed := TransfectionSeeds(activeExperiment), MediaSeeds(activeExperiment, defaultMedia);
      var hSeed, pSeed := HarvestSeeds(activeExperiment, today), TiterSeeds(activeExperiment);
      var todo, done := selectedPreps, {};
      while todo != {}
        invariant done + todo == selectedPreps
        invariant activeExperiment == old(activeExperiment) && selectedPreps == old(selectedPreps)
        invariant currentRunId == old(currentRunId) && titerRunDraft == old(titerRunDraft)
        invariant transfectionDraft == Seeded(t0, done, tSeed)
        invariant mediaDraft == Seeded(m0, done, mSeed)
        invariant harvestDraft == Seeded(h0, done, hSeed)
        invariant titerPrepInputs == Seeded(p0, done, pSeed)
        decreases todo
      {
        EmptyOrMember(todo);
        var id :| id in todo;
        SeededStep(t0, done, id, tSeed);
        SeededStep(m0, done, id, mSeed);
        SeededStep(h0, done, id, hSeed);
        SeededStep(p0, done, id, pSeed);
        InitializeDrafts(id, today);
        todo, done := todo - {id}, done + {id};
      }
    }

    /** `updateTiterRunDraft(sampleId, updates)`. */
    method UpdateTiterRunDraft(sampleId: int, updates: SampleUpdate)
      modifies this
      ensures titerRunDraft == old(titerRunDraft)[sampleId := Merge(CurrentDraft(old(titerRunDraft), sampleId), updates)]
      ensures activeExperiment == old(activeExperiment) && selectedPreps == old(selectedPreps)
      ensures transfectionDraft == old(transfectionDraft) && mediaDraft == old(mediaDraft)
      ensures harvestDraft == old(harvestDraft) && titerPrepInputs == old(titerPrepInputs)
      ensures currentRunId == old(currentRunId)
    {
      var current := CurrentDraft(titerRunDraft, sampleId);
      titerRunDraft := titerRunDraft[sampleId := Merge(current, updates)];
    }

    /** `ensureCurrentRunSelection()`. */
    function EnsureCurrentRunSelection(): (r: Option<int>)
      reads this
      ensures r.Some? ==> activeExperiment.Some? && r.value in AllRunIds(activeExperiment.value.preps)
    {
      ChooseRun(activeExperiment, currentRunId)
    }
  }
}
