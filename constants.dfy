/** The static configuration of the tracker: vessel surface areas and reference protocols. */
module Constants {

  /** Growth surface of each vessel type, in cm² (a 6-well entry is the whole plate). */
  const SurfaceAreas: map<string, real> := map[
    "T175" := 175.0,
    "T150" := 150.0,
    "T75" := 75.0,
    "T25" := 25.0,
    "T12.5" := 12.5,
    "15 cm dish" := 145.0,
    "10 cm dish" := 55.0,
    "6-well" := 58.0,
    "12-well" := 38.0,
    "24-well" := 21.0,
    "96-well" := 3.36
  ]

  /** Reference seeding: `cells` cells in `volumeMl` mL at `density` cells/mL in a `vessel`. */
  datatype SeedingReference = SeedingReference(cells: nat, volumeMl: real, density: nat, vessel: string)

  const BaseSeeding := SeedingReference(15_000_000, 20.0, 750_000, "T175")

  /** Reference transfection quantities for one `vessel`. */
  datatype TransfectionReference = TransfectionReference(
    vessel: string,
    optiMemMl: real,
    xtremegeneUl: real,
    totalPlasmidUg: real,
    reagentToDnaRatio: real)

  const BaseTransfection := TransfectionReference("T175", 1.0, 76.8, 25.6, 3.0)

  const PackagingPlasmidBp: nat := 10_709
  const EnvelopePlasmidBp: nat := 5_822

  /** Default transfer : packaging : envelope ratio, (4, 3, 1). */
  const DefaultMolarRatio: seq<real> := [4.0, 3.0, 1.0]

  /** The looked-up area of a vessel, `SURFACE_AREAS.get(vessel)`; every catalogued area is positive. */
  function SurfaceArea(vessel: string): (area: real)
    requires vessel in SurfaceAreas
    ensures area > 0.0
    ensures 3.36 <= area <= 175.0
  {
    SurfaceAreas[vessel]
  }

  /** The reference vessel of both protocols is catalogued, and the reference tables are self-consistent. */
  lemma ReferencesConsistent()
    ensures BaseSeeding.vessel in SurfaceAreas && BaseTransfection.vessel in SurfaceAreas
    ensures BaseSeeding.vessel == BaseTransfection.vessel
    ensures SurfaceAreas[BaseSeeding.vessel] == 175.0
    ensures BaseSeeding.cells as real == BaseSeeding.volumeMl * BaseSeeding.density as real
    ensures BaseTransfection.xtremegeneUl == BaseTransfection.reagentToDnaRatio * BaseTransfection.totalPlasmidUg
    ensures |DefaultMolarRatio| == 3
    ensures forall i :: 0 <= i < 3 ==> DefaultMolarRatio[i] > 0.0
    ensures DefaultMolarRatio[0] + DefaultMolarRatio[1] + DefaultMolarRatio[2] == 8.0
  {
  }
}
