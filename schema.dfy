/** The rows of the six tables the routes read and write, the unique key each
    upsert relies on, and the `ON DUPLICATE KEY UPDATE` assignment of each upsert.
    The schema file itself is not part of this model; the keys are the ones the
    upserts are written against. */
module Schema {
  import opened Base
  import opened Calendar
  import opened Tables

  datatype Farm = Farm(id: int, name: Option<string>, areaHa: real,
                       province: Option<string>, district: Option<string>, status: string)

  datatype RubberType = RubberType(id: int, code: string, description: Option<string>, unit: string)

  datatype Plot = Plot(id: int, farmId: int, code: string, plantingYear: Option<int>, areaHa: real,
                       clone: Option<string>, tappingStart: Option<string>, status: string)

  datatype Plan = Plan(id: int, farmId: int, plotId: Option<int>, rubberTypeId: int,
                       periodType: string, periodKey: string, version: int,
                       plannedQty: real, note: Option<string>)

  datatype Actual = Actual(id: int, farmId: int, plotId: Option<int>, rubberTypeId: int,
                           date: Date, qty: real, source: string, note: Option<string>)

  datatype Conversion = Conversion(id: int, farmId: Option<int>, rubberTypeId: int,
                                   effectiveFrom: Date, factor: real)

  /** A route's `:id` parameter, already passed through `Number()`, against an
      integer id column. */
  predicate IdIs(column: int, id: real) {
    column as real == id
  }

  predicate OnPlot(plotId: Option<int>, id: real) {
    plotId.Some? && IdIs(plotId.value, id)
  }

  // ---------------------------------------------------------------- plan

  type PlanKey = (int, Option<int>, int, string, string, int)

  function PlanKeyOf(p: Plan): PlanKey {
    (p.farmId, p.plotId, p.rubberTypeId, p.periodType, p.periodKey, p.version)
  }

  const PlanShape: Shape<Plan, PlanKey> := Shape((p: Plan) => p.id, PlanKeyOf, (k: PlanKey) => k.1.Some?)

  /** `ON DUPLICATE KEY UPDATE planned_qty=VALUES(planned_qty), note=VALUES(note)` */
  function PlanMerge(existing: Plan, incoming: Plan): Plan {
    existing.(plannedQty := incoming.plannedQty, note := incoming.note)
  }

  lemma PlanMergeLaws()
    ensures KeepsIdentity(PlanShape, PlanMerge) && Overwrites(PlanMerge)
  {
  }

  // ---------------------------------------------------------------- actual

  type ActualKey = (int, Option<int>, int, Date)

  function ActualKeyOf(a: Actual): ActualKey {
    (a.farmId, a.plotId, a.rubberTypeId, a.date)
  }

  const ActualShape: Shape<Actual, ActualKey> := Shape((a: Actual) => a.id, ActualKeyOf, (k: ActualKey) => k.1.Some?)

  /** `ON DUPLICATE KEY UPDATE qty=VALUES(qty), note=VALUES(note)` */
  function ActualMerge(existing: Actual, incoming: Actual): Actual {
    existing.(qty := incoming.qty, note := incoming.note)
  }

  lemma ActualMergeLaws()
    ensures KeepsIdentity(ActualShape, ActualMerge) && Overwrites(ActualMerge)
  {
  }

  // ---------------------------------------------------------------- conversion

  type ConversionKey = (Option<int>, int, Date)

  function ConversionKeyOf(c: Conversion): ConversionKey {
    (c.farmId, c.rubberTypeId, c.effectiveFrom)
  }

  const ConversionShape: Shape<Conversion, ConversionKey> :=
    Shape((c: Conversion) => c.id, ConversionKeyOf, (k: ConversionKey) => k.0.Some?)

  /** `ON DUPLICATE KEY UPDATE factor_to_dry_ton=VALUES(factor_to_dry_ton)` */
  function ConversionMerge(existing: Conversion, incoming: Conversion): Conversion {
    existing.(factor := incoming.factor)
  }

  lemma ConversionMergeLaws()
    ensures KeepsIdentity(ConversionShape, ConversionMerge) && Overwrites(ConversionMerge)
  {
  }

  // ---------------------------------------------------------------- plot

  type PlotKey = (int, string)

  function PlotKeyOf(p: Plot): PlotKey {
    (p.farmId, p.code)
  }

  const PlotShape: Shape<Plot, PlotKey> := Shape((p: Plot) => p.id, PlotKeyOf, (k: PlotKey) => true)

  /** `ON DUPLICATE KEY UPDATE area_ha=…, clone=…, tapping_start_date=…, status='active'`;
      the incoming row's status is always 'active', so the status is taken from it.
      planting_year is not in the list and is kept. */
  function PlotMerge(existing: Plot, incoming: Plot): Plot {
    existing.(areaHa := incoming.areaHa, clone := incoming.clone,
              tappingStart := incoming.tappingStart, status := incoming.status)
  }

  lemma PlotMergeLaws()
    ensures KeepsIdentity(PlotShape, PlotMerge) && Overwrites(PlotMerge)
  {
  }

  // ---------------------------------------------------------------- farm, rubber type

  /** Farms and rubber types are only ever inserted; their one unique key is the id. */
  const FarmShape: Shape<Farm, int> := Shape((f: Farm) => f.id, (f: Farm) => f.id, (k: int) => true)

  const RubberTypeShape: Shape<RubberType, int> := Shape((t: RubberType) => t.id, (t: RubberType) => t.id, (k: int) => true)

  /** A plain `INSERT` of a row that takes the next AUTO_INCREMENT id. */
  lemma InsertWellFormed<T(!new)>(sh: Shape<T, int>, s: seq<T>, r: T, n: int)
    requires forall x :: sh.key(x) == sh.id(x)
    requires forall k :: sh.complete(k)
    requires IdsFresh(sh, s, n) && sh.id(r) == n && n >= 1
    ensures WellFormed(sh, false, s + [r], n + 1)
    ensures WellFormed(sh, true, s + [r], n + 1)
  {
  }
}
