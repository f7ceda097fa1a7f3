/** The database the server routes write: six tables and their AUTO_INCREMENT
    counters, held by one object whose methods are the write routes. Each method
    either answers 400 and changes nothing, or makes exactly the change its route
    module describes. */
module Store {
  import opened Base
  import opened Tables
  import opened Schema
  import PlanRoutes
  import ActualRoutes
  import ConversionRoutes
  import PlotRoutes
  import FarmRoutes
  import RubberTypeRoutes

  /** Every table and counter at one moment; also what a transaction restores. */
  datatype Snapshot = Snapshot(
    farms: seq<Farm>, rubberTypes: seq<RubberType>, plots: seq<Plot>,
    plans: seq<Plan>, actuals: seq<Actual>, conversions: seq<Conversion>,
    nextFarmId: int, nextRubberTypeId: int, nextPlotId: int,
    nextPlanId: int, nextActualId: int, nextConversionId: int)

  /** Every unique key holds and every id is below its table's counter. */
  predicate Consistent(st: Snapshot, d: bool) {
    && WellFormed(FarmShape, d, st.farms, st.nextFarmId) && st.nextFarmId >= 1
    && WellFormed(RubberTypeShape, d, st.rubberTypes, st.nextRubberTypeId) && st.nextRubberTypeId >= 1
    && WellFormed(PlotShape, d, st.plots, st.nextPlotId) && st.nextPlotId >= 1
    && WellFormed(PlanShape, d, st.plans, st.nextPlanId) && st.nextPlanId >= 1
    && WellFormed(ActualShape, d, st.actuals, st.nextActualId) && st.nextActualId >= 1
    && WellFormed(ConversionShape, d, st.conversions, st.nextConversionId) && st.nextConversionId >= 1
  }

  /** Replacing the plan table by a well-formed one, with its counter, keeps the
      snapshot consistent. */
  lemma PlansReplaced(st: Snapshot, d: bool, p: seq<Plan>, n: int)
    requires Consistent(st, d) && WellFormed(PlanShape, d, p, n) && n >= 1
    ensures Consistent(st.(plans := p, nextPlanId := n), d)
  {
  }

  class Database {
    /** Whether the unique indexes let NULL key parts differ (MySQL's behaviour). */
    const nullsDistinct: bool

    var farms: seq<Farm>
    var rubberTypes: seq<RubberType>
    var plots: seq<Plot>
    var plans: seq<Plan>
    var actuals: seq<Actual>
    var conversions: seq<Conversion>
    var nextFarmId: int
    var nextRubberTypeId: int
    var nextPlotId: int
    var nextPlanId: int
    var nextActualId: int
    var nextConversionId: int

    function State(): Snapshot
      reads this
    {
      Snapshot(farms, rubberTypes, plots, plans, actuals, conversions,
               nextFarmId, nextRubberTypeId, nextPlotId, nextPlanId, nextActualId, nextConversionId)
    }

    predicate Valid()
      reads this
    {
      Consistent(State(), nullsDistinct)
    }

    /** Empty tables whose ids start at 1. */
    constructor(nullsDistinct: bool)
      ensures Valid() && this.nullsDistinct == nullsDistinct
      ensures State() == Snapshot([], [], [], [], [], [], 1, 1, 1, 1, 1, 1)
    {
      this.nullsDistinct := nullsDistinct;
      farms, rubberTypes, plots, plans, actuals, conversions := [], [], [], [], [], [];
      nextFarmId, nextRubberTypeId, nextPlotId := 1, 1, 1;
      nextPlanId, nextActualId, nextConversionId := 1, 1, 1;
    }

    /** Puts every table and counter back as they were at st (ROLLBACK). */
    method Restore(st: Snapshot)
      modifies this
      ensures State() == st
    {
      farms, rubberTypes, plots, plans, actuals, conversions :=
        st.farms, st.rubberTypes, st.plots, st.plans, st.actuals, st.conversions;
      nextFarmId, nextRubberTypeId, nextPlotId := st.nextFarmId, st.nextRubberTypeId, st.nextPlotId;
      nextPlanId, nextActualId, nextConversionId := st.nextPlanId, st.nextActualId, st.nextConversionId;
    }

    // -------------------------------------------------------------- plans

    /** POST /api/plans */
    method CreatePlan(b: PlanRoutes.PlanBody) returns (status: int)
      requires Valid()
      modifies this
      ensures Valid()
      ensures !PlanRoutes.CreateAccepted(b) ==> status == 400 && State() == old(State())
      ensures PlanRoutes.CreateAccepted(b) ==>
        status == 201 &&
        State() == old(State()).(
          plans := Upsert(PlanShape, nullsDistinct, PlanMerge, old(plans), PlanRoutes.NewPlan(b, old(nextPlanId))),
          nextPlanId := old(nextPlanId) + 1)
    {
      if !IntTruthy(b.farmId) || !IntTruthy(b.rubberTypeId) || !StrTruthy(b.periodType) || !StrTruthy(b.periodKey) {
        return 400;
      }
      var row := PlanRoutes.NewPlan(b, nextPlanId);
      PlanMergeLaws();
      UpsertWellFormed(PlanShape, nullsDistinct, PlanMerge, plans, row, nextPlanId);
      plans := Upsert(PlanShape, nullsDistinct, PlanMerge, plans, row);
      nextPlanId := nextPlanId + 1;
      status := 201;
    }

    /** PUT /api/plans/:id */
    method UpdatePlan(idParam: string, u: PlanRoutes.PlanPatch) returns (status: int)
      requires Valid()
      modifies this
      ensures Valid()
      ensures IdParam(idParam).None? || !PlanRoutes.HasUpdates(u) ==> status == 400 && State() == old(State())
      ensures IdParam(idParam).Some? && PlanRoutes.HasUpdates(u) ==>
        status == 200 &&
        State() == old(State()).(plans := PlanRoutes.UpdateById(old(plans), IdParam(idParam).value, u))
    {
      var id := IdParam(idParam);
      if id.None? {
        return 400;
      }
      var fields: seq<PlanRoutes.Assignment> := [];
      if u.plannedQty.Some? {
        fields := fields + [PlanRoutes.SetQty(u.plannedQty.value)];
      }
      if !u.note.Absent? {
        var note := if u.note.NullNote? then None else StrOrNull(Some(u.note.text));
        fields := fields + [PlanRoutes.SetNote(note)];
      }
      assert fields == PlanRoutes.SetList(u);
      if |fields| == 0 {
        return 400;
      }
      PlanRoutes.ApplySetList(plans, id.value, u);
      PlanRoutes.UpdateByIdEffect(plans, nullsDistinct, nextPlanId, id.value, u);
      PlansReplaced(State(), nullsDistinct, PlanRoutes.UpdateById(plans, id.value, u), nextPlanId);
      plans := PlanRoutes.ApplyById(plans, id.value, fields);
      status := 200;
    }

    /** DELETE /api/plans/:id */
    method DeletePlan(idParam: string) returns (status: int)
      requires Valid()
      modifies this
      ensures Valid()
      ensures IdParam(idParam).None? ==> status == 400 && State() == old(State())
      ensures IdParam(idParam).Some? ==>
        status == 204 &&
        State() == old(State()).(plans := PlanRoutes.DeleteById(old(plans), IdParam(idParam).value))
    {
      var id := IdParam(idParam);
      if id.None? {
        return 400;
      }
      PlanRoutes.DeleteByIdEffect(plans, nullsDistinct, nextPlanId, id.value);
      plans := PlanRoutes.DeleteById(plans, id.value);
      status := 204;
    }

    /** POST /api/plans/bump-version: answers the version it created. */
    method BumpVersion(b: PlanRoutes.ScopeBody) returns (status: int, version: Option<int>)
      requires Valid()
      modifies this
      ensures Valid()
      ensures PlanRoutes.ScopeOf(b).None? ==> status == 400 && version.None? && State() == old(State())
      ensures PlanRoutes.ScopeOf(b).Some? ==>
        var sc := PlanRoutes.ScopeOf(b).value;
        && status == 200
        && version == Some(PlanRoutes.NextVersion(old(plans), sc))
        && State() == old(State()).(
             plans := PlanRoutes.Bump(old(plans), nullsDistinct, sc, old(nextPlanId)),
             nextPlanId := old(nextPlanId) + |PlanRoutes.Latest(old(plans), sc)|)
    {
      var scope := PlanRoutes.ScopeOf(b);
      if scope.None? {
        return 400, None;
      }
      var sc := scope.value;
      var next := PlanRoutes.NextVersion(plans, sc);
      var t := PlanRoutes.Bump(plans, nullsDistinct, sc, nextPlanId);
      var n := nextPlanId + |PlanRoutes.Latest(plans, sc)|;
      PlanRoutes.BumpAppends(plans, nullsDistinct, nextPlanId, sc);
      PlansReplaced(State(), nullsDistinct, t, n);
      plans, nextPlanId := t, n;
      status, version := 200, Some(next);
    }

    /** POST /api/plans/bulk-copy */
    method BulkCopy(b: PlanRoutes.CopyBody) returns (status: int)
      requires Valid()
      modifies this
      ensures Valid()
      ensures PlanRoutes.CopyRequest(b).None? ==> status == 400 && State() == old(State())
      ensures PlanRoutes.CopyRequest(b).Some? ==>
        var (src, dst, dVer) := PlanRoutes.CopyRequest(b).value;
        && status == 200
        && State() == old(State()).(
             plans := PlanRoutes.BulkCopy(old(plans), nullsDistinct, src, dst, dVer, old(nextPlanId)),
             nextPlanId := old(nextPlanId) + |PlanRoutes.Latest(old(plans), src)|)
    {
      var request := PlanRoutes.CopyRequest(b);
      if request.None? {
        return 400;
      }
      var (src, dst, dVer) := request.value;
      var t := PlanRoutes.BulkCopy(plans, nullsDistinct, src, dst, dVer, nextPlanId);
      var n := nextPlanId + |PlanRoutes.Latest(plans, src)|;
      PlanRoutes.BulkCopyKeeps(plans, nullsDistinct, nextPlanId, src, dst, dVer);
      PlansReplaced(State(), nullsDistinct, t, n);
      plans, nextPlanId := t, n;
      status := 200;
    }

    // -------------------------------------------------------------- actuals, conversions

    /** POST /api/actuals */
    method SaveActual(b: ActualRoutes.ActualBody) returns (status: int)
      requires Valid()
      modifies this
      ensures Valid()
      ensures !ActualRoutes.SaveAccepted(b) ==> status == 400 && State() == old(State())
      ensures ActualRoutes.SaveAccepted(b) ==>
        status == 201 &&
        State() == old(State()).(
          actuals := ActualRoutes.Save(old(actuals), nullsDistinct, b, old(nextActualId)),
          nextActualId := old(nextActualId) + 1)
    {
      if b.date.None? || !IntTruthy(b.farmId) || !IntTruthy(b.rubberTypeId) {
        return 400;
      }
      ActualRoutes.SaveWellFormed(actuals, nullsDistinct, b, nextActualId);
      actuals := ActualRoutes.Save(actuals, nullsDistinct, b, nextActualId);
      nextActualId := nextActualId + 1;
      status := 201;
    }

    /** POST /api/conversions */
    method SaveConversion(b: ConversionRoutes.ConversionBody) returns (status: int)
      requires Valid()
      modifies this
      ensures Valid()
      ensures !ConversionRoutes.SaveAccepted(b) ==> status == 400 && State() == old(State())
      ensures ConversionRoutes.SaveAccepted(b) ==>
        status == 201 &&
        State() == old(State()).(
          conversions := ConversionRoutes.Save(old(conversions), nullsDistinct, b, old(nextConversionId)),
          nextConversionId := old(nextConversionId) + 1)
    {
      if !IntTruthy(b.rubberTypeId) || b.effectiveFrom.None? || b.factor.None? {
        return 400;
      }
      ConversionRoutes.SaveWellFormed(conversions, nullsDistinct, b, nextConversionId);
      conversions := ConversionRoutes.Save(conversions, nullsDistinct, b, nextConversionId);
      nextConversionId := nextConversionId + 1;
      status := 201;
    }

    // -------------------------------------------------------------- plots

    /** POST /api/plots */
    method SavePlot(b: PlotRoutes.PlotBody) returns (status: int)
      requires Valid()
      modifies this
      ensures Valid()
      ensures !PlotRoutes.SaveAccepted(b) ==> status == 400 && State() == old(State())
      ensures PlotRoutes.SaveAccepted(b) ==>
        status == 201 &&
        State() == old(State()).(
          plots := PlotRoutes.Save(old(plots), nullsDistinct, b, old(nextPlotId)),
          nextPlotId := old(nextPlotId) + 1)
    {
      if !IntTruthy(b.farmId) || !StrTruthy(b.code) {
        return 400;
      }
      PlotRoutes.SaveWellFormed(plots, nullsDistinct, b, nextPlotId);
      plots := PlotRoutes.Save(plots, nullsDistinct, b, nextPlotId);
      nextPlotId := nextPlotId + 1;
      status := 201;
    }

    /** DELETE /api/plots/:id: the three deletes and the commit run in one
        transaction. `fail` names the step that fails (1 to 3: the deletes of
        actuals, plans and the plot; 4: the commit; any other value: none), which
        stands for the database error the handler cannot foresee. A failure rolls
        every table back and answers 500. */
    method DeletePlot(idParam: string, fail: nat) returns (status: int)
      requires Valid()
      modifies this
      ensures Valid()
      ensures IdParam(idParam).None? ==> status == 400 && State() == old(State())
      ensures IdParam(idParam).Some? && 1 <= fail <= 4 ==> status == 500 && State() == old(State())
      ensures IdParam(idParam).Some? && !(1 <= fail <= 4) ==>
        status == 204 &&
        var r := PlotRoutes.Cascade(old(actuals), old(plans), old(plots), IdParam(idParam).value);
        State() == old(State()).(actuals := r.actuals, plans := r.plans, plots := r.plots)
    {
      var id := IdParam(idParam);
      if id.None? {
        return 400;
      }
      var begin := State();
      var r := PlotRoutes.Cascade(actuals, plans, plots, id.value);
      PlotRoutes.CascadeKeeps(actuals, plans, plots, id.value, nullsDistinct, nextActualId, nextPlanId, nextPlotId);
      if fail == 1 {
        Restore(begin);
        return 500;
      }
      actuals := r.actuals;
      if fail == 2 {
        Restore(begin);
        return 500;
      }
      plans := r.plans;
      if fail == 3 {
        Restore(begin);
        return 500;
      }
      plots := r.plots;
      if fail == 4 {
        Restore(begin);
        return 500;
      }
      status := 204;
    }

    // -------------------------------------------------------------- farms, rubber types

    /** POST /api/farms */
    method CreateFarm(b: FarmRoutes.FarmBody) returns (status: int)
      requires Valid()
      modifies this
      ensures Valid()
      ensures status == 201
      ensures State() == old(State()).(farms := old(farms) + [FarmRoutes.NewFarm(b, old(nextFarmId))],
                                       nextFarmId := old(nextFarmId) + 1)
    {
      FarmRoutes.CreateWellFormed(farms, b, nextFarmId);
      farms := farms + [FarmRoutes.NewFarm(b, nextFarmId)];
      nextFarmId := nextFarmId + 1;
      status := 201;
    }

    /** POST /api/rubber-types */
    method CreateRubberType(b: RubberTypeRoutes.RubberTypeBody) returns (status: int)
      requires Valid()
      modifies this
      ensures Valid()
      ensures !RubberTypeRoutes.CreateAccepted(b) ==> status == 400 && State() == old(State())
      ensures RubberTypeRoutes.CreateAccepted(b) ==>
        status == 201 &&
        State() == old(State()).(
          rubberTypes := old(rubberTypes) + [RubberTypeRoutes.NewRubberType(b, old(nextRubberTypeId))],
          nextRubberTypeId := old(nextRubberTypeId) + 1)
    {
      if !StrTruthy(b.code) || !StrTruthy(b.unit) {
        return 400;
      }
      RubberTypeRoutes.CreateWellFormed(rubberTypes, b, nextRubberTypeId);
      rubberTypes := rubberTypes + [RubberTypeRoutes.NewRubberType(b, nextRubberTypeId)];
      nextRubberTypeId := nextRubberTypeId + 1;
      status := 201;
    }
  }
}
