/** /api/plots: the active plots of a farm, the plot upsert keyed by (farm, code),
    and the tables a hard delete leaves behind. The writes themselves are
    Store.Database.SavePlot and Store.Database.DeletePlot. */
module PlotRoutes {
  import opened Base
  import opened Sorting
  import opened Tables
  import opened Schema

  // ---------------------------------------------------------------- GET /api/plots

  function PlotOrder(p: Plot): seq<Cell> {
    [Text(p.code)]
  }

  /** GET /api/plots?farm_id=: None (400) unless farm_id converts to a number other
      than 0; otherwise the farm's plots whose status is 'active', ordered by code. */
  function List(plots: seq<Plot>, farmQ: Option<string>): (r: Option<seq<Plot>>)
    ensures r.None? <==> farmQ.None? || IdParam(farmQ.value).None?
    ensures r.Some? ==> Sorted(r.value, PlotOrder)
    ensures r.Some? ==> forall p :: p in r.value <==>
      p in plots && IdIs(p.farmId, IdParam(farmQ.value).value) && p.status == "active"
    ensures r.Some? ==> forall p :: multiset(r.value)[p] ==
                                    if IdIs(p.farmId, IdParam(farmQ.value).value) && p.status == "active"
                                    then multiset(plots)[p] else 0
  {
    if farmQ.None? then None
    else match IdParam(farmQ.value)
      case None => None
      case Some(f) =>
        var sel := Filter(plots, (p: Plot) => IdIs(p.farmId, f) && p.status == "active");
        var r := SortBy(sel, PlotOrder);
        FilterCount(plots, (p: Plot) => IdIs(p.farmId, f) && p.status == "active");
        assert forall p :: p in r <==> p in multiset(r);
        assert forall p :: p in sel <==> p in multiset(sel);
        Some(r)
  }

  // ---------------------------------------------------------------- POST /api/plots

  datatype PlotBody = PlotBody(farmId: Option<int>, code: Option<string>, plantingYear: Option<int>,
                               areaHa: Option<real>, clone: Option<string>, tappingStart: Option<string>)

  /** farm_id and code must be truthy; a code of blanks passes and is stored trimmed. */
  predicate SaveAccepted(b: PlotBody) {
    IntTruthy(b.farmId) && StrTruthy(b.code)
  }

  /** The row the INSERT writes: code trimmed, status 'active', a missing area as 0,
      falsy planting year, clone and tapping start as NULL. */
  function NewPlot(b: PlotBody, id: int): (p: Plot)
    requires SaveAccepted(b)
    ensures p.id == id && p.farmId == b.farmId.value && p.status == "active"
    ensures p.code == Trim(b.code.value)
    ensures p.areaHa == (if b.areaHa.Some? then b.areaHa.value else 0.0)
    ensures p.plantingYear.None? <==> !IntTruthy(b.plantingYear)
    ensures p.plantingYear.Some? ==> p.plantingYear == b.plantingYear
    ensures p.clone.None? <==> !StrTruthy(b.clone)
    ensures p.clone.Some? ==> p.clone == b.clone
    ensures p.tappingStart.None? <==> !StrTruthy(b.tappingStart)
    ensures p.tappingStart.Some? ==> p.tappingStart == b.tappingStart
  {
    Plot(id, b.farmId.value, Trim(b.code.value), IdOrNull(b.plantingYear), NumOrZero(b.areaHa),
         StrOrNull(b.clone), StrOrNull(b.tappingStart), "active")
  }

  /** The plot table after an accepted save. */
  function Save(s: seq<Plot>, d: bool, b: PlotBody, id: int): seq<Plot>
    requires SaveAccepted(b)
  {
    Upsert(PlotShape, d, PlotMerge, s, NewPlot(b, id))
  }

  /** Re-posting an existing (farm, trimmed code) updates area, clone and tapping
      start of that plot and sets it 'active' again, keeping its planting year and
      id; a new (farm, code) appends the plot. */
  lemma SaveEffect(s: seq<Plot>, d: bool, b: PlotBody, id: int)
    requires Unique(PlotShape, d, s) && SaveAccepted(b)
    ensures var r := NewPlot(b, id);
      var t := Save(s, d, b, id);
      && ((forall i :: 0 <= i < |s| ==> PlotKeyOf(s[i]) != PlotKeyOf(r)) ==> t == s + [r])
      && ((exists i :: 0 <= i < |s| && PlotKeyOf(s[i]) == PlotKeyOf(r)) ==>
            |t| == |s| &&
            forall i :: 0 <= i < |s| ==>
              t[i] == if PlotKeyOf(s[i]) == PlotKeyOf(r)
                      then s[i].(areaHa := r.areaHa, clone := r.clone, tappingStart := r.tappingStart,
                                 status := "active")
                      else s[i])
  {
    UpsertEffect(PlotShape, d, PlotMerge, s, NewPlot(b, id));
  }

  /** A save keeps the table well formed. */
  lemma SaveWellFormed(s: seq<Plot>, d: bool, b: PlotBody, n: int)
    requires WellFormed(PlotShape, d, s, n) && n >= 1 && SaveAccepted(b)
    ensures WellFormed(PlotShape, d, Save(s, d, b, n), n + 1)
  {
    PlotMergeLaws();
    UpsertWellFormed(PlotShape, d, PlotMerge, s, NewPlot(b, n), n);
  }

  /** Posting the same plot twice leaves the table as posting it once. */
  lemma SaveIdempotent(s: seq<Plot>, d: bool, b: PlotBody, id1: int, id2: int)
    requires Unique(PlotShape, d, s) && SaveAccepted(b)
    ensures Save(Save(s, d, b, id1), d, b, id2) == Save(s, d, b, id1)
  {
    var r1 := NewPlot(b, id1);
    var r2 := NewPlot(b, id2);
    PlotMergeLaws();
    UpsertTwice(PlotShape, d, PlotMerge, s, r1, r2);
    UpsertIdempotent(PlotShape, d, PlotMerge, s, r1);
    assert PlotMerge(r1, r2) == r1;
  }

  // ---------------------------------------------------------------- DELETE /api/plots/:id

  /** The three tables after the hard delete of plot id: its actuals, its plans
      (every version) and the plot row itself are gone, and nothing else. */
  datatype Remains = Remains(actuals: seq<Actual>, plans: seq<Plan>, plots: seq<Plot>)

  function Cascade(actuals: seq<Actual>, plans: seq<Plan>, plots: seq<Plot>, id: real): (r: Remains)
    ensures forall a :: a in r.actuals <==> a in actuals && !OnPlot(a.plotId, id)
    ensures forall p :: p in r.plans <==> p in plans && !OnPlot(p.plotId, id)
    ensures forall p :: p in r.plots <==> p in plots && !IdIs(p.id, id)
  {
    Remains(Filter(actuals, (a: Actual) => !OnPlot(a.plotId, id)),
            Filter(plans, (p: Plan) => !OnPlot(p.plotId, id)),
            Filter(plots, (p: Plot) => !IdIs(p.id, id)))
  }

  /** The delete keeps each table well formed, and a table with no row on that
      plot is left exactly as it was. */
  lemma CascadeKeeps(actuals: seq<Actual>, plans: seq<Plan>, plots: seq<Plot>, id: real, d: bool,
                     na: int, np: int, nt: int)
    requires WellFormed(ActualShape, d, actuals, na) && WellFormed(PlanShape, d, plans, np)
    requires WellFormed(PlotShape, d, plots, nt)
    ensures var r := Cascade(actuals, plans, plots, id);
      && WellFormed(ActualShape, d, r.actuals, na) && WellFormed(PlanShape, d, r.plans, np)
      && WellFormed(PlotShape, d, r.plots, nt)
      && ((forall i :: 0 <= i < |actuals| ==> !OnPlot(actuals[i].plotId, id)) ==> r.actuals == actuals)
      && ((forall i :: 0 <= i < |plans| ==> !OnPlot(plans[i].plotId, id)) ==> r.plans == plans)
      && ((forall i :: 0 <= i < |plots| ==> !IdIs(plots[i].id, id)) ==> r.plots == plots)
  {
    var pa := (a: Actual) => !OnPlot(a.plotId, id);
    var pp := (p: Plan) => !OnPlot(p.plotId, id);
    var pt := (p: Plot) => !IdIs(p.id, id);
    FilterWellFormed(ActualShape, d, actuals, pa, na);
    FilterWellFormed(PlanShape, d, plans, pp, np);
    FilterWellFormed(PlotShape, d, plots, pt, nt);
    FilterAllOrNone(actuals, pa);
    FilterAllOrNone(plans, pp);
    FilterAllOrNone(plots, pt);
  }
}
