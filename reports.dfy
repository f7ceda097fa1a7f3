/** GET /api/reports/dashboard: per rubber type, the day's and the month's actual
    output, the month's plan at its highest version and the completion ratio. */
module Reports {
  import opened Base
  import opened Calendar
  import opened Sorting
  import opened Tables
  import opened Schema
  import FarmRoutes

  // ---------------------------------------------------------------- sums

  /** `SUM(qty)` over the rows that pass p; 0 for none (the `COALESCE(…, 0)`). */
  function SumQty(s: seq<Actual>, p: Actual -> bool): real
    decreases |s|
  {
    if s == [] then 0.0
    else (if p(s[0]) then s[0].qty else 0.0) + SumQty(s[1..], p)
  }

  /** With no negative quantity, a narrower condition never sums to more. */
  lemma {:induction false} SumQtyMonotone(s: seq<Actual>, p: Actual -> bool, q: Actual -> bool)
    requires forall a :: a in s ==> a.qty >= 0.0
    requires forall a :: a in s && p(a) ==> q(a)
    ensures SumQty(s, p) <= SumQty(s, q)
    decreases |s|
  {
    if s != [] {
      assert forall a :: a in s[1..] ==> a in s;
      SumQtyMonotone(s[1..], p, q);
    }
  }

  /** Rows that fail p add nothing. */
  lemma {:induction false} SumQtyNone(s: seq<Actual>, p: Actual -> bool)
    requires forall a :: a in s ==> !p(a)
    ensures SumQty(s, p) == 0.0
    decreases |s|
  {
    if s != [] {
      assert forall a :: a in s[1..] ==> a in s;
      SumQtyNone(s[1..], p);
    }
  }

  lemma {:induction false} SumQtyConcat(a: seq<Actual>, b: seq<Actual>, p: Actual -> bool)
    ensures SumQty(a + b, p) == SumQty(a, p) + SumQty(b, p)
    decreases |a|
  {
    if a != [] {
      assert (a + b)[1..] == a[1..] + b;
      SumQtyConcat(a[1..], b, p);
    } else {
      assert a + b == b;
    }
  }

  // ---------------------------------------------------------------- filters

  /** The farm filter: absent (or 0) means every farm. */
  predicate InFarm(farmId: int, f: Option<real>) {
    f.None? || IdIs(farmId, f.value)
  }

  /** `a.date = ?` within the LEFT JOIN of the rubber type. */
  function TodayOf(rt: RubberType, date: Date, f: Option<real>): Actual -> bool {
    (a: Actual) => a.rubberTypeId == rt.id && InFarm(a.farmId, f) && a.date == date
  }

  /** `DATE_FORMAT(a.date,'%Y-%m') = ym`: the whole calendar month, also the days
      after the query date. */
  function MonthOf(rt: RubberType, ym: string, f: Option<real>): Actual -> bool {
    (a: Actual) => a.rubberTypeId == rt.id && InFarm(a.farmId, f) && MonthKey(a.date) == ym
  }

  /** A candidate of the plan subquery: a MONTH plan of the type for that month
      and farm. Plans on a plot are candidates too. */
  predicate PlanCandidate(p: Plan, rt: RubberType, ym: string, f: Option<real>) {
    p.rubberTypeId == rt.id && p.periodType == "MONTH" && p.periodKey == ym && InFarm(p.farmId, f)
  }

  // ---------------------------------------------------------------- plan_m

  /** The index of a highest-version row of c: the first one in table order, one
      choice among those `ORDER BY version DESC LIMIT 1` may return. */
  function TopIndex(c: seq<Plan>): (k: int)
    requires c != []
    ensures 0 <= k < |c|
    ensures forall j :: 0 <= j < |c| ==> c[j].version <= c[k].version
    decreases |c|
  {
    if |c| == 1 then 0
    else
      var k := TopIndex(c[1..]);
      assert forall j :: 1 <= j < |c| ==> c[j] == c[1..][j - 1];
      if c[0].version >= c[k + 1].version then 0 else k + 1
  }

  /** p is a candidate whose version no candidate exceeds. */
  predicate TopCandidate(p: Plan, plans: seq<Plan>, rt: RubberType, ym: string, f: Option<real>) {
    PlanCandidate(p, rt, ym, f) && forall q :: q in plans && PlanCandidate(q, rt, ym, f) ==> q.version <= p.version
  }

  /** plan_m: None (null) when there is no candidate, otherwise the planned
      quantity of a candidate whose version no candidate exceeds. */
  function PlanM(plans: seq<Plan>, rt: RubberType, ym: string, f: Option<real>): (r: Option<real>)
    ensures r.None? <==> forall p :: p in plans ==> !PlanCandidate(p, rt, ym, f)
    ensures r.Some? ==> exists p :: p in plans && TopCandidate(p, plans, rt, ym, f) && p.plannedQty == r.value
  {
    var c := Filter(plans, (p: Plan) => PlanCandidate(p, rt, ym, f));
    if c == [] then None
    else
      var k := TopIndex(c);
      assert c[k] in c;
      forall q | q in plans && PlanCandidate(q, rt, ym, f) ensures q.version <= c[k].version {
        assert q in c;
      }
      Some(c[k].plannedQty)
  }

  // ---------------------------------------------------------------- completion_pct

  function Floor(x: real): int {
    x.Floor
  }

  /** A whole number of tenths. */
  predicate IsTenth(r: real) {
    (10.0 * r).Floor as real == 10.0 * r
  }

  /** `Number(x.toFixed(1))` on an exact value: the nearest tenth, a tie going
      away from zero. */
  function Round1(x: real): (r: real)
    ensures IsTenth(r)
    ensures -0.05 <= r - x <= 0.05
    ensures x >= 0.0 ==> r >= 0.0
    ensures x >= 0.0 && IsTenth(x + 0.05) ==> r == x + 0.05
    ensures x < 0.0 && IsTenth(x - 0.05) ==> r == x - 0.05
  {
    var k := if x >= 0.0 then Floor(10.0 * x + 0.5) else -Floor(-10.0 * x + 0.5);
    assert 10.0 * (k as real / 10.0) == k as real;
    TieAwayFromZero(x, k);
    k as real / 10.0
  }

  /** On an exact tie, Round1's numerator is the neighbour away from zero. */
  lemma TieAwayFromZero(x: real, k: int)
    requires k == if x >= 0.0 then Floor(10.0 * x + 0.5) else -Floor(-10.0 * x + 0.5)
    ensures x >= 0.0 && IsTenth(x + 0.05) ==> k as real / 10.0 == x + 0.05
    ensures x < 0.0 && IsTenth(x - 0.05) ==> k as real / 10.0 == x - 0.05
  {
    if x >= 0.0 && IsTenth(x + 0.05) {
      assert 10.0 * (x + 0.05) == 10.0 * x + 0.5;
      assert k as real == 10.0 * x + 0.5;
    } else if x < 0.0 && IsTenth(x - 0.05) {
      assert 10.0 * (x - 0.05) == -(-10.0 * x + 0.5);
      assert (10.0 * (x - 0.05)).Floor == -((-10.0 * x + 0.5).Floor);
      assert k as real == 10.0 * x - 0.5;
    }
  }

  /** completion_pct: null when plan_m is null or 0, else 100·mtd/plan_m to one
      decimal. */
  function Completion(mtd: real, planM: Option<real>): (r: Option<real>)
    ensures r.None? <==> planM.None? || planM.value == 0.0
    ensures r.Some? ==> -0.05 <= r.value - 100.0 * mtd / planM.value <= 0.05
    ensures r.Some? ==> IsTenth(r.value) && r.value == Round1(100.0 * mtd / planM.value)
  {
    if planM.None? || planM.value == 0.0 then None
    else Some(Round1(100.0 * mtd / planM.value))
  }

  // ---------------------------------------------------------------- the report

  datatype DashRow = DashRow(rubberType: string, actualToday: real, actualMtd: real,
                             planM: Option<real>, completion: Option<real>)

  /** The row of one rubber type, for a calendar date. */
  function RowFor(rt: RubberType, actuals: seq<Actual>, plans: seq<Plan>, date: Date, f: Option<real>): (r: DashRow)
    requires ValidDate(date)
    ensures r.rubberType == rt.code
    ensures r.actualToday == SumQty(actuals, TodayOf(rt, date, f))
    ensures r.actualMtd == SumQty(actuals, MonthOf(rt, MonthKey(date), f))
    ensures r.planM == PlanM(plans, rt, MonthKey(date), f)
    ensures r.completion == Completion(r.actualMtd, r.planM)
  {
    var ym := MonthKey(date);
    var mtd := SumQty(actuals, MonthOf(rt, ym, f));
    var plan := PlanM(plans, rt, ym, f);
    DashRow(rt.code, SumQty(actuals, TodayOf(rt, date, f)), mtd, plan, Completion(mtd, plan))
  }

  function RowOrder(r: DashRow): seq<Cell> {
    [Text(r.rubberType)]
  }

  datatype Dashboard = Dashboard(date: Date, ym: string, farms: seq<(int, Option<string>)>, rows: seq<DashRow>)

  /** The dashboard for a calendar date (the caller supplies today's date when the
      query has none) and the farm_id query parameter: one row per rubber type,
      ordered by code, and the farms by name. */
  function Report(rts: seq<RubberType>, actuals: seq<Actual>, plans: seq<Plan>, farms: seq<Farm>,
                  date: Date, farmQ: Option<string>): (d: Dashboard)
    requires ValidDate(date)
    ensures d.date == date && d.ym == MonthKey(date)
    ensures Sorted(d.rows, RowOrder)
    ensures multiset(d.rows) ==
      multiset(seq(|rts|, i requires 0 <= i < |rts| => RowFor(rts[i], actuals, plans, date, NumericFilter(farmQ))))
    ensures |d.farms| == |farms|
  {
    var f := NumericFilter(farmQ);
    var rows := seq(|rts|, i requires 0 <= i < |rts| => RowFor(rts[i], actuals, plans, date, f));
    var fs := FarmRoutes.List(farms);
    assert |fs| == |multiset(fs)| == |multiset(farms)| == |farms|;
    Dashboard(date, MonthKey(date), seq(|fs|, i requires 0 <= i < |fs| => (fs[i].id, fs[i].name)),
              SortBy(rows, RowOrder))
  }

  // ---------------------------------------------------------------- properties

  /** With no negative quantity, the day's output never exceeds the month's. */
  lemma TodayWithinMonth(rt: RubberType, actuals: seq<Actual>, plans: seq<Plan>, date: Date, f: Option<real>)
    requires ValidDate(date)
    requires forall a :: a in actuals ==> a.qty >= 0.0
    ensures RowFor(rt, actuals, plans, date, f).actualToday <= RowFor(rt, actuals, plans, date, f).actualMtd
  {
    SumQtyMonotone(actuals, TodayOf(rt, date, f), MonthOf(rt, MonthKey(date), f));
  }

  /** A rubber type without actuals still has its row, with both sums 0. */
  lemma NoActualsZero(rt: RubberType, actuals: seq<Actual>, plans: seq<Plan>, date: Date, f: Option<real>)
    requires ValidDate(date)
    requires forall a :: a in actuals ==> a.rubberTypeId != rt.id
    ensures RowFor(rt, actuals, plans, date, f).actualToday == 0.0
    ensures RowFor(rt, actuals, plans, date, f).actualMtd == 0.0
    ensures RowFor(rt, actuals, plans, date, f).completion.None? ||
            RowFor(rt, actuals, plans, date, f).completion == Some(0.0)
  {
    SumQtyNone(actuals, TodayOf(rt, date, f));
    SumQtyNone(actuals, MonthOf(rt, MonthKey(date), f));
    CompletionOfNothing(PlanM(plans, rt, MonthKey(date), f));
  }

  /** Nothing produced is 0 % of any non-zero plan. */
  lemma CompletionOfNothing(planM: Option<real>)
    ensures Completion(0.0, planM).None? || Completion(0.0, planM) == Some(0.0)
  {
    if planM.Some? && planM.value != 0.0 {
      assert 100.0 * 0.0 / planM.value == 0.0;
      assert Floor(10.0 * 0.0 + 0.5) == 0;
    }
  }

  /** Actuals later in the same month count toward the month's sum. */
  lemma LaterDayInMonth(rt: RubberType, date: Date, a: Actual, f: Option<real>)
    requires a.rubberTypeId == rt.id && InFarm(a.farmId, f)
    requires a.date.year == date.year && a.date.month == date.month && Before(date, a.date)
    ensures MonthOf(rt, MonthKey(date), f)(a) && !TodayOf(rt, date, f)(a)
  {
  }

  /** The `YYYY-MM` key of any day of May 2024. */
  lemma May2024(d: Date)
    requires d.year == 2024 && d.month == 5
    ensures MonthKey(d) == "2024-05"
  {
    assert MonthKey(d) == YearText(2024) + "-" + MonthText(5);
    YearText2024();
    MonthText5();
    KeyOfMay2024();
  }

  lemma KeyOfMay2024()
    ensures "2024" + "-" + "05" == "2024-05"
  {
  }

  lemma YearText2024()
    ensures YearText(2024) == "2024"
  {
    assert NatToString(2) == "2";
    assert NatToString(20) == NatToString(2) + "0";
    assert NatToString(202) == NatToString(20) + "2";
    assert NatToString(2024) == NatToString(202) + "4";
    assert IntToString(2024) == "2024";
  }

  lemma MonthText5()
    ensures MonthText(5) == "05"
  {
    assert IntToString(5) == NatToString(5) == "5";
    assert Repeat('0', 1) == "0";
  }

  // Farm A (id 7), rubber type mu_nuoc, a MONTH plan for 2024-05 of 1000 at
  // version 1, actuals of 100 on 2024-05-01 and 150 on 2024-05-15.
  const MuNuoc := RubberType(1, "mu_nuoc", None, "kg")
  const MayFirst := Actual(1, 7, None, 1, Date(2024, 5, 1), 100.0, "manual", None)
  const MayFifteenth := Actual(2, 7, None, 1, Date(2024, 5, 15), 150.0, "manual", None)
  const MayPlan := Plan(1, 7, None, 1, "MONTH", "2024-05", 1, 1000.0, None)

  /** The sum over two rows is what each of them adds. */
  lemma SumQtyPair(a: Actual, b: Actual, p: Actual -> bool)
    ensures SumQty([a, b], p) == (if p(a) then a.qty else 0.0) + (if p(b) then b.qty else 0.0)
  {
    assert [a, b][1..] == [b] && [b][1..] == [];
    assert SumQty([b], p) == (if p(b) then b.qty else 0.0) + SumQty([], p);
  }

  lemma ScenarioToday()
    ensures SumQty([MayFirst, MayFifteenth], TodayOf(MuNuoc, Date(2024, 5, 15), Some(7.0))) == 150.0
  {
    var today := TodayOf(MuNuoc, Date(2024, 5, 15), Some(7.0));
    assert !today(MayFirst) && today(MayFifteenth);
    SumQtyPair(MayFirst, MayFifteenth, today);
  }

  lemma ScenarioMonth()
    ensures SumQty([MayFirst, MayFifteenth], MonthOf(MuNuoc, "2024-05", Some(7.0))) == 250.0
  {
    InMay(MayFirst);
    InMay(MayFifteenth);
    SumQtyPair(MayFirst, MayFifteenth, MonthOf(MuNuoc, "2024-05", Some(7.0)));
  }

  /** Farm A's mu_nuoc actuals of May 2024 count toward that month. */
  lemma InMay(a: Actual)
    requires a.rubberTypeId == 1 && a.farmId == 7 && a.date.year == 2024 && a.date.month == 5
    ensures MonthOf(MuNuoc, "2024-05", Some(7.0))(a)
  {
    May2024(a.date);
  }

  lemma ScenarioPlan()
    ensures PlanM([MayPlan], MuNuoc, "2024-05", Some(7.0)) == Some(1000.0)
  {
    assert [MayPlan][0] in [MayPlan];
    assert PlanCandidate(MayPlan, MuNuoc, "2024-05", Some(7.0));
  }

  lemma ScenarioCompletion()
    ensures Completion(250.0, Some(1000.0)) == Some(25.0)
  {
    assert 100.0 * 250.0 / 1000.0 == 25.0;
    assert Floor(10.0 * 25.0 + 0.5) == 250;
  }

  /** The dashboard of 2024-05-15 for farm A shows 150 today, 250 for the month,
      plan 1000 and completion 25.0. */
  lemma Scenario()
    ensures RowFor(MuNuoc, [MayFirst, MayFifteenth], [MayPlan], Date(2024, 5, 15), Some(7.0)) ==
      DashRow("mu_nuoc", 150.0, 250.0, Some(1000.0), Some(25.0))
  {
    May2024(Date(2024, 5, 15));
    ScenarioToday();
    ScenarioMonth();
    ScenarioPlan();
    ScenarioCompletion();
  }

  /** farm_id=7 in the query string filters on farm 7. */
  lemma FarmQuerySeven()
    ensures NumericFilter(Some("7")) == Some(7.0)
  {
    NumberOfIntToString(7);
    assert IntToString(7) == "7";
  }
}
