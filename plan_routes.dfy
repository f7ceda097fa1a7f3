/** The plan routes: the listing and history reads, and the table each write
    leaves behind (POST upsert, PUT by id, DELETE by id, bump-version, bulk-copy).
    The writes themselves are the methods of Store.Database. */
module PlanRoutes {
  import opened Base
  import opened Sorting
  import opened Tables
  import opened Schema

  // ---------------------------------------------------------------- GET /api/plans

  /** The query string of GET /api/plans. */
  datatype PlanQuery = PlanQuery(farmId: Option<string>, periodType: Option<string>,
                                 periodKey: Option<string>)

  /** The WHERE clause: each filter applies only when its parameter is truthy. */
  predicate ListMatch(p: Plan, q: PlanQuery) {
    var f := NumericFilter(q.farmId);
    && (f.None? || IdIs(p.farmId, f.value))
    && (!StrTruthy(q.periodType) || p.periodType == q.periodType.value)
    && (!StrTruthy(q.periodKey) || p.periodKey == q.periodKey.value)
  }

  /** A plan joined with its farm's name and its rubber type's code. */
  datatype ListRow = ListRow(plan: Plan, farmName: Option<string>, rubberType: string)

  /** `ORDER BY f.id, COALESCE(p.plot_id,0), rt.code, p.version` */
  function ListKey(r: ListRow): seq<Cell> {
    [Int(r.plan.farmId), Int(r.plan.plotId.GetOr(0)), Text(r.rubberType), Int(r.plan.version)]
  }

  predicate HasFarm(farms: seq<Farm>, id: int, name: Option<string>) {
    exists f :: f in farms && f.id == id && f.name == name
  }

  predicate HasType(rts: seq<RubberType>, id: int, code: string) {
    exists t :: t in rts && t.id == id && t.code == code
  }

  /** How many farm rows have this id and name. */
  function FarmCount(farms: seq<Farm>, id: int, name: Option<string>): nat {
    if farms == [] then 0
    else (if farms[0].id == id && farms[0].name == name then 1 else 0) + FarmCount(farms[1..], id, name)
  }

  /** How many rubber-type rows have this id and code. */
  function TypeCount(rts: seq<RubberType>, id: int, code: string): nat {
    if rts == [] then 0
    else (if rts[0].id == id && rts[0].code == code then 1 else 0) + TypeCount(rts[1..], id, code)
  }

  /** `JOIN rubber_type rt ON p.rubber_type_id = rt.id` for one plan and farm. */
  function TypeRows(p: Plan, name: Option<string>, rts: seq<RubberType>): (r: seq<ListRow>)
    ensures forall x :: x in r <==> x.plan == p && x.farmName == name && HasType(rts, p.rubberTypeId, x.rubberType)
  {
    if rts == [] then []
    else
      var rest := TypeRows(p, name, rts[1..]);
      assert forall t :: t in rts[1..] ==> t in rts;
      assert forall t :: t in rts ==> t == rts[0] || t in rts[1..];
      (if rts[0].id == p.rubberTypeId then [ListRow(p, name, rts[0].code)] else []) + rest
  }

  /** The rubber-type join gives a row once per rubber-type row with the plan's
      type id and that code. */
  lemma {:induction false} TypeRowsCountAt(p: Plan, name: Option<string>, rts: seq<RubberType>, x: ListRow)
    ensures multiset(TypeRows(p, name, rts))[x] ==
            if x.plan == p && x.farmName == name then TypeCount(rts, p.rubberTypeId, x.rubberType) else 0
    decreases |rts|
  {
    if rts != [] {
      var head := if rts[0].id == p.rubberTypeId then [ListRow(p, name, rts[0].code)] else [];
      assert TypeRows(p, name, rts) == head + TypeRows(p, name, rts[1..]);
      TypeRowsCountAt(p, name, rts[1..], x);
    } else {
      assert TypeRows(p, name, rts) == [];
    }
  }

  /** `JOIN farm f ON p.farm_id = f.id` and then the rubber type, for one plan. */
  function FarmRows(p: Plan, farms: seq<Farm>, rts: seq<RubberType>): (r: seq<ListRow>)
    ensures forall x :: x in r <==>
      x.plan == p && HasFarm(farms, p.farmId, x.farmName) && HasType(rts, p.rubberTypeId, x.rubberType)
  {
    if farms == [] then []
    else
      var rest := FarmRows(p, farms[1..], rts);
      assert forall f :: f in farms[1..] ==> f in farms;
      assert forall f :: f in farms ==> f == farms[0] || f in farms[1..];
      (if farms[0].id == p.farmId then TypeRows(p, farms[0].name, rts) else []) + rest
  }

  lemma MulAddRight(a: nat, b: nat, c: nat)
    ensures (a + b) * c == a * c + b * c
  {
  }

  /** The farm join gives each (farm name, rubber-type code) pairing of a plan once
      per matching farm row and matching rubber-type row. */
  lemma FarmRowsCount(p: Plan, farms: seq<Farm>, rts: seq<RubberType>)
    ensures forall x :: multiset(FarmRows(p, farms, rts))[x] ==
                        if x.plan == p
                        then FarmCount(farms, p.farmId, x.farmName) * TypeCount(rts, p.rubberTypeId, x.rubberType)
                        else 0
  {
    forall x: ListRow
      ensures multiset(FarmRows(p, farms, rts))[x] ==
              if x.plan == p
              then FarmCount(farms, p.farmId, x.farmName) * TypeCount(rts, p.rubberTypeId, x.rubberType)
              else 0
    {
      FarmRowsCountAt(p, farms, rts, x);
    }
  }

  /** Counting one more matching row of width t. */
  lemma CountStep(m: nat, r: nat, hit: bool, b: nat, c: nat, t: nat)
    requires m == r + (if hit then t else 0) && r == b * t && c == (if hit then 1 else 0) + b
    ensures m == c * t
  {
    MulAddRight(if hit then 1 else 0, b, t);
  }

  /** One farm row in front adds its type rows when it is the plan's farm. */
  lemma FarmRowsStep(p: Plan, farms: seq<Farm>, rts: seq<RubberType>, x: ListRow)
    requires farms != []
    ensures multiset(FarmRows(p, farms, rts))[x] ==
            multiset(FarmRows(p, farms[1..], rts))[x] +
            if x.plan == p && farms[0].id == p.farmId && farms[0].name == x.farmName
            then TypeCount(rts, p.rubberTypeId, x.rubberType) else 0
  {
    var head := if farms[0].id == p.farmId then TypeRows(p, farms[0].name, rts) else [];
    assert FarmRows(p, farms, rts) == head + FarmRows(p, farms[1..], rts);
    TypeRowsCountAt(p, farms[0].name, rts, x);
  }

  /** FarmRowsCount for one row x. */
  lemma {:induction false} FarmRowsCountAt(p: Plan, farms: seq<Farm>, rts: seq<RubberType>, x: ListRow)
    ensures multiset(FarmRows(p, farms, rts))[x] ==
            if x.plan == p
            then FarmCount(farms, p.farmId, x.farmName) * TypeCount(rts, p.rubberTypeId, x.rubberType)
            else 0
    decreases |farms|
  {
    if farms != [] {
      FarmRowsCountAt(p, farms[1..], rts, x);
      FarmRowsStep(p, farms, rts, x);
      if x.plan == p {
        CountStep(multiset(FarmRows(p, farms, rts))[x], multiset(FarmRows(p, farms[1..], rts))[x],
                  farms[0].id == p.farmId && farms[0].name == x.farmName,
                  FarmCount(farms[1..], p.farmId, x.farmName), FarmCount(farms, p.farmId, x.farmName),
                  TypeCount(rts, p.rubberTypeId, x.rubberType));
      }
    } else {
      assert FarmRows(p, farms, rts) == [];
    }
  }

  /** How many joined rows x stands for: one per matching farm row and matching
      rubber-type row. */
  function JoinWidth(x: ListRow, farms: seq<Farm>, rts: seq<RubberType>): nat {
    FarmCount(farms, x.plan.farmId, x.farmName) * TypeCount(rts, x.plan.rubberTypeId, x.rubberType)
  }

  function JoinRows(ps: seq<Plan>, farms: seq<Farm>, rts: seq<RubberType>): (r: seq<ListRow>)
    ensures forall x :: x in r <==>
      x.plan in ps && HasFarm(farms, x.plan.farmId, x.farmName) && HasType(rts, x.plan.rubberTypeId, x.rubberType)
  {
    if ps == [] then []
    else
      assert forall p :: p in ps ==> p == ps[0] || p in ps[1..];
      FarmRows(ps[0], farms, rts) + JoinRows(ps[1..], farms, rts)
  }

  /** The join repeats each plan row once per matching farm and rubber-type row. */
  lemma JoinRowsCount(ps: seq<Plan>, farms: seq<Farm>, rts: seq<RubberType>)
    ensures forall x :: multiset(JoinRows(ps, farms, rts))[x] == multiset(ps)[x.plan] * JoinWidth(x, farms, rts)
  {
    forall x: ListRow
      ensures multiset(JoinRows(ps, farms, rts))[x] == multiset(ps)[x.plan] * JoinWidth(x, farms, rts)
    {
      JoinRowsCountAt(ps, farms, rts, x);
    }
  }

  lemma PlanCountCons(ps: seq<Plan>, y: Plan)
    requires ps != []
    ensures multiset(ps)[y] == (if y == ps[0] then 1 else 0) + multiset(ps[1..])[y]
  {
    assert ps == [ps[0]] + ps[1..];
  }

  /** One plan in front adds its own joined rows. */
  lemma JoinRowsStep(ps: seq<Plan>, farms: seq<Farm>, rts: seq<RubberType>, x: ListRow)
    requires ps != []
    ensures multiset(JoinRows(ps, farms, rts))[x] ==
            multiset(JoinRows(ps[1..], farms, rts))[x] + if x.plan == ps[0] then JoinWidth(x, farms, rts) else 0
  {
    assert JoinRows(ps, farms, rts) == FarmRows(ps[0], farms, rts) + JoinRows(ps[1..], farms, rts);
    FarmRowsCountAt(ps[0], farms, rts, x);
  }

  /** JoinRowsCount for one row x. */
  lemma {:induction false} JoinRowsCountAt(ps: seq<Plan>, farms: seq<Farm>, rts: seq<RubberType>, x: ListRow)
    ensures multiset(JoinRows(ps, farms, rts))[x] == multiset(ps)[x.plan] * JoinWidth(x, farms, rts)
    decreases |ps|
  {
    if ps != [] {
      JoinRowsCountAt(ps[1..], farms, rts, x);
      JoinRowsStep(ps, farms, rts, x);
      PlanCountCons(ps, x.plan);
      CountStep(multiset(JoinRows(ps, farms, rts))[x], multiset(JoinRows(ps[1..], farms, rts))[x],
                x.plan == ps[0], multiset(ps[1..])[x.plan], multiset(ps)[x.plan], JoinWidth(x, farms, rts));
    } else {
      assert JoinRows(ps, farms, rts) == [];
    }
  }

  /** The plans passing the query's filters, in table order. */
  function Matching(plans: seq<Plan>, q: PlanQuery): (r: seq<Plan>)
    ensures forall p :: p in r <==> p in plans && ListMatch(p, q)
  {
    Filter(plans, p => ListMatch(p, q))
  }

  /** The join of the matching plans holds each row once per stored copy of its
      plan, times its join width. */
  lemma MatchingJoinCount(plans: seq<Plan>, farms: seq<Farm>, rts: seq<RubberType>, q: PlanQuery)
    ensures forall x :: multiset(JoinRows(Matching(plans, q), farms, rts))[x] ==
                        (if ListMatch(x.plan, q) then multiset(plans)[x.plan] else 0) * JoinWidth(x, farms, rts)
  {
    FilterCount(plans, p => ListMatch(p, q));
    forall x: ListRow
      ensures multiset(JoinRows(Matching(plans, q), farms, rts))[x] ==
              (if ListMatch(x.plan, q) then multiset(plans)[x.plan] else 0) * JoinWidth(x, farms, rts)
    {
      JoinRowsCountAt(Matching(plans, q), farms, rts, x);
    }
  }

  /** GET /api/plans: the matching plans joined with farm and rubber type, ordered
      by farm id, plot (NULL as 0), rubber-type code and version. */
  function List(plans: seq<Plan>, farms: seq<Farm>, rts: seq<RubberType>, q: PlanQuery): (r: seq<ListRow>)
    ensures Sorted(r, ListKey)
    ensures forall x :: x in r <==>
      && x.plan in plans && ListMatch(x.plan, q)
      && HasFarm(farms, x.plan.farmId, x.farmName)
      && HasType(rts, x.plan.rubberTypeId, x.rubberType)
    ensures forall x :: multiset(r)[x] ==
                        (if ListMatch(x.plan, q) then multiset(plans)[x.plan] else 0) * JoinWidth(x, farms, rts)
  {
    var rows := JoinRows(Matching(plans, q), farms, rts);
    MatchingJoinCount(plans, farms, rts, q);
    var r := SortBy(rows, ListKey);
    assert forall x :: x in r <==> x in multiset(r);
    r
  }

  /** With farm ids unique, a farm id and name match one row or none. */
  lemma {:induction false} FarmCountOnKey(farms: seq<Farm>, id: int, name: Option<string>, n: int)
    requires IdsFresh(FarmShape, farms, n)
    ensures FarmCount(farms, id, name) == if HasFarm(farms, id, name) then 1 else 0
    decreases |farms|
  {
    if farms != [] {
      var rest := farms[1..];
      assert IdsFresh(FarmShape, rest, n) by {
        assert forall i :: 0 <= i < |rest| ==> rest[i] == farms[i + 1];
      }
      FarmCountOnKey(rest, id, name, n);
      assert forall f :: f in farms <==> f == farms[0] || f in rest;
      if farms[0].id == id {
        assert forall f :: f in rest ==> f.id != id by {
          forall f | f in rest ensures f.id != id {
            var i :| 0 <= i < |rest| && rest[i] == f;
            assert FarmShape.id(farms[0]) != FarmShape.id(farms[i + 1]);
          }
        }
      }
    }
  }

  /** With rubber-type ids unique, an id and code match one row or none. */
  lemma {:induction false} TypeCountOnKey(rts: seq<RubberType>, id: int, code: string, n: int)
    requires IdsFresh(RubberTypeShape, rts, n)
    ensures TypeCount(rts, id, code) == if HasType(rts, id, code) then 1 else 0
    decreases |rts|
  {
    if rts != [] {
      var rest := rts[1..];
      assert IdsFresh(RubberTypeShape, rest, n) by {
        assert forall i :: 0 <= i < |rest| ==> rest[i] == rts[i + 1];
      }
      TypeCountOnKey(rest, id, code, n);
      assert forall t :: t in rts <==> t == rts[0] || t in rest;
      if rts[0].id == id {
        assert forall t :: t in rest ==> t.id != id by {
          forall t | t in rest ensures t.id != id {
            var i :| 0 <= i < |rest| && rest[i] == t;
            assert RubberTypeShape.id(rts[0]) != RubberTypeShape.id(rts[i + 1]);
          }
        }
      }
    }
  }

  /** On tables whose farm and rubber-type ids are primary keys, the listing holds
      each matching plan row exactly as often as the plan table does, joined with
      its farm's name and its rubber type's code, and nothing else. */
  lemma ListOnKeys(plans: seq<Plan>, farms: seq<Farm>, rts: seq<RubberType>, q: PlanQuery, nf: int, nr: int)
    requires IdsFresh(FarmShape, farms, nf) && IdsFresh(RubberTypeShape, rts, nr)
    ensures forall x :: multiset(List(plans, farms, rts, q))[x] ==
                        if ListMatch(x.plan, q) && HasFarm(farms, x.plan.farmId, x.farmName)
                           && HasType(rts, x.plan.rubberTypeId, x.rubberType)
                        then multiset(plans)[x.plan] else 0
  {
    var r := List(plans, farms, rts, q);
    forall x: ListRow
      ensures multiset(r)[x] ==
              if ListMatch(x.plan, q) && HasFarm(farms, x.plan.farmId, x.farmName)
                 && HasType(rts, x.plan.rubberTypeId, x.rubberType)
              then multiset(plans)[x.plan] else 0
    {
      FarmCountOnKey(farms, x.plan.farmId, x.farmName, nf);
      TypeCountOnKey(rts, x.plan.rubberTypeId, x.rubberType, nr);
      assert multiset(r)[x] ==
             (if ListMatch(x.plan, q) then multiset(plans)[x.plan] else 0) * JoinWidth(x, farms, rts);
    }
  }

  // ---------------------------------------------------------------- GET /api/plans/history

  datatype HistoryRow = HistoryRow(rubberType: string, version: int, plannedQty: real, note: Option<string>)

  /** `ORDER BY rt.code, p.version` */
  function HistoryKey(h: HistoryRow): seq<Cell> {
    [Text(h.rubberType), Int(h.version)]
  }

  predicate HistoryMatch(p: Plan, farm: Option<real>, periodType: string, periodKey: string) {
    p.periodType == periodType && p.periodKey == periodKey && (farm.None? || IdIs(p.farmId, farm.value))
  }

  function HistoryRowOf(x: ListRow): HistoryRow {
    HistoryRow(x.rubberType, x.plan.version, x.plan.plannedQty, x.plan.note)
  }

  function HistoryRows(xs: seq<ListRow>): (r: seq<HistoryRow>)
    ensures forall h :: h in r <==> exists x :: x in xs && h == HistoryRowOf(x)
  {
    if xs == [] then []
    else
      assert forall x :: x in xs ==> x == xs[0] || x in xs[1..];
      [HistoryRowOf(xs[0])] + HistoryRows(xs[1..])
  }

  /** The plans of one type joined with their rubber type, as the farm-less join
      of JoinRows (the farm columns are not selected). */
  function TypeJoin(ps: seq<Plan>, rts: seq<RubberType>): (r: seq<ListRow>)
    ensures forall x :: x in r <==> x.plan in ps && x.farmName.None? && HasType(rts, x.plan.rubberTypeId, x.rubberType)
  {
    if ps == [] then []
    else
      assert forall p :: p in ps ==> p == ps[0] || p in ps[1..];
      TypeRows(ps[0], None, rts) + TypeJoin(ps[1..], rts)
  }

  /** h reports plan p of the history: p matches and h carries its rubber-type
      code, version, quantity and note. */
  predicate HistoryOf(p: Plan, rts: seq<RubberType>, f: Option<real>, periodType: string,
                      periodKey: string, h: HistoryRow) {
    && HistoryMatch(p, f, periodType, periodKey)
    && HasType(rts, p.rubberTypeId, h.rubberType)
    && h.version == p.version && h.plannedQty == p.plannedQty && h.note == p.note
  }

  /** The history rows before ordering: the matching plans joined with their
      rubber type. */
  function HistoryRowsOf(plans: seq<Plan>, rts: seq<RubberType>, f: Option<real>,
                         periodType: string, periodKey: string): (r: seq<HistoryRow>)
    ensures forall h :: h in r <==> exists p :: p in plans && HistoryOf(p, rts, f, periodType, periodKey, h)
  {
    var sel := Filter(plans, p => HistoryMatch(p, f, periodType, periodKey));
    var joined := TypeJoin(sel, rts);
    var rows := HistoryRows(joined);
    forall h: HistoryRow | h in rows
      ensures exists p :: p in plans && HistoryOf(p, rts, f, periodType, periodKey, h)
    {
      var x :| x in joined && h == HistoryRowOf(x);
      assert x.plan in sel;
    }
    forall h: HistoryRow | exists p :: p in plans && HistoryOf(p, rts, f, periodType, periodKey, h)
      ensures h in rows
    {
      var p :| p in plans && HistoryOf(p, rts, f, periodType, periodKey, h);
      var x := ListRow(p, None, h.rubberType);
      assert x in joined;
      assert h == HistoryRowOf(x);
    }
    rows
  }

  /** What plan p gives h in the history: p matches, and h carries its version,
      quantity and note. */
  predicate GivesHistory(p: Plan, f: Option<real>, periodType: string, periodKey: string, h: HistoryRow) {
    HistoryMatch(p, f, periodType, periodKey) && h.version == p.version && h.plannedQty == p.plannedQty
    && h.note == p.note
  }

  /** How many history rows equal to h the plan table gives: each plan row that
      gives h counts once per rubber-type row with its type id and h's code. */
  function HistoryCount(plans: seq<Plan>, rts: seq<RubberType>, f: Option<real>, periodType: string,
                        periodKey: string, h: HistoryRow): nat
  {
    if plans == [] then 0
    else (if GivesHistory(plans[0], f, periodType, periodKey, h)
          then TypeCount(rts, plans[0].rubberTypeId, h.rubberType) else 0)
         + HistoryCount(plans[1..], rts, f, periodType, periodKey, h)
  }

  lemma {:induction false} HistoryRowsConcat(a: seq<ListRow>, b: seq<ListRow>)
    ensures HistoryRows(a + b) == HistoryRows(a) + HistoryRows(b)
    decreases |a|
  {
    if a == [] {
      assert a + b == b;
    } else {
      assert (a + b)[1..] == a[1..] + b;
      HistoryRowsConcat(a[1..], b);
    }
  }

  /** One plan joined with the rubber types gives h once per type row with its id
      and h's code, when h carries the plan's version, quantity and note. */
  lemma {:induction false} TypeHistoryCount(p: Plan, rts: seq<RubberType>, h: HistoryRow)
    ensures multiset(HistoryRows(TypeRows(p, None, rts)))[h] ==
            if h.version == p.version && h.plannedQty == p.plannedQty && h.note == p.note
            then TypeCount(rts, p.rubberTypeId, h.rubberType) else 0
    decreases |rts|
  {
    if rts != [] {
      var head: seq<ListRow> := if rts[0].id == p.rubberTypeId then [ListRow(p, None, rts[0].code)] else [];
      assert TypeRows(p, None, rts) == head + TypeRows(p, None, rts[1..]);
      HistoryRowsConcat(head, TypeRows(p, None, rts[1..]));
      TypeHistoryCount(p, rts[1..], h);
      if head != [] {
        assert HistoryRows(head) == [HistoryRowOf(head[0])];
      }
    }
  }

  /** The unordered history holds h exactly HistoryCount times. */
  lemma {:induction false} HistoryRowsOfCount(plans: seq<Plan>, rts: seq<RubberType>, f: Option<real>,
                                              periodType: string, periodKey: string, h: HistoryRow)
    ensures multiset(HistoryRowsOf(plans, rts, f, periodType, periodKey))[h] ==
            HistoryCount(plans, rts, f, periodType, periodKey, h)
    decreases |plans|
  {
    if plans != [] {
      var p := plans[0];
      var part := if HistoryMatch(p, f, periodType, periodKey) then TypeRows(p, None, rts) else [];
      var sel := Filter(plans, q => HistoryMatch(q, f, periodType, periodKey));
      var selRest := Filter(plans[1..], q => HistoryMatch(q, f, periodType, periodKey));
      assert sel == (if HistoryMatch(p, f, periodType, periodKey) then [p] else []) + selRest;
      if HistoryMatch(p, f, periodType, periodKey) {
        assert ([p] + selRest)[1..] == selRest;
      }
      assert TypeJoin(sel, rts) == part + TypeJoin(selRest, rts);
      assert HistoryRowsOf(plans, rts, f, periodType, periodKey) == HistoryRows(TypeJoin(sel, rts));
      assert HistoryRowsOf(plans[1..], rts, f, periodType, periodKey) == HistoryRows(TypeJoin(selRest, rts));
      HistoryRowsConcat(part, TypeJoin(selRest, rts));
      HistoryRowsOfCount(plans[1..], rts, f, periodType, periodKey, h);
      TypeHistoryCount(p, rts, h);
    }
  }

  /** GET /api/plans/history: None (400) unless period_type and period_key are both
      given; otherwise every version of the matching plans, with the rubber-type
      code, ordered by code and then version. */
  function History(plans: seq<Plan>, rts: seq<RubberType>, farmQ: Option<string>,
                   periodType: Option<string>, periodKey: Option<string>): (r: Option<seq<HistoryRow>>)
    ensures r.None? <==> !StrTruthy(periodType) || !StrTruthy(periodKey)
    ensures r.Some? ==> Sorted(r.value, HistoryKey)
    ensures r.Some? ==> forall h :: h in r.value <==>
      (exists p :: p in plans && HistoryOf(p, rts, NumericFilter(farmQ), periodType.value, periodKey.value, h))
    ensures r.Some? ==> forall h :: multiset(r.value)[h] ==
                                    HistoryCount(plans, rts, NumericFilter(farmQ), periodType.value, periodKey.value, h)
  {
    if !StrTruthy(periodType) || !StrTruthy(periodKey) then None
    else
      var rows := HistoryRowsOf(plans, rts, NumericFilter(farmQ), periodType.value, periodKey.value);
      var r := SortBy(rows, HistoryKey);
      assert forall h :: h in r <==> h in multiset(r);
      assert forall h :: h in rows <==> h in multiset(rows);
      forall h ensures multiset(r)[h] ==
                       HistoryCount(plans, rts, NumericFilter(farmQ), periodType.value, periodKey.value, h) {
        HistoryRowsOfCount(plans, rts, NumericFilter(farmQ), periodType.value, periodKey.value, h);
      }
      Some(r)
  }

  // ---------------------------------------------------------------- POST /api/plans

  datatype PlanBody = PlanBody(farmId: Option<int>, plotId: Option<int>, rubberTypeId: Option<int>,
                               periodType: Option<string>, periodKey: Option<string>,
                               plannedQty: Option<real>, note: Option<string>)

  /** farm_id, rubber_type_id, period_type and period_key must all be truthy. */
  predicate CreateAccepted(b: PlanBody) {
    IntTruthy(b.farmId) && IntTruthy(b.rubberTypeId) && StrTruthy(b.periodType) && StrTruthy(b.periodKey)
  }

  /** The row POST /api/plans inserts, with the next AUTO_INCREMENT id. The
      statement leaves out `version`, which takes its column default 1. */
  function NewPlan(b: PlanBody, id: int): (p: Plan)
    requires CreateAccepted(b)
    ensures p.id == id && p.version == 1
    ensures p.farmId == b.farmId.value && p.rubberTypeId == b.rubberTypeId.value
    ensures p.periodType == b.periodType.value && p.periodKey == b.periodKey.value
    ensures p.plotId.None? <==> !IntTruthy(b.plotId)
    ensures p.plotId.Some? ==> p.plotId == b.plotId
    ensures b.plannedQty.None? ==> p.plannedQty == 0.0
    ensures b.plannedQty.Some? ==> p.plannedQty == b.plannedQty.value
    ensures p.note.None? <==> !StrTruthy(b.note)
    ensures p.note.Some? ==> p.note == b.note
  {
    Plan(id, b.farmId.value, IdOrNull(b.plotId), b.rubberTypeId.value, b.periodType.value,
         b.periodKey.value, 1, NumOrZero(b.plannedQty), StrOrNull(b.note))
  }

  /** POST on a key already present overwrites only planned_qty and note of that
      one row; on a new key it appends the row. */
  lemma CreateEffect(s: seq<Plan>, d: bool, b: PlanBody, id: int)
    requires Unique(PlanShape, d, s) && CreateAccepted(b)
    ensures var r := NewPlan(b, id);
      var t := Upsert(PlanShape, d, PlanMerge, s, r);
      && ((forall i :: 0 <= i < |s| ==> !Collide(PlanShape, d, s[i], r)) ==> t == s + [r])
      && ((exists i :: 0 <= i < |s| && Collide(PlanShape, d, s[i], r)) ==>
            |t| == |s| &&
            forall i :: 0 <= i < |s| ==>
              t[i] == if Collide(PlanShape, d, s[i], r)
                      then s[i].(plannedQty := r.plannedQty, note := r.note) else s[i])
  {
    UpsertEffect(PlanShape, d, PlanMerge, s, NewPlan(b, id));
  }

  // ---------------------------------------------------------------- PUT /api/plans/:id

  /** `req.body.note`: not sent, sent as null, or sent as a string. */
  datatype NoteField = Absent | NullNote | NoteText(text: string)

  datatype PlanPatch = PlanPatch(plannedQty: Option<real>, note: NoteField)

  /** At least one column to SET: planned_qty not null, or note present. */
  predicate HasUpdates(u: PlanPatch) {
    u.plannedQty.Some? || !u.note.Absent?
  }

  /** The SET list applied to one row: planned_qty when given, note when present
      (`note || null`). */
  function Patched(p: Plan, u: PlanPatch): (q: Plan)
    ensures q.id == p.id && PlanKeyOf(q) == PlanKeyOf(p)
    ensures u.plannedQty.None? ==> q.plannedQty == p.plannedQty
    ensures u.plannedQty.Some? ==> q.plannedQty == u.plannedQty.value
    ensures u.note.Absent? ==> q.note == p.note
    ensures u.note.NullNote? ==> q.note.None?
    ensures u.note.NoteText? ==> q.note == StrOrNull(Some(u.note.text))
  {
    var qty := if u.plannedQty.Some? then u.plannedQty.value else p.plannedQty;
    var note := match u.note
      case Absent => p.note
      case NullNote => None
      case NoteText(t) => StrOrNull(Some(t));
    p.(plannedQty := qty, note := note)
  }

  /** One `column = ?` entry of the SET list. */
  datatype Assignment = SetQty(qty: real) | SetNote(note: Option<string>)

  /** The SET list the handler pushes: planned_qty when it is not null, then note
      when it is present, as `note || null`. */
  function SetList(u: PlanPatch): (fields: seq<Assignment>)
    ensures |fields| == 0 <==> !HasUpdates(u)
  {
    (if u.plannedQty.Some? then [SetQty(u.plannedQty.value)] else []) +
    (match u.note
     case Absent => []
     case NullNote => [SetNote(None)]
     case NoteText(t) => [SetNote(StrOrNull(Some(t)))])
  }

  /** Applies a SET list to one row, left to right. */
  function ApplySet(p: Plan, fields: seq<Assignment>): Plan
    decreases |fields|
  {
    if fields == [] then p
    else
      var q := match fields[0]
        case SetQty(v) => p.(plannedQty := v)
        case SetNote(n) => p.(note := n);
      ApplySet(q, fields[1..])
  }

  /** The SET list the handler builds does what the patch describes. */
  lemma SetListPatches(p: Plan, u: PlanPatch)
    ensures ApplySet(p, SetList(u)) == Patched(p, u)
  {
    var f := SetList(u);
    if u.plannedQty.Some? && !u.note.Absent? {
      var q := p.(plannedQty := u.plannedQty.value);
      assert f[1..] == [f[1]];
      assert ApplySet(p, f) == ApplySet(q, [f[1]]);
    }
  }

  /** `UPDATE plan SET … WHERE id = ?` */
  function UpdateById(s: seq<Plan>, id: real, u: PlanPatch): (t: seq<Plan>)
    ensures |t| == |s|
    ensures forall i :: 0 <= i < |s| ==> t[i] == if IdIs(s[i].id, id) then Patched(s[i], u) else s[i]
  {
    seq(|s|, i requires 0 <= i < |s| => if IdIs(s[i].id, id) then Patched(s[i], u) else s[i])
  }

  /** The UPDATE with a SET list as the handler runs it. */
  function ApplyById(s: seq<Plan>, id: real, fields: seq<Assignment>): (t: seq<Plan>)
    ensures |t| == |s|
    ensures forall i :: 0 <= i < |s| ==> t[i] == if IdIs(s[i].id, id) then ApplySet(s[i], fields) else s[i]
  {
    seq(|s|, i requires 0 <= i < |s| => if IdIs(s[i].id, id) then ApplySet(s[i], fields) else s[i])
  }

  /** Running the handler's SET list is the update the patch describes. */
  lemma ApplySetList(s: seq<Plan>, id: real, u: PlanPatch)
    ensures ApplyById(s, id, SetList(u)) == UpdateById(s, id, u)
  {
    var t := ApplyById(s, id, SetList(u));
    forall i | 0 <= i < |s| ensures t[i] == UpdateById(s, id, u)[i] {
      SetListPatches(s[i], u);
    }
  }

  /** The update changes at most one row, keeps every key, version and id, and so
      keeps the table well formed. */
  lemma UpdateByIdEffect(s: seq<Plan>, d: bool, n: int, id: real, u: PlanPatch)
    requires WellFormed(PlanShape, d, s, n)
    ensures WellFormed(PlanShape, d, UpdateById(s, id, u), n)
    ensures forall i :: 0 <= i < |s| ==>
              PlanKeyOf(UpdateById(s, id, u)[i]) == PlanKeyOf(s[i]) && UpdateById(s, id, u)[i].id == s[i].id
    ensures forall i, j :: (0 <= i < |s| && 0 <= j < |s| &&
              UpdateById(s, id, u)[i] != s[i] && UpdateById(s, id, u)[j] != s[j]) ==> i == j
  {
    var t := UpdateById(s, id, u);
    forall i, j | 0 <= i < j < |t| ensures !Collide(PlanShape, d, t[i], t[j]) {
      assert PlanKeyOf(t[i]) == PlanKeyOf(s[i]) && PlanKeyOf(t[j]) == PlanKeyOf(s[j]);
      assert !Collide(PlanShape, d, s[i], s[j]);
    }
    forall i | 0 <= i < |t| ensures t[i].id == s[i].id {
    }
  }

  // ---------------------------------------------------------------- DELETE /api/plans/:id

  /** `DELETE FROM plan WHERE id = ?` */
  function DeleteById(s: seq<Plan>, id: real): (t: seq<Plan>)
    ensures forall x :: x in t <==> x in s && !IdIs(x.id, id)
  {
    Filter(s, (p: Plan) => !IdIs(p.id, id))
  }

  /** Deleting by id removes exactly the one row with that id, wherever it is, and
      leaves the table as it was when there is none. Other versions of the same
      plan stay. */
  lemma DeleteByIdEffect(s: seq<Plan>, d: bool, n: int, id: real)
    requires WellFormed(PlanShape, d, s, n)
    ensures WellFormed(PlanShape, d, DeleteById(s, id), n)
    ensures (forall i :: 0 <= i < |s| ==> !IdIs(s[i].id, id)) ==> DeleteById(s, id) == s
    ensures forall i :: 0 <= i < |s| && IdIs(s[i].id, id) ==> DeleteById(s, id) == s[..i] + s[i + 1..]
  {
    var p := (x: Plan) => !IdIs(x.id, id);
    FilterWellFormed(PlanShape, d, s, p, n);
    FilterAllOrNone(s, p);
    forall i | 0 <= i < |s| && IdIs(s[i].id, id) ensures DeleteById(s, id) == s[..i] + s[i + 1..] {
      forall j | 0 <= j < |s| && j != i ensures p(s[j]) {
        assert s[j].id != s[i].id;
      }
      FilterDropsOne(s, p, i);
    }
  }

  // ---------------------------------------------------------------- versions

  /** farm, period type and period key: the scope bump-version and bulk-copy work on. */
  datatype Scope = Scope(farmId: int, periodType: string, periodKey: string)

  /** `{ farm_id, period_type, period_key }` of a request body. */
  datatype ScopeBody = ScopeBody(farmId: Option<int>, periodType: Option<string>, periodKey: Option<string>)

  /** The scope named by a body, or None when a field is falsy (400). */
  function ScopeOf(b: ScopeBody): (sc: Option<Scope>)
    ensures sc.Some? <==> IntTruthy(b.farmId) && StrTruthy(b.periodType) && StrTruthy(b.periodKey)
    ensures sc.Some? ==> sc.value == Scope(b.farmId.value, b.periodType.value, b.periodKey.value)
  {
    if IntTruthy(b.farmId) && StrTruthy(b.periodType) && StrTruthy(b.periodKey)
    then Some(Scope(b.farmId.value, b.periodType.value, b.periodKey.value))
    else None
  }

  predicate InScope(p: Plan, sc: Scope) {
    p.farmId == sc.farmId && p.periodType == sc.periodType && p.periodKey == sc.periodKey
  }

  /** `SELECT MAX(version) … WHERE farm_id=? AND period_type=? AND period_key=?`,
      None for SQL NULL (no row in scope). */
  function MaxVersion(s: seq<Plan>, sc: Scope): (m: Option<int>)
    ensures m.None? <==> forall i :: 0 <= i < |s| ==> !InScope(s[i], sc)
    ensures m.Some? ==> exists i :: 0 <= i < |s| && InScope(s[i], sc) && s[i].version == m.value
    ensures m.Some? ==> forall i :: 0 <= i < |s| && InScope(s[i], sc) ==> s[i].version <= m.value
  {
    if s == [] then None
    else
      var m := MaxVersion(s[1..], sc);
      assert forall i :: 1 <= i < |s| ==> s[i] == s[1..][i - 1];
      if !InScope(s[0], sc) then m
      else if m.None? || m.value < s[0].version then Some(s[0].version)
      else m
  }

  /** `COALESCE(MAX(version),0)+1` */
  function NextVersion(s: seq<Plan>, sc: Scope): (v: int)
    ensures forall i :: 0 <= i < |s| && InScope(s[i], sc) ==> s[i].version < v
    ensures v == 1 || exists i :: 0 <= i < |s| && InScope(s[i], sc) && s[i].version == v - 1
  {
    match MaxVersion(s, sc)
    case None => 1
    case Some(m) => m + 1
  }

  /** Rows of the scope at the scope-wide maximum version. */
  predicate AtMax(s: seq<Plan>, sc: Scope, p: Plan) {
    InScope(p, sc) && MaxVersion(s, sc) == Some(p.version)
  }

  /** The rows the `INSERT … SELECT` reads: the scope's rows at its maximum version,
      in table order. */
  function Latest(s: seq<Plan>, sc: Scope): (r: seq<Plan>)
    ensures forall x :: x in r <==> x in s && AtMax(s, sc, x)
  {
    Filter(s, AtMaxOf(s, sc))
  }

  function AtMaxOf(s: seq<Plan>, sc: Scope): Plan -> bool {
    (p: Plan) => AtMax(s, sc, p)
  }

  /** The row written for source row p: the destination scope and version, the
      source's plot, rubber type, quantity and note, and a new id. */
  function CopyTo(p: Plan, dst: Scope, version: int, id: int): (c: Plan)
    ensures InScope(c, dst) && c.version == version && c.id == id
    ensures c.plotId == p.plotId && c.rubberTypeId == p.rubberTypeId
    ensures c.plannedQty == p.plannedQty && c.note == p.note
  {
    p.(id := id, farmId := dst.farmId, periodType := dst.periodType, periodKey := dst.periodKey,
       version := version)
  }

  /** The copies of src, taking consecutive AUTO_INCREMENT ids from firstId. */
  function CopiesOf(src: seq<Plan>, dst: Scope, version: int, firstId: int): (r: seq<Plan>)
    ensures |r| == |src|
    ensures forall j :: 0 <= j < |src| ==> r[j] == CopyTo(src[j], dst, version, firstId + j)
    ensures ConsecutiveIds(PlanShape, r, firstId)
  {
    seq(|src|, j requires 0 <= j < |src| => CopyTo(src[j], dst, version, firstId + j))
  }

  /** The copies of the rows at the source scope's maximum version never collide
      with each other: those rows agree on farm, period and version, so two copies
      clash only if their sources already did. */
  lemma CopiesApart(s: seq<Plan>, d: bool, n: int, src: Scope, dst: Scope, version: int, firstId: int)
    requires WellFormed(PlanShape, d, s, n)
    ensures PairwiseApart(PlanShape, d, CopiesOf(Latest(s, src), dst, version, firstId))
  {
    var l := Latest(s, src);
    FilterWellFormed(PlanShape, d, s, AtMaxOf(s, src), n);
    var c := CopiesOf(l, dst, version, firstId);
    forall i, j | 0 <= i < j < |c| ensures !Collide(PlanShape, d, c[i], c[j]) {
      assert l[i] in l && l[j] in l;
      assert PlanKeyOf(c[i]) == PlanKeyOf(c[j]) ==> PlanKeyOf(l[i]) == PlanKeyOf(l[j]);
      assert !Collide(PlanShape, d, l[i], l[j]);
    }
  }

  // ---------------------------------------------------------------- POST /api/plans/bump-version

  /** The copies bump-version inserts. */
  function BumpCopies(s: seq<Plan>, sc: Scope, firstId: int): seq<Plan> {
    CopiesOf(Latest(s, sc), sc, NextVersion(s, sc), firstId)
  }

  /** The plan table after bump-version. */
  function Bump(s: seq<Plan>, d: bool, sc: Scope, firstId: int): seq<Plan> {
    UpsertAll(PlanShape, d, PlanMerge, s, BumpCopies(s, sc, firstId))
  }

  /** Bump-version never hits ON DUPLICATE KEY: it appends one copy of each row at
      the scope's maximum version, at the next version, and changes no existing
      row; the table stays well formed. */
  lemma BumpAppends(s: seq<Plan>, d: bool, n: int, sc: Scope)
    requires WellFormed(PlanShape, d, s, n) && n >= 1
    ensures Bump(s, d, sc, n) == s + BumpCopies(s, sc, n)
    ensures WellFormed(PlanShape, d, Bump(s, d, sc, n), n + |BumpCopies(s, sc, n)|)
  {
    var c := BumpCopies(s, sc, n);
    var v := NextVersion(s, sc);
    CopiesApart(s, d, n, sc, sc, v, n);
    forall i, j | 0 <= i < |s| && 0 <= j < |c| ensures !Collide(PlanShape, d, s[i], c[j]) {
      assert InScope(c[j], sc) && c[j].version == v;
    }
    UpsertAllAppends(PlanShape, d, PlanMerge, s, c);
    UpsertAllWellFormed(PlanShape, d, PlanMerge, s, c, n);
  }

  /** Appending non-empty rows of a scope, all at a version above every row of
      the scope, makes that version the scope's maximum. */
  lemma MaxVersionAppend(s: seq<Plan>, c: seq<Plan>, sc: Scope, v: int)
    requires c != [] && forall j :: 0 <= j < |c| ==> InScope(c[j], sc) && c[j].version == v
    requires forall i :: 0 <= i < |s| && InScope(s[i], sc) ==> s[i].version < v
    ensures MaxVersion(s + c, sc) == Some(v)
  {
    var t := s + c;
    assert InScope(t[|s|], sc) && t[|s|].version == v;
    forall i | 0 <= i < |t| && InScope(t[i], sc) ensures t[i].version <= v {
      if i >= |s| {
        assert t[i] == c[i - |s|];
      }
    }
  }

  /** After bump-version, when the scope had rows, the scope's new maximum is the
      next version and the rows at it are exactly the copies: in source order,
      with the same plot, rubber type, quantity and note as the rows at the old
      maximum. */
  lemma BumpNewLatest(s: seq<Plan>, d: bool, n: int, sc: Scope)
    requires WellFormed(PlanShape, d, s, n) && n >= 1
    requires exists i :: 0 <= i < |s| && InScope(s[i], sc)
    ensures MaxVersion(Bump(s, d, sc, n), sc) == Some(NextVersion(s, sc))
    ensures Latest(Bump(s, d, sc, n), sc) == BumpCopies(s, sc, n)
  {
    BumpAppends(s, d, n, sc);
    var c := BumpCopies(s, sc, n);
    var v := NextVersion(s, sc);
    var m := MaxVersion(s, sc).value;
    var i0 :| 0 <= i0 < |s| && InScope(s[i0], sc) && s[i0].version == m;
    assert s[i0] in Latest(s, sc);
    MaxVersionAppend(s, c, sc, v);
    LatestOfAppend(s, c, sc, v);
  }

  /** When appended rows hold the new maximum version of a scope, they are
      exactly the scope's latest rows. */
  lemma LatestOfAppend(s: seq<Plan>, c: seq<Plan>, sc: Scope, v: int)
    requires MaxVersion(s + c, sc) == Some(v)
    requires forall j :: 0 <= j < |c| ==> InScope(c[j], sc) && c[j].version == v
    requires forall i :: 0 <= i < |s| && InScope(s[i], sc) ==> s[i].version < v
    ensures Latest(s + c, sc) == c
  {
    var t := s + c;
    var p := AtMaxOf(t, sc);
    assert forall i :: 0 <= i < |s| ==> !p(s[i]);
    assert forall j :: 0 <= j < |c| ==> p(c[j]);
    FilterConcat(s, c, p);
    FilterAllOrNone(s, p);
    FilterAllOrNone(c, p);
    assert Filter(t, p) == [] + c;
  }

  // ---------------------------------------------------------------- POST /api/plans/bulk-copy

  /** `dst`: a scope and an optional target version. */
  datatype DstBody = DstBody(farmId: Option<int>, periodType: Option<string>, periodKey: Option<string>,
                             version: Option<int>)

  function DstScope(b: DstBody): Option<Scope> {
    ScopeOf(ScopeBody(b.farmId, b.periodType, b.periodKey))
  }

  /** `Number(dst.version || 1)` */
  function DstVersion(b: DstBody): (v: int)
    ensures IntTruthy(b.version) ==> v == b.version.value
    ensures !IntTruthy(b.version) ==> v == 1
  {
    if IntTruthy(b.version) then b.version.value else 1
  }

  /** The bulk-copy request body: `{ src, dst }`, either of which may be missing. */
  datatype CopyBody = CopyBody(src: Option<ScopeBody>, dst: Option<DstBody>)

  /** The source scope, destination scope and destination version of an accepted
      bulk-copy, or None (400) when src or dst is missing or names a falsy farm,
      period type or period key. */
  function CopyRequest(b: CopyBody): (r: Option<(Scope, Scope, int)>)
    ensures r.None? <==> b.src.None? || b.dst.None? || ScopeOf(b.src.value).None? || DstScope(b.dst.value).None?
    ensures r.Some? ==> r.value == (ScopeOf(b.src.value).value, DstScope(b.dst.value).value, DstVersion(b.dst.value))
  {
    if b.src.None? || b.dst.None? then None
    else
      var src := ScopeOf(b.src.value);
      var dst := DstScope(b.dst.value);
      if src.None? || dst.None? then None
      else Some((src.value, dst.value, DstVersion(b.dst.value)))
  }

  /** The plan table after a bulk-copy from src into dst at version dVer. */
  function BulkCopy(s: seq<Plan>, d: bool, src: Scope, dst: Scope, dVer: int, firstId: int): seq<Plan> {
    UpsertAll(PlanShape, d, PlanMerge, s, CopiesOf(Latest(s, src), dst, dVer, firstId))
  }

  /** Bulk-copy keeps the table well formed; every existing row keeps its place and
      key, and a row outside the destination scope and version is untouched (so
      the source rows are untouched unless source and destination coincide). */
  lemma BulkCopyKeeps(s: seq<Plan>, d: bool, n: int, src: Scope, dst: Scope, dVer: int)
    requires WellFormed(PlanShape, d, s, n) && n >= 1
    ensures var t := BulkCopy(s, d, src, dst, dVer, n);
      && WellFormed(PlanShape, d, t, n + |Latest(s, src)|)
      && |s| <= |t|
      && (forall i :: 0 <= i < |s| ==> PlanKeyOf(t[i]) == PlanKeyOf(s[i]) && t[i].id == s[i].id)
      && (forall i :: 0 <= i < |s| && !(InScope(s[i], dst) && s[i].version == dVer) ==> t[i] == s[i])
  {
    var c := CopiesOf(Latest(s, src), dst, dVer, n);
    var t := BulkCopy(s, d, src, dst, dVer, n);
    UpsertAllWellFormed(PlanShape, d, PlanMerge, s, c, n);
    UpsertAllKeepsKeys(PlanShape, d, PlanMerge, s, c);
    forall i | 0 <= i < |s| ensures t[i].id == s[i].id {
      assert t[i] in t;
      assert PlanKeyOf(t[i]) == PlanKeyOf(s[i]);
      BulkCopyIdKept(s, d, n, c, i);
    }
    forall i | 0 <= i < |s| && !(InScope(s[i], dst) && s[i].version == dVer) ensures t[i] == s[i] {
      forall j | 0 <= j < |c| ensures !Collide(PlanShape, d, s[i], c[j]) {
        assert InScope(c[j], dst) && c[j].version == dVer;
      }
      UpsertAllKeepsOthers(PlanShape, d, PlanMerge, s, c, i);
    }
  }

  /** Bulk-copy adds nothing but copies: at most one row per source row at the
      source's maximum version, every added row a copy, and an existing row that
      no copy collides with stays as it was. */
  lemma BulkCopyAddsOnlyCopies(s: seq<Plan>, d: bool, n: int, src: Scope, dst: Scope, dVer: int)
    requires WellFormed(PlanShape, d, s, n)
    ensures var t := BulkCopy(s, d, src, dst, dVer, n);
      var c := CopiesOf(Latest(s, src), dst, dVer, n);
      && |s| <= |t| <= |s| + |Latest(s, src)|
      && (forall i :: |s| <= i < |t| ==> t[i] in c)
      && (forall i :: 0 <= i < |s| && (forall j :: 0 <= j < |c| ==> !Collide(PlanShape, d, s[i], c[j])) ==>
            t[i] == s[i])
  {
    var c := CopiesOf(Latest(s, src), dst, dVer, n);
    CopiesApart(s, d, n, src, dst, dVer, n);
    UpsertAllNewRows(PlanShape, d, PlanMerge, s, c);
    forall i | 0 <= i < |s| && (forall j :: 0 <= j < |c| ==> !Collide(PlanShape, d, s[i], c[j]))
      ensures BulkCopy(s, d, src, dst, dVer, n)[i] == s[i]
    {
      UpsertAllKeepsOthers(PlanShape, d, PlanMerge, s, c, i);
    }
  }

  /** Upserts keep the id of every existing row. */
  lemma {:induction false} BulkCopyIdKept(s: seq<Plan>, d: bool, n: int, rows: seq<Plan>, i: int)
    requires 0 <= i < |s|
    ensures |s| <= |UpsertAll(PlanShape, d, PlanMerge, s, rows)|
    ensures UpsertAll(PlanShape, d, PlanMerge, s, rows)[i].id == s[i].id
    decreases |rows|
  {
    UpsertAllKeepsKeys(PlanShape, d, PlanMerge, s, rows);
    if rows != [] {
      var t := Upsert(PlanShape, d, PlanMerge, s, rows[0]);
      var k := FirstClash(PlanShape, d, s, rows[0]);
      assert t[i].id == s[i].id;
      BulkCopyIdKept(t, d, n, rows[1..], i);
    }
  }

  /** q is a copy of p at the destination scope and version: same plot and rubber
      type, same planned quantity and note. */
  predicate CopiedAs(q: Plan, p: Plan, dst: Scope, dVer: int) {
    InScope(q, dst) && q.version == dVer && q.plotId == p.plotId && q.rubberTypeId == p.rubberTypeId &&
    q.plannedQty == p.plannedQty && q.note == p.note
  }

  /** After bulk-copy, for every source row at the source's maximum version the
      destination holds a row with its plot and rubber type, at the destination
      farm, period and version, carrying its planned quantity and note. */
  lemma BulkCopyHolds(s: seq<Plan>, d: bool, n: int, src: Scope, dst: Scope, dVer: int)
    requires WellFormed(PlanShape, d, s, n)
    ensures var t := BulkCopy(s, d, src, dst, dVer, n);
      forall p :: p in s && AtMax(s, src, p) ==> exists i :: 0 <= i < |t| && CopiedAs(t[i], p, dst, dVer)
  {
    var l := Latest(s, src);
    var c := CopiesOf(l, dst, dVer, n);
    var t := BulkCopy(s, d, src, dst, dVer, n);
    CopiesApart(s, d, n, src, dst, dVer, n);
    PlanMergeLaws();
    UpsertAllHolds(PlanShape, d, PlanMerge, s, c);
    forall p | p in s && AtMax(s, src, p)
      ensures exists i :: 0 <= i < |t| && CopiedAs(t[i], p, dst, dVer)
    {
      assert p in l;
      var j :| 0 <= j < |l| && l[j] == p;
      assert Present(PlanShape, PlanMerge, t, c[j]);
      var i :| 0 <= i < |t| && Holds(PlanShape, PlanMerge, t[i], c[j]);
      assert PlanKeyOf(t[i]) == PlanKeyOf(c[j]);
      assert PlanMerge(t[i], c[j]) == t[i];
    }
  }
}
