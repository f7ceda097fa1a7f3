/** The statistics page: the dry-rubber factor resolver, the per-day metrics of the
    fetched actuals, the column totals, the inclusive day count and the CSV rows of
    the export. */
module StatsPage {
  import opened Base
  import opened Calendar
  import opened Sorting
  import opened Tables
  import opened Schema

  // ---------------------------------------------------------------- pickFor

  /** `byRt.get(rtId) || []`: the conversions of one rubber type, in list order. */
  function OfType(cs: seq<Conversion>, rt: int): (r: seq<Conversion>)
    ensures forall c :: c in r <==> c in cs && c.rubberTypeId == rt
  {
    Filter(cs, (c: Conversion) => c.rubberTypeId == rt)
  }

  function FarmRows(arr: seq<Conversion>, f: int): (r: seq<Conversion>)
    ensures forall c :: c in r <==> c in arr && c.farmId == Some(f)
  {
    Filter(arr, (c: Conversion) => c.farmId == Some(f))
  }

  function DefaultRows(arr: seq<Conversion>): (r: seq<Conversion>)
    ensures forall c :: c in r <==> c in arr && c.farmId.None?
  {
    Filter(arr, (c: Conversion) => c.farmId.None?)
  }

  /** `pickList`: the farm's own rows when a farm is given and has any, else the
      system-wide rows (NULL farm), else every row of the rubber type. */
  function Candidates(arr: seq<Conversion>, farm: Option<int>): (r: seq<Conversion>)
    ensures arr != [] ==> r != []
    ensures forall c :: c in r ==> c in arr
  {
    var farmList := if farm.Some? then FarmRows(arr, farm.value) else [];
    var defaultList := DefaultRows(arr);
    if |farmList| > 0 then
      assert farmList[0] in farmList;
      farmList
    else if |defaultList| > 0 then
      assert defaultList[0] in defaultList;
      defaultList
    else
      assert arr != [] ==> arr[0] in arr;
      arr
  }

  /** Which rows pickList holds: the farm's rows when the farm has any; otherwise
      the rows without a farm when there are any; otherwise every row. */
  lemma CandidatesRows(arr: seq<Conversion>, farm: Option<int>)
    ensures farm.Some? && (exists c :: c in arr && c.farmId == farm) ==>
      forall c :: c in Candidates(arr, farm) <==> c in arr && c.farmId == farm
    ensures (farm.None? || forall c :: c in arr ==> c.farmId != farm) && (exists c :: c in arr && c.farmId.None?) ==>
      forall c :: c in Candidates(arr, farm) <==> c in arr && c.farmId.None?
    ensures (farm.None? || forall c :: c in arr ==> c.farmId != farm) && (forall c :: c in arr ==> c.farmId.Some?) ==>
      Candidates(arr, farm) == arr
  {
    if farm.Some? && (exists c :: c in arr && c.farmId == farm) {
      var c :| c in arr && c.farmId == farm;
      assert c in FarmRows(arr, farm.value);
    } else {
      if farm.Some? {
        NothingIn(FarmRows(arr, farm.value));
      }
      if exists c :: c in arr && c.farmId.None? {
        var c :| c in arr && c.farmId.None?;
        assert c in DefaultRows(arr);
      } else {
        NothingIn(DefaultRows(arr));
      }
    }
  }

  /** A list that holds no row is empty. */
  lemma NothingIn(s: seq<Conversion>)
    ensures (forall c :: c !in s) ==> s == []
  {
    if s != [] {
      assert s[0] in s;
    }
  }

  /** Sort key of the descending `effective_from` order. */
  function NewestFirst(c: Conversion): seq<Cell> {
    [Int(-c.effectiveFrom.year), Int(-c.effectiveFrom.month), Int(-c.effectiveFrom.day)]
  }

  /** In a list sorted newest first, no row is older than one after it. */
  lemma NewestFirstOrder(r: seq<Conversion>, i: int, j: int)
    requires Sorted(r, NewestFirst) && 0 <= i < j < |r|
    ensures !Before(r[i].effectiveFrom, r[j].effectiveFrom)
  {
    var a := r[i].effectiveFrom;
    var b := r[j].effectiveFrom;
    var kj := NewestFirst(r[j]);
    var ki := NewestFirst(r[i]);
    assert !KeyLt(kj, ki);
    assert kj[1..] == [Int(-b.month), Int(-b.day)] && ki[1..] == [Int(-a.month), Int(-a.day)];
    assert kj[1..][1..] == [Int(-b.day)] && ki[1..][1..] == [Int(-a.day)];
    assert kj[1..][1..][1..] == [] && ki[1..][1..][1..] == [];
    assert Before(a, b) ==> KeyLt(kj, ki);
  }

  /** No row of the list is older than one after it. */
  predicate NewestFirstSorted(r: seq<Conversion>) {
    forall i, j :: 0 <= i < j < |r| ==> !Before(r[i].effectiveFrom, r[j].effectiveFrom)
  }

  lemma SortedNewestFirst(r: seq<Conversion>)
    requires Sorted(r, NewestFirst)
    ensures NewestFirstSorted(r)
  {
    forall i, j | 0 <= i < j < |r|
      ensures !Before(r[i].effectiveFrom, r[j].effectiveFrom)
    {
      NewestFirstOrder(r, i, j);
    }
  }

  /** c is a row pickFor may choose from the list: the latest row in effect on
      dateTo; when no row is in effect yet, the latest row of all. */
  predicate LatestInEffect(c: Conversion, list: seq<Conversion>, dateTo: Date) {
    || (OnOrBefore(c.effectiveFrom, dateTo) &&
        forall x :: x in list && OnOrBefore(x.effectiveFrom, dateTo) ==> !Before(c.effectiveFrom, x.effectiveFrom))
    || ((forall x :: x in list ==> !OnOrBefore(x.effectiveFrom, dateTo)) &&
        forall x :: x in list ==> !Before(c.effectiveFrom, x.effectiveFrom))
  }

  /** Scanning a list sorted newest first, the first row in effect on dateTo is
      the latest row in effect. */
  lemma ScanFound(pickList: seq<Conversion>, i: int, dateTo: Date)
    requires NewestFirstSorted(pickList) && 0 <= i < |pickList|
    requires OnOrBefore(pickList[i].effectiveFrom, dateTo)
    requires forall k :: 0 <= k < i ==> !OnOrBefore(pickList[k].effectiveFrom, dateTo)
    ensures LatestInEffect(pickList[i], pickList, dateTo)
  {
    var c := pickList[i];
    forall x | x in pickList && OnOrBefore(x.effectiveFrom, dateTo)
      ensures !Before(c.effectiveFrom, x.effectiveFrom)
    {
      var k :| 0 <= k < |pickList| && pickList[k] == x;
      assert k >= i;
    }
  }

  /** When no row is in effect, the head of a list sorted newest first is the
      latest row. */
  lemma ScanMissed(pickList: seq<Conversion>, dateTo: Date)
    requires NewestFirstSorted(pickList) && pickList != []
    requires forall k :: 0 <= k < |pickList| ==> !OnOrBefore(pickList[k].effectiveFrom, dateTo)
    ensures LatestInEffect(pickList[0], pickList, dateTo)
  {
    var c := pickList[0];
    forall x | x in pickList ensures !Before(c.effectiveFrom, x.effectiveFrom) {
      var k :| 0 <= k < |pickList| && pickList[k] == x;
    }
  }

  /** LatestInEffect depends only on which rows the list holds. */
  lemma LatestInEffectSameRows(c: Conversion, a: seq<Conversion>, b: seq<Conversion>, dateTo: Date)
    requires forall x :: x in a <==> x in b
    requires LatestInEffect(c, a, dateTo)
    ensures LatestInEffect(c, b, dateTo)
  {
  }

  /** Two rows have the same newest-first key exactly when they take effect on the
      same date. */
  lemma NewestFirstKey(a: Conversion, b: Conversion)
    ensures NewestFirst(a) == NewestFirst(b) <==> a.effectiveFrom == b.effectiveFrom
  {
    if NewestFirst(a) == NewestFirst(b) {
      assert NewestFirst(a)[0] == NewestFirst(b)[0];
      assert NewestFirst(a)[1] == NewestFirst(b)[1];
      assert NewestFirst(a)[2] == NewestFirst(b)[2];
    }
  }

  /** `pickList.sort(...)`: the candidates, newest first. The sort is stable, so
      rows of one effective date keep their order in the candidates. */
  function NewestFirstOrderOf(cands: seq<Conversion>): (r: seq<Conversion>)
    ensures NewestFirstSorted(r)
    ensures |r| == |cands|
    ensures multiset(r) == multiset(cands)
    ensures forall x :: x in r <==> x in cands
    ensures forall k :: WithKey(r, NewestFirst, k) == WithKey(cands, NewestFirst, k)
  {
    var r := SortBy(cands, NewestFirst);
    SortedNewestFirst(r);
    assert forall x :: x in r <==> x in multiset(r);
    assert forall x :: x in cands <==> x in multiset(cands);
    forall k ensures WithKey(r, NewestFirst, k) == WithKey(cands, NewestFirst, k) {
      SortByStable(cands, NewestFirst, k);
    }
    r
  }

  /** f is the factor of a row pickFor may choose from the list. */
  predicate PickedFrom(f: real, list: seq<Conversion>, dateTo: Date) {
    exists c :: c in list && LatestInEffect(c, list, dateTo) && f == c.factor
  }

  /** A rubber type has no conversion rows exactly when no conversion is of it. */
  lemma OfTypeEmpty(cs: seq<Conversion>, rt: int)
    ensures OfType(cs, rt) == [] <==> forall c :: c in cs ==> c.rubberTypeId != rt
  {
    if OfType(cs, rt) != [] {
      assert OfType(cs, rt)[0] in OfType(cs, rt);
    }
  }

  /** i is where the scan of pickFor stops: the first row of the list in effect on
      dateTo. */
  predicate FirstInEffectAt(list: seq<Conversion>, i: int, dateTo: Date) {
    && 0 <= i < |list|
    && OnOrBefore(list[i].effectiveFrom, dateTo)
    && forall k :: 0 <= k < i ==> !OnOrBefore(list[k].effectiveFrom, dateTo)
  }

  /** The scan of pickFor over a list sorted newest first: the first row in
      effect on dateTo, or the head of the list when no row is in effect yet. */
  method ChooseIn(pickList: seq<Conversion>, dateTo: Date) returns (chosen: Conversion)
    requires NewestFirstSorted(pickList) && pickList != []
    ensures chosen in pickList && LatestInEffect(chosen, pickList, dateTo)
    ensures (exists k :: 0 <= k < |pickList| && OnOrBefore(pickList[k].effectiveFrom, dateTo)) ==>
      exists i :: FirstInEffectAt(pickList, i, dateTo) && chosen == pickList[i]
    ensures (forall k :: 0 <= k < |pickList| ==> !OnOrBefore(pickList[k].effectiveFrom, dateTo)) ==>
      chosen == pickList[0]
  {
    var i := 0;
    while i < |pickList|
      invariant 0 <= i <= |pickList|
      invariant forall k :: 0 <= k < i ==> !OnOrBefore(pickList[k].effectiveFrom, dateTo)
    {
      if OnOrBefore(pickList[i].effectiveFrom, dateTo) {
        ScanFound(pickList, i, dateTo);
        assert FirstInEffectAt(pickList, i, dateTo);
        return pickList[i];
      }
      i := i + 1;
    }
    ScanMissed(pickList, dateTo);
    chosen := pickList[0];
  }

  /** i is the row pickFor chooses from the list, described without the sort: the
      first row, in list order, that is latest in effect on dateTo. */
  predicate FirstLatestAt(list: seq<Conversion>, i: int, dateTo: Date) {
    && 0 <= i < |list|
    && LatestInEffect(list[i], list, dateTo)
    && forall j :: 0 <= j < i ==> !LatestInEffect(list[j], list, dateTo)
  }

  /** pickFor(rtId, farm): no factor when the rubber type has no conversion;
      otherwise the factor of the latest candidate in effect on dateTo, or of the
      latest candidate when none is in effect yet. Among tied rows (one date) the
      stable sort and the `break` make it the first in candidate order. */
  method PickFor(cs: seq<Conversion>, rt: int, farm: Option<int>, dateTo: Date) returns (f: Option<real>)
    ensures f.None? <==> forall c :: c in cs ==> c.rubberTypeId != rt
    ensures f.Some? ==> PickedFrom(f.value, Candidates(OfType(cs, rt), farm), dateTo)
    ensures f.Some? ==> exists i :: FirstLatestAt(Candidates(OfType(cs, rt), farm), i, dateTo) &&
                                    f.value == Candidates(OfType(cs, rt), farm)[i].factor
  {
    var arr := OfType(cs, rt);
    OfTypeEmpty(cs, rt);
    if |arr| == 0 {
      return None;
    }
    var cands := Candidates(arr, farm);
    var pickList := NewestFirstOrderOf(cands);
    var c := ChooseIn(pickList, dateTo);
    LatestInEffectSameRows(c, pickList, cands, dateTo);
    ghost var p := 0;
    if exists k :: 0 <= k < |pickList| && OnOrBefore(pickList[k].effectiveFrom, dateTo) {
      p :| FirstInEffectAt(pickList, p, dateTo) && c == pickList[p];
    }
    StableFirst(cands, c, p, dateTo);
    f := Some(c.factor);
  }

  /** A row of another date than a latest-in-effect row is not latest in effect. */
  lemma NotLatest(x: Conversion, c: Conversion, list: seq<Conversion>, dateTo: Date)
    requires x in list && c in list && LatestInEffect(c, list, dateTo)
    requires x.effectiveFrom != c.effectiveFrom
    ensures !LatestInEffect(x, list, dateTo)
  {
  }

  /** The first row of its date in the sorted list is, by stability, the first row
      of that date in the candidates, and so the first latest-in-effect one. */
  lemma StableFirst(cands: seq<Conversion>, c: Conversion, p: int, dateTo: Date)
    requires 0 <= p < |NewestFirstOrderOf(cands)| && NewestFirstOrderOf(cands)[p] == c
    requires forall j :: 0 <= j < p ==> NewestFirstOrderOf(cands)[j].effectiveFrom != c.effectiveFrom
    requires LatestInEffect(c, cands, dateTo)
    ensures exists i :: FirstLatestAt(cands, i, dateTo) && cands[i] == c
  {
    var pickList := NewestFirstOrderOf(cands);
    var k := NewestFirst(c);
    forall j | 0 <= j < p ensures NewestFirst(pickList[j]) != k {
      NewestFirstKey(pickList[j], c);
    }
    WithKeyHead(pickList, NewestFirst, k, p);
    WithKeyFirst(cands, NewestFirst, k);
    var i :| 0 <= i < |cands| && cands[i] == WithKey(cands, NewestFirst, k)[0] && NewestFirst(cands[i]) == k &&
             forall j :: 0 <= j < i ==> NewestFirst(cands[j]) != k;
    assert c in cands by { assert c in pickList; }
    forall j | 0 <= j < i ensures !LatestInEffect(cands[j], cands, dateTo) {
      NewestFirstKey(cands[j], c);
      NotLatest(cands[j], c, cands, dateTo);
    }
    assert FirstLatestAt(cands, i, dateTo);
  }

  /** Two rows either of which pickFor may choose have the same effective date, so
      on a list with one row per date the factor is determined. */
  lemma LatestInEffectDate(c1: Conversion, c2: Conversion, list: seq<Conversion>, dateTo: Date)
    requires c1 in list && c2 in list
    requires LatestInEffect(c1, list, dateTo) && LatestInEffect(c2, list, dateTo)
    ensures c1.effectiveFrom == c2.effectiveFrom
  {
  }

  // ---------------------------------------------------------------- daily metrics

  /** An actual as the page reads it: the date string it groups by and its
      quantity as `Number(r.qty || 0)`, None where that is NaN. */
  datatype ActualRow = ActualRow(date: string, qty: Option<real>)

  /** The row the page reads from a fetched actual with the given date and qty. */
  function RowOf(date: string, qty: JsValue): (r: ActualRow)
    ensures r.date == date
    ensures !Truthy(qty) ==> r.qty == Some(0.0)
    ensures Truthy(qty) ==> r.qty == ToNumber(qty)
  {
    ActualRow(date, NumberOfOrZero(qty))
  }

  /** One step of `prev || 0` then `+ Number(r.qty || 0)`; None is NaN. A NaN
      running total is falsy, so the next row of that date starts again from 0. */
  function AddQty(prev: Option<real>, q: Option<real>): (r: Option<real>)
    ensures q.None? ==> r.None?
    ensures q.Some? && prev.Some? ==> r == Some(prev.value + q.value)
    ensures q.Some? && prev.None? ==> r == q
  {
    var base := if prev.Some? then prev.value else 0.0;
    if q.Some? then Some(base + q.value) else None
  }

  /** What the Map holds for date d after the rows (0 before any row of d). */
  function DayTotal(rows: seq<ActualRow>, d: string): Option<real> {
    if rows == [] then Some(0.0)
    else
      var last := rows[|rows| - 1];
      var t := DayTotal(rows[..|rows| - 1], d);
      if last.date == d then AddQty(t, last.qty) else t
  }

  /** Every qty converts to a number. */
  predicate AllNumeric(rows: seq<ActualRow>) {
    forall i :: 0 <= i < |rows| ==> rows[i].qty.Some?
  }

  /** The quantities of date d added up front to back, the reference sum. */
  function DaySum(rows: seq<ActualRow>, d: string): real
    requires AllNumeric(rows)
  {
    if rows == [] then 0.0
    else (if rows[0].date == d then rows[0].qty.value else 0.0) + DaySum(rows[1..], d)
  }

  /** The reference sum taken from the back: the sum of all but the last row plus
      the last row's quantity when it is of date d. */
  lemma {:induction false} DaySumLast(rows: seq<ActualRow>, d: string)
    requires rows != [] && AllNumeric(rows)
    ensures AllNumeric(rows[..|rows| - 1])
    ensures DaySum(rows, d) ==
      DaySum(rows[..|rows| - 1], d) + LastQty(rows, d)
    decreases |rows|
  {
    var n := |rows| - 1;
    if n > 0 {
      assert rows[1..][..n - 1] == rows[..n][1..];
      assert rows[1..][n - 1] == rows[n];
      DaySumLast(rows[1..], d);
    }
  }

  /** The quantity the last row adds to date d. */
  function LastQty(rows: seq<ActualRow>, d: string): real
    requires rows != [] && rows[|rows| - 1].qty.Some?
  {
    if rows[|rows| - 1].date == d then rows[|rows| - 1].qty.value else 0.0
  }

  /** When every qty converts to a number, the per-date total is the sum of that
      date's quantities. */
  lemma {:induction false} DayTotalIsSum(rows: seq<ActualRow>, d: string)
    requires AllNumeric(rows)
    ensures DayTotal(rows, d) == Some(DaySum(rows, d))
    decreases |rows|
  {
    if rows != [] {
      DaySumLast(rows, d);
      DayTotalIsSum(rows[..|rows| - 1], d);
      DayTotalStepSum(rows, d);
    }
  }

  /** The step of DayTotalIsSum: a total that is the sum before the last row is
      the sum after it. */
  lemma DayTotalStepSum(rows: seq<ActualRow>, d: string)
    requires rows != [] && AllNumeric(rows) && AllNumeric(rows[..|rows| - 1])
    requires DayTotal(rows[..|rows| - 1], d) == Some(DaySum(rows[..|rows| - 1], d))
    requires DaySum(rows, d) == DaySum(rows[..|rows| - 1], d) + LastQty(rows, d)
    ensures DayTotal(rows, d) == Some(DaySum(rows, d))
  {
    var n := |rows| - 1;
    AddQtyStep(DayTotal(rows[..n], d), DaySum(rows[..n], d), rows[n].qty, rows[n].date == d);
  }

  /** One row on top of a running total that equals the sum so far. */
  lemma AddQtyStep(t: Option<real>, sum: real, q: Option<real>, same: bool)
    requires t == Some(sum) && q.Some?
    ensures (if same then AddQty(t, q) else t) == Some(sum + if same then q.value else 0.0)
  {
  }

  /** A date whose total counts as data: `Number(v) > 0` (NaN does not). */
  predicate Positive(t: Option<real>) {
    t.Some? && t.value > 0.0
  }

  function Dates(rows: seq<ActualRow>): set<string> {
    set r | r in rows :: r.date
  }

  function PositiveDays(rows: seq<ActualRow>): set<string> {
    set r | r in rows && Positive(DayTotal(rows, r.date)) :: r.date
  }

  predicate Distinct(s: seq<string>) {
    forall a, b :: 0 <= a < b < |s| ==> s[a] != s[b]
  }

  lemma {:induction false} DistinctCard(s: seq<string>)
    requires Distinct(s)
    ensures |set x | x in s| == |s|
    decreases |s|
  {
    if s != [] {
      var n := |s| - 1;
      DistinctCard(s[..n]);
      assert (set x | x in s) == (set x | x in s[..n]) + {s[n]};
    }
  }

  /** A date no row carries still has the starting total 0. */
  lemma {:induction false} DayTotalUnseen(rows: seq<ActualRow>, d: string)
    requires d !in Dates(rows)
    ensures DayTotal(rows, d) == Some(0.0)
    decreases |rows|
  {
    if rows != [] {
      var n := |rows| - 1;
      assert rows[n] in rows;
      assert forall r :: r in rows[..n] ==> r in rows;
      DayTotalUnseen(rows[..n], d);
    }
  }

  lemma DatesStep(rows: seq<ActualRow>, i: int)
    requires 0 <= i < |rows|
    ensures forall k :: k in Dates(rows[..i + 1]) <==> k in Dates(rows[..i]) || k == rows[i].date
  {
    assert rows[..i + 1] == rows[..i] + [rows[i]];
  }

  lemma DayTotalStep(rows: seq<ActualRow>, i: int)
    requires 0 <= i < |rows|
    ensures forall k ::
              (DayTotal(rows[..i + 1], k) ==
               if rows[i].date == k then AddQty(DayTotal(rows[..i], k), rows[i].qty)
               else DayTotal(rows[..i], k))
  {
    assert rows[..i + 1][..i] == rows[..i];
  }

  /** The index of the first row of date d, or |rows| when no row has it. */
  function FirstIndex(rows: seq<ActualRow>, d: string): nat
    decreases |rows|
  {
    if rows == [] || rows[0].date == d then 0 else 1 + FirstIndex(rows[1..], d)
  }

  /** FirstIndex finds the first row of its date: no earlier row has it. */
  lemma {:induction false} FirstIndexFinds(rows: seq<ActualRow>, d: string)
    ensures FirstIndex(rows, d) <= |rows|
    ensures FirstIndex(rows, d) < |rows| ==> rows[FirstIndex(rows, d)].date == d
    ensures forall j :: 0 <= j < FirstIndex(rows, d) ==> rows[j].date != d
    decreases |rows|
  {
    if rows != [] && rows[0].date != d {
      FirstIndexFinds(rows[1..], d);
      assert forall j :: 1 <= j <= |rows[1..]| ==> rows[j] == rows[1..][j - 1];
    }
  }

  /** A date seen in the first i rows first occurs before one not seen there. */
  lemma SeenBeforeNew(rows: seq<ActualRow>, i: int, x: string, y: string)
    requires 0 <= i <= |rows|
    requires x in Dates(rows[..i]) && y !in Dates(rows[..i])
    ensures FirstIndex(rows, x) < FirstIndex(rows, y)
  {
    var r :| r in rows[..i] && r.date == x;
    var p :| 0 <= p < i && rows[..i][p] == r;
    FirstIndexFinds(rows, x);
    FirstIndexFinds(rows, y);
    assert FirstIndex(rows, x) <= p;
    forall q | 0 <= q < i ensures rows[q].date != y {
      assert rows[..i][q] in rows[..i];
    }
  }

  /** Keys listed in order of first appearance. */
  predicate FirstAppearanceOrder(rows: seq<ActualRow>, keys: seq<string>) {
    forall a, b :: 0 <= a < b < |keys| ==> FirstIndex(rows, keys[a]) < FirstIndex(rows, keys[b])
  }

  /** The Map `totalsByDate` after the loop: its keys in insertion order (each date
      once, in order of first appearance) and the total of each. */
  method TotalsByDate(rows: seq<ActualRow>) returns (keys: seq<string>, totals: map<string, Option<real>>)
    ensures Distinct(keys)
    ensures forall k :: k in keys <==> k in Dates(rows)
    ensures FirstAppearanceOrder(rows, keys)
    ensures forall k :: k in totals <==> k in keys
    ensures forall k :: k in totals ==> totals[k] == DayTotal(rows, k)
  {
    keys := [];
    totals := map[];
    var i := 0;
    while i < |rows|
      invariant 0 <= i <= |rows|
      invariant Distinct(keys)
      invariant forall k :: k in keys <==> k in Dates(rows[..i])
      invariant FirstAppearanceOrder(rows, keys)
      invariant forall k :: k in totals <==> k in keys
      invariant forall k :: k in totals ==> totals[k] == DayTotal(rows[..i], k)
    {
      var d := rows[i].date;
      var prev := if d in totals then totals[d] else Some(0.0);
      TotalsStep(rows, i, keys, totals);
      totals := totals[d := AddQty(prev, rows[i].qty)];
      KeysStep(rows, i, keys);
      if d !in keys {
        keys := keys + [d];
      }
      i := i + 1;
    }
    assert rows[..i] == rows;
  }

  /** One step of the loop on the Map: the total of row i's date takes its qty. */
  lemma TotalsStep(rows: seq<ActualRow>, i: int, keys: seq<string>, totals: map<string, Option<real>>)
    requires 0 <= i < |rows|
    requires forall k :: k in keys <==> k in Dates(rows[..i])
    requires forall k :: k in totals <==> k in keys
    requires forall k :: k in totals ==> totals[k] == DayTotal(rows[..i], k)
    ensures var d := rows[i].date;
      var t := totals[d := AddQty(if d in totals then totals[d] else Some(0.0), rows[i].qty)];
      forall k :: k in t ==> t[k] == DayTotal(rows[..i + 1], k)
  {
    var d := rows[i].date;
    if d !in totals {
      DayTotalUnseen(rows[..i], d);
    }
    DayTotalStep(rows, i);
  }

  /** One step of the loop on the keys: the date of row i is added when new. */
  lemma KeysStep(rows: seq<ActualRow>, i: int, keys: seq<string>)
    requires 0 <= i < |rows| && Distinct(keys) && FirstAppearanceOrder(rows, keys)
    requires forall k :: k in keys <==> k in Dates(rows[..i])
    ensures var ks := if rows[i].date in keys then keys else keys + [rows[i].date];
      && Distinct(ks)
      && (forall k :: k in ks <==> k in Dates(rows[..i + 1]))
      && FirstAppearanceOrder(rows, ks)
  {
    DatesStep(rows, i);
    if rows[i].date !in keys {
      AppendUnseen(rows, i, keys, rows[i].date);
    }
  }

  /** Appending a date not yet seen keeps the keys in order of first appearance. */
  lemma AppendUnseen(rows: seq<ActualRow>, i: int, keys: seq<string>, d: string)
    requires 0 <= i <= |rows| && FirstAppearanceOrder(rows, keys)
    requires forall k :: k in keys <==> k in Dates(rows[..i])
    requires d !in Dates(rows[..i])
    ensures FirstAppearanceOrder(rows, keys + [d])
  {
    var ks := keys + [d];
    forall a, b | 0 <= a < b < |ks| ensures FirstIndex(rows, ks[a]) < FirstIndex(rows, ks[b]) {
      if b < |keys| {
        assert ks[a] == keys[a] && ks[b] == keys[b];
      } else {
        assert ks[a] == keys[a] && keys[a] in keys;
        SeenBeforeNew(rows, i, keys[a], d);
      }
    }
  }

  /** d is a date with data whose total v is the smallest of all such dates. */
  predicate Smallest(rows: seq<ActualRow>, d: string, v: real) {
    d in PositiveDays(rows) && DayTotal(rows, d) == Some(v) &&
    forall e :: e in PositiveDays(rows) ==> v <= DayTotal(rows, e).value
  }

  /** d is a date with data whose total v is the largest of all such dates. */
  predicate Largest(rows: seq<ActualRow>, d: string, v: real) {
    d in PositiveDays(rows) && DayTotal(rows, d) == Some(v) &&
    forall e :: e in PositiveDays(rows) ==> DayTotal(rows, e).value <= v
  }

  datatype Metrics = Metrics(daysWithData: nat, recordCount: nat,
                             min: Option<real>, minDate: Option<string>,
                             max: Option<real>, maxDate: Option<string>)

  /** Among the dates with data and total v, d occurs first in the rows: this is
      the date the page's stable sorts of the Map entries put at the head. */
  predicate FirstWithTotal(rows: seq<ActualRow>, d: string, v: real) {
    forall e :: e in PositiveDays(rows) && DayTotal(rows, e) == Some(v) && e != d ==> FirstIndex(rows, d) < FirstIndex(rows, e)
  }

  /** `withData.sort((a, b) => a[1] - b[1])[0]`: the stable ascending sort puts
      first the earliest entry with the smallest value. */
  method FirstMinIndex(vals: seq<real>) returns (i: int)
    requires vals != []
    ensures 0 <= i < |vals|
    ensures forall q :: 0 <= q < |vals| ==> vals[i] <= vals[q]
    ensures forall q :: 0 <= q < i ==> vals[q] != vals[i]
  {
    i := 0;
    var q := 1;
    while q < |vals|
      invariant 0 <= i < q <= |vals|
      invariant forall p :: 0 <= p < q ==> vals[i] <= vals[p]
      invariant forall p :: 0 <= p < i ==> vals[p] != vals[i]
    {
      if vals[q] < vals[i] {
        i := q;
      }
      q := q + 1;
    }
  }

  /** The second, descending sort of the already ascending list keeps tied entries
      in entry order, so its head is the earliest entry with the largest value. */
  method FirstMaxIndex(vals: seq<real>) returns (i: int)
    requires vals != []
    ensures 0 <= i < |vals|
    ensures forall q :: 0 <= q < |vals| ==> vals[q] <= vals[i]
    ensures forall q :: 0 <= q < i ==> vals[q] != vals[i]
  {
    i := 0;
    var q := 1;
    while q < |vals|
      invariant 0 <= i < q <= |vals|
      invariant forall p :: 0 <= p < q ==> vals[p] <= vals[i]
      invariant forall p :: 0 <= p < i ==> vals[p] != vals[i]
    {
      if vals[q] > vals[i] {
        i := q;
      }
      q := q + 1;
    }
  }

  /** withData: the Map entries whose total is above 0, in entry order, with their
      values; pos gives each one's place among the keys. */
  predicate WithDataOf(keys: seq<string>, totals: map<string, Option<real>>, j: int,
                       withData: seq<string>, vals: seq<real>, pos: seq<int>)
    requires forall k :: k in keys ==> k in totals
  {
    && |withData| == |vals| == |pos|
    && (forall p :: 0 <= p < |pos| ==> 0 <= pos[p] < j && pos[p] < |keys| && withData[p] == keys[pos[p]])
    && (forall p :: 0 <= p < |pos| ==> totals[withData[p]] == Some(vals[p]) && vals[p] > 0.0)
    && (forall p, p' :: 0 <= p < p' < |pos| ==> pos[p] < pos[p'])
  }

  /** `entries.filter(([_, v]) => Number(v) > 0)`: the Map entries with data, in
      entry order, with their values. */
  method DataEntries(keys: seq<string>, totals: map<string, Option<real>>)
    returns (withData: seq<string>, vals: seq<real>, ghost pos: seq<int>)
    requires Distinct(keys) && forall k :: k in keys ==> k in totals
    ensures Distinct(withData)
    ensures forall k :: k in withData <==> k in keys && Positive(totals[k])
    ensures WithDataOf(keys, totals, |keys|, withData, vals, pos)
  {
    withData, vals, pos := [], [], [];
    var j := 0;
    while j < |keys|
      invariant 0 <= j <= |keys|
      invariant Distinct(withData)
      invariant forall k :: k in withData <==> k in keys[..j] && Positive(totals[k])
      invariant WithDataOf(keys, totals, j, withData, vals, pos)
    {
      var k := keys[j];
      var t := totals[k];
      assert keys[..j + 1] == keys[..j] + [k];
      if Positive(t) {
        assert k !in keys[..j];
        withData, vals, pos := withData + [k], vals + [t.value], pos + [j];
      }
      j := j + 1;
    }
    assert keys[..j] == keys;
  }

  /** The entries with data are exactly the days with data, one entry each. */
  lemma DataDays(rows: seq<ActualRow>, keys: seq<string>, totals: map<string, Option<real>>, withData: seq<string>)
    requires forall k :: k in keys <==> k in Dates(rows)
    requires forall k :: k in totals <==> k in keys
    requires forall k :: k in totals ==> totals[k] == DayTotal(rows, k)
    requires Distinct(withData)
    requires forall k :: k in withData <==> k in keys && Positive(totals[k])
    ensures forall k :: k in withData <==> k in PositiveDays(rows)
    ensures |withData| == |PositiveDays(rows)|
  {
    assert forall k :: k in withData <==> k in PositiveDays(rows);
    DistinctCard(withData);
    assert (set x | x in withData) == PositiveDays(rows);
  }

  /** The metrics effect: recordCount is every fetched row; daysWithData the dates
      whose total is above 0; min and max the smallest and largest such total, each
      with the first date in row order that attains it, or none of them when no
      date has data. */
  method DailyMetrics(rows: seq<ActualRow>) returns (m: Metrics)
    ensures m.recordCount == |rows|
    ensures m.daysWithData == |PositiveDays(rows)|
    ensures m.min.None? <==> PositiveDays(rows) == {}
    ensures m.max.None? <==> PositiveDays(rows) == {}
    ensures m.minDate.None? <==> m.min.None?
    ensures m.maxDate.None? <==> m.max.None?
    ensures m.min.Some? ==> Smallest(rows, m.minDate.value, m.min.value)
    ensures m.max.Some? ==> Largest(rows, m.maxDate.value, m.max.value)
    ensures m.min.Some? ==> FirstWithTotal(rows, m.minDate.value, m.min.value)
    ensures m.max.Some? ==> FirstWithTotal(rows, m.maxDate.value, m.max.value)
  {
    var keys, totals := TotalsByDate(rows);
    var withData: seq<string>, vals: seq<real>;
    ghost var pos: seq<int>;
    withData, vals, pos := DataEntries(keys, totals);
    DataDays(rows, keys, totals, withData);
    if withData == [] {
      m := Metrics(0, |rows|, None, None, None, None);
    } else {
      var lo := FirstMinIndex(vals);
      var hi := FirstMaxIndex(vals);
      ExtremeAt(rows, keys, totals, withData, vals, pos, lo);
      ExtremeAt(rows, keys, totals, withData, vals, pos, hi);
      ExtremeFirst(rows, keys, totals, withData, vals, pos, lo);
      ExtremeFirst(rows, keys, totals, withData, vals, pos, hi);
      m := Metrics(|withData|, |rows|, Some(vals[lo]), Some(withData[lo]), Some(vals[hi]), Some(withData[hi]));
    }
  }

  /** The entry at index i of withData is a date with data with total vals[i], and
      every date with data has its total among vals. */
  lemma ExtremeAt(rows: seq<ActualRow>, keys: seq<string>, totals: map<string, Option<real>>,
                  withData: seq<string>, vals: seq<real>, pos: seq<int>, i: int)
    requires forall k :: k in totals <==> k in keys
    requires forall k :: k in totals ==> totals[k] == DayTotal(rows, k)
    requires WithDataOf(keys, totals, |keys|, withData, vals, pos)
    requires forall k :: k in withData <==> k in PositiveDays(rows)
    requires 0 <= i < |withData|
    ensures withData[i] in PositiveDays(rows) && DayTotal(rows, withData[i]) == Some(vals[i])
    ensures forall e :: e in PositiveDays(rows) ==> exists q :: 0 <= q < |vals| && DayTotal(rows, e) == Some(vals[q])
  {
    assert withData[i] in withData;
    assert keys[pos[i]] in keys;
    forall e | e in PositiveDays(rows) ensures exists q :: 0 <= q < |vals| && DayTotal(rows, e) == Some(vals[q]) {
      var q :| 0 <= q < |withData| && withData[q] == e;
      assert keys[pos[q]] in keys;
    }
  }

  /** The entry at index i of withData, when no earlier entry has its value, is
      the first date in row order with data and that total. */
  lemma ExtremeFirst(rows: seq<ActualRow>, keys: seq<string>, totals: map<string, Option<real>>,
                     withData: seq<string>, vals: seq<real>, pos: seq<int>, i: int)
    requires FirstAppearanceOrder(rows, keys)
    requires forall k :: k in totals <==> k in keys
    requires forall k :: k in totals ==> totals[k] == DayTotal(rows, k)
    requires WithDataOf(keys, totals, |keys|, withData, vals, pos)
    requires forall k :: k in withData <==> k in PositiveDays(rows)
    requires 0 <= i < |withData|
    requires forall q :: 0 <= q < i ==> vals[q] != vals[i]
    ensures FirstWithTotal(rows, withData[i], vals[i])
  {
    forall e | e in PositiveDays(rows) && DayTotal(rows, e) == Some(vals[i]) && e != withData[i]
      ensures FirstIndex(rows, withData[i]) < FirstIndex(rows, e)
    {
      var q :| 0 <= q < |withData| && withData[q] == e;
      assert keys[pos[q]] in keys;
      assert vals[q] == vals[i];
      assert q > i;
      assert pos[i] < pos[q];
    }
  }

  // ---------------------------------------------------------------- totals

  /** `reduce((s, r) => s + Number(r.actual_qty || 0), 0)`: a missing, null or 0
      value adds 0; one value that does not convert makes the total NaN (None). */
  function ColumnTotal(values: seq<JsValue>): (r: Option<real>)
    ensures r.None? <==> exists v :: v in values && NumberOfOrZero(v).None?
    ensures r.Some? ==> r.value == SumOfNumbers(values)
  {
    if values == [] then Some(0.0)
    else
      var t := ColumnTotal(values[..|values| - 1]);
      var q := NumberOfOrZero(values[|values| - 1]);
      assert forall v :: v in values <==> v in values[..|values| - 1] || v == values[|values| - 1];
      SumOfNumbersSnoc(values);
      if t.Some? && q.Some? then Some(t.value + q.value) else None
  }

  /** The converted value of v, with 0 standing for NaN. */
  function NumberOrNaNZero(v: JsValue): real {
    var q := NumberOfOrZero(v);
    if q.Some? then q.value else 0.0
  }

  /** The plain sum of the converted values, first to last. */
  function SumOfNumbers(values: seq<JsValue>): real {
    if values == [] then 0.0 else NumberOrNaNZero(values[0]) + SumOfNumbers(values[1..])
  }

  /** Summing from the front and from the back agree. */
  lemma {:induction false} SumOfNumbersSnoc(values: seq<JsValue>)
    requires values != []
    ensures SumOfNumbers(values) ==
            SumOfNumbers(values[..|values| - 1]) + NumberOrNaNZero(values[|values| - 1])
    decreases |values|
  {
    if |values| > 1 {
      var rest := values[1..];
      SumOfNumbersSnoc(rest);
      assert rest[..|rest| - 1] == values[..|values| - 1][1..];
      assert rest[|rest| - 1] == values[|values| - 1];
    }
  }

  /** Adding rows with no quantity (null, missing or 0) leaves the total as it was. */
  lemma {:induction false} ColumnTotalFalsy(values: seq<JsValue>, extra: seq<JsValue>)
    requires forall v :: v in extra ==> !Truthy(v)
    ensures ColumnTotal(values + extra) == ColumnTotal(values)
    decreases |extra|
  {
    if extra != [] {
      var n := |extra| - 1;
      assert values + extra == (values + extra[..n]) + [extra[n]];
      assert (values + extra)[..|values + extra| - 1] == values + extra[..n];
      assert extra[n] in extra;
      assert forall v :: v in extra[..n] ==> v in extra;
      ColumnTotalFalsy(values, extra[..n]);
    } else {
      assert values + extra == values;
    }
  }

  // ---------------------------------------------------------------- daysCount

  /** daysCount: the number of days from dateFrom to dateTo, both included, and 1
      when the range is empty or a date does not parse (None). */
  function DaysCount(from: Option<Date>, to: Option<Date>): (n: int)
    requires from.Some? ==> ValidDate(from.value)
    requires to.Some? ==> ValidDate(to.value)
    ensures n >= 1
    ensures from.Some? && to.Some? && OnOrBefore(from.value, to.value) ==>
      n == DayNumber(to.value) - DayNumber(from.value) + 1
    ensures from.None? || to.None? || Before(to.value, from.value) ==> n == 1
  {
    if from.None? || to.None? then 1
    else
      DayNumberOrder(from.value, to.value);
      DayNumberOrder(to.value, from.value);
      var n := DayNumber(to.value) - DayNumber(from.value) + 1;
      if n > 0 then n else 1
  }

  /** A range one day longer counts one day more. */
  lemma DaysCountNextDay(from: Date, to: Date)
    requires ValidDate(from) && ValidDate(to) && OnOrBefore(from, to)
    ensures ValidDate(NextDay(to))
    ensures DaysCount(Some(from), Some(NextDay(to))) == DaysCount(Some(from), Some(to)) + 1
  {
    NextDayNumber(to);
    DayNumberOrder(from, NextDay(to));
    DayNumberOrder(from, to);
  }

  // ---------------------------------------------------------------- toCsvRow

  /** `s.includes(',') || s.includes('\n') || s.includes('"')`: a carriage return
      alone does not count. */
  predicate NeedsQuotes(s: string) {
    ',' in s || '\n' in s || '"' in s
  }

  /** `s.replace(/"/g, '""')` */
  function DoubleQuotes(s: string): (r: string)
    ensures |r| >= |s|
  {
    if s == [] then []
    else (if s[0] == '"' then "\"\"" else [s[0]]) + DoubleQuotes(s[1..])
  }

  /** One field: null as empty, a field that needs it quoted with each '"'
      doubled, any other verbatim. */
  function CsvField(v: Option<string>): string {
    if v.None? then ""
    else if NeedsQuotes(v.value) then "\"" + DoubleQuotes(v.value) + "\""
    else v.value
  }

  /** toCsvRow: the fields joined by ','. */
  function ToCsvRow(fields: seq<Option<string>>): string
  {
    if fields == [] then ""
    else if |fields| == 1 then CsvField(fields[0])
    else CsvField(fields[0]) + "," + ToCsvRow(fields[1..])
  }

  /** What a reader gets back for a field: null became the empty field. */
  function Shown(v: Option<string>): string {
    if v.None? then "" else v.value
  }

  function ShownAll(fields: seq<Option<string>>): (r: seq<string>)
    ensures |r| == |fields|
    ensures forall i :: 0 <= i < |fields| ==> r[i] == Shown(fields[i])
  {
    if fields == [] then [] else [Shown(fields[0])] + ShownAll(fields[1..])
  }

  // A reader of one record (section 2 of RFC 4180): a field that starts with '"'
  // runs to the next lone '"' with "" read as one '"'; any other field runs to
  // the next ','.

  /** Reads the inside of a quoted field (after its opening quote): the field's
      text and what follows its closing quote. */
  function ReadQuoted(s: string): (r: Option<(string, string)>)
    ensures r.Some? ==> |r.value.1| < |s|
    decreases |s|
  {
    if s == [] then None
    else if s[0] == '"' then
      if |s| >= 2 && s[1] == '"' then
        match ReadQuoted(s[2..])
        case None => None
        case Some((c, rest)) => Some(("\"" + c, rest))
      else Some(("", s[1..]))
    else
      match ReadQuoted(s[1..])
      case None => None
      case Some((c, rest)) => Some(([s[0]] + c, rest))
  }

  /** Reads an unquoted field: the text up to the first ',' and what follows. */
  function ReadPlain(s: string): (r: (string, string))
    ensures |r.1| <= |s|
    ensures r.1 == [] || r.1[0] == ','
  {
    if s == [] || s[0] == ',' then ("", s)
    else
      var (c, rest) := ReadPlain(s[1..]);
      ([s[0]] + c, rest)
  }

  /** Reads one field, quoted or not: its text and what follows it. */
  function ReadField(s: string): (r: Option<(string, string)>)
    ensures r.Some? ==> |r.value.1| <= |s|
  {
    if s != [] && s[0] == '"' then ReadQuoted(s[1..]) else Some(ReadPlain(s))
  }

  /** The fields of one record, or None when a quoted field is not closed or is
      followed by something other than ',' or the end. */
  function ParseRecord(s: string): Option<seq<string>>
    decreases |s|
  {
    match ReadField(s)
    case None => None
    case Some((c, rest)) =>
      if rest == [] then Some([c])
      else if rest[0] != ',' then None
      else
        match ParseRecord(rest[1..])
        case None => None
        case Some(more) => Some([c] + more)
  }

  lemma {:induction false} ReadQuotedDoubled(s: string, t: string)
    requires t == [] || t[0] == ','
    ensures ReadQuoted(DoubleQuotes(s) + "\"" + t) == Some((s, t))
    decreases |s|
  {
    if s == [] {
      assert DoubleQuotes(s) + "\"" + t == "\"" + t;
      ReadQuotedClose(t);
    } else {
      var head := if s[0] == '"' then "\"\"" else [s[0]];
      var w := DoubleQuotes(s[1..]) + "\"" + t;
      Regroup(head, DoubleQuotes(s[1..]), "\"", t);
      ReadQuotedDoubled(s[1..], t);
      if s[0] == '"' {
        ReadQuotedPair(w);
      } else {
        ReadQuotedChar(s[0], w);
      }
      assert s == [s[0]] + s[1..];
    }
  }

  lemma Regroup(a: string, b: string, c: string, d: string)
    ensures a + b + c + d == a + (b + c + d)
  {
  }

  /** A lone '"' closes the field. */
  lemma ReadQuotedClose(t: string)
    requires t == [] || t[0] == ','
    ensures ReadQuoted("\"" + t) == Some(("", t))
  {
    assert ("\"" + t)[1..] == t;
  }

  /** A doubled '"' inside quotes is read as one '"'. */
  lemma ReadQuotedPair(w: string)
    requires ReadQuoted(w).Some?
    ensures ReadQuoted("\"\"" + w) == Some(("\"" + ReadQuoted(w).value.0, ReadQuoted(w).value.1))
  {
    assert ("\"\"" + w)[2..] == w;
  }

  /** Any other character inside quotes is read as itself. */
  lemma ReadQuotedChar(c: char, w: string)
    requires c != '"' && ReadQuoted(w).Some?
    ensures ReadQuoted([c] + w) == Some(([c] + ReadQuoted(w).value.0, ReadQuoted(w).value.1))
  {
    assert ([c] + w)[1..] == w;
  }

  lemma {:induction false} ReadPlainStops(s: string, t: string)
    requires ',' !in s
    requires t == [] || t[0] == ','
    ensures ReadPlain(s + t) == (s, t)
    decreases |s|
  {
    if s != [] {
      assert (s + t)[1..] == s[1..] + t;
      ReadPlainStops(s[1..], t);
      assert s == [s[0]] + s[1..];
    } else {
      assert s + t == t;
    }
  }

  /** A quoted field with its quotes doubled reads back as its text. */
  lemma QuotedReadsBack(x: string, t: string)
    requires t == [] || t[0] == ','
    ensures ReadField("\"" + DoubleQuotes(x) + "\"" + t) == Some((x, t))
  {
    QuotedWrap(DoubleQuotes(x), t);
    ReadQuotedDoubled(x, t);
  }

  /** A field that opens with '"' is read from the character after the quote. */
  lemma QuotedWrap(d: string, t: string)
    ensures ReadField("\"" + d + "\"" + t) == ReadQuoted(d + "\"" + t)
  {
    var u := "\"" + d + "\"" + t;
    assert u[1..] == d + "\"" + t;
  }

  /** A field with no ',' and no '"' reads back as it is. */
  lemma PlainReadsBack(x: string, t: string)
    requires ',' !in x && '"' !in x
    requires t == [] || t[0] == ','
    ensures ReadField(x + t) == Some((x, t))
  {
    ReadPlainStops(x, t);
    if x != [] {
      assert (x + t)[0] == x[0] && x[0] in x;
    } else {
      assert x + t == t;
    }
  }

  /** One written field followed by the end or by ',' reads back as the field. */
  lemma FieldReadsBack(v: Option<string>, t: string)
    requires t == [] || t[0] == ','
    ensures ReadField(CsvField(v) + t) == Some((Shown(v), t))
  {
    if v.Some? && NeedsQuotes(v.value) {
      QuotedReadsBack(v.value, t);
    } else {
      PlainReadsBack(Shown(v), t);
    }
  }

  /** Reading a written row gives back every field, null as the empty field. */
  lemma {:induction false} CsvRowReadsBack(fields: seq<Option<string>>)
    requires fields != []
    ensures ParseRecord(ToCsvRow(fields)) == Some(ShownAll(fields))
    decreases |fields|
  {
    assert ShownAll(fields) == [Shown(fields[0])] + ShownAll(fields[1..]);
    if |fields| == 1 {
      FieldReadsBack(fields[0], []);
      var u := CsvField(fields[0]) + [];
      assert ToCsvRow(fields) == u;
      assert ParseRecord(u) == Some([Shown(fields[0])]);
      assert ShownAll(fields) == [Shown(fields[0])];
    } else {
      var t := "," + ToCsvRow(fields[1..]);
      FieldReadsBack(fields[0], t);
      assert ToCsvRow(fields) == CsvField(fields[0]) + t;
      assert t[1..] == ToCsvRow(fields[1..]);
      CsvRowReadsBack(fields[1..]);
    }
  }

  // ---- line breaks outside quotes

  /** Whether a CR or LF stands outside a quoted section, reading from the start
      with `quoted` telling whether a quote is open. A reader that ends a record at
      any line break splits the record there. */
  predicate BareBreak(s: string, quoted: bool)
    decreases |s|
  {
    if s == [] then false
    else if s[0] == '"' then BareBreak(s[1..], !quoted)
    else (!quoted && (s[0] == '\r' || s[0] == '\n')) || BareBreak(s[1..], quoted)
  }

  /** As written, a field holding a carriage return but none of ',', '\n', '"' is
      written unquoted, and the record has a line break outside quotes. */
  lemma CarriageReturnUnquoted()
    ensures ToCsvRow([Some("A\rB")]) == "A\rB"
    ensures BareBreak(ToCsvRow([Some("A\rB")]), false)
  {
    assert !NeedsQuotes("A\rB");
    assert "A\rB"[1..] == "\rB";
  }

  /** The corrected test: a carriage return also calls for quotes. */
  predicate NeedsQuotesStrict(s: string) {
    ',' in s || '\n' in s || '\r' in s || '"' in s
  }

  function CsvFieldStrict(v: Option<string>): string {
    if v.None? then ""
    else if NeedsQuotesStrict(v.value) then "\"" + DoubleQuotes(v.value) + "\""
    else v.value
  }

  function ToCsvRowStrict(fields: seq<Option<string>>): string {
    if fields == [] then ""
    else if |fields| == 1 then CsvFieldStrict(fields[0])
    else CsvFieldStrict(fields[0]) + "," + ToCsvRowStrict(fields[1..])
  }

  lemma {:induction false} BareBreakAppend(a: string, b: string, quoted: bool)
    requires '"' !in a && !BareBreak(a, quoted)
    ensures BareBreak(a + b, quoted) == BareBreak(b, quoted)
    decreases |a|
  {
    if a != [] {
      assert (a + b)[1..] == a[1..] + b;
      assert a[0] in a;
      BareBreakAppend(a[1..], b, quoted);
    } else {
      assert a + b == b;
    }
  }

  lemma {:induction false} NoBreakPlain(s: string)
    requires !NeedsQuotesStrict(s)
    ensures !BareBreak(s, false)
    decreases |s|
  {
    if s != [] {
      assert s[0] in s;
      assert forall c :: c in s[1..] ==> c in s;
      NoBreakPlain(s[1..]);
    }
  }

  /** Inside quotes, doubled quotes keep the quote open and no break is bare;
      after the closing quote reading goes on as outside. */
  lemma {:induction false} NoBreakDoubled(s: string, t: string)
    ensures BareBreak(DoubleQuotes(s) + "\"" + t, true) == BareBreak(t, false)
    decreases |s|
  {
    if s == [] {
      assert DoubleQuotes(s) + "\"" + t == "\"" + t;
      BareBreakQuote(t, true);
    } else {
      var head := if s[0] == '"' then "\"\"" else [s[0]];
      var w := DoubleQuotes(s[1..]) + "\"" + t;
      Regroup(head, DoubleQuotes(s[1..]), "\"", t);
      NoBreakDoubled(s[1..], t);
      if s[0] == '"' {
        BareBreakPair(w, true);
      } else {
        BareBreakChar(s[0], w, true);
      }
    }
  }

  /** A '"' flips whether a quote is open. */
  lemma BareBreakQuote(w: string, quoted: bool)
    ensures BareBreak("\"" + w, quoted) == BareBreak(w, !quoted)
  {
    assert ("\"" + w)[1..] == w;
  }

  /** Two '"' in a row leave the quote state as it was. */
  lemma BareBreakPair(w: string, quoted: bool)
    ensures BareBreak("\"\"" + w, quoted) == BareBreak(w, quoted)
  {
    assert "\"\"" + w == "\"" + ("\"" + w);
    BareBreakQuote("\"" + w, quoted);
    BareBreakQuote(w, !quoted);
  }

  /** Any other character is a bare break exactly when it is CR or LF outside
      quotes. */
  lemma BareBreakChar(c: char, w: string, quoted: bool)
    requires c != '"'
    ensures BareBreak([c] + w, quoted) == ((!quoted && (c == '\r' || c == '\n')) || BareBreak(w, quoted))
  {
    assert ([c] + w)[1..] == w;
  }

  /** A field written with the corrected test adds no line break outside quotes. */
  lemma FieldNoBareBreak(v: Option<string>, t: string)
    requires !BareBreak(t, false)
    ensures !BareBreak(CsvFieldStrict(v) + t, false)
  {
    var f := CsvFieldStrict(v);
    if v.Some? && NeedsQuotesStrict(v.value) {
      assert f + t == "\"" + (DoubleQuotes(v.value) + "\"" + t);
      assert (f + t)[1..] == DoubleQuotes(v.value) + "\"" + t;
      NoBreakDoubled(v.value, t);
    } else {
      if v.Some? {
        NoBreakPlain(v.value);
        assert f == v.value;
      }
      BareBreakAppend(f, t, false);
    }
  }

  /** With the corrected test no record has a line break outside quotes. */
  lemma {:induction false} StrictRowNoBareBreak(fields: seq<Option<string>>)
    ensures !BareBreak(ToCsvRowStrict(fields), false)
    decreases |fields|
  {
    if |fields| == 1 {
      FieldNoBareBreak(fields[0], []);
      assert ToCsvRowStrict(fields) == CsvFieldStrict(fields[0]) + [];
    } else if |fields| > 1 {
      var t := "," + ToCsvRowStrict(fields[1..]);
      StrictRowNoBareBreak(fields[1..]);
      assert t[1..] == ToCsvRowStrict(fields[1..]);
      FieldNoBareBreak(fields[0], t);
      assert ToCsvRowStrict(fields) == CsvFieldStrict(fields[0]) + t;
    }
  }

  /** One field written with the corrected test reads back as the field. */
  lemma FieldReadsBackStrict(v: Option<string>, t: string)
    requires t == [] || t[0] == ','
    ensures ReadField(CsvFieldStrict(v) + t) == Some((Shown(v), t))
  {
    if v.Some? && NeedsQuotesStrict(v.value) {
      QuotedReadsBack(v.value, t);
    } else {
      PlainReadsBack(Shown(v), t);
    }
  }

  /** The corrected rows still read back field by field. */
  lemma {:induction false} StrictRowReadsBack(fields: seq<Option<string>>)
    requires fields != []
    ensures ParseRecord(ToCsvRowStrict(fields)) == Some(ShownAll(fields))
    decreases |fields|
  {
    assert ShownAll(fields) == [Shown(fields[0])] + ShownAll(fields[1..]);
    if |fields| == 1 {
      FieldReadsBackStrict(fields[0], []);
      var u := CsvFieldStrict(fields[0]) + [];
      assert ToCsvRowStrict(fields) == u;
      assert ParseRecord(u) == Some([Shown(fields[0])]);
      assert ShownAll(fields) == [Shown(fields[0])];
    } else {
      var t := "," + ToCsvRowStrict(fields[1..]);
      FieldReadsBackStrict(fields[0], t);
      assert ToCsvRowStrict(fields) == CsvFieldStrict(fields[0]) + t;
      assert t[1..] == ToCsvRowStrict(fields[1..]);
      StrictRowReadsBack(fields[1..]);
    }
  }
}
