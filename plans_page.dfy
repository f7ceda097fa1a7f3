/** The plans page: the key of the period before the selected one, the bodies the
    page posts when adding a plan and when copying the previous period, and the
    key the quarter picker emits. */
module PlansPage {
  import opened Base
  import opened Calendar
  import PlanRoutes

  // ---------------------------------------------------------------- period keys

  /** A quarter key `Y-Qn`: a non-empty run of digits, "-Q", a quarter 1..4. */
  function ParseQuarterKey(s: string): (r: Option<(int, int)>)
    ensures r.Some? ==> r.value.0 >= 0 && 1 <= r.value.1 <= 4
  {
    if |s| >= 4 && AllDigits(s[..|s| - 3]) && s[|s| - 3] == '-' && s[|s| - 2] == 'Q' &&
       '1' <= s[|s| - 1] <= '4'
    then Some((DigitsValue(s[..|s| - 3]), DigitVal(s[|s| - 1])))
    else None
  }

  /** `${y}-Q${q}` */
  function QuarterKey(y: int, q: int): string {
    IntToString(y) + "-Q" + IntToString(q)
  }

  /** Quarters numbered consecutively across years. */
  function QuarterIndex(y: int, q: int): int {
    4 * y + q - 1
  }

  /** Months numbered consecutively across years. */
  function MonthIndex(y: int, m: int): int {
    12 * y + m - 1
  }

  /** prevPeriodKey: for MONTH the month before a `YYYY-MM` key, for QUARTER the
      quarter before a `Y-Qn` key, for YEAR the number of the key's first four
      characters minus one, and any other period type the key itself. None is a
      key of the given type this model does not read (the page throws, or builds
      a key holding NaN). */
  function PrevPeriodKey(periodType: string, key: string): (r: Option<string>)
    ensures r.Some? && key != "" ==> r.value != ""
  {
    if periodType == "MONTH" then
      match ParseMonthKey(key)
      case None => None
      case Some((y, m)) =>
        if m == 1 then (if y == 0 then None else Some(YmKey(y - 1, 12)))
        else Some(YmKey(y, m - 1))
    else if periodType == "QUARTER" then
      match ParseQuarterKey(key)
      case None => None
      case Some((y, q)) =>
        if q == 1 then Some(QuarterKey(y - 1, 4)) else Some(QuarterKey(y, q - 1))
    else if periodType == "YEAR" then
      var year := if |key| >= 4 then key[..4] else key;
      if AllDigits(year) then Some(IntToString(DigitsValue(year) - 1)) else None
    else Some(key)
  }

  /** MONTH: the key of the month just before; January goes back to December of
      the year before. */
  lemma PrevMonth(key: string)
    requires ParseMonthKey(key).Some? && ParseMonthKey(key) != Some((0, 1))
    ensures var (y, m) := ParseMonthKey(key).value;
      var r := PrevPeriodKey("MONTH", key);
      && r.Some? && ParseMonthKey(r.value).Some?
      && MonthIndex(ParseMonthKey(r.value).value.0, ParseMonthKey(r.value).value.1) == MonthIndex(y, m) - 1
      && (m == 1 ==> ParseMonthKey(r.value) == Some((y - 1, 12)))
  {
    var (y, m) := ParseMonthKey(key).value;
    if m == 1 {
      ParseYmKey(y - 1, 12);
    } else {
      ParseYmKey(y, m - 1);
    }
  }

  lemma {:induction false} QuarterKeyReads(y: int, q: int)
    requires y >= 0 && 1 <= q <= 4
    ensures ParseQuarterKey(QuarterKey(y, q)) == Some((y, q))
  {
    var k := QuarterKey(y, q);
    var t := IntToString(y);
    assert IntToString(q) == [DigitChar(q)];
    assert k == t + "-Q" + [DigitChar(q)];
    assert k[..|k| - 3] == t;
    assert t == NatToString(y);
    NatToStringValue(y);
  }

  /** QUARTER: Q1 goes back to Q4 of the year before, Qn to Q(n-1) of the same
      year; the key read back is the quarter just before. */
  lemma PrevQuarter(key: string)
    requires ParseQuarterKey(key).Some?
    ensures var (y, q) := ParseQuarterKey(key).value;
      var r := PrevPeriodKey("QUARTER", key);
      && r == Some(if q == 1 then QuarterKey(y - 1, 4) else QuarterKey(y, q - 1))
      && (y >= 1 || q > 1 ==>
            ParseQuarterKey(r.value).Some? &&
            QuarterIndex(ParseQuarterKey(r.value).value.0, ParseQuarterKey(r.value).value.1) == QuarterIndex(y, q) - 1)
  {
    var (y, q) := ParseQuarterKey(key).value;
    if q == 1 {
      if y >= 1 {
        QuarterKeyReads(y - 1, 4);
      }
    } else {
      QuarterKeyReads(y, q - 1);
    }
  }

  /** YEAR: the year before, as a string that `Number()` reads back as the year
      minus one. */
  lemma PrevYear(key: string)
    requires |key| >= 4 && AllDigits(key[..4])
    ensures var r := PrevPeriodKey("YEAR", key);
      r.Some? && ParseNumber(r.value) == Some((DigitsValue(key[..4]) - 1) as real)
  {
    var v := DigitsValue(key[..4]) - 1;
    assert "YEAR" != "MONTH" && "YEAR" != "QUARTER";
    assert PrevPeriodKey("YEAR", key) == Some(IntToString(v));
    NumberOfIntToString(v);
  }

  /** Any other period type keeps the key. */
  lemma PrevOtherType(periodType: string, key: string)
    requires periodType != "MONTH" && periodType != "QUARTER" && periodType != "YEAR"
    ensures PrevPeriodKey(periodType, key) == Some(key)
  {
  }

  // ---------------------------------------------------------------- requests

  /** The add-plan form: the chosen rubber type (None for the empty choice), the
      planned quantity and the note as typed. */
  datatype PlanForm = PlanForm(rubberTypeId: Option<int>, plannedQty: string, note: string)

  /** addPlan's body: `Number(farmId)` (the empty choice is 0), plot_id null,
      `Number(form.planned_qty || 0)` (NaN goes out as JSON null) and
      `form.note || null`. */
  function AddPlanBody(farm: Option<int>, form: PlanForm, periodType: string, periodKey: string): PlanRoutes.PlanBody {
    PlanRoutes.PlanBody(Some(farm.GetOr(0)), None, Some(form.rubberTypeId.GetOr(0)), Some(periodType),
                        Some(periodKey), if form.plannedQty == "" then Some(0.0) else ParseNumber(form.plannedQty),
                        StrOrNull(Some(form.note)))
  }

  /** The server accepts the body exactly when a farm and a rubber type are chosen
      and the period is set; the plan it creates is farm-level (no plot), at
      version 1, with the typed quantity, or 0 when it is blank or not a number. */
  lemma AddPlanCreates(farm: Option<int>, form: PlanForm, periodType: string, periodKey: string, id: int)
    ensures var b := AddPlanBody(farm, form, periodType, periodKey);
      PlanRoutes.CreateAccepted(b) <==>
        IntTruthy(farm) && IntTruthy(form.rubberTypeId) && periodType != "" && periodKey != ""
    ensures var b := AddPlanBody(farm, form, periodType, periodKey);
      PlanRoutes.CreateAccepted(b) ==>
        var p := PlanRoutes.NewPlan(b, id);
        && p.plotId.None? && p.version == 1
        && p.farmId == farm.value && p.rubberTypeId == form.rubberTypeId.value
        && p.plannedQty == ParseNumber(form.plannedQty).GetOr(0.0)
        && (p.note.None? <==> form.note == "")
  {
  }

  /** onCopyPrev's body: from the previous period into the selected one, same
      farm and period type, destination version 1. */
  function CopyPrevBody(farm: Option<int>, periodType: string, periodKey: string): PlanRoutes.CopyBody {
    var f := farm.GetOr(0);
    PlanRoutes.CopyBody(Some(PlanRoutes.ScopeBody(Some(f), Some(periodType), PrevPeriodKey(periodType, periodKey))),
                        Some(PlanRoutes.DstBody(Some(f), Some(periodType), Some(periodKey), Some(1))))
  }

  /** With a farm chosen and a period the model reads, the server copies the
      previous period's latest plans into the selected period at version 1. */
  lemma CopyPrevRequest(farm: Option<int>, periodType: string, periodKey: string)
    requires IntTruthy(farm) && periodType != "" && periodKey != ""
    requires PrevPeriodKey(periodType, periodKey).Some?
    ensures PlanRoutes.CopyRequest(CopyPrevBody(farm, periodType, periodKey)) ==
      Some((PlanRoutes.Scope(farm.value, periodType, PrevPeriodKey(periodType, periodKey).value),
            PlanRoutes.Scope(farm.value, periodType, periodKey), 1))
  {
  }

  // ---------------------------------------------------------------- QuarterPicker

  /** The first i >= from where "-Q" starts, or |s| when there is none. */
  function FindQ(s: string, from: nat): (i: nat)
    requires from <= |s|
    ensures from <= i <= |s|
    ensures i < |s| ==> i + 1 < |s| && s[i] == '-' && s[i + 1] == 'Q'
    ensures forall k :: from <= k < i && k + 1 < |s| ==> !(s[k] == '-' && s[k + 1] == 'Q')
    decreases |s| - from
  {
    if from + 1 >= |s| then |s|
    else if s[from] == '-' && s[from + 1] == 'Q' then from
    else FindQ(s, from + 1)
  }

  /** `s.split('-Q')[0]` and `s.split('-Q')[1]` (None when there is no "-Q"). */
  function SplitQ(s: string): (string, Option<string>) {
    var i := FindQ(s, 0);
    if i == |s| then (s, None)
    else (s[..i], Some(s[i + 2..FindQ(s, i + 2)]))
  }

  /** The key QuarterPicker emits on mounting with `value`: the year part, or the
      current year when it is empty; the quarter part, or '1' when it is missing
      or empty. */
  function QuarterPickerKey(value: string, currentYear: int): string {
    var (yPart, qPart) := SplitQ(value);
    var y := if yPart != "" then yPart else IntToString(currentYear);
    var q := if qPart.Some? && qPart.value != "" then qPart.value else "1";
    y + "-Q" + q
  }

  /** A quarter key is emitted unchanged. */
  lemma QuarterPickerKeepsQuarterKey(value: string, currentYear: int)
    requires ParseQuarterKey(value).Some?
    ensures QuarterPickerKey(value, currentYear) == value
  {
    var n := |value| - 3;
    assert forall k :: 0 <= k < n ==> value[k] != '-' by {
      assert AllDigits(value[..n]);
      assert forall k :: 0 <= k < n ==> value[..n][k] == value[k];
    }
    assert FindQ(value, 0) == n;
    assert FindQ(value, n + 2) == |value|;
    assert value == value[..n] + "-Q" + value[n + 2..];
  }

  /** As written, switching to QUARTER while the key is still a month key emits
      a key that is not a quarter key, whose previous period the page cannot
      compute. */
  lemma QuarterPickerFromMonthKey(currentYear: int)
    ensures QuarterPickerKey("2024-05", currentYear) == "2024-05-Q1"
    ensures ParseQuarterKey("2024-05-Q1").None?
    ensures PrevPeriodKey("QUARTER", "2024-05-Q1").None?
  {
    assert FindQ("2024-05", 0) == 7;
    assert "2024-05-Q1"[..7][4] == '-';
  }

  /** The corrected picker: a quarter key stays; otherwise the year is the key's
      first four digits when it starts with them, else the current year, and the
      quarter is 1. */
  function QuarterPickerKeyFixed(value: string, currentYear: nat): string {
    if ParseQuarterKey(value).Some? then value
    else if |value| >= 4 && AllDigits(value[..4]) then value[..4] + "-Q1"
    else NatToString(currentYear) + "-Q1"
  }

  /** The corrected picker always emits a quarter key, and a month key turns into
      the first quarter of its year. */
  lemma QuarterPickerFixedEmitsQuarterKey(value: string, currentYear: nat)
    ensures ParseQuarterKey(QuarterPickerKeyFixed(value, currentYear)).Some?
    ensures ParseMonthKey(value).Some? ==>
      ParseQuarterKey(QuarterPickerKeyFixed(value, currentYear)) == Some((ParseMonthKey(value).value.0, 1))
  {
    var r := QuarterPickerKeyFixed(value, currentYear);
    if ParseQuarterKey(value).None? {
      if |value| >= 4 && AllDigits(value[..4]) {
        assert r[..|r| - 3] == value[..4];
      } else {
        assert r[..|r| - 3] == NatToString(currentYear);
      }
    }
    if ParseMonthKey(value).Some? {
      assert value[..7][4] == '-';
      assert ParseQuarterKey(value).None?;
      assert r[..|r| - 3] == value[..4];
    }
  }
}
