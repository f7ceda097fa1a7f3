/** The dashboard page: the colour of a completion percentage and the quick input
    that posts today's quantity of one rubber type for the selected farm. */
module DashboardPage {
  import opened Base
  import opened Calendar
  import opened Schema
  import ActualRoutes

  // ---------------------------------------------------------------- color

  /** color(pct): none for a missing percentage, green from 98, amber from 90,
      red below. */
  function Color(pct: Option<real>): (c: Option<string>)
    ensures c.None? <==> pct.None?
    ensures c == Some("#0a6") <==> pct.Some? && pct.value >= 98.0
    ensures c == Some("#c90") <==> pct.Some? && 90.0 <= pct.value < 98.0
    ensures c == Some("#c33") <==> pct.Some? && pct.value < 90.0
  {
    if pct.None? then None
    else if pct.value >= 98.0 then Some("#0a6")
    else if pct.value >= 90.0 then Some("#c90")
    else Some("#c33")
  }

  /** How good a colour reads: red 0, amber 1, green 2. */
  function ColorRank(c: Option<string>): int {
    if c == Some("#0a6") then 2 else if c == Some("#c90") then 1 else 0
  }

  /** A higher completion never shows a worse colour. */
  lemma ColorMonotone(p: real, q: real)
    requires p <= q
    ensures ColorRank(Color(Some(p))) <= ColorRank(Color(Some(q)))
  {
  }

  // ---------------------------------------------------------------- saveToday

  /** RUBBER_CODE_TO_ID: the only two codes the quick input knows. */
  function RubberCodeId(code: string): (id: Option<int>)
    ensures id.Some? <==> code == "mu_nuoc" || code == "mu_tap"
    ensures code == "mu_nuoc" ==> id == Some(1)
    ensures code == "mu_tap" ==> id == Some(2)
  {
    if code == "mu_nuoc" then Some(1) else if code == "mu_tap" then Some(2) else None
  }

  /** `(quick[rubberCode] ?? '').trim()` */
  function QuickText(quick: map<string, string>, code: string): string {
    Trim(if code in quick then quick[code] else "")
  }

  datatype QuickOutcome = NoFarm | BadQty | UnknownCode | Post(body: ActualRoutes.ActualBody)

  /** saveToday's guards in their order: a farm must be selected; the typed text,
      trimmed, must convert to a number (blank is 0); the code must be mu_nuoc or
      mu_tap. The body is a farm-level row (plot_id null) noted 'quick-input'. */
  function QuickRequest(farm: Option<int>, quick: map<string, string>, code: string, date: Option<Date>)
    : (r: QuickOutcome)
    ensures r == NoFarm <==> farm.None?
    ensures r == BadQty <==> farm.Some? && ParseNumber(QuickText(quick, code)).None?
    ensures r == UnknownCode <==>
      farm.Some? && ParseNumber(QuickText(quick, code)).Some? && RubberCodeId(code).None?
    ensures r.Post? ==> r.body == ActualRoutes.ActualBody(date, farm, None, RubberCodeId(code),
                                                          ParseNumber(QuickText(quick, code)), Some("quick-input"))
    ensures r.Post? && AllSpace(QuickText(quick, code)) ==> r.body.qty == Some(0.0)
  {
    if farm.None? then NoFarm
    else
      var qty := ParseNumber(QuickText(quick, code));
      if qty.None? then BadQty
      else
        var rt := RubberCodeId(code);
        if rt.None? then UnknownCode
        else Post(ActualRoutes.ActualBody(date, farm, None, rt, qty, Some("quick-input")))
  }

  /** The quick input of a selected farm is stored, with the date set, as a
      'manual' row without a plot holding the typed quantity. */
  lemma QuickRequestStores(farm: Option<int>, quick: map<string, string>, code: string, date: Option<Date>, id: int)
    requires QuickRequest(farm, quick, code, date).Post? && IntTruthy(farm) && date.Some?
    ensures var b := QuickRequest(farm, quick, code, date).body;
      ActualRoutes.SaveAccepted(b) &&
      var a := ActualRoutes.NewActual(b, id);
      a.plotId.None? && a.farmId == farm.value && a.date == date.value &&
      a.qty == ParseNumber(QuickText(quick, code)).value && a.note == Some("quick-input")
  {
  }

  /** With NULLs distinct in the unique key, saving the same quick input twice
      stores two rows instead of overwriting the first. */
  lemma QuickInputTwiceAppends(s: seq<Actual>, farm: Option<int>, quick: map<string, string>, code: string,
                               date: Option<Date>, id1: int, id2: int)
    requires QuickRequest(farm, quick, code, date).Post? && IntTruthy(farm) && date.Some?
    ensures var b := QuickRequest(farm, quick, code, date).body;
      ActualRoutes.SaveAccepted(b) &&
      ActualRoutes.Save(ActualRoutes.Save(s, true, b, id1), true, b, id2) ==
        s + [ActualRoutes.NewActual(b, id1), ActualRoutes.NewActual(b, id2)]
  {
    var b := QuickRequest(farm, quick, code, date).body;
    ActualRoutes.SaveNullPlotAppends(s, b, id1, id2);
  }

  /** The page's quick-input state: the text typed per rubber code and the code
      being saved. */
  class DashboardView {
    var quick: map<string, string>
    var savingKey: string

    constructor ()
      ensures quick == map[] && savingKey == ""
    {
      quick := map[];
      savingKey := "";
    }

    /** saveToday(code): when a guard fails nothing is posted and nothing changes
        (the page only alerts); otherwise the body is posted, and when the server
        accepts it only that code's text is cleared. Either way the saving mark is
        cleared at the end. `accepted` is the server's answer. */
    method SaveToday(code: string, farm: Option<int>, date: Option<Date>, accepted: bool)
      returns (posted: Option<ActualRoutes.ActualBody>)
      modifies this
      ensures posted.Some? <==> QuickRequest(farm, old(quick), code, date).Post?
      ensures posted.Some? ==> posted.value == QuickRequest(farm, old(quick), code, date).body
      ensures posted.Some? && accepted ==> quick == old(quick)[code := ""]
      ensures !(posted.Some? && accepted) ==> quick == old(quick)
      ensures posted.Some? ==> savingKey == ""
      ensures posted.None? ==> savingKey == old(savingKey)
    {
      var r := QuickRequest(farm, quick, code, date);
      if !r.Post? {
        return None;
      }
      savingKey := code;
      posted := Some(r.body);
      if accepted {
        quick := quick[code := ""];
      }
      savingKey := "";
    }
  }
}
