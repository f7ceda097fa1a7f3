/** The actuals page: date normalisation of the rows, the total of the listed
    quantities, the query the page sends, and the inline edit with its checks. */
module ActualsPage {
  import opened Base
  import opened Calendar

  // ---------------------------------------------------------------- toYMD

  /** `/^\d{4}-\d{2}-\d{2}/`: the text starts in the shape YYYY-MM-DD. */
  predicate YmdPrefix(s: string) {
    |s| >= 10 && AllDigits(s[..4]) && s[4] == '-' && AllDigits(s[5..7]) && s[7] == '-' && AllDigits(s[8..10])
  }

  /** toYMD: '' for a falsy value and the first ten characters of a string that
      starts YYYY-MM-DD. None stands for the remaining inputs, which go through a
      Date in the host's time zone. */
  function ToYmd(v: JsValue): (r: Option<string>)
    ensures !Truthy(v) ==> r == Some("")
    ensures r.Some? && r.value != "" ==> v.Str? && YmdPrefix(v.s) && |r.value| == 10 && v.s[..10] == r.value
    ensures v.Str? && YmdPrefix(v.s) ==> r == Some(v.s[..10])
  {
    if !Truthy(v) then Some("")
    else if v.Str? && YmdPrefix(v.s) then Some(v.s[..10])
    else None
  }

  /** Normalising a normalised date changes nothing. */
  lemma ToYmdIdempotent(v: JsValue)
    requires ToYmd(v).Some?
    ensures ToYmd(Str(ToYmd(v).value)) == ToYmd(v)
  {
    var r := ToYmd(v).value;
    if r != "" {
      assert r[..10] == r;
      assert r[..4] == v.s[..4] && r[5..7] == v.s[5..7] && r[8..10] == v.s[8..10];
    }
  }

  /** `YYYY-MM-DD` of a date: four-digit year, then month and day each through
      pad2 (Calendar.MonthText pads to two digits the same way). */
  function YmdText(d: Date): string {
    YearText(d.year) + "-" + MonthText(d.month) + "-" + MonthText(d.day)
  }

  lemma YmdTextShape(d: Date)
    requires ValidDate(d) && 0 <= d.year <= 9999
    ensures |YmdText(d)| == 10 && YmdPrefix(YmdText(d))
  {
    YearTextDigits(d.year);
    MonthTextDigits(d.month);
    MonthTextDigits(d.day);
    DateParts(YearText(d.year), MonthText(d.month), MonthText(d.day));
  }

  /** Four digits, a dash, two digits, a dash and two digits are in the shape. */
  lemma DateParts(y: string, m: string, d: string)
    requires |y| == 4 && |m| == 2 && |d| == 2 && AllDigits(y) && AllDigits(m) && AllDigits(d)
    ensures |y + "-" + m + "-" + d| == 10 && YmdPrefix(y + "-" + m + "-" + d)
  {
    var t := y + "-" + m + "-" + d;
    assert t[..4] == y;
    assert t[5..7] == m;
    assert t[8..10] == d;
  }

  /** What follows the first ten characters does not change the shape. */
  lemma YmdPrefixExtends(t: string, rest: string)
    requires |t| == 10 && YmdPrefix(t)
    ensures YmdPrefix(t + rest) && (t + rest)[..10] == t
  {
    var s := t + rest;
    assert s[..10] == t;
    assert s[..4] == t[..4] && s[5..7] == t[5..7] && s[8..10] == t[8..10];
  }

  /** A date as the server sends it (an ISO timestamp) normalises to its
      `YYYY-MM-DD` text, whatever follows the first ten characters. */
  lemma ToYmdOfTimestamp(d: Date, rest: string)
    requires ValidDate(d) && 0 <= d.year <= 9999
    ensures ToYmd(Str(YmdText(d) + rest)) == Some(YmdText(d))
  {
    YmdTextShape(d);
    YmdPrefixExtends(YmdText(d), rest);
  }

  // ---------------------------------------------------------------- total

  /** `rows.reduce((s, r) => s + (Number(r.qty) || 0), 0)` */
  function Total(qtys: seq<JsValue>): real {
    if qtys == [] then 0.0 else Total(qtys[..|qtys| - 1]) + NumberOrZero(qtys[|qtys| - 1])
  }

  /** The total of two lists of rows is the sum of their totals. */
  lemma {:induction false} TotalConcat(a: seq<JsValue>, b: seq<JsValue>)
    ensures Total(a + b) == Total(a) + Total(b)
    decreases |b|
  {
    if b == [] {
      assert a + b == a;
    } else {
      var n := |b| - 1;
      assert (a + b)[..|a + b| - 1] == a + b[..n];
      TotalConcat(a, b[..n]);
    }
  }

  /** A quantity that does not convert to a number counts as 0. */
  lemma TotalSkipsNonNumeric(a: seq<JsValue>, v: JsValue, b: seq<JsValue>)
    requires ToNumber(v).None?
    ensures Total(a + [v] + b) == Total(a + b)
  {
    TotalConcat(a + [v], b);
    TotalConcat(a, b);
    assert (a + [v])[..|a + [v]| - 1] == a;
  }

  // ---------------------------------------------------------------- load

  /** The query of listActuals; an absent filter is None. */
  datatype ListQuery = ListQuery(farmId: Option<string>, rubberTypeId: Option<string>, plotId: Option<string>,
                                 dateFrom: string, dateTo: string, limit: real)

  /** load's query: empty filters are left out, the plot filter is trimmed after
      the emptiness test, and the limit is `Number(limit) || 500`. */
  function LoadQuery(farmId: string, rubberTypeId: string, plotId: string, dateFrom: string, dateTo: string,
                     limit: string): (q: ListQuery)
    ensures q.farmId.None? <==> farmId == ""
    ensures q.rubberTypeId.None? <==> rubberTypeId == ""
    ensures q.plotId.None? <==> plotId == ""
    ensures q.plotId.Some? ==> q.plotId.value == Trim(plotId)
    ensures q.dateFrom == dateFrom && q.dateTo == dateTo
    ensures ParseNumber(limit).None? || ParseNumber(limit) == Some(0.0) ==> q.limit == 500.0
    ensures ParseNumber(limit).Some? && ParseNumber(limit) != Some(0.0) ==> q.limit == ParseNumber(limit).value
  {
    var n := ParseNumber(limit);
    ListQuery(if farmId != "" then Some(farmId) else None,
              if rubberTypeId != "" then Some(rubberTypeId) else None,
              if plotId != "" then Some(Trim(plotId)) else None,
              dateFrom, dateTo,
              if n.Some? && n.value != 0.0 then n.value else 500.0)
  }

  /** An empty or blank limit field asks for 500 rows; a plot filter of blanks is
      still sent, as the empty string. */
  lemma LoadQueryBlanks(farmId: string, rubberTypeId: string, plotId: string, dateFrom: string, dateTo: string,
                        limit: string)
    requires AllSpace(limit) && plotId != "" && AllSpace(plotId)
    ensures LoadQuery(farmId, rubberTypeId, plotId, dateFrom, dateTo, limit).limit == 500.0
    ensures LoadQuery(farmId, rubberTypeId, plotId, dateFrom, dateTo, limit).plotId == Some("")
  {
  }

  // ---------------------------------------------------------------- saveEdit

  /** The inline editor's fields as typed. */
  datatype Draft = Draft(qty: string, note: string, date: string)

  /** The body of updateActual; date None is a date this model does not read. */
  datatype ActualPatch = ActualPatch(qty: real, note: Option<string>, date: Option<string>)

  datatype EditOutcome = BadQty | NoDate | Send(patch: ActualPatch)

  /** saveEdit's checks: a quantity that is NaN or negative is refused, then an
      empty date; otherwise the numeric quantity, the trimmed note (null when
      empty) and the normalised date are sent. An empty quantity reads as 0. */
  function EditRequest(d: Draft): (r: EditOutcome)
    ensures r == BadQty <==> ParseNumber(d.qty).None? || ParseNumber(d.qty).value < 0.0
    ensures r == NoDate <==> ParseNumber(d.qty).Some? && ParseNumber(d.qty).value >= 0.0 && d.date == ""
    ensures r.Send? ==> r.patch.qty >= 0.0 && Some(r.patch.qty) == ParseNumber(d.qty)
    ensures r.Send? ==> (r.patch.note.None? <==> Trim(d.note) == "")
    ensures r.Send? && r.patch.note.Some? ==> r.patch.note.value == Trim(d.note)
    ensures r.Send? ==> r.patch.date == ToYmd(Str(d.date))
  {
    var q := ParseNumber(d.qty);
    if q.None? || q.value < 0.0 then BadQty
    else if d.date == "" then NoDate
    else Send(ActualPatch(q.value, StrOrNull(Some(Trim(d.note))), ToYmd(Str(d.date))))
  }

  /** A date picked in the editor is sent as it is, and a blank quantity as 0. */
  lemma EditRequestBlankQty(d: Draft)
    requires AllSpace(d.qty) && YmdPrefix(d.date) && |d.date| == 10
    ensures EditRequest(d).Send? && EditRequest(d).patch.qty == 0.0
    ensures EditRequest(d).patch.date == Some(d.date)
  {
    assert d.date[..10] == d.date;
  }

  /** The texts of the page's message line. */
  const Saved := "saved"
  const LoadFailed := "load failed"

  /** The page's editing state. */
  class ActualsView {
    var editingId: Option<int>
    var draft: Draft
    var message: string

    constructor ()
      ensures editingId.None? && draft == Draft("", "", "") && message == ""
    {
      editingId := None;
      draft := Draft("", "", "");
      message := "";
    }

    /** cancelEdit */
    method CancelEdit()
      modifies this
      ensures editingId.None? && draft == Draft("", "", "") && message == old(message)
    {
      editingId := None;
      draft := Draft("", "", "");
    }

    /** load(): the message is cleared first; a failed fetch then shows an
        error. `fetched` is whether the fetch succeeded. The rows it loads are
        not part of this state. */
    method Load(fetched: bool)
      modifies this
      ensures message == (if fetched then "" else LoadFailed)
      ensures editingId == old(editingId) && draft == old(draft)
    {
      message := "";
      if !fetched {
        message := LoadFailed;
      }
    }

    /** saveEdit(id): a refused draft sends nothing and changes nothing (the page
        only alerts). Otherwise the patch is sent to row `id`. When the server
        accepts it, the success message is set, the editor closes and the page
        reloads; the reload clears the message at once, so what remains is an
        empty message, or the load error when the fetch fails. A failed update
        leaves everything as it was. `accepted` is the server's answer and
        `fetched` the reload's. */
    method SaveEdit(id: int, accepted: bool, fetched: bool) returns (sent: Option<(int, ActualPatch)>)
      modifies this
      ensures sent.Some? <==> EditRequest(old(draft)).Send?
      ensures sent.Some? ==> sent.value == (id, EditRequest(old(draft)).patch)
      ensures sent.Some? && accepted ==>
        editingId.None? && draft == Draft("", "", "") && message == (if fetched then "" else LoadFailed)
      ensures !(sent.Some? && accepted) ==>
        editingId == old(editingId) && draft == old(draft) && message == old(message)
    {
      var r := EditRequest(draft);
      if !r.Send? {
        return None;
      }
      sent := Some((id, r.patch));
      if accepted {
        message := Saved;
        CancelEdit();
        Load(fetched);
      }
    }
  }
}
