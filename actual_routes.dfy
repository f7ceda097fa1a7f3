/** POST /api/actuals: one production figure per (farm, plot, rubber type, date),
    saved with `INSERT … ON DUPLICATE KEY UPDATE qty, note`. The write itself is
    Store.Database.SaveActual; this module states the row it writes and what the
    upsert does with it. */
module ActualRoutes {
  import opened Base
  import opened Calendar
  import opened Tables
  import opened Schema

  /** The request body; an empty or missing date is None. */
  datatype ActualBody = ActualBody(date: Option<Date>, farmId: Option<int>, plotId: Option<int>,
                                   rubberTypeId: Option<int>, qty: Option<real>, note: Option<string>)

  /** date, farm_id and rubber_type_id must all be truthy; qty is not checked. */
  predicate SaveAccepted(b: ActualBody) {
    b.date.Some? && IntTruthy(b.farmId) && IntTruthy(b.rubberTypeId)
  }

  /** The row the INSERT writes: source 'manual', a falsy plot as NULL, a missing
      qty as 0 (negative values pass), an empty note as NULL. */
  function NewActual(b: ActualBody, id: int): (a: Actual)
    requires SaveAccepted(b)
    ensures a.id == id && a.source == "manual" && a.date == b.date.value
    ensures a.farmId == b.farmId.value && a.rubberTypeId == b.rubberTypeId.value
    ensures a.plotId.None? <==> !IntTruthy(b.plotId)
    ensures a.plotId.Some? ==> a.plotId == b.plotId
    ensures a.qty == (if b.qty.Some? then b.qty.value else 0.0)
    ensures a.note.None? <==> !StrTruthy(b.note)
    ensures a.note.Some? ==> a.note == b.note
  {
    Actual(id, b.farmId.value, IdOrNull(b.plotId), b.rubberTypeId.value, b.date.value,
           NumOrZero(b.qty), "manual", StrOrNull(b.note))
  }

  /** The actual table after an accepted save. */
  function Save(s: seq<Actual>, d: bool, b: ActualBody, id: int): seq<Actual>
    requires SaveAccepted(b)
  {
    Upsert(ActualShape, d, ActualMerge, s, NewActual(b, id))
  }

  /** A save on a new key appends one 'manual' row; on an existing key it replaces
      qty and note of that one row and keeps its source, id and key; every other
      row stays as it was. */
  lemma SaveEffect(s: seq<Actual>, d: bool, b: ActualBody, id: int)
    requires Unique(ActualShape, d, s) && SaveAccepted(b)
    ensures var r := NewActual(b, id);
      var t := Save(s, d, b, id);
      && ((forall i :: 0 <= i < |s| ==> !Collide(ActualShape, d, s[i], r)) ==> t == s + [r])
      && ((exists i :: 0 <= i < |s| && Collide(ActualShape, d, s[i], r)) ==>
            |t| == |s| &&
            forall i :: 0 <= i < |s| ==>
              t[i] == if Collide(ActualShape, d, s[i], r) then s[i].(qty := r.qty, note := r.note) else s[i])
  {
    UpsertEffect(ActualShape, d, ActualMerge, s, NewActual(b, id));
  }

  /** A save keeps the table well formed. */
  lemma SaveWellFormed(s: seq<Actual>, d: bool, b: ActualBody, n: int)
    requires WellFormed(ActualShape, d, s, n) && n >= 1 && SaveAccepted(b)
    ensures WellFormed(ActualShape, d, Save(s, d, b, n), n + 1)
  {
    ActualMergeLaws();
    UpsertWellFormed(ActualShape, d, ActualMerge, s, NewActual(b, n), n);
  }

  /** Two bodies naming the same farm, plot, rubber type and date. */
  predicate SameKey(b1: ActualBody, b2: ActualBody) {
    b1.date == b2.date && b1.farmId == b2.farmId && IdOrNull(b1.plotId) == IdOrNull(b2.plotId) &&
    b1.rubberTypeId == b2.rubberTypeId
  }

  /** Saving the same key twice, with a plot (or when NULLs compare equal), leaves
      exactly one row of that key, holding the second qty and note. */
  lemma SaveTwice(s: seq<Actual>, d: bool, b1: ActualBody, b2: ActualBody, id1: int, id2: int)
    requires Unique(ActualShape, d, s) && SaveAccepted(b1) && SaveAccepted(b2) && SameKey(b1, b2)
    requires !d || IntTruthy(b1.plotId)
    ensures var k := ActualKeyOf(NewActual(b2, id2));
      var t := Save(Save(s, d, b1, id1), d, b2, id2);
      && (exists i :: 0 <= i < |t| && ActualKeyOf(t[i]) == k &&
            t[i].qty == NumOrZero(b2.qty) && t[i].note == StrOrNull(b2.note))
      && (forall i, j :: 0 <= i < j < |t| ==> !(ActualKeyOf(t[i]) == k && ActualKeyOf(t[j]) == k))
  {
    var r1 := NewActual(b1, id1);
    var r2 := NewActual(b2, id2);
    var k := ActualKeyOf(r2);
    var t1 := Save(s, d, b1, id1);
    var t := Save(t1, d, b2, id2);
    ActualMergeLaws();
    UpsertWellFormedUnique(ActualShape, d, ActualMerge, s, r1);
    UpsertWellFormedUnique(ActualShape, d, ActualMerge, t1, r2);
    UpsertHolds(ActualShape, d, ActualMerge, t1, r2);
    var i :| 0 <= i < |t| && Holds(ActualShape, ActualMerge, t[i], r2);
    assert ActualMerge(t[i], r2) == t[i];
    forall i, j | 0 <= i < j < |t| ensures !(ActualKeyOf(t[i]) == k && ActualKeyOf(t[j]) == k) {
      assert !Collide(ActualShape, d, t[i], t[j]);
    }
  }

  /** With NULLs distinct in the unique key, a save without a plot never matches an
      existing row: posting it twice adds two rows. */
  lemma SaveNullPlotAppends(s: seq<Actual>, b: ActualBody, id1: int, id2: int)
    requires SaveAccepted(b) && !IntTruthy(b.plotId)
    ensures Save(Save(s, true, b, id1), true, b, id2) == s + [NewActual(b, id1), NewActual(b, id2)]
  {
    UpsertNullKeyAppends(ActualShape, ActualMerge, s, NewActual(b, id1));
    UpsertNullKeyAppends(ActualShape, ActualMerge, s + [NewActual(b, id1)], NewActual(b, id2));
  }
}
