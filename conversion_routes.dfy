/** POST /api/conversions: a dry-rubber conversion factor per (farm, rubber type,
    effective date), saved with `INSERT … ON DUPLICATE KEY UPDATE factor_to_dry_ton`.
    A NULL farm is the system-wide default. The write itself is
    Store.Database.SaveConversion. */
module ConversionRoutes {
  import opened Base
  import opened Calendar
  import opened Tables
  import opened Schema

  /** The request body. farmId None is an absent or null farm_id; factor None is
      an absent or null factor_to_dry_ton. */
  datatype ConversionBody = ConversionBody(farmId: Option<int>, rubberTypeId: Option<int>,
                                           effectiveFrom: Option<Date>, factor: Option<real>)

  /** rubber_type_id and effective_from must be truthy and the factor must not be
      null or undefined; a factor of 0 is accepted. */
  predicate SaveAccepted(b: ConversionBody) {
    IntTruthy(b.rubberTypeId) && b.effectiveFrom.Some? && b.factor.Some?
  }

  /** The row the INSERT writes. `farm_id ?? null` keeps every given farm id,
      0 included; only an absent or null one is stored as NULL. */
  function NewConversion(b: ConversionBody, id: int): (c: Conversion)
    requires SaveAccepted(b)
    ensures c.id == id && c.farmId == b.farmId
    ensures c.rubberTypeId == b.rubberTypeId.value && c.effectiveFrom == b.effectiveFrom.value
    ensures c.factor == b.factor.value
  {
    Conversion(id, b.farmId, b.rubberTypeId.value, b.effectiveFrom.value, b.factor.value)
  }

  /** The conversion table after an accepted save. */
  function Save(s: seq<Conversion>, d: bool, b: ConversionBody, id: int): seq<Conversion>
    requires SaveAccepted(b)
  {
    Upsert(ConversionShape, d, ConversionMerge, s, NewConversion(b, id))
  }

  /** A save on an existing (farm, rubber type, date) replaces only that row's
      factor; otherwise it appends the row. */
  lemma SaveEffect(s: seq<Conversion>, d: bool, b: ConversionBody, id: int)
    requires Unique(ConversionShape, d, s) && SaveAccepted(b)
    ensures var r := NewConversion(b, id);
      var t := Save(s, d, b, id);
      && ((forall i :: 0 <= i < |s| ==> !Collide(ConversionShape, d, s[i], r)) ==> t == s + [r])
      && ((exists i :: 0 <= i < |s| && Collide(ConversionShape, d, s[i], r)) ==>
            |t| == |s| &&
            forall i :: 0 <= i < |s| ==>
              t[i] == if Collide(ConversionShape, d, s[i], r) then s[i].(factor := r.factor) else s[i])
  {
    UpsertEffect(ConversionShape, d, ConversionMerge, s, NewConversion(b, id));
  }

  /** A save keeps the table well formed. */
  lemma SaveWellFormed(s: seq<Conversion>, d: bool, b: ConversionBody, n: int)
    requires WellFormed(ConversionShape, d, s, n) && n >= 1 && SaveAccepted(b)
    ensures WellFormed(ConversionShape, d, Save(s, d, b, n), n + 1)
  {
    ConversionMergeLaws();
    UpsertWellFormed(ConversionShape, d, ConversionMerge, s, NewConversion(b, n), n);
  }

  /** Posting the same body twice leaves the table as posting it once, for a
      farm-specific factor or when NULLs compare equal. */
  lemma SaveIdempotent(s: seq<Conversion>, d: bool, b: ConversionBody, id1: int, id2: int)
    requires Unique(ConversionShape, d, s) && SaveAccepted(b)
    requires !d || b.farmId.Some?
    ensures Save(Save(s, d, b, id1), d, b, id2) == Save(s, d, b, id1)
  {
    var r1 := NewConversion(b, id1);
    var r2 := NewConversion(b, id2);
    ConversionMergeLaws();
    UpsertTwice(ConversionShape, d, ConversionMerge, s, r1, r2);
    assert ConversionMerge(r1, r2) == r1;
  }

  /** With NULLs distinct, a system-wide factor (NULL farm) never matches: posting
      it twice adds two rows. */
  lemma SaveSystemWideAppends(s: seq<Conversion>, b: ConversionBody, id1: int, id2: int)
    requires SaveAccepted(b) && b.farmId.None?
    ensures Save(Save(s, true, b, id1), true, b, id2) == s + [NewConversion(b, id1), NewConversion(b, id2)]
  {
    UpsertNullKeyAppends(ConversionShape, ConversionMerge, s, NewConversion(b, id1));
    UpsertNullKeyAppends(ConversionShape, ConversionMerge, s + [NewConversion(b, id1)], NewConversion(b, id2));
  }
}
