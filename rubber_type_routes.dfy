/** /api/rubber-types: every rubber type ordered by id, and a validated insert.
    The insert itself is Store.Database.CreateRubberType. */
module RubberTypeRoutes {
  import opened Base
  import opened Sorting
  import opened Tables
  import opened Schema

  function RubberTypeOrder(t: RubberType): seq<Cell> {
    [Int(t.id)]
  }

  /** GET /api/rubber-types: all rubber types, each once, in ascending id order. */
  function List(rts: seq<RubberType>): (r: seq<RubberType>)
    ensures multiset(r) == multiset(rts)
    ensures forall i, j :: 0 <= i < j < |r| ==> r[i].id <= r[j].id
  {
    var r := SortBy(rts, RubberTypeOrder);
    forall i, j | 0 <= i < j < |r| ensures r[i].id <= r[j].id {
      assert !KeyLt(RubberTypeOrder(r[j]), RubberTypeOrder(r[i]));
    }
    r
  }

  datatype RubberTypeBody = RubberTypeBody(code: Option<string>, description: Option<string>,
                                           unit: Option<string>)

  /** code and unit must be truthy (a string of blanks passes and is stored empty). */
  predicate CreateAccepted(b: RubberTypeBody) {
    StrTruthy(b.code) && StrTruthy(b.unit)
  }

  /** The row the INSERT writes: code and unit trimmed, an empty description NULL. */
  function NewRubberType(b: RubberTypeBody, id: int): (t: RubberType)
    requires CreateAccepted(b)
    ensures t.id == id && t.code == Trim(b.code.value) && t.unit == Trim(b.unit.value)
    ensures t.description.None? <==> !StrTruthy(b.description)
    ensures t.description.Some? ==> t.description == b.description
  {
    RubberType(id, Trim(b.code.value), StrOrNull(b.description), Trim(b.unit.value))
  }

  /** A create adds one rubber type with a fresh id and leaves every existing one
      as it was. */
  lemma CreateWellFormed(s: seq<RubberType>, b: RubberTypeBody, n: int)
    requires IdsFresh(RubberTypeShape, s, n) && n >= 1 && CreateAccepted(b)
    ensures WellFormed(RubberTypeShape, false, s + [NewRubberType(b, n)], n + 1)
    ensures WellFormed(RubberTypeShape, true, s + [NewRubberType(b, n)], n + 1)
    ensures forall i :: 0 <= i < |s| ==> NewRubberType(b, n).id != s[i].id
  {
    InsertWellFormed(RubberTypeShape, s, NewRubberType(b, n), n);
  }

  /** The stored code and unit carry no surrounding blanks: trimming them again
      changes nothing. */
  lemma CreateTrimmed(b: RubberTypeBody, n: int)
    requires CreateAccepted(b)
    ensures Trim(NewRubberType(b, n).code) == NewRubberType(b, n).code
    ensures Trim(NewRubberType(b, n).unit) == NewRubberType(b, n).unit
  {
    TrimIdempotent(b.code.value);
    TrimIdempotent(b.unit.value);
  }
}
