/** /api/farms: every farm ordered by name, and a plain insert. The insert itself
    is Store.Database.CreateFarm. */
module FarmRoutes {
  import opened Base
  import opened Sorting
  import opened Tables
  import opened Schema

  /** `ORDER BY name`; a NULL name sorts first. */
  function FarmOrder(f: Farm): seq<Cell> {
    [if f.name.Some? then Text(f.name.value) else Nil]
  }

  /** GET /api/farms: all farms, each once, ordered by name. */
  function List(farms: seq<Farm>): (r: seq<Farm>)
    ensures Sorted(r, FarmOrder)
    ensures multiset(r) == multiset(farms)
  {
    SortBy(farms, FarmOrder)
  }

  /** A farm with no name sorts before every named one. */
  lemma UnnamedFirst(farms: seq<Farm>, i: int, j: int)
    requires 0 <= i < |List(farms)| && 0 <= j < |List(farms)|
    requires List(farms)[i].name.None? && List(farms)[j].name.Some?
    ensures i < j
  {
    var r := List(farms);
    assert KeyLt(FarmOrder(r[i]), FarmOrder(r[j]));
  }

  datatype FarmBody = FarmBody(name: Option<string>, areaHa: Option<real>,
                               province: Option<string>, district: Option<string>)

  /** The row POST /api/farms inserts. Nothing is validated: the name is passed
      as given, a missing area becomes 0, an empty province or district NULL,
      and the status is 'active'. */
  function NewFarm(b: FarmBody, id: int): (f: Farm)
    ensures f.id == id && f.name == b.name && f.status == "active"
    ensures f.areaHa == (if b.areaHa.Some? then b.areaHa.value else 0.0)
    ensures f.province.None? <==> !StrTruthy(b.province)
    ensures f.province.Some? ==> f.province == b.province
    ensures f.district.None? <==> !StrTruthy(b.district)
    ensures f.district.Some? ==> f.district == b.district
  {
    Farm(id, b.name, NumOrZero(b.areaHa), StrOrNull(b.province), StrOrNull(b.district), "active")
  }

  /** A create always adds a new farm with a fresh id and leaves every existing
      farm as it was. */
  lemma CreateWellFormed(s: seq<Farm>, b: FarmBody, n: int)
    requires IdsFresh(FarmShape, s, n) && n >= 1
    ensures WellFormed(FarmShape, false, s + [NewFarm(b, n)], n + 1)
    ensures WellFormed(FarmShape, true, s + [NewFarm(b, n)], n + 1)
    ensures forall i :: 0 <= i < |s| ==> NewFarm(b, n).id != s[i].id
  {
    InsertWellFormed(FarmShape, s, NewFarm(b, n), n);
  }
}
