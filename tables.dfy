/** Tables as sequences of rows in insertion order, with an AUTO_INCREMENT id
    column and one unique key, and the two SQL writes the routes use on them:
    `INSERT … ON DUPLICATE KEY UPDATE` (Upsert, UpsertAll) and `DELETE … WHERE`
    (Filter). */
module Tables {

  /** The id column and the unique key of a table; `complete` says whether a key
      value holds no NULL column. */
  datatype Shape<!T, !K> = Shape(id: T -> int, key: T -> K, complete: K -> bool)

  /** Whether inserting b hits a's entry in the unique index. When `nullsDistinct`
      holds (MySQL's behaviour) a key with a NULL column never collides. */
  predicate Collide<T(!new), K(==)>(sh: Shape<T, K>, nullsDistinct: bool, a: T, b: T) {
    sh.key(a) == sh.key(b) && (!nullsDistinct || sh.complete(sh.key(a)))
  }

  /** The unique index holds: no two rows collide. */
  predicate Unique<T(!new), K(==)>(sh: Shape<T, K>, nullsDistinct: bool, s: seq<T>) {
    forall i, j :: 0 <= i < j < |s| ==> !Collide(sh, nullsDistinct, s[i], s[j])
  }

  /** Every id is positive and below the next AUTO_INCREMENT value n, and no two
      rows share an id. */
  predicate IdsFresh<T(!new), K>(sh: Shape<T, K>, s: seq<T>, n: int) {
    && (forall i :: 0 <= i < |s| ==> 1 <= sh.id(s[i]) < n)
    && (forall i, j :: 0 <= i < j < |s| ==> sh.id(s[i]) != sh.id(s[j]))
  }

  predicate WellFormed<T(!new), K(==)>(sh: Shape<T, K>, nullsDistinct: bool, s: seq<T>, n: int) {
    Unique(sh, nullsDistinct, s) && IdsFresh(sh, s, n)
  }

  /** The `ON DUPLICATE KEY UPDATE` assignment `merge(existing, incoming)` keeps
      the key and the id of the row it updates. */
  ghost predicate KeepsIdentity<T(!new), K>(sh: Shape<T, K>, merge: (T, T) -> T) {
    forall a, b :: sh.key(merge(a, b)) == sh.key(a) && sh.id(merge(a, b)) == sh.id(a)
  }

  /** The assignment copies the incoming row's updated columns, so two updates in
      turn are one update with the second row's columns, and a row updated with
      itself is unchanged. */
  ghost predicate Overwrites<T(!new)>(merge: (T, T) -> T) {
    && (forall a, b, c :: merge(merge(a, b), c) == merge(a, merge(b, c)))
    && (forall a :: merge(a, a) == a)
  }

  /** The first row that r collides with, or -1. */
  function FirstClash<T(!new), K(==)>(sh: Shape<T, K>, nullsDistinct: bool, s: seq<T>, r: T): (k: int)
    ensures -1 <= k < |s|
    ensures k >= 0 ==> Collide(sh, nullsDistinct, s[k], r)
    ensures forall i :: 0 <= i < |s| && (k < 0 || i < k) ==> !Collide(sh, nullsDistinct, s[i], r)
  {
    if s == [] then -1
    else if Collide(sh, nullsDistinct, s[0], r) then 0
    else
      var k := FirstClash(sh, nullsDistinct, s[1..], r);
      assert forall i :: 1 <= i < |s| ==> s[i] == s[1..][i - 1];
      if k < 0 then -1 else k + 1
  }

  /** `INSERT … ON DUPLICATE KEY UPDATE` of row r: the row r collides with is
      updated by merge, and when there is none r is appended. */
  function Upsert<T(!new), K(==)>(sh: Shape<T, K>, nullsDistinct: bool, merge: (T, T) -> T,
                            s: seq<T>, r: T): seq<T>
  {
    var k := FirstClash(sh, nullsDistinct, s, r);
    if k < 0 then s + [r] else s[k := merge(s[k], r)]
  }

  /** Under the unique index, an upsert appends exactly when no row collides, and
      otherwise updates the (only) colliding row, wherever it is. */
  lemma UpsertEffect<T(!new), K>(sh: Shape<T, K>, d: bool, merge: (T, T) -> T, s: seq<T>, r: T)
    requires Unique(sh, d, s)
    ensures (forall i :: 0 <= i < |s| ==> !Collide(sh, d, s[i], r)) ==>
              Upsert(sh, d, merge, s, r) == s + [r]
    ensures forall i :: 0 <= i < |s| && Collide(sh, d, s[i], r) ==>
              Upsert(sh, d, merge, s, r) == s[i := merge(s[i], r)]
    ensures (exists i :: 0 <= i < |s| && Collide(sh, d, s[i], r)) ==>
              (|Upsert(sh, d, merge, s, r)| == |s| &&
               forall j :: 0 <= j < |s| ==>
                 Upsert(sh, d, merge, s, r)[j] == if Collide(sh, d, s[j], r) then merge(s[j], r) else s[j])
  {
    var k := FirstClash(sh, d, s, r);
    forall i | 0 <= i < |s| && Collide(sh, d, s[i], r) ensures k == i {
      assert k >= 0 && k <= i;
      assert k < i ==> Collide(sh, d, s[k], s[i]);
    }
  }

  /** A row that does not collide with r keeps its place and its value. */
  lemma UpsertKeepsOthers<T(!new), K>(sh: Shape<T, K>, d: bool, merge: (T, T) -> T,
                                    s: seq<T>, r: T, i: int)
    requires 0 <= i < |s| && !Collide(sh, d, s[i], r)
    ensures |s| <= |Upsert(sh, d, merge, s, r)| <= |s| + 1
    ensures Upsert(sh, d, merge, s, r)[i] == s[i]
  {
  }

  /** An upsert whose new row takes the next AUTO_INCREMENT id keeps the unique
      index and the ids well formed. */
  lemma UpsertWellFormed<T(!new), K>(sh: Shape<T, K>, d: bool, merge: (T, T) -> T,
                                   s: seq<T>, r: T, n: int)
    requires WellFormed(sh, d, s, n) && KeepsIdentity(sh, merge)
    requires sh.id(r) == n && n >= 1
    ensures WellFormed(sh, d, Upsert(sh, d, merge, s, r), n + 1)
  {
    var t := Upsert(sh, d, merge, s, r);
    var k := FirstClash(sh, d, s, r);
    if k >= 0 {
      assert sh.key(t[k]) == sh.key(s[k]) && sh.id(t[k]) == sh.id(s[k]);
      forall i, j | 0 <= i < j < |t| ensures !Collide(sh, d, t[i], t[j]) {
        assert sh.key(t[i]) == sh.key(s[i]) && sh.key(t[j]) == sh.key(s[j]);
      }
      forall i | 0 <= i < |t| ensures sh.id(t[i]) == sh.id(s[i]) {
      }
    }
  }

  /** Saving two rows with the same key in turn is saving once the first row
      updated by the second: one entry, holding the second row's columns. */
  lemma UpsertTwice<T(!new), K>(sh: Shape<T, K>, d: bool, merge: (T, T) -> T,
                                  s: seq<T>, r1: T, r2: T)
    requires Unique(sh, d, s) && KeepsIdentity(sh, merge) && Overwrites(merge)
    requires Collide(sh, d, r1, r2)
    ensures Upsert(sh, d, merge, Upsert(sh, d, merge, s, r1), r2)
         == Upsert(sh, d, merge, s, merge(r1, r2))
  {
    var r12 := merge(r1, r2);
    assert sh.key(r12) == sh.key(r1);
    UpsertEffect(sh, d, merge, s, r1);
    UpsertEffect(sh, d, merge, s, r12);
    var k := FirstClash(sh, d, s, r1);
    var t1 := Upsert(sh, d, merge, s, r1);
    if k < 0 {
      assert t1 == s + [r1];
      assert forall i :: 0 <= i < |s| ==> !Collide(sh, d, s[i], r12);
      assert FirstClash(sh, d, t1, r2) == |s| by {
        assert forall i :: 0 <= i < |s| ==> t1[i] == s[i] && !Collide(sh, d, t1[i], r2);
        assert Collide(sh, d, t1[|s|], r2);
      }
    } else {
      assert t1 == s[k := merge(s[k], r1)];
      assert Collide(sh, d, s[k], r12);
      UpsertWellFormedUnique(sh, d, merge, s, r1);
      UpsertEffect(sh, d, merge, t1, r2);
      assert Collide(sh, d, t1[k], r2);
      assert merge(merge(s[k], r1), r2) == merge(s[k], r12);
    }
  }

  /** The unique-index half of UpsertWellFormed, which needs no ids. */
  lemma UpsertWellFormedUnique<T(!new), K>(sh: Shape<T, K>, d: bool, merge: (T, T) -> T,
                                         s: seq<T>, r: T)
    requires Unique(sh, d, s) && KeepsIdentity(sh, merge)
    ensures Unique(sh, d, Upsert(sh, d, merge, s, r))
  {
    var t := Upsert(sh, d, merge, s, r);
    var k := FirstClash(sh, d, s, r);
    if k >= 0 {
      forall i, j | 0 <= i < j < |t| ensures !Collide(sh, d, t[i], t[j]) {
        assert sh.key(t[i]) == sh.key(s[i]) && sh.key(t[j]) == sh.key(s[j]);
      }
    }
  }

  /** Saving the same row twice is saving it once, when its key can collide. */
  lemma UpsertIdempotent<T(!new), K>(sh: Shape<T, K>, d: bool, merge: (T, T) -> T,
                                       s: seq<T>, r: T)
    requires Unique(sh, d, s) && KeepsIdentity(sh, merge) && Overwrites(merge)
    requires !d || sh.complete(sh.key(r))
    ensures Upsert(sh, d, merge, Upsert(sh, d, merge, s, r), r) == Upsert(sh, d, merge, s, r)
  {
    UpsertTwice(sh, d, merge, s, r, r);
    assert merge(r, r) == r;
  }

  /** A key with a NULL column never collides when NULLs are distinct, so each
      save of such a row adds one more row. */
  lemma UpsertNullKeyAppends<T(!new), K>(sh: Shape<T, K>, merge: (T, T) -> T, s: seq<T>, r: T)
    requires !sh.complete(sh.key(r))
    ensures Upsert(sh, true, merge, s, r) == s + [r]
    ensures Upsert(sh, true, merge, Upsert(sh, true, merge, s, r), r) == s + [r, r]
  {
    var t := s + [r];
    assert FirstClash(sh, true, t, r) < 0;
    assert t + [r] == s + [r, r];
  }

  // ---------------------------------------------------------------- batches

  /** `INSERT … SELECT … ON DUPLICATE KEY UPDATE`: the selected rows upserted in turn. */
  function UpsertAll<T(!new), K(==)>(sh: Shape<T, K>, nullsDistinct: bool, merge: (T, T) -> T,
                               s: seq<T>, rows: seq<T>): seq<T>
    decreases |rows|
  {
    if rows == [] then s
    else UpsertAll(sh, nullsDistinct, merge, Upsert(sh, nullsDistinct, merge, s, rows[0]), rows[1..])
  }

  /** Ids n, n+1, … in order: what AUTO_INCREMENT hands out to a batch. */
  predicate ConsecutiveIds<T(!new), K>(sh: Shape<T, K>, rows: seq<T>, n: int) {
    forall i :: 0 <= i < |rows| ==> sh.id(rows[i]) == n + i
  }

  predicate PairwiseApart<T(!new), K(==)>(sh: Shape<T, K>, d: bool, rows: seq<T>) {
    forall i, j :: 0 <= i < j < |rows| ==> !Collide(sh, d, rows[i], rows[j])
  }

  lemma {:induction false} UpsertAllWellFormed<T(!new), K>(sh: Shape<T, K>, d: bool,
      merge: (T, T) -> T, s: seq<T>, rows: seq<T>, n: int)
    requires WellFormed(sh, d, s, n) && KeepsIdentity(sh, merge)
    requires ConsecutiveIds(sh, rows, n) && n >= 1
    ensures WellFormed(sh, d, UpsertAll(sh, d, merge, s, rows), n + |rows|)
    decreases |rows|
  {
    if rows != [] {
      UpsertWellFormed(sh, d, merge, s, rows[0], n);
      UpsertAllWellFormed(sh, d, merge, Upsert(sh, d, merge, s, rows[0]), rows[1..], n + 1);
    }
  }

  /** Rows that collide with no existing row and with no other row of the batch
      are simply appended. */
  lemma {:induction false} UpsertAllAppends<T(!new), K>(sh: Shape<T, K>, d: bool,
      merge: (T, T) -> T, s: seq<T>, rows: seq<T>)
    requires forall i, j :: 0 <= i < |s| && 0 <= j < |rows| ==> !Collide(sh, d, s[i], rows[j])
    requires PairwiseApart(sh, d, rows)
    ensures UpsertAll(sh, d, merge, s, rows) == s + rows
    decreases |rows|
  {
    if rows != [] {
      var t := s + [rows[0]];
      assert FirstClash(sh, d, s, rows[0]) < 0;
      forall i, j | 0 <= i < |t| && 0 <= j < |rows[1..]|
        ensures !Collide(sh, d, t[i], rows[1..][j])
      {
        assert rows[1..][j] == rows[j + 1];
      }
      UpsertAllAppends(sh, d, merge, t, rows[1..]);
      assert t + rows[1..] == s + rows;
    }
  }

  /** A row that collides with no row of the batch keeps its place and value. */
  lemma {:induction false} UpsertAllKeepsOthers<T(!new), K>(sh: Shape<T, K>, d: bool,
      merge: (T, T) -> T, s: seq<T>, rows: seq<T>, i: int)
    requires 0 <= i < |s|
    requires forall j :: 0 <= j < |rows| ==> !Collide(sh, d, s[i], rows[j])
    ensures |s| <= |UpsertAll(sh, d, merge, s, rows)|
    ensures UpsertAll(sh, d, merge, s, rows)[i] == s[i]
    decreases |rows|
  {
    if rows != [] {
      UpsertKeepsOthers(sh, d, merge, s, rows[0], i);
      var t := Upsert(sh, d, merge, s, rows[0]);
      assert forall j :: 0 <= j < |rows[1..]| ==> rows[1..][j] == rows[j + 1];
      UpsertAllKeepsOthers(sh, d, merge, t, rows[1..], i);
    }
  }

  /** A batch whose rows are pairwise apart adds at most one row per batch row,
      and every row it adds is a row of the batch. */
  lemma {:induction false} UpsertAllNewRows<T(!new), K>(sh: Shape<T, K>, d: bool,
      merge: (T, T) -> T, s: seq<T>, rows: seq<T>)
    requires PairwiseApart(sh, d, rows)
    ensures |s| <= |UpsertAll(sh, d, merge, s, rows)| <= |s| + |rows|
    ensures forall i :: |s| <= i < |UpsertAll(sh, d, merge, s, rows)| ==> UpsertAll(sh, d, merge, s, rows)[i] in rows
    decreases |rows|
  {
    if rows != [] {
      var t := Upsert(sh, d, merge, s, rows[0]);
      var rest := rows[1..];
      var u := UpsertAll(sh, d, merge, t, rest);
      assert forall j :: 0 <= j < |rest| ==> rest[j] == rows[j + 1];
      UpsertAllNewRows(sh, d, merge, t, rest);
      forall i | |s| <= i < |u| ensures u[i] in rows {
        if i >= |t| {
          assert u[i] in rest;
        } else {
          assert t == s + [rows[0]] && t[i] == rows[0];
          UpsertAllKeepsOthers(sh, d, merge, t, rest, i);
        }
      }
    }
  }

  /** Every existing row keeps its place and its key; only its updated columns
      can change. */
  lemma {:induction false} UpsertAllKeepsKeys<T(!new), K>(sh: Shape<T, K>, d: bool,
      merge: (T, T) -> T, s: seq<T>, rows: seq<T>)
    requires KeepsIdentity(sh, merge)
    ensures |s| <= |UpsertAll(sh, d, merge, s, rows)|
    ensures forall i :: 0 <= i < |s| ==>
              sh.key(UpsertAll(sh, d, merge, s, rows)[i]) == sh.key(s[i])
    decreases |rows|
  {
    if rows != [] {
      var t := Upsert(sh, d, merge, s, rows[0]);
      var k := FirstClash(sh, d, s, rows[0]);
      assert forall i :: 0 <= i < |s| ==> sh.key(t[i]) == sh.key(s[i]) by {
        if k >= 0 {
          assert sh.key(merge(s[k], rows[0])) == sh.key(s[k]);
        }
      }
      UpsertAllKeepsKeys(sh, d, merge, t, rows[1..]);
    }
  }

  /** After one upsert the table has an entry with r's key holding r's columns. */
  lemma UpsertHolds<T(!new), K>(sh: Shape<T, K>, d: bool, merge: (T, T) -> T, s: seq<T>, r: T)
    requires KeepsIdentity(sh, merge) && Overwrites(merge)
    ensures Present(sh, merge, Upsert(sh, d, merge, s, r), r)
  {
    var t := Upsert(sh, d, merge, s, r);
    var k := FirstClash(sh, d, s, r);
    if k < 0 {
      assert merge(r, r) == r;
      assert Holds(sh, merge, t[|s|], r);
    } else {
      assert merge(merge(s[k], r), r) == merge(s[k], merge(r, r));
      assert Holds(sh, merge, t[k], r);
    }
  }

  /** Some row of t has r's key and holds r's updated columns. */
  ghost predicate Present<T(!new), K>(sh: Shape<T, K>, merge: (T, T) -> T, t: seq<T>, r: T) {
    exists i :: 0 <= i < |t| && Holds(sh, merge, t[i], r)
  }

  /** Row x has r's key and already holds r's updated columns. */
  predicate Holds<T(==,!new), K(==)>(sh: Shape<T, K>, merge: (T, T) -> T, x: T, r: T) {
    sh.key(x) == sh.key(r) && merge(x, r) == x
  }

  /** After a batch whose rows are pairwise apart, every row of the batch is
      present: its key is in the table holding its columns. */
  lemma {:induction false} UpsertAllHolds<T(!new), K>(sh: Shape<T, K>, d: bool,
      merge: (T, T) -> T, s: seq<T>, rows: seq<T>)
    requires KeepsIdentity(sh, merge) && Overwrites(merge)
    requires PairwiseApart(sh, d, rows)
    ensures forall j :: 0 <= j < |rows| ==> Present(sh, merge, UpsertAll(sh, d, merge, s, rows), rows[j])
    decreases |rows|
  {
    if rows != [] {
      var t := Upsert(sh, d, merge, s, rows[0]);
      var rest := rows[1..];
      var u := UpsertAll(sh, d, merge, t, rest);
      assert u == UpsertAll(sh, d, merge, s, rows);
      assert PairwiseApart(sh, d, rest) by {
        assert forall j :: 0 <= j < |rest| ==> rest[j] == rows[j + 1];
      }
      UpsertAllHolds(sh, d, merge, t, rest);
      UpsertHolds(sh, d, merge, s, rows[0]);
      var i0 :| 0 <= i0 < |t| && Holds(sh, merge, t[i0], rows[0]);
      forall j | 0 <= j < |rest| ensures !Collide(sh, d, t[i0], rest[j]) {
        assert rest[j] == rows[j + 1];
        assert !Collide(sh, d, rows[0], rows[j + 1]);
      }
      UpsertAllKeepsOthers(sh, d, merge, t, rest, i0);
      assert Holds(sh, merge, u[i0], rows[0]);
      forall j | 0 <= j < |rows| ensures Present(sh, merge, u, rows[j])
      {
        if j > 0 {
          assert rows[j] == rest[j - 1];
          assert Present(sh, merge, u, rest[j - 1]);
        } else {
          assert 0 <= i0 < |u| && Holds(sh, merge, u[i0], rows[j]);
        }
      }
    }
  }

  // ---------------------------------------------------------------- deletes and selects

  /** The rows satisfying p, in table order: `SELECT … WHERE p`, and with the
      negated condition, what `DELETE … WHERE` leaves. */
  function Filter<T(!new)>(s: seq<T>, p: T -> bool): (r: seq<T>)
    ensures |r| <= |s|
    ensures forall x :: x in r <==> x in s && p(x)
  {
    if s == [] then []
    else if p(s[0]) then [s[0]] + Filter(s[1..], p)
    else Filter(s[1..], p)
  }

  /** Selecting rows keeps the unique index, the ids and the AUTO_INCREMENT bound. */
  lemma {:induction false} FilterWellFormed<T(!new), K>(sh: Shape<T, K>, d: bool, s: seq<T>,
      p: T -> bool, n: int)
    requires WellFormed(sh, d, s, n)
    ensures WellFormed(sh, d, Filter(s, p), n)
    decreases |s|
  {
    if s != [] {
      var rest := s[1..];
      assert forall i :: 0 <= i < |rest| ==> rest[i] == s[i + 1];
      FilterWellFormed(sh, d, rest, p, n);
      if p(s[0]) {
        var r := [s[0]] + Filter(rest, p);
        forall j | 1 <= j < |r|
          ensures !Collide(sh, d, r[0], r[j]) && sh.id(r[0]) != sh.id(r[j])
        {
          assert r[j] in rest;
          var m :| 0 <= m < |rest| && rest[m] == r[j];
          assert s[m + 1] == r[j];
        }
      }
    }
  }

  lemma {:induction false} FilterConcat<T(!new)>(a: seq<T>, b: seq<T>, p: T -> bool)
    ensures Filter(a + b, p) == Filter(a, p) + Filter(b, p)
    decreases |a|
  {
    if a != [] {
      assert (a + b)[1..] == a[1..] + b;
      FilterConcat(a[1..], b, p);
    } else {
      assert a + b == b;
    }
  }

  /** A WHERE scan returns each matching row as many times as the table holds it,
      and no other row. */
  lemma {:induction false} FilterCount<T(!new)>(s: seq<T>, p: T -> bool)
    ensures forall x :: multiset(Filter(s, p))[x] == if p(x) then multiset(s)[x] else 0
    decreases |s|
  {
    if s != [] {
      FilterCount(s[1..], p);
      assert s == [s[0]] + s[1..];
    }
  }

  /** A condition every row meets selects the whole table, and one no row meets
      selects nothing. */
  lemma {:induction false} FilterAllOrNone<T(!new)>(s: seq<T>, p: T -> bool)
    ensures (forall i :: 0 <= i < |s| ==> p(s[i])) ==> Filter(s, p) == s
    ensures (forall i :: 0 <= i < |s| ==> !p(s[i])) ==> Filter(s, p) == []
    decreases |s|
  {
    if s != [] {
      assert forall i :: 0 <= i < |s[1..]| ==> s[1..][i] == s[i + 1];
      FilterAllOrNone(s[1..], p);
      assert s == [s[0]] + s[1..];
    }
  }

  /** Removing the rows that fail p when exactly the row at i fails it. */
  lemma {:induction false} FilterDropsOne<T(!new)>(s: seq<T>, p: T -> bool, i: int)
    requires 0 <= i < |s| && !p(s[i])
    requires forall j :: 0 <= j < |s| && j != i ==> p(s[j])
    ensures Filter(s, p) == s[..i] + s[i + 1..]
    decreases |s|
  {
    var rest := s[1..];
    assert forall j :: 0 <= j < |rest| ==> rest[j] == s[j + 1];
    if i == 0 {
      FilterAllOrNone(rest, p);
    } else {
      FilterDropsOne(rest, p, i - 1);
      assert s[..i] == [s[0]] + rest[..i - 1];
      assert s[i + 1..] == rest[i..];
    }
  }
}
