/** Sort keys and sorting. `ORDER BY` columns and JavaScript `sort` comparators are
    both modelled as a key of cells compared lexicographically; a NULL cell sorts
    first, as it does in an ascending MySQL `ORDER BY`. Text compares by character
    code. */
module Sorting {

  datatype Cell = Nil | Int(i: int) | Num(r: real) | Text(s: string)

  function Rank(c: Cell): nat {
    match c
    case Nil => 0
    case Int(_) => 1
    case Num(_) => 2
    case Text(_) => 3
  }

  /** Strict lexicographic order of strings by character code. */
  predicate StrLt(a: string, b: string)
    decreases |a|
  {
    if a == [] then b != []
    else if b == [] then false
    else a[0] < b[0] || (a[0] == b[0] && StrLt(a[1..], b[1..]))
  }

  predicate CellLt(a: Cell, b: Cell) {
    if Rank(a) != Rank(b) then Rank(a) < Rank(b)
    else match a
      case Nil => false
      case Int(i) => i < b.i
      case Num(r) => r < b.r
      case Text(s) => StrLt(s, b.s)
  }

  /** Strict lexicographic order of keys. */
  predicate KeyLt(a: seq<Cell>, b: seq<Cell>)
    decreases |a|
  {
    if a == [] then b != []
    else if b == [] then false
    else CellLt(a[0], b[0]) || (a[0] == b[0] && KeyLt(a[1..], b[1..]))
  }

  lemma {:induction false} StrLtIrreflexive(a: string)
    ensures !StrLt(a, a)
    decreases |a|
  {
    if a != [] {
      StrLtIrreflexive(a[1..]);
    }
  }

  lemma {:induction false} StrLtTransitive(a: string, b: string, c: string)
    requires StrLt(a, b) && StrLt(b, c)
    ensures StrLt(a, c)
    decreases |a|
  {
    if a != [] && b != [] && c != [] && a[0] == b[0] == c[0] {
      StrLtTransitive(a[1..], b[1..], c[1..]);
    }
  }

  lemma CellLtIrreflexive(a: Cell)
    ensures !CellLt(a, a)
  {
    if a.Text? {
      StrLtIrreflexive(a.s);
    }
  }

  lemma CellLtTransitive(a: Cell, b: Cell, c: Cell)
    requires CellLt(a, b) && CellLt(b, c)
    ensures CellLt(a, c)
  {
    if a.Text? && b.Text? && c.Text? {
      StrLtTransitive(a.s, b.s, c.s);
    }
  }

  lemma {:induction false} KeyLtIrreflexive(a: seq<Cell>)
    ensures !KeyLt(a, a)
    decreases |a|
  {
    if a != [] {
      CellLtIrreflexive(a[0]);
      KeyLtIrreflexive(a[1..]);
    }
  }

  lemma {:induction false} KeyLtTransitive(a: seq<Cell>, b: seq<Cell>, c: seq<Cell>)
    requires KeyLt(a, b) && KeyLt(b, c)
    ensures KeyLt(a, c)
    decreases |a|
  {
    if a != [] && b != [] && c != [] {
      if CellLt(a[0], b[0]) && CellLt(b[0], c[0]) {
        CellLtTransitive(a[0], b[0], c[0]);
      } else if a[0] == b[0] && b[0] == c[0] {
        KeyLtTransitive(a[1..], b[1..], c[1..]);
      }
    }
  }

  lemma KeyLtAsymmetric(a: seq<Cell>, b: seq<Cell>)
    requires KeyLt(a, b)
    ensures !KeyLt(b, a)
  {
    if KeyLt(b, a) {
      KeyLtTransitive(a, b, a);
      KeyLtIrreflexive(a);
    }
  }

  /** No later element has a smaller key than an earlier one. */
  predicate Sorted<T>(r: seq<T>, key: T -> seq<Cell>) {
    forall i, j :: 0 <= i < j < |r| ==> !KeyLt(key(r[j]), key(r[i]))
  }

  /** Inserts x into a sorted sequence after every element whose key is not
      greater, which keeps equal keys in arrival order. */
  function Insert<T(==)>(x: T, r: seq<T>, key: T -> seq<Cell>): (q: seq<T>)
    requires Sorted(r, key)
    ensures |q| == |r| + 1
    ensures multiset(q) == multiset(r) + multiset{x}
    ensures Sorted(q, key)
  {
    if r == [] then [x]
    else if KeyLt(key(x), key(r[0])) then
      InsertFront(x, r, key);
      [x] + r
    else
      var q := [r[0]] + Insert(x, r[1..], key);
      assert r == [r[0]] + r[1..];
      InsertBehind(x, r, Insert(x, r[1..], key), key);
      q
  }

  lemma InsertFront<T>(x: T, r: seq<T>, key: T -> seq<Cell>)
    requires Sorted(r, key) && r != [] && KeyLt(key(x), key(r[0]))
    ensures Sorted([x] + r, key)
  {
    var q := [x] + r;
    forall i, j | 0 <= i < j < |q| ensures !KeyLt(key(q[j]), key(q[i])) {
      if i == 0 {
        if KeyLt(key(q[j]), key(x)) {
          if j == 1 {
            KeyLtAsymmetric(key(x), key(r[0]));
          } else {
            KeyLtTransitive(key(q[j]), key(x), key(r[0]));
          }
        }
      }
    }
  }

  lemma InsertBehind<T>(x: T, r: seq<T>, t: seq<T>, key: T -> seq<Cell>)
    requires Sorted(r, key) && r != [] && !KeyLt(key(x), key(r[0]))
    requires Sorted(t, key) && multiset(t) == multiset(r[1..]) + multiset{x}
    ensures Sorted([r[0]] + t, key)
  {
    var q := [r[0]] + t;
    forall i, j | 0 <= i < j < |q| ensures !KeyLt(key(q[j]), key(q[i])) {
      if i == 0 {
        var y := q[j];
        assert y in multiset(t);
        if y != x {
          assert y in multiset(r[1..]);
          var k :| 0 <= k < |r[1..]| && r[1..][k] == y;
          assert r[k + 1] == y;
        }
      }
    }
  }

  /** A stable sort by key (insertion sort). */
  function SortBy<T(==)>(s: seq<T>, key: T -> seq<Cell>): (r: seq<T>)
    ensures |r| == |s|
    ensures multiset(r) == multiset(s)
    ensures Sorted(r, key)
  {
    if s == [] then []
    else
      var n := |s| - 1;
      assert s == s[..n] + [s[n]];
      Insert(s[n], SortBy(s[..n], key), key)
  }

  /** The elements of s whose key is k, in their order in s. */
  function WithKey<T>(s: seq<T>, key: T -> seq<Cell>, k: seq<Cell>): seq<T> {
    if s == [] then []
    else (if key(s[0]) == k then [s[0]] else []) + WithKey(s[1..], key, k)
  }

  lemma {:induction false} WithKeyConcat<T>(a: seq<T>, b: seq<T>, key: T -> seq<Cell>, k: seq<Cell>)
    ensures WithKey(a + b, key, k) == WithKey(a, key, k) + WithKey(b, key, k)
    decreases |a|
  {
    if a != [] {
      assert (a + b)[1..] == a[1..] + b;
      WithKeyConcat(a[1..], b, key, k);
    } else {
      assert a + b == b;
    }
  }

  /** A list none of whose elements has key k holds nothing with that key. */
  lemma {:induction false} WithKeyNone<T>(s: seq<T>, key: T -> seq<Cell>, k: seq<Cell>)
    requires forall j :: 0 <= j < |s| ==> key(s[j]) != k
    ensures WithKey(s, key, k) == []
    decreases |s|
  {
    if s != [] {
      WithKeyNone(s[1..], key, k);
    }
  }

  /** Insert puts x after every element whose key equals x's. */
  lemma {:induction false} InsertWithKey<T>(x: T, r: seq<T>, key: T -> seq<Cell>, k: seq<Cell>)
    requires Sorted(r, key)
    ensures WithKey(Insert(x, r, key), key, k) == WithKey(r, key, k) + (if key(x) == k then [x] else [])
    decreases |r|
  {
    var tail := if key(x) == k then [x] else [];
    WithKeyOne(x, key, k);
    if r == [] {
      assert Insert(x, r, key) == [x];
    } else if KeyLt(key(x), key(r[0])) {
      assert Insert(x, r, key) == [x] + r;
      WithKeyConcat([x], r, key, k);
      if key(x) == k {
        SortedAbove(r, key, k);
        WithKeyNone(r, key, k);
      }
    } else {
      SortedTail(r, key);
      InsertWithKey(x, r[1..], key, k);
      var t := Insert(x, r[1..], key);
      var head := if key(r[0]) == k then [r[0]] else [];
      assert Insert(x, r, key) == [r[0]] + t;
      assert ([r[0]] + t)[1..] == t;
      assert WithKey([r[0]] + t, key, k) == head + WithKey(t, key, k);
      assert WithKey(r, key, k) == head + WithKey(r[1..], key, k);
      assert head + (WithKey(r[1..], key, k) + tail) == (head + WithKey(r[1..], key, k)) + tail;
    }
  }

  lemma WithKeyOne<T>(x: T, key: T -> seq<Cell>, k: seq<Cell>)
    ensures WithKey([x], key, k) == if key(x) == k then [x] else []
  {
    assert [x][1..] == [];
  }

  /** No element of a sorted list whose head key is above k has key k. */
  lemma SortedAbove<T>(r: seq<T>, key: T -> seq<Cell>, k: seq<Cell>)
    requires Sorted(r, key) && r != [] && KeyLt(k, key(r[0]))
    ensures forall j :: 0 <= j < |r| ==> key(r[j]) != k
  {
    KeyLtIrreflexive(k);
    forall j | 0 < j < |r| ensures key(r[j]) != k {
      assert !KeyLt(key(r[j]), key(r[0]));
    }
  }

  lemma SortedTail<T>(r: seq<T>, key: T -> seq<Cell>)
    requires Sorted(r, key) && r != []
    ensures Sorted(r[1..], key)
  {
    forall i, j | 0 <= i < j < |r[1..]| ensures !KeyLt(key(r[1..][j]), key(r[1..][i])) {
      assert r[1..][i] == r[i + 1] && r[1..][j] == r[j + 1];
    }
  }

  /** SortBy is stable: the elements of each key keep their order in s. */
  lemma {:induction false} SortByStable<T>(s: seq<T>, key: T -> seq<Cell>, k: seq<Cell>)
    ensures WithKey(SortBy(s, key), key, k) == WithKey(s, key, k)
    decreases |s|
  {
    if s != [] {
      var n := |s| - 1;
      var r := SortBy(s[..n], key);
      SortByLast(s, key);
      SortByStable(s[..n], key, k);
      InsertWithKey(s[n], r, key, k);
      WithKeyLast(s, key, k);
    }
  }

  lemma SortByLast<T>(s: seq<T>, key: T -> seq<Cell>)
    requires s != []
    ensures SortBy(s, key) == Insert(s[|s| - 1], SortBy(s[..|s| - 1], key), key)
  {
  }

  /** WithKey taken from the back. */
  lemma WithKeyLast<T>(s: seq<T>, key: T -> seq<Cell>, k: seq<Cell>)
    requires s != []
    ensures WithKey(s, key, k) ==
            WithKey(s[..|s| - 1], key, k) + (if key(s[|s| - 1]) == k then [s[|s| - 1]] else [])
  {
    var n := |s| - 1;
    WithKeyConcat(s[..n], [s[n]], key, k);
    assert s[..n] + [s[n]] == s;
    assert [s[n]][1..] == [];
  }

  /** The head of WithKey is the element at the first index with key k. */
  lemma {:induction false} WithKeyHead<T>(s: seq<T>, key: T -> seq<Cell>, k: seq<Cell>, i: int)
    requires 0 <= i < |s| && key(s[i]) == k
    requires forall j :: 0 <= j < i ==> key(s[j]) != k
    ensures WithKey(s, key, k) != [] && WithKey(s, key, k)[0] == s[i]
    decreases i
  {
    if i > 0 {
      WithKeyHead(s[1..], key, k, i - 1);
    }
  }

  /** A non-empty WithKey starts with the element at the first index with key k. */
  lemma {:induction false} WithKeyFirst<T>(s: seq<T>, key: T -> seq<Cell>, k: seq<Cell>)
    requires WithKey(s, key, k) != []
    ensures exists i :: 0 <= i < |s| && s[i] == WithKey(s, key, k)[0] && key(s[i]) == k &&
                        forall j :: 0 <= j < i ==> key(s[j]) != k
    decreases |s|
  {
    if key(s[0]) != k {
      WithKeyFirst(s[1..], key, k);
      var i :| 0 <= i < |s[1..]| && s[1..][i] == WithKey(s[1..], key, k)[0] && key(s[1..][i]) == k &&
               forall j :: 0 <= j < i ==> key(s[1..][j]) != k;
      assert s[i + 1] == s[1..][i];
      forall j | 0 <= j < i + 1 ensures key(s[j]) != k {
        if j > 0 {
          assert s[j] == s[1..][j - 1];
        }
      }
    } else {
      assert s[0] == WithKey(s, key, k)[0];
    }
  }
}
