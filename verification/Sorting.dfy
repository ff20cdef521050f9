/** Stable sorting by an integer key, as the built-in sort of the source does it, and
    sorting of distinct elements by a strict order, as its queries and sets ask for. */
module Sorting {
  import opened Wrappers

  function Insert<T>(x: T, s: seq<T>, key: T -> int): (r: seq<T>)
    ensures |r| == |s| + 1
  {
    if s == [] || key(x) <= key(s[0]) then [x] + s else [s[0]] + Insert(x, s[1..], key)
  }

  function Sort<T>(s: seq<T>, key: T -> int): (r: seq<T>)
    ensures |r| == |s|
  {
    if s == [] then [] else Insert(s[0], Sort(s[1..], key), key)
  }

  ghost predicate Sorted<T>(s: seq<T>, key: T -> int) {
    forall i, j :: 0 <= i < j < |s| ==> key(s[i]) <= key(s[j])
  }

  lemma {:induction false} InsertKeepsElements<T>(x: T, s: seq<T>, key: T -> int)
    ensures multiset(Insert(x, s, key)) == multiset(s) + multiset{x}
  {
    if s != [] && key(x) > key(s[0]) {
      InsertKeepsElements(x, s[1..], key);
      assert s == [s[0]] + s[1..];
    }
  }

  lemma {:induction false} InsertKeepsBound<T>(x: T, s: seq<T>, key: T -> int, low: int)
    requires low <= key(x) && forall i :: 0 <= i < |s| ==> low <= key(s[i])
    ensures forall i :: 0 <= i < |s| + 1 ==> low <= key(Insert(x, s, key)[i])
  {
    if s != [] && key(x) > key(s[0]) {
      InsertKeepsBound(x, s[1..], key, low);
    }
  }

  lemma {:induction false} InsertSorted<T>(x: T, s: seq<T>, key: T -> int)
    requires Sorted(s, key)
    ensures Sorted(Insert(x, s, key), key)
  {
    if s != [] && key(x) > key(s[0]) {
      InsertSorted(x, s[1..], key);
      InsertKeepsBound(x, s[1..], key, key(s[0]));
    }
  }

  lemma {:induction false} SortSorts<T>(s: seq<T>, key: T -> int)
    ensures Sorted(Sort(s, key), key)
    ensures multiset(Sort(s, key)) == multiset(s)
  {
    if s == [] {
    } else {
      SortSorts(s[1..], key);
      InsertSorted(s[0], Sort(s[1..], key), key);
      InsertKeepsElements(s[0], Sort(s[1..], key), key);
      assert s == [s[0]] + s[1..];
    }
  }

  lemma {:induction false} SortOfSorted<T>(s: seq<T>, key: T -> int)
    requires Sorted(s, key)
    ensures Sort(s, key) == s
  {
    if s == [] {
    } else {
      SortOfSorted(s[1..], key);
      assert s == [s[0]] + s[1..];
    }
  }

  // The first element that satisfies p.
  function First<T>(s: seq<T>, p: T -> bool): Option<T> {
    if s == [] then None else if p(s[0]) then Some(s[0]) else First(s[1..], p)
  }

  /** Position w holds the least element satisfying p: least in key, and earliest
      among those with the least key. */
  ghost predicate Least<T>(s: seq<T>, key: T -> int, p: T -> bool, w: nat) {
    && w < |s|
    && p(s[w])
    && forall j :: 0 <= j < |s| && p(s[j]) ==>
         key(s[w]) < key(s[j]) || (key(s[w]) == key(s[j]) && w <= j)
  }

  lemma {:induction false} FirstInserted<T>(x: T, s: seq<T>, key: T -> int, p: T -> bool)
    requires Sorted(s, key)
    ensures First(Insert(x, s, key), p) ==
      if p(x) && (First(s, p).None? || key(x) <= key(First(s, p).value)) then Some(x) else First(s, p)
  {
    if s == [] || key(x) <= key(s[0]) {
      assert ([x] + s)[1..] == s;
      FirstIsMember(s, p);
    } else {
      FirstInserted(x, s[1..], key, p);
      assert ([s[0]] + Insert(x, s[1..], key))[1..] == Insert(x, s[1..], key);
      FirstIsMember(s[1..], p);
    }
  }

  lemma {:induction false} FirstIsMember<T>(s: seq<T>, p: T -> bool)
    ensures First(s, p).Some? ==> First(s, p).value in s && p(First(s, p).value)
    ensures First(s, p).None? ==> forall x :: x in s ==> !p(x)
  {
    if s != [] && !p(s[0]) {
      FirstIsMember(s[1..], p);
      assert s == [s[0]] + s[1..];
    }
  }

  // The first match of the sorted list is the least match of the original list.
  lemma {:induction false} FirstOfSortIsLeast<T>(s: seq<T>, key: T -> int, p: T -> bool) returns (w: nat)
    ensures First(Sort(s, key), p).None? ==> forall j :: 0 <= j < |s| ==> !p(s[j])
    ensures First(Sort(s, key), p).Some? ==> Least(s, key, p, w) && First(Sort(s, key), p) == Some(s[w])
  {
    w := 0;
    if s == [] {
    } else {
      var rest := s[1..];
      var v := FirstOfSortIsLeast(rest, key, p);
      SortSorts(rest, key);
      FirstInserted(s[0], Sort(rest, key), key, p);
      forall j | 1 <= j < |s| ensures s[j] == rest[j - 1] {
      }
      var f := First(Sort(rest, key), p);
      w := if p(s[0]) && (f.None? || key(s[0]) <= key(f.value)) then 0 else v + 1;
    }
  }

  lemma LeastUnique<T>(s: seq<T>, key: T -> int, p: T -> bool, w: nat, v: nat)
    requires Least(s, key, p, w) && Least(s, key, p, v)
    ensures w == v
  {
  }

  // ------------------------------------------------- sorting by a strict order

  ghost predicate StrictTotal<K(!new)>(less: (K, K) -> bool) {
    && (forall a :: !less(a, a))
    && (forall a, b, c :: less(a, b) && less(b, c) ==> less(a, c))
    && (forall a, b :: a != b ==> less(a, b) || less(b, a))
  }

  function InsertRow<K>(x: K, s: seq<K>, less: (K, K) -> bool): seq<K> {
    if s == [] || less(x, s[0]) then [x] + s else [s[0]] + InsertRow(x, s[1..], less)
  }

  // ORDER BY.
  function Ordered<K>(rows: seq<K>, less: (K, K) -> bool): seq<K> {
    if rows == [] then [] else InsertRow(rows[0], Ordered(rows[1..], less), less)
  }

  ghost predicate Ascending<K>(s: seq<K>, less: (K, K) -> bool) {
    forall i, j :: 0 <= i < j < |s| ==> less(s[i], s[j])
  }

  ghost predicate Distinct<K>(rows: seq<K>) {
    forall i, j :: 0 <= i < j < |rows| ==> rows[i] != rows[j]
  }

  lemma {:induction false} InsertAscends<K(!new)>(x: K, s: seq<K>, less: (K, K) -> bool)
    requires StrictTotal(less) && Ascending(s, less) && x !in s
    ensures Ascending(InsertRow(x, s, less), less)
    ensures forall y :: y in InsertRow(x, s, less) <==> y == x || y in s
  {
    if s != [] && !less(x, s[0]) {
      InsertAscends(x, s[1..], less);
      var tail := InsertRow(x, s[1..], less);
      assert s == [s[0]] + s[1..];
      assert s[0] in s;
      forall j | 0 <= j < |tail| ensures less(s[0], tail[j]) {
        assert tail[j] in tail;
      }
    }
  }

  lemma {:induction false} OrderedAscends<K(!new)>(rows: seq<K>, less: (K, K) -> bool)
    requires StrictTotal(less) && Distinct(rows)
    ensures Ascending(Ordered(rows, less), less)
    ensures forall y :: y in Ordered(rows, less) <==> y in rows
  {
    if rows == [] {
    } else {
      OrderedAscends(rows[1..], less);
      InsertAscends(rows[0], Ordered(rows[1..], less), less);
      assert rows == [rows[0]] + rows[1..];
    }
  }

  lemma {:induction false} AscendingUnique<K(!new)>(a: seq<K>, b: seq<K>, less: (K, K) -> bool)
    requires StrictTotal(less) && Ascending(a, less) && Ascending(b, less)
    requires forall y :: y in a <==> y in b
    ensures a == b
  {
    assert forall k :: 0 <= k < |a| ==> a[k] in b;
    assert forall k :: 0 <= k < |b| ==> b[k] in a;
    if a == [] || b == [] {
      assert a == b;
    } else {
      HeadsMeet(a, b, less);
      assert a == [a[0]] + a[1..] && b == [b[0]] + b[1..];
      TailLacksHead(a, less);
      TailLacksHead(b, less);
      forall y ensures y in a[1..] <==> y in b[1..] {
        assert y in a <==> y == a[0] || y in a[1..];
        assert y in b <==> y == b[0] || y in b[1..];
      }
      AscendingUnique(a[1..], b[1..], less);
    }
  }

  lemma TailLacksHead<K(!new)>(a: seq<K>, less: (K, K) -> bool)
    requires StrictTotal(less) && Ascending(a, less) && a != []
    ensures a[0] !in a[1..]
  {
    assert forall k :: 0 <= k < |a| - 1 ==> a[1..][k] == a[k + 1] && a[k + 1] != a[0];
  }

  lemma HeadsMeet<K(!new)>(a: seq<K>, b: seq<K>, less: (K, K) -> bool)
    requires StrictTotal(less) && Ascending(a, less) && Ascending(b, less) && a != [] && b != []
    requires forall y :: y in a <==> y in b
    ensures a[0] == b[0]
  {
    assert a[0] in b && b[0] in a;
    var i :| 0 <= i < |b| && b[i] == a[0];
    var j :| 0 <= j < |a| && a[j] == b[0];
  }
}
