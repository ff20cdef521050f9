/** Keyset pagination: pages cut from an ordered listing, each resumed after the key
    of the last row of the one before, while the table changes in between. */
module Pagination {
  import opened Wrappers
  import opened Sorting

  // A row is identified with its sort key, which the primary key makes unique.

  // WHERE key > cursor, when there is one.
  function Beyond<K>(rows: seq<K>, cursor: Option<K>, less: (K, K) -> bool): seq<K> {
    if rows == [] then []
    else
      var rest := Beyond(rows[1..], cursor, less);
      if cursor.None? || less(cursor.value, rows[0]) then [rows[0]] + rest else rest
  }

  function Limited<K>(s: seq<K>, n: nat): seq<K> {
    if |s| <= n then s else s[..n]
  }

  // One page and the cursor to the next: one row more than the limit is fetched.
  function Page<K>(rows: seq<K>, cursor: Option<K>, limit: nat, less: (K, K) -> bool): (seq<K>, Option<K>) {
    var fetched := Limited(Ordered(Beyond(rows, cursor, less), less), limit + 1);
    var hasNext := |fetched| > limit;
    var page := Limited(fetched, limit);
    (page, if hasNext && page != [] then Some(page[|page| - 1]) else None)
  }

  // ------------------------------------------------------------- one page

  lemma {:induction false} BeyondSelects<K>(rows: seq<K>, cursor: Option<K>, less: (K, K) -> bool)
    requires Distinct(rows)
    ensures Distinct(Beyond(rows, cursor, less))
    ensures forall y :: y in Beyond(rows, cursor, less) <==> y in rows && (cursor.Some? ==> less(cursor.value, y))
  {
    if rows == [] {
    } else {
      BeyondSelects(rows[1..], cursor, less);
      assert rows == [rows[0]] + rows[1..];
      assert forall j :: 0 <= j < |Beyond(rows[1..], cursor, less)| ==> Beyond(rows[1..], cursor, less)[j] in Beyond(rows[1..], cursor, less);
    }
  }

  // The rows of a page, from after one cursor up to the next, none left out.
  ghost predicate IsPage<K(!new)>(rows: seq<K>, cursor: Option<K>, limit: nat, less: (K, K) -> bool, page: seq<K>, next: Option<K>) {
    && |page| <= limit && Ascending(page, less)
    && (forall y :: y in page ==> y in rows && (cursor.Some? ==> less(cursor.value, y)))
    && (next.Some? ==> page != [] && next.value == page[|page| - 1])
    && (forall y :: y in rows && (cursor.Some? ==> less(cursor.value, y)) && y !in page ==>
          if limit == 0 then page == [] else next.Some? && less(next.value, y))
  }

  lemma PageIsPage<K(!new)>(rows: seq<K>, cursor: Option<K>, limit: nat, less: (K, K) -> bool)
    requires StrictTotal(less) && Distinct(rows)
    ensures IsPage(rows, cursor, limit, less, Page(rows, cursor, limit, less).0, Page(rows, cursor, limit, less).1)
  {
    var candidates := Beyond(rows, cursor, less);
    var all := Ordered(candidates, less);
    var (page, next) := Page(rows, cursor, limit, less);
    BeyondSelects(rows, cursor, less);
    OrderedAscends(candidates, less);
    assert page == Limited(all, limit);
    hide Ordered, Beyond, StrictTotal, Distinct;
    forall j | 0 <= j < |page| ensures page[j] == all[j] {
    }
    forall y | y in page ensures y in all {
      var j :| 0 <= j < |page| && page[j] == y;
      assert all[j] == y;
    }
    assert forall k :: 0 <= k < |page| ==> all[k] in page;
    forall y | y in all && y !in page ensures if limit == 0 then page == [] else next.Some? && less(next.value, y) {
      var j :| 0 <= j < |all| && all[j] == y;
      assert j >= |page|;
    }
  }

  /** A page hands out a cursor exactly when rows remain beyond it, and is full then. */
  lemma PageEndsExactly<K(!new)>(rows: seq<K>, cursor: Option<K>, limit: nat, less: (K, K) -> bool)
    requires StrictTotal(less) && Distinct(rows) && limit > 0
    ensures
      var (page, next) := Page(rows, cursor, limit, less);
      && (next.Some? ==> |page| == limit)
      && (next.Some? <==> exists y :: y in rows && y !in page && (cursor.Some? ==> less(cursor.value, y)))
  {
    var all := Ordered(Beyond(rows, cursor, less), less);
    var (page, next) := Page(rows, cursor, limit, less);
    BeyondSelects(rows, cursor, less);
    OrderedAscends(Beyond(rows, cursor, less), less);
    PageIsPage(rows, cursor, limit, less);
    assert page == Limited(all, limit) && (next.Some? <==> |all| > limit);
    hide Ordered, Beyond, Distinct;
    if next.Some? {
      var y := all[limit];
      assert y in all;
      forall j | 0 <= j < |page| ensures page[j] != y {
        assert page[j] == all[j] && less(all[j], all[limit]);
      }
    }
  }

  // ------------------------------------------------------- following cursors

  // The n-th page of a walk; tables[n] is the table as that page finds it.
  function PageAt<K>(tables: seq<seq<K>>, limit: nat, less: (K, K) -> bool, n: nat): (seq<K>, Option<K>)
    requires n < |tables|
  {
    Page(tables[n], CursorAt(tables, limit, less, n), limit, less)
  }

  function CursorAt<K>(tables: seq<seq<K>>, limit: nat, less: (K, K) -> bool, n: nat): Option<K>
    requires n < |tables|
    decreases n, 0
  {
    if n == 0 then None else Page(tables[n - 1], CursorAt(tables, limit, less, n - 1), limit, less).1
  }

  // Everything the first n pages return.
  function Returned<K>(tables: seq<seq<K>>, limit: nat, less: (K, K) -> bool, n: nat): seq<K>
    requires n <= |tables|
  {
    if n == 0 then [] else Returned(tables, limit, less, n - 1) + PageAt(tables, limit, less, n - 1).0
  }

  // The first n pages each hand out a cursor.
  ghost predicate Continues<K>(tables: seq<seq<K>>, limit: nat, less: (K, K) -> bool, n: nat) {
    n <= |tables| && forall k :: 0 <= k < n ==> PageAt(tables, limit, less, k).1.Some?
  }

  // A walk that goes on for the whole of `tables` and finds no further cursor at its end.
  ghost predicate Walk<K>(tables: seq<seq<K>>, limit: nat, less: (K, K) -> bool) {
    && tables != []
    && Continues(tables, limit, less, |tables| - 1)
    && PageAt(tables, limit, less, |tables| - 1).1.None?
  }

  ghost predicate AllDistinct<K>(tables: seq<seq<K>>) {
    forall n :: 0 <= n < |tables| ==> Distinct(tables[n])
  }

  // After n pages: ascending, up to the cursor, and complete for rows that stayed.
  ghost predicate Progress<K(!new)>(tables: seq<seq<K>>, less: (K, K) -> bool, n: nat, returned: seq<K>, cursor: Option<K>)
    requires n <= |tables|
  {
    && Ascending(returned, less)
    && (cursor.None? ==> returned == [])
    && (cursor.Some? ==> returned != [] && returned[|returned| - 1] == cursor.value)
    && (forall y :: (forall k :: 0 <= k < n ==> y in tables[k]) && cursor.Some? && !less(cursor.value, y) ==> y in returned)
  }

  lemma JoinAscends<K(!new)>(a: seq<K>, b: seq<K>, less: (K, K) -> bool)
    requires StrictTotal(less) && Ascending(a, less) && Ascending(b, less)
    requires a != [] ==> forall y :: y in b ==> less(a[|a| - 1], y)
    ensures Ascending(a + b, less)
  {
    forall i, j | 0 <= i < j < |a + b| ensures less((a + b)[i], (a + b)[j]) {
      if i < |a| <= j {
        var last := a[|a| - 1];
        assert b[j - |a|] in b;
        assert i < |a| - 1 ==> less(a[i], last);
      }
    }
  }

  lemma {:induction false} WalkProgress<K(!new)>(tables: seq<seq<K>>, limit: nat, less: (K, K) -> bool, n: nat)
    requires StrictTotal(less) && AllDistinct(tables) && n < |tables| && limit > 0
    requires Continues(tables, limit, less, n)
    ensures Progress(tables, less, n, Returned(tables, limit, less, n), CursorAt(tables, limit, less, n))
  {
    if n == 0 {
    } else {
      WalkProgress(tables, limit, less, n - 1);
      var returned, cursor := Returned(tables, limit, less, n - 1), CursorAt(tables, limit, less, n - 1);
      var (page, next) := PageAt(tables, limit, less, n - 1);
      PageIsPage(tables[n - 1], cursor, limit, less);
      hide Page, Returned, CursorAt;
      StepProgress(tables, limit, less, n, returned, cursor, page, next);
      assert Returned(tables, limit, less, n) == returned + page && CursorAt(tables, limit, less, n) == next by {
        WalkStep(tables, limit, less, n);
      }
    }
  }

  lemma WalkStep<K>(tables: seq<seq<K>>, limit: nat, less: (K, K) -> bool, n: nat)
    requires 0 < n < |tables|
    ensures Returned(tables, limit, less, n) == Returned(tables, limit, less, n - 1) + PageAt(tables, limit, less, n - 1).0
    ensures CursorAt(tables, limit, less, n) == PageAt(tables, limit, less, n - 1).1
  {
  }

  lemma StepProgress<K(!new)>(tables: seq<seq<K>>, limit: nat, less: (K, K) -> bool, n: nat,
                              returned: seq<K>, cursor: Option<K>, page: seq<K>, next: Option<K>)
    requires StrictTotal(less) && 0 < n <= |tables| && limit > 0
    requires Progress(tables, less, n - 1, returned, cursor)
    requires IsPage(tables[n - 1], cursor, limit, less, page, next) && next.Some?
    ensures Progress(tables, less, n, returned + page, next)
  {
    JoinAscends(returned, page, less);
    var all := returned + page;
    forall y | (forall k :: 0 <= k < n ==> y in tables[k]) && !less(next.value, y) ensures y in all {
      assert y in tables[n - 1];
      if cursor.Some? && !less(cursor.value, y) {
        assert y in returned;
      } else {
        assert y in page;
      }
    }
  }

  /** A walk returns no key twice, in order; every row that stays in the table from the
      first page to the last is returned; and each page holds rows of its own table. */
  lemma WalkMissesNothing<K(!new)>(tables: seq<seq<K>>, limit: nat, less: (K, K) -> bool)
    requires StrictTotal(less) && AllDistinct(tables) && limit > 0 && Walk(tables, limit, less)
    ensures Ascending(Returned(tables, limit, less, |tables|), less)
    ensures forall y :: (forall k :: 0 <= k < |tables| ==> y in tables[k]) ==> y in Returned(tables, limit, less, |tables|)
    ensures forall y :: y in Returned(tables, limit, less, |tables|) ==> exists k :: 0 <= k < |tables| && y in tables[k]
  {
    hide Page, PageAt, Returned, CursorAt, StrictTotal, AllDistinct, Ascending;
    WalkIsWhole(tables, limit, less);
    forall y ensures y in Returned(tables, limit, less, |tables|) ==> exists k :: 0 <= k < |tables| && y in tables[k] {
      ReturnedFromTables(tables, limit, less, |tables|, y);
    }
  }

  lemma WalkIsWhole<K(!new)>(tables: seq<seq<K>>, limit: nat, less: (K, K) -> bool)
    requires StrictTotal(less) && AllDistinct(tables) && limit > 0 && Walk(tables, limit, less)
    ensures Ascending(Returned(tables, limit, less, |tables|), less)
    ensures forall y :: (forall k :: 0 <= k < |tables| ==> y in tables[k]) ==> y in Returned(tables, limit, less, |tables|)
  {
    var n := |tables| - 1;
    WalkProgress(tables, limit, less, n);
    var returned, cursor := Returned(tables, limit, less, n), CursorAt(tables, limit, less, n);
    var (page, next) := PageAt(tables, limit, less, n);
    PageIsPage(tables[n], cursor, limit, less);
    assert Returned(tables, limit, less, |tables|) == returned + page;
    hide Page, PageAt, Returned, CursorAt, Walk, AllDistinct;
    LastPage(tables, limit, less, returned, cursor, page, next);
  }

  lemma LastPage<K(!new)>(tables: seq<seq<K>>, limit: nat, less: (K, K) -> bool,
                          returned: seq<K>, cursor: Option<K>, page: seq<K>, next: Option<K>)
    requires StrictTotal(less) && limit > 0 && tables != [] && next.None?
    requires Progress(tables, less, |tables| - 1, returned, cursor)
    requires IsPage(tables[|tables| - 1], cursor, limit, less, page, next)
    ensures Ascending(returned + page, less)
    ensures forall y :: (forall k :: 0 <= k < |tables| ==> y in tables[k]) ==> y in returned + page
  {
    JoinAscends(returned, page, less);
    hide StrictTotal, Ascending;
    forall y | forall k :: 0 <= k < |tables| ==> y in tables[k] ensures y in returned + page {
      assert y in tables[|tables| - 1];
    }
  }

  lemma {:induction false} ReturnedFromTables<K(!new)>(tables: seq<seq<K>>, limit: nat, less: (K, K) -> bool, n: nat, y: K)
    requires StrictTotal(less) && AllDistinct(tables) && n <= |tables|
    ensures y in Returned(tables, limit, less, n) ==> exists k :: 0 <= k < n && y in tables[k]
  {
    hide Page, PageAt, CursorAt, StrictTotal, AllDistinct;
    if n == 0 {
    } else {
      PageRowFromTable(tables, limit, less, n - 1, y);
      ReturnedFromTables(tables, limit, less, n - 1, y);
    }
  }

  lemma PageRowFromTable<K(!new)>(tables: seq<seq<K>>, limit: nat, less: (K, K) -> bool, n: nat, y: K)
    requires StrictTotal(less) && AllDistinct(tables) && n < |tables|
    ensures y in PageAt(tables, limit, less, n).0 ==> y in tables[n]
  {
    PageIsPage(tables[n], CursorAt(tables, limit, less, n), limit, less);
    hide Page, CursorAt;
  }

  // ---------------------------------------------------------- a table at rest

  function Repeat<K>(rows: seq<K>, n: nat): seq<seq<K>> {
    seq(n, i => rows)
  }

  // The number of rows a walk still has before it.
  function Left<K>(rows: seq<K>, cursor: Option<K>, less: (K, K) -> bool): nat {
    |Beyond(rows, cursor, less)|
  }

  lemma {:induction false} FewerBeyond<K(!new)>(rows: seq<K>, cursor: Option<K>, next: K, less: (K, K) -> bool)
    requires StrictTotal(less) && (cursor.Some? ==> less(cursor.value, next))
    ensures Left(rows, Some(next), less) <= Left(rows, cursor, less)
    ensures next in rows ==> Left(rows, Some(next), less) < Left(rows, cursor, less)
  {
    if rows == [] {
    } else {
      FewerBeyond(rows[1..], cursor, next, less);
      assert rows == [rows[0]] + rows[1..];
    }
  }

  lemma WalkGoesOn<K(!new)>(rows: seq<K>, limit: nat, less: (K, K) -> bool, n: nat)
    requires Continues(Repeat(rows, n + 1), limit, less, n) && PageAt(Repeat(rows, n + 1), limit, less, n).1.Some?
    ensures Continues(Repeat(rows, n + 2), limit, less, n + 1)
    ensures CursorAt(Repeat(rows, n + 2), limit, less, n + 1) == PageAt(Repeat(rows, n + 1), limit, less, n).1
  {
    var tables, longer := Repeat(rows, n + 1), Repeat(rows, n + 2);
    assert |tables| == n + 1 && |longer| == n + 2;
    WalkStep(longer, limit, less, n + 1);
    LongerWalk(rows, limit, less, n + 1, n + 2, n);
    forall k: nat | k < n + 1 ensures PageAt(longer, limit, less, k).1.Some? {
      SamePage(rows, limit, less, n, k);
    }
    hide PageAt, CursorAt, Repeat;
  }

  lemma SamePage<K(!new)>(rows: seq<K>, limit: nat, less: (K, K) -> bool, n: nat, k: nat)
    requires Continues(Repeat(rows, n + 1), limit, less, n) && PageAt(Repeat(rows, n + 1), limit, less, n).1.Some?
    requires k < n + 1
    ensures PageAt(Repeat(rows, n + 2), limit, less, k).1.Some?
  {
    hide CursorAt, Page;
    LongerWalk(rows, limit, less, n + 1, n + 2, k);
  }

  lemma PageLeavesFewer<K(!new)>(rows: seq<K>, cursor: Option<K>, limit: nat, less: (K, K) -> bool)
    requires StrictTotal(less) && Distinct(rows) && Page(rows, cursor, limit, less).1.Some?
    ensures Left(rows, Page(rows, cursor, limit, less).1, less) < Left(rows, cursor, less)
  {
    var (page, next) := Page(rows, cursor, limit, less);
    PageIsPage(rows, cursor, limit, less);
    hide Page, StrictTotal, Left;
    assert page[|page| - 1] in page;
    FewerBeyond(rows, cursor, next.value, less);
  }

  // Following the cursors of a table at rest comes to an end.
  lemma WalkEnds<K(!new)>(rows: seq<K>, limit: nat, less: (K, K) -> bool, n: nat) returns (m: nat)
    requires StrictTotal(less) && Distinct(rows) && limit > 0
    requires Continues(Repeat(rows, n + 1), limit, less, n)
    ensures m >= 1 && Walk(Repeat(rows, m), limit, less)
    decreases Left(rows, CursorAt(Repeat(rows, n + 1), limit, less, n), less)
  {
    hide Page, CursorAt, Continues, Distinct, StrictTotal, Left;
    var tables := Repeat(rows, n + 1);
    assert tables[n] == rows;
    var cursor := CursorAt(tables, limit, less, n);
    var next := PageAt(tables, limit, less, n).1;
    hide Repeat;
    if next.None? {
      m := n + 1;
    } else {
      PageLeavesFewer(rows, cursor, limit, less);
      WalkGoesOn(rows, limit, less, n);
      m := WalkEnds(rows, limit, less, n + 1);
    }
  }

  lemma {:induction false} LongerWalk<K>(rows: seq<K>, limit: nat, less: (K, K) -> bool, a: nat, b: nat, k: nat)
    requires k < a && k < b
    ensures CursorAt(Repeat(rows, a), limit, less, k) == CursorAt(Repeat(rows, b), limit, less, k)
    ensures PageAt(Repeat(rows, a), limit, less, k) == PageAt(Repeat(rows, b), limit, less, k)
  {
    hide Page;
    if k == 0 {
    } else {
      LongerWalk(rows, limit, less, a, b, k - 1);
    }
  }

  /** On a table at rest, following cursors until none is left yields the full ordered
      list, with no gap and no repeat, exactly when the limit is positive or there is
      nothing to list. */
  lemma WalkYieldsTheListing<K(!new)>(rows: seq<K>, limit: nat, less: (K, K) -> bool, m: nat)
    requires StrictTotal(less) && Distinct(rows) && m >= 1 && Walk(Repeat(rows, m), limit, less)
    ensures Returned(Repeat(rows, m), limit, less, m) == Ordered(rows, less) <==> limit > 0 || rows == []
  {
    var tables := Repeat(rows, m);
    OrderedAscends(rows, less);
    if limit > 0 {
      WalkMissesNothing(tables, limit, less);
      assert forall k :: 0 <= k < m ==> tables[k] == rows;
      forall y ensures y in Returned(tables, limit, less, m) <==> y in Ordered(rows, less) {
        assert y in rows ==> forall k :: 0 <= k < |tables| ==> y in tables[k];
      }
      AscendingUnique(Returned(tables, limit, less, m), Ordered(rows, less), less);
    } else {
      NothingReturned(tables, less, m);
      if rows != [] {
        assert rows[0] in Ordered(rows, less);
      }
    }
  }

  lemma {:induction false} NothingReturned<K(!new)>(tables: seq<seq<K>>, less: (K, K) -> bool, n: nat)
    requires n <= |tables|
    ensures |Returned(tables, 0, less, n)| == 0
  {
    hide Page, PageAt, CursorAt;
    if n == 0 {
    } else {
      EmptyPage(tables, less, n - 1);
      NothingReturned(tables, less, n - 1);
    }
  }

  lemma EmptyPage<K>(tables: seq<seq<K>>, less: (K, K) -> bool, n: nat)
    requires n < |tables|
    ensures |PageAt(tables, 0, less, n).0| == 0
  {
  }
}
