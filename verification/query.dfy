/**
 * The read side of every ledger in the monthly report:
 * `.eq(mess) .gte(date, start) .lte(date, end) .order(date, ascending)`.
 * Rows are selected by mess and by inclusive date window, then ordered by
 * date with a stable sort (rows with equal dates keep their ledger order,
 * one of the orders the store may return).
 */
module Query {
  import opened Ids
  import opened Calendar
  import opened Sums

  /** Non-decreasing by date. */
  ghost predicate SortedByDate<T>(s: seq<T>, dateOf: T -> Date) {
    forall i, j :: 0 <= i < j < |s| ==> DateLe(dateOf(s[i]), dateOf(s[j]))
  }

  /** The rows of mess `mess` dated inside `w`, in ledger order. */
  function Matching<T(!new)>(rows: seq<T>, messOf: T -> MessId, dateOf: T -> Date, mess: MessId, w: Window): (r: seq<T>)
    ensures forall x :: x in r <==> x in rows && messOf(x) == mess && InWindow(dateOf(x), w)
    ensures |r| <= |rows|
    decreases |rows|
  {
    if |rows| == 0 then []
    else
      var last := rows[|rows| - 1];
      var init := Matching(rows[..|rows| - 1], messOf, dateOf, mess, w);
      assert forall x :: x in rows <==> x in rows[..|rows| - 1] || x == last;
      if messOf(last) == mess && InWindow(dateOf(last), w) then init + [last] else init
  }

  /** Every matching row is kept as many times as it occurs in the table, and no other row is kept. */
  lemma {:induction false} MatchingCounts<T(!new)>(rows: seq<T>, messOf: T -> MessId, dateOf: T -> Date, mess: MessId, w: Window)
    ensures forall x :: multiset(Matching(rows, messOf, dateOf, mess, w))[x]
                        == if messOf(x) == mess && InWindow(dateOf(x), w) then multiset(rows)[x] else 0
    decreases |rows|
  {
    if |rows| > 0 {
      var init := rows[..|rows| - 1];
      MatchingCounts(init, messOf, dateOf, mess, w);
      assert rows == init + [rows[|rows| - 1]];
    }
  }

  /** Places `x` before the first row of the sorted `s` that is not earlier than it. */
  function Insert<T(!new)>(x: T, s: seq<T>, dateOf: T -> Date): (r: seq<T>)
    requires SortedByDate(s, dateOf)
    ensures SortedByDate(r, dateOf)
    ensures forall y :: y in r ==> y == x || y in s
    ensures multiset(r) == multiset(s) + multiset{x}
    decreases |s|
  {
    if |s| == 0 || DateLe(dateOf(x), dateOf(s[0])) then
      assert forall j :: 0 <= j < |s| ==> DateLe(dateOf(s[0]), dateOf(s[j]));
      [x] + s
    else
      var rest := Insert(x, s[1..], dateOf);
      assert s == [s[0]] + s[1..];
      DateLeTotal(dateOf(x), dateOf(s[0]));
      InsertHead(s[0], rest, dateOf);
      [s[0]] + rest
  }

  lemma InsertHead<T>(h: T, rest: seq<T>, dateOf: T -> Date)
    requires SortedByDate(rest, dateOf)
    requires forall y :: y in rest ==> DateLe(dateOf(h), dateOf(y))
    ensures SortedByDate([h] + rest, dateOf)
  {
    var r := [h] + rest;
    forall i, j | 0 <= i < j < |r|
      ensures DateLe(dateOf(r[i]), dateOf(r[j]))
    {
      if i == 0 {
        assert r[j] in rest;
      } else {
        assert r[i] == rest[i - 1] && r[j] == rest[j - 1];
      }
    }
  }

  function SortByDate<T(!new)>(s: seq<T>, dateOf: T -> Date): (r: seq<T>)
    ensures SortedByDate(r, dateOf)
    ensures multiset(r) == multiset(s)
    decreases |s|
  {
    if |s| == 0 then []
    else
      assert s == [s[0]] + s[1..];
      Insert(s[0], SortByDate(s[1..], dateOf), dateOf)
  }

  /** The full query: the matching rows in non-decreasing date order. */
  function Select<T(!new)>(rows: seq<T>, messOf: T -> MessId, dateOf: T -> Date, mess: MessId, w: Window): (r: seq<T>)
    ensures SortedByDate(r, dateOf)
    ensures multiset(r) == multiset(Matching(rows, messOf, dateOf, mess, w))
    ensures forall x :: x in r <==> x in rows && messOf(x) == mess && InWindow(dateOf(x), w)
  {
    var m := Matching(rows, messOf, dateOf, mess, w);
    var r := SortByDate(m, dateOf);
    assert forall x :: x in r <==> x in multiset(r);
    r
  }

  lemma {:induction false} SumAfterInsert<T(!new)>(x: T, s: seq<T>, dateOf: T -> Date, f: T -> real)
    requires SortedByDate(s, dateOf)
    ensures SumBy(Insert(x, s, dateOf), f) == f(x) + SumBy(s, f)
    decreases |s|
  {
    if |s| == 0 || DateLe(dateOf(x), dateOf(s[0])) {
      SumByCons(x, s, f);
    } else {
      SumAfterInsert(x, s[1..], dateOf, f);
      SumByCons(s[0], Insert(x, s[1..], dateOf), f);
      SumByCons(s[0], s[1..], f);
      assert s == [s[0]] + s[1..];
    }
  }

  /** Ordering rows by date does not change any sum over them. */
  lemma {:induction false} SumAfterSort<T(!new)>(s: seq<T>, dateOf: T -> Date, f: T -> real)
    ensures SumBy(SortByDate(s, dateOf), f) == SumBy(s, f)
    decreases |s|
  {
    if |s| > 0 {
      SumAfterSort(s[1..], dateOf, f);
      SumAfterInsert(s[0], SortByDate(s[1..], dateOf), dateOf, f);
      SumByCons(s[0], s[1..], f);
      assert s == [s[0]] + s[1..];
    }
  }

  /** So the sum over a query result is the sum over the matching rows, in whatever order the ledger holds them. */
  lemma SumOfSelect<T(!new)>(rows: seq<T>, messOf: T -> MessId, dateOf: T -> Date, mess: MessId, w: Window, f: T -> real)
    ensures SumBy(Select(rows, messOf, dateOf, mess, w), f) == SumBy(Matching(rows, messOf, dateOf, mess, w), f)
  {
    SumAfterSort(Matching(rows, messOf, dateOf, mess, w), dateOf, f);
  }
}
