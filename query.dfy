/** The three shapes of SQL query result the services use: a `where` filter
    (rows kept in table order), `.first()` and `.one()`. */
module Query {
  import opened Errors
  import opened Results

  function Filter<T(==,!new)>(rows: seq<T>, keep: T -> bool): (r: seq<T>)
    ensures |r| <= |rows|
    ensures forall x :: x in r <==> x in rows && keep(x)
    ensures r == [] ==> forall i :: 0 <= i < |rows| ==> !keep(rows[i])
    ensures r != [] ==>
      exists i :: 0 <= i < |rows| && keep(rows[i]) && r[0] == rows[i] && forall j :: 0 <= j < i ==> !keep(rows[j])
  {
    if rows == [] then []
    else
      var rest := Filter(rows[1..], keep);
      if keep(rows[0]) then [rows[0]] + rest
      else
        assert forall i :: 0 < i < |rows| ==> rows[i] == rows[1..][i - 1];
        rest
  }

  /** `.first()`: the first row, or None. */
  function First<T>(rows: seq<T>): (r: Option<T>)
    ensures r.None? <==> rows == []
    ensures r.Some? ==> r.value == rows[0]
  {
    if rows == [] then None else Some(rows[0])
  }

  /** `.one()`: the only row; NoResultFound (which the caller turns into
      `notFound`) for none, MultipleResultsFound for more than one. */
  function One<T>(rows: seq<T>, notFound: Error): (r: Result<T>)
    ensures r.Ok? <==> |rows| == 1
    ensures r.Ok? ==> r.value == rows[0]
    ensures rows == [] ==> r == Err(notFound)
    ensures |rows| > 1 ==> r == Err(MultipleRows)
  {
    if rows == [] then Err(notFound)
    else if |rows| > 1 then Err(MultipleRows)
    else Ok(rows[0])
  }

  /** When at most one row can pass the filter, `.one()` and `.first()` agree. */
  lemma {:induction false} OneAgreesWithFirst<T(!new)>(rows: seq<T>, keep: T -> bool, notFound: Error)
    requires forall i, j :: 0 <= i < j < |rows| && keep(rows[i]) ==> !keep(rows[j])
    ensures var f := Filter(rows, keep);
      |f| <= 1 && (First(f).None? ==> One(f, notFound) == Err(notFound))
        && (First(f).Some? ==> One(f, notFound) == Ok(First(f).value))
  {
    if rows != [] {
      OneAgreesWithFirst(rows[1..], keep, notFound);
      if keep(rows[0]) {
        assert forall i :: 0 <= i < |rows[1..]| ==> !keep(rows[1..][i]) by {
          forall i | 0 <= i < |rows[1..]| ensures !keep(rows[1..][i]) {
            assert rows[1..][i] == rows[i + 1];
          }
        }
      }
    }
  }

  /** No two rows share a value of `key`: what a unique column guarantees. */
  predicate DistinctBy<T, K(==)>(rows: seq<T>, key: T -> K)
  {
    forall i, j :: 0 <= i < j < |rows| ==> key(rows[i]) != key(rows[j])
  }

  /** Filtering keeps a unique column unique. */
  lemma {:induction false} FilterKeepsDistinct<T(!new), K>(rows: seq<T>, keep: T -> bool, key: T -> K)
    requires DistinctBy(rows, key)
    ensures DistinctBy(Filter(rows, keep), key)
  {
    if rows != [] {
      var tail := rows[1..];
      assert DistinctBy(tail, key) by {
        forall i, j | 0 <= i < j < |tail| ensures key(tail[i]) != key(tail[j]) {
          assert tail[i] == rows[i + 1] && tail[j] == rows[j + 1];
        }
      }
      FilterKeepsDistinct(tail, keep, key);
      var rest := Filter(tail, keep);
      if keep(rows[0]) {
        var r := [rows[0]] + rest;
        forall i, j | 0 <= i < j < |r| ensures key(r[i]) != key(r[j]) {
          if i == 0 {
            assert r[j] == rest[j - 1] && rest[j - 1] in tail;
            var k :| 0 <= k < |tail| && tail[k] == rest[j - 1];
            assert tail[k] == rows[k + 1];
          } else {
            assert r[i] == rest[i - 1] && r[j] == rest[j - 1];
          }
        }
      }
    }
  }

  /** When exactly one row passes and the rows are unique by some key,
      `.one()` returns that row. */
  lemma OneFindsUnique<T(!new), K>(rows: seq<T>, keep: T -> bool, key: T -> K, x: T, notFound: Error)
    requires DistinctBy(rows, key) && x in rows && keep(x)
    requires forall y :: y in rows && keep(y) ==> y == x
    ensures One(Filter(rows, keep), notFound) == Ok(x)
  {
    var f := Filter(rows, keep);
    FilterKeepsDistinct(rows, keep, key);
    assert x in f;
  }

  /** Two different rows among the results make `.one()` fail. */
  lemma TwoRowsNotOne<T>(rows: seq<T>, a: T, b: T, notFound: Error)
    requires a in rows && b in rows && a != b
    ensures One(rows, notFound) == Err(MultipleRows)
  {
  }
}
