/** Row scans shared by every table: first match (findIndex / LIMIT 1) and filtering (WHERE). */
module Tables {
  import opened Wrappers

  /** Index of the first row satisfying `p`, or -1 when there is none. */
  function IndexWhere<T>(rows: seq<T>, p: T -> bool): (r: int)
    ensures -1 <= r < |rows|
    ensures r == -1 <==> forall i :: 0 <= i < |rows| ==> !p(rows[i])
    ensures r != -1 ==> p(rows[r]) && forall i :: 0 <= i < r ==> !p(rows[i])
  {
    if |rows| == 0 then -1
    else if p(rows[0]) then 0
    else
      var k := IndexWhere(rows[1..], p);
      assert forall i :: 1 <= i < |rows| ==> rows[i] == rows[1..][i - 1];
      if k == -1 then -1 else k + 1
  }

  /** The first row satisfying `p`, as a `SELECT ... WHERE p LIMIT 1`. */
  function FirstWhere<T>(rows: seq<T>, p: T -> bool): (r: Option<T>)
    ensures r.None? <==> forall i :: 0 <= i < |rows| ==> !p(rows[i])
    ensures r.Some? ==> r.value in rows && p(r.value)
  {
    var k := IndexWhere(rows, p);
    if k == -1 then None else Some(rows[k])
  }

  /** The rows satisfying `p`, in table order. */
  function Filter<T>(rows: seq<T>, p: T -> bool): (r: seq<T>)
    ensures |r| <= |rows|
    ensures forall i :: 0 <= i < |r| ==> r[i] in rows && p(r[i])
    ensures forall i :: 0 <= i < |rows| && p(rows[i]) ==> rows[i] in r
  {
    if |rows| == 0 then []
    else
      var rest := Filter(rows[1..], p);
      assert forall i :: 1 <= i < |rows| ==> rows[i] == rows[1..][i - 1];
      if p(rows[0]) then [rows[0]] + rest else rest
  }

  /** A row of the filtered table is a row of the table satisfying `p`. */
  lemma {:induction false} FilterMember<T>(rows: seq<T>, p: T -> bool, x: T)
    requires x in Filter(rows, p)
    ensures x in rows && p(x)
  {
    var r := Filter(rows, p);
    var i :| 0 <= i < |r| && r[i] == x;
  }

  /** Filtering keeps the rows satisfying `p` and nothing else, counted with multiplicity. */
  lemma {:induction false} FilterMultiset<T>(rows: seq<T>, p: T -> bool, x: T)
    ensures multiset(Filter(rows, p))[x] == if p(x) then multiset(rows)[x] else 0
  {
    if |rows| > 0 {
      FilterMultiset(rows[1..], p, x);
      assert rows == [rows[0]] + rows[1..];
    }
  }
}
