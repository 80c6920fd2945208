/** `ORDER BY <column> ASC|DESC` over novel rows, with SQLite's ordering of column values. */
module NovelOrder {
  import opened Schema

  datatype SortField = CreatedAt | UpdatedAt | Title | AverageRating | TotalViews

  datatype SortOrder = Asc | Desc

  /** A column value as SQLite orders it: NULL before numbers, numbers before text. */
  datatype SqlValue = SqlNull | SqlInt(i: int) | SqlText(s: string)

  /** The sort column of a novel row. */
  function Key(n: Novel, field: SortField): SqlValue
  {
    match field
    case CreatedAt => SqlInt(n.createdAt)
    case UpdatedAt => SqlInt(n.updatedAt)
    case Title => SqlText(n.title)
    case AverageRating => if n.averageRating.Some? then SqlInt(n.averageRating.value) else SqlNull
    case TotalViews => SqlInt(n.totalViews)
  }

  /** Text order of the BINARY collation: code point by code point, a prefix first. */
  predicate TextLeq(a: string, b: string)
  {
    |a| == 0 || (|b| > 0 && (a[0] < b[0] || (a[0] == b[0] && TextLeq(a[1..], b[1..]))))
  }

  predicate SqlLeq(a: SqlValue, b: SqlValue)
  {
    match (a, b)
    case (SqlNull, _) => true
    case (SqlInt(_), SqlNull) => false
    case (SqlInt(x), SqlInt(y)) => x <= y
    case (SqlInt(_), SqlText(_)) => true
    case (SqlText(_), SqlText(t)) => TextLeq(a.s, t)
    case (SqlText(_), _) => false
  }

  lemma {:induction false} TextLeqTotal(a: string, b: string)
    ensures TextLeq(a, b) || TextLeq(b, a)
  {
    if |a| > 0 && |b| > 0 && a[0] == b[0] {
      TextLeqTotal(a[1..], b[1..]);
    }
  }

  lemma {:induction false} TextLeqTransitive(a: string, b: string, c: string)
    requires TextLeq(a, b) && TextLeq(b, c)
    ensures TextLeq(a, c)
  {
    if |a| > 0 && a[0] == b[0] && b[0] == c[0] {
      TextLeqTransitive(a[1..], b[1..], c[1..]);
    }
  }

  lemma SqlLeqTotal(a: SqlValue, b: SqlValue)
    ensures SqlLeq(a, b) || SqlLeq(b, a)
  {
    if a.SqlText? && b.SqlText? {
      TextLeqTotal(a.s, b.s);
    }
  }

  lemma SqlLeqTransitive(a: SqlValue, b: SqlValue, c: SqlValue)
    requires SqlLeq(a, b) && SqlLeq(b, c)
    ensures SqlLeq(a, c)
  {
    if a.SqlText? && b.SqlText? && c.SqlText? {
      TextLeqTransitive(a.s, b.s, c.s);
    }
  }

  /** Row `x` may come before row `y` in the requested order. */
  predicate Before(x: Novel, y: Novel, field: SortField, order: SortOrder)
  {
    if order == Asc then SqlLeq(Key(x, field), Key(y, field)) else SqlLeq(Key(y, field), Key(x, field))
  }

  lemma BeforeTotal(x: Novel, y: Novel, field: SortField, order: SortOrder)
    ensures Before(x, y, field, order) || Before(y, x, field, order)
  {
    SqlLeqTotal(Key(x, field), Key(y, field));
  }

  lemma BeforeTransitive(x: Novel, y: Novel, z: Novel, field: SortField, order: SortOrder)
    requires Before(x, y, field, order) && Before(y, z, field, order)
    ensures Before(x, z, field, order)
  {
    if order == Asc {
      SqlLeqTransitive(Key(x, field), Key(y, field), Key(z, field));
    } else {
      SqlLeqTransitive(Key(z, field), Key(y, field), Key(x, field));
    }
  }

  /** Every row may come before every later row. */
  ghost predicate Ordered(rows: seq<Novel>, field: SortField, order: SortOrder)
  {
    forall i, j :: 0 <= i < j < |rows| ==> Before(rows[i], rows[j], field, order)
  }

  /** A row that may precede every row of an ordered list extends it to an ordered list. */
  lemma ConsOrdered(a: Novel, tail: seq<Novel>, field: SortField, order: SortOrder)
    requires Ordered(tail, field, order)
    requires forall j :: 0 <= j < |tail| ==> Before(a, tail[j], field, order)
    ensures Ordered([a] + tail, field, order)
  {
    var r := [a] + tail;
    forall i, j | 0 <= i < j < |r| ensures Before(r[i], r[j], field, order) {
      if i == 0 { assert r[j] == tail[j - 1]; } else { assert r[i] == tail[i - 1] && r[j] == tail[j - 1]; }
    }
  }

  /** Place `x` before the first row it may precede. */
  function Insert(x: Novel, rows: seq<Novel>, field: SortField, order: SortOrder): (r: seq<Novel>)
    ensures multiset(r) == multiset(rows) + multiset{x}
  {
    if |rows| == 0 then [x]
    else if Before(x, rows[0], field, order) then [x] + rows
    else
      assert rows == [rows[0]] + rows[1..];
      [rows[0]] + Insert(x, rows[1..], field, order)
  }

  /** Inserting into an ordered list keeps it ordered. */
  lemma {:induction false} InsertOrdered(x: Novel, rows: seq<Novel>, field: SortField, order: SortOrder)
    requires Ordered(rows, field, order)
    ensures Ordered(Insert(x, rows, field, order), field, order)
  {
    if |rows| == 0 {
    } else if Before(x, rows[0], field, order) {
      forall j | 0 <= j < |rows| ensures Before(x, rows[j], field, order) {
        if j > 0 { BeforeTransitive(x, rows[0], rows[j], field, order); }
      }
      ConsOrdered(x, rows, field, order);
    } else {
      var tail := Insert(x, rows[1..], field, order);
      assert Ordered(rows[1..], field, order) by {
        forall i, j | 0 <= i < j < |rows[1..]| ensures Before(rows[1..][i], rows[1..][j], field, order) {
          assert rows[1..][i] == rows[i + 1] && rows[1..][j] == rows[j + 1];
        }
      }
      InsertOrdered(x, rows[1..], field, order);
      BeforeTotal(x, rows[0], field, order);
      forall j | 0 <= j < |tail| ensures Before(rows[0], tail[j], field, order) {
        assert tail[j] in multiset(tail);
        if tail[j] != x {
          assert tail[j] in multiset(rows[1..]);
          var k :| 0 <= k < |rows[1..]| && rows[1..][k] == tail[j];
          assert rows[k + 1] == tail[j];
        }
      }
      ConsOrdered(rows[0], tail, field, order);
    }
  }

  /** The rows in the requested order; rows with equal keys keep an order of the model's choosing. */
  function Sort(rows: seq<Novel>, field: SortField, order: SortOrder): (r: seq<Novel>)
    ensures multiset(r) == multiset(rows)
    ensures Ordered(r, field, order)
  {
    if |rows| == 0 then []
    else
      var sorted := Sort(rows[1..], field, order);
      InsertOrdered(rows[0], sorted, field, order);
      assert rows == [rows[0]] + rows[1..];
      Insert(rows[0], sorted, field, order)
  }
}
