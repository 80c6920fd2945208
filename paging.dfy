/** Page-count arithmetic: `Math.ceil(total / limit)` as both the novel service and the paginated
    response envelope compute it, with JavaScript's division by zero made explicit. */
module Paging {

  /** The values `Math.ceil(a / b)` can take for integer `a` and `b`. */
  datatype JsNumber = Finite(value: int) | PosInfinity | NegInfinity | NaN

  /** `x < n` in JavaScript: every comparison with NaN is false. */
  predicate Less(x: int, n: JsNumber)
  {
    match n
    case Finite(v) => x < v
    case PosInfinity => true
    case NegInfinity => false
    case NaN => false
  }

  /** Ceiling of `t / m` for a positive divisor, on integers. */
  function CeilPos(t: int, m: int): (q: int)
    requires m > 0
    ensures (q - 1) * m < t <= q * m
  {
    var q := (t + m - 1) / m;
    var rem := (t + m - 1) % m;
    assert t + m - 1 == q * m + rem && 0 <= rem < m;
    assert (q - 1) * m == q * m - m;
    q
  }

  /** `Math.ceil(total / limit)`. */
  function CeilDiv(total: int, limit: int): (r: JsNumber)
    ensures limit > 0 ==> r.Finite? && (r.value - 1) * limit < total <= r.value * limit
    ensures limit < 0 ==> r.Finite? && (r.value - 1) * -limit < -total <= r.value * -limit
    ensures limit == 0 ==> r == if total > 0 then PosInfinity else if total < 0 then NegInfinity else NaN
  {
    if limit > 0 then Finite(CeilPos(total, limit))
    else if limit < 0 then Finite(CeilPos(-total, -limit))
    else if total > 0 then PosInfinity
    else if total < 0 then NegInfinity
    else NaN
  }

  /** The ceiling is the least page count that covers `total` rows, so it is unique. */
  lemma CeilDivUnique(total: int, limit: int, n: int)
    requires limit > 0
    requires (n - 1) * limit < total <= n * limit
    ensures CeilDiv(total, limit) == Finite(n)
  {
    var q := CeilDiv(total, limit).value;
    if q < n {
      assert q * limit <= (n - 1) * limit by { MulMonotone(q, n - 1, limit); }
    } else if q > n {
      assert n * limit <= (q - 1) * limit by { MulMonotone(n, q - 1, limit); }
    }
  }

  lemma MulMonotone(a: int, b: int, m: int)
    requires a <= b && m > 0
    ensures a * m <= b * m
  {
    assert b * m - a * m == (b - a) * m;
  }

  /** With a positive limit, page `page` is followed by another page exactly when rows remain after it:
      `page < Math.ceil(total / limit)` iff `page * limit < total`. */
  lemma HasNextIff(page: int, total: int, limit: int)
    requires limit > 0
    ensures Less(page, CeilDiv(total, limit)) <==> page * limit < total
  {
    var q := CeilDiv(total, limit).value;
    if page < q {
      MulMonotone(page, q - 1, limit);
    } else {
      MulMonotone(q, page, limit);
    }
  }

  /** The page counts exercised by the response-envelope tests. */
  lemma CeilDivExamples()
    ensures CeilDiv(25, 10) == Finite(3) && CeilDiv(30, 10) == Finite(3) && CeilDiv(31, 10) == Finite(4)
    ensures CeilDiv(0, 10) == Finite(0) && CeilDiv(5, 10) == Finite(1)
  {
    CeilDivUnique(25, 10, 3);
    CeilDivUnique(30, 10, 3);
    CeilDivUnique(31, 10, 4);
    CeilDivUnique(0, 10, 0);
    CeilDivUnique(5, 10, 1);
  }
}
