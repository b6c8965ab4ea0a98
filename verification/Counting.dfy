/** How many batches of a fixed size a number of items takes. */
module Counting {

  function CeilDiv(n: nat, d: nat): nat
    requires d >= 1
  {
    (n + d - 1) / d
  }

  lemma ProductOrder(a: int, b: int, c: nat)
    requires a <= b
    ensures a * c <= b * c
  {
  }

  lemma QuotientUnique(x: nat, d: nat, q: nat, r: nat)
    requires d >= 1 && r < d && x == q * d + r
    ensures x / d == q
  {
    if x / d < q {
      ProductOrder(x / d + 1, q, d);
    } else if x / d > q {
      ProductOrder(q + 1, x / d, d);
    }
  }

  lemma QuotientStep(x: nat, d: nat)
    requires d >= 1 && x >= d
    ensures x / d == 1 + (x - d) / d
  {
    var q, r := (x - d) / d, (x - d) % d;
    assert x == q * d + r + d == (q + 1) * d + r;
    QuotientUnique(x, d, q + 1, r);
  }

  lemma CeilDivStep(n: nat, d: nat)
    requires d >= 1
    ensures n == 0 ==> CeilDiv(n, d) == 0
    ensures n > 0 ==> CeilDiv(n, d) == 1 + CeilDiv(if n <= d then 0 else n - d, d)
  {
    if n == 0 {
      QuotientUnique(d - 1, d, 0, d - 1);
    } else if n <= d {
      QuotientStep(n + d - 1, d);
      QuotientUnique(n - 1, d, 0, n - 1);
      QuotientUnique(d - 1, d, 0, d - 1);
    } else {
      QuotientStep(n + d - 1, d);
    }
  }

  /** One call for each full or last page of `limit` items and one for the empty page. */
  function Calls(n: nat, limit: nat): nat
    requires limit >= 1
  {
    if n == 0 then 1 else 1 + Calls(if n <= limit then 0 else n - limit, limit)
  }

  lemma {:induction false} CallsCount(n: nat, limit: nat)
    requires limit >= 1
    ensures Calls(n, limit) == CeilDiv(n, limit) + 1
  {
    CeilDivStep(n, limit);
    if n > 0 { CallsCount(if n <= limit then 0 else n - limit, limit); }
  }
}
