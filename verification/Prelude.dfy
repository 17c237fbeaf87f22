/** Option and Result values, for code that returns an optional value or an error; powers of two; quotients. */
module Prelude {

  datatype Option<+T> = None | Some(value: T)

  datatype Result<+T, +E> = Ok(value: T) | Err(error: E)

  function Power2(k: nat): (p: int)
    ensures p > 0
  {
    if k == 0 then 1 else 2 * Power2(k - 1)
  }

  lemma QuotientRemainder(x: int, p: int)
    requires p > 0
    ensures x == x / p * p + x % p && 0 <= x % p < p
  {
  }

  lemma MultipleRemainder(q: int, p: int)
    requires p > 0
    ensures q * p % p == 0
  {
    UniqueQuotient(q * p, p, q, 0);
  }

  lemma SmallRemainder(x: int, p: int)
    requires 0 <= x < p
    ensures x % p == x && x / p == 0
  {
    UniqueQuotient(x, p, 0, x);
  }

  lemma ShiftedRemainder(x: int, p: int)
    requires p > 0
    ensures (x + p) % p == x % p
  {
    QuotientRemainder(x, p);
    assert x + p == (x / p + 1) * p + x % p;
    UniqueQuotient(x + p, p, x / p + 1, x % p);
  }

  lemma UniqueQuotient(x: int, p: int, q: int, r: nat)
    requires r < p && x == q * p + r
    ensures x / p == q && x % p == r
  {
    var d := x / p - q;
    assert d * p == r - x % p;
    MultipleSize(d, p);
  }

  lemma MultipleSize(d: int, p: int)
    requires p > 0
    ensures d >= 1 ==> d * p >= p
    ensures d <= -1 ==> d * p <= -p
  {
  }
}
