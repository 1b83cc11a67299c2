/**
 domain/money.go: fixed-point arithmetic on 64-bit integers.
 */
module Money {

  const MIN64 := -0x8000_0000_0000_0000
  const MAX64 := 0x7FFF_FFFF_FFFF_FFFF
  const TWO64 := 0x1_0000_0000_0000_0000

  type int64 = v: int | MIN64 <= v <= MAX64

  predicate InInt64(v: int) {
    MIN64 <= v <= MAX64
  }

  datatype Error = DivideByZero | Overflow | Inexact | Malformed

  datatype Result<+T> = Ok(value: T) | Err(error: Error)

  function Abs(v: int): nat {
    if v < 0 then -v else v
  }

  /** Two's-complement wrap-around of a 64-bit sum or difference. */
  function Wrap64(v: int): int64 {
    var u := v % TWO64;
    if u > MAX64 then u - TWO64 else u
  }

  /** bits.Div64: two words by one; it panics unless the quotient fits a word. */
  function Div64(hi: nat, lo: nat, c: nat): nat
    requires hi < c
  {
    (hi * TWO64 + lo) / c
  }

  /** The 128-bit product split in two words, divided by one word. */
  function MulDiv(a: int64, b: int64, c: int64): Result<int64> {
    if c == 0 then Err(DivideByZero)
    else
      var p := Abs(a) * Abs(b);
      var hi, lo := p / TWO64, p % TWO64;
      if hi >= Abs(c) then Err(Overflow)
      else
        var q: int := Div64(hi, lo, Abs(c));
        if ((a < 0) != (b < 0)) != (c < 0) then
          if q > MAX64 + 1 then Err(Overflow)
          else if q == MAX64 + 1 then Ok(MIN64)
          else Ok(-q)
        else if q > MAX64 then Err(Overflow)
        else Ok(q)
  }

  /** `q` is `p / c` cut off toward zero: the remainder is smaller than the divisor and
      never has the opposite sign of the dividend. */
  ghost predicate IsTruncatedQuotient(p: int, c: int, q: int) {
    var r := p - q * c;
    Abs(r) < Abs(c) && (p >= 0 ==> r >= 0) && (p <= 0 ==> r <= 0)
  }

  lemma {:induction false} TruncatedQuotientIsUnique(p: int, c: int, q: int, q': int)
    requires c != 0 && IsTruncatedQuotient(p, c, q) && IsTruncatedQuotient(p, c, q')
    ensures q == q'
  {
    var r, r' := p - q * c, p - q' * c;
    assert Abs(r - r') < Abs(c);
    Distribute(q', q, c);
    Bound(q' - q, c);
  }

  lemma {:induction false} Distribute(a: int, b: int, c: int)
    ensures (a - b) * c == a * c - b * c
  {
  }

  lemma {:induction false} SignOfProduct(a: int, b: int)
    ensures Abs(a * b) == Abs(a) * Abs(b)
    ensures a * b > 0 ==> (a < 0) == (b < 0)
    ensures a * b < 0 ==> (a < 0) != (b < 0)
  {
  }

  lemma {:induction false} AtLeastOnce(d: nat, c: nat)
    requires d >= 1
    ensures d * c >= c
  {
  }

  lemma {:induction false} Bound(d: int, c: int)
    ensures d != 0 ==> Abs(d * c) >= Abs(c)
  {
    SignOfProduct(d, c);
    if d != 0 {
      AtLeastOnce(Abs(d), Abs(c));
    }
  }

  lemma {:induction false} SignedProduct(k: int, c: int, y: int)
    requires y == Abs(c)
    ensures k * c == if c < 0 then -(k * y) else k * y
    ensures (-k) * c == if c < 0 then k * y else -(k * y)
  {
  }

  lemma {:induction false} DivMod(p: nat, c: nat)
    requires c > 0
    ensures p == (p / c) * c + p % c && p % c < c
  {
  }

  lemma {:induction false} QuotientOfMagnitudes(p: int, c: int, q: int, k: int, kc: int, r: int)
    requires q * c == (if p < 0 then -kc else kc)
    requires Abs(p) == kc + r && 0 <= r < Abs(c)
    ensures IsTruncatedQuotient(p, c, q)
  {
  }

  /** Dividing magnitudes and putting the sign back is truncated division. */
  lemma {:induction false} SignedDivision(p: int, c: int, y: nat, neg: bool, k: nat, r: nat)
    requires y == Abs(c) > 0 && (p > 0 ==> neg == (c < 0)) && (p < 0 ==> neg == (c > 0))
    requires Abs(p) == k * y + r && r < y
    ensures IsTruncatedQuotient(p, c, if neg then 0 - k else k)
  {
    SignedProduct(k, c, y);
    if p == 0 && k != 0 {
      AtLeastOnce(k, y);
    }
    QuotientOfMagnitudes(p, c, if neg then 0 - k else k, k, k * y, r);
  }

  /** Sign and overflow checks around the division of magnitudes. */
  lemma {:induction false} MulDivMagnitude(a: int64, b: int64, c: int64, p: nat, k: nat)
    requires c != 0 && p == Abs(a) * Abs(b) && k == p / Abs(c)
    ensures var q := if ((a < 0) != (b < 0)) != (c < 0) then 0 - k else k;
      MulDiv(a, b, c) == if InInt64(q) then Ok(q) else Err(Overflow)
  {
    DivMod(p, TWO64);
    if p / TWO64 >= Abs(c) {
      BigQuotient(p, p / TWO64, Abs(c));
    } else {
      assert Div64(p / TWO64, p % TWO64, Abs(c)) == k;
    }
  }

  /** MulDiv, for all inputs: a zero divisor is the only division error; otherwise the
      result is a*b/c truncated toward zero when that is a 64-bit number (the least one
      included), and an overflow when it is not. */
  lemma {:induction false} MulDivIsExact(a: int64, b: int64, c: int64) returns (q: int)
    ensures c == 0 <==> MulDiv(a, b, c) == Err(DivideByZero)
    ensures c != 0 ==> IsTruncatedQuotient(a * b, c, q)
    ensures c != 0 ==> MulDiv(a, b, c) == if InInt64(q) then Ok(q) else Err(Overflow)
  {
    q := 0;
    if c != 0 {
      var p, neg := Abs(a) * Abs(b), ((a < 0) != (b < 0)) != (c < 0);
      var y := Abs(c);
      var k, r := p / y, p % y;
      q := if neg then 0 - k else k;
      MulDivMagnitude(a, b, c, p, k);
      SignOfProduct(a, b);
      DivMod(p, y);
      SignedDivision(a * b, c, y, neg, k, r);
    }
  }

  lemma {:induction false} BigQuotient(p: nat, hi: nat, c: int)
    requires c > 0 && hi >= c && p >= hi * TWO64
    ensures p / c >= TWO64
  {
    DivMod(p, c);
    var k := p / c - TWO64;
    Distribute(p / c, TWO64, c);
    assert k * c > -c;
    Bound(k, c);
  }

  /** Basis points of a move. The difference is taken in 64 bits before MulDiv sees it. */
  function ChangeBasisPoints(open: int64, last: int64): Result<int64> {
    if open == 0 then Err(DivideByZero) else MulDiv(Wrap64(last - open), 10_000, open)
  }

  lemma {:induction false} WrapIdentity(v: int)
    requires InInt64(v)
    ensures Wrap64(v) == v
  {
  }

  /** For prices that are not negative the difference cannot wrap, so the result is the
      truncated quotient of the true change; there is no result only for a zero open or one
      that does not fit. */
  lemma {:induction false} ChangeBasisPointsIsExact(open: int64, last: int64) returns (q: int)
    requires open >= 0 && last >= 0
    ensures ChangeBasisPoints(open, last) == Err(DivideByZero) <==> open == 0
    ensures open != 0 ==> IsTruncatedQuotient((last - open) * 10_000, open, q)
    ensures open != 0 ==> ChangeBasisPoints(open, last) == if InInt64(q) then Ok(q) else Err(Overflow)
  {
    WrapIdentity(last - open);
    q := MulDivIsExact(last - open, 10_000, open);
  }
}
