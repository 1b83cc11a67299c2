/**
 Trades, and the integer arithmetic the components share.
 */
module Domain {

  datatype Option<+T> = None | Some(value: T)

  datatype TradeSide = UnknownSide | Buy | Sell

  /** A trade; `time` is nanoseconds since the Unix epoch. */
  datatype Trade = Trade(id: nat, symbol: string, time: int, price: int, quantity: int, side: TradeSide)

  const NS_PER_MINUTE := 60_000_000_000

  /** Go's `%`, which truncates toward zero. */
  function GoMod(a: int, b: int): int
    requires b > 0
  {
    if a >= 0 then a % b else -((-a) % b)
  }

  lemma {:induction false} MulBound(n: int, d: int)
    requires n > 0
    ensures d > 0 ==> n * d >= n
    ensures d < 0 ==> n * d <= -n
  {
  }

  lemma {:induction false} OneMore(n: int, d: int)
    ensures (n + 1) * d == n * d + d
  {
  }

  lemma {:induction false} SubsetSize<T>(a: set<T>, b: set<T>)
    requires a <= b
    ensures |a| <= |b|
  {
    assert b == a + (b - a);
  }

  /** Go's maps are walked in any order. */
  method AnyOf<T(0)>(s: set<T>) returns (x: T)
    requires s != {}
    ensures x in s
  {
    x :| x in s;
  }

  lemma {:induction false} ModUnique(a: int, n: int, q: int, r: int)
    requires n > 0 && 0 <= r < n && a == n * q + r
    ensures a % n == r && a / n == q
  {
    var d := a / n - q;
    assert n * d == r - a % n;
    MulBound(n, d);
  }

  /** Less than one modulus apart, equal residues mean equal numbers. */
  lemma {:induction false} ModApart(a: int, b: int, n: int)
    requires n > 0 && a % n == b % n && -n < a - b < n
    ensures a == b
  {
    var d := a / n - b / n;
    assert n * d == a - b;
    MulBound(n, d);
  }
}
