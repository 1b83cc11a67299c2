/**
 domain/money.go: exact decimal strings for scaled integers.

 A string is a sequence of characters; the source counts bytes, which is the same for every
 string it accepts.
 */
module Decimals {
  import opened Money

  const MAX_SAFE := 0x20_0000_0000_0000   // 2^53

  function Pow10(n: nat): (p: nat)
    ensures p >= 1
  {
    if n == 0 then 1 else 10 * Pow10(n - 1)
  }

  predicate IsDigit(c: char) {
    '0' <= c <= '9'
  }

  /** unicode.IsSpace. */
  predicate IsSpace(c: char) {
    || c in {'\t', '\n', '\U{0B}', '\U{0C}', '\r', ' ', '\U{85}', '\U{A0}', '\U{1680}',
             '\U{2028}', '\U{2029}', '\U{202F}', '\U{205F}', '\U{3000}'}
    || '\U{2000}' <= c <= '\U{200A}'
  }

  predicate AllDigits(s: string) {
    forall i :: 0 <= i < |s| ==> IsDigit(s[i])
  }

  function DigitChar(d: nat): char
    requires d < 10
  {
    ('0' as int + d) as char
  }

  /** strconv.FormatUint in base ten. */
  function Decimal(n: nat): string {
    if n < 10 then [DigitChar(n)] else Decimal(n / 10) + [DigitChar(n % 10)]
  }

  /** The number a run of digits spells. */
  function Value(s: string): nat
    requires AllDigits(s)
  {
    if s == "" then 0
    else 10 * Value(s[..|s| - 1]) + (s[|s| - 1] as int - '0' as int)
  }

  function Zeros(n: nat): string {
    seq(n, _ => '0')
  }

  /** At least one digit before the point. */
  function PadLeft(s: string, digits: nat): string {
    if |s| <= digits then Zeros(digits - |s| + 1) + s else s
  }

  function Pointed(t: string, digits: nat): string
    requires |t| > digits
  {
    if digits == 0 then t else t[..|t| - digits] + "." + t[|t| - digits..]
  }

  function Format(v: int64, digits: int): string {
    var s := Decimal(Abs(v));
    var n := if digits <= 0 then 0 else digits;
    PadLeftLength(s, n);
    (if v < 0 then "-" else "") + (if digits <= 0 then s else Pointed(PadLeft(s, n), n))
  }

  lemma {:induction false} PadLeftLength(s: string, digits: nat)
    ensures |PadLeft(s, digits)| > digits
  {
  }

  function TrimLeft(s: string): string {
    if s != "" && IsSpace(s[0]) then TrimLeft(s[1..]) else s
  }

  function TrimRight(s: string): string {
    if s != "" && IsSpace(s[|s| - 1]) then TrimRight(s[..|s| - 1]) else s
  }

  function TrimZeros(s: string): string {
    if s != "" && s[|s| - 1] == '0' then TrimZeros(s[..|s| - 1]) else s
  }

  /** Position of the first dot, or the length of the string. */
  function Dot(s: string): nat {
    if s == "" || s[0] == '.' then 0 else 1 + Dot(s[1..])
  }

  /** strconv.ParseInt of a run of digits: out of range is an error. */
  function ParseInt(s: string): Result<int64>
    requires AllDigits(s)
  {
    if Value(s) <= MAX64 then Ok(Value(s)) else Err(Malformed)
  }

  function Parse(s: string, scale: int64, digits: nat): Result<int>
    requires scale == Pow10(digits)
  {
    ParseTrimmed(TrimRight(TrimLeft(s)), scale, digits)
  }

  function ParseTrimmed(t: string, scale: int64, digits: nat): Result<int>
    requires scale == Pow10(digits)
  {
    if t == "" then Err(Malformed)
    else
      var u := if t[0] == '-' || t[0] == '+' then t[1..] else t;
      if u == "" then Err(Malformed) else ParseUnsigned(u, t[0] == '-', scale, digits)
  }

  function ParseUnsigned(u: string, neg: bool, scale: int64, digits: nat): Result<int>
    requires scale == Pow10(digits) && u != ""
  {
    var whole, frac := WholeOf(u), FracOf(u);
    if whole == "" && frac == "" then Err(Malformed)
    else if |frac| > digits && |TrimZeros(frac)| > digits then Err(Inexact)
    else ParseParts(if whole == "" then "0" else whole, Kept(frac, digits), neg, scale, digits)
  }

  lemma {:induction false} DotRange(s: string)
    ensures Dot(s) <= |s|
    ensures Dot(s) < |s| ==> s[Dot(s)] == '.'
    ensures forall i :: 0 <= i < Dot(s) ==> s[i] != '.'
  {
    if s != "" && s[0] != '.' {
      DotRange(s[1..]);
      assert forall i :: 0 < i <= Dot(s) && i < |s| ==> s[i] == s[1..][i - 1];
    }
  }

  function ParseParts(whole: string, frac: string, neg: bool, scale: int64, digits: nat): Result<int>
    requires scale == Pow10(digits) && |frac| <= digits
  {
    if !AllDigits(whole) || !AllDigits(frac) then Err(Malformed)
    else
      var padded := frac + Zeros(digits - |frac|);
      match ParseInt(whole)
      case Err(e) => Err(e)
      case Ok(w) =>
        if w > MAX_SAFE / scale then Err(Overflow)
        else
          match ParseInt(padded)
          case Err(e) => Err(e)
          case Ok(f) => var v := w * scale + f; Ok(if neg then -v else v)
  }

  // ----- the numbers digits spell

  lemma {:induction false} ShiftOne(a: nat, p: nat, q: nat)
    requires q == 10 * p
    ensures a * q == 10 * (a * p)
  {
  }

  lemma {:induction false} ValueConcat(a: string, b: string)
    requires AllDigits(a) && AllDigits(b)
    ensures AllDigits(a + b)
    ensures Value(a + b) == Value(a) * Pow10(|b|) + Value(b)
  {
    if b == "" {
      assert a + b == a;
    } else {
      var n := |b| - 1;
      ValueConcat(a, b[..n]);
      assert (a + b)[..|a + b| - 1] == a + b[..n];
      ShiftOne(Value(a), Pow10(n), Pow10(|b|));
    }
  }

  lemma {:induction false} ValueBound(s: string)
    requires AllDigits(s)
    ensures Value(s) < Pow10(|s|)
  {
    if s != "" {
      ValueBound(s[..|s| - 1]);
    }
  }

  lemma {:induction false} ZerosAreNothing(n: nat)
    ensures AllDigits(Zeros(n)) && Value(Zeros(n)) == 0
  {
    if n > 0 {
      ZerosAreNothing(n - 1);
      assert Zeros(n)[..n - 1] == Zeros(n - 1);
    }
  }

  lemma {:induction false} DecimalValue(n: nat)
    ensures Decimal(n) != "" && AllDigits(Decimal(n)) && Value(Decimal(n)) == n
  {
    if n < 10 {
      assert Decimal(n)[..0] == "";
    } else {
      DecimalValue(n / 10);
      var s := Decimal(n);
      assert s[..|s| - 1] == Decimal(n / 10);
    }
  }

  lemma {:induction false} Pow10Add(a: nat, b: nat)
    ensures Pow10(a + b) == Pow10(a) * Pow10(b)
  {
    if a > 0 {
      Pow10Add(a - 1, b);
      assert Pow10(a + b) == 10 * (Pow10(a - 1) * Pow10(b));
    }
  }

  // ----- reading a written number

  /** A decimal literal: a sign, digits, and digits after the point. */
  datatype Literal = Literal(neg: bool, whole: string, frac: string)

  ghost predicate AllSpace(s: string) {
    forall i :: 0 <= i < |s| ==> IsSpace(s[i])
  }

  /** The text of a literal, without the space around it. */
  ghost predicate Core(t: string, l: Literal, sign: string, point: string) {
    && t == sign + (l.whole + point + l.frac)
    && (sign == "" || sign == "+" || sign == "-") && (l.neg <==> sign == "-")
    && (point == "" || point == ".") && (point == "" ==> l.frac == "")
    && AllDigits(l.whole) && AllDigits(l.frac) && |l.whole| + |l.frac| > 0
  }

  ghost predicate Spells(s: string, l: Literal) {
    exists pre, t, post, sign, point ::
      s == pre + t + post && AllSpace(pre) && AllSpace(post) && Core(t, l, sign, point)
  }

  lemma {:induction false} DotOf(a: string, b: string)
    requires AllDigits(a)
    ensures Dot(a + "." + b) == |a|
    ensures Dot(a) == |a|
  {
    if a != "" {
      DotOf(a[1..], b);
      assert (a + "." + b)[1..] == a[1..] + "." + b;
    }
  }

  lemma {:induction false} TrimmedLeft(pre: string, t: string)
    requires AllSpace(pre) && (t != "" ==> !IsSpace(t[0]))
    ensures TrimLeft(pre + t) == t
  {
    if pre == "" {
      assert pre + t == t;
    } else {
      TrimmedLeft(pre[1..], t);
      assert (pre + t)[1..] == pre[1..] + t;
    }
  }

  lemma {:induction false} TrimmedRight(t: string, post: string)
    requires AllSpace(post) && (t != "" ==> !IsSpace(t[|t| - 1]))
    ensures TrimRight(t + post) == t
  {
    if post == "" {
      assert t + post == t;
    } else {
      TrimmedRight(t, post[..|post| - 1]);
      assert (t + post)[..|t + post| - 1] == t + post[..|post| - 1];
    }
  }

  lemma {:induction false} DigitsAreNotSpace(c: char)
    requires IsDigit(c) || c == '-' || c == '+' || c == '.'
    ensures !IsSpace(c)
  {
  }

  lemma {:induction false} TrimsTo(pre: string, t: string, post: string)
    requires AllSpace(pre) && AllSpace(post) && t != "" && !IsSpace(t[0]) && !IsSpace(t[|t| - 1])
    ensures TrimRight(TrimLeft(pre + t + post)) == t
  {
    assert pre + t + post == pre + (t + post);
    TrimmedLeft(pre, t + post);
    TrimmedRight(t, post);
  }

  function ParseLiteral(l: Literal, scale: int64, digits: nat): Result<int>
    requires scale == Pow10(digits)
  {
    if l.whole == "" && l.frac == "" then Err(Malformed)
    else if |l.frac| > digits && |TrimZeros(l.frac)| > digits then Err(Inexact)
    else ParseParts(if l.whole == "" then "0" else l.whole, Kept(l.frac, digits), l.neg, scale, digits)
  }

  /** Split at the first dot, a text is the literal it was put together from. */
  lemma {:induction false} UnsignedOf(l: Literal, point: string, scale: int64, digits: nat)
    requires scale == Pow10(digits) && |l.whole| + |l.frac| > 0 && AllDigits(l.whole)
    requires (point == "" || point == ".") && (point == "" ==> l.frac == "")
    ensures ParseUnsigned(l.whole + point + l.frac, l.neg, scale, digits) == ParseLiteral(l, scale, digits)
  {
    var u := l.whole + point + l.frac;
    DotOf(l.whole, l.frac);
    if point == "" {
      assert u == l.whole;
      assert u[..|u|] == u;
    } else {
      assert u[..|l.whole|] == l.whole && u[|l.whole| + 1..] == l.frac;
    }
  }

  /** A spelled literal is taken apart where it was put together. */
  lemma {:induction false} ParseOfSpelled(s: string, l: Literal, scale: int64, digits: nat)
    requires scale == Pow10(digits) && Spells(s, l)
    ensures Parse(s, scale, digits) == ParseLiteral(l, scale, digits)
  {
    var pre, t, post, sign, point :| s == pre + t + post && AllSpace(pre) && AllSpace(post) && Core(t, l, sign, point);
    DigitsAreNotSpace(t[0]);
    DigitsAreNotSpace(t[|t| - 1]);
    TrimsTo(pre, t, post);
    ParseOfCore(t, l, sign, point, scale, digits);
  }

  lemma {:induction false} ParseOfCore(t: string, l: Literal, sign: string, point: string, scale: int64, digits: nat)
    requires scale == Pow10(digits) && Core(t, l, sign, point)
    ensures ParseTrimmed(t, scale, digits) == ParseLiteral(l, scale, digits)
  {
    var u := l.whole + point + l.frac;
    assert sign != "" ==> t[0] == sign[0] && t[1..] == u;
    assert sign == "" ==> t == u;
    UnsignedOf(l, point, scale, digits);
  }

  lemma {:induction false} TrimLeftSplit(s: string) returns (pre: string)
    ensures AllSpace(pre) && s == pre + TrimLeft(s)
  {
    if s != "" && IsSpace(s[0]) {
      var rest := TrimLeftSplit(s[1..]);
      pre := [s[0]] + rest;
    } else {
      pre := "";
    }
  }

  lemma {:induction false} TrimRightSplit(s: string) returns (post: string)
    ensures AllSpace(post) && s == TrimRight(s) + post
  {
    if s != "" && IsSpace(s[|s| - 1]) {
      var rest := TrimRightSplit(s[..|s| - 1]);
      post := rest + [s[|s| - 1]];
    } else {
      post := "";
    }
  }

  /** The two sides of the first dot. */
  function WholeOf(u: string): string {
    DotRange(u);
    u[..Dot(u)]
  }

  function FracOf(u: string): string {
    DotRange(u);
    if Dot(u) < |u| then u[Dot(u) + 1..] else ""
  }

  lemma {:induction false} SidesOfDot(u: string) returns (point: string)
    ensures u == WholeOf(u) + point + FracOf(u)
    ensures (point == "" || point == ".") && (point == "" ==> FracOf(u) == "")
  {
    DotRange(u);
    var d := Dot(u);
    point := if d < |u| then "." else "";
    if d < |u| {
      assert u == u[..d] + u[d..d + 1] + u[d + 1..];
    }
  }

  lemma {:induction false} UnsignedAccepted(u: string, neg: bool, scale: int64, digits: nat)
    requires scale == Pow10(digits) && u != "" && ParseUnsigned(u, neg, scale, digits).Ok?
    ensures AllDigits(WholeOf(u)) && AllDigits(FracOf(u)) && |WholeOf(u)| + |FracOf(u)| > 0
  {
    assert AllDigits(if WholeOf(u) == "" then "0" else WholeOf(u)) && AllDigits(Kept(FracOf(u), digits));
    assert |FracOf(u)| > digits ==> |TrimZeros(FracOf(u))| <= digits;
    KeptDigits(FracOf(u), digits);
  }

  lemma {:induction false} KeptDigits(frac: string, digits: nat)
    requires AllDigits(Kept(frac, digits)) && (|frac| > digits ==> |TrimZeros(frac)| <= digits)
    ensures AllDigits(frac)
  {
    ZeroTail(frac, digits);
  }

  /** Whatever is accepted is a literal. */
  lemma {:induction false} AcceptedIsSpelled(s: string, scale: int64, digits: nat) returns (l: Literal)
    requires scale == Pow10(digits) && Parse(s, scale, digits).Ok?
    ensures Spells(s, l)
  {
    var pre := TrimLeftSplit(s);
    var post := TrimRightSplit(TrimLeft(s));
    var t := TrimRight(TrimLeft(s));
    assert s == pre + t + post;
    l := TrimmedAccepted(t, scale, digits);
  }

  lemma {:induction false} TrimmedAccepted(t: string, scale: int64, digits: nat) returns (l: Literal)
    requires scale == Pow10(digits) && ParseTrimmed(t, scale, digits).Ok?
    ensures exists sign, point :: Core(t, l, sign, point)
  {
    var sign, u := SignSplit(t);
    UnsignedAccepted(u, t[0] == '-', scale, digits);
    var point := SidesOfDot(u);
    l := Literal(t[0] == '-', WholeOf(u), FracOf(u));
    assert Core(t, l, sign, point);
  }

  lemma {:induction false} SignSplit(t: string) returns (sign: string, u: string)
    requires t != ""
    ensures t == sign + u
    ensures sign == if t[0] == '-' || t[0] == '+' then t[..1] else ""
    ensures u == if t[0] == '-' || t[0] == '+' then t[1..] else t
  {
    var signed := t[0] == '-' || t[0] == '+';
    sign, u := if signed then t[..1] else "", if signed then t[1..] else t;
  }

  /** If only zeros are cut off, the digits were digits before. */
  lemma {:induction false} ZeroTail(frac: string, digits: nat)
    ensures |frac| > digits && |TrimZeros(frac)| <= digits && AllDigits(frac[..digits]) ==> AllDigits(frac)
    ensures |frac| > digits && |TrimZeros(frac)| <= digits ==> frac[digits..] == Zeros(|frac| - digits)
  {
    if |frac| > digits && |TrimZeros(frac)| <= digits {
      var n := |frac| - 1;
      assert frac[n] == '0';
      if n > digits {
        ZeroTail(frac[..n], digits);
        assert frac[..n][..digits] == frac[..digits];
        assert frac[digits..] == frac[..n][digits..] + [frac[n]];
      }
    }
  }

  // ----- what is accepted, and what it means

  lemma {:induction false} Cancel(a: int, b: int, c: int)
    requires c > 0 && a * c == b * c
    ensures a == b
  {
    Distribute(a, b, c);
    Bound(a - b, c);
  }

  lemma {:induction false} Regroup(a: int, b: int, c: int, bc: int)
    requires bc == b * c
    ensures (a * b) * c == a * bc && (a * c) * b == a * bc
  {
  }

  lemma {:induction false} ShiftValue(s: string, j: nat)
    requires AllDigits(s)
    ensures AllDigits(s + Zeros(j)) && Value(s + Zeros(j)) == Value(s) * Pow10(j)
  {
    ZerosAreNothing(j);
    ValueConcat(s, Zeros(j));
  }

  function Kept(frac: string, digits: nat): string {
    if |frac| > digits then frac[..digits] else frac
  }

  function Padded(frac: string, digits: nat): string {
    Kept(frac, digits) + Zeros(digits - |Kept(frac, digits)|)
  }

  lemma {:induction false} PaddedDigits(frac: string, digits: nat)
    requires AllDigits(frac)
    ensures AllDigits(Kept(frac, digits)) && AllDigits(Padded(frac, digits)) && |Padded(frac, digits)| == digits
  {
    ZerosAreNothing(digits - |Kept(frac, digits)|);
  }

  /** The digits after the point, padded or cut to the scale, are worth what was written. */
  lemma {:induction false} FractionValue(frac: string, digits: nat)
    requires AllDigits(frac) && (|frac| > digits ==> |TrimZeros(frac)| <= digits)
    requires AllDigits(Padded(frac, digits))
    ensures Value(Padded(frac, digits)) * Pow10(|frac|) == Value(frac) * Pow10(digits)
  {
    if |frac| > digits {
      CutFraction(frac, digits);
    } else {
      ShiftValue(frac, digits - |frac|);
      PaddedTimes(Value(frac), |frac|, digits - |frac|, digits);
    }
  }

  lemma {:induction false} CutFraction(frac: string, digits: nat)
    requires AllDigits(frac) && |frac| > digits && |TrimZeros(frac)| <= digits
    ensures Padded(frac, digits) == Kept(frac, digits) && AllDigits(Kept(frac, digits))
    ensures Value(Kept(frac, digits)) * Pow10(|frac|) == Value(frac) * Pow10(digits)
  {
    var kept, j := frac[..digits], |frac| - digits;
    ZeroTail(frac, digits);
    assert frac == kept + Zeros(j) && kept + Zeros(0) == kept;
    ShiftValue(kept, j);
    PaddedTimes(Value(kept), digits, j, |frac|);
  }

  lemma {:induction false} PaddedTimes(v: nat, a: nat, j: nat, b: nat)
    requires b == a + j
    ensures (v * Pow10(j)) * Pow10(a) == v * Pow10(b)
  {
    Pow10Add(j, a);
    Regroup(v, Pow10(j), Pow10(a), Pow10(b));
  }

  /** With all digits in order, the parts are summed unless the whole part is too large. */
  lemma {:induction false} PartsSummed(whole: string, frac: string, neg: bool, scale: int64, digits: nat)
    requires scale == Pow10(digits) && AllDigits(whole) && |frac| <= digits && AllDigits(frac)
    requires AllDigits(frac + Zeros(digits - |frac|))
    ensures var f := Value(frac + Zeros(digits - |frac|));
            var r := ParseParts(whole, frac, neg, scale, digits);
      && f < scale
      && (r.Ok? <==> Value(whole) <= MAX_SAFE / scale)
      && (r.Ok? ==> r.value == Signed(Value(whole) * scale + f, neg))
  {
    ValueBound(frac + Zeros(digits - |frac|));
    assert MAX_SAFE / scale <= MAX_SAFE;
  }

  lemma {:induction false} WholeOrZero(whole: string)
    requires AllDigits(whole)
    ensures AllDigits(if whole == "" then "0" else whole)
    ensures Value(if whole == "" then "0" else whole) == Value(whole)
  {
    assert "0"[..0] == "";
  }

  lemma {:induction false} SumOfParts(w: nat, f: nat, g: nat, scale: nat, p: nat)
    requires f * p == g * scale
    ensures (w * scale + f) * p == (w * p + g) * scale
  {
    SumTimes(w * scale, f, p);
    SumTimes(w * p, g, scale);
    Regroup(w, scale, p, scale * p);
  }

  function Signed(magnitude: int, neg: bool): (v: int)
    ensures magnitude >= 0 ==> Abs(v) == magnitude && (v != 0 ==> (v < 0 <==> neg))
  {
    if neg then -magnitude else magnitude
  }

  lemma {:induction false} LiteralResult(l: Literal, scale: int64, digits: nat)
    requires scale == Pow10(digits) && AllDigits(l.whole) && AllDigits(l.frac) && |l.whole| + |l.frac| > 0
    requires |l.frac| > digits ==> |TrimZeros(l.frac)| <= digits
    ensures AllDigits(Padded(l.frac, digits))
    ensures var r := ParseLiteral(l, scale, digits);
      && (r.Ok? <==> Value(l.whole) <= MAX_SAFE / scale)
      && (r.Ok? ==> r.value == Signed(Value(l.whole) * scale + Value(Padded(l.frac, digits)), l.neg))
  {
    PaddedDigits(l.frac, digits);
    WholeOrZero(l.whole);
    PartsSummed(if l.whole == "" then "0" else l.whole, Kept(l.frac, digits), l.neg, scale, digits);
  }

  /** An accepted literal: the value over the scale is exactly what is written, and nothing
      but the size of the whole part can still stop it. */
  lemma {:induction false} LiteralValue(l: Literal, scale: int64, digits: nat)
    requires scale == Pow10(digits) && AllDigits(l.whole) && AllDigits(l.frac) && |l.whole| + |l.frac| > 0
    requires |l.frac| > digits ==> |TrimZeros(l.frac)| <= digits
    ensures AllDigits(l.whole + l.frac)
    ensures ParseLiteral(l, scale, digits).Ok? <==> Value(l.whole) <= MAX_SAFE / scale
    ensures ParseLiteral(l, scale, digits).Ok? ==>
      && Abs(ParseLiteral(l, scale, digits).value) * Pow10(|l.frac|) == Value(l.whole + l.frac) * scale
      && (ParseLiteral(l, scale, digits).value != 0 ==> (ParseLiteral(l, scale, digits).value < 0 <==> l.neg))
  {
    LiteralResult(l, scale, digits);
    ValueConcat(l.whole, l.frac);
    if ParseLiteral(l, scale, digits).Ok? {
      LiteralDenotes(l, scale, digits, ParseLiteral(l, scale, digits).value);
    }
  }

  lemma {:induction false} LiteralDenotes(l: Literal, scale: int64, digits: nat, v: int)
    requires scale == Pow10(digits) && AllDigits(l.whole) && AllDigits(l.frac) && AllDigits(Padded(l.frac, digits))
    requires |l.frac| > digits ==> |TrimZeros(l.frac)| <= digits
    requires v == Signed(Value(l.whole) * scale + Value(Padded(l.frac, digits)), l.neg)
    ensures AllDigits(l.whole + l.frac)
    ensures Abs(v) * Pow10(|l.frac|) == Value(l.whole + l.frac) * scale && (v != 0 ==> (v < 0 <==> l.neg))
  {
    FractionValue(l.frac, digits);
    ValueConcat(l.whole, l.frac);
    SignedParts(Value(l.whole), Value(Padded(l.frac, digits)), Value(l.frac), scale, Pow10(|l.frac|), l.neg, v,
        Value(l.whole + l.frac));
  }

  lemma {:induction false} SignedParts(w: nat, f: nat, g: nat, scale: nat, p: nat, neg: bool, v: int, z: nat)
    requires v == Signed(w * scale + f, neg) && f * p == g * scale && z == w * p + g
    ensures Abs(v) * p == z * scale && (v != 0 ==> (v < 0 <==> neg))
  {
    SignOfProduct(w, scale);
    SumOfParts(w, f, g, scale, p);
  }

  lemma {:induction false} SumTimes(a: int, b: int, c: int)
    ensures (a + b) * c == a * c + b * c
  {
  }

  ghost predicate Makes(k: int, p: int, x: int) {
    k * p == x
  }

  /** The written number is a whole number of steps of 1 / 10^digits. */
  ghost predicate Representable(l: Literal, digits: nat) {
    AllDigits(l.whole + l.frac) && exists k: nat :: Makes(k, Pow10(|l.frac|), Value(l.whole + l.frac) * Pow10(digits))
  }

  lemma {:induction false} TrimZerosSplit(s: string)
    ensures |TrimZeros(s)| <= |s| && TrimZeros(s) == s[..|TrimZeros(s)|]
    ensures s == TrimZeros(s) + Zeros(|s| - |TrimZeros(s)|)
    ensures TrimZeros(s) != "" ==> TrimZeros(s)[|TrimZeros(s)| - 1] != '0'
  {
    if s != "" && s[|s| - 1] == '0' {
      var n := |s| - 1;
      TrimZerosSplit(s[..n]);
      assert s == s[..n] + "0";
      assert Zeros(|s| - |TrimZeros(s)|) == Zeros(n - |TrimZeros(s)|) + "0";
    }
  }

  /** Digits beyond the scale can be dropped only if they are zeros. */
  lemma {:induction false} RepresentableFits(l: Literal, digits: nat)
    requires AllDigits(l.whole) && AllDigits(l.frac) && Representable(l, digits)
    ensures |TrimZeros(l.frac)| <= digits
  {
    TrimZerosSplit(l.frac);
    var k: nat :| Makes(k, Pow10(|l.frac|), Value(l.whole + l.frac) * Pow10(digits));
    TailFits(l.whole, TrimZeros(l.frac), |l.frac| - |TrimZeros(l.frac)|, k, digits);
  }

  lemma {:induction false} TailFits(whole: string, g: string, j: nat, k: nat, digits: nat)
    requires AllDigits(whole) && AllDigits(g + Zeros(j)) && AllDigits(whole + (g + Zeros(j)))
    requires g != "" ==> g[|g| - 1] != '0'
    requires Makes(k, Pow10(|g + Zeros(j)|), Value(whole + (g + Zeros(j))) * Pow10(digits))
    ensures |g| <= digits
  {
    if |g| > digits {
      TrimmedTail(whole, g, j);
      LastDigitZero(whole + g, k, |g|, j, digits);
    }
  }

  lemma {:induction false} TrimmedTail(whole: string, g: string, j: nat)
    requires AllDigits(whole) && AllDigits(g + Zeros(j)) && g != ""
    ensures AllDigits(whole + g) && (whole + g)[|whole + g| - 1] == g[|g| - 1]
    ensures AllDigits(whole + (g + Zeros(j)))
    ensures Value(whole + (g + Zeros(j))) == Value(whole + g) * Pow10(j)
  {
    assert forall i :: 0 <= i < |g| ==> (g + Zeros(j))[i] == g[i];
    assert whole + (g + Zeros(j)) == (whole + g) + Zeros(j);
    ShiftValue(whole + g, j);
  }

  lemma {:induction false} LastDigitZero(t: string, k: nat, g: nat, j: nat, digits: nat)
    requires AllDigits(t) && t != "" && g > digits
    requires Makes(k, Pow10(g + j), (Value(t) * Pow10(j)) * Pow10(digits))
    ensures t[|t| - 1] == '0'
  {
    var x, d := Value(t), g - digits;
    Pow10Add(g, j);
    Pow10Add(digits, d);
    PowersCancel(k, x, Pow10(g), Pow10(j), Pow10(digits), Pow10(d), Pow10(d - 1));
    LastDigit(Value(t[..|t| - 1]), t[|t| - 1] as int - '0' as int, k * Pow10(d - 1));
  }

  lemma {:induction false} PowersCancel(k: nat, x: nat, pg: nat, pj: nat, pd: nat, pk: nat, p1: nat)
    requires pj > 0 && pd > 0 && pg == pd * pk && pk == 10 * p1
    requires k * (pg * pj) == (x * pj) * pd
    ensures x == (k * p1) * 10
  {
    Regroup(k, pg, pj, pg * pj);
    Regroup(x, pj, pd, pj * pd);
    Cancel(k * pg, x * pd, pj);
    Regroup(k, pk, pd, pg);
    Cancel(k * pk, x, pd);
    Regroup(k, 10, p1, pk);
  }

  lemma {:induction false} LastDigit(q: nat, c: nat, y: nat)
    requires c < 10 && 10 * q + c == y * 10
    ensures c == 0
  {
  }

  /** Exactly the literals that need no rounding and whose whole part is in range are
      accepted. */
  lemma {:induction false} AcceptedExactly(s: string, scale: int64, digits: nat)
    requires scale == Pow10(digits)
    ensures Parse(s, scale, digits).Ok? <==>
      exists l :: Spells(s, l) && Representable(l, digits) && Value(l.whole) <= MAX_SAFE / scale
  {
    if Parse(s, scale, digits).Ok? {
      var l := AcceptedIsSpelled(s, scale, digits);
      ParseOfSpelled(s, l, scale, digits);
      LiteralValue(l, scale, digits);
      var k: nat := Abs(ParseLiteral(l, scale, digits).value);
      assert Makes(k, Pow10(|l.frac|), Value(l.whole + l.frac) * Pow10(digits));
      assert Representable(l, digits);
    }
    if l :| Spells(s, l) && Representable(l, digits) && Value(l.whole) <= MAX_SAFE / scale {
      RepresentableFits(l, digits);
      ParseOfSpelled(s, l, scale, digits);
      LiteralValue(l, scale, digits);
    }
  }

  /** And what is accepted is never rounded: the result over 10^digits is the number written. */
  lemma {:induction false} AcceptedValue(s: string, l: Literal, scale: int64, digits: nat)
    requires scale == Pow10(digits) && Spells(s, l) && Parse(s, scale, digits).Ok?
    ensures var v := Parse(s, scale, digits).value;
      && Abs(v) * Pow10(|l.frac|) == Value(l.whole + l.frac) * scale
      && (v != 0 ==> (v < 0 <==> l.neg))
  {
    ParseOfSpelled(s, l, scale, digits);
    LiteralValue(l, scale, digits);
  }

  /** Conversely to `RepresentableFits`. */
  lemma {:induction false} FitsRepresentable(l: Literal, digits: nat)
    requires AllDigits(l.whole) && AllDigits(l.frac) && (|l.frac| > digits ==> |TrimZeros(l.frac)| <= digits)
    ensures Representable(l, digits)
  {
    PaddedDigits(l.frac, digits);
    FractionValue(l.frac, digits);
    ValueConcat(l.whole, l.frac);
    var k := PartsMake(Value(l.whole), Value(Padded(l.frac, digits)), Value(l.frac), Pow10(digits), Pow10(|l.frac|),
                       Value(l.whole + l.frac));
  }

  lemma {:induction false} PartsMake(w: nat, f: nat, g: nat, scale: nat, p: nat, x: nat) returns (k: nat)
    requires f * p == g * scale && x == w * p + g
    ensures Makes(k, p, x * scale)
  {
    SignOfProduct(w, scale);
    k := w * scale + f;
    SumOfParts(w, f, g, scale, p);
  }

  lemma {:induction false} PartsRefused(whole: string, frac: string, neg: bool, scale: int64, digits: nat)
    requires scale == Pow10(digits) && AllDigits(whole) && |frac| <= digits && AllDigits(frac)
    ensures ParseParts(whole, frac, neg, scale, digits).Err? <==> Value(whole) > MAX_SAFE / scale
    ensures Value(whole) > MAX_SAFE / scale ==>
      ParseParts(whole, frac, neg, scale, digits) == Err(if Value(whole) <= MAX64 then Overflow else Malformed)
  {
    ShiftValue(frac, digits - |frac|);
    PartsSummed(whole, frac, neg, scale, digits);
    assert MAX_SAFE / scale <= MAX_SAFE;
  }

  /** Why a literal is refused, exactly: it would need rounding, or its whole part is out of
      range, of the scale or of 64 bits. */
  lemma {:induction false} RefusedExactly(s: string, l: Literal, scale: int64, digits: nat)
    requires scale == Pow10(digits) && Spells(s, l)
    ensures Parse(s, scale, digits) == Err(Inexact) <==> !Representable(l, digits)
    ensures Parse(s, scale, digits) == Err(Overflow)
            <==> Representable(l, digits) && MAX_SAFE / scale < Value(l.whole) <= MAX64
    ensures Parse(s, scale, digits) == Err(Malformed) <==> Representable(l, digits) && Value(l.whole) > MAX64
  {
    ParseOfSpelled(s, l, scale, digits);
    LiteralRefused(l, scale, digits);
  }

  lemma {:induction false} LiteralRefused(l: Literal, scale: int64, digits: nat)
    requires scale == Pow10(digits) && AllDigits(l.whole) && AllDigits(l.frac) && |l.whole| + |l.frac| > 0
    ensures ParseLiteral(l, scale, digits) == Err(Inexact) <==> !Representable(l, digits)
    ensures ParseLiteral(l, scale, digits) == Err(Overflow)
            <==> Representable(l, digits) && MAX_SAFE / scale < Value(l.whole) <= MAX64
    ensures ParseLiteral(l, scale, digits) == Err(Malformed) <==> Representable(l, digits) && Value(l.whole) > MAX64
  {
    if |l.frac| > digits && |TrimZeros(l.frac)| > digits {
      if Representable(l, digits) {
        RepresentableFits(l, digits);
      }
    } else {
      FitsRepresentable(l, digits);
      PaddedDigits(l.frac, digits);
      WholeOrZero(l.whole);
      assert MAX_SAFE / scale <= MAX_SAFE;
      PartsRefused(if l.whole == "" then "0" else l.whole, Kept(l.frac, digits), l.neg, scale, digits);
    }
  }

  // ----- writing

  lemma {:induction false} PaddedDecimal(n: nat, digits: nat)
    ensures var t := PadLeft(Decimal(n), digits); |t| > digits && AllDigits(t) && Value(t) == n
  {
    var s := Decimal(n);
    DecimalValue(n);
    if |s| <= digits {
      var j := digits - |s| + 1;
      ZerosAreNothing(j);
      ValueConcat(Zeros(j), s);
    }
  }

  /** What Format writes, taken apart. */
  lemma {:induction false} FormatShape(v: int64, digits: nat) returns (l: Literal)
    ensures Format(v, digits) == (if l.neg then "-" else "") + (l.whole + (if digits == 0 then "" else ".") + l.frac)
    ensures l.neg == (v < 0) && l.whole != "" && |l.frac| == digits
    ensures AllDigits(l.whole) && AllDigits(l.frac)
    ensures Value(l.whole) * Pow10(digits) + Value(l.frac) == Abs(v)
  {
    var t := PadLeft(Decimal(Abs(v)), digits);
    PaddedDecimal(Abs(v), digits);
    l := SplitAt(t, digits, v < 0);
    DecimalValue(Abs(v));
  }

  lemma {:induction false} SplitAt(t: string, digits: nat, neg: bool) returns (l: Literal)
    requires |t| > digits && AllDigits(t)
    ensures l.neg == neg && l.whole != "" && |l.frac| == digits && AllDigits(l.whole) && AllDigits(l.frac)
    ensures Pointed(t, digits) == l.whole + (if digits == 0 then "" else ".") + l.frac
    ensures Value(l.whole) * Pow10(digits) + Value(l.frac) == Value(t)
    ensures l.whole == t[..|t| - digits]
  {
    l := Literal(neg, t[..|t| - digits], t[|t| - digits..]);
    assert t == l.whole + l.frac;
    ValueConcat(l.whole, l.frac);
  }

  lemma {:induction false} LeadingDigit(n: nat)
    requires n > 0
    ensures Decimal(n)[0] != '0'
  {
    if n >= 10 {
      LeadingDigit(n / 10);
      DecimalValue(n / 10);
    }
  }

  lemma {:induction false} PadLeftWhole(n: nat, digits: nat)
    ensures var t := PadLeft(Decimal(n), digits); |t| == digits + 1 || (|t| > digits && t[0] != '0')
  {
    DecimalValue(n);
    if n > 0 {
      LeadingDigit(n);
    }
  }

  /** The text is canonical: a sign only below zero, a point only if there are decimals, and a
      whole part of one digit or without a leading zero. */
  lemma {:induction false} FormatIsCanonical(v: int64, digits: nat) returns (l: Literal)
    ensures Format(v, digits) == (if v < 0 then "-" else "") + (l.whole + (if digits == 0 then "" else ".") + l.frac)
    ensures |l.frac| == digits && AllDigits(l.whole) && AllDigits(l.frac)
    ensures |l.whole| == 1 || (|l.whole| > 1 && l.whole[0] != '0')
  {
    var t := PadLeft(Decimal(Abs(v)), digits);
    PaddedDecimal(Abs(v), digits);
    PadLeftWhole(Abs(v), digits);
    l := SplitAt(t, digits, v < 0);
  }

  lemma {:induction false} CoreIsSpelled(t: string, l: Literal, sign: string, point: string)
    requires Core(t, l, sign, point)
    ensures Spells(t, l)
  {
    assert "" + t + "" == t && AllSpace("");
  }

  lemma {:induction false} FormatIsSpelled(v: int64, digits: nat) returns (l: Literal)
    ensures Spells(Format(v, digits), l) && l.neg == (v < 0) && |l.frac| == digits
    ensures Value(l.whole) * Pow10(digits) + Value(l.frac) == Abs(v)
  {
    l := FormatShape(v, digits);
    var sign, point := if l.neg then "-" else "", if digits == 0 then "" else ".";
    var t := Format(v, digits);
    CoreIsSpelled(t, l, sign, point);
  }

  lemma {:induction false} Quotient(n: nat, q: nat, d: nat, r: nat)
    requires n == q * d + r && r < d
    ensures n / d == q
  {
    DivMod(n, d);
    var k := n / d - q;
    Distribute(n / d, q, d);
    Bound(k, d);
  }

  /** Parse undoes Format exactly on the values whose whole part the parser takes. */
  lemma {:induction false} FormatThenParse(v: int64, scale: int64, digits: nat)
    requires scale == Pow10(digits)
    ensures Parse(Format(v, digits), scale, digits) == Ok(v) <==> Abs(v) / scale <= MAX_SAFE / scale
    ensures Abs(v) / scale > MAX_SAFE / scale ==> Parse(Format(v, digits), scale, digits).Err?
  {
    var l := FormatIsSpelled(v, digits);
    ParseOfSpelled(Format(v, digits), l, scale, digits);
    LiteralValue(l, scale, digits);
    ValueBound(l.frac);
    Quotient(Abs(v), Value(l.whole), scale, Value(l.frac));
    ValueConcat(l.whole, l.frac);
    if Parse(Format(v, digits), scale, digits).Ok? {
      Cancel(Abs(Parse(Format(v, digits), scale, digits).value), Abs(v), scale);
    }
  }

  /** In particular on every value the engine treats as safe. */
  lemma {:induction false} SafeValuesRoundTrip(v: int64, scale: int64, digits: nat)
    requires scale == Pow10(digits) && Abs(v) <= MAX_SAFE
    ensures Parse(Format(v, digits), scale, digits) == Ok(v)
  {
    FormatThenParse(v, scale, digits);
    QuotientMonotone(Abs(v), MAX_SAFE, scale);
  }

  lemma {:induction false} QuotientMonotone(a: nat, b: nat, c: nat)
    requires a <= b && c > 0
    ensures a / c <= b / c
  {
    DivMod(a, c);
    DivMod(b, c);
    CompareQuotients(a / c, a % c, b / c, b % c, c);
  }

  lemma {:induction false} CompareQuotients(k: nat, r: nat, m: nat, q: nat, c: nat)
    requires k * c + r <= m * c + q && q < c
    ensures k <= m
  {
    if k > m {
      Distribute(k, m, c);
      AtLeastOnce(k - m, c);
    }
  }

  /** Formatting what was accepted gives a text with the same value. */
  lemma {:induction false} ParseThenFormat(s: string, scale: int64, digits: nat)
    requires scale == Pow10(digits) && Parse(s, scale, digits).Ok?
    ensures var v := Parse(s, scale, digits).value;
      InInt64(v) && Parse(Format(v, digits), scale, digits) == Ok(v)
  {
    var l := AcceptedIsSpelled(s, scale, digits);
    ParseOfSpelled(s, l, scale, digits);
    var w, f := AcceptedParts(l, scale, digits);
    PartsInRange(w, f, scale);
    FormatThenParse(Parse(s, scale, digits).value, scale, digits);
  }

  lemma {:induction false} PartsInRange(w: nat, f: nat, scale: nat)
    requires 0 < scale <= MAX64 && w <= MAX_SAFE / scale && f < scale
    ensures w * scale + f <= MAX64 && (w * scale + f) / scale == w
  {
    var m := MAX_SAFE / scale;
    DivMod(MAX_SAFE, scale);
    Monotone(w, m, scale);
    if w > 0 {
      AtLeastOnce(w, scale);
    }
    Quotient(w * scale + f, w, scale, f);
  }

  lemma {:induction false} Monotone(a: nat, b: nat, c: nat)
    requires a <= b
    ensures a * c <= b * c
  {
  }

  lemma {:induction false} AcceptedParts(l: Literal, scale: int64, digits: nat) returns (w: nat, f: nat)
    requires scale == Pow10(digits) && ParseLiteral(l, scale, digits).Ok?
    ensures w <= MAX_SAFE / scale && f < scale
    ensures Abs(ParseLiteral(l, scale, digits).value) == w * scale + f
  {
    var whole := if l.whole == "" then "0" else l.whole;
    var kept := Kept(l.frac, digits);
    ShiftValue(kept, digits - |kept|);
    PartsSummed(whole, kept, l.neg, scale, digits);
    w, f := Value(whole), Value(kept + Zeros(digits - |kept|));
    SignOfProduct(w, scale);
  }

  // ----- the parser, step by step

  method OnlyDigits(s: string) returns (ok: bool)
    ensures ok == AllDigits(s)
  {
    for i := 0 to |s|
      invariant forall j :: 0 <= j < i ==> IsDigit(s[j])
    {
      if s[i] < '0' || s[i] > '9' {
        return false;
      }
    }
    return true;
  }

  method ParseScaled(text: string, scale: int64, digits: nat) returns (r: Result<int>)
    requires scale == Pow10(digits)
    ensures r == Parse(text, scale, digits)
  {
    var s := TrimRight(TrimLeft(text));
    if s == "" {
      return Err(Malformed);
    }
    var neg := false;
    if s[0] == '-' {
      neg := true;
      s := s[1..];
    } else if s[0] == '+' {
      s := s[1..];
    }
    if s == "" {
      return Err(Malformed);
    }
    r := ParseMagnitude(s, neg, scale, digits);
  }

  method ParseMagnitude(s: string, neg: bool, scale: int64, digits: nat) returns (r: Result<int>)
    requires scale == Pow10(digits) && s != ""
    ensures r == ParseUnsigned(s, neg, scale, digits)
  {
    var intPart, fracPart := s, "";
    var dot := Dot(s);
    DotRange(s);
    if dot < |s| {
      intPart := s[..dot];
      fracPart := s[dot + 1..];
    } else {
      assert s[..dot] == s;
    }
    if intPart == "" && fracPart == "" {
      return Err(Malformed);
    }
    if |fracPart| > digits {
      var trimmed := TrimZeros(fracPart);
      if |trimmed| > digits {
        return Err(Inexact);
      }
      fracPart := fracPart[..digits];
    }
    if intPart == "" {
      intPart := "0";
    }
    r := SumParts(intPart, fracPart, neg, scale, digits);
  }

  method SumParts(intPart: string, fracPart: string, neg: bool, scale: int64, digits: nat) returns (r: Result<int>)
    requires scale == Pow10(digits) && |fracPart| <= digits
    ensures r == ParseParts(intPart, fracPart, neg, scale, digits)
  {
    var ok := OnlyDigits(intPart);
    if !ok {
      return Err(Malformed);
    }
    ok := OnlyDigits(fracPart);
    if !ok {
      return Err(Malformed);
    }
    var fracPadded := fracPart + Zeros(digits - |fracPart|);
    var whole := ParseInt(intPart);
    if whole.Err? {
      return Err(Malformed);
    }
    if whole.value > MAX_SAFE / scale {
      return Err(Overflow);
    }
    var v: int := whole.value * scale;
    if fracPadded != "" {
      var frac := ParseInt(fracPadded);
      if frac.Err? {
        return Err(Malformed);
      }
      v := v + frac.value;
    }
    if neg {
      v := -v;
    }
    return Ok(v);
  }
}
