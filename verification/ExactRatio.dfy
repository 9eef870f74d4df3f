/** The fixed-point ratio printer: BigInt division truncates toward zero, unlike Dafny's. */
module ExactRatio {
  import opened Options
  import opened Texts
  import opened Decimals

  function Abs(a: int): nat {
    if a < 0 then -a else a
  }

  /** `a / b` on BigInts. */
  function Quotient(a: int, b: int): int
    requires b != 0
  {
    if (a < 0) == (b < 0) then Abs(a) / Abs(b) else -(Abs(a) / Abs(b))
  }

  /** `a % b` on BigInts: the sign of `a`. */
  function Remainder(a: int, b: int): int
    requires b != 0
  {
    if a < 0 then -(Abs(a) % Abs(b)) else Abs(a) % Abs(b)
  }

  lemma QuotientAndRemainder(a: int, b: int)
    requires b != 0
    ensures a == b * Quotient(a, b) + Remainder(a, b)
    ensures Abs(Remainder(a, b)) < Abs(b)
    ensures Abs(Quotient(a, b)) == Abs(a) / Abs(b) && Abs(Remainder(a, b)) == Abs(a) % Abs(b)
  {
    var q, m := Abs(a) / Abs(b), Abs(a) % Abs(b);
    Euclid(Abs(a), Abs(b));
    assert b * q == (if b < 0 then -(Abs(b) * q) else Abs(b) * q);
    assert b * -q == -(b * q);
  }

  lemma Euclid(a: nat, b: nat)
    requires b > 0
    ensures a == b * (a / b) + a % b && a % b < b && a / b >= 0
  {
  }

  // ---- Printing -----------------------------------------------------------------------------

  /** The ratio scaled by 10^k and truncated. */
  function Scaled(n: int, d: int, k: nat): int
    requires d != 0
  {
    Quotient(n * Pow10(k), d)
  }

  function Fixed(scaled: int, k: nat): Text {
    var scale := Pow10(k);
    (if scaled < 0 then [MINUS] else [])
    + (Digits(Abs(Quotient(scaled, scale))) + ([DOT] + PadStart(Digits(Abs(Remainder(scaled, scale))), k)))
  }

  function RatioText(n: int, d: int, k: nat): Text
    requires d != 0
  {
    Fixed(Scaled(n, d, k), k)
  }

  // ---- Reading back -------------------------------------------------------------------------

  /** A decimal `units / 10^places`. */
  datatype Decimal = Decimal(units: int, places: nat)

  function ReadUnsigned(t: Text): Option<Decimal> {
    var i := DotAt(t);
    if 0 < i < |t| - 1 && AllDigits(t[..i]) && AllDigits(t[i + 1..]) then
      Some(Decimal(NatOf(t[..i]) * Pow10(|t| - i - 1) + NatOf(t[i + 1..]), |t| - i - 1))
    else None
  }

  function ReadDecimal(t: Text): Option<Decimal> {
    if t != [] && t[0] == MINUS then
      match ReadUnsigned(t[1..])
      case None => None
      case Some(x) => Some(Decimal(-x.units, x.places))
    else ReadUnsigned(t)
  }

  lemma DotAfterDigits(whole: Text, rest: Text)
    requires AllDigits(whole)
    ensures DotAt(whole + ([DOT] + rest)) == |whole|
  {
    var t := whole + ([DOT] + rest);
    assert t[|whole|] == DOT;
    forall j | 0 <= j < |whole| ensures t[j] != DOT {
      assert t[j] == whole[j] && IsDigit(whole[j]);
    }
  }

  lemma CutAtDot(whole: Text, frac: Text)
    ensures var t := whole + ([DOT] + frac);
            t[..|whole|] == whole && t[|whole| + 1..] == frac && |t| - |whole| - 1 == |frac|
  {
  }

  lemma ReadAtDot(t: Text, i: nat, whole: Text, frac: Text)
    requires DotAt(t) == i && 0 < i < |t| - 1 && t[..i] == whole && t[i + 1..] == frac && |t| - i - 1 == |frac|
    requires AllDigits(whole) && AllDigits(frac)
    ensures ReadUnsigned(t) == Some(Decimal(NatOf(whole) * Pow10(|frac|) + NatOf(frac), |frac|))
  {
  }

  lemma UnsignedReadBack(whole: Text, frac: Text)
    requires whole != [] && frac != [] && AllDigits(whole) && AllDigits(frac)
    ensures ReadUnsigned(whole + ([DOT] + frac)) == Some(Decimal(NatOf(whole) * Pow10(|frac|) + NatOf(frac), |frac|))
  {
    var t := whole + ([DOT] + frac);
    DotAfterDigits(whole, frac);
    CutAtDot(whole, frac);
    ReadAtDot(t, |whole|, whole, frac);
  }

  /** The number of printed places: `k`, and one when `k` is zero. */
  function Places(k: nat): nat {
    if k == 0 then 1 else k
  }

  lemma FractionText(m: nat, k: nat)
    requires m < Pow10(k)
    ensures var t := PadStart(Digits(m), k); AllDigits(t) && NatOf(t) == m && |t| == Places(k)
  {
    DigitsReadBack(m);
    DigitsWidth(m, k);
    PadStartKeepsValue(Digits(m), k);
  }

  lemma Recomposed(scaled: int, k: nat)
    ensures var q, m := Abs(Quotient(scaled, Pow10(k))), Abs(Remainder(scaled, Pow10(k)));
            m < Pow10(k) && q * Pow10(Places(k)) + m == if k == 0 then Abs(scaled) * 10 else Abs(scaled)
  {
    QuotientAndRemainder(scaled, Pow10(k));
    Euclid(Abs(scaled), Pow10(k));
    if k == 0 {
      assert Pow10(1) == 10 * Pow10(0);
    }
  }

  lemma SignReadBack(negative: bool, t: Text, x: Decimal)
    requires t != [] && IsDigit(t[0]) && ReadUnsigned(t) == Some(x)
    ensures ReadDecimal((if negative then [MINUS] else []) + t) ==
            Some(Decimal(if negative then -x.units else x.units, x.places))
  {
    assert ([MINUS] + t)[1..] == t && [] + t == t;
  }

  /** The printed text denotes exactly the scaled number over 10^k, sign included. */
  lemma FixedReadBack(scaled: int, k: nat)
    ensures ReadDecimal(Fixed(scaled, k)) == Some(Decimal(if k == 0 then scaled * 10 else scaled, Places(k)))
  {
    var q, m := Abs(Quotient(scaled, Pow10(k))), Abs(Remainder(scaled, Pow10(k)));
    Recomposed(scaled, k);
    var whole, frac := Digits(q), PadStart(Digits(m), k);
    DigitsReadBack(q);
    FractionText(m, k);
    UnsignedReadBack(whole, frac);
    var t := whole + ([DOT] + frac);
    assert t[0] == whole[0] && IsDigit(whole[0]);
    SignReadBack(scaled < 0, t, Decimal(q * Pow10(Places(k)) + m, Places(k)));
  }

  /** A minus sign stands in front of negative numbers only: zero is printed without one. */
  lemma SignIsPrinted(scaled: int, k: nat)
    ensures Fixed(scaled, k) != [] && (Fixed(scaled, k)[0] == MINUS <==> scaled < 0)
  {
    DigitsReadBack(Abs(Quotient(scaled, Pow10(k))));
    var whole := Digits(Abs(Quotient(scaled, Pow10(k))));
    assert whole[0] in whole && IsDigit(whole[0]);
  }

  /** Printing and reading back a ratio gives the truncation of `n * 10^k / d`. */
  lemma RatioReadBack(n: int, d: int, k: nat)
    requires d != 0
    ensures ReadDecimal(RatioText(n, d, k))
         == Some(Decimal(if k == 0 then Scaled(n, d, k) * 10 else Scaled(n, d, k), Places(k)))
  {
    FixedReadBack(Scaled(n, d, k), k);
  }

  /**
    The printed value lies between zero and `n / d`, less than 10^-k away from it: with `s` the scaled
    number, `|s| * |d| <= |n| * 10^k < (|s| + 1) * |d|`, and `s` has the sign of `n / d` or is zero.
   */
  lemma RatioIsTruncated(n: int, d: int, k: nat)
    requires d != 0
    ensures var s := Scaled(n, d, k);
            && Abs(s) * Abs(d) <= Abs(n) * Pow10(k) < (Abs(s) + 1) * Abs(d)
            && (s > 0 ==> (n > 0) == (d > 0)) && (s < 0 ==> (n < 0) != (d < 0))
  {
    var p := Pow10(k);
    AbsProduct(n, p);
    QuotientAndRemainder(n * p, d);
    Euclid(Abs(n) * p, Abs(d));
    Between(Abs(n) * p, Abs(d), Abs(Scaled(n, d, k)));
  }

  lemma AbsProduct(n: int, p: nat)
    requires p > 0
    ensures Abs(n * p) == Abs(n) * p && (n * p < 0 <==> n < 0)
  {
  }

  lemma Between(a: nat, b: nat, q: nat)
    requires b > 0 && q == a / b
    ensures q * b <= a < (q + 1) * b
  {
  }
}
