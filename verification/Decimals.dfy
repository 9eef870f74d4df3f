/** Decimal printing and reading of integers: `BigInt.prototype.toString`, `BigInt(text)`, `str(n)` and `int(text)`. */
module Decimals {
  import opened Options
  import opened Texts

  const MINUS: CodeUnit := 45
  const DOT: CodeUnit := 46

  predicate IsDigit(u: int) { 48 <= u < 58 }

  function DigitValue(u: int): (d: nat)
    requires IsDigit(u)
    ensures d < 10
  {
    u - 48
  }

  predicate AllDigits(t: Text) {
    forall u <- t :: IsDigit(u)
  }

  function Digits(n: nat): Text {
    if n < 10 then [48 + n] else Digits(n / 10) + [48 + n % 10]
  }

  /** The number a run of digits denotes; the empty run denotes zero. */
  function NatOf(t: Text): nat
    requires AllDigits(t)
  {
    if t == [] then 0 else NatOf(t[..|t| - 1]) * 10 + DigitValue(t[|t| - 1])
  }

  function Signed(i: int): Text {
    if i < 0 then [MINUS] + Digits(-i) else Digits(i)
  }

  /** Optional minus sign, then at least one digit. */
  function IntOf(t: Text): Option<int> {
    if t != [] && t[0] == MINUS then
      if |t| > 1 && AllDigits(t[1..]) then var n: int := NatOf(t[1..]); Some(-n) else None
    else if t != [] && AllDigits(t) then Some(NatOf(t))
    else None
  }

  lemma {:induction false} DigitsReadBack(n: nat)
    ensures Digits(n) != [] && AllDigits(Digits(n)) && NatOf(Digits(n)) == n
  {
    if n >= 10 {
      DigitsReadBack(n / 10);
      var t := Digits(n);
      assert t[..|t| - 1] == Digits(n / 10);
    } else {
      assert Digits(n)[..0] == [];
    }
  }

  lemma SignedReadBack(i: int)
    ensures Signed(i) != [] && IntOf(Signed(i)) == Some(i)
  {
    DigitsReadBack(if i < 0 then -i else i);
    if i < 0 {
      assert Signed(i)[1..] == Digits(-i);
    } else {
      assert IsDigit(Signed(i)[0]);
    }
  }

  function Pow10(k: nat): (p: nat)
    ensures p > 0
  {
    if k == 0 then 1 else 10 * Pow10(k - 1)
  }

  /** Left padding with '0' up to a width, as `padStart(width, '0')`. */
  function PadStart(t: Text, width: nat): Text
    decreases width - |t|
  {
    if |t| >= width then t else PadStart([48] + t, width)
  }

  lemma NatOfBound(t: Text)
    requires AllDigits(t)
    ensures NatOf(t) < Pow10(|t|)
  {
  }

  lemma {:induction false} NatOfConcat(a: Text, b: Text)
    requires AllDigits(a) && AllDigits(b)
    ensures AllDigits(a + b) && NatOf(a + b) == NatOf(a) * Pow10(|b|) + NatOf(b)
  {
    if b == [] {
      assert a + b == a;
    } else {
      var b' := b[..|b| - 1];
      NatOfConcat(a, b');
      assert (a + b)[..|a + b| - 1] == a + b';
      var d := DigitValue(b[|b| - 1]);
      assert NatOf(a + b) == (NatOf(a) * Pow10(|b'|) + NatOf(b')) * 10 + d;
      assert NatOf(a) * Pow10(|b'|) * 10 == NatOf(a) * Pow10(|b|);
    }
  }

  /** Zeros in front change the width but not the number. */
  lemma PadStartKeepsValue(t: Text, width: nat)
    requires AllDigits(t)
    ensures AllDigits(PadStart(t, width))
    ensures NatOf(PadStart(t, width)) == NatOf(t)
    ensures |PadStart(t, width)| == if |t| >= width then |t| else width
    decreases width - |t|
  {
    if |t| < width {
      NatOfConcat([48], t);
      assert [48][..0] == [];
      PadStartKeepsValue([48] + t, width);
    }
  }

  /** A number below 10^k prints in at most k digits (and always in at least one). */
  lemma DigitsWidth(n: nat, k: nat)
    requires n < Pow10(k)
    ensures |Digits(n)| <= if k == 0 then 1 else k
  {
  }

  /** Where the first point is; the length when there is none. */
  function DotAt(t: Text): (i: nat)
    ensures i <= |t|
    ensures (forall j | 0 <= j < i :: t[j] != DOT) && (i < |t| ==> t[i] == DOT)
  {
    if t == [] || t[0] == DOT then 0 else 1 + DotAt(t[1..])
  }
}
