/** Money texts to integer minor units, by integer arithmetic only. Inputs are already trimmed. */
module MinorUnits {
  import opened Options
  import opened Texts
  import opened Decimals

  const ZERO: Text := [48]

  /** `Rejected` is the thrown error. */
  datatype Minor = Minor(text: Text) | Rejected

  predicate IsNatural(t: Text) {
    t != [] && AllDigits(t)
  }

  /** Ad-platform micros; an absent value counts as zero. */
  function MicrosToMinor(value: Option<Text>): Minor {
    match value
    case None => Minor(ZERO)
    case Some(t) => if IsNatural(t) then Minor(Digits(NatOf(t) / 10_000)) else Rejected
  }

  function Whole(t: Text): Text {
    t[..DotAt(t)]
  }

  /** The digits after the point; empty when there is no point. */
  function Fraction(t: Text): Text {
    if DotAt(t) < |t| then t[DotAt(t) + 1..] else []
  }

  /** Digits, then optionally a point and digits. */
  predicate IsDecimal(t: Text) {
    IsNatural(Whole(t)) && (DotAt(t) < |t| ==> IsNatural(Fraction(t)))
  }

  /** `frac.padEnd(2, '0').slice(0, 2)` */
  function TwoDigits(frac: Text): Text {
    if |frac| >= 2 then frac[..2] else if |frac| == 1 then frac + [48] else [48, 48]
  }

  function MajorToMinor(value: Option<Text>): Minor {
    match value
    case None => Minor(ZERO)
    case Some(t) =>
      if t == [] then Minor(ZERO)
      else if IsDecimal(t) then
        assert AllDigits(TwoDigits(Fraction(t)));
        Minor(Digits(NatOf(Whole(t)) * 100 + NatOf(TwoDigits(Fraction(t)))))
      else Rejected
  }

  /** `a` is the whole number of hundredths in `f / p`. */
  predicate Truncates(a: nat, f: nat, p: nat) {
    a * p <= 100 * f < (a + 1) * p
  }

  lemma ShortFraction(frac: Text)
    requires AllDigits(frac) && |frac| < 2
    ensures AllDigits(TwoDigits(frac)) && NatOf(TwoDigits(frac)) * Pow10(|frac|) == 100 * NatOf(frac)
  {
  }

  lemma CutOff(a: nat, f: nat, b: nat, p: nat, q: nat)
    requires f == a * p + b && b < p && q == 100 * p
    ensures Truncates(a, f, q)
  {
  }

  lemma LongFraction(frac: Text)
    requires AllDigits(frac) && |frac| >= 2
    ensures AllDigits(TwoDigits(frac)) && AllDigits(frac[2..])
    ensures NatOf(frac) == NatOf(TwoDigits(frac)) * Pow10(|frac| - 2) + NatOf(frac[2..])
    ensures NatOf(frac[2..]) < Pow10(|frac| - 2)
    ensures Pow10(|frac|) == 100 * Pow10(|frac| - 2)
  {
    assert frac == TwoDigits(frac) + frac[2..];
    NatOfConcat(TwoDigits(frac), frac[2..]);
    NatOfBound(frac[2..]);
  }

  lemma Exactly(a: nat, f: nat, p: nat)
    requires a * p == 100 * f && p > 0
    ensures Truncates(a, f, p)
  {
  }

  lemma TwoDigitsOf(frac: Text)
    requires AllDigits(frac)
    ensures AllDigits(TwoDigits(frac))
    ensures Truncates(NatOf(TwoDigits(frac)), NatOf(frac), Pow10(|frac|))
  {
    if |frac| < 2 {
      ShortFraction(frac);
      var a, f, p := NatOf(TwoDigits(frac)), NatOf(frac), Pow10(|frac|);
      Exactly(a, f, p);
    } else {
      LongFraction(frac);
      var a, f, b, p, q := NatOf(TwoDigits(frac)), NatOf(frac), NatOf(frac[2..]), Pow10(|frac| - 2), Pow10(|frac|);
      CutOff(a, f, b, p, q);
    }
  }

  lemma Scaled(w: nat, a: nat, f: nat, p: nat)
    requires Truncates(a, f, p)
    ensures Truncates(w * 100 + a, w * p + f, p)
  {
  }

  /** Digits, or digits, a point and digits. */
  ghost predicate IsPlainDecimal(t: Text) {
    || (t != [] && AllDigits(t))
    || exists w: Text, f: Text :: w != [] && f != [] && AllDigits(w) && AllDigits(f) && t == w + Literal(".") + f
  }

  lemma CutAtPoint(w: Text, f: Text)
    requires AllDigits(w)
    ensures var t := w + [DOT] + f; DotAt(t) == |w| && Whole(t) == w && Fraction(t) == f
  {
    var t := w + [DOT] + f;
    assert t[|w|] == DOT && forall j | 0 <= j < |w| :: t[j] == w[j] && w[j] in w;
  }

  lemma NoPoint(t: Text)
    requires AllDigits(t)
    ensures DotAt(t) == |t| && Whole(t) == t
  {
    forall i | 0 <= i < |t| ensures t[i] != DOT {
      assert t[i] in t && IsDigit(t[i]);
    }
  }

  /** The cut at the first point finds exactly those. */
  lemma DecimalForm(t: Text)
    ensures IsDecimal(t) <==> IsPlainDecimal(t)
  {
    assert Literal(".") == [DOT];
    if IsDecimal(t) {
      assert t == if DotAt(t) < |t| then Whole(t) + [DOT] + Fraction(t) else Whole(t);
    }
    if IsPlainDecimal(t) {
      if t != [] && AllDigits(t) {
        NoPoint(t);
      } else {
        var w: Text, f: Text :| w != [] && f != [] && AllDigits(w) && AllDigits(f) && t == w + Literal(".") + f;
        CutAtPoint(w, f);
      }
    }
  }

  /**
    An accepted amount `w.f` becomes the hundredth part count of its exact value, cut off and never rounded:
    the value is `NatOf(w f) / 10^|f|`, and the result is the whole number of hundredths in it.
   */
  lemma MajorIsTruncated(t: Text)
    requires t != []
    ensures IsPlainDecimal(t) <==> MajorToMinor(Some(t)).Minor?
    ensures IsPlainDecimal(t) ==>
              var r := MajorToMinor(Some(t)).text;
              && IsNatural(r) && AllDigits(Whole(t) + Fraction(t))
              && Truncates(NatOf(r), NatOf(Whole(t) + Fraction(t)), Pow10(|Fraction(t)|))
  {
    DecimalForm(t);
    if IsDecimal(t) {
      TwoDigitsOf(Fraction(t));
      NatOfConcat(Whole(t), Fraction(t));
      var a := NatOf(TwoDigits(Fraction(t)));
      DigitsReadBack(NatOf(Whole(t)) * 100 + a);
      Scaled(NatOf(Whole(t)), a, NatOf(Fraction(t)), Pow10(|Fraction(t)|));
    }
  }

  /** Micros become the whole number of minor units in them; anything but digits is refused. */
  lemma MicrosAreTruncated(t: Text)
    ensures IsNatural(t) <==> MicrosToMinor(Some(t)).Minor?
    ensures IsNatural(t) ==>
              var r := MicrosToMinor(Some(t)).text;
              IsNatural(r) && NatOf(r) * 10_000 <= NatOf(t) < (NatOf(r) + 1) * 10_000
  {
    if IsNatural(t) {
      DigitsReadBack(NatOf(t) / 10_000);
    }
  }

  /** An absent amount, or an empty one in major units, is zero. */
  lemma AbsentIsZero()
    ensures MajorToMinor(None) == MajorToMinor(Some([])) == MicrosToMinor(None) == Minor(Literal("0"))
  {
    assert Literal("0") == ZERO;
  }

  /** Results are canonical numerals, so equal amounts are equal texts. */
  lemma MinorTextsAreCanonical(a: Option<Text>, b: Option<Text>)
    requires MajorToMinor(a).Minor? && MicrosToMinor(b).Minor?
    ensures IsNatural(MajorToMinor(a).text) && IsNatural(MicrosToMinor(b).text)
    ensures MajorToMinor(a) == MicrosToMinor(b) <==> NatOf(MajorToMinor(a).text) == NatOf(MicrosToMinor(b).text)
  {
    var m, n := MajorUnits(a), MinorOfMicros(b);
    DigitsReadBack(m);
    DigitsReadBack(n);
  }

  /** The number behind an accepted amount in major units. */
  function MajorUnits(value: Option<Text>): (n: nat)
    requires MajorToMinor(value).Minor?
    ensures MajorToMinor(value).text == Digits(n)
  {
    if value.None? || value.value == [] then 0
    else
      assert AllDigits(TwoDigits(Fraction(value.value)));
      NatOf(Whole(value.value)) * 100 + NatOf(TwoDigits(Fraction(value.value)))
  }

  /** The number behind accepted micros. */
  function MinorOfMicros(value: Option<Text>): (n: nat)
    requires MicrosToMinor(value).Minor?
    ensures MicrosToMinor(value).text == Digits(n)
  {
    if value.None? then 0 else NatOf(value.value) / 10_000
  }
}
