/**
  Compact JSON text: the printer behind `JSON.stringify` and a parser for its output.

  A finite number is represented by its shortest decimal text, which is what the printer emits.
 */
module JsonText {
  import opened Texts

  datatype Value =
    | VNull
    | VBool(b: bool)
    | VNum(lexeme: Text)
    | VStr(s: Text)
    | VArr(elems: seq<Value>)
    | VObj(members: seq<Entry<Value>>)

  datatype Parsed<+T> = NoParse | Parsed(value: T, rest: Text)

  const QUOTE: CodeUnit := 34
  const BACKSLASH: CodeUnit := 92
  const COMMA: CodeUnit := 44
  const COLON: CodeUnit := 58
  const OPEN_BRACKET: CodeUnit := 91
  const CLOSE_BRACKET: CodeUnit := 93
  const OPEN_BRACE: CodeUnit := 123
  const CLOSE_BRACE: CodeUnit := 125

  const NULL_TEXT: Text := [110, 117, 108, 108]
  const TRUE_TEXT: Text := [116, 114, 117, 101]
  const FALSE_TEXT: Text := [102, 97, 108, 115, 101]

  lemma TokensAreSpelled()
    ensures [QUOTE] == Literal("\"") && [BACKSLASH] == Literal("\\")
    ensures [COMMA] == Literal(",") && [COLON] == Literal(":")
    ensures [OPEN_BRACKET] == Literal("[") && [CLOSE_BRACKET] == Literal("]")
    ensures [OPEN_BRACE] == Literal("{") && [CLOSE_BRACE] == Literal("}")
    ensures NULL_TEXT == Literal("null") && TRUE_TEXT == Literal("true") && FALSE_TEXT == Literal("false")
  {
  }

  // ---- Strings ------------------------------------------------------------------------------

  function HexDigit(n: int): CodeUnit
    requires 0 <= n < 16
  {
    if n < 10 then 48 + n else 87 + n
  }

  function UnicodeEscape(u: CodeUnit): Text {
    [BACKSLASH, 117, HexDigit(u / 16 / 16 / 16), HexDigit(u / 16 / 16 % 16), HexDigit(u / 16 % 16),
     HexDigit(u % 16)]
  }

  function EscapeUnit(u: CodeUnit): Text {
    if u == 8 then [BACKSLASH, 98]
    else if u == 9 then [BACKSLASH, 116]
    else if u == 10 then [BACKSLASH, 110]
    else if u == 12 then [BACKSLASH, 102]
    else if u == 13 then [BACKSLASH, 114]
    else if u == QUOTE || u == BACKSLASH then [BACKSLASH, u]
    else if u < 32 || IsSurrogate(u) then UnicodeEscape(u)
    else [u]
  }

  /** Surrogate pairs are copied; a lone surrogate is escaped. */
  function Escape(s: Text): Text {
    if s == [] then []
    else if |s| >= 2 && IsHighSurrogate(s[0]) && IsLowSurrogate(s[1]) then s[..2] + Escape(s[2..])
    else EscapeUnit(s[0]) + Escape(s[1..])
  }

  function PrintString(s: Text): Text {
    [QUOTE] + Escape(s) + [QUOTE]
  }

  predicate IsHexDigit(u: int) { 48 <= u < 58 || 97 <= u < 103 }

  function HexValue(u: int): (v: int)
    requires IsHexDigit(u)
    ensures 0 <= v < 16
  {
    if u < 58 then u - 48 else u - 87
  }

  function Unescaped(c: CodeUnit): CodeUnit {
    if c == 98 then 8 else if c == 116 then 9 else if c == 110 then 10
    else if c == 102 then 12 else if c == 114 then 13 else c
  }

  predicate IsShortEscape(c: CodeUnit) {
    c in {98, 116, 110, 102, 114, 34, 92, 47}
  }

  /** What a literal must escape: quotes, backslashes, control units and lone surrogates. */
  predicate NeedsEscape(u: CodeUnit) {
    u < 0x20 || u == 0x22 || u == 0x5C || IsSurrogate(u)
  }

  /** No unit of the text but paired surrogates needs an escape. */
  predicate Copied(s: Text) {
    s == []
    || (!NeedsEscape(s[0]) && Copied(s[1..]))
    || (|s| >= 2 && IsHighSurrogate(s[0]) && IsLowSurrogate(s[1]) && Copied(s[2..]))
  }

  /** A unit is escaped only when it must be, and by the short form wherever there is one. */
  lemma EscapeIsShortest(u: CodeUnit)
    ensures EscapeUnit(u) == [u] <==> !NeedsEscape(u)
    ensures NeedsEscape(u) ==> |EscapeUnit(u)| == if u in {0x08, 0x09, 0x0A, 0x0C, 0x0D, 0x22, 0x5C} then 2 else 6
  {
  }

  lemma {:induction false} EscapeNeverShortens(s: Text)
    ensures |Escape(s)| >= |s|
  {
    if s == [] {
    } else if |s| >= 2 && IsHighSurrogate(s[0]) && IsLowSurrogate(s[1]) {
      EscapeNeverShortens(s[2..]);
    } else {
      EscapeNeverShortens(s[1..]);
    }
  }

  /** A text is printed as it is exactly when nothing in it needs an escape. */
  lemma {:induction false} PlainTextIsCopied(s: Text)
    ensures Escape(s) == s <==> Copied(s)
  {
    if s == [] {
    } else if |s| >= 2 && IsHighSurrogate(s[0]) && IsLowSurrogate(s[1]) {
      PlainTextIsCopied(s[2..]);
      assert s == s[..2] + s[2..];
      assert Escape(s)[2..] == Escape(s[2..]);
    } else {
      EscapeIsShortest(s[0]);
      PlainTextIsCopied(s[1..]);
      EscapeNeverShortens(s[1..]);
      assert s == [s[0]] + s[1..];
      if Escape(s) == s {
        assert |EscapeUnit(s[0])| == 1 && Escape(s)[0] == EscapeUnit(s[0])[0];
        assert EscapeUnit(s[0]) == [s[0]] && Escape(s)[1..] == Escape(s[1..]);
      }
    }
  }

  /** The contents of a string literal up to its closing quote. */
  function ParseStringBody(t: Text): (p: Parsed<Text>)
    ensures p.Parsed? ==> |p.rest| < |t|
  {
    if t == [] || t[0] < 32 then NoParse
    else if t[0] == QUOTE then Parsed([], t[1..])
    else if t[0] != BACKSLASH then Prefixed(t[0], ParseStringBody(t[1..]))
    else if |t| < 2 then NoParse
    else if IsShortEscape(t[1]) then Prefixed(Unescaped(t[1]), ParseStringBody(t[2..]))
    else if |t| >= 6 && t[1] == 117 && forall i | 2 <= i < 6 :: IsHexDigit(t[i]) then
      Prefixed(HexOf(t[2], t[3], t[4], t[5]), ParseStringBody(t[6..]))
    else NoParse
  }

  function Prefixed(u: CodeUnit, p: Parsed<Text>): (q: Parsed<Text>)
    ensures q.Parsed? == p.Parsed?
    ensures p.Parsed? ==> q == Parsed([u] + p.value, p.rest)
  {
    if p.NoParse? then NoParse else Parsed([u] + p.value, p.rest)
  }

  /** The four digits of an escape, read back. */
  function HexOf(a: int, b: int, c: int, d: int): int
    requires IsHexDigit(a) && IsHexDigit(b) && IsHexDigit(c) && IsHexDigit(d)
  {
    ((HexValue(a) * 16 + HexValue(b)) * 16 + HexValue(c)) * 16 + HexValue(d)
  }

  lemma HexDigitReadBack(n: int)
    requires 0 <= n < 16
    ensures IsHexDigit(HexDigit(n)) && HexValue(HexDigit(n)) == n
  {
  }

  lemma HexReadBack(u: CodeUnit)
    ensures forall i | 2 <= i < 6 :: IsHexDigit(UnicodeEscape(u)[i])
    ensures var e := UnicodeEscape(u); HexOf(e[2], e[3], e[4], e[5]) == u
  {
    var v := u / 16;
    var w := v / 16;
    HexDigitReadBack(w / 16);
    HexDigitReadBack(w % 16);
    HexDigitReadBack(v % 16);
    HexDigitReadBack(u % 16);
    assert u == v * 16 + u % 16 && v == w * 16 + v % 16 && w == w / 16 * 16 + w % 16;
  }

  lemma PlainUnitReadBack(u: CodeUnit, t: Text)
    requires u >= 32 && u != QUOTE && u != BACKSLASH
    ensures ParseStringBody([u] + t) == Prefixed(u, ParseStringBody(t))
  {
    assert ([u] + t)[1..] == t;
  }

  lemma UnicodeUnitReadBack(u: CodeUnit, t: Text)
    ensures ParseStringBody(UnicodeEscape(u) + t) == Prefixed(u, ParseStringBody(t))
  {
    var e := UnicodeEscape(u);
    assert (e + t)[6..] == t;
    HexReadBack(u);
    assert forall i | 0 <= i < 6 :: (e + t)[i] == e[i];
  }

  lemma ShortUnitReadBack(u: CodeUnit, c: CodeUnit, t: Text)
    requires IsShortEscape(c) && Unescaped(c) == u
    ensures ParseStringBody([BACKSLASH, c] + t) == Prefixed(u, ParseStringBody(t))
  {
    assert ([BACKSLASH, c] + t)[2..] == t;
  }

  lemma EscapedUnitReadBack(u: CodeUnit, t: Text)
    ensures ParseStringBody(EscapeUnit(u) + t) == Prefixed(u, ParseStringBody(t))
  {
    var e := EscapeUnit(u);
    if e == UnicodeEscape(u) {
      UnicodeUnitReadBack(u, t);
    } else if |e| == 2 {
      ShortUnitReadBack(u, e[1], t);
      assert e == [BACKSLASH, e[1]];
    } else {
      PlainUnitReadBack(u, t);
    }
  }

  lemma PairReadBack(high: CodeUnit, low: CodeUnit, t: Text)
    requires IsHighSurrogate(high) && IsLowSurrogate(low)
    ensures ParseStringBody([high, low] + t) == Prefixed(high, Prefixed(low, ParseStringBody(t)))
  {
    PlainUnitReadBack(low, t);
    PlainUnitReadBack(high, [low] + t);
    assert [high, low] + t == [high] + ([low] + t);
  }

  lemma PairStep(s: Text, close: Text, rest: Text)
    requires |s| >= 2 && IsHighSurrogate(s[0]) && IsLowSurrogate(s[1])
    requires ParseStringBody(Escape(s[2..]) + close) == Parsed(s[2..], rest)
    ensures ParseStringBody(Escape(s) + close) == Parsed(s, rest)
  {
    PairReadBack(s[0], s[1], Escape(s[2..]) + close);
    Associative(s[..2], Escape(s[2..]), close);
    assert s[..2] == [s[0], s[1]] && s == [s[0]] + ([s[1]] + s[2..]);
  }

  lemma UnitStep(s: Text, close: Text, rest: Text)
    requires s != [] && Escape(s) == EscapeUnit(s[0]) + Escape(s[1..])
    requires ParseStringBody(Escape(s[1..]) + close) == Parsed(s[1..], rest)
    ensures ParseStringBody(Escape(s) + close) == Parsed(s, rest)
  {
    EscapedUnitReadBack(s[0], Escape(s[1..]) + close);
    Associative(EscapeUnit(s[0]), Escape(s[1..]), close);
    assert s == [s[0]] + s[1..];
  }

  lemma {:induction false} StringReadBack(s: Text, rest: Text)
    ensures ParseStringBody(Escape(s) + ([QUOTE] + rest)) == Parsed(s, rest)
  {
    var close := [QUOTE] + rest;
    if s == [] {
      assert Escape(s) + close == close && close[1..] == rest;
    } else if |s| >= 2 && IsHighSurrogate(s[0]) && IsLowSurrogate(s[1]) {
      StringReadBack(s[2..], rest);
      PairStep(s, close, rest);
    } else {
      StringReadBack(s[1..], rest);
      UnitStep(s, close, rest);
    }
  }

  lemma PairIsWellFormed(high: CodeUnit, low: CodeUnit)
    requires IsHighSurrogate(high) && IsLowSurrogate(low)
    ensures WellFormedUtf16([high, low])
  {
    assert [high, low][2..] == [];
  }

  lemma {:induction false} EscapeIsWellFormed(s: Text)
    ensures WellFormedUtf16(Escape(s))
  {
    if s == [] {
    } else if |s| >= 2 && IsHighSurrogate(s[0]) && IsLowSurrogate(s[1]) {
      EscapeIsWellFormed(s[2..]);
      PairIsWellFormed(s[0], s[1]);
      assert s[..2] == [s[0], s[1]];
      WellFormedConcat(s[..2], Escape(s[2..]));
    } else {
      EscapeIsWellFormed(s[1..]);
      PlainTextIsWellFormed(EscapeUnit(s[0]));
      WellFormedConcat(EscapeUnit(s[0]), Escape(s[1..]));
    }
  }

  // ---- Numbers ------------------------------------------------------------------------------

  predicate IsNumberUnit(u: int) {
    48 <= u < 58 || u in {43, 45, 46, 69, 101}
  }

  function DigitSpan(t: Text): (n: nat)
    ensures n <= |t| && forall i | 0 <= i < n :: 48 <= t[i] < 58
    ensures n < |t| ==> !(48 <= t[n] < 58)
  {
    if t == [] || !(48 <= t[0] < 58) then 0 else 1 + DigitSpan(t[1..])
  }

  /** Nothing, or 'e' with an optional sign and digits. */
  predicate IsExponent(t: Text) {
    t == []
    || (t[0] in {69, 101}
        && var digits := if |t| > 1 && t[1] in {43, 45} then t[2..] else t[1..];
           digits != [] && DigitSpan(digits) == |digits|)
  }

  /** An optional '.' with digits, then the exponent. */
  predicate IsFraction(t: Text) {
    if t != [] && t[0] == 46 then DigitSpan(t[1..]) > 0 && IsExponent(t[1 + DigitSpan(t[1..])..]) else IsExponent(t)
  }

  /** Digits without a leading zero, then the fraction. */
  predicate IsMagnitude(t: Text) {
    var n := DigitSpan(t);
    n > 0 && (n == 1 || t[0] != 48) && IsFraction(t[n..])
  }

  /** The number texts of RFC 8259, section 6. */
  predicate IsNumber(t: Text) {
    t != [] && IsMagnitude(if t[0] == 45 then t[1..] else t)
  }

  /** At least one digit. */
  predicate IsDigits(t: Text) {
    t != [] && forall u <- t :: 0x30 <= u <= 0x39
  }

  /** The exponent by its parts: a mark, then digits. */
  ghost predicate ExponentForm(t: Text) {
    t == []
    || exists mark: Text, digits: Text ::
         && (mark == Literal("e") || mark == Literal("E") || mark == Literal("e+") || mark == Literal("E+")
             || mark == Literal("e-") || mark == Literal("E-"))
         && IsDigits(digits) && t == mark + digits
  }

  ghost predicate FractionForm(t: Text) {
    ExponentForm(t)
    || exists digits: Text, exponent: Text ::
         IsDigits(digits) && ExponentForm(exponent) && t == Literal(".") + (digits + exponent)
  }

  /** A number by its parts: a sign, digits without a leading zero, a fraction, an exponent. */
  ghost predicate NumberForm(t: Text) {
    exists sign: Text, whole: Text, rest: Text ::
      && (sign == [] || sign == Literal("-"))
      && IsDigits(whole) && (|whole| == 1 || whole[0] != 0x30)
      && FractionForm(rest) && t == sign + (whole + rest)
  }

  /** The span of leading digits cuts a text after them. */
  lemma {:induction false} SpanOfDigits(digits: Text, rest: Text)
    requires (forall u <- digits :: 0x30 <= u <= 0x39) && (rest == [] || !(0x30 <= rest[0] <= 0x39))
    ensures DigitSpan(digits + rest) == |digits|
  {
    if digits == [] {
      assert digits + rest == rest;
    } else {
      assert digits[0] in digits && forall u <- digits[1..] :: u in digits;
      SpanOfDigits(digits[1..], rest);
      assert (digits + rest)[1..] == digits[1..] + rest;
    }
  }

  lemma CutAfter(a: Text, b: Text)
    ensures (a + b)[..|a|] == a && (a + b)[|a|..] == b
  {
  }

  /** The span is digits. */
  lemma SpanIsDigits(t: Text)
    ensures var n := DigitSpan(t); t == t[..n] + t[n..] && forall u <- t[..n] :: 0x30 <= u <= 0x39
  {
  }

  lemma MarksAreSpelled()
    ensures Literal("e") == [101] && Literal("E") == [69] && Literal("e+") == [101, 43] && Literal("E+") == [69, 43]
    ensures Literal("e-") == [101, 45] && Literal("E-") == [69, 45] && Literal(".") == [46] && Literal("-") == [45]
  {
  }

  lemma ExponentIsForm(t: Text)
    ensures IsExponent(t) <==> ExponentForm(t)
  {
    MarksAreSpelled();
    if t != [] {
      var k := if |t| > 1 && t[1] in {43, 45} then 2 else 1;
      assert t == t[..k] + t[k..];
      if IsExponent(t) {
        assert t[..k] == if k == 2 then [t[0], t[1]] else [t[0]];
        assert IsDigits(t[k..]);
      }
      if ExponentForm(t) {
        var mark: Text, digits: Text :| mark in {[101], [69], [101, 43], [69, 43], [101, 45], [69, 45]}
                                        && IsDigits(digits) && t == mark + digits;
        assert digits[0] in digits;
        assert |mark| == k && t[k..] == digits;
        SpanOfDigits(digits, []);
        assert digits + [] == digits;
      }
    }
  }

  lemma FormIsFraction(digits: Text, exponent: Text)
    requires IsDigits(digits) && ExponentForm(exponent)
    ensures IsFraction([46] + (digits + exponent))
  {
    var t := [46] + (digits + exponent);
    MarksAreSpelled();
    ExponentIsForm(exponent);
    SpanOfDigits(digits, exponent);
    CutAfter(digits, exponent);
    CutAfter([46], digits + exponent);
    assert t[1..] == digits + exponent && t[1 + |digits|..] == exponent;
  }

  lemma FractionParts(t: Text) returns (digits: Text, exponent: Text)
    requires IsFraction(t) && t != [] && t[0] == 46
    ensures IsDigits(digits) && IsExponent(exponent) && t == [46] + (digits + exponent)
  {
    var s := t[1..];
    SpanIsDigits(s);
    digits, exponent := s[..DigitSpan(s)], s[DigitSpan(s)..];
    assert t[1 + DigitSpan(s)..] == exponent && t == [46] + s;
  }

  lemma FractionHasForm(t: Text)
    requires IsFraction(t)
    ensures FractionForm(t)
  {
    MarksAreSpelled();
    if t != [] && t[0] == 46 {
      var digits, exponent := FractionParts(t);
      ExponentIsForm(exponent);
    } else {
      ExponentIsForm(t);
    }
  }

  lemma FractionIsForm(t: Text)
    ensures IsFraction(t) <==> FractionForm(t)
  {
    if IsFraction(t) {
      FractionHasForm(t);
    }
    if FractionForm(t) {
      MarksAreSpelled();
      if ExponentForm(t) {
        ExponentIsForm(t);
      } else {
        var digits: Text, exponent: Text :|
          IsDigits(digits) && ExponentForm(exponent) && t == Literal(".") + (digits + exponent);
        FormIsFraction(digits, exponent);
      }
    }
  }

  lemma FormIsMagnitude(whole: Text, rest: Text)
    requires IsDigits(whole) && (|whole| == 1 || whole[0] != 0x30) && FractionForm(rest)
    ensures IsMagnitude(whole + rest)
  {
    MarksAreSpelled();
    FractionIsForm(rest);
    SpanOfDigits(whole, rest);
    CutAfter(whole, rest);
  }

  lemma MagnitudeHasForm(t: Text) returns (whole: Text, rest: Text)
    requires IsMagnitude(t)
    ensures IsDigits(whole) && (|whole| == 1 || whole[0] != 0x30) && FractionForm(rest) && t == whole + rest
  {
    var n := DigitSpan(t);
    SpanIsDigits(t);
    whole, rest := t[..n], t[n..];
    FractionIsForm(rest);
  }

  lemma FormIsNumber(sign: Text, m: Text)
    requires (sign == [] || sign == [45]) && IsMagnitude(m)
    ensures IsNumber(sign + m)
  {
    assert DigitSpan(m) > 0 && 48 <= m[0] < 58;
    assert [] + m == m && ([45] + m)[1..] == m;
  }

  lemma NumberParts(t: Text) returns (sign: Text, m: Text)
    requires IsNumber(t)
    ensures (sign == [] || sign == [45]) && IsMagnitude(m) && t == sign + m
  {
    sign, m := if t[0] == 45 then [t[0]] else [], if t[0] == 45 then t[1..] else t;
  }

  /** The texts that count as numbers are those of the JSON grammar. */
  lemma NumberIsForm(t: Text)
    ensures IsNumber(t) <==> NumberForm(t)
  {
    MarksAreSpelled();
    if IsNumber(t) {
      var sign, m := NumberParts(t);
      var whole, rest := MagnitudeHasForm(m);
    }
    if NumberForm(t) {
      var sign: Text, whole: Text, rest: Text :|
        && (sign == [] || sign == Literal("-")) && IsDigits(whole) && (|whole| == 1 || whole[0] != 0x30)
        && FractionForm(rest) && t == sign + (whole + rest);
      FormIsMagnitude(whole, rest);
      FormIsNumber(sign, whole + rest);
    }
  }

  lemma DigitsAreUnits(t: Text)
    requires forall u <- t :: 48 <= u < 58
    ensures (forall u <- t :: IsNumberUnit(u)) && multiset(t)[45] == 0
  {
    assert 45 in multiset(t) <==> 45 in t;
  }

  lemma SplitUnits(t: Text, k: nat)
    requires k <= |t| && (forall u <- t[..k] :: IsNumberUnit(u)) && (forall u <- t[k..] :: IsNumberUnit(u))
    ensures (forall u <- t :: IsNumberUnit(u)) && multiset(t)[45] == multiset(t[..k])[45] + multiset(t[k..])[45]
  {
    assert t == t[..k] + t[k..];
  }

  lemma ExponentUnits(t: Text)
    requires IsExponent(t)
    ensures (forall u <- t :: IsNumberUnit(u)) && multiset(t)[45] <= 1
  {
    if t != [] {
      var k := if |t| > 1 && t[1] in {43, 45} then 2 else 1;
      DigitsAreUnits(t[k..]);
      assert t[..k] == if k == 2 then [t[0], t[1]] else [t[0]];
      SplitUnits(t, k);
    }
  }

  lemma PointUnits(t: Text)
    requires t != [] && t[0] == 46
    ensures var k := 1 + DigitSpan(t[1..]);
            (forall u <- t[..k] :: IsNumberUnit(u)) && multiset(t[..k])[45] == 0
  {
    var digits := t[1..][..DigitSpan(t[1..])];
    DigitsAreUnits(digits);
    assert t[..1 + DigitSpan(t[1..])] == [t[0]] + digits;
  }

  lemma FractionUnits(t: Text)
    requires IsFraction(t)
    ensures (forall u <- t :: IsNumberUnit(u)) && multiset(t)[45] <= 1
  {
    if t != [] && t[0] == 46 {
      var k := 1 + DigitSpan(t[1..]);
      PointUnits(t);
      ExponentUnits(t[k..]);
      SplitUnits(t, k);
    } else {
      ExponentUnits(t);
    }
  }

  /** A number holds number units only, and at most one minus behind its sign. */
  lemma MagnitudeUnits(t: Text)
    requires IsMagnitude(t)
    ensures 48 <= t[0] < 58 && (forall u <- t :: IsNumberUnit(u)) && multiset(t)[45] <= 1
  {
    var n := DigitSpan(t);
    DigitsAreUnits(t[..n]);
    FractionUnits(t[n..]);
    SplitUnits(t, n);
  }

  lemma NumberUnits(t: Text)
    requires IsNumber(t)
    ensures (48 <= t[0] < 58 || t[0] == 45) && forall u <- t :: IsNumberUnit(u)
  {
    MagnitudeUnits(if t[0] == 45 then t[1..] else t);
    assert t[0] == 45 ==> t == [45] + t[1..];
  }

  lemma NumberMinuses(t: Text)
    requires IsNumber(t) && t[0] != 45
    ensures multiset(t)[45] <= 1
  {
    MagnitudeUnits(t);
  }

  function NumberSpan(t: Text): (n: nat)
    ensures n <= |t|
  {
    if t == [] || !IsNumberUnit(t[0]) then 0 else 1 + NumberSpan(t[1..])
  }

  predicate EndsNumber(rest: Text) {
    rest == [] || !IsNumberUnit(rest[0])
  }

  lemma {:induction false} NumberSpanOf(t: Text, rest: Text)
    requires (forall u <- t :: IsNumberUnit(u)) && EndsNumber(rest)
    ensures NumberSpan(t + rest) == |t|
  {
    if t == [] {
      assert t + rest == rest;
    } else {
      assert (t + rest)[1..] == t[1..] + rest;
      NumberSpanOf(t[1..], rest);
    }
  }

  // ---- Values -------------------------------------------------------------------------------

  predicate Printable(v: Value) {
    match v
    case VNum(lexeme) => IsNumber(lexeme)
    case VArr(elems) => forall e <- elems :: Printable(e)
    case VObj(members) => forall m <- members :: Printable(m.value)
    case _ => true
  }

  function Print(v: Value): Text {
    match v
    case VNull => NULL_TEXT
    case VBool(b) => if b then TRUE_TEXT else FALSE_TEXT
    case VNum(lexeme) => lexeme
    case VStr(s) => PrintString(s)
    case VArr(elems) => [OPEN_BRACKET] + PrintElems(elems) + [CLOSE_BRACKET]
    case VObj(members) => [OPEN_BRACE] + PrintMembers(members) + [CLOSE_BRACE]
  }

  function PrintElems(elems: seq<Value>): Text {
    if elems == [] then []
    else if |elems| == 1 then Print(elems[0])
    else Print(elems[0]) + [COMMA] + PrintElems(elems[1..])
  }

  function PrintMember(m: Entry<Value>): Text {
    PrintString(m.key) + [COLON] + Print(m.value)
  }

  function PrintMembers(members: seq<Entry<Value>>): Text {
    if members == [] then []
    else if |members| == 1 then PrintMember(members[0])
    else PrintMember(members[0]) + [COMMA] + PrintMembers(members[1..])
  }

  /** The compact text, without a space anywhere between the tokens. */
  lemma PrintIsSpelled(first: Value, rest: seq<Value>, m: Entry<Value>, more: seq<Entry<Value>>)
    requires rest != [] && more != []
    ensures Print(VNull) == Literal("null")
    ensures Print(VBool(true)) == Literal("true") && Print(VBool(false)) == Literal("false")
    ensures Print(VStr(m.key)) == Literal("\"") + Escape(m.key) + Literal("\"")
    ensures Print(VArr(rest)) == Literal("[") + PrintElems(rest) + Literal("]")
    ensures PrintElems([first] + rest) == Print(first) + Literal(",") + PrintElems(rest)
    ensures Print(VObj(more)) == Literal("{") + PrintMembers(more) + Literal("}")
    ensures PrintElems([first]) == Print(first)
    ensures var member := PrintString(m.key) + Literal(":") + Print(m.value);
            PrintMembers([m]) == member && PrintMembers([m] + more) == member + Literal(",") + PrintMembers(more)
  {
    TokensAreSpelled();
    assert ([first] + rest)[1..] == rest && ([m] + more)[1..] == more;
  }

  function ParseNumber(t: Text): (p: Parsed<Value>)
    ensures p.Parsed? ==> |p.rest| < |t| && p.value.VNum? && IsNumber(p.value.lexeme)
    ensures p.Parsed? ==> t == p.value.lexeme + p.rest
  {
    var n := NumberSpan(t);
    if n > 0 && IsNumber(t[..n]) then Parsed(VNum(t[..n]), t[n..]) else NoParse
  }

  function ParseLiteral(t: Text): (p: Parsed<Value>)
    ensures p.Parsed? ==> |p.rest| < |t|
  {
    if NULL_TEXT <= t then Parsed(VNull, t[4..])
    else if TRUE_TEXT <= t then Parsed(VBool(true), t[4..])
    else if FALSE_TEXT <= t then Parsed(VBool(false), t[5..])
    else NoParse
  }

  /** The first unit says which kind of value follows. */
  function ParseValue(t: Text): (p: Parsed<Value>)
    ensures p.Parsed? ==> |p.rest| < |t|
    decreases |t|, 0
  {
    if t == [] then NoParse
    else if t[0] == QUOTE then
      match ParseStringBody(t[1..])
      case NoParse => NoParse
      case Parsed(s, rest) => Parsed(VStr(s), rest)
    else if t[0] == OPEN_BRACKET then
      if |t| > 1 && t[1] == CLOSE_BRACKET then Parsed(VArr([]), t[2..])
      else match ParseElems(t[1..])
           case NoParse => NoParse
           case Parsed(elems, rest) => Parsed(VArr(elems), rest)
    else if t[0] == OPEN_BRACE then
      if |t| > 1 && t[1] == CLOSE_BRACE then Parsed(VObj([]), t[2..])
      else match ParseMembers(t[1..])
           case NoParse => NoParse
           case Parsed(members, rest) => Parsed(VObj(members), rest)
    else if 48 <= t[0] < 58 || t[0] == 45 then ParseNumber(t)
    else ParseLiteral(t)
  }

  /** One or more elements and the closing bracket. */
  function ParseElems(t: Text): (p: Parsed<seq<Value>>)
    ensures p.Parsed? ==> |p.rest| < |t|
    decreases |t|, 1
  {
    match ParseValue(t)
    case NoParse => NoParse
    case Parsed(v, rest) =>
      if rest == [] then NoParse
      else if rest[0] == CLOSE_BRACKET then Parsed([v], rest[1..])
      else if rest[0] != COMMA then NoParse
      else match ParseElems(rest[1..])
           case NoParse => NoParse
           case Parsed(vs, rest') => Parsed([v] + vs, rest')
  }

  function ParseMember(t: Text): (p: Parsed<Entry<Value>>)
    ensures p.Parsed? ==> |p.rest| < |t|
    decreases |t|, 1
  {
    if t == [] || t[0] != QUOTE then NoParse
    else match ParseStringBody(t[1..])
         case NoParse => NoParse
         case Parsed(key, rest) =>
           if rest == [] || rest[0] != COLON then NoParse
           else match ParseValue(rest[1..])
                case NoParse => NoParse
                case Parsed(v, rest') => Parsed(Entry(key, v), rest')
  }

  /** One or more members and the closing brace. */
  function ParseMembers(t: Text): (p: Parsed<seq<Entry<Value>>>)
    ensures p.Parsed? ==> |p.rest| < |t|
    decreases |t|, 2
  {
    match ParseMember(t)
    case NoParse => NoParse
    case Parsed(m, rest) =>
      if rest == [] then NoParse
      else if rest[0] == CLOSE_BRACE then Parsed([m], rest[1..])
      else if rest[0] != COMMA then NoParse
      else match ParseMembers(rest[1..])
           case NoParse => NoParse
           case Parsed(ms, rest') => Parsed([m] + ms, rest')
  }

  // ---- The parser undoes the printer ---------------------------------------------------------

  lemma PrintStart(v: Value)
    requires Printable(v)
    ensures Print(v) != [] && Print(v)[0] !in {CLOSE_BRACKET, CLOSE_BRACE, COMMA, COLON}
  {
  }

  lemma {:induction false} ReadBack(v: Value, rest: Text)
    requires Printable(v) && EndsNumber(rest)
    ensures ParseValue(Print(v) + rest) == Parsed(v, rest)
    decreases v, 0
  {
    match v
    case VNull => LiteralReadBack(v, rest);
    case VBool(_) => LiteralReadBack(v, rest);
    case VNum(lexeme) => NumberReadBack(lexeme, rest);
    case VStr(s) =>
      StringReadBack(s, rest);
      QuotedReadBack(Escape(s) + ([QUOTE] + rest), s, rest);
      Enclosed(QUOTE, Escape(s), QUOTE, rest);
    case VArr(elems) =>
      Enclosed(OPEN_BRACKET, PrintElems(elems), CLOSE_BRACKET, rest);
      var t := PrintElems(elems) + ([CLOSE_BRACKET] + rest);
      if elems == [] {
        EmptyArrayReadBack(rest);
        assert t == [CLOSE_BRACKET] + rest;
      } else {
        ElemsReadBack(elems, rest);
        PrintStart(elems[0]);
        assert t[0] == Print(elems[0])[0];
        ArrayReadBack(t, elems, rest);
      }
    case VObj(members) =>
      Enclosed(OPEN_BRACE, PrintMembers(members), CLOSE_BRACE, rest);
      var t := PrintMembers(members) + ([CLOSE_BRACE] + rest);
      if members == [] {
        EmptyObjectReadBack(rest);
        assert t == [CLOSE_BRACE] + rest;
      } else {
        MembersReadBack(members, rest);
        assert t[0] == PrintMember(members[0])[0] == QUOTE;
        ObjectReadBack(t, members, rest);
      }
  }

  lemma Enclosed(open: CodeUnit, body: Text, close: CodeUnit, rest: Text)
    ensures ([open] + body + [close]) + rest == [open] + (body + ([close] + rest))
  {
  }

  lemma LiteralReadBack(v: Value, rest: Text)
    requires v.VNull? || v.VBool?
    ensures ParseValue(Print(v) + rest) == Parsed(v, rest)
  {
    var literal := Print(v);
    var t := literal + rest;
    assert t[..|literal|] == literal && t[|literal|..] == rest;
    assert t[0] == literal[0];
  }

  lemma NumberReadBack(lexeme: Text, rest: Text)
    requires IsNumber(lexeme) && EndsNumber(rest)
    ensures ParseValue(lexeme + rest) == Parsed(VNum(lexeme), rest)
  {
    NumberUnits(lexeme);
    NumberSpanOf(lexeme, rest);
    CutAfter(lexeme, rest);
  }

  lemma QuotedReadBack(t: Text, s: Text, rest: Text)
    requires ParseStringBody(t) == Parsed(s, rest)
    ensures ParseValue([QUOTE] + t) == Parsed(VStr(s), rest)
  {
    var q := [QUOTE] + t;
    assert q[1..] == t && q[0] == QUOTE;
  }

  lemma EmptyArrayReadBack(rest: Text)
    ensures ParseValue([OPEN_BRACKET] + ([CLOSE_BRACKET] + rest)) == Parsed(VArr([]), rest)
  {
    var q := [OPEN_BRACKET] + ([CLOSE_BRACKET] + rest);
    assert q[0] == OPEN_BRACKET && q[1] == CLOSE_BRACKET && q[2..] == rest;
  }

  lemma EmptyObjectReadBack(rest: Text)
    ensures ParseValue([OPEN_BRACE] + ([CLOSE_BRACE] + rest)) == Parsed(VObj([]), rest)
  {
    var q := [OPEN_BRACE] + ([CLOSE_BRACE] + rest);
    assert q[0] == OPEN_BRACE && q[1] == CLOSE_BRACE && q[2..] == rest;
  }

  lemma ArrayReadBack(t: Text, elems: seq<Value>, rest: Text)
    requires ParseElems(t) == Parsed(elems, rest) && t != [] && t[0] != CLOSE_BRACKET
    ensures ParseValue([OPEN_BRACKET] + t) == Parsed(VArr(elems), rest)
  {
    var q := [OPEN_BRACKET] + t;
    assert q[1..] == t && q[0] == OPEN_BRACKET && q[1] == t[0];
  }

  lemma ObjectReadBack(t: Text, members: seq<Entry<Value>>, rest: Text)
    requires ParseMembers(t) == Parsed(members, rest) && t != [] && t[0] != CLOSE_BRACE
    ensures ParseValue([OPEN_BRACE] + t) == Parsed(VObj(members), rest)
  {
    var q := [OPEN_BRACE] + t;
    assert q[1..] == t && q[0] == OPEN_BRACE && q[1] == t[0];
  }

  lemma ElemsLast(t: Text, v: Value, rest: Text)
    requires ParseValue(t) == Parsed(v, [CLOSE_BRACKET] + rest)
    ensures ParseElems(t) == Parsed([v], rest)
  {
    assert ([CLOSE_BRACKET] + rest)[1..] == rest;
  }

  lemma ElemsStep(t: Text, v: Value, tail: Text, vs: seq<Value>, rest: Text)
    requires ParseValue(t) == Parsed(v, [COMMA] + tail) && ParseElems(tail) == Parsed(vs, rest)
    ensures ParseElems(t) == Parsed([v] + vs, rest)
  {
    assert ([COMMA] + tail)[1..] == tail;
  }

  lemma ElemsGlued(head: Text, v: Value, more: Text, close: Text, vs: seq<Value>, rest: Text)
    requires ParseValue(head + ([COMMA] + (more + close))) == Parsed(v, [COMMA] + (more + close))
    requires ParseElems(more + close) == Parsed(vs, rest)
    ensures ParseElems((head + [COMMA] + more) + close) == Parsed([v] + vs, rest)
  {
    ElemsStep(head + ([COMMA] + (more + close)), v, more + close, vs, rest);
    Nested(head, [COMMA], more, close);
  }

  lemma OneElem(v: Value, rest: Text)
    requires ParseValue(Print(v) + ([CLOSE_BRACKET] + rest)) == Parsed(v, [CLOSE_BRACKET] + rest)
    ensures ParseElems(PrintElems([v]) + ([CLOSE_BRACKET] + rest)) == Parsed([v], rest)
  {
    ElemsLast(Print(v) + ([CLOSE_BRACKET] + rest), v, rest);
  }

  lemma {:induction false} ElemsReadBack(elems: seq<Value>, rest: Text)
    requires elems != [] && forall e <- elems :: Printable(e)
    ensures ParseElems(PrintElems(elems) + ([CLOSE_BRACKET] + rest)) == Parsed(elems, rest)
    decreases elems, 1
  {
    var close := [CLOSE_BRACKET] + rest;
    if |elems| == 1 {
      ReadBack(elems[0], close);
      OneElem(elems[0], rest);
      assert elems == [elems[0]];
    } else {
      var more := PrintElems(elems[1..]);
      ReadBack(elems[0], [COMMA] + (more + close));
      ElemsReadBack(elems[1..], rest);
      ElemsGlued(Print(elems[0]), elems[0], more, close, elems[1..], rest);
      assert elems == [elems[0]] + elems[1..];
    }
  }

  lemma MemberStep(t: Text, key: Text, tail: Text, v: Value, rest: Text)
    requires ParseStringBody(t) == Parsed(key, [COLON] + tail) && ParseValue(tail) == Parsed(v, rest)
    ensures ParseMember([QUOTE] + t) == Parsed(Entry(key, v), rest)
  {
    assert ([QUOTE] + t)[1..] == t && ([COLON] + tail)[1..] == tail;
  }

  lemma {:induction false} MemberReadBack(m: Entry<Value>, rest: Text)
    requires Printable(m.value) && EndsNumber(rest)
    ensures ParseMember(PrintMember(m) + rest) == Parsed(m, rest)
    decreases m, 1
  {
    var tail := Print(m.value) + rest;
    ReadBack(m.value, rest);
    StringReadBack(m.key, [COLON] + tail);
    MemberStep(Escape(m.key) + ([QUOTE] + ([COLON] + tail)), m.key, tail, m.value, rest);
    Nested(PrintString(m.key), [COLON], Print(m.value), rest);
    Enclosed(QUOTE, Escape(m.key), QUOTE, [COLON] + tail);
  }

  lemma MembersLast(t: Text, m: Entry<Value>, rest: Text)
    requires ParseMember(t) == Parsed(m, [CLOSE_BRACE] + rest)
    ensures ParseMembers(t) == Parsed([m], rest)
  {
    assert ([CLOSE_BRACE] + rest)[1..] == rest;
  }

  lemma MembersStep(t: Text, m: Entry<Value>, tail: Text, ms: seq<Entry<Value>>, rest: Text)
    requires ParseMember(t) == Parsed(m, [COMMA] + tail) && ParseMembers(tail) == Parsed(ms, rest)
    ensures ParseMembers(t) == Parsed([m] + ms, rest)
  {
    assert ([COMMA] + tail)[1..] == tail;
  }

  lemma MembersGlued(head: Text, m: Entry<Value>, more: Text, close: Text, ms: seq<Entry<Value>>, rest: Text)
    requires ParseMember(head + ([COMMA] + (more + close))) == Parsed(m, [COMMA] + (more + close))
    requires ParseMembers(more + close) == Parsed(ms, rest)
    ensures ParseMembers((head + [COMMA] + more) + close) == Parsed([m] + ms, rest)
  {
    MembersStep(head + ([COMMA] + (more + close)), m, more + close, ms, rest);
    Nested(head, [COMMA], more, close);
  }

  lemma OneMember(m: Entry<Value>, rest: Text)
    requires ParseMember(PrintMember(m) + ([CLOSE_BRACE] + rest)) == Parsed(m, [CLOSE_BRACE] + rest)
    ensures ParseMembers(PrintMembers([m]) + ([CLOSE_BRACE] + rest)) == Parsed([m], rest)
  {
    MembersLast(PrintMember(m) + ([CLOSE_BRACE] + rest), m, rest);
  }

  lemma {:induction false} MembersReadBack(members: seq<Entry<Value>>, rest: Text)
    requires members != [] && forall m <- members :: Printable(m.value)
    ensures ParseMembers(PrintMembers(members) + ([CLOSE_BRACE] + rest)) == Parsed(members, rest)
    decreases members, 2
  {
    var close := [CLOSE_BRACE] + rest;
    if |members| == 1 {
      MemberReadBack(members[0], close);
      OneMember(members[0], rest);
      assert members == [members[0]];
    } else {
      var more := PrintMembers(members[1..]);
      MemberReadBack(members[0], [COMMA] + (more + close));
      MembersReadBack(members[1..], rest);
      MembersGlued(PrintMember(members[0]), members[0], more, close, members[1..], rest);
      assert members == [members[0]] + members[1..];
    }
  }

  /** The whole text parses back to the value it was printed from, with nothing left over. */
  lemma ParserUndoesPrinter(v: Value)
    requires Printable(v)
    ensures ParseValue(Print(v)) == Parsed(v, [])
  {
    ReadBack(v, []);
    assert Print(v) + [] == Print(v);
  }

  lemma PrintInjective(v: Value, w: Value)
    requires Printable(v) && Printable(w) && Print(v) == Print(w)
    ensures v == w
  {
    ParserUndoesPrinter(v);
    ParserUndoesPrinter(w);
  }

  // ---- The printed text survives UTF-8 encoding -----------------------------------------------

  lemma {:induction false} PrintStringIsWellFormed(s: Text)
    ensures WellFormedUtf16(PrintString(s))
  {
    EscapeIsWellFormed(s);
    PlainTextIsWellFormed([QUOTE]);
    WellFormedConcat([QUOTE], Escape(s));
    WellFormedConcat([QUOTE] + Escape(s), [QUOTE]);
  }

  lemma {:induction false} PrintIsWellFormed(v: Value)
    requires Printable(v)
    ensures WellFormedUtf16(Print(v))
    decreases v, 0
  {
    match v
    case VStr(s) =>
      PrintStringIsWellFormed(s);
    case VArr(elems) =>
      ElemsAreWellFormed(elems);
      Bracketed(OPEN_BRACKET, PrintElems(elems), CLOSE_BRACKET);
    case VObj(members) =>
      MembersAreWellFormed(members);
      Bracketed(OPEN_BRACE, PrintMembers(members), CLOSE_BRACE);
    case VNum(lexeme) =>
      NumberUnits(lexeme);
      PlainTextIsWellFormed(lexeme);
    case _ =>
      PlainTextIsWellFormed(Print(v));
  }

  lemma Bracketed(open: CodeUnit, body: Text, close: CodeUnit)
    requires !IsSurrogate(open) && !IsSurrogate(close) && WellFormedUtf16(body)
    ensures WellFormedUtf16([open] + body + [close])
  {
    PlainTextIsWellFormed([open]);
    PlainTextIsWellFormed([close]);
    WellFormedConcat([open], body);
    WellFormedConcat([open] + body, [close]);
  }

  lemma {:induction false} ElemsAreWellFormed(elems: seq<Value>)
    requires forall e <- elems :: Printable(e)
    ensures WellFormedUtf16(PrintElems(elems))
    decreases elems, 1
  {
    if elems != [] {
      PrintIsWellFormed(elems[0]);
      ElemsAreWellFormed(elems[1..]);
      PlainTextIsWellFormed([COMMA]);
      WellFormedConcat(Print(elems[0]), [COMMA]);
      WellFormedConcat(Print(elems[0]) + [COMMA], PrintElems(elems[1..]));
    }
  }

  lemma {:induction false} MembersAreWellFormed(members: seq<Entry<Value>>)
    requires forall m <- members :: Printable(m.value)
    ensures WellFormedUtf16(PrintMembers(members))
    decreases members, 1
  {
    if members != [] {
      var m := members[0];
      PrintIsWellFormed(m.value);
      PrintStringIsWellFormed(m.key);
      MembersAreWellFormed(members[1..]);
      PlainTextIsWellFormed([COLON]);
      PlainTextIsWellFormed([COMMA]);
      WellFormedConcat(PrintString(m.key), [COLON]);
      WellFormedConcat(PrintString(m.key) + [COLON], Print(m.value));
      WellFormedConcat(PrintMember(m), [COMMA]);
      WellFormedConcat(PrintMember(m) + [COMMA], PrintMembers(members[1..]));
    }
  }
}
