/**
 What the decimal texts read and printed by `Amount` denote.
 */
module AmountLaws {
  import opened Amount

  datatype Sign = Plain | Plus | Minus

  /** A decimal in writing: an optional sign, digits, and after a dot more digits. */
  datatype Decimal = Decimal(sign: Sign, whole: string, frac: string)

  ghost predicate WellFormed(d: Decimal) {
    AllDigits(d.whole) && AllDigits(d.frac)
  }

  function SignText(s: Sign): string {
    match s
    case Plain => ""
    case Plus => "+"
    case Minus => "-"
  }

  function DottedText(d: Decimal): string {
    SignText(d.sign) + d.whole + "." + d.frac
  }

  function DotlessText(d: Decimal): string {
    SignText(d.sign) + d.whole
  }

  ghost predicate Blank(s: string) {
    forall i | 0 <= i < |s| :: IsWhitespace(s[i])
  }

  /** The decimal is `Numerator(d) / 10^|d.frac|`, up to its sign. */
  ghost function Numerator(d: Decimal): nat
    requires WellFormed(d)
  {
    ValueConcat(d.whole, d.frac);
    Value(d.whole + d.frac)
  }

  /** `m` is the whole part of `n / p * SCALE`. */
  ghost predicate CutsOff(n: nat, p: nat, m: nat) {
    m * p <= n * SCALE < (m + 1) * p
  }

  /** `v` ten-thousandths is the decimal cut off, towards zero, after four places. */
  ghost predicate Truncates(d: Decimal, v: int)
    requires WellFormed(d)
  {
    && CutsOff(Numerator(d), Power10(|d.frac|), Magnitude(v))
    && (d.sign == Minus ==> v <= 0) && (d.sign != Minus ==> 0 <= v)
  }

  // Finding the parts of a text

  lemma {:induction false} TrimStartBlank(pad: string, s: string)
    requires Blank(pad) && (s == "" || !IsWhitespace(s[0]))
    ensures TrimStart(pad + s) == s
    decreases |pad|
  {
    if pad == "" {
      assert pad + s == s;
    } else {
      assert (pad + s)[1..] == pad[1..] + s;
      TrimStartBlank(pad[1..], s);
    }
  }

  lemma {:induction false} TrimEndBlank(s: string, pad: string)
    requires Blank(pad) && (s == "" || !IsWhitespace(s[|s| - 1]))
    ensures TrimEnd(s + pad) == s
    decreases |pad|
  {
    if pad == "" {
      assert s + pad == s;
    } else {
      assert (s + pad)[..|s + pad| - 1] == s + pad[..|pad| - 1];
      TrimEndBlank(s, pad[..|pad| - 1]);
    }
  }

  lemma TrimPadding(left: string, s: string, right: string)
    requires Blank(left) && Blank(right)
    requires s != "" && !IsWhitespace(s[0]) && !IsWhitespace(s[|s| - 1])
    ensures Trim(left + s + right) == s
  {
    assert left + s + right == left + (s + right);
    TrimStartBlank(left, s + right);
    TrimEndBlank(s, right);
  }

  lemma ParseSignedDigits(sign: Sign, digits: string)
    requires AllDigits(digits)
    ensures ParseI64(SignText(sign) + digits) ==
            if digits != "" && InI64(Signed(sign == Minus, Value(digits)))
            then Number(Signed(sign == Minus, Value(digits))) else NotANumber
  {
    var s := SignText(sign) + digits;
    match sign {
      case Plain => assert s == digits;
      case _ => assert s[1..] == digits;
    }
  }

  // The four digits read

  lemma {:induction false} ZerosValue(k: nat)
    ensures AllDigits(Zeros(k)) && Value(Zeros(k)) == 0
    decreases k
  {
    if k == 0 {
    } else {
      assert Zeros(k)[..k - 1] == Zeros(k - 1);
      ZerosValue(k - 1);
    }
  }

  lemma {:induction false} Power10Add(m: nat, n: nat)
    ensures Power10(m + n) == Power10(m) * Power10(n)
    decreases m
  {
    if m == 0 {
    } else {
      Power10Add(m - 1, n);
    }
  }

  lemma ScaleIsPower()
    ensures Power10(4) == SCALE
  {
    assert Power10(2) == 100;
  }

  lemma Associate(a: int, b: int, c: int)
    ensures a * b * c == a * (b * c)
  {}

  lemma Monotone(a: int, b: int, p: nat)
    requires a <= b
    ensures a * p <= b * p
  {}

  lemma Padded(v: nat, four: nat, p: nat, q: nat)
    requires four == v * p && p * q == SCALE && 1 <= q
    ensures CutsOff(v, q, four)
  {
    Associate(v, p, q);
    assert (four + 1) * q == four * q + q;
  }

  lemma CutOff(v: nat, four: nat, rest: nat, p: nat, q: nat)
    requires v == four * q + rest && rest < q && p == SCALE * q
    ensures CutsOff(v, p, four)
  {
    Associate(four, q, SCALE);
    assert (four + 1) * p == four * p + p;
  }

  lemma FourDigitsShort(frac: string)
    requires AllDigits(frac) && |frac| < 4
    ensures AllDigits(FourDigits(frac))
    ensures CutsOff(Value(frac), Power10(|frac|), Value(FourDigits(frac)))
  {
    var k := 4 - |frac|;
    ZerosValue(k);
    ValueConcat(frac, Zeros(k));
    Power10Add(k, |frac|);
    ScaleIsPower();
    var four, p := frac + Zeros(k), Power10(k);
    assert FourDigits(frac) == four && Value(four) == Value(frac) * p;
    Padded(Value(frac), Value(four), p, Power10(|frac|));
  }

  lemma FrontDigits(frac: string, front: string, rest: string)
    requires AllDigits(frac) && frac == front + rest && |front| == 4
    ensures AllDigits(front)
    ensures CutsOff(Value(frac), Power10(|frac|), Value(front))
  {
    assert front == frac[..4] && rest == frac[4..];
    ValueConcat(front, rest);
    ValueBound(rest);
    Power10Add(4, |rest|);
    ScaleIsPower();
    CutOff(Value(frac), Value(front), Value(rest), Power10(|frac|), Power10(|rest|));
  }

  /** Four digits of the fraction, filled up or cut off. */
  lemma FourDigitsCutOff(frac: string)
    requires AllDigits(frac)
    ensures AllDigits(FourDigits(frac))
    ensures CutsOff(Value(frac), Power10(|frac|), Value(FourDigits(frac)))
  {
    if |frac| < 4 {
      FourDigitsShort(frac);
    } else {
      var front, rest := frac[..4], frac[4..];
      assert frac == front + rest && FourDigits(frac) == front;
      FrontDigits(frac, front, rest);
    }
  }

  // Parsing

  lemma WholePart(w: nat, f: nat, p: nat, four: nat)
    requires CutsOff(f, p, four)
    ensures CutsOff(w * p + f, p, w * SCALE + four)
  {
    var x := w * p;
    assert w * SCALE * p == SCALE * x by { Associate(SCALE, w, p); }
    assert (w * SCALE + four) * p == w * SCALE * p + four * p;
    assert (w * SCALE + four + 1) * p == w * SCALE * p + (four + 1) * p;
  }

  /** The digits the parser puts together are those of the truncated decimal. */
  lemma DigitsRead(d: Decimal)
    requires WellFormed(d)
    ensures AllDigits(d.whole + FourDigits(d.frac))
    ensures Truncates(d, Signed(d.sign == Minus, Value(d.whole + FourDigits(d.frac))))
  {
    var four := FourDigits(d.frac);
    FourDigitsCutOff(d.frac);
    ValueConcat(d.whole, four);
    ValueConcat(d.whole, d.frac);
    ScaleIsPower();
    WholePart(Value(d.whole), Value(d.frac), Power10(|d.frac|), Value(four));
  }

  lemma {:induction false} FindDotAt(s: string, n: nat)
    requires n < |s| && s[n] == '.' && forall i | 0 <= i < n :: s[i] != '.'
    ensures FindDot(s) == n
  {}

  lemma ConcatAssociates(s: string, t: string, u: string)
    ensures s + t + u == s + (t + u)
  {}

  lemma DottedSplits(d: Decimal)
    requires WellFormed(d)
    ensures var s, n := DottedText(d), |DotlessText(d)|;
            n < |s| && FindDot(s) == n && s[..n] == DotlessText(d) && s[n + 1..] == d.frac
  {
    var s, n := DottedText(d), |DotlessText(d)|;
    assert s[n] == '.' && s[..n] == DotlessText(d) && s[n + 1..] == d.frac;
    TextEnds(d);
    FindDotAt(s, n);
  }

  /** The text the parser makes of a dotted decimal. */
  lemma ParseReads(build: Build, left: string, d: Decimal, right: string)
    requires WellFormed(d) && Blank(left) && Blank(right)
    ensures Parse(build, left + DottedText(d) + right) ==
            match ParseI64(SignText(d.sign) + (d.whole + FourDigits(d.frac)))
            case Number(v) => Amount(v)
            case NotANumber => Error
  {
    TextEnds(d);
    TrimPadding(left, DottedText(d), right);
    DottedSplits(d);
    ConcatAssociates(SignText(d.sign), d.whole, FourDigits(d.frac));
  }

  /**
   A dotted decimal, blanks around it or not, reads as its truncation towards zero to four places
   if that fits 64 bits, and is refused if not.
   */
  lemma ParseDotted(build: Build, left: string, d: Decimal, right: string, v: int)
    requires WellFormed(d) && Blank(left) && Blank(right) && Truncates(d, v)
    ensures Parse(build, left + DottedText(d) + right) == if InI64(v) then Amount(v) else Error
  {
    var digits := d.whole + FourDigits(d.frac);
    DigitsRead(d);
    TruncationUnique(d, v, Signed(d.sign == Minus, Value(digits)));
    ParseSignedDigits(d.sign, digits);
    ParseReads(build, left, d, right);
  }

  lemma TextEnds(d: Decimal)
    requires WellFormed(d)
    ensures var s := DottedText(d); !IsWhitespace(s[0]) && !IsWhitespace(s[|s| - 1])
    ensures d.whole != "" ==>
              var t := DotlessText(d); !IsWhitespace(t[0]) && !IsWhitespace(t[|t| - 1])
    ensures forall i | 0 <= i < |DotlessText(d)| :: DotlessText(d)[i] != '.'
  {
    var t := DotlessText(d);
    forall i | 0 <= i < |t| ensures t[i] == '-' || t[i] == '+' || IsDigit(t[i]) {}
    var s := DottedText(d);
    assert s[0] == '.' || s[0] == t[0];
  }

  lemma Squeezed(m: int, n: int, p: nat, x: int)
    requires x < (m + 1) * p && n * p <= x
    ensures n <= m
  {
    if m + 1 <= n {
      Monotone(m + 1, n, p);
      assert false;
    }
  }

  lemma TruncationUnique(d: Decimal, v: int, w: int)
    requires WellFormed(d) && Truncates(d, v) && Truncates(d, w)
    ensures v == w
  {
    Squeezed(Magnitude(v), Magnitude(w), Power10(|d.frac|), Numerator(d) * SCALE);
    Squeezed(Magnitude(w), Magnitude(v), Power10(|d.frac|), Numerator(d) * SCALE);
  }

  /** Every decimal has a truncation. */
  lemma TruncationExists(d: Decimal) returns (v: int)
    requires WellFormed(d)
    ensures Truncates(d, v)
  {
    DigitsRead(d);
    v := Signed(d.sign == Minus, Value(d.whole + FourDigits(d.frac)));
  }

  /** A decimal without a dot is a number of units, read as 64 bits and then scaled unchecked. */
  lemma ParseDotless(build: Build, left: string, d: Decimal, right: string)
    requires WellFormed(d) && d.whole != "" && Blank(left) && Blank(right)
    ensures var units := Signed(d.sign == Minus, Value(d.whole));
            Parse(build, left + DotlessText(d) + right) == if InI64(units) then Scale(build, units) else Error
  {
    TextEnds(d);
    TrimPadding(left, DotlessText(d), right);
    var dot := FindDot(DotlessText(d));
    assert dot == |DotlessText(d)|;
    ParseSignedDigits(d.sign, d.whole);
  }

  lemma WrapDiffers(n: int)
    ensures Wrap64(n) == n <==> InI64(n)
  {}

  /** Scaling is exact if and only if the number of units is within bounds. */
  lemma ScaleExactIffInBounds(build: Build, units: int)
    ensures Scale(build, units) == Amount(units * SCALE) <==> -MAX_UNITS <= units <= MAX_UNITS
  {
    WrapDiffers(units * SCALE);
  }

  lemma ScaledExactly(w: nat, p: nat, n: nat)
    requires n == w * p && 1 <= p
    ensures CutsOff(n, p, w * SCALE)
  {
    Associate(SCALE, w, p);
    assert (w * SCALE + 1) * p == w * SCALE * p + p;
  }

  lemma ZeroFraction(d: Decimal)
    requires WellFormed(d) && Value(d.frac) == 0
    ensures Truncates(d, Signed(d.sign == Minus, Value(d.whole)) * SCALE)
  {
    var w := Value(d.whole);
    ValueConcat(d.whole, d.frac);
    ScaledExactly(w, Power10(|d.frac|), Numerator(d));
    assert Magnitude(Signed(d.sign == Minus, w) * SCALE) == w * SCALE;
  }

  /**
   Writing zeros after a dot changes nothing exactly when the units are within bounds, or do not
   even fit 64 bits themselves. In between, the dotless form is not refused but overflows.
   */
  lemma DotMatters(build: Build, d: Decimal)
    requires WellFormed(d) && d.whole != "" && Value(d.frac) == 0
    ensures var units := Signed(d.sign == Minus, Value(d.whole));
            Parse(build, DottedText(d)) == Parse(build, DotlessText(d)) <==>
            -MAX_UNITS <= units <= MAX_UNITS || !InI64(units)
  {
    var units := Signed(d.sign == Minus, Value(d.whole));
    ZeroFraction(d);
    ParseDotted(build, "", d, "", units * SCALE);
    ParseDotless(build, "", d, "");
    assert "" + DottedText(d) + "" == DottedText(d) && "" + DotlessText(d) + "" == DotlessText(d);
    ScaleExactIffInBounds(build, units);
  }

  /** Whole units, printed without a dot, are scaled unchecked if they fit 64 bits. */
  lemma ParseUnits(build: Build, n: nat)
    ensures Parse(build, DecimalDigits(n)) == if n <= I64_MAX then Scale(build, n) else Error
  {
    var d := Decimal(Plain, DecimalDigits(n), "");
    ParseDotless(build, "", d, "");
    assert "" + DotlessText(d) + "" == DecimalDigits(n);
  }

  // Printing

  lemma {:induction false} DigitCount(n: nat, k: nat)
    requires 1 <= k && n < Power10(k)
    ensures |DecimalDigits(n)| <= k
    decreases k
  {
    if 10 <= n {
      assert Power10(1) == 10;
      DigitCount(n / 10, k - 1);
    }
  }

  lemma PadLeftValue(s: string)
    requires AllDigits(s) && |s| <= 4
    ensures AllDigits(PadLeft4(s)) && |PadLeft4(s)| == 4 && Value(PadLeft4(s)) == Value(s)
  {
    if |s| < 4 {
      ZerosValue(4 - |s|);
      ValueConcat(Zeros(4 - |s|), s);
    }
  }

  function Printed(v: int): Decimal {
    var abs := Magnitude(v);
    Decimal(if v < 0 then Minus else Plain, DecimalDigits(abs / SCALE), PadLeft4(DecimalDigits(abs % SCALE)))
  }

  /** What is printed denotes the amount exactly, with at least one digit before the dot and four after. */
  lemma DisplayExact(v: int)
    ensures var d := Printed(v);
            && Display(v) == DottedText(d)
            && WellFormed(d) && d.whole != "" && |d.frac| == 4
            && (d.sign == Minus <==> v < 0) && d.sign != Plus
            && Numerator(d) == Magnitude(v)
  {
    var d, abs := Printed(v), Magnitude(v);
    ScaleIsPower();
    DigitCount(abs % SCALE, 4);
    PadLeftValue(DecimalDigits(abs % SCALE));
    ValueConcat(d.whole, d.frac);
  }

  /** Parsing gives a printed amount back if and only if it fits 64 bits; otherwise it is refused. */
  lemma RoundTrip(build: Build, v: int)
    ensures Parse(build, Display(v)) == if InI64(v) then Amount(v) else Error
  {
    DisplayExact(v);
    ScaleIsPower();
    var d := Printed(v);
    assert Truncates(d, v);
    ParseDotted(build, "", d, "", v);
    assert "" + Display(v) + "" == Display(v);
  }

  /** No two amounts are printed alike, whatever their size. */
  lemma DisplayInjective(v: int, w: int)
    requires Display(v) == Display(w)
    ensures v == w
  {
    DisplayExact(v);
    DisplayExact(w);
    var c, d, s := Printed(v), Printed(w), Display(v);
    assert c.frac == s[|s| - 4..] == d.frac;
    assert DotlessText(c) == s[..|s| - 5] == DotlessText(d);
    assert s[0] == '-' <==> v < 0;
    assert s[0] == '-' <==> w < 0;
    assert c.whole == DotlessText(c)[|SignText(c.sign)|..];
    assert d.whole == DotlessText(d)[|SignText(d.sign)|..];
  }

  // The one text of an amount

  /** No zero in front, unless it is all there is. */
  ghost predicate Canonical(s: string) {
    AllDigits(s) && s != "" && (s[0] == '0' ==> |s| == 1)
  }

  lemma {:induction false} DigitsCanonical(n: nat)
    ensures Canonical(DecimalDigits(n))
    ensures DecimalDigits(n)[0] == '0' ==> n == 0
    decreases n
  {
    if n < 10 {
    } else {
      DigitsCanonical(n / 10);
    }
  }

  lemma ValuePositive(s: string)
    requires AllDigits(s) && s != "" && s[0] != '0'
    ensures 0 < Value(s)
    decreases |s|
  {
    if |s| == 1 {
      assert s[..0] == "";
    } else {
      ValuePositive(s[..|s| - 1]);
    }
  }

  lemma {:induction false} CanonicalUnique(s: string)
    requires Canonical(s)
    ensures DecimalDigits(Value(s)) == s
    decreases |s|
  {
    var front, last := s[..|s| - 1], s[|s| - 1];
    assert s == front + [last];
    if |s| == 1 {
      assert Value(front) == 0;
    } else {
      ValuePositive(front);
      CanonicalUnique(front);
      assert Value(s) / 10 == Value(front) && Value(s) % 10 == DigitValue(last);
    }
  }

  lemma LastDigit(a: nat, d: nat, b: nat, e: nat)
    requires 10 * a + d == 10 * b + e && d < 10 && e < 10
    ensures a == b && d == e
  {}

  lemma {:induction false} SameWidthUnique(s: string, t: string)
    requires AllDigits(s) && AllDigits(t) && |s| == |t| && Value(s) == Value(t)
    ensures s == t
    decreases |s|
  {
    if s == "" {
    } else {
      var k := |s| - 1;
      LastDigit(Value(s[..k]), DigitValue(s[k]), Value(t[..k]), DigitValue(t[k]));
      SameWidthUnique(s[..k], t[..k]);
      assert s == s[..k] + [s[k]] && t == t[..k] + [t[k]];
    }
  }

  lemma FourPlaces(frac: string)
    requires AllDigits(frac) && |frac| == 4
    ensures Value(frac) < SCALE && PadLeft4(DecimalDigits(Value(frac))) == frac
  {
    ValueBound(frac);
    ScaleIsPower();
    DigitCount(Value(frac), 4);
    PadLeftValue(DecimalDigits(Value(frac)));
    SameWidthUnique(PadLeft4(DecimalDigits(Value(frac))), frac);
  }

  /** `whole` and `frac` are the digits before and after the dot of an amount as it is to be printed. */
  ghost predicate PlacesOf(v: int, whole: string, frac: string) {
    && Canonical(whole)
    && AllDigits(frac) && |frac| == 4
    && Value(whole) * 10_000 + Value(frac) == if v < 0 then -v else v
  }

  lemma PlacesExist(v: int) returns (whole: string, frac: string)
    ensures PlacesOf(v, whole, frac) && Display(v) == (if v < 0 then "-" else "") + whole + "." + frac
  {
    var abs := Magnitude(v);
    whole, frac := DecimalDigits(abs / SCALE), PadLeft4(DecimalDigits(abs % SCALE));
    DigitsCanonical(abs / SCALE);
    ScaleIsPower();
    DigitCount(abs % SCALE, 4);
    PadLeftValue(DecimalDigits(abs % SCALE));
  }

  lemma PlacesUnique(v: int, whole: string, frac: string)
    requires PlacesOf(v, whole, frac)
    ensures Display(v) == (if v < 0 then "-" else "") + whole + "." + frac
  {
    FourPlaces(frac);
    CanonicalUnique(whole);
    var abs := Magnitude(v);
    assert abs / SCALE == Value(whole) && abs % SCALE == Value(frac);
  }

  /**
   An amount has just one printed text: a minus exactly if it is negative, the whole part without
   needless zeros in front, a dot, and four places, which together denote the amount.
   */
  lemma DisplayIsTheOnlyText(v: int, text: string)
    ensures text == Display(v) <==>
            exists whole, frac ::
              PlacesOf(v, whole, frac) && text == (if v < 0 then "-" else "") + whole + "." + frac
  {
    if text == Display(v) {
      var whole, frac := PlacesExist(v);
    }
    if whole, frac :| PlacesOf(v, whole, frac) && text == (if v < 0 then "-" else "") + whole + "." + frac {
      PlacesUnique(v, whole, frac);
    }
  }

  // Which texts are read

  /** `s` writes the integer `n`: an optional sign, then digits. */
  ghost predicate Writes(s: string, n: int, sign: string, digits: string) {
    && (sign == "" || sign == "+" || sign == "-") && digits != "" && AllDigits(digits)
    && s == sign + digits
    && if sign == "-" then n + Value(digits) == 0 else n == Value(digits)
  }

  /** An integer is read from exactly the texts that write it, if it fits 64 bits; all others are refused. */
  lemma IntegerTexts(s: string, n: int)
    ensures ParseI64(s) == Number(n) <==>
            && -0x8000_0000_0000_0000 <= n <= 0x7FFF_FFFF_FFFF_FFFF
            && exists sign, digits :: Writes(s, n, sign, digits)
  {
    if ParseI64(s) == Number(n) {
      var signed := s != "" && (s[0] == '-' || s[0] == '+');
      var sign, digits := if signed then s[..1] else "", if signed then s[1..] else s;
      assert s == sign + digits;
      assert Writes(s, n, sign, digits);
    }
    if sign, digits :| Writes(s, n, sign, digits) {
      var kind := if sign == "-" then Minus else if sign == "+" then Plus else Plain;
      assert SignText(kind) + digits == s;
      ParseSignedDigits(kind, digits);
    }
  }

  lemma JunkInInteger(s: string, i: nat)
    requires i < |s| && !('0' <= s[i] <= '9') && s[i] != '+' && s[i] != '-'
    ensures ParseI64(s) == NotANumber
  {
    var signed := s != "" && (s[0] == '-' || s[0] == '+');
    var digits := if signed then s[1..] else s;
    assert if signed then digits[i - 1] == s[i] else digits[i] == s[i];
  }

  /**
   Any character other than a digit, a sign or the first dot makes a text unreadable, unless it comes
   after the fourth place. So does the lack of any character.
   */
  lemma JunkRefused(build: Build, s: string, i: nat)
    requires var t := Trim(s);
             || t == ""
             || (i < |t| && !('0' <= t[i] <= '9') && t[i] != '+' && t[i] != '-'
                 && (t[i] == '.' ==> exists j :: 0 <= j < i && t[j] == '.')
                 && forall j | 0 <= j && j + 4 < i :: t[j] != '.')
    ensures Parse(build, s) == Error
  {
    var t := Trim(s);
    var dot := FindDot(t);
    if t == "" {
    } else if dot == |t| {
      JunkInInteger(t, i);
    } else {
      var four := FourDigits(t[dot + 1..]);
      var read := t[..dot] + four;
      var k := if i < dot then i else i - 1;
      assert i != dot && i <= dot + 4;
      assert i > dot ==> four[i - dot - 1] == t[dot + 1..][i - dot - 1] == t[i];
      assert read[k] == t[i];
      JunkInInteger(read, k);
    }
  }

  /** The characters trimmed are the white space of Unicode and no others. */
  lemma WhitespaceCharacters(c: char)
    ensures IsWhitespace(c) <==>
            c in {'\t', '\n', '\U{B}', '\U{C}', '\r', ' ', '\U{85}', '\U{A0}', '\U{1680}', '\U{2000}', '\U{2001}',
                  '\U{2002}', '\U{2003}', '\U{2004}', '\U{2005}', '\U{2006}', '\U{2007}', '\U{2008}', '\U{2009}',
                  '\U{200A}', '\U{2028}', '\U{2029}', '\U{202F}', '\U{205F}', '\U{3000}'}
  {}

  /** Blanks, tabs and line ends around a decimal are ignored. */
  lemma BlanksIgnored(build: Build, left: string, d: Decimal, right: string, v: int)
    requires WellFormed(d) && Truncates(d, v)
    requires forall i | 0 <= i < |left| :: left[i] in {' ', '\t', '\n', '\r'}
    requires forall i | 0 <= i < |right| :: right[i] in {' ', '\t', '\n', '\r'}
    ensures Parse(build, left + DottedText(d) + right) == if InI64(v) then Amount(v) else Error
  {
    ParseDotted(build, left, d, right, v);
  }

  // Where reading goes wrong

  /** Units out of bounds panic in a debug build; a release build keeps the product modulo 2^64. */
  lemma ScaleOutOfBounds(units: int) returns (v: int, k: int)
    requires !(-922_337_203_685_477 <= units <= 922_337_203_685_477)
    ensures Scale(Debug, units) == Panic
    ensures Scale(Release, units) == Amount(v) && v == units * 10_000 + k * 0x1_0000_0000_0000_0000
    ensures -0x8000_0000_0000_0000 <= v <= 0x7FFF_FFFF_FFFF_FFFF
  {
    var n := units * SCALE;
    v := Wrap64(n);
    k := -((n - I64_MIN) / 0x1_0000_0000_0000_0000);
  }

  lemma FourZeros()
    ensures PadLeft4(DecimalDigits(0)) == "0000"
  {
    assert DecimalDigits(0) == "0" && Zeros(3) + "0" == "0000";
  }

  lemma DisplayParts(v: nat, whole: nat, rest: nat, frac: string)
    requires v / SCALE == whole && v % SCALE == rest && PadLeft4(DecimalDigits(rest)) == frac
    ensures Display(v) == DecimalDigits(whole) + ("." + frac)
  {
    var digits := DecimalDigits(whole);
    assert "" + digits == digits;
    ConcatAssociates(digits, ".", frac);
  }

  lemma DisplayUnits(n: nat)
    ensures Display(n * SCALE) == DecimalDigits(n) + ".0000"
  {
    FourZeros();
    DisplayParts(n * SCALE, n, 0, "0000");
    assert "." + "0000" == ".0000";
  }

  /** With a dot they are scaled exactly, or refused. */
  lemma ParseUnitsDotted(build: Build, n: nat)
    ensures Parse(build, DecimalDigits(n) + ".0000") == if n * SCALE <= I64_MAX then Amount(n * SCALE) else Error
  {
    DisplayUnits(n);
    RoundTrip(build, n * SCALE);
  }

  /** So many units that the scaled number just passes the 64-bit range once over. */
  const OVERFLOWING_UNITS := 1_844_674_407_370_956

  lemma DigitsSnoc(n: nat, s: string, m: nat, d: nat)
    requires 0 < n && d < 10 && m == 10 * n + d && DecimalDigits(n) == s
    ensures DecimalDigits(m) == s + [DigitChar(d)]
  {
    assert m / 10 == n && m % 10 == d;
  }

  // In the lemmas below a parameter with a fixed value stands for a literal, which the verifier
  // would try to evaluate through all its digits.

  lemma OverflowingDigits(n: nat)
    requires n == 1
    ensures DecimalDigits(n * OVERFLOWING_UNITS) == "1844674407370956"
  {
    var n8 := n * 18446744;
    DigitsUpTo8(n);
    var n9, n10, n11, n12 := 10 * n8, 100 * n8 + 7, 1_000 * n8 + 73, 10_000 * n8 + 737;
    DigitsSnoc(n8, "18446744", n9, 0);
    DigitsSnoc(n9, "184467440", n10, 7);
    DigitsSnoc(n10, "1844674407", n11, 3);
    DigitsSnoc(n11, "18446744073", n12, 7);
    var n13, n14, n15 := 10 * n12, 100 * n12 + 9, 1_000 * n12 + 95;
    DigitsSnoc(n12, "184467440737", n13, 0);
    DigitsSnoc(n13, "1844674407370", n14, 9);
    DigitsSnoc(n14, "18446744073709", n15, 5);
    DigitsSnoc(n15, "184467440737095", n * OVERFLOWING_UNITS, 6);
  }

  lemma DigitsUpTo8(n: nat)
    requires n == 1
    ensures DecimalDigits(n * 18446744) == "18446744"
  {
    DigitsSnoc(n, "1", n * 18, 8);
    DigitsSnoc(n * 18, "18", n * 184, 4);
    DigitsSnoc(n * 184, "184", n * 1844, 4);
    DigitsSnoc(n * 1844, "1844", n * 18446, 6);
    DigitsSnoc(n * 18446, "18446", n * 184467, 7);
    DigitsSnoc(n * 184467, "184467", n * 1844674, 4);
    DigitsSnoc(n * 1844674, "1844674", n * 18446744, 4);
  }

  lemma ScaleOverflows(units: nat)
    requires units == OVERFLOWING_UNITS
    ensures !InI64(units * SCALE) && Wrap64(units * SCALE) == 8384
  {}

  /** A text that overflows: a debug build panics, a release build reads 0.8384, and with a dot it is refused. */
  lemma OverflowWitness(build: Build, text: string)
    requires text == "1844674407370956"
    ensures Parse(Debug, text) == Panic
    ensures Parse(Release, text) == Amount(8384)
    ensures Parse(build, text + ".0000") == Error
  {
    var n := 1;
    var units := n * OVERFLOWING_UNITS;
    OverflowingDigits(n);
    ScaleOverflows(units);
    ParseUnits(Debug, units);
    ParseUnits(Release, units);
    ParseUnitsDotted(build, units);
  }

  /** A printed amount just beyond 64 bits cannot be read again. */
  lemma TooLargeToReread(build: Build)
    ensures Parse(build, Display(I64_MAX + 1)) == Error
  {
    RoundTrip(build, I64_MAX + 1);
  }
}
