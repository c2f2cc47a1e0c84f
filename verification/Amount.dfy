/**
 Amounts as text: `Parse` reads a decimal through a 64-bit integer, `Display` prints one exactly.
 An amount is an integer counting ten-thousandths.
 */
module Amount {

  const SCALE := 10_000

  const I64_MIN := -0x8000_0000_0000_0000
  const I64_MAX := 0x7FFF_FFFF_FFFF_FFFF

  /** The largest number of whole units whose scaled value fits. */
  const MAX_UNITS := 922_337_203_685_477

  predicate InI64(n: int) {
    I64_MIN <= n <= I64_MAX
  }

  // Digits

  predicate IsDigit(c: char) {
    '0' <= c <= '9'
  }

  predicate AllDigits(s: string) {
    forall i | 0 <= i < |s| :: IsDigit(s[i])
  }

  function DigitValue(c: char): nat
    requires IsDigit(c)
  {
    c as int - '0' as int
  }

  function DigitChar(d: nat): (c: char)
    requires d < 10
    ensures IsDigit(c) && DigitValue(c) == d
  {
    "0123456789"[d]
  }

  function Power10(n: nat): (p: nat)
    ensures p >= 1
  {
    if n == 0 then 1 else 10 * Power10(n - 1)
  }

  /** The number a string of digits denotes. */
  function Value(s: string): nat
    requires AllDigits(s)
  {
    if s == "" then 0 else 10 * Value(s[..|s| - 1]) + DigitValue(s[|s| - 1])
  }

  lemma {:induction false} ValueConcat(s: string, t: string)
    requires AllDigits(s) && AllDigits(t)
    ensures AllDigits(s + t)
    ensures Value(s + t) == Value(s) * Power10(|t|) + Value(t)
    decreases |t|
  {
    if t == "" {
      assert s + t == s;
    } else {
      var u := t[..|t| - 1];
      assert (s + t)[..|s + t| - 1] == s + u;
      ValueConcat(s, u);
      assert Value(s) * Power10(|t|) == 10 * (Value(s) * Power10(|u|));
    }
  }

  lemma {:induction false} ValueBound(s: string)
    requires AllDigits(s)
    ensures Value(s) < Power10(|s|)
    decreases |s|
  {
    if s == "" {
    } else {
      ValueBound(s[..|s| - 1]);
    }
  }

  // Reading integers, as the standard library does

  datatype Integer = Number(value: int) | NotANumber

  function Signed(negative: bool, magnitude: nat): int {
    var m: int := magnitude;
    if negative then -m else m
  }

  /** An optional sign, at least one digit, nothing else, and within 64 bits. */
  function ParseI64(s: string): Integer {
    var signed := s != "" && (s[0] == '-' || s[0] == '+');
    var digits := if signed then s[1..] else s;
    if digits == "" || !AllDigits(digits) then NotANumber
    else
      var n := Signed(signed && s[0] == '-', Value(digits));
      if InI64(n) then Number(n) else NotANumber
  }

  // Parsing amounts

  /** What unchecked 64-bit multiplication does on overflow depends on the build. */
  datatype Build = Debug | Release

  datatype Reading = Amount(value: int) | Error | Panic

  function Wrap64(n: int): int {
    (n - I64_MIN) % 0x1_0000_0000_0000_0000 + I64_MIN
  }

  function Scale(build: Build, units: int): Reading {
    if InI64(units * SCALE) then Amount(units * SCALE)
    else if build == Debug then Panic
    else Amount(Wrap64(units * SCALE))
  }

  /** Unicode white space. */
  predicate IsWhitespace(c: char) {
    || '\U{9}' <= c <= '\U{D}' || c == ' ' || c == '\U{85}' || c == '\U{A0}' || c == '\U{1680}'
    || '\U{2000}' <= c <= '\U{200A}' || c == '\U{2028}' || c == '\U{2029}' || c == '\U{202F}'
    || c == '\U{205F}' || c == '\U{3000}'
  }

  function TrimStart(s: string): string {
    if s != "" && IsWhitespace(s[0]) then TrimStart(s[1..]) else s
  }

  function TrimEnd(s: string): string {
    if s != "" && IsWhitespace(s[|s| - 1]) then TrimEnd(s[..|s| - 1]) else s
  }

  function Trim(s: string): string {
    TrimEnd(TrimStart(s))
  }

  /** The position of the first dot, or the length if there is none. */
  function FindDot(s: string): (n: nat)
    ensures n <= |s|
    ensures n < |s| ==> s[n] == '.'
    ensures forall i | 0 <= i < n :: s[i] != '.'
  {
    if s == "" || s[0] == '.' then 0 else 1 + FindDot(s[1..])
  }

  function Zeros(n: nat): string {
    seq(n, _ => '0')
  }

  /** The first four characters, filled up with zeros. */
  function FourDigits(frac: string): (s: string)
    ensures |s| == 4
  {
    if |frac| < 4 then frac + Zeros(4 - |frac|) else frac[..4]
  }

  function Parse(build: Build, s: string): Reading {
    var trimmed := Trim(s);
    var dot := FindDot(trimmed);
    if dot < |trimmed| then
      match ParseI64(trimmed[..dot] + FourDigits(trimmed[dot + 1..]))
      case Number(v) => Amount(v)
      case NotANumber => Error
    else
      match ParseI64(trimmed)
      case Number(v) => Scale(build, v)
      case NotANumber => Error
  }

  // Printing amounts

  function DecimalDigits(n: nat): (s: string)
    ensures AllDigits(s) && s != "" && Value(s) == n
  {
    if n < 10 then [DigitChar(n)]
    else
      var front := DecimalDigits(n / 10);
      var s := front + [DigitChar(n % 10)];
      assert s[..|s| - 1] == front;
      s
  }

  /** Fills up with zeros on the left to at least four characters. */
  function PadLeft4(s: string): string {
    if |s| < 4 then Zeros(4 - |s|) + s else s
  }

  function Magnitude(v: int): nat {
    if v < 0 then -v else v
  }

  function Display(v: int): string {
    var abs := Magnitude(v);
    (if v < 0 then "-" else "") + DecimalDigits(abs / SCALE) + "." + PadLeft4(DecimalDigits(abs % SCALE))
  }
}
