/** Twelve-place decimal strings and their exact sums, src/blocks/volumeMath.ts:3-43. */
module DecimalStrings {
  import opened Wrappers

  const SCALE: int := 1_000_000_000_000

  // ---------------------------------------------------------------- digits

  function Digit(d: nat): char
    requires d < 10
  {
    "0123456789"[d]
  }

  predicate IsDigit(c: char) { '0' <= c <= '9' }

  function DigitValue(c: char): nat
    requires IsDigit(c)
  {
    c as int - '0' as int
  }

  /** `toString` of a non-negative integer. */
  function Digits(n: nat): string {
    if n < 10 then [Digit(n)] else Digits(n / 10) + [Digit(n % 10)]
  }

  predicate AllDigits(s: string) { forall i | 0 <= i < |s| :: IsDigit(s[i]) }

  function Value(s: string): nat
    requires AllDigits(s)
  {
    if s == "" then 0 else 10 * Value(s[..|s| - 1]) + DigitValue(s[|s| - 1])
  }

  // ---------------------------------------------------------------- BigInt and its toString

  /** White space and line ends of the language, which `BigInt` trims. */
  predicate IsSpace(c: char) {
    var code := c as int;
    || 9 <= code <= 13 || code == 32 || code == 0xA0 || code == 0x1680 || 0x2000 <= code <= 0x200A
    || code == 0x2028 || code == 0x2029 || code == 0x202F || code == 0x205F || code == 0x3000 || code == 0xFEFF
  }

  function TrimStart(s: string): string { if s != "" && IsSpace(s[0]) then TrimStart(s[1..]) else s }

  function TrimEnd(s: string): string { if s != "" && IsSpace(s[|s| - 1]) then TrimEnd(s[..|s| - 1]) else s }

  /** 16, 8 or 2 for a text behind `0x`, `0o` or `0b`, 10 for any other. */
  function Radix(s: string): nat {
    if |s| < 3 || s[0] != '0' then 10
    else if s[1] == 'x' || s[1] == 'X' then 16
    else if s[1] == 'o' || s[1] == 'O' then 8
    else if s[1] == 'b' || s[1] == 'B' then 2 else 10
  }

  function DigitIn(c: char, radix: nat): Option<nat> {
    var v := if IsDigit(c) then DigitValue(c)
             else if 'a' <= c <= 'f' then c as int - 'a' as int + 10
             else if 'A' <= c <= 'F' then c as int - 'A' as int + 10 else radix;
    if v < radix then Some(v) else None
  }

  function ValueIn(s: string, radix: nat): Option<nat> {
    if s == "" then Some(0)
    else
      var front, last := ValueIn(s[..|s| - 1], radix), DigitIn(s[|s| - 1], radix);
      if front.Some? && last.Some? then Some(radix * front.value + last.value) else None
  }

  /** Decimal digits behind an optional sign. */
  function ParseSigned(s: string): Option<int> {
    if s != "" && AllDigits(s) then
      var v: int := Value(s); Some(v)
    else if |s| >= 2 && s[0] == '+' && AllDigits(s[1..]) then
      var v: int := Value(s[1..]); Some(v)
    else if |s| >= 2 && s[0] == '-' && AllDigits(s[1..]) then
      var v: int := Value(s[1..]); Some(-v)
    else None
  }

  /** `BigInt(text)`, `None` where it throws: section 7.1.14 of ECMA-262. An empty text is zero, and
      only decimal digits may have a sign. */
  function ParseBigInt(s: string): Option<int> {
    var t := TrimEnd(TrimStart(s));
    if t == "" then Some(0)
    else if Radix(t) == 10 then ParseSigned(t)
    else
      var v := ValueIn(t[2..], Radix(t));
      if v.Some? then Some(v.value) else None
  }

  function Magnitude(v: int): nat { if v < 0 then -v else v }

  function Signed(v: int, text: string): string { if v < 0 then "-" + text else text }

  function PrintBigInt(v: int): string { Signed(v, Digits(Magnitude(v))) }

  // ---------------------------------------------------------------- Decimal128

  function Zeros(n: nat): string { if n == 0 then "" else Zeros(n - 1) + "0" }

  function PadStart(s: string, n: nat): string { if |s| >= n then s else Zeros(n - |s|) + s }

  /** `padEnd(12, '0').slice(0, 12)`. */
  function TwelvePlaces(s: string): (r: string)
    ensures |s| >= 12 ==> r == s[..12]
  {
    if |s| >= 12 then s[..12] else s + Zeros(12 - |s|)
  }

  /** Up to the first point, or everything. */
  function UntilPoint(s: string): string {
    if s == "" || s[0] == '.' then "" else [s[0]] + UntilPoint(s[1..])
  }

  /** `split('.')`: the first two parts, the second empty where there is none. */
  function SplitPoint(s: string): (string, string) {
    var first := UntilPoint(s);
    UntilPointIsPrefix(s);
    (first, if |first| < |s| then UntilPoint(s[|first| + 1..]) else "")
  }

  lemma UntilPointIsPrefix(s: string)
    ensures |UntilPoint(s)| <= |s|
  {
  }

  /** The digits of an unsigned text, its point dropped and its places filled. */
  function ScaledText(unsigned: string): string {
    var parts := SplitPoint(unsigned);
    (if parts.0 == "" then "0" else parts.0) + TwelvePlaces(parts.1)
  }

  function DecimalToScaledBigInt(s: string): Option<int> {
    if s != "" && s[0] == '-' then ParseBigInt("-" + ScaledText(s[1..])) else ParseBigInt(ScaledText(s))
  }

  function Places(m: nat): string { PadStart(Digits(m % SCALE), 12) }

  function UnsignedText(m: nat): string { Digits(m / SCALE) + "." + Places(m) }

  function FormatDecimal128(v: int): string { Signed(v, UnsignedText(Magnitude(v))) }

  /** A missing operand counts as zero. */
  function OrZero(s: Option<string>): string { if s.Some? then s.value else "0" }

  /** How a kind of number is read and written. */
  datatype Notation = Notation(parse: string -> Option<int>, text: int -> string)

  function Integers(): Notation { Notation(ParseBigInt, PrintBigInt) }

  function Decimals(): Notation { Notation(DecimalToScaledBigInt, FormatDecimal128) }

  /** Both sums parse their operands, failing where either does, and print the exact result. */
  function SumWith(n: Notation, left: Option<string>, right: Option<string>): Option<string> {
    var l, r := n.parse(OrZero(left)), n.parse(OrZero(right));
    if l.Some? && r.Some? then Some(n.text(l.value + r.value)) else None
  }

  function SumBigIntStrings(left: Option<string>, right: Option<string>): Option<string> { SumWith(Integers(), left, right) }

  function SumDecimal128Strings(left: Option<string>, right: Option<string>): Option<string> { SumWith(Decimals(), left, right) }

  // ---------------------------------------------------------------- printing, then parsing

  lemma {:induction false} DigitsAre(n: nat)
    ensures Digits(n) != "" && AllDigits(Digits(n)) && Value(Digits(n)) == n
  {
    if n >= 10 {
      DigitsAre(n / 10);
      assert Digits(n)[..|Digits(n)| - 1] == Digits(n / 10);
    } else {
      assert Digits(n)[..0] == "";
    }
  }

  function Power10(k: nat): nat { if k == 0 then 1 else 10 * Power10(k - 1) }

  lemma {:induction false} DigitsFit(n: nat, k: nat)
    requires n < Power10(k) && 1 <= k
    ensures |Digits(n)| <= k
  {
    if n >= 10 { DigitsFit(n / 10, k - 1); }
  }

  lemma {:induction false} ZerosAre(n: nat)
    ensures |Zeros(n)| == n && AllDigits(Zeros(n)) && Value(Zeros(n)) == 0
  {
    if n > 0 {
      ZerosAre(n - 1);
      assert Zeros(n)[..n - 1] == Zeros(n - 1);
    }
  }

  /** `k` times ten. */
  function Shifted(v: nat, k: nat): nat { if k == 0 then v else 10 * Shifted(v, k - 1) }

  lemma {:induction false} ValueOfConcatenation(a: string, b: string)
    requires AllDigits(a) && AllDigits(b)
    ensures AllDigits(a + b) && Value(a + b) == Shifted(Value(a), |b|) + Value(b)
  {
    if b == "" {
      assert a + b == a;
    } else {
      ValueOfConcatenation(a, b[..|b| - 1]);
      assert (a + b)[..|a + b| - 1] == a + b[..|b| - 1];
    }
  }

  lemma {:induction false} ShiftedZero(k: nat)
    ensures Shifted(0, k) == 0
  {
    if k > 0 { ShiftedZero(k - 1); }
  }

  lemma PaddingKeeps(digits: string, n: nat)
    requires AllDigits(digits)
    ensures |Zeros(n) + digits| == n + |digits| && AllDigits(Zeros(n) + digits) && Value(Zeros(n) + digits) == Value(digits)
  {
    ZerosAre(n);
    ValueOfConcatenation(Zeros(n), digits);
    ShiftedZero(|digits|);
  }

  lemma PadStartPads(digits: string, k: nat)
    requires AllDigits(digits) && |digits| <= k
    ensures |PadStart(digits, k)| == k && AllDigits(PadStart(digits, k)) && Value(PadStart(digits, k)) == Value(digits)
  {
    PaddingKeeps(digits, k - |digits|);
    assert |digits| < k ==> PadStart(digits, k) == Zeros(k - |digits|) + digits;
  }

  lemma PlacesAre(m: nat)
    ensures |Places(m)| == 12 && AllDigits(Places(m)) && Value(Places(m)) == m % SCALE
  {
    assert Power10(12) == SCALE;
    DigitsAre(m % SCALE);
    DigitsFit(m % SCALE, 12);
    PadStartPads(Digits(m % SCALE), 12);
  }

  lemma {:induction false} UntilPointStops(a: string, b: string)
    requires AllDigits(a)
    ensures UntilPoint(a) == a && UntilPoint(a + "." + b) == a
  {
    if a != "" {
      UntilPointStops(a[1..], b);
      assert (a + "." + b)[1..] == a[1..] + "." + b;
    } else {
      assert a + "." + b == "." + b;
    }
  }

  lemma SplitPointAt(a: string, b: string)
    requires AllDigits(a) && AllDigits(b)
    ensures SplitPoint(a + "." + b) == (a, b)
  {
    var s := a + "." + b;
    UntilPointStops(a, b);
    UntilPointStops(b, "");
    assert s[|a| + 1..] == b;
  }

  /** A sign in front of digits. */
  lemma SignedDigitsParse(v: int, digits: string)
    requires digits != "" && AllDigits(digits) && Value(digits) == Magnitude(v)
    ensures ParseBigInt(Signed(v, digits)) == Some(v)
  {
    var text := Signed(v, digits);
    assert IsDigit(text[|text| - 1]) && !IsSpace(text[|text| - 1]) && !IsSpace(text[0]);
    if v < 0 {
      assert text[1..] == digits;
      assert !IsDigit(text[0]);
    }
  }

  lemma BigIntRoundTrip(v: int)
    ensures ParseBigInt(PrintBigInt(v)) == Some(v)
  {
    DigitsAre(Magnitude(v));
    SignedDigitsParse(v, Digits(Magnitude(v)));
  }

  lemma ShiftThree(q: nat, k: nat)
    requires 3 <= k
    ensures Shifted(q, k) == 1000 * Shifted(q, k - 3)
  {
    assert Shifted(q, k - 1) == 10 * Shifted(q, k - 2);
  }

  lemma ShiftTwelve(q: nat)
    ensures Shifted(q, 12) == q * SCALE
  {
    ShiftThree(q, 12);
    ShiftThree(q, 9);
    ShiftThree(q, 6);
    ShiftThree(q, 3);
  }

  /** An unsigned text carries the digits of its magnitude. */
  lemma UnsignedRoundTrip(m: nat)
    ensures var digits := ScaledText(UnsignedText(m)); digits != "" && AllDigits(digits) && Value(digits) == m
    ensures IsDigit(UnsignedText(m)[0])
  {
    var whole, places := Digits(m / SCALE), Places(m);
    DigitsAre(m / SCALE);
    PlacesAre(m);
    SplitPointAt(whole, places);
    assert TwelvePlaces(places) == places;
    ValueOfConcatenation(whole, places);
    ShiftTwelve(m / SCALE);
  }

  /** Printing an integer and parsing the text gives the integer back, negative ones included. */
  lemma DecimalRoundTrip(v: int)
    ensures DecimalToScaledBigInt(FormatDecimal128(v)) == Some(v)
  {
    var text := UnsignedText(Magnitude(v));
    UnsignedRoundTrip(Magnitude(v));
    SignedDigitsParse(v, ScaledText(text));
    if v < 0 { assert FormatDecimal128(v)[1..] == text; }
  }

  /** No number is printed with a zero in front of other digits. */
  lemma {:induction false} NoLeadingZero(n: nat)
    ensures Digits(n) != "" && (Digits(n)[0] == '0' ==> n == 0 && |Digits(n)| == 1)
  {
    if n >= 10 { NoLeadingZero(n / 10); }
  }

  /** A printed Decimal128: a minus only in front of a negative number, its whole part without
      needless zeros, a point, and always twelve places. */
  lemma PrintedDecimal(v: int) returns (whole: string, places: string)
    ensures AllDigits(whole) && whole != "" && (whole[0] == '0' ==> |whole| == 1) && AllDigits(places) && |places| == 12
    ensures FormatDecimal128(v) == (if v < 0 then "-" else "") + (whole + "." + places)
    ensures Value(whole) * 1_000_000_000_000 + Value(places) == if v < 0 then -v else v
  {
    var m := Magnitude(v);
    whole, places := Digits(m / SCALE), Places(m);
    DigitsAre(m / SCALE);
    NoLeadingZero(m / SCALE);
    PlacesAre(m);
    assert FormatDecimal128(v) == if v < 0 then "-" + UnsignedText(m) else UnsignedText(m);
    assert "" + UnsignedText(m) == UnsignedText(m);
  }

  // ---------------------------------------------------------------- what a text denotes

  const DIGITS: string := "0123456789"

  /** The digits mean what they say, and the first one counts most. */
  lemma DigitsMean(c: char, s: string)
    requires AllDigits(s) && IsDigit(c)
    ensures AllDigits(s + [c]) && DIGITS[DigitValue(c)] == c && Value(s + [c]) == 10 * Value(s) + DigitValue(c)
  {
    assert (s + [c])[|s|] == c && (s + [c])[..|s|] == s;
  }

  /** A fraction counts in units of 10^-12: a shorter one ten times more for each place it lacks, a
      longer one without its last places. */
  function FractionUnits(f: string): nat
    requires AllDigits(f)
  {
    if |f| >= 12 then Value(f[..12]) else Shifted(Value(f), 12 - |f|)
  }

  lemma PlacesOf(f: string)
    requires AllDigits(f)
    ensures |TwelvePlaces(f)| == 12 && AllDigits(TwelvePlaces(f)) && Value(TwelvePlaces(f)) == FractionUnits(f)
  {
    if |f| < 12 {
      ZerosAre(12 - |f|);
      ValueOfConcatenation(f, Zeros(12 - |f|));
    }
  }

  lemma WholeAndFraction(whole: string, f: string, unsigned: string)
    requires AllDigits(whole) && AllDigits(f) && SplitPoint(unsigned) == (whole, f)
    ensures var digits := ScaledText(unsigned);
            digits != "" && AllDigits(digits) && Value(digits) == Value(whole) * 1_000_000_000_000 + FractionUnits(f)
  {
    var front := if whole == "" then "0" else whole;
    assert "0"[..0] == "" && Value("0") == 0;
    PlacesOf(f);
    ValueOfConcatenation(front, TwelvePlaces(f));
    ShiftTwelve(Value(front));
  }

  /** A decimal text denotes its whole part and its fraction in units of 10^-12, negated behind a
      minus; either part may be empty. */
  lemma DecimalDenotes(whole: string, f: string, v: int)
    requires AllDigits(whole) && AllDigits(f) && v == Value(whole) * 1_000_000_000_000 + FractionUnits(f)
    ensures DecimalToScaledBigInt(whole + "." + f) == Some(v) && DecimalToScaledBigInt("-" + (whole + "." + f)) == Some(-v)
  {
    SplitPointAt(whole, f);
    assert (whole + "." + f)[0] == if whole == "" then '.' else whole[0];
    UnsignedDenotes(whole, f, whole + "." + f, v);
  }

  /** So does one without a point, or none at all. */
  lemma WholeDenotes(whole: string, v: int)
    requires AllDigits(whole) && v == Value(whole) * 1_000_000_000_000
    ensures DecimalToScaledBigInt(whole) == Some(v) && DecimalToScaledBigInt("-" + whole) == Some(-v)
  {
    UntilPointStops(whole, "");
    assert FractionUnits("") == 0;
    UnsignedDenotes(whole, "", whole, v);
  }

  lemma UnsignedDenotes(whole: string, f: string, unsigned: string, v: int)
    requires AllDigits(whole) && AllDigits(f) && SplitPoint(unsigned) == (whole, f)
    requires v == Value(whole) * 1_000_000_000_000 + FractionUnits(f)
    requires unsigned != "" ==> unsigned[0] != '-'
    ensures DecimalToScaledBigInt(unsigned) == Some(v) && DecimalToScaledBigInt("-" + unsigned) == Some(-v)
  {
    var digits := ScaledText(unsigned);
    assert digits != "" && AllDigits(digits) && Value(digits) == v by { WholeAndFraction(whole, f, unsigned); }
    SignIsTaken(unsigned);
    DigitsParse(v, digits);
  }

  lemma SignIsTaken(unsigned: string)
    requires unsigned != "" ==> unsigned[0] != '-'
    ensures DecimalToScaledBigInt(unsigned) == ParseBigInt(ScaledText(unsigned))
    ensures DecimalToScaledBigInt("-" + unsigned) == ParseBigInt("-" + ScaledText(unsigned))
  {
    assert ("-" + unsigned)[1..] == unsigned;
  }

  /** `BigInt` of digits, and of digits behind a minus. */
  lemma DigitsParse(v: int, digits: string)
    requires 0 <= v && digits != "" && AllDigits(digits) && Value(digits) == v
    ensures ParseBigInt(digits) == Some(v) && ParseBigInt("-" + digits) == Some(-v)
  {
    SignedDigitsParse(v, digits);
    var text := "-" + digits;
    assert text[|text| - 1] == digits[|digits| - 1] && IsDigit(digits[|digits| - 1]);
    assert text[1..] == digits && !IsDigit(text[0]);
  }

  /** White space around a text does not count. */
  lemma {:induction false} SpaceIsTrimmed(space: char, s: string)
    requires IsSpace(space)
    ensures ParseBigInt([space] + s) == ParseBigInt(s) && ParseBigInt(s + [space]) == ParseBigInt(s)
  {
    assert ([space] + s)[1..] == s;
    TrimLast(space, s);
  }

  lemma {:induction false} TrimLast(space: char, s: string)
    requires IsSpace(space)
    ensures TrimEnd(TrimStart(s + [space])) == TrimEnd(TrimStart(s))
  {
    if s == "" {
      assert s + [space] == [space] && [space][1..] == "";
    } else if IsSpace(s[0]) {
      assert (s + [space])[1..] == s[1..] + [space];
      TrimLast(space, s[1..]);
    } else {
      assert (s + [space])[..|s|] == s;
    }
  }

  lemma BareText(s: string)
    requires s != "" && !IsSpace(s[0]) && !IsSpace(s[|s| - 1])
    ensures TrimEnd(TrimStart(s)) == s
  {
  }

  /** Behind `0x`, `0o` and `0b` each digit counts its radix. */
  lemma RadixPrefixes()
    ensures ParseBigInt("0xAf") == Some(175) && ParseBigInt("0o17") == Some(15) && ParseBigInt("0b10") == Some(2)
  {
    BareText("0xAf");
    BareText("0o17");
    BareText("0b10");
    assert "0xAf"[2..] == "Af" && "0o17"[2..] == "17" && "0b10"[2..] == "10";
    TwoDigits('A', 'f', 16);
    TwoDigits('1', '7', 8);
    TwoDigits('1', '0', 2);
  }

  lemma TwoDigits(a: char, b: char, radix: nat)
    requires DigitIn(a, radix).Some? && DigitIn(b, radix).Some?
    ensures ValueIn([a, b], radix) == Some(radix * DigitIn(a, radix).value + DigitIn(b, radix).value)
  {
    assert [a, b][..1] == [a] && [a][..0] == "";
    assert ValueIn([a], radix) == Some(DigitIn(a, radix).value);
  }

  /** A digit too large for its radix, a prefix without digits and one behind a sign are refused. */
  lemma RefusedTexts()
    ensures ParseBigInt("0o8") == None && ParseBigInt("0x") == None && ParseBigInt("-0x1") == None
  {
    BareText("0o8");
    BareText("0x");
    BareText("-0x1");
    assert "0o8"[2..] == "8";
    assert !IsDigit("0x"[1]) && !IsDigit("-0x1"[1..][1]) && !IsDigit("-0x1"[0]);
  }

  // ---------------------------------------------------------------- sums

  ghost predicate RoundTrips(n: Notation) { forall v :: n.parse(n.text(v)) == Some(v) }

  lemma BothRoundTrip()
    ensures RoundTrips(Integers()) && RoundTrips(Decimals())
  {
    forall v ensures ParseBigInt(PrintBigInt(v)) == Some(v) { BigIntRoundTrip(v); }
    forall v ensures DecimalToScaledBigInt(FormatDecimal128(v)) == Some(v) { DecimalRoundTrip(v); }
  }

  /** The text of a sum denotes the sum of what its operands denote. */
  lemma SumDenotes(n: Notation, a: Option<string>, b: Option<string>)
    requires RoundTrips(n)
    ensures SumWith(n, a, b).Some? <==> n.parse(OrZero(a)).Some? && n.parse(OrZero(b)).Some?
    ensures SumWith(n, a, b).Some? ==>
              n.parse(SumWith(n, a, b).value) == Some(n.parse(OrZero(a)).value + n.parse(OrZero(b)).value)
  {
  }

  /** Order does not matter, and neither does grouping: the same text either way. */
  lemma SumsAssociate(n: Notation, a: Option<string>, b: Option<string>, c: Option<string>)
    requires RoundTrips(n)
    ensures SumWith(n, a, b) == SumWith(n, b, a)
    ensures SumWith(n, a, b).Some? && SumWith(n, b, c).Some? ==> SumWith(n, SumWith(n, a, b), c) == SumWith(n, a, SumWith(n, b, c))
  {
    SumDenotes(n, a, b);
    SumDenotes(n, b, c);
  }

  /** The laws the volume tables rely on. */
  lemma VolumeSumsAssociate(a: Option<string>, b: Option<string>, c: Option<string>)
    ensures SumDecimal128Strings(a, b) == SumDecimal128Strings(b, a) && SumBigIntStrings(a, b) == SumBigIntStrings(b, a)
    ensures SumDecimal128Strings(a, b).Some? && SumDecimal128Strings(b, c).Some? ==>
              SumDecimal128Strings(SumDecimal128Strings(a, b), c) == SumDecimal128Strings(a, SumDecimal128Strings(b, c))
    ensures SumBigIntStrings(a, b).Some? && SumBigIntStrings(b, c).Some? ==>
              SumBigIntStrings(SumBigIntStrings(a, b), c) == SumBigIntStrings(a, SumBigIntStrings(b, c))
  {
    BothRoundTrip();
    SumsAssociate(Integers(), a, b, c);
    SumsAssociate(Decimals(), a, b, c);
  }
}
