/** A model of std::stoi on a std::string with the default base 10.
    std::stoi hands the string to strtol (section 7.22.1.4 of ISO C11): leading
    white space is skipped, an optional '+' or '-' is taken, then the longest run
    of decimal digits; whatever follows is ignored. No digit at all makes stoi
    throw invalid_argument; a value outside the range of a 32-bit int makes it
    throw out_of_range. */
module StringToInt {

  const INT_MIN: int := -0x8000_0000
  const INT_MAX: int := 0x7fff_ffff

  /** What std::stoi does: return a value or throw one of its two exceptions. */
  datatype Conversion = Converted(value: int) | InvalidArgument | OutOfRange

  /** isspace in the "C" locale: space, \t, \n, \v, \f, \r. */
  predicate IsSpace(c: char) {
    c == ' ' || ('\t' <= c <= '\r')
  }

  predicate IsDigit(c: char) {
    '0' <= c <= '9'
  }

  predicate AllDigits(s: string) {
    forall i :: 0 <= i < |s| ==> IsDigit(s[i])
  }

  predicate AllSpaces(s: string) {
    forall i :: 0 <= i < |s| ==> IsSpace(s[i])
  }

  /** The value of a decimal digit (0 for any other character, which the
      parse never asks about). */
  function DigitValue(c: char): (d: nat)
    ensures d < 10
  {
    if IsDigit(c) then c as int - '0' as int else 0
  }

  function DigitChar(d: nat): (c: char)
    requires d < 10
    ensures IsDigit(c) && DigitValue(c) == d
  {
    ('0' as int + d) as char
  }

  /** The number of leading white-space characters of s. */
  function SpaceCount(s: string): (n: nat)
    ensures n <= |s|
  {
    if |s| == 0 || !IsSpace(s[0]) then 0 else 1 + SpaceCount(s[1..])
  }

  /** The length of the run of decimal digits that starts s. */
  function DigitCount(s: string): (n: nat)
    ensures n <= |s|
  {
    if |s| == 0 || !IsDigit(s[0]) then 0 else 1 + DigitCount(s[1..])
  }

  /** SpaceCount is the length of the longest white-space prefix. */
  lemma {:induction false} SpaceCountIsRun(s: string)
    ensures AllSpaces(s[..SpaceCount(s)])
    ensures SpaceCount(s) < |s| ==> !IsSpace(s[SpaceCount(s)])
  {
    if |s| > 0 && IsSpace(s[0]) {
      SpaceCountIsRun(s[1..]);
      assert s[..SpaceCount(s)] == [s[0]] + s[1..][..SpaceCount(s[1..])];
    }
  }

  /** DigitCount is the length of the longest digit prefix. */
  lemma {:induction false} DigitCountIsRun(s: string)
    ensures AllDigits(s[..DigitCount(s)])
    ensures DigitCount(s) < |s| ==> !IsDigit(s[DigitCount(s)])
  {
    if |s| > 0 && IsDigit(s[0]) {
      DigitCountIsRun(s[1..]);
      assert s[..DigitCount(s)] == [s[0]] + s[1..][..DigitCount(s[1..])];
    }
  }

  /** The value of a string of decimal digits, most significant first. */
  function DecimalValue(ds: string): nat {
    if ds == [] then 0
    else DecimalValue(ds[..|ds| - 1]) * 10 + DigitValue(ds[|ds| - 1])
  }

  /** What is left after the leading white space and the optional sign. */
  function Unsigned(s: string): string {
    var rest := s[SpaceCount(s)..];
    if |rest| > 0 && (rest[0] == '+' || rest[0] == '-') then rest[1..] else rest
  }

  predicate IsNegative(s: string) {
    var rest := s[SpaceCount(s)..];
    |rest| > 0 && rest[0] == '-'
  }

  /** std::stoi(s): strtol's parse, then the range check for a 32-bit int. */
  function Stoi(s: string): (r: Conversion)
    ensures r.Converted? ==> INT_MIN <= r.value <= INT_MAX
  {
    var body := Unsigned(s);
    var n := DigitCount(body);
    if n == 0 then InvalidArgument
    else
      var magnitude: int := DecimalValue(body[..n]);
      var v: int := if IsNegative(s) then -magnitude else magnitude;
      if v < INT_MIN || v > INT_MAX then OutOfRange else Converted(v)
  }

  /** The canonical decimal rendering of n, without sign or leading zeros. */
  function Decimal(n: nat): (s: string)
    ensures |s| > 0 && AllDigits(s)
    ensures s[0] != '0' || n == 0
  {
    if n < 10 then [DigitChar(n)]
    else Decimal(n / 10) + [DigitChar(n % 10)]
  }

  lemma {:induction false} DecimalRoundTrip(n: nat)
    ensures DecimalValue(Decimal(n)) == n
  {
    if n >= 10 {
      var d := Decimal(n / 10);
      assert (d + [DigitChar(n % 10)])[..|d|] == d;
      DecimalRoundTrip(n / 10);
    }
  }

  lemma {:induction false} DigitCountOfRun(ds: string, t: string)
    requires AllDigits(ds)
    requires t == [] || !IsDigit(t[0])
    ensures DigitCount(ds + t) == |ds|
  {
    if ds != [] {
      assert (ds + t)[1..] == ds[1..] + t;
      DigitCountOfRun(ds[1..], t);
    } else {
      assert ds + t == t;
    }
  }

  /** White space in front adds its length to the white-space count. */
  lemma {:induction false} SpaceCountOfRun(w: string, t: string)
    requires AllSpaces(w)
    ensures SpaceCount(w + t) == |w| + SpaceCount(t)
  {
    if w != [] {
      assert (w + t)[1..] == w[1..] + t;
      SpaceCountOfRun(w[1..], t);
    } else {
      assert w + t == t;
    }
  }

  /** Leading white space does not change what stoi makes of a string. */
  lemma StoiSkipsSpace(w: string, x: string)
    requires AllSpaces(w)
    ensures Stoi(w + x) == Stoi(x)
  {
    SpaceCountOfRun(w, x);
    assert (w + x)[|w| + SpaceCount(x)..] == x[SpaceCount(x)..];
  }

  /** After white space, a sign character is taken and what follows is parsed. */
  lemma SignIsTaken(w: string, sign: char, x: string)
    requires AllSpaces(w) && (sign == '+' || sign == '-')
    ensures Unsigned(w + [sign] + x) == x
    ensures IsNegative(w + [sign] + x) == (sign == '-')
  {
    var rest := [sign] + x;
    assert w + [sign] + x == w + rest;
    SpaceCountOfRun(w, rest);
    assert SpaceCount(rest) == 0;
    assert (w + rest)[|w|..] == rest;
    assert rest[1..] == x;
  }

  /** After white space, a digit is not a sign: the parse starts at it. */
  lemma DigitIsNoSign(w: string, x: string)
    requires AllSpaces(w) && x != [] && IsDigit(x[0])
    ensures Unsigned(w + x) == x && !IsNegative(w + x)
  {
    SpaceCountOfRun(w, x);
    assert SpaceCount(x) == 0;
    assert (w + x)[|w|..] == x;
  }

  /** What stoi returns once the digit run after the sign is known: its value,
      negated after a '-', or out_of_range when that is outside the int range.
      Leading zeros are allowed in the run. */
  lemma StoiOfRun(s: string, ds: string, t: string)
    requires Unsigned(s) == ds + t && ds != [] && AllDigits(ds)
    requires t == [] || !IsDigit(t[0])
    ensures var v: int := if IsNegative(s) then -(DecimalValue(ds) as int) else DecimalValue(ds);
            Stoi(s) == if v < INT_MIN || v > INT_MAX then OutOfRange else Converted(v)
  {
    DigitCountOfRun(ds, t);
    assert (ds + t)[..|ds|] == ds;
  }

  /** A leading zero does not change the value of a digit run. */
  lemma {:induction false} LeadingZero(ds: string)
    ensures DecimalValue("0" + ds) == DecimalValue(ds)
  {
    if ds != [] {
      var init := ds[..|ds| - 1];
      assert ("0" + ds)[..|ds|] == "0" + init;
      assert ("0" + ds)[|ds|] == ds[|ds| - 1];
      LeadingZero(init);
    } else {
      assert DecimalValue("0") == DecimalValue([]) * 10 + DigitValue('0');
    }
  }

  /** Leading white space and an in-range decimal number, followed by anything
      that does not start with a digit, convert to that number: the trailing
      characters are ignored, so "8080x" converts to 8080. */
  lemma StoiOfDecimal(w: string, n: nat, t: string)
    requires AllSpaces(w) && n <= INT_MAX
    requires t == [] || !IsDigit(t[0])
    ensures Stoi(w + Decimal(n) + t) == Converted(n)
  {
    var x := Decimal(n) + t;
    assert x[0] == Decimal(n)[0];
    assert w + Decimal(n) + t == w + x;
    DigitIsNoSign(w, x);
    DecimalRoundTrip(n);
    StoiOfRun(w + x, Decimal(n), t);
  }

  /** Any number of leading zeros leave the value of a digit run unchanged. */
  lemma {:induction false} LeadingZeros(zeros: string, ds: string)
    requires forall i :: 0 <= i < |zeros| ==> zeros[i] == '0'
    ensures DecimalValue(zeros + ds) == DecimalValue(ds)
  {
    if zeros != [] {
      assert zeros + ds == "0" + (zeros[1..] + ds);
      LeadingZero(zeros[1..] + ds);
      LeadingZeros(zeros[1..], ds);
    } else {
      assert zeros + ds == ds;
    }
  }

  /** Leading zeros are part of the digit run and change nothing: "08080"
      converts to 8080. */
  lemma StoiOfPaddedDecimal(w: string, zeros: string, n: nat, t: string)
    requires AllSpaces(w) && n <= INT_MAX
    requires forall i :: 0 <= i < |zeros| ==> zeros[i] == '0'
    requires t == [] || !IsDigit(t[0])
    ensures Stoi(w + zeros + Decimal(n) + t) == Converted(n)
  {
    var ds := zeros + Decimal(n);
    assert AllDigits(ds) by {
      assert forall i :: 0 <= i < |zeros| ==> ds[i] == zeros[i];
      assert forall i :: |zeros| <= i < |ds| ==> ds[i] == Decimal(n)[i - |zeros|];
    }
    var x := ds + t;
    assert w + zeros + Decimal(n) + t == w + x;
    DigitIsNoSign(w, x);
    LeadingZeros(zeros, Decimal(n));
    DecimalRoundTrip(n);
    StoiOfRun(w + x, ds, t);
  }

  /** The same with a minus sign: "-8080" converts to -8080, down to INT_MIN. */
  lemma StoiOfNegativeDecimal(w: string, n: nat, t: string)
    requires AllSpaces(w) && n <= -INT_MIN
    requires t == [] || !IsDigit(t[0])
    ensures Stoi(w + "-" + Decimal(n) + t) == Converted(-(n as int))
  {
    var x := Decimal(n) + t;
    assert w + "-" + Decimal(n) + t == w + ['-'] + x;
    SignIsTaken(w, '-', x);
    DecimalRoundTrip(n);
    StoiOfRun(w + ['-'] + x, Decimal(n), t);
  }

  /** A number beyond INT_MAX makes stoi throw out_of_range. */
  lemma StoiOverflow(n: nat)
    requires n > INT_MAX
    ensures Stoi(Decimal(n)) == OutOfRange
  {
    var d := Decimal(n);
    assert [] + d == d && d + [] == d;
    DigitIsNoSign([], d);
    DecimalRoundTrip(n);
    StoiOfRun(d, d, []);
  }

  /** stoi throws invalid_argument exactly when no digit follows the white
      space and the optional sign. */
  lemma StoiInvalidExactly(s: string)
    ensures Stoi(s) == InvalidArgument <==> (Unsigned(s) == [] || !IsDigit(Unsigned(s)[0]))
  {
  }

  /** In particular, a string without any digit always throws invalid_argument. */
  lemma {:induction false} StoiWithoutDigits(s: string)
    requires forall i :: 0 <= i < |s| ==> !IsDigit(s[i])
    ensures Stoi(s) == InvalidArgument
  {
    var u := Unsigned(s);
    var k := |s| - |u|;
    assert u == s[k..];
    if u != [] {
      assert u[0] == s[k];
    }
  }
}
