/** The text functions the request parser rests on: finding a line end, a token, a colon,
    and the decimal number of `atoi`. */
module HttpText {

  predicate CrlfAt(b: string, i: nat) {
    i + 1 < |b| && b[i] == '\r' && b[i + 1] == '\n'
  }

  /** `std::search` for CR LF from `from`: the first place it occurs, or the end. */
  function FindCrlf(b: string, from: nat): (i: nat)
    requires from <= |b|
    ensures from <= i <= |b|
    ensures i < |b| ==> CrlfAt(b, i)
    ensures forall k :: from <= k < i ==> !CrlfAt(b, k)
    decreases |b| - from
  {
    if from == |b| then from else if CrlfAt(b, from) then from else FindCrlf(b, from + 1)
  }

  /** A line ends at a CR that is followed by LF, and not before. */
  lemma LinesEndWithCrlf(b: string, from: nat)
    requires from <= |b|
    ensures var i := FindCrlf(b, from);
      (i < |b| ==> i + 1 < |b| && b[i] == '\r' && b[i + 1] == '\n') &&
      forall k :: from <= k < i && k + 1 < |b| ==> b[k] != '\r' || b[k + 1] != '\n'
  {
    var i := FindCrlf(b, from);
    forall k | from <= k < i && k + 1 < |b|
      ensures b[k] != '\r' || b[k + 1] != '\n'
    {
      assert !CrlfAt(b, k);
    }
  }

  /** `std::find`: the first occurrence of `c`, or the end. */
  function FindChar(s: string, c: char): (i: nat)
    ensures i <= |s| && c !in s[..i] && (i < |s| ==> s[i] == c)
  {
    if s == [] || s[0] == c then 0 else 1 + FindChar(s[1..], c)
  }

  lemma {:induction false} FirstChar(a: string, c: char, b: string)
    requires c !in a
    ensures FindChar(a + [c] + b, c) == |a|
  {
    if a == [] {
      assert a + [c] + b == [c] + b;
    } else {
      assert (a + [c] + b)[1..] == a[1..] + [c] + b;
      assert a[0] in a;
      FirstChar(a[1..], c, b);
    }
  }

  /** The characters before the first space. */
  function Token(s: string): string {
    s[..FindChar(s, ' ')]
  }

  /** What is left after leading spaces. */
  function SkipSpaces(s: string): (r: string)
    ensures |r| <= |s| && r == s[|s| - |r|..] && (r != [] ==> r[0] != ' ')
    ensures forall k :: 0 <= k < |s| - |r| ==> s[k] == ' '
  {
    if s != [] && s[0] == ' ' then SkipSpaces(s[1..]) else s
  }

  // ------------------------------------------------------------------ numbers

  /** The characters `isspace` accepts in the C locale. */
  predicate IsSpace(c: char) {
    c == ' ' || '\t' <= c <= '\r'
  }

  predicate IsDigit(c: char) {
    '0' <= c <= '9'
  }

  function DigitsValue(s: string, acc: nat): nat {
    if s == [] || !IsDigit(s[0]) then acc
    else DigitsValue(s[1..], 10 * acc + (s[0] - '0') as nat)
  }

  function SkipWhite(s: string): string {
    if s != [] && IsSpace(s[0]) then SkipWhite(s[1..]) else s
  }

  /** `atoi`, on mathematical integers: white space, an optional sign, digits, the rest ignored. */
  function Atoi(s: string): int {
    var t := SkipWhite(s);
    if t != [] && t[0] == '-' then 0 - DigitsValue(t[1..], 0)
    else if t != [] && t[0] == '+' then DigitsValue(t[1..], 0)
    else DigitsValue(t, 0)
  }

  /** A decimal number without sign or leading zeros. */
  function Decimal(n: nat): (s: string)
    ensures s != [] && forall k :: 0 <= k < |s| ==> IsDigit(s[k])
  {
    if n < 10 then [('0' as int + n) as char] else Decimal(n / 10) + [('0' as int + n % 10) as char]
  }

  lemma {:induction false} DigitsAppend(a: string, b: string, acc: nat)
    requires forall k :: 0 <= k < |a| ==> IsDigit(a[k])
    ensures DigitsValue(a + b, acc) == DigitsValue(b, DigitsValue(a, acc))
  {
    if a == [] {
      assert a + b == b;
    } else {
      assert (a + b)[1..] == a[1..] + b;
      DigitsAppend(a[1..], b, 10 * acc + (a[0] - '0') as nat);
    }
  }

  lemma {:induction false} DecimalValue(n: nat)
    ensures DigitsValue(Decimal(n), 0) == n
  {
    if n >= 10 {
      DecimalValue(n / 10);
      var last := [('0' as int + n % 10) as char];
      DigitsAppend(Decimal(n / 10), last, 0);
      assert last[1..] == [];
      assert DigitsValue(last, n / 10) == 10 * (n / 10) + n % 10;
    } else {
      assert Decimal(n)[1..] == [];
    }
  }

  lemma {:induction false} SkipLeadingWhite(white: string, s: string)
    requires forall k :: 0 <= k < |white| ==> IsSpace(white[k])
    requires s != [] && !IsSpace(s[0])
    ensures SkipWhite(white + s) == s
  {
    if white == [] {
      assert white + s == s;
    } else {
      assert (white + s)[1..] == white[1..] + s;
      SkipLeadingWhite(white[1..], s);
    }
  }

  /** White space as `atoi` has it: the space and the characters 9 to 13. */
  predicate AllWhite(white: string) {
    forall k :: 0 <= k < |white| ==> white[k] == ' ' || 9 <= white[k] as int <= 13
  }

  lemma DigitsBefore(n: nat, rest: string)
    requires rest != [] ==> !IsDigit(rest[0])
    ensures DigitsValue(Decimal(n) + rest, 0) == n
  {
    DigitsAppend(Decimal(n), rest, 0);
    DecimalValue(n);
  }

  /** `atoi` inverts decimal rendering, after any white space and before anything that is not a digit. */
  lemma AtoiInvertsDecimal(white: string, n: nat, rest: string)
    requires AllWhite(white) && (rest != [] ==> !IsDigit(rest[0]))
    ensures Atoi(white + Decimal(n) + rest) == n
  {
    var d := Decimal(n);
    assert IsDigit(d[0]);
    assert white + d + rest == white + (d + rest) && (d + rest)[0] == d[0];
    SkipLeadingWhite(white, d + rest);
    DigitsBefore(n, rest);
  }

  /** And a sign before the digits. */
  lemma AtoiReadsSign(white: string, sign: char, n: nat, rest: string)
    requires AllWhite(white) && (sign == '-' || sign == '+') && (rest != [] ==> !IsDigit(rest[0]))
    ensures Atoi(white + [sign] + Decimal(n) + rest) == if sign == '-' then 0 - n else n
  {
    var signed := [sign] + (Decimal(n) + rest);
    assert white + [sign] + Decimal(n) + rest == white + signed;
    SkipLeadingWhite(white, signed);
    assert signed[1..] == Decimal(n) + rest;
    DigitsBefore(n, rest);
  }

  /** Where there are no digits the value is 0. */
  lemma AtoiOfWords(white: string, rest: string)
    requires AllWhite(white) && rest != "" && !IsSpace(rest[0]) && !IsDigit(rest[0]) && rest[0] != '-' && rest[0] != '+'
    ensures Atoi(white + rest) == 0
  {
    SkipLeadingWhite(white, rest);
  }
}
