/** Strings as the control protocol handles them: splitting and joining at a separator, and
    decimal numbers. */
module Text {
  import opened Wrappers

  /** The position of the first `c` in `s`, or |s| when there is none (`npos`). */
  function Find(s: string, c: char): (i: nat)
    ensures i <= |s|
    ensures i < |s| ==> s[i] == c
  {
    if s == "" || s[0] == c then 0 else 1 + Find(s[1..], c)
  }

  lemma {:induction false} FindIs(s: string, c: char, i: nat)
    requires i < |s| && s[i] == c && c !in s[..i]
    ensures Find(s, c) == i
  {
    if i > 0 {
      assert s[0] in s[..i];
      assert forall x :: x in s[1..][..i - 1] ==> x in s[..i];
      FindIs(s[1..], c, i - 1);
    }
  }

  lemma FindNone(s: string, c: char)
    ensures Find(s, c) == |s| <==> c !in s
  {
  }

  // ---------- Split and join ----------

  /** The pieces of `s` between separators; an empty string is one empty piece. */
  function SplitAll(s: string, sep: char): (parts: seq<string>)
    ensures |parts| > 0
    decreases |s|
  {
    var i := Find(s, sep);
    if i == |s| then [s] else [s[..i]] + SplitAll(s[i + 1..], sep)
  }

  /** std::views::split: as SplitAll, except that an empty range has no pieces at all. */
  function Split(s: string, sep: char): seq<string> {
    if s == "" then [] else SplitAll(s, sep)
  }

  function Join(parts: seq<string>, sep: char): string {
    if parts == [] then ""
    else if |parts| == 1 then parts[0]
    else parts[0] + [sep] + Join(parts[1..], sep)
  }

  ghost predicate SeparatorFree(parts: seq<string>, sep: char) {
    forall p :: p in parts ==> sep !in p
  }

  /** Splitting undoes joining. */
  lemma {:induction false} SplitJoin(parts: seq<string>, sep: char)
    requires parts != [] && SeparatorFree(parts, sep)
    ensures SplitAll(Join(parts, sep), sep) == parts
  {
    var s := Join(parts, sep);
    if |parts| == 1 {
      assert s == parts[0] && s in parts;
      FindNone(s, sep);
    } else {
      var head := parts[0];
      assert s[..|head|] == head && s[|head|] == sep;
      FindIs(s, sep, |head|);
      assert s[|head| + 1..] == Join(parts[1..], sep);
      SplitJoin(parts[1..], sep);
      assert parts == [head] + parts[1..];
    }
  }

  lemma {:induction false} JoinInjective(a: seq<string>, b: seq<string>, sep: char)
    requires a != [] && b != [] && SeparatorFree(a, sep) && SeparatorFree(b, sep)
    requires Join(a, sep) == Join(b, sep)
    ensures a == b
  {
    SplitJoin(a, sep);
    SplitJoin(b, sep);
  }

  /** A joined list grows at its end by a separator and the new part. */
  lemma {:induction false} JoinSnoc(parts: seq<string>, p: string, sep: char)
    requires parts != []
    ensures Join(parts + [p], sep) == Join(parts, sep) + [sep] + p
  {
    if |parts| > 1 {
      assert (parts + [p])[1..] == parts[1..] + [p];
      JoinSnoc(parts[1..], p, sep);
    }
  }

  lemma {:induction false} JoinEmptyText(parts: seq<string>, sep: char)
    requires parts != [] && parts[0] != ""
    ensures Join(parts, sep) != ""
  {
  }

  // ---------- Decimal numbers ----------

  predicate IsDigit(c: char) { '0' <= c <= '9' }

  function DigitValue(c: char): (d: nat)
    requires IsDigit(c)
    ensures d < 10
  {
    c as int - '0' as int
  }

  function DigitChar(d: nat): (c: char)
    requires d < 10
    ensures IsDigit(c) && DigitValue(c) == d
  {
    ('0' as int + d) as char
  }

  /** std::format("{}", n) for an unsigned number. */
  function Decimal(n: nat): (s: string)
    ensures s != "" && forall c :: c in s ==> IsDigit(c)
  {
    if n < 10 then [DigitChar(n)] else Decimal(n / 10) + [DigitChar(n % 10)]
  }

  function SignedDecimal(n: int): string {
    if n < 0 then "-" + Decimal(-n) else Decimal(n)
  }

  function DigitsValue(s: string): nat
    requires forall c :: c in s ==> IsDigit(c)
  {
    if s == "" then 0
    else 10 * DigitsValue(s[..|s| - 1]) + DigitValue(s[|s| - 1])
  }

  lemma {:induction false} DecimalValue(n: nat)
    ensures DigitsValue(Decimal(n)) == n
  {
    var s := Decimal(n);
    if n < 10 {
      assert s[..|s| - 1] == "";
    } else {
      DecimalValue(n / 10);
      assert s[..|s| - 1] == Decimal(n / 10);
    }
  }

  lemma SignedDecimalCharacters(n: int, c: char)
    requires !IsDigit(c) && c != '-'
    ensures c !in SignedDecimal(n)
  {
  }

  lemma SignedDecimalInjective(a: int, b: int)
    requires SignedDecimal(a) == SignedDecimal(b)
    ensures a == b
  {
    var sa, sb := SignedDecimal(a), SignedDecimal(b);
    assert a < 0 <==> !IsDigit(sa[0]);
    assert b < 0 <==> !IsDigit(sb[0]);
    if a < 0 {
      assert sa[1..] == Decimal(-a) && sb[1..] == Decimal(-b);
      DecimalValue(-a);
      DecimalValue(-b);
    } else {
      DecimalValue(a);
      DecimalValue(b);
    }
  }

  /** The number of leading digits of `s`. */
  function DigitRun(s: string): (n: nat)
    ensures n <= |s|
    ensures forall c :: c in s[..n] ==> IsDigit(c)
    ensures n < |s| ==> !IsDigit(s[n])
  {
    if s == "" || !IsDigit(s[0]) then 0
    else
      var n := DigitRun(s[1..]);
      assert s[..n + 1] == [s[0]] + s[1..][..n];
      n + 1
  }

  const ULONG_MODULUS: nat := 0x1_0000_0000_0000_0000

  predicate IsSpace(c: char) {
    c == ' ' || c == '\t' || c == '\n' || c == '\U{0B}' || c == '\U{0C}' || c == '\r'
  }

  function SkipSpaces(s: string): string {
    if s != "" && IsSpace(s[0]) then SkipSpaces(s[1..]) else s
  }

  /** std::stoul, base 10, for a 64-bit unsigned long. None stands for the exception thrown when
      there are no digits or the number is out of range; a minus sign negates modulo 2^64, and
      whatever follows the digits is ignored. */
  function Stoul(text: string): (r: Option<nat>)
    ensures r.Some? ==> r.value < ULONG_MODULUS
  {
    var s := SkipSpaces(text);
    var negative := s != "" && s[0] == '-';
    var digits := if s != "" && (s[0] == '-' || s[0] == '+') then s[1..] else s;
    var n := DigitRun(digits);
    if n == 0 then None
    else
      var v := DigitsValue(digits[..n]);
      if v >= ULONG_MODULUS then None
      else if negative then Some((ULONG_MODULUS - v) % ULONG_MODULUS)
      else Some(v)
  }

  /** Reading back a printed number gives the number. */
  lemma StoulDecimal(n: nat)
    requires n < ULONG_MODULUS
    ensures Stoul(Decimal(n)) == Some(n)
  {
    var s := Decimal(n);
    assert IsDigit(s[0]);
    assert SkipSpaces(s) == s;
    assert DigitRun(s) == |s|;
    assert s[..|s|] == s;
    DecimalValue(n);
  }

  lemma {:induction false} SpacesSkipped(spaces: string, rest: string)
    requires (forall c :: c in spaces ==> IsSpace(c)) && (rest == "" || !IsSpace(rest[0]))
    ensures SkipSpaces(spaces + rest) == rest
  {
    if spaces == "" {
      assert spaces + rest == rest;
    } else {
      assert spaces[0] in spaces && (spaces + rest)[1..] == spaces[1..] + rest;
      SpacesSkipped(spaces[1..], rest);
    }
  }

  lemma {:induction false} DigitRunOf(number: string, rest: string)
    requires (forall c :: c in number ==> IsDigit(c)) && (rest == "" || !IsDigit(rest[0]))
    ensures DigitRun(number + rest) == |number|
  {
    if number == "" {
      assert number + rest == rest;
    } else {
      assert (number + rest)[1..] == number[1..] + rest;
      DigitRunOf(number[1..], rest);
    }
  }

  /** The number that a magnitude and its sign stand for; none of 64 bits when the magnitude is too large. */
  function Negated(negative: bool, n: nat): Option<nat> {
    if n >= 0x1_0000_0000_0000_0000 then None
    else if negative && n > 0 then Some(0x1_0000_0000_0000_0000 - n)
    else Some(n)
  }

  /** What std::stoul reads: spaces, a sign, digits and anything else behind them. A minus sign negates modulo 2^64, and
      a number of 2^64 or more throws. */
  lemma StoulReads(spaces: string, sign: string, digits: string, rest: string)
    requires (forall c :: c in spaces ==> c in {' ', '\t', '\n', '\U{0B}', '\U{0C}', '\r'}) && sign in {"", "+", "-"}
    requires digits != "" && (forall c :: c in digits ==> IsDigit(c)) && (rest == "" || !IsDigit(rest[0]))
    ensures Stoul(spaces + (sign + (digits + rest))) == Negated(sign == "-", DigitsValue(digits))
  {
    var number, signed := digits + rest, sign + (digits + rest);
    assert number[0] == digits[0] && digits[0] in digits;
    assert if sign == "" then signed == number else signed[0] == sign[0] && signed[1..] == number;
    SpacesSkipped(spaces, signed);
    StoulAfterSpaces(spaces + signed, signed, digits, rest);
  }

  lemma StoulAfterSpaces(text: string, signed: string, digits: string, rest: string)
    requires SkipSpaces(text) == signed != ""
    requires (if signed[0] == '-' || signed[0] == '+' then signed[1..] else signed) == digits + rest
    requires digits != "" && (forall c :: c in digits ==> IsDigit(c)) && (rest == "" || !IsDigit(rest[0]))
    ensures Stoul(text) == Negated(signed[0] == '-', DigitsValue(digits))
  {
    DigitRunOf(digits, rest);
    assert (digits + rest)[..|digits|] == digits;
    if DigitsValue(digits) < 0x1_0000_0000_0000_0000 {
      NegatedModulo(DigitsValue(digits));
    }
  }

  lemma NegatedModulo(n: nat)
    requires n < 0x1_0000_0000_0000_0000
    ensures (0x1_0000_0000_0000_0000 - n) % 0x1_0000_0000_0000_0000
         == if n > 0 then 0x1_0000_0000_0000_0000 - n else 0
  {
  }

  /** Without a digit behind the spaces and the sign it throws. */
  lemma StoulThrows(spaces: string, sign: string, rest: string)
    requires (forall c :: c in spaces ==> c in {' ', '\t', '\n', '\U{0B}', '\U{0C}', '\r'}) && sign in {"", "+", "-"}
    requires rest == "" || !IsDigit(rest[0])
    requires sign == "" && rest != "" ==> rest[0] !in {' ', '\t', '\n', '\U{0B}', '\U{0C}', '\r', '+', '-'}
    ensures Stoul(spaces + (sign + rest)) == None
  {
    var signed := sign + rest;
    assert if sign == "" then signed == rest else signed[0] == sign[0] && signed[1..] == rest;
    SpacesSkipped(spaces, signed);
  }
}
