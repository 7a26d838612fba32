/** Decimal numbers as the stream operators print them and std::stoul reads
    them. */
module Decimal {
  datatype Option<T> = None | Some(value: T)

  const ULONG_LIMIT: nat := 0x1_0000_0000_0000_0000

  predicate IsDigit(c: char) { '0' <= c <= '9' }

  predicate AllDigits(s: string) {
    forall i | 0 <= i < |s| :: IsDigit(s[i])
  }

  predicate IsUnsignedInteger(s: string) {
    s != "" && AllDigits(s)
  }

  function DigitValue(c: char): nat
    requires IsDigit(c)
  {
    c as int - '0' as int
  }

  function Value(s: string): nat
    requires AllDigits(s)
  {
    if s == "" then 0 else 10 * Value(s[..|s| - 1]) + DigitValue(s[|s| - 1])
  }

  function Print(n: nat): (s: string)
    ensures IsUnsignedInteger(s)
  {
    var d := (n % 10 + '0' as int) as char;
    if n < 10 then [d] else Print(n / 10) + [d]
  }

  lemma {:induction false} PrintValue(n: nat)
    ensures Value(Print(n)) == n
  {
    if n >= 10 {
      PrintValue(n / 10);
      assert Print(n)[..|Print(n)| - 1] == Print(n / 10);
    } else {
      assert Print(n)[..0] == "";
    }
  }

  predicate IsSpace(c: char) { c == ' ' || '\t' <= c <= '\r' }

  function SkipSpace(s: string): string {
    if s != "" && IsSpace(s[0]) then SkipSpace(s[1..]) else s
  }

  function LeadingDigits(s: string): (d: string)
    ensures AllDigits(d)
  {
    if s != "" && IsDigit(s[0]) then [s[0]] + LeadingDigits(s[1..]) else ""
  }

  /** std::stoul: optional blanks and sign, then the longest run of digits;
      a minus wraps the value round. None is the exception it throws when there
      is no digit or the number does not fit. */
  function Stoul(s: string): Option<nat> {
    var t := SkipSpace(s);
    var minus := t != "" && t[0] == '-';
    var d := LeadingDigits(if t != "" && (t[0] == '-' || t[0] == '+') then t[1..] else t);
    if d == "" || Value(d) >= ULONG_LIMIT then None
    else if minus && Value(d) > 0 then Some(ULONG_LIMIT - Value(d))
    else Some(Value(d))
  }

  lemma {:induction false} LeadingAll(s: string)
    requires AllDigits(s)
    ensures LeadingDigits(s) == s
  {
    if s != "" { LeadingAll(s[1..]); }
  }

  lemma StoulDigits(s: string)
    requires IsUnsignedInteger(s)
    ensures Stoul(s) == if Value(s) < ULONG_LIMIT then Some(Value(s)) else None
  {
    assert IsDigit(s[0]);
    LeadingAll(s);
  }

  /** Every number a size_t can hold survives being printed and read. */
  lemma StoulPrint(n: nat)
    ensures Stoul(Print(n)) == if n < ULONG_LIMIT then Some(n) else None
  {
    PrintValue(n);
    StoulDigits(Print(n));
  }

  // ---------------------------------------------------------------------------
  // Numbers as they are written
  // ---------------------------------------------------------------------------

  lemma OneDigit(n: nat)
    requires n < 10
    ensures Print(n) == [(n + '0' as int) as char]
  {
  }

  lemma TwoDigits(m: nat, n: nat)
    requires 0 < m < 10 && n < 10
    ensures Print(10 * m + n) == [(m + '0' as int) as char, (n + '0' as int) as char]
  {
    OneDigit(m);
  }

  /** Ten to a digit, the last digit first to go. */
  lemma TenFold(n: nat, d: nat)
    requires n > 0 && d < 10
    ensures Print(10 * n + d) == Print(n) + Print(d)
  {
    OneDigit(d);
    assert (10 * n + d) / 10 == n && (10 * n + d) % 10 == d;
  }

  /** No number but 0 is printed with a leading zero. */
  lemma {:induction false} NoLeadingZero(n: nat)
    ensures Print(n)[0] == '0' <==> n == 0
  {
    if n >= 10 { NoLeadingZero(n / 10); }
  }

  lemma KnownNumber()
    ensures Print(9075) == "9075" && Value("9075") == 9075
  {
    OneDigit(9);
    TenFold(9, 0);
    TenFold(90, 7);
    TenFold(907, 5);
    PrintValue(9075);
  }

  /** s is blanks, a sign or none, digits, and then something else. */
  ghost predicate Reads(s: string, blanks: string, sign: string, digits: string, rest: string) {
    && s == blanks + sign + digits + rest
    && (forall i | 0 <= i < |blanks| :: IsSpace(blanks[i]))
    && sign in {"", "+", "-"} && IsUnsignedInteger(digits)
    && (rest == "" || !IsDigit(rest[0]))
  }

  lemma {:induction false} Blanks(blanks: string, t: string)
    requires (forall i | 0 <= i < |blanks| :: IsSpace(blanks[i])) && t != "" && !IsSpace(t[0])
    ensures SkipSpace(blanks + t) == t
  {
    if blanks == "" {
      assert blanks + t == t;
    } else {
      Blanks(blanks[1..], t);
      assert (blanks + t)[1..] == blanks[1..] + t;
    }
  }

  lemma {:induction false} DigitsFirst(digits: string, rest: string)
    requires AllDigits(digits) && (rest == "" || !IsDigit(rest[0]))
    ensures LeadingDigits(digits + rest) == digits
  {
    if digits == "" {
      assert digits + rest == rest;
    } else {
      DigitsFirst(digits[1..], rest);
      assert (digits + rest)[1..] == digits[1..] + rest;
    }
  }

  /** What stoul makes of such a text. */
  lemma StoulReads(s: string, blanks: string, sign: string, digits: string, rest: string)
    requires Reads(s, blanks, sign, digits, rest)
    ensures Stoul(s) ==
      if Value(digits) >= ULONG_LIMIT then None
      else if sign == "-" && Value(digits) > 0 then Some(ULONG_LIMIT - Value(digits))
      else Some(Value(digits))
  {
    var u := digits + rest;
    var t := sign + u;
    assert s == blanks + t;
    assert IsDigit(digits[0]) && t[0] == if sign == "" then digits[0] else sign[0];
    Blanks(blanks, t);
    DigitsFirst(digits, rest);
    SignedDigits(s, t, sign, digits, u);
  }

  lemma SignedDigits(s: string, t: string, sign: string, digits: string, u: string)
    requires SkipSpace(s) == t == sign + u && sign in {"", "+", "-"} && u != "" && IsDigit(u[0])
    requires LeadingDigits(u) == digits != ""
    ensures Stoul(s) ==
      if Value(digits) >= ULONG_LIMIT then None
      else if sign == "-" && Value(digits) > 0 then Some(ULONG_LIMIT - Value(digits))
      else Some(Value(digits))
  {
    assert (if sign == "" then t else t[1..]) == u;
  }

  lemma {:induction false} BlanksOf(s: string) returns (blanks: string)
    ensures s == blanks + SkipSpace(s) && forall i | 0 <= i < |blanks| :: IsSpace(blanks[i])
  {
    if s != "" && IsSpace(s[0]) {
      var more := BlanksOf(s[1..]);
      blanks := [s[0]] + more;
      assert s == [s[0]] + s[1..];
    } else {
      blanks := "";
    }
  }

  lemma {:induction false} DigitsOf(s: string) returns (rest: string)
    ensures s == LeadingDigits(s) + rest && (rest == "" || !IsDigit(rest[0]))
  {
    if s != "" && IsDigit(s[0]) {
      rest := DigitsOf(s[1..]);
      assert s == [s[0]] + s[1..];
    } else {
      rest := s;
    }
  }

  lemma StoulParts(s: string) returns (blanks: string, sign: string, digits: string, rest: string)
    requires Stoul(s).Some?
    ensures Reads(s, blanks, sign, digits, rest) && Value(digits) < ULONG_LIMIT
  {
    blanks := BlanksOf(s);
    var t := SkipSpace(s);
    sign := if t != "" && (t[0] == '-' || t[0] == '+') then [t[0]] else "";
    var u := t[|sign|..];
    digits := LeadingDigits(u);
    rest := DigitsOf(u);
    Joined(s, blanks, sign, digits, rest, t, u);
  }

  lemma Joined(s: string, blanks: string, sign: string, digits: string, rest: string, t: string, u: string)
    requires s == blanks + t && t == sign + u && u == digits + rest
    ensures s == blanks + sign + digits + rest
  {
  }

  /** Some parts of s read as a number that fits. */
  ghost predicate HasNumber(s: string) {
    exists blanks, sign, digits, rest :: Reads(s, blanks, sign, digits, rest) && Value(digits) < ULONG_LIMIT
  }

  /** And it finds a number in no other. */
  lemma StoulIff(s: string)
    ensures Stoul(s).Some? <==> HasNumber(s)
  {
    if HasNumber(s) {
      var blanks, sign, digits, rest :| Reads(s, blanks, sign, digits, rest) && Value(digits) < ULONG_LIMIT;
      StoulReads(s, blanks, sign, digits, rest);
    }
    if Stoul(s).Some? { var _, _, _, _ := StoulParts(s); }
  }
}
