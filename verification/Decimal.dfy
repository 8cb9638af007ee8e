/** Numbers in text: std::to_string, and the prefix-reading std::stoi and std::stoul. */
module Decimal {
  import opened Wrappers
  import opened IniFile

  const INT_MIN := -0x8000_0000
  const INT_MAX := 0x7FFF_FFFF
  const UINT_RANGE := 0x1_0000_0000
  /** The range of unsigned long, taken as 64 bits wide. */
  const ULONG_RANGE := 0x1_0000_0000_0000_0000

  const LLONG_MIN := -0x8000_0000_0000_0000
  const LLONG_MAX := 0x7FFF_FFFF_FFFF_FFFF

  type int32 = n: int | INT_MIN <= n <= INT_MAX
  type uint32 = n: int | 0 <= n < UINT_RANGE
  type int64 = n: int | LLONG_MIN <= n <= LLONG_MAX
  type uint64 = n: int | 0 <= n < ULONG_RANGE

  predicate IsDigit(c: char) {
    '0' <= c <= '9'
  }

  predicate AllDigits(s: string) {
    forall i :: 0 <= i < |s| ==> IsDigit(s[i])
  }

  function NatToString(n: nat): (s: string)
    ensures s != "" && AllDigits(s)
  {
    if n < 10 then ['0' + n as char] else NatToString(n / 10) + ['0' + (n % 10) as char]
  }

  function ToString(n: int): string {
    if n < 0 then "-" + NatToString(-n) else NatToString(n)
  }

  function ValueOf(s: string): nat
    requires AllDigits(s)
  {
    if s == "" then 0 else 10 * ValueOf(s[..|s| - 1]) + (s[|s| - 1] - '0') as int
  }

  predicate IsSpace(c: char) {
    c == ' ' || 9 <= c as int <= 13
  }

  function SkipSpaces(s: string): string {
    if s != "" && IsSpace(s[0]) then SkipSpaces(s[1..]) else s
  }

  /** The longest run of digits at the front. */
  function DigitPrefix(s: string): (d: string)
    ensures AllDigits(d)
  {
    if s == "" || !IsDigit(s[0]) then "" else [s[0]] + DigitPrefix(s[1..])
  }

  /** What strtol sees: blanks, a sign, digits; anything behind the digits is ignored. */
  function Leading(s: string): Option<(bool, nat)> {
    var t := SkipSpaces(s);
    var signed := t != "" && (t[0] == '-' || t[0] == '+');
    var digits := DigitPrefix(if signed then t[1..] else t);
    if digits == "" then None else Some((signed && t[0] == '-', ValueOf(digits)))
  }

  function Signed(l: (bool, nat)): int {
    if l.0 then 0 - l.1 else l.1
  }

  /** None where the original throws invalid_argument or out_of_range. */
  function Stoi(s: string): Option<int32> {
    match Leading(s)
    case None => None
    case Some(l) => if INT_MIN <= Signed(l) <= INT_MAX then Some(Signed(l)) else None
  }

  function Stoll(s: string): Option<int64> {
    match Leading(s)
    case None => None
    case Some(l) => if LLONG_MIN <= Signed(l) <= LLONG_MAX then Some(Signed(l)) else None
  }

  /** A minus sign wraps around instead of failing. */
  function Stoul(s: string): Option<uint64> {
    match Leading(s)
    case None => None
    case Some((negative, n)) =>
      if n >= ULONG_RANGE then None
      else if negative && n > 0 then Some(ULONG_RANGE - n)
      else Some(n)
  }

  lemma {:induction false} ValueOfPrinted(n: nat)
    ensures ValueOf(NatToString(n)) == n
  {
    var s := NatToString(n);
    if n < 10 {
      assert s[..0] == "";
    } else {
      ValueOfPrinted(n / 10);
      assert s[..|s| - 1] == NatToString(n / 10);
    }
  }

  lemma {:induction false} DigitPrefixOfDigits(s: string)
    requires AllDigits(s)
    ensures DigitPrefix(s) == s
  {
    if s != "" {
      DigitPrefixOfDigits(s[1..]);
    }
  }

  lemma LeadingOfPrinted(n: int)
    ensures Leading(ToString(n)) == Some((n < 0, if n < 0 then -n else n))
  {
    var digits := NatToString(if n < 0 then -n else n);
    hide NatToString, ValueOf;
    var s := ToString(n);
    assert IsDigit(digits[0]);
    assert SkipSpaces(s) == s;
    if n < 0 {
      assert s[1..] == digits;
    }
    DigitPrefixOfDigits(digits);
    ValueOfPrinted(if n < 0 then -n else n);
  }

  /** Reading undoes printing on the whole range of int. */
  lemma StoiOfToString(n: int)
    ensures Stoi(ToString(n)) == if INT_MIN <= n <= INT_MAX then Some(n) else None
  {
    LeadingOfPrinted(n);
  }

  /** And on that of long long. */
  lemma StollOfToString(n: int)
    ensures Stoll(ToString(n)) == if -0x8000_0000_0000_0000 <= n <= 0x7fff_ffff_ffff_ffff then Some(n) else None
  {
    LeadingOfPrinted(n);
  }

  lemma StoulOfToString(n: nat)
    ensures Stoul(ToString(n)) == if n < ULONG_RANGE then Some(n) else None
  {
    LeadingOfPrinted(n);
  }

  /*** Texts that were not printed ***/

  lemma DigitsExactly(c: char)
    ensures IsDigit(c) <==> c in "0123456789"
  {
    var digits := "0123456789";
    if '0' <= c <= '9' {
      assert digits[(c - '0') as int] == c;
    }
  }

  /** Blank, tab, newline, vertical tab, form feed and carriage return. */
  predicate Spaces(s: string) {
    forall i :: 0 <= i < |s| ==> s[i] == ' ' || s[i] == '\t' || s[i] == '\n' || s[i] == '\r' || s[i] as int == 11 || s[i] as int == 12
  }

  lemma {:induction false} SkipSpacesOf(blanks: string, rest: string)
    requires Spaces(blanks) && (rest != "" ==> !IsSpace(rest[0]))
    ensures SkipSpaces(blanks + rest) == rest
  {
    if blanks == "" {
      assert blanks + rest == rest;
    } else {
      assert (blanks + rest)[1..] == blanks[1..] + rest;
      SkipSpacesOf(blanks[1..], rest);
    }
  }

  lemma {:induction false} DigitPrefixOf(digits: string, rest: string)
    requires AllDigits(digits) && (rest != "" ==> !IsDigit(rest[0]))
    ensures DigitPrefix(digits + rest) == digits
  {
    if digits == "" {
      assert digits + rest == rest;
    } else {
      assert (digits + rest)[1..] == digits[1..] + rest;
      DigitPrefixOf(digits[1..], rest);
    }
  }

  /** Blanks in front are skipped, a sign is taken, and whatever follows the digits is ignored. */
  lemma LeadingReads(blanks: string, sign: string, digits: string, rest: string)
    requires Spaces(blanks) && (sign == "" || sign == "-" || sign == "+") && digits != "" && AllDigits(digits)
    requires rest != "" ==> !IsDigit(rest[0])
    ensures Leading(blanks + (sign + (digits + rest))) == Some((sign == "-", ValueOf(digits)))
  {
    hide SkipSpaces, DigitPrefix, ValueOf;
    var t := sign + (digits + rest);
    assert IsDigit(digits[0]);
    assert t[0] == if sign == "" then digits[0] else sign[0];
    SkipSpacesOf(blanks, t);
    DigitPrefixOf(digits, rest);
    assert t[|sign|..] == digits + rest;
  }

  /** So what the three conversions make of such a text. */
  lemma NumbersRead(blanks: string, sign: string, digits: string, rest: string)
    requires Spaces(blanks) && (sign == "" || sign == "-" || sign == "+") && digits != "" && AllDigits(digits)
    requires rest != "" ==> !IsDigit(rest[0])
    ensures var text, n := blanks + (sign + (digits + rest)), ValueOf(digits);
            var signed := if sign == "-" then 0 - n else n;
            && Stoi(text) == (if -0x8000_0000 <= signed <= 0x7fff_ffff then Some(signed) else None)
            && Stoll(text) == (if -0x8000_0000_0000_0000 <= signed <= 0x7fff_ffff_ffff_ffff then Some(signed) else None)
            && Stoul(text) == (if n >= 0x1_0000_0000_0000_0000 then None
                               else Some(if sign == "-" && n > 0 then 0x1_0000_0000_0000_0000 - n else n))
  {
    hide Leading, ValueOf;
    LeadingReads(blanks, sign, digits, rest);
  }

  lemma {:induction false} SkippedIsTail(s: string)
    ensures exists k :: 0 <= k <= |s| && SkipSpaces(s) == s[k..]
  {
    if s != "" && IsSpace(s[0]) {
      SkippedIsTail(s[1..]);
      var k :| 0 <= k <= |s[1..]| && SkipSpaces(s[1..]) == s[1..][k..];
      assert SkipSpaces(s) == s[k + 1..];
    } else {
      assert s[0..] == s;
    }
  }

  /** A text without any digit is no number. */
  lemma NoDigitsFail(s: string)
    requires forall i :: 0 <= i < |s| ==> !IsDigit(s[i])
    ensures Stoi(s) == None && Stoll(s) == None && Stoul(s) == None
  {
    SkippedIsTail(s);
    var k :| 0 <= k <= |s| && SkipSpaces(s) == s[k..];
    var t := s[k..];
    assert t != "" ==> !IsDigit(t[0]);
    assert |t| > 1 ==> t[1..][0] == s[k + 1];
    hide SkipSpaces;
    assert Leading(s) == None;
  }
}
