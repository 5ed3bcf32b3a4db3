/** strconv: decimal and hexadecimal numbers in text, with the limits of int64 and uint32. */
module Strconv {
  import opened Int64
  import opened Wrappers

  predicate IsDigit(c: char) {
    '0' <= c <= '9'
  }

  predicate AllDigits(s: string) {
    forall i :: 0 <= i < |s| ==> IsDigit(s[i])
  }

  function DigitValue(c: char): nat
    requires IsDigit(c)
  {
    (c as int) - ('0' as int)
  }

  function Value(s: string): nat
    requires AllDigits(s)
  {
    if s == "" then 0 else Value(s[..|s| - 1]) * 10 + DigitValue(s[|s| - 1])
  }

  function DigitChar(d: nat): char
    requires d < 10
  {
    (('0' as int) + d) as char
  }

  // fmt's %d for a number that is not negative, and for any.
  function Itoa(n: nat): string {
    if n < 10 then [DigitChar(n)] else Itoa(n / 10) + [DigitChar(n % 10)]
  }

  function FormatInt(n: int): string {
    if n < 0 then "-" + Itoa(-n) else Itoa(n)
  }

  lemma {:induction false} ItoaRoundTrip(n: nat)
    ensures Itoa(n) != "" && AllDigits(Itoa(n)) && Value(Itoa(n)) == n
  {
    if n >= 10 {
      ItoaRoundTrip(n / 10);
      assert Itoa(n)[..|Itoa(n)| - 1] == Itoa(n / 10);
    } else {
      assert Value([DigitChar(n)][..0]) == 0;
    }
  }

  // strconv.Atoi: the number, and whether it was well formed and in range. A syntax error yields 0, a
  // number out of range the nearest limit; callers that drop the error see these values.
  function Atoi(s: string): (int, bool) {
    var negative := s != "" && s[0] == '-';
    var digits := if s != "" && (s[0] == '-' || s[0] == '+') then s[1..] else s;
    if digits == "" || !AllDigits(digits) then (0, false)
    else if negative then
      if Value(digits) > MAX_INT64 + 1 then (-MAX_INT64 - 1, false) else (0 - (Value(digits) as int), true)
    else if Value(digits) > MAX_INT64 then (MAX_INT64, false)
    else (Value(digits), true)
  }

  // Every number that fits is read back from its text; one that does not is read as the nearest limit.
  lemma AtoiReadsNumbers(n: int)
    ensures Atoi(FormatInt(n)) ==
            if n > MAX_INT64 then (MAX_INT64, false)
            else if n < -MAX_INT64 - 1 then (-MAX_INT64 - 1, false)
            else (n, true)
  {
    var digits := Itoa(if n < 0 then -n else n);
    ItoaRoundTrip(if n < 0 then -n else n);
    if n < 0 {
      assert FormatInt(n)[1..] == digits;
    } else {
      assert IsDigit(digits[0]);
    }
  }

  // Digits, with or without a sign before them.
  predicate IsNumber(s: string) {
    exists k :: 0 <= k <= 1 && k < |s| && (k == 1 ==> s[0] == '-' || s[0] == '+') && AllDigits(s[k..])
  }

  lemma AtoiFailsIff(s: string)
    ensures Atoi(s) == (0, false) <==> !IsNumber(s)
  {
    if s != "" {
      assert s[0..] == s;
      assert AllDigits(s) ==> IsDigit(s[0]);
    }
  }

  function HexDigit(c: char): Option<nat> {
    if '0' <= c <= '9' then Some(c as int - '0' as int)
    else if 'a' <= c <= 'f' then Some(c as int - 'a' as int + 10)
    else if 'A' <= c <= 'F' then Some(c as int - 'A' as int + 10)
    else None
  }

  predicate AllHex(s: string) {
    forall i :: 0 <= i < |s| ==> HexDigit(s[i]).Some?
  }

  function HexValue(s: string): nat
    requires AllHex(s)
  {
    if s == "" then 0 else HexValue(s[..|s| - 1]) * 16 + HexDigit(s[|s| - 1]).value
  }

  // strconv.ParseUint(s, 16, bits) with limit 2^bits - 1.
  function ParseHex(s: string, limit: nat): Option<nat> {
    if s != "" && AllHex(s) && HexValue(s) <= limit then Some(HexValue(s)) else None
  }

  lemma ParseHexFailsIff(s: string, limit: nat)
    ensures ParseHex(s, limit) == None <==>
            s == "" || (exists i :: 0 <= i < |s| && HexDigit(s[i]) == None) || (AllHex(s) && HexValue(s) > limit)
    ensures ParseHex("", limit) == None
  {
  }

  function HexChar(d: nat): char
    requires d < 16
  {
    if d < 10 then (d + '0' as int) as char else (d - 10 + 'A' as int) as char
  }

  // fmt's %02X of a byte.
  function Hex2(b: nat): string
    requires b < 256
  {
    [HexChar(b / 16), HexChar(b % 16)]
  }

  // Writing a byte after other hexadecimal digits.
  lemma Hex2Value(s: string, b: nat)
    requires AllHex(s) && b < 256
    ensures AllHex(s + Hex2(b)) && HexValue(s + Hex2(b)) == HexValue(s) * 256 + b
  {
    var one := s + [HexChar(b / 16)];
    assert one[..|one| - 1] == s;
    assert HexValue(one) == HexValue(s) * 16 + b / 16;
    var two := one + [HexChar(b % 16)];
    assert two[..|two| - 1] == one;
    assert s + Hex2(b) == two;
  }
}
