/** Decimal printing and parsing of 64-bit integers (Go package `strconv`). */
module Decimal {
  import opened Wrappers

  const MAX_INT64: int := 0x7FFF_FFFF_FFFF_FFFF
  const MIN_INT64: int := -0x8000_0000_0000_0000

  predicate IsDigit(c: char) {
    '0' <= c <= '9'
  }

  predicate AllDigits(s: string) {
    forall i :: 0 <= i < |s| ==> IsDigit(s[i])
  }

  function Digit(d: nat): (c: char)
    requires d < 10
    ensures IsDigit(c) && c as int - '0' as int == d
  {
    ('0' as int + d) as char
  }

  /** The digits of a number, without leading zeros. */
  function FormatNat(n: nat): (s: string)
    ensures s != "" && AllDigits(s)
  {
    if n < 10 then [Digit(n)] else FormatNat(n / 10) + [Digit(n % 10)]
  }

  /** strconv.FormatInt(n, 10) */
  function FormatInt(n: int): string {
    if n < 0 then "-" + FormatNat(-n) else FormatNat(n)
  }

  /** The number a string of digits stands for; 0 for the empty string. */
  function ParseDigits(s: string): Option<int> {
    if s == "" then Some(0)
    else if !IsDigit(s[|s| - 1]) then None
    else
      match ParseDigits(s[..|s| - 1])
      case None => None
      case Some(n) => Some(10 * n + (s[|s| - 1] as int - '0' as int))
  }

  /** strconv.ParseInt(s, 10, 64): an optional sign, then one or more digits, in range. */
  function ParseInt(s: string): Option<int> {
    if s == "" then None
    else if s[0] == '-' then InRange(s[1..], -1)
    else if s[0] == '+' then InRange(s[1..], 1)
    else InRange(s, 1)
  }

  function InRange(digits: string, sign: int): Option<int> {
    if digits == "" then None
    else
      match ParseDigits(digits)
      case None => None
      case Some(n) => if MIN_INT64 <= sign * n <= MAX_INT64 then Some(sign * n) else None
  }

  lemma {:induction false} FormatNatValue(n: nat)
    ensures ParseDigits(FormatNat(n)) == Some(n)
  {
    if n >= 10 {
      FormatNatValue(n / 10);
      var s := FormatNat(n);
      assert s[..|s| - 1] == FormatNat(n / 10);
    } else {
      assert FormatNat(n)[..0] == "";
    }
  }

  lemma InRangeFormat(n: nat, sign: int)
    requires MIN_INT64 <= sign * n <= MAX_INT64
    ensures InRange(FormatNat(n), sign) == Some(sign * n)
  {
    FormatNatValue(n);
  }

  /** Parsing undoes printing on every 64-bit integer. */
  lemma ParseFormat(n: int)
    requires MIN_INT64 <= n <= MAX_INT64
    ensures ParseInt(FormatInt(n)) == Some(n)
  {
    if n < 0 {
      InRangeFormat(-n, -1);
      assert FormatInt(n)[1..] == FormatNat(-n);
    } else {
      InRangeFormat(n, 1);
      assert IsDigit(FormatNat(n)[0]);
    }
  }

  /** Printing is injective. */
  lemma FormatNatInjective(m: nat, n: nat)
    requires FormatNat(m) == FormatNat(n)
    ensures m == n
  {
    FormatNatValue(m);
    FormatNatValue(n);
  }

  // ------------------------------------------------------------------
  // What the texts are
  // ------------------------------------------------------------------

  /** Each further digit multiplies by ten and adds its place in "0123456789". */
  lemma DigitAppended(s: string, d: nat)
    requires AllDigits(s) && d < 10
    ensures ParseDigits("") == Some(0)
    ensures ParseDigits(s).Some? && ParseDigits(s + ["0123456789"[d]]) == Some(10 * ParseDigits(s).value + d)
  {
    DigitsParse(s);
    DigitPlace(d);
    AppendedValue(s, "0123456789"[d]);
  }

  lemma DigitPlace(d: nat)
    requires d < 10
    ensures "0123456789"[d] as int == '0' as int + d
  {
  }

  lemma AppendedValue(s: string, c: char)
    requires ParseDigits(s).Some? && IsDigit(c)
    ensures ParseDigits(s + [c]) == Some(10 * ParseDigits(s).value + (c as int - '0' as int))
  {
    assert (s + [c])[..|s|] == s;
  }

  lemma {:induction false} DigitsParse(s: string)
    requires AllDigits(s)
    ensures ParseDigits(s).Some? && ParseDigits(s).value >= 0
  {
    if s != "" {
      DigitsParse(s[..|s| - 1]);
    }
  }

  lemma DigitChars(c: char)
    ensures IsDigit(c) <==> c in "0123456789"
  {
    if IsDigit(c) {
      assert "0123456789"[c as int - '0' as int] == c;
    }
  }

  /** Any other character is refused. */
  lemma {:induction false} NonDigitRefused(s: string, i: nat)
    requires i < |s| && s[i] !in "0123456789"
    ensures ParseDigits(s) == None
    ensures i > 0 || s[0] !in "+-" ==> ParseInt(s) == None
  {
    DigitChars(s[i]);
    if i < |s| - 1 {
      NonDigitRefused(s[..|s| - 1], i);
    }
    if i > 0 && s[0] in "+-" {
      NonDigitTail(s[1..], i - 1);
    }
  }

  lemma {:induction false} NonDigitTail(s: string, i: nat)
    requires i < |s| && !IsDigit(s[i])
    ensures ParseDigits(s) == None
  {
    if i < |s| - 1 {
      NonDigitTail(s[..|s| - 1], i);
    }
  }

  /** No number but zero begins with a zero. */
  lemma {:induction false} NoLeadingZero(n: nat)
    ensures FormatNat(0) == "0" && (n > 0 ==> FormatNat(n)[0] != '0')
  {
    if n >= 10 {
      NoLeadingZero(n / 10);
    }
  }

  /** A printed integer parses exactly when it has 64 bits. */
  lemma ParseFormatIff(n: int)
    ensures ParseInt(FormatInt(n)) ==
      if -9223372036854775808 <= n <= 9223372036854775807 then Some(n) else None
  {
    FormatNatValue(if n < 0 then -n else n);
    if n < 0 {
      assert FormatInt(n)[1..] == FormatNat(-n);
    } else {
      assert IsDigit(FormatNat(n)[0]);
    }
  }

  /** Signs: "+" is taken, "-" negates, and a sign alone is no number. */
  lemma SignedText(n: int)
    requires 0 <= n <= 9223372036854775807
    ensures ParseInt("+" + FormatNat(n)) == Some(n) && ParseInt("-" + FormatNat(n)) == Some(-n)
    ensures ParseInt("") == ParseInt("+") == ParseInt("-") == None
  {
    FormatNatValue(n);
    assert ("+" + FormatNat(n))[1..] == FormatNat(n) && ("-" + FormatNat(n))[1..] == FormatNat(n);
  }
}
