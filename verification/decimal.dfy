/** Decimal integers: what `%d` prints and what Go's `strconv.Atoi` (64-bit) accepts. */
module Decimal {
  import opened Wrappers

  const MIN_INT64: int := -0x8000_0000_0000_0000
  const MAX_INT64: int := 0x7FFF_FFFF_FFFF_FFFF

  predicate Int64(n: int) {
    MIN_INT64 <= n <= MAX_INT64
  }

  predicate IsDigit(c: char) {
    '0' <= c <= '9'
  }

  predicate Digits(s: string) {
    forall i :: 0 <= i < |s| ==> IsDigit(s[i])
  }

  function DigitChar(d: nat): (c: char)
    requires d < 10
    ensures IsDigit(c) && c as int - '0' as int == d
  {
    '0' + d as char
  }

  function PrintNat(n: nat): (s: string)
    ensures s != "" && Digits(s)
  {
    if n < 10 then [DigitChar(n)] else PrintNat(n / 10) + [DigitChar(n % 10)]
  }

  /** What the verb `%d` prints. */
  function Print(n: int): (s: string)
  {
    if n < 0 then "-" + PrintNat(-n) else PrintNat(n)
  }

  function DigitsValue(s: string): nat
    requires Digits(s)
  {
    if s == "" then 0
    else 10 * DigitsValue(s[..|s| - 1]) + (s[|s| - 1] as int - '0' as int)
  }

  /** `strconv.Atoi`: an optional sign, at least one digit, nothing else, and a value that fits 64 bits. */
  function Atoi(s: string): Option<int> {
    var signed := s != "" && (s[0] == '-' || s[0] == '+');
    var body := if signed then s[1..] else s;
    if body == "" || !Digits(body) then None
    else
      var v: int := DigitsValue(body);
      var n := if signed && s[0] == '-' then -v else v;
      if Int64(n) then Some(n) else None
  }

  lemma {:induction false} DigitsValuePrint(n: nat)
    ensures DigitsValue(PrintNat(n)) == n
  {
    if n >= 10 {
      DigitsValuePrint(n / 10);
      assert PrintNat(n)[..|PrintNat(n)| - 1] == PrintNat(n / 10);
    }
  }

  lemma AtoiDigits(s: string)
    requires s != "" && Digits(s)
    ensures Atoi(s) == if Int64(DigitsValue(s)) then Some(DigitsValue(s)) else None
    ensures
      var v: int := DigitsValue(s);
      Atoi("-" + s) == if Int64(-v) then Some(-v) else None
  {
    assert IsDigit(s[0]);
    assert ("-" + s)[1..] == s;
  }

  /** Every 64-bit integer survives printing and parsing. */
  lemma AtoiPrint(n: int)
    requires Int64(n)
    ensures Atoi(Print(n)) == Some(n)
  {
    if n < 0 {
      DigitsValuePrint(-n);
      AtoiDigits(PrintNat(-n));
    } else {
      DigitsValuePrint(n);
      AtoiDigits(PrintNat(n));
    }
  }

  lemma PrintInjective(a: nat, b: nat)
    requires PrintNat(a) == PrintNat(b)
    ensures a == b
  {
    DigitsValuePrint(a);
    DigitsValuePrint(b);
  }

  lemma AtoiNeedsDigits(s: string, c: char)
    requires Atoi(s).Some?
    requires !IsDigit(c) && c != '-' && c != '+'
    ensures c !in s
  {
    var signed := s[0] == '-' || s[0] == '+';
    forall i | 0 <= i < |s| ensures s[i] != c {
      if signed && i > 0 {
        assert s[i] == s[1..][i - 1];
      }
    }
  }

  /** `d` is the text of `n` after its sign, if it has one. */
  predicate ReadsAs(s: string, n: int, d: string) {
    && d != "" && Digits(d)
    && (((s == d || s == "+" + d) && n == DigitsValue(d)) || (s == "-" + d && n + DigitsValue(d) == 0))
  }

  /** Exactly the texts that are read: an optional sign, then at least one digit and nothing else, within 64 bits. */
  lemma AtoiIff(s: string, n: int)
    ensures Atoi(s) == Some(n) <==> Int64(n) && exists d :: ReadsAs(s, n, d)
  {
    if Atoi(s) == Some(n) {
      if s[0] == '-' || s[0] == '+' {
        assert s == [s[0]] + s[1..];
        assert ReadsAs(s, n, s[1..]);
      } else {
        assert ReadsAs(s, n, s);
      }
    }
    if d :| ReadsAs(s, n, d) {
      assert IsDigit(d[0]);
      assert ("-" + d)[1..] == d && ("+" + d)[1..] == d;
    }
  }
}
