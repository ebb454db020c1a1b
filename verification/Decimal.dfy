/** Decimal numbers as `strconv` prints and parses them. */
module Decimal {
  import opened Text

  const MAX_INT64 := 0x7FFF_FFFF_FFFF_FFFF
  const MIN_INT64 := -0x8000_0000_0000_0000

  predicate InInt64(n: int) {
    MIN_INT64 <= n <= MAX_INT64
  }

  /** Two's-complement wrap-around of a 64-bit sum. */
  function Wrap64(n: int): (r: int)
    ensures InInt64(r)
    ensures InInt64(n) ==> r == n
    ensures (r - n) % 0x1_0000_0000_0000_0000 == 0
  {
    (n - MIN_INT64) % 0x1_0000_0000_0000_0000 + MIN_INT64
  }

  predicate IsDigit(c: char) {
    '0' <= c <= '9'
  }

  predicate AllDigits(s: string) {
    forall c :: c in s ==> IsDigit(c)
  }

  function DigitChar(d: nat): (c: char)
    requires d < 10
    ensures IsDigit(c)
  {
    '0' + d as char
  }

  function DigitValue(c: char): (d: nat)
    requires IsDigit(c)
    ensures d < 10 && DigitChar(d) == c
  {
    c as int - '0' as int
  }

  function PrintNat(n: nat): (s: string)
    ensures |s| > 0 && AllDigits(s)
    ensures |s| > 1 ==> s[0] != '0'
    ensures n == 0 <==> s == "0"
  {
    if n < 10 then [DigitChar(n)] else PrintNat(n / 10) + [DigitChar(n % 10)]
  }

  function ParseNat(s: string): (n: int)
    requires AllDigits(s)
    ensures n >= 0
  {
    if s == "" then 0 else 10 * ParseNat(s[..|s| - 1]) + DigitValue(s[|s| - 1])
  }

  lemma {:induction false} ParsePrintNat(n: nat)
    ensures ParseNat(PrintNat(n)) == n
  {
    if n < 10 {
      assert PrintNat(n)[..0] == "";
    } else {
      ParsePrintNat(n / 10);
      assert PrintNat(n)[..|PrintNat(n)| - 1] == PrintNat(n / 10);
    }
  }

  /** `strconv.Itoa`, and the `%d` verb. */
  function Itoa(n: int): (s: string)
    ensures |s| > 0
    ensures forall c :: c in s ==> IsDigit(c) || c == '-'
    ensures n >= 0 ==> s == PrintNat(n)
  {
    if n < 0 then "-" + PrintNat(-n) else PrintNat(n)
  }

  /** `strconv.ParseInt(s, 10, 64)`, and `strconv.Atoi` on a 64-bit platform. */
  function ParseInt(s: string): Option<int> {
    var negative := HasPrefix(s, "-");
    var digits := if negative || HasPrefix(s, "+") then s[1..] else s;
    if digits == "" || !AllDigits(digits) then None
    else
      var n := if negative then -ParseNat(digits) else ParseNat(digits);
      if InInt64(n) then Some(n) else None
  }

  /** Every 64-bit integer survives printing and parsing. */
  lemma ParseItoa(n: int)
    requires InInt64(n)
    ensures ParseInt(Itoa(n)) == Some(n)
  {
    if n < 0 {
      ParseNegative(-n);
    } else {
      ParsePositive(n);
    }
  }

  lemma ParsePositive(n: nat)
    requires InInt64(n)
    ensures ParseInt(PrintNat(n)) == Some(n)
  {
    ParsePrintNat(n);
    assert IsDigit(PrintNat(n)[0]);
  }

  lemma ParseNegative(n: int)
    requires n >= 0 && InInt64(-n)
    ensures ParseInt("-" + PrintNat(n)) == Some(-n)
  {
    ParsePrintNat(n);
    assert ("-" + PrintNat(n))[1..] == PrintNat(n);
  }

  function Zeros(n: nat): string {
    seq(n, _ => '0')
  }

  /** Digits are the printed number behind any number of zeros. */
  lemma {:induction false} DigitsForm(s: string) returns (zeros: nat)
    requires s != "" && AllDigits(s)
    ensures s == Zeros(zeros) + PrintNat(ParseNat(s))
  {
    var n := |s| - 1;
    var front, last := s[..n], DigitValue(s[n]);
    if front == "" {
      zeros := 0;
      assert s == [DigitChar(last)];
    } else {
      zeros := DigitsForm(front);
      if ParseNat(front) == 0 {
        zeros := zeros + 1;
        assert front == Zeros(zeros);
      }
      assert s == front + [DigitChar(last)];
    }
  }

  lemma {:induction false} ParseZeros(zeros: nat, n: nat)
    ensures AllDigits(Zeros(zeros) + PrintNat(n)) && ParseNat(Zeros(zeros) + PrintNat(n)) == n
    decreases zeros, n
  {
    var s := Zeros(zeros) + PrintNat(n);
    assert s[..|s| - 1] == Zeros(zeros) + PrintNat(n)[..|PrintNat(n)| - 1];
    if n < 10 {
      ZerosAreZero(zeros);
      assert s[..|s| - 1] == Zeros(zeros);
    } else {
      ParseZeros(zeros, n / 10);
      assert PrintNat(n)[..|PrintNat(n)| - 1] == PrintNat(n / 10);
    }
  }

  lemma {:induction false} ZerosAreZero(zeros: nat)
    ensures AllDigits(Zeros(zeros)) && ParseNat(Zeros(zeros)) == 0
  {
    if zeros == 0 {
    } else {
      ZerosAreZero(zeros - 1);
      assert Zeros(zeros)[..zeros - 1] == Zeros(zeros - 1);
    }
  }

  /** The text is the number: a sign or none, zeros, and its decimal digits. */
  predicate Spells(s: string, n: int, sign: string, zeros: nat) {
    && sign in {"", "+", "-"}
    && (if sign == "-" then n <= 0 else n >= 0)
    && s == sign + (Zeros(zeros) + PrintNat(if n < 0 then -n else n))
  }

  lemma ParsedSpells(s: string, n: int) returns (sign: string, zeros: nat)
    requires ParseInt(s) == Some(n)
    ensures Spells(s, n, sign, zeros)
  {
    sign := if HasPrefix(s, "-") then "-" else if HasPrefix(s, "+") then "+" else "";
    var digits := s[|sign|..];
    zeros := DigitsForm(digits);
    assert s == sign + digits;
  }

  lemma SpelledParses(s: string, n: int, sign: string, zeros: nat)
    requires InInt64(n) && Spells(s, n, sign, zeros)
    ensures ParseInt(s) == Some(n)
  {
    var abs := if n < 0 then -n else n;
    var digits := Zeros(zeros) + PrintNat(abs);
    ParseZeros(zeros, abs);
    assert digits[0] in digits && IsDigit(digits[0]);
    assert s[|sign|..] == digits;
    assert sign == "" ==> s[0] == digits[0];
  }

  /** Exactly the texts that spell a 64-bit number are parsed, as that number. */
  lemma ParseIntExactly(s: string, n: int)
    ensures ParseInt(s) == Some(n) <==> InInt64(n) && exists sign, zeros :: Spells(s, n, sign, zeros)
  {
    if ParseInt(s) == Some(n) {
      var sign, zeros := ParsedSpells(s, n);
    }
    if InInt64(n) && exists sign, zeros :: Spells(s, n, sign, zeros) {
      var sign, zeros :| Spells(s, n, sign, zeros);
      SpelledParses(s, n, sign, zeros);
    }
  }
}
