/**
 * Decimal text for integers: how Go's `%d` verb renders an `int`, and how
 * strconv.Atoi reads one back (base 10, an optional '+' or '-' sign, at least
 * one digit, the value within the 64-bit `int` range).
 */
module Decimal {
  import opened Wrappers
  import opened Errors

  const Int64Min: int := -0x8000_0000_0000_0000
  const Int64Max: int := 0x7FFF_FFFF_FFFF_FFFF

  predicate IsDigit(c: char) {
    '0' <= c <= '9'
  }

  predicate AllDigits(s: string) {
    forall i :: 0 <= i < |s| ==> IsDigit(s[i])
  }

  function DigitChar(d: nat): (c: char)
    requires d < 10
    ensures IsDigit(c)
  {
    (d + '0' as int) as char
  }

  function DigitValue(c: char): (d: nat)
    requires IsDigit(c)
    ensures d < 10 && DigitChar(d) == c
  {
    c as int - '0' as int
  }

  /** The decimal digits of `n`, most significant first, without leading zeros. */
  function NatToString(n: nat): (s: string)
    ensures |s| >= 1 && AllDigits(s)
    ensures |s| > 1 ==> s[0] != '0'
    decreases n
  {
    if n < 10 then [DigitChar(n)] else NatToString(n / 10) + [DigitChar(n % 10)]
  }

  /** What `fmt.Sprintf("%d", i)` produces: a '-' before the magnitude of a negative number. */
  function IntToString(i: int): (s: string)
    ensures |s| >= 1
    ensures s[0] == '-' <==> i < 0
    ensures AllDigits(if i < 0 then s[1..] else s) && (i < 0 ==> |s| >= 2)
  {
    if i < 0 then "-" + NatToString(-i) else NatToString(i)
  }

  /** The value of a string of digits, read most significant first. */
  function DigitsValue(s: string): nat
    requires AllDigits(s)
  {
    if s == [] then 0 else DigitsValue(s[..|s| - 1]) * 10 + DigitValue(s[|s| - 1])
  }

  lemma {:induction false} DigitsValueOfNatToString(n: nat)
    ensures DigitsValue(NatToString(n)) == n
    decreases n
  {
    var s := NatToString(n);
    if n >= 10 {
      DigitsValueOfNatToString(n / 10);
      assert s[..|s| - 1] == NatToString(n / 10);
      assert DigitValue(s[|s| - 1]) == n % 10;
    } else {
      assert s[..|s| - 1] == [];
    }
  }

  const Uint64Max: int := 0xFFFF_FFFF_FFFF_FFFF

  /** The text after an optional leading '+' or '-'. */
  function Unsigned(s: string): (u: string)
    ensures |s| >= 1 && (s[0] == '+' || s[0] == '-') ==> u == s[1..]
    ensures !(|s| >= 1 && (s[0] == '+' || s[0] == '-')) ==> u == s
  {
    if |s| >= 1 && (s[0] == '+' || s[0] == '-') then s[1..] else s
  }

  /** The shape Atoi accepts: an optional sign followed by one or more digits. */
  predicate Decimalish(s: string) {
    |Unsigned(s)| >= 1 && AllDigits(Unsigned(s))
  }

  /** The integer a decimal-looking string denotes, before any range check. */
  function SignedValue(s: string): int
    requires Decimalish(s)
  {
    if s[0] == '-' then -(DigitsValue(Unsigned(s)) as int) else DigitsValue(Unsigned(s))
  }

  /** The longest prefix of `s` made of digits. */
  function LeadingDigits(s: string): (p: string)
    ensures p <= s && AllDigits(p)
    ensures |p| < |s| ==> !IsDigit(s[|p|])
    ensures AllDigits(s) ==> p == s
  {
    if s == [] || !IsDigit(s[0]) then [] else [s[0]] + LeadingDigits(s[1..])
  }

  /**
   * strconv.Atoi on a 64-bit platform. Strings shorter than 19 bytes take a
   * fast path that cannot overflow; longer ones go through ParseInt, whose
   * digit loop reports a range error as soon as the value read so far passes
   * the unsigned 64-bit maximum, before it looks at a later bad character.
   * Both paths agree on short strings, so one definition covers them.
   */
  function Atoi(s: string): (r: Result<int, NumError>)
    ensures r.Success? ==> Decimalish(s) && r.value == SignedValue(s)
    ensures r.Success? ==> Int64Min <= r.value <= Int64Max
    ensures Decimalish(s) && Int64Min <= SignedValue(s) <= Int64Max ==> r.Success?
    ensures Decimalish(s) && !(Int64Min <= SignedValue(s) <= Int64Max) ==> r == Failure(Range)
    ensures !Decimalish(s) ==> r.Failure?
  {
    var digits := Unsigned(s);
    var prefix := LeadingDigits(digits);
    if digits == [] then Failure(Syntax)
    else if DigitsValue(prefix) > Uint64Max then Failure(Range)
    else if |prefix| < |digits| then Failure(Syntax)
    else
      assert prefix == digits;
      var v: int := if s[0] == '-' then -(DigitsValue(digits) as int) else DigitsValue(digits);
      if v < Int64Min || Int64Max < v then Failure(Range) else Success(v)
  }

  function Pow10(k: nat): (p: nat)
    ensures p >= 1
  {
    if k == 0 then 1 else 10 * Pow10(k - 1)
  }

  lemma {:induction false} DigitsValueBelowPow10(s: string)
    requires AllDigits(s)
    ensures DigitsValue(s) < Pow10(|s|)
    decreases |s|
  {
    if s != [] {
      DigitsValueBelowPow10(s[..|s| - 1]);
    }
  }

  lemma {:induction false} Pow10Monotone(j: nat, k: nat)
    requires j <= k
    ensures Pow10(j) <= Pow10(k)
    decreases k
  {
    if j < k {
      Pow10Monotone(j, k - 1);
    }
  }

  lemma Pow10Of18()
    ensures Pow10(18) == 1_000_000_000_000_000_000
  {
    assert Pow10(1) == 10;
    assert Pow10(2) == 100;
    assert Pow10(3) == 1000;
    assert Pow10(4) == 10000;
    assert Pow10(5) == 100000;
    assert Pow10(6) == 1000000;
    assert Pow10(7) == 10000000;
    assert Pow10(8) == 100000000;
    assert Pow10(9) == 1000000000;
    assert Pow10(10) == 10000000000;
    assert Pow10(11) == 100000000000;
    assert Pow10(12) == 1000000000000;
    assert Pow10(13) == 10000000000000;
    assert Pow10(14) == 100000000000000;
    assert Pow10(15) == 1000000000000000;
    assert Pow10(16) == 10000000000000000;
    assert Pow10(17) == 100000000000000000;
    assert Pow10(18) == 1000000000000000000;
  }

  /**
   * The fast path: a string shorter than 19 bytes that is not an optional
   * sign followed by digits is always a syntax error, never a range error.
   */
  lemma AtoiShortSyntaxError(s: string)
    requires |s| < 19 && !Decimalish(s)
    ensures Atoi(s) == Failure(Syntax)
  {
    var digits := Unsigned(s);
    var prefix := LeadingDigits(digits);
    if digits != [] {
      DigitsValueBelowPow10(prefix);
      Pow10Monotone(|prefix|, 18);
      Pow10Of18();
    }
  }

  /** Atoi reads back every 64-bit integer that `%d` prints. */
  lemma AtoiOfIntToString(i: int)
    requires Int64Min <= i <= Int64Max
    ensures Atoi(IntToString(i)) == Success(i)
  {
    var s := IntToString(i);
    var digits := NatToString(if i < 0 then -i else i);
    assert Unsigned(s) == digits by {
      if i < 0 {
        assert s[1..] == digits;
      }
    }
    assert LeadingDigits(digits) == digits;
    DigitsValueOfNatToString(if i < 0 then -i else i);
  }

  /** Distinct integers print differently, so `%d` loses no information. */
  lemma IntToStringInjective(i: int, j: int)
    requires Int64Min <= i <= Int64Max && Int64Min <= j <= Int64Max
    requires IntToString(i) == IntToString(j)
    ensures i == j
  {
    AtoiOfIntToString(i);
    AtoiOfIntToString(j);
  }

  lemma AtoiOfDecimal(s: string)
    requires Decimalish(s) && Int64Min <= SignedValue(s) <= Int64Max
    ensures Atoi(s) == Success(SignedValue(s))
  {
  }

  lemma AtoiReads100()
    ensures Atoi("100") == Success(100)
  {
    assert "100"[..2] == "10" && "10"[..1] == "1" && "1"[..0] == "";
    assert Unsigned("100") == "100" && DigitsValue("100") == 100;
    AtoiOfDecimal("100");
  }

  lemma AtoiReadsSigned()
    ensures Atoi("-5") == Success(-5) && Atoi("+7") == Success(7)
  {
    assert Unsigned("-5") == "5" && "5"[..0] == "" && DigitsValue("5") == 5;
    AtoiOfDecimal("-5");
    assert Unsigned("+7") == "7" && "7"[..0] == "" && DigitsValue("7") == 7;
    AtoiOfDecimal("+7");
  }

  /** Lengths the Go tests and an HTTP server send, which Atoi reads. */
  lemma AtoiExamples()
    ensures Atoi("100") == Success(100)
    ensures Atoi("-5") == Success(-5)
    ensures Atoi("+7") == Success(7)
  {
    AtoiReads100();
    AtoiReadsSigned();
  }

  /** Lengths Atoi refuses as syntax errors: a word, nothing, a bare sign, a trailing letter or space. */
  lemma AtoiSyntaxExamples()
    ensures Atoi("abc") == Failure(Syntax)
    ensures Atoi("") == Failure(Syntax)
    ensures Atoi("-") == Failure(Syntax)
    ensures Atoi("12a") == Failure(Syntax)
    ensures Atoi("100 ") == Failure(Syntax)
  {
    assert !IsDigit("abc"[0]);
    AtoiShortSyntaxError("abc");
    AtoiShortSyntaxError("");
    assert Unsigned("-") == "";
    AtoiShortSyntaxError("-");
    assert !IsDigit("12a"[2]);
    AtoiShortSyntaxError("12a");
    assert !IsDigit("100 "[3]);
    AtoiShortSyntaxError("100 ");
  }

  /**
   * ParseInt's digit loop checks for overflow digit by digit: once the digits
   * read so far pass the unsigned 64-bit maximum the result is a range
   * error, whatever follows.
   */
  lemma AtoiOverflowFirst(s: string)
    requires |Unsigned(s)| >= 1 && DigitsValue(LeadingDigits(Unsigned(s))) > Uint64Max
    ensures Atoi(s) == Failure(Range)
  {
  }

  /**
   * Twenty nines followed by anything, a letter included: the digit loop
   * passes the unsigned 64-bit maximum at the twentieth digit, so the error
   * is a range error even when the string is not a number at all.
   */
  lemma AtoiRangeBeforeSyntax(s: string)
    requires |s| >= 20 && forall i :: 0 <= i < 20 ==> s[i] == '9'
    ensures Atoi(s) == Failure(Range)
  {
    assert Unsigned(s) == s;
    var prefix := LeadingDigits(s);
    LeadingDigitsCovers(s, 20);
    assert prefix[..20] == s[..20];
    DigitsValueOfPrefix(prefix, 20);
    TwentyNinesOverflow(s[..20]);
    AtoiOverflowFirst(s);
  }

  /** When the first `k` characters are digits, the leading digits run at least that far. */
  lemma {:induction false} LeadingDigitsCovers(s: string, k: nat)
    requires k <= |s| && forall i :: 0 <= i < k ==> IsDigit(s[i])
    ensures |LeadingDigits(s)| >= k
    decreases k
  {
    if k > 0 {
      LeadingDigitsCovers(s[1..], k - 1);
    }
  }

  lemma {:induction false} DigitsValueOfPrefix(s: string, k: nat)
    requires AllDigits(s) && k <= |s|
    ensures DigitsValue(s[..k]) <= DigitsValue(s)
    decreases |s|
  {
    if k < |s| {
      assert s[..|s| - 1][..k] == s[..k];
      DigitsValueOfPrefix(s[..|s| - 1], k);
    } else {
      assert s[..k] == s;
    }
  }

  lemma TwentyNinesOverflow(t: string)
    requires |t| == 20 && forall i :: 0 <= i < |t| ==> t[i] == '9'
    ensures AllDigits(t) && DigitsValue(t) > Uint64Max
  {
    NinesValue(t);
    Pow10Of18();
    assert Pow10(20) == 100 * Pow10(18);
  }

  /** A run of nines is one less than the matching power of ten. */
  lemma {:induction false} NinesValue(s: string)
    requires AllDigits(s) && forall i :: 0 <= i < |s| ==> s[i] == '9'
    ensures DigitsValue(s) == Pow10(|s|) - 1
    decreases |s|
  {
    if s != [] {
      NinesValue(s[..|s| - 1]);
    }
  }
}
