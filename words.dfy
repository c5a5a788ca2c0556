/** Machine words as the Go source uses them: bytes, the 64-bit `int`, its
    wrap-around arithmetic, its truncating division, and the decimal text
    that `%d` / `%v` produce for it. */
module Words {

  /** A Go byte.  Bytes are written as characters below 256 so that byte
      strings such as " \t\n" can be written literally. */
  type byte = c: char | c as int < 256 witness ' '

  const SP: byte := ' '
  const TAB: byte := '\t'
  const LF: byte := '\n'

  /** `math.MaxInt` on a 64-bit platform. */
  const MaxInt: int := 0x7fff_ffff_ffff_ffff
  const MinInt: int := -0x8000_0000_0000_0000
  const Modulus: int := 0x1_0000_0000_0000_0000

  /** Go's `int` on a 64-bit platform. */
  type int64 = x: int | MinInt <= x <= MaxInt

  /** Two's-complement wrap-around into 64 bits, which is what `+=`, `-=`,
      `*=` and `/=` on Go `int` do silently. */
  function Wrap(x: int): (r: int64)
    ensures (r - x) % Modulus == 0
    ensures MinInt <= x <= MaxInt ==> r == x
  {
    (x - MinInt) % Modulus + MinInt
  }

  function Abs(x: int): nat {
    if x < 0 then -x else x
  }

  /** Go's integer `/`: the quotient truncated toward zero. */
  function TruncDiv(a: int, b: int): int
    requires b != 0
  {
    var q := Abs(a) / Abs(b);
    if (a < 0) == (b < 0) then q else -q
  }

  /** Go's integer `%`: the remainder that goes with `TruncDiv`. */
  function TruncMod(a: int, b: int): int
    requires b != 0
  {
    a - b * TruncDiv(a, b)
  }

  lemma EuclidNat(A: int, B: int)
    requires A >= 0 && B > 0
    ensures A == B * (A / B) + A % B && 0 <= A % B < B && 0 <= B * (A / B)
  {
  }

  lemma TruncProduct(a: int, b: int)
    requires b != 0
    ensures var bq := Abs(b) * (Abs(a) / Abs(b));
      b * TruncDiv(a, b) == if a < 0 then -bq else bq
  {
    var B: int, q: int := Abs(b), Abs(a) / Abs(b);
    if a >= 0 && b > 0 {
      assert TruncDiv(a, b) == q;
    } else if a >= 0 {
      assert TruncDiv(a, b) == -q;
      assert b * -q == B * q;
    } else if b > 0 {
      assert TruncDiv(a, b) == -q;
      assert b * -q == -(B * q);
    } else {
      assert TruncDiv(a, b) == q;
      assert b * q == -(B * q);
    }
  }

  /** The Go specification of `/` and `%`: `a == b*q + r` with `|r| < |b|`,
      the remainder carrying the sign of the dividend, so the quotient never
      rounds away from zero. */
  lemma TruncDivMod(a: int, b: int)
    requires b != 0
    ensures a == b * TruncDiv(a, b) + TruncMod(a, b)
    ensures Abs(TruncMod(a, b)) < Abs(b)
    ensures a >= 0 ==> TruncMod(a, b) >= 0
    ensures a <= 0 ==> TruncMod(a, b) <= 0
    ensures Abs(b * TruncDiv(a, b)) <= Abs(a)
  {
    EuclidNat(Abs(a), Abs(b));
    TruncProduct(a, b);
  }

  // ---------------------------------------------------------------------
  // Decimal text, as `%d` and `%v` print an integer

  function DigitChar(d: nat): (c: char)
    requires d < 10
    ensures '0' <= c <= '9'
  {
    "0123456789"[d]
  }

  /** The decimal digits of a natural number, most significant first and
      without leading zeros. */
  function Digits(n: nat): (s: string)
    ensures |s| > 0
    ensures forall i :: 0 <= i < |s| ==> '0' <= s[i] <= '9'
    ensures n > 0 ==> s[0] != '0'
  {
    if n < 10 then [DigitChar(n)] else Digits(n / 10) + [DigitChar(n % 10)]
  }

  /** `%d` of an integer: a minus sign for negative numbers, then the digits. */
  function Decimal(n: int): (s: string)
    ensures |s| > 0
    ensures forall i :: 0 <= i < |s| ==> s[i] == '-' || '0' <= s[i] <= '9'
  {
    (if n < 0 then "-" else "") + Digits(Abs(n))
  }

  /** Reads digits back; the reference against which `Digits` is checked. */
  function ParseDigits(s: string): int
  {
    if s == [] then 0
    else ParseDigits(s[..|s| - 1]) * 10 + (s[|s| - 1] as int - '0' as int)
  }

  function ParseDecimal(s: string): int
  {
    if |s| > 0 && s[0] == '-' then -ParseDigits(s[1..]) else ParseDigits(s)
  }

  lemma {:induction false} DigitsRoundTrip(n: nat)
    ensures ParseDigits(Digits(n)) == n
  {
    if n >= 10 {
      var s := Digits(n);
      assert s[..|s| - 1] == Digits(n / 10);
      DigitsRoundTrip(n / 10);
    }
  }

  /** A leading minus sign negates the digits after it. */
  lemma ParseMinus(d: string)
    ensures ParseDecimal("-" + d) == -ParseDigits(d)
  {
    assert ("-" + d)[1..] == d;
  }

  lemma MinusDigits(m: nat)
    ensures ParseDecimal("-" + Digits(m)) == -(m as int)
  {
    ParseMinus(Digits(m));
    DigitsRoundTrip(m);
  }

  lemma NegativeRoundTrip(n: int)
    requires n < 0
    ensures ParseDecimal(Decimal(n)) == n
  {
    MinusDigits(-n);
  }

  lemma NonNegativeRoundTrip(n: int)
    requires n >= 0
    ensures ParseDecimal(Decimal(n)) == n
  {
    assert Decimal(n) == Digits(n);
    assert Digits(n)[0] != '-';
    DigitsRoundTrip(n);
  }

  /** The decimal text of an integer determines the integer. */
  lemma DecimalRoundTrip(n: int)
    ensures ParseDecimal(Decimal(n)) == n
  {
    if n < 0 {
      NegativeRoundTrip(n);
    } else {
      NonNegativeRoundTrip(n);
    }
  }

  lemma DecimalInjective(a: int, b: int)
    ensures Decimal(a) == Decimal(b) <==> a == b
  {
    DecimalRoundTrip(a);
    DecimalRoundTrip(b);
  }
}
