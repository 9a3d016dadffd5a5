/** The few pieces of Java semantics the stopwatch relies on: nullable strings,
    the one exception it can raise, `int` and `long` ranges, `long` division
    (which truncates toward zero) and the decimal rendering of a `long` that
    string concatenation performs. */
module JavaLang {

  datatype Option<T> = None | Some(value: T)

  /** The exceptions the modelled code can raise. */
  datatype Exception = ArithmeticException

  /** The outcome of a Java call that either returns a value or throws. */
  datatype Result<T> = Ok(value: T) | Err(error: Exception)

  /** A Java `String` reference, which may be `null`. */
  type JString = Option<string>

  /** What string concatenation (`"" + s`, `StringBuilder.append(s)`) writes for `s`. */
  function StringValueOf(s: JString): string {
    match s
    case None => "null"
    case Some(v) => v
  }

  const MinLong: int := -0x8000_0000_0000_0000
  const MaxLong: int := 0x7fff_ffff_ffff_ffff

  /** A Java `int`. */
  type Int32 = x: int | -0x8000_0000 <= x < 0x8000_0000

  function Abs(x: int): nat {
    if x < 0 then -x else x
  }

  /** Java's integer division (section 15.17.2 of the Java Language
      Specification): the quotient is rounded toward zero, so the remainder
      takes the sign of the dividend and is smaller than the divisor in
      magnitude. Dafny's own `/` rounds toward negative infinity instead. */
  function Div(a: int, b: int): (q: int)
    requires b != 0
    ensures Abs(a - q * b) < Abs(b)
    ensures a - q * b == 0 || (a - q * b < 0 <==> a < 0)
    ensures Abs(q) <= Abs(a)
    ensures (a < 0) == (b < 0) ==> q >= 0
  {
    var m := Abs(a) / Abs(b);
    var q := if (a < 0) == (b < 0) then m else -m;
    TruncatedQuotient(a, b, m, q);
    q
  }

  lemma TruncatedQuotient(a: int, b: int, m: int, q: int)
    requires b != 0 && m == Abs(a) / Abs(b)
    requires q == if (a < 0) == (b < 0) then m else -m
    ensures Abs(a - q * b) < Abs(b)
    ensures a - q * b == 0 || (a - q * b < 0 <==> a < 0)
    ensures Abs(q) <= Abs(a)
  {
    var x, y := Abs(a), Abs(b);
    var r: int := x % y;
    DivideMagnitudes(x, y);
    var p := q * b;
    SignedProduct(a, b, m, q, y);
    assert a - p == (if a < 0 then -r else r);
    assert 0 <= m <= x;
    assert Abs(q) == m;
  }

  /** Division of magnitudes, the step Java and Dafny agree on. */
  lemma DivideMagnitudes(x: nat, y: nat)
    requires y > 0
    ensures x == (x / y) * y + x % y && 0 <= x % y < y
    ensures 0 <= x / y <= x
  {
    var m, r := x / y, x % y;
    assert x == m * y + r;
    AtLeastOnce(m, y);
  }

  lemma {:induction false} AtLeastOnce(m: nat, y: nat)
    requires y > 0
    ensures m <= m * y
    decreases y
  {
    if y > 1 {
      AtLeastOnce(m, y - 1);
      assert m * y == m * (y - 1) + m;
    }
  }

  /** The product of the signed quotient and the divisor has the dividend's sign. */
  lemma SignedProduct(a: int, b: int, m: int, q: int, y: int)
    requires b != 0 && y == Abs(b)
    requires q == if (a < 0) == (b < 0) then m else -m
    ensures q * b == if a < 0 then -(m * y) else m * y
  {
    if b < 0 {
      assert y == -b;
      if a < 0 {
        assert q * b == m * (-y);
      } else {
        assert q * b == (-m) * (-y);
      }
    } else {
      assert y == b;
      if a < 0 {
        assert q * b == (-m) * y;
      } else {
        assert q * b == m * y;
      }
    }
  }

  predicate IsDigit(c: char) {
    '0' <= c <= '9'
  }

  function DigitChar(d: int): (c: char)
    requires 0 <= d < 10
    ensures IsDigit(c)
  {
    ('0' as int + d) as char
  }

  function DigitValue(c: char): (d: int)
    requires IsDigit(c)
  {
    c as int - '0' as int
  }

  /** The decimal digits of `n`, most significant first, without leading zeros. */
  function NatToDigits(n: nat): (s: string)
    ensures |s| >= 1
    ensures forall i :: 0 <= i < |s| ==> IsDigit(s[i])
    ensures s[0] == '0' ==> n == 0
  {
    if n < 10 then [DigitChar(n)] else NatToDigits(n / 10) + [DigitChar(n % 10)]
  }

  /** `Long.toString(n)`, which concatenating a `long` to a string performs. */
  function LongToString(n: int): (s: string)
    ensures |s| >= 1
    ensures s[0] == '-' <==> n < 0
    ensures forall i :: 0 <= i < |s| ==> IsDigit(s[i]) || (i == 0 && s[i] == '-')
  {
    if n < 0 then "-" + NatToDigits(-n) else NatToDigits(n)
  }

  /** Reads back a non-empty run of decimal digits; `None` for anything else. */
  function ParseDigits(s: string): Option<nat> {
    if |s| == 0 || !IsDigit(s[|s| - 1]) then None
    else if |s| == 1 then Some(DigitValue(s[0]))
    else
      match ParseDigits(s[..|s| - 1])
      case None => None
      case Some(m) => Some(10 * m + DigitValue(s[|s| - 1]))
  }

  /** Reads back a decimal number with an optional leading minus sign. */
  function ParseLong(s: string): Option<int> {
    if |s| > 0 && s[0] == '-' then
      match ParseDigits(s[1..])
      case None => None
      case Some(m) => Some(-(m as int))
    else
      ParseDigits(s)
  }

  lemma {:induction false} DigitsRoundTrip(n: nat)
    ensures ParseDigits(NatToDigits(n)) == Some(n)
  {
    if n >= 10 {
      var s := NatToDigits(n);
      assert s[..|s| - 1] == NatToDigits(n / 10);
      DigitsRoundTrip(n / 10);
    }
  }

  /** The decimal rendering loses nothing: it reads back as the number itself. */
  lemma LongToStringRoundTrip(n: int)
    ensures ParseLong(LongToString(n)) == Some(n)
  {
    if n < 0 {
      var s := LongToString(n);
      assert s[1..] == NatToDigits(-n);
      DigitsRoundTrip(-n);
    } else {
      DigitsRoundTrip(n);
    }
  }

  /** Distinct numbers render differently. */
  lemma LongToStringInjective(m: int, n: int)
    requires LongToString(m) == LongToString(n)
    ensures m == n
  {
    LongToStringRoundTrip(m);
    LongToStringRoundTrip(n);
  }
}
