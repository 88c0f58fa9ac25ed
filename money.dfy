/** The Money value object (pkg/money/money.go): an exact decimal amount paired with an
    upper-case currency code. Amounts are reals, so decimal arithmetic is exact here. */
module Money {
  import opened Wrappers

  // ---------------------------------------------------------------------------------------
  // Currency codes

  /** `unicode.ToUpper` restricted to ASCII: 'a'..'z' become 'A'..'Z', everything else stays. */
  function UpperChar(c: char): char
  {
    if 'a' <= c <= 'z' then (c as int - 32) as char else c
  }

  /** `strings.ToUpper` on ASCII text. */
  function ToUpper(s: string): (u: string)
    ensures |u| == |s|
    ensures forall i :: 0 <= i < |s| ==> u[i] == UpperChar(s[i])
  {
    if s == [] then [] else [UpperChar(s[0])] + ToUpper(s[1..])
  }

  /** No lower-case ASCII letter occurs in s. */
  predicate IsUpper(s: string)
  {
    forall i :: 0 <= i < |s| ==> !('a' <= s[i] <= 'z')
  }

  /** a and b differ at most in the case of their letters. */
  predicate SameUpToCase(a: string, b: string)
  {
    |a| == |b| && forall i :: 0 <= i < |a| ==> UpperChar(a[i]) == UpperChar(b[i])
  }

  /** Upper-casing a code that is already upper case changes nothing. */
  lemma ToUpperKeepsUpper(s: string)
    ensures IsUpper(s) ==> ToUpper(s) == s
  {
    if IsUpper(s) {
      var u := ToUpper(s);
      assert forall i :: 0 <= i < |s| ==> u[i] == s[i];
    }
  }

  // ---------------------------------------------------------------------------------------
  // Money

  datatype Error = CurrencyMismatch(left: string, right: string)
  {
    /** The text of `fmt.Errorf("currency mismatch: %s vs %s", ...)`. */
    function Message(): string
    {
      "currency mismatch: " + left + " vs " + right
    }
  }

  /** Builds Money as `New` does: the amount as given, the currency upper-cased. */
  function New(amount: real, currency: string): (m: Money)
    ensures m.amount == amount
    ensures IsUpper(m.currency) && SameUpToCase(m.currency, currency)
  {
    Money(amount, ToUpper(currency))
  }

  /** The fields are private to the Go package; every value is built by `New` or is the zero
      value `Money{}`, so every value in use is `Valid`. */
  datatype Money = Money(amount: real, currency: string)
  {
    predicate Valid()
    {
      IsUpper(currency)
    }

    function Amount(): real
    {
      amount
    }

    function Currency(): string
    {
      currency
    }

    /** Sum of two amounts of the same currency; a currency mismatch is an error and no value. */
    function Add(other: Money): (r: Result<Money, Error>)
      ensures r.Success? <==> currency == other.currency
      ensures r.Success? ==> r.value.amount == amount + other.amount && r.value.Valid()
      ensures r.Success? && Valid() ==> r.value.currency == currency
      ensures r.Failure? ==> r.error == CurrencyMismatch(currency, other.currency)
    {
      if currency != other.currency then Failure(CurrencyMismatch(currency, other.currency))
      else
        ToUpperKeepsUpper(currency);
        Success(New(amount + other.amount, currency))
    }

    /** Difference of two amounts of the same currency; a currency mismatch is an error. */
    function Sub(other: Money): (r: Result<Money, Error>)
      ensures r.Success? <==> currency == other.currency
      ensures r.Success? ==> r.value.amount + other.amount == amount && r.value.Valid()
      ensures r.Success? && Valid() ==> r.value.currency == currency
      ensures r.Failure? ==> r.error == CurrencyMismatch(currency, other.currency)
    {
      if currency != other.currency then Failure(CurrencyMismatch(currency, other.currency))
      else
        ToUpperKeepsUpper(currency);
        Success(New(amount - other.amount, currency))
    }

    /** The amount scaled by a factor, in the same currency. */
    function Mul(scalar: real): (r: Money)
      ensures r.amount == amount * scalar && r.Valid()
      ensures Valid() ==> r.currency == currency
    {
      ToUpperKeepsUpper(currency);
      New(amount * scalar, currency)
    }

    /** The amount divided by a non-zero factor (a zero divisor makes the decimal library
        panic), in the same currency. */
    function Div(scalar: real): (r: Money)
      requires scalar != 0.0
      ensures r.amount * scalar == amount && r.Valid()
      ensures Valid() ==> r.currency == currency
    {
      ToUpperKeepsUpper(currency);
      New(amount / scalar, currency)
    }

    /** The amount to two decimals, a space, then the currency: "100.50 USD". */
    function String(): string
    {
      FormatCents(Cents(amount)) + " " + currency
    }

    predicate IsZero()
    {
      amount == 0.0
    }

    predicate IsPositive()
    {
      amount > 0.0
    }

    predicate IsNegative()
    {
      amount < 0.0
    }
  }

  // ---------------------------------------------------------------------------------------
  // Fixed-point rendering (`StringFixed(2)`)

  /** Rounding to the nearest integer, halves away from zero, as the decimal library's `Round`
      does. */
  function RoundHalfAwayFromZero(x: real): (n: int)
    ensures 0.0 <= x ==> x - 0.5 < n as real <= x + 0.5
    ensures x < 0.0 ==> x - 0.5 <= n as real < x + 0.5
  {
    if x >= 0.0 then (x + 0.5).Floor else -((-x + 0.5).Floor)
  }

  /** The amount in hundredths after rounding to two decimal places. */
  function Cents(amount: real): int
  {
    RoundHalfAwayFromZero(amount * 100.0)
  }

  function DigitChar(d: nat): (c: char)
    requires d < 10
    ensures '0' <= c <= '9'
  {
    ('0' as int + d) as char
  }

  function DigitValue(c: char): int
  {
    c as int - '0' as int
  }

  /** The decimal digits of n, without leading zeros. */
  function DecimalString(n: nat): (s: string)
    ensures |s| >= 1 && forall i :: 0 <= i < |s| ==> '0' <= s[i] <= '9'
    ensures s[0] == '0' <==> n == 0
  {
    if n < 10 then [DigitChar(n)] else DecimalString(n / 10) + [DigitChar(n % 10)]
  }

  /** The value of a string of decimal digits. */
  function ParseDecimal(s: string): int
  {
    if s == [] then 0 else 10 * ParseDecimal(s[..|s| - 1]) + DigitValue(s[|s| - 1])
  }

  /** A count of hundredths as text: an optional minus sign, the whole part, a point and
      exactly two decimals. */
  function FormatCents(c: int): string
  {
    var u := if c < 0 then -c else c;
    (if c < 0 then "-" else "") + DecimalString(u / 100) + "." + [DigitChar(u / 10 % 10), DigitChar(u % 10)]
  }

  /** Reads back what `FormatCents` writes. */
  function ParseCents(s: string): int
    requires |s| >= 4
  {
    var negative := s[0] == '-';
    var whole := if negative then s[1..|s| - 3] else s[..|s| - 3];
    var magnitude := 100 * ParseDecimal(whole) + 10 * DigitValue(s[|s| - 2]) + DigitValue(s[|s| - 1]);
    if negative then -magnitude else magnitude
  }

  // ---------------------------------------------------------------------------------------
  // Properties

  lemma {:induction false} DecimalRoundTrip(n: nat)
    ensures ParseDecimal(DecimalString(n)) == n
  {
    var s := DecimalString(n);
    if n >= 10 {
      DecimalRoundTrip(n / 10);
      assert s[..|s| - 1] == DecimalString(n / 10);
    }
  }

  /** The rendering of a number of hundredths is read back exactly, and always has a point
      followed by two digits. */
  lemma FormatCentsRoundTrip(c: int)
    ensures var s := FormatCents(c);
      && |s| >= 4 && s[|s| - 3] == '.'
      && '0' <= s[|s| - 2] <= '9' && '0' <= s[|s| - 1] <= '9'
      && ParseCents(s) == c
  {
    var u := if c < 0 then -c else c;
    var whole := DecimalString(u / 100);
    var d1, d2 := DigitChar(u / 10 % 10), DigitChar(u % 10);
    DecimalRoundTrip(u / 100);
    HundredthsSplit(u);
    ParseLayout(c < 0, whole, d1, d2);
    assert FormatCents(c) == (if c < 0 then "-" else "") + whole + ['.', d1, d2];
  }

  /** How `ParseCents` reads a sign, a run of digits, a point and two digits. */
  lemma ParseLayout(negative: bool, whole: string, d1: char, d2: char)
    requires |whole| >= 1 && '0' <= whole[0] <= '9'
    ensures var s := (if negative then "-" else "") + whole + ['.', d1, d2];
      var magnitude := 100 * ParseDecimal(whole) + 10 * DigitValue(d1) + DigitValue(d2);
      && |s| >= 4 && s[|s| - 3] == '.' && s[|s| - 2] == d1 && s[|s| - 1] == d2
      && ParseCents(s) == if negative then -magnitude else magnitude
  {
    var s := (if negative then "-" else "") + whole + ['.', d1, d2];
    var n := |s|;
    if negative {
      assert s[0] == '-';
      assert s[1..n - 3] == whole;
    } else {
      assert s[0] == whole[0];
      assert s[..n - 3] == whole;
    }
  }

  lemma HundredthsSplit(u: nat)
    ensures 100 * (u / 100) + 10 * DigitValue(DigitChar(u / 10 % 10)) + DigitValue(DigitChar(u % 10)) == u
  {
    var t := u / 10;
    assert u == 10 * t + u % 10;
    assert t == 10 * (t / 10) + t % 10;
    assert u == 100 * (t / 10) + (10 * (t % 10) + u % 10);
    assert 0 <= 10 * (t % 10) + u % 10 < 100;
    assert u / 100 == t / 10;
  }

  /** `String` is the amount rounded to hundredths and written with exactly two decimals,
      a single space, and the currency code. */
  lemma StringLayout(m: Money)
    ensures var s := m.String();
      var k := |s| - |m.currency|;
      && k >= 5
      && s[k..] == m.currency
      && s[k - 1] == ' '
      && s[k - 4] == '.'
      && ParseCents(s[..k - 1]) == Cents(m.amount)
  {
    var f := FormatCents(Cents(m.amount));
    FormatCentsRoundTrip(Cents(m.amount));
    var s := m.String();
    assert s == f + " " + m.currency;
    assert s[..|f|] == f;
  }

  lemma StringExample()
    ensures New(100.5, "USD").String() == "100.50 USD"
  {
    assert Cents(100.5) == 10050;
    FormatCentsExample();
    assert ToUpper("USD") == "USD";
  }

  lemma FormatCentsExample()
    ensures FormatCents(10050) == "100.50"
  {
    var u := 10050;
    assert u / 100 == 100 && u / 10 % 10 == 5 && u % 10 == 0;
    assert DecimalString(1) == "1";
    assert DecimalString(10) == "10";
    assert DecimalString(100) == "100";
  }

  /** `New` keeps the amount and stores the currency upper-cased. */
  lemma NewExample()
    ensures New(100.0, "USD") == Money(100.0, "USD")
    ensures New(100.0, "USD").Amount() == 100.0 && New(100.0, "USD").Currency() == "USD"
    ensures New(100.0, "usd") == Money(100.0, "USD")
  {
    assert ToUpper("USD") == "USD";
    assert ToUpper("usd") == "USD";
  }

  /** 100 USD + 50 USD = 150 USD; 100 USD - 50 USD = 50 USD; a EUR operand fails both. */
  lemma AddSubExamples()
    ensures New(100.0, "USD").Add(New(50.0, "USD")) == Success(Money(150.0, "USD"))
    ensures New(100.0, "USD").Sub(New(50.0, "USD")) == Success(Money(50.0, "USD"))
    ensures New(100.0, "USD").Add(New(50.0, "EUR")).Failure?
    ensures New(100.0, "USD").Sub(New(50.0, "EUR")).Failure?
  {
    NewExample();
    assert ToUpper("EUR") == "EUR";
  }

  /** A currency mismatch is reported as "currency mismatch: <left> vs <right>", with the
      receiver's code first, by both `Add` and `Sub`. */
  lemma MismatchMessage(a: Money, b: Money)
    requires a.currency != b.currency
    ensures a.Add(b).Failure? && a.Sub(b).Failure?
    ensures a.Add(b).error.Message() == a.Sub(b).error.Message()
      == "currency mismatch: " + a.Currency() + " vs " + b.Currency()
  {
  }

  /** Adding 50 EUR to 100 USD reports "currency mismatch: USD vs EUR". */
  lemma MismatchMessageExample()
    ensures New(100.0, "USD").Add(New(50.0, "EUR")).error.Message() == "currency mismatch: USD vs EUR"
  {
    NewExample();
    assert ToUpper("EUR") == "EUR";
  }

  /** `Amount` and `Currency` of a value built by `New` return the amount and the
      upper-cased code. */
  lemma GettersOfNew(amount: real, currency: string)
    ensures New(amount, currency).Amount() == amount
    ensures New(amount, currency).Currency() == ToUpper(currency)
    ensures IsUpper(New(amount, currency).Currency())
  {
  }

  /** 100 USD * 1.5 = 150 USD and 100 USD / 2 = 50 USD. */
  lemma MulDivExamples()
    ensures New(100.0, "USD").Mul(1.5) == Money(150.0, "USD")
    ensures New(100.0, "USD").Div(2.0) == Money(50.0, "USD")
  {
    NewExample();
  }

  /** Addition of amounts in one currency does not depend on the order of the operands. */
  lemma AddCommutative(a: Money, b: Money)
    requires a.Valid()
    ensures a.Add(b).Success? <==> b.Add(a).Success?
    ensures a.Add(b).Success? ==> a.Add(b) == b.Add(a)
  {
  }

  /** Swapping the operands of `Sub` negates the difference. */
  lemma SubAntisymmetric(a: Money, b: Money)
    requires a.currency == b.currency
    ensures a.Sub(b).value.amount == -b.Sub(a).value.amount
  {
  }

  /** `Sub` undoes `Add` and `Add` undoes `Sub` for values of one currency. */
  lemma AddSubRoundTrip(a: Money, b: Money)
    requires a.Valid() && a.currency == b.currency
    ensures a.Add(b).value.Sub(b) == Success(a)
    ensures a.Sub(b).value.Add(b) == Success(a)
  {
  }

  /** `Div` undoes `Mul` and `Mul` undoes `Div` by the same non-zero factor. */
  lemma MulDivRoundTrip(m: Money, scalar: real)
    requires m.Valid() && scalar != 0.0
    ensures m.Mul(scalar).Div(scalar) == m
    ensures m.Div(scalar).Mul(scalar) == m
  {
  }

  /** Every amount is exactly one of zero, positive or negative. */
  lemma ExactlyOneSign(m: Money)
    ensures m.IsZero() || m.IsPositive() || m.IsNegative()
    ensures !(m.IsZero() && m.IsPositive()) && !(m.IsZero() && m.IsNegative()) && !(m.IsPositive() && m.IsNegative())
  {
  }
}
