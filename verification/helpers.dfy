/** The global helpers of app/Helpers/functions.php. Money is handled in
    integer cents (the columns are `decimal(10,2)`), so `number_format` with
    two decimals is exact; instants are Carbon's integer epoch seconds. */
module Helpers {
  import opened Common

  /** `toMilliseconds`: an instant's epoch seconds times 1000. The parsing of
      a date string by Carbon happens before this point. */
  function ToMilliseconds(timestamp: int): (ms: int)
    ensures ms % 1000 == 0
    ensures ms / 1000 == timestamp
  {
    timestamp * 1000
  }

  /** Later instants never map to smaller values, and distinct seconds stay distinct. */
  lemma ToMillisecondsMonotone(a: int, b: int)
    ensures a <= b <==> ToMilliseconds(a) <= ToMilliseconds(b)
    ensures a == b <==> ToMilliseconds(a) == ToMilliseconds(b)
  {
  }

  /** Zero-padded two-digit text of 0..99 (the fractional part). */
  function TwoDigits(k: nat): (r: string)
    requires k < 100
    ensures |r| == 2 && AllDigits(r)
    ensures TextToNat(r) == k
  {
    TextToNatSnoc([], Digit(k / 10));
    TextToNatSnoc([Digit(k / 10)], Digit(k % 10));
    assert [] + [Digit(k / 10)] == [Digit(k / 10)];
    [Digit(k / 10)] + [Digit(k % 10)]
  }

  /** Zero-padded three-digit text of 0..999 (one thousands group). */
  function ThreeDigits(k: nat): (r: string)
    requires k < 1000
    ensures |r| == 3 && AllDigits(r)
    ensures TextToNat(r) == k
  {
    var head := TwoDigits(k / 10);
    TextToNatSnoc(head, Digit(k % 10));
    head + [Digit(k % 10)]
  }

  function Abs(n: int): nat
  {
    if n < 0 then -n else n
  }

  function Sign(negative: bool): string
  {
    if negative then "-" else ""
  }

  /** `format_decimal`: number_format($n, 2, '.', ''), e.g. -1234.5 gives "-1234.50". */
  function FormatDecimal(cents: int): (r: string)
    ensures |r| >= 4 && r[|r| - 3] == '.' && AllDigits(r[|r| - 2..])
    ensures forall i :: 0 <= i < |r| && i != |r| - 3 ==> r[i] != '.' && r[i] != ','
  {
    Sign(cents < 0) + (NatToText(Abs(cents) / 100) + "." + TwoDigits(Abs(cents) % 100))
  }

  /** Reads back the unsigned text `format_decimal` writes: digits, '.', two digits. */
  function ParseUnsignedDecimal(body: string): Option<nat>
  {
    if |body| >= 4 && body[|body| - 3] == '.' && AllDigits(body[..|body| - 3]) && AllDigits(body[|body| - 2..]) then
      Some(DecimalValue(body[..|body| - 3], body[|body| - 2..]))
    else
      None
  }

  /** The cents that a whole part and a two-digit fraction spell. */
  function DecimalValue(whole: string, frac: string): nat
    requires AllDigits(whole) && AllDigits(frac)
  {
    TextToNat(whole) * 100 + TextToNat(frac)
  }

  /** Applies an optional leading '-' to what `parse` reads from the rest. */
  function ParseSigned(s: string, parse: string -> Option<nat>): Option<int>
  {
    var negative := |s| > 0 && s[0] == '-';
    match parse(if negative then s[1..] else s)
    case Some(m) => Some(if negative then -(m as int) else m as int)
    case None => None
  }

  /** Reads back the text `format_decimal` writes. */
  function ParseDecimal(s: string): Option<int>
  {
    ParseSigned(s, ParseUnsignedDecimal)
  }

  /** Where the parts of `whole + [sep] + frac` sit, for a two-character `frac`. */
  lemma SplitBeforeTwo(whole: string, sep: char, frac: string)
    requires |frac| == 2
    ensures var body := whole + [sep] + frac;
      |body| == |whole| + 3 && body[|body| - 3] == sep && body[..|body| - 3] == whole && body[|body| - 2..] == frac
  {
  }

  lemma ParseUnsignedDecimalOf(whole: string, frac: string)
    requires whole != [] && AllDigits(whole) && |frac| == 2 && AllDigits(frac)
    ensures ParseUnsignedDecimal(whole + "." + frac) == Some(DecimalValue(whole, frac))
  {
    SplitBeforeTwo(whole, '.', frac);
    assert whole + "." + frac == whole + ['.'] + frac;
  }

  /** The unsigned part of `format_decimal`'s text starts with a digit and reads back as the amount. */
  lemma UnsignedDecimalRoundTrip(n: nat)
    ensures var body := NatToText(n / 100) + "." + TwoDigits(n % 100);
      body != [] && body[0] != '-' && ParseUnsignedDecimal(body) == Some(n)
  {
    var whole := NatToText(n / 100);
    var frac := TwoDigits(n % 100);
    ParseUnsignedDecimalOf(whole, frac);
    NatTextRoundTrip(n / 100);
    assert DecimalValue(whole, frac) == n;
    assert (whole + "." + frac)[0] == whole[0];
  }

  lemma ParseSignedOf(negative: bool, body: string, parse: string -> Option<nat>, m: nat)
    requires body != [] && body[0] != '-' && parse(body) == Some(m)
    ensures ParseSigned(Sign(negative) + body, parse) == Some(if negative then -(m as int) else m as int)
  {
    if negative {
      assert (Sign(negative) + body)[1..] == body;
    } else {
      assert Sign(negative) + body == body;
    }
  }

  /** `format_decimal` loses nothing: its text reads back as the same amount. */
  lemma FormatDecimalRoundTrip(cents: int)
    ensures ParseDecimal(FormatDecimal(cents)) == Some(cents)
  {
    UnsignedDecimalRoundTrip(Abs(cents));
    ParseSignedOf(cents < 0, NatToText(Abs(cents) / 100) + "." + TwoDigits(Abs(cents) % 100), ParseUnsignedDecimal, Abs(cents));
  }

  /** The integer part in groups of three separated by '.', e.g. 1234567 gives "1.234.567". */
  function Grouped(n: nat): (r: string)
    ensures r != []
    decreases n
  {
    if n < 1000 then NatToText(n) else Grouped(n / 1000) + "." + ThreeDigits(n % 1000)
  }

  /** Text made of a leading group of one to three digits and then ".ddd" groups. */
  predicate WellGrouped(s: string)
    decreases |s|
  {
    if |s| > 4 && s[|s| - 4] == '.' then
      AllDigits(s[|s| - 3..]) && WellGrouped(s[..|s| - 4])
    else
      1 <= |s| <= 3 && AllDigits(s)
  }

  lemma {:induction false} ShortNatText(n: nat)
    requires n < 1000
    ensures 1 <= |NatToText(n)| <= 3
  {
    if n >= 10 {
      if n >= 100 {
        assert NatToText(n / 10) == NatToText(n / 100) + [Digit(n / 10 % 10)];
      }
    }
  }

  /** The value of a well-grouped integer part. */
  function UngroupedValue(s: string): nat
    requires WellGrouped(s)
    decreases |s|
  {
    if |s| > 4 && s[|s| - 4] == '.' then
      UngroupedValue(s[..|s| - 4]) * 1000 + TextToNat(s[|s| - 3..])
    else
      TextToNat(s)
  }

  lemma {:induction false} GroupedRoundTrip(n: nat)
    ensures WellGrouped(Grouped(n)) && UngroupedValue(Grouped(n)) == n
    decreases n
  {
    var r := Grouped(n);
    if n < 1000 {
      ShortNatText(n);
      NatTextRoundTrip(n);
    } else {
      GroupedRoundTrip(n / 1000);
      var head := Grouped(n / 1000);
      assert r == head + "." + ThreeDigits(n % 1000);
      assert r[|r| - 4] == '.';
      assert r[|r| - 3..] == ThreeDigits(n % 1000);
      assert r[..|r| - 4] == head;
    }
  }

  /** `format_currency`: number_format($n, 2, ',', '.'), e.g. 1234567.8 gives "1.234.567,80". */
  function FormatCurrency(cents: int): (r: string)
  {
    Sign(cents < 0) + (Grouped(Abs(cents) / 100) + "," + TwoDigits(Abs(cents) % 100))
  }

  /** Reads back the unsigned text `format_currency` writes: grouped digits, ',', two digits. */
  function ParseUnsignedCurrency(body: string): Option<nat>
  {
    if |body| >= 4 && body[|body| - 3] == ',' && WellGrouped(body[..|body| - 3]) && AllDigits(body[|body| - 2..]) then
      Some(CurrencyValue(body[..|body| - 3], body[|body| - 2..]))
    else
      None
  }

  /** The cents that a grouped whole part and a two-digit fraction spell. */
  function CurrencyValue(whole: string, frac: string): nat
    requires WellGrouped(whole) && AllDigits(frac)
  {
    UngroupedValue(whole) * 100 + TextToNat(frac)
  }

  /** Reads back the text `format_currency` writes. */
  function ParseCurrency(s: string): Option<int>
  {
    ParseSigned(s, ParseUnsignedCurrency)
  }

  lemma ParseUnsignedCurrencyOf(whole: string, frac: string)
    requires WellGrouped(whole) && |frac| == 2 && AllDigits(frac)
    ensures ParseUnsignedCurrency(whole + "," + frac) == Some(CurrencyValue(whole, frac))
  {
    SplitBeforeTwo(whole, ',', frac);
    assert whole + "," + frac == whole + [','] + frac;
  }

  lemma CurrencyTextShape(negative: bool, whole: string, frac: string)
    requires WellGrouped(whole) && |frac| == 2 && AllDigits(frac)
    ensures var r := Sign(negative) + (whole + "," + frac);
      |r| >= 4 && r[|r| - 3] == ',' && AllDigits(r[|r| - 2..])
      && WellGrouped(r[(if negative then 1 else 0)..|r| - 3])
  {
    var r := Sign(negative) + (whole + "," + frac);
    assert r[|r| - 2..] == frac;
    if negative {
      assert r[1..|r| - 3] == whole;
    } else {
      assert r[0..|r| - 3] == whole;
    }
  }

  /** `format_currency` writes two decimals after ',' and '.'-separated groups
      of three before it. */
  lemma FormatCurrencyShape(cents: int)
    ensures var r := FormatCurrency(cents);
      |r| >= 4 && r[|r| - 3] == ',' && AllDigits(r[|r| - 2..])
      && WellGrouped(r[(if cents < 0 then 1 else 0)..|r| - 3])
  {
    var whole := Grouped(Abs(cents) / 100);
    var frac := TwoDigits(Abs(cents) % 100);
    assert FormatCurrency(cents) == Sign(cents < 0) + (whole + "," + frac);
    GroupedRoundTrip(Abs(cents) / 100);
    CurrencyTextShape(cents < 0, whole, frac);
  }

  /** Grouped digits, ',' and two digits read back as the amount they spell. */
  lemma UnsignedCurrencyOf(whole: string, frac: string, n: nat)
    requires WellGrouped(whole) && UngroupedValue(whole) == n / 100 && whole != [] && '0' <= whole[0] <= '9'
    requires |frac| == 2 && AllDigits(frac) && TextToNat(frac) == n % 100
    ensures var body := whole + "," + frac;
      body != [] && body[0] != '-' && ParseUnsignedCurrency(body) == Some(n)
  {
    ParseUnsignedCurrencyOf(whole, frac);
    assert CurrencyValue(whole, frac) == n;
    assert (whole + "," + frac)[0] == whole[0];
  }

  /** The unsigned part of `format_currency`'s text starts with a digit and reads back as the amount. */
  lemma UnsignedCurrencyRoundTrip(n: nat)
    ensures var body := Grouped(n / 100) + "," + TwoDigits(n % 100);
      body != [] && body[0] != '-' && ParseUnsignedCurrency(body) == Some(n)
  {
    GroupedRoundTrip(n / 100);
    GroupedStartsWithDigit(n / 100);
    UnsignedCurrencyOf(Grouped(n / 100), TwoDigits(n % 100), n);
  }

  /** `format_currency` loses nothing: its text reads back as the same amount. */
  lemma FormatCurrencyRoundTrip(cents: int)
    ensures ParseCurrency(FormatCurrency(cents)) == Some(cents)
  {
    UnsignedCurrencyRoundTrip(Abs(cents));
    ParseSignedOf(cents < 0, Grouped(Abs(cents) / 100) + "," + TwoDigits(Abs(cents) % 100), ParseUnsignedCurrency, Abs(cents));
  }

  lemma {:induction false} GroupedStartsWithDigit(n: nat)
    ensures '0' <= Grouped(n)[0] <= '9'
    decreases n
  {
    if n >= 1000 {
      GroupedStartsWithDigit(n / 1000);
    }
  }

  /** `a + b + c + d` contains both `b` and `d`. */
  lemma NamesBoth(a: string, b: string, c: string, d: string)
    ensures Contains(a + b + c + d, b) && Contains(a + b + c + d, d)
  {
    var m := a + b + c + d;
    assert m[|a|..|a| + |b|] == b;
    ContainsAt(m, b, |a|);
    assert m[|a + b + c|..|a + b + c| + |d|] == d;
    ContainsAt(m, d, |a + b + c|);
  }

  /** The exception `validate_balance` throws (app/Exceptions/InsufficientBalanceException.php). */
  datatype InsufficientBalance = InsufficientBalance(message: string, code: int)

  /** `validate_balance`: true when the balance covers the amount, otherwise an
      InsufficientBalanceException (code 422) naming both amounts. */
  function ValidateBalance(balance: int, amount: int): (r: Result<bool, InsufficientBalance>)
    ensures r.Success? <==> balance >= amount
    ensures r.Success? ==> r.value
    ensures r.Failure? ==> r.error.code == 422
    ensures r.Failure? ==>
      Contains(r.error.message, FormatDecimal(balance)) && Contains(r.error.message, FormatDecimal(amount))
  {
    if balance < amount then
      var message := "Insufficient balance. Available: " + FormatDecimal(balance) + ", Required: " + FormatDecimal(amount);
      NamesBoth("Insufficient balance. Available: ", FormatDecimal(balance), ", Required: ", FormatDecimal(amount));
      Failure(InsufficientBalance(message, 422))
    else
      Success(true)
  }
}
