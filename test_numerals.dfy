/**
 * The numerals and field texts written in the tests, as the renderings of Chars produce them.
 *
 * These are facts about literals and literal joins, nothing more. They live in a module of
 * their own that sees only Chars, where the verifier evaluates them cheaply; the example
 * modules cite them instead of re-deriving them in a context full of other definitions.
 * A lemma whose literal is a parameter (`requires s == "..."`) is written that way for the
 * same reason: it keeps the literal from being expanded at every call.
 */
module TestNumerals {
  import opened Chars

  // ---------------------------------------------------------------------
  // Four-digit years

  lemma Year1970()
    ensures FixedDecimal(1970, 4) == "1970"
  {
  }

  lemma Year2012()
    ensures FixedDecimal(2012, 4) == "2012"
  {
  }

  lemma Year2021()
    ensures FixedDecimal(2021, 4) == "2021"
  {
  }

  lemma Year2022()
    ensures FixedDecimal(2022, 4) == "2022"
  {
  }

  lemma Year2023()
    ensures FixedDecimal(2023, 4) == "2023"
  {
  }

  /** A two-digit field of the date or the clock. */
  lemma TwoDigits(n: nat, s: string)
    requires n < 100 && s == [DigitChar(n / 10), DigitChar(n % 10)]
    ensures FixedDecimal(n, 2) == s
  {
  }

  /** The milliseconds field of a whole second. */
  lemma NoMillis()
    ensures FixedDecimal(0, 3) == "000"
  {
  }

  // ---------------------------------------------------------------------
  // Decimal numerals

  lemma NewYear2021Seconds(d: string)
    requires d == "1609459200"
    ensures DecimalString(1609459200) == d
  {
  }

  lemma NewYear2023Seconds(d: string)
    requires d == "1672531200"
    ensures DecimalString(1672531200) == d
  {
  }

  lemma Seconds1752(d: string)
    requires d == "1752465797"
    ensures DecimalString(1752465797) == d
  {
  }

  lemma Seconds1234(d: string)
    requires d == "1234567890"
    ensures DecimalString(1234567890) == d
  {
  }

  lemma Numeral706()
    ensures DecimalString(706) == "706"
  {
  }

  lemma Numeral123()
    ensures DecimalString(123) == "123"
  {
  }

  /** Ten digits of seconds followed by three of milliseconds. */
  lemma SecondsThenMillis(a: string, b: string, seconds: nat, millis: nat)
    requires DecimalString(seconds) == a && |a| == 10 && DecimalString(millis) == b && |b| == 3
    ensures AllDigits(a + b) && |a + b| == 13 && DecimalValue(a + b) == seconds * 1000 + millis
  {
    DecimalDigits(a);
    DecimalDigits(b);
    NumeralConcat(a, b, 10);
    assert Pow(10, 3) == 1000;
  }

  // ---------------------------------------------------------------------
  // ISO texts as a date and a clock

  lemma JoinedEast()
    ensures "2023-01-01" + "T08:00:00+08:00" == "2023-01-01T08:00:00+08:00"
  {
  }

  lemma JoinedLocal2012()
    ensures "2012-10-17" + "T21:13:27" == "2012-10-17T21:13:27"
  {
  }

  lemma JoinedLocal2023()
    ensures "2023-01-01" + "T10:30:00" == "2023-01-01T10:30:00"
  {
  }

  lemma JoinedMinus5()
    ensures "2022-06-15" + "T15:45:30-05:00" == "2022-06-15T15:45:30-05:00"
  {
  }

  lemma JoinedMinus7()
    ensures "2023-07-04" + "T12:00:00-07:00" == "2023-07-04T12:00:00-07:00"
  {
  }

  lemma JoinedPlus8()
    ensures "2023-01-01" + "T10:30:00+08:00" == "2023-01-01T10:30:00+08:00"
  {
  }

  lemma JoinedPlus9()
    ensures "2021-12-25" + "T23:59:59+09:00" == "2021-12-25T23:59:59+09:00"
  {
  }

  lemma JoinedUtc()
    ensures "2023-01-01" + "T00:00:00.000Z" == "2023-01-01T00:00:00.000Z"
  {
  }

  lemma JoinedUtc2012()
    ensures "2012-10-17" + "T21:13:27.000Z" == "2012-10-17T21:13:27.000Z"
  {
  }

  lemma JoinedWest()
    ensures "2022-12-31" + "T19:00:00-05:00" == "2022-12-31T19:00:00-05:00"
  {
  }

  // ---------------------------------------------------------------------
  // The wall clocks of the first ObjectId

  lemma JoinedFirstWallClock()
    ensures "2012" + "-" + "10" + "-" + "17" + "T" + "21" + ":" + "13" + ":" + "27" + "." + "000"
      == "2012-10-17T21:13:27.000"
  {
  }

  lemma JoinedShiftedWallClock()
    ensures "2012" + "-" + "10" + "-" + "18" + "T" + "05" + ":" + "13" + ":" + "27" + "." + "000"
      == "2012-10-18T05:13:27.000"
  {
  }
}
