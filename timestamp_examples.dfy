/** The examples of src/test/timestampParser.test.ts, proved about the model. */
module TimestampExamples {
  import opened Wrappers
  import opened Chars
  import opened Civil
  import ObjectIdParser
  import opened TimestampParser
  import ObjectIdExamples
  import TestNumerals

  // ---------------------------------------------------------------------
  // Numbers that recur in the tests

  lemma FirstSecondsDigits()
    ensures AllDigits("1350508407") && DecimalValue("1350508407") == 1350508407
  {
    ObjectIdExamples.FirstTimestampDecimal();
  }

  /** The milliseconds of the first test instant are its seconds followed by three zeros. */
  lemma FirstMillisText(ms: string)
    requires ms == "1350508407000"
    ensures ms == "1350508407" + "000"
  {
  }

  /** The synthetic id of a timestamp whose hex has eight digits. */
  lemma GeneratedFrom(timestamp: nat, hex: string)
    requires HexString(timestamp) == hex && |hex| == 8
    ensures GeneratedObjectId(timestamp) == hex + ZeroFields
  {
  }

  lemma FirstGeneratedId()
    ensures GeneratedObjectId(1350508407) == "507f1f770000000000000000"
  {
    ObjectIdExamples.FirstTimestampHex();
    GeneratedFrom(1350508407, "507f1f77");
    FirstIdJoined("507f1f77");
  }

  lemma FirstIdJoined(hex: string)
    requires hex == "507f1f77"
    ensures hex + ZeroFields == "507f1f770000000000000000"
  {
  }

  lemma NewYear2023Generated()
    ensures GeneratedObjectId(1672531200) == "63b0cd000000000000000000"
  {
    NewYear2023Hex();
    GeneratedFrom(1672531200, "63b0cd00");
    NewYear2023IdJoined("63b0cd00");
  }

  lemma NewYear2023Hex()
    ensures HexString(1672531200) == "63b0cd00"
  {
  }

  lemma NewYear2023IdJoined(hex: string)
    requires hex == "63b0cd00"
    ensures hex + ZeroFields == "63b0cd000000000000000000"
  {
  }

  /** The result all three inputs of src/test/timestampParser.test.ts:204-217 give. */
  const FirstInfo := TimestampInfo(1350508407, 1350508407000, "507f1f770000000000000000", "2012-10-17T21:13:27.000Z")

  /** src/test/timestampParser.test.ts:76-87. */
  lemma ParseFirstSeconds()
    ensures Parse("1350508407") == Some(FirstInfo)
  {
    FirstSecondsDigits();
    ParseSeconds("1350508407");
    FirstGeneratedId();
    ObjectIdExamples.FirstIsoString();
  }

  /** src/test/timestampParser.test.ts:89-96. */
  lemma ParseFirstMillis()
    ensures Parse("1350508407000") == Some(FirstInfo)
  {
    FirstMillisText("1350508407000");
    FirstSecondsDigits();
    SecondsAgreeWithMillis("1350508407");
    ParseFirstSeconds();
  }

  /** src/test/timestampParser.test.ts:98-105. */
  lemma ParseFirstIso()
    ensures Parse("2012-10-17T21:13:27.000Z") == Some(FirstInfo)
  {
    IsoRoundTrip(1350508407000);
    FirstGeneratedId();
    ObjectIdExamples.FirstIsoString();
  }

  // ---------------------------------------------------------------------
  // 2023-01-01T00:00:00Z, the instant of src/test/timestampParser.test.ts:117-150 and 219-230

  const NewYear2023: DateTime := DateTime(Date(2023, 1, 1), 0, 0, 0, 0)

  lemma NewYear2023Instant()
    ensures FromEpochMs(1672531200000) == NewYear2023
  {
    assert EpochMs(NewYear2023) == 1672531200000 by {
      assert DaysFromCivil(NewYear2023.date) == 19358;
    }
    EpochMsRoundTrip(NewYear2023);
  }

  /** The fields of 2023-01-01T08:00:00+08:00. */
  const EastFields := IsoFields(2023, 1, 1, Some(Clock(8, 0, 0, None, Offset(true, 8, 0))))
  /** The fields of 2022-12-31T19:00:00-05:00. */
  const WestFields := IsoFields(2022, 12, 31, Some(Clock(19, 0, 0, None, Offset(false, 5, 0))))
  /** The fields of 2023-01-01T00:00:00.000Z. */
  const UtcFields := IsoFields(2023, 1, 1, Some(Clock(0, 0, 0, Some(0), Utc)))

  /** The writing of fields with a clock is the date, then the clock. */
  lemma EncodeHalves(f: IsoFields, date: string, clock: string)
    requires f.clock.Some?
    requires FixedDecimal(f.year, 4) + "-" + FixedDecimal(f.month, 2) + "-" + FixedDecimal(f.day, 2) == date
    requires ClockText(f.clock.value) == clock
    ensures EncodeIso(f) == date + clock
  {
  }

  lemma Date2023()
    ensures FixedDecimal(2023, 4) + "-" + FixedDecimal(1, 2) + "-" + FixedDecimal(1, 2) == "2023-01-01"
  {
    TestNumerals.Year2023();
    TestNumerals.TwoDigits(1, "01");
  }

  lemma Date2022()
    ensures FixedDecimal(2022, 4) + "-" + FixedDecimal(12, 2) + "-" + FixedDecimal(31, 2) == "2022-12-31"
  {
    TestNumerals.Year2022();
    TestNumerals.TwoDigits(12, "12");
    TestNumerals.TwoDigits(31, "31");
  }

  lemma EastClock()
    ensures ClockText(EastFields.clock.value) == "T08:00:00+08:00"
  {
    TestNumerals.TwoDigits(0, "00");
    TestNumerals.TwoDigits(8, "08");
  }

  lemma WestClock()
    ensures ClockText(WestFields.clock.value) == "T19:00:00-05:00"
  {
    TestNumerals.TwoDigits(0, "00");
    TestNumerals.TwoDigits(5, "05");
    TestNumerals.TwoDigits(19, "19");
  }

  lemma UtcClock()
    ensures ClockText(UtcFields.clock.value) == "T00:00:00.000Z"
  {
    TestNumerals.TwoDigits(0, "00");
    TestNumerals.NoMillis();
  }

  lemma EastText()
    ensures EncodeIso(EastFields) == "2023-01-01T08:00:00+08:00"
  {
    Date2023();
    EastClock();
    EncodeHalves(EastFields, "2023-01-01", "T08:00:00+08:00");
    TestNumerals.JoinedEast();
  }

  lemma WestText()
    ensures EncodeIso(WestFields) == "2022-12-31T19:00:00-05:00"
  {
    Date2022();
    WestClock();
    EncodeHalves(WestFields, "2022-12-31", "T19:00:00-05:00");
    TestNumerals.JoinedWest();
  }

  lemma UtcText()
    ensures EncodeIso(UtcFields) == "2023-01-01T00:00:00.000Z"
  {
    Date2023();
    UtcClock();
    EncodeHalves(UtcFields, "2023-01-01", "T00:00:00.000Z");
    TestNumerals.JoinedUtc();
  }

  lemma EastInstant()
    ensures IsoInstant(EastFields) == Some(1672531200000)
  {
    assert DaysFromCivil(Date(2023, 1, 1)) == 19358;
  }

  lemma WestInstant()
    ensures IsoInstant(WestFields) == Some(1672531200000)
  {
    assert DaysFromCivil(Date(2022, 12, 31)) == 19357;
  }

  lemma UtcInstant()
    ensures IsoInstant(UtcFields) == Some(1672531200000)
  {
    assert DaysFromCivil(Date(2023, 1, 1)) == 19358;
  }

  lemma NewYear2023IsoString()
    ensures IsoString(1672531200000) == "2023-01-01T00:00:00.000Z"
  {
    NewYear2023Instant();
    IsoStringFields(1672531200000);
    assert InstantFields(NewYear2023) == UtcFields;
    UtcText();
  }

  /** What `parse` gives for every spelling of 2023-01-01T00:00:00Z in the tests. */
  const NewYear2023Info := TimestampInfo(1672531200, 1672531200000, "63b0cd000000000000000000", "2023-01-01T00:00:00.000Z")

  lemma NewYear2023Result(f: IsoFields)
    requires FieldsFit(f) && IsValidFields(f) && IsoInstant(f) == Some(1672531200000)
    ensures Parse(EncodeIso(f)) == Some(NewYear2023Info)
  {
    ParseIso(f);
    NewYear2023Generated();
    NewYear2023IsoString();
  }

  /** src/test/timestampParser.test.ts:219-224: UTC+8. */
  lemma ParseEast()
    ensures Parse("2023-01-01T08:00:00+08:00") == Some(NewYear2023Info)
  {
    EastInstant();
    EastText();
    NewYear2023Result(EastFields);
  }

  /** src/test/timestampParser.test.ts:226-230: UTC-5. */
  lemma ParseWest()
    ensures Parse("2022-12-31T19:00:00-05:00") == Some(NewYear2023Info)
  {
    WestInstant();
    WestText();
    NewYear2023Result(WestFields);
  }

  lemma ParseUtc(t: string)
    requires t == "2023-01-01T00:00:00.000Z"
    ensures Parse(t) == Some(NewYear2023Info)
  {
    UtcInstant();
    UtcText();
    NewYear2023Result(UtcFields);
  }

  /** src/test/timestampParser.test.ts:143-150: a quoted UTC date-time. */
  lemma ParseQuotedUtc(t: string, quoted: string)
    requires t == "2023-01-01T00:00:00.000Z" && quoted == "\"" + t + "\""
    ensures Parse(quoted) == Some(NewYear2023Info)
  {
    ParseUtc(t);
    UtcUnquoted(t);
    Quoted(t, quoted);
  }

  lemma UtcUnquoted(t: string)
    requires t == "2023-01-01T00:00:00.000Z"
    ensures |t| > 0 && !IsQuote(t[0]) && !IsQuote(t[|t| - 1])
  {
  }

  /** A token written between double quotes parses and validates as the token. */
  lemma Quoted(t: string, quoted: string)
    requires quoted == "\"" + t + "\"" && |t| > 0 && !IsQuote(t[0]) && !IsQuote(t[|t| - 1])
    ensures Parse(quoted) == Parse(t) && IsValidTimestamp(quoted) == IsValidTimestamp(t)
  {
    QuotesIgnored('"', t, '"');
  }

  // ---------------------------------------------------------------------
  // Digit tokens: src/test/timestampParser.test.ts:5-13, 30-34, 117-141

  /** A token that cleans to ten digits in the validity window: `parse` reads it as seconds. */
  lemma SecondsToken(s: string, digits: string, v: nat)
    requires CleanInput(s) == digits && |digits| == 10 && AllDigits(digits) && DecimalValue(digits) == v
    requires 31536000 <= v < 4102444800
    ensures Parse(s) == Some(TimestampInfo(v, v * MsPerSecond, GeneratedObjectId(v), IsoString(v * MsPerSecond)))
  {
    ParseSeconds(digits);
    CleanDigits(digits);
  }

  /** ... and `isValidTimestamp` accepts it. */
  lemma SecondsTokenValid(s: string, digits: string, v: nat)
    requires CleanInput(s) == digits && |digits| == 10 && AllDigits(digits) && DecimalValue(digits) == v
    requires 31536000 <= v < 4102444800
    ensures IsValidTimestamp(s)
  {
    assert InValidityWindow(v * MsPerSecond);
  }

  /** A token that cleans to thirteen digits in the validity window: `parse` reads it as milliseconds. */
  lemma MillisToken(s: string, digits: string, v: nat)
    requires CleanInput(s) == digits && |digits| == 13 && AllDigits(digits) && DecimalValue(digits) == v
    requires 31536000000 <= v < 4102444800000
    ensures Parse(s) == Some(TimestampInfo(v / MsPerSecond, v, GeneratedObjectId(v / MsPerSecond), IsoString(v)))
  {
    ParseMillis(digits);
    CleanDigits(digits);
  }

  /** ... and `isValidTimestamp` accepts it. */
  lemma MillisTokenValid(s: string, digits: string, v: nat)
    requires CleanInput(s) == digits && |digits| == 13 && AllDigits(digits) && DecimalValue(digits) == v
    requires 31536000000 <= v < 4102444800000
    ensures IsValidTimestamp(s)
  {
    assert InValidityWindow(v);
  }

  /** Three digit runs joined by underscores clean to their concatenation. */
  lemma CleanGroups(a: string, b: string, c: string)
    requires |a| > 0 && |b| > 0 && |c| > 0 && AllDigits(a) && AllDigits(b) && AllDigits(c)
    ensures CleanInput(a + "_" + b + "_" + c) == a + b + c
  {
    DigitsAreGroups(a);
    DigitsAreGroups(b);
    DigitsAreGroups(c);
    JoinGroups(a, b);
    var ab := a + "_" + b;
    JoinGroups(ab, c);
    GroupsClean(ab + "_" + c);
  }

  /** Four digit runs joined by underscores clean to their concatenation. */
  lemma CleanGroups4(a: string, b: string, c: string, d: string)
    requires |a| > 0 && |b| > 0 && |c| > 0 && |d| > 0
    requires AllDigits(a) && AllDigits(b) && AllDigits(c) && AllDigits(d)
    ensures CleanInput(a + "_" + b + "_" + c + "_" + d) == a + b + c + d
  {
    DigitsAreGroups(a);
    DigitsAreGroups(b);
    DigitsAreGroups(c);
    DigitsAreGroups(d);
    JoinGroups(a, b);
    var ab := a + "_" + b;
    JoinGroups(ab, c);
    var abc := ab + "_" + c;
    JoinGroups(abc, d);
    GroupsClean(abc + "_" + d);
  }

  /** src/test/timestampParser.test.ts:5-8. */
  lemma ValidFirstSeconds()
    ensures IsValidTimestamp("1350508407")
  {
    FirstSecondsDigits();
    CleanDigits("1350508407");
    SecondsTokenValid("1350508407", "1350508407", 1350508407);
  }

  /** src/test/timestampParser.test.ts:10-13. */
  lemma ValidFirstMillis()
    ensures IsValidTimestamp("1350508407000")
  {
    FirstMillisText("1350508407000");
    FirstSecondsDigits();
    SecondsAgreeWithMillis("1350508407");
    ValidFirstSeconds();
  }

  lemma NewYear2021Millis(ms: string)
    requires ms == "1609459200000"
    ensures ms == "1609459200" + "000"
  {
  }

  /** src/test/timestampParser.test.ts:7 and 12: the first second of 2021, in seconds and in milliseconds. */
  lemma ValidNewYear2021(s: string, ms: string)
    requires s == "1609459200" && ms == "1609459200000"
    ensures IsValidTimestamp(s) && IsValidTimestamp(ms)
  {
    TestNumerals.NewYear2021Seconds(s);
    NewYear2021Millis(ms);
    CleanDigits(s);
    SecondsTokenValid(s, s, 1609459200);
    SecondsAgreeWithMillis(s);
  }

  /** Whatever cleans to the seconds of 2023-01-01T00:00:00Z parses to them and is valid. */
  lemma NewYear2023SecondsToken(s: string)
    requires CleanInput(s) == "1672531200"
    ensures Parse(s) == Some(NewYear2023Info) && IsValidTimestamp(s)
  {
    var d := "1672531200";
    TestNumerals.NewYear2023Seconds(d);
    SecondsToken(s, d, 1672531200);
    SecondsTokenValid(s, d, 1672531200);
    NewYear2023Generated();
    NewYear2023IsoString();
  }

  /** Tokens that clean alike are read alike. */
  lemma CleanedAlike(a: string, b: string)
    requires CleanInput(a) == CleanInput(b)
    ensures Parse(a) == Parse(b) && IsValidTimestamp(a) == IsValidTimestamp(b)
  {
  }

  lemma SecondsGroups(s: string)
    requires s == "1672_531_200"
    ensures s == "1672" + "_" + "531" + "_" + "200"
  {
  }

  lemma MillisGroups(s: string)
    requires s == "1672_531_200_000"
    ensures s == "1672" + "_" + "531" + "_" + "200" + "_" + "000"
  {
  }

  lemma ThirteenGroups(s: string)
    requires s == "1752_4657_977_06"
    ensures s == "1752" + "_" + "4657" + "_" + "977" + "_" + "06"
  {
  }

  lemma NewYear2023Joined(d: string)
    requires d == "1672" + "531" + "200"
    ensures d == "1672531200"
  {
  }

  lemma ThirteenJoined(d: string)
    requires d == "1752" + "4657" + "977" + "06"
    ensures d == "1752465797" + "706"
  {
  }

  /** src/test/timestampParser.test.ts:31 and 117-124. */
  lemma UnderscoredSeconds(s: string)
    requires s == "1672_531_200"
    ensures Parse(s) == Some(NewYear2023Info) && IsValidTimestamp(s)
  {
    SecondsGroups(s);
    CleanGroups("1672", "531", "200");
    NewYear2023Joined("1672" + "531" + "200");
    NewYear2023SecondsToken(s);
  }

  /** src/test/timestampParser.test.ts:32 and 126-132: the same seconds with three zeros more. */
  lemma UnderscoredMillis(s: string)
    requires s == "1672_531_200_000"
    ensures Parse(s) == Some(NewYear2023Info) && IsValidTimestamp(s)
  {
    MillisGroups(s);
    CleanGroups4("1672", "531", "200", "000");
    var d := "1672" + "531" + "200";
    NewYear2023Joined(d);
    TestNumerals.NewYear2023Seconds(d);
    ThreeZerosMore(d);
    CleanDigits(d + "000");
    CleanedAlike(s, d + "000");
    SecondsAgreeWithMillis(d);
    CleanDigits(d);
    NewYear2023SecondsToken(d);
  }

  /** src/test/timestampParser.test.ts:33 and 134-140: the groups join to thirteen digits, read as milliseconds. */
  lemma UnderscoredThirteen(s: string)
    requires s == "1752_4657_977_06"
    ensures Parse(s).Some? && Parse(s).value.timestamp == 1752465797 && IsValidTimestamp(s)
  {
    ThirteenGroups(s);
    CleanGroups4("1752", "4657", "977", "06");
    var a, b := "1752465797", "706";
    ThirteenJoined("1752" + "4657" + "977" + "06");
    TestNumerals.Seconds1752(a);
    TestNumerals.Numeral706();
    TestNumerals.SecondsThenMillis(a, b, 1752465797, 706);
    MillisToken(s, a + b, 1752465797706);
    MillisTokenValid(s, a + b, 1752465797706);
  }

  // ---------------------------------------------------------------------
  // ISO validity: src/test/timestampParser.test.ts:15-21, 36-41, 51-57, 107-115, 152-175

  /** Fields written in the years 1972..2098 give a valid token that parses to a synthetic id. */
  lemma ValidIsoText(f: IsoFields, s: string)
    requires EncodeIso(f) == s && FieldsFit(f) && IsValidFields(f) && 1972 <= f.year <= 2098
    ensures IsValidTimestamp(s) && Parse(s).Some? && Parse(s).value.timestamp > 0
    ensures |Parse(s).value.generatedObjectId| == 24 && Parse(s).value.generatedObjectId[8..] == ZeroFields
  {
    IsoYearsValid(f);
    ValidTimestampParses(s);
    ParseIso(f);
  }

  /** The writing of fields without a clock is the date alone. */
  lemma EncodeDate(f: IsoFields, date: string)
    requires f.clock.None?
    requires FixedDecimal(f.year, 4) + "-" + FixedDecimal(f.month, 2) + "-" + FixedDecimal(f.day, 2) == date
    ensures EncodeIso(f) == date
  {
    assert date + "" == date;
  }

  const Date2012Fields := IsoFields(2012, 10, 17, None)
  const Local2012Fields := IsoFields(2012, 10, 17, Some(Clock(21, 13, 27, None, NoZone)))
  const Utc2012Fields := IsoFields(2012, 10, 17, Some(Clock(21, 13, 27, Some(0), Utc)))
  const Plus8Fields := IsoFields(2023, 1, 1, Some(Clock(10, 30, 0, None, Offset(true, 8, 0))))
  const Minus5Fields := IsoFields(2022, 6, 15, Some(Clock(15, 45, 30, None, Offset(false, 5, 0))))
  const Date2023Fields := IsoFields(2023, 1, 1, None)
  const Local2023Fields := IsoFields(2023, 1, 1, Some(Clock(10, 30, 0, None, NoZone)))
  const Plus9Fields := IsoFields(2021, 12, 25, Some(Clock(23, 59, 59, None, Offset(true, 9, 0))))
  const Minus7Fields := IsoFields(2023, 7, 4, Some(Clock(12, 0, 0, None, Offset(false, 7, 0))))

  lemma Date2012()
    ensures FixedDecimal(2012, 4) + "-" + FixedDecimal(10, 2) + "-" + FixedDecimal(17, 2) == "2012-10-17"
  {
    TestNumerals.Year2012();
    TestNumerals.TwoDigits(10, "10");
    TestNumerals.TwoDigits(17, "17");
  }

  lemma DateJune2022()
    ensures FixedDecimal(2022, 4) + "-" + FixedDecimal(6, 2) + "-" + FixedDecimal(15, 2) == "2022-06-15"
  {
    TestNumerals.Year2022();
    TestNumerals.TwoDigits(6, "06");
    TestNumerals.TwoDigits(15, "15");
  }

  lemma DateChristmas2021()
    ensures FixedDecimal(2021, 4) + "-" + FixedDecimal(12, 2) + "-" + FixedDecimal(25, 2) == "2021-12-25"
  {
    TestNumerals.Year2021();
    TestNumerals.TwoDigits(12, "12");
    TestNumerals.TwoDigits(25, "25");
  }

  lemma DateJuly2023()
    ensures FixedDecimal(2023, 4) + "-" + FixedDecimal(7, 2) + "-" + FixedDecimal(4, 2) == "2023-07-04"
  {
    TestNumerals.Year2023();
    TestNumerals.TwoDigits(7, "07");
    TestNumerals.TwoDigits(4, "04");
  }

  lemma Local2012Clock()
    ensures ClockText(Local2012Fields.clock.value) == "T21:13:27"
  {
    TestNumerals.TwoDigits(13, "13");
    TestNumerals.TwoDigits(21, "21");
    TestNumerals.TwoDigits(27, "27");
  }

  lemma Utc2012Clock()
    ensures ClockText(Utc2012Fields.clock.value) == "T21:13:27.000Z"
  {
    TestNumerals.TwoDigits(0, "00");
    TestNumerals.TwoDigits(13, "13");
    TestNumerals.TwoDigits(21, "21");
    TestNumerals.TwoDigits(27, "27");
    TestNumerals.NoMillis();
  }

  lemma Plus8Clock()
    ensures ClockText(Plus8Fields.clock.value) == "T10:30:00+08:00"
  {
    TestNumerals.TwoDigits(0, "00");
    TestNumerals.TwoDigits(8, "08");
    TestNumerals.TwoDigits(10, "10");
    TestNumerals.TwoDigits(30, "30");
  }

  lemma Minus5Clock()
    ensures ClockText(Minus5Fields.clock.value) == "T15:45:30-05:00"
  {
    TestNumerals.TwoDigits(5, "05");
    TestNumerals.TwoDigits(15, "15");
    TestNumerals.TwoDigits(30, "30");
    TestNumerals.TwoDigits(45, "45");
  }

  lemma Local2023Clock()
    ensures ClockText(Local2023Fields.clock.value) == "T10:30:00"
  {
    TestNumerals.TwoDigits(0, "00");
    TestNumerals.TwoDigits(10, "10");
    TestNumerals.TwoDigits(30, "30");
  }

  lemma Plus9Clock()
    ensures ClockText(Plus9Fields.clock.value) == "T23:59:59+09:00"
  {
    TestNumerals.TwoDigits(9, "09");
    TestNumerals.TwoDigits(23, "23");
    TestNumerals.TwoDigits(59, "59");
  }

  lemma Minus7Clock()
    ensures ClockText(Minus7Fields.clock.value) == "T12:00:00-07:00"
  {
    TestNumerals.TwoDigits(0, "00");
    TestNumerals.TwoDigits(7, "07");
    TestNumerals.TwoDigits(12, "12");
  }

  /** src/test/timestampParser.test.ts:17 and 107-115: a date alone. */
  lemma IsoDate2012(s: string)
    requires s == "2012-10-17"
    ensures IsValidTimestamp(s) && Parse(s).Some? && Parse(s).value.timestamp > 0
    ensures |Parse(s).value.generatedObjectId| == 24 && Parse(s).value.generatedObjectId[8..] == ZeroFields
  {
    Date2012Text();
    ValidIsoText(Date2012Fields, s);
  }

  lemma Date2012Text()
    ensures EncodeIso(Date2012Fields) == "2012-10-17"
  {
    Date2012();
    EncodeDate(Date2012Fields, "2012-10-17");
  }

  /** src/test/timestampParser.test.ts:18: a date-time without an offset. */
  lemma IsoLocal2012(s: string)
    requires s == "2012-10-17T21:13:27"
    ensures IsValidTimestamp(s)
  {
    Local2012Text();
    ValidIsoText(Local2012Fields, s);
  }

  lemma Local2012Text()
    ensures EncodeIso(Local2012Fields) == "2012-10-17T21:13:27"
  {
    Date2012();
    Local2012Clock();
    EncodeHalves(Local2012Fields, "2012-10-17", "T21:13:27");
    TestNumerals.JoinedLocal2012();
  }

  /** src/test/timestampParser.test.ts:19: a UTC date-time with milliseconds. */
  lemma IsoUtc2012(s: string)
    requires s == "2012-10-17T21:13:27.000Z"
    ensures IsValidTimestamp(s)
  {
    Utc2012Text();
    ValidIsoText(Utc2012Fields, s);
  }

  lemma Utc2012Text()
    ensures EncodeIso(Utc2012Fields) == "2012-10-17T21:13:27.000Z"
  {
    Date2012();
    Utc2012Clock();
    EncodeHalves(Utc2012Fields, "2012-10-17", "T21:13:27.000Z");
    TestNumerals.JoinedUtc2012();
  }

  /** src/test/timestampParser.test.ts:20 and 53: an offset ahead of UTC. */
  lemma IsoPlus8(s: string)
    requires s == "2023-01-01T10:30:00+08:00"
    ensures IsValidTimestamp(s) && Parse(s).Some?
  {
    Plus8Text();
    ValidIsoText(Plus8Fields, s);
  }

  lemma Plus8Text()
    ensures EncodeIso(Plus8Fields) == "2023-01-01T10:30:00+08:00"
  {
    Date2023();
    Plus8Clock();
    EncodeHalves(Plus8Fields, "2023-01-01", "T10:30:00+08:00");
    TestNumerals.JoinedPlus8();
  }

  /** src/test/timestampParser.test.ts:21 and 54: an offset behind UTC. */
  lemma IsoMinus5(s: string)
    requires s == "2022-06-15T15:45:30-05:00"
    ensures IsValidTimestamp(s)
  {
    Minus5Text();
    ValidIsoText(Minus5Fields, s);
  }

  lemma Minus5Text()
    ensures EncodeIso(Minus5Fields) == "2022-06-15T15:45:30-05:00"
  {
    DateJune2022();
    Minus5Clock();
    EncodeHalves(Minus5Fields, "2022-06-15", "T15:45:30-05:00");
    TestNumerals.JoinedMinus5();
  }

  /** src/test/timestampParser.test.ts:38 and 154-156, 173. */
  lemma IsoDate2023(s: string)
    requires s == "2023-01-01"
    ensures IsValidTimestamp(s) && Parse(s).Some? && |Parse(s).value.generatedObjectId| == 24
  {
    Date2023Text();
    ValidIsoText(Date2023Fields, s);
  }

  lemma Date2023Text()
    ensures EncodeIso(Date2023Fields) == "2023-01-01"
  {
    Date2023();
    EncodeDate(Date2023Fields, "2023-01-01");
  }

  /** src/test/timestampParser.test.ts:39 and 159-161, 174. */
  lemma IsoLocal2023(s: string)
    requires s == "2023-01-01T10:30:00"
    ensures IsValidTimestamp(s) && Parse(s).Some? && |Parse(s).value.generatedObjectId| == 24
  {
    Local2023Text();
    ValidIsoText(Local2023Fields, s);
  }

  lemma Local2023Text()
    ensures EncodeIso(Local2023Fields) == "2023-01-01T10:30:00"
  {
    Date2023();
    Local2023Clock();
    EncodeHalves(Local2023Fields, "2023-01-01", "T10:30:00");
    TestNumerals.JoinedLocal2023();
  }

  /** src/test/timestampParser.test.ts:55. */
  lemma IsoPlus9(s: string)
    requires s == "2021-12-25T23:59:59+09:00"
    ensures IsValidTimestamp(s)
  {
    Plus9Text();
    ValidIsoText(Plus9Fields, s);
  }

  lemma Plus9Text()
    ensures EncodeIso(Plus9Fields) == "2021-12-25T23:59:59+09:00"
  {
    DateChristmas2021();
    Plus9Clock();
    EncodeHalves(Plus9Fields, "2021-12-25", "T23:59:59+09:00");
    TestNumerals.JoinedPlus9();
  }

  /** src/test/timestampParser.test.ts:56. */
  lemma IsoMinus7(s: string)
    requires s == "2023-07-04T12:00:00-07:00"
    ensures IsValidTimestamp(s)
  {
    Minus7Text();
    ValidIsoText(Minus7Fields, s);
  }

  lemma Minus7Text()
    ensures EncodeIso(Minus7Fields) == "2023-07-04T12:00:00-07:00"
  {
    DateJuly2023();
    Minus7Clock();
    EncodeHalves(Minus7Fields, "2023-07-04", "T12:00:00-07:00");
    TestNumerals.JoinedMinus7();
  }

  /** src/test/timestampParser.test.ts:40-41: a date in double or in single quotes. */
  lemma Date2023Unquoted(t: string)
    requires t == "2023-01-01"
    ensures |t| > 0 && !IsQuote(t[0]) && !IsQuote(t[|t| - 1])
  {
  }

  /** src/test/timestampParser.test.ts:40: a date in double quotes. */
  lemma DoubleQuotedDate(t: string, quoted: string)
    requires t == "2023-01-01" && quoted == "\"" + t + "\""
    ensures IsValidTimestamp(quoted)
  {
    IsoDate2023(t);
    Date2023Unquoted(t);
    Quoted(t, quoted);
  }

  /** src/test/timestampParser.test.ts:41: a date in single quotes. */
  lemma SingleQuotedDate(t: string, quoted: string)
    requires t == "2023-01-01" && quoted == "'" + t + "'"
    ensures IsValidTimestamp(quoted)
  {
    IsoDate2023(t);
    Date2023Unquoted(t);
    QuotesIgnored('\'', t, '\'');
    assert quoted == ['\''] + t + ['\''];
  }

  lemma Plus8Unquoted(t: string)
    requires t == "2023-01-01T10:30:00+08:00"
    ensures |t| > 0 && !IsQuote(t[0]) && !IsQuote(t[|t| - 1])
  {
  }

  /** src/test/timestampParser.test.ts:57: a quoted date-time with an offset is valid. */
  lemma QuotedOffsetValid(t: string, quoted: string)
    requires t == "2023-01-01T10:30:00+08:00" && quoted == "\"" + t + "\""
    ensures IsValidTimestamp(quoted)
  {
    IsoPlus8(t);
    Plus8Unquoted(t);
    Quoted(t, quoted);
  }

  /** src/test/timestampParser.test.ts:233-240: ... and parses to a 24-digit id. */
  lemma QuotedOffsetParses(t: string, quoted: string)
    requires t == "2023-01-01T10:30:00+08:00" && quoted == "\"" + t + "\""
    ensures Parse(quoted).Some? && |Parse(quoted).value.generatedObjectId| == 24
  {
    IsoPlus8(t);
    Plus8Unquoted(t);
    Quoted(t, quoted);
  }

  // ---------------------------------------------------------------------
  // Rejections: src/test/timestampParser.test.ts:23-27, 43-48, 60-74, 163-170, 177-180

  /**
   * A token with a character that is neither a digit nor `_`, and that cannot be an
   * ISO date because that character, or the one where the first `-` belongs, is wrong,
   * is neither parsed nor valid.
   */
  lemma NotAToken(s: string, i: nat)
    requires i < |s| && !IsDigit(s[i]) && s[i] != '_'
    requires !IsQuote(s[0]) && !IsQuote(s[|s| - 1])
    requires i < 4 || |s| < 10 || s[4] != '-'
    ensures Parse(s).None? && !IsValidTimestamp(s)
  {
    assert StripQuotes(s) == s;
    assert !IsDigitGroups(s);
    assert !AllDigits(s);
    assert CleanInput(s) == s;
    assert !IsISO8601Format(s) by {
      if i < 4 && |s| >= 10 {
        assert s[..4][i] == s[i];
      }
    }
    assert Read(s).None?;
  }

  /** src/test/timestampParser.test.ts:24-27: dates written in other ways. */
  lemma OtherDateFormats(a: string, b: string, c: string, d: string)
    requires a == "Oct 17, 2012" && b == "10/17/2012" && c == "17.10.2012" && d == "Jan 1, 2023"
    ensures !IsValidTimestamp(a) && !IsValidTimestamp(b) && !IsValidTimestamp(c) && !IsValidTimestamp(d)
  {
    NotAToken(a, 0);
    NotAToken(b, 2);
    NotAToken(c, 2);
    NotAToken(d, 0);
  }

  /** src/test/timestampParser.test.ts:44-48: local date formats. */
  lemma LocalDateFormats(a: string, b: string, c: string, d: string)
    requires a == "12/25/2023" && b == "1/1/2024" && c == "25.12.2023" && d == "Dec 25 2023"
    ensures !IsValidTimestamp(a) && !IsValidTimestamp(b) && !IsValidTimestamp(c) && !IsValidTimestamp(d)
  {
    NotAToken(a, 2);
    NotAToken(b, 1);
    NotAToken(c, 2);
    NotAToken(d, 0);
  }

  /** src/test/timestampParser.test.ts:163-170 and 177-180: `parse` returns nothing for these. */
  lemma UnparsedTokens(a: string, b: string, c: string)
    requires a == "1/1/2023" && b == "Jan 1, 2023" && c == "invalid-input"
    ensures Parse(a).None? && Parse(b).None? && Parse(c).None?
  {
    NotAToken(a, 1);
    NotAToken(b, 0);
    NotAToken(c, 0);
  }

  /** The empty token cleans to itself: a digit run of length zero, and no ISO text. */
  lemma EmptyRejected()
    ensures Parse("").None? && !IsValidTimestamp("")
  {
    assert CleanInput("") == "";
    assert !IsISO8601Format("");
    assert Read("").None?;
  }

  /**
   * 100000000 seconds is in 1973, inside the years for which the synthetic id is
   * meant to round-trip, yet its nine-digit rendering does not parse.
   */
  lemma NineDigitSecondsUnparsed()
    ensures 1970 < YearOf(100000000 * MsPerSecond) < 2100
    ensures Parse(DecimalString(100000000)).None?
  {
    YearAfter1970(100000000 * MsPerSecond);
    YearBefore2100(100000000 * MsPerSecond);
    ShortSecondsRejected(100000000);
  }

  /** src/test/timestampParser.test.ts:62, 64-67: too short, a word, a trailing letter, empty, nine digits. */
  lemma InvalidTokens(short: string, word: string, mixed: string, nine: string)
    requires short == "123" && word == "not-a-date" && mixed == "1350508407a" && nine == "999999999"
    ensures !IsValidTimestamp(short) && !IsValidTimestamp(word) && !IsValidTimestamp(mixed)
    ensures !IsValidTimestamp("") && !IsValidTimestamp(nine)
  {
    ShortRunsInvalid(short, nine);
    WordsInvalid(word, mixed);
    EmptyRejected();
  }

  lemma WordsInvalid(word: string, mixed: string)
    requires word == "not-a-date" && mixed == "1350508407a"
    ensures !IsValidTimestamp(word) && !IsValidTimestamp(mixed)
  {
    NotAToken(word, 0);
    NotAToken(mixed, 10);
  }

  lemma ShortRunsInvalid(short: string, nine: string)
    requires short == "123" && nine == "999999999"
    ensures !IsValidTimestamp(short) && !IsValidTimestamp(nine)
  {
    assert AllDigits(short) && AllDigits(nine);
    OtherDigitRunsRejected(short);
    OtherDigitRunsRejected(nine);
  }

  /** src/test/timestampParser.test.ts:63 and 68: runs of twenty and of sixteen digits. */
  lemma LongRunsInvalid(twenty: string, sixteen: string)
    requires twenty == "12345678901234567890" && sixteen == "9999999999999999"
    ensures !IsValidTimestamp(twenty) && !IsValidTimestamp(sixteen)
  {
    assert AllDigits(twenty) && AllDigits(sixteen);
    LongRunNeverValid(twenty);
    LongRunNeverValid(sixteen);
  }

  lemma TwentyPrefix(twenty: string, prefix: string)
    requires twenty == "12345678901234567890" && prefix == "1234567890123"
    ensures AllDigits(twenty) && twenty[..13] == prefix
  {
  }

  lemma PrefixDigits(prefix: string)
    requires prefix == "1234567890123"
    ensures AllDigits(prefix) && |prefix| == 13 && DecimalValue(prefix) == 1234567890123
  {
    PrefixJoined(prefix);
    TestNumerals.Seconds1234("1234567890");
    TestNumerals.Numeral123();
    TestNumerals.SecondsThenMillis("1234567890", "123", 1234567890, 123);
  }

  lemma PrefixJoined(prefix: string)
    requires prefix == "1234567890123"
    ensures prefix == "1234567890" + "123"
  {
  }

  /** The twenty-digit run that is not valid still parses: as the milliseconds of its first thirteen digits. */
  lemma LongRunParses(twenty: string)
    requires twenty == "12345678901234567890"
    ensures !IsValidTimestamp(twenty) && Parse(twenty).Some? && Parse(twenty).value.date == 1234567890123
  {
    var prefix := "1234567890123";
    TwentyPrefix(twenty, prefix);
    PrefixDigits(prefix);
    LongRunNeverValid(twenty);
    ParseLongRun(twenty);
    ParseMillis(prefix);
  }

  /** 1970-01-01 parses (its year is in 1970..2100) yet is not valid (its year is not in 1971..2099). */
  lemma WindowsDiffer(s: string)
    requires s == "1970-01-01"
    ensures Parse(s).Some? && Parse(s).value.timestamp == 0 && !IsValidTimestamp(s)
  {
    EpochText(s);
    EpochInstant();
    ParseIso(EpochFields);
    ValidIso(EpochFields);
  }

  const EpochFields := IsoFields(1970, 1, 1, None)

  lemma EpochInstant()
    ensures IsoInstant(EpochFields) == Some(0)
  {
    assert DaysFromCivil(Date(1970, 1, 1)) == 0;
  }

  lemma EpochText(s: string)
    requires s == "1970-01-01"
    ensures EncodeIso(EpochFields) == s
  {
    TestNumerals.Year1970();
    TestNumerals.TwoDigits(1, "01");
    EncodeDate(EpochFields, s);
  }

  // ---------------------------------------------------------------------
  // Hover and the synthetic id: src/test/timestampParser.test.ts:182-202

  /** src/test/timestampParser.test.ts:193-202: the hover block for ten digits of seconds. */
  lemma FirstHover()
    ensures GenerateHoverContent("1350508407")
      == TimestampLabel + "1350508407" + " (" + "2012-10-17T21:13:27.000Z" + ")\n\n"
        + GeneratedLabel + "`" + "507f1f770000000000000000" + "`"
  {
    ParseFirstSeconds();
    ObjectIdExamples.FirstTimestampDecimal();
  }

  /** The synthetic id read back as an ObjectId: the seconds, the zero fields, and the same instant. */
  lemma FirstGeneratedIdReads()
    ensures ObjectIdParser.Parse("507f1f770000000000000000")
      == Some(ObjectIdParser.ObjectIdInfo(1350508407, "000000", "0000", "000000", 1350508407000))
  {
    FirstGeneratedId();
    GeneratedIdParses(1350508407);
  }
}
