/** The examples of src/test/objectIdParser.test.ts, proved about the model. */
module ObjectIdExamples {
  import opened Wrappers
  import opened Chars
  import opened Civil
  import opened ObjectIdParser
  import TestNumerals

  /** The id of src/test/objectIdParser.test.ts:25, written as its four fields. */
  const Id1 := "507f1f77" + "bcf86c" + "d799" + "439011"
  const Id2 := "507f191e810c19729de860ea"
  /** The id of src/test/objectIdParser.test.ts:100. */
  const Id3 := "5f8a7b23" + "4e1234" + "5678" + "9abcde"
  const Line1 := "\n        Here are some ObjectIds:\n        - User ID: "
  const Line2 := "\n        - Post ID: "
  const Line3 := "\n        - Invalid: not-an-id\n        - Another: "
  const Line4 := "\n        "

  /** The text searched at src/test/objectIdParser.test.ts:47-53, cut around its three ids. */
  const TestText: string := Line1 + Id1 + Line2 + Id2 + Line3 + Id3 + Line4

  lemma PieceLengths()
    ensures |Line1| == 53 && |Line2| == 20 && |Line3| == 49 && |Line4| == 9
    ensures |Id1| == 24 && |Id2| == 24 && |Id3| == 24 && |TestText| == 203
  {
  }

  lemma FirstId()
    ensures TestText[53..77] == Id1
  {
    PieceLengths();
    assert TestText == Line1 + Id1 + (Line2 + Id2 + Line3 + Id3 + Line4);
  }

  lemma SecondId()
    ensures TestText[97..121] == Id2
  {
    PieceLengths();
    assert TestText == (Line1 + Id1 + Line2) + Id2 + (Line3 + Id3 + Line4);
  }

  lemma ThirdId()
    ensures TestText[170..194] == Id3
  {
    PieceLengths();
    assert TestText == (Line1 + Id1 + Line2 + Id2 + Line3) + Id3 + Line4;
  }

  lemma TestIdsHex()
    ensures IsValidObjectId(Id1) && IsValidObjectId(Id2) && IsValidObjectId(Id3)
  {
  }

  /** src/test/objectIdParser.test.ts:5-22 and 41-44: what is and is not an ObjectId. */
  lemma ValidityExamples()
    ensures IsValidObjectId("507f1f77bcf86cd799439011")
    ensures !IsValidObjectId("507f1f77bcf86cd79943901")
    ensures !IsValidObjectId("507f1f77bcf86cd7994390111")
    ensures !IsValidObjectId("507f1f77bcf86cd79943901g")
    ensures !IsValidObjectId("not-an-objectid")
    ensures !IsValidObjectId("")
    ensures Parse("invalid-id") == None
  {
    assert !IsHexDigit("507f1f77bcf86cd79943901g"[23]);
  }

  // The timestamps of the first and third test ids, written out:
  // 0x507f1f77 in hex and decimal, and 0x5f8a7b23 in hex.

  /** 1350508407 is `507f1f77` in hex. */
  lemma FirstTimestampHex()
    ensures HexString(1350508407) == "507f1f77"
  {
  }

  lemma FirstTimestampDecimal()
    ensures DecimalString(1350508407) == "1350508407"
  {
  }

  lemma ThirdTimestampHex()
    ensures HexString(1602911011) == "5f8a7b23"
  {
  }

  /** src/test/objectIdParser.test.ts:24-39: the fields of the first id. */
  lemma ParseFirstId()
    ensures Parse(Id1) == Some(ObjectIdInfo(1350508407, "bcf86c", "d799", "439011", 1350508407000))
  {
    FirstTimestampHex();
    assert PadLeft("507f1f77", 8, '0') == "507f1f77";
    ParseAssembled(1350508407, "bcf86c", "d799", "439011");
  }

  lemma ParseThirdId()
    ensures Parse(Id3) == Some(ObjectIdInfo(1602911011, "4e1234", "5678", "9abcde", 1602911011000))
  {
    ThirdTimestampHex();
    assert PadLeft("5f8a7b23", 8, '0') == "5f8a7b23";
    ParseAssembled(1602911011, "4e1234", "5678", "9abcde");
  }

  lemma NewYears2020And2021()
    ensures NewYear(2020) == 18262 && NewYear(2021) == 18628
  {
  }

  /** src/test/objectIdParser.test.ts:98-104: the third id was created in 2020 (UTC). */
  lemma ThirdIdYear()
    ensures Parse(Id3).Some? && YearOf(Parse(Id3).value.createdAt) == 2020
  {
    ParseThirdId();
    NewYears2020And2021();
    YearAtLeast(1602911011000, 2020);
    YearAtLeast(1602911011000, 2021);
  }

  // ---------------------------------------------------------------------
  // The hover block of src/test/objectIdParser.test.ts:82-96, whose expected local
  // time is that of a host at UTC+08:00, that is `getTimezoneOffset() == -480`.

  const FirstCreated := DateTime(Date(2012, 10, 17), 21, 13, 27, 0)
  const FirstCreatedInUtcPlus8 := DateTime(Date(2012, 10, 18), 5, 13, 27, 0)

  lemma FirstInstant()
    ensures FromEpochMs(1350508407000) == FirstCreated
  {
    assert EpochMs(FirstCreated) == 1350508407000 by {
      assert DaysFromCivil(FirstCreated.date) == 15630;
    }
    EpochMsRoundTrip(FirstCreated);
  }

  lemma FirstInstantShifted()
    ensures FromEpochMs(1350508407000 - (-480) * MsPerMinute) == FirstCreatedInUtcPlus8
  {
    assert EpochMs(FirstCreatedInUtcPlus8) == 1350537207000 by {
      assert DaysFromCivil(FirstCreatedInUtcPlus8.date) == 15631;
    }
    EpochMsRoundTrip(FirstCreatedInUtcPlus8);
  }

  lemma FixedFields(t: DateTime)
    requires t == FirstCreated || t == FirstCreatedInUtcPlus8
    ensures IsoWallClock(t) ==
      FixedDecimal(t.date.year, 4) + "-" + FixedDecimal(t.date.month, 2) + "-" + FixedDecimal(t.date.day, 2)
        + "T" + FixedDecimal(t.hour, 2) + ":" + FixedDecimal(t.minute, 2) + ":" + FixedDecimal(t.second, 2)
        + "." + FixedDecimal(t.millisecond, 3)
  {
    IsoWallClockFixed(t);
  }

  lemma FirstFields()
    ensures FixedDecimal(2012, 4) == "2012" && FixedDecimal(10, 2) == "10" && FixedDecimal(17, 2) == "17"
    ensures FixedDecimal(21, 2) == "21" && FixedDecimal(13, 2) == "13" && FixedDecimal(27, 2) == "27"
    ensures FixedDecimal(0, 3) == "000"
  {
    TestNumerals.Year2012();
    TestNumerals.TwoDigits(10, "10");
    TestNumerals.TwoDigits(17, "17");
    TestNumerals.TwoDigits(21, "21");
    TestNumerals.TwoDigits(13, "13");
    TestNumerals.TwoDigits(27, "27");
    TestNumerals.NoMillis();
  }

  lemma ShiftedFields()
    ensures FixedDecimal(18, 2) == "18" && FixedDecimal(5, 2) == "05"
  {
    TestNumerals.TwoDigits(18, "18");
    TestNumerals.TwoDigits(5, "05");
  }

  lemma FirstFieldsJoined()
    ensures FixedDecimal(2012, 4) + "-" + FixedDecimal(10, 2) + "-" + FixedDecimal(17, 2)
      + "T" + FixedDecimal(21, 2) + ":" + FixedDecimal(13, 2) + ":" + FixedDecimal(27, 2)
      + "." + FixedDecimal(0, 3) == "2012-10-17T21:13:27.000"
  {
    FirstFields();
    TestNumerals.JoinedFirstWallClock();
  }

  lemma ShiftedFieldsJoined()
    ensures FixedDecimal(2012, 4) + "-" + FixedDecimal(10, 2) + "-" + FixedDecimal(18, 2)
      + "T" + FixedDecimal(5, 2) + ":" + FixedDecimal(13, 2) + ":" + FixedDecimal(27, 2)
      + "." + FixedDecimal(0, 3) == "2012-10-18T05:13:27.000"
  {
    FirstFields();
    ShiftedFields();
    TestNumerals.JoinedShiftedWallClock();
  }

  lemma FirstWallClock(t: DateTime)
    requires t == FirstCreated
    ensures IsoWallClock(t) == "2012-10-17T21:13:27.000"
  {
    FixedFields(t);
    FirstFieldsJoined();
  }

  lemma ShiftedWallClock(t: DateTime)
    requires t == FirstCreatedInUtcPlus8
    ensures IsoWallClock(t) == "2012-10-18T05:13:27.000"
  {
    FixedFields(t);
    ShiftedFieldsJoined();
  }

  /** src/test/objectIdParser.test.ts:91: the ISO line of the first id. */
  lemma FirstIsoString()
    ensures IsoString(1350508407000) == "2012-10-17T21:13:27.000Z"
  {
    var t := FromEpochMs(1350508407000);
    FirstInstant();
    FirstWallClock(t);
    assert IsoString(1350508407000) == IsoWallClock(t) + "Z";
    FirstIsoJoined();
  }

  lemma FirstIsoJoined()
    ensures "2012-10-17T21:13:27.000" + "Z" == "2012-10-17T21:13:27.000Z"
  {
  }

  lemma EastEightHours()
    ensures Padded(8, OffsetFieldWidth) == "08"
  {
    assert Pow(10, OffsetFieldWidth) == 100;
    PaddedFixed(8, OffsetFieldWidth);
    assert FixedDecimal(8, OffsetFieldWidth) == "08";
  }

  lemma EastEightMinutes()
    ensures Padded(0, OffsetFieldWidth) == "00"
  {
    assert Pow(10, OffsetFieldWidth) == 100;
    PaddedFixed(0, OffsetFieldWidth);
    assert FixedDecimal(0, OffsetFieldWidth) == "00";
  }

  lemma EastEightSuffix(offset: TimezoneOffset)
    requires offset == -480
    ensures OffsetSuffix(offset) == "+08:00"
  {
    var absOffset := if offset < 0 then -offset else offset;
    assert absOffset / 60 == 8 && absOffset % 60 == 0;
    var h, m := Padded(absOffset / 60, OffsetFieldWidth), Padded(absOffset % 60, OffsetFieldWidth);
    assert OffsetSuffix(offset) == ['+'] + h + ":" + m;
    EastEightHours();
    EastEightMinutes();
    assert ['+'] + "08" + ":" + "00" == "+08:00";
  }

  /** src/test/objectIdParser.test.ts:90: the local line of the first id at UTC+08:00. */
  lemma FirstLocalTime(ms: int, offset: TimezoneOffset)
    requires ms == 1350508407000 && offset == -480
    ensures LocalTimeString(ms, offset) == "2012-10-18T05:13:27.000+08:00"
  {
    LocalTimeShape(ms, offset);
    FirstInstantShifted();
    ShiftedWallClock(FromEpochMs(ms - offset * MsPerMinute));
    EastEightSuffix(offset);
    LocalTimeJoined();
  }

  lemma LocalTimeJoined()
    ensures "2012-10-18T05:13:27.000" + "+08:00" == "2012-10-18T05:13:27.000+08:00"
  {
  }

  /** src/test/objectIdParser.test.ts:82-96: the whole hover block of the first id at UTC+08:00. */
  lemma FirstHover(offset: TimezoneOffset)
    requires offset == -480
    ensures GenerateHoverContent(Id1, offset) ==
      "**MongoDB ObjectId**: `" + Id1 + "`\n\n"
        + CreatedAtLabel + "2012-10-18T05:13:27.000+08:00" + "  \n"
        + IsoStringLabel + "2012-10-17T21:13:27.000Z" + "  \n"
        + DetailsLabel + ("Timestamp: 1350508407 | Machine: bcf86c" + " | Process: d799 | Counter: 439011")
  {
    FirstHoverLines(offset);
    HoverOf(Id1, offset, "2012-10-18T05:13:27.000+08:00", "2012-10-17T21:13:27.000Z",
      "Timestamp: 1350508407 | Machine: bcf86c" + " | Process: d799 | Counter: 439011");
  }

  lemma FirstHoverLines(offset: TimezoneOffset)
    requires offset == -480
    ensures IsValidObjectId(Id1)
    ensures LocalTimeString(Parse(Id1).value.timestamp * MsPerSecond, offset) == "2012-10-18T05:13:27.000+08:00"
    ensures IsoString(Parse(Id1).value.timestamp * MsPerSecond) == "2012-10-17T21:13:27.000Z"
    ensures DetailsLine(Parse(Id1).value) == "Timestamp: 1350508407 | Machine: bcf86c" + " | Process: d799 | Counter: 439011"
  {
    var info := ObjectIdInfo(1350508407, "bcf86c", "d799", "439011", 1350508407000);
    ParseFirstId();
    TestIdsHex();
    FirstLocalTime(info.timestamp * MsPerSecond, offset);
    FirstIsoString();
    FirstDetails(info);
  }

  /** The hover block of a valid id, given its three computed lines. */
  lemma HoverOf(objectId: string, offset: TimezoneOffset, local: string, iso: string, details: string)
    requires IsValidObjectId(objectId)
    requires LocalTimeString(Parse(objectId).value.timestamp * MsPerSecond, offset) == local
    requires IsoString(Parse(objectId).value.timestamp * MsPerSecond) == iso
    requires DetailsLine(Parse(objectId).value) == details
    ensures GenerateHoverContent(objectId, offset) ==
      "**MongoDB ObjectId**: `" + objectId + "`\n\n" + CreatedAtLabel + local + "  \n"
        + IsoStringLabel + iso + "  \n" + DetailsLabel + details
  {
  }

  lemma FirstDetails(info: ObjectIdInfo)
    requires info == ObjectIdInfo(1350508407, "bcf86c", "d799", "439011", 1350508407000)
    ensures DetailsLine(info) == "Timestamp: 1350508407 | Machine: bcf86c" + " | Process: d799 | Counter: 439011"
  {
    FirstTimestampDecimal();
    DetailsJoined();
  }

  lemma DetailsJoined()
    ensures "Timestamp: " + "1350508407" + " | Machine: " + "bcf86c" + " | Process: " + "d799" + " | Counter: " + "439011"
      == "Timestamp: 1350508407 | Machine: bcf86c" + " | Process: d799 | Counter: 439011"
  {
    DetailsFirstHalf();
    DetailsSecondHalf();
  }

  lemma DetailsFirstHalf()
    ensures "Timestamp: " + "1350508407" + " | Machine: " + "bcf86c" == "Timestamp: 1350508407 | Machine: bcf86c"
  {
  }

  lemma DetailsSecondHalf()
    ensures " | Process: " + "d799" + " | Counter: " + "439011" == " | Process: d799 | Counter: 439011"
  {
  }

  /** The characters that close every window of the test text except the three ids. */
  lemma TestTextSeparators()
    ensures |TestText| == 203
    ensures TestText[23] == 'O' && TestText[47] == 'r' && TestText[52] == ' ' && TestText[77] == '\n'
    ensures TestText[96] == ' ' && TestText[121] == '\n' && TestText[144] == '-'
    ensures TestText[168] == ':' && TestText[169] == ' ' && TestText[194] == '\n'
  {
    PieceLengths();
  }

  lemma TestTextMatches()
    ensures MatchesAt(TestText, 53) && MatchesAt(TestText, 97) && MatchesAt(TestText, 170)
  {
    FirstId();
    SecondId();
    ThirdId();
    TestIdsHex();
    TestTextSeparators();
  }

  /** In a text laid out like the test text, only three windows can match. */
  lemma WindowsBlocked(text: string, i: nat)
    requires |text| == 203
    requires !IsHexDigit(text[23]) && !IsHexDigit(text[47]) && !IsHexDigit(text[52]) && !IsHexDigit(text[77])
    requires !IsHexDigit(text[96]) && !IsHexDigit(text[121]) && !IsHexDigit(text[144])
    requires !IsHexDigit(text[168]) && !IsHexDigit(text[169]) && !IsHexDigit(text[194])
    requires MatchesAt(text, i)
    ensures i == 53 || i == 97 || i == 170
  {
    var j :=
      if i <= 23 then 23 else if i <= 47 then 47 else if i <= 52 then 52 else if i <= 77 then 77
      else if i <= 96 then 96 else if i <= 121 then 121 else if i <= 144 then 144
      else if i <= 168 then 168 else if i <= 169 then 169 else 194;
    if i != 53 && i != 97 && i != 170 {
      NoMatchAcross(text, i, j);
    }
  }

  /** Strictly increasing starts drawn from {a, b, c} and covering all three are exactly a, b, c. */
  lemma ExactlyThree(found: seq<Match>, a: nat, b: nat, c: nat)
    requires a < b < c
    requires forall k, l :: 0 <= k < l < |found| ==> found[k].start < found[l].start
    requires forall k :: 0 <= k < |found| ==> found[k].start == a || found[k].start == b || found[k].start == c
    requires exists k :: 0 <= k < |found| && found[k].start == a
    requires exists k :: 0 <= k < |found| && found[k].start == b
    requires exists k :: 0 <= k < |found| && found[k].start == c
    ensures |found| == 3 && found[0].start == a && found[1].start == b && found[2].start == c
  {
    var ka :| 0 <= ka < |found| && found[ka].start == a;
    var kb :| 0 <= kb < |found| && found[kb].start == b;
    var kc :| 0 <= kc < |found| && found[kc].start == c;
    assert ka < kb < kc;
    var last := |found| - 1;
    assert found[0].start <= a && found[1].start <= b && found[2].start <= c && found[last].start >= c;
    assert found[0].start == a && found[1].start == b && found[2].start == c;
    assert ka == 0 && kb == 1 && kc == 2 && kc == last;
  }

  lemma OnlyTestStarts(found: seq<Match>)
    requires forall k :: 0 <= k < |found| ==> IsMatchOf(TestText, found[k])
    ensures forall k :: 0 <= k < |found| ==> found[k].start == 53 || found[k].start == 97 || found[k].start == 170
  {
    TestTextSeparators();
    forall k | 0 <= k < |found|
      ensures found[k].start == 53 || found[k].start == 97 || found[k].start == 170
    {
      WindowsBlocked(TestText, found[k].start);
    }
  }

  /** src/test/objectIdParser.test.ts:46-65: exactly the three ids, in order of appearance. */
  method FindObjectIdsInTestText() returns (found: seq<Match>)
    ensures |found| == 3
    ensures found[0].objectId == Id1 && found[1].objectId == Id2 && found[2].objectId == Id3
    ensures 0 <= found[0].start < found[0].end
  {
    found := FindObjectIds(TestText);
    TestTextMatches();
    OnlyTestStarts(found);
    Ascending(TestText, found);
    ExactlyThree(found, 53, 97, 170);
    FirstId();
    SecondId();
    ThirdId();
  }

  /** The starts of `findObjectIds`' results strictly increase. */
  lemma {:induction false} Ascending(text: string, found: seq<Match>)
    requires forall k :: 0 <= k < |found| ==> IsMatchOf(text, found[k])
    requires forall k :: 0 <= k < |found| - 1 ==> found[k].end <= found[k + 1].start
    ensures forall k, l :: 0 <= k < l < |found| ==> found[k].start < found[l].start
  {
    if |found| > 1 {
      var rest := found[1..];
      assert forall k :: 0 <= k < |rest| ==> rest[k] == found[k + 1];
      Ascending(text, rest);
      forall k, l | 0 <= k < l < |found| ensures found[k].start < found[l].start {
        if k > 0 {
          assert found[k] == rest[k - 1] && found[l] == rest[l - 1];
        } else if l > 1 {
          assert found[1] == rest[0] && found[l] == rest[l - 1];
        }
      }
    }
  }
}
