# MongoDB ObjectId and timestamp codecs, in Dafny

This project models the two parsers of a VS Code extension that explains MongoDB
ObjectIds and timestamps on hover, and proves properties of them:

- **`ObjectIdParser`** (`objectid_parser.dfy`) models `src/objectIdParser.ts`.
  - It checks that a string is a 24-hex-digit ObjectId.
  - It splits an ObjectId into its fields: the big-endian seconds timestamp in hex digits 0..8, then the machine (6), process (4) and counter (6) digits.
  - It finds the word-bounded ObjectIds in a text, as a `method` whose `while` loop stands for the source's `exec` loop.
  - It renders the Markdown hover block, with the creation instant both in UTC and at a host offset.
- **`TimestampParser`** (`timestamp_parser.dfy`) models `src/timestampParser.ts`.
  - It cleans a token: one quote off each end, and the underscores out of grouped digit runs.
  - It reads the token as 10 digits of seconds, 13 digits of milliseconds, a run of 14 or more digits (milliseconds in the first 13), or an ISO 8601 date or date-time.
  - It applies the two year windows: 1970..2100 for `parse` and 1971..2099 for `isValidTimestamp`.
  - It builds the synthetic ObjectId (8 hex digits of the seconds, then 16 zeros) and renders the hover text.

Supporting modules:

- `Chars` has the character classes, numerals in any base up to 16, decimal and hex renderings, and `padStart`.
- `Civil` converts between epoch milliseconds and the proleptic Gregorian calendar. It stands in for JavaScript's `Date`: `new Date(ms)`, `getFullYear` in UTC, `toISOString`, and the instant of ISO fields.
- `Wrappers` has `Option`. `None` stands for the source's `null`.

The examples of the two test files are proved in `ObjectIdExamples` and `TimestampExamples`, with the literal numerals they need in `TestNumerals`.

How the environment is represented:

- The host time zone is an explicit parameter of the ObjectId hover. It is `TimezoneOffset`, in minutes, with `getTimezoneOffset`'s sign: positive west of UTC.
- The timestamp codec assumes a UTC host. Its year windows use the UTC year, and an ISO date-time without an offset is read as UTC.
- JavaScript numbers are mathematical integers.
- The instants are milliseconds since the epoch.

Where the code and its documentation or tests differ, the model follows the code:

- `999999999` is rejected because it is nine digits long, not because it is before 1970, as the test comment at src/test/timestampParser.test.ts:67 says.
- `1752_4657_977_06` cleans to 13 digits. It is therefore read as milliseconds and is valid. It is not a "long number".
- The window of `parse` keeps the years 1970..2100, while `isValidTimestamp` keeps 1971..2099. So `1970-01-01` parses but is not valid (`TimestampExamples.WindowsDiffer`).
- A digit run of 14 or more characters parses (on its first 13 digits) but is never valid (`TimestampParser.LongRunNeverValid`).

A consequence of the ten-digit rule: a timestamp does not re-parse from its decimal rendering for every instant between 1970 and 2100. One below 1000000000 (before 2001-09-09T01:46:40Z) has fewer than ten decimal digits, so its rendering is not read as seconds and `parse` returns null (`TimestampParser.ShortSecondsRejected`, `TimestampExamples.NineDigitSecondsUnparsed`). `TimestampParser.RenderedSecondsParse` therefore requires at least 1000000000.

## Model

| member | source | states |
|---|---|---|
| Chars.HexString | src/timestampParser.ts:110 | `toString(16)`: at least one hex digit, the digits' value is the number, no leading zero unless the number is 0, and no uppercase letter |
| Chars.PadLeft | src/timestampParser.ts:110 | `padStart`: the string ends the result, only fill characters come before it, and the length is the larger of the two (never truncates) |
| Chars.DecimalString | src/objectIdParser.ts:108 | `String(n)`: a non-empty run of decimal digits whose value is n, with no leading zero unless n is 0 |
| Chars.HexClassMember | src/objectIdParser.ts:20 | a character is a hex digit exactly when it is one of `0-9`, `a-f`, `A-F` |
| Civil.CivilFromDays | src/objectIdParser.ts:107 | the date of a day count is a real calendar date that counts back to that day |
| Civil.CivilRoundTrip | src/objectIdParser.ts:107 | reading a real date as a day count and back gives the same date |
| Civil.DaysFromCivilInjective | src/timestampParser.ts:97 | two real dates with the same day count are the same date |
| Civil.FromEpochMs | src/objectIdParser.ts:35 | `new Date(ms)`: a valid date-time whose instant is ms |
| Civil.EpochMsRoundTrip | src/timestampParser.ts:97 | a valid date-time read as an instant and back is unchanged |
| Civil.YearAtLeast | src/timestampParser.ts:105 | the UTC year of an instant is at least y exactly when the instant is not before y-01-01T00:00Z |
| Civil.YearFrom1970 | src/timestampParser.ts:105 | the year is at least 1970 exactly when the instant is not negative |
| Civil.YearTo2100 | src/timestampParser.ts:105 | the year is at most 2100 exactly when the instant is before 4133980800000 |
| Civil.YearAfter1970 | src/timestampParser.ts:23 | the year is after 1970 exactly when the instant is at least 31536000000 |
| Civil.YearBefore2100 | src/timestampParser.ts:23 | the year is before 2100 exactly when the instant is before 4102444800000 |
| Civil.YearWindow | src/timestampParser.ts:29 | a valid date-time whose year lies in lo..hi-1 has its instant between the first instants of lo and hi |
| Civil.Padded | src/objectIdParser.ts:101-102 | `String(n).padStart(w, '0')`: digits whose value is n, exactly w of them when n has at most w digits |
| Civil.IsoWallClockFixed | src/objectIdParser.ts:107 | for years 0..9999 every field of the ISO rendering is its fixed-width decimal |
| ObjectIdParser.ValidObjectIdPattern | src/objectIdParser.ts:19-21 | `isValidObjectId` holds exactly when the string has 24 characters and every one is among those `[0-9a-fA-F]` lists |
| ObjectIdParser.Parse | src/objectIdParser.ts:26-43 | `None` exactly for non-ObjectIds; otherwise the timestamp is below 2^32, the instant is timestamp*1000 ms, and the machine, process and counter fields (6, 4, 6 digits) concatenate to hex digits 8..24 of the id |
| ObjectIdParser.ParseTimestamp | src/objectIdParser.ts:33-34 | the timestamp is the base-16 value of the first eight characters |
| ObjectIdParser.ParseAssembled | src/objectIdParser.ts:33-43 | an id built from an 8-digit hex timestamp and three hex fields of lengths 6, 4 and 6 parses back to exactly those parts |
| ObjectIdParser.TimestampDigits | src/timestampParser.ts:110 | a timestamp below 2^32, in hex and padded to 8, is 8 hex digits whose value is the timestamp |
| ObjectIdParser.MatchBoundaries | src/objectIdParser.ts:14 | a match is preceded and followed by a non-word character or the edge of the text |
| ObjectIdParser.MatchesApart | src/objectIdParser.ts:14 | two matches at different positions do not overlap |
| ObjectIdParser.NoMatchInLongRun | src/objectIdParser.ts:14 | a run of 25 or more hex digits holds no match |
| ObjectIdParser.NoMatchAcross | src/objectIdParser.ts:14 | a window that holds a non-hex character is no match |
| ObjectIdParser.Exec | src/objectIdParser.ts:76 | `exec` from `lastIndex`: the first match at or after it, or `None` when there is none |
| ObjectIdParser.FindObjectIds | src/objectIdParser.ts:69-85 | every result is a match with `end == start + 24`, `objectId == text[start..end]` and a valid id; the results do not overlap, in order; every match in the text is among them |
| ObjectIdParser.RemoveFirst | src/objectIdParser.ts:99 | `replace('Z', '')` leaves a string without `Z` unchanged |
| ObjectIdParser.RemoveFirstSplit | src/objectIdParser.ts:99 | only the first occurrence is removed |
| ObjectIdParser.NoZInWallClock | src/objectIdParser.ts:99 | the wall-clock part of an ISO string holds no `Z` |
| ObjectIdParser.WallClockWithoutZ | src/objectIdParser.ts:99 | removing `Z` from an ISO string leaves its wall clock |
| ObjectIdParser.OffsetSuffix | src/objectIdParser.ts:100-102 | six characters: `-` exactly when the offset is positive (west), otherwise `+`; then hours and minutes in two digits each, separated by `:`, that together make the absolute offset |
| ObjectIdParser.OffsetDigits | src/objectIdParser.ts:101-102 | the hours and minutes of an offset below a day are two digits each and make up the offset |
| ObjectIdParser.LocalTimeShape | src/objectIdParser.ts:98-102 | the local line is the wall clock of the instant moved by the offset, followed by the offset suffix |
| ObjectIdParser.GenerateHoverContent | src/objectIdParser.ts:90-109 | `Invalid ObjectId` exactly for non-ObjectIds; otherwise the block of the id, its local and UTC creation times and its fields |
| TimestampParser.StripQuotes | src/timestampParser.ts:56 | the result is the input less its first character when that is a quote, and less its last character when that is a quote and is not the one already removed |
| TimestampParser.StripLeadingQuote | src/timestampParser.ts:56 | a quote at the start of an otherwise unquoted token is removed on its own |
| TimestampParser.StripTrailingQuote | src/timestampParser.ts:56 | a quote at the end of an otherwise unquoted token is removed on its own |
| TimestampParser.StripQuotesOfQuoted | src/timestampParser.ts:56 | a token between two quotes, matching or not, loses exactly those two |
| TimestampParser.StripQuotesOnce | src/timestampParser.ts:56 | doubled quotes lose only the outer pair |
| TimestampParser.RemoveUnderscores | src/timestampParser.ts:61 | the result holds no `_` and is all digits when the input holds only digits and underscores |
| TimestampParser.RemoveUnderscoresConcat | src/timestampParser.ts:61 | removing underscores distributes over concatenation |
| TimestampParser.DigitsAreGroups | src/timestampParser.ts:60 | a non-empty digit run is a grouping and has no underscores to remove |
| TimestampParser.JoinGroups | src/timestampParser.ts:60-61 | two groupings joined by `_` are a grouping that cleans to their concatenation |
| TimestampParser.CleanInput | src/timestampParser.ts:54-65 | quotes come off the ends first; if what remains is a grouping it loses exactly its underscores, leaving a non-empty digit run, and otherwise it is the result |
| TimestampParser.GroupsClean | src/timestampParser.ts:60-62 | a grouping has no quotes to strip, so cleaning drops only its underscores |
| TimestampParser.CleanDigits | src/timestampParser.ts:60-62 | a digit run cleans to itself |
| TimestampParser.DecodeEncode | src/timestampParser.ts:47 | the ISO text of fields that fit their widths matches the pattern and reads back to the same fields |
| TimestampParser.EncodeDecode | src/timestampParser.ts:47 | every string matching the pattern is the ISO text of the fields read from it |
| TimestampParser.CleanIsoText | src/timestampParser.ts:60 | an ISO string is left alone by cleaning and is not a digit run |
| TimestampParser.WallClock | src/timestampParser.ts:97 | the written date and clock (missing time fields zero) are a valid date-time |
| TimestampParser.IsoInstant | src/timestampParser.ts:97-98 | an instant exists exactly for valid fields, and moved ahead by the written offset it is the written wall clock |
| TimestampParser.Read | src/timestampParser.ts:75-102 | a reading exists exactly for 10 or 13+ digits or a matching ISO string with valid fields; its seconds are the floor of its milliseconds |
| TimestampParser.GeneratedObjectId | src/timestampParser.ts:110-111 | ends in 16 zeros; whenever the timestamp is below 2^32 it has 24 characters and its first eight are lowercase hex digits whose value is the timestamp |
| TimestampParser.GeneratedIdParses | src/timestampParser.ts:110-111 | the synthetic id is an ObjectId that decodes back to the timestamp, with zero machine, process and counter |
| TimestampParser.Parse | src/timestampParser.ts:70-122 | `None` exactly when there is no reading or its instant is outside the years 1970..2100; otherwise the result holds the reading, a timestamp below 2^32 and a 24-character id |
| TimestampParser.ParsedIdDecodes | src/timestampParser.ts:110-121 | every result of `parse` carries an id that decodes to its timestamp with zero fields, and the ISO text of its instant |
| TimestampParser.InParseWindow | src/timestampParser.ts:105-107 | the years 1970..2100 are the instants 0 up to 4133980800000 |
| TimestampParser.ParseSeconds | src/timestampParser.ts:76-79 | ten digits are seconds: timestamp v, instant v*1000, kept before 2101 |
| TimestampParser.ParseMillis | src/timestampParser.ts:80-83 | thirteen digits are milliseconds: timestamp their floor in seconds |
| TimestampParser.ParseLongRun | src/timestampParser.ts:84-90 | a run of 14 or more digits parses like its first 13 digits |
| TimestampParser.RenderedSecondsParse | src/timestampParser.ts:76-79 | the decimal rendering of a ten-digit timestamp in the window parses to that timestamp |
| TimestampParser.ShortSecondsRejected | src/timestampParser.ts:76-95 | the rendering of a timestamp below 1000000000 neither parses nor is valid |
| TimestampParser.OtherDigitRunsRejected | src/timestampParser.ts:91-95 | a digit run of length 1..9, 11 or 12 neither parses nor is valid |
| TimestampParser.SecondsAgreeWithMillis | src/timestampParser.ts:76-83 | ten digits and the same digits followed by `000` parse alike and are valid alike |
| TimestampParser.QuotesIgnored | src/timestampParser.ts:56 | a token between quotes parses and validates as the bare token |
| TimestampParser.InstantFields | src/timestampParser.ts:114 | the UTC fields of a date-time are valid, in UTC, and denote that date-time |
| TimestampParser.IsoStringFields | src/timestampParser.ts:114 | `toISOString` of a year 0..9999 instant is the ISO text of its UTC fields |
| TimestampParser.ReadIsoString | src/timestampParser.ts:114 | an ISO string in the window cleans to itself and reads back as its own instant |
| TimestampParser.InstantOfFields | src/timestampParser.ts:97 | the UTC fields of a date-time denote its instant |
| TimestampParser.IsoRoundTrip | src/timestampParser.ts:114 | parsing the ISO string of an instant in the window gives that instant |
| TimestampParser.ParseIso | src/timestampParser.ts:91-102 | valid ISO fields parse to their instant, with the timestamp its floor in seconds, kept when in the window |
| TimestampParser.FormattedDateReparses | src/timestampParser.ts:114 | the `formattedDate` of a result parses to that same result |
| TimestampParser.InValidityWindow | src/timestampParser.ts:23 | the years 1971..2099 are the instants 31536000000 up to 4102444800000 |
| TimestampParser.IsValidTimestamp | src/timestampParser.ts:15-33 | a valid token never cleans to a digit run other than 10 or 13 digits long |
| TimestampParser.ValidTimestampReading | src/timestampParser.ts:15-33 | valid exactly when there is a reading, the token is not a 14+ digit run, and the instant is in the years 1971..2099 |
| TimestampParser.ValidIso | src/timestampParser.ts:27-30 | the ISO text of valid fields is valid exactly when its instant is in the years 1971..2099 |
| TimestampParser.IsoYearsValid | src/timestampParser.ts:27-30 | every real ISO date or date-time written in the years 1972..2098 is valid and parses, whatever its offset |
| TimestampParser.LongRunNeverValid | src/timestampParser.ts:20-32 | a run of 14 or more digits is never valid |
| TimestampParser.ValidTimestampParses | src/timestampParser.ts:105-107 | every valid token parses, to an instant in the years 1971..2099 |
| TimestampParser.GenerateHoverContent | src/timestampParser.ts:127-136 | the sentinel exactly when `parse` fails; otherwise the timestamp line with the ISO date, a blank line, and the id line |
| ObjectIdExamples.ValidityExamples | src/test/objectIdParser.test.ts:5-22 | the valid id is accepted; lengths 23 and 25, a `g`, prose and the empty string are rejected; `invalid-id` does not parse |
| ObjectIdExamples.ParseFirstId | src/test/objectIdParser.test.ts:24-39 | `507f1f77bcf86cd799439011` has timestamp 1350508407, fields `bcf86c`/`d799`/`439011` and instant 1350508407000 |
| ObjectIdExamples.FirstTimestampHex | src/test/objectIdParser.test.ts:30 | 1350508407 is `507f1f77` in hex |
| ObjectIdExamples.ParseThirdId | src/test/objectIdParser.test.ts:100-101 | the id of the recent-timestamp test decodes to timestamp 1602911011 and its three fields |
| ObjectIdExamples.ThirdIdYear | src/test/objectIdParser.test.ts:98-104 | that id was created in 2020 |
| ObjectIdExamples.TestTextMatches | src/test/objectIdParser.test.ts:47-53 | the three ids of the test text stand at offsets 53, 97 and 170, between word boundaries |
| ObjectIdExamples.OnlyTestStarts | src/test/objectIdParser.test.ts:47-53 | no other window of the test text is a match |
| ObjectIdExamples.Ascending | src/objectIdParser.ts:76-82 | results without overlap have strictly increasing starts |
| ObjectIdExamples.FindObjectIdsInTestText | src/test/objectIdParser.test.ts:46-65 | the scan of the test text finds exactly three ids, the three of the text in order, the first with `0 <= start < end` |
| ObjectIdExamples.FirstInstant | src/test/objectIdParser.test.ts:38 | 1350508407000 ms is 2012-10-17T21:13:27.000 UTC |
| ObjectIdExamples.FirstIsoString | src/test/objectIdParser.test.ts:91 | the ISO line of the first id is `2012-10-17T21:13:27.000Z` |
| ObjectIdExamples.EastEightSuffix | src/test/objectIdParser.test.ts:90 | offset -480 renders as `+08:00` |
| ObjectIdExamples.FirstLocalTime | src/test/objectIdParser.test.ts:90 | the local line at UTC+08:00 is `2012-10-18T05:13:27.000+08:00` |
| ObjectIdExamples.FirstDetails | src/test/objectIdParser.test.ts:92 | the details line of the first id |
| ObjectIdExamples.HoverOf | src/objectIdParser.ts:104-108 | the hover block of a valid id is its four lines, given the computed values |
| ObjectIdExamples.FirstHover | src/test/objectIdParser.test.ts:82-96 | the whole hover block of the first id at UTC+08:00 |
| TimestampExamples.FirstGeneratedId | src/test/timestampParser.test.ts:82 | the synthetic id of 1350508407 is `507f1f770000000000000000` |
| TimestampExamples.NewYear2023Generated | src/test/timestampParser.test.ts:124 | the synthetic id of 1672531200 is `63b0cd000000000000000000` |
| TimestampExamples.ParseFirstSeconds | src/test/timestampParser.test.ts:76-87 | `1350508407` parses to timestamp 1350508407, its id and instant 1350508407000 |
| TimestampExamples.ParseFirstMillis | src/test/timestampParser.test.ts:89-96 | `1350508407000` parses to the same result |
| TimestampExamples.ParseFirstIso | src/test/timestampParser.test.ts:98-105 | `2012-10-17T21:13:27.000Z` parses to the same result |
| TimestampExamples.FirstHover | src/test/timestampParser.test.ts:193-202 | the hover text of `1350508407` |
| TimestampExamples.FirstGeneratedIdReads | src/test/timestampParser.test.ts:82 | the synthetic id `507f1f770000000000000000` decodes as an ObjectId to timestamp 1350508407 and zero fields |
| TimestampExamples.ValidFirstSeconds | src/test/timestampParser.test.ts:6 | `1350508407` is valid |
| TimestampExamples.ValidFirstMillis | src/test/timestampParser.test.ts:11 | `1350508407000` is valid |
| TimestampExamples.ValidNewYear2021 | src/test/timestampParser.test.ts:7 | `1609459200` and `1609459200000` are valid |
| TimestampExamples.SecondsToken | src/test/timestampParser.test.ts:117-124 | a token that cleans to ten digits in the window parses as those seconds |
| TimestampExamples.SecondsTokenValid | src/test/timestampParser.test.ts:31 | and it is valid |
| TimestampExamples.MillisToken | src/test/timestampParser.test.ts:126-132 | a token that cleans to thirteen digits in the window parses as those milliseconds |
| TimestampExamples.MillisTokenValid | src/test/timestampParser.test.ts:32 | and it is valid |
| TimestampExamples.CleanGroups | src/timestampParser.ts:60-62 | three digit runs joined by `_` clean to their concatenation |
| TimestampExamples.CleanGroups4 | src/timestampParser.ts:60-62 | four digit runs joined by `_` clean to their concatenation |
| TimestampExamples.CleanedAlike | src/timestampParser.ts:71 | tokens that clean alike parse alike and validate alike |
| TimestampExamples.UnderscoredSeconds | src/test/timestampParser.test.ts:117-124 | `1672_531_200` parses to 1672531200 with id `63b0cd00…` and is valid |
| TimestampExamples.UnderscoredMillis | src/test/timestampParser.test.ts:126-132 | `1672_531_200_000` gives the same result and is valid |
| TimestampExamples.UnderscoredThirteen | src/test/timestampParser.test.ts:134-140 | `1752_4657_977_06` parses to timestamp 1752465797 and is valid |
| TimestampExamples.NewYear2023Result | src/test/timestampParser.test.ts:219-230 | any ISO text of 2023-01-01T00:00:00Z parses to timestamp 1672531200 |
| TimestampExamples.ParseEast | src/test/timestampParser.test.ts:219-224 | `2023-01-01T08:00:00+08:00` parses to 1672531200 |
| TimestampExamples.ParseWest | src/test/timestampParser.test.ts:226-230 | `2022-12-31T19:00:00-05:00` parses to 1672531200 |
| TimestampExamples.ParseQuotedUtc | src/test/timestampParser.test.ts:143-150 | `"2023-01-01T00:00:00.000Z"` parses to 1672531200 with id `63b0cd00…` |
| TimestampExamples.ValidIsoText | src/test/timestampParser.test.ts:107-115 | ISO text of real fields in the years 1972..2098 is valid and parses to a positive timestamp with a 24-character id ending in zeros |
| TimestampExamples.IsoDate2012 | src/test/timestampParser.test.ts:107-115 | `2012-10-17` is valid and parses to such a result |
| TimestampExamples.IsoLocal2012 | src/test/timestampParser.test.ts:18 | `2012-10-17T21:13:27` is valid |
| TimestampExamples.IsoUtc2012 | src/test/timestampParser.test.ts:19 | `2012-10-17T21:13:27.000Z` is valid |
| TimestampExamples.IsoPlus8 | src/test/timestampParser.test.ts:20 | `2023-01-01T10:30:00+08:00` is valid and parses |
| TimestampExamples.IsoMinus5 | src/test/timestampParser.test.ts:21 | `2022-06-15T15:45:30-05:00` is valid |
| TimestampExamples.IsoDate2023 | src/test/timestampParser.test.ts:154-156 | `2023-01-01` is valid and parses to a 24-character id |
| TimestampExamples.IsoLocal2023 | src/test/timestampParser.test.ts:159-161 | `2023-01-01T10:30:00` is valid and parses to a 24-character id |
| TimestampExamples.IsoPlus9 | src/test/timestampParser.test.ts:55 | `2021-12-25T23:59:59+09:00` is valid |
| TimestampExamples.IsoMinus7 | src/test/timestampParser.test.ts:56 | `2023-07-04T12:00:00-07:00` is valid |
| TimestampExamples.DoubleQuotedDate | src/test/timestampParser.test.ts:40 | `"2023-01-01"` is valid |
| TimestampExamples.SingleQuotedDate | src/test/timestampParser.test.ts:41 | `'2023-01-01'` is valid |
| TimestampExamples.QuotedOffsetValid | src/test/timestampParser.test.ts:57 | `"2023-01-01T10:30:00+08:00"` is valid |
| TimestampExamples.QuotedOffsetParses | src/test/timestampParser.test.ts:233-240 | and it parses to a 24-character id |
| TimestampExamples.NotAToken | src/timestampParser.ts:91-95 | an unquoted token with a character that is neither a digit nor `_`, and no `-` at position 4, neither parses nor is valid |
| TimestampExamples.OtherDateFormats | src/test/timestampParser.test.ts:24-27 | `Oct 17, 2012`, `10/17/2012`, `17.10.2012` and `Jan 1, 2023` are not valid |
| TimestampExamples.LocalDateFormats | src/test/timestampParser.test.ts:44-48 | `12/25/2023`, `1/1/2024`, `25.12.2023` and `Dec 25 2023` are not valid |
| TimestampExamples.UnparsedTokens | src/test/timestampParser.test.ts:163-180 | `1/1/2023`, `Jan 1, 2023` and `invalid-input` do not parse |
| TimestampExamples.EmptyRejected | src/test/timestampParser.test.ts:66 | the empty token neither parses nor is valid |
| TimestampExamples.NineDigitSecondsUnparsed | src/timestampParser.ts:76-95 | 100000000 seconds lies in 1973, yet its rendering does not parse |
| TimestampExamples.ShortRunsInvalid | src/test/timestampParser.test.ts:62-67 | `123` and `999999999` are not valid |
| TimestampExamples.InvalidTokens | src/test/timestampParser.test.ts:60-74 | `123`, `not-a-date`, `1350508407a`, the empty token and `999999999` are not valid |
| TimestampExamples.LongRunsInvalid | src/test/timestampParser.test.ts:63-68 | the 20-digit and 16-digit runs are not valid |
| TimestampExamples.LongRunParses | src/timestampParser.ts:84-90 | the 20-digit run is not valid, yet parses to the instant of its first 13 digits |
| TimestampExamples.WindowsDiffer | src/timestampParser.ts:105-107 | `1970-01-01` parses, to timestamp 0, but is not valid |

## Left out

- `formattedTime` (src/objectIdParser.ts:46-54) is not modelled, because `toLocaleString('en-US', ...)` depends on the locale and on ICU. `ObjectIdInfo` has no such field. ThirdIdYear proves the year the test's substring check looks for.
- The host time zone of the ObjectId hover is the `offset` parameter. It is limited to offsets under a day, and the model does not vary it with daylight saving over the year.
- TimestampParser assumes a UTC host. A local-time `getFullYear` and JavaScript's reading of offset-less date-times in local time are not modelled, so negative timestamps from a local year cannot occur.
- `new Date(string)` leniency is not modelled. ISO fields are valid when they form a real calendar day, a 24-hour clock (`T24:00:00` is rejected) and an offset with hours below 24 and minutes below 60. Engine-specific rollover and the hour-24 form are left out.
- `parseInt` and `Number` use IEEE doubles in the source; the model uses mathematical integers. Every value that reaches a result has at most 13 digits. The imprecise `num` of the 14-or-more-digit branch (src/timestampParser.ts:86) is dead and is not modelled.
- The emoji prefixes of the hover lines are constants holding the intended code points. The encodings of the source and test files disagree, so byte-exact equality with the test's expected text is not claimed.
- The global regular expression's `lastIndex` (src/objectIdParser.ts:14, 74) is the loop variable of `FindObjectIds`. The shared static state it lives in is not modelled.
- Positions are indices into the `seq<char>`. UTF-16 code units outside the Basic Multilingual Plane are not modelled.
- src/extension.ts and src/hoverProvider.ts are not part of this model, because they are editor wiring (activation, hover registration, word ranges). src/test/extension.test.ts only checks that the extension is installed.
- TimestampParser.IsValidTimestamp: its own ensures gives only one direction. The exact characterisation is ValidTimestampReading.
