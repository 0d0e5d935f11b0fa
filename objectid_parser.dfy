/**
 * The MongoDB ObjectId codec of src/objectIdParser.ts.
 *
 * An ObjectId is 24 hexadecimal characters, that is 12 bytes: a big-endian 4-byte
 * count of seconds since the epoch, then a 3-byte machine field, a 2-byte process
 * field and a 3-byte counter. The class `ObjectIdParser` validates such strings,
 * splits them into fields, finds them in free text and renders a Markdown block
 * describing one.
 */
module ObjectIdParser {
  import opened Wrappers
  import opened Chars
  import opened Civil

  const ObjectIdLength: nat := 24

  /** The fields of a decoded ObjectId; `formattedTime` of the source is not modelled. */
  datatype ObjectIdInfo = ObjectIdInfo(
    timestamp: nat,      // seconds since the epoch, from the first 8 hex digits
    machineId: string,   // hex digits 8..14, as written
    processId: string,   // hex digits 14..18, as written
    counter: string,     // hex digits 18..24, as written
    createdAt: int       // the creation instant, in milliseconds since the epoch
  )

  /** `/^[0-9a-fA-F]{24}$/.test(s)`. */
  predicate IsValidObjectId(s: string) {
    |s| == ObjectIdLength && AllHex(s)
  }

  /** The predicate is the regular expression: 24 characters, each one listed by `[0-9a-fA-F]`. */
  lemma ValidObjectIdPattern(s: string)
    ensures IsValidObjectId(s) <==> |s| == 24 && forall i :: 0 <= i < |s| ==> s[i] in HexClass
  {
    forall i | 0 <= i < |s| {
      HexClassMember(s[i]);
    }
  }

  /** `parse`: `None` where the source returns `null`. */
  function Parse(objectId: string): (r: Option<ObjectIdInfo>)
    ensures r.None? <==> !IsValidObjectId(objectId)
    ensures r.Some? ==>
      && r.value.timestamp < 0x1_0000_0000
      && r.value.createdAt == r.value.timestamp * MsPerSecond
      && |r.value.machineId| == 6 && |r.value.processId| == 4 && |r.value.counter| == 6
      && r.value.machineId + r.value.processId + r.value.counter == objectId[8..]
      && objectId == objectId[..8] + r.value.machineId + r.value.processId + r.value.counter
  {
    if !IsValidObjectId(objectId) then None
    else
      var timestampHex := objectId[..8];
      var timestamp := HexValue(timestampHex);
      NumeralBound(timestampHex, 16);
      Pow16Eight();
      var machineAndProcess := objectId[8..18];
      var info := ObjectIdInfo(timestamp, machineAndProcess[..6], machineAndProcess[6..], objectId[18..24],
                               timestamp * MsPerSecond);
      assert info.machineId + info.processId + info.counter == objectId[8..];
      Some(info)
  }

  /** The timestamp field is the base-16 value of the first eight characters. */
  lemma ParseTimestamp(objectId: string)
    requires IsValidObjectId(objectId)
    ensures AllHex(objectId[..8])
    ensures Parse(objectId).value.timestamp == HexValue(objectId[..8])
  {
  }

  /**
   * Parsing takes apart an id assembled from its fields: the eight lowercase hex
   * digits of a 32-bit timestamp, then machine, process and counter as given.
   */
  lemma ParseAssembled(timestamp: nat, machineId: string, processId: string, counter: string)
    requires timestamp < 0x1_0000_0000
    requires |machineId| == 6 && |processId| == 4 && |counter| == 6
    requires AllHex(machineId) && AllHex(processId) && AllHex(counter)
    ensures
      var id := PadLeft(HexString(timestamp), 8, '0') + machineId + processId + counter;
      Parse(id) == Some(ObjectIdInfo(timestamp, machineId, processId, counter, timestamp * MsPerSecond))
  {
    var hex := PadLeft(HexString(timestamp), 8, '0');
    TimestampDigits(timestamp);
    AssembledSlices(hex, machineId, processId, counter);
  }

  /** The pieces of an assembled id sit where `parse` slices them. */
  lemma AssembledSlices(hex: string, machineId: string, processId: string, counter: string)
    requires |hex| == 8 && |machineId| == 6 && |processId| == 4 && |counter| == 6
    requires AllHex(hex) && AllHex(machineId) && AllHex(processId) && AllHex(counter)
    ensures var id := hex + machineId + processId + counter;
      && IsValidObjectId(id) && id[..8] == hex && id[18..24] == counter
      && id[8..18][..6] == machineId && id[8..18][6..] == processId
  {
    AllHexConcat(hex, machineId);
    AllHexConcat(hex + machineId, processId);
    AllHexConcat(hex + machineId + processId, counter);
    var id := hex + machineId + processId + counter;
    assert id[..8] == hex;
    assert id[8..18] == machineId + processId;
    assert id[8..18][..6] == machineId && id[8..18][6..] == processId;
    assert id[18..24] == counter;
  }

  /** A 32-bit timestamp written as eight zero-padded hex digits reads back as itself. */
  lemma TimestampDigits(timestamp: nat)
    requires timestamp < 0x1_0000_0000
    ensures var hex := PadLeft(HexString(timestamp), 8, '0');
      |hex| == 8 && AllHex(hex) && HexValue(hex) == timestamp
  {
    Pow16Eight();
    PaddedNumeral(timestamp, 16, 8);
    HexDigits(PadLeft(HexString(timestamp), 8, '0'));
  }

  // ---------------------------------------------------------------------
  // Finding ObjectIds in text

  /** One result of `findObjectIds`. */
  datatype Match = Match(objectId: string, start: nat, end: nat)

  /** `\b` at position k of text: a word character on exactly one side (the text edges count as non-word). */
  predicate AtWordBoundary(text: string, k: nat)
    requires k <= |text|
  {
    (k > 0 && IsWordChar(text[k - 1])) != (k < |text| && IsWordChar(text[k]))
  }

  /** `/\b[0-9a-fA-F]{24}\b/` matches text at position i. */
  predicate MatchesAt(text: string, i: nat) {
    && i + ObjectIdLength <= |text|
    && AtWordBoundary(text, i)
    && AllHex(text[i..i + ObjectIdLength])
    && AtWordBoundary(text, i + ObjectIdLength)
  }

  /** What the source promises of each entry it pushes (src/objectIdParser.ts:77-81). */
  predicate IsMatchOf(text: string, m: Match) {
    && m.end == m.start + ObjectIdLength <= |text|
    && m.objectId == text[m.start..m.end]
    && IsValidObjectId(m.objectId)
    && MatchesAt(text, m.start)
  }

  /** A match starts after a non-word character, or at the start of the text. */
  lemma MatchBoundaries(text: string, i: nat)
    requires MatchesAt(text, i)
    ensures i == 0 || !IsWordChar(text[i - 1])
    ensures i + ObjectIdLength == |text| || !IsWordChar(text[i + ObjectIdLength])
  {
    assert IsHexDigit(text[i..i + ObjectIdLength][0]);
    assert IsHexDigit(text[i..i + ObjectIdLength][ObjectIdLength - 1]);
  }

  /** Two matches never overlap: every character of a match is a word character. */
  lemma MatchesApart(text: string, i: nat, j: nat)
    requires MatchesAt(text, i) && MatchesAt(text, j) && i < j
    ensures i + ObjectIdLength <= j
  {
    if j < i + ObjectIdLength {
      MatchBoundaries(text, j);
    }
  }

  /** A run of 25 or more hexadecimal characters holds no match: a match needs a boundary on both sides. */
  lemma NoMatchInLongRun(text: string, a: nat, b: nat, i: nat)
    requires a <= b <= |text| && b - a > ObjectIdLength && AllHex(text[a..b])
    requires a <= i && i + ObjectIdLength <= b
    ensures !MatchesAt(text, i)
  {
    if MatchesAt(text, i) {
      MatchBoundaries(text, i);
    }
  }

  /** A window holding a non-hexadecimal character is not a match. */
  lemma NoMatchAcross(text: string, i: nat, j: nat)
    requires i <= j < i + ObjectIdLength && j < |text| && !IsHexDigit(text[j])
    ensures !MatchesAt(text, i)
  {
    if i + ObjectIdLength <= |text| {
      assert text[i..i + ObjectIdLength][j - i] == text[j];
    }
  }

  /** After a match at `start`, the next possible match starts at its end. */
  lemma NoMatchInside(text: string, start: nat)
    requires MatchesAt(text, start)
    ensures forall i :: start < i < start + ObjectIdLength ==> !MatchesAt(text, i)
  {
    forall i | start < i < start + ObjectIdLength
      ensures !MatchesAt(text, i)
    {
      if MatchesAt(text, i) {
        MatchesApart(text, start, i);
      }
    }
  }

  /** The scan's recording step: the match at `start` joins the results in order, after all of them. */
  lemma MatchesRecorded(text: string, matches: seq<Match>, lastIndex: nat, start: nat)
    requires MatchesAt(text, start) && lastIndex <= start
    requires forall k :: 0 <= k < |matches| ==> IsMatchOf(text, matches[k]) && matches[k].end <= lastIndex
    requires forall k :: 0 <= k < |matches| - 1 ==> matches[k].end <= matches[k + 1].start
    ensures var matches' := matches + [Match(text[start..start + ObjectIdLength], start, start + ObjectIdLength)];
      && (forall k :: 0 <= k < |matches'| ==> IsMatchOf(text, matches'[k]) && matches'[k].end <= start + ObjectIdLength)
      && (forall k :: 0 <= k < |matches'| - 1 ==> matches'[k].end <= matches'[k + 1].start)
  {
    var found := Match(text[start..start + ObjectIdLength], start, start + ObjectIdLength);
    assert IsValidObjectId(found.objectId);
    var matches' := matches + [found];
    assert forall k :: 0 <= k < |matches| ==> matches'[k] == matches[k];
    assert matches'[|matches|] == found;
  }

  /**
   * The scan's coverage step: when the matches before `lastIndex` are all recorded
   * and the next one is at `start`, recording it covers every match before its end.
   */
  lemma MatchesCovered(text: string, matches: seq<Match>, lastIndex: nat, start: nat)
    requires MatchesAt(text, start) && lastIndex <= start
    requires forall i :: lastIndex <= i < start ==> !MatchesAt(text, i)
    requires forall i: nat :: i < lastIndex && MatchesAt(text, i) ==>
      exists k :: 0 <= k < |matches| && matches[k].start == i
    ensures var matches' := matches + [Match(text[start..start + ObjectIdLength], start, start + ObjectIdLength)];
      forall i: nat :: i < start + ObjectIdLength && MatchesAt(text, i) ==>
        exists k :: 0 <= k < |matches'| && matches'[k].start == i
  {
    NoMatchInside(text, start);
    var found := Match(text[start..start + ObjectIdLength], start, start + ObjectIdLength);
    var matches' := matches + [found];
    forall i: nat | i < start + ObjectIdLength && MatchesAt(text, i)
      ensures exists k :: 0 <= k < |matches'| && matches'[k].start == i
    {
      if i < lastIndex {
        var k :| 0 <= k < |matches| && matches[k].start == i;
        assert matches'[k] == matches[k];
      } else {
        assert i == start;
        assert matches'[|matches|] == found;
      }
    }
  }

  /** `OBJECTID_REGEX.exec(text)` with `lastIndex == from`: the first match at or after `from`. */
  method Exec(text: string, from: nat) returns (r: Option<nat>)
    ensures r.Some? ==> from <= r.value && MatchesAt(text, r.value)
    ensures r.Some? ==> forall i :: from <= i < r.value ==> !MatchesAt(text, i)
    ensures r.None? ==> forall i :: from <= i ==> !MatchesAt(text, i)
  {
    var i := from;
    while i + ObjectIdLength <= |text|
      invariant from <= i
      invariant forall k :: from <= k < i ==> !MatchesAt(text, k)
    {
      if MatchesAt(text, i) {
        return Some(i);
      }
      i := i + 1;
    }
    return None;
  }

  /**
   * `findObjectIds`: every match of the global regular expression, in order. The
   * result holds exactly the positions where an ObjectId stands between word
   * boundaries, each once, left to right and without overlap.
   */
  method FindObjectIds(text: string) returns (matches: seq<Match>)
    ensures forall k :: 0 <= k < |matches| ==> IsMatchOf(text, matches[k])
    ensures forall k :: 0 <= k < |matches| - 1 ==> matches[k].end <= matches[k + 1].start
    ensures forall i :: MatchesAt(text, i) ==> exists k :: 0 <= k < |matches| && matches[k].start == i
  {
    matches := [];
    var lastIndex: nat := 0;
    while true
      invariant lastIndex <= |text|
      invariant forall k :: 0 <= k < |matches| ==> IsMatchOf(text, matches[k]) && matches[k].end <= lastIndex
      invariant forall k :: 0 <= k < |matches| - 1 ==> matches[k].end <= matches[k + 1].start
      invariant forall i: nat :: i < lastIndex && MatchesAt(text, i) ==>
        exists k :: 0 <= k < |matches| && matches[k].start == i
      decreases |text| - lastIndex
    {
      var m := Exec(text, lastIndex);
      if m.None? {
        break;
      }
      var start := m.value;
      var found := Match(text[start..start + ObjectIdLength], start, start + ObjectIdLength);
      MatchesRecorded(text, matches, lastIndex, start);
      MatchesCovered(text, matches, lastIndex, start);
      matches := matches + [found];
      lastIndex := start + ObjectIdLength;
    }
  }

  // ---------------------------------------------------------------------
  // Hover content

  /**
   * A host's offset from UTC in minutes, as `getTimezoneOffset` gives it: positive
   * west of Greenwich (UTC+8 is -480). Real offsets lie within a day.
   */
  type TimezoneOffset = o: int | -1440 < o < 1440

  const InvalidObjectId := "Invalid ObjectId"
  const CreatedAtLabel := "\U{1F4C5} **Created At**: "
  const IsoStringLabel := "\U{1F310} **ISO String**: "
  const DetailsLabel := "\U{1F527} **Details**: "

  /** `s.replace(c, '')` with a one-character string pattern: only the first occurrence goes. */
  function RemoveFirst(s: string, c: char): (r: string)
    ensures c !in s ==> r == s
  {
    if s == [] then []
    else if s[0] == c then s[1..]
    else [s[0]] + RemoveFirst(s[1..], c)
  }

  /** Removing the first `c` from `a + [c] + b`, where `a` holds no `c`, leaves `a + b`. */
  lemma {:induction false} RemoveFirstSplit(a: string, c: char, b: string)
    requires c !in a
    ensures RemoveFirst(a + [c] + b, c) == a + b
  {
    if a != [] {
      assert (a + [c] + b)[1..] == a[1..] + [c] + b;
      RemoveFirstSplit(a[1..], c, b);
    }
  }

  lemma NoZInPadded(n: nat, width: nat)
    ensures 'Z' !in Padded(n, width)
  {
    NoLetterInDigits(Padded(n, width), 'Z');
  }

  lemma NoZAfterSign(sign: char, n: nat)
    requires sign != 'Z'
    ensures 'Z' !in [sign] + Padded(n, 6)
  {
    NoZInPadded(n, 6);
    NotInAfter('Z', sign, Padded(n, 6));
  }

  lemma NotInAfter(c: char, first: char, rest: string)
    requires c != first && c !in rest
    ensures c !in [first] + rest
  {
    var s := [first] + rest;
    forall i | 0 <= i < |s| ensures s[i] != c {
      if i > 0 {
        assert s[i] == rest[i - 1];
      }
    }
  }

  lemma NoZInYear(y: int)
    ensures 'Z' !in YearString(y)
  {
    if 0 <= y <= 9999 {
      NoZInPadded(y, 4);
    } else if y < 0 {
      NoZAfterSign('-', -y);
      assert "-" == ['-'];
    } else {
      NoZAfterSign('+', y);
      assert "+" == ['+'];
    }
  }

  /** The wall-clock part of an ISO string has no `Z`: it is digits and the separators `-+T:.`. */
  lemma NoZInWallClock(t: DateTime)
    requires IsValidDateTime(t)
    ensures 'Z' !in IsoWallClock(t)
  {
    var year, mo, d := YearString(t.date.year), Padded(t.date.month, 2), Padded(t.date.day, 2);
    var h, mi, s, ms := Padded(t.hour, 2), Padded(t.minute, 2), Padded(t.second, 2), Padded(t.millisecond, 3);
    NoZInYear(t.date.year);
    NoZInPadded(t.date.month, 2);
    NoZInPadded(t.date.day, 2);
    NoZInPadded(t.hour, 2);
    NoZInPadded(t.minute, 2);
    NoZInPadded(t.second, 2);
    NoZInPadded(t.millisecond, 3);
    NoZInJoin(year, mo, d, h, mi, s, ms);
  }

  lemma NoZInJoin(year: string, mo: string, d: string, h: string, mi: string, s: string, ms: string)
    requires 'Z' !in year && 'Z' !in mo && 'Z' !in d && 'Z' !in h && 'Z' !in mi && 'Z' !in s && 'Z' !in ms
    ensures 'Z' !in year + "-" + mo + "-" + d + "T" + h + ":" + mi + ":" + s + "." + ms
  {
  }

  /** Each of the hours and minutes of the offset is padded to this many digits. */
  const OffsetFieldWidth: nat := 2

  /**
   * The offset as `±HH:MM`, with the sign the other way round from `getTimezoneOffset`:
   * six characters, `-` exactly when the host is west of UTC, then the hours and
   * minutes of the offset in two digits each.
   */
  function OffsetSuffix(offset: TimezoneOffset): (r: string)
    ensures |r| == 6 && (r[0] == '-' <==> offset > 0) && (r[0] == '+' <==> offset <= 0) && r[3] == ':'
    ensures AllDigits(r[1..3]) && AllDigits(r[4..6])
    ensures DecimalValue(r[1..3]) * 60 + DecimalValue(r[4..6]) == if offset < 0 then -offset else offset
  {
    var absOffset := if offset < 0 then -offset else offset;
    var sign := if offset > 0 then '-' else '+';
    var hours, minutes := Padded(absOffset / 60, OffsetFieldWidth), Padded(absOffset % 60, OffsetFieldWidth);
    OffsetDigits(absOffset);
    SuffixFields(sign, hours, minutes, absOffset);
    [sign] + hours + ":" + minutes
  }

  lemma SuffixFields(sign: char, hours: string, minutes: string, a: nat)
    requires |hours| == 2 && |minutes| == 2 && AllDigits(hours) && AllDigits(minutes)
    requires DecimalValue(hours) * 60 + DecimalValue(minutes) == a
    ensures var r := [sign] + hours + ":" + minutes;
      && |r| == 6 && r[0] == sign && r[3] == ':' && AllDigits(r[1..3]) && AllDigits(r[4..6])
      && DecimalValue(r[1..3]) * 60 + DecimalValue(r[4..6]) == a
  {
    SuffixLayout(sign, hours, minutes);
  }

  lemma SuffixLayout(sign: char, hours: string, minutes: string)
    requires |hours| == 2 && |minutes| == 2
    ensures var r := [sign] + hours + ":" + minutes;
      |r| == 6 && r[0] == sign && r[1..3] == hours && r[3] == ':' && r[4..6] == minutes
  {
    var r := [sign] + hours + ":" + minutes;
    assert r[1..3] == hours;
    assert r[4..6] == minutes;
  }

  /** The "Created At" value of src/objectIdParser.ts:98-102. */
  function LocalTimeString(ms: int, offset: TimezoneOffset): string {
    RemoveFirst(IsoString(ms - offset * MsPerMinute), 'Z') + OffsetSuffix(offset)
  }

  /** Removing the `Z` from an ISO string leaves its wall-clock part. */
  lemma WallClockWithoutZ(x: int)
    ensures RemoveFirst(IsoString(x), 'Z') == IsoWallClock(FromEpochMs(x))
  {
    NoZInWallClock(FromEpochMs(x));
    RemoveTrailingZ(IsoWallClock(FromEpochMs(x)));
  }

  /** The local time is the wall clock of the shifted instant, followed by the offset. */
  lemma LocalTimeShape(ms: int, offset: TimezoneOffset)
    ensures LocalTimeString(ms, offset) == IsoWallClock(FromEpochMs(ms - offset * MsPerMinute)) + OffsetSuffix(offset)
  {
    var shifted := FromEpochMs(ms - offset * MsPerMinute);
    NoZInWallClock(shifted);
    DropZBeforeSuffix(IsoString(ms - offset * MsPerMinute), IsoWallClock(shifted), OffsetSuffix(offset));
  }

  lemma DropZBeforeSuffix(iso: string, wallClock: string, suffix: string)
    requires 'Z' !in wallClock && iso == wallClock + "Z"
    ensures RemoveFirst(iso, 'Z') + suffix == wallClock + suffix
  {
    RemoveTrailingZ(wallClock);
  }

  lemma RemoveTrailingZ(w: string)
    requires 'Z' !in w
    ensures RemoveFirst(w + "Z", 'Z') == w
  {
    RemoveFirstSplit(w, 'Z', "");
    assert w + ['Z'] + "" == w + "Z";
  }

  /** The hours and minutes of an offset below a day, in two digits each. */
  lemma OffsetDigits(a: nat)
    requires a < 1440
    ensures |Padded(a / 60, OffsetFieldWidth)| == 2 && |Padded(a % 60, OffsetFieldWidth)| == 2
    ensures DecimalValue(Padded(a / 60, OffsetFieldWidth)) * 60 + DecimalValue(Padded(a % 60, OffsetFieldWidth)) == a
  {
    assert Pow(10, OffsetFieldWidth) == 100;
  }

  /** The "Details" value: the four fields, separated by ` | `. */
  function DetailsLine(info: ObjectIdInfo): string {
    "Timestamp: " + DecimalString(info.timestamp) + " | Machine: " + info.machineId
      + " | Process: " + info.processId + " | Counter: " + info.counter
  }

  /** `generateHoverContent`, with the host's time-zone offset as a parameter. */
  function GenerateHoverContent(objectId: string, offset: TimezoneOffset): (r: string)
    ensures r == InvalidObjectId <==> !IsValidObjectId(objectId)
    ensures IsValidObjectId(objectId) ==>
      var info := Parse(objectId).value;
      r == "**MongoDB ObjectId**: `" + objectId + "`\n\n"
        + CreatedAtLabel + LocalTimeString(info.timestamp * MsPerSecond, offset) + "  \n"
        + IsoStringLabel + IsoString(info.timestamp * MsPerSecond) + "  \n"
        + DetailsLabel + DetailsLine(info)
  {
    match Parse(objectId)
    case None => InvalidObjectId
    case Some(info) =>
      var r := "**MongoDB ObjectId**: `" + objectId + "`\n\n"
        + CreatedAtLabel + LocalTimeString(info.createdAt, offset) + "  \n"
        + IsoStringLabel + IsoString(info.createdAt) + "  \n"
        + DetailsLabel + DetailsLine(info);
      assert r[0] == '*' != InvalidObjectId[0];
      r
  }
}
