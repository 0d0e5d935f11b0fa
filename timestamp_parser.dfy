/**
 * The timestamp codec of src/timestampParser.ts.
 *
 * A token under the cursor is cleaned (quotes off the ends, underscores out of
 * grouped digit runs), then read as seconds (10 digits), milliseconds (13 digits),
 * a long run whose first 13 digits are milliseconds, or an ISO 8601 date or
 * date-time. Instants in the years 1970..2100 give a synthetic ObjectId: the
 * eight hex digits of the seconds followed by sixteen zeros.
 *
 * The host time zone is fixed at UTC: the year windows use the UTC year, and an
 * ISO date-time without an offset is read as UTC.
 */
module TimestampParser {
  import opened Wrappers
  import opened Chars
  import opened Civil
  import ObjectIdParser

  // ---------------------------------------------------------------------
  // cleanInput (src/timestampParser.ts:54-65)

  /**
   * `str.replace(/^["']|["']$/g, '')`: a quote at the start and a quote at the end
   * are removed, each on its own; a lone quote is removed once.
   */
  function StripQuotes(s: string): (r: string)
    ensures var head := if |s| > 0 && IsQuote(s[0]) then 1 else 0;
      var tail := if |s| > head && IsQuote(s[|s| - 1]) then 1 else 0;
      r == s[head..|s| - tail]
    ensures |s| - 2 <= |r| <= |s|
    ensures |s| == 0 || (!IsQuote(s[0]) && !IsQuote(s[|s| - 1])) ==> r == s
  {
    var rest := if |s| > 0 && IsQuote(s[0]) then s[1..] else s;
    if |rest| > 0 && IsQuote(rest[|rest| - 1]) then rest[..|rest| - 1] else rest
  }

  /** A token quoted at both ends, with either quote character at either end, loses exactly those two quotes. */
  lemma StripQuotesOfQuoted(open: char, t: string, close: char)
    requires IsQuote(open) && IsQuote(close)
    ensures StripQuotes([open] + t + [close]) == t
  {
    var s := [open] + t + [close];
    assert s[1..] == t + [close];
    assert (t + [close])[..|t|] == t;
  }

  /** A quote at the start alone is removed, whatever follows it. */
  lemma StripLeadingQuote(open: char, t: string)
    requires IsQuote(open) && (|t| == 0 || !IsQuote(t[|t| - 1]))
    ensures StripQuotes([open] + t) == t
  {
    assert ([open] + t)[1..] == t;
  }

  /** A quote at the end alone is removed, whatever precedes it. */
  lemma StripTrailingQuote(t: string, close: char)
    requires IsQuote(close) && (|t| == 0 || !IsQuote(t[0]))
    ensures StripQuotes(t + [close]) == t
  {
    assert (t + [close])[..|t|] == t;
  }

  /** Only one quote comes off each end. */
  lemma StripQuotesOnce(t: string)
    requires |t| > 0 && !IsQuote(t[0]) && !IsQuote(t[|t| - 1])
    ensures StripQuotes("\"\"" + t + "''") == "\"" + t + "'"
  {
    var s := "\"\"" + t + "''";
    assert s[1..] == "\"" + t + "''";
    assert ("\"" + t + "''")[..|t| + 2] == "\"" + t + "'";
  }

  /** `/^\d+(_\d+)*$/`: runs of digits joined by single underscores. */
  predicate IsDigitGroups(s: string) {
    && |s| > 0 && IsDigit(s[0]) && IsDigit(s[|s| - 1])
    && (forall i :: 0 <= i < |s| ==> IsDigit(s[i]) || s[i] == '_')
    && (forall i :: 0 <= i < |s| - 1 && s[i] == '_' ==> s[i + 1] != '_')
  }

  /** `s.replace(/_/g, '')`. */
  function RemoveUnderscores(s: string): (r: string)
    ensures |r| <= |s| && '_' !in r
    ensures (forall i :: 0 <= i < |s| ==> IsDigit(s[i]) || s[i] == '_') ==> AllDigits(r)
    ensures |s| > 0 && s[0] != '_' ==> |r| > 0 && r[0] == s[0]
  {
    if s == [] then []
    else if s[0] == '_' then RemoveUnderscores(s[1..])
    else [s[0]] + RemoveUnderscores(s[1..])
  }

  lemma {:induction false} RemoveUnderscoresNone(s: string)
    requires '_' !in s
    ensures RemoveUnderscores(s) == s
  {
    if s != [] {
      RemoveUnderscoresNone(s[1..]);
      assert s == [s[0]] + s[1..];
    }
  }

  lemma {:induction false} RemoveUnderscoresConcat(a: string, b: string)
    ensures RemoveUnderscores(a + b) == RemoveUnderscores(a) + RemoveUnderscores(b)
  {
    if a == [] {
      assert a + b == b;
    } else {
      assert (a + b)[1..] == a[1..] + b;
      RemoveUnderscoresConcat(a[1..], b);
    }
  }

  /** A plain digit run is a grouping with a single group. */
  lemma DigitsAreGroups(s: string)
    requires |s| > 0 && AllDigits(s)
    ensures IsDigitGroups(s) && RemoveUnderscores(s) == s
  {
    RemoveUnderscoresNone(s);
  }

  /** Joining two groupings with `_` gives a grouping whose digits are those of both. */
  lemma JoinGroups(a: string, b: string)
    requires IsDigitGroups(a) && IsDigitGroups(b)
    ensures IsDigitGroups(a + "_" + b)
    ensures RemoveUnderscores(a + "_" + b) == RemoveUnderscores(a) + RemoveUnderscores(b)
  {
    var s := a + "_" + b;
    forall i | 0 <= i < |s| ensures IsDigit(s[i]) || s[i] == '_' {
      if i > |a| { assert s[i] == b[i - |a| - 1]; }
    }
    forall i | 0 <= i < |s| - 1 && s[i] == '_' ensures s[i + 1] != '_' {
      if i < |a| - 1 {
        assert s[i] == a[i] && s[i + 1] == a[i + 1];
      } else if i == |a| {
        assert s[i + 1] == b[0];
      } else if i > |a| {
        assert s[i] == b[i - |a| - 1] && s[i + 1] == b[i - |a|];
      }
    }
    assert s[|s| - 1] == b[|b| - 1];
    RemoveUnderscoresConcat(a + "_", b);
    RemoveUnderscoresConcat(a, "_");
  }

  /** `cleanInput`. */
  function CleanInput(str: string): (r: string)
    ensures IsDigitGroups(StripQuotes(str)) ==> |r| > 0 && AllDigits(r) && r == RemoveUnderscores(StripQuotes(str))
    ensures !IsDigitGroups(StripQuotes(str)) ==> r == StripQuotes(str)
  {
    var cleaned := StripQuotes(str);
    if IsDigitGroups(cleaned) then RemoveUnderscores(cleaned) else cleaned
  }

  /** A grouping has no quotes to strip: cleaning only drops its underscores. */
  lemma GroupsClean(s: string)
    requires IsDigitGroups(s)
    ensures CleanInput(s) == RemoveUnderscores(s)
  {
    assert StripQuotes(s) == s;
  }

  /** A token that is already a digit run is left alone. */
  lemma CleanDigits(s: string)
    requires |s| > 0 && AllDigits(s)
    ensures CleanInput(s) == s
  {
    DigitsAreGroups(s);
  }

  // ---------------------------------------------------------------------
  // isISO8601Format (src/timestampParser.ts:38-49)

  /** `Z|[+-]\d{2}:\d{2}` at position k, running to the end of s. */
  predicate IsZoneAt(s: string, k: nat)
    requires k <= |s|
  {
    || (|s| == k + 1 && s[k] == 'Z')
    || (&& |s| == k + 6 && (s[k] == '+' || s[k] == '-') && AllDigits(s[k + 1..k + 3]) && s[k + 3] == ':'
        && AllDigits(s[k + 4..k + 6]))
  }

  /** `(\.\d{3})?(Z|[+-]\d{2}:\d{2})?` at position k, running to the end of s. */
  predicate IsClockTailAt(s: string, k: nat)
    requires k <= |s|
  {
    || |s| == k
    || IsZoneAt(s, k)
    || (|s| >= k + 4 && s[k] == '.' && AllDigits(s[k + 1..k + 4]) && (|s| == k + 4 || IsZoneAt(s, k + 4)))
  }

  /** `\d{4}-\d{2}-\d{2}` at the start of s. */
  predicate IsDateText(s: string) {
    && |s| >= 10 && AllDigits(s[..4]) && s[4] == '-' && AllDigits(s[5..7]) && s[7] == '-'
    && AllDigits(s[8..10])
  }

  /** `T\d{2}:\d{2}:\d{2}` after the date. */
  predicate IsClockText(s: string) {
    && |s| >= 19 && s[10] == 'T' && AllDigits(s[11..13]) && s[13] == ':' && AllDigits(s[14..16])
    && s[16] == ':' && AllDigits(s[17..19])
  }

  /** `/^\d{4}-\d{2}-\d{2}(T\d{2}:\d{2}:\d{2}(\.\d{3})?(Z|[+-]\d{2}:\d{2})?)?$/.test(s)`. */
  predicate IsISO8601Format(s: string) {
    IsDateText(s) && (|s| == 10 || (IsClockText(s) && IsClockTailAt(s, 19)))
  }

  // ---------------------------------------------------------------------
  // The fields an ISO string carries, and the text that carries them

  /** The offset of an ISO date-time: none, `Z`, or `+HH:MM` (ahead of UTC) / `-HH:MM`. */
  datatype Zone = NoZone | Utc | Offset(ahead: bool, hours: nat, minutes: nat)

  datatype Clock = Clock(hour: nat, minute: nat, second: nat, millis: Option<nat>, zone: Zone)

  datatype IsoFields = IsoFields(year: nat, month: nat, day: nat, clock: Option<Clock>)

  /** Every field fits the number of digits the format gives it. */
  predicate FieldsFit(f: IsoFields) {
    && f.year < 10000 && f.month < 100 && f.day < 100
    && (f.clock.Some? ==>
      var c := f.clock.value;
      && c.hour < 100 && c.minute < 100 && c.second < 100
      && (c.millis.Some? ==> c.millis.value < 1000)
      && (c.zone.Offset? ==> c.zone.hours < 100 && c.zone.minutes < 100))
  }

  function ZoneText(z: Zone): string {
    match z
    case NoZone => ""
    case Utc => "Z"
    case Offset(ahead, hours, minutes) =>
      [if ahead then '+' else '-'] + FixedDecimal(hours, 2) + ":" + FixedDecimal(minutes, 2)
  }

  function FractionText(millis: Option<nat>): string {
    match millis
    case None => ""
    case Some(ms) => "." + FixedDecimal(ms, 3)
  }

  function ClockText(c: Clock): string {
    "T" + FixedDecimal(c.hour, 2) + ":" + FixedDecimal(c.minute, 2) + ":" + FixedDecimal(c.second, 2)
      + FractionText(c.millis) + ZoneText(c.zone)
  }

  /** The ISO text of the fields, in the shortest form that carries them. */
  function EncodeIso(f: IsoFields): string {
    FixedDecimal(f.year, 4) + "-" + FixedDecimal(f.month, 2) + "-" + FixedDecimal(f.day, 2)
      + (if f.clock.Some? then ClockText(f.clock.value) else "")
  }

  function DecodeZone(s: string, k: nat): Zone
    requires k <= |s| && IsZoneAt(s, k)
  {
    if s[k] == 'Z' then Utc else Offset(s[k] == '+', DecimalValue(s[k + 1..k + 3]), DecimalValue(s[k + 4..k + 6]))
  }

  /** The fraction and the zone after the seconds; a fraction starts with `.`, a zone never does. */
  function DecodeTail(s: string, k: nat): (Option<nat>, Zone)
    requires k <= |s| && IsClockTailAt(s, k)
  {
    if |s| == k then (None, NoZone)
    else if s[k] == '.' then (Some(DecimalValue(s[k + 1..k + 4])), if |s| == k + 4 then NoZone else DecodeZone(s, k + 4))
    else (None, DecodeZone(s, k))
  }

  /** The fields `new Date(s)` reads from an ISO string. */
  function DecodeIso(s: string): IsoFields
    requires IsISO8601Format(s)
  {
    IsoFields(DecimalValue(s[..4]), DecimalValue(s[5..7]), DecimalValue(s[8..10]),
      if |s| == 10 then None
      else
        var tail := DecodeTail(s, 19);
        Some(Clock(DecimalValue(s[11..13]), DecimalValue(s[14..16]), DecimalValue(s[17..19]), tail.0, tail.1)))
  }

  // ---------------------------------------------------------------------
  // The grammar and the fields determine each other

  /** Where the date's pieces sit in a date followed by anything. */
  lemma DateLayout(y: string, mo: string, d: string, rest: string)
    requires |y| == 4 && |mo| == 2 && |d| == 2
    ensures var s := y + "-" + mo + "-" + d + rest;
      && |s| == 10 + |rest| && s[..4] == y && s[4] == '-' && s[5..7] == mo && s[7] == '-' && s[8..10] == d
      && s[10..] == rest
  {
  }

  /** Where the clock's pieces sit after a ten-character date. */
  lemma ClockLayout(date: string, h: string, mi: string, se: string, frac: string, zone: string)
    requires |date| == 10 && |h| == 2 && |mi| == 2 && |se| == 2
    ensures var s := date + ("T" + h + ":" + mi + ":" + se + frac + zone);
      && |s| == 19 + |frac + zone| && s[..10] == date && s[10] == 'T' && s[11..13] == h && s[13] == ':'
      && s[14..16] == mi && s[16] == ':' && s[17..19] == se && s[19..] == frac + zone
  {
  }

  lemma ZoneLayout(s: string, k: nat, z: Zone)
    requires k <= |s| && s[k..] == ZoneText(z) && !z.NoZone?
    requires z.Offset? ==> z.hours < 100 && z.minutes < 100
    ensures IsZoneAt(s, k) && DecodeZone(s, k) == z
  {
    if z.Offset? {
      var hh, mm := FixedDecimal(z.hours, 2), FixedDecimal(z.minutes, 2);
      assert Pow(10, 2) == 100;
      FixedDecimalValue(z.hours, 2);
      FixedDecimalValue(z.minutes, 2);
      assert s[k..] == [if z.ahead then '+' else '-'] + hh + ":" + mm;
      assert s[k + 1..k + 3] == hh && s[k + 4..k + 6] == mm;
    }
  }

  /** Where the milliseconds sit in a fraction followed by a zone. */
  lemma FractionLayout(s: string, k: nat, millis: nat, zone: string)
    requires millis < 1000 && k <= |s| && s[k..] == FractionText(Some(millis)) + zone
    ensures |s| >= k + 4 && s[k] == '.' && AllDigits(s[k + 1..k + 4])
    ensures DecimalValue(s[k + 1..k + 4]) == millis && s[k + 4..] == zone
  {
    assert Pow(10, 3) == 1000;
    FixedDecimalValue(millis, 3);
    DotLayout(s, k, FixedDecimal(millis, 3), zone);
  }

  lemma DotLayout(s: string, k: nat, f: string, zone: string)
    requires |f| == 3 && k <= |s| && s[k..] == "." + f + zone
    ensures |s| >= k + 4 && s[k] == '.' && s[k + 1..k + 4] == f && s[k + 4..] == zone
  {
    assert s[k..][0] == '.';
    assert s[k..][1..4] == f;
    assert s[k..][4..] == zone;
  }

  lemma TailLayout(s: string, k: nat, millis: Option<nat>, z: Zone)
    requires k <= |s| && s[k..] == FractionText(millis) + ZoneText(z)
    requires millis.Some? ==> millis.value < 1000
    requires z.Offset? ==> z.hours < 100 && z.minutes < 100
    ensures IsClockTailAt(s, k) && DecodeTail(s, k) == (millis, z)
  {
    if millis.Some? {
      FractionLayout(s, k, millis.value, ZoneText(z));
      if !z.NoZone? {
        ZoneLayout(s, k + 4, z);
      }
    } else if !z.NoZone? {
      assert s[k..] == ZoneText(z);
      ZoneLayout(s, k, z);
    }
  }

  /** Every field set that fits its digits is written in the grammar and reads back as itself. */
  lemma DecodeEncode(f: IsoFields)
    requires FieldsFit(f)
    ensures IsISO8601Format(EncodeIso(f)) && DecodeIso(EncodeIso(f)) == f
  {
    var y, mo, d := FixedDecimal(f.year, 4), FixedDecimal(f.month, 2), FixedDecimal(f.day, 2);
    assert Pow(10, 2) == 100 && Pow(10, 4) == 10000;
    FixedDecimalValue(f.year, 4);
    FixedDecimalValue(f.month, 2);
    FixedDecimalValue(f.day, 2);
    var rest := if f.clock.Some? then ClockText(f.clock.value) else "";
    var s := EncodeIso(f);
    DateLayout(y, mo, d, rest);
    assert s == y + "-" + mo + "-" + d + rest;
    if f.clock.Some? {
      var c := f.clock.value;
      var h, mi, se := FixedDecimal(c.hour, 2), FixedDecimal(c.minute, 2), FixedDecimal(c.second, 2);
      FixedDecimalValue(c.hour, 2);
      FixedDecimalValue(c.minute, 2);
      FixedDecimalValue(c.second, 2);
      var frac, zone := FractionText(c.millis), ZoneText(c.zone);
      var date := y + "-" + mo + "-" + d;
      ClockLayout(date, h, mi, se, frac, zone);
      assert s == date + ("T" + h + ":" + mi + ":" + se + frac + zone);
      TailLayout(s, 19, c.millis, c.zone);
    }
  }

  /** Cutting a string in the date's shape at its separators and gluing the pieces back gives it again. */
  lemma DateSplit(s: string)
    requires |s| >= 10 && s[4] == '-' && s[7] == '-'
    ensures s == s[..4] + "-" + s[5..7] + "-" + s[8..10] + s[10..]
  {
    var t := s[..4] + "-" + s[5..7] + "-" + s[8..10] + s[10..];
    assert |t| == |s|;
    forall i | 0 <= i < |s| ensures t[i] == s[i] {
    }
  }

  lemma ClockSplit(s: string)
    requires |s| >= 19 && s[10] == 'T' && s[13] == ':' && s[16] == ':'
    ensures s[10..] == "T" + s[11..13] + ":" + s[14..16] + ":" + s[17..19] + s[19..]
  {
    var t := "T" + s[11..13] + ":" + s[14..16] + ":" + s[17..19] + s[19..];
    assert |t| == |s| - 10;
    forall i | 0 <= i < |t| ensures t[i] == s[10 + i] {
    }
  }

  lemma ZoneSplit(s: string, k: nat)
    requires k <= |s| && IsZoneAt(s, k)
    ensures var z := DecodeZone(s, k); s[k..] == ZoneText(z) && (z.Offset? ==> z.hours < 100 && z.minutes < 100)
  {
    if s[k] != 'Z' {
      var hh, mm := s[k + 1..k + 3], s[k + 4..k + 6];
      FixedDecimalOfDigits(hh);
      FixedDecimalOfDigits(mm);
      NumeralBound(hh, 10);
      NumeralBound(mm, 10);
      assert s[k..] == [s[k]] + hh + ":" + mm;
    }
  }

  lemma TailSplit(s: string, k: nat)
    requires k <= |s| && IsClockTailAt(s, k)
    ensures var tail := DecodeTail(s, k);
      && s[k..] == FractionText(tail.0) + ZoneText(tail.1)
      && (tail.0.Some? ==> tail.0.value < 1000)
      && (tail.1.Offset? ==> tail.1.hours < 100 && tail.1.minutes < 100)
  {
    if |s| == k {
    } else if s[k] == '.' {
      FractionSplit(s, k);
    } else {
      ZoneSplit(s, k);
    }
  }

  /** A fraction of three digits, then a zone or nothing, is the writing of the milliseconds and zone it carries. */
  lemma FractionSplit(s: string, k: nat)
    requires k + 4 <= |s| && s[k] == '.' && AllDigits(s[k + 1..k + 4]) && (|s| == k + 4 || IsZoneAt(s, k + 4))
    ensures var millis := DecimalValue(s[k + 1..k + 4]);
      var zone := if |s| == k + 4 then NoZone else DecodeZone(s, k + 4);
      && s[k..] == FractionText(Some(millis)) + ZoneText(zone)
      && millis < 1000 && (zone.Offset? ==> zone.hours < 100 && zone.minutes < 100)
  {
    var f := s[k + 1..k + 4];
    FractionOfDigits(f);
    if |s| == k + 4 {
      assert s[k..] == "." + f;
    } else {
      ZoneSplit(s, k + 4);
      assert s[k..] == "." + f + s[k + 4..];
    }
  }

  lemma FractionOfDigits(f: string)
    requires |f| == 3 && AllDigits(f)
    ensures FractionText(Some(DecimalValue(f))) == "." + f && DecimalValue(f) < 1000
  {
    FixedDecimalOfDigits(f);
    NumeralBound(f, 10);
    assert Pow(10, 3) == 1000;
  }

  /** Every string in the grammar is the writing of the fields it carries, and those fields fit. */
  lemma EncodeDecode(s: string)
    requires IsISO8601Format(s)
    ensures FieldsFit(DecodeIso(s)) && EncodeIso(DecodeIso(s)) == s
  {
    var f := DecodeIso(s);
    var y, mo, d := s[..4], s[5..7], s[8..10];
    FixedDecimalOfDigits(y);
    FixedDecimalOfDigits(mo);
    FixedDecimalOfDigits(d);
    NumeralBound(y, 10);
    NumeralBound(mo, 10);
    NumeralBound(d, 10);
    DateSplit(s);
    if |s| == 10 {
      assert s[10..] == "";
    } else {
      ClockRoundTrip(s);
    }
  }

  /** The clock of a date-time in the grammar fits its digits and is written as it was read. */
  lemma ClockRoundTrip(s: string)
    requires IsISO8601Format(s) && |s| != 10
    ensures var c := DecodeIso(s).clock.value;
      && c.hour < 100 && c.minute < 100 && c.second < 100
      && (c.millis.Some? ==> c.millis.value < 1000)
      && (c.zone.Offset? ==> c.zone.hours < 100 && c.zone.minutes < 100)
      && s[10..] == ClockText(c)
  {
    var h, mi, se := s[11..13], s[14..16], s[17..19];
    FixedDecimalOfDigits(h);
    FixedDecimalOfDigits(mi);
    FixedDecimalOfDigits(se);
    NumeralBound(h, 10);
    NumeralBound(mi, 10);
    NumeralBound(se, 10);
    ClockSplit(s);
    TailSplit(s, 19);
  }

  // ---------------------------------------------------------------------
  // `new Date(cleaned).getTime()` for a string in the grammar

  /** The offset in minutes by which the written clock is ahead of UTC; no offset, like `Z`, is UTC. */
  function ZoneMinutes(z: Zone): int {
    match z
    case Offset(ahead, hours, minutes) => if ahead then hours * 60 + minutes else -(hours * 60 + minutes)
    case _ => 0
  }

  function FieldsZone(f: IsoFields): Zone {
    if f.clock.Some? then f.clock.value.zone else NoZone
  }

  /** The ranges `new Date` accepts: a real calendar day, a 24-hour clock, an offset under a day. */
  predicate IsValidFields(f: IsoFields) {
    && 1 <= f.month <= 12 && 1 <= f.day <= DaysInMonth(f.year, f.month)
    && (f.clock.Some? ==>
      var c := f.clock.value;
      && c.hour < 24 && c.minute < 60 && c.second < 60
      && (c.millis.Some? ==> c.millis.value < 1000)
      && (c.zone.Offset? ==> c.zone.hours < 24 && c.zone.minutes < 60))
  }

  /** The written wall clock; missing time fields are zero. */
  function WallClock(f: IsoFields): (t: DateTime)
    requires IsValidFields(f)
    ensures IsValidDateTime(t)
  {
    var date := Date(f.year, f.month, f.day);
    match f.clock
    case None => DateTime(date, 0, 0, 0, 0)
    case Some(c) => DateTime(date, c.hour, c.minute, c.second, if c.millis.Some? then c.millis.value else 0)
  }

  /**
   * The instant the fields denote, or `None` where `getTime()` is `NaN`: the
   * instant that, moved ahead by the written offset, is the UTC instant of the
   * written clock.
   */
  function IsoInstant(f: IsoFields): (r: Option<int>)
    ensures r.Some? <==> IsValidFields(f)
    ensures r.Some? ==> r.value + ZoneMinutes(FieldsZone(f)) * MsPerMinute == EpochMs(WallClock(f))
  {
    if !IsValidFields(f) then None
    else Some(EpochMs(WallClock(f)) - ZoneMinutes(FieldsZone(f)) * MsPerMinute)
  }

  // ---------------------------------------------------------------------
  // parse (src/timestampParser.ts:70-122)

  /** What a cleaned token is read as: the seconds `parse` reports and the instant of its `Date`. */
  datatype Reading = Reading(timestamp: int, ms: int)

  /** Lines 75-102: the four kinds of token, tried in order. */
  function Read(cleaned: string): (r: Option<Reading>)
    ensures r.Some? ==> r.value.timestamp == r.value.ms / MsPerSecond
    ensures r.None? <==>
      && !(AllDigits(cleaned) && (|cleaned| == 10 || |cleaned| >= 13))
      && !(IsISO8601Format(cleaned) && IsValidFields(DecodeIso(cleaned)))
  {
    if AllDigits(cleaned) && |cleaned| == 10 then
      var timestamp := DecimalValue(cleaned);
      Some(Reading(timestamp, timestamp * MsPerSecond))
    else if AllDigits(cleaned) && |cleaned| == 13 then
      var ms := DecimalValue(cleaned);
      Some(Reading(ms / MsPerSecond, ms))
    else if AllDigits(cleaned) && |cleaned| >= 14 then
      var ms := DecimalValue(cleaned[..13]);
      Some(Reading(ms / MsPerSecond, ms))
    else if !IsISO8601Format(cleaned) then None
    else
      match IsoInstant(DecodeIso(cleaned))
      case None => None
      case Some(ms) => Some(Reading(ms / MsPerSecond, ms))
  }

  /** The last instant of the window `parse` keeps, 2100-12-31T23:59:59.999Z, plus one. */
  const WindowEnd: nat := 4133980800000

  /** The zero-filled machine, process and counter fields of a synthetic ObjectId. */
  const ZeroFields := "0000000000000000"

  /** `timestamp.toString(16).padStart(8, '0') + '0000000000000000'`. */
  function GeneratedObjectId(timestamp: nat): (id: string)
    ensures |id| >= 24 && id[|id| - 16..] == ZeroFields
    ensures timestamp < 0x1_0000_0000 ==> |id| == 24
    ensures timestamp < 0x1_0000_0000 ==>
      && AllHex(id[..8]) && HexValue(id[..8]) == timestamp
      && forall i :: 0 <= i < 8 ==> !('A' <= id[i] <= 'F')
  {
    var hex := PadLeft(HexString(timestamp), 8, '0');
    FitsInEightHex(timestamp);
    GeneratedPrefix(timestamp);
    EndsWith(hex, ZeroFields);
    hex + ZeroFields
  }

  lemma GeneratedPrefix(timestamp: nat)
    ensures var id := PadLeft(HexString(timestamp), 8, '0') + ZeroFields;
      timestamp < 0x1_0000_0000 ==>
        && AllHex(id[..8]) && HexValue(id[..8]) == timestamp
        && forall i :: 0 <= i < 8 ==> !('A' <= id[i] <= 'F')
  {
    if timestamp < 0x1_0000_0000 {
      var hex := PadLeft(HexString(timestamp), 8, '0');
      ObjectIdParser.TimestampDigits(timestamp);
      LowercasePadding(HexString(timestamp), 8);
      assert (hex + ZeroFields)[..8] == hex;
    }
  }

  /** Padding with `0` adds no uppercase letter. */
  lemma LowercasePadding(digits: string, width: nat)
    requires forall i :: 0 <= i < |digits| ==> !('A' <= digits[i] <= 'F')
    ensures var padded := PadLeft(digits, width, '0');
      forall i :: 0 <= i < |padded| ==> !('A' <= padded[i] <= 'F')
  {
    var padded := PadLeft(digits, width, '0');
    forall i | 0 <= i < |padded| ensures !('A' <= padded[i] <= 'F') {
      if i >= |padded| - |digits| {
        assert padded[i] == padded[|padded| - |digits|..][i - (|padded| - |digits|)];
      }
    }
  }

  lemma FitsInEightHex(timestamp: nat)
    ensures timestamp < 0x1_0000_0000 ==> |PadLeft(HexString(timestamp), 8, '0')| == 8
  {
    if timestamp < 0x1_0000_0000 {
      ObjectIdParser.TimestampDigits(timestamp);
    }
  }

  lemma EndsWith(a: string, b: string)
    requires |a| >= 8
    ensures |a + b| >= |b| + 8 && (a + b)[|a + b| - |b|..] == b
  {
  }

  /** The synthetic id is an ObjectId that decodes back to the timestamp, with zero for every other field. */
  lemma GeneratedIdParses(timestamp: nat)
    requires timestamp < 0x1_0000_0000
    ensures ObjectIdParser.IsValidObjectId(GeneratedObjectId(timestamp))
    ensures ObjectIdParser.Parse(GeneratedObjectId(timestamp))
      == Some(ObjectIdParser.ObjectIdInfo(timestamp, "000000", "0000", "000000", timestamp * MsPerSecond))
  {
    var hex := PadLeft(HexString(timestamp), 8, '0');
    ZeroPieces();
    ObjectIdParser.ParseAssembled(timestamp, "000000", "0000", "000000");
    ZeroFieldsJoined(hex);
  }

  lemma ZeroPieces()
    ensures AllHex("000000") && AllHex("0000")
  {
  }

  lemma ZeroFieldsJoined(hex: string)
    ensures hex + "000000" + "0000" + "000000" == hex + ZeroFields
  {
    assert "000000" + "0000" + "000000" == ZeroFields;
  }

  /** The result of `parse`; `date` is the instant of the source's `Date`, in milliseconds. */
  datatype TimestampInfo = TimestampInfo(timestamp: nat, date: int, generatedObjectId: string, formattedDate: string)

  /** `parse`: `None` where the source returns `null`. */
  function Parse(input: string): (r: Option<TimestampInfo>)
    ensures r.None? <==> var rd := Read(CleanInput(input)); rd.None? || !(0 <= rd.value.ms < WindowEnd)
    ensures r.Some? ==>
      && Read(CleanInput(input)) == Some(Reading(r.value.timestamp, r.value.date))
      && 0 <= r.value.date < WindowEnd && r.value.timestamp < 0x1_0000_0000
      && |r.value.generatedObjectId| == 24
  {
    var cleaned := CleanInput(input);
    match Read(cleaned)
    case None => None
    case Some(rd) =>
      if !InParseWindow(rd.ms) then None
      else Some(TimestampInfo(rd.timestamp, rd.ms, GeneratedObjectId(rd.timestamp), IsoString(rd.ms)))
  }

  /** Lines 105-107 keep the years 1970..2100: the instants from the epoch up to `WindowEnd`. */
  function InParseWindow(ms: int): (b: bool)
    ensures b <==> 0 <= ms < WindowEnd
  {
    YearFrom1970(ms);
    YearTo2100(ms);
    !(YearOf(ms) < 1970 || YearOf(ms) > 2100)
  }

  /** The synthetic id of every result of `parse` decodes to its timestamp, and its formatted date is its instant's ISO text. */
  lemma ParsedIdDecodes(input: string)
    ensures Parse(input).Some? ==>
      var info := Parse(input).value;
      && ObjectIdParser.Parse(info.generatedObjectId)
        == Some(ObjectIdParser.ObjectIdInfo(info.timestamp, "000000", "0000", "000000", info.timestamp * MsPerSecond))
      && info.formattedDate == IsoString(info.date)
  {
    if Parse(input).Some? {
      GeneratedIdParses(Parse(input).value.timestamp);
    }
  }

  // ---------------------------------------------------------------------
  // What parse does with each kind of token

  /** Ten digits are seconds; the instant is kept when it falls before 2101. */
  lemma ParseSeconds(s: string)
    requires |s| == 10 && AllDigits(s)
    ensures var v := DecimalValue(s);
      Parse(s) == if v * MsPerSecond < WindowEnd
        then Some(TimestampInfo(v, v * MsPerSecond, GeneratedObjectId(v), IsoString(v * MsPerSecond)))
        else None
  {
    CleanDigits(s);
  }

  /** Thirteen digits are milliseconds; the timestamp is their floor in seconds. */
  lemma ParseMillis(s: string)
    requires |s| == 13 && AllDigits(s)
    ensures var v := DecimalValue(s);
      Parse(s) == if v < WindowEnd
        then Some(TimestampInfo(v / MsPerSecond, v, GeneratedObjectId(v / MsPerSecond), IsoString(v)))
        else None
  {
    CleanDigits(s);
    var v := DecimalValue(s);
    assert Read(s) == Some(Reading(v / MsPerSecond, v));
    assert InParseWindow(v) <==> v < WindowEnd;
  }

  /** Every timestamp from 1000000000 up to the end of 2100 is written with ten digits and read back as itself. */
  lemma RenderedSecondsParse(seconds: nat)
    requires 1000000000 <= seconds && seconds * MsPerSecond < WindowEnd
    ensures Parse(DecimalString(seconds))
      == Some(TimestampInfo(seconds, seconds * MsPerSecond, GeneratedObjectId(seconds), IsoString(seconds * MsPerSecond)))
  {
    assert Pow(10, 9) == 1000000000 && Pow(10, 10) == 10000000000;
    DecimalStringLength(seconds, 10);
    ParseSeconds(DecimalString(seconds));
  }

  /**
   * A timestamp below 1000000000 (before 2001-09-09) is written with fewer than ten
   * digits, so neither `parse` nor `isValidTimestamp` accepts its rendering.
   */
  lemma ShortSecondsRejected(seconds: nat)
    requires seconds < 1000000000
    ensures Parse(DecimalString(seconds)).None? && !IsValidTimestamp(DecimalString(seconds))
  {
    assert Pow(10, 9) == 1000000000;
    ToNumeralLength(seconds, 10, 9);
    OtherDigitRunsRejected(DecimalString(seconds));
  }

  /** A digit run of any other length below fourteen is neither seconds nor milliseconds, and is rejected. */
  lemma OtherDigitRunsRejected(s: string)
    requires AllDigits(s) && |s| != 10 && |s| < 13 && |s| > 0
    ensures Parse(s).None? && !IsValidTimestamp(s)
  {
    CleanDigits(s);
    assert !IsISO8601Format(s) by {
      if |s| >= 10 {
        assert IsDigit(s[4]);
      }
    }
    assert Read(s).None?;
    if IsValidTimestamp(s) {
      ValidTimestampParses(s);
    }
  }

  /** A longer digit run is read as its first thirteen digits: truncated, not rounded. */
  lemma ParseLongRun(s: string)
    requires |s| >= 14 && AllDigits(s)
    ensures Parse(s) == Parse(s[..13])
  {
    var prefix := s[..13];
    assert AllDigits(prefix);
    CleanDigits(s);
    CleanDigits(prefix);
    var ms := DecimalValue(prefix);
    assert Read(s) == Some(Reading(ms / MsPerSecond, ms));
    assert Read(prefix) == Some(Reading(ms / MsPerSecond, ms));
  }

  /** Seconds and the same seconds written as milliseconds give the same result and the same validity. */
  lemma SecondsAgreeWithMillis(s: string)
    requires |s| == 10 && AllDigits(s)
    ensures Parse(s + "000") == Parse(s)
    ensures IsValidTimestamp(s + "000") == IsValidTimestamp(s)
  {
    ThreeZerosMore(s);
    var v := DecimalValue(s);
    assert v * 1000 / 1000 == v;
    ParseSeconds(s);
    ParseMillis(s + "000");
    CleanDigits(s);
    CleanDigits(s + "000");
  }

  /** Writing three zeros after a numeral multiplies its value by 1000. */
  lemma ThreeZerosMore(s: string)
    requires AllDigits(s)
    ensures AllDigits(s + "000") && DecimalValue(s + "000") == DecimalValue(s) * 1000
  {
    var zeros := "000";
    assert zeros == Repeat('0', 3);
    AllZeros(3, 10);
    DecimalDigits(s);
    DecimalDigits(zeros);
    NumeralConcat(s, zeros, 10);
    assert Pow(10, 3) == 1000;
  }

  /** Surrounding quotes, of either kind and not necessarily matching, do not change the result. */
  lemma QuotesIgnored(open: char, t: string, close: char)
    requires IsQuote(open) && IsQuote(close)
    requires |t| > 0 && !IsQuote(t[0]) && !IsQuote(t[|t| - 1])
    ensures Parse([open] + t + [close]) == Parse(t)
    ensures IsValidTimestamp([open] + t + [close]) == IsValidTimestamp(t)
  {
    var quoted := [open] + t + [close];
    StripQuotesOfQuoted(open, t, close);
    assert CleanInput(quoted) == CleanInput(t);
    assert Parse(quoted) == Parse(t);
  }

  /** The UTC fields of an instant, as the fields of an ISO date-time with milliseconds and `Z`. */
  function InstantFields(t: DateTime): (f: IsoFields)
    requires IsValidDateTime(t) && 0 <= t.date.year
    ensures IsValidFields(f) && WallClock(f) == t && FieldsZone(f) == Utc
  {
    IsoFields(t.date.year, t.date.month, t.date.day, Some(Clock(t.hour, t.minute, t.second, Some(t.millisecond), Utc)))
  }

  /** `toISOString` of an instant in years 0..9999 writes exactly the fields of that instant. */
  lemma IsoStringFields(ms: int)
    requires 0 <= YearOf(ms) <= 9999
    ensures IsoString(ms) == EncodeIso(InstantFields(FromEpochMs(ms)))
    ensures FieldsFit(InstantFields(FromEpochMs(ms)))
  {
    var t := FromEpochMs(ms);
    IsoWallClockFixed(t);
    var y, mo, d := FixedDecimal(t.date.year, 4), FixedDecimal(t.date.month, 2), FixedDecimal(t.date.day, 2);
    var h, mi, se := FixedDecimal(t.hour, 2), FixedDecimal(t.minute, 2), FixedDecimal(t.second, 2);
    var f := FixedDecimal(t.millisecond, 3);
    IsoJoin(y, mo, d, h, mi, se, f);
  }

  lemma IsoJoin(y: string, mo: string, d: string, h: string, mi: string, se: string, f: string)
    ensures y + "-" + mo + "-" + d + "T" + h + ":" + mi + ":" + se + "." + f + "Z"
      == y + "-" + mo + "-" + d + ("T" + h + ":" + mi + ":" + se + ("." + f) + "Z")
  {
  }

  /** A zone ends with `Z` or with a digit. */
  lemma ZoneEnd(s: string, k: nat)
    requires k <= |s| && IsZoneAt(s, k)
    ensures s[|s| - 1] == 'Z' || IsDigit(s[|s| - 1])
  {
    if s[k] != 'Z' {
      assert s[|s| - 1] == s[k + 4..k + 6][1];
    }
  }

  /** A string in the grammar ends with `Z` or with a digit, never with a quote. */
  lemma IsoEnd(s: string)
    requires IsISO8601Format(s)
    ensures s[|s| - 1] == 'Z' || IsDigit(s[|s| - 1])
  {
    if |s| == 10 {
      assert s[9] == s[8..10][1];
    } else if |s| == 19 {
      assert s[18] == s[17..19][1];
    } else if IsZoneAt(s, 19) {
      ZoneEnd(s, 19);
    } else if |s| == 23 {
      assert s[22] == s[20..23][2];
    } else {
      ZoneEnd(s, 23);
    }
  }

  /** Cleaning leaves a string in the grammar alone: no quote ends it and its dashes rule out digit groups. */
  lemma CleanIsoText(s: string)
    requires IsISO8601Format(s)
    ensures CleanInput(s) == s && !AllDigits(s)
  {
    assert IsDigit(s[0]) by { assert s[0] == s[..4][0]; }
    assert s[4] == '-';
    IsoEnd(s);
  }

  /** The ISO string of an instant `parse` keeps is read as that instant. */
  lemma ReadIsoString(ms: int)
    requires 0 <= ms < WindowEnd
    ensures CleanInput(IsoString(ms)) == IsoString(ms)
    ensures Read(IsoString(ms)) == Some(Reading(ms / MsPerSecond, ms))
  {
    YearFrom1970(ms);
    YearTo2100(ms);
    var t := FromEpochMs(ms);
    var f := InstantFields(t);
    IsoStringFields(ms);
    DecodeEncode(f);
    var iso := IsoString(ms);
    CleanIsoText(iso);
    assert DecodeIso(iso) == f;
    InstantOfFields(t);
  }

  /** The fields of an instant denote that instant. */
  lemma InstantOfFields(t: DateTime)
    requires IsValidDateTime(t) && 0 <= t.date.year
    ensures IsoInstant(InstantFields(t)) == Some(EpochMs(t))
  {
  }

  /** The ISO string of any instant `parse` keeps parses back to that instant. */
  lemma IsoRoundTrip(ms: int)
    requires 0 <= ms < WindowEnd
    ensures Parse(IsoString(ms))
      == Some(TimestampInfo(ms / MsPerSecond, ms, GeneratedObjectId(ms / MsPerSecond), IsoString(ms)))
  {
    ReadIsoString(ms);
    YearFrom1970(ms);
    YearTo2100(ms);
  }

  /** The writing of valid fields parses to the instant they denote, when that instant is in the window. */
  lemma ParseIso(f: IsoFields)
    requires FieldsFit(f) && IsValidFields(f)
    ensures var ms := IsoInstant(f).value;
      Parse(EncodeIso(f)) == if 0 <= ms < WindowEnd
        then Some(TimestampInfo(ms / MsPerSecond, ms, GeneratedObjectId(ms / MsPerSecond), IsoString(ms)))
        else None
  {
    var s := EncodeIso(f);
    DecodeEncode(f);
    CleanIsoText(s);
    var ms := IsoInstant(f).value;
    assert Read(s) == Some(Reading(ms / MsPerSecond, ms));
    assert InParseWindow(ms) <==> 0 <= ms < WindowEnd;
  }

  /** The formatted date of a result parses to that same result. */
  lemma FormattedDateReparses(input: string)
    requires Parse(input).Some?
    ensures Parse(Parse(input).value.formattedDate) == Parse(input)
  {
    var info := Parse(input).value;
    IsoRoundTrip(info.date);
  }

  // ---------------------------------------------------------------------
  // isValidTimestamp (src/timestampParser.ts:15-33)

  /** `date.getFullYear() > 1970 && date.getFullYear() < 2100`: the years 1971..2099. */
  function InValidityWindow(ms: int): (b: bool)
    ensures b <==> 31536000000 <= ms < 4102444800000
  {
    YearAfter1970(ms);
    YearBefore2100(ms);
    YearOf(ms) > 1970 && YearOf(ms) < 2100
  }

  /** `isValidTimestamp`. */
  function IsValidTimestamp(str: string): (b: bool)
    ensures b ==> !AllDigits(CleanInput(str)) || |CleanInput(str)| == 10 || |CleanInput(str)| == 13
  {
    var cleaned := CleanInput(str);
    if AllDigits(cleaned) && (|cleaned| == 10 || |cleaned| == 13) then
      var num := DecimalValue(cleaned);
      InValidityWindow(if |cleaned| == 10 then num * MsPerSecond else num)
    else if IsISO8601Format(cleaned) then
      var instant := IsoInstant(DecodeIso(cleaned));
      instant.Some? && InValidityWindow(instant.value)
    else false
  }

  /**
   * A token is valid exactly when `parse` reads it as something other than a long
   * digit run and its instant falls in the years 1971..2099.
   */
  lemma ValidTimestampReading(str: string)
    ensures var cleaned := CleanInput(str); var rd := Read(cleaned);
      IsValidTimestamp(str) <==>
        rd.Some? && !(AllDigits(cleaned) && |cleaned| >= 14) && InValidityWindow(rd.value.ms)
  {
    var cleaned := CleanInput(str);
    if IsISO8601Format(cleaned) {
      CleanIsoText(cleaned);
    }
  }

  /** The writing of valid fields is a valid timestamp exactly when their instant is in the years 1971..2099. */
  lemma ValidIso(f: IsoFields)
    requires FieldsFit(f) && IsValidFields(f)
    ensures IsValidTimestamp(EncodeIso(f)) <==> InValidityWindow(IsoInstant(f).value)
  {
    var s := EncodeIso(f);
    DecodeEncode(f);
    CleanIsoText(s);
    ValidTimestampReading(s);
  }

  /**
   * Any real ISO date or date-time written in the years 1972..2098 is valid and parses,
   * whatever its offset: an offset moves the instant by less than a day.
   */
  lemma IsoYearsValid(f: IsoFields)
    requires FieldsFit(f) && IsValidFields(f) && 1972 <= f.year <= 2098
    ensures IsValidTimestamp(EncodeIso(f)) && Parse(EncodeIso(f)).Some?
  {
    YearWindow(WallClock(f), 1972, 2099);
    NewYear1972();
    NewYear2099();
    var ms := IsoInstant(f).value;
    assert -1440 < ZoneMinutes(FieldsZone(f)) < 1440;
    assert InValidityWindow(ms);
    ValidIso(f);
    ValidTimestampParses(EncodeIso(f));
  }

  /** A digit run of fourteen or more digits is never valid, though `parse` may accept it. */
  lemma LongRunNeverValid(s: string)
    requires AllDigits(s) && |s| >= 14
    ensures !IsValidTimestamp(s)
  {
    CleanDigits(s);
    ValidTimestampReading(s);
  }

  /** Every valid token parses, and to an instant in the years 1971..2099. */
  lemma ValidTimestampParses(str: string)
    requires IsValidTimestamp(str)
    ensures Parse(str).Some? && 31536000000 <= Parse(str).value.date < 4102444800000
  {
    ValidTimestampReading(str);
  }

  // ---------------------------------------------------------------------
  // generateHoverContent (src/timestampParser.ts:127-136)

  const InvalidTimestamp := "Invalid timestamp or date format"
  const TimestampLabel := "\U{1F550} **Timestamp**: "
  const GeneratedLabel := "\U{1F4E6} **Generated ObjectId**: "

  /** The hover text: the sentinel exactly when `parse` fails, otherwise the timestamp line and the id line. */
  function GenerateHoverContent(input: string): (r: string)
    ensures r == InvalidTimestamp <==> Parse(input).None?
    ensures Parse(input).Some? ==>
      var info := Parse(input).value;
      r == TimestampLabel + DecimalString(info.timestamp) + " (" + info.formattedDate + ")\n\n"
        + GeneratedLabel + "`" + info.generatedObjectId + "`"
  {
    match Parse(input)
    case None => InvalidTimestamp
    case Some(info) =>
      var r := TimestampLabel + DecimalString(info.timestamp) + " (" + info.formattedDate + ")\n\n"
        + GeneratedLabel + "`" + info.generatedObjectId + "`";
      LabelFirst(TimestampLabel, r[|TimestampLabel|..]);
      r
  }

  lemma LabelFirst(prefix: string, rest: string)
    requires prefix == TimestampLabel
    ensures prefix + rest != InvalidTimestamp
  {
    assert (prefix + rest)[0] == '\U{1F550}' != InvalidTimestamp[0];
  }
}
