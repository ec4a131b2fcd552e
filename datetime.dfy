/**
 * The date helpers (`DateTimeManager`): normalising a database timestamp to
 * UTC before it is parsed, the sentinels every helper returns for a missing or
 * unparsable date, the "il y a ..." relative wording, the week test, the day
 * difference, and the value written into a `datetime-local` input.
 *
 * Dates are integer milliseconds since the epoch. Parsing a date string
 * (`new Date(s)`), the Brussels wall-clock breakdown and the locale
 * formatting are host functions and come in as parameters.
 */
module DateTime {
  import opened Wrappers
  import opened Text

  const SECOND: int := 1000
  const MINUTE: int := 60 * SECOND
  const HOUR: int := 60 * MINUTE
  const DAY: int := 24 * HOUR

  // ---------------------------------------------------------------------------
  // fromUTC
  // ---------------------------------------------------------------------------

  /** `s.replace(c, d)` with a one-character pattern: only the first `c` becomes `d`. */
  function ReplaceFirst(s: string, c: char, d: char): (r: string)
    ensures |r| == |s|
  {
    if s == [] then []
    else if s[0] == c then [d] + s[1..]
    else [s[0]] + ReplaceFirst(s[1..], c, d)
  }

  /** The replacement changes the character at the first occurrence of `c`, and only that one. */
  lemma {:induction false} ReplaceFirstAt(s: string, c: char, d: char)
    ensures forall i :: 0 <= i < |s| ==> ReplaceFirst(s, c, d)[i] == if s[i] == c && c !in s[..i] then d else s[i]
  {
    if s != [] {
      var r := ReplaceFirst(s, c, d);
      if s[0] == c {
        forall i | 1 <= i < |s| ensures c in s[..i] { assert s[..i][0] == c; }
      } else {
        ReplaceFirstAt(s[1..], c, d);
        forall i | 1 <= i < |s|
          ensures r[i] == if s[i] == c && c !in s[..i] then d else s[i]
        {
          assert r[i] == ReplaceFirst(s[1..], c, d)[i - 1];
          assert s[1..][i - 1] == s[i];
          assert s[..i] == [s[0]] + s[1..][..i - 1];
        }
      }
    }
  }

  /**
   * The string `fromUTC` hands to the date parser: nothing for a missing or
   * empty value; a value with neither `Z` nor `+` in it is taken as UTC (its
   * first space becomes `T` and `Z` is appended); anything else as it is.
   */
  function NormalizeUtc(raw: Option<string>): (r: Option<string>)
    ensures r.None? <==> raw.None? || raw.value == ""
    ensures r.Some? ==> 'Z' in r.value || '+' in r.value
    ensures r.Some? && ('Z' in raw.value || '+' in raw.value) ==> r == raw
    ensures r.Some? && 'Z' !in raw.value && '+' !in raw.value ==> r.value == ReplaceFirst(raw.value, ' ', 'T') + "Z"
  {
    if raw.None? || raw.value == "" then None
    else if 'Z' !in raw.value && '+' !in raw.value then
      var r := ReplaceFirst(raw.value, ' ', 'T') + "Z";
      assert r[|r| - 1] == 'Z';
      Some(r)
    else raw
  }

  /**
   * A database timestamp such as `2024-01-01 10:00:00`, without a zone marker,
   * becomes the ISO form read as UTC: its first space turned into `T`, then `Z`.
   */
  lemma NormalizeAtFirstSpace(s: string, p: nat)
    requires p < |s| && s[p] == ' ' && ' ' !in s[..p]
    requires 'Z' !in s && '+' !in s
    ensures NormalizeUtc(Some(s)) == Some(s[..p] + "T" + s[p + 1..] + "Z")
  {
    var r := ReplaceFirst(s, ' ', 'T');
    ReplaceFirstAt(s, ' ', 'T');
    assert r == s[..p] + "T" + s[p + 1..] by {
      forall i | 0 <= i < |s| ensures r[i] == (s[..p] + "T" + s[p + 1..])[i] {
        if i < p {
          assert s[i] in s[..p];
        } else if i > p {
          assert s[..i][p] == ' ';
        }
      }
    }
  }

  /** Normalising twice is normalising once: the result already carries a UTC marker. */
  lemma NormalizeUtcIdempotent(raw: Option<string>)
    ensures NormalizeUtc(NormalizeUtc(raw)) == NormalizeUtc(raw)
  {
  }

  /** The instant a stored value denotes: `new Date(...)` of the normalised string, `None` when missing or invalid. */
  function Instant(raw: Option<string>, parse: string -> Option<int>): Option<int> {
    match NormalizeUtc(raw)
    case None => None
    case Some(s) => parse(s)
  }

  /** The shape of every helper: the sentinel for a missing or invalid date, otherwise a value computed from the instant. */
  function WithDate<R>(raw: Option<string>, parse: string -> Option<int>, sentinel: R, present: int -> R): (r: R)
    ensures Instant(raw, parse).None? ==> r == sentinel
    ensures Instant(raw, parse).Some? ==> r == present(Instant(raw, parse).value)
  {
    match Instant(raw, parse)
    case None => sentinel
    case Some(ms) => present(ms)
  }

  // ---------------------------------------------------------------------------
  // Formatting with the host locale
  // ---------------------------------------------------------------------------

  /** `format`, `formatDate`, `formatDateLong`, `formatTime`: the locale rendering of the instant, or `N/A`. */
  function Format(raw: Option<string>, parse: string -> Option<int>, render: int -> string): (r: string)
    ensures Instant(raw, parse).None? ==> r == "N/A"
    ensures Instant(raw, parse).Some? ==> r == render(Instant(raw, parse).value)
  {
    WithDate(raw, parse, "N/A", render)
  }

  // ---------------------------------------------------------------------------
  // formatRelative
  // ---------------------------------------------------------------------------

  datatype Unit = Minute | Hour | Day | Week | Month | Year

  /** How long ago something happened, as `formatRelative` words it. */
  datatype Ago = JustNow | Ago(unit: Unit, count: int)

  /** The bucket for a difference of `diffMs` (now minus the date): each step a floored division, as in the source. */
  function AgoFor(diffMs: int): Ago {
    var seconds := diffMs / 1000;
    var minutes := seconds / 60;
    var hours := minutes / 60;
    var days := hours / 24;
    if seconds < 60 then JustNow
    else if minutes < 60 then Ago(Minute, minutes)
    else if hours < 24 then Ago(Hour, hours)
    else if days < 7 then Ago(Day, days)
    else if days < 30 then Ago(Week, days / 7)
    else if days < 365 then Ago(Month, days / 30)
    else Ago(Year, days / 365)
  }

  /**
   * The buckets in terms of the millisecond difference alone: "just now"
   * below one minute (future dates included); minutes, hours and days below
   * the next unit; weeks below 30 days, months below 365 days, then years;
   * each count the whole number of its unit, at least 1.
   */
  lemma AgoBuckets(diffMs: int)
    ensures AgoFor(diffMs) == JustNow <==> diffMs < MINUTE
    ensures AgoFor(diffMs).Ago? && AgoFor(diffMs).unit == Minute <==> MINUTE <= diffMs < HOUR
    ensures AgoFor(diffMs).Ago? && AgoFor(diffMs).unit == Hour <==> HOUR <= diffMs < DAY
    ensures AgoFor(diffMs).Ago? && AgoFor(diffMs).unit == Day <==> DAY <= diffMs < 7 * DAY
    ensures AgoFor(diffMs).Ago? && AgoFor(diffMs).unit == Week <==> 7 * DAY <= diffMs < 30 * DAY
    ensures AgoFor(diffMs).Ago? && AgoFor(diffMs).unit == Month <==> 30 * DAY <= diffMs < 365 * DAY
    ensures AgoFor(diffMs).Ago? && AgoFor(diffMs).unit == Year <==> 365 * DAY <= diffMs
    ensures AgoFor(diffMs).Ago? ==> AgoFor(diffMs).count == diffMs / UnitMs(AgoFor(diffMs).unit) >= 1
  {
    var days := diffMs / 1000 / 60 / 60 / 24;
    assert diffMs / 1000 / 60 == diffMs / MINUTE;
    assert diffMs / 1000 / 60 / 60 == diffMs / HOUR;
    assert days == diffMs / DAY;
    assert days / 7 == diffMs / (7 * DAY);
    assert days / 30 == diffMs / (30 * DAY);
    assert days / 365 == diffMs / (365 * DAY);
  }

  /** The length of a unit in milliseconds (a month is 30 days and a year 365, as the source counts them). */
  function UnitMs(u: Unit): int {
    match u
    case Minute => MINUTE
    case Hour => HOUR
    case Day => DAY
    case Week => 7 * DAY
    case Month => 30 * DAY
    case Year => 365 * DAY
  }

  function UnitWord(u: Unit): string {
    match u
    case Minute => "minute"
    case Hour => "heure"
    case Day => "jour"
    case Week => "semaine"
    case Month => "mois"
    case Year => "an"
  }

  /** The French wording; every unit but `mois` takes an `s` when the count is above one. */
  function RenderAgo(a: Ago): string {
    match a
    case JustNow => "À l'instant"
    case Ago(unit, count) =>
      "Il y a " + IntToString(count) + " " + UnitWord(unit) + (if unit != Month && count > 1 then "s" else "")
  }

  /** The plural rule: for every unit but months the text ends in `s` exactly when the count is above one; `mois` is the same word for every count. */
  lemma PluralRule(unit: Unit, count: int)
    ensures var text := RenderAgo(Ago(unit, count));
      unit != Month ==> (text[|text| - 1] == 's' <==> count > 1)
    ensures RenderAgo(Ago(Month, count))[|RenderAgo(Ago(Month, count))| - 4..] == "mois"
  {
    var text := RenderAgo(Ago(unit, count));
    if unit != Month && count <= 1 {
      var w := UnitWord(unit);
      assert text[|text| - 1] == w[|w| - 1];
    }
  }

  /** `formatRelative`: `Jamais` for a missing or invalid date, otherwise the wording of the time elapsed until `now`. */
  function FormatRelative(raw: Option<string>, parse: string -> Option<int>, now: int): (r: string)
    ensures Instant(raw, parse).None? ==> r == "Jamais"
    ensures Instant(raw, parse).Some? ==> r == RenderAgo(AgoFor(now - Instant(raw, parse).value))
  {
    WithDate(raw, parse, "Jamais", (ms: int) => RenderAgo(AgoFor(now - ms)))
  }

  // ---------------------------------------------------------------------------
  // isThisWeek, daysFromNow
  // ---------------------------------------------------------------------------

  /** `isThisWeek`: the whole number of days elapsed is between 0 and 6; false for a missing or invalid date. */
  function IsThisWeek(raw: Option<string>, parse: string -> Option<int>, now: int): (r: bool)
    ensures r <==> Instant(raw, parse).Some? && 0 <= now - Instant(raw, parse).value < 7 * DAY
  {
    WithDate(raw, parse, false, (ms: int) => var days := (now - ms) / DAY; days >= 0 && days < 7)
  }

  /** `daysFromNow`: the floored number of days from `now` to the date, negative in the past; `None` for a missing or invalid date. */
  function DaysFromNow(raw: Option<string>, parse: string -> Option<int>, now: int): (r: Option<int>)
    ensures r.None? <==> Instant(raw, parse).None?
    ensures r.Some? ==> var diff := Instant(raw, parse).value - now;
      r.value * DAY <= diff < (r.value + 1) * DAY && (r.value < 0 <==> diff < 0)
  {
    match Instant(raw, parse)
    case None => None
    case Some(ms) => Some((ms - now) / DAY)
  }

  // ---------------------------------------------------------------------------
  // toInputValue, fromInputValue
  // ---------------------------------------------------------------------------

  /** The Brussels wall-clock reading of an instant, with the month counted from 0 as the host does. */
  datatype LocalFields = LocalFields(year: int, monthIndex: int, day: int, hours: int, minutes: int)

  predicate PlausibleFields(f: LocalFields) {
    && 1000 <= f.year <= 9999 && 0 <= f.monthIndex <= 11 && 1 <= f.day <= 31
    && 0 <= f.hours <= 23 && 0 <= f.minutes <= 59
  }

  /** `String(n).padStart(2, '0')`. */
  function Pad2(n: int): string {
    PadStart(IntToString(n), 2, '0')
  }

  /** `YYYY-MM-DDTHH:MM` from the wall-clock fields. */
  function InputValue(f: LocalFields): string {
    IntToString(f.year) + "-" + Pad2(f.monthIndex + 1) + "-" + Pad2(f.day) + "T" + Pad2(f.hours) + ":" + Pad2(f.minutes)
  }

  /** `toInputValue`: the empty string for a missing or invalid date. */
  function ToInputValue(raw: Option<string>, parse: string -> Option<int>, local: int -> LocalFields): (r: string)
    ensures Instant(raw, parse).None? ==> r == ""
    ensures Instant(raw, parse).Some? ==> r == InputValue(local(Instant(raw, parse).value))
  {
    WithDate(raw, parse, "", (ms: int) => InputValue(local(ms)))
  }

  /** A padded two-digit field reads back as its value. */
  lemma Pad2ReadsBack(n: int)
    requires 0 <= n <= 99
    ensures |Pad2(n)| == 2 && ParseInt10(Pad2(n)) == Some(n)
  {
    NatToStringWidth(n, 2);
    PaddedReadsBack(n, 2);
  }

  /** A four-digit year prints as four characters. */
  lemma YearWidth(y: int)
    requires 1000 <= y <= 9999
    ensures |IntToString(y)| == 4 && ParseInt10(IntToString(y)) == Some(y)
  {
    assert NatToString(y / 1000) == [DigitChar(y / 1000)];
    assert |NatToString(y / 100)| == 2;
    assert |NatToString(y / 10)| == 3;
    ParseIntOfIntToString(y);
  }

  /**
   * The input value has the fixed `YYYY-MM-DDTHH:MM` layout, and each field
   * reads back as the wall-clock value (the month as index + 1).
   */
  lemma InputValueLayout(f: LocalFields)
    requires PlausibleFields(f)
    ensures var s := InputValue(f);
      && |s| == 16 && s[4] == '-' && s[7] == '-' && s[10] == 'T' && s[13] == ':'
      && ParseInt10(s[..4]) == Some(f.year)
      && ParseInt10(s[5..7]) == Some(f.monthIndex + 1)
      && ParseInt10(s[8..10]) == Some(f.day)
      && ParseInt10(s[11..13]) == Some(f.hours)
      && ParseInt10(s[14..]) == Some(f.minutes)
  {
    var y, mo, d, h, mi := IntToString(f.year), Pad2(f.monthIndex + 1), Pad2(f.day), Pad2(f.hours), Pad2(f.minutes);
    assert InputValue(f) == y + "-" + mo + "-" + d + "T" + h + ":" + mi;
    YearWidth(f.year);
    Pad2ReadsBack(f.monthIndex + 1);
    Pad2ReadsBack(f.day);
    Pad2ReadsBack(f.hours);
    Pad2ReadsBack(f.minutes);
    FixedLayout(y, mo, d, h, mi);
  }

  /** Where the pieces of `YYYY-MM-DDTHH:MM` sit once each has its width. */
  lemma FixedLayout(y: string, mo: string, d: string, h: string, mi: string)
    requires |y| == 4 && |mo| == 2 && |d| == 2 && |h| == 2 && |mi| == 2
    ensures var s := y + "-" + mo + "-" + d + "T" + h + ":" + mi;
      && |s| == 16 && s[4] == '-' && s[7] == '-' && s[10] == 'T' && s[13] == ':'
      && s[..4] == y && s[5..7] == mo && s[8..10] == d && s[11..13] == h && s[14..] == mi
  {
    var s := y + "-" + mo + "-" + d + "T" + h + ":" + mi;
    var p1 := y + "-";
    var p2 := p1 + mo + "-";
    var p3 := p2 + d + "T";
    var p4 := p3 + h + ":";
    assert s == p4 + mi;
    assert s[..4] == y by { assert s[..4] == p1[..4]; }
    assert s[5..7] == mo by { assert s[5..7] == p2[5..7]; }
    assert s[8..10] == d by { assert s[8..10] == p3[8..10]; }
    assert s[11..13] == h by { assert s[11..13] == p4[11..13]; }
  }

  /** What `fromInputValue` gives: nothing for an empty input, the ISO string of the instant, or the range error `toISOString` throws for an invalid date. */
  datatype Conversion = NoValue | Utc(iso: string) | InvalidDate

  /** `fromInputValue`: the input read as a wall-clock time by `parseLocal`, then written as ISO UTC by `iso`. */
  function FromInputValue(input: Option<string>, parseLocal: string -> Option<int>, iso: int -> string): (r: Conversion)
    ensures r == NoValue <==> input.None? || input.value == ""
    ensures r.Utc? ==> parseLocal(input.value).Some? && r.iso == iso(parseLocal(input.value).value)
    ensures input.Some? && input.value != "" && parseLocal(input.value).Some? ==> r.Utc?
    ensures r == InvalidDate <==> input.Some? && input.value != "" && parseLocal(input.value).None?
  {
    if input.None? || input.value == "" then NoValue
    else match parseLocal(input.value)
      case None => InvalidDate
      case Some(ms) => Utc(iso(ms))
  }
}
