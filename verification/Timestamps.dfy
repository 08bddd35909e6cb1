/** Time columns: text in the layout of section 5.6 of RFC 3339, compared as text
    (internal/store/helpers.go and the SQL comparisons). */
module Timestamps {
  import opened Common
  import Itoa

  /** A clock reading, broken down in its zone; `offset` is minutes east of UTC. */
  datatype Civil = Civil(
    year: int, month: int, day: int, hour: int, minute: int, second: int, nanos: int, offset: int)

  predicate IsLeap(y: int) {
    y % 4 == 0 && (y % 100 != 0 || y % 400 == 0)
  }

  function DaysInMonth(y: int, m: int): int {
    if m == 2 then (if IsLeap(y) then 29 else 28)
    else if m in {4, 6, 9, 11} then 30
    else 31
  }

  /** A reading with a four-digit year. */
  predicate IsValid(t: Civil) {
    && 0 <= t.year <= 9999 && 1 <= t.month <= 12 && 1 <= t.day <= DaysInMonth(t.year, t.month)
    && 0 <= t.hour < 24 && 0 <= t.minute < 60 && 0 <= t.second < 60 && 0 <= t.nanos < 1_000_000_000
    && -1440 < t.offset < 1440
  }

  /** The zero time.Time. */
  const ZERO := Civil(1, 1, 1, 0, 0, 0, 0, 0)

  /** What the service formats and reads back. */
  type Reading = t: Civil | IsValid(t) witness ZERO

  function Truncated(t: Civil): Civil {
    t.(nanos := 0)
  }

  // ---- The instant a reading denotes ----------------------------------------------

  function DaysBeforeYear(y: int): int
    requires y >= 0
  {
    if y == 0 then 0 else DaysBeforeYear(y - 1) + if IsLeap(y - 1) then 366 else 365
  }

  function DaysBeforeMonth(y: int, m: int): int
    requires 1 <= m <= 13
    decreases m
  {
    if m == 1 then 0 else DaysBeforeMonth(y, m - 1) + DaysInMonth(y, m - 1)
  }

  function DayNumber(t: Civil): int
    requires IsValid(t)
  {
    DaysBeforeYear(t.year) + DaysBeforeMonth(t.year, t.month) + t.day - 1
  }

  /** Seconds since the start of year 0, as the local clock shows them. */
  function LocalSeconds(t: Civil): int
    requires IsValid(t)
  {
    86_400 * DayNumber(t) + 3600 * t.hour + 60 * t.minute + t.second
  }

  /** Whole seconds and nanoseconds on the common time line. */
  function Seconds(t: Civil): int
    requires IsValid(t)
  {
    LocalSeconds(t) - 60 * t.offset
  }

  function Nanos(t: Civil): int
    requires IsValid(t)
  {
    1_000_000_000 * Seconds(t) + t.nanos
  }

  /** Earlier in the calendar: field by field. */
  predicate FieldsBefore(a: Civil, b: Civil) {
    a.year < b.year || (a.year == b.year && (
    a.month < b.month || (a.month == b.month && (
    a.day < b.day || (a.day == b.day && (
    a.hour < b.hour || (a.hour == b.hour && (
    a.minute < b.minute || (a.minute == b.minute &&
    a.second < b.second)))))))))
  }

  predicate SameFields(a: Civil, b: Civil) {
    a.year == b.year && a.month == b.month && a.day == b.day && a.hour == b.hour && a.minute == b.minute
      && a.second == b.second
  }

  lemma {:induction false} YearsAddUp(y: int, z: int)
    requires 0 <= y < z
    ensures DaysBeforeYear(y) + (if IsLeap(y) then 366 else 365) <= DaysBeforeYear(z)
  {
    if y + 1 < z {
      YearsAddUp(y, z - 1);
    }
  }

  lemma {:induction false} MonthsAddUp(y: int, m: int, n: int)
    requires 1 <= m < n <= 13
    ensures DaysBeforeMonth(y, m) + DaysInMonth(y, m) <= DaysBeforeMonth(y, n)
    decreases n
  {
    if m + 1 < n {
      MonthsAddUp(y, m, n - 1);
    }
  }

  lemma TwelveMonthsMakeAYear(y: int)
    ensures DaysBeforeMonth(y, 13) == if IsLeap(y) then 366 else 365
  {
    assert DaysBeforeMonth(y, 3) == 31 + DaysInMonth(y, 2);
    assert DaysBeforeMonth(y, 6) == DaysBeforeMonth(y, 3) + 92;
    assert DaysBeforeMonth(y, 9) == DaysBeforeMonth(y, 6) + 92;
    assert DaysBeforeMonth(y, 12) == DaysBeforeMonth(y, 9) + 91;
  }

  lemma EarlierDay(a: Civil, b: Civil)
    requires IsValid(a) && IsValid(b)
    requires a.year < b.year || (a.year == b.year && (a.month < b.month || (a.month == b.month && a.day < b.day)))
    ensures DayNumber(a) < DayNumber(b)
  {
    if a.year < b.year {
      YearsAddUp(a.year, b.year);
      TwelveMonthsMakeAYear(a.year);
      MonthsAddUp(a.year, a.month, 13);
      if b.month > 1 {
        MonthsAddUp(b.year, 1, b.month);
      }
    } else if a.month < b.month {
      MonthsAddUp(a.year, a.month, b.month);
    }
  }

  lemma FieldsFollowTime(a: Civil, b: Civil)
    requires IsValid(a) && IsValid(b) && FieldsBefore(a, b)
    ensures LocalSeconds(a) < LocalSeconds(b)
  {
    if a.year < b.year || (a.year == b.year && (a.month < b.month || (a.month == b.month && a.day < b.day))) {
      EarlierDay(a, b);
    }
  }

  /** The calendar fields are ordered as the local seconds are. */
  lemma FieldsBeforeIffEarlier(a: Civil, b: Civil)
    requires IsValid(a) && IsValid(b)
    ensures FieldsBefore(a, b) <==> LocalSeconds(a) < LocalSeconds(b)
    ensures SameFields(a, b) <==> LocalSeconds(a) == LocalSeconds(b)
  {
    if FieldsBefore(a, b) {
      FieldsFollowTime(a, b);
    } else if FieldsBefore(b, a) {
      FieldsFollowTime(b, a);
    }
  }

  // ---- The text -------------------------------------------------------------------

  /** SQLite's comparison of two texts: by character, a prefix first. */
  predicate Less(a: string, b: string) {
    b != "" && (a == "" || a[0] < b[0] || (a[0] == b[0] && Less(a[1..], b[1..])))
  }

  /** `width` decimal digits, the high ones first. */
  function Pad(n: int, width: nat): (s: string)
    requires n >= 0
    ensures |s| == width
  {
    if width == 0 then "" else Pad(n / 10, width - 1) + [Itoa.Digit(n % 10)]
  }

  function Zone(offset: int): string {
    if offset == 0 then "Z"
    else
      var m := if offset < 0 then -offset else offset;
      (if offset < 0 then "-" else "+") + Pad(m / 60, 2) + (":" + Pad(m % 60, 2))
  }

  // The layout 2006-01-02T15:04:05Z07:00, from its end to its start.

  function FromSecond(t: Civil): string
    requires IsValid(t)
  {
    Pad(t.second, 2) + Zone(t.offset)
  }

  function FromMinute(t: Civil): string
    requires IsValid(t)
  {
    Pad(t.minute, 2) + (":" + FromSecond(t))
  }

  function FromHour(t: Civil): string
    requires IsValid(t)
  {
    Pad(t.hour, 2) + (":" + FromMinute(t))
  }

  function FromDay(t: Civil): string
    requires IsValid(t)
  {
    Pad(t.day, 2) + ("T" + FromHour(t))
  }

  function FromMonth(t: Civil): string
    requires IsValid(t)
  {
    Pad(t.month, 2) + ("-" + FromDay(t))
  }

  function Format(t: Civil): string
    requires IsValid(t)
  {
    Pad(t.year, 4) + ("-" + FromMonth(t))
  }

  // ---- Text order is time order ---------------------------------------------------

  lemma {:induction false} LessIsIrreflexive(a: string)
    ensures !Less(a, a)
  {
    if a != "" {
      LessIsIrreflexive(a[1..]);
    }
  }

  lemma {:induction false} LessOfConcat(p: string, q: string, a: string, b: string)
    requires |p| == |q|
    ensures Less(p + a, q + b) <==> Less(p, q) || (p == q && Less(a, b))
  {
    if p == "" {
      assert p + a == a && q + b == b;
    } else {
      assert (p + a)[1..] == p[1..] + a && (q + b)[1..] == q[1..] + b;
      assert p == [p[0]] + p[1..] && q == [q[0]] + q[1..];
      LessOfConcat(p[1..], q[1..], a, b);
    }
  }

  function Pow10(k: nat): int {
    if k == 0 then 1 else 10 * Pow10(k - 1)
  }

  /** Padded numbers compare as numbers. */
  lemma {:induction false} PadKeepsOrder(x: int, y: int, width: nat)
    requires 0 <= x < Pow10(width) && 0 <= y < Pow10(width)
    ensures Less(Pad(x, width), Pad(y, width)) <==> x < y
    ensures Pad(x, width) == Pad(y, width) <==> x == y
  {
    if width > 0 {
      var p, q := Pad(x / 10, width - 1), Pad(y / 10, width - 1);
      var c, d := [Itoa.Digit(x % 10)], [Itoa.Digit(y % 10)];
      PadKeepsOrder(x / 10, y / 10, width - 1);
      LessOfConcat(p, q, c, d);
      assert Less(c, d) <==> x % 10 < y % 10;
      assert (p + c)[..width - 1] == p && (q + d)[..width - 1] == q && (p + c)[width - 1..] == c
        && (q + d)[width - 1..] == d;
      assert c == d <==> x % 10 == y % 10;
    }
  }

  /** One field, its separator, and the rest. */
  lemma FieldOrder(x: int, y: int, width: nat, sep: string, a: string, b: string)
    requires 0 <= x < Pow10(width) && 0 <= y < Pow10(width)
    ensures Less(Pad(x, width) + (sep + a), Pad(y, width) + (sep + b)) <==> x < y || (x == y && Less(a, b))
  {
    PadKeepsOrder(x, y, width);
    LessOfConcat(Pad(x, width), Pad(y, width), sep + a, sep + b);
    LessOfConcat(sep, sep, a, b);
    LessIsIrreflexive(sep);
  }

  /** Texts compare by calendar field, whatever the zones, and then by zone text. */
  lemma TextComparesFields(a: Civil, b: Civil)
    requires IsValid(a) && IsValid(b)
    ensures Less(Format(a), Format(b)) <==>
      FieldsBefore(a, b) || (SameFields(a, b) && Less(Zone(a.offset), Zone(b.offset)))
  {
    assert Pow10(1) == 10 && Pow10(2) == 100 && Pow10(4) == 10_000;
    FieldOrder(a.year, b.year, 4, "-", FromMonth(a), FromMonth(b));
    FieldOrder(a.month, b.month, 2, "-", FromDay(a), FromDay(b));
    FieldOrder(a.day, b.day, 2, "T", FromHour(a), FromHour(b));
    FieldOrder(a.hour, b.hour, 2, ":", FromMinute(a), FromMinute(b));
    FieldOrder(a.minute, b.minute, 2, ":", FromSecond(a), FromSecond(b));
    PadKeepsOrder(a.second, b.second, 2);
    LessOfConcat(Pad(a.second, 2), Pad(b.second, 2), Zone(a.offset), Zone(b.offset));
  }

  /** Texts at two UTC offsets compare as the local clocks do. */
  lemma TextFollowsLocalTime(a: Civil, b: Civil)
    requires IsValid(a) && IsValid(b)
    ensures LocalSeconds(a) < LocalSeconds(b) ==> Less(Format(a), Format(b))
    ensures LocalSeconds(a) > LocalSeconds(b) ==> !Less(Format(a), Format(b))
    ensures LocalSeconds(a) == LocalSeconds(b) && a.offset == b.offset ==> !Less(Format(a), Format(b))
    ensures Less(Format(a), Format(b)) ==> LocalSeconds(a) <= LocalSeconds(b)
  {
    TextComparesFields(a, b);
    LessIsIrreflexive(Zone(a.offset));
    FieldsBeforeIffEarlier(a, b);
  }

  /** At one UTC offset, text order is the order of the instants at whole seconds. */
  lemma TextOrderIsTimeOrder(a: Civil, b: Civil)
    requires IsValid(a) && IsValid(b) && a.offset == b.offset
    ensures Less(Format(a), Format(b)) <==> Seconds(a) < Seconds(b)
  {
    TextFollowsLocalTime(a, b);
  }

  /** The two readings are ordered as text exactly as they are in time. */
  predicate OrderedAlike(a: Reading, b: Reading) {
    Less(Format(a), Format(b)) <==> Seconds(a) < Seconds(b)
  }

  /** A deadline text sorts before a clock text that is not past the deadline. */
  predicate TooEarly(deadline: Reading, now: Reading) {
    Less(Format(deadline), Format(now)) && Nanos(now) <= Nanos(deadline)
  }

  /** A deadline text does not sort before a clock text a second or more past it. */
  predicate TooLate(deadline: Reading, now: Reading) {
    !Less(Format(deadline), Format(now)) && Nanos(now) >= Nanos(deadline) + 1_000_000_000
  }

  predicate IsOffset(offset: int) {
    -1440 < offset < 1440
  }

  /** Noon of one day on the local clock of `offset`, and `seconds` past it. */
  function Noon(offset: int, seconds: int): (t: Reading)
    requires IsOffset(offset) && 0 <= seconds < 60
  {
    Civil(2026, 8, 20, 12, 0, seconds, 0, offset)
  }

  lemma NoonsCompare(a: int, s: int, b: int, t: int)
    requires IsOffset(a) && IsOffset(b) && 0 <= s < 60 && 0 <= t < 60
    ensures Seconds(Noon(b, t)) - Seconds(Noon(a, s)) == 60 * (a - b) + t - s
    ensures s < t ==> Less(Format(Noon(a, s)), Format(Noon(b, t)))
    ensures s > t ==> !Less(Format(Noon(a, s)), Format(Noon(b, t)))
  {
    assert DayNumber(Noon(a, s)) == DayNumber(Noon(b, t));
    TextFollowsLocalTime(Noon(a, s), Noon(b, t));
  }

  /** A stored deadline never sorts before a clock that has not passed it, if and only if
      the clock is not east of it. */
  lemma NeverTooEarlyIff(deadlineOffset: int, clockOffset: int)
    requires IsOffset(deadlineOffset) && IsOffset(clockOffset)
    ensures deadlineOffset >= clockOffset <==>
            forall d: Reading, now: Reading :: d.offset == deadlineOffset && now.offset == clockOffset && d.nanos == 0
              ==> !TooEarly(d, now)
  {
    if deadlineOffset >= clockOffset {
      forall d: Reading, now: Reading | d.offset == deadlineOffset && now.offset == clockOffset && d.nanos == 0
        ensures !TooEarly(d, now)
      {
        TextFollowsLocalTime(d, now);
      }
    } else {
      NoonsCompare(deadlineOffset, 0, clockOffset, 1);
      assert TooEarly(Noon(deadlineOffset, 0), Noon(clockOffset, 1));
    }
  }

  /** A deadline passed by a second always sorts before the clock, if and only if the
      clock is not west of it. */
  lemma NeverTooLateIff(deadlineOffset: int, clockOffset: int)
    requires IsOffset(deadlineOffset) && IsOffset(clockOffset)
    ensures deadlineOffset <= clockOffset <==>
            forall d: Reading, now: Reading :: d.offset == deadlineOffset && now.offset == clockOffset && d.nanos == 0
              ==> !TooLate(d, now)
  {
    if deadlineOffset <= clockOffset {
      forall d: Reading, now: Reading | d.offset == deadlineOffset && now.offset == clockOffset && d.nanos == 0
        ensures !TooLate(d, now)
      {
        TextFollowsLocalTime(d, now);
      }
    } else {
      NoonsCompare(deadlineOffset, 1, clockOffset, 0);
      assert TooLate(Noon(deadlineOffset, 1), Noon(clockOffset, 0));
    }
  }

  /** Text order is time order for all readings of two offsets if and only if the two
      offsets are the same. */
  lemma TextOrderIsTimeOrderIff(a: int, b: int)
    requires IsOffset(a) && IsOffset(b)
    ensures a == b <==> forall x: Reading, y: Reading :: x.offset == a && y.offset == b ==> OrderedAlike(x, y)
  {
    if a == b {
      forall x: Reading, y: Reading | x.offset == a && y.offset == b ensures OrderedAlike(x, y) {
        TextOrderIsTimeOrder(x, y);
      }
    } else {
      var s, t := if a > b then 1 else 0, if a > b then 0 else 1;
      NoonsCompare(a, s, b, t);
      assert !OrderedAlike(Noon(a, s), Noon(b, t));
    }
  }

  /** So any two different offsets break the order: here nine in the morning at +09:00,
      which is an hour before one at UTC. */
  lemma ZonesBreakTheOrder()
    ensures var a: Reading := Civil(2026, 8, 20, 9, 0, 0, 0, 540); var b: Reading := Civil(2026, 8, 20, 1, 0, 0, 0, 0);
      Seconds(a) < Seconds(b) && Less(Format(b), Format(a)) && !Less(Format(a), Format(b))
  {
    var a := Civil(2026, 8, 20, 9, 0, 0, 0, 540);
    var b := Civil(2026, 8, 20, 1, 0, 0, 0, 0);
    assert DayNumber(a) == DayNumber(b);
    TextFollowsLocalTime(a, b);
    TextFollowsLocalTime(b, a);
  }

  /** An expiry is listed as past only strictly after it, and at the latest one second
      after it: `claim_expires_at < now` and `deadline_at < now` as texts. */
  lemma ListedStrictlyAfterExpiry(expiry: Civil, now: Civil)
    requires IsValid(expiry) && IsValid(now) && expiry.offset == now.offset
    ensures Less(Format(expiry), Format(now)) ==> Nanos(expiry) < Nanos(now)
    ensures Nanos(now) >= Nanos(expiry) + 1_000_000_000 ==> Less(Format(expiry), Format(now))
  {
    TextOrderIsTimeOrder(expiry, now);
  }

  // ---- Reading it back ---------------------------------------------------------------

  predicate AllDigits(s: string) {
    forall i :: 0 <= i < |s| ==> '0' <= s[i] <= '9'
  }

  datatype Field = Field(value: nat, rest: string)

  /** `width` digits, then a separator. */
  function ReadField(s: string, width: nat, sep: string): Option<Field> {
    if |s| >= width + |sep| && AllDigits(s[..width]) && s[width..width + |sep|] == sep
    then Some(Field(Itoa.Value(s[..width]), s[width + |sep|..]))
    else None
  }

  function ReadZone(s: string): Option<int> {
    if s == "Z" then Some(0)
    else if |s| == 0 || s[0] !in {'+', '-'} then None
    else match ReadField(s[1..], 2, ":")
      case None => None
      case Some(h) => match ReadField(h.rest, 2, "")
        case None => None
        case Some(m) =>
          if m.rest != "" then None
          else Some(if s[0] == '-' then -(60 * h.value + m.value) else 60 * h.value + m.value)
  }

  function ReadClock(s: string, year: int, month: int, day: int): Option<Civil> {
    match ReadField(s, 2, ":")
    case None => None
    case Some(h) => match ReadField(h.rest, 2, ":")
      case None => None
      case Some(m) => match ReadField(m.rest, 2, "")
        case None => None
        case Some(sec) => match ReadZone(sec.rest)
          case None => None
          case Some(offset) => Some(Civil(year, month, day, h.value, m.value, sec.value, 0, offset))
  }

  /** time.Parse with the stored layout. */
  function Parse(s: string): Option<Civil> {
    match ReadField(s, 4, "-")
    case None => None
    case Some(y) => match ReadField(y.rest, 2, "-")
      case None => None
      case Some(m) => match ReadField(m.rest, 2, "T")
        case None => None
        case Some(d) => match ReadClock(d.rest, y.value, m.value, d.value)
          case None => None
          case Some(t) => if IsValid(t) then Some(t) else None
  }

  /** parseTime: text that is not a time is the zero time. */
  function ParseTime(s: string): Reading {
    match Parse(s)
    case None => ZERO
    case Some(t) => t
  }

  lemma {:induction false} PadReadsBack(n: int, width: nat)
    requires 0 <= n < Pow10(width)
    ensures AllDigits(Pad(n, width)) && Itoa.Value(Pad(n, width)) == n
  {
    if width > 0 {
      PadReadsBack(n / 10, width - 1);
      var s := Pad(n, width);
      assert s[..|s| - 1] == Pad(n / 10, width - 1);
    }
  }

  lemma FieldReadsBack(n: int, width: nat, sep: string, rest: string)
    requires 0 <= n < Pow10(width)
    ensures ReadField(Pad(n, width) + (sep + rest), width, sep) == Some(Field(n, rest))
  {
    PadReadsBack(n, width);
    var s := Pad(n, width) + (sep + rest);
    assert s[..width] == Pad(n, width);
    assert s[width..width + |sep|] == sep;
    assert s[width + |sep|..] == rest;
  }

  /** A sign, and two fields that read back. */
  lemma SignedZoneReadsBack(sign: char, text: string, hours: nat, last: string, minutes: nat)
    requires sign in {'+', '-'} && text != ""
    requires ReadField(text, 2, ":") == Some(Field(hours, last)) && ReadField(last, 2, "") == Some(Field(minutes, ""))
    ensures ReadZone([sign] + text) == Some(if sign == '-' then -(60 * hours + minutes) else 60 * hours + minutes)
  {
    assert ([sign] + text)[1..] == text;
  }

  lemma ZoneReadsBack(offset: int)
    requires -1440 < offset < 1440
    ensures ReadZone(Zone(offset)) == Some(offset)
  {
    if offset != 0 {
      assert Pow10(1) == 10 && Pow10(2) == 100;
      var m := if offset < 0 then -offset else offset;
      var hours, minutes := Pad(m / 60, 2), Pad(m % 60, 2);
      FieldReadsBack(m / 60, 2, ":", minutes);
      FieldReadsBack(m % 60, 2, "", "");
      assert minutes + ("" + "") == minutes;
      SignedZoneReadsBack(if offset < 0 then '-' else '+', hours + (":" + minutes), m / 60, minutes, m % 60);
      assert Zone(offset) == [if offset < 0 then '-' else '+'] + (hours + (":" + minutes));
    }
  }

  lemma ClockReadsBack(t: Civil)
    requires IsValid(t)
    ensures ReadClock(FromHour(t), t.year, t.month, t.day) == Some(Truncated(t))
  {
    assert Pow10(1) == 10 && Pow10(2) == 100;
    FieldReadsBack(t.hour, 2, ":", FromMinute(t));
    FieldReadsBack(t.minute, 2, ":", FromSecond(t));
    FieldReadsBack(t.second, 2, "", Zone(t.offset));
    assert "" + Zone(t.offset) == Zone(t.offset);
    ZoneReadsBack(t.offset);
  }

  /** A stored time reads back as itself, cut to whole seconds. */
  lemma FormatReadsBack(t: Civil)
    requires IsValid(t)
    ensures ParseTime(Format(t)) == Truncated(t)
  {
    assert Pow10(1) == 10 && Pow10(2) == 100 && Pow10(4) == 10_000;
    FieldReadsBack(t.year, 4, "-", FromMonth(t));
    FieldReadsBack(t.month, 2, "-", FromDay(t));
    FieldReadsBack(t.day, 2, "T", FromHour(t));
    ClockReadsBack(t);
  }

  predicate IsZero(t: Civil)
    requires IsValid(t)
  {
    Nanos(t) == Nanos(ZERO)
  }

  /** nullTime and parseNullTime, for nullable columns. */

  function NullTime(t: Option<Civil>): Option<string>
    requires t.Some? ==> IsValid(t.value)
  {
    if t.None? || IsZero(t.value) then None else Some(Format(t.value))
  }

  function ParseNullTime(s: Option<string>): Option<Civil> {
    if s.None? || s.value == "" then None
    else
      var t := ParseTime(s.value);
      if IsZero(t) then None else Some(t)
  }

  /** A nullable time survives, cut to seconds, exactly when it does not fall in the very
      second of the zero time; there it comes back as no time at all. */
  lemma NullTimeReadsBackIff(t: Civil)
    requires IsValid(t)
    ensures ParseNullTime(NullTime(Some(t))) == Some(Truncated(t)) <==> Seconds(t) != Seconds(ZERO)
    ensures Seconds(t) == Seconds(ZERO) ==> ParseNullTime(NullTime(Some(t))) == None
  {
    FormatReadsBack(t);
    assert |Format(t)| > 0;
  }
}
