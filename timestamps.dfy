/**
 * Local date-times as the bot stores them: `datetime.strftime("%Y-%m-%d %H:%M:%S")`
 * text, compared by SQLite as strings, and the `now - timedelta(days=1)` step of
 * the cleanup job. Years are kept to four digits, where the format is fixed-width.
 */
module Timestamps {
  import opened Common
  import opened Text
  import opened Numbers

  datatype DateTime = DateTime(year: int, month: int, day: int, hour: int, minute: int, second: int)

  predicate IsLeapYear(y: int) {
    y % 4 == 0 && (y % 100 != 0 || y % 400 == 0)
  }

  /** The number of days in month `m` (1 to 12) of year `y`, Gregorian calendar. */
  function DaysIn(y: int, m: int): (n: int)
    ensures 28 <= n <= 31
    ensures m == 2 ==> (n == 29 <==> IsLeapYear(y))
  {
    if m == 2 then (if IsLeapYear(y) then 29 else 28)
    else if m == 4 || m == 6 || m == 9 || m == 11 then 30
    else 31
  }

  /** A date-time that exists in the calendar and whose year has four digits. */
  predicate Valid(d: DateTime) {
    && 1000 <= d.year <= 9999
    && 1 <= d.month <= 12
    && 1 <= d.day <= DaysIn(d.year, d.month)
    && 0 <= d.hour < 24 && 0 <= d.minute < 60 && 0 <= d.second < 60
  }

  /** Chronological order: `a` is strictly earlier than `b`. */
  predicate Before(a: DateTime, b: DateTime) {
    if a.year != b.year then a.year < b.year
    else if a.month != b.month then a.month < b.month
    else if a.day != b.day then a.day < b.day
    else if a.hour != b.hour then a.hour < b.hour
    else if a.minute != b.minute then a.minute < b.minute
    else a.second < b.second
  }

  function Pow10(w: nat): (p: nat)
    ensures p >= 1
  {
    if w == 0 then 1 else 10 * Pow10(w - 1)
  }

  /** `n` written with exactly `w` digits, zero-padded on the left (`%02d`, `%04d`). */
  function Pad(n: nat, w: nat): (s: string)
    requires n < Pow10(w)
    ensures |s| == w && AllDigits(s)
  {
    if w == 0 then [] else Pad(n / 10, w - 1) + [DigitChar(n % 10)]
  }

  /** Zero-padded numbers of one width compare as strings exactly as they compare as numbers. */
  lemma {:induction false} PadOrder(n: nat, m: nat, w: nat)
    requires n < Pow10(w) && m < Pow10(w)
    ensures Less(Pad(n, w), Pad(m, w)) <==> n < m
    ensures Pad(n, w) == Pad(m, w) <==> n == m
  {
    if w == 0 {
      LessIrreflexive([]);
    } else {
      var p, q := Pad(n / 10, w - 1), Pad(m / 10, w - 1);
      var dn, dm := DigitChar(n % 10), DigitChar(m % 10);
      PadOrder(n / 10, m / 10, w - 1);
      LessConcat(p, [dn], q, [dm]);
      if p + [dn] == q + [dm] {
        assert p == (p + [dn])[..w - 1] && q == (q + [dm])[..w - 1];
        assert dn == (p + [dn])[w - 1] && dm == (q + [dm])[w - 1];
      }
    }
  }

  /** One padded field followed by a separator and the rest of a stamp. */
  lemma FieldStep(x: nat, y: nat, w: nat, c: char, r1: string, r2: string)
    requires x < Pow10(w) && y < Pow10(w)
    ensures Less(Pad(x, w) + ([c] + r1), Pad(y, w) + ([c] + r2)) <==> x < y || (x == y && Less(r1, r2))
    ensures Pad(x, w) + ([c] + r1) == Pad(y, w) + ([c] + r2) <==> x == y && r1 == r2
  {
    PadOrder(x, y, w);
    LessConcat(Pad(x, w), [c] + r1, Pad(y, w), [c] + r2);
    assert ([c] + r1)[1..] == r1 && ([c] + r2)[1..] == r2;
    if Pad(x, w) + ([c] + r1) == Pad(y, w) + ([c] + r2) {
      assert Pad(x, w) == (Pad(x, w) + ([c] + r1))[..w];
      assert Pad(y, w) == (Pad(y, w) + ([c] + r2))[..w];
      assert r1 == (Pad(x, w) + ([c] + r1))[w + 1..];
      assert r2 == (Pad(y, w) + ([c] + r2))[w + 1..];
    }
  }

  function MinuteSecond(d: DateTime): string
    requires Valid(d)
  {
    Pad(d.minute, 2) + ([':'] + Pad(d.second, 2))
  }

  function Clock(d: DateTime): string
    requires Valid(d)
  {
    Pad(d.hour, 2) + ([':'] + MinuteSecond(d))
  }

  function DayClock(d: DateTime): string
    requires Valid(d)
  {
    Pad(d.day, 2) + ([' '] + Clock(d))
  }

  function MonthDayClock(d: DateTime): string
    requires Valid(d)
  {
    Pad(d.month, 2) + (['-'] + DayClock(d))
  }

  /** `strftime("%Y-%m-%d %H:%M:%S")`: nineteen characters, every field at a fixed place. */
  function Format(d: DateTime): (s: string)
    requires Valid(d)
    ensures |s| == 19
    ensures s[4] == '-' && s[7] == '-' && s[10] == ' ' && s[13] == ':' && s[16] == ':'
  {
    Pad(d.year, 4) + (['-'] + MonthDayClock(d))
  }

  /** The time-of-day part of a stamp orders by hour, then minute, then second. */
  lemma ClockOrder(a: DateTime, b: DateTime)
    requires Valid(a) && Valid(b)
    ensures Less(Clock(a), Clock(b)) <==>
              a.hour < b.hour || (a.hour == b.hour && (a.minute < b.minute || (a.minute == b.minute && a.second < b.second)))
    ensures Clock(a) == Clock(b) <==> a.hour == b.hour && a.minute == b.minute && a.second == b.second
  {
    PadOrder(a.second, b.second, 2);
    FieldStep(a.minute, b.minute, 2, ':', Pad(a.second, 2), Pad(b.second, 2));
    FieldStep(a.hour, b.hour, 2, ':', MinuteSecond(a), MinuteSecond(b));
  }

  /** The day and time-of-day part of a stamp orders by day, then by time of day. */
  lemma DayClockOrder(a: DateTime, b: DateTime)
    requires Valid(a) && Valid(b)
    ensures Less(DayClock(a), DayClock(b)) <==>
              a.day < b.day || (a.day == b.day && Less(Clock(a), Clock(b)))
    ensures DayClock(a) == DayClock(b) <==> a.day == b.day && Clock(a) == Clock(b)
  {
    FieldStep(a.day, b.day, 2, ' ', Clock(a), Clock(b));
  }

  /**
   * Because the format is fixed-width, SQLite's string comparison of two
   * formatted stamps is the chronological comparison of the date-times.
   */
  lemma FormatOrder(a: DateTime, b: DateTime)
    requires Valid(a) && Valid(b)
    ensures Less(Format(a), Format(b)) <==> Before(a, b)
    ensures Format(a) == Format(b) <==> a == b
  {
    ClockOrder(a, b);
    DayClockOrder(a, b);
    FieldStep(a.month, b.month, 2, '-', DayClock(a), DayClock(b));
    FieldStep(a.year, b.year, 4, '-', MonthDayClock(a), MonthDayClock(b));
  }

  /** The same statement for `<=`, the comparison the cleanup query uses. */
  lemma FormatOrderEq(a: DateTime, b: DateTime)
    requires Valid(a) && Valid(b)
    ensures LessEq(Format(a), Format(b)) <==> !Before(b, a)
  {
    FormatOrder(a, b);
    FormatOrder(b, a);
    LessTotal(Format(a), Format(b));
    if Less(Format(a), Format(b)) {
      LessAsymmetric(Format(a), Format(b));
    }
  }

  /**
   * `d - timedelta(days=1)`: the previous calendar day at the same time of day.
   * `None` when that day would need a year before 1000.
   */
  function DayBefore(d: DateTime): (r: Option<DateTime>)
    requires Valid(d)
    ensures r.Some? ==> Valid(r.value) && Before(r.value, d)
    ensures r.Some? ==> r.value.hour == d.hour && r.value.minute == d.minute && r.value.second == d.second
    ensures r.None? <==> d.year == 1000 && d.month == 1 && d.day == 1
  {
    if d.day > 1 then Some(d.(day := d.day - 1))
    else if d.month > 1 then Some(d.(month := d.month - 1, day := DaysIn(d.year, d.month - 1)))
    else if d.year > 1000 then Some(d.(year := d.year - 1, month := 12, day := 31))
    else None
  }

  /** `d + timedelta(days=1)`: the next calendar day at the same time of day. */
  function DayAfter(d: DateTime): (r: Option<DateTime>)
    requires Valid(d)
    ensures r.Some? ==> Valid(r.value) && Before(d, r.value)
    ensures r.None? <==> d.year == 9999 && d.month == 12 && d.day == 31
  {
    if d.day < DaysIn(d.year, d.month) then Some(d.(day := d.day + 1))
    else if d.month < 12 then Some(d.(month := d.month + 1, day := 1))
    else if d.year < 9999 then Some(d.(year := d.year + 1, month := 1, day := 1))
    else None
  }

  /** Stepping one day back and one day forward returns to the same moment: exactly one day is taken off. */
  lemma DayBeforeAfter(d: DateTime)
    requires Valid(d)
    ensures DayBefore(d).Some? ==> DayAfter(DayBefore(d).value) == Some(d)
    ensures DayAfter(d).Some? ==> DayBefore(DayAfter(d).value) == Some(d)
  {
  }
}
