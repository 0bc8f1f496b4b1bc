/** UTC timestamps as text. Retention and usage queries compare isoformat() strings in SQL; this module
    proves that the order of the strings is the order of the instants, and that every instant of the
    supported years has a timestamp. */
module Timestamps {
  import opened Text

  datatype DateTime = DateTime(year: int, month: int, day: int, hour: int, minute: int, second: int, micro: int)

  predicate Leap(y: int) { y % 4 == 0 && (y % 100 != 0 || y % 400 == 0) }

  function DaysInMonth(y: int, m: int): int {
    if m == 2 then (if Leap(y) then 29 else 28)
    else if m in {4, 6, 9, 11} then 30 else 31
  }

  predicate Valid(d: DateTime) {
    && 1 <= d.year <= 9999 && 1 <= d.month <= 12 && 1 <= d.day <= DaysInMonth(d.year, d.month)
    && 0 <= d.hour < 24 && 0 <= d.minute < 60 && 0 <= d.second < 60 && 0 <= d.micro < 1000000
  }

  // ---------------------------------------------------------------- instants

  const HOUR: int := 3600 * 1000000
  const DAY: int := 24 * HOUR

  /** timedelta(days=n), in microseconds */
  function Days(n: int): int { n * 86400000000 }

  /** Microseconds from 0001-01-01T00:00:00 to the end of the year 9999. */
  const END: int := 3652059 * DAY

  /** Days before January 1st of the year, counted from year 1. */
  function DaysBeforeYear(y: int): int {
    var p := y - 1;
    365 * p + p / 4 - p / 100 + p / 400
  }

  function DaysBeforeMonth(y: int, m: int): int
    requires 1 <= m <= 13
  {
    if m == 1 then 0 else DaysBeforeMonth(y, m - 1) + DaysInMonth(y, m - 1)
  }

  function DayNumber(y: int, m: int, d: int): int
    requires 1 <= m <= 12
  {
    DaysBeforeYear(y) + DaysBeforeMonth(y, m) + d - 1
  }

  function TimeOfDay(d: DateTime): int {
    ((d.hour * 60 + d.minute) * 60 + d.second) * 1000000 + d.micro
  }

  function Instant(d: DateTime): int
    requires Valid(d)
  {
    DayNumber(d.year, d.month, d.day) * DAY + TimeOfDay(d)
  }

  // ---------------------------------------------------------------- calendar

  lemma DivStep4(y: int) ensures y / 4 - (y - 1) / 4 == if y % 4 == 0 then 1 else 0 {}

  lemma DivStep100(y: int) ensures y / 100 - (y - 1) / 100 == if y % 100 == 0 then 1 else 0 {}

  lemma DivStep400(y: int) ensures y / 400 - (y - 1) / 400 == if y % 400 == 0 then 1 else 0 {}

  lemma Multiples(y: int)
    ensures y % 100 == 0 ==> y % 4 == 0
    ensures y % 400 == 0 ==> y % 100 == 0
  {
    assert y % 100 == 0 ==> y == 4 * (25 * (y / 100));
    assert y % 400 == 0 ==> y == 100 * (4 * (y / 400));
  }

  lemma YearLength(y: int)
    ensures DaysBeforeYear(y + 1) == DaysBeforeYear(y) + if Leap(y) then 366 else 365
  {
    DivStep4(y);
    DivStep100(y);
    DivStep400(y);
    Multiples(y);
  }

  lemma MonthsOfYear(y: int)
    ensures DaysBeforeMonth(y, 13) == if Leap(y) then 366 else 365
  {
    var f := DaysInMonth(y, 2);
    assert DaysBeforeMonth(y, 2) == 31;
    assert DaysBeforeMonth(y, 3) == 31 + f;
    assert DaysBeforeMonth(y, 4) == 62 + f;
    assert DaysBeforeMonth(y, 6) == 123 + f;
    assert DaysBeforeMonth(y, 8) == 184 + f;
    assert DaysBeforeMonth(y, 10) == 245 + f;
    assert DaysBeforeMonth(y, 12) == 306 + f;
  }

  lemma {:induction false} MonthsGrow(y: int, m: int, n: int)
    requires 1 <= m <= n <= 13
    ensures DaysBeforeMonth(y, m) + 28 * (n - m) <= DaysBeforeMonth(y, n)
  {
    if m < n {
      MonthsGrow(y, m, n - 1);
    }
  }

  lemma {:induction false} YearsGrow(y: int, z: int)
    requires y <= z
    ensures DaysBeforeYear(y) + 365 * (z - y) <= DaysBeforeYear(z)
    decreases z - y
  {
    if y < z {
      YearsGrow(y, z - 1);
      YearLength(z - 1);
    }
  }

  /** A valid date lies inside its month, and inside its year. */
  lemma DayInMonth(y: int, m: int, d: int)
    requires 1 <= m <= 12 && 1 <= d <= DaysInMonth(y, m)
    ensures DaysBeforeMonth(y, m) <= DayNumber(y, m, d) - DaysBeforeYear(y) < DaysBeforeMonth(y, m + 1)
    ensures DaysBeforeYear(y) <= DayNumber(y, m, d) < DaysBeforeYear(y + 1)
  {
    MonthsGrow(y, 1, m);
    MonthsGrow(y, m + 1, 13);
    MonthsOfYear(y);
    YearLength(y);
  }

  lemma DateOrder(a: DateTime, b: DateTime)
    requires Valid(a) && Valid(b)
    requires a.year < b.year || (a.year == b.year && (a.month < b.month || (a.month == b.month && a.day < b.day)))
    ensures DayNumber(a.year, a.month, a.day) < DayNumber(b.year, b.month, b.day)
  {
    DayInMonth(a.year, a.month, a.day);
    DayInMonth(b.year, b.month, b.day);
    if a.year < b.year {
      YearsGrow(a.year + 1, b.year);
    } else if a.month < b.month {
      MonthsGrow(a.year, a.month + 1, b.month);
    }
  }

  lemma TimeInDay(d: DateTime)
    requires Valid(d)
    ensures 0 <= TimeOfDay(d) < DAY
  {
  }

  // ---------------------------------------------------------------- field order is instant order

  ghost predicate FieldsLess(a: DateTime, b: DateTime) {
    a.year < b.year || (a.year == b.year && (
    a.month < b.month || (a.month == b.month && (
    a.day < b.day || (a.day == b.day && (
    a.hour < b.hour || (a.hour == b.hour && (
    a.minute < b.minute || (a.minute == b.minute && (
    a.second < b.second || (a.second == b.second && a.micro < b.micro)))))))))))
  }

  lemma FieldsLessIsEarlier(a: DateTime, b: DateTime)
    requires Valid(a) && Valid(b) && FieldsLess(a, b)
    ensures Instant(a) < Instant(b)
  {
    TimeInDay(a);
    TimeInDay(b);
    if a.year != b.year || a.month != b.month || a.day != b.day {
      DateOrder(a, b);
    }
  }

  /** Order of the fields and order of the instants are the same order; equal instants are equal fields. */
  lemma FieldOrder(a: DateTime, b: DateTime)
    requires Valid(a) && Valid(b)
    ensures FieldsLess(a, b) <==> Instant(a) < Instant(b)
    ensures a == b <==> Instant(a) == Instant(b)
  {
    if FieldsLess(a, b) {
      FieldsLessIsEarlier(a, b);
    } else if FieldsLess(b, a) {
      FieldsLessIsEarlier(b, a);
    }
  }

  // ---------------------------------------------------------------- isoformat()

  function Digit(n: int): char
    requires 0 <= n < 10
  {
    '0' + n as char
  }

  function Pow10(w: nat): nat { if w == 0 then 1 else 10 * Pow10(w - 1) }

  /** The last w decimal digits, zero-padded. */
  function Padded(n: nat, w: nat): (s: string)
    ensures |s| == w
  {
    if w == 0 then "" else Padded(n / 10, w - 1) + [Digit(n % 10)]
  }

  /** The fraction is absent when there are no microseconds; the offset of UTC follows. */
  function Tail(micro: nat): string {
    if micro == 0 then "+00:00" else "." + (Padded(micro, 6) + "+00:00")
  }

  /** datetime.isoformat() of an aware UTC datetime. */
  function Iso(d: DateTime): string
    requires Valid(d)
  {
    Padded(d.year, 4) + ("-" + (Padded(d.month, 2) + ("-" + (Padded(d.day, 2) + ("T" +
    (Padded(d.hour, 2) + (":" + (Padded(d.minute, 2) + (":" + (Padded(d.second, 2) + ("" + Tail(d.micro))))))))))))
  }

  // ---------------------------------------------------------------- text order

  lemma {:induction false} LessAfterPrefix(p: string, q: string, x: string, y: string)
    requires |p| == |q|
    ensures LexLess(p + x, q + y) <==> LexLess(p, q) || (p == q && LexLess(x, y))
  {
    if p == "" {
      assert p + x == x && q + y == y;
    } else {
      LessAfterPrefix(p[1..], q[1..], x, y);
      assert (p + x)[1..] == p[1..] + x && (q + y)[1..] == q[1..] + y;
      assert p == q <==> p[0] == q[0] && p[1..] == q[1..];
    }
  }

  lemma LessSame(p: string, x: string, y: string)
    ensures LexLess(p + x, p + y) <==> LexLess(x, y)
  {
    LessAfterPrefix(p, p, x, y);
    LessIrreflexive(p);
  }

  lemma {:induction false} LessIrreflexive(s: string)
    ensures !LexLess(s, s)
  {
    if s != "" { LessIrreflexive(s[1..]); }
  }

  lemma {:induction false} PaddedOrder(a: nat, b: nat, w: nat)
    requires a < Pow10(w) && b < Pow10(w)
    ensures LexLess(Padded(a, w), Padded(b, w)) <==> a < b
    ensures Padded(a, w) == Padded(b, w) <==> a == b
  {
    if w > 0 {
      PaddedOrder(a / 10, b / 10, w - 1);
      var x, y := [Digit(a % 10)], [Digit(b % 10)];
      LessAfterPrefix(Padded(a / 10, w - 1), Padded(b / 10, w - 1), x, y);
      assert LexLess(x, y) <==> a % 10 < b % 10;
      var p, q := Padded(a, w), Padded(b, w);
      assert p[..w - 1] == Padded(a / 10, w - 1) && q[..w - 1] == Padded(b / 10, w - 1);
      assert p[w - 1] == x[0] && q[w - 1] == y[0];
    }
  }

  /** One field of the timestamp, then whatever follows it. */
  lemma FieldStep(a: nat, b: nat, w: nat, separator: string, x: string, y: string)
    requires a < Pow10(w) && b < Pow10(w)
    ensures LexLess(Padded(a, w) + (separator + x), Padded(b, w) + (separator + y)) <==>
            a < b || (a == b && LexLess(x, y))
  {
    PaddedOrder(a, b, w);
    LessAfterPrefix(Padded(a, w), Padded(b, w), separator + x, separator + y);
    LessSame(separator, x, y);
  }

  /** The absent fraction sorts first because '+' precedes '.'. */
  lemma TailOrder(a: nat, b: nat)
    requires a < 1000000 && b < 1000000
    ensures LexLess(Tail(a), Tail(b)) <==> a < b
  {
    assert Pow10(6) == 1000000 by { assert Pow10(3) == 1000; }
    if a == 0 && b == 0 {
      LessIrreflexive(Tail(0));
    } else if a > 0 && b > 0 {
      LessSame(".", Padded(a, 6) + "+00:00", Padded(b, 6) + "+00:00");
      FieldStep(a, b, 6, "", "+00:00", "+00:00");
      LessIrreflexive("+00:00");
      assert "" + "+00:00" == "+00:00";
    }
  }

  /** Timestamps compare as text exactly as they compare as instants. */
  lemma IsoOrder(a: DateTime, b: DateTime)
    requires Valid(a) && Valid(b)
    ensures LexLess(Iso(a), Iso(b)) <==> Instant(a) < Instant(b)
  {
    assert Pow10(2) == 100 && Pow10(4) == 10000 by { assert Pow10(3) == 1000; }
    var s6, t6 := Tail(a.micro), Tail(b.micro);
    TailOrder(a.micro, b.micro);
    var s5, t5 := Padded(a.second, 2) + ("" + s6), Padded(b.second, 2) + ("" + t6);
    FieldStep(a.second, b.second, 2, "", s6, t6);
    var s4, t4 := Padded(a.minute, 2) + (":" + s5), Padded(b.minute, 2) + (":" + t5);
    FieldStep(a.minute, b.minute, 2, ":", s5, t5);
    var s3, t3 := Padded(a.hour, 2) + (":" + s4), Padded(b.hour, 2) + (":" + t4);
    FieldStep(a.hour, b.hour, 2, ":", s4, t4);
    var s2, t2 := Padded(a.day, 2) + ("T" + s3), Padded(b.day, 2) + ("T" + t3);
    FieldStep(a.day, b.day, 2, "T", s3, t3);
    var s1, t1 := Padded(a.month, 2) + ("-" + s2), Padded(b.month, 2) + ("-" + t2);
    FieldStep(a.month, b.month, 2, "-", s2, t2);
    FieldStep(a.year, b.year, 4, "-", s1, t1);
    FieldOrder(a, b);
  }

  /** The number that decimal digits denote. */
  function Number(s: string): int {
    if s == "" then 0 else 10 * Number(s[..|s| - 1]) + (s[|s| - 1] as int - '0' as int)
  }

  lemma {:induction false} PaddedDenotes(n: nat, w: nat)
    requires n < Pow10(w)
    ensures Number(Padded(n, w)) == n
  {
    if w > 0 {
      PaddedDenotes(n / 10, w - 1);
      assert Padded(n, w)[..w - 1] == Padded(n / 10, w - 1);
    }
  }

  /** The text field by field: year, month and day, hours, minutes and seconds, then the microseconds if there
      are any, and the offset of UTC. */
  lemma IsoLooksLike(d: DateTime)
    requires Valid(d)
    ensures var t := Iso(d);
      && |t| == (if d.micro == 0 then 25 else 32)
      && t[4] == '-' && t[7] == '-' && t[10] == 'T' && t[13] == ':' && t[16] == ':'
      && Number(t[..4]) == d.year && Number(t[5..7]) == d.month && Number(t[8..10]) == d.day
      && Number(t[11..13]) == d.hour && Number(t[14..16]) == d.minute && Number(t[17..19]) == d.second
      && t[|t| - 6..] == "+00:00" && (d.micro > 0 ==> t[19] == '.' && Number(t[20..26]) == d.micro)
  {
    hide Padded;
    assert Pow10(2) == 100 && Pow10(4) == 10000 by { assert Pow10(3) == 1000; }
    assert Pow10(6) == 1000000 by { assert Pow10(3) == 1000; }
    var y, mo, da := Padded(d.year, 4), Padded(d.month, 2), Padded(d.day, 2);
    var h, mi, se := Padded(d.hour, 2), Padded(d.minute, 2), Padded(d.second, 2);
    PaddedDenotes(d.year, 4);
    PaddedDenotes(d.month, 2);
    PaddedDenotes(d.day, 2);
    PaddedDenotes(d.hour, 2);
    PaddedDenotes(d.minute, 2);
    PaddedDenotes(d.second, 2);
    PaddedDenotes(d.micro, 6);
    Layout(y, mo, da, h, mi, se, Tail(d.micro));
    if d.micro > 0 {
      assert Iso(d)[20..26] == Tail(d.micro)[1..7] == Padded(d.micro, 6);
    }
  }

  lemma Layout(y: string, mo: string, da: string, h: string, mi: string, se: string, tail: string)
    requires |y| == 4 && |mo| == |da| == |h| == |mi| == |se| == 2
    ensures var t := y + ("-" + (mo + ("-" + (da + ("T" + (h + (":" + (mi + (":" + (se + ("" + tail)))))))))));
      && |t| == 19 + |tail| && t[19..] == tail
      && t[4] == '-' && t[7] == '-' && t[10] == 'T' && t[13] == ':' && t[16] == ':'
      && t[..4] == y && t[5..7] == mo && t[8..10] == da && t[11..13] == h && t[14..16] == mi && t[17..19] == se
  {
    var time := h + (":" + (mi + (":" + (se + ("" + tail)))));
    var t := y + ("-" + (mo + ("-" + (da + ("T" + time)))));
    DateLayout(y, mo, da, time);
    TimeLayout(h, mi, se, tail);
    Shifted(t, time, 11, 0, 2);
    Shifted(t, time, 11, 3, 5);
    Shifted(t, time, 11, 6, 8);
    Shifted(t, time, 11, 8, |time|);
    assert t[13] == time[2] && t[16] == time[5];
  }

  lemma DateLayout(y: string, mo: string, da: string, rest: string)
    requires |y| == 4 && |mo| == |da| == 2
    ensures var t := y + ("-" + (mo + ("-" + (da + ("T" + rest)))));
      && |t| == 11 + |rest| && t[11..] == rest && t[4] == '-' && t[7] == '-' && t[10] == 'T'
      && t[..4] == y && t[5..7] == mo && t[8..10] == da
  {
  }

  lemma TimeLayout(h: string, mi: string, se: string, tail: string)
    requires |h| == |mi| == |se| == 2
    ensures var t := h + (":" + (mi + (":" + (se + ("" + tail)))));
      && |t| == 8 + |tail| && t[8..] == tail && t[2] == ':' && t[5] == ':'
      && t[..2] == h && t[3..5] == mi && t[6..8] == se
  {
  }

  lemma Shifted(t: string, rest: string, k: nat, i: nat, j: nat)
    requires k <= |t| && t[k..] == rest && i <= j <= |rest|
    ensures t[k + i..k + j] == rest[i..j]
  {
    var u := t[k + i..k + j];
    forall n | 0 <= n < j - i ensures u[n] == rest[i..j][n] {
      assert t[k..][i + n] == t[k + i + n];
    }
  }

  /** Known days: the first one, the epoch of Unix, and around the ends of February. */
  lemma CalendarStands()
    ensures DayNumber(1, 1, 1) == 0 && DayNumber(1970, 1, 1) == 719162
    ensures DayNumber(2024, 3, 1) - DayNumber(2024, 2, 28) == 2
    ensures DayNumber(2100, 3, 1) - DayNumber(2100, 2, 28) == 1
    ensures DAY == 24 * 60 * 60 * 1000000
  {
    assert DaysBeforeMonth(2024, 2) == 31 == DaysBeforeMonth(2100, 2);
  }

  // ---------------------------------------------------------------- every instant has a timestamp

  function YearOf(day: int, y: int): (r: int)
    requires DaysBeforeYear(y) <= day
    ensures y <= r && DaysBeforeYear(r) <= day < DaysBeforeYear(r + 1)
    decreases day - DaysBeforeYear(y)
  {
    YearLength(y);
    if day < DaysBeforeYear(y + 1) then y else YearOf(day, y + 1)
  }

  function MonthOf(y: int, rest: int, m: int): (r: int)
    requires 1 <= m <= 12 && DaysBeforeMonth(y, m) <= rest < DaysBeforeMonth(y, 13)
    ensures m <= r <= 12 && DaysBeforeMonth(y, r) <= rest < DaysBeforeMonth(y, r + 1)
    decreases 12 - m
  {
    if rest < DaysBeforeMonth(y, m + 1) then m else MonthOf(y, rest, m + 1)
  }

  /** The calendar date of a day, counted from 0001-01-01. */
  function DateOf(day: int): (r: (int, int, int))
    requires 0 <= day < 3652059
    ensures 1 <= r.0 <= 9999 && 1 <= r.1 <= 12 && 1 <= r.2 <= DaysInMonth(r.0, r.1)
    ensures DayNumber(r.0, r.1, r.2) == day
  {
    var y := YearOf(day, 1);
    YearLength(y);
    MonthsOfYear(y);
    var rest := day - DaysBeforeYear(y);
    var m := MonthOf(y, rest, 1);
    assert y <= 9999 by { if y > 9999 { YearsGrow(10000, y); assert false; } }
    (y, m, rest - DaysBeforeMonth(y, m) + 1)
  }

  /** The UTC datetime of an instant: what datetime arithmetic with timedelta yields. */
  function At(t: int): (d: DateTime)
    requires 0 <= t < END
    ensures Valid(d) && Instant(d) == t
  {
    SplitDay(t);
    var time := t % DAY;
    var (y, m, d) := DateOf(t / DAY);
    DateTime(y, m, d, time / HOUR, time / 60000000 % 60, time / 1000000 % 60, time % 1000000)
  }

  lemma SplitDay(t: int)
    requires 0 <= t
    ensures var time := t % DAY;
      && 0 <= t / DAY && (t < END ==> t / DAY < 3652059)
      && 0 <= time / HOUR < 24
      && ((time / HOUR * 60 + time / 60000000 % 60) * 60 + time / 1000000 % 60) * 1000000 + time % 1000000 == time
      && t == t / DAY * DAY + time
  {
    var time := t % DAY;
    var seconds := time / 1000000;
    var minutes := seconds / 60;
    assert time / 60000000 == minutes;
    assert time / HOUR == minutes / 60;
  }

  function IsoAt(t: int): string
    requires 0 <= t < END
  {
    Iso(At(t))
  }

  /** isoformat() embeds the time line into text: order is preserved both ways, so nothing collides. */
  lemma TextOrderIsTimeOrder(t: int, u: int)
    requires 0 <= t < END && 0 <= u < END
    ensures LexLess(IsoAt(t), IsoAt(u)) <==> t < u
    ensures IsoAt(t) == IsoAt(u) <==> t == u
  {
    IsoOrder(At(t), At(u));
    IsoOrder(At(u), At(t));
    LessIrreflexive(IsoAt(t));
  }

  /** The start of the hour of an instant. */
  function HourFloor(t: int): int { t - t % HOUR }

  lemma FloorOfSum(n: int, h: int, time: int, within: int)
    requires time == h * HOUR + within && 0 <= within < HOUR
    ensures HourFloor(n * DAY + time) == n * DAY + h * HOUR
  {
    FloorUnique(n * DAY + time, n * 24 + h, within);
  }

  lemma FloorFields(d: DateTime)
    requires Valid(d)
    ensures Instant(d.(minute := 0, second := 0, micro := 0)) == HourFloor(Instant(d))
  {
    var n := DayNumber(d.year, d.month, d.day);
    FloorOfSum(n, d.hour, TimeOfDay(d), (d.minute * 60 + d.second) * 1000000 + d.micro);
  }

  lemma HourFloorRange(t: int)
    requires 0 <= t
    ensures 0 <= HourFloor(t) <= t
  {
    assert t / HOUR * HOUR + t % HOUR == t;
  }

  lemma FloorIsReplaced(d: DateTime, e: DateTime)
    requires Valid(d) && Valid(e) && Instant(e) == HourFloor(Instant(d))
    ensures e == d.(minute := 0, second := 0, micro := 0)
  {
    FloorFields(d);
    FieldOrder(d.(minute := 0, second := 0, micro := 0), e);
  }

  /** datetime.replace(minute=0, second=0, microsecond=0) is the start of the hour. */
  lemma ReplaceIsHourFloor(t: int)
    requires 0 <= t < END
    ensures 0 <= HourFloor(t) <= t
    ensures At(t).(minute := 0, second := 0, micro := 0) == At(HourFloor(t))
  {
    HourFloorRange(t);
    FloorIsReplaced(At(t), At(HourFloor(t)));
  }

  lemma FloorUnique(t: int, hours: int, within: int)
    requires t == hours * HOUR + within && 0 <= within < HOUR
    ensures HourFloor(t) == hours * HOUR
  {
    assert t / HOUR == hours;
  }
}
