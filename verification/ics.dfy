/** The calendar export: one weekly recurring event per lesson and day of a
    schedule's timetable, written out as an iCalendar object (RFC 5545).
    The local calendar date of the semester start and its weekday are a
    parameter, since they come from the host's `Date` in its time zone. */
module Ics {
  import opened Wrappers
  import opened Strings
  import opened Seqs
  import opened Generator

  const CrLf: string := "\r\n"

  // ---------------------------------------------------------------------------
  // Calendar days
  // ---------------------------------------------------------------------------

  datatype Date = Date(year: nat, month: nat, day: nat)

  /** Leap years of the Gregorian calendar. */
  predicate IsLeap(y: nat) {
    y % 4 == 0 && (y % 100 != 0 || y % 400 == 0)
  }

  function DaysIn(y: nat, m: nat): nat {
    if m == 2 then (if IsLeap(y) then 29 else 28)
    else if m == 4 || m == 6 || m == 9 || m == 11 then 30
    else 31
  }

  predicate ValidDate(d: Date) {
    1 <= d.month <= 12 && 1 <= d.day <= DaysIn(d.year, d.month)
  }

  /** The days of the months before month `m` of year `y`. */
  function DaysBeforeMonth(y: nat, m: nat): nat {
    if m <= 1 then 0 else DaysBeforeMonth(y, m - 1) + DaysIn(y, m - 1)
  }

  function YearLength(y: nat): nat {
    if IsLeap(y) then 366 else 365
  }

  /** The leap years among years `0 .. y-1`: the multiples of 4, less
      those of 100, plus those of 400. */
  function LeapsBefore(y: nat): nat {
    (y + 3) / 4 - (y + 99) / 100 + (y + 399) / 400
  }

  /** The days of the years before year `y`, counted from year 0. */
  function DaysBeforeYear(y: nat): nat {
    365 * y + LeapsBefore(y)
  }

  lemma Ceil4(y: nat)
    ensures (y + 4) / 4 - (y + 3) / 4 == if y % 4 == 0 then 1 else 0
  {
  }

  lemma Ceil100(y: nat)
    ensures (y + 100) / 100 - (y + 99) / 100 == if y % 100 == 0 then 1 else 0
  {
  }

  lemma Ceil400(y: nat)
    ensures (y + 400) / 400 - (y + 399) / 400 == if y % 400 == 0 then 1 else 0
  {
  }

  /** The count of days before a year grows by that year's length. */
  lemma YearStep(y: nat)
    ensures DaysBeforeYear(y + 1) == DaysBeforeYear(y) + YearLength(y)
  {
    Ceil4(y);
    Ceil100(y);
    Ceil400(y);
    Nested(y);
    assert LeapsBefore(y + 1) - LeapsBefore(y) == if IsLeap(y) then 1 else 0;
  }

  lemma Nested(y: nat)
    ensures y % 400 == 0 ==> y % 100 == 0
    ensures y % 100 == 0 ==> y % 4 == 0
  {
    if y % 400 == 0 {
      assert y == 100 * (4 * (y / 400));
    }
    if y % 100 == 0 {
      assert y == 4 * (25 * (y / 100));
    }
  }

  /** The position of a date on a running count of days: an independent
      measure of how far apart two dates are. */
  function DayNumber(d: Date): int {
    DaysBeforeYear(d.year) + DaysBeforeMonth(d.year, d.month) + d.day - 1
  }

  /** A local calendar day and its weekday, 0 for Sunday as `getDay()`
      numbers them. */
  datatype LocalDay = LocalDay(date: Date, weekday: nat)

  predicate ValidDay(ld: LocalDay) {
    ValidDate(ld.date) && ld.weekday < 7
  }

  lemma YearEnd(y: nat)
    ensures DaysBeforeMonth(y, 12) + DaysIn(y, 12) == YearLength(y)
  {
    var feb := if IsLeap(y) then 29 else 28;
    assert DaysBeforeMonth(y, 2) == 31;
    assert DaysBeforeMonth(y, 3) == 31 + feb;
    assert DaysBeforeMonth(y, 4) == 62 + feb;
    assert DaysBeforeMonth(y, 5) == 92 + feb;
    assert DaysBeforeMonth(y, 6) == 123 + feb;
    assert DaysBeforeMonth(y, 7) == 153 + feb;
    assert DaysBeforeMonth(y, 8) == 184 + feb;
    assert DaysBeforeMonth(y, 9) == 215 + feb;
    assert DaysBeforeMonth(y, 10) == 245 + feb;
    assert DaysBeforeMonth(y, 11) == 276 + feb;
    assert DaysBeforeMonth(y, 12) == 306 + feb;
  }

  /** One more day moves the weekday on by one. */
  lemma WeekStep(a: nat)
    ensures (a % 7 + 1) % 7 == (a + 1) % 7
  {
  }

  /** The calendar day after `ld`: one further on the running count and one
      further in the week. */
  function NextDay(ld: LocalDay): (r: LocalDay)
    requires ValidDay(ld)
    ensures ValidDay(r)
    ensures r.weekday == (ld.weekday + 1) % 7
  {
    var d := ld.date;
    var w := (ld.weekday + 1) % 7;
    if d.day < DaysIn(d.year, d.month) then LocalDay(Date(d.year, d.month, d.day + 1), w)
    else if d.month < 12 then LocalDay(Date(d.year, d.month + 1, 1), w)
    else LocalDay(Date(d.year + 1, 1, 1), w)
  }

  /** The next day is one further on the running count of days. */
  lemma NextDayNumber(ld: LocalDay)
    requires ValidDay(ld)
    ensures DayNumber(NextDay(ld).date) == DayNumber(ld.date) + 1
  {
    var d := ld.date;
    var next := NextDay(ld).date;
    if d.day < DaysIn(d.year, d.month) {
      assert next == Date(d.year, d.month, d.day + 1);
    } else if d.month < 12 {
      assert next == Date(d.year, d.month + 1, 1);
      assert DaysBeforeMonth(d.year, d.month + 1) == DaysBeforeMonth(d.year, d.month) + DaysIn(d.year, d.month);
    } else {
      assert next == Date(d.year + 1, 1, 1);
      YearEnd(d.year);
      YearStep(d.year);
    }
  }

  /** `date.setDate(date.getDate() + n)`: `n` days later, the month and
      year rolling over as needed. */
  function AddDays(ld: LocalDay, n: nat): (r: LocalDay)
    requires ValidDay(ld)
    ensures ValidDay(r)
    ensures r.weekday == (ld.weekday + n) % 7
  {
    if n == 0 then ld
    else
      WeekStep(ld.weekday + n - 1);
      NextDay(AddDays(ld, n - 1))
  }

  /** `n` days later is `n` further on the running count of days. */
  lemma {:induction false} AddDaysNumber(ld: LocalDay, n: nat)
    requires ValidDay(ld)
    ensures DayNumber(AddDays(ld, n).date) == DayNumber(ld.date) + n
  {
    if n > 0 {
      AddDaysNumber(ld, n - 1);
      NextDayNumber(AddDays(ld, n - 1));
    }
  }

  // ---------------------------------------------------------------------------
  // formatICSDate
  // ---------------------------------------------------------------------------

  /** The weekday `getDay()` numbering gives timetable day `dayOfWeek`
      (0 for Monday). The special case for 0 agrees with the general one. */
  function TargetDay(dayOfWeek: nat): (t: nat)
    ensures t == dayOfWeek + 1
  {
    if dayOfWeek == 0 then 1 else dayOfWeek + 1
  }

  /** The weekday `k` days after weekday `current`. */
  function After(current: nat, k: nat): nat {
    (current + k) % 7
  }

  /** `(targetDay - currentDay + 7) % 7`. The operand is positive here, so
      JavaScript's remainder and Dafny's agree. The result is the distance
      to the first day on or after the current one with the target's
      weekday. */
  function DaysToAdd(current: nat, target: nat): (n: nat)
    requires current < 7 && 1 <= target
    ensures n < 7
    ensures After(current, n) == target % 7
    ensures forall k :: 0 <= k < n ==> After(current, k) != target % 7
  {
    (target - current + 7) % 7
  }

  /** The day and time `formatICSDate` lands on: the first day on or after
      `base` with the wanted weekday, then `setHours(hour, minute, 0, 0)`,
      which carries whole days out of the hours. */
  function EventDay(base: LocalDay, dayOfWeek: nat, hour: nat, minute: nat): (r: LocalDay)
    requires ValidDay(base)
    ensures ValidDay(r)
    ensures hour < 24 && minute < 60 ==> r.weekday == (dayOfWeek + 1) % 7
  {
    AddDays(base, DaysToAdd(base.weekday, TargetDay(dayOfWeek)) + Carry(hour, minute))
  }

  /** The whole days `setHours(hour, minute)` carries past midnight. */
  function Carry(hour: nat, minute: nat): (c: nat)
    ensures hour < 24 && minute < 60 ==> c == 0
  {
    if hour < 24 && minute < 60 then ClockTime(hour, minute); 0
    else (hour * 60 + minute) / 1440
  }

  /** The hour `getHours()` reads after `setHours(hour, minute)`. */
  function ClockHour(hour: nat, minute: nat): (h: nat)
    ensures hour < 24 && minute < 60 ==> h == hour
  {
    if hour < 24 && minute < 60 then ClockTime(hour, minute); hour
    else ((hour * 60 + minute) % 1440) / 60
  }

  /** The minute `getMinutes()` reads after `setHours(hour, minute)`. */
  function ClockMinute(hour: nat, minute: nat): (m: nat)
    ensures minute < 60 ==> m == minute
  {
    if minute < 60 then minute else (hour * 60 + minute) % 60
  }

  /** `String(n).padStart(2, '0')`. */
  function Pad2(n: nat): string {
    PadStart2(NatToString(n))
  }

  /** `${year}${month}${day}T${hours}${minutes}00`. */
  function Stamp(date: Date, hours: nat, minutes: nat): string {
    NatToString(date.year) + Pad2(date.month) + Pad2(date.day) + "T" + Pad2(hours) + Pad2(minutes) + "00"
  }

  /** `formatICSDate(baseDate, dayOfWeek, hour, minute)`. */
  function FormatIcsDate(base: LocalDay, dayOfWeek: nat, hour: nat, minute: nat): string
    requires ValidDay(base)
  {
    Stamp(EventDay(base, dayOfWeek, hour, minute).date, ClockHour(hour, minute), ClockMinute(hour, minute))
  }

  /** A DATE-TIME value in the local ("floating") form of section 3.3.5 of
      RFC 5545, read back: eight date digits, `T`, six time digits, no
      time-zone suffix. The seconds must be `00` as written here. */
  function ParseStamp(s: string): Option<(Date, nat, nat)> {
    if |s| == 15 && s[8] == 'T' && AllDigits(s[..8]) && AllDigits(s[9..]) && s[13..] == "00" then
      Some((Date(DigitsValue(s[..4]), DigitsValue(s[4..6]), DigitsValue(s[6..8])),
            DigitsValue(s[9..11]), DigitsValue(s[11..13])))
    else None
  }

  lemma {:induction false} NumeralLength(n: nat, k: nat)
    requires Pow10(k) <= n < Pow10(k + 1)
    ensures |NatToString(n)| == k + 1
  {
    if k > 0 {
      NumeralLength(n / 10, k - 1);
    }
  }

  lemma Pad2Digits(n: nat)
    requires n < 100
    ensures |Pad2(n)| == 2 && AllDigits(Pad2(n)) && DigitsValue(Pad2(n)) == n
  {
    var p := Pad2(n);
    if n < 10 {
      assert p == ['0', DigitChar(n)];
      assert p[..1] == ['0'];
      assert DigitsValue(p[..1]) == 10 * DigitsValue([]) + DigitValue('0');
    } else {
      NumeralLength(n, 1);
      NatToStringRoundTrip(n);
    }
  }

  lemma YearDigits(y: nat)
    requires 1000 <= y <= 9999
    ensures |NatToString(y)| == 4 && DigitsValue(NatToString(y)) == y
  {
    NumeralLength(y, 3);
    NatToStringRoundTrip(y);
  }

  lemma {:induction false} SevenParts(a: string, b: string, c: string, d: string, e: string, f: string)
    requires |a| == 4 && |b| == 2 && |c| == 2 && |d| == 2 && |e| == 2
    requires AllDigits(a) && AllDigits(b) && AllDigits(c) && AllDigits(d) && AllDigits(e)
    ensures var s := a + b + c + "T" + d + e + f;
      s[..4] == a && s[4..6] == b && s[6..8] == c && s[8] == 'T' &&
      s[9..11] == d && s[11..13] == e && s[13..] == f &&
      s[..8] == a + b + c && s[9..] == d + e + f
  {
  }

  lemma AllDigitsConcat(a: string, b: string)
    requires AllDigits(a) && AllDigits(b)
    ensures AllDigits(a + b)
  {
    assert forall i :: 0 <= i < |a + b| ==> (a + b)[i] == if i < |a| then a[i] else b[i - |a|];
  }

  /** A formatted stamp of a four-digit year reads back as the date, hour
      and minute it was made from. */
  lemma StampRoundTrip(date: Date, hours: nat, minutes: nat)
    requires 1000 <= date.year <= 9999 && date.month < 100 && date.day < 100
    requires hours < 100 && minutes < 100
    ensures ParseStamp(Stamp(date, hours, minutes)) == Some((date, hours, minutes))
  {
    YearDigits(date.year);
    Pad2Digits(date.month);
    Pad2Digits(date.day);
    Pad2Digits(hours);
    Pad2Digits(minutes);
    var y, mo, d, h, mi := NatToString(date.year), Pad2(date.month), Pad2(date.day), Pad2(hours), Pad2(minutes);
    SevenParts(y, mo, d, h, mi, "00");
    AllDigitsConcat(y, mo);
    AllDigitsConcat(y + mo, d);
    AllDigitsConcat(h, mi);
    TwoZeros();
    AllDigitsConcat(h + mi, "00");
  }

  lemma TwoZeros()
    ensures AllDigits("00")
  {
    assert "00"[0] == '0' && "00"[1] == '0';
  }

  /** The stamp of an event within one day of its start: the first date on
      or after `base` whose weekday is timetable day `dayOfWeek`, at the
      requested hour and minute. */
  lemma FormatIcsDateMeaning(base: LocalDay, dayOfWeek: nat, hour: nat, minute: nat)
    requires ValidDay(base) && 1000 <= EventDay(base, dayOfWeek, hour, minute).date.year <= 9999
    requires hour < 24 && minute < 60
    ensures var ev := EventDay(base, dayOfWeek, hour, minute);
      && ParseStamp(FormatIcsDate(base, dayOfWeek, hour, minute)) == Some((ev.date, hour, minute))
      && ev.weekday == (dayOfWeek + 1) % 7
      && 0 <= DayNumber(ev.date) - DayNumber(base.date) < 7
  {
    var ev := EventDay(base, dayOfWeek, hour, minute);
    StampRoundTrip(ev.date, hour, minute);
    AddDaysNumber(base, DaysToAdd(base.weekday, TargetDay(dayOfWeek)));
  }

  lemma ClockTime(hour: nat, minute: nat)
    requires hour < 24 && minute < 60
    ensures var total := hour * 60 + minute;
      total < 1440 && (total % 1440) / 60 == hour && total % 60 == minute
  {
  }

  /** `new Date('2025-02-03')` in a time zone at or east of UTC: Monday,
      3 February 2025. */
  const SemesterStart: LocalDay := LocalDay(Date(2025, 2, 3), 1)

  /** With that start, timetable day `d` of the first week is 3 + `d`
      February 2025. */
  lemma SemesterDays(d: nat, hour: nat)
    requires d < 5 && hour < 24
    ensures EventDay(SemesterStart, d, hour, 40).date == Date(2025, 2, 3 + d)
  {
    assert DaysToAdd(1, d + 1) == d;
    assert Carry(hour, 40) == 0;
    assert EventDay(SemesterStart, d, hour, 40) == AddDays(SemesterStart, d);
    FebruaryDays(d);
  }

  lemma {:induction false} FebruaryDays(n: nat)
    requires n < 5
    ensures AddDays(SemesterStart, n).date == Date(2025, 2, 3 + n)
  {
    if n > 0 {
      FebruaryDays(n - 1);
      var prev := AddDays(SemesterStart, n - 1);
      assert !IsLeap(2025);
      assert prev.date.day < DaysIn(2025, 2);
      assert AddDays(SemesterStart, n) == NextDay(prev);
    }
  }

  // ---------------------------------------------------------------------------
  // Events
  // ---------------------------------------------------------------------------

  /** The hours of one timetable row holding `id`, in increasing order. */
  function HoursOf(row: seq<int>, id: int): (hs: seq<nat>)
    ensures forall i :: 0 <= i < |hs| ==> hs[i] < |row| && row[hs[i]] == id
    ensures forall h :: 0 <= h < |row| && row[h] == id ==> h in hs
    ensures forall i, j :: 0 <= i < j < |hs| ==> hs[i] < hs[j]
  {
    if |row| == 0 then []
    else
      var init := row[..|row| - 1];
      assert forall h :: 0 <= h < |init| ==> init[h] == row[h];
      HoursOf(init, id) + (if row[|row| - 1] == id then [|row| - 1] else [])
  }

  /** `Math.min(...hours)`. */
  function MinOf(xs: seq<nat>): (m: nat)
    requires |xs| > 0
    ensures m in xs && forall i :: 0 <= i < |xs| ==> m <= xs[i]
  {
    if |xs| == 1 then xs[0]
    else
      var m := MinOf(xs[1..]);
      assert forall i :: 1 <= i < |xs| ==> xs[i] == xs[1..][i - 1];
      if xs[0] <= m then xs[0] else m
  }

  /** `Math.max(...hours)`. */
  function MaxOf(xs: seq<nat>): (m: nat)
    requires |xs| > 0
    ensures m in xs && forall i :: 0 <= i < |xs| ==> xs[i] <= m
  {
    if |xs| == 1 then xs[0]
    else
      var m := MaxOf(xs[1..]);
      assert forall i :: 1 <= i < |xs| ==> xs[i] == xs[1..][i - 1];
      if xs[0] >= m then xs[0] else m
  }

  /** One VEVENT: a lesson on one timetable day, from its start hour to its
      end hour (both at minute 40). */
  datatype Event = Event(lesson: Lesson, day: nat, startHour: nat, endHour: nat)

  /** The event of `lesson` on day `d`, if the lesson holds any cell that
      day: from the earliest cell's hour + 8 to the latest cell's hour + 9. */
  function DayEvent(lesson: Lesson, row: seq<int>, d: nat): (r: Option<Event>)
    ensures r.Some? ==> r.value.day == d && r.value.lesson == lesson
  {
    var hours := HoursOf(row, lesson.id);
    if hours == [] then None
    else Some(Event(lesson, d, MinOf(hours) + 8, MaxOf(hours) + 9))
  }

  /** The values present in a sequence of optional events, in order. */
  function Present(opts: seq<Option<Event>>): seq<Event> {
    if |opts| == 0 then []
    else
      var last := opts[|opts| - 1];
      Present(opts[..|opts| - 1]) + (if last.Some? then [last.value] else [])
  }

  lemma {:induction false} PresentMember(opts: seq<Option<Event>>, ev: Event)
    ensures ev in Present(opts) <==> Some(ev) in opts
  {
    if |opts| > 0 {
      var init := opts[..|opts| - 1];
      var last := opts[|opts| - 1];
      PresentMember(init, ev);
      assert opts == init + [last];
      assert Some(ev) in opts <==> Some(ev) in init || last == Some(ev);
    }
  }

  /** When the `i`-th option is an event of day `i`, the present events
      come in increasing order of day. */
  lemma {:induction false} PresentAscending(opts: seq<Option<Event>>)
    requires forall i :: 0 <= i < |opts| && opts[i].Some? ==> opts[i].value.day == i
    ensures forall i :: 0 <= i < |Present(opts)| ==> Present(opts)[i].day < |opts|
    ensures forall i, j :: 0 <= i < j < |Present(opts)| ==> Present(opts)[i].day < Present(opts)[j].day
  {
    if |opts| > 0 {
      var init := opts[..|opts| - 1];
      assert forall i :: 0 <= i < |init| ==> init[i] == opts[i];
      PresentAscending(init);
    }
  }

  /** Each timetable day's event for `lesson`, if any. */
  function DayOptions(lesson: Lesson, matrix: seq<seq<int>>): (opts: seq<Option<Event>>)
    ensures |opts| == |matrix|
    ensures forall d :: 0 <= d < |matrix| ==> opts[d] == DayEvent(lesson, matrix[d], d)
  {
    seq(|matrix|, d requires 0 <= d < |matrix| => DayEvent(lesson, matrix[d], d))
  }

  /** The lesson's events day by day. The grouping object's keys are array
      indices, which JavaScript enumerates in increasing order. */
  function LessonEvents(lesson: Lesson, matrix: seq<seq<int>>): seq<Event> {
    Present(DayOptions(lesson, matrix))
  }

  /** The lesson's events come one per day at most, in increasing order of
      day. */
  lemma LessonEventsAscending(lesson: Lesson, matrix: seq<seq<int>>)
    ensures var evs := LessonEvents(lesson, matrix);
      forall i, j :: 0 <= i < j < |evs| ==> evs[i].day < evs[j].day
  {
    PresentAscending(DayOptions(lesson, matrix));
  }

  /** An event of the lesson that falls on day `d` is that day's event. */
  lemma EventOfDay(lesson: Lesson, matrix: seq<seq<int>>, d: nat, ev: Event)
    requires d < |matrix|
    ensures ev in LessonEvents(lesson, matrix) && ev.day == d <==>
      DayEvent(lesson, matrix[d], d) == Some(ev) && ev.day == d
  {
    var opts := DayOptions(lesson, matrix);
    PresentMember(opts, ev);
    if ev.day == d && Some(ev) in opts {
      var i :| 0 <= i < |opts| && opts[i] == Some(ev);
      assert i == d;
    }
  }

  /** A lesson has an event on day `d` exactly when it holds a cell that
      day. */
  lemma LessonEventExists(lesson: Lesson, matrix: seq<seq<int>>, d: nat)
    requires d < |matrix|
    ensures (exists ev :: ev in LessonEvents(lesson, matrix) && ev.day == d) <==>
      (exists h :: 0 <= h < |matrix[d]| && matrix[d][h] == lesson.id)
  {
    var hours := HoursOf(matrix[d], lesson.id);
    if hours != [] {
      var ev := DayEvent(lesson, matrix[d], d).value;
      EventOfDay(lesson, matrix, d, ev);
      assert matrix[d][hours[0]] == lesson.id;
    } else {
      forall ev | ev in LessonEvents(lesson, matrix)
        ensures ev.day != d
      {
        EventOfDay(lesson, matrix, d, ev);
      }
      forall h | 0 <= h < |matrix[d]|
        ensures matrix[d][h] != lesson.id
      {
        assert h !in hours;
      }
    }
  }

  /** The event starts at the hour of the lesson's first cell that day and
      ends an hour after its last, so separate blocks on one day become one
      event spanning both and everything between. */
  lemma LessonEventSpan(lesson: Lesson, matrix: seq<seq<int>>, d: nat, ev: Event)
    requires d < |matrix|
    requires ev in LessonEvents(lesson, matrix) && ev.day == d
    ensures ev.lesson == lesson
    ensures 8 <= ev.startHour < |matrix[d]| + 8 && matrix[d][ev.startHour - 8] == lesson.id
    ensures 9 <= ev.endHour < |matrix[d]| + 9 && matrix[d][ev.endHour - 9] == lesson.id
    ensures forall h :: 0 <= h < |matrix[d]| && matrix[d][h] == lesson.id ==>
      ev.startHour <= h + 8 && h + 9 <= ev.endHour
  {
    EventOfDay(lesson, matrix, d, ev);
    var hours := HoursOf(matrix[d], lesson.id);
    var lo := MinOf(hours);
    var hi := MaxOf(hours);
    assert lo in hours && hi in hours;
    forall h | 0 <= h < |matrix[d]| && matrix[d][h] == lesson.id
      ensures lo <= h <= hi
    {
      assert h in hours;
      var k :| 0 <= k < |hours| && hours[k] == h;
    }
  }

  /** `schedule.lessons.forEach(...)`: every lesson's events, lessons in
      order. */
  function AllEvents(lessons: seq<Lesson>, matrix: seq<seq<int>>): seq<Event> {
    if |lessons| == 0 then []
    else AllEvents(lessons[..|lessons| - 1], matrix) + LessonEvents(lessons[|lessons| - 1], matrix)
  }

  // ---------------------------------------------------------------------------
  // The iCalendar text
  // ---------------------------------------------------------------------------

  const CalendarHeader: seq<string> := [
    "BEGIN:VCALENDAR",
    "VERSION:2.0",
    "PRODID:-//Özyeğin University//Schedule Builder//EN",
    "CALSCALE:GREGORIAN",
    "METHOD:PUBLISH",
    "X-WR-CALNAME:My OZU Schedule",
    "X-WR-TIMEZONE:Europe/Istanbul"
  ]

  const CalendarEnd: string := "END:VCALENDAR"

  /** `daysMap[day]`: the BYDAY code of section 3.3.10 of RFC 5545 for
      timetable days 0 to 4, `undefined` past them. */
  function ByDay(d: nat): string {
    if d < 5 then ["MO", "TU", "WE", "TH", "FR"][d] else "undefined"
  }

  /** The RFC 5545 weekday code of a `getDay()` weekday. */
  function WeekdayCode(w: nat): string
    requires w < 7
  {
    ["SU", "MO", "TU", "WE", "TH", "FR", "SA"][w]
  }

  /** The recurrence rule names the weekday the event's first occurrence
      falls on, as section 3.3.10 of RFC 5545 expects of DTSTART and
      BYDAY. */
  lemma RRuleAgreesWithStart(base: LocalDay, d: nat, hour: nat)
    requires ValidDay(base) && d < 5 && hour < 24
    ensures ByDay(d) == WeekdayCode(EventDay(base, d, hour, 40).weekday)
  {
    SmallWeekday(d + 1);
    CodesAgree(d);
  }

  lemma SmallWeekday(w: nat)
    requires w < 7
    ensures w % 7 == w
  {
  }

  lemma CodesAgree(d: nat)
    requires d < 5
    ensures ByDay(d) == WeekdayCode(d + 1)
  {
    if d == 0 {
      assert ByDay(0) == "MO" == WeekdayCode(1);
    } else if d == 1 {
      assert ByDay(1) == "TU" == WeekdayCode(2);
    } else if d == 2 {
      assert ByDay(2) == "WE" == WeekdayCode(3);
    } else if d == 3 {
      assert ByDay(3) == "TH" == WeekdayCode(4);
    } else {
      assert ByDay(4) == "FR" == WeekdayCode(5);
    }
  }

  /** The content lines of one VEVENT. How a credits value is printed is a
      parameter. */
  function EventLines(ev: Event, base: LocalDay, showCredits: int -> string): (lines: seq<string>)
    requires ValidDay(base)
    ensures |lines| == 8 && lines[0] == "BEGIN:VEVENT" && lines[7] == "END:VEVENT"
  {
    [ "BEGIN:VEVENT",
      "DTSTART:" + FormatIcsDate(base, ev.day, ev.startHour, 40),
      "DTEND:" + FormatIcsDate(base, ev.day, ev.endHour, 40),
      "SUMMARY:" + ev.lesson.courseName + " - " + ev.lesson.sectionName,
      "DESCRIPTION:Lecturer: " + ev.lesson.lecturer + "\\nCredits: " + showCredits(ev.lesson.credits),
      "LOCATION:Özyeğin University",
      "RRULE:FREQ=WEEKLY;BYDAY=" + ByDay(ev.day) + ";COUNT=14",
      "END:VEVENT" ]
  }

  /** The content lines of each event, one block per event. */
  function EventBlocks(evs: seq<Event>, base: LocalDay, showCredits: int -> string): (blocks: seq<seq<string>>)
    requires ValidDay(base)
    ensures |blocks| == |evs|
    ensures forall i :: 0 <= i < |evs| ==> blocks[i] == EventLines(evs[i], base, showCredits)
  {
    seq(|evs|, i requires 0 <= i < |evs| => EventLines(evs[i], base, showCredits))
  }

  /** The blocks appended to the text one after another, each block's lines
      joined by CRLF and followed by one more, as the export builds it. */
  function BlocksText(blocks: seq<seq<string>>): string {
    if |blocks| == 0 then ""
    else BlocksText(blocks[..|blocks| - 1]) + Join(blocks[|blocks| - 1], CrLf) + CrLf
  }

  /** The blocks' lines, block after block. */
  function Flatten(blocks: seq<seq<string>>): seq<string> {
    if |blocks| == 0 then [] else Flatten(blocks[..|blocks| - 1]) + blocks[|blocks| - 1]
  }

  /** The text `exportAsICS` puts in the downloaded file. */
  function ExportAsIcs(view: ScheduleView, base: LocalDay, showCredits: int -> string): string
    requires ValidDay(base)
  {
    Join(CalendarHeader, CrLf) + CrLf + BlocksText(EventBlocks(AllEvents(view.lessons, view.matrix), base, showCredits)) + CalendarEnd
  }

  /** The lines of the calendar: the header, each event's block, the end. */
  function CalendarLines(view: ScheduleView, base: LocalDay, showCredits: int -> string): seq<string>
    requires ValidDay(base)
  {
    CalendarHeader + Flatten(EventBlocks(AllEvents(view.lessons, view.matrix), base, showCredits)) + [CalendarEnd]
  }

  lemma {:induction false} JoinConcat(a: seq<string>, b: seq<string>, sep: string)
    requires |a| > 0 && |b| > 0
    ensures Join(a + b, sep) == Join(a, sep) + sep + Join(b, sep)
    decreases |a|
  {
    if |a| == 1 {
      assert (a + b)[1..] == b;
    } else {
      assert (a + b)[1..] == a[1..] + b;
      JoinConcat(a[1..], b, sep);
    }
  }

  /** Appending each block followed by CRLF to a header already ended by
      CRLF is joining the header and all the blocks' lines by CRLF. */
  lemma {:induction false} BlocksTextLines(header: seq<string>, blocks: seq<seq<string>>)
    requires |header| > 0
    requires forall i :: 0 <= i < |blocks| ==> |blocks[i]| > 0
    ensures Join(header, CrLf) + CrLf + BlocksText(blocks) == Join(header + Flatten(blocks), CrLf) + CrLf
  {
    if |blocks| == 0 {
      assert header + Flatten(blocks) == header;
    } else {
      var init := blocks[..|blocks| - 1];
      var last := blocks[|blocks| - 1];
      var before := header + Flatten(init);
      var text := BlocksText(init);
      BlocksTextLines(header, init);
      assert Join(header, CrLf) + CrLf + text == Join(before, CrLf) + CrLf;
      assert BlocksText(blocks) == text + Join(last, CrLf) + CrLf;
      assert Join(header, CrLf) + CrLf + BlocksText(blocks)
        == (Join(header, CrLf) + CrLf + text) + Join(last, CrLf) + CrLf;
      JoinConcat(before, last, CrLf);
      ConcatAssoc(header, Flatten(init), last);
    }
  }

  /** Blocks of eight lines each put block `i`'s first and last lines at
      `8 * i` and `8 * i + 7`. */
  lemma {:induction false} FlattenPositions(blocks: seq<seq<string>>)
    requires forall i :: 0 <= i < |blocks| ==> |blocks[i]| == 8
    ensures |Flatten(blocks)| == 8 * |blocks|
    ensures forall i :: 0 <= i < |blocks| ==>
      Flatten(blocks)[8 * i] == blocks[i][0] && Flatten(blocks)[8 * i + 7] == blocks[i][7]
  {
    if |blocks| > 0 {
      var init := blocks[..|blocks| - 1];
      FlattenPositions(init);
      assert Flatten(blocks) == Flatten(init) + blocks[|blocks| - 1];
    }
  }

  /** Framing eight-line blocks between a header and a closing line puts
      block `i`'s first and last lines at `|header| + 8 * i` and
      `|header| + 8 * i + 7`. */
  lemma FramedPositions(header: seq<string>, blocks: seq<seq<string>>, close: string)
    requires forall i :: 0 <= i < |blocks| ==> |blocks[i]| == 8
    ensures var lines := header + Flatten(blocks) + [close];
      && |lines| == |header| + 8 * |blocks| + 1
      && lines[|lines| - 1] == close
      && forall i :: 0 <= i < |blocks| ==>
           lines[|header| + 8 * i] == blocks[i][0] && lines[|header| + 8 * i + 7] == blocks[i][7]
  {
    var mid := Flatten(blocks);
    FlattenPositions(blocks);
    var lines := header + mid + [close];
    assert forall i :: 0 <= i < |mid| ==> lines[|header| + i] == mid[i];
  }

  /** The export is its content lines, each ended by CRLF except the last,
      as section 3.1 of RFC 5545 delimits content lines. */
  lemma ExportIsLines(view: ScheduleView, base: LocalDay, showCredits: int -> string)
    requires ValidDay(base)
    ensures ExportAsIcs(view, base, showCredits) == Join(CalendarLines(view, base, showCredits), CrLf)
  {
    var blocks := EventBlocks(AllEvents(view.lessons, view.matrix), base, showCredits);
    BlocksTextLines(CalendarHeader, blocks);
    JoinConcat(CalendarHeader + Flatten(blocks), [CalendarEnd], CrLf);
  }

  /** The header, eight-line event blocks and the closing line. */
  lemma FramedCalendar(blocks: seq<seq<string>>)
    requires forall i :: 0 <= i < |blocks| ==>
      |blocks[i]| == 8 && blocks[i][0] == "BEGIN:VEVENT" && blocks[i][7] == "END:VEVENT"
    ensures var lines := CalendarHeader + Flatten(blocks) + [CalendarEnd];
      && |lines| == 8 + 8 * |blocks|
      && lines[0] == "BEGIN:VCALENDAR" && lines[|lines| - 1] == "END:VCALENDAR"
      && forall i :: 0 <= i < |blocks| ==> lines[7 + 8 * i] == "BEGIN:VEVENT" && lines[14 + 8 * i] == "END:VEVENT"
  {
    FramedPositions(CalendarHeader, blocks, CalendarEnd);
    var lines := CalendarHeader + Flatten(blocks) + [CalendarEnd];
    assert |CalendarHeader| == 7 && CalendarHeader[0] == "BEGIN:VCALENDAR";
    forall i | 0 <= i < |blocks|
      ensures lines[7 + 8 * i] == "BEGIN:VEVENT" && lines[14 + 8 * i] == "END:VEVENT"
    {
      assert lines[|CalendarHeader| + 8 * i] == blocks[i][0];
      assert lines[|CalendarHeader| + 8 * i + 7] == blocks[i][7];
    }
  }

  /** The calendar's lines: the seven header lines, eight lines per event
      from `BEGIN:VEVENT` to `END:VEVENT`, and `END:VCALENDAR`. */
  lemma CalendarLinesShape(view: ScheduleView, base: LocalDay, showCredits: int -> string)
    requires ValidDay(base)
    ensures var lines := CalendarLines(view, base, showCredits);
      var n := |AllEvents(view.lessons, view.matrix)|;
      && |lines| == 8 + 8 * n
      && lines[0] == "BEGIN:VCALENDAR" && lines[|lines| - 1] == "END:VCALENDAR"
      && forall i :: 0 <= i < n ==> lines[7 + 8 * i] == "BEGIN:VEVENT" && lines[14 + 8 * i] == "END:VEVENT"
  {
    var blocks := EventBlocks(AllEvents(view.lessons, view.matrix), base, showCredits);
    FramedCalendar(blocks);
  }
}
