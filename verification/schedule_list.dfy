/** The pure parts of the schedule list view: the morning-load orderings,
    the schedule on show, the section letter of a lesson, and the labels of
    the timetable's rows and columns. */
module ScheduleList {
  import opened Wrappers
  import opened Strings
  import opened Seqs
  import opened Masks
  import opened Generator
  import opened Sorting
  import opened Translations

  // ---------------------------------------------------------------------------
  // Morning load
  // ---------------------------------------------------------------------------

  /** `day[k] !== 0`: a cell past the end of the row reads `undefined`,
      which is not 0 either. */
  predicate Busy(day: seq<int>, k: nat) {
    k >= |day| || day[k] != 0
  }

  /** One day's share of `getMorningLoad`: 4 for a class at 8:40, 3 at
      9:40, 2 at 10:40 and 1 at 11:40. */
  function DayLoad(day: seq<int>): (r: nat)
    ensures r <= 10
    ensures r == 10 <==> forall k :: 0 <= k < 4 ==> Busy(day, k)
    ensures r == 0 <==> forall k :: 0 <= k < 4 ==> !Busy(day, k)
  {
    (if Busy(day, 0) then 4 else 0) + (if Busy(day, 1) then 3 else 0)
    + (if Busy(day, 2) then 2 else 0) + (if Busy(day, 3) then 1 else 0)
  }

  /** A class one hour earlier in the morning weighs one more. */
  lemma EarlierWeighsMore(day: seq<int>, k: nat, id: int)
    requires k + 1 < 4 && k + 1 < |day|
    requires day[k] == 0 && day[k + 1] != 0 && id != 0
    ensures DayLoad(day[k := id][k + 1 := 0]) == DayLoad(day) + 1
  {
  }

  /** Only the first four hours count, and a day busy in every morning hour
      another day is busy in weighs at least as much. */
  lemma DayLoadMonotone(a: seq<int>, b: seq<int>)
    requires forall k :: 0 <= k < 4 && Busy(a, k) ==> Busy(b, k)
    ensures DayLoad(a) <= DayLoad(b)
    ensures DayLoad(a) == DayLoad(b) <==> forall k :: 0 <= k < 4 ==> (Busy(a, k) <==> Busy(b, k))
  {
    assert Busy(a, 0) ==> Busy(b, 0);
    assert Busy(a, 1) ==> Busy(b, 1);
    assert Busy(a, 2) ==> Busy(b, 2);
    assert Busy(a, 3) ==> Busy(b, 3);
  }

  /** `getMorningLoad(matrix)`: the day loads added up. */
  function MorningLoad(matrix: seq<seq<int>>): (r: nat)
    ensures r <= 10 * |matrix|
    ensures r == 0 <==> forall d :: 0 <= d < |matrix| ==> DayLoad(matrix[d]) == 0
  {
    if |matrix| == 0 then 0
    else MorningLoad(matrix[..|matrix| - 1]) + DayLoad(matrix[|matrix| - 1])
  }

  lemma {:induction false} MorningLoadAppend(a: seq<seq<int>>, b: seq<seq<int>>)
    ensures MorningLoad(a + b) == MorningLoad(a) + MorningLoad(b)
    decreases |b|
  {
    if |b| == 0 {
      assert a + b == a;
    } else {
      assert (a + b)[..|a + b| - 1] == a + b[..|b| - 1];
      MorningLoadAppend(a, b[..|b| - 1]);
    }
  }

  /** The empty grid has load 0, and a 5-day grid at most 50. */
  lemma MorningLoadBounds(matrix: seq<seq<int>>)
    requires IsGrid(matrix)
    ensures MorningLoad(matrix) <= 50
    ensures MorningLoad(EmptyGrid) == 0
  {
    assert forall d :: 0 <= d < |EmptyGrid| ==> EmptyGrid[d] == EmptyRow;
    assert DayLoad(EmptyRow) == 0;
  }

  function ScheduleLoad(s: ScheduleView): int {
    MorningLoad(s.matrix)
  }

  // ---------------------------------------------------------------------------
  // Sorting
  // ---------------------------------------------------------------------------

  /** The comparator of every other mode: it returns 0 for any pair. */
  function NoPreference(s: ScheduleView): int {
    0
  }

  /** `getSortedSchedules()`: the server's order for `'default'`; otherwise
      a stable sort of a copy, by descending morning load for
      `'morningDesc'`, ascending for `'morningAsc'`, and with a comparator
      that ties every pair for any other mode. */
  function SortedSchedules(schedules: seq<ScheduleView>, sortBy: string): (r: seq<ScheduleView>)
    ensures multiset(r) == multiset(schedules)
    ensures sortBy == "morningDesc" ==>
      Ordered(r, ScheduleLoad, true) && forall v :: WithKey(r, ScheduleLoad, v) == WithKey(schedules, ScheduleLoad, v)
    ensures sortBy == "morningAsc" ==>
      Ordered(r, ScheduleLoad, false) && forall v :: WithKey(r, ScheduleLoad, v) == WithKey(schedules, ScheduleLoad, v)
    ensures sortBy != "morningDesc" && sortBy != "morningAsc" ==> r == schedules
  {
    if sortBy == "default" then schedules
    else if sortBy == "morningDesc" || sortBy == "morningAsc" then
      var desc := sortBy == "morningDesc";
      assert forall v :: WithKey(Sort(schedules, ScheduleLoad, desc), ScheduleLoad, v) == WithKey(schedules, ScheduleLoad, v) by {
        forall v ensures WithKey(Sort(schedules, ScheduleLoad, desc), ScheduleLoad, v) == WithKey(schedules, ScheduleLoad, v) {
          SortStable(schedules, ScheduleLoad, desc, v);
        }
      }
      Sort(schedules, ScheduleLoad, desc)
    else
      SortTies(schedules, NoPreference, false);
      Sort(schedules, NoPreference, false)
  }

  /** Any stable sort by morning load gives the same list: the order is
      fixed by the loads and the server's order of ties. */
  lemma MorningOrderUnique(schedules: seq<ScheduleView>, sortBy: string, other: seq<ScheduleView>)
    requires sortBy == "morningDesc" || sortBy == "morningAsc"
    requires Ordered(other, ScheduleLoad, sortBy == "morningDesc")
    requires forall v :: WithKey(other, ScheduleLoad, v) == WithKey(schedules, ScheduleLoad, v)
    ensures other == SortedSchedules(schedules, sortBy)
  {
    SortUnique(other, SortedSchedules(schedules, sortBy), ScheduleLoad, sortBy == "morningDesc");
  }

  /** The two morning orders are each other's reverse up to ties: the first
      schedule of one has the greatest load, of the other the least. */
  lemma MorningExtremes(schedules: seq<ScheduleView>, i: nat)
    requires i < |schedules|
    ensures ScheduleLoad(SortedSchedules(schedules, "morningDesc")[0]) >= ScheduleLoad(schedules[i])
    ensures ScheduleLoad(SortedSchedules(schedules, "morningAsc")[0]) <= ScheduleLoad(schedules[i])
  {
    var desc := SortedSchedules(schedules, "morningDesc");
    var asc := SortedSchedules(schedules, "morningAsc");
    assert schedules[i] in multiset(desc);
    assert schedules[i] in multiset(asc);
    var j :| 0 <= j < |desc| && desc[j] == schedules[i];
    var k :| 0 <= k < |asc| && asc[k] == schedules[i];
    if j > 0 {
      assert InOrder(ScheduleLoad(desc[0]), ScheduleLoad(desc[j]), true);
    }
    if k > 0 {
      assert InOrder(ScheduleLoad(asc[0]), ScheduleLoad(asc[k]), false);
    }
  }

  /** `sortedSchedules[selectedSchedule] || sortedSchedules[0]`; `None` is
      `undefined`, when there is no schedule at all. */
  function CurrentSchedule(sorted: seq<ScheduleView>, selected: int): (r: Option<ScheduleView>)
    ensures r.None? <==> |sorted| == 0
    ensures r.Some? ==> r.value in sorted
    ensures 0 <= selected < |sorted| ==> r == Some(sorted[selected])
    ensures !(0 <= selected < |sorted|) && |sorted| > 0 ==> r == Some(sorted[0])
  {
    if 0 <= selected < |sorted| then Some(sorted[selected])
    else if |sorted| > 0 then Some(sorted[0])
    else None
  }

  // ---------------------------------------------------------------------------
  // Labels
  // ---------------------------------------------------------------------------

  /** `lesson.section_name.replace(lesson.course_name, '')`. */
  function SectionLetter(sectionName: string, courseName: string): (r: string)
    ensures forall suffix :: sectionName == courseName + suffix ==> r == suffix
    ensures !Contains(sectionName, courseName) ==> r == sectionName
    ensures Contains(sectionName, courseName) ==> |r| == |sectionName| - |courseName|
  {
    if |courseName| > 0 && IsAt(sectionName, courseName, 0) then
      assert IndexOf(sectionName, courseName) == Some(0);
      RemoveFirst(sectionName, courseName)
    else
      RemoveFirst(sectionName, courseName)
  }

  /** `${h}:40` for h = 8 .. 20. */
  function HourLabels(): (r: seq<string>)
    ensures |r| == HoursPerDay
    ensures forall h :: 0 <= h < |r| ==> EndsWith(r[h], ":40")
  {
    seq(13, h requires 0 <= h < 13 => NatToString(h + 8) + ":40")
  }

  /** Row `h` of the timetable is labelled with the clock hour `h + 8`. */
  lemma HourLabelRead(h: nat)
    requires h < HoursPerDay
    ensures var text := HourLabels()[h];
      DigitsValue(text[..|text| - 3]) == h + 8
  {
    var text := HourLabels()[h];
    assert text == NatToString(h + 8) + ":40";
    assert text[..|text| - 3] == NatToString(h + 8);
    NatToStringRoundTrip(h + 8);
  }

  /** No two rows share a label. */
  lemma HourLabelsDistinct()
    ensures NoDups(HourLabels())
  {
    forall h, g | 0 <= h < g < |HourLabels()| ensures HourLabels()[h] != HourLabels()[g] {
      HourLabelRead(h);
      HourLabelRead(g);
    }
  }

  /** The column headers: Turkish day names for `'tr'`, English otherwise. */
  function DayHeaders(language: string): (r: seq<string>)
    ensures |r| == |Days|
  {
    if language == "tr" then Days else EnglishDays
  }

  /** The headers agree with `getDayName` for the two table languages. */
  lemma DayHeadersAgree(language: string, d: nat)
    requires language == "tr" || language == "en"
    requires d < |Days|
    ensures DayHeaders(language)[d] == GetDayName(Days[d], language)
  {
  }
}
