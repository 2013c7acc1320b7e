/** The first draft of the schedule generator's input stage: the basket's
    whole courses and picked sections folded into one list per course
    (`regulate`), and the rows of the course-times query grouped into a
    table of sections, each with its lecturer, credits, requirement flag and
    a flat `[start, end, start, end, …]` list of hours per day
    (`course_to_sections`). */
module Regulate {
  import opened Wrappers
  import opened Strings
  import opened Seqs
  import opened Assoc

  /** The marker of a course taken whole, with every section. */
  const All: string := "all"

  /** A picked section of the basket. */
  datatype Pick = Pick(course: string, section: string)

  /** What `regulate` returns: a list per course, `["all"]` for a whole
      course, the picked section names otherwise. */
  type Picks = Assoc<string, seq<string>>

  // ---------------------------------------------------------------------------
  // regulate
  // ---------------------------------------------------------------------------

  /** The first loop: every course set to `["all"]`, a repeated course set
      again. */
  function MarkWhole(courses: seq<string>): (m: Picks)
    ensures UniqueKeys(m)
  {
    if |courses| == 0 then []
    else Put(MarkWhole(courses[..|courses| - 1]), courses[|courses| - 1], [All])
  }

  /** One step of the second loop: the section pushed onto its course's
      list, or a new one-element list. */
  function AddPick(m: Picks, p: Pick): Picks {
    match Get(m, p.course)
    case Some(list) => Put(m, p.course, list + [p.section])
    case None => Put(m, p.course, [p.section])
  }

  /** The second loop. */
  function AddPicks(m: Picks, sections: seq<Pick>): (r: Picks)
    ensures UniqueKeys(m) ==> UniqueKeys(r)
  {
    if |sections| == 0 then m
    else AddPick(AddPicks(m, sections[..|sections| - 1]), sections[|sections| - 1])
  }

  /** `regulate(courses, sections)`. */
  function Regulate(courses: seq<string>, sections: seq<Pick>): (r: Picks)
    ensures UniqueKeys(r)
  {
    AddPicks(MarkWhole(courses), sections)
  }

  /** The course of each pick, in order. */
  function PickCourses(sections: seq<Pick>): (cs: seq<string>)
    ensures |cs| == |sections|
    ensures forall i :: 0 <= i < |sections| ==> cs[i] == sections[i].course
  {
    seq(|sections|, i requires 0 <= i < |sections| => sections[i].course)
  }

  /** The sections picked for `course`, in the order they were picked. */
  function PicksOf(sections: seq<Pick>, course: string): (r: seq<string>)
    ensures |r| <= |sections|
  {
    if |sections| == 0 then []
    else
      var last := sections[|sections| - 1];
      PicksOf(sections[..|sections| - 1], course) + (if last.course == course then [last.section] else [])
  }

  lemma PickCoursesSnoc(sections: seq<Pick>)
    requires |sections| > 0
    ensures PickCourses(sections) ==
      PickCourses(sections[..|sections| - 1]) + [sections[|sections| - 1].course]
  {
  }

  lemma {:induction false} PicksOfEmpty(sections: seq<Pick>, course: string)
    ensures PicksOf(sections, course) == [] <==> course !in PickCourses(sections)
  {
    if |sections| > 0 {
      var init := sections[..|sections| - 1];
      PicksOfEmpty(init, course);
      assert PickCourses(sections) == PickCourses(init) + [sections[|sections| - 1].course];
    }
  }

  lemma {:induction false} MarkWholeGet(courses: seq<string>, k: string)
    ensures Get(MarkWhole(courses), k) == if k in courses then Some([All]) else None
  {
    if |courses| > 0 {
      var init := courses[..|courses| - 1];
      MarkWholeGet(init, k);
      GetPut(MarkWhole(init), courses[|courses| - 1], [All], k);
      assert courses == init + [courses[|courses| - 1]];
    }
  }

  lemma {:induction false} MarkWholeKeys(courses: seq<string>)
    ensures Keys(MarkWhole(courses)) == Dedup(courses)
  {
    if |courses| > 0 {
      var init := courses[..|courses| - 1];
      var last := courses[|courses| - 1];
      MarkWholeKeys(init);
      KeysPut(MarkWhole(init), last, [All]);
      assert last in Dedup(init) <==> last in init;
    }
  }

  lemma {:induction false} AddPicksGet(m: Picks, sections: seq<Pick>, k: string)
    ensures Get(AddPicks(m, sections), k) ==
      match Get(m, k)
      case Some(list) => Some(list + PicksOf(sections, k))
      case None => if PicksOf(sections, k) == [] then None else Some(PicksOf(sections, k))
  {
    if |sections| > 0 {
      var init := sections[..|sections| - 1];
      var last := sections[|sections| - 1];
      var mid := AddPicks(m, init);
      AddPicksGet(m, init, k);
      var p := PicksOf(init, k);
      assert PicksOf(sections, k) == p + (if last.course == k then [last.section] else []);
      assert AddPicks(m, sections) == AddPick(mid, last);
      match Get(mid, last.course) {
        case Some(list) => GetPut(mid, last.course, list + [last.section], k);
        case None => GetPut(mid, last.course, [last.section], k);
      }
      if last.course != k {
        assert p + [] == p;
      } else if Get(m, k).Some? {
        var l0 := Get(m, k).value;
        assert (l0 + p) + [last.section] == l0 + (p + [last.section]);
      } else if p == [] {
        assert p + [last.section] == [last.section];
      }
    } else if Get(m, k).Some? {
      assert Get(m, k).value + [] == Get(m, k).value;
    }
  }

  lemma {:induction false} AddPicksKeys(m: Picks, xs: seq<string>, sections: seq<Pick>)
    requires Keys(m) == Dedup(xs)
    ensures Keys(AddPicks(m, sections)) == Dedup(xs + PickCourses(sections))
  {
    if |sections| == 0 {
      assert xs + PickCourses(sections) == xs;
    } else {
      var init := sections[..|sections| - 1];
      var last := sections[|sections| - 1];
      var mid := AddPicks(m, init);
      var ys := xs + PickCourses(init);
      AddPicksKeys(m, xs, init);
      PickCoursesSnoc(sections);
      assert xs + PickCourses(sections) == ys + [last.course];
      assert last.course in Dedup(ys) <==> last.course in ys;
      match Get(mid, last.course)
      case Some(list) =>
        KeysPut(mid, last.course, list + [last.section]);
      case None =>
        KeysPut(mid, last.course, [last.section]);
    }
  }

  /** The keys of `regulate`'s result are the whole courses and the courses
      of the picks, each once, in the order each was first inserted. */
  lemma RegulateKeys(courses: seq<string>, sections: seq<Pick>)
    ensures Keys(Regulate(courses, sections)) == Dedup(courses + PickCourses(sections))
  {
    MarkWholeKeys(courses);
    AddPicksKeys(MarkWhole(courses), courses, sections);
  }

  /** A whole course's list is `"all"` followed by the sections picked for
      it; any other course's list is its picks in order; a course neither
      whole nor picked is absent. */
  lemma RegulateGet(courses: seq<string>, sections: seq<Pick>, k: string)
    ensures Get(Regulate(courses, sections), k) ==
      if k in courses then Some([All] + PicksOf(sections, k))
      else if PicksOf(sections, k) == [] then None
      else Some(PicksOf(sections, k))
  {
    MarkWholeGet(courses, k);
    AddPicksGet(MarkWhole(courses), sections, k);
  }

  // ---------------------------------------------------------------------------
  // Whole or filtered
  // ---------------------------------------------------------------------------

  /** `regulated[course] == "all"`: the loose comparison of a list with a
      string joins the list with commas. */
  predicate IsWhole(list: seq<string>) {
    Join(list, ",") == All
  }

  /** The comparison holds for the one-element list `["all"]` and for no
      other list. */
  lemma WholeIffAll(list: seq<string>)
    ensures IsWhole(list) <==> list == [All]
  {
    if |list| >= 2 {
      var j := Join(list, ",");
      assert j == list[0] + "," + Join(list[1..], ",");
      assert j[|list[0]|] == ',';
      assert ',' !in All;
    } else if |list| == 0 {
      assert Join(list, ",") == "";
    }
  }

  /** A course is taken whole exactly when it was added whole and none of
      its sections was picked, or it was not added whole and its one pick is
      a section literally named `all`. A whole course with a picked section
      therefore goes through the filter. */
  lemma WholeAfterRegulate(courses: seq<string>, sections: seq<Pick>, k: string)
    requires HasKey(Regulate(courses, sections), k)
    ensures IsWhole(Get(Regulate(courses, sections), k).value) <==>
      (k in courses && PicksOf(sections, k) == []) ||
      (k !in courses && PicksOf(sections, k) == [All])
  {
    RegulateGet(courses, sections, k);
    var list := Get(Regulate(courses, sections), k).value;
    WholeIffAll(list);
    if k in courses {
      assert list == [All] + PicksOf(sections, k);
      if PicksOf(sections, k) != [] {
        assert |list| >= 2;
      }
    }
  }

  // ---------------------------------------------------------------------------
  // course_to_sections
  // ---------------------------------------------------------------------------

  /** A row of the course-times query: the section, its lecturer, credits
      and requirement flag, and one session's day, start hour and end
      hour. */
  datatype Row = Row(section: string, lecturer: string, credits: int, required: int,
                     day: string, start: string, end: string)

  /** A section's entry: the fields of its first row and the hours of every
      session, per day. */
  datatype Section = Section(lecturer: string, credits: int, required: int,
                             times: Assoc<string, seq<string>>)

  type Sections = Assoc<string, Section>
  type Table = Assoc<string, Sections>

  /** `m[x].push(n)` repeated: `n` copies of `x` after `xs`. */
  function Repeat<T>(x: T, n: nat): (r: seq<T>)
    ensures |r| == n
    ensures forall i :: 0 <= i < n ==> r[i] == x
  {
    seq(n, _ => x)
  }

  /** The rows a course that is not whole contributes, in order: the inner
      loop over the course's list visits a row once for every pick equal to
      its section name. */
  function Visits(picks: multiset<string>, rows: seq<Row>): seq<Row> {
    if |rows| == 0 then []
    else
      var last := rows[|rows| - 1];
      Visits(picks, rows[..|rows| - 1]) + Repeat(last, picks[last.section])
  }

  /** The rows a course contributes, in order. A whole course keeps every
      row; otherwise each row is visited as often as it is picked. */
  function Kept(list: seq<string>, rows: seq<Row>): (r: seq<Row>)
    ensures IsWhole(list) ==> r == rows
  {
    if IsWhole(list) then rows else Visits(multiset(list), rows)
  }

  lemma MultisetRepeat<T>(x: T, n: nat, y: T)
    ensures multiset(Repeat(x, n))[y] == if x == y then n else 0
    decreases n
  {
    if n > 0 {
      assert Repeat(x, n) == Repeat(x, n - 1) + [x];
      MultisetRepeat(x, n - 1, y);
    }
  }

  lemma {:induction false} VisitsCount(picks: multiset<string>, rows: seq<Row>, row: Row)
    ensures multiset(Visits(picks, rows))[row] == multiset(rows)[row] * picks[row.section]
  {
    if |rows| > 0 {
      var init := rows[..|rows| - 1];
      var last := rows[|rows| - 1];
      var rep := Repeat(last, picks[last.section]);
      VisitsCount(picks, init, row);
      MultisetRepeat(last, picks[last.section], row);
      assert rows == init + [last];
      CountSnoc(init, last, row);
      CountConcat(Visits(picks, init), rep, row);
      OneMore(multiset(rows)[row], multiset(init)[row], picks[row.section], last == row);
    }
  }

  lemma CountSnoc<T>(xs: seq<T>, x: T, y: T)
    ensures multiset(xs + [x])[y] == multiset(xs)[y] + (if x == y then 1 else 0)
  {
    assert multiset(xs + [x]) == multiset(xs) + multiset{x};
  }

  lemma CountConcat<T>(a: seq<T>, b: seq<T>, y: T)
    ensures multiset(a + b)[y] == multiset(a)[y] + multiset(b)[y]
  {
    assert multiset(a + b) == multiset(a) + multiset(b);
  }

  /** Outside a whole course, a row of section `s` is visited as often as
      `s` occurs in the course's list: never when `s` was not picked, twice
      when it was picked twice. */
  lemma KeptCount(list: seq<string>, rows: seq<Row>, row: Row)
    ensures multiset(Kept(list, rows))[row] ==
      if IsWhole(list) then multiset(rows)[row] else multiset(rows)[row] * multiset(list)[row.section]
  {
    if !IsWhole(list) {
      VisitsCount(multiset(list), rows, row);
    }
  }

  lemma OneMore(total: nat, before: nat, c: nat, add: bool)
    requires total == before + (if add then 1 else 0)
    ensures total * c == before * c + (if add then c else 0)
  {
  }

  /** The hours of one session pushed onto its day's list. */
  function PushTimes(times: Assoc<string, seq<string>>, row: Row): Assoc<string, seq<string>> {
    match Get(times, row.day)
    case Some(hours) => Put(times, row.day, hours + [row.start, row.end])
    case None => Put(times, row.day, [row.start, row.end])
  }

  /** One visit of a row: the section created from this row's fields if it
      is new, then the session's hours pushed. */
  function Place(secs: Sections, row: Row): Sections {
    match Get(secs, row.section)
    case Some(sec) => Put(secs, row.section, sec.(times := PushTimes(sec.times, row)))
    case None => Put(secs, row.section, Section(row.lecturer, row.credits, row.required, PushTimes([], row)))
  }

  /** Every visit of a course's rows, in order. */
  function PlaceAll(secs: Sections, rows: seq<Row>): (r: Sections)
    ensures UniqueKeys(secs) ==> UniqueKeys(r)
  {
    if |rows| == 0 then secs
    else Place(PlaceAll(secs, rows[..|rows| - 1]), rows[|rows| - 1])
  }

  /** `course_to_sections(regulated, all_courses)`: the table the function
      builds and prints, or `None` where it throws. A course with no list in
      `regulated` is not whole, so its rows are iterated against
      `undefined`, which throws as soon as there is a row. A course none of
      whose rows is kept gets no entry. */
  function CourseToSections(regulated: Picks, allCourses: Assoc<string, seq<Row>>): (r: Option<Table>)
    ensures r.None? <==>
      (exists i :: 0 <= i < |allCourses| && allCourses[i].1 != [] && !HasKey(regulated, allCourses[i].0))
  {
    if |allCourses| == 0 then Some([])
    else
      var init := allCourses[..|allCourses| - 1];
      var (course, rows) := allCourses[|allCourses| - 1];
      assert forall i :: 0 <= i < |init| ==> init[i] == allCourses[i];
      match CourseToSections(regulated, init)
      case None => None
      case Some(t) =>
        match Get(regulated, course)
        case None => if rows == [] then Some(t) else None
        case Some(list) =>
          var kept := Kept(list, rows);
          if kept == [] then Some(t)
          else Some(Put(t, course, PlaceAll(Get(t, course).GetOr([]), kept)))
  }

  // ---------------------------------------------------------------------------
  // What the table holds
  // ---------------------------------------------------------------------------

  /** The hours recorded for section `s` on day `d` (none when absent). */
  function TimesOf(secs: Sections, s: string, d: string): seq<string> {
    match Get(secs, s)
    case Some(sec) => Get(sec.times, d).GetOr([])
    case None => []
  }

  /** The rows of section `s` on day `d`. */
  function SessionsOn(rows: seq<Row>, s: string, d: string): seq<Row> {
    Filter(rows, (r: Row) => r.section == s && r.day == d)
  }

  /** The start and end hour of each row, in order, in one flat list. */
  function Flat(rows: seq<Row>): (r: seq<string>)
    ensures |r| == 2 * |rows|
    ensures forall j :: 0 <= j < |rows| ==> r[2 * j] == rows[j].start && r[2 * j + 1] == rows[j].end
  {
    if |rows| == 0 then []
    else
      var init := rows[..|rows| - 1];
      var r := Flat(init) + [rows[|rows| - 1].start, rows[|rows| - 1].end];
      assert forall j :: 0 <= j < |init| ==> init[j] == rows[j];
      r
  }

  lemma FlatSnoc(rows: seq<Row>, row: Row)
    ensures Flat(rows + [row]) == Flat(rows) + [row.start, row.end]
  {
    assert (rows + [row])[..|rows|] == rows;
  }

  lemma PlaceGet(secs: Sections, row: Row, s: string)
    ensures Get(Place(secs, row), s) ==
      if s != row.section then Get(secs, s)
      else match Get(secs, s)
        case Some(sec) => Some(sec.(times := PushTimes(sec.times, row)))
        case None => Some(Section(row.lecturer, row.credits, row.required, PushTimes([], row)))
  {
    match Get(secs, row.section)
    case Some(sec) => GetPut(secs, row.section, sec.(times := PushTimes(sec.times, row)), s);
    case None => GetPut(secs, row.section, Section(row.lecturer, row.credits, row.required, PushTimes([], row)), s);
  }

  lemma PushTimesGet(times: Assoc<string, seq<string>>, row: Row, d: string)
    ensures Get(PushTimes(times, row), d).GetOr([]) ==
      Get(times, d).GetOr([]) + (if d == row.day then [row.start, row.end] else [])
  {
    match Get(times, row.day)
    case Some(hours) => GetPut(times, row.day, hours + [row.start, row.end], d);
    case None => GetPut(times, row.day, [row.start, row.end], d);
  }

  /** A section appears once some visited row names it. */
  lemma {:induction false} PlaceAllKeys(secs: Sections, rows: seq<Row>, s: string)
    ensures HasKey(PlaceAll(secs, rows), s) <==>
      HasKey(secs, s) || exists i :: 0 <= i < |rows| && rows[i].section == s
  {
    if |rows| > 0 {
      var init := rows[..|rows| - 1];
      PlaceAllKeys(secs, init, s);
      PlaceGet(PlaceAll(secs, init), rows[|rows| - 1], s);
      assert forall i :: 0 <= i < |init| ==> init[i] == rows[i];
    }
  }

  /** Each visited row adds its start and end hour, in order, to its
      section's list for its day: the list is the flat start/end sequence
      of that section's sessions on that day. */
  lemma {:induction false} PlaceAllTimes(secs: Sections, rows: seq<Row>, s: string, d: string)
    ensures TimesOf(PlaceAll(secs, rows), s, d) == TimesOf(secs, s, d) + Flat(SessionsOn(rows, s, d))
  {
    if |rows| == 0 {
      assert SessionsOn(rows, s, d) == [];
      assert TimesOf(secs, s, d) + [] == TimesOf(secs, s, d);
    } else {
      var init := rows[..|rows| - 1];
      var last := rows[|rows| - 1];
      PlaceAllTimes(secs, init, s, d);
      PlaceTimes(PlaceAll(secs, init), last, s, d);
      var a := TimesOf(secs, s, d);
      var b := Flat(SessionsOn(init, s, d));
      assert TimesOf(PlaceAll(secs, rows), s, d) ==
        (a + b) + (if last.section == s && last.day == d then [last.start, last.end] else []);
      if last.section == s && last.day == d {
        assert SessionsOn(rows, s, d) == SessionsOn(init, s, d) + [last];
        FlatSnoc(SessionsOn(init, s, d), last);
        ConcatAssoc(a, b, [last.start, last.end]);
      } else {
        assert SessionsOn(rows, s, d) == SessionsOn(init, s, d);
        assert (a + b) + [] == a + b;
      }
    }
  }

  lemma PlaceTimes(secs: Sections, row: Row, s: string, d: string)
    ensures TimesOf(Place(secs, row), s, d) ==
      TimesOf(secs, s, d) + (if row.section == s && row.day == d then [row.start, row.end] else [])
  {
    PlaceGet(secs, row, s);
    if s == row.section {
      match Get(secs, s)
      case Some(sec) => PushTimesGet(sec.times, row, d);
      case None => PushTimesGet([], row, d);
    }
  }

  /** A section's lecturer, credits and requirement flag are those of the
      first row that names it; later rows only add hours. */
  lemma {:induction false} PlaceAllFields(rows: seq<Row>, i: nat)
    requires i < |rows|
    requires forall j :: 0 <= j < i ==> rows[j].section != rows[i].section
    ensures HasKey(PlaceAll([], rows), rows[i].section)
    ensures var sec := Get(PlaceAll([], rows), rows[i].section).value;
      sec.lecturer == rows[i].lecturer && sec.credits == rows[i].credits &&
      sec.required == rows[i].required
  {
    var s := rows[i].section;
    var init := rows[..|rows| - 1];
    var last := rows[|rows| - 1];
    var mid := PlaceAll([], init);
    PlaceGet(mid, last, s);
    if i == |rows| - 1 {
      PlaceAllKeys([], init, s);
      assert forall j :: 0 <= j < |init| ==> init[j] == rows[j];
    } else {
      assert forall j :: 0 <= j < |init| ==> init[j] == rows[j];
      PlaceAllFields(init, i);
    }
  }

  /** For a JavaScript object of courses (distinct keys) that does not
      throw, a course's entry is the table built from its kept rows, and a
      course with no kept rows, or not queried at all, has none. */
  lemma {:induction false} CourseEntry(regulated: Picks, allCourses: Assoc<string, seq<Row>>, c: string)
    requires UniqueKeys(allCourses)
    requires CourseToSections(regulated, allCourses).Some?
    ensures !HasKey(allCourses, c) ==> Get(CourseToSections(regulated, allCourses).value, c) == None
    ensures HasKey(allCourses, c) ==>
      var kept := Kept(Get(regulated, c).GetOr([]), Get(allCourses, c).value);
      Get(CourseToSections(regulated, allCourses).value, c) ==
        if kept == [] then None else Some(PlaceAll([], kept))
  {
    if |allCourses| > 0 {
      var init := allCourses[..|allCourses| - 1];
      var (course, rows) := allCourses[|allCourses| - 1];
      assert forall i :: 0 <= i < |init| ==> init[i] == allCourses[i];
      assert UniqueKeys(init);
      var t := CourseToSections(regulated, init).value;
      CourseEntry(regulated, init, c);
      CourseEntry(regulated, init, course);
      assert !HasKey(init, course);
      GetAppend(init, course, rows, c);
      assert allCourses == init + [(course, rows)];
      if Get(regulated, course).Some? {
        var kept := Kept(Get(regulated, course).value, rows);
        if kept != [] {
          GetPut(t, course, PlaceAll([], kept), c);
        }
      } else {
        assert Kept([], rows) == [] by { WholeIffAll([]); KeptEmptyList(rows); }
      }
    }
  }

  /** An empty list keeps no row. */
  lemma KeptEmptyList(rows: seq<Row>)
    ensures Kept([], rows) == []
  {
    WholeIffAll([]);
    VisitsNothing(rows);
  }

  lemma {:induction false} VisitsNothing(rows: seq<Row>)
    ensures Visits(multiset{}, rows) == []
  {
    if |rows| > 0 {
      VisitsNothing(rows[..|rows| - 1]);
    }
  }
}
