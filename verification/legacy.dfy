/** The first version of the server: `/search` groups the matching rows by
    course name, and a session list of `{ course_name, credits }` entries
    is edited by `/add-course` and `/remove-course` and totalled by
    `/get-total-credit-lesson`. Unlike the later routes, an absent session
    list is observable here, so it is an `Option`. Credits are integer
    hundredths. */
module Legacy {
  import opened Wrappers
  import opened Http
  import opened Assoc
  import opened Seqs

  // ---------------------------------------------------------------------------
  // POST /search
  // ---------------------------------------------------------------------------

  /** One row of the search query: `course_name, credits, section_name`. */
  datatype SearchRow = SearchRow(courseName: string, credits: int, sectionName: string)

  /** `{ credits, sections }` of a course in `courseMap`. */
  datatype Group = Group(credits: int, sections: seq<string>)

  /** `courseMap[name].credits`: set by the first row named `name`, kept
      by the later ones. */
  function FirstCredits(rows: seq<SearchRow>, name: string): Option<int> {
    if |rows| == 0 then None
    else
      var before := FirstCredits(rows[..|rows| - 1], name);
      if before.Some? then before
      else if rows[|rows| - 1].courseName == name then Some(rows[|rows| - 1].credits)
      else None
  }

  /** No credits exactly when no row has the name. */
  lemma {:induction false} FirstCreditsNone(rows: seq<SearchRow>, name: string)
    ensures FirstCredits(rows, name).None? <==> forall j :: 0 <= j < |rows| ==> rows[j].courseName != name
  {
    if |rows| > 0 {
      var init := rows[..|rows| - 1];
      FirstCreditsNone(init, name);
      assert forall j :: 0 <= j < |init| ==> rows[j] == init[j];
    }
  }

  /** Otherwise they are the credits of the first row that has it. */
  lemma {:induction false} FirstCreditsFirst(rows: seq<SearchRow>, name: string, i: nat)
    requires i < |rows| && rows[i].courseName == name
    requires forall j :: 0 <= j < i ==> rows[j].courseName != name
    ensures FirstCredits(rows, name) == Some(rows[i].credits)
  {
    var init := rows[..|rows| - 1];
    assert forall j :: 0 <= j < |init| ==> rows[j] == init[j];
    if i == |rows| - 1 {
      FirstCreditsNone(init, name);
    } else {
      FirstCreditsFirst(init, name, i);
    }
  }

  /** The section names of the rows named `name`, in row order. */
  function SectionsNamed(rows: seq<SearchRow>, name: string): (secs: seq<string>)
    ensures |secs| <= |rows|
  {
    if |rows| == 0 then []
    else
      var last := rows[|rows| - 1];
      SectionsNamed(rows[..|rows| - 1], name) + (if last.courseName == name then [last.sectionName] else [])
  }

  /** One turn of `rows.forEach`: a new name gets a group with this row's
      credits; the row's section joins its name's group. */
  function AddSearchRow(m: Assoc<string, Group>, row: SearchRow): Assoc<string, Group> {
    match Get(m, row.courseName)
    case Some(g) => Put(m, row.courseName, Group(g.credits, g.sections + [row.sectionName]))
    case None => Put(m, row.courseName, Group(row.credits, [row.sectionName]))
  }

  /** The course names of the rows, in row order. */
  function CourseNames(rows: seq<SearchRow>): (names: seq<string>)
    ensures |names| == |rows|
    ensures forall i :: 0 <= i < |rows| ==> names[i] == rows[i].courseName
  {
    seq(|rows|, i requires 0 <= i < |rows| => rows[i].courseName)
  }

  /** A row adds its name as the last key when the name is new, and keeps
      the keys otherwise. */
  lemma AddSearchRowKeys(m: Assoc<string, Group>, row: SearchRow)
    ensures Keys(AddSearchRow(m, row)) ==
      if row.courseName in Keys(m) then Keys(m) else Keys(m) + [row.courseName]
  {
    match Get(m, row.courseName)
    case Some(g) => KeysPut(m, row.courseName, Group(g.credits, g.sections + [row.sectionName]));
    case None => KeysPut(m, row.courseName, Group(row.credits, [row.sectionName]));
  }

  /** `courseMap` after all rows. A `Map` iterates in insertion order, so
      `Array.from(courseMap.values())` lists one group per course name, in
      the order of the names' first rows. */
  function GroupSearch(rows: seq<SearchRow>): (m: Assoc<string, Group>)
    ensures UniqueKeys(m)
    ensures Keys(m) == Dedup(CourseNames(rows))
  {
    if |rows| == 0 then []
    else
      var init := rows[..|rows| - 1];
      var last := rows[|rows| - 1];
      var m := GroupSearch(init);
      AddSearchRowKeys(m, last);
      assert CourseNames(rows)[..|rows| - 1] == CourseNames(init);
      assert last.courseName in CourseNames(init) <==> last.courseName in Dedup(CourseNames(init));
      AddSearchRow(m, last)
  }

  /** The group a name should have after `rows`: the first such row's
      credits and every such row's section, or none if no row has it. */
  function Expected(rows: seq<SearchRow>, name: string): Option<Group> {
    match FirstCredits(rows, name)
    case None => None
    case Some(c) => Some(Group(c, SectionsNamed(rows, name)))
  }

  lemma AddSearchRowGet(m: Assoc<string, Group>, row: SearchRow, name: string)
    ensures Get(AddSearchRow(m, row), name) ==
      if row.courseName != name then Get(m, name)
      else match Get(m, name)
        case Some(g) => Some(Group(g.credits, g.sections + [row.sectionName]))
        case None => Some(Group(row.credits, [row.sectionName]))
  {
    match Get(m, row.courseName)
    case Some(g) => GetPut(m, row.courseName, Group(g.credits, g.sections + [row.sectionName]), name);
    case None => GetPut(m, row.courseName, Group(row.credits, [row.sectionName]), name);
  }

  lemma ExpectedSnoc(rows: seq<SearchRow>, name: string)
    requires |rows| > 0
    ensures var init := rows[..|rows| - 1];
      var row := rows[|rows| - 1];
      Expected(rows, name) ==
        if row.courseName != name then Expected(init, name)
        else match Expected(init, name)
          case Some(g) => Some(Group(g.credits, g.sections + [row.sectionName]))
          case None => Some(Group(row.credits, [row.sectionName]))
  {
    var init := rows[..|rows| - 1];
    var row := rows[|rows| - 1];
    if row.courseName != name {
      assert FirstCredits(rows, name) == FirstCredits(init, name);
      assert SectionsNamed(rows, name) == SectionsNamed(init, name) + [] == SectionsNamed(init, name);
    } else {
      assert SectionsNamed(rows, name) == SectionsNamed(init, name) + [row.sectionName];
      if FirstCredits(init, name).None? {
        SectionsNamedAbsent(init, name);
        assert SectionsNamed(rows, name) == [row.sectionName];
        assert FirstCredits(rows, name) == Some(row.credits);
      } else {
        assert FirstCredits(rows, name) == FirstCredits(init, name);
      }
    }
  }

  /** The search groups: one per course name in the rows, with the first
      such row's credits and the section names of all of them in row
      order; no other names. */
  lemma {:induction false} GroupSearchGet(rows: seq<SearchRow>, name: string)
    ensures Get(GroupSearch(rows), name) == Expected(rows, name)
  {
    if |rows| > 0 {
      var init := rows[..|rows| - 1];
      GroupSearchGet(init, name);
      AddSearchRowGet(GroupSearch(init), rows[|rows| - 1], name);
      ExpectedSnoc(rows, name);
    }
  }

  lemma {:induction false} SectionsNamedAbsent(rows: seq<SearchRow>, name: string)
    requires FirstCredits(rows, name).None?
    ensures SectionsNamed(rows, name) == []
  {
    if |rows| > 0 {
        SectionsNamedAbsent(rows[..|rows| - 1], name);
    }
  }

  /** `POST /search`: a missing name is 400; otherwise the groups of the rows
      the `LIKE` query returns, which is the parameter `query`. */
  function Search(courseName: Option<string>, query: string -> seq<SearchRow>): (r: (nat, seq<(string, Group)>))
    ensures courseName.None? || courseName == Some("") ==> r == (BadRequest, [])
    ensures courseName.Some? && courseName != Some("") ==> r.0 == Ok && r.1 == GroupSearch(query(courseName.value))
  {
    if courseName.None? || courseName.value == "" then (BadRequest, [])
    else (Ok, GroupSearch(query(courseName.value)))
  }

  // ---------------------------------------------------------------------------
  // The session list
  // ---------------------------------------------------------------------------

  datatype Entry = Entry(courseName: string, credits: int)

  predicate Named(courses: seq<Entry>, name: string) {
    exists i :: 0 <= i < |courses| && courses[i].courseName == name
  }

  /** `/add-course`: name and credits required; a name already listed is
      refused; otherwise the entry is appended, creating the list if need
      be. */
  function AddCourse(courses: Option<seq<Entry>>, courseName: Option<string>, credits: Option<int>): (r: (nat, Option<seq<Entry>>))
    ensures r.0 == Ok <==>
      courseName.Some? && courseName.value != "" && credits.Some? && !Named(courses.GetOr([]), courseName.value)
    ensures r.0 == Ok ==> r.1 == Some(courses.GetOr([]) + [Entry(courseName.value, credits.value)])
    ensures r.0 != Ok ==> r == (BadRequest, courses)
  {
    if courseName.None? || courseName.value == "" || credits.None? then (BadRequest, courses)
    else if Named(courses.GetOr([]), courseName.value) then (BadRequest, courses)
    else (Ok, Some(courses.GetOr([]) + [Entry(courseName.value, credits.value)]))
  }

  /** `findIndex(course => course.course_name === name)`. */
  function IndexOfName(courses: seq<Entry>, name: string): (r: Option<nat>)
    ensures r.Some? ==> r.value < |courses| && courses[r.value].courseName == name
    ensures r.Some? ==> forall j :: 0 <= j < r.value ==> courses[j].courseName != name
    ensures r.None? <==> !Named(courses, name)
    decreases |courses|
  {
    if |courses| == 0 then None
    else if courses[0].courseName == name then Some(0)
    else match IndexOfName(courses[1..], name)
      case Some(i) =>
        assert courses[i + 1] == courses[1..][i];
        assert forall j :: 0 < j < i + 1 ==> courses[j] == courses[1..][j - 1];
        Some(i + 1)
      case None =>
        assert forall j :: 0 < j < |courses| ==> courses[j] == courses[1..][j - 1];
        None
  }

  /** `/remove-course`: name and credits required, the list must exist and
      list the name; only the first entry with that name goes. */
  function RemoveCourse(courses: Option<seq<Entry>>, courseName: Option<string>, credits: Option<int>): (r: (nat, Option<seq<Entry>>))
    ensures r.0 == Ok <==>
      courseName.Some? && courseName.value != "" && credits.Some? && courses.Some? && Named(courses.value, courseName.value)
    ensures r.0 == Ok ==>
      var i := IndexOfName(courses.value, courseName.value).value;
      r.1 == Some(courses.value[..i] + courses.value[i + 1..])
    ensures r.0 != Ok ==> r == (BadRequest, courses)
  {
    if courseName.None? || courseName.value == "" || credits.None? then (BadRequest, courses)
    else if courses.None? then (BadRequest, courses)
    else match IndexOfName(courses.value, courseName.value)
      case None => (BadRequest, courses)
      case Some(i) => (Ok, Some(courses.value[..i] + courses.value[i + 1..]))
  }

  /** `reduce((acc, course) => acc + course.credits, 0)`. */
  function SumCredits(courses: seq<Entry>): int {
    if |courses| == 0 then 0 else SumCredits(courses[..|courses| - 1]) + courses[|courses| - 1].credits
  }

  /** `/get-total-credit-lesson`: zeros without a list, else the credit sum
      and the number of entries. */
  function Totals(courses: Option<seq<Entry>>): (t: (int, nat))
    ensures courses.None? ==> t == (0, 0)
    ensures courses.Some? ==> t.0 == SumCredits(courses.value) && t.1 == |courses.value|
  {
    match courses
    case None => (0, 0)
    case Some(cs) => (SumCredits(cs), |cs|)
  }

  /** A successful add raises the credit total by the new entry's credits
      and the lesson count by one. */
  lemma AddRaisesTotals(courses: Option<seq<Entry>>, courseName: Option<string>, credits: Option<int>)
    requires AddCourse(courses, courseName, credits).0 == Ok
    ensures Totals(AddCourse(courses, courseName, credits).1) ==
      (Totals(courses).0 + credits.value, Totals(courses).1 + 1)
  {
    var cs := courses.GetOr([]);
    var cs' := cs + [Entry(courseName.value, credits.value)];
    assert AddCourse(courses, courseName, credits).1 == Some(cs');
    assert cs'[..|cs'| - 1] == cs;
    assert SumCredits(cs') == SumCredits(cs) + credits.value;
  }

  /** The first entry with a name not listed before is the appended one. */
  lemma IndexOfNameSnoc(cs: seq<Entry>, e: Entry)
    requires !Named(cs, e.courseName)
    ensures IndexOfName(cs + [e], e.courseName) == Some(|cs|)
  {
    var cs' := cs + [e];
    assert cs'[|cs|] == e;
    forall j | 0 <= j < |cs| ensures cs'[j].courseName != e.courseName {
      assert cs'[j] == cs[j];
    }
  }

  /** Removing a course right after adding it restores the list (an absent
      list comes back empty) and the totals. */
  lemma RemoveUndoesAdd(courses: Option<seq<Entry>>, courseName: Option<string>, credits: Option<int>)
    requires AddCourse(courses, courseName, credits).0 == Ok
    ensures var after := RemoveCourse(AddCourse(courses, courseName, credits).1, courseName, credits);
      after == (Ok, Some(courses.GetOr([]))) && Totals(after.1) == Totals(courses)
  {
    var cs := courses.GetOr([]);
    var cs' := cs + [Entry(courseName.value, credits.value)];
    assert AddCourse(courses, courseName, credits).1 == Some(cs');
    IndexOfNameSnoc(cs, Entry(courseName.value, credits.value));
    assert Named(cs', courseName.value);
    assert cs'[..|cs|] == cs && cs'[|cs| + 1..] == [];
    assert cs'[..|cs|] + cs'[|cs| + 1..] == cs;
    assert RemoveCourse(Some(cs'), courseName, credits) == (Ok, Some(cs));
    assert Totals(Some(cs)) == Totals(courses) by {
      if courses.None? {
        assert cs == [];
      }
    }
  }

  /** No name is listed twice in a session list built by these routes. */
  predicate NamesUnique(courses: seq<Entry>) {
    forall i, j :: 0 <= i < j < |courses| ==> courses[i].courseName != courses[j].courseName
  }

  lemma AddKeepsNamesUnique(courses: Option<seq<Entry>>, courseName: Option<string>, credits: Option<int>)
    requires NamesUnique(courses.GetOr([]))
    ensures NamesUnique(AddCourse(courses, courseName, credits).1.GetOr([]))
  {
    var r := AddCourse(courses, courseName, credits);
    if r.0 == Ok {
      var cs := courses.GetOr([]);
      var cs' := r.1.value;
      forall i, j | 0 <= i < j < |cs'| ensures cs'[i].courseName != cs'[j].courseName {
        if j == |cs| {
          assert cs'[i] == cs[i];
        } else {
          assert cs'[i] == cs[i] && cs'[j] == cs[j];
        }
      }
    }
  }
}
