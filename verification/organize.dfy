/** `organizeCourseData`: the rows of the course query (a section joined
    with each of its time slots) grouped into courses and sections, then
    cut down to what the basket asked for. */
module Organize {
  import opened Wrappers
  import opened Assoc
  import opened Masks

  /** One row of the query. The joins are LEFT joins, so a section without
      time slots still gives one row; its NULL slot columns are `""` here,
      which is as falsy as `null`. Credits are already in hundredths. */
  datatype Row = Row(id: int, courseCode: string, courseName: string, sectionName: string,
                     lecturer: string, credits: int, faculty: string,
                     day: string, startTime: string, endTime: string)

  datatype TimeSlot = TimeSlot(day: string, startTime: string, endTime: string)

  datatype Section = Section(id: int, courseCode: string, courseName: string, sectionName: string,
                             lecturer: string, credits: int, faculty: string,
                             timeSlots: seq<TimeSlot>, mask: Mask)

  /** Section name to section, in first-seen order. */
  type Sections = Assoc<string, Section>

  /** Course code to its sections, in first-seen order. */
  type Catalog = Assoc<string, Sections>

  /** One entry of the basket's section list: `{ course, section }`. */
  datatype SectionRef = SectionRef(course: string, section: string)

  /** `addedSections.some(s => s.course === code)`. */
  predicate SectionSpecific(addedSections: seq<SectionRef>, code: string) {
    exists k :: 0 <= k < |addedSections| && addedSections[k].course == code
  }

  predicate HasSlot(row: Row) {
    row.day != "" && row.startTime != "" && row.endTime != ""
  }

  function SlotOf(row: Row): TimeSlot {
    TimeSlot(row.day, row.startTime, row.endTime)
  }

  /** The record made for a section the first time one of its rows is seen. */
  function NewSection(row: Row): Section {
    Section(row.id, row.courseCode, row.courseName, row.sectionName,
            row.lecturer, row.credits, row.faculty, [], NoHours)
  }

  function WithSlot(sec: Section, slot: TimeSlot): Section {
    sec.(timeSlots := sec.timeSlots + [slot],
         mask := AddSlot(sec.mask, slot.day, slot.startTime, slot.endTime))
  }

  /** `rawCourses[code][name]`. */
  function Lookup(cat: Catalog, code: string, name: string): Option<Section> {
    match Get(cat, code)
    case Some(secs) => Get(secs, name)
    case None => None
  }

  /** One turn of the `rows.forEach` loop. */
  function AddRow(raw: Catalog, row: Row): Catalog {
    var secs := Get(raw, row.courseCode).GetOr([]);
    var sec := Get(secs, row.sectionName).GetOr(NewSection(row));
    var sec' := if HasSlot(row) then WithSlot(sec, SlotOf(row)) else sec;
    Put(raw, row.courseCode, Put(secs, row.sectionName, sec'))
  }

  /** `rawCourses`. */
  function GroupRows(rows: seq<Row>): (raw: Catalog)
    ensures UniqueKeys(raw)
    ensures forall i :: 0 <= i < |raw| ==> UniqueKeys(raw[i].1)
  {
    if |rows| == 0 then []
    else
      var raw := GroupRows(rows[..|rows| - 1]);
      var row := rows[|rows| - 1];
      AddRow(raw, row)
  }

  predicate RowOf(row: Row, code: string, name: string) {
    row.courseCode == code && row.sectionName == name
  }

  /** The first row of section `name` of course `code`. */
  function FirstRowOf(rows: seq<Row>, code: string, name: string): (r: Option<Row>)
    ensures r.None? <==> forall i :: 0 <= i < |rows| ==> !RowOf(rows[i], code, name)
    ensures r.Some? ==> exists i :: 0 <= i < |rows| && rows[i] == r.value && RowOf(rows[i], code, name) &&
                                    forall j :: 0 <= j < i ==> !RowOf(rows[j], code, name)
  {
    if |rows| == 0 then None
    else
      match FirstRowOf(rows[..|rows| - 1], code, name)
      case Some(r) => Some(r)
      case None => if RowOf(rows[|rows| - 1], code, name) then Some(rows[|rows| - 1]) else None
  }

  /** The time slots of rows of section `name` of course `code` that carry
      all three slot columns, in row order. */
  function SlotsOf(rows: seq<Row>, code: string, name: string): (slots: seq<TimeSlot>)
    ensures |slots| <= |rows|
    ensures FirstRowOf(rows, code, name).None? ==> slots == []
  {
    if |rows| == 0 then []
    else
      var row := rows[|rows| - 1];
      SlotsOf(rows[..|rows| - 1], code, name)
        + (if RowOf(row, code, name) && HasSlot(row) then [SlotOf(row)] else [])
  }

  /** The mask built from a list of slots. */
  function MaskOf(slots: seq<TimeSlot>): Mask {
    if |slots| == 0 then NoHours
    else
      var s := slots[|slots| - 1];
      AddSlot(MaskOf(slots[..|slots| - 1]), s.day, s.startTime, s.endTime)
  }

  /** Slot `slot` occupies hour `h` of day `d`. */
  predicate Covers(slot: TimeSlot, d: nat, h: nat) {
    var sh := SlotHours(slot.day, slot.startTime, slot.endTime);
    sh.Some? && sh.value.0 == d && h in sh.value.1
  }

  /** The last slot of a list adds its own hours to the mask of the others. */
  lemma MaskOfStep(slots: seq<TimeSlot>, d: nat, h: nat)
    requires |slots| > 0 && d < 5
    ensures h in MaskOf(slots)[d] <==> h in MaskOf(slots[..|slots| - 1])[d] || Covers(slots[|slots| - 1], d, h)
  {
    var last := slots[|slots| - 1];
    AddSlotHours(MaskOf(slots[..|slots| - 1]), last.day, last.startTime, last.endTime, d, h);
  }

  lemma {:induction false} MaskOfCoversSome(slots: seq<TimeSlot>, d: nat, h: nat)
    requires d < 5 && h in MaskOf(slots)[d]
    ensures exists i :: 0 <= i < |slots| && Covers(slots[i], d, h)
  {
    var n := |slots| - 1;
    MaskOfStep(slots, d, h);
    if h in MaskOf(slots[..n])[d] {
      MaskOfCoversSome(slots[..n], d, h);
      var i :| 0 <= i < n && Covers(slots[..n][i], d, h);
      assert slots[..n][i] == slots[i];
    }
  }

  lemma MaskOfLast(slots: seq<TimeSlot>, d: nat, h: nat, i: nat)
    requires i == |slots| - 1 && d < 5 && Covers(slots[i], d, h)
    ensures h in MaskOf(slots)[d]
  {
    MaskOfStep(slots, d, h);
  }

  lemma MaskOfKeeps(slots: seq<TimeSlot>, d: nat, h: nat)
    requires |slots| > 0 && d < 5 && h in MaskOf(slots[..|slots| - 1])[d]
    ensures h in MaskOf(slots)[d]
  {
    MaskOfStep(slots, d, h);
  }

  lemma {:induction false} MaskOfCoversAll(slots: seq<TimeSlot>, d: nat, h: nat, i: nat)
    requires d < 5 && i < |slots| && Covers(slots[i], d, h)
    ensures h in MaskOf(slots)[d]
  {
    var n := |slots| - 1;
    if i < n {
      assert slots[..n][i] == slots[i];
      MaskOfCoversAll(slots[..n], d, h, i);
      MaskOfKeeps(slots, d, h);
    } else {
      MaskOfLast(slots, d, h, i);
    }
  }

  /** A section's mask marks exactly the hours some of its slots cover. */
  lemma MaskOfCovers(slots: seq<TimeSlot>, d: nat, h: nat)
    requires d < 5
    ensures h in MaskOf(slots)[d] <==> exists i :: 0 <= i < |slots| && Covers(slots[i], d, h)
  {
    if h in MaskOf(slots)[d] {
      MaskOfCoversSome(slots, d, h);
    }
    if exists i :: 0 <= i < |slots| && Covers(slots[i], d, h) {
      var i :| 0 <= i < |slots| && Covers(slots[i], d, h);
      MaskOfCoversAll(slots, d, h, i);
    }
  }

  /** One row changes only its own section: it creates the section from its
      own fields if new, and appends its slot when it has one. */
  lemma AddRowLookup(raw: Catalog, row: Row, code: string, name: string)
    ensures Lookup(AddRow(raw, row), code, name) ==
      if RowOf(row, code, name) then
        var sec := Lookup(raw, code, name).GetOr(NewSection(row));
        Some(if HasSlot(row) then WithSlot(sec, SlotOf(row)) else sec)
      else Lookup(raw, code, name)
  {
    var secs := Get(raw, row.courseCode).GetOr([]);
    var sec := Get(secs, row.sectionName).GetOr(NewSection(row));
    var sec' := if HasSlot(row) then WithSlot(sec, SlotOf(row)) else sec;
    GetPut(raw, row.courseCode, Put(secs, row.sectionName, sec'), code);
    if row.courseCode == code {
      GetPut(secs, row.sectionName, sec', name);
      assert Get(secs, name) == Lookup(raw, code, name);
    }
  }

  lemma MaskOfSnoc(slots: seq<TimeSlot>, slot: TimeSlot)
    ensures MaskOf(slots + [slot]) == AddSlot(MaskOf(slots), slot.day, slot.startTime, slot.endTime)
  {
    assert (slots + [slot])[..|slots|] == slots;
  }

  /** The section `rawCourses[code][name]` holds: the fields of its first row,
      every complete slot of its rows in row order, and the mask of those
      slots. A course or section no row names is absent. */
  lemma {:induction false} GroupRowsLookup(rows: seq<Row>, code: string, name: string)
    ensures Lookup(GroupRows(rows), code, name) ==
      match FirstRowOf(rows, code, name)
      case None => None
      case Some(first) =>
        var slots := SlotsOf(rows, code, name);
        Some(NewSection(first).(timeSlots := slots, mask := MaskOf(slots)))
  {
    if |rows| > 0 {
      var init := rows[..|rows| - 1];
      var row := rows[|rows| - 1];
      var raw := GroupRows(init);
      GroupRowsLookup(init, code, name);
      AddRowLookup(raw, row, code, name);
      assert GroupRows(rows) == AddRow(raw, row);
      var slots := SlotsOf(init, code, name);
      if RowOf(row, code, name) {
        var first := FirstRowOf(init, code, name).GetOr(row);
        assert FirstRowOf(rows, code, name) == Some(first);
        assert Lookup(raw, code, name).GetOr(NewSection(row)) ==
          NewSection(first).(timeSlots := slots, mask := MaskOf(slots));
        if HasSlot(row) {
          assert SlotsOf(rows, code, name) == slots + [SlotOf(row)];
          MaskOfSnoc(slots, SlotOf(row));
        } else {
          assert SlotsOf(rows, code, name) == slots;
        }
      } else {
        assert FirstRowOf(rows, code, name) == FirstRowOf(init, code, name);
        assert SlotsOf(rows, code, name) == slots;
      }
    }
  }

  /** One row adds its own course and no other. */
  lemma AddRowHasKey(raw: Catalog, row: Row, code: string)
    ensures HasKey(AddRow(raw, row), code) <==> code == row.courseCode || HasKey(raw, code)
  {
    var secs := Get(raw, row.courseCode).GetOr([]);
    var sec := Get(secs, row.sectionName).GetOr(NewSection(row));
    var sec' := if HasSlot(row) then WithSlot(sec, SlotOf(row)) else sec;
    HasKeyPut(raw, row.courseCode, Put(secs, row.sectionName, sec'), code);
  }

  lemma GroupRowsSnoc(rows: seq<Row>)
    requires |rows| > 0
    ensures GroupRows(rows) == AddRow(GroupRows(rows[..|rows| - 1]), rows[|rows| - 1])
  {
  }

  /** Some row of `rows` is of course `code`. */
  predicate NamesCourse(rows: seq<Row>, code: string) {
    exists i :: 0 <= i < |rows| && rows[i].courseCode == code
  }

  lemma NamesCourseSnoc(rows: seq<Row>, code: string)
    requires |rows| > 0
    ensures NamesCourse(rows, code) <==>
      NamesCourse(rows[..|rows| - 1], code) || rows[|rows| - 1].courseCode == code
  {
    var init := rows[..|rows| - 1];
    if NamesCourse(rows, code) {
      var i :| 0 <= i < |rows| && rows[i].courseCode == code;
      if i < |init| {
        assert init[i].courseCode == code;
      }
    }
    if NamesCourse(init, code) {
      var i :| 0 <= i < |init| && init[i].courseCode == code;
      assert rows[i].courseCode == code;
    }
  }

  /** A course appears in `rawCourses` exactly when some row names it. */
  lemma {:induction false} GroupRowsCourses(rows: seq<Row>, code: string)
    ensures HasKey(GroupRows(rows), code) <==> NamesCourse(rows, code)
  {
    if |rows| > 0 {
      var init := rows[..|rows| - 1];
      GroupRowsCourses(init, code);
      GroupRowsSnoc(rows);
      AddRowHasKey(GroupRows(init), rows[|rows| - 1], code);
      NamesCourseSnoc(rows, code);
    }
  }

  /** `addedSections.filter(s => s.course === code).map(s => s.section)`. */
  function SelectedNames(addedSections: seq<SectionRef>, code: string): (names: seq<string>)
    ensures |names| <= |addedSections|
    ensures forall n :: n in names <==> SectionRef(code, n) in addedSections
  {
    if |addedSections| == 0 then []
    else
      (if addedSections[0].course == code then [addedSections[0].section] else [])
        + SelectedNames(addedSections[1..], code)
  }

  /** `filteredCourses[code]` built from the selected names, in selection
      order, skipping names the course does not have. */
  function PickSections(secs: Sections, names: seq<string>): (r: Sections)
    ensures UniqueKeys(r)
  {
    if |names| == 0 then []
    else
      var acc := PickSections(secs, names[..|names| - 1]);
      var n := names[|names| - 1];
      match Get(secs, n)
      case Some(s) => Put(acc, n, s)
      case None => acc
  }

  /** A picked section is the course's own section, and it is picked exactly
      when it was selected and exists. */
  lemma {:induction false} GetPickSections(secs: Sections, names: seq<string>, n: string)
    ensures Get(PickSections(secs, names), n) == if n in names then Get(secs, n) else None
  {
    if |names| > 0 {
      var init := names[..|names| - 1];
      var last := names[|names| - 1];
      GetPickSections(secs, init, n);
      assert names == init + [last];
      match Get(secs, last)
      case Some(s) =>
        GetPut(PickSections(secs, init), last, s, n);
      case None =>
    }
  }

  /** What the filter keeps of one course: all of it when the whole course
      is in the basket, otherwise its selected sections, or nothing when
      none was selected. A course with selections that all miss is kept
      with no sections. */
  function Choose(code: string, secs: Sections, addedCourses: seq<string>, addedSections: seq<SectionRef>): Option<Sections> {
    if code in addedCourses then Some(secs)
    else
      var names := SelectedNames(addedSections, code);
      if |names| > 0 then Some(PickSections(secs, names)) else None
  }

  /** `filteredCourses`: the `Object.entries(rawCourses)` loop. */
  function FilterCatalog(raw: Catalog, addedCourses: seq<string>, addedSections: seq<SectionRef>): (filtered: Catalog)
    ensures |filtered| <= |raw|
    ensures forall k :: HasKey(filtered, k) ==> HasKey(raw, k)
  {
    if |raw| == 0 then []
    else
      var init := raw[..|raw| - 1];
      var (code, secs) := raw[|raw| - 1];
      var acc := FilterCatalog(init, addedCourses, addedSections);
      assert forall k :: HasKey(init, k) ==> HasKey(raw, k) by {
        forall k | HasKey(init, k) ensures HasKey(raw, k) {
          assert raw[Find(init, k).value].0 == k;
        }
      }
      match Choose(code, secs, addedCourses, addedSections)
      case Some(kept) =>
        assert raw[|raw| - 1].0 == code;
        assert forall k :: HasKey(Put(acc, code, kept), k) ==> k == code || HasKey(acc, k) by {
          forall k ensures HasKey(Put(acc, code, kept), k) ==> k == code || HasKey(acc, k) {
            HasKeyPut(acc, code, kept, k);
          }
        }
        Put(acc, code, kept)
      case None => acc
  }

  /** Each course of `filteredCourses` is the rule of `Choose` applied to the
      course's sections in `rawCourses`, and nothing else is there. */
  lemma {:induction false} GetFilterCatalog(raw: Catalog, addedCourses: seq<string>, addedSections: seq<SectionRef>, code: string)
    requires UniqueKeys(raw)
    ensures Get(FilterCatalog(raw, addedCourses, addedSections), code) ==
      match Get(raw, code)
      case None => None
      case Some(secs) => Choose(code, secs, addedCourses, addedSections)
  {
    if |raw| > 0 {
      var init := raw[..|raw| - 1];
      var (last, secs) := raw[|raw| - 1];
      assert raw == init + [(last, secs)];
      GetFilterCatalog(init, addedCourses, addedSections, code);
      GetAppend(init, last, secs, code);
      var acc := FilterCatalog(init, addedCourses, addedSections);
      assert forall i :: 0 <= i < |init| ==> init[i].0 != last by {
        forall i | 0 <= i < |init| ensures init[i].0 != last {
          assert raw[i].0 != raw[|raw| - 1].0;
        }
      }
      match Choose(last, secs, addedCourses, addedSections)
      case Some(kept) =>
        GetPut(acc, last, kept, code);
      case None =>
    }
  }

  /** `organizeCourseData(rows, addedCourses, addedSections)`. */
  function OrganizeCourseData(rows: seq<Row>, addedCourses: seq<string>, addedSections: seq<SectionRef>): (r: (Catalog, Catalog))
    ensures UniqueKeys(r.1)
    ensures forall k :: HasKey(r.0, k) ==> HasKey(r.1, k)
  {
    var raw := GroupRows(rows);
    (FilterCatalog(raw, addedCourses, addedSections), raw)
  }

  /** Every section that survives the filter is the section the database
      rows describe, and the filter keeps a section exactly when its course
      is in the basket whole or the section itself was selected. */
  lemma OrganizedSection(rows: seq<Row>, addedCourses: seq<string>, addedSections: seq<SectionRef>, code: string, name: string)
    ensures var (filtered, raw) := OrganizeCourseData(rows, addedCourses, addedSections);
      Lookup(filtered, code, name) ==
        if code in addedCourses || SectionRef(code, name) in addedSections then Lookup(raw, code, name) else None
  {
    var raw := GroupRows(rows);
    GetFilterCatalog(raw, addedCourses, addedSections, code);
    match Get(raw, code)
    case Some(secs) =>
      if code !in addedCourses {
        var names := SelectedNames(addedSections, code);
        if |names| > 0 {
          GetPickSections(secs, names, name);
        }
      }
    case None =>
  }

  // ---------------------------------------------------------------------------
  // Sections keyed by their names
  // ---------------------------------------------------------------------------

  predicate SectionNamed(name: string, sec: Section) {
    sec.sectionName == name
  }

  /** Every section is stored once, under its own name, as `sections[name]`
      makes it. */
  predicate NamedSections(secs: Sections) {
    UniqueKeys(secs) && forall i :: 0 <= i < |secs| ==> SectionNamed(secs[i].0, secs[i].1)
  }

  predicate NamedCourse(code: string, secs: Sections) {
    NamedSections(secs)
  }

  /** Every course of the catalog holds its sections keyed by name. */
  predicate KeyedByName(cat: Catalog) {
    forall i :: 0 <= i < |cat| ==> NamedCourse(cat[i].0, cat[i].1)
  }

  lemma AddRowKeyed(raw: Catalog, row: Row)
    requires KeyedByName(raw)
    ensures KeyedByName(AddRow(raw, row))
  {
    var secs := Get(raw, row.courseCode).GetOr([]);
    GetHolds(raw, row.courseCode, NamedCourse);
    assert NamedSections(secs);
    var sec := Get(secs, row.sectionName).GetOr(NewSection(row));
    GetHolds(secs, row.sectionName, SectionNamed);
    var sec' := if HasSlot(row) then WithSlot(sec, SlotOf(row)) else sec;
    assert SectionNamed(row.sectionName, sec');
    PutHolds(secs, row.sectionName, sec', SectionNamed);
    PutHolds(raw, row.courseCode, Put(secs, row.sectionName, sec'), NamedCourse);
  }

  /** `rawCourses[code][name]` is always section `name`. */
  lemma {:induction false} GroupRowsKeyed(rows: seq<Row>)
    ensures KeyedByName(GroupRows(rows))
  {
    if |rows| > 0 {
      GroupRowsKeyed(rows[..|rows| - 1]);
      AddRowKeyed(GroupRows(rows[..|rows| - 1]), rows[|rows| - 1]);
    }
  }

  lemma {:induction false} PickSectionsNamed(secs: Sections, names: seq<string>)
    requires NamedSections(secs)
    ensures NamedSections(PickSections(secs, names))
  {
    if |names| > 0 {
      var acc := PickSections(secs, names[..|names| - 1]);
      var n := names[|names| - 1];
      PickSectionsNamed(secs, names[..|names| - 1]);
      GetHolds(secs, n, SectionNamed);
      match Get(secs, n)
      case Some(s) => PutHolds(acc, n, s, SectionNamed);
      case None =>
    }
  }

  /** The filter keeps the sections keyed by name. */
  lemma {:induction false} FilterKeyed(raw: Catalog, addedCourses: seq<string>, addedSections: seq<SectionRef>)
    requires KeyedByName(raw)
    ensures KeyedByName(FilterCatalog(raw, addedCourses, addedSections))
  {
    if |raw| > 0 {
      var init := raw[..|raw| - 1];
      var (code, secs) := raw[|raw| - 1];
      assert NamedCourse(code, secs);
      FilterKeyed(init, addedCourses, addedSections);
      var acc := FilterCatalog(init, addedCourses, addedSections);
      if code !in addedCourses {
        PickSectionsNamed(secs, SelectedNames(addedSections, code));
      }
      match Choose(code, secs, addedCourses, addedSections)
      case Some(kept) => PutHolds(acc, code, kept, NamedCourse);
      case None =>
    }
  }

  /** Both catalogs `organizeCourseData` builds hold each section once,
      under its own name. */
  lemma OrganizeKeyed(rows: seq<Row>, addedCourses: seq<string>, addedSections: seq<SectionRef>)
    ensures var (filtered, raw) := OrganizeCourseData(rows, addedCourses, addedSections);
      KeyedByName(filtered) && KeyedByName(raw)
  {
    GroupRowsKeyed(rows);
    FilterKeyed(GroupRows(rows), addedCourses, addedSections);
  }
}
