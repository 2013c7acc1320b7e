/** The schedule worker: depth-first enumeration of every conflict-free
    choice of one section per course, the 5x13 timetable of a schedule, and
    the result the worker posts back. */
module Generator {
  import opened Wrappers
  import opened Assoc
  import opened Seqs
  import opened Masks
  import opened Organize

  // ---------------------------------------------------------------------------
  // What a schedule is
  // ---------------------------------------------------------------------------

  /** `Object.values(coursesData[name])` for each `name` of
      `Object.keys(coursesData)`. */
  function Options(courses: Catalog): (cs: seq<seq<Section>>)
    ensures |cs| == |courses|
    ensures forall i :: 0 <= i < |cs| ==> cs[i] == Values(courses[i].1)
  {
    seq(|courses|, i requires 0 <= i < |courses| => Values(courses[i].1))
  }

  /** One section of each course, in course order, none sharing an hour with
      `used` or with another. */
  predicate Valid(sch: seq<Section>, cs: seq<seq<Section>>, used: Mask) {
    && |sch| == |cs|
    && (forall i :: 0 <= i < |sch| ==> sch[i] in cs[i])
    && (forall i :: 0 <= i < |sch| ==> !Overlap(used, sch[i].mask))
    && (forall i, j :: 0 <= i < j < |sch| ==> !Overlap(sch[i].mask, sch[j].mask))
  }

  /** `[s, ...x]` for every `x` of `xs`. */
  function Prepend(s: Section, xs: seq<seq<Section>>): (r: seq<seq<Section>>)
    ensures |r| == |xs|
    ensures forall i :: 0 <= i < |xs| ==> r[i] == [s] + xs[i]
  {
    seq(|xs|, i requires 0 <= i < |xs| => [s] + xs[i])
  }

  /** The schedules `backtrack` reaches from a state whose mask is `used`,
      in the order it pushes them. */
  function Choices(cs: seq<seq<Section>>, used: Mask): seq<seq<Section>>
    decreases |cs|, 1, 0
  {
    if |cs| == 0 then [[]] else Branch(cs, used, 0)
  }

  /** The part of `Choices(cs, used)` that starts with the sections
      `cs[0][j..]`. */
  function Branch(cs: seq<seq<Section>>, used: Mask, j: nat): seq<seq<Section>>
    requires |cs| > 0
    decreases |cs|, 0, |cs[0]| - j
  {
    if j >= |cs[0]| then []
    else
      var s := cs[0][j];
      (if Overlap(used, s.mask) then [] else Prepend(s, Choices(cs[1..], Or(used, s.mask))))
        + Branch(cs, used, j + 1)
  }

  lemma OverlapOr(a: Mask, b: Mask, c: Mask)
    ensures Overlap(Or(a, b), c) <==> Overlap(a, c) || Overlap(b, c)
  {
    if Overlap(Or(a, b), c) {
      var d :| 0 <= d < 5 && Or(a, b)[d] * c[d] != {};
      var h :| h in Or(a, b)[d] * c[d];
      if h in a[d] {
        assert h in a[d] * c[d];
      } else {
        assert h in b[d] * c[d];
      }
    }
    if Overlap(a, c) {
      var d :| 0 <= d < 5 && a[d] * c[d] != {};
      var h :| h in a[d] * c[d];
      assert h in Or(a, b)[d] * c[d];
    }
    if Overlap(b, c) {
      var d :| 0 <= d < 5 && b[d] * c[d] != {};
      var h :| h in b[d] * c[d];
      assert h in Or(a, b)[d] * c[d];
    }
  }

  lemma OverlapSymmetric(a: Mask, b: Mask)
    ensures Overlap(a, b) <==> Overlap(b, a)
  {
    assert forall d :: 0 <= d < 5 ==> a[d] * b[d] == b[d] * a[d];
  }

  /** Membership in a branch: the first section is one of `cs[0][j..]`, is
      free in `used`, and the rest is a choice for the other courses. */
  lemma {:induction false} InBranch(cs: seq<seq<Section>>, used: Mask, j: nat, sch: seq<Section>)
    requires |cs| > 0 && j <= |cs[0]|
    ensures sch in Branch(cs, used, j) <==>
      |sch| > 0 && sch[0] in cs[0][j..] && !Overlap(used, sch[0].mask) &&
      sch[1..] in Choices(cs[1..], Or(used, sch[0].mask))
    decreases |cs[0]| - j
  {
    if j < |cs[0]| {
      var s := cs[0][j];
      var here := if Overlap(used, s.mask) then [] else Prepend(s, Choices(cs[1..], Or(used, s.mask)));
      assert Branch(cs, used, j) == here + Branch(cs, used, j + 1);
      InBranch(cs, used, j + 1, sch);
      assert cs[0][j..] == [s] + cs[0][j + 1..];
      if sch in here {
        var i :| 0 <= i < |here| && here[i] == sch;
        assert sch == [s] + Choices(cs[1..], Or(used, s.mask))[i];
        assert sch[1..] == Choices(cs[1..], Or(used, s.mask))[i];
      }
      if |sch| > 0 && sch[0] == s && !Overlap(used, s.mask) && sch[1..] in Choices(cs[1..], Or(used, s.mask)) {
        var i :| 0 <= i < |Choices(cs[1..], Or(used, s.mask))| && Choices(cs[1..], Or(used, s.mask))[i] == sch[1..];
        assert here[i] == [s] + sch[1..] == sch;
      }
    }
  }

  /** With a section `s` taken, the later sections must avoid `used | s`
      exactly when they avoid both `used` and `s`. */
  lemma OverlapOrAll(used: Mask, s: Section, rest: seq<Section>)
    ensures forall i :: 0 <= i < |rest| ==>
      (!Overlap(Or(used, s.mask), rest[i].mask) <==> !Overlap(used, rest[i].mask) && !Overlap(s.mask, rest[i].mask))
  {
    forall i | 0 <= i < |rest|
      ensures !Overlap(Or(used, s.mask), rest[i].mask) <==> !Overlap(used, rest[i].mask) && !Overlap(s.mask, rest[i].mask)
    {
      OverlapOr(used, s.mask, rest[i].mask);
    }
  }

  /** The tail of a valid schedule is valid for the later courses under the
      mask with its first section added. */
  lemma ValidTail(sch: seq<Section>, cs: seq<seq<Section>>, used: Mask)
    requires |cs| > 0 && Valid(sch, cs, used)
    ensures sch[0] in cs[0] && !Overlap(used, sch[0].mask)
    ensures Valid(sch[1..], cs[1..], Or(used, sch[0].mask))
  {
    var rest := sch[1..];
    var used' := Or(used, sch[0].mask);
    OverlapOrAll(used, sch[0], rest);
    forall i | 0 <= i < |rest| ensures rest[i] in cs[1..][i] && !Overlap(used', rest[i].mask) {
      assert rest[i] == sch[i + 1];
      assert !Overlap(sch[0].mask, sch[i + 1].mask);
    }
    forall i, j | 0 <= i < j < |rest| ensures !Overlap(rest[i].mask, rest[j].mask) {
      assert rest[i] == sch[i + 1] && rest[j] == sch[j + 1];
    }
  }

  /** A free first section followed by a valid tail is a valid schedule. */
  lemma ValidCons(s: Section, rest: seq<Section>, cs: seq<seq<Section>>, used: Mask)
    requires |cs| > 0 && s in cs[0] && !Overlap(used, s.mask)
    requires Valid(rest, cs[1..], Or(used, s.mask))
    ensures Valid([s] + rest, cs, used)
  {
    var sch := [s] + rest;
    OverlapOrAll(used, s, rest);
    forall i | 0 <= i < |sch| ensures sch[i] in cs[i] && !Overlap(used, sch[i].mask) {
      if i > 0 {
        assert sch[i] == rest[i - 1];
      }
    }
    forall i, j | 0 <= i < j < |sch| ensures !Overlap(sch[i].mask, sch[j].mask) {
      if i == 0 {
        assert sch[j] == rest[j - 1];
      } else {
        assert sch[i] == rest[i - 1] && sch[j] == rest[j - 1];
      }
    }
  }

  /** `backtrack` yields exactly the valid schedules: every schedule it
      pushes takes one section of each course with no two sharing an hour,
      and every such choice is pushed. */
  lemma {:induction false} ChoicesValid(cs: seq<seq<Section>>, used: Mask, sch: seq<Section>)
    ensures sch in Choices(cs, used) <==> Valid(sch, cs, used)
    decreases |cs|
  {
    if |cs| == 0 {
      assert Choices(cs, used) == [[]];
    } else {
      InBranch(cs, used, 0, sch);
      assert cs[0][0..] == cs[0];
      if |sch| > 0 {
        var s := sch[0];
        ChoicesValid(cs[1..], Or(used, s.mask), sch[1..]);
        if Valid(sch, cs, used) {
          ValidTail(sch, cs, used);
        }
        if s in cs[0] && !Overlap(used, s.mask) && Valid(sch[1..], cs[1..], Or(used, s.mask)) {
          assert sch == [s] + sch[1..];
          ValidCons(s, sch[1..], cs, used);
        }
      }
    }
  }

  /** Each course offers every section once. */
  predicate DistinctOptions(cs: seq<seq<Section>>) {
    forall i :: 0 <= i < |cs| ==> NoDups(cs[i])
  }

  lemma PrependNoDups(s: Section, xs: seq<seq<Section>>)
    requires NoDups(xs)
    ensures NoDups(Prepend(s, xs))
    ensures forall x :: x in Prepend(s, xs) ==> |x| > 0 && x[0] == s
  {
    var r := Prepend(s, xs);
    forall i, j | 0 <= i < j < |r| ensures r[i] != r[j] {
      assert r[i][1..] == xs[i] && r[j][1..] == xs[j];
    }
  }

  /** When no course offers a section twice, the search reaches no
      schedule twice: two schedules it yields differ in the first course
      where they take different sections. */
  lemma {:induction false} ChoicesNoDups(cs: seq<seq<Section>>, used: Mask)
    requires DistinctOptions(cs)
    ensures NoDups(Choices(cs, used))
    decreases |cs|, 1
  {
    if |cs| > 0 {
      BranchNoDups(cs, used, 0);
    }
  }

  lemma {:induction false} BranchNoDups(cs: seq<seq<Section>>, used: Mask, j: nat)
    requires |cs| > 0 && j <= |cs[0]| && DistinctOptions(cs)
    ensures NoDups(Branch(cs, used, j))
    decreases |cs|, 0, |cs[0]| - j
  {
    if j < |cs[0]| {
      var s := cs[0][j];
      var tail := Branch(cs, used, j + 1);
      BranchNoDups(cs, used, j + 1);
      if Overlap(used, s.mask) {
        assert Branch(cs, used, j) == [] + tail;
      } else {
        var sub := Choices(cs[1..], Or(used, s.mask));
        assert DistinctOptions(cs[1..]) by {
          forall i | 0 <= i < |cs[1..]| ensures NoDups(cs[1..][i]) {
            assert cs[1..][i] == cs[i + 1];
          }
        }
        ChoicesNoDups(cs[1..], Or(used, s.mask));
        PrependNoDups(s, sub);
        forall y | y in tail ensures y !in Prepend(s, sub) {
          InBranch(cs, used, j + 1, y);
          var k :| j + 1 <= k < |cs[0]| && cs[0][k] == y[0];
        }
        NoDupsAppend(Prepend(s, sub), tail);
        assert Branch(cs, used, j) == Prepend(s, sub) + tail;
      }
    }
  }

  /** Sections keyed by their own names are distinct, so the options of a
      catalog `organizeCourseData` builds offer each section once. */
  lemma OptionsDistinct(courses: Catalog)
    requires KeyedByName(courses)
    ensures DistinctOptions(Options(courses))
  {
    forall i | 0 <= i < |courses| ensures NoDups(Options(courses)[i]) {
      var secs := courses[i].1;
      assert NamedCourse(courses[i].0, secs);
      forall a, b | 0 <= a < b < |secs| ensures secs[a].1 != secs[b].1 {
        assert SectionNamed(secs[a].0, secs[a].1) && SectionNamed(secs[b].0, secs[b].1);
      }
    }
  }

  /** The number of ways to take one section of each course, hours
      ignored. */
  function Product(cs: seq<seq<Section>>): nat {
    if |cs| == 0 then 1 else |cs[0]| * Product(cs[1..])
  }

  /** The search never yields more schedules than there are ways to pick
      one section per course. */
  lemma {:induction false} ChoicesAtMost(cs: seq<seq<Section>>, used: Mask)
    ensures |Choices(cs, used)| <= Product(cs)
    decreases |cs|, 1
  {
    if |cs| > 0 {
      BranchAtMost(cs, used, 0);
    }
  }

  lemma {:induction false} BranchAtMost(cs: seq<seq<Section>>, used: Mask, j: nat)
    requires |cs| > 0 && j <= |cs[0]|
    ensures |Branch(cs, used, j)| <= (|cs[0]| - j) * Product(cs[1..])
    decreases |cs|, 0, |cs[0]| - j
  {
    if j < |cs[0]| {
      var s := cs[0][j];
      var p := Product(cs[1..]);
      var head := if Overlap(used, s.mask) then [] else Prepend(s, Choices(cs[1..], Or(used, s.mask)));
      var rest: nat := |cs[0]| - (j + 1);
      BranchAtMost(cs, used, j + 1);
      ChoicesAtMost(cs[1..], Or(used, s.mask));
      assert Branch(cs, used, j) == head + Branch(cs, used, j + 1);
      assert |head| <= p;
      assert (rest + 1) * p == p + rest * p;
    }
  }

  // ---------------------------------------------------------------------------
  // The backtracking search
  // ---------------------------------------------------------------------------

  /** `current + x` for every `x` of `xs`. */
  function Extend(current: seq<Section>, xs: seq<seq<Section>>): (r: seq<seq<Section>>)
    ensures |r| == |xs|
    ensures forall i :: 0 <= i < |xs| ==> r[i] == current + xs[i]
  {
    seq(|xs|, i requires 0 <= i < |xs| => current + xs[i])
  }

  lemma ExtendAppend(current: seq<Section>, a: seq<seq<Section>>, b: seq<seq<Section>>)
    ensures Extend(current, a + b) == Extend(current, a) + Extend(current, b)
  {
  }

  lemma ExtendPrepend(current: seq<Section>, s: Section, xs: seq<seq<Section>>)
    ensures Extend(current + [s], xs) == Extend(current, Prepend(s, xs))
  {
    forall i | 0 <= i < |xs| ensures Extend(current + [s], xs)[i] == Extend(current, Prepend(s, xs))[i] {
      assert current + [s] + xs[i] == current + ([s] + xs[i]);
    }
  }

  /** One turn of the loop over a course's sections: a conflicting section
      adds nothing, a free one adds the completions of `current` with it. */
  lemma ExtendBranchStep(current: seq<Section>, rest: seq<seq<Section>>, used: Mask, j: nat)
    requires |rest| > 0 && j < |rest[0]|
    ensures Extend(current, Branch(rest, used, j)) ==
      (if Overlap(used, rest[0][j].mask) then []
       else Extend(current + [rest[0][j]], Choices(rest[1..], Or(used, rest[0][j].mask))))
      + Extend(current, Branch(rest, used, j + 1))
  {
    var s := rest[0][j];
    var tail := Branch(rest, used, j + 1);
    if Overlap(used, s.mask) {
      assert Branch(rest, used, j) == [] + tail;
    } else {
      var sub := Choices(rest[1..], Or(used, s.mask));
      assert Branch(rest, used, j) == Prepend(s, sub) + tail;
      ExtendAppend(current, Prepend(s, sub), tail);
      ExtendPrepend(current, s, sub);
    }
  }

  /** `backtrack(k)` with `currentMask = mask` and `currentSections =
      current`: it appends to `schedules` every completion of `current`
      the later courses allow, and leaves the mask as it found it. */
  method Backtrack(cs: seq<seq<Section>>, k: nat, mask: Mask, current: seq<Section>, schedules: seq<seq<Section>>)
    returns (maskAfter: Mask, out: seq<seq<Section>>)
    requires k <= |cs|
    ensures maskAfter == mask
    ensures out == schedules + Extend(current, Choices(cs[k..], mask))
    decreases |cs| - k, 1
  {
    if k == |cs| {
      assert Choices(cs[k..], mask) == [[]];
      assert current + [] == current;
      return mask, schedules + [current];
    }
    maskAfter, out := TrySections(cs, k, mask, current, schedules);
    assert Choices(cs[k..], mask) == Branch(cs[k..], mask, 0);
  }

  /** The loop of `backtrack(k)` over the sections of course `k`: each
      section free in the mask is added, the search goes one course deeper,
      and the section is taken out again. */
  method TrySections(cs: seq<seq<Section>>, k: nat, mask: Mask, current: seq<Section>, schedules: seq<seq<Section>>)
    returns (maskAfter: Mask, out: seq<seq<Section>>)
    requires k < |cs|
    ensures maskAfter == mask
    ensures out == schedules + Extend(current, Branch(cs[k..], mask, 0))
    decreases |cs| - k, 0
  {
    var sections := cs[k];
    var rest := cs[k..];
    assert rest[0] == sections && rest[1..] == cs[k + 1..];
    var total := schedules + Extend(current, Branch(rest, mask, 0));
    var m := mask;
    out := schedules;
    var j := 0;
    while j < |sections|
      invariant 0 <= j <= |sections|
      invariant m == mask
      invariant out + Extend(current, Branch(rest, mask, j)) == total
      decreases |sections| - j
    {
      var s := sections[j];
      ExtendBranchStep(current, rest, mask, j);
      var conflict := SectionsConflict(m, s.mask);
      if !conflict {
        m := Or(m, s.mask);
        var m2, out2 := Backtrack(cs, k + 1, m, current + [s], out);
        m := Xor(m2, s.mask);
        XorUndoesOr(mask, s.mask);
        AppendStep(out, Extend(current + [s], Choices(rest[1..], Or(mask, s.mask))),
                   Extend(current, Branch(rest, mask, j + 1)), total, out2);
        out := out2;
      } else {
        assert [] + Extend(current, Branch(rest, mask, j + 1)) == Extend(current, Branch(rest, mask, j + 1));
      }
      j := j + 1;
    }
    assert Branch(rest, mask, j) == [];
    assert out + [] == out;
    return m, out;
  }

  /** `generateAllSchedules(coursesData)`. */
  method GenerateAllSchedules(courses: Catalog) returns (schedules: seq<seq<Section>>)
    ensures schedules == Choices(Options(courses), NoHours)
    ensures forall sch :: sch in schedules <==> Valid(sch, Options(courses), NoHours)
    ensures KeyedByName(courses) ==> NoDups(schedules)
    ensures KeyedByName(courses) ==>
      forall sch :: Valid(sch, Options(courses), NoHours) ==> multiset(schedules)[sch] == 1
  {
    var cs := Options(courses);
    var m;
    m, schedules := Backtrack(cs, 0, NoHours, [], []);
    assert cs[0..] == cs;
    forall i | 0 <= i < |schedules| ensures schedules[i] == Choices(cs, NoHours)[i] {
      assert [] + Choices(cs, NoHours)[i] == Choices(cs, NoHours)[i];
    }
    forall sch ensures sch in schedules <==> Valid(sch, cs, NoHours) {
      ChoicesValid(cs, NoHours, sch);
    }
    if KeyedByName(courses) {
      KeyedChoicesOnce(courses);
    }
  }

  /** For a catalog keyed by section name, the search yields every valid
      schedule exactly once. */
  lemma KeyedChoicesOnce(courses: Catalog)
    requires KeyedByName(courses)
    ensures NoDups(Choices(Options(courses), NoHours))
    ensures forall sch :: Valid(sch, Options(courses), NoHours) ==>
      multiset(Choices(Options(courses), NoHours))[sch] == 1
  {
    var cs := Options(courses);
    OptionsDistinct(courses);
    ChoicesNoDups(cs, NoHours);
    forall sch | Valid(sch, cs, NoHours) ensures multiset(Choices(cs, NoHours))[sch] == 1 {
      ChoicesValid(cs, NoHours, sch);
      NoDupsOnce(Choices(cs, NoHours), sch);
    }
  }

  // ---------------------------------------------------------------------------
  // Timetable
  // ---------------------------------------------------------------------------

  /** 5 rows of 13 cells. */
  predicate IsGrid(m: seq<seq<int>>) {
    |m| == 5 && forall d :: 0 <= d < 5 ==> |m[d]| == HoursPerDay
  }

  const EmptyRow: seq<int> := [0, 0, 0, 0, 0, 0, 0, 0, 0, 0, 0, 0, 0]

  /** `Array(5).fill(null).map(() => Array(13).fill(0))`. */
  const EmptyGrid: seq<seq<int>> := [EmptyRow, EmptyRow, EmptyRow, EmptyRow, EmptyRow]

  /** Cells of `row` whose hour is in `hours` set to `id`. */
  function PaintRow(row: seq<int>, hours: set<nat>, id: int): (r: seq<int>)
    ensures |r| == |row|
    ensures forall h :: 0 <= h < |row| ==> r[h] == if h in hours then id else row[h]
  {
    seq(|row|, h requires 0 <= h < |row| => if h in hours then id else row[h])
  }

  /** `matrix[dayIndex][hour] = section.id` for the hours of one slot. */
  function PaintSlot(m: seq<seq<int>>, slot: TimeSlot, id: int): (r: seq<seq<int>>)
    requires IsGrid(m)
    ensures IsGrid(r)
    ensures forall d, h :: 0 <= d < 5 && 0 <= h < HoursPerDay ==>
      r[d][h] == if Covers(slot, d, h) then id else m[d][h]
  {
    match SlotHours(slot.day, slot.startTime, slot.endTime)
    case Some((d, hours)) => m[d := PaintRow(m[d], hours, id)]
    case None => m
  }

  /** Slots `slots` of section `id` painted in order. */
  function PaintSlots(m: seq<seq<int>>, slots: seq<TimeSlot>, id: int): (r: seq<seq<int>>)
    requires IsGrid(m)
    ensures IsGrid(r)
  {
    if |slots| == 0 then m
    else PaintSlot(PaintSlots(m, slots[..|slots| - 1], id), slots[|slots| - 1], id)
  }

  /** `createMatrixFromSections(sections)`. */
  function CreateMatrix(sections: seq<Section>): (r: seq<seq<int>>)
    ensures IsGrid(r)
  {
    if |sections| == 0 then EmptyGrid
    else
      var s := sections[|sections| - 1];
      PaintSlots(CreateMatrix(sections[..|sections| - 1]), s.timeSlots, s.id)
  }

  /** The mask of `sec` is the one its slots build, as it is for every
      section `organizeCourseData` produces (`GroupRowsLookup`). */
  predicate MaskFromSlots(sec: Section) {
    sec.mask == MaskOf(sec.timeSlots)
  }

  lemma PaintSlotStep(m: seq<seq<int>>, slots: seq<TimeSlot>, id: int, d: nat, h: nat)
    requires IsGrid(m) && |slots| > 0 && d < 5 && h < HoursPerDay
    ensures PaintSlots(m, slots, id)[d][h] ==
      if Covers(slots[|slots| - 1], d, h) then id else PaintSlots(m, slots[..|slots| - 1], id)[d][h]
  {
  }

  /** Painting a section's slots sets exactly the cells its slots mark. */
  lemma {:induction false} PaintSlotsCell(m: seq<seq<int>>, slots: seq<TimeSlot>, id: int, d: nat, h: nat)
    requires IsGrid(m) && d < 5 && h < HoursPerDay
    ensures PaintSlots(m, slots, id)[d][h] == if h in MaskOf(slots)[d] then id else m[d][h]
  {
    if |slots| > 0 {
      PaintSlotsCell(m, slots[..|slots| - 1], id, d, h);
      PaintSlotStep(m, slots, id, d, h);
      MaskOfStep(slots, d, h);
    }
  }

  /** The index of the last section of `sections` whose mask has hour `h`
      of day `d`. */
  function LastCovering(sections: seq<Section>, d: nat, h: nat): (r: Option<nat>)
    requires d < 5
    ensures r.Some? ==> r.value < |sections| && h in sections[r.value].mask[d]
    ensures r.Some? ==> forall i :: r.value < i < |sections| ==> h !in sections[i].mask[d]
    ensures r.None? <==> forall i :: 0 <= i < |sections| ==> h !in sections[i].mask[d]
  {
    if |sections| == 0 then None
    else if h in sections[|sections| - 1].mask[d] then Some(|sections| - 1)
    else LastCovering(sections[..|sections| - 1], d, h)
  }

  /** A timetable cell holds the id of the last section occupying it, and 0
      when none does. */
  lemma {:induction false} MatrixCell(sections: seq<Section>, d: nat, h: nat)
    requires d < 5 && h < HoursPerDay
    requires forall k :: 0 <= k < |sections| ==> MaskFromSlots(sections[k])
    ensures CreateMatrix(sections)[d][h] ==
      match LastCovering(sections, d, h)
      case Some(i) => sections[i].id
      case None => 0
  {
    if |sections| > 0 {
      var n := |sections| - 1;
      var init := sections[..n];
      var s := sections[n];
      assert MaskFromSlots(s);
      MatrixCell(init, d, h);
      PaintSlotsCell(CreateMatrix(init), s.timeSlots, s.id, d, h);
      if h !in s.mask[d] {
        assert LastCovering(sections, d, h) == LastCovering(init, d, h);
      }
    }
  }

  /** With pairwise disjoint masks, the last section whose mask has an hour
      is the only one. */
  lemma LastCoveringDisjoint(sections: seq<Section>, i: nat, d: nat, h: nat)
    requires i < |sections| && d < 5
    requires forall k, l :: 0 <= k < l < |sections| ==> !Overlap(sections[k].mask, sections[l].mask)
    requires h in sections[i].mask[d]
    ensures LastCovering(sections, d, h) == Some(i)
  {
    forall k | 0 <= k < |sections| && k != i ensures h !in sections[k].mask[d] {
      if i < k {
        NoOverlapOnDay(sections[i].mask, sections[k].mask, d, h);
      } else {
        NoOverlapOnDay(sections[k].mask, sections[i].mask, d, h);
      }
    }
    var r := LastCovering(sections, d, h);
    assert r.Some?;
    assert h in sections[r.value].mask[d];
  }

  /** In a schedule whose sections' masks are built from their slots and
      are pairwise disjoint, a cell holds the id of the one section whose
      mask has that hour; the last-writer rule never matters. */
  lemma MatrixOfValid(sections: seq<Section>, i: nat, d: nat, h: nat)
    requires i < |sections| && d < 5 && h < HoursPerDay
    requires forall k :: 0 <= k < |sections| ==> MaskFromSlots(sections[k])
    requires forall k, l :: 0 <= k < l < |sections| ==> !Overlap(sections[k].mask, sections[l].mask)
    requires h in sections[i].mask[d]
    ensures CreateMatrix(sections)[d][h] == sections[i].id
  {
    LastCoveringDisjoint(sections, i, d, h);
    MatrixCell(sections, d, h);
  }

  // ---------------------------------------------------------------------------
  // What the worker posts back
  // ---------------------------------------------------------------------------

  datatype Lesson = Lesson(id: int, courseCode: string, courseName: string,
                           sectionName: string, lecturer: string, credits: int)

  datatype ScheduleView = ScheduleView(lessons: seq<Lesson>, totalCredits: int, matrix: seq<seq<int>>)

  function LessonOf(s: Section): Lesson {
    Lesson(s.id, s.courseCode, s.courseName, s.sectionName, s.lecturer, s.credits)
  }

  /** The credits of a list of lessons added up from the left. */
  function SumCredits(lessons: seq<Lesson>): int {
    if |lessons| == 0 then 0 else SumCredits(lessons[..|lessons| - 1]) + lessons[|lessons| - 1].credits
  }

  /** The sum of credits is the sum of the two halves of any split. */
  lemma {:induction false} SumCreditsAppend(a: seq<Lesson>, b: seq<Lesson>)
    ensures SumCredits(a + b) == SumCredits(a) + SumCredits(b)
    decreases |b|
  {
    if |b| > 0 {
      assert (a + b)[..|a + b| - 1] == a + b[..|b| - 1];
      SumCreditsAppend(a, b[..|b| - 1]);
    } else {
      assert a + b == a;
    }
  }

  /** One entry of `transformSchedules`: a lesson per section in schedule
      order, their credit total, and the timetable. */
  function TransformSchedule(sections: seq<Section>): (v: ScheduleView)
    ensures |v.lessons| == |sections|
    ensures forall i :: 0 <= i < |sections| ==> v.lessons[i] == LessonOf(sections[i])
    ensures v.totalCredits == SumCredits(v.lessons)
    ensures v.matrix == CreateMatrix(sections)
  {
    var lessons := seq(|sections|, i requires 0 <= i < |sections| => LessonOf(sections[i]));
    ScheduleView(lessons, SumCredits(lessons), CreateMatrix(sections))
  }

  const MaxSchedules: nat := 120

  /** The message the worker posts on success. `limited` is absent when no
      schedule was found. */
  datatype WorkerResult = WorkerResult(totalGenerated: nat, schedules: seq<ScheduleView>, limited: Option<bool>)

  /** The worker's result assembly: the count of all schedules, the first
      120 of them transformed, and whether any were cut off. */
  function WorkerOutput(all: seq<seq<Section>>): (r: WorkerResult)
    ensures r.totalGenerated == |all|
    ensures |r.schedules| == if |all| <= MaxSchedules then |all| else MaxSchedules
    ensures forall i :: 0 <= i < |r.schedules| ==> r.schedules[i] == TransformSchedule(all[i])
    ensures r.limited.Some? <==> |all| > 0
    ensures r.limited == Some(true) <==> |all| > MaxSchedules
  {
    if |all| == 0 then WorkerResult(0, [], None)
    else
      var kept := if |all| <= MaxSchedules then all else all[..MaxSchedules];
      WorkerResult(|all|, seq(|kept|, i requires 0 <= i < |kept| => TransformSchedule(kept[i])),
                   Some(|all| > MaxSchedules))
  }

  /** The worker run on `filteredCourses`. */
  method RunWorker(courses: Catalog) returns (r: WorkerResult)
    ensures r.totalGenerated == |Choices(Options(courses), NoHours)|
    ensures KeyedByName(courses) ==> NoDups(Choices(Options(courses), NoHours))
    ensures |r.schedules| == if r.totalGenerated <= MaxSchedules then r.totalGenerated else MaxSchedules
    ensures r.limited.Some? <==> r.totalGenerated > 0
    ensures r.limited == Some(true) <==> r.totalGenerated > MaxSchedules
    ensures forall i :: 0 <= i < |r.schedules| ==>
      Valid(Choices(Options(courses), NoHours)[i], Options(courses), NoHours) &&
      r.schedules[i] == TransformSchedule(Choices(Options(courses), NoHours)[i])
  {
    var all := GenerateAllSchedules(courses);
    r := WorkerOutput(all);
    forall i | 0 <= i < |r.schedules| ensures Valid(all[i], Options(courses), NoHours) {
      assert all[i] in all;
    }
  }
}
