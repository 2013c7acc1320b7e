/** `generateSchedule` and its diagnosis pass: the guards in front of the
    worker, and, when the worker finds nothing, the explanation built by
    `detectConflicts` from pairs and then trios of courses that cannot be
    taken together. */
module Diagnosis {
  import opened Wrappers
  import opened Assoc
  import opened Seqs
  import opened Masks
  import opened Organize
  import opened Generator

  // ---------------------------------------------------------------------------
  // Conflict records
  // ---------------------------------------------------------------------------

  datatype ConflictKind = CourseConflict | ComplexConflict

  /** `{ type, courses, message, suggestion }`. */
  datatype Conflict = Conflict(kind: ConflictKind, courses: seq<string>, message: string, suggestion: Option<string>)

  /** The courses of `filteredCourses` in key order, each with
      `Object.values` of its sections. */
  function Entries(cat: Catalog): (es: seq<(string, seq<Section>)>)
    ensures |es| == |cat|
    ensures forall i :: 0 <= i < |cat| ==> es[i] == (cat[i].0, Values(cat[i].1))
  {
    seq(|cat|, i requires 0 <= i < |cat| => (cat[i].0, Values(cat[i].1)))
  }

  /** Some section of `a` shares no hour with some section of `b`. */
  predicate Compatible(a: seq<Section>, b: seq<Section>) {
    exists i, j :: 0 <= i < |a| && 0 <= j < |b| && !Overlap(a[i].mask, b[j].mask)
  }

  const WholeHead: string := "Try adding the whole course '"
  const WholeTail: string := "' instead of a specific section to see more options."
  const PairTail: string := " are blocking each other."
  const TrioHead: string := "3-Way Time Conflict: No schedule allows taking "
  const TrioAdvice: string := "One of these 3 courses is blocking the others. Try changing sections or removing one."
  const FallbackMessage: string := "Complex time conflict detected involving multiple courses."
  const FallbackAdvice: string := "Try changing sections for one of these courses."

  function SuggestWhole(code: string): string {
    WholeHead + code + WholeTail
  }

  /** The suggestion of a blocked pair: when one of the two was picked by
      section and the full courses do have a compatible pair, advise adding
      the first section-specific one whole. */
  function Suggestion(raw: Catalog, c1: string, c2: string, addedSections: seq<SectionRef>): (r: Option<string>)
    ensures r.Some? ==> SectionSpecific(addedSections, c1) || SectionSpecific(addedSections, c2)
    ensures r.Some? <==>
      (SectionSpecific(addedSections, c1) || SectionSpecific(addedSections, c2)) &&
      Compatible(Values(Get(raw, c1).GetOr([])), Values(Get(raw, c2).GetOr([])))
  {
    if SectionSpecific(addedSections, c1) || SectionSpecific(addedSections, c2) then
      if Compatible(Values(Get(raw, c1).GetOr([])), Values(Get(raw, c2).GetOr([]))) then
        Some(SuggestWhole(if SectionSpecific(addedSections, c1) then c1 else c2))
      else None
    else None
  }

  function PairConflict(c1: string, c2: string, suggestion: Option<string>): Conflict {
    Conflict(CourseConflict, [c1, c2], c1 + " and " + c2 + PairTail, suggestion)
  }

  function TrioConflict(c1: string, c2: string, c3: string): Conflict {
    Conflict(ComplexConflict, [c1, c2, c3],
             TrioHead + c1 + ", " + c2 + ", and " + c3 + " together.",
             Some(TrioAdvice))
  }

  /** The fallback record of `generateSchedule` when no pair or trio is to
      blame. */
  function FallbackConflict(courses: seq<string>): Conflict {
    Conflict(ComplexConflict, courses, FallbackMessage, Some(FallbackAdvice))
  }

  // ---------------------------------------------------------------------------
  // Pairwise pass
  // ---------------------------------------------------------------------------

  /** The blocked pairs `(i, b)`, `b` from `j` on, in loop order. */
  function RowPairs(es: seq<(string, seq<Section>)>, i: nat, j: nat): (ps: seq<(nat, nat)>)
    requires i < |es| && j <= |es|
    ensures forall k :: 0 <= k < |ps| ==> ps[k].0 == i && j <= ps[k].1 < |es|
    decreases |es| - j
  {
    if j == |es| then []
    else (if Compatible(es[i].1, es[j].1) then [] else [(i, j)]) + RowPairs(es, i, j + 1)
  }

  /** The blocked pairs `(a, b)`, `i <= a < b`, in the order of the two
      nested loops. */
  function BlockedPairs(es: seq<(string, seq<Section>)>, i: nat): (ps: seq<(nat, nat)>)
    requires i <= |es|
    ensures forall k :: 0 <= k < |ps| ==> i <= ps[k].0 < ps[k].1 < |es|
    decreases |es| - i
  {
    if i == |es| then [] else RowPairs(es, i, i + 1) + BlockedPairs(es, i + 1)
  }

  /** A pair `(i, b)` with `b >= j` is listed exactly when no section of one
      is free of every section of the other. */
  lemma {:induction false} InRowPairs(es: seq<(string, seq<Section>)>, i: nat, j: nat, b: nat)
    requires i < |es| && j <= |es|
    ensures (i, b) in RowPairs(es, i, j) <==> j <= b < |es| && !Compatible(es[i].1, es[b].1)
    decreases |es| - j
  {
    if j < |es| {
      InRowPairs(es, i, j + 1, b);
    }
  }

  /** The blocked pairs are exactly the pairs `a < b` of courses with no
      compatible pair of sections. */
  lemma {:induction false} InBlockedPairs(es: seq<(string, seq<Section>)>, i: nat, a: nat, b: nat)
    requires i <= |es|
    ensures (a, b) in BlockedPairs(es, i) <==> i <= a < b < |es| && !Compatible(es[a].1, es[b].1)
    decreases |es| - i
  {
    if i < |es| {
      InBlockedPairs(es, i + 1, a, b);
      if a == i {
        InRowPairs(es, i, i + 1, b);
      } else if (a, b) in RowPairs(es, i, i + 1) {
        assert false;
      }
    }
  }

  /** No pair is blocked exactly when every two courses have a compatible
      pair of sections. */
  lemma NoBlockedPairs(es: seq<(string, seq<Section>)>)
    ensures BlockedPairs(es, 0) == [] <==> forall a, b :: 0 <= a < b < |es| ==> Compatible(es[a].1, es[b].1)
  {
    var ps := BlockedPairs(es, 0);
    if ps != [] {
      var a, b := ps[0].0, ps[0].1;
      assert (a, b) in ps;
      InBlockedPairs(es, 0, a, b);
      assert 0 <= a < b < |es| && !Compatible(es[a].1, es[b].1);
    } else {
      forall a, b | 0 <= a < b < |es| ensures Compatible(es[a].1, es[b].1) {
        InBlockedPairs(es, 0, a, b);
      }
    }
  }

  /** The suggestion rule of `detectConflicts` for a given basket, as a
      function of the two course codes. */
  function Suggester(raw: Catalog, addedSections: seq<SectionRef>): (string, string) -> Option<string> {
    (c1: string, c2: string) => Suggestion(raw, c1, c2, addedSections)
  }

  /** The `COURSE_CONFLICT` record of the pair `(a, b)`. */
  function ConflictOf(es: seq<(string, seq<Section>)>, suggest: (string, string) -> Option<string>, a: nat, b: nat): Conflict
    requires a < |es| && b < |es|
  {
    PairConflict(es[a].0, es[b].0, suggest(es[a].0, es[b].0))
  }

  predicate PairsIn(es: seq<(string, seq<Section>)>, ps: seq<(nat, nat)>) {
    forall k :: 0 <= k < |ps| ==> ps[k].0 < |es| && ps[k].1 < |es|
  }

  /** One record per listed pair, in the same order. */
  function Records(es: seq<(string, seq<Section>)>, suggest: (string, string) -> Option<string>, ps: seq<(nat, nat)>): (r: seq<Conflict>)
    requires PairsIn(es, ps)
    ensures |r| == |ps|
    ensures forall k :: 0 <= k < |ps| ==> r[k] == ConflictOf(es, suggest, ps[k].0, ps[k].1)
  {
    seq(|ps|, k requires 0 <= k < |ps| => ConflictOf(es, suggest, ps[k].0, ps[k].1))
  }

  lemma RecordsAppend(es: seq<(string, seq<Section>)>, suggest: (string, string) -> Option<string>, p: seq<(nat, nat)>, q: seq<(nat, nat)>)
    requires PairsIn(es, p) && PairsIn(es, q)
    ensures PairsIn(es, p + q)
    ensures Records(es, suggest, p + q) == Records(es, suggest, p) + Records(es, suggest, q)
  {
    assert forall k :: 0 <= k < |p + q| ==> (p + q)[k] == if k < |p| then p[k] else q[k - |p|];
  }

  /** The pairwise records of `detectConflicts`. */
  function PairRecords(es: seq<(string, seq<Section>)>, suggest: (string, string) -> Option<string>): (r: seq<Conflict>)
    ensures |r| == |BlockedPairs(es, 0)|
  {
    var ps := BlockedPairs(es, 0);
    assert PairsIn(es, ps);
    Records(es, suggest, ps)
  }

  /** The inner scan of `hasCompatiblePair`: some section of `b` is free
      of `x`. */
  method FreeWith(x: Section, b: seq<Section>) returns (found: bool)
    ensures found <==> exists j :: 0 <= j < |b| && !Overlap(x.mask, b[j].mask)
  {
    var j := 0;
    while j < |b|
      invariant 0 <= j <= |b|
      invariant forall l :: 0 <= l < j ==> Overlap(x.mask, b[l].mask)
    {
      var conflict := SectionsConflict(x.mask, b[j].mask);
      if !conflict {
        return true;
      }
      j := j + 1;
    }
    return false;
  }

  /** The two nested loops that set `hasCompatiblePair` (and
      `alternativeExists`). */
  method HasCompatiblePair(a: seq<Section>, b: seq<Section>) returns (found: bool)
    ensures found <==> Compatible(a, b)
  {
    var i := 0;
    while i < |a|
      invariant 0 <= i <= |a|
      invariant forall l, j :: 0 <= l < i && 0 <= j < |b| ==> Overlap(a[l].mask, b[j].mask)
    {
      found := FreeWith(a[i], b);
      if found {
        return;
      }
      i := i + 1;
    }
    return false;
  }

  method SuggestionFor(raw: Catalog, c1: string, c2: string, addedSections: seq<SectionRef>) returns (r: Option<string>)
    ensures r == Suggestion(raw, c1, c2, addedSections)
  {
    var specific1 := SectionSpecific(addedSections, c1);
    var specific2 := SectionSpecific(addedSections, c2);
    r := None;
    if specific1 || specific2 {
      var alternativeExists := HasCompatiblePair(Values(Get(raw, c1).GetOr([])), Values(Get(raw, c2).GetOr([])));
      if alternativeExists {
        r := Some(SuggestWhole(if specific1 then c1 else c2));
      }
    }
  }

  /** One turn of the `j` loop: the records of the pairs from `j` on are
      the record of `(i, j)`, if blocked, then those from `j + 1` on. */
  lemma RowPairsStep(es: seq<(string, seq<Section>)>, i: nat, j: nat)
    requires i < |es| && j < |es|
    ensures Compatible(es[i].1, es[j].1) ==> RowPairs(es, i, j) == RowPairs(es, i, j + 1)
    ensures !Compatible(es[i].1, es[j].1) ==> RowPairs(es, i, j) == [(i, j)] + RowPairs(es, i, j + 1)
  {
  }

  lemma RowRecordsStep(es: seq<(string, seq<Section>)>, suggest: (string, string) -> Option<string>, i: nat, j: nat)
    requires i < |es| && j < |es|
    ensures PairsIn(es, RowPairs(es, i, j)) && PairsIn(es, RowPairs(es, i, j + 1))
    ensures Records(es, suggest, RowPairs(es, i, j)) ==
      (if Compatible(es[i].1, es[j].1) then [] else [ConflictOf(es, suggest, i, j)])
        + Records(es, suggest, RowPairs(es, i, j + 1))
  {
    RowPairsStep(es, i, j);
    var rest := RowPairs(es, i, j + 1);
    if !Compatible(es[i].1, es[j].1) {
      RecordsAppend(es, suggest, [(i, j)], rest);
    } else {
      assert [] + Records(es, suggest, rest) == Records(es, suggest, rest);
    }
  }

  /** The inner `j` loop for course `i`. */
  method ScanRow(es: seq<(string, seq<Section>)>, raw: Catalog, addedSections: seq<SectionRef>, i: nat)
    returns (row: seq<Conflict>)
    requires i < |es|
    ensures PairsIn(es, RowPairs(es, i, i + 1))
    ensures row == Records(es, Suggester(raw, addedSections), RowPairs(es, i, i + 1))
  {
    var suggest := Suggester(raw, addedSections);
    row := [];
    var total := Records(es, suggest, RowPairs(es, i, i + 1));
    var j := i + 1;
    while j < |es|
      invariant i + 1 <= j <= |es|
      invariant row + Records(es, suggest, RowPairs(es, i, j)) == total
      decreases |es| - j
    {
      var compatible := HasCompatiblePair(es[i].1, es[j].1);
      RowRecordsStep(es, suggest, i, j);
      var rest := Records(es, suggest, RowPairs(es, i, j + 1));
      if !compatible {
        var suggestion := SuggestionFor(raw, es[i].0, es[j].0, addedSections);
        var c := PairConflict(es[i].0, es[j].0, suggestion);
        AppendStep(row, [c], rest, total, row + [c]);
        row := row + [c];
      } else {
        AppendStep(row, [], rest, total, row);
      }
      j := j + 1;
    }
    assert row + [] == row;
  }

  /** The pairwise loops of `detectConflicts`. */
  method ScanPairs(es: seq<(string, seq<Section>)>, raw: Catalog, addedSections: seq<SectionRef>)
    returns (conflicts: seq<Conflict>)
    ensures conflicts == PairRecords(es, Suggester(raw, addedSections))
  {
    var suggest := Suggester(raw, addedSections);
    conflicts := [];
    var total := PairRecords(es, suggest);
    var i := 0;
    while i < |es|
      invariant 0 <= i <= |es|
      invariant PairsIn(es, BlockedPairs(es, i))
      invariant conflicts + Records(es, suggest, BlockedPairs(es, i)) == total
      decreases |es| - i
    {
      var row := ScanRow(es, raw, addedSections, i);
      var rest := BlockedPairs(es, i + 1);
      assert BlockedPairs(es, i) == RowPairs(es, i, i + 1) + rest;
      RecordsAppend(es, suggest, RowPairs(es, i, i + 1), rest);
      AppendStep(conflicts, row, Records(es, suggest, rest), total, conflicts + row);
      conflicts := conflicts + row;
      i := i + 1;
    }
    assert conflicts + [] == conflicts;
  }

  // ---------------------------------------------------------------------------
  // Three-way pass
  // ---------------------------------------------------------------------------

  /** One section from each of the three lists, no two sharing an hour. */
  predicate TrioCompatible(a: seq<Section>, b: seq<Section>, c: seq<Section>) {
    exists x, y, z :: 0 <= x < |a| && 0 <= y < |b| && 0 <= z < |c| &&
             !Overlap(a[x].mask, b[y].mask) && !Overlap(a[x].mask, c[z].mask) && !Overlap(b[y].mask, c[z].mask)
  }

  predicate TrioBad(es: seq<(string, seq<Section>)>, i: nat, j: nat, k: nat)
    requires i < |es| && j < |es| && k < |es|
  {
    !TrioCompatible(es[i].1, es[j].1, es[k].1)
  }

  /** `(i, j, k)` is the first blocked trio in the order of the three nested
      loops. */
  ghost predicate FirstBadTrio(es: seq<(string, seq<Section>)>, i: nat, j: nat, k: nat) {
    && i < j < k < |es|
    && TrioBad(es, i, j, k)
    && (forall a, b, c :: 0 <= a < b < c < |es| && (a < i || (a == i && (b < j || (b == j && c < k)))) ==>
          !TrioBad(es, a, b, c))
  }

  /** The innermost loop: a section of `c` free of both `x` and `y`. */
  method FreeWithBoth(x: Section, y: Section, c: seq<Section>) returns (found: bool)
    ensures found <==> exists z :: 0 <= z < |c| && !Overlap(x.mask, c[z].mask) && !Overlap(y.mask, c[z].mask)
  {
    var z := 0;
    while z < |c|
      invariant 0 <= z <= |c|
      invariant forall l :: 0 <= l < z ==> Overlap(x.mask, c[l].mask) || Overlap(y.mask, c[l].mask)
    {
      var conflict13 := SectionsConflict(x.mask, c[z].mask);
      if !conflict13 {
        var conflict23 := SectionsConflict(y.mask, c[z].mask);
        if !conflict23 {
          return true;
        }
      }
      z := z + 1;
    }
    return false;
  }

  /** The middle loop: a section of `b` free of `x` that has a third. */
  method FreePairWith(x: Section, b: seq<Section>, c: seq<Section>) returns (found: bool)
    ensures found <==> (exists y, z :: 0 <= y < |b| && 0 <= z < |c| &&
                          !Overlap(x.mask, b[y].mask) && !Overlap(x.mask, c[z].mask) && !Overlap(b[y].mask, c[z].mask))
  {
    var y := 0;
    while y < |b|
      invariant 0 <= y <= |b|
      invariant forall l, z :: 0 <= l < y && 0 <= z < |c| ==>
        Overlap(x.mask, b[l].mask) || Overlap(x.mask, c[z].mask) || Overlap(b[l].mask, c[z].mask)
    {
      var conflict12 := SectionsConflict(x.mask, b[y].mask);
      if !conflict12 {
        found := FreeWithBoth(x, b[y], c);
        if found {
          return;
        }
      }
      y := y + 1;
    }
    return false;
  }

  /** The three nested loops that set `hasCompatibleTrio`. */
  method HasCompatibleTrio(a: seq<Section>, b: seq<Section>, c: seq<Section>) returns (found: bool)
    ensures found <==> TrioCompatible(a, b, c)
  {
    var x := 0;
    while x < |a|
      invariant 0 <= x <= |a|
      invariant forall l, y, z :: 0 <= l < x && 0 <= y < |b| && 0 <= z < |c| ==>
        Overlap(a[l].mask, b[y].mask) || Overlap(a[l].mask, c[z].mask) || Overlap(b[y].mask, c[z].mask)
    {
      found := FreePairWith(a[x], b, c);
      if found {
        return;
      }
      x := x + 1;
    }
    return false;
  }

  /** The `k` loop for fixed `i < j`. */
  method FindBadThird(es: seq<(string, seq<Section>)>, i: nat, j: nat) returns (r: Option<nat>)
    requires i < j < |es|
    ensures r.Some? ==> j < r.value < |es| && TrioBad(es, i, j, r.value)
    ensures r.Some? ==> forall c :: j < c < r.value ==> !TrioBad(es, i, j, c)
    ensures r.None? ==> forall c :: j < c < |es| ==> !TrioBad(es, i, j, c)
  {
    var k := j + 1;
    while k < |es|
      invariant j + 1 <= k <= |es|
      invariant forall c :: j < c < k ==> !TrioBad(es, i, j, c)
    {
      var ok := HasCompatibleTrio(es[i].1, es[j].1, es[k].1);
      if !ok {
        return Some(k);
      }
      k := k + 1;
    }
    return None;
  }

  /** The `j` and `k` loops for fixed `i`. */
  method FindBadPair(es: seq<(string, seq<Section>)>, i: nat) returns (r: Option<(nat, nat)>)
    requires i < |es|
    ensures r.Some? ==> i < r.value.0 < r.value.1 < |es| && TrioBad(es, i, r.value.0, r.value.1)
    ensures r.Some? ==> forall b, c :: i < b < c < |es| && (b < r.value.0 || (b == r.value.0 && c < r.value.1)) ==>
      !TrioBad(es, i, b, c)
    ensures r.None? ==> forall b, c :: i < b < c < |es| ==> !TrioBad(es, i, b, c)
  {
    var j := i + 1;
    while j < |es|
      invariant i + 1 <= j <= |es|
      invariant forall b, c :: i < b < j && b < c < |es| ==> !TrioBad(es, i, b, c)
    {
      var k := FindBadThird(es, i, j);
      if k.Some? {
        return Some((j, k.value));
      }
      j := j + 1;
    }
    return None;
  }

  /** The three-way loops of `detectConflicts`: the first blocked trio, if
      any. */
  method FindBadTrio(es: seq<(string, seq<Section>)>) returns (r: Option<(nat, nat, nat)>)
    ensures r.Some? ==> FirstBadTrio(es, r.value.0, r.value.1, r.value.2)
    ensures r.None? ==> forall a, b, c :: 0 <= a < b < c < |es| ==> !TrioBad(es, a, b, c)
  {
    var i := 0;
    while i < |es|
      invariant 0 <= i <= |es|
      invariant forall a, b, c :: 0 <= a < i && a < b < c < |es| ==> !TrioBad(es, a, b, c)
    {
      var p := FindBadPair(es, i);
      if p.Some? {
        return Some((i, p.value.0, p.value.1));
      }
      i := i + 1;
    }
    return None;
  }

  /** What `detectConflicts` returns, given the pairwise records `pairs`:
      those records; when there are none and at least three courses, the
      record of the first blocked trio, or nothing when no trio is blocked. */
  ghost predicate DetectResult(es: seq<(string, seq<Section>)>, pairs: seq<Conflict>, conflicts: seq<Conflict>) {
    if pairs != [] || |es| < 3 then conflicts == pairs
    else if conflicts == [] then forall a, b, c :: 0 <= a < b < c < |es| ==> !TrioBad(es, a, b, c)
    else exists i: nat, j: nat, k: nat :: FirstBadTrio(es, i, j, k) && conflicts == [TrioConflict(es[i].0, es[j].0, es[k].0)]
  }

  /** `detectConflicts`, in the shape its authors evidently meant: the
      pairwise records; when there are none and at least three courses, the
      record of the first blocked trio, if any. */
  method DetectConflicts(filtered: Catalog, raw: Catalog, addedSections: seq<SectionRef>)
    returns (conflicts: seq<Conflict>)
    ensures DetectResult(Entries(filtered), PairRecords(Entries(filtered), Suggester(raw, addedSections)), conflicts)
  {
    var es := Entries(filtered);
    conflicts := ScanPairs(es, raw, addedSections);
    if |conflicts| == 0 && |es| >= 3 {
      var trio := FindBadTrio(es);
      if trio.Some? {
        var (i, j, k) := trio.value;
        conflicts := [TrioConflict(es[i].0, es[j].0, es[k].0)];
        assert FirstBadTrio(es, i, j, k);
      }
    }
  }

  /** A non-empty result of the trio pass names a blocked trio. */
  lemma DetectResultTrio(es: seq<(string, seq<Section>)>, conflicts: seq<Conflict>)
    requires DetectResult(es, [], conflicts) && |es| >= 3 && conflicts != []
    ensures |conflicts| == 1 && conflicts[0].kind == ComplexConflict && |conflicts[0].courses| == 3
    ensures exists a: nat, b: nat, c: nat :: a < b < c < |es| && TrioBad(es, a, b, c)
  {
  }

  /** A valid schedule takes, for any two courses, two sections that share
      no hour; so a pair reported as blocked has no schedule at all. */
  lemma ValidMeetsPairs(cs: seq<seq<Section>>, used: Mask, sch: seq<Section>, a: nat, b: nat)
    requires Valid(sch, cs, used) && a < b < |cs|
    ensures Compatible(cs[a], cs[b])
  {
    var x :| 0 <= x < |cs[a]| && cs[a][x] == sch[a];
    var y :| 0 <= y < |cs[b]| && cs[b][y] == sch[b];
    assert !Overlap(cs[a][x].mask, cs[b][y].mask);
  }

  /** Likewise for three courses: a trio reported as blocked has no
      schedule. */
  lemma ValidMeetsTrios(cs: seq<seq<Section>>, used: Mask, sch: seq<Section>, a: nat, b: nat, c: nat)
    requires Valid(sch, cs, used) && a < b < c < |cs|
    ensures TrioCompatible(cs[a], cs[b], cs[c])
  {
    var x :| 0 <= x < |cs[a]| && cs[a][x] == sch[a];
    var y :| 0 <= y < |cs[b]| && cs[b][y] == sch[b];
    var z :| 0 <= z < |cs[c]| && cs[c][z] == sch[c];
    assert !Overlap(cs[a][x].mask, cs[b][y].mask);
    assert !Overlap(cs[a][x].mask, cs[c][z].mask);
    assert !Overlap(cs[b][y].mask, cs[c][z].mask);
  }

  // ---------------------------------------------------------------------------
  // Soundness of the diagnosis
  // ---------------------------------------------------------------------------

  /** When the search finds a schedule, no pair of courses is blocked. */
  lemma ScheduleMeansNoBlockedPair(filtered: Catalog)
    ensures Choices(Options(filtered), NoHours) != [] ==> BlockedPairs(Entries(filtered), 0) == []
  {
    var cs := Options(filtered);
    var es := Entries(filtered);
    if Choices(cs, NoHours) != [] {
      var sch := Choices(cs, NoHours)[0];
      ChoicesValid(cs, NoHours, sch);
      forall a, b | 0 <= a < b < |es| ensures Compatible(es[a].1, es[b].1) {
        ValidMeetsPairs(cs, NoHours, sch, a, b);
      }
      NoBlockedPairs(es);
    }
  }

  /** When the search finds a schedule, no trio of courses is blocked. */
  lemma ScheduleMeansNoBadTrio(filtered: Catalog)
    ensures Choices(Options(filtered), NoHours) != [] ==>
      forall a, b, c :: 0 <= a < b < c < |filtered| ==> !TrioBad(Entries(filtered), a, b, c)
  {
    var cs := Options(filtered);
    var es := Entries(filtered);
    if Choices(cs, NoHours) != [] {
      var sch := Choices(cs, NoHours)[0];
      ChoicesValid(cs, NoHours, sch);
      forall a, b, c | 0 <= a < b < c < |es| ensures !TrioBad(es, a, b, c) {
        ValidMeetsTrios(cs, NoHours, sch, a, b, c);
      }
    }
  }

  // ---------------------------------------------------------------------------
  // generateSchedule
  // ---------------------------------------------------------------------------

  const MaxPotentialCombos: nat := 1000000
  const EmptyBasket: string := "No courses in basket"
  const NoCourseData: string := "No course data found in database"
  const NoneValid: string := "No valid schedules found (all combinations have time conflicts)"

  /** The answer of `generateSchedule`: a refusal with its message, the
      `COMBINATION_OVERLOAD` refusal with the product that tripped it, a
      successful run with no schedule and the conflicts that explain it, or
      the schedules found. */
  datatype Response =
    | Rejected(message: string)
    | Overload(potentialCombos: nat)
    | NoSchedules(message: string, conflicts: seq<Conflict>)
    | Found(totalSchedules: nat, totalGenerated: nat, limited: bool, schedules: seq<ScheduleView>)

  /** `[...new Set([...addedCourses, ...addedSections.map(s => s.course)])]`. */
  function BasketCodes(addedCourses: seq<string>, addedSections: seq<SectionRef>): (codes: seq<string>)
    ensures NoDups(codes)
    ensures forall c :: c in codes <==> c in addedCourses || SectionSpecific(addedSections, c)
  {
    var all := addedCourses + seq(|addedSections|, i requires 0 <= i < |addedSections| => addedSections[i].course);
    var codes := Dedup(all);
    assert forall c :: c in codes <==> c in all;
    assert forall c :: c in all <==> c in addedCourses || SectionSpecific(addedSections, c) by {
      forall c ensures c in all <==> c in addedCourses || SectionSpecific(addedSections, c) {
        if SectionSpecific(addedSections, c) {
          var k :| 0 <= k < |addedSections| && addedSections[k].course == c;
          assert all[|addedCourses| + k] == c;
        }
        if c in all && c !in addedCourses {
          var k :| 0 <= k < |all| && all[k] == c;
          assert 0 <= k - |addedCourses| < |addedSections| && addedSections[k - |addedCourses|].course == c;
        }
      }
    }
    codes
  }

  /** The conflicts reported for a successful run with no schedule: those
      of `detectConflicts`, or the single fallback record over every course
      when it reports none. */
  ghost predicate Diagnosed(filtered: Catalog, raw: Catalog, addedSections: seq<SectionRef>, conflicts: seq<Conflict>) {
    var es := Entries(filtered);
    var pairs := PairRecords(es, Suggester(raw, addedSections));
    || (conflicts != [] && DetectResult(es, pairs, conflicts))
    || (DetectResult(es, pairs, []) && conflicts == [FallbackConflict(Keys(filtered))])
  }

  lemma ProductStep(cs: seq<seq<Section>>, i: nat)
    requires i < |cs|
    ensures Product(cs[i..]) == |cs[i]| * Product(cs[i + 1..])
  {
    assert cs[i..][1..] == cs[i + 1..];
  }

  lemma MulAssoc(a: nat, b: nat, c: nat)
    ensures a * (b * c) == (a * b) * c
  {
  }

  /** The `reduce` of the combination guard: the product of the section
      counts, multiplied in course order from 1. */
  method PotentialCombos(filtered: Catalog) returns (p: nat)
    ensures p == Product(Options(filtered))
  {
    var cs := Options(filtered);
    p := 1;
    var i := 0;
    while i < |filtered|
      invariant 0 <= i <= |filtered|
      invariant p * Product(cs[i..]) == Product(cs)
    {
      var n := |filtered[i].1|;
      ProductStep(cs, i);
      MulAssoc(p, n, Product(cs[i + 1..]));
      p := p * n;
      i := i + 1;
    }
  }

  /** What a run that found schedules answers: the count of all of them
      (never above the guard's bound), the first 120 of them transformed
      (all of them when there are fewer), each a valid schedule, and whether
      any were cut off. */
  ghost predicate FoundAnswer(cs: seq<seq<Section>>, totalSchedules: nat, totalGenerated: nat, limited: bool, schedules: seq<ScheduleView>) {
    var all := Choices(cs, NoHours);
    && 0 < totalGenerated == |all| <= MaxPotentialCombos
    && totalSchedules == |schedules| == (if |all| <= MaxSchedules then |all| else MaxSchedules)
    && limited == (totalGenerated > MaxSchedules)
    && forall i :: 0 <= i < |schedules| ==> Valid(all[i], cs, NoHours) && schedules[i] == TransformSchedule(all[i])
  }

  /** The answer once the basket is non-empty and the database has rows for
      it: the guard's refusal, the diagnosis of an empty result, or the
      schedules. */
  ghost predicate Answer(filtered: Catalog, raw: Catalog, addedSections: seq<SectionRef>, r: Response) {
    var cs := Options(filtered);
    if Product(cs) > MaxPotentialCombos then r == Overload(Product(cs))
    else if Choices(cs, NoHours) == [] then
      r.NoSchedules? && r.message == NoneValid && Diagnosed(filtered, raw, addedSections, r.conflicts)
    else
      r.Found? && FoundAnswer(cs, r.totalSchedules, r.totalGenerated, r.limited, r.schedules)
  }

  /** `generateSchedule(addedCourses, addedSections)`. The database query
      is the parameter `fetch`, from the de-duplicated course codes to the
      rows of the current term. */
  method GenerateSchedule(addedCourses: seq<string>, addedSections: seq<SectionRef>, fetch: seq<string> -> seq<Row>)
    returns (r: Response)
    ensures (addedCourses == [] && addedSections == []) <==> r == Rejected(EmptyBasket)
    ensures r == Rejected(NoCourseData) <==>
      (addedCourses != [] || addedSections != []) && fetch(BasketCodes(addedCourses, addedSections)) == []
    ensures !r.Rejected? ==>
      var organized := OrganizeCourseData(fetch(BasketCodes(addedCourses, addedSections)), addedCourses, addedSections);
      Answer(organized.0, organized.1, addedSections, r)
  {
    if addedCourses == [] && addedSections == [] {
      return Rejected(EmptyBasket);
    }
    var codes := BasketCodes(addedCourses, addedSections);
    var rows := fetch(codes);
    if rows == [] {
      return Rejected(NoCourseData);
    }
    var (filtered, raw) := OrganizeCourseData(rows, addedCourses, addedSections);
    var cs := Options(filtered);
    var combos := PotentialCombos(filtered);
    if combos > MaxPotentialCombos {
      return Overload(combos);
    }
    var result := RunWorker(filtered);
    if result.totalGenerated == 0 {
      var conflicts := DetectConflicts(filtered, raw, addedSections);
      if conflicts == [] {
        conflicts := [FallbackConflict(Keys(filtered))];
      }
      return NoSchedules(NoneValid, conflicts);
    }
    ChoicesAtMost(cs, NoHours);
    r := Found(|result.schedules|, result.totalGenerated, result.limited.value, result.schedules);
    assert FoundAnswer(cs, r.totalSchedules, r.totalGenerated, r.limited, r.schedules);
  }
}
