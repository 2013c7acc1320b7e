/** The older loader script: `handle_time_table` seeds 65 slots (hours
    8..20), and `add_to_db` derives slot ids by arithmetic on the day and the
    hour instead of looking them up. The script has no per-row error
    handling: the first row that raises ends the run. The rows before it stay
    committed, and so does whatever the raising row committed before it
    raised, since the script commits after every INSERT. */
module ArithSlots {
  import opened Wrappers
  import opened Strings
  import opened Seqs
  import opened Masks
  import opened SlotLabels
  import opened SeedImport

  /** `day_id`: the id of the day's 8:40 slot, or 0 for any other day. */
  function DayBase(day: string): (d: nat)
    ensures day in Days ==> d == 13 * DayIndex(day).value + 1
    ensures day !in Days ==> d == 0
  {
    if day == "Pazartesi" then 1
    else if day == "Salı" then 14
    else if day == "Çarşamba" then 27
    else if day == "Perşembe" then 40
    else if day == "Cuma" then 53
    else 0
  }

  lemma {:induction false} DayBaseOf(k: nat)
    requires k < 5
    ensures DayBase(Days[k]) == 13 * k + 1
  {
    DaysDistinct();
    assert Days[k] in Days;
  }

  /** `(start_hour_id + day_id, end_hour_id + day_id)` for a session from
      hour `a` to hour `b`: the end id is that of the last hour taken. */
  function ArithIds(day: string, a: int, b: int): (int, int) {
    (a - 8 + DayBase(day), (b - 1) - 8 + DayBase(day))
  }

  /** `handle_time_table` writes 65 rows. */
  lemma {:induction false} ScriptRowCount()
    ensures |Seeding(21)| == 65
  {
    SeedingSize(21);
  }

  /** The row for day `k` and hour `h` gets the id `13k + h - 7`. */
  lemma {:induction false} ScriptIds(k: nat, h: nat)
    requires k < 5 && 8 <= h < 21
    ensures TimeId(Seeding(21), Days[k], SlotLabel(h)) == Some(13 * k + h - 7)
  {
    DaysDistinct();
    GridTimeId(Days, 8, 21, k, h);
    OffsetIsProduct(k, 13);
  }

  /** The arithmetic agrees with the seeding order: a session on a seeded
      day starting at hour `a`, within 8..20, gets the id of the slot
      `"{a}:40"`. */
  lemma {:induction false} ArithStartMatches(k: nat, a: nat, b: int)
    requires k < 5 && 8 <= a < 21
    ensures TimeId(Seeding(21), Days[k], SlotLabel(a)) == Some(ArithIds(Days[k], a, b).0)
  {
    DayBaseOf(k);
    ScriptIds(k, a);
  }

  /** A session ending at hour `b`, within 9..21, gets as end id that of the
      slot `"{b-1}:40"`, the last hour it takes. */
  lemma {:induction false} ArithEndMatches(k: nat, a: int, b: nat)
    requires k < 5 && 8 < b <= 21
    ensures TimeId(Seeding(21), Days[k], SlotLabel(b - 1)) == Some(ArithIds(Days[k], a, b).1)
  {
    DayBaseOf(k);
    ScriptIds(k, b - 1);
  }

  /** There is no bounds check: an unknown day yields ids that count from 0,
      below every seeded id, and a Friday session starting at 21 names
      id 66, past the 65 seeded slots. */
  lemma {:induction false} NoBoundsCheck(day: string)
    requires day !in Days
    ensures ArithIds(day, 8, 9) == (0, 0)
    ensures ArithIds("Cuma", 21, 22).0 == 66 && |Seeding(21)| == 65
  {
    SeedingSize(21);
  }

  lemma {:induction false} TwoDigitNumeral(h: nat)
    requires 10 <= h < 100
    ensures |NatToString(h)| == 2
  {
    assert NatToString(h) == NatToString(h / 10) + [DigitChar(h % 10)];
  }

  /** `int(t[0:2])` reads a zero-padded start "HH:40" as its hour: the
      script's arithmetic serves padded times. */
  lemma {:induction false} PaddedHourRead(h: nat)
    requires h < 100
    ensures PyHour(PadStart2(NatToString(h)) + ":40") == Some(h)
  {
    var n := NatToString(h);
    var p := PadStart2(n);
    if h < 10 {
      PaddedDigits(h);
    } else {
      TwoDigitNumeral(h);
      assert p == n;
      NatToStringRoundTrip(h);
    }
    assert |p| == 2;
    assert Prefix2(p + ":40") == p;
    PyIntDigits(p);
  }

  /** The ids one session line writes, or `None` where the line raises. */
  function LineIds(line: string): (r: Option<(int, int)>)
    ensures r.Some? <==> SessionHours(line).Some?
  {
    match PySession(line)
    case None => None
    case Some((day, start, end)) =>
      match (PyHour(start), PyHour(end))
      case (Some(a), Some(b)) => Some(ArithIds(day, a, b))
      case _ => None
  }

  /** The slots `handle_time_table` leaves in a fresh database have the ids
      1 to `slotCount` (65). `course_time_slots` has foreign keys on both
      slot ids, which MySQL's InnoDB engine enforces: a slot row naming
      any other id raises `IntegrityError`. */
  predicate SlotExists(id: int, slotCount: nat) {
    1 <= id <= slotCount
  }

  predicate IdsExist(ids: (int, int), slotCount: nat) {
    SlotExists(ids.0, slotCount) && SlotExists(ids.1, slotCount)
  }

  /** The slot loop over lines that all parse, `ids` giving the id pair of
      a line: the pairs are inserted in order until one names a missing
      slot, which raises. */
  function InsertSlots(lines: seq<string>, ids: string -> Option<(int, int)>, slotCount: nat): (r: (seq<(int, int)>, bool))
    requires forall i :: 0 <= i < |lines| ==> ids(lines[i]).Some?
    ensures |r.0| <= |lines|
    ensures forall i :: 0 <= i < |r.0| ==> ids(lines[i]) == Some(r.0[i]) && IdsExist(r.0[i], slotCount)
    ensures r.1 <==> |r.0| < |lines|
    ensures r.1 ==> !IdsExist(ids(lines[|r.0|]).value, slotCount)
  {
    if |lines| == 0 then ([], false)
    else
      var pair := ids(lines[0]).value;
      if !IdsExist(pair, slotCount) then ([], true)
      else
        var rest := InsertSlots(lines[1..], ids, slotCount);
        assert forall i :: 0 < i < |lines| ==> lines[1..][i - 1] == lines[i];
        ([pair] + rest.0, rest.1)
  }

  /** A course row of the script: `credits` stays the CSV text. */
  datatype ScriptCourse = ScriptCourse(
    courseName: string, sectionName: string, faculty: string, description: string,
    credits: string, lecturer: string, required: int)

  /** What one row leaves committed, and whether it raised. Every INSERT
      is committed on its own, so a row that raises in the slot loop keeps
      its course and the slot rows before the failing one. */
  datatype RowEffect = RowEffect(course: Option<ScriptCourse>, slots: seq<(int, int)>, raised: bool)

  /** One row against a database holding `slotCount` slots. A short row or
      a malformed session line raises before the course INSERT. Otherwise
      the course is committed, and the slot loop, which reads the same
      lines, inserts their id pairs until one names a missing slot. */
  function ScriptRow(row: seq<string>, slotCount: nat): (r: RowEffect)
    ensures r.course.Some? <==> |row| >= 7 && Required(Split(PyStrip(row[6]), "\n")).Some?
    ensures r.course.None? ==> r.raised && r.slots == []
    ensures r.course.Some? ==>
      var lines := Split(PyStrip(row[6]), "\n");
      && r.course.value.sectionName == row[0] + row[1]
      && r.course.value.credits == row[4]
      && |r.slots| <= |lines|
      && (forall i :: 0 <= i < |r.slots| ==> LineIds(lines[i]) == Some(r.slots[i]) && IdsExist(r.slots[i], slotCount))
      && (r.raised <==> |r.slots| < |lines|)
      && (r.raised ==> LineIds(lines[|r.slots|]).Some? && !IdsExist(LineIds(lines[|r.slots|]).value, slotCount))
  {
    if |row| < 7 then RowEffect(None, [], true)
    else
      var lines := Split(PyStrip(row[6]), "\n");
      match Required(lines)
      case None => RowEffect(None, [], true)
      case Some(required) =>
        var (slots, raised) := InsertSlots(lines, LineIds, slotCount);
        RowEffect(Some(ScriptCourse(row[0], row[0] + row[1], row[2], row[3], row[4], row[5], required)),
                  slots, raised)
  }

  /** The course and slot rows of a row that ran to its end. */
  function Completed(row: seq<string>, slotCount: nat): Option<(ScriptCourse, seq<(int, int)>)> {
    var e := ScriptRow(row, slotCount);
    if e.raised then None else Some((e.course.value, e.slots))
  }

  /** The effect of a run: the rows that ran to their end, and the row that
      raised, if one did. */
  datatype Run = Run(completed: seq<(ScriptCourse, seq<(int, int)>)>, failed: Option<RowEffect>)

  /** `add_to_db` over the rows after the header: rows run in order until
      one raises; what that row committed stays, and no later row runs. */
  function AddToDb(rows: seq<seq<string>>, slotCount: nat): (r: Run)
    ensures |r.completed| <= |rows|
    ensures forall j :: 0 <= j < |r.completed| ==>
      ScriptRow(rows[j], slotCount) == RowEffect(Some(r.completed[j].0), r.completed[j].1, false)
    ensures r.failed.Some? ==>
      |r.completed| < |rows| && r.failed.value == ScriptRow(rows[|r.completed|], slotCount) && r.failed.value.raised
    ensures r.failed.None? ==> |r.completed| == |rows|
  {
    var (done, stopped) := TakeWhileSome(rows, row => Completed(row, slotCount));
    Run(done, if stopped then Some(ScriptRow(rows[|done|], slotCount)) else None)
  }

  /** The run stops exactly at the first row that raises, whether it raised
      before its course INSERT or at a slot row naming a missing slot. */
  lemma StopsAtFirstFailure(rows: seq<seq<string>>, slotCount: nat, i: nat)
    requires i < |rows| && ScriptRow(rows[i], slotCount).raised
    requires forall j :: 0 <= j < i ==> !ScriptRow(rows[j], slotCount).raised
    ensures |AddToDb(rows, slotCount).completed| == i
    ensures AddToDb(rows, slotCount).failed == Some(ScriptRow(rows[i], slotCount))
  {
  }

  /** A readable row with a session whose ids name a missing slot, such as
      one on an unknown day (`NoBoundsCheck`), commits its course and then
      raises at or before that session's slot row. */
  lemma MissingSlotRaises(row: seq<string>, slotCount: nat, i: nat)
    requires |row| >= 7
    requires var lines := Split(PyStrip(row[6]), "\n");
      Required(lines).Some? && i < |lines| && LineIds(lines[i]).Some? && !IdsExist(LineIds(lines[i]).value, slotCount)
    ensures var r := ScriptRow(row, slotCount);
      r.course.Some? && r.raised && |r.slots| <= i
  {
  }
}
