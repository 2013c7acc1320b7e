/** The Python seeding and CSV import of the main database: the 70-row
    `time_slots` grid, and `add_courses_from_csv`, which turns each CSV row
    into a course row, its required hours and its slot-mapping rows, each
    row all-or-nothing. Parsing a credit number with `float` is a parameter;
    the `time_slots` table is a sequence of rows whose ids count from 1. */
module SeedImport {
  import opened Wrappers
  import opened Strings
  import opened Seqs
  import opened Masks
  import opened SlotLabels

  // ---------------------------------------------------------------------------
  // populate_time_slots
  // ---------------------------------------------------------------------------

  /** The `time_slots` rows a seeding writes: the five days, and for each
      the hours from 8 up to `hi - 1`, labelled `"{h}:40"`, day-major. This
      script seeds `Seeding(22)`, 8:40 through 21:40. */
  function Seeding(hi: nat): seq<SlotRow> {
    Grid(Days, Labels(8, hi))
  }

  lemma {:induction false} DaysDistinct()
    ensures NoDups(Days)
  {
    assert Days[0][0] == 'P' && Days[1][0] == 'S' && Days[2][0] == 'Ç' && Days[3][0] == 'P' && Days[4][0] == 'C';
    assert |Days[0]| == 9 && |Days[3]| == 8;
  }

  /** Five rows per hour. */
  lemma {:induction false} SeedingSize(hi: nat)
    requires 8 <= hi
    ensures |Seeding(hi)| == 5 * (hi - 8)
  {
    GridShape(Days, Labels(8, hi));
  }

  /** `populate_time_slots` writes 70 rows. */
  lemma {:induction false} SeedRowCount()
    ensures |Seeding(22)| == 70
  {
    SeedingSize(22);
  }

  /** The row for day `k` and hour `h` gets the id `14k + h - 7`. */
  lemma {:induction false} SeededIds(k: nat, h: nat)
    requires k < 5 && 8 <= h < 22
    ensures TimeId(Seeding(22), Days[k], SlotLabel(h)) == Some(14 * k + h - 7)
  {
    DaysDistinct();
    GridTimeId(Days, 8, 22, k, h);
    OffsetIsProduct(k, 14);
  }

  /** No label from an hour above 0 starts with '0'. */
  lemma {:induction false} LabelsUnpadded(lo: nat, hi: nat, text: string)
    requires 0 < lo && text in Labels(lo, hi)
    ensures |text| > 0 && text[0] != '0'
  {
    var ls := Labels(lo, hi);
    var j :| 0 <= j < |ls| && ls[j] == text;
    var n := NatToString(lo + j);
    assert text == n + ":40";
    assert text[0] == n[0];
  }

  /** Every seeded row names one of the days and an unpadded label. */
  lemma {:induction false} SeedLabelsUnpadded(day: string, text: string)
    requires (day, text) in Seeding(22)
    ensures day in Days
    ensures |text| > 0 && text[0] != '0'
  {
    GridShape(Days, Labels(8, 22));
    var i :| 0 <= i < |Seeding(22)| && Seeding(22)[i] == (day, text);
    assert Seeding(22)[i].0 in Days && Seeding(22)[i].1 in Labels(8, 22);
    LabelsUnpadded(8, 22, text);
  }

  /** A zero-padded label such as "08:40" names no seeded slot. */
  lemma PaddedLabelMissing(day: string, text: string)
    requires |text| > 0 && text[0] == '0'
    ensures TimeId(Seeding(22), day, text) == None
  {
    if (day, text) in Seeding(22) {
      SeedLabelsUnpadded(day, text);
    }
  }

  // ---------------------------------------------------------------------------
  // add_courses_from_csv: one session line
  // ---------------------------------------------------------------------------

  /** `day, hour = time.split(" | ")` and `hour.split(" - ")`: the day and
      the raw start and end, or `None` where Python raises (not exactly two
      parts, or no end). */
  function PySession(time: string): (r: Option<(string, string, string)>)
    ensures r.Some? ==> !Contains(r.value.0, " | ") && !Contains(r.value.1, " - ") && !Contains(r.value.2, " - ")
    ensures r.Some? ==> |Split(time, " | ")| == 2 && Split(time, " | ")[0] == r.value.0
  {
    var parts := Split(time, " | ");
    if |parts| != 2 then None
    else
      var hs := Split(parts[1], " - ");
      if |hs| < 2 then None else Some((parts[0], hs[0], hs[1]))
  }

  /** `int(t[0:2])`: the hour of a time as the source reads it. */
  function PyHour(t: string): Option<int> {
    PyInt(Prefix2(t))
  }

  /** `end_hour - start_hour` of one session line; minutes play no part. */
  function SessionHours(time: string): Option<int> {
    match PySession(time)
    case None => None
    case Some((_, start, end)) =>
      match (PyHour(start), PyHour(end))
      case (Some(a), Some(b)) => Some(b - a)
      case _ => None
  }

  /** `required`: the sum of the session spans, or `None` when any line
      raises. */
  function Required(sessions: seq<string>): (r: Option<int>)
    ensures r.Some? <==> forall i :: 0 <= i < |sessions| ==> SessionHours(sessions[i]).Some?
  {
    var spans := seq(|sessions|, i requires 0 <= i < |sessions| => SessionHours(sessions[i]));
    assert forall i :: 0 <= i < |sessions| ==> spans[i] == SessionHours(sessions[i]);
    SumAll(spans)
  }

  /** One mapping row: `(start_time_id, end_time_id)`. */
  type SlotIds = (nat, nat)

  /** The second loop on one session line: the start must end in ":40", the
      end is mapped by `EndSlotLabel`, and a row is written only when both
      exact-text lookups find a slot. */
  function SessionSlot(day: string, start: string, end: string, table: seq<SlotRow>): (r: Option<SlotIds>)
    ensures r.Some? ==> EndsWith(PyStrip(start), ":40") && EndSlotLabel(PyStrip(end)).Some?
    ensures r.Some? ==> TimeId(table, day, PyStrip(start)) == Some(r.value.0)
    ensures r.Some? ==> TimeId(table, day, EndSlotLabel(PyStrip(end)).value) == Some(r.value.1)
    ensures r.None? <==>
      !EndsWith(PyStrip(start), ":40") || EndSlotLabel(PyStrip(end)).None?
      || TimeId(table, day, PyStrip(start)).None? || TimeId(table, day, EndSlotLabel(PyStrip(end)).value).None?
  {
    var s := PyStrip(start);
    var e := PyStrip(end);
    if !EndsWith(s, ":40") then None
    else match EndSlotLabel(e)
      case None => None
      case Some(target) =>
        match (TimeId(table, day, s), TimeId(table, day, target))
        case (Some(a), Some(b)) => Some((a, b))
        case _ => None
  }

  /** The mapping row of one session line, if it writes one. */
  function LineSlot(line: string, table: seq<SlotRow>): (r: Option<SlotIds>)
    ensures r.Some? ==> PySession(line).Some?
  {
    match PySession(line)
    case Some((day, start, end)) => SessionSlot(day, start, end, table)
    case None => None
  }

  /** The mapping rows of a course: one per session line that maps. */
  function Slots(sessions: seq<string>, table: seq<SlotRow>): seq<SlotIds> {
    FilterMap(sessions, (line: string) => LineSlot(line, table))
  }

  // ---------------------------------------------------------------------------
  // add_courses_from_csv: rows
  // ---------------------------------------------------------------------------

  datatype CourseRecord = CourseRecord(
    courseName: string, sectionName: string, faculty: string, description: string,
    credits: int, lecturer: string, required: int)

  /** What one committed row leaves in the database. */
  datatype Imported = Imported(course: CourseRecord, slots: seq<SlotIds>)

  /** The course record a row of at least seven cells inserts. */
  function Record(row: seq<string>, credits: int, required: int): (c: CourseRecord)
    requires |row| >= 7
    ensures c.courseName == row[0] && c.sectionName == row[0] + row[1]
    ensures c.faculty == row[2] && c.description == row[3] && c.lecturer == row[5]
    ensures c.credits == credits && c.required == required
  {
    CourseRecord(row[0], row[0] + row[1], row[2], row[3], credits, row[5], required)
  }

  /** A text PostgreSQL stores in a VARCHAR(255) column: at most 255
      characters, or an excess made only of spaces, which it cuts off. */
  predicate FitsVarchar(s: string) {
    |s| <= 255 || forall i :: 255 <= i < |s| ==> s[i] == ' '
  }

  /** The column types of `courses`: VARCHAR(255) texts, credits in
      DECIMAL(5,2) (below 1000, so below 100000 hundredths) and `required`
      a 32-bit INTEGER. */
  predicate FitsSchema(c: CourseRecord) {
    && FitsVarchar(c.courseName) && FitsVarchar(c.sectionName)
    && FitsVarchar(c.faculty) && FitsVarchar(c.lecturer)
    && -100000 < c.credits < 100000
    && -0x8000_0000 <= c.required < 0x8000_0000
  }

  /** One CSV row under its savepoint: `None` when anything raises (a short
      row, a credit `float` rejects, a malformed session line, or the
      database refusing the course INSERT, which `accepts` decides), in
      which case nothing of the row is kept. */
  function ImportRow(row: seq<string>, parseFloat: string -> Option<int>, accepts: CourseRecord -> bool,
                     table: seq<SlotRow>): (r: Option<Imported>)
    ensures r.Some? <==>
      && |row| >= 7 && parseFloat(row[4]).Some? && Required(Split(PyStrip(row[6]), "\n")).Some?
      && accepts(Record(row, parseFloat(row[4]).value, Required(Split(PyStrip(row[6]), "\n")).value))
    ensures r.Some? ==>
      && r.value.course.courseName == row[0]
      && r.value.course.sectionName == row[0] + row[1]
      && r.value.course.credits == parseFloat(row[4]).value
      && r.value.course.required == Required(Split(PyStrip(row[6]), "\n")).value
      && accepts(r.value.course)
      && r.value.slots == Slots(Split(PyStrip(row[6]), "\n"), table)
  {
    if |row| < 7 then None
    else match parseFloat(row[4])
      case None => None
      case Some(credits) =>
        var sessions := Split(PyStrip(row[6]), "\n");
        match Required(sessions)
        case None => None
        case Some(required) =>
          var course := Record(row, credits, required);
          if !accepts(course) then None
          else Some(Imported(course, Slots(sessions, table)))
  }

  /** Whatever else the database checks, a row whose credits reach 1000 or
      whose name glued to its section overflows VARCHAR(255) is rolled
      back. */
  lemma SchemaOverflowRolledBack(row: seq<string>, parseFloat: string -> Option<int>, accepts: CourseRecord -> bool,
                                 table: seq<SlotRow>)
    requires forall c :: accepts(c) ==> FitsSchema(c)
    requires |row| >= 7
    requires (parseFloat(row[4]).Some? && parseFloat(row[4]).value >= 100000) || !FitsVarchar(row[0] + row[1])
    ensures ImportRow(row, parseFloat, accepts, table).None?
  {
  }

  /** The rows that commit, in file order. */
  function ImportAll(rows: seq<seq<string>>, parseFloat: string -> Option<int>, accepts: CourseRecord -> bool,
                     table: seq<SlotRow>): seq<Imported> {
    FilterMap(rows, (row: seq<string>) => ImportRow(row, parseFloat, accepts, table))
  }

  /** `add_courses_from_csv`: the header line is skipped. */
  function AddCoursesFromCsv(data: seq<seq<string>>, parseFloat: string -> Option<int>, accepts: CourseRecord -> bool,
                             table: seq<SlotRow>): seq<Imported> {
    if |data| == 0 then [] else ImportAll(data[1..], parseFloat, accepts, table)
  }

  /** Rows are independent: importing two runs of rows is importing each. */
  lemma {:induction false} ImportAllAppend(a: seq<seq<string>>, b: seq<seq<string>>, parseFloat: string -> Option<int>,
                                            accepts: CourseRecord -> bool, table: seq<SlotRow>)
    ensures ImportAll(a + b, parseFloat, accepts, table)
         == ImportAll(a, parseFloat, accepts, table) + ImportAll(b, parseFloat, accepts, table)
  {
    FilterMapAppend(a, b, (row: seq<string>) => ImportRow(row, parseFloat, accepts, table));
  }

  /** A failing row is rolled back: it leaves nothing, and the rows around
      it import as if it were not there. */
  lemma {:induction false} FailedRowLeavesNothing(a: seq<seq<string>>, row: seq<string>, b: seq<seq<string>>,
                                                  parseFloat: string -> Option<int>, accepts: CourseRecord -> bool,
                                                  table: seq<SlotRow>)
    requires ImportRow(row, parseFloat, accepts, table).None?
    ensures ImportAll(a + [row] + b, parseFloat, accepts, table)
         == ImportAll(a, parseFloat, accepts, table) + ImportAll(b, parseFloat, accepts, table)
  {
    FilterMapSkip(a, row, b, (r: seq<string>) => ImportRow(r, parseFloat, accepts, table));
  }

  // ---------------------------------------------------------------------------
  // Morning sessions
  // ---------------------------------------------------------------------------

  lemma UnpaddedPrefix(h: nat)
    requires h < 10
    ensures Prefix2(NatToString(h) + ":40") == [DigitChar(h), ':']
  {
  }

  /** As written, an unpadded morning start such as "8:40" makes
      `int("8:")` raise. */
  lemma UnpaddedMorningUnreadable(h: nat)
    requires h < 10
    ensures PyHour(NatToString(h) + ":40") == None
  {
    var p := Prefix2(NatToString(h) + ":40");
    UnpaddedPrefix(h);
    assert !IsPySpace(p[0]) && !IsPySpace(p[1]);
    TrimKeepsTrimmed(p, IsPySpace);
    assert !IsDigit(p[1]);
  }

  /** As written, a padded morning start such as "08:40" never finds its
      slot: whatever the day and the end, no mapping row is written. */
  lemma PaddedMorningUnmapped(day: string, h: nat, end: string)
    requires h < 10
    ensures SessionSlot(day, PadStart2(NatToString(h)) + ":40", end, Seeding(22)) == None
  {
    var s := PadStart2(NatToString(h)) + ":40";
    assert s[0] == '0';
    assert !IsPySpace(s[0]) && !IsPySpace(s[|s| - 1]);
    TrimKeepsTrimmed(s, IsPySpace);
    PaddedLabelMissing(day, s);
  }

  /** The hour of a time read as the integer before the first ':', which
      accepts both "8:40" and "08:40". */
  function FixedHour(t: string): Option<int> {
    PyInt(BeforeColon(t))
  }

  /** The label a start time is meant to name: `f"{hour}:40"` of its hour. */
  function CanonicalStart(start: string): Option<string> {
    match FixedHour(PyStrip(start))
    case Some(h) => if h >= 0 then Some(SlotLabel(h)) else None
    case None => None
  }

  /** The session mapping with the start looked up by its canonical label. */
  function FixedSessionSlot(day: string, start: string, end: string, table: seq<SlotRow>): (r: Option<SlotIds>)
    ensures r.Some? ==> CanonicalStart(start).Some? && TimeId(table, day, CanonicalStart(start).value) == Some(r.value.0)
  {
    match (CanonicalStart(start), EndSlotLabel(PyStrip(end)))
    case (Some(s), Some(target)) =>
      (match (TimeId(table, day, s), TimeId(table, day, target))
       case (Some(a), Some(b)) => Some((a, b))
       case _ => None)
    case _ => None
  }

  lemma {:induction false} PaddedDigits(h: nat)
    requires h < 10
    ensures var p := PadStart2(NatToString(h));
      |p| > 0 && AllDigits(p) && DigitsValue(p) == h
  {
    var p := PadStart2(NatToString(h));
    assert p == ['0', DigitChar(h)];
    assert p[..1] == ['0'];
    assert p[..1][..0] == [];
    assert DigitsValue(p[..1]) == 10 * DigitsValue([]) + DigitValue('0') == 0;
    assert DigitsValue(p) == 10 * DigitsValue(p[..1]) + DigitValue(p[1]);
  }

  lemma {:induction false} NoColonInDigits(p: string)
    requires AllDigits(p)
    ensures ':' !in p
  {
    forall i | 0 <= i < |p| ensures p[i] != ':' {
      assert IsDigit(p[i]);
    }
  }

  lemma {:induction false} BeforeColonOf(x: string)
    requires ':' !in x
    ensures BeforeColon(x + ":40") == x
  {
    var t := x + ":40";
    var r := BeforeColon(t);
    forall i | 0 <= i < |x| ensures t[i] != ':' {
      assert t[i] == x[i];
    }
    assert t[|x|] == ':';
    assert |r| == |x|;
  }

  /** Python's `int` reads a run of digits as its value. */
  lemma {:induction false} PyIntDigits(p: string)
    requires |p| > 0 && AllDigits(p)
    ensures PyInt(p) == Some(DigitsValue(p))
  {
    assert IsDigit(p[0]) && IsDigit(p[|p| - 1]);
    TrimKeepsTrimmed(p, IsPySpace);
  }

  lemma {:induction false} FixedHourOfDigits(p: string)
    requires |p| > 0 && AllDigits(p)
    ensures FixedHour(p + ":40") == Some(DigitsValue(p))
  {
    NoColonInDigits(p);
    BeforeColonOf(p);
    PyIntDigits(p);
  }

  /** Both spellings of an hour's start read back as that hour. */
  lemma {:induction false} FixedHourReadsBoth(h: nat)
    ensures FixedHour(NatToString(h) + ":40") == Some(h)
    ensures FixedHour(PadStart2(NatToString(h)) + ":40") == Some(h)
  {
    var n := NatToString(h);
    NatToStringRoundTrip(h);
    FixedHourOfDigits(n);
    if h < 10 {
      PaddedDigits(h);
      FixedHourOfDigits(PadStart2(n));
    } else {
      assert PadStart2(n) == n;
    }
  }

  lemma {:induction false} CanonicalStartOf(t: string, h: nat)
    requires PyStrip(t) == t && FixedHour(t) == Some(h)
    ensures CanonicalStart(t) == Some(SlotLabel(h))
  {
  }

  lemma {:induction false} StripTimeKeeps(t: string)
    requires |t| >= 2 && IsDigit(t[0]) && t[|t| - 1] == '0'
    ensures PyStrip(t) == t
  {
    assert !IsPySpace(t[0]) && !IsPySpace(t[|t| - 1]);
    TrimKeepsTrimmed(t, IsPySpace);
  }

  lemma {:induction false} CanonicalOfDigits(p: string)
    requires |p| > 0 && AllDigits(p)
    ensures CanonicalStart(p + ":40") == Some(SlotLabel(DigitsValue(p)))
  {
    StripTimeKeeps(p + ":40");
    FixedHourOfDigits(p);
    CanonicalStartOf(p + ":40", DigitsValue(p));
  }

  /** Both spellings of a start at hour `h` name the label `"{h}:40"`. */
  lemma {:induction false} CanonicalStartOfBoth(h: nat)
    ensures CanonicalStart(NatToString(h) + ":40") == Some(SlotLabel(h))
    ensures CanonicalStart(PadStart2(NatToString(h)) + ":40") == Some(SlotLabel(h))
  {
    var n := NatToString(h);
    NatToStringRoundTrip(h);
    CanonicalOfDigits(n);
    if h < 10 {
      PaddedDigits(h);
      CanonicalOfDigits(PadStart2(n));
    } else {
      assert PadStart2(n) == n;
    }
  }

  /** Corrected: a start at hour `h` of a seeded day, spelt "h:40" or
      "0h:40", names the slot with id `14k + h - 7`. */
  lemma {:induction false} FixedStartMapped(k: nat, h: nat)
    requires k < 5 && 8 <= h < 22
    ensures CanonicalStart(NatToString(h) + ":40") == Some(SlotLabel(h))
    ensures CanonicalStart(PadStart2(NatToString(h)) + ":40") == Some(SlotLabel(h))
    ensures TimeId(Seeding(22), Days[k], SlotLabel(h)) == Some(14 * k + h - 7)
  {
    CanonicalStartOfBoth(h);
    SeededIds(k, h);
  }
}
