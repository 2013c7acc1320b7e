/** The spreadsheet import of the admin dashboard (`importFromExcel`): each
    row of the first sheet becomes a course of a term's own table, with its
    required hours and its slot-mapping rows, inside a transaction of its
    own; a row that throws is rolled back, counted as failed and logged.
    A sheet row is the object `sheet_to_json` builds: a map from column name
    to cell text, a missing key being `undefined`. Parsing a credit number
    and the database's acceptance of a course row are parameters. */
module ImportService {
  import opened Wrappers
  import opened Strings
  import opened Seqs
  import opened SlotLabels

  // ---------------------------------------------------------------------------
  // Term tables
  // ---------------------------------------------------------------------------

  /** A character of the class `[a-z0-9_]`. */
  predicate IsTableChar(c: char) {
    IsAsciiLower(c) || IsDigit(c) || c == '_'
  }

  /** `term.replace(/[^a-zA-Z0-9]/g, '_')`. */
  function ReplaceNonAlnum(s: string): (r: string)
    ensures |r| == |s|
    ensures forall i :: 0 <= i < |s| ==> r[i] == if IsAsciiAlnum(s[i]) then s[i] else '_'
  {
    seq(|s|, i requires 0 <= i < |s| => if IsAsciiAlnum(s[i]) then s[i] else '_')
  }

  /** The sanitised term: non-alphanumerics replaced by '_', then lower-cased
      (only ASCII is left to lower by then). */
  function SanitizeTerm(term: string): (r: string)
    ensures |r| == |term|
    ensures forall i :: 0 <= i < |r| ==> IsTableChar(r[i])
    ensures forall i :: 0 <= i < |r| ==> (r[i] == '_' <==> !IsAsciiAlnum(term[i]) || term[i] == '_')
  {
    AsciiLower(ReplaceNonAlnum(term))
  }

  /** Sanitising a sanitised term changes nothing. */
  lemma SanitizeIdempotent(term: string)
    ensures SanitizeTerm(SanitizeTerm(term)) == SanitizeTerm(term)
  {
    var t := SanitizeTerm(term);
    var u := SanitizeTerm(t);
    forall i | 0 <= i < |t| ensures u[i] == t[i] {
      assert IsTableChar(t[i]);
    }
  }

  /** Two terms that differ only in the case of ASCII letters, or in which
      non-alphanumeric character stands at a place, share their tables. */
  lemma SanitizeMerges(a: string, b: string)
    requires |a| == |b|
    requires forall i :: 0 <= i < |a| ==>
      (IsAsciiAlnum(a[i]) <==> IsAsciiAlnum(b[i])) && (IsAsciiAlnum(a[i]) ==> LowerChar(a[i]) == LowerChar(b[i]))
    ensures SanitizeTerm(a) == SanitizeTerm(b)
  {
    var ra := SanitizeTerm(a);
    var rb := SanitizeTerm(b);
    forall i | 0 <= i < |a| ensures ra[i] == rb[i] {
      assert ra[i] == LowerChar(ReplaceNonAlnum(a)[i]);
      assert rb[i] == LowerChar(ReplaceNonAlnum(b)[i]);
    }
  }

  const CoursesPrefix: string := "courses_"
  const SlotsPrefix: string := "course_time_slots_"

  /** The two tables a term's import writes to. */
  function TermTables(term: string): (string, string) {
    (CoursesPrefix + SanitizeTerm(term), SlotsPrefix + SanitizeTerm(term))
  }

  // ---------------------------------------------------------------------------
  // One row
  // ---------------------------------------------------------------------------

  /** A sheet row: column name to cell text. */
  type SheetRow = map<string, string>

  /** `row[key] || fallback`: the cell, unless it is missing or empty. */
  function CellOr(row: SheetRow, key: string, fallback: string): (r: string)
    ensures key in row && row[key] != "" ==> r == row[key]
    ensures key !in row || row[key] == "" ==> r == fallback
  {
    if key in row && row[key] != "" then row[key] else fallback
  }

  /** `${row[key]}`: the cell, or the text "undefined". */
  function CellText(row: SheetRow, key: string): string {
    if key in row then row[key] else "undefined"
  }

  /** `parseFloat(row['CREDITS']) || 0`: `NaN` (here `None`) becomes 0. */
  function Credits(row: SheetRow, parseFloat: string -> Option<int>): (c: int)
    ensures "CREDITS" in row && parseFloat(row["CREDITS"]).Some? ==> c == parseFloat(row["CREDITS"]).value
    ensures "CREDITS" !in row || parseFloat(row["CREDITS"]).None? ==> c == 0
  {
    if "CREDITS" in row then parseFloat(row["CREDITS"]).GetOr(0) else 0
  }

  /** The session lines: the trimmed schedule text split into lines, those
      holding a '|', each once, in the order of first occurrence. */
  function SessionLines(timeInfo: string): (lines: seq<string>)
    ensures NoDups(lines)
    ensures forall i :: 0 <= i < |lines| ==> Contains(lines[i], "|") && lines[i] in Split(JsTrim(timeInfo), "\n")
    ensures forall l :: l in Split(JsTrim(timeInfo), "\n") && Contains(l, "|") ==> l in lines
  {
    var all := Split(JsTrim(timeInfo), "\n");
    Dedup(Filter(all, (l: string) => Contains(l, "|")))
  }

  /** `slot.split('|')` then `hourPart.split('-')`, every part trimmed: the
      day, start and end, or `None` where the code throws (no end). */
  function JsSession(slot: string): (r: Option<(string, string, string)>)
    ensures Contains(slot, "|") && r.None? ==> |Split(JsTrim(Split(slot, "|")[1]), "-")| < 2
  {
    var parts := Split(slot, "|");
    if |parts| < 2 then None
    else
      var hs := Split(JsTrim(parts[1]), "-");
      if |hs| < 2 then None else Some((JsTrim(parts[0]), JsTrim(hs[0]), JsTrim(hs[1])))
  }

  /** `parseInt(t.substring(0, 2))`, `None` being `NaN`. */
  function JsHour(t: string): Option<int> {
    JsParseInt(Prefix2(t))
  }

  /** `endHour - startHour` of a parsed session; `None` when either is `NaN`. */
  function JsSpan(session: (string, string, string)): Option<int> {
    match (JsHour(session.1), JsHour(session.2))
    case (Some(a), Some(b)) => Some(b - a)
    case _ => None
  }

  /** The start-to-end rules and the two lookups of the slot loop. */
  function MapSlot(day: string, start: string, end: string, table: seq<SlotRow>): (r: Option<(nat, nat)>)
    ensures r.Some? ==> EndsWith(start, ":40") && EndSlotLabel(end).Some?
    ensures r.Some? <==>
      EndsWith(start, ":40") && EndSlotLabel(end).Some?
      && TimeId(table, JsTrim(day), start).Some? && TimeId(table, JsTrim(day), EndSlotLabel(end).value).Some?
    ensures r.Some? ==> r.value == (TimeId(table, JsTrim(day), start).value, TimeId(table, JsTrim(day), EndSlotLabel(end).value).value)
  {
    if !EndsWith(start, ":40") then None
    else match EndSlotLabel(end)
      case None => None
      case Some(target) =>
        match (TimeId(table, JsTrim(day), start), TimeId(table, JsTrim(day), target))
        case (Some(a), Some(b)) => Some((a, b))
        case _ => None
  }

  /** Why a row failed. */
  datatype Failure =
    | MissingCode      // no SUBJECT or no COURSENO
    | NoEndTime        // a session line without '-': `end.substring` throws
    | NotANumber       // `requiredHours` is `NaN`, which the integer column refuses
    | Refused         // the database refused the course row

  datatype CourseRow = CourseRow(
    courseCode: string, courseName: string, sectionName: string, faculty: string,
    description: string, credits: int, lecturer: string, required: int, term: string,
    prerequisites: string, corequisites: string)

  datatype Outcome =
    | Committed(course: CourseRow, slots: seq<(nat, nat)>)
    | Failed(courseText: string, why: Failure)

  /** The parsed sessions, all of them, or `None` when one throws. */
  function Sessions(lines: seq<string>): (r: Option<seq<(string, string, string)>>)
    ensures r.Some? <==> forall i :: 0 <= i < |lines| ==> JsSession(lines[i]).Some?
    ensures r.Some? ==> |r.value| == |lines| && forall i :: 0 <= i < |lines| ==> JsSession(lines[i]) == Some(r.value[i])
  {
    var (parsed, stopped) := TakeWhileSome(lines, JsSession);
    if stopped then None else Some(parsed)
  }

  /** `requiredHours`: the sum of the spans, `None` when one is `NaN`. */
  function RequiredHours(sessions: seq<(string, string, string)>): (r: Option<int>)
    ensures r.Some? <==> forall i :: 0 <= i < |sessions| ==> JsSpan(sessions[i]).Some?
  {
    var spans := seq(|sessions|, i requires 0 <= i < |sessions| => JsSpan(sessions[i]));
    assert forall i :: 0 <= i < |sessions| ==> spans[i] == JsSpan(sessions[i]);
    SumAll(spans)
  }

  function MapSession(session: (string, string, string), table: seq<SlotRow>): Option<(nat, nat)> {
    MapSlot(session.0, session.1, session.2, table)
  }

  /** The slot rows of a course: one per session that maps. */
  function SessionSlots(sessions: seq<(string, string, string)>, table: seq<SlotRow>): seq<(nat, nat)> {
    FilterMap(sessions, (s: (string, string, string)) => MapSession(s, table))
  }

  /** The session lines of a row. */
  function RowLines(row: SheetRow): seq<string> {
    SessionLines(CellOr(row, "SCHEDULEFORPRINT", ""))
  }

  /** What a committed row holds: the code and section name glued from the
      cells, the defaults for missing cells, the required hours and slot
      rows of its sessions, and a course row the database accepted. */
  ghost predicate BuiltFrom(row: SheetRow, term: string, parseFloat: string -> Option<int>,
                            accepts: CourseRow -> bool, table: seq<SlotRow>,
                            course: CourseRow, slots: seq<(nat, nat)>) {
    var code := CellOr(row, "SUBJECT", "") + CellOr(row, "COURSENO", "");
    && CellOr(row, "SUBJECT", "") != "" && CellOr(row, "COURSENO", "") != ""
    && course.courseCode == code
    && course.sectionName == code + CellOr(row, "SECTIONNO", "")
    && course.faculty == CellOr(row, "FACULTY", "Unknown")
    && course.lecturer == CellOr(row, "INSTRUCTORFULLNAME", "TBA")
    && course.credits == Credits(row, parseFloat)
    && course.term == term
    && accepts(course)
    && Sessions(RowLines(row)).Some?
    && RequiredHours(Sessions(RowLines(row)).value) == Some(course.required)
    && slots == SessionSlots(Sessions(RowLines(row)).value, table)
  }

  /** Both halves of the course code are present and non-empty. */
  predicate CodesPresent(row: SheetRow) {
    CellOr(row, "SUBJECT", "") != "" && CellOr(row, "COURSENO", "") != ""
  }

  /** The course row a row inserts once its required hours are known. */
  function BuildCourse(row: SheetRow, term: string, parseFloat: string -> Option<int>, required: int): CourseRow {
    var code := CellOr(row, "SUBJECT", "") + CellOr(row, "COURSENO", "");
    CourseRow(code, CellOr(row, "TITLE", ""), code + CellOr(row, "SECTIONNO", ""),
              CellOr(row, "FACULTY", "Unknown"), CellOr(row, "DESCRIPTION", ""),
              Credits(row, parseFloat), CellOr(row, "INSTRUCTORFULLNAME", "TBA"), required, term,
              CellOr(row, "PREREQUISITE", ""), CellOr(row, "COREQUISITE", ""))
  }

  /** One row inside its transaction. The checks run in order: the code,
      then every session line's end, then the required hours, then the
      database; the first that fails names the failure, and a row that
      passes them all commits. Unreadable credits are no failure. */
  function ImportSheetRow(row: SheetRow, term: string, parseFloat: string -> Option<int>,
                     accepts: CourseRow -> bool, table: seq<SlotRow>): (r: Outcome)
    ensures r.Failed? ==> r.courseText == CellText(row, "SUBJECT") + " " + CellText(row, "COURSENO")
    ensures r.Failed? && r.why == MissingCode <==> !CodesPresent(row)
    ensures r.Failed? && r.why == NoEndTime <==> CodesPresent(row) && Sessions(RowLines(row)).None?
    ensures r.Failed? && r.why == NotANumber <==>
      CodesPresent(row) && Sessions(RowLines(row)).Some? && RequiredHours(Sessions(RowLines(row)).value).None?
    ensures r.Failed? && r.why == Refused <==>
      CodesPresent(row) && Sessions(RowLines(row)).Some? && RequiredHours(Sessions(RowLines(row)).value).Some?
      && !accepts(BuildCourse(row, term, parseFloat, RequiredHours(Sessions(RowLines(row)).value).value))
    ensures r.Committed? <==>
      CodesPresent(row) && Sessions(RowLines(row)).Some? && RequiredHours(Sessions(RowLines(row)).value).Some?
      && accepts(BuildCourse(row, term, parseFloat, RequiredHours(Sessions(RowLines(row)).value).value))
    ensures r.Committed? ==> BuiltFrom(row, term, parseFloat, accepts, table, r.course, r.slots)
  {
    var failed := (why: Failure) => Failed(CellText(row, "SUBJECT") + " " + CellText(row, "COURSENO"), why);
    if !CodesPresent(row) then failed(MissingCode)
    else
      match Sessions(RowLines(row))
      case None => failed(NoEndTime)
      case Some(sessions) =>
        match RequiredHours(sessions)
        case None => failed(NotANumber)
        case Some(required) =>
          var course := BuildCourse(row, term, parseFloat, required);
          if !accepts(course) then failed(Refused)
          else Committed(course, SessionSlots(sessions, table))
  }

  /** A row whose credits `parseFloat` cannot read, or that has none, is
      committed all the same, with 0 credits. */
  lemma UnreadableCreditsCommit(row: SheetRow, term: string, parseFloat: string -> Option<int>,
                                accepts: CourseRow -> bool, table: seq<SlotRow>)
    requires "CREDITS" !in row || parseFloat(row["CREDITS"]).None?
    requires CodesPresent(row) && Sessions(RowLines(row)).Some?
    requires RequiredHours(Sessions(RowLines(row)).value).Some?
    requires accepts(BuildCourse(row, term, parseFloat, RequiredHours(Sessions(RowLines(row)).value).value))
    ensures var r := ImportSheetRow(row, term, parseFloat, accepts, table);
      r.Committed? && r.course.credits == 0
  {
  }

  // ---------------------------------------------------------------------------
  // The sheet
  // ---------------------------------------------------------------------------

  /** One entry of `results.logs`. */
  datatype LogEntry = LogEntry(row: nat, course: string, error: Failure)

  datatype Results = Results(success: nat, failed: nat, logs: seq<LogEntry>, total: nat, committed: seq<Outcome>)

  /** The sheet rows numbers of the logged failures. */
  function LogRows(logs: seq<LogEntry>): set<nat> {
    set e | e in logs :: e.row
  }

  /** The counters and the log after the first `|outcomes|` rows. */
  function Tally(outcomes: seq<Outcome>): (r: Results)
    ensures r.success + r.failed == r.total == |outcomes|
    ensures |r.logs| == r.failed && |r.committed| == r.success
    ensures forall i :: 0 <= i < |outcomes| ==> (outcomes[i].Failed? <==> i + 2 in LogRows(r.logs))
    ensures forall e :: e in r.logs ==> 2 <= e.row < |outcomes| + 2
    ensures forall c :: c in r.committed ==> c.Committed?
  {
    if |outcomes| == 0 then Results(0, 0, [], 0, [])
    else
      var n := |outcomes| - 1;
      var init := outcomes[..n];
      var prev := Tally(init);
      assert forall i :: 0 <= i < n ==> init[i] == outcomes[i];
      match outcomes[n]
      case Committed(_, _) =>
        Results(prev.success + 1, prev.failed, prev.logs, prev.total + 1, prev.committed + [outcomes[n]])
      case Failed(text, why) =>
        var logs := prev.logs + [LogEntry(n + 2, text, why)];
        assert LogRows(logs) == LogRows(prev.logs) + {n + 2};
        Results(prev.success, prev.failed + 1, logs, prev.total + 1, prev.committed)
  }

  /** Every row's outcome, each in its own transaction. */
  function Outcomes(data: seq<SheetRow>, term: string, parseFloat: string -> Option<int>,
                    accepts: CourseRow -> bool, table: seq<SlotRow>): (os: seq<Outcome>)
    ensures |os| == |data|
  {
    seq(|data|, i requires 0 <= i < |data| => ImportSheetRow(data[i], term, parseFloat, accepts, table))
  }

  /** `importFromExcel` over the sheet's rows: the counters add up to the
      row count, and row `i` is logged, as number `i + 2`, exactly when it
      failed. */
  function ImportFromExcel(data: seq<SheetRow>, term: string, parseFloat: string -> Option<int>,
                           accepts: CourseRow -> bool, table: seq<SlotRow>): (r: Results)
    ensures r.success + r.failed == r.total == |data|
    ensures var os := Outcomes(data, term, parseFloat, accepts, table);
      forall i :: 0 <= i < |data| ==> (os[i].Failed? <==> i + 2 in LogRows(r.logs))
  {
    Tally(Outcomes(data, term, parseFloat, accepts, table))
  }

  /** A row without a course code fails, and is logged under its sheet row
      number. */
  lemma MissingCodeLogged(data: seq<SheetRow>, term: string, parseFloat: string -> Option<int>,
                          accepts: CourseRow -> bool, table: seq<SlotRow>, i: nat)
    requires i < |data| && (CellOr(data[i], "SUBJECT", "") == "" || CellOr(data[i], "COURSENO", "") == "")
    ensures i + 2 in LogRows(ImportFromExcel(data, term, parseFloat, accepts, table).logs)
  {
    var os := Outcomes(data, term, parseFloat, accepts, table);
    assert os[i] == ImportSheetRow(data[i], term, parseFloat, accepts, table);
  }

  /** When every session maps, there is one slot row per distinct session
      line, in order. */
  lemma {:induction false} SlotsPerSession(sessions: seq<(string, string, string)>, table: seq<SlotRow>)
    requires forall i :: 0 <= i < |sessions| ==> MapSession(sessions[i], table).Some?
    ensures |SessionSlots(sessions, table)| == |sessions|
    ensures forall i :: 0 <= i < |sessions| ==> SessionSlots(sessions, table)[i] == MapSession(sessions[i], table).value
  {
    FilterMapTotal(sessions, (s: (string, string, string)) => MapSession(s, table));
  }

  // ---------------------------------------------------------------------------
  // Morning sessions
  // ---------------------------------------------------------------------------

  /** Unlike Python's `int`, `parseInt` reads the hour of an unpadded
      morning start: "8:40" gives 8. */
  lemma UnpaddedStartRead(h: nat)
    requires h < 10
    ensures JsHour(NatToString(h) + ":40") == Some(h)
  {
    var n := NatToString(h);
    assert Prefix2(n + ":40") == n + ":";
    JsParseIntNumeral(h, ":");
  }
}
