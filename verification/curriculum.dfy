/** The curriculum converter: the quote-aware CSV line splitter, the
    semester-label parser, and the sorting of a file's rows into years and
    seasons. Reading the CSV file, writing the JSON and the English-title
    lookup (built from another file) are outside the model; the title lookup
    and `parseFloat` are parameters. */
module Curriculum {
  import opened Wrappers
  import opened Strings
  import opened Seqs
  import opened Assoc

  // ---------------------------------------------------------------------------
  // parseCSVLine
  // ---------------------------------------------------------------------------

  /** The number of `"` characters in `s`. */
  function Quotes(s: string): nat {
    if |s| == 0 then 0 else Quotes(s[..|s| - 1]) + (if s[|s| - 1] == '"' then 1 else 0)
  }

  /** Position `i` splits the line: a comma with an even number of `"`
      before it, i.e. outside quotes. */
  predicate SplitsAt(text: string, i: nat)
    requires i < |text|
  {
    text[i] == ',' && Quotes(text[..i]) % 2 == 0
  }

  /** The positions of the commas outside quotes, in increasing order. */
  function Separators(text: string): (seps: seq<nat>)
    ensures forall k :: 0 <= k < |seps| ==> seps[k] < |text|
    ensures forall k :: 0 < k < |seps| ==> seps[k - 1] < seps[k]
  {
    if |text| == 0 then []
    else
      var init := text[..|text| - 1];
      Separators(init) + (if SplitsAt(text, |init|) then [|init|] else [])
  }

  lemma SplitsAtInit(text: string, i: nat)
    requires i < |text| - 1
    ensures SplitsAt(text, i) == SplitsAt(text[..|text| - 1], i)
  {
    assert text[..|text| - 1][..i] == text[..i];
  }

  /** The separators are exactly the commas outside quotes. */
  lemma {:induction false} SeparatorsAre(text: string, i: nat)
    ensures i in Separators(text) <==> i < |text| && SplitsAt(text, i)
  {
    if |text| > 0 {
      var init := text[..|text| - 1];
      SeparatorsAre(init, i);
      if i < |init| {
        SplitsAtInit(text, i);
      }
    }
  }

  /** Where field `k` of the line starts: just past the separator before
      it. */
  function FieldStart(seps: seq<nat>, k: nat): nat
    requires k <= |seps|
  {
    if k == 0 then 0 else seps[k - 1] + 1
  }

  /** Where field `k` of the line ends: at the separator after it, or at
      the end of the line. */
  function FieldEnd(seps: seq<nat>, k: nat, n: nat): nat
    requires k <= |seps|
  {
    if k == |seps| then n else seps[k]
  }

  /** The raw text of field `k`, quotes and surrounding spaces included. */
  function Field(text: string, k: nat): (f: string)
    requires k <= |Separators(text)|
  {
    var seps := Separators(text);
    text[FieldStart(seps, k)..FieldEnd(seps, k, |text|)]
  }

  /** The loop state of `parseCSVLine`: the finished cells, the cell being
      read and whether the scan is inside quotes. */
  datatype Scan = Scan(result: seq<string>, cell: string, inQuotes: bool)

  /** One character of the loop: a quote flips the flag and is dropped, a
      comma outside quotes ends the cell (trimmed), anything else is
      appended. */
  function Step(st: Scan, c: char): Scan {
    if c == '"' then st.(inQuotes := !st.inQuotes)
    else if c == ',' && !st.inQuotes then Scan(st.result + [JsTrim(st.cell)], "", st.inQuotes)
    else st.(cell := st.cell + [c])
  }

  function ScanText(text: string): Scan {
    if |text| == 0 then Scan([], "", false)
    else Step(ScanText(text[..|text| - 1]), text[|text| - 1])
  }

  /** `s.replace(/"/g, '')` of a string with one more character. */
  lemma {:induction false} RemoveQuotesSnoc(s: string, c: char)
    ensures RemoveQuotes(s + [c]) == RemoveQuotes(s) + (if c == '"' then "" else [c])
    decreases |s|
  {
    if |s| == 0 {
      assert [c][1..] == "";
    } else {
      assert (s + [c])[1..] == s[1..] + [c];
      RemoveQuotesSnoc(s[1..], c);
    }
  }

  /** Adding a character adds a separator at most, and keeps the old
      ones. */
  lemma SeparatorsSnoc(text: string)
    requires |text| > 0
    ensures var sepsI := Separators(text[..|text| - 1]);
      Separators(text) == sepsI + (if SplitsAt(text, |text| - 1) then [|text| - 1] else [])
  {
  }

  /** A field before the last stays as it was when a character is
      added. */
  lemma EarlierFieldKept(text: string, k: nat)
    requires |text| > 0
    requires k < |Separators(text[..|text| - 1])|
    ensures k < |Separators(text)|
    ensures Field(text, k) == Field(text[..|text| - 1], k)
  {
    var init := text[..|text| - 1];
    SeparatorsSnoc(text);
    var seps := Separators(text);
    var sepsI := Separators(init);
    assert seps[k] == sepsI[k];
    assert k > 0 ==> seps[k - 1] == sepsI[k - 1];
    var a := FieldStart(sepsI, k);
    var b := sepsI[k];
    assert a <= b < |init|;
    assert forall i :: a <= i < b ==> text[i] == init[i];
    assert text[a..b] == init[a..b];
  }

  lemma EarlierFieldsKept(text: string)
    requires |text| > 0
    ensures |Separators(text[..|text| - 1])| <= |Separators(text)|
    ensures forall k :: 0 <= k < |Separators(text[..|text| - 1])| ==> Field(text, k) == Field(text[..|text| - 1], k)
  {
    SeparatorsSnoc(text);
    forall k | 0 <= k < |Separators(text[..|text| - 1])|
      ensures Field(text, k) == Field(text[..|text| - 1], k)
    {
      EarlierFieldKept(text, k);
    }
  }

  /** An added separator closes the last field as it was. */
  lemma LastFieldClosed(text: string)
    requires |text| > 0 && SplitsAt(text, |text| - 1)
    ensures var k := |Separators(text[..|text| - 1])|;
      k < |Separators(text)| && Field(text, k) == Field(text[..|text| - 1], k)
  {
    var init := text[..|text| - 1];
    SeparatorsSnoc(text);
    var seps := Separators(text);
    var sepsI := Separators(init);
    var k := |sepsI|;
    assert seps == sepsI + [|init|];
    var a := FieldStart(sepsI, k);
    assert FieldStart(seps, k) == a;
    assert FieldEnd(seps, k, |text|) == |init|;
    assert text[a..|init|] == init[a..];
  }

  /** Any other added character extends the last field. */
  lemma LastFieldExtended(text: string)
    requires |text| > 0 && !SplitsAt(text, |text| - 1)
    ensures var k := |Separators(text[..|text| - 1])|;
      k == |Separators(text)| && Field(text, k) == Field(text[..|text| - 1], k) + [text[|text| - 1]]
  {
    var init := text[..|text| - 1];
    SeparatorsSnoc(text);
    var seps := Separators(text);
    var sepsI := Separators(init);
    assert seps == sepsI;
    var a := FieldStart(sepsI, |sepsI|);
    assert text[a..] == init[a..] + [text[|init|]];
  }

  /** The loop's state after `text` read: the flag says whether an odd
      number of quotes was read, the finished cells are the fields so far
      with quotes removed and trimmed, and the current cell is the last
      field with quotes removed. */
  predicate ScanMatches(text: string) {
    var st := ScanText(text);
    var seps := Separators(text);
    && st.inQuotes == (Quotes(text) % 2 == 1)
    && |st.result| == |seps|
    && (forall k :: 0 <= k < |seps| ==> st.result[k] == JsTrim(RemoveQuotes(Field(text, k))))
    && st.cell == RemoveQuotes(Field(text, |seps|))
  }

  /** A comma outside quotes moves the current cell, trimmed, to the
      finished ones. */
  lemma ScanSplitStep(text: string)
    requires |text| > 0 && SplitsAt(text, |text| - 1)
    requires ScanMatches(text[..|text| - 1])
    ensures ScanMatches(text)
  {
    var stI := ScanText(text[..|text| - 1]);
    SplitStepState(text);
    ClosedCells(text, stI.result, stI.cell);
    LastFieldEmpty(text);
  }

  /** The finished cells after a splitting comma: the earlier ones and the
      closed last field. */
  lemma ClosedCells(text: string, cells: seq<string>, cell: string)
    requires |text| > 0 && SplitsAt(text, |text| - 1)
    requires |cells| == |Separators(text[..|text| - 1])|
    requires forall k :: 0 <= k < |cells| ==> cells[k] == JsTrim(RemoveQuotes(Field(text[..|text| - 1], k)))
    requires cell == RemoveQuotes(Field(text[..|text| - 1], |cells|))
    ensures var r := cells + [JsTrim(cell)];
      |r| == |Separators(text)| && forall k :: 0 <= k < |r| ==> r[k] == JsTrim(RemoveQuotes(Field(text, k)))
  {
    var r := cells + [JsTrim(cell)];
    SeparatorsSnoc(text);
    assert |r| == |Separators(text)|;
    forall k | 0 <= k < |r| ensures r[k] == JsTrim(RemoveQuotes(Field(text, k))) {
      if k < |cells| {
        EarlierFieldKept(text, k);
        assert r[k] == cells[k];
      } else {
        LastFieldClosed(text);
        assert r[k] == JsTrim(cell);
      }
    }
  }

  /** After a splitting comma the current field is empty. */
  lemma LastFieldEmpty(text: string)
    requires |text| > 0 && SplitsAt(text, |text| - 1)
    ensures Field(text, |Separators(text)|) == ""
  {
    SeparatorsSnoc(text);
    var seps := Separators(text);
    assert seps[|seps| - 1] == |text| - 1;
    assert FieldStart(seps, |seps|) == |text|;
  }

  /** The loop state after a splitting comma. */
  lemma SplitStepState(text: string)
    requires |text| > 0 && SplitsAt(text, |text| - 1)
    requires ScanText(text[..|text| - 1]).inQuotes == (Quotes(text[..|text| - 1]) % 2 == 1)
    ensures var stI := ScanText(text[..|text| - 1]);
      && Quotes(text) == Quotes(text[..|text| - 1])
      && ScanText(text) == Scan(stI.result + [JsTrim(stI.cell)], "", stI.inQuotes)
  {
  }

  /** A quote flips the flag, and any other character joins the current
      cell. */
  lemma ScanOtherStep(text: string)
    requires |text| > 0 && !SplitsAt(text, |text| - 1)
    requires ScanMatches(text[..|text| - 1])
    ensures ScanMatches(text)
  {
    var init := text[..|text| - 1];
    var c := text[|text| - 1];
    var stI := ScanText(init);
    var st := ScanText(text);
    var sepsI := Separators(init);
    OtherStepState(text);
    LastFieldExtended(text);
    EarlierFieldsKept(text);
    RemoveQuotesSnoc(Field(init, |sepsI|), c);
  }

  /** The loop state after a character other than a splitting comma. */
  lemma OtherStepState(text: string)
    requires |text| > 0 && !SplitsAt(text, |text| - 1)
    requires ScanText(text[..|text| - 1]).inQuotes == (Quotes(text[..|text| - 1]) % 2 == 1)
    ensures var c := text[|text| - 1];
      var stI := ScanText(text[..|text| - 1]);
      var st := ScanText(text);
      && Quotes(text) == Quotes(text[..|text| - 1]) + (if c == '"' then 1 else 0)
      && st.result == stI.result
      && st.inQuotes == (if c == '"' then !stI.inQuotes else stI.inQuotes)
      && st.cell == stI.cell + (if c == '"' then "" else [c])
  {
  }

  lemma {:induction false} ScanFields(text: string)
    ensures ScanMatches(text)
  {
    if |text| == 0 {
      assert Field(text, 0) == "";
    } else {
      ScanFields(text[..|text| - 1]);
      if SplitsAt(text, |text| - 1) {
        ScanSplitStep(text);
      } else {
        ScanOtherStep(text);
      }
    }
  }

  /** `parseCSVLine(text)`: one cell per field, each with its quotes
      removed and trimmed. */
  function ParseCsvLine(text: string): (cells: seq<string>)
    ensures |cells| == |Separators(text)| + 1
    ensures forall k :: 0 <= k < |cells| ==> cells[k] == JsTrim(RemoveQuotes(Field(text, k)))
  {
    var st := ScanText(text);
    ScanFields(text);
    st.result + [JsTrim(st.cell)]
  }

  lemma TrimTwice(s: string)
    ensures JsTrim(JsTrim(s)) == JsTrim(s)
  {
    var r := JsTrim(s);
    if |r| > 0 {
      TrimKeepsTrimmed(r, IsJsSpace);
    }
  }

  /** Trimming takes a slice, so it adds no character. */
  lemma TrimFrom(s: string)
    ensures forall i :: 0 <= i < |JsTrim(s)| ==> JsTrim(s)[i] in s
  {
    var l := TrimLeft(s, IsJsSpace);
    var r := TrimRight(l, IsJsSpace);
    assert forall i :: 0 <= i < |r| ==> r[i] == l[i];
    assert forall i :: 0 <= i < |l| ==> l[i] == s[|s| - |l| + i];
  }

  /** Every cell is trimmed and free of quotes. */
  lemma CellsClean(text: string)
    ensures forall k :: 0 <= k < |ParseCsvLine(text)| ==>
      JsTrim(ParseCsvLine(text)[k]) == ParseCsvLine(text)[k] && '"' !in ParseCsvLine(text)[k]
  {
    var cells := ParseCsvLine(text);
    forall k | 0 <= k < |cells|
      ensures JsTrim(cells[k]) == cells[k] && '"' !in cells[k]
    {
      var raw := RemoveQuotes(Field(text, k));
      TrimTwice(raw);
      TrimFrom(raw);
    }
  }

  /** Removing quotes keeps every other character, as often as it occurs. */
  lemma {:induction false} RemoveQuotesKeeps(s: string, c: char)
    requires c != '"'
    ensures multiset(RemoveQuotes(s))[c] == multiset(s)[c]
    decreases |s|
  {
    if |s| > 0 {
      RemoveQuotesKeeps(s[1..], c);
      assert s == [s[0]] + s[1..];
    }
  }

  /** A line whose commas are all inside quotes is one cell, and that cell
      keeps the commas. */
  lemma QuotedCommasKept(text: string)
    requires forall i :: 0 <= i < |text| ==> !SplitsAt(text, i)
    ensures ParseCsvLine(text) == [JsTrim(RemoveQuotes(text))]
    ensures multiset(RemoveQuotes(text))[','] == multiset(text)[',']
  {
    var seps := Separators(text);
    if |seps| > 0 {
      SeparatorsAre(text, seps[0]);
      assert false;
    }
    assert seps == [];
    assert FieldStart(seps, 0) == 0 && FieldEnd(seps, 0, |text|) == |text|;
    assert Field(text, 0) == text;
    var cells := ParseCsvLine(text);
    assert |cells| == 1 && cells[0] == JsTrim(RemoveQuotes(text));
    RemoveQuotesKeeps(text, ',');
  }

  /** The number of cells is one more than the number of commas outside
      quotes. */
  lemma CellCount(text: string)
    ensures |ParseCsvLine(text)| == |set i | 0 <= i < |text| && SplitsAt(text, i)| + 1
  {
    var seps := Separators(text);
    var outside := set i | 0 <= i < |text| && SplitsAt(text, i);
    forall i ensures i in outside <==> i in seps {
      SeparatorsAre(text, i);
    }
    assert outside == set k | 0 <= k < |seps| :: seps[k];
    AdjacentIncreasing(seps);
    DistinctCard(seps);
  }

  /** Each element below the next makes each below every later one. */
  lemma {:induction false} Chain(xs: seq<nat>, k: nat, l: nat)
    requires forall i :: 0 < i < |xs| ==> xs[i - 1] < xs[i]
    requires k < l < |xs|
    ensures xs[k] < xs[l]
    decreases l - k
  {
    if k + 1 < l {
      Chain(xs, k + 1, l);
    }
  }

  lemma AdjacentIncreasing(xs: seq<nat>)
    requires forall i :: 0 < i < |xs| ==> xs[i - 1] < xs[i]
    ensures forall k, l :: 0 <= k < l < |xs| ==> xs[k] < xs[l]
  {
    forall k, l | 0 <= k < l < |xs| ensures xs[k] < xs[l] {
      Chain(xs, k, l);
    }
  }

  /** A strictly increasing sequence has as many elements as its set. */
  lemma {:induction false} DistinctCard(xs: seq<nat>)
    requires forall k, l :: 0 <= k < l < |xs| ==> xs[k] < xs[l]
    ensures |set k | 0 <= k < |xs| :: xs[k]| == |xs|
  {
    if |xs| > 0 {
      var init := xs[..|xs| - 1];
      DistinctCard(init);
      var a := set k | 0 <= k < |init| :: init[k];
      var b := set k | 0 <= k < |xs| :: xs[k];
      assert b == a + {xs[|xs| - 1]};
      assert xs[|xs| - 1] !in a;
    }
  }

  // ---------------------------------------------------------------------------
  // parseSemester
  // ---------------------------------------------------------------------------

  /** "Yıl" (year), with the dotless i. */
  const Yil: string := "Y\U{0131}l"
  const Unknown: string := "Unknown"

  datatype Season = Fall | Spring

  /** The end of the run of digits that starts at `p`. */
  function DigitRunEnd(s: string, p: nat): (q: nat)
    requires p <= |s|
    ensures p <= q <= |s| && AllDigits(s[p..q])
    ensures q < |s| ==> !IsDigit(s[q])
    decreases |s| - p
  {
    if p < |s| && IsDigit(s[p]) then
      var q := DigitRunEnd(s, p + 1);
      assert s[p..q] == [s[p]] + s[p + 1..q];
      q
    else p
  }

  /** The regular expression `(\d+)\.\s*Yıl` tried at position `p`: the
      captured digits, if it matches there. Neither `\d+` nor `\s*` can
      give back characters and still match, since a digit is not `.` and a
      space is not `Y`, so the longest runs decide. */
  function YearAt(s: string, p: nat): (r: Option<string>)
    requires p <= |s|
    ensures r.Some? ==>
      && |r.value| > 0 && AllDigits(r.value) && p + |r.value| < |s|
      && s[p..p + |r.value|] == r.value && s[p + |r.value|] == '.'
  {
    var q := DigitRunEnd(s, p);
    if q > p && q < |s| && s[q] == '.' && StartsWith(s[SkipFrom(s, IsJsSpace, q + 1)..], Yil)
    then Some(s[p..q])
    else None
  }

  /** The leftmost position at or after `p` where the pattern matches. */
  function FirstYear(s: string, p: nat): (r: Option<nat>)
    requires p <= |s|
    ensures r.Some? ==> p <= r.value <= |s| && YearAt(s, r.value).Some?
    ensures r.Some? ==> forall j :: p <= j < r.value ==> YearAt(s, j).None?
    ensures r.None? ==> forall j :: p <= j <= |s| ==> YearAt(s, j).None?
    decreases |s| - p
  {
    if YearAt(s, p).Some? then Some(p)
    else if p == |s| then None
    else FirstYear(s, p + 1)
  }

  /** `parseSemester`: the digits of the first `N. Yıl`, or `Unknown`; the
      season is spring when the lower-cased label mentions `bahar` or
      `spring`, and fall otherwise (the source's second test, for `güz` or
      `fall`, sets the value it already has). */
  function ParseSemester(s: string): (r: (string, Season))
    ensures r.0 == Unknown <==> forall p :: 0 <= p <= |s| ==> YearAt(s, p).None?
    ensures r.0 != Unknown ==>
      exists p :: 0 <= p <= |s| && YearAt(s, p) == Some(r.0) && (forall j :: 0 <= j < p ==> YearAt(s, j).None?)
    ensures r.1 == Spring <==> Contains(AsciiLower(s), "bahar") || Contains(AsciiLower(s), "spring")
  {
    var year := match FirstYear(s, 0) case Some(p) => YearAt(s, p).value case None => Unknown;
    assert !AllDigits(Unknown) by { assert !IsDigit(Unknown[0]); }
    var lower := AsciiLower(s);
    (year, if Contains(lower, "bahar") || Contains(lower, "spring") then Spring else Fall)
  }

  /** The label format the curricula use, `N. Yıl - ...`, yields `N`. */
  lemma LabelYear(n: nat, rest: string)
    ensures ParseSemester(NatToString(n) + ". " + Yil + rest).0 == NatToString(n)
  {
    var d := NatToString(n);
    var s := d + ". " + Yil + rest;
    var q := |d|;
    assert s[..q] == d;
    assert s[q] == '.' && s[q + 1] == ' ' && s[q + 2] == 'Y';
    assert DigitRunEnd(s, 0) == q;
    assert SkipFrom(s, IsJsSpace, q + 1) == q + 2;
    var tail := s[q + 2..];
    assert tail == Yil + rest;
    assert tail[..|Yil|] == Yil;
    assert YearAt(s, 0) == Some(d);
  }

  /** Whatever surrounds it, a label containing `Bahar`, `BAHAR`, `Spring`
      or any other casing of the two words is a spring semester. */
  lemma SpringWord(pre: string, word: string, post: string)
    requires AsciiLower(word) == "bahar" || AsciiLower(word) == "spring"
    ensures ParseSemester(pre + word + post).1 == Spring
  {
    var s := pre + word + post;
    var l := AsciiLower(s);
    assert l[|pre|..|pre| + |word|] == AsciiLower(word);
    assert IsAt(l, AsciiLower(word), |pre|);
  }

  // ---------------------------------------------------------------------------
  // convertFile: rows into semesters
  // ---------------------------------------------------------------------------

  datatype CourseEntry = CourseEntry(code: string, titleTr: string, titleEn: string,
                                     credits: int, prereq: string, coreq: string)

  datatype Term = Term(fall: seq<CourseEntry>, spring: seq<CourseEntry>)

  const EmptyTerm := Term([], [])

  /** `output.semesters`: year label to that year's two lists. The
      converter seeds years 1 to 4. */
  type Semesters = Assoc<string, Term>

  const FirstYears: Semesters := [("1", EmptyTerm), ("2", EmptyTerm), ("3", EmptyTerm), ("4", EmptyTerm)]

  /** The stored course of a row of at least seven cells. `englishTitle`
      stands for the translation-table and heuristic lookup (falling back
      to the Turkish title); `parseFloat` for JavaScript's, `None` being
      `NaN`. */
  function Entry(cols: seq<string>, englishTitle: (string, string) -> string,
                 parseFloat: string -> Option<int>): (e: CourseEntry)
    requires |cols| >= 7
    ensures e.code == cols[0]
    ensures '"' !in e.titleTr && '"' !in e.titleEn && '"' !in e.prereq && '"' !in e.coreq
    ensures e.credits == if parseFloat(cols[2]).Some? then parseFloat(cols[2]).value else 0
  {
    CourseEntry(
      cols[0],
      RemoveQuotes(cols[1]),
      RemoveQuotes(englishTitle(cols[0], cols[1])),
      parseFloat(cols[2]).GetOr(0),
      if cols[3] != "" then RemoveQuotes(cols[3]) else "",
      if cols[4] != "" then RemoveQuotes(cols[4]) else "")
  }

  /** What a data line contributes: nothing when it has fewer than seven
      cells, else its year label, season and course. */
  function Placed(line: string, englishTitle: (string, string) -> string,
                  parseFloat: string -> Option<int>): (r: Option<(string, Season, CourseEntry)>)
    ensures r.None? <==> |ParseCsvLine(line)| < 7
    ensures r.Some? ==> (r.value.0, r.value.1) == ParseSemester(ParseCsvLine(line)[6])
  {
    var cols := ParseCsvLine(line);
    if |cols| < 7 then None
    else
      var (year, season) := ParseSemester(cols[6]);
      Some((year, season, Entry(cols, englishTitle, parseFloat)))
  }

  function Push(t: Term, season: Season, e: CourseEntry): Term {
    match season
    case Fall => t.(fall := t.fall + [e])
    case Spring => t.(spring := t.spring + [e])
  }

  /** What a line contributes: `None`, or its year label, season and
      course. */
  type Place = string -> Option<(string, Season, CourseEntry)>

  /** The loop over the data lines: a year missing from the object is
      created with empty lists, then the course goes to its season. */
  function Bucket(lines: seq<string>, place: Place): (sems: Semesters) {
    if |lines| == 0 then FirstYears
    else
      var sems := Bucket(lines[..|lines| - 1], place);
      match place(lines[|lines| - 1])
      case None => sems
      case Some((year, season, e)) => Put(sems, year, Push(Get(sems, year).GetOr(EmptyTerm), season, e))
  }

  /** `content.split('\n').filter(l => l.trim().length > 0)`. */
  function NonBlank(lines: seq<string>): (r: seq<string>)
    ensures forall i :: 0 <= i < |r| ==> r[i] in lines && JsTrim(r[i]) != ""
    ensures forall i :: 0 <= i < |lines| && JsTrim(lines[i]) != "" ==> lines[i] in r
  {
    Filter(lines, l => JsTrim(l) != "")
  }

  /** `convertFile` from the file's text to `output.semesters`. The first
      non-blank line is the header and is not otherwise used; a file with
      no non-blank line makes `parseCSVLine(undefined)` throw, which is
      `None` here. */
  function ConvertFile(content: string, englishTitle: (string, string) -> string,
                       parseFloat: string -> Option<int>): (r: Option<Semesters>)
    ensures r.None? <==> NonBlank(Split(content, "\n")) == []
  {
    var lines := NonBlank(Split(content, "\n"));
    if |lines| == 0 then None else Some(Bucket(lines[1..], l => Placed(l, englishTitle, parseFloat)))
  }

  predicate Seeded(year: string) {
    year == "1" || year == "2" || year == "3" || year == "4"
  }

  lemma FirstYearsGet(year: string)
    ensures Get(FirstYears, year) == if Seeded(year) then Some(EmptyTerm) else None
  {
    if Seeded(year) {
      var i := if year == "1" then 0 else if year == "2" then 1 else if year == "3" then 2 else 3;
      assert FirstYears[i] == (year, EmptyTerm);
    } else {
      assert forall i :: 0 <= i < |FirstYears| ==> FirstYears[i].0 != year;
    }
  }

  function YearOf(line: string, place: Place): Option<string> {
    match place(line)
    case Some((y, _, _)) => Some(y)
    case None => None
  }

  /** Some line names `year`. */
  predicate NamedBy(lines: seq<string>, year: string, place: Place) {
    exists i :: 0 <= i < |lines| && YearOf(lines[i], place) == Some(year)
  }

  /** The courses of the lines labelled with `year` and `season`, in file
      order. */
  function Filtered(lines: seq<string>, year: string, season: Season, place: Place): seq<CourseEntry> {
    if |lines| == 0 then []
    else
      Filtered(lines[..|lines| - 1], year, season, place) +
        match place(lines[|lines| - 1])
        case Some((y, s, e)) => if y == year && s == season then [e] else []
        case None => []
  }

  /** The lists of `year`, read off the lines directly. */
  function TermOf(lines: seq<string>, year: string, place: Place): Term {
    Term(Filtered(lines, year, Fall, place), Filtered(lines, year, Spring, place))
  }

  /** A year no line names has no courses. */
  lemma {:induction false} UnnamedEmpty(lines: seq<string>, year: string, place: Place)
    requires !NamedBy(lines, year, place)
    ensures TermOf(lines, year, place) == EmptyTerm
  {
    if |lines| > 0 {
      var init := lines[..|lines| - 1];
      NamedBySnoc(lines, year, place);
      UnnamedEmpty(init, year, place);
    }
  }

  /** The lines name the year exactly when the lines before the last, or
      the last, do. */
  lemma NamedBySnoc(lines: seq<string>, year: string, place: Place)
    requires |lines| > 0
    ensures NamedBy(lines, year, place) <==>
      NamedBy(lines[..|lines| - 1], year, place) || YearOf(lines[|lines| - 1], place) == Some(year)
  {
    var init := lines[..|lines| - 1];
    if NamedBy(lines, year, place) {
      var i :| 0 <= i < |lines| && YearOf(lines[i], place) == Some(year);
      if i < |init| {
        assert init[i] == lines[i];
      }
    }
    if NamedBy(init, year, place) {
      var i :| 0 <= i < |init| && YearOf(init[i], place) == Some(year);
      assert init[i] == lines[i];
    }
  }

  /** Each year's lists hold, in file order, exactly the courses of the
      lines labelled with that year and season; years 1 to 4 are there even
      when empty, and any other year is there exactly when a line names
      it. */
  lemma {:induction false} BucketGet(lines: seq<string>, year: string, place: Place)
    ensures var got := Get(Bucket(lines, place), year);
      && (got.Some? <==> (Seeded(year) || NamedBy(lines, year, place)))
      && (got.Some? ==> got.value == TermOf(lines, year, place))
  {
    if |lines| == 0 {
      FirstYearsGet(year);
      UnnamedEmpty(lines, year, place);
    } else {
      var init := lines[..|lines| - 1];
      var last := lines[|lines| - 1];
      BucketGet(init, year, place);
      NamedBySnoc(lines, year, place);
      var sems := Bucket(init, place);
      if Get(sems, year).None? {
        UnnamedEmpty(init, year, place);
      }
      match place(last)
      case None => {
        assert TermOf(lines, year, place) == TermOf(init, year, place);
      }
      case Some((y, s, e)) => {
        var t := Push(Get(sems, y).GetOr(EmptyTerm), s, e);
        assert Bucket(lines, place) == Put(sems, y, t);
        GetPut(sems, y, t, year);
        if y == year {
          assert TermOf(lines, year, place) == t;
        } else {
          assert TermOf(lines, year, place) == TermOf(init, year, place);
        }
      }
    }
  }
}
