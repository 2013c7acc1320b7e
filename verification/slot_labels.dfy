/** The `time_slots` table and the labels that name its rows: the seeding
    grid of day × hour rows labelled `"{h}:40"`, ids handed out from 1 in
    insertion order, the import rule that maps an end time `X:30` to the
    slot `X:40`, and the read-back rule that shows a `X:40` end as `X:30`. */
module SlotLabels {
  import opened Wrappers
  import opened Strings
  import opened Seqs

  /** `f"{hour}:40"`: the `hour_of_day` text of a slot, not zero-padded. */
  function SlotLabel(hour: nat): string {
    NatToString(hour) + ":40"
  }

  /** Different hours have different labels. */
  lemma {:induction false} SlotLabelInjective(a: nat, b: nat)
    requires SlotLabel(a) == SlotLabel(b)
    ensures a == b
  {
    var la := SlotLabel(a);
    assert NatToString(a) == la[..|la| - 3];
    assert NatToString(b) == SlotLabel(b)[..|SlotLabel(b)| - 3];
    NatToStringRoundTrip(a);
    NatToStringRoundTrip(b);
  }

  /** The labels of the hours `lo .. hi-1`: `f"{hour}:40" for hour in
      range(lo, hi)`. */
  function Labels(lo: nat, hi: nat): (ls: seq<string>)
    ensures |ls| == if lo <= hi then hi - lo else 0
    ensures forall i :: 0 <= i < |ls| ==> ls[i] == SlotLabel(lo + i)
  {
    seq(if lo <= hi then hi - lo else 0, i requires 0 <= i => SlotLabel(lo + i))
  }

  lemma {:induction false} LabelsNoDups(lo: nat, hi: nat)
    ensures NoDups(Labels(lo, hi))
  {
    var ls := Labels(lo, hi);
    forall i, j | 0 <= i < j < |ls| ensures ls[i] != ls[j] {
      if ls[i] == ls[j] {
        SlotLabelInjective(lo + i, lo + j);
      }
    }
  }

  /** One table row: `(day_of_week, hour_of_day)`. */
  type SlotRow = (string, string)

  /** `k * w`, counted out day by day. */
  function Offset(k: nat, w: nat): nat {
    if k == 0 then 0 else w + Offset(k - 1, w)
  }

  lemma {:induction false} MulStep(k: nat, w: nat)
    requires k > 0
    ensures k * w == w + (k - 1) * w
  {
  }

  lemma {:induction false} OffsetIsProduct(k: nat, w: nat)
    ensures Offset(k, w) == k * w
  {
    if k > 0 {
      OffsetIsProduct(k - 1, w);
      MulStep(k, w);
    }
  }

  /** Every day contributes one row per label, and every row names one of
      the days. */
  lemma {:induction false} GridShape<D, L>(days: seq<D>, labels: seq<L>)
    ensures |Grid(days, labels)| == |days| * |labels|
    ensures forall i :: 0 <= i < |Grid(days, labels)| ==> Grid(days, labels)[i].0 in days && Grid(days, labels)[i].1 in labels
  {
    if |days| > 0 {
      var first := DayRows(days[0], labels);
      var rest := Grid(days[1..], labels);
      GridShape(days[1..], labels);
      MulStep(|days|, |labels|);
      var g: seq<(D, L)> := first + rest;
      forall i | 0 <= i < |g| ensures g[i].0 in days && g[i].1 in labels {
        if i >= |first| {
          assert g[i] == rest[i - |first|];
          assert rest[i - |first|].0 in days[1..];
        } else {
          assert g[i] == first[i] == (days[0], labels[i]);
        }
      }
    }
  }

  /** `SELECT time_id ... WHERE day_of_week = day AND hour_of_day = text`
      against a table filled in the order of `rows` with ids from 1. */
  function TimeId(rows: seq<SlotRow>, day: string, text: string): (id: Option<nat>)
    ensures id.Some? <==> (day, text) in rows
    ensures id.Some? ==> 1 <= id.value <= |rows| && rows[id.value - 1] == (day, text)
  {
    match Position(rows, (day, text))
    case None => None
    case Some(i) => Some(i + 1)
  }

  /** Within a day's rows the `j`-th label sits at offset `j`. */
  lemma {:induction false} DayRowsPosition<D, L>(day: D, labels: seq<L>, j: nat)
    requires NoDups(labels) && j < |labels|
    ensures Position(DayRows(day, labels), (day, labels[j])) == Some(j)
  {
    var rows := DayRows(day, labels);
    var x := (day, labels[j]);
    forall i | 0 <= i < j ensures rows[i] != x {
      assert rows[i] == (day, labels[i]);
    }
    PositionAt(rows, j, x);
  }

  /** No row of one day's rows names another day. */
  lemma {:induction false} OtherDayAbsent<D, L>(day: D, other: D, text: L, labels: seq<L>)
    requires day != other
    ensures (other, text) !in DayRows(day, labels)
  {
    var rows := DayRows(day, labels);
    forall i | 0 <= i < |rows| ensures rows[i] != (other, text) {
      assert rows[i].0 == day;
    }
  }

  /** Past the first day's rows, which lack `x`, positions shift by one
      day. */
  lemma {:induction false} GridStep<D, L>(days: seq<D>, labels: seq<L>, x: (D, L), i: nat)
    requires |days| > 0 && x !in DayRows(days[0], labels) && Position(Grid(days[1..], labels), x) == Some(i)
    ensures Position(Grid(days, labels), x) == Some(|labels| + i)
  {
    GridCons(days, labels);
    PositionShift(DayRows(days[0], labels), Grid(days[1..], labels), x, i);
  }

  /** The first day's rows hold `(days[0], labels[j])` at offset `j`. */
  lemma {:induction false} GridFirst<D, L>(days: seq<D>, labels: seq<L>, j: nat)
    requires |days| > 0 && NoDups(labels) && j < |labels|
    ensures Position(Grid(days, labels), (days[0], labels[j])) == Some(j)
  {
    GridCons(days, labels);
    DayRowsPosition(days[0], labels, j);
    PositionFront(DayRows(days[0], labels), Grid(days[1..], labels), (days[0], labels[j]), j);
  }

  /** Distinct days stay distinct without the first, which differs from
      the rest. */
  lemma {:induction false} NoDupsTail<D>(days: seq<D>, k: nat)
    requires NoDups(days) && 0 < k < |days|
    ensures NoDups(days[1..]) && days[1..][k - 1] == days[k] && days[k] != days[0]
  {
    forall i, j | 0 <= i < j < |days[1..]| ensures days[1..][i] != days[1..][j] {
      assert days[1..][i] == days[i + 1] && days[1..][j] == days[j + 1];
    }
  }

  /** Day `k > 0` sits one day further on than it does without the first
      day. */
  lemma {:induction false} GridLaterDay<D, L>(days: seq<D>, labels: seq<L>, k: nat, j: nat)
    requires 0 < k < |days| && j < |labels| && days[k] != days[0]
    requires Position(Grid(days[1..], labels), (days[k], labels[j])) == Some(Offset(k - 1, |labels|) + j)
    ensures Position(Grid(days, labels), (days[k], labels[j])) == Some(Offset(k, |labels|) + j)
  {
    OtherDayAbsent(days[0], days[k], labels[j], labels);
    GridStep(days, labels, (days[k], labels[j]), Offset(k - 1, |labels|) + j);
  }

  lemma {:induction false} GridPosition<D, L>(days: seq<D>, labels: seq<L>, k: nat, j: nat)
    requires NoDups(days) && NoDups(labels) && k < |days| && j < |labels|
    ensures Position(Grid(days, labels), (days[k], labels[j])) == Some(Offset(k, |labels|) + j)
    decreases |days|
  {
    if k == 0 {
      GridFirst(days, labels, j);
    } else {
      NoDupsTail(days, k);
      GridPosition(days[1..], labels, k - 1, j);
      GridLaterDay(days, labels, k, j);
    }
  }

  /** The id layout: with distinct days and the labels of the hours
      `lo .. hi-1`, day `k` and hour `h` get the id
      `k * (hi - lo) + (h - lo) + 1` (`Offset` being the product). */
  lemma {:induction false} GridTimeId(days: seq<string>, lo: nat, hi: nat, k: nat, h: nat)
    requires NoDups(days) && k < |days| && lo <= h < hi
    ensures TimeId(Grid(days, Labels(lo, hi)), days[k], SlotLabel(h)) == Some(Offset(k, hi - lo) + (h - lo) + 1)
  {
    var ls := Labels(lo, hi);
    LabelsNoDups(lo, hi);
    assert ls[h - lo] == SlotLabel(h);
    GridPosition(days, ls, k, h - lo);
  }

  /** The import rule for an end time: `X:30` is looked up as the slot
      `X:40` (`X` being what precedes the first ':'), `X:40` as itself, and
      any other end is skipped. */
  function EndSlotLabel(end: string): (r: Option<string>)
    ensures r.Some? <==> EndsWith(end, ":30") || EndsWith(end, ":40")
    ensures r.Some? ==> EndsWith(r.value, ":40")
  {
    if EndsWith(end, ":30") then
      var l := Split(end, ":")[0] + ":40";
      assert l[|l| - 3..] == ":40";
      Some(l)
    else if EndsWith(end, ":40") then Some(end)
    else None
  }

  /** How `fetchCoursesData` shows a stored end slot: a text matching
      `'%:40'` has every ":40" replaced by ":30". */
  function DisplayEnd(text: string): string {
    if EndsWith(text, ":40") then ReplaceAll(text, ":40", ":30") else text
  }

  lemma {:induction false} NoColonNoMatch(x: string, pat: string)
    requires ':' !in x && |pat| > 0 && pat[0] == ':'
    ensures forall j :: 0 <= j < |x| ==> !IsAt(x + pat, pat, j)
  {
    forall j | 0 <= j < |x| ensures !IsAt(x + pat, pat, j) {
      assert (x + pat)[j] == x[j];
      assert j + |pat| <= |x + pat|;
      assert (x + pat)[j..j + |pat|][0] == (x + pat)[j];
    }
  }

  /** `x` followed by `tail` with `tail` starting at the first ':'. */
  lemma {:induction false} SplitColonHead(x: string, tail: string)
    requires ':' !in x && |tail| > 0 && tail[0] == ':'
    ensures Split(x + tail, ":")[0] == x
  {
    var s := x + tail;
    forall j | 0 <= j < |x| ensures s[j] != ':' {
      assert s[j] == x[j];
    }
    assert s[|x|] == ':';
    BeforeColonLength(s, |x|);
    SplitHead(s, ":");
    var i := IndexOf(s, ":");
    ColonAtIndex(s, |x|);
    if i.Some? {
      assert s[i.value..i.value + 1] == ":";
      assert s[i.value] == ':';
      assert i.value == |x|;
    }
    assert s[..|x|] == x;
  }

  lemma {:induction false} BeforeColonLength(s: string, n: nat)
    requires n < |s| && s[n] == ':' && forall j :: 0 <= j < n ==> s[j] != ':'
    ensures forall j :: 0 <= j < n ==> !IsAt(s, ":", j)
  {
    forall j | 0 <= j < n ensures !IsAt(s, ":", j) {
      assert s[j..j + 1][0] == s[j];
    }
  }

  lemma {:induction false} ColonAtIndex(s: string, n: nat)
    requires n < |s| && s[n] == ':'
    ensures IsAt(s, ":", n)
  {
    assert s[n..n + 1] == [s[n]];
  }

  /** An end time `X:30` (with no other ':') is stored as the slot `X:40`
      and read back as `X:30`; an end `X:40` is stored as is and also read
      back as `X:30`. */
  lemma {:induction false} EndRoundTrip(x: string)
    requires ':' !in x
    ensures EndSlotLabel(x + ":30") == Some(x + ":40")
    ensures EndSlotLabel(x + ":40") == Some(x + ":40")
    ensures DisplayEnd(x + ":40") == x + ":30"
  {
    var t := x + ":30";
    var l := x + ":40";
    assert t[|t| - 3..] == ":30";
    assert l[|l| - 3..] == ":40";
    assert !EndsWith(l, ":30") by {
      assert l[|l| - 3..] != ":30";
    }
    SplitColonHead(x, ":30");
    NoColonNoMatch(x, ":40");
    assert IsAt(l, ":40", |x|);
    assert IndexOf(l, ":40") == Some(|x|);
    assert l[|x| + 3..] == "";
    assert l[..|x|] == x;
  }
}
