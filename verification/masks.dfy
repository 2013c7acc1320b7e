/** Weekly occupancy of a section. The source keeps, for each of the five
    teaching days, a 13-bit integer whose bit `h` is set when the hour
    starting at `8 + h`:40 is taken. Here a day's bits are the set of hour
    indices whose bit is set, so `|` is union, `&` is intersection and `^`
    is symmetric difference. */
module Masks {
  import opened Wrappers
  import opened Strings

  /** The teaching days in the order of `DAY_INDEX`. */
  const Days: seq<string> := ["Pazartesi", "Salı", "Çarşamba", "Perşembe", "Cuma"]

  /** Hour indices run over 0..12: the slots 8:40 .. 20:40. */
  const HoursPerDay: nat := 13

  /** `DAY_INDEX[day]`, with `None` for `undefined`. */
  function DayIndex(day: string): (r: Option<nat>)
    ensures r.Some? <==> day in Days
    ensures r.Some? ==> r.value < |Days| && Days[r.value] == day
  {
    if day == Days[0] then Some(0)
    else if day == Days[1] then Some(1)
    else if day == Days[2] then Some(2)
    else if day == Days[3] then Some(3)
    else if day == Days[4] then Some(4)
    else None
  }

  /** The characters before the first ':' (all of `time` when it has none). */
  function BeforeColon(time: string): (r: string)
    ensures |r| <= |time| && r == time[..|r|]
    ensures forall j :: 0 <= j < |r| ==> time[j] != ':'
    ensures |r| < |time| ==> time[|r|] == ':'
    decreases |time|
  {
    if |time| == 0 || time[0] == ':' then [] else [time[0]] + BeforeColon(time[1..])
  }

  lemma ColonAt(s: string, i: nat)
    requires i < |s| && s[i] == ':'
    ensures IsAt(s, ":", i)
  {
    assert s[i..i + 1] == [s[i]];
  }

  /** `BeforeColon` is where `indexOf(':')` stops. */
  lemma BeforeColonIndexOf(time: string)
    ensures IndexOf(time, ":").None? ==> BeforeColon(time) == time
    ensures IndexOf(time, ":").Some? ==> BeforeColon(time) == time[..IndexOf(time, ":").value]
  {
    var r := BeforeColon(time);
    if |r| < |time| {
      ColonAt(time, |r|);
    }
    if IndexOf(time, ":").Some? {
      var i := IndexOf(time, ":").value;
      assert time[i] == ':';
    }
  }

  /** `BeforeColon` is `time.split(':')[0]`. */
  lemma BeforeColonIsSplitHead(time: string)
    ensures BeforeColon(time) == Split(time, ":")[0]
  {
    SplitHead(time, ":");
    BeforeColonIndexOf(time);
  }

  /** `timeToIndex`: the integer before the first ':' minus 8, with `None`
      for `NaN`. Minutes play no part. */
  function TimeToIndex(time: string): Option<int> {
    match JsParseInt(BeforeColon(time))
    case Some(hour) => Some(hour - 8)
    case None => None
  }

  /** "16:30" and "16:40" both give index 8: a time's index is its hour
      minus 8, whatever the minutes. */
  lemma TimeToIndexOfLabel(hour: nat, minutes: string)
    ensures TimeToIndex(NatToString(hour) + ":" + minutes) == Some(hour - 8)
  {
    var h := NatToString(hour);
    var t := h + ":" + minutes;
    var r := BeforeColon(t);
    forall i | 0 <= i < |h| ensures t[i] != ':' {
      assert t[i] == h[i] && IsDigit(h[i]);
    }
    assert t[|h|] == ':';
    assert |r| == |h|;
    assert r == h;
    JsParseIntNumeral(hour, "");
    assert h + "" == h;
  }

  /** With no radix, `parseInt` reads a `0x` hour in base 16: "0x1A:40"
      gives hour 26, the index 18, past the 13 rows of the grid. */
  lemma HexHourIndex()
    ensures TimeToIndex("0x1A:40") == Some(18)
  {
    assert BeforeColon("0x1A:40") == "0x1A";
    JsParseIntHex();
  }

  type Mask = m: seq<set<nat>> | |m| == 5 witness [{}, {}, {}, {}, {}]

  /** `[0, 0, 0, 0, 0]`. */
  const NoHours: Mask := [{}, {}, {}, {}, {}]

  /** Day-wise `|`. */
  function Or(a: Mask, b: Mask): (r: Mask)
    ensures forall d :: 0 <= d < 5 ==> r[d] == a[d] + b[d]
  {
    seq(5, d requires 0 <= d < 5 => a[d] + b[d])
  }

  /** Day-wise `^`. */
  function Xor(a: Mask, b: Mask): (r: Mask)
    ensures forall d :: 0 <= d < 5 ==> r[d] == (a[d] - b[d]) + (b[d] - a[d])
  {
    seq(5, d requires 0 <= d < 5 => (a[d] - b[d]) + (b[d] - a[d]))
  }

  /** Some day on which `a[d] & b[d]` is not 0, the five days spelled out. */
  predicate Overlap(a: Mask, b: Mask) {
    a[0] * b[0] != {} || a[1] * b[1] != {} || a[2] * b[2] != {} || a[3] * b[3] != {} || a[4] * b[4] != {}
  }

  lemma OverlapDay(a: Mask, b: Mask)
    ensures Overlap(a, b) <==> exists d :: 0 <= d < 5 && a[d] * b[d] != {}
  {
    if Overlap(a, b) {
      if a[0] * b[0] != {} { assert 0 < 5 && a[0] * b[0] != {}; }
      else if a[1] * b[1] != {} { assert 1 < 5 && a[1] * b[1] != {}; }
      else if a[2] * b[2] != {} { assert 2 < 5 && a[2] * b[2] != {}; }
      else if a[3] * b[3] != {} { assert 3 < 5 && a[3] * b[3] != {}; }
      else { assert 4 < 5 && a[4] * b[4] != {}; }
    }
  }

  /** Disjoint masks share no hour on any one day. */
  lemma NoOverlapOnDay(a: Mask, b: Mask, d: nat, h: nat)
    requires d < 5 && !Overlap(a, b)
    ensures h in a[d] ==> h !in b[d]
  {
    assert a[d] * b[d] == {};
    assert h !in a[d] * b[d];
  }

  /** `sectionsConflict` (and the inner conflict scan of `backtrack`): true
      exactly when the two masks share an hour on some day, so the test is
      symmetric. */
  method SectionsConflict(a: Mask, b: Mask) returns (conflict: bool)
    ensures conflict <==> exists d :: 0 <= d < 5 && a[d] * b[d] != {}
    ensures conflict <==> Overlap(b, a)
  {
    var d := 0;
    while d < 5
      invariant 0 <= d <= 5
      invariant forall e :: 0 <= e < d ==> a[e] * b[e] == {}
    {
      if a[d] * b[d] != {} {
        assert b[d] * a[d] != {};
        return true;
      }
      d := d + 1;
    }
    assert forall e :: 0 <= e < 5 ==> b[e] * a[e] == a[e] * b[e];
    return false;
  }

  /** XOR undoes OR when the two masks were disjoint: after `backtrack`
      returns, `currentMask` is what it was before the section was added. */
  lemma XorUndoesOr(used: Mask, section: Mask)
    requires !Overlap(used, section)
    ensures Xor(Or(used, section), section) == used
  {
    var r := Xor(Or(used, section), section);
    var o := Or(used, section);
    forall d | 0 <= d < 5 ensures r[d] == used[d] {
      assert used[d] * section[d] == {};
      assert o[d] == used[d] + section[d];
      assert r[d] == (o[d] - section[d]) + (section[d] - o[d]);
      assert section[d] - o[d] == {};
      assert o[d] - section[d] == used[d];
    }
  }

  /** Without the disjointness the undo fails: a shared hour is cleared. */
  lemma XorNeedsDisjointness()
    ensures Xor(Or(NoHours[0 := {0}], NoHours[0 := {0}]), NoHours[0 := {0}]) != NoHours[0 := {0}]
  {
    assert Xor(Or(NoHours[0 := {0}], NoHours[0 := {0}]), NoHours[0 := {0}])[0] == {};
  }

  /** The 13 hour indices of a day. */
  const DayHours: set<nat> := {0, 1, 2, 3, 4, 5, 6, 7, 8, 9, 10, 11, 12}

  /** Hour indices `h` with `lo <= h < hi`, clipped to the 13 slots of a day. */
  function HourRange(lo: int, hi: int): (r: set<nat>)
    ensures forall h: nat :: h in r <==> lo <= h < hi && h < HoursPerDay
  {
    set h | h in DayHours && lo <= h < hi
  }

  /** The hours one slot occupies, as a day index and an hour set; `None` when
      the day is unknown or a time has no leading integer, in which case the
      source's loop adds nothing. */
  function SlotHours(day: string, start: string, end: string): Option<(nat, set<nat>)> {
    var d := DayIndex(day);
    var lo := TimeToIndex(start);
    var hi := TimeToIndex(end);
    if d.Some? && lo.Some? && hi.Some? then Some((d.value, HourRange(lo.value, hi.value))) else None
  }

  /** `mask[DAY_INDEX[day]] |= (1 << h)` for every `h` in
      `[timeToIndex(start), timeToIndex(end))` that lies in `[0, 13)`. */
  function AddSlot(m: Mask, day: string, start: string, end: string): (r: Mask)
    ensures DayIndex(day).None? ==> r == m
  {
    match SlotHours(day, start, end)
    case Some((d, hours)) => m[d := m[d] + hours]
    case None => m
  }

  /** Adding a slot sets exactly the hours the slot occupies and clears none. */
  lemma AddSlotHours(m: Mask, day: string, start: string, end: string, d: nat, h: nat)
    requires d < 5
    ensures h in AddSlot(m, day, start, end)[d] <==>
      h in m[d] || (SlotHours(day, start, end).Some? && SlotHours(day, start, end).value.0 == d && h in SlotHours(day, start, end).value.1)
  {
  }
}
