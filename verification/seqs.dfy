/** Generic list helpers: duplicate-free lists and `[...new Set(xs)]`. */
module Seqs {
  import opened Wrappers

  predicate NoDups<T(==)>(xs: seq<T>) {
    forall i, j :: 0 <= i < j < |xs| ==> xs[i] != xs[j]
  }

  /** Two duplicate-free lists with no element in common join into one. */
  lemma NoDupsAppend<T>(a: seq<T>, b: seq<T>)
    requires NoDups(a) && NoDups(b)
    requires forall x :: x in a ==> x !in b
    ensures NoDups(a + b)
  {
    forall i, j | 0 <= i < j < |a + b| ensures (a + b)[i] != (a + b)[j] {
      if i < |a| && |a| <= j {
        assert (a + b)[i] in a && (a + b)[j] in b;
      }
    }
  }

  /** In a duplicate-free list every element occurs exactly once. */
  lemma {:induction false} NoDupsOnce<T>(xs: seq<T>, x: T)
    requires NoDups(xs) && x in xs
    ensures multiset(xs)[x] == 1
  {
    var init := xs[..|xs| - 1];
    var last := xs[|xs| - 1];
    assert xs == init + [last];
    assert multiset(xs) == multiset(init) + multiset{last};
    if x == last {
      assert x !in init;
    } else {
      NoDupsOnce(init, x);
    }
  }

  lemma ConcatAssoc<T>(a: seq<T>, b: seq<T>, c: seq<T>)
    ensures (a + b) + c == a + (b + c)
  {
  }

  /** `[...new Set(xs)]`: the elements of `xs`, each once, in the order of
      their first occurrence. */
  function Dedup<T(==)>(xs: seq<T>): (r: seq<T>)
    ensures NoDups(r)
    ensures forall i :: 0 <= i < |r| ==> r[i] in xs
    ensures forall i :: 0 <= i < |xs| ==> xs[i] in r
    ensures |r| <= |xs|
  {
    if |xs| == 0 then []
    else
      var init := xs[..|xs| - 1];
      var last := xs[|xs| - 1];
      var r := Dedup(init);
      assert xs == init + [last];
      assert forall i :: 0 <= i < |init| ==> xs[i] == init[i];
      if last in init then r else r + [last]
  }

  /** A list without repeats is its own de-duplication. */
  lemma {:induction false} DedupNoDups<T>(xs: seq<T>)
    requires NoDups(xs)
    ensures Dedup(xs) == xs
  {
    if |xs| > 0 {
      var init := xs[..|xs| - 1];
      assert NoDups(init);
      DedupNoDups(init);
      assert xs[|xs| - 1] !in init;
      assert xs == init + [xs[|xs| - 1]];
    }
  }

  /** De-duplication keeps the first element in front. */
  lemma {:induction false} DedupHead<T>(xs: seq<T>)
    requires |xs| > 0
    ensures |Dedup(xs)| > 0 && Dedup(xs)[0] == xs[0]
  {
    if |xs| > 1 {
      var init := xs[..|xs| - 1];
      DedupHead(init);
      assert init[0] == xs[0];
    }
  }

  /** An element of the front part keeps its position when more is
      appended. */
  lemma {:induction false} PositionInit<T>(init: seq<T>, last: T, y: T)
    requires y in init
    ensures Position(init + [last], y) == Position(init, y)
  {
    PositionFront(init, [last], y, Position(init, y).value);
  }

  /** `Dedup` keeps the elements in the order of their first occurrences. */
  lemma {:induction false} DedupOrder<T>(xs: seq<T>, i: nat, j: nat)
    requires i < j < |Dedup(xs)|
    ensures Position(xs, Dedup(xs)[i]).value < Position(xs, Dedup(xs)[j]).value
    decreases |xs|
  {
    var init := xs[..|xs| - 1];
    var last := xs[|xs| - 1];
    var r0 := Dedup(init);
    assert xs == init + [last];
    if j < |r0| {
      assert Dedup(xs)[i] == r0[i] && Dedup(xs)[j] == r0[j];
      DedupOrder(init, i, j);
      PositionInit(init, last, r0[i]);
      PositionInit(init, last, r0[j]);
    } else {
      assert last !in init && Dedup(xs) == r0 + [last];
      assert Dedup(xs)[i] == r0[i] && Dedup(xs)[j] == last;
      PositionInit(init, last, r0[i]);
      assert Position([last], last) == Some(0);
      PositionShift(init, [last], last, 0);
    }
  }

  /** The invariant of an appending loop survives one turn: whatever the
      turn appended to `out` is the head it took off the pending part. */
  lemma {:induction false} AppendStep<T>(out: seq<T>, head: seq<T>, tail: seq<T>, total: seq<T>, out': seq<T>)
    requires out + (head + tail) == total
    requires out' == out + head
    ensures out' + tail == total
  {
    assert out + (head + tail) == out + head + tail;
  }

  /** The first index at or after `k` holding `x`. */
  function PositionFrom<T(==)>(xs: seq<T>, x: T, k: nat): (r: Option<nat>)
    requires k <= |xs|
    ensures r.None? <==> x !in xs[k..]
    ensures r.Some? ==> k <= r.value < |xs| && xs[r.value] == x
    decreases |xs| - k
  {
    if k == |xs| then None
    else if xs[k] == x then Some(k)
    else
      var r := PositionFrom(xs, x, k + 1);
      assert xs[k..] == [xs[k]] + xs[k + 1..];
      r
  }

  /** The index of the first occurrence of `x` in `xs`, as SQL's `fetchone()`
      on a table scanned in insertion order finds it. */
  function Position<T(==)>(xs: seq<T>, x: T): (r: Option<nat>)
    ensures r.None? <==> x !in xs
    ensures r.Some? ==> r.value < |xs| && xs[r.value] == x
  {
    assert xs[0..] == xs;
    PositionFrom(xs, x, 0)
  }

  /** Nothing before the found index holds `x`. */
  lemma {:induction false} PositionFromFirst<T>(xs: seq<T>, x: T, k: nat, i: nat)
    requires k <= i < |xs| && xs[i] == x
    requires forall j :: k <= j < i ==> xs[j] != x
    ensures PositionFrom(xs, x, k) == Some(i)
    decreases i - k
  {
    if k < i {
      PositionFromFirst(xs, x, k + 1, i);
    }
  }

  /** An element with no copy before index `i` is first found at `i`. */
  lemma {:induction false} PositionAt<T>(xs: seq<T>, i: nat, x: T)
    requires i < |xs| && xs[i] == x
    requires forall j :: 0 <= j < i ==> xs[j] != x
    ensures Position(xs, x) == Some(i)
  {
    PositionFromFirst(xs, x, 0, i);
  }

  /** Scanning `a + b` from inside `b` is scanning `b`, shifted. */
  lemma {:induction false} PositionFromShift<T>(a: seq<T>, b: seq<T>, x: T, k: nat)
    requires k <= |b|
    ensures PositionFrom(a + b, x, |a| + k) ==
      match PositionFrom(b, x, k)
      case None => None
      case Some(i) => Some(|a| + i)
    decreases |b| - k
  {
    if k < |b| {
      assert (a + b)[|a| + k] == b[k];
      PositionFromShift(a, b, x, k + 1);
    }
  }

  /** Scanning past a front part that lacks `x` reaches the back part. */
  lemma {:induction false} PositionFromSkip<T>(a: seq<T>, b: seq<T>, x: T, k: nat)
    requires k <= |a| && x !in a[k..]
    ensures PositionFrom(a + b, x, k) == PositionFrom(a + b, x, |a|)
    decreases |a| - k
  {
    if k < |a| {
      assert (a + b)[k] == a[k];
      assert a[k] in a[k..];
      assert a[k + 1..] == a[k..][1..];
      PositionFromSkip(a, b, x, k + 1);
    }
  }

  /** Past a front part that lacks `x`, positions shift by its length. */
  lemma {:induction false} PositionShift<T>(a: seq<T>, b: seq<T>, x: T, i: nat)
    requires x !in a && Position(b, x) == Some(i)
    ensures Position(a + b, x) == Some(|a| + i)
  {
    assert a[0..] == a;
    PositionFromSkip(a, b, x, 0);
    PositionFromShift(a, b, x, 0);
  }

  /** A front part that holds `x` decides its position. */
  lemma {:induction false} PositionFront<T>(a: seq<T>, b: seq<T>, x: T, i: nat)
    requires Position(a, x) == Some(i)
    ensures Position(a + b, x) == Some(i)
  {
    var r := Position(a, x);
    forall j | 0 <= j < i ensures (a + b)[j] != x {
      assert (a + b)[j] == a[j];
      PositionFromBefore(a, x, 0, i, j);
    }
    PositionAt(a + b, i, x);
  }

  /** Nothing the scan passed over holds `x`. */
  lemma {:induction false} PositionFromBefore<T>(xs: seq<T>, x: T, k: nat, i: nat, j: nat)
    requires k <= |xs| && PositionFrom(xs, x, k) == Some(i) && k <= j < i
    ensures xs[j] != x
    decreases i - k
  {
    if j > k {
      PositionFromBefore(xs, x, k + 1, i, j);
    }
  }

  /** The defined results of `f` over `xs`, in order: a loop that writes a
      row for each element `f` accepts and skips the others. */
  function FilterMap<T, U>(xs: seq<T>, f: T -> Option<U>): (r: seq<U>)
    ensures |r| <= |xs|
  {
    if |xs| == 0 then []
    else FilterMap(xs[..|xs| - 1], f) + match f(xs[|xs| - 1]) case Some(y) => [y] case None => []
  }

  /** The loop over a concatenation is the two loops one after the other. */
  lemma {:induction false} FilterMapAppend<T, U>(a: seq<T>, b: seq<T>, f: T -> Option<U>)
    ensures FilterMap(a + b, f) == FilterMap(a, f) + FilterMap(b, f)
    decreases |b|
  {
    if |b| > 0 {
      var b' := b[..|b| - 1];
      assert (a + b)[..|a + b| - 1] == a + b';
      assert (a + b)[|a + b| - 1] == b[|b| - 1];
      FilterMapAppend(a, b', f);
    } else {
      assert a + b == a;
    }
  }

  /** An element `f` rejects leaves no trace. */
  lemma {:induction false} FilterMapSkip<T, U>(a: seq<T>, x: T, b: seq<T>, f: T -> Option<U>)
    requires f(x).None?
    ensures FilterMap(a + [x] + b, f) == FilterMap(a, f) + FilterMap(b, f)
  {
    FilterMapAppend(a + [x], b, f);
    FilterMapAppend(a, [x], f);
    assert [x][..0] == [];
  }

  /** When `f` accepts every element, there is one result per element, in
      order. */
  lemma {:induction false} FilterMapTotal<T, U>(xs: seq<T>, f: T -> Option<U>)
    requires forall i :: 0 <= i < |xs| ==> f(xs[i]).Some?
    ensures |FilterMap(xs, f)| == |xs|
    ensures forall i :: 0 <= i < |xs| ==> FilterMap(xs, f)[i] == f(xs[i]).value
    decreases |xs|
  {
    if |xs| > 0 {
      var init := xs[..|xs| - 1];
      assert forall i :: 0 <= i < |init| ==> init[i] == xs[i];
      FilterMapTotal(init, f);
    }
  }

  /** `xs.filter(p)`. */
  function Filter<T>(xs: seq<T>, p: T -> bool): (r: seq<T>)
    ensures |r| <= |xs|
    ensures forall i :: 0 <= i < |r| ==> p(r[i]) && r[i] in xs
    ensures forall i :: 0 <= i < |xs| && p(xs[i]) ==> xs[i] in r
  {
    if |xs| == 0 then []
    else
      var init := xs[..|xs| - 1];
      assert forall i :: 0 <= i < |init| ==> init[i] == xs[i];
      var r := Filter(init, p);
      if p(xs[|xs| - 1]) then r + [xs[|xs| - 1]] else r
  }

  /** The results of `f` over `xs` up to the first element it rejects, and
      whether there was one: a loop that stops at the first exception. */
  function TakeWhileSome<T, U>(xs: seq<T>, f: T -> Option<U>): (r: (seq<U>, bool))
    ensures |r.0| <= |xs|
    ensures forall j :: 0 <= j < |r.0| ==> f(xs[j]) == Some(r.0[j])
    ensures r.1 ==> |r.0| < |xs| && f(xs[|r.0|]).None?
    ensures !r.1 ==> |r.0| == |xs|
  {
    if |xs| == 0 then ([], false)
    else match f(xs[0])
      case None => ([], true)
      case Some(y) =>
        var rest := TakeWhileSome(xs[1..], f);
        assert forall j :: 0 < j < |xs| ==> xs[1..][j - 1] == xs[j];
        ([y] + rest.0, rest.1)
  }

  /** The sum of the values, or `None` as soon as one is missing. */
  function SumAll(xs: seq<Option<int>>): (r: Option<int>)
    ensures r.Some? <==> forall i :: 0 <= i < |xs| ==> xs[i].Some?
  {
    if |xs| == 0 then Some(0)
    else
      var init := xs[..|xs| - 1];
      assert forall i :: 0 <= i < |init| ==> init[i] == xs[i];
      match SumAll(init)
      case Some(a) => (match xs[|xs| - 1] case Some(b) => Some(a + b) case None => None)
      case None => None
  }

  /** One day's rows of a day × label grid: `(day, l)` for each label `l`. */
  function DayRows<D, L>(day: D, labels: seq<L>): seq<(D, L)> {
    seq(|labels|, i requires 0 <= i < |labels| => (day, labels[i]))
  }

  /** A day × label grid, day-major: nested loops over days, then labels. */
  function Grid<D, L>(days: seq<D>, labels: seq<L>): seq<(D, L)> {
    if |days| == 0 then [] else DayRows(days[0], labels) + Grid(days[1..], labels)
  }

  lemma {:induction false} GridCons<D, L>(days: seq<D>, labels: seq<L>)
    requires |days| > 0
    ensures Grid(days, labels) == DayRows(days[0], labels) + Grid(days[1..], labels)
    ensures |DayRows(days[0], labels)| == |labels|
  {
  }
}
