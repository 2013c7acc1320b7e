/** The paging of the full-screen schedule view: pages of 50 schedules, the
    current page number, the Prev and Next buttons and the range label. */
module FocusMode {

  const PageSize: nat := 50

  function Min(a: int, b: int): int {
    if a <= b then a else b
  }

  /** `Math.ceil(n / pageSize)`. */
  function TotalPages(n: nat): (r: nat)
    ensures r * PageSize >= n
    ensures r > 0 ==> (r - 1) * PageSize < n
  {
    (n + PageSize - 1) / PageSize
  }

  /** `schedules.slice(p * pageSize, (p + 1) * pageSize)`; `slice` clamps
      both ends to the length. */
  function Page<T>(xs: seq<T>, p: nat): (r: seq<T>)
    ensures |r| <= PageSize
    ensures |r| > 0 <==> p < TotalPages(|xs|)
    ensures p + 1 < TotalPages(|xs|) ==> |r| == PageSize
    ensures forall i :: 0 <= i < |r| ==> p * PageSize + i < |xs| && r[i] == xs[p * PageSize + i]
  {
    var lo := Min(p * PageSize, |xs|);
    var hi := Min((p + 1) * PageSize, |xs|);
    xs[lo..hi]
  }

  /** The first `k` pages one after another. */
  function Pages<T>(xs: seq<T>, k: nat): seq<T> {
    if k == 0 then [] else Pages(xs, k - 1) + Page(xs, k - 1)
  }

  lemma {:induction false} PagesPrefix<T>(xs: seq<T>, k: nat)
    ensures Pages(xs, k) == xs[..Min(k * PageSize, |xs|)]
  {
    if k > 0 {
      PagesPrefix(xs, k - 1);
      var lo := Min((k - 1) * PageSize, |xs|);
      var hi := Min(k * PageSize, |xs|);
      assert Page(xs, k - 1) == xs[lo..hi];
      assert xs[..lo] + xs[lo..hi] == xs[..hi];
    }
  }

  /** Paging through every page shows every schedule once, in order. */
  lemma PagesCoverAll<T>(xs: seq<T>)
    ensures Pages(xs, TotalPages(|xs|)) == xs
  {
    PagesPrefix(xs, TotalPages(|xs|));
  }

  /** Prev is enabled unless `currentPage === 0`. */
  predicate CanPrev(p: nat) {
    p != 0
  }

  /** Next is enabled unless `currentPage >= totalPages - 1`. */
  predicate CanNext(p: nat, n: nat) {
    p < TotalPages(n) - 1
  }

  datatype Click = PrevClick | NextClick

  /** The page after a click; a disabled button does nothing. */
  function Step(p: nat, n: nat, c: Click): (r: nat)
    ensures c == PrevClick ==> r == if CanPrev(p) then p - 1 else p
    ensures c == NextClick ==> r == if CanNext(p, n) then p + 1 else p
  {
    match c
    case PrevClick => if p == 0 then p else p - 1
    case NextClick => if p >= TotalPages(n) - 1 then p else p + 1
  }

  /** The page shown after opening the view (which resets it to 0) and
      then clicking `clicks` in order. */
  function Run(clicks: seq<Click>, n: nat): nat {
    if |clicks| == 0 then 0 else Step(Run(clicks[..|clicks| - 1], n), n, clicks[|clicks| - 1])
  }

  /** A page that exists, or page 0 of an empty list. */
  predicate InRange(p: nat, n: nat) {
    p == 0 || p < TotalPages(n)
  }

  lemma StepInRange(p: nat, n: nat, c: Click)
    requires InRange(p, n)
    ensures InRange(Step(p, n, c), n)
  {
  }

  /** Whatever is clicked, the page stays in range, so a non-empty list
      always shows a non-empty page. */
  lemma {:induction false} RunInRange<T>(clicks: seq<Click>, xs: seq<T>)
    ensures InRange(Run(clicks, |xs|), |xs|)
    ensures |xs| > 0 ==> |Page(xs, Run(clicks, |xs|))| > 0
  {
    if |clicks| > 0 {
      RunInRange(clicks[..|clicks| - 1], xs);
      StepInRange(Run(clicks[..|clicks| - 1], |xs|), |xs|, clicks[|clicks| - 1]);
    }
  }

  /** Next then Prev comes back, and the other way round. */
  lemma StepsUndo(p: nat, n: nat)
    ensures CanNext(p, n) ==> Step(Step(p, n, NextClick), n, PrevClick) == p
    ensures CanPrev(p) && InRange(p, n) ==> Step(Step(p, n, PrevClick), n, NextClick) == p
  {
  }

  /** `{p * pageSize + 1}-{Math.min((p + 1) * pageSize, n)}`. */
  function RangeLabel(p: nat, n: nat): (r: (int, int))
    ensures r.0 == p * PageSize + 1
    ensures r.1 <= n && r.1 <= (p + 1) * PageSize
  {
    (p * PageSize + 1, Min((p + 1) * PageSize, n))
  }

  /** On an existing page the label gives the 1-based positions of the
      first and the last schedule shown. */
  lemma RangeLabelMatchesPage<T>(xs: seq<T>, p: nat)
    requires p < TotalPages(|xs|)
    ensures var (first, last) := RangeLabel(p, |xs|);
      var page := Page(xs, p);
      && last - first + 1 == |page|
      && page[0] == xs[first - 1]
      && page[|page| - 1] == xs[last - 1]
  {
  }

  /** With no schedules there are no pages and the label reads "1-0". */
  lemma EmptyLabel()
    ensures TotalPages(0) == 0
    ensures RangeLabel(0, 0) == (1, 0)
  {
  }
}
