/** `Array.prototype.sort` with a comparator that subtracts two integer keys:
    a stable sort, ascending by key or, when `desc`, descending. It is
    modelled as insertion from the right, which is one stable sort; any
    stable sort gives the same order (see `SortUnique`). */
module Sorting {
  import opened Seqs

  /** `a` may stand before `b`. */
  predicate InOrder(a: int, b: int, desc: bool) {
    if desc then a >= b else a <= b
  }

  predicate Ordered<T>(s: seq<T>, key: T -> int, desc: bool) {
    forall i, j :: 0 <= i < j < |s| ==> InOrder(key(s[i]), key(s[j]), desc)
  }

  /** The items of `s` whose key is `v`, in the order of `s`. */
  function WithKey<T>(s: seq<T>, key: T -> int, v: int): (r: seq<T>)
    ensures |r| <= |s|
    ensures forall i :: 0 <= i < |r| ==> key(r[i]) == v
  {
    if |s| == 0 then []
    else (if key(s[0]) == v then [s[0]] else []) + WithKey(s[1..], key, v)
  }

  lemma {:induction false} WithKeyMember<T>(s: seq<T>, key: T -> int, v: int, x: T)
    ensures x in WithKey(s, key, v) <==> x in s && key(x) == v
    decreases |s|
  {
    if |s| > 0 {
      WithKeyMember(s[1..], key, v, x);
      assert s == [s[0]] + s[1..];
    }
  }

  /** `x` placed before the first item that must come after it, so that
      it follows every item it ties with. */
  function Insert<T>(x: T, s: seq<T>, key: T -> int, desc: bool): (r: seq<T>)
    ensures multiset(r) == multiset(s) + multiset{x}
  {
    if |s| == 0 then [x]
    else if !InOrder(key(s[0]), key(x), desc) then [x] + s
    else
      assert s == [s[0]] + s[1..];
      [s[0]] + Insert(x, s[1..], key, desc)
  }

  /** Insertion keeps a list ordered. */
  lemma {:induction false} InsertOrdered<T>(x: T, s: seq<T>, key: T -> int, desc: bool)
    requires Ordered(s, key, desc)
    ensures Ordered(Insert(x, s, key, desc), key, desc)
    decreases |s|
  {
    if |s| == 0 {
    } else if !InOrder(key(s[0]), key(x), desc) {
      HeadFirst(s, key, desc);
      assert s == [s[0]] + s[1..];
      forall y | y in multiset(s) ensures InOrder(key(x), key(y), desc) {
        if y != s[0] {
          assert y in multiset(s[1..]);
        }
      }
      ConsOrdered(x, s, key, desc);
    } else {
      OrderedTail(s, key, desc);
      InsertOrdered(x, s[1..], key, desc);
      HeadFirst(s, key, desc);
      ConsOrdered(s[0], Insert(x, s[1..], key, desc), key, desc);
    }
  }

  /** The head of an ordered list may stand before every later item. */
  lemma HeadFirst<T>(s: seq<T>, key: T -> int, desc: bool)
    requires |s| > 0 && Ordered(s, key, desc)
    ensures forall y :: y in multiset(s[1..]) ==> InOrder(key(s[0]), key(y), desc)
  {
    forall y | y in multiset(s[1..]) ensures InOrder(key(s[0]), key(y), desc) {
      var k :| 0 <= k < |s[1..]| && s[1..][k] == y;
      assert s[k + 1] == y;
    }
  }

  /** An item that may stand before every item of an ordered list can head
      it. */
  lemma ConsOrdered<T>(h: T, rest: seq<T>, key: T -> int, desc: bool)
    requires Ordered(rest, key, desc)
    requires forall y :: y in multiset(rest) ==> InOrder(key(h), key(y), desc)
    ensures Ordered([h] + rest, key, desc)
  {
    var r := [h] + rest;
    forall i, j | 0 <= i < j < |r| ensures InOrder(key(r[i]), key(r[j]), desc) {
      assert r[j] == rest[j - 1];
      if i == 0 {
        assert rest[j - 1] in multiset(rest);
      } else {
        assert r[i] == rest[i - 1];
      }
    }
  }

  /** The sorted copy of `xs`. */
  function Sort<T>(xs: seq<T>, key: T -> int, desc: bool): (r: seq<T>)
    ensures multiset(r) == multiset(xs)
    ensures |r| == |xs|
    ensures Ordered(r, key, desc)
  {
    if |xs| == 0 then []
    else
      var sorted := Sort(xs[..|xs| - 1], key, desc);
      InsertOrdered(xs[|xs| - 1], sorted, key, desc);
      var r := Insert(xs[|xs| - 1], sorted, key, desc);
      assert xs == xs[..|xs| - 1] + [xs[|xs| - 1]];
      assert |r| == |multiset(r)|;
      r
  }

  lemma {:induction false} WithKeyAppend<T>(a: seq<T>, b: seq<T>, key: T -> int, v: int)
    ensures WithKey(a + b, key, v) == WithKey(a, key, v) + WithKey(b, key, v)
    decreases |a|
  {
    if |a| > 0 {
      assert (a + b)[1..] == a[1..] + b;
      WithKeyAppend(a[1..], b, key, v);
    } else {
      assert a + b == b;
    }
  }

  lemma OrderedTail<T>(s: seq<T>, key: T -> int, desc: bool)
    requires |s| > 0 && Ordered(s, key, desc)
    ensures Ordered(s[1..], key, desc)
  {
    var t := s[1..];
    forall i, j | 0 <= i < j < |t| ensures InOrder(key(t[i]), key(t[j]), desc) {
      assert t[i] == s[i + 1] && t[j] == s[j + 1];
    }
  }

  /** Inserting `x` adds it at the end of the items it ties with. */
  lemma {:induction false} InsertWithKey<T>(x: T, s: seq<T>, key: T -> int, desc: bool, v: int)
    requires Ordered(s, key, desc)
    ensures WithKey(Insert(x, s, key, desc), key, v) == WithKey(s, key, v) + (if key(x) == v then [x] else [])
    decreases |s|
  {
    var tail: seq<T> := if key(x) == v then [x] else [];
    if |s| == 0 {
      assert WithKey([x], key, v) == tail + WithKey([x][1..], key, v);
    } else if !InOrder(key(s[0]), key(x), desc) {
      // every item of `s` must come after `x`, so none ties with it
      assert Insert(x, s, key, desc) == [x] + s;
      assert ([x] + s)[1..] == s;
      assert WithKey([x] + s, key, v) == tail + WithKey(s, key, v);
      if key(x) == v {
        NoneWithKey(s, key, v, desc);
      }
    } else {
      var rest := Insert(x, s[1..], key, desc);
      var head: seq<T> := if key(s[0]) == v then [s[0]] else [];
      OrderedTail(s, key, desc);
      InsertWithKey(x, s[1..], key, desc, v);
      assert Insert(x, s, key, desc) == [s[0]] + rest;
      assert ([s[0]] + rest)[1..] == rest;
      assert WithKey([s[0]] + rest, key, v) == head + WithKey(rest, key, v);
      assert WithKey(s, key, v) == head + WithKey(s[1..], key, v);
      ConcatAssoc(head, WithKey(s[1..], key, v), tail);
    }
  }

  /** An ordered list whose head must come after `v` holds no item keyed `v`. */
  lemma NoneWithKey<T>(s: seq<T>, key: T -> int, v: int, desc: bool)
    requires Ordered(s, key, desc)
    requires |s| > 0 && !InOrder(key(s[0]), v, desc)
    ensures WithKey(s, key, v) == []
  {
    var w := WithKey(s, key, v);
    if |w| > 0 {
      WithKeyMember(s, key, v, w[0]);
    }
  }

  lemma SortStep<T>(xs: seq<T>, key: T -> int, desc: bool)
    requires |xs| > 0
    ensures Sort(xs, key, desc) == Insert(xs[|xs| - 1], Sort(xs[..|xs| - 1], key, desc), key, desc)
  {
  }

  lemma LastSplit<T>(xs: seq<T>)
    requires |xs| > 0
    ensures xs == xs[..|xs| - 1] + [xs[|xs| - 1]]
  {
  }

  /** One insertion step of the sort keeps the tied items in input order. */
  lemma StableStep<T>(init: seq<T>, last: T, sorted: seq<T>, key: T -> int, desc: bool, v: int)
    requires Ordered(sorted, key, desc)
    requires WithKey(sorted, key, v) == WithKey(init, key, v)
    ensures WithKey(Insert(last, sorted, key, desc), key, v) == WithKey(init + [last], key, v)
  {
    var tail: seq<T> := if key(last) == v then [last] else [];
    InsertWithKey(last, sorted, key, desc, v);
    WithKeyAppend(init, [last], key, v);
    assert WithKey([last], key, v) == tail + WithKey([last][1..], key, v);
  }

  /** Items that tie keep their relative order. */
  lemma {:induction false} SortStable<T>(xs: seq<T>, key: T -> int, desc: bool, v: int)
    ensures WithKey(Sort(xs, key, desc), key, v) == WithKey(xs, key, v)
    decreases |xs|
  {
    if |xs| > 0 {
      var init, last := xs[..|xs| - 1], xs[|xs| - 1];
      SortStable(init, key, desc, v);
      SortStep(xs, key, desc);
      LastSplit(xs);
      StableStep(init, last, Sort(init, key, desc), key, desc, v);
    }
  }

  /** When no two items differ in key, sorting changes nothing. */
  lemma {:induction false} SortTies<T>(xs: seq<T>, key: T -> int, desc: bool)
    requires forall i, j :: 0 <= i < |xs| && 0 <= j < |xs| ==> key(xs[i]) == key(xs[j])
    ensures Sort(xs, key, desc) == xs
    decreases |xs|
  {
    if |xs| > 0 {
      var init, last := xs[..|xs| - 1], xs[|xs| - 1];
      assert xs == init + [last];
      assert Sort(xs, key, desc) == Insert(last, Sort(init, key, desc), key, desc);
      SortTies(init, key, desc);
      InsertAtEnd(last, init, key, desc);
    }
  }

  lemma {:induction false} InsertAtEnd<T>(x: T, s: seq<T>, key: T -> int, desc: bool)
    requires forall i :: 0 <= i < |s| ==> key(s[i]) == key(x)
    ensures Insert(x, s, key, desc) == s + [x]
    decreases |s|
  {
    if |s| > 0 {
      InsertAtEnd(x, s[1..], key, desc);
      assert s == [s[0]] + s[1..];
    }
  }

  // ---------------------------------------------------------------------------
  // Uniqueness: order plus stability fix the result
  // ---------------------------------------------------------------------------

  /** Two ordered arrangements that list each key's items alike start with
      the same item. */
  lemma HeadsAgree<T>(a: seq<T>, b: seq<T>, key: T -> int, desc: bool)
    requires Ordered(a, key, desc) && Ordered(b, key, desc)
    requires forall v :: WithKey(a, key, v) == WithKey(b, key, v)
    requires |a| > 0 && |b| > 0
    ensures a[0] == b[0]
  {
    // the first item of each has a key no other item may precede
    var ka, kb := key(a[0]), key(b[0]);
    WithKeyMember(b, key, kb, b[0]);
    WithKeyMember(a, key, kb, b[0]);
    WithKeyMember(a, key, ka, a[0]);
    WithKeyMember(b, key, ka, a[0]);
    var i :| 0 <= i < |a| && a[i] == b[0];
    var j :| 0 <= j < |b| && b[j] == a[0];
    if i > 0 { assert InOrder(ka, kb, desc); }
    if j > 0 { assert InOrder(kb, ka, desc); }
    assert ka == kb;
    assert WithKey(a, key, ka) == WithKey(b, key, ka);
    assert a[0] == WithKey(a, key, ka)[0] == WithKey(b, key, ka)[0] == b[0];
  }

  /** Dropping a common first item keeps the items of each key alike. */
  lemma TailsAgree<T>(a: seq<T>, b: seq<T>, key: T -> int, v: int)
    requires |a| > 0 && |b| > 0 && a[0] == b[0]
    requires WithKey(a, key, v) == WithKey(b, key, v)
    ensures WithKey(a[1..], key, v) == WithKey(b[1..], key, v)
  {
    var head: seq<T> := if key(a[0]) == v then [a[0]] else [];
    assert WithKey(a, key, v) == head + WithKey(a[1..], key, v);
    assert WithKey(b, key, v) == head + WithKey(b[1..], key, v);
    assert (head + WithKey(a[1..], key, v))[|head|..] == WithKey(a[1..], key, v);
    assert (head + WithKey(b[1..], key, v))[|head|..] == WithKey(b[1..], key, v);
  }

  /** Two ordered arrangements that list each key's items alike are equal. */
  lemma {:induction false} SortUnique<T>(a: seq<T>, b: seq<T>, key: T -> int, desc: bool)
    requires Ordered(a, key, desc) && Ordered(b, key, desc)
    requires forall v :: WithKey(a, key, v) == WithKey(b, key, v)
    ensures a == b
    decreases |a| + |b|
  {
    // an item of either is an item of the other, so both are empty or neither
    if |a| > 0 {
      WithKeyMember(a, key, key(a[0]), a[0]);
      WithKeyMember(b, key, key(a[0]), a[0]);
    }
    if |b| > 0 {
      WithKeyMember(a, key, key(b[0]), b[0]);
      WithKeyMember(b, key, key(b[0]), b[0]);
    }
    if |a| > 0 && |b| > 0 {
      HeadsAgree(a, b, key, desc);
      forall v ensures WithKey(a[1..], key, v) == WithKey(b[1..], key, v) {
        TailsAgree(a, b, key, v);
      }
      OrderedTail(a, key, desc);
      OrderedTail(b, key, desc);
      SortUnique(a[1..], b[1..], key, desc);
      assert a == [a[0]] + a[1..];
      assert b == [b[0]] + b[1..];
    }
  }
}
