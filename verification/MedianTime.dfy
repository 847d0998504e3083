/** Median time past (src/chain/chain.h, GetMedianTimePast) never decreases along a chain
    whose blocks are each later than the median before them (src/core/main.cpp). */
module MedianTime {
  import opened Common
  import opened BlockTree

  const SPAN := 11

  // ----- sorting

  predicate Sorted(s: seq<int>) {
    forall i, j :: 0 <= i < j < |s| ==> s[i] <= s[j]
  }

  /** How many elements are below `m`. */
  function Below(s: seq<int>, m: int): (c: nat)
    ensures c <= |s|
  {
    if s == [] then 0
    else Below(s[..|s| - 1], m) + if s[|s| - 1] < m then 1 else 0
  }

  lemma {:induction false} BelowJoin(a: seq<int>, b: seq<int>, m: int)
    ensures Below(a + b, m) == Below(a, m) + Below(b, m)
  {
    if b == [] {
      assert a + b == a;
    } else {
      BelowJoin(a, b[..|b| - 1], m);
      assert (a + b)[..|a + b| - 1] == a + b[..|b| - 1];
    }
  }

  /** Where a value goes in a sorted sequence. */
  function Insert(s: seq<int>, x: int): seq<int> {
    if s == [] || s[|s| - 1] <= x then s + [x]
    else Insert(s[..|s| - 1], x) + [s[|s| - 1]]
  }

  function Sort(s: seq<int>): seq<int> {
    if s == [] then [] else Insert(Sort(s[..|s| - 1]), s[|s| - 1])
  }

  predicate AtMost(s: seq<int>, top: int) {
    forall i :: 0 <= i < |s| ==> s[i] <= top
  }

  lemma {:induction false} InsertAtMost(s: seq<int>, x: int, top: int)
    requires AtMost(s, top) && x <= top
    ensures AtMost(Insert(s, x), top) && |Insert(s, x)| == |s| + 1
  {
    if s != [] && s[|s| - 1] > x {
      InsertAtMost(s[..|s| - 1], x, top);
    }
  }

  lemma {:induction false} InsertSorts(s: seq<int>, x: int)
    requires Sorted(s)
    ensures Sorted(Insert(s, x)) && |Insert(s, x)| == |s| + 1
  {
    if s != [] && s[|s| - 1] > x {
      InsertSorts(s[..|s| - 1], x);
      InsertAtMost(s[..|s| - 1], x, s[|s| - 1]);
    }
  }

  lemma {:induction false} InsertCounts(s: seq<int>, x: int, m: int)
    ensures Below(Insert(s, x), m) == Below(s, m) + if x < m then 1 else 0
  {
    if s != [] && s[|s| - 1] > x {
      InsertCounts(s[..|s| - 1], x, m);
    }
  }

  /** Sorting keeps the count below every bound, so it only rearranges. */
  lemma {:induction false} SortSorts(s: seq<int>, m: int)
    ensures Sorted(Sort(s)) && |Sort(s)| == |s| && Below(Sort(s), m) == Below(s, m)
  {
    if s != [] {
      SortSorts(s[..|s| - 1], m);
      InsertSorts(Sort(s[..|s| - 1]), s[|s| - 1]);
      InsertCounts(Sort(s[..|s| - 1]), s[|s| - 1], m);
    }
  }

  /** The element at a place in a sorted sequence, by counting. */
  lemma {:induction false} SortedAt(s: seq<int>, k: nat, m: int)
    requires Sorted(s) && k < |s|
    ensures s[k] >= m <==> Below(s, m) <= k
    decreases |s|
  {
    var init, last := s[..|s| - 1], s[|s| - 1];
    if k < |init| {
      SortedAt(init, k, m);
    } else if last < m {
      AllBelow(init, m);
    }
  }

  lemma {:induction false} AllBelow(s: seq<int>, m: int)
    requires forall i :: 0 <= i < |s| ==> s[i] < m
    ensures Below(s, m) == |s|
  {
    if s != [] {
      AllBelow(s[..|s| - 1], m);
    }
  }

  // ----- the median

  function Median(w: seq<int>): int
    requires w != []
  {
    SortSorts(w, 0);
    Sort(w)[|w| / 2]
  }

  /** The median is at least `m` exactly when at most half of the values are below `m`. */
  lemma MedianByCounting(w: seq<int>, m: int)
    requires w != []
    ensures Median(w) >= m <==> Below(w, m) <= |w| / 2
  {
    SortSorts(w, m);
    SortedAt(Sort(w), |w| / 2, m);
  }

  // ----- the last blocks of a chain

  /** The times of the last `n` blocks up to `b`, or of all when there are fewer. */
  function Window(t: Tree, b: int, n: nat): seq<int>
    requires Grown(t) && NONE <= b < |t|
  {
    if n == 0 || b == NONE then [] else Window(t, t[b].prev, n - 1) + [t[b].time]
  }

  function MedianTimePast(t: Tree, b: int): int
    requires Grown(t) && IsBlock(t, b)
  {
    Median(Window(t, b, SPAN))
  }

  /** GetMedianTimePast: the loop fills an array from its end, which is then sorted. */
  method GetMedianTimePast(t: Tree, b: int) returns (m: int)
    requires Grown(t) && IsBlock(t, b)
    ensures m == MedianTimePast(t, b)
  {
    var pmedian := new int[SPAN];
    var begin := SPAN;
    var x := b;
    var i := 0;
    while i < SPAN && x != NONE
      invariant 0 <= i <= SPAN && begin == SPAN - i && NONE <= x < |t|
      invariant Window(t, x, SPAN - i) + pmedian[begin..] == Window(t, b, SPAN)
      invariant i == 0 ==> x == b
      decreases SPAN - i
    {
      ghost var done := pmedian[begin..];
      begin := begin - 1;
      pmedian[begin] := t[x].time;
      assert pmedian[begin..] == [t[x].time] + done;
      x := t[x].prev;
      i := i + 1;
    }
    assert Window(t, x, SPAN - i) == [];
    var window := pmedian[begin..];
    assert window == Window(t, b, SPAN);
    SortSorts(window, 0);
    m := Sort(window)[|window| / 2];
  }

  /** A longer window adds at most one block before a shorter one, and none when the chain is
      too short. */
  lemma {:induction false} LongerWindow(t: Tree, b: int, n: nat)
    requires Grown(t) && NONE <= b < |t|
    ensures |Window(t, b, n)| <= n
    ensures Window(t, b, n + 1) == Window(t, b, n) ||
            (|Window(t, b, n)| == n && exists x :: Window(t, b, n + 1) == [x] + Window(t, b, n))
  {
    if b != NONE {
      if n == 0 {
        assert Window(t, b, 1) == [t[b].time] + Window(t, b, 0);
      } else {
        LongerWindow(t, t[b].prev, n - 1);
        if Window(t, t[b].prev, n) != Window(t, t[b].prev, n - 1) {
          var x :| Window(t, t[b].prev, n) == [x] + Window(t, t[b].prev, n - 1);
          assert Window(t, b, n + 1) == [x] + Window(t, b, n);
        }
      }
    }
  }

  lemma FewerAreBelow(t: Tree, b: int, n: nat, m: int)
    requires Grown(t) && NONE <= b < |t|
    ensures Below(Window(t, b, n), m) <= Below(Window(t, b, n + 1), m)
  {
    hide Window;
    LongerWindow(t, b, n);
    if Window(t, b, n + 1) != Window(t, b, n) {
      var x :| Window(t, b, n + 1) == [x] + Window(t, b, n);
      BelowJoin([x], Window(t, b, n), m);
    }
  }

  /** One step up the chain. */
  lemma MedianStep(t: Tree, b: int)
    requires Grown(t) && IsBlock(t, b) && t[b].prev != NONE
    requires t[b].time > MedianTimePast(t, t[b].prev)
    ensures MedianTimePast(t, b) >= MedianTimePast(t, t[b].prev)
  {
    hide Median, Below;
    var p := t[b].prev;
    var m := MedianTimePast(t, p);
    LongerWindow(t, p, SPAN - 1);
    FewerAreBelow(t, p, SPAN - 1, m);
    MedianByCounting(Window(t, p, SPAN), m);
    MedianByCounting(Window(t, b, SPAN), m);
    LateIsNotBelow(Window(t, p, SPAN - 1), t[b].time, m);
  }

  lemma LateIsNotBelow(w: seq<int>, time: int, m: int)
    requires time > m
    ensures Below(w + [time], m) == Below(w, m)
  {
  }

  /** What ContextualCheckBlockHeader asks of each block. */
  ghost predicate TimesAreLate(t: Tree)
    requires Grown(t)
  {
    forall b {:trigger t[b].prev} :: 0 <= b < |t| && t[b].prev != NONE ==> t[b].time > MedianTimePast(t, t[b].prev)
  }

  /** Along every chain the median never decreases. */
  lemma {:induction false} MedianNeverDecreases(t: Tree, a: int, b: int)
    requires Grown(t) && TimesAreLate(t) && IsAncestor(t, a, b)
    ensures MedianTimePast(t, a) <= MedianTimePast(t, b)
    decreases b
  {
    hide MedianTimePast;
    if a != b {
      AncestorIsNotAbove(t, a, b);
      MedianStep(t, b);
      MedianNeverDecreases(t, a, t[b].prev);
    }
  }
}
