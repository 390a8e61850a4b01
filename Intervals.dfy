/** Watched-time intervals and the value-level part of the progress
    calculation of server/models/VideoProgress.js: the sort by start, the
    merge sweep and the sum of merged lengths, together with the point set an
    interval list covers, which is what "measure of the union" is about. */
module Intervals {

  /** One continuous playback segment `{start, end}`, in seconds. Nothing in
      the source checks `start <= end`, so an interval may be inverted. */
  datatype Interval = Interval(start: real, end: real)

  /** `Math.max` on seconds. */
  function Max(a: real, b: real): real
  {
    if a >= b then a else b
  }

  function Min(a: real, b: real): real
  {
    if a <= b then a else b
  }

  function Length(iv: Interval): real
  {
    iv.end - iv.start
  }

  predicate Contains(iv: Interval, x: real)
  {
    iv.start <= x <= iv.end
  }

  /** The time point `x` lies in some interval of `s`. */
  ghost predicate Covered(s: seq<Interval>, x: real)
  {
    exists k :: 0 <= k < |s| && Contains(s[k], x)
  }

  /** `a` and `b` cover the same time points. */
  ghost predicate SameCover(a: seq<Interval>, b: seq<Interval>)
  {
    forall x :: Covered(a, x) <==> Covered(b, x)
  }

  predicate WellFormed(s: seq<Interval>)
  {
    forall k :: 0 <= k < |s| ==> s[k].start <= s[k].end
  }

  predicate StartsSorted(s: seq<Interval>)
  {
    forall j, k :: 0 <= j < k < |s| ==> s[j].start <= s[k].start
  }

  /** Every interval starts strictly after every earlier interval ends. */
  predicate Separated(s: seq<Interval>)
  {
    forall j, k :: 0 <= j < k < |s| ==> s[j].end < s[k].start
  }

  /** The normal form of a point set: well-formed, sorted and with a gap
      between any two neighbours. */
  predicate Canonical(s: seq<Interval>)
  {
    WellFormed(s) && Separated(s)
  }

  predicate Within(s: seq<Interval>, lo: real, hi: real)
  {
    forall k :: 0 <= k < |s| ==> lo <= s[k].start && s[k].end <= hi
  }

  /** The `reduce` at lines 73-75: the sum of `end - start`. Over exact reals
      the order of the additions does not matter. */
  function SumLengths(s: seq<Interval>): real
  {
    if |s| == 0 then 0.0 else Length(s[0]) + SumLengths(s[1..])
  }

  // ---------------------------------------------------------------------
  // Sorting by start (`[...list].sort((a, b) => a.start - b.start)`).
  // The copy holds the same interval objects as the stored list, so the
  // sort is modelled as a sequence of indices into the stored list.
  // ---------------------------------------------------------------------

  predicate IndicesBelow(order: seq<nat>, n: nat)
  {
    forall k :: 0 <= k < |order| ==> order[k] < n
  }

  predicate Distinct(order: seq<nat>)
  {
    forall j, k :: 0 <= j < k < |order| ==> order[j] != order[k]
  }

  predicate SortedBy(ws: seq<Interval>, order: seq<nat>)
    requires IndicesBelow(order, |ws|)
  {
    forall j, k :: 0 <= j < k < |order| ==> ws[order[j]].start <= ws[order[k]].start
  }

  /** The intervals at the indices of `order`, in that order. */
  function Pick(ws: seq<Interval>, order: seq<nat>): (r: seq<Interval>)
    requires IndicesBelow(order, |ws|)
    ensures |r| == |order|
    ensures forall k :: 0 <= k < |order| ==> r[k] == ws[order[k]]
  {
    seq(|order|, k requires 0 <= k < |order| => ws[order[k]])
  }

  lemma PickCons(ws: seq<Interval>, i: nat, order: seq<nat>)
    requires i < |ws| && IndicesBelow(order, |ws|)
    ensures IndicesBelow([i] + order, |ws|)
    ensures Pick(ws, [i] + order) == [ws[i]] + Pick(ws, order)
  {
  }

  /** Inserts index `k` in front of the first index whose start is strictly
      greater, so after every index with an equal start: the order a stable
      sort gives. */
  function InsertByStart(ws: seq<Interval>, order: seq<nat>, k: nat): (r: seq<nat>)
    requires k < |ws| && IndicesBelow(order, |ws|)
    ensures |r| == |order| + 1 && IndicesBelow(r, |ws|)
    ensures forall j :: 0 <= j < |r| ==> r[j] == k || r[j] in order
  {
    if |order| == 0 || ws[k].start < ws[order[0]].start then [k] + order
    else [order[0]] + InsertByStart(ws, order[1..], k)
  }

  lemma {:induction false} InsertByStartElements(ws: seq<Interval>, order: seq<nat>, k: nat)
    requires k < |ws| && IndicesBelow(order, |ws|)
    ensures multiset(Pick(ws, InsertByStart(ws, order, k))) == multiset(Pick(ws, order)) + multiset{ws[k]}
    decreases |order|
  {
    if |order| == 0 || ws[k].start < ws[order[0]].start {
      PickCons(ws, k, order);
    } else {
      var tail := InsertByStart(ws, order[1..], k);
      InsertByStartElements(ws, order[1..], k);
      PickCons(ws, order[0], tail);
      PickHead(ws, order);
    }
  }

  lemma PickHead(ws: seq<Interval>, order: seq<nat>)
    requires IndicesBelow(order, |ws|) && |order| > 0
    ensures Pick(ws, order) == [ws[order[0]]] + Pick(ws, order[1..])
  {
  }

  lemma {:induction false} InsertByStartSorted(ws: seq<Interval>, order: seq<nat>, k: nat)
    requires k < |ws| && IndicesBelow(order, |ws|) && SortedBy(ws, order)
    ensures SortedBy(ws, InsertByStart(ws, order, k))
    decreases |order|
  {
    if |order| > 0 && ws[order[0]].start <= ws[k].start {
      InsertByStartSorted(ws, order[1..], k);
      InsertAfterHead(ws, order, k);
      SortedCons(ws, order[0], InsertByStart(ws, order[1..], k));
    }
  }

  /** Inserting behind the head of a sorted order leaves the head first. */
  lemma InsertAfterHead(ws: seq<Interval>, order: seq<nat>, k: nat)
    requires k < |ws| && IndicesBelow(order, |ws|) && SortedBy(ws, order)
    requires |order| > 0 && ws[order[0]].start <= ws[k].start
    ensures var tail := InsertByStart(ws, order[1..], k);
      forall j :: 0 <= j < |tail| ==> ws[order[0]].start <= ws[tail[j]].start
  {
    var tail := InsertByStart(ws, order[1..], k);
    forall j | 0 <= j < |tail| ensures ws[order[0]].start <= ws[tail[j]].start {
      if tail[j] != k {
        var i :| 0 <= i < |order[1..]| && order[1..][i] == tail[j];
        assert order[i + 1] == tail[j];
      }
    }
  }

  /** A sorted order stays sorted behind an index that starts no later than
      any of it. */
  lemma SortedCons(ws: seq<Interval>, h: nat, tail: seq<nat>)
    requires h < |ws| && IndicesBelow(tail, |ws|) && SortedBy(ws, tail)
    requires forall j :: 0 <= j < |tail| ==> ws[h].start <= ws[tail[j]].start
    ensures IndicesBelow([h] + tail, |ws|) && SortedBy(ws, [h] + tail)
  {
    var r := [h] + tail;
    assert forall j :: 0 <= j < |tail| ==> r[j + 1] == tail[j];
    forall a, b | 0 <= a < b < |r| ensures ws[r[a]].start <= ws[r[b]].start {
      assert r[b] == tail[b - 1];
      if a > 0 { assert r[a] == tail[a - 1]; }
    }
  }

  lemma {:induction false} InsertByStartDistinct(ws: seq<Interval>, order: seq<nat>, k: nat)
    requires k < |ws| && IndicesBelow(order, |ws|) && Distinct(order) && k !in order
    ensures Distinct(InsertByStart(ws, order, k))
    decreases |order|
  {
    if |order| > 0 && ws[order[0]].start <= ws[k].start {
      var tail := InsertByStart(ws, order[1..], k);
      assert k !in order[1..];
      InsertByStartDistinct(ws, order[1..], k);
      var r := [order[0]] + tail;
      assert forall j :: 0 <= j < |tail| ==> r[j + 1] == tail[j];
      forall j | 0 <= j < |tail| ensures order[0] != tail[j] {
        if tail[j] != k {
          var i :| 0 <= i < |order[1..]| && order[1..][i] == tail[j];
          assert order[i + 1] == tail[j];
        }
      }
    }
  }

  /** The stable sort, by start, of the first `n` stored intervals. */
  function SortOrder(ws: seq<Interval>, n: nat): (order: seq<nat>)
    requires n <= |ws|
    ensures |order| == n && IndicesBelow(order, |ws|)
  {
    if n == 0 then [] else InsertByStart(ws, SortOrder(ws, n - 1), n - 1)
  }

  /** The sort order of the first `n` intervals holds only indices below
      `n`. */
  lemma {:induction false} SortOrderBelow(ws: seq<Interval>, n: nat)
    requires n <= |ws|
    ensures IndicesBelow(SortOrder(ws, n), n)
  {
    if n > 0 {
      SortOrderBelow(ws, n - 1);
      InsertNextBelow(ws, SortOrder(ws, n - 1), n);
    }
  }

  lemma InsertNextBelow(ws: seq<Interval>, prev: seq<nat>, n: nat)
    requires 0 < n <= |ws| && IndicesBelow(prev, n - 1) && IndicesBelow(prev, |ws|)
    ensures IndicesBelow(InsertByStart(ws, prev, n - 1), n)
  {
  }

  /** The sort order lists each index once. */
  lemma {:induction false} SortOrderDistinct(ws: seq<Interval>, n: nat)
    requires n <= |ws|
    ensures Distinct(SortOrder(ws, n))
  {
    if n > 0 {
      SortOrderDistinct(ws, n - 1);
      SortOrderBelow(ws, n - 1);
      InsertNextDistinct(ws, SortOrder(ws, n - 1), n);
    }
  }

  lemma InsertNextDistinct(ws: seq<Interval>, prev: seq<nat>, n: nat)
    requires 0 < n <= |ws| && IndicesBelow(prev, n - 1) && Distinct(prev)
    ensures Distinct(InsertByStart(ws, prev, n - 1))
  {
    assert n - 1 !in prev;
    InsertByStartDistinct(ws, prev, n - 1);
  }

  /** The sort order lists the indices in order of start. */
  lemma {:induction false} SortOrderSorted(ws: seq<Interval>, n: nat)
    requires n <= |ws|
    ensures SortedBy(ws, SortOrder(ws, n))
  {
    if n > 0 {
      SortOrderSorted(ws, n - 1);
      SortOrderSortedStep(ws, n);
    }
  }

  lemma SortOrderSortedStep(ws: seq<Interval>, n: nat)
    requires 0 < n <= |ws| && SortedBy(ws, SortOrder(ws, n - 1))
    ensures SortedBy(ws, SortOrder(ws, n))
  {
    InsertByStartSorted(ws, SortOrder(ws, n - 1), n - 1);
  }

  /** Indices with equal starts keep their stored order: the promise of a
      stable sort, which decides which stored interval leads a run of equal
      starts in the sweep. */
  predicate StableBy(ws: seq<Interval>, order: seq<nat>)
    requires IndicesBelow(order, |ws|)
  {
    forall j, k :: 0 <= j < k < |order| && ws[order[j]].start == ws[order[k]].start ==> order[j] < order[k]
  }

  /** The sort order keeps stored intervals with equal starts in their
      stored order. */
  lemma {:induction false} SortOrderStable(ws: seq<Interval>, n: nat)
    requires n <= |ws|
    ensures StableBy(ws, SortOrder(ws, n))
  {
    if n > 0 {
      SortOrderStable(ws, n - 1);
      SortOrderStableStep(ws, n);
    }
  }

  lemma SortOrderStableStep(ws: seq<Interval>, n: nat)
    requires 0 < n <= |ws| && StableBy(ws, SortOrder(ws, n - 1))
    ensures StableBy(ws, SortOrder(ws, n))
  {
    SortOrderSorted(ws, n - 1);
    SortOrderBelow(ws, n - 1);
    InsertByStartStable(ws, SortOrder(ws, n - 1), n - 1);
  }

  /** Inserting an index larger than every index of a sorted, stable order
      keeps the order stable. */
  lemma {:induction false} InsertByStartStable(ws: seq<Interval>, order: seq<nat>, k: nat)
    requires k < |ws| && IndicesBelow(order, |ws|) && IndicesBelow(order, k)
    requires SortedBy(ws, order) && StableBy(ws, order)
    ensures StableBy(ws, InsertByStart(ws, order, k))
    decreases |order|
  {
    if |order| > 0 && ws[order[0]].start <= ws[k].start {
      InsertByStartStable(ws, order[1..], k);
      StableBehindHead(ws, order, k);
    } else {
      StableInFront(ws, order, k);
    }
  }

  /** An index inserted behind the head of the order comes after it. */
  lemma StableBehindHead(ws: seq<Interval>, order: seq<nat>, k: nat)
    requires k < |ws| && IndicesBelow(order, |ws|) && IndicesBelow(order, k) && StableBy(ws, order)
    requires |order| > 0 && StableBy(ws, InsertByStart(ws, order[1..], k))
    ensures StableBy(ws, [order[0]] + InsertByStart(ws, order[1..], k))
  {
    var tail := InsertByStart(ws, order[1..], k);
    var r := [order[0]] + tail;
    HeadPrecedesTies(ws, order, k);
    forall a, b | 0 <= a < b < |r| && ws[r[a]].start == ws[r[b]].start ensures r[a] < r[b] {
      assert r[b] == tail[b - 1];
      if a > 0 {
        assert r[a] == tail[a - 1];
      }
    }
  }

  /** The head of a stable order precedes every tie behind it once a larger
      index is inserted there. */
  lemma HeadPrecedesTies(ws: seq<Interval>, order: seq<nat>, k: nat)
    requires k < |ws| && IndicesBelow(order, |ws|) && IndicesBelow(order, k) && StableBy(ws, order)
    requires |order| > 0
    ensures var tail := InsertByStart(ws, order[1..], k);
      forall j :: 0 <= j < |tail| && ws[order[0]].start == ws[tail[j]].start ==> order[0] < tail[j]
  {
    var tail := InsertByStart(ws, order[1..], k);
    forall j | 0 <= j < |tail| && ws[order[0]].start == ws[tail[j]].start ensures order[0] < tail[j] {
      if tail[j] != k {
        var i :| 0 <= i < |order[1..]| && order[1..][i] == tail[j];
        assert order[i + 1] == tail[j];
      }
    }
  }

  /** An index whose start is below every start of a sorted order can go in
      front of it: it ties with none of them. */
  lemma StableInFront(ws: seq<Interval>, order: seq<nat>, k: nat)
    requires k < |ws| && IndicesBelow(order, |ws|) && SortedBy(ws, order) && StableBy(ws, order)
    requires |order| == 0 || ws[k].start < ws[order[0]].start
    ensures IndicesBelow([k] + order, |ws|) && StableBy(ws, [k] + order)
  {
    var r := [k] + order;
    forall a, b | 0 <= a < b < |r| ensures ws[r[a]].start == ws[r[b]].start ==> r[a] < r[b] {
      assert r[b] == order[b - 1];
      if a > 0 {
        assert r[a] == order[a - 1];
      } else {
        assert ws[order[0]].start <= ws[order[b - 1]].start;
      }
    }
  }

  /** The sort order picks every stored interval once. */
  lemma {:induction false} SortOrderElements(ws: seq<Interval>, n: nat)
    requires n <= |ws|
    ensures multiset(Pick(ws, SortOrder(ws, n))) == multiset(ws[..n])
  {
    if n > 0 {
      SortOrderElements(ws, n - 1);
      InsertNextElements(ws, SortOrder(ws, n - 1), n);
    }
  }

  lemma InsertNextElements(ws: seq<Interval>, prev: seq<nat>, n: nat)
    requires 0 < n <= |ws| && IndicesBelow(prev, |ws|)
    requires multiset(Pick(ws, prev)) == multiset(ws[..n - 1])
    ensures multiset(Pick(ws, InsertByStart(ws, prev, n - 1))) == multiset(ws[..n])
  {
    InsertByStartElements(ws, prev, n - 1);
    PrefixElements(ws, n);
  }

  lemma PrefixElements(ws: seq<Interval>, n: nat)
    requires 0 < n <= |ws|
    ensures multiset(ws[..n]) == multiset(ws[..n - 1]) + multiset{ws[n - 1]}
  {
    assert ws[..n] == ws[..n - 1] + [ws[n - 1]];
  }

  /** The sorted copy of the stored intervals, as values. */
  function SortByStart(ws: seq<Interval>): (r: seq<Interval>)
    ensures |r| == |ws| && StartsSorted(r)
    ensures multiset(r) == multiset(ws)
  {
    assert ws[..|ws|] == ws;
    SortOrderElements(ws, |ws|);
    SortOrderSorted(ws, |ws|);
    Pick(ws, SortOrder(ws, |ws|))
  }

  // ---------------------------------------------------------------------
  // The merge sweep (lines 56-70), on values.
  // ---------------------------------------------------------------------

  /** Sweeps `rest` with current interval `c`: an interval whose start is at
      most the current end (touching included) extends the current end to
      the larger of the two ends; otherwise the current interval is closed
      and the next one becomes current. */
  function MergeFrom(c: Interval, rest: seq<Interval>): (r: seq<Interval>)
    ensures |r| >= 1 && r[0].start == c.start
    decreases |rest|
  {
    if |rest| == 0 then [c]
    else if rest[0].start <= c.end then MergeFrom(Interval(c.start, Max(c.end, rest[0].end)), rest[1..])
    else [c] + MergeFrom(rest[0], rest[1..])
  }

  function Merge(sorted: seq<Interval>): seq<Interval>
  {
    if |sorted| == 0 then [] else MergeFrom(sorted[0], sorted[1..])
  }

  /** What `calculateTotalWatchedTime` returns, computed on a copy of the
      stored intervals (lines 49-76). */
  function TotalWatchedTime(ws: seq<Interval>): real
  {
    if |ws| == 0 then 0.0 else SumLengths(Merge(SortByStart(ws)))
  }

  // ---------------------------------------------------------------------
  // Covering
  // ---------------------------------------------------------------------

  lemma CoveredCons(c: Interval, s: seq<Interval>, x: real)
    ensures Covered([c] + s, x) <==> Contains(c, x) || Covered(s, x)
  {
    var t := [c] + s;
    if Covered(t, x) {
      var k :| 0 <= k < |t| && Contains(t[k], x);
      if k > 0 {
        assert t[k] == s[k - 1];
      }
    }
    if Covered(s, x) {
      var k :| 0 <= k < |s| && Contains(s[k], x);
      assert t[k + 1] == s[k];
    }
    if Contains(c, x) {
      assert t[0] == c;
    }
  }

  lemma CoveredConcat(a: seq<Interval>, b: seq<Interval>, x: real)
    ensures Covered(a + b, x) <==> Covered(a, x) || Covered(b, x)
  {
    var t := a + b;
    if Covered(t, x) {
      var k :| 0 <= k < |t| && Contains(t[k], x);
      if k >= |a| {
        assert t[k] == b[k - |a|];
      } else {
        assert t[k] == a[k];
      }
    }
    if Covered(a, x) {
      var k :| 0 <= k < |a| && Contains(a[k], x);
      assert t[k] == a[k];
    }
    if Covered(b, x) {
      var k :| 0 <= k < |b| && Contains(b[k], x);
      assert t[|a| + k] == b[k];
    }
  }

  /** Two lists with the same elements cover the same points, and one is
      well-formed (lies within bounds) exactly when the other is. */
  lemma SameElements(a: seq<Interval>, b: seq<Interval>, lo: real, hi: real)
    requires multiset(a) == multiset(b)
    ensures SameCover(a, b)
    ensures WellFormed(a) <==> WellFormed(b)
    ensures Within(a, lo, hi) <==> Within(b, lo, hi)
  {
    forall x ensures Covered(a, x) ==> Covered(b, x) {
      if Covered(a, x) {
        var k :| 0 <= k < |a| && Contains(a[k], x);
        assert a[k] in multiset(b);
        var j :| 0 <= j < |b| && b[j] == a[k];
      }
    }
    forall x ensures Covered(b, x) ==> Covered(a, x) {
      if Covered(b, x) {
        var k :| 0 <= k < |b| && Contains(b[k], x);
        assert b[k] in multiset(a);
        var j :| 0 <= j < |a| && a[j] == b[k];
      }
    }
    forall k | 0 <= k < |a| ensures a[k] in b {
      assert a[k] in multiset(b);
    }
    forall k | 0 <= k < |b| ensures b[k] in a {
      assert b[k] in multiset(a);
    }
  }

  // ---------------------------------------------------------------------
  // What the sweep produces
  // ---------------------------------------------------------------------

  predicate StartsAtLeast(s: seq<Interval>, t: real)
  {
    forall k :: 0 <= k < |s| ==> t <= s[k].start
  }

  lemma {:induction false} MergeFromStarts(c: Interval, rest: seq<Interval>)
    requires StartsSorted(rest) && StartsAtLeast(rest, c.start)
    ensures StartsAtLeast(MergeFrom(c, rest), c.start)
    ensures StartsSorted(MergeFrom(c, rest))
    decreases |rest|
  {
    if |rest| == 0 {
    } else if rest[0].start <= c.end {
      MergeFromStarts(Interval(c.start, Max(c.end, rest[0].end)), rest[1..]);
    } else {
      MergeFromStarts(rest[0], rest[1..]);
      var m := MergeFrom(rest[0], rest[1..]);
      assert forall k :: 0 <= k < |m| ==> ([c] + m)[k + 1] == m[k];
    }
  }

  lemma {:induction false} MergeFromSeparated(c: Interval, rest: seq<Interval>)
    requires StartsSorted(rest) && StartsAtLeast(rest, c.start)
    ensures Separated(MergeFrom(c, rest))
    decreases |rest|
  {
    if |rest| == 0 {
    } else if rest[0].start <= c.end {
      MergeFromSeparated(Interval(c.start, Max(c.end, rest[0].end)), rest[1..]);
    } else {
      MergeFromSeparated(rest[0], rest[1..]);
      MergeFromStarts(rest[0], rest[1..]);
      var m := MergeFrom(rest[0], rest[1..]);
      assert forall k :: 0 <= k < |m| ==> ([c] + m)[k + 1] == m[k];
    }
  }

  lemma {:induction false} MergeFromWellFormed(c: Interval, rest: seq<Interval>, lo: real, hi: real)
    requires c.start <= c.end && WellFormed(rest)
    ensures WellFormed(MergeFrom(c, rest))
    ensures lo <= c.start && c.end <= hi && Within(rest, lo, hi) ==> Within(MergeFrom(c, rest), lo, hi)
    decreases |rest|
  {
    if |rest| == 0 {
    } else if rest[0].start <= c.end {
      MergeFromWellFormed(Interval(c.start, Max(c.end, rest[0].end)), rest[1..], lo, hi);
    } else {
      MergeFromWellFormed(rest[0], rest[1..], lo, hi);
      var m := MergeFrom(rest[0], rest[1..]);
      assert forall k :: 0 <= k < |m| ==> ([c] + m)[k + 1] == m[k];
    }
  }

  lemma {:induction false} MergeFromCover(c: Interval, rest: seq<Interval>)
    requires StartsSorted(rest) && StartsAtLeast(rest, c.start)
    ensures SameCover(MergeFrom(c, rest), [c] + rest)
    decreases |rest|
  {
    if |rest| == 0 {
      assert [c] + rest == [c];
    } else if rest[0].start <= c.end {
      var c' := Interval(c.start, Max(c.end, rest[0].end));
      MergeFromCover(c', rest[1..]);
      forall x ensures Covered([c'] + rest[1..], x) <==> Covered([c] + rest, x) {
        assert [rest[0]] + rest[1..] == rest;
        CoveredCons(c', rest[1..], x);
        CoveredCons(c, rest, x);
        CoveredCons(rest[0], rest[1..], x);
      }
    } else {
      var m := MergeFrom(rest[0], rest[1..]);
      MergeFromCover(rest[0], rest[1..]);
      assert [rest[0]] + rest[1..] == rest;
      forall x ensures Covered([c] + m, x) <==> Covered([c] + rest, x) {
        CoveredCons(c, m, x);
        CoveredCons(c, rest, x);
      }
    }
  }

  lemma {:induction false} MergeFromSum(c: Interval, rest: seq<Interval>)
    requires WellFormed(rest)
    ensures SumLengths(MergeFrom(c, rest)) <= Length(c) + SumLengths(rest)
    decreases |rest|
  {
    if |rest| == 0 {
    } else if rest[0].start <= c.end {
      var c' := Interval(c.start, Max(c.end, rest[0].end));
      MergeFromSum(c', rest[1..]);
      assert Length(c') <= Length(c) + Length(rest[0]);
    } else {
      MergeFromSum(rest[0], rest[1..]);
    }
  }

  /** The merged list of a sorted list is sorted, separated, covers the
      same points and, for well-formed input, is well-formed. */
  lemma MergeShape(sorted: seq<Interval>, lo: real, hi: real)
    requires StartsSorted(sorted)
    ensures StartsSorted(Merge(sorted)) && Separated(Merge(sorted))
    ensures SameCover(Merge(sorted), sorted)
    ensures WellFormed(sorted) ==> Canonical(Merge(sorted))
    ensures WellFormed(sorted) && Within(sorted, lo, hi) ==> Within(Merge(sorted), lo, hi)
    ensures WellFormed(sorted) ==> SumLengths(Merge(sorted)) <= SumLengths(sorted)
  {
    if |sorted| > 0 {
      assert sorted == [sorted[0]] + sorted[1..];
      assert StartsSorted(sorted[1..]) && StartsAtLeast(sorted[1..], sorted[0].start);
      MergeFromStarts(sorted[0], sorted[1..]);
      MergeFromSeparated(sorted[0], sorted[1..]);
      MergeFromCover(sorted[0], sorted[1..]);
      if WellFormed(sorted) {
        MergeFromWellFormed(sorted[0], sorted[1..], lo, hi);
        assert Within(sorted, lo, hi) ==> Within(sorted[1..], lo, hi);
        MergeFromSum(sorted[0], sorted[1..]);
      }
    }
  }

  // ---------------------------------------------------------------------
  // Canonical lists are determined by the points they cover
  // ---------------------------------------------------------------------

  lemma CoveredFromFirstStart(s: seq<Interval>, x: real)
    requires Canonical(s) && Covered(s, x)
    ensures |s| > 0 && s[0].start <= x
  {
    var k :| 0 <= k < |s| && Contains(s[k], x);
  }

  /** If every point from the first start up to `y` is covered by a
      canonical list, then `y` does not pass the end of its first interval:
      just after that end there is a point no interval covers. */
  lemma FirstRunEnd(s: seq<Interval>, y: real)
    requires Canonical(s) && |s| > 0
    requires forall x :: s[0].start <= x <= y ==> Covered(s, x)
    ensures y <= s[0].end
  {
    var hi := if |s| > 1 then Min(y, s[1].start) else y;
    var z := (s[0].end + hi) / 2.0;
    forall k | 0 <= k < |s| ensures s[0].end < y ==> !Contains(s[k], z) {
      if k > 1 {
        assert s[1].start <= s[1].end < s[k].start;
      }
    }
    assert s[0].end < y ==> s[0].start <= z <= y && !Covered(s, z);
  }

  lemma TailCover(s: seq<Interval>)
    requires Canonical(s) && |s| > 0
    ensures forall x :: Covered(s[1..], x) <==> Covered(s, x) && s[0].end < x
  {
    forall x ensures Covered(s[1..], x) <==> Covered(s, x) && s[0].end < x {
      CoveredCons(s[0], s[1..], x);
      assert [s[0]] + s[1..] == s;
      if Covered(s[1..], x) {
        var k :| 0 <= k < |s[1..]| && Contains(s[1..][k], x);
        assert s[1..][k] == s[k + 1];
      }
    }
  }

  /** A canonical list is the only canonical list covering its points. */
  lemma {:induction false} CanonicalUnique(a: seq<Interval>, b: seq<Interval>)
    requires Canonical(a) && Canonical(b) && SameCover(a, b)
    ensures a == b
    decreases |a|
  {
    if |a| > 0 {
      assert Covered(a, a[0].start) by { assert Contains(a[0], a[0].start); }
      CoveredFromFirstStart(b, a[0].start);
    }
    if |b| > 0 {
      assert Covered(b, b[0].start) by { assert Contains(b[0], b[0].start); }
      CoveredFromFirstStart(a, b[0].start);
    }
    if |a| > 0 {
      assert a[0].start == b[0].start;
      FirstEndBound(a, b);
      FirstEndBound(b, a);
      assert a[0] == b[0];
      TailCover(a);
      TailCover(b);
      CanonicalUnique(a[1..], b[1..]);
      assert a == [a[0]] + a[1..] && b == [b[0]] + b[1..];
    }
  }

  lemma FirstEndBound(a: seq<Interval>, b: seq<Interval>)
    requires Canonical(a) && Canonical(b) && SameCover(a, b)
    requires |a| > 0 && |b| > 0 && a[0].start == b[0].start
    ensures b[0].end <= a[0].end
  {
    forall x | a[0].start <= x <= b[0].end ensures Covered(a, x) {
      assert Contains(b[0], x);
    }
    FirstRunEnd(a, b[0].end);
  }

  // ---------------------------------------------------------------------
  // The total is the measure of the union
  // ---------------------------------------------------------------------

  /** For well-formed intervals the merged list is the canonical form of the
      covered point set. */
  lemma MergedIsCanonical(ws: seq<Interval>)
    requires WellFormed(ws)
    ensures Canonical(Merge(SortByStart(ws))) && SameCover(Merge(SortByStart(ws)), ws)
  {
    var sorted := SortByStart(ws);
    SameElements(sorted, ws, 0.0, 0.0);
    MergeShape(sorted, 0.0, 0.0);
  }

  /** The total equals the summed length of any canonical list covering the
      same points as the stored intervals: the measure of their union. */
  lemma TotalIsMeasure(ws: seq<Interval>, c: seq<Interval>)
    requires WellFormed(ws) && Canonical(c) && SameCover(c, ws)
    ensures TotalWatchedTime(ws) == SumLengths(c)
  {
    MergedIsCanonical(ws);
    var m := if |ws| == 0 then [] else Merge(SortByStart(ws));
    assert SameCover(m, ws);
    CanonicalUnique(m, c);
  }

  /** Two well-formed lists covering the same points have the same total. */
  lemma TotalDependsOnlyOnCover(a: seq<Interval>, b: seq<Interval>)
    requires WellFormed(a) && WellFormed(b) && SameCover(a, b)
    ensures TotalWatchedTime(a) == TotalWatchedTime(b)
  {
    MergedIsCanonical(b);
    var m := if |b| == 0 then [] else Merge(SortByStart(b));
    TotalIsMeasure(b, m);
    TotalIsMeasure(a, m);
  }

  /** The total does not depend on the order of the stored intervals. */
  lemma TotalPermutationInvariant(a: seq<Interval>, b: seq<Interval>)
    requires WellFormed(a) && multiset(a) == multiset(b)
    ensures TotalWatchedTime(a) == TotalWatchedTime(b)
  {
    SameElements(a, b, 0.0, 0.0);
    TotalDependsOnlyOnCover(a, b);
  }

  /** Appending a well-formed interval whose points the stored intervals
      already cover does not change the total. */
  lemma TotalCoveredAppend(ws: seq<Interval>, iv: Interval)
    requires WellFormed(ws) && iv.start <= iv.end
    requires forall x :: Contains(iv, x) ==> Covered(ws, x)
    ensures TotalWatchedTime(ws + [iv]) == TotalWatchedTime(ws)
  {
    forall x ensures Covered(ws + [iv], x) <==> Covered(ws, x) {
      CoveredConcat(ws, [iv], x);
      if Covered([iv], x) {
        assert Contains([iv][0], x);
      }
    }
    TotalDependsOnlyOnCover(ws + [iv], ws);
  }

  /** Appending a copy of a stored interval does not change the total. */
  lemma TotalDuplicateAppend(ws: seq<Interval>, k: nat)
    requires WellFormed(ws) && k < |ws|
    ensures TotalWatchedTime(ws + [ws[k]]) == TotalWatchedTime(ws)
  {
    forall x ensures Covered(ws + [ws[k]], x) <==> Covered(ws, x) {
      CoveredConcat(ws, [ws[k]], x);
      if Covered([ws[k]], x) {
        assert Contains(ws[k], x);
      }
    }
    TotalDependsOnlyOnCover(ws + [ws[k]], ws);
  }

  lemma SumLengthsConcat(a: seq<Interval>, b: seq<Interval>)
    ensures SumLengths(a + b) == SumLengths(a) + SumLengths(b)
  {
    if |a| == 0 {
      assert a + b == b;
    } else {
      assert (a + b)[0] == a[0] && (a + b)[1..] == a[1..] + b;
      SumLengthsConcat(a[1..], b);
    }
  }

  lemma {:induction false} SumLengthsPermutation(a: seq<Interval>, b: seq<Interval>)
    requires multiset(a) == multiset(b)
    ensures SumLengths(a) == SumLengths(b)
    decreases |a|
  {
    if |a| == 0 {
      assert |multiset(b)| == 0;
    } else {
      assert a[0] in multiset(b);
      var i :| 0 <= i < |b| && b[i] == a[0];
      RemoveMatching(a, b, i);
      SumLengthsPermutation(a[1..], b[..i] + b[i + 1..]);
      SumLengthsRemove(b, i);
    }
  }

  /** Taking the same element out of two permutations of each other leaves
      permutations of each other. */
  lemma RemoveMatching(a: seq<Interval>, b: seq<Interval>, i: nat)
    requires multiset(a) == multiset(b) && |a| > 0 && i < |b| && b[i] == a[0]
    ensures multiset(a[1..]) == multiset(b[..i] + b[i + 1..])
  {
    assert b == b[..i] + [b[i]] + b[i + 1..];
    assert a == [a[0]] + a[1..];
    assert multiset(b) == multiset(b[..i]) + multiset{b[i]} + multiset(b[i + 1..]);
    assert multiset(a) == multiset{a[0]} + multiset(a[1..]);
    assert multiset(b[..i] + b[i + 1..]) == multiset(b[..i]) + multiset(b[i + 1..]);
    assert multiset(a[1..]) == multiset(a) - multiset{a[0]};
  }

  lemma {:induction false} SumLengthsRemove(b: seq<Interval>, i: nat)
    requires i < |b|
    ensures SumLengths(b) == Length(b[i]) + SumLengths(b[..i] + b[i + 1..])
    decreases i
  {
    if i == 0 {
      assert b[..0] + b[1..] == b[1..];
    } else {
      var tail := b[1..];
      SumLengthsRemove(tail, i - 1);
      var rest := b[..i] + b[i + 1..];
      assert rest[0] == b[0];
      assert rest[1..] == tail[..i - 1] + tail[i..];
    }
  }

  /** The total never exceeds the summed lengths of the stored intervals. */
  lemma TotalAtMostSumOfLengths(ws: seq<Interval>)
    requires WellFormed(ws)
    ensures 0.0 <= TotalWatchedTime(ws) <= SumLengths(ws)
  {
    if |ws| > 0 {
      var sorted := SortByStart(ws);
      SameElements(sorted, ws, 0.0, 0.0);
      MergeShape(sorted, 0.0, 0.0);
      SumLengthsPermutation(sorted, ws);
      SumLengthsNonNegative(Merge(sorted));
    }
  }

  lemma SumLengthsNonNegative(s: seq<Interval>)
    requires WellFormed(s)
    ensures SumLengths(s) >= 0.0
  {
    if |s| > 0 {
      SumLengthsNonNegative(s[1..]);
    }
  }

  /** A canonical list that ends by `hi` has summed length at most
      `hi` minus its first start. */
  lemma {:induction false} CanonicalSumBound(s: seq<Interval>, hi: real)
    requires Canonical(s) && |s| > 0 && forall k :: 0 <= k < |s| ==> s[k].end <= hi
    ensures SumLengths(s) <= hi - s[0].start
    decreases |s|
  {
    if |s| > 1 {
      CanonicalSumBound(s[1..], hi);
    }
  }

  /** If every stored interval lies within `[lo, hi]`, the total lies within
      `[0, hi - lo]`: in particular it is at most the largest end minus the
      smallest start. */
  lemma TotalWithinSpan(ws: seq<Interval>, lo: real, hi: real)
    requires WellFormed(ws) && Within(ws, lo, hi) && lo <= hi
    ensures 0.0 <= TotalWatchedTime(ws) <= hi - lo
  {
    if |ws| > 0 {
      var sorted := SortByStart(ws);
      SameElements(sorted, ws, lo, hi);
      MergeShape(sorted, lo, hi);
      var m := Merge(sorted);
      CanonicalSumBound(m, hi);
      SumLengthsNonNegative(m);
    }
  }

  // ---------------------------------------------------------------------
  // Examples
  // ---------------------------------------------------------------------

  /** No intervals, no watched time. */
  lemma TotalOfNothing()
    ensures TotalWatchedTime([]) == 0.0
  {
  }

  /** Touching intervals are counted once: [0, 10] and [10, 20] give 20. */
  lemma TotalOfTouching()
    ensures TotalWatchedTime([Interval(0.0, 10.0), Interval(10.0, 20.0)]) == 20.0
  {
    var ws := [Interval(0.0, 10.0), Interval(10.0, 20.0)];
    var c := [Interval(0.0, 20.0)];
    forall x ensures Covered(c, x) <==> Covered(ws, x) {
      assert Contains(c[0], x) ==> Contains(ws[0], x) || Contains(ws[1], x);
      assert Contains(ws[0], x) || Contains(ws[1], x) ==> Contains(c[0], x);
    }
    TotalIsMeasure(ws, c);
  }

  /** Overlap is counted once: [0, 10] and [5, 15] give 15. */
  lemma TotalOfOverlapping()
    ensures TotalWatchedTime([Interval(5.0, 15.0), Interval(0.0, 10.0)]) == 15.0
  {
    var ws := [Interval(5.0, 15.0), Interval(0.0, 10.0)];
    var c := [Interval(0.0, 15.0)];
    forall x ensures Covered(c, x) <==> Covered(ws, x) {
      assert Contains(c[0], x) ==> Contains(ws[0], x) || Contains(ws[1], x);
      assert Contains(ws[0], x) || Contains(ws[1], x) ==> Contains(c[0], x);
    }
    TotalIsMeasure(ws, c);
  }

  /** Separate intervals add up: [0, 5] and [7, 10] give 8. */
  lemma TotalOfSeparate()
    ensures TotalWatchedTime([Interval(0.0, 5.0), Interval(7.0, 10.0)]) == 8.0
  {
    var ws := [Interval(0.0, 5.0), Interval(7.0, 10.0)];
    TotalIsMeasure(ws, ws);
  }

  /** Nothing rejects an interval whose end is before its start, and such an
      interval lowers the total: [0, 10] and [12, 11] give 9. */
  lemma TotalOfInverted()
    ensures TotalWatchedTime([Interval(0.0, 10.0), Interval(12.0, 11.0)]) == 9.0
  {
    TwoApartTotal([Interval(0.0, 10.0), Interval(12.0, 11.0)]);
  }

  /** An inverted interval counts once per copy: [12, 11] alone gives -1,
      and twice gives -2 (TotalOfInvertedTwice). So a duplicate can change
      the total when the intervals are not well-formed. */
  lemma TotalOfInvertedAlone()
    ensures TotalWatchedTime([Interval(12.0, 11.0)]) == -1.0
  {
    SingleTotal([Interval(12.0, 11.0)]);
  }

  lemma TotalOfInvertedTwice()
    ensures TotalWatchedTime([Interval(12.0, 11.0), Interval(12.0, 11.0)]) == -2.0
  {
    TwoApartTotal([Interval(12.0, 11.0), Interval(12.0, 11.0)]);
  }

  /** With an inverted interval the total depends on the order of the
      stored intervals: [5, 10] then [5, 3] give 5, since the equal starts
      keep their order and the second merges into the first; [5, 3] then
      [5, 10] give 3, since 5 is after the end 3 and both are summed. */
  lemma TotalDependsOnOrderWhenInverted()
    ensures TotalWatchedTime([Interval(5.0, 10.0), Interval(5.0, 3.0)]) == 5.0
    ensures TotalWatchedTime([Interval(5.0, 3.0), Interval(5.0, 10.0)]) == 3.0
  {
    var a := [Interval(5.0, 10.0), Interval(5.0, 3.0)];
    SortsInPlace(a);
    MergeJoinsTwo(a);
    TwoApartTotal([Interval(5.0, 3.0), Interval(5.0, 10.0)]);
  }

  /** An inverted interval that starts within the current interval merges
      into it and changes nothing: [0, 30] and [30, 12] give 30. */
  lemma TotalOfAbsorbedInverted()
    ensures TotalWatchedTime([Interval(0.0, 30.0), Interval(30.0, 12.0)]) == 30.0
  {
    var ws := [Interval(0.0, 30.0), Interval(30.0, 12.0)];
    SortsInPlace(ws);
    MergeJoinsTwo(ws);
  }

  /** Two intervals in start order, the second starting after the first
      ends, are summed as they are. */
  lemma TwoApartTotal(ws: seq<Interval>)
    requires |ws| == 2 && ws[0].start <= ws[1].start && ws[0].end < ws[1].start
    ensures TotalWatchedTime(ws) == Length(ws[0]) + Length(ws[1])
  {
    SortsInPlace(ws);
    MergeKeepsApart(ws);
    SumOfTwo(ws);
  }

  lemma SumOfTwo(ws: seq<Interval>)
    requires |ws| == 2
    ensures SumLengths(ws) == Length(ws[0]) + Length(ws[1])
  {
    var tail := ws[1..];
    assert tail[0] == ws[1] && tail[1..] == [];
    assert SumLengths(tail) == Length(ws[1]) + SumLengths(tail[1..]);
  }

  /** One interval is its own total, whatever its direction. */
  lemma SingleTotal(ws: seq<Interval>)
    requires |ws| == 1
    ensures TotalWatchedTime(ws) == Length(ws[0])
  {
    assert SortOrder(ws, 1) == [0];
    assert Pick(ws, [0]) == ws;
    assert ws[1..] == [];
    assert Merge(ws) == ws;
    assert SumLengths(ws) == Length(ws[0]) + SumLengths(ws[1..]);
  }

  /** Two intervals already in start order stay in place: the stable sort
      keeps equal starts in order. */
  lemma SortsInPlace(ws: seq<Interval>)
    requires |ws| == 2 && ws[0].start <= ws[1].start
    ensures SortByStart(ws) == ws
  {
    assert SortOrder(ws, 1) == [0];
    assert InsertByStart(ws, [], 1) == [1];
    assert InsertByStart(ws, [0], 1) == [0, 1];
    assert SortOrder(ws, 2) == [0, 1];
    assert Pick(ws, [0, 1]) == ws;
  }

  lemma MergeKeepsApart(ws: seq<Interval>)
    requires |ws| == 2 && ws[0].end < ws[1].start
    ensures Merge(ws) == ws
  {
    assert MergeFrom(ws[1], []) == [ws[1]];
    assert ws[1..] == [ws[1]];
    assert [ws[1]][1..] == [];
    assert MergeFrom(ws[0], [ws[1]]) == [ws[0]] + MergeFrom(ws[1], []);
  }

  lemma MergeJoinsTwo(ws: seq<Interval>)
    requires |ws| == 2 && ws[1].start <= ws[0].end
    ensures Merge(ws) == [Interval(ws[0].start, Max(ws[0].end, ws[1].end))]
  {
    var rest := ws[1..];
    assert rest[0] == ws[1] && rest[1..] == [];
    var c := Interval(ws[0].start, Max(ws[0].end, ws[1].end));
    assert MergeFrom(c, []) == [c];
    assert MergeFrom(ws[0], rest) == MergeFrom(c, rest[1..]);
  }
}
