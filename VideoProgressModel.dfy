/** The progress document of server/models/VideoProgress.js: its fields, the
    merge sweep of `calculateTotalWatchedTime` as it runs on the stored
    interval objects, and `updateProgress`. */
module VideoProgressModel {
  import opened Intervals

  type UserId = string
  type VideoId = string

  /** A JavaScript number as far as this model needs one: finite values are
      exact reals; dividing by zero gives NaN or an infinity. */
  datatype Number = Finite(value: real) | NaN | Infinity(negative: bool)

  /** `a / b` on finite operands. */
  function Divide(a: real, b: real): (r: Number)
    ensures b != 0.0 ==> r == Finite(a / b)
    ensures b == 0.0 ==> !r.Finite?
  {
    if b != 0.0 then Finite(a / b)
    else if a == 0.0 then NaN
    else Infinity(a < 0.0)
  }

  /** `n * 100`. */
  function Times100(n: Number): Number
  {
    match n
    case Finite(v) => Finite(v * 100.0)
    case NaN => NaN
    case Infinity(neg) => Infinity(neg)
  }

  /** `(totalWatchedTime / this.videoLength) * 100` (line 81). */
  function Percent(total: real, videoLength: real): Number
  {
    Times100(Divide(total, videoLength))
  }

  /** A progress document as stored: one per (userId, videoId). The
      `lastUpdated` timestamp is not modelled. */
  datatype ProgressRecord = ProgressRecord(
    userId: UserId,
    videoId: VideoId,
    watchedIntervals: seq<Interval>,
    lastWatchedTime: real,
    progress: Number,
    videoLength: real)

  // ---------------------------------------------------------------------
  // The sweep on the stored objects (lines 53-70). The sorted copy holds the
  // stored interval objects themselves, so `currentInterval.end = ...` at
  // line 64 writes into the stored list. `order` is the sorted copy, as
  // indices into the stored list; `cur` is the position in `order` of the
  // current interval and `i` that of the next one.
  // ---------------------------------------------------------------------

  /** The stored list and the merged list when the sweep is over. */
  function SweepFrom(ws: seq<Interval>, order: seq<nat>, cur: nat, i: nat): (r: (seq<Interval>, seq<Interval>))
    requires cur < i <= |order| && IndicesBelow(order, |ws|)
    ensures |r.0| == |ws|
    decreases |order| - i
  {
    var c := ws[order[cur]];
    if i == |order| then (ws, [c])
    else
      var n := ws[order[i]];
      if n.start <= c.end then
        SweepFrom(ws[order[cur] := c.(end := Max(c.end, n.end))], order, cur, i + 1)
      else
        var r := SweepFrom(ws, order, i, i + 1);
        (r.0, [c] + r.1)
  }

  /** A sweep step that extends the current interval. */
  lemma SweepFromExtend(ws: seq<Interval>, order: seq<nat>, cur: nat, i: nat)
    requires cur < i < |order| && IndicesBelow(order, |ws|)
    requires ws[order[i]].start <= ws[order[cur]].end
    ensures SweepFrom(ws, order, cur, i) ==
      SweepFrom(ws[order[cur] := ws[order[cur]].(end := Max(ws[order[cur]].end, ws[order[i]].end))], order, cur, i + 1)
  {
  }

  /** A sweep step that closes the current interval. */
  lemma SweepFromClose(ws: seq<Interval>, order: seq<nat>, cur: nat, i: nat)
    requires cur < i < |order| && IndicesBelow(order, |ws|)
    requires ws[order[cur]].end < ws[order[i]].start
    ensures SweepFrom(ws, order, cur, i) ==
      (SweepFrom(ws, order, i, i + 1).0, [ws[order[cur]]] + SweepFrom(ws, order, i, i + 1).1)
  {
  }

  /** The stored list after `calculateTotalWatchedTime`, and the merged list
      whose lengths it sums. */
  function Sweep(ws: seq<Interval>): (r: (seq<Interval>, seq<Interval>))
    ensures |r.0| == |ws|
  {
    if |ws| == 0 then (ws, []) else SweepFrom(ws, SortOrder(ws, |ws|), 0, 1)
  }

  /** The merged list the sweep produces is the one the value-level merge of
      the sorted copy produces: the write-back does not disturb the sweep,
      because it only touches the current interval, which the sweep never
      visits again once it is closed. */
  lemma {:induction false} SweepFromMerges(ws: seq<Interval>, order: seq<nat>, cur: nat, i: nat, sorted: seq<Interval>)
    requires cur < i <= |order| == |sorted| && IndicesBelow(order, |ws|) && Distinct(order)
    requires forall k :: i <= k < |order| ==> ws[order[k]] == sorted[k]
    ensures SweepFrom(ws, order, cur, i).1 == MergeFrom(ws[order[cur]], sorted[i..])
    decreases |order| - i
  {
    var c := ws[order[cur]];
    if i < |order| {
      var n := ws[order[i]];
      if n.start <= c.end {
        var ws' := ws[order[cur] := c.(end := Max(c.end, n.end))];
        forall k | i + 1 <= k < |order| ensures ws'[order[k]] == sorted[k] {
          assert order[k] != order[cur];
        }
        SweepFromMerges(ws', order, cur, i + 1, sorted);
        assert sorted[i..][1..] == sorted[i + 1..];
      } else {
        SweepFromMerges(ws, order, i, i + 1, sorted);
        assert sorted[i..][1..] == sorted[i + 1..];
      }
    }
  }

  lemma SweepMerges(ws: seq<Interval>)
    ensures Sweep(ws).1 == Merge(SortByStart(ws))
  {
    if |ws| > 0 {
      var order := SortOrder(ws, |ws|);
      SortOrderSorted(ws, |ws|);
      SortOrderDistinct(ws, |ws|);
      var sorted := SortByStart(ws);
      assert sorted == Pick(ws, order);
      SweepFromMerges(ws, order, 0, 1, sorted);
    }
  }

  /** Every point of `iv` is covered by `ws`. */
  ghost predicate CoveredBy(iv: Interval, ws: seq<Interval>)
  {
    forall x :: Contains(iv, x) ==> Covered(ws, x)
  }

  /** `now` is `was` with some ends moved later, each rewritten interval
      still covered by `was`. */
  ghost predicate EndsExtendedWithin(now: seq<Interval>, was: seq<Interval>)
  {
    |now| == |was| &&
    forall j :: 0 <= j < |now| ==>
      now[j].start == was[j].start && was[j].end <= now[j].end && CoveredBy(now[j], was)
  }

  lemma {:induction false} SweepFromExtends(ws: seq<Interval>, order: seq<nat>, cur: nat, i: nat, was: seq<Interval>)
    requires cur < i <= |order| && IndicesBelow(order, |ws|)
    requires EndsExtendedWithin(ws, was)
    ensures EndsExtendedWithin(SweepFrom(ws, order, cur, i).0, was)
    decreases |order| - i
  {
    var c := ws[order[cur]];
    if i < |order| {
      var n := ws[order[i]];
      if n.start <= c.end {
        var c' := c.(end := Max(c.end, n.end));
        assert CoveredBy(c', was) by {
          forall x | Contains(c', x) ensures Covered(was, x) {
            if x <= c.end {
              assert Contains(c, x);
            } else {
              assert Contains(n, x);
            }
          }
        }
        SweepFromExtends(ws[order[cur] := c'], order, cur, i + 1, was);
      } else {
        SweepFromExtends(ws, order, i, i + 1, was);
      }
    }
  }

  /** The stored list after the sweep keeps its length, order and starts;
      ends only move later; it covers exactly the points it covered before,
      and stays well-formed. */
  lemma SweepStored(ws: seq<Interval>)
    ensures EndsExtendedWithin(Sweep(ws).0, ws)
    ensures SameCover(Sweep(ws).0, ws)
    ensures WellFormed(ws) ==> WellFormed(Sweep(ws).0)
  {
    assert EndsExtendedWithin(ws, ws) by {
      forall j, x | 0 <= j < |ws| && Contains(ws[j], x) ensures Covered(ws, x) {
      }
    }
    if |ws| > 0 {
      SweepFromExtends(ws, SortOrder(ws, |ws|), 0, 1, ws);
    }
    var now := Sweep(ws).0;
    forall x ensures Covered(now, x) <==> Covered(ws, x) {
      if Covered(ws, x) {
        var k :| 0 <= k < |ws| && Contains(ws[k], x);
        assert Contains(now[k], x);
      }
      if Covered(now, x) {
        var k :| 0 <= k < |now| && Contains(now[k], x);
        assert CoveredBy(now[k], ws);
      }
    }
  }

  /** Running the calculation changes the stored intervals but not the total
      a later calculation finds. */
  lemma SweepKeepsTotal(ws: seq<Interval>)
    requires WellFormed(ws)
    ensures TotalWatchedTime(Sweep(ws).0) == TotalWatchedTime(ws)
  {
    SweepStored(ws);
    TotalDependsOnlyOnCover(Sweep(ws).0, ws);
  }

  /** The reduce at lines 73-75 over the merged list of the sweep is the
      total of the stored intervals. */
  lemma SweepTotal(ws: seq<Interval>)
    requires |ws| > 0
    ensures SumLengths(Sweep(ws).1) == TotalWatchedTime(ws)
  {
    SweepMerges(ws);
  }

  /** The record after `updateProgress`: the stored intervals as the sweep
      leaves them, and the progress recomputed from the intervals as they
      were before it. */
  function Updated(p: ProgressRecord): ProgressRecord
  {
    p.(watchedIntervals := Sweep(p.watchedIntervals).0,
       progress := Percent(TotalWatchedTime(p.watchedIntervals), p.videoLength))
  }

  /** The progress stored by `updateProgress` is the one the stored
      intervals give when computed again, and a second update changes
      nothing. */
  lemma UpdatedIsStable(p: ProgressRecord)
    requires WellFormed(p.watchedIntervals)
    ensures Updated(p).progress == Percent(TotalWatchedTime(Updated(p).watchedIntervals), p.videoLength)
    ensures Updated(Updated(p)).progress == Updated(p).progress
  {
    SweepKeepsTotal(p.watchedIntervals);
  }

  /** With a positive video length and every interval inside the video,
      progress is a finite percentage between 0 and 100; nothing clamps it
      otherwise. */
  lemma ProgressInRange(ws: seq<Interval>, videoLength: real)
    requires WellFormed(ws) && Within(ws, 0.0, videoLength) && videoLength > 0.0
    ensures Percent(TotalWatchedTime(ws), videoLength).Finite?
    ensures 0.0 <= Percent(TotalWatchedTime(ws), videoLength).value <= 100.0
  {
    TotalWithinSpan(ws, 0.0, videoLength);
    RatioInRange(TotalWatchedTime(ws), videoLength);
  }

  lemma RatioInRange(t: real, d: real)
    requires 0.0 <= t <= d && d > 0.0
    ensures 0.0 <= t / d * 100.0 <= 100.0
  {
    var q := t / d;
    assert q * d == t;
    assert q > 1.0 ==> q * d > 1.0 * d;
  }

  /** A zero video length is not guarded against: the progress is not a
      finite number. */
  lemma ZeroLengthProgress(total: real)
    ensures !Percent(total, 0.0).Finite?
    ensures total == 0.0 ==> Percent(total, 0.0) == NaN
  {
  }

  lemma AppendRegroup(merged: seq<Interval>, current: Interval, rest: seq<Interval>)
    ensures merged + ([current] + rest) == (merged + [current]) + rest
  {
  }

  /** One progress document. */
  class VideoProgress {
    var userId: UserId
    var videoId: VideoId
    var watchedIntervals: seq<Interval>
    var lastWatchedTime: real
    var progress: Number
    var videoLength: real

    /** `new VideoProgress({...})`; `progress` takes its schema default 0. */
    constructor (userId: UserId, videoId: VideoId, videoLength: real, watchedIntervals: seq<Interval>, lastWatchedTime: real)
      ensures ToRecord() == ProgressRecord(userId, videoId, watchedIntervals, lastWatchedTime, Finite(0.0), videoLength)
    {
      this.userId := userId;
      this.videoId := videoId;
      this.watchedIntervals := watchedIntervals;
      this.lastWatchedTime := lastWatchedTime;
      this.progress := Finite(0.0);
      this.videoLength := videoLength;
    }

    /** A document loaded from the store. */
    constructor Load(p: ProgressRecord)
      ensures ToRecord() == p
    {
      userId := p.userId;
      videoId := p.videoId;
      watchedIntervals := p.watchedIntervals;
      lastWatchedTime := p.lastWatchedTime;
      progress := p.progress;
      videoLength := p.videoLength;
    }

    function ToRecord(): ProgressRecord
      reads this
    {
      ProgressRecord(userId, videoId, watchedIntervals, lastWatchedTime, progress, videoLength)
    }

    /** `calculateTotalWatchedTime` (lines 49-76). */
    method CalculateTotalWatchedTime() returns (total: real)
      modifies this`watchedIntervals
      ensures total == TotalWatchedTime(old(watchedIntervals))
      ensures watchedIntervals == Sweep(old(watchedIntervals)).0
    {
      if |watchedIntervals| == 0 {
        return 0.0;
      }
      ghost var was := watchedIntervals;
      var ws := watchedIntervals;
      var sorted := SortOrder(ws, |ws|);
      var merged: seq<Interval> := [];
      var cur := 0;
      var i := 1;
      while i < |sorted|
        invariant 0 <= cur < i <= |sorted| == |ws|
        invariant IndicesBelow(sorted, |ws|)
        invariant SweepFrom(ws, sorted, cur, i).0 == Sweep(was).0
        invariant merged + SweepFrom(ws, sorted, cur, i).1 == Sweep(was).1
      {
        var next := ws[sorted[i]];
        var current := ws[sorted[cur]];
        if next.start <= current.end {
          SweepFromExtend(ws, sorted, cur, i);
          ws := ws[sorted[cur] := current.(end := Max(current.end, next.end))];
        } else {
          SweepFromClose(ws, sorted, cur, i);
          AppendRegroup(merged, current, SweepFrom(ws, sorted, i, i + 1).1);
          merged := merged + [current];
          cur := i;
        }
        i := i + 1;
      }
      merged := merged + [ws[sorted[cur]]];
      watchedIntervals := ws;
      SweepTotal(was);
      total := SumLengths(merged);
    }

    /** `updateProgress` (lines 79-83). */
    method UpdateProgress() returns (p: Number)
      modifies this`watchedIntervals, this`progress
      ensures ToRecord() == Updated(old(ToRecord()))
      ensures p == progress
    {
      var total := CalculateTotalWatchedTime();
      progress := Percent(total, videoLength);
      p := progress;
    }
  }
}
