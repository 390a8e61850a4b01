/** The watch-tracking logic of client/src/components/VideoPlayer.js: where
    playback resumes (the end of the watched prefix of the video) and the
    play / progress / pause handlers that record one interval per playback
    segment and submit it when playback pauses. */
module VideoPlayer {
  import opened Intervals

  // ---------------------------------------------------------------------
  // Resume position (lines 24-34)
  // ---------------------------------------------------------------------

  /** The loop of lines 27-32 from frontier `f` over the sorted intervals:
      it stops at the first interval that starts after the frontier, and
      otherwise moves the frontier to the larger of itself and the end. */
  function Frontier(f: real, sorted: seq<Interval>): (r: real)
    ensures r >= f
    decreases |sorted|
  {
    if |sorted| == 0 || sorted[0].start > f then f
    else Frontier(Max(f, sorted[0].end), sorted[1..])
  }

  /** Every point between 0 and `q` is watched (vacuous when `q` is 0). */
  ghost predicate WatchedPrefix(ws: seq<Interval>, q: real)
  {
    q >= 0.0 && (q > 0.0 ==> forall x :: 0.0 <= x <= q ==> Covered(ws, x))
  }

  /** No point strictly between `q` and `g` is watched. */
  ghost predicate Unwatched(ws: seq<Interval>, q: real, g: real)
  {
    forall z :: q < z < g ==> !Covered(ws, z)
  }

  /** Some stretch right after `q` is not watched. */
  ghost predicate GapAfter(ws: seq<Interval>, q: real)
  {
    exists g :: g > q && Unwatched(ws, q, g)
  }

  /** The point where the watched prefix of the video ends. */
  ghost predicate FirstGap(ws: seq<Interval>, q: real)
  {
    WatchedPrefix(ws, q) && GapAfter(ws, q)
  }

  /** Where the player resumes: the loop at lines 24-32, on a sorted copy of
      the intervals the server returned. */
  method ResumePosition(watchedIntervals: seq<Interval>) returns (lastUnwatched: real)
    ensures lastUnwatched == Frontier(0.0, SortByStart(watchedIntervals))
    ensures FirstGap(watchedIntervals, lastUnwatched)
  {
    var sorted := SortByStart(watchedIntervals);
    lastUnwatched := 0.0;
    var i := 0;
    while i < |sorted|
      invariant 0 <= i <= |sorted|
      invariant Frontier(lastUnwatched, sorted[i..]) == Frontier(0.0, sorted)
    {
      FrontierStep(lastUnwatched, sorted, i);
      if sorted[i].start > lastUnwatched {
        break;
      }
      lastUnwatched := Max(lastUnwatched, sorted[i].end);
      i := i + 1;
    }
    ResumeIsFirstGap(watchedIntervals);
  }

  /** One turn of the loop of lines 27-32. */
  lemma FrontierStep(f: real, s: seq<Interval>, i: nat)
    requires i < |s|
    ensures Frontier(f, s[i..]) ==
      if s[i].start > f then f else Frontier(Max(f, s[i].end), s[i + 1..])
  {
    assert s[i..][0] == s[i] && s[i..][1..] == s[i + 1..];
  }

  /** Every point the frontier moves over is watched, and so is the starting
      point once the frontier moves at all. The order of the intervals does
      not matter for this. */
  lemma {:induction false} FrontierCovered(f: real, s: seq<Interval>)
    ensures forall x :: f < x <= Frontier(f, s) ==> Covered(s, x)
    ensures Frontier(f, s) > f ==> Covered(s, f)
    decreases |s|
  {
    if |s| > 0 && s[0].start <= f {
      var f' := Max(f, s[0].end);
      FrontierCovered(f', s[1..]);
      forall x | f < x <= Frontier(f, s) ensures Covered(s, x) {
        CoveredCons(s[0], s[1..], x);
        assert s == [s[0]] + s[1..];
      }
      CoveredCons(s[0], s[1..], f);
      assert s == [s[0]] + s[1..];
    }
  }

  /** The frontier never passes the largest end: the resume position is at
      most the larger of 0 and the last end watched. */
  lemma {:induction false} FrontierAtMost(f: real, s: seq<Interval>, hi: real)
    requires f <= hi && forall k :: 0 <= k < |s| ==> s[k].end <= hi
    ensures Frontier(f, s) <= hi
    decreases |s|
  {
    if |s| > 0 && s[0].start <= f {
      assert forall k :: 0 <= k < |s[1..]| ==> s[1..][k] == s[k + 1];
      FrontierAtMost(Max(f, s[0].end), s[1..], hi);
    }
  }

  /** The resume position lies between 0 and any bound on the ends that is
      at least 0. */
  lemma ResumeAtMost(ws: seq<Interval>, hi: real)
    requires 0.0 <= hi && forall k :: 0 <= k < |ws| ==> ws[k].end <= hi
    ensures 0.0 <= Frontier(0.0, SortByStart(ws)) <= hi
  {
    var sorted := SortByStart(ws);
    forall k | 0 <= k < |sorted| ensures sorted[k].end <= hi {
      assert sorted[k] in multiset(ws);
    }
    FrontierAtMost(0.0, sorted, hi);
  }

  /** On sorted intervals, every interval ends by the frontier or starts
      after it: the loop stops only at an interval that starts after the
      frontier, and every later interval starts later still. */
  lemma {:induction false} FrontierSplits(f: real, s: seq<Interval>)
    requires StartsSorted(s)
    ensures forall k :: 0 <= k < |s| ==> s[k].end <= Frontier(f, s) || s[k].start > Frontier(f, s)
    decreases |s|
  {
    if |s| > 0 && s[0].start <= f {
      var rest := s[1..];
      FrontierSplits(Max(f, s[0].end), rest);
      forall k | 0 < k < |s| ensures s[k].end <= Frontier(f, s) || s[k].start > Frontier(f, s) {
        assert s[k] == rest[k - 1];
      }
    }
  }

  /** The nearest start after `q`, or `q + 1` when no interval starts after
      `q`. */
  function NextStartAfter(s: seq<Interval>, q: real): (g: real)
    ensures g > q
    ensures forall k :: 0 <= k < |s| && s[k].start > q ==> g <= s[k].start
  {
    if |s| == 0 then q + 1.0
    else
      var g := NextStartAfter(s[1..], q);
      assert forall k :: 1 <= k < |s| ==> s[k] == s[1..][k - 1];
      if s[0].start > q then Min(s[0].start, g) else g
  }

  /** When every interval ends by `q` or starts after it, nothing between
      `q` and the next start is watched. */
  lemma GapFromSplit(s: seq<Interval>, q: real)
    requires forall k :: 0 <= k < |s| ==> s[k].end <= q || s[k].start > q
    ensures GapAfter(s, q)
  {
    var g := NextStartAfter(s, q);
    forall z | q < z < g ensures !Covered(s, z) {
      forall k | 0 <= k < |s| ensures !Contains(s[k], z) {
        assert s[k].end <= q || g <= s[k].start;
      }
    }
    assert Unwatched(s, q, g);
  }

  /** The resume position is where the watched prefix ends: everything
      before it is watched and something right after it is not. */
  lemma ResumeIsFirstGap(ws: seq<Interval>)
    ensures FirstGap(ws, Frontier(0.0, SortByStart(ws)))
  {
    var sorted := SortByStart(ws);
    var pos := Frontier(0.0, sorted);
    SameElements(sorted, ws, 0.0, 0.0);
    FrontierCovered(0.0, sorted);
    assert WatchedPrefix(sorted, pos);
    FrontierSplits(0.0, sorted);
    GapFromSplit(sorted, pos);
    SameCoverKeepsFirstGap(sorted, ws, pos);
  }

  lemma SameCoverKeepsFirstGap(a: seq<Interval>, b: seq<Interval>, q: real)
    requires SameCover(a, b) && WatchedPrefix(a, q) && GapAfter(a, q)
    ensures WatchedPrefix(b, q) && GapAfter(b, q)
  {
    var g :| g > q && Unwatched(a, q, g);
    assert Unwatched(b, q, g);
  }

  /** No other point ends the watched prefix, so the resume position does not
      depend on how the intervals are listed or split. */
  lemma FirstGapUnique(ws: seq<Interval>, p: real, q: real)
    requires FirstGap(ws, p) && FirstGap(ws, q)
    ensures p == q
  {
    PrefixBeforeGap(ws, p, q);
    PrefixBeforeGap(ws, q, p);
  }

  lemma PrefixBeforeGap(ws: seq<Interval>, p: real, q: real)
    requires WatchedPrefix(ws, q) && WatchedPrefix(ws, p) && GapAfter(ws, p)
    ensures q <= p
  {
    var g :| g > p && Unwatched(ws, p, g);
    var z := (p + Min(g, q)) / 2.0;
    assert p < q ==> p < z < g && 0.0 <= z <= q;
    assert p < q ==> Covered(ws, z) && !Covered(ws, z);
  }

  /** The resume position depends only on the points watched. */
  lemma ResumeDependsOnlyOnCover(a: seq<Interval>, b: seq<Interval>)
    requires SameCover(a, b)
    ensures Frontier(0.0, SortByStart(a)) == Frontier(0.0, SortByStart(b))
  {
    var p := Frontier(0.0, SortByStart(a));
    var q := Frontier(0.0, SortByStart(b));
    ResumeIsFirstGap(a);
    ResumeIsFirstGap(b);
    SameCoverKeepsFirstGap(a, b, p);
    FirstGapUnique(b, p, q);
  }

  /** The resume position is the one point that ends the watched prefix. */
  lemma ResumeAtFirstGap(ws: seq<Interval>, q: real)
    requires FirstGap(ws, q)
    ensures Frontier(0.0, SortByStart(ws)) == q
  {
    ResumeIsFirstGap(ws);
    FirstGapUnique(ws, q, Frontier(0.0, SortByStart(ws)));
  }

  /** Adjacent intervals chain: [0, 10] and [10, 20] resume at 20. */
  lemma ResumeAdjacent()
    ensures Frontier(0.0, SortByStart([Interval(0.0, 10.0), Interval(10.0, 20.0)])) == 20.0
  {
    var a := [Interval(0.0, 10.0), Interval(10.0, 20.0)];
    forall x | 0.0 <= x <= 20.0 ensures Covered(a, x) {
      assert Contains(a[0], x) || Contains(a[1], x);
    }
    GapFromSplit(a, 20.0);
    ResumeAtFirstGap(a, 20.0);
  }

  /** A gap stops the walk: [0, 5] and [7, 10] resume at 5. */
  lemma ResumeBeforeGap()
    ensures Frontier(0.0, SortByStart([Interval(0.0, 5.0), Interval(7.0, 10.0)])) == 5.0
  {
    var b := [Interval(0.0, 5.0), Interval(7.0, 10.0)];
    forall x | 0.0 <= x <= 5.0 ensures Covered(b, x) {
      assert Contains(b[0], x);
    }
    GapFromSplit(b, 5.0);
    ResumeAtFirstGap(b, 5.0);
  }

  /** The listed order does not matter: [5, 10] and [0, 3] resume at 3. */
  lemma ResumeUnordered()
    ensures Frontier(0.0, SortByStart([Interval(5.0, 10.0), Interval(0.0, 3.0)])) == 3.0
  {
    var c := [Interval(5.0, 10.0), Interval(0.0, 3.0)];
    forall x | 0.0 <= x <= 3.0 ensures Covered(c, x) {
      assert Contains(c[1], x);
    }
    GapFromSplit(c, 3.0);
    ResumeAtFirstGap(c, 3.0);
  }

  /** Nothing watched from the start: [5, 10] resumes at 0. */
  lemma ResumeAtStart()
    ensures Frontier(0.0, SortByStart([Interval(5.0, 10.0)])) == 0.0
  {
    var d := [Interval(5.0, 10.0)];
    GapFromSplit(d, 0.0);
    ResumeAtFirstGap(d, 0.0);
  }

  // ---------------------------------------------------------------------
  // Playback handlers (lines 43-79)
  // ---------------------------------------------------------------------

  /** The player's tracking state. `submitted` lists the intervals posted to
      the server, in order; the post itself is not modelled. */
  class PlaybackTracker {
    var isPlaying: bool
    var currentInterval: Interval
    var submitted: seq<Interval>

    /** Only non-empty segments are ever posted (line 61). */
    ghost predicate Valid()
      reads this
    {
      forall k :: 0 <= k < |submitted| ==> submitted[k].start != submitted[k].end
    }

    /** The initial state of lines 9-10. */
    constructor ()
      ensures Valid()
      ensures !isPlaying && currentInterval == Interval(0.0, 0.0) && submitted == []
    {
      isPlaying := false;
      currentInterval := Interval(0.0, 0.0);
      submitted := [];
    }

    /** `handlePlay` (lines 52-56): a new segment starts at the player's
        current time. */
    method HandlePlay(currentTime: real)
      requires Valid()
      modifies this
      ensures Valid()
      ensures isPlaying && currentInterval == Interval(currentTime, currentTime)
      ensures submitted == old(submitted)
    {
      isPlaying := true;
      currentInterval := Interval(currentTime, currentTime);
    }

    /** `handleProgress` (lines 43-50): while playing, the segment's end
        follows the played position, forwards or backwards; otherwise nothing
        changes. */
    method HandleProgress(playedSeconds: real)
      requires Valid()
      modifies this
      ensures Valid()
      ensures isPlaying == old(isPlaying) && submitted == old(submitted)
      ensures currentInterval ==
        if old(isPlaying) then old(currentInterval).(end := playedSeconds) else old(currentInterval)
    {
      if isPlaying {
        currentInterval := currentInterval.(end := playedSeconds);
      }
    }

    /** `handlePause` (lines 58-79): playback stops and the segment is
        posted exactly when its start and end differ. The segment is not
        reset. */
    method HandlePause()
      requires Valid()
      modifies this
      ensures Valid()
      ensures !isPlaying && currentInterval == old(currentInterval)
      ensures submitted ==
        if currentInterval.start != currentInterval.end then old(submitted) + [currentInterval] else old(submitted)
    {
      isPlaying := false;
      if currentInterval.start != currentInterval.end {
        submitted := submitted + [currentInterval];
      }
    }
  }

  /** Play at 5 s, progress to 9 s, pause: the segment [5, 9] is posted. */
  method PlayThenPause() returns (sent: seq<Interval>)
    ensures sent == [Interval(5.0, 9.0)]
  {
    var t := new PlaybackTracker();
    t.HandlePlay(5.0);
    t.HandleProgress(9.0);
    t.HandlePause();
    sent := t.submitted;
  }

  /** A pause with no progress since play posts nothing. */
  method PauseWithoutProgress() returns (sent: seq<Interval>)
    ensures sent == []
  {
    var t := new PlaybackTracker();
    t.HandlePlay(5.0);
    t.HandlePause();
    sent := t.submitted;
  }

  /** Progress events while paused are ignored. */
  method ProgressWhilePaused() returns (sent: seq<Interval>)
    ensures sent == []
  {
    var t := new PlaybackTracker();
    t.HandleProgress(30.0);
    t.HandlePause();
    sent := t.submitted;
  }

  /** The segment is not reset on pause, so a second pause posts the same
      segment again. */
  method DoublePauseResubmits() returns (sent: seq<Interval>)
    ensures sent == [Interval(5.0, 9.0), Interval(5.0, 9.0)]
  {
    var t := new PlaybackTracker();
    t.HandlePlay(5.0);
    t.HandleProgress(9.0);
    t.HandlePause();
    t.HandlePause();
    sent := t.submitted;
  }

  /** A seek backwards while playing leaves a segment whose end is before
      its start, and that segment is posted as it is. */
  method SeekBackPostsInverted() returns (sent: seq<Interval>)
    ensures sent == [Interval(30.0, 12.0)]
  {
    var t := new PlaybackTracker();
    t.HandlePlay(30.0);
    t.HandleProgress(12.0);
    t.HandlePause();
    sent := t.submitted;
  }

  /** A seek forwards while playing stretches the segment over the skipped
      part: play at 0 s, progress to 5 s, seek to 50 s, progress to 51 s. */
  method SeekForwardCountsSkipped() returns (sent: seq<Interval>)
    ensures sent == [Interval(0.0, 51.0)]
  {
    var t := new PlaybackTracker();
    t.HandlePlay(0.0);
    t.HandleProgress(5.0);
    t.HandleProgress(51.0);
    t.HandlePause();
    sent := t.submitted;
  }
}
