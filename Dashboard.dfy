/** The progress view of client/src/components/Dashboard.js: `formatTime`,
    the join of the video list with the caller's progress documents, and the
    label of each video's button. */
module Dashboard {
  import Intervals
  import opened VideoProgressModel
  import opened ProgressRoutes

  // ---------------------------------------------------------------------
  // formatTime (lines 69-75)
  // ---------------------------------------------------------------------

  /** Truncation toward zero, as JavaScript's `%` uses. */
  function Trunc(x: real): int
  {
    if x >= 0.0 then x.Floor else -((-x).Floor)
  }

  /** JavaScript's `a % m`: the remainder takes the sign of `a`. */
  function JsRem(a: real, m: real): real
    requires m > 0.0
  {
    a - m * (Trunc(a / m) as real)
  }

  function DigitChar(d: nat): char
    requires d < 10
  {
    "0123456789"[d]
  }

  /** `n.toString()` for a whole number. */
  function NatToString(n: nat): (s: string)
    ensures |s| >= 1 && AllDigits(s)
    decreases n
  {
    if n < 10 then [DigitChar(n)] else NatToString(n / 10) + [DigitChar(n % 10)]
  }

  function IntToString(i: int): string
  {
    if i < 0 then "-" + NatToString(-i) else NatToString(i)
  }

  /** `s.padStart(2, '0')`. */
  function PadStart2(s: string): (r: string)
    ensures |r| == if |s| >= 2 then |s| else 2
  {
    if |s| >= 2 then s else seq(2 - |s|, _ => '0') + s
  }

  /** The three whole-number fields `formatTime` prints. */
  function ClockFields(seconds: real): (int, int, int)
  {
    ((seconds / 3600.0).Floor,
     (JsRem(seconds, 3600.0) / 60.0).Floor,
     JsRem(seconds, 60.0).Floor)
  }

  /** `formatTime(seconds)`: `h:mm:ss`, the hours unpadded. */
  function FormatTime(seconds: real): string
  {
    var (hours, minutes, remainingSeconds) := ClockFields(seconds);
    IntToString(hours) + ":" + PadStart2(IntToString(minutes)) + ":" + PadStart2(IntToString(remainingSeconds))
  }

  /** `(s / d).Floor` of a non-negative `s` is the whole seconds divided by
      `d`. */
  lemma FloorOfQuotient(s: real, d: nat)
    requires s >= 0.0 && d > 0
    ensures (s / d as real).Floor == s.Floor / d
  {
    var t := s.Floor;
    var q := t / d;
    assert q * d <= t < (q + 1) * d;
    assert ((q * d) as real) <= s < ((q + 1) * d) as real;
    assert ((q * d) as real) == (q as real) * (d as real);
    assert (((q + 1) * d) as real) == (q as real + 1.0) * (d as real);
    QuotientBounds(s, d as real, q as real);
  }

  lemma QuotientBounds(s: real, d: real, q: real)
    requires d > 0.0 && q * d <= s < (q + 1.0) * d
    ensures q <= s / d < q + 1.0
  {
    var x := s / d;
    assert x * d == s;
    assert (x - q) * d == s - q * d;
    assert (q + 1.0 - x) * d == (q + 1.0) * d - s;
    SignOfProduct(x - q, d);
    SignOfProduct(q + 1.0 - x, d);
  }

  lemma SignOfProduct(a: real, d: real)
    requires d > 0.0
    ensures a * d >= 0.0 <==> a >= 0.0
    ensures a * d > 0.0 <==> a > 0.0
  {
  }

  /** For a non-negative time, the fields are the whole hours, the minutes
      and the seconds of the whole number of seconds: minutes and seconds lie
      in 0..59 and the fields add back up to the whole seconds. */
  lemma ClockFieldsSplit(seconds: real)
    requires seconds >= 0.0
    ensures var (h, m, s) := ClockFields(seconds);
      var t := seconds.Floor;
      h == t / 3600 && m == (t % 3600) / 60 && s == t % 60 &&
      h >= 0 && 0 <= m < 60 && 0 <= s < 60 &&
      h * 3600 + m * 60 + s == t
  {
    var t := seconds.Floor;
    FloorOfQuotient(seconds, 3600);
    FloorOfQuotient(seconds, 60);
    var h := t / 3600;
    var rest := seconds - 3600.0 * (h as real);
    assert JsRem(seconds, 3600.0) == rest;
    assert rest.Floor == t - 3600 * h;
    FloorOfQuotient(rest, 60);
    var s60 := seconds - 60.0 * ((t / 60) as real);
    assert JsRem(seconds, 60.0) == s60;
    assert s60.Floor == t % 60;
    var r := t % 3600;
    assert t == 3600 * h + r;
    assert r == 60 * (r / 60) + r % 60;
    assert t == 60 * (60 * h + r / 60) + r % 60;
    assert t % 60 == r % 60 by {
      ModOfSum(60 * h + r / 60, r % 60, 60);
    }
  }

  lemma ModOfSum(a: int, b: int, d: nat)
    requires d > 0 && 0 <= b < d
    ensures (d * a + b) % d == b
  {
    var n := d * a + b;
    var q := n / d;
    assert n == d * q + n % d;
    assert d * (a - q) == n % d - b;
    assert -(d as int) < n % d - b < d;
    MulBounds(a - q, d);
  }

  lemma MulBounds(x: int, d: nat)
    ensures x >= 1 ==> d * x >= d
    ensures x <= -1 ==> d * x <= -(d as int)
  {
  }

  // ---------------------------------------------------------------------
  // Reading a formatted time back
  // ---------------------------------------------------------------------

  predicate IsDigit(c: char)
  {
    '0' <= c <= '9'
  }

  predicate AllDigits(s: string)
  {
    forall k :: 0 <= k < |s| ==> IsDigit(s[k])
  }

  function DigitsValue(s: string): nat
    requires AllDigits(s)
  {
    if |s| == 0 then 0
    else DigitsValue(s[..|s| - 1]) * 10 + ((s[|s| - 1] as int) - ('0' as int))
  }

  /** The pieces of `s` between colons, as `s.split(':')` gives them. */
  function SplitColons(s: string): (r: seq<string>)
    ensures |r| >= 1
  {
    if |s| == 0 then [""]
    else
      var rest := SplitColons(s[1..]);
      if s[0] == ':' then [""] + rest else [[s[0]] + rest[0]] + rest[1..]
  }

  /** The number of seconds `h:mm:ss` stands for, when it has that shape. */
  function ParseClock(s: string): (r: Option<int>)
    ensures r.Some? ==> r.value >= 0
  {
    var parts := SplitColons(s);
    if |parts| == 3 && AllDigits(parts[0]) && AllDigits(parts[1]) && AllDigits(parts[2])
       && |parts[1]| == 2 && |parts[2]| == 2
    then Some(DigitsValue(parts[0]) * 3600 + DigitsValue(parts[1]) * 60 + DigitsValue(parts[2]))
    else None
  }

  lemma {:induction false} NatToStringValue(n: nat)
    ensures DigitsValue(NatToString(n)) == n
    decreases n
  {
    if n >= 10 {
      var s := NatToString(n);
      NatToStringValue(n / 10);
      assert s[..|s| - 1] == NatToString(n / 10);
    }
  }

  lemma {:induction false} LeadingZeroValue(s: string)
    requires AllDigits(s)
    ensures AllDigits("0" + s) && DigitsValue("0" + s) == DigitsValue(s)
    decreases |s|
  {
    var t := "0" + s;
    if |s| > 0 {
      assert t[..|t| - 1] == "0" + s[..|s| - 1];
      LeadingZeroValue(s[..|s| - 1]);
    }
  }

  /** Padding a one- or two-digit number to two digits keeps its value. */
  lemma PaddedValue(n: nat)
    requires n < 100
    ensures var p := PadStart2(NatToString(n));
      |p| == 2 && AllDigits(p) && DigitsValue(p) == n
  {
    NatToStringValue(n);
    if n < 10 {
      assert PadStart2(NatToString(n)) == "0" + NatToString(n);
      LeadingZeroValue(NatToString(n));
    }
  }

  lemma {:induction false} SplitAtColon(a: string, t: string)
    requires forall k :: 0 <= k < |a| ==> a[k] != ':'
    ensures SplitColons(a + ":" + t) == [a] + SplitColons(t)
    decreases |a|
  {
    var s := a + ":" + t;
    if |a| == 0 {
      assert s[1..] == t;
    } else {
      assert s[1..] == a[1..] + ":" + t;
      SplitAtColon(a[1..], t);
      assert [a[0]] + a[1..] == a;
    }
  }

  lemma {:induction false} SplitNoColon(a: string)
    requires forall k :: 0 <= k < |a| ==> a[k] != ':'
    ensures SplitColons(a) == [a]
    decreases |a|
  {
    if |a| > 0 {
      SplitNoColon(a[1..]);
      assert [a[0]] + a[1..] == a;
    }
  }

  /** Reading `formatTime(seconds)` back gives the whole number of seconds
      for every non-negative time: the format loses only the fraction. */
  lemma FormatTimeRoundTrip(seconds: real)
    requires seconds >= 0.0
    ensures ParseClock(FormatTime(seconds)) == Some(seconds.Floor)
  {
    ClockFieldsSplit(seconds);
    var (h, m, s) := ClockFields(seconds);
    ParseFields(h, m, s);
  }

  /** Printed fields read back as the seconds they stand for. */
  lemma ParseFields(h: nat, m: nat, s: nat)
    requires m < 60 && s < 60
    ensures ParseClock(IntToString(h) + ":" + PadStart2(IntToString(m)) + ":" + PadStart2(IntToString(s)))
      == Some(h * 3600 + m * 60 + s)
  {
    var hs := IntToString(h);
    var ms := PadStart2(IntToString(m));
    var ss := PadStart2(IntToString(s));
    NatToStringValue(h);
    PaddedValue(m);
    PaddedValue(s);
    SplitThree(hs, ms, ss);
  }

  lemma SplitThree(a: string, b: string, c: string)
    requires AllDigits(a) && AllDigits(b) && AllDigits(c)
    ensures SplitColons(a + ":" + b + ":" + c) == [a, b, c]
  {
    assert a + ":" + b + ":" + c == a + ":" + (b + ":" + c);
    SplitAtColon(a, b + ":" + c);
    SplitAtColon(b, c);
    SplitNoColon(c);
  }

  /** Two non-negative times print the same exactly when they have the
      same whole number of seconds. */
  lemma FormatTimeSameSecond(a: real, b: real)
    requires a >= 0.0 && b >= 0.0
    ensures FormatTime(a) == FormatTime(b) <==> a.Floor == b.Floor
  {
    FormatTimeRoundTrip(a);
    FormatTimeRoundTrip(b);
    ClockFieldsSplit(a);
    ClockFieldsSplit(b);
  }

  lemma FormatTimeOfZero()
    ensures FormatTime(0.0) == "0:00:00"
  {
  }

  /** An hour, two minutes and five and a half seconds print as 1:02:05. */
  lemma FormatTimeOfHour()
    ensures FormatTime(3725.5) == "1:02:05"
  {
    assert ClockFields(3725.5) == (1, 2, 5) by {
      assert (3725.5 / 3600.0).Floor == 1;
      assert Trunc(3725.5 / 3600.0) == 1;
      assert (JsRem(3725.5, 3600.0) / 60.0).Floor == 2;
      assert Trunc(3725.5 / 60.0) == 62;
      assert JsRem(3725.5, 60.0).Floor == 5;
    }
    assert NatToString(1) == "1" && NatToString(2) == "2" && NatToString(5) == "5";
  }

  /** Nothing rules out a negative time, which prints every field negative. */
  lemma FormatTimeOfNegative()
    ensures FormatTime(-30.0) == "-1:-1:-30"
  {
    assert ClockFields(-30.0) == (-1, -1, -30) by {
      assert (-30.0 / 3600.0).Floor == -1;
      assert Trunc(-30.0 / 3600.0) == 0;
      assert Trunc(-30.0 / 60.0) == 0;
    }
    assert NatToString(30) == "30";
  }

  // ---------------------------------------------------------------------
  // The join of videos with progress (lines 39-49)
  // ---------------------------------------------------------------------

  /** A video as server/models/Video.js stores it; `id` is its `_id`. The
      `createdAt` date is not modelled. */
  datatype Video = Video(id: VideoId, title: string, description: string, url: string,
                         length: real, thumbnail: string, category: string)

  /** `{...video, progress, lastWatchedTime}`, with the values the list route
      sent. */
  datatype VideoCard = VideoCard(video: Video, progress: JsonNumber, lastWatchedTime: real)

  /** `progressResponse.data.find(p => p.videoId === video._id)`: the first
      document for the video, if any. */
  function FindProgress(records: seq<ProgressJson>, videoId: VideoId): (r: Option<ProgressJson>)
    ensures r.None? <==> forall k :: 0 <= k < |records| ==> records[k].videoId != videoId
    ensures r.Some? ==> exists k :: 0 <= k < |records| && records[k] == r.value && r.value.videoId == videoId &&
                                  (forall j :: 0 <= j < k ==> records[j].videoId != videoId)
  {
    if |records| == 0 then None
    else if records[0].videoId == videoId then Some(records[0])
    else
      var r := FindProgress(records[1..], videoId);
      assert forall k :: 1 <= k < |records| ==> records[k] == records[1..][k - 1];
      r
  }

  /** One video with its progress, or `{progress: 0, lastWatchedTime: 0}`
      when there is no document for it. */
  function Card(video: Video, records: seq<ProgressJson>): VideoCard
  {
    match FindProgress(records, video.id)
    case Some(p) => VideoCard(video, p.progress, p.lastWatchedTime)
    case None => VideoCard(video, JsonNum(0.0), 0.0)
  }

  /** `videosResponse.data.map(...)`: every video, in order, with its
      progress. */
  function JoinProgress(videos: seq<Video>, records: seq<ProgressJson>): (r: seq<VideoCard>)
    ensures |r| == |videos|
    ensures forall i :: 0 <= i < |r| ==> r[i].video == videos[i]
  {
    seq(|videos|, i requires 0 <= i < |videos| => Card(videos[i], records))
  }

  /** No two documents in the list are for the same video. */
  predicate DistinctVideos(records: seq<ProgressJson>)
  {
    forall j, k :: 0 <= j < k < |records| ==> records[j].videoId != records[k].videoId
  }

  /** When each video has at most one document, a video's card shows that
      document's progress and last watched time. */
  lemma JoinShowsOwnRecord(videos: seq<Video>, records: seq<ProgressJson>, i: nat, k: nat)
    requires DistinctVideos(records) && i < |videos| && k < |records|
    requires records[k].videoId == videos[i].id
    ensures JoinProgress(videos, records)[i] == VideoCard(videos[i], records[k].progress, records[k].lastWatchedTime)
  {
    var r := FindProgress(records, videos[i].id);
    var k' :| 0 <= k' < |records| && records[k'] == r.value && r.value.videoId == videos[i].id &&
              (forall j :: 0 <= j < k' ==> records[j].videoId != videos[i].id);
    assert records[k'].videoId == records[k].videoId;
  }

  /** A video without a document shows progress 0 and time 0. */
  lemma JoinDefaultsUnwatched(videos: seq<Video>, records: seq<ProgressJson>, i: nat)
    requires i < |videos| && forall k :: 0 <= k < |records| ==> records[k].videoId != videos[i].id
    ensures JoinProgress(videos, records)[i] == VideoCard(videos[i], JsonNum(0.0), 0.0)
  {
  }

  /** The list route returns at most one document per video: all of them
      belong to the caller, and the unique index allows one per pair. */
  lemma {:induction false} ListedVideosDistinct(userId: UserId, keys: seq<Key>, records: map<Key, ProgressRecord>)
    requires KeyedByPair(records)
    requires forall key :: key in keys ==> key in records
    requires forall j, k :: 0 <= j < k < |keys| ==> keys[j] != keys[k]
    ensures DistinctVideos(JsonList(RecordsOf(userId, keys, records)))
    decreases |keys|
  {
    if |keys| > 0 {
      var n := |keys| - 1;
      FrontKeys(keys, records);
      ListedVideosDistinct(userId, keys[..n], records);
      var last := records[keys[n]];
      if last.userId == userId {
        LastVideoIsNew(userId, keys, records);
        DistinctAppend(RecordsOf(userId, keys[..n], records), last);
      } else {
        assert RecordsOf(userId, keys[..n], records) + [] == RecordsOf(userId, keys[..n], records);
      }
    }
  }

  lemma FrontKeys(keys: seq<Key>, records: map<Key, ProgressRecord>)
    requires |keys| > 0
    requires forall key :: key in keys ==> key in records
    requires forall j, k :: 0 <= j < k < |keys| ==> keys[j] != keys[k]
    ensures var front := keys[..|keys| - 1];
      (forall key :: key in front ==> key in records) &&
      (forall j, k :: 0 <= j < k < |front| ==> front[j] != front[k])
  {
    var front := keys[..|keys| - 1];
    assert forall j :: 0 <= j < |front| ==> front[j] == keys[j];
  }

  /** The last key's document, when it is the caller's, is for a video no
      earlier key of the caller's has. */
  lemma LastVideoIsNew(userId: UserId, keys: seq<Key>, records: map<Key, ProgressRecord>)
    requires KeyedByPair(records) && |keys| > 0
    requires forall key :: key in keys ==> key in records
    requires forall j, k :: 0 <= j < k < |keys| ==> keys[j] != keys[k]
    requires records[keys[|keys| - 1]].userId == userId
    ensures forall q :: q in RecordsOf(userId, keys[..|keys| - 1], records) ==>
      q.videoId != records[keys[|keys| - 1]].videoId
  {
    var n := |keys| - 1;
    var front := keys[..n];
    var last := records[keys[n]];
    RecordsOfMembers(userId, front, records);
    forall q | q in RecordsOf(userId, front, records) ensures q.videoId != last.videoId {
      var j :| 0 <= j < |front| && records[front[j]] == q && q.userId == userId;
      assert front[j] == (q.userId, q.videoId);
      assert keys[n] == (last.userId, last.videoId);
      assert front[j] == keys[j];
    }
  }

  lemma DistinctAppend(listed: seq<ProgressRecord>, last: ProgressRecord)
    requires DistinctVideos(JsonList(listed)) && forall q :: q in listed ==> q.videoId != last.videoId
    ensures DistinctVideos(JsonList(listed + [last]))
  {
    JsonListAppend(listed, [last]);
    var r := JsonList(listed + [last]);
    forall j, k | 0 <= j < k < |r| ensures r[j].videoId != r[k].videoId {
      if k == |listed| {
        assert listed[j] in listed;
      }
    }
  }

  /** What the dashboard shows for a video, given the store the list route
      reads: the caller's document for it, with its progress as JSON writes
      it (null when not finite), when there is one; progress 0 at time 0
      when there is none. */
  lemma DashboardShowsStoredProgress(userId: UserId, videos: seq<Video>, records: map<Key, ProgressRecord>,
                                     created: seq<Key>, i: nat)
    requires KeyedByPair(records)
    requires forall key :: key in records <==> key in created
    requires forall j, k :: 0 <= j < k < |created| ==> created[j] != created[k]
    requires i < |videos|
    ensures var cards := JoinProgress(videos, JsonList(RecordsOf(userId, created, records)));
      var key := (userId, videos[i].id);
      cards[i] == if key in records
        then VideoCard(videos[i], ToJsonNumber(records[key].progress), records[key].lastWatchedTime)
        else VideoCard(videos[i], JsonNum(0.0), 0.0)
  {
    var rs := RecordsOf(userId, created, records);
    var listed := JsonList(rs);
    var key := (userId, videos[i].id);
    ListedVideosDistinct(userId, created, records);
    RecordsOfMembers(userId, created, records);
    forall k | 0 <= k < |listed| && listed[k].videoId == videos[i].id ensures key in records && rs[k] == records[key] {
      assert rs[k] in rs;
      var j :| 0 <= j < |created| && records[created[j]] == rs[k] && rs[k].userId == userId;
      assert created[j] == key;
    }
    if key in records {
      assert records[key] in rs by {
        var j :| 0 <= j < |created| && created[j] == key;
      }
      var k :| 0 <= k < |rs| && rs[k] == records[key];
      JoinShowsOwnRecord(videos, listed, i, k);
    } else {
      JoinDefaultsUnwatched(videos, listed, i);
    }
  }

  // ---------------------------------------------------------------------
  // The button label (line 159)
  // ---------------------------------------------------------------------

  /** `progress > 0` on the value the route sent: `null > 0` is false. */
  predicate IsPositive(n: JsonNumber)
  {
    n.JsonNum? && n.value > 0.0
  }

  function ButtonLabel(progress: JsonNumber): string
  {
    if IsPositive(progress) then "Continue Watching" else "Start Watching"
  }

  /** A video without a document offers "Start Watching". */
  lemma UnwatchedStarts(videos: seq<Video>, records: seq<ProgressJson>, i: nat)
    requires i < |videos| && forall k :: 0 <= k < |records| ==> records[k].videoId != videos[i].id
    ensures ButtonLabel(JoinProgress(videos, records)[i].progress) == "Start Watching"
  {
    JoinDefaultsUnwatched(videos, records, i);
  }

  /** After the first post of a segment that moves forwards, on a video of
      positive length, the document is saved and the video offers
      "Continue Watching". */
  lemma ContinueAfterFirstPost(userId: UserId, videoId: VideoId, startTime: real, endTime: real, videoLength: real)
    requires startTime < endTime && videoLength > 0.0
    ensures var doc := Posted(None, userId, videoId, startTime, endTime, videoLength);
      Storable(doc) && ButtonLabel(ToJson(doc).progress) == "Continue Watching"
  {
    PostCreates(userId, videoId, startTime, endTime, videoLength);
    PositivePercent(endTime - startTime, videoLength);
  }

  lemma PositivePercent(total: real, videoLength: real)
    requires total > 0.0 && videoLength > 0.0
    ensures Percent(total, videoLength).Finite? && Percent(total, videoLength).value > 0.0
  {
    var x := total / videoLength;
    assert x * videoLength == total;
    SignOfProduct(x, videoLength);
    assert Percent(total, videoLength) == Finite(x * 100.0);
    SignOfProduct(x, 100.0);
  }

  /** With a video length of 0 the first post's progress is not a finite
      number: a segment that moves forwards gives Infinity, which is saved,
      and an empty one gives NaN, which the save refuses. */
  lemma ZeroLengthFirstPost(userId: UserId, videoId: VideoId, startTime: real, endTime: real)
    requires startTime <= endTime
    ensures var doc := Posted(None, userId, videoId, startTime, endTime, 0.0);
      (startTime < endTime ==> Storable(doc) && doc.progress == Infinity(false)) &&
      (startTime == endTime ==> !Storable(doc))
  {
    PostCreates(userId, videoId, startTime, endTime, 0.0);
  }

  /** A video whose document holds length 0 never offers "Continue
      Watching": every post keeps the first length, so its progress is not
      finite. A NaN progress is refused by the save, so only an infinity is
      ever stored and sent, and JSON sends it as null. With no document the
      label is "Start Watching" as well (UnwatchedStarts). */
  lemma ZeroLengthVideoLabel(existing: Option<ProgressRecord>, userId: UserId, videoId: VideoId,
                             startTime: real, endTime: real, videoLength: real)
    requires if existing.Some? then existing.value.videoLength == 0.0 else videoLength == 0.0
    ensures var doc := Posted(existing, userId, videoId, startTime, endTime, videoLength);
      !doc.progress.Finite? && ButtonLabel(ToJson(doc).progress) == "Start Watching"
  {
    var loaded := Loaded(existing, userId, videoId, startTime, endTime, videoLength);
    assert loaded.videoLength == 0.0;
    ZeroLengthProgress(Intervals.TotalWatchedTime(loaded.watchedIntervals));
  }
}
