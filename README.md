# StreamStep watch progress, modelled in Dafny

StreamStep records how much of each video a user has really watched. The
player records one `{start, end}` interval, in seconds, for each playback
segment. When playback pauses it posts the segment to the server. The server
keeps one progress document per (user, video) pair. Each time it
recomputes the watched time as the total length of the union of all stored
intervals (for well-formed intervals; see the inverted intervals below), and
the progress as that total over the video length, times 100.
The dashboard joins the video list with the user's documents. It prints
times as `h:mm:ss` and labels each video "Continue Watching" or "Start
Watching". The player resumes at the end of the watched prefix of the video.

The model has five modules:

- `Intervals`: the sort by start, the merge sweep and the sum of merged
  lengths, on values. It also defines the point set a list covers, so that
  "measure of the union" has a meaning: the total is the summed length of
  the unique canonical list (well-formed, sorted, with a gap between
  neighbours) that covers the same points.
- `VideoProgressModel`: the progress document as a class whose
  `CalculateTotalWatchedTime` runs the sweep loop in place. The sorted copy
  holds the stored interval objects themselves, so the sweep writes extended
  ends back into the stored list. The model keeps that write-back: the sort
  is an order of indices into the stored list, and the loop updates the
  stored list at the current interval's index.
- `ProgressRoutes`: the three progress routes as methods of an in-memory
  store. The store maps (userId, videoId) to a document and remembers the
  order in which documents were created. The routes answer with the JSON
  form of a document, in which a progress that is not finite is `null`.
- `VideoPlayer`: the resume loop as a method with an early exit, and the
  play / progress / pause handlers as a class.
- `Dashboard`: `formatTime`, the join of videos with progress, and the
  button label.

Seconds are exact reals. A JavaScript number that can come out of a division
by zero is `Number = Finite | NaN | Infinity`. JavaScript's `%` truncates
toward zero, and `JsRem` models that explicitly.

Where the code behaves in a way a reader may not anticipate, the model follows
the code:

- Nothing checks that `start <= end`, that times are non-negative or that
  the video length is positive.
- An interval whose end is before its start counts with a negative length,
  unless it starts inside the current interval of the merge and is absorbed.
  With such intervals the total depends on the order of the stored
  intervals and on repeats.
- A zero video length gives `NaN` or `Infinity` progress. The save refuses
  a `NaN` progress: the route answers 500 and nothing is written. An
  `Infinity` progress is saved, and `res.json` sends it as `null`, so the
  dashboard reads it as not positive.
- Progress is not clamped to 0..100.
- Computing the total rewrites the ends of stored intervals, so after a POST
  the earlier intervals keep their order and starts but not always their
  ends. The points they cover stay the same, and so, for well-formed
  intervals, does every later total.
- `handlePause` does not reset the open segment, so a second pause posts
  the same segment again. For well-formed intervals the second post leaves
  the progress as the first one stored it, even when the sweep has already
  lengthened the stored copy. An inverted segment that is not absorbed
  lowers the total once per post.
- A seek while playing stretches the open segment over the skipped part, or
  inverts it.

## Model

| member | source | states |
|---|---|---|
| Intervals.Pick | server/models/VideoProgress.js:53 | the copy holds the stored interval at each index of the order, in that order; SortOrderElements gives its meaning |
| Intervals.InsertByStart | server/models/VideoProgress.js:53 | one insertion step of the stable sort: the order grows by the one index, after every index with a start not larger; InsertByStartSorted, InsertByStartDistinct, InsertByStartElements and InsertByStartStable give its meaning |
| Intervals.SortOrder | server/models/VideoProgress.js:53 | the stable sort order of the stored list, which the sweep reads directly; SortOrderSorted, SortOrderDistinct, SortOrderElements and SortOrderStable give its meaning |
| Intervals.SortOrderStable | server/models/VideoProgress.js:53 | two stored intervals with equal starts keep their stored order in the sort order, as a stable `sort` leaves them |
| Intervals.InsertByStartStable | server/models/VideoProgress.js:53 | inserting an index larger than every index of a sorted, stable order keeps equal starts in index order |
| Intervals.SortByStart | server/models/VideoProgress.js:53 | the sorted copy has the same length and the same intervals (as a multiset) as the stored list, and its starts are in order |
| Intervals.InsertByStartSorted | server/models/VideoProgress.js:53 | inserting an index after every index whose start is not larger keeps the order sorted by start |
| Intervals.InsertByStartDistinct | server/models/VideoProgress.js:53 | inserting a new index into an order without repeats gives an order without repeats |
| Intervals.InsertByStartElements | server/models/VideoProgress.js:53 | the inserted order picks the old intervals plus the inserted one |
| Intervals.SortOrderSorted | server/models/VideoProgress.js:53 | the stable sort order of the stored list is sorted by start |
| Intervals.SortOrderDistinct | server/models/VideoProgress.js:53 | the stable sort order lists no index twice |
| Intervals.SortOrderElements | server/models/VideoProgress.js:53 | the stable sort order picks every stored interval exactly once |
| Intervals.MergeFromCover | server/models/VideoProgress.js:59-70 | sweeping a sorted tail from a current interval covers exactly the points the current interval and the tail cover |
| Intervals.MergeFromSeparated | server/models/VideoProgress.js:59-70 | every merged interval starts strictly after the previous one ends |
| Intervals.MergeShape | server/models/VideoProgress.js:56-70 | the merge of a sorted list is sorted by start, separated, covers the same points, and is canonical when the input is well-formed |
| Intervals.MergedIsCanonical | server/models/VideoProgress.js:53-70 | for well-formed intervals the merged sorted copy is canonical and covers exactly the stored points |
| Intervals.CanonicalUnique | server/models/VideoProgress.js:56-70 | two canonical lists that cover the same points are equal, so for well-formed intervals (MergedIsCanonical) the merge result is determined by the covered points |
| Intervals.TotalIsMeasure | server/models/VideoProgress.js:53-75 | for well-formed intervals the total equals the summed length of any canonical list covering the same points: the measure of their union |
| Intervals.TotalDependsOnlyOnCover | server/models/VideoProgress.js:53-75 | two well-formed lists that cover the same points have the same total |
| Intervals.TotalPermutationInvariant | server/models/VideoProgress.js:53-75 | for well-formed intervals, the total does not depend on the order of the stored intervals |
| Intervals.TotalDuplicateAppend | server/models/VideoProgress.js:53-75 | for well-formed intervals, appending a copy of a stored interval leaves the total unchanged |
| Intervals.SumLengthsPermutation | server/models/VideoProgress.js:73-75 | the summed lengths do not depend on the order of the list |
| Intervals.TotalAtMostSumOfLengths | server/models/VideoProgress.js:59-75 | for well-formed intervals, 0 <= total <= the sum of the individual lengths |
| Intervals.TotalWithinSpan | server/models/VideoProgress.js:59-75 | for well-formed intervals that all lie in [lo, hi], the total lies in [0, hi - lo] |
| Intervals.TotalOfNothing | server/models/VideoProgress.js:50 | no intervals give total 0 |
| Intervals.TotalOfTouching | server/models/VideoProgress.js:62-64 | [0, 10] and [10, 20] touch and merge: total 20 |
| Intervals.TotalOfOverlapping | server/models/VideoProgress.js:62-64 | [5, 15] and [0, 10] overlap and merge: total 15 |
| Intervals.TotalOfSeparate | server/models/VideoProgress.js:65-67 | [0, 5] and [7, 10] stay apart: total 8 |
| Intervals.TotalOfInverted | server/models/VideoProgress.js:73-75 | the inverted interval [12, 11] is summed as -1: [0, 10] and [12, 11] give 9 |
| Intervals.TotalOfInvertedAlone | server/models/VideoProgress.js:49-76 | [12, 11] alone gives -1 |
| Intervals.TotalOfInvertedTwice | server/models/VideoProgress.js:49-76 | [12, 11] twice gives -2: a repeated inverted interval counts twice |
| Intervals.TotalDependsOnOrderWhenInverted | server/models/VideoProgress.js:53-75 | [5, 10] then [5, 3] give 5, but [5, 3] then [5, 10] give 3: with an inverted interval the order matters |
| Intervals.TotalOfAbsorbedInverted | server/models/VideoProgress.js:62-64 | [0, 30] and [30, 12] give 30: an inverted interval starting inside the current one is absorbed |
| Intervals.SingleTotal | server/models/VideoProgress.js:49-76 | one interval's total is its own end minus start, whatever its direction |
| Intervals.SortsInPlace | server/models/VideoProgress.js:53 | two intervals already in start order, equal starts included, keep their order |
| Intervals.MergeJoinsTwo | server/models/VideoProgress.js:62-64 | a second interval starting at or before the first one's end merges into one interval up to the larger end |
| Intervals.MergeKeepsApart | server/models/VideoProgress.js:65-67 | a second interval starting after the first one's end stays separate |
| Intervals.MergeFrom | server/models/VideoProgress.js:59-70 | the sweep from a current interval; the result starts where the current interval starts and is never empty; its meaning is given by MergeFromCover, MergeFromSeparated and MergeShape |
| Intervals.Merge | server/models/VideoProgress.js:56-70 | the merge of the sorted copy, empty for no intervals; its meaning is given by MergeShape and MergedIsCanonical |
| Intervals.SumLengths | server/models/VideoProgress.js:73-75 | the reduce of end - start over a list; SumLengthsPermutation shows the order of the list does not matter |
| Intervals.TotalWatchedTime | server/models/VideoProgress.js:49-76 | 0 for no intervals, otherwise the summed lengths of the merged sorted copy; TotalIsMeasure gives its meaning |
| VideoProgressModel.Percent | server/models/VideoProgress.js:81 | (total / videoLength) * 100 on JavaScript numbers; ProgressInRange and ZeroLengthProgress give its range |
| VideoProgressModel.Sweep | server/models/VideoProgress.js:53-70 | the stored list after the in-place sweep and the merged list, on the stable sort order of the stored list; SweepMerges and SweepStored give their meaning |
| VideoProgressModel.SweepFrom | server/models/VideoProgress.js:59-70 | one turn of the sweep: extend the current interval and write its end back to the stored list, or close it and move on; SweepFromMerges and SweepFromExtends give its meaning |
| VideoProgressModel.Updated | server/models/VideoProgress.js:79-83 | the document after updateProgress: intervals as the sweep leaves them, progress from the total; UpdatedIsStable gives its meaning |
| VideoProgressModel.Divide | server/models/VideoProgress.js:81 | division by a non-zero length is the exact quotient; by zero it is not a finite number |
| VideoProgressModel.SweepFromMerges | server/models/VideoProgress.js:59-70 | the list the in-place sweep builds from a position equals the value merge of the rest of the sorted copy: the write-back only touches the current interval, which the sweep never reads again once closed |
| VideoProgressModel.SweepMerges | server/models/VideoProgress.js:53-70 | the merged list of the in-place sweep is the merge of the sorted copy |
| VideoProgressModel.SweepFromExtends | server/models/VideoProgress.js:62-64 | each write-back keeps starts, only moves ends later, and keeps every rewritten interval inside points the original list covers |
| VideoProgressModel.SweepStored | server/models/VideoProgress.js:53-70 | after the sweep the stored list has the same length and starts, ends only later, covers exactly the same points, and stays well-formed |
| VideoProgressModel.SweepKeepsTotal | server/models/VideoProgress.js:64 | for well-formed intervals, the rewritten stored list has the same total as before |
| VideoProgressModel.SweepTotal | server/models/VideoProgress.js:73-75 | the sum over the merged list of the sweep is the total of the stored list |
| VideoProgressModel.UpdatedIsStable | server/models/VideoProgress.js:79-83 | for well-formed intervals, the stored progress is the one the rewritten intervals give, and a second update stores the same progress |
| VideoProgressModel.ProgressInRange | server/models/VideoProgress.js:81 | with a positive length and well-formed intervals all inside [0, length], progress is finite and in [0, 100] |
| VideoProgressModel.ZeroLengthProgress | server/models/VideoProgress.js:81 | a zero video length gives a progress that is not finite, and NaN when nothing was watched |
| VideoProgressModel.VideoProgress.Load | server/routes/progress.js:29-32 | the document `findOne` returns holds exactly the stored fields |
| VideoProgressModel.VideoProgress.constructor | server/models/VideoProgress.js:14-36 | a new document holds the given fields and progress 0 |
| VideoProgressModel.VideoProgress.CalculateTotalWatchedTime | server/models/VideoProgress.js:49-76 | returns the total of the stored intervals and leaves the stored list as the in-place sweep rewrites it |
| VideoProgressModel.VideoProgress.UpdateProgress | server/models/VideoProgress.js:79-83 | stores and returns total / videoLength * 100 and rewrites the intervals as the sweep does; nothing else changes |
| ProgressRoutes.Lookup | server/routes/progress.js:29-32 | not found exactly when no document has the key, otherwise that document |
| ProgressRoutes.OneRecordPerPair | server/models/VideoProgress.js:46 | no two stored documents share a (userId, videoId) pair |
| ProgressRoutes.PutKeepsValid | server/routes/progress.js:29-53 | saving a storable document under its own pair keeps every document under its pair, none with a NaN progress, and the creation order listing each stored key once, a new pair going last |
| ProgressRoutes.Storable | server/models/VideoProgress.js:29-32 | the save casts `progress` to Number and refuses NaN, so the POST answers 500; Post, PutKeepsValid and ZeroLengthFirstPost give its meaning |
| ProgressRoutes.ToJson | server/routes/progress.js:18 | the JSON of a document keeps its fields, and its progress is a number exactly when the stored progress is finite, then the same number |
| ProgressRoutes.JsonList | server/routes/progress.js:63 | the JSON array has one entry per listed document, each the JSON of that document |
| ProgressRoutes.ToJsonNumber | server/routes/progress.js:63 | the JSON of a progress is a number exactly when the progress is finite, and then the same number; NaN and the infinities become null |
| ProgressRoutes.JsonListMembers | server/routes/progress.js:63 | the JSON array holds exactly the JSON form of each listed document |
| ProgressRoutes.ListedJsonMembers | server/routes/progress.js:62-63 | over all stored keys, the JSON list holds exactly the JSON form of the caller's stored documents |
| ProgressRoutes.Loaded | server/routes/progress.js:29-47 | the document before updateProgress: a new one with the single interval, the request's length and lastWatchedTime = endTime, or the found one with the interval pushed; PostCreates and PostAppends give its meaning |
| ProgressRoutes.Posted | server/routes/progress.js:29-50 | the loaded document after updateProgress; PostCreates, PostAppends and PostProgressMatchesIntervals give its meaning |
| ProgressRoutes.RecordsOf | server/routes/progress.js:62 | the caller's documents in the order of the keys; RecordsOfMembers and RecordsOfEvery give its meaning |
| ProgressRoutes.PostCreates | server/routes/progress.js:34-42 | the first POST stores exactly one interval [startTime, endTime], the request's video length, lastWatchedTime = endTime, and the progress of that interval |
| ProgressRoutes.PostAppends | server/routes/progress.js:43-47 | a later POST appends the interval at the end; earlier intervals keep order and starts, and ends only grow; the list covers the old points plus the new interval; the first video length stays; lastWatchedTime = endTime |
| ProgressRoutes.PostProgressMatchesIntervals | server/routes/progress.js:50 | after a POST of a well-formed interval onto well-formed stored intervals (or onto no document) the stored progress is the one the stored intervals give, and lastWatchedTime is the request's endTime |
| ProgressRoutes.RepostKeepsProgress | server/routes/progress.js:45-50 | for well-formed stored intervals whose stored progress is the one they give, posting any well-formed interval they already cover leaves the stored progress unchanged |
| ProgressRoutes.DoublePostKeepsProgress | server/routes/progress.js:29-50 | posting the same well-formed segment twice, as a double pause does, leaves the progress the first post stored, on a new or an existing well-formed document, even though the sweep rewrote the stored ends |
| ProgressRoutes.FirstPostCovers | server/routes/progress.js:29-50 | after a post of a well-formed interval onto well-formed intervals, the stored intervals are well-formed and cover the posted interval |
| Intervals.TotalCoveredAppend | server/models/VideoProgress.js:49-76 | for well-formed intervals, appending a well-formed interval they already cover leaves the total unchanged |
| ProgressRoutes.RecordsOfMembers | server/routes/progress.js:62 | a document is listed exactly when one of the keys holds it and its userId is the caller's |
| ProgressRoutes.RecordsOfEvery | server/routes/progress.js:62 | over all stored keys, the listed documents are exactly the caller's stored documents |
| ProgressRoutes.ProgressStore.Get | server/routes/progress.js:7-22 | returns not found exactly when no document exists for the pair, otherwise that document as JSON, and changes nothing |
| ProgressRoutes.ProgressStore.Post | server/routes/progress.js:25-57 | a document with a NaN progress is refused (500) and nothing changes; otherwise it stores the created or appended and recomputed document, returns it as JSON, changes no other key, records creation order, and keeps one document per pair |
| ProgressRoutes.ProgressStore.List | server/routes/progress.js:60-67 | returns as JSON, in creation order, exactly the stored documents whose userId is the caller's |
| VideoPlayer.Frontier | client/src/components/VideoPlayer.js:27-32 | the frontier never decreases during the walk |
| VideoPlayer.FrontierStep | client/src/components/VideoPlayer.js:28-31 | one turn of the loop: stop at an interval starting after the frontier, otherwise move to the larger of frontier and end |
| VideoPlayer.ResumePosition | client/src/components/VideoPlayer.js:24-34 | the loop with its early exit computes the frontier walk over the sorted copy, and the result is where the watched prefix ends |
| VideoPlayer.FrontierCovered | client/src/components/VideoPlayer.js:27-32 | every point the frontier passes over is covered by some interval |
| VideoPlayer.FrontierSplits | client/src/components/VideoPlayer.js:27-32 | on sorted intervals every interval ends by the final frontier or starts after it |
| VideoPlayer.FrontierAtMost | client/src/components/VideoPlayer.js:25-31 | the frontier never passes a bound on the ends that it starts below |
| VideoPlayer.ResumeAtMost | client/src/components/VideoPlayer.js:24-32 | the resume position is at least 0 and at most any bound on the ends that is at least 0 |
| VideoPlayer.ResumeIsFirstGap | client/src/components/VideoPlayer.js:24-32 | every point in [0, resume] is watched when resume > 0, and some stretch right after resume is not |
| VideoPlayer.FirstGapUnique | client/src/components/VideoPlayer.js:24-32 | only one point ends the watched prefix |
| VideoPlayer.ResumeAtFirstGap | client/src/components/VideoPlayer.js:24-32 | any point that ends the watched prefix is the resume position |
| VideoPlayer.ResumeDependsOnlyOnCover | client/src/components/VideoPlayer.js:24-32 | two lists covering the same points resume at the same position, whatever their order |
| VideoPlayer.ResumeAdjacent | client/src/components/VideoPlayer.js:28-31 | [0, 10] and [10, 20] resume at 20 |
| VideoPlayer.ResumeBeforeGap | client/src/components/VideoPlayer.js:28-29 | [0, 5] and [7, 10] resume at 5 |
| VideoPlayer.ResumeUnordered | client/src/components/VideoPlayer.js:24-29 | [5, 10] and [0, 3] resume at 3 |
| VideoPlayer.ResumeAtStart | client/src/components/VideoPlayer.js:25-29 | [5, 10] resumes at 0 |
| VideoPlayer.PlaybackTracker.constructor | client/src/components/VideoPlayer.js:9-10 | not playing, open segment {0, 0}, nothing posted |
| VideoPlayer.PlaybackTracker.HandlePlay | client/src/components/VideoPlayer.js:52-56 | playing, and the open segment is {t, t} at the current time; nothing posted |
| VideoPlayer.PlaybackTracker.HandleProgress | client/src/components/VideoPlayer.js:43-50 | while playing only the segment's end changes, to the played position; otherwise nothing changes |
| VideoPlayer.PlaybackTracker.HandlePause | client/src/components/VideoPlayer.js:58-79 | stops playing and posts the open segment exactly when start != end; the segment is kept; posted segments are never empty |
| VideoPlayer.PlayThenPause | client/src/components/VideoPlayer.js:43-79 | play at 5, progress to 9, pause posts [5, 9] |
| VideoPlayer.PauseWithoutProgress | client/src/components/VideoPlayer.js:58-61 | a pause straight after play posts nothing |
| VideoPlayer.ProgressWhilePaused | client/src/components/VideoPlayer.js:43-50 | progress while paused is ignored and the pause posts nothing |
| VideoPlayer.DoublePauseResubmits | client/src/components/VideoPlayer.js:58-74 | a second pause posts the same segment again |
| VideoPlayer.SeekBackPostsInverted | client/src/components/VideoPlayer.js:43-74 | a seek back while playing posts the inverted segment [30, 12] |
| VideoPlayer.SeekForwardCountsSkipped | client/src/components/VideoPlayer.js:43-74 | a seek forward while playing posts one segment over the skipped part |
| Dashboard.NatToString | client/src/components/Dashboard.js:74 | a whole number prints as a non-empty string of digits |
| Dashboard.NatToStringValue | client/src/components/Dashboard.js:74 | the printed digits read back as the number |
| Dashboard.PaddedValue | client/src/components/Dashboard.js:74 | a number below 100 pads to exactly two digits with the same value |
| Dashboard.FloorOfQuotient | client/src/components/Dashboard.js:70-71 | the floor of a non-negative time over a whole divisor is the whole seconds divided by it |
| Dashboard.ClockFieldsSplit | client/src/components/Dashboard.js:69-72 | for a time s >= 0: hours = floor(s) / 3600, minutes = (floor(s) mod 3600) / 60 in 0..59, seconds = floor(s) mod 60 in 0..59, and hours*3600 + minutes*60 + seconds = floor(s) |
| Dashboard.ParseFields | client/src/components/Dashboard.js:74 | unpadded hours, colon, two-digit minutes, colon, two-digit seconds read back as the seconds they stand for |
| Dashboard.FormatTimeRoundTrip | client/src/components/Dashboard.js:69-75 | reading the printed time back as h:mm:ss gives the whole seconds of any non-negative time |
| Dashboard.FormatTimeSameSecond | client/src/components/Dashboard.js:69-75 | two non-negative times print the same exactly when they have the same whole seconds |
| Dashboard.FormatTimeOfZero | client/src/components/Dashboard.js:69-75 | 0 prints as 0:00:00 |
| Dashboard.FormatTimeOfHour | client/src/components/Dashboard.js:69-75 | 3725.5 prints as 1:02:05 |
| Dashboard.FormatTimeOfNegative | client/src/components/Dashboard.js:69-75 | -30 prints as -1:-1:-30 |
| Dashboard.JsRem | client/src/components/Dashboard.js:71-72 | JavaScript's `%`, truncating toward zero; FormatTimeOfNegative shows the negative fields it gives |
| Dashboard.IntToString | client/src/components/Dashboard.js:74 | `toString()` of a whole number, with a minus sign when negative; NatToStringValue gives its meaning |
| Dashboard.PadStart2 | client/src/components/Dashboard.js:74 | `padStart(2, '0')`: the result has at least two characters; PaddedValue gives its meaning |
| Dashboard.ClockFields | client/src/components/Dashboard.js:70-72 | hours, minutes and seconds as the three lines compute them; ClockFieldsSplit gives their meaning |
| Dashboard.FormatTime | client/src/components/Dashboard.js:69-75 | the h:mm:ss text; FormatTimeRoundTrip and FormatTimeSameSecond give its meaning |
| Dashboard.Card | client/src/components/Dashboard.js:40-48 | a video with the progress and lastWatchedTime of the first document for it, or 0 and 0; JoinShowsOwnRecord and JoinDefaultsUnwatched give its meaning |
| Dashboard.FindProgress | client/src/components/Dashboard.js:40 | not found exactly when no document has the video's id, otherwise the first such document |
| Dashboard.JoinProgress | client/src/components/Dashboard.js:39-49 | one card per video, in the same order, each keeping its video |
| Dashboard.JoinShowsOwnRecord | client/src/components/Dashboard.js:40-48 | with one document per video, a video's card carries that document's progress and lastWatchedTime |
| Dashboard.JoinDefaultsUnwatched | client/src/components/Dashboard.js:40-43 | a video with no document gets progress 0 and lastWatchedTime 0 |
| Dashboard.ListedVideosDistinct | server/routes/progress.js:62 | the list route never returns two documents for the same video, because of the unique index |
| Dashboard.DashboardShowsStoredProgress | client/src/components/Dashboard.js:39-49 | over the list route's JSON, each card shows the caller's stored document for the video, with its progress as JSON writes it (null when not finite), or 0 and 0 when there is none |
| Dashboard.UnwatchedStarts | client/src/components/Dashboard.js:159 | a video with no document is labelled "Start Watching" |
| Dashboard.IsPositive | client/src/components/Dashboard.js:159 | `video.progress > 0` on the JSON value: true exactly for a number above 0, false for null; ButtonLabel, ContinueAfterFirstPost and ZeroLengthVideoLabel give its meaning |
| Dashboard.ButtonLabel | client/src/components/Dashboard.js:159 | "Continue Watching" exactly when the progress sent is a number above 0; `null > 0` is false; UnwatchedStarts, ContinueAfterFirstPost and ZeroLengthVideoLabel give its meaning |
| Dashboard.ContinueAfterFirstPost | client/src/components/Dashboard.js:159 | after a first forward segment on a video of positive length, the document is saved and the label is "Continue Watching" |
| Dashboard.PositivePercent | server/models/VideoProgress.js:81 | a positive total over a positive length gives a finite progress above 0 |
| Dashboard.ZeroLengthFirstPost | server/models/VideoProgress.js:81 | with video length 0, a first forward segment gives Infinity, which is saved, and an empty one gives NaN, which the save refuses |
| Dashboard.ZeroLengthVideoLabel | client/src/components/Dashboard.js:159 | once a document holds length 0, every post gives a progress that is not finite: NaN, which the save refuses so nothing is sent, or an infinity, which is saved and sent as null, so a saved document is labelled "Start Watching" |

## Left out

- HTTP, Express routing, the `auth` middleware, Mongoose `findOne`, `save` and `find`, and the 500 error paths other than the refused NaN progress. The store is an in-memory map, and the caller's user id is a parameter.
- Mongoose's casting of other fields. The model only has the refusal of a NaN `progress`; intervals and times are finite reals.
- Concurrent requests on the same pair. Each route runs to completion before the next one starts.
- The `lastUpdated` field and the schema timestamps of the progress document, and the `createdAt` field of a video. They are clocks.
- `find` returning documents in creation order. The database does not promise this; the model assumes it.
- IEEE-754 rounding. Seconds and progress are exact reals, so sums do not depend on the order of the additions.
- The player's network calls. A post is recorded in `submitted`. A failed load leaves the resume position at 0; that includes the 404 for a video with no progress.
- `Math.floor` of the resume position passed to the player (client/src/components/VideoPlayer.js:118).
- The `Math.round` progress text (client/src/components/Dashboard.js:139) and the progress bar (client/src/components/Dashboard.js:141-145).
- React state, rendering and `useEffect` timing, including closures that see stale state.
- `formatTime` of a value that is not a number, such as a missing `lastWatchedTime`.
- Intervals.TotalPermutationInvariant: stated for well-formed intervals only. With an inverted interval the order matters (TotalDependsOnOrderWhenInverted).
- Intervals.TotalDuplicateAppend: stated for well-formed intervals only. A repeated inverted interval counts twice (TotalOfInvertedAlone, TotalOfInvertedTwice).
- ProgressRoutes.RepostKeepsProgress: stated for well-formed intervals only, and for a document whose progress is the one its intervals give, as every post onto well-formed stored intervals leaves it (PostProgressMatchesIntervals). A second pause after a seek back posts an inverted segment again, and that can lower the progress again.
- ProgressRoutes.DoublePostKeepsProgress: stated for a well-formed segment and well-formed stored intervals only, for the same reason.
- ProgressRoutes.PostProgressMatchesIntervals: stated for a new document or one whose stored intervals are well-formed only. A document that already holds an inverted segment, which a seek back posts (SeekBackPostsInverted), is outside it, because the sweep is not shown to keep the total of such a list.
- VideoProgressModel.SweepKeepsTotal, VideoProgressModel.UpdatedIsStable: stated for well-formed intervals only. The model does not claim the total of a list with inverted intervals survives the rewrite.
- Intervals.TotalIsMeasure: stated for well-formed intervals only. With an inverted interval the total is no longer a measure; TotalOfInverted shows the value the code computes then.
- Dashboard.FormatTimeRoundTrip: stated for non-negative times only. A negative time prints negative fields (FormatTimeOfNegative) that do not read back.
- ProgressRoutes.PostAppends: the earlier intervals keep their order and starts, but not always their ends. The code lengthens them in place when it computes the total.
