/** The progress routes of server/routes/progress.js as operations on an
    in-memory store of progress documents, keyed by the unique
    (userId, videoId) index of server/models/VideoProgress.js:46. The caller's
    user id is what the authentication middleware supplies. */
module ProgressRoutes {
  import opened Intervals
  import opened VideoProgressModel

  datatype Option<T> = None | Some(value: T)

  type Key = (UserId, VideoId)

  function Lookup(records: map<Key, ProgressRecord>, key: Key): (r: Option<ProgressRecord>)
    ensures r.None? <==> key !in records
    ensures r.Some? ==> key in records && r.value == records[key]
  {
    if key in records then Some(records[key]) else None
  }

  /** Every stored document carries the pair it is stored under. */
  ghost predicate KeyedByPair(records: map<Key, ProgressRecord>)
  {
    forall key :: key in records ==> records[key].userId == key.0 && records[key].videoId == key.1
  }

  /** The unique index: no two stored documents share a (userId, videoId)
      pair. */
  lemma OneRecordPerPair(records: map<Key, ProgressRecord>, k1: Key, k2: Key)
    requires KeyedByPair(records) && k1 in records && k2 in records
    requires records[k1].userId == records[k2].userId && records[k1].videoId == records[k2].videoId
    ensures k1 == k2
  {
  }

  /** `save()` casts `progress` to the schema's Number type
      (server/models/VideoProgress.js:29-32), and that cast refuses NaN: the
      save fails and nothing is written. Infinities pass. */
  predicate Storable(p: ProgressRecord)
  {
    !p.progress.NaN?
  }

  /** A number as `res.json` writes it: `JSON.stringify` writes NaN and the
      infinities as `null`. */
  datatype JsonNumber = JsonNum(value: real) | JsonNull

  function ToJsonNumber(n: Number): (j: JsonNumber)
    ensures j.JsonNum? <==> n.Finite?
    ensures n.Finite? ==> j.value == n.value
  {
    if n.Finite? then JsonNum(n.value) else JsonNull
  }

  /** A progress document as the routes send it. */
  datatype ProgressJson = ProgressJson(
    userId: UserId,
    videoId: VideoId,
    watchedIntervals: seq<Interval>,
    lastWatchedTime: real,
    progress: JsonNumber,
    videoLength: real)

  /** The JSON of a document: the same fields, with a progress that is a
      number exactly when the stored one is finite. */
  function ToJson(p: ProgressRecord): (j: ProgressJson)
    ensures j.userId == p.userId && j.videoId == p.videoId && j.watchedIntervals == p.watchedIntervals
    ensures j.lastWatchedTime == p.lastWatchedTime && j.videoLength == p.videoLength
    ensures j.progress.JsonNum? <==> p.progress.Finite?
    ensures p.progress.Finite? ==> j.progress.value == p.progress.value
  {
    ProgressJson(p.userId, p.videoId, p.watchedIntervals, p.lastWatchedTime, ToJsonNumber(p.progress), p.videoLength)
  }

  /** The JSON array `res.json` writes for a list of documents. */
  function JsonList(rs: seq<ProgressRecord>): (r: seq<ProgressJson>)
    ensures |r| == |rs| && forall k :: 0 <= k < |rs| ==> r[k] == ToJson(rs[k])
  {
    seq(|rs|, k requires 0 <= k < |rs| => ToJson(rs[k]))
  }

  lemma JsonListAppend(rs: seq<ProgressRecord>, extra: seq<ProgressRecord>)
    ensures JsonList(rs + extra) == JsonList(rs) + JsonList(extra)
  {
  }

  /** What the JSON array holds: the JSON form of each listed document. */
  lemma JsonListMembers(rs: seq<ProgressRecord>)
    ensures forall q :: q in JsonList(rs) <==> exists p :: p in rs && q == ToJson(p)
  {
    forall q | exists p :: p in rs && q == ToJson(p)
      ensures q in JsonList(rs)
    {
      var p :| p in rs && q == ToJson(p);
      var k :| 0 <= k < |rs| && rs[k] == p;
      assert JsonList(rs)[k] == q;
    }
  }

  /** The document `POST /:videoId` saves, given the one `findOne` found
      (lines 29-50): a new document holds the one interval, with
      `lastWatchedTime = endTime` and the request's `videoLength`; an existing
      one gets the interval pushed and `lastWatchedTime = endTime`. Then
      `updateProgress` runs. */
  function Posted(existing: Option<ProgressRecord>, userId: UserId, videoId: VideoId,
                  startTime: real, endTime: real, videoLength: real): ProgressRecord
  {
    Updated(Loaded(existing, userId, videoId, startTime, endTime, videoLength))
  }

  /** The document as the handler has it just before `updateProgress`. */
  function Loaded(existing: Option<ProgressRecord>, userId: UserId, videoId: VideoId,
                  startTime: real, endTime: real, videoLength: real): ProgressRecord
  {
    match existing
    case None =>
      ProgressRecord(userId, videoId, [Interval(startTime, endTime)], endTime, Finite(0.0), videoLength)
    case Some(p) =>
      p.(watchedIntervals := p.watchedIntervals + [Interval(startTime, endTime)], lastWatchedTime := endTime)
  }

  /** Whatever `findOne` found for the pair, the document keeps the pair,
      before and after `updateProgress`. */
  lemma LoadedKeepsPair(existing: Option<ProgressRecord>, userId: UserId, videoId: VideoId,
                        startTime: real, endTime: real, videoLength: real)
    requires existing.Some? ==> existing.value.userId == userId && existing.value.videoId == videoId
    ensures var loaded := Loaded(existing, userId, videoId, startTime, endTime, videoLength);
      loaded.userId == userId && loaded.videoId == videoId &&
      Updated(loaded).userId == userId && Updated(loaded).videoId == videoId
  {
  }

  /** The first POST for a pair creates a document with exactly the one
      interval, the request's video length, `lastWatchedTime = endTime` and
      the progress of that single interval. */
  lemma PostCreates(userId: UserId, videoId: VideoId, startTime: real, endTime: real, videoLength: real)
    ensures var r := Posted(None, userId, videoId, startTime, endTime, videoLength);
      r.userId == userId && r.videoId == videoId &&
      r.watchedIntervals == [Interval(startTime, endTime)] &&
      r.lastWatchedTime == endTime && r.videoLength == videoLength &&
      r.progress == Percent(endTime - startTime, videoLength)
  {
    var ws := [Interval(startTime, endTime)];
    assert SortOrder(ws, 1) == [0];
    assert SortByStart(ws) == ws;
    assert Sweep(ws) == (ws, ws);
    assert Merge(ws) == ws;
    assert SumLengths(ws) == endTime - startTime;
  }

  /** A later POST appends the interval at the end. The earlier intervals
      keep their order and starts; the sweep of `updateProgress` may move
      their ends later, but the stored list covers exactly the points the old
      list and the new interval cover. The video length of the first write
      stays, whatever the request says, and `lastWatchedTime` is the request's
      `endTime`. */
  lemma PostAppends(p: ProgressRecord, startTime: real, endTime: real, videoLength: real)
    ensures var r := Posted(Some(p), p.userId, p.videoId, startTime, endTime, videoLength);
      var n := |p.watchedIntervals|;
      r.userId == p.userId && r.videoId == p.videoId &&
      |r.watchedIntervals| == n + 1 &&
      (forall j :: 0 <= j < n ==>
         r.watchedIntervals[j].start == p.watchedIntervals[j].start &&
         p.watchedIntervals[j].end <= r.watchedIntervals[j].end) &&
      r.watchedIntervals[n].start == startTime && endTime <= r.watchedIntervals[n].end &&
      SameCover(r.watchedIntervals, p.watchedIntervals + [Interval(startTime, endTime)]) &&
      r.videoLength == p.videoLength && r.lastWatchedTime == endTime
  {
    var ws := p.watchedIntervals + [Interval(startTime, endTime)];
    SweepStored(ws);
    var now := Sweep(ws).0;
    assert forall j :: 0 <= j < |p.watchedIntervals| ==> ws[j] == p.watchedIntervals[j];
    assert ws[|p.watchedIntervals|] == Interval(startTime, endTime);
  }

  /** After a POST of a well-formed interval onto a new document or onto
      well-formed stored intervals, the stored progress is the one the
      stored intervals give, whatever the merge did to them. */
  lemma PostProgressMatchesIntervals(existing: Option<ProgressRecord>, userId: UserId, videoId: VideoId,
                                     startTime: real, endTime: real, videoLength: real)
    requires startTime <= endTime
    requires existing.Some? ==> WellFormed(existing.value.watchedIntervals)
    ensures var r := Posted(existing, userId, videoId, startTime, endTime, videoLength);
      r.progress == Percent(TotalWatchedTime(r.watchedIntervals), r.videoLength) &&
      r.lastWatchedTime == endTime
  {
    UpdatedIsStable(Loaded(existing, userId, videoId, startTime, endTime, videoLength));
  }

  /** Posting a well-formed interval that the stored intervals already
      cover leaves the stored progress as it was, when that progress is the
      one the stored intervals give (PostProgressMatchesIntervals). */
  lemma RepostKeepsProgress(p: ProgressRecord, iv: Interval, videoLength: real)
    requires WellFormed(p.watchedIntervals) && iv.start <= iv.end
    requires CoveredBy(iv, p.watchedIntervals)
    requires p.progress == Percent(TotalWatchedTime(p.watchedIntervals), p.videoLength)
    ensures Posted(Some(p), p.userId, p.videoId, iv.start, iv.end, videoLength).progress == p.progress
  {
    TotalCoveredAppend(p.watchedIntervals, iv);
  }

  /** A second pause posts the same segment again. Whatever the first post
      found, and however the sweep rewrote the stored ends, the second post
      leaves the progress as the first one stored it. */
  lemma DoublePostKeepsProgress(existing: Option<ProgressRecord>, userId: UserId, videoId: VideoId,
                                iv: Interval, videoLength: real)
    requires existing.Some? ==> WellFormed(existing.value.watchedIntervals) &&
                                existing.value.userId == userId && existing.value.videoId == videoId
    requires iv.start <= iv.end
    ensures var q := Posted(existing, userId, videoId, iv.start, iv.end, videoLength);
      Posted(Some(q), userId, videoId, iv.start, iv.end, videoLength).progress == q.progress
  {
    var q := Posted(existing, userId, videoId, iv.start, iv.end, videoLength);
    FirstPostCovers(existing, userId, videoId, iv, videoLength);
    PostProgressMatchesIntervals(existing, userId, videoId, iv.start, iv.end, videoLength);
    RepostKeepsProgress(q, iv, videoLength);
  }

  /** After a post the stored intervals are well-formed and cover the posted
      interval. */
  lemma FirstPostCovers(existing: Option<ProgressRecord>, userId: UserId, videoId: VideoId,
                        iv: Interval, videoLength: real)
    requires existing.Some? ==> WellFormed(existing.value.watchedIntervals) &&
                                existing.value.userId == userId && existing.value.videoId == videoId
    requires iv.start <= iv.end
    ensures var q := Posted(existing, userId, videoId, iv.start, iv.end, videoLength);
      WellFormed(q.watchedIntervals) && CoveredBy(iv, q.watchedIntervals) &&
      q.userId == userId && q.videoId == videoId
  {
    var ws := Loaded(existing, userId, videoId, iv.start, iv.end, videoLength).watchedIntervals;
    assert ws[|ws| - 1] == iv;
    SweepStored(ws);
    forall x | Contains(iv, x) ensures Covered(Sweep(ws).0, x) {
      assert Contains(ws[|ws| - 1], x);
    }
  }

  /** The documents of `userId`, in the order the keys list them. */
  function RecordsOf(userId: UserId, keys: seq<Key>, records: map<Key, ProgressRecord>): seq<ProgressRecord>
    requires forall key :: key in keys ==> key in records
  {
    if |keys| == 0 then []
    else
      var last := records[keys[|keys| - 1]];
      var front := keys[..|keys| - 1];
      assert forall j :: 0 <= j < |front| ==> front[j] == keys[j];
      RecordsOf(userId, front, records) + (if last.userId == userId then [last] else [])
  }

  /** A document is listed exactly when one of the keys holds it and it is
      the caller's. */
  lemma {:induction false} RecordsOfMembers(userId: UserId, keys: seq<Key>, records: map<Key, ProgressRecord>)
    requires forall key :: key in keys ==> key in records
    ensures forall q :: q in RecordsOf(userId, keys, records) <==>
      exists j :: 0 <= j < |keys| && records[keys[j]] == q && q.userId == userId
    decreases |keys|
  {
    if |keys| > 0 {
      var front := keys[..|keys| - 1];
      assert forall j :: 0 <= j < |front| ==> front[j] == keys[j];
      RecordsOfMembers(userId, front, records);
    }
  }

  /** When `keys` lists every stored key, the documents it gives are all of
      the caller's stored documents. */
  lemma RecordsOfEvery(userId: UserId, keys: seq<Key>, records: map<Key, ProgressRecord>)
    requires forall key :: key in records <==> key in keys
    ensures forall q :: q in RecordsOf(userId, keys, records) <==>
      exists key :: key in records && records[key] == q && q.userId == userId
  {
    RecordsOfMembers(userId, keys, records);
    forall q | exists key :: key in records && records[key] == q && q.userId == userId
      ensures q in RecordsOf(userId, keys, records)
    {
      var key :| key in records && records[key] == q && q.userId == userId;
      var j :| 0 <= j < |keys| && keys[j] == key;
    }
  }

  /** Over all stored keys, the JSON list holds exactly the JSON form of the
      caller's stored documents. */
  lemma ListedJsonMembers(userId: UserId, keys: seq<Key>, records: map<Key, ProgressRecord>)
    requires forall key :: key in records <==> key in keys
    ensures forall q :: q in JsonList(RecordsOf(userId, keys, records)) <==>
      exists key :: key in records && records[key].userId == userId && q == ToJson(records[key])
  {
    var rs := RecordsOf(userId, keys, records);
    RecordsOfEvery(userId, keys, records);
    JsonListMembers(rs);
    forall q | exists key :: key in records && records[key].userId == userId && q == ToJson(records[key])
      ensures q in JsonList(rs)
    {
      var key :| key in records && records[key].userId == userId && q == ToJson(records[key]);
      assert records[key] in rs;
    }
  }

  /** The store's invariant: each document sits under its own pair, none has
      a NaN progress, and the creation order lists every stored key exactly
      once. */
  ghost predicate StoreValid(records: map<Key, ProgressRecord>, created: seq<Key>)
  {
    KeyedByPair(records) &&
    (forall key :: key in records ==> Storable(records[key])) &&
    (forall key :: key in records <==> key in created) &&
    (forall j, k :: 0 <= j < k < |created| ==> created[j] != created[k])
  }

  /** Saving a storable document under its own pair keeps the invariant; a
      new pair goes to the end of the creation order. */
  lemma PutKeepsValid(records: map<Key, ProgressRecord>, created: seq<Key>, key: Key, r: ProgressRecord)
    requires StoreValid(records, created)
    requires r.userId == key.0 && r.videoId == key.1 && Storable(r)
    ensures StoreValid(records[key := r], if key in records then created else created + [key])
  {
  }

  /** The progress collection. `created` lists the keys in the order the
      documents were created, the order `find` returns them in. */
  class ProgressStore {
    var records: map<Key, ProgressRecord>
    var created: seq<Key>

    ghost predicate Valid()
      reads this
    {
      StoreValid(records, created)
    }

    constructor ()
      ensures Valid() && records == map[] && created == []
    {
      records := map[];
      created := [];
    }

    /** `GET /:videoId` (lines 7-22): the caller's document for the video as
        JSON, or not found. Nothing is created. */
    method Get(userId: UserId, videoId: VideoId) returns (r: Option<ProgressJson>)
      requires Valid()
      ensures r.None? <==> (userId, videoId) !in records
      ensures r.Some? ==> r.value == ToJson(records[(userId, videoId)]) && r.value.userId == userId && r.value.videoId == videoId
    {
      var key := (userId, videoId);
      if key !in records {
        return None;
      }
      r := Some(ToJson(records[key]));
    }

    /** `POST /:videoId` (lines 25-57), with the body's startTime, endTime
        and videoLength. `None` is the 500 response of a save that refuses
        the document; nothing is written then. */
    method Post(userId: UserId, videoId: VideoId, startTime: real, endTime: real, videoLength: real)
      returns (r: Option<ProgressJson>)
      requires Valid()
      modifies this
      ensures Valid()
      ensures var doc := Posted(Lookup(old(records), (userId, videoId)), userId, videoId, startTime, endTime, videoLength);
        r == if Storable(doc) then Some(ToJson(doc)) else None
      ensures r.None? ==> records == old(records) && created == old(created)
      ensures r.Some? ==> records == old(records)[(userId, videoId) :=
        Posted(Lookup(old(records), (userId, videoId)), userId, videoId, startTime, endTime, videoLength)]
      ensures r.Some? ==> created == if (userId, videoId) in old(records) then old(created) else old(created) + [(userId, videoId)]
      ensures forall key :: key != (userId, videoId) ==>
        (key in records <==> key in old(records)) && (key in records ==> records[key] == old(records)[key])
    {
      var key := (userId, videoId);
      ghost var loaded := Loaded(Lookup(records, key), userId, videoId, startTime, endTime, videoLength);
      LoadedKeepsPair(Lookup(records, key), userId, videoId, startTime, endTime, videoLength);
      var doc: VideoProgress;
      var order := created;
      if key !in records {
        doc := new VideoProgress(userId, videoId, videoLength, [Interval(startTime, endTime)], endTime);
        order := created + [key];
      } else {
        doc := new VideoProgress.Load(records[key]);
        doc.watchedIntervals := doc.watchedIntervals + [Interval(startTime, endTime)];
        doc.lastWatchedTime := endTime;
      }
      assert doc.ToRecord() == loaded;
      var _ := doc.UpdateProgress();
      var saved := doc.ToRecord();
      assert saved == Updated(loaded);
      if saved.progress.NaN? {
        return None;
      }
      PutKeepsValid(records, created, key, saved);
      records := records[key := saved];
      created := order;
      r := Some(ToJson(saved));
    }

    /** `GET /` (lines 60-67): every document whose userId is the caller's,
        in creation order, as JSON. */
    method List(userId: UserId) returns (r: seq<ProgressJson>)
      requires Valid()
      ensures r == JsonList(RecordsOf(userId, created, records))
      ensures forall q :: q in r <==> exists key :: key in records && records[key].userId == userId && q == ToJson(records[key])
    {
      r := [];
      var i := 0;
      while i < |created|
        invariant 0 <= i <= |created|
        invariant r == JsonList(RecordsOf(userId, created[..i], records))
      {
        var doc := records[created[i]];
        assert created[..i + 1][..i] == created[..i];
        if doc.userId == userId {
          JsonListAppend(RecordsOf(userId, created[..i], records), [doc]);
          r := r + [ToJson(doc)];
        } else {
          assert RecordsOf(userId, created[..i], records) + [] == RecordsOf(userId, created[..i], records);
        }
        i := i + 1;
      }
      assert created[..i] == created;
      ListedJsonMembers(userId, created, records);
    }
  }
}
