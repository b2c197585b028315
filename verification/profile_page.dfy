/**
 The watch-history view of app/profile/page.tsx (`fetchWatchHistory`):
 look up every logged video id in the catalog, drop the misses, and show
 at most twelve. `Promise.all` resolves the lookups positionally, so the
 result keeps the log's most-recent-first order.
 */
module ProfilePage {
  import opened Basics
  import opened VideoService
  import opened UserService

  /** The number of history videos the page shows. */
  const HistoryLimit := 12

  /** `Promise.all(preferences.map((pref) => getVideoById(pref.videoId)))`, over a given catalog. */
  function LookupAll(catalog: seq<Video>, log: seq<Preference>): (r: seq<Option<Video>>)
    ensures |r| == |log|
    ensures forall i :: 0 <= i < |log| ==> r[i] == Find(catalog, log[i].videoId)
  {
    seq(|log|, i requires 0 <= i < |log| => Find(catalog, log[i].videoId))
  }

  /** `videos.filter(Boolean).slice(0, 12)` over the lookups of a log in a given catalog. */
  function WatchHistory(catalog: seq<Video>, log: seq<Preference>): (r: seq<Video>)
    ensures |r| <= HistoryLimit
    ensures |r| == Min(HistoryLimit, |Somes(LookupAll(catalog, log))|)
    ensures r == Somes(LookupAll(catalog, log))[..|r|]
    ensures forall v :: v in r ==> v in catalog
    ensures forall v :: v in r ==> exists i :: 0 <= i < |log| && log[i].videoId == v.id
  {
    var hits := Somes(LookupAll(catalog, log));
    var r := SliceTo(hits, HistoryLimit);
    assert forall v :: v in r ==> v in hits;
    r
  }

  /** `fetchWatchHistory` against the fixed catalog. */
  function FetchWatchHistory(log: seq<Preference>): (r: seq<Video>)
    ensures |r| <= HistoryLimit
    ensures |r| == Min(HistoryLimit, |Somes(LookupAll(MockVideos, log))|)
    ensures r == Somes(LookupAll(MockVideos, log))[..|r|]
    ensures forall v :: v in r ==> v in MockVideos
    ensures forall v :: v in r ==> exists i :: 0 <= i < |log| && log[i].videoId == v.id
  {
    WatchHistory(MockVideos, log)
  }

  function Ids(videos: seq<Video>): (r: seq<string>)
    ensures |r| == |videos|
    ensures forall i :: 0 <= i < |videos| ==> r[i] == videos[i].id
  {
    seq(|videos|, i requires 0 <= i < |videos| => videos[i].id)
  }

  function LogIds(log: seq<Preference>): (r: seq<string>)
    ensures |r| == |log|
    ensures forall i :: 0 <= i < |log| ==> r[i] == log[i].videoId
  {
    seq(|log|, i requires 0 <= i < |log| => log[i].videoId)
  }

  lemma LookupAllTail(catalog: seq<Video>, log: seq<Preference>)
    requires |log| > 0
    ensures LookupAll(catalog, log)[1..] == LookupAll(catalog, log[1..])
    ensures LookupAll(catalog, log)[0] == Find(catalog, log[0].videoId)
  {
  }

  /** The found ids of a log: the head's id when it is found, then the found ids of the rest. */
  lemma HitIdsStep(catalog: seq<Video>, log: seq<Preference>)
    requires |log| > 0
    ensures Find(catalog, log[0].videoId).Some? ==>
      Ids(Somes(LookupAll(catalog, log))) == [log[0].videoId] + Ids(Somes(LookupAll(catalog, log[1..])))
    ensures Find(catalog, log[0].videoId).None? ==>
      Ids(Somes(LookupAll(catalog, log))) == Ids(Somes(LookupAll(catalog, log[1..])))
  {
    var lookups := LookupAll(catalog, log);
    LookupAllTail(catalog, log);
    SomesStep(lookups);
    if lookups[0].Some? {
      IdsCons(lookups[0].value, Somes(LookupAll(catalog, log[1..])));
    }
  }

  lemma IdsCons(v: Video, rest: seq<Video>)
    ensures Ids([v] + rest) == [v.id] + Ids(rest)
  {
  }

  lemma LogIdsStep(log: seq<Preference>)
    requires |log| > 0
    ensures LogIds(log) == [log[0].videoId] + LogIds(log[1..])
  {
  }

  lemma {:induction false} HitsFollowLog(catalog: seq<Video>, log: seq<Preference>)
    ensures IsSubsequence(Ids(Somes(LookupAll(catalog, log))), LogIds(log))
    decreases |log|
  {
    if |log| > 0 {
      var hits := Ids(Somes(LookupAll(catalog, log)));
      var rest := Ids(Somes(LookupAll(catalog, log[1..])));
      var x := log[0].videoId;
      HitsFollowLog(catalog, log[1..]);
      HitIdsStep(catalog, log);
      LogIdsStep(log);
      if Find(catalog, x).Some? {
        SubsequenceCons(x, rest, LogIds(log[1..]));
        assert hits == [x] + rest;
      } else {
        SubsequenceSkip(x, rest, LogIds(log[1..]));
        assert hits == rest;
      }
    }
  }

  /**
   The shown videos follow the log order: their ids, in display order, are
   a subsequence of the logged ids, most recent first.
   */
  lemma HistoryFollowsLogOrder(catalog: seq<Video>, log: seq<Preference>)
    ensures IsSubsequence(Ids(WatchHistory(catalog, log)), LogIds(log))
  {
    var hits := Somes(LookupAll(catalog, log));
    var shown := WatchHistory(catalog, log);
    HitsFollowLog(catalog, log);
    assert Ids(shown) == Ids(hits)[..|shown|];
    PrefixIsSubsequence(Ids(hits), |shown|);
    SubsequenceTransitive(Ids(shown), Ids(hits), LogIds(log));
  }

  /**
   No deduplication: before the cut to twelve, a catalog video appears once
   for every log entry that names it.
   */
  lemma {:induction false} RepeatWatchesKept(catalog: seq<Video>, log: seq<Preference>, v: Video)
    requires DistinctIds(catalog) && v in catalog
    ensures multiset(Somes(LookupAll(catalog, log)))[v] == CountVideo(log, v.id)
    decreases |log|
  {
    if |log| > 0 {
      var lookups := LookupAll(catalog, log);
      RepeatWatchesKept(catalog, log[1..], v);
      LookupAllTail(catalog, log);
      SomesStep(lookups);
      var i :| 0 <= i < |catalog| && catalog[i] == v;
      assert lookups[0] == Some(v) <==> log[0].videoId == v.id;
    }
  }

  /** Log entries that miss the catalog are dropped: nothing is shown for them, and any miss shortens the list. */
  lemma MissesDropped(catalog: seq<Video>, log: seq<Preference>)
    ensures forall v :: v in WatchHistory(catalog, log) ==> HasId(catalog, v.id)
    ensures |Somes(LookupAll(catalog, log))| == |log| ==> forall i :: 0 <= i < |log| ==> HasId(catalog, log[i].videoId)
  {
    var hits := Somes(LookupAll(catalog, log));
    forall v | v in WatchHistory(catalog, log) ensures HasId(catalog, v.id) {
      var i :| 0 <= i < |catalog| && catalog[i] == v;
    }
    if |hits| == |log| {
      forall i | 0 <= i < |log| ensures HasId(catalog, log[i].videoId) {
        if !HasId(catalog, log[i].videoId) {
          SomesDropsNone(LookupAll(catalog, log), i);
        }
      }
    }
  }

  lemma {:induction false} SomesDropsNone<T(!new)>(xs: seq<Option<T>>, i: nat)
    requires i < |xs| && xs[i].None?
    ensures |Somes(xs)| < |xs|
    decreases |xs|
  {
    SomesStep(xs);
    if i > 0 {
      SomesDropsNone(xs[1..], i - 1);
    }
  }

  /** When every logged id is in the catalog, the view is the lookups of the first min(12, n) entries. */
  lemma AllHitsShowFirstTwelve(catalog: seq<Video>, log: seq<Preference>)
    requires forall i :: 0 <= i < |log| ==> HasId(catalog, log[i].videoId)
    ensures |WatchHistory(catalog, log)| == Min(HistoryLimit, |log|)
    ensures forall i :: 0 <= i < |WatchHistory(catalog, log)| ==>
      WatchHistory(catalog, log)[i] == Find(catalog, log[i].videoId).value
  {
    SomesOfAllPresent(LookupAll(catalog, log));
  }
}
