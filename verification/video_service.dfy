/**
 The mock video service of lib/video-service.ts: the fixed eight-item
 catalog, lookup by id, and "recommendations", which are the catalog minus
 the current video, shuffled, and cut to a limit.

 The simulated network delay is dropped and each service call is a plain
 function. The random source of the shuffle is the `choices` parameter
 (see module Shuffle).
 */
module VideoService {
  import opened Basics
  import opened Shuffle

  datatype Channel = Channel(id: string, name: string, avatar: string, subscribers: string)

  datatype Video = Video(
    id: string,
    title: string,
    description: string,
    videoUrl: string,
    thumbnail: string,
    duration: string,
    views: string,
    likes: int,
    comments: int,
    uploadDate: string,
    category: string,
    channel: Channel)

  const Thumbnail := "/placeholder.svg?height=200&width=350"
  const Avatar := "/placeholder.svg?height=48&width=48"
  const SampleBucket := "https://commondatastorage.googleapis.com/gtv-videos-bucket/sample/"

  const Video1: Video := Video("1", "The Future of AI: What's Next in Artificial Intelligence",
    "In this video, we explore the cutting-edge developments in AI and what we can expect in the coming years.",
    SampleBucket + "BigBuckBunny.mp4", Thumbnail, "12:34", "1.2M", 45000, 3200, "2 weeks ago", "technology",
    Channel("channel1", "TechInsights", Avatar, "2.5M"))

  const Video2: Video := Video("2", "Web Development in 2025: The Essential Tools and Frameworks",
    "Discover the most important tools and frameworks that every web developer should know in 2025.",
    SampleBucket + "ElephantsDream.mp4", Thumbnail, "8:22", "850K", 32000, 1800, "3 days ago", "programming",
    Channel("channel2", "CodeMaster", Avatar, "1.8M"))

  const Video3: Video := Video("3", "Machine Learning Basics: A Beginner's Guide",
    "This comprehensive guide covers all the fundamentals of machine learning for beginners.",
    SampleBucket + "ForBiggerBlazes.mp4", Thumbnail, "15:45", "2.3M", 78000, 5400, "1 month ago", "education",
    Channel("channel3", "LearnWithMe", Avatar, "3.2M"))

  const Video4: Video := Video("4", "Design Systems Explained: Creating Consistent User Experiences",
    "Learn how to create and implement design systems that ensure consistency across your products.",
    SampleBucket + "ForBiggerEscapes.mp4", Thumbnail, "10:15", "420K", 18000, 950, "5 days ago", "design",
    Channel("channel4", "DesignPro", Avatar, "980K"))

  const Video5: Video := Video("5", "The Complete Guide to Next.js 15",
    "Learn everything about the latest features in Next.js 15, including the new App Router, Server Components, and more.",
    SampleBucket + "ForBiggerFun.mp4", Thumbnail, "18:30", "1.5M", 62000, 4100, "1 week ago", "programming",
    Channel("channel5", "WebDevSimplified", Avatar, "2.1M"))

  const Video6: Video := Video("6", "Cybersecurity Essentials for Everyone",
    "Protect yourself online with these essential cybersecurity tips that everyone should know.",
    SampleBucket + "ForBiggerJoyrides.mp4", Thumbnail, "14:22", "980K", 41000, 2300, "2 weeks ago", "technology",
    Channel("channel6", "SecurityFirst", Avatar, "1.4M"))

  const Video7: Video := Video("7", "Building a SaaS Product from Scratch",
    "Follow along as we build a complete SaaS product from idea to launch.",
    SampleBucket + "ForBiggerMeltdowns.mp4", Thumbnail, "22:45", "750K", 38000, 1900, "3 weeks ago", "business",
    Channel("channel7", "StartupGuru", Avatar, "1.2M"))

  const Video8: Video := Video("8", "The Psychology of User Experience Design",
    "Understand the psychological principles behind effective UX design.",
    SampleBucket + "Sintel.mp4", Thumbnail, "16:18", "630K", 29000, 1600, "1 month ago", "design",
    Channel("channel8", "UXMaster", Avatar, "950K"))

  /** `mockVideos`: the catalog, fixed for the lifetime of the process. */
  const MockVideos: seq<Video> := [Video1, Video2, Video3, Video4, Video5, Video6, Video7, Video8]

  /** The default `limit` of `getRecommendedVideos`. */
  const DefaultLimit := 8

  /** No two videos share an id. */
  predicate DistinctIds(videos: seq<Video>) {
    forall i, j :: 0 <= i < j < |videos| ==> videos[i].id != videos[j].id
  }

  /** Some video in `videos` has this id. */
  predicate HasId(videos: seq<Video>, id: string) {
    exists i :: 0 <= i < |videos| && videos[i].id == id
  }

  predicate InCatalog(id: string) {
    HasId(MockVideos, id)
  }

  /** The catalog ids "1" to "8" are pairwise distinct. */
  lemma CatalogIdsDistinct()
    ensures |MockVideos| == 8
    ensures forall i :: 0 <= i < |MockVideos| ==> MockVideos[i].id == [('1' as int + i) as char]
    ensures DistinctIds(MockVideos)
  {
    CatalogIds();
  }

  lemma CatalogIds()
    ensures |MockVideos| == 8
    ensures forall i :: 0 <= i < |MockVideos| ==> MockVideos[i].id == [('1' as int + i) as char]
  {
    assert MockVideos[0].id == "1" && MockVideos[1].id == "2" && MockVideos[2].id == "3" && MockVideos[3].id == "4";
    assert MockVideos[4].id == "5" && MockVideos[5].id == "6" && MockVideos[6].id == "7" && MockVideos[7].id == "8";
  }

  /** JavaScript's `videos.find((video) => video.id === id) || null`: the first video with that id. */
  function Find(videos: seq<Video>, id: string): (r: Option<Video>)
    ensures r.None? <==> !HasId(videos, id)
    ensures r.Some? ==> r.value in videos && r.value.id == id
    ensures DistinctIds(videos) ==> forall i :: 0 <= i < |videos| && videos[i].id == id ==> r == Some(videos[i])
  {
    match FindIndex(videos, id)
    case Some(i) => Some(videos[i])
    case None => None
  }

  /** The position `find` stops at: the first index holding the id. */
  function FindIndex(videos: seq<Video>, id: string): (r: Option<nat>)
    ensures r.None? <==> forall i :: 0 <= i < |videos| ==> videos[i].id != id
    ensures r.Some? ==> r.value < |videos| && videos[r.value].id == id
    ensures r.Some? ==> forall k :: 0 <= k < r.value ==> videos[k].id != id
    decreases |videos|
  {
    if |videos| == 0 then None
    else if videos[0].id == id then Some(0)
    else
      match FindIndex(videos[1..], id)
      case Some(i) => Some(i + 1)
      case None => None
  }

  /**
   `getVideoById`: the catalog video with the given id, or `None` when there
   is none. Because catalog ids are distinct, a hit is the unique such video.
   */
  function GetVideoById(id: string): (r: Option<Video>)
    ensures r.None? <==> !InCatalog(id)
    ensures r.Some? ==> r.value in MockVideos && r.value.id == id
    ensures forall i :: 0 <= i < |MockVideos| && MockVideos[i].id == id ==> r == Some(MockVideos[i])
  {
    CatalogIdsDistinct();
    Find(MockVideos, id)
  }

  /** A present, non-empty `currentVideoId` is truthy and excludes that video; absent or `""` excludes nothing. */
  predicate Excludes(currentVideoId: Option<string>) {
    currentVideoId.Some? && currentVideoId.value != ""
  }

  /** The candidate pool of `getRecommendedVideos`, before shuffling. */
  function Pool(currentVideoId: Option<string>): (pool: seq<Video>)
    ensures !Excludes(currentVideoId) ==> pool == MockVideos
    ensures Excludes(currentVideoId) ==> |pool| == |MockVideos| - (if InCatalog(currentVideoId.value) then 1 else 0)
    ensures forall v :: v in pool <==> v in MockVideos && (Excludes(currentVideoId) ==> v.id != currentVideoId.value)
    ensures IsSubsequence(pool, MockVideos)
    ensures DistinctIds(pool)
  {
    CatalogIdsDistinct();
    ExcludeCurrent(MockVideos, currentVideoId)
  }

  /** `currentVideoId ? videos.filter((video) => video.id !== currentVideoId) : [...videos]` */
  function ExcludeCurrent(videos: seq<Video>, currentVideoId: Option<string>): (pool: seq<Video>)
    requires DistinctIds(videos)
    ensures !Excludes(currentVideoId) ==> pool == videos
    ensures Excludes(currentVideoId) ==> |pool| == |videos| - (if HasId(videos, currentVideoId.value) then 1 else 0)
    ensures forall v :: v in pool <==> v in videos && (Excludes(currentVideoId) ==> v.id != currentVideoId.value)
    ensures IsSubsequence(pool, videos)
    ensures DistinctIds(pool)
  {
    if Excludes(currentVideoId) then
      var id := currentVideoId.value;
      var keep := (v: Video) => v.id != id;
      var pool := Filter(videos, keep);
      SubsequenceKeepsDistinctIds(pool, videos);
      DroppingIdRemovesOne(videos, id, keep);
      pool
    else
      PrefixIsSubsequence(videos, |videos|);
      assert videos[..|videos|] == videos;
      videos
  }

  /** Filtering one id out of a list with distinct ids removes one video if the id is present, none otherwise. */
  lemma {:induction false} DroppingIdRemovesOne(videos: seq<Video>, id: string, keep: Video -> bool)
    requires DistinctIds(videos)
    requires forall v :: keep(v) <==> v.id != id
    ensures |Filter(videos, keep)| == |videos| - (if HasId(videos, id) then 1 else 0)
    decreases |videos|
  {
    if |videos| > 0 {
      var tail := videos[1..];
      assert DistinctIds(tail);
      DroppingIdRemovesOne(tail, id, keep);
      FilterStep(videos, keep);
      HasIdStep(videos, id);
      HeadIdNotInTail(videos);
    }
  }

  lemma HeadIdNotInTail(videos: seq<Video>)
    requires |videos| > 0 && DistinctIds(videos)
    ensures !HasId(videos[1..], videos[0].id)
  {
    forall i | 0 <= i < |videos| - 1 ensures videos[1..][i].id != videos[0].id {
      assert videos[1..][i] == videos[i + 1];
    }
  }

  lemma HasIdStep(videos: seq<Video>, id: string)
    requires |videos| > 0
    ensures HasId(videos, id) <==> videos[0].id == id || HasId(videos[1..], id)
  {
    if HasId(videos[1..], id) {
      var i :| 0 <= i < |videos[1..]| && videos[1..][i].id == id;
      assert videos[i + 1].id == id;
    }
    if HasId(videos, id) && videos[0].id != id {
      var i :| 0 <= i < |videos| && videos[i].id == id;
      assert videos[1..][i - 1].id == id;
    }
  }

  lemma {:induction false} SubsequenceKeepsDistinctIds(a: seq<Video>, b: seq<Video>)
    requires IsSubsequence(a, b) && DistinctIds(b)
    ensures DistinctIds(a)
    decreases |b|
  {
    if |a| == 0 {
    } else if a[0] == b[0] && IsSubsequence(a[1..], b[1..]) {
      SubsequenceKeepsDistinctIds(a[1..], b[1..]);
      SubsequenceMembers(a[1..], b[1..]);
      forall j | 0 < j < |a| ensures a[0].id != a[j].id {
        assert a[j] == a[1..][j - 1];
        assert a[j] in a[1..];
        var k :| 0 <= k < |b[1..]| && b[1..][k] == a[j];
        assert b[k + 1] == a[j];
      }
    } else {
      SubsequenceKeepsDistinctIds(a, b[1..]);
    }
  }

  /** Elements that are pairwise different and have distinct ids in some source keep distinct ids. */
  lemma DistinctMembersHaveDistinctIds(r: seq<Video>, source: seq<Video>)
    requires Distinct(r) && DistinctIds(source)
    requires forall v :: v in r ==> v in source
    ensures DistinctIds(r)
  {
    forall i, j | 0 <= i < j < |r| ensures r[i].id != r[j].id {
      assert r[i] in source && r[j] in source;
      var a :| 0 <= a < |source| && source[a] == r[i];
      var b :| 0 <= b < |source| && source[b] == r[j];
      assert a != b;
    }
  }

  lemma DistinctIdsAreDistinct(videos: seq<Video>)
    requires DistinctIds(videos)
    ensures Distinct(videos)
  {
  }

  /**
   `getRecommendedVideos(currentVideoId, limit)`: filter out the current
   video (when its id is truthy), shuffle the rest, and `slice(0, limit)`.
   `choices` holds a draw for every position of the largest possible pool,
   the whole catalog; the shuffle reads only as many as the pool needs.
   */
  function GetRecommendedVideos(currentVideoId: Option<string>, limit: int, choices: seq<nat>): (r: seq<Video>)
    requires ValidChoices(choices, |MockVideos|)
    ensures forall v :: v in r ==> v in MockVideos
    ensures Excludes(currentVideoId) ==> forall v :: v in r ==> v.id != currentVideoId.value
    ensures limit >= 0 ==> |r| == Min(limit, |Pool(currentVideoId)|)
    ensures limit >= |Pool(currentVideoId)| ==> multiset(r) == multiset(Pool(currentVideoId))
    ensures DistinctIds(r)
  {
    ShuffleAndTake(Pool(currentVideoId), limit, choices)
  }

  /**
   Real `Math.random()` draws, one per loop step, always give indices that
   `GetRecommendedVideos` accepts, whichever video is excluded.
   */
  lemma DrawsSuitRecommendations(draws: seq<real>)
    requires |draws| >= |MockVideos|
    requires forall i :: 0 <= i < |draws| ==> 0.0 <= draws[i] < 1.0
    ensures ValidChoices(ChoicesFromDraws(draws), |MockVideos|)
  {
    var choices := ChoicesFromDraws(draws);
    assert ValidChoices(choices, |draws|);
  }

  /** With the default limit of 8, the recommendations are the whole pool, shuffled. */
  lemma DefaultLimitReturnsWholePool(currentVideoId: Option<string>, choices: seq<nat>)
    requires ValidChoices(choices, |MockVideos|)
    ensures multiset(GetRecommendedVideos(currentVideoId, DefaultLimit, choices)) == multiset(Pool(currentVideoId))
    ensures |GetRecommendedVideos(currentVideoId, DefaultLimit, choices)| == |Pool(currentVideoId)|
  {
    assert |Pool(currentVideoId)| <= |MockVideos| == DefaultLimit;
  }

  /** `shuffleArray(pool).slice(0, limit)` over a pool without repeated ids. */
  function ShuffleAndTake(pool: seq<Video>, limit: int, choices: seq<nat>): (r: seq<Video>)
    requires ValidChoices(choices, |pool|) && DistinctIds(pool)
    ensures forall v :: v in r ==> v in pool
    ensures limit >= 0 ==> |r| == Min(limit, |pool|)
    ensures limit >= |pool| ==> multiset(r) == multiset(pool)
    ensures DistinctIds(r)
  {
    var shuffled := FisherYates(pool, choices);
    ShuffledPoolKeepsDistinctIds(pool, choices);
    var r := SliceTo(shuffled, limit);
    assert forall i :: 0 <= i < |r| ==> r[i] == shuffled[i];
    assert forall v :: v in r ==> v in shuffled;
    assert limit >= |pool| ==> r == shuffled;
    r
  }

  lemma ShuffledPoolKeepsDistinctIds(pool: seq<Video>, choices: seq<nat>)
    requires ValidChoices(choices, |pool|) && DistinctIds(pool)
    ensures DistinctIds(FisherYates(pool, choices))
    ensures forall v :: v in FisherYates(pool, choices) ==> v in pool
  {
    var shuffled := FisherYates(pool, choices);
    DistinctIdsAreDistinct(pool);
    FisherYatesKeepsDistinct(pool, choices);
    forall v | v in shuffled ensures v in pool {
      assert v in multiset(shuffled);
    }
    DistinctMembersHaveDistinctIds(shuffled, pool);
  }

  /**
   The worked example of the recommendation service: excluding video "3"
   with a limit of 4 yields four videos with distinct ids, none of them "3".
   */
  lemma ExcludingThreeTakesFour(choices: seq<nat>)
    requires ValidChoices(choices, |MockVideos|)
    ensures |GetRecommendedVideos(Some("3"), 4, choices)| == 4
    ensures forall v :: v in GetRecommendedVideos(Some("3"), 4, choices) ==> v.id != "3"
    ensures DistinctIds(GetRecommendedVideos(Some("3"), 4, choices))
  {
    CatalogIdsDistinct();
    assert InCatalog("3") by {
      assert MockVideos[2].id == "3";
    }
    PoolWithoutCatalogId("3");
  }

  /** Excluding a catalog video leaves a pool one shorter than the catalog. */
  lemma PoolWithoutCatalogId(id: string)
    requires id != "" && InCatalog(id)
    ensures |Pool(Some(id))| == |MockVideos| - 1
  {
  }
}
