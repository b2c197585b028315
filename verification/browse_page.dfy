/**
 The search and category filtering of app/browse/page.tsx.

 The page fetches `getRecommendedVideos(undefined, 20)`, keeps the videos
 whose lower-cased title, description or channel name contains the
 lower-cased query, and each category tab shows the kept videos of that
 category. `toLowerCase` is modelled as ASCII lower-casing.
 */
module BrowsePage {
  import opened Basics
  import opened Shuffle
  import opened VideoService

  /** The limit the page passes to `getRecommendedVideos`. */
  const FetchLimit := 20

  /** The category tabs besides "All Videos". */
  const CategoryTabs: seq<string> := ["technology", "programming", "design", "business"]

  function ToLowerChar(c: char): char {
    if 'A' <= c <= 'Z' then (c as int - 'A' as int + 'a' as int) as char else c
  }

  /** `toLowerCase`, restricted to ASCII letters. */
  function ToLower(s: string): (r: string)
    ensures |r| == |s|
    ensures forall i :: 0 <= i < |s| ==> r[i] == ToLowerChar(s[i])
  {
    seq(|s|, i requires 0 <= i < |s| => ToLowerChar(s[i]))
  }

  lemma ToLowerIdempotent(s: string)
    ensures ToLower(ToLower(s)) == ToLower(s)
  {
  }

  /** JavaScript's `haystack.includes(needle)`: `needle` occurs as a contiguous block. */
  predicate Includes(haystack: string, needle: string)
    decreases |haystack|
  {
    needle <= haystack || (|haystack| > 0 && Includes(haystack[1..], needle))
  }

  /** `needle` occupies positions `k` to `k + |needle|` of `haystack`. */
  predicate OccursAt(haystack: string, needle: string, k: int) {
    0 <= k && k + |needle| <= |haystack| && haystack[k..k + |needle|] == needle
  }

  /** `Includes` agrees with the existence of a matching position. */
  lemma {:induction false} IncludesAt(haystack: string, needle: string)
    ensures Includes(haystack, needle) <==> exists k :: OccursAt(haystack, needle, k)
    decreases |haystack|
  {
    if |haystack| > 0 {
      IncludesAt(haystack[1..], needle);
      if needle <= haystack {
        assert OccursAt(haystack, needle, 0);
      } else if Includes(haystack[1..], needle) {
        var k :| OccursAt(haystack[1..], needle, k);
        assert haystack[k + 1..k + 1 + |needle|] == haystack[1..][k..k + |needle|];
        assert OccursAt(haystack, needle, k + 1);
      }
      if exists k :: OccursAt(haystack, needle, k) {
        var k :| OccursAt(haystack, needle, k);
        if k == 0 {
          assert needle <= haystack;
        } else {
          assert haystack[1..][k - 1..k - 1 + |needle|] == haystack[k..k + |needle|];
          assert OccursAt(haystack[1..], needle, k - 1);
        }
      }
    } else if needle == [] {
      assert needle <= haystack;
      assert OccursAt(haystack, needle, 0);
    } else {
      assert !(needle <= haystack);
    }
  }

  /** The search predicate of `filteredVideos`. */
  predicate MatchesQuery(v: Video, query: string) {
    var q := ToLower(query);
    Includes(ToLower(v.title), q) || Includes(ToLower(v.description), q) || Includes(ToLower(v.channel.name), q)
  }

  /** `filteredVideos`: the fetched videos that match the query, in fetched order. */
  function FilteredVideos(videos: seq<Video>, query: string): (r: seq<Video>)
    ensures forall v :: v in r <==> v in videos && MatchesQuery(v, query)
    ensures IsSubsequence(r, videos)
    ensures forall v :: multiset(r)[v] == if MatchesQuery(v, query) then multiset(videos)[v] else 0
  {
    Filter(videos, (v: Video) => MatchesQuery(v, query))
  }

  /** A category tab: the search results of that category, in the same order. */
  function CategoryTab(videos: seq<Video>, query: string, category: string): (r: seq<Video>)
    ensures forall v :: v in r <==> v in videos && MatchesQuery(v, query) && v.category == category
    ensures IsSubsequence(r, FilteredVideos(videos, query))
    ensures IsSubsequence(r, videos)
    ensures forall v :: multiset(r)[v] == if v.category == category then multiset(FilteredVideos(videos, query))[v] else 0
  {
    var all := FilteredVideos(videos, query);
    var r := Filter(all, (v: Video) => v.category == category);
    SubsequenceTransitive(r, all, videos);
    r
  }

  lemma {:induction false} FilterAllKeeps(videos: seq<Video>, query: string)
    requires forall i :: 0 <= i < |videos| ==> MatchesQuery(videos[i], query)
    ensures FilteredVideos(videos, query) == videos
    decreases |videos|
  {
    if |videos| > 0 {
      FilterAllKeeps(videos[1..], query);
      assert videos == [videos[0]] + videos[1..];
    }
  }

  /** An empty query keeps every fetched video. */
  lemma EmptyQueryKeepsAll(videos: seq<Video>)
    ensures FilteredVideos(videos, "") == videos
  {
    forall i | 0 <= i < |videos| ensures MatchesQuery(videos[i], "") {
      assert ToLower("") == "";
      assert "" <= ToLower(videos[i].title);
    }
    FilterAllKeeps(videos, "");
  }

  /** Searching is case-insensitive: a query and its lower-cased form select the same videos. */
  lemma {:induction false} QueryCaseInsensitive(videos: seq<Video>, query: string)
    ensures FilteredVideos(videos, query) == FilteredVideos(videos, ToLower(query))
    decreases |videos|
  {
    ToLowerIdempotent(query);
    if |videos| > 0 {
      QueryCaseInsensitive(videos[1..], query);
      assert MatchesQuery(videos[0], query) == MatchesQuery(videos[0], ToLower(query));
    }
  }

  /** A video of a category without a tab (the catalog's "education" video) shows only under "All Videos". */
  lemma UntabbedCategoryOnlyInAll(videos: seq<Video>, query: string, v: Video)
    requires v.category !in CategoryTabs
    ensures forall i :: 0 <= i < |CategoryTabs| ==> v !in CategoryTab(videos, query, CategoryTabs[i])
  {
  }

  /** The fetch asks for 20 videos with nothing excluded: the page receives the whole catalog, shuffled. */
  lemma BrowseFetchesWholeCatalog(choices: seq<nat>)
    requires ValidChoices(choices, |MockVideos|)
    ensures |GetRecommendedVideos(None, FetchLimit, choices)| == |MockVideos| == 8
    ensures multiset(GetRecommendedVideos(None, FetchLimit, choices)) == multiset(MockVideos)
  {
    CatalogIdsDistinct();
    assert Pool(None) == MockVideos;
  }
}
