/**
 The preference store of lib/user-service.ts: a bounded, most-recent-first
 log of watch events and the recency-weighted interest map derived from it.

 The module-level array becomes an explicit `log` value passed in and
 returned, and `Date.now()` becomes the parameter `now`. Timestamps are
 integer milliseconds since the epoch; `watchedAt` is the already-parsed
 value of the ISO date string the source stores.
 */
module UserService {
  import opened Basics

  datatype Preference = Preference(videoId: string, category: string, watchedAt: int)

  /** The log keeps at most this many entries. */
  const MaxPreferences: nat := 50

  /** `1000 * 60 * 60 * 24` */
  const MsPerDay: int := 86400000

  /** `updateUserPreferences(p)`: prepend `p`, then keep the first 50 entries. */
  function UpdateUserPreferences(log: seq<Preference>, p: Preference): (r: seq<Preference>)
    ensures |r| == Min(MaxPreferences, |log| + 1)
    ensures r[0] == p
    ensures r[1..] == log[..|r| - 1]
    ensures |log| < MaxPreferences ==> r[1..] == log
    ensures |log| == MaxPreferences ==> r[1..] == log[..|log| - 1]
  {
    var prepended := [p] + log;
    if |prepended| > MaxPreferences then prepended[..MaxPreferences] else prepended
  }

  /** `getUserPreferences()`: a copy of the whole log, most recent first, unfiltered. */
  function GetUserPreferences(log: seq<Preference>): (r: seq<Preference>)
    ensures |r| == |log|
    ensures forall i :: 0 <= i < |log| ==> r[i] == log[i]
  {
    log[..]
  }

  /** Records `ps[0]`, then `ps[1]`, and so on. */
  function RecordAll(log: seq<Preference>, ps: seq<Preference>): seq<Preference>
    decreases |ps|
  {
    if |ps| == 0 then log else RecordAll(UpdateUserPreferences(log, ps[0]), ps[1..])
  }

  function Reverse<T>(s: seq<T>): (r: seq<T>)
    ensures |r| == |s|
    ensures forall i :: 0 <= i < |s| ==> r[i] == s[|s| - 1 - i]
  {
    if |s| == 0 then [] else Reverse(s[1..]) + [s[0]]
  }

  /** Count of log entries for one video. */
  function CountVideo(log: seq<Preference>, videoId: string): nat {
    if |log| == 0 then 0
    else (if log[0].videoId == videoId then 1 else 0) + CountVideo(log[1..], videoId)
  }

  /**
   After any sequence of recordings from a log within capacity, the log is
   the recordings newest first followed by the old log, cut to 50 entries.
   */
  lemma {:induction false} RecordAllKeepsNewestFifty(log: seq<Preference>, ps: seq<Preference>)
    requires |log| <= MaxPreferences
    ensures |RecordAll(log, ps)| == Min(MaxPreferences, |ps| + |log|)
    ensures RecordAll(log, ps) == (Reverse(ps) + log)[..Min(MaxPreferences, |ps| + |log|)]
    decreases |ps|
  {
    if |ps| > 0 {
      var u := UpdateUserPreferences(log, ps[0]);
      RecordAllKeepsNewestFifty(u, ps[1..]);
      var n := Min(MaxPreferences, |ps| + |log|);
      var lhs := (Reverse(ps[1..]) + u)[..Min(MaxPreferences, |ps| - 1 + |u|)];
      assert Min(MaxPreferences, |ps| - 1 + |u|) == n;
      assert Reverse(ps) == Reverse(ps[1..]) + [ps[0]];
      forall i | 0 <= i < n
        ensures lhs[i] == (Reverse(ps) + log)[i]
      {
        if i >= |ps| - 1 {
          assert lhs[i] == u[i - (|ps| - 1)];
        }
      }
    }
  }

  /** Recording 51 events into an empty log keeps the latest 50: the first one recorded is evicted. */
  lemma FiftyFirstEvictsOldest(ps: seq<Preference>)
    requires |ps| == MaxPreferences + 1
    ensures RecordAll([], ps) == Reverse(ps[1..])
  {
    RecordAllKeepsNewestFifty([], ps);
    assert Reverse(ps) == Reverse(ps[1..]) + [ps[0]];
    assert Reverse(ps)[..MaxPreferences] == Reverse(ps[1..]);
  }

  /** The listed log starts with the event just recorded. */
  lemma RecordThenList(log: seq<Preference>, p: Preference)
    ensures GetUserPreferences(UpdateUserPreferences(log, p))[0] == p
    ensures |GetUserPreferences(UpdateUserPreferences(log, p))| <= MaxPreferences
  {
  }

  /** No deduplication: recording a video already in the log adds another entry for it. */
  lemma {:induction false} RecordingRepeatAddsEntry(log: seq<Preference>, p: Preference)
    requires |log| < MaxPreferences
    ensures CountVideo(UpdateUserPreferences(log, p), p.videoId) == CountVideo(log, p.videoId) + 1
  {
    var r := UpdateUserPreferences(log, p);
    assert r[1..] == log;
  }

  // ----- interest weights -----

  /** `Math.floor((now - watchedAt) / MsPerDay)`; Dafny's division by a positive divisor rounds down. */
  function DaysAgo(now: int, watchedAt: int): int {
    (now - watchedAt) / MsPerDay
  }

  /** `Math.max(1, 10 - daysAgo)` */
  function Weight(now: int, watchedAt: int): (w: int)
    ensures w >= 1
    ensures watchedAt <= now ==> w <= 10
  {
    var d := DaysAgo(now, watchedAt);
    assert watchedAt <= now ==> d >= 0;
    if 10 - d < 1 then 1 else 10 - d
  }

  /** The weight of an event never grows as time passes. */
  lemma WeightNonIncreasing(now1: int, now2: int, watchedAt: int)
    requires now1 <= now2
    ensures Weight(now2, watchedAt) <= Weight(now1, watchedAt)
  {
    DivMonotone(now1 - watchedAt, now2 - watchedAt);
  }

  lemma DivMonotone(a: int, b: int)
    requires a <= b
    ensures a / MsPerDay <= b / MsPerDay
  {
  }

  /** The categories of the events in the log. */
  function Categories(log: seq<Preference>): set<string> {
    set i | 0 <= i < |log| :: log[i].category
  }

  /** Number of events in the log with the given category. */
  function CountCategory(log: seq<Preference>, category: string): nat {
    if |log| == 0 then 0
    else (if log[0].category == category then 1 else 0) + CountCategory(log[1..], category)
  }

  /** Reference definition: the sum of per-event weights over the events of one category. */
  function CategoryWeight(log: seq<Preference>, category: string, now: int): int {
    if |log| == 0 then 0
    else
      var w := if log[0].category == category then Weight(now, log[0].watchedAt) else 0;
      w + CategoryWeight(log[1..], category, now)
  }

  /** One step of the `forEach`: start a missing (falsy) entry at 0, then add the event's weight. */
  function AddInterest(interests: map<string, int>, p: Preference, now: int): map<string, int> {
    var current := if p.category !in interests || interests[p.category] == 0 then 0 else interests[p.category];
    interests[p.category := current + Weight(now, p.watchedAt)]
  }

  /** The `forEach` over the log, oldest state first. */
  function Accumulate(interests: map<string, int>, log: seq<Preference>, now: int): map<string, int>
    decreases |log|
  {
    if |log| == 0 then interests else Accumulate(AddInterest(interests, log[0], now), log[1..], now)
  }

  lemma {:induction false} AccumulateSums(interests: map<string, int>, log: seq<Preference>, now: int)
    requires forall c :: c in interests ==> interests[c] >= 1
    ensures Accumulate(interests, log, now).Keys == interests.Keys + Categories(log)
    ensures forall c :: c in Accumulate(interests, log, now) ==>
      Accumulate(interests, log, now)[c] == (if c in interests then interests[c] else 0) + CategoryWeight(log, c, now)
    decreases |log|
  {
    if |log| > 0 {
      var next := AddInterest(interests, log[0], now);
      AccumulateSums(next, log[1..], now);
      assert Categories(log) == {log[0].category} + Categories(log[1..]) by {
        forall c | c in Categories(log) ensures c in {log[0].category} + Categories(log[1..]) {
          var i :| 0 <= i < |log| && log[i].category == c;
          if i > 0 { assert log[1..][i - 1].category == c; }
        }
        forall c | c in Categories(log[1..]) ensures c in Categories(log) {
          var i :| 0 <= i < |log[1..]| && log[1..][i].category == c;
          assert log[i + 1].category == c;
        }
      }
    }
  }

  lemma {:induction false} CategoryWeightAtLeastCount(log: seq<Preference>, category: string, now: int)
    ensures CategoryWeight(log, category, now) >= CountCategory(log, category)
    decreases |log|
  {
    if |log| > 0 {
      CategoryWeightAtLeastCount(log[1..], category, now);
    }
  }

  lemma {:induction false} CountCategoryPositive(log: seq<Preference>, category: string)
    requires category in Categories(log)
    ensures CountCategory(log, category) >= 1
    decreases |log|
  {
    if log[0].category != category {
      var i :| 0 <= i < |log| && log[i].category == category;
      assert log[1..][i - 1].category == category;
      CountCategoryPositive(log[1..], category);
    }
  }

  /**
   `getUserInterests()`: one key per category in the log, whose value is the
   sum over that category's events of `max(1, 10 - daysAgo)`.
   */
  function GetUserInterests(log: seq<Preference>, now: int): (r: map<string, int>)
    ensures r.Keys == Categories(log)
    ensures forall c :: c in r ==> r[c] == CategoryWeight(log, c, now)
    ensures forall c :: c in r ==> r[c] >= CountCategory(log, c) >= 1
  {
    AccumulateSums(map[], log, now);
    var r := Accumulate(map[], log, now);
    assert forall c :: c in r ==> r[c] >= CountCategory(log, c) >= 1 by {
      forall c | c in r ensures r[c] >= CountCategory(log, c) >= 1 {
        CategoryWeightAtLeastCount(log, c, now);
        CountCategoryPositive(log, c);
      }
    }
    r
  }
}
