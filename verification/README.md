# Streaming demo: catalog, recommendations, watch log and player controller

A Dafny model of the logic inside a small video-streaming web front end.
The model covers:

- **The video service** (`VideoService`, `Shuffle`). It holds a fixed catalog of eight videos and looks videos up by id. It builds "recommendations" by dropping the current video, shuffling the rest with Fisher–Yates, and cutting the result to a limit.
- **The user service** (`UserService`). It keeps a most-recent-first log of watch events, capped at 50. From that log it derives a per-category interest weight that decays with the age of each event.
- **The player controller** (`VideoPlayer`). The React state of the video player is a record. Every click handler, timer callback and media or document listener is a function that returns the next state and the commands sent to the media element or the document. The module also models the `m:ss` time display.
- **The browse page** (`BrowsePage`). It searches the fetched videos case-insensitively on title, description and channel name, then splits the result into category tabs.
- **The profile page** (`ProfilePage`). It assembles the watch-history view: look up each logged id, drop the misses, show at most twelve.

Inputs the source reads from the environment are parameters of the model:

- The in-memory preference array is an explicit `log` value.
- `Date.now()` is `now`, and timestamps are integer milliseconds.
- `Math.random()` is a sequence `choices` of drawn indices, with `choices[i] <= i` at loop step `i`. `Shuffle.IndexFromDraw` shows that `Math.floor(Math.random() * (i + 1))` always yields such an index.
- `videoRef.current` is the state field `mediaMounted`.
- The `.video-container` lookup and `document.fullscreenElement` are arguments of the events that read them.
- The 3-second controls timer is the field `hideTimer`. It holds the `isPlaying` value that the timer's closure captured.

Two behaviours of the code that a reader might not expect, both modelled as written:

- `handleSeek` neither clamps nor rejects a seek outside `[0, duration]`. `VideoPlayer.HandleSeek` has no precondition.
- The controls are not always visible while paused. A timer armed while playing still hides them after a pause, because its closure captured the old `isPlaying`; `VideoPlayer.StaleCaptureHidesControlsWhilePaused` exhibits this.

## Model

| member | source | states |
|---|---|---|
| `UserService.UpdateUserPreferences` | lib/user-service.ts:15-24 | the new entry is first; the length is min(50, old length + 1); the rest is the old log in order, and only the oldest entry is dropped when the log was full |
| `UserService.RecordAllKeepsNewestFifty` | lib/user-service.ts:19-24 | after any series of recordings the log is those events newest first, followed by the old log, cut to 50 |
| `UserService.FiftyFirstEvictsOldest` | lib/user-service.ts:22-24 | recording 51 events into an empty log evicts exactly the first one recorded |
| `UserService.RecordingRepeatAddsEntry` | lib/user-service.ts:19 | no deduplication: recording a video already in a non-full log adds one more entry for it |
| `UserService.GetUserPreferences` | lib/user-service.ts:29-32 | the result is the whole log, entry for entry, most recent first |
| `UserService.RecordThenList` | lib/user-service.ts:19-31 | listing right after a recording starts with that event and never shows more than 50 |
| `UserService.Weight` | lib/user-service.ts:47-48 | a per-event weight is at least 1, and at most 10 for an event not in the future |
| `UserService.WeightNonIncreasing` | lib/user-service.ts:47-48 | an event's weight never grows as the current time advances |
| `UserService.AccumulateSums` | lib/user-service.ts:41-51 | the forEach adds exactly the categories of the log as keys, each increased by the sum of its events' weights |
| `UserService.CategoryWeightAtLeastCount` | lib/user-service.ts:47-50 | a category's summed weight is at least its number of events |
| `UserService.GetUserInterests` | lib/user-service.ts:36-54 | keys are exactly the log's categories; each value equals the reference sum of max(1, 10 - daysAgo) over that category's events and is at least its event count, hence at least 1 |
| `VideoService.CatalogIdsDistinct` | lib/video-service.ts:23-178 | the catalog has eight videos with ids "1" to "8", pairwise distinct |
| `VideoService.FindIndex` | lib/video-service.ts:185 | `find` stops at the first video with the id, and reports none exactly when no video has it |
| `VideoService.Find` | lib/video-service.ts:185 | the found video is in the list and has the id; none iff no video has it; with distinct ids, it is the video at any matching position |
| `VideoService.GetVideoById` | lib/video-service.ts:183-186 | null iff the id is not in the catalog; otherwise the unique catalog video with that id |
| `VideoService.ExcludeCurrent` | lib/video-service.ts:192 | a truthy id removes exactly the videos with that id, so one video fewer if present; an absent or empty id leaves the list unchanged; order is kept |
| `VideoService.DroppingIdRemovesOne` | lib/video-service.ts:192 | filtering out one id from a list with distinct ids shortens it by one if the id occurs and by zero otherwise |
| `VideoService.Pool` | lib/video-service.ts:192 | the recommendation pool is the whole catalog for an absent or empty id, and the catalog without that one video otherwise |
| `VideoService.ShuffleAndTake` | lib/video-service.ts:196-198 | the shuffled prefix has length min(limit, pool) for a non-negative limit, is the whole pool when the limit is larger, contains only pool videos and keeps ids distinct |
| `VideoService.GetRecommendedVideos` | lib/video-service.ts:188-199 | results are catalog videos with distinct ids, never the excluded one; for a non-negative limit the length is min(limit, pool size); a limit at least the pool size returns a permutation of the pool, with no padding |
| `VideoService.DrawsSuitRecommendations` | lib/video-service.ts:196-205 | any run of `Math.random()` draws in [0, 1), at least one per catalog position, yields indices the recommendation shuffle accepts |
| `VideoService.DefaultLimitReturnsWholePool` | lib/video-service.ts:188-199 | with the default limit of 8 the recommendations are a permutation of the whole pool |
| `VideoService.ExcludingThreeTakesFour` | lib/video-service.ts:188-199 | excluding "3" with limit 4 yields four videos with distinct ids, none of them "3" |
| `VideoService.SubsequenceKeepsDistinctIds` | lib/video-service.ts:192 | the filtered pool inherits distinct ids from the catalog |
| `Shuffle.IndexFromDraw` | lib/video-service.ts:205 | `floor(u * (i + 1))` for `u` in [0, 1) is an index no larger than `i` |
| `Shuffle.ChoicesFromDraws` | lib/video-service.ts:204-205 | the indices drawn from `Math.random()` values in [0, 1), one per loop step, each lie between 0 and the step's position |
| `Shuffle.Swap` | lib/video-service.ts:206 | the destructuring swap exchanges the two positions and leaves every other position alone |
| `Shuffle.ShuffleFrom` | lib/video-service.ts:204-207 | the swaps from position `i` down to 1 keep the length |
| `Shuffle.ShuffleFromPermutes` | lib/video-service.ts:204-207 | the swaps from position `i` down to 1 keep the multiset of elements |
| `Shuffle.FisherYates` | lib/video-service.ts:202-209 | the whole shuffle keeps the length and the multiset of elements |
| `Shuffle.FisherYatesKeepsDistinct` | lib/video-service.ts:202-209 | a shuffle of a sequence without repeats has no repeats |
| `Shuffle.ShuffleArray` | lib/video-service.ts:202-209 | the imperative loop returns a permutation of its input (same length and multiset) equal to the reference Fisher–Yates; the caller's sequence is a value and is not changed |
| `VideoPlayer.Initial` | components/video-player.tsx:18-24 | the initial state is paused at time 0 with duration 0, volume 1, unmuted, not fullscreen, controls shown, no timer |
| `VideoPlayer.TogglePlay` | components/video-player.tsx:66-77 | with a media element: flips isPlaying, commands pause iff it was playing and play iff it was not, and changes nothing else; without one, does nothing |
| `VideoPlayer.TogglePlayTwiceRestores` | components/video-player.tsx:66-77 | two toggles restore the state, and the element ends paused iff the video was paused before |
| `VideoPlayer.TogglePlayKeepsPlaybackInSync` | components/video-player.tsx:66-77 | if the element was playing exactly when isPlaying held, it still is after a toggle |
| `VideoPlayer.HandleVolumeChangeAsWritten` | components/video-player.tsx:79-87 | volume always becomes v; with a media element isMuted becomes v == 0 and only the element's volume is written |
| `VideoPlayer.HandleVolumeChange` | components/video-player.tsx:79-87 | the same state change; with a media element the element is told exactly the volume and muted = (v == 0), and without one nothing is sent |
| `VideoPlayer.VolumeZeroMutes` | components/video-player.tsx:83-86 | under the source's and the corrected volume handler alike, with a media element the state is muted after a volume change iff the new volume is 0 |
| `VideoPlayer.ToggleMute` | components/video-player.tsx:89-95 | flips isMuted and sets the element's flag to the new value; the volume and every other field are unchanged |
| `VideoPlayer.ToggleMuteTwiceRestores` | components/video-player.tsx:89-95 | toggling mute twice restores the original state |
| `VideoPlayer.HandleSeek` | components/video-player.tsx:97-104 | the position becomes exactly t, unclamped, and is written to the element when one is mounted |
| `VideoPlayer.SeekMovesElement` | components/video-player.tsx:97-104 | after a seek the element's position and the shown currentTime are both exactly t |
| `VideoPlayer.ToggleFullscreen` | components/video-player.tsx:106-118 | never changes state; requests or exits fullscreen according to the document's fullscreen element, and does nothing without a container |
| `VideoPlayer.Step` | components/video-player.tsx:143-246 | one input goes to the handler wired to it; no input mounts or unmounts the element, and with the source's volume handler only the mute button writes the element's muted flag |
| `VideoPlayer.Run` | components/video-player.tsx:143-246 | over any sequence of inputs the element stays mounted or unmounted, and with the source's volume handler its muted flag is written only if the mute button was pressed |
| `VideoPlayer.HandlersAgreeOnState` | components/video-player.tsx:79-87 | the source's and the corrected volume handler lead the controller through the same states for any inputs |
| `VideoPlayer.FullscreenOnlyFromNotification` | components/video-player.tsx:54-57 | across any inputs without a fullscreenchange notification, isFullscreen stays as it was, under either volume handler |
| `VideoPlayer.OnFullscreenChange` | components/video-player.tsx:55-57 | isFullscreen mirrors whether the document has a fullscreen element; nothing else changes |
| `VideoPlayer.OnTimeUpdate` | components/video-player.tsx:31-33 | currentTime takes the element's position; nothing else changes |
| `VideoPlayer.OnLoadedMetadata` | components/video-player.tsx:35-37 | duration takes the element's duration; nothing else changes |
| `VideoPlayer.OnEnded` | components/video-player.tsx:39-41 | playback is marked stopped; nothing else changes |
| `VideoPlayer.UnmountedCommandsOnlyFullscreen` | components/video-player.tsx:66-118 | without a media element no input ever commands the element, under either volume handler; only fullscreen requests go out |
| `VideoPlayer.HandleMouseMove` | components/video-player.tsx:126-138 | shows the controls and replaces any pending timer by one that captured the current isPlaying |
| `VideoPlayer.HideTimerFires` | components/video-player.tsx:133-137 | the timer hides the controls iff the captured isPlaying was true, and clears itself |
| `VideoPlayer.HandleMouseLeave` | components/video-player.tsx:144 | the controls are hidden iff the video is playing |
| `VideoPlayer.PausedControlsHideOnlyByStaleTimer` | components/video-player.tsx:126-144 | while paused, shown controls stay shown under every input except a timer armed while playing, under either volume handler |
| `VideoPlayer.StaleCaptureHidesControlsWhilePaused` | components/video-player.tsx:133-137 | play, move, pause, timer fires, with the source's wiring: the video is paused and the controls are hidden |
| `VideoPlayer.VolumeChangeAsWrittenLeavesElementMuted` | components/video-player.tsx:79-95 | mute with the button, then raise the volume: the controller shows sound on while the element stays muted |
| `VideoPlayer.StepKeepsMuteInSync` | components/video-player.tsx:66-144 | with the corrected volume handler, every input keeps the controller's mute and volume equal to the element's |
| `VideoPlayer.RunKeepsMuteInSync` | components/video-player.tsx:66-144 | the same agreement holds after any sequence of inputs |
| `VideoPlayer.RemainderSixty` | components/video-player.tsx:122 | JavaScript's `% 60`: for non-negative input it is in [0, 60) and equals x - 60 * floor(x / 60) |
| `VideoPlayer.FormatTime` | components/video-player.tsx:120-124 | for a time s >= 0 the display parses back as minutes m and seconds r < 60 with m * 60 + r = floor(s) |
| `VideoPlayer.FormatTimeSplit` | components/video-player.tsx:120-124 | for time s >= 0 the display is the minutes m, a colon, and r padded to two digits, with m * 60 + r = floor(s) and r < 60 |
| `VideoPlayer.FormatTimeReadsBack` | components/video-player.tsx:120-124 | the display of s >= 0 parses back as (m, r) with m * 60 + r = floor(s) and r < 60, and m * 60 + r = s for whole s |
| `VideoPlayer.PaddedSecondsReadBack` | components/video-player.tsx:123 | the padded seconds field is exactly two digits and reads back as r |
| `Decimal.NatToString` | components/video-player.tsx:123 | a template literal renders a natural number as digits with no leading zero |
| `Decimal.IntToString` | components/video-player.tsx:123 | a template literal renders an integer as at least one digit, with no leading zero, that reads back as its magnitude, after a '-' exactly when it is negative |
| `Decimal.ParseNatToString` | components/video-player.tsx:123 | the rendered digits read back as the number |
| `BrowsePage.ToLower` | app/browse/page.tsx:37-39 | lower-casing keeps the length and lowers each character |
| `BrowsePage.IncludesAt` | app/browse/page.tsx:37-39 | `includes` holds iff the needle occurs at some position of the haystack |
| `BrowsePage.FilteredVideos` | app/browse/page.tsx:35-40 | a video is kept iff its lowered title, description or channel name includes the lowered query; the result is a subsequence of the fetched list with the same multiplicities for kept videos |
| `BrowsePage.EmptyQueryKeepsAll` | app/browse/page.tsx:35-40 | an empty query keeps every fetched video, in order |
| `BrowsePage.QueryCaseInsensitive` | app/browse/page.tsx:37-39 | a query and its lower-cased form give the same result |
| `BrowsePage.CategoryTab` | app/browse/page.tsx:123-124 | a tab shows exactly the search results of its category, each as often as in the All tab, as a subsequence of the All tab |
| `BrowsePage.UntabbedCategoryOnlyInAll` | app/browse/page.tsx:83-87 | a video whose category has no tab appears in none of the four category tabs |
| `BrowsePage.BrowseFetchesWholeCatalog` | app/browse/page.tsx:23 | fetching 20 recommendations with no current video yields all eight catalog videos, permuted |
| `ProfilePage.LookupAll` | app/profile/page.tsx:26-31 | the lookups line up with the log, position by position |
| `ProfilePage.WatchHistory` | app/profile/page.tsx:26-34 | the first min(12, number of found videos) of the found videos, in log order; each is from the catalog and has an id that occurs in the log |
| `ProfilePage.FetchWatchHistory` | app/profile/page.tsx:20-34 | the same for the fixed catalog |
| `ProfilePage.HitsFollowLog` | app/profile/page.tsx:26-34 | the ids of the found videos form a subsequence of the logged ids |
| `ProfilePage.HistoryFollowsLogOrder` | app/profile/page.tsx:26-34 | the shown videos' ids, in display order, are a subsequence of the logged ids, most recent first |
| `ProfilePage.RepeatWatchesKept` | app/profile/page.tsx:26-34 | before the cut to 12, a catalog video appears once per log entry naming it |
| `ProfilePage.MissesDropped` | app/profile/page.tsx:28-34 | every shown video is in the catalog, and when nothing was dropped every logged id was in the catalog |
| `ProfilePage.SomesDropsNone` | app/profile/page.tsx:34 | a single null lookup makes `filter(Boolean)` shorter than its input |
| `ProfilePage.AllHitsShowFirstTwelve` | app/profile/page.tsx:34 | when every logged id is in the catalog, the view is the lookups of the first min(12, n) entries, in order |
| `Basics.SliceTo` | app/profile/page.tsx:34 | JavaScript's `slice(0, end)` is the prefix of length min(end, n), counting from the back for a negative end |
| `Basics.Filter` | app/browse/page.tsx:35 | `filter` keeps exactly the elements satisfying the predicate, in order, with their multiplicities |
| `Basics.Somes` | app/profile/page.tsx:34 | `filter(Boolean)` keeps exactly the non-null values, with their multiplicities, in their original order |
| `Basics.SomesOfAllPresent` | app/profile/page.tsx:34 | with no nulls, `filter(Boolean)` keeps every value in place |

## Left out

- Simulated latency is dropped: every `delay`, `setTimeout` and `Promise` wrapper of the services. Each service call is a plain function, and `Promise.all` is a positional map.
- `console.log` and `console.error` output is not modelled.
- The mutable module-level preference array is an explicit value passed in and returned. Concurrent updates racing on it are not modelled.
- Date strings are not parsed: `watchedAt` is already milliseconds. An invalid date, which makes the source's weight NaN, is not modelled.
- `UserService.GetUserInterests` assumes a fresh map behaves like a plain dictionary. In the source, a category named like an inherited object property (`constructor`, `__proto__`) would read a truthy inherited value and concatenate strings; that case is not modelled.
- Statistical uniformity of the shuffle is out of scope. Only the index range `0 <= j <= i` of each draw is modelled.
- The random "progress" value of the profile page's history cards is not modelled.
- Times and volume are Dafny reals, not IEEE doubles. NaN, Infinity and rounding are not modelled.
- `toLowerCase` is ASCII lower-casing. Unicode case mapping is not modelled.
- The media element's own playback, and the rejection of `play()` or `requestFullscreen()`, are not modelled. Commands are abstract outputs, and element notifications are abstract inputs.
- `VideoPlayer.HandleMouseMove` records only the newest timer, because `clearTimeout` cancels the previous one. Timer time is not modelled; the timer fires when a `HideTimerFired` input arrives.
- The listeners the source attaches once at mount are modelled as always active. Whether the element was present at mount is folded into `mediaMounted`.
- React re-render and batching semantics are not modelled beyond the captured `isPlaying` of the timer closure.
- Presentation is not modelled: JSX markup, styling, routing, loading skeletons, and the pages and components that only render.

## Findings

| source | as written | input that shows it | evidently intended | confidence | as-written member | corrected member |
|---|---|---|---|---|---|---|
| components/video-player.tsx:79-87 | `handleVolumeChange` sets `isMuted` to `v == 0` and writes the element's volume, but never writes the element's `muted` flag | press mute (the element becomes muted), then drag the volume to 0.5: the icon shows sound on while the element stays muted | the element's `muted` flag follows `isMuted` | medium, not executed | `VideoPlayer.HandleVolumeChangeAsWritten` | `VideoPlayer.HandleVolumeChange` |

The as-written handler's discrepancy is exhibited by `VideoPlayer.VolumeChangeAsWrittenLeavesElementMuted`. `VideoPlayer.Step` and `VideoPlayer.Run` take the wired volume handler as an argument: the controller properties are proved for both wirings, and with the corrected handler `VideoPlayer.StepKeepsMuteInSync` and `VideoPlayer.RunKeepsMuteInSync` prove that the controller and the element stay in agreement. `VideoPlayer.HandlersAgreeOnState` shows that the two wirings pass through the same states.
