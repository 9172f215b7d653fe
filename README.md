# 24-hour stories: store and viewer controller in Dafny

This project models the logic of a small photo-stories widget. A user adds image "stories". Each story expires 24 hours after it is created. The user can view the stories full-screen, with timed autoplay, keyboard and swipe navigation, and deletion.

The model covers three parts of the program:

- **The story store** (`src/store/storiesStore.js`), in module `StoriesStore`.
  - The store holds the list of stories `{id, image, timestamp, viewed}`, the story on screen (`currentViewingStory`, which may be absent) and its index (`currentStoryIndex`).
  - It is a class, `Store`, whose methods replace those fields as the store's actions do.
  - The pure parts are the functions `CleanExpiredStories`, `RemoveById` and `MarkViewed`. They are specified on their own and related to one another by lemmas.
- **The viewer controller** (`src/components/StoryViewer.jsx`, logic only), in module `StoryViewer`.
  - A `Viewer` object holds the autoplay `progress` and the `isPaused` flag, and references the `Store` it drives.
  - Each of its methods is one event: a timer tick, next, previous, close, delete, a key press, a swipe, the pause button, or the mark-viewed effect.
  - The tick arithmetic, the key and swipe bindings, the viewer's own "active" filter and the progress-bar widths are functions, with lemmas about them.
- **Time labels and the upload guard** (`src/utils/imageUtils.js`), in module `ImageUtils`.
  - This covers the countdown label `getTimeRemaining` and the "time ago" label `getRelativeTime`, including the decimal printing of their numbers.
  - It also covers the two checks at the start of `processImage`: the MIME type must start with the text `image/` (a case-sensitive prefix test, as `startsWith` is), and the size must be at most 10 MiB.

Module `Filters` holds the order-preserving `Filter`, the counterpart of `Array.prototype.filter`. The expiry sweep, removal by id and the viewer's displayed list are built from it; `MarkViewed` is a map, not a filter. The module also holds the generic lemmas about `Filter`.

Time is an integer number of milliseconds. Every operation that reads the clock takes it as a parameter `now`.

The two quirks of the program are modelled as written:

- **Expiry boundary.** The store drops a story only when it is strictly older than 24 hours (`IsStoryExpired`). The viewer and the list show a story only while it is strictly younger than 24 hours (`DisplayedAt`). `ExactlyADayOld` proves that a story exactly 24 hours old can still be reached by next/previous, is not displayed, and has the countdown label "Expired". `ActiveStoriesWithinNavigation` proves that the displayed list is the navigation list one millisecond later.
- **Delete skips a story.** Deleting removes the current story and then advances the index, which was not adjusted. `DeleteSkipsNext` and the contract of `Viewer.HandleDelete` prove that the viewer lands on the story that was two places further on in the old list. The story right after the deleted one is shifted onto the index the cursor has just left.

In these places the model follows the code's behaviour, which a reader might not expect:

- The store keeps a story of age exactly 24 hours.
- "Previous" at the first story still restarts the progress.
- `setCurrentViewingStory` and `previousStory` do not check the index against the list. A JavaScript array read out of range gives `undefined`; the model represents that as `None` through `ElementAt`, instead of adding a precondition.
- `addStory` returns nothing.

## Model

| member | source | states |
|---|---|---|
| Filters.Filter | src/store/storiesStore.js:12-14 | the filtered list is no longer than the input, every element satisfies the condition, and every element comes from the input |
| StoriesStore.IsStoryExpired | src/store/storiesStore.js:7-9 | only a story stamped strictly in the past can be expired |
| StoriesStore.ExpiryIsPermanent | src/store/storiesStore.js:7-9 | once expired a story stays expired at every later time; at exactly 24 h old it is not expired, one millisecond later it is |
| StoriesStore.CleanExpiredStories | src/store/storiesStore.js:7-14 | every story left is at most 24 hours old at `now`, and the list does not grow |
| StoriesStore.CleanKeepsExactlyTheLive | src/store/storiesStore.js:7-14 | the cleaned list is a subsequence of the input (order kept); every story at most 24 h old keeps all its occurrences and every older story loses all of them |
| StoriesStore.CleanMembers | src/store/storiesStore.js:7-14 | a story is in the cleaned list iff it is in the input and its age is at most 24 h |
| StoriesStore.CleanIdempotent | src/store/storiesStore.js:12-14 | cleaning twice at the same time equals cleaning once |
| StoriesStore.CleanLater | src/store/storiesStore.js:7-9 | expiry is permanent: cleaning at an earlier time and then at a later time equals cleaning at the later time |
| StoriesStore.CleanRemovedNothing | src/store/storiesStore.js:96-106 | cleaning kept the length iff it kept the list, iff no story was expired; this is why getActiveStories may skip its write |
| StoriesStore.RemoveById | src/store/storiesStore.js:38-42 | no story with the removed id is left, and the list does not grow |
| StoriesStore.RemoveKeepsOthers | src/store/storiesStore.js:38-42 | removal keeps the order, keeps every story with another id and all its occurrences, and drops all stories with that id |
| StoriesStore.RemoveAbsentIsNoop | src/store/storiesStore.js:38-42 | removing an id that no story has leaves the list unchanged |
| StoriesStore.RemoveThenClean | src/store/storiesStore.js:38-42 | removing and then cleaning equals cleaning and then removing |
| StoriesStore.RemoveUniqueAt | src/store/storiesStore.js:40 | with unique ids, removing the id found at position i deletes exactly position i |
| StoriesStore.MarkViewed | src/store/storiesStore.js:45-51 | length, ids, images and timestamps are kept, and `viewed` becomes true exactly on the matching stories (and stays true elsewhere where it was) |
| StoriesStore.MarkViewedIdempotent | src/store/storiesStore.js:45-51 | marking twice equals marking once |
| StoriesStore.MarkViewedThenClean | src/store/storiesStore.js:45-51 | marking does not change which stories are live or their positions: cleaning commutes with marking |
| StoriesStore.ElementAt | src/store/storiesStore.js:68-72 | an array read gives a story exactly when the index is in range, and that story is the list's entry at the index |
| StoriesStore.DeleteSkipsNext | src/components/StoryViewer.jsx:49-59 | with unique ids and a cursor at index i, removing the current story shortens the navigation list by one; there is a next story iff i + 2 was in range; position i + 1 now holds the old i + 2, and the old i + 1 sits at position i |
| StoriesStore.Store.constructor | src/store/storiesStore.js:19-21 | the store starts with no stories, no current story and index 0 |
| StoriesStore.Store.Rehydrate | src/store/storiesStore.js:115-118 | a store rebuilt from storage has the stored stories and the default cursor, and persists back to the same record |
| StoriesStore.Store.Partialize | src/store/storiesStore.js:117 | the persisted record holds the stories and nothing of the cursor |
| StoriesStore.Store.AddStory | src/store/storiesStore.js:24-35 | the new unviewed story stamped `now` is first, followed by the old list cleaned at `now`; afterwards no stored story is expired; the cursor is untouched |
| StoriesStore.Store.RemoveStory | src/store/storiesStore.js:38-42 | the stories become RemoveById of the old ones; the cursor is untouched |
| StoriesStore.Store.MarkAsViewed | src/store/storiesStore.js:45-51 | the stories become MarkViewed of the old ones; the cursor is untouched |
| StoriesStore.Store.SetCurrentViewingStory | src/store/storiesStore.js:54-56 | stores the story and index unvalidated; the list is untouched |
| StoriesStore.Store.ClearCurrentViewingStory | src/store/storiesStore.js:59-61 | no current story and index 0; the list is untouched |
| StoriesStore.Store.NextStory | src/store/storiesStore.js:64-77 | returns true iff index < \|cleaned list\| - 1; then the index goes up by exactly 1 and the current story is the cleaned list's entry there (a story, whenever the old index was not negative); on false nothing changes; the stories are never changed |
| StoriesStore.Store.PreviousStory | src/store/storiesStore.js:80-93 | returns true iff index > 0; then the index goes down by exactly 1 and the current story is the cleaned list's entry there, which is a story whenever the old index was at most the list's length; on false nothing changes; the stories are never changed |
| StoriesStore.Store.GetActiveStories | src/store/storiesStore.js:96-106 | returns the old list cleaned at `now` and leaves exactly that list stored (skipping the write when nothing expired is unobservable, by CleanRemovedNothing); the cursor is untouched |
| StoriesStore.Store.CleanupExpiredStories | src/store/storiesStore.js:109-113 | the stories become the old ones cleaned at `now`; the cursor is untouched |
| StoryViewer.ProgressTick | src/components/StoryViewer.jsx:75-82 | a tick asks to advance iff the previous progress is at least 98; it keeps progress within {0, 2, ..., 98} and otherwise adds exactly 2; an advance restarts progress at 0 |
| StoryViewer.FiftyTicksPerStory | src/components/StoryViewer.jsx:74-83 | the step 100 / (5000 / 100) is exact; from 0, ticks 1 to 49 give progress 2k and no advance, and the 50th tick is the single advance and leaves progress 0 |
| StoryViewer.KeyAction | src/components/StoryViewer.jsx:100-117 | ArrowRight means next, ArrowLeft previous, Escape close, Delete or Backspace delete, and each only for those keys; all other keys are ignored |
| StoryViewer.SwipeAction | src/components/StoryViewer.jsx:62-68 | a left swipe means next, a right swipe previous, a downward swipe close, each only for that swipe; no swipe deletes, and only the upward swipe has no handler |
| StoryViewer.SwipesAreKeys | src/components/StoryViewer.jsx:62-68 | a left swipe does what ArrowRight does, a right swipe ArrowLeft, a downward swipe Escape, and an upward swipe what the unbound ArrowUp does (nothing) |
| StoryViewer.ActiveStories | src/components/StoryViewer.jsx:25-28 | every story shown is strictly younger than 24 hours |
| StoryViewer.ActiveStoriesWithinNavigation | src/components/StoryViewer.jsx:25-28 | the displayed list equals the store's cleaned list at `now + 1`, equals the displayed part of the cleaned list, and is an order-preserving part of the store's navigation list |
| StoryViewer.ExactlyADayOld | src/components/StoryViewer.jsx:27 | a story exactly 24 h old is in the store's navigation list, absent from the displayed list, and its countdown reads "Expired" |
| StoryViewer.BarWidth | src/components/StoryViewer.jsx:143-148 | bars before the current index are full (100), the current bar shows `progress`, and the bars after it are empty (0); with progress in [0, 100] every width is in [0, 100], and a bar is full iff it is before the current index or is the current one at 100 |
| StoryViewer.BarWidths | src/components/StoryViewer.jsx:137-149 | one width per index below `count`; the caller passes the number of displayed stories, which no member ties to `ActiveStories` |
| StoryViewer.BarWidthsGauge | src/components/StoryViewer.jsx:137-149 | with progress in [0, 100] every bar width is in [0, 100], widths never increase from left to right, and a bar is full iff it is before the current index or is the current one at 100 |
| StoryViewer.Viewer.constructor | src/components/StoryViewer.jsx:22-23 | progress starts at 0 and playback is not paused |
| StoryViewer.Viewer.HandleClose | src/components/StoryViewer.jsx:30-33 | no current story, index 0, progress 0; the stories and the pause flag are kept; a valid progress (in {0, 2, ..., 98}) stays valid |
| StoryViewer.Viewer.HandleNext | src/components/StoryViewer.jsx:35-42 | if the store can advance, the index goes up by 1 and shows the cleaned list's entry there; otherwise the viewer closes; progress is 0 either way; a valid progress (in {0, 2, ..., 98}) stays valid |
| StoryViewer.Viewer.HandlePrevious | src/components/StoryViewer.jsx:44-47 | moves back one when the index is positive and otherwise keeps the cursor; progress is reset to 0 even at the first story; a valid progress (in {0, 2, ..., 98}) stays valid |
| StoryViewer.Viewer.HandleDelete | src/components/StoryViewer.jsx:49-59 | a no-op with no story open; otherwise the stories lose the current id, then the viewer advances as HandleNext does or closes; it never shows the deleted id afterwards, and with a consistent cursor and unique ids it shows the story that was at index + 2; a valid progress (in {0, 2, ..., 98}) stays valid |
| StoryViewer.Viewer.Tick | src/components/StoryViewer.jsx:71-86 | nothing changes while closed or paused; otherwise progress grows by 2, or, on reaching 100, the viewer advances (or closes) and progress becomes 0; stored progress stays in {0, 2, ..., 98} |
| StoryViewer.Viewer.MarkViewedEffect | src/components/StoryViewer.jsx:89-93 | an open unviewed story gets marked viewed in the list; the cursor, including its own copy of the story, is untouched; a valid progress (in {0, 2, ..., 98}) stays valid |
| StoryViewer.Viewer.TogglePause | src/components/StoryViewer.jsx:172 | flips the pause flag and keeps the progress; a valid progress (in {0, 2, ..., 98}) stays valid |
| StoryViewer.Viewer.HoldImage | src/components/StoryViewer.jsx:206-209 | pressing pauses and releasing resumes; the progress is kept; a valid progress (in {0, 2, ..., 98}) stays valid |
| StoryViewer.Viewer.Perform | src/components/StoryViewer.jsx:100-117 | ignoring changes nothing; close closes; next, previous and close always restart the progress, and every action restarts it whenever a story was open; a valid progress stays valid; only delete changes the list; delete with no story open changes nothing, and otherwise removes the current id and restarts the progress |
| StoryViewer.Viewer.HandleKeyDown | src/components/StoryViewer.jsx:97-118 | with no story open, or for an unbound key, nothing changes; a bound key restarts the progress; Escape closes (no current story, index 0); only Delete and Backspace change the list, and with a story open they remove its id; a valid progress (in {0, 2, ..., 98}) stays valid |
| StoryViewer.Viewer.HandleSwipe | src/components/StoryViewer.jsx:62-68 | an upward swipe changes nothing; the others restart the progress and keep the list; a downward swipe closes; a valid progress (in {0, 2, ..., 98}) stays valid |
| ImageUtils.NatToString | src/utils/imageUtils.js:91 | a number prints as a non-empty string of decimal digits without leading zeros |
| ImageUtils.NatToStringRoundTrip | src/utils/imageUtils.js:91 | reading the printed digits back gives the number |
| ImageUtils.TimeRemaining | src/utils/imageUtils.js:78-88 | expired iff the age is at least 24 h; otherwise minutes are in [0, 59] and hours and minutes truncate the remaining time down to the minute |
| ImageUtils.GetTimeRemaining | src/utils/imageUtils.js:78-94 | the label is "Expired" iff the age is at least 24 h; otherwise it is the remaining whole hours, printed with "h " only when positive, followed by the remaining minutes and "m"; it shows hours iff at least an hour remains |
| ImageUtils.CountdownAtMostADay | src/utils/imageUtils.js:87-93 | for a story not from the future, hours are at most 24 and reach 24 only at age 0; the label is "24h 0m" iff the age is 0 |
| ImageUtils.FloorDiv | src/utils/imageUtils.js:103 | the quotient is the floor: q * b <= a < q * b + b |
| ImageUtils.NestedFloors | src/utils/imageUtils.js:103-105 | flooring to seconds and then to minutes (and then to hours) equals one floor by 60000 (by 3600000) |
| ImageUtils.RelativeTime | src/utils/imageUtils.js:101-113 | hours iff at least an hour has elapsed, minutes iff between a minute and an hour, "just now" otherwise (also for a future timestamp), each truncated to its unit |
| ImageUtils.GetRelativeTime | src/utils/imageUtils.js:101-114 | "Just now" iff less than a minute has elapsed; otherwise "{h}h ago" or "{m}m ago" with the floored count |
| ImageUtils.ErrorMessage | src/utils/imageUtils.js:14-21 | the two rejections have different messages, and only the size message ends with the "10MB" limit |
| ImageUtils.ValidateImageFile | src/utils/imageUtils.js:13-23 | a non-image type is rejected whatever the size; an image over 10485760 bytes is rejected as too large; everything else, including exactly 10 MiB, passes |

## Left out

- Rendering, JSX, CSS, framer-motion animation and react-swipeable gesture recognition are left out. Only the mapping from a recognised key or swipe to a handler is modelled.
- `setInterval`/`clearInterval` and effect cleanup are left out. One firing of the progress timer is one call of `Viewer.Tick`. The store's one-minute expiry sweep is a call of `Store.CleanupExpiredStories`.
- React's scheduling is left out. The effect that marks a story viewed is the method `Viewer.MarkViewedEffect`, which the caller runs after the story on screen changes. Handlers read the store's current state, not the state captured at the last render. The hazard of `handleNext` running inside a state updater is not modelled.
- Zustand's `create`/`persist` and the localStorage serialisation are left out. The model keeps only the persisted projection (`Store.Partialize`) and the default merge on reload (`Store.Rehydrate`).
- `Date.now()` is the parameter `now`. The story id comes from `Date.now().toString()`, and two stories added in the same millisecond would collide. The model takes the id as a parameter of `Store.AddStory`, and states id uniqueness as a premise where it matters (`DeleteSkipsNext`, `Viewer.HandleDelete`).
- The FileReader, Image, canvas and `toDataURL` pipeline of `processImage` is left out, because it is browser I/O with asynchronous callbacks. The aspect-ratio downscale is floating-point arithmetic, so it is left out too.
- `Math.floor` of a double-precision quotient is modelled as exact integer floor division. This assumes the floating-point quotient of the integer millisecond values floors to the same integer.
- Opening a story from the list is `Store.SetCurrentViewingStory`. The rest of `src/components/StoriesList.jsx`, and `src/components/AddStory.jsx`, `src/components/StoryCircle.jsx` and `src/App.jsx`, are rendering and asynchronous upload flow and are not part of this model.
- StoryViewer.Viewer.Perform: for next and previous it states only the reset progress and the kept list, and for delete with a story open only the new list and the reset progress, not where the cursor lands. The full effect of each is the contract of HandleNext, HandlePrevious or HandleDelete, which it calls.
- StoryViewer.Viewer.HandleKeyDown: for the arrow keys it states only the reset progress and the kept list, and for Delete and Backspace only the new list and the reset progress, not where the cursor lands. The full effect is that of the handler chosen by KeyAction.
- StoryViewer.Viewer.HandleSwipe: for left and right swipes it states only the reset progress and the kept list. The full effect is that of HandleNext or HandlePrevious.
- `e.preventDefault()` on Delete and Backspace is left out: it only stops the browser's default action for the key and changes no state of the store or the viewer.
