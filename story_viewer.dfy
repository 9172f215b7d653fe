/** The full-screen viewer's controller logic (src/components/StoryViewer.jsx):
    autoplay progress, pause, navigation, deletion, the mark-viewed effect, the
    key and swipe bindings and the progress-bar widths. The viewer references
    the store it drives; one call of a handler is one event. */
module StoryViewer {
  import opened Filters
  import opened StoriesStore
  import ImageUtils

  /** Display time of one story, in milliseconds. */
  const StoryDuration: int := 5000
  /** Period of the progress timer, in milliseconds. */
  const TickInterval: int := 100
  /** Percent added per tick: 100 / (5000 / 100), which divides exactly, so progress stays integral. */
  const ProgressStep: int := 100 / (StoryDuration / TickInterval)

  /** The values the stored progress can take: 0, 2, ..., 98. */
  predicate ValidProgress(p: int)
  {
    0 <= p < 100 && p % ProgressStep == 0
  }

  datatype TickResult = TickResult(progress: int, advance: bool)

  /** One timer tick: add a step; on reaching 100 ask to advance and restart from 0. */
  function ProgressTick(prev: int): (r: TickResult)
    ensures r.advance <==> prev >= 100 - ProgressStep
    ensures ValidProgress(prev) ==> ValidProgress(r.progress)
    ensures ValidProgress(prev) && !r.advance ==> r.progress == prev + ProgressStep
    ensures r.advance ==> r.progress == 0
  {
    assert ProgressStep == 2;
    var newProgress := prev + ProgressStep;
    if newProgress >= 100 then TickResult(0, true) else TickResult(newProgress, false)
  }

  datatype Run = Run(progress: int, advances: nat)

  /** `ticks` consecutive ticks from progress `p`: the final progress and how many advances. */
  function RunTicks(p: int, ticks: nat): Run
    decreases ticks
  {
    if ticks == 0 then Run(p, 0)
    else
      var t := ProgressTick(p);
      var rest := RunTicks(t.progress, ticks - 1);
      Run(rest.progress, rest.advances + if t.advance then 1 else 0)
  }

  lemma {:induction false} RunTicksFrom(j: nat, ticks: nat)
    requires j < 50 && j + ticks <= 50
    ensures RunTicks(2 * j, ticks) == if j + ticks < 50 then Run(2 * (j + ticks), 0) else Run(0, 1)
    decreases ticks
  {
    if ticks > 0 {
      if j + 1 < 50 {
        RunTicksFrom(j + 1, ticks - 1);
      } else {
        assert RunTicks(0, 0) == Run(0, 0);
      }
    }
  }

  /** From a fresh story, ticks 1 to 49 only raise the progress, by 2 each, and the 50th tick
      (5000 ms) is the first and only one that advances, leaving progress at 0. */
  lemma FiftyTicksPerStory(ticks: nat)
    requires ticks <= 50
    ensures ticks < 50 ==> RunTicks(0, ticks) == Run(2 * ticks, 0)
    ensures ticks == 50 ==> RunTicks(0, ticks) == Run(0, 1)
    ensures ProgressStep * (StoryDuration / TickInterval) == 100
  {
    RunTicksFrom(0, ticks);
  }

  // ---------------------------------------------------------------------------
  // Bindings

  datatype Action = Next | Previous | Close | Delete | NoAction

  /** The keyboard binding. */
  function KeyAction(key: string): (a: Action)
    ensures a == Next <==> key == "ArrowRight"
    ensures a == Previous <==> key == "ArrowLeft"
    ensures a == Close <==> key == "Escape"
    ensures a == Delete <==> key == "Delete" || key == "Backspace"
  {
    match key
    case "ArrowRight" => Next
    case "ArrowLeft" => Previous
    case "Escape" => Close
    case "Delete" => Delete
    case "Backspace" => Delete
    case _ => NoAction
  }

  datatype Swipe = SwipedLeft | SwipedRight | SwipedDown | SwipedUp

  /** The swipe binding; an upward swipe has no handler. */
  function SwipeAction(swipe: Swipe): (a: Action)
    ensures a != Delete
    ensures a == NoAction <==> swipe == SwipedUp
    ensures a == Next <==> swipe == SwipedLeft
    ensures a == Previous <==> swipe == SwipedRight
    ensures a == Close <==> swipe == SwipedDown
  {
    match swipe
    case SwipedLeft => Next
    case SwipedRight => Previous
    case SwipedDown => Close
    case SwipedUp => NoAction
  }

  /** Every swipe does what a key does: a left swipe is ArrowRight, a right swipe
      ArrowLeft, a downward swipe Escape, and an upward swipe the unbound ArrowUp. */
  lemma SwipesAreKeys(swipe: Swipe)
    ensures SwipeAction(swipe) == KeyAction(match swipe
                                            case SwipedLeft => "ArrowRight"
                                            case SwipedRight => "ArrowLeft"
                                            case SwipedDown => "Escape"
                                            case SwipedUp => "ArrowUp")
  {
  }

  // ---------------------------------------------------------------------------
  // What the viewer displays

  /** The viewer's (and the story list's) own rule: live only when strictly younger than 24 hours. */
  function DisplayedAt(now: int): Story -> bool
  {
    (s: Story) => now - s.timestamp < TwentyFourHours
  }

  function ActiveStories(stories: seq<Story>, now: int): (r: seq<Story>)
    ensures forall i :: 0 <= i < |r| ==> now - r[i].timestamp < TwentyFourHours
  {
    Filter(stories, DisplayedAt(now))
  }

  /** The displayed list is the store's navigation list one millisecond later, so it is
      always an order-preserving part of the navigation list. */
  lemma ActiveStoriesWithinNavigation(stories: seq<Story>, now: int)
    ensures ActiveStories(stories, now) == CleanExpiredStories(stories, now + 1)
    ensures ActiveStories(stories, now) == ActiveStories(CleanExpiredStories(stories, now), now)
    ensures IsSubsequence(ActiveStories(stories, now), CleanExpiredStories(stories, now))
  {
    FilterSameCondition(stories, DisplayedAt(now), NotExpiredAt(now + 1));
    FilterThenStronger(stories, NotExpiredAt(now), DisplayedAt(now));
    FilterIsSubsequence(CleanExpiredStories(stories, now), DisplayedAt(now));
  }

  /** A story exactly 24 hours old can be reached by next/previous, yet it is not displayed
      in the lists and its countdown already reads "Expired". */
  lemma ExactlyADayOld(stories: seq<Story>, s: Story, now: int)
    requires s in stories
    requires now - s.timestamp == TwentyFourHours
    ensures s in CleanExpiredStories(stories, now)
    ensures s !in ActiveStories(stories, now)
    ensures ImageUtils.GetTimeRemaining(s.timestamp, now) == "Expired"
  {
    CleanMembers(stories, now, s);
    FilterMembers(stories, DisplayedAt(now), s);
  }

  /** Fill of the progress bar at `index`: full before the current story, `progress` on it, empty after. */
  function BarWidth(index: int, currentIndex: int, progress: int): (w: int)
    ensures 0 <= progress <= 100 ==> 0 <= w <= 100
    ensures index == currentIndex ==> w == progress
    ensures index > currentIndex ==> w == 0
    ensures w == 100 <==> index < currentIndex || (index == currentIndex && progress == 100)
  {
    if index < currentIndex then 100 else if index == currentIndex then progress else 0
  }

  /** One bar per index below `count`; the viewer passes the number of displayed stories. */
  function BarWidths(count: nat, currentIndex: int, progress: int): (w: seq<int>)
    ensures |w| == count
  {
    seq(count, i => BarWidth(i, currentIndex, progress))
  }

  /** With progress in [0, 100], the bars read as a gauge: each width in [0, 100], never
      increasing from left to right, and all full bars come first. */
  lemma BarWidthsGauge(count: nat, currentIndex: int, progress: int)
    requires 0 <= progress <= 100
    ensures var w := BarWidths(count, currentIndex, progress);
            && (forall i :: 0 <= i < count ==> 0 <= w[i] <= 100)
            && (forall i, j :: 0 <= i < j < count ==> w[i] >= w[j])
            && (forall i :: 0 <= i < count ==> (w[i] == 100 <==> i < currentIndex || (i == currentIndex && progress == 100)))
  {
  }

  // ---------------------------------------------------------------------------
  // The controller

  class Viewer {
    const store: Store
    var progress: int
    var isPaused: bool

    ghost predicate Valid()
      reads this
    {
      ValidProgress(progress)
    }

    constructor (store: Store)
      ensures this.store == store && progress == 0 && !isPaused && Valid()
    {
      this.store := store;
      progress := 0;
      isPaused := false;
    }

    method HandleClose()
      modifies this, store
      ensures store.currentViewingStory == None && store.currentStoryIndex == 0 && progress == 0
      ensures store.stories == old(store.stories) && isPaused == old(isPaused)
      ensures Valid()
    {
      store.ClearCurrentViewingStory();
      progress := 0;
    }

    /** Moves to the next live story, or closes when there is none. */
    method HandleNext(now: int)
      modifies this, store
      ensures store.stories == old(store.stories) && progress == 0 && isPaused == old(isPaused)
      ensures Valid()
      ensures var clean := CleanExpiredStories(old(store.stories), now);
              if old(store.currentStoryIndex) < |clean| - 1 then
                store.currentStoryIndex == old(store.currentStoryIndex) + 1 &&
                store.currentViewingStory == ElementAt(clean, store.currentStoryIndex)
              else
                store.currentViewingStory == None && store.currentStoryIndex == 0
    {
      var hasNext := store.NextStory(now);
      if !hasNext {
        HandleClose();
      } else {
        progress := 0;
      }
    }

    /** Moves back one story if there is one; restarts the progress either way. */
    method HandlePrevious(now: int)
      modifies this, store
      ensures store.stories == old(store.stories) && progress == 0 && isPaused == old(isPaused)
      ensures Valid()
      ensures if old(store.currentStoryIndex) > 0 then
                store.currentStoryIndex == old(store.currentStoryIndex) - 1 &&
                store.currentViewingStory == ElementAt(CleanExpiredStories(store.stories, now), store.currentStoryIndex)
              else
                store.currentStoryIndex == old(store.currentStoryIndex) &&
                store.currentViewingStory == old(store.currentViewingStory)
    {
      var _ := store.PreviousStory(now);
      progress := 0;
    }

    /** Removes the story on screen, then advances the unchanged index as HandleNext does. */
    method HandleDelete(now: int)
      modifies this, store
      ensures old(store.currentViewingStory).None? ==>
        store.stories == old(store.stories) && store.currentViewingStory == old(store.currentViewingStory) &&
        store.currentStoryIndex == old(store.currentStoryIndex) && progress == old(progress)
      ensures old(store.currentViewingStory).Some? ==>
        var deleted := old(store.currentViewingStory).value.id;
        var clean := CleanExpiredStories(store.stories, now);
        && store.stories == RemoveById(old(store.stories), deleted)
        && progress == 0
        && (store.currentViewingStory.None? || store.currentViewingStory.value.id != deleted)
        && (if old(store.currentStoryIndex) < |clean| - 1 then
              store.currentStoryIndex == old(store.currentStoryIndex) + 1 &&
              store.currentViewingStory == ElementAt(clean, store.currentStoryIndex)
            else
              store.currentViewingStory == None && store.currentStoryIndex == 0)
      ensures UniqueIds(old(store.stories)) &&
              CursorOnStory(old(store.stories), old(store.currentViewingStory), old(store.currentStoryIndex), now) ==>
        store.currentViewingStory ==
          ElementAt(CleanExpiredStories(old(store.stories), now), old(store.currentStoryIndex) + 2)
      ensures isPaused == old(isPaused)
      ensures old(Valid()) ==> Valid()
    {
      var current := store.currentViewingStory;
      if current.Some? {
        ghost var before := store.stories;
        ghost var index := store.currentStoryIndex;
        store.RemoveStory(current.value.id);
        var hasNext := store.NextStory(now);
        if !hasNext {
          HandleClose();
        } else {
          progress := 0;
        }
        if UniqueIds(before) && CursorOnStory(before, current, index, now) {
          var clean := CleanExpiredStories(before, now);
          assert clean[index].id == current.value.id;
          DeleteSkipsNext(before, index, now);
        }
        if store.currentViewingStory.Some? {
          var after := CleanExpiredStories(store.stories, now);
          assert store.currentViewingStory.value in after;
          CleanMembers(store.stories, now, store.currentViewingStory.value);
        }
      }
    }

    /** One firing of the progress timer. The timer exists only while a story is open and
        playback is not paused; otherwise nothing happens. */
    method Tick(now: int)
      requires Valid()
      modifies this, store
      ensures Valid() && isPaused == old(isPaused)
      ensures old(store.currentViewingStory).None? || old(isPaused) ==>
        progress == old(progress) && store.stories == old(store.stories) &&
        store.currentViewingStory == old(store.currentViewingStory) &&
        store.currentStoryIndex == old(store.currentStoryIndex)
      ensures old(store.currentViewingStory).Some? && !old(isPaused) && !ProgressTick(old(progress)).advance ==>
        progress == old(progress) + ProgressStep && store.stories == old(store.stories) &&
        store.currentViewingStory == old(store.currentViewingStory) &&
        store.currentStoryIndex == old(store.currentStoryIndex)
      ensures old(store.currentViewingStory).Some? && !old(isPaused) && ProgressTick(old(progress)).advance ==>
        progress == 0 && store.stories == old(store.stories) &&
        var clean := CleanExpiredStories(old(store.stories), now);
        if old(store.currentStoryIndex) < |clean| - 1 then
          store.currentStoryIndex == old(store.currentStoryIndex) + 1 &&
          store.currentViewingStory == ElementAt(clean, store.currentStoryIndex)
        else
          store.currentViewingStory == None && store.currentStoryIndex == 0
    {
      if store.currentViewingStory.Some? && !isPaused {
        var t := ProgressTick(progress);
        if t.advance {
          HandleNext(now);
        }
        progress := t.progress;
      }
    }

    /** The effect run when the story on screen changes: an unviewed story gets marked
        viewed in the list (the cursor's own copy is left as it was). */
    method MarkViewedEffect()
      modifies store
      ensures store.currentViewingStory == old(store.currentViewingStory)
      ensures store.currentStoryIndex == old(store.currentStoryIndex)
      ensures Valid() == old(Valid())
      ensures store.stories ==
        if store.currentViewingStory.Some? && !store.currentViewingStory.value.viewed
        then MarkViewed(old(store.stories), store.currentViewingStory.value.id)
        else old(store.stories)
    {
      var current := store.currentViewingStory;
      if current.Some? && !current.value.viewed {
        store.MarkAsViewed(current.value.id);
      }
    }

    /** The pause button. */
    method TogglePause()
      modifies this
      ensures isPaused == !old(isPaused) && progress == old(progress)
      ensures Valid() == old(Valid())
    {
      isPaused := !isPaused;
    }

    /** Pressing or touching the image pauses; releasing resumes. */
    method HoldImage(pressed: bool)
      modifies this
      ensures isPaused == pressed && progress == old(progress)
      ensures Valid() == old(Valid())
    {
      isPaused := pressed;
    }

    method Perform(action: Action, now: int)
      modifies this, store
      ensures action == NoAction ==>
        store.stories == old(store.stories) && store.currentViewingStory == old(store.currentViewingStory) &&
        store.currentStoryIndex == old(store.currentStoryIndex) && progress == old(progress)
      ensures action == Close ==>
        store.currentViewingStory == None && store.currentStoryIndex == 0 && progress == 0 &&
        store.stories == old(store.stories)
      ensures action != NoAction ==> progress == 0 || old(store.currentViewingStory).None?
      ensures action == Next || action == Previous || action == Close ==> progress == 0
      ensures action != Delete ==> store.stories == old(store.stories)
      ensures action == Delete && old(store.currentViewingStory).None? ==>
        store.stories == old(store.stories) && store.currentViewingStory == old(store.currentViewingStory) &&
        store.currentStoryIndex == old(store.currentStoryIndex) && progress == old(progress)
      ensures action == Delete && old(store.currentViewingStory).Some? ==>
        store.stories == RemoveById(old(store.stories), old(store.currentViewingStory).value.id) && progress == 0
      ensures isPaused == old(isPaused)
      ensures old(Valid()) ==> Valid()
    {
      match action
      case Next => HandleNext(now);
      case Previous => HandlePrevious(now);
      case Close => HandleClose();
      case Delete => HandleDelete(now);
      case NoAction =>
    }

    /** A key press; ignored while no story is open. */
    method HandleKeyDown(key: string, now: int)
      modifies this, store
      ensures old(store.currentViewingStory).None? || KeyAction(key) == NoAction ==>
        store.stories == old(store.stories) && store.currentViewingStory == old(store.currentViewingStory) &&
        store.currentStoryIndex == old(store.currentStoryIndex) && progress == old(progress)
      ensures old(store.currentViewingStory).Some? && KeyAction(key) != NoAction ==> progress == 0
      ensures old(store.currentViewingStory).Some? && key == "Escape" ==>
        store.currentViewingStory == None && store.currentStoryIndex == 0
      ensures KeyAction(key) != Delete ==> store.stories == old(store.stories)
      ensures old(store.currentViewingStory).Some? && KeyAction(key) == Delete ==>
        store.stories == RemoveById(old(store.stories), old(store.currentViewingStory).value.id)
      ensures isPaused == old(isPaused)
      ensures old(Valid()) ==> Valid()
    {
      if store.currentViewingStory.None? {
        return;
      }
      Perform(KeyAction(key), now);
    }

    /** A recognised swipe on the overlay, which is only on screen while a story is open. */
    method HandleSwipe(swipe: Swipe, now: int)
      requires store.currentViewingStory.Some?
      modifies this, store
      ensures swipe == SwipedUp ==>
        store.stories == old(store.stories) && store.currentViewingStory == old(store.currentViewingStory) &&
        store.currentStoryIndex == old(store.currentStoryIndex) && progress == old(progress)
      ensures swipe != SwipedUp ==> progress == 0 && store.stories == old(store.stories)
      ensures swipe == SwipedDown ==> store.currentViewingStory == None && store.currentStoryIndex == 0
      ensures isPaused == old(isPaused)
      ensures old(Valid()) ==> Valid()
    {
      Perform(SwipeAction(swipe), now);
    }
  }
}
