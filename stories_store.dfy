/** The story collection with its 24-hour expiry and its viewing cursor
    (src/store/storiesStore.js). Every operation that reads the clock takes
    the current time `now`, in milliseconds, as a parameter. */
module StoriesStore {
  import opened Filters

  /** 24 hours in milliseconds. */
  const TwentyFourHours: int := 24 * 60 * 60 * 1000

  datatype Story = Story(id: string, image: string, timestamp: int, viewed: bool)

  /** `null` / `undefined` versus a story. */
  datatype Option<T> = None | Some(value: T)

  /** The part of the store's state that is written to local storage. */
  datatype PersistedState = PersistedState(stories: seq<Story>)

  /** The store's own expiry rule: expired only when strictly older than 24 hours,
      so a story stamped in the future, or exactly a day old, is kept. */
  predicate IsStoryExpired(timestamp: int, now: int)
    ensures IsStoryExpired(timestamp, now) ==> timestamp < now
  {
    now - timestamp > TwentyFourHours
  }

  /** Once expired, a story stays expired as the clock moves on; at exactly a day old it
      is still kept, one millisecond later it is not. */
  lemma ExpiryIsPermanent(timestamp: int, now: int, later: int)
    requires now <= later
    ensures IsStoryExpired(timestamp, now) ==> IsStoryExpired(timestamp, later)
    ensures !IsStoryExpired(timestamp, timestamp + TwentyFourHours)
    ensures IsStoryExpired(timestamp, timestamp + TwentyFourHours + 1)
  {
  }

  function NotExpiredAt(now: int): Story -> bool
  {
    (s: Story) => !IsStoryExpired(s.timestamp, now)
  }

  function HasOtherId(id: string): Story -> bool
  {
    (s: Story) => s.id != id
  }

  function Id(s: Story): string { s.id }

  /** The stories that have not expired at `now`, in their stored order. */
  function CleanExpiredStories(stories: seq<Story>, now: int): (r: seq<Story>)
    ensures |r| <= |stories|
    ensures forall i :: 0 <= i < |r| ==> now - r[i].timestamp <= TwentyFourHours
  {
    Filter(stories, NotExpiredAt(now))
  }

  /** The stories without those whose id is `id`, in their stored order. */
  function RemoveById(stories: seq<Story>, id: string): (r: seq<Story>)
    ensures |r| <= |stories|
    ensures forall i :: 0 <= i < |r| ==> r[i].id != id
  {
    Filter(stories, HasOtherId(id))
  }

  /** Sets `viewed` on every story whose id is `id` and leaves everything else as it was. */
  function MarkViewed(stories: seq<Story>, id: string): (r: seq<Story>)
    ensures |r| == |stories|
    ensures forall i :: 0 <= i < |r| ==>
      && r[i].id == stories[i].id
      && r[i].image == stories[i].image
      && r[i].timestamp == stories[i].timestamp
      && r[i].viewed == (stories[i].viewed || stories[i].id == id)
  {
    if stories == [] then []
    else
      var s := stories[0];
      [if s.id == id then s.(viewed := true) else s] + MarkViewed(stories[1..], id)
  }

  /** Reading position `i` of a JavaScript array: `undefined` when out of range. */
  function ElementAt<T>(s: seq<T>, i: int): (r: Option<T>)
    ensures r.Some? <==> 0 <= i < |s|
    ensures r.Some? ==> r.value in s
    ensures 0 <= i < |s| ==> r == Some(s[i])
  {
    if 0 <= i < |s| then Some(s[i]) else None
  }

  ghost predicate UniqueIds(stories: seq<Story>)
  {
    DistinctBy(stories, Id)
  }

  /** The cursor shows, at `index` of the navigation list, the story with the current story's id. */
  ghost predicate CursorOnStory(stories: seq<Story>, current: Option<Story>, index: int, now: int)
  {
    var clean := CleanExpiredStories(stories, now);
    current.Some? && 0 <= index < |clean| && clean[index].id == current.value.id
  }

  // ---------------------------------------------------------------------------
  // Properties of the expiry filter

  /** The cleaned list is exactly the stories at most 24 hours old: each such story keeps
      every occurrence, every older story loses all of them, and the order is kept. */
  lemma CleanKeepsExactlyTheLive(stories: seq<Story>, now: int)
    ensures IsSubsequence(CleanExpiredStories(stories, now), stories)
    ensures forall x :: multiset(CleanExpiredStories(stories, now))[x] ==
                        (if now - x.timestamp <= TwentyFourHours then multiset(stories)[x] else 0)
  {
    FilterIsSubsequence(stories, NotExpiredAt(now));
    forall x
      ensures multiset(CleanExpiredStories(stories, now))[x] ==
        if now - x.timestamp <= TwentyFourHours then multiset(stories)[x] else 0
    {
      FilterCount(stories, NotExpiredAt(now), x);
    }
  }

  lemma CleanMembers(stories: seq<Story>, now: int, x: Story)
    ensures x in CleanExpiredStories(stories, now) <==> x in stories && now - x.timestamp <= TwentyFourHours
  {
    FilterMembers(stories, NotExpiredAt(now), x);
  }

  lemma CleanIdempotent(stories: seq<Story>, now: int)
    ensures CleanExpiredStories(CleanExpiredStories(stories, now), now) == CleanExpiredStories(stories, now)
  {
    FilterThenStronger(stories, NotExpiredAt(now), NotExpiredAt(now));
  }

  /** Expiry is permanent: cleaning at a later time subsumes cleaning at an earlier one. */
  lemma CleanLater(stories: seq<Story>, earlier: int, later: int)
    requires earlier <= later
    ensures CleanExpiredStories(CleanExpiredStories(stories, earlier), later) == CleanExpiredStories(stories, later)
  {
    FilterThenStronger(stories, NotExpiredAt(earlier), NotExpiredAt(later));
  }

  /** Cleaning removed nothing exactly when no story was expired, and then the list is unchanged. */
  lemma CleanRemovedNothing(stories: seq<Story>, now: int)
    ensures |CleanExpiredStories(stories, now)| == |stories| <==> CleanExpiredStories(stories, now) == stories
    ensures CleanExpiredStories(stories, now) == stories <==>
      forall i :: 0 <= i < |stories| ==> !IsStoryExpired(stories[i].timestamp, now)
  {
    FilterKeepsAll(stories, NotExpiredAt(now));
  }

  // ---------------------------------------------------------------------------
  // Properties of removal and of marking as viewed

  /** Removal deletes exactly the stories with that id and keeps the others, in order. */
  lemma RemoveKeepsOthers(stories: seq<Story>, id: string)
    ensures IsSubsequence(RemoveById(stories, id), stories)
    ensures forall x :: multiset(RemoveById(stories, id))[x] ==
                        (if x.id != id then multiset(stories)[x] else 0)
  {
    FilterIsSubsequence(stories, HasOtherId(id));
    forall x
      ensures multiset(RemoveById(stories, id))[x] == if x.id != id then multiset(stories)[x] else 0
    {
      FilterCount(stories, HasOtherId(id), x);
    }
  }

  lemma RemoveAbsentIsNoop(stories: seq<Story>, id: string)
    requires forall i :: 0 <= i < |stories| ==> stories[i].id != id
    ensures RemoveById(stories, id) == stories
  {
    FilterKeepsAll(stories, HasOtherId(id));
  }

  /** Removing a story and then cleaning gives the cleaned list without that story. */
  lemma RemoveThenClean(stories: seq<Story>, id: string, now: int)
    ensures CleanExpiredStories(RemoveById(stories, id), now) == RemoveById(CleanExpiredStories(stories, now), id)
  {
    FilterCommute(stories, HasOtherId(id), NotExpiredAt(now));
  }

  /** With unique ids, removing the id found at position `i` deletes exactly position `i`. */
  lemma {:induction false} RemoveUniqueAt(stories: seq<Story>, i: int)
    requires UniqueIds(stories)
    requires 0 <= i < |stories|
    ensures RemoveById(stories, stories[i].id) == stories[..i] + stories[i + 1..]
  {
    var id := stories[i].id;
    var keep := HasOtherId(id);
    var before, after := stories[..i], stories[i + 1..];
    assert stories == before + [stories[i]] + after;
    FilterAppend(before + [stories[i]], after, keep);
    FilterAppend(before, [stories[i]], keep);
    assert Filter([stories[i]], keep) == [];
    assert forall k :: 0 <= k < |before| ==> keep(before[k]) by {
      assert forall k :: 0 <= k < i ==> Id(stories[k]) != Id(stories[i]);
    }
    FilterKeepsAll(before, keep);
    assert forall k :: 0 <= k < |after| ==> keep(after[k]) by {
      assert forall k :: i < k < |stories| ==> Id(stories[k]) != Id(stories[i]);
    }
    FilterKeepsAll(after, keep);
  }

  lemma MarkViewedIdempotent(stories: seq<Story>, id: string)
    ensures MarkViewed(MarkViewed(stories, id), id) == MarkViewed(stories, id)
  {
  }

  /** Marking a story viewed changes neither which stories are live nor their positions. */
  lemma {:induction false} MarkViewedThenClean(stories: seq<Story>, id: string, now: int)
    ensures CleanExpiredStories(MarkViewed(stories, id), now) == MarkViewed(CleanExpiredStories(stories, now), id)
  {
    if stories != [] {
      MarkViewedThenClean(stories[1..], id, now);
      assert MarkViewed(stories, id)[1..] == MarkViewed(stories[1..], id);
    }
  }

  // ---------------------------------------------------------------------------
  // The delete quirk: the viewer removes the current story and then advances the
  // unchanged index, so it lands two places further on in the old list.

  /** After removing the story under a consistent cursor at `index`, position `index + 1`
      of the new navigation list holds what was at `index + 2`, and the story that was at
      `index + 1` has moved down to `index`, where the cursor no longer looks. */
  lemma DeleteSkipsNext(stories: seq<Story>, index: int, now: int)
    requires UniqueIds(stories)
    requires 0 <= index < |CleanExpiredStories(stories, now)|
    ensures var clean := CleanExpiredStories(stories, now);
            var after := CleanExpiredStories(RemoveById(stories, clean[index].id), now);
            && |after| == |clean| - 1
            && (index < |after| - 1 <==> index + 2 < |clean|)
            && (index + 1 < |after| ==> after[index + 1] == clean[index + 2])
            && (index + 1 < |clean| ==> after[index] == clean[index + 1])
  {
    var clean := CleanExpiredStories(stories, now);
    FilterDistinct(stories, NotExpiredAt(now), Id);
    RemoveThenClean(stories, clean[index].id, now);
    RemoveUniqueAt(clean, index);
  }

  // ---------------------------------------------------------------------------
  // The store

  class Store {
    var stories: seq<Story>
    var currentViewingStory: Option<Story>
    var currentStoryIndex: int

    /** The initial state. */
    constructor ()
      ensures stories == [] && currentViewingStory == None && currentStoryIndex == 0
    {
      stories := [];
      currentViewingStory := None;
      currentStoryIndex := 0;
    }

    /** The state rebuilt from storage: stored stories, default cursor. */
    constructor Rehydrate(saved: PersistedState)
      ensures stories == saved.stories && currentViewingStory == None && currentStoryIndex == 0
      ensures Partialize() == saved
    {
      stories := saved.stories;
      currentViewingStory := None;
      currentStoryIndex := 0;
    }

    /** What is written to storage: the stories, never the cursor. */
    function Partialize(): (p: PersistedState)
      reads this
      ensures p.stories == stories
    {
      PersistedState(stories)
    }

    /** Prepends a new unviewed story stamped `now`, after purging the expired ones. */
    method AddStory(id: string, imageData: string, now: int)
      modifies this
      ensures stories == [Story(id, imageData, now, false)] + CleanExpiredStories(old(stories), now)
      ensures CleanExpiredStories(stories, now) == stories
      ensures currentViewingStory == old(currentViewingStory) && currentStoryIndex == old(currentStoryIndex)
    {
      var newStory := Story(id, imageData, now, false);
      stories := [newStory] + CleanExpiredStories(stories, now);
      CleanIdempotent(old(stories), now);
      FilterAppend([newStory], CleanExpiredStories(old(stories), now), NotExpiredAt(now));
    }

    method RemoveStory(storyId: string)
      modifies this
      ensures stories == RemoveById(old(stories), storyId)
      ensures currentViewingStory == old(currentViewingStory) && currentStoryIndex == old(currentStoryIndex)
    {
      stories := RemoveById(stories, storyId);
    }

    method MarkAsViewed(storyId: string)
      modifies this
      ensures stories == MarkViewed(old(stories), storyId)
      ensures currentViewingStory == old(currentViewingStory) && currentStoryIndex == old(currentStoryIndex)
    {
      stories := MarkViewed(stories, storyId);
    }

    /** Stores the cursor as given, without checking it against the list. */
    method SetCurrentViewingStory(story: Story, index: int)
      modifies this
      ensures currentViewingStory == Some(story) && currentStoryIndex == index
      ensures stories == old(stories)
    {
      currentViewingStory, currentStoryIndex := Some(story), index;
    }

    method ClearCurrentViewingStory()
      modifies this
      ensures currentViewingStory == None && currentStoryIndex == 0
      ensures stories == old(stories)
    {
      currentViewingStory, currentStoryIndex := None, 0;
    }

    /** Advances the cursor within the live stories, or reports that there is no next one. */
    method NextStory(now: int) returns (hasNext: bool)
      modifies this
      ensures stories == old(stories)
      ensures hasNext <==> old(currentStoryIndex) < |CleanExpiredStories(stories, now)| - 1
      ensures hasNext ==> (currentStoryIndex == old(currentStoryIndex) + 1 &&
                           currentViewingStory == ElementAt(CleanExpiredStories(stories, now), currentStoryIndex))
      ensures hasNext && old(currentStoryIndex) >= 0 ==>
                CursorOnStory(stories, currentViewingStory, currentStoryIndex, now)
      ensures !hasNext ==> (currentStoryIndex == old(currentStoryIndex) &&
                            currentViewingStory == old(currentViewingStory))
    {
      var cleanedStories := CleanExpiredStories(stories, now);
      if currentStoryIndex < |cleanedStories| - 1 {
        var nextIndex := currentStoryIndex + 1;
        currentViewingStory, currentStoryIndex := ElementAt(cleanedStories, nextIndex), nextIndex;
        return true;
      }
      return false;
    }

    /** Moves the cursor back one place; the index is not checked against the live list,
        so a cursor beyond its end yields an absent story. */
    method PreviousStory(now: int) returns (hasPrevious: bool)
      modifies this
      ensures stories == old(stories)
      ensures hasPrevious <==> old(currentStoryIndex) > 0
      ensures hasPrevious ==> (currentStoryIndex == old(currentStoryIndex) - 1 &&
                               currentViewingStory == ElementAt(CleanExpiredStories(stories, now), currentStoryIndex))
      ensures hasPrevious && old(currentStoryIndex) <= |CleanExpiredStories(stories, now)| ==>
                CursorOnStory(stories, currentViewingStory, currentStoryIndex, now)
      ensures !hasPrevious ==> (currentStoryIndex == old(currentStoryIndex) &&
                                currentViewingStory == old(currentViewingStory))
    {
      var cleanedStories := CleanExpiredStories(stories, now);
      if currentStoryIndex > 0 {
        var prevIndex := currentStoryIndex - 1;
        currentViewingStory, currentStoryIndex := ElementAt(cleanedStories, prevIndex), prevIndex;
        return true;
      }
      return false;
    }

    /** Returns the live stories and stores them, writing only when something expired. */
    method GetActiveStories(now: int) returns (activeStories: seq<Story>)
      modifies this
      ensures activeStories == CleanExpiredStories(old(stories), now)
      ensures stories == activeStories
      ensures currentViewingStory == old(currentViewingStory) && currentStoryIndex == old(currentStoryIndex)
    {
      activeStories := CleanExpiredStories(stories, now);
      if |activeStories| != |stories| {
        stories := activeStories;
      }
      CleanRemovedNothing(old(stories), now);
    }

    method CleanupExpiredStories(now: int)
      modifies this
      ensures stories == CleanExpiredStories(old(stories), now)
      ensures currentViewingStory == old(currentViewingStory) && currentStoryIndex == old(currentStoryIndex)
    {
      stories := CleanExpiredStories(stories, now);
    }
  }
}
