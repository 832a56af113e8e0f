/**
 * The achievement page of frontend/src/components/AchievementSystem.tsx:
 * picking up to two titles to wear, the category/tab filter of the list
 * shown, and the unlocked/total counters of the category buttons.
 */
module AchievementView {
  import opened Wrappers
  import opened Lists
  import opened PyText
  import opened Achievements

  // ---------------------------------------------------------------------------
  // Title selection: at most two titles, the oldest replaced when a third is picked
  // ---------------------------------------------------------------------------

  /** The selection after clicking `titleId`. */
  function CappedSelection(selected: seq<string>, titleId: string): seq<string> {
    var i := IndexOf(selected, titleId);
    if i >= 0 then RemoveAt(selected, i)
    else if |selected| < 2 then selected + [titleId]
    else selected[0 := titleId]
  }

  /** `handleTitleSelect`: a copy of the selection is changed in place and handed on. */
  method HandleTitleSelect(selectedTitles: seq<string>, titleId: string) returns (newSelectedTitles: seq<string>)
    ensures newSelectedTitles == CappedSelection(selectedTitles, titleId)
  {
    newSelectedTitles := selectedTitles;
    var titleIndex := IndexOf(newSelectedTitles, titleId);
    if titleIndex >= 0 {
      newSelectedTitles := RemoveAt(newSelectedTitles, titleIndex);
    } else {
      if |newSelectedTitles| < 2 {
        newSelectedTitles := newSelectedTitles + [titleId];
      } else {
        newSelectedTitles := newSelectedTitles[0 := titleId];
      }
    }
  }

  /** The three outcomes of a click: deselect, add, or replace the first title. */
  lemma CappedSelectionCases(selected: seq<string>, titleId: string)
    ensures var r := CappedSelection(selected, titleId);
      (titleId in selected ==> r == RemoveFirst(selected, titleId) && |r| == |selected| - 1)
      && (titleId !in selected && |selected| < 2 ==> r == selected + [titleId])
      && (titleId !in selected && |selected| >= 2 ==>
            |r| == |selected| && r[0] == titleId && r[1..] == selected[1..])
  {
    if titleId in selected {
      SpliceIndexOf(selected, titleId);
    }
  }

  /** A selection of at most two distinct titles stays one: the cap holds after every click. */
  lemma CapPreserved(selected: seq<string>, titleId: string)
    requires |selected| <= 2 && NoDuplicates(selected)
    ensures var r := CappedSelection(selected, titleId);
      |r| <= 2 && NoDuplicates(r)
      && (titleId in r <==> titleId !in selected)
  {
    var r := CappedSelection(selected, titleId);
    var i := IndexOf(selected, titleId);
    if i >= 0 {
      assert r == selected[..i] + selected[i + 1..];
      assert titleId !in r by {
        forall k | 0 <= k < |r| ensures r[k] != titleId {
          if k < i { assert r[k] == selected[..i][k]; }
          else { assert r[k] == selected[k + 1]; }
        }
      }
    } else if |selected| < 2 {
      assert r[|selected|] == titleId;
    } else {
      assert r[0] == titleId;
    }
  }

  /** Clicking a fresh title twice, with room for it, changes nothing. */
  lemma ToggleRoundTrip(selected: seq<string>, titleId: string)
    requires titleId !in selected && |selected| < 2
    ensures CappedSelection(CappedSelection(selected, titleId), titleId) == selected
  {
    var once := selected + [titleId];
    assert IndexOf(once, titleId) == |selected| by {
      assert once[|selected|] == titleId && once[..|selected|] == selected;
    }
    assert RemoveAt(once, |selected|) == selected;
  }

  // ---------------------------------------------------------------------------
  // The list shown: a category, then a tab
  // ---------------------------------------------------------------------------

  datatype Category = AchievementCategory | TitleCategory | BadgeCategory

  datatype Tab = AllTab | UnlockedTab | LockedTab

  /** `filteredItems`; badges are listed by another component, so their category shows no achievement. */
  function FilteredItems(achievements: seq<Achievement>, category: Category, tab: Tab): seq<Achievement> {
    if category == BadgeCategory then []
    else
      var items := if category == AchievementCategory then Filter(achievements, (a: Achievement) => !IsTitle(a))
                   else Filter(achievements, IsTitle);
      match tab
      case UnlockedTab => Filter(items, (a: Achievement) => a.unlockedAt.Some?)
      case LockedTab => Filter(items, (a: Achievement) => a.unlockedAt.None?)
      case AllTab => items
  }

  /** Whether an achievement belongs on the list for a category and tab. */
  predicate Shown(a: Achievement, category: Category, tab: Tab) {
    && category != BadgeCategory
    && (category == AchievementCategory ==> !IsTitle(a))
    && (category == TitleCategory ==> IsTitle(a))
    && (tab == UnlockedTab ==> a.unlockedAt.Some?)
    && (tab == LockedTab ==> a.unlockedAt.None?)
  }

  /** The list shown is the achievements that belong on it, in their original order. */
  lemma FilteredItemsExact(achievements: seq<Achievement>, category: Category, tab: Tab)
    ensures FilteredItems(achievements, category, tab) == Filter(achievements, (a: Achievement) => Shown(a, category, tab))
  {
    var shown := (a: Achievement) => Shown(a, category, tab);
    if category == BadgeCategory {
      FilterExt(achievements, shown, (a: Achievement) => false);
      FilterNone(achievements, (a: Achievement) => false);
    } else {
      var byCategory := if category == AchievementCategory then (a: Achievement) => !IsTitle(a) else IsTitle;
      assert Filter(achievements, byCategory)
          == if category == AchievementCategory then Filter(achievements, (a: Achievement) => !IsTitle(a))
             else Filter(achievements, IsTitle);
      match tab
      case UnlockedTab =>
        FilterFilter(achievements, byCategory, (a: Achievement) => a.unlockedAt.Some?, shown);
      case LockedTab =>
        FilterFilter(achievements, byCategory, (a: Achievement) => a.unlockedAt.None?, shown);
      case AllTab =>
        FilterExt(achievements, byCategory, shown);
    }
  }

  /** An achievement is on the list exactly when it is in the achievements and belongs there. */
  lemma FilteredItemsMembers(achievements: seq<Achievement>, category: Category, tab: Tab, a: Achievement)
    ensures a in FilteredItems(achievements, category, tab) <==> a in achievements && Shown(a, category, tab)
  {
    FilteredItemsExact(achievements, category, tab);
    var r := FilteredItems(achievements, category, tab);
    if a in r {
      var k :| 0 <= k < |r| && r[k] == a;
    }
    if a in achievements && Shown(a, category, tab) {
      var k :| 0 <= k < |achievements| && achievements[k] == a;
    }
  }

  /** Within a category, the unlocked and the locked tabs split the full list between them. */
  lemma TabsPartition(achievements: seq<Achievement>, category: Category)
    ensures |FilteredItems(achievements, category, UnlockedTab)| + |FilteredItems(achievements, category, LockedTab)|
         == |FilteredItems(achievements, category, AllTab)|
  {
    if category != BadgeCategory {
      var items := FilteredItems(achievements, category, AllTab);
      FilterPartition(items, (a: Achievement) => a.unlockedAt.Some?, (a: Achievement) => a.unlockedAt.None?);
    }
  }

  // ---------------------------------------------------------------------------
  // The counters on the category buttons
  // ---------------------------------------------------------------------------

  /** `achievementUnlockedCount`: a timestamp counts only when it is a non-empty string. */
  function AchievementUnlockedCount(achievements: seq<Achievement>): nat {
    |Filter(achievements, (a: Achievement) => IsUnlocked(a) && !IsTitle(a))|
  }

  function AchievementTotalCount(achievements: seq<Achievement>): nat {
    |Filter(achievements, (a: Achievement) => !IsTitle(a))|
  }

  function TitleUnlockedCount(achievements: seq<Achievement>): nat {
    |Filter(achievements, (a: Achievement) => IsTitle(a) && IsUnlocked(a))|
  }

  function TitleTotalCount(achievements: seq<Achievement>): nat {
    |Filter(achievements, IsTitle)|
  }

  /** Per category the unlocked count never exceeds the total, and the two totals cover every achievement. */
  lemma CountsBounded(achievements: seq<Achievement>)
    ensures AchievementUnlockedCount(achievements) <= AchievementTotalCount(achievements)
    ensures TitleUnlockedCount(achievements) <= TitleTotalCount(achievements)
    ensures AchievementTotalCount(achievements) + TitleTotalCount(achievements) == |achievements|
  {
    FilterMonotone(achievements, (a: Achievement) => IsUnlocked(a) && !IsTitle(a), (a: Achievement) => !IsTitle(a));
    FilterMonotone(achievements, (a: Achievement) => IsTitle(a) && IsUnlocked(a), IsTitle);
    FilterPartition(achievements, IsTitle, (a: Achievement) => !IsTitle(a));
  }

  /** The totals are the lengths of the full lists, and an unlocked count is at most the length of the
      unlocked tab, the two agreeing when no unlock time is the empty string. */
  lemma CountsMatchTabs(achievements: seq<Achievement>)
    ensures AchievementTotalCount(achievements) == |FilteredItems(achievements, AchievementCategory, AllTab)|
    ensures TitleTotalCount(achievements) == |FilteredItems(achievements, TitleCategory, AllTab)|
    ensures AchievementUnlockedCount(achievements) <= |FilteredItems(achievements, AchievementCategory, UnlockedTab)|
    ensures TitleUnlockedCount(achievements) <= |FilteredItems(achievements, TitleCategory, UnlockedTab)|
    ensures (forall k :: 0 <= k < |achievements| ==> achievements[k].unlockedAt != Some("")) ==>
      AchievementUnlockedCount(achievements) == |FilteredItems(achievements, AchievementCategory, UnlockedTab)|
      && TitleUnlockedCount(achievements) == |FilteredItems(achievements, TitleCategory, UnlockedTab)|
  {
    var unlockedAchievement := (a: Achievement) => IsUnlocked(a) && !IsTitle(a);
    var unlockedTitle := (a: Achievement) => IsTitle(a) && IsUnlocked(a);
    var shownAchievement := (a: Achievement) => Shown(a, AchievementCategory, UnlockedTab);
    var shownTitle := (a: Achievement) => Shown(a, TitleCategory, UnlockedTab);
    FilteredItemsExact(achievements, AchievementCategory, UnlockedTab);
    FilteredItemsExact(achievements, TitleCategory, UnlockedTab);
    FilterMonotone(achievements, unlockedAchievement, shownAchievement);
    FilterMonotone(achievements, unlockedTitle, shownTitle);
    if forall k :: 0 <= k < |achievements| ==> achievements[k].unlockedAt != Some("") {
      FilterExt(achievements, unlockedAchievement, shownAchievement);
      FilterExt(achievements, unlockedTitle, shownTitle);
    }
  }
}
