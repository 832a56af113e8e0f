/**
 * The achievement bookkeeping of frontend/src/utils/achievements.ts:
 * `checkAchievements`, which unlocks what has just been earned, and
 * `getAvailableTitles`, which buckets the unlocked titles by attribute.
 *
 * An attribute record is a map from attribute key to level; a key it does
 * not have is JavaScript's `undefined`, whose `.level` throws a TypeError.
 * An achievement's `condition` closure is named by a string, and `holds`
 * says what each named condition evaluates to on the current attributes
 * and events. The unlock time `new Date().toISOString()` is the parameter `now`.
 */
module Achievements {
  import opened Wrappers
  import opened Lists

  datatype Achievement = Achievement(
    id: string,
    title: string,
    isTitle: Option<bool>,
    unlockedAt: Option<string>,         // `string | null`
    attributeRequirement: Option<string>,
    levelRequirement: Option<int>,
    condition: Option<string>)          // the closure, by name

  /** A JavaScript string used as a condition: `undefined`, `null` and `""` are false. */
  predicate Truthy(s: Option<string>) {
    s.Some? && s.value != ""
  }

  predicate IsTitle(a: Achievement) {
    a.isTitle == Some(true)
  }

  predicate IsUnlocked(a: Achievement) {
    Truthy(a.unlockedAt)
  }

  /** `achievement.isTitle && achievement.attributeRequirement && achievement.levelRequirement`. */
  predicate HasLevelRule(a: Achievement) {
    IsTitle(a) && Truthy(a.attributeRequirement) && a.levelRequirement.Some? && a.levelRequirement.value != 0
  }

  const LevelLookupError: string := "TypeError: Cannot read properties of undefined (reading 'level')"
  const PushError: string := "TypeError: Cannot read properties of undefined (reading 'push')"

  /** The keys of the `Attributes` record. */
  const AttributeKeys: seq<string> := ["int", "str", "vit", "cha", "eq", "cre"]

  /** A title unlocked by reaching `level` in attribute `key`. */
  function LevelTitle(id: string, title: string, key: string, level: int): Achievement {
    Achievement(id, title, Some(true), None, Some(key), Some(level), None)
  }

  /** The system-defined titles, as the source defines them. */
  const InitialTitles: seq<Achievement> := [
    LevelTitle("title_int_5", "智识新秀", "int", 5),
    LevelTitle("title_int_10", "智慧大师", "int", 10),
    LevelTitle("title_str_5", "力量新秀", "phy", 5),
    LevelTitle("title_str_10", "体魄王者", "phy", 10),
    LevelTitle("title_vit_5", "活力先锋", "wil", 5),
    LevelTitle("title_cha_5", "社交达人", "cha", 5),
    LevelTitle("title_eq_5", "情感专家", "men", 5),
    LevelTitle("title_cre_5", "创意天才", "cre", 5)
  ]

  /** The same titles with their requirements named by attribute keys. */
  const CorrectedInitialTitles: seq<Achievement> := [
    LevelTitle("title_int_5", "智识新秀", "int", 5),
    LevelTitle("title_int_10", "智慧大师", "int", 10),
    LevelTitle("title_str_5", "力量新秀", "str", 5),
    LevelTitle("title_str_10", "体魄王者", "str", 10),
    LevelTitle("title_vit_5", "活力先锋", "vit", 5),
    LevelTitle("title_cha_5", "社交达人", "cha", 5),
    LevelTitle("title_eq_5", "情感专家", "eq", 5),
    LevelTitle("title_cre_5", "创意天才", "cre", 5)
  ]

  /** The levels of a new user: every attribute at level 1. */
  const StartingLevels: map<string, int> := map["int" := 1, "str" := 1, "vit" := 1, "cha" := 1, "eq" := 1, "cre" := 1]

  // ---------------------------------------------------------------------------
  // checkAchievements
  // ---------------------------------------------------------------------------

  /** Whether a locked achievement is earned now; a level rule on a missing attribute throws. */
  function Earned(a: Achievement, levels: map<string, int>, holds: string -> bool): Result<bool> {
    if HasLevelRule(a) then
      var key := a.attributeRequirement.value;
      if key in levels then Success(levels[key] >= a.levelRequirement.value)
      else Failure(LevelLookupError)
    else Success(a.condition.Some? && holds(a.condition.value))
  }

  function Unlock(a: Achievement, now: string): Achievement {
    a.(unlockedAt := Some(now))
  }

  /** The list `checkAchievements` returns for `achs`, or the exception it throws. */
  function NewlyUnlocked(achs: seq<Achievement>, levels: map<string, int>, holds: string -> bool, now: string): Result<seq<Achievement>> {
    if achs == [] then Success([])
    else
      var before := NewlyUnlocked(achs[..|achs| - 1], levels, holds, now);
      var a := achs[|achs| - 1];
      if before.Failure? || IsUnlocked(a) then before
      else
        match Earned(a, levels, holds)
        case Failure(e) => Failure(e)
        case Success(earned) => Success(before.value + if earned then [Unlock(a, now)] else [])
  }

  lemma NewlyUnlockedSnoc(achs: seq<Achievement>, i: nat, levels: map<string, int>, holds: string -> bool, now: string)
    requires i < |achs|
    ensures NewlyUnlocked(achs[..i + 1], levels, holds, now)
         == var before := NewlyUnlocked(achs[..i], levels, holds, now);
            var a := achs[i];
            if before.Failure? || IsUnlocked(a) then before
            else match Earned(a, levels, holds)
              case Failure(e) => Failure(e)
              case Success(earned) => Success(before.value + if earned then [Unlock(a, now)] else [])
  {
    assert achs[..i + 1][..i] == achs[..i];
  }

  /** Once one achievement has thrown, the loop never returns normally. */
  lemma {:induction false} FailureSticks(achs: seq<Achievement>, i: nat, levels: map<string, int>, holds: string -> bool, now: string)
    requires i <= |achs|
    requires NewlyUnlocked(achs[..i], levels, holds, now).Failure?
    ensures NewlyUnlocked(achs, levels, holds, now).Failure?
    decreases |achs| - i
  {
    if i == |achs| {
      assert achs[..i] == achs;
    } else {
      NewlyUnlockedSnoc(achs, i, levels, holds, now);
      FailureSticks(achs, i + 1, levels, holds, now);
    }
  }

  /** `checkAchievements(attributes, events, currentAchievements)`. */
  method CheckAchievements(levels: map<string, int>, holds: string -> bool, currentAchievements: seq<Achievement>, now: string)
    returns (r: Result<seq<Achievement>>)
    ensures r == NewlyUnlocked(currentAchievements, levels, holds, now)
  {
    var newlyUnlocked: seq<Achievement> := [];
    for i := 0 to |currentAchievements|
      invariant NewlyUnlocked(currentAchievements[..i], levels, holds, now) == Success(newlyUnlocked)
    {
      NewlyUnlockedSnoc(currentAchievements, i, levels, holds, now);
      assert newlyUnlocked + [] == newlyUnlocked;
      var achievement := currentAchievements[i];
      if IsUnlocked(achievement) {
        continue;
      }
      if HasLevelRule(achievement) {
        var key := achievement.attributeRequirement.value;
        if key !in levels {
          FailureSticks(currentAchievements, i + 1, levels, holds, now);
          assert NewlyUnlocked(currentAchievements, levels, holds, now) == Failure(LevelLookupError) by {
            assert NewlyUnlocked(currentAchievements, levels, holds, now).Failure?;
            FailureMessage(currentAchievements, levels, holds, now);
          }
          return Failure(LevelLookupError);
        }
        if levels[key] >= achievement.levelRequirement.value {
          newlyUnlocked := newlyUnlocked + [Unlock(achievement, now)];
        }
      } else if achievement.condition.Some? {
        if holds(achievement.condition.value) {
          newlyUnlocked := newlyUnlocked + [Unlock(achievement, now)];
        }
      }
    }
    assert currentAchievements[..|currentAchievements|] == currentAchievements;
    return Success(newlyUnlocked);
  }

  /** The only exception the loop can raise is the failed level lookup. */
  lemma {:induction false} FailureMessage(achs: seq<Achievement>, levels: map<string, int>, holds: string -> bool, now: string)
    ensures NewlyUnlocked(achs, levels, holds, now).Failure? ==> NewlyUnlocked(achs, levels, holds, now).error == LevelLookupError
  {
    if achs != [] {
      FailureMessage(achs[..|achs| - 1], levels, holds, now);
    }
  }

  // ---------------------------------------------------------------------------
  // getAvailableTitles
  // ---------------------------------------------------------------------------

  /** The buckets `getAvailableTitles` starts with. */
  const BucketKeys: seq<string> := ["int", "phy", "wil", "cha", "men", "cre"]

  function EmptyBuckets(keys: seq<string>): (m: map<string, seq<Achievement>>)
    ensures forall k :: k in m <==> k in keys
    ensures forall k :: k in m ==> m[k] == []
  {
    map k | k in keys :: []
  }

  /** `a.isTitle && a.unlockedAt`. */
  predicate IsUnlockedTitle(a: Achievement) {
    IsTitle(a) && IsUnlocked(a)
  }

  /** The `forEach` over the unlocked titles: push each into the bucket of its requirement;
      a requirement with no bucket is `undefined.push`, a TypeError. */
  function Bucketed(titles: seq<Achievement>, buckets: map<string, seq<Achievement>>): Result<map<string, seq<Achievement>>> {
    if titles == [] then Success(buckets)
    else
      var before := Bucketed(titles[..|titles| - 1], buckets);
      var t := titles[|titles| - 1];
      if before.Failure? || !Truthy(t.attributeRequirement) then before
      else
        var key := t.attributeRequirement.value;
        if key !in before.value then Failure(PushError)
        else Success(before.value[key := before.value[key] + [t]])
  }

  /** The result of bucketing the unlocked titles of `achs` into buckets named `keys`. */
  function TitlesByAttribute(achs: seq<Achievement>, keys: seq<string>): Result<map<string, seq<Achievement>>> {
    Bucketed(Filter(achs, IsUnlockedTitle), EmptyBuckets(keys))
  }

  lemma BucketedSnoc(titles: seq<Achievement>, i: nat, buckets: map<string, seq<Achievement>>)
    requires i < |titles|
    ensures Bucketed(titles[..i + 1], buckets)
         == var before := Bucketed(titles[..i], buckets);
            var t := titles[i];
            if before.Failure? || !Truthy(t.attributeRequirement) then before
            else
              var key := t.attributeRequirement.value;
              if key !in before.value then Failure(PushError)
              else Success(before.value[key := before.value[key] + [t]])
  {
    assert titles[..i + 1][..i] == titles[..i];
  }

  lemma {:induction false} BucketFailureSticks(titles: seq<Achievement>, i: nat, buckets: map<string, seq<Achievement>>)
    requires i <= |titles|
    requires Bucketed(titles[..i], buckets).Failure?
    ensures Bucketed(titles, buckets) == Failure(PushError)
    decreases |titles| - i
  {
    if i == |titles| {
      assert titles[..i] == titles;
      BucketFailureIsPush(titles, buckets);
    } else {
      BucketedSnoc(titles, i, buckets);
      BucketFailureSticks(titles, i + 1, buckets);
    }
  }

  lemma {:induction false} BucketFailureIsPush(titles: seq<Achievement>, buckets: map<string, seq<Achievement>>)
    ensures Bucketed(titles, buckets).Failure? ==> Bucketed(titles, buckets).error == PushError
  {
    if titles != [] {
      BucketFailureIsPush(titles[..|titles| - 1], buckets);
    }
  }

  /** `getAvailableTitles(achievements, attributes)`. */
  method GetAvailableTitles(achievements: seq<Achievement>) returns (r: Result<map<string, seq<Achievement>>>)
    ensures r == TitlesByAttribute(achievements, BucketKeys)
  {
    var titles := EmptyBuckets(BucketKeys);
    var unlockedTitles := Filter(achievements, IsUnlockedTitle);
    for i := 0 to |unlockedTitles|
      invariant Bucketed(unlockedTitles[..i], EmptyBuckets(BucketKeys)) == Success(titles)
    {
      BucketedSnoc(unlockedTitles, i, EmptyBuckets(BucketKeys));
      var title := unlockedTitles[i];
      if Truthy(title.attributeRequirement) {
        var key := title.attributeRequirement.value;
        if key !in titles {
          BucketFailureSticks(unlockedTitles, i + 1, EmptyBuckets(BucketKeys));
          return Failure(PushError);
        }
        titles := titles[key := titles[key] + [title]];
      }
    }
    assert unlockedTitles[..|unlockedTitles|] == unlockedTitles;
    return Success(titles);
  }
}
