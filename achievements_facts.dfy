/**
 * What `checkAchievements` and `getAvailableTitles` return, stated without
 * reference to their loops, and what follows for the system-defined titles.
 */
module AchievementsFacts {
  import opened Wrappers
  import opened Lists
  import opened Achievements

  /** A locked achievement whose check throws. */
  predicate Throws(a: Achievement, levels: map<string, int>, holds: string -> bool) {
    !IsUnlocked(a) && Earned(a, levels, holds).Failure?
  }

  /** A locked achievement that is earned now. */
  predicate JustEarned(a: Achievement, levels: map<string, int>, holds: string -> bool) {
    !IsUnlocked(a) && Earned(a, levels, holds) == Success(true)
  }

  ghost predicate DistinctIds(achs: seq<Achievement>) {
    forall i, j :: 0 <= i < j < |achs| ==> achs[i].id != achs[j].id
  }

  // ---------------------------------------------------------------------------
  // checkAchievements
  // ---------------------------------------------------------------------------

  /** The check throws iff some locked achievement's check throws. */
  lemma {:induction false} NewlyUnlockedSucceedsIff(achs: seq<Achievement>, levels: map<string, int>, holds: string -> bool, now: string)
    ensures NewlyUnlocked(achs, levels, holds, now).Success?
        <==> forall k :: 0 <= k < |achs| ==> !Throws(achs[k], levels, holds)
  {
    if achs != [] {
      var init := achs[..|achs| - 1];
      NewlyUnlockedSucceedsIff(init, levels, holds, now);
      assert forall k :: 0 <= k < |init| ==> achs[k] == init[k];
    }
  }

  /** When it returns, the check returns, in input order, the achievements that are locked and
      earned, each with its unlock time set. */
  lemma NewlyUnlockedValue(achs: seq<Achievement>, levels: map<string, int>, holds: string -> bool, now: string)
    requires NewlyUnlocked(achs, levels, holds, now).Success?
    ensures NewlyUnlocked(achs, levels, holds, now).value
         == Map(Filter(achs, (a: Achievement) => JustEarned(a, levels, holds)), (a: Achievement) => Unlock(a, now))
  {
    NewlyUnlockedMapFilter(achs, levels, holds, now,
      (a: Achievement) => JustEarned(a, levels, holds), (a: Achievement) => Unlock(a, now));
  }

  /** `NewlyUnlockedValue` for any pair of functions that agree with the two tests. */
  lemma {:induction false} NewlyUnlockedMapFilter(achs: seq<Achievement>, levels: map<string, int>, holds: string -> bool, now: string,
                                                  earned: Achievement -> bool, unlock: Achievement -> Achievement)
    requires NewlyUnlocked(achs, levels, holds, now).Success?
    requires forall x :: earned(x) == JustEarned(x, levels, holds)
    requires forall x :: unlock(x) == Unlock(x, now)
    ensures NewlyUnlocked(achs, levels, holds, now).value == Map(Filter(achs, earned), unlock)
  {
    if achs != [] {
      var init := achs[..|achs| - 1];
      var a := achs[|achs| - 1];
      NewlyUnlockedLast(achs, levels, holds, now);
      NewlyUnlockedMapFilter(init, levels, holds, now, earned, unlock);
      var step: seq<Achievement> := if earned(a) then [unlock(a)] else [];
      assert step == if JustEarned(a, levels, holds) then [Unlock(a, now)] else [];
      SplitLast(achs);
      MapFilterSnoc(init, a, earned, unlock);
      assert NewlyUnlocked(achs, levels, holds, now).value == Map(Filter(init, earned), unlock) + step;
    }
  }

  /** One step of the check: a successful run on a list succeeded on all but its last element, and
      adds that element, unlocked, exactly when it is newly earned. */
  lemma NewlyUnlockedLast(achs: seq<Achievement>, levels: map<string, int>, holds: string -> bool, now: string)
    requires achs != [] && NewlyUnlocked(achs, levels, holds, now).Success?
    ensures var before := NewlyUnlocked(achs[..|achs| - 1], levels, holds, now);
      var a := achs[|achs| - 1];
      before.Success?
      && NewlyUnlocked(achs, levels, holds, now).value
         == before.value + (if JustEarned(a, levels, holds) then [Unlock(a, now)] else [])
  {
  }

  /** In a list with distinct ids, an achievement comes back iff it was locked and is earned now:
      a title with a level rule by its level alone, anything else by its condition. */
  lemma ReturnedIff(achs: seq<Achievement>, levels: map<string, int>, holds: string -> bool, now: string, k: nat)
    requires DistinctIds(achs) && k < |achs|
    requires NewlyUnlocked(achs, levels, holds, now).Success?
    ensures var r := NewlyUnlocked(achs, levels, holds, now).value;
      var a := achs[k];
      (exists j :: 0 <= j < |r| && r[j].id == a.id)
      <==> !IsUnlocked(a)
           && if HasLevelRule(a) then
                a.attributeRequirement.value in levels && levels[a.attributeRequirement.value] >= a.levelRequirement.value
              else a.condition.Some? && holds(a.condition.value)
  {
    NewlyUnlockedValue(achs, levels, holds, now);
    var earned := (x: Achievement) => JustEarned(x, levels, holds);
    var f := Filter(achs, earned);
    var r := NewlyUnlocked(achs, levels, holds, now).value;
    var a := achs[k];
    if earned(a) {
      assert a in f;
      var j :| 0 <= j < |f| && f[j] == a;
      assert r[j].id == a.id;
    }
    if exists j :: 0 <= j < |r| && r[j].id == a.id {
      var j :| 0 <= j < |r| && r[j].id == a.id;
      assert f[j] in achs && earned(f[j]);
      var m :| 0 <= m < |achs| && achs[m] == f[j];
      assert m == k;
    }
  }

  /** Every returned achievement is a locked, earned input with only its unlock time changed. */
  lemma ReturnedShape(achs: seq<Achievement>, levels: map<string, int>, holds: string -> bool, now: string)
    requires NewlyUnlocked(achs, levels, holds, now).Success?
    ensures var r := NewlyUnlocked(achs, levels, holds, now).value;
      |r| <= |achs|
      && forall j :: 0 <= j < |r| ==>
           r[j].unlockedAt == Some(now)
           && exists k :: 0 <= k < |achs| && r[j] == achs[k].(unlockedAt := Some(now)) && !IsUnlocked(achs[k])
  {
    NewlyUnlockedValue(achs, levels, holds, now);
    var earned := (x: Achievement) => JustEarned(x, levels, holds);
    var f := Filter(achs, earned);
    var r := NewlyUnlocked(achs, levels, holds, now).value;
    forall j | 0 <= j < |r|
      ensures exists k :: 0 <= k < |achs| && r[j] == achs[k].(unlockedAt := Some(now)) && !IsUnlocked(achs[k])
    {
      assert f[j] in achs && earned(f[j]);
      var k :| 0 <= k < |achs| && achs[k] == f[j];
      assert r[j] == achs[k].(unlockedAt := Some(now));
    }
  }

  /** As written, checking the system-defined titles for a new user throws: `attributes.phy` is undefined. */
  lemma InitialTitlesThrow(holds: string -> bool, now: string)
    ensures NewlyUnlocked(InitialTitles, StartingLevels, holds, now) == Failure(LevelLookupError)
  {
    assert "phy" !in StartingLevels;
    assert Throws(InitialTitles[2], StartingLevels, holds);
    NewlyUnlockedSucceedsIff(InitialTitles, StartingLevels, holds, now);
    FailureMessage(InitialTitles, StartingLevels, holds, now);
  }

  lemma CorrectedTitlesHaveKnownKeys(k: nat)
    requires k < |CorrectedInitialTitles|
    ensures HasLevelRule(CorrectedInitialTitles[k])
    ensures CorrectedInitialTitles[k].attributeRequirement.value in AttributeKeys
    ensures CorrectedInitialTitles[k].levelRequirement.value >= 5
  {
  }

  /** With requirements named by attribute keys, the check never throws on a full attribute record. */
  lemma CorrectedTitlesNeverThrow(levels: map<string, int>, holds: string -> bool, now: string)
    requires forall i :: 0 <= i < |AttributeKeys| ==> AttributeKeys[i] in levels
    ensures NewlyUnlocked(CorrectedInitialTitles, levels, holds, now).Success?
  {
    forall k | 0 <= k < |CorrectedInitialTitles| ensures !Throws(CorrectedInitialTitles[k], levels, holds) {
      CorrectedTitlesHaveKnownKeys(k);
    }
    NewlyUnlockedSucceedsIff(CorrectedInitialTitles, levels, holds, now);
  }

  /** ... and a new user has earned none of them. */
  lemma NewUserHasNoTitle(holds: string -> bool, now: string)
    ensures NewlyUnlocked(CorrectedInitialTitles, StartingLevels, holds, now) == Success([])
  {
    forall i | 0 <= i < |AttributeKeys| ensures AttributeKeys[i] in StartingLevels && StartingLevels[AttributeKeys[i]] == 1 {
    }
    CorrectedTitlesNeverThrow(StartingLevels, holds, now);
    NewlyUnlockedValue(CorrectedInitialTitles, StartingLevels, holds, now);
    var earned := (x: Achievement) => JustEarned(x, StartingLevels, holds);
    forall k | 0 <= k < |CorrectedInitialTitles| ensures !earned(CorrectedInitialTitles[k]) {
      CorrectedTitlesHaveKnownKeys(k);
    }
  }

  // ---------------------------------------------------------------------------
  // getAvailableTitles
  // ---------------------------------------------------------------------------

  predicate NoBlankKey(keys: seq<string>) {
    forall i :: 0 <= i < |keys| ==> keys[i] != ""
  }

  /** Bucketing succeeds iff every title with a requirement has a bucket; each bucket then holds
      exactly the titles with that requirement, in order, and no bucket is added. */
  lemma {:induction false} BucketedMeaning(titles: seq<Achievement>, keys: seq<string>)
    requires NoBlankKey(keys)
    ensures var r := Bucketed(titles, EmptyBuckets(keys));
      (r.Success? <==> forall j :: 0 <= j < |titles| && Truthy(titles[j].attributeRequirement) ==>
                         titles[j].attributeRequirement.value in keys)
      && (r.Success? ==>
            (forall k :: k in r.value <==> k in keys)
            && forall k :: k in r.value ==> r.value[k] == Filter(titles, (t: Achievement) => t.attributeRequirement == Some(k)))
  {
    if titles != [] {
      var init := titles[..|titles| - 1];
      var t := titles[|titles| - 1];
      BucketedMeaning(init, keys);
      SplitLast(titles);
      assert forall j :: 0 <= j < |init| ==> titles[j] == init[j];
      var before := Bucketed(init, EmptyBuckets(keys));
      if before.Success? {
        var r := Bucketed(titles, EmptyBuckets(keys));
        forall k | k in keys ensures
          Filter(titles, (x: Achievement) => x.attributeRequirement == Some(k))
          == Filter(init, (x: Achievement) => x.attributeRequirement == Some(k))
             + (if t.attributeRequirement == Some(k) then [t] else [])
        {
          var eqk := (x: Achievement) => x.attributeRequirement == Some(k);
          FilterConcat(init, [t], eqk);
          assert Filter([t], eqk) == if eqk(t) then [t] else [];
        }
        if Truthy(t.attributeRequirement) && t.attributeRequirement.value in keys {
          var key := t.attributeRequirement.value;
          assert r == Success(before.value[key := before.value[key] + [t]]);
        }
      }
    }
  }

  /** `getAvailableTitles` as written succeeds iff every unlocked title's requirement is one of
      `int, phy, wil, cha, men, cre`; bucket `k` then holds exactly the unlocked titles requiring `k`, in order. */
  lemma AvailableTitlesExact(achs: seq<Achievement>, keys: seq<string>)
    requires NoBlankKey(keys)
    ensures var r := TitlesByAttribute(achs, keys);
      (r.Success? <==> forall j :: 0 <= j < |achs| && IsUnlockedTitle(achs[j]) && Truthy(achs[j].attributeRequirement) ==>
                         achs[j].attributeRequirement.value in keys)
      && (r.Success? ==>
            (forall k :: k in r.value <==> k in keys)
            && forall k :: k in r.value ==>
                 r.value[k] == Filter(achs, (a: Achievement) => IsUnlockedTitle(a) && a.attributeRequirement == Some(k)))
  {
    var titles := Filter(achs, IsUnlockedTitle);
    BucketedMeaning(titles, keys);
    UnlockedTitlesHaveBuckets(achs, keys);
    forall k | k in keys ensures
      Filter(titles, (t: Achievement) => t.attributeRequirement == Some(k))
      == Filter(achs, (a: Achievement) => IsUnlockedTitle(a) && a.attributeRequirement == Some(k))
    {
      FilterFilter(achs, IsUnlockedTitle, (t: Achievement) => t.attributeRequirement == Some(k),
                   (a: Achievement) => IsUnlockedTitle(a) && a.attributeRequirement == Some(k));
    }
  }

  lemma UnlockedTitlesHaveBuckets(achs: seq<Achievement>, keys: seq<string>)
    ensures var titles := Filter(achs, IsUnlockedTitle);
      (forall j :: 0 <= j < |titles| && Truthy(titles[j].attributeRequirement) ==> titles[j].attributeRequirement.value in keys)
      <==> (forall j :: 0 <= j < |achs| && IsUnlockedTitle(achs[j]) && Truthy(achs[j].attributeRequirement) ==>
              achs[j].attributeRequirement.value in keys)
  {
    var titles := Filter(achs, IsUnlockedTitle);
    if forall j :: 0 <= j < |titles| && Truthy(titles[j].attributeRequirement) ==> titles[j].attributeRequirement.value in keys {
      forall j | 0 <= j < |achs| && IsUnlockedTitle(achs[j]) && Truthy(achs[j].attributeRequirement)
        ensures achs[j].attributeRequirement.value in keys
      {
        assert achs[j] in titles;
        var m :| 0 <= m < |titles| && titles[m] == achs[j];
      }
    }
    if forall j :: 0 <= j < |achs| && IsUnlockedTitle(achs[j]) && Truthy(achs[j].attributeRequirement) ==>
              achs[j].attributeRequirement.value in keys {
      forall j | 0 <= j < |titles| && Truthy(titles[j].attributeRequirement)
        ensures titles[j].attributeRequirement.value in keys
      {
        assert titles[j] in achs && IsUnlockedTitle(titles[j]);
        var m :| 0 <= m < |achs| && achs[m] == titles[j];
        assert IsUnlockedTitle(achs[m]) && Truthy(achs[m].attributeRequirement);
      }
    }
  }

  /** As written, an unlocked custom title for `str` (an option the title form offers) makes
      `getAvailableTitles` throw: there is no `str` bucket. */
  lemma CustomStrengthTitleThrows(now: string)
    requires now != ""
    ensures TitlesByAttribute([LevelTitle("custom_title", "晨跑者", "str", 3).(unlockedAt := Some(now))], BucketKeys)
         == Failure(PushError)
  {
    var t := LevelTitle("custom_title", "晨跑者", "str", 3).(unlockedAt := Some(now));
    var m := EmptyBuckets(BucketKeys);
    assert IsUnlockedTitle(t);
    assert Filter([t], IsUnlockedTitle) == [t];
    assert [t][..0] == [];
    assert Bucketed([t][..0], m) == Success(m);
    assert "str" !in BucketKeys by {
      assert forall i :: 0 <= i < |BucketKeys| ==> BucketKeys[i][0] != 's';
    }
    assert Bucketed([t], m) == Failure(PushError);
  }

  /** The buckets named by the attribute keys: every title created with an attribute key finds its bucket,
      and each of the six buckets holds exactly the unlocked titles for that attribute, in order. */
  function AvailableTitlesCorrected(achs: seq<Achievement>): (r: Result<map<string, seq<Achievement>>>)
    ensures (forall j :: 0 <= j < |achs| && IsUnlockedTitle(achs[j]) && Truthy(achs[j].attributeRequirement) ==>
               achs[j].attributeRequirement.value in AttributeKeys)
            ==> r.Success?
    ensures r.Success? ==>
      (forall k :: k in r.value <==> k in AttributeKeys)
      && forall k :: k in r.value ==>
           r.value[k] == Filter(achs, (a: Achievement) => IsUnlockedTitle(a) && a.attributeRequirement == Some(k))
  {
    AvailableTitlesExact(achs, AttributeKeys);
    TitlesByAttribute(achs, AttributeKeys)
  }
}
