/** What the seven-day summary promises. */
module SevenDaySummaryFacts {
  import opened Wrappers
  import opened Lists
  import opened PyText
  import opened SevenDaySummary

  /** An event counts exactly when it lies between six days before now and now, both ends included. */
  lemma RecentMembers(events: seq<Event>, now: int, e: Event)
    ensures e in Recent(events, now) <==> e in events && now - 6 * 86400000 <= e.timestamp <= now
  {
    var r := Recent(events, now);
    if e in r {
      var k :| 0 <= k < |r| && r[k] == e;
    }
    if e in events && InWindow(e.timestamp, now) {
      var k :| 0 <= k < |events| && events[k] == e;
    }
  }

  /** One more entry adds its exp to the sum of the per-attribute gains exactly when its key is one of them. */
  lemma {:induction false} KeysGainSnoc(es: seq<Entry>, x: Entry, keys: seq<string>)
    requires NoDuplicates(keys)
    ensures KeysGain(es + [x], keys) == KeysGain(es, keys) + (if x.0 in keys then x.1 else 0)
  {
    if keys != [] {
      assert NoDuplicates(keys[1..]) by {
        forall i, j | 0 <= i < j < |keys[1..]| ensures keys[1..][i] != keys[1..][j] {
          assert keys[1..][i] == keys[i + 1] && keys[1..][j] == keys[j + 1];
        }
      }
      KeysGainSnoc(es, x, keys[1..]);
      assert (es + [x])[..|es + [x]| - 1] == es;
      assert forall m :: 0 <= m < |keys[1..]| ==> keys[1..][m] == keys[m + 1];
      assert x.0 in keys <==> x.0 == keys[0] || x.0 in keys[1..] by {
        assert keys == [keys[0]] + keys[1..];
      }
    }
  }

  /** `totalExpGain` is the six attribute gains plus whatever the entries for other keys add. */
  lemma {:induction false} TotalSplits(es: seq<Entry>, keys: seq<string>)
    requires NoDuplicates(keys)
    ensures EntriesTotal(es) == KeysGain(es, keys) + EntriesOther(es, keys)
  {
    if es == [] {
      KeysGainEmpty(keys);
    } else {
      var init, x := es[..|es| - 1], es[|es| - 1];
      SplitLast(es);
      TotalSplits(init, keys);
      KeysGainSnoc(init, x, keys);
    }
  }

  lemma {:induction false} KeysGainEmpty(keys: seq<string>)
    ensures KeysGain([], keys) == 0
  {
    if keys != [] {
      KeysGainEmpty(keys[1..]);
    }
  }

  /** Entries all of whose keys are among `keys` add nothing else. */
  lemma {:induction false} OtherVanishes(es: seq<Entry>, keys: seq<string>)
    requires forall k :: 0 <= k < |es| ==> es[k].0 in keys
    ensures EntriesOther(es, keys) == 0
  {
    if es != [] {
      var init := es[..|es| - 1];
      assert forall k :: 0 <= k < |init| ==> init[k] == es[k];
      OtherVanishes(init, keys);
    }
  }

  /** Every collected entry comes from one of the events. */
  lemma {:induction false} AllEntriesFrom(events: seq<Event>, x: Entry)
    requires x in AllEntries(events)
    ensures exists e :: e in events && x in EntriesOf(e)
  {
    var init, last := events[..|events| - 1], events[|events| - 1];
    if x in AllEntries(init) {
      AllEntriesFrom(init, x);
      var e :| e in init && x in EntriesOf(e);
      assert e in events;
    } else {
      assert x in EntriesOf(last);
    }
  }

  /** The sum over `GainKeys` of the per-attribute sums is the sum of the six reported gains. */
  lemma SixGains(es: seq<Entry>)
    ensures var g := GainsOf(es);
      |g| == 6 && KeysGain(es, GainKeys) == g[0] + g[1] + g[2] + g[3] + g[4] + g[5]
  {
    var g := GainsOf(es);
    var ks := GainKeys;
    assert KeysGain(es, ks[5..]) == g[5] by { assert ks[5..][1..] == []; }
    assert KeysGain(es, ks[4..]) == g[4] + KeysGain(es, ks[5..]) by { assert ks[4..][1..] == ks[5..]; }
    assert KeysGain(es, ks[3..]) == g[3] + KeysGain(es, ks[4..]) by { assert ks[3..][1..] == ks[4..]; }
    assert KeysGain(es, ks[2..]) == g[2] + KeysGain(es, ks[3..]) by { assert ks[2..][1..] == ks[3..]; }
    assert KeysGain(es, ks[1..]) == g[1] + KeysGain(es, ks[2..]) by { assert ks[1..][1..] == ks[2..]; }
  }

  /** The tier badges: each threshold band gives its own badge, and a total below -50 gives none. */
  lemma TierRule(total: int)
    ensures TierBadge(total) == Some(LifeWinner) <==> total >= 700
    ensures TierBadge(total) == Some(Momentum) <==> 500 <= total < 700
    ensures TierBadge(total) == Some(Steady) <==> 200 <= total < 500
    ensures TierBadge(total) == Some(Persevering) <==> 50 <= total < 200
    ensures TierBadge(total) == Some(Plain) <==> -50 <= total < 50
    ensures TierBadge(total).None? <==> total < -50
  {
  }

  /** A descending rearrangement starts with the maximum at `top`. */
  lemma SortedFirst(gains: seq<int>, top: nat, d: seq<int>)
    requires top < |gains|
    requires forall j :: 0 <= j < |gains| ==> gains[j] <= gains[top]
    requires Descending(d) && multiset(d) == multiset(gains)
    ensures |d| == |gains| && d[0] == gains[top]
  {
    assert |d| == |gains| by { assert |multiset(d)| == |multiset(gains)|; }
    assert d[0] in multiset(gains);
    var m :| 0 <= m < |gains| && gains[m] == d[0];
    assert gains[top] in multiset(d);
    var m' :| 0 <= m' < |d| && d[m'] == gains[top];
  }

  /** After the maximum, a descending rearrangement holds exactly the values at the other positions. */
  lemma SortedRest(gains: seq<int>, top: nat, d: seq<int>)
    requires top < |gains|
    requires forall j :: 0 <= j < |gains| ==> gains[j] <= gains[top]
    requires Descending(d) && multiset(d) == multiset(gains)
    ensures |d| == |gains| && multiset(d[1..]) == multiset(gains[..top] + gains[top + 1..])
  {
    SortedFirst(gains, top, d);
    assert gains == gains[..top] + [gains[top]] + gains[top + 1..];
    assert multiset(gains) == multiset(gains[..top]) + multiset{gains[top]} + multiset(gains[top + 1..]);
    assert d == [d[0]] + d[1..];
    var before, after := multiset(gains[..top]), multiset(gains[top + 1..]);
    assert multiset(d) == multiset{d[0]} + multiset(d[1..]);
    assert multiset(d[1..]) == multiset(d) - multiset{d[0]};
    assert (before + multiset{gains[top]} + after) - multiset{gains[top]} == before + after;
    assert multiset(gains[..top] + gains[top + 1..]) == before + after;
  }

  /** The second value of a descending rearrangement is the largest of the other positions. */
  lemma SortedSecond(gains: seq<int>, top: nat, d: seq<int>)
    requires |gains| >= 2 && top < |gains|
    requires forall j :: 0 <= j < |gains| ==> gains[j] <= gains[top]
    requires Descending(d) && multiset(d) == multiset(gains)
    ensures |d| == |gains| && d[0] == gains[top]
    ensures forall j :: 0 <= j < |gains| && j != top ==> gains[j] <= d[1]
    ensures exists j :: 0 <= j < |gains| && j != top && gains[j] == d[1]
  {
    SortedFirst(gains, top, d);
    SortedRest(gains, top, d);
    var others := gains[..top] + gains[top + 1..];
    forall j | 0 <= j < |gains| && j != top ensures gains[j] <= d[1] {
      assert gains[j] in others by {
        if j < top { assert others[j] == gains[j]; } else { assert others[j - 1] == gains[j]; }
      }
      assert gains[j] in multiset(d[1..]);
      var m :| 0 <= m < |d[1..]| && d[1..][m] == gains[j];
      assert d[m + 1] == gains[j];
    }
    assert d[1] in multiset(others) by { assert d[1] == d[1..][0]; }
    var m :| 0 <= m < |others| && others[m] == d[1];
    var j := if m < top then m else m + 1;
    assert gains[j] == d[1];
  }

  /** The same for the sort the badge rule uses. */
  lemma SortedTopTwo(gains: seq<int>, top: nat)
    requires |gains| >= 2 && top < |gains|
    requires forall j :: 0 <= j < |gains| ==> gains[j] <= gains[top]
    ensures var d := SortDescending(gains);
      |d| == |gains| && d[0] == gains[top]
      && (forall j :: 0 <= j < |gains| && j != top ==> gains[j] <= d[1])
      && (exists j :: 0 <= j < |gains| && j != top && gains[j] == d[1])
  {
    SortedSecond(gains, top, SortDescending(gains));
  }

  /** The attribute badge goes to the attribute whose positive gain is at least 1.5 times every other
      gain, by that attribute's thresholds; no other attribute can have it. */
  lemma AttributeRule(gains: seq<int>, b: Badge)
    requires |gains| == 6
    ensures AttributeBadge(gains) == Some(b) <==>
      exists i :: 0 <= i < 6 && gains[i] > 0
        && (forall j :: 0 <= j < 6 && j != i ==> 3 * gains[j] <= 2 * gains[i])
        && ThresholdBadge(i, gains[i]) == Some(b)
  {
    var top := FirstMax(gains);
    if AttributeBadge(gains) == Some(b) {
      SortedTopTwo(gains, top);
      assert forall j :: 0 <= j < 6 && j != top ==> 3 * gains[j] <= 2 * gains[top];
    }
    if exists i :: 0 <= i < 6 && gains[i] > 0
        && (forall j :: 0 <= j < 6 && j != i ==> 3 * gains[j] <= 2 * gains[i])
        && ThresholdBadge(i, gains[i]) == Some(b) {
      var i :| 0 <= i < 6 && gains[i] > 0
        && (forall j :: 0 <= j < 6 && j != i ==> 3 * gains[j] <= 2 * gains[i])
        && ThresholdBadge(i, gains[i]) == Some(b);
      assert top == i;
      SortedTopTwo(gains, i);
    }
  }

  /** Which badge is shown: a tier badge whenever the total is at least -50; below that the attribute
      badge, then `well-rounded`, then `default`. `breakthrough` is never shown. */
  lemma ShownRule(total: int, gains: seq<int>)
    requires |gains| == 6
    ensures total >= -50 ==> ShownBadge(total, gains) == TierBadge(total).value
    ensures total < -50 ==>
      ShownBadge(total, gains) ==
        if AttributeBadge(gains).Some? then AttributeBadge(gains).value
        else if forall k :: 0 <= k < 6 ==> gains[k] >= 10 then WellRounded
        else Default
    ensures ShownBadge(total, gains) != Breakthrough
  {
    var tier := OptionList(TierBadge(total));
    var attribute := OptionList(AttributeBadge(gains));
    var rounded: seq<Badge> := if AllRounded(gains) then [WellRounded] else [];
    assert SatisfiedBadges(total, gains) == tier + attribute + rounded;
    if total >= -50 {
      assert tier == [TierBadge(total).value];
      assert (tier + attribute + rounded)[0] == TierBadge(total).value;
    } else {
      assert tier == [];
      AttributeNotBreakthrough(gains);
      if AttributeBadge(gains).Some? {
        assert (attribute + rounded)[0] == AttributeBadge(gains).value;
      } else {
        assert attribute == [];
      }
    }
  }

  /** An attribute badge is never `breakthrough` nor `well-rounded`. */
  lemma AttributeNotBreakthrough(gains: seq<int>)
    requires |gains| == 6
    ensures AttributeBadge(gains) != Some(Breakthrough) && AttributeBadge(gains) != Some(WellRounded)
  {
    var top := FirstMax(gains);
    assert forall g :: ThresholdBadge(top, g) != Some(Breakthrough) && ThresholdBadge(top, g) != Some(WellRounded);
  }

  /** When every recorded key is one of the six attributes, the total is the sum of the six gains. */
  lemma KnownKeysTotal(events: seq<Event>, now: int)
    requires forall e, x :: e in events && x in EntriesOf(e) ==> x.0 in GainKeys
    ensures var all := AllEntries(Recent(events, now));
      var g := GainsOf(all);
      |g| == 6 && EntriesTotal(all) == g[0] + g[1] + g[2] + g[3] + g[4] + g[5]
  {
    var all := AllEntries(Recent(events, now));
    RecentKeysKnown(events, now, all);
    OtherVanishes(all, GainKeys);
    assert NoDuplicates(GainKeys);
    TotalSplits(all, GainKeys);
    SixGains(all);
  }

  lemma RecentKeysKnown(events: seq<Event>, now: int, all: seq<Entry>)
    requires forall e, x :: e in events && x in EntriesOf(e) ==> x.0 in GainKeys
    requires all == AllEntries(Recent(events, now))
    ensures forall k :: 0 <= k < |all| ==> all[k].0 in GainKeys
  {
    var recent := Recent(events, now);
    forall k | 0 <= k < |all| ensures all[k].0 in GainKeys {
      AllEntriesFrom(recent, all[k]);
      var e :| e in recent && all[k] in EntriesOf(e);
      var m :| 0 <= m < |recent| && recent[m] == e;
    }
  }

  /** A total made of the six gains alone never shows `well-rounded`: six gains of at least 10 make a
      total of at least 60, which earns a tier badge first. */
  lemma WellRoundedNeedsLowTotal(total: int, gains: seq<int>)
    requires |gains| == 6 && total == gains[0] + gains[1] + gains[2] + gains[3] + gains[4] + gains[5]
    ensures ShownBadge(total, gains) != WellRounded
  {
    ShownRule(total, gains);
    if total < -50 {
      AttributeNotBreakthrough(gains);
      assert gains[0] < 10 || gains[1] < 10 || gains[2] < 10 || gains[3] < 10 || gains[4] < 10 || gains[5] < 10;
    }
  }

  /** So when every recorded key is one of the six attributes, `well-rounded` is never shown. */
  lemma WellRoundedNeedsForeignKeys(events: seq<Event>, now: int)
    requires forall e, x :: e in events && x in EntriesOf(e) ==> x.0 in GainKeys
    ensures var all := AllEntries(Recent(events, now));
      ShownBadge(EntriesTotal(all), GainsOf(all)) != WellRounded
  {
    var all := AllEntries(Recent(events, now));
    KnownKeysTotal(events, now);
    WellRoundedNeedsLowTotal(EntriesTotal(all), GainsOf(all));
  }

  /** When the entries for other keys pull the total below -50, six equal gains of at least 10 show
      `well-rounded`: no attribute leads by half again, and no tier applies. */
  lemma WellRoundedWithForeignKeys(total: int, gains: seq<int>)
    requires |gains| == 6 && total < -50
    requires forall k :: 0 <= k < 6 ==> gains[k] == gains[0] >= 10
    ensures ShownBadge(total, gains) == WellRounded
  {
    var top := FirstMax(gains);
    assert top == 0;
    SortedTopTwo(gains, 0);
    assert AttributeBadge(gains).None?;
  }
}
