/**
 * The seven-day summary badge of frontend/src/components/SevenDaySummaryBadge.tsx:
 * the experience gained by the events of the last seven days, in total and
 * per attribute, and the one badge those totals earn. A timestamp is the
 * number of milliseconds since the epoch that `new Date(event.timestamp)`
 * denotes, and `now` is the moment of rendering.
 */
module SevenDaySummary {
  import opened Wrappers
  import opened Lists
  import opened PyText

  /** An event's experience record as its `(attribute, exp)` entries, in `Object.entries` order. */
  type Entry = (string, int)

  datatype Event = Event(timestamp: int, expGains: Option<seq<Entry>>)

  /** The keys of `attributeGains`, in the order the object literal lists them. */
  const GainKeys: seq<string> := ["int", "str", "vit", "cha", "eq", "cre"]

  /** Six days of milliseconds: the window reaches back to the same time of day six days ago. */
  const SixDays: int := 6 * 24 * 60 * 60 * 1000

  predicate InWindow(timestamp: int, now: int) {
    now - SixDays <= timestamp <= now
  }

  /** `recentEvents`. */
  function Recent(events: seq<Event>, now: int): seq<Event> {
    Filter(events, (e: Event) => InWindow(e.timestamp, now))
  }

  /** The entries an event contributes; an event without an experience record contributes none. */
  function EntriesOf(e: Event): seq<Entry> {
    if e.expGains.Some? then e.expGains.value else []
  }

  /** Every entry of every event, event by event. */
  function AllEntries(events: seq<Event>): seq<Entry> {
    if events == [] then [] else AllEntries(events[..|events| - 1]) + EntriesOf(events[|events| - 1])
  }

  /** The sum of every entry. */
  function EntriesTotal(es: seq<Entry>): int {
    if es == [] then 0 else EntriesTotal(es[..|es| - 1]) + es[|es| - 1].1
  }

  /** The sum of the entries for one attribute. */
  function EntriesGain(es: seq<Entry>, key: string): int {
    if es == [] then 0
    else EntriesGain(es[..|es| - 1], key) + (if es[|es| - 1].0 == key then es[|es| - 1].1 else 0)
  }

  /** The sum of the entries whose attribute is none of `keys`. */
  function EntriesOther(es: seq<Entry>, keys: seq<string>): int {
    if es == [] then 0
    else EntriesOther(es[..|es| - 1], keys) + (if es[|es| - 1].0 in keys then 0 else es[|es| - 1].1)
  }

  /** The per-attribute sums of a list of entries, one for each key. */
  function KeysGain(es: seq<Entry>, keys: seq<string>): int {
    if keys == [] then 0 else EntriesGain(es, keys[0]) + KeysGain(es, keys[1..])
  }

  /** The per-attribute sums in `GainKeys` order. */
  function GainsOf(es: seq<Entry>): seq<int> {
    Map(GainKeys, (k: string) => EntriesGain(es, k))
  }

  /** Adds an event's entries to the running totals: every entry to `total`, the six known ones to their gain. */
  method AddEntries(total: int, gains: seq<int>, entries: seq<Entry>) returns (total': int, gains': seq<int>)
    requires |gains| == |GainKeys|
    ensures total' == total + EntriesTotal(entries)
    ensures |gains'| == |GainKeys|
    ensures forall k :: 0 <= k < |GainKeys| ==> gains'[k] == gains[k] + EntriesGain(entries, GainKeys[k])
  {
    total', gains' := total, gains;
    for j := 0 to |entries|
      invariant total' == total + EntriesTotal(entries[..j])
      invariant |gains'| == |GainKeys|
      invariant forall k :: 0 <= k < |GainKeys| ==> gains'[k] == gains[k] + EntriesGain(entries[..j], GainKeys[k])
    {
      assert entries[..j + 1][..j] == entries[..j];
      var (attr, exp) := entries[j];
      var k := IndexOf(GainKeys, attr);
      if k >= 0 {
        gains' := gains'[k := gains'[k] + exp];
      }
      total' := total' + exp;
    }
    assert entries[..|entries|] == entries;
  }

  /** `sevenDayStats`: the total gain, the gain per attribute (in `GainKeys` order) and the number of recent events. */
  method SevenDayStats(events: seq<Event>, now: int) returns (totalExpGain: int, attributeGains: seq<int>, eventCount: nat)
    ensures totalExpGain == EntriesTotal(AllEntries(Recent(events, now)))
    ensures |attributeGains| == |GainKeys|
    ensures forall k :: 0 <= k < |GainKeys| ==>
      attributeGains[k] == EntriesGain(AllEntries(Recent(events, now)), GainKeys[k])
    ensures eventCount == |Recent(events, now)|
  {
    var recentEvents := Filter(events, (e: Event) => InWindow(e.timestamp, now));
    totalExpGain := 0;
    attributeGains := [0, 0, 0, 0, 0, 0];
    for i := 0 to |recentEvents|
      invariant totalExpGain == EntriesTotal(AllEntries(recentEvents[..i]))
      invariant |attributeGains| == |GainKeys|
      invariant forall k :: 0 <= k < |GainKeys| ==>
        attributeGains[k] == EntriesGain(AllEntries(recentEvents[..i]), GainKeys[k])
    {
      assert recentEvents[..i + 1][..i] == recentEvents[..i];
      var before := AllEntries(recentEvents[..i]);
      if recentEvents[i].expGains.Some? {
        totalExpGain, attributeGains := AddEntries(totalExpGain, attributeGains, recentEvents[i].expGains.value);
      }
      EntriesTotalAppend(before, EntriesOf(recentEvents[i]));
      forall k | 0 <= k < |GainKeys|
        ensures EntriesGain(before + EntriesOf(recentEvents[i]), GainKeys[k])
             == EntriesGain(before, GainKeys[k]) + EntriesGain(EntriesOf(recentEvents[i]), GainKeys[k])
      {
        EntriesGainAppend(before, EntriesOf(recentEvents[i]), GainKeys[k]);
      }
    }
    assert recentEvents[..|recentEvents|] == recentEvents;
    eventCount := |recentEvents|;
  }

  /** The total of two lists of entries is the sum of their totals. */
  lemma {:induction false} EntriesTotalAppend(xs: seq<Entry>, ys: seq<Entry>)
    ensures EntriesTotal(xs + ys) == EntriesTotal(xs) + EntriesTotal(ys)
  {
    if ys == [] {
      assert xs + ys == xs;
    } else {
      assert (xs + ys)[..|xs + ys| - 1] == xs + ys[..|ys| - 1];
      EntriesTotalAppend(xs, ys[..|ys| - 1]);
    }
  }

  /** The gain of two lists of entries is the sum of their gains. */
  lemma {:induction false} EntriesGainAppend(xs: seq<Entry>, ys: seq<Entry>, key: string)
    ensures EntriesGain(xs + ys, key) == EntriesGain(xs, key) + EntriesGain(ys, key)
  {
    if ys == [] {
      assert xs + ys == xs;
    } else {
      assert (xs + ys)[..|xs + ys| - 1] == xs + ys[..|ys| - 1];
      EntriesGainAppend(xs, ys[..|ys| - 1], key);
    }
  }

  // ---------------------------------------------------------------------------
  // The badge
  // ---------------------------------------------------------------------------

  /** The badges by id, in the order the catalogue lists them, and the fallback `default`. */
  datatype Badge =
    | LifeWinner | Momentum | Steady | Persevering | Plain
    | StudyGod | MindActive | Energetic | Fitness | Charged | Efficient
    | Network | SocialActive | EmotionMaster | InnerGrowth | Inspiration | Creator
    | WellRounded | Breakthrough | Default

  /** The total-experience badge: the first threshold reached, or `plain` near zero. */
  function TierBadge(total: int): Option<Badge> {
    if total >= 700 then Some(LifeWinner)
    else if total >= 500 then Some(Momentum)
    else if total >= 200 then Some(Steady)
    else if total >= 50 then Some(Persevering)
    else if total >= -50 && total <= 50 then Some(Plain)
    else None
  }

  /** The `reduce` over `attributeGains`: the position of the first largest gain. */
  function FirstMax(gains: seq<int>): (i: nat)
    requires |gains| > 0
    ensures i < |gains|
    ensures forall j :: 0 <= j < |gains| ==> gains[j] <= gains[i]
    ensures forall j :: 0 <= j < i ==> gains[j] < gains[i]
  {
    FirstMaxFrom(gains, 1, 0)
  }

  function FirstMaxFrom(gains: seq<int>, k: nat, best: nat): (i: nat)
    requires best < k <= |gains|
    requires forall j :: 0 <= j < k ==> gains[j] <= gains[best]
    requires forall j :: 0 <= j < best ==> gains[j] < gains[best]
    ensures i < |gains|
    ensures forall j :: 0 <= j < |gains| ==> gains[j] <= gains[i]
    ensures forall j :: 0 <= j < i ==> gains[j] < gains[i]
    decreases |gains| - k
  {
    if k == |gains| then best
    else FirstMaxFrom(gains, k + 1, if gains[k] > gains[best] then k else best)
  }

  ghost predicate Descending(s: seq<int>) {
    forall i, j :: 0 <= i < j < |s| ==> s[i] >= s[j]
  }

  function InsertDescending(x: int, s: seq<int>): (r: seq<int>)
    requires Descending(s)
    ensures Descending(r)
    ensures multiset(r) == multiset(s) + multiset{x}
  {
    if s == [] || s[0] <= x then
      [x] + s
    else
      var t := InsertDescending(x, s[1..]);
      assert s == [s[0]] + s[1..];
      BoundedByHead(x, s, t);
      DescendingCons(s[0], t);
      [s[0]] + t
  }

  /** Whatever an insertion below the head produces stays below the head. */
  lemma BoundedByHead(x: int, s: seq<int>, t: seq<int>)
    requires Descending(s) && s != [] && x < s[0]
    requires multiset(t) == multiset(s[1..]) + multiset{x}
    ensures forall j :: 0 <= j < |t| ==> t[j] <= s[0]
  {
    forall j | 0 <= j < |t| ensures t[j] <= s[0] {
      assert t[j] in multiset(t);
      if t[j] != x {
        assert t[j] in multiset(s[1..]);
        var m :| 0 <= m < |s[1..]| && s[1..][m] == t[j];
        assert s[m + 1] == t[j];
      }
    }
  }

  lemma DescendingCons(h: int, t: seq<int>)
    requires Descending(t)
    requires forall j :: 0 <= j < |t| ==> t[j] <= h
    ensures Descending([h] + t)
  {
  }

  /** `Object.values(attributeGains).sort((a, b) => b - a)`. */
  function SortDescending(s: seq<int>): (r: seq<int>)
    ensures Descending(r)
    ensures multiset(r) == multiset(s)
  {
    if s == [] then []
    else
      assert s == [s[0]] + s[1..];
      InsertDescending(s[0], SortDescending(s[1..]))
  }

  /** The badge the dominant attribute earns with gain `gain`: the `switch` on `maxAttribute.attr`. */
  function ThresholdBadge(attribute: nat, gain: int): Option<Badge> {
    match attribute
    case 0 => if gain >= 150 then Some(StudyGod) else if gain >= 80 then Some(MindActive) else None
    case 1 => if gain >= 300 then Some(Energetic) else if gain >= 100 then Some(Fitness) else None
    case 2 => if gain >= 120 then Some(Charged) else if gain >= 60 then Some(Efficient) else None
    case 3 => if gain >= 150 then Some(Network) else if gain >= 80 then Some(SocialActive) else None
    case 4 => if gain >= 100 then Some(EmotionMaster) else if gain >= 50 then Some(InnerGrowth) else None
    case 5 => if gain >= 150 then Some(Inspiration) else if gain >= 80 then Some(Creator) else None
    case _ => None
  }

  /** The attribute badge: the largest gain must be positive and at least 1.5 times the runner-up
      (`2 * top >= 3 * second` on integers). */
  function AttributeBadge(gains: seq<int>): Option<Badge>
    requires |gains| == |GainKeys|
  {
    var top := FirstMax(gains);
    if gains[top] > 0 then
      var sorted := SortDescending(gains);
      assert |sorted| == |gains| by { assert |multiset(sorted)| == |multiset(gains)|; }
      if 2 * sorted[0] >= 3 * sorted[1] then ThresholdBadge(top, gains[top]) else None
    else None
  }

  /** `allPositive`: every gain at least 10. */
  predicate AllRounded(gains: seq<int>) {
    forall k :: 0 <= k < |gains| ==> gains[k] >= 10
  }

  /** `satisfiedBadges`, in push order. */
  function SatisfiedBadges(totalExpGain: int, attributeGains: seq<int>): seq<Badge>
    requires |attributeGains| == |GainKeys|
  {
    OptionList(TierBadge(totalExpGain))
    + OptionList(AttributeBadge(attributeGains))
    + (if AllRounded(attributeGains) then [WellRounded] else [])
  }

  /** The badge shown: the first satisfied one, or `default`. */
  function ShownBadge(totalExpGain: int, attributeGains: seq<int>): Badge
    requires |attributeGains| == |GainKeys|
  {
    var satisfied := SatisfiedBadges(totalExpGain, attributeGains);
    if |satisfied| > 0 then satisfied[0] else Default
  }

  function OptionList(b: Option<Badge>): seq<Badge> {
    if b.Some? then [b.value] else []
  }

  /** The first `if`/`else` chain of `badge`: at most one total-experience badge is pushed. */
  method PushTierBadge(satisfied: seq<Badge>, totalExpGain: int) returns (satisfiedBadges: seq<Badge>)
    ensures satisfiedBadges == satisfied + OptionList(TierBadge(totalExpGain))
  {
    satisfiedBadges := satisfied;
    if totalExpGain >= 700 {
      satisfiedBadges := satisfiedBadges + [LifeWinner];
    } else if totalExpGain >= 500 {
      satisfiedBadges := satisfiedBadges + [Momentum];
    } else if totalExpGain >= 200 {
      satisfiedBadges := satisfiedBadges + [Steady];
    } else if totalExpGain >= 50 {
      satisfiedBadges := satisfiedBadges + [Persevering];
    } else if totalExpGain >= -50 && totalExpGain <= 50 {
      satisfiedBadges := satisfiedBadges + [Plain];
    }
  }

  /** The dominance test and the `switch` of `badge`: at most one attribute badge is pushed. */
  method PushAttributeBadge(satisfied: seq<Badge>, attributeGains: seq<int>) returns (satisfiedBadges: seq<Badge>)
    requires |attributeGains| == |GainKeys|
    ensures satisfiedBadges == satisfied + OptionList(AttributeBadge(attributeGains))
  {
    satisfiedBadges := satisfied;
    var maxAttribute := FirstMax(attributeGains);
    if attributeGains[maxAttribute] > 0 {
      var sortedGains := SortDescending(attributeGains);
      assert |sortedGains| == |attributeGains| by { assert |multiset(sortedGains)| == |multiset(attributeGains)|; }
      if 2 * sortedGains[0] >= 3 * sortedGains[1] {
        var earned := ThresholdBadge(maxAttribute, attributeGains[maxAttribute]);
        if earned.Some? {
          satisfiedBadges := satisfiedBadges + [earned.value];
        }
      }
    }
  }

  /** `badge`: the satisfied badges are pushed through the if/else chains, and the first is returned. */
  method SelectBadge(totalExpGain: int, attributeGains: seq<int>) returns (badge: Badge)
    requires |attributeGains| == |GainKeys|
    ensures badge == ShownBadge(totalExpGain, attributeGains)
  {
    var satisfiedBadges := PushTierBadge([], totalExpGain);
    satisfiedBadges := PushAttributeBadge(satisfiedBadges, attributeGains);
    var allPositive := forall k :: 0 <= k < |attributeGains| ==> attributeGains[k] >= 10;
    if allPositive {
      satisfiedBadges := satisfiedBadges + [WellRounded];
    }
    assert allPositive == AllRounded(attributeGains);
    if |satisfiedBadges| > 0 {
      badge := satisfiedBadges[0];
    } else {
      badge := Default;
    }
  }
}
