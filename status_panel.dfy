/**
 * The title picker of frontend/src/components/StatusPanel.tsx: at most one
 * selected title per attribute, picking a title sweeping out the other
 * selected titles of that attribute.
 */
module StatusPanel {
  import opened Wrappers
  import opened Lists
  import opened Achievements

  /** `achievements.find(a => a.id === id)`. */
  function FindAchievement(achievements: seq<Achievement>, id: string): (r: Option<Achievement>)
    ensures r.None? <==> forall k :: 0 <= k < |achievements| ==> achievements[k].id != id
    ensures r.Some? ==> r.value in achievements && r.value.id == id
  {
    if achievements == [] then None
    else if achievements[0].id == id then Some(achievements[0])
    else FindAchievement(achievements[1..], id)
  }

  /** `achievements.find(a => a.id === id)?.attributeRequirement === attribute`: an unknown id,
      or one without a requirement, is `undefined`, which no attribute name equals. */
  predicate BelongsTo(achievements: seq<Achievement>, id: string, attribute: string) {
    var a := FindAchievement(achievements, id);
    a.Some? && a.value.attributeRequirement == Some(attribute)
  }

  /** The selection after picking `titleId` for `attribute`. */
  function AttributeSelection(achievements: seq<Achievement>, selected: seq<string>, titleId: string, attribute: string): seq<string> {
    if titleId in selected then RemoveFirst(selected, titleId)
    else Filter(selected, (id: string) => !BelongsTo(achievements, id, attribute)) + [titleId]
  }

  /** `s` with its first `k` elements passing `test` removed. */
  function SweepFirst(s: seq<string>, test: string -> bool, k: nat): seq<string> {
    if k == 0 || s == [] then s
    else if test(s[0]) then SweepFirst(s[1..], test, k - 1)
    else [s[0]] + SweepFirst(s[1..], test, k)
  }

  /** Removing the first occurrence of the next passing element is one more step of the sweep. */
  lemma {:induction false} SweepStep(s: seq<string>, test: string -> bool, k: nat)
    requires k < |Filter(s, test)|
    ensures RemoveFirst(SweepFirst(s, test, k), Filter(s, test)[k]) == SweepFirst(s, test, k + 1)
  {
    var passing := Filter(s, test);
    var v := passing[k];
    var rest := Filter(s[1..], test);
    if test(s[0]) {
      assert passing == [s[0]] + rest;
      if k > 0 {
        assert v == rest[k - 1];
        SweepStep(s[1..], test, k - 1);
      }
    } else {
      assert passing == rest;
      assert test(v);
      SweepStep(s[1..], test, k);
      SweepKeeps(s, test, k);
      SweepKeeps(s, test, k + 1);
    }
  }

  /** A failing head survives any step of the sweep. */
  lemma SweepKeeps(s: seq<string>, test: string -> bool, k: nat)
    requires s != [] && !test(s[0])
    ensures SweepFirst(s, test, k) == [s[0]] + SweepFirst(s[1..], test, k)
  {
    if k == 0 {
      assert s == [s[0]] + s[1..];
    }
  }

  /** Sweeping out as many elements as pass the test leaves exactly those that fail it. */
  lemma {:induction false} SweepAll(s: seq<string>, test: string -> bool, fail: string -> bool)
    requires forall x :: fail(x) == !test(x)
    ensures SweepFirst(s, test, |Filter(s, test)|) == Filter(s, fail)
  {
    if |Filter(s, test)| == 0 {
      FilterAllKept(s, fail);
    } else {
      SweepAll(s[1..], test, fail);
      if !test(s[0]) {
        SweepKeeps(s, test, |Filter(s, test)|);
      }
    }
  }

  /** `handleTitleSelect`: the copy of the selection is changed by one `splice` per swept title and a `push`. */
  method HandleTitleSelect(achievements: seq<Achievement>, selectedTitles: seq<string>, titleId: string, attribute: string)
    returns (newSelectedTitles: seq<string>)
    ensures newSelectedTitles == AttributeSelection(achievements, selectedTitles, titleId, attribute)
  {
    var belongs := (id: string) => BelongsTo(achievements, id, attribute);
    newSelectedTitles := selectedTitles;
    var titleIndex := IndexOf(newSelectedTitles, titleId);
    var attributeTitles := Filter(newSelectedTitles, belongs);
    if titleIndex >= 0 {
      SpliceIndexOf(newSelectedTitles, titleId);
      newSelectedTitles := RemoveAt(newSelectedTitles, titleIndex);
    } else {
      for k := 0 to |attributeTitles|
        invariant newSelectedTitles == SweepFirst(selectedTitles, belongs, k)
      {
        SweepStep(selectedTitles, belongs, k);
        var index := IndexOf(newSelectedTitles, attributeTitles[k]);
        if index >= 0 {
          SpliceIndexOf(newSelectedTitles, attributeTitles[k]);
          newSelectedTitles := RemoveAt(newSelectedTitles, index);
        }
      }
      SweepAll(selectedTitles, belongs, (id: string) => !BelongsTo(achievements, id, attribute));
      newSelectedTitles := newSelectedTitles + [titleId];
    }
  }
}

/** What the per-attribute title picker promises. */
module StatusPanelFacts {
  import opened Wrappers
  import opened Lists
  import opened Achievements
  import opened StatusPanel

  /** Picking a selected title removes that one id, once, and nothing else. */
  lemma DeselectRemovesOnlyIt(achievements: seq<Achievement>, selected: seq<string>, titleId: string, attribute: string)
    requires titleId in selected
    ensures var r := AttributeSelection(achievements, selected, titleId, attribute);
      |r| == |selected| - 1 && multiset(r) == multiset(selected) - multiset{titleId}
  {
  }

  /** Picking a new title puts it last, and what stays of the old selection is exactly the titles of
      other attributes and the unknown ids, in their old order. */
  lemma SelectKeepsOthersInOrder(achievements: seq<Achievement>, selected: seq<string>, titleId: string, attribute: string)
    requires titleId !in selected
    ensures var r := AttributeSelection(achievements, selected, titleId, attribute);
      var others := (id: string) => !BelongsTo(achievements, id, attribute);
      r[|r| - 1] == titleId
      && Filter(r, others) == Filter(selected, others) + (if others(titleId) then [titleId] else [])
  {
    var others := (id: string) => !BelongsTo(achievements, id, attribute);
    var kept := Filter(selected, others);
    FilterConcat(kept, [titleId], others);
    FilterIdempotent(selected, others);
    assert Filter([titleId], others) == (if others(titleId) then [titleId] else []) by {
      assert [titleId][1..] == [];
    }
  }

  /** After picking a new title, no other selected title tied to the same attribute remains. */
  lemma SelectSweepsAttribute(achievements: seq<Achievement>, selected: seq<string>, titleId: string, attribute: string)
    requires titleId !in selected
    ensures var r := AttributeSelection(achievements, selected, titleId, attribute);
      forall k :: 0 <= k < |r| - 1 ==> !BelongsTo(achievements, r[k], attribute) && r[k] in selected
  {
    var r := AttributeSelection(achievements, selected, titleId, attribute);
    var kept := Filter(selected, (id: string) => !BelongsTo(achievements, id, attribute));
    assert forall k :: 0 <= k < |r| - 1 ==> r[k] == kept[k];
  }

  /** A selected id with no achievement behind it is never swept out by a new pick. */
  lemma UnknownIdsKept(achievements: seq<Achievement>, selected: seq<string>, titleId: string, attribute: string, id: string)
    requires titleId !in selected && id in selected
    requires forall k :: 0 <= k < |achievements| ==> achievements[k].id != id
    ensures id in AttributeSelection(achievements, selected, titleId, attribute)
  {
    var others := (x: string) => !BelongsTo(achievements, x, attribute);
    var k :| 0 <= k < |selected| && selected[k] == id;
    assert others(selected[k]);
    assert id in Filter(selected, others);
  }

  /** Titles selected for other attributes are never swept out by a new pick. */
  lemma OtherAttributesKept(achievements: seq<Achievement>, selected: seq<string>, titleId: string, attribute: string, id: string)
    requires titleId !in selected && id in selected
    requires FindAchievement(achievements, id).Some?
    requires FindAchievement(achievements, id).value.attributeRequirement != Some(attribute)
    ensures id in AttributeSelection(achievements, selected, titleId, attribute)
  {
    var others := (x: string) => !BelongsTo(achievements, x, attribute);
    var k :| 0 <= k < |selected| && selected[k] == id;
    assert others(selected[k]);
    assert id in Filter(selected, others);
  }

  /** After picking a title that was not selected, it is the only selected title of its attribute. */
  lemma OneTitlePerAttribute(achievements: seq<Achievement>, selected: seq<string>, titleId: string, attribute: string, other: string)
    requires titleId !in selected
    requires FindAchievement(achievements, titleId).Some?
    requires FindAchievement(achievements, titleId).value.attributeRequirement == Some(attribute)
    requires other != titleId && other in AttributeSelection(achievements, selected, titleId, attribute)
    ensures !BelongsTo(achievements, other, attribute)
  {
    var r := AttributeSelection(achievements, selected, titleId, attribute);
    SelectSweepsAttribute(achievements, selected, titleId, attribute);
    var k :| 0 <= k < |r| && r[k] == other;
    assert k < |r| - 1;
  }
}
