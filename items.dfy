/**
 * The updaters of the inventory kept by `useItems`: adding, editing, using a
 * consumable and undoing that use within two hours. Ids and clock readings
 * are parameters; a time is a count of milliseconds since the epoch.
 */
module Items {
  import opened Wrappers
  import opened Lists

  datatype ItemType = Equipment | Consumable | Trophy

  datatype EffectType = FixedBoost | PercentageBoost

  /** What an item does to one attribute. */
  datatype ItemEffect = ItemEffect(attribute: string, kind: EffectType, value: int)

  datatype Item = Item(
    id: string,
    name: string,
    description: string,
    icon: string,
    kind: ItemType,
    effects: Option<seq<ItemEffect>>,
    createdAt: string,
    used: Option<bool>,
    usedAt: Option<int>)

  /** `Omit<Item, 'id' | 'createdAt'>`: what a caller of `addItem` supplies. */
  datatype ItemData = ItemData(
    name: string,
    description: string,
    icon: string,
    kind: ItemType,
    effects: Option<seq<ItemEffect>>,
    used: Option<bool>,
    usedAt: Option<int>)

  /** `Partial<Omit<Item, 'id' | 'createdAt' | 'used'>>`: the fields an edit may override. */
  datatype ItemPatch = ItemPatch(
    name: Option<string>,
    description: Option<string>,
    icon: Option<string>,
    kind: Option<ItemType>,
    effects: Option<seq<ItemEffect>>)

  /** Two hours, in milliseconds: `hoursDiff > 2` is `elapsed > UndoWindow`. */
  const UndoWindow: int := 2 * 60 * 60 * 1000

  function Abs(x: int): nat {
    if x < 0 then -x else x
  }

  /** `addItem`. */
  function AddItem(items: seq<Item>, data: ItemData, id: string, createdAt: string): (r: seq<Item>)
    ensures |r| == |items| + 1
    ensures r[..|items|] == items
    ensures r[|items|].id == id && r[|items|].createdAt == createdAt
    ensures r[|items|].name == data.name && r[|items|].description == data.description
    ensures r[|items|].icon == data.icon && r[|items|].kind == data.kind && r[|items|].effects == data.effects
    ensures r[|items|].used == data.used && r[|items|].usedAt == data.usedAt
  {
    items + [Item(id, data.name, data.description, data.icon, data.kind, data.effects, createdAt, data.used, data.usedAt)]
  }

  /** `{ ...item, ...updates }`. */
  function Merge(i: Item, u: ItemPatch): Item {
    i.(name := if u.name.Some? then u.name.value else i.name,
       description := if u.description.Some? then u.description.value else i.description,
       icon := if u.icon.Some? then u.icon.value else i.icon,
       kind := if u.kind.Some? then u.kind.value else i.kind,
       effects := if u.effects.Some? then u.effects else i.effects)
  }

  /** `updateItem`. */
  function UpdateItem(items: seq<Item>, id: string, updates: ItemPatch): seq<Item> {
    MapWhere(items, (i: Item) => i.id == id, (i: Item) => Merge(i, updates))
  }

  /** `useItem`: every item with that id is marked used at `now`. */
  function UseItem(items: seq<Item>, id: string, now: int): seq<Item> {
    MapWhere(items, (i: Item) => i.id == id, (i: Item) => i.(used := Some(true), usedAt := Some(now)))
  }

  /** `items.find(i => i.id === id)`. */
  function FindItem(items: seq<Item>, id: string): (r: Option<Item>)
    ensures r.None? <==> forall k :: 0 <= k < |items| ==> items[k].id != id
    ensures r.Some? ==> exists k :: 0 <= k < |items| && items[k] == r.value && r.value.id == id
                                    && forall j :: 0 <= j < k ==> items[j].id != id
  {
    if items == [] then None
    else if items[0].id == id then Some(items[0])
    else
      var r := FindItem(items[1..], id);
      assert r.Some? ==> exists k :: 0 <= k < |items| && items[k] == r.value && r.value.id == id
                                     && forall j :: 0 <= j < k ==> items[j].id != id by {
        if r.Some? {
          var k :| 0 <= k < |items[1..]| && items[1..][k] == r.value && r.value.id == id
                   && forall j :: 0 <= j < k ==> items[1..][j].id != id;
          assert items[k + 1] == r.value;
          assert forall j :: 0 <= j < k + 1 ==> items[j].id != id by {
            forall j | 0 <= j < k + 1 ensures items[j].id != id {
              if j > 0 { assert items[j] == items[1..][j - 1]; }
            }
          }
        }
      }
      r
  }

  /** The moment `new Date(item.usedAt || new Date())` denotes: the use time, or now when there is none. */
  function UsedTime(item: Item, now: int): int {
    if item.usedAt.Some? then item.usedAt.value else now
  }

  /** `undoUseItem`: `None` is the `null` the hook returns when it refuses. */
  function UndoUseItem(items: seq<Item>, itemId: string, now: int): Option<seq<Item>> {
    match FindItem(items, itemId)
    case None => None
    case Some(item) =>
      if item.used != Some(true) then None
      else if Abs(now - UsedTime(item, now)) > UndoWindow then None
      else Some(MapWhere(items, (i: Item) => i.id == itemId, (i: Item) => i.(used := Some(false))))
  }
}

/** What the inventory updaters promise. */
module ItemsFacts {
  import opened Wrappers
  import opened Lists
  import opened Items

  /** An item added under a fresh id is what a later lookup of that id finds, and lookups of the
      ids already present find what they found before. */
  lemma AddThenFind(items: seq<Item>, data: ItemData, id: string, createdAt: string, other: string)
    requires forall k :: 0 <= k < |items| ==> items[k].id != id
    ensures var r := AddItem(items, data, id, createdAt);
      FindItem(r, id) == Some(r[|items|])
    ensures FindItem(items, other).Some? ==> FindItem(AddItem(items, data, id, createdAt), other) == FindItem(items, other)
  {
    var r := AddItem(items, data, id, createdAt);
    FindAppend(items, [r[|items|]], id);
    FindAppend(items, [r[|items|]], other);
    assert [r[|items|]][1..] == [];
  }

  /** Looking up in a list extended at the back: the front is searched first. */
  lemma {:induction false} FindAppend(items: seq<Item>, more: seq<Item>, id: string)
    ensures FindItem(items + more, id) == if FindItem(items, id).Some? then FindItem(items, id) else FindItem(more, id)
  {
    if items != [] {
      assert (items + more)[0] == items[0] && (items + more)[1..] == items[1..] + more;
      FindAppend(items[1..], more, id);
    } else {
      assert items + more == more;
    }
  }

  /** Editing overrides only the descriptive fields of the matching items: the id, the creation time
      and the use state never change, and other items are untouched. */
  lemma UpdateKeepsIdentity(items: seq<Item>, id: string, updates: ItemPatch)
    ensures var r := UpdateItem(items, id, updates);
      |r| == |items|
      && forall k :: 0 <= k < |items| ==>
           r[k].id == items[k].id && r[k].createdAt == items[k].createdAt
           && r[k].used == items[k].used && r[k].usedAt == items[k].usedAt
           && (items[k].id != id ==> r[k] == items[k])
  {
  }

  /** Editing merges the patch into every matching item: each field the patch carries replaces the
      item's, each field it leaves out keeps its old value, and the other items are untouched. */
  lemma UpdateEffect(items: seq<Item>, id: string, updates: ItemPatch)
    ensures var r := UpdateItem(items, id, updates);
      |r| == |items|
      && forall k :: 0 <= k < |items| ==>
           (items[k].id != id ==> r[k] == items[k])
           && (items[k].id == id ==>
                 r[k].name == (if updates.name.Some? then updates.name.value else items[k].name)
                 && r[k].description == (if updates.description.Some? then updates.description.value else items[k].description)
                 && r[k].icon == (if updates.icon.Some? then updates.icon.value else items[k].icon)
                 && r[k].kind == (if updates.kind.Some? then updates.kind.value else items[k].kind)
                 && r[k].effects == (if updates.effects.Some? then updates.effects else items[k].effects))
  {
  }

  /** Using marks the matching items used at `now` and touches nothing else. */
  lemma UseEffect(items: seq<Item>, id: string, now: int)
    ensures var r := UseItem(items, id, now);
      |r| == |items|
      && forall k :: 0 <= k < |items| ==>
           if items[k].id == id then r[k] == items[k].(used := Some(true), usedAt := Some(now))
           else r[k] == items[k]
  {
  }

  /** The refusals: no item with that id, the first such item not in use, or its use more than two hours
      away from now (in either direction); otherwise the undo goes through. */
  lemma UndoRefusedIff(items: seq<Item>, itemId: string, now: int)
    ensures UndoUseItem(items, itemId, now).None? <==>
      FindItem(items, itemId).None?
      || FindItem(items, itemId).value.used != Some(true)
      || (FindItem(items, itemId).value.usedAt.Some?
          && (now - FindItem(items, itemId).value.usedAt.value > 7200000
              || FindItem(items, itemId).value.usedAt.value - now > 7200000))
  {
  }

  /** A used item without a use time can always be undone. */
  lemma UndoWithoutTimeAllowed(items: seq<Item>, itemId: string, now: int)
    requires FindItem(items, itemId).Some?
    requires FindItem(items, itemId).value.used == Some(true)
    requires FindItem(items, itemId).value.usedAt.None?
    ensures UndoUseItem(items, itemId, now).Some?
  {
  }

  /** A successful undo clears the flag of every item with that id, keeps its use time, and changes nothing else. */
  lemma UndoEffect(items: seq<Item>, itemId: string, now: int)
    requires UndoUseItem(items, itemId, now).Some?
    ensures var r := UndoUseItem(items, itemId, now).value;
      |r| == |items|
      && forall k :: 0 <= k < |items| ==>
           if items[k].id == itemId then r[k] == items[k].(used := Some(false)) && r[k].usedAt == items[k].usedAt
           else r[k] == items[k]
  {
  }

  /** Using an item and undoing within two hours leaves its items unused, with the use time recorded. */
  lemma UseThenUndo(items: seq<Item>, id: string, usedAt: int, now: int)
    requires exists k :: 0 <= k < |items| && items[k].id == id
    requires Abs(now - usedAt) <= UndoWindow
    ensures var u := UndoUseItem(UseItem(items, id, usedAt), id, now);
      u.Some?
      && |u.value| == |items|
      && forall k :: 0 <= k < |items| ==>
           u.value[k] == if items[k].id == id then items[k].(used := Some(false), usedAt := Some(usedAt)) else items[k]
  {
    FoundAfterUse(items, id, usedAt);
    var used := UseItem(items, id, usedAt);
    var u := MapWhere(used, (i: Item) => i.id == id, (i: Item) => i.(used := Some(false)));
    assert UndoUseItem(used, id, now) == Some(u);
  }

  /** Right after a use, the item found under that id is in use since the use time. */
  lemma FoundAfterUse(items: seq<Item>, id: string, usedAt: int)
    requires exists k :: 0 <= k < |items| && items[k].id == id
    ensures var f := FindItem(UseItem(items, id, usedAt), id);
      f.Some? && f.value.used == Some(true) && f.value.usedAt == Some(usedAt)
  {
    var used := UseItem(items, id, usedAt);
    var f := FindItem(used, id);
    assert f.Some? by {
      var k :| 0 <= k < |items| && items[k].id == id;
      assert used[k].id == id;
    }
    var k :| 0 <= k < |used| && used[k] == f.value && f.value.id == id;
  }

  /** Undoing later than two hours after the use is refused. */
  lemma UseThenUndoTooLate(items: seq<Item>, id: string, usedAt: int, now: int)
    requires exists k :: 0 <= k < |items| && items[k].id == id
    requires now - usedAt > UndoWindow
    ensures UndoUseItem(UseItem(items, id, usedAt), id, now).None?
  {
    FoundAfterUse(items, id, usedAt);
    var item := FindItem(UseItem(items, id, usedAt), id).value;
    assert UsedTime(item, now) == usedAt;
    assert Abs(now - UsedTime(item, now)) > UndoWindow;
  }

  /** Undoing twice in a row: the second attempt is refused, since the item is no longer in use. */
  lemma UndoTwiceRefused(items: seq<Item>, itemId: string, now: int, later: int)
    requires UndoUseItem(items, itemId, now).Some?
    ensures UndoUseItem(UndoUseItem(items, itemId, now).value, itemId, later).None?
  {
    var r := UndoUseItem(items, itemId, now).value;
    var f := FindItem(r, itemId);
    if f.Some? {
      var k :| 0 <= k < |r| && r[k] == f.value && f.value.id == itemId;
      assert r[k].used == Some(false);
    }
  }
}
