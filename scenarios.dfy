/** The repository's test scenarios (tests/test_crud.py, tests/test_main.py),
    stated as client code whose assertions follow from the contracts alone. */
module Scenarios {
  import opened Schemas
  import opened Crud
  import opened Dispatcher

  /** The user-supplied fields of each row, in order. */
  function Bases(items: seq<Item>): (r: seq<ItemBase>)
    ensures |r| == |items|
    ensures forall k :: 0 <= k < |r| ==> r[k] == ItemBase(items[k].name, items[k].description)
  {
    seq(|items|, k requires 0 <= k < |items| => ItemBase(items[k].name, items[k].description))
  }

  /** Creating the inputs one after another in an empty table, whatever point
      its id sequence has reached, and then listing one page gives the same
      page of the inputs, in creation order. */
  method CreateAllThenList(start: int, inputs: seq<ItemCreate>, now: Timestamp, skip: nat, limit: nat)
    returns (page: seq<Item>)
    requires start >= 1
    ensures Bases(page) == Page(inputs, skip, limit)
    ensures IdsAscending(page)
  {
    var store := new ItemStore(start);
    var i := 0;
    while i < |inputs|
      invariant 0 <= i <= |inputs|
      invariant store.Valid()
      invariant Bases(store.items) == inputs[..i]
    {
      var created := store.CreateItem(inputs[i], now, None, NoFault);
      i := i + 1;
    }
    assert inputs[..|inputs|] == inputs;
    page := store.GetItems(skip, limit);
  }

  /** test_create_item, test_get_item: what was created is found under its id. */
  method CreateThenGet(store: ItemStore, input: ItemCreate, now: Timestamp)
    returns (created: Item, found: Option<Item>)
    requires store.Valid()
    modifies store
    ensures store.Valid()
    ensures store.items == old(store.items) + [created]
    ensures created.name == input.name && created.description == input.description
    ensures Find(old(store.items), created.id).None?
    ensures found == Some(created)
  {
    var r := store.CreateItem(input, now, None, NoFault);
    created := r.value;
    FindAppend(old(store.items), created, created.id);
    found := store.GetItem(created.id);
  }

  /** test_update_item, test_partial_update_item: a full update replaces both
      fields, a name-only update keeps the description. */
  method UpdateScenarios(start: int, now: Timestamp)
    requires start >= 1
  {
    var store := new ItemStore(start);
    var original := ItemBase("Original Name", "Original Description");
    var created, _ := CreateThenGet(store, original, now);

    var partial := store.UpdateItem(created.id, ItemUpdate(name := Some("Updated Name")), NoFault);
    assert partial.value.Some?;
    assert partial.value.value.name == "Updated Name";
    assert partial.value.value.description == "Original Description";

    var full := store.UpdateItem(created.id, ItemUpdate(Some("Updated Name"), Some("Updated Description")), NoFault);
    assert full.value.Some?;
    assert full.value.value.name == "Updated Name";
    assert full.value.value.description == "Updated Description";
    assert full.value.value.id == created.id;
  }

  /** test_delete_item, test_delete_nonexistent_item, test_update_nonexistent_item,
      test_get_item_not_found: after a delete the id is gone, and an absent id
      is reported as absent by every operation. */
  method DeleteScenarios(start: int, now: Timestamp)
    requires start >= 1
  {
    var store := new ItemStore(start);
    var created, _ := CreateThenGet(store, ItemBase("Test Item", "Test Description"), now);

    ghost var before := store.items;
    var deleted := store.DeleteItem(created.id, false);
    assert deleted == Ok(true);
    FindWithout(before, created.id, created.id);
    var gone := store.GetItem(created.id);
    assert gone == None;

    assert store.items == [];
    var missing := store.DeleteItem(999, false);
    assert missing == Ok(false);
    var noUpdate := store.UpdateItem(999, ItemUpdate(Some("Updated Name"), Some("Updated Description")), NoFault);
    assert noUpdate == Ok(None);
    var notFound := store.GetItem(999);
    assert notFound == None;
  }

  /** test_main.py: POST then GET through the handlers, the list defaults,
      and DELETE then POST. */
  method HandlerScenarios(start: int, now: Timestamp)
    requires start >= 1
  {
    var store := new ItemStore(start);
    var posted := HandleCreateItem(store, ItemBase("test item", "test description"), now, None, NoFault);
    assert StatusCode(posted) == 200;
    var created := posted.body.item;
    assert created.name == "test item" && created.description == "test description";

    var read := HandleReadItem(store, created.id);
    assert store.items[0] == created;
    assert StatusCode(read) == 200;
    assert read.body.item == created;

    var listed := HandleReadItems(store);
    assert listed == Success(ItemsBody(Page(store.items, 0, 100)));
    assert listed.body.items == [created];

    var absent := HandleReadItem(store, created.id + 1);
    assert absent == HttpError(404, NotFoundDetail);

    // a deleted id is never handed out again
    var deleted := HandleDeleteItem(store, created.id, false);
    assert StatusCode(deleted) == 200;
    var reposted := HandleCreateItem(store, ItemBase("test item", "test description"), now, None, NoFault);
    assert reposted.body.item.id != created.id;
  }

  /** PUT and DELETE through the handlers, each followed by GET /items/: the
      list shows the updated row in place, then only the row that remains. */
  method HandlerListScenarios(start: int, now: Timestamp)
    requires start >= 1
  {
    var store := new ItemStore(start);
    var first := HandleCreateItem(store, ItemBase("a", "first"), now, None, NoFault);
    var second := HandleCreateItem(store, ItemBase("b", "second"), now, None, NoFault);
    var a := first.body.item;
    var b := second.body.item;
    assert store.items == [a, b];

    var put := HandleUpdateItem(store, a.id, ItemUpdate(name := Some("c")), NoFault);
    assert StatusCode(put) == 200;
    var afterPut := HandleReadItems(store);
    assert afterPut.body.items == [a.(name := "c"), b];

    ghost var beforeDelete := store.items;
    var del := HandleDeleteItem(store, a.id, false);
    assert StatusCode(del) == 200;
    WithoutAt(beforeDelete, 0);
    var afterDelete := HandleReadItems(store);
    assert afterDelete.body.items == [b];
  }
}
