/** The HTTP handlers of the item service (app/main.py): each calls one
    repository operation and turns its outcome into a response. */
module Dispatcher {
  import opened Schemas
  import opened Crud

  const NotFoundDetail: string := "Item not found"
  const DeletedMessage: string := "Item deleted successfully"

  /** Query defaults of `GET /items/`. */
  const DefaultSkip: nat := 0
  const DefaultLimit: nat := 100

  datatype Body = ItemBody(item: Item) | ItemsBody(items: seq<Item>) | MessageBody(message: string)

  /** A handler's response: a success body, an `HTTPException` raised by the
      handler, or the server error that an exception propagated out of the
      repository becomes. */
  datatype Response = Success(body: Body) | HttpError(status: nat, detail: string) | ServerError

  function StatusCode(resp: Response): nat {
    match resp
    case Success(_) => 200
    case HttpError(status, _) => status
    case ServerError => 500
  }

  /** `POST /items/`: the created item, as the repository returned it. */
  function CreateResponse(o: Outcome<Item>): (resp: Response)
    ensures StatusCode(resp) == 200 <==> o.Ok?
    ensures o.Ok? ==> resp == Success(ItemBody(o.value))
    ensures o.PersistenceError? ==> resp == ServerError
  {
    match o
    case Ok(item) => Success(ItemBody(item))
    case PersistenceError => ServerError
  }

  /** `GET /items/`: always a success carrying exactly the listed items. */
  function ListResponse(items: seq<Item>): (resp: Response)
    ensures StatusCode(resp) == 200
    ensures resp.Success? && resp.body == ItemsBody(items)
  {
    Success(ItemsBody(items))
  }

  /** `GET /items/{item_id}`: 404 exactly when the lookup found nothing. */
  function ReadResponse(found: Option<Item>): (resp: Response)
    ensures StatusCode(resp) == 404 <==> found.None?
    ensures found.None? ==> resp == HttpError(404, NotFoundDetail)
    ensures found.Some? ==> resp == Success(ItemBody(found.value))
  {
    match found
    case None => HttpError(404, NotFoundDetail)
    case Some(item) => Success(ItemBody(item))
  }

  /** `PUT /items/{item_id}`: 404 exactly when the repository returned None. */
  function UpdateResponse(o: Outcome<Option<Item>>): (resp: Response)
    ensures StatusCode(resp) == 404 <==> o == Ok(None)
    ensures StatusCode(resp) == 500 <==> o.PersistenceError?
    ensures o == Ok(None) ==> resp == HttpError(404, NotFoundDetail)
    ensures o.Ok? && o.value.Some? ==> resp == Success(ItemBody(o.value.value))
  {
    match o
    case PersistenceError => ServerError
    case Ok(None) => HttpError(404, NotFoundDetail)
    case Ok(Some(item)) => Success(ItemBody(item))
  }

  /** `DELETE /items/{item_id}`: 404 exactly when the repository returned false. */
  function DeleteResponse(o: Outcome<bool>): (resp: Response)
    ensures StatusCode(resp) == 404 <==> o == Ok(false)
    ensures StatusCode(resp) == 500 <==> o.PersistenceError?
    ensures o == Ok(false) ==> resp == HttpError(404, NotFoundDetail)
    ensures o == Ok(true) ==> resp == Success(MessageBody(DeletedMessage))
  {
    match o
    case PersistenceError => ServerError
    case Ok(false) => HttpError(404, NotFoundDetail)
    case Ok(true) => Success(MessageBody(DeletedMessage))
  }

  method HandleCreateItem(store: ItemStore, item: ItemCreate, createdAt: Timestamp,
                          updatedAt: Option<Timestamp>, fault: Fault) returns (resp: Response)
    requires store.Valid()
    modifies store
    ensures store.Valid()
    ensures resp == ServerError <==> fault != NoFault
    ensures fault == CommitFault ==> store.items == old(store.items) && store.nextId == old(store.nextId)
    ensures fault != CommitFault ==>
              store.items == old(store.items) + [Item(old(store.nextId), item.name, item.description, createdAt, updatedAt)]
              && store.nextId == old(store.nextId) + 1
    ensures fault == NoFault ==>
              resp == Success(ItemBody(Item(old(store.nextId), item.name, item.description, createdAt, updatedAt)))
  {
    var created := store.CreateItem(item, createdAt, updatedAt, fault);
    resp := CreateResponse(created);
  }

  method HandleReadItems(store: ItemStore, skip: nat := DefaultSkip, limit: nat := DefaultLimit)
    returns (resp: Response)
    requires store.Valid()
    ensures resp == Success(ItemsBody(Page(store.items, skip, limit)))
  {
    var items := store.GetItems(skip, limit);
    resp := ListResponse(items);
  }

  method HandleReadItem(store: ItemStore, itemId: int) returns (resp: Response)
    requires store.Valid()
    ensures StatusCode(resp) == 404 <==> forall j :: 0 <= j < |store.items| ==> store.items[j].id != itemId
    ensures resp.Success? || resp == HttpError(404, NotFoundDetail)
    ensures resp.Success? ==> resp.body.ItemBody? && resp.body.item in store.items && resp.body.item.id == itemId
  {
    var found := store.GetItem(itemId);
    resp := ReadResponse(found);
  }

  method HandleUpdateItem(store: ItemStore, itemId: int, item: ItemUpdate, fault: Fault)
    returns (resp: Response)
    requires store.Valid()
    modifies store
    ensures store.Valid() && store.nextId == old(store.nextId)
    ensures StatusCode(resp) == 404 <==> Find(old(store.items), itemId).None?
    ensures StatusCode(resp) == 500 <==> Find(old(store.items), itemId).Some? && fault != NoFault
    ensures StatusCode(resp) == 404 || fault == CommitFault ==> store.items == old(store.items)
    ensures resp.HttpError? ==> resp == HttpError(404, NotFoundDetail)
    ensures Find(old(store.items), itemId).Some? && fault != CommitFault ==>
              Find(store.items, itemId) == Some(Merge(Find(old(store.items), itemId).value, item))
    ensures Find(old(store.items), itemId).Some? && fault != CommitFault ==>
              |store.items| == |old(store.items)|
              && forall k :: 0 <= k < |store.items| ==>
                   store.items[k] == if old(store.items)[k].id == itemId then Merge(old(store.items)[k], item) else old(store.items)[k]
    ensures resp.Success? ==> resp.body == ItemBody(Merge(Find(old(store.items), itemId).value, item))
    ensures forall other :: other != itemId ==> Find(store.items, other) == Find(old(store.items), other)
  {
    var updated := store.UpdateItem(itemId, item, fault);
    resp := UpdateResponse(updated);
    if Find(old(store.items), itemId).Some? && fault != CommitFault {
      var k := IndexOf(old(store.items), itemId).value;
      var merged := Merge(old(store.items)[k], item);
      assert store.items == old(store.items)[k := merged];
      forall other ensures Find(store.items, other) == if other == itemId then Some(merged) else Find(old(store.items), other) {
        FindAfterReplace(old(store.items), k, merged, other);
      }
    }
  }

  method HandleDeleteItem(store: ItemStore, itemId: int, fails: bool) returns (resp: Response)
    requires store.Valid()
    modifies store
    ensures store.Valid() && store.nextId == old(store.nextId)
    ensures StatusCode(resp) == 404 <==> Find(old(store.items), itemId).None?
    ensures StatusCode(resp) == 500 <==> Find(old(store.items), itemId).Some? && fails
    ensures StatusCode(resp) != 200 ==> store.items == old(store.items)
    ensures resp.HttpError? ==> resp == HttpError(404, NotFoundDetail)
    ensures resp.Success? ==> resp.body == MessageBody(DeletedMessage) && Find(store.items, itemId).None?
    ensures resp.Success? ==> store.items == Without(old(store.items), itemId)
    ensures forall other :: other != itemId ==> Find(store.items, other) == Find(old(store.items), other)
  {
    var deleted := store.DeleteItem(itemId, fails);
    resp := DeleteResponse(deleted);
    if resp.Success? {
      forall other ensures Find(store.items, other) == if other == itemId then None else Find(old(store.items), other) {
        FindWithout(old(store.items), itemId, other);
      }
    }
  }
}
