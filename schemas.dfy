/** Request and response record shapes of the item service (app/schemas.py),
    and the partial-update merge that an ItemUpdate describes. */
module Schemas {

  datatype Option<+T> = None | Some(value: T) {
    /** The carried value, or `default` when there is none. */
    function GetOr(default: T): T {
      match this
      case Some(v) => v
      case None => default
    }
  }

  /** A point in time. The repository only stores and returns timestamps;
      it never inspects or computes one. */
  type Timestamp = int

  /** The two user-supplied fields every item carries. */
  datatype ItemBase = ItemBase(name: string, description: string)

  /** Payload of a create request: both fields required (it adds nothing to ItemBase). */
  type ItemCreate = ItemBase

  /** Payload of an update request. Each field is `Some` exactly when the
      client supplied it ("set"); `None` is the unset default. */
  datatype ItemUpdate = ItemUpdate(name: Option<string> := None, description: Option<string> := None)

  /** The read view of a stored item. */
  datatype Item = Item(id: int, name: string, description: string,
                       createdAt: Timestamp, updatedAt: Option<Timestamp> := None)

  /** The fields an ItemUpdate can name: exactly those of ItemBase. */
  datatype Field = Name | Description

  /** The explicitly set fields of an update, in declaration order, with their
      values: what `model_dump(exclude_unset=True)` produces. */
  function Dump(u: ItemUpdate): (d: seq<(Field, string)>)
    ensures |d| == (if u.name.Some? then 1 else 0) + (if u.description.Some? then 1 else 0)
    ensures forall k :: 0 <= k < |d| && d[k].0 == Name ==> u.name == Some(d[k].1)
    ensures forall k :: 0 <= k < |d| && d[k].0 == Description ==> u.description == Some(d[k].1)
    ensures u.name.Some? ==> d[0] == (Name, u.name.value)
    ensures u.description.Some? ==> d[|d| - 1] == (Description, u.description.value)
    ensures forall i, j :: 0 <= i < j < |d| ==> d[i].0 != d[j].0
    ensures d == [] <==> u.name.None? && u.description.None?
  {
    (if u.name.Some? then [(Name, u.name.value)] else [])
    + (if u.description.Some? then [(Description, u.description.value)] else [])
  }

  /** Reference meaning of a partial update: every supplied field overwrites
      the item's, every unset field keeps it, and nothing else changes. */
  function Merge(it: Item, u: ItemUpdate): Item {
    it.(name := u.name.GetOr(it.name), description := u.description.GetOr(it.description))
  }

  /** An update with no field set leaves the item exactly as it was. */
  lemma MergeUnsetIsIdentity(it: Item)
    ensures Dump(ItemUpdate()) == []
    ensures Merge(it, ItemUpdate()) == it
  {
  }

  /** A merge changes only name and description: the id and the timestamps
      are never merged. Supplied fields are taken, unset fields kept. */
  lemma MergeFields(it: Item, u: ItemUpdate)
    ensures Merge(it, u).id == it.id
    ensures Merge(it, u).createdAt == it.createdAt && Merge(it, u).updatedAt == it.updatedAt
    ensures u.name.Some? ==> Merge(it, u).name == u.name.value
    ensures u.name.None? ==> Merge(it, u).name == it.name
    ensures u.description.Some? ==> Merge(it, u).description == u.description.value
    ensures u.description.None? ==> Merge(it, u).description == it.description
  {
  }

  /** Applying the same update twice is the same as applying it once. */
  lemma MergeIdempotent(it: Item, u: ItemUpdate)
    ensures Merge(Merge(it, u), u) == Merge(it, u)
  {
  }

  /** An update that supplies both fields of a create payload sets the item's
      name and description to exactly those values, whatever they were before,
      and changes nothing else. */
  lemma MergeFullUpdate(it: Item, c: ItemCreate)
    ensures Merge(it, ItemUpdate(Some(c.name), Some(c.description)))
            == it.(name := c.name, description := c.description)
  {
  }
}
