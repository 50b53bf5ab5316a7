/** The item repository (app/crud.py): an in-memory table of items kept in
    insertion order, which is also ascending id order, with a next-id counter
    standing for the table's id sequence. */
module Crud {
  import opened Schemas

  /** Result of a repository operation that may commit: either its value, or
      the commit failed, the session was rolled back and the error propagates. */
  datatype Outcome<+T> = Ok(value: T) | PersistenceError

  /** What goes wrong, if anything, in the `try` block after the change is made:
      the commit itself fails (the rollback then undoes the change), or the
      commit succeeds and the following `db.refresh` fails (the rollback then
      has nothing left to undo, yet the error still propagates). */
  datatype Fault = NoFault | CommitFault | RefreshFault

  // ---------------------------------------------------------------------
  // The table as a value
  // ---------------------------------------------------------------------

  /** Rows appear in strictly increasing id order; in particular ids are unique. */
  predicate IdsAscending(items: seq<Item>) {
    forall i, j :: 0 <= i < j < |items| ==> items[i].id < items[j].id
  }

  /** Every id was handed out by a sequence that starts at 1 and has reached `bound`. */
  predicate IdsBelow(items: seq<Item>, bound: int) {
    forall i :: 0 <= i < |items| ==> 1 <= items[i].id < bound
  }

  /** Position of the first row with the given id (`filter(id == ...).first()`). */
  function IndexOf(items: seq<Item>, id: int): (r: Option<nat>)
    ensures r.Some? ==> r.value < |items| && items[r.value].id == id
    ensures r.Some? ==> forall j :: 0 <= j < r.value ==> items[j].id != id
    ensures r.None? <==> forall j :: 0 <= j < |items| ==> items[j].id != id
  {
    if items == [] then None
    else if items[0].id == id then Some(0)
    else match IndexOf(items[1..], id)
      case None => None
      case Some(k) => Some(k + 1)
  }

  /** The first row with the given id, if any. */
  function Find(items: seq<Item>, id: int): (r: Option<Item>)
    ensures r.Some? ==> r.value in items && r.value.id == id
    ensures r.None? <==> forall j :: 0 <= j < |items| ==> items[j].id != id
  {
    match IndexOf(items, id)
    case Some(k) => Some(items[k])
    case None => None
  }

  /** `OFFSET skip LIMIT limit` over the rows in order. */
  function Page<T>(s: seq<T>, skip: nat, limit: nat): (r: seq<T>)
    ensures |r| == if skip >= |s| then 0 else if limit < |s| - skip then limit else |s| - skip
    ensures forall k :: 0 <= k < |r| ==> r[k] == s[skip + k]
  {
    if skip >= |s| then []
    else if skip + limit >= |s| then s[skip..]
    else s[skip..skip + limit]
  }

  /** The table without the rows carrying `id` (`DELETE ... WHERE id = ...`). */
  function Without(items: seq<Item>, id: int): (r: seq<Item>)
    ensures |r| <= |items|
  {
    if items == [] then []
    else if items[0].id == id then Without(items[1..], id)
    else [items[0]] + Without(items[1..], id)
  }

  // ---------------------------------------------------------------------
  // Partial update: the setattr loop
  // ---------------------------------------------------------------------

  /** `setattr(db_item, key, value)` for one of the two mergeable fields. */
  function SetAttr(it: Item, key: Field, value: string): Item {
    match key
    case Name => it.(name := value)
    case Description => it.(description := value)
  }

  /** The item after the assignments of `data` were made one after the other. */
  function ApplyUpdateData(it: Item, data: seq<(Field, string)>): Item
    decreases |data|
  {
    if data == [] then it
    else
      var last := data[|data| - 1];
      SetAttr(ApplyUpdateData(it, data[..|data| - 1]), last.0, last.1)
  }

  /** Assigning the dumped set fields one by one yields the reference merge. */
  lemma ApplyDumpIsMerge(it: Item, u: ItemUpdate)
    ensures ApplyUpdateData(it, Dump(u)) == Merge(it, u)
  {
    var d := Dump(u);
    if u.name.Some? && u.description.Some? {
      assert d == [(Name, u.name.value), (Description, u.description.value)];
      assert d[..1] == [(Name, u.name.value)];
      assert d[..1][..0] == [];
      assert ApplyUpdateData(it, d[..1]) == it.(name := u.name.value);
    } else if u.name.Some? || u.description.Some? {
      assert d[..0] == [];
    }
  }

  /** The loop `for key, value in update_data.items(): setattr(db_item, key, value)`
      over `update_data = u.model_dump(exclude_unset=True)`. */
  method SetFields(it: Item, u: ItemUpdate) returns (r: Item)
    ensures r == Merge(it, u)
  {
    var data := Dump(u);
    r := it;
    var i := 0;
    while i < |data|
      invariant 0 <= i <= |data|
      invariant r == ApplyUpdateData(it, data[..i])
    {
      assert data[..i + 1][..i] == data[..i];
      r := SetAttr(r, data[i].0, data[i].1);
      i := i + 1;
    }
    assert data[..|data|] == data;
    ApplyDumpIsMerge(it, u);
  }

  // ---------------------------------------------------------------------
  // Lemmas about the table functions
  // ---------------------------------------------------------------------

  /** Appending a row leaves every earlier lookup as it was, and makes the new
      row findable under its id when that id was absent before. */
  lemma {:induction false} FindAppend(items: seq<Item>, x: Item, id: int)
    ensures Find(items + [x], id) ==
            if Find(items, id).Some? then Find(items, id)
            else if x.id == id then Some(x) else None
  {
    IndexOfAppend(items, x, id);
  }

  lemma {:induction false} IndexOfAppend(items: seq<Item>, x: Item, id: int)
    ensures IndexOf(items + [x], id) ==
            if IndexOf(items, id).Some? then IndexOf(items, id)
            else if x.id == id then Some(|items|) else None
  {
    if items != [] {
      assert (items + [x])[1..] == items[1..] + [x];
      IndexOfAppend(items[1..], x, id);
    }
  }

  /** Two tables whose rows carry the same ids in the same order answer every
      position lookup alike. */
  lemma {:induction false} IndexOfSameIds(a: seq<Item>, b: seq<Item>, id: int)
    requires |a| == |b|
    requires forall k :: 0 <= k < |a| ==> a[k].id == b[k].id
    ensures IndexOf(a, id) == IndexOf(b, id)
  {
    if a != [] {
      IndexOfSameIds(a[1..], b[1..], id);
    }
  }

  /** Overwriting the row at `k` with a row of the same id: a lookup of that id
      finds the new row, every other lookup is unchanged. */
  lemma FindAfterReplace(items: seq<Item>, k: nat, x: Item, id: int)
    requires k < |items| && x.id == items[k].id
    requires IdsAscending(items)
    ensures Find(items[k := x], id) == if id == x.id then Some(x) else Find(items, id)
  {
    IndexOfSameIds(items[k := x], items, id);
  }

  /** Removing the rows of `id` keeps exactly the rows with other ids. */
  lemma {:induction false} WithoutMembers(items: seq<Item>, id: int, x: Item)
    ensures x in Without(items, id) <==> x in items && x.id != id
  {
    if items != [] {
      WithoutMembers(items[1..], id, x);
      assert items == [items[0]] + items[1..];
    }
  }

  /** A lookup either stops at the first row or goes on with the rest. */
  lemma FindCons(items: seq<Item>, id: int)
    requires items != []
    ensures Find(items, id) == if items[0].id == id then Some(items[0]) else Find(items[1..], id)
  {
  }

  /** After removing the rows of `id`, that id is absent and every other lookup
      is unchanged. */
  lemma {:induction false} FindWithout(items: seq<Item>, id: int, other: int)
    ensures Find(Without(items, id), other) == if other == id then None else Find(items, other)
  {
    if items != [] {
      FindWithout(items[1..], id, other);
      FindCons(items, other);
      if items[0].id != id {
        var w := [items[0]] + Without(items[1..], id);
        assert w[1..] == Without(items[1..], id);
        FindCons(w, other);
      }
    }
  }

  /** In a table with unique ids, removing the rows of `items[k].id` is
      removing exactly that one row, keeping the order of the others. */
  lemma {:induction false} WithoutAt(items: seq<Item>, k: nat)
    requires k < |items| && IdsAscending(items)
    ensures Without(items, items[k].id) == items[..k] + items[k + 1..]
  {
    var id, rest := items[k].id, items[1..];
    assert IdsAscending(rest) by {
      forall i, j | 0 <= i < j < |rest| ensures rest[i].id < rest[j].id {
        assert rest[i] == items[i + 1] && rest[j] == items[j + 1];
      }
    }
    if k == 0 {
      assert forall j :: 0 <= j < |rest| ==> rest[j].id != id by {
        forall j | 0 <= j < |rest| ensures rest[j].id != id {
          assert rest[j] == items[j + 1];
        }
      }
      WithoutAbsent(rest, id);
      assert items[..0] + items[1..] == rest;
    } else {
      assert items[0].id < id;
      assert rest[k - 1] == items[k];
      WithoutAt(rest, k - 1);
      assert rest[..k - 1] + rest[k..] == items[1..k] + items[k + 1..];
      assert items[..k] == [items[0]] + items[1..k];
    }
  }

  lemma {:induction false} WithoutAbsent(items: seq<Item>, id: int)
    requires forall j :: 0 <= j < |items| ==> items[j].id != id
    ensures Without(items, id) == items
  {
    if items != [] {
      WithoutAbsent(items[1..], id);
      assert items == [items[0]] + items[1..];
    }
  }

  /** Two consecutive pages together are the page of their combined length. */
  lemma PageSplit<T>(s: seq<T>, skip: nat, n: nat, m: nat)
    ensures Page(s, skip, n) + Page(s, skip + n, m) == Page(s, skip, n + m)
  {
    var l, r, all := Page(s, skip, n), Page(s, skip + n, m), Page(s, skip, n + m);
    assert |l + r| == |all|;
    forall k | 0 <= k < |all| ensures (l + r)[k] == all[k] {
      if k < |l| { } else { assert (l + r)[k] == r[k - |l|]; }
    }
  }

  // ---------------------------------------------------------------------
  // The repository over a session
  // ---------------------------------------------------------------------

  /** The `items` table as seen through one session. `items` holds the rows in
      insertion order; `nextId` is the id the table's sequence hands out next. */
  class ItemStore {
    var items: seq<Item>
    var nextId: int

    ghost predicate Valid()
      reads this
    {
      nextId >= 1 && IdsAscending(items) && IdsBelow(items, nextId)
    }

    /** An empty table whose id sequence hands out `start` next: a freshly
        created table has `start == 1`; a table emptied by `DELETE FROM items`
        keeps its sequence wherever earlier inserts left it. */
    constructor (start: int)
      requires start >= 1
      ensures Valid() && items == [] && nextId == start
    {
      items := [];
      nextId := start;
    }

    /** `create_item`: inserts a row built from `input` and commits. The
        timestamps are whatever the table's column defaults produce; `fault`
        says what, if anything, fails after the insert. */
    method CreateItem(input: ItemCreate, createdAt: Timestamp, updatedAt: Option<Timestamp>, fault: Fault)
      returns (r: Outcome<Item>)
      requires Valid()
      modifies this
      ensures Valid()
      ensures fault == CommitFault ==> r == PersistenceError && items == old(items) && nextId == old(nextId)
      ensures fault != CommitFault ==>
                Find(old(items), old(nextId)).None?
                && items == old(items) + [Item(old(nextId), input.name, input.description, createdAt, updatedAt)]
                && nextId == old(nextId) + 1
      ensures fault == NoFault ==> r == Ok(Item(old(nextId), input.name, input.description, createdAt, updatedAt))
      ensures fault == RefreshFault ==> r == PersistenceError
    {
      var row := Item(nextId, input.name, input.description, createdAt, updatedAt);
      var savedItems, savedNext := items, nextId;
      // db.add + flush: the row takes the next id of the sequence
      items := items + [row];
      nextId := nextId + 1;
      if fault == CommitFault {
        // db.rollback
        items, nextId := savedItems, savedNext;
        r := PersistenceError;
      } else if fault == RefreshFault {
        // committed; db.rollback has nothing to undo
        r := PersistenceError;
      } else {
        r := Ok(row);
      }
    }

    /** `get_item`: the row with the given id, or None. Reads only. */
    method GetItem(id: int) returns (r: Option<Item>)
      requires Valid()
      ensures r == Find(items, id)
      ensures r.Some? ==> r.value in items && r.value.id == id
      ensures r.None? <==> forall j :: 0 <= j < |items| ==> items[j].id != id
    {
      r := Find(items, id);
    }

    /** `get_items`: the rows in order, the first `skip` dropped, at most `limit` kept. */
    method GetItems(skip: nat, limit: nat) returns (r: seq<Item>)
      requires Valid()
      ensures r == Page(items, skip, limit)
      ensures |r| <= limit
      ensures forall k :: 0 <= k < |r| ==> r[k] == items[skip + k]
      ensures |r| == limit || skip + |r| >= |items|
    {
      r := Page(items, skip, limit);
    }

    /** `update_item`: overwrites only the supplied fields of the row with the
        given id and commits; None when there is no such row. `fault` says
        what, if anything, fails after the fields are set. */
    method UpdateItem(id: int, u: ItemUpdate, fault: Fault) returns (r: Outcome<Option<Item>>)
      requires Valid()
      modifies this
      ensures Valid() && nextId == old(nextId)
      ensures Find(old(items), id).None? ==> r == Ok(None) && items == old(items)
      ensures Find(old(items), id).Some? && fault == CommitFault ==> r == PersistenceError && items == old(items)
      ensures Find(old(items), id).Some? && fault != CommitFault ==>
                |items| == |old(items)|
                && forall k :: 0 <= k < |items| ==>
                     items[k] == if old(items)[k].id == id then Merge(old(items)[k], u) else old(items)[k]
      ensures Find(old(items), id).Some? && fault == NoFault ==>
                r == Ok(Some(Merge(Find(old(items), id).value, u)))
      ensures Find(old(items), id).Some? && fault == RefreshFault ==> r == PersistenceError
    {
      match IndexOf(items, id)
      case None =>
        r := Ok(None);
      case Some(k) =>
        var saved := items;
        var updated := SetFields(items[k], u);
        items := items[k := updated];
        if fault == CommitFault {
          // db.rollback
          items := saved;
          r := PersistenceError;
        } else if fault == RefreshFault {
          // committed; db.rollback has nothing to undo
          r := PersistenceError;
        } else {
          r := Ok(Some(updated));
        }
    }

    /** `delete_item`: removes the row with the given id and commits; false when
        there is no such row. `fails` says whether the commit fails (nothing
        runs after the commit here). */
    method DeleteItem(id: int, fails: bool) returns (r: Outcome<bool>)
      requires Valid()
      modifies this
      ensures Valid() && nextId == old(nextId)
      ensures Find(old(items), id).None? ==> r == Ok(false) && items == old(items)
      ensures Find(old(items), id).Some? && fails ==> r == PersistenceError && items == old(items)
      ensures Find(old(items), id).Some? && !fails ==> r == Ok(true) && items == Without(old(items), id)
    {
      match IndexOf(items, id)
      case None =>
        r := Ok(false);
      case Some(k) =>
        var saved := items;
        WithoutAt(items, k);
        items := items[..k] + items[k + 1..];
        if fails {
          // db.rollback
          items := saved;
          r := PersistenceError;
        } else {
          r := Ok(true);
        }
    }
  }
}
