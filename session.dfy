/** The item list kept in the PHP session, $_SESSION['grocery_items'] with
    $_SESSION['next_id'], and the handlers that read and change it in place. */
module Session {
  import opened PhpValues
  import opened Items
  import opened Store

  class ItemStore {
    var items: seq<Item>
    var nextId: int

    /** The session's contents as a value. */
    function Snapshot(): State
      reads this
    {
      State(items, nextId)
    }

    ghost predicate Valid()
      reads this
    {
      Store.Valid(Snapshot())
    }

    /** A new session: the five seed records and next_id = 6. */
    constructor ()
      ensures Snapshot() == Seed() && Valid()
    {
      items := SeedItems();
      nextId := 6;
    }

    /** The index scan update and delete share, stopping at the first match. */
    method IndexOf(id: Raw) returns (k: int)
      ensures k == FirstMatch(items, id)
    {
      k := -1;
      var i := 0;
      while i < |items|
        invariant 0 <= i <= |items|
        invariant forall j :: 0 <= j < i ==> !LooseEqInt(items[j].id, id)
      {
        if LooseEqInt(items[i].id, id) {
          k := i;
          return;
        }
        i := i + 1;
      }
    }

    /** getAllItems: sorts a copy of the list by name; the list itself is not
        touched. */
    method GetAllItems() returns (resp: Response)
      ensures resp == Listing(SortByName(items))
      ensures ListsByName(items, resp.items)
    {
      var sorted := SortCopy(items);
      SortByNameLists(items);
      resp := Listing(sorted);
    }

    /** getItem: the first item whose id matches. */
    method GetItem(id: Raw) returns (resp: Response)
      ensures resp == GetResponse(Snapshot(), id)
    {
      if IsEmpty(id) {
        return Failure(400, IdRequired);
      }
      var k := IndexOf(id);
      if k == -1 {
        return Failure(404, NotFound);
      }
      resp := Found(items[k]);
    }

    /** addItem: validates, then appends a record under next_id and bumps it. */
    method AddItem(data: Payload, now: string) returns (resp: Response)
      requires Valid()
      modifies this
      ensures Valid()
      ensures Outcome(Snapshot(), resp) == AddOutcome(old(Snapshot()), data, now)
    {
      AddValid(Snapshot(), data, now);
      var missing := CheckRequired(data);
      if missing.Some? {
        return FieldRequired(missing.value);
      }
      var id := nextId;
      nextId := nextId + 1;
      var newItem := NewItem(id, data, now);
      items := items + [newItem];
      resp := Added("Item added successfully", newItem.id);
    }

    /** updateItem: id check, search, field check, then the fields of the
        found record are overwritten one by one. */
    method UpdateItem(data: Payload, now: string) returns (resp: Response)
      requires Valid()
      modifies this
      ensures Valid()
      ensures Outcome(Snapshot(), resp) == UpdateOutcome(old(Snapshot()), data, now)
    {
      UpdateValid(Snapshot(), data, now);
      if IsEmpty(Field(data, "id")) {
        return Failure(400, IdRequired);
      }
      var k := IndexOf(Field(data, "id"));
      if k == -1 {
        return Failure(404, NotFound);
      }
      var missing := CheckRequired(data);
      if missing.Some? {
        return FieldRequired(missing.value);
      }
      ghost var before := items;
      items := items[k := items[k].(name := Field(data, "name"))];
      items := items[k := items[k].(category := Field(data, "category"))];
      items := items[k := items[k].(quantity := ToInt(Field(data, "quantity")))];
      items := items[k := items[k].(price := NormalizePrice(Field(data, "price")))];
      items := items[k := items[k].(description := DescriptionOf(data))];
      items := items[k := items[k].(updatedAt := now)];
      assert items == before[k := Revised(before[k], data, now)];
      resp := Done("Item updated successfully");
    }

    /** deleteItem: id check, search, then the record is spliced out. */
    method DeleteItem(id: Raw) returns (resp: Response)
      requires Valid()
      modifies this
      ensures Valid()
      ensures Outcome(Snapshot(), resp) == DeleteOutcome(old(Snapshot()), id)
    {
      DeleteValid(Snapshot(), id);
      if IsEmpty(id) {
        return Failure(400, IdRequired);
      }
      var k := IndexOf(id);
      if k == -1 {
        return Failure(404, NotFound);
      }
      items := items[..k] + items[k + 1..];
      resp := Done("Item deleted successfully");
    }
  }

  /** usort on a copy of the items, as an insertion sort: each item in turn
      moves left past the greater names before it. */
  method SortCopy(items: seq<Item>) returns (sorted: seq<Item>)
    ensures sorted == SortByName(items)
  {
    sorted := items;
    var i := 0;
    while i < |sorted|
      invariant 0 <= i <= |sorted| == |items|
      invariant sorted == SortPrefix(items, i) + items[i..]
    {
      SortPrefixSplit(items, i, sorted);
      sorted := SinkLast(sorted, i, SortPrefix(items, i), items[i + 1..]);
      i := i + 1;
    }
    assert items[|items|..] == [];
  }

  /** The inner loop of the listing's sort: the item at position i moves left
      while the name before it is greater, which inserts it into the sorted
      items before it. */
  method SinkLast(s: seq<Item>, i: int, ghost prefix: seq<Item>, ghost rest: seq<Item>)
    returns (sorted: seq<Item>)
    requires 0 <= i == |prefix| < |s| && s == prefix + [s[i]] + rest
    ensures sorted == InsertByName(prefix, s[i]) + rest
  {
    InsertStart(prefix, s[i], rest);
    ghost var x := s[i];
    sorted := s;
    var j := i;
    while j > 0 && !NameLe(sorted[j - 1], sorted[j])
      invariant 0 <= j <= i
      invariant sorted == Split(prefix, j, x, rest)
      invariant InsertByName(prefix, x) == InsertByName(prefix[..j], x) + prefix[j..]
    {
      InsertStep(prefix, j, x);
      SwapDown(prefix, j, x, rest);
      sorted := sorted[j - 1 := sorted[j]][j := sorted[j - 1]];
      j := j - 1;
    }
    InsertDone(prefix, j, x, rest);
  }
}
