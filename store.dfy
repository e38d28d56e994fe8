/** What each request handler of the session-backed API does to the item list
    and the id counter, stated on values, and the properties that follow. */
module Store {
  import opened PhpStrings
  import opened PhpValues
  import opened Items

  /** What a handler sends back.  Every variant but Failure is sent with status
      200; NoContent is the empty reply to a preflight request. */
  datatype Response =
    | Listing(items: seq<Item>)
    | Found(item: Item)
    | Added(message: string, id: int)
    | Done(message: string)
    | NoContent
    | Failure(status: int, error: string)

  /** The HTTP status of the reply: sendJsonResponse's default of 200 unless
      an error status is passed, and 200 after the bare exit of a preflight. */
  function Status(r: Response): int {
    if r.Failure? then r.status else 200
  }

  const IdRequired := "Item ID is required"
  const NotFound := "Item not found"

  function FieldRequired(f: string): Response {
    Failure(400, "Field '" + f + "' is required")
  }

  /** The session's item list and the next id to hand out. */
  datatype State = State(items: seq<Item>, nextId: int)

  predicate IdsUnique(items: seq<Item>) {
    forall i, j :: 0 <= i < j < |items| ==> items[i].id != items[j].id
  }

  /** The store's invariant: ids are distinct, positive and below the counter,
      which is itself positive. */
  predicate Valid(st: State) {
    st.nextId >= 1 && IdsUnique(st.items) && forall i :: 0 <= i < |st.items| ==> 1 <= st.items[i].id < st.nextId
  }

  /** The state a new session starts in. */
  function Seed(): State {
    State(SeedItems(), 6)
  }

  lemma SeedValid()
    ensures Valid(Seed())
  {
  }

  /** The index of the first item whose id loosely equals id, or -1. */
  function FirstMatch(items: seq<Item>, id: Raw): (k: int)
    ensures -1 <= k < |items|
    ensures k >= 0 ==> LooseEqInt(items[k].id, id)
    ensures forall j :: 0 <= j < |items| && (k == -1 || j < k) ==> !LooseEqInt(items[j].id, id)
  {
    if items == [] then -1
    else if LooseEqInt(items[0].id, id) then 0
    else
      var k := FirstMatch(items[1..], id);
      if k == -1 then -1 else k + 1
  }

  /** Only the ids take part in the search. */
  lemma {:induction false} FirstMatchOnIds(a: seq<Item>, b: seq<Item>, id: Raw)
    requires |a| == |b| && forall j :: 0 <= j < |a| ==> a[j].id == b[j].id
    ensures FirstMatch(a, id) == FirstMatch(b, id)
  {
    if a != [] && !LooseEqInt(a[0].id, id) {
      FirstMatchOnIds(a[1..], b[1..], id);
    }
  }

  /** In a list with distinct ids, an id value that is not null or a boolean
      finds the one item with that id, wherever it is. */
  lemma FirstMatchOfUniqueId(items: seq<Item>, k: nat, id: Raw)
    requires IdsUnique(items) && SingleId(id)
    requires k < |items| && LooseEqInt(items[k].id, id)
    ensures FirstMatch(items, id) == k
  {
  }

  /** The list without the item at position k, the rest in their order. */
  function RemoveAt(items: seq<Item>, k: nat): (r: seq<Item>)
    requires k < |items|
    ensures |r| == |items| - 1
    ensures forall j :: 0 <= j < k ==> r[j] == items[j]
    ensures forall j :: k <= j < |r| ==> r[j] == items[j + 1]
  {
    items[..k] + items[k + 1..]
  }

  /** A pair of a new state and the response sent. */
  datatype Outcome = Outcome(state: State, response: Response)

  /** POST add. */
  function AddOutcome(st: State, data: Payload, now: string): Outcome {
    match MissingField(data)
    case Some(f) => Outcome(st, FieldRequired(f))
    case None =>
      Outcome(State(st.items + [NewItem(st.nextId, data, now)], st.nextId + 1),
              Added("Item added successfully", st.nextId))
  }

  /** PUT update: id first, then the search, then the required fields. */
  function UpdateOutcome(st: State, data: Payload, now: string): Outcome {
    var id := Field(data, "id");
    if IsEmpty(id) then Outcome(st, Failure(400, IdRequired))
    else
      var k := FirstMatch(st.items, id);
      if k == -1 then Outcome(st, Failure(404, NotFound))
      else match MissingField(data)
        case Some(f) => Outcome(st, FieldRequired(f))
        case None =>
          Outcome(State(st.items[k := Revised(st.items[k], data, now)], st.nextId),
                  Done("Item updated successfully"))
  }

  /** DELETE delete. */
  function DeleteOutcome(st: State, id: Raw): Outcome {
    if IsEmpty(id) then Outcome(st, Failure(400, IdRequired))
    else
      var k := FirstMatch(st.items, id);
      if k == -1 then Outcome(st, Failure(404, NotFound))
      else Outcome(State(RemoveAt(st.items, k), st.nextId), Done("Item deleted successfully"))
  }

  /** GET item. */
  function GetResponse(st: State, id: Raw): Response {
    if IsEmpty(id) then Failure(400, IdRequired)
    else
      var k := FirstMatch(st.items, id);
      if k == -1 then Failure(404, NotFound) else Found(st.items[k])
  }

  /** The key usort compares with strcmp: the name as a string. */
  function NameKey(it: Item): string {
    ToStr(it.name)
  }

  /** The usort comparator says a may stay before b. */
  predicate NameLe(a: Item, b: Item) {
    StrCmp(NameKey(a), NameKey(b)) <= 0
  }

  predicate SortedByName(s: seq<Item>) {
    forall i, j :: 0 <= i < j < |s| ==> NameLe(s[i], s[j])
  }

  /** GET items: the listing holds the stored items, each as often as stored,
      ordered by name. */
  predicate ListsByName(items: seq<Item>, listing: seq<Item>) {
    SortedByName(listing) && multiset(listing) == multiset(items)
  }

  /** An item whose name is not below the last one may follow a sorted list. */
  lemma AppendByName(s: seq<Item>, x: Item)
    requires s != [] && NameLe(s[|s| - 1], x) && SortedByName(s)
    ensures SortedByName(s + [x])
  {
    forall i | 0 <= i < |s| - 1
      ensures NameLe(s[i], x)
    {
      StrCmpTransitive(NameKey(s[i]), NameKey(s[|s| - 1]), NameKey(x));
    }
  }

  /** The recursive case of InsertByName: x went into the part before last,
      so last, being above x and above all of that part, may close the list. */
  lemma InsertBelowLast(init: seq<Item>, last: Item, x: Item, r': seq<Item>)
    requires !NameLe(last, x)
    requires multiset(r') == multiset(init) + multiset{x}
    requires SortedByName(init + [last]) && SortedByName(r')
    ensures SortedByName(r' + [last])
  {
    StrCmpAntisymmetric(NameKey(last), NameKey(x));
    forall i | 0 <= i < |r'|
      ensures NameLe(r'[i], last)
    {
      assert r'[i] in multiset(r');
      if r'[i] != x {
        assert r'[i] in multiset(init);
        var k :| 0 <= k < |init| && init[k] == r'[i];
        assert (init + [last])[k] == init[k] && (init + [last])[|init|] == last;
      }
    }
  }

  /** Places x into the name-sorted s after every element whose name does not
      exceed its own: the step a stable insertion sort takes from the right. */
  function InsertByName(s: seq<Item>, x: Item): (r: seq<Item>)
    ensures |r| == |s| + 1
  {
    if s == [] then [x]
    else if NameLe(s[|s| - 1], x) then s + [x]
    else InsertByName(s[..|s| - 1], x) + [s[|s| - 1]]
  }

  /** Inserting adds x and loses nothing. */
  lemma {:induction false} InsertByNameMultiset(s: seq<Item>, x: Item)
    ensures multiset(InsertByName(s, x)) == multiset(s) + multiset{x}
  {
    if s != [] && !NameLe(s[|s| - 1], x) {
      assert s == s[..|s| - 1] + [s[|s| - 1]];
      InsertByNameMultiset(s[..|s| - 1], x);
    }
  }

  /** Inserting into a name-sorted list keeps it sorted. */
  lemma {:induction false} InsertByNameSorted(s: seq<Item>, x: Item)
    requires SortedByName(s)
    ensures SortedByName(InsertByName(s, x))
  {
    if s == [] {
    } else if NameLe(s[|s| - 1], x) {
      AppendByName(s, x);
    } else {
      var init, last := s[..|s| - 1], s[|s| - 1];
      assert s == init + [last];
      InsertByNameSorted(init, x);
      InsertByNameMultiset(init, x);
      InsertBelowLast(init, last, x, InsertByName(init, x));
    }
  }

  /** One step of the sort's inner loop: x moves left past prefix[j - 1]. */
  lemma InsertStep(prefix: seq<Item>, j: int, x: Item)
    requires 0 < j <= |prefix| && !NameLe(prefix[j - 1], x)
    ensures InsertByName(prefix[..j], x) + prefix[j..] == InsertByName(prefix[..j - 1], x) + prefix[j - 1..]
  {
    var p := prefix[..j];
    assert p[..|p| - 1] == prefix[..j - 1] && p[|p| - 1] == prefix[j - 1];
    UnfoldInsert(p, prefix[j..], x);
    assert prefix[j - 1..] == [prefix[j - 1]] + prefix[j..];
  }

  /** InsertByName's recursive case, with a tail appended on both sides. */
  lemma UnfoldInsert(p: seq<Item>, tail: seq<Item>, x: Item)
    requires p != [] && !NameLe(p[|p| - 1], x)
    ensures InsertByName(p, x) + tail == InsertByName(p[..|p| - 1], x) + ([p[|p| - 1]] + tail)
  {
  }

  /** Where the sort's inner loop stops, x goes right after prefix[..j]. */
  lemma InsertStop(prefix: seq<Item>, j: int, x: Item)
    requires 0 <= j <= |prefix| && (j == 0 || NameLe(prefix[j - 1], x))
    ensures InsertByName(prefix[..j], x) == prefix[..j] + [x]
  {
    if j > 0 {
      assert prefix[..j][j - 1] == prefix[j - 1];
    }
  }

  /** The list the sort's inner loop works on: x at position j, between the
      first j and the remaining sorted items, with the unsorted rest after. */
  function Split(prefix: seq<Item>, j: int, x: Item, rest: seq<Item>): (s: seq<Item>)
    requires 0 <= j <= |prefix|
    ensures |s| == |prefix| + 1 + |rest| && s[j] == x
    ensures 0 < j ==> s[j - 1] == prefix[j - 1]
  {
    prefix[..j] + [x] + prefix[j..] + rest
  }

  /** The swap of the sort's inner loop moves x one place left. */
  lemma SwapDown(prefix: seq<Item>, j: int, x: Item, rest: seq<Item>)
    requires 0 < j <= |prefix|
    ensures var s := Split(prefix, j, x, rest);
      s[j - 1 := s[j]][j := s[j - 1]] == Split(prefix, j - 1, x, rest)
  {
    var a := Split(prefix, j, x, rest)[j - 1 := x][j := prefix[j - 1]];
    var b := Split(prefix, j - 1, x, rest);
    assert |a| == |b|;
    forall k | 0 <= k < |a|
      ensures a[k] == b[k]
    {
      if k < j - 1 {
      } else if k == j - 1 {
      } else if k == j {
      } else if k < |prefix| + 1 {
        assert a[k] == prefix[k - 1];
      } else {
        assert a[k] == rest[k - |prefix| - 1];
      }
    }
  }

  /** The inner loop starts with x where the outer loop found it. */
  lemma InsertStart(prefix: seq<Item>, x: Item, rest: seq<Item>)
    ensures Split(prefix, |prefix|, x, rest) == prefix + [x] + rest
    ensures InsertByName(prefix, x) == InsertByName(prefix[..|prefix|], x) + prefix[|prefix|..]
  {
    assert prefix[..|prefix|] == prefix;
  }

  /** When the inner loop stops, x has reached the place InsertByName gives it. */
  lemma InsertDone(prefix: seq<Item>, j: int, x: Item, rest: seq<Item>)
    requires 0 <= j <= |prefix| && (j == 0 || NameLe(prefix[j - 1], x))
    requires InsertByName(prefix, x) == InsertByName(prefix[..j], x) + prefix[j..]
    ensures Split(prefix, j, x, rest) == InsertByName(prefix, x) + rest
  {
    InsertStop(prefix, j, x);
  }

  /** The first n stored items, sorted by inserting them one by one in their
      stored order. */
  function SortPrefix(s: seq<Item>, n: nat): (r: seq<Item>)
    requires n <= |s|
    ensures |r| == n
  {
    if n == 0 then [] else InsertByName(SortPrefix(s, n - 1), s[n - 1])
  }

  /** The sorted first n items list exactly those items by name. */
  lemma {:induction false} SortPrefixLists(s: seq<Item>, n: nat)
    requires n <= |s|
    ensures ListsByName(s[..n], SortPrefix(s, n))
  {
    if n > 0 {
      assert s[..n] == s[..n - 1] + [s[n - 1]];
      SortPrefixLists(s, n - 1);
      InsertByNameSorted(SortPrefix(s, n - 1), s[n - 1]);
      InsertByNameMultiset(SortPrefix(s, n - 1), s[n - 1]);
    }
  }

  /** Where the outer loop of the listing's sort stands: the first i items
      sorted, then item i, then the rest as stored. */
  lemma SortPrefixSplit(items: seq<Item>, i: nat, sorted: seq<Item>)
    requires i < |items| && sorted == SortPrefix(items, i) + items[i..]
    ensures |SortPrefix(items, i)| == i < |sorted| && sorted[i] == items[i]
    ensures sorted == SortPrefix(items, i) + [sorted[i]] + items[i + 1..]
    ensures InsertByName(SortPrefix(items, i), sorted[i]) + items[i + 1..] == SortPrefix(items, i + 1) + items[i + 1..]
  {
    assert items[i..] == [items[i]] + items[i + 1..];
  }

  /** The listing of GET items: a function of the stored list alone, so two
      listings with no change in between are the same. */
  function SortByName(s: seq<Item>): (r: seq<Item>)
    ensures |r| == |s|
  {
    SortPrefix(s, |s|)
  }

  /** The listing is sorted by name and holds exactly the stored items. */
  lemma SortByNameLists(s: seq<Item>)
    ensures ListsByName(s, SortByName(s))
  {
    SortPrefixLists(s, |s|);
    assert s[..|s|] == s;
  }

  // ---------------------------------------------------------------- add

  /** Add refuses exactly the requests that lack a required field, naming the
      first one, and then changes nothing; otherwise it appends one record under
      the counter's id, bumps the counter by one and reports that id. */
  lemma AddBehaviour(st: State, data: Payload, now: string)
    ensures var o := AddOutcome(st, data, now);
      (o.response.Failure? <==> MissingField(data).Some?) &&
      (MissingField(data).Some? ==> o == Outcome(st, FieldRequired(MissingField(data).value))) &&
      (MissingField(data).None? ==>
        |o.state.items| == |st.items| + 1 && o.state.items[..|st.items|] == st.items &&
        o.state.items[|st.items|] == NewItem(st.nextId, data, now) &&
        o.state.nextId == st.nextId + 1 &&
        o.response.Added? && o.response.id == o.state.items[|st.items|].id)
  {
    var o := AddOutcome(st, data, now);
    if MissingField(data).None? {
      assert o.state.items[..|st.items|] == st.items;
    }
  }

  /** Add keeps the ids distinct, positive and below the counter. */
  lemma AddValid(st: State, data: Payload, now: string)
    requires Valid(st)
    ensures Valid(AddOutcome(st, data, now).state)
  {
    if MissingField(data).None? {
      var items := st.items + [NewItem(st.nextId, data, now)];
      assert AddOutcome(st, data, now).state == State(items, st.nextId + 1);
      forall i | 0 <= i < |items|
        ensures 1 <= items[i].id < st.nextId + 1
      {
        if i < |st.items| {
          assert items[i] == st.items[i];
        }
      }
      forall i, j | 0 <= i < j < |items|
        ensures items[i].id != items[j].id
      {
        assert items[i] == st.items[i];
        if j < |st.items| {
          assert items[j] == st.items[j];
        }
      }
    }
  }

  /** Fetching the id add reported, as an int or as query-string text, gives
      back the record it stored: the normalised input with created_at ==
      updated_at == now. */
  lemma AddThenGet(st: State, data: Payload, now: string)
    requires Valid(st) && MissingField(data).None?
    ensures var o := AddOutcome(st, data, now);
      var id := o.response.id;
      GetResponse(o.state, Int(id)) == Found(NewItem(st.nextId, data, now)) &&
      GetResponse(o.state, Str(IntToDec(id))) == Found(NewItem(st.nextId, data, now)) &&
      o.state.items[|st.items|].createdAt == o.state.items[|st.items|].updatedAt == now
  {
    var o := AddOutcome(st, data, now);
    var n := |st.items|;
    AddValid(st, data, now);
    assert o.state.items[n].id == st.nextId;
    FirstMatchOfUniqueId(o.state.items, n, Int(st.nextId));
    IdTextMatches(st.nextId, st.nextId);
    FirstMatchOfUniqueId(o.state.items, n, Str(IntToDec(st.nextId)));
  }

  // ------------------------------------------------------------- update

  /** Update's decisions, in order: an empty id gives 400; an id no item has
      gives 404 whatever the other fields hold; then a missing field gives 400.
      Every refusal leaves the state as it was. */
  lemma UpdateDecisions(st: State, data: Payload, now: string)
    ensures var o := UpdateOutcome(st, data, now);
      var id := Field(data, "id");
      (o.response.Failure? ==> o.state == st) &&
      (IsEmpty(id) ==> o.response == Failure(400, IdRequired)) &&
      (!IsEmpty(id) && FirstMatch(st.items, id) == -1 ==> o.response == Failure(404, NotFound)) &&
      (!IsEmpty(id) && FirstMatch(st.items, id) != -1 && MissingField(data).Some? ==>
        o.response == FieldRequired(MissingField(data).value)) &&
      (o.response.Done? <==> !IsEmpty(id) && FirstMatch(st.items, id) != -1 && MissingField(data).None?)
  {
  }

  /** A successful update rewrites exactly the first matching record, from the
      request, keeping its id and created_at; every other record, the length of
      the list and the counter stay as they were. */
  lemma UpdateTouchesOne(st: State, data: Payload, now: string)
    requires UpdateOutcome(st, data, now).response.Done?
    ensures var o := UpdateOutcome(st, data, now);
      var k := FirstMatch(st.items, Field(data, "id"));
      0 <= k < |st.items| && |o.state.items| == |st.items| && o.state.nextId == st.nextId &&
      (forall j :: 0 <= j < |st.items| && j != k ==> o.state.items[j] == st.items[j]) &&
      o.state.items[k].id == st.items[k].id &&
      o.state.items[k].createdAt == st.items[k].createdAt &&
      o.state.items[k] == NewItem(st.items[k].id, data, now).(createdAt := st.items[k].createdAt)
  {
  }

  /** Update keeps the ids distinct, positive and below the counter. */
  lemma UpdateValid(st: State, data: Payload, now: string)
    requires Valid(st)
    ensures Valid(UpdateOutcome(st, data, now).state)
  {
    var o := UpdateOutcome(st, data, now);
    if o.response.Done? {
      UpdateTouchesOne(st, data, now);
    }
  }

  /** After an update, fetching by the same id gives the rewritten record. */
  lemma UpdateThenGet(st: State, data: Payload, now: string)
    requires UpdateOutcome(st, data, now).response.Done?
    ensures var o := UpdateOutcome(st, data, now);
      var id := Field(data, "id");
      GetResponse(o.state, id) == Found(o.state.items[FirstMatch(st.items, id)])
  {
    var o := UpdateOutcome(st, data, now);
    UpdateTouchesOne(st, data, now);
    FirstMatchOnIds(st.items, o.state.items, Field(data, "id"));
  }

  // ------------------------------------------------------------- delete

  /** A falsy id gives 400 and an unknown one 404, both changing nothing;
      otherwise exactly the first matching record goes, the rest keep their
      order, and the counter is not wound back. */
  lemma DeleteRemovesOne(st: State, id: Raw)
    ensures var o := DeleteOutcome(st, id);
      var k := FirstMatch(st.items, id);
      (IsEmpty(id) ==> o == Outcome(st, Failure(400, IdRequired))) &&
      (!IsEmpty(id) && k == -1 ==> o == Outcome(st, Failure(404, NotFound))) &&
      (!IsEmpty(id) && k != -1 ==>
        o.response == Done("Item deleted successfully") &&
        o.state.nextId == st.nextId &&
        |o.state.items| == |st.items| - 1 &&
        o.state.items == st.items[..k] + st.items[k + 1..] &&
        multiset(o.state.items) + multiset{st.items[k]} == multiset(st.items))
  {
    var k := FirstMatch(st.items, id);
    if !IsEmpty(id) && k != -1 {
      assert st.items == st.items[..k] + [st.items[k]] + st.items[k + 1..];
    }
  }

  /** Delete keeps the ids distinct, positive and below the counter. */
  lemma DeleteValid(st: State, id: Raw)
    requires Valid(st)
    ensures Valid(DeleteOutcome(st, id).state)
  {
  }

  /** Once an item is deleted by an id naming a single item, fetching that id
      finds nothing. */
  lemma DeleteThenGet(st: State, id: Raw)
    requires Valid(st) && SingleId(id)
    requires DeleteOutcome(st, id).response.Done?
    ensures GetResponse(DeleteOutcome(st, id).state, id) == Failure(404, NotFound)
  {
    var k := FirstMatch(st.items, id);
    var rest := RemoveAt(st.items, k);
    assert DeleteOutcome(st, id).state == State(rest, st.nextId);
    forall j | 0 <= j < |rest|
      ensures !LooseEqInt(rest[j].id, id)
    {
      var old_j := if j < k then j else j + 1;
      assert rest[j] == st.items[old_j];
      if LooseEqInt(rest[j].id, id) {
        LooseEqIntFunctional(id, rest[j].id, st.items[k].id);
      }
    }
    assert FirstMatch(rest, id) == -1;
  }

  // ---------------------------------------------------------------- get

  /** Get gives 400 for a falsy id, otherwise the first item whose id matches,
      or 404 when none does. */
  lemma GetBehaviour(st: State, id: Raw)
    ensures var r := GetResponse(st, id);
      (IsEmpty(id) <==> r == Failure(400, IdRequired)) &&
      (r.Found? <==> !IsEmpty(id) && exists j :: 0 <= j < |st.items| && LooseEqInt(st.items[j].id, id)) &&
      (!IsEmpty(id) && (forall j :: 0 <= j < |st.items| ==> !LooseEqInt(st.items[j].id, id)) ==>
         r == Failure(404, NotFound)) &&
      (r.Found? ==> exists j :: 0 <= j < |st.items| && r.item == st.items[j] && LooseEqInt(st.items[j].id, id) &&
                      forall i :: 0 <= i < j ==> !LooseEqInt(st.items[i].id, id))
  {
    var r := GetResponse(st, id);
    if r.Found? {
      var k := FirstMatch(st.items, id);
      assert r.item == st.items[k];
    }
  }

  // ----------------------------------------------------------- scenario

  /** The add request of the scenario: Apples, Fruits, 10 at 2.99. */
  const ApplesAdd: Payload := map["name" := Str("Apples"), "category" := Str("Fruits"),
                                  "quantity" := Int(10), "price" := Float(Decimal(299, 2))]

  /** The update request of the scenario: the same fields for id 6, at 3.5. */
  const ApplesUpdate: Payload := ApplesAdd["id" := Int(6)]["price" := Float(Decimal(35, 1))]

  /** Adding the Apples record to a new session stores it under id 6 with
      price "2.99". */
  lemma ApplesAdded()
    ensures AddOutcome(Seed(), ApplesAdd, "t1") ==
      Outcome(State(SeedItems() + [NewItem(6, ApplesAdd, "t1")], 7), Added("Item added successfully", 6))
    ensures NewItem(6, ApplesAdd, "t1").price == "2.99"
    ensures Valid(AddOutcome(Seed(), ApplesAdd, "t1").state)
  {
    assert FirstMissingFrom(ApplesAdd, 0) == 4;
    SeedValid();
    AddValid(Seed(), ApplesAdd, "t1");
    assert NormalizePrice(Float(Decimal(299, 2))) == "2.99";
  }

  /** Updating id 6, the sixth of six records, with price 3.5 stores "3.50". */
  lemma ApplesUpdated(st: State)
    requires Valid(st) && |st.items| == 6 && st.items[5].id == 6
    ensures var o := UpdateOutcome(st, ApplesUpdate, "t2");
      o.response == Done("Item updated successfully") && Valid(o.state) &&
      |o.state.items| == 6 && o.state.items[5].id == 6 && o.state.items[5].price == "3.50"
  {
    assert FirstMissingFrom(ApplesUpdate, 0) == 4;
    FirstMatchOfUniqueId(st.items, 5, Int(6));
    UpdateValid(st, ApplesUpdate, "t2");
    UpdateTouchesOne(st, ApplesUpdate, "t2");
    ThreeFiftyPrice();
  }

  /** number_format(3.5, 2, '.', '') is "3.50". */
  lemma ThreeFiftyPrice()
    ensures NormalizePrice(ApplesUpdate["price"]) == "3.50"
  {
    assert RoundCents(Decimal(35, 1)) == 350;
  }

  /** Deleting "6" when record 6 is the sixth of six succeeds, and a later
      fetch of "6" gives 404. */
  lemma ApplesDeleted(st: State)
    requires Valid(st) && |st.items| == 6 && st.items[5].id == 6
    ensures DeleteOutcome(st, Str("6")).response == Done("Item deleted successfully")
    ensures GetResponse(DeleteOutcome(st, Str("6")).state, Str("6")) == Failure(404, NotFound)
  {
    IdTextMatches(6, 6);
    FirstMatchOfUniqueId(st.items, 5, Str("6"));
    DeleteThenGet(st, Str("6"));
  }

  /** Adding {name: "Apples", category: "Fruits", quantity: 10, price: 2.99} to
      a new session stores price "2.99" under id 6; updating id 6 with price
      3.5 stores "3.50"; deleting "6" then leaves nothing to fetch under "6". */
  lemma ApplesScenario()
    ensures var added := AddOutcome(Seed(), ApplesAdd, "t1");
      added.response == Added("Item added successfully", 6) &&
      |added.state.items| == 6 && added.state.items[5].price == "2.99" &&
      var updated := UpdateOutcome(added.state, ApplesUpdate, "t2");
      updated.response == Done("Item updated successfully") &&
      |updated.state.items| == 6 && updated.state.items[5].price == "3.50" &&
      var deleted := DeleteOutcome(updated.state, Str("6"));
      deleted.response == Done("Item deleted successfully") &&
      GetResponse(deleted.state, Str("6")) == Failure(404, NotFound)
  {
    ApplesAdded();
    var added := AddOutcome(Seed(), ApplesAdd, "t1");
    assert added.state.items[5] == NewItem(6, ApplesAdd, "t1");
    ApplesUpdated(added.state);
    ApplesDeleted(UpdateOutcome(added.state, ApplesUpdate, "t2").state);
  }

  /** The listing puts "Apples" before "Bananas". */
  lemma ApplesBeforeBananas(listing: seq<Item>, i: nat, j: nat)
    requires SortedByName(listing) && i < |listing| && j < |listing|
    requires listing[i].name == Str("Apples") && listing[j].name == Str("Bananas")
    ensures i < j
  {
    assert StrCmp("Bananas", "Apples") == 1;
  }
}
