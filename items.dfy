/** Item records, the request payload, the required-field check and the
    normalisation the session store applies on add and update. */
module Items {
  import opened PhpValues

  datatype Option<T> = None | Some(value: T)

  /** The decoded JSON body of a request, field name to value. */
  type Payload = map<string, Raw>

  /** $data[$f]: the value, or Absent when the key is missing. */
  function Field(data: Payload, f: string): Raw {
    if f in data then data[f] else Absent
  }

  /** One stored grocery record.  name, category and description keep the
      value the client sent; quantity and price are normalised. */
  datatype Item = Item(
    id: int,
    name: Raw,
    category: Raw,
    quantity: int,
    price: string,
    description: Raw,
    createdAt: string,
    updatedAt: string)

  /** The fields add and update insist on, in the order they are checked. */
  const RequiredFields: seq<string> := ["name", "category", "quantity", "price"]

  /** The position of the first required field that is empty(), or
      |RequiredFields| when every one is present. */
  function FirstMissingFrom(data: Payload, k: nat): (r: nat)
    requires k <= |RequiredFields|
    ensures k <= r <= |RequiredFields|
    ensures forall j :: k <= j < r ==> !IsEmpty(Field(data, RequiredFields[j]))
    ensures r < |RequiredFields| ==> IsEmpty(Field(data, RequiredFields[r]))
    decreases |RequiredFields| - k
  {
    if k == |RequiredFields| then k
    else if IsEmpty(Field(data, RequiredFields[k])) then k
    else FirstMissingFrom(data, k + 1)
  }

  /** The required field a request is rejected for: the first one, in the
      order name, category, quantity, price, that is empty(). */
  function MissingField(data: Payload): (r: Option<string>)
    ensures r.None? <==> forall j :: 0 <= j < |RequiredFields| ==> !IsEmpty(Field(data, RequiredFields[j]))
    ensures r.Some? ==>
      exists k :: (0 <= k < |RequiredFields| && r.value == RequiredFields[k] &&
                   IsEmpty(Field(data, RequiredFields[k])) &&
                   forall j :: 0 <= j < k ==> !IsEmpty(Field(data, RequiredFields[j])))
  {
    var k := FirstMissingFrom(data, 0);
    if k < |RequiredFields| then Some(RequiredFields[k]) else None
  }

  /** The loop over the required fields that stops at the first empty one. */
  method CheckRequired(data: Payload) returns (missing: Option<string>)
    ensures missing == MissingField(data)
  {
    for k := 0 to |RequiredFields|
      invariant forall j :: 0 <= j < k ==> !IsEmpty(Field(data, RequiredFields[j]))
    {
      var f := RequiredFields[k];
      if IsEmpty(Field(data, f)) {
        assert FirstMissingFrom(data, 0) == k;
        return Some(f);
      }
    }
    assert FirstMissingFrom(data, 0) == |RequiredFields|;
    return None;
  }

  /** A value of zero counts as missing even when the other fields are set,
      so a quantity or a price of 0 is refused. */
  lemma ZeroIsMissing(data: Payload, f: string)
    requires f == "quantity" || f == "price"
    requires !IsEmpty(Field(data, "name")) && !IsEmpty(Field(data, "category"))
    requires f == "price" ==> !IsEmpty(Field(data, "quantity"))
    requires Field(data, f) in {Int(0), Float(Decimal(0, 2)), Str("0"), Str("")}
    ensures MissingField(data) == Some(f)
  {
    assert RequiredFields[2] == "quantity" && RequiredFields[3] == "price";
    assert FirstMissingFrom(data, 0) == if f == "quantity" then 2 else 3;
  }

  /** $data['description'] ?? '': a missing or null description becomes "". */
  function DescriptionOf(data: Payload): (d: Raw)
    ensures !d.Null? && !d.Absent?
    ensures Field(data, "description").Null? || Field(data, "description").Absent? ==> d == Str("")
    ensures !Field(data, "description").Null? && !Field(data, "description").Absent? ==>
      d == Field(data, "description")
  {
    match Field(data, "description")
    case Absent => Str("")
    case Null => Str("")
    case v => v
  }

  /** The record add stores: the given id, the fields as sent, quantity cast
      to int, price as two-decimal text, and both timestamps set to now. */
  function NewItem(id: int, data: Payload, now: string): (it: Item)
    ensures it.id == id && it.createdAt == now && it.updatedAt == now
    ensures IsTwoDecimalText(it.price)
    ensures Field(data, "description").Null? || Field(data, "description").Absent? ==> it.description == Str("")
  {
    Item(id, Field(data, "name"), Field(data, "category"), ToInt(Field(data, "quantity")),
         NormalizePrice(Field(data, "price")), DescriptionOf(data), now, now)
  }

  /** The record update leaves behind: every mutable field rewritten from the
      request and updated_at refreshed; id and created_at kept. */
  function Revised(it: Item, data: Payload, now: string): (r: Item)
    ensures r.id == it.id && r.createdAt == it.createdAt && r.updatedAt == now
    ensures IsTwoDecimalText(r.price)
    ensures r == NewItem(it.id, data, now).(createdAt := it.createdAt)
  {
    it.(name := Field(data, "name"), category := Field(data, "category"),
        quantity := ToInt(Field(data, "quantity")), price := NormalizePrice(Field(data, "price")),
        description := DescriptionOf(data), updatedAt := now)
  }

  /** The five records a new session starts with. */
  function SeedItems(): (s: seq<Item>)
    ensures |s| == 5 && forall k :: 0 <= k < 5 ==> s[k].id == k + 1
  {
    [ Item(1, Str("Apples"), Str("Fruits"), 10, "2.99", Str("Fresh red apples"),
           "2024-01-01 10:00:00", "2024-01-01 10:00:00"),
      Item(2, Str("Milk"), Str("Dairy"), 5, "3.49", Str("Whole milk - 1 gallon"),
           "2024-01-01 10:05:00", "2024-01-01 10:05:00"),
      Item(3, Str("Bread"), Str("Bakery"), 8, "2.49", Str("Whole wheat bread"),
           "2024-01-01 10:10:00", "2024-01-01 10:10:00"),
      Item(4, Str("Bananas"), Str("Fruits"), 15, "1.99", Str("Yellow bananas"),
           "2024-01-01 10:15:00", "2024-01-01 10:15:00"),
      Item(5, Str("Chicken Breast"), Str("Meat"), 3, "8.99", Str("Boneless chicken breast"),
           "2024-01-01 10:20:00", "2024-01-01 10:20:00") ]
  }
}
