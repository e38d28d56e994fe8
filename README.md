# Grocerific demo API: a verified model of the session item store

Grocerific is a small CRUD service for a grocery inventory. Its demo back end,
`demo-api.php`, keeps the items in the PHP session: a list of records
(id, name, category, quantity, price, description, created_at, updated_at) and
a counter `next_id`. A new session starts with five records (ids 1 to 5) and
`next_id = 6`. The router sends each request to one handler. The handlers are:

- `GET ?action=items`: list every item, sorted by `strcmp` on the name;
- `GET ?action=item&id=…`: fetch one item;
- `POST ?action=add`: add an item;
- `PUT ?action=update`: rewrite an item;
- `DELETE ?action=delete&id=…`: remove an item.

Each handler ends by sending a JSON reply and a status.

This project models that store in Dafny and proves what its handlers
guarantee. The files are:

- `php_strings.dfy` (module `PhpStrings`): decimal text of integers, digit scanning, and
  `strcmp` as a byte-wise three-way comparison.
- `php_values.dfy` (module `PhpValues`): the PHP value semantics the handlers rely on.
  These are `empty()`, the `(int)` and `(float)` casts, `number_format(…, 2, '.', '')`,
  conversion to string, and loose `==` between an int id and a request value (PHP 8 rules).
  A request value is a `Raw`: absent, null, a bool, an int, a float (kept as an exact
  decimal) or a string.
- `items.dfy` (module `Items`): the item record and the required-field check. The check
  rejects the first field of `name, category, quantity, price` that is `empty()`.
  It also holds the normalisation done on add and update, and the seed records.
- `store.dfy` (module `Store`): each handler's effect as a function on the session
  state (`State(items, nextId)`), and the response it sends. It also holds the lemmas:
  - ids stay unique, positive and below the counter;
  - a refused request changes nothing;
  - update rewrites exactly one record and keeps its id and `created_at`;
  - delete removes exactly one record and keeps the others in order;
  - add-then-get and delete-then-get round trips.
- `session.dfy` (module `Session`): class `ItemStore`, the session with its two fields
  changed in place. It holds the index-scanning loop, the insertion sort of a copy for
  the listing, and the handlers. Each handler is proved to match the functions of `Store`.
- `api.dfy` (module `Api`): the preflight short-circuit, the method switch and the
  per-method action switch (`Route`). `Handle` dispatches to the store.

Model choices:

- Timestamps come in as a `now` parameter.
- Prices are handled as integer cents, rounded half away from zero.
- Responses are returned values: `Listing`, `Found`, `Added`, `Done`, `NoContent` or
  `Failure(status, error)`. The source instead calls `exit` after sending the reply.
- A request body is the decoded JSON object as a map. A body that does not decode
  (`null`) is the empty map.

On these points the model follows the code, which may surprise a reader:

- Update looks the id up, and answers 404, before it checks the required fields.
- Timestamps are wall-clock text. Nothing makes `updated_at` increase, so no such
  ordering is claimed.
- The code accepts negative quantities and prices.
- A non-numeric quantity such as `"abc"` passes validation and is stored as 0.

## Model

| member | source | states |
|---|---|---|
| `Items.MissingField` | demo-api.php:213-218 | None exactly when all four required fields are non-empty; otherwise the first empty one in the order name, category, quantity, price, with every earlier one non-empty |
| `Items.CheckRequired` | demo-api.php:263-268 | the early-exit loop over the required fields returns exactly the first missing field, or none |
| `Items.ZeroIsMissing` | demo-api.php:215 | a quantity or price of 0, 0.00, "0" or "" is reported as the missing field when the fields before it are present |
| `Items.DescriptionOf` | demo-api.php:226 | a missing or null description gives Str(""); any other value is returned as sent |
| `Items.NewItem` | demo-api.php:220-229 | the added record carries the given id, a two-decimal price text, created_at == updated_at == now, and the description "" when none or null was sent |
| `Items.Revised` | demo-api.php:271-276 | the updated record keeps id and created_at, gets updated_at = now and a two-decimal price, and is normalised exactly as add normalises |
| `Items.SeedItems` | demo-api.php:22-73 | the session starts with five records whose ids are 1 to 5 in order |
| `PhpValues.IsEmpty` | demo-api.php:215 | `empty()`, also `!$id` at lines 188 and 285 and `empty($data['id'])` at 244; it has no contract of its own: `Items.MissingField`, `Items.ZeroIsMissing` and `Store.GetBehaviour` state what it decides |
| `PhpValues.LooseEqInt` | demo-api.php:195 | PHP 8 `==` between a stored int id and a request value, also at lines 252 and 293; characterised by `PhpValues.IdTextMatches` and `PhpValues.LooseEqIntFunctional` |
| `PhpValues.ToInt` | demo-api.php:224 | the `(int)` cast of quantity, also at line 273: bools to 0 or 1, null and absent to 0, floats and numeric prefixes of strings cut toward zero; no contract of its own, `PhpValues.IntTextToInt` proves it undoes the decimal text of an int |
| `PhpValues.NormalizePrice` | demo-api.php:225 | `number_format((float)$price, 2, '.', '')`, also at line 274; characterised by `PhpValues.FormatCents`, `PhpValues.FormattedCentsScan` and `PhpValues.NormalizePriceIdempotent` |
| `PhpValues.FormatCents` | demo-api.php:225 | number_format with two decimals yields [-]digits.dd, with a minus sign exactly for negative amounts |
| `PhpValues.FormattedCentsScan` | demo-api.php:225 | a formatted price is a numeric string whose value is exactly the cents it was made from |
| `PhpValues.NormalizePriceIdempotent` | demo-api.php:274 | normalising an already normalised price text gives the same text |
| `PhpValues.IntTextScan` | demo-api.php:293 | the decimal text of an int is a numeric string whose value is that int |
| `PhpValues.IntTextToInt` | demo-api.php:224 | `(int)` of the decimal text of an int gives back the int |
| `PhpValues.IdTextMatches` | demo-api.php:195 | a query-string id equal to the decimal text of n loosely equals exactly the int n |
| `PhpValues.LooseEqIntFunctional` | demo-api.php:252 | a request id that is not null or a bool loosely equals at most one int |
| `PhpStrings.StrCmp` | demo-api.php:179 | strcmp gives -1, 0 or 1, and 0 exactly for equal strings |
| `PhpStrings.StrCmpAntisymmetric` | demo-api.php:178-180 | swapping the operands of the comparator negates its result |
| `PhpStrings.StrCmpTransitive` | demo-api.php:178-180 | the comparator's order is transitive |
| `Store.SeedValid` | demo-api.php:22-74 | the seed state has unique positive ids, all below next_id = 6 |
| `Store.FirstMatch` | demo-api.php:251-256 | -1 when no item's id matches, otherwise the index of a matching item with no match before it |
| `Store.FirstMatchOnIds` | demo-api.php:292-297 | the search result depends only on the ids in the list |
| `Store.FirstMatchOfUniqueId` | demo-api.php:194-199 | with unique ids, an int, float or string id finds the one item with that id |
| `Store.RemoveAt` | demo-api.php:303 | array_splice removes one element; those before keep their index and those after shift down by one |
| `Store.AddOutcome` | demo-api.php:211-237 | the add handler on the session state; characterised by `Store.AddBehaviour` and `Store.AddValid` |
| `Store.UpdateOutcome` | demo-api.php:243-279 | the update handler on the session state; characterised by `Store.UpdateDecisions`, `Store.UpdateTouchesOne` and `Store.UpdateValid` |
| `Store.DeleteOutcome` | demo-api.php:284-306 | the delete handler on the session state; characterised by `Store.DeleteRemovesOne` and `Store.DeleteValid` |
| `Store.GetResponse` | demo-api.php:187-206 | the get handler's reply; characterised by `Store.GetBehaviour` |
| `Store.AddBehaviour` | demo-api.php:211-237 | add fails exactly when a field is missing, naming the first, and changes nothing; otherwise it appends NewItem(next_id) after unchanged records, bumps next_id by one and returns the stored id |
| `Store.AddValid` | demo-api.php:221 | add keeps ids unique, positive and below the counter |
| `Store.AddThenGet` | demo-api.php:231-236 | fetching the returned id, as an int or as its query-string text, gives the stored record, which has created_at == updated_at == now |
| `Store.UpdateDecisions` | demo-api.php:243-268 | empty id gives 400, then an unmatched id gives 404 whatever the fields hold, then a missing field gives 400; success exactly otherwise; every refusal leaves the state unchanged |
| `Store.UpdateTouchesOne` | demo-api.php:270-276 | success rewrites only the first matching record, keeping its id and created_at; length, counter and all other records are unchanged |
| `Store.UpdateValid` | demo-api.php:249-276 | update keeps ids unique, positive and below the counter |
| `Store.UpdateThenGet` | demo-api.php:187-206 | after an update, fetching the same id gives the rewritten record |
| `Store.DeleteRemovesOne` | demo-api.php:284-305 | a falsy id gives 400 and an unknown id 404, neither changing anything; otherwise exactly the first match is removed, the rest keep their order, the length drops by one, the multiset loses that one record and next_id is kept |
| `Store.DeleteValid` | demo-api.php:303 | delete keeps ids unique, positive and below the counter |
| `Store.DeleteThenGet` | demo-api.php:290-303 | after deleting by an id that names a single item, fetching that id gives 404 |
| `Store.GetBehaviour` | demo-api.php:187-206 | get gives 400 exactly for a falsy id, finds a record exactly when some id matches, and then returns the first matching record; a non-empty id that matches no record gives 404 "Item not found" |
| `Store.ApplesAdded` | demo-api.php:211-237 | adding Apples at 2.99 to a new session appends NewItem under id 6, bumps next_id to 7, reports id 6, stores price "2.99" and keeps the id invariant |
| `Store.ApplesUpdated` | demo-api.php:243-279 | updating id 6, the sixth of six records, with price 3.5 succeeds, keeps the invariant and stores price "3.50" there |
| `Store.ApplesDeleted` | demo-api.php:284-306 | deleting "6" when record 6 is the sixth succeeds, and a later fetch of "6" gives 404 |
| `Store.ApplesScenario` | demo-api.php:220-305 | add Apples at 2.99 to a new session gets id 6 and price "2.99"; updating it with 3.5 stores "3.50"; deleting "6" leaves a 404 for "6" |
| `Store.InsertByName` | demo-api.php:178-180 | one step of the stable sort: the item goes after the last name not above its own; characterised by `Store.InsertByNameMultiset` and `Store.InsertByNameSorted` |
| `Store.SortByName` | demo-api.php:178-180 | usort by strcmp on name, as a stable insertion sort of the stored order; characterised by `Store.SortByNameLists` |
| `Store.InsertByNameMultiset` | demo-api.php:178-180 | inserting an item into the listing adds that item and loses none |
| `Store.InsertByNameSorted` | demo-api.php:178-180 | inserting an item after the last name not above its own keeps a strcmp-sorted listing sorted |
| `Store.SortPrefixLists` | demo-api.php:175-181 | sorting the first n stored items gives a name-sorted permutation of them |
| `Store.SortByNameLists` | demo-api.php:175-181 | the listing, a function of the stored list alone, is sorted by strcmp on name and is a permutation of the stored items |
| `Store.ApplesBeforeBananas` | demo-api.php:175-181 | in a name-sorted listing "Apples" comes before "Bananas" |
| `Session.ItemStore.constructor` | demo-api.php:21-75 | a new session holds the seed records and next_id = 6, and satisfies the id invariant |
| `Session.ItemStore.IndexOf` | demo-api.php:250-256 | the scanning loop returns exactly the first matching index, or -1 |
| `Session.ItemStore.GetAllItems` | demo-api.php:175-182 | the listing is exactly SortByName of the stored items, so two listings with no change in between are equal; it is sorted by strcmp on name and a permutation of the stored items; the store is not modified |
| `Session.SortCopy` | demo-api.php:178-180 | the insertion sort of the copy computes exactly SortByName of the items |
| `Session.SinkLast` | demo-api.php:178-180 | moving the next item left past greater names inserts it into the sorted items before it, exactly as InsertByName does |
| `Session.ItemStore.GetItem` | demo-api.php:187-206 | returns exactly the get response of the current state, without changing it |
| `Session.ItemStore.AddItem` | demo-api.php:211-238 | new state and response are those of the add function; the id invariant is kept |
| `Session.ItemStore.UpdateItem` | demo-api.php:243-279 | the six in-place field assignments leave exactly the state of the update function; the id invariant is kept |
| `Session.ItemStore.DeleteItem` | demo-api.php:284-306 | new state and response are those of the delete function; the id invariant is kept |
| `Api.Route` | demo-api.php:82-170 | OPTIONS is preflight; any method outside GET, POST, PUT, DELETE is 405; each of GET items, GET item, POST add, PUT update, DELETE delete reaches exactly its handler; every other action under a known method is an invalid action |
| `Api.Handle` | demo-api.php:13-101 | preflight replies with no body; 405 "Method not allowed"; 400 "Invalid action"; otherwise exactly the chosen handler's result, for GET items the listing SortByName of the stored items; every failed request leaves the store unchanged; the status is 200 exactly for a non-error reply and otherwise 400, 404 or 405 |

## Left out

- `api.php` (the MySQL back end), `config.php` (connection set-up and the reply writer) and
  `script.js` (the browser UI) are not part of this model. In particular, the database
  variant does not normalise price or quantity; that difference is not modelled.
- CORS headers, `session_start`, reading the request body and `json_decode` are left out:
  they are I/O and plumbing. The body is given already decoded, as a map from field
  name to value.
- No model for a body that decodes to a JSON scalar or list instead of an object, or for
  JSON arrays and objects as field values. PHP's behaviour on those (warnings, uncaught
  `TypeError`s) is outside the modelled values.
- The response is a value. The JSON envelope (`success`, `data`, `message`, `id`,
  `error`) and the `Content-Type` header are not rendered.
- The `catch` that turns an exception into 500 "Internal server error" is left out:
  nothing in the modelled code throws.
- `date('Y-m-d H:i:s')` is the `now` parameter. Add calls `date()` twice, and the two
  calls could fall in different seconds; the model uses one `now` for both.
- Floats are exact decimals. Binary rounding, infinities, NaN, and number_format's
  behaviour beyond double precision are not modelled.
- `PhpValues.ScanNumber` does not accept leading or trailing whitespace, or exponent
  notation (`"1e3"`), in numeric strings. PHP accepts them. So `(int)`, `(float)` and
  loose `==` differ from PHP on such strings.
- `PhpValues.FloatToStr` writes every float in plain notation with all its digits. PHP
  rounds to `precision` (14 significant digits) and switches to exponent notation for
  very large and very small magnitudes. It matters only for how names sent as JSON
  floats sort.
- PHP's 64-bit int range is not modelled. Ids, quantities and counters are unbounded,
  and `(int)` does not saturate.
- `Session.ItemStore.GetAllItems`: usort is modelled as a stable insertion sort
  (`Store.SortByName`), so the listing is fixed by the stored list and two listings with
  no change in between are equal. No lemma states stability itself, that items with
  equal names keep their stored order, although SortByName places each item after the
  earlier ones with an equal name. PHP 8's `usort` is stable, but its own algorithm
  (a hybrid insertion sort and quicksort) is not modelled.
- Concurrent writers to the same session are not modelled; the source has no
  concurrency control.
