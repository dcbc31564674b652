# Product catalog store — a Dafny model

This project models the product catalog service of `main.py`. The service keeps
one in-memory table of product records (`productos`), seeded with twenty
records. Six HTTP handlers work on that table:

- list, with optional name and category filters;
- look up one record by id;
- create a record, with a server-assigned id;
- replace a record in full (PUT);
- update some fields of a record (PATCH);
- delete a record.

The model has five modules:

- `Products` (products.dfy): the record shapes `Producto` and `ProductoParcial`, and what a full or partial update does to one record.
- `Filtering` (filtering.dfy): the listing handler. It is pure: list comprehensions over the table.
- `Table` (table.dfy): the table as a value. It defines the first-match scan, the id a create assigns, and the table each write leaves behind. The lemmas state what each handler promises about that table.
- `Seed` (seed.dfy): the twenty seeded records.
- `ProductStore` (store.dfy): class `Store`. Its field `products: seq<Product>` is the shared list, with one method per handler that looks up or changes the table and the read-only function `List` for the listing handler. Each method that changes the table is proved to leave exactly the table that `Table` describes. Each one also keeps the invariant `Valid()`, which says ids are unique.

Not-found is a value (`Lookup.NotFound`, or `false` from `Delete`), not an
exception, because the service answers it with an error body.

Three behaviours of the code are easy to misread; the model follows the code:

- The listing skips a filter when it is absent **or empty** (`if nombre:` / `if categoria:`, main.py:52-55). So `categoria=""` returns the whole table. It does not return only the records whose category is empty. `Filtering.Active` captures this and `Filtering.EmptyFilterSkipped` states it.
- Delete calls `productos.remove(producto)`, which removes the first element *equal* to the matched record. Any equal record has the same id, so that element is the first record with the id. Delete is modelled as removal at that position.
- Looking up an id after deleting it gives not-found only while ids are unique. `Table.FindAfterRemove` requires `UniqueIds`, and every handler keeps that invariant.

## Model

| member | source | states |
|---|---|---|
| `Products.ApplyPatch` | main.py:89-99 | each field of the patched record is the supplied value when the patch has one and the old value when it is `None`; the id is kept |
| `Products.ApplyPatchIdempotent` | main.py:90-99 | patching a record twice with the same patch equals patching it once |
| `Products.ApplyEmptyPatch` | main.py:92-99 | a patch with every field `None` leaves the record unchanged |
| `Products.ApplyFullPatch` | main.py:77-99 | a patch supplying all four fields has the same effect as a full replace that keeps the id |
| `Filtering.Lower` | main.py:53 | the lower-cased name has the same length and is lower-cased character by character |
| `Filtering.Filter` | main.py:53-55 | a list comprehension keeps the accepted records in order (a subsequence), each as often as in the input, and nothing else |
| `Filtering.ListProducts` | main.py:47-56 | the listing: every listed record is a record of the table that passes both active filters; its full characterisation is `Filtering.ListProductsSpec` |
| `Filtering.ListProductsSpec` | main.py:47-56 | the listing is an order-preserving subsequence of the table; a record is in it exactly when it is in the table, its name contains the name filter ignoring case and its category equals the category filter; multiplicities are kept; with no active filter the listing is the whole table |
| `Filtering.EmptyFilterSkipped` | main.py:52-55 | an empty-string filter gives the same listing as an absent one |
| `Table.IndexOf` | main.py:61-63 | the scan returns the position of the first record with the id, or nothing exactly when no record has it |
| `Table.Find` | main.py:60-64 | a lookup returns the first record of the table that has the id (no earlier record has it), and returns not-found exactly when no record has the id |
| `Table.IndexOfSameIds` | main.py:78-79 | the first match depends only on the ids, so updates that keep ids keep the position of every match |
| `Table.MaxId` | main.py:69 | the largest id is at least every id of the table and is the id of one of its records |
| `Table.NextId` | main.py:69 | the assigned id is larger than every existing id, and is 1 for an empty table |
| `Table.Appended` | main.py:69-72 | the table after create: one record longer, earlier records unchanged, and the new record's id differs from every existing id; further properties in `Table.AppendedSpec` |
| `Table.AppendedSpec` | main.py:68-73 | create grows the table by exactly one record at the end, earlier records unchanged, with the input's fields and a fresh id |
| `Table.AppendedKeepsUnique` | main.py:69-72 | create preserves id uniqueness |
| `Table.CreateThenDelete` | main.py:69-72 | deleting the record just created restores the table, so the next create reuses the same id |
| `Table.DeletedMaxIdReusable` | main.py:69 | after deleting the record with the largest id, the next create gets an id no larger than the deleted one |
| `Table.FindAfterUpdate` | main.py:78-84 | after an update that keeps ids, the lookup finds the updated record at the same position, and not-found stays not-found |
| `Table.Replaced` | main.py:77-85 | the table after PUT: the same ids at every position, and unchanged when the id is absent; which record changes is `Table.ReplacedSpec` |
| `Table.ReplacedSpec` | main.py:77-85 | PUT on a present id sets the four data fields of the first matching record to the input and keeps its id; other records and the length are unchanged; an absent id leaves the table unchanged |
| `Table.ReplacedKeepsUnique` | main.py:78-83 | PUT preserves id uniqueness |
| `Table.Patched` | main.py:89-101 | the table after PATCH: the same ids at every position, and unchanged when the id is absent; which fields change is `Table.PatchedSpec` |
| `Table.PatchedSpec` | main.py:89-101 | PATCH on a present id applies the patch to the first matching record only; other records and the length are unchanged; an absent id leaves the table unchanged |
| `Table.PatchedKeepsUnique` | main.py:90-99 | PATCH preserves id uniqueness |
| `Table.PatchedIdempotent` | main.py:89-101 | applying the same PATCH twice leaves the same table as applying it once |
| `Table.PatchedEmpty` | main.py:92-99 | a PATCH with every field `None` leaves the table unchanged |
| `Table.PatchedFullIsReplaced` | main.py:77-101 | a PATCH supplying every field leaves the same table as a PUT with those fields |
| `Table.DropOneIsSubsequence` | main.py:108 | removing one element keeps the others in order |
| `Table.Removed` | main.py:105-110 | the table after DELETE: an order-preserving subsequence of the table, one record shorter exactly when the id is present; which record goes is `Table.RemovedSpec` |
| `Table.RemovedSpec` | main.py:105-110 | DELETE on a present id removes exactly the first matching record, keeps the order of the rest and shortens the table by one; an absent id leaves it unchanged |
| `Table.RemovedKeepsUnique` | main.py:106-108 | DELETE preserves id uniqueness |
| `Table.FindAfterRemove` | main.py:105-110 | with unique ids, a lookup of a deleted id returns not-found |
| `Seed.SeedTable` | main.py:22-43 | the twenty seeded records, which carry the ids 1 to 20 in order |
| `Seed.SeedWellFormed` | main.py:22-43 | the seeded ids are unique and the first create assigns id 21 |
| `ProductStore.Store.constructor` | main.py:22-43 | the table starts as the seeded records, with unique ids |
| `ProductStore.Store.List` | main.py:47-56 | the listing handler on the store's table: an order-preserving subsequence holding exactly the records that pass both active filters, the whole table with no active filter; it only reads the table |
| `ProductStore.Store.Locate` | main.py:61-63 | the loop over the table returns the position of the first record with the id, or nothing |
| `ProductStore.Store.Get` | main.py:60-64 | returns the first record with the id, or not-found exactly when no record has it; the table is not changed |
| `ProductStore.Store.NewId` | main.py:69 | the loop computes the largest id plus one, or 1 for an empty table, which exceeds every existing id |
| `ProductStore.Store.Create` | main.py:68-73 | appends the input under the next id and returns that record; keeps ids unique |
| `ProductStore.Store.Replace` | main.py:77-85 | leaves exactly the PUT post-table; returns the updated record, or not-found exactly when the id was absent; keeps ids unique |
| `ProductStore.Store.Patch` | main.py:89-101 | leaves exactly the PATCH post-table; returns the updated record, or not-found exactly when the id was absent; keeps ids unique |
| `ProductStore.Store.Delete` | main.py:105-110 | leaves exactly the DELETE post-table; reports success exactly when the id was present; keeps ids unique |

## Left out

- HTTP routing, query-parameter parsing, the JSON wrapping of answers (`{"productos": ...}`, `"mensaje"` strings) and status codes: framework glue. Answers are modelled as `Lookup`, `bool` and `Product` values.
- Request-body validation (the `Producto` and `ProductoParcial` shapes, main.py:8-19) is done by a validation library that is not part of this model. Inputs are assumed to be well-typed records.
- Floating-point prices: `precio` is a `real`. It is only ever copied, never computed with.
- `Filtering.Lower`: maps only the ASCII letters A-Z. Python's `str.lower()` also lower-cases non-ASCII letters (such as `Ó` in names like "Ratón"), so for names or queries with upper-case non-ASCII letters the model's name filter can differ from the service's.
- Aliasing: PUT and PATCH return the same dictionary object that sits in the table. The model returns a copy of the updated record as a value.
- Concurrent requests: the service has no locking. Each handler is modelled as one atomic step on the table.
- Python integers are unbounded, as Dafny's are, so ids are not modelled with any width.
