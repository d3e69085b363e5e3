# Product store model

A Dafny model of the product collection of a small client-side inventory manager
(`src/stores/productStore.ts`). The store holds an ordered list of product records
(`id`, `name`, `category`, `price`, `quantity`) and offers four operations on it:
`addProduct` gives the new record the next id (1 on an empty list, otherwise the
largest id plus 1) and appends it; `updateProduct` overwrites, in place, the first
record with the same id and does nothing when there is none; `deleteProduct` keeps
every record whose id differs; `getById` returns the first record with the id, if any.
Every change of the list is written back to the browser's storage slot.

Everything is in one module, `ProductStore` (`product_store.dfy`):

- the pure parts of the source are functions over `seq<Product>`: `Ids` and `MaxOf`
  (the `map` and `Math.max` of the id computation), `NextId`, `FindIndex`
  (`findIndex`), `Find` (`find`) and `Without` (`filter`);
- `Added` and `Updated` give the list after `addProduct` and `updateProduct`;
- the class `Store` has the live list `products` as a field. `AddProduct` and
  `UpdateProduct` change it in place, `DeleteProduct` and `LoadProducts` reassign it,
  and `GetById` reads it. A ghost field `persisted` stands for the collection the
  storage slot decodes to: each method sets it where the source's deep `watch` would write;
- `ValidIds` (no two records share an id) is the collection invariant. The source never
  checks it: a list loaded from storage may hold duplicates. So the methods do not
  require it, and each promises to keep it when it held before;
- `SessionScenario` and `ReuseScenario` are client methods. They step through whole
  sessions; every assertion in them follows from the store's contracts alone.

**Id reuse.** One might expect a deleted id never to be handed out again. The
code does not promise that. It computes the next id as largest present + 1, so deleting
the record with the largest id lowers the next id to at most the deleted id. With ids
2 and 3, deleting 3 and then adding yields 3 again. The model follows the code.
`NextIdAfterDelete` states the general case and `ReuseScenario` shows the example.

## Model

| member | source | states |
|---|---|---|
| ProductStore.MaxOf | src/stores/productStore.ts:48 | the result of `Math.max` over a non-empty id list is one of the ids and at least every id |
| ProductStore.NextId | src/stores/productStore.ts:46-49 | the next id is 1 on an empty list; otherwise it is strictly above every present id and exactly one more than some present id (the largest) |
| ProductStore.Added | src/stores/productStore.ts:45-51 | adding appends: length grows by one, the old records are kept in order as a prefix, the last record is the draft under `NextId` of the old list (largest old id + 1, or 1), an id greater than every old id, so it collides with none |
| ProductStore.AddedKeepsValidIds | src/stores/productStore.ts:45-51 | adding keeps ids unique |
| ProductStore.AddedKeepsPositiveIds | src/stores/productStore.ts:46-50 | adding keeps every id at least 1 |
| ProductStore.AddAllFromEmpty | src/stores/productStore.ts:45-51 | from the empty list, successive additions give the k-th draft the id k (1, 2, 3, ... strictly increasing by one) |
| ProductStore.FindAfterAdd | src/stores/productStore.ts:45-66 | right after an addition, looking up the id it assigned returns the new record |
| ProductStore.FindIndex | src/stores/productStore.ts:54 | `findIndex` returns -1 exactly when no record has the id, otherwise the first position holding it |
| ProductStore.Updated | src/stores/productStore.ts:53-58 | an update keeps the length and every position's id; with an absent id the list is unchanged; otherwise exactly the first matching position is replaced by the given record and every other position is unchanged |
| ProductStore.UpdatedKeepsValidIds | src/stores/productStore.ts:53-58 | an update keeps ids unique |
| ProductStore.FindAfterUpdate | src/stores/productStore.ts:53-66 | after updating a present id, looking it up returns the record passed to the update, even when the list holds duplicate ids (the first match is replaced and `find` returns the first match) |
| ProductStore.Without | src/stores/productStore.ts:60-62 | deletion removes every record with the id and keeps every other record; it never grows the list; with an absent id the list is unchanged |
| ProductStore.WithoutConcat | src/stores/productStore.ts:61 | deletion distributes over concatenation, so the kept records keep their relative order |
| ProductStore.WithoutAt | src/stores/productStore.ts:61 | with unique ids, deleting the id at position i gives exactly the list without position i, one shorter |
| ProductStore.WithoutKeepsValidIds | src/stores/productStore.ts:61 | deletion keeps ids unique |
| ProductStore.NextIdAfterDelete | src/stores/productStore.ts:46-62 | after deleting an id, the next id never grows. It stays the same exactly when the deleted id was not the largest present. When it was the largest, the next id drops to at most the deleted id |
| ProductStore.Store.GetById | src/stores/productStore.ts:64-66 | looking up an id in the store's list returns none exactly when no record has the id, otherwise the record at the first matching position; it changes nothing |
| ProductStore.Find | src/stores/productStore.ts:64-66 | `getById` returns none exactly when no record has the id, otherwise the record at the first matching position |
| ProductStore.FindAgreesWithFindIndex | src/stores/productStore.ts:53-66 | `find` and `findIndex` agree: the record found is the one at the index found, and none is found exactly when the index is -1 |
| ProductStore.Store.constructor | src/stores/productStore.ts:30-31 | the store starts with the list decoded from storage |
| ProductStore.Store.LoadProducts | src/stores/productStore.ts:41-43 | reloading replaces the list wholesale by the decoded snapshot, which is written back |
| ProductStore.Store.AddProduct | src/stores/productStore.ts:45-51 | the new list is the old one plus the draft under `NextId` of the old list, whose id exceeds every old id; the snapshot is written; unique ids stay unique |
| ProductStore.Store.UpdateProduct | src/stores/productStore.ts:53-58 | the new list is `Updated` of the old one: unchanged, and nothing written, when the id is absent; otherwise the first match is replaced in place and the snapshot is written; unique ids stay unique |
| ProductStore.Store.DeleteProduct | src/stores/productStore.ts:60-62 | the new list is `Without` of the old one: unchanged when the id is absent; with unique ids and a present id, exactly that record is removed and the order of the rest is kept; the snapshot is written; unique ids stay unique |

## Left out

- Browser storage (`window.localStorage.getItem`/`setItem`) and the JSON encode/decode round trip are not modelled. `loadFromStorage` (src/stores/productStore.ts:14-28) is represented only by its result, which is a parameter of `Store.constructor` and `Store.LoadProducts`. Its fail-soft path for a missing, malformed or non-array value is therefore not modelled either.
- The `Number(p.price) || 0` and `Number(p.quantity) || 0` coercions applied on load are not modelled. They rely on JavaScript number and NaN semantics. `price` and `quantity` are `real` payload that no operation inspects.
- JavaScript numbers are floating point. Ids are modelled as unbounded `int`, so precision loss above 2^53 and NaN or non-integer ids from storage are not captured. The `RangeError` that `Math.max(...ids)` can raise on a very long list is not modelled either.
- The `watch(..., { deep: true })` observer and the Pinia/Vue reactivity wrapper are framework machinery. They are replaced by explicit updates of the ghost field `persisted` at the points where the observer would write. The observer's writes are in fact deferred to Vue's pre-flush and batched; the model writes immediately after each change. At creation the source writes nothing; `persisted` then holds the list the slot decodes to (empty for a missing or malformed slot), not the slot's raw text.
- The object copies (`{ ...product }`) and the sharing of records between the store and its callers are not modelled: records are values here.
- The route table (src/router/routes.ts) is a static list for the router, with no logic of its own.
- ProductStore.NextIdAfterDelete: requires every id to be at least 1, which holds for every list built by additions from an empty one. For a loaded list whose only id is negative, deleting that record raises the next id to 1. For a loaded list whose only id is 0, the next id stays 1 after deleting it, although the largest id was deleted.
