# Inventory tracker: a Dafny model of its state engine

The tracker keeps a catalog of products (id, name, category, price, stock, reorder threshold) and an
append-only log of stock movements (receipts "in" and issues "out"), and derives dashboard figures from
them. In `script.js` this logic sits inside DOM event handlers; the model pulls it out:

- `inventory.dfy` (module `Inventory`): the product and movement records, the movement kind, and the
  result of parsing the price field (a number or NaN).
- `catalog.dfy` (module `Catalog`): lookup by id (`findIndex`/`find`) and the filter used by delete.
- `store.dfy` (module `InventoryStore`): class `Store`, whose `products` and `movements` fields are the
  module-level arrays of the source; its methods are the product form (add or edit), the delete button
  and the movement form, each changing the fields in place; the product and movement forms also report
  an outcome, while delete reports nothing. Three client methods
  exercise the contracts: a receipt followed by an equal issue, an add followed by a delete, and the
  restock/oversell scenario.
- `dashboard.dfy` (module `Dashboard`): product count, inventory value, low-stock list and count, the
  five most recent movements, and the insight banner.
- `ranking.dfy` (module `Ranking`): the stock chart's stable ascending sort by stock, cut to ten entries.
- `top_mover.dfy` (module `TopMover`): the count of "out" movements per product (the source's loop,
  kept as a loop in its own method) and the choice of the product with the most.
- `forecast.dfy` (module `Forecast`): the demand chart's fixed series and its rounded three-month mean.

Decisions the source leaves open, and how the model settles them:

- Ids. New product and movement ids come from the clock in the source, so they are parameters here. A new
  product's id must not already be in the catalog (a precondition of the add path only); with it, every
  operation keeps catalog ids distinct. Movement ids are never read by the engine, so no freshness is
  asked of them.
- Editing an id that is not in the catalog. `findIndex` returns -1 and the source assigns
  `products[-1]`, which in JavaScript creates a property that is not an array element: length, `filter`,
  `reduce`, sorting and the stored JSON do not see it. The model reports `UnknownId` and leaves the
  catalog unchanged instead of forbidding the input.
- Movement kind is the datatype `In | Out`. Quantity is any integer: the source never checks that it is
  positive: a zero or negative quantity is intended to be rejected as invalid, but the code accepts it
  and the model follows the code. Hence stock stays non-negative under a movement when
  it is an issue, or a receipt of a non-negative quantity.
- Price is an exact `real`, so the inventory value is an exact sum. The source's stock and reorder
  threshold are not checked on add or edit, and the model claims no bound for them there.
- Deleting an unknown id is a no-op in the code, although it is meant to be reported as an error; the
  model follows the code.
- The top mover: the source counts "out" movements in a JavaScript object, sorts its keys by descending
  count with a stable sort and takes the first. Keys of that object enumerate in insertion order (ids made
  from `Date.now()` are not array-index strings), so the winner is the first-encountered id among those
  with the greatest count; `FirstMax` states exactly that.

## Model

| member | source | states |
|---|---|---|
| `Catalog.FindIndex` | script.js:80 | -1 exactly when no entry has the id; otherwise an entry with the id and no earlier one has it |
| `Catalog.FindIndexSameIds` | script.js:177 | lookup gives the same position in two catalogs whose ids agree entry by entry, so a stock change does not move it |
| `Catalog.UpdateKeepsUniqueIds` | script.js:81-88 | replacing an entry by one with the same id keeps catalog ids distinct |
| `Catalog.Without` | script.js:126 | the remaining entries are exactly the old entries whose id differs, and there are no more of them than before |
| `Catalog.WithoutConcat` | script.js:126 | the filter distributes over concatenation, so the kept entries stay in catalog order |
| `Catalog.WithoutAbsent` | script.js:124-127 | deleting an id no entry has leaves the catalog unchanged |
| `Catalog.AddThenDelete` | script.js:89-127 | appending a product with a fresh id and deleting that id gives back the original catalog |
| `Catalog.WithoutKeepsUniqueIds` | script.js:126 | deleting keeps catalog ids distinct |
| `Catalog.WithoutRemovesOne` | script.js:126 | with distinct ids, deleting a present id shrinks the catalog by exactly one |
| `InventoryStore.Store.constructor` | script.js:2-3 | the store starts from the catalog and log read from storage |
| `InventoryStore.Store.SaveProduct` | script.js:59-100 | NaN or negative price: refused, nothing changes; unknown id: catalog unchanged; known id: the first entry with it keeps its id and gets the new name, category, price, stock and threshold, all other entries and the length unchanged; empty id: exactly one product appended; the log never changes; distinct ids stay distinct |
| `InventoryStore.Store.DeleteProduct` | script.js:124-127 | the catalog becomes the filtered catalog, the log is untouched, an unknown id is a no-op, distinct ids stay distinct and lose exactly one entry |
| `InventoryStore.Store.RecordMovement` | script.js:170-201 | unknown product or an issue above stock: refused with catalog and log unchanged; otherwise only that product's stock moves by +q or -q, exactly one movement carrying the product's current name is appended, and non-negative stock stays non-negative for issues and non-negative receipts |
| `InventoryStore.Moved` | script.js:186-190 | a movement shifts the product's stock by +q for a receipt and -q for an issue, nothing else |
| `InventoryStore.MovedValue` | script.js:186-190 | a movement changes the inventory value by the product's price times the signed quantity |
| `InventoryStore.InThenOutRestores` | script.js:186-190 | a receipt of q followed by an issue of q gives back the product unchanged |
| `InventoryStore.UpdateKeepsNonNegative` | script.js:187-189 | writing back an entry with non-negative stock keeps every stock in the catalog non-negative |
| `InventoryStore.InThenOut` | script.js:185-190 | a receipt of q then an issue of q on a product with non-negative stock restores the catalog and appends two movements |
| `InventoryStore.AddThenDeleteRestores` | script.js:89-127 | adding a product and deleting it restores the catalog and leaves the log untouched |
| `InventoryStore.RestockScenario` | script.js:177-190 | a product with stock 5 and threshold 10 gives the critical insight with one low product; a receipt of 20 makes the stock 25; an issue of 30 is then refused as insufficient stock and only the first movement is logged |
| `Dashboard.Value` | script.js:217 | the inventory value is never negative when no price and no stock is negative; with the two lemmas below, it is additive over concatenation and moves by the price-times-stock difference when one entry is replaced |
| `Dashboard.ValueConcat` | script.js:217 | the inventory value of a catalog is the sum of the values of its parts |
| `Dashboard.ValueUpdate` | script.js:217 | replacing one entry changes the value by the difference of the two entries' price times stock |
| `Dashboard.LowStock` | script.js:221 | the low-stock list holds exactly the catalog entries with stock at or below their threshold |
| `Dashboard.LowStockCount` | script.js:221 | the low-stock count equals the number of catalog positions whose entry is low on stock |
| `Dashboard.LowStockConcat` | script.js:379 | the low-stock filter distributes over concatenation |
| `Dashboard.LowStockAfterDelete` | script.js:379 | after a delete the low-stock list is the old one without the deleted id's entries, in the same order |
| `Dashboard.ComputeKpis` | script.js:215-221 | total is the catalog length, value the inventory value, and the low-stock count the number of low positions, never above the total |
| `Dashboard.InsightOf` | script.js:379-397 | healthy exactly when no entry is low on stock; otherwise critical carrying the positive low-stock count |
| `Dashboard.Reverse` | script.js:229 | the reversed sequence has the same length, entry k being entry n-1-k of the input |
| `Dashboard.RecentMovements` | script.js:229 | min(5, n) entries, entry k being log entry n-1-k: the last five, newest first |
| `Dashboard.RecentAfterAppend` | script.js:201-229 | after a movement is logged it heads the recent list, followed by the first four of the previous list |
| `Ranking.WithStockConcat` | script.js:254-256 | selecting the entries of one stock level distributes over concatenation |
| `Ranking.Insert` | script.js:254-255 | inserting into a sorted sequence keeps it sorted and adds exactly that entry |
| `Ranking.InsertStable` | script.js:254-255 | the inserted entry lands ahead of all entries of equal stock; the others keep their order |
| `Ranking.SortByStock` | script.js:254-255 | the sorted copy is ascending by stock and a permutation of the catalog |
| `Ranking.SortByStockStable` | script.js:254-255 | for every stock level, the sorted copy lists that level's entries in catalog order |
| `Ranking.LowestTen` | script.js:254-256 | the ranking has min(10, n) entries in non-decreasing stock |
| `Ranking.LowestTenStable` | script.js:254-256 | the ranking holds catalog entries only, and at each stock level its entries are a prefix of the catalog's entries at that level |
| `Ranking.LowestTenIsLowest` | script.js:254-256 | every entry left out of the ranking has at least the stock of every ranked entry |
| `TopMover.OutCount` | script.js:315-319 | an id's "out" count never exceeds the log length; it is positive exactly when the id has an "out" movement (`OutCountPositive`) |
| `TopMover.OutKeys` | script.js:314-322 | no more keys than movements; with the lemmas below, the keys are exactly the ids with an "out" movement, each once, in the order of their first "out" movement |
| `TopMover.OutCounts` | script.js:314-319 | the count object holds exactly the ids with a positive "out" count, each mapped to that count |
| `TopMover.FirstOut` | script.js:315-319 | the position of the first "out" movement of an id, or the log length when it has none |
| `TopMover.OutCountPositive` | script.js:315-319 | an id's "out" count is positive exactly when it has an "out" movement |
| `TopMover.OutKeysMembers` | script.js:314-319 | the count object's keys are exactly the ids with a positive "out" count |
| `TopMover.OutKeysOrder` | script.js:314-322 | keys come in the order of their first "out" movement |
| `TopMover.OutKeysDistinct` | script.js:314-322 | no key appears twice |
| `TopMover.OutCountsStep` | script.js:315-319 | one loop step adds one to the issuing product's count (creating the key if new) and leaves the counts unchanged on a receipt |
| `TopMover.OutKeysStep` | script.js:314-319 | one loop step appends the issuing product's id to the keys exactly when it is an "out" movement of an id not yet counted; otherwise the keys are unchanged |
| `TopMover.CountOuts` | script.js:314-319 | the counting loop builds exactly the count object and its keys in insertion order |
| `TopMover.FirstMax` | script.js:322-324 | the chosen key has the greatest count and every key before it has a strictly smaller one |
| `TopMover.Winner` | script.js:322-324 | none exactly when the count object is empty; otherwise one of its keys with the greatest "out" count (`WinnerIsFirstMax` adds that it is the earliest such key) |
| `TopMover.WinnerExists` | script.js:311-324 | there is no winner exactly when no "out" movement was logged |
| `TopMover.WinnerIsFirstMax` | script.js:313-324 | the winner has a positive and the greatest "out" count, and among ids with that count its first "out" movement is earliest |
| `TopMover.TopMoverOf` | script.js:325-327 | none exactly when there is no winner or the winner's id is not in the catalog; otherwise the first catalog entry whose id is the winner, as the first-match lookup gives it |
| `TopMover.TopMoverSpec` | script.js:311-327 | none exactly when there is no "out" movement or the winner is no longer in the catalog; otherwise the first catalog entry with the winner's id, which has the greatest count |
| `TopMover.TopMover` | script.js:311-327 | the count and the choice yield the top mover defined above, a catalog entry with the greatest "out" count |
| `TopMover.TopMoverScenario` | script.js:313-324 | three issues of p1 and one of p2 make p1 the winner |
| `Forecast.RoundedMean3` | script.js:335 | the result is the integer nearest the mean of three integers, halves rounded up |
| `Forecast.Projection` | script.js:331-336 | the projected series is empty up to May, equals the history in June, and is 26, the rounded mean of April to June, in July |

## Left out

- The DOM: navigation tabs, the modal, reading and resetting form fields, rendering tables, selects and
  lists, `alert` and `confirm` (a delete happens only after the user confirms; the model starts after that).
- Chart drawing: Chart.js instances, labels, colours and options. The ranking and the top mover are modelled
  as the data handed to the charts.
- Persistence: `localStorage` and JSON. The constructor takes the loaded catalog and log; `saveData` after each
  change is an effect with nothing to state here.
- Parsing: `parseFloat`/`parseInt` and the empty-field defaults of 0 are done by the caller; the model takes
  the parsed values (a price that may be NaN, integer stock, threshold and quantity). A NaN stock, threshold
  or quantity, and an infinite price, are not modelled.
- Floating point: price and value are exact reals, so rounding of `price * stock` and of the sum is not
  modelled, nor is the `toFixed`/`toLocaleString` formatting. Stock, threshold and quantity are JavaScript
  numbers, exact only up to 2^53; the model's `int` is unbounded, so loss of precision beyond that is not
  modelled either.
- Clock: ids from `Date.now()` and dates from `new Date().toISOString()` are parameters.
- `Object.keys` lists array-index-like keys (canonical numeric strings below 2^32 - 1) first, in numeric
  order; the model uses insertion order, which is what ids made from `Date.now()` get.
- `DANGER_THRESHOLD` is declared and never used.
