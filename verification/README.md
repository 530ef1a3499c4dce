# Pharmacy stock system: a Dafny model of the inventory core

This project models the stock engine of a multi-pharmacy point-of-sale
back end, and the rules built around that engine:

- **Batches.** Every pharmacy product is stocked in batches, each with a
  quantity, an optional expiry day and a status.
- **Snapshot.** The product row carries a snapshot of its batches: the
  saleable quantity and the next expiry.
- **Consumption and reversal.** A sale consumes stock first-expired-first-out
  and records one usage row per batch slice. Editing or deleting a sale
  walks those usage rows back, newest first.
- **Batch edits.** Batches can be edited and deleted by hand.
- **Daily jobs.** Three jobs keep notifications up to date:
  - low stock, with a hysteresis buffer;
  - expired batches;
  - near expiry.
- **Staff scheduling.** The scheduling side checks:
  - days off, with a small status state machine;
  - shifts;
  - rotation templates;
  - rotation assignments.

  All of them rely on the interval and format helpers of `timeRanges`.

Conventions of the model:

- **State and failure.** The database is an immutable value (`Records.Db`).
  Every handler is a function from state and request to
  `Result<state, Rejection>`. A rejection carries no state: this is the
  rollback of the transaction. The rejection records the HTTP status the
  handler answers with.
- **Days.** Days of the inventory are integer day numbers, with `today` a
  parameter.
- **Scheduling dates.** Days off and rotation assignments use zero-padded
  `YYYY-MM-DD` strings, compared in string order (`Text.Less`). The
  handler's own start-after-end test compares the JavaScript strings. The
  database compares DATE values, which agrees with string order on
  zero-padded dates, the only form the model assumes (see "## Left out").
- **String equality.** Barcodes and template names are compared exactly,
  character for character (see "## Left out").
- **Shift datetimes.** Shift datetimes are parsed instants (`Stamp`).
- **Money.** Money is integer cents.
- **Catalogue rows.** A pharmacy product (`Records.Product`) is the
  `pharmacy_products` row joined with its `products_global` row. Every
  pharmacy product is assumed to have its catalogue row, so the inner joins
  of the three jobs drop nothing.
- **Tables.** Tables are sequences in insertion order. Auto-increment ids
  come from counters in `Db`. `ORDER BY id DESC` is a walk from the end of
  the sequence. `LIMIT 1` with no order is the first matching row.

Modules follow the source files:

| source | modules |
|---|---|
| `src/helpers/inventory.js` | `Snapshot`, `Fefo`, `Consumption`, `Reversal`, `StockAlert` |
| `src/controllers/sale.controller.js` | `Deltas`, `SaleRules`, `SaleCreate`, `SaleUpdate`, `SaleDelete`, `SaleRoundTrip` |
| `src/controllers/batch.controller.js` | `BatchEdit` |
| `src/cron-jobs/lowStockCheck.js` | `LowStockJob` |
| `src/cron-jobs/expiredBatches.js` | `ExpiredSweep` |
| `src/cron-jobs/expirycheck.js` | `NearExpiryCheck` |
| `src/helpers/timeRanges.js` | `TimeRanges` |
| `src/controllers/userManagement.controller.js` | `Scheduling` |

`Base`, `Records`, `Notes` and `Text` hold shared definitions:
- options and results;
- the table records;
- deduplicated notification inserts;
- JavaScript `trim` and string order.

The model follows the code on these points:

- **Batch statuses.** A batch is `active`, `expired`, `void` or `archived`.
  These are the four values the code writes:
  - a batch edit accepts `active` and `expired` (src/controllers/batch.controller.js:108-109);
  - it accepts `void` and `archived`, which also zero the quantity (src/controllers/batch.controller.js:105-107);
  - the sweep writes `expired` (src/cron-jobs/expiredBatches.js:22);
  - a soft delete writes `void` (src/controllers/batch.controller.js:183).
- **Insufficient stock.** Insufficient stock is answered with 400, not 409
  (src/controllers/sale.controller.js:169-174).
- **Recalculation after batch edits.** Batch edits and deletes recompute
  the product quantity as the sum of all active batches. This is not the
  saleable snapshot.
- **Expired-batch sweep.** The sweep sets the product expiry from the
  remaining batches and does not run the snapshot recalculation.
- **Expiry notifications.** Expiry notifications are deduplicated per
  product against open rows, not one-shot per batch.

## Model

| member | source | states |
|---|---|---|
| Snapshot.SaleableTotal | src/helpers/inventory.js:7-17 | the snapshot quantity is never negative, and is zero exactly when no batch of the pharmacy product is active, in stock and unexpired |
| Snapshot.NextExpiry | src/helpers/inventory.js:20-31 | the next expiry is absent exactly when no saleable batch has a date; otherwise it is the date of one such batch and no later than any other |
| Snapshot.Recalc | src/helpers/inventory.js:5-41 | only the row(s) with that id and pharmacy are rewritten; they then agree with their batches, and every other table and row is unchanged |
| Snapshot.RecalcOfConsistentIsIdentity | src/helpers/inventory.js:5-41 | recalculating a database whose snapshots already agree with the batches changes nothing |
| Snapshot.RecalcIdempotent | src/helpers/inventory.js:5-41 | recalculating twice is recalculating once |
| Snapshot.RecalcForgetsSnapshot | src/helpers/inventory.js:33-38 | the result does not depend on the old snapshot values of the rewritten row |
| SaleRules.FindProductFirst | src/helpers/inventory.js:44-53 | a barcode resolves to nothing exactly when no product of the pharmacy carries it, and otherwise to the first row that does |
| Fefo.BeforeMeaning | src/helpers/inventory.js:102 | the allocation order puts dated batches before undated ones, then orders by expiry ascending, then by id ascending |
| Fefo.BeforeTotalOnIds | src/helpers/inventory.js:102 | two batches with different ids are always strictly ordered one way |
| Fefo.NotBeforeTransitive | src/helpers/inventory.js:102 | the order key is transitive |
| Fefo.SortFefo | src/helpers/inventory.js:94-104 | sorting yields an ordered permutation of the batches with the same total quantity, and keeps ids unique |
| Fefo.FefoOrder | src/helpers/inventory.js:94-104 | the batches the consumption walks are exactly the saleable batches of the product, in allocation order, and they sum to the saleable total |
| Consumption.ItemColumn | src/helpers/inventory.js:63 | the logged sale item is absent for a missing or zero item id and is the id otherwise |
| Consumption.Allocate | src/helpers/inventory.js:106-122 | at most one positive slice per batch, none for a non-positive request; each slice comes from its batch and takes no more than it holds; every batch before the last one touched is emptied; the slices sum to the request or to all stock |
| Consumption.Consume | src/helpers/inventory.js:68-126 | a non-positive request consumes nothing; the request fails with the available and requested amounts exactly when the saleable total is short; otherwise the allocations sum to the request and the product snapshot agrees with the batches |
| Consumption.ApplyAllocsEffect | src/helpers/inventory.js:55-65 | each allocation appends exactly one usage row tagged with the sale, item, product, batch and quantity, and debits only the named batch of the pharmacy |
| Consumption.ConsumeEffect | src/helpers/inventory.js:106-124 | a successful consumption appends one usage row per allocation, debits batches by what was allocated from them, and rewrites only the consumed product among the products |
| Consumption.TakenFromBatch | src/helpers/inventory.js:93-122 | a batch gives up nothing if it is not saleable, and never more than it held if it is |
| Consumption.ConsumeNeverOverdraws | src/helpers/inventory.js:106-122 | consumption changes only batch quantities, never raises one, never drives a non-negative one below zero, and touches only saleable batches |
| Consumption.ConsumeIsFefo | src/helpers/inventory.js:102-122 | if a batch is drawn from, every saleable batch before it in allocation order has been emptied |
| Consumption.ConsumeFollowsOrder | src/helpers/inventory.js:106-122 | the allocations follow the allocation order slice by slice, and every slice but the last takes its whole batch |
| Reversal.Reverse | src/helpers/inventory.js:134-178 | a non-positive request returns nothing and changes nothing; otherwise only usage rows, batches and the product snapshot change, and the snapshot agrees with the batches |
| Reversal.WalkEffect | src/helpers/inventory.js:153-173 | the newest-first walk returns the smaller of the request and the matching usage total; it deletes rows it empties, reduces the last one it touches, and leaves other rows alone; each batch of the pharmacy, whatever its status, gains exactly the units taken off the rows that name it, and other batches are untouched |
| Reversal.ReverseEffect | src/helpers/inventory.js:134-178 | the amount returned is the smaller of the request and the matching usage total, the matching total drops by that amount, non-matching rows are untouched, and each batch of the pharmacy is credited with what its matching rows lost |
| Reversal.ReverseCredits | src/helpers/inventory.js:153-173 | after a reversal each batch of the filter's pharmacy, whatever its status, holds its old quantity plus the drop in the matching usage rows that name it; batches of other pharmacies are unchanged |
| Reversal.CreditUndoesDebit | src/helpers/inventory.js:159-162 | crediting what a consumption debited restores the batch |
| Reversal.WalkAfterConsume | src/helpers/inventory.js:67-178 | walking back exactly what a consumption logged removes those rows and restores every batch |
| Reversal.ConsumeThenReverse | src/helpers/inventory.js:67-178 | consuming q for a sale line and then reversing q for it returns all q, and gives the original database with the product's snapshot recalculated |
| Reversal.ConsumeThenReverseRestores | src/helpers/inventory.js:128-133 | from a database whose snapshots agree with its batches, consume then reverse restores it exactly |
| StockAlert.SettingsOfFirst | src/helpers/inventory.js:182-186 | the settings looked up are absent exactly when the pharmacy has no settings row, and otherwise are its first row |
| StockAlert.ProductByIdFound | src/helpers/inventory.js:188-192 | the product looked up by id is absent exactly when no row has that id, and otherwise is a row with that id |
| StockAlert.HelperThreshold | src/helpers/inventory.js:182-186 | the threshold is the first settings row's `low_stock_threshold` of the pharmacy, with NULL and a missing row both read as the default of 10 |
| StockAlert.HelperQuantity | src/helpers/inventory.js:188-192 | the quantity is that of the first product row with the id, and 0 when there is none |
| StockAlert.CheckLowStock | src/helpers/inventory.js:181-210 | only notifications change; a fresh `low_stock` row is appended exactly when the quantity is at or below the threshold and none is open; afterwards a low product always has one open |
| StockAlert.CheckLowStockCounts | src/helpers/inventory.js:193-209 | a low product ends with at least one open `low_stock` notification and gains at most one; every other count is unchanged |
| StockAlert.CheckLowStockIdempotent | src/helpers/inventory.js:198-209 | a second check changes nothing |
| Notes.InsertIfNoneOpen | src/cron-jobs/expiredBatches.js:41-55 | a fresh open row is appended exactly when no open row of that product and kind exists; afterwards one is open |
| Notes.InsertIfNoneOpenCounts | src/cron-jobs/expirycheck.js:26-39 | the insert raises that key's open count to at least one and adds at most one; no other count changes |
| Notes.InsertIfNoneOpenIdempotent | src/cron-jobs/expirycheck.js:26-39 | inserting the same key again changes nothing |
| Notes.InsertAllCounts | src/cron-jobs/expirycheck.js:24-41 | after a run of deduplicated inserts, each mentioned product has at least one open row and at most one more than before, however often it is mentioned |
| Notes.InsertAllIdempotent | src/cron-jobs/expirycheck.js:24-41 | repeating a run of deduplicated inserts changes nothing |
| Notes.InsertAllAppend | src/cron-jobs/expirycheck.js:12-42 | inserting two runs one after the other is inserting their concatenation |
| Deltas.Keys | src/controllers/sale.controller.js:26 | the key set lists every barcode of either side once, and nothing else |
| Deltas.ItemDeltas | src/controllers/sale.controller.js:14-33 | each delta is the new total minus the old total of its barcode; no delta is zero; every barcode whose total changed appears exactly once |
| Deltas.DeltasReconcile | src/controllers/sale.controller.js:14-33 | adding a barcode's delta to its old total gives its new total |
| Deltas.NoChangeNoDeltas | src/controllers/sale.controller.js:28-31 | identical line lists give no deltas |
| SaleRules.CleanDescription | src/controllers/sale.controller.js:62-72 | the stored description is the trimmed text, or null when it is missing or blank; it is rejected with 400 exactly when the trimmed text is over 2000 UTF-16 code units, so a character outside the Basic Multilingual Plane counts twice |
| SaleRules.AstralDescriptionTooLong | src/controllers/sale.controller.js:67 | 1001 characters from outside the Basic Multilingual Plane are too long, though fewer than 2000 characters |
| Text.Utf16LengthBmp | src/controllers/sale.controller.js:67 | text of Basic Multilingual Plane characters has one UTF-16 unit per character |
| SaleRules.CleanDescriptionIdempotent | src/controllers/sale.controller.js:307-317 | cleaning a cleaned description changes nothing |
| Text.Trim | src/controllers/sale.controller.js:65 | the trimmed text is a slice of the input, with only whitespace cut from either side, and begins and ends with a non-space |
| Text.TrimIdempotent | src/controllers/sale.controller.js:65 | trimming twice is trimming once |
| Text.TrimEmptyIffAllSpace | src/controllers/sale.controller.js:65-66 | the trimmed text is empty exactly when the input is all whitespace |
| SaleRules.Paginate | src/controllers/sale.controller.js:187-189 | the page is at least 1 and the limit between 1 and 100, defaulting to 20; the offset is (page - 1) × limit; in-range inputs are kept and others are clamped |
| SaleRules.FindSaleFound | src/controllers/sale.controller.js:35-48 | a sale is found exactly when a row of that id and pharmacy exists |
| SaleRules.ItemsSplit | src/controllers/sale.controller.js:373-385 | the items of a sale and the items of other sales partition the item table |
| SaleCreate.PriceCart | src/controllers/sale.controller.js:82-113 | pricing succeeds exactly when every barcode resolves; each line is then priced from the stored price; otherwise the answer is 404 naming the first unknown barcode |
| SaleCreate.TotalOfPricedCart | src/controllers/sale.controller.js:99-102 | the running total is the sum of stored price × quantity over the cart |
| SaleCreate.CheckCart | src/controllers/sale.controller.js:58-119 | an empty cart or missing amount is a 400; a non-empty cart with an amount is accepted exactly when the description is valid, every barcode is known and the amount covers the total; an underpayment is a 400 and the first unknown barcode a 404 |
| SaleCreate.SellLine | src/controllers/sale.controller.js:130-147 | a line is rejected exactly when its quantity is positive and the saleable stock of its product is below it, with a 400 naming that stock and the quantity; an accepted line keeps batch ids unique and stock non-negative |
| SaleCreate.SellLines | src/controllers/sale.controller.js:130-148 | writing the lines appends one item row per line with consecutive ids and leaves sales, settings, users and the catalogue alone; a rejection is a 400 for insufficient stock |
| SaleCreate.SellLinesShortfall | src/controllers/sale.controller.js:130-148 | the lines are rejected exactly when some line, in cart order, runs short against the stock the earlier lines left, and the 400 names that line's saleable stock and quantity |
| SaleCreate.RecordShortfall | src/controllers/sale.controller.js:121-148 | the write phase is rejected exactly when some line runs short against the stock the earlier lines left, with that line's 400 |
| SaleCreate.SellLinesNoOverdraw | src/controllers/sale.controller.js:130-148 | selling a cart from a database with unique batch ids and non-negative stock keeps both |
| SaleCreate.ConfirmSaleNoOverdraw | src/controllers/sale.controller.js:52-181 | an accepted sale from a database with unique batch ids and non-negative stock keeps both |
| SaleCreate.ConfirmSale | src/controllers/sale.controller.js:52-181 | every rejection is 400 or 404 and leaves no trace; an accepted sale had a non-empty cart, an amount, a valid description and known barcodes; a cart that passes the checks is accepted exactly when writing its lines succeeds, and is otherwise answered with that rejection |
| SaleCreate.ConfirmSaleShortfall | src/controllers/sale.controller.js:52-181 | a cart that passes the checks is accepted exactly when no line runs short against the stock the earlier lines left; otherwise the 400 names the first short line's stock and quantity |
| SaleCreate.ConfirmSaleHeader | src/controllers/sale.controller.js:115-127 | an accepted sale takes the next sale id and stores the total, the amount given and change = amount - total, which is never negative |
| SaleCreate.ConfirmSaleItems | src/controllers/sale.controller.js:130-136 | an accepted sale stores one item per cart line, priced from the stored prices, with consecutive ids |
| SaleCreate.OffsettingLinesPay | src/controllers/sale.controller.js:58-119 | a cart with a line and its negated twin totals 0 and passes the checks with an amount of 0 (see Findings) |
| SaleRoundTrip.OffsettingLinesTakeStock | src/controllers/sale.controller.js:129-147 | a sale accepted for that cart takes 2 units into its ledger: only the positive line draws stock (see Findings) |
| SaleCreate.SellLinesStock | src/controllers/sale.controller.js:129-147 | each line, in cart order, appends usage rows tagged with the sale, its item id and its product, whose slices are positive and sum to the line's quantity, or to nothing for a non-positive line, and debits batches by exactly those slices |
| SaleCreate.ConfirmSaleStock | src/controllers/sale.controller.js:52-181 | an accepted sale takes the next sale id, and its stock effect is that of writing its priced lines |
| SaleRoundTrip.ConfirmSaleLedger | src/controllers/sale.controller.js:129-147 | an accepted sale's ledger total for each known barcode is the sum of its positive line quantities for that barcode, and the ledger stays free of non-positive rows |
| SaleRoundTrip.CreateThenDelete | src/controllers/sale.controller.js:52-181 | deleting a freshly created sale (with positive lines) succeeds and brings every barcode's ledger total for that sale back to where it was |
| SaleRoundTrip.ReturnableReturns | src/controllers/sale.controller.js:437-460 | items whose quantities the ledger covers, barcode by barcode, are all returned without a 409 |
| SaleCreate.ConfirmSaleChecked | src/controllers/sale.controller.js:58-60 | with quantity validation, a non-positive line is a 400, and an accepted sale is exactly what the handler records |
| SaleCreate.ConfirmCheckedPaysEachLine | src/controllers/sale.controller.js:115-119 | with quantity validation and non-negative prices, the amount given covers every single line |
| SaleCreate.PositiveCartCoversLines | src/controllers/sale.controller.js:99-102 | with positive quantities and non-negative prices, the total is at least every line's subtotal |
| SaleUpdate.Normalize | src/controllers/sale.controller.js:290-296 | a request line keeps its quantity and price, has its barcode trimmed, and gets a subtotal of price × quantity when none is given |
| SaleUpdate.Payment | src/controllers/sale.controller.js:299-305 | the stored amount is the one given, and change exists exactly when an amount is given, with change + total = amount |
| SaleUpdate.ApplyDelta | src/controllers/sale.controller.js:331-370 | an unknown barcode is a 400; a growth is rejected exactly when the saleable stock is below it, with a 400 naming both, and otherwise consumes exactly the delta; a non-positive one reverses its size and is a 409 exactly when fewer units come back |
| SaleUpdate.ApplyDeltas | src/controllers/sale.controller.js:331-370 | no deltas change nothing; a failure is 400 or 409; success leaves sales, items and the catalogue alone |
| SaleUpdate.UpdateSale | src/controllers/sale.controller.js:280-417 | empty lines and, when given, an amount below the request total are 400s; a missing sale is a 404; a request past those checks is accepted exactly when its deltas apply, and otherwise gets their rejection; on success the item rows are replaced and the header is rewritten |
| SaleUpdate.ApplyDeltasFirstFailure | src/controllers/sale.controller.js:331-370 | the deltas are rejected exactly when one of them, in order, fails against the state the earlier ones left, and the rejection is that delta's |
| SaleUpdate.UpdateSaleAccepted | src/controllers/sale.controller.js:280-417 | a request past the checks is accepted exactly when none of its deltas fails against the state the earlier ones left; otherwise it gets the failing delta's rejection |
| SaleUpdate.DeltasStockShortfall | src/controllers/sale.controller.js:331-370 | deltas rejected for insufficient stock name a growth whose saleable stock, after the earlier deltas, was below it, with a 400 naming both |
| SaleUpdate.UpdateStockShortfall | src/controllers/sale.controller.js:340-350 | an update answered with insufficient stock names a growth whose saleable stock, after the earlier deltas, was below it |
| SaleUpdate.GrowthLedger | src/controllers/sale.controller.js:340-350 | a growth adds exactly its delta to its own barcode's ledger total and nothing to any other |
| SaleUpdate.ShrinkLedger | src/controllers/sale.controller.js:351-369 | a shrink returns all it asks for exactly when the ledger holds that much, and then the ledger total drops by that amount |
| SaleUpdate.ApplyDeltasLedger | src/controllers/sale.controller.js:331-370 | after all deltas succeed, each known barcode's ledger total for the sale has moved by exactly its delta |
| SaleUpdate.ApplyDeltaConflict | src/controllers/sale.controller.js:351-369 | one delta is a 409 exactly when it is a shrink whose ledger holds less than its size, and the 409 names the barcode, the size and what came back |
| SaleUpdate.ShortShrinkFails | src/controllers/sale.controller.js:331-370 | a shrink the ledger cannot cover makes the whole run of deltas fail |
| SaleUpdate.ConflictIsShortShrink | src/controllers/sale.controller.js:331-370 | a 409 from the run of deltas names a shrink that came back short |
| SaleUpdate.UpdateSaleLedger | src/controllers/sale.controller.js:280-417 | after an update, each known barcode's ledger total for the sale is the old total plus the new line quantities minus the stored item quantities, and the ledger stays free of non-positive rows |
| SaleUpdate.UncoveredUpdateFails | src/controllers/sale.controller.js:351-369 | an update that lowers a barcode by more than the ledger holds is rejected |
| SaleUpdate.UpdateConflictIsUncovered | src/controllers/sale.controller.js:351-369 | an update answered with 409 lowered some barcode by more than the ledger held, and names it |
| Reversal.ReverseKeepsOthers | src/helpers/inventory.js:134-178 | a reversal leaves unchanged the ledger total of every filter that differs from its own in sale, pharmacy, product or barcode |
| SaleUpdate.UnchangedLinesMoveNoStock | src/controllers/sale.controller.js:331-370 | an update that keeps every line's quantity touches no batch, usage row, notification or product |
| SaleDelete.ReturnItem | src/controllers/sale.controller.js:437-460 | an unknown barcode is a 400; otherwise the item's full quantity is reversed, and anything short of it is a 409 naming what came back |
| SaleDelete.ReturnItems | src/controllers/sale.controller.js:437-460 | returning all items succeeds only if every item quantity is non-negative, and leaves sales, items and the catalogue alone |
| SaleDelete.DeleteSale | src/controllers/sale.controller.js:421-473 | a missing sale is a 404; on success the sale's items and header are removed and nothing else of theirs changes |
| SaleDelete.ReturnItemCovered | src/controllers/sale.controller.js:437-460 | an item of a known barcode is returned without error exactly when its quantity is non-negative and no more than the sale's ledger total for that barcode |
| SaleDelete.ReturnItemLedger | src/controllers/sale.controller.js:437-460 | returning an item lowers its own barcode's ledger total by the item quantity and leaves every other barcode's total alone |
| SaleDelete.ReturnItemsLedger | src/controllers/sale.controller.js:437-460 | returning all items lowers each barcode's ledger total by the sum of its item quantities |
| SaleDelete.DeleteSaleLedger | src/controllers/sale.controller.js:421-473 | after a delete, each known barcode's ledger total for the sale has dropped by the sum of the sale's item quantities for that barcode |
| SaleDelete.DeletedSaleIsGone | src/controllers/sale.controller.js:463-464 | after a delete the sale cannot be found, none of its items remain, and every other sale and item is kept |
| BatchEdit.ActiveSumCoversSaleable | src/controllers/batch.controller.js:5-19 | the active sum the batch handlers store is never below the saleable snapshot, and equals it when no active batch has expired |
| BatchEdit.RecalcQuantity | src/controllers/batch.controller.js:5-19 | only the quantity of the product row(s) changes, to the sum over all active batches |
| BatchEdit.FindBatch | src/controllers/batch.controller.js:34-45 | the batch is absent exactly when no row of that id and pharmacy exists |
| BatchEdit.QuantityPart | src/controllers/batch.controller.js:63-86 | an unreadable number is a 400; delta mode adds and set mode sets, each rejecting a negative result; any other mode is a 400 |
| BatchEdit.ExpiryPart | src/controllers/batch.controller.js:89-100 | null or empty clears the date, a valid date sets it, and an invalid one is the only expiry rejection |
| BatchEdit.StatusPart | src/controllers/batch.controller.js:103-114 | a given status is accepted exactly when it is void, archived, active or expired |
| BatchEdit.PlanEdit | src/controllers/batch.controller.js:62-119 | checks run in order quantity, expiry, status, and the first failing part's 400 is the answer; a request changing nothing is a 400, and exactly those requests are; a request whose parts all pass and that changes something is accepted; void or archived force the quantity to 0 |
| BatchEdit.UpdateBatch | src/controllers/batch.controller.js:21-144 | a missing batch is a 404, then a missing product row is a 404; otherwise the edit is accepted exactly when its plan is, a rejected plan's 400 is the answer, and on success only that batch is patched and the product quantity is the active sum of the new batches |
| BatchEdit.UpdateBatchEffect | src/controllers/batch.controller.js:63-114 | an updated batch has a non-negative quantity when one was given, quantity 0 when voided or archived, and its old quantity when neither |
| BatchEdit.Without | src/controllers/batch.controller.js:175-178 | a hard delete keeps every other batch row |
| BatchEdit.DeleteBatch | src/controllers/batch.controller.js:146-215 | a missing batch is a 404; a hard delete of a non-empty batch is the only 400; otherwise the row goes, or is voided and zeroed, and the product is recomputed |
| BatchEdit.WithoutEmptyKeepsSum | src/controllers/batch.controller.js:170-178 | removing a batch holding 0 leaves every active sum unchanged |
| LowStockJob.FirstKeyed | src/cron-jobs/lowStockCheck.js:7-13 | the lookup finds the first row of the key, or none when the key has no row |
| LowStockJob.Ensure | src/cron-jobs/lowStockCheck.js:6-40 | a missing row is inserted, an open one left alone, and a resolved one reopened in place: that row alone changes, to unresolved with no resolution stamp and its e-mail flag cleared, its read flag kept; the outcome says which; other keys are untouched |
| LowStockJob.EnsureIdempotent | src/cron-jobs/lowStockCheck.js:39 | a second ensure finds the row active and changes nothing |
| LowStockJob.EnsureCounts | src/cron-jobs/lowStockCheck.js:15-23 | ensure never makes a second row for a key |
| LowStockJob.Resolve | src/cron-jobs/lowStockCheck.js:99-105 | all rows of the key are resolved afterwards, the newly resolved stamped with the time, and no other key changes |
| LowStockJob.MarkEmailed | src/cron-jobs/lowStockCheck.js:171-177 | every row of the key gets its e-mail flag set and nothing else changes |
| LowStockJob.Buffer | src/cron-jobs/lowStockCheck.js:88 | the buffer is the larger of 1 and the threshold's tenth rounded up |
| LowStockJob.CeilTenth | src/cron-jobs/lowStockCheck.js:88 | the rounded-up tenth is the least c with 10c at least the threshold |
| LowStockJob.BandIsPositive | src/cron-jobs/lowStockCheck.js:87-89 | a quantity inside the hysteresis band is positive |
| LowStockJob.MailsFor | src/cron-jobs/lowStockCheck.js:53-70 | mail goes to every e-mail-verified user of the pharmacy and to no one else |
| LowStockJob.Announce | src/cron-jobs/lowStockCheck.js:162-178 | mail is sent and rows marked e-mailed only on insert or reopen, and only when e-mail is enabled |
| LowStockJob.EmptyStepEffect | src/cron-jobs/lowStockCheck.js:144-161 | at quantity 0, `low_stock` is all resolved and `out_of_stock` is open |
| LowStockJob.LowStepEffect | src/cron-jobs/lowStockCheck.js:201-218 | a low product with no open `out_of_stock` ends with `low_stock` open |
| LowStockJob.StockedOutResolved | src/cron-jobs/lowStockCheck.js:91-109 | every product in stock ends with `out_of_stock` resolved |
| LowStockJob.EmptyProductSettles | src/cron-jobs/lowStockCheck.js:131-184 | after a pharmacy's pass, an empty product has `low_stock` resolved and `out_of_stock` open |
| LowStockJob.LowProductSettles | src/cron-jobs/lowStockCheck.js:186-241 | after a pharmacy's pass, a product with 0 < quantity ≤ threshold has `low_stock` open |
| LowStockJob.RecoveredProductSettles | src/cron-jobs/lowStockCheck.js:111-129 | after a pharmacy's pass, a product at or above threshold + buffer has `low_stock` resolved |
| LowStockJob.BandKeepsLowStock | src/cron-jobs/lowStockCheck.js:87-129 | a quantity strictly between the threshold and threshold + buffer leaves the `low_stock` rows exactly as they were |
| LowStockJob.PassSettles | src/cron-jobs/lowStockCheck.js:86-242 | after a pharmacy's pass every product of it is in the state the four rules demand |
| LowStockJob.PassIdempotent | src/cron-jobs/lowStockCheck.js:86-242 | a second pass changes nothing and sends nothing |
| LowStockJob.LowStockCheck | src/cron-jobs/lowStockCheck.js:75-248 | the job writes notifications only |
| LowStockJob.LowStockCheckSettles | src/cron-jobs/lowStockCheck.js:75-248 | after the job every product of every configured pharmacy is settled |
| LowStockJob.LowStockCheckKeepsBand | src/cron-jobs/lowStockCheck.js:87-129 | across the whole job, a product in its hysteresis band keeps its `low_stock` rows |
| LowStockJob.LowStockCheckIdempotent | src/cron-jobs/lowStockCheck.js:75-248 | running the job again, at any time, changes nothing and sends nothing |
| LowStockJob.LowStockCheckMailsVerified | src/cron-jobs/lowStockCheck.js:42-72 | every mail the job sends goes to an e-mail-verified user of the product's pharmacy |
| ExpiredSweep.SelectOverdue | src/cron-jobs/expiredBatches.js:10-17 | the selection is exactly the active, in-stock batches dated before today that belong to a product |
| ExpiredSweep.MarkExpired | src/cron-jobs/expiredBatches.js:21-24 | only the status of the batch with that id changes, to expired |
| ExpiredSweep.Earliest | src/cron-jobs/expiredBatches.js:26-31 | the next expiry is absent exactly when no active in-stock batch remains, and is otherwise the first in ascending order with null first |
| ExpiredSweep.SetExpiry | src/cron-jobs/expiredBatches.js:33-38 | only the expiry of the product rows with that id changes |
| ExpiredSweep.ExpireOne | src/cron-jobs/expiredBatches.js:19-56 | one selected batch becomes expired; its product takes the earliest remaining expiry or keeps its own; an `expired` notification is added only if none is open |
| ExpiredSweep.ExpireAllEffect | src/cron-jobs/expiredBatches.js:19-56 | the sweep changes only batch statuses and product expiries, expires exactly the selected ids, and leaves unselected products alone |
| ExpiredSweep.ExpiredBatchesEffect | src/cron-jobs/expiredBatches.js:5-62 | the job expires exactly the overdue batches, never writes a quantity, and leaves products without overdue batches alone |
| ExpiredSweep.ExpireAllNotes | src/cron-jobs/expiredBatches.js:40-55 | the sweep's notifications are the deduplicated inserts of the selected batches' products |
| ExpiredSweep.ExpiredNotesCount | src/cron-jobs/expiredBatches.js:40-55 | a product with overdue batches ends with one open `expired` notification and gains at most one, however many of its batches expire |
| ExpiredSweep.ExpiredBatchesSettles | src/cron-jobs/expiredBatches.js:10-24 | after the sweep no batch is overdue |
| NearExpiryCheck.DuePairs | src/cron-jobs/expirycheck.js:13-22 | a pharmacy's selection names exactly the products with an in-stock batch dated no later than today plus the window, whatever its status |
| NearExpiryCheck.NearExpiryJob | src/cron-jobs/expirycheck.js:5-48 | the check writes notifications only |
| NearExpiryCheck.CheckAllIsInsertAll | src/cron-jobs/expirycheck.js:12-42 | the pass over settings rows is one deduplicated insert over everything they select |
| NearExpiryCheck.AllDuePairsMeaning | src/cron-jobs/expirycheck.js:12-22 | a product is raised exactly when some settings row of its pharmacy selects one of its batches |
| NearExpiryCheck.NearExpiryCounts | src/cron-jobs/expirycheck.js:24-41 | a due product ends with at least one open `near_expiry` row and gains at most one; every other count is unchanged |
| NearExpiryCheck.NearExpiryIdempotent | src/cron-jobs/expirycheck.js:5-48 | running the check again the same day changes nothing |
| TimeRanges.DatesOverlapMeaning | src/helpers/timeRanges.js:12-16 | closed overlap: each range starts no later than the other ends, so a shared endpoint overlaps |
| TimeRanges.DatesOverlapShareDay | src/helpers/timeRanges.js:12-16 | two well-ordered date ranges overlap exactly when some day lies in both |
| TimeRanges.TimesOverlapShareInstant | src/helpers/timeRanges.js:24-28 | two non-empty half-open spans overlap exactly when some instant lies in both, so touching ends do not overlap |
| TimeRanges.TimeOrderAsWrittenStrict | src/helpers/timeRanges.js:61-64 | the string comparison of times is a strict order: irreflexive, asymmetric and transitive |
| TimeRanges.DateTimeOrderStrict | src/helpers/timeRanges.js:72-75 | the datetime order test holds only for two parsed instants and is a strict order on them |
| TimeRanges.HalfOr | src/helpers/timeRanges.js:35 | exactly AM, PM and FULL are valid halves, and anything else becomes FULL |
| TimeRanges.ValidTimeExactly | src/helpers/timeRanges.js:49-53 | the accepted texts are exactly H:MM:SS or HH:MM:SS with hour 0-23 and minutes and seconds 00-59 |
| TimeRanges.TimeTextValid | src/helpers/timeRanges.js:49-53 | every printed time of day is accepted and reads back as its number of seconds |
| TimeRanges.PaddedOrderAgrees | src/helpers/timeRanges.js:61-64 | for two-digit hours the string order is the time-of-day order |
| TimeRanges.TimeOrderIntendedMeaning | src/helpers/timeRanges.js:61-64 | the corrected order compares hours, then minutes, then seconds |
| TimeRanges.UnpaddedHourMisordered | src/helpers/timeRanges.js:61-64 | 9:00:00 is not before 10:00:00 as written, but 10:00:00 is before 9:00:00 (see Findings) |
| Text.LessTransitive | src/helpers/timeRanges.js:63 | string order is transitive |
| Text.LessTotal | src/helpers/timeRanges.js:63 | two different strings are ordered one way or the other |
| Text.NotLessIsLessEq | src/controllers/userManagement.controller.js:85 | not after is at or before |
| Scheduling.FindUser | src/controllers/userManagement.controller.js:108-109 | a user is found exactly when a row has the id |
| Scheduling.DayOffTarget | src/controllers/userManagement.controller.js:93-114 | staff always request for themselves in their own pharmacy; an admin may name the user; the pharmacy is never 0 and the user exists |
| Scheduling.CreateDayOff | src/controllers/userManagement.controller.js:76-142 | missing dates are a 400; an accepted request has start ≤ end and no held overlap, and is stored PENDING with the halves defaulted to FULL; given valid input it is accepted exactly when nothing held overlaps |
| Scheduling.CreateDayOffKeepsApart | src/controllers/userManagement.controller.js:116-132 | creating a day off keeps one user's held days off pairwise disjoint |
| Scheduling.TargetStatus | src/controllers/userManagement.controller.js:151-153 | only APPROVED, REJECTED and CANCELLED are targets; PENDING never is |
| Scheduling.FindDayOff | src/controllers/userManagement.controller.js:156-165 | a day off is found only when its row and its user's row exist |
| Scheduling.SetStatus | src/controllers/userManagement.controller.js:190-194 | only the request with that id changes: its status, and its reason when a new one is given |
| Scheduling.UpdateDayOffStatus | src/controllers/userManagement.controller.js:145-201 | staff succeed exactly when cancelling their own pending request; a pharmacy admin exactly for a request in a pharmacy they administer; other admins always, with a valid status |
| Scheduling.StaffOnlyCancelPending | src/controllers/userManagement.controller.js:168-172 | a staff change applied to a request means it was the caller's own pending request, now cancelled |
| Scheduling.StatusChangeKeepsApart | src/controllers/userManagement.controller.js:190-194 | a change keeps held days off disjoint unless it approves a request that held no days |
| Scheduling.ApprovalIgnoresOverlap | src/controllers/userManagement.controller.js:174-194 | an admin can approve a released request that overlaps a held one, breaking disjointness |
| Scheduling.ApprovalCanBreakApart | src/controllers/userManagement.controller.js:145-201 | a concrete pair of requests shows re-approval creating an overlap |
| Scheduling.ShiftTarget | src/controllers/userManagement.controller.js:289-310 | staff always get a shift for themselves; admins name the user; user and pharmacy are non-zero |
| Scheduling.CreateShift | src/controllers/userManagement.controller.js:276-337 | missing times are a 400; an accepted shift starts before it ends and overlaps none of the user's shifts; given valid input it is accepted exactly when nothing overlaps |
| Scheduling.CreateShiftKeepsApart | src/controllers/userManagement.controller.js:312-327 | creating a shift keeps each user's shifts pairwise disjoint |
| Scheduling.KeepSlots | src/controllers/userManagement.controller.js:456-462 | the stored slots are exactly the acceptable input slots, under the code's string comparison |
| Scheduling.KeptSlotsValid | src/controllers/userManagement.controller.js:457-461 | every stored slot has a day of the week from 0 to 6 as `validDayOfWeek` (src/helpers/timeRanges.js:42) demands, its start before its end in string order, and the template's id |
| Scheduling.KeepSlotsIntended | src/controllers/userManagement.controller.js:456-462 | the same filter comparing times of day |
| Scheduling.PaddedSlotsAgree | src/controllers/userManagement.controller.js:459-460 | with two-digit hours the two filters keep the same slots |
| Scheduling.KeepSlotsAppend | src/controllers/userManagement.controller.js:458-462 | filtering works slot by slot |
| Scheduling.CreateRotationTemplate | src/controllers/userManagement.controller.js:417-481 | pharmacy and name are required; a pharmacy admin must administer the pharmacy; names are unique per pharmacy; the template is stored active with the kept slots |
| Scheduling.CreateRotationAssignment | src/controllers/userManagement.controller.js:541-608 | missing fields are a 400; user and active template must belong to the pharmacy; an accepted assignment overlaps none of the user's assignments, reading an open end as 2999-12-31 |
| Scheduling.CreateAssignmentKeepsApart | src/controllers/userManagement.controller.js:581-598 | creating an assignment keeps each user's assignments pairwise disjoint |
| Scheduling.OpenEndedAssignmentsClash | src/controllers/userManagement.controller.js:582-587 | an open-ended assignment clashes with any later open-ended one for the same user |

## Left out

- Database plumbing is left out: SQL text, the connection pool, `FOR UPDATE` locks and commit/rollback mechanics. A rejection simply carries no state.
- Concurrency is left out. Two cashiers, the lock order and the jobs running alongside requests are database concerns, not sequential logic.
- Mail delivery is a parameter. The model records which verified users a mail is requested for. SMTP, templates, per-recipient failures and the sent counters are left out.
- The clock is a parameter. `today` is a day number and `now` is an instant, both passed in. Cron scheduling (node-cron) is left out: each job body is a function called with them.
- Date parsing is left out. moment's strict `YYYY-MM-DD` parse and `new Date(...)` are inputs that are already parsed or unparseable (`Date(None)`, `Unparseable`). A NaN quantity is `NotANumber`.
- Money is modelled as integer cents. Floating-point prices, `toFixed(2)` in responses and `Number()` coercion of arbitrary strings are left out.
- Response bodies and message texts are left out, including the Albanian notification messages. Notifications are kept by key, kind and flags only.
- `loadSaleWithItems` and the search, filter and SQL of `listSales` are left out. Only its paging clamp is modelled.
- Authentication and roles are left out. A caller is already a staff user, a pharmacy admin or another admin.
- Stock intake, the catalogue, settings CRUD and the getters of the scheduling controller are not part of this model.
- The shift `label`, `location` and `notes` columns and the slot `label` are left out. They are stored as given and nothing checks them. The slot label is kept as a caption.
- Scheduling.CreateRotationAssignment: an empty `effective_to` is stored as NULL. The code passes the empty string to the insert, and what MySQL stores for it depends on the server mode.
- Scheduling.CreateRotationAssignment: the code does not check that the start of an assignment is no later than its end, and neither does the model. A reversed range then overlaps nothing.
- Scheduling.CreateDayOff: the code performs no pharmacy-admin authorization for days off, and neither does the model. The same holds for Scheduling.CreateShift.
- LowStockJob.Step: the skip for an open `out_of_stock` during the low-stock pass is modelled. It can never fire, because earlier passes of the same run have resolved `out_of_stock` for every product in stock.
- LowStockJob.EnvOf: the job's threshold defaults to 0 (`COALESCE`). The sale-time helper defaults to 10 (StockAlert.HelperThreshold). Both are modelled as written.
- The hysteresis buffer is computed as an exact ceiling of a tenth. For integer thresholds, IEEE `t * 0.10` rounds up to the same integer.
- ExpiredSweep.ExpireOne: the product expiry is computed batch by batch during the sweep, and the snapshot recalculation is not run. This is modelled as written, so a product can keep the date of a batch that is itself overdue later in the same sweep.
- NearExpiryCheck.DueSoon: a NULL `expiry_alert_days` selects nothing, because the SQL bound is NULL. Batches of every status count.
- SaleDelete.ReturnItem: a negative stored item quantity reverses nothing, which differs from the requested amount, so deleting such a sale is a 409. This is as the code does it.
- SaleUpdate.UpdateSale: prices and subtotals come from the request, not from the stored price. This is as the code does it.
- Notes.Fresh: the notification inserts of the sale-time low-stock check, the expired-batch sweep and the near-expiry check name only pharmacy, product, type and message. The model stores the other columns at assumed defaults: `batch_id` 0, unread, unresolved and not e-mailed. The schema is not part of this model. The 0 matters: the low-stock job only looks at rows with `batch_id = 0`, so with a NULL default it would not see the sale-time `low_stock` row.
- Scheduling.CreateDayOff: dates are assumed to be zero-padded `YYYY-MM-DD`. Neither the handler nor the model checks the format. MySQL reads an unpadded '2024-3-5' as the date 2024-03-05, but in string order it comes after '2024-03-31', so on unpadded dates the model's overlap test can disagree with the database's.
- Scheduling.CreateRotationAssignment: dates are assumed to be zero-padded `YYYY-MM-DD`, for the same reason as for days off; the overlap test and the open end '2999-12-31' are compared in string order.
- SaleRules.FindProduct: barcodes, the ledger's barcode filter (Reversal.Matches) and template names (Scheduling.NameTaken) are compared by exact equality. MySQL compares strings under the column collation, which by default ignores case and trailing spaces. The schema is not part of this model, so a binary collation is assumed.
- Scheduling.CreateRotationTemplate: a slot entry that is `null` makes the slot loop throw after the template row has been inserted, outside any transaction, so the answer is 500 and the template stays without slots. Slot entries are modelled as records whose fields may be missing, so this path is not modelled.
- SaleDelete.DeleteSaleLedger: the stock a delete gives back is stated through the sale's ledger totals per barcode. That every batch gets back exactly what the sale took is proved for one line (Reversal.ConsumeThenReverseRestores), not summed over a whole sale.
- SaleRoundTrip.CreateThenDelete: stated for the handler with quantity validation, because a negative line makes the delete a 409 (see SaleDelete.ReturnItem above). It also assumes that no stored item row carries the new sale's id, which auto-increment ids give the database but the model's counters do not enforce.

## Findings

| source | as written | input that shows it | evidently intended | confidence | as-written member | corrected member |
|---|---|---|---|---|---|---|
| src/controllers/sale.controller.js:58-60, 99-102, 115-119 | line quantities are never validated; a negative line lowers the total while consuming nothing | a cart with barcode A ×2 and A ×−2 at any price totals 0, so an amount of 0 is accepted and 2 units leave stock | every line quantity is positive, so the amount given covers each line | not executed | SaleCreate.OffsettingLinesPay | SaleCreate.ConfirmSaleChecked |
| src/helpers/timeRanges.js:61-64 (used at src/controllers/userManagement.controller.js:460) | start and end times are compared as strings, which accepts one-digit hours | "9:00:00" to "10:00:00" is dropped as unordered, while "10:00:00" to "9:00:00" is kept | compare the times of day | not executed | TimeRanges.UnpaddedHourMisordered | TimeRanges.TimeOrderIntendedMeaning |
