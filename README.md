# beverage_OS inventory ledger in Dafny

This project models the core of beverage_OS, an inventory system for a beverage plant. The core is the inventory quantity ledger and the two workflows that change it:

- **Goods receipt** (`createGRN`). It validates the request and stores the GRN document first. It then walks the lines in order. Each line looks up the first inventory item with the same (itemName, category). A match is restocked: the quantity grows, and lot, expiry and QC status are overwritten when given. Otherwise a new item is created with a fresh item code. Every line's save either stores the document or throws. A throw ends the handler with 400, and the GRN and all earlier lines stay applied.
- **Sales dispatch** (`createDispatch`). It validates the header and the lines and builds the dispatch in memory. It then walks the lines. Each line looks up the first item with that itemName, whatever its category. A missing item or short stock refuses the line. Otherwise the quantity is deducted and saved at once. The dispatch is stored only after the last line. A refused line keeps the earlier deductions and stores no dispatch: the `findByIdAndDelete` on the unsaved id removes nothing.
- **Threshold update**, **lookup by id**, the **dispatch status update** and the **GRN status update**.
- The **document schemas** of inventory items, GRNs, dispatches and users: required fields, defaults, enums, unique keys and the GRN-number pre-save hook.
- The **user approval flow**:
  - registration creates a pending user;
  - an approved user may approve or delete another user;
  - login approves any unapproved user before it compares the password;
  - two listings, pending and approved.
- The **inventory-intelligence dashboard**:
  - expiry-risk colour and label;
  - stock per category;
  - safety-stock breaches;
  - the expiry timeline and batch aging (top N);
  - insights;
  - the expiry risk table.

The model is organised as follows.

| file | module | contents |
|---|---|---|
| common.dfy | `Common` | the generic helpers: `Option`; `FindFirst`, the document store's `findOne` (first match in storage order); `Count`, `Filter`, `Map`; a stable insertion `SortBy`; `Take` (`slice(0, n)`) |
| js.dfy | `Js` | the JavaScript coercions the guards rely on: `Number(x)`, `isNaN`, falsiness, `trim`, lower-casing |
| responses.dfy | `Responses` | the errors a handler answers with, and the schema violations a `save` throws |
| inventory_model.dfy, grn_model.dfy, dispatch_model.dfy, user_model.dfy | one per schema | each document as a datatype, its constructor with defaults, and its validator |
| requests.dfy | `Requests` | the request bodies and the guards run before anything is stored |
| receipt.dfy, dispatch.dfy | `Receipt`, `Dispatch` | the per-line inventory passes of the two workflows as functions on values, with their properties |
| store.dfy | `InventoryStore` | class `Store`, holding the inventory, GRN and dispatch collections; the handlers are methods that change them in place, proved equal to the passes |
| auth.dfy | `Auth` | class `UserTable` and the two listings |
| dashboard.dfy | `Dashboard` | the page's pure helpers and `processedData` |
| scenarios.dfy | `Scenarios` | worked receipt and dispatch cases on concrete documents |

The following are parameters of the model:

- The clock (`now`), as an integer timestamp.
- The generated GRN number.
- The generated item codes (`newCode(i)` for line `i`). Uniqueness is a lemma hypothesis, not a given: a colliding code is modelled as the duplicate-key error the unique index raises.
- The password hash stored at registration.
- Whether a login's password matched.
- The dashboard's day counts (days to expiry, batch age, days of stock left), each an `Option<int>`.

Document ids come from one counter in each class.

Behaviours of the code worth knowing:

- The inventory `QCstatus` enum accepts only "Pass" and "Fail", while the GRN enum also accepts "Check". The receiving loop copies the request's QC value onto each new item. A request that gives QC "Check" is stored as a GRN, and then the first inventory save throws (`Receipt.RejectedQcStopsAtFirstLine`). A request that gives no QC value stores its new items as "Pass" (`Receipt.OmittedQcSucceeds`).
- A dispatch refused on line k keeps the deductions of lines 1..k-1. No compensation happens.
- The deduction runs whatever the requested status, although the handler's header comment says a draft changes no inventory.
- The dispatch status defaults to "Draft" also for an empty string (`status || "Draft"`).
- `updateThreshold` also refreshes `updatedAt`.
- The GRN schema has no `status` path. Strict mode drops the `status` written by `updateGRNStatus`, so only `updatedAt` changes.
- A new item always gets a generated code.
- The stock-by-category reduce starts from a plain `{}`. A category named after an `Object.prototype` member ("constructor", "toString", "__proto__", …) finds the inherited member, gets no entry, and its stock is missing from the chart (`Dashboard.ConstructorCategoryDropped`).
- A login without a password approves the user, and then `bcrypt.compare` throws and the handler answers 500.

## Model

| member | source | states |
|---|---|---|
| Common.FindFirst | backend/controllers/grnController.js:40 | `findOne` answers the first document in storage order that matches the filter, and none only when no document matches |
| Common.MapFilterIsMapOfFilter | frontend/src/pages/InventoryIntelligence.jsx:152-158 | the combined filter-and-map gives one image per passing element, in order: it equals the map of the filter |
| Common.TopNOnce | frontend/src/pages/InventoryIntelligence.jsx:152-165 | the first n of the sorted images hold each image at most as often as the passing elements give it |
| Common.SortBy | frontend/src/pages/InventoryIntelligence.jsx:196 | the sorted list is ordered by the key and is a permutation of its input |
| Js.PositiveGuard | backend/controllers/salesDispatchController.js:41-46 | the guard `!n \|\| n <= 0` lets through exactly the finite positive numbers (NaN and 0 are falsy) |
| Js.Trim | backend/models/User.js:4-8 | the trimmed string is a contiguous slice of the input with only white space outside it and no white space at either end; white space is the ECMAScript set (the ASCII blanks, no-break space, the byte-order mark, the Unicode space separators and the line terminators) |
| Js.TrimEmptyIffBlank | backend/controllers/salesDispatchController.js:32-39 | a name trims to the empty string exactly when it is all white space, the case "Item name is required" rejects |
| Js.ToLower | backend/models/User.js:9-14 | the stored e-mail has every Basic Latin and Latin-1 upper-case letter lower-cased and every other character kept, one for one |
| Js.ToLowerIdempotent | backend/models/User.js:13 | lower-casing a stored e-mail again leaves it unchanged, so a lookup by the stored value finds it |
| Requests.FirstError | backend/controllers/grnController.js:19-32 | the loop reports the error of the first failing line and nothing exactly when every line passes |
| Requests.ScanLines | backend/controllers/grnController.js:19-32 | the loop that returns at the first refused line computes `FirstError` |
| Requests.Coerced | backend/controllers/grnController.js:29-30 | the coerced quantity is positive exactly when `Number(x)` is a positive number |
| Requests.GrnLineError | backend/controllers/grnController.js:20-31 | a line passes iff it has a name, a category and a numeric quantity above 0; every refusal is a 400 |
| Requests.GrnRequestError | backend/controllers/grnController.js:10-32 | `createGRN` refuses with 400 before any write unless poID is given, items is non-empty and every line passes |
| Requests.GrnLines | backend/controllers/grnController.js:34 | the GRN stores one line per request line with its fields and the quantity as `Number(...)` |
| Requests.AcceptedGrnLines | backend/controllers/grnController.js:19-36 | a request that passes the guards gives lines that meet the GRN schema's required fields, each with a positive quantity |
| Requests.MapLines | backend/controllers/salesDispatchController.js:31-35 | one mapped line per request line: trimmed name, coerced quantity and unit price |
| Requests.DispatchLineError | backend/controllers/salesDispatchController.js:37-47 | a mapped line passes iff its name is non-empty and its quantity and unit price are above 0 |
| Requests.DispatchHeaderError | backend/controllers/salesDispatchController.js:16-26 | the header passes iff customerID and invoiceNumber are given and items is non-empty |
| Requests.DispatchRequestError | backend/controllers/salesDispatchController.js:16-47 | `createDispatch` refuses with 400 before any inventory read unless the header passes and every line's trimmed name is non-empty and both numbers coerce to positives |
| InventoryModel.ItemViolation | backend/models/inventory.js:3-21 | an item saves iff itemCode, itemName and category are set and QCstatus is "Pass" or "Fail"; an enum failure is reported as such |
| InventoryModel.NewItemValid | backend/models/inventory.js:12-20 | a document with defaults applied has quantity 0, threshold 10, QCstatus "Pass", alcoholFlag false and both timestamps at creation, and is valid iff its three required strings are set |
| InventoryModel.InsertViolation | backend/models/inventory.js:4 | a new item is stored iff it is valid and its itemCode is not taken |
| InventoryModel.InsertKeepsValid | backend/models/inventory.js:4 | storing an accepted item keeps every item valid, the codes unique and the ids below the counter |
| InventoryModel.UpdateKeepsValid | backend/models/inventory.js:4-16 | saving a valid change to an item that keeps its id and code keeps the collection valid |
| GrnModel.NewGrn | backend/models/grn.js:3-16 | a new GRN has the request's poID and lines, QC "Check" when the request gives none, and no number yet |
| GrnModel.PreSaveProperties | backend/models/grn.js:19-24 | the hook changes only grnNumber, keeps a given number, sets the generated one when absent, and running it again changes nothing |
| GrnModel.GrnViolation | backend/models/grn.js:3-16 | a GRN saves iff poID is set, every line has name, category and quantity, QC is in its enum and grnNumber is not taken |
| DispatchModel.NewDispatch | backend/controllers/salesDispatchController.js:52-58 | the dispatch has status "Draft" unless the request gives a non-empty one, and dispatchDate the request's or now |
| DispatchModel.DispatchViolation | backend/models/salesDispatch.js:3-14 | a dispatch saves iff customerID and invoiceNumber are set, a set status is in its enum, and every line has a name |
| UserModel.NewUser | backend/controllers/authController.js:18-23 | a registered user is stored with approved false, no approver and no approval time, the name trimmed and the e-mail lower-cased |
| UserModel.UserViolation | backend/models/User.js:3-32 | a user saves iff name, email and password are set and no stored user has the e-mail |
| Receipt.RestockFields | backend/controllers/grnController.js:41-48 | a matched item gains exactly the received quantity; lot and expiry change only when given; QC status becomes the GRN's QC when truthy; nothing else changes |
| Receipt.ReceivedFields | backend/controllers/grnController.js:50-61 | a created item has the line's name, category, quantity, lot and expiry, the fresh code, threshold 10 and QC status the GRN's QC or "Pass" |
| Receipt.ReceiveLines | backend/controllers/grnController.js:39-64 | a pass applies at most all lines, and all of them when no save throws |
| Receipt.ReceiveStopsAtFailure | backend/controllers/grnController.js:39-68 | after a save throws, the later lines change nothing |
| Receipt.ReceiveLinesSnoc | backend/controllers/grnController.js:39-64 | one more line extends a pass that has not failed by exactly that line's step |
| Receipt.ReceiveLinesStep | backend/controllers/grnController.js:39-64 | the outcome of line i after i applied lines gives the pass over i+1 lines |
| Receipt.ReceiveNextIdGrows | backend/controllers/grnController.js:50-62 | the id counter never goes back |
| Receipt.ReceivePartial | backend/controllers/grnController.js:39-68 | when a save throws, the ledger left is that of the lines before it, all applied, and the failing line's save is the one that threw |
| Receipt.ReceiveFailsAtLast | backend/controllers/grnController.js:39-68 | the same, when the throw comes at the last line |
| Receipt.ReceiveLineKeepsValid | backend/controllers/grnController.js:40-62 | a line that saves keeps the inventory valid and adds at most its own code |
| Receipt.ReceiveKeepsValid | backend/controllers/grnController.js:39-64 | a whole pass, failed or not, keeps the inventory valid (codes unique, ids below the counter) |
| Receipt.ReceiveLineAtKey | backend/controllers/grnController.js:40-62 | a saved line changes the item at its own (itemName, category) only, restocking it or creating it |
| Receipt.ReceiveStock | backend/controllers/grnController.js:39-64 | after a full pass, the stock at each (itemName, category) grew by the sum of its lines, so two lines with the same pair add up |
| Receipt.ReceiveLineCount | backend/controllers/grnController.js:50-62 | one line creates an item for its pair only when none exists |
| Receipt.ReceiveCreatesOnce | backend/controllers/grnController.js:50-62 | a full pass leaves exactly one item for an unmatched pair that some line names, and leaves the count unchanged otherwise |
| Receipt.ReceiveUntouchedKey | backend/controllers/grnController.js:39-64 | an item whose pair no line names is left as it was |
| Receipt.ReceiveQcStatus | backend/controllers/grnController.js:46-48 | after a full pass, a named item's QC status is the GRN's QC when truthy, else its old status, or "Pass" for a created item |
| Receipt.ReceiveLineSucceeds | backend/controllers/grnController.js:40-62 | a complete line with a storable QC and a fresh code always saves |
| Receipt.ReceiveSucceeds | backend/controllers/grnController.js:39-64 | with valid lines, a storable QC and fresh codes, no save throws and only the issued codes are added |
| Receipt.OmittedQcSucceeds | backend/controllers/grnController.js:46-62 | a request without a QC value receives every validated line with fresh codes; new items take "Pass" |
| Receipt.RejectedQcStopsAtFirstLine | backend/controllers/grnController.js:46-49 | a QC outside "Pass" and "Fail", such as "Check", makes the first line's save throw, with nothing applied |
| Dispatch.DeductLines | backend/controllers/salesDispatchController.js:64-87 | a pass deducts at most all lines, and all of them when none is refused |
| Dispatch.DeductLinesSnoc | backend/controllers/salesDispatchController.js:64-87 | one more line extends a pass that has not been refused by exactly that line's step |
| Dispatch.DeductStopsAtFailure | backend/controllers/salesDispatchController.js:64-87 | after a refusal, the later lines change nothing |
| Dispatch.DeductPartial | backend/controllers/salesDispatchController.js:69-86 | when a line is refused, the stock left is that of the lines before it, all deducted, and the refused line is the next one |
| Dispatch.DeductFailsAtLast | backend/controllers/salesDispatchController.js:69-86 | the same, when the refusal comes at the last line |
| Dispatch.DeductShape | backend/controllers/salesDispatchController.js:65-86 | a pass changes only quantities, and only of the first item with each name |
| Dispatch.DeductKeepsValid | backend/controllers/salesDispatchController.js:85-86 | a pass keeps the inventory valid |
| Dispatch.DeductNeverNegative | backend/controllers/salesDispatchController.js:77-86 | a dispatch never makes a non-negative quantity negative |
| Dispatch.DeductLineStock | backend/controllers/salesDispatchController.js:77-86 | a deducted line lowers its own name's stock by its quantity and leaves every other name's stock as it was |
| Dispatch.DeductStock | backend/controllers/salesDispatchController.js:64-87 | after a full pass, each name's stock dropped by the total requested for it |
| Dispatch.DeductSucceedsIff | backend/controllers/salesDispatchController.js:64-87 | the pass succeeds iff every requested name exists and its stock covers all the lines that name it |
| Dispatch.DeductFailureReport | backend/controllers/salesDispatchController.js:69-83 | a refusal names the item and either finds no such item, or reports the stock still available, which is below the request |
| InventoryStore.ThresholdValue | backend/controllers/inventoryController.js:29-39 | undefined or null gives 400 "Threshold value is required"; NaN or negative gives 400; otherwise `Number(threshold)` |
| InventoryStore.Store.ReceiveOne | backend/controllers/grnController.js:40-62 | the in-place step for one line does what `Receipt.ReceiveLine` says, and changes nothing when the save throws |
| InventoryStore.Store.ReceiveAll | backend/controllers/grnController.js:39-64 | the line loop leaves the ledger and the failure of `Receipt.ReceiveLines` |
| InventoryStore.Store.CreateGrn | backend/controllers/grnController.js:5-70 | a refused request or an invalid GRN changes nothing; otherwise the GRN is stored first and the inventory is the receipt pass's, with 400 when a line throws |
| InventoryStore.Store.StoreAndReceive | backend/controllers/grnController.js:34-68 | the GRN save comes first and stays when a later inventory save throws |
| InventoryStore.Store.ReceiveGoods | backend/controllers/grnController.js:5-70 | `createGRN` on the store: as `CreateGrn`, with dispatches unchanged and the store kept valid |
| InventoryStore.Store.DeductOne | backend/controllers/salesDispatchController.js:65-86 | the in-place step for one line does what `Dispatch.DeductLine` says, and changes nothing when refused |
| InventoryStore.Store.DeductAll | backend/controllers/salesDispatchController.js:64-87 | the line loop leaves the stock and the failure of `Dispatch.DeductLines` |
| InventoryStore.Store.CreateDispatch | backend/controllers/salesDispatchController.js:9-94 | a refused request changes nothing; otherwise the inventory is the dispatch pass's, and the dispatch is stored only when no line is refused and it saves |
| InventoryStore.Store.DeductAndStore | backend/controllers/salesDispatchController.js:64-90 | the deductions happen first and stay when a line is refused or the dispatch save throws |
| InventoryStore.Store.DispatchGoods | backend/controllers/salesDispatchController.js:9-94 | `createDispatch` on the store: as `CreateDispatch`, with GRNs unchanged and the store kept valid |
| InventoryStore.Store.UpdateThreshold | backend/controllers/inventoryController.js:25-49 | a refused value changes nothing; an unknown id gives 404; otherwise only threshold and updatedAt of that item change |
| InventoryStore.Store.GetInventoryById | backend/controllers/inventoryController.js:14-22 | the item with that id, unchanged, or 404 exactly when there is none |
| InventoryStore.Store.UpdateDispatchStatus | backend/controllers/salesDispatchController.js:115-133 | 404 for an unknown id; otherwise only that dispatch's status changes (500 when not in the enum), and no inventory |
| InventoryStore.Store.UpdateGrnStatus | backend/controllers/grnController.js:83-95 | 404 for an unknown id; otherwise only that GRN's updatedAt changes |
| Auth.Pending | backend/controllers/authController.js:72-81 | the listing has one entry, without hash, per user whose approved is false, and nothing else, newest first |
| Auth.Approved | backend/controllers/authController.js:84-94 | the listing has one entry, without hash, per approved user, and nothing else, most recently approved first with undated approvals last |
| Auth.RegisteredIsPending | backend/controllers/authController.js:18-23 | a newly registered user is listed as pending and not as approved |
| Auth.ApprovalMovesUser | backend/controllers/authController.js:118-122 | an approved user is listed as approved and no longer as pending |
| Auth.RejectedIsGone | backend/controllers/authController.js:152 | a deleted user is found by no lookup and listed nowhere |
| Auth.RemoveKeepsValid | backend/controllers/authController.js:152 | deleting a user keeps ids and e-mails unique |
| Auth.UserTable.Register | backend/controllers/authController.js:6-32 | an existing e-mail gives 400 and adds no user; otherwise one pending user is appended, or the create throws and nothing changes |
| Auth.UserTable.Login | backend/controllers/authController.js:35-59 | an unknown e-mail gives 404; otherwise the user is approved if it was not, and then a matching password gives the user, a wrong one 400, and a comparison that throws (no password given) 500 |
| Auth.UserTable.ApproveUser | backend/controllers/authController.js:97-137 | 403 unless the approver exists and is approved, 404 for a missing target, 400 if already approved; otherwise only the target changes, with approved, approver and approval time set |
| Auth.UserTable.RejectUser | backend/controllers/authController.js:140-168 | the same 403 check, 404 for a missing target; otherwise exactly the target is removed, whatever its approval |
| Dashboard.RiskColor | frontend/src/pages/InventoryIntelligence.jsx:58-64 | red exactly up to 7 days (past expiry included), orange for 8 to 30, green beyond or without a date |
| Dashboard.RiskLabel | frontend/src/pages/InventoryIntelligence.jsx:548-558 | "Expired" below 0, "Critical" up to 7, "Warning" up to 30, "Safe" beyond or without a date |
| Dashboard.RiskViewsAgree | frontend/src/pages/InventoryIntelligence.jsx:526-558 | the label, the colour and the row shading always agree |
| Dashboard.DisplayName | frontend/src/pages/InventoryIntelligence.jsx:143 | the shown name is never empty: the first 20 characters (Unicode scalar values) of the item name when there is one, else the item code when there is one, else "Unknown" |
| Dashboard.CategoryNamesDistinct | frontend/src/pages/InventoryIntelligence.jsx:124-137 | stock by category has one entry per category |
| Dashboard.CategoryTotals | frontend/src/pages/InventoryIntelligence.jsx:124-137 | each category's value is the sum of its items' quantities, and a category named after an `Object.prototype` member has none |
| Dashboard.CategoryPresent | frontend/src/pages/InventoryIntelligence.jsx:124-137 | a category has an entry iff it is not an `Object.prototype` member name and some item has it, a missing category counting as "Other" |
| Dashboard.CategoryTotalsCoverStock | frontend/src/pages/InventoryIntelligence.jsx:124-137 | the category values add up to the total stock less the stock in categories named after `Object.prototype` members |
| Dashboard.ConstructorCategoryDropped | frontend/src/pages/InventoryIntelligence.jsx:123-134 | an item in category "constructor" gets no slice, so its stock is missing from the chart |
| Dashboard.SafetyBreaches | frontend/src/pages/InventoryIntelligence.jsx:183-196 | one entry per breaching item, with its effective threshold, and nothing else, fewest units first |
| Dashboard.BreachListedIff | frontend/src/pages/InventoryIntelligence.jsx:185-195 | an item is listed iff its quantity is below `threshold \|\| 10`, so a zero threshold acts as 10 |
| Dashboard.ExpiryTimeline | frontend/src/pages/InventoryIntelligence.jsx:152-165 | the first 15 points (all when fewer), each from an item with an expiry date and no point more often than the items give it, soonest first; an item left out expires no sooner than the last one shown |
| Dashboard.BatchAging | frontend/src/pages/InventoryIntelligence.jsx:140-149 | the first 10 bars (all when fewer), each from an item with a batch or a creation date and no bar more often than the items give it, oldest first; an item left out is no older than the last one shown |
| Dashboard.CriticalInsights | frontend/src/pages/InventoryIntelligence.jsx:202-211 | exactly one insight per breach among the first five with daysLeft at most 14, in breach order |
| Dashboard.ExpiryInsights | frontend/src/pages/InventoryIntelligence.jsx:214-224 | exactly the first 3 timeline points expiring within 1 to 30 days, in timeline order; hence each is justified by such a point, and every such point has one unless 3 are shown |
| Dashboard.Insights | frontend/src/pages/InventoryIntelligence.jsx:199-224 | at most 8; the critical insights, then the first 3 timeline points expiring within a month; each is justified as above |
| Dashboard.RiskTable | frontend/src/pages/InventoryIntelligence.jsx:501-520 | at most 20 rows, each an item's row and no row more often than the items give it; dated rows soonest first and rows without a date last; every item's row is shown unless the table is full, and a dated item left out expires no sooner than the 20th row |
| Dashboard.RiskTableTop | frontend/src/pages/InventoryIntelligence.jsx:501-520 | an item left out of the sorted table leaves it full, and if it has an expiry date the 20th row expires no later |
| Dashboard.ProcessedData | frontend/src/pages/InventoryIntelligence.jsx:120-233 | nothing for an empty inventory; otherwise the category totals, the batch ages, the expiry timeline and the breaches of these entries, and the insights drawn from the breaches and the timeline shown beside them |
| Scenarios.CapLinerReceipt | backend/controllers/grnController.js:50-62 | receiving 50 "CapLiner" with QC "Pass" into an empty inventory creates one item with quantity 50 and QC "Pass" |
| Scenarios.BottleDispatched | backend/controllers/salesDispatchController.js:64-90 | dispatching 30 of 100 bottles leaves 70 and stores the dispatch as "Draft" |
| Scenarios.BottleShort | backend/controllers/salesDispatchController.js:77-83 | requesting 20 of 10 bottles is refused naming the item with 10 available, and the stock stays 10 |

## Left out

- HTTP plumbing: routing, status codes as sent, JSON bodies, CORS and server start-up. A handler's answer is a `Result`, and `Status` gives the code.
- The document store's engine. Collections are sequences in storage order, `findOne` is the first match, and `save` checks the required fields, the enums and the unique keys. `populate`, `select` and the store's query casting are out of scope, except the `lowercase` setter applied to the e-mail filter of `findOne` (`Auth.EmailIs`) and the listings dropping the password hash.
- bcrypt and JWT. The stored hash and the outcome of the password comparison (match, mismatch, or a throw for a missing password) are parameters, and no token is issued. A missing password makes `bcrypt.hash` throw; the model reports it through the required-field check with the same 500.
- The random and time-based codes (`Date.now()`, `Math.random()`). They are parameters, and freshness is a hypothesis of the lemmas that need it. The SKU written in `createGRN` is dropped, because the schema's SKU field is commented out and strict mode discards it.
- Floating point: quantities, prices and thresholds are integers. `Number` of a fractional string, `toFixed`, and the dashboard's consumption rates (`calculateDaysOfStockLeft`) are out of scope. `daysLeft` is an input.
- Date arithmetic: `getDaysUntilExpiry` and `getBatchAge` give integer day counts, which are inputs.
- The category averages and `getSafetyStockThreshold` in InventoryIntelligence.jsx. They are computed but never used.
- The display-only chips of the page (the days-left colouring of the breach list and of the table).
- Concurrency. Requests run one after another; the read-then-write race between two requests is not modelled.
- The cast errors a malformed id or a non-string field raises (a 500 or a 400 from the catch), and `item.itemName?.trim()` on a non-string.
- The listing endpoints (`getGRNs`, `getDispatches`, the inventory list, `getProfile`) and every other controller. They are single store calls.
- Js.ToLower: lower-cases only Basic Latin and Latin-1 letters. JavaScript's `toLowerCase` follows the full Unicode case mapping, which also folds Greek, Cyrillic and other scripts and can lengthen a string ("İ" becomes two code units); that mapping is not modelled.
- Js.ToLowerIdempotent: proved for the Latin-1 folding above, not for the full Unicode mapping.
- UserModel.NewUser: the stored e-mail keeps the input's length only under the Latin-1 folding; with the full Unicode mapping it may be longer.
- Dashboard.DisplayName: `substring(0, 20)` counts UTF-16 code units, while the model cuts at 20 Unicode scalar values. A name with characters outside the Basic Multilingual Plane (emoji, say) is cut later in the model than on the page, and a cut that splits a surrogate pair cannot be represented.
- Dashboard.ProcessedData: the names in the batch-aging bars and the expiry points inherit the character-count cut of `Dashboard.DisplayName` above.
- Dashboard.ExpiryTimeline: each point on the page also carries the item's `expiryDate`, which is display-only and not part of `ExpiryPoint`.
- Common.SortBy: the contract does not state stability. The insertion order it keeps for equal keys is the one JavaScript's stable sort keeps, but only sortedness and permutation are proved.
- Auth.Approved: users approved without an approval time come last, in storage order; the store's own order for equal or missing sort keys is not modelled beyond that.
- JavaScript object key order in the category totals: categories appear in order of first occurrence, which is the order `Object.values` gives for non-numeric keys.
