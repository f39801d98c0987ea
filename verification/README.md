# Stock import reconciliation and restock scheduling — a Dafny model

This project models the data-handling core of the stock module's Vuex actions
in `src/store/modules/stock/actions.ts`. That module belongs to a
warehouse application. It imports stock-count and restock files, matches their
rows against a product cache and a facility directory, and schedules the
restock job.

The asynchronous actions mutate their rows in place. Here they become pure
functions. Each store dispatch, getter or service response becomes an
argument, and each in-place row mutation becomes a function that returns new
rows:

- `Facilities`: builds the external-id → facility-id map from the facility
  directory. It also computes the distinct external ids of the rows and the
  resolved `facilityIds`. Both import actions do this.
- `StockImport`: `processUpdateStockItems`. It builds the product query from
  the first `VUE_APP_VIEW_SIZE` rows. It attaches each row's default location
  and joins the rows against the product cache. The results are `parsed`,
  `original` and `initial`.
- `RestockImport`: `processUpdateRestockItems`. It does the same join, keyed on
  the `product` column, and also copies `productId`.
- `MissingFacilities`: `updateMissingFacilities`. It rewrites the rows whose
  external facility id the user has mapped to a facility.
- `Scheduling`: `fetchDraftJob` aliasing and the payload built by
  `scheduleService`.
- `Seqs`, `Records`, `JsValues` and `Wrappers` hold the shared vocabulary:
  - order-preserving subsequences, `filter`, counting, and `[...new Set(xs)]`;
  - the row, product and facility records;
  - JavaScript values, truthiness and `toString`;
  - `Option` and `Result`.

Representation choices:
- A JavaScript field that may be missing is an `Option`. Assigning `undefined`
  to it gives `None`.
- A file column that is absent is `""`. Both are falsy. "## Left out" names the two places where the code tells them apart.
- `VUE_APP_VIEW_SIZE` is an `Option<int>` with `Array.prototype.slice`
  semantics. An unset value takes every row. A negative value counts back from
  the end. A non-numeric setting converts to `Some(0)`.
- The mapping object passed to `updateMissingFacilities` is its list of entries
  in `Object.keys` order.

Behaviours of the code worth noting:
- `parsed` receives every row, matched or not (actions.ts:49). It holds the same
  objects as `items`, so it also shows the product fields written afterwards.
- `original` is a JSON copy taken after the enrichment (actions.ts:62). It is
  not a copy of the raw input. In the model it equals `parsed`.
- `facilityIds` can contain the same facility twice when two external ids map
  to it (`Facilities.FacilityIdsMayRepeat`).
- `...params` is spread before the priority, scheduled-time and `sinceId`
  assignments. Those three therefore override caller parameters.
- The stock import looks up locations under the row's external facility id.
  See Findings.

## Model

| member | source | states |
|---|---|---|
| `Seqs.Distinct` | src/store/modules/stock/actions.ts:23 | `[...new Set(xs)]` holds each value of `xs` exactly once, nothing else, in the order of first occurrence |
| `Seqs.Filter` | src/store/modules/stock/actions.ts:60 | `filter` returns an order-preserving subsequence of kept elements, as many as there are kept elements, missing none |
| `Seqs.FilterUnique` | src/store/modules/stock/actions.ts:45-60 | any order-preserving subsequence made of kept elements and as long as the kept count IS the filter, so the `initial` contracts below fix `initial` exactly |
| `Seqs.FilterMapped` | src/store/modules/stock/actions.ts:239-243 | rewriting every element in a way that never changes the filter's verdict rewrites the filtered sequence element by element, so a filtered list of shared objects follows an in-place rewrite of its source |
| `Seqs.FilterNoDuplicates` | src/store/modules/stock/actions.ts:29-31 | filtering keeps distinct kept elements distinct |
| `Records.WithProduct` | src/store/modules/stock/actions.ts:52-56 | a matched row shows the product's parent id and name, pseudo id and main image, and is selected; imported columns, facility, location and product id are untouched |
| `Facilities.FacilityMapping` | src/store/modules/stock/actions.ts:25-28 | every facility with a truthy external id gets a key; every key is a truthy external id mapped to the id of a facility carrying it; for a repeated external id the last facility in the list wins |
| `Facilities.ExternalFacilityIds` | src/store/modules/stock/actions.ts:23 | the external-id list has no duplicates, holds exactly the rows' external ids, and follows their first occurrence in the rows |
| `Facilities.FacilityIds` | src/store/modules/stock/actions.ts:29-31 | resolved ids are the truthy mapped values in external-id order, one for every distinct external id that resolves, so a facility appears once per external id mapped to it |
| `Facilities.FacilityIdsResolve` | src/store/modules/stock/actions.ts:29-31 | an id is resolved exactly when it is non-empty and some row's external id maps to it |
| `Facilities.FacilityIdsFromDirectory` | src/store/modules/stock/actions.ts:25-31 | every resolved id is the facility id of a directory entry that has an external id |
| `Facilities.FacilityIdsDistinct` | src/store/modules/stock/actions.ts:25-31 | when distinct external ids never share a facility id, the resolved ids are duplicate-free |
| `Facilities.FacilityIdsMayRepeat` | src/store/modules/stock/actions.ts:29-31 | two external ids mapped to one facility yield that facility twice |
| `StockImport.StockQuery` | src/store/modules/stock/actions.ts:19-42 | product ids are the identifications of the first min(viewSize, rows) rows, or of all rows when the size is unset; `viewSize` is their number, `viewIndex` 0, and the identification type is the first row's, or none for an empty import |
| `StockImport.EnrichStockRow` | src/store/modules/stock/actions.ts:46-58 | one row gets the given location; it gets the product fields exactly when its identification is in the cache; everything else is kept |
| `StockImport.Reconcile` | src/store/modules/stock/actions.ts:44-62 | `parsed` has every row in input order, each with its location and, if matched, its product's fields; unmatched rows keep their product fields; `original` equals `parsed`; `initial` is the order-preserving subsequence of exactly the matched rows, all selected |
| `StockImport.ProcessStockItems` | src/store/modules/stock/actions.ts:15-65 | the import as written: query as above, facility ids as resolved, and each row's location looked up under its external facility id |
| `StockImport.ProcessStockItemsByFacility` | src/store/modules/stock/actions.ts:47 | the import with each row's location looked up under the facility id its external id resolves to; unset when the external id is unmapped |
| `StockImport.ExternalKeyMissesLocation` | src/store/modules/stock/actions.ts:47 | with the directory mapping EXT1 to FAC1 and locations stored under FAC1, the row is matched but gets no location |
| `StockImport.FacilityKeyFindsLocation` | src/store/modules/stock/actions.ts:47 | keyed by the resolved facility, the same row gets LOC1 |
| `StockImport.EmptyCacheSelectsNothing` | src/store/modules/stock/actions.ts:44-60 | with an empty product cache, `initial` is empty and each parsed row is its input row with only the location rewritten |
| `RestockImport.RestockQueryOf` | src/store/modules/stock/actions.ts:74-79 | product ids are the truthy `product` values in row order, every one of them included; the type is the first row's |
| `RestockImport.EnrichRestockRow` | src/store/modules/stock/actions.ts:90-102 | a matched row gains the product fields, `productId` and selection; an unmatched row is unchanged |
| `RestockImport.ProcessRestockItems` | src/store/modules/stock/actions.ts:72-106 | the rows are enriched as above and kept in order; `initial` is the order-preserving subsequence of exactly the matched rows, each selected and carrying its product's `productId` |
| `MissingFacilities.UpdateMissingFacilities` | src/store/modules/stock/actions.ts:235-248 | row count and order are kept; only facility, location and external id change; rows whose external id is no key are untouched; each row ends as its own key-by-key patch, taken up to the first key without locations; it fails exactly when some mapped facility has no location list, at the first such key |
| `MissingFacilities.FailureKeepsEarlierPatches` | src/store/modules/stock/actions.ts:237-243 | when the action throws at the first key without locations, it reports that key and the rows keep every rewrite of the keys before it |
| `MissingFacilities.UpdateMissingFacilitiesInBatch` | src/store/modules/stock/actions.ts:235-248 | on `state.items`, `parsed` is patched as above, each `initial` row, being the same object as a `parsed` row, is patched exactly as that row is, and the JSON copy `original` is unchanged |
| `MissingFacilities.PatchKeepsInitialMatched` | src/store/modules/stock/actions.ts:239-247 | an `initial` that held exactly the cache-matched rows of `parsed` still does after the patch, even when the action throws |
| `MissingFacilities.UnkeyedRowUntouched` | src/store/modules/stock/actions.ts:240 | a row whose external id is no key is not rewritten |
| `MissingFacilities.BlankRowTakesEmptyKey` | src/store/modules/stock/actions.ts:237-246 | with distinct keys and locations for all, a row with a blank external id ends with the facility and default location chosen for the key `""` |
| `MissingFacilities.KeyedRowOutcome` | src/store/modules/stock/actions.ts:237-246 | a row carrying key `k` ends with `k`'s facility when no later key is `""`, and with the facility of the key `""` when that key comes after `k` |
| `MissingFacilities.EmptyKeyRepatchesEarlierRows` | src/store/modules/stock/actions.ts:237-246 | with distinct keys, locations for all and the key `""` at position `e`: rows whose external id is `""` or a key before `e` end with `e`'s facility; rows whose key comes after `e` end with their own key's facility |
| `MissingFacilities.PatchedRows` | src/store/modules/stock/actions.ts:237-246 | with distinct non-empty keys and locations for all, a row whose external id is a key gets that key's facility, the first location or `''`, and a blank external id |
| `MissingFacilities.EmptyKeyRepatches` | src/store/modules/stock/actions.ts:237-246 | a later key `""` re-patches a row an earlier key has just blanked |
| `Scheduling.DraftJob` | src/store/modules/stock/actions.ts:183-204 | a failed or empty query gives `{}`; otherwise the first document with `status`, `enumId`, `frequency` and `id` aliasing `statusId`, `systemJobEnumId`, `tempExprId` and `jobId`, all other properties kept |
| `Scheduling.SchedulePayload` | src/store/modules/stock/actions.ts:123-151 | no payload without a truthy `jobId`, or without a scheduled time; otherwise the keys are the literal ones, the params and the later assignments; the later assignments win over params, and params win over literals |
| `Scheduling.ScheduleService` | src/store/modules/stock/actions.ts:118-151 | as written: fails exactly without a job id or scheduled time; the recurrence sent is the job's `jobStatus`; `JOB_NAME` is the fallback chain unless params override it |
| `Scheduling.ScheduleServiceWithFrequency` | src/store/modules/stock/actions.ts:132-136 | the same payload with the recurrence read from the draft's `frequency` alias |
| `Scheduling.JobNameFallback` | src/store/modules/stock/actions.ts:129 | the job name is the explicit name if truthy, else the state's name if truthy, else a truthy `Created …` default |
| `Scheduling.NoDraftJobAborts` | src/store/modules/stock/actions.ts:121-126 | a failed or empty draft-job query makes scheduling stop with "configuration missing", whichever way the recurrence is read |
| `Scheduling.DraftJobWithIdSchedules` | src/store/modules/stock/actions.ts:186-195 | a draft document with a truthy `jobId` passes the guard when a time is set, whichever way the recurrence is read |
| `Scheduling.NoJobStatusInDraft` | src/store/modules/stock/actions.ts:177 | a document restricted to the query's field list has no `jobStatus` |
| `Scheduling.RecurrenceInPayload` | src/store/modules/stock/actions.ts:128-147 | without params, the recurrence appears as `SERVICE_TEMP_EXPR` and as `jobFields.tempExprId` |
| `Scheduling.RecurrenceLostAsWritten` | src/store/modules/stock/actions.ts:132-136 | for any draft document the payload as written sends `undefined` as the recurrence in both places |
| `Scheduling.RecurrenceKeptWithFrequency` | src/store/modules/stock/actions.ts:132-136 | read from `frequency`, the payload sends the draft's `tempExprId` in both places |

## Left out

- Vuex plumbing (`commit`, `dispatch`, `rootGetters`, `this.state`) and `async`/`await`: fetched results and store state are arguments, and committed values are results.
- The product fetch, facility fetch and location fetch are not modelled. Their results are inputs.
- The stock import starts the location fetch without awaiting it (actions.ts:32). The model takes the location table as the getter sees it, so the race between that fetch and the lookup is not modelled.
- `StockService.scheduleJob`, `fetchJobInformation`, `hasError`, response-status checks, `showToast`, `translate`, `logger` and `router`: I/O and notifications. `DraftJob` receives the query's outcome as `JobQueryResponse`.
- `DateTime.now().toLocaleString(...)` is clock- and locale-dependent. It is the opaque `createdStamp` argument.
- `JSON.parse(JSON.stringify(items))` serialisation is not modelled. `original` is a value copy, and a field holding `undefined`, which JSON drops, is already `None`.
- `processUpdateRestockItems` also computes `facilityIds` (actions.ts:81-87) but never uses them. The computation is the one `Facilities.FacilityIds` models, so it is not repeated.
- `fetchJobs`, `updateStockItems`, `clearStockItems`, `clearRetockItems`, `scheduledStock` and `shopifyShop` only commit a value or make a network call.
- `src/store/modules/user/mutation-types.ts` holds only string constants.
- JavaScript object-key quirks are not modelled: prototype properties, `"undefined"` as a key for a missing field, and integer-like keys that `Object.keys` lists first. The mapping entries are taken in the order given.
- `Scheduling.SchedulePayload`: `null` values, and the exceptions from reading `this.state.user.current` when no user is loaded, are not modelled.
- An absent `externalFacilityId` is modelled as `""`. That is exact where the code only tests truthiness. It is not exact in two places. `new Set` (actions.ts:23) keeps `undefined` and `""` as two different entries, and the model merges them. The strict comparison at actions.ts:240 never matches a row with no `externalFacilityId` against a key `""`, but the model's `""` row does match.
- `JsValues.ToText`: numbers are integers. Floating-point formatting and `NaN` are not modelled.

## Findings

| source | as written | input that shows it | evidently intended | confidence | as-written member | corrected member |
|---|---|---|---|---|---|---|
| src/store/modules/stock/actions.ts:47 | the default location is looked up under the row's external facility id | directory `[{facilityId: FAC1, externalId: EXT1}]`, locations `{FAC1: [{locationSeqId: LOC1}]}`, row `{identification: P1, externalFacilityId: EXT1}`, product P1 cached: the row gets no location | look up under the facility id the external id resolves to. The locations were fetched for those ids (actions.ts:32), and `updateMissingFacilities` indexes them that way (actions.ts:238) | medium, not executed | `StockImport.ProcessStockItems`, shown by `StockImport.ExternalKeyMissesLocation` | `StockImport.ProcessStockItemsByFacility`, proved by `StockImport.FacilityKeyFindsLocation` |
| src/store/modules/stock/actions.ts:132-136 | `SERVICE_TEMP_EXPR` and `jobFields.tempExprId` read `job.jobStatus` | draft document `{jobId: J1, tempExprId: DAILY}`, no params: both are sent as `undefined`. `fetchDraftJob` never sets `jobStatus`, and the query's field list does not request it | send the draft's recurrence, which `fetchDraftJob` exposes as `frequency`. The comment at actions.ts:136 says the frequency is passed in `SERVICE_TEMP_EXPR` | medium, not executed | `Scheduling.ScheduleService`, shown by `Scheduling.RecurrenceLostAsWritten` | `Scheduling.ScheduleServiceWithFrequency`, proved by `Scheduling.RecurrenceKeptWithFrequency` |
