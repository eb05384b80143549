# A verified model of the order, catalogue and messaging core

The repository is a multi-tenant order-management service: orders reserve shared stock, catalogues
are imported from spreadsheets under a lease, demo-lead notifications are delivered with bounded
retries, operators send replies, and orders get totals and payments. This project models that core in
Dafny and proves what it is for.

`dafny verify dfyconfig.toml` checks everything.

## Components

| files | what they model |
|---|---|
| `ProcurementContract`, `ProcurementModel`, `ProcurementProofs`, `ProcurementRuns`, `ProcurementBacking`, `ProcurementWitnesses`, `ProcurementStore` | the reservation ledger: assess, set status, release and hand off over orders that share products. `ProcurementModel` gives each transaction a reference meaning, `ProcurementStore` is the store step by step, `ProcurementRuns` is about whole runs, `ProcurementBacking` about items in stock without a reservation, with a concrete shop in `ProcurementWitnesses` |
| `SourceLease`, `CatalogueImports` | the lease of a Google catalogue source: claims, heartbeats, fenced commits, completions, failures, previews, remappings and edits in any order |
| `LeasedImports` | the lease and the products together: which imports make the catalogue on every interleaving |
| `Texts`, `LocaleNumbers`, `CatalogueRows`, `CataloguePlans`, `CatalogueUpserts`, `CatalogueStore` | the import engine: cells to rows, rows to a plan without duplicate SKUs, a plan to products |
| `LeadNotifications`, `LeadNotificationRuns`, `LeadNotificationStore` | delivery of demo-lead notifications, with a failure report whose read and write are separate steps |
| `ZipDirectory`, `ZipWriter`, `ZipPreflight` | the preflight of an uploaded workbook against sections 4.3.12 and 4.3.16 of the .ZIP File Format Specification (APPNOTE.TXT) |
| `SheetHeaders` | header disambiguation and column names of Google Sheets |
| `Replies`, `ReplyStore` | sending replies: idempotency keys, drafts that are used once, the limit per minute |
| `ConversationPages` | keyset pagination of conversations |
| `Money`, `OrderPayments`, `CommercialTerms` | amounts as texts, payment summaries, order totals |
| `Options`, `Tables`, `MapSums`, `SeqSums` | optional values, rows by key, and sums in any order |

How the model is built:

- Every database transaction is one atomic step over maps of rows. A transaction that throws leaves
  every row as it was. The exceptions are `claim` and `markFailed` of the notification store,
  whose read and update are two steps in the code and two steps here.
- Stateful code is a class whose methods change the rows in the order the source does, with loops where
  the source or its SQL iterates; each method's `ensures` gives its result and the whole new state by a
  function of the old state, and the theorems are about those functions and about runs of them.
- Clocks, random ids, and answers of other systems are parameters. Random ids are fresh where a
  property needs it: lead leases and message ids. The source lease needs no fresh ids, because its
  version already tells claims apart.
- The ratio check of the preflight divides two integers below 2^32 as doubles. The quotient exceeds
  1000 exactly when the numerator exceeds 1000 times the denominator, because a quotient above 1000 is
  above it by at least 2^-32, far more than a double's spacing there; the model compares products.

Findings, each with a lemma:

- The coupling of reservations and item statuses goes one way only. That every item in stock of an order
  not yet handed off has an ACTIVE reservation survives a step exactly when the step does not release such
  an order with an item in stock (`ProcurementBacking.StaysBackedIff`, over runs
  `ProcurementBacking.BackedThroughoutIff`). Cancelling an order releases it, and a hand-off asks neither for
  approval nor for reservations: a released order that was ready can still be handed off and takes nothing
  from stock (`ProcurementBacking.ReleasedOrderTakesNothing`). In general a hand-off falls short of the
  quantities in stock by exactly those that nothing is reserved for (`ProcurementBacking.HandOffFallsShort`).
  `ProcurementWitnesses.ShopGoesWrong` runs one small shop into this.
- Assessing an order that was handed off writes a cached summary as if it had not been; the summary is
  right afterwards exactly when the order had not been handed off (`ProcurementRuns.AssessCaches`). The same
  shop runs into this too (`ProcurementWitnesses.ShopGoesWrong`).
- The shipment gate lets an approved order without items through although its summary is not READY, and
  this is the only disagreement (`ProcurementContract.ReadinessMatchesSummary`).
- An archive comment can hide the real end record of a workbook
  (`ZipWriter.CommentHidesTheEnd`, `ZipWriter.EmptyArchiveIsHidden`); the end record that was written is
  found exactly when no later one is in range (`ZipWriter.WrittenEndIsFound`).
- A whole number printed with group marks, and no decimal mark, reads back as itself exactly when it has no
  group mark after all, or is zero with a single one that digits follow
  (`LocaleNumbers.GroupedWholeRoundTrips`); it is read at all exactly when it has none or such a single one
  (`LocaleNumbers.GroupedWholeReadsIff`). So `1,234` is read as 1.234, `1,234,567` not at all, and `0,000` as
  0 (`LocaleNumbers.GroupedExample`, `TwoGroupsExample`, `ZeroExample`).
- An order for nothing counts as unpaid rather than paid (`OrderPayments.NothingExpectedIsUnpaid`), and
  an order without lines is READY with no currency (`CommercialTerms.EmptyOrderIsReady`).

## Model

| member | source | states |
|---|---|---|
| ProcurementContract.SummaryMeaning | packages/contracts/src/procurement.ts:89-110 | what each summary says about the statuses of an order, in both directions |
| ProcurementContract.SummaryIgnoresOrder | packages/contracts/src/procurement.ts:89-110 | orders whose items show the same statuses have the same summary, whatever the order or number of items |
| ProcurementContract.ReadinessMatchesSummary | apps/api/src/delivery/delivery.service.ts:563-571 | shipping is allowed exactly when the order is approved and its summary is READY, except for an approved order without items |
| ProcurementStore.Store.SumActive | packages/database/src/procurement-store.ts:99-108 | the totals by product are the sums over all ACTIVE reservations |
| ProcurementStore.Store.DecideItem | packages/database/src/procurement-store.ts:112-155 | one turn of the loop decides as the reference meaning does, from the running totals |
| ProcurementStore.Store.AssessItems | packages/database/src/procurement-store.ts:106-176 | the greedy loop over running totals writes what the reference meaning says, item by item, and stops where a reservation is refused |
| ProcurementStore.Store.AssessApprovedOrder | packages/database/src/procurement-store.ts:62-203 | the whole transaction: new rows and returned assessment are those of the reference meaning, and an error changes no row |
| ProcurementProofs.AssessMeaning | packages/database/src/procurement-store.ts:112-176 | an item ends IN_STOCK with an ACTIVE reservation of its quantity exactly when its active product has a known stock that covers what other orders hold, what earlier items of the order got, and the item |
| ProcurementProofs.AssessTwice | packages/database/src/procurement-store.ts:62-203 | assessing again right away repeats every decision and reservation; only decision times move |
| ProcurementProofs.AssessKeeps | packages/database/src/procurement-store.ts:62-203 | an assessment keeps no overselling, the coupling with item statuses, and the keys |
| ProcurementStore.Store.ReleaseOrderReservations | packages/database/src/procurement-store.ts:205-233 | exactly the order's ACTIVE reservations become RELEASED |
| ProcurementProofs.ReleaseKeeps | packages/database/src/procurement-store.ts:205-233 | a release keeps the invariants |
| ProcurementStore.Store.SumHeldByOthers | packages/database/src/procurement-store.ts:269-278 | the sum over the ACTIVE reservations of a product that serve other items |
| ProcurementStore.Store.SetItemStatus | packages/database/src/procurement-store.ts:235-346 | every branch of a manual status change with its rows, cached summary and errors |
| ProcurementProofs.SetStatusKeeps | packages/database/src/procurement-store.ts:235-346 | a manual status change keeps the invariants |
| ProcurementStore.Store.GroupByProduct | packages/database/src/procurement-store.ts:377-383 | the grouped quantities are the sums of the order's ACTIVE reservations by product |
| ProcurementStore.Store.DecrementStock | packages/database/src/procurement-store.ts:384-389 | every stock goes down by its grouped quantity and no other product changes |
| ProcurementStore.Store.HandOffOrder | packages/database/src/procurement-store.ts:348-412 | the grouped decrement takes stock as if each reservation were taken out by itself; a repeat returns the first time and changes nothing |
| ProcurementProofs.HandOffTakes | packages/database/src/procurement-store.ts:366-396 | a hand-off takes from every stock exactly what the order's ACTIVE reservations held of it |
| ProcurementProofs.HandOffKeeps | packages/database/src/procurement-store.ts:348-412 | a hand-off keeps the invariants, and no stock turns negative |
| ProcurementRuns.NeverOversold | packages/database/src/procurement-store.ts:91-148 | on every run of the four transactions ACTIVE totals stay within stock, nothing is reserved from unknown stock, and no stock is negative |
| ProcurementRuns.NothingReservedIsGood | packages/database/src/procurement-store.ts:99-108 | a shop with nothing reserved satisfies the invariants, so the runs below start somewhere |
| ProcurementRuns.ActiveMeansInStock | packages/database/src/procurement-store.ts:127-148 | on every run an ACTIVE reservation serves an item that is IN_STOCK, at its quantity |
| ProcurementBacking.StaysBackedIff | packages/database/src/procurement-store.ts:205-233 | items in stock of orders not handed off keep their reservations over a step exactly when it is no release of such an order with an item in stock |
| ProcurementBacking.BackedThroughoutIff | packages/database/src/procurement-store.ts:205-233 | they keep them throughout a run exactly when the run has no such release |
| ProcurementBacking.EndsBacked | packages/database/src/procurement-store.ts:62-412 | a run without such a release ends with every item in stock backed |
| ProcurementBacking.HandOffFallsShort | packages/database/src/procurement-store.ts:363-389 | a hand-off takes, over all products, the quantity of its items in stock less that of those without an ACTIVE reservation |
| ProcurementBacking.BackedHandOffTakesAll | packages/database/src/procurement-store.ts:363-389 | where items in stock are backed, a hand-off takes the full quantity of each |
| ProcurementBacking.ReleasedOrderTakesNothing | packages/database/src/procurement-store.ts:353-369 | a released order that was ready is still handed off, and takes nothing from any stock |
| ProcurementWitnesses.ReleasedOrderShips | packages/database/src/procurement-store.ts:205-412 | an approved order of one item, with enough stock and nothing reserved, is assessed, released and handed off with its stock complete |
| ProcurementWitnesses.ReassessedOrderMisleads | packages/database/src/procurement-store.ts:178-182 | the same order assessed, handed off and assessed again has a wrong cached summary |
| ProcurementWitnesses.ShopGoesWrong | packages/database/src/procurement-store.ts:62-412 | both happen in a concrete shop |
| ProcurementRuns.StockIsConserved | packages/database/src/procurement-store.ts:366-396 | over any run a product loses exactly what the hand-offs took |
| ProcurementRuns.HandedOffAtMostOnce | packages/database/src/procurement-store.ts:359-362 | over any run an order takes stock at most once; its hand-off time stays, and handing off again changes nothing |
| ProcurementRuns.AssessCaches | packages/database/src/procurement-store.ts:178-182 | after an assessment the cached summary is right exactly when the order was not handed off |
| ProcurementRuns.SummariesStayRight | packages/database/src/procurement-store.ts:329-343 | on runs that never assess a handed-off order every cached summary is that of the current statuses |
| CatalogueImports.Service.ClaimSource | apps/api/src/catalogue-import/catalogue-import.service.ts:364-373 | a claim succeeds exactly when the version matches and the lease is free, and takes the next version |
| CatalogueImports.Service.ClaimConfirmation | apps/api/src/catalogue-import/catalogue-import.service.ts:338-381 | a preview is claimed exactly when it is ready, of the current version, and the lease is free; each refusal changes nothing |
| CatalogueImports.Service.ClaimSynchronization | apps/api/src/catalogue-import/catalogue-import.service.ts:364-373 | another claimant under the same contract succeeds exactly when the lease is free |
| CatalogueImports.Service.Heartbeat | apps/api/src/catalogue-import/catalogue-import.service.ts:308-326 | a heartbeat renews an owned lease or notices that it is lost |
| CatalogueImports.Service.OpenProductTransaction | packages/database/src/catalogue-import-engine.ts:154-167 | the product transaction opens exactly for the current, unexpired holder whose heartbeat has not failed |
| CatalogueImports.Service.CommitProducts | packages/database/src/catalogue-import-engine.ts:169-186 | products commit exactly when the lease is still owned and unexpired at the fence |
| CatalogueImports.Service.CompleteConfirmation | apps/api/src/catalogue-import/catalogue-import.service.ts:383-412 | lease and run are completed together or not at all |
| CatalogueImports.Service.FailConfirmation | apps/api/src/catalogue-import/catalogue-import.service.ts:280-295 | a failure fails its own run and clears its own lease, never a successor's |
| CatalogueImports.Service.UpdateMapping | apps/api/src/catalogue-import/catalogue-import.service.ts:158-203 | a run that waits gets ready for confirmation at the version it had |
| CatalogueImports.Service.UpdateSource | apps/api/src/catalogue-sources/catalogue-sources.service.ts:67-88 | an edit moves the version on exactly when no lease is live |
| SourceLease.ApplyKeeps | apps/api/src/catalogue-import/catalogue-import.service.ts:253-412 | every step keeps the order of committed versions and that completed runs were committed |
| SourceLease.ClaimsNeverShareAVersion | apps/api/src/catalogue-import/catalogue-import.service.ts:364-374 | a claim gets a version that no earlier claim had |
| SourceLease.CommitOnlyWhileOwned | packages/database/src/catalogue-import-engine.ts:169-186 | a commit is logged only by the current, unexpired holder in its write phase |
| SourceLease.FencedFromTheStart | packages/database/src/catalogue-import-engine.ts:154-186 | on every interleaving committed versions strictly increase, belong to granted claims, and no claimed run is completed without its commit |
| SourceLease.HistoryGrows | apps/api/src/catalogue-import/catalogue-import.service.ts:338-412 | the version never decreases, and claims and commits are never forgotten |
| SourceLease.LosersNeverCommit | packages/database/src/catalogue-import-engine.ts:175-185 | a holder that lost its lease never owns it again and never commits, whatever happens |
| SourceLease.StalePreviewIsDead | apps/api/src/catalogue-import/catalogue-import.service.ts:361-378 | a preview whose version fell behind can never be confirmed, on any run that does not publish it anew, however often it is mapped again |
| LeasedImports.CommitsTogether | packages/database/src/catalogue-import-engine.ts:117-148 | the product transaction commits exactly when the lease machine logs the commit |
| LeasedImports.ProductsFollowTheVersions | packages/database/src/catalogue-import-engine.ts:117-186 | on every interleaving the products are the committed imports applied one after the other, and those of the source are the commits of the lease, in strictly increasing order of version |
| LeasedImports.SourceImportsOnlyUnderLease | apps/api/src/catalogue-import/catalogue-import.service.ts:264-274 | every committed import of the source carries a version of its lease |
| LeasedImports.LoserWritesNothing | packages/database/src/catalogue-import-engine.ts:154-186 | a holder that lost its lease changes no product, now or later |
| Texts.UnspacedTrims | packages/database/src/catalogue-import-engine.ts:310-315 | trimming before removing all spaces makes no difference |
| LocaleNumbers.ParseLocaleNumber | packages/database/src/catalogue-import-engine.ts:312-320 | the parser, which rewrites the text step by step, finds the reading in which the last mark is the decimal mark |
| LocaleNumbers.ReadingMeaning | packages/database/src/catalogue-import-engine.ts:312-320 | a text is read as a number exactly when it denotes it, and so denotes at most one: digits with an optional sign, one decimal mark before a non-empty fraction, the other mark anywhere before it |
| LocaleNumbers.RoundTrip | packages/database/src/catalogue-import-engine.ts:312-320 | a signed decimal printed with either mark, with the other as group mark and spaces put in anywhere, reads back as itself |
| LocaleNumbers.LoneMarkIsDecimal | packages/database/src/catalogue-import-engine.ts:316-317 | a text with a single mark before digits is read as a fraction, whatever the mark was meant for |
| LocaleNumbers.GroupedWholeReadsIff | packages/database/src/catalogue-import-engine.ts:315-318 | a whole number printed with group marks of one kind is read at all exactly when it has none, or a single one that digits follow |
| LocaleNumbers.GroupedWholeRoundTrips | packages/database/src/catalogue-import-engine.ts:315-319 | it reads back as itself exactly when it has none, or is zero with a single one that digits follow |
| LocaleNumbers.GroupedExample | packages/database/src/catalogue-import-engine.ts:317 | `1,234` is read as 1.234 and not as 1234 |
| LocaleNumbers.TwoGroupsExample | packages/database/src/catalogue-import-engine.ts:317-318 | `1,234,567` is not read |
| LocaleNumbers.ZeroExample | packages/database/src/catalogue-import-engine.ts:317-319 | `0,000` is read as the 0 it is |
| LocaleNumbers.NatOfJoins | packages/database/src/catalogue-import-engine.ts:319 | digits after the decimal mark count tenths, hundredths and so on |
| CatalogueRows.NumbersReadIff | packages/database/src/catalogue-import-engine.ts:253-262 | a text is a price exactly when it denotes a number that is not negative, and a stock quantity exactly when it denotes a whole number |
| CatalogueRows.SplitListIsDistinct | packages/database/src/catalogue-import-engine.ts:321 | a split list repeats nothing and has no empty item |
| CatalogueRows.ProductIff | packages/database/src/catalogue-import-engine.ts:231-280 | a row yields a product exactly when it is neither empty nor a heading, has a name, and all its cells read well |
| CatalogueRows.MappedRowIsClassified | packages/database/src/catalogue-import-engine.ts:231-280 | a row is skipped for one reason, fails for some, or yields a product with name, SKU and a value for every field it sets |
| CatalogueStore.ApplyExplicitClears | packages/database/src/catalogue-import-engine.ts:288-297 | exactly the empty targets among those to be cleared are cleared, in any order |
| CatalogueStore.ReadFields | packages/database/src/catalogue-import-engine.ts:248-278 | reading the fields one after the other gives each field by its own cell, and the errors in order |
| CatalogueStore.MapRow | packages/database/src/catalogue-import-engine.ts:231-280 | the step-by-step mapping of a row computes the mapped row |
| CatalogueStore.GroupBySku | packages/database/src/catalogue-import-engine.ts:68-74 | the grouping counts the rows of every SKU |
| CatalogueStore.SharedIffTwo | packages/database/src/catalogue-import-engine.ts:75-82 | a row shares its SKU exactly when at least two rows have it |
| CatalogueStore.RefuseDuplicates | packages/database/src/catalogue-import-engine.ts:68-82 | exactly the rows that share their SKU are refused |
| CataloguePlans.DuplicateIff | packages/database/src/catalogue-import-engine.ts:68-82 | a row is SKU_DUPLICATE exactly when another otherwise valid row has its SKU, and is imported exactly when otherwise valid and not refused |
| CataloguePlans.PlanPartitionsTheRows | packages/database/src/catalogue-import-engine.ts:83-96 | created, updated, skipped and failed add up to the number of rows |
| CataloguePlans.PlanImportsDistinctSkus | packages/database/src/catalogue-import-engine.ts:83-88 | imported rows have names and pairwise distinct, non-empty SKUs |
| CataloguePlans.LabelledColumnsAreFound | packages/database/src/catalogue-import-engine.ts:57 | once a sheet's headers are disambiguated the import finds every column under its own header |
| CatalogueStore.Catalogue.BuildPlan | packages/database/src/catalogue-import-engine.ts:56-97 | the plan has every row mapped, duplicates refused, and totals against the products that exist |
| CatalogueStore.Catalogue.ProductUpdate | packages/database/src/catalogue-import-engine.ts:219-229 | the loop over the set targets writes exactly these fields |
| CatalogueStore.Catalogue.UpsertProducts | packages/database/src/catalogue-import-engine.ts:117-148 | rows are written one by one; a foreign SKU under the fence or a lost lease leaves every product as it was |
| CatalogueStore.Catalogue.ImportTable | packages/database/src/catalogue-import-engine.ts:99-115 | the whole import: outcome, products and totals |
| CatalogueUpserts.UpdateIsPartial | packages/database/src/catalogue-import-engine.ts:219-229 | an existing product keeps every field that the row does not set, but for source, row key and name |
| CatalogueUpserts.CellDecidesField | packages/database/src/catalogue-import-engine.ts:219-297 | from cell to stored field: a cell that says something replaces the field, an empty one clears it if it is to be cleared, any other field stays |
| CatalogueUpserts.UpsertsAt | packages/database/src/catalogue-import-engine.ts:139-145 | each row acts on the product that was there before, whatever the other rows do |
| CatalogueUpserts.ImportIsFramed | packages/database/src/catalogue-import-engine.ts:117-148 | products whose SKU no imported row has are untouched, the others are exactly upserted, and a refused import changes nothing |
| CatalogueUpserts.ImportTwice | packages/database/src/catalogue-import-engine.ts:99-148 | importing a table again commits, changes nothing and creates nothing |
| CatalogueUpserts.ImportGrows | packages/database/src/catalogue-import-engine.ts:90-93 | the catalogue grows by exactly the rows that the plan calls created, and the other imported rows are the updated ones |
| CatalogueUpserts.FenceProtects | packages/database/src/catalogue-import-engine.ts:131-138 | under the fence another source's product is never touched, and a row that names one keeps the import from committing |
| CatalogueUpserts.OwnerIsKept | packages/database/src/catalogue-import-engine.ts:131-145 | over any run of imports in which only its owner may reassign, a product stays with its source |
| LeadNotifications.ApplyKeeps | packages/database/src/demo-lead-notifications.ts:26-147 | every step keeps the invariant: attempts within 0 to 4, no lease on a sent lead, a due time and an attempt under every lease, readings that are still true |
| LeadNotificationRuns.RunKeeps | packages/database/src/demo-lead-notifications.ts:26-147 | the invariant holds in every reachable state |
| LeadNotificationRuns.SentIsFinal | packages/database/src/demo-lead-notifications.ts:60-73 | a sent lead never changes again, on any run |
| LeadNotificationRuns.NeverStuck | packages/database/src/demo-lead-notifications.ts:29-36 | an unsent lead with a due time can be claimed or finalized, and never both, exactly from its wake time on |
| LeadNotificationRuns.EveryMoveCounts | packages/database/src/demo-lead-notifications.ts:26-147 | every change of a lead that is no requeue lowers a rank of at most eight |
| LeadNotificationRuns.WorkIsBounded | packages/database/src/demo-lead-notifications.ts:26-147 | between requeues a lead changes at most eight times, however long the run |
| LeadNotificationRuns.ClaimsAreBounded | packages/database/src/demo-lead-notifications.ts:26-42 | between requeues a lead is claimed at most four times |
| LeadNotificationRuns.SupersededNeverReports | packages/database/src/demo-lead-notifications.ts:60-96 | a holder whose lease was taken away can neither mark sent nor mark failed, on any continuation |
| LeadNotificationRuns.ClaimReadsItsAttempt | packages/database/src/demo-lead-notifications.ts:29-57 | whatever happens between its update and its read, a claim reads the attempt its update made, or nothing once its lease is gone |
| LeadNotificationRuns.ReportActsAtOnce | packages/database/src/demo-lead-notifications.ts:75-96 | whatever happens between its read and its update, a failure report does what one atomic report would do |
| LeadNotificationRuns.LiveLeaseIsNeverDeleted | apps/api/src/admin/admin-demo-leads.service.ts:84-97 | a lead under a live lease is never deleted |
| LeadNotificationStore.Store.Claim | packages/database/src/demo-lead-notifications.ts:27-42 | the guarded update takes effect exactly on a claimable lead |
| LeadNotificationStore.Store.ReadClaim | packages/database/src/demo-lead-notifications.ts:43-57 | the read half of a claim finds the lead exactly under the new lease |
| LeadNotificationStore.Store.MarkSent | packages/database/src/demo-lead-notifications.ts:60-73 | marking sent succeeds exactly for the holder of the lead's lease |
| LeadNotificationStore.Store.ReadFailure | packages/database/src/demo-lead-notifications.ts:75-80 | the read half of a failure report finds the lead exactly for its holder |
| LeadNotificationStore.Store.WriteFailure | packages/database/src/demo-lead-notifications.ts:81-95 | the delay is taken at an index that is always in range, and the due time is returned exactly when the update took effect |
| LeadNotificationStore.Store.FinalizeExpiredLeases | packages/database/src/demo-lead-notifications.ts:129-146 | exactly the exhausted leads with an expired lease are finalized, and counted |
| LeadNotificationStore.Store.ListDue | packages/database/src/demo-lead-notifications.ts:114-127 | the earliest claimable leads in due order, as many as the clamped limit allows |
| LeadNotificationStore.Store.Requeue | apps/api/src/cli/requeue-demo-lead.ts:13-31 | the guarded reset |
| LeadNotificationStore.Store.DeleteOne | apps/api/src/admin/admin-demo-leads.service.ts:84-97 | a lead is deleted exactly when no lease is live on it |
| ZipDirectory.ScanAccepts | apps/api/src/catalogue-import/source-parser.ts:119-148 | the scan accepts exactly when the remaining entries are as many as declared, all good, and within the budget |
| ZipDirectory.TiledIsDirectory | apps/api/src/catalogue-import/source-parser.ts:124-146 | good entries one after the other are a list of starting points without gap or overrun |
| ZipDirectory.EndAtOrBelowFinds | apps/api/src/catalogue-import/source-parser.ts:151-157 | the end record found is the one at the greatest offset of the scanned tail |
| ZipDirectory.PreflightAccepts | apps/api/src/catalogue-import/source-parser.ts:109-149 | a buffer is accepted exactly when its last end record points to a directory that its declared number of entries tile, with every size, total and ratio limit met |
| ZipPreflight.FindEndOfCentralDirectory | apps/api/src/catalogue-import/source-parser.ts:151-157 | the backward scan ends, reads inside the buffer, and finds the last end record |
| ZipPreflight.ScanDirectory | apps/api/src/catalogue-import/source-parser.ts:119-148 | the loop over entries ends, reads inside the buffer, and gives the scan's verdict |
| ZipPreflight.PreflightWorkbookArchive | apps/api/src/catalogue-import/source-parser.ts:109-149 | for any buffer the preflight reads inside it and gives the verdict of the reference, with the error the source throws |
| ZipWriter.WrittenEndIsFound | apps/api/src/catalogue-import/source-parser.ts:151-157 | the end record that was written is the one used, exactly when none starts later within it and its comment |
| ZipWriter.WrittenArchiveIsJudged | apps/api/src/catalogue-import/source-parser.ts:109-149 | an archive written per APPNOTE 4.3.12 and 4.3.16, whose end record and comment hold no other end record, is accepted exactly when it keeps to the limits |
| ZipWriter.WrittenArchiveVerdict | apps/api/src/catalogue-import/source-parser.ts:109-149 | the error for such an archive: too many entries, or else that of the first entry that breaks a limit |
| ZipWriter.NoCommentHidesNothing | apps/api/src/catalogue-import/source-parser.ts:151-157 | without an archive comment the written end record is always found |
| ZipWriter.EmptyArchiveIsHidden | apps/api/src/catalogue-import/source-parser.ts:151-157 | an empty archive is accepted, and with such a comment it is not |
| ZipWriter.CommentHidesTheEnd | apps/api/src/catalogue-import/source-parser.ts:151-157 | a comment that is itself the end record of a directory with a missing entry makes any archive invalid |
| SheetHeaders.ColumnName | packages/integrations/src/google-sheets.ts:256-260 | the loop computes the column name |
| SheetHeaders.NumberOfName | packages/integrations/src/google-sheets.ts:256-260 | a column name is made of letters and reads back, with A = 1 to Z = 26, as its number |
| SheetHeaders.NameOfNumber | packages/integrations/src/google-sheets.ts:256-260 | every sequence of letters is the name of its number |
| SheetHeaders.NamesAreDistinct | packages/integrations/src/google-sheets.ts:256-260 | no two columns have the same name |
| SheetHeaders.NormalizeGrows | packages/integrations/src/google-sheets.ts:241-243 | one more suffix makes the normal form of a label longer |
| SheetHeaders.FreeLabel | packages/integrations/src/google-sheets.ts:87-88 | the loop that lengthens a label ends, with the first label whose normal form is not taken |
| SheetHeaders.Disambiguate | packages/integrations/src/google-sheets.ts:79-93 | single headers stay, each repeated one gets its column's name and as few suffixes as make it new |
| SheetHeaders.LabelsAreDistinct | packages/integrations/src/google-sheets.ts:82-91 | labels have pairwise distinct normal forms |
| SheetHeaders.LabelsAreNew | packages/integrations/src/google-sheets.ts:82-89 | no label given to a repeated header looks like any header of the sheet |
| SheetHeaders.LabelsAreDetermined | packages/integrations/src/google-sheets.ts:85-91 | the headers determine the labels |
| Replies.RunKeeps | apps/api/src/conversations/conversations.service.ts:378-481 | on every run keys are unique, exactly the used drafts are linked, each to a message of its own, and messages keep to the limit |
| Replies.AnyMinuteIsBounded | apps/api/src/conversations/conversations.service.ts:431-444 | no user has more than 30 messages in any closed window of 60 seconds, on any run |
| Replies.ReplayReturnsTheMessage | apps/api/src/conversations/conversations.service.ts:378-393 | a request sent again, at any later point, returns the same message and changes nothing as long as the channel is ready |
| Replies.KeyIsTakenForGood | apps/api/src/conversations/conversations.service.ts:378-393 | a used key never sends again, and replays only for the same conversation and text |
| Replies.SendUsesTheDraft | apps/api/src/conversations/conversations.service.ts:395-476 | sending with a draft takes it from READY to USED and links it to the new message |
| Replies.UsedDraftIsSpent | apps/api/src/conversations/conversations.service.ts:400-405 | a used draft stays linked to its message and is never sent again, on any run |
| Replies.RefusalChangesOneDraft | apps/api/src/conversations/conversations.service.ts:406-428 | a refused request changes nothing, but for marking its ready draft STALE, which is kept |
| ReplyStore.Service.FindLinkedDraft | apps/api/src/conversations/conversations.service.ts:386-391 | the draft found is the only one linked to the message |
| ReplyStore.Service.CheckDraft | apps/api/src/conversations/conversations.service.ts:395-429 | each reason to refuse a draft, in order, and which of them mark it STALE |
| ReplyStore.Service.Send | apps/api/src/conversations/conversations.service.ts:323-487 | the whole transaction: outcome, log and drafts |
| ConversationPages.OrderedLists | apps/api/src/conversations/conversations.service.ts:102 | the database's order lists every row once, latest first |
| ConversationPages.PageIsNext | apps/api/src/conversations/conversations.service.ts:86-147 | a page is what comes next; it has a cursor exactly when something follows, and that is what the cursor selects |
| ConversationPages.WalkListsAll | apps/api/src/conversations/conversations.service.ts:86-147 | following the cursors lists all rows once and in order, ties on time included |
| ConversationPages.WalkLength | apps/api/src/conversations/conversations.service.ts:126-146 | all pages but the last are full |
| ConversationPages.UntouchedRowIsListedOnce | apps/api/src/conversations/conversations.service.ts:89-147 | while other conversations change between pages, one that stays where it is is listed exactly once |
| Money.UnitsRoundTrip | packages/database/src/order-payments.ts:28-37 | every amount prints as a canonical text that reads back as the amount |
| Money.TextRoundTrip | packages/database/src/order-payments.ts:28-37 | every canonical text is what its amount prints as |
| Money.NegativeIsNotCanonical | packages/database/src/order-payments.ts:28-37 | a negative amount prints as a text that is not accepted back |
| Money.NearestIsCents | packages/database/src/commercial-terms.ts:159-161 | the rounded amount is the only nearest number of cents, with halves away from zero |
| OrderPayments.SummaryBalances | packages/database/src/order-payments.ts:15-26 | the expected amount comes back, paid and remaining make it up, and the status is the comparison of the two |
| OrderPayments.NothingExpectedIsUnpaid | packages/database/src/order-payments.ts:24 | an order for nothing is unpaid, not paid |
| OrderPayments.SummaryIgnoresOrder | packages/database/src/order-payments.ts:17-19 | the order of payments does not matter, nor for whether the summary fails |
| OrderPayments.CancellingTakesBack | packages/database/src/order-payments.ts:17-24 | cancelling a payment lowers what is paid by its amount and raises what remains by as much |
| CommercialTerms.CalculateCommercialTerms | packages/database/src/commercial-terms.ts:22-60 | the loops over lines give issues, currency and total by their meaning |
| CommercialTerms.ReadyIff | packages/database/src/commercial-terms.ts:35-60 | an order has a price exactly when every line has a price and a currency and all currencies agree |
| CommercialTerms.TotalIsNear | packages/database/src/commercial-terms.ts:30-32 | the total is off by at most half a cent for each line |
| CommercialTerms.WholeCentsAreExact | packages/database/src/commercial-terms.ts:47-51 | lines of whole cents are summed exactly |
| CommercialTerms.TermsIgnoreOrder | packages/database/src/commercial-terms.ts:22-60 | the order of lines changes neither total, nor currency, nor issues |

## Left out

- One tenant is modelled. The check that a tenant accepts mutations, audit rows, actors and notifications to users are not.
- Postgres locking and isolation: each transaction is atomic. `handOffOrder` reads the order before it locks products, so its properties rest on that.
- Stock edits by an import or by hand can take stock below what is reserved; the runs of the ledger exclude them.
- Runs of the ledger hold the four transactions of the store only. `orders.service.ts` writes the cached summary too: its `transition` (lines 274-296) sets it to UNASSESSED when an order loses its approval, and leaves the item statuses as they are, so after a cancellation the cached summary need not be that of the statuses.
- The supplier dispatch of the worker, which moves items to SENDING and ORDERED, and the reset of items by order edits, are not steps of the ledger.
- ProcurementRuns.SummariesStayRight: does not cover that writer of the summary.
- Item quantities may be anything; a reservation of a quantity below one is refused by a check of the table, and with it the whole transaction (`QuantityRejected`).
- SKUs of the ledger are opaque numbers that are only compared.
- Imports of uploaded files take no lease, so they are not steps of the lease protocol; the worker's synchronization is one more claimant that obeys the same contract.
- The retry of a product transaction after a write conflict repeats the same step, and is not modelled.
- CataloguePlans.PlanPartitionsTheRows: error messages are not modelled, only their codes, which the source adds together with them.
- CatalogueUpserts.ImportTwice: update timestamps are not modelled.
- Column limits of the product table (three letters of currency, twelve digits of price, 32 bits of stock) can make the whole import fail, and are not modelled; nor are names of fields to clear that are no targets.
- CatalogueStore.MapRow: reads the fields in a loop over their names where the source spells them out, in the same order.
- NFKC, full case folding, hashing of generated SKUs, and the parsing of JSON objects and of URLs are functions the model takes as given; of a generated SKU it uses only that it is not empty.
- LocaleNumbers.ParseLocaleNumber: numbers are exact; the rounding of `Number()` and its overflow to infinity are not modelled.
- SheetHeaders.NormalizeGrows: shows what termination rests on for ASCII case folding; the methods take any normal form that grows.
- The copies of row mapping and number parsing in `catalogue-import.service.ts` (lines 541-680) are not called by the service, which builds its previews with the engine's plan; they are not modelled.
- The choice of the header row, the limits on rows, columns and cells, and the selection of named columns of a sheet are not modelled.
- Node's little-endian reads of a Buffer are modelled by two functions on an array of bytes.
- The rest of a workbook's validation, after the preflight, is not modelled.
- Replies.AnyMinuteIsBounded: assumes that a message's creation time is not before the time at which its request was taken in, and that messages are not deleted.
- Replies.RunKeeps: the channel's readiness and reply windows, the style switch, and the comparison of a draft's sources with the products are given with each request.
- Draft generation and triage are steps that never move a draft into or out of USED.
- The content of conversation rows, the status filter (which only selects the rows) and the text form of cursors are not modelled.
- CommercialTerms.CalculateCommercialTerms: prices are real numbers, so the limit of significant digits of decimals is not modelled; the rows written for an order, and the choice of legal entity and bank account, are left out.
- Retention of leads and messages, provider clients, controllers, the web application and metrics are left out.
