# go-folio

go-folio is a small shop: a catalog service, an inventory service and a gateway in Go, with an
admin client. This project models the parts of it whose correctness depends on several functions,
several statements or several goroutines at once, and proves what they promise.

- **Catalog sync.** `Sql` gives the meaning of WHERE, ORDER BY and LIMIT over a table; `Keyset` is
  pagination by an `(updated_at, id)` cursor; `CatalogService` has the repository and service methods
  behind the two endpoints, with `Hydration` for the batched child queries; `Sync` lets a caller mirror
  a table session after session while transactions commit between any two steps, and `Clockless` is
  the same without any promise about clocks; `SyncFeeds` says row by row what a caller of the
  endpoints receives. `Cursor`, `Base64Url` and `Timestamps` are the cursor string, down to padded
  base64url (sections 3.2 and 5 of RFC 4648) and the timestamp (section 5.6 of RFC 3339).
- **Inventory.** `Ledger` is each request on its own and what every run keeps; `InventoryService` has
  the statements and the transaction boundary, with faults at every call; `Interleaving` runs the
  statements of any number of transactions side by side under row locks.
- **Event broker.** `Broker` has the broker's methods; `Subscribers` runs publishers and event streams
  side by side, every lock operation, send, receive and close a step of its own.
- **Product edits.** `Products`, `ProductService` and `ProductEdits` do for creating, patching and
  deleting products what the three inventory modules do for stock. A write puts its row version in
  place and then enters its code and its slug into their unique indexes, each in a step of its own
  that may wait; `ProductDeadlock` says how such waits deadlock, `ProductBatches` which edits can
  deadlock and that the others can finish, `ProductClock` when `updated_at` goes back. `Circles` and
  `Sums` hold the two facts about finite graphs and finite sums these need.
- **Adding a variant.** `Saga` is the two-service protocol with refused calls, lost answers and calls
  that arrive late; `SagaWiring` is how the two services answer it today.
- **Slugs.** `Slug` is the product form's `slugify`.

Time is modelled by instants in nanoseconds, INTEGER and BIGINT columns by their ranges; an
out-of-range column, a primary key clash and a failing driver call abort their transaction, but a
COMMIT that is answered with an error may have taken effect. Three things are hypotheses, stated in
the contracts:

- *Clock assumption* (`Sync.Can`, case `Commit`): what a transaction inserts or updates carries an
  `updated_at` later than everything already visible and every token already issued. The code does not
  enforce it, because `NOW()` is when the transaction began. `Clockless.ExactIffNothingMissed` says
  exactly when a session ends exact without it, `Clockless.LateCommitIsLost` that it can fail in every
  state, and `ProductClock.MonotoneIffInOrder` exactly when `updated_at` of a row is monotonic. The
  comment at server/catalog-service/internal/service/default_catalog_service.go:252 and section 11 of
  docs/adr/ADR-001.md promise more than this.
- *Fresh ids* (`Interleaving.FreshIds`): a reservation under way has an id that no other reservation
  has, open or under way. It is what completion needs; that no open one has it (`NewIds`) is enough
  to exclude deadlock. `Interleaving.CirclesAreCrossings` says exactly what can go wrong otherwise,
  and `Interleaving.ClashDeadlocks` that it does.
- *Nobody else removes the SKU* (no `Remove` of it in `Saga`). The catalog itself does so: deleting a
  product cascades to its variants. `Saga.DeletesItsOwnUnlessRobbed` says exactly what a saga's
  deletion takes with or without it, and `Saga.AnotherDeleterBreaksIt` shows a run.

## Model

| member | source | states |
|---|---|---|
| Cursor.RoundTripIff | server/catalog-service/internal/service/cursor.go:11-29 | A cursor decodes to itself if and only if its year is 0 to 9999, its offset below a day and in whole minutes, and its instant not zero; the encoding is empty exactly when the timestamp cannot be marshalled, whose error the code drops. |
| Cursor.EncodeIsInjective | server/catalog-service/internal/service/cursor.go:11-14 | Marshallable cursors that share an encoding agree in everything but the seconds of their offsets, which the marshaller drops; in whole minutes no two share one. |
| Cursor.AcceptedCursor | server/catalog-service/internal/service/cursor.go:16-29 | Of the strings the model's decoder accepts (see Left out for those only Go's accepts), every one is a real, non-zero instant in a year of four digits, and it survives being encoded again if and only if its offset is below a day, which Go's parser does not insist on. |
| Timestamps.ReadIffParsable | server/catalog-service/internal/service/cursor.go:16-29 | A time can be read from some text if and only if its year has four digits and its offset is in whole minutes up to 24:60 either way; of these the marshaller refuses exactly those with an offset of a day or more. |
| Cursor.JsonRoundTrip | server/catalog-service/internal/domain/sync.go:6-9 | The two-field JSON object reads back, for every 64-bit id, as the cursor it was written from without the seconds of its offset. |
| Cursor.MarshalSpells | server/catalog-service/internal/service/cursor.go:11-14 | The exact text around the timestamp and the id, and the id in decimal with its sign and without leading zeros. |
| Cursor.EitherOrder | server/catalog-service/internal/service/cursor.go:16-29 | The decoder takes the two members in the other order too. |
| Base64Url.RoundTrip | server/catalog-service/internal/service/cursor.go:11-20 | Padded base64url decodes to the bytes it encoded, and is empty only for no bytes. |
| Base64Url.SymbolsAreTheAlphabet | server/catalog-service/internal/service/cursor.go:11-14 | Each sextet is spelt by its character of the URL-safe alphabet (table 2 of RFC 4648), padding by the equals sign. |
| Base64Url.PackKeepsBits | server/catalog-service/internal/service/cursor.go:11-14 | Every three bytes become four sextets with the same 24 bits, one or two bytes at the end are filled with zero bits, and there is padding exactly for the sextets that have none. |
| Timestamps.TimestampRoundTrip | server/catalog-service/internal/domain/sync.go:6-9 | A marshallable timestamp reads back with its clock reading, its nanoseconds and the whole minutes of its offset, whatever follows it. |
| Timestamps.FormatSpells | server/catalog-service/internal/domain/sync.go:6-9 | Year, month, day, hour, minute and second stand in their places of the text as decimal numerals, with their separators, before the fraction and the zone. |
| Timestamps.FractionSpells | server/catalog-service/internal/domain/sync.go:6-9 | No fraction for a whole second, else a point and at most nine digits that denote the nanoseconds and do not end in a zero. |
| Timestamps.ZoneSpells | server/catalog-service/internal/domain/sync.go:6-9 | Z for UTC, else sign, hours and minutes of the offset with its seconds cut off. |
| Timestamps.NumeralsMean | server/catalog-service/internal/domain/sync.go:6-9 | Numerals are read from the left in the ten figures. |
| Timestamps.InstantOrders | server/catalog-service/internal/repository/postgres_catalog_repository.go:465-483 | The instant by which both endpoints order and filter: at one offset it is ordered as year, month, day, hour, minute, second and nanosecond are, one after the other, and is the same only for the same reading. |
| Timestamps.InstantMoves | server/catalog-service/internal/repository/postgres_catalog_repository.go:465-483 | Moving the offset by some seconds moves the instant back by as many; the same reading on the next calendar day, month and year ends included, is 86400 seconds later; an hour, a minute and a second are 3600, 60 and 1. |
| Timestamps.Calendar | server/catalog-service/internal/repository/postgres_catalog_repository.go:465-483 | The months and leap years are the Gregorian calendar's, with 146097 days in any 400 years. |
| Sql.OrderBySorts | server/catalog-service/internal/repository/postgres_catalog_repository.go:477-483 | ORDER BY returns exactly the rows it was given, duplicates included, in key order. |
| Sql.OrderByStrict | server/catalog-service/internal/repository/postgres_catalog_repository.go:477-483 | With the primary key as last column no two rows of a result tie, however many share `updated_at`. |
| Keyset.Advance | server/catalog-service/internal/repository/postgres_catalog_repository.go:465-483 | Using the k-th pending row as the next cursor leaves exactly the rows behind it: nothing skipped, nothing repeated. |
| Keyset.PageBoundary | server/catalog-service/internal/service/default_catalog_service.go:255-296 | For every page size, positive or not: `hasNext` holds exactly when a matching row is not in the page; a page that promises more is full, within the maximum, non-empty and ends strictly past its cursor; `nextCursor` is non-empty exactly when the last timestamp can be marshalled and decodes to the last row exactly when a cursor can carry it. |
| Keyset.CursorMoves | server/catalog-service/internal/service/default_catalog_service.go:289-296 | The returned cursor, decoded by the next request, continues with exactly the rows that did not fit. |
| Keyset.WalkDeliversFeed | server/catalog-service/internal/service/default_catalog_service.go:251-305 | Following `nextCursor` from any place terminates and delivers what was pending there, in order, in max(1, ceil(n/k)) pages. |
| Keyset.StaticWalk | server/catalog-service/internal/service/default_catalog_service.go:307-351 | Over an unchanging table, the walk from the empty cursor is the rows newer than `updatedSince`, each exactly once, sorted by `(updated_at, id)` with any ties, in max(1, ceil(n/k)) pages; no clock assumption. |
| Keyset.FirstPageIsAllIff | server/catalog-service/internal/handler/catalog_handler.go:39-46 | The product list, which reads one page and ignores its cursor, shows the whole table if and only if it has no more rows than one page. |
| Keyset.ClampMeans | server/catalog-service/internal/service/default_catalog_service.go:255-260 | A page size within bounds is kept, none gives the default and a larger one the maximum. |
| Sync.EverySessionEndsExact | server/catalog-service/internal/service/default_catalog_service.go:251-305 | Over any number of sessions, abandoned ones and lost answers included, with any commits between any two steps and any token of the last complete session as the next `updatedSince`: whenever a session reaches `hasNext = false` the mirror holds the current version of every live row, and nothing that was never committed under its id. |
| Sync.NextSessionMayStart | server/catalog-service/internal/service/default_catalog_service.go:252-253 | Every token a session was given may start the next one as soon as the session is complete. |
| Sync.BehindTheCursorIsMirrored | server/catalog-service/internal/repository/postgres_catalog_repository.go:465-506 | At every moment of a walk over a changing table, every live row at or below the cursor has been delivered at its current version. |
| Sync.ExactAgainIff | server/catalog-service/internal/repository/postgres_catalog_repository.go:460-464 | Whatever was committed before it, a poll with a token over a table at rest makes the mirror exact if and only if every row it did not already hold is newer than the token. |
| Clockless.ExactIffNothingMissed | server/catalog-service/internal/repository/postgres_catalog_repository.go:460-483 | Without the clock assumption, with any commits between any steps of any sessions: when a session reaches `hasNext = false` it has mirrored exactly the live rows it has not missed, so it ends exact if and only if every live row was, when it was committed or the session started, mirrored already or ahead of the session's filter and cursor. |
| Clockless.MissedForTheSession | server/catalog-service/internal/service/default_catalog_service.go:251-305 | A row once missed is not delivered by that session for as long as it is live. |
| Clockless.PollingCompletes | server/catalog-service/internal/service/default_catalog_service.go:251-305 | From any place in any state, a request under way included, requests and answers alone bring a session to `hasNext = false`, at any page size. |
| Clockless.LateCommitIsLost | server/catalog-service/internal/service/default_catalog_service.go:252-253 | In every state, for every committed table, every row of it that is not mirrored and not newer than a token, and every page size: the session that starts with that token can run to `hasNext = false`, and the row is then still not mirrored. |
| Hydration.LoadChildren | server/catalog-service/internal/repository/postgres_catalog_repository.go:621-668 | Grouping the rows of one IN query gives each requested product the sequence its own query returns, and the empty list when it has none. |
| Hydration.ShareOfBatch | server/catalog-service/internal/repository/postgres_catalog_repository.go:369-423 | A product's share of the ordered batch is its own ordered query, for variants and images alike. |
| CatalogService.CatalogRepository.FetchProducts | server/catalog-service/internal/repository/postgres_catalog_repository.go:455-506 | Growing the conditions, fetching k + 1 rows and cutting one off yields the first k pending rows and whether more are pending. |
| CatalogService.CatalogRepository.Hydrate | server/catalog-service/internal/repository/postgres_catalog_repository.go:512-542 | Every product comes with what its own variant and image queries return, in the page's order. |
| CatalogService.CatalogRepository.ListProductProjectionPage | server/catalog-service/internal/repository/postgres_catalog_repository.go:455-543 | The page is the first k pending products with their own children, the empty page included. |
| CatalogService.CatalogRepository.ListVariantInventoryPage | server/catalog-service/internal/repository/postgres_catalog_repository.go:546-619 | The page is the first k pending rows of the join of variants and products. |
| CatalogService.Service.Resolve | server/catalog-service/internal/service/default_catalog_service.go:255-269 | The page size is the default for none, what was asked for within bounds, the maximum otherwise, and the place is the start for an empty cursor, the decoded cursor otherwise, or its error. |
| CatalogService.Service.ListProductProjections | server/catalog-service/internal/service/default_catalog_service.go:251-305 | Answers as `CatalogService.ProjectionAnswer`: `Keyset.Serve` with every product's children beside it, whose meaning is `SyncFeeds.ProductSessions`; the clock reading is taken before the query as token. |
| CatalogService.Service.ListVariantInventory | server/catalog-service/internal/service/default_catalog_service.go:307-351 | The same for the inventory records, with `SyncFeeds.InventorySessions`. |
| CatalogService.OnlyBadCursorsAreRefused | server/catalog-service/internal/service/default_catalog_service.go:262-269 | Both endpoints refuse a request exactly when its cursor is not empty and cannot be decoded. |
| SyncFeeds.ServeMeans | server/catalog-service/internal/service/default_catalog_service.go:251-305 | One request with any cursor, row by row: the page is in order, holds only rows that pass the filter and lie past the cursor, and leaves out only such as come behind all of it, when it is full and says that there are more; with the size and the token it was asked at. |
| SyncFeeds.ProductSessions | server/catalog-service/internal/service/default_catalog_service.go:251-305 | Over unchanging tables a caller who follows the answers' own `nextCursor` from the empty cursor comes to an end, at any page size, and has received every product newer than `updatedSince` exactly once, in `(updated_at, id)` order, each with exactly its variants by id and exactly its images by sort order and id; every page but the last is full, and each has its size (default 100, at most 500) and its token. |
| SyncFeeds.InventorySessions | server/catalog-service/internal/service/default_catalog_service.go:307-351 | The same for the variants that have a product, each once, by `(updated_at, id)` of the variant and beside its product's code (default 500, at most 1000). |
| CatalogService.EndpointsAreValid | server/catalog-service/internal/service/default_catalog_service.go:287-297 | Both endpoints' real cursors and page bounds meet what the pagination and sync theorems ask of an endpoint. |
| CatalogService.RenamedProductIsNotResynced | server/catalog-service/internal/repository/postgres_catalog_repository.go:546-619 | Once a product with an already synced variant changes its code, no poll with that token makes the inventory mirror exact again, because the record's place is its variant's. |
| Ledger.AdjustmentMeans | server/inventory-service/internal/repository/repository.go:181-198 | When an adjustment succeeds, is refused or fails, exactly; it answers with what is then available, changes that column of that row by the delta and nothing else, and the opposite adjustment takes it back. |
| Ledger.ReservationMeans | server/inventory-service/internal/repository/repository.go:200-231 | When a reservation gets which answer, exactly; the id it answers with was not open and then is, with the SKU, quantity and order asked for, the quantity has moved from available to reserved, nothing else has changed, and releasing the answered id succeeds and restores both tables. |
| Ledger.ReleaseMeans | server/inventory-service/internal/repository/repository.go:233-258 | A release closes its reservation, moves its quantity back and changes nothing else; NotFound exactly when there is none to close. |
| Ledger.SeedingMeans | server/inventory-service/internal/repository/repository.go:89-95 | Seeding leaves an existing row alone and otherwise adds one with nothing reserved, and says which. |
| Ledger.RunKeepsConsistent | server/inventory-service/internal/repository/repository.go:200-258 | In every reachable state `reserved` is the sum of the open reservations of the SKU and every open reservation has its stock row. |
| Ledger.ReleaseFindsItsRow | server/inventory-service/internal/repository/repository.go:233-258 | So releasing an open reservation always finds the row to credit; it fails if and only if a column would leave its range. |
| Ledger.Conservation | server/inventory-service/internal/repository/repository.go:89-95 | Over any run `available + reserved` of a SKU is what it was plus its first seeding and its committed adjustments; reserving and releasing never change it. |
| Ledger.CreditedOnce | server/inventory-service/internal/repository/repository.go:200-258 | The successful releases of an id, plus one if it is still open, equal its successful reservations. |
| Ledger.BetweenReleases | server/inventory-service/internal/repository/repository.go:233-258 | Between two successful releases of one id lies a successful reservation of it. |
| Ledger.GentleRuns | server/inventory-service/internal/repository/repository.go:181-258 | If no seeding or reservation is negative, both columns stay non-negative and the open reservations of a SKU never exceed its total. |
| Ledger.NonNegativeForeverIff | server/inventory-service/internal/repository/repository.go:200-231 | The sign of a reserved quantity is unchecked: after an accepted reservation every later non-negative run keeps the columns non-negative if and only if its quantity is not negative. |
| InventoryService.Inventory.AdjustStock | server/inventory-service/internal/repository/repository.go:181-198 | Succeeds only by doing what the adjustment means; without a fault it gives exactly its answer. |
| InventoryService.Inventory.ReserveStock | server/inventory-service/internal/repository/repository.go:200-231 | The same for the guarded UPDATE followed by the INSERT. |
| InventoryService.Inventory.ReleaseStock | server/inventory-service/internal/repository/repository.go:233-258 | The same for DELETE RETURNING, the unchecked UPDATE and the read back. |
| InventoryService.Inventory.Handle | server/inventory-service/internal/service/service.go:134-168 | With faults at any calls: a request succeeds only as its atomic form; when it fails both tables are as they were, or its COMMIT took effect but was answered with an error, and then the tables are exactly those of its atomic form; without faults it is answered exactly. |
| InventoryService.Inventory.SeedSku | server/inventory-service/internal/repository/repository.go:89-95 | Seeding an existing SKU changes nothing; a new one starts with nothing reserved. |
| Interleaving.EveryRunIsSerial | server/inventory-service/internal/repository/repository.go:181-258 | However statements interleave under row locks, the tables are those of running the requests one at a time, and every request not struck by a fault is answered as it is there, at a place no earlier than its arrival; only a SKU seeded between its UPDATE and its COUNT turns NotFound into Insufficient, and success is always exact. |
| Interleaving.CountIsExactIff | server/inventory-service/internal/repository/repository.go:263-272 | Exactly when that happens: in every reachable state, the COUNT answers as the request alone would have been at its place, if and only if it is not the case that that answer is NotFound and the SKU has been seeded since. |
| Interleaving.SerialOrderIsTheRequests | server/inventory-service/internal/service/service.go:134-168 | Every place of that serial order is one seeding or one request, and no two requests share one. |
| Interleaving.RealTimeOrder | server/inventory-service/internal/service/service.go:134-168 | A request that was over before another arrived comes before it in the serial order, and keeps its answer. |
| Interleaving.FailureLeavesNoTrace | server/inventory-service/internal/service/service.go:134-168 | A request that was answered with an error, at whichever statement, has changed neither table, unless the error is that of a COMMIT then still under way. |
| Interleaving.LapseIsAllOrNothing | server/inventory-service/internal/service/service.go:145-147 | A request told that its COMMIT failed has, once that COMMIT is over, either no place in the serial order or one where all of it succeeded, never a part of it. |
| Interleaving.LapseGoesBothWays | server/inventory-service/internal/service/service.go:145-147 | Both happen: for all consistent tables and every request that would succeed there is a run in which its COMMIT is reported as failed and it has taken effect, and one in which it has not. |
| Interleaving.NotFoundIsSound | server/inventory-service/internal/repository/repository.go:263-272 | A NotFound from an adjustment or reservation is true at the moment it took effect, concurrent seeding included. |
| Interleaving.ExactWithoutSeeding | server/inventory-service/internal/repository/repository.go:181-272 | In a run without seeding every answer that is not a fault is exactly the serial one. |
| Interleaving.SeedRaceHappens | server/inventory-service/internal/repository/repository.go:263-272 | For every table without the SKU, every adjustment or reservation of it and every seeded amount, a run in which a SKU seeded between UPDATE and COUNT is reported as out of stock. |
| Interleaving.RacingReleases | server/inventory-service/internal/repository/repository.go:233-258 | Two releases of one id that both succeed have another reservation of that id between them: a double release credits once, however it races. |
| Interleaving.LedgerHoldsConcurrently | server/inventory-service/internal/repository/repository.go:181-258 | At every moment of every interleaving the ledger is consistent and conserved, and non-negative if nobody asks for negative amounts. |
| Interleaving.DeadlockIsACircle | server/inventory-service/internal/repository/repository.go:181-258 | In every reachable state with an unfinished request, either some statement can run or requests wait for one another's rows in a circle. |
| Interleaving.CirclesAreCrossings | server/inventory-service/internal/repository/repository.go:200-258 | Those circles are, both ways, reservations between UPDATE and INSERT that have drawn the id of an open reservation, and releases of those before their UPDATE, each waiting for the next. |
| Interleaving.CirclesLast | server/inventory-service/internal/repository/repository.go:200-258 | Requests in a circle are never answered, whatever else happens, until one of them fails. |
| Interleaving.NeverDeadlocked | server/inventory-service/internal/repository/repository.go:200-258 | So while no reservation under way has the id of an open one, in every reachable state with an unfinished request some request's next statement can run. |
| Interleaving.EveryRequestCanFinish | server/inventory-service/internal/repository/repository.go:181-258 | From every reachable state with fresh ids, statements alone bring every request to its end: no two are stuck beside others that can go on. |
| Interleaving.StatementsAdvance | server/inventory-service/internal/repository/repository.go:181-258 | A statement moves its own transaction strictly closer to its end and no other, and adds at most its own request to the serial order. |
| Interleaving.ClashDeadlocks | server/inventory-service/internal/repository/repository.go:200-258 | It does happen otherwise: for all tables, a reservation that draws the id of an open one of the same SKU, with stock enough, and a release of that one have a run in which neither can ever go on. |
| Broker.Broker.Subscribe | server/gateway-service/internal/sse/broker.go:41-47 | A new open, empty channel joins the list. |
| Broker.Broker.Unsubscribe | server/gateway-service/internal/sse/broker.go:50-55 | The channel leaves the list and is closed; every channel still listed is open. |
| Broker.Broker.Publish | server/gateway-service/internal/sse/broker.go:59-68 | In whatever order the map is ranged over, every listed channel is offered the event exactly once, gets it exactly if it held fewer than ten, and the list is unchanged. |
| Subscribers.NeverPanics | server/gateway-service/internal/sse/broker.go:50-68 | No run of any publishers and streams sends on a closed channel or closes one twice, and a stream in its receive loop has an open, listed channel. |
| Subscribers.PublishNeverBlocks | server/gateway-service/internal/sse/broker.go:59-68 | A publisher inside Publish always has its next step: each send left is to an open channel and shortens the loop, and then the unlock. |
| Subscribers.LockMoves | server/gateway-service/internal/sse/broker.go:41-68 | Unless the lock is free, some holder's next step can run, with a writer that waits keeping new readers out. |
| Subscribers.ReceivedInOrder | server/gateway-service/internal/server/sse_handler.go:39-58 | A buffer never exceeds ten; what a stream received and still holds is what found room, no event twice, each publisher's in its order. |
| Subscribers.PublishReachesItsAudience | server/gateway-service/internal/sse/broker.go:59-68 | When a Publish is over, each stream on the list when it took the lock was tried exactly once and has the event if and only if its buffer then held fewer than ten; no other stream has it. |
| Subscribers.SendMeans | server/gateway-service/internal/sse/broker.go:59-68 | A send puts the event behind what the buffer holds, if that is fewer than ten, and drops it otherwise, is recorded with how many it held, and affects no other stream. |
| Subscribers.PublishCompletes | server/gateway-service/internal/sse/broker.go:59-68 | From every state with no writer in or announced, a publisher can go through Publish by its own steps alone, to the streams then on the list. |
| Subscribers.ReceiveMeans | server/gateway-service/internal/server/sse_handler.go:43-56 | A receiving stream can always take what its buffer holds, oldest first. |
| Subscribers.AudienceIsTheSubscribed | server/gateway-service/internal/server/sse_handler.go:39-50 | That list is exactly the streams whose Subscribe has returned and whose Unsubscribe has not yet got the lock. |
| Subscribers.StreamsCome | server/gateway-service/internal/server/sse_handler.go:39-44 | From every state with a free lock a new stream can subscribe by its own steps alone, and is then on the list. |
| Subscribers.StreamsGo | server/gateway-service/internal/server/sse_handler.go:39-44 | From every such state a receiving stream can leave by its own steps alone, and is then off the list with its channel closed. |
| Products.CreationMeans | server/catalog-service/internal/service/default_catalog_service.go:105-116 | Creating a product is refused exactly when its code, title or slug is blank or another row has its code or slug; otherwise the new row holds every field as it was sent, under the drawn id, is the answer, and no other row changes. |
| Products.PatchMeans | server/catalog-service/internal/service/default_catalog_service.go:140-179 | A patch is refused exactly when there is no row, it asks for a blank code, title or slug, or for a code or slug of another row; otherwise each of the eight fields holds what was asked for it or what it held, every other column is as it was, and no other row changes. |
| Products.DeletionMeans | server/catalog-service/internal/service/default_catalog_service.go:182-189 | A deletion removes its row and no other, or reports that there is none. |
| CatalogDomain.BlankIffTrimmedAway | server/catalog-service/internal/domain/catalog.go:32-43 | TrimSpace cuts the white space off both ends and nothing else, and leaves nothing exactly of texts of white space alone. |
| CatalogDomain.SpaceIsWhiteSpace | server/catalog-service/internal/domain/catalog.go:32-43 | White space is the 25 code points with that Unicode property. |
| Products.RunKeepsTidy | server/catalog-service/internal/domain/catalog.go:32-43 | Every row of every reachable table passes Validate under its own id, and no two share a product code or a slug. |
| Products.NoUpdateIsLost | server/catalog-service/internal/service/default_catalog_service.go:140-179 | After any run that neither deletes nor recreates a row, each patchable field is what the last saved patch that asked for it wrote, or the original. |
| Products.UnpatchedColumnsStay | server/catalog-service/internal/repository/postgres_catalog_repository.go:220-248 | Over any run that neither deletes nor recreates a row, its id, external id, description, additional information, subcategory, tags and base SKU are what they were. |
| Products.DisjointPatchesCommute | server/catalog-service/internal/service/default_catalog_service.go:140-179 | Two patches of different fields of one product get the same answers in either order, leave tables that agree but for that row's `updated_at`, and both survive when both are saved. |
| ProductService.Catalog.InsertRow | server/catalog-service/internal/repository/postgres_catalog_repository.go:145-170 | The INSERT, of any product, refuses a taken code or slug, and the read back is the row it stored. |
| ProductService.Catalog.UpdateRow | server/catalog-service/internal/repository/postgres_catalog_repository.go:220-248 | The UPDATE, of any product, reports a missing row, refuses a code or slug of another row, keeps the external id of the row, and stamps `updated_at`. |
| ProductService.Catalog.DeleteRow | server/catalog-service/internal/repository/postgres_catalog_repository.go:250-261 | Removes the row, or reports that there was none. |
| ProductService.Catalog.CreateProduct | server/catalog-service/internal/service/default_catalog_service.go:105-116 | With faults at any calls: succeeds only as the atomic creation; when it fails the table is as it was, or its COMMIT took effect but was answered with an error, and then the table is exactly that of the atomic creation; without faults it is answered exactly. |
| ProductService.Catalog.PatchFields | server/catalog-service/internal/service/default_catalog_service.go:146-169 | The eight tests, one after the other, apply exactly the fields that are present, and leave every other column alone. |
| ProductService.Catalog.UpdateProduct | server/catalog-service/internal/service/default_catalog_service.go:140-179 | The same as CreateProduct for the atomic patch. |
| ProductService.Catalog.DeleteProduct | server/catalog-service/internal/service/default_catalog_service.go:182-189 | The same for the atomic deletion. |
| ProductEdits.EveryRunIsSerial | server/catalog-service/internal/service/default_catalog_service.go:105-189 | However SELECT FOR UPDATE, the row writes, the two unique indexes and COMMIT interleave, the rows are those of running the edits one at a time in the order they were settled, and every request no fault struck is answered exactly as there, at a place no earlier than its arrival. |
| ProductEdits.ErrorIsAllOrNothing | server/catalog-service/internal/service/default_catalog_service.go:69-101 | An edit answered with an error has changed nothing; one told that its COMMIT failed has, once that COMMIT is over, changed nothing or done exactly all of the edit. |
| ProductEdits.SerialOrderIsTheRequests | server/catalog-service/internal/service/default_catalog_service.go:69-101 | Every place of that order is one request, and no two requests share one. |
| ProductEdits.RowsStayTidy | server/catalog-service/internal/repository/postgres_catalog_repository.go:145-248 | At every moment of every interleaving every committed row is valid, and codes and slugs are unique. |
| ProductEdits.ConcurrentPatchesLoseNothing | server/catalog-service/internal/repository/postgres_catalog_repository.go:188-248 | Under every interleaving each field of a row was written by the last committed patch that asked for it, and what no patch names is as it was: no update is lost. |
| ProductDeadlock.DeadlockIsACircle | server/catalog-service/internal/repository/postgres_catalog_repository.go:145-261 | In every reachable state with an unfinished edit, either some statement can run or edits wait for one another's keys in a circle. |
| ProductDeadlock.CirclesLast | server/catalog-service/internal/repository/postgres_catalog_repository.go:220-248 | Edits in a circle are never answered, whatever else happens, until one of them fails. |
| ProductDeadlock.CirclesAreKnots | server/catalog-service/internal/repository/postgres_catalog_repository.go:220-248 | In every reachable state the edits of a circle form a knot over the committed rows: each asks for a code or slug that the next has entered or whose row the next is writing over. |
| ProductDeadlock.NeverDeadlocked | server/catalog-service/internal/repository/postgres_catalog_repository.go:145-261 | While no knot can be made of the edits under way, some statement can run. |
| ProductDeadlock.KeysApartHaveNoKnot | server/catalog-service/internal/repository/postgres_catalog_repository.go:145-248 | There is none while no edit under way asks for a code or slug of a row that another is about, nor for a code that another asks for. |
| ProductBatches.DeadlockIffKnot | server/catalog-service/migrations/002_create_catalog_tables.sql:1-6 | However statements interleave, edits of a batch can run into a circle of waits once given edits of it are settled in a given order, if and only if running those one at a time leads to a table over which others of the batch form a knot. |
| ProductBatches.EveryEditCanFinish | server/catalog-service/internal/service/default_catalog_service.go:69-101 | If no serial run of edits of a batch leads to a knot, then from wherever any run of the batch has got to, statements alone bring every edit to its end. |
| ProductBatches.CanFinishIffNoKnot | server/catalog-service/internal/service/default_catalog_service.go:69-101 | These are exactly the batches that can always be finished. |
| ProductBatches.AsksApartNeverKnot | server/catalog-service/internal/repository/postgres_catalog_repository.go:145-248 | A batch is one of them if no edit of it asks for a code or slug that another asks for or that the row of another has: a condition on the first table and the requests alone. |
| ProductBatches.ExchangingCodesDeadlocks | server/catalog-service/internal/repository/postgres_catalog_repository.go:220-248 | Any two patches that would exchange the product codes of two rows deadlock in some run. |
| ProductBatches.InsertMeetsPatch | server/catalog-service/internal/repository/postgres_catalog_repository.go:145-248 | So do an insert and a patch that ask for one new code, if the insert also asks for the slug of the patched row. |
| ProductClock.RealTimeOrder | server/catalog-service/internal/service/default_catalog_service.go:69-101 | An edit that was over before another began comes before it in the serial order, and keeps its answer. |
| ProductClock.MonotoneIffInOrder | server/catalog-service/internal/repository/postgres_catalog_repository.go:226-232 | Over every run that neither deletes nor recreates a row, its `updated_at` never goes back between any two moments if and only if its saved edits were settled in the order in which their transactions began. |
| ProductClock.SequentialEditsAreMonotone | server/catalog-service/internal/repository/postgres_catalog_repository.go:226-232 | So it never goes back when edits of the row do not overlap and the clock does not go back. |
| ProductClock.UpdatedAtGoesBack | server/catalog-service/internal/repository/postgres_catalog_repository.go:226-232 | For every product and any two start times there is a run of two overlapping patches after which its `updated_at` is the earlier one, having been the later. |
| Saga.Services.Handle | server/gateway-service/internal/server/admin_products_handler.go:111-144 | Undisturbed, which answer exactly when: 201 if and only if the SKU is new and both calls succeed, 503 if and only if only the first does, with the compensation confirmed if and only if the deletion succeeds, 4xx, 5xx and 502 likewise; and what is left behind: the new variant exactly when it was created and not deleted again, the stock row exactly when the registration got through, nothing else; each step goes where the concurrent model says. |
| Saga.CallsGoOn | server/gateway-service/internal/server/admin_products_handler.go:111-144 | In every state of every interleaving, where each call takes a saga, exactly. |
| Saga.SagaSucceeds | server/gateway-service/internal/server/admin_products_handler.go:131-144 | From every reachable state, a saga whose SKU is free and whose two calls succeed is answered 201, and both services have the SKU. |
| Saga.LateCallsAct | server/gateway-service/internal/clients/catalog.go:177-205 | Giving up on a call does not call it off: a first call acted on after the 5xx or 502 leaves the variant in the catalog, and a deletion acted on late takes it out. |
| Saga.DeletesItsOwnUnlessRobbed | server/gateway-service/internal/clients/catalog.go:195-205 | In every interleaving, lost, late and foreign deletions included: what a saga removes from the catalog is the variant it created if and only if nobody else had taken that away before. |
| Saga.DeletesOnlyItsOwn | server/gateway-service/internal/clients/catalog.go:195-205 | So while nobody else removes a SKU, every variant of it that disappears is removed by the saga that created it. |
| Saga.CreatedMeansBoth | server/gateway-service/internal/server/admin_products_handler.go:131-144 | From the moment a saga is answered 201 the inventory has its SKU, and the catalog its variant exactly as long as nobody else takes it away. |
| Saga.CleanFailureLeavesNothing | server/gateway-service/internal/server/admin_products_handler.go:119-141 | A saga the catalog refused (4xx), or one whose compensation was confirmed, has no variant in the catalog. |
| Saga.OrphansAreAccountedFor | server/gateway-service/internal/server/admin_products_handler.go:119-140 | Once all sagas have ended, a new variant without a stock row belongs to a saga whose compensation failed, whose first call was answered with a server error, or whose first call was not answered. |
| Saga.OrphansHappen | server/catalog-service/internal/repository/postgres_catalog_repository.go:302-313 | Each of the three does leave an orphan, for every new SKU whatever there was: the catalog inserts the variant outside any transaction and answers 500 when reading it back fails. |
| Saga.ExistingVariantsStay | server/gateway-service/internal/clients/catalog.go:177-205 | No interleaving of sagas removes or takes over a variant that was there before, unless somebody else removes its SKU. |
| Saga.AnotherDeleterBreaksIt | server/gateway-service/internal/clients/catalog.go:195-205 | With another deleter, a run in which one saga's compensation removes another's variant. |
| SagaWiring.NeverCreated | server/catalog-service/internal/handler/catalog_handler.go:250-288 | As wired today POST /products/{id}/variants never answers 201 or 409, whatever it is sent and whatever there is, because the handler leaves the stock status empty: a complete request with a positive id gets 404 for an unknown product, 500 if the lookup fails and 400 otherwise, and any other request 400 before the lookup. |
| SagaWiring.OnlyTheStatusIsMissing | server/catalog-service/internal/domain/catalog.go:72-95 | With one of the three stock statuses the variant of the same request would be valid exactly when its product id is positive, its SKU and currency are not blank and its price not negative. |
| SagaWiring.SeedingRegistersNothing | server/gateway-service/internal/clients/inventory.go:94-101 | As wired today registering a SKU changes no table and succeeds if and only if the SKU already has a row with non-negative stock. |
| Slug.SlugifyJoinsWords | client/admin/src/components/ProductForm.jsx:5-10 | slugify joins the maximal a-z0-9 runs of the lowered text with single hyphens, for any lowering and a missing text too, and the result is a slug. |
| Slug.WordsSplit | client/admin/src/components/ProductForm.jsx:5-10 | Any character that is not plain separates words. |
| Slug.OneWord | client/admin/src/components/ProductForm.jsx:5-10 | A text of plain characters is one word. |
| Slug.JoinMeans | client/admin/src/components/ProductForm.jsx:5-10 | Joining puts one hyphen between what it joins. |
| Slug.PlainIsLowerOrDigit | client/admin/src/components/ProductForm.jsx:5-10 | The plain characters are a to z and 0 to 9. |
| Slug.FixedIffSlug | client/admin/src/components/ProductForm.jsx:5-10 | The strings it leaves alone, and its outputs, are exactly those over a-z, 0-9 and hyphen without leading, trailing or doubled hyphen. |
| Slug.Idempotent | client/admin/src/components/ProductForm.jsx:5-10 | Applying it twice is applying it once. |

## Left out

- Sync.EverySessionEndsExact: deletions leave no trace in the feed, so a mirror may keep rows that are gone; only live rows are promised.
- Cursor.AcceptedCursor: of the JSON texts Go's decoder accepts, those with white space, escapes, unknown keys or keys in other letter case are refused by the model. The encoder never writes them. Nulls, and the spellings of a timestamp that only Go's lenient parser takes, are accepted.
- Interleaving.EveryRunIsSerial: a transaction that waits for a row re-reads it when it runs; a wait that the database ends by an error of its own is a fault.
- ProductEdits.EveryRunIsSerial: a deletion refused because images still refer to the product is a fault, and so is a wait that the database ends because it has found a circle; variants and images are not rows of this model.
- Subscribers.LockMoves: Go's lock also lets waiting readers in before the next writer; the model allows every order, so fairness is not stated.
- Saga.OrphansAreAccountedFor: the catalog's answer is taken to name the SKU that was asked for; a decoding error of that answer counts as a lost answer.
- SagaWiring.NeverCreated: that the catalog has no route for deleting a variant (server/catalog-service/internal/handler/catalog_handler.go:27-37) is not modelled; every compensation would be refused.
- Changes of a variant or image alone do not reach the product feed (server/catalog-service/internal/service/catalog_service.go:59-62); `Sync` is about product rows and inventory records.
- Errors of the sync endpoints' queries are a lost answer of `Sync`; the methods of `CatalogService` read one snapshot.
- Go's nil and empty slices are one value here.
- Creation and sync times, colours, warehouse codes and image sizes of the entities, which no proof depends on.
- SQL text, driver scanning, NULL mapping, protobuf, HTTP, SSE and gRPC encoding, routing, authentication, uploads, configuration, metrics and the seed command.
- Listing and reading stock, deriving stock status and event type, SyncStock, and the React components other than `slugify`: they add only easy members.
- Which id NewID draws: a parameter of the reservation.
