# Subscription lifecycle engine

This project models the part of the subscription service that creates, reads, changes the plan
of, cancels and renews a user's single subscription row. It also models the MongoDB collection
the engine writes through. The collection is keyed by user id: a unique index on `user_id`
allows at most one row per user.

The engine exists in two variants, and both are modelled:

- **Service variant.** `SubscriptionService` (module `Services`) works through
  `SubscriptionRepository` (module `Repository`). The repository holds the collection as a map
  from user id to row, plus the counter behind `primitive.NewObjectID`.
- **Manager variant.** `SubscriptionManager` (module `Models`) is the older engine. It issues its
  collection writes directly.

Both are state machines over `ACTIVE`, `CANCELLED`, `EXPIRED` and `INACTIVE`. Expiry is lazy. A
read at time `now` of an `ACTIVE` row whose `expires_at` is strictly before `now` returns the row
as `EXPIRED`. The same read writes `EXPIRED` back to the collection. `Models.Refreshed` is the
row as such a read sees it.

The clock is a parameter `now`. Timestamps are Go `time.Time` values in UTC (module `Clock`).
Each timestamp is a calendar date plus nanoseconds since midnight, and `After`/`Before` are the
strict order. `AddDate` follows Go's normalisation: a day beyond the end of the target month
carries into the next month, so October 31 plus one month is December 1. A "monthly" plan expires
`AddDate(now, 0, 1)`. A "yearly" plan expires `AddDate(now, 1, 0)`, which equals
`AddDate(now, 0, 12)`.

Each store primitive is specified by the fields it writes:

- `Update` writes `plan_id`, `status`, `start_date` and `expires_at`. It never writes
  `created_at` or `_id`.
- `Upsert` writes the same four fields and also sets `created_at` to now. It gives a new row a
  fresh `_id`, and an existing row keeps its `_id`.
- `Create` inserts a row with a fresh `_id` and `created_at` set to now. It fails on a user that
  already has a row.

Every engine method states its whole resulting store, case by case. It also states that the
collection invariant still holds (`Models.WellFormed`: rows are keyed by their own user id, and
identifiers are positive, already handed out and distinct). Finally it states that no row becomes
`INACTIVE` (`Models.NoNewInactive`).

## Model

| member | source | states |
|---|---|---|
| `Clock.RollDays` | core/services/subscriptions_service.go:39-44 | Go's day-overflow normalisation of the dates `AddDate` builds: the result is a valid calendar date, never in an earlier month, and unchanged when the month has that day |
| `Clock.Date` | core/services/subscriptions_service.go:39-44 | Go's `time.Date` for a positive day: month overflow carries into the year, then day overflow into later months; the result is a valid instant with the same time of day |
| `Clock.AddDate` | core/services/subscriptions_service.go:39-44 | `now.AddDate(years, months, 0)` is a valid instant with the same time of day |
| `Clock.AddDateShift` | core/services/subscriptions_service.go:39-44 | with `y`/`mo` the year and month `12*years+months` months on: when `mo` has the day, AddDate is exactly that day of `mo` with the same time of day; when it does not, AddDate lands in the month after `mo` on the day reduced by the length of `mo` |
| `Clock.AddDateIsLater` | core/services/subscriptions_service.go:39-44 | moving a positive number of months forward yields a strictly later instant, so a fresh expiry is always after its start |
| `Clock.MoreMonthsIsLater` | core/services/subscriptions_service.go:39-44 | adding more months yields a strictly later date, day overflow included |
| `Clock.YearIsTwelveMonths` | core/services/subscriptions_service.go:39-44 | `AddDate(1, 0, 0)` and `AddDate(0, 12, 0)` give the same date |
| `Clock.MonthEndRollsOver` | core/services/subscriptions_service.go:39-44 | October 31 plus one month is December 1; February 29 plus one year is March 1 |
| `Clock.LaterStartCanExpireEarlier` | core/services/subscriptions_service.go:39-44 | a monthly expiry is not monotone in its start: a January 31 start expires on March 3 (common year), a later February 1 start on March 1 |
| `Models.ExpiryFor` | core/services/subscriptions_service.go:38-46 | an expiry exists exactly for "monthly" and "yearly"; it is one calendar month, respectively twelve calendar months, after the start and strictly later than it |
| `Models.YearlyOutlastsMonthly` | core/services/subscriptions_service.go:39-44 | from the same start, the yearly expiry is strictly after the monthly one |
| `Models.Refreshed` | core/models/subscriptions.go:122-126 | a read at `now` changes only the status, only to EXPIRED, exactly when the row is ACTIVE with `now` after `expires_at`, and leaves no lapsed ACTIVE row |
| `Models.RefreshIsIdempotent` | core/services/subscriptions_service.go:84-92 | a second read at the same instant sees the row the first read returned, so it writes nothing |
| `Models.ExpiryIsPermanent` | core/services/subscriptions_service.go:84-92 | a row that reads as EXPIRED at some instant reads as EXPIRED at every later instant |
| `Models.ManagerCancelRejection` | core/models/subscriptions.go:136-144 | the manager refuses a cancel, always with "can only cancel active subscriptions", unless the row is ACTIVE and not past expiry |
| `Models.SubscriptionManager.constructor` | core/models/subscriptions.go:45-61 | a manager starts over an empty collection that has the unique index on user_id; its catalog files every plan under its own `_id`, as the lookup by `_id` does |
| `Models.SubscriptionManager.UpsertSubscription` | core/models/subscriptions.go:63-113 | unknown plan or unrecognised duration: error, nothing written; otherwise the row is set to the plan, ACTIVE, start and created_at = now, expiry from the plan; it is inserted with a fresh `_id` or keeps its `_id`; the returned subscription has the zero id |
| `Models.SubscriptionManager.GetSubscription` | core/models/subscriptions.go:115-134 | a missing user is the driver's no-documents error; otherwise the row as read at `now` is returned and stored (only the status of a lapsed row changes), with the plan joined in when the catalog has it, and a joined plan carries the subscription's plan id |
| `Models.SubscriptionManager.CancelSubscription` | core/models/subscriptions.go:136-152 | missing row: "subscription not found"; a lapsed row is stored as EXPIRED and refused as not active; other non-ACTIVE rows are refused untouched; on success only the status changes, to CANCELLED |
| `Repository.SubscriptionRepository.constructor` | core/repository/subscriptions_repo.go:18-38 | a repository starts over an empty collection whose rows are keyed by user id (the unique index) |
| `Repository.SubscriptionRepository.Create` | core/repository/subscriptions_repo.go:40-46 | inserts the row with a fresh `_id` used by no other row and `created_at = now`; a user that already has a row gives a duplicate-key error and nothing is written |
| `Repository.SubscriptionRepository.GetByUserID` | core/repository/subscriptions_repo.go:48-55 | returns a row exactly when the user has one, and that row belongs to the user; otherwise the no-documents error; the store is only read |
| `Repository.SubscriptionRepository.Update` | core/repository/subscriptions_repo.go:57-74 | overwrites only plan_id, status, start_date and expires_at of the user's row; `_id`, user_id and created_at are kept; a missing user leaves the store unchanged |
| `Repository.SubscriptionRepository.Upsert` | core/repository/subscriptions_repo.go:76-96 | sets created_at = now on the subscription and writes the four data fields and created_at; inserts with a fresh `_id` when the user has no row and keeps the existing `_id` otherwise |
| `Repository.SubscriptionRepository.Delete` | core/repository/subscriptions_repo.go:98-101 | removes the user's row; every other user's row is unchanged |
| `Repository.SubscriptionRepository.GetExpiredSubscriptions` | core/repository/subscriptions_repo.go:103-121 | every reported row is a stored row, and a stored row is reported exactly when `expires_at` is strictly before now and its status is not EXPIRED |
| `Repository.SubscriptionRepository.UpdateStatus` | core/repository/subscriptions_repo.go:123-134 | only the status of the row with the given `_id` changes; at most one row changes |
| `Repository.ReportedIncludesLapsed` | core/repository/subscriptions_repo.go:103-107 | every row a read at `now` would flip to EXPIRED is among the reported expired rows |
| `Repository.ReportedIncludesCancelled` | core/repository/subscriptions_repo.go:103-107 | a CANCELLED row past expiry is reported, although a read does not change it |
| `Services.CancelRejection` | core/services/subscriptions_service.go:155-163 | the service accepts a cancel exactly on an ACTIVE row not past expiry; it says "already expired" exactly on a lapsed ACTIVE row and "can only cancel active subscriptions" exactly on a non-ACTIVE row |
| `Services.SubscriptionService.constructor` | core/services/subscriptions_service.go:19-24 | the service is bound to its repository and its read-only plan catalog, which files every plan under its own `_id` |
| `Services.SubscriptionService.CreateSubscription` | core/services/subscriptions_service.go:26-76 | unknown plan: "plan not found"; unrecognised duration: "invalid plan duration"; neither writes. Otherwise the user has exactly one row with the plan, ACTIVE, start = created_at = now and the plan's expiry; it is inserted with a fresh `_id` or upserted keeping its `_id`, and it is not lapsed at now |
| `Services.SubscriptionService.GetSubscription` | core/services/subscriptions_service.go:78-101 | a missing user is the no-documents error; a lapsed ACTIVE row is returned and stored as EXPIRED; any other row is returned with no write; the plan is attached only when the catalog has it, and then carries the subscription's plan id |
| `Services.SubscriptionService.UpdateSubscription` | core/services/subscriptions_service.go:103-146 | missing row: "subscription not found"; a lapsed row is stored as EXPIRED and refused with "cannot update expired subscription"; other non-ACTIVE rows are refused untouched; only then is the plan looked up. On success plan_id is the new plan, start = now, expiry comes from the new plan (kept for an unrecognised duration), status and created_at are unchanged |
| `Services.SubscriptionService.CancelSubscription` | core/services/subscriptions_service.go:148-167 | missing row: "subscription not found"; a lapsed row is stored as EXPIRED and refused with "subscription has already expired"; other non-ACTIVE rows are refused untouched; on success only the status changes, to CANCELLED |
| `Services.SubscriptionService.RenewSubscription` | core/services/subscriptions_service.go:170-207 | only an exactly CANCELLED row is renewed (EXPIRED is refused); it becomes ACTIVE with start = created_at = now and the expiry of its unchanged plan (kept for an unrecognised duration); it is written by upsert and keeps its `_id` |
| `Variants.CancelVerdictsDifferOnlyOnLapsedRows` | core/models/subscriptions.go:136-144 | on a lapsed ACTIVE row the service's error text is "subscription has already expired" where the manager's is "can only cancel active subscriptions"; on every other row the two verdicts are equal |
| `Variants.CancelAcceptedAlike` | core/services/subscriptions_service.go:155-166 | both engines accept a cancel on exactly the same rows, so they leave the same row behind |
| `Scenarios.CreateCancelRenew` | core/services/subscriptions_service.go:26-207 | on a fresh collection: create on a monthly plan gives ACTIVE with expiry one month after start; cancel before expiry succeeds; renew gives ACTIVE on the same plan with start = created_at = renewal time and expiry one month later; a user who never subscribed is not found |
| `Scenarios.CancelLapsedOnBothEngines` | core/models/subscriptions.go:136-152 | the same lapsed subscription cancelled through each engine is stored as EXPIRED by both, with "already expired" from the service and "can only cancel active subscriptions" from the manager |

## Left out

- Network I/O, driver and transport errors. Store primitives do not fail, except `Create` on a
  duplicate user. Engines therefore never return the driver errors the source propagates from
  `GetByUserID` (other than "no documents"), `Create`, `Update` and `Upsert`.
- The best-effort expiry writes. At core/services/subscriptions_service.go:89 and :113 and
  :157, and at core/models/subscriptions.go:125, the write's error is ignored. It is modelled as
  always succeeding.
- Concurrency. Operations are atomic and sequential, so the check-then-create race in
  `CreateSubscription` cannot occur. The insert branch therefore never meets the unique index's
  refusal.
- Clock readings within one operation. `CreateSubscription` and `RenewSubscription` read
  `time.Now()` once themselves and once more inside `Create`/`Upsert`. `UpdateSubscription`
  reads it once for the expiry guard (core/services/subscriptions_service.go:111) and again for
  the new start and expiry (:128). The model uses one instant `now` for all readings of one
  operation.
- Time zones and storage precision. All instants are UTC. BSON dates keep milliseconds, so
  stored times are truncated. The model keeps full precision and has no time zones.
- `Clock.Date` covers only day overflow forward. Go's `time.Date` also normalises days below 1
  and hour, minute and second overflow. The engine never produces either.
- The order of `GetExpiredSubscriptions`'s result. The cursor's order is left out, and the model
  returns a set of rows.
- Object identifiers. `primitive.NewObjectID` is modelled as a counter starting at 1, with 0 as
  the zero ObjectID. Upsert draws an identifier on every call, as its `$setOnInsert` document
  does.
- The catalog's own operations. Plan CRUD is left out. The catalog is a read-only
  `map<ObjectId, Plan>`, and `Plan.Price` is carried along but never read.
- HTTP controllers, middleware, user accounts, configuration and the frontend are not part of
  this model.
