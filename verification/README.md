# Verified model of the storefront backend's stateful core

This project models, in Dafny, the parts of the marketplace backend whose correctness rests on
state, protocol, arithmetic or a text format, and proves what each of them promises over every
input, every run or every crash point. `dafny verify dfyconfig.toml` checks all of it.

| module | what it models |
|---|---|
| `Metrics`, `MetricsText`, `MetricsRegistry`, `MetricsScrape` | counters, gauges, histograms, the Prometheus text they are printed as and a reader for it |
| `BoundedCache`, `JsMap` | the LRU cache with expiry, on an insertion-ordered map |
| `DeduplicateKeys`, `Deduplicate` | request deduplication: completed-response cache, in-flight joins, close clean-up |
| `AccountLockout` | failure counting, locks, the background sweep |
| `ResponseCache` | the read cache in front of the catalogue handlers and the writers that clear it |
| `TenantMigration`, `MigrationRunner` | copy-verify-delete of billing rows, apply-then-record of migrations, under crashes |
| `PayoutAccount` | the four handlers of a vendor's payout account and the `isPayable` gate |
| `Sitemap`, `GuestCart`, `IpAllowlist` | XML printing, cookie parsing, CIDR masks under 32-bit shifts |
| `Money`, `LedgerBalances`, `Ledger`, `LedgerReversals`, `LedgerCrashes` | largest-remainder allocation, double-entry posting, reversals, balance repair, crashes between the writes |
| `AddressBook`, `AddressRuns`, `AddressDefaults`, `AddressContents` | saved addresses and their default flag under soft deletion and a unique index |
| `JsStrings`, `Sorting`, `Http`, `Wrappers` | the JavaScript string operations, `sort`, responses, options and results they need |

How a module is laid out: the state is a datatype or the fields of a class; each operation has a
specification function on that state; the class method follows the original statements and loops
and is proved equal to the function; the theorems are lemmas about the functions and about runs
of them. Where a promise turns out not to hold of the code, the code is kept, a lemma names the
run or input that breaks it, and another lemma says exactly when it does hold.

## Where the code and its own words differ

- `backend/src/observability/metrics.js:13` says non-finite gauge values are dropped; `inc` and `dec` keep them (`Metrics.GaugeStaysFiniteIff`).
- `backend/src/observability/metrics.js:61-62` documents `metric.inc(5)` as shorthand; it adds 1 (`Metrics.IncShorthandAddsOne`).
- `backend/src/middleware/accountLockout.js:58` speaks of extending a lock on each attempt; the lock is never moved (`AccountLockout.LockIsExact`).
- `backend/src/utils/money.js:87` promises that the parts always sum to the total; an empty weight list returns nothing (`Money.AllocationSumsIff`), and `backend/src/utils/money.js:91` promises nothing to zero weights, which fails when no weight is positive (`Money.ZeroWeightGetsNothingIff`).
- `backend/src/services/ledger.service.js:30-31` promises that a retry posts nothing new and finds the old journal; a retried reversal can answer with an over-reversal error instead (`Ledger.RetriedReversalIff`). `backend/src/services/ledger.service.js:39-40` lets the nightly repair close any crash window; it closes those after the last entry (`LedgerCrashes.RepairCompletesIff`). `backend/src/services/ledger.service.js:378` says no more is reversed than was posted. For the journal that holds if reversals neither overlap (`LedgerCrashes.OverlappingReversalsIff`) nor die between the post and its mark (`LedgerCrashes.OverReversedIff`, `LedgerCrashes.RetryHealsIff`, with a run in `LedgerCrashes.CrashBeforeMarkForgets`); line by line it holds exactly when the journal credited one line only (`Ledger.LinesBoundedIff`, with a run in `Ledger.RepeatedReversalsCanExceedALine`).
- `backend/src/services/ledger.service.js:201-205` means to refuse unknown kinds; a known kind in other capitals passes this check, finds the journal of its key or fails at the schema (`Ledger.KindInCapitals`). `backend/src/services/ledger.service.js:95` means to refuse unknown accounts; the names every object inherits pass (`LedgerBalances.InheritedNamePasses`).
- `backend/src/services/address.service.js:18` says exactly one default; there can be none. A default is lost by an update that switches its own flag off and by removals (`AddressDefaults.DefaultKeptIff`, over runs `AddressDefaults.DefaultOverRunsIff`); removing it while others remain fails on the declared index (`AddressRuns.RemoveDefaultPromotesIff`). `backend/src/services/address.service.js:78` promotes the newest by its comment, the oldest by its sort.
- `backend/src/controllers/sitemap.controller.js:10` caches per tenant what depends on the host (`Sitemap.OwnHostServedIff`).
- `backend/src/controllers/payout.controller.js:57-58` freezes on any change of destination; a UPI address that reads like the bank account it replaces or is replaced by counts as no change (`PayoutAccount.RedirectFreezesIff`, with a run in `PayoutAccount.DisguisedIsPaidAtOnce`).
- `backend/src/middleware/deduplicate.js:122` lets a waiter try when the original errored; nothing rejects its promise, and it waits for good (`Deduplicate.NoReplyWithoutOwner`).
- `backend/scripts/migrate-tenant-subscriptions.js:15` is idempotent by skipping known ids, which leaves a row that crashed between insert and delete in both collections for good (`TenantMigration.CrashAfterInsertStays`); whether re-runs ever get through depends on the target's unique index (`TenantMigration.CompletesIff`).
- `backend/src/migrations/migrate.js:5` runs files in name order; a file added later that sorts earlier runs last (`MigrationRunner.AddedFileInOrderIff`).

## Model

| member | source | states |
|---|---|---|
| Metrics.KeyIdentifiesSeries | backend/src/observability/metrics.js:36-40 | for label values without a pipe, two assignments share a series key if and only if they agree on every declared label |
| Metrics.KeyUnambiguousIff | backend/src/observability/metrics.js:36-40 | keys are unambiguous for all values exactly when at most one distinct label is declared; otherwise two assignments collide |
| Metrics.KeyIgnoresLabelOrder | backend/src/observability/metrics.js:36-40 | the order and repetition of declared label names does not change a key |
| Metrics.CounterIsSum | backend/src/observability/metrics.js:71-82 | after any calls, a counter's value for an assignment is its old value plus the accepted increments made with that assignment |
| Metrics.CounterRunKeyed | backend/src/observability/metrics.js:48-82 | after any calls each stored counter series keeps labels that belong to its key |
| Metrics.CounterSeriesIsSum | backend/src/observability/metrics.js:71-82 | over every run each counter series holds the accepted sum of the very labels kept with it |
| Metrics.CounterNeverDecreases | backend/src/observability/metrics.js:72-81 | no sequence of calls, with any labels, lowers any counter value |
| Metrics.IncShorthandAddsOne | backend/src/observability/metrics.js:60-78 | a bare number passed to `inc` adds one, whatever the number |
| Metrics.GaugeIsCell | backend/src/observability/metrics.js:84-104 | the stored gauge for an assignment is what one cell would hold after the sets, increments and decrements made with it |
| Metrics.GaugeRunKeyed | backend/src/observability/metrics.js:48-104 | after any operations each stored gauge series keeps labels that belong to its key |
| Metrics.GaugeSeriesIsCell | backend/src/observability/metrics.js:84-104 | over every run each gauge series holds the cell of the labels kept with it |
| Metrics.GaugeStaysFiniteIff | backend/src/observability/metrics.js:84-100 | an operation keeps all gauges finite exactly when it is a set or its amount is finite |
| Metrics.HistogramIsTally | backend/src/observability/metrics.js:106-126 | each histogram series holds count, sum and per-bucket counts of exactly the finite observations made with its labels |
| Metrics.HistRunKeyed | backend/src/observability/metrics.js:106-126 | after any observations each stored histogram series keeps labels that belong to its key |
| Metrics.HistogramSeriesIsTally | backend/src/observability/metrics.js:106-126 | over every run each histogram series tallies the observations made with the labels kept with it |
| Metrics.BucketsAreCumulative | backend/src/observability/metrics.js:107-126 | bucket counts never decrease along the sorted buckets and never exceed the total |
| MetricsText.EscapeIsPerCharacter | backend/src/observability/metrics.js:23-25 | the three successive replaces equal one replacement per character |
| MetricsText.ReadPrintedSample | backend/src/observability/metrics.js:27-33 | a printed sample line reads back to its name, exact label values and value token |
| MetricsText.ReadPrintedDoc | backend/src/observability/metrics.js:165-188 | a printed document reads back to the same families in order |
| MetricsRegistry.RenderReadsBack | backend/src/observability/metrics.js:165-188 | reading the rendered text gives every non-empty family in registration order with name, help, type, series, exact label values and value tokens; what each kind of family says about its calls is in `MetricsScrape` |
| MetricsScrape.ScrapeShowsSums | backend/src/observability/metrics.js:71-188 | from the first increment to the text of a scrape read back, among any other metrics: every sample at the counter's place carries the accepted sum of the labels printed with it, no two share labels, and every assignment with an accepted increment is there |
| MetricsScrape.ScrapeShowsCells | backend/src/observability/metrics.js:84-188 | the same for a gauge: one sample per assignment, showing what its own cell holds after all sets, increments and decrements, printed with exactly its labels; every operation that writes has its sample |
| MetricsScrape.ScrapeShowsTallies | backend/src/observability/metrics.js:106-188 | the same for a histogram: one block per observed assignment, reporting exactly the observations made with the printed labels; bucket counts never decrease and stay within the count shown as `+Inf` and `_count` |
| MetricsRegistry.SortedPairsAreLabels | backend/src/observability/metrics.js:28-33 | the printed pairs of a sample are exactly the stored labels, ordered by name, each name once |
| MetricsRegistry.Counter.Inc | backend/src/observability/metrics.js:72-78 | changes both Maps as the counter specification says, nothing when the value is rejected |
| MetricsRegistry.Gauge.Set | backend/src/observability/metrics.js:85-91 | writes the cell and its labels, or nothing for a missing or non-finite value |
| MetricsRegistry.Gauge.Inc | backend/src/observability/metrics.js:92-97 | adds to the cell, counting missing, zero and NaN as zero, without a finiteness check |
| MetricsRegistry.Gauge.Dec | backend/src/observability/metrics.js:98-100 | is an increment by the negated amount |
| MetricsRegistry.Histogram.Observe | backend/src/observability/metrics.js:111-126 | bumps the record of the key exactly once per finite value, creating it when absent |
| MetricsRegistry.Histogram.CountInto | backend/src/observability/metrics.js:123-125 | the bucket loop adds one to each bucket at or above the value and to no other |
| MetricsRegistry.Registry.Get | backend/src/observability/metrics.js:151-162 | a full name is created and ordered once, of the requested kind, help, labels and sorted buckets and without series; later requests return the same metric |
| MetricsRegistry.Registry.Render | backend/src/observability/metrics.js:165-188 | returns the text of the registered metrics, in registration order, each with its own name, help, kind and series |
| MetricsRegistry.RenderAll | backend/src/observability/metrics.js:165-188 | the pushed lines, joined and ended by a newline, are the document of the non-empty families |
| BoundedCache.Cache.Get | backend/src/utils/BoundedCache.js:38-55 | answers live entries only, drops an expired one, makes a live one most recent, counts hits and misses |
| BoundedCache.Cache.Put | backend/src/utils/BoundedCache.js:57-75 | stores with expiry at the end of the order, evicting from the front only for a new key at capacity, and counts it |
| BoundedCache.Cache.Has | backend/src/utils/BoundedCache.js:77-85 | tells liveness without touching recency, dropping an expired entry |
| BoundedCache.Cache.CleanUp | backend/src/utils/BoundedCache.js:124-131 | the loop removes the expired entries of the old store |
| BoundedCache.InsertWithRoom | backend/src/utils/BoundedCache.js:57-75 | below capacity, or for a present key, a write changes no other entry |
| BoundedCache.InsertWhenFull | backend/src/utils/BoundedCache.js:66-75 | at capacity a new key costs exactly the least recently used one |
| BoundedCache.CleanupKeepsLive | backend/src/utils/BoundedCache.js:124-131 | clean-up keeps exactly the live entries, so no later read notices it |
| BoundedCache.NeverWrongOrExpired | backend/src/utils/BoundedCache.js:38-75 | after any operations a hit is the last value written under that key, before its expiry |
| BoundedCache.RunSize | backend/src/utils/BoundedCache.js:5-9 | the hard cap holds after any sequence of operations |
| BoundedCache.RecentlyUsedSurvives | backend/src/utils/BoundedCache.js:49-75 | an entry is still served at its deadline if fewer than the capacity of other keys were used meanwhile |
| DeduplicateKeys.DedupKey | backend/src/middleware/deduplicate.js:69-99 | the header loop finds the first usable key, else a POST fingerprint, else none |
| DeduplicateKeys.KeyExistsIff | backend/src/middleware/deduplicate.js:68-99 | a request gets a key exactly if it is a write off the skipped paths and is a POST or carries a usable header |
| DeduplicateKeys.ExplicitKeyIsFirst | backend/src/middleware/deduplicate.js:74-82 | the explicit key is the value of the first header with 1 to 200 characters |
| DeduplicateKeys.KeysAreScoped | backend/src/middleware/deduplicate.js:46-56 | requests with equal keys have the same host, tenant header, credential and explicit key, given an injective digest and no pipe in host or tenant |
| DeduplicateKeys.SendersNeverShare | backend/src/middleware/deduplicate.js:46-56 | requests with different hosts, credentials, tenant ids, or slugs where no id is sent, never share a key, under the same conditions |
| DeduplicateKeys.FingerprintIdentifies | backend/src/middleware/deduplicate.js:85-98 | two requests without an explicit key that share one are POSTs with the same URL and body written one after the other; with the same URL the bodies are equal |
| DeduplicateKeys.RetryGetsSameKey | backend/src/middleware/deduplicate.js:74-98 | a retry by the same sender, with the same usable headers or else the same URL and body, gets the same key |
| Deduplicate.ReachableIsSound | backend/src/middleware/deduplicate.js:101-149 | in every reachable state in-flight owners are still running, every reply came from a handler run under that key, and a waiter gets its owner's reply |
| Deduplicate.ArrivalOutcome | backend/src/middleware/deduplicate.js:101-126 | a keyed request is answered from a live cached success, joins a running owner, or becomes the registered owner |
| Deduplicate.OwnershipKeptIff | backend/src/middleware/deduplicate.js:130-149 | an event keeps every running handler registered under its key exactly when it does not delete another request's entry |
| Deduplicate.OneHandlerPerKey | backend/src/middleware/deduplicate.js:101-149 | over every run in which no event deletes another request's in-flight entry, at most one handler runs per key |
| Deduplicate.SecondHandlerIff | backend/src/middleware/deduplicate.js:100-149 | after an event, a new request without a cached reply starts a handler beside a running one exactly if the event deleted that one's in-flight entry |
| Deduplicate.NoReplyWithoutOwner | backend/src/middleware/deduplicate.js:112-149 | over every run in which its owner does not run `res.json` a waiting request gets no reply and keeps waiting |
| Deduplicate.LateCloseLetsHandlersOverlap | backend/src/middleware/deduplicate.js:146-149 | a run in which the late close of a failed request lets two handlers run for one key |
| Deduplicate.SingleExecution | backend/src/middleware/deduplicate.js:101-149 | if the owner of a key replies successfully before closing, no earlier handler of the key replies or closes before that reply, and nothing is evicted, every later request with the key until the deadline gets that reply or waits for it and the handler runs once |
| Deduplicate.Deduplicator.Handle | backend/src/middleware/deduplicate.js:69-151 | performs the arrival step: cached reply, join, or new owner |
| Deduplicate.Deduplicator.Reply | backend/src/middleware/deduplicate.js:130-144 | caches a success, settles the promise and drops the key's in-flight entry |
| Deduplicate.Deduplicator.OnClose | backend/src/middleware/deduplicate.js:147-149 | drops the key's in-flight entry whoever owns it |
| AccountLockout.LockoutStore.RecordFailure | backend/src/middleware/accountLockout.js:47-72 | counts the failure or, while locked, changes nothing; returns the verdict; leaves other keys alone |
| AccountLockout.LockoutStore.IsLocked | backend/src/middleware/accountLockout.js:84-92 | answers whether a lock is still on and forgets one that has passed |
| AccountLockout.LockoutStore.SweepAll | backend/src/middleware/accountLockout.js:36-42 | the interval loop drops exactly the passed locks and the entries idle for over 30 minutes |
| AccountLockout.LockoutStore.Begin | backend/src/middleware/accountLockout.js:116-133 | refuses exactly the locked keys, with the remaining seconds rounded up |
| AccountLockout.LockoutStore.Finish | backend/src/middleware/accountLockout.js:137-159 | records a failed 4xx and says whether it locked, clears on a successful 2xx, otherwise changes nothing |
| AccountLockout.LocksAtMax | backend/src/middleware/accountLockout.js:47-72 | a fresh key is locked by its `max`-th failure and not before, until the lock time after it and no longer |
| AccountLockout.RemainingIsExact | backend/src/middleware/accountLockout.js:63-71 | the announced remaining count is exact: that many more failures lock, fewer do not |
| AccountLockout.SweepIsTransparent | backend/src/middleware/accountLockout.js:36-42 | a sweep before any ascending sequence of lock checks changes none of their answers |
| AccountLockout.LockIsExact | backend/src/middleware/accountLockout.js:58-61 | nothing before its end moves a lock: not failures, checks or sweeps |
| AccountLockout.RateBound | backend/src/middleware/accountLockout.js:116-162 | with requests one at a time and none succeeding, at most `max` failing handler runs fall in any window as long as the lock, for locks up to the sweep's 30 minutes and for a single attempt always |
| AccountLockout.RateBoundIff | backend/src/middleware/accountLockout.js:36-72 | that bound holds exactly when a single attempt is allowed or the lock is no longer than the sweep's 30 minutes |
| AccountLockout.OverlapEscapesBound | backend/src/middleware/accountLockout.js:120-145 | if requests may overlap, no number of failing runs is excluded |
| AccountLockout.RetryAfterSufficesIff | backend/src/middleware/accountLockout.js:122-123 | waiting the advertised seconds suffices exactly when the remaining time is not a whole number of seconds |
| ResponseCache.GetTtl | backend/src/middleware/responseCache.js:40-54 | returns the time of the first matching pattern, or one minute if none matches |
| ResponseCache.AllowedIs | backend/src/middleware/responseCache.js:81 | cached are the catalogue paths without `/admin` or `/tenant` in them and the store info paths, ending there or at a slash |
| ResponseCache.KeyIsInjective | backend/src/middleware/responseCache.js:102-104 | a key determines tenant, credential tag and URL when tenant and tag have no colon |
| ResponseCache.SameKeyIff | backend/src/middleware/responseCache.js:61-65 | two requests share a key exactly when URL, credential and tenant agree, no tenant counting as `public`, given a digest that tells credentials apart |
| ResponseCache.HitIff | backend/src/middleware/responseCache.js:92-112 | served from the cache are exactly the GETs of an allowed path, up to the query, whose key is live |
| ResponseCache.Middleware.Begin | backend/src/middleware/responseCache.js:92-112 | serves only allowed GET requests with a live entry of their key and otherwise lets the handler run |
| ResponseCache.Middleware.Reply | backend/src/middleware/responseCache.js:115-124 | stores exactly the 2xx answers, for the path's time to live |
| ResponseCache.Middleware.InvalidateMatching | backend/src/middleware/responseCache.js:131-140 | removes exactly the live keys containing the pattern, keeps the others in order, and returns how many |
| ResponseCache.Middleware.InvalidateAll | backend/src/middleware/responseCache.js:143-154 | empties the cache and returns its size |
| ResponseCache.CoherenceKeptIff | backend/src/middleware/responseCache.js:102-154 | a step keeps the published cache equal to what handlers would compute exactly when it does not store an outdated answer |
| ResponseCache.HitsAreCurrent | backend/src/middleware/responseCache.js:102-154 | with no write published between a handler's read and its reply, every hit equals what the handler would compute for this very request from the current store, if handlers answer equal URL, credential and tenant alike |
| ResponseCache.HitsAreRecent | backend/src/middleware/responseCache.js:102-124 | over every run a hit repeats a 2xx answer the handler computed for an earlier request with the same URL, credential and tenant, stored at most its time to live ago |
| ResponseCache.OverlappingWriteServesStale | backend/src/middleware/responseCache.js:115-154 | for every cacheable request and every write, a write published between read and reply makes the next request get the old answer |
| TenantMigration.Migration.Move | backend/scripts/migrate-tenant-subscriptions.js:29-41 | copy, verify, delete for one row, stopped after any number of database operations |
| TenantMigration.Migration.Execute | backend/scripts/migrate-tenant-subscriptions.js:43-81 | the run over the billing rows read at its start; a dry run writes nothing |
| TenantMigration.RunsAreSafe | backend/scripts/migrate-tenant-subscriptions.js:29-79 | over any crashed and repeated runs no id is lost, customer rows stay, target rows are never altered, and a row left the source only with an agreeing copy in the target |
| TenantMigration.CompletedRunLeaves | backend/scripts/migrate-tenant-subscriptions.js:67-79 | a completed run has every billing id in the target, leaves in the source exactly those the target already had, and counts both right |
| TenantMigration.CompletedRunClearsIff | backend/scripts/migrate-tenant-subscriptions.js:29-41 | a completed run empties the source of billing rows exactly when none was in the target before |
| TenantMigration.CompletedIsFinal | backend/scripts/migrate-tenant-subscriptions.js:30-31 | after a completed run any further runs write nothing |
| TenantMigration.CrashAfterInsertStays | backend/scripts/migrate-tenant-subscriptions.js:30-40 | a row inserted but not deleted stays in both collections through all later runs |
| TenantMigration.FaithfulNeverFailsVerify | backend/scripts/migrate-tenant-subscriptions.js:33-38 | a target that keeps what it is given never fails verification |
| TenantMigration.ConflictBlocksEveryRun | backend/scripts/migrate-tenant-subscriptions.js:37-86 | a billing row whose tenant already has a target row of the same live status keeps every run from completing, wherever earlier runs stopped |
| TenantMigration.CompletesIff | backend/src/models/tenantSubscription.model.js:56-59 | for a target that keeps rows, after any crashed runs a run with enough operations completes exactly when the unique index had room at the start for every billing row the target lacked |
| MigrationRunner.FileListIsCanonical | backend/src/migrations/migrate.js:23-28 | the list holds exactly the eligible files, once, sorted, whatever order the directory is read in |
| MigrationRunner.Runner.RunMigrations | backend/src/migrations/migrate.js:41-107 | applies and records the pending files in order up to the crash point; the status mode changes nothing |
| MigrationRunner.RestartEqualsCleanRun | backend/src/migrations/migrate.js:46-48 | for a fixed list and restartable migrations the recorded names are always a prefix of it, and any crashed history that once completes equals one clean run |
| MigrationRunner.CrashBeforeRecordIff | backend/src/migrations/migrate.js:85-91 | dying between any migration and its record is harmless, once it is recorded, exactly when that migration is idempotent there |
| MigrationRunner.AddedFileInOrderIff | backend/src/migrations/migrate.js:46-48 | a later added file runs after all others; records stay in list order exactly when it sorts last |
| PayoutAccount.FingerprintIdentifiesIff | backend/src/controllers/payout.controller.js:17-18 | two validated requests have equal fingerprints exactly when they name one destination or a UPI address spells out the other's account and IFSC |
| PayoutAccount.Accounts.UpsertMyAccount | backend/src/controllers/payout.controller.js:61-92 | saves the details and, only on a changed fingerprint, resets verification and freezes for 24 hours |
| PayoutAccount.Accounts.VerifyMyAccount | backend/src/controllers/payout.controller.js:108-121 | marks an existing account verified, or reports that there is none |
| PayoutAccount.Accounts.SubmitMyKyc | backend/src/controllers/payout.controller.js:131-146 | makes the KYC pending, creating the account if needed |
| PayoutAccount.Accounts.ReviewVendorKyc | backend/src/controllers/payout.controller.js:475-486 | approves, or rejects with a reason, an existing account; otherwise an error and no change |
| PayoutAccount.HoldsLastSaved | backend/src/controllers/payout.controller.js:66-92 | over every history the account holds the method, holder, number, IFSC, UPI address and bank of the last save, an empty text as none, and shows at most the last four digits of a number |
| PayoutAccount.HoldsLastSubmitted | backend/src/controllers/payout.controller.js:131-146 | over every history the KYC details are those of the last submission |
| PayoutAccount.PayableIff | backend/src/models/vendorPayoutAccount.model.js:74-79 | over every history an account is payable exactly when the latest KYC event approves, a verification follows the last change of destination and every change is at least 24 hours old |
| PayoutAccount.PayoutSafety | backend/src/controllers/payout.controller.js:56-92 | a payable account with a saved fingerprint was changed to it at least 24 hours ago and verified after that |
| PayoutAccount.RedirectFreezesIff | backend/src/controllers/payout.controller.js:51-85 | over validated histories a new destination resets verification and freezes the account exactly unless it reads like the old one; then both stay as they were |
| PayoutAccount.DestinationSafety | backend/src/controllers/payout.controller.js:51-92 | a payable account was sent to a destination saved a day ago and verified after that; every new destination since then is a disguise of the one before, and the stored account pays to the last one saved |
| PayoutAccount.DisguisedIsPaidAtOnce | backend/src/controllers/payout.controller.js:17-18 | a verified UPI address that spells out a bank account can be replaced by that account and is payable at once |
| PayoutAccount.PayableWithoutDestination | backend/src/controllers/payout.controller.js:131-146 | an account created by KYC alone, verified and approved, is payable with no destination and no freeze |
| Sitemap.EscapeIsPerCharacter | backend/src/controllers/sitemap.controller.js:20-27 | the five successive replaces equal one replacement per character |
| Sitemap.UnescapeEscape | backend/src/controllers/sitemap.controller.js:20-27 | decoding the predefined entities undoes the escaping |
| Sitemap.Print | backend/src/controllers/sitemap.controller.js:97-108 | the appending loop prints the document of the URL list |
| Sitemap.ReadPrinted | backend/src/controllers/sitemap.controller.js:97-108 | reading the printed document gives back the URL list, optional dates included |
| Sitemap.Controller.Generate | backend/src/controllers/sitemap.controller.js:33-117 | serves an unexpired cached document, else prints home, limited products and categories and caches it for an hour |
| Sitemap.AddressesAre | backend/src/controllers/sitemap.controller.js:54-95 | the list is the home page, a page for each of the first 50000 products and a search page for each category, in order, with their dates, frequencies and priorities, under the request's host |
| Sitemap.NoTenantGetsNothing | backend/src/controllers/sitemap.controller.js:33-38 | a request without a tenant gets an empty list and leaves the cache alone |
| Sitemap.ServedIsRecent | backend/src/controllers/sitemap.controller.js:40-46 | every response for a tenant is what its own catalogue gave to this visit or to one less than an hour earlier |
| Sitemap.FreshReadsBack | backend/src/controllers/sitemap.controller.js:48-108 | a fresh response reads back as the list of home page, products and categories |
| Sitemap.OwnHostServedIff | backend/src/controllers/sitemap.controller.js:41-52 | over every run a visit gets its own host exactly when nothing fresh is cached for its tenant or the visit that filled the entry had the same host; a fresh entry reads back as that visit's list |
| Sitemap.SecondHostGetsFirst | backend/src/controllers/sitemap.controller.js:41-52 | the concrete case: within the hour any second host of a tenant is served the first host's URLs |
| GuestCart.ParseCookieHeader | backend/src/middleware/guestCart.js:26-41 | the loop builds the specified map from the header |
| GuestCart.PieceIs | backend/src/middleware/guestCart.js:29-38 | a piece splits at its first equals sign, both sides trimmed, the value decoded or kept as it is where decoding fails |
| GuestCart.LookupIsLast | backend/src/middleware/guestCart.js:28-38 | the value of a name is that of the last piece naming it |
| GuestCart.ParseJoined | backend/src/middleware/guestCart.js:26-41 | well-formed pairs joined by semicolon and space parse to the map where the last value wins |
| GuestCart.ParseGuestKey | backend/src/middleware/guestCart.js:43-50 | a well-formed guest header first, else a well-formed guest cookie, else none |
| GuestCart.GuestKeyIs | backend/src/middleware/guestCart.js:43-50 | the key is a header of 16 to 64 letters, digits, `_` or `-`, lower-case spelling first, else such a value of the cookie |
| GuestCart.CookieRoundTrip | backend/src/middleware/guestCart.js:43-62 | a key that was set is found again among arbitrary other pieces when no guest header is sent; the clearing cookie leaves none |
| GuestCart.CookieSplits | backend/src/middleware/guestCart.js:52-62 | split at its semicolons, the printed cookie is the pair followed by each attribute once |
| GuestCart.Exchange.EnsureGuestKey | backend/src/middleware/guestCart.js:84-91 | mints and attaches a key only for an anonymous request without one |
| IpAllowlist.DottedReadsBack | backend/src/middleware/ipAllowlist.js:41-45 | a printed dotted quad is read as its 32-bit value |
| IpAllowlist.MembershipIff | backend/src/middleware/ipAllowlist.js:24-45 | for every two texts, membership is equal address text, a zero prefix, or two parsed addresses in one block whose size follows the 32-bit shift rules |
| IpAllowlist.CidrWithAnyPrefix | backend/src/middleware/ipAllowlist.js:24-39 | for any numeric prefix, membership is equality of quotients by a power of two whose exponent wraps at 32 |
| IpAllowlist.CidrIsBlock | backend/src/middleware/ipAllowlist.js:24-39 | for prefixes 0 to 32 the mask test is membership in the block |
| IpAllowlist.BareAddressIsExact | backend/src/middleware/ipAllowlist.js:25-29 | without a mask only the address itself matches |
| IpAllowlist.UnreadablePrefixIsExact | backend/src/middleware/ipAllowlist.js:27-38 | a prefix that is not a number leaves an exact match |
| IpAllowlist.BlockSize | backend/src/middleware/ipAllowlist.js:37-38 | a block is an aligned interval of 2^(32-p) addresses |
| IpAllowlist.NestedOrDisjoint | backend/src/middleware/ipAllowlist.js:37-38 | any two blocks are nested or disjoint |
| IpAllowlist.AdmitsExactlyTheBlocks | backend/src/middleware/ipAllowlist.js:47-96 | configured with a comma-separated list of ranges the middleware admits exactly the addresses in their blocks, and everyone when the list is empty |
| Money.AllocatePaise | backend/src/utils/money.js:100-129 | the in-place loop computes the specified allocation |
| Money.SharesApportioned | backend/src/utils/money.js:116-126 | shares are rounded down or up by less than one, sum to the whole, and serve larger remainders first, lower index on ties |
| Money.ApportionmentIsUnique | backend/src/utils/money.js:89-90 | those properties determine the allocation |
| Money.AllocationSumsIff | backend/src/utils/money.js:87 | the parts sum to the total exactly unless there is no slot and something to allocate |
| Money.AllocationKeepsSign | backend/src/utils/money.js:88 | no part has the opposite sign of the total |
| Money.AllocationIsWithinOne | backend/src/utils/money.js:116-126 | every part is within one paisa of its exact share |
| Money.ZeroWeightGetsNothingIff | backend/src/utils/money.js:91-114 | a weight of zero or less gets nothing exactly unless it is first and no weight is positive |
| Money.SplitTaxIsEvenAllocation | backend/src/utils/money.js:139-143 | the two tax halves add up and are the even allocation with its slots swapped |
| LedgerBalances.GroupedIsLineByLine | backend/src/services/ledger.service.js:323-351 | grouping lines by account and adding once per account is adding every line |
| LedgerBalances.NaturalSumsDiffer | backend/src/models/accountBalance.model.js:49-54 | the natural balances of the two sides differ by the net of the entries |
| LedgerBalances.NaturalSides | backend/src/models/accountBalance.model.js:49-54 | asset and expense balances are debits minus credits, all others credits minus debits |
| LedgerBalances.InheritedNamePasses | backend/src/services/ledger.service.js:92-97 | `constructor`, no account of the chart, passes for one |
| Ledger.PostKeepsInv | backend/src/services/ledger.service.js:197-320 | posting keeps the books sound; an error or a repeated key changes nothing |
| Ledger.PostOutcome | backend/src/services/ledger.service.js:197-311 | the outcome of a post in every case, said about the request's own lines; anything but a created journal changes nothing |
| Ledger.PostedIs | backend/src/services/ledger.service.js:266-311 | a created journal has the request's kind, its non-zero lines and their total, is filed under its key and appended to the entries, and nothing else changes |
| Ledger.FirstErrorIs | backend/src/services/ledger.service.js:218-231 | of several bad lines the first decides the error, a negative amount before both sides before an unknown account; lines without an amount are not looked at |
| Ledger.RepeatedPostIsNoOp | backend/src/services/ledger.service.js:242-244 | a posted key is never posted again, whatever valid content comes with it |
| Ledger.AccountingIdentity | backend/src/controllers/ledger.controller.js:19-29 | the natural balances of the debit-positive accounts equal those of all others |
| Ledger.BooksAlwaysBalance | backend/src/models/ledgerJournal.model.js:4-16 | over every run of posts and reversals each journal balances, its reversals add up to its mark and never exceed it, the trial balance is even and each account is the sum of its entries |
| Ledger.ReversalBalances | backend/src/services/ledger.service.js:406-428 | a reversal balances by construction, and validation refuses it exactly for a kind the first check rejects, a missing key or an unknown counter account |
| Ledger.ReversalOutcome | backend/src/services/ledger.service.js:388-455 | the outcome of a reversal on sound books in every case, success and each error, a kind that only differs in capitals reaching the schema included |
| Ledger.KindInCapitals | backend/src/services/ledger.service.js:201-205 | every kind written in capitals passes the first check: a posted key finds its journal, a new one is refused by the period check or the schema |
| Ledger.KindPassesIff | backend/src/services/ledger.service.js:201-205 | the first check passes exactly what equals a kind up to capitals |
| Ledger.OneReversalFitsEachLine | backend/src/services/ledger.service.js:406-419 | the share a first reversal takes from a credit line is at most what it was credited, and for a full one exactly that |
| LedgerReversals.ReversalDebits | backend/src/services/ledger.service.js:406-428 | a created reversal debits every account the shares of its own credit lines and credits the counter account the amount |
| LedgerReversals.FullReversalMirrors | backend/src/services/ledger.service.js:374-379 | a full reversal debits every account exactly what the journal credited it |
| LedgerReversals.ReversalIsProportional | backend/src/services/ledger.service.js:374-379 | every account is debited in proportion to what it was credited, to within one paisa for each of its credit lines, and not at all if it was credited nothing |
| LedgerReversals.ReversalNamesLines | backend/src/services/ledger.service.js:409-428 | the new entries carry accounts and references of credit lines, and end with the counter account |
| LedgerReversals.ReversalJournal | backend/src/services/ledger.service.js:428-453 | the journal of a created reversal has its kind, its amount and the entries it added, and points at the journal it reverses |
| Ledger.LinesBoundedIff | backend/src/services/ledger.service.js:374-419 | for every sound journal, reversals within its total never take more from a line than it was credited exactly when there is one credit line only |
| Ledger.OnePaisaGoesToLargest | backend/src/services/ledger.service.js:406-419 | with two or more credit lines a one-paisa reversal goes to the largest, the first of equals |
| Ledger.RepeatedReversalsCanExceedALine | backend/src/services/ledger.service.js:374-379 | a run of one sale and two one-paisa reversals on empty books: all succeed, and an account credited one paisa is debited two |
| Ledger.RetriedReversalIff | backend/src/services/ledger.service.js:398-404 | a retried reversal is the promised no-op exactly when as much again is still unreversed, else an over-reversal error |
| LedgerCrashes.CrashBeforeMarkForgets | backend/src/services/ledger.service.js:444-453 | dying before the mark loses it: a retry marks nothing, and all that was unreversed before can be reversed again under another key, together more than was posted |
| LedgerCrashes.RetryHealsIff | backend/src/services/ledger.service.js:428-455 | a retry after a crash ends in the books of an undisturbed reversal exactly if it died before the post or after the mark |
| LedgerCrashes.OverReversedIff | backend/src/services/ledger.service.js:374-455 | over every run with crashes, what was reversed of a journal is its mark plus the marks lost in crashes; it exceeds what was posted exactly when the losses exceed what is still shown as unreversed |
| LedgerCrashes.OverlappingReversalsIff | backend/src/services/ledger.service.js:395-455 | two reversals that both read the journal before either marks it both succeed, and over-reverse it exactly when together they exceed what was left |
| Ledger.RepairRestores | backend/src/services/ledger.service.js:583-599 | repairing the drifted accounts makes the view's amounts those of the entries |
| Ledger.RepairKeepsRest | backend/src/services/ledger.service.js:583-599 | a repair leaves types and entry counts as they are |
| Ledger.InStepNeverDrifts | backend/src/services/ledger.service.js:537-602 | no reachable set of books drifts |
| LedgerCrashes.RepairClosesWindowIff | backend/src/services/ledger.service.js:36-40 | after a crash during a post, recomputing from entries gives the complete amounts exactly when all entries were written; a retry writes nothing more |
| LedgerCrashes.RepairCompletesIff | backend/src/services/ledger.service.js:537-602 | rewriting the drifted accounts after a post that died gives the view of the completed post exactly when every entry had been written |
| Ledger.LedgerService.ApplyToBalances | backend/src/services/ledger.service.js:323-351 | the two loops add every line to its account |
| Ledger.LedgerService.Validate | backend/src/services/ledger.service.js:223-231 | the first bad line decides the error |
| Ledger.LedgerService.PostJournal | backend/src/services/ledger.service.js:197-320 | posts as specified: the same checks in the same order (a kind in other capitals passes the first and fails at the schema), then journal, entries and balances |
| Ledger.LedgerService.ReverseProportional | backend/src/services/ledger.service.js:388-455 | reverses as specified, marking both journals only when one was created |
| Ledger.LedgerService.TrialBalance | backend/src/services/ledger.service.js:610-623 | balances exactly when the difference is zero, always on sound books, and while the view is in step the difference is the gap between debit-positive and credit-positive balances |
| Ledger.LedgerService.ListDrifted | backend/src/services/ledger.service.js:537-581 | the two loops list exactly the accounts whose view differs from the entries |
| Ledger.LedgerService.VerifyBalances | backend/src/services/ledger.service.js:537-602 | lists exactly the drifted accounts, and rewrites them only when asked |
| AddressBook.AddressService.ClearDefaults | backend/src/services/address.service.js:80-98 | clears the flag on the owner's rows but the exempt one, removed rows included |
| AddressBook.AddressService.CreateAddress | backend/src/services/address.service.js:33-57 | refuses at the limit, else appends a row and sets the default when asked |
| AddressBook.AddressService.UpdateAddress | backend/src/services/address.service.js:59-73 | saves the patch under the index, then sets the default when asked |
| AddressBook.AddressService.RemoveAddress | backend/src/services/address.service.js:75-91 | soft-deletes and, for a default, tries to promote the oldest remaining row |
| AddressBook.AddressService.SetDefaultAddress | backend/src/services/address.service.js:93-107 | clears and sets the flag for an owned live row, or reports that there is none |
| AddressRuns.AtMostOneDefault | backend/src/models/address.model.js:70-71 | over every run each user has at most one live default and no more rows than the limit |
| AddressDefaults.DefaultIsOnly | backend/src/models/address.model.js:70-71 | on sound rows a user who has a live default has exactly one |
| AddressDefaults.DefaultKeptIff | backend/src/services/address.service.js:33-107 | a default survives every call of any user except an update that switches its own flag off, and its removal when the index sees removed rows or no other address is left |
| AddressDefaults.DefaultAfterCallIff | backend/src/services/address.service.js:33-107 | after any call a user has a live default exactly if there was one and the call did not drop it, or the call asked for one and succeeded |
| AddressDefaults.DefaultOverRunsIff | backend/src/services/address.service.js:18-107 | over every run a user has a live default exactly if some call gave one and no later call dropped it |
| AddressRuns.SetDefaultLeavesOne | backend/src/services/address.service.js:93-107 | setting a default succeeds exactly for an owned live row and leaves it the only live default |
| AddressRuns.RemoveDefaultPromotesIff | backend/src/services/address.service.js:75-91 | removing the default while others remain promotes exactly the oldest if and only if the index ignores removed rows; otherwise it ends in a duplicate-key error with no default |
| AddressRuns.UpdateToDefaultIff | backend/src/services/address.service.js:66-71 | asking for the default through update works exactly when no other indexed row carries the flag |
| AddressRuns.CreateFailsIff | backend/src/services/address.service.js:34-37 | creation fails exactly when the user's rows, removed ones included, have reached the limit |
| AddressContents.AddressesAfterCall | backend/src/services/address.service.js:33-107 | after any call of any user: creating adds the address, updating replaces its details and keeps its date, removing takes it away even if the promotion fails, and nothing else changes any address |

## Left out

- Hash functions: digests appear as parameters or as the text that is hashed; results that need it say that the digest tells the texts apart.
- `Number`, `parseInt`, `decodeURIComponent`, `encodeURIComponent` and the printing of numbers: parameters with the property a result needs (plain decimals are read, text without percent signs decodes to itself, tokens have no newline).
- IEEE rounding, in metrics, in allocation weights and in `toPaise`: amounts are integers or reals.
- Metrics: the live histogram record that `value()` hands out (records are values here, so a caller's later view of it is not modelled); backslashes in help text, which the code prints as they are.
- BoundedCache: `values()`, `destroy()` and the timer; clean-up may happen at any time instead.
- Deduplicate: the rejection branch of a joined promise, which no code path can take; a repeated `res.json` by one handler.
- Deduplicate.SingleExecution: assumes that nothing is evicted while the window lasts, because under memory pressure the cached reply may be dropped before its deadline.
- ResponseCache: the `allowPaths` and `excludePaths` options, absolute request URLs, and the headers set on responses; the mount order in the application, where the tenant is not yet known.
- TenantMigration: writers other than the migration, and log output.
- MigrationRunner: the connection handling; a migration that throws is a crash at that point.
- PayoutAccount: the lower-casing of a stored UPI address, validation errors before the handlers, audit records and the user lookup.
- Sitemap: a slug that `encodeURIComponent` rejects, and response headers.
- GuestCart: header arrays and the random source of keys.
- Ledger: transactions that the database itself aborts, the tenant, vendor, memo and time fields, the drift report's amounts, posts that overlap on one key, an account code that starts with `__proto__`, and how the schema stores the type of an inherited name.
- LedgerBalances.GroupTotals: does not model the unspecified order of the database's grouping, because only the set of accounts matters to the results.
- AddressBook: serviceability look-ups, the user's preferred-address pointer, and requests that overlap.
- Payout batches, order saga, tax documents, outbox leases, routes, schemas, health probes and role checks: not part of this model.
