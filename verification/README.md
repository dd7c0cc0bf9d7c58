# Arcops verification model

A Dafny model of the stateful cores of Arcops, a small platform of Go services with a TypeScript web
client, and proofs of what those cores guarantee. Each source file that works by changing things step by
step has a class or a method here that does the same steps and is proved equal to a specification
function; the lemmas are about those functions, over every input, every run or every interleaving. The
table below lists the results. The handler classes `SiteLoader.Handler`, `StateStore.StateEngine`,
`CronLock.Scheduler`, `TokenBucket.Limiter`, `ApiKeys.KeyService`, `ApiKeys.KeyGateway`, `Otp.OtpService`
and `QueueEngine.Engine` have no rows of their own: their methods are the tie between the code's steps and
the specification functions that the results are about.

| file | what it models |
|---|---|
| `LruModel.dfy`, `LruCache.dfy`, `LruInclusion.dfy`, `LruHistory.dfy` | BuckStream's LRU cache: the move-to-front sequence, the linked list with its map, the comparison of two capacities, and the cache judged by the history of calls |
| `DeployZip.dfy` | the upload worker pool as a state machine over program counters |
| `SiteLoader.dfy`, `LoadRaces.dfy` | loading a site archive into the cache, alone and racing with other calls |
| `StateStore.dfy`, `CronLock.dfy` | DBMux's Redis-over-SQL state store and the cron lock built on it |
| `TokenBucket.dfy` | the gateway's rate limiter and its janitor |
| `SqlSplit.dfy` | the web client's SQL statement splitter |
| `Base64Url.dfy`, `Jwt.dfy` | ArcAuth's token printer and its two parsers |
| `ApiKeys.dfy`, `Otp.dfy` | API keys across ArcAuth and the gateway; one-time login codes |
| `QueueEngine.dfy` | DBMux's named queues over Redis lists or one shared table |
| `Prelude.dfy` | options and the order-preserving filter |

Conventions. A clock reading is a parameter, and clocks only move forward: seconds as `real` in the rate
limiter, integer milliseconds in the state store and the cron lock, integer seconds elsewhere. All parties
share one clock. `float64` is `real`. HMAC, SHA-1, the MIME table, JSON and the database's JSON canonical form
are function parameters with no more than the stated laws. Redis and SQL tables are maps with deadlines. An
operation of the state store makes up to three calls, each with its own clock reading and its own success or
failure; a failed call to the table may have taken effect. Its operations, and the triggers of the cron lock,
follow one another. Failures of other providers are inputs too.

Where the code differs from what is said or meant, and exactly when it does not:

- The cron lock is written with a ten-second lifetime, but the table's deadline drops the fraction of a
  second. Ten-second holds are therefore not safe. `MutualExclusionIff`: one instance at a time, in all runs,
  exactly if holds last at most 9.999 seconds; at most 9, and the table can always be read, if the cache may
  drop a lock entry, fail to take it or fail to show it.
- A cache refill always lasts an hour, so a value may be read an hour after it expired (`StaleForAnHour`). That
  takes a read that finds a row without its entry. `ReadsStopInTimeIff` lists what can bring one about, each of
  them alone: an eviction, a failed read of the cache, a save that fails in the cache or in the table, a delete
  that fails in the table, and a save that takes a whole second's beginning between its two calls, with nothing
  failing at all (`SlowSaveLingers`).
- For the same reason a lock left behind can block its job for an hour (`BlockedForAnHour`), and for ten
  seconds exactly without these causes (`FreeAgainIff`).
- One-time codes carry a five-minute deadline in Redis only; the copy in memory has none, so they never
  expire (`CodesDoNotExpire`). Failures of Redis are ignored; a code is then used twice, or a new one
  refused, exactly if writing or deleting can fail (`LoginIffOutstandingIff`).
- A deleted API key can be accepted for another minute and the time an answer takes; and for good, if a
  validation fills it into memory after its deletion (`DeletedKeyDiesIff`, `ValidateIsLookupIff`), which takes a
  restart of ArcAuth (`LateFillTakesRestart`). A mark in Redis holds that off for exactly a
  day (`RevokedForADayIff`).
- The janitor of the rate limiter is invisible only for some settings; `JanitorInvisibleIff` gives them.
- A deployment that overtakes a running load leaves the old site in the cache (`OvertakenLoad`). It takes a
  write of the site and its last invalidation inside one download (`ApartIsDisciplined`, `FreshIff`);
  `StoredIsCurrentIff` says for each load whether what it caches is what is stored.
- BuckStream's README promises that the old version stays live until the new one is loaded. The code clears
  the cache first: after that the site is cached exactly when a load of it has completed and it was not
  removed since (`DownUntilLoaded`), and if the next download fails nothing is served
  (`FailedSwapServesNothing`).
- A nil error from DeployZip means that everything was uploaded, except when the caller's context can be
  cancelled (`NilMeansUploadedIff`).
- The queue's comment promises at-least-once delivery. A pop removes the payload at once, so an accepted payload
  is handed out or still there, in all runs, exactly if no pop's answer can be lost (`AtLeastOnceIff`). Order is
  kept exactly as long as no change of backends leaves payloads of the name behind in the other one
  (`OrderKeptIff`).
- The two token parsers can differ: on payloads with a line break (`LineBreakDivides`), and on blanks around a
  token, which only DBMux trims (`TrailingBlanksDivide`, `LeadingBlanksDivide`). `ServicesAgreeIff` and
  `TrimmedClaimsIff` say exactly when they do. The gateway's middleware trims the Authorization header before it
  calls the parser, and the cookies it does not.

## Model

| member | source | states |
|---|---|---|
| `LruCache.Cache.constructor` | buckstream/pkg/handler/lru.go:27-32 | a new cache is valid and empty, for any capacity, also a non-positive one |
| `LruCache.Cache.WalkNext` | buckstream/pkg/handler/lru.go:18-24 | following `next` from `head` visits the listed nodes in order and then stops |
| `LruCache.Cache.WalkPrev` | buckstream/pkg/handler/lru.go:18-24 | following `prev` from `tail` visits exactly the reverse |
| `LruCache.Cache.Get` | buckstream/pkg/handler/lru.go:35-47 | a miss changes nothing; a hit returns the stored value, puts its entry with the time of the hit in front and keeps the order of the others; links, map and list stay in agreement |
| `LruCache.Cache.Put` | buckstream/pkg/handler/lru.go:50-74 | inserts or refreshes at the front and evicts the least recent entry exactly when over capacity |
| `LruCache.Cache.EvictExpired` | buckstream/pkg/handler/lru.go:78-87 | although it stops at the first fresh tail, exactly the entries idle longer than the limit are gone |
| `LruCache.Cache.Delete` | buckstream/pkg/handler/lru.go:90-101 | removes exactly the given key and keeps the order of the rest |
| `LruCache.Cache.RemoveNode` | buckstream/pkg/handler/lru.go:122-134 | unlinking one node leaves a well-linked list of the others |
| `LruCache.Cache.AddToFront` | buckstream/pkg/handler/lru.go:108-120 | linking a node in front leaves a well-linked list with it first |
| `LruCache.Cache.Evict` | buckstream/pkg/handler/lru.go:136-142 | drops exactly the tail, from list and map; nothing on an empty list |
| `LruModel.GetKeeps` | buckstream/pkg/handler/lru.go:35-47 | a get keeps distinct keys, recency order equal to time order, and the size bound |
| `LruModel.PutKeeps` | buckstream/pkg/handler/lru.go:50-74 | so does a put, whose value is then found whenever the capacity is positive |
| `LruModel.ExpiredTail` | buckstream/pkg/handler/lru.go:83-86 | dropping an expired tail does not change which entries are fresh |
| `LruModel.FreshTail` | buckstream/pkg/handler/lru.go:76-87 | once the tail is fresh every entry is: this rests on the time order |
| `LruInclusion.RunKeeps` | buckstream/pkg/handler/lru.go:35-142 | the cache invariant holds after every run of calls under a forward clock |
| `LruInclusion.RunIncludes` | buckstream/pkg/handler/lru.go:35-142 | for capacities c <= d, the smaller cache's list stays the larger one's restricted to the smaller one's keys, and their sizes differ by at most d - c |
| `LruInclusion.LargerNeverMisses` | buckstream/pkg/handler/lru.go:35-142 | over any run, the smaller cache's list is a subsequence of the larger one's, and each of its hits is a hit there with the same value |
| `LruHistory.RunIsRanked` | buckstream/pkg/handler/lru.go:35-142 | in every run the list is ordered by when each key was last put or hit, and each entry has the value last put and the time last used |
| `LruHistory.HitIsLastPut` | buckstream/pkg/handler/lru.go:35-47 | in every run a hit answers with the value last put under the key |
| `LruHistory.GetMoves` | buckstream/pkg/handler/lru.go:35-47 | a hit at a given time moves that entry to the front with that time and keeps the others in their order; a miss changes nothing |
| `LruHistory.PutEvictsLeastRecent` | buckstream/pkg/handler/lru.go:50-74 | in every run a put drops a key exactly if the new key finds the cache full and that key's last put or hit lies furthest back |
| `LruHistory.DeleteTakesKey` | buckstream/pkg/handler/lru.go:90-101 | in every run a deletion takes exactly its key |
| `LruHistory.ExpiryTakesIdle` | buckstream/pkg/handler/lru.go:78-87 | in every run an expiry takes exactly the keys whose last put or hit is longer ago than the limit |
| `LruHistory.KeptIff` | buckstream/pkg/handler/lru.go:35-74 | without deletions and expiry a cache of capacity c has a key exactly if it was put and fewer than c other keys were put or hit since its last use |
| `DeployZip.StepKeeps` | buckstream/pkg/storage/deploy.go:24-94 | every step of every interleaving keeps the pool's invariant; in particular the deployment is cancelled exactly if the caller cancelled or some worker is past its cancel() |
| `DeployZip.CountersExact` | buckstream/pkg/storage/deploy.go:24-46 | semaphore tokens are exactly the workers between acquire and release, never above ten, and a waiting worker is let in exactly below ten; the wait group counts exactly the live workers |
| `DeployZip.SendNeverBlocks` | buckstream/pkg/storage/deploy.go:73-76 | a failing worker can always send its error, and the channel is still open |
| `DeployZip.WorkersProgress` | buckstream/pkg/storage/deploy.go:37-77 | while a worker is alive, some worker can take a step |
| `DeployZip.Progress` | buckstream/pkg/storage/deploy.go:30-93 | until DeployZip has returned, some step other than the caller's is enabled |
| `DeployZip.StepDecreases` | buckstream/pkg/storage/deploy.go:30-93 | every step makes a non-negative measure smaller |
| `DeployZip.RunsAreShort` | buckstream/pkg/storage/deploy.go:30-93 | no schedule takes more than 8n + 4 steps for n archive entries |
| `DeployZip.MaximalRunReturns` | buckstream/pkg/storage/deploy.go:80-93 | a run that can only be continued by the caller has returned: the wait always ends |
| `DeployZip.ResultMeans` | buckstream/pkg/storage/deploy.go:84-93 | nil is returned exactly when no worker failed, and a returned error is one some worker reported |
| `DeployZip.StateIsHistory` | buckstream/pkg/storage/deploy.go:37-77 | in every run outcomes, uploads, cancellation and the errors in the channel are what the run's steps say |
| `DeployZip.FirstErrorWins` | buckstream/pkg/storage/deploy.go:84-93 | the error returned is the one sent first, and nil when none was sent |
| `DeployZip.FailureStopsUploads` | buckstream/pkg/storage/deploy.go:38-77 | once a worker has failed and cancelled, in every run: every worker waiting for a slot may give up, and some run from there returns an error with no further upload begun |
| `DeployZip.NilMeansUploaded` | buckstream/pkg/storage/deploy.go:30-93 | when nil is returned, every file was uploaded exactly once if and only if no worker gave up, which takes a cancelled caller |
| `DeployZip.CancelledCallerGetsNil` | buckstream/pkg/storage/deploy.go:41-45 | for every archive there is a run with a cancelled caller that returns nil with nothing uploaded |
| `DeployZip.NilMeansUploadedIff` | buckstream/pkg/storage/deploy.go:30-93 | nil means that everything was uploaded, in all runs, exactly when the caller cannot be cancelled or the archive has no file |
| `SiteLoader.KeysRoundTrip` | buckstream/pkg/handler/handler.go:444-469 | the name a delete clears is exactly the name a deployment of that object key has, and every deletable key is such a key |
| `SiteLoader.BuildSite` | buckstream/pkg/handler/handler.go:157-198 | the loop over the archive computes the fold, or fails on the first unreadable file |
| `SiteLoader.LastEntryWins` | buckstream/pkg/handler/handler.go:157-198 | a site has exactly the paths of the archive's files, each with the content of the last entry with that path, the MIME type of its name or octet-stream, and the quoted content hash; it is built exactly when every file is readable |
| `SiteLoader.PathIsName` | buckstream/pkg/handler/handler.go:157-198 | a file is served under its archive name without one leading slash, and under no other path |
| `LoadRaces.StepKeepsLocked` | buckstream/pkg/handler/handler.go:128-138 | the mutex is held by exactly the call between lock and unlock, and a site being fetched is not cached |
| `LoadRaces.OneDownload` | buckstream/pkg/handler/handler.go:132-141 | in every interleaving at most one download is in flight |
| `LoadRaces.LoadsMatchRemovals` | buckstream/pkg/handler/handler.go:127-203 | in every interleaving, completed loads of a site equal its removals from the cache plus one if it is cached |
| `LoadRaces.LoadsBetween` | buckstream/pkg/handler/handler.go:127-203 | over any stretch of a run a site is loaded at most once more than it is removed |
| `LoadRaces.StoredSince` | buckstream/pkg/handler/handler.go:140-155 | in every run, the object stored for a site follows from what a call downloaded and what was written since |
| `LoadRaces.CallIsHistory` | buckstream/pkg/handler/handler.go:127-203 | in every interleaving what a call holds and has to return follows from its own steps and what they found |
| `LoadRaces.ReturnsWhatItOwes` | buckstream/pkg/handler/handler.go:127-203 | in every run a finished call has returned the cached site of its first hit, in either look, else the site its archive unpacks to, and nothing exactly if its download failed or its archive does not unpack |
| `LoadRaces.CacheIsLru` | buckstream/pkg/handler/handler.go:127-203 | in every interleaving the cache is the LRU cache after the gets, puts, deletions and one-hour expiries of the run, so all its history results hold here |
| `LoadRaces.StoreIsHistory` | buckstream/pkg/handler/deploy.go:61-89 | in every run the bucket holds what was last written under each key, and pending invalidations are the writes not yet followed by theirs |
| `LoadRaces.LoadsProgress` | buckstream/pkg/handler/handler.go:127-203 | no load is stuck: while a call has not finished, it or the holder of the mutex can take a step |
| `LoadRaces.CachedIsStored` | buckstream/pkg/handler/deploy.go:61-89 | in every run in which no final invalidation comes while a call holds a download older than the last write of its site, every cached site without a pending invalidation is the unpacked archive now stored under its name |
| `LoadRaces.AnswersAreStored` | buckstream/pkg/handler/handler.go:127-203 | in such a run, with no invalidation of the site pending, what a call is answered, by a hit or by its own load, is the site of the archive stored at that moment |
| `LoadRaces.ApartIsDisciplined` | buckstream/pkg/handler/deploy.go:61-89 | the same if no site is written, or no site is invalidated, while a download of it is held: deployments and deletions that do not overlap a load are safe |
| `LoadRaces.StoredIsCurrentIff` | buckstream/pkg/handler/handler.go:140-202 | what a load caches is current exactly when the site was not written since its download, or last with an archive that unpacks to the same site |
| `LoadRaces.OvertakenLoad` | buckstream/pkg/handler/deploy.go:69-77 | for every site and every different archive, a run in which a deployment overtakes a load and the old site stays cached |
| `LoadRaces.FreshIff` | buckstream/pkg/handler/deploy.go:61-89 | cached sites are what is stored in all runs exactly when invalidations may not overtake downloads |
| `LoadRaces.DownUntilLoaded` | buckstream/pkg/handler/deploy.go:69-77 | after an invalidation the site is cached exactly when more loads of it than removals have completed since; until a load completes, lookups miss |
| `LoadRaces.FailedSwapServesNothing` | buckstream/pkg/handler/deploy.go:61-77 | from every reachable state with the loader idle: a deployment followed by a failing download answers the next visitor with nothing |
| `StateStore.FindL1KVProvider` | dbmux/pkg/state/state.go:33-44 | the first listed Redis that the registry resolves, or none exactly when there is none |
| `StateStore.FindL2PersistentProvider` | dbmux/pkg/state/state.go:48-91 | the first resolvable Postgres in the listing, else MySQL, else Mongo, else SQLite; none exactly when only Redis and vector providers resolve |
| `StateStore.RunKeeps` | dbmux/pkg/state/state.go:94-299 | in every run of saves, reads with any failures, deletes and evictions, each cache entry agrees with its row and dies within an hour of it, plus what refills may be late |
| `StateStore.TableIsHistory` | dbmux/pkg/state/state.go:94-299 | whatever fails, the table holds a key exactly when its last save was not deleted, with that save's value and, for a deadline, the last whole second within its time to live |
| `StateStore.ReadsAreFresh` | dbmux/pkg/state/state.go:199-266 | whichever reads fail, a read returns only the last saved value, never a deleted one, and never later than an hour plus a refill's lateness past its expiry; before the expiry it always finds it if the table can be read |
| `StateStore.KeptReadsStopInTime` | dbmux/pkg/state/state.go:199-266 | after a prompt save, while the cache neither drops the entry nor fails a read of it, a read finds the value exactly as saved, up to the millisecond its time to live ends |
| `StateStore.SlowSaveLingers` | dbmux/pkg/state/state.go:94-137 | every save that straddles a second, after any run: one read in the gap keeps its value readable for an hour past its time to live |
| `StateStore.StaleForAnHour` | dbmux/pkg/state/state.go:222-224 | the bound is reached: a one-second value read 3599.998 seconds, plus the refill's lateness, after it expired |
| `StateStore.ReadsStopInTimeIff` | dbmux/pkg/state/state.go:94-299 | no read returns a value whose time to live has ended, in all runs, exactly when there are no evictions, failed cache reads, straddling saves, failing saves and failing table deletes; any one of them suffices |
| `StateStore.SaveCoherentIff` | dbmux/pkg/state/state.go:96-130 | exactly which failures of one level a save survives coherently |
| `StateStore.DeleteCoherentIff` | dbmux/pkg/state/state.go:271-285 | a delete keeps coherence exactly if the cache call succeeds, or the table call fails, or nothing was cached |
| `StateStore.LateRefillIff` | dbmux/pkg/state/state.go:218-225 | a refill with a value read earlier is harmless exactly if the row still has that value and has not been expired for longer than refills may be late |
| `CronLock.MutualExclusionIff` | dbmux/pkg/cron/cron.go:60-80 | at most one instance is inside a job in every run exactly if holds last at most 9.999 seconds; or, with a cache that may drop, refuse or not show lock entries, at most 9 with a table that can be read |
| `CronLock.Overlap` | dbmux/pkg/cron/cron.go:60-80 | otherwise a run with two instances inside one job |
| `CronLock.ChecksDoNotReserve` | dbmux/pkg/cron/cron.go:60-65 | a check that finds a job free reserves nothing: later checks find it free until a lock is saved |
| `CronLock.RowIsHistory` | dbmux/pkg/cron/cron.go:60-80 | in every run, safe or not and whatever fails, a lock row is there exactly when a lock was written and not deleted since, and the instance named as its holder is inside |
| `CronLock.HeldMeansLockedIff` | dbmux/pkg/cron/cron.go:60-80 | a job found held was locked and not released since, in all runs, exactly when saves cannot fail in the table and releases cannot fail in the cache |
| `CronLock.HolderIsLast` | dbmux/pkg/cron/cron.go:60-80 | with safe holds an instance is inside a job exactly when it was the last to acquire it and neither released nor crashed since |
| `CronLock.FreeAgain` | dbmux/pkg/cron/cron.go:67-69 | whatever became of the holder, a job is free ten seconds after its lock was last written, or 3609.999 seconds plus a refill's lateness if some check can find the row without its entry |
| `CronLock.BlockedForAnHour` | dbmux/pkg/cron/cron.go:60-65 | for every bound on holds and each cause, a run in which the job is blocked until the last of those milliseconds |
| `CronLock.FreeAgainIff` | dbmux/pkg/cron/cron.go:60-80 | every job is free a given time after its lock was last written, in all runs, exactly from those two times on; the causes are evictions, failed cache reads, saves failing in the cache, releases failing in the table, and straddling saves that somebody outlives |
| `TokenBucket.RunKeeps` | gateway/pkg/limiter.go:62-118 | in every run tokens stay between zero and the burst |
| `TokenBucket.Paid` | gateway/pkg/limiter.go:79-89 | what a stretch admits plus what is left never exceeds what was there plus what was refilled |
| `TokenBucket.Conserved` | gateway/pkg/limiter.go:62-92 | tokens are conserved: what a stretch admits, plus what is left, plus what is refilled beyond the burst, equals what was there plus what was refilled |
| `TokenBucket.DecidedByAccount` | gateway/pkg/limiter.go:79-91 | in every run without sweeps a request is admitted exactly if its client's account, which only admissions and overflow reduce, has a token |
| `TokenBucket.RefusedIsFree` | gateway/pkg/limiter.go:79-91 | leaving a refused request out changes no later decision of any client |
| `TokenBucket.FirstIsAdmitted` | gateway/pkg/limiter.go:71-77 | a client's first request is admitted under every setting and leaves a burst less one token |
| `TokenBucket.WindowBound` | gateway/pkg/limiter.go:62-92 | in any time window of any run without sweeps a key gets at most burst + rate * length requests |
| `TokenBucket.WindowBoundWithJanitor` | gateway/pkg/limiter.go:62-118 | the same with sweeps anywhere, when five idle minutes refill a burst |
| `TokenBucket.PatienceIsRewarded` | gateway/pkg/limiter.go:62-118 | in every run, with or without sweeps, a client that leaves time for one token between its requests is never refused |
| `TokenBucket.RunAlike` | gateway/pkg/limiter.go:68-118 | under that condition a limiter with sweeps decides every request of every run like one that never forgets |
| `TokenBucket.JanitorInvisibleIff` | gateway/pkg/limiter.go:68-118 | the sweeps change no decision of any run if and only if 300 * rate >= burst |
| `SqlSplit.SplitSqlStatements` | web/src/lib/dbmux.ts:44-72 | for every input the loop returns the scanner's pieces of the stripped text, tidied and without empty ones, none with a blank at either end; with an even number of quotes, just trimmed |
| `SqlSplit.MergeIsScan` | web/src/lib/dbmux.ts:50-69 | splitting at every semicolon and merging by quote parity, with carried blanks, refines a one-pass quote-aware scanner |
| `SqlSplit.ScanFacts` | web/src/lib/dbmux.ts:56-58 | a piece has only semicolons with an odd number of quotes before them, and every piece but the last is balanced |
| `SqlSplit.ScanOnlyCuts` | web/src/lib/dbmux.ts:50-55 | the pieces joined by semicolons are the text again |
| `SqlSplit.SplitterMeetsScanner` | web/src/lib/dbmux.ts:58-69 | the result is exactly the trimmed pieces if and only if the quotes are even or the open last piece does not end in a semicolon |
| `SqlSplit.CleanIsIdentity` | web/src/lib/dbmux.ts:46-48 | text without comment markers passes the comment stripping unchanged |
| `SqlSplit.CleanIsIdentityIff` | web/src/lib/dbmux.ts:46-48 | stripping leaves a text unchanged exactly if it has no two dashes and no closed block comment; an unclosed one stays |
| `SqlSplit.CleanHasNoDashes` | web/src/lib/dbmux.ts:48 | no two dashes are left in any stripped text |
| `SqlSplit.LineCommentCut` | web/src/lib/dbmux.ts:46-48 | a line comment, up to any of JavaScript's four line ends and whatever semicolons and quotes it holds, can be cut out without changing the result |
| `SqlSplit.BlockCommentCut` | web/src/lib/dbmux.ts:46-48 | so can a block comment, up to its first end mark |
| `SqlSplit.CommentIsDropped` | web/src/lib/dbmux.ts:44-72 | a statement followed by a line or a block comment comes back alone |
| `SqlSplit.SplitUndoesJoin` | web/src/lib/dbmux.ts:44-72 | trimmed, balanced, comment-free statements with all semicolons quoted come back from join and split |
| `SqlSplit.SplitIsStable` | web/src/lib/dbmux.ts:44-72 | for balanced comment-free text, splitting, joining and splitting again gives the same list |
| `Base64Url.DecodeUndoesEncode` | gateway/pkg/auth.go:121-128 | over all byte strings, decoding with either service's padding undoes encoding |
| `Base64Url.EncodeKeepsNumber` | arcauth/pkg/authservice/service.go:47-68 | the text is the bytes as one big-endian number, six bits a digit, filled up with zero bits |
| `Base64Url.DigitsAreAlphabet` | arcauth/pkg/authservice/service.go:47-68 | the digits are the URL-safe alphabet of section 5 of RFC 4648 in its order |
| `Base64Url.BreakIsSkipped` | gateway/pkg/auth.go:121-128 | decoding skips line feeds and carriage returns wherever they stand |
| `Base64Url.PaddingsAgreeIff` | dbmux/pkg/auth/crypto.go:67-73 | the two paddings decode alike except exactly for lengths 4k + 1 that decode unpadded, which takes a line break |
| `Base64Url.LineBreakSplits` | dbmux/pkg/auth/crypto.go:67-73 | the exception occurs: whole groups followed by a line break decode in the gateway only |
| `Jwt.TokenRoundTrip` | arcauth/pkg/authservice/service.go:47-68 | every token names its user, in both services and for seven days, bearer prefix or not, and afterwards in neither: sub is the user's id, email the user's email, role authenticated |
| `Jwt.TokenLayout` | arcauth/pkg/authservice/service.go:47-68 | a token has three parts that decode to the fixed header, to the JSON of the user's claims, and to the HMAC of the first two parts with their dot |
| `Jwt.ClaimsRoundTrip` | gateway/pkg/auth.go:105-140 | whatever claims a well-signed token carries, both services return them up to their expiry, and for good if it is not positive |
| `Jwt.ServicesAgreeIff` | dbmux/pkg/auth/crypto.go:22-73 | on every text and every secret the two parsers answer alike at all times exactly when they read the same claims |
| `Jwt.TrimmedClaimsIff` | dbmux/pkg/auth/crypto.go:22-73 | for a text without blanks around it: exactly when it is not well signed, or its payload decodes in neither, or the JSON readers agree on bytes that both decode; a payload of length 4k + 1 or an empty secret leaves only the gateway |
| `Jwt.BlankEndRefused` | gateway/pkg/auth.go:105-119 | a text that ends in a blank is never taken by the gateway |
| `Jwt.JsonDecides` | dbmux/pkg/auth/crypto.go:48-59 | without line breaks in the payload only what the JSON readers make of its bytes matters |
| `Jwt.LineBreakDivides` | dbmux/pkg/auth/crypto.go:67-73 | with one, the gateway takes claims of a well-signed token that DBMux refuses |
| `Jwt.TrailingBlanksDivide` | gateway/pkg/auth.go:105-119 | with blanks behind a token the gateway refuses what DBMux accepts |
| `Jwt.LeadingBlanksDivide` | gateway/pkg/auth.go:105-119 | with blanks in front the gateway takes a token exactly if its signature also fits the shifted header; DBMux takes it as without |
| `ApiKeys.RunKeeps` | arcauth/pkg/authservice/service.go:1013-1218 | memory repeats the table, revoked hashes have no row, and answers on their way and gateway entries were rows when they were taken |
| `ApiKeys.ValidateIsLookup` | arcauth/pkg/authservice/service.go:1164-1218 | in every run, restarts included, validation equals a table lookup, if no fill comes after its key's deletion |
| `ApiKeys.ValidateIsLookupIff` | arcauth/pkg/authservice/service.go:1181-1207 | in all runs exactly then |
| `ApiKeys.TableIsHistory` | arcauth/pkg/authservice/service.go:1013-1161 | in every run, late fills included, a key has a row exactly from its creation to its deletion by id and user, with the role asked for if that is admin, anon or sbx, else api |
| `ApiKeys.RevokedForADay` | arcauth/pkg/authservice/service.go:1150-1176 | in every run, late fills included, a deleted key is refused for twenty-four hours from its deletion while Redis keeps the mark |
| `ApiKeys.RevokedForADayIff` | arcauth/pkg/authservice/service.go:1150-1176 | and in all runs for no longer than that |
| `ApiKeys.LateFillTakesRestart` | arcauth/pkg/authservice/service.go:1061-1207 | until ArcAuth is restarted its memory is the whole table and nothing is left to fill in late |
| `ApiKeys.GatewayWithinAMinute` | gateway/pkg/auth.go:34-92 | whoever the gateway lets in has a row in the table, or had one in the last sixty seconds plus what answers take |
| `ApiKeys.DeletedKeyDies` | arcauth/pkg/authservice/service.go:1123-1161 | a key without a row for more than sixty seconds plus what answers take is refused by the gateway |
| `ApiKeys.DeletedKeyDiesIff` | gateway/pkg/auth.go:34-92 | keys are refused a given time after they lost their row, in all runs, exactly from that time on and if no fill comes after its key's deletion |
| `Otp.RunKeeps` | arcauth/pkg/authservice/service.go:666-677 | memory holds exactly the outstanding code of a target, and a code in Redis is that code |
| `Otp.LoginIffOutstanding` | arcauth/pkg/authservice/service.go:364-385 | as long as Redis takes and removes codes, a login is let in exactly if it presents the code last sent to its target and not yet used, whatever Redis forgets or does not answer |
| `Otp.LoginIffOutstandingIff` | arcauth/pkg/authservice/service.go:364-385 | that holds in all runs exactly when there is no Redis, or neither writing to it nor deleting from it can fail |
| `Otp.SuccessesBySends` | arcauth/pkg/authservice/service.go:787-809 | per target there are then never more successful logins than codes sent |
| `Otp.CodesDoNotExpire` | arcauth/pkg/authservice/service.go:370-374 | in every such run an outstanding code is accepted at any later time |
| `Otp.MemoryIsOutstanding` | arcauth/pkg/authservice/service.go:671-673 | in every run, whatever fails, memory holds exactly the code last sent and not yet used |
| `Otp.UnansweredLogin` | arcauth/pkg/authservice/service.go:364-385 | so a login that Redis does not answer is let in exactly with that code, whatever failed before |
| `Otp.FiveMinutesInRedis` | arcauth/pkg/authservice/service.go:675-677 | a code that Redis took has its deadline there five minutes after its sending |
| `QueueEngine.PopIsHead` | dbmux/pkg/queue/queue.go:126-153 | popping the least id of a name takes the head of that name's queue and leaves every other name's alone |
| `QueueEngine.InsertAppends` | dbmux/pkg/queue/queue.go:105-123 | an insert appends to its name's queue and to no other |
| `QueueEngine.AnswerMeans` | dbmux/pkg/queue/queue.go:59-100 | what callers are told: no backend exactly without one, failure exactly if the call is not answered, success for an enqueue, and for a dequeue the head of the name's queue in the backend in use, or empty exactly if that is |
| `QueueEngine.PayloadsAccounted` | dbmux/pkg/queue/queue.go:59-153 | in every run, failing calls, lost answers and changing backends included, what went into a name's queues was handed out, or left by a pop whose answer was lost, or is still there |
| `QueueEngine.AtLeastOnceIff` | dbmux/pkg/queue/queue.go:79-153 | every accepted payload is handed out or still there, in all runs, exactly when no pop's answer can be lost |
| `QueueEngine.FifoPerName` | dbmux/pkg/queue/queue.go:59-153 | while the backends stay the same, every name is its own first-in first-out queue |
| `QueueEngine.OrderKeptIff` | dbmux/pkg/queue/queue.go:59-100 | payloads leave in the order they entered, at every moment and however a run goes on, exactly in the runs in which no change of backends leaves payloads of the name behind in the other backend |
| `QueueEngine.OrderBreaksAcrossBackends` | dbmux/pkg/queue/queue.go:59-64 | such a run: a Redis registered midway overtakes the table |

## Left out

- HTTP handling, headers, CORS, cookies, sessions, proxying and the React client: no state worth proving.
- Cloud storage, OAuth, mail, SMS and metadata clients: calls into code outside the repository.
- DeployZip starts with a readable archive; the early error for an unreadable one is not a step.
- Writes to `sites/` objects other than by deploy and delete, such as the upload proxy with such a key, are not part of the loader's runs.
- A download reads one consistent version of its object; a torn read is not modelled.
- The host and referer parsing that chooses a site name, and the file lookup inside a cached site.
- MySQL, SQLite and Mongo as the state table: MySQL and SQLite compare local-time or differently formatted texts, and Mongo has neither upsert nor delete here.
- Concurrent steps inside one state-store operation, beyond `LateRefillIff`; save, read and delete are otherwise atomic.
- The window between check and acquire in a cron trigger, which is one step in the runs of `CronLock`; `ChecksDoNotReserve` says why it has to be.
- StateStore.StateEngine.SaveState: time-to-live zero and below is excluded, because what the database makes of the empty expiry text is outside the repository.
- TokenBucket.WindowBound: only for burst >= 1 and rate >= 0; below that even a first request exceeds the burst.
- DeployZip, LoadRaces, CronLock and the runs of ApiKeys and Otp are state machines on values, because goroutines and several processes interleave there; memory-model effects below whole steps are not captured.
- Jwt.TokenRoundTrip: texts are sequences of characters and JSON a pair of inverse functions, so replacement of invalid UTF-8 is not modelled.
- Creating and deleting an API key are single steps, and so is a validation's way from the revocation mark to its answer.
- Failures of Redis around revocation marks, beyond losing a mark: ArcAuth ignores them, so a failed call counts as a lost mark.
- Magic links, which share the code map under keys starting with `magic:`, and OTP targets of that form.
- The choice among several registered Redis or Postgres providers in the queue, and its Size, Peek and Purge, which use another Redis key.
- Comment markers inside string literals in the splitter: stripped by the code before splitting, and so here.
