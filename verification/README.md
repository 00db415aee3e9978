# Verification of the context store and the failure-tracking rate limiter

A Dafny model of two stateful parts of the service, with proofs about whole runs of them.

**The tiered context store.** A create/read/update/delete service over PostgreSQL, Redis and an in-memory dict,
behind a per-process cache with a time-to-live per entry and least-recently-used eviction. Reads go to the cache,
then PostgreSQL, Redis and memory; the first tier that answers is believed, also when it answers "not found". Writes
go to the cache, then best-effort to both backends, then always to memory. Any backend call can fail before or after
taking effect.

**The rate limiter.** Failed logins per address in a pruned sliding window of 600 seconds, with a delay that doubles
from 2 up to 60 seconds after the third failure, shared by the REST dependency and the MCP guard.

## How it is modelled

| module | content |
|---|---|
| `OrderedDict`, `TtlCache` | the cache as a class over an insertion-ordered dictionary, each method proved against a function on dictionaries |
| `CacheRuns`, `CacheReference` | runs of the cache: step invariant, lazy against eager expiry, capacity; every answer from the calls and answers before it |
| `Records`, `RedisClient`, `Listings` | context records, the Redis server with its retry loop, listings |
| `Storage` | the three backends and the service as classes, each method proved against a step function |
| `Refinement`, `PerRecord`, `CacheFrame`, `Cluster`, `Provenance`, `ReadYourWrites` | runs of the service, against one plain map, one record at a time, across processes, and under arbitrary faults |
| `Legacy` | the first, Redis-only version on JSON documents, and its agreement with the second |
| `RateLimiter`, `LimiterBounds`, `LimiterDecisions` | the limiter, its reference without pruning, its bounds, and its verdicts in seconds |
| `BasicAuth`, `Surfaces` | the credential parser over Base64, and the two surfaces that use the limiter |

* A service call, a cache call and a login attempt are each one atomic step. Each takes one reading of the monotonic
  clock (a real number), never decreasing over a run; claims about which entry is evicted ask for strictly increasing
  readings, because ties are settled by insertion order.
* Faults are inputs. PostgreSQL writes can commit and still raise. A Redis write is a sequence of attempts, each of which
  can take effect and still raise, run through the retry loop. A read answers or raises. While Redis lists, any set of
  keys can be unreadable. Every run lemma holds for all of these.
* Which backends are up is fixed for a run, as it changes only at startup and shutdown.
* One-line accessors (`TTLCache.Clear`, the memory tier's `Get`, `Store` and `Delete`, `ClearFailures`) are modelled with
  their callers and have no row below.
* New ids, clock readings and wall-clock stamps are arguments. Where a lemma needs ids to be new, it says so.

## Results worth knowing

* Read errors, expiries and evictions never show in a reply, with one exact exception (`ReadFaultsAreTransparent`,
  `PartialListingHappens`): Redis skips keys it cannot read while listing, so a listing it answers is incomplete if and
  only if a key of the table was unreadable.
* No tier's failure keeps a write from another: over every run each tier is the replay of exactly those acknowledged writes
  it took itself (`EachTierIsItsLog`).
* Every answer of the cache follows from the calls and answers before it (`EveryAnswerIsRight`): a get returns what was last
  set unless it is deleted, evicted or past its deadline, and a set evicts only when every slot is alive, a least recently
  used key. Ties go by insertion (`TiesGoByInsertion`).
* A record that was read is read again until its deadline, whatever the backends do (`ReadsRepeat`); only memory's answers
  are not cached (`ReadIsCachedIff`).
* A lost write harms no other id: as long as the writes of one id take effect, every reply is right about it, whatever
  becomes of the others (`EachIdOnItsOwn`), and a write that finds an id and takes effect heals it where the tiers
  disagreed (`WriteHeals`).
* The comment at `app/routers/api.py:101-102` says the counter advances by exactly one per request. It does if and only
  if exactly one of the increments attempted took effect, however the warming read goes (`CountsOnceIff`); a lost reply
  can make it two, and a request without an answer three or none (`CountsTwice`, `CountsWithoutAnswer`).
* Staleness of reads is bounded by the TTL, but an update builds on what its process has cached, so within the TTL it can
  bring back a record another process deleted (`DeletedRecordReturns`). It does so exactly when its process holds a live
  entry for it (`AbsentReturnsIffCached`). Reads and deletes have their exact conditions too (`GetIsPlainIff`,
  `DeleteIsPlainIff`). Once an id has been quiet for one TTL, reads, updates and deletes of it on any process are those of
  one plain map (`QuietForTtlIsPlain`), and a delete not followed by an update within the TTL is final (`DeleteIsFinal`).
* A first-version update whose payload carries another id leaves the addressed document and overwrites another one
  (`UpdateStaysPutIff`): an update of document `a` that sends the id `b` overwrites `b` (`UpdateMovesAway`).
* The two login surfaces judge a pair alike with one exact exception (`ComparedAlikeIff`): the MCP guard stops at a wrong
  user name, where the REST dependency goes on to a password that makes the comparison raise. FastAPI's `HTTPBasic` decodes
  credentials as ASCII, so the input that gets there is a wrong ASCII user name where the *configured* password is not
  ASCII: an error and no trace on REST, a tracked failure on MCP (`WrongNameJudgedApart`, `ComparedDifferently`).
* Every verdict of the limiter follows from the times of the earlier failures: those less than 600 seconds old count, and
  three or more of them mean a wait of 2, 4, 8, 16, 32 and then 60 seconds (`DecidedByTheTimes`).
* Failures never come faster than in the run that fails the instant it may, counted over the whole history however much
  of it was pruned (`AtMostSixteen`): at least 60 n - 358 seconds for n more failures, so one a minute in the long run.
  That run is let through for ever (`FastestIsReached`), so the bound is exact at every length.
* `docs/07-sequence-diagrams.md` and `docs/08-diagrams.md` show a create that returns once PostgreSQL has stored the
  record. The code writes every tier, and so does the model.

## Model

| member | source | states |
|---|---|---|
| `TtlCache.TTLCache.constructor` | app/services/cache.py:13-19 | an absent or zero argument means the configured default; the cache starts empty |
| `TtlCache.TTLCache.Get` | app/services/cache.py:21-33 | a miss, a removal of an expired entry, or a hit that refreshes the access time and nothing else |
| `TtlCache.TTLCache.Set` | app/services/cache.py:35-45 | room is made only for a new key in a full store, expired entries going first; then the key is installed |
| `TtlCache.TTLCache.Delete` | app/services/cache.py:47-49 | the key is gone; the result says whether it was stored, expired or not |
| `TtlCache.TTLCache.EvictExpired` | app/services/cache.py:55-59 | the two loops leave exactly the unexpired entries, in order |
| `TtlCache.TTLCache.Len` | app/services/cache.py:61-64 | the number of unexpired entries, which are all that is left |
| `TtlCache.LeastAccessed` | app/services/cache.py:41 | the pass finds the first key, in insertion order, with the smallest last access |
| `TtlCache.Victim` | app/services/cache.py:40-42 | the key evicted is stored and no entry was accessed earlier |
| `CacheRuns.SetEvictsOnlyTheOldest` | app/services/cache.py:35-45 | a live entry is lost exactly when the key is new and every slot is live, and it is one of the least recently used; the key is always installed |
| `CacheRuns.StepKeepsInv` | app/services/cache.py:21-64 | every call keeps the size bound and the distinctness of access times |
| `CacheRuns.RunKeepsSize` | app/services/cache.py:37-42 | over every run, whatever the clock readings, the size never exceeds the maximum |
| `CacheRuns.HitIsLastSet` | app/services/cache.py:21-53 | at every point of every run a hit is the last value set for the key and not deleted since, within its deadline |
| `CacheRuns.AccessIsLastUse` | app/services/cache.py:31-45 | after every run an entry's access time is when its key was last set or hit, so the entry evicted is the least recently used |
| `CacheRuns.LazyEqualsEager` | app/services/cache.py:21-64 | over every run lazy expiry gives the hits, misses, lengths and evictions of a cache that drops entries the instant they expire |
| `CacheRuns.DeleteDiffersOnExpired` | app/services/cache.py:47-49 | the one observable difference from eager expiry: the result of a delete, exactly when the entry had expired |
| `CacheRuns.LazyDeleteDiffers` | app/services/cache.py:47-49 | a run that shows that difference |
| `CacheRuns.EvictTogether` | app/services/cache.py:39-42 | when the larger of two nested caches evicts, the smaller evicts too, and the same key if it has it |
| `CacheRuns.LargerNeverMissesMore` | app/services/cache.py:21-64 | on one run of calls, a larger cache hits with the same value wherever a smaller one hits |
| `CacheRuns.LargerHoldsMore` | app/services/cache.py:21-64 | each live entry of the smaller cache is in the larger with the same value, deadline and last access |
| `CacheRuns.LargerFromTheStart` | app/services/cache.py:13-64 | two caches that start empty: both of the above over every run |
| `CacheReference.EveryAnswerIsRight` | app/services/cache.py:21-64 | over every run each get, set, delete and length answers what the calls and answers before it determine; expiry, eviction and its victim included |
| `CacheReference.DeleteAfterGet` | app/services/cache.py:28-30 | a get drops an expired entry: a delete right after it finds the key exactly if the get did |
| `CacheReference.StoredAfterLen` | app/services/cache.py:61-64 | a length leaves exactly the unexpired entries |
| `CacheReference.OthersAreSpared` | app/services/cache.py:21-49 | a get or a delete leaves every other entry as it was, expired or not |
| `CacheReference.SetSparesTheExpired` | app/services/cache.py:37-45 | a set that need not make room leaves every other entry, expired or not |
| `CacheReference.RunInOrder` | app/services/cache.py:35-53 | over every run the keys stand in the order of their insertion, which overwriting does not change |
| `CacheReference.TiesGoByInsertion` | app/services/cache.py:41 | of several least recently used keys the one inserted first is evicted |
| `RedisClient.RedisServer.RedisOpWithRetry` | app/services/redis_client.py:54-65 | at most the configured number of attempts, and all of them if there is no answer; stopping at the first success, sleeping between attempts only; the command takes effect once per attempt that did |
| `RedisClient.GivesUpAfter` | app/services/redis_client.py:57-65 | with an argument neither absent nor zero, else the setting, as the number: all attempts and no answer if none succeeds, else as many as it takes to the first success, whose answer is given; none at all for a negative number |
| `RedisClient.RetryDocIsOnceOrNever` | app/services/storage.py:180-190 | a retried set or delete acts as exactly one, or not at all; the former if and only if some attempt within the limit took effect |
| `RedisClient.RetriedIncrement` | app/services/storage.py:192-196 | a retried increment returns the old counter plus one plus the attempts that took effect and raised, and leaves the counter there |
| `RedisClient.CountsOnceIff` | app/routers/api.py:99-107 | a counter request, answered or not and however its warming read goes, advances the counter by its increments that took effect, by exactly one if and only if Redis is up and exactly one did, and changes nothing else |
| `RedisClient.ReturnsNextIff` | app/routers/api.py:99-107 | the number returned is the old counter plus one if and only if Redis is up, an increment succeeds and none before it took effect and raised |
| `RedisClient.NoNumberIff` | app/routers/api.py:99-107 | there is no number if and only if Redis is down or no increment within the limit succeeds |
| `RedisClient.CountsTwice` | app/routers/api.py:99-107 | one request with a lost reply returns the old counter plus two |
| `RedisClient.CountsWithoutAnswer` | app/routers/api.py:99-107 | requests without an answer that advance the counter by three, and by nothing |
| `Listings.ListRows` | app/services/storage.py:156-170 | one record for each key that can be read, each once |
| `Storage.InMemoryBackend.GetAll` | app/services/storage.py:74-75 | one record for each stored key |
| `Storage.PostgreSQLBackend.GetAll` | app/services/storage.py:100-108 | an error, or one record for each row |
| `Storage.PostgreSQLBackend.Get` | app/services/storage.py:110-117 | an error, or the row or nothing |
| `Storage.PostgreSQLBackend.Store` | app/services/storage.py:119-134 | an upsert that can commit and raise, and never commits a record without both timestamps |
| `Storage.PostgreSQLBackend.Delete` | app/services/storage.py:136-145 | a delete that can commit and raise; without an error the row is gone |
| `Storage.RedisBackend.GetAll` | app/services/storage.py:156-170 | an error, or the records of the keys that could be read |
| `Storage.RedisBackend.Get` | app/services/storage.py:172-178 | an error, or the record or nothing |
| `Storage.RedisBackend.Store` | app/services/storage.py:180-184 | stored once or not at all, never an error; counters untouched |
| `Storage.RedisBackend.Delete` | app/services/storage.py:186-190 | deleted once or not at all, never an error; counters untouched |
| `Storage.RedisBackend.Incr` | app/services/storage.py:192-196 | the retried increment, or nothing where Redis is not up |
| `Storage.RedisBackend.GetValue` | app/services/storage.py:198-203 | changes nothing, and answers with the stored value if at all |
| `Storage.CountRequest` | app/routers/api.py:99-107 | a warming read and an increment, as the counter request the results above are about |
| `Storage.StorageService.GetAll` | app/services/storage.py:224-231 | the listing of the first available tier that answers |
| `Storage.StorageService.Get` | app/services/storage.py:233-250 | the lookup of the step function: cache, then the first tier that answers, whose find is cached |
| `Storage.StorageService.Create` | app/services/storage.py:252-273 | the create step on cache and all tiers |
| `Storage.StorageService.Update` | app/services/storage.py:275-295 | the update step on cache and all tiers, or nothing for a missing id |
| `Storage.StorageService.Delete` | app/services/storage.py:297-312 | the delete step on cache and all tiers, or nothing for a missing id |
| `Refinement.LookupIsAuthoritative` | app/services/storage.py:233-250 | with a coherent cache a lookup is a lookup in the tier the read reaches, and changes only the cache |
| `Refinement.ListingExact` | app/services/storage.py:156-170 | a listing is the answering tier's table if and only if it is not a partial Redis listing |
| `Refinement.AuthorityStep` | app/services/storage.py:224-312 | one call with an authority that holds: plain reply, plain successor, cache still coherent with the authority |
| `Refinement.AuthorityRefinesPlain` | app/services/storage.py:224-312 | if the first available tier never fails, every run replies as one plain map and leaves that tier equal to it, whatever the other tiers hold and do |
| `Refinement.SyncStep` | app/services/storage.py:224-312 | one call on equal tiers, any reads failing: plain reply, tiers equal again |
| `Refinement.ReadFaultsAreTransparent` | app/services/storage.py:224-312 | equal tiers and writes that take effect: for every pattern of read errors, expiries and evictions each reply is the plain map's, except exactly the partial Redis listings |
| `Refinement.PartialListingHappens` | app/services/storage.py:161-168 | Redis alone, one record, one unreadable key, and an empty listing |
| `Refinement.UpdateEffect` | app/services/storage.py:275-295 | an update writes the one amended record to every available tier, memory and the cache |
| `Refinement.UpdatesCompose` | app/services/storage.py:275-295 | two updates leave every tier and the cached entry as their right-biased merge does |
| `Refinement.UpdateIsLocal` | app/services/storage.py:275-295 | under any faults an update touches no other id in any tier |
| `Refinement.WritesAreStamped` | app/services/storage.py:252-285 | from any state a created or updated record carries the reading of the clock, and a created one is new and not done |
| `PerRecord.WriteAt` | app/services/storage.py:266-273 | a write that takes effect makes every available tier and the cache agree on its id, whatever they held |
| `PerRecord.OwnStep` | app/services/storage.py:233-312 | where the tiers agree on an id, a call on it replies and leaves it as the plain map does |
| `PerRecord.OtherStep` | app/services/storage.py:224-312 | calls on other ids, with any faults, leave it in step |
| `PerRecord.EachIdOnItsOwn` | app/services/storage.py:224-312 | if the tiers agree on an id and its writes take effect, every reply of every run is the plain map's in what it says of it, its row in a listing included except exactly when Redis answers and cannot read it, whatever becomes of other ids |
| `PerRecord.WriteHeals` | app/services/storage.py:252-312 | from any state, a create, update or delete that finds its id and takes effect starts such a run |
| `CacheFrame.LookupFinds` | app/services/storage.py:233-250 | a lookup finds a live entry, however stale, else what the tier reached holds |
| `CacheFrame.ReadIsCachedIff` | app/services/storage.py:233-250 | from any state, a read that finds a record in the cache, PostgreSQL or Redis leaves it cached, accessed now, until its old deadline or for one TTL; any other read leaves the id uncached |
| `CacheFrame.RepliesFollowTheLookup` | app/services/storage.py:233-312 | from any state, under any faults, get, update and delete answer from a live entry, however stale, else from what the tier reached holds |
| `CacheFrame.StepFrame` | app/services/cache.py:28-32 | over any call an entry keeps its value and deadline, or is new, holds the record returned and expires one TTL from now |
| `Cluster.WorldInvAlways` | app/services/storage.py:233-245 | over every interleaving each cached record on each process was the authority's when its time to live began |
| `Cluster.BoundedStaleness` | app/services/storage.py:233-245 | over every interleaving on any number of processes a record returned by get was the authority's within the last TTL; "not found" and complete listings are current |
| `Cluster.QuietForTtlIsCurrent` | app/services/storage.py:233-245 | once no process has written an id for a whole TTL, get on any of them returns the authority's current record |
| `Cluster.QuietForTtlIsPlain` | app/services/storage.py:233-312 | and updates and deletes too reply and leave the authority as one plain map does |
| `Cluster.DeleteIsFinal` | app/services/storage.py:275-312 | over every interleaving a deleted id that is not created again, nor updated within a TTL of the delete, is never held by the authority again |
| `Cluster.DeleteReaches` | app/services/storage.py:297-312 | a delete leaves the id out of the authority and other processes' caches and memory as they were |
| `Cluster.UpdateAmendsTheBase` | app/services/storage.py:275-295 | an update amends the live cached record if there is one, else the authority's, and writes it to the authority; without either it changes nothing there and finds nothing |
| `Cluster.AbsentReturnsIffCached` | app/services/storage.py:275-295 | an update of an id the authority lacks puts it back if and only if the process holds a live entry, and finds nothing exactly otherwise |
| `Cluster.UpdateIsPlainIff` | app/services/storage.py:275-295 | an update is the plain map's if and only if there is no live entry, or one that amends to what the authority's record does |
| `Cluster.GetIsPlainIff` | app/services/storage.py:233-250 | a read is the plain map's if and only if there is no live entry, or one that holds the authority's record |
| `Cluster.DeleteIsPlainIff` | app/services/storage.py:297-312 | a delete is the plain map's if and only if there is no live entry or the authority holds the id too |
| `Cluster.DeletedRecordReturns` | app/services/storage.py:275-295 | a fault-free run on two processes in which an update within the TTL undoes a delete |
| `Cluster.OneProcessIsTheService` | app/services/storage.py:224-312 | with one process the cluster runs as the service |
| `Provenance.EachTierTakesItsOwn` | app/services/storage.py:252-311 | one call from any state, under any faults: each tier takes an acknowledged write by its own success alone, and is else unchanged |
| `Provenance.EachTierIsItsLog` | app/services/storage.py:252-311 | under all faults each tier is the replay of exactly the acknowledged writes it took: PostgreSQL if up, committed and dated, Redis if up and some attempt took effect, memory always |
| `Provenance.MemoryIsTheLog` | app/services/storage.py:272-311 | so memory is the replay of all acknowledged writes |
| `Provenance.EveryRecordHasAnOrigin` | app/services/storage.py:252-295 | under all faults each record in a tier, the cache or a reply was written under that id by a create or update, or was there at the start |
| `Provenance.EveryVersionIsGenuine` | app/models/schemas.py:10-18 | each version written carries its own id, the creation time of that id and a title of at most 255 characters |
| `Provenance.IdentityIsNeverLost` | app/services/storage.py:252-295 | under all faults every record in a tier, the cache or a reply has the id it is filed under, the creation time of that id and a title of at most 255 characters |
| `ReadYourWrites.NotTheVictim` | app/services/cache.py:39-42 | an entry is not evicted while fewer than the maximum of other keys, the new one included, were accessed since it was written |
| `ReadYourWrites.ReadYourWrite` | app/services/storage.py:233-285 | after a create or update, get returns that exact version within the TTL whatever the backends do, if fewer than the maximum of other ids had their cache entries set or hit in between; reads served by memory do not count |
| `ReadYourWrites.ReadsRepeat` | app/services/storage.py:233-250 | a record read is read again until its deadline, whatever the backends do, while it is not written and fewer than the maximum of other ids had their cache entries set or hit |
| `ReadYourWrites.ReadRightBack` | app/services/storage.py:233-285 | with nothing in between, a cache of any size gives the write back |
| `ReadYourWrites.SizeManyLoseTheWrite` | app/services/cache.py:39-42 | the bound is sharp for every size: a write PostgreSQL never took is missing after as many creates of other ids as there are slots |
| `Legacy.Business.GetAllContexts` | docker/src/app/business.py:7-9 | one item for each document |
| `Legacy.Business.GetContextById` | docker/src/app/business.py:11-15 | the item or nothing |
| `Legacy.Business.CreateNewContext` | docker/src/app/business.py:17-27 | nothing without a title, else a new document of four fields with a default description |
| `Legacy.Business.UpdateExistingContext` | docker/src/app/business.py:29-35 | nothing for a missing id, else the document with any fields of the payload put over it, stored under the id then in it; without one, an error and no write |
| `Legacy.UpdateStaysPutIff` | docker/src/app/business.py:29-35 | an update amends the addressed document and no other if and only if the payload carries no other id |
| `Legacy.UpdateMovesAway` | docker/src/app/business.py:29-35 | an update of one document with the id of another overwrites the other |
| `Legacy.UpdateRaisesIff` | docker/src/app/business.py:29-35 | an update raises, and writes nothing, if and only if the document is there and neither it nor the payload has an id; an id that is not text is filed as it prints |
| `Legacy.CreateByTitle` | docker/src/app/business.py:17-27 | nothing without a title; with only a title, a document with an empty description |
| `Legacy.Business.DeleteContextById` | docker/src/app/business.py:37-41 | whether the id was there, and it is gone |
| `Legacy.PlainAgrees` | docker/src/app/business.py:7-41 | one call on the plain map and on the first version agree on the shared fields |
| `Legacy.VersionsAgree` | docker/src/app/business.py:7-41 | with Redis alone and no faults, both versions give the same responses and documents on every run, the second with its cache |
| `RateLimiter.FailureTracker.CleanupOld` | app/auth.py:23-28 | exactly the failures in the window are kept, and no empty list |
| `RateLimiter.FailureTracker.CheckRateLimit` | app/auth.py:31-55 | the decision of the window and the capped doubling delay |
| `RateLimiter.FailureTracker.RecordFailure` | app/auth.py:58-63 | the pruned list with the new failure at its end |
| `RateLimiter.FailureTracker.Authenticate` | app/auth.py:83-97 | check, then record or clear, as one step of the limiter; a comparison that raises does neither |
| `RateLimiter.RecentTwice` | app/auth.py:25-26 | pruning twice is pruning once at the later time |
| `RateLimiter.PruningIsUnobservable` | app/auth.py:23-68 | over every run each decision is the one given by the whole failure history since the last success |
| `RateLimiter.AddressesAreIsolated` | app/auth.py:16-68 | in every run an address gets the verdicts it would get alone |
| `LimiterBounds.DelayGrows` | app/auth.py:42-44 | more failures never shorten the delay, which never exceeds 60 |
| `LimiterBounds.FastestInMinutes` | app/auth.py:42-44 | an address that fails the instant it may takes 60 n - 358 seconds for n more failures from the eighth on, and no less before |
| `LimiterBounds.SpacedSpan` | app/auth.py:42-48 | a list spaced by the delays is at least as long in time as a fastest one |
| `LimiterBounds.SeventeenTakeLonger` | app/auth.py:17-44 | seventeen tracked failures would span at least 602 seconds |
| `LimiterBounds.InvStep` | app/auth.py:23-68 | every attempt keeps each list non-empty, sorted, spaced by the delays and at most 16 long |
| `LimiterBounds.SpreadInside` | app/auth.py:17-44 | in the unpruned history, failures that fit one window are at least as far apart as in a fastest run |
| `LimiterBounds.SpreadAcross` | app/auth.py:17-44 | and so are any number of failures over any time, though pruning forgot some |
| `LimiterBounds.HistoriesArePaced` | app/auth.py:23-63 | over every run the full history is sorted, and each failure waited the delay for those still in its window |
| `LimiterBounds.AtMostSixteen` | app/auth.py:17-63 | over every run at most 16 tracked failures per address, and no number of failures in the full history without a success between them comes faster than in a fastest run |
| `LimiterBounds.PacedIsReachable` | app/auth.py:23-63 | conversely every such history, of any length, is one an address can build up |
| `LimiterBounds.FastestIsReached` | app/auth.py:31-63 | the fastest run is let through at every length, so the bound is exact |
| `LimiterBounds.SpacedIsReachable` | app/auth.py:31-63 | every sorted list spaced by the delays within a window is one an address can have tracked |
| `LimiterBounds.SixteenIsReached` | app/auth.py:17-44 | the bound of 16 is attained, after 542 seconds |
| `LimiterBounds.UnlockIsMonotone` | app/auth.py:31-55 | without a new failure, an allowed address stays allowed |
| `LimiterBounds.AllowedStaysAllowed` | app/auth.py:31-97 | over every run, an address allowed at its start and never rejected in it is never limited in it |
| `LimiterBounds.DenialLeavesNoTrace` | app/auth.py:48-55 | a 429, or a comparison that raises, moves no later decision for any address |
| `LimiterBounds.UnlockedAfterMaxDelay` | app/auth.py:42-48 | 60 seconds after the last failure an attempt is always allowed |
| `LimiterBounds.ForgottenAfterWindow` | app/auth.py:23-28 | an address stays tracked if and only if its last failure is in the window |
| `LimiterDecisions.DelayIsWait` | app/auth.py:17-44 | the delays are 0 below three failures, then 2, 4, 8, 16, 32 and 60 seconds |
| `LimiterDecisions.TrackedForTenMinutes` | app/auth.py:17-28 | over every run a failure since the last success is tracked exactly while it is less than 600 seconds old |
| `LimiterDecisions.DecidedByTheTimes` | app/auth.py:17-94 | over every run the next verdict follows from the times of the earlier failures and the comparison, in seconds |
| `BasicAuth.Base64RoundTrip` | app/middleware/mcp_auth.py:33 | every byte string is recovered from its Base64 encoding |
| `BasicAuth.Rfc4648Vectors` | app/middleware/mcp_auth.py:33 | the encoding is the one of RFC 4648, by the vectors of its section 10 |
| `BasicAuth.SymbolIsInTheTable` | app/middleware/mcp_auth.py:33 | the symbols are the 64 of table 1 of RFC 4648 |
| `BasicAuth.GroupIsANumber` | app/middleware/mcp_auth.py:33 | three bytes are the four base-64 digits of one 24-bit number |
| `BasicAuth.PartialGroupIsPadded` | app/middleware/mcp_auth.py:33 | one or two bytes are padded to four characters |
| `BasicAuth.EncodeInGroups` | app/middleware/mcp_auth.py:33 | whole groups are encoded one by one, so the three above fix every encoding |
| `BasicAuth.DecodeEncode` | app/middleware/mcp_auth.py:33 | an encoding decodes to what was encoded; what follows its padding is ignored |
| `BasicAuth.ForeignIsSkipped` | app/middleware/mcp_auth.py:33 | characters outside the alphabet change nothing |
| `BasicAuth.EarlyPaddingIsSkipped` | app/middleware/mcp_auth.py:33 | nor does padding before the second symbol of a group |
| `BasicAuth.ValueOfAlphabet` | app/middleware/mcp_auth.py:33 | a character is decoded if and only if it is in the table |
| `BasicAuth.WholeGroupsOnly` | app/middleware/mcp_auth.py:33 | symbols without padding decode if and only if they make whole groups of four |
| `BasicAuth.OnlyAsciiIsDecoded` | app/middleware/mcp_auth.py:29-35 | a header that is not ASCII carries no pair |
| `BasicAuth.CredentialsRoundTrip` | app/middleware/mcp_auth.py:29-37 | for every colon-free user id and every password, from any bytes that decode to them, the parser returns exactly that pair |
| `BasicAuth.ParsedIsTheCarriedText` | app/middleware/mcp_auth.py:29-37 | a pair comes back exactly when the header starts with "Basic " and carries text with a colon, and is that text cut at the first colon |
| `Surfaces.VerifyCredentials` | app/auth.py:76-97 | the REST dependency is one step of the shared limiter |
| `Surfaces.MCPBasicAuthMiddleware.Call` | app/middleware/mcp_auth.py:46-77 | the MCP guard is one step of the same limiter; other scopes pass without touching it |
| `Surfaces.RestDecides` | app/auth.py:76-97 | unless limited, a REST call is accepted if and only if both parts are the configured ones and all four texts are ASCII, an error if and only if one is not, and else rejected; it counts against its own client's address and no other |
| `Surfaces.McpDecides` | app/middleware/mcp_auth.py:51-77 | the same for the pair an MCP call's header carries, its password compared only behind the right user name; without a pair it is rejected |
| `Surfaces.ClientsAreIsolated` | app/auth.py:16-97 | on both surfaces together the calls from one address get the verdicts, and leave the failures, they would alone |
| `Surfaces.ComparedAlikeIff` | app/auth.py:86-88 | the REST dependency and the MCP guard compare a pair alike if and only if it is not a wrong ASCII user name with a password that cannot be compared |
| `Surfaces.WrongNameJudgedApart` | app/auth.py:86-88 | where the configured password is not ASCII, a wrong ASCII user name is an error to REST and a failure to MCP |
| `Surfaces.ComparedDifferently` | app/middleware/mcp_auth.py:65-75 | a first attempt that leaves no trace on REST and is tracked on MCP |
| `Surfaces.SurfacesShareOneBudget` | app/middleware/mcp_auth.py:3-7 | moving any calls of a run from the REST dependency to the MCP mount, with the same ASCII credentials, changes no verdict and no tracked failure |

## Left out

- SQLAlchemy, Redis, asyncio, HTTP and JSON themselves: backends are maps with faults, and records are values.
- Races at `await` points inside one call, and between threads on the tracker: each call is one atomic step. A slow `get` can refill the cache with an older record, so coherence does not hold at that grain.
- A second clock reading inside `set` and inside the limiter's calls: one reading stands for both.
- The loops `for backend in (self._pg, self._redis)`: written out once per backend, as the two are different classes.
- The prefixes `ctx:` and `context:` of cache and Redis keys: both are injective, and counters are kept apart from documents.
- Redis documents that do not parse: seen as a read that raises, or an unreadable key while listing.
- Update bodies with explicit nulls, which make an ill-formed record, and the missing lower bound on a title after an update.
- First-version request bodies that are not JSON objects, and how Python prints an id that is not text: a parameter.
- `init_redis`, `close_redis`, `init_db` and `close_db`: availability is a constant of each run.
- The number in `Retry-After`, which is rounded.
- How bytes that are not ASCII decode: a parameter. The timing of `compare_digest` is not modelled.
- Requests without usable credentials that FastAPI's `HTTPBasic` turns away before `verify_credentials`: they never reach the limiter, while the MCP guard counts a missing or unreadable header as a failure.
- Base64 text no encoder produces: the model skips foreign characters and stops at completed padding; Python releases differ on what follows padding.
- Health checks, debug and management routes, error injection, templates and the rest of the routers.
- Cluster.BoundedStaleness: the processes' clocks are read on one time line, and which backends are up is the same for all of them.
- TtlCache.TTLCache.constructor: asks for a configured size of at least 1; the source also accepts smaller ones, with which the first `set` on an empty store raises `ValueError`.
