# TTL cache model

A Dafny model of the in-process key-value cache in `pkg/cache/cache.go`.
The cache maps string keys to items. Each item holds a value and the instant
it expires at. Its operations are:

- `NewCache`: builds an empty cache with a fixed default TTL.
- `Set`: stores a value under a key. The value expires `now` plus a TTL: the
  optional override if one is given, the default otherwise.
- `Get`: finds a value only while its entry is live, then copies it out
  through a JSON round trip.
- `Delete`: removes a key.
- `Expired`: reports whether a key is absent or stale.
- `Cleanup`: sweeps out every stale entry.

An entry is live at `now` unless `now` is strictly after its expiry, so an
entry expiring exactly at `now` is still live. Get, Expired and Cleanup all
use this one rule (`Store.Live`).

The project has three files:

- `store.dfy` (module `Store`) holds the value-level model:
  - the item and codec datatypes;
  - the meaning of each operation as a function of the map;
  - a trace of state-changing calls (`Step`, `Run`);
  - the lemmas: round trip, expiration, absence, last write wins, delete
    idempotence, cleanup exactness and idempotence, cleanup being
    unobservable through Get, the boundary at the expiry instant, and
    isolation between keys.
- `cache.dfy` (module `TtlCache`) holds the class `Cache`. Its `data` map
  field is updated in place by `Set`, `Delete` and `Cleanup`. `Cleanup`
  is a loop over the key set. Each method's postcondition ties the new map
  to the `Store` functions.
- `scenarios.dfy` (module `CacheScenarios`) replays the tests of
  `pkg/cache/cache_test.go` on the class. Each sleep becomes a later `now`.

How the source's environment is represented:

- Clock: every call takes its instant as an explicit `now: int`. In the
  source, each call reads `time.Now()`. Durations are integers added to
  instants.
- Optional TTL: Go's variadic `ttl ...time.Duration` is a `seq<int>`. As in
  the source, only its first element is used.
- Copying out of `Get`: the `json.Marshal`/`json.Unmarshal` pair is a
  `Codec`. It holds two caller-supplied functions, and each may fail. The
  decoder is given the caller's variable as well as the text, because
  `json.Unmarshal` decodes into it: on a hit the result may keep parts of
  what the variable held before (a JSON `null`, fields the text does not
  mention, existing map entries).
- Get's output pointer: the caller's current value goes in as `prior`. The
  decoder sees it on a hit, and it comes back unchanged on any miss.

Nothing in the code constrains the sign of the default TTL or of an
override; the model accepts any integer, and a zero or negative TTL gives
an entry that is stale at every later instant (`Store.Boundary`).

## Model

| member | source | states |
|---|---|---|
| `Store.Live` | pkg/cache/cache.go:50 | reference definition of liveness shared by Get, Expired and Cleanup: live unless now is strictly after the expiry |
| `Store.Lookup` | pkg/cache/cache.go:49-52 | reference definition of Get's lookup, to which `TtlCache.Cache.Get` and the lemmas are tied: the stored value when the key is present and live, otherwise nothing |
| `Store.EffectiveTTL` | pkg/cache/cache.go:33-36 | reference definition of the duration Set uses, to which `Store.NewItem` and `TtlCache.Cache.Set` are tied: the first optional TTL if given, else the default |
| `Store.NewItem` | pkg/cache/cache.go:38-41 | reference definition of the item Set stores, to which `Store.Step` and the Set lemmas are tied: the value, expiring at now plus the effective TTL |
| `Store.Copy` | pkg/cache/cache.go:54-61 | reference definition of Get's copy: marshal the value, then unmarshal the text into the caller's variable, failing if either fails |
| `Store.Fetch` | pkg/cache/cache.go:49-63 | reference definition of what Get delivers, to which `TtlCache.Cache.Get` is tied: the live value copied into the caller's variable |
| `Store.IsExpired` | pkg/cache/cache.go:78-82 | reference definition of Expired, to which `TtlCache.Cache.Expired` is tied: absent or not live |
| `Store.Sweep` | pkg/cache/cache.go:90-95 | reference definition of Cleanup's result, to which `TtlCache.Cache.Cleanup` is tied: the entries live at now, with their items |
| `Store.Step` | pkg/cache/cache.go:29-96 | reference definition of the map after one Set, Delete or Cleanup call, to which the class mutators are tied |
| `Store.Run` | pkg/cache/cache.go:29-96 | reference definition of the map after a sequence of Set, Delete and Cleanup calls, over which the trace lemmas are stated |
| `Store.SetStores` | pkg/cache/cache.go:33-41 | after Set the key holds exactly the new value, expiring at now plus ttl[0] or now plus the default; every other key keeps its presence and its item |
| `Store.LastWriteWins` | pkg/cache/cache.go:38-41 | two Sets of the same key, whatever their values, TTLs and instants, leave the map that the second Set alone leaves |
| `Store.SetThenLookup` | pkg/cache/cache.go:38-52 | right after Set, a lookup finds the value at every instant up to and including the expiry and misses at every later one |
| `Store.SetKeepsOtherLookups` | pkg/cache/cache.go:38-41 | Set of one key changes neither Get's lookup nor Expired for any other key |
| `Store.LookupMeaning` | pkg/cache/cache.go:49-52 | the lookup misses if and only if the key is absent or now is strictly after its expiry, and otherwise yields the stored value |
| `Store.FetchMeaning` | pkg/cache/cache.go:49-63 | Get hits if and only if the entry is live and both marshal and unmarshal into the caller's variable succeed, and then delivers what unmarshal produced |
| `Store.ExpiredIsMiss` | pkg/cache/cache.go:74-83 | Expired holds if and only if Get misses, whenever the copy succeeds; Lookup misses exactly when Expired holds |
| `Store.DeleteRemoves` | pkg/cache/cache.go:67-71 | after Delete the key is absent and Get misses; other keys keep their items; Delete of an absent key changes nothing; deleting twice equals deleting once |
| `Store.SweepExact` | pkg/cache/cache.go:86-96 | after the sweep a key is present if and only if it was present and not strictly past its expiry, with its original item |
| `Store.SweepIdempotent` | pkg/cache/cache.go:86-96 | a second sweep at the same or a later instant gives the same map as the later sweep alone |
| `Store.SweepUnobservable` | pkg/cache/cache.go:49-52 | from the sweep's instant on, Get and Expired answer the same whether or not the sweep ran |
| `Store.ExpiryIsPermanent` | pkg/cache/cache.go:82 | a key expired at some instant is expired at every later instant |
| `Store.Boundary` | pkg/cache/cache.go:33-50 | an entry expiring exactly at now is live for Get, Expired and Cleanup; with a zero or negative TTL, default or override, the entry is expired and swept at every later instant |
| `Store.NoSetNoNewEntry` | pkg/cache/cache.go:38-41 | over calls that never Set a key, the key's final entry, if any, is its initial one |
| `Store.EntryOrigin` | pkg/cache/cache.go:38-41 | every entry after a trace was there at the start or was written by a Set of its key in the trace, expiring at that Set's instant plus the TTL it used |
| `Store.EntrySurvives` | pkg/cache/cache.go:86-96 | an entry outlives every call that neither Sets nor Deletes its key nor sweeps after its expiry, unchanged |
| `Store.SetThenGet` | pkg/cache/cache.go:29-63 | after Set then calls that leave the key alone and sweep no later than t, Get at any t up to the expiry finds the value and delivers its copy |
| `Store.SetThenGetFaithful` | pkg/cache/cache_test.go:16-43 | with a copy that gives the value back, that Get returns true and yields the value that was set, with the default or a custom TTL |
| `Store.SetThenExpire` | pkg/cache/cache_test.go:31-50 | after Set and calls that never Set the key again, Get misses and Expired holds at every instant past the expiry |
| `Store.DeleteThenMiss` | pkg/cache/cache_test.go:52-63 | after Delete and calls that never Set the key, the key is absent, Get misses and Expired holds |
| `Store.OtherKeysIsolated` | pkg/cache/cache_test.go:109-128 | calls on other keys, and sweeps no later than t, never change what Get of a key delivers at t |
| `TtlCache.Cache.constructor` | pkg/cache/cache.go:21-26 | a new cache is empty and keeps the given default TTL |
| `TtlCache.Cache.Set` | pkg/cache/cache.go:29-42 | the map becomes the old map with the key bound to the value, expiring at now plus the effective TTL |
| `TtlCache.Cache.Get` | pkg/cache/cache.go:45-64 | reports a hit if and only if the entry is live and the copy into the caller's variable succeeds, then yields what the decoder made of that variable; on a miss the output is the caller's value, untouched; the map is not changed |
| `TtlCache.Cache.Delete` | pkg/cache/cache.go:67-71 | the map becomes the old map without the key |
| `TtlCache.Cache.Expired` | pkg/cache/cache.go:74-83 | true if and only if the key is absent or now is strictly after its expiry; the map is not changed |
| `TtlCache.Cache.Cleanup` | pkg/cache/cache.go:86-96 | the map becomes exactly the old entries live at now; live entries keep their items and expired ones are gone |
| `CacheScenarios.QuoteRoundTrip` | pkg/cache/cache_test.go:94-106 | the test codec decodes each string it encodes back to that string, whatever the caller's variable held |
| `CacheScenarios.SetAndGet` | pkg/cache/cache_test.go:16-29 | Set then Get at once returns true and "value" |
| `CacheScenarios.SetWithCustomTTL` | pkg/cache/cache_test.go:31-50 | with a 5s TTL, Get at 0 returns "value" and Expired at 6 is true |
| `CacheScenarios.DeleteThenGet` | pkg/cache/cache_test.go:52-63 | Get after Delete returns false |
| `CacheScenarios.ExpiredAfterDefaultTTL` | pkg/cache/cache_test.go:65-75 | with a 1s default TTL the key is expired at 2 |
| `CacheScenarios.CleanupSweeps` | pkg/cache/cache_test.go:77-88 | a sweep at the expiry instant keeps the entry, the sweep a second later removes it, and Expired holds |
| `CacheScenarios.StructRoundTrip` | pkg/cache/cache_test.go:94-107 | a record set in the cache comes back from Get with its field intact |
| `CacheScenarios.NullKeepsTarget` | pkg/cache/cache.go:59 | a stored nil decodes as JSON null into a string variable holding "old": Get reports a hit and the variable still holds "old" |

## Left out

- The `sync.RWMutex` locking: each call is modelled as atomic, with no concurrency.
- The concurrent test (pkg/cache/cache_test.go:109-128): only its sequential content is stated, by `Store.OtherKeysIsolated`.
- `StartCleanup` (pkg/cache/cache.go:99-106): a goroutine that never ends and sleeps between calls to `Cleanup`. Only `Cleanup` is modelled. A run of it is a sequence of `CleanupOp` calls in a `Store.Run` trace.
- `time.Now()` and `time.Time`/`time.Duration`: these are replaced by integer instants and durations. Go's finite time range and monotonic readings are not modelled.
- `encoding/json`: this is a caller-supplied `Codec` of two functions that can fail, the decoder given the text and the caller's variable. The model does not define JSON text or its decoding rules; the test codecs only quote strings, without escaping.
- Aliasing of stored values: `Set` keeps the caller's value as it is (pkg/cache/cache.go:38-39) and copies it only on the way out of `Get` (pkg/cache/cache.go:54-61). If that value is a pointer, map or slice, a change the caller makes after `Set` shows up in a later `Get`. The model treats every stored value as immutable and its codec as a pure function, so it cannot express that sharing.
- TtlCache.Cache.Get: on a failed unmarshal the output is the caller's prior value. Go's `json.Unmarshal` can partially fill the target before failing, and the model does not capture that. On a hit, partial reuse of the target is captured, since the decoder receives it.
- The order in which Go's `range` visits map keys in `Cleanup`: it is arbitrary, and the loop picks any pending key. The result does not depend on the order.
- The benchmarks (pkg/cache/cache_test.go:130-201) and the demo program `cmd/app/main.go`: both are timing and console output only.
