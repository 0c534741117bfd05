# TTL cache model

A Dafny model of the in-process key/value cache of package `cache`
(`src/cache/cache.go`). The cache maps string keys to items, each item
holding a payload and an absolute expiration instant in nanoseconds, where
`0` means "never expires". Writes take a duration: `DefaultExpiration` (0)
asks for the cache's default duration, and `NoExpiration` (-1) or any other
non-positive duration asks for an entry that never expires. Reads expire
lazily: an expired entry reads as absent but stays in the map until
`DeleteExpired` sweeps it away or a write or delete replaces it.

Layout:

- `wrappers.dfy`, module `Wrappers`: `Option`. `None` stands for Go's
  `(nil, false)` and `Some(v)` for `(v, true)`.
- `cache.dfy`, module `TtlCache`: the `Item` datatype with its two
  expiration tests, the constants, and the pure meaning of each operation
  over a `map<string, Item<T>>`. It also holds the class `Cache`, whose
  `items` field the methods `Set`, `Add`, `Replace`, `Delete` and
  `DeleteExpired` update in place. Each method is proved against the pure
  function for its operation.
- `cache_properties.dfy`, module `CacheProperties`: lemmas about
  sequences of operations. They cover read-after-write over time,
  invisibility of sweeps to reads, a double `Add`, and how `Add` and
  `Replace` split the cases.

Time is the explicit parameter `now: nat`, counted in nanoseconds since the
epoch. The payload type is the type parameter `T`. The class invariant
`Valid()` says that every stored expiration is non-negative. `Set` keeps
this invariant, because it only stores `0` or `now + d` with `d > 0`.

The source file does not compile as written. The model follows what was
evidently intended:

- `c.Items` (line 54) and `c.item` (line 79) both mean `c.items`.
- `time.Now().UnixNano` (line 58) means the call `UnixNano()`.
- The undefined `c.set` (lines 117 and 129) means the body of `Set` without
  its lock, so `Add` and `Replace` call `Set`.

## Model

| member | source | states |
|---|---|---|
| `TtlCache.Item.Expired` | src/cache/cache.go:18-23 | An item with expiration 0 never expires. Any other item is expired exactly when `now` is past its expiration. |
| `TtlCache.Item.SweptAt` | src/cache/cache.go:63 | The sweep's test `Expiration > 0 && now > Expiration` only ever selects items that also read as expired. On a non-negative expiration it coincides with `Expired`. |
| `TtlCache.EffectiveTtl` | src/cache/cache.go:71-73 | A duration of `DefaultExpiration` is replaced by the cache default. Any other duration is kept as passed. |
| `TtlCache.ResolveExpiration` | src/cache/cache.go:69-76 | `NoExpiration` stores 0 (never). A positive duration `d` stores `now + d`. `DefaultExpiration` with a positive cache default stores `now + default`. The result is 0 exactly when the duration is negative, or is `DefaultExpiration` with a non-positive default. Any non-zero result lies strictly after `now`. |
| `CacheProperties.NegativeExpirationNeverSwept` | src/cache/cache.go:18-23 | This is the case where `Expired` and the sweep's test `Expiration > 0 && now > Expiration` (line 63) disagree. (`Item.SweptAt` states that they agree on non-negative expirations.) For a negative expiration and any clock from the epoch on, the entry reads as expired but the sweep never selects it. |
| `TtlCache.WrapInt64` | src/cache/cache.go:75 | The result lies in the signed 64-bit range and is congruent to the input modulo 2^64, so it is Go's `int64` wrap-around. Values already in range are kept. |
| `TtlCache.ResolveExpirationInt64` | src/cache/cache.go:69-76 | This is `Set`'s expiration as written, with `now + d` wrapping at 64 bits. The result is a 64-bit value. Whenever `now + d` fits in 64 bits it equals `ResolveExpiration`. |
| `TtlCache.Lookup` | src/cache/cache.go:85-94 | `get` finds something exactly when the key is present and its item has not expired, and then returns that item's payload. It is a function of the map, so it removes nothing. |
| `TtlCache.SetItem` | src/cache/cache.go:77-82 | After a write, the key set is the old one plus `k`. `k` holds the new payload with the resolved expiration. Every other key keeps its item. Non-negative expirations stay non-negative. |
| `TtlCache.Sweep` | src/cache/cache.go:57-67 | A sweep at `now` keeps exactly the entries whose item fails `Expiration > 0 && now > Expiration`, and leaves their items unchanged. When all expirations are non-negative, it keeps exactly the entries that do not read as expired at `now`. |
| `TtlCache.AddOutcome` | src/cache/cache.go:110-120 | `Add` fails with `AlreadyExists(k)` exactly when `k` reads as live, and then keeps the map. Otherwise it writes as `Set` does, and `k` then reads as the new payload at the same `now`. |
| `TtlCache.ReplaceOutcome` | src/cache/cache.go:122-132 | `Replace` fails with `NotFound(k)` exactly when `k` reads as absent or expired, and then keeps the map. Otherwise it writes as `Set` does, and `k` then reads as the new payload at the same `now`. |
| `TtlCache.Cache.constructor` | src/cache/cache.go:32-38 | A cache starts with the given default duration and an empty map, and so satisfies the invariant. |
| `TtlCache.Cache.Set` | src/cache/cache.go:69-83 | The new map is `SetItem` of the old one. The written key reads back as the new payload at the same `now`. The invariant is kept and the default duration is untouched. |
| `TtlCache.Cache.Get` | src/cache/cache.go:96-108 | The locked `Get` returns exactly what the unlocked read `Lookup` returns on the current map: the payload when the key is present and not expired, nothing otherwise. It changes no state. |
| `TtlCache.Cache.Add` | src/cache/cache.go:110-120 | `Add` fails with `AlreadyExists(k)` exactly when `k` reads as live at `now`, and then leaves the map unchanged. Otherwise the map becomes what `Set` would make and no error is returned. |
| `TtlCache.Cache.Replace` | src/cache/cache.go:122-132 | `Replace` fails with `NotFound(k)` exactly when `k` reads as absent or expired at `now`. It then leaves the map unchanged, and `k` still reads as absent at that `now`. Otherwise the map becomes what `Set` would make, `k` reads as the new payload, and no error is returned. |
| `TtlCache.Cache.Delete` | src/cache/cache.go:134-138 | `Delete` (and the unexported `delete` at lines 53-55) removes `k` and nothing else. It never fails. When `k` is absent it changes nothing, so a second `Delete(k)` is a no-op. |
| `TtlCache.Cache.DeleteExpired` | src/cache/cache.go:57-67 | The loop over the entries, which deletes as it goes, ends with exactly `Sweep` of the old map at the one `now`. The key set shrinks or stays the same, and the invariant is kept. |
| `CacheProperties.SweepAll` | src/cache/cache.go:40-51 | Sweeps at the successive instants that the background loop would use keep exactly the entries that none of the sweeps selects, with their items unchanged. |
| `CacheProperties.SweepKeepsLookup` | src/cache/cache.go:57-67 | For any map, a sweep at `s` changes nothing that a read at any `t >= s` returns, for every key. This holds even for negative expirations. With `t = s` it gives the same `get` result before and after the sweep. |
| `CacheProperties.SweepsKeepLookup` | src/cache/cache.go:85-94 | For any map, any number of sweeps, all no later than the read, leave every key's `get` result unchanged. Lazy expiration and sweeping are indistinguishable to readers. |
| `CacheProperties.SetThenGet` | src/cache/cache.go:69-94 | After `Set(k, v, d)` at `now`, a read of `k` at `t` finds `v` exactly when the resolved duration is non-positive or `t <= now + duration`, whatever sweeps ran before the read. Every other key reads as before the write. |
| `CacheProperties.NoExpirationNeverExpires` | src/cache/cache.go:25-30 | An entry written with `NoExpiration` is found by every later read, sweeps or not. |
| `CacheProperties.AddTwiceFails` | src/cache/cache.go:110-120 | A second `Add` of the same key at the same instant fails with `AlreadyExists` and changes nothing. The key then reads as the first `Add` left it: the first payload when that `Add` succeeded, the earlier live payload otherwise. |
| `CacheProperties.AddReplaceExclusive` | src/cache/cache.go:110-132 | For one map, key and instant, exactly one of `Add` and `Replace` succeeds. The one that succeeds writes as `Set` does, and the other leaves the map unchanged. |
| `CacheProperties.WrappedExpirationLeaks` | src/cache/cache.go:75 | Take the as-written 64-bit arithmetic, a 2025 clock and the largest duration. The stored expiration is then negative: the entry reads as expired at once, and no sweep at any time removes it. |

## Left out

- Locking (`sync.RWMutex`): every operation is one atomic sequential step. The missing `RUnlock` on the expired path of `Get` (lines 103-104) leaks a read lock but does not change the returned value, so the model has no counterpart for it.
- The `gcLoop` goroutine, its ticker and the `stopGc` channel (lines 40-51): they exist for concurrency. Repeated sweeps are represented by `SweepAll` in the lemmas.
- `time.Now()`: replaced by the parameter `now`, a natural number of nanoseconds. Clocks before the epoch are not modelled.
- `ResolveExpiration`: `now + d` is computed on unbounded integers, which is the intended behaviour. The 64-bit wrap-around of the source is modelled separately, by `ResolveExpirationInt64`.
- The `interface{}` payload: replaced by a type parameter.
- Error values: `fmt.Errorf` messages become `AlreadyExists(key)` and `NotFound(key)`. The message text is not modelled.
- The `encoding/gob`, `io` and `os` imports: the file contains no save or load code that uses them. Persistence, `Count`, `Flush` and a constructor function are not part of this model, because the source file has none of them. The Dafny constructor stands for a `Cache` value with an empty map.
- `src/cache/test.go`: a standalone program that prints the clock. Its `Item.Expired` duplicates the one in `cache.go`.
- `DeleteExpired` follows the code: it removes entries with `Expiration > 0 && now > Expiration`. It does not use `Expired`. The two tests differ only for negative expirations, which the model's `Set` never stores (see `NegativeExpirationNeverSwept`).
- In the source, `Set` can store a negative `Expiration`. This happens when `now + d` wraps past the `int64` range (an instant after 2262) or when the clock reads before 1970. A wrapped expiration reads as expired at once. An entry written under a pre-1970 clock reads as live until the clock passes its expiration. Once expired, neither kind is ever swept, because the sweep requires `Expiration > 0`, so it stays in the map until it is overwritten or deleted. The model's `Set` uses `ResolveExpiration` and stores no such entry. The as-written arithmetic is kept in `ResolveExpirationInt64` (see "## Findings").
- `Add`, `Replace`: the source reads the clock twice, once in `get`'s `Expired` (line 22) and once in the write (line 75). The model judges liveness and computes the new expiration from the same `now`.

## Findings

| source | as written | input that shows it | evidently intended | confidence | as-written member | corrected member |
|---|---|---|---|---|---|---|
| src/cache/cache.go:75 | `time.Now().Add(d).UnixNano()` wraps around `int64` when `now + d` passes 2^63 - 1 | `now` = 1760000000000000000 (2025) and `d` = 2^63 - 1 (the largest `time.Duration`). The stored expiration is negative, so the entry reads as expired at once and `DeleteExpired` never removes it. | A positive duration gives an expiration after `now`, so the entry is live until then. | medium, not executed | `TtlCache.ResolveExpirationInt64` (exhibited by `CacheProperties.WrappedExpirationLeaks`) | `TtlCache.ResolveExpiration` (ensures `e != 0 ==> e > now`; used by `SetItem` and `Cache.Set`) |
