/**
 * A key/value store whose entries carry an optional absolute expiration
 * instant (package `cache`). Time is an explicit parameter `now`, in
 * nanoseconds since the epoch; durations are nanoseconds too.
 */
module TtlCache {
  import opened Wrappers

  /** A duration that asks for an entry that never expires. */
  const NoExpiration: int := -1
  /** A duration that asks for the cache's own default duration. */
  const DefaultExpiration: int := 0

  /** One stored entry: the payload and its expiration instant, 0 meaning never. */
  datatype Item<T> = Item(obj: T, expiration: int)
  {
    /** What a read sees: an entry is expired when it has an expiration and `now` is past it. */
    predicate Expired(now: nat)
      ensures expiration == 0 ==> !Expired(now)
      ensures expiration != 0 ==> (Expired(now) <==> now > expiration)
    {
      if expiration == 0 then false else now > expiration
    }

    /** The test the sweep applies to each entry. */
    predicate SweptAt(now: nat)
      ensures SweptAt(now) ==> Expired(now)
      ensures expiration >= 0 ==> (SweptAt(now) <==> Expired(now))
    {
      expiration > 0 && now > expiration
    }
  }

  type Items<T> = map<string, Item<T>>

  /** Every stored expiration is 0 or a positive instant, as `Set` produces them. */
  ghost predicate NonNegative<T>(m: Items<T>)
  {
    forall k :: k in m ==> m[k].expiration >= 0
  }

  /** The errors `Add` and `Replace` report. */
  datatype CacheError = AlreadyExists(key: string) | NotFound(key: string)

  /** The map after a write, and the error the write reported, if any. */
  datatype Outcome<T> = Outcome(items: Items<T>, err: Option<CacheError>)

  /** The duration a write asks for, once `DefaultExpiration` is replaced by the cache default. */
  function EffectiveTtl(d: int, defaultExpiration: int): (ttl: int)
    ensures d != DefaultExpiration ==> ttl == d
    ensures d == DefaultExpiration ==> ttl == defaultExpiration
  {
    if d == DefaultExpiration then defaultExpiration else d
  }

  /** The expiration instant `Set` stores for duration `d` at time `now`. */
  function ResolveExpiration(d: int, defaultExpiration: int, now: nat): (e: nat)
    ensures d == NoExpiration ==> e == 0
    ensures d > 0 ==> e == now + d
    ensures d == DefaultExpiration && defaultExpiration > 0 ==> e == now + defaultExpiration
    ensures e == 0 <==> d < 0 || (d == DefaultExpiration && defaultExpiration <= 0)
    ensures e != 0 ==> e > now
  {
    var ttl := EffectiveTtl(d, defaultExpiration);
    if ttl > 0 then now + ttl else 0
  }

  const MinInt64: int := -0x8000_0000_0000_0000
  const MaxInt64: int := 0x7FFF_FFFF_FFFF_FFFF

  /** Two's-complement wrap-around of an integer into the 64-bit range. */
  function WrapInt64(x: int): (r: int)
    ensures MinInt64 <= r <= MaxInt64
    ensures (x - r) % 0x1_0000_0000_0000_0000 == 0
    ensures MinInt64 <= x <= MaxInt64 ==> r == x
  {
    (x - MinInt64) % 0x1_0000_0000_0000_0000 + MinInt64
  }

  /**
   * The expiration `Set` computes as written, where `now + d` is a 64-bit
   * nanosecond count that wraps around. It agrees with `ResolveExpiration`
   * whenever the sum fits in 64 bits.
   */
  function ResolveExpirationInt64(d: int, defaultExpiration: int, now: nat): (e: int)
    ensures MinInt64 <= e <= MaxInt64
    ensures now + EffectiveTtl(d, defaultExpiration) <= MaxInt64 ==> e == ResolveExpiration(d, defaultExpiration, now)
  {
    var ttl := EffectiveTtl(d, defaultExpiration);
    if ttl > 0 then WrapInt64(now + ttl) else 0
  }

  /** The unlocked read: the payload of a live entry, nothing for an absent or expired one. */
  function Lookup<T>(m: Items<T>, k: string, now: nat): (r: Option<T>)
    ensures r.Some? <==> k in m && !m[k].Expired(now)
    ensures r.Some? ==> r.value == m[k].obj
  {
    if k !in m then None
    else if m[k].Expired(now) then None
    else Some(m[k].obj)
  }

  /** The map after an unconditional write of `v` under `k` at time `now`. */
  function SetItem<T>(m: Items<T>, k: string, v: T, d: int, defaultExpiration: int, now: nat): (r: Items<T>)
    ensures r.Keys == m.Keys + {k}
    ensures r[k].obj == v && r[k].expiration == ResolveExpiration(d, defaultExpiration, now)
    ensures forall k' :: k' in m && k' != k ==> r[k'] == m[k']
    ensures NonNegative(m) ==> NonNegative(r)
  {
    m[k := Item(v, ResolveExpiration(d, defaultExpiration, now))]
  }

  /** The map after one sweep at time `now`. */
  function Sweep<T>(m: Items<T>, now: nat): (r: Items<T>)
    ensures forall k :: k in r <==> k in m && !m[k].SweptAt(now)
    ensures forall k :: k in r ==> r[k] == m[k]
    ensures NonNegative(m) ==> NonNegative(r)
    ensures NonNegative(m) ==> forall k :: k in m ==> (k in r <==> !m[k].Expired(now))
  {
    map k | k in m && !m[k].SweptAt(now) :: m[k]
  }

  /** `Add`: refuse a key that reads as live, otherwise write as `Set` does. */
  function AddOutcome<T>(m: Items<T>, k: string, v: T, d: int, defaultExpiration: int, now: nat): (r: Outcome<T>)
    ensures r.err.Some? <==> Lookup(m, k, now).Some?
    ensures r.err.Some? ==> r == Outcome(m, Some(AlreadyExists(k)))
    ensures r.err.None? ==> r.items == SetItem(m, k, v, d, defaultExpiration, now) && Lookup(r.items, k, now) == Some(v)
  {
    if Lookup(m, k, now).Some? then Outcome(m, Some(AlreadyExists(k)))
    else Outcome(SetItem(m, k, v, d, defaultExpiration, now), None)
  }

  /** `Replace`: refuse a key that reads as absent, otherwise write as `Set` does. */
  function ReplaceOutcome<T>(m: Items<T>, k: string, v: T, d: int, defaultExpiration: int, now: nat): (r: Outcome<T>)
    ensures r.err.Some? <==> Lookup(m, k, now).None?
    ensures r.err.Some? ==> r == Outcome(m, Some(NotFound(k)))
    ensures r.err.None? ==> r.items == SetItem(m, k, v, d, defaultExpiration, now) && Lookup(r.items, k, now) == Some(v)
  {
    if Lookup(m, k, now).None? then Outcome(m, Some(NotFound(k)))
    else Outcome(SetItem(m, k, v, d, defaultExpiration, now), None)
  }

  /** The store itself: the entries and the default duration, updated in place. */
  class Cache<T> {
    var defaultExpiration: int
    var items: Items<T>

    ghost predicate Valid()
      reads this
    {
      NonNegative(items)
    }

    constructor (defaultExpiration: int)
      ensures Valid()
      ensures this.defaultExpiration == defaultExpiration && items == map[]
    {
      this.defaultExpiration := defaultExpiration;
      items := map[];
    }

    /** Removes `k` if present; never fails. */
    method Delete(k: string)
      requires Valid()
      modifies this`items
      ensures Valid()
      ensures items == old(items) - {k}
      ensures k !in items
      ensures k !in old(items) ==> items == old(items)
      ensures forall k' :: k' in old(items) && k' != k ==> k' in items && items[k'] == old(items)[k']
    {
      items := items - {k};
    }

    /** Removes every entry the sweep test selects, all judged against the one `now`. */
    method DeleteExpired(now: nat)
      requires Valid()
      modifies this`items
      ensures Valid()
      ensures items == Sweep(old(items), now)
      ensures items.Keys <= old(items).Keys
    {
      var pending := items.Keys;
      while pending != {}
        invariant pending <= old(items).Keys
        invariant forall k :: k in old(items) ==> (k in items <==> k in pending || !old(items)[k].SweptAt(now))
        invariant forall k :: k in items ==> k in old(items) && items[k] == old(items)[k]
        decreases pending
      {
        var k :| k in pending;
        var v := items[k];
        if v.expiration > 0 && now > v.expiration {
          Delete(k);
        }
        pending := pending - {k};
      }
      assert items.Keys == Sweep(old(items), now).Keys;
    }

    /** Writes `v` under `k` unconditionally, with the expiration the duration `d` resolves to. */
    method Set(k: string, v: T, d: int, now: nat)
      requires Valid()
      modifies this`items
      ensures Valid()
      ensures items == SetItem(old(items), k, v, d, defaultExpiration, now)
      ensures Lookup(items, k, now) == Some(v)
    {
      var e := 0;
      var ttl := d;
      if ttl == DefaultExpiration {
        ttl := defaultExpiration;
      }
      if ttl > 0 {
        e := now + ttl;
      }
      items := items[k := Item(v, e)];
    }

    /** The locked read: the payload of a live entry under `k`, or nothing. */
    method Get(k: string, now: nat) returns (r: Option<T>)
      ensures r == Lookup(items, k, now)
    {
      if k !in items {
        return None;
      }
      var item := items[k];
      if item.Expired(now) {
        return None;
      }
      return Some(item.obj);
    }

    /** Writes only when `k` does not read as live; otherwise reports `AlreadyExists`. */
    method Add(k: string, v: T, d: int, now: nat) returns (err: Option<CacheError>)
      requires Valid()
      modifies this`items
      ensures Valid()
      ensures Outcome(items, err) == AddOutcome(old(items), k, v, d, defaultExpiration, now)
      ensures err.Some? <==> Lookup(old(items), k, now).Some?
    {
      var found := Lookup(items, k, now).Some?;
      if found {
        return Some(AlreadyExists(k));
      }
      Set(k, v, d, now);
      return None;
    }

    /** Writes only when `k` reads as live; otherwise reports `NotFound`. */
    method Replace(k: string, v: T, d: int, now: nat) returns (err: Option<CacheError>)
      requires Valid()
      modifies this`items
      ensures Valid()
      ensures Outcome(items, err) == ReplaceOutcome(old(items), k, v, d, defaultExpiration, now)
      ensures err.Some? <==> Lookup(old(items), k, now).None?
      ensures err.Some? ==> items == old(items) && Lookup(items, k, now).None?
      ensures err.None? ==> Lookup(items, k, now) == Some(v)
    {
      var found := Lookup(items, k, now).Some?;
      if !found {
        return Some(NotFound(k));
      }
      Set(k, v, d, now);
      return None;
    }
  }
}
