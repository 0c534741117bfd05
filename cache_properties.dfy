/**
 * Properties that relate several operations of the cache: what a read
 * sees after a write, whether sweeps are visible to reads, and how `Add`
 * and `Replace` decide.
 */
module CacheProperties {
  import opened Wrappers
  import opened TtlCache

  /**
   * Where the two expiration tests part: a negative expiration, which this
   * model's `Set` never stores, reads as expired but is never swept.
   * (`Item.SweptAt` states that they agree on non-negative expirations.)
   */
  lemma NegativeExpirationNeverSwept<T>(item: Item<T>, now: nat)
    ensures item.expiration < 0 ==> item.Expired(now) && !item.SweptAt(now)
  {
  }

  /** A sweep at `s` is invisible to every read at `s` or later. */
  lemma SweepKeepsLookup<T>(m: Items<T>, s: nat, k: string, t: nat)
    requires s <= t
    ensures Lookup(Sweep(m, s), k, t) == Lookup(m, k, t)
  {
  }

  /** The map after sweeps at the successive instants `times`. */
  function SweepAll<T>(m: Items<T>, times: seq<nat>): (r: Items<T>)
    ensures r.Keys <= m.Keys
    ensures forall k :: k in r ==> r[k] == m[k]
    ensures forall k :: k in r <==> k in m && forall i :: 0 <= i < |times| ==> !m[k].SweptAt(times[i])
    decreases |times|
  {
    if times == [] then m else SweepAll(Sweep(m, times[0]), times[1..])
  }

  /** Sweeps no later than a read never change what the read returns, for any key. */
  lemma SweepsKeepLookup<T>(m: Items<T>, times: seq<nat>, k: string, t: nat)
    requires forall i :: 0 <= i < |times| ==> times[i] <= t
    ensures Lookup(SweepAll(m, times), k, t) == Lookup(m, k, t)
  {
  }

  /**
   * After `Set(k, v, d)` at `now`, a read of `k` at `t` finds `v` exactly while
   * the entry has not expired, whatever sweeps ran before the read, and other
   * keys read as they did before the write.
   */
  lemma SetThenGet<T>(m: Items<T>, k: string, v: T, d: int, defaultExpiration: int, now: nat,
                      sweeps: seq<nat>, t: nat)
    requires forall i :: 0 <= i < |sweeps| ==> sweeps[i] <= t
    ensures var ttl := EffectiveTtl(d, defaultExpiration);
      Lookup(SweepAll(SetItem(m, k, v, d, defaultExpiration, now), sweeps), k, t)
        == if ttl <= 0 || t <= now + ttl then Some(v) else None
    ensures forall k' :: k' != k ==> Lookup(SetItem(m, k, v, d, defaultExpiration, now), k', t) == Lookup(m, k', t)
  {
  }

  /** `NoExpiration` stores an entry that every later read finds, sweeps or not. */
  lemma NoExpirationNeverExpires<T>(m: Items<T>, k: string, v: T, defaultExpiration: int, now: nat,
                                    sweeps: seq<nat>, t: nat)
    requires forall i :: 0 <= i < |sweeps| ==> sweeps[i] <= t
    ensures Lookup(SweepAll(SetItem(m, k, v, NoExpiration, defaultExpiration, now), sweeps), k, t) == Some(v)
  {
  }

  /**
   * A second `Add` of the same key at the same instant fails and changes
   * nothing; the key then reads as the first `Add` left it.
   */
  lemma AddTwiceFails<T>(m: Items<T>, k: string, v1: T, v2: T, d1: int, d2: int,
                         defaultExpiration: int, now: nat)
    ensures var first := AddOutcome(m, k, v1, d1, defaultExpiration, now);
      var second := AddOutcome(first.items, k, v2, d2, defaultExpiration, now);
      && second == Outcome(first.items, Some(AlreadyExists(k)))
      && Lookup(second.items, k, now) == if first.err.None? then Some(v1) else Lookup(m, k, now)
  {
  }

  /**
   * For one key and one instant exactly one of `Add` and `Replace` succeeds;
   * the one that succeeds writes as `Set` does, the other leaves the map alone.
   */
  lemma AddReplaceExclusive<T>(m: Items<T>, k: string, v: T, d: int, defaultExpiration: int, now: nat)
    ensures var a := AddOutcome(m, k, v, d, defaultExpiration, now);
      var r := ReplaceOutcome(m, k, v, d, defaultExpiration, now);
      && (a.err.None? <==> r.err.Some?)
      && (a.err.None? ==> a.items == SetItem(m, k, v, d, defaultExpiration, now) && r.items == m)
      && (r.err.None? ==> r.items == SetItem(m, k, v, d, defaultExpiration, now) && a.items == m)
  {
  }

  /**
   * With 64-bit wrap-around, a duration reaching past the year 2262 stores a
   * negative expiration: the entry reads as expired at once and no sweep ever
   * removes it.
   */
  lemma WrappedExpirationLeaks<T>(v: T, defaultExpiration: int)
    ensures var now := 1_760_000_000_000_000_000;
      var e := ResolveExpirationInt64(MaxInt64, defaultExpiration, now);
      && e < 0
      && Item(v, e).Expired(now)
      && forall t: nat :: !Item(v, e).SweptAt(t)
  {
  }
}
