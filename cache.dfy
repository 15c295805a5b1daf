/**
 The cache object of pkg/cache/cache.go: a map from key to item that Set,
 Delete and Cleanup update in place, and a default TTL fixed at
 construction. Each call takes the instant it runs at as `now`; each call
 is atomic (the lock that makes it so is not modelled).
 */
module TtlCache {
  import opened Store

  class Cache<V> {
    var data: Data<V>
    const defaultTTL: int

    /** NewCache: an empty cache with the given default TTL. */
    constructor (defaultTTL: int)
      ensures this.defaultTTL == defaultTTL
      ensures data == map[]
    {
      this.defaultTTL := defaultTTL;
      data := map[];
    }

    /** Stores `value` under `key`, replacing any entry, to expire at `now`
        plus the first of `ttl` if given, else plus the default TTL. */
    method Set(key: string, value: V, ttl: seq<int>, now: int)
      modifies this
      ensures data == old(data)[key := Item(value, now + EffectiveTTL(defaultTTL, ttl))]
      ensures data == Step(old(data), defaultTTL, SetOp(key, value, ttl, now))
    {
      var duration := defaultTTL;
      if |ttl| > 0 {
        duration := ttl[0];
      }
      data := data[key := Item(value, now + duration)];
    }

    /** Reports whether `key` holds an entry live at `now` whose copy
        through `codec` into the caller's variable, holding `prior`,
        succeeds; on a hit `out` is what the decoder made of `prior`,
        otherwise it is `prior`, untouched. */
    method Get<U>(key: string, now: int, codec: Codec<V, U>, prior: U) returns (ok: bool, out: U)
      ensures !ok ==> out == prior
      ensures ok <==> Fetch(data, key, now, codec, prior).Some?
      ensures ok ==> Fetch(data, key, now, codec, prior) == Some(out)
      ensures key !in data || now > data[key].expiresAt ==> !ok
      ensures ok ==> key in data && Copy(codec, data[key].data, prior) == Some(out)
    {
      if key !in data || now > data[key].expiresAt {
        return false, prior;
      }
      var item := data[key];
      var text := codec.marshal(item.data);
      if text.None? {
        return false, prior;
      }
      var copy := codec.unmarshal(text.value, prior);
      if copy.None? {
        return false, prior;
      }
      return true, copy.value;
    }

    /** Removes `key` if present. */
    method Delete(key: string)
      modifies this
      ensures data == old(data) - {key}
      ensures data == Step(old(data), defaultTTL, DeleteOp(key))
    {
      data := data - {key};
    }

    /** True when `key` is absent or its entry is past its expiry at `now`. */
    method Expired(key: string, now: int) returns (expired: bool)
      ensures expired <==> key !in data || now > data[key].expiresAt
      ensures expired == IsExpired(data, key, now)
    {
      if key !in data {
        return true;
      }
      return now > data[key].expiresAt;
    }

    /** Removes every entry whose expiry is strictly before `now`, visiting
        the keys one at a time. */
    method Cleanup(now: int)
      modifies this
      ensures data == Sweep(old(data), now)
      ensures data == Step(old(data), defaultTTL, CleanupOp(now))
      ensures forall k :: k in old(data) && Live(old(data)[k], now) ==> k in data && data[k] == old(data)[k]
      ensures forall k :: k in old(data) && !Live(old(data)[k], now) ==> k !in data
    {
      var pending := data.Keys;
      while pending != {}
        invariant pending <= old(data).Keys
        invariant forall k :: k in data <==> k in old(data) && (k in pending || Live(old(data)[k], now))
        invariant forall k :: k in data ==> data[k] == old(data)[k]
        decreases pending
      {
        var key :| key in pending;
        if now > data[key].expiresAt {
          data := data - {key};
        }
        pending := pending - {key};
      }
      assert data.Keys == Sweep(old(data), now).Keys;
    }
  }
}
