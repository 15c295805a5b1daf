/**
 The value-level model of the TTL cache of pkg/cache/cache.go: the stored
 items, the liveness rule shared by Get, Expired and Cleanup, the pure
 meaning of each operation on the key-to-item map, and the properties the
 cache promises, stated over single operations and over traces of them.

 Time is an integer instant; a duration is an integer added to it.
 */
module Store {

  datatype Option<T> = None | Some(value: T)

  /** cacheItem: a stored value and the absolute instant it expires at. */
  datatype Item<V> = Item(data: V, expiresAt: int)

  /** The cache's map from key to item. */
  type Data<V> = map<string, Item<V>>

  /** The copy Get makes of a stored value: encode it, then decode the
      encoding into the caller's variable, given its current content (a
      decoder may keep parts of it). Either step may fail. */
  datatype Codec<-V, !U> = Codec(marshal: V -> Option<string>, unmarshal: (string, U) -> Option<U>)

  /** An item is live at `now` unless `now` is strictly after its expiry. */
  predicate Live<V>(item: Item<V>, now: int)
  {
    !(now > item.expiresAt)
  }

  /** The duration Set uses: the first optional TTL argument when one is
      given, the cache's default otherwise. */
  function EffectiveTTL(defaultTTL: int, ttl: seq<int>): int
  {
    if |ttl| > 0 then ttl[0] else defaultTTL
  }

  /** The item Set stores for `value` at `now`. */
  function NewItem<V>(value: V, defaultTTL: int, ttl: seq<int>, now: int): Item<V>
  {
    Item(value, now + EffectiveTTL(defaultTTL, ttl))
  }

  /** The value Get finds under `key` at `now`, before it is copied out. */
  function Lookup<V>(d: Data<V>, key: string, now: int): Option<V>
  {
    if key !in d || !Live(d[key], now) then None else Some(d[key].data)
  }

  /** The copy of `v` Get hands out: encode, then decode into `target`, the
      caller's variable; a failure of either step is a failure of the copy. */
  function Copy<V, U>(codec: Codec<V, U>, v: V, target: U): Option<U>
  {
    match codec.marshal(v)
    case None => None
    case Some(text) => codec.unmarshal(text, target)
  }

  /** What Get delivers: the live value, copied through the codec. */
  function Fetch<V, U>(d: Data<V>, key: string, now: int, codec: Codec<V, U>, target: U): Option<U>
  {
    match Lookup(d, key, now)
    case None => None
    case Some(v) => Copy(codec, v, target)
  }

  /** Expired: absent, or present and past its expiry. */
  predicate IsExpired<V>(d: Data<V>, key: string, now: int)
  {
    key !in d || !Live(d[key], now)
  }

  /** The map Cleanup leaves behind at `now`. */
  function Sweep<V>(d: Data<V>, now: int): Data<V>
  {
    map k | k in d && Live(d[k], now) :: d[k]
  }

  /** A codec copies `v` faithfully into `target` when encoding and
      decoding give `v` back. */
  ghost predicate RoundTrips<V>(codec: Codec<V, V>, v: V, target: V)
  {
    Copy(codec, v, target) == Some(v)
  }

  // ---------------------------------------------------------------------
  // Single operations
  // ---------------------------------------------------------------------

  /** Set stores the new item under its key, whatever was there, and leaves
      every other key as it was. */
  lemma SetStores<V>(d: Data<V>, key: string, value: V, defaultTTL: int, ttl: seq<int>, now: int)
    ensures key in d[key := NewItem(value, defaultTTL, ttl, now)]
    ensures d[key := NewItem(value, defaultTTL, ttl, now)][key].data == value
    ensures |ttl| > 0 ==> d[key := NewItem(value, defaultTTL, ttl, now)][key].expiresAt == now + ttl[0]
    ensures |ttl| == 0 ==> d[key := NewItem(value, defaultTTL, ttl, now)][key].expiresAt == now + defaultTTL
    ensures forall k :: k != key ==>
      (k in d[key := NewItem(value, defaultTTL, ttl, now)] <==> k in d)
    ensures forall k :: k != key && k in d ==> d[key := NewItem(value, defaultTTL, ttl, now)][k] == d[k]
  {
  }

  /** Get right after Set finds the value exactly until its expiry, and
      misses from then on. */
  lemma SetThenLookup<V>(d: Data<V>, key: string, value: V, defaultTTL: int, ttl: seq<int>, now: int, t: int)
    ensures Lookup(d[key := NewItem(value, defaultTTL, ttl, now)], key, t)
         == if t <= now + EffectiveTTL(defaultTTL, ttl) then Some(value) else None
  {
  }

  /** Set of one key is invisible to Get of every other key. */
  lemma SetKeepsOtherLookups<V>(d: Data<V>, key: string, item: Item<V>, other: string, t: int)
    requires other != key
    ensures Lookup(d[key := item], other, t) == Lookup(d, other, t)
    ensures IsExpired(d[key := item], other, t) == IsExpired(d, other, t)
  {
  }

  /** Bridge from `Lookup`, written with the shared `Live` rule, to the
      raw condition of the source's Get: it misses exactly when the key is
      absent or `now` is strictly after the expiry, and otherwise gives
      the stored value. */
  lemma LookupMeaning<V>(d: Data<V>, key: string, now: int)
    ensures Lookup(d, key, now).None? <==> key !in d || now > d[key].expiresAt
    ensures Lookup(d, key, now).Some? ==> Lookup(d, key, now).value == d[key].data
  {
  }

  /** Bridge from `Fetch` to the source's three early returns of Get: a
      hit needs a live entry, a successful marshal and a successful
      unmarshal, and delivers what the decoder produced. */
  lemma FetchMeaning<V, U>(d: Data<V>, key: string, now: int, codec: Codec<V, U>, target: U)
    ensures Fetch(d, key, now, codec, target).Some? <==>
      key in d && Live(d[key], now) && codec.marshal(d[key].data).Some?
      && codec.unmarshal(codec.marshal(d[key].data).value, target).Some?
    ensures Fetch(d, key, now, codec, target).Some? ==>
      Fetch(d, key, now, codec, target) == codec.unmarshal(codec.marshal(d[key].data).value, target)
  {
  }

  /** Expired is the negation of a lookup hit, and the negation of a Get
      hit whenever the copy of the stored value into the caller's variable
      succeeds: Expired differs from Get only through a failing copy. */
  lemma ExpiredIsMiss<V, U>(d: Data<V>, key: string, now: int, codec: Codec<V, U>, target: U)
    requires key in d ==> Copy(codec, d[key].data, target).Some?
    ensures IsExpired(d, key, now) <==> Fetch(d, key, now, codec, target).None?
    ensures IsExpired(d, key, now) <==> Lookup(d, key, now).None?
  {
  }

  /** Delete removes the key and nothing else; deleting twice is
      deleting once, and Get after Delete misses. */
  lemma DeleteRemoves<V>(d: Data<V>, key: string, now: int)
    ensures key !in d - {key}
    ensures forall k :: k != key ==> (k in d - {key} <==> k in d)
    ensures forall k :: k != key && k in d ==> (d - {key})[k] == d[k]
    ensures (d - {key}) - {key} == d - {key}
    ensures key !in d ==> d - {key} == d
    ensures Lookup(d - {key}, key, now).None? && IsExpired(d - {key}, key, now)
  {
  }

  /** Cleanup keeps exactly the entries live at `now`, each with its
      original item: no live entry is lost and no expired one survives. */
  lemma SweepExact<V>(d: Data<V>, now: int)
    ensures forall k :: k in Sweep(d, now) <==> k in d && !(now > d[k].expiresAt)
    ensures forall k :: k in Sweep(d, now) ==> Sweep(d, now)[k] == d[k]
  {
  }

  /** Cleanup twice at the same instant is Cleanup once; a later Cleanup
      subsumes an earlier one. */
  lemma SweepIdempotent<V>(d: Data<V>, t1: int, t2: int)
    requires t1 <= t2
    ensures Sweep(Sweep(d, t1), t2) == Sweep(d, t2)
    ensures Sweep(Sweep(d, t1), t1) == Sweep(d, t1)
  {
  }

  /** Lazy expiration makes Cleanup unobservable: from the sweep's instant
      on, Get and Expired answer the same with or without it. */
  lemma SweepUnobservable<V, U>(d: Data<V>, now: int, key: string, t: int, codec: Codec<V, U>, target: U)
    requires now <= t
    ensures Fetch(Sweep(d, now), key, t, codec, target) == Fetch(d, key, t, codec, target)
    ensures IsExpired(Sweep(d, now), key, t) == IsExpired(d, key, t)
  {
  }

  /** Expiry is a one-way transition: once stale, an entry stays stale as
      time goes on. */
  lemma ExpiryIsPermanent<V>(d: Data<V>, key: string, t1: int, t2: int)
    requires t1 <= t2 && IsExpired(d, key, t1)
    ensures IsExpired(d, key, t2)
  {
  }

  /** An entry expiring exactly at `now` is still live for Get, Expired and
      Cleanup; a Set whose TTL is zero or negative, be it the default or
      the override, is accepted and the entry is stale at every later
      instant. */
  lemma Boundary<V>(d: Data<V>, key: string, value: V, defaultTTL: int, ttl: seq<int>, now: int, t: int)
    ensures Lookup(d[key := Item(value, now)], key, now) == Some(value)
    ensures !IsExpired(d[key := Item(value, now)], key, now)
    ensures key in Sweep(d[key := Item(value, now)], now)
    ensures EffectiveTTL(defaultTTL, ttl) <= 0 && t > now ==>
      IsExpired(d[key := NewItem(value, defaultTTL, ttl, now)], key, t)
      && key !in Sweep(d[key := NewItem(value, defaultTTL, ttl, now)], t)
  {
  }

  // ---------------------------------------------------------------------
  // Traces of state-changing operations
  // ---------------------------------------------------------------------

  /** A state-changing call on the cache; Get and Expired change nothing. */
  datatype Op<V> =
    | SetOp(key: string, value: V, ttl: seq<int>, now: int)
    | DeleteOp(key: string)
    | CleanupOp(now: int)

  /** The map after one call. */
  function Step<V>(d: Data<V>, defaultTTL: int, op: Op<V>): Data<V>
  {
    match op
    case SetOp(k, v, ttl, now) => d[k := NewItem(v, defaultTTL, ttl, now)]
    case DeleteOp(k) => d - {k}
    case CleanupOp(now) => Sweep(d, now)
  }

  /** The map after a sequence of calls, first call first. */
  function Run<V>(d: Data<V>, defaultTTL: int, ops: seq<Op<V>>): Data<V>
    decreases |ops|
  {
    if ops == [] then d else Run(Step(d, defaultTTL, ops[0]), defaultTTL, ops[1..])
  }

  /** The call stores under `key`. */
  predicate SetsKey<V>(op: Op<V>, key: string)
  {
    op.SetOp? && op.key == key
  }

  /** The call removes or may replace the entry under `key` by name. */
  predicate NamesKey<V>(op: Op<V>, key: string)
  {
    (op.SetOp? || op.DeleteOp?) && op.key == key
  }

  /** The call is not a Cleanup after instant `t`. */
  predicate SweepsNoLaterThan<V>(op: Op<V>, t: int)
  {
    op.CleanupOp? ==> op.now <= t
  }

  /** Last write wins: two Sets of the same key leave the map the second
      alone would, whatever the values, TTLs and instants. */
  lemma LastWriteWins<V>(d: Data<V>, defaultTTL: int, key: string, v1: V, ttl1: seq<int>, now1: int,
                         v2: V, ttl2: seq<int>, now2: int)
    ensures Run(d, defaultTTL, [SetOp(key, v1, ttl1, now1), SetOp(key, v2, ttl2, now2)])
         == Run(d, defaultTTL, [SetOp(key, v2, ttl2, now2)])
  {
    var first, second := SetOp(key, v1, ttl1, now1), SetOp(key, v2, ttl2, now2);
    var ops := [first, second];
    assert ops[1..] == [second] && [second][1..] == [];
    var mid := Step(d, defaultTTL, first);
    assert Run(d, defaultTTL, ops) == Run(mid, defaultTTL, [second]);
    assert Run(mid, defaultTTL, [second]) == Run(Step(mid, defaultTTL, second), defaultTTL, []);
    assert Run(d, defaultTTL, ops) == Step(mid, defaultTTL, second);
    assert Run(d, defaultTTL, [second]) == Step(d, defaultTTL, second);
    assert Step(Step(d, defaultTTL, first), defaultTTL, second) == Step(d, defaultTTL, second);
  }

  /** With no Set of `key` in the trace, whatever is under `key` at the end
      was already there at the start, unchanged. */
  lemma {:induction false} NoSetNoNewEntry<V>(d: Data<V>, defaultTTL: int, ops: seq<Op<V>>, key: string)
    requires forall i :: 0 <= i < |ops| ==> !SetsKey(ops[i], key)
    ensures key in Run(d, defaultTTL, ops) ==> key in d && Run(d, defaultTTL, ops)[key] == d[key]
    decreases |ops|
  {
    if ops != [] {
      var d' := Step(d, defaultTTL, ops[0]);
      assert key in d' ==> key in d && d'[key] == d[key];
      assert forall i :: 0 <= i < |ops[1..]| ==> !SetsKey(ops[1..][i], key) by {
        forall i | 0 <= i < |ops[1..]| ensures !SetsKey(ops[1..][i], key) {
          assert ops[1..][i] == ops[i + 1];
        }
      }
      NoSetNoNewEntry(d', defaultTTL, ops[1..], key);
    }
  }

  /** An entry survives every call that neither names its key nor sweeps
      after its expiry. */
  lemma {:induction false} EntrySurvives<V>(d: Data<V>, defaultTTL: int, ops: seq<Op<V>>, key: string)
    requires key in d
    requires forall i :: 0 <= i < |ops| ==>
      !NamesKey(ops[i], key) && SweepsNoLaterThan(ops[i], d[key].expiresAt)
    ensures key in Run(d, defaultTTL, ops) && Run(d, defaultTTL, ops)[key] == d[key]
    decreases |ops|
  {
    if ops != [] {
      var d' := Step(d, defaultTTL, ops[0]);
      assert key in d' && d'[key] == d[key];
      assert forall i :: 0 <= i < |ops[1..]| ==>
        !NamesKey(ops[1..][i], key) && SweepsNoLaterThan(ops[1..][i], d'[key].expiresAt) by {
        forall i | 0 <= i < |ops[1..]|
          ensures !NamesKey(ops[1..][i], key) && SweepsNoLaterThan(ops[1..][i], d'[key].expiresAt)
        {
          assert ops[1..][i] == ops[i + 1];
        }
      }
      EntrySurvives(d', defaultTTL, ops[1..], key);
    }
  }

  /** Round trip: Set(key, value) at `now`, then any calls that do not
      Set or Delete `key` and sweep no later than `t`, then Get at any
      `t <= now + d` (d the TTL Set used) hits and yields what copying
      `value` yields; with a faithful copy, `value` itself. */
  lemma {:induction false} SetThenGet<V, U>(d: Data<V>, defaultTTL: int, key: string, value: V, ttl: seq<int>,
                                            now: int, ops: seq<Op<V>>, t: int, codec: Codec<V, U>, target: U)
    requires t <= now + EffectiveTTL(defaultTTL, ttl)
    requires forall i :: 0 <= i < |ops| ==> !NamesKey(ops[i], key) && SweepsNoLaterThan(ops[i], t)
    ensures Lookup(Run(d, defaultTTL, [SetOp(key, value, ttl, now)] + ops), key, t) == Some(value)
    ensures Fetch(Run(d, defaultTTL, [SetOp(key, value, ttl, now)] + ops), key, t, codec, target)
         == Copy(codec, value, target)
  {
    var s := [SetOp(key, value, ttl, now)] + ops;
    var d' := Step(d, defaultTTL, s[0]);
    assert s[1..] == ops;
    assert Run(d, defaultTTL, s) == Run(d', defaultTTL, ops);
    EntrySurvives(d', defaultTTL, ops, key);
  }

  /** The same round trip with a copy that gives the value back: Get
      returns true and delivers `value`. */
  lemma SetThenGetFaithful<V>(d: Data<V>, defaultTTL: int, key: string, value: V, ttl: seq<int>,
                              now: int, ops: seq<Op<V>>, t: int, codec: Codec<V, V>, target: V)
    requires t <= now + EffectiveTTL(defaultTTL, ttl)
    requires forall i :: 0 <= i < |ops| ==> !NamesKey(ops[i], key) && SweepsNoLaterThan(ops[i], t)
    requires RoundTrips(codec, value, target)
    ensures Fetch(Run(d, defaultTTL, [SetOp(key, value, ttl, now)] + ops), key, t, codec, target) == Some(value)
  {
    SetThenGet(d, defaultTTL, key, value, ttl, now, ops, t, codec, target);
  }

  /** Expiration: after Set(key, value) at `now` and any calls that do not
      Set `key` again, Get misses and Expired holds at every `t` past the
      entry's expiry, whether or not a Cleanup or a Delete happened. */
  lemma {:induction false} SetThenExpire<V, U>(d: Data<V>, defaultTTL: int, key: string, value: V, ttl: seq<int>,
                                               now: int, ops: seq<Op<V>>, t: int, codec: Codec<V, U>, target: U)
    requires t > now + EffectiveTTL(defaultTTL, ttl)
    requires forall i :: 0 <= i < |ops| ==> !SetsKey(ops[i], key)
    ensures IsExpired(Run(d, defaultTTL, [SetOp(key, value, ttl, now)] + ops), key, t)
    ensures Fetch(Run(d, defaultTTL, [SetOp(key, value, ttl, now)] + ops), key, t, codec, target).None?
  {
    var s := [SetOp(key, value, ttl, now)] + ops;
    var d' := Step(d, defaultTTL, s[0]);
    assert s[1..] == ops;
    assert Run(d, defaultTTL, s) == Run(d', defaultTTL, ops);
    NoSetNoNewEntry(d', defaultTTL, ops, key);
  }

  /** Absence: after Delete(key) and any calls that do not Set `key`, Get
      misses and Expired holds at every instant. */
  lemma {:induction false} DeleteThenMiss<V, U>(d: Data<V>, defaultTTL: int, key: string, ops: seq<Op<V>>,
                                                t: int, codec: Codec<V, U>, target: U)
    requires forall i :: 0 <= i < |ops| ==> !SetsKey(ops[i], key)
    ensures key !in Run(d, defaultTTL, [DeleteOp(key)] + ops)
    ensures IsExpired(Run(d, defaultTTL, [DeleteOp(key)] + ops), key, t)
    ensures Fetch(Run(d, defaultTTL, [DeleteOp(key)] + ops), key, t, codec, target).None?
  {
    var s := [DeleteOp(key)] + ops;
    var d' := Step(d, defaultTTL, s[0]);
    assert s[1..] == ops;
    assert Run(d, defaultTTL, s) == Run(d', defaultTTL, ops);
    NoSetNoNewEntry(d', defaultTTL, ops, key);
  }

  /** Calls on other keys never disturb an entry's answer from Get, apart
      from a Cleanup after its expiry, which removes only what Get would
      already miss. */
  lemma {:induction false} OtherKeysIsolated<V, U>(d: Data<V>, defaultTTL: int, ops: seq<Op<V>>, key: string,
                                                   t: int, codec: Codec<V, U>, target: U)
    requires forall i :: 0 <= i < |ops| ==> !NamesKey(ops[i], key) && SweepsNoLaterThan(ops[i], t)
    ensures Fetch(Run(d, defaultTTL, ops), key, t, codec, target) == Fetch(d, key, t, codec, target)
    decreases |ops|
  {
    if ops != [] {
      var d' := Step(d, defaultTTL, ops[0]);
      assert Fetch(d', key, t, codec, target) == Fetch(d, key, t, codec, target) by {
        if ops[0].CleanupOp? {
          SweepUnobservable(d, ops[0].now, key, t, codec, target);
        }
      }
      assert forall i :: 0 <= i < |ops[1..]| ==>
        !NamesKey(ops[1..][i], key) && SweepsNoLaterThan(ops[1..][i], t) by {
        forall i | 0 <= i < |ops[1..]|
          ensures !NamesKey(ops[1..][i], key) && SweepsNoLaterThan(ops[1..][i], t)
        {
          assert ops[1..][i] == ops[i + 1];
        }
      }
      OtherKeysIsolated(d', defaultTTL, ops[1..], key, t, codec, target);
    }
  }

  /** Every entry at the end of a trace was there from the start, or was
      written by a Set of its key in the trace; its expiry is that call's
      instant plus the TTL that call used. */
  lemma {:induction false} EntryOrigin<V>(d: Data<V>, defaultTTL: int, ops: seq<Op<V>>, key: string)
    requires key in Run(d, defaultTTL, ops)
    ensures (key in d && Run(d, defaultTTL, ops)[key] == d[key])
         || exists i :: 0 <= i < |ops| && SetsKey(ops[i], key)
              && Run(d, defaultTTL, ops)[key] == NewItem(ops[i].value, defaultTTL, ops[i].ttl, ops[i].now)
    decreases |ops|
  {
    if ops != [] {
      var d' := Step(d, defaultTTL, ops[0]);
      var r := Run(d, defaultTTL, ops);
      assert r == Run(d', defaultTTL, ops[1..]);
      EntryOrigin(d', defaultTTL, ops[1..], key);
      if key in d' && r[key] == d'[key] {
        if SetsKey(ops[0], key) {
          assert r[key] == NewItem(ops[0].value, defaultTTL, ops[0].ttl, ops[0].now);
        } else {
          assert key in d && d'[key] == d[key];
        }
      } else {
        var j :| 0 <= j < |ops[1..]| && SetsKey(ops[1..][j], key)
          && r[key] == NewItem(ops[1..][j].value, defaultTTL, ops[1..][j].ttl, ops[1..][j].now);
        assert ops[1..][j] == ops[j + 1];
      }
    }
  }
}
