/**
 The tests of pkg/cache/cache_test.go, replayed on the model: every
 `time.Sleep` becomes a later `now`, and the JSON copy of Get becomes a
 small text codec for the value types the tests store.
 */
module CacheScenarios {
  import opened Store
  import opened TtlCache

  /** A string as JSON text, without escaping. */
  function Quote(s: string): string
  {
    "\"" + s + "\""
  }

  /** The string a quoted JSON text denotes; anything else does not decode. */
  function Unquote(t: string): Option<string>
  {
    if |t| >= 2 && t[0] == '"' && t[|t| - 1] == '"' then Some(t[1..|t| - 1]) else None
  }

  function StringCodec(): Codec<string, string>
  {
    Codec(s => Some(Quote(s)), (t: string, prior: string) => Unquote(t))
  }

  lemma QuoteRoundTrip(s: string)
    ensures forall prior :: RoundTrips(StringCodec(), s, prior)
  {
    assert Quote(s)[1..|Quote(s)| - 1] == s;
  }

  /** testStruct of the tests: one string field. */
  datatype TestStruct = TestStruct(field: string)

  function StructCodec(): Codec<TestStruct, TestStruct>
  {
    Codec((ts: TestStruct) => Some(Quote(ts.field)),
          (t: string, prior: TestStruct) => match Unquote(t) case None => None case Some(f) => Some(TestStruct(f)))
  }

  /** TestCache_SetAndGet: a value set at 0 is found at once. */
  method SetAndGet() returns (ok: bool, value: string)
    ensures ok && value == "value"
  {
    var cache := new Cache<string>(10);
    cache.Set("key", "value", [], 0);
    QuoteRoundTrip("value");
    ok, value := cache.Get("key", 0, StringCodec(), "");
  }

  /** TestCache_SetWithCustomTTL: with a 5s TTL the value is found at 0 and
      expired at 6. */
  method SetWithCustomTTL() returns (ok: bool, value: string, expiredLater: bool)
    ensures ok && value == "value" && expiredLater
  {
    var cache := new Cache<string>(10);
    cache.Set("key", "value", [5], 0);
    QuoteRoundTrip("value");
    ok, value := cache.Get("key", 0, StringCodec(), "");
    expiredLater := cache.Expired("key", 6);
  }

  /** TestCache_Delete: Get misses after Delete. */
  method DeleteThenGet() returns (ok: bool)
    ensures !ok
  {
    var cache := new Cache<string>(10);
    cache.Set("key", "value", [], 0);
    cache.Delete("key");
    var value;
    ok, value := cache.Get("key", 0, StringCodec(), "");
  }

  /** TestCache_Expired: with a 1s default TTL the entry is expired at 2. */
  method ExpiredAfterDefaultTTL() returns (expired: bool)
    ensures expired
  {
    var cache := new Cache<string>(1);
    cache.Set("key", "value", [], 0);
    expired := cache.Expired("key", 2);
  }

  /** TestCache_Cleanup: with a 1s default TTL and a sweep every second,
      the sweep at 1 keeps the entry (it expires exactly then), the sweep
      at 2 removes it, and Expired holds at 2. */
  method CleanupSweeps() returns (keptAtExpiry: bool, sweptAfter: bool, expired: bool)
    ensures keptAtExpiry && sweptAfter && expired
  {
    var cache := new Cache<string>(1);
    cache.Set("key", "value", [], 0);
    cache.Cleanup(1);
    keptAtExpiry := "key" in cache.data;
    cache.Cleanup(2);
    sweptAfter := "key" !in cache.data;
    expired := cache.Expired("key", 2);
  }

  /** TestCache_JSONMarshaling: a record goes in and comes out equal. */
  method StructRoundTrip() returns (ok: bool, retrieved: TestStruct)
    ensures ok && retrieved.field == "value"
  {
    var cache := new Cache<TestStruct>(10);
    cache.Set("key", TestStruct("value"), [], 0);
    QuoteRoundTrip("value");
    ok, retrieved := cache.Get("key", 0, StructCodec(), TestStruct(""));
  }

  /** A string that may be nil, as JSON: nil is `null`. */
  function NullableCodec(): Codec<Option<string>, string>
  {
    Codec((o: Option<string>) => match o case None => Some("null") case Some(s) => Some(Quote(s)),
          (t: string, prior: string) => if t == "null" then Some(prior) else Unquote(t))
  }

  /** Get decodes into the caller's variable: a stored nil decodes as JSON
      `null`, which leaves a string variable as it was, and Get still
      reports a hit. */
  method NullKeepsTarget() returns (ok: bool, value: string)
    ensures ok && value == "old"
  {
    var cache := new Cache<Option<string>>(10);
    cache.Set("key", None, [], 0);
    ok, value := cache.Get("key", 0, NullableCodec(), "old");
  }
}
