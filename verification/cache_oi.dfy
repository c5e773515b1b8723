/** The in-process TTL cache: each key holds a value, the time it was stored
    and a time-to-live in milliseconds. Time is an explicit parameter. */
module TtlCache {
  import opened Wrappers

  datatype Entry<V> = Entry(value: V, ts: int, ttlMs: int)

  type Cache<V> = map<string, Entry<V>>

  /** An entry is live while no more than `ttlMs` milliseconds have passed. */
  predicate Live<V>(e: Entry<V>, now: int) {
    now - e.ts <= e.ttlMs
  }

  /** `_get_cache`: the stored value while it is live; an expired entry is
      reported absent but stays in the map. */
  function Get<V>(c: Cache<V>, key: string, now: int): (r: Option<V>)
    ensures r.Some? <==> key in c && Live(c[key], now)
    ensures r.Some? ==> r.value == c[key].value
  {
    if key in c && Live(c[key], now) then Some(c[key].value) else None
  }

  /** `_set_cache`: stores the value under its key, stamped with `now`. */
  function Set<V>(c: Cache<V>, key: string, value: V, ttlMs: int, now: int): (r: Cache<V>)
    ensures r.Keys == c.Keys + {key}
    ensures r[key] == Entry(value, now, ttlMs)
    ensures forall k :: k in c && k != key ==> r[k] == c[k]
  {
    c[key := Entry(value, now, ttlMs)]
  }

  /** A value just stored is read back for exactly `ttlMs` milliseconds; a
      negative TTL makes it absent at once. */
  lemma SetThenGet<V>(c: Cache<V>, key: string, value: V, ttlMs: int, now: int, later: int)
    ensures Get(Set(c, key, value, ttlMs, now), key, later) ==
      (if later - now <= ttlMs then Some(value) else None)
  {
  }

  /** Storing under one key leaves every other key's reading unchanged. */
  lemma SetKeepsOthers<V>(c: Cache<V>, key: string, other: string, value: V, ttlMs: int, now: int, t: int)
    requires other != key
    ensures Get(Set(c, key, value, ttlMs, now), other, t) == Get(c, other, t)
  {
  }

  /** Once an entry has expired it stays expired as time moves on. */
  lemma ExpiryIsPermanent<V>(c: Cache<V>, key: string, t1: int, t2: int)
    requires t1 <= t2 && Get(c, key, t1).None?
    ensures Get(c, key, t2).None?
  {
  }

  /** The cached-fetch pattern of the meta, order-book and trades readers:
      a live value is returned as is; otherwise the freshly fetched value is
      returned and stored. */
  function GetOrFetch<V>(c: Cache<V>, key: string, fetched: V, ttlMs: int, now: int): (r: (V, Cache<V>))
    ensures Get(c, key, now).Some? ==> r.1 == c && r.0 == Get(c, key, now).value
    ensures r.1.Keys == c.Keys + {key}
    ensures Get(c, key, now).None? ==> r.0 == fetched && r.1[key] == Entry(fetched, now, ttlMs)
    ensures ttlMs >= 0 ==> Get(r.1, key, now) == Some(r.0)
    ensures forall k, t :: k != key ==> Get(r.1, k, t) == Get(c, k, t)
  {
    match Get(c, key, now)
    case Some(v) => (v, c)
    case None => (fetched, Set(c, key, fetched, ttlMs, now))
  }

  /** With a non-negative TTL, reading the key again at the same instant
      yields the value the cached fetch returned. */
  lemma GetOrFetchThenGet<V>(c: Cache<V>, key: string, fetched: V, ttlMs: int, now: int)
    requires ttlMs >= 0
    ensures var (v, c2) := GetOrFetch(c, key, fetched, ttlMs, now); Get(c2, key, now) == Some(v)
  {
  }
}

/** `get_oi_trend`: the open interest of one coin and its change since the
    reading stored in the cache by the previous call. */
module OpenInterest {
  import opened Wrappers
  import opened Json
  import Text
  import TtlCache

  /** The previous reading is kept for one minute. */
  const HistoryTtlMs: int := 60000

  function OiKey(network: string, coin: string): string {
    "oi_hist:" + network + ":" + coin
  }

  /** `uni.get("universe", [])` for a dict and `[]` otherwise, as
      `enumerate` walks it: a list yields its items, while a string or a dict
      yields characters or keys, never a dict entry, so both act as an empty
      universe. `None` stands for the `TypeError` that `enumerate` raises on
      `null`, a number or a boolean. */
  function Universe(uni: Json): (r: Option<seq<Json>>)
    ensures !uni.JObj? || !HasKey(uni.fields, "universe") ==> r == Some([])
    ensures uni.JObj? && HasKey(uni.fields, "universe") ==>
      var u := Lookup(uni.fields, "universe");
      && (r.None? <==> u.JNull? || u.JNum? || u.JBool?)
      && (u.JList? ==> r == Some(u.items))
      && (u.JStr? || u.JObj? ==> r == Some([]))
  {
    if !uni.JObj? || !HasKey(uni.fields, "universe") then Some([])
    else
      match Lookup(uni.fields, "universe")
      case JList(items) => Some(items)
      case JStr(_) => Some([])
      case JObj(_) => Some([])
      case _ => None
  }

  /** A dict entry whose `name` is a list or a dict: using it as a key of
      the comprehension raises `TypeError` (unhashable type). */
  predicate UnhashableName(a: Json) {
    a.JObj? && HasKey(a.fields, "name") && (Lookup(a.fields, "name").JList? || Lookup(a.fields, "name").JObj?)
  }

  /** The comprehension `{a.get("name"): i ...}` completes. */
  predicate NamesHashable(universe: seq<Json>) {
    forall i :: 0 <= i < |universe| ==> !UnhashableName(universe[i])
  }

  /** Whether entry `a` of the universe is a dict naming `coin`. */
  predicate Names(a: Json, coin: string) {
    a.JObj? && Get(a, "name") == JStr(coin)
  }

  /** The position `{name: i}` maps `coin` to: the dict comprehension keeps
      the last index whose entry carries that name. */
  function IndexOf(universe: seq<Json>, coin: string): (r: Option<nat>)
    ensures r.None? <==> forall i :: 0 <= i < |universe| ==> !Names(universe[i], coin)
    ensures r.Some? ==> r.value < |universe| && Names(universe[r.value], coin)
    ensures r.Some? ==> forall i :: r.value < i < |universe| ==> !Names(universe[i], coin)
    decreases |universe|
  {
    if |universe| == 0 then None
    else if Names(universe[|universe| - 1], coin) then Some(|universe| - 1)
    else
      var r := IndexOf(universe[..|universe| - 1], coin);
      assert forall i :: 0 <= i < |universe| - 1 ==> universe[..|universe| - 1][i] == universe[i];
      r
  }

  /** The asset context for `coin`, or `{}` when the coin is unknown or its
      index lies past the end of `ctxs`. */
  function CtxFor(universe: seq<Json>, ctxs: seq<Json>, coin: string): Json {
    match IndexOf(universe, coin)
    case Some(i) => if i < |ctxs| then ctxs[i] else JObj([])
    case None => JObj([])
  }

  /** The current open interest: numbers, booleans and numeric strings are
      converted, any other value (including a missing one) reads as 0.
      `None` stands for the exception raised by a non-dict context or an
      unparseable string. */
  function CurrentOi(cur: Json): (r: Option<real>)
    ensures !cur.JObj? ==> r.None?
    ensures cur.JObj? && Get(cur, "openInterest") == JNull ==> r == Some(0.0)
    ensures cur.JObj? && Get(cur, "openInterest").JNum? ==> r == Some(Get(cur, "openInterest").n)
    ensures cur.JObj? && Get(cur, "openInterest").JBool? ==> r == Some(if Get(cur, "openInterest").b then 1.0 else 0.0)
    ensures cur.JObj? && Get(cur, "openInterest").JStr? ==> r == ParseDecimal(Get(cur, "openInterest").s)
    ensures cur.JObj? && (Get(cur, "openInterest").JList? || Get(cur, "openInterest").JObj?) ==> r == Some(0.0)
  {
    if !cur.JObj? then None
    else
      var v := Get(cur, "openInterest");
      if v.JNum? || v.JBool? || v.JStr? then PyFloat(v) else Some(0.0)
  }

  datatype OiReport = OiReport(openInterest: real, delta: Option<real>)

  /** The context the call reads, or `None` when building the name map
      raises. */
  function CtxOf(uni: Json, ctxs: seq<Json>, coin: string): Option<Json> {
    match Universe(uni)
    case None => None
    case Some(universe) => if NamesHashable(universe) then Some(CtxFor(universe, ctxs, coin)) else None
  }

  /** One call: read the previous reading, compute the current one, store it
      for a minute and report the difference. `None` when the call raises,
      and then nothing is stored. */
  function OiTrend(c: TtlCache.Cache<real>, network: string, coin: string, uni: Json, ctxs: seq<Json>, now: int)
    : (r: Option<(OiReport, TtlCache.Cache<real>)>)
    ensures Universe(uni).None? ==> r.None?
    ensures Universe(uni).Some? && !NamesHashable(Universe(uni).value) ==> r.None?
    ensures r.Some? <==> CtxOf(uni, ctxs, coin).Some? && CurrentOi(CtxOf(uni, ctxs, coin).value).Some?
    ensures r.Some? ==> r.value.0.openInterest == CurrentOi(CtxOf(uni, ctxs, coin).value).value
    ensures r.Some? ==> r.value.1 == TtlCache.Set(c, OiKey(network, coin), r.value.0.openInterest, HistoryTtlMs, now)
    ensures r.Some? ==> (r.value.0.delta.Some? <==> TtlCache.Get(c, OiKey(network, coin), now).Some?)
    ensures r.Some? && r.value.0.delta.Some? ==>
      r.value.0.delta.value == r.value.0.openInterest - TtlCache.Get(c, OiKey(network, coin), now).value
  {
    var key := OiKey(network, coin);
    var prev := TtlCache.Get(c, key, now);
    match CtxOf(uni, ctxs, coin)
    case None => None
    case Some(ctx) =>
      match CurrentOi(ctx)
      case None => None
      case Some(cur) =>
        var delta := if prev.Some? then Some(cur - prev.value) else None;
        Some((OiReport(cur, delta), TtlCache.Set(c, key, cur, HistoryTtlMs, now)))
  }

  /** An explicit `null` universe raises before anything is stored, while a
      missing one reads as an empty universe and reports open interest 0. */
  lemma ExampleNullUniverseRaises()
    ensures OiTrend(map[], "mainnet", "BTC", JObj([("universe", JNull)]), [], 0).None?
    ensures OiTrend(map[], "mainnet", "BTC", JObj([]), [], 0).Some?
    ensures OiTrend(map[], "mainnet", "BTC", JObj([]), [], 0).value.0 == OiReport(0.0, None)
  {
    assert HasKey([("universe", JNull)], "universe") by {
      assert [("universe", JNull)][0].0 == "universe";
    }
    assert CtxOf(JObj([]), [], "BTC") == Some(JObj([]));
  }

  /** The first call for a coin has no earlier reading to compare with. */
  lemma FirstCallHasNoDelta(c: TtlCache.Cache<real>, network: string, coin: string, uni: Json, ctxs: seq<Json>, now: int)
    requires OiKey(network, coin) !in c
    requires OiTrend(c, network, coin, uni, ctxs, now).Some?
    ensures OiTrend(c, network, coin, uni, ctxs, now).value.0.delta.None?
  {
  }

  /** A call within a minute of the call that stored `prevOi` reports the
      change from that reading. */
  lemma NextCallReportsChange(c: TtlCache.Cache<real>, network: string, coin: string, prevOi: real,
                              uni: Json, ctxs: seq<Json>, t1: int, t2: int)
    requires t1 <= t2 <= t1 + HistoryTtlMs
    requires OiTrend(TtlCache.Set(c, OiKey(network, coin), prevOi, HistoryTtlMs, t1), network, coin, uni, ctxs, t2).Some?
    ensures var r := OiTrend(TtlCache.Set(c, OiKey(network, coin), prevOi, HistoryTtlMs, t1), network, coin, uni, ctxs, t2).value;
      r.0.delta == Some(r.0.openInterest - prevOi)
  {
    TtlCache.SetThenGet(c, OiKey(network, coin), prevOi, HistoryTtlMs, t1, t2);
  }

  /** More than a minute later the stored reading has expired and no delta is reported. */
  lemma StaleReadingGivesNoDelta(c: TtlCache.Cache<real>, network: string, coin: string, prevOi: real,
                                 uni: Json, ctxs: seq<Json>, t1: int, t2: int)
    requires t2 > t1 + HistoryTtlMs
    requires OiTrend(TtlCache.Set(c, OiKey(network, coin), prevOi, HistoryTtlMs, t1), network, coin, uni, ctxs, t2).Some?
    ensures OiTrend(TtlCache.Set(c, OiKey(network, coin), prevOi, HistoryTtlMs, t1), network, coin, uni, ctxs, t2).value.0.delta.None?
  {
    TtlCache.SetThenGet(c, OiKey(network, coin), prevOi, HistoryTtlMs, t1, t2);
  }

  /** The worked example: open interest 1000, then 1050 ten seconds later. */
  lemma ExampleDelta()
    ensures var uni := JObj([("universe", JList([JObj([("name", JStr("BTC"))])]))]);
      var first := OiTrend(map[], "mainnet", "BTC", uni, [JObj([("openInterest", JNum(1000.0))])], 0);
      first.Some? &&
      var second := OiTrend(first.value.1, "mainnet", "BTC", uni, [JObj([("openInterest", JNum(1050.0))])], 10000);
      second.Some? && second.value.0.delta == Some(50.0)
  {
    var uni := JObj([("universe", JList([JObj([("name", JStr("BTC"))])]))]);
    var ctx1 := JObj([("openInterest", JNum(1000.0))]);
    var ctx2 := JObj([("openInterest", JNum(1050.0))]);
    var universe := [JObj([("name", JStr("BTC"))])];
    assert HasKey(uni.fields, "universe") by {
      assert uni.fields[0].0 == "universe";
    }
    assert Universe(uni) == Some(universe);
    assert !UnhashableName(universe[0]) by {
      assert Lookup(universe[0].fields, "name") == JStr("BTC");
    }
    assert IndexOf(universe, "BTC") == Some(0);
    assert CurrentOi(CtxOf(uni, [ctx1], "BTC").value) == Some(1000.0);
    assert CurrentOi(CtxOf(uni, [ctx2], "BTC").value) == Some(1050.0);
    NextCallReportsChange(map[], "mainnet", "BTC", 1000.0, uni, [ctx2], 0, 10000);
  }
}
