/** The shared WebSocket session, with the socket, the event-loop thread and
    the clock taken away: endpoint selection, the canonical subscription key,
    the routing of one incoming message into the per-subscription queues,
    and the FIFO drain of `collect`. */
module WsSession {
  import opened Wrappers
  import opened Seqs
  import opened Text
  import opened Json

  /** Which endpoint `_select_ws_base` picks; the URLs themselves and their
      environment overrides are configuration. */
  datatype Endpoint = Mainnet | Testnet

  /** `(network or "mainnet").strip().lower()`. */
  function NormaliseNetwork(network: string): string {
    Lower(Strip(if |network| == 0 then "mainnet" else network))
  }

  function SelectWsBase(network: string): (e: Endpoint)
    ensures e == Testnet <==> NormaliseNetwork(network) in {"testnet", "test"}
  {
    if NormaliseNetwork(network) in {"testnet", "test"} then Testnet else Mainnet
  }

  /** An empty network name means mainnet. */
  lemma EmptyNetworkIsMainnet()
    ensures SelectWsBase("") == Mainnet
  {
    assert Strip("mainnet") == "mainnet" by {
      StripOfStripped("mainnet", Whitespace);
    }
  }

  /** Upper-casing the network name never changes the endpoint. */
  lemma SelectIgnoresCase(network: string)
    ensures SelectWsBase(Upper(network)) == SelectWsBase(network)
  {
    if |network| > 0 {
      StripCommutesWithUpper(network);
      LowerOfUpper(Strip(network));
    }
  }

  lemma LowerOfUpper(s: string)
    ensures Lower(Upper(s)) == Lower(s)
  {
  }

  /** Case mapping never turns a character into whitespace or back. */
  lemma UpperKeepsWhitespace(c: char)
    ensures UpperChar(c) in Whitespace <==> c in Whitespace
  {
  }

  lemma {:induction false} LStripUpper(s: string)
    ensures LStrip(Upper(s), Whitespace) == Upper(LStrip(s, Whitespace))
    decreases |s|
  {
    if |s| > 0 {
      UpperKeepsWhitespace(s[0]);
      assert Upper(s)[1..] == Upper(s[1..]);
      LStripUpper(s[1..]);
    }
  }

  lemma {:induction false} RStripUpper(s: string)
    ensures RStrip(Upper(s), Whitespace) == Upper(RStrip(s, Whitespace))
    decreases |s|
  {
    if |s| > 0 {
      UpperKeepsWhitespace(s[|s| - 1]);
      assert Upper(s)[..|s| - 1] == Upper(s[..|s| - 1]);
      RStripUpper(s[..|s| - 1]);
    }
  }

  lemma StripCommutesWithUpper(s: string)
    ensures Strip(Upper(s)) == Upper(Strip(s))
  {
    LStripUpper(s);
    RStripUpper(LStrip(s, Whitespace));
  }

  /** The sorted-keys serialisation of a subscription, kept as a value: an
      object becomes the map from each key to its last binding, so field
      order cannot matter, and nested values are canonical in turn. */
  datatype Key =
    | KNull
    | KBool(b: bool)
    | KNum(n: real)
    | KStr(s: string)
    | KList(items: seq<Key>)
    | KObj(fields: map<string, Key>)

  /** `SharedSession._key`. */
  function KeyOf(j: Json): Key
    decreases j, 1
  {
    match j
    case JNull => KNull
    case JBool(b) => KBool(b)
    case JNum(n) => KNum(n)
    case JStr(s) => KStr(s)
    case JList(items) => KList(seq(|items|, i requires 0 <= i < |items| => KeyOf(items[i])))
    case JObj(_) => KObj(ToMap(CanonFields(j)))
  }

  /** The fields of an object with each value made canonical. */
  function CanonFields(j: Json): (r: seq<(string, Key)>)
    requires j.JObj?
    ensures |r| == |j.fields|
    ensures forall i :: 0 <= i < |r| ==> r[i] == (j.fields[i].0, KeyOf(j.fields[i].1))
    decreases j, 0
  {
    seq(|j.fields|, i requires 0 <= i < |j.fields| => (j.fields[i].0, KeyOf(j.fields[i].1)))
  }

  /** Bindings read left to right; a later binding of a key replaces an earlier one. */
  function ToMap(kvs: seq<(string, Key)>): map<string, Key>
    decreases |kvs|
  {
    if |kvs| == 0 then map[] else ToMap(kvs[..|kvs| - 1])[kvs[|kvs| - 1].0 := kvs[|kvs| - 1].1]
  }

  /** The map holds exactly the object's keys, each with the canonical form
      of the value `get` returns for it. */
  lemma {:induction false} ToMapAt(fields: seq<(string, Json)>, kvs: seq<(string, Key)>, k: string)
    requires |kvs| == |fields|
    requires forall i :: 0 <= i < |kvs| ==> kvs[i] == (fields[i].0, KeyOf(fields[i].1))
    ensures k in ToMap(kvs) <==> HasKey(fields, k)
    ensures k in ToMap(kvs) ==> ToMap(kvs)[k] == KeyOf(Lookup(fields, k))
    decreases |kvs|
  {
    if |kvs| > 0 {
      var n := |kvs| - 1;
      var pre := fields[..n];
      ToMapAt(pre, kvs[..n], k);
      if HasKey(pre, k) {
        var i :| 0 <= i < |pre| && pre[i].0 == k;
        assert fields[i].0 == k;
      }
      if HasKey(fields, k) && k != fields[n].0 {
        var i :| 0 <= i < |fields| && fields[i].0 == k;
        assert pre[i].0 == k;
      }
    }
  }

  /** The key depends only on the object's key/value pairs, not on the order
      in which they were inserted. */
  lemma KeyIgnoresFieldOrder(f1: seq<(string, Json)>, f2: seq<(string, Json)>)
    requires forall k :: HasKey(f1, k) <==> HasKey(f2, k)
    requires forall k :: Lookup(f1, k) == Lookup(f2, k)
    ensures KeyOf(JObj(f1)) == KeyOf(JObj(f2))
  {
    var m1 := ToMap(CanonFields(JObj(f1)));
    var m2 := ToMap(CanonFields(JObj(f2)));
    forall k
      ensures k in m1 <==> k in m2
      ensures k in m1 ==> m1[k] == m2[k]
    {
      ToMapAt(f1, CanonFields(JObj(f1)), k);
      ToMapAt(f2, CanonFields(JObj(f2)), k);
    }
    assert m1 == m2;
  }

  /** Conversely, objects that share a key agree on their key set and on the
      canonical form of every value. */
  lemma SameKeySameFields(f1: seq<(string, Json)>, f2: seq<(string, Json)>)
    requires KeyOf(JObj(f1)) == KeyOf(JObj(f2))
    ensures forall k :: HasKey(f1, k) <==> HasKey(f2, k)
    ensures forall k :: HasKey(f1, k) ==> KeyOf(Lookup(f1, k)) == KeyOf(Lookup(f2, k))
  {
    var m := ToMap(CanonFields(JObj(f1)));
    assert m == ToMap(CanonFields(JObj(f2)));
    forall k
      ensures HasKey(f1, k) <==> HasKey(f2, k)
      ensures HasKey(f1, k) ==> KeyOf(Lookup(f1, k)) == KeyOf(Lookup(f2, k))
    {
      ToMapAt(f1, CanonFields(JObj(f1)), k);
      ToMapAt(f2, CanonFields(JObj(f2)), k);
    }
  }

  /** `{"type": "l2Book", "coin": "BTC"}` and the same pairs in the other
      order name the same queue. */
  lemma ExampleKeyOrder()
    ensures KeyOf(JObj([("type", JStr("l2Book")), ("coin", JStr("BTC"))]))
         == KeyOf(JObj([("coin", JStr("BTC")), ("type", JStr("l2Book"))]))
  {
    var f1 := [("type", JStr("l2Book")), ("coin", JStr("BTC"))];
    var f2 := [("coin", JStr("BTC")), ("type", JStr("l2Book"))];
    forall k
      ensures HasKey(f1, k) <==> HasKey(f2, k)
    {
      if HasKey(f1, k) {
        assert f2[0].0 == k || f2[1].0 == k;
      }
      if HasKey(f2, k) {
        assert f1[0].0 == k || f1[1].0 == k;
      }
    }
    KeyIgnoresFieldOrder(f1, f2);
  }

  /** `deque(maxlen=200)`. */
  const QueueCap: nat := 200

  type Queues = map<Key, seq<Json>>

  predicate Bounded(qs: Queues) {
    forall k :: k in qs ==> |qs[k]| <= QueueCap
  }

  /** `append` on a bounded deque: a full queue drops its oldest element. */
  function Push(q: seq<Json>, m: Json): (r: seq<Json>)
    requires |q| <= QueueCap
    ensures |r| <= QueueCap
    ensures r == PyDrop(q + [m], -(QueueCap as int))
  {
    if |q| < QueueCap then q + [m] else q[1..] + [m]
  }

  /** Appending to a full queue evicts exactly the oldest element and keeps
      the rest in order; appending to any other queue only adds. */
  lemma PushEvictsOldest(q: seq<Json>, m: Json)
    requires |q| <= QueueCap
    ensures |q| < QueueCap ==> Push(q, m) == q + [m]
    ensures |q| == QueueCap ==> Push(q, m) == q[1..] + [m] && |Push(q, m)| == QueueCap
  {
  }

  /** `data.get("subscription") or data.get("channel") or data.get("type")`. */
  function SubOf(data: Json): Json {
    Or(Or(Get(data, "subscription"), Get(data, "channel")), Get(data, "type"))
  }

  /** The queue of a key, empty when it has never been touched (`defaultdict`). */
  function QueueOf(qs: Queues, k: Key): seq<Json> {
    if k in qs then qs[k] else []
  }

  /** The routing step of `_reader` for one decoded message. */
  function Route(qs: Queues, data: Json): (r: Queues)
    requires Bounded(qs)
    ensures Bounded(r)
    ensures !data.JObj? ==> r == qs
    ensures data.JObj? && SubOf(data).JObj? ==>
      var k := KeyOf(SubOf(data));
      && r.Keys == qs.Keys + {k}
      && r[k] == Push(QueueOf(qs, k), data)
      && forall k' :: k' in qs && k' != k ==> r[k'] == qs[k']
    ensures data.JObj? && !SubOf(data).JObj? ==>
      && r.Keys == qs.Keys
      && forall k :: k in qs ==> r[k] == Push(qs[k], data)
  {
    if !data.JObj? then qs
    else
      var sub := SubOf(data);
      if sub.JObj? then
        var k := KeyOf(sub);
        qs[k := Push(QueueOf(qs, k), data)]
      else
        map k | k in qs :: Push(qs[k], data)
  }

  /** A broadcast never creates a queue, so a message without a dict
      subscription is lost when nothing has been collected yet. */
  lemma BroadcastToNoQueues(data: Json)
    requires data.JObj? && !SubOf(data).JObj?
    ensures Route(map[], data) == map[]
  {
  }

  function Min(a: int, b: int): int {
    if a <= b then a else b
  }

  /** `collect` after the subscribe step: `polls` is how many turns of the
      loop fit before the deadline; each turn takes the oldest message of the
      key's queue, or sleeps when it is empty. The first turn creates the
      queue if it does not exist yet. */
  method Collect(qs: Queues, key: Key, maxMessages: int, polls: nat) returns (out: seq<Json>, qs2: Queues)
    ensures maxMessages <= 0 || polls == 0 ==> out == [] && qs2 == qs
    ensures maxMessages > 0 && polls > 0 ==>
      && qs2.Keys == qs.Keys + {key}
      && |out| == Min(Min(maxMessages, polls), |QueueOf(qs, key)|)
      && out + qs2[key] == QueueOf(qs, key)
    ensures forall k :: k in qs && k != key ==> k in qs2 && qs2[k] == qs[k]
  {
    out := [];
    qs2 := qs;
    if maxMessages <= 0 || polls == 0 {
      return;
    }
    // the loop body runs at least once, and its first access creates the queue
    var q := QueueOf(qs, key);
    var left: nat := polls;
    while |out| < maxMessages && left > 0
      invariant left <= polls && |out| <= maxMessages
      invariant |out| == Min(polls - left, |QueueOf(qs, key)|)
      invariant out + q == QueueOf(qs, key)
    {
      if |q| > 0 {
        out := out + [q[0]];
        q := q[1..];
      }
      left := left - 1;
    }
    assert |out| == maxMessages || left == 0;
    qs2 := qs[key := q];
  }

  /** Draining never invents or reorders messages: what `collect` returns
      followed by what it leaves is the queue it found. */
  method CollectTwice(qs: Queues, key: Key, n1: int, n2: int, polls: nat) returns (out: seq<Json>)
    requires n1 > 0 && n2 > 0 && polls > 0
    ensures |out| <= |QueueOf(qs, key)| && out == QueueOf(qs, key)[..|out|]
    ensures |out| == Min(Min(n1, polls), |QueueOf(qs, key)|) + Min(Min(n2, polls), |QueueOf(qs, key)| - Min(Min(n1, polls), |QueueOf(qs, key)|))
  {
    var a, qs1 := Collect(qs, key, n1, polls);
    var b, qs2 := Collect(qs1, key, n2, polls);
    out := a + b;
    assert QueueOf(qs1, key) == qs1[key];
    assert a + b + qs2[key] == QueueOf(qs, key);
    assert (a + b) + qs2[key] == QueueOf(qs, key);
  }
}
