/** `fetch_orderbook_snapshot`: choose a book message among what the channel
    variants delivered, then normalise it into `(price, size)` rows. The
    subscriptions themselves are inputs: one batch per channel variant, in
    the order `l2Book`, `book`, `l2book`, with `None` for a variant whose
    collection raised. */
module Snapshot {
  import opened Wrappers
  import opened Seqs
  import opened Json

  /** A message whose `data` is a dict with list-valued `bids` and `asks`. */
  predicate LooksLikeBook(m: Json) {
    m.JObj? && var c := Get(m, "data"); c.JObj? && Get(c, "bids").JList? && Get(c, "asks").JList?
  }

  /** The index a reversed scan for `p` stops at: the last matching message. */
  function LastWhere(msgs: seq<Json>, p: Json -> bool): (r: Option<nat>)
    ensures r.None? <==> forall i :: 0 <= i < |msgs| ==> !p(msgs[i])
    ensures r.Some? ==> r.value < |msgs| && p(msgs[r.value])
    ensures r.Some? ==> forall i :: r.value < i < |msgs| ==> !p(msgs[i])
    decreases |msgs|
  {
    if |msgs| == 0 then None
    else if p(msgs[|msgs| - 1]) then Some(|msgs| - 1)
    else
      var r := LastWhere(msgs[..|msgs| - 1], p);
      assert forall i :: 0 <= i < |msgs| - 1 ==> msgs[..|msgs| - 1][i] == msgs[i];
      r
  }

  /** The variant loop, with `msgs` the batch of the last variant that did
      not raise: the first variant holding a message satisfying `p` wins with
      its newest such message; otherwise the newest message of `msgs`, or
      `{}` when there is none. */
  function SelectFrom(batches: seq<Option<seq<Json>>>, msgs: seq<Json>, p: Json -> bool): (r: Json)
    ensures r == JObj([]) || r in msgs || Among(batches, r)
    decreases |batches|
  {
    if |batches| == 0 then (if |msgs| > 0 then msgs[|msgs| - 1] else JObj([]))
    else match batches[0]
      case None => SelectFrom(batches[1..], msgs, p)
      case Some(ms) =>
        match LastWhere(ms, p)
        case Some(i) => ms[i]
        case None => SelectFrom(batches[1..], ms, p)
  }

  /** Whether `m` is one of the messages some variant delivered. */
  predicate Among(batches: seq<Option<seq<Json>>>, m: Json) {
    exists b :: 0 <= b < |batches| && batches[b].Some? && m in batches[b].value
  }

  function SelectBook(batches: seq<Option<seq<Json>>>): (r: Json)
    ensures r == JObj([]) || Among(batches, r)
  {
    SelectFrom(batches, [], LooksLikeBook)
  }

  /** Whether batch `b` delivered a message satisfying `p`. */
  predicate Delivered(batches: seq<Option<seq<Json>>>, b: int, p: Json -> bool)
    requires 0 <= b < |batches|
  {
    batches[b].Some? && exists i :: 0 <= i < |batches[b].value| && p(batches[b].value[i])
  }

  lemma DeliveredShift(batches: seq<Option<seq<Json>>>, p: Json -> bool)
    requires |batches| > 0
    ensures forall j :: 0 <= j < |batches| - 1 ==> (Delivered(batches[1..], j, p) <==> Delivered(batches, j + 1, p))
  {
    forall j | 0 <= j < |batches| - 1
      ensures Delivered(batches[1..], j, p) <==> Delivered(batches, j + 1, p)
    {
      assert batches[1..][j] == batches[j + 1];
    }
  }

  /** The chosen message comes from the first variant that delivered a
      match, and is the newest match of that variant. */
  lemma {:induction false} SelectFirstMatch(batches: seq<Option<seq<Json>>>, msgs: seq<Json>, p: Json -> bool, b: nat)
    requires b < |batches| && Delivered(batches, b, p)
    requires forall j :: 0 <= j < b ==> !Delivered(batches, j, p)
    ensures LastWhere(batches[b].value, p).Some?
    ensures SelectFrom(batches, msgs, p) == batches[b].value[LastWhere(batches[b].value, p).value]
    decreases b
  {
    if b > 0 {
      assert !Delivered(batches, 0, p);
      DeliveredShift(batches, p);
      var next := if batches[0].Some? then batches[0].value else msgs;
      SelectFirstMatch(batches[1..], next, p, b - 1);
    }
  }

  /** Whether some variant delivered a match, and if so the first such. */
  lemma {:induction false} SelectMatchIff(batches: seq<Option<seq<Json>>>, msgs: seq<Json>, p: Json -> bool)
    requires !p(JObj([]))
    requires forall i :: 0 <= i < |msgs| ==> !p(msgs[i])
    ensures p(SelectFrom(batches, msgs, p)) <==> exists b :: 0 <= b < |batches| && Delivered(batches, b, p)
    decreases |batches|
  {
    if |batches| > 0 {
      DeliveredShift(batches, p);
      if Delivered(batches, 0, p) {
        SelectFirstMatch(batches, msgs, p, 0);
      } else {
        var next := if batches[0].Some? then batches[0].value else msgs;
        SelectMatchIff(batches[1..], next, p);
        if exists b :: 0 <= b < |batches| && Delivered(batches, b, p) {
          var b :| 0 <= b < |batches| && Delivered(batches, b, p);
          assert Delivered(batches[1..], b - 1, p);
        }
      }
    }
  }

  /** The snapshot holds a book-like message exactly when some variant
      delivered one. */
  lemma SelectBookIsBookIff(batches: seq<Option<seq<Json>>>)
    ensures LooksLikeBook(SelectBook(batches)) <==> exists b :: 0 <= b < |batches| && Delivered(batches, b, LooksLikeBook)
  {
    assert !LooksLikeBook(JObj([]));
    SelectMatchIff(batches, [], LooksLikeBook);
  }

  /** With no match anywhere, and no variant that raised after variant `j`,
      the fallback is the newest message of variant `j`. */
  lemma {:induction false} SelectFallback(batches: seq<Option<seq<Json>>>, msgs: seq<Json>, p: Json -> bool, j: nat)
    requires j < |batches| && batches[j].Some? && |batches[j].value| > 0
    requires forall k :: j < k < |batches| ==> batches[k].None?
    requires forall k :: 0 <= k <= j ==> !Delivered(batches, k, p)
    ensures SelectFrom(batches, msgs, p) == batches[j].value[|batches[j].value| - 1]
    decreases |batches|
  {
    assert batches[0].Some? ==> !Delivered(batches, 0, p);
    var next := if batches[0].Some? then batches[0].value else msgs;
    if j > 0 {
      DeliveredShift(batches, p);
      assert batches[1..][j - 1] == batches[j];
      assert forall k :: j - 1 < k < |batches| - 1 ==> batches[1..][k] == batches[k + 1];
      SelectFallback(batches[1..], next, p, j - 1);
    } else {
      SelectNoneRaised(batches[1..], next, p);
    }
  }

  /** When every remaining variant raised, the loop keeps the batch it had. */
  lemma {:induction false} SelectNoneRaised(batches: seq<Option<seq<Json>>>, msgs: seq<Json>, p: Json -> bool)
    requires forall k :: 0 <= k < |batches| ==> batches[k].None?
    ensures SelectFrom(batches, msgs, p) == (if |msgs| > 0 then msgs[|msgs| - 1] else JObj([]))
    decreases |batches|
  {
    if |batches| > 0 {
      assert batches[0].None?;
      assert forall k :: 0 <= k < |batches| - 1 ==> batches[1..][k] == batches[k + 1];
      SelectNoneRaised(batches[1..], msgs, p);
    }
  }

  /** One row: a list of at least two entries whose first two convert with `float()`. */
  function RowOf(row: Json): (r: Option<(real, real)>)
    ensures r.Some? <==> (row.JList? && |row.items| >= 2
      && PyFloat(row.items[0]).Some? && PyFloat(row.items[1]).Some?)
    ensures r.Some? ==> r.value == (PyFloat(row.items[0]).value, PyFloat(row.items[1]).value)
  {
    if row.JList? && |row.items| >= 2 then
      match (PyFloat(row.items[0]), PyFloat(row.items[1]))
      case (Some(px), Some(sz)) => Some((px, sz))
      case _ => None
    else None
  }

  /** The rows loop: malformed rows are skipped, the others kept in order. */
  function Rows(rows: seq<Json>): seq<(real, real)> {
    FilterMap(rows, RowOf)
  }

  datatype Levels = Levels(bids: seq<(real, real)>, asks: seq<(real, real)>)

  /** `ob.get("data") or ob`, then both sides must be lists; each side is cut
      to `depth` entries (Python slicing, so a negative depth drops from the
      end) before the rows are read. */
  function Normalise(ob: Json, depth: int): (r: Levels)
    ensures var book := if ob.JObj? then Or(Get(ob, "data"), ob) else JNull;
      var b := Get(book, "bids");
      var a := Get(book, "asks");
      && (b.JList? && a.JList? ==> r == Levels(Rows(PyTake(b.items, depth)), Rows(PyTake(a.items, depth))))
      && (!(b.JList? && a.JList?) ==> r == Levels([], []))
    ensures depth >= 0 ==> |r.bids| <= depth && |r.asks| <= depth
  {
    if !ob.JObj? then Levels([], [])
    else
      var book := Or(Get(ob, "data"), ob);
      var b := Get(book, "bids");
      var a := Get(book, "asks");
      if b.JList? && a.JList? then Levels(Rows(PyTake(b.items, depth)), Rows(PyTake(a.items, depth)))
      else Levels([], [])
  }

  /** `fetch_orderbook_snapshot` from the collected batches: at most `depth`
      rows a side, and no rows at all when no variant delivered a message. */
  function Snapshot(batches: seq<Option<seq<Json>>>, depth: int): (r: Levels)
    ensures depth >= 0 ==> |r.bids| <= depth && |r.asks| <= depth
    ensures !Among(batches, SelectBook(batches)) ==> r == Levels([], [])
    ensures (forall b :: 0 <= b < |batches| ==> batches[b].None? || batches[b].value == []) ==> r == Levels([], [])
  {
    Normalise(SelectBook(batches), depth)
  }

  /** When some variant delivered a book message, the snapshot reads both
      sides from the `data` of the first such variant's newest book message,
      cut to `depth` rows. */
  lemma SnapshotOfFirstBook(batches: seq<Option<seq<Json>>>, depth: int, b: nat)
    requires b < |batches| && Delivered(batches, b, LooksLikeBook)
    requires forall j :: 0 <= j < b ==> !Delivered(batches, j, LooksLikeBook)
    ensures LastWhere(batches[b].value, LooksLikeBook).Some?
    ensures var m := batches[b].value[LastWhere(batches[b].value, LooksLikeBook).value];
      var data := Get(m, "data");
      Snapshot(batches, depth)
        == Levels(Rows(PyTake(Get(data, "bids").items, depth)), Rows(PyTake(Get(data, "asks").items, depth)))
  {
    SelectFirstMatch(batches, [], LooksLikeBook, b);
    NormaliseBook(batches[b].value[LastWhere(batches[b].value, LooksLikeBook).value], depth);
  }

  /** A book message is normalised from its `data`, never from its top level. */
  lemma NormaliseBook(m: Json, depth: int)
    requires LooksLikeBook(m)
    ensures var data := Get(m, "data");
      Normalise(m, depth)
        == Levels(Rows(PyTake(Get(data, "bids").items, depth)), Rows(PyTake(Get(data, "asks").items, depth)))
  {
    var data := Get(m, "data");
    assert Get(data, "bids") != JNull;
    assert Or(data, m) == data;
  }

  /** The wire form of a side: one `[px, sz]` list per level. */
  function Encode(levels: seq<(real, real)>): (r: seq<Json>)
    ensures |r| == |levels|
    ensures forall i :: 0 <= i < |r| ==> r[i] == JList([JNum(levels[i].0), JNum(levels[i].1)])
  {
    seq(|levels|, i requires 0 <= i < |levels| => JList([JNum(levels[i].0), JNum(levels[i].1)]))
  }

  lemma {:induction false} RowsEncode(levels: seq<(real, real)>)
    ensures Rows(Encode(levels)) == levels
    decreases |levels|
  {
    if |levels| > 0 {
      var n := |levels| - 1;
      assert Encode(levels) == Encode(levels[..n]) + [Encode(levels)[n]];
      FilterMapAppend(Encode(levels[..n]), [Encode(levels)[n]], RowOf);
      FilterMapOne(Encode(levels)[n], RowOf);
      RowsEncode(levels[..n]);
      assert levels == levels[..n] + [levels[n]];
    }
  }

  lemma EncodeTake(levels: seq<(real, real)>, depth: nat)
    ensures PyTake(Encode(levels), depth) == Encode(PyTake(levels, depth))
  {
  }

  /** Round trip: a snapshot message carrying encoded sides normalises back
      to the first `depth` levels of each side, in the order they were sent. */
  lemma NormaliseEncoded(bids: seq<(real, real)>, asks: seq<(real, real)>, depth: nat)
    ensures var data := JObj([("bids", JList(Encode(bids))), ("asks", JList(Encode(asks)))]);
      Normalise(JObj([("channel", JStr("l2Book")), ("data", data)]), depth)
        == Levels(PyTake(bids, depth), PyTake(asks, depth))
  {
    var data := JObj([("bids", JList(Encode(bids))), ("asks", JList(Encode(asks)))]);
    var ob := JObj([("channel", JStr("l2Book")), ("data", data)]);
    assert Get(ob, "data") == data;
    assert Truthy(data);
    assert data.fields[..1] == [("bids", JList(Encode(bids)))];
    assert Lookup(data.fields, "bids") == Lookup(data.fields[..1], "bids");
    assert Get(data, "bids") == JList(Encode(bids));
    assert Get(data, "asks") == JList(Encode(asks));
    EncodeTake(bids, depth);
    EncodeTake(asks, depth);
    RowsEncode(PyTake(bids, depth));
    RowsEncode(PyTake(asks, depth));
  }

  /** Rows are kept in the order they arrive: an unsorted side stays
      unsorted, and a malformed row is skipped without disturbing the rest. */
  lemma ExampleUnsortedKept()
    ensures Rows([JList([JNum(99.0), JNum(1.0)]), JNull, JList([JNum(100.0), JNum(2.0)])])
      == [(99.0, 1.0), (100.0, 2.0)]
  {
    var a := JList([JNum(99.0), JNum(1.0)]);
    var c := JList([JNum(100.0), JNum(2.0)]);
    FilterMapAppend([a], [JNull], RowOf);
    FilterMapAppend([a, JNull], [c], RowOf);
    FilterMapOne(a, RowOf);
    FilterMapOne(JNull, RowOf);
    FilterMapOne(c, RowOf);
    assert [a, JNull, c] == [a, JNull] + [c];
    assert [a, JNull] == [a] + [JNull];
  }
}
