/** The pure helpers of the market-data router: keyword tests, the shape
    check of the `metaAndAssetCtxs` response, the top-20 order-book imbalance
    and the label used when the full market picture is unavailable. */
module MarketRouter {
  import opened Wrappers
  import opened Text
  import opened Json
  import Book
  import Signal

  /** `all(n in text.lower() for n in needles)`. */
  function ContainsAll(text: string, needles: seq<string>): (r: bool)
    ensures r <==> forall i :: 0 <= i < |needles| ==> Contains(Lower(text), needles[i])
    decreases |needles|
  {
    |needles| == 0 || (Contains(Lower(text), needles[0]) && ContainsAll(text, needles[1..]))
  }

  /** `any(n in text.lower() for n in needles)`. */
  function ContainsAny(text: string, needles: seq<string>): (r: bool)
    ensures r <==> exists i :: 0 <= i < |needles| && Contains(Lower(text), needles[i])
    decreases |needles|
  {
    |needles| > 0 && (Contains(Lower(text), needles[0]) || ContainsAny(text, needles[1..]))
  }

  /** Only the haystack is lower-cased: a needle holding a capital letter
      never matches, whatever the text. */
  lemma CapitalNeedleNeverFound(text: string, needle: string, k: nat)
    requires k < |needle| && IsAsciiUpper(needle[k])
    ensures !Contains(Lower(text), needle)
    ensures !ContainsAny(text, [needle])
  {
    forall i | 0 <= i <= |Lower(text)| - |needle|
      ensures !OccursAt(Lower(text), needle, i)
    {
      assert !IsAsciiUpper(Lower(text)[i + k]);
    }
  }

  /** An empty needle list is vacuously all found and never any found. */
  lemma EmptyNeedles(text: string)
    ensures ContainsAll(text, []) && !ContainsAny(text, [])
  {
  }

  /** `_load_universe_and_ctxs` once the response is in hand: `None` for each
      of its `RuntimeError`s, and for a non-dict response whose `.get` raises. */
  function LoadUniverseAndCtxs(resp: Json): (r: Option<(seq<Json>, seq<Json>)>)
    ensures r.Some? <==>
      && resp.JObj?
      && Get(resp, "data").JList? && |Get(resp, "data").items| == 2
      && Get(resp, "data").items[1].JList?
      && UniverseOf(Get(resp, "data").items[0]).JList?
    ensures r.Some? ==>
      && r.value.0 == UniverseOf(Get(resp, "data").items[0]).items
      && r.value.1 == Get(resp, "data").items[1].items
  {
    if !resp.JObj? then None
    else
      var data := Get(resp, "data");
      if !data.JList? || |data.items| != 2 then None
      else
        var universe := UniverseOf(data.items[0]);
        var ctxs := data.items[1];
        if !universe.JList? || !ctxs.JList? then None
        else Some((universe.items, ctxs.items))
  }

  /** `universe_obj.get("universe", [])` for a dict, `[]` otherwise: only a
      missing key defaults to the empty list; an explicit `null` does not. */
  function UniverseOf(obj: Json): (r: Json)
    ensures !obj.JObj? ==> r == JList([])
    ensures obj.JObj? && !HasKey(obj.fields, "universe") ==> r == JList([])
    ensures obj.JObj? && HasKey(obj.fields, "universe") ==> r == Lookup(obj.fields, "universe")
  {
    if obj.JObj? && HasKey(obj.fields, "universe") then Lookup(obj.fields, "universe") else JList([])
  }

  /** A universe entry that is explicitly `null` is rejected, while a
      missing one reads as an empty universe. */
  lemma ExampleNullUniverse()
    ensures LoadUniverseAndCtxs(JObj([("data", JList([JObj([("universe", JNull)]), JList([])]))])).None?
    ensures LoadUniverseAndCtxs(JObj([("data", JList([JObj([]), JList([])]))])) == Some(([], []))
  {
    var o := JObj([("universe", JNull)]);
    assert HasKey(o.fields, "universe") by {
      assert o.fields[0].0 == "universe";
    }
  }

  /** The number of levels per side `_orderbook_imbalance` looks at. */
  const ImbalanceDepth: nat := 20

  /** `_orderbook_imbalance`. */
  function OrderbookImbalance(bids: seq<Book.Level>, asks: seq<Book.Level>): (r: real)
    ensures Book.TopSize(bids, ImbalanceDepth) + Book.TopSize(asks, ImbalanceDepth) <= 0.0 ==> r == 0.0
    ensures Book.NonNegativeSizes(bids) && Book.NonNegativeSizes(asks) ==> -1.0 <= r <= 1.0
    ensures Book.TopSize(bids, ImbalanceDepth) + Book.TopSize(asks, ImbalanceDepth) > 0.0 ==>
      r * (Book.TopSize(bids, ImbalanceDepth) + Book.TopSize(asks, ImbalanceDepth))
        == Book.TopSize(bids, ImbalanceDepth) - Book.TopSize(asks, ImbalanceDepth)
  {
    var r := Book.Imbalance(bids, asks, ImbalanceDepth);
    assert Book.TopSize(bids, ImbalanceDepth) + Book.TopSize(asks, ImbalanceDepth) > 0.0 ==>
      r * (Book.TopSize(bids, ImbalanceDepth) + Book.TopSize(asks, ImbalanceDepth))
        == Book.TopSize(bids, ImbalanceDepth) - Book.TopSize(asks, ImbalanceDepth);
    r
  }

  /** Levels past the twentieth never change the imbalance. */
  lemma ImbalanceIgnoresDeepLevels(bids: seq<Book.Level>, asks: seq<Book.Level>,
                                   moreBids: seq<Book.Level>, moreAsks: seq<Book.Level>)
    requires |bids| >= ImbalanceDepth && |asks| >= ImbalanceDepth
    ensures OrderbookImbalance(bids + moreBids, asks + moreAsks) == OrderbookImbalance(bids, asks)
  {
    assert (bids + moreBids)[..ImbalanceDepth] == bids[..ImbalanceDepth];
    assert (asks + moreAsks)[..ImbalanceDepth] == asks[..ImbalanceDepth];
  }

  /** The label of the fallback line, at a fixed threshold of 0.1. */
  function FallbackLabel(imb: real): (l: Signal.Label)
    ensures l == Signal.Buy <==> imb > 0.1
    ensures l == Signal.Sell <==> imb < -0.1
    ensures l == Signal.Neutral <==> -0.1 <= imb <= 0.1
  {
    Signal.LabelOf(imb, 0.1)
  }
}
