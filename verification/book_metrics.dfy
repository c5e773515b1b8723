/** A normalised order book and the metrics computed from its two sides:
    mid, spread, top-of-book sizes, top-N depth and the depth imbalance. */
module Book {
  import opened Wrappers

  /** One price level: `(price, size)`. */
  datatype Level = Level(px: real, sz: real)

  /** Bids and asks in the order the venue sent them (no re-sorting). */
  datatype OrderBook = OrderBook(bids: seq<Level>, asks: seq<Level>)

  /** Total size of a run of levels, summed left to right. */
  function SumSizes(levels: seq<Level>): real
    decreases |levels|
  {
    if |levels| == 0 then 0.0 else SumSizes(levels[..|levels| - 1]) + levels[|levels| - 1].sz
  }

  predicate NonNegativeSizes(levels: seq<Level>) {
    forall i :: 0 <= i < |levels| ==> levels[i].sz >= 0.0
  }

  lemma {:induction false} SumSizesNonNegative(levels: seq<Level>)
    requires NonNegativeSizes(levels)
    ensures SumSizes(levels) >= 0.0
    decreases |levels|
  {
    if |levels| > 0 {
      SumSizesNonNegative(levels[..|levels| - 1]);
    }
  }

  lemma {:induction false} SumSizesPrefixMonotone(levels: seq<Level>, i: nat, j: nat)
    requires i <= j <= |levels| && NonNegativeSizes(levels)
    ensures SumSizes(levels[..i]) <= SumSizes(levels[..j])
    decreases j - i
  {
    if i < j {
      assert levels[..j][..j - 1] == levels[..j - 1];
      SumSizesPrefixMonotone(levels, i, j - 1);
    }
  }

  /** `sum(sz for _, sz in levels[:n])`, and `0.0` for an empty side. */
  function TopSize(levels: seq<Level>, n: nat): real {
    SumSizes(levels[..if n <= |levels| then n else |levels|])
  }

  /** `(bid - ask) / (bid + ask)` over the first `n` levels of each side, and
      `0` when that total is not positive. */
  function Imbalance(bids: seq<Level>, asks: seq<Level>, n: nat): (r: real)
    ensures TopSize(bids, n) + TopSize(asks, n) <= 0.0 ==> r == 0.0
    ensures TopSize(bids, n) + TopSize(asks, n) > 0.0 ==>
      r * (TopSize(bids, n) + TopSize(asks, n)) == TopSize(bids, n) - TopSize(asks, n)
    ensures NonNegativeSizes(bids) && NonNegativeSizes(asks) ==> -1.0 <= r <= 1.0
  {
    var b := TopSize(bids, n);
    var a := TopSize(asks, n);
    var total := b + a;
    if total > 0.0 then
      ImbalanceBounded(bids, asks, n);
      (b - a) / total
    else 0.0
  }

  lemma ImbalanceBounded(bids: seq<Level>, asks: seq<Level>, n: nat)
    requires TopSize(bids, n) + TopSize(asks, n) > 0.0
    ensures NonNegativeSizes(bids) && NonNegativeSizes(asks) ==>
      -1.0 <= (TopSize(bids, n) - TopSize(asks, n)) / (TopSize(bids, n) + TopSize(asks, n)) <= 1.0
  {
    if NonNegativeSizes(bids) && NonNegativeSizes(asks) {
      var nb := if n <= |bids| then n else |bids|;
      var na := if n <= |asks| then n else |asks|;
      SumSizesNonNegative(bids[..nb]);
      SumSizesNonNegative(asks[..na]);
    }
  }

  /** Swapping the two sides flips the sign of the imbalance. */
  lemma ImbalanceAntisymmetric(bids: seq<Level>, asks: seq<Level>, n: nat)
    ensures Imbalance(asks, bids, n) == -Imbalance(bids, asks, n)
  {
    var b, a := TopSize(bids, n), TopSize(asks, n);
    if b + a > 0.0 {
      assert (a - b) / (a + b) == -((b - a) / (b + a));
    }
  }
}

module BookMetrics {
  import opened Wrappers
  import opened Book

  /** Depth used for the top-N sizes and the imbalance. */
  const TopN: nat := 10

  /** Python truthiness of an optional float: present and non-zero. */
  predicate Truthy(x: Option<real>) {
    x.Some? && x.value != 0.0
  }

  /** Python's `a or b` on optional floats. */
  function OrElse(a: Option<real>, b: Option<real>): Option<real> {
    if Truthy(a) then a else b
  }

  function BestPrice(levels: seq<Level>): Option<real> {
    if |levels| > 0 then Some(levels[0].px) else None
  }

  datatype Metrics = Metrics(
    mid: Option<real>,
    spread: Option<real>,
    spreadBps: Option<real>,
    tobBid: real,
    tobAsk: real,
    bidTopN: real,
    askTopN: real,
    imbalance: real)

  /** The order-book metrics: the mid averages both best prices only when both
      are non-zero (a zero price counts as missing, as in Python), otherwise
      it is whichever best price is non-zero, falling back to the best ask. */
  function Compute(ob: OrderBook): (m: Metrics)
    ensures Truthy(BestPrice(ob.bids)) && Truthy(BestPrice(ob.asks)) ==>
      m.mid == Some((ob.bids[0].px + ob.asks[0].px) / 2.0) && m.spread == Some(ob.asks[0].px - ob.bids[0].px)
    ensures Truthy(BestPrice(ob.bids)) && !Truthy(BestPrice(ob.asks)) ==> m.mid == Some(ob.bids[0].px)
    ensures !Truthy(BestPrice(ob.bids)) ==> m.mid == BestPrice(ob.asks)
    ensures m.spread.Some? <==> Truthy(BestPrice(ob.bids)) && Truthy(BestPrice(ob.asks))
    ensures m.spreadBps.Some? <==> Truthy(m.spread) && Truthy(m.mid)
    ensures m.spreadBps.Some? ==> m.spreadBps.value == m.spread.value / m.mid.value * 10000.0
    ensures m.tobBid == (if |ob.bids| > 0 then ob.bids[0].sz else 0.0)
    ensures m.tobAsk == (if |ob.asks| > 0 then ob.asks[0].sz else 0.0)
    ensures m.bidTopN == TopSize(ob.bids, TopN) && m.askTopN == TopSize(ob.asks, TopN)
    ensures m.imbalance == Imbalance(ob.bids, ob.asks, TopN)
  {
    var bb := BestPrice(ob.bids);
    var ba := BestPrice(ob.asks);
    var mid := if Truthy(bb) && Truthy(ba) then Some((bb.value + ba.value) / 2.0) else OrElse(bb, ba);
    var spread := if Truthy(ba) && Truthy(bb) then Some(ba.value - bb.value) else None;
    var bps := if Truthy(spread) && Truthy(mid) then Some(spread.value / mid.value * 10000.0) else None;
    Metrics(
      mid, spread, bps,
      if |ob.bids| > 0 then ob.bids[0].sz else 0.0,
      if |ob.asks| > 0 then ob.asks[0].sz else 0.0,
      TopSize(ob.bids, TopN), TopSize(ob.asks, TopN),
      Imbalance(ob.bids, ob.asks, TopN))
  }

  /** On an uncrossed book with positive best prices the mid lies between the
      best bid and the best ask and the spread is non-negative. */
  lemma MidWithinTouch(ob: OrderBook)
    requires |ob.bids| > 0 && |ob.asks| > 0
    requires 0.0 < ob.bids[0].px <= ob.asks[0].px
    ensures Compute(ob).mid.Some? && ob.bids[0].px <= Compute(ob).mid.value <= ob.asks[0].px
    ensures Compute(ob).spread.Some? && Compute(ob).spread.value >= 0.0
  {
  }

  /** The worked example: bids (100,2),(99,5), asks (101,3),(102,4). */
  lemma ExampleBook()
    ensures var m := Compute(OrderBook([Level(100.0, 2.0), Level(99.0, 5.0)], [Level(101.0, 3.0), Level(102.0, 4.0)]));
      m.mid == Some(100.5) && m.spread == Some(1.0) && m.bidTopN == 7.0 && m.askTopN == 7.0 && m.imbalance == 0.0
  {
    var bids := [Level(100.0, 2.0), Level(99.0, 5.0)];
    var asks := [Level(101.0, 3.0), Level(102.0, 4.0)];
    assert bids[..2] == bids && asks[..2] == asks;
    assert bids[..1] == [Level(100.0, 2.0)] && asks[..1] == [Level(101.0, 3.0)];
    assert [Level(100.0, 2.0)][..0] == [] && [Level(101.0, 3.0)][..0] == [];
    assert SumSizes(bids[..1]) == 2.0 && SumSizes(asks[..1]) == 3.0;
    assert SumSizes(bids) == 7.0 && SumSizes(asks) == 7.0;
  }
}
