/** Trade-stream analytics: reading `(price, size, side)` out of raw trade
    messages, VWAP, trade-count imbalance and VWAP drift against a mid. */
module TradeMetrics {
  import opened Wrappers
  import opened Json
  import opened Seqs

  datatype Side = BuySide | SellSide | UnknownSide

  /** One trade that had a parseable price and size. */
  datatype Fill = Fill(px: real, sz: real, side: Side)

  /** What one raw trade message contributes. `RowNotDict` is the case where
      `row.get` raises because the payload is not a dict. */
  datatype RowParse = RowNotDict | RowSkipped | RowParsed(fill: Fill)

  /** `row = (t.get("data") if t is a dict else None) or t`. */
  function TradeRow(t: Json): Json {
    Or(Get(t, "data"), t)
  }

  /** The payload is not a dict, so `row.get` raises. */
  predicate NotDict(t: Json) {
    !TradeRow(t).JObj?
  }

  function SideOf(j: Json): Side {
    if j == JStr("buy") || j == JStr("Buy") || j == JStr("b") then BuySide
    else if j == JStr("sell") || j == JStr("Sell") || j == JStr("s") then SellSide
    else UnknownSide
  }

  /** One iteration of the trades loop: `px`/`price` and `sz`/`size` aliases,
      `side`/`aggressor` alias, and a row skipped when `float()` fails. */
  function ParseRow(t: Json): (r: RowParse)
    ensures r.RowNotDict? <==> NotDict(t)
    ensures r.RowParsed? ==>
      && PyFloat(Or(Get(TradeRow(t), "px"), Get(TradeRow(t), "price"))) == Some(r.fill.px)
      && PyFloat(Or(Get(TradeRow(t), "sz"), Get(TradeRow(t), "size"))) == Some(r.fill.sz)
  {
    var row := TradeRow(t);
    if !row.JObj? then RowNotDict
    else
      var px := Or(Get(row, "px"), Get(row, "price"));
      var sz := Or(Get(row, "sz"), Get(row, "size"));
      var side := Or(Get(row, "side"), Get(row, "aggressor"));
      if px.JNull? || sz.JNull? then RowSkipped
      else match (PyFloat(px), PyFloat(sz))
        case (Some(p), Some(s)) => RowParsed(Fill(p, s, SideOf(side)))
        case _ => RowSkipped
  }

  /** The fills of a trade list in arrival order; `None` when some message has
      a non-dict payload, which makes the Python loop raise. */
  function Fills(trades: seq<Json>): (r: Option<seq<Fill>>)
    ensures r.Some? ==> |r.value| <= |trades|
    decreases |trades|
  {
    if |trades| == 0 then Some([])
    else
      var last := trades[|trades| - 1];
      match Fills(trades[..|trades| - 1])
      case None => None
      case Some(fs) =>
        match ParseRow(last)
        case RowNotDict => None
        case RowSkipped => Some(fs)
        case RowParsed(f) => Some(fs + [f])
  }

  /** The loop raises exactly when some message has a non-dict payload. */
  lemma FillsFailIff(trades: seq<Json>)
    ensures Fills(trades).None? <==> exists i :: 0 <= i < |trades| && NotDict(trades[i])
  {
    if Fills(trades).None? {
      FillsFailureHasCause(trades);
    }
    if exists i :: 0 <= i < |trades| && NotDict(trades[i]) {
      var i :| 0 <= i < |trades| && NotDict(trades[i]);
      NotDictFailsFills(trades, i);
    }
  }

  lemma {:induction false} NotDictFailsFills(trades: seq<Json>, i: nat)
    requires i < |trades| && NotDict(trades[i])
    ensures Fills(trades).None?
    decreases |trades|
  {
    FillsStep(trades);
    if i < |trades| - 1 {
      var pre := trades[..|trades| - 1];
      assert pre[i] == trades[i];
      NotDictFailsFills(pre, i);
    }
  }

  lemma {:induction false} FillsFailureHasCause(trades: seq<Json>)
    requires Fills(trades).None?
    ensures exists i :: 0 <= i < |trades| && NotDict(trades[i])
    decreases |trades|
  {
    assert |trades| > 0;
    FillsStep(trades);
    var pre := trades[..|trades| - 1];
    if Fills(pre).None? {
      FillsFailureHasCause(pre);
      var i :| 0 <= i < |pre| && NotDict(pre[i]);
      assert trades[i] == pre[i];
    } else {
      assert NotDict(trades[|trades| - 1]);
    }
  }

  lemma FillsStep(trades: seq<Json>)
    requires |trades| > 0
    ensures Fills(trades).None? <==> Fills(trades[..|trades| - 1]).None? || NotDict(trades[|trades| - 1])
  {
  }

  function Notional(fs: seq<Fill>): real
    decreases |fs|
  {
    if |fs| == 0 then 0.0 else Notional(fs[..|fs| - 1]) + fs[|fs| - 1].px * fs[|fs| - 1].sz
  }

  function Volume(fs: seq<Fill>): real
    decreases |fs|
  {
    if |fs| == 0 then 0.0 else Volume(fs[..|fs| - 1]) + fs[|fs| - 1].sz
  }

  function CountSide(fs: seq<Fill>, s: Side): (n: nat)
    ensures n <= |fs|
    decreases |fs|
  {
    if |fs| == 0 then 0 else CountSide(fs[..|fs| - 1], s) + (if fs[|fs| - 1].side == s then 1 else 0)
  }

  /** `notional / vol` when the parsed volume is positive. */
  function Vwap(fs: seq<Fill>): (r: Option<real>)
    ensures r.Some? <==> Volume(fs) > 0.0
  {
    if Volume(fs) > 0.0 then Some(Notional(fs) / Volume(fs)) else None
  }

  /** The notional of fills priced within `[lo, hi]` lies between `lo` and
      `hi` times their volume. */
  lemma {:induction false} NotionalBetween(fs: seq<Fill>, lo: real, hi: real)
    requires forall i :: 0 <= i < |fs| ==> lo <= fs[i].px <= hi && fs[i].sz >= 0.0
    ensures lo * Volume(fs) <= Notional(fs) <= hi * Volume(fs)
    decreases |fs|
  {
    if |fs| > 0 {
      var pre := fs[..|fs| - 1];
      var f := fs[|fs| - 1];
      NotionalBetween(pre, lo, hi);
      BetweenStep(Notional(pre), Volume(pre), f.px, f.sz, lo, hi);
    }
  }

  /** Adding one fill priced within `[lo, hi]` keeps the notional between
      `lo` and `hi` times the volume. */
  lemma BetweenStep(n: real, v: real, px: real, sz: real, lo: real, hi: real)
    requires lo * v <= n <= hi * v && lo <= px <= hi && sz >= 0.0
    ensures lo * (v + sz) <= n + px * sz <= hi * (v + sz)
  {
    ScaledBetween(lo, px, hi, sz);
    Distribute(lo, v, sz);
    Distribute(hi, v, sz);
  }

  lemma Distribute(k: real, a: real, b: real)
    ensures k * (a + b) == k * a + k * b
  {
  }

  lemma ScaledBetween(lo: real, x: real, hi: real, w: real)
    requires lo <= x <= hi && w >= 0.0
    ensures lo * w <= x * w <= hi * w
  {
    assert (x - lo) * w >= 0.0;
    assert (hi - x) * w >= 0.0;
  }

  /** With non-negative sizes the VWAP lies within the range of the traded prices. */
  lemma VwapWithinPriceRange(fs: seq<Fill>, lo: real, hi: real)
    requires forall i :: 0 <= i < |fs| ==> lo <= fs[i].px <= hi && fs[i].sz >= 0.0
    requires Vwap(fs).Some?
    ensures lo <= Vwap(fs).value <= hi
  {
    NotionalBetween(fs, lo, hi);
    var v := Volume(fs);
    var n := Notional(fs);
    assert n / v >= lo by {
      assert n >= lo * v;
    }
    assert n / v <= hi by {
      assert n <= hi * v;
    }
  }

  datatype TradeStats = TradeStats(vwap: Option<real>, tradeImbalance: real, vwapDrift: Option<real>, count: nat)

  function Truthy(x: Option<real>): bool {
    x.Some? && x.value != 0.0
  }

  /** Statistics of the parsed fills against a reference mid. */
  function Stats(fs: seq<Fill>, refMid: Option<real>): (r: TradeStats)
    ensures r.count == CountSide(fs, BuySide) + CountSide(fs, SellSide)
    ensures r.tradeImbalance == SideImbalance(CountSide(fs, BuySide), CountSide(fs, SellSide))
    ensures -1.0 <= r.tradeImbalance <= 1.0
    ensures r.vwap == Vwap(fs)
    ensures r.vwapDrift.Some? <==> Truthy(r.vwap) && Truthy(refMid)
    ensures r.vwapDrift.Some? ==> r.vwapDrift.value == RelativeChange(r.vwap.value, refMid.value)
  {
    var buys := CountSide(fs, BuySide);
    var sells := CountSide(fs, SellSide);
    var vwap := Vwap(fs);
    var drift := if Truthy(vwap) && Truthy(refMid) then Some(RelativeChange(vwap.value, refMid.value)) else None;
    TradeStats(vwap, SideImbalance(buys, sells), drift, buys + sells)
  }

  /** `(buys - sells) / max(buys + sells, 1)`. */
  function SideImbalance(buys: nat, sells: nat): (r: real)
    ensures -1.0 <= r <= 1.0
    ensures buys + sells == 0 ==> r == 0.0
    ensures buys + sells > 0 ==> r * (buys + sells) as real == (buys - sells) as real
  {
    var denom := if buys + sells > 1 then buys + sells else 1;
    DivBetween((buys - sells) as real, denom as real);
    (buys - sells) as real / denom as real
  }

  /** `(x - ref) / ref`. */
  function RelativeChange(x: real, ref: real): (r: real)
    requires ref != 0.0
    ensures r * ref == x - ref
  {
    (x - ref) / ref
  }

  lemma DivBetween(x: real, d: real)
    requires d > 0.0 && -d <= x <= d
    ensures -1.0 <= x / d <= 1.0
  {
  }

  /** `_compute_trades_metrics`; `None` when the Python function raises. */
  function Compute(trades: seq<Json>, refMid: Option<real>): (r: Option<TradeStats>)
    ensures r.None? <==> Fills(trades).None?
    ensures r.Some? ==> r.value == Stats(Fills(trades).value, refMid)
  {
    match Fills(trades)
    case None => None
    case Some(fs) => Some(Stats(fs, refMid))
  }

  /** A list with no trade that has both a price and a size yields no VWAP. */
  lemma NoFillsNoVwap(trades: seq<Json>, refMid: Option<real>)
    requires forall i :: 0 <= i < |trades| ==> ParseRow(trades[i]).RowSkipped?
    ensures Compute(trades, refMid) == Some(TradeStats(None, 0.0, None, 0))
    decreases |trades|
  {
    if |trades| > 0 {
      NoFillsNoVwap(trades[..|trades| - 1], refMid);
    }
  }
}

/** Price series from trades, simple moving averages and their cross, and the
    return series behind the realised-volatility figure. */
module Trend {
  import opened Wrappers
  import opened Json
  import opened Seqs
  import TradeMetrics

  /** The price of one trade message: `Some(None)` when there is no parseable
      price (the row is skipped), `None` when the payload is not a dict. */
  function PriceOf(t: Json): (r: Option<Option<real>>)
    ensures r.None? <==> TradeMetrics.NotDict(t)
  {
    var row := TradeMetrics.TradeRow(t);
    if !row.JObj? then None
    else Some(PyFloat(Or(Get(row, "px"), Get(row, "price"))))
  }

  /** The parsed prices in arrival order, or `None` when the loop raises. */
  function Prices(trades: seq<Json>): (r: Option<seq<real>>)
    ensures r.Some? ==> |r.value| <= |trades|
    decreases |trades|
  {
    if |trades| == 0 then Some([])
    else
      match Prices(trades[..|trades| - 1])
      case None => None
      case Some(ps) =>
        match PriceOf(trades[|trades| - 1])
        case None => None
        case Some(None) => Some(ps)
        case Some(Some(p)) => Some(ps + [p])
  }

  /** The loop raises exactly when some message has a non-dict payload. */
  lemma PricesFailIff(trades: seq<Json>)
    ensures Prices(trades).None? <==> exists i :: 0 <= i < |trades| && TradeMetrics.NotDict(trades[i])
  {
    if Prices(trades).None? {
      PricesFailureHasCause(trades);
    }
    if exists i :: 0 <= i < |trades| && TradeMetrics.NotDict(trades[i]) {
      var i :| 0 <= i < |trades| && TradeMetrics.NotDict(trades[i]);
      NotDictFailsPrices(trades, i);
    }
  }

  lemma {:induction false} NotDictFailsPrices(trades: seq<Json>, i: nat)
    requires i < |trades| && TradeMetrics.NotDict(trades[i])
    ensures Prices(trades).None?
    decreases |trades|
  {
    PricesStep(trades);
    if i < |trades| - 1 {
      var pre := trades[..|trades| - 1];
      assert pre[i] == trades[i];
      NotDictFailsPrices(pre, i);
    }
  }

  lemma {:induction false} PricesFailureHasCause(trades: seq<Json>)
    requires Prices(trades).None?
    ensures exists i :: 0 <= i < |trades| && TradeMetrics.NotDict(trades[i])
    decreases |trades|
  {
    assert |trades| > 0;
    PricesStep(trades);
    var pre := trades[..|trades| - 1];
    if Prices(pre).None? {
      PricesFailureHasCause(pre);
      var i :| 0 <= i < |pre| && TradeMetrics.NotDict(pre[i]);
      assert trades[i] == pre[i];
    } else {
      assert TradeMetrics.NotDict(trades[|trades| - 1]);
    }
  }

  lemma PricesStep(trades: seq<Json>)
    requires |trades| > 0
    ensures Prices(trades).None? <==> Prices(trades[..|trades| - 1]).None? || TradeMetrics.NotDict(trades[|trades| - 1])
  {
  }

  /** `sum(prices[-n:]) / n` when at least `n` prices exist. */
  function Sma(prices: seq<real>, n: int): (r: Option<real>)
    requires n >= 1
    ensures r.Some? <==> |prices| >= n
    ensures r.Some? ==> r.value * n as real == Sum(prices[|prices| - n..])
  {
    if |prices| >= n then Some(Sum(PyDrop(prices, -n)) / n as real) else None
  }

  lemma {:induction false} SumBetween(xs: seq<real>, lo: real, hi: real)
    requires forall i :: 0 <= i < |xs| ==> lo <= xs[i] <= hi
    ensures lo * |xs| as real <= Sum(xs) <= hi * |xs| as real
    decreases |xs|
  {
    if |xs| > 0 {
      SumBetween(xs[..|xs| - 1], lo, hi);
      SumStep(Sum(xs[..|xs| - 1]), (|xs| - 1) as real, xs[|xs| - 1], lo, hi);
    }
  }

  lemma SumStep(s: real, k: real, x: real, lo: real, hi: real)
    requires lo * k <= s <= hi * k && lo <= x <= hi
    ensures lo * (k + 1.0) <= s + x <= hi * (k + 1.0)
  {
  }

  /** The moving average lies within the range of the prices it averages. */
  lemma SmaWithinRange(prices: seq<real>, n: int, lo: real, hi: real)
    requires n >= 1 && |prices| >= n
    requires forall i :: |prices| - n <= i < |prices| ==> lo <= prices[i] <= hi
    ensures lo <= Sma(prices, n).value <= hi
  {
    var w := prices[|prices| - n..];
    assert lo <= Sum(w) / n as real <= hi by {
      assert forall i :: 0 <= i < |w| ==> w[i] == prices[|prices| - n + i];
      SumBetween(w, lo, hi);
      MeanBetween(Sum(w), n as real, lo, hi);
    }
    SmaIsMean(prices, n);
  }

  lemma SmaIsMean(prices: seq<real>, n: int)
    requires n >= 1 && |prices| >= n
    ensures Sma(prices, n) == Some(Sum(prices[|prices| - n..]) / n as real)
  {
    assert PyDrop(prices, -n) == prices[|prices| - n..];
  }

  lemma MeanBetween(s: real, n: real, lo: real, hi: real)
    requires n > 0.0 && lo * n <= s <= hi * n
    ensures lo <= s / n <= hi
  {
    assert s / n * n == s;
  }

  datatype Cross = Bullish | Bearish | NeutralCross

  /** A zero average counts as missing, as Python truthiness does. */
  function CrossOf(s: Option<real>, l: Option<real>): (c: Cross)
    ensures c == Bullish <==> TradeMetrics.Truthy(s) && TradeMetrics.Truthy(l) && s.value > l.value
    ensures c == Bearish <==> TradeMetrics.Truthy(s) && TradeMetrics.Truthy(l) && s.value < l.value
  {
    if TradeMetrics.Truthy(s) && TradeMetrics.Truthy(l) && s.value > l.value then Bullish
    else if TradeMetrics.Truthy(s) && TradeMetrics.Truthy(l) && s.value < l.value then Bearish
    else NeutralCross
  }

  /** Exchanging the short and long averages exchanges bullish and bearish. */
  lemma CrossSwap(s: Option<real>, l: Option<real>)
    ensures CrossOf(s, l) == Bullish <==> CrossOf(l, s) == Bearish
    ensures CrossOf(s, l) == NeutralCross <==> CrossOf(l, s) == NeutralCross
  {
  }

  datatype TrendResult = TrendResult(smaShort: Option<real>, smaLong: Option<real>, cross: Cross)

  /** `get_trend_ma` on an already fetched trade list; `None` when it raises. */
  function TrendOf(trades: seq<Json>, short: int, long: int): (r: Option<TrendResult>)
    requires short >= 1 && long >= 1
    ensures r.Some? <==> Prices(trades).Some?
    ensures r.Some? ==> r.value.smaShort.Some? == (|Prices(trades).value| >= short)
    ensures r.Some? ==> r.value.smaLong.Some? == (|Prices(trades).value| >= long)
    ensures r.Some? ==> r.value.cross == CrossOf(r.value.smaShort, r.value.smaLong)
  {
    match Prices(trades)
    case None => None
    case Some(ps) =>
      var s := Sma(ps, short);
      var l := Sma(ps, long);
      Some(TrendResult(s, l, CrossOf(s, l)))
  }

  /** Simple returns between consecutive prices, skipping a step whose
      previous price is not positive. */
  function Returns(prices: seq<real>): (r: seq<real>)
    ensures |r| <= if |prices| == 0 then 0 else |prices| - 1
    decreases |prices|
  {
    if |prices| < 2 then []
    else
      var p := prices[|prices| - 2];
      var q := prices[|prices| - 1];
      Returns(prices[..|prices| - 1]) + (if p > 0.0 then [(q - p) / p] else [])
  }

  function SumSquares(xs: seq<real>): (r: real)
    ensures r >= 0.0
    decreases |xs|
  {
    if |xs| == 0 then 0.0 else SumSquares(xs[..|xs| - 1]) + xs[|xs| - 1] * xs[|xs| - 1]
  }

  /** The mean squared return under the square root of the volatility figure;
      `0` when there are no returns. */
  function MeanSquareReturn(prices: seq<real>): (r: real)
    ensures r >= 0.0
    ensures |Returns(prices)| == 0 ==> r == 0.0
  {
    var rets := Returns(prices);
    if |rets| == 0 then 0.0 else SumSquares(rets) / |rets| as real
  }

  /** A flat positive price series has only zero returns. */
  lemma {:induction false} FlatSeriesZeroReturns(prices: seq<real>, p: real)
    requires p > 0.0 && forall i :: 0 <= i < |prices| ==> prices[i] == p
    ensures forall i :: 0 <= i < |Returns(prices)| ==> Returns(prices)[i] == 0.0
    decreases |prices|
  {
    if |prices| >= 2 {
      var pre := prices[..|prices| - 1];
      FlatSeriesZeroReturns(pre, p);
      assert prices[|prices| - 2] == p && prices[|prices| - 1] == p;
      assert (p - p) / p == 0.0;
    }
  }

  lemma {:induction false} ZeroSquares(xs: seq<real>)
    requires forall i :: 0 <= i < |xs| ==> xs[i] == 0.0
    ensures SumSquares(xs) == 0.0
    decreases |xs|
  {
    if |xs| > 0 {
      ZeroSquares(xs[..|xs| - 1]);
    }
  }

  lemma FlatSeriesZeroVolatility(prices: seq<real>, p: real)
    requires p > 0.0 && forall i :: 0 <= i < |prices| ==> prices[i] == p
    ensures MeanSquareReturn(prices) == 0.0
  {
    FlatSeriesZeroReturns(prices, p);
    ZeroSquares(Returns(prices));
  }
}
