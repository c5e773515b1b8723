/** The depth walk behind the slippage estimate: spend a USD notional
    against one side of the book, level by level in list order. */
module Slippage {
  import opened Wrappers
  import opened Book
  import BookMetrics
  import Text

  /** Floor on the price divisor, and the "fully spent" threshold. */
  const Eps: real := 0.000000001

  datatype WalkState = WalkState(remaining: real, cost: real, filled: real)

  function Max(a: real, b: real): real { if a >= b then a else b }
  function Min(a: real, b: real): real { if a <= b then a else b }

  /** Units taken from one level: what the remaining notional buys at that
      price, capped by the level's size. */
  function Take(remaining: real, l: Level): real {
    Min(remaining / Max(l.px, Eps), l.sz)
  }

  /** The state after taking `Take(remaining, l)` units from level `l`. */
  function Spend(s: WalkState, l: Level): WalkState {
    var t := Take(s.remaining, l);
    WalkState(s.remaining - t * l.px, s.cost + t * l.px, s.filled + t)
  }

  /** `_consume_depth`'s loop from state `s`: a level whose take is not
      positive is skipped, and the walk stops once at most `Eps` of the
      notional remains. */
  function Walk(levels: seq<Level>, s: WalkState): WalkState
    decreases |levels|, 1
  {
    if |levels| == 0 then s else WalkFrom(levels, s)
  }

  /** The walk at a non-empty run of levels. */
  function WalkFrom(levels: seq<Level>, s: WalkState): WalkState
    requires |levels| > 0
    decreases |levels|, 0
  {
    if Take(s.remaining, levels[0]) <= 0.0 then Walk(levels[1..], s)
    else
      var next := Spend(s, levels[0]);
      if next.remaining <= Eps then next else Walk(levels[1..], next)
  }

  /** One level of the walk: `Walk` unfolded once. */
  lemma WalkStep(levels: seq<Level>, s: WalkState)
    requires |levels| > 0
    ensures var next := Spend(s, levels[0]);
      Walk(levels, s) == if Take(s.remaining, levels[0]) <= 0.0 then Walk(levels[1..], s) else if next.remaining <= Eps then next else Walk(levels[1..], next)
  {
  }

  lemma MulMonotone(a: real, b: real, c: real)
    requires a <= b && c >= 0.0
    ensures a * c <= b * c
  {
  }

  /** What is spent is exactly what is no longer remaining. */
  lemma {:induction false} WalkConserves(levels: seq<Level>, s: WalkState)
    ensures Walk(levels, s).cost + Walk(levels, s).remaining == s.cost + s.remaining
    decreases |levels|
  {
    if |levels| > 0 {
      var t := Take(s.remaining, levels[0]);
      var next := Spend(s, levels[0]);
      WalkStep(levels, s);
      if t <= 0.0 {
        WalkConserves(levels[1..], s);
      } else if next.remaining > Eps {
        WalkConserves(levels[1..], next);
      }
    }
  }

  /** A non-positive notional buys nothing. */
  lemma {:induction false} NothingToSpend(levels: seq<Level>, s: WalkState)
    requires s.remaining <= 0.0
    ensures Walk(levels, s) == s
    decreases |levels|
  {
    if |levels| > 0 {
      var m := Max(levels[0].px, Eps);
      assert s.remaining / m <= 0.0;
      WalkStep(levels, s);
      NothingToSpend(levels[1..], s);
    }
  }

  predicate PositivePrices(levels: seq<Level>) {
    forall i :: 0 <= i < |levels| ==> levels[i].px > 0.0
  }

  lemma DivThenMul(x: real, m: real)
    requires m > 0.0
    ensures (x / m) * m == x
  {
  }

  lemma Distribute(k: real, a: real, b: real)
    ensures k * (a + b) == k * a + k * b
  {
  }

  lemma LeChain(a: real, b: real, c: real, d: real, e: real)
    requires a <= b && b == c && c <= d && d == e
    ensures a <= e
  {
  }

  /** At a positive price, a positive take never costs more than what remains. */
  lemma TakeAffordable(remaining: real, l: Level)
    requires l.px > 0.0 && Take(remaining, l) > 0.0
    ensures Take(remaining, l) * l.px <= remaining
  {
    var m := Max(l.px, Eps);
    var t := Take(remaining, l);
    var q := remaining / m;
    assert m > 0.0 && l.px <= m;
    assert t <= q;
    MulMonotone(l.px, m, t);
    assert t * l.px == l.px * t;
    MulMonotone(t, q, m);
    assert m * t == t * m;
    DivThenMul(remaining, m);
    LeChain(t * l.px, m * t, t * m, q * m, remaining);
  }

  /** With positive prices the remaining notional never drops below zero
      and never grows, and neither the cost nor the units filled shrink. */
  lemma {:induction false} WalkStaysWithinBudget(levels: seq<Level>, s: WalkState)
    requires PositivePrices(levels) && s.remaining >= 0.0
    ensures 0.0 <= Walk(levels, s).remaining <= s.remaining
    ensures s.cost <= Walk(levels, s).cost
    ensures s.filled <= Walk(levels, s).filled
    decreases |levels|
  {
    if |levels| > 0 {
      var l := levels[0];
      var t := Take(s.remaining, l);
      var next := Spend(s, l);
      WalkStep(levels, s);
      if t <= 0.0 {
        WalkStaysWithinBudget(levels[1..], s);
      } else {
        TakeAffordable(s.remaining, l);
        assert t * l.px > 0.0;
        if next.remaining > Eps {
          WalkStaysWithinBudget(levels[1..], next);
        }
      }
    }
  }

  lemma {:induction false} SumSizesCons(levels: seq<Level>)
    requires |levels| > 0
    ensures SumSizes(levels) == levels[0].sz + SumSizes(levels[1..])
    decreases |levels|
  {
    if |levels| > 1 {
      var init := levels[..|levels| - 1];
      SumSizesCons(init);
      assert init[1..] == levels[1..][..|levels| - 2];
    }
  }

  /** No level gives more than its size, so the walk never fills more than
      the side holds. */
  lemma {:induction false} FilledWithinDepth(levels: seq<Level>, s: WalkState)
    requires NonNegativeSizes(levels)
    ensures Walk(levels, s).filled - s.filled <= SumSizes(levels)
    decreases |levels|
  {
    if |levels| > 0 {
      var l := levels[0];
      var t := Take(s.remaining, l);
      var next := Spend(s, l);
      WalkStep(levels, s);
      SumSizesCons(levels);
      SumSizesNonNegative(levels[1..]);
      if t <= 0.0 {
        FilledWithinDepth(levels[1..], s);
      } else if next.remaining > Eps {
        FilledWithinDepth(levels[1..], next);
      }
    }
  }

  /** The `(units, spent)` of every take the walk makes, in order. */
  function Trace(levels: seq<Level>, s: WalkState): seq<(real, real)>
    decreases |levels|, 1
  {
    if |levels| == 0 then [] else TraceFrom(levels, s)
  }

  function TraceFrom(levels: seq<Level>, s: WalkState): seq<(real, real)>
    requires |levels| > 0
    decreases |levels|, 0
  {
    if Take(s.remaining, levels[0]) <= 0.0 then Trace(levels[1..], s)
    else
      var next := Spend(s, levels[0]);
      var here := [(next.filled - s.filled, next.cost - s.cost)];
      if next.remaining <= Eps then here else here + Trace(levels[1..], next)
  }

  function TraceCost(tr: seq<(real, real)>): real
    decreases |tr|
  {
    if |tr| == 0 then 0.0 else tr[0].1 + TraceCost(tr[1..])
  }

  function TraceUnits(tr: seq<(real, real)>): real
    decreases |tr|
  {
    if |tr| == 0 then 0.0 else tr[0].0 + TraceUnits(tr[1..])
  }

  /** `Trace` unfolded once. */
  lemma TraceStep(levels: seq<Level>, s: WalkState)
    requires |levels| > 0
    ensures var next := Spend(s, levels[0]);
      var here := (next.filled - s.filled, next.cost - s.cost);
      Trace(levels, s) ==
        if Take(s.remaining, levels[0]) <= 0.0 then Trace(levels[1..], s)
        else if next.remaining <= Eps then [here]
        else [here] + Trace(levels[1..], next)
  {
  }

  lemma TraceTotalsCons(x: (real, real), rest: seq<(real, real)>)
    ensures TraceCost([x] + rest) == x.1 + TraceCost(rest)
    ensures TraceUnits([x] + rest) == x.0 + TraceUnits(rest)
  {
    assert ([x] + rest)[1..] == rest;
  }

  /** The walk's cost and fill are the totals of its takes. */
  lemma {:induction false} WalkFollowsTrace(levels: seq<Level>, s: WalkState)
    ensures Walk(levels, s).cost == s.cost + TraceCost(Trace(levels, s))
    ensures Walk(levels, s).filled == s.filled + TraceUnits(Trace(levels, s))
    decreases |levels|
  {
    if |levels| > 0 {
      var next := Spend(s, levels[0]);
      var here := (next.filled - s.filled, next.cost - s.cost);
      WalkStep(levels, s);
      TraceStep(levels, s);
      if Take(s.remaining, levels[0]) <= 0.0 {
        WalkFollowsTrace(levels[1..], s);
      } else if next.remaining <= Eps {
        TraceTotalsCons(here, []);
      } else {
        WalkFollowsTrace(levels[1..], next);
        TraceTotalsCons(here, Trace(levels[1..], next));
      }
    }
  }

  /** A positive take at a price of at least `lo` costs at least `lo` per unit. */
  lemma SpendAtLeast(s: WalkState, l: Level, lo: real)
    requires lo <= l.px && Take(s.remaining, l) > 0.0
    ensures lo * (Spend(s, l).filled - s.filled) <= Spend(s, l).cost - s.cost
  {
    var t := Take(s.remaining, l);
    MulMonotone(lo, l.px, t);
    assert t * l.px == l.px * t;
  }

  /** A positive take at a price of at most `hi` costs at most `hi` per unit. */
  lemma SpendAtMost(s: WalkState, l: Level, hi: real)
    requires l.px <= hi && Take(s.remaining, l) > 0.0
    ensures Spend(s, l).cost - s.cost <= hi * (Spend(s, l).filled - s.filled)
  {
    var t := Take(s.remaining, l);
    MulMonotone(l.px, hi, t);
    assert t * l.px == l.px * t;
  }

  predicate PricedAtLeast(tr: seq<(real, real)>, lo: real)
    decreases |tr|
  {
    |tr| == 0 || (lo * tr[0].0 <= tr[0].1 && PricedAtLeast(tr[1..], lo))
  }

  predicate PricedAtMost(tr: seq<(real, real)>, hi: real)
    decreases |tr|
  {
    |tr| == 0 || (tr[0].1 <= hi * tr[0].0 && PricedAtMost(tr[1..], hi))
  }

  lemma PricedCons(x: (real, real), rest: seq<(real, real)>, lo: real, hi: real)
    ensures PricedAtLeast([x] + rest, lo) <==> lo * x.0 <= x.1 && PricedAtLeast(rest, lo)
    ensures PricedAtMost([x] + rest, hi) <==> x.1 <= hi * x.0 && PricedAtMost(rest, hi)
  {
    assert ([x] + rest)[1..] == rest;
  }

  /** Every take is priced at no less than the lowest level walked. */
  lemma {:induction false} TraceAtLeast(levels: seq<Level>, s: WalkState, lo: real)
    requires forall i :: 0 <= i < |levels| ==> lo <= levels[i].px
    ensures PricedAtLeast(Trace(levels, s), lo)
    decreases |levels|
  {
    if |levels| > 0 {
      var next := Spend(s, levels[0]);
      var here := (next.filled - s.filled, next.cost - s.cost);
      TraceStep(levels, s);
      if Take(s.remaining, levels[0]) <= 0.0 {
        TraceAtLeast(levels[1..], s, lo);
      } else {
        assert lo * here.0 <= here.1 by {
          SpendAtLeast(s, levels[0], lo);
        }
        if next.remaining > Eps {
          TraceAtLeast(levels[1..], next, lo);
          PricedCons(here, Trace(levels[1..], next), lo, lo);
        } else {
          PricedCons(here, [], lo, lo);
          assert [here] + [] == [here];
        }
      }
    }
  }

  /** Every take is priced at no more than the highest level walked. */
  lemma {:induction false} TraceAtMost(levels: seq<Level>, s: WalkState, hi: real)
    requires forall i :: 0 <= i < |levels| ==> levels[i].px <= hi
    ensures PricedAtMost(Trace(levels, s), hi)
    decreases |levels|
  {
    if |levels| > 0 {
      var next := Spend(s, levels[0]);
      var here := (next.filled - s.filled, next.cost - s.cost);
      TraceStep(levels, s);
      if Take(s.remaining, levels[0]) <= 0.0 {
        TraceAtMost(levels[1..], s, hi);
      } else {
        assert here.1 <= hi * here.0 by {
          SpendAtMost(s, levels[0], hi);
        }
        if next.remaining > Eps {
          TraceAtMost(levels[1..], next, hi);
          PricedCons(here, Trace(levels[1..], next), hi, hi);
        } else {
          PricedCons(here, [], hi, hi);
          assert [here] + [] == [here];
        }
      }
    }
  }

  lemma AddLower(lo: real, u: real, c: real, us: real, cs: real)
    requires lo * u <= c && lo * us <= cs
    ensures lo * (u + us) <= c + cs
  {
    Distribute(lo, u, us);
  }

  lemma AddUpper(hi: real, u: real, c: real, us: real, cs: real)
    requires c <= hi * u && cs <= hi * us
    ensures c + cs <= hi * (u + us)
  {
    Distribute(hi, u, us);
  }

  lemma {:induction false} TraceTotalsAtLeast(tr: seq<(real, real)>, lo: real)
    requires PricedAtLeast(tr, lo)
    ensures lo * TraceUnits(tr) <= TraceCost(tr)
    decreases |tr|
  {
    if |tr| > 0 {
      TraceTotalsAtLeast(tr[1..], lo);
      AddLower(lo, tr[0].0, tr[0].1, TraceUnits(tr[1..]), TraceCost(tr[1..]));
    }
  }

  lemma {:induction false} TraceTotalsAtMost(tr: seq<(real, real)>, hi: real)
    requires PricedAtMost(tr, hi)
    ensures TraceCost(tr) <= hi * TraceUnits(tr)
    decreases |tr|
  {
    if |tr| > 0 {
      TraceTotalsAtMost(tr[1..], hi);
      AddUpper(hi, tr[0].0, tr[0].1, TraceUnits(tr[1..]), TraceCost(tr[1..]));
    }
  }

  lemma ShiftLower(lo: real, c: real, c0: real, f: real, f0: real, tc: real, tu: real)
    requires c == c0 + tc && f == f0 + tu && lo * tu <= tc
    ensures lo * (f - f0) <= c - c0
  {
    assert f - f0 == tu;
  }

  lemma ShiftUpper(hi: real, c: real, c0: real, f: real, f0: real, tc: real, tu: real)
    requires c == c0 + tc && f == f0 + tu && tc <= hi * tu
    ensures c - c0 <= hi * (f - f0)
  {
    assert f - f0 == tu;
  }

  /** Every unit is bought at no less than the lowest price walked. */
  lemma CostAtLeast(levels: seq<Level>, s: WalkState, lo: real)
    requires forall i :: 0 <= i < |levels| ==> lo <= levels[i].px
    ensures lo * (Walk(levels, s).filled - s.filled) <= Walk(levels, s).cost - s.cost
  {
    var tr := Trace(levels, s);
    var w := Walk(levels, s);
    assert lo * TraceUnits(tr) <= TraceCost(tr) by {
      TraceAtLeast(levels, s, lo);
      TraceTotalsAtLeast(tr, lo);
    }
    assert w.cost == s.cost + TraceCost(tr) && w.filled == s.filled + TraceUnits(tr) by {
      WalkFollowsTrace(levels, s);
    }
    ShiftLower(lo, w.cost, s.cost, w.filled, s.filled, TraceCost(tr), TraceUnits(tr));
  }

  /** Every unit is bought at no more than the highest price walked. */
  lemma CostAtMost(levels: seq<Level>, s: WalkState, hi: real)
    requires forall i :: 0 <= i < |levels| ==> levels[i].px <= hi
    ensures Walk(levels, s).cost - s.cost <= hi * (Walk(levels, s).filled - s.filled)
  {
    var tr := Trace(levels, s);
    var w := Walk(levels, s);
    assert TraceCost(tr) <= hi * TraceUnits(tr) by {
      TraceAtMost(levels, s, hi);
      TraceTotalsAtMost(tr, hi);
    }
    assert w.cost == s.cost + TraceCost(tr) && w.filled == s.filled + TraceUnits(tr) by {
      WalkFollowsTrace(levels, s);
    }
    ShiftUpper(hi, w.cost, s.cost, w.filled, s.filled, TraceCost(tr), TraceUnits(tr));
  }

  /** The walk from an empty state, as `_consume_depth` starts it. */
  lemma FromScratchBounds(levels: seq<Level>, notional: real)
    ensures var w := Walk(levels, WalkState(notional, 0.0, 0.0));
      && (notional <= 0.0 ==> w.cost == 0.0 && w.filled == 0.0)
      && (PositivePrices(levels) ==> 0.0 <= w.cost <= Max(notional, 0.0) && 0.0 <= w.filled)
      && (NonNegativeSizes(levels) ==> w.filled <= SumSizes(levels))
  {
    var s0 := WalkState(notional, 0.0, 0.0);
    WalkConserves(levels, s0);
    if notional <= 0.0 {
      NothingToSpend(levels, s0);
    } else if PositivePrices(levels) {
      WalkStaysWithinBudget(levels, s0);
    }
    if NonNegativeSizes(levels) {
      FilledWithinDepth(levels, s0);
    }
  }

  /** The side walked: asks for a buy, bids for anything else. */
  function SideLevels(ob: OrderBook, side: string): seq<Level> {
    if side == "buy" then ob.asks else ob.bids
  }

  /** `_consume_depth`: `(cost, filled)` for spending `notional`. */
  function ConsumeDepth(ob: OrderBook, side: string, notional: real): (r: (real, real))
    ensures notional <= 0.0 ==> r == (0.0, 0.0)
    ensures PositivePrices(SideLevels(ob, side)) ==> 0.0 <= r.0 && r.0 <= Max(notional, 0.0) && 0.0 <= r.1
    ensures NonNegativeSizes(SideLevels(ob, side)) ==> r.1 <= SumSizes(SideLevels(ob, side))
  {
    var levels := SideLevels(ob, side);
    var w := Walk(levels, WalkState(notional, 0.0, 0.0));
    FromScratchBounds(levels, notional);
    (w.cost, w.filled)
  }

  datatype SlippageResult =
    | NoMid
    | BadSide
    | InsufficientDepth
    | ZeroMid
    | Estimate(avgPx: real, slippageBps: real, filledUnits: real)

  /** `cost / filled`: the average price paid per unit. */
  function AvgPrice(cost: real, filled: real): (r: real)
    requires filled != 0.0
    ensures r * filled == cost
  {
    cost / filled
  }

  /** Slippage in basis points of the mid: positive when the average is
      worse than the mid for the side taken. */
  function SlippageBps(avg: real, mid: real, buy: bool): (r: real)
    requires mid != 0.0
    ensures buy ==> r * mid == (avg - mid) * 10000.0
    ensures !buy ==> r * mid == (mid - avg) * 10000.0
  {
    if buy then (avg - mid) / mid * 10000.0 else (mid - avg) / mid * 10000.0
  }

  /** `get_slippage` on a normalised book. `ZeroMid` stands for the division
      by a zero mid, which raises. */
  function GetSlippage(ob: OrderBook, side: string, notional: real): (r: SlippageResult)
    ensures r == NoMid <==> BookMetrics.Compute(ob).mid.None?
    ensures r == BadSide <==> BookMetrics.Compute(ob).mid.Some? && Text.Lower(side) != "buy" && Text.Lower(side) != "sell"
    ensures r == InsufficientDepth <==>
      && BookMetrics.Compute(ob).mid.Some?
      && (Text.Lower(side) == "buy" || Text.Lower(side) == "sell")
      && ConsumeDepth(ob, Text.Lower(side), notional).1 <= 0.0
    ensures r == ZeroMid <==>
      && BookMetrics.Compute(ob).mid == Some(0.0)
      && (Text.Lower(side) == "buy" || Text.Lower(side) == "sell")
      && ConsumeDepth(ob, Text.Lower(side), notional).1 > 0.0
    ensures r.Estimate? ==>
      var (cost, filled) := ConsumeDepth(ob, Text.Lower(side), notional);
      var mid := BookMetrics.Compute(ob).mid.value;
      && filled > 0.0 && mid != 0.0
      && r.filledUnits == filled
      && r.avgPx == AvgPrice(cost, filled)
      && r.slippageBps == SlippageBps(r.avgPx, mid, Text.Lower(side) == "buy")
  {
    match BookMetrics.Compute(ob).mid
    case None => NoMid
    case Some(mid) =>
      var sideNorm := Text.Lower(side);
      if sideNorm != "buy" && sideNorm != "sell" then BadSide
      else
        var (cost, filled) := ConsumeDepth(ob, sideNorm, notional);
        if filled <= 0.0 then InsufficientDepth
        else if mid == 0.0 then ZeroMid
        else
          var avg := AvgPrice(cost, filled);
          Estimate(avg, SlippageBps(avg, mid, sideNorm == "buy"), filled)
  }

  lemma BpsNonNegative(cost: real, filled: real, mid: real)
    requires filled > 0.0 && mid > 0.0 && mid * filled <= cost
    ensures SlippageBps(AvgPrice(cost, filled), mid, true) >= 0.0
  {
    var avg := AvgPrice(cost, filled);
    assert (avg - mid) * filled >= 0.0;
    assert avg - mid >= 0.0;
  }

  lemma SellBpsNonNegative(cost: real, filled: real, mid: real)
    requires filled > 0.0 && mid > 0.0 && cost <= mid * filled
    ensures SlippageBps(AvgPrice(cost, filled), mid, false) >= 0.0
  {
    var avg := AvgPrice(cost, filled);
    assert (mid - avg) * filled >= 0.0;
    assert mid - avg >= 0.0;
  }

  /** Spending from scratch against levels priced at or above `lo` costs
      at least `lo` per unit filled. */
  lemma FromScratchAtLeast(levels: seq<Level>, notional: real, lo: real)
    requires forall i :: 0 <= i < |levels| ==> lo <= levels[i].px
    ensures lo * Walk(levels, WalkState(notional, 0.0, 0.0)).filled <= Walk(levels, WalkState(notional, 0.0, 0.0)).cost
  {
    CostAtLeast(levels, WalkState(notional, 0.0, 0.0), lo);
  }

  /** Spending from scratch against levels priced at or below `hi` costs at
      most `hi` per unit filled. */
  lemma FromScratchAtMost(levels: seq<Level>, notional: real, hi: real)
    requires forall i :: 0 <= i < |levels| ==> levels[i].px <= hi
    ensures Walk(levels, WalkState(notional, 0.0, 0.0)).cost <= hi * Walk(levels, WalkState(notional, 0.0, 0.0)).filled
  {
    CostAtMost(levels, WalkState(notional, 0.0, 0.0), hi);
  }

  /** A buy against asks that all sit at or above a positive mid never shows
      negative slippage. */
  lemma BuySlippageNonNegative(ob: OrderBook, side: string, notional: real)
    requires Text.Lower(side) == "buy"
    requires GetSlippage(ob, side, notional).Estimate?
    requires BookMetrics.Compute(ob).mid.value > 0.0
    requires forall i :: 0 <= i < |ob.asks| ==> ob.asks[i].px >= BookMetrics.Compute(ob).mid.value
    ensures GetSlippage(ob, side, notional).slippageBps >= 0.0
  {
    var mid := BookMetrics.Compute(ob).mid.value;
    FromScratchAtLeast(ob.asks, notional, mid);
    var (cost, filled) := ConsumeDepth(ob, "buy", notional);
    BpsNonNegative(cost, filled, mid);
  }

  /** A sell against bids that all sit at or below the mid never shows
      negative slippage. */
  lemma SellSlippageNonNegative(ob: OrderBook, side: string, notional: real)
    requires Text.Lower(side) == "sell"
    requires GetSlippage(ob, side, notional).Estimate?
    requires BookMetrics.Compute(ob).mid.value > 0.0
    requires forall i :: 0 <= i < |ob.bids| ==> ob.bids[i].px <= BookMetrics.Compute(ob).mid.value
    ensures GetSlippage(ob, side, notional).slippageBps >= 0.0
  {
    var mid := BookMetrics.Compute(ob).mid.value;
    FromScratchAtMost(ob.bids, notional, mid);
    var (cost, filled) := ConsumeDepth(ob, "sell", notional);
    SellBpsNonNegative(cost, filled, mid);
  }

  /** The worked example: with best bid 100 and asks (101,3),(102,4), a $300
      buy is filled at the first level alone, at an average price of 101,
      0.5/100.5 of the mid above it. */
  lemma ExampleBuy(ob: OrderBook, side: string, notional: real)
    requires |ob.bids| > 0 && ob.bids[0].px == 100.0 && ob.asks == [Level(101.0, 3.0), Level(102.0, 4.0)]
    requires side == "BUY" && notional == 300.0
    ensures GetSlippage(ob, side, notional) == Estimate(101.0, 0.5 / 100.5 * 10000.0, 300.0 / 101.0)
  {
    ExampleSide(side);
    ExampleConsume(ob);
    ExampleMid(ob);
    ExampleAverage();
  }

  lemma ExampleSide(side: string)
    requires side == "BUY"
    ensures Text.Lower(side) == "buy"
  {
    assert Text.Lower(side) == "buy";
  }

  lemma ExampleMid(ob: OrderBook)
    requires |ob.bids| > 0 && |ob.asks| > 0 && ob.bids[0].px == 100.0 && ob.asks[0].px == 101.0
    ensures BookMetrics.Compute(ob).mid == Some(100.5)
  {
  }

  lemma ExampleConsume(ob: OrderBook)
    requires ob.asks == [Level(101.0, 3.0), Level(102.0, 4.0)]
    ensures ConsumeDepth(ob, "buy", 300.0) == (300.0, 300.0 / 101.0)
  {
    ExampleWalk();
  }

  lemma ExampleWalk()
    ensures Walk([Level(101.0, 3.0), Level(102.0, 4.0)], WalkState(300.0, 0.0, 0.0)) == WalkState(0.0, 300.0, 300.0 / 101.0)
  {
    var asks := [Level(101.0, 3.0), Level(102.0, 4.0)];
    var s0 := WalkState(300.0, 0.0, 0.0);
    assert Take(300.0, asks[0]) == 300.0 / 101.0 by {
      assert 300.0 / 101.0 < 3.0;
    }
    assert Spend(s0, asks[0]) == WalkState(0.0, 300.0, 300.0 / 101.0) by {
      assert 300.0 / 101.0 * 101.0 == 300.0;
    }
    WalkStep(asks, s0);
  }

  lemma ExampleAverage()
    ensures AvgPrice(300.0, 300.0 / 101.0) == 101.0
    ensures SlippageBps(101.0, 100.5, true) == 0.5 / 100.5 * 10000.0
  {
    assert 101.0 * (300.0 / 101.0) == 300.0;
  }
}

/** `cumul` in the liquidity profile: running size totals level by level. */
module Liquidity {
  import opened Book

  /** Each level's price paired with the total size up to and including it. */
  method Cumulative(levels: seq<Level>) returns (out: seq<(real, real)>)
    ensures |out| == |levels|
    ensures forall i :: 0 <= i < |out| ==> out[i].0 == levels[i].px
    ensures forall i :: 0 <= i < |out| ==> out[i].1 == SumSizes(levels[..i + 1])
  {
    out := [];
    var acc := 0.0;
    var i := 0;
    while i < |levels|
      invariant 0 <= i <= |levels|
      invariant |out| == i
      invariant acc == SumSizes(levels[..i])
      invariant forall k :: 0 <= k < i ==> out[k] == (levels[k].px, SumSizes(levels[..k + 1]))
    {
      assert levels[..i + 1][..i] == levels[..i];
      acc := acc + levels[i].sz;
      out := out + [(levels[i].px, acc)];
      i := i + 1;
    }
  }

  /** With non-negative sizes the profile never decreases, and its last
      entry is the side's total size. */
  lemma CumulativeShape(levels: seq<Level>, out: seq<(real, real)>)
    requires NonNegativeSizes(levels) && |out| == |levels|
    requires forall i :: 0 <= i < |out| ==> out[i].1 == SumSizes(levels[..i + 1])
    ensures forall i, j :: 0 <= i <= j < |out| ==> out[i].1 <= out[j].1
    ensures |out| > 0 ==> out[|out| - 1].1 == SumSizes(levels)
  {
    forall i, j | 0 <= i <= j < |out| {
      SumSizesPrefixMonotone(levels, i + 1, j + 1);
    }
    if |out| > 0 {
      assert levels[..|levels|] == levels;
    }
  }
}
