/** The rule-based half of the natural-language tool selector: what the
    prompt mentions (wallet address, tickers, time window, amount, side),
    which tools the context allows, the asks-up-to-price summary and the
    accounting of emitted lines. The embedding ranking is an input: the
    tools arrive already ranked. */
module ToolSelector {
  import opened Wrappers
  import opened Seqs
  import opened Text
  import opened Json
  import Tickers
  import TargetPrice

  // ---------------------------------------------------------------------------
  // Wallet address: `\b0x[a-fA-F0-9]{40}\b`

  /** `_extract_address(prompt) is not None`. */
  predicate HasAddress(s: string) {
    exists i :: 0 <= i < |s| && AddressAt(s, i)
  }

  // ---------------------------------------------------------------------------
  // Time window

  const WeekWords: seq<string> := ["7d", "7 d", "week", "weekly"]
  const MonthWords: seq<string> := ["30d", "30 d", "month", "monthly"]
  const DayWords: seq<string> := ["24h", "24 h", "day", "daily", "today"]

  predicate Mentions(text: string, words: seq<string>) {
    exists i :: 0 <= i < |words| && Contains(Lower(text), words[i])
  }

  /** `_parse_time_window_days`: week words win over month words, month
      words over day words, and a day is the default. */
  function TimeWindowDays(text: string): (d: int)
    ensures d == 1 || d == 7 || d == 30
    ensures d == 7 <==> Mentions(text, WeekWords)
    ensures d == 30 <==> !Mentions(text, WeekWords) && Mentions(text, MonthWords)
  {
    if Mentions(text, WeekWords) then 7
    else if Mentions(text, MonthWords) then 30
    else if Mentions(text, DayWords) then 1
    else 1
  }

  /** The day words never change the answer: without week or month words
      the window is one day whether or not a day word is present. */
  lemma DayWordsAreTheDefault(text: string)
    requires !Mentions(text, WeekWords) && !Mentions(text, MonthWords)
    ensures TimeWindowDays(text) == 1
  {
  }

  /** "weekly" contains no month word but wins even next to one. */
  lemma ExampleWeekBeatsMonth()
    ensures TimeWindowDays("weekly or monthly") == 7
  {
    var t := "weekly or monthly";
    assert OccursAt(Lower(t), WeekWords[2], 0) by {
      assert Lower(t)[0..4] == "week";
    }
  }

  // ---------------------------------------------------------------------------
  // Slippage arguments: `_b_slippage`

  /** "buy" if it occurs in the lower-cased prompt, else "sell" if that
      occurs, else "buy". */
  function SlippageSide(prompt: string): (side: string)
    ensures side == "buy" || side == "sell"
    ensures side == "sell" <==> !Contains(Lower(prompt), "buy") && Contains(Lower(prompt), "sell")
  {
    if Contains(Lower(prompt), "buy") then "buy"
    else if Contains(Lower(prompt), "sell") then "sell"
    else "buy"
  }

  /** `\b` at position `e`: a word character on exactly one side. */
  predicate Boundary(s: string, e: nat)
    requires e <= |s|
  {
    (e > 0 && IsWordChar(s[e - 1])) != (e < |s| && IsWordChar(s[e]))
  }

  const UnitWords: seq<string> := ["USD", "usdc", "usd", "$"]

  /** `(?:\s?USD|\s?usdc|\s?usd|\s?\$)\b` at position `k`: some unit, with
      or without one space before it, followed by a word boundary. */
  predicate UnitAt(s: string, k: nat)
    requires k <= |s|
  {
    exists w, u :: 0 <= w <= 1 && 0 <= u < |UnitWords| && UnitWith(s, k, w, u)
  }

  /** Unit number `u` after `w` spaces (none or one) at position `k`. */
  predicate UnitWith(s: string, k: nat, w: int, u: int) {
    && k <= |s| && 0 <= w <= 1 && 0 <= u < |UnitWords|
    && (w == 1 ==> k < |s| && s[k] in Whitespace)
    && OccursAt(s, UnitWords[u], k + w) && Boundary(s, k + w + |UnitWords[u]|)
  }

  /** `\b(\d{2,9})` followed by a unit matches at `i`. Backtracking to fewer
      digits cannot help, since a digit would then follow. */
  predicate AmountAt(s: string, i: nat) {
    && i < |s|
    && IsDigit(s[i])
    && (i == 0 || !IsWordChar(s[i - 1]))
    && 2 <= DigitRun(s, i) <= 9
    && UnitAt(s, i + DigitRun(s, i))
  }

  /** The captured digits of an amount at `i`. */
  function AmountDigits(s: string, i: nat): (ds: string)
    requires AmountAt(s, i)
    ensures 2 <= |ds| <= 9 && AllDigits(ds)
  {
    s[i..i + DigitRun(s, i)]
  }

  /** The number the digits of an amount spell: at most nine digits, so
      below a billion. */
  function AmountValue(s: string, i: nat): (v: nat)
    requires AmountAt(s, i)
    ensures v < 1000000000
  {
    var ds := AmountDigits(s, i);
    DigitsValueBound(ds);
    Pow10Monotone(|ds|, 9);
    DigitsValue(ds)
  }

  /** `re.search`: the leftmost position at or after `i` where `p` matches. */
  function FirstMatch(s: string, i: nat, p: (string, nat) -> bool): (r: Option<nat>)
    requires i <= |s|
    ensures r.None? <==> forall k :: i <= k < |s| ==> !p(s, k)
    ensures r.Some? ==> i <= r.value < |s| && p(s, r.value)
    ensures r.Some? ==> forall k :: i <= k < r.value ==> !p(s, k)
    decreases |s| - i
  {
    if i == |s| then None
    else if p(s, i) then Some(i)
    else FirstMatch(s, i + 1, p)
  }

  /** The default notional when the prompt names no amount. */
  const DefaultNotional: real := 10000.0

  /** The notional of the slippage call: the digits of the first amount in
      the lower-cased prompt, or the default. */
  function Notional(prompt: string): (r: real)
    ensures (forall k :: 0 <= k < |prompt| ==> !AmountAt(Lower(prompt), k)) ==> r == DefaultNotional
    ensures r != DefaultNotional ==> exists k :: 0 <= k < |prompt| && AmountAt(Lower(prompt), k)
    ensures r == DefaultNotional || 0.0 <= r < 1000000000.0
    ensures forall k ::
      (0 <= k < |Lower(prompt)| && AmountAt(Lower(prompt), k) && forall j :: 0 <= j < k ==> !AmountAt(Lower(prompt), j))
      ==> r == AmountValue(Lower(prompt), k) as real
  {
    var s := Lower(prompt);
    match FirstMatch(s, 0, AmountAt)
    case None => DefaultNotional
    case Some(i) =>
      FirstMatchIsLeftmost(s, i, AmountAt);
      AmountValue(s, i) as real
  }

  /** The position the search finds is the only match with no match
      before it. */
  lemma FirstMatchIsLeftmost(s: string, i: nat, p: (string, nat) -> bool)
    requires FirstMatch(s, 0, p) == Some(i)
    ensures forall k :: (0 <= k < |s| && p(s, k) && forall j :: 0 <= j < k ==> !p(s, j)) ==> k == i
  {
  }

  datatype SlippageCall = SlippageCall(coin: string, side: string, notional: real)

  /** `_b_slippage`: no call without a ticker; otherwise the first ticker. */
  function SlippageArgs(prompt: string): (r: Option<SlippageCall>)
    ensures r.None? <==> |Tickers.ExtractTickers(prompt)| == 0
    ensures r.Some? ==> r.value.coin == Tickers.ExtractTickers(prompt)[0]
    ensures r.Some? ==> r.value.side == SlippageSide(prompt) && r.value.notional == Notional(prompt)
  {
    var tickers := Tickers.ExtractTickers(prompt);
    if |tickers| == 0 then None
    else Some(SlippageCall(tickers[0], SlippageSide(prompt), Notional(prompt)))
  }

  /** The search finds the first position where `p` holds. */
  lemma FirstMatchAt(s: string, i: nat, p: (string, nat) -> bool)
    requires i < |s| && p(s, i) && forall k :: 0 <= k < i ==> !p(s, k)
    ensures FirstMatch(s, 0, p) == Some(i)
  {
  }

  /** An amount with a spaced unit sets the notional. */
  lemma ExampleNotional()
    ensures Notional("sell 25000 usdc") == 25000.0
  {
    var t := "sell 25000 usdc";
    ExampleLower(t);
    ExampleAmount(t);
    ExampleValue(t);
    ExampleNoEarlierAmount(t);
    FirstMatchAt(t, 5, AmountAt);
  }

  lemma ExampleNoEarlierAmount(t: string)
    requires t == "sell 25000 usdc"
    ensures forall k :: 0 <= k < 5 ==> !AmountAt(t, k)
  {
    assert forall k :: 0 <= k < 5 ==> !IsDigit(t[k]);
  }

  lemma ExampleLower(t: string)
    requires t == "sell 25000 usdc"
    ensures Lower(t) == t
  {
    assert forall k :: 0 <= k < |t| ==> !IsAsciiUpper(t[k]);
  }

  lemma ExampleAmount(t: string)
    requires t == "sell 25000 usdc"
    ensures AmountAt(t, 5) && DigitRun(t, 5) == 5
  {
    assert DigitRun(t, 10) == 0;
    assert UnitWith(t, 10, 1, 1) by {
      assert t[11..15] == "usdc";
    }
  }

  lemma ExampleValue(t: string)
    requires t == "sell 25000 usdc" && AmountAt(t, 5) && DigitRun(t, 5) == 5
    ensures AmountValue(t, 5) == 25000
  {
    assert AmountDigits(t, 5) == "25000";
    assert "25000"[..4] == "2500" && "2500"[..3] == "250" && "250"[..2] == "25" && "25"[..1] == "2" && "2"[..0] == "";
  }

  /** The upper-case unit can never match: the prompt is lower-cased first. */
  lemma UpperUnitNeverMatches(prompt: string, k: nat)
    requires k + 3 <= |prompt|
    ensures !OccursAt(Lower(prompt), "USD", k)
  {
    assert Lower(prompt)[k] != 'U';
    assert Lower(prompt)[k..k + 3][0] == Lower(prompt)[k];
  }

  /** A dollar sign needs a word character right after it: "500$" at the
      end of the prompt is no amount. */
  lemma TrailingDollarIsNoAmount()
    ensures !AmountAt("500$", 0)
  {
    var s := "500$";
    assert DigitRun(s, 3) == 0;
    assert DigitRun(s, 0) == 3;
    forall w, u
      ensures !UnitWith(s, 3, w, u)
    {
      assert s[3] !in Whitespace;
    }
  }

  // ---------------------------------------------------------------------------
  // Context gating: `_allowed`

  const UserOnly: set<string> := {"account_summary", "active_asset_data", "user_pnl"}
  const GlobalOnly: set<string> := {"oi_caps", "predicted_fundings", "meta_and_ctxs"}
  const TickerTools: set<string> := {
    "full_market_picture", "orderbook", "trades", "funding_history",
    "asks_to_price", "slippage", "premium_monitor", "volatility_metrics",
    "trend_ma", "oi_trend", "liquidity_profile" }

  function Allowed(name: string, hasAddr: bool, hasTicker: bool): (ok: bool)
    ensures hasAddr && hasTicker ==> (ok <==> name in UserOnly + TickerTools)
    ensures hasAddr && !hasTicker ==> (ok <==> name in UserOnly)
    ensures !hasAddr && hasTicker ==> (ok <==> name in TickerTools)
    ensures !hasAddr && !hasTicker ==> (ok <==> name in GlobalOnly)
  {
    if hasAddr && hasTicker then name in UserOnly || name in TickerTools
    else if hasAddr then name in UserOnly
    else if hasTicker then name in TickerTools
    else name in GlobalOnly
  }

  /** The three groups are pairwise disjoint, so a global tool is never
      offered once an address or a ticker is present. */
  lemma GroupsDisjoint()
    ensures UserOnly * GlobalOnly == {}
    ensures UserOnly * TickerTools == {}
    ensures GlobalOnly * TickerTools == {}
  {
  }

  lemma GlobalOnlyWithoutContext(name: string, hasAddr: bool, hasTicker: bool)
    requires name in GlobalOnly && (hasAddr || hasTicker)
    ensures !Allowed(name, hasAddr, hasTicker)
  {
    GroupsDisjoint();
    assert name !in UserOnly && name !in TickerTools;
  }

  // ---------------------------------------------------------------------------
  // Asks up to a target price

  /** `level[k]` on a decoded JSON value: lists and strings are indexable,
      anything else raises. */
  function Index(level: Json, k: nat): Option<Json> {
    match level
    case JList(items) => if k < |items| then Some(items[k]) else None
    case JStr(s) => if k < |s| then Some(JStr([s[k]])) else None
    case _ => None
  }

  /** `px, sz = level[0], level[1]` then `float()` on each. */
  function ParseLevel(level: Json): (r: Option<(real, real)>)
    ensures r.Some? ==> Index(level, 0).Some? && Index(level, 1).Some?
  {
    match (Index(level, 0), Index(level, 1))
    case (Some(px), Some(sz)) =>
      (match (PyFloat(px), PyFloat(sz))
       case (Some(p), Some(q)) => Some((p, q))
       case _ => None)
    case _ => None
  }

  /** The keys of a decoded dict in iteration order: a key repeated in the
      JSON text is kept once, at its first position, as `json.loads`
      builds the dict. */
  function DictKeys(fields: seq<(string, Json)>): (ks: seq<string>)
    ensures Distinct(ks)
    ensures forall k :: k in ks <==> HasKey(fields, k)
  {
    var names := seq(|fields|, i requires 0 <= i < |fields| => fields[i].0);
    assert forall k :: k in names <==> HasKey(fields, k) by {
      forall k | HasKey(fields, k)
        ensures k in names
      {
        var i :| 0 <= i < |fields| && fields[i].0 == k;
        assert names[i] == k;
      }
    }
    Dedup(names)
  }

  /** Iterating `asks or []`: lists yield their items, strings their
      characters, dicts their keys; a truthy number or boolean is not
      iterable and raises. */
  function Iterate(asks: Json): Option<seq<Json>> {
    if !Truthy(asks) then Some([])
    else match asks
      case JList(items) => Some(items)
      case JStr(s) => Some(seq(|s|, i requires 0 <= i < |s| => JStr([s[i]])))
      case JObj(fields) =>
        var ks := DictKeys(fields);
        Some(seq(|ks|, i requires 0 <= i < |ks| => JStr(ks[i])))
      case _ => None
  }

  /** One turn of the summation loop: a level that raises wipes out the
      sum, a level above the target stops it, any other level is added to
      what the rest of the loop gives. */
  function Step(level: Option<(real, real)>, target: real, tail: Option<(real, real)>): Option<(real, real)> {
    match level
    case None => None
    case Some(l) =>
      if l.0 > target then Some((0.0, 0.0))
      else match tail
        case None => None
        case Some(t) => Some((l.1 + t.0, Value(l) + t.1))
  }

  /** The summation loop from the front: `None` when some level it reaches
      raises; it stops at the first level priced above the target. */
  function SumTo(levels: seq<Json>, target: real, parse: Json -> Option<(real, real)>): (r: Option<(real, real)>)
    decreases |levels|
  {
    if |levels| == 0 then Some((0.0, 0.0))
    else Step(parse(levels[0]), target, SumTo(levels[1..], target, parse))
  }

  /** `(units, notional)` of the asks-to-price summary: zero when there is
      no target, and both reset to zero when the loop raises. */
  function AsksToPrice(target: Option<real>, asks: Json): (r: (real, real))
    ensures target.None? ==> r == (0.0, 0.0)
  {
    if target.None? then (0.0, 0.0)
    else match Iterate(asks)
      case None => (0.0, 0.0)
      case Some(levels) =>
        match SumTo(levels, target.value, ParseLevel)
        case None => (0.0, 0.0)
        case Some(t) => t
  }

  /** Independent reading of the loop: the longest prefix of levels priced
      at or below the target. */
  function StopIndex(levels: seq<(real, real)>, target: real): (k: nat)
    ensures k <= |levels|
    ensures forall i :: 0 <= i < k ==> levels[i].0 <= target
    ensures k < |levels| ==> levels[k].0 > target
    decreases |levels|
  {
    if |levels| == 0 || levels[0].0 > target then 0 else 1 + StopIndex(levels[1..], target)
  }

  function Units(levels: seq<(real, real)>): real
    decreases |levels|
  {
    if |levels| == 0 then 0.0 else levels[0].1 + Units(levels[1..])
  }

  /** Price times size of one level. */
  function Value(level: (real, real)): real {
    level.0 * level.1
  }

  function Cost(levels: seq<(real, real)>): real
    decreases |levels|
  {
    if |levels| == 0 then 0.0 else Value(levels[0]) + Cost(levels[1..])
  }

  /** When every level parses, the loop sums size and price times size over
      exactly the longest prefix priced at or below the target. */
  lemma {:induction false} SumToIsPrefixSum(levels: seq<Json>, parsed: seq<(real, real)>, target: real,
                                            parse: Json -> Option<(real, real)>)
    requires |parsed| == |levels|
    requires forall i :: 0 <= i < |levels| ==> parse(levels[i]) == Some(parsed[i])
    ensures var k := StopIndex(parsed, target);
      SumTo(levels, target, parse) == Some((Units(parsed[..k]), Cost(parsed[..k])))
    decreases |levels|
  {
    if |levels| > 0 {
      assert parse(levels[0]) == Some(parsed[0]);
      if parsed[0].0 <= target {
        assert forall i :: 0 <= i < |levels| - 1 ==> parse(levels[1..][i]) == Some(parsed[1..][i]) by {
          forall i | 0 <= i < |levels| - 1
            ensures parse(levels[1..][i]) == Some(parsed[1..][i])
          {
            assert levels[1..][i] == levels[i + 1];
          }
        }
        SumToIsPrefixSum(levels[1..], parsed[1..], target, parse);
        var k' := StopIndex(parsed[1..], target);
        assert SumTo(levels[1..], target, parse) == Some((Units(parsed[1..][..k']), Cost(parsed[1..][..k'])));
        PrefixSumStep(parsed, target);
      } else {
        assert parsed[..0] == [];
      }
    }
  }

  /** Peeling the first level off the prefix sums. */
  lemma PrefixSumStep(parsed: seq<(real, real)>, target: real)
    requires |parsed| > 0 && parsed[0].0 <= target
    ensures var k := StopIndex(parsed, target);
      var k' := StopIndex(parsed[1..], target);
      && k == 1 + k'
      && Units(parsed[..k]) == parsed[0].1 + Units(parsed[1..][..k'])
      && Cost(parsed[..k]) == Value(parsed[0]) + Cost(parsed[1..][..k'])
  {
    var k := StopIndex(parsed, target);
    assert parsed[..k][1..] == parsed[1..][..k - 1];
  }

  /** A level that fails to parse before the stop wipes out the whole sum. */
  lemma {:induction false} BadLevelResets(levels: seq<Json>, target: real, parse: Json -> Option<(real, real)>, j: nat)
    requires j < |levels| && parse(levels[j]).None?
    requires forall i :: 0 <= i < j ==> parse(levels[i]).Some? && parse(levels[i]).value.0 <= target
    ensures SumTo(levels, target, parse).None?
    decreases j
  {
    if j > 0 {
      BadLevelResets(levels[1..], target, parse, j - 1);
    }
  }

  /** For the asks summary that means both totals read zero. */
  lemma BadAskResets(levels: seq<Json>, target: real, j: nat)
    requires j < |levels| && ParseLevel(levels[j]).None?
    requires forall i :: 0 <= i < j ==> ParseLevel(levels[i]).Some? && ParseLevel(levels[i]).value.0 <= target
    ensures AsksToPrice(Some(target), JList(levels)) == (0.0, 0.0)
  {
    BadLevelResets(levels, target, ParseLevel, j);
  }

  /** Levels after the first one above the target are never read. */
  lemma {:induction false} StopIgnoresTail(levels: seq<Json>, rest: seq<Json>, target: real, parse: Json -> Option<(real, real)>)
    requires |levels| > 0 && parse(levels[|levels| - 1]).Some?
    requires parse(levels[|levels| - 1]).value.0 > target
    ensures SumTo(levels + rest, target, parse) == SumTo(levels, target, parse)
    decreases |levels|
  {
    assert (levels + rest)[0] == levels[0];
    if |levels| > 1 {
      assert (levels + rest)[1..] == levels[1..] + rest;
      assert levels[1..][|levels| - 2] == levels[|levels| - 1];
      StopIgnoresTail(levels[1..], rest, target, parse);
    }
  }

  /** With a target and a book whose levels all parse, the summary is the
      size and the cost of the longest prefix at or below the target. */
  lemma AsksToPriceIsPrefixSum(levels: seq<Json>, parsed: seq<(real, real)>, target: real)
    requires |parsed| == |levels|
    requires forall i :: 0 <= i < |levels| ==> ParseLevel(levels[i]) == Some(parsed[i])
    ensures var k := StopIndex(parsed, target);
      AsksToPrice(Some(target), JList(levels)) == (Units(parsed[..k]), Cost(parsed[..k]))
  {
    SumToIsPrefixSum(levels, parsed, target, ParseLevel);
  }

  /** The asks of the order-book response: `data.get("asks")` when `data`
      is a dict (`null` when the key is missing), `[]` otherwise. */
  function AsksOf(res: Json): (asks: Json)
    ensures !res.JObj? || !Get(res, "data").JObj? ==> asks == JList([])
    ensures res.JObj? && Get(res, "data").JObj? ==> asks == Lookup(Get(res, "data").fields, "asks")
  {
    var data := if res.JObj? then Get(res, "data") else JNull;
    if data.JObj? then Get(data, "asks") else JList([])
  }

  /** The `asks_to_price` payload for a given target: the target and the
      totals over the asks of the response. */
  function SummaryFor(target: Option<real>, res: Json): (r: (Option<real>, real, real))
    ensures r.0 == target
    ensures target.None? ==> r.1 == 0.0 && r.2 == 0.0
  {
    var t := AsksToPrice(target, AsksOf(res));
    (target, t.0, t.1)
  }

  /** The payload as the program computes it: the target comes from the
      parse as written, so a plain number of more than three digits is
      truncated (see `TargetPrice.AsWrittenTruncatesPlainNumbers`). */
  function AsksSummary(prompt: string, res: Json): (r: (Option<real>, real, real))
    ensures r.0 == TargetPrice.ParseTargetPriceAsWritten(prompt)
    ensures r.0.None? ==> r.1 == 0.0 && r.2 == 0.0
    ensures !TargetPrice.HasKeyword(prompt) ==> r.1 == 0.0 && r.2 == 0.0
  {
    SummaryFor(TargetPrice.ParseTargetPriceAsWritten(prompt), res)
  }

  /** Reading the target with the corrected parse changes the payload only
      when the first number of the prompt starts with more than three
      digits. */
  lemma AsksSummaryCorrectionConservative(prompt: string, res: Json)
    requires TargetPrice.FirstDigit(prompt).Some? ==> DigitRun(prompt, TargetPrice.FirstDigit(prompt).value) <= 3
    ensures AsksSummary(prompt, res) == SummaryFor(TargetPrice.ParseTargetPrice(prompt), res)
  {
    if TargetPrice.FirstDigit(prompt).Some? {
      TargetPrice.CorrectedAgreesOnGrouped(prompt, TargetPrice.FirstDigit(prompt).value);
    }
  }

  /** `_b_asks_to_price`: an order-book call for the first ticker, only
      when the prompt names a ticker and a target price. */
  function AsksToPriceCoin(prompt: string): (r: Option<string>)
    ensures r.Some? <==>
      |Tickers.ExtractTickers(prompt)| > 0 && TargetPrice.ParseTargetPriceAsWritten(prompt).Some?
    ensures r.Some? ==> r.value == Tickers.ExtractTickers(prompt)[0] && Tickers.IsTicker(r.value)
  {
    var tickers := Tickers.ExtractTickers(prompt);
    if |tickers| == 0 || TargetPrice.ParseTargetPriceAsWritten(prompt).None? then None
    else Some(tickers[0])
  }

  // ---------------------------------------------------------------------------
  // Emitted lines

  /** What happened to one ranked tool once it was allowed: no call (the
      builder gave nothing, or the builder or the call raised), a response
      with `ok` false, or one summary line. */
  datatype Outcome = NoCall | NotOk | Line(text: string)

  datatype RankedTool = RankedTool(name: string, outcome: Outcome)

  /** The ranking loop: stop once `used` reaches `maxTools`; skip tools the
      context does not allow and tools without a line; every line counts. */
  function EmitFrom(ranked: seq<RankedTool>, maxTools: int, hasAddr: bool, hasTicker: bool, used: nat)
    : (r: (seq<string>, nat))
    decreases |ranked|
  {
    if |ranked| == 0 || used >= maxTools then ([], used)
    else
      var t := ranked[0];
      if !Allowed(t.name, hasAddr, hasTicker) || !t.outcome.Line? then
        EmitFrom(ranked[1..], maxTools, hasAddr, hasTicker, used)
      else
        var (rest, u) := EmitFrom(ranked[1..], maxTools, hasAddr, hasTicker, used + 1);
        ([t.outcome.text] + rest, u)
  }

  function Emit(ranked: seq<RankedTool>, maxTools: int, hasAddr: bool, hasTicker: bool): (seq<string>, nat) {
    EmitFrom(ranked, maxTools, hasAddr, hasTicker, 0)
  }

  /** The lines the allowed tools would give, in ranking order, ignoring the cap. */
  function Candidates(ranked: seq<RankedTool>, hasAddr: bool, hasTicker: bool): (r: seq<string>)
    ensures |r| <= |ranked|
    decreases |ranked|
  {
    if |ranked| == 0 then []
    else
      var t := ranked[0];
      var rest := Candidates(ranked[1..], hasAddr, hasTicker);
      if Allowed(t.name, hasAddr, hasTicker) && t.outcome.Line? then [t.outcome.text] + rest else rest
  }

  /** The number of lines is `used`, and the lines are the first
      `maxTools - used0` candidates. */
  lemma {:induction false} EmitFromTakesCandidates(ranked: seq<RankedTool>, maxTools: int, hasAddr: bool, hasTicker: bool, used: nat)
    ensures var (lines, u) := EmitFrom(ranked, maxTools, hasAddr, hasTicker, used);
      && u == used + |lines|
      && lines == PyTake(Candidates(ranked, hasAddr, hasTicker), if used >= maxTools then 0 else maxTools - used)
    decreases |ranked|
  {
    if |ranked| > 0 && used < maxTools {
      EmitFromTakesCandidates(ranked[1..], maxTools, hasAddr, hasTicker, used + 1);
      EmitFromTakesCandidates(ranked[1..], maxTools, hasAddr, hasTicker, used);
    }
  }

  /** The emitted text has exactly `used` lines, never more than `maxTools`,
      and they are the leading lines of the allowed tools in ranking order. */
  lemma EmitCounts(ranked: seq<RankedTool>, maxTools: int, hasAddr: bool, hasTicker: bool)
    ensures var (lines, used) := Emit(ranked, maxTools, hasAddr, hasTicker);
      && used == |lines|
      && (maxTools >= 0 ==> used <= maxTools)
      && lines == PyTake(Candidates(ranked, hasAddr, hasTicker), if maxTools <= 0 then 0 else maxTools)
  {
    EmitFromTakesCandidates(ranked, maxTools, hasAddr, hasTicker, 0);
  }
}
