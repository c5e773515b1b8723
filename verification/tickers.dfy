/** The `$TICKER` extractor shared by the market-data router and the tool
    selector: `(?<![A-Za-z0-9_])\$([A-Z]{2,10})\b` found left to right in the
    upper-cased text, then de-duplicated in first-occurrence order. The regex
    is written out as a per-position predicate over ASCII characters. */
module Tickers {
  import opened Seqs
  import opened Text

  /** Length of the run of ASCII capitals starting at `j`. */
  function UpperRun(s: string, j: nat): (n: nat)
    requires j <= |s|
    ensures j + n <= |s|
    ensures forall k :: j <= k < j + n ==> IsAsciiUpper(s[k])
    ensures j + n == |s| || !IsAsciiUpper(s[j + n])
    decreases |s| - j
  {
    if j == |s| || !IsAsciiUpper(s[j]) then 0 else 1 + UpperRun(s, j + 1)
  }

  /** The pattern matches at `i`: a `$` not preceded by a word character,
      then 2 to 10 capitals that end at a word boundary. Backtracking inside
      `[A-Z]{2,10}` cannot help, since a shorter run is always followed by
      another capital. */
  predicate TickerAt(s: string, i: nat)
    requires i < |s|
  {
    && s[i] == '$'
    && (i == 0 || !IsWordChar(s[i - 1]))
    && var n := UpperRun(s, i + 1);
       2 <= n <= 10 && (i + 1 + n == |s| || !IsWordChar(s[i + 1 + n]))
  }

  /** The captured group of a match at `i`. */
  function TickerText(s: string, i: nat): string
    requires i < |s| && TickerAt(s, i)
  {
    s[i + 1..i + 1 + UpperRun(s, i + 1)]
  }

  /** A well-formed ticker: 2 to 10 ASCII capitals. */
  predicate IsTicker(t: string) {
    2 <= |t| <= 10 && forall k :: 0 <= k < |t| ==> IsAsciiUpper(t[k])
  }

  /** `findall` from position `i` on. A match consumes only `$` and
      capitals, so no match can hide another and each position is tried on
      its own. */
  function FindAll(s: string, i: nat): (r: seq<string>)
    requires i <= |s|
    ensures forall k :: 0 <= k < |r| ==> IsTicker(r[k])
    decreases |s| - i
  {
    if i == |s| then []
    else (if TickerAt(s, i) then [TickerText(s, i)] else []) + FindAll(s, i + 1)
  }

  /** Exactly the captured groups of the matches at or after `i` are found. */
  lemma {:induction false} FindAllIff(s: string, i: nat, t: string)
    requires i <= |s|
    ensures t in FindAll(s, i) <==> exists k :: i <= k < |s| && TickerAt(s, k) && TickerText(s, k) == t
    decreases |s| - i
  {
    if i < |s| {
      FindAllIff(s, i + 1, t);
    }
  }

  /** `extract_tickers` and `_extract_tickers`. */
  function ExtractTickers(text: string): (r: seq<string>)
    ensures Distinct(r)
    ensures forall k :: 0 <= k < |r| ==> IsTicker(r[k])
  {
    var all := FindAll(Upper(text), 0);
    assert forall x :: x in all ==> IsTicker(x);
    Dedup(all)
  }

  /** A ticker is reported exactly when the upper-cased text holds a match for it. */
  lemma ExtractTickersIff(text: string, t: string)
    ensures t in ExtractTickers(text) <==>
      exists k :: 0 <= k < |text| && TickerAt(Upper(text), k) && TickerText(Upper(text), k) == t
  {
    FindAllIff(Upper(text), 0, t);
  }

  /** Tickers come out in the order of their first mention. */
  lemma ExtractTickersOrder(text: string, i: nat, j: nat)
    requires i < j < |ExtractTickers(text)|
    ensures var all := FindAll(Upper(text), 0);
      var r := ExtractTickers(text);
      r[i] in all && r[j] in all && FirstIndex(all, r[i]) < FirstIndex(all, r[j])
  {
    DedupFirstOccurrenceOrder(FindAll(Upper(text), 0), i, j);
  }

  /** Case is ignored on the way in: `$btc` and `$BTC` name the same ticker. */
  lemma ExtractTickersIgnoresCase(text: string)
    ensures ExtractTickers(Upper(text)) == ExtractTickers(text)
  {
    assert Upper(Upper(text)) == Upper(text);
  }

  /** A mention glued to a word before it is no ticker. */
  lemma ExampleGluedToWord()
    ensures !TickerAt("a$ETH", 1)
  {
    assert IsWordChar("a$ETH"[0]);
  }

  /** A mention followed by a digit has no word boundary after it. */
  lemma ExampleDigitAfter()
    ensures !TickerAt("$ETH1", 0)
  {
    var s := "$ETH1";
    assert UpperRun(s, 4) == 0;
    assert UpperRun(s, 3) == 1;
    assert UpperRun(s, 2) == 2;
    assert UpperRun(s, 1) == 3;
  }

  /** Punctuation on both sides leaves a mention intact. */
  lemma ExampleParenthesised()
    ensures TickerAt("($ETH)", 1) && TickerText("($ETH)", 1) == "ETH"
  {
    var s := "($ETH)";
    assert UpperRun(s, 5) == 0;
    assert UpperRun(s, 4) == 1;
    assert UpperRun(s, 3) == 2;
    assert UpperRun(s, 2) == 3;
  }
}
