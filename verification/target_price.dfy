/** `_parse_target_price`: a target is read only when the lower-cased prompt
    says "until", "up to" or "to ", and it is the first number the price
    pattern `\$?\s*([0-9]{1,3}(?:,[0-9]{3})*(?:\.[0-9]+)?|[0-9]+(?:\.[0-9]+)?)`
    finds in the original text, with commas removed before `float()`.

    The pattern's optional `$` and spaces never contain a digit, so the
    leftmost match captures from the first digit of the text. Python tries
    the alternatives in order and the first one always succeeds on a digit,
    so the captured number is the comma-grouped reading: at most three
    leading digits. `AsWritten` models that; `Corrected` takes the longer of
    the two readings, which is what the pattern evidently means. */
module TargetPrice {
  import opened Wrappers
  import opened Seqs
  import opened Text
  import opened Json

  /** Index of the first digit of the text. */
  function FirstDigit(s: string): (r: Option<nat>)
    ensures r.None? <==> forall k :: 0 <= k < |s| ==> !IsDigit(s[k])
    ensures r.Some? ==> r.value < |s| && IsDigit(s[r.value])
    ensures r.Some? ==> forall k :: 0 <= k < r.value ==> !IsDigit(s[k])
    decreases |s|
  {
    if |s| == 0 then None
    else if IsDigit(s[0]) then Some(0)
    else match FirstDigit(s[1..])
      case None => None
      case Some(k) => Some(k + 1)
  }

  /** `(?:,[0-9]{3})*` from position `p`, greedy. */
  function CommaGroups(s: string, p: nat): (n: nat)
    requires p <= |s|
    ensures p + n <= |s|
    ensures p < |s| && s[p] != ',' ==> n == 0
    decreases |s| - p
  {
    if p + 4 <= |s| && s[p] == ',' && IsDigit(s[p + 1]) && IsDigit(s[p + 2]) && IsDigit(s[p + 3])
    then 4 + CommaGroups(s, p + 4)
    else 0
  }

  /** `(?:\.[0-9]+)?` from position `p`, greedy. */
  function Fraction(s: string, p: nat): (n: nat)
    requires p <= |s|
    ensures p + n <= |s|
    ensures p < |s| && s[p] != '.' ==> n == 0
  {
    if p + 1 < |s| && s[p] == '.' && IsDigit(s[p + 1]) then 1 + DigitRun(s, p + 1) else 0
  }

  function Min(a: nat, b: nat): nat {
    if a <= b then a else b
  }

  function Max(a: nat, b: nat): nat {
    if a >= b then a else b
  }

  /** End of the first alternative captured at the digit `d`. */
  function GroupedEnd(s: string, d: nat): (e: nat)
    requires d < |s| && IsDigit(s[d])
    ensures d < e <= |s|
  {
    var a := Min(3, DigitRun(s, d));
    var p := d + a + CommaGroups(s, d + a);
    p + Fraction(s, p)
  }

  /** End of the second alternative captured at the digit `d`. */
  function PlainEnd(s: string, d: nat): (e: nat)
    requires d < |s| && IsDigit(s[d])
    ensures d < e <= |s|
  {
    var p := d + DigitRun(s, d);
    p + Fraction(s, p)
  }

  /** End of the leftmost-longest capture at the digit `d`. */
  function CorrectedEnd(s: string, d: nat): (e: nat)
    requires d < |s| && IsDigit(s[d])
    ensures d < e <= |s|
  {
    Max(GroupedEnd(s, d), PlainEnd(s, d))
  }

  const Keywords: seq<string> := ["until", "up to", "to "]

  predicate HasKeyword(text: string) {
    exists i :: 0 <= i < |Keywords| && Contains(Lower(text), Keywords[i])
  }

  /** `float(group.replace(",", ""))`. */
  function GroupValue(group: string): Option<real> {
    ParseDecimal(RemoveChar(group, ','))
  }

  /** `_parse_target_price` as written. */
  function ParseTargetPriceAsWritten(text: string): (r: Option<real>)
    ensures !HasKeyword(text) ==> r.None?
    ensures FirstDigit(text).None? ==> r.None?
  {
    if !HasKeyword(text) then None
    else match FirstDigit(text)
      case None => None
      case Some(d) => GroupValue(text[d..GroupedEnd(text, d)])
  }

  /** The parse with the longer of the two readings. */
  function ParseTargetPrice(text: string): (r: Option<real>)
    ensures !HasKeyword(text) ==> r.None?
    ensures FirstDigit(text).None? ==> r.None?
  {
    if !HasKeyword(text) then None
    else match FirstDigit(text)
      case None => None
      case Some(d) => GroupValue(text[d..CorrectedEnd(text, d)])
  }

  /** With a keyword present, the parse reads the number at the first digit. */
  lemma ParseTargetPriceAt(text: string, d: nat)
    requires HasKeyword(text) && FirstDigit(text) == Some(d)
    ensures ParseTargetPrice(text) == GroupValue(text[d..CorrectedEnd(text, d)])
    ensures ParseTargetPriceAsWritten(text) == GroupValue(text[d..GroupedEnd(text, d)])
  {
  }

  /** A run of digits with nothing else around it parses to its value. */
  lemma ParseDecimalDigits(ds: string)
    requires |ds| > 0 && AllDigits(ds)
    ensures ParseDecimal(ds) == Some(DigitsValue(ds) as real)
  {
    assert ds[0] !in Whitespace;
    assert LStrip(ds, Whitespace) == ds;
    assert ds[|ds| - 1] !in Whitespace;
    assert RStrip(ds, Whitespace) == ds;
    ParseDigits(ds);
  }

  /** Removing a character that does not occur changes nothing. */
  lemma {:induction false} RemoveAbsentChar(s: string, c: char)
    requires c !in s
    ensures RemoveChar(s, c) == s
    decreases |s|
  {
    if |s| > 0 {
      assert c !in s[..|s| - 1];
      RemoveAbsentChar(s[..|s| - 1], c);
      assert s == s[..|s| - 1] + [s[|s| - 1]];
    }
  }

  /** A group of plain digits parses to its value. */
  lemma GroupDigits(g: string)
    requires |g| > 0 && AllDigits(g)
    ensures GroupValue(g) == Some(DigitsValue(g) as real)
  {
    assert ',' !in g;
    RemoveAbsentChar(g, ',');
    ParseDecimalDigits(g);
  }

  /** The first alternative stops after three digits of a longer run. */
  lemma GroupedEndOfLongRun(s: string, d: nat)
    requires d < |s| && IsDigit(s[d]) && DigitRun(s, d) > 3
    ensures GroupedEnd(s, d) == d + 3
  {
    assert CommaGroups(s, d + 3) == 0;
    assert Fraction(s, d + 3) == 0;
  }

  /** A run of digits followed by neither a comma nor a point is captured whole. */
  lemma CorrectedEndOfPlainRun(s: string, d: nat)
    requires d < |s| && IsDigit(s[d])
    requires var n := DigitRun(s, d); d + n == |s| || (s[d + n] != ',' && s[d + n] != '.')
    ensures CorrectedEnd(s, d) == d + DigitRun(s, d)
  {
    var n := DigitRun(s, d);
    var a := Min(3, n);
    if a < n {
      GroupedEndOfLongRun(s, d);
    } else {
      assert CommaGroups(s, d + a) == 0;
    }
    assert Fraction(s, d + n) == 0;
  }

  /** With at most three leading digits the first alternative is the longer one. */
  lemma CorrectedEndOfShortRun(s: string, d: nat)
    requires d < |s| && IsDigit(s[d]) && DigitRun(s, d) <= 3
    ensures CorrectedEnd(s, d) == GroupedEnd(s, d)
  {
    var n := DigitRun(s, d);
    if CommaGroups(s, d + n) > 0 {
      assert s[d + n] == ',';
      assert PlainEnd(s, d) == d + n;
    }
  }

  /** As written: a plain number of more than three digits is cut to its
      first three, so "up to 115000" reads as 115. */
  lemma AsWrittenTruncatesPlainNumbers(text: string, d: nat)
    requires HasKeyword(text) && FirstDigit(text) == Some(d) && DigitRun(text, d) > 3
    ensures AllDigits(text[d..d + 3])
    ensures ParseTargetPriceAsWritten(text) == Some(DigitsValue(text[d..d + 3]) as real)
  {
    ParseTargetPriceAt(text, d);
    LongRunGroup(text, d);
  }

  /** The as-written reading of a run of more than three digits is the value
      of its first three. */
  lemma LongRunGroup(text: string, d: nat)
    requires d < |text| && IsDigit(text[d]) && DigitRun(text, d) > 3
    ensures AllDigits(text[d..d + 3])
    ensures GroupValue(text[d..GroupedEnd(text, d)]) == Some(DigitsValue(text[d..d + 3]) as real)
  {
    assert text[d..GroupedEnd(text, d)] == text[d..d + 3] by {
      GroupedEndOfLongRun(text, d);
    }
    GroupDigits(text[d..d + 3]);
  }

  /** Corrected: a plain number that is not followed by a comma or a decimal
      point parses to its whole value. */
  lemma CorrectedReadsPlainNumbers(text: string, d: nat, n: nat)
    requires HasKeyword(text) && FirstDigit(text) == Some(d) && n == DigitRun(text, d)
    requires d + n == |text| || (text[d + n] != ',' && text[d + n] != '.')
    ensures AllDigits(text[d..d + n])
    ensures ParseTargetPrice(text) == Some(DigitsValue(text[d..d + n]) as real)
  {
    ParseTargetPriceAt(text, d);
    PlainRunGroup(text, d, n);
  }

  /** The corrected reading of a plain run of digits is its value. */
  lemma PlainRunGroup(text: string, d: nat, n: nat)
    requires d < |text| && IsDigit(text[d]) && n == DigitRun(text, d)
    requires d + n == |text| || (text[d + n] != ',' && text[d + n] != '.')
    ensures AllDigits(text[d..d + n])
    ensures GroupValue(text[d..CorrectedEnd(text, d)]) == Some(DigitsValue(text[d..d + n]) as real)
  {
    assert text[d..CorrectedEnd(text, d)] == text[d..d + n] by {
      CorrectedEndOfPlainRun(text, d);
    }
    GroupDigits(text[d..d + n]);
  }

  /** The correction keeps every reading the first alternative already got
      right: with at most three leading digits, grouped numbers such as
      "115,000.5" parse exactly as before. */
  lemma CorrectedAgreesOnGrouped(text: string, d: nat)
    requires FirstDigit(text) == Some(d) && DigitRun(text, d) <= 3
    ensures ParseTargetPrice(text) == ParseTargetPriceAsWritten(text)
  {
    CorrectedEndOfShortRun(text, d);
  }

}
