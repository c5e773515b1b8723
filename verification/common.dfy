/** Shared vocabulary of the model: optional values, sequence helpers that
    mirror Python's slicing and summing, and the character-level string
    operations (whitespace stripping, ASCII case mapping, substring search)
    that the parsers and chunkers are built from. */

module Wrappers {

  /** Python's `None` or a present value. */
  datatype Option<+T> = None | Some(value: T) {
    function GetOr(default: T): T {
      match this
      case Some(v) => v
      case None => default
    }
  }
}

module Seqs {
  import opened Wrappers

  /** Python's `sum(xs)` over reals, accumulated left to right. */
  function Sum(xs: seq<real>): real
    decreases |xs|
  {
    if |xs| == 0 then 0.0 else Sum(xs[..|xs| - 1]) + xs[|xs| - 1]
  }

  lemma {:induction false} SumAppend(xs: seq<real>, ys: seq<real>)
    ensures Sum(xs + ys) == Sum(xs) + Sum(ys)
    decreases |ys|
  {
    if |ys| == 0 {
      assert xs + ys == xs;
    } else {
      var zs := xs + ys;
      assert zs[..|zs| - 1] == xs + ys[..|ys| - 1];
      SumAppend(xs, ys[..|ys| - 1]);
    }
  }

  lemma {:induction false} SumNonNegative(xs: seq<real>)
    requires forall i :: 0 <= i < |xs| ==> xs[i] >= 0.0
    ensures Sum(xs) >= 0.0
    decreases |xs|
  {
    if |xs| > 0 {
      SumNonNegative(xs[..|xs| - 1]);
    }
  }

  /** Python's `xs[:k]` for any integer `k`: a negative bound counts from the end. */
  function PyTake<T>(xs: seq<T>, k: int): (r: seq<T>)
    ensures |r| <= |xs|
    ensures r == xs[..|r|]
    ensures 0 <= k ==> |r| == if k <= |xs| then k else |xs|
  {
    if k >= 0 then (if k <= |xs| then xs[..k] else xs)
    else if |xs| + k >= 0 then xs[..|xs| + k]
    else []
  }

  /** Python's `xs[k:]` for any integer `k`. */
  function PyDrop<T>(xs: seq<T>, k: int): (r: seq<T>)
    ensures |r| <= |xs|
    ensures r == xs[|xs| - |r|..]
    ensures 0 <= k <= |xs| ==> |r| == |xs| - k
    ensures k < 0 && -k <= |xs| ==> |r| == -k
  {
    if k >= 0 then (if k <= |xs| then xs[k..] else [])
    else if |xs| + k >= 0 then xs[|xs| + k..]
    else xs
  }

  /** Python's `xs[i:j]` for `0 <= i`, clamped at the end of the sequence. */
  function Slice<T>(xs: seq<T>, i: nat, j: nat): (r: seq<T>)
    ensures |r| <= |xs|
    ensures i <= j <= |xs| ==> r == xs[i..j]
  {
    if i >= |xs| || j <= i then [] else if j <= |xs| then xs[i..j] else xs[i..]
  }

  predicate Distinct<T(==)>(xs: seq<T>) {
    forall i, j :: 0 <= i < j < |xs| ==> xs[i] != xs[j]
  }

  /** Index of the first occurrence of `x` in `xs`. */
  function FirstIndex<T(==)>(xs: seq<T>, x: T): (k: nat)
    requires x in xs
    ensures k < |xs| && xs[k] == x
    ensures forall i :: 0 <= i < k ==> xs[i] != x
  {
    if xs[0] == x then 0 else 1 + FirstIndex(xs[1..], x)
  }

  /** The "seen set" loop: keep each element the first time it appears. */
  function Dedup<T(==,!new)>(xs: seq<T>): (r: seq<T>)
    ensures Distinct(r)
    ensures forall x :: x in r <==> x in xs
    ensures |r| <= |xs|
    decreases |xs|
  {
    if |xs| == 0 then []
    else
      var d := Dedup(xs[..|xs| - 1]);
      var x := xs[|xs| - 1];
      assert forall y :: y in xs <==> y in xs[..|xs| - 1] || y == x;
      if x in d then d else d + [x]
  }

  lemma {:induction false} FirstIndexPrefix<T>(xs: seq<T>, n: nat, x: T)
    requires n <= |xs| && x in xs[..n]
    ensures x in xs && FirstIndex(xs, x) == FirstIndex(xs[..n], x)
  {
    var k := FirstIndex(xs[..n], x);
    assert xs[k] == x;
    assert forall i :: 0 <= i < k ==> xs[i] == xs[..n][i];
    FirstIndexUnique(xs, x, k);
  }

  /** The first occurrence is the only index with no earlier occurrence. */
  lemma FirstIndexUnique<T>(xs: seq<T>, x: T, k: nat)
    requires k < |xs| && xs[k] == x
    requires forall i :: 0 <= i < k ==> xs[i] != x
    ensures FirstIndex(xs, x) == k
  {
    var k' := FirstIndex(xs, x);
    assert k' <= k;
    assert k <= k';
  }

  /** `Dedup` keeps first-occurrence order: of two kept elements, the one
      that appears first in the input comes first in the output. */
  lemma {:induction false} DedupFirstOccurrenceOrder<T(!new)>(xs: seq<T>, i: nat, j: nat)
    requires i < j < |Dedup(xs)|
    ensures Dedup(xs)[i] in xs && Dedup(xs)[j] in xs
    ensures FirstIndex(xs, Dedup(xs)[i]) < FirstIndex(xs, Dedup(xs)[j])
    decreases |xs|, 1
  {
    DedupPrefixKept(xs, i, j);
    if j < |Dedup(xs[..|xs| - 1])| {
      DedupOrderWithinPrefix(xs, i, j);
    } else {
      DedupAppendedLast(xs, Dedup(xs[..|xs| - 1])[i]);
    }
  }

  /** The inductive step for two elements already kept from the prefix. */
  lemma {:induction false} DedupOrderWithinPrefix<T(!new)>(xs: seq<T>, i: nat, j: nat)
    requires |xs| > 0 && i < j < |Dedup(xs[..|xs| - 1])| && j < |Dedup(xs)|
    requires Dedup(xs)[i] == Dedup(xs[..|xs| - 1])[i] && Dedup(xs)[j] == Dedup(xs[..|xs| - 1])[j]
    ensures Dedup(xs)[i] in xs && Dedup(xs)[j] in xs
    ensures FirstIndex(xs, Dedup(xs)[i]) < FirstIndex(xs, Dedup(xs)[j])
    decreases |xs|, 0
  {
    var pre := xs[..|xs| - 1];
    var d := Dedup(pre);
    DedupFirstOccurrenceOrder(pre, i, j);
    FirstIndexOrderPrefix(xs, |xs| - 1, d[i], d[j]);
  }

  /** First-occurrence order within a prefix carries over to the whole sequence. */
  lemma FirstIndexOrderPrefix<T>(xs: seq<T>, n: nat, a: T, b: T)
    requires n <= |xs| && a in xs[..n] && b in xs[..n]
    requires FirstIndex(xs[..n], a) < FirstIndex(xs[..n], b)
    ensures a in xs && b in xs && FirstIndex(xs, a) < FirstIndex(xs, b)
  {
    FirstIndexPrefix(xs, n, a);
    FirstIndexPrefix(xs, n, b);
  }

  /** How one more element changes `Dedup`: the earlier kept elements keep
      their places, and a kept element past them is the new, unseen last one. */
  lemma DedupPrefixKept<T(!new)>(xs: seq<T>, i: nat, j: nat)
    requires i < j < |Dedup(xs)|
    ensures |xs| > 0
    ensures i < |Dedup(xs[..|xs| - 1])|
    ensures Dedup(xs)[i] == Dedup(xs[..|xs| - 1])[i]
    ensures j < |Dedup(xs[..|xs| - 1])| ==> Dedup(xs)[j] == Dedup(xs[..|xs| - 1])[j]
    ensures j >= |Dedup(xs[..|xs| - 1])| ==>
      Dedup(xs)[j] == xs[|xs| - 1] && xs[|xs| - 1] !in xs[..|xs| - 1]
  {
  }

  /** An element added at the end of the kept list first occurs after every
      element of the earlier prefix. */
  lemma DedupAppendedLast<T(!new)>(xs: seq<T>, a: T)
    requires |xs| > 0 && xs[|xs| - 1] !in xs[..|xs| - 1] && a in xs[..|xs| - 1]
    ensures a in xs && xs[|xs| - 1] in xs
    ensures FirstIndex(xs, a) < FirstIndex(xs, xs[|xs| - 1])
  {
    var pre := xs[..|xs| - 1];
    var x := xs[|xs| - 1];
    FirstIndexPrefix(xs, |xs| - 1, a);
    assert FirstIndex(pre, a) < |pre|;
    forall k | 0 <= k < |xs| - 1
      ensures xs[k] != x
    {
      assert xs[k] == pre[k];
    }
    FirstIndexUnique(xs, x, |xs| - 1);
  }

  /** Concatenation of a sequence of sequences, Python's `chain(*xss)`. */
  function Flatten<T>(xss: seq<seq<T>>): seq<T>
    decreases |xss|
  {
    if |xss| == 0 then [] else Flatten(xss[..|xss| - 1]) + xss[|xss| - 1]
  }

  lemma {:induction false} FlattenAppend<T>(a: seq<seq<T>>, b: seq<seq<T>>)
    ensures Flatten(a + b) == Flatten(a) + Flatten(b)
    decreases |b|
  {
    if |b| == 0 {
      assert a + b == a;
    } else {
      var init, last := b[..|b| - 1], b[|b| - 1];
      assert (a + b)[..|a + b| - 1] == a + init && (a + b)[|a + b| - 1] == last;
      assert Flatten(a + b) == Flatten(a + init) + last;
      FlattenAppend(a, init);
      assert Flatten(b) == Flatten(init) + last;
    }
  }

  lemma FlattenCons<T>(x: seq<T>, rest: seq<seq<T>>)
    ensures Flatten([x] + rest) == x + Flatten(rest)
  {
    FlattenAppend([x], rest);
    assert [x][..0] == [];
  }

  /** Index of the first element at or after `i` that satisfies `p`. */
  function FirstWhere<T>(xs: seq<T>, i: nat, p: T -> bool): (r: Option<nat>)
    requires i <= |xs|
    ensures r.None? <==> forall k :: i <= k < |xs| ==> !p(xs[k])
    ensures r.Some? ==> i <= r.value < |xs| && p(xs[r.value])
    ensures r.Some? ==> forall k :: i <= k < r.value ==> !p(xs[k])
    decreases |xs| - i
  {
    if i == |xs| then None
    else if p(xs[i]) then Some(i)
    else FirstWhere(xs, i + 1, p)
  }

  lemma FirstWhereIsFirst<T>(xs: seq<T>, p: T -> bool, k: nat)
    requires k < |xs| && p(xs[k])
    requires forall j :: 0 <= j < k ==> !p(xs[j])
    ensures FirstWhere(xs, 0, p) == Some(k)
  {
  }

  /** `a` can be read off `b` by skipping some of its elements. */
  predicate IsSubsequence<T(==)>(a: seq<T>, b: seq<T>)
    decreases |b|
  {
    |a| == 0 || (|b| > 0 && ((a[0] == b[0] && IsSubsequence(a[1..], b[1..])) || IsSubsequence(a, b[1..])))
  }

  /** `sep.join(parts)`. */
  function Join<T>(parts: seq<seq<T>>, sep: seq<T>): seq<T>
    decreases |parts|
  {
    if |parts| == 0 then []
    else if |parts| == 1 then parts[0]
    else Join(parts[..|parts| - 1], sep) + sep + parts[|parts| - 1]
  }

  /** A loop that appends `f(x)` for each `x` whose conversion succeeds and
      skips the others. */
  function FilterMap<A, B>(xs: seq<A>, f: A -> Option<B>): (r: seq<B>)
    ensures |r| <= |xs|
    decreases |xs|
  {
    if |xs| == 0 then []
    else
      var rest := FilterMap(xs[..|xs| - 1], f);
      match f(xs[|xs| - 1])
      case Some(v) => rest + [v]
      case None => rest
  }

  /** Skipping is local: the result on a concatenation is the results on the
      parts, in order. */
  lemma {:induction false} FilterMapAppend<A, B>(a: seq<A>, b: seq<A>, f: A -> Option<B>)
    ensures FilterMap(a + b, f) == FilterMap(a, f) + FilterMap(b, f)
    decreases |b|
  {
    if |b| > 0 {
      var n := |b| - 1;
      assert (a + b)[..|a + b| - 1] == a + b[..n];
      assert (a + b)[|a + b| - 1] == b[n];
      FilterMapAppend(a, b[..n], f);
    } else {
      assert a + b == a;
    }
  }

  /** Every kept value is the conversion of some element. */
  lemma {:induction false} FilterMapSource<A, B>(xs: seq<A>, f: A -> Option<B>, i: nat) returns (k: nat)
    requires i < |FilterMap(xs, f)|
    ensures k < |xs| && f(xs[k]) == Some(FilterMap(xs, f)[i])
    decreases |xs|
  {
    var n := |xs| - 1;
    var rest := FilterMap(xs[..n], f);
    if i < |rest| {
      k := FilterMapSource(xs[..n], f, i);
    } else {
      k := n;
    }
  }

  /** A single element is kept exactly when its conversion succeeds. */
  lemma FilterMapOne<A, B>(x: A, f: A -> Option<B>)
    ensures FilterMap([x], f) == if f(x).Some? then [f(x).value] else []
  {
    assert [x][..0] == [];
  }
}

module Text {
  import opened Seqs

  /** Python's `str.isspace`: `\t` to `\r`, `\x1c` to the space, and the
      Unicode spaces and separators. */
  predicate IsSpace(c: char) {
    || '\U{0009}' <= c <= '\U{000D}'
    || '\U{001C}' <= c <= '\U{0020}'
    || c == '\U{0085}' || c == '\U{00A0}' || c == '\U{1680}'
    || '\U{2000}' <= c <= '\U{200A}'
    || c == '\U{2028}' || c == '\U{2029}' || c == '\U{202F}' || c == '\U{205F}' || c == '\U{3000}'
  }

  /** The characters `str.strip()` removes. */
  const Whitespace: set<char> := set c: char | IsSpace(c)

  /** `s.lstrip(cs)`: drop leading characters that are in `cs`. */
  function LStrip(s: string, cs: set<char>): (r: string)
    ensures |r| <= |s| && r == s[|s| - |r|..]
    ensures |r| > 0 ==> r[0] !in cs
    ensures forall i :: 0 <= i < |s| - |r| ==> s[i] in cs
    decreases |s|
  {
    if |s| > 0 && s[0] in cs then LStrip(s[1..], cs) else s
  }

  /** `s.rstrip(cs)`: drop trailing characters that are in `cs`. */
  function RStrip(s: string, cs: set<char>): (r: string)
    ensures |r| <= |s| && r == s[..|r|]
    ensures |r| > 0 ==> r[|r| - 1] !in cs
    ensures forall i :: |r| <= i < |s| ==> s[i] in cs
    decreases |s|
  {
    if |s| > 0 && s[|s| - 1] in cs then RStrip(s[..|s| - 1], cs) else s
  }

  /** `s.strip(cs)`. */
  function StripChars(s: string, cs: set<char>): string {
    RStrip(LStrip(s, cs), cs)
  }

  /** `s.strip()`: remove surrounding whitespace. */
  function Strip(s: string): string {
    StripChars(s, Whitespace)
  }

  lemma StripBounds(s: string, cs: set<char>)
    ensures |StripChars(s, cs)| <= |s|
    ensures |StripChars(s, cs)| > 0 ==> StripChars(s, cs)[0] !in cs
    ensures |StripChars(s, cs)| > 0 ==> StripChars(s, cs)[|StripChars(s, cs)| - 1] !in cs
  {
    var l := LStrip(s, cs);
    var r := RStrip(l, cs);
    if |r| > 0 {
      assert r[0] == l[0];
    }
  }

  /** Stripping removes everything from a string made only of stripped characters. */
  lemma AllStrippedIsEmpty(s: string, cs: set<char>)
    requires forall i :: 0 <= i < |s| ==> s[i] in cs
    ensures StripChars(s, cs) == []
  {
  }

  /** Stripping cuts a slice out of the string. */
  lemma StripSlice(s: string, cs: set<char>) returns (a: nat)
    ensures a + |StripChars(s, cs)| <= |s|
    ensures StripChars(s, cs) == s[a..a + |StripChars(s, cs)|]
  {
    var l := LStrip(s, cs);
    a := |s| - |l|;
    var r := RStrip(l, cs);
    assert r == l[..|r|];
  }

  /** A string that starts with a kept character keeps it. */
  lemma StripKeepsFirst(s: string, cs: set<char>)
    requires |s| > 0 && s[0] !in cs
    ensures |StripChars(s, cs)| > 0 && StripChars(s, cs)[0] == s[0]
  {
    assert LStrip(s, cs) == s;
    var r := RStrip(s, cs);
    if |r| == 0 {
      assert false;
    }
  }

  /** Stripping `t + c` never reaches into `c` when `c` starts and ends
      with kept characters: the result is a suffix of `t` followed by `c`. */
  lemma StripBeforeKept(t: string, c: string, cs: set<char>) returns (m: nat)
    requires |c| > 0 && c[0] !in cs && c[|c| - 1] !in cs
    ensures m <= |t| && StripChars(t + c, cs) == t[m..] + c
  {
    var s := t + c;
    var l := LStrip(s, cs);
    m := |s| - |l|;
    assert s[|t|] == c[0] && s[|t|] !in cs;
    assert m <= |t|;
    assert l == t[m..] + c;
    assert l[|l| - 1] == c[|c| - 1];
    assert RStrip(l, cs) == l;
  }

  /** A string whose first and last characters are kept is its own strip. */
  lemma StripOfStripped(s: string, cs: set<char>)
    requires |s| > 0 ==> s[0] !in cs && s[|s| - 1] !in cs
    ensures StripChars(s, cs) == s
  {
  }

  predicate IsAsciiUpper(c: char) { 'A' <= c <= 'Z' }
  predicate IsAsciiLower(c: char) { 'a' <= c <= 'z' }
  predicate IsDigit(c: char) { '0' <= c <= '9' }
  predicate IsHexDigit(c: char) { IsDigit(c) || 'a' <= c <= 'f' || 'A' <= c <= 'F' }

  /** Length of the run of decimal digits starting at `j`. */
  function DigitRun(s: string, j: nat): (n: nat)
    requires j <= |s|
    ensures j + n <= |s|
    ensures forall k :: j <= k < j + n ==> IsDigit(s[k])
    ensures j + n == |s| || !IsDigit(s[j + n])
    decreases |s| - j
  {
    if j == |s| || !IsDigit(s[j]) then 0 else 1 + DigitRun(s, j + 1)
  }

  /** Regex `\w`, restricted to ASCII: letters, digits and underscore. */
  predicate IsWordChar(c: char) { IsAsciiUpper(c) || IsAsciiLower(c) || IsDigit(c) || c == '_' }

  function LowerChar(c: char): char {
    if IsAsciiUpper(c) then (c as int + 32) as char else c
  }

  function UpperChar(c: char): char {
    if IsAsciiLower(c) then (c as int - 32) as char else c
  }

  /** `s.lower()` on ASCII letters. */
  function Lower(s: string): (r: string)
    ensures |r| == |s|
    ensures forall i :: 0 <= i < |s| ==> r[i] == LowerChar(s[i])
  {
    seq(|s|, i requires 0 <= i < |s| => LowerChar(s[i]))
  }

  /** `s.upper()` on ASCII letters. */
  function Upper(s: string): (r: string)
    ensures |r| == |s|
    ensures forall i :: 0 <= i < |s| ==> r[i] == UpperChar(s[i])
  {
    seq(|s|, i requires 0 <= i < |s| => UpperChar(s[i]))
  }

  /** `\b0x[a-fA-F0-9]{n}\b` matches at `i`: a word boundary before the
      `0`, `0x`, exactly `n` hex digits and a word boundary after them. */
  predicate HexIdAt(s: string, i: nat, n: nat) {
    && i + 2 + n <= |s|
    && (i == 0 || !IsWordChar(s[i - 1]))
    && s[i] == '0' && s[i + 1] == 'x'
    && (forall k :: i + 2 <= k < i + 2 + n ==> IsHexDigit(s[k]))
    && (i + 2 + n == |s| || !IsWordChar(s[i + 2 + n]))
  }

  /** `\b0x[a-fA-F0-9]{64}\b`, a transaction hash, matches at `i`. */
  predicate HashAt(s: string, i: nat) {
    HexIdAt(s, i, 64)
  }

  /** `\b0x[a-fA-F0-9]{40}\b`, a wallet address, matches at `i`. */
  predicate AddressAt(s: string, i: nat) {
    HexIdAt(s, i, 40)
  }

  /** `needle in hay` for strings. */
  predicate Contains(hay: string, needle: string) {
    exists i :: 0 <= i <= |hay| - |needle| && OccursAt(hay, needle, i)
  }

  predicate OccursAt(hay: string, needle: string, i: int) {
    0 <= i <= |hay| - |needle| && hay[i..i + |needle|] == needle
  }

  predicate StartsWith(s: string, p: string) {
    |p| <= |s| && s[..|p|] == p
  }

  predicate EndsWith(s: string, p: string) {
    |p| <= |s| && s[|s| - |p|..] == p
  }

  /** `s.replace(a, b)` for single characters. */
  function ReplaceChar(s: string, a: char, b: char): (r: string)
    ensures |r| == |s|
    ensures forall i :: 0 <= i < |s| ==> r[i] == if s[i] == a then b else s[i]
  {
    seq(|s|, i requires 0 <= i < |s| => if s[i] == a then b else s[i])
  }

  /** `s.replace(c, "")` for a single character. */
  function RemoveChar(s: string, c: char): (r: string)
    ensures c !in r
    ensures |r| <= |s|
    decreases |s|
  {
    if |s| == 0 then "" else RemoveChar(s[..|s| - 1], c) + (if s[|s| - 1] == c then "" else [s[|s| - 1]])
  }
}
