/** The retrieval helpers of the RAG chat: the character budget of the
    context block, the transaction hashes and addresses a question names,
    and the merge that puts chunks quoting those identifiers in front of
    the embedding results. The embedding search itself is an input: the
    retrieved chunks arrive already ranked. */
module RagContext {
  import opened Wrappers
  import opened Seqs
  import opened Text
  import Json

  /** One chunk record. Optional fields that are absent are `None`; the
      text fields are the empty string when absent. `score` and `rank` are
      the fields the retrieval and the merge write. */
  datatype Chunk = Chunk(
    id: Option<string>, docPath: Option<string>, chunkIndex: Option<int>,
    title: string, text: string, sourceUrl: string,
    score: Option<real>, rank: Option<int>)

  // ---------------------------------------------------------------------------
  // Context budget: `build_context`

  const Separator: string := "\n\n---\n\n"

  /** The block one chunk contributes. */
  function Piece(c: Chunk): string {
    "Title: " + c.title + "\nSource: " + c.sourceUrl + "\n\n" + c.text + "\n"
  }

  function Pieces(chunks: seq<Chunk>): (ps: seq<string>)
    ensures |ps| == |chunks|
    ensures forall i :: 0 <= i < |chunks| ==> ps[i] == Piece(chunks[i])
  {
    seq(|chunks|, i requires 0 <= i < |chunks| => Piece(chunks[i]))
  }

  /** Total length of a list of pieces. */
  function Length(ps: seq<string>): nat
    decreases |ps|
  {
    if |ps| == 0 then 0 else |ps[0]| + Length(ps[1..])
  }

  lemma {:induction false} LengthAppend(a: seq<string>, b: seq<string>)
    ensures Length(a + b) == Length(a) + Length(b)
    decreases |a|
  {
    if |a| > 0 {
      assert (a + b)[0] == a[0];
      assert (a + b)[1..] == a[1..] + b;
      LengthAppend(a[1..], b);
    } else {
      assert a + b == b;
    }
  }

  /** Longer prefixes are never shorter. */
  lemma LengthPrefixMonotone(ps: seq<string>, m: nat, n: nat)
    requires m <= n <= |ps|
    ensures Length(ps[..m]) <= Length(ps[..n])
  {
    assert ps[..n] == ps[..m] + ps[m..n];
    LengthAppend(ps[..m], ps[m..n]);
  }

  /** The number of pieces the loop keeps, from a state where `used`
      characters are taken and `some` says whether any piece is. A piece
      that would overflow the budget ends the loop, unless nothing is taken
      yet. */
  function Kept(ps: seq<string>, maxChars: int, used: nat, some: bool): (n: nat)
    ensures n <= |ps|
    ensures |ps| > 0 && !some ==> n >= 1
    ensures (some && n >= 1) || n >= 2 ==> used + Length(ps[..n]) <= maxChars
    ensures n < |ps| ==> (some || n >= 1) && used + Length(ps[..n + 1]) > maxChars
    decreases |ps|
  {
    if |ps| == 0 then 0
    else if used + |ps[0]| > maxChars && some then 0
    else
      var n := 1 + Kept(ps[1..], maxChars, used + |ps[0]|, true);
      assert ps[..n][1..] == ps[1..][..n - 1];
      assert n < |ps| ==> ps[..n + 1][1..] == ps[1..][..n];
      n
  }

  /** The pieces `build_context` keeps, in order. */
  function ContextPieces(chunks: seq<Chunk>, maxChars: int): (ps: seq<string>)
    ensures |ps| <= |chunks| && ps == Pieces(chunks)[..|ps|]
    ensures |chunks| > 0 ==> |ps| >= 1
    ensures |ps| >= 2 ==> Length(ps) <= maxChars
    ensures |ps| < |chunks| ==> Length(Pieces(chunks)[..|ps| + 1]) > maxChars
  {
    var all := Pieces(chunks);
    var n := Kept(all, maxChars, 0, false);
    all[..n]
  }

  /** `build_context`. */
  function BuildContext(chunks: seq<Chunk>, maxChars: int): (r: string)
    ensures |chunks| == 0 ==> r == ""
    ensures var ps := ContextPieces(chunks, maxChars);
      |ps| > 0 ==> |r| == Length(ps) + |Separator| * (|ps| - 1)
  {
    var ps := ContextPieces(chunks, maxChars);
    JoinLength(ps);
    Join(ps, Separator)
  }

  lemma {:induction false} JoinLength(ps: seq<string>)
    ensures |ps| > 0 ==> |Join(ps, Separator)| == Length(ps) + |Separator| * (|ps| - 1)
    decreases |ps|
  {
    if |ps| > 1 {
      var init := ps[..|ps| - 1];
      JoinLength(init);
      assert ps == init + [ps[|ps| - 1]];
      LengthAppend(init, [ps[|ps| - 1]]);
      assert Length([ps[|ps| - 1]]) == |ps[|ps| - 1]|;
    }
  }

  /** Independent reading of the budget: the first `m` chunks are all kept
      exactly when `m` is at most one or their pieces fit in `maxChars`. */
  lemma ContextIsLargestFit(chunks: seq<Chunk>, maxChars: int, m: nat)
    requires m <= |chunks|
    ensures m <= |ContextPieces(chunks, maxChars)| <==>
      m <= 1 || Length(Pieces(chunks)[..m]) <= maxChars
  {
    var all := Pieces(chunks);
    var n := |ContextPieces(chunks, maxChars)|;
    if m <= n && m >= 2 {
      LengthPrefixMonotone(all, m, n);
    }
    if n < m {
      LengthPrefixMonotone(all, n + 1, m);
    }
  }

  // ---------------------------------------------------------------------------
  // Identifiers: `_extract_identifiers`

  /** Every `w` characters long match of `p` at or after `i`, left to right.
      A hash or address match consists of word characters only, so no match
      can start inside another and each position is tried on its own. */
  function FindWhere(s: string, i: nat, w: nat, p: (string, nat) -> bool): (r: seq<string>)
    requires i <= |s|
    decreases |s| - i
  {
    if i == |s| then []
    else (if p(s, i) then [Slice(s, i, i + w)] else []) + FindWhere(s, i + 1, w, p)
  }

  lemma {:induction false} FindWhereIff(s: string, i: nat, w: nat, p: (string, nat) -> bool, t: string)
    requires i <= |s|
    ensures t in FindWhere(s, i, w, p) <==> exists k :: i <= k < |s| && p(s, k) && Slice(s, k, k + w) == t
    decreases |s| - i
  {
    if i < |s| {
      var head := if p(s, i) then [Slice(s, i, i + w)] else [];
      var rest := FindWhere(s, i + 1, w, p);
      FindWhereIff(s, i + 1, w, p, t);
      assert FindWhere(s, i, w, p) == head + rest;
      assert t in head <==> p(s, i) && Slice(s, i, i + w) == t;
      if exists k :: i <= k < |s| && p(s, k) && Slice(s, k, k + w) == t {
        var k :| i <= k < |s| && p(s, k) && Slice(s, k, k + w) == t;
        assert k == i || i + 1 <= k;
      }
    }
  }

  function Hashes(text: string): (r: seq<string>)
    ensures forall x :: x in r <==> exists k :: 0 <= k < |text| && HashAt(text, k) && text[k..k + 66] == x
    ensures forall x :: x in r ==> |x| == 66
  {
    var r := FindWhere(text, 0, 66, HashAt);
    forall x ensures x in r <==> exists k :: 0 <= k < |text| && HashAt(text, k) && text[k..k + 66] == x {
      FindWhereIff(text, 0, 66, HashAt, x);
    }
    r
  }

  function Addresses(text: string): (r: seq<string>)
    ensures forall x :: x in r <==> exists k :: 0 <= k < |text| && AddressAt(text, k) && text[k..k + 42] == x
    ensures forall x :: x in r ==> |x| == 42
  {
    var r := FindWhere(text, 0, 42, AddressAt);
    forall x ensures x in r <==> exists k :: 0 <= k < |text| && AddressAt(text, k) && text[k..k + 42] == x {
      FindWhereIff(text, 0, 42, AddressAt, x);
    }
    r
  }

  /** The elements of `xs` that are not in `ex`, in order. */
  function Unlisted(xs: seq<string>, ex: seq<string>): (r: seq<string>)
    ensures forall x :: x in r <==> x in xs && x !in ex
    decreases |xs|
  {
    if |xs| == 0 then []
    else (if xs[0] in ex then [] else [xs[0]]) + Unlisted(xs[1..], ex)
  }

  /** `_extract_identifiers`: transaction hashes, then addresses that are
      not already listed, without repeats. */
  function Identifiers(text: string): (r: seq<string>)
    ensures Distinct(r)
    ensures forall k :: 0 <= k < |r| ==> |r[k]| == 66 || |r[k]| == 42
  {
    var txs := Hashes(text);
    var all := txs + Unlisted(Addresses(text), txs);
    assert forall x :: x in all ==> |x| == 66 || |x| == 42;
    Dedup(all)
  }

  /** An address is never mistaken for a hash: the two lengths differ, so
      the `tx_set` filter removes nothing. */
  lemma AddressesNeverFiltered(text: string)
    ensures Unlisted(Addresses(text), Hashes(text)) == Addresses(text)
  {
    UnlistedDisjoint(Addresses(text), Hashes(text));
  }

  lemma {:induction false} UnlistedDisjoint(xs: seq<string>, ex: seq<string>)
    requires forall k :: 0 <= k < |xs| ==> xs[k] !in ex
    ensures Unlisted(xs, ex) == xs
    decreases |xs|
  {
    if |xs| > 0 {
      UnlistedDisjoint(xs[1..], ex);
    }
  }

  /** An identifier is reported exactly when the text holds a 64- or a
      40-digit match for it. */
  lemma IdentifiersIff(text: string, t: string)
    ensures t in Identifiers(text) <==>
      || (exists k :: 0 <= k < |text| && HashAt(text, k) && text[k..k + 66] == t)
      || (exists k :: 0 <= k < |text| && AddressAt(text, k) && text[k..k + 42] == t)
  {
    AddressesNeverFiltered(text);
    assert t in Identifiers(text) <==> t in Hashes(text) || t in Addresses(text);
  }

  /** Every hash comes before every address. */
  lemma HashesBeforeAddresses(text: string, i: nat, j: nat)
    requires i < j < |Identifiers(text)| && |Identifiers(text)[i]| == 42
    ensures |Identifiers(text)[j]| == 42
  {
    var txs := Hashes(text);
    var all := txs + Unlisted(Addresses(text), txs);
    var r := Identifiers(text);
    DedupFirstOccurrenceOrder(all, i, j);
    var fi := FirstIndex(all, r[i]);
    var fj := FirstIndex(all, r[j]);
    forall k | 0 <= k < |txs|
      ensures all[k] != r[i]
    {
      assert |all[k]| == 66;
    }
    assert all[fj] in Unlisted(Addresses(text), txs);
  }

  // ---------------------------------------------------------------------------
  // Exact-match merge: `_merge_exact_matches`

  /** `str(x)` of an optional field: `"None"` when it is absent. */
  function OptStr(x: Option<string>): string {
    if x.Some? then x.value else "None"
  }

  function OptIntStr(x: Option<int>): string {
    if x.Some? then Json.IntStr(x.value) else "None"
  }

  /** The de-duplication key `_key_of`: the id when it is set and
      non-empty, else `"{doc_path}#{chunk_index}"`. */
  function KeyOf(c: Chunk): (k: string)
    ensures c.id.Some? && c.id.value != "" ==> k == c.id.value
    ensures c.id.None? || c.id.value == "" ==>
      var p := OptStr(c.docPath); |k| > |p| && k[..|p|] == p && k[|p|] == '#' && k[|p| + 1..] == OptIntStr(c.chunkIndex)
  {
    if c.id.Some? && c.id.value != "" then c.id.value
    else OptStr(c.docPath) + "#" + OptIntStr(c.chunkIndex)
  }

  /** Two chunks without an id share a key exactly when their document
      paths print alike and their chunk indexes print alike, provided no
      path contains `#`. */
  lemma PathKeysDistinguish(c: Chunk, d: Chunk)
    requires c.id.None? || c.id.value == ""
    requires d.id.None? || d.id.value == ""
    requires '#' !in OptStr(c.docPath) && '#' !in OptStr(d.docPath)
    ensures KeyOf(c) == KeyOf(d) <==> OptStr(c.docPath) == OptStr(d.docPath) && OptIntStr(c.chunkIndex) == OptIntStr(d.chunkIndex)
  {
    var p, q := OptStr(c.docPath), OptStr(d.docPath);
    if KeyOf(c) == KeyOf(d) {
      HashAfterPath(p, KeyOf(c));
      HashAfterPath(q, KeyOf(c));
    }
  }

  /** In a path key built from a path without `#`, the first `#` is the
      separator. */
  lemma HashAfterPath(p: string, k: string)
    requires '#' !in p && |k| > |p| && k[..|p|] == p && k[|p|] == '#'
    ensures '#' in k && FirstIndex(k, '#') == |p|
  {
    assert forall i :: 0 <= i < |p| ==> k[i] == p[i];
  }

  /** The string key can make different chunks collide: an id "a#1"
      against document "a", chunk 1; and a missing path prints as "None". */
  lemma ExampleKeysCollide()
    ensures KeyOf(Chunk(Some("a#1"), None, None, "", "", "", None, None))
      == KeyOf(Chunk(None, Some("a"), Some(1), "", "", "", None, None))
    ensures KeyOf(Chunk(None, None, Some(0), "", "", "", None, None))
      == KeyOf(Chunk(None, Some("None"), Some(0), "", "", "", None, None))
  {
    assert Json.IntStr(1) == "1";
    assert Json.IntStr(0) == "0";
  }

  function Keys(xs: seq<Chunk>): (ks: set<string>)
    ensures forall i :: 0 <= i < |xs| ==> KeyOf(xs[i]) in ks
    ensures forall k :: k in ks ==> exists i :: 0 <= i < |xs| && KeyOf(xs[i]) == k
  {
    set i | 0 <= i < |xs| :: KeyOf(xs[i])
  }

  /** Some element of `xs` has key `k`. */
  predicate KeyIn<T, K(==)>(xs: seq<T>, k: K, key: T -> K) {
    exists i :: 0 <= i < |xs| && key(xs[i]) == k
  }

  predicate DistinctBy<T, K(==)>(xs: seq<T>, key: T -> K) {
    forall i, j :: 0 <= i < j < |xs| ==> key(xs[i]) != key(xs[j])
  }

  /** The source URL and the document path, as the merge searches them. */
  function Meta(c: Chunk): string {
    c.sourceUrl + " " + c.docPath.GetOr("")
  }

  predicate Mentions(c: Chunk, ident: string) {
    Contains(c.text, ident) || Contains(c.title, ident) || Contains(Meta(c), ident)
  }

  predicate Hit(c: Chunk, ids: seq<string>) {
    exists i :: 0 <= i < |ids| && Mentions(c, ids[i])
  }

  /** The chunk as an exact match. */
  function Promote(c: Chunk): (p: Chunk)
    ensures p.score == Some(1.1) && KeyOf(p) == KeyOf(c)
  {
    c.(score := Some(1.1))
  }

  /** A chunk that mentions one of `ids`, promoted; nothing otherwise. */
  function Picker(ids: seq<string>): Chunk -> Option<Chunk> {
    c => if Hit(c, ids) then Some(Promote(c)) else None
  }

  lemma PickerPicksHits(ids: seq<string>, c: Chunk, m: Chunk)
    requires Picker(ids)(c) == Some(m)
    ensures Hit(c, ids) && m == Promote(c)
  {
  }

  /** The scan over all chunks: each picked item whose key is not yet seen
      is kept; the scan stops once `budget` more are kept, and at the first
      picked item at all when the budget is already spent. */
  function Scan<T, K(==)>(xs: seq<T>, pick: T -> Option<T>, key: T -> K, seen: set<K>, budget: int): (ms: seq<T>)
    ensures budget >= 1 ==> |ms| <= budget
    ensures budget < 1 ==> |ms| <= 1
    ensures forall i :: 0 <= i < |ms| ==> key(ms[i]) !in seen
    ensures forall i :: 0 <= i < |ms| ==> exists j :: 0 <= j < |xs| && pick(xs[j]) == Some(ms[i])
    ensures DistinctBy(ms, key)
    decreases |xs|
  {
    if |xs| == 0 then []
    else match pick(xs[0])
      case None => Scan(xs[1..], pick, key, seen, budget)
      case Some(item) =>
        if key(item) !in seen then
          if budget <= 1 then [item]
          else
            var rest := Scan(xs[1..], pick, key, seen + {key(item)}, budget - 1);
            assert forall i :: 0 <= i < |rest| ==> exists j :: 0 <= j < |xs| && pick(xs[j]) == Some(rest[i]) by {
              forall i | 0 <= i < |rest|
                ensures exists j :: 0 <= j < |xs| && pick(xs[j]) == Some(rest[i])
              {
                var j :| 0 <= j < |xs| - 1 && pick(xs[1..][j]) == Some(rest[i]);
                assert xs[1..][j] == xs[j + 1];
              }
            }
            [item] + rest
        else if budget <= 0 then []
        else Scan(xs[1..], pick, key, seen, budget)
  }

  /** The kept items are picked items in the order of `xs`. */
  lemma {:induction false} ScanPicksInOrder<T, K>(xs: seq<T>, pick: T -> Option<T>, key: T -> K, seen: set<K>, budget: int)
    ensures IsSubsequence(Scan(xs, pick, key, seen, budget), FilterMap(xs, pick))
    decreases |xs|
  {
    if |xs| > 0 {
      var ms := Scan(xs, pick, key, seen, budget);
      var tail := FilterMap(xs[1..], pick);
      FilterMapHead(xs, pick);
      match pick(xs[0])
      case None =>
        ScanPicksInOrder(xs[1..], pick, key, seen, budget);
        assert ms == Scan(xs[1..], pick, key, seen, budget);
        assert FilterMap(xs, pick) == [] + tail == tail;
      case Some(item) =>
        if key(item) !in seen {
          var rest := if budget > 1 then Scan(xs[1..], pick, key, seen + {key(item)}, budget - 1) else [];
          if budget > 1 {
            ScanPicksInOrder(xs[1..], pick, key, seen + {key(item)}, budget - 1);
          }
          assert ms == [item] + rest;
          SubsequenceCons(item, rest, tail);
        } else if budget > 0 {
          ScanPicksInOrder(xs[1..], pick, key, seen, budget);
          SubsequenceSkip(ms, [item], tail);
        }
    }
  }

  /** The picked items of `xs` are those of its head followed by those of its tail. */
  lemma FilterMapHead<A, B>(xs: seq<A>, f: A -> Option<B>)
    requires |xs| > 0
    ensures FilterMap(xs, f) == (if f(xs[0]).Some? then [f(xs[0]).value] else []) + FilterMap(xs[1..], f)
  {
    assert xs == [xs[0]] + xs[1..];
    FilterMapAppend([xs[0]], xs[1..], f);
    FilterMapOne(xs[0], f);
  }

  /** A common first element extends a subsequence. */
  lemma SubsequenceCons<T>(x: T, a: seq<T>, b: seq<T>)
    requires IsSubsequence(a, b)
    ensures IsSubsequence([x] + a, [x] + b)
  {
    assert ([x] + a)[1..] == a && ([x] + b)[1..] == b;
  }

  /** A subsequence of the tail is a subsequence of the whole. */
  lemma {:induction false} SubsequenceSkip<T>(a: seq<T>, p: seq<T>, b: seq<T>)
    requires IsSubsequence(a, b)
    ensures IsSubsequence(a, p + b)
    decreases |p|
  {
    if |p| > 0 {
      SubsequenceSkip(a, p[1..], b);
      assert (p + b)[1..] == p[1..] + b;
    } else {
      assert p + b == b;
    }
  }

  /** Matches numbered by their position. */
  function Ranked(ms: seq<Chunk>): (r: seq<Chunk>)
    ensures |r| == |ms|
    ensures forall i :: 0 <= i < |ms| ==> r[i] == ms[i].(rank := Some(i))
  {
    seq(|ms|, i requires 0 <= i < |ms| => ms[i].(rank := Some(i)))
  }

  /** The fill loop: items whose key is not yet in `out` are appended in
      order until `out` holds `topK` items. */
  function Fill<T, K(==)>(xs: seq<T>, out: seq<T>, topK: int, key: T -> K): (r: seq<T>)
    ensures |out| <= |r| && r[..|out|] == out
    ensures |out| < topK ==> |r| <= topK
    ensures |out| >= topK ==> |r| <= |out| + 1
    decreases |xs|
  {
    if |xs| == 0 then out
    else if KeyIn(out, key(xs[0]), key) then Fill(xs[1..], out, topK, key)
    else
      var out' := out + [xs[0]];
      if |out'| >= topK then out' else Fill(xs[1..], out', topK, key)
  }

  /** What the fill loop appends is read off `xs` in order. */
  lemma {:induction false} FillTakesInOrder<T, K>(xs: seq<T>, out: seq<T>, topK: int, key: T -> K)
    ensures var r := Fill(xs, out, topK, key);
      IsSubsequence(r[|out|..], xs)
    decreases |xs|
  {
    var r := Fill(xs, out, topK, key);
    if |xs| == 0 {
      assert r[|out|..] == [];
    } else if KeyIn(out, key(xs[0]), key) {
      FillTakesInOrder(xs[1..], out, topK, key);
      SubsequenceSkip(r[|out|..], [xs[0]], xs[1..]);
      assert [xs[0]] + xs[1..] == xs;
    } else if |out| + 1 >= topK {
      assert r[|out|..] == [xs[0]];
    } else {
      var out' := out + [xs[0]];
      FillTakesInOrder(xs[1..], out', topK, key);
      assert r[|out|..][0] == xs[0];
      assert r[|out|..][1..] == r[|out'|..];
    }
  }

  /** The fill loop never repeats a key. */
  lemma {:induction false} FillKeepsKeysDistinct<T, K>(xs: seq<T>, out: seq<T>, topK: int, key: T -> K)
    requires DistinctBy(out, key)
    ensures DistinctBy(Fill(xs, out, topK, key), key)
    decreases |xs|
  {
    if |xs| > 0 {
      if KeyIn(out, key(xs[0]), key) {
        FillKeepsKeysDistinct(xs[1..], out, topK, key);
      } else {
        var out' := out + [xs[0]];
        assert DistinctBy(out', key);
        if |out'| < topK {
          FillKeepsKeysDistinct(xs[1..], out', topK, key);
        }
      }
    }
  }

  /** The exact matches of a question, before ranking. */
  function Matches(query: string, chunks: seq<Chunk>, retrieved: seq<Chunk>, topK: int): seq<Chunk> {
    Scan(chunks, Picker(Identifiers(query)), KeyOf, Keys(retrieved), topK)
  }

  /** `_merge_exact_matches`. */
  function MergeExactMatches(query: string, chunks: seq<Chunk>, retrieved: seq<Chunk>, topK: int): (r: seq<Chunk>)
    ensures |Identifiers(query)| == 0 ==> r == PyTake(retrieved, topK)
  {
    var ids := Identifiers(query);
    if |ids| == 0 then PyTake(retrieved, topK)
    else
      var ranked := Ranked(Matches(query, chunks, retrieved, topK));
      var stop := if topK >= 1 then topK else 1;
      if stop <= |ranked| then ranked[..stop] else Fill(retrieved, ranked, topK, KeyOf)
  }

  /** `m` is one of `chunks` that mentions one of `ids`, promoted. */
  predicate PromotedHit(m: Chunk, chunks: seq<Chunk>, ids: seq<string>) {
    exists j :: 0 <= j < |chunks| && Hit(chunks[j], ids) && m == Promote(chunks[j])
  }

  /** Every exact match is a chunk that mentions an identifier, promoted. */
  lemma MatchesArePromotedHits(query: string, chunks: seq<Chunk>, retrieved: seq<Chunk>, topK: int)
    ensures var ms := Matches(query, chunks, retrieved, topK);
      forall i :: 0 <= i < |ms| ==> PromotedHit(ms[i], chunks, Identifiers(query))
  {
    var ids := Identifiers(query);
    var ms := Matches(query, chunks, retrieved, topK);
    forall i | 0 <= i < |ms|
      ensures PromotedHit(ms[i], chunks, ids)
    {
      var j :| 0 <= j < |chunks| && Picker(ids)(chunks[j]) == Some(ms[i]);
      PickerPicksHits(ids, chunks[j], ms[i]);
    }
  }

  /** With identifiers in the question and a positive `topK`, at most
      `topK` items come back, and never fewer than the exact matches. */
  lemma MergeBound(query: string, chunks: seq<Chunk>, retrieved: seq<Chunk>, topK: int)
    requires |Identifiers(query)| > 0
    ensures var r := MergeExactMatches(query, chunks, retrieved, topK);
      && (topK >= 1 ==> |r| <= topK)
      && |Matches(query, chunks, retrieved, topK)| <= |r|
  {
  }

  /** With identifiers in the question, the exact matches come first,
      numbered and scored 1.1, and none of them was already retrieved. */
  lemma MergeMatchesFirst(query: string, chunks: seq<Chunk>, retrieved: seq<Chunk>, topK: int)
    requires |Identifiers(query)| > 0
    ensures var r := MergeExactMatches(query, chunks, retrieved, topK);
      var ms := Matches(query, chunks, retrieved, topK);
      && |ms| <= |r|
      && (forall i :: 0 <= i < |ms| ==> r[i] == ms[i].(rank := Some(i)) && r[i].score == Some(1.1))
      && (forall i :: 0 <= i < |ms| ==> KeyOf(r[i]) !in Keys(retrieved))
  {
    var ms := Matches(query, chunks, retrieved, topK);
    var r := MergeExactMatches(query, chunks, retrieved, topK);
    assert forall i :: 0 <= i < |ms| ==> ms[i].score == Some(1.1) by {
      MatchesArePromotedHits(query, chunks, retrieved, topK);
      assert forall i :: 0 <= i < |ms| ==> PromotedHit(ms[i], chunks, Identifiers(query));
    }
    assert r[..|ms|] == Ranked(ms) by {
      MergeBound(query, chunks, retrieved, topK);
      var stop := if topK >= 1 then topK else 1;
      if stop <= |ms| {
        assert Ranked(ms)[..stop] == Ranked(ms);
      }
    }
    assert forall i :: 0 <= i < |ms| ==> r[i] == Ranked(ms)[i];
  }

  /** The retrieved chunks follow the exact matches in their own order, and
      no key occurs twice. */
  lemma MergeOrderAndKeys(query: string, chunks: seq<Chunk>, retrieved: seq<Chunk>, topK: int)
    requires |Identifiers(query)| > 0
    ensures var r := MergeExactMatches(query, chunks, retrieved, topK);
      var ms := Matches(query, chunks, retrieved, topK);
      |ms| <= |r| && IsSubsequence(r[|ms|..], retrieved) && DistinctBy(r, KeyOf)
  {
    var ms := Matches(query, chunks, retrieved, topK);
    var ranked := Ranked(ms);
    RankedKeepsKeys(ms);
    var stop := if topK >= 1 then topK else 1;
    if stop <= |ranked| {
      assert ranked[..stop] == ranked;
      assert ranked[|ms|..] == [];
    } else {
      FillTakesInOrder(retrieved, ranked, topK, KeyOf);
      FillKeepsKeysDistinct(retrieved, ranked, topK, KeyOf);
    }
  }

  /** Numbering the matches changes no key. */
  lemma RankedKeepsKeys(ms: seq<Chunk>)
    requires DistinctBy(ms, KeyOf)
    ensures DistinctBy(Ranked(ms), KeyOf)
  {
    var ranked := Ranked(ms);
    forall i | 0 <= i < |ms|
      ensures KeyOf(ranked[i]) == KeyOf(ms[i])
    {
      assert ranked[i] == ms[i].(rank := Some(i));
    }
  }

  /** A budget of zero or less still returns one item once the question
      names an identifier, while a question without one gets nothing for
      a budget of zero (and all but the last `-topK` retrieved chunks for a
      negative one, by Python's slicing). */
  lemma NonPositiveTopKKeepsOne(query: string, chunks: seq<Chunk>, retrieved: seq<Chunk>, topK: int)
    requires topK <= 0 && |retrieved| > 0
    ensures |Identifiers(query)| > 0 ==> |MergeExactMatches(query, chunks, retrieved, topK)| == 1
    ensures |Identifiers(query)| == 0 && topK == 0 ==> MergeExactMatches(query, chunks, retrieved, topK) == []
  {
    if |Identifiers(query)| > 0 {
      var ranked := Ranked(Matches(query, chunks, retrieved, topK));
      if |ranked| == 0 {
        assert !KeyIn(ranked, KeyOf(retrieved[0]), KeyOf);
      }
    }
  }
}
