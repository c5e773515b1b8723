/** `chunk_markdown` and `_infer_title` of the markdown-directory index
    builder. The text is split into paragraphs at runs of two or more
    newlines; paragraphs are packed greedily into chunks of at most
    `maxChars` characters (joined by a blank line), a heading always opens a
    new chunk, a paragraph longer than `maxChars` is cut into slices, and
    finally each chunk after the first is prefixed with the tail of the chunk
    before it. */
module MarkdownChunker {
  import opened Wrappers
  import opened Seqs
  import opened Text

  // ---------------------------------------------------------------------
  // Paragraphs: `re.split(r"\n\n+", text)`, each block stripped, empty
  // blocks dropped.

  predicate BlankAt(s: string, i: int) {
    0 <= i && i + 1 < |s| && s[i] == '\n' && s[i + 1] == '\n'
  }

  /** No two newlines in a row: nothing `\n\n+` could split. */
  predicate NoBlankLine(s: string) {
    forall i :: 0 <= i < |s| ==> !BlankAt(s, i)
  }

  /** Where the first separator at or after `i` starts, or `|s|`. */
  function FirstBlank(s: string, i: nat): (k: nat)
    requires i <= |s|
    ensures i <= k <= |s|
    ensures k < |s| ==> BlankAt(s, k)
    ensures forall j :: i <= j < k ==> !BlankAt(s, j)
    decreases |s| - i
  {
    if i == |s| then |s| else if BlankAt(s, i) then i else FirstBlank(s, i + 1)
  }

  /** Length of the run of newlines starting at `i`: the greedy `\n\n+`. */
  function NewlineRun(s: string, i: nat): (n: nat)
    requires i <= |s|
    ensures i + n <= |s|
    ensures forall j :: i <= j < i + n ==> s[j] == '\n'
    ensures i + n == |s| || s[i + n] != '\n'
    decreases |s| - i
  {
    if i == |s| || s[i] != '\n' then 0 else 1 + NewlineRun(s, i + 1)
  }

  /** A prefix of `s` that stops before its first separator holds none. */
  lemma PrefixBeforeBlank(s: string, k: nat)
    requires k <= |s| && forall j :: 0 <= j < k ==> !BlankAt(s, j)
    ensures NoBlankLine(s[..k])
  {
    forall i | 0 <= i < k
      ensures !BlankAt(s[..k], i)
    {
      assert !BlankAt(s, i);
    }
  }

  /** The pieces `re.split(r"\n\n+", s)` returns. */
  function Blocks(s: string): (bs: seq<string>)
    ensures |bs| >= 1
    ensures forall k :: 0 <= k < |bs| ==> NoBlankLine(bs[k])
    decreases |s|
  {
    var k := FirstBlank(s, 0);
    if k == |s| then
      PrefixBeforeBlank(s, |s|);
      assert s[..|s|] == s;
      [s]
    else
      var n := NewlineRun(s, k);
      assert n >= 2 by {
        assert s[k] == '\n' && s[k + 1] == '\n';
      }
      PrefixBeforeBlank(s, k);
      [s[..k]] + Blocks(s[k + n..])
  }

  /** Splitting loses only the separators: every character of every block
      is a character of the text. */
  lemma {:induction false} BlocksCharsFromText(s: string, k: nat, j: nat)
    requires k < |Blocks(s)| && j < |Blocks(s)[k]|
    ensures Blocks(s)[k][j] in s
    decreases |s|
  {
    var b := FirstBlank(s, 0);
    if b < |s| && k > 0 {
      var n := NewlineRun(s, b);
      assert Blocks(s)[k] == Blocks(s[b + n..])[k - 1];
      BlocksCharsFromText(s[b + n..], k - 1, j);
      var c := Blocks(s)[k][j];
      assert c in s[b + n..];
      var m :| 0 <= m < |s[b + n..]| && s[b + n..][m] == c;
      assert s[b + n + m] == c;
    }
  }

  /** A paragraph: non-empty, stripped. */
  predicate IsParagraph(p: string) {
    |p| > 0 && p[0] !in Whitespace && p[|p| - 1] !in Whitespace
  }

  /** A block stripped, or nothing when it is blank. */
  function StripBlock(b: string): (r: Option<string>)
    ensures r.Some? ==> IsParagraph(r.value)
  {
    var p := Strip(b);
    StripBounds(b, Whitespace);
    if |p| > 0 then Some(p) else None
  }

  /** Stripping keeps a slice of its block, so no separator appears. */
  lemma StripKeepsNoBlankLine(b: string)
    requires NoBlankLine(b)
    ensures NoBlankLine(Strip(b))
  {
    var a := StripSlice(b, Whitespace);
    var p := Strip(b);
    forall i | 0 <= i < |p|
      ensures !BlankAt(p, i)
    {
      assert p[i] == b[a + i];
      if i + 1 < |p| {
        assert p[i + 1] == b[a + i + 1];
        assert !BlankAt(b, a + i);
      }
    }
  }

  /** The paragraphs of a text. */
  function Paragraphs(text: string): (ps: seq<string>)
    ensures forall i :: 0 <= i < |ps| ==> IsParagraph(ps[i])
  {
    var ps := FilterMap(Blocks(text), StripBlock);
    forall i | 0 <= i < |ps|
      ensures IsParagraph(ps[i])
    {
      var k := FilterMapSource(Blocks(text), StripBlock, i);
    }
    ps
  }

  /** No paragraph holds a blank line: `\n\n+` splits at every one. */
  lemma ParagraphsHaveNoBlankLine(text: string, i: nat)
    requires i < |Paragraphs(text)|
    ensures NoBlankLine(Paragraphs(text)[i])
  {
    var bs := Blocks(text);
    var k := FilterMapSource(bs, StripBlock, i);
    StripKeepsNoBlankLine(bs[k]);
  }

  /** Every character of a paragraph comes from the text. */
  lemma ParagraphCharsFromText(text: string, i: nat, j: nat)
    requires i < |Paragraphs(text)| && j < |Paragraphs(text)[i]|
    ensures Paragraphs(text)[i][j] in text
  {
    var bs := Blocks(text);
    var k := FilterMapSource(bs, StripBlock, i);
    var a := StripSlice(bs[k], Whitespace);
    assert Paragraphs(text)[i][j] == bs[k][a + j];
    BlocksCharsFromText(text, k, a + j);
  }

  /** A text made only of whitespace has no paragraphs, so no chunks. */
  lemma BlankTextHasNoParagraphs(text: string)
    requires forall i :: 0 <= i < |text| ==> text[i] in Whitespace
    ensures Paragraphs(text) == []
  {
    if |Paragraphs(text)| > 0 {
      ParagraphCharsFromText(text, 0, 0);
    }
  }

  // ---------------------------------------------------------------------
  // Packing paragraphs into chunks.

  const ParaSep: string := "\n\n"

  /** A chunk before rendering: paragraphs joined by a blank line, or one
      slice of a hard-wrapped paragraph. */
  datatype Part = Joined(paras: seq<string>) | Wrapped(text: string)

  function Render(p: Part): string {
    match p
    case Joined(ps) => Strip(Join(ps, ParaSep))
    case Wrapped(t) => t
  }

  function Renders(parts: seq<Part>): (r: seq<string>)
    ensures |r| == |parts|
    ensures forall i :: 0 <= i < |parts| ==> r[i] == Render(parts[i])
  {
    seq(|parts|, i requires 0 <= i < |parts| => Render(parts[i]))
  }

  /** The loop state: the finished parts, the paragraphs of the open chunk
      and `current_len`, the budget counted against `maxChars`. */
  datatype Builder = Builder(parts: seq<Part>, current: seq<string>, currentLen: int)

  const Empty: Builder := Builder([], [], 0)

  /** `para.lstrip().startswith('#')`. */
  predicate IsHeading(para: string) {
    var l := LStrip(para, Whitespace);
    |l| > 0 && l[0] == '#'
  }

  /** `flush()`: close the open chunk, keeping it only when it is not blank. */
  function Flush(b: Builder): (r: Builder)
    ensures r.current == []
    ensures |b.current| == 0 ==> r == b
    ensures |b.current| > 0 ==> r.currentLen == 0
    ensures |b.current| > 0 && |Render(Joined(b.current))| > 0 ==> r.parts == b.parts + [Joined(b.current)]
    ensures |b.current| > 0 && |Render(Joined(b.current))| == 0 ==> r.parts == b.parts
  {
    if |b.current| == 0 then b
    else if |Render(Joined(b.current))| > 0 then Builder(b.parts + [Joined(b.current)], [], 0)
    else Builder(b.parts, [], 0)
  }

  function Max(a: int, b: int): int {
    if a >= b then a else b
  }

  function Min(a: int, b: int): int {
    if a <= b then a else b
  }

  /** The hard-wrap loop from `start`: slices of at most `maxChars`
      characters, the next one starting at `max(start + maxChars - overlap, end)`. */
  function HardWrap(para: string, maxChars: int, overlap: int, start: nat): (slices: seq<string>)
    requires maxChars >= 1
    ensures forall i :: 0 <= i < |slices| ==> 0 < |slices[i]| <= maxChars
    decreases |para| - start
  {
    if start >= |para| then []
    else
      var end := Min(start + maxChars, |para|);
      var next := Max(start + maxChars - overlap, end);
      [para[start..end]] + HardWrap(para, maxChars, overlap, next)
  }

  /** With a non-negative overlap the slices are consecutive: together they
      are exactly the paragraph, nothing repeated and nothing lost. */
  lemma {:induction false} HardWrapCoversParagraph(para: string, maxChars: int, overlap: int, start: nat)
    requires maxChars >= 1 && overlap >= 0 && start <= |para|
    ensures Flatten(HardWrap(para, maxChars, overlap, start)) == para[start..]
    decreases |para| - start
  {
    if start < |para| {
      var end := Min(start + maxChars, |para|);
      var next := Max(start + maxChars - overlap, end);
      var rest := HardWrap(para, maxChars, overlap, next);
      if next == end {
        HardWrapCoversParagraph(para, maxChars, overlap, end);
      } else {
        assert end == |para| && rest == [];
      }
      assert Flatten(rest) == para[end..];
      FlattenCons(para[start..end], rest);
      assert para[start..end] + para[end..] == para[start..];
    }
  }

  /** A negative overlap skips characters: the first slice of a paragraph of
      `maxChars + 2` characters is followed by a slice that starts past a
      gap of `-overlap` characters. */
  lemma NegativeOverlapSkips(para: string, maxChars: int, overlap: int)
    requires maxChars >= 1 && overlap < 0 && |para| > maxChars - overlap
    ensures var w := HardWrap(para, maxChars, overlap, 0);
      |w| >= 2 && w[0] == para[..maxChars] && StartsWith(para[maxChars - overlap..], w[1])
  {
    var next := maxChars - overlap;
    assert HardWrap(para, maxChars, overlap, 0) == [para[0..maxChars]] + HardWrap(para, maxChars, overlap, next);
    var end := Min(next + maxChars, |para|);
    assert HardWrap(para, maxChars, overlap, next)[0] == para[next..end];
  }

  function Wraps(slices: seq<string>): (r: seq<Part>)
    ensures |r| == |slices|
    ensures forall i :: 0 <= i < |r| ==> r[i] == Wrapped(slices[i])
  {
    seq(|slices|, i requires 0 <= i < |slices| => Wrapped(slices[i]))
  }

  /** `para_len`: the paragraph plus the blank line that would join it to
      an open chunk. */
  function ParaLen(b: Builder, para: string): int {
    |para| + (if |b.current| > 0 then 2 else 0)
  }

  /** A heading closes the open chunk before it is placed. */
  function Opened(b: Builder, para: string): Builder {
    if IsHeading(para) && |b.current| > 0 then Flush(b) else b
  }

  /** Add the paragraph to the open chunk. */
  function Append(b: Builder, para: string, paraLen: int): Builder {
    Builder(b.parts, b.current + [para], b.currentLen + paraLen)
  }

  /** The paragraph does not fit: after the flush it is hard-wrapped if it
      is too long on its own, and otherwise opens the next chunk. */
  function Spill(b: Builder, para: string, maxChars: int, overlap: int): Builder
    requires maxChars >= 1
  {
    if |para| > maxChars then
      Builder(b.parts + Wraps(HardWrap(para, maxChars, overlap, 0)), b.current, b.currentLen)
    else
      Builder(b.parts, [para], |para|)
  }

  /** One iteration of the paragraph loop. `paraLen` is taken before a
      heading's flush, so a heading that closed a chunk is charged two
      characters more than its length. */
  function Step(b: Builder, para: string, maxChars: int, overlap: int): Builder
    requires maxChars >= 1
  {
    var paraLen := ParaLen(b, para);
    var b1 := Opened(b, para);
    if b1.currentLen + paraLen <= maxChars then Append(b1, para, paraLen)
    else Spill(Flush(b1), para, maxChars, overlap)
  }

  /** The loop over all paragraphs. */
  function Build(paras: seq<string>, maxChars: int, overlap: int): Builder
    requires maxChars >= 1
    decreases |paras|
  {
    if |paras| == 0 then Empty
    else Step(Build(paras[..|paras| - 1], maxChars, overlap), paras[|paras| - 1], maxChars, overlap)
  }

  /** The chunks before the overlap pass: the loop and the final `flush()`. */
  function PackedParts(paras: seq<string>, maxChars: int, overlap: int): seq<Part>
    requires maxChars >= 1
  {
    Flush(Build(paras, maxChars, overlap)).parts
  }

  // Every chunk fits: the budget never understates the open chunk.

  lemma JoinSnoc(ps: seq<string>, p: string)
    requires |ps| > 0
    ensures Join(ps + [p], ParaSep) == Join(ps, ParaSep) + ParaSep + p
  {
    assert (ps + [p])[..|ps|] == ps;
  }

  predicate PartFits(p: Part, maxChars: int) {
    |Render(p)| <= maxChars
  }

  predicate Fits(b: Builder, maxChars: int) {
    && (forall i :: 0 <= i < |b.parts| ==> PartFits(b.parts[i], maxChars))
    && |Join(b.current, ParaSep)| <= b.currentLen <= maxChars
    && (|b.current| == 0 ==> b.currentLen == 0)
  }

  lemma FlushFits(b: Builder, maxChars: int)
    requires Fits(b, maxChars)
    ensures Fits(Flush(b), maxChars)
  {
    var r := Flush(b);
    if |b.current| > 0 && |r.parts| > |b.parts| {
      assert r.parts == b.parts + [Joined(b.current)];
      assert PartFits(Joined(b.current), maxChars) by {
        StripBounds(Join(b.current, ParaSep), Whitespace);
      }
      forall i | 0 <= i < |r.parts|
        ensures PartFits(r.parts[i], maxChars)
      {
        if i < |b.parts| {
          assert r.parts[i] == b.parts[i];
        }
      }
    }
  }

  lemma AppendFits(b: Builder, para: string, paraLen: int, maxChars: int)
    requires Fits(b, maxChars)
    requires paraLen >= |para| && (|b.current| > 0 ==> paraLen == |para| + 2)
    requires b.currentLen + paraLen <= maxChars
    ensures Fits(Append(b, para, paraLen), maxChars)
  {
    if |b.current| > 0 {
      JoinSnoc(b.current, para);
    } else {
      assert b.current + [para] == [para];
    }
  }

  lemma SpillFits(b: Builder, para: string, maxChars: int, overlap: int)
    requires maxChars >= 1 && Fits(b, maxChars) && b.current == []
    ensures Fits(Spill(b, para, maxChars, overlap), maxChars)
  {
    if |para| > maxChars {
      var ws := Wraps(HardWrap(para, maxChars, overlap, 0));
      assert forall i :: 0 <= i < |ws| ==> PartFits(ws[i], maxChars);
      assert forall i :: 0 <= i < |b.parts + ws| ==> PartFits((b.parts + ws)[i], maxChars);
    } else {
      assert Join([para], ParaSep) == para;
    }
  }

  lemma OpenedFits(b: Builder, para: string, maxChars: int)
    requires Fits(b, maxChars)
    ensures Fits(Opened(b, para), maxChars)
    ensures |Opened(b, para).current| > 0 ==> Opened(b, para) == b
  {
    FlushFits(b, maxChars);
  }

  lemma StepFits(b: Builder, para: string, maxChars: int, overlap: int)
    requires maxChars >= 1 && Fits(b, maxChars)
    ensures Fits(Step(b, para, maxChars, overlap), maxChars)
  {
    var paraLen := ParaLen(b, para);
    var b1 := Opened(b, para);
    OpenedFits(b, para, maxChars);
    if b1.currentLen + paraLen <= maxChars {
      AppendFits(b1, para, paraLen, maxChars);
    } else {
      FlushFits(b1, maxChars);
      SpillFits(Flush(b1), para, maxChars, overlap);
    }
  }

  lemma {:induction false} BuildFits(paras: seq<string>, maxChars: int, overlap: int)
    requires maxChars >= 1
    ensures Fits(Build(paras, maxChars, overlap), maxChars)
    decreases |paras|
  {
    if |paras| > 0 {
      BuildFits(paras[..|paras| - 1], maxChars, overlap);
      StepFits(Build(paras[..|paras| - 1], maxChars, overlap), paras[|paras| - 1], maxChars, overlap);
    }
  }

  /** Before the overlap pass no chunk is longer than `maxChars`. */
  lemma PackedPartsFit(paras: seq<string>, maxChars: int, overlap: int, i: nat)
    requires maxChars >= 1 && i < |PackedParts(paras, maxChars, overlap)|
    ensures |Render(PackedParts(paras, maxChars, overlap)[i])| <= maxChars
  {
    BuildFits(paras, maxChars, overlap);
    FlushFits(Build(paras, maxChars, overlap), maxChars);
  }

  // A heading is never packed behind another paragraph.

  predicate HeadingFirst(ps: seq<string>) {
    forall i :: 1 <= i < |ps| ==> !IsHeading(ps[i])
  }

  predicate PartHeadingFirst(p: Part) {
    p.Joined? ==> HeadingFirst(p.paras)
  }

  predicate HeadingsLead(b: Builder) {
    && (forall i :: 0 <= i < |b.parts| ==> PartHeadingFirst(b.parts[i]))
    && HeadingFirst(b.current)
  }

  lemma FlushHeadingsLead(b: Builder)
    requires HeadingsLead(b)
    ensures HeadingsLead(Flush(b))
  {
    var r := Flush(b);
    if |b.current| > 0 && |r.parts| > |b.parts| {
      assert r.parts == b.parts + [Joined(b.current)];
      forall i | 0 <= i < |r.parts|
        ensures PartHeadingFirst(r.parts[i])
      {
        if i < |b.parts| {
          assert r.parts[i] == b.parts[i];
        }
      }
    }
  }

  lemma AppendHeadingsLead(b: Builder, para: string, paraLen: int)
    requires HeadingsLead(b) && (IsHeading(para) ==> b.current == [])
    ensures HeadingsLead(Append(b, para, paraLen))
  {
    var c := b.current + [para];
    forall i | 1 <= i < |c|
      ensures !IsHeading(c[i])
    {
      if i < |b.current| {
        assert c[i] == b.current[i];
      }
    }
  }

  lemma SpillHeadingsLead(b: Builder, para: string, maxChars: int, overlap: int)
    requires maxChars >= 1 && HeadingsLead(b)
    ensures HeadingsLead(Spill(b, para, maxChars, overlap))
  {
    if |para| > maxChars {
      var ws := Wraps(HardWrap(para, maxChars, overlap, 0));
      assert forall i :: 0 <= i < |b.parts + ws| ==> PartHeadingFirst((b.parts + ws)[i]);
    }
  }

  lemma StepHeadingsLead(b: Builder, para: string, maxChars: int, overlap: int)
    requires maxChars >= 1 && HeadingsLead(b)
    ensures HeadingsLead(Step(b, para, maxChars, overlap))
  {
    var paraLen := ParaLen(b, para);
    var b1 := Opened(b, para);
    FlushHeadingsLead(b);
    if b1.currentLen + paraLen <= maxChars {
      AppendHeadingsLead(b1, para, paraLen);
    } else {
      FlushHeadingsLead(b1);
      SpillHeadingsLead(Flush(b1), para, maxChars, overlap);
    }
  }

  lemma {:induction false} BuildHeadingsLead(paras: seq<string>, maxChars: int, overlap: int)
    requires maxChars >= 1
    ensures HeadingsLead(Build(paras, maxChars, overlap))
    decreases |paras|
  {
    if |paras| > 0 {
      BuildHeadingsLead(paras[..|paras| - 1], maxChars, overlap);
      StepHeadingsLead(Build(paras[..|paras| - 1], maxChars, overlap), paras[|paras| - 1], maxChars, overlap);
    }
  }

  /** Headings start chunks: in a chunk packed from several paragraphs only
      the first may be a heading. */
  lemma HeadingStartsChunk(paras: seq<string>, maxChars: int, overlap: int, i: nat, j: nat)
    requires maxChars >= 1 && i < |PackedParts(paras, maxChars, overlap)|
    requires PackedParts(paras, maxChars, overlap)[i].Joined?
    requires 1 <= j < |PackedParts(paras, maxChars, overlap)[i].paras|
    ensures !IsHeading(PackedParts(paras, maxChars, overlap)[i].paras[j])
  {
    BuildHeadingsLead(paras, maxChars, overlap);
    FlushHeadingsLead(Build(paras, maxChars, overlap));
  }

  // Nothing is lost: with a non-negative overlap the parts hold the
  // paragraphs, in order.

  function PartText(p: Part): string {
    match p
    case Joined(ps) => Flatten(ps)
    case Wrapped(t) => t
  }

  function Texts(parts: seq<Part>): (ts: seq<string>)
    ensures |ts| == |parts|
    ensures forall i :: 0 <= i < |parts| ==> ts[i] == PartText(parts[i])
  {
    seq(|parts|, i requires 0 <= i < |parts| => PartText(parts[i]))
  }

  /** The text the parts hold, separators left out. */
  function Content(parts: seq<Part>): string {
    Flatten(Texts(parts))
  }

  lemma ContentAppend(a: seq<Part>, b: seq<Part>)
    ensures Content(a + b) == Content(a) + Content(b)
  {
    assert Texts(a + b) == Texts(a) + Texts(b);
    FlattenAppend(Texts(a), Texts(b));
  }

  lemma ContentOfWraps(slices: seq<string>)
    ensures Content(Wraps(slices)) == Flatten(slices)
  {
    assert Texts(Wraps(slices)) == slices;
  }

  lemma ContentOne(p: Part)
    ensures Content([p]) == PartText(p)
  {
    assert Texts([p]) == [PartText(p)];
    FlattenOne(PartText(p));
  }

  /** Paragraphs as `Paragraphs` produces them: stripped and non-empty. */
  predicate AllParagraphs(ps: seq<string>) {
    forall i :: 0 <= i < |ps| ==> IsParagraph(ps[i])
  }

  /** The open chunk of stripped paragraphs never renders blank. */
  lemma JoinedNotBlank(ps: seq<string>)
    requires |ps| > 0 && AllParagraphs(ps)
    ensures |Render(Joined(ps))| > 0
    decreases |ps|
  {
    if |ps| == 1 {
      StripKeepsFirst(ps[0], Whitespace);
    } else {
      JoinedNotBlank(ps[..|ps| - 1]);
      JoinFirst(ps);
      StripKeepsFirst(Join(ps, ParaSep), Whitespace);
    }
  }

  lemma {:induction false} JoinFirst(ps: seq<string>)
    requires |ps| > 0 && |ps[0]| > 0
    ensures |Join(ps, ParaSep)| > 0 && Join(ps, ParaSep)[0] == ps[0][0]
    decreases |ps|
  {
    if |ps| > 1 {
      JoinFirst(ps[..|ps| - 1]);
    }
  }

  predicate Keeps(b: Builder, paras: seq<string>) {
    && AllParagraphs(b.current)
    && Content(b.parts) + Flatten(b.current) == Flatten(paras)
  }

  lemma FlushKeeps(b: Builder, paras: seq<string>)
    requires Keeps(b, paras)
    ensures Keeps(Flush(b), paras)
  {
    if |b.current| > 0 {
      JoinedNotBlank(b.current);
      ContentAppend(b.parts, [Joined(b.current)]);
      ContentOne(Joined(b.current));
    }
  }

  lemma FlattenOne(p: string)
    ensures Flatten([p]) == p
  {
    assert [p][..0] == [];
  }

  lemma AppendKeeps(b: Builder, paras: seq<string>, para: string, paraLen: int)
    requires IsParagraph(para) && Keeps(b, paras)
    ensures Keeps(Append(b, para, paraLen), paras + [para])
  {
    FlattenAppend(paras, [para]);
    FlattenAppend(b.current, [para]);
    FlattenOne(para);
  }

  lemma SpillKeeps(b: Builder, paras: seq<string>, para: string, maxChars: int, overlap: int)
    requires maxChars >= 1 && overlap >= 0 && IsParagraph(para) && Keeps(b, paras) && b.current == []
    ensures Keeps(Spill(b, para, maxChars, overlap), paras + [para])
  {
    assert Flatten(paras + [para]) == Flatten(paras) + para by {
      FlattenAppend(paras, [para]);
      FlattenOne(para);
    }
    assert Content(b.parts) == Flatten(paras) by {
      assert Flatten(b.current) == [];
    }
    if |para| > maxChars {
      WrapKeeps(b.parts, para, maxChars, overlap);
    } else {
      FlattenOne(para);
    }
  }

  lemma WrapKeeps(parts: seq<Part>, para: string, maxChars: int, overlap: int)
    requires maxChars >= 1 && overlap >= 0
    ensures Content(parts + Wraps(HardWrap(para, maxChars, overlap, 0))) == Content(parts) + para
  {
    var slices := HardWrap(para, maxChars, overlap, 0);
    HardWrapCoversParagraph(para, maxChars, overlap, 0);
    ContentAppend(parts, Wraps(slices));
    ContentOfWraps(slices);
  }

  lemma StepKeeps(b: Builder, paras: seq<string>, para: string, after: seq<string>, maxChars: int, overlap: int)
    requires maxChars >= 1 && overlap >= 0 && IsParagraph(para) && Keeps(b, paras)
    requires after == paras + [para]
    ensures Keeps(Step(b, para, maxChars, overlap), after)
  {
    var paraLen := ParaLen(b, para);
    var b1 := Opened(b, para);
    FlushKeeps(b, paras);
    if b1.currentLen + paraLen <= maxChars {
      AppendKeeps(b1, paras, para, paraLen);
    } else {
      FlushKeeps(b1, paras);
      SpillKeeps(Flush(b1), paras, para, maxChars, overlap);
    }
  }

  lemma {:induction false} BuildKeeps(paras: seq<string>, maxChars: int, overlap: int)
    requires maxChars >= 1 && overlap >= 0 && AllParagraphs(paras)
    ensures Keeps(Build(paras, maxChars, overlap), paras)
    decreases |paras|
  {
    if |paras| > 0 {
      var n := |paras| - 1;
      var init, last := paras[..n], paras[n];
      assert init + [last] == paras;
      BuildKeeps(init, maxChars, overlap);
      StepKeeps(Build(init, maxChars, overlap), init, last, paras, maxChars, overlap);
    }
  }

  /** With a non-negative overlap the chunks hold every paragraph, in order,
      and nothing else besides the blank lines between packed paragraphs. */
  lemma PackedPartsKeepText(paras: seq<string>, maxChars: int, overlap: int)
    requires maxChars >= 1 && overlap >= 0 && AllParagraphs(paras)
    ensures Content(PackedParts(paras, maxChars, overlap)) == Flatten(paras)
  {
    BuildKeeps(paras, maxChars, overlap);
    FlushKeeps(Build(paras, maxChars, overlap), paras);
  }

  /** A packed chunk of stripped paragraphs is their plain join: the final
      `.strip()` removes nothing. */
  lemma JoinedRendersAsJoin(ps: seq<string>)
    requires |ps| > 0 && AllParagraphs(ps)
    ensures Render(Joined(ps)) == Join(ps, ParaSep)
  {
    JoinFirst(ps);
    JoinLast(ps);
    StripOfStripped(Join(ps, ParaSep), Whitespace);
  }

  lemma JoinLast(ps: seq<string>)
    requires |ps| > 0 && |ps[|ps| - 1]| > 0
    ensures |Join(ps, ParaSep)| > 0
    ensures Join(ps, ParaSep)[|Join(ps, ParaSep)| - 1] == ps[|ps| - 1][|ps[|ps| - 1]| - 1]
  {
  }

  // ---------------------------------------------------------------------
  // Overlap and the whole operation.

  /** Each chunk after the first gets `prev[-overlap:] + "\n"` in front of
      it, then is stripped; `prev` is the chunk before, not yet overlapped. */
  function AddOverlap(chunks: seq<string>, overlap: int): (r: seq<string>)
    requires overlap > 0
    ensures |r| == |chunks|
    ensures |chunks| > 0 ==> r[0] == chunks[0]
  {
    seq(|chunks|, i requires 0 <= i < |chunks| =>
      if i == 0 then chunks[0] else Merged(chunks[i - 1], chunks[i], overlap))
  }

  /** `(prev[-overlap:] + "\n" + chunk).strip()`. */
  function Merged(prev: string, chunk: string, overlap: int): string
    requires overlap > 0
  {
    Strip(Tail(prev, overlap) + chunk)
  }

  /** `prev[-overlap:] + "\n"`. */
  function Tail(prev: string, overlap: int): (t: string)
    requires overlap > 0
    ensures |t| <= overlap + 1
  {
    PyDrop(prev, -overlap) + "\n"
  }

  /** For a chunk with no leading or trailing whitespace, as every packed
      paragraph chunk is, the overlapped chunk ends with the chunk it was
      made from, and what comes before it is a piece of at most `overlap`
      characters of the previous chunk's end, and the newline. A hard-wrapped
      slice may end in whitespace, which the final strip removes; only the
      length bound of `OverlappedChunksFit` covers it. */
  lemma OverlapPrefixesTail(chunks: seq<string>, overlap: int, i: nat) returns (m: nat)
    requires overlap > 0 && 0 < i < |chunks| && IsParagraph(chunks[i])
    ensures var tail := Tail(chunks[i - 1], overlap);
      m <= |tail| && AddOverlap(chunks, overlap)[i] == tail[m..] + chunks[i]
    ensures |AddOverlap(chunks, overlap)[i]| <= |chunks[i]| + overlap + 1
  {
    assert AddOverlap(chunks, overlap)[i] == Merged(chunks[i - 1], chunks[i], overlap);
    m := StripBeforeKept(Tail(chunks[i - 1], overlap), chunks[i], Whitespace);
  }

  /** `chunk_markdown`. */
  function ChunkMarkdown(text: string, maxChars: int, overlap: int): (r: seq<string>)
    requires maxChars >= 1
    ensures |r| == |PackedParts(Paragraphs(text), maxChars, overlap)|
    ensures overlap <= 0 ==> r == Renders(PackedParts(Paragraphs(text), maxChars, overlap))
    ensures |r| > 0 ==> r[0] == Render(PackedParts(Paragraphs(text), maxChars, overlap)[0])
  {
    var chunks := Renders(PackedParts(Paragraphs(text), maxChars, overlap));
    if overlap > 0 && |chunks| > 0 then AddOverlap(chunks, overlap) else chunks
  }

  /** Without overlap every chunk fits in `maxChars`. */
  lemma ChunksFit(text: string, maxChars: int, overlap: int, i: nat)
    requires maxChars >= 1 && overlap <= 0 && i < |ChunkMarkdown(text, maxChars, overlap)|
    ensures |ChunkMarkdown(text, maxChars, overlap)[i]| <= maxChars
  {
    PackedPartsFit(Paragraphs(text), maxChars, overlap, i);
  }

  /** With overlap a chunk grows by at most `overlap + 1` characters. */
  lemma OverlappedChunksFit(text: string, maxChars: int, overlap: int, i: nat)
    requires maxChars >= 1 && overlap > 0 && i < |ChunkMarkdown(text, maxChars, overlap)|
    ensures |ChunkMarkdown(text, maxChars, overlap)[i]| <= maxChars + overlap + 1
  {
    var parts := PackedParts(Paragraphs(text), maxChars, overlap);
    var chunks := Renders(parts);
    PackedPartsFit(Paragraphs(text), maxChars, overlap, i);
    if i > 0 {
      var s := Tail(chunks[i - 1], overlap) + chunks[i];
      assert ChunkMarkdown(text, maxChars, overlap)[i] == Merged(chunks[i - 1], chunks[i], overlap);
      StripBounds(s, Whitespace);
    }
  }

  // ---------------------------------------------------------------------
  // `_infer_title`.

  /** The characters `str.splitlines` breaks at. */
  predicate IsLineBreak(c: char) {
    || '\U{000A}' <= c <= '\U{000D}'
    || '\U{001C}' <= c <= '\U{001E}'
    || c == '\U{0085}' || c == '\U{2028}' || c == '\U{2029}'
  }

  const LineBreaks: set<char> := set c: char | IsLineBreak(c)

  /** Where the line starting at `i` ends. */
  function LineEnd(s: string, i: nat): (e: nat)
    requires i <= |s|
    ensures i <= e <= |s|
    ensures e < |s| ==> s[e] in LineBreaks
    ensures forall j :: i <= j < e ==> s[j] !in LineBreaks
    decreases |s| - i
  {
    if i == |s| || s[i] in LineBreaks then i else LineEnd(s, i + 1)
  }

  /** The lines from `i` on, each break character ending one line. This
      differs from `splitlines` only by empty lines (after a `\r` that
      precedes `\n`, and after a final break), which never hold a title. */
  function LinesFrom(s: string, i: nat): (ls: seq<string>)
    requires i <= |s|
    ensures |ls| >= 1
    ensures forall k :: 0 <= k < |ls| ==> forall j :: 0 <= j < |ls[k]| ==> ls[k][j] !in LineBreaks
    decreases |s| - i
  {
    var e := LineEnd(s, i);
    if e == |s| then [s[i..]] else [s[i..e]] + LinesFrom(s, e + 1)
  }

  function Lines(s: string): seq<string> {
    LinesFrom(s, 0)
  }

  /** A stripped line that starts with `#` and has more than one character. */
  predicate IsTitleLine(line: string) {
    var l := Strip(line);
    |l| > 1 && l[0] == '#'
  }

  /** `line.lstrip('#').strip()`. */
  function HeadingText(line: string): string {
    Strip(LStrip(line, {'#'}))
  }

  /** `_infer_title`. */
  function InferTitle(text: string, fallback: string): (t: string)
    ensures (forall k :: 0 <= k < |Lines(text)| ==> !IsTitleLine(Lines(text)[k])) ==> t == fallback
    ensures t != fallback ==> exists k :: 0 <= k < |Lines(text)| && IsTitleLine(Lines(text)[k])
  {
    match FirstWhere(Lines(text), 0, IsTitleLine)
    case None => fallback
    case Some(k) => HeadingText(Strip(Lines(text)[k]))
  }

  /** The title is the heading text of the first title line, and it never
      starts or ends with whitespace. */
  lemma InferTitleIsFirstHeading(text: string, fallback: string, k: nat)
    requires k < |Lines(text)| && IsTitleLine(Lines(text)[k])
    requires forall j :: 0 <= j < k ==> !IsTitleLine(Lines(text)[j])
    ensures InferTitle(text, fallback) == HeadingText(Strip(Lines(text)[k]))
    ensures var t := InferTitle(text, fallback); |t| > 0 ==> t[0] !in Whitespace && t[|t| - 1] !in Whitespace
  {
    var lines := Lines(text);
    assert InferTitle(text, fallback) == HeadingText(Strip(lines[k])) by {
      FirstWhereIsFirst(lines, IsTitleLine, k);
    }
    StripBounds(LStrip(Strip(lines[k]), {'#'}), Whitespace);
  }

  /** A lone `#` is no title: the first heading with text is taken. */
  lemma ExampleTitle(text: string)
    requires text == "#\n# A\nb"
    ensures InferTitle(text, "doc") == "A"
  {
    ExampleLines(text);
    TitleAfterLoneHash(text, "doc", "A");
  }

  /** A first line that is only `#` is skipped, and a second line `# w`
      gives the title `w`, for a stripped, non-empty `w` not starting
      with `#`. */
  lemma TitleAfterLoneHash(text: string, fallback: string, w: string)
    requires |Lines(text)| >= 2 && Lines(text)[0] == "#" && Lines(text)[1] == "# " + w
    requires IsParagraph(w) && w[0] != '#'
    ensures InferTitle(text, fallback) == w
  {
    var ls := Lines(text);
    LoneHashIsNoTitle(ls[0]);
    TitleOfStripped(ls[1], w);
    assert forall j :: 0 <= j < 1 ==> !IsTitleLine(ls[j]) by {
      forall j | 0 <= j < 1 ensures !IsTitleLine(ls[j]) { assert j == 0; }
    }
    InferTitleIsFirstHeading(text, fallback, 1);
  }

  lemma LoneHashIsNoTitle(l: string)
    requires l == "#"
    ensures !IsTitleLine(l)
  {
    StripOfStripped(l, Whitespace);
  }

  lemma ExampleLines(s: string)
    requires s == "#\n# A\nb"
    ensures |Lines(s)| >= 2 && Lines(s)[0] == "#" && Lines(s)[1] == "# A"
  {
    assert LineEnd(s, 0) == 1;
    assert LineEnd(s, 5) == 5;
    assert LineEnd(s, 2) == 5;
    assert LinesFrom(s, 2)[0] == s[2..5];
  }

  /** "# " followed by a word with no whitespace at its ends is a title line
      whose heading text is the word. */
  lemma TitleOfStripped(l: string, w: string)
    requires IsParagraph(w) && w[0] != '#'
    requires l == "# " + w
    ensures IsTitleLine(l) && HeadingText(Strip(l)) == w
  {
    MarkedLineIsStripped(l, w);
    DropHashMark(w);
    DropLeadingSpace(w);
  }

  lemma MarkedLineIsStripped(l: string, w: string)
    requires IsParagraph(w) && l == "# " + w
    ensures Strip(l) == l
  {
    assert l[0] !in Whitespace && l[|l| - 1] == w[|w| - 1];
    StripOfStripped(l, Whitespace);
  }

  lemma DropHashMark(w: string)
    requires |w| > 0 && w[0] != '#'
    ensures LStrip("# " + w, {'#'}) == " " + w
  {
    assert ("# " + w)[1..] == " " + w;
  }

  lemma DropLeadingSpace(w: string)
    requires IsParagraph(w)
    ensures Strip(" " + w) == w
  {
    assert (" " + w)[1..] == w;
    assert LStrip(" " + w, Whitespace) == LStrip(w, Whitespace) == w;
    StripOfStripped(w, Whitespace);
  }
}
