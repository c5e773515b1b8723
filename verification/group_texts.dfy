/** `group_texts`, the batch function of the continued-pretraining script:
    every column of a tokenized batch is concatenated across its samples and
    cut into consecutive blocks of `block_size` tokens; the tail that does
    not fill a block is dropped, and `labels` is a copy of `input_ids`. */
module GroupTexts {
  import opened Wrappers
  import opened Seqs

  /** One column of a batch: a list of token ids (or mask bits) per sample. */
  type Column = seq<seq<int>>

  /** A batch: column name to column. */
  type Batch = map<string, Column>

  const InputIds: string := "input_ids"
  const Labels: string := "labels"

  /** `{k: list(chain(*examples[k])) for k in examples}`. */
  function Concatenated(b: Batch): (c: map<string, seq<int>>)
    ensures c.Keys == b.Keys
  {
    map k | k in b :: Flatten(b[k])
  }

  /** `[t[i:i + size] for i in range(i, total, size)]`. */
  function Chop<T>(t: seq<T>, size: nat, i: nat, total: nat): (bs: seq<seq<T>>)
    requires size >= 1
    ensures forall j :: 0 <= j < |bs| ==> |bs[j]| <= size
    decreases total - i
  {
    if i >= total then [] else [Slice(t, i, i + size)] + Chop(t, size, i + size, total)
  }

  /** Every column mapped to the empty list. */
  function Emptied(c: map<string, seq<int>>): (r: Batch)
    ensures r.Keys == c.Keys
    ensures forall k :: k in r ==> r[k] == []
  {
    map k | k in c :: []
  }

  /** `group_texts(examples)` with `block_size = size`; `None` stands for the
      `KeyError` of a batch without `input_ids` and for the
      `ZeroDivisionError` of a block size of zero. A negative block size
      makes `range(0, total, size)` empty, so every column (and `labels`)
      comes out empty. */
  function Group(b: Batch, size: int): (r: Option<Batch>)
    ensures r.None? <==> InputIds !in b || size == 0
    ensures r.Some? && size >= 1 ==> r.value.Keys == b.Keys + (if |Flatten(b[InputIds])| < size then {} else {Labels})
    ensures r.Some? && size < 0 ==> r.value.Keys == b.Keys + {Labels} && forall k :: k in r.value ==> r.value[k] == []
  {
    if InputIds !in b then None
    else
      var cat := Concatenated(b);
      var total := |cat[InputIds]|;
      if total < size then Some(Emptied(cat))
      else if size == 0 then None
      else if size < 0 then Some(Emptied(cat)[Labels := []])
      else
        var used := (total / size) * size;
        var blocks := map k | k in cat :: Chop(cat[k], size, 0, used);
        Some(blocks[Labels := blocks[InputIds]])
  }

  /** Cutting `n` full blocks from position `i` yields `n` blocks of exactly
      `size` elements whose concatenation is the cut-out stretch (which fixes
      each block's contents). */
  lemma {:induction false} ChopBlocks<T>(t: seq<T>, size: nat, i: nat, n: nat, total: nat)
    requires size >= 1 && total == i + n * size && total <= |t|
    ensures |Chop(t, size, i, total)| == n
    ensures forall j :: 0 <= j < n ==> |Chop(t, size, i, total)[j]| == size
    ensures Flatten(Chop(t, size, i, total)) == t[i..total]
    decreases n
  {
    if n > 0 {
      assert total == (i + size) + (n - 1) * size by {
        MulPred(n, size);
      }
      var rest := Chop(t, size, i + size, total);
      ChopBlocks(t, size, i + size, n - 1, total);
      assert Chop(t, size, i, total) == [t[i..i + size]] + rest;
      FlattenCons(t[i..i + size], rest);
      assert t[i..total] == t[i..i + size] + t[i + size..total];
    }
  }

  lemma MulPred(n: nat, size: nat)
    requires n >= 1
    ensures n * size == (n - 1) * size + size
  {
  }

  /** `(total // size) * size` is a whole number of blocks within `total`,
      and at least one when `total >= size`. */
  lemma WholeBlocks(total: nat, size: nat)
    requires size >= 1
    ensures (total / size) * size <= total
    ensures total >= size ==> total / size >= 1
  {
  }

  /** A batch whose `input_ids` hold fewer tokens than one block comes out
      with every column empty and no `labels` added. */
  lemma ShortBatchIsEmptied(b: Batch, size: int)
    requires InputIds in b && |Flatten(b[InputIds])| < size
    ensures Group(b, size).Some?
    ensures Group(b, size).value.Keys == b.Keys
    ensures forall k :: k in b ==> Group(b, size).value[k] == []
  {
  }

  /** Columns of a batch that are all as long as its `input_ids`, as a
      tokenizer produces them. */
  predicate EvenColumns(b: Batch)
    requires InputIds in b
  {
    forall k :: k in b ==> |Flatten(b[k])| == |Flatten(b[InputIds])|
  }

  /** With at least one full block, every column other than `labels` is cut into
      `total / size` blocks of exactly `size` tokens whose concatenation is
      the column's first `(total / size) * size` tokens, in sample order:
      the remainder is dropped. */
  lemma FullBlocks(b: Batch, size: int, k: string)
    requires InputIds in b && EvenColumns(b) && k in b && k != Labels
    requires 1 <= size <= |Flatten(b[InputIds])|
    ensures var total := |Flatten(b[InputIds])|;
      var n := total / size;
      && Group(b, size).Some?
      && |Group(b, size).value[k]| == n
      && (forall j :: 0 <= j < n ==> |Group(b, size).value[k][j]| == size)
      && Flatten(Group(b, size).value[k]) == Flatten(b[k])[..n * size]
  {
    var total := |Flatten(b[InputIds])|;
    var n := total / size;
    var t := Flatten(b[k]);
    WholeBlocks(total, size);
    ChopBlocks(t, size, 0, n, n * size);
    assert Group(b, size).value[k] == Chop(t, size, 0, n * size);
  }

  /** `labels` is `input_ids`, block for block. */
  lemma LabelsCopyInputIds(b: Batch, size: int)
    requires InputIds in b && size != 0 && |Flatten(b[InputIds])| >= size
    ensures Group(b, size).Some?
    ensures Labels in Group(b, size).value && InputIds in Group(b, size).value
    ensures Group(b, size).value[Labels] == Group(b, size).value[InputIds]
  {
  }
}
