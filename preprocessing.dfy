/** Text preparation for the sentence-transformer classifier
    (research/trainers/stransformers_data_preprocessing.py): punctuation removal,
    sliding-window token chunking, one dataset row per chunk, and the per-class
    sample quota.

    The Hugging Face tokenizer is a parameter. A dataset is a sequence of rows. */
module Preprocessing {
  import opened Text

  /** The two services the scripts ask of the tokenizer: `tokenize` and
      `convert_tokens_to_string`. */
  datatype Tokenizer<!T> = Tokenizer(tokenize: string -> seq<T>, tokensToString: seq<T> -> string)

  /** One dataset row: its "text" and "label" columns. */
  datatype Row<L> = Row(text: string, rowLabel: L)

  // ---------------------------------------------------------------------------
  // remove_punctuation: `text.translate(str.maketrans("", "", string.punctuation))`

  function RemovePunctuation(text: string): (r: string)
    ensures |r| <= |text|
    ensures forall i :: 0 <= i < |r| ==> !IsPunctuation(r[i])
  {
    if text == [] then []
    else if IsPunctuation(text[0]) then RemovePunctuation(text[1..])
    else [text[0]] + RemovePunctuation(text[1..])
  }

  /** Exactly the punctuation is deleted: every other character keeps its number of
      occurrences, and the survivors keep their order. */
  lemma {:induction false} RemovePunctuationDeletesExactlyPunctuation(text: string, c: char)
    ensures multiset(RemovePunctuation(text))[c] == if IsPunctuation(c) then 0 else multiset(text)[c]
    ensures IsSubsequence(RemovePunctuation(text), text)
  {
    if text != [] {
      var t := text[1..];
      RemovePunctuationDeletesExactlyPunctuation(t, c);
      assert text == [text[0]] + t;
      assert multiset(text) == multiset{text[0]} + multiset(t);
      if !IsPunctuation(text[0]) {
        var r := RemovePunctuation(text);
        assert r == [text[0]] + RemovePunctuation(t);
        assert r[1..] == RemovePunctuation(t);
        assert multiset(r) == multiset{text[0]} + multiset(RemovePunctuation(t));
      }
    }
  }

  /** Text with no punctuation is left alone. */
  lemma {:induction false} RemovePunctuationKeepsCleanText(text: string)
    requires forall i :: 0 <= i < |text| ==> !IsPunctuation(text[i])
    ensures RemovePunctuation(text) == text
  {
    if text != [] {
      RemovePunctuationKeepsCleanText(text[1..]);
    }
  }

  lemma RemovePunctuationIdempotent(text: string)
    ensures RemovePunctuation(RemovePunctuation(text)) == RemovePunctuation(text)
  {
    RemovePunctuationKeepsCleanText(RemovePunctuation(text));
  }

  /** The filter works character by character, so it splits over concatenation. */
  lemma {:induction false} RemovePunctuationAppend(a: string, b: string)
    ensures RemovePunctuation(a + b) == RemovePunctuation(a) + RemovePunctuation(b)
  {
    if a != [] {
      assert (a + b)[1..] == a[1..] + b;
      RemovePunctuationAppend(a[1..], b);
    } else {
      assert a + b == b;
    }
  }

  // ---------------------------------------------------------------------------
  // chunk_text: `[tokens[i : i + max_length] for i in range(0, len(tokens), stride)]`

  /** Where Python's slice `s[i:j]` ends, for a sequence of length n: a negative end
      counts from the back, and the end is clamped to the length. */
  function SliceEnd(n: nat, j: int): nat {
    if j < 0 then (if n + j < 0 then 0 else n + j) else if j > n then n else j
  }

  /** Python's `s[i:j]` for a start inside the sequence. */
  function PySlice<X>(s: seq<X>, i: nat, j: int): (r: seq<X>)
    requires i <= |s|
    ensures i + |r| <= |s| && r == s[i..i + |r|]
    ensures 0 <= j ==> i + |r| == if j <= i then i else SliceEnd(|s|, j)
  {
    var e := SliceEnd(|s|, j);
    if e <= i then [] else s[i..e]
  }

  /** The windows starting at `start`, `start + stride`, ... while inside the tokens. */
  function WindowsFrom<T>(tokens: seq<T>, start: nat, maxLength: int, stride: nat): seq<seq<T>>
    requires stride > 0
    decreases |tokens| - start
  {
    if start >= |tokens| then []
    else [PySlice(tokens, start, start + maxLength)] + WindowsFrom(tokens, start + stride, maxLength, stride)
  }

  /** The result of `chunk_text` on a token list: `None` is the ValueError `range`
      raises for a zero step, and a negative step gives an empty range. */
  function Windows<T>(tokens: seq<T>, maxLength: int, stride: int): seq<seq<T>>
    requires stride != 0
  {
    if stride < 0 then [] else WindowsFrom(tokens, 0, maxLength, stride)
  }

  method ChunkText<T>(tokenizer: Tokenizer<T>, text: string, maxLength: int, stride: int)
    returns (chunks: Option<seq<seq<T>>>)
    ensures chunks.None? <==> stride == 0
    ensures chunks.Some? ==> chunks.value == Windows(tokenizer.tokenize(text), maxLength, stride)
  {
    var tokens := tokenizer.tokenize(text);
    if stride == 0 {
      return None;
    }
    if stride < 0 {
      return Some([]);
    }
    var result: seq<seq<T>> := [];
    var i: nat := 0;
    while i < |tokens|
      invariant result + WindowsFrom(tokens, i, maxLength, stride) == WindowsFrom(tokens, 0, maxLength, stride)
      decreases |tokens| - i
    {
      var chunk := PySlice(tokens, i, i + maxLength);
      ghost var rest := WindowsFrom(tokens, i + stride, maxLength, stride);
      WindowsFromStep(tokens, i, maxLength, stride);
      AppendAssoc(result, [chunk], rest);
      result := result + [chunk];
      i := i + stride;
    }
    return Some(result);
  }

  lemma WindowsFromStep<T>(tokens: seq<T>, start: nat, maxLength: int, stride: nat)
    requires stride > 0 && start < |tokens|
    ensures WindowsFrom(tokens, start, maxLength, stride)
      == [PySlice(tokens, start, start + maxLength)] + WindowsFrom(tokens, start + stride, maxLength, stride)
  {
  }

  lemma MulSucc(a: int, b: int)
    ensures (a + 1) * b == a * b + b
  {
  }

  lemma {:induction false} MulMonotone(a: nat, b: nat, m: nat)
    requires a <= b
    ensures a * m <= b * m
    decreases b - a
  {
    if a < b {
      MulMonotone(a, b - 1, m);
      MulSucc(b - 1, m);
    }
  }

  /** Window k starts at `k * stride`. */
  lemma WindowAt<T>(tokens: seq<T>, start: nat, maxLength: int, stride: nat, k: nat)
    requires stride > 0 && k < |WindowsFrom(tokens, start, maxLength, stride)|
    ensures start + k * stride < |tokens|
    ensures WindowsFrom(tokens, start, maxLength, stride)[k]
      == PySlice(tokens, start + k * stride, start + k * stride + maxLength)
  {
    WindowAtOffset(tokens, start, maxLength, stride, k);
    OffsetIsLinear(start, stride, k);
  }

  /** The start of the k-th window after `start`, one stride at a time. */
  function Offset(start: nat, stride: nat, k: nat): nat
    decreases k
  {
    if k == 0 then start else Offset(start + stride, stride, k - 1)
  }

  lemma {:induction false} OffsetIsLinear(start: nat, stride: nat, k: nat)
    ensures Offset(start, stride, k) == start + k * stride
    decreases k
  {
    if k > 0 {
      OffsetIsLinear(start + stride, stride, k - 1);
      MulSucc(k - 1, stride);
    }
  }

  lemma {:induction false} WindowAtOffset<T>(tokens: seq<T>, start: nat, maxLength: int, stride: nat, k: nat)
    requires stride > 0 && k < |WindowsFrom(tokens, start, maxLength, stride)|
    ensures Offset(start, stride, k) < |tokens|
    ensures WindowsFrom(tokens, start, maxLength, stride)[k]
      == PySlice(tokens, Offset(start, stride, k), Offset(start, stride, k) + maxLength)
    decreases k
  {
    WindowsFromStep(tokens, start, maxLength, stride);
    if k > 0 {
      WindowAtOffset(tokens, start + stride, maxLength, stride, k - 1);
    }
  }

  /** There are as many windows as it takes for their starts to pass the end: the
      count c is the least one with `c * stride >= n`. */
  lemma {:induction false} WindowCount<T>(tokens: seq<T>, start: nat, maxLength: int, stride: nat)
    requires stride > 0
    ensures var c := |WindowsFrom(tokens, start, maxLength, stride)|;
      c * stride >= |tokens| - start && (c == 0 || (c - 1) * stride < |tokens| - start)
    decreases |tokens| - start
  {
    if start < |tokens| {
      WindowCount(tokens, start + stride, maxLength, stride);
      MulSucc(|WindowsFrom(tokens, start + stride, maxLength, stride)|, stride);
    }
  }

  /** That count is `ceil(n / stride)`, which is 0 for no tokens. */
  lemma WindowCountIsCeiling<T>(tokens: seq<T>, maxLength: int, stride: nat)
    requires stride > 0
    ensures |WindowsFrom(tokens, 0, maxLength, stride)| == (|tokens| + stride - 1) / stride
  {
    WindowCount(tokens, 0, maxLength, stride);
    CeilingIsLeast(|tokens|, stride, |WindowsFrom(tokens, 0, maxLength, stride)|);
  }

  /** The least c with `c * d >= n` is `(n + d - 1) / d`. */
  lemma CeilingIsLeast(n: nat, d: nat, c: nat)
    requires d > 0 && c * d >= n && (c == 0 || (c - 1) * d < n)
    ensures c == (n + d - 1) / d
  {
    var q := (n + d - 1) / d;
    var r := (n + d - 1) % d;
    assert q * d + r == n + d - 1;
    if q < c {
      MulMonotone(q, c - 1, d);
    } else if q > c {
      MulMonotone(c + 1, q, d);
      MulSucc(c, d);
    }
  }

  /** With a positive `max_length` every window holds between 1 and `max_length` tokens. */
  lemma {:induction false} WindowsBounded<T>(tokens: seq<T>, start: nat, maxLength: int, stride: nat)
    requires stride > 0 && maxLength >= 1
    ensures forall w :: w in WindowsFrom(tokens, start, maxLength, stride) ==> 0 < |w| <= maxLength
    decreases |tokens| - start
  {
    if start < |tokens| {
      WindowsBounded(tokens, start + stride, maxLength, stride);
    }
  }

  /** With `stride == max_length`, as the trainer calls it, the windows are
      disjoint and concatenate back to the tokens. */
  lemma {:induction false} WindowsTile<T>(tokens: seq<T>, start: nat, maxLength: int)
    requires maxLength > 0 && start <= |tokens|
    ensures Flatten(WindowsFrom(tokens, start, maxLength, maxLength)) == tokens[start..]
    decreases |tokens| - start
  {
    if start < |tokens| {
      if start + maxLength <= |tokens| {
        WindowsTile(tokens, start + maxLength, maxLength);
        assert tokens[start..] == tokens[start..start + maxLength] + tokens[start + maxLength..];
      } else {
        assert WindowsFrom(tokens, start + maxLength, maxLength, maxLength) == [];
      }
    }
  }

  /** With `stride < max_length`, consecutive full windows share
      `max_length - stride` tokens. */
  lemma WindowsOverlap<T>(tokens: seq<T>, maxLength: int, stride: nat, k: nat)
    requires 0 < stride < maxLength
    requires k + 1 < |WindowsFrom(tokens, 0, maxLength, stride)|
    requires (k + 1) * stride + maxLength <= |tokens|
    ensures var w := WindowsFrom(tokens, 0, maxLength, stride);
      |w[k]| == |w[k + 1]| == maxLength && w[k][stride..] == w[k + 1][..maxLength - stride]
  {
    var w := WindowsFrom(tokens, 0, maxLength, stride);
    var a := k * stride;
    MulSucc(k, stride);
    WindowIsSlice(tokens, maxLength, stride, k, a);
    WindowIsSlice(tokens, maxLength, stride, k + 1, a + stride);
    FullSlicesOverlap(tokens, a, stride, maxLength);
    assert w[k][stride..] == tokens[a..a + maxLength][stride..];
    assert w[k + 1][..maxLength - stride] == tokens[a + stride..a + stride + maxLength][..maxLength - stride];
  }

  /** A window that fits in the tokens is the plain slice at its start. */
  lemma WindowIsSlice<T>(tokens: seq<T>, maxLength: int, stride: nat, k: nat, a: nat)
    requires 0 < stride && 0 < maxLength && a == k * stride && a + maxLength <= |tokens|
    requires k < |WindowsFrom(tokens, 0, maxLength, stride)|
    ensures WindowsFrom(tokens, 0, maxLength, stride)[k] == tokens[a..a + maxLength]
  {
    WindowAt(tokens, 0, maxLength, stride, k);
  }

  lemma FullSlicesOverlap<T>(tokens: seq<T>, a: nat, d: nat, m: nat)
    requires d < m && a + d + m <= |tokens|
    ensures tokens[a..a + m][d..] == tokens[a + d..a + d + m][..m - d]
  {
    SliceOfSlice(tokens, a, a + m, d, m);
    SliceOfSlice(tokens, a + d, a + d + m, 0, m - d);
  }

  // ---------------------------------------------------------------------------
  // preprocess_text

  /** Lower-casing followed by punctuation removal. */
  function Normalize(text: string): string {
    RemovePunctuation(Lower(text))
  }

  /** The two steps commute: no punctuation character is an upper-case letter, and
      lower-casing never makes one. */
  lemma {:induction false} NormalizeStepsCommute(text: string)
    ensures Normalize(text) == Lower(RemovePunctuation(text))
  {
    if text != [] {
      var c, t := text[0], text[1..];
      assert text == [c] + t;
      NormalizeStepsCommute(t);
      assert Lower(text) == [LowerChar(c)] + Lower(t);
      RemovePunctuationCons(LowerChar(c), Lower(t));
      RemovePunctuationCons(c, t);
      LowerCharKeepsPunctuation(c);
      var head: string := if IsPunctuation(c) then [] else [c];
      LowerAppend(head, RemovePunctuation(t));
      assert Lower(head) == if IsPunctuation(c) then [] else [LowerChar(c)];
    }
  }

  lemma RemovePunctuationCons(c: char, s: string)
    ensures RemovePunctuation([c] + s) == (if IsPunctuation(c) then [] else [c]) + RemovePunctuation(s)
  {
    assert ([c] + s)[1..] == s;
  }

  /** Lower-casing neither makes nor unmakes punctuation. */
  lemma LowerCharKeepsPunctuation(c: char)
    ensures IsPunctuation(LowerChar(c)) <==> IsPunctuation(c)
  {
  }

  /** Normalized text has neither upper-case ASCII letters nor punctuation, and
      normalizing it again changes nothing. */
  lemma NormalizeSpec(text: string)
    ensures forall i :: 0 <= i < |Normalize(text)| ==>
      !IsUpperAscii(Normalize(text)[i]) && !IsPunctuation(Normalize(text)[i])
    ensures Normalize(Normalize(text)) == Normalize(text)
  {
    NormalizeStepsCommute(text);
    var n := Normalize(text);
    LowerKeepsLowered(n);
    RemovePunctuationKeepsCleanText(n);
  }

  lemma LowerKeepsLowered(s: string)
    requires forall i :: 0 <= i < |s| ==> !IsUpperAscii(s[i])
    ensures Lower(s) == s
  {
  }

  /** `preprocess_text`: lower-case, remove punctuation, then chunk. */
  method PreprocessText<T>(tokenizer: Tokenizer<T>, text: string, maxLength: int, stride: int)
    returns (chunks: Option<seq<seq<T>>>)
    ensures chunks.None? <==> stride == 0
    ensures chunks.Some? ==> chunks.value == Windows(tokenizer.tokenize(Normalize(text)), maxLength, stride)
  {
    var lowered := Lower(text);
    var cleaned := RemovePunctuation(lowered);
    chunks := ChunkText(tokenizer, cleaned, maxLength, stride);
  }

  // ---------------------------------------------------------------------------
  // preprocess_dataset (before the shuffle)

  /** The chunks of one text; none when chunking fails. */
  function TextChunks<T>(tokenizer: Tokenizer<T>, text: string, maxLength: int, stride: int): seq<seq<T>> {
    if stride == 0 then [] else Windows(tokenizer.tokenize(Normalize(text)), maxLength, stride)
  }

  /** One row per chunk, each chunk turned back into text, all with one label. */
  function ChunkRows<T, L>(tokenizer: Tokenizer<T>, chunks: seq<seq<T>>, chunkLabel: L): (r: seq<Row<L>>)
    ensures |r| == |chunks|
  {
    seq(|chunks|, k requires 0 <= k < |chunks| => Row(tokenizer.tokensToString(chunks[k]), chunkLabel))
  }

  /** One output row per chunk of the row's text, each with the row's label. */
  function ExpandRow<T, L>(tokenizer: Tokenizer<T>, row: Row<L>, maxLength: int, stride: int): (r: seq<Row<L>>)
    ensures var chunks := TextChunks(tokenizer, row.text, maxLength, stride);
      |r| == |chunks| && forall k :: 0 <= k < |r| ==> r[k] == Row(tokenizer.tokensToString(chunks[k]), row.rowLabel)
  {
    var chunks := TextChunks(tokenizer, row.text, maxLength, stride);
    seq(|chunks|, k requires 0 <= k < |chunks| => Row(tokenizer.tokensToString(chunks[k]), row.rowLabel))
  }

  lemma ExpandRowChunks<T, L>(tokenizer: Tokenizer<T>, row: Row<L>, maxLength: int, stride: int)
    ensures ExpandRow(tokenizer, row, maxLength, stride)
      == ChunkRows(tokenizer, TextChunks(tokenizer, row.text, maxLength, stride), row.rowLabel)
  {
  }

  /** The expanded rows of a whole dataset, in row order. */
  function ExpandAll<T, L>(tokenizer: Tokenizer<T>, rows: seq<Row<L>>, maxLength: int, stride: int): seq<Row<L>> {
    ConcatMap(rows, (row: Row<L>) => ExpandRow(tokenizer, row, maxLength, stride))
  }

  /** The rows the two parallel lists describe. */
  function Zip<L>(texts: seq<string>, labels: seq<L>): (r: seq<Row<L>>)
    requires |texts| == |labels|
    ensures |r| == |texts| && forall k :: 0 <= k < |r| ==> r[k].text == texts[k] && r[k].rowLabel == labels[k]
  {
    seq(|texts|, k requires 0 <= k < |texts| => Row(texts[k], labels[k]))
  }

  lemma ZipSnoc<L>(texts: seq<string>, labels: seq<L>, t: string, l: L)
    requires |texts| == |labels|
    ensures Zip(texts + [t], labels + [l]) == Zip(texts, labels) + [Row(t, l)]
  {
  }

  lemma ExpandAllStep<T, L>(tokenizer: Tokenizer<T>, rows: seq<Row<L>>, i: nat, maxLength: int, stride: int)
    requires i < |rows|
    ensures ExpandAll(tokenizer, rows[..i + 1], maxLength, stride)
      == ExpandAll(tokenizer, rows[..i], maxLength, stride) + ExpandRow(tokenizer, rows[i], maxLength, stride)
  {
    ConcatMapStep(rows, i, (row: Row<L>) => ExpandRow(tokenizer, row, maxLength, stride));
  }

  /** The loop of `preprocess_dataset`: the parallel text and label lists, as the data
      frame holds them before `.sample(frac=1)`. `None` is the chunking ValueError. */
  method PreprocessDataset<T, L>(tokenizer: Tokenizer<T>, rows: seq<Row<L>>, maxLength: int, stride: int)
    returns (processed: Option<seq<Row<L>>>)
    ensures processed.None? <==> stride == 0 && rows != []
    ensures processed.Some? ==> processed.value == ExpandAll(tokenizer, rows, maxLength, stride)
  {
    var processedTexts: seq<string> := [];
    var labels: seq<L> := [];
    for i := 0 to |rows|
      invariant |processedTexts| == |labels|
      invariant i > 0 ==> stride != 0
      invariant Zip(processedTexts, labels) == ExpandAll(tokenizer, rows[..i], maxLength, stride)
    {
      var textChunks := PreprocessText(tokenizer, rows[i].text, maxLength, stride);
      if textChunks.None? {
        return None;
      }
      ExpandAllStep(tokenizer, rows, i, maxLength, stride);
      ExpandRowChunks(tokenizer, rows[i], maxLength, stride);
      processedTexts, labels := AppendChunks(tokenizer, textChunks.value, rows[i].rowLabel, processedTexts, labels);
    }
    assert rows[..|rows|] == rows;
    return Some(Zip(processedTexts, labels));
  }

  /** The inner loop of `preprocess_dataset`: one text and one label appended per chunk. */
  method AppendChunks<T, L>(tokenizer: Tokenizer<T>, chunks: seq<seq<T>>, chunkLabel: L, texts: seq<string>, labels: seq<L>)
    returns (texts': seq<string>, labels': seq<L>)
    requires |texts| == |labels|
    ensures |texts'| == |labels'|
    ensures Zip(texts', labels') == Zip(texts, labels) + ChunkRows(tokenizer, chunks, chunkLabel)
  {
    texts', labels' := texts, labels;
    ghost var added := ChunkRows(tokenizer, chunks, chunkLabel);
    for j := 0 to |chunks|
      invariant |texts'| == |labels'|
      invariant Zip(texts', labels') == Zip(texts, labels) + added[..j]
    {
      var chunkStr := tokenizer.tokensToString(chunks[j]);
      ZipSnoc(texts', labels', chunkStr, chunkLabel);
      texts' := texts' + [chunkStr];
      labels' := labels' + [chunkLabel];
      assert added[..j + 1] == added[..j] + [added[j]];
    }
    assert added[..|chunks|] == added;
  }

  /** Every output row comes from an input row: it carries that row's label and its
      text is one of that row's chunks turned back into text. */
  lemma ExpandedRowsCarryTheirLabel<T, L>(tokenizer: Tokenizer<T>, rows: seq<Row<L>>, maxLength: int, stride: int, k: nat)
    requires k < |ExpandAll(tokenizer, rows, maxLength, stride)|
    ensures exists i, j ::
      (0 <= i < |rows| && 0 <= j < |TextChunks(tokenizer, rows[i].text, maxLength, stride)|
       && ExpandAll(tokenizer, rows, maxLength, stride)[k]
          == Row(tokenizer.tokensToString(TextChunks(tokenizer, rows[i].text, maxLength, stride)[j]), rows[i].rowLabel))
  {
    var f := (row: Row<L>) => ExpandRow(tokenizer, row, maxLength, stride);
    ConcatMapIndex(rows, f, k);
    var i, j :| 0 <= i < |rows| && 0 <= j < |f(rows[i])| && ConcatMap(rows, f)[k] == f(rows[i])[j];
    assert f(rows[i]) == ExpandRow(tokenizer, rows[i], maxLength, stride);
  }

  /** Row order is kept: the rows of a dataset's prefix come out first. */
  lemma ExpandAllAppend<T, L>(tokenizer: Tokenizer<T>, a: seq<Row<L>>, b: seq<Row<L>>, maxLength: int, stride: int)
    ensures ExpandAll(tokenizer, a + b, maxLength, stride)
      == ExpandAll(tokenizer, a, maxLength, stride) + ExpandAll(tokenizer, b, maxLength, stride)
  {
    ConcatMapAppend(a, b, (row: Row<L>) => ExpandRow(tokenizer, row, maxLength, stride));
  }

  // ---------------------------------------------------------------------------
  // limit_dataset

  /** The distinct labels of a dataset (`np.unique(dataset["label"])`). */
  function Labels<L(==)>(rows: seq<Row<L>>): set<L> {
    set r | r in rows :: r.rowLabel
  }

  /** How many rows carry label c. */
  function CountLabel<L(==)>(rows: seq<Row<L>>, c: L): nat {
    if rows == [] then 0
    else CountLabel(rows[..|rows| - 1], c) + (if rows[|rows| - 1].rowLabel == c then 1 else 0)
  }

  /** The per-class quota: `max(1, max_samples // number_of_classes)`, with `None`
      for the ZeroDivisionError of an empty dataset. */
  function Quota<L(==)>(rows: seq<Row<L>>, maxSamples: int): (q: Option<nat>)
    ensures q.None? <==> rows == []
    ensures q.Some? ==> q.value >= 1 && q.value * |Labels(rows)| <= if maxSamples < |Labels(rows)| then |Labels(rows)| else maxSamples
    ensures q.Some? ==> (q.value + 1) * |Labels(rows)| > maxSamples
  {
    var classes := |Labels(rows)|;
    if classes == 0 then
      assert rows != [] ==> rows[0].rowLabel in Labels(rows);
      None
    else
      assert rows != [];
      var perClass := maxSamples / classes;
      Some(if perClass < 1 then 1 else perClass)
  }

  /** What `groupby("label").apply(lambda x: x.sample(min(len(x), quota)))` may
      return: rows drawn from the dataset, each class cut to `min(size, quota)`. */
  ghost predicate IsLimitedSelection<L(!new)>(rows: seq<Row<L>>, quota: nat, selected: seq<Row<L>>) {
    multiset(selected) <= multiset(rows)
    && forall c :: CountLabel(selected, c) == if CountLabel(rows, c) < quota then CountLabel(rows, c) else quota
  }

  /** One such selection: the first `quota` rows of each class, in dataset order. */
  function FirstOfEachClass<L(==)>(rows: seq<Row<L>>, quota: nat): seq<Row<L>> {
    if rows == [] then []
    else
      var kept := FirstOfEachClass(rows[..|rows| - 1], quota);
      var r := rows[|rows| - 1];
      if CountLabel(kept, r.rowLabel) < quota then kept + [r] else kept
  }

  lemma CountLabelSnoc<L>(rows: seq<Row<L>>, r: Row<L>, c: L)
    ensures CountLabel(rows + [r], c) == CountLabel(rows, c) + if r.rowLabel == c then 1 else 0
  {
    assert (rows + [r])[..|rows|] == rows;
  }

  /** The quota can always be met: taking the first rows of each class does it. */
  lemma FirstOfEachClassIsLimited<L(!new)>(rows: seq<Row<L>>, quota: nat)
    ensures IsLimitedSelection(rows, quota, FirstOfEachClass(rows, quota))
  {
    FirstOfEachClassIsDrawn(rows, quota);
    forall c ensures CountLabel(FirstOfEachClass(rows, quota), c)
      == if CountLabel(rows, c) < quota then CountLabel(rows, c) else quota
    {
      FirstOfEachClassCount(rows, quota, c);
    }
  }

  lemma {:induction false} FirstOfEachClassIsDrawn<L>(rows: seq<Row<L>>, quota: nat)
    ensures multiset(FirstOfEachClass(rows, quota)) <= multiset(rows)
  {
    if rows != [] {
      var init := rows[..|rows| - 1];
      var r := rows[|rows| - 1];
      var kept := FirstOfEachClass(init, quota);
      FirstOfEachClassIsDrawn(init, quota);
      assert rows == init + [r];
      SnocKeepsSubMultiset(kept, init, r);
    }
  }

  lemma SnocKeepsSubMultiset<X>(a: seq<X>, b: seq<X>, x: X)
    requires multiset(a) <= multiset(b)
    ensures multiset(a + [x]) <= multiset(b + [x]) && multiset(a) <= multiset(b + [x])
  {
    assert multiset(a + [x]) == multiset(a) + multiset{x};
    assert multiset(b + [x]) == multiset(b) + multiset{x};
  }

  lemma {:induction false} FirstOfEachClassCount<L>(rows: seq<Row<L>>, quota: nat, c: L)
    ensures CountLabel(FirstOfEachClass(rows, quota), c)
      == if CountLabel(rows, c) < quota then CountLabel(rows, c) else quota
  {
    if rows != [] {
      var init := rows[..|rows| - 1];
      var r := rows[|rows| - 1];
      var kept := FirstOfEachClass(init, quota);
      FirstOfEachClassCount(init, quota, c);
      FirstOfEachClassCount(init, quota, r.rowLabel);
      assert CountLabel(rows, c) == CountLabel(init, c) + if r.rowLabel == c then 1 else 0;
      if CountLabel(kept, r.rowLabel) < quota {
        assert FirstOfEachClass(rows, quota) == kept + [r];
        CountLabelSnoc(kept, r, c);
      } else {
        assert FirstOfEachClass(rows, quota) == kept;
      }
    }
  }

  lemma {:induction false} CountLabelPositive<L>(rows: seq<Row<L>>, c: L)
    ensures CountLabel(rows, c) > 0 <==> c in Labels(rows)
  {
    if rows != [] {
      var init := rows[..|rows| - 1];
      CountLabelPositive(init, c);
      assert rows == init + [rows[|rows| - 1]];
      assert Labels(rows) == Labels(init) + {rows[|rows| - 1].rowLabel};
    }
  }

  /** Every class of the dataset survives, and no new class appears. */
  lemma LimitKeepsEveryClass<L(!new)>(rows: seq<Row<L>>, quota: nat, selected: seq<Row<L>>)
    requires quota >= 1 && IsLimitedSelection(rows, quota, selected)
    ensures Labels(selected) == Labels(rows)
  {
    forall c | c in Labels(rows) ensures c in Labels(selected) {
      CountLabelPositive(rows, c);
      CountLabelPositive(selected, c);
    }
    forall c | c in Labels(selected) ensures c in Labels(rows) {
      var r :| r in selected && r.rowLabel == c;
      assert multiset(selected)[r] > 0;
    }
  }

  lemma {:induction false} LabelsAtMostRows<L>(rows: seq<Row<L>>)
    ensures |Labels(rows)| <= |rows|
  {
    if rows != [] {
      var init := rows[..|rows| - 1];
      LabelsAtMostRows(init);
      assert rows == init + [rows[|rows| - 1]];
      assert Labels(rows) == Labels(init) + {rows[|rows| - 1].rowLabel};
    }
  }

  /** The limit is not a cap: with more classes than `max_samples`, every selection
      holds at least one row per class, so more than `max_samples` rows. */
  lemma LimitMayExceedMaxSamples<L(!new)>(rows: seq<Row<L>>, maxSamples: int, selected: seq<Row<L>>)
    requires |Labels(rows)| > maxSamples
    requires Quota(rows, maxSamples).Some?
    requires IsLimitedSelection(rows, Quota(rows, maxSamples).value, selected)
    ensures |selected| > maxSamples
  {
    LimitKeepsEveryClass(rows, Quota(rows, maxSamples).value, selected);
    LabelsAtMostRows(selected);
  }

  /** The rows whose label is not c, in order. */
  function WithoutLabel<L(==)>(rows: seq<Row<L>>, c: L): seq<Row<L>> {
    if rows == [] then []
    else
      WithoutLabel(rows[..|rows| - 1], c)
      + (if rows[|rows| - 1].rowLabel == c then [] else [rows[|rows| - 1]])
  }

  /** Dropping class c removes its rows and nothing else. */
  lemma WithoutLabelSplits<L>(rows: seq<Row<L>>, c: L)
    ensures |rows| == |WithoutLabel(rows, c)| + CountLabel(rows, c)
    ensures Labels(WithoutLabel(rows, c)) == Labels(rows) - {c}
    ensures forall d :: d != c ==> CountLabel(WithoutLabel(rows, c), d) == CountLabel(rows, d)
  {
    WithoutLabelSize(rows, c);
    WithoutLabelLabels(rows, c);
    forall d | d != c ensures CountLabel(WithoutLabel(rows, c), d) == CountLabel(rows, d) {
      WithoutLabelCount(rows, c, d);
    }
  }

  lemma {:induction false} WithoutLabelSize<L>(rows: seq<Row<L>>, c: L)
    ensures |rows| == |WithoutLabel(rows, c)| + CountLabel(rows, c)
  {
    if rows != [] {
      WithoutLabelSize(rows[..|rows| - 1], c);
    }
  }

  lemma {:induction false} WithoutLabelLabels<L>(rows: seq<Row<L>>, c: L)
    ensures Labels(WithoutLabel(rows, c)) == Labels(rows) - {c}
  {
    if rows != [] {
      var init := rows[..|rows| - 1];
      var r := rows[|rows| - 1];
      var w := WithoutLabel(init, c);
      WithoutLabelLabels(init, c);
      assert rows == init + [r];
      assert Labels(rows) == Labels(init) + {r.rowLabel};
      if r.rowLabel != c {
        assert Labels(w + [r]) == Labels(w) + {r.rowLabel};
      } else {
        assert WithoutLabel(rows, c) == w;
      }
    }
  }

  lemma {:induction false} WithoutLabelCount<L>(rows: seq<Row<L>>, c: L, d: L)
    requires d != c
    ensures CountLabel(WithoutLabel(rows, c), d) == CountLabel(rows, d)
  {
    if rows != [] {
      var init := rows[..|rows| - 1];
      var r := rows[|rows| - 1];
      WithoutLabelCount(init, c, d);
      if r.rowLabel != c {
        CountLabelSnoc(WithoutLabel(init, c), r, d);
      } else {
        assert WithoutLabel(rows, c) == WithoutLabel(init, c);
      }
    }
  }

  /** With at most `quota` rows in each class, there are at most `quota` rows per class. */
  lemma {:induction false} SizeWithinQuotaPerClass<L>(rows: seq<Row<L>>, quota: nat)
    requires forall c :: CountLabel(rows, c) <= quota
    ensures |rows| <= quota * |Labels(rows)|
    decreases |Labels(rows)|
  {
    if rows != [] {
      var c := rows[0].rowLabel;
      var w := WithoutLabel(rows, c);
      WithoutLabelSplits(rows, c);
      OneLabelFewer(Labels(rows), c, rows[0]);
      var m := |Labels(w)|;
      assert m + 1 == |Labels(rows)|;
      forall d ensures CountLabel(w, d) <= quota {
        if d == c {
          CountLabelPositive(w, c);
        }
      }
      SizeWithinQuotaPerClass(w, quota);
      assert |rows| <= quota * m + quota;
      MulSucc(m, quota);
    }
  }

  lemma OneLabelFewer<L>(labels: set<L>, c: L, r: Row<L>)
    requires r.rowLabel == c && c in labels
    ensures |labels - {c}| == |labels| - 1
  {
  }

  /** The limited dataset holds at most `max_samples` rows exactly when there are at
      most `max_samples` classes; otherwise it has one row per class and so more. */
  lemma LimitWithinMaxSamples<L(!new)>(rows: seq<Row<L>>, maxSamples: int, selected: seq<Row<L>>)
    requires Quota(rows, maxSamples).Some?
    requires IsLimitedSelection(rows, Quota(rows, maxSamples).value, selected)
    ensures |selected| <= maxSamples <==> |Labels(rows)| <= maxSamples
  {
    var quota := Quota(rows, maxSamples).value;
    if |Labels(rows)| <= maxSamples {
      LimitKeepsEveryClass(rows, quota, selected);
      SizeWithinQuotaPerClass(selected, quota);
    } else {
      LimitMayExceedMaxSamples(rows, maxSamples, selected);
    }
  }
}
