/** Turning articles into LLM prompts and regrouping the LLM's answers into articles
    (research/augmenters/ctransformers-augmentation/dialogs_generation_utils.py).

    The language model's tokenizer and detokenizer and spaCy's sentence splitter are
    not modelled: they are parameters. A sentence is the sequence of its tokens. */
module Dialogs {
  import opened Text

  /** The two services the code asks of the language model. */
  datatype Llm<!T> = Llm(tokenize: string -> seq<T>, detokenize: seq<T> -> string)

  /** The sentence splitter (`[sent.text for sent in nlp(text).sents]`). */
  type SentenceSplitter = string -> seq<string>

  // ---------------------------------------------------------------------------
  // chunk_text: greedy packing of whole sentences into chunks

  /** Each sentence as the model's tokens. */
  function TokenizeAll<T>(llm: Llm<T>, sentences: seq<string>): (r: seq<seq<T>>)
    ensures |r| == |sentences|
    ensures forall k :: 0 <= k < |r| ==> r[k] == llm.tokenize(sentences[k])
  {
    seq(|sentences|, k requires 0 <= k < |sentences| => llm.tokenize(sentences[k]))
  }

  /** The sentences that fit the budget; a longer one is skipped whole. */
  function Kept<T>(sentences: seq<seq<T>>, budget: int): (r: seq<seq<T>>)
    ensures |r| <= |sentences|
    ensures forall k :: 0 <= k < |r| ==> |r[k]| <= budget && r[k] in sentences
  {
    if sentences == [] then []
    else (if |sentences[0]| <= budget then [sentences[0]] else []) + Kept(sentences[1..], budget)
  }

  /** The packing loop from a given point on: `current` holds the sentences of the
      chunk under construction, `sentences` those still to be read. The result is the
      list of emitted chunks, each given as the sentences it is made of. */
  function GroupFrom<T>(sentences: seq<seq<T>>, budget: int, current: seq<seq<T>>): seq<seq<seq<T>>>
    decreases |sentences|
  {
    if sentences == [] then
      (if Flatten(current) == [] then [] else [current])
    else
      var s := sentences[0];
      if |s| > budget then
        GroupFrom(sentences[1..], budget, current)
      else if |Flatten(current)| + |s| > budget && Flatten(current) != [] then
        [current] + GroupFrom(sentences[1..], budget, [s])
      else
        GroupFrom(sentences[1..], budget, current + [s])
  }

  /** The chunks `chunk_text` emits, each as the sentences it packs. */
  function Groups<T>(sentences: seq<seq<T>>, budget: int): seq<seq<seq<T>>> {
    GroupFrom(sentences, budget, [])
  }

  /** The token lists of the emitted chunks. */
  function ChunkTokens<T>(sentences: seq<seq<T>>, budget: int): seq<seq<T>> {
    FlattenEach(Groups(sentences, budget))
  }

  function FlattenEach<T>(groups: seq<seq<seq<T>>>): (r: seq<seq<T>>)
    ensures |r| == |groups|
    ensures forall k :: 0 <= k < |r| ==> r[k] == Flatten(groups[k])
  {
    if groups == [] then [] else FlattenEach(groups[..|groups| - 1]) + [Flatten(groups[|groups| - 1])]
  }

  /** The detokenized text of each group. */
  function DetokenizeGroups<T>(llm: Llm<T>, groups: seq<seq<seq<T>>>): (r: seq<string>)
    ensures |r| == |groups|
    ensures forall k :: 0 <= k < |r| ==> r[k] == llm.detokenize(Flatten(groups[k]))
  {
    if groups == [] then []
    else DetokenizeGroups(llm, groups[..|groups| - 1]) + [llm.detokenize(Flatten(groups[|groups| - 1]))]
  }

  /** The chunk texts `chunk_text` returns for `text`. */
  function Chunks<T>(llm: Llm<T>, split: SentenceSplitter, text: string, maxTokensPerChunk: int, padding: int): seq<string> {
    DetokenizeGroups(llm, Groups(TokenizeAll(llm, split(text)), maxTokensPerChunk - padding))
  }

  lemma FlattenSnoc<T>(g: seq<seq<T>>, s: seq<T>)
    ensures Flatten(g + [s]) == Flatten(g) + s
  {
    FlattenAppend(g, [s]);
    assert Flatten([s]) == s + Flatten([s][1..]);
  }

  lemma DetokenizeSnoc<T>(llm: Llm<T>, groups: seq<seq<seq<T>>>, g: seq<seq<T>>)
    ensures DetokenizeGroups(llm, groups + [g]) == DetokenizeGroups(llm, groups) + [llm.detokenize(Flatten(g))]
  {
    assert (groups + [g])[..|groups|] == groups;
  }

  /** One flush of the packing loop, seen from the emitted list. */
  lemma FlushStep<T>(emitted: seq<seq<seq<T>>>, current: seq<seq<T>>, rest: seq<seq<T>>, budget: int)
    requires rest != [] && |rest[0]| <= budget
    requires |Flatten(current)| + |rest[0]| > budget && Flatten(current) != []
    ensures emitted + GroupFrom(rest, budget, current)
      == (emitted + [current]) + GroupFrom(rest[1..], budget, [] + [rest[0]])
  {
    assert [] + [rest[0]] == [rest[0]];
  }

  /** `chunk_text`: sentences are read in order; one over the budget is skipped;
      the chunk under construction is emitted when the next sentence would overflow
      it; the last non-empty chunk is emitted at the end. */
  method ChunkText<T>(llm: Llm<T>, split: SentenceSplitter, text: string, maxTokensPerChunk: int, padding: int)
    returns (chunks: seq<string>)
    ensures chunks == Chunks(llm, split, text, maxTokensPerChunk, padding)
  {
    var sentences := split(text);
    ghost var tokenized := TokenizeAll(llm, sentences);
    var budget := maxTokensPerChunk - padding;
    chunks := [];
    var currentChunk: seq<T> := [];
    var currentCount := 0;
    ghost var currentGroup: seq<seq<T>> := [];
    ghost var emitted: seq<seq<seq<T>>> := [];
    for i := 0 to |sentences|
      invariant currentChunk == Flatten(currentGroup) && currentCount == |currentChunk|
      invariant emitted + GroupFrom(tokenized[i..], budget, currentGroup) == Groups(tokenized, budget)
      invariant chunks == DetokenizeGroups(llm, emitted)
    {
      var sentenceTokens := llm.tokenize(sentences[i]);
      var sentenceCount := |sentenceTokens|;
      ghost var rest := tokenized[i..];
      assert rest[0] == sentenceTokens && rest[1..] == tokenized[i + 1..];
      if sentenceCount <= budget {
        if currentCount + sentenceCount > budget && currentChunk != [] {
          FlushStep(emitted, currentGroup, rest, budget);
          DetokenizeSnoc(llm, emitted, currentGroup);
          chunks := chunks + [llm.detokenize(currentChunk)];
          emitted := emitted + [currentGroup];
          currentChunk := [];
          currentCount := 0;
          currentGroup := [];
        } else {
          assert GroupFrom(rest, budget, currentGroup)
            == GroupFrom(rest[1..], budget, currentGroup + [sentenceTokens]);
        }
        FlattenSnoc(currentGroup, sentenceTokens);
        currentChunk := currentChunk + sentenceTokens;
        currentCount := currentCount + sentenceCount;
        currentGroup := currentGroup + [sentenceTokens];
      } else {
        assert GroupFrom(rest, budget, currentGroup) == GroupFrom(rest[1..], budget, currentGroup);
      }
    }
    assert tokenized[|sentences|..] == [];
    if currentChunk != [] {
      DetokenizeSnoc(llm, emitted, currentGroup);
      chunks := chunks + [llm.detokenize(currentChunk)];
      emitted := emitted + [currentGroup];
    }
  }

  // Properties of the packing

  /** Every emitted chunk is non-empty and within the budget. */
  lemma {:induction false} GroupFromBounded<T>(sentences: seq<seq<T>>, budget: int, current: seq<seq<T>>)
    requires |Flatten(current)| <= budget || Flatten(current) == []
    ensures forall g :: g in GroupFrom(sentences, budget, current) ==> 0 < |Flatten(g)| <= budget
    decreases |sentences|
  {
    if sentences != [] {
      var s := sentences[0];
      if |s| > budget {
        GroupFromBounded(sentences[1..], budget, current);
      } else if |Flatten(current)| + |s| > budget && Flatten(current) != [] {
        assert Flatten([s]) == s + Flatten([s][1..]);
        GroupFromBounded(sentences[1..], budget, [s]);
      } else {
        FlattenSnoc(current, s);
        GroupFromBounded(sentences[1..], budget, current + [s]);
      }
    }
  }

  lemma ChunkTokensBounded<T>(sentences: seq<seq<T>>, budget: int)
    ensures forall c :: c in ChunkTokens(sentences, budget) ==> 0 < |c| <= budget
  {
    GroupFromBounded(sentences, budget, []);
    var g := Groups(sentences, budget);
    forall c | c in ChunkTokens(sentences, budget) ensures 0 < |c| <= budget {
      var k :| 0 <= k < |g| && c == FlattenEach(g)[k];
      assert g[k] in g;
    }
  }

  /** The chunks partition the kept sentences, in order: no sentence is split, none
      reordered, and only those over the budget are lost (sentences without tokens
      vanish too when nothing else is kept). */
  lemma {:induction false} GroupFromPartition<T>(sentences: seq<seq<T>>, budget: int, current: seq<seq<T>>)
    requires |Flatten(current)| <= budget || Flatten(current) == []
    ensures Flatten(GroupFrom(sentences, budget, current))
      == if Flatten(current + Kept(sentences, budget)) == [] then [] else current + Kept(sentences, budget)
    decreases |sentences|
  {
    if sentences == [] {
      PartitionEnd(budget, current);
    } else {
      var s := sentences[0];
      var rest := sentences[1..];
      if |s| > budget {
        assert Kept(sentences, budget) == Kept(rest, budget);
        GroupFromPartition(rest, budget, current);
      } else if |Flatten(current)| + |s| > budget && Flatten(current) != [] {
        assert Flatten([s]) == s + Flatten([s][1..]);
        GroupFromPartition(rest, budget, [s]);
        PartitionFlushStep(sentences, budget, current);
      } else {
        FlattenSnoc(current, s);
        GroupFromPartition(rest, budget, current + [s]);
        PartitionAppendStep(sentences, budget, current);
      }
    }
  }

  lemma PartitionEnd<T>(budget: int, current: seq<seq<T>>)
    ensures Flatten(GroupFrom([], budget, current))
      == if Flatten(current + Kept([], budget)) == [] then [] else current + Kept([], budget)
  {
    assert current + Kept([], budget) == current;
    if Flatten(current) != [] {
      assert Flatten([current]) == current + Flatten([current][1..]);
    }
  }

  lemma PartitionAppendStep<T>(sentences: seq<seq<T>>, budget: int, current: seq<seq<T>>)
    requires sentences != [] && |sentences[0]| <= budget
    requires !(|Flatten(current)| + |sentences[0]| > budget && Flatten(current) != [])
    requires Flatten(GroupFrom(sentences[1..], budget, current + [sentences[0]]))
      == if Flatten(current + [sentences[0]] + Kept(sentences[1..], budget)) == [] then []
         else current + [sentences[0]] + Kept(sentences[1..], budget)
    ensures Flatten(GroupFrom(sentences, budget, current))
      == if Flatten(current + Kept(sentences, budget)) == [] then [] else current + Kept(sentences, budget)
  {
    var s := sentences[0];
    var rest := sentences[1..];
    var k := Kept(rest, budget);
    assert Kept(sentences, budget) == [s] + k;
    AppendAssoc(current, [s], k);
    assert GroupFrom(sentences, budget, current) == GroupFrom(rest, budget, current + [s]);
  }

  lemma PartitionFlushStep<T>(sentences: seq<seq<T>>, budget: int, current: seq<seq<T>>)
    requires sentences != [] && |sentences[0]| <= budget
    requires |Flatten(current)| + |sentences[0]| > budget && Flatten(current) != []
    requires |Flatten(current)| <= budget
    requires Flatten(GroupFrom(sentences[1..], budget, [sentences[0]]))
      == if Flatten([sentences[0]] + Kept(sentences[1..], budget)) == [] then []
         else [sentences[0]] + Kept(sentences[1..], budget)
    ensures Flatten(GroupFrom(sentences, budget, current)) == current + Kept(sentences, budget)
    ensures Flatten(current + Kept(sentences, budget)) != []
  {
    FlattenAppend(current, Kept(sentences, budget));
    var s := sentences[0];
    var rest := sentences[1..];
    assert Flatten([s]) == s + Flatten([s][1..]);
    FlattenAppend([s], Kept(rest, budget));
    assert Flatten([s] + Kept(rest, budget)) != [];
    assert GroupFrom(sentences, budget, current) == [current] + GroupFrom(rest, budget, [s]);
    FlattenAppend([current], GroupFrom(rest, budget, [s]));
    assert Flatten([current]) == current + Flatten([current][1..]);
    assert Kept(sentences, budget) == [s] + Kept(rest, budget);
  }

  lemma GroupsPartition<T>(sentences: seq<seq<T>>, budget: int)
    ensures Flatten(Groups(sentences, budget))
      == if Flatten(Kept(sentences, budget)) == [] then [] else Kept(sentences, budget)
  {
    GroupFromPartition(sentences, budget, []);
    assert [] + Kept(sentences, budget) == Kept(sentences, budget);
  }

  lemma {:induction false} FlattenOfFlattenEach<T>(groups: seq<seq<seq<T>>>)
    ensures Flatten(FlattenEach(groups)) == Flatten(Flatten(groups))
  {
    if groups != [] {
      var init := groups[..|groups| - 1];
      var last := groups[|groups| - 1];
      FlattenOfFlattenEach(init);
      assert groups == init + [last];
      FlattenSnoc(FlattenEach(init), Flatten(last));
      FlattenSnoc(init, last);
      FlattenAppend(Flatten(init), last);
    }
  }

  /** Concatenating the chunks' tokens gives the tokens of the kept sentences, in order. */
  lemma ChunkTokensPreserveOrder<T>(sentences: seq<seq<T>>, budget: int)
    ensures Flatten(ChunkTokens(sentences, budget)) == Flatten(Kept(sentences, budget))
  {
    GroupsPartition(sentences, budget);
    FlattenOfFlattenEach(Groups(sentences, budget));
  }

  /** Chunk k was started because its first sentence did not fit in chunk k - 1. */
  predicate FlushedOnOverflow<T>(groups: seq<seq<seq<T>>>, k: int, budget: int)
    requires 0 < k < |groups|
  {
    |groups[k]| > 0 && |Flatten(groups[k - 1])| + |groups[k][0]| > budget
  }

  /** Greedy: a chunk is emitted only when the first sentence of the next chunk would
      have overflowed it; the chunk under construction opens the first emitted chunk. */
  lemma {:induction false} GroupFromGreedy<T>(sentences: seq<seq<T>>, budget: int, current: seq<seq<T>>)
    requires |Flatten(current)| <= budget || Flatten(current) == []
    ensures Flatten(current) != [] ==>
      (|GroupFrom(sentences, budget, current)| > 0
       && |current| <= |GroupFrom(sentences, budget, current)[0]|
       && GroupFrom(sentences, budget, current)[0][..|current|] == current)
    ensures forall k :: 0 < k < |GroupFrom(sentences, budget, current)| ==>
      FlushedOnOverflow(GroupFrom(sentences, budget, current), k, budget)
    decreases |sentences|
  {
    if sentences != [] {
      var s := sentences[0];
      var rest := sentences[1..];
      var r := GroupFrom(sentences, budget, current);
      if |s| > budget {
        assert r == GroupFrom(rest, budget, current);
        GroupFromGreedy(rest, budget, current);
      } else if |Flatten(current)| + |s| > budget && Flatten(current) != [] {
        assert Flatten([s]) == s + Flatten([s][1..]);
        GroupFromGreedy(rest, budget, [s]);
        var r' := GroupFrom(rest, budget, [s]);
        assert r == [current] + r';
        forall k | 0 < k < |r| ensures FlushedOnOverflow(r, k, budget) {
          if k == 1 {
            assert r[1] == r'[0] && r'[0][..1] == [s];
          } else {
            assert FlushedOnOverflow(r', k - 1, budget);
            assert r[k - 1] == r'[k - 2] && r[k] == r'[k - 1];
          }
        }
      } else {
        FlattenSnoc(current, s);
        GroupFromGreedy(rest, budget, current + [s]);
        assert r == GroupFrom(rest, budget, current + [s]);
        if Flatten(current) != [] {
          assert r[0][..|current| + 1] == current + [s];
          assert r[0][..|current|] == (current + [s])[..|current|];
        }
      }
    }
  }

  lemma GroupsGreedy<T>(sentences: seq<seq<T>>, budget: int)
    ensures var g := Groups(sentences, budget);
      forall k :: 0 < k < |g| ==> FlushedOnOverflow(g, k, budget)
  {
    GroupFromGreedy(sentences, budget, []);
  }

  // ---------------------------------------------------------------------------
  // generate_dialog_from_chunks and generate_dialogs

  /** The default message modifier, `lambda message: message`. */
  function Identity(message: string): string { message }

  /** `generate_dialog_from_chunks`: `None` for no chunks, otherwise one user message
      per chunk, the query text followed by the chunk, passed through the modifier. */
  method DialogFromChunks(userQuery: string, chunks: seq<string>, modifyUserMessage: string -> string)
    returns (dialog: Option<seq<string>>)
    ensures dialog.None? <==> chunks == []
    ensures dialog.Some? ==>
      (|dialog.value| == |chunks|
       && forall k :: 0 <= k < |chunks| ==> dialog.value[k] == modifyUserMessage(userQuery + chunks[k]))
  {
    if chunks == [] {
      return None;
    }
    var messages: seq<string> := [];
    for k := 0 to |chunks|
      invariant |messages| == k
      invariant forall j :: 0 <= j < k ==> messages[j] == modifyUserMessage(userQuery + chunks[j])
    {
      var userMessage := modifyUserMessage(userQuery + chunks[k]);
      messages := messages + [userMessage];
    }
    dialog := Some(messages);
  }

  /** The tokens reserved besides the query itself in "paragraphs" mode. */
  const SafetyPadding: int := 10

  /** The chunks one article is cut into: spaCy sentences in "sentence" mode, packed
      chunks in "paragraphs" mode, none for any other method name. */
  function ArticleChunks<T>(llm: Llm<T>, split: SentenceSplitter, userQuery: string, article: string,
                            chunkingMethod: string, maxTokens: int): seq<string>
  {
    if chunkingMethod == "sentence" then split(article)
    else if chunkingMethod == "paragraphs" then
      Chunks(llm, split, article, maxTokens, |llm.tokenize(userQuery)| + SafetyPadding)
    else []
  }

  /** The prompts of one dialog with the default modifier. */
  function Prompts(userQuery: string, chunks: seq<string>): (r: seq<string>)
    ensures |r| == |chunks|
    ensures forall k :: 0 <= k < |r| ==> r[k] == userQuery + chunks[k]
  {
    seq(|chunks|, k requires 0 <= k < |chunks| => userQuery + chunks[k])
  }

  /** The dialogs of a list of articles: one per article that has chunks, in article order. */
  function DialogsOf<T>(llm: Llm<T>, split: SentenceSplitter, userQuery: string, articles: seq<string>,
                        chunkingMethod: string, maxTokens: int): seq<seq<string>>
  {
    if articles == [] then []
    else
      var chunks := ArticleChunks(llm, split, userQuery, articles[|articles| - 1], chunkingMethod, maxTokens);
      DialogsOf(llm, split, userQuery, articles[..|articles| - 1], chunkingMethod, maxTokens)
        + (if chunks == [] then [] else [Prompts(userQuery, chunks)])
  }

  lemma DialogsOfStep<T>(llm: Llm<T>, split: SentenceSplitter, userQuery: string, articles: seq<string>,
                         i: nat, chunkingMethod: string, maxTokens: int)
    requires i < |articles|
    ensures var chunks := ArticleChunks(llm, split, userQuery, articles[i], chunkingMethod, maxTokens);
      DialogsOf(llm, split, userQuery, articles[..i + 1], chunkingMethod, maxTokens)
      == DialogsOf(llm, split, userQuery, articles[..i], chunkingMethod, maxTokens)
         + (if chunks == [] then [] else [Prompts(userQuery, chunks)])
  {
    assert articles[..i + 1][..i] == articles[..i];
  }

  /** `generate_dialogs`. */
  method GenerateDialogs<T>(llm: Llm<T>, split: SentenceSplitter, userQuery: string, articles: seq<string>,
                            chunkingMethod: string, maxTokens: int)
    returns (dialogs: seq<seq<string>>)
    ensures dialogs == DialogsOf(llm, split, userQuery, articles, chunkingMethod, maxTokens)
  {
    dialogs := [];
    var queriesPadding := |llm.tokenize(userQuery)|;
    var additionalSafetyPadding := SafetyPadding;
    for i := 0 to |articles|
      invariant dialogs == DialogsOf(llm, split, userQuery, articles[..i], chunkingMethod, maxTokens)
    {
      var chunks: seq<string> := [];
      if chunkingMethod == "sentence" {
        chunks := split(articles[i]);
      } else if chunkingMethod == "paragraphs" {
        chunks := ChunkText(llm, split, articles[i], maxTokens, queriesPadding + additionalSafetyPadding);
      }
      assert chunks == ArticleChunks(llm, split, userQuery, articles[i], chunkingMethod, maxTokens);
      var dialog := DialogFromChunks(userQuery, chunks, Identity);
      DialogsOfStep(llm, split, userQuery, articles, i, chunkingMethod, maxTokens);
      if dialog.Some? {
        assert dialog.value == Prompts(userQuery, chunks);
        dialogs := dialogs + [dialog.value];
      }
    }
    assert articles[..|articles|] == articles;
  }

  /** At most one dialog per article, none empty, each prompt starting with the query. */
  lemma {:induction false} DialogsShape<T>(llm: Llm<T>, split: SentenceSplitter, userQuery: string,
                                           articles: seq<string>, chunkingMethod: string, maxTokens: int)
    ensures var d := DialogsOf(llm, split, userQuery, articles, chunkingMethod, maxTokens);
      |d| <= |articles|
      && forall k :: 0 <= k < |d| ==>
        (|d[k]| > 0
         && forall j :: 0 <= j < |d[k]| ==> |userQuery| <= |d[k][j]| && d[k][j][..|userQuery|] == userQuery)
  {
    if articles != [] {
      DialogsShape(llm, split, userQuery, articles[..|articles| - 1], chunkingMethod, maxTokens);
    }
  }

  /** Only "sentence" and "paragraphs" produce dialogs. */
  lemma {:induction false} UnknownMethodGivesNoDialogs<T>(llm: Llm<T>, split: SentenceSplitter, userQuery: string,
                                                          articles: seq<string>, chunkingMethod: string, maxTokens: int)
    requires chunkingMethod != "sentence" && chunkingMethod != "paragraphs"
    ensures DialogsOf(llm, split, userQuery, articles, chunkingMethod, maxTokens) == []
  {
    if articles != [] {
      UnknownMethodGivesNoDialogs(llm, split, userQuery, articles[..|articles| - 1], chunkingMethod, maxTokens);
    }
  }

  /** Dialogs follow article order: the dialogs of two lists of articles are those of
      the first followed by those of the second. */
  lemma {:induction false} DialogsOfAppend<T>(llm: Llm<T>, split: SentenceSplitter, userQuery: string,
                                              a: seq<string>, b: seq<string>, chunkingMethod: string, maxTokens: int)
    ensures DialogsOf(llm, split, userQuery, a + b, chunkingMethod, maxTokens)
      == DialogsOf(llm, split, userQuery, a, chunkingMethod, maxTokens)
         + DialogsOf(llm, split, userQuery, b, chunkingMethod, maxTokens)
  {
    if b == [] {
      assert a + b == a;
    } else {
      var b' := b[..|b| - 1];
      assert (a + b)[..|a + b| - 1] == a + b';
      DialogsOfAppend(llm, split, userQuery, a, b', chunkingMethod, maxTokens);
    }
  }

  /** In "paragraphs" mode every prompt's chunk is packed from at most
      `max_tokens - len(tokenize(USER_QUERY)) - 10` tokens. */
  lemma ParagraphChunksFitPrompt<T>(llm: Llm<T>, split: SentenceSplitter, userQuery: string, article: string, maxTokens: int)
    ensures var g := Groups(TokenizeAll(llm, split(article)), maxTokens - (|llm.tokenize(userQuery)| + SafetyPadding));
      && ArticleChunks(llm, split, userQuery, article, "paragraphs", maxTokens) == DetokenizeGroups(llm, g)
      && forall k :: 0 <= k < |g| ==> 0 < |Flatten(g[k])| <= maxTokens - |llm.tokenize(userQuery)| - 10
  {
    var g := Groups(TokenizeAll(llm, split(article)), maxTokens - (|llm.tokenize(userQuery)| + SafetyPadding));
    GroupFromBounded(TokenizeAll(llm, split(article)), maxTokens - (|llm.tokenize(userQuery)| + SafetyPadding), []);
    forall k | 0 <= k < |g| ensures 0 < |Flatten(g[k])| <= maxTokens - |llm.tokenize(userQuery)| - 10 {
      assert g[k] in g;
    }
  }

  // ---------------------------------------------------------------------------
  // rebuild_articles_from_responses

  /** Each content followed by one space, as the `+=` loop builds it. */
  function JoinWithSpaces(contents: seq<string>): string {
    if contents == [] then ""
    else JoinWithSpaces(contents[..|contents| - 1]) + contents[|contents| - 1] + " "
  }

  /** One rebuilt article: its contents joined by spaces, then stripped. */
  function ArticleText(contents: seq<string>): string {
    Strip(JoinWithSpaces(contents))
  }

  /** A count as `range` reads it: a negative count is an empty range. */
  function RangeLength(count: int): nat {
    if count < 0 then 0 else count
  }

  /** The number of responses the counts consume. */
  function TotalCount(counts: seq<int>): nat {
    if counts == [] then 0 else TotalCount(counts[..|counts| - 1]) + RangeLength(counts[|counts| - 1])
  }

  /** Where article k's responses start: the responses of the articles before it. */
  function Offset(counts: seq<int>, k: nat): nat
    requires k <= |counts|
  {
    TotalCount(counts[..k])
  }

  lemma OffsetStep(counts: seq<int>, k: nat)
    requires k < |counts|
    ensures Offset(counts, k + 1) == Offset(counts, k) + RangeLength(counts[k])
  {
    assert counts[..k + 1][..k] == counts[..k];
  }

  lemma {:induction false} OffsetAtMostTotal(counts: seq<int>, k: nat)
    requires k <= |counts|
    ensures Offset(counts, k) <= TotalCount(counts)
    decreases |counts| - k
  {
    if k < |counts| {
      OffsetStep(counts, k);
      OffsetAtMostTotal(counts, k + 1);
    } else {
      assert counts[..k] == counts;
    }
  }

  /** Article k: the text of its own run of responses. */
  function ArticleOf(responses: seq<string>, counts: seq<int>, k: nat): string
    requires k < |counts| && Offset(counts, k + 1) <= |responses|
  {
    OffsetStep(counts, k);
    ArticleText(responses[Offset(counts, k)..Offset(counts, k + 1)])
  }

  /** Article k of `rebuilt` is the article the counts describe. */
  predicate ArticleAt(responses: seq<string>, counts: seq<int>, rebuilt: seq<string>, k: nat)
    requires k < |counts| && k < |rebuilt|
  {
    Offset(counts, k + 1) <= |responses| && rebuilt[k] == ArticleOf(responses, counts, k)
  }

  lemma RebuiltSnoc(responses: seq<string>, counts: seq<int>, rebuilt: seq<string>, article: string)
    requires |rebuilt| < |counts|
    requires forall k :: 0 <= k < |rebuilt| ==> ArticleAt(responses, counts, rebuilt, k)
    requires Offset(counts, |rebuilt| + 1) <= |responses|
    requires article == ArticleOf(responses, counts, |rebuilt|)
    ensures forall k :: 0 <= k <= |rebuilt| ==> ArticleAt(responses, counts, rebuilt + [article], k)
  {
    forall k | 0 <= k <= |rebuilt|
      ensures ArticleAt(responses, counts, rebuilt + [article], k)
    {
      if k < |rebuilt| {
        assert ArticleAt(responses, counts, rebuilt, k);
      }
    }
  }

  /** The inner loop of `rebuild_articles_from_responses`: the contents of `count`
      responses from `start` on, each followed by a space; `None` when the responses
      run out first. */
  method JoinRun(responses: seq<string>, start: nat, count: int) returns (joined: Option<string>)
    requires start <= |responses|
    ensures joined.None? <==> start + RangeLength(count) > |responses|
    ensures joined.Some? ==> joined.value == JoinWithSpaces(responses[start..start + RangeLength(count)])
  {
    var currentArticle := "";
    var responseIndex := start;
    var j := 0;
    assert responses[start..start] == [];
    while j < count
      invariant 0 <= j <= RangeLength(count)
      invariant responseIndex == start + j <= |responses|
      invariant currentArticle == JoinWithSpaces(responses[start..responseIndex])
    {
      if responseIndex >= |responses| {
        return None;
      }
      ghost var taken := responses[start..responseIndex + 1];
      assert taken[..|taken| - 1] == responses[start..responseIndex] && taken[|taken| - 1] == responses[responseIndex];
      currentArticle := currentArticle + responses[responseIndex] + " ";
      responseIndex := responseIndex + 1;
      j := j + 1;
    }
    return Some(currentArticle);
  }

  /** `rebuild_articles_from_responses`, given the generated content of each response:
      `None` stands for the IndexError raised when the counts ask for more responses
      than there are. Otherwise article k is made of the `count_k` responses that
      follow those of the articles before it. */
  method RebuildArticles(responses: seq<string>, chunksPerDialog: seq<int>) returns (rebuilt: Option<seq<string>>)
    ensures rebuilt.None? <==> TotalCount(chunksPerDialog) > |responses|
    ensures rebuilt.Some? ==> |rebuilt.value| == |chunksPerDialog|
    ensures rebuilt.Some? ==> forall k :: 0 <= k < |chunksPerDialog| ==>
      ArticleAt(responses, chunksPerDialog, rebuilt.value, k)
  {
    var rebuiltArticles: seq<string> := [];
    var responseIndex := 0;
    assert chunksPerDialog[..0] == [];
    for k := 0 to |chunksPerDialog|
      invariant responseIndex == Offset(chunksPerDialog, k) <= |responses|
      invariant |rebuiltArticles| == k
      invariant forall i :: 0 <= i < k ==> ArticleAt(responses, chunksPerDialog, rebuiltArticles, i)
    {
      OffsetStep(chunksPerDialog, k);
      var currentArticle := JoinRun(responses, responseIndex, chunksPerDialog[k]);
      if currentArticle.None? {
        OffsetAtMostTotal(chunksPerDialog, k + 1);
        return None;
      }
      assert Strip(currentArticle.value) == ArticleOf(responses, chunksPerDialog, k);
      RebuiltSnoc(responses, chunksPerDialog, rebuiltArticles, Strip(currentArticle.value));
      rebuiltArticles := rebuiltArticles + [Strip(currentArticle.value)];
      responseIndex := Offset(chunksPerDialog, k + 1);
    }
    assert chunksPerDialog[..|chunksPerDialog|] == chunksPerDialog;
    rebuilt := Some(rebuiltArticles);
  }
}
