# SynapticLearn — a verified model of its text-processing helpers and client state rules

SynapticLearn recommends Wikipedia-style articles for a query. Research scripts fetch
and clean articles, augment them with an LLM, and train a sentence-transformer
classifier. A Flask endpoint answers similarity queries. A React client holds the
query and the user's settings. This project models the deterministic core of that
system in Dafny and proves what that core promises:

- `dialogs.dfy` (module `Dialogs`):
  - the greedy packing of whole tokenised sentences into chunks;
  - the prompts built from chunks;
  - regrouping the LLM's flat response list into articles.
- `preprocessing.dfy` (module `Preprocessing`):
  - punctuation removal;
  - the sliding-window token chunker;
  - expansion of a dataset into one row per chunk;
  - the per-class sample quota of `limit_dataset`.
- `wiki.dfy` (module `WikiExtractor`):
  - the three stages of `clean_wikipedia_content`, written as scanners, each with an independent definition of what its pattern matches;
  - the article acceptance and truncation rule of `fetch_category_articles`, over a given sequence of page listings;
  - `discard_unseened_categories`.
- `trainer.dfy` (module `Trainer`):
  - the dataset-file extension dispatch;
  - the metric keyword arguments and how `--metric-type` reaches them;
  - the body-training loss table;
  - how the trainer calls the chunker and the quota.
- `api.dfy` (module `Api`): validation in `/similar-articles` and how the result list is built. The embedding model and HNSW index are a `search` function parameter.
- `browser.dfy` (module `Browser`): `localStorage`, the document root's attributes, and a `<dialog>` element, as small classes.
- `theme_hook.dfy` and `max_results_hook.dfy`: the `useTheme` and `useMaxResults` hooks, as classes whose state cell is a field and whose effect writes storage.
- `settings_store.dfy` (module `SettingsStore`): the persisted zustand settings store.
- `settings_modal.dfy` (module `SettingsModal`):
  - the modal-open rule and its dialog effect;
  - the slider ↔ maxResults arithmetic;
  - the theme checkbox.

  The modal reads theme and maxResults from the two standalone hooks, not from the settings store. `SettingsModalView` is built over those hooks.
- `query_input.dfy` (module `QueryInput`): the query input's four state cells and its handlers, with the pending `FileReader` callbacks made explicit.
- `client_server.dfy` (module `ClientServer`): the slider offers maxResults 1 to 5, but the endpoint refuses anything above 4. The lemma `OnlyTopSliderPositionRefused` shows that exactly the top slider position would be refused. The home page as written shows a timed mock list and sends no request.
- `text.dfy` (module `Text`): shared character classes and string helpers:
  - Python whitespace;
  - ASCII lower-casing;
  - `string.punctuation`;
  - flattening;
  - `str.strip()`;
  - decimal integer text with its parser.

External services are parameters:

- the Hugging Face tokenizer;
- the LLM tokenizer and detokenizer;
- the spaCy sentence splitter;
- the page listings fetched from Wikipedia;
- the nearest-neighbour search.

## Model

| member | source | states |
|---|---|---|
| Dialogs.Kept | research/augmenters/ctransformers-augmentation/dialogs_generation_utils.py:27-30 | the sentences that survive the budget check are sentences of the input, each within the budget |
| Dialogs.ChunkText | research/augmenters/ctransformers-augmentation/dialogs_generation_utils.py:15-48 | the loop that extends the current chunk, flushes it and appends chunks computes exactly the chunks of the greedy packing specification |
| Dialogs.GroupFromBounded | research/augmenters/ctransformers-augmentation/dialogs_generation_utils.py:29-46 | every emitted group holds between 1 and `max_tokens_per_chunk - padding` tokens |
| Dialogs.ChunkTokensBounded | research/augmenters/ctransformers-augmentation/dialogs_generation_utils.py:29-46 | every emitted chunk's tokens are non-empty and within the budget |
| Dialogs.GroupFromPartition | research/augmenters/ctransformers-augmentation/dialogs_generation_utils.py:23-46 | the emitted groups concatenate to the open chunk followed by the sentences that were not dropped, in order; a sentence is never split |
| Dialogs.GroupsPartition | research/augmenters/ctransformers-augmentation/dialogs_generation_utils.py:23-46 | the groups concatenate to exactly the kept sentences, or to nothing when those have no tokens |
| Dialogs.ChunkTokensPreserveOrder | research/augmenters/ctransformers-augmentation/dialogs_generation_utils.py:23-46 | the chunks' tokens, concatenated, are the kept sentences' tokens in their order |
| Dialogs.GroupFromGreedy | research/augmenters/ctransformers-augmentation/dialogs_generation_utils.py:32-41 | every group after the first was started only because its first sentence would have overflowed the group before it |
| Dialogs.GroupsGreedy | research/augmenters/ctransformers-augmentation/dialogs_generation_utils.py:32-41 | the packing flushes a chunk only when the next sentence would overflow it |
| Dialogs.DialogFromChunks | research/augmenters/ctransformers-augmentation/dialogs_generation_utils.py:51-61 | no dialog exactly for an empty chunk list; otherwise message k is the modifier applied to the user query followed by chunk k |
| Dialogs.DialogsOfStep | research/augmenters/ctransformers-augmentation/dialogs_generation_utils.py:70-84 | each article adds one dialog, or none when it has no chunks |
| Dialogs.GenerateDialogs | research/augmenters/ctransformers-augmentation/dialogs_generation_utils.py:64-86 | the loop over articles computes the dialog list of the specification |
| Dialogs.DialogsShape | research/augmenters/ctransformers-augmentation/dialogs_generation_utils.py:64-86 | at most one dialog per article; every dialog is non-empty and each of its messages begins with the user query |
| Dialogs.UnknownMethodGivesNoDialogs | research/augmenters/ctransformers-augmentation/dialogs_generation_utils.py:71-84 | a chunking method other than "sentence" or "paragraphs" yields no dialogs at all |
| Dialogs.DialogsOfAppend | research/augmenters/ctransformers-augmentation/dialogs_generation_utils.py:70-84 | dialogs are generated article by article, in article order: the dialogs of two article lists concatenate |
| Dialogs.ParagraphChunksFitPrompt | research/augmenters/ctransformers-augmentation/dialogs_generation_utils.py:68-80 | in "paragraphs" mode every chunk holds at most `max_tokens - len(tokenize(USER_QUERY)) - 10` tokens |
| Dialogs.OffsetAtMostTotal | research/augmenters/ctransformers-augmentation/dialogs_generation_utils.py:91-98 | article k's responses start no later than the total the counts consume |
| Dialogs.RebuiltSnoc | research/augmenters/ctransformers-augmentation/dialogs_generation_utils.py:93-100 | appending the next article's joined responses keeps every rebuilt article equal to its own range of responses |
| Dialogs.JoinRun | research/augmenters/ctransformers-augmentation/dialogs_generation_utils.py:94-98 | the inner loop fails exactly when it would read past the responses; otherwise it gives the contents of that range, each followed by a space |
| Dialogs.RebuildArticles | research/augmenters/ctransformers-augmentation/dialogs_generation_utils.py:89-102 | IndexError exactly when the counts sum past the responses; otherwise one article per count, article k being its consecutive responses joined by spaces and stripped |
| Preprocessing.RemovePunctuation | research/trainers/stransformers_data_preprocessing.py:25-36 | the result is no longer than the text and contains no punctuation |
| Preprocessing.RemovePunctuationDeletesExactlyPunctuation | research/trainers/stransformers_data_preprocessing.py:35-36 | each punctuation character is removed entirely; every other character keeps its count, and the result is a subsequence of the text |
| Preprocessing.RemovePunctuationKeepsCleanText | research/trainers/stransformers_data_preprocessing.py:35-36 | text without punctuation is returned unchanged |
| Preprocessing.RemovePunctuationIdempotent | research/trainers/stransformers_data_preprocessing.py:35-36 | removing punctuation twice is the same as removing it once |
| Preprocessing.RemovePunctuationAppend | research/trainers/stransformers_data_preprocessing.py:35-36 | the filter works character by character: it distributes over concatenation |
| Preprocessing.PySlice | research/trainers/stransformers_data_preprocessing.py:76 | Python's `tokens[i : j]` is a contiguous piece starting at i, ending at j clipped to the length |
| Preprocessing.ChunkText | research/trainers/stransformers_data_preprocessing.py:60-78 | a zero stride raises; otherwise the loop computes exactly the window sequence of the tokenised text |
| Preprocessing.WindowAt | research/trainers/stransformers_data_preprocessing.py:75-77 | chunk k starts inside the tokens at `k*stride` and is `tokens[k*stride : k*stride + max_length]` |
| Preprocessing.WindowCount | research/trainers/stransformers_data_preprocessing.py:75 | the window count c is the least with `c*stride` covering the tokens |
| Preprocessing.WindowCountIsCeiling | research/trainers/stransformers_data_preprocessing.py:75 | n tokens give `ceil(n/stride)` chunks, none for no tokens |
| Preprocessing.WindowsBounded | research/trainers/stransformers_data_preprocessing.py:75-77 | every chunk is non-empty and at most `max_length` long |
| Preprocessing.WindowsTile | research/trainers/stransformers_data_preprocessing.py:75-77 | with stride equal to max_length the chunks are disjoint and concatenate back to the tokens |
| Preprocessing.WindowsOverlap | research/trainers/stransformers_data_preprocessing.py:75-77 | with stride below max_length, consecutive full chunks overlap by `max_length - stride` tokens |
| Preprocessing.NormalizeStepsCommute | research/trainers/stransformers_data_preprocessing.py:94-95 | lower-casing then removing punctuation equals removing punctuation then lower-casing |
| Preprocessing.NormalizeSpec | research/trainers/stransformers_data_preprocessing.py:94-95 | normalised text has no upper-case letter and no punctuation, and normalising again changes nothing |
| Preprocessing.PreprocessText | research/trainers/stransformers_data_preprocessing.py:81-99 | lower-cases, removes punctuation, then chunks, in that order; a zero stride raises |
| Preprocessing.PreprocessDataset | research/trainers/stransformers_data_preprocessing.py:102-131 | before the shuffle, the loop builds exactly the expansion of every row, in row order; a zero stride raises once a row is processed |
| Preprocessing.AppendChunks | research/trainers/stransformers_data_preprocessing.py:128-131 | the inner loop keeps the text and label lists of equal length and appends one row per chunk with the row's label |
| Preprocessing.ExpandedRowsCarryTheirLabel | research/trainers/stransformers_data_preprocessing.py:118-131 | every output row is some chunk of some input row, tagged with that row's label |
| Preprocessing.ExpandAllAppend | research/trainers/stransformers_data_preprocessing.py:122-131 | rows are expanded independently and in order: expansion distributes over concatenation |
| Preprocessing.Quota | research/trainers/stransformers_data_preprocessing.py:150-153 | an empty dataset divides by zero; otherwise the quota is the value q ≥ 1 with q·classes ≤ max(max_samples, classes) < (q+1)·classes, that is `max(1, max_samples // classes)` |
| Preprocessing.FirstOfEachClassIsLimited | research/trainers/stransformers_data_preprocessing.py:155-157 | a selection that satisfies the quota rule exists for every dataset: the first rows of each class |
| Preprocessing.FirstOfEachClassIsDrawn | research/trainers/stransformers_data_preprocessing.py:155-157 | that selection draws its rows from the dataset |
| Preprocessing.FirstOfEachClassCount | research/trainers/stransformers_data_preprocessing.py:156 | each class keeps min(class size, quota) rows |
| Preprocessing.CountLabelPositive | research/trainers/stransformers_data_preprocessing.py:150 | a label occurs in the rows exactly when it is one of the dataset's classes |
| Preprocessing.LimitKeepsEveryClass | research/trainers/stransformers_data_preprocessing.py:151-157 | with a quota of at least one, every input class survives the limit |
| Preprocessing.LabelsAtMostRows | research/trainers/stransformers_data_preprocessing.py:150 | there are never more classes than rows |
| Preprocessing.LimitMayExceedMaxSamples | research/trainers/stransformers_data_preprocessing.py:150-157 | when classes outnumber max_samples, the limited dataset is larger than max_samples |
| Preprocessing.WithoutLabelSplits | research/trainers/stransformers_data_preprocessing.py:155-157 | setting one class aside removes exactly its rows and that class, and leaves every other class's count |
| Preprocessing.SizeWithinQuotaPerClass | research/trainers/stransformers_data_preprocessing.py:155-157 | when no class has more than `quota` rows, the rows number at most quota times classes |
| Preprocessing.LimitWithinMaxSamples | research/trainers/stransformers_data_preprocessing.py:146-157 | the limited dataset holds at most max_samples rows exactly when there are at most max_samples classes |
| WikiExtractor.NamedHeaderAt | research/data-extractors/wiki_articles_extractor.py:26-31 | a removable section header found at p lies inside the text |
| WikiExtractor.SectionEnd | research/data-extractors/wiki_articles_extractor.py:27-30 | the lazy match stops at the first position where the lookahead holds: a "== … ==" header or the end of the text |
| WikiExtractor.RemoveSectionsKeepsPlainText | research/data-extractors/wiki_articles_extractor.py:32 | text where no removable section starts is copied unchanged |
| WikiExtractor.SectionCut | research/data-extractors/wiki_articles_extractor.py:26-32 | a References, External links, Gallery or Footnotes section is removed from its header up to the next "== … ==" header or the end of the text |
| WikiExtractor.FirstFrom | research/data-extractors/wiki_articles_extractor.py:35-39 | finds the first occurrence of a character at or after a position, or the end: the `[^=]*` and `[^\}]*` runs of the two patterns |
| WikiExtractor.HeaderEndMatches | research/data-extractors/wiki_articles_extractor.py:35-36 | the header scanner matches from p to e exactly when that piece is `==`, then no '=', then `==` |
| WikiExtractor.RemoveHeadersKeepsPlainText | research/data-extractors/wiki_articles_extractor.py:36 | text where no header match starts is copied unchanged |
| WikiExtractor.HeaderDeleted | research/data-extractors/wiki_articles_extractor.py:36 | the leftmost header match is deleted and scanning resumes after it, so matches do not overlap |
| WikiExtractor.RemoveHeadersWithoutEquals | research/data-extractors/wiki_articles_extractor.py:35-36 | text without '=' has nothing removed |
| WikiExtractor.LatexEndMatches | research/data-extractors/wiki_articles_extractor.py:39 | the LaTeX scanner matches from p to e exactly when that piece is `{`, whitespace, `\displaystyle`, no '}', then `}` |
| WikiExtractor.LatexInPiece | research/data-extractors/wiki_articles_extractor.py:39-42 | a LaTeX match inside a piece of the text is a match in the whole text at the shifted position |
| WikiExtractor.GapHasNoLatex | research/data-extractors/wiki_articles_extractor.py:39 | the text between LaTeX segments contains no LaTeX match anywhere |
| WikiExtractor.SplitFromSpec | research/data-extractors/wiki_articles_extractor.py:39 | `re.split` with a capturing group gives text and LaTeX segments alternately, and together they spell the text |
| WikiExtractor.CollapseLeavesNoAdjacentSpaces | research/data-extractors/wiki_articles_extractor.py:44 | after collapsing, no two whitespace characters are adjacent |
| WikiExtractor.CollapseKeepsNonSpace | research/data-extractors/wiki_articles_extractor.py:44 | collapsing never changes, adds or removes a non-whitespace character |
| WikiExtractor.CollapseKeepsTidyText | research/data-extractors/wiki_articles_extractor.py:44 | text whose whitespace characters are all single is returned unchanged |
| WikiExtractor.CleanWikipediaContent | research/data-extractors/wiki_articles_extractor.py:17-48 | the three stages, with the parts cleaned by the loop and joined, compute the cleaned content of the specification |
| WikiExtractor.CleanEachPart | research/data-extractors/wiki_articles_extractor.py:40-45 | the loop cleans each part on its own, in order |
| WikiExtractor.CleanedContentParts | research/data-extractors/wiki_articles_extractor.py:39-46 | LaTeX parts are kept verbatim; every other part has its whitespace runs collapsed, keeps its non-whitespace characters and has no two adjacent whitespace characters |
| WikiExtractor.WordEnd | research/data-extractors/wiki_articles_extractor.py:112 | the end of a word is the first whitespace character after it, or the end |
| WikiExtractor.WordsSpec | research/data-extractors/wiki_articles_extractor.py:112 | `str.split()` gives non-empty words without whitespace that concatenate to the text's non-whitespace characters |
| WikiExtractor.AcceptedAllSpec | research/data-extractors/wiki_articles_extractor.py:107-123 | at most one article per page; every kept article has the category, non-empty text and URL, and at least 250 words |
| WikiExtractor.AcceptedAllAppend | research/data-extractors/wiki_articles_extractor.py:104-123 | pages are judged independently, in completion order |
| WikiExtractor.KeptPerListingFlatten | research/data-extractors/wiki_articles_extractor.py:96-123 | the articles kept listing by listing are the articles kept from all pages in order |
| WikiExtractor.AcceptListing | research/data-extractors/wiki_articles_extractor.py:104-123 | the loop over one listing's pages keeps exactly the acceptable articles |
| WikiExtractor.FetchCategoryArticles | research/data-extractors/wiki_articles_extractor.py:92-127 | the while loop collects listings until enough articles or no continuation, then truncates; never more than `max_articles` articles |
| WikiExtractor.CollectIsPrefix | research/data-extractors/wiki_articles_extractor.py:96-126 | what the loop collects is a prefix of all kept articles |
| WikiExtractor.CollectShortIsComplete | research/data-extractors/wiki_articles_extractor.py:125-126 | when fewer than `max_articles` are collected, every listing was read |
| WikiExtractor.FetchSpec | research/data-extractors/wiki_articles_extractor.py:92-127 | the result is exactly the first `max_articles` of all acceptable articles in order (all of them when there are fewer), every one acceptable |
| WikiExtractor.KeepCategoriesSpec | research/data-extractors/wiki_articles_extractor.py:155-157 | each split keeps exactly its rows whose Category is in the common set, each as many times as it occurs, in their order |
| WikiExtractor.DiscardLeavesCommonCategories | research/data-extractors/wiki_articles_extractor.py:149-159 | afterwards all three splits have the same category set, namely the intersection of the three |
| Trainer.LastIndexOf | research/trainers/stransformers_setfit_trainer.py:37 | `rfind` returns the last index of the character, or -1 exactly when it is absent |
| Trainer.SuffixFrom | research/trainers/stransformers_setfit_trainer.py:37 | Python's `s[i:]` is a suffix, and for an in-range index the suffix starting there |
| Trainer.ExtensionOfDottedPath | research/trainers/stransformers_setfit_trainer.py:37 | the extension is the text from the last "." to the end, lower-cased |
| Trainer.LoaderChoice | research/trainers/stransformers_setfit_trainer.py:38-42 | ".csv" selects the CSV loader and ".xlsx" the Excel loader, whatever their case; anything else raises ValueError |
| Trainer.UpperCaseExtensionsAccepted | research/trainers/stransformers_setfit_trainer.py:37-40 | ".CSV" and ".XLSX" are accepted |
| Trainer.PathWithoutDotRejected | research/trainers/stransformers_setfit_trainer.py:37-42 | a path without "." yields its last character as the extension, and is always rejected |
| Trainer.MetricTypeNeverReachesMetric | research/trainers/stransformers_setfit_trainer.py:121-123 | as written, "macro" is refused by argparse, and every run that parses hands the metric no `average` |
| Trainer.MetricTypeReachesMetric | research/trainers/stransformers_setfit_trainer.py:121-123 | with the type read as a string, the metric receives `average` exactly when a type is given, and then that type; the keyword arguments hold nothing else |
| Trainer.BodyLossTable | research/trainers/stransformers_setfit_trainer.py:22-26 | exactly the three strategy names have a loss, and name and loss determine each other |
| Trainer.ParseBodyTrainingStrategy | research/trainers/stransformers_setfit_trainer.py:196-202 | the argument defaults to "cosine" and is accepted exactly when it is one of the three names |
| Trainer.TrainerChunksTile | research/trainers/stransformers_setfit_trainer.py:76-96 | with stride equal to max_length, as the trainer calls it, the chunks tile the normalised text's tokens |
| Trainer.TrainerLimits | research/trainers/stransformers_setfit_trainer.py:62-64 | the train, eval and test splits, limited to 500, 150 and 150, each stay within their limit exactly when they have no more classes than it |
| Api.CheckBodySpec | api/app.py:36-38 | only an object with a "query" key passes; a missing or falsy body gets the 400 "Query input is required!" |
| Api.HasInfixSpec | api/app.py:37 | Python's `p in s` on strings holds exactly when p occurs at some index of s |
| Api.StringBodyRule | api/app.py:37-40 | a JSON string body containing "query" fails with a 500 at `content["query"]`; any other string gets the 400 |
| Api.MaxResultsReadsIntegers | api/app.py:41 | any integer argument reaches the check unchanged, zero and negatives included |
| Api.MaxResultsDefault | api/app.py:41 | an absent or non-integer maxResults is 3 |
| Api.RecommendationsSpec | api/app.py:49-60 | one result per (id, distance) pair, row `id` of the table with that id and distance; an id outside the table fails |
| Api.RecommendationIdsInIndexOrder | api/app.py:49-60 | results follow the index's order |
| Api.BuildRecommendations | api/app.py:49-60 | the loop computes exactly the result list of the specification |
| Api.Recommend | api/app.py:34-62 | the handler gives the response of the specification: body check, then maxResults, then a 500 for a non-string query or an exception of the index, then search and results |
| Api.QueryCheckedFirst | api/app.py:36-38 | a body without a query is refused before maxResults is looked at |
| Api.MaxResultsRule | api/app.py:41-60 | above 4 gets the 400 "Max results should not exceed 4!", with no lower bound; otherwise a non-string query gets a 500, and a string query succeeds exactly when the index answers and every id it gives is in the table, with one result per pair |
| QueryInput.TextFileNames | synaptic-learn/src/components/query-input.tsx:61 | any stem followed by four characters spelling ".txt" in any mix of cases is accepted, and a name shorter than four characters is refused |
| QueryInput.TextFileNameSuffix | synaptic-learn/src/components/query-input.tsx:61 | a name is accepted exactly when its last four characters lower-case to ".txt" |
| QueryInput.QueryInputState.constructor | synaptic-learn/src/components/query-input.tsx:34-37 | all cells start empty, not typing, no file, input enabled |
| QueryInput.QueryInputState.SyncTyping | synaptic-learn/src/components/query-input.tsx:40-42 | `isTyping` becomes true exactly when `displayText` is non-empty |
| QueryInput.QueryInputState.InputChange | synaptic-learn/src/components/query-input.tsx:44-48 | typing sets query and displayText to the same value, and isTyping follows it |
| QueryInput.QueryInputState.FormSubmit | synaptic-learn/src/components/query-input.tsx:50-55 | `onSubmit(query)` is called once exactly when the query is non-empty; no file is passed |
| QueryInput.QueryInputState.Submit | synaptic-learn/src/components/query-input.tsx:88-99 | the browser blocks a submit while the `required` input is enabled and empty; otherwise the handler runs |
| QueryInput.QueryInputState.FileInputChange | synaptic-learn/src/components/query-input.tsx:57-76 | no file changes nothing; a name not ending in ".txt" throws and changes nothing; a text file is attached, its name shown and a read started |
| QueryInput.QueryInputState.ReaderLoaded | synaptic-learn/src/components/query-input.tsx:69-72 | the query becomes the read file's content only when its read completes |
| QueryInput.QueryInputState.RemoveFile | synaptic-learn/src/components/query-input.tsx:78-81 | clears the file and displayText, leaves the query, and enables the input |
| QueryInput.AttachThenRemove | synaptic-learn/src/components/query-input.tsx:57-96 | attaching and removing a file before its read completes leaves the query and re-enables the input; the read still completes later |
| QueryInput.AttachReadSubmit | synaptic-learn/src/components/query-input.tsx:50-99 | with a file attached the input is disabled, so `required` does not block, and once read, submit sends the file's content |
| QueryInput.AttachReadRemoveSubmit | synaptic-learn/src/components/query-input.tsx:57-99 | after the file is read and removed, the query holds its content but the empty enabled input blocks every submit |
| SettingsModal.SyncDialog | synaptic-learn/src/modals/settings-modal.tsx:11-21 | the dialog is shown when the store is open with type "settings"; otherwise it is closed and `onClose` called once, and once more by the close event when the dialog was shown |
| SettingsModal.UserClose | synaptic-learn/src/modals/settings-modal.tsx:29-103 | Escape, Close or Save hides a shown dialog, and its close event calls `onClose` once |
| SettingsModal.MaxResultsFor | synaptic-learn/src/modals/settings-modal.tsx:23-26 | every slider position gives a maxResults between 1 and 5 |
| SettingsModal.SliderRoundTrips | synaptic-learn/src/modals/settings-modal.tsx:23-26 | the slider's start position and the change handler invert each other on positions and on counts 1..5 |
| SettingsModal.SliderStartClamps | synaptic-learn/src/modals/settings-modal.tsx:81-84 | counts outside 1..5 start the slider at an end of its range |
| SettingsModal.SliderStartAfterReload | synaptic-learn/src/modals/settings-modal.tsx:84 | the stored string read back after a reload starts the slider where it was left |
| SettingsModal.CheckboxTracksTheme | synaptic-learn/src/modals/settings-modal.tsx:37-43 | the box, started as "theme is dark" and flipped by every change, keeps tracking the theme exactly for the two known themes |
| SettingsModal.SettingsModalView.constructor | synaptic-learn/src/modals/settings-modal.tsx:8-9 | the view reads theme and maxResults from the two hooks; checked iff dark; slider at the count's position |
| SettingsModal.SettingsModalView.ThemeChange | synaptic-learn/src/modals/settings-modal.tsx:37-43 | a click flips the box and toggles the hook's theme; only the "theme" entry and the `data-theme` attribute change, so the stored count and its sync are kept |
| SettingsModal.SettingsModalView.SliderChange | synaptic-learn/src/modals/settings-modal.tsx:78-86 | a move sets the hook's maxResults to `value/step + 1`; only the "maxResults" entry changes, so the theme and its sync are kept |
| SettingsStore.Store.constructor | synaptic-learn/src/hooks/use-settings-store.ts:10-30 | starts from the saved "settings-storage" entry, else maxResults 3 and theme "light" |
| SettingsStore.Store.SetMaxResults | synaptic-learn/src/hooks/use-settings-store.ts:17-19 | replaces maxResults without a range check, leaves the theme, and persists |
| SettingsStore.Store.ToggleTheme | synaptic-learn/src/hooks/use-settings-store.ts:21-24 | "light" becomes "dark" and anything else "light"; maxResults unchanged; persisted |
| SettingsStore.ReloadAfterToggles | synaptic-learn/src/hooks/use-settings-store.ts:21-29 | toggling twice restores a known theme, and a store created afterwards restores the same state |
| ThemeHook.InitialTheme | synaptic-learn/src/hooks/use-theme.ts:4-8 | the stored "theme" when non-empty, else "light" |
| ThemeHook.NextThemeSpec | synaptic-learn/src/hooks/use-theme.ts:15-17 | toggling maps "light" to "dark" and anything else to "light"; toggling twice restores exactly the two known themes |
| ThemeHook.UseTheme.constructor | synaptic-learn/src/hooks/use-theme.ts:4-8 | the hook starts with the initial theme read from storage |
| ThemeHook.UseTheme.Effect | synaptic-learn/src/hooks/use-theme.ts:10-13 | the stored "theme" and the `data-theme` attribute become the current theme |
| ThemeHook.UseTheme.ToggleTheme | synaptic-learn/src/hooks/use-theme.ts:10-17 | toggles, then storage and attribute equal the new theme |
| ThemeHook.MountAndToggleTwice | synaptic-learn/src/hooks/use-theme.ts:4-19 | mounting and toggling twice keeps a known initial theme, in sync with storage and the attribute |
| MaxResultsHook.InitialMaxResults | synaptic-learn/src/hooks/use-max-results.ts:4-6 | a missing or empty stored entry gives the number 3; otherwise the stored string, unconverted |
| MaxResultsHook.StoredNumberReadsBack | synaptic-learn/src/hooks/use-max-results.ts:5-11 | a stored count reads back as its string, which converts to the same count |
| MaxResultsHook.StoredStringKept | synaptic-learn/src/hooks/use-max-results.ts:5 | a non-empty stored string is returned as it is and stored back unchanged |
| MaxResultsHook.UseMaxResults.constructor | synaptic-learn/src/hooks/use-max-results.ts:4-8 | the hook starts with the initial value read from storage |
| MaxResultsHook.UseMaxResults.Effect | synaptic-learn/src/hooks/use-max-results.ts:10-12 | the stored "maxResults" becomes the value's string form |
| MaxResultsHook.UseMaxResults.SetMaxResults | synaptic-learn/src/hooks/use-max-results.ts:8-14 | the setter replaces the value without validation, and storage follows |
| MaxResultsHook.Mount | synaptic-learn/src/hooks/use-max-results.ts:4-12 | mounting writes "3" when nothing is stored and leaves a stored value as it is |
| ClientServer.OnlyTopSliderPositionRefused | api/app.py:42-43 | of the slider's five counts, exactly the top one, 5, is refused by the endpoint |
| Text.Lower | research/trainers/stransformers_data_preprocessing.py:94 | `str.lower()` keeps the length and maps each character |
| Text.LowerHasNoUpper | research/trainers/stransformers_data_preprocessing.py:94 | lower-cased text has no upper-case letter |
| Text.LowerAppend | research/trainers/stransformers_setfit_trainer.py:37 | lower-casing distributes over concatenation |
| Text.PunctuationRanges | research/trainers/stransformers_data_preprocessing.py:35 | a character is one of `string.punctuation` exactly when it lies in the four ASCII punctuation ranges |
| Text.StripSpec | research/augmenters/ctransformers-augmentation/dialogs_generation_utils.py:100 | `strip()` removes leading and trailing whitespace only, and leaves text without whitespace unchanged |
| Text.IntToStringRoundTrip | api/app.py:41 | Python's `int` reads back every integer written in decimal digits |
| Text.DigitsRoundTrip | api/app.py:41 | the decimal digits of a count have that count as their value |

## Left out

- Tokenizers, the LLM, spaCy and NLTK are parameters. Their outputs are arbitrary functions of their inputs.
- `stem_and_lemmatize` is not modelled: it is only NLTK calls, and the preprocessing code has it commented out.
- api/utils.py `process_text` is modelled only by its first step: `lower()` raises for a query that is not a string, which `Respond` answers with a 500. The rest is NLTK calls, inside the `search` parameter.
- The embedding model and the HNSW index are not modelled: `search` is a parameter, and distances are reals.
- `Api.Respond`, `Api.MaxResultsRule`: which counts make hnswlib's `knn_query` raise is left to the `search` parameter, whose `None` is that exception (a 500). The model does not pin it down: a negative count, which passes the check at api/app.py:42, fails to convert to the index's unsigned `k`, and a count above the items the index finds raises too.
- The pandas shuffle at the end of `preprocess_dataset` is left out. `PreprocessDataset` returns the rows before the shuffle, which only permutes them.
- The random per-class draw of `limit_dataset` is stated as any selection that satisfies the quota rule (`IsLimitedSelection`). `FirstOfEachClass` shows that such a selection always exists.
- Network fetching is not modelled: the Wikipedia `get_page_content` and `get_category_members` calls.
  - The fetched page listings are a parameter.
  - A failed page fetch is `None`.
- The `as_completed` order of the thread pool is not modelled. Each listing's pages arrive in the order given.
- `FetchCategoryArticles` reads the listings until there is no continuation token. The listings given are all there are.
- The wiki extractor's `main`, `train_eval_test_split` and `save_to_excel` are not modelled:
  - they are file I/O and random splitting;
  - `main` reads a "Category" column that `fetch_category_articles` never writes; it writes "label".
- The comment at wiki_articles_extractor.py:111 says 200 words; the model follows the code's 250.
- The trainer's `main` is left out: training, evaluation, label encoding and result files. Only its calls to `limit_dataset` and `preprocess_dataset` are stated.
- `Text.Lower`: only ASCII letters are lower-cased; Python's `str.lower()` also maps non-ASCII letters.
- `Api.MaxResults`: Python's `int` also accepts underscores between digits and non-ASCII digits. The model does not parse these, so such text falls back to the default 3.
- JSON numbers are reals, and index ids are naturals.
- A row id outside the table is a server error (`InternalServerError`), as numpy's IndexError would be.
- `SettingsModal.SliderStart`: JavaScript's `Number` coercion is modelled for integer text only, without trimming whitespace. Other stored strings, such as decimals or padded numbers, are treated as NaN, which puts the slider in the middle.
- `Text.Whitespace` is a fixed character set: the characters for which Python's `str.isspace()` holds.
- The `close` event of the `<dialog>` is dispatched from a queued task, after the handler that closed the dialog has returned. The model counts its `onClose` call at once, so only the number of calls is stated, not their timing.
- use-modal-store.ts is not part of this model. The modal's store is a small class with `isOpen`, the modal type and a count of `onClose` calls.
- The zustand `persist` middleware is modelled as a map from key to a snapshot of the two fields, not as JSON text in `localStorage`.
- `MaxResultsHook.JsValue`, `SettingsStore.Store.SetMaxResults`: a JavaScript `number` is modelled as an integer only. Fractions, NaN and infinities are not represented, although the hooks accept any number. A number's `toString()` is modelled as its decimal digits; JavaScript writes exponent notation from 10^21 on ("1e+21"), which Python's `int` would reject.
- `SettingsStore.Store.constructor`: creating the store leaves the saved entry unchanged. Some versions of zustand's `persist` write the hydrated state back at creation; the repository does not pin a version. Such a write would store the initial snapshot when none is saved, and the same snapshot again otherwise.
- React scheduling is not modelled. Each handler is followed by the effect it triggers; `FileReader` callbacks are pending reads that complete in any order.
- Rendering, routing, animation and the other pages and components are not modelled.

## Findings

| source | as written | input that shows it | evidently intended | confidence | as-written member | corrected member |
|---|---|---|---|---|---|---|
| research/trainers/stransformers_setfit_trainer.py:266-272 | `--metric-type` has `type=Optional[str]`; argparse calls it on the given value, calling a typing construct raises TypeError, and argparse reports an invalid value | `--metric-type macro` | `type=str`, so the metric gets `{"average": "macro"}` | high, not executed | Trainer.ParseMetricTypeAsWritten, with Trainer.MetricTypeNeverReachesMetric | Trainer.ParseMetricType, with Trainer.MetricTypeReachesMetric |

The same `type=Optional[...]` construct is used for `--num-pairs-generation` (research/trainers/stransformers_setfit_trainer.py:215-220), so giving that deprecated option is a usage error too, and `num_iterations` (line 104) always receives the default `None`. That argument is not modelled.
