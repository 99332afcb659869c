# Swiggy annual-report RAG: chunking, retrieval, evaluation and prompt building

This project models the retrieval-augmented question answering pipeline built over the Swiggy Annual Report FY 2023-24, and proves properties of that model:

- **Chunker** (`src/chunker.py`). A page of the report (text, tables, OCR'd images) is cut into chunk records. Each record has an id, a text and a `meta` dict: page, type, source and, when one is found, a figure tag.
  - Text is cut into overlapping word windows.
  - Each table is serialised into one descriptive text.
  - Each image gives one OCR chunk, or one placeholder chunk when it has no OCR text.
- **Retriever** (`src/retriever.py`), in order:
  - finds the figure/table identifiers in a query (`Figure III.5`, `3.2`, …);
  - expands the query with business synonyms and identifier variants;
  - matches chunks directly by their figure tag or table id;
  - runs the semantic search for every expansion;
  - merges the hits by id (the later hit wins);
  - reranks them with a cross-encoder when one loads;
  - keeps the first `rerank_topk`.
- **Evaluation** (`src/evaluate_retrieval.py`). `check_hit` decides whether the expected page is among the retrieved pages.
- **Generator** (`src/generator_ollama.py`).
  - Builds the context from the retrieved chunks: each chunk is clipped to 1200 characters and labelled with its page.
  - Fills the prompt template.
  - Picks the answer out of the model server's JSON reply.

## Modules

| file | what it holds |
|---|---|
| `wrappers.dfy` | `Option` and `Result` |
| `strings.dfy` | Python string semantics on ASCII: `isspace`, `strip`, `lower`, `split()`, `join`, `in`, `str(int)`, slices with clamped bounds |
| `chunks.dfy` | the chunk record and its `meta` dict; a key can be missing, `null`, or hold a value |
| `filter_map.dfy` | a loop that keeps the successful conversions of a list |
| `chunker.dfy` | `semantic_table_text`, `extract_figure_tag`, `chunk_text` and `page_to_chunks` |
| `figure_ids.dfy` | `normalize_figure_token` and the two regular-expression scans of `extract_fig_ids_from_query` |
| `ordered_dict.dfy` | a Python `dict`: keys keep first-insertion order, and the last write wins; also `list(set)` |
| `expansion.dfy` | `expand_query`, with the eight synonym rules as a table |
| `hits.dfy` | a chunk dict held by reference, whose `rerank_score` is written in place |
| `direct_matches.dfy` | `direct_figure_table_matches` |
| `ranking.dfy` | the stable descending sort on `rerank_score` |
| `retriever.dfy` | `get_cross_encoder`, the search and merge steps, the rerank and `retrieve` |
| `evaluation.dfy` | `check_hit` |
| `generator.dfy` | the context, the prompt and the reply selection of the generator |

The modelled state and its limits:

- **Module globals.** `ALL_CHUNKS` and `_cross` become the fields of `Retriever.RetrieverState`.
  - `corpus` is fixed once loaded.
  - `cross` is the cached cross-encoder.
- **Chunk dicts.** The retriever writes `rerank_score` into the dicts themselves, including those in `ALL_CHUNKS`. So a retrieved chunk is a `Hit` object whose `rerankScore` field is updated in place.
- **Oracles.** The embedding search and the cross-encoder's `predict` are passed in as functions. An oracle that raises returns `None`.
- **Chunker regexes.** The two regular expressions of the chunker are passed in as matchers.
- **Retriever regexes.** The two regular expressions of the retriever are modelled exactly, as scanners. They follow what Python's backtracking engine does under `re.finditer`.

## Model

| member | source | states |
|---|---|---|
| FigureIds.Normalize | src/retriever.py:42-48 | defines `normalize_figure_token`: an empty input gives `""`; otherwise strip, delete every character outside `\w`, `.` and `-`, and lower-case (its properties are the lemmas below) |
| FigureIds.NormalizeShape | src/retriever.py:42-48 | a normalised token holds only `\w`, `.` and `-`, no upper-case letter and no whitespace |
| FigureIds.NormalizeIgnoresStrip | src/retriever.py:46-47 | the leading `strip()` is redundant: normalising is deleting the other characters, then lower-casing |
| FigureIds.NormalizeAppend | src/retriever.py:42-48 | normalising distributes over concatenation |
| FigureIds.NormalizeIdempotent | src/retriever.py:42-48 | normalising twice is normalising once |
| FigureIds.NormalizeIgnoresCase | src/retriever.py:42-48 | a string and its lower-cased form normalise alike |
| FigureIds.NormalizeJoinsPieces | src/retriever.py:43 | whitespace between two token pieces disappears (`Figure III . 5` to `figureiii.5`) |
| FigureIds.NormalizeDropsBlank | src/retriever.py:47 | whitespace between two strings is deleted: normalising the whole is normalising each part |
| FigureIds.NormalizeWord | src/retriever.py:42-48 | a string of kept characters is only lower-cased |
| FigureIds.MarkerTokens | src/retriever.py:58-62 | defines the `finditer` scan of the marker pattern from a position: at the first position where an alternative matches, the non-empty normalised group is added and the scan resumes after the match |
| FigureIds.PlainTokens | src/retriever.py:64-68 | defines the `finditer` scan of the dotted-number pattern the same way |
| FigureIds.ExtractFigIds | src/retriever.py:51-70 | defines the set of identifiers `extract_fig_ids_from_query` returns: the tokens of both scans |
| FigureIds.NextMarkerToken | src/retriever.py:58-59 | one `finditer` step of the marker pattern: the scan from a position is the normalised group of the next match together with the scan after that match |
| FigureIds.NextPlainToken | src/retriever.py:64-65 | one `finditer` step of the dotted-number pattern, stated the same way |
| FigureIds.ScanMarkerTokens | src/retriever.py:58-62 | the `finditer` loop of the marker pattern collects exactly the non-empty normalised groups of its successive matches |
| FigureIds.ScanPlainTokens | src/retriever.py:64-68 | the `finditer` loop of the dotted-number pattern collects exactly the non-empty normalised matches |
| FigureIds.ExtractFigIdsFromQuery | src/retriever.py:51-70 | the returned list has no repetition and holds exactly the identifiers of both scans |
| FigureIds.ExtractedAreIds | src/retriever.py:51-70 | every identifier is non-empty and made only of `ivxlc`, digits, `.` and `-` |
| FigureIds.NoIdsWithoutMarkerOrDot | src/retriever.py:51-70 | a query with neither a capital `F` nor a dot (for example `Table 1`) yields no identifier |
| FigureIds.MarkerTokenAtStart | src/retriever.py:58-62 | a non-empty token from a marker match at the start of the query is extracted |
| FigureIds.FigureRomanExtracts | src/retriever.py:52-54 | the docstring example `Figure III.5` yields `iii.5` |
| FigureIds.FigureArabicExtracts | src/retriever.py:52-54 | the docstring example `Fig 3.2` yields `3.2`, through the `Fig` alternative |
| FigureIds.PlainRomanExtracts | src/retriever.py:52-54 | the docstring example `III.5`, with no marker, yields `iii.5` through the dotted-number pattern |
| OrderedDicts.PutAllLastWins | src/retriever.py:147-150 | after `d[key(v)] = v` over a list, each key maps to the last element with that key |
| OrderedDicts.PutAllKeyOrder | src/retriever.py:147-150 | the dict's keys are listed in the order of their first insertion |
| OrderedDicts.PutAllValuesFrom | src/retriever.py:147-150 | every stored value is an element of the inserted list |
| OrderedDicts.ValuesKeys | src/retriever.py:147-150 | the keys of `list(d.values())` are the dict's keys, which are exactly the keys of the inserted list |
| OrderedDicts.ListOf | src/retriever.py:70 | `list(set)` lists every element of the set exactly once |
| Expansion.TriggerFacts | src/retriever.py:80-101 | each rule of the table fires exactly when one of the source's trigger words occurs in the lower-cased query |
| Expansion.ExpandSynonyms | src/retriever.py:76-102 | the loop over the eight rules gives the query plus the terms of every rule that fires |
| Expansion.AddIdVariants | src/retriever.py:104-109 | the identifier loop adds `fid`, `figure fid` and `table fid` for every identifier |
| Expansion.Expansions | src/retriever.py:75-111 | defines the set `expand_query` builds: the query, the terms of the firing rules and the variants of every identifier (characterised by the lemmas below) |
| Expansion.ExpandQuery | src/retriever.py:75-111 | the result has no repetition and holds exactly the expansions of the query |
| Expansion.WithRulesMembers | src/retriever.py:76-102 | a term is added exactly when it is the query or a term of a rule that fires |
| Expansion.ExpansionsContainQuery | src/retriever.py:76 | the query itself is always an expansion |
| Expansion.RuleTermsExpanded | src/retriever.py:80-102 | every term of a firing rule is an expansion |
| Expansion.IdVariantsExpanded | src/retriever.py:104-109 | every identifier found contributes its three variants |
| Expansion.ExpansionsOnly | src/retriever.py:75-111 | every expansion is the query, a term of a firing rule or a variant of a found identifier |
| Expansion.PlainQueryExpandsToItself | src/retriever.py:75-111 | a query that fires no rule and holds no identifier expands to itself alone |
| Expansion.FigureQueryExpands | src/retriever.py:104-109 | the query `Figure III.5` is also searched as `figure iii.5` and `table iii.5` |
| DirectMatches.ScanOne | src/retriever.py:127-144 | one corpus dict is appended once for the table branch and once per identifier its normalised tag contains |
| DirectMatches.AppendTagHits | src/retriever.py:142-144 | the tag loop appends the dict once per identifier of the list that occurs in the normalised tag |
| DirectMatches.Dedupe | src/retriever.py:147-150 | the dedup loop is the dict built by id, read back as its values |
| DirectMatches.DirectSpec | src/retriever.py:117-150 | defines the list `direct_figure_table_matches` returns: the qualifying corpus dicts in scan order, collapsed by id with the last one winning |
| DirectMatches.DirectFigureTableMatches | src/retriever.py:117-150 | the result is the scan of the corpus, deduplicated by id with the last match winning |
| DirectMatches.InScan | src/retriever.py:125-144 | a dict is in the scan exactly when it is in the corpus and the table branch or the tag branch matches it |
| DirectMatches.DirectIds | src/retriever.py:117-150 | an id is in the result exactly when some qualifying corpus dict has it |
| DirectMatches.DirectFromCorpus | src/retriever.py:117-150 | every result is a qualifying corpus dict, and no two results share an id |
| DirectMatches.DirectNoIds | src/retriever.py:117-150 | a query without identifiers matches nothing, even one that mentions `table` |
| DirectMatches.FigureTagFound | src/retriever.py:139-144 | a corpus dict whose normalised tag contains an identifier of the query is returned |
| DirectMatches.NoTableOnlyTags | src/retriever.py:131-144 | without `table` in the query only the figure-tag branch can match |
| DirectMatches.NormalizeFigureTag | src/retriever.py:43 | the tag `Figure III.5` normalises to `figureiii.5`, as the docstring's `Figure III . 5` does |
| DirectMatches.FigureQueryFindsTaggedChunk | src/retriever.py:139-144 | the query `Figure III.5` directly matches every corpus dict tagged `Figure III.5` |
| Ranking.SortOrderCorrect | src/retriever.py:190 | the sort lists every position once, ordered by larger key first, then by earlier position |
| Ranking.SortOrderStable | src/retriever.py:190 | in the sorted order larger keys come first, and equal keys keep their original order |
| Retriever.FoundAppend | src/retriever.py:164-168 | searching two runs of expansions is searching each in turn |
| Retriever.FoundFrom | src/retriever.py:164-168 | every semantic record comes from a search of one expansion that did not raise |
| Retriever.SemanticHits | src/retriever.py:161-168 | the semantic candidates are new dicts holding the records of every search that did not raise, in expansion order |
| Retriever.Merged | src/retriever.py:170-179 | defines the merged list: `merged.values()` after writing the direct hits, then the semantic hits, by id |
| Retriever.MergeHits | src/retriever.py:170-179 | the merge loops build the dict by id over the direct hits, then the semantic hits |
| Retriever.MergedIds | src/retriever.py:170-179 | merged ids are unique and are exactly the ids of the direct and semantic hits |
| Retriever.MergedFrom | src/retriever.py:170-179 | every merged hit is a direct or a semantic hit |
| Retriever.DistinctIds | src/retriever.py:170-179 | hits with distinct ids are distinct objects, so writing scores into one never affects another |
| Retriever.SemanticWins | src/retriever.py:176-177 | the last semantic hit with an id is the merged hit with that id |
| Retriever.DirectKept | src/retriever.py:173-174 | a direct hit survives the merge when no semantic hit shares its id |
| Retriever.MergedOrder | src/retriever.py:170-179 | merged hits are listed in the order their ids were first inserted, direct ids first |
| Retriever.ApplyScores | src/retriever.py:187-188 | `zip` writes score `i` into hit `i` for the first `min(len)` hits, in place, and leaves the rest |
| Retriever.Reorder | src/retriever.py:190 | defines the reranked list: the hits listed in the order of the stable descending sort of their keys; it has as many hits as its input |
| Retriever.ReorderPermutes | src/retriever.py:190 | the reranked list holds the same hits, each once |
| Retriever.ReorderSorted | src/retriever.py:190 | the reranked list is ordered by descending `rerank_score`, and ties keep the merge order |
| Retriever.Rerank | src/retriever.py:182-192 | with an encoder, two or more hits and a successful `predict`, the scores are written and the hits are reordered; otherwise the list is unchanged |
| Retriever.RetrieverState.constructor | src/retriever.py:10-26 | the corpus is loaded and no cross-encoder is cached yet |
| Retriever.RetrieverState.GetCrossEncoder | src/retriever.py:29-36 | a cached encoder is kept; otherwise the load outcome is stored, and a failed load is retried on the next call |
| Retriever.RetrieverState.Gather | src/retriever.py:156-179 | the direct matches, the searched expansions and the semantic hits, merged into a list with unique ids |
| Retriever.RetrieverState.Retrieve | src/retriever.py:156-195 | expansions, semantic hits, the merge, the encoder cache, the in-place scores (other corpus dicts untouched), the rerank and the truncation to `rerank_topk`: for `rerank_topk >= 0` the result has `min(rerank_topk, len(merged))` hits |
| Chunker.SemanticTableText | src/chunker.py:15-30 | defines `semantic_table_text`: `None` when a row is not a list (the call raises), otherwise the heading, the fields description, then the rows joined by newlines |
| Chunker.HeaderLabelsEmptyIff | src/chunker.py:20-25 | the header yields no labels exactly when every header cell is `None` |
| Chunker.TableDescriptionEmptyIff | src/chunker.py:20-28 | the fields description is empty exactly when the table is empty or its first row holds only `None` |
| Chunker.TableTextDecodes | src/chunker.py:15-30 | after the heading line, the serialised table splits back into its rows, and each row into its cells |
| Chunker.ExtractFigureTag | src/chunker.py:32-46 | defines `extract_figure_tag` with its two regular expressions as matchers: blank text gives `""`, then the stripped match of the first pattern, else the fallback match, else `""` |
| Chunker.ScanTextBlankIff | src/chunker.py:33-38 | the text to scan is blank exactly when both inputs are |
| Chunker.FigureTagFromText | src/chunker.py:32-46 | blank inputs give no tag, and a found tag is a piece of the scanned text |
| Chunker.ChunkText | src/chunker.py:48-63 | the while loop emits window `k` (words `k*step` to `k*step+size`, id `{page}-txt-{k}`) for every window that starts inside the text |
| Chunker.MakeWindowChunk | src/chunker.py:54-60 | the chunk built at word index `k*step` is window `k`: its words, its joined text, its id and its meta |
| Chunker.WindowStarts | src/chunker.py:53-62 | window `k` exists exactly when its first word index is below the word count |
| Chunker.WindowCountIsCeiling | src/chunker.py:53-62 | the number of chunks is the ceiling of words divided by the step |
| Chunker.WindowSize | src/chunker.py:54-55 | every chunk holds at most `chunk_size` words |
| Chunker.WindowsCoverWords | src/chunker.py:53-62 | with a non-negative overlap word `w` is among the words of window `w / step`, which exists |
| Chunker.DefaultChunkCount | src/chunker.py:48 | with the defaults `chunk_size=300` and `overlap=50`, `n` words give `ceil(n / 250)` chunks |
| Chunker.EnrichTextChunks | src/chunker.py:89-101 | each text chunk's meta is replaced by the page, the type `text`, the source and its figure tag when there is one |
| Chunker.MakeTableChunk | src/chunker.py:106-124 | one table becomes its chunk `{page}-tbl-{i}`, or nothing when serialising it raises |
| Chunker.AppendTableChunks | src/chunker.py:105-127 | the table loop appends the chunks of the tables that serialise, in order |
| Chunker.AppendImageChunks | src/chunker.py:132-173 | the image loop appends exactly one chunk per image |
| Chunker.TextChunks | src/chunker.py:86-101 | defines the text chunks of a page: none for blank text, otherwise the enriched word windows |
| Chunker.PageChunks | src/chunker.py:66-175 | defines what `page_to_chunks` returns: the text chunks, then the table chunks, then the image chunks |
| Chunker.PageToChunks | src/chunker.py:66-175 | the result is the text chunks (only for non-blank text), then the table chunks, then the image chunks |
| Chunker.TableChunksShape | src/chunker.py:105-127 | one chunk per serialisable table, in table order; tables that raise are skipped |
| Chunker.PageChunkIds | src/chunker.py:66-175 | the ids are `{page}-txt-{k}`, `{page}-tbl-{i}` and `{page}-imgocr-{i}` or `{page}-img-{i}`, in that layout |
| Chunker.PageChunkIdsUnique | src/chunker.py:66-175 | no two chunks of a page share an id |
| Chunker.TextChunksMeta | src/chunker.py:92-99 | text chunks carry the page, type `text`, the source, and a non-empty tag or none |
| Chunker.TableChunksMeta | src/chunker.py:111-118 | table chunks carry the page, type `table`, the source, and a non-empty tag or none |
| Chunker.ImageChunksMeta | src/chunker.py:145-167 | image chunks carry the page, type `image`, the source, and a non-empty tag or none |
| Chunker.PageChunkMeta | src/chunker.py:66-175 | every chunk's meta is well formed, and the types come in the order text, table, image |
| Chunker.ImageChunkShape | src/chunker.py:134-173 | an image with OCR text gives `{page}-imgocr-{i}` ending in that text; one without gives `{page}-img-{i}` with the placeholder text; the path is always recorded |
| Chunker.PageImageChunks | src/chunker.py:132-173 | the last chunks of the page are the image chunks, in image order |
| Chunker.PageTextChunks | src/chunker.py:86-101 | blank page text gives no text chunk; otherwise chunk `k` is window `k` of the words |
| Evaluation.CheckHit | src/evaluate_retrieval.py:14-24 | defines `check_hit`: the `KeyError` of a hit without `meta`, else whether `None` is absent from the pages (no page expected) or the expected page is among them |
| Evaluation.RetrievedPages | src/evaluate_retrieval.py:19 | the pages are read exactly when every hit has `meta`, one per hit; otherwise the first hit without one raises |
| Evaluation.CheckHitPage | src/evaluate_retrieval.py:24 | for an expected page, the check holds exactly when some hit is on that page |
| Evaluation.CheckHitNone | src/evaluate_retrieval.py:21-22 | with no expected page, the check holds exactly when every hit has a page |
| Evaluation.CheckHitRaises | src/evaluate_retrieval.py:19 | a hit without `meta` makes the check raise |
| Evaluation.CheckHitEmpty | src/evaluate_retrieval.py:14-24 | with no hits, an expected page is never found, and "no page expected" holds |
| Evaluation.CheckHitPageSet | src/evaluate_retrieval.py:14-24 | the check depends only on the set of retrieved pages |
| Generator.Clip | src/generator_ollama.py:52-54 | defines the clipping of a chunk text: the first 1200 characters and ` ... ` when it is longer |
| Generator.ClipBounds | src/generator_ollama.py:53-54 | a clipped text has at most 1205 characters and keeps the first 1200; a short text is unchanged |
| Generator.ClipIdempotent | src/generator_ollama.py:53-54 | clipping twice is clipping once |
| Generator.Part | src/generator_ollama.py:52-56 | defines one context part: `[page {page}] ` followed by the clipped text |
| Generator.Context | src/generator_ollama.py:57 | defines the context: the parts joined with blank lines |
| Generator.PartShape | src/generator_ollama.py:55-56 | each context part starts with `[page `, followed by the page label |
| Generator.BuildContext | src/generator_ollama.py:50-57 | the loop builds one part per chunk, joined with blank lines |
| Generator.ContextEmptyIff | src/generator_ollama.py:57 | the context is empty exactly when no chunk was retrieved |
| Generator.ContextSnoc | src/generator_ollama.py:57 | one more chunk appends a blank line and its part, so parts keep the retrieval order |
| Generator.Prompt | src/generator_ollama.py:58 | defines the filled template: its fixed pieces around the context and the question |
| Generator.PromptFields | src/generator_ollama.py:8-25 | the filled template reads back the context and the question at fixed offsets |
| Generator.PromptInjective | src/generator_ollama.py:58 | for contexts of equal length, equal prompts have equal contexts and questions |
| Generator.SelectResponse | src/generator_ollama.py:41-47 | defines the reply selection of `call_ollama`: `response`, else `text`, else the printed reply |
| Generator.SelectResponseCases | src/generator_ollama.py:41-47 | the answer is `response` if present, else `text`, else the printed reply; a non-object reply is always printed |

## Where the code and its documentation differ

Where the code and its description disagree, the model follows the code:

- **Identifiers.** Only the normalised identifier is produced. For example `Figure III.5` yields `iii.5`, with no variant with the dot removed.
- **Case-sensitive markers.** The marker words are matched case-sensitively (`Figure`, `FIGURE`, `Fig`, `Fig.`). A lower-case `figure 3` therefore yields no identifier.
- **`Table 1`.** A table question such as `Table 1` yields no identifier at all: it has no marker and no dot. So the table branch of `direct_figure_table_matches` never fires for it (see `FigureIds.NoIdsWithoutMarkerOrDot` and `DirectMatches.DirectNoIds`).
- **`Fig.`.** The alternative `Fig.` can never win over `Fig`, which is tried first. A dot after `Fig` is taken into the identifier group instead.
- **Cross-encoder retries.** A cross-encoder that fails to load is not remembered as a failure. Every call of `retrieve` tries to load it again.
- **Merge order.** Merged hits keep the position where their id first appeared. A direct hit that is also found semantically keeps its early position, but holds the semantic dict.
- **Rerank ties.** The rerank sort is stable: hits with equal scores keep the merge order.

## Left out

- The chunker's regular expressions (`FIG_REGEX` and the fallback pattern of `extract_figure_tag`) are parameters. Their match semantics are not modelled; only the guards around them and how their result is used are.
- Characters are treated as ASCII: `\w`, `\s`, `str.lower()` and `str.isspace()` are not modelled on Unicode text.
- Python iterates sets in hash order. `list(found)` and `list(expansions)` are modelled by a choice the model leaves open, so every order is covered.
- The embedding search (`search`) and the cross-encoder (`predict`) are deterministic functions here; an exception becomes `None`. Their internals are not part of this model.
- Loading `chunks.jsonl` is not modelled. A line that fails to parse is skipped, and the model starts from the corpus already loaded.
- `src/embed_index.py`, `src/ingest.py`, `src/app_streamlit.py` and `run_pipeline.py` are not part of this model.
- The HTTP request of `call_ollama` is not modelled, nor are its timeout and `raise_for_status`. Only the choice among the fields of the decoded reply is modelled. `str(data)` is represented by the reply itself, not by its printed text.
- Scores are reals, not floats: NaN and rounding are not modelled.
- A chunk dict whose `meta` is `None`, or whose `meta` is not a dict, is not modelled. A missing `meta` key is modelled.
- A non-string `type` is not modelled. In the table branch, `"table" in t` is modelled on a string.
- A table row that is not a list is modelled as a row that raises, so its table is skipped. Cells are modelled as strings or `None`; other cell types, and how `str()` prints them, are not modelled.
- Chunker.ChunkText: requires `chunk_size > overlap` when the text has words. Otherwise the source loops forever, and that case is excluded rather than modelled.
- Expansion.ExpandSynonyms: the eight `if` statements are modelled as one loop over a table of rules. `TriggerFacts` ties each rule to the source's trigger words.
- Chunker.ChunkText: `chunk_size` and `overlap` are parameters of `ChunkText` and `PageToChunks`. The defaults 300 and 50 are the constants `DefaultChunkSize` and `DefaultOverlap`.
- Retriever.RetrieverState.Retrieve: `topk` and `rerank_topk` are parameters. The defaults 15 and 5 are the constants `DefaultTopK` and `DefaultRerankTopK`.
