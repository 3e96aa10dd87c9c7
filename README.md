# CDP support agent: a Dafny model

This project models the question-answering core of a small support agent for four
customer data platforms (CDPs): Segment, mParticle, Lytics and Zeotap.

- **Indexer.** Scraped documentation pages are normalised and cut into overlapping
  chunks (`scripts/indexer.py`).
- **Query engine.** A question is classified as a how-to question or a comparison, and
  the product and feature it names are extracted (`app/query_engine.py`).
- **Search.** The chunks of one product are ranked by similarity with a stable
  descending sort. The search keeps the first `top_k` and then drops every score that
  is not above 0.1.
- **Response generator.** The tagged outcome is turned into a numbered how-to answer
  or a per-product comparison (`app/response_generator.py`).
- **Chat endpoint.** The endpoint links the pieces (`app/app.py`).

Modules, in dependency order:

- `Wrappers`: `Option`, the Python `None`.
- `Text`: character classes, `lower`, `capitalize`, `strip`, `join`, `replace`, prefix
  slicing and decimal numerals.
- `Normalize`: the normalisation that both `preprocess_query` and `preprocess_text`
  perform.
- `Records`: documents, chunk records and scored results.
- `Classifier`: the ordered, first-match-wins pattern tests.
- `Retrieval`: `search`.
- `Orchestration`: `query`, `compare_cdps` and the chat dispatch.
- `Indexer`: `chunk_document`, plus the `DocumentProcessor` class and its
  `process_all_documents`.
- `Responses`: `clean_text`, `extract_steps`, the two formatters, `generate_response`
  and the chat endpoint.

How the model is built:

- The result dictionaries, tagged by their `type` key, become the datatype
  `Orchestration.Outcome`.
- Every accumulating loop of the source is a method. Each method is proved equal to
  a specification function, and the properties are proved about those functions.
  The early-exit loops of `is_how_to_question`, `extract_cdp_name`,
  `is_comparison_question` and `extract_feature_to_compare` return at their first
  match, so they are recursive functions.

Two behaviours of the code worth knowing:

- **Leading whitespace.** The how-to patterns are anchored at the start of the text,
  and `is_how_to_question` does not strip the query. So a question that starts with
  whitespace is never a how-to question (`Classifier.LeadingSpaceIsNotHowTo`).
- **Missing product.** The default "the CDP" is passed through `capitalize`, which
  prints "The cdp". The model's how-to heading prints what the code prints (see
  Findings).

## Model

| member | source | states |
|---|---|---|
| Text.Capitalize | app/response_generator.py:67 | `str.capitalize`: same length and the same text once lower-cased; the first character is upper-cased and no later character is upper case |
| Text.StripLeft | app/query_engine.py:40 | `lstrip`: a suffix of the input; everything it drops is whitespace; it does not start with whitespace |
| Text.StripRight | app/query_engine.py:40 | `rstrip`: a prefix of the input; everything it drops is whitespace; it does not end with whitespace |
| Text.StripSlice | app/query_engine.py:40 | `strip` returns one slice of the input with only whitespace on either side. It is empty or has no whitespace at either end |
| Text.NatToString | app/response_generator.py:75 | the step number printed before an unnumbered step is a non-empty run of digits whose decimal value is the number, with no leading zero |
| Normalize.ReplaceSymbols | app/query_engine.py:39 | every character that is neither a word character nor whitespace becomes one space; the rest are kept; the length is unchanged |
| Normalize.CollapseShape | app/query_engine.py:40 | after `\s+` → `' '`, the only whitespace is the plain space, and never two in a row |
| Normalize.CollapseTokens | app/query_engine.py:40 | `re.sub(r'\s+', ' ', s).strip()` is exactly the maximal whitespace-free runs of `s` (its tokens), in order, joined by one space each |
| Normalize.TokensKeepNonSpace | app/query_engine.py:40 | the tokens together are every non-whitespace character of the text, in order, and nothing else |
| Normalize.NoTokensAllSpace | app/query_engine.py:40 | text with no token is all whitespace, so it collapses and strips to the empty string |
| Normalize.PreprocessTokens | app/query_engine.py:36-42 | a normalised query is the tokens left once every symbol has become a space, joined by one space each |
| Normalize.PreprocessNormal | app/query_engine.py:36-42 | a normalised query is word characters separated by single spaces, with none at either end |
| Normalize.PreprocessKeepsWordChars | scripts/indexer.py:37-42 | normalisation keeps every word character of the text, in order, and adds none |
| Normalize.NormalIsFixed | scripts/indexer.py:37-42 | text already in normal form is left unchanged |
| Normalize.PreprocessIdempotent | app/query_engine.py:36-42 | normalising twice is normalising once, so a query is normalised exactly as the indexed text was |
| Normalize.StripCollapseTidy | app/response_generator.py:35 | `re.sub(r'\s+', ' ', text).strip()` leaves single spaces only, none at either end |
| Classifier.LastTwoPatternsRedundant | app/query_engine.py:46-61 | `is_how_to_question` gives the same answer with its last two patterns removed |
| Classifier.DropSubsumed | app/query_engine.py:57-61 | a pattern that a general pattern earlier in the list covers never changes the first-match-wins answer |
| Classifier.SetUpIsSpecialCase | app/query_engine.py:48-52 | the "how do i set up" pattern is a special case of the "how do/can/would/should i" pattern |
| Classifier.CreateIsSpecialCase | app/query_engine.py:48-53 | the "how do i create" pattern is a special case of the same pattern |
| Classifier.LeadingSpaceIsNotHowTo | app/query_engine.py:44-61 | the patterns are anchored and the query is not stripped, so a query that starts with whitespace is not a how-to question |
| Classifier.FirstMentioned | app/query_engine.py:63-72 | `extract_cdp_name` returns None exactly when no product occurs. Otherwise it returns the first product in list order that occurs in the lower-cased query |
| Classifier.SegmentationNamesSegment | app/query_engine.py:63-72 | a query that mentions "segmentation" is always attributed to Segment, because the substring test sees "segment" |
| Classifier.Mentioned | app/query_engine.py:164-175 | the products kept are exactly those of the list that occur in the text, and no more than the list holds |
| Classifier.MentionedInOrder | app/query_engine.py:168-173 | the products are collected in list order: of any two collected, the earlier one stands earlier in the list |
| Classifier.MentionedDistinct | app/query_engine.py:171-173 | the products collected are pairwise distinct |
| Classifier.MentionedHead | app/query_engine.py:63-72 | the first product collected by `extract_cdps_to_compare` is the one `extract_cdp_name` returns |
| Classifier.FirstMentionedSnoc | app/query_engine.py:63-72 | adding a product at the end of the list changes the first match only when nothing matched before |
| Classifier.CollectMentioned | app/query_engine.py:168-173 | the collecting loop computes `Mentioned` |
| Classifier.ExtractCdpsToCompare | app/query_engine.py:164-175 | None when fewer than two products occur. Otherwise: at least two distinct products, in list order, exactly those that occur, the first being `extract_cdp_name`'s |
| Classifier.ComparisonMarkers | app/query_engine.py:147-162 | `is_comparison_question` holds exactly when the lower-cased query contains "compare", "difference between", "versus" or "vs"; the `how does .+ compare to` pattern adds nothing |
| Classifier.FirstRuleLabel | app/query_engine.py:177-194 | `extract_feature_to_compare` returns None exactly when no rule matches. Otherwise it returns the label of the first matching rule |
| Retrieval.CandidateIndices | app/query_engine.py:86-93 | the candidates are exactly the positions whose source equals the filter, case-insensitively (all positions without a filter), ascending |
| Retrieval.InsertSorted | app/query_engine.py:90 | inserting into a descending list keeps it descending and adds exactly the inserted hit |
| Retrieval.SortByScore | app/query_engine.py:90-94 | `sorted(key=score, reverse=True)` returns a permutation of the candidates, in descending score order |
| Retrieval.SortByScoreStable | app/query_engine.py:90-94 | the sort is stable: hits with equal scores keep their corpus order |
| Text.Take | app/query_engine.py:90 | `[:top_k]`, and `[:5]` at app/response_generator.py:30, is the longest prefix of at most `k` items: all of them when there are no more than `k` |
| Retrieval.KeepRelevant | app/query_engine.py:97-102 | only hits scoring above 0.1 are kept |
| Retrieval.KeepRelevantIsPrefix | app/query_engine.py:97-102 | on a descending list, the floor keeps a prefix and drops only hits at or below 0.1 |
| Retrieval.ToResults | app/query_engine.py:100-101 | each result is a copy of its chunk record, paired with its score |
| Retrieval.RankedHitsProperties | app/query_engine.py:74-104 | the ranked hits: at most `top_k`; each above the floor and admitted by the filter; descending; ties in corpus order |
| Retrieval.RankedHitsAdmitted | app/query_engine.py:86-102 | every returned hit names an existing chunk that the product filter admits, with a score above 0.1 |
| Retrieval.RankedHitsOrdered | app/query_engine.py:90-93 | the returned hits are in non-increasing score order, and equal scores keep corpus order |

| Retrieval.RankedHitsIsPrefix | app/query_engine.py:90-102 | the results are a prefix of the top `top_k`; everything cut after it is at or below the floor |
| Retrieval.RankedHitsBestFirst | app/query_engine.py:74-104 | the first result scores at least as high as any admitted chunk. If some admitted chunk scores above 0.1 and `top_k > 0`, there is a result |
| Retrieval.NoCandidatesNoResults | app/query_engine.py:86-90 | a filter that admits no chunk gives an empty result, not an error |
| Retrieval.SearchIsCopy | app/query_engine.py:97-104 | the result list is the copying loop applied to the top `top_k` sorted candidates |
| Retrieval.SearchResultsProperties | app/query_engine.py:74-104 | `search` returns at most `top_k` results. Each scores above 0.1 and comes from the filtered product. The scores descend |
| Retrieval.Search | app/query_engine.py:74-104 | the method computes `SearchResults` and keeps its bounds |
| Retrieval.CopyRelevantHits | app/query_engine.py:97-102 | the copying loop computes `CopyRelevant` |
| Orchestration.NoResultsMessageNamesProduct | app/query_engine.py:121-131 | the generic `no_results` message is used exactly when no product was named |
| Orchestration.QueryRouting | app/query_engine.py:106-140 | `not_how_to` exactly for non-how-to questions, with the fixed help text. `no_results` exactly when the 3-result search is empty. `results` carries the product, the query and the non-empty, bounded, relevant search result |
| Orchestration.Query | app/query_engine.py:106-140 | the method computes `QueryOutcome`; a `results` outcome is non-empty, bounded and relevant |
| Orchestration.ComparisonMap | app/query_engine.py:216-221 | a product is a key exactly when it was requested and its search is non-empty; its value is that search |
| Orchestration.ComparisonDataAt | app/query_engine.py:216-221 | a product is in the comparison data exactly when the 2-result search for "how to {feature} in {product}" finds something |
| Orchestration.CompareDecisionBranches | app/query_engine.py:196-237 | no outcome exactly for non-comparison questions. Otherwise an error or a comparison; the two-products error whenever fewer than two were named; an error when no feature was found |
| Orchestration.CompareDecisionPayload | app/query_engine.py:208-237 | a comparison lists all requested products (at least two) and the extracted feature. Its data is non-empty and holds the per-product searches |
| Orchestration.CompareRouting | app/query_engine.py:196-237 | `compare_cdps` returns None exactly for non-comparison questions. A comparison carries the extracted products and feature |
| Orchestration.ComparisonDataNonEmpty | app/query_engine.py:216-221 | every list in the comparison data is non-empty, at most 2 long and relevant for its product |
| Orchestration.CompareCdps | app/query_engine.py:196-237 | the method computes `CompareOutcome` |
| Orchestration.CollectComparisonData | app/query_engine.py:216-221 | the collecting loop computes `ComparisonData` |
| Orchestration.ChatAlwaysAnswers | app/app.py:35-39 | asking the comparator only for comparison questions means the generator always gets an outcome. A non-comparison gets `query`'s outcome |
| Orchestration.Chat | app/app.py:35-39 | the dispatch computes `ChatOutcome` and never yields None |
| Indexer.OverlapSuffixShape | scripts/indexer.py:70-83 | the carried-over sentences are a suffix of the closed chunk whose total length is within the overlap budget |
| Indexer.OverlapIsLongest | scripts/indexer.py:74-80 | no longer suffix fits the overlap budget |
| Indexer.StepCloses | scripts/indexer.py:56-86 | a chunk closes exactly when the current one is non-empty and the sentence would overflow it; what opens next is the overlap plus the sentence; otherwise the sentence is appended |
| Indexer.RunFits | scripts/indexer.py:52-97 | every closed chunk is within the size limit, or everything but its last sentence fits the overlap budget; the open chunk fits too and ends with the last sentence; it is empty only when there were no sentences |
| Indexer.GroupsProperties | scripts/indexer.py:52-97 | no sentences gives no chunks; every chunk fits; the last chunk ends with the last sentence; every sentence lands in some chunk |
| Indexer.ChunkRecords | scripts/indexer.py:44-99 | one record per group. Ids count from 0 within the document. Source, url and title are copied, and the text is the group joined by spaces |
| Indexer.CarryOverlap | scripts/indexer.py:70-83 | the backwards overlap loop computes the overlap suffix and its length |
| Indexer.ChunkSentences | scripts/indexer.py:52-97 | the chunking loop computes `DocumentChunks` |
| Indexer.ChunkDocument | scripts/indexer.py:44-99 | `chunk_document` chunks the sentences of the normalised content, with the given size and overlap; `ProcessAllDocuments` passes the defaults 500 and 100 |
| Indexer.CorpusChunksFromDocuments | scripts/indexer.py:101-105 | every chunk of the corpus carries the source, url and title of one of the documents |
| Indexer.CorpusChunkIdsRestart | scripts/indexer.py:101-105 | processing one more document keeps the earlier chunks; the new ones belong to that document, with ids counting again from 0 |
| Indexer.DocumentProcessor.constructor | scripts/indexer.py:20-33 | stands for `__init__` followed by `load_documents`: a new processor holds the loaded documents and no chunks |
| Indexer.DocumentProcessor.ProcessAllDocuments | scripts/indexer.py:101-107 | the chunks list is extended with the chunks of every document, in document order |
| Responses.IndexOf | app/response_generator.py:37 | the position of the first occurrence of a character, or None when there is none |
| Responses.LinkAt | app/response_generator.py:37 | a link found at the head of the text matches `\[([^\]]+)\]\([^)]+\)` there |
| Responses.LinkSpanUnique | app/response_generator.py:37 | at a given position the link pattern can match in only one way |
| Responses.LinkAtComplete | app/response_generator.py:37 | whenever the pattern matches at the head of the text, `LinkAt` finds exactly that match |
| Responses.StripLinksNoBracket | app/response_generator.py:37 | text without `[` is left unchanged by the link substitution |
| Responses.StripLinksPlainPrefix | app/response_generator.py:37 | text without `[` is copied through by the link substitution, whatever follows it |
| Responses.StripLinksReplacesLink | app/response_generator.py:37 | a link `[label](target)` after plain text is replaced by its label, and the rest of the text is processed on |
| Responses.CleanTextTokens | app/response_generator.py:32-38 | `clean_text` removes links from the tokens of the text joined by one space each |
| Responses.CleanTextWithoutLinks | app/response_generator.py:32-38 | for text without `[`, `clean_text` is the tokens of the text joined by one space each, so single spaces only and none at either end |
| Responses.MarkerLen | app/response_generator.py:15-22 | a step marker (`\d+\.\s+` or `\*\s+`) is at least two characters |
| Responses.StopFrom | app/response_generator.py:15-22 | the lazy `.*?` ends at the first position where the next marker or the end of the text (`$`, also before a final newline) follows |
| Responses.FindAllEmptyIff | app/response_generator.py:15-26 | `re.findall` finds no step exactly when no position of the text starts a marker |
| Responses.FirstMarker | app/response_generator.py:15-23 | the scan skips to the first marker, with no marker before it, and finds from there the same steps |
| Responses.StepsTile | app/response_generator.py:15-23 | the steps found are consecutive, start at the first marker, and cover the rest of the text, up to a final newline |
| Responses.ExtractStepsCases | app/response_generator.py:12-30 | numbered steps when there is a numbered marker; else bullets when there is a bullet marker; else at most five stripped, non-empty sentences |
| Responses.ExtractedStepsTile | app/response_generator.py:12-26 | extracted steps or bullets tile the text from the first marker of the kind chosen |
| Responses.SplitPiecesEnd | app/response_generator.py:29 | every sentence piece but the last ends with `.`, `!` or `?` |
| Responses.SplitPiecesWhole | app/response_generator.py:29 | no piece holds a sentence break inside it |
| Responses.SentenceSplit | app/response_generator.py:29 | splitting on `(?<=[.!?])\s+` splits exactly at the breaks. Joining the pieces with the whitespace runs removed gives back the text; each run is non-empty and maximal |
| Responses.SplitRejoins | app/response_generator.py:29 | the pieces, with the removed whitespace runs put back between them, give back the text exactly; there is one run fewer than pieces |
| Responses.SplitSepsMaximal | app/response_generator.py:29 | the `\s+` run is taken whole: no piece after the first starts with whitespace |
| Responses.StrippedNonEmpty | app/response_generator.py:29 | the kept sentences are stripped and non-empty |
| Responses.StrippedNonEmptyKeeps | app/response_generator.py:29 | the comprehension keeps the stripped form of exactly the pieces that do not strip to nothing, in order, and misses none |
| Responses.StepLineNumbered | app/response_generator.py:72-77 | every line starts with a number and ends with the cleaned step. A step that is already numbered is kept as it is; any other step gets its position as a prefix |
| Responses.StepLinesAreNumbered | app/response_generator.py:69-77 | the steps block is the numbered lines in order, each starting with a number |
| Responses.AppendStepLines | app/response_generator.py:69-77 | the numbering loop appends exactly those lines |
| Responses.MissingProductAsWritten | app/response_generator.py:49-67 | with no product the heading names "The cdp" |
| Responses.ProductDisplay | app/response_generator.py:49-67 | as intended: a product capitalised, a missing one as "the CDP" |
| Responses.HeadingFor | app/response_generator.py:66-67 | the heading holds the product display right after "Here's how to {topic} in " |
| Responses.HeadingAsIntendedIff | app/response_generator.py:49-67 | the printed heading equals the intended one exactly when a product was named |
| Responses.HowToTextShape | app/response_generator.py:66-83 | a how-to answer opens with the heading as printed (naming a missing product "The cdp") and ends with the documentation link of the best result |
| Responses.FormatHowToResponse | app/response_generator.py:40-83 | the formatter computes `HowToText`, with the heading as printed; `not_how_to` and `no_results` pass their message through |
| Responses.KeyPoints | app/response_generator.py:110-111 | the key points are the first three sentences (all of them when fewer), each stripped and non-empty |
| Responses.SectionShape | app/response_generator.py:96-119 | a product with no data gets the "couldn't find" line. Otherwise its section opens with its name and ends with its best result's URL |
| Responses.SectionListAt | app/response_generator.py:96-119 | one section per requested product; section `k` is the one for product `k` |
| Responses.SectionsInOrder | app/response_generator.py:96-119 | the sections are those of the requested products, in the requested order |
| Responses.ComparisonTextShape | app/response_generator.py:85-123 | a comparison is the heading, the sections in order and the closing note |
| Responses.AppendBullets | app/response_generator.py:114-115 | the bullet loop appends one `- point` line per key point |
| Responses.AppendSection | app/response_generator.py:97-119 | one iteration of the per-product loop appends that product's section |
| Responses.FormatComparisonResponse | app/response_generator.py:85-123 | the formatter computes `ComparisonText`; `comparison_error` passes its message through |
| Responses.GenerateResponse | app/response_generator.py:125-136 | how-to outcomes go to the how-to formatter, comparison outcomes to the comparison formatter, anything else to the fallback text |
| Responses.ChatOutcomeDisplayable | app/app.py:35-42 | everything the dispatch hands the generator can be formatted: result lists and comparison entries are never empty |
| Responses.ChatReplyCases | app/app.py:26-47 | only the empty message is rejected; every other message is answered from an outcome; a message that is neither kind is answered with the help text |
| Responses.ChatEndpoint | app/app.py:26-47 | the endpoint computes `ChatReplyFor` |

## Left out

- Index loading (`load_index`, app/query_engine.py:16-34): the pickle, npz and JSON
  I/O is not modelled. `Retrieval.Index` is the loaded state, with chunk records and
  similarity rows aligned.
- The TF-IDF projection and the dot product (app/query_engine.py:80-83), and the
  vectoriser fitting of `DocumentIndexer` (scripts/indexer.py:119-161): the model
  takes the score of chunk `i` as a function of the normalised query, `Index.similarity`.
  Scores are reals, with no NaN and no floating-point rounding.
- NLTK `sent_tokenize` (scripts/indexer.py:50) is a parameter of `ChunkDocument` and
  `ProcessAllDocuments`. The stemmer and stop-word list (scripts/indexer.py:21-22) are
  never used by the code.
- The branches that convert HTML with `html2text` (app/response_generator.py:55-56,
  101-102): the chunk records that `chunk_document` writes never carry an `html` key.
- Text.IsWordChar, Text.IsDigit, Text.Lower: `\w`, `\d` and `lower()` are modelled on
  ASCII. Python applies them to all of Unicode. `\s` and `strip()` use Python's full
  whitespace set.
- The file reading of `load_documents` (the documents it loads are the constructor's
  parameter), `save_processed_data`, the scraper, `build_knowledge_base.py` and the
  `print` calls: file and console I/O outside the core.
- The Flask layer: request parsing, `jsonify`, the HTTP status and application start-up.
  The chat endpoint is modelled as `Responses.ChatEndpoint` on the message string, with
  a missing message read as the empty one.
- Orchestration.Outcome is a closed set of variants. A `generate_response` argument
  that is not a dictionary, or that has no `type` key, is `None` in the model.
  A dictionary whose `type` is some other string cannot be expressed.
- Malformed records, such as a chunk without `url`: the Python code raises `KeyError`.
  The model's records always have every field.
- `top_k` is a `nat`, so Python's negative slice bounds are not modelled.
- Responses.CleanTextWithoutLinks: the whitespace shape is proved only for text
  without `[`. Whitespace is collapsed before links are removed, so a link label that
  starts or ends with a space can bring back a leading or doubled space.
- Responses.FormatHowToResponse, Responses.FormatComparisonResponse: they, and
  `GenerateResponse`, require every result list to be non-empty. Python indexes `[0]`
  and would raise `IndexError` on an empty list. `Responses.ChatOutcomeDisplayable`
  shows the dispatch never produces one.
- Responses.GenerateResponse: its `query` argument is unused by the source, and so by
  the model.

## Findings

| source | as written | input that shows it | evidently intended | confidence | as-written member | corrected member |
|---|---|---|---|---|---|---|
| app/response_generator.py:49-67 | the default "the CDP" for a missing product goes through `capitalize()` with the real names, and `capitalize` lower-cases everything after the first letter | a `results` outcome with `cdp` None (a how-to question naming no product): the heading reads "... in The cdp:" | "the CDP" for a missing product, a capitalised name otherwise | not executed | Responses.MissingProductAsWritten, Responses.HeadingAsIntendedIff | Responses.ProductDisplay |

The formatter of the model prints the heading as the code does (`Responses.HowToHeading`).
The corrected heading is `Responses.IntendedHowToHeading`, built on `Responses.ProductDisplay`.
