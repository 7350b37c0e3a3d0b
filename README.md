# IndustryInsider Bot: a verified model of its own rules

IndustryInsider Bot scrapes Economic Times articles into Markdown files and splits them into
chunks bounded by a token count (the call that would store them in a vector store is disabled
at `data_loading.py:102`). It then answers questions over them in a Streamlit chat that truncates a per-session
history against a token budget. Most of the repository is glue around Selenium, BeautifulSoup,
tiktoken, a semantic splitter, Chroma and LLM chains. This project models the few rules the
repository implements itself, and proves what they guarantee.

- `wrappers.dfy` (`Wrappers`): `Option` and `Result`.
- `text.dfy` (`Text`): the Python `str` operations the code relies on: `startswith`, `endswith`,
  `removesuffix`, one-character `replace`, `join`, and `split` on one character.
- `chat.dfy` (`Chat`), for `streamlit_app.py`:
  - the prompt-token estimate and the `abs` output clamp;
  - `truncate`, which deletes leading Human/AI pairs from the history list in place;
  - the session store, which creates a history on first use;
  - the bookkeeping of one `generate_response` exchange.
- `extraction.dfy` (`Extraction`), for `data_extraction.py`:
  - the article-link filter;
  - title and content assembly and file-name sanitising;
  - the POSIX `os.path.join`;
  - the save that never overwrites, over a directory modelled as a map from path to text.
- `loading.dfy` (`Loading`), for `data_loading.py`:
  - the recursive chunk acceptance of `split_chunks` and `validatetokenlength`, on a class whose
    `chunksList` field is the accumulator;
  - the extension filter of `data_chunking`.

The tokenizer and the semantic splitter are uninterpreted:
- in `Chat`, the tokenizer is the function field `Settings.tokens`;
- in `Loading`, the tokenizer and the splitter are the `tokens` and `split` fields of
  `DataLoading`.

The recursion of `split_chunks` only ends if re-splitting shrinks an over-bound text. Nothing
in the code ensures this. It is therefore an explicit precondition, `Loading.Shrinks`: every
piece of an over-bound text has fewer tokens than the text. What happens without it is modelled
too, with a bound on the recursion depth (see Findings).

### Four behaviours of the code that a reader might not expect

- **Truncation does not keep the history under budget.** `truncate` sets its counter to the
  cost of the pair it just deleted, instead of subtracting that cost. The comment at the call
  site (`streamlit_app.py:145-146`) says the truncation is there to avoid the context token
  limit, and the docstring at `streamlit_app.py:88` says it removes the initial conversations.
  The code does not keep the history under the limit, and the model follows the code. So the
  loop stops after the first cheap pair, however far over budget the rest of the history still
  is (see Findings).
- **The output clamp grows when the prompt is over budget.** `abs(MAX_TOKENS - total)` grows with
  the overrun, so an over-budget prompt gets a larger output allowance (`OverBudgetRaisesOutputLimit`).
  This is stated, not corrected: whether a floor at zero was intended cannot be read from the code.
- **`split_chunks` can recurse forever.** When the splitter hands an over-bound text back
  whole (a semantic splitter does this with one long sentence), `split_chunks` calls itself on
  the same text until Python's recursion limit raises `RecursionError`. The handler of `main`
  catches it, so `data_chunking` never returns and the run yields no chunk list; the chunks
  appended before the error stay in `chunks_list` (see Findings). (`main` keeps no chunk list
  on any path: the store call is disabled and nothing is returned.)
- **`truncate` can raise.** On a one-message list it reads `history[1]`, which raises
  `IndexError`. The broad handler of `generate_response` then catches it. The deletions made
  before the raise stay in the list, because the list object is shared with the session store.
  Histories that grow by whole pairs never reach this case (`TruncateParity`).

## Model

| member | source | states |
|---|---|---|
| Text.StartsWith | IndustryInsider_Bot/data_extraction.py:116 | definition: `str.startswith`, the prefix is the string's first characters |
| Text.EndsWith | IndustryInsider_Bot/data_loading.py:89 | definition: `str.endswith`, the suffix is the string's last characters |
| Text.Join | IndustryInsider_Bot/data_extraction.py:82 | definition: `sep.join(parts)`, the parts in order with the separator between neighbours |
| Text.RemoveSuffix | IndustryInsider_Bot/data_extraction.py:81 | the suffix is removed exactly once, and only when the string ends with it; otherwise the string is unchanged |
| Text.ReplaceChar | IndustryInsider_Bot/data_extraction.py:122 | the length is kept, every occurrence of the character is replaced, and every other position is unchanged |
| Text.Split | IndustryInsider_Bot/data_extraction.py:116 | `split` yields at least one piece, and exactly one piece iff the separator does not occur |
| Text.SplitPiecesFree | IndustryInsider_Bot/data_extraction.py:116 | no piece of a split contains the separator |
| Text.JoinSplit | IndustryInsider_Bot/data_extraction.py:116 | joining the pieces of a split with the separator gives back the original string |
| Chat.TokenLimit | IndustryInsider_Bot/streamlit_app.py:89 | definition: `token_limit`, MAX_TOKENS minus the 500-token margin |
| Chat.MessageCost | IndustryInsider_Bot/streamlit_app.py:109 | definition: one message's term of the history sum, its content tokens plus the history padding |
| Chat.HistoryCost | IndustryInsider_Bot/streamlit_app.py:109 | definition: the sum over the messages of their content tokens plus the history padding |
| Chat.PairCost | IndustryInsider_Bot/streamlit_app.py:91 | definition: the counter `truncate` assigns, the two leading contents' tokens plus twice the history padding |
| Chat.PromptEstimate | IndustryInsider_Bot/streamlit_app.py:105-116 | definition: the history sum (0 when the session is absent), plus the request, both rendered prompts and the prompt padding |
| Chat.HistoryCostAppend | IndustryInsider_Bot/streamlit_app.py:109 | the per-message history sum is additive over concatenation |
| Chat.PairCostIsHistoryCost | IndustryInsider_Bot/streamlit_app.py:91 | the counter `truncate` assigns for a pair equals that pair's share of the line-109 history sum |
| Chat.EstimateAbsentIsEmpty | IndustryInsider_Bot/streamlit_app.py:105-116 | a session absent from the store is estimated like an empty history (history term 0) |
| Chat.EstimateAfterExchange | IndustryInsider_Bot/streamlit_app.py:105-116 | after one Human/AI exchange, the next estimate grows by the question's and the answer's tokens plus twice the history padding |
| Chat.Abs | IndustryInsider_Bot/streamlit_app.py:118 | Python's `abs`: a non-negative result equal to the argument or its negation |
| Chat.MaxOutputTokens | IndustryInsider_Bot/streamlit_app.py:118 | the allowance is never negative; it is `MAX_TOKENS - estimate` when the estimate is within budget, and `estimate - MAX_TOKENS` otherwise |
| Chat.OverBudgetRaisesOutputLimit | IndustryInsider_Bot/streamlit_app.py:118 | past the budget, a larger estimate gets a strictly larger allowance, and estimate plus allowance exceeds MAX_TOKENS |
| Chat.Truncated | IndustryInsider_Bot/streamlit_app.py:87-93 | `truncate` never lengthens the list, and a raise leaves exactly one message |
| Chat.TruncateDeletesLeadingPairs | IndustryInsider_Bot/streamlit_app.py:90-92 | what is left is the input with an even number of leading messages deleted, in the original order |
| Chat.TruncateDeletesAboveLimit | IndustryInsider_Bot/streamlit_app.py:90-92 | at or above the limit, a non-empty list loses at least its leading pair, or the call raises |
| Chat.TruncateBelowLimitUnchanged | IndustryInsider_Bot/streamlit_app.py:89-90 | below `MAX_TOKENS-500`, or on an empty list, the history is left unchanged and nothing raises |
| Chat.TruncateParity | IndustryInsider_Bot/streamlit_app.py:90-92 | an even-length list never raises and stays even; the remaining length has the input's parity; a raise leaves only the last message |
| Chat.TruncateIgnoresExcess | IndustryInsider_Bot/streamlit_app.py:90-91 | any two incoming totals at or above the limit give the same result, because the counter is replaced after the first check |
| Chat.TruncateStopsAtCheapPair | IndustryInsider_Bot/streamlit_app.py:90-92 | when deletion stopped with messages left and no raise, the last deleted pair costs less than the limit |
| Chat.TruncateDeletedPairsCostly | IndustryInsider_Bot/streamlit_app.py:90-92 | every deleted pair but the last (and the last too when the call raised) costs at least the limit |
| Chat.TruncatedIntended | IndustryInsider_Bot/streamlit_app.py:89-92 | definition: the corrected loop, which lowers the counter by each deleted pair's cost instead of resetting it |
| Chat.TruncatedIntendedWithinBudget | IndustryInsider_Bot/streamlit_app.py:89-92 | the corrected loop deletes an even-length prefix; unless it raised or emptied the list, the incoming total minus the deleted cost is below the limit |
| Chat.TruncateLeavesOverBudget | IndustryInsider_Bot/streamlit_app.py:89-92 | concrete case: the code as written deletes one pair and stops still over budget, while the corrected loop deletes both |
| Chat.Truncate | IndustryInsider_Bot/streamlit_app.py:87-93 | the in-place loop leaves the list object, and reports a raise, exactly as `Truncated` describes, with deletions made before a raise kept |
| Chat.ChatHistory.constructor | IndustryInsider_Bot/streamlit_app.py:98 | `ChatMessageHistory()` starts with no messages |
| Chat.SessionStore.Lookup | IndustryInsider_Bot/streamlit_app.py:108-109 | definition: the session's messages when its id is in the store, and nothing otherwise |
| Chat.SessionStore.GetSessionHistory | IndustryInsider_Bot/streamlit_app.py:95-99 | returns the stored history when the id is present and changes nothing; otherwise stores a fresh empty history under the id, and every other key is unchanged |
| Chat.SessionLookupIdempotent | IndustryInsider_Bot/streamlit_app.py:95-99 | two lookups of one id return the same object and leave the store as the first lookup did |
| Chat.SessionStore.GenerateResponse | IndustryInsider_Bot/streamlit_app.py:105-147 | the allowance comes from the pre-call estimate; a session already present keeps its history object; the session then holds its old history plus the exchange, truncated against response tokens plus that estimate; other sessions are untouched |
| Extraction.IsArticleLink | IndustryInsider_Bot/data_extraction.py:116 | definition: the link starts with `url` and its path has at least two '/'-segments, the second-to-last being "articleshow" |
| Extraction.KeepLink | IndustryInsider_Bot/data_extraction.py:116 | the condition raises exactly when the link is under `url` and its path has no '/'; otherwise it holds iff the link is an article link |
| Extraction.FilterLinks | IndustryInsider_Bot/data_extraction.py:114-116 | the comprehension raises iff some link under `url` has a path without '/'; otherwise the result is an order-preserving subsequence holding exactly the article links, each as many times as in the input |
| Extraction.ArticleTitle | IndustryInsider_Bot/data_extraction.py:81 | the title loses ' - The Economic Times' only when it ends with it |
| Extraction.ArticleTitleStripsSuffix | IndustryInsider_Bot/data_extraction.py:81 | a title carrying the suffix is returned without it |
| Extraction.ArticleContent | IndustryInsider_Bot/data_extraction.py:82 | the content is title, a blank line, then the body, so it begins with the title |
| Extraction.Sanitize | IndustryInsider_Bot/data_extraction.py:122 | the length is kept; '/', '\\', ':' and ' ' become '_'; every other character stays in place; none of the four remains |
| Extraction.SanitizeIdempotent | IndustryInsider_Bot/data_extraction.py:122 | sanitising twice is sanitising once |
| Extraction.SanitizeMerges | IndustryInsider_Bot/data_extraction.py:122 | titles that differ by a forbidden character in place of '_' get the same file name |
| Extraction.PathJoin | IndustryInsider_Bot/data_extraction.py:123 | definition: POSIX `os.path.join` of two parts; an absolute second part replaces the first |
| Extraction.ArticlePath | IndustryInsider_Bot/data_extraction.py:122-123 | the path is the output directory (with '/' added when missing) followed by the sanitised title and '.md'; it never escapes the directory |
| Extraction.StoreNew | IndustryInsider_Bot/data_extraction.py:125-127 | an existing path keeps its text; a new path gains the text; no other entry changes, and no entry is removed |
| Extraction.StoreNewKeepsFirst | IndustryInsider_Bot/data_extraction.py:125-127 | a second save under the same path changes nothing |
| Extraction.SaveAll | IndustryInsider_Bot/data_extraction.py:74-84 | definition: the no-overwrite saves of a batch of files, in order |
| Extraction.SaveAllSnoc | IndustryInsider_Bot/data_extraction.py:74-84 | saving one more article after a batch is one more no-overwrite save |
| Extraction.SaveAllKeepsExisting | IndustryInsider_Bot/data_extraction.py:74-84 | a batch keeps every existing file and its text, and adds exactly the batch's paths |
| Extraction.SaveAllFirstWins | IndustryInsider_Bot/data_extraction.py:74-84 | a new path ends up holding the text of the first article saved under it; later duplicates are dropped |
| Extraction.PageEntry | IndustryInsider_Bot/data_extraction.py:81-84 | definition: the file for a page is named after its stripped title and holds that title, a blank line and the body |
| Extraction.PageEntries | IndustryInsider_Bot/data_extraction.py:74-84 | one file per page, the i-th being the file for the i-th page |
| Extraction.PageEntriesAppend | IndustryInsider_Bot/data_extraction.py:74-84 | the files of two runs of pages are those of the first run followed by those of the second |
| Extraction.WebScrap.constructor | IndustryInsider_Bot/data_extraction.py:17-28 | the scraper writes into the configured output directory, whose existing files are given |
| Extraction.WebScrap.SaveWebcontent | IndustryInsider_Bot/data_extraction.py:120-128 | the directory becomes the no-overwrite save of the text under the sanitised `.md` path |
| Extraction.PagesBeforeFailure | IndustryInsider_Bot/data_extraction.py:74-84 | the complete pages, in order, up to the first page lacking an article element or a title; that page, if any, is the one right after them |
| Extraction.WebScrap.ExtractText | IndustryInsider_Bot/data_extraction.py:72-84 | the directory becomes the in-order, no-overwrite save of each page's title-plus-body under its title's file name, for the pages before the first one without an article element or a title; the call raises exactly when such a page exists |
| Loading.Accepted | IndustryInsider_Bot/data_loading.py:66-77 | a chunk within the bound is appended alone and unchanged, without calling the splitter |
| Loading.Shrinks | IndustryInsider_Bot/data_loading.py:74-77 | definition of the termination assumption: every piece of an over-bound text has fewer tokens than the text |
| Loading.AcceptedAll | IndustryInsider_Bot/data_loading.py:76-77 | definition: the pieces are handled one after the other and their results concatenated in order |
| Loading.AcceptedBounded | IndustryInsider_Bot/data_loading.py:69-77 | every chunk `split_chunks` appends is within the bound |
| Loading.AcceptedAllBounded | IndustryInsider_Bot/data_loading.py:79-83 | every chunk `validatetokenlength` appends is within the bound |
| Loading.AcceptedDropsOverBound | IndustryInsider_Bot/data_loading.py:73-77 | an over-bound chunk is never itself appended |
| Loading.AcceptedOverBound | IndustryInsider_Bot/data_loading.py:73-77 | an over-bound chunk appends what its sub-splits append, in sub-split order |
| Loading.AcceptedAllAppend | IndustryInsider_Bot/data_loading.py:81-82 | handling two runs of chunks in turn appends their results in that order |
| Loading.AcceptedAllKeepsSmall | IndustryInsider_Bot/data_loading.py:71-72 | inputs that are all within the bound are appended unchanged and in order |
| Loading.AcceptedWithinDepth | IndustryInsider_Bot/data_loading.py:66-77 | `split_chunks` without any termination assumption, under a recursion-depth bound; a chunk within the token bound is accepted at any depth |
| Loading.AcceptedAllWithinDepth | IndustryInsider_Bot/data_loading.py:76-77 | definition: the `for` loop over the sub-splits under the depth bound; the first `RecursionError` aborts it |
| Loading.AcceptedWithinDepthAgrees | IndustryInsider_Bot/data_loading.py:66-77 | under `Shrinks`, a depth above the chunk's token count is enough, and the result is `Accepted` |
| Loading.AcceptedAllWithinDepthAgrees | IndustryInsider_Bot/data_loading.py:76-77 | the same for a run of pieces whose token counts are below the depth |
| Loading.AcceptedWithinDepthBounded | IndustryInsider_Bot/data_loading.py:69-77 | with no assumption on the splitter, every chunk the depth-bounded `split_chunks` appends is within the bound |
| Loading.AcceptedAllWithinDepthBounded | IndustryInsider_Bot/data_loading.py:76-77 | the same for a run of pieces under the depth bound |
| Loading.SplitChunksNeverEnds | IndustryInsider_Bot/data_loading.py:73-77 | with a splitter that returns an over-bound text whole, no depth bound is enough, and `Shrinks` does not hold |
| Loading.AcceptedGuarded | IndustryInsider_Bot/data_loading.py:66-77 | corrected acceptance: only pieces that shrank are re-split; a chunk within the bound is appended alone |
| Loading.AcceptedAllGuarded | IndustryInsider_Bot/data_loading.py:76-77 | definition: the corrected loop over the sub-splits, handling only the pieces with fewer tokens than their parent |
| Loading.AcceptedGuardedBounded | IndustryInsider_Bot/data_loading.py:69-72 | every chunk the corrected acceptance appends is within the bound, whatever the splitter returns |
| Loading.AcceptedAllGuardedBounded | IndustryInsider_Bot/data_loading.py:76-77 | the same for a run of pieces |
| Loading.AcceptedGuardedAgrees | IndustryInsider_Bot/data_loading.py:66-77 | under `Shrinks` the corrected acceptance appends exactly what the code as written does |
| Loading.AcceptedAllGuardedAgrees | IndustryInsider_Bot/data_loading.py:76-77 | the same for a run of pieces that are all smaller than their parent |
| Loading.Matching | IndustryInsider_Bot/data_loading.py:88-89 | the files kept are exactly those whose names end with the extension, each as many times as listed, in listing order |
| Loading.MergedSplits | IndustryInsider_Bot/data_loading.py:87-93 | definition: the splits of every listed file whose name ends with the extension, in listing order |
| Loading.MergedSplitsOfMatching | IndustryInsider_Bot/data_loading.py:88-93 | only files with the extension contribute splits: filtering them first changes nothing |
| Loading.DataLoading.constructor | IndustryInsider_Bot/data_loading.py:23 | the accumulator starts empty |
| Loading.DataLoading.SplitChunks | IndustryInsider_Bot/data_loading.py:66-77 | the accumulator only grows: the old list followed by what `Accepted` gives for the chunk |
| Loading.DataLoading.ValidateTokenLength | IndustryInsider_Bot/data_loading.py:79-83 | the inputs are handled in index order, appended to the never-reset accumulator, and the accumulator is returned |
| Loading.DataLoading.DataChunking | IndustryInsider_Bot/data_loading.py:85-96 | the accumulator gains the accepted chunks of the splits of the files with the extension, in listing order, and is returned |

## Left out

- Selenium scrolling and link collection, `AsyncHtmlLoader`, BeautifulSoup parsing and
  `remove_element`: browser and HTML-library I/O. A page arrives as its title metadata and
  the text of its article element, each possibly missing.
- The crawl in `webcontentextractor`, and the set order of `html_data.links`: the model filters
  a given sequence of links.
- `urljoin` and `urlparse` (reference resolution, section 5.2 of RFC 3986): a link arrives
  already resolved, together with its path.
- `tiktoken`, `SemanticChunker`, embeddings, Chroma, BM25 and the ensemble retriever: foreign
  libraries. The tokenizer and the splitter are uninterpreted functions. The tokenizer is total
  here, whereas tiktoken's `encode` raises `ValueError` by default on text containing a
  special-token string such as `<|endoftext|>`; in `split_chunks` that would abort the loader
  run, and in `generate_response` it would end the exchange in the broad handler.
- LLM chain construction, `RunnableWithMessageHistory` and streaming in `generate_response`:
  foreign calls. An exchange is assumed to add one Human/AI pair to the session's history.
- Logging, log-file creation, environment reads, the Streamlit UI and the Refresh button:
  configuration and presentation. Environment integers are fields of `Chat.Settings` or
  `Loading.DataLoading`.
- The broad exception handlers, beyond what they catch: the modelled exceptions are
  `truncate`'s `IndexError` (reported as `raised`), the `IndexError` of `split('/')[-2]` in the
  link filter (a `Failure`, which aborts the scraper's run), the `AttributeError` or `KeyError`
  of a page without an article element or a title (`raised` of `Extraction.WebScrap.ExtractText`),
  and the `RecursionError` of
  `split_chunks` (a `None` of `Loading.AcceptedWithinDepth`).
- `promptstore/prompt_store.py` is not part of this model. Its templates enter only as the
  rendered strings `Settings.questionPrompt` and `Settings.ragPrompt`.
- Extraction.WebScrap.SaveWebcontent: assumes `open(content_file, 'w')` and the write succeed;
  an `OSError` (for instance a sanitised title plus ".md" longer than the file system allows, or
  a directory removed under the scraper) is not modelled.
- Extraction.WebScrap.ExtractText: models the raise on a page without an article element or a
  title, and the stop of the loop there; it inherits the `OSError` gap of `SaveWebcontent`, and
  the base URLs that `main` would have processed after the raise are outside the model.
- Extraction.PathJoin: models POSIX `os.path.join` only; Windows drive and separator rules
  are not modelled.
- Loading.DataLoading.SplitChunks: assumes `Shrinks` for termination, which the code does not
  guarantee. Chunks are their page text, so splitter metadata is not modelled.
- Loading.DataLoading.DataChunking: the folder listing arrives as a sequence of name and content
  pairs; `os.listdir` order and file reading are outside the model.

## Findings

| source | as written | input that shows it | evidently intended | confidence | as-written member | corrected member |
|---|---|---|---|---|---|---|
| IndustryInsider_Bot/streamlit_app.py:91 | inside the `while`, `total_` is set to the cost of the pair being deleted, so the loop stops after the first pair cheaper than the limit, whatever is left | MAX_TOKENS 510 (limit 10), no padding, the text "x" costs 100 tokens and any other text 1, history [a, b, x, x, c, d], total 204: the cheap pair [a, b] is deleted, the counter becomes 2 and the loop stops, leaving [x, x, c, d] at 202 tokens; the corrected loop leaves [c, d] at 2 tokens | `total_` is decreased by the cost of each deleted pair, so deletion goes on until the rest is under the limit | high that the budget is not kept; not executed | Chat.TruncateLeavesOverBudget | Chat.TruncatedIntendedWithinBudget |
| IndustryInsider_Bot/data_loading.py:73-77 | an over-bound chunk is re-split and every sub-split is passed back to `split_chunks`, whether or not it is smaller | a splitter that returns an over-bound text as its only piece (one long sentence): the same text recurses until `RecursionError`, caught at lines 103-105, so `data_chunking` never returns and the run yields no chunk list | the recursion ends and every accepted chunk is within the bound; the source does not say what should become of a piece that did not shrink, and the repair modelled here (re-split only pieces that shrank, drop the others) is one possible choice, which loses the text of the dropped pieces | medium; not executed | Loading.SplitChunksNeverEnds | Loading.AcceptedGuardedBounded |

The exchange model (`Chat.SessionStore.GenerateResponse`, `Chat.Truncate`) keeps the code's
behaviour as written. The corrected definition is `Chat.TruncatedIntended`. Likewise the
loader's methods keep `split_chunks` as written, under `Shrinks`. The corrected definition is
`Loading.AcceptedGuarded`, which `Loading.AcceptedGuardedAgrees` proves equal to the code
wherever the code ends.
