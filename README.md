# llm_workshop core, modelled in Dafny

This project models the logic of a retrieval-augmented question-answering demo and its two small utilities. It covers four parts:

- `ByteUnits` (`byte_units.dfy`): `humanbytes` renders a byte count in the largest decimal unit the count reaches (Byte, KB, MB, GB, TB, steps of 1000). `memory_fit` says whether a memory requirement fits the CPU RAM, the GPU RAM, only both together, or neither.
- `Constants` (`constants.dfy`): the credentials, URLs, endpoint tags and the model table `AVAILABLE_LMs`.
- `Answering` (`answering.dfy`): reading an upload line by line, indexing it under ids "0", "1", …, fetching the one most relevant passage, and `get_answer`. `get_answer` looks the model up in the table and routes the question to one of four adapters. Those are a hosted extractive-QA model, a hosted chat model, a local llama runtime and a hosted OpenAI chat model. Every path returns an `(answer, score, error)` triple.
- `NotebookScraper` (`scraper.dfy`): class `MarkdownScraper` models `NB_Markdown_Scraper`. It walks directory trees for notebooks, numbers their markdown cells, and stores each notebook's markdown, joined in `ix` order, under a key derived from the notebook's path.

Two more modules hold shared definitions. `Text` (`text.dfy`) models the Python string built-ins the code relies on: `split`, `join`, `startswith`, `endswith`, substring `in`, `str(n)` and the string order `<`. `Wrappers` (`wrappers.dfy`) holds `Option` and `Result`.

Every foreign service is a function parameter. This covers the vector store, the HTTP inference API, the chat clients, the UTF-8 decoder, `os.walk` and `nbformat.read`. Each such oracle either replies or raises. The adapters' backends reply `Replied(answer, score)` or `Failed(ex)`. The error slot `""` of a successful triple is `NoError`.

Behaviour reproduced as written, where it differs from what the code seems to intend:

- The raw-byte label is always `"Byte"`. The condition `0 == B > 1` is a chained comparison that no number satisfies, so 500 prints as `500.0 Byte`, not `500.0 Bytes`. The comments beside the unit sizes give powers of 1024, but the code uses powers of 1000; the model follows the code.
- `get_hf_llm_answer` always falls back. When the chat call returns, the next line reads the undefined name `message`, and the resulting `NameError` is caught.
- In `get_answer`, a tag outside the four known ones never yields "This is not implemented yet". That branch's expression reads `ex` before it is bound. The resulting `UnboundLocalError` is caught and becomes the usual fallback triple.
- The shipped table has no HF-LM row (it is commented out), so the HF-LM adapter cannot be reached through `get_answer`.
- Cells are sorted by their `ix` string, so "10" comes before "2".

## Model

| member | source | states |
|---|---|---|
| `ByteUnits.HumanBytes` | module_03/solutions/utils.py:2-20 | the conversion `float(B)` followed by the if/elif chain; characterised by `HumanBytesChoosesLargestUnit` and `HumanBytesThresholds` below |
| `ByteUnits.HumanBytesChoosesLargestUnit` | module_03/solutions/utils.py:2-20 | a reading comes back iff `float(B)` does not overflow (magnitude below 2^1024 - 2^970), so the chain never falls off its end; the unit is the largest one the count reaches; the amount is the count divided by that unit's size; only raw bytes print as-is |
| `ByteUnits.LargestUnitUnique` | module_03/solutions/utils.py:11-20 | at most one unit is the largest one a count reaches, so the unit choice is determined |
| `ByteUnits.HumanBytesThresholds` | module_03/solutions/utils.py:4-20 | for counts `float` accepts: below 1000 gives Byte; [10^3, 10^6) gives KB; [10^6, 10^9) gives MB; [10^9, 10^12) gives GB; 10^12 and above gives TB; each as an if-and-only-if |
| `ByteUnits.RawByteLabelAlwaysSingular` | module_03/solutions/utils.py:11-12 | `0 == B > 1` never holds, so the raw-byte label is always "Byte" and never "Bytes" |
| `ByteUnits.ScaledAmountBounds` | module_03/solutions/utils.py:13-20 | in the KB, MB and GB branches the amount lies in [1, 1000); in the TB branch it is at least 1 |
| `ByteUnits.UnitMonotone` | module_03/solutions/utils.py:11-20 | a larger byte count never gets a smaller unit |
| `ByteUnits.HumanBytesExamples` | module_03/solutions/utils.py:5-16 | 0 and 500 print as-is with "Byte"; 1500 is 1.5 KB; 1500000 is 1.5 MB; 2^1024 - 2^970 raises OverflowError and the integer just below it does not |
| `ByteUnits.Classify` | module_03/solutions/utils.py:23-29 | the verdict of the three-way chain; characterised by `MemoryFitNested`, `MemoryFitMonotone` and `MemoryFitAntitoneInRequirement` below |
| `ByteUnits.MemoryFit` | module_03/solutions/utils.py:23-29 | the answer is always one of the three verdict messages |
| `ByteUnits.MessagesDistinct` | module_03/solutions/utils.py:25-29 | the three messages are different, so a message names exactly one verdict |
| `ByteUnits.MemoryFitNested` | module_03/solutions/utils.py:24-29 | with non-negative capacities, the requirement fits somewhere iff it fits the sum; it needs both iff it exceeds each device but fits the sum |
| `ByteUnits.MemoryFitMonotone` | module_03/solutions/utils.py:24-29 | more CPU or GPU memory never makes the verdict worse |
| `ByteUnits.MemoryFitAntitoneInRequirement` | module_03/solutions/utils.py:24-29 | a larger requirement never gets a better verdict |
| `ByteUnits.MemoryFitExamples` | module_03/solutions/utils.py:24-29 | (8, 16, 0) fits either device; (20, 16, 8) needs both; (30, 16, 8) does not fit |
| `Constants.RegistryShape` | module_04/constants.py:20-36 | the model and endpoint columns both have four rows, so row i pairs model i with endpoint i |
| `Constants.EndpointTagsWellFormed` | module_04/constants.py:16-36 | the four endpoint tags are pairwise different, and every row's endpoint is one of them |
| `Constants.ModelNamesDistinct` | module_04/constants.py:21-28 | no two rows share a model name |
| `Constants.NoHfLmRow` | module_04/constants.py:29-36 | no row carries the HF-LM tag |
| `Constants.DerivedStrings` | module_04/constants.py:4-10 | the only header is Authorization, "Bearer " followed by the token; the embedding URL is the feature-extraction prefix followed by the embedding model id |
| `Constants.QaModelIsFirstRow` | module_04/constants.py:13-31 | the QA model id is the first row's model, served by the HF-QA endpoint |
| `Answering.GetLines` | module_04/utils.py:36-43 | succeeds iff every line decodes; then it returns one decoded string per line, in order; otherwise the decode error |
| `Answering.DocumentIds` | module_04/utils.py:65 | `[str(i) for i in range(n)]`; characterised by `DocumentIdsNumberInOrder` |
| `Answering.DocumentIdsNumberInOrder` | module_04/utils.py:62-66 | one id per document; id i reads back as i; the ids are pairwise different |
| `Answering.LoadData` | module_04/utils.py:58-68 | returns nothing iff the store accepts the documents with ids "0".."n-1"; otherwise the ingest fallback message, score 0.0 and exactly the exception the store raised |
| `Answering.GetRelevantDocuments` | module_04/utils.py:70-78 | a bare document iff the one-result query succeeds and is non-empty, and then it is the first document of the first list; a failed query gives the query fallback with score 0.0 and exactly the query's exception; an empty result gives that fallback with IndexError |
| `Answering.Route` | module_04/utils.py:156-165 | a routed adapter's tag is the given tag; no adapter is chosen iff no adapter has that tag |
| `Answering.RouteInvertsTag` | module_04/utils.py:156-163 | each adapter is reached through its own tag |
| `Answering.HfQaAnswer` | module_04/utils.py:80-88 | the hosted QA adapter; characterised by `AdapterContract` and `RequestsCarryPayload` |
| `Answering.HfLlmAnswer` | module_04/utils.py:91-106 | the hosted chat adapter; characterised by `HfLlmAlwaysFallsBack` and `AdapterContract` |
| `Answering.LocalLlamaAnswer` | module_04/utils.py:108-122 | the local llama adapter; characterised by `AdapterContract` and `RequestsCarryPayload` |
| `Answering.OpenAiAnswer` | module_04/utils.py:124-142 | the OpenAI adapter; characterised by `AdapterContract` and `RequestsCarryPayload` |
| `Answering.CallAdapter` | module_04/utils.py:156-163 | the call of the adapter a tag selected; characterised by `AdapterContract` |
| `Answering.AdapterContract` | module_04/utils.py:80-142 | the error slot is empty iff the backend replied and the adapter is not HF-LM, and then the triple is the reply; otherwise the fixed fallback message, score 0.0 and the backend's exception |
| `Answering.HfLlmAlwaysFallsBack` | module_04/utils.py:91-106 | the HF-LM adapter always returns the fallback; when its backend replied, the error is the NameError for `message` |
| `Answering.RequestsCarryPayload` | module_04/utils.py:80-84 | the QA request body is exactly the payload; its URL is the inference prefix followed by the model name; every chat request carries the payload's context and question |
| `Answering.FirstIndexOf` | module_04/utils.py:155 | no index iff the name is absent; otherwise the index of its first occurrence |
| `Answering.GetAnswerIn` | module_04/utils.py:145-167 | an error always comes with the fallback message and score 0.0; an unlisted model gives the fallback triple with IndexError |
| `Answering.GetAnswerUsesFirstMatchingRow` | module_04/utils.py:155-167 | the first row naming the model decides; its tag selects exactly one adapter, whose triple is returned; an unknown tag gives the fallback triple for the unbound `ex` |
| `Answering.GetAnswer` | module_04/utils.py:145-167 | `get_answer` over the shipped table; characterised by `ShippedGetAnswerSucceedsIff`, `ShippedGetAnswerIgnoresHfChat` and, through `GetAnswerIn`, by `GetAnswerUsesFirstMatchingRow` |
| `Answering.ShippedTableRoutesEveryModel` | module_04/constants.py:29-36 | every tag in the shipped table routes to an adapter, and none to HF-LM |
| `Answering.ShippedGetAnswerIgnoresHfChat` | module_04/utils.py:158-159 | with the shipped table, replacing the HF-LM backend never changes the result |
| `Answering.ShippedGetAnswerSucceedsIff` | module_04/utils.py:145-167 | with the shipped table, the error slot is empty iff the model is listed and the backend of its row's adapter replied |
| `Text.Split` | module_04/scraper_utils.py:42 | splitting gives at least one piece, and no piece contains the separator |
| `Text.JoinSplit` | module_04/scraper_utils.py:42 | joining the pieces of a split with the separator gives the string back |
| `Text.ContainsIffOccurs` | module_04/scraper_utils.py:15 | substring `in` holds iff the substring occurs at some position |
| `Text.ParseNatToString` | module_04/utils.py:65 | parsing `str(n)` gives n back |
| `Text.NatToStringInjective` | module_04/scraper_utils.py:29 | different numbers have different decimal strings |
| `Text.LexLessTotal` | module_04/scraper_utils.py:43-44 | any two different strings are ordered one way or the other |
| `Text.LexLessTransitive` | module_04/scraper_utils.py:43-44 | the string order is transitive |
| `Text.TenBeforeTwo` | module_04/scraper_utils.py:43-44 | "10" sorts before "2" and not the other way round |
| `NotebookScraper.MarkdownScraper.constructor` | module_04/scraper_utils.py:7-9 | a new scraper has an empty dictionary and the given input paths |
| `NotebookScraper.NotebookNames` | module_04/scraper_utils.py:16 | exactly the names ending in ".ipynb" and not starting with "dontcommit" are kept |
| `NotebookScraper.NotebookNamesAppend` | module_04/scraper_utils.py:16 | the filter keeps listing order and repeats: filtering a concatenation is filtering each part in turn |
| `NotebookScraper.NotebookNamesSingle` | module_04/scraper_utils.py:16 | a single name is kept iff it is a notebook name; with `NotebookNamesAppend` this fixes the output list |
| `NotebookScraper.NotebookFiles` | module_04/scraper_utils.py:13-18 | the paths of a walk, entry by entry and then name by name; characterised by `NotebookFilesMembers` |
| `NotebookScraper.MarkdownScraper.NbPathWalk` | module_04/scraper_utils.py:11-18 | returns the notebook paths of the walk, entry by entry and then name by name |
| `NotebookScraper.NotebookFilesMembers` | module_04/scraper_utils.py:14-18 | a path is returned iff an entry whose directory contains neither ".ipynb_checkpoints" nor "solutions" lists a kept name that joins to it |
| `NotebookScraper.KeepTypes` | module_04/scraper_utils.py:26 | exactly the cells whose type is listed are kept |
| `NotebookScraper.KeepTypesAppend` | module_04/scraper_utils.py:26 | the filter keeps cell order and repeats: filtering a concatenation is filtering each part in turn |
| `NotebookScraper.KeepTypesSingle` | module_04/scraper_utils.py:26 | a single cell is kept iff its type is listed; with `KeepTypesAppend` this fixes the count and order of kept cells |
| `NotebookScraper.MarkdownScraper.GetCellContents` | module_04/scraper_utils.py:21-33 | the earlier cells (default none) followed by the cells of the wanted types (default markdown), numbered from the earlier count and titled with the notebook |
| `NotebookScraper.CellContentsNumbering` | module_04/scraper_utils.py:24-33 | length is earlier count plus kept count; the earlier prefix is unchanged; new cell k has ix str(earlier count + k) and the notebook as title; numbering 0, 1, … carries over |
| `NotebookScraper.NumberedIxDistinct` | module_04/scraper_utils.py:27-31 | the numbered cells of one call have pairwise different `ix` |
| `NotebookScraper.SortByIx` | module_04/scraper_utils.py:43-44 | `sorted(cells, key=lambda d: d['ix'])`; characterised by `SortByIxSortedPermutation` |
| `NotebookScraper.SortByIxSortedPermutation` | module_04/scraper_utils.py:43-44 | the sort keeps every cell (a permutation) and orders them by `ix` as strings |
| `NotebookScraper.TenSortsBeforeTwo` | module_04/scraper_utils.py:43-44 | in sorted cells, the cell numbered "10" precedes the cell numbered "2" |
| `NotebookScraper.NotebookText` | module_04/scraper_utils.py:43-44 | the cell sources in `ix` order joined with single spaces; its ordering is characterised by `SortByIxSortedPermutation` and `TenSortsBeforeTwo` |
| `NotebookScraper.NotebookKey` | module_04/scraper_utils.py:42 | the later path components joined with '_', up to the first '.'; characterised by `NotebookKeyShape` |
| `NotebookScraper.NotebookKeyShape` | module_04/scraper_utils.py:42 | the key holds neither '/' nor '.', and is a prefix of the later path components joined with '_' |
| `NotebookScraper.ScrapeNotebooks` | module_04/scraper_utils.py:40-44 | storing notebooks one by one, stopping at the first unreadable one; characterised by `ScrapeNeverRemoves`, `ScrapeCompletesIffAllRead` and `ScrapeLastNotebookWins` |
| `NotebookScraper.ScrapeNotebooksAppend` | module_04/scraper_utils.py:38-41 | scraping two lists of notebooks is scraping the first, then, unless that failed, the second |
| `NotebookScraper.ScrapeNeverRemoves` | module_04/scraper_utils.py:43 | a run never removes a key, adds no key except the keys of the scraped notebooks, and a key no scraped notebook maps to keeps its value |
| `NotebookScraper.ScrapeCompletesIffAllRead` | module_04/scraper_utils.py:38-44 | a run finishes without failure iff every notebook can be read |
| `NotebookScraper.ScrapeLastNotebookWins` | module_04/scraper_utils.py:40-44 | when all notebooks read, a key holds the markdown of the last notebook with that key |
| `NotebookScraper.MarkdownScraper.ScrapeNotebookList` | module_04/scraper_utils.py:40-44 | the dictionary and failure after one tree's notebooks are those of the scrape specification |
| `NotebookScraper.MarkdownScraper.ScrapeMarkdowns` | module_04/scraper_utils.py:37-44 | unset input paths fail and change nothing; otherwise the dictionary and failure are those of scraping all notebooks of all trees in order |

## Left out

- HumanBytes: `float(B)` raising OverflowError for counts of magnitude 2^1024 - 2^970 or more is modelled as `None`, not as a raised exception.
- Number rendering in `humanbytes` (`float(B)`, `'{0}'`, `'{0:.2f}'`) is floating-point formatting. A reading records the exact quotient and which format prints it. Byte counts are integers, so float inputs, NaN and float rounding near a threshold are not modelled.
- The foreign services are oracles: `requests.request`, `json.loads`, `InferenceClient.chat_completion`, `ollama.chat`, the OpenAI client, and the chromadb calls `db.add` and `db.query`. A reply that parses but lacks `answer` or `score` counts as a failed reply. The score is an unbounded `real`, because nothing in the code bounds it.
- The prompt wording is not modelled. A chat request records its task kind together with the context and the question.
- `create_db`, `sidebar`, the whole of `app.py` and the `st.markdown(ex)` call in `get_local_llama_answer` (module_04/utils.py:121) are UI or client set-up with no stateable logic.
- UTF-8 decoding is an oracle parameter of `GetLines`. The upload arrives already split into lines, because iterating a file object is I/O.
- The two-element tuple at module_04/utils.py:104 is never returned, since the line raises first, so it is not modelled.
- No timeouts or retries exist in the code. The `retry` import is unused.
- GetAnswerIn: states that an error implies the fallback message with score 0.0, not the converse, because a backend may itself reply with that very text.
- SortByIxSortedPermutation: proves sorted and a permutation, not stability. Within one notebook the `ix` keys are pairwise different, so stability does not change the result.
- NotebookScraper.MarkdownScraper.GetCellContents: `c.update` mutates the cell dictionaries of the notebook that was read, in place. The model builds new cell values. The notebook object is discarded right after, so no caller can observe the difference.
- NotebookScraper.MarkdownScraper.ScrapeMarkdowns: the exception of an unreadable notebook, or of unset input paths, is returned as a value instead of being raised. The dictionary keeps what was stored before, as in the source. Walk errors are not modelled, because `os.walk` ignores them by default.
- Credentials are the placeholder strings of the source. No network, clock or filesystem is modelled.
