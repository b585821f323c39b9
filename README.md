# Personal RAG backend: retrieval, context formatting and indexing

This project models the retrieval-augmented answering core of a small
personal knowledge-base backend and proves properties of that model.

The core has two parts:

- **Indexing.** It loads source/text files from a code tree, skipping the
  build and tool directories. It loads the pages of every PDF in a document
  directory. It splits both into chunks and rebuilds the vector collection
  `personal_rag` from them.
- **Answering.** It retrieves the `TOP_K` most similar chunks for a
  question. It formats them into one context string under an 8000-character
  budget, together with a list of cited sources (source path and a
  300-character snippet). It sends the fixed system instruction and the
  user prompt built from the context to the chat model.

Modules, one per file:

- `Strings` (strings.dfy): the Python string operations the core relies on.
  These are `strip()`, `lower()`, `in`, `endswith()`, `replace("\n", " ")`
  and `sep.join()`.
- `Documents` (documents.dfy): a loaded document, its optional `source`
  metadata and its text.
- `Config` (config.dfy): the settings record and its defaults, and the
  collection name.
- `Prompts` (prompts.dfy): the system instruction and the user-prompt
  template.
- `ContextFormat` (context_format.dfy): context formatting.
  - `FormatContext` is a loop, as in the source, proved equal to the
    specification `FormatSpec`.
  - `FormatSpec` is built from the contributing entries `Kept`, their
    blocks and the greedy count `FitCount`.
- `Loading` (loading.dfy): the code-tree loader with its exclusion filter,
  and the PDF directory scan. Each is a loop proved equal to a
  specification function.
- `Indexing` (indexing.dfy): the rebuild.
  - The persisted collection is a class whose entries the delete and add
    methods change in place.
  - A failed delete is swallowed, as in the source.
- `Answering` (answering.dfy): the question pipeline.

## Two behaviours of the code worth knowing

The budget parameter of `_format_context` is named `max_chars` (backend/app/ai/rag.py:135), but only block lengths enter the running total (rag.py:153-156). The five-character separators added by the join at rag.py:158 are not counted. `ContextFormat.ContextCanExceedBudget` shows a context `max_chars + 5` characters long. The model follows the code.

The docstring of `reindex_all` (rag.py:100) says the collection is rebuilt from scratch. But the delete at rag.py:105-108 swallows any exception, and the rebuild then appends to the old entries. `Indexing.FailedDeleteKeepsStaleEntries` and `Indexing.RebuildsAccumulate` show this. The model follows the code here too.

## Model

| member | source | states |
|---|---|---|
| `Strings.StripMeaning` | backend/app/ai/rag.py:143 | `strip()` gives the infix after the leading whitespace, and everything cut off on either side is whitespace. It is empty exactly when the text is blank, and otherwise starts and ends with non-whitespace. |
| `Strings.LeadingSpacesAreSpaces` | backend/app/ai/rag.py:143 | Every character counted as leading whitespace is whitespace, and the first one after them is not. |
| `Strings.TrailingSpacesAreSpaces` | backend/app/ai/rag.py:143 | The same for trailing whitespace. |
| `Strings.NewlinesToSpaces` | backend/app/ai/rag.py:147 | Every newline becomes a space and every other character stays in place, so the result keeps the length and has no newline. |
| `Strings.TotalLenConcat` | backend/app/ai/rag.py:153-156 | The running total of block lengths is additive over concatenation. |
| `Strings.TotalLenMonotone` | backend/app/ai/rag.py:153-156 | A longer prefix of blocks never has a smaller total. |
| `Strings.JoinLength` | backend/app/ai/rag.py:158 | The joined context has the parts' total length plus one separator between each two neighbours. |
| `Prompts.BuildRagUserPrompt` | backend/app/ai/prompts.py:8-16 | The prompt is, in order, the instruction header, the context, the question header, the question and a newline; its length is the inputs' lengths plus 69. |
| `Prompts.PromptRoundTrip` | backend/app/ai/prompts.py:11-15 | Given the context's length, both the context and the question are read back out of the prompt. |
| `Prompts.PromptAmbiguous` | backend/app/ai/prompts.py:11-15 | Without that length the prompt is ambiguous: a context that holds the question header gives the same prompt as a shorter context with a longer question. |
| `Prompts.SystemPromptHasFallback` | backend/app/ai/prompts.py:1-5 | The system instruction contains the exact fallback sentence. |
| `ContextFormat.NonBlank` | backend/app/ai/rag.py:143-145 | Skipping blank chunks never adds entries, and every entry that is kept has non-empty text. |
| `ContextFormat.ContributesIffNotBlank` | backend/app/ai/rag.py:143-145 | A chunk contributes exactly when its content is not blank. |
| `ContextFormat.Snippet` | backend/app/ai/rag.py:147-148 | The snippet has no newline and is at most 303 characters. It is truncated exactly when the text is over 300 characters, and then it is 303 long and ends in "...". Otherwise it has the text's length. Each of its first (up to 300) characters is the text's character at that position, with a newline turned into a space. |
| `ContextFormat.Block` | backend/app/ai/rag.py:152 | A block is the `[SOURCE: …]` tag line, then the stripped text right after it, then a final newline: it starts with the tag, holds the text at the tag's length, ends in "\n" and is 12 characters longer than source and text together. |
| `ContextFormat.FitCountBounds` | backend/app/ai/rag.py:153-156 | The placed blocks fit in the budget, and the next block would overflow it. |
| `ContextFormat.FormatContext` | backend/app/ai/rag.py:134-158 | The loop returns exactly the context and sources of the specification `FormatSpec`. |
| `ContextFormat.BudgetRespected` | backend/app/ai/rag.py:153-156 | The placed blocks' total never exceeds the budget. |
| `ContextFormat.LongestFittingPrefix` | backend/app/ai/rag.py:141-156 | A prefix of k ≥ 1 contributing blocks fits in the budget exactly when k is at most the number placed. |
| `ContextFormat.BlocksNotEmpty` | backend/app/ai/rag.py:152 | Every block is at least 12 characters long. |
| `ContextFormat.ContextLength` | backend/app/ai/rag.py:158 | The context is empty exactly when no block is placed; otherwise its length is the blocks' total plus 5 per separator. |
| `ContextFormat.ContextCanExceedBudget` | backend/app/ai/rag.py:153-158 | Two blocks that fill the budget exactly are both placed, and the context is then 5 characters over the budget. |
| `ContextFormat.StopsAtFirstOverflow` | backend/app/ai/rag.py:150-156 | For three contributing chunks whose second block overflows: the third is neither placed nor cited even though it would fit, while the second is cited. |
| `ContextFormat.NothingCitedAfterOverflow` | backend/app/ai/rag.py:150-154 | For any retrieval, no contributing chunk ranked after the first overflowing one is cited. |
| `ContextFormat.SourcesAlignWithParts` | backend/app/ai/rag.py:150-155 | Every placed chunk is cited, plus at most one more. The extra citation appears exactly when the loop stopped early. The citations are the contributing chunks in order, and the j-th citation names the j-th placed block. |
| `ContextFormat.BlankChunkIgnored` | backend/app/ai/rag.py:143-145 | Inserting a blank chunk anywhere changes neither the context nor the sources. |
| `ContextFormat.NoChunks` | backend/app/ai/rag.py:137-158 | No chunks give an empty context and no sources. |
| `ContextFormat.FirstBlockTooLarge` | backend/app/ai/rag.py:150-154 | If the first block alone overflows, the context is empty and only that chunk is cited. |
| `ContextFormat.MissingSourceIsUnknown` | backend/app/ai/rag.py:142-150 | Any cited chunk without a "source" entry is cited as "unknown", at the position after the contributing chunks ranked before it. |
| `ContextFormat.KeptConcat` | backend/app/ai/rag.py:141-145 | The contributing entries of a concatenation are the concatenation of the contributing entries. |
| `ContextFormat.FitCountAppend` | backend/app/ai/rag.py:153-156 | Once a prefix of blocks fits, the count continues on the rest with the remaining budget. |
| `Loading.ExcludedIffSegment` | backend/app/ai/rag.py:78 | A path is excluded exactly when some excluded directory name is a whole segment of it after a '/', followed by a '/' or by the end of the path. |
| `Loading.ExcludedDirectoryDropped` | backend/app/ai/rag.py:78-79 | Any path with an excluded directory as an inner segment is dropped. |
| `Loading.ExcludedPathHasSlash` | backend/app/ai/rag.py:78 | A path without '/' is never excluded. |
| `Loading.KeepCodeMembers` | backend/app/ai/rag.py:76-80 | A document survives the filter exactly when it was loaded and its source (default "") is not excluded. |
| `Loading.KeepCodeConcat` | backend/app/ai/rag.py:76-80 | The filter keeps the loader's order and is applied document by document. |
| `Loading.KeepAllSound` | backend/app/ai/rag.py:62-82 | Every returned code document comes from some pattern's loader pass and is not under an excluded directory. |
| `Loading.LoadMatching` | backend/app/ai/rag.py:62-80 | The nested loops return the filtered documents of each pattern, in pattern order. |
| `Loading.LoadCodeDocuments` | backend/app/ai/rag.py:26-82 | No documents when the root is not a directory; otherwise the loop result over the 15 fixed patterns. |
| `Loading.PdfNameIgnoresCase` | backend/app/ai/rag.py:91 | A name is taken as a PDF exactly when it ends in '.', then p, d, f in either case. |
| `Loading.PathJoin` | backend/app/ai/rag.py:92 | An absolute name replaces the root. Otherwise the path starts with the root and ends with the name. |
| `Loading.PdfDocs` | backend/app/ai/rag.py:89-95 | Every returned page comes from loading some listed name that is a PDF name, joined to the root. |
| `Loading.LoadPdfDocuments` | backend/app/ai/rag.py:85-95 | The loop returns no documents when the root is not a directory; otherwise the pages of the PDF files, in listing order. |
| `Loading.PdfDocsConcat` | backend/app/ai/rag.py:90-94 | The pages of two listings are the pages of each, in order. |
| `Loading.NonPdfNameIgnored` | backend/app/ai/rag.py:90-91 | A listed file that is not a PDF changes nothing. |
| `Indexing.Collection.constructor` | backend/app/ai/vectorstore.py:8-14 | A collection handle starts with the given persisted entries. |
| `Indexing.Collection.DeleteCollection` | backend/app/ai/rag.py:104-108 | The delete either empties the collection or, when it raises, leaves it unchanged. |
| `Indexing.Collection.AddDocuments` | backend/app/ai/rag.py:119-120 | Adding appends the chunks to the entries. |
| `Indexing.StoreAfterReindexShape` | backend/app/ai/rag.py:104-120 | After a rebuild the new chunks end the collection. A delete that went through leaves only them; a failed one keeps the old entries in front. |
| `Indexing.Summarize` | backend/app/ai/rag.py:122-131 | The summary's total is the code count plus the PDF count, and it names the collection `personal_rag`. |
| `Indexing.ReindexAll` | backend/app/ai/rag.py:98-131 | The new entries follow from the delete outcome and from the split of the code documents followed by the PDF documents. The add happens exactly when there are chunks. The summary describes that run. |
| `Indexing.RebuildsAccumulate` | backend/app/ai/rag.py:98-120 | After any series of rebuilds, the collection holds one chunk batch per rebuild since the last successful delete. The original entries stay in front only if no delete went through. |
| `Indexing.FullRebuildIdempotent` | backend/app/ai/rag.py:98-120 | A rebuild whose delete succeeds gives exactly the chunks, whatever was indexed before. |
| `Indexing.FailedDeleteKeepsStaleEntries` | backend/app/ai/rag.py:104-108 | A rebuild whose delete fails on a non-empty collection is not a fresh rebuild. |
| `Answering.Conversation` | backend/app/ai/rag.py:168-176 | The model gets two messages. The system message contains the exact fallback sentence. The user message is the instruction header, then the formatted context, then the question header and the question, then a newline, at the offsets that pin each piece down. |
| `Answering.Ask` | backend/app/ai/rag.py:161-187 | The answer record carries the question, the model's reply to that conversation, the formatted sources, the retrieval count and the model names. The retrieval count is at least the number of sources. |
| `Answering.SourcesWithinRetrieved` | backend/app/ai/rag.py:166-184 | Never more sources than retrieved chunks. |
| `Answering.EmptyRetrievalStillAsks` | backend/app/ai/rag.py:165-176 | With nothing retrieved the model is still asked. The prompt is the template around the question alone, and the system instruction carries the fallback sentence. |

## Left out

- I/O is modelled by parameters:
  - The file system: "is a directory" is a boolean, and the directory listing is a sequence of names.
  - The glob-driven directory loader with its text loader, and the PDF reader: functions from a pattern or a path to documents.
  - The text splitter: a function from documents to chunks. Its chunk size and overlap are not modelled.
  - The similarity search: a function from the question and `TOP_K` to chunks.
  - The chat model: a function from messages to a reply.
- Unreadable files, which the loader skips silently, are part of what the loader parameter returns.
- Glob matching is not modelled. Neither is the multithreaded loading order inside one pattern's pass: the loader parameter fixes that order.
- Embeddings, Chroma's persistence format and the on-disk directory are not modelled. The collection is its sequence of entries.
- Re-opening the store handle after the delete is not modelled separately, because every handle shows the same persisted collection.
- The `getattr(resp, "content", str(resp))` fallback for replies without a `content` field is not modelled. The chat parameter returns the reply text.
- `str(src)` on non-string source metadata is not modelled: a source is a string or missing.
- `page_content` being `None` is not modelled; `(d.page_content or "")` is taken as the content string.
- Strings.Lower: `str.lower()` is modelled for ASCII letters only; other characters are kept. The only use is the ".pdf" test. No non-ASCII character lower-cases to '.', 'p', 'd' or 'f', so that test gives the same answer as with full Unicode case mapping.
- Settings are a parameter of `ReindexAll` and `Ask`. `Config.DefaultSettings` records the defaults of backend/app/config.py:7-25. Reading settings from environment variables, and the integer parsing of `TOP_K` and the chunk parameters, are not modelled.
- The HTTP API layer, `main.py`, the embedding factory and the chat-model factory are not part of this model.
- Concurrency between a rebuild and a question is not modelled.
- Indexing.ReindexAll: the loaders, the splitter and `add_documents` are modelled as total, so the model has no path on which they raise. In the source, nothing guards the PDF read (rag.py:93-94), the split (rag.py:117) or the embedding inside `add_documents` (rag.py:120). An exception from any of them leaves `reindex_all` after the delete at rag.py:106 has already run. The collection is then left empty (or stale, if the delete failed too), and no summary is returned. The contract covers only runs in which none of them raises.
- Answering.Ask: the similarity search and the chat call are modelled as total. In the source an exception from either (embedding the question, the model server) propagates out of `ask`. The contract covers only runs that return an answer.

