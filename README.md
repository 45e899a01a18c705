# Medical AI chatbot backend: a verified model

This project models the backend of a retrieval-augmented medical chatbot, a
Flask service with four parts:

- uploaded PDFs are turned into cleaned, numbered text chunks;
- the chunks are kept in a vector store;
- the store is searched for each chat message;
- an answer is composed from the retrieved chunks and the recent conversation,
  by a language model when one is configured and by a deterministic template
  otherwise.

The model covers the logic around the black boxes. Embedding and
nearest-neighbour search, PDF text extraction, the text splitter and the
language model are not modelled. Each is a parameter: a function or an
outcome the caller supplies.

Modules, one per source file plus two shared ones:

- `Text`: strings as `seq<char>`. It holds ASCII lower-casing, substring
  search, Python-style slicing, `str.join`, decimal rendering and
  subsequences.
- `Docs`: LangChain's `Document`, metadata dictionaries with string and
  integer values, chat exchanges, and the `Result`/`Outcome` wrappers that
  stand for raised exceptions.
- `RagSystem` (backend/rag_system.py):
  - query enhancement;
  - score filtering;
  - the `RagSystem` class, whose `records` field is the store. It adds,
    counts, lists, deletes by filename and clears.
- `MedicalLlm` (backend/medical_llm.py):
  - the context block and the history window;
  - the fallback answer;
  - the choice between the model's answer and the fallback;
  - urgency classification.
- `DocumentProcessor` (backend/document_processor.py):
  - page assembly;
  - `_clean_text` as explicit character passes;
  - chunk stamping;
  - entity extraction.
- `App` (backend/app.py): the `Api` class holds the application's globals:
  - the store;
  - the model client;
  - the session map from session id to history.

  Its methods are the upload, chat, listing and clear-session endpoints.

The loops of the source are methods with loop invariants, proved equal to
specification functions: building the raw text, the context parts, the
history lines, the fallback entries, the chunk documents, the metadata
updates, the document listing, the ids to delete and the entity map. Lemmas
then prove what the source promises about those functions.

## Model

| member | source | states |
|---|---|---|
| RagSystem.EnhanceQuery | backend/rag_system.py:77-91 | The enhanced query: the query itself when its lower-cased form contains one of the ten context words, otherwise "medical clinical " followed by the query. Its properties are proved by EnhanceQueryCases and EnhanceQueryIdempotent. |
| RagSystem.EnhanceQueryCases | backend/rag_system.py:77-91 | The query is returned unchanged exactly when its lower-cased form contains one of the ten context words. Otherwise the result is "medical clinical " followed by the query. Either way the result contains a context word and ends with the original query. |
| RagSystem.PrefixedQueryHasContext | backend/rag_system.py:89 | A prefixed query always contains the context word "medical". |
| RagSystem.EnhanceQueryIdempotent | backend/rag_system.py:85-89 | Enhancing an enhanced query changes nothing. |
| RagSystem.AboveThreshold | backend/rag_system.py:66-69 | The comprehension's filter: the hits with score ≥ threshold, in the order received. AboveThresholdExact characterises it. |
| RagSystem.CountBelow | backend/rag_system.py:66-68 | The number of hits the comprehension's condition `score >= score_threshold` rejects. |
| RagSystem.FilterResults | backend/rag_system.py:66-71 | The documents of the passing hits, sliced `[:k]`. FilterResultsProperties states what it returns. |
| RagSystem.AboveThresholdExact | backend/rag_system.py:66-69 | The score filter keeps exactly the hits whose score is at least the threshold, as an order-preserving subsequence of the hits. Its length is the number of hits minus the number scoring below the threshold, so no passing hit is dropped, duplicates included. |
| RagSystem.FilterResultsProperties | backend/rag_system.py:66-71 | For k ≥ 0 the result has min(k, number of passing hits) documents. Document i is the document of the i-th passing hit, so the result is the first k passing hits' documents in order. The documents form an order-preserving subsequence of the hits' documents, each from a hit reaching the threshold. When every hit passes, the result is the first k documents. |
| RagSystem.AllPass | backend/rag_system.py:66-69 | When every hit reaches the threshold, the filter keeps all of them. |
| RagSystem.NewRecords | backend/rag_system.py:35-43 | The records `add_documents` stores: document i under the i-th generated id, with its text and its metadata updated by the extra dictionary. NewRecordsMetadata states each record's fields. |
| RagSystem.NewRecordsMetadata | backend/rag_system.py:35-43 | Each stored record has the id drawn for it and the document's text. Its metadata has the keys of the document and of the extra dictionary, takes each extra key's value, and keeps the document's other values. |
| RagSystem.AppendFreshDistinct | backend/rag_system.py:40-43 | Appending records under fresh, pairwise distinct ids keeps the store's ids distinct. |
| RagSystem.StampRecords | backend/rag_system.py:35-40 | The metadata-update loop produces exactly one record per document: its drawn id, its text, and its metadata updated by the extra dictionary. The source skips the update for an empty dictionary, which gives the same records. |
| Docs.Merge | backend/rag_system.py:37 | `dict.update`: the keys are the union, the update's values win, and the other original values are kept. |
| Docs.MergeNothing | backend/rag_system.py:35 | Updating with an empty dictionary is the identity, so the `if metadata:` guard does not change the result. |
| RagSystem.Grouped | backend/rag_system.py:108-120 | The insertion-ordered dictionary the listing loop builds: one tally per record's metadata, in store order. GroupedChunkTotal, GroupedOrder, GroupedCounts and GroupedTypes state its properties. |
| RagSystem.IndexOfFile | backend/rag_system.py:112 | The dictionary lookup returns the position of an entry carrying the filename, or -1 exactly when no entry carries it. |
| RagSystem.TallyInTwoSteps | backend/rag_system.py:112-118 | Creating an entry with zero chunks for a new filename and then incrementing its count is one tally step. |
| RagSystem.SumChunksTally | backend/rag_system.py:112-118 | One tally step raises the total chunk count by exactly one. |
| RagSystem.GroupedChunkTotal | backend/rag_system.py:108-120 | The listing's chunk counts add up to the number of stored records. |
| RagSystem.GroupedOccurs | backend/rag_system.py:110-117 | Every listed filename is the filename of some record (default 'Unknown'). |
| RagSystem.GroupedCovers | backend/rag_system.py:110-120 | Every record's filename is listed. |
| RagSystem.GroupedOrder | backend/rag_system.py:109-120 | Entries are in order of each filename's first appearance, so no filename is listed twice. |
| RagSystem.GroupedCounts | backend/rag_system.py:112-118 | Each entry's chunk count is the number of records carrying its filename. |
| RagSystem.GroupedTypes | backend/rag_system.py:112-117 | Each entry's document type comes from the first record carrying its filename (default 'unknown'). |
| RagSystem.MatchingIds | backend/rag_system.py:133-136 | The ids the deletion loop collects: those of the records whose `metadata.get('filename')` equals the argument, in store order. |
| RagSystem.WithoutFile | backend/rag_system.py:133-140 | The store after deleting a filename: the records whose metadata filename is not the argument, in order. A record without a filename is never deleted. WithoutFileExact characterises it. |
| RagSystem.MatchingIdsMembers | backend/rag_system.py:133-136 | The collected ids are exactly the ids of records whose metadata filename equals the argument. |
| RagSystem.DeleteByIdsIsDeleteByName | backend/rag_system.py:133-140 | With distinct ids, deleting the collected ids removes exactly the records of that filename. |
| RagSystem.WithoutFileExact | backend/rag_system.py:133-140 | Deletion keeps, in order, exactly the records not carrying the filename. It removes as many records as carried it. |
| RagSystem.WithoutFileNoMatch | backend/rag_system.py:139 | Deleting a filename that no record carries leaves the store unchanged. |
| RagSystem.WithoutFileIdempotent | backend/rag_system.py:126-145 | Deleting the same filename twice is deleting it once. |
| RagSystem.WithoutFileDistinct | backend/rag_system.py:140 | Deletion keeps the store's ids distinct. |
| RagSystem.DeletedFileNotListed | backend/rag_system.py:111-135 | After a delete, the file's name is listed only if it is "Unknown" and some remaining record has no filename. The listing defaults a missing filename to "Unknown", and deletion does not. |
| RagSystem.RagSystem.constructor | backend/rag_system.py:22-27 | Opens a collection holding the given records, which have distinct ids. |
| RagSystem.RagSystem.DocumentCount | backend/rag_system.py:93-100 | The count is the number of stored records, or 0 when reading the collection fails. |
| RagSystem.RagSystem.SearchSimilarDocuments | backend/rag_system.py:53-75 | The search sees the enhanced query. A failing search returns no documents. Otherwise, for k ≥ 0, exactly min(k, number of passing hits) documents come back. Document i is the document of the i-th hit scoring at least the threshold, in the order of the hits. |
| RagSystem.RagSystem.AddDocuments | backend/rag_system.py:31-51 | When the store succeeds, it gains exactly the new records, each with its fresh id and merged metadata, appended after the old ones. A failing store call is taken to write nothing: the records are unchanged and the error names the failure. The id invariant holds either way. |
| RagSystem.RagSystem.GetDocumentList | backend/rag_system.py:102-124 | The grouping loop computes the grouped listing of the records' metadata, whose counts add up to the record count. A failed read gives an empty list. |
| RagSystem.RagSystem.DeleteDocument | backend/rag_system.py:126-145 | When the store succeeds, exactly the records of that filename are removed and the order of the rest is kept. A failing store call is taken to write nothing: the store is unchanged and the error names the failure. |
| RagSystem.RagSystem.ClearAllDocuments | backend/rag_system.py:147-156 | When the store succeeds, it is empty and its count is 0. When it fails, it is unchanged and the error names the failure. |
| MedicalLlm.ContextSection | backend/medical_llm.py:104-111 | The section of the document numbered i: a newline, "Document {i}: {filename} (Section {chunk_id})", a newline, "Content: " with the first 800 characters and "...", and a newline. |
| MedicalLlm.ContextBlock | backend/medical_llm.py:98-113 | The context block: the fixed no-documents text for an empty list, otherwise the numbered sections joined by newlines. |
| MedicalLlm.ContextBlockMarker | backend/medical_llm.py:100-101 | The context block is the fixed "No relevant medical documents found for this query." text exactly when no documents were retrieved. |
| MedicalLlm.ContextBlockSections | backend/medical_llm.py:103-113 | The block contains one section per document, and the document at position i is numbered i + 1. |
| MedicalLlm.ContextSectionShape | backend/medical_llm.py:104-111 | A section names the document's number, its filename (default 'Unknown document') and its chunk id. It quotes the first min(length, 800) characters of the text, followed by "...". |
| MedicalLlm.HistoryBlock | backend/medical_llm.py:115-125 | The history block: "No previous conversation." for an empty history, otherwise a "User:" and an "Assistant:" line for each of the last three exchanges, joined by newlines. |
| MedicalLlm.EmptyHistoryBlock | backend/medical_llm.py:117-118 | The history block is "No previous conversation." exactly when the history is empty. |
| MedicalLlm.HistoryBlockShape | backend/medical_llm.py:120-125 | A non-empty history renders as 2·min(3, n) lines. For each of the last min(3, n) exchanges, oldest first, a "User: " line comes before its "Assistant: " line. |
| MedicalLlm.HistoryIgnoresOlder | backend/medical_llm.py:121 | Exchanges older than the last three never reach the prompt. |
| MedicalLlm.FallbackText | backend/medical_llm.py:127-166 | The fallback answer. With documents, the entries for the first two (filename and 200-character preview) are joined by blank lines inside the documents template, with the message quoted. Without documents, the message is quoted in the upload template. |
| MedicalLlm.FallbackShape | backend/medical_llm.py:127-166 | The fallback is never empty and quotes the user's message in both branches. With documents, it contains the entry of each of the first min(2, n) documents. Without documents, it is the upload template around the message. |
| MedicalLlm.FallbackWithDocs | backend/medical_llm.py:131-149 | With documents, the answer quotes each "From {filename}: " entry with its 200-character preview, and it quotes the message. |
| MedicalLlm.FallbackUsesFirstTwo | backend/medical_llm.py:133 | Documents after the second never affect the fallback. |
| MedicalLlm.ResponseFor | backend/medical_llm.py:54-96 | The answer to a message: the fallback without a configured model, the model's reply to the prompt built from the context and history blocks, or the fallback when the model fails. |
| MedicalLlm.ResponseCases | backend/medical_llm.py:54-96 | Without a model, the answer is the fallback. A model's reply is returned verbatim. A model failure also gives the fallback. In both fallback cases the answer is non-empty and quotes the message. |
| MedicalLlm.PrepareContext | backend/medical_llm.py:98-113 | The loop builds exactly the specified context block. |
| MedicalLlm.PrepareHistory | backend/medical_llm.py:115-125 | The loop builds exactly the specified history block. |
| MedicalLlm.GenerateFallbackResponse | backend/medical_llm.py:127-166 | The loop builds exactly the specified fallback text. |
| MedicalLlm.GenerateResponse | backend/medical_llm.py:54-96 | The answer is the specified choice: the fallback without a model (the model is not called), the model's reply, or the fallback after a model failure. |
| MedicalLlm.ClassifyMedicalUrgency | backend/medical_llm.py:168-182 | The urgency of a message: urgent when its lower-cased text contains an urgent keyword, otherwise moderate when it contains a moderate keyword, otherwise routine. |
| MedicalLlm.UrgentTakesPrecedence | backend/medical_llm.py:177-180 | A witness of the keyword order, not a general property: "I have severe pain" contains the moderate keyword "pain", yet it is classified urgent, because urgent keywords are tested first. |
| MedicalLlm.UrgencyIgnoresCase | backend/medical_llm.py:175 | Classification depends only on the lower-cased message. |
| MedicalLlm.UrgencyMonotone | backend/medical_llm.py:177-182 | Adding text before or after a message never lowers its urgency. |
| DocumentProcessor.RawText | backend/document_processor.py:22-26 | The raw text: for each page in order, "\n\n--- Page {n} ---\n\n" numbered from 1, followed by the page's text. |
| DocumentProcessor.RawTextShape | backend/document_processor.py:22-26 | The raw text of no pages is empty. Each further page appends "\n\n--- Page {n} ---\n\n" and the page's text. Every page appears under its own header. |
| DocumentProcessor.AssembleText | backend/document_processor.py:22-26 | The page loop builds exactly the specified raw text. |
| DocumentProcessor.CollapseWhitespace | backend/document_processor.py:57 | Collapsing is empty exactly when its input is, and it starts with a space exactly where the input starts with whitespace. |
| DocumentProcessor.CollapseWhitespaceProperties | backend/document_processor.py:57 | After `\s+` → ' ', the only whitespace is the ASCII space, no two spaces are adjacent, and the visible characters are unchanged. |
| DocumentProcessor.ReplaceDisallowed | backend/document_processor.py:60 | The replacement keeps the length and turns each character outside the class into a space. |
| DocumentProcessor.ReplaceDisallowedProperties | backend/document_processor.py:60 | The replacement keeps the visible characters. When the input has no whitespace but spaces, every output character is clean. |
| DocumentProcessor.NormalizeAround | backend/document_processor.py:63-64 | `re.sub(r'\s*P\s*', 'P ', text)` for one punctuation mark P, scanning left to right: a whitespace run followed by P and the whitespace after it become "P ". |
| DocumentProcessor.NormalizeAroundSpaced | backend/document_processor.py:63-64 | After normalising around a punctuation mark, every occurrence of it is followed by a space. |
| DocumentProcessor.NormalizeAroundVisible | backend/document_processor.py:63-64 | Normalising around a punctuation mark keeps the visible characters. |
| DocumentProcessor.NormalizeAroundClean | backend/document_processor.py:63-64 | Normalising keeps clean text clean. |
| DocumentProcessor.Strip | backend/document_processor.py:66 | `str.strip()`: leading and then trailing whitespace removed. |
| DocumentProcessor.StripSlice | backend/document_processor.py:66 | `strip()` returns a contiguous slice of its input. |
| DocumentProcessor.StripEnds | backend/document_processor.py:66 | A non-empty stripped text starts and ends with non-whitespace. |
| DocumentProcessor.StripVisible | backend/document_processor.py:66 | Stripping drops only whitespace. |
| DocumentProcessor.Substituted | backend/document_processor.py:57-64 | The four substitutions in source order: collapse whitespace, replace disallowed characters, normalise around '.', then around ','. |
| DocumentProcessor.SubstitutedClean | backend/document_processor.py:57-64 | After the four substitutions, every character is a word character, an ASCII space or one of `.,;:!?-()[]`. |
| DocumentProcessor.SubstitutedVisible | backend/document_processor.py:57-64 | The four substitutions keep every allowed visible character, in order. |
| DocumentProcessor.CleanText | backend/document_processor.py:53-66 | `_clean_text`: the four substitutions, then `strip()`. |
| DocumentProcessor.CleanTextTrimmed | backend/document_processor.py:66 | Cleaned text has no leading or trailing whitespace. |
| DocumentProcessor.CleanTextCharset | backend/document_processor.py:57-66 | Cleaned text holds only word characters, ASCII spaces and `.,;:!?-()[]`, so no newline or tab survives. |
| DocumentProcessor.CleanTextCommas | backend/document_processor.py:64-66 | In cleaned text every ',' is followed by a space, unless it is the last character. |
| DocumentProcessor.CleanTextVisible | backend/document_processor.py:53-66 | Cleaning keeps exactly the input's allowed non-whitespace characters, in order. |
| DocumentProcessor.ChunkDocuments | backend/document_processor.py:35-46 | One document per splitter chunk, in order, each with the chunk's text and the metadata source, chunk_id, total_chunks and document_type. |
| DocumentProcessor.ChunkDocumentsShape | backend/document_processor.py:35-46 | Document i holds chunk i, and its metadata is exactly source = filepath, chunk_id = i, total_chunks = the number of chunks and document_type = 'medical_pdf'. Chunk ids are pairwise distinct. |
| DocumentProcessor.ProcessPdf | backend/document_processor.py:17-51 | A readable PDF yields one stamped document per splitter chunk of the cleaned raw text, in order. An extraction failure is re-raised as "Error processing PDF {filepath}: {reason}". |
| DocumentProcessor.FoundKeywords | backend/document_processor.py:82 | `[kw for kw in keywords if kw in text_lower]`. |
| DocumentProcessor.FoundKeywordsSubseq | backend/document_processor.py:82 | The found keywords are an order-preserving subsequence of the category's keywords. |
| DocumentProcessor.FoundKeywordsMembers | backend/document_processor.py:82 | A keyword is found exactly when it is one of the category's keywords and occurs in the text. |
| DocumentProcessor.FoundKeywordsNonEmpty | backend/document_processor.py:82-84 | The found list is non-empty exactly when some keyword of the category occurs. |
| DocumentProcessor.Matches | backend/document_processor.py:78-86 | The entity map: each category of the table with at least one keyword in the lower-cased text, mapped to the keywords found. |
| DocumentProcessor.MatchesExact | backend/document_processor.py:81-84 | A category is present exactly when one of its keywords occurs in the text. It then lists exactly the occurring keywords, in the category's order. |
| DocumentProcessor.MatchCategories | backend/document_processor.py:81-84 | The loop over the category table builds exactly the specified category map. |
| DocumentProcessor.ExtractMedicalEntities | backend/document_processor.py:68-86 | The entities are the categories matched in the lower-cased text. |
| App.ValidateUpload | backend/app.py:44-52 | An upload is accepted exactly when a file is present, its name is non-empty and its lower-cased name ends with ".pdf". Rejections come in source order: "No file provided", then "No file selected", then "Only PDF files are supported". |
| App.ValidateUploadIgnoresCase | backend/app.py:51 | The extension test ignores letter case, and an accepted name is at least as long as ".pdf". |
| App.PathJoin | backend/app.py:56 | The saved path starts with the upload folder and ends with the generated file name. |
| App.UploadMetadata | backend/app.py:63-66 | The dictionary the upload passes to `add_documents`: the client's filename and the saved path. |
| App.UploadedChunkMetadata | backend/app.py:63-66 | Every stored chunk of one upload carries the client's original filename and the saved path. It keeps its source, chunk id, total and type, and has no other key. |
| App.ChunkIds | backend/rag_system.py:40 | One id per chunk, the draws after the one that names the saved file. |
| App.ChunkIdsFresh | backend/rag_system.py:40 | Distinct uuid draws give chunk ids that are pairwise distinct, distinct from the stored ids and distinct from the draw that names the saved file. |
| App.Trim | backend/app.py:111-113 | The history kept after a turn: all of it up to 10 exchanges, otherwise the last 10 (`[-10:]`). |
| App.TrimKeepsNewest | backend/app.py:111-113 | Trimming keeps the whole history up to 10 exchanges, and otherwise exactly its newest 10, as a suffix. |
| App.TrimKeepsLast | backend/app.py:106-113 | The exchange just appended always survives the trim. |
| App.Sources | backend/app.py:117 | There is one source per retrieved document. |
| App.SourcesNameFiles | backend/app.py:117 | Each source is its document's filename, or "Unknown" when there is none. |
| App.GetOrDefault | backend/app.py:86 | A missing session id defaults to the given value, "default" at both call sites. |
| App.HistoryOf | backend/app.py:88-93 | The history a chat turn sees: the session's stored history, or the empty history a new session is created with. |
| App.ChatSessionUpdate | backend/app.py:88-113 | A chat turn changes only its own session, which it creates if absent. The new history holds at most 10 exchanges and ends with the new exchange. |
| App.ClearSessionNeverCreates | backend/app.py:140-141 | Clearing empties at most the named session and never adds a session. |
| App.Api.constructor | backend/app.py:24-30 | The application starts with the given components and no sessions. |
| App.Api.UploadDocument | backend/app.py:40-75 | A rejected upload answers 400 with the validation message. A save, processing or store failure answers 500 "Upload failed: " with that failure's message. A failing store call is taken to write nothing, so nothing is stored. Otherwise the store gains exactly the upload's chunks under their fresh ids, with merged metadata, and the answer reports the client's filename and the chunk count. Sessions are unchanged. |
| App.Api.Chat | backend/app.py:77-119 | A JSON `null` body or a body without a message answers 400 "Message is required" and changes nothing. Otherwise the session id defaults to "default". The answer comes from the documents retrieved for the message (k = 3, threshold 0.7) and the session's history before this turn. The session becomes the trimmed old history plus the new exchange. The response carries the answer, one source per document and the session id. |
| App.Api.ListDocuments | backend/app.py:124-131 | The listing is the grouped summary of the stored records, and its counts add up to the record count. A failed read answers an empty list. |
| App.Api.ClearSession | backend/app.py:133-145 | A JSON `null` body, for which `get_json` returns None, answers 500 with Python's "'NoneType' object has no attribute 'get'" message. Otherwise an existing session's history is emptied, an unknown session stays absent, and the answer is a success. |

## Left out

- Flask glue is not modelled: routing, `jsonify`, CORS, `load_dotenv` and environment configuration, `os.makedirs`, the 16 MiB request limit (`MAX_CONTENT_LENGTH`, enforced by Flask before the handler runs) and the health endpoint. Requests are reduced to the values the handlers read.
- A chat or clear-session request body is modelled as a JSON object with optional string fields, or as a JSON `null` body, for which `get_json` returns None. A body that is JSON but not an object (a list, a string, a number) is not modelled, and neither is a non-string message. Nor is a request that `get_json` rejects: a wrong content type or an empty or malformed body raises, and the source turns that into 500 "Chat failed" or "Failed to clear session".
- App.Api.Chat: the 500 "Chat failed" path is not modelled. The search catches its own errors, `generate_response` catches the model's, and the rest of the turn raises nothing on string inputs.
- App.Api.Chat: the source creates a new session before searching, and the model searches first. The search does not read the sessions, so the outcome is the same.
- The `'context'` list stored alongside each session's history is never read by the code and is not modelled.
- App.Api.ClearSession leaves an unknown session absent (backend/app.py:140-141): only `chat` creates sessions (backend/app.py:88-89).
- Saving the upload (`file.save`) and PDF text extraction (PyPDF2) are not modelled: file I/O and a foreign library. The saved file's content arrives as either its pages' texts or an extraction error, and a save failure is a parameter.
- `uuid.uuid4` is a parameter `uuid: nat -> string` whose draws are pairwise distinct and absent from the store; randomness is not modelled.
- HuggingFace embeddings and Chroma's similarity search are not modelled: a foreign service with floating-point distances. The search is a function from the stored records, the enhanced query and k to a list of scored hits or an error. Scores are `real` values compared only with `>=`, and what they mean is not modelled.
- `persist()` and the durability of the store are not modelled. A failure of any store call (add, delete, clear, read) is a parameter carrying its message, and a failing call is taken to write nothing. A failure after a successful write is not modelled: `persist()` at backend/rag_system.py:46 or :141 raising after the records were added or deleted. The source then reports the error although the store changed, so an upload can answer 500 while the listing shows the file.
- RagSystem.RagSystem.AddDocuments: its failure case assumes the failing call wrote nothing. A `persist()` failure after `add_documents` stored the chunks is not covered.
- RagSystem.RagSystem.DeleteDocument: its failure case assumes the failing call wrote nothing. A `persist()` failure after `collection.delete` removed the chunks is not covered.
- App.Api.UploadDocument: "nothing is stored" on a store failure rests on the same assumption.
- RagSystem.RagSystem.ClearAllDocuments assumes that `collection.delete()` without arguments empties the collection. Its behaviour across Chroma versions is not modelled.
- RagSystem.RagSystem.AddDocuments: `doc.metadata.update` mutates the caller's `Document` objects in place, even when the store then fails. The model builds the stored records as new values and does not track that aliasing.
- The recursive character splitter is an arbitrary function from text to chunks. Its chunk size, overlap and separators are not modelled, and nothing is claimed about reconstruction.
- The call to the LLM client and the prompt-template formatting are not modelled (a foreign service). The model is an optional function from a `Prompt` record (system text, context, history, question) to a reply or a failure.
- The system prompt and the fallback templates are shortened constants. The model keeps the structure and every variable part (the message, the entries, the previews and their lengths), but not the full disclaimer paragraphs or the emoji.
- `str.lower` is modelled on ASCII letters only, and `\w` as ASCII letters, digits and underscore. Python applies both to Unicode letters too, so for non-ASCII letters the model's cleaning replaces characters that Python keeps. `\s` and `str.strip` use Python's full Unicode whitespace set.
- Entity extraction returns a map, so the insertion order of the categories in the result, which Python's dictionary keeps, is not modelled. Each category's found list keeps its order.
- `print` logging is not modelled, including the startup count message in backend/rag_system.py:29.
