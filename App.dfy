/** The HTTP endpoints (backend/app.py): upload validation and the
    upload pipeline, the chat endpoint with its per-session history, the
    document listing and session clearing. Flask's request parsing is
    reduced to the values the handlers read; the application's module
    globals become the fields of one `Api` object. */
module App {
  import opened Text
  import opened Docs
  import opened RagSystem
  import opened MedicalLlm
  import opened DocumentProcessor

  // ---------------------------------------------------------------------
  // Requests and responses
  // ---------------------------------------------------------------------

  /** A file part of a multipart upload: the client's filename and what PDF
      text extraction makes of the saved bytes. */
  datatype UploadedFile = UploadedFile(filename: string, content: PdfRead)

  /** The JSON object a chat or clear-session request carries; a key the
      client left out is `None`. */
  datatype SessionRequest = SessionRequest(message: Option<string>, sessionId: Option<string>)

  datatype Body =
    | Uploaded(filename: string, chunksProcessed: nat)
    | Answer(response: string, sources: seq<MetaValue>, sessionId: string)
    | Listing(documents: seq<DocSummary>)
    | SessionCleared

  datatype Response = Ok(body: Body) | Error(status: nat, message: string)

  const NoFileProvided: string := "No file provided"
  const NoFileSelected: string := "No file selected"
  const OnlyPdf: string := "Only PDF files are supported"
  const UploadFailed: string := "Upload failed: "
  const MessageRequired: string := "Message is required"
  const ClearFailed: string := "Failed to clear session: "
  /** What Python says when `data.get` is called on the `None` that a
      request without a JSON body yields. */
  const NoneHasNoGet: string := "'NoneType' object has no attribute 'get'"
  const DefaultSession: string := "default"
  const PdfExtension: string := ".pdf"
  /** Exchanges kept per session. */
  const MaxExchanges: nat := 10
  /** Documents retrieved per chat turn, and the score they must reach. */
  const ChatResults: nat := 3
  const ChatThreshold: real := 0.7

  function EndsWith(s: string, suffix: string): bool {
    |suffix| <= |s| && s[|s| - |suffix|..] == suffix
  }

  /** The three checks an upload passes, in order; `None` means accepted. */
  function ValidateUpload(file: Option<UploadedFile>): (err: Option<string>)
    ensures err.None? <==> file.Some? && file.value.filename != "" && EndsWith(Lower(file.value.filename), PdfExtension)
    ensures file.None? ==> err == Some(NoFileProvided)
    ensures file.Some? && file.value.filename == "" ==> err == Some(NoFileSelected)
    ensures file.Some? && file.value.filename != "" && !EndsWith(Lower(file.value.filename), PdfExtension) ==>
              err == Some(OnlyPdf)
  {
    if file.None? then Some(NoFileProvided)
    else if file.value.filename == "" then Some(NoFileSelected)
    else if !EndsWith(Lower(file.value.filename), PdfExtension) then Some(OnlyPdf)
    else None
  }

  /** The extension check ignores letter case and every name it accepts
      has a non-empty stem or is exactly the extension. */
  lemma ValidateUploadIgnoresCase(name: string, content: PdfRead)
    ensures ValidateUpload(Some(UploadedFile(name, content))) ==
            ValidateUpload(Some(UploadedFile(Lower(name), content)))
    ensures ValidateUpload(Some(UploadedFile(name, content))).None? ==> |name| >= |PdfExtension|
  {
    LowerIdempotent(name);
    assert name == "" <==> Lower(name) == "";
  }

  /** `os.path.join` for a relative file name. */
  function PathJoin(folder: string, name: string): (r: string)
    ensures EndsWith(r, name)
    ensures |r| >= |folder| && r[..|folder|] == folder
  {
    if folder == "" then name
    else if folder[|folder| - 1] == '/' then folder + name
    else folder + "/" + name
  }

  /** The upload's `metadata` argument. */
  function UploadMetadata(filename: string, filepath: string): Metadata {
    map["filename" := Str(filename), "filepath" := Str(filepath)]
  }

  /** Every stored chunk of an upload names the client's file and the
      saved path, and keeps its position, count, type and source. */
  lemma UploadedChunkMetadata(filename: string, filepath: string, chunks: seq<string>, ids: seq<string>)
    requires |ids| == |chunks|
    ensures forall i :: 0 <= i < |chunks| ==>
              var m := NewRecords(ChunkDocuments(filepath, chunks), UploadMetadata(filename, filepath), ids)[i].metadata;
              m.Keys == {"source", "chunk_id", "total_chunks", "document_type", "filename", "filepath"} &&
              m["filename"] == Str(filename) && m["filepath"] == Str(filepath) &&
              m["source"] == Str(filepath) && m["chunk_id"] == Int(i) &&
              m["total_chunks"] == Int(|chunks|) && m["document_type"] == Str("medical_pdf")
  {
    var docs := ChunkDocuments(filepath, chunks);
    var extra := UploadMetadata(filename, filepath);
    ChunkDocumentsShape(filepath, chunks);
    forall i | 0 <= i < |chunks|
      ensures var m := NewRecords(docs, extra, ids)[i].metadata;
              m.Keys == {"source", "chunk_id", "total_chunks", "document_type", "filename", "filepath"} &&
              m["filename"] == Str(filename) && m["filepath"] == Str(filepath) &&
              m["source"] == Str(filepath) && m["chunk_id"] == Int(i) &&
              m["total_chunks"] == Int(|chunks|) && m["document_type"] == Str("medical_pdf")
    {
      NewRecordsMetadata(docs, extra, ids, i);
    }
  }

  /** The ids `add_documents` draws for `n` chunks, after the file's own uuid. */
  function ChunkIds(uuid: nat -> string, n: nat): (r: seq<string>)
    ensures |r| == n
  {
    seq(n, i requires 0 <= i < n => uuid(1 + i))
  }

  /** Distinct draws give distinct chunk ids, none of them already stored. */
  lemma ChunkIdsFresh(uuid: nat -> string, n: nat, stored: seq<Record>)
    requires forall i: nat, j: nat :: i != j ==> uuid(i) != uuid(j)
    requires forall i: nat :: uuid(i) !in IdsOf(stored)
    ensures forall i, j :: 0 <= i < j < n ==> ChunkIds(uuid, n)[i] != ChunkIds(uuid, n)[j]
    ensures forall i :: 0 <= i < n ==> ChunkIds(uuid, n)[i] !in IdsOf(stored) && ChunkIds(uuid, n)[i] != uuid(0)
  {
  }

  /** The retained history: the last ten exchanges. */
  function Trim(history: seq<Exchange>): (r: seq<Exchange>)
    ensures |r| <= MaxExchanges
  {
    if |history| > MaxExchanges then history[|history| - MaxExchanges..] else history
  }

  /** Trimming keeps a suffix: everything when there are at most ten
      exchanges, exactly the newest ten otherwise. */
  lemma TrimKeepsNewest(history: seq<Exchange>)
    ensures |history| <= MaxExchanges ==> Trim(history) == history
    ensures |Trim(history)| == if |history| <= MaxExchanges then |history| else MaxExchanges
    ensures Trim(history) == history[|history| - |Trim(history)|..]
  {
  }

  /** So the exchange just appended always survives the trim. */
  lemma TrimKeepsLast(history: seq<Exchange>)
    requires 0 < |history|
    ensures 0 < |Trim(history)| && Trim(history)[|Trim(history)| - 1] == history[|history| - 1]
  {
  }

  /** `[doc.metadata.get('filename', 'Unknown') for doc in relevant_docs]`. */
  function Sources(docs: seq<Document>): (r: seq<MetaValue>)
    ensures |r| == |docs|
  {
    seq(|docs|, i requires 0 <= i < |docs| => GetOr(docs[i].metadata, "filename", Str("Unknown")))
  }

  /** Each source names its document's file, or "Unknown" when the
      metadata has no filename. */
  lemma SourcesNameFiles(docs: seq<Document>)
    ensures forall i :: 0 <= i < |docs| ==>
              (("filename" in docs[i].metadata) ==> Sources(docs)[i] == docs[i].metadata["filename"]) &&
              (("filename" !in docs[i].metadata) ==> Sources(docs)[i] == Str("Unknown"))
  {
  }

  /** The history a chat turn sees: the session's, or none for a new one. */
  function HistoryOf(sessions: map<string, seq<Exchange>>, sessionId: string): seq<Exchange> {
    if sessionId in sessions then sessions[sessionId] else []
  }

  // ---------------------------------------------------------------------
  // The application
  // ---------------------------------------------------------------------

  /** The application's globals: the vector store, the LLM client (absent
      without an API key), the black-box similarity index and text
      splitter, the upload folder, and the session store. */
  class Api {
    const rag: RagSystem
    const llm: Option<Llm>
    const index: (seq<Record>, string, int) -> SearchOutcome
    const splitter: Splitter
    const uploadFolder: string
    var sessions: map<string, seq<Exchange>>

    ghost predicate Valid()
      reads this, rag
    {
      rag.Valid() && forall s :: s in sessions ==> |sessions[s]| <= MaxExchanges
    }

    constructor (rag: RagSystem, llm: Option<Llm>, index: (seq<Record>, string, int) -> SearchOutcome,
                 splitter: Splitter, uploadFolder: string)
      requires rag.Valid()
      ensures Valid() && sessions == map[]
      ensures this.rag == rag && this.llm == llm && this.index == index
      ensures this.splitter == splitter && this.uploadFolder == uploadFolder
    {
      this.rag := rag;
      this.llm := llm;
      this.index := index;
      this.splitter := splitter;
      this.uploadFolder := uploadFolder;
      sessions := map[];
    }

    /** `POST /api/upload`. `uuid(0)` names the saved file and `uuid(1 + i)`
        identifies chunk `i` in the store; `saveFault` and `storeFault`
        stand for writing the file and the vector store raising. */
    method UploadDocument(file: Option<UploadedFile>, uuid: nat -> string,
                          saveFault: Option<string>, storeFault: Option<string>) returns (resp: Response)
      requires Valid()
      requires forall i: nat, j: nat :: i != j ==> uuid(i) != uuid(j)
      requires forall i: nat :: uuid(i) !in IdsOf(rag.records)
      modifies rag
      ensures Valid() && sessions == old(sessions)
      ensures ValidateUpload(file).Some? ==>
                resp == Error(400, ValidateUpload(file).value) && rag.records == old(rag.records)
      ensures ValidateUpload(file).None? && saveFault.Some? ==>
                resp == Error(500, UploadFailed + saveFault.value) && rag.records == old(rag.records)
      ensures ValidateUpload(file).None? && saveFault.None? && file.value.content.Unreadable? ==>
                var filepath := PathJoin(uploadFolder, uuid(0) + PdfExtension);
                resp == Error(500, UploadFailed + (ProcessError + filepath + ": " + file.value.content.reason)) &&
                rag.records == old(rag.records)
      ensures ValidateUpload(file).None? && saveFault.None? && file.value.content.Pages? && storeFault.Some? ==>
                resp == Error(500, UploadFailed + AddError + storeFault.value) && rag.records == old(rag.records)
      ensures ValidateUpload(file).None? && saveFault.None? && file.value.content.Pages? && storeFault.None? ==>
                var filepath := PathJoin(uploadFolder, uuid(0) + PdfExtension);
                var chunks := ChunkDocuments(filepath, splitter(CleanText(RawText(file.value.content.pages))));
                resp == Ok(Uploaded(file.value.filename, |chunks|)) &&
                rag.records == old(rag.records) +
                  NewRecords(chunks, UploadMetadata(file.value.filename, filepath), ChunkIds(uuid, |chunks|))
    {
      var err := ValidateUpload(file);
      if err.Some? {
        return Error(400, err.value);
      }
      var f := file.value;
      var filename := uuid(0) + PdfExtension;
      var filepath := PathJoin(uploadFolder, filename);
      if saveFault.Some? {
        return Error(500, UploadFailed + saveFault.value);
      }
      var processed := ProcessPdf(filepath, f.content, splitter);
      if processed.Failure? {
        return Error(500, UploadFailed + processed.error);
      }
      var textChunks := processed.value;
      var ids := ChunkIds(uuid, |textChunks|);
      ChunkIdsFresh(uuid, |textChunks|, rag.records);
      var added := rag.AddDocuments(textChunks, UploadMetadata(f.filename, filepath), ids, storeFault);
      if added.Raised? {
        return Error(500, UploadFailed + added.error);
      }
      resp := Ok(Uploaded(f.filename, |textChunks|));
    }

    /** `POST /api/chat`: retrieve up to three documents scoring at least
        0.7, answer from them and the session's earlier exchanges, then
        record the exchange, keeping the newest ten. */
    method Chat(request: Option<SessionRequest>) returns (resp: Response)
      requires Valid()
      modifies this
      ensures Valid()
      ensures request.None? || request.value.message.None? ==>
                resp == Error(400, MessageRequired) && sessions == old(sessions)
      ensures request.Some? && request.value.message.Some? ==>
                var message := request.value.message.value;
                var sessionId := GetOrDefault(request.value.sessionId, DefaultSession);
                var docs := old(rag.SearchSimilarDocuments(message, ChatResults, ChatThreshold, index));
                var history := HistoryOf(old(sessions), sessionId);
                var reply := ResponseFor(llm, message, docs, history);
                resp == Ok(Answer(reply, Sources(docs), sessionId)) &&
                sessions == old(sessions)[sessionId := Trim(history + [Exchange(message, reply)])]
    {
      if request.None? || request.value.message.None? {
        return Error(400, MessageRequired);
      }
      var userMessage := request.value.message.value;
      var sessionId := GetOrDefault(request.value.sessionId, DefaultSession);
      var relevantDocs := rag.SearchSimilarDocuments(userMessage, ChatResults, ChatThreshold, index);
      ghost var before := sessions;
      if sessionId !in sessions {
        sessions := sessions[sessionId := []];
      }
      assert sessions[sessionId] == HistoryOf(before, sessionId);
      var response := GenerateResponse(llm, userMessage, relevantDocs, sessions[sessionId]);
      var history := sessions[sessionId] + [Exchange(userMessage, response)];
      if |history| > MaxExchanges {
        history := history[|history| - MaxExchanges..];
      }
      assert history == Trim(HistoryOf(before, sessionId) + [Exchange(userMessage, response)]);
      UpdateTwice(before, sessionId, [], history);
      sessions := sessions[sessionId := history];
      resp := Ok(Answer(response, Sources(relevantDocs), sessionId));
    }

    /** `GET /api/documents`. */
    method ListDocuments(readFault: bool) returns (resp: Response)
      ensures readFault ==> resp == Ok(Listing([]))
      ensures !readFault ==> resp == Ok(Listing(Grouped(MetadatasOf(rag.records)))) &&
                             SumChunks(resp.body.documents) == |rag.records|
    {
      var documents := rag.GetDocumentList(readFault);
      resp := Ok(Listing(documents));
    }

    /** `POST /api/clear_session`: an existing session is emptied; an
        unknown one is left absent; a request without a JSON body fails. */
    method ClearSession(data: Option<SessionRequest>) returns (resp: Response)
      requires Valid()
      modifies this
      ensures Valid()
      ensures data.None? ==> resp == Error(500, ClearFailed + NoneHasNoGet) && sessions == old(sessions)
      ensures data.Some? ==>
                var sessionId := GetOrDefault(data.value.sessionId, DefaultSession);
                resp == Ok(SessionCleared) &&
                sessions == if sessionId in old(sessions) then old(sessions)[sessionId := []] else old(sessions)
    {
      if data.None? {
        return Error(500, ClearFailed + NoneHasNoGet);
      }
      var sessionId := GetOrDefault(data.value.sessionId, DefaultSession);
      if sessionId in sessions {
        sessions := sessions[sessionId := []];
      }
      resp := Ok(SessionCleared);
    }
  }

  /** `data.get(key, default)` on an optional value. */
  function GetOrDefault(v: Option<string>, default: string): (r: string)
    ensures v.Some? ==> r == v.value
    ensures v.None? ==> r == default
  {
    if v.Some? then v.value else default
  }

  /** Setting a key twice keeps the second value only. */
  lemma UpdateTwice<K, V>(m: map<K, V>, k: K, v: V, w: V)
    ensures m[k := v][k := w] == m[k := w]
  {
  }

  /** A chat turn touches only its own session: every other session keeps
      its history, and the turn's own session ends with the new exchange
      and holds at most ten. */
  lemma ChatSessionUpdate(sessions: map<string, seq<Exchange>>, sessionId: string, e: Exchange)
    ensures var after := sessions[sessionId := Trim(HistoryOf(sessions, sessionId) + [e])];
            forall s :: s in sessions && s != sessionId ==> s in after && after[s] == sessions[s]
    ensures var after := sessions[sessionId := Trim(HistoryOf(sessions, sessionId) + [e])];
            after.Keys == sessions.Keys + {sessionId}
    ensures var t := Trim(HistoryOf(sessions, sessionId) + [e]);
            |t| <= MaxExchanges && 0 < |t| && t[|t| - 1] == e
  {
    var h := HistoryOf(sessions, sessionId) + [e];
    assert h[|h| - 1] == e;
    TrimKeepsLast(h);
  }

  /** Clearing makes every session's history empty or leaves it, and
      never creates a session. */
  lemma ClearSessionNeverCreates(sessions: map<string, seq<Exchange>>, sessionId: string)
    ensures var after := if sessionId in sessions then sessions[sessionId := []] else sessions;
            after.Keys == sessions.Keys &&
            (forall s :: s in after ==> after[s] == (if s == sessionId then [] else sessions[s]))
  {
  }
}
