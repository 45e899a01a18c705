/** Prompt and response composition (backend/medical_llm.py): the context
    block built from retrieved documents, the window of recent history, the
    deterministic fallback answer, the choice between the language model's
    answer and that fallback, and keyword-based urgency classification.
    The language model is an oracle that is either not configured, answers
    a prompt with text, or fails. */
module MedicalLlm {
  import opened Text
  import opened Docs

  // ---------------------------------------------------------------------
  // Context block
  // ---------------------------------------------------------------------

  const NoDocumentsContext: string := "No" + " relevant medical documents found for this query."
  const ContextPreviewLength: nat := 800

  /** The section for the `i`-th document (counting from 1): its number,
      filename, chunk id and the first 800 characters of its text. */
  function ContextSection(i: nat, doc: Document): string {
    "\n" + SectionHeading(i, doc) + "\n" + SectionContent(doc) + "\n"
  }

  /** "Document {i}: {filename} (Section {chunk_id})". */
  function SectionHeading(i: nat, doc: Document): string {
    "Document " + NatToString(i) + ": " + Render(GetOr(doc.metadata, "filename", Str("Unknown document")))
      + " (Section " + Render(GetOr(doc.metadata, "chunk_id", Str(""))) + ")"
  }

  /** "Content: {page_content[:800]}...". */
  function SectionContent(doc: Document): string {
    "Content: " + Take(doc.pageContent, ContextPreviewLength) + "..."
  }

  function ContextSections(docs: seq<Document>): (r: seq<string>)
    ensures |r| == |docs|
  {
    seq(|docs|, i requires 0 <= i < |docs| => ContextSection(i + 1, docs[i]))
  }

  /** The context block handed to the language model. */
  function ContextBlock(docs: seq<Document>): string {
    if |docs| == 0 then NoDocumentsContext else Join(ContextSections(docs), "\n")
  }

  /** The block is the fixed marker exactly when nothing was retrieved. */
  lemma ContextBlockMarker(docs: seq<Document>)
    ensures ContextBlock(docs) == NoDocumentsContext <==> |docs| == 0
  {
    if |docs| > 0 {
      var secs := ContextSections(docs);
      JoinStartsWithFirst(secs, "\n");
      SectionStartsWithNewline(1, docs[0]);
      assert NoDocumentsContext[0] == 'N';
      FirstCharDiffers(ContextBlock(docs), secs[0], NoDocumentsContext);
    }
  }

  lemma SectionStartsWithNewline(i: nat, doc: Document)
    ensures 0 < |ContextSection(i, doc)| && ContextSection(i, doc)[0] == '\n'
  {
    var rest := SectionHeading(i, doc) + "\n" + SectionContent(doc) + "\n";
    assert ContextSection(i, doc) == "\n" + rest;
  }

  /** With documents, the block holds one section per document, the
      section of document `i` numbered `i + 1`. */
  lemma ContextBlockSections(docs: seq<Document>)
    ensures forall i :: 0 <= i < |docs| ==> Contains(ContextBlock(docs), ContextSection(i + 1, docs[i]))
  {
    forall i | 0 <= i < |docs|
      ensures Contains(ContextBlock(docs), ContextSection(i + 1, docs[i]))
    {
      SectionInBlock(docs, i);
    }
  }

  lemma SectionInBlock(docs: seq<Document>, i: nat)
    requires i < |docs|
    ensures Contains(ContextBlock(docs), ContextSection(i + 1, docs[i]))
  {
    var secs := ContextSections(docs);
    assert ContextBlock(docs) == Join(secs, "\n");
    ContextSectionsAt(docs, i);
    JoinContainsPart(secs, "\n", i);
  }

  /** Section `n` names the document's number, filename (default
      'Unknown document') and chunk id, and quotes the first
      min(length, 800) characters of its text followed by "...". */
  lemma ContextSectionShape(n: nat, d: Document)
    ensures var preview := Take(d.pageContent, ContextPreviewLength);
            |preview| == (if |d.pageContent| < 800 then |d.pageContent| else 800) &&
            preview == d.pageContent[..|preview|] &&
            Contains(ContextSection(n, d),
                     "Document " + NatToString(n) + ": "
                     + Render(GetOr(d.metadata, "filename", Str("Unknown document")))
                     + " (Section " + Render(GetOr(d.metadata, "chunk_id", Str(""))) + ")") &&
            Contains(ContextSection(n, d), "Content: " + preview + "...")
  {
    var head, body := SectionHeading(n, d), SectionContent(d);
    assert ContextSection(n, d) == "\n" + head + ("\n" + body + "\n");
    assert ContextSection(n, d) == ("\n" + head + "\n") + body + "\n";
    ContainsSelf("\n", head, "\n" + body + "\n");
    ContainsSelf("\n" + head + "\n", body, "\n");
  }

  // ---------------------------------------------------------------------
  // History window
  // ---------------------------------------------------------------------

  const NoHistory: string := "No previous conversation."
  const HistoryWindow: nat := 3

  function HistoryLine(w: seq<Exchange>, j: nat): string
    requires j < 2 * |w|
  {
    if j % 2 == 0 then "User: " + w[j / 2].user else "Assistant: " + w[j / 2].assistant
  }

  /** Two lines per exchange, user first. */
  function HistoryLines(w: seq<Exchange>): (r: seq<string>)
    ensures |r| == 2 * |w|
  {
    seq(2 * |w|, j requires 0 <= j < 2 * |w| => HistoryLine(w, j))
  }

  /** The history block handed to the language model: the last three exchanges. */
  function HistoryBlock(history: seq<Exchange>): string {
    if |history| == 0 then NoHistory else Join(HistoryLines(Last(history, HistoryWindow)), "\n")
  }

  /** With history, the block is exactly 2·min(3, n) lines alternating
      "User:" and "Assistant:" over the last min(3, n) exchanges, oldest first. */
  lemma HistoryBlockShape(history: seq<Exchange>)
    requires |history| > 0
    ensures var m := if |history| < 3 then |history| else 3;
            var lines := HistoryLines(Last(history, HistoryWindow));
            HistoryBlock(history) == Join(lines, "\n") &&
            |lines| == 2 * m &&
            forall j :: 0 <= j < m ==>
              lines[2 * j] == "User: " + history[|history| - m + j].user &&
              lines[2 * j + 1] == "Assistant: " + history[|history| - m + j].assistant
  {
    var m := if |history| < 3 then |history| else 3;
    var w := Last(history, HistoryWindow);
    forall j | 0 <= j < m
      ensures HistoryLines(w)[2 * j] == "User: " + history[|history| - m + j].user
      ensures HistoryLines(w)[2 * j + 1] == "Assistant: " + history[|history| - m + j].assistant
    {
      assert (2 * j) / 2 == j && (2 * j) % 2 == 0;
      assert (2 * j + 1) / 2 == j && (2 * j + 1) % 2 == 1;
      assert w[j] == history[|history| - m + j];
    }
  }

  /** Exchanges older than the last three never reach the prompt. */
  lemma HistoryIgnoresOlder(older: seq<Exchange>, recent: seq<Exchange>)
    requires |recent| >= 3
    ensures HistoryBlock(older + recent) == HistoryBlock(recent)
  {
    assert Last(older + recent, HistoryWindow) == Last(recent, HistoryWindow);
  }

  lemma EmptyHistoryBlock(history: seq<Exchange>)
    ensures HistoryBlock(history) == NoHistory <==> |history| == 0
  {
    if |history| > 0 {
      var lines := HistoryLines(Last(history, HistoryWindow));
      JoinStartsWithFirst(lines, "\n");
      assert lines[0] == "User: " + Last(history, HistoryWindow)[0].user;
      assert HistoryBlock(history)[0] == 'U';
    }
  }

  // ---------------------------------------------------------------------
  // Fallback answer
  // ---------------------------------------------------------------------

  const FallbackPreviewLength: nat := 200
  const FallbackDocumentLimit: nat := 2

  /** The fixed wording around the fallback's variable parts; the
      disclaimer, note and upload-instruction paragraphs are not reproduced. */
  const DocsIntro: string :=
    "Based on the medical documents in our database, here's relevant information for your query:\n\n"
  const DocsDisclaimer: string :=
    "\n\n**Recommendation**: For personalized medical advice regarding \""
  const DocsOutro: string :=
    "\", please consult with your healthcare provider who can evaluate your specific situation."
  const NoDocsIntro: string := "I understand you're asking about: \""
  const NoDocsOutro: string :=
    "\"\n\nCurrently, I don't have specific medical documents uploaded that directly address your question."

  /** "From {filename}: " and the first 200 characters of the text, then "...". */
  function FallbackEntry(doc: Document): string {
    "From " + Render(GetOr(doc.metadata, "filename", Str("Medical document"))) + ": "
      + Take(doc.pageContent, FallbackPreviewLength) + "..."
  }

  function FallbackEntries(docs: seq<Document>): (r: seq<string>)
    ensures |r| == |Take(docs, FallbackDocumentLimit)|
  {
    var quoted := Take(docs, FallbackDocumentLimit);
    seq(|quoted|, i requires 0 <= i < |quoted| => FallbackEntry(quoted[i]))
  }

  /** The answer given without the language model. */
  function FallbackText(message: string, docs: seq<Document>): string {
    if |docs| > 0 then DocsIntro + Join(FallbackEntries(docs), "\n\n") + DocsDisclaimer + message + DocsOutro
    else NoDocsIntro + message + NoDocsOutro
  }

  /** The fallback is never empty and quotes the user's message in both
      branches; with documents it quotes an entry for each of the first
      min(2, n) of them, and without documents it is the upload template. */
  lemma FallbackShape(message: string, docs: seq<Document>)
    ensures |FallbackText(message, docs)| > 0
    ensures Contains(FallbackText(message, docs), message)
    ensures |docs| == 0 ==> FallbackText(message, docs) == NoDocsIntro + message + NoDocsOutro
    ensures forall i :: 0 <= i < |docs| && i < FallbackDocumentLimit ==>
              Contains(FallbackText(message, docs), FallbackEntry(docs[i]))
  {
    FallbackNonEmpty(message, docs);
    if |docs| > 0 {
      FallbackWithDocs(message, docs);
    } else {
      ContainsSelf(NoDocsIntro, message, NoDocsOutro);
    }
  }

  lemma FallbackNonEmpty(message: string, docs: seq<Document>)
    ensures |FallbackText(message, docs)| > 0
  {
    assert |DocsIntro| > 0 && |NoDocsIntro| > 0;
  }

  lemma FallbackWithDocs(message: string, docs: seq<Document>)
    requires |docs| > 0
    ensures Contains(FallbackText(message, docs), message)
    ensures forall i :: 0 <= i < |docs| && i < FallbackDocumentLimit ==>
              Contains(FallbackText(message, docs), FallbackEntry(docs[i]))
  {
    var entries := FallbackEntries(docs);
    JoinFramed(DocsIntro, entries, "\n\n", DocsDisclaimer, message, DocsOutro);
    forall i | 0 <= i < |docs| && i < FallbackDocumentLimit
      ensures Contains(FallbackText(message, docs), FallbackEntry(docs[i]))
    {
      assert entries[i] == FallbackEntry(docs[i]);
    }
  }

  /** Template text around joined parts and a message quotes each part and the message. */
  lemma JoinFramed(a: string, parts: seq<string>, sep: string, b: string, message: string, c: string)
    ensures Contains(a + Join(parts, sep) + b + message + c, message)
    ensures forall i :: 0 <= i < |parts| ==> Contains(a + Join(parts, sep) + b + message + c, parts[i])
  {
    var ctx := Join(parts, sep);
    ContainsSelf(a + ctx + b, message, c);
    forall i | 0 <= i < |parts|
      ensures Contains(a + ctx + b + message + c, parts[i])
    {
      JoinContainsPart(parts, sep, i);
      ContainsWithin(a, ctx, b + message + c, parts[i]);
      assert a + ctx + (b + message + c) == a + ctx + b + message + c;
    }
  }

  /** Documents after the second never influence the fallback. */
  lemma FallbackUsesFirstTwo(message: string, docs: seq<Document>)
    ensures FallbackText(message, docs) == FallbackText(message, Take(docs, FallbackDocumentLimit))
  {
    assert Take(Take(docs, FallbackDocumentLimit), FallbackDocumentLimit) == Take(docs, FallbackDocumentLimit);
  }

  // ---------------------------------------------------------------------
  // Choosing between the model and the fallback
  // ---------------------------------------------------------------------

  /** What the prompt template is filled with. */
  datatype Prompt = Prompt(system: string, context: string, history: string, question: string)

  datatype LlmReply = Reply(content: string) | LlmFailure

  /** A configured language model: one call per prompt. */
  type Llm = Prompt -> LlmReply

  /** The fixed system instruction (its full wording is not reproduced). */
  const SystemPrompt: string :=
    "You are MedBot AI, a knowledgeable medical assistant designed to help healthcare professionals "
    + "and patients with medical information."

  function PromptFor(message: string, docs: seq<Document>, history: seq<Exchange>): Prompt {
    Prompt(SystemPrompt, ContextBlock(docs), HistoryBlock(history), message)
  }

  /** The answer to a message: the model's text when it is configured and
      answers, the fallback otherwise. */
  function ResponseFor(llm: Option<Llm>, message: string, docs: seq<Document>, history: seq<Exchange>): string {
    match llm
    case None => FallbackText(message, docs)
    case Some(call) =>
      match call(PromptFor(message, docs, history))
      case Reply(content) => content
      case LlmFailure => FallbackText(message, docs)
  }

  /** Without a model, or when the model fails, the answer is the fallback
      and so is non-empty and quotes the message; a model answer is
      returned verbatim. */
  lemma ResponseCases(llm: Option<Llm>, message: string, docs: seq<Document>, history: seq<Exchange>)
    ensures llm.None? ==> ResponseFor(llm, message, docs, history) == FallbackText(message, docs)
    ensures llm.Some? && llm.value(PromptFor(message, docs, history)).Reply? ==>
              ResponseFor(llm, message, docs, history) == llm.value(PromptFor(message, docs, history)).content
    ensures llm.Some? && llm.value(PromptFor(message, docs, history)).LlmFailure? ==>
              ResponseFor(llm, message, docs, history) == FallbackText(message, docs)
    ensures (llm.None? || llm.value(PromptFor(message, docs, history)).LlmFailure?) ==>
              |ResponseFor(llm, message, docs, history)| > 0 &&
              Contains(ResponseFor(llm, message, docs, history), message)
  {
    FallbackShape(message, docs);
  }

  // ---------------------------------------------------------------------
  // The composition loops
  // ---------------------------------------------------------------------

  method PrepareContext(documents: seq<Document>) returns (context: string)
    ensures context == ContextBlock(documents)
  {
    if |documents| == 0 {
      return NoDocumentsContext;
    }
    var parts: seq<string> := [];
    var i := 0;
    while i < |documents|
      invariant 0 <= i <= |documents|
      invariant parts == ContextSections(documents[..i])
    {
      var doc := documents[i];
      var filename := GetOr(doc.metadata, "filename", Str("Unknown document"));
      var chunkId := GetOr(doc.metadata, "chunk_id", Str(""));
      var heading := "Document " + NatToString(i + 1) + ": " + Render(filename) + " (Section " + Render(chunkId) + ")";
      var content := "Content: " + Take(doc.pageContent, ContextPreviewLength) + "...";
      assert heading == SectionHeading(i + 1, doc) && content == SectionContent(doc);
      ContextSectionsSnoc(documents, i);
      parts := parts + ["\n" + heading + "\n" + content + "\n"];
      i := i + 1;
    }
    assert documents[..i] == documents;
    context := Join(parts, "\n");
  }

  lemma ContextSectionsSnoc(docs: seq<Document>, i: nat)
    requires i < |docs|
    ensures ContextSections(docs[..i + 1]) == ContextSections(docs[..i]) + [ContextSection(i + 1, docs[i])]
  {
    var longer, shorter := ContextSections(docs[..i + 1]), ContextSections(docs[..i]);
    var last := ContextSection(i + 1, docs[i]);
    forall j | 0 <= j < i
      ensures longer[j] == shorter[j]
    {
      ContextSectionsAt(docs[..i + 1], j);
      ContextSectionsAt(docs[..i], j);
      assert docs[..i + 1][j] == docs[..i][j];
    }
    ContextSectionsAt(docs[..i + 1], i);
    SnocEquals(longer, shorter, last);
  }

  lemma ContextSectionsAt(docs: seq<Document>, j: nat)
    requires j < |docs|
    ensures ContextSections(docs)[j] == ContextSection(j + 1, docs[j])
  {
  }

  method PrepareHistory(chatHistory: seq<Exchange>) returns (text: string)
    ensures text == HistoryBlock(chatHistory)
  {
    if |chatHistory| == 0 {
      return NoHistory;
    }
    var window := Last(chatHistory, HistoryWindow);
    var parts: seq<string> := [];
    var i := 0;
    while i < |window|
      invariant 0 <= i <= |window|
      invariant |parts| == 2 * i
      invariant forall j :: 0 <= j < 2 * i ==> parts[j] == HistoryLine(window, j)
    {
      parts := parts + ["User: " + window[i].user];
      parts := parts + ["Assistant: " + window[i].assistant];
      assert (2 * i) / 2 == i && (2 * i) % 2 == 0;
      assert (2 * i + 1) / 2 == i && (2 * i + 1) % 2 == 1;
      i := i + 1;
    }
    assert parts == HistoryLines(window);
    text := Join(parts, "\n");
  }

  method GenerateFallbackResponse(userMessage: string, contextDocuments: seq<Document>) returns (text: string)
    ensures text == FallbackText(userMessage, contextDocuments)
  {
    if |contextDocuments| == 0 {
      return NoDocsIntro + userMessage + NoDocsOutro;
    }
    var quoted := Take(contextDocuments, FallbackDocumentLimit);
    var docInfo: seq<string> := [];
    var i := 0;
    while i < |quoted|
      invariant 0 <= i <= |quoted|
      invariant |docInfo| == i
      invariant forall j :: 0 <= j < i ==> docInfo[j] == FallbackEntry(quoted[j])
    {
      var doc := quoted[i];
      var filename := GetOr(doc.metadata, "filename", Str("Medical document"));
      var contentPreview := Take(doc.pageContent, FallbackPreviewLength) + "...";
      docInfo := docInfo + ["From " + Render(filename) + ": " + contentPreview];
      i := i + 1;
    }
    assert docInfo == FallbackEntries(contextDocuments);
    var documentContext := Join(docInfo, "\n\n");
    text := DocsIntro + documentContext + DocsDisclaimer + userMessage + DocsOutro;
  }

  /** Answer one message: without a configured model the fallback is
      returned (the model is never consulted); otherwise the model is
      asked, and its failure also yields the fallback. */
  method GenerateResponse(llm: Option<Llm>, userMessage: string, contextDocuments: seq<Document>,
                          chatHistory: seq<Exchange>) returns (text: string)
    ensures text == ResponseFor(llm, userMessage, contextDocuments, chatHistory)
  {
    if llm.None? {
      text := GenerateFallbackResponse(userMessage, contextDocuments);
      return;
    }
    var context := PrepareContext(contextDocuments);
    var historyText := PrepareHistory(chatHistory);
    var reply := llm.value(Prompt(SystemPrompt, context, historyText, userMessage));
    match reply
    case Reply(content) =>
      text := content;
    case LlmFailure =>
      text := GenerateFallbackResponse(userMessage, contextDocuments);
  }

  // ---------------------------------------------------------------------
  // Urgency
  // ---------------------------------------------------------------------

  datatype Urgency = Urgent | Moderate | Routine {
    /** The string the source returns. */
    function Label(): string {
      match this
      case Urgent => "urgent"
      case Moderate => "moderate"
      case Routine => "routine"
    }

    function Rank(): nat {
      match this
      case Urgent => 2
      case Moderate => 1
      case Routine => 0
    }
  }

  const UrgentKeywords: seq<string> :=
    ["emergency", "urgent", "severe pain", "chest pain", "difficulty breathing",
     "unconscious", "bleeding", "stroke", "heart attack", "overdose", "poisoning"]

  const ModerateKeywords: seq<string> := ["pain", "symptoms", "side effects"]

  /** Case-insensitive keyword classification; urgent keywords are tested first. */
  function ClassifyMedicalUrgency(message: string): Urgency {
    var low := Lower(message);
    if ContainsAny(low, UrgentKeywords) then Urgent
    else if ContainsAny(low, ModerateKeywords) then Moderate
    else Routine
  }

  /** A witness of the keyword order: "severe pain" also holds the
      moderate keyword "pain", yet it is urgent. */
  lemma UrgentTakesPrecedence()
    ensures ContainsAny(Lower("I have severe pain"), ModerateKeywords)
    ensures ClassifyMedicalUrgency("I have severe pain") == Urgent
  {
    var low := Lower("I have severe pain");
    assert low == "i have severe pain";
    assert StartsWith(low[14..], ModerateKeywords[0]);
    assert StartsWith(low[7..], UrgentKeywords[2]);
  }

  /** Only the lower-cased text matters: upper- and lower-case spellings classify alike. */
  lemma UrgencyIgnoresCase(message: string)
    ensures ClassifyMedicalUrgency(Lower(message)) == ClassifyMedicalUrgency(message)
  {
    LowerIdempotent(message);
  }

  /** Adding text around a message never lowers its urgency. */
  lemma UrgencyMonotone(before: string, message: string, after: string)
    ensures ClassifyMedicalUrgency(message).Rank() <= ClassifyMedicalUrgency(before + message + after).Rank()
  {
    LowerAppend(before, message);
    LowerAppend(before + message, after);
    var low := Lower(message);
    assert Lower(before + message + after) == Lower(before) + low + Lower(after);
    if ContainsAny(low, UrgentKeywords) {
      ContainsAnyWithin(Lower(before), low, Lower(after), UrgentKeywords);
    } else if ContainsAny(low, ModerateKeywords) {
      ContainsAnyWithin(Lower(before), low, Lower(after), ModerateKeywords);
    }
  }
}
