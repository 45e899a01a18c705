/** The retrieval side of the backend (backend/rag_system.py): query
    enhancement, score filtering of similarity-search hits, and the record
    store behind the vector database, with its document listing, deletion by
    filename and clearing. Embedding and nearest-neighbour search are a
    black box: a function from the stored records, the query text and `k` to
    the hits it returns, or to an error. */
module RagSystem {
  import opened Text
  import opened Docs

  // ---------------------------------------------------------------------
  // Query enhancement
  // ---------------------------------------------------------------------

  /** The words whose presence marks a query as already medical. */
  const ContextWords: seq<string> :=
    ["medical", "clinical", "treatment", "diagnosis", "patient",
     "symptom", "condition", "therapy", "medication", "dosage"]

  const QueryPrefix: string := "medical clinical "

  /** A query with no context word, lower-cased, gets the medical prefix. */
  function EnhanceQuery(query: string): string {
    if ContainsAny(Lower(query), ContextWords) then query else QueryPrefix + query
  }

  /** The query is kept exactly when it already holds a context word;
      otherwise it is the prefix followed by the query. Either way the
      result holds a context word and ends with the query. */
  lemma EnhanceQueryCases(query: string)
    ensures EnhanceQuery(query) == query <==> ContainsAny(Lower(query), ContextWords)
    ensures EnhanceQuery(query) != query ==> EnhanceQuery(query) == QueryPrefix + query
    ensures ContainsAny(Lower(EnhanceQuery(query)), ContextWords)
    ensures EnhanceQuery(query)[|EnhanceQuery(query)| - |query|..] == query
  {
    if !ContainsAny(Lower(query), ContextWords) {
      assert |QueryPrefix + query| != |query|;
      PrefixedQueryHasContext(query);
    }
  }

  lemma PrefixedQueryHasContext(query: string)
    ensures ContainsAny(Lower(QueryPrefix + query), ContextWords)
  {
    LowerAppend(QueryPrefix, query);
    var low := Lower(QueryPrefix + query);
    assert low[..7] == "medical";
    assert StartsWith(low[0..], ContextWords[0]);
  }

  /** Enhancing twice is enhancing once: an enhanced query already holds "medical". */
  lemma {:induction false} EnhanceQueryIdempotent(query: string)
    ensures EnhanceQuery(EnhanceQuery(query)) == EnhanceQuery(query)
  {
    EnhanceQueryCases(query);
  }

  // ---------------------------------------------------------------------
  // Score filtering of search hits
  // ---------------------------------------------------------------------

  /** One similarity-search hit: a document and its score. Scores are
      compared only with `>=`, as the source compares them. */
  datatype Hit = Hit(doc: Document, score: real)

  /** What the vector store's scored similarity search gives back. */
  datatype SearchOutcome = Hits(hits: seq<Hit>) | SearchError

  /** The hits whose score reaches the threshold, in the order received. */
  function AboveThreshold(hits: seq<Hit>, threshold: real): seq<Hit>
    decreases |hits|
  {
    if hits == [] then []
    else (if hits[0].score >= threshold then [hits[0]] else []) + AboveThreshold(hits[1..], threshold)
  }

  /** The number of hits scoring below the threshold. */
  function CountBelow(hits: seq<Hit>, threshold: real): nat
    decreases |hits|
  {
    if hits == [] then 0 else (if hits[0].score >= threshold then 0 else 1) + CountBelow(hits[1..], threshold)
  }

  function DocsOf(hits: seq<Hit>): (r: seq<Document>)
    ensures |r| == |hits|
    ensures forall i :: 0 <= i < |hits| ==> r[i] == hits[i].doc
  {
    seq(|hits|, i requires 0 <= i < |hits| => hits[i].doc)
  }

  /** Keep the documents of hits scoring at least the threshold, then slice `[:k]`. */
  function FilterResults(hits: seq<Hit>, threshold: real, k: int): seq<Document> {
    SlicePrefix(DocsOf(AboveThreshold(hits, threshold)), k)
  }

  /** The filter keeps exactly the hits that reach the threshold, in order. */
  lemma {:induction false} AboveThresholdExact(hits: seq<Hit>, threshold: real)
    ensures IsSubseq(AboveThreshold(hits, threshold), hits)
    ensures forall h :: h in AboveThreshold(hits, threshold) ==> h in hits && h.score >= threshold
    ensures forall h :: h in hits && h.score >= threshold ==> h in AboveThreshold(hits, threshold)
    ensures |AboveThreshold(hits, threshold)| == |hits| - CountBelow(hits, threshold)
    decreases |hits|
  {
    if hits != [] {
      var rest := AboveThreshold(hits[1..], threshold);
      AboveThresholdExact(hits[1..], threshold);
      assert hits == [hits[0]] + hits[1..];
      if hits[0].score >= threshold {
        SubseqKeep(hits[0], rest, hits[1..]);
      } else {
        assert AboveThreshold(hits, threshold) == rest;
        SubseqSkip(hits[0], rest, hits[1..]);
      }
      forall h | h in hits && h.score >= threshold
        ensures h in AboveThreshold(hits, threshold)
      {
        if h != hits[0] {
          assert h in hits[1..];
        }
      }
    }
  }

  lemma {:induction false} DocsOfSubseq(a: seq<Hit>, b: seq<Hit>)
    requires IsSubseq(a, b)
    ensures IsSubseq(DocsOf(a), DocsOf(b))
    decreases |b|
  {
    if a != [] {
      assert DocsOf(b)[1..] == DocsOf(b[1..]);
      if a[0] == b[0] && IsSubseq(a[1..], b[1..]) {
        DocsOfSubseq(a[1..], b[1..]);
        assert DocsOf(a)[1..] == DocsOf(a[1..]);
      } else {
        DocsOfSubseq(a, b[1..]);
      }
    }
  }

  /** The documents of the first min(k, number passing) hits that reach
      the threshold come back, in the order of the hits, each the document
      of a hit that reached the threshold; when every hit passes, the result
      is the first `k` of them. */
  lemma FilterResultsProperties(hits: seq<Hit>, threshold: real, k: int)
    ensures 0 <= k ==> |FilterResults(hits, threshold, k)| <= k
    ensures 0 <= k ==> var passing := |hits| - CountBelow(hits, threshold);
              |FilterResults(hits, threshold, k)| == if k < passing then k else passing
    ensures forall i :: 0 <= i < |FilterResults(hits, threshold, k)| ==>
              i < |AboveThreshold(hits, threshold)| &&
              FilterResults(hits, threshold, k)[i] == AboveThreshold(hits, threshold)[i].doc
    ensures IsSubseq(FilterResults(hits, threshold, k), DocsOf(hits))
    ensures forall d :: d in FilterResults(hits, threshold, k) ==>
              exists h :: h in hits && h.doc == d && h.score >= threshold
    ensures 0 <= k && (forall h :: h in hits ==> h.score >= threshold) ==>
              FilterResults(hits, threshold, k) == Take(DocsOf(hits), k)
  {
    var kept := AboveThreshold(hits, threshold);
    var r := FilterResults(hits, threshold, k);
    AboveThresholdExact(hits, threshold);
    DocsOfSubseq(kept, hits);
    SubseqPrefix(DocsOf(kept), DocsOf(hits), |r|);
    forall d | d in r
      ensures exists h :: h in hits && h.doc == d && h.score >= threshold
    {
      var i :| 0 <= i < |r| && r[i] == d;
      assert kept[i] in kept;
    }
    if 0 <= k && (forall h :: h in hits ==> h.score >= threshold) {
      AllPass(hits, threshold);
    }
  }

  lemma {:induction false} AllPass(hits: seq<Hit>, threshold: real)
    requires forall h :: h in hits ==> h.score >= threshold
    ensures AboveThreshold(hits, threshold) == hits
    decreases |hits|
  {
    if hits != [] {
      AllPass(hits[1..], threshold);
    }
  }

  // ---------------------------------------------------------------------
  // The record store
  // ---------------------------------------------------------------------

  /** One stored chunk: its generated id, its text and its metadata. */
  datatype Record = Record(id: string, content: string, metadata: Metadata)

  /** One entry of the document list: a filename, its chunk count, its type. */
  datatype DocSummary = DocSummary(filename: MetaValue, chunks: nat, documentType: MetaValue)

  const AddError: string := "Error adding documents to vector store: "
  const DeleteError: string := "Error deleting document: "
  const ClearError: string := "Error clearing documents: "

  predicate DistinctIds(rs: seq<Record>) {
    forall i, j :: 0 <= i < j < |rs| ==> rs[i].id != rs[j].id
  }

  function IdsOf(rs: seq<Record>): set<string> {
    set r | r in rs :: r.id
  }

  /** The records `add_documents` stores: each document with its metadata
      updated by `extra`, under the id generated for it. */
  function NewRecords(docs: seq<Document>, extra: Metadata, ids: seq<string>): (r: seq<Record>)
    requires |ids| == |docs|
    ensures |r| == |docs|
  {
    seq(|docs|, i requires 0 <= i < |docs| => Record(ids[i], docs[i].pageContent, Merge(docs[i].metadata, extra)))
  }

  /** Each new record carries the extra metadata's values, keeps the
      document's other metadata, and has the id generated for it. */
  lemma NewRecordsMetadata(docs: seq<Document>, extra: Metadata, ids: seq<string>, i: nat)
    requires |ids| == |docs| && i < |docs|
    ensures NewRecords(docs, extra, ids)[i].id == ids[i]
    ensures NewRecords(docs, extra, ids)[i].content == docs[i].pageContent
    ensures NewRecords(docs, extra, ids)[i].metadata.Keys == docs[i].metadata.Keys + extra.Keys
    ensures forall key :: key in extra ==> NewRecords(docs, extra, ids)[i].metadata[key] == extra[key]
    ensures forall key :: key in docs[i].metadata && key !in extra ==>
              NewRecords(docs, extra, ids)[i].metadata[key] == docs[i].metadata[key]
  {
  }

  /** Fresh, distinct ids keep the store's ids distinct. */
  lemma AppendFreshDistinct(rs: seq<Record>, docs: seq<Document>, extra: Metadata, ids: seq<string>)
    requires DistinctIds(rs)
    requires |ids| == |docs|
    requires forall i, j :: 0 <= i < j < |ids| ==> ids[i] != ids[j]
    requires forall i :: 0 <= i < |ids| ==> ids[i] !in IdsOf(rs)
    ensures DistinctIds(rs + NewRecords(docs, extra, ids))
  {
    var all := rs + NewRecords(docs, extra, ids);
    forall a, b | 0 <= a < b < |all|
      ensures all[a].id != all[b].id
    {
      if b >= |rs| && a < |rs| {
        assert rs[a] in rs;
        assert all[a].id in IdsOf(rs);
        assert all[b].id == ids[b - |rs|];
      } else if a >= |rs| {
        assert all[a].id == ids[a - |rs|];
        assert all[b].id == ids[b - |rs|];
      }
    }
  }

  // Document listing ------------------------------------------------------

  /** `metadata.get('filename', 'Unknown')`. */
  function FilenameOf(m: Metadata): MetaValue {
    GetOr(m, "filename", Str("Unknown"))
  }

  /** `metadata.get('document_type', 'unknown')`. */
  function TypeOf(m: Metadata): MetaValue {
    GetOr(m, "document_type", Str("unknown"))
  }

  function MetadatasOf(rs: seq<Record>): (ms: seq<Metadata>)
    ensures |ms| == |rs|
    ensures forall i :: 0 <= i < |rs| ==> ms[i] == rs[i].metadata
  {
    seq(|rs|, i requires 0 <= i < |rs| => rs[i].metadata)
  }

  /** The position of `f` among the summaries' filenames, or -1: the dictionary lookup. */
  function IndexOfFile(g: seq<DocSummary>, f: MetaValue): (j: int)
    ensures -1 <= j < |g|
    ensures 0 <= j ==> g[j].filename == f
    ensures j < 0 ==> forall a :: 0 <= a < |g| ==> g[a].filename != f
    decreases |g|
  {
    if g == [] then -1
    else if g[|g| - 1].filename == f then |g| - 1
    else IndexOfFile(g[..|g| - 1], f)
  }

  /** Count one more chunk for the metadata's filename, adding an entry the first time it is seen. */
  function Tally(g: seq<DocSummary>, m: Metadata): seq<DocSummary> {
    var j := IndexOfFile(g, FilenameOf(m));
    if j < 0 then g + [DocSummary(FilenameOf(m), 1, TypeOf(m))]
    else g[j := g[j].(chunks := g[j].chunks + 1)]
  }

  /** The insertion-ordered dictionary the listing loop builds. */
  function Grouped(ms: seq<Metadata>): seq<DocSummary>
    decreases |ms|
  {
    if ms == [] then [] else Tally(Grouped(ms[..|ms| - 1]), ms[|ms| - 1])
  }

  /** The index of the first metadata naming `f`, or -1 when none does. */
  function FirstIndex(ms: seq<Metadata>, f: MetaValue): (i: int)
    ensures -1 <= i < |ms|
    ensures 0 <= i ==> FilenameOf(ms[i]) == f && forall j :: 0 <= j < i ==> FilenameOf(ms[j]) != f
    ensures i < 0 ==> forall j :: 0 <= j < |ms| ==> FilenameOf(ms[j]) != f
    decreases |ms|
  {
    if ms == [] then -1
    else
      var i := FirstIndex(ms[..|ms| - 1], f);
      if 0 <= i then i else if FilenameOf(ms[|ms| - 1]) == f then |ms| - 1 else -1
  }

  /** The number of metadata entries naming `f`. */
  function CountFile(ms: seq<Metadata>, f: MetaValue): nat
    decreases |ms|
  {
    if ms == [] then 0
    else CountFile(ms[..|ms| - 1], f) + (if FilenameOf(ms[|ms| - 1]) == f then 1 else 0)
  }

  function SumChunks(g: seq<DocSummary>): nat
    decreases |g|
  {
    if g == [] then 0 else SumChunks(g[..|g| - 1]) + g[|g| - 1].chunks
  }

  lemma {:induction false} SumChunksBump(g: seq<DocSummary>, j: nat)
    requires j < |g|
    ensures SumChunks(g[j := g[j].(chunks := g[j].chunks + 1)]) == SumChunks(g) + 1
    decreases |g|
  {
    var g' := g[j := g[j].(chunks := g[j].chunks + 1)];
    assert g'[..|g| - 1] == if j == |g| - 1 then g[..|g| - 1] else g[..|g| - 1][j := g[j].(chunks := g[j].chunks + 1)];
    if j < |g| - 1 {
      SumChunksBump(g[..|g| - 1], j);
    }
  }

  lemma SumChunksSnoc(g: seq<DocSummary>, s: DocSummary)
    ensures SumChunks(g + [s]) == SumChunks(g) + s.chunks
  {
    assert (g + [s])[..|g|] == g;
  }

  /** The loop's two steps, creating an entry with no chunks and then
      counting the chunk, make one tally. */
  lemma TallyInTwoSteps(g: seq<DocSummary>, m: Metadata)
    ensures var j := IndexOfFile(g, FilenameOf(m));
            var g1 := if j < 0 then g + [DocSummary(FilenameOf(m), 0, TypeOf(m))] else g;
            var j1 := if j < 0 then |g1| - 1 else j;
            g1[j1 := g1[j1].(chunks := g1[j1].chunks + 1)] == Tally(g, m)
  {
  }

  lemma GroupedPrefixStep(ms: seq<Metadata>, i: nat)
    requires i < |ms|
    ensures Grouped(ms[..i + 1]) == Tally(Grouped(ms[..i]), ms[i])
  {
    assert ms[..i + 1][..i] == ms[..i];
  }

  /** The chunk counts of the listing add up to the number of stored records. */
  lemma {:induction false} GroupedChunkTotal(ms: seq<Metadata>)
    ensures SumChunks(Grouped(ms)) == |ms|
    decreases |ms|
  {
    if ms != [] {
      var init, m := ms[..|ms| - 1], ms[|ms| - 1];
      var g := Grouped(init);
      GroupedChunkTotal(init);
      GroupedLast(ms);
      SumChunksTally(g, m);
    }
  }

  /** Tallying one chunk adds one to the chunk total. */
  lemma SumChunksTally(g: seq<DocSummary>, m: Metadata)
    ensures SumChunks(Tally(g, m)) == SumChunks(g) + 1
  {
    var j := IndexOfFile(g, FilenameOf(m));
    if j < 0 {
      TallyNew(g, m);
      SumChunksSnoc(g, DocSummary(FilenameOf(m), 1, TypeOf(m)));
    } else {
      TallyExisting(g, m);
      SumChunksBump(g, j);
    }
  }

  lemma GroupedLast(ms: seq<Metadata>)
    requires ms != []
    ensures Grouped(ms) == Tally(Grouped(ms[..|ms| - 1]), ms[|ms| - 1])
  {
  }

  lemma GroupedSnoc(ms: seq<Metadata>)
    requires ms != []
    ensures Grouped(ms) == Tally(Grouped(ms[..|ms| - 1]), ms[|ms| - 1])
    ensures forall x :: 0 <= FirstIndex(ms[..|ms| - 1], x) ==> FirstIndex(ms, x) == FirstIndex(ms[..|ms| - 1], x)
    ensures forall i :: 0 <= i < |ms| - 1 ==> ms[..|ms| - 1][i] == ms[i]
  {
  }

  /** Every filename the listing names occurs in the metadata. */
  lemma {:induction false} GroupedOccurs(ms: seq<Metadata>)
    ensures forall a :: 0 <= a < |Grouped(ms)| ==> 0 <= FirstIndex(ms, Grouped(ms)[a].filename)
    decreases |ms|
  {
    if ms != [] {
      var init := ms[..|ms| - 1];
      GroupedOccurs(init);
      GroupedSnoc(ms);
      var g, g' := Grouped(init), Grouped(ms);
      var f := FilenameOf(ms[|ms| - 1]);
      forall a | 0 <= a < |g'|
        ensures 0 <= FirstIndex(ms, g'[a].filename)
      {
        if IndexOfFile(g, f) < 0 {
          if a < |g| {
            assert g'[a] == g[a];
          } else {
            assert g'[a].filename == f;
          }
        } else {
          assert g'[a].filename == g[a].filename;
        }
      }
    }
  }

  /** The listing names each filename once, in order of first appearance. */
  lemma {:induction false} GroupedOrder(ms: seq<Metadata>)
    ensures forall a, b :: 0 <= a < b < |Grouped(ms)| ==>
              FirstIndex(ms, Grouped(ms)[a].filename) < FirstIndex(ms, Grouped(ms)[b].filename)
    decreases |ms|
  {
    if ms != [] {
      var init := ms[..|ms| - 1];
      GroupedOrder(init);
      GroupedOccurs(init);
      if IndexOfFile(Grouped(init), FilenameOf(ms[|ms| - 1])) < 0 {
        GroupedOrderNew(ms);
      } else {
        GroupedOrderExisting(ms);
      }
    }
  }

  predicate FirstSeenOrder(ms: seq<Metadata>) {
    forall a, b :: 0 <= a < b < |Grouped(ms)| ==>
      FirstIndex(ms, Grouped(ms)[a].filename) < FirstIndex(ms, Grouped(ms)[b].filename)
  }

  predicate ListedOccur(ms: seq<Metadata>) {
    forall a :: 0 <= a < |Grouped(ms)| ==> 0 <= FirstIndex(ms, Grouped(ms)[a].filename)
  }

  /** Tallying a listed filename changes no entry's filename. */
  lemma TallyExisting(g: seq<DocSummary>, m: Metadata)
    requires 0 <= IndexOfFile(g, FilenameOf(m))
    ensures var j := IndexOfFile(g, FilenameOf(m));
            Tally(g, m) == g[j := g[j].(chunks := g[j].chunks + 1)]
    ensures |Tally(g, m)| == |g|
    ensures forall a :: 0 <= a < |g| ==>
              Tally(g, m)[a].filename == g[a].filename && Tally(g, m)[a].documentType == g[a].documentType
  {
  }

  /** Tallying an unlisted filename appends its entry. */
  lemma TallyNew(g: seq<DocSummary>, m: Metadata)
    requires IndexOfFile(g, FilenameOf(m)) < 0
    ensures Tally(g, m) == g + [DocSummary(FilenameOf(m), 1, TypeOf(m))]
  {
  }

  /** A filename seen before the last record keeps its first index. */
  lemma FirstIndexKept(ms: seq<Metadata>, x: MetaValue)
    requires ms != [] && 0 <= FirstIndex(ms[..|ms| - 1], x)
    ensures FirstIndex(ms, x) == FirstIndex(ms[..|ms| - 1], x)
  {
  }

  /** A filename first seen in the last record has the last index. */
  lemma FirstIndexNew(ms: seq<Metadata>)
    requires ms != [] && FirstIndex(ms[..|ms| - 1], FilenameOf(ms[|ms| - 1])) < 0
    ensures FirstIndex(ms, FilenameOf(ms[|ms| - 1])) == |ms| - 1
  {
  }

  /** The order step when the last record brings a new filename. */
  lemma GroupedOrderNew(ms: seq<Metadata>)
    requires ms != []
    requires FirstSeenOrder(ms[..|ms| - 1]) && ListedOccur(ms[..|ms| - 1])
    requires IndexOfFile(Grouped(ms[..|ms| - 1]), FilenameOf(ms[|ms| - 1])) < 0
    ensures FirstSeenOrder(ms)
  {
    var init := ms[..|ms| - 1];
    var g, g' := Grouped(init), Grouped(ms);
    NewEntryKeepsOthers(ms);
    forall a, b | 0 <= a < b < |g'|
      ensures FirstIndex(ms, g'[a].filename) < FirstIndex(ms, g'[b].filename)
    {
      assert g'[a] == g[a];
      if b < |g| {
        assert g'[b] == g[b];
        assert FirstIndex(init, g[a].filename) < FirstIndex(init, g[b].filename);
      } else {
        assert FirstIndex(ms, g'[b].filename) == |ms| - 1;
      }
    }
  }

  /** When the last record brings a new filename, the earlier entries and
      their first indices stay, and the new entry is last with the last index. */
  lemma NewEntryKeepsOthers(ms: seq<Metadata>)
    requires ms != [] && ListedOccur(ms[..|ms| - 1])
    requires IndexOfFile(Grouped(ms[..|ms| - 1]), FilenameOf(ms[|ms| - 1])) < 0
    ensures var g, g' := Grouped(ms[..|ms| - 1]), Grouped(ms);
            |g'| == |g| + 1 && FirstIndex(ms, g'[|g|].filename) == |ms| - 1 &&
            forall a :: 0 <= a < |g| ==>
              g'[a] == g[a] && FirstIndex(ms, g'[a].filename) == FirstIndex(ms[..|ms| - 1], g[a].filename) &&
              FirstIndex(ms[..|ms| - 1], g[a].filename) < |ms| - 1
  {
    var init, m := ms[..|ms| - 1], ms[|ms| - 1];
    var g, g' := Grouped(init), Grouped(ms);
    GroupedLast(ms);
    TallyNew(g, m);
    AbsentFromListing(init, FilenameOf(m));
    FirstIndexNew(ms);
    forall a | 0 <= a < |g|
      ensures g'[a] == g[a] && FirstIndex(ms, g'[a].filename) == FirstIndex(init, g[a].filename)
    {
      FirstIndexKept(ms, g[a].filename);
    }
  }

  /** The order step when the last record's filename is already listed. */
  lemma GroupedOrderExisting(ms: seq<Metadata>)
    requires ms != []
    requires FirstSeenOrder(ms[..|ms| - 1]) && ListedOccur(ms[..|ms| - 1])
    requires 0 <= IndexOfFile(Grouped(ms[..|ms| - 1]), FilenameOf(ms[|ms| - 1]))
    ensures FirstSeenOrder(ms)
  {
    var init, m := ms[..|ms| - 1], ms[|ms| - 1];
    var g, g' := Grouped(init), Grouped(ms);
    TallyExisting(g, m);
    forall a, b | 0 <= a < b < |g'|
      ensures FirstIndex(ms, g'[a].filename) < FirstIndex(ms, g'[b].filename)
    {
      assert g'[a].filename == g[a].filename && g'[b].filename == g[b].filename;
      FirstIndexKept(ms, g[a].filename);
      FirstIndexKept(ms, g[b].filename);
    }
  }

  /** A filename missing from the listing occurs in no record. */
  lemma AbsentFromListing(ms: seq<Metadata>, f: MetaValue)
    requires forall a :: 0 <= a < |Grouped(ms)| ==> Grouped(ms)[a].filename != f
    ensures FirstIndex(ms, f) < 0
  {
    GroupedCovers(ms);
  }

  /** Every filename that occurs is listed. */
  lemma {:induction false} GroupedCovers(ms: seq<Metadata>)
    ensures forall f :: 0 <= FirstIndex(ms, f) ==>
              exists a :: 0 <= a < |Grouped(ms)| && Grouped(ms)[a].filename == f
    decreases |ms|
  {
    if ms != [] {
      var init, m := ms[..|ms| - 1], ms[|ms| - 1];
      GroupedCovers(init);
      GroupedSnoc(ms);
      var g, g' := Grouped(init), Grouped(ms);
      var f := FilenameOf(m);
      var j := IndexOfFile(g, f);
      forall x | 0 <= FirstIndex(ms, x)
        ensures exists a :: 0 <= a < |g'| && g'[a].filename == x
      {
        if 0 <= FirstIndex(init, x) {
          var a :| 0 <= a < |g| && g[a].filename == x;
          assert g'[a].filename == x;
        } else {
          assert x == f;
          if j < 0 {
            assert g'[|g|].filename == x;
          } else {
            assert g'[j].filename == x;
          }
        }
      }
    }
  }

  /** Each entry counts exactly the records carrying its filename. */
  lemma {:induction false} GroupedCounts(ms: seq<Metadata>)
    ensures forall a :: 0 <= a < |Grouped(ms)| ==> Grouped(ms)[a].chunks == CountFile(ms, Grouped(ms)[a].filename)
    decreases |ms|
  {
    if ms != [] {
      var init, m := ms[..|ms| - 1], ms[|ms| - 1];
      GroupedCounts(init);
      GroupedOrder(init);
      GroupedOccurs(init);
      GroupedSnoc(ms);
      var g, g' := Grouped(init), Grouped(ms);
      var f := FilenameOf(m);
      var j := IndexOfFile(g, f);
      if j < 0 {
        CountFileAbsent(init, f, g);
        forall a | 0 <= a < |g'|
          ensures g'[a].chunks == CountFile(ms, g'[a].filename)
        {
          if a < |g| {
            assert g'[a] == g[a];
          }
        }
      } else {
        forall a | 0 <= a < |g'|
          ensures g'[a].chunks == CountFile(ms, g'[a].filename)
        {
          if a != j {
            assert g'[a] == g[a];
            assert FirstIndex(init, g[a].filename) != FirstIndex(init, g[j].filename);
          }
        }
      }
    }
  }

  /** A filename absent from the listing occurs in no record. */
  lemma CountFileAbsent(ms: seq<Metadata>, f: MetaValue, g: seq<DocSummary>)
    requires g == Grouped(ms)
    requires forall a :: 0 <= a < |g| ==> g[a].filename != f
    ensures CountFile(ms, f) == 0
  {
    GroupedCovers(ms);
    CountFileZero(ms, f);
  }

  /** Each entry takes its type from the first record carrying its filename. */
  lemma {:induction false} GroupedTypes(ms: seq<Metadata>)
    ensures forall a :: 0 <= a < |Grouped(ms)| ==>
              (0 <= FirstIndex(ms, Grouped(ms)[a].filename) &&
               Grouped(ms)[a].documentType == TypeOf(ms[FirstIndex(ms, Grouped(ms)[a].filename)]))
    decreases |ms|
  {
    if ms != [] {
      var init, m := ms[..|ms| - 1], ms[|ms| - 1];
      GroupedTypes(init);
      var g, g' := Grouped(init), Grouped(ms);
      var f := FilenameOf(m);
      assert g' == Tally(g, m);
      if IndexOfFile(g, f) < 0 {
        TallyNew(g, m);
        AbsentFromListing(init, f);
        forall a | 0 <= a < |g'|
          ensures 0 <= FirstIndex(ms, g'[a].filename) && g'[a].documentType == TypeOf(ms[FirstIndex(ms, g'[a].filename)])
        {
          if a < |g| {
            assert g'[a] == g[a];
            FirstIndexKept(ms, g[a].filename);
            assert ms[FirstIndex(init, g[a].filename)] == init[FirstIndex(init, g[a].filename)];
          } else {
            assert FirstIndex(ms, f) == |init|;
          }
        }
      } else {
        TallyExisting(g, m);
        forall a | 0 <= a < |g'|
          ensures 0 <= FirstIndex(ms, g'[a].filename) && g'[a].documentType == TypeOf(ms[FirstIndex(ms, g'[a].filename)])
        {
          FirstIndexKept(ms, g[a].filename);
          assert ms[FirstIndex(init, g[a].filename)] == init[FirstIndex(init, g[a].filename)];
        }
      }
    }
  }

  lemma {:induction false} CountFileZero(ms: seq<Metadata>, f: MetaValue)
    requires FirstIndex(ms, f) < 0 || forall i :: 0 <= i < |ms| ==> FilenameOf(ms[i]) != f
    ensures CountFile(ms, f) == 0
    decreases |ms|
  {
    if ms != [] {
      assert forall i :: 0 <= i < |ms| - 1 ==> ms[..|ms| - 1][i] == ms[i];
      CountFileZero(ms[..|ms| - 1], f);
    }
  }

  // Deletion by filename --------------------------------------------------

  /** `metadata.get('filename') == filename`: a record without the key never matches. */
  predicate HasFilename(r: Record, filename: string) {
    Get(r.metadata, "filename") == Some(Str(filename))
  }

  /** The records that do not belong to `filename`, in their order. */
  function WithoutFile(rs: seq<Record>, filename: string): seq<Record>
    decreases |rs|
  {
    if rs == [] then []
    else (if HasFilename(rs[0], filename) then [] else [rs[0]]) + WithoutFile(rs[1..], filename)
  }

  /** The ids the deletion loop collects, in record order. */
  function MatchingIds(rs: seq<Record>, filename: string): seq<string>
    decreases |rs|
  {
    if rs == [] then []
    else MatchingIds(rs[..|rs| - 1], filename) + (if HasFilename(rs[|rs| - 1], filename) then [rs[|rs| - 1].id] else [])
  }

  /** The vector store's delete by ids. */
  function WithoutIds(rs: seq<Record>, ids: seq<string>): seq<Record>
    decreases |rs|
  {
    if rs == [] then []
    else (if rs[0].id in ids then [] else [rs[0]]) + WithoutIds(rs[1..], ids)
  }

  function CountMatching(rs: seq<Record>, filename: string): nat
    decreases |rs|
  {
    if rs == [] then 0 else (if HasFilename(rs[0], filename) then 1 else 0) + CountMatching(rs[1..], filename)
  }

  lemma {:induction false} MatchingIdsMembers(rs: seq<Record>, filename: string)
    ensures forall id :: id in MatchingIds(rs, filename) <==>
              exists i :: 0 <= i < |rs| && rs[i].id == id && HasFilename(rs[i], filename)
    decreases |rs|
  {
    if rs != [] {
      var init := rs[..|rs| - 1];
      MatchingIdsMembers(init, filename);
      assert forall i :: 0 <= i < |init| ==> init[i] == rs[i];
      forall id | exists i :: 0 <= i < |rs| && rs[i].id == id && HasFilename(rs[i], filename)
        ensures id in MatchingIds(rs, filename)
      {
        var i :| 0 <= i < |rs| && rs[i].id == id && HasFilename(rs[i], filename);
        if i < |init| {
          assert init[i].id == id && HasFilename(init[i], filename);
        }
      }
    }
  }

  lemma {:induction false} WithoutIdsAgrees(rs: seq<Record>, ids: seq<string>, filename: string)
    requires forall r :: r in rs ==> (r.id in ids <==> HasFilename(r, filename))
    ensures WithoutIds(rs, ids) == WithoutFile(rs, filename)
    decreases |rs|
  {
    if rs != [] {
      assert forall r :: r in rs[1..] ==> r in rs;
      WithoutIdsAgrees(rs[1..], ids, filename);
    }
  }

  /** With distinct ids, deleting the collected ids deletes exactly the
      records naming the file. */
  lemma DeleteByIdsIsDeleteByName(rs: seq<Record>, filename: string)
    requires DistinctIds(rs)
    ensures WithoutIds(rs, MatchingIds(rs, filename)) == WithoutFile(rs, filename)
  {
    MatchingIdsMembers(rs, filename);
    forall r | r in rs
      ensures r.id in MatchingIds(rs, filename) <==> HasFilename(r, filename)
    {
      var k :| 0 <= k < |rs| && rs[k] == r;
      if r.id in MatchingIds(rs, filename) {
        var i :| 0 <= i < |rs| && rs[i].id == r.id && HasFilename(rs[i], filename);
        assert i == k;
      }
    }
    WithoutIdsAgrees(rs, MatchingIds(rs, filename), filename);
  }

  /** Deleting a file keeps, in order, exactly the records of other files,
      and removes as many records as named the file. */
  lemma {:induction false} WithoutFileExact(rs: seq<Record>, filename: string)
    ensures IsSubseq(WithoutFile(rs, filename), rs)
    ensures forall r :: r in WithoutFile(rs, filename) ==> r in rs && !HasFilename(r, filename)
    ensures forall r :: r in rs && !HasFilename(r, filename) ==> r in WithoutFile(rs, filename)
    ensures |WithoutFile(rs, filename)| == |rs| - CountMatching(rs, filename)
    decreases |rs|
  {
    if rs != [] {
      var rest := WithoutFile(rs[1..], filename);
      WithoutFileExact(rs[1..], filename);
      assert rs == [rs[0]] + rs[1..];
      if !HasFilename(rs[0], filename) {
        SubseqKeep(rs[0], rest, rs[1..]);
      } else {
        assert WithoutFile(rs, filename) == rest;
        SubseqSkip(rs[0], rest, rs[1..]);
      }
      forall r | r in rs && !HasFilename(r, filename)
        ensures r in WithoutFile(rs, filename)
      {
        if r != rs[0] {
          assert r in rs[1..];
        }
      }
    }
  }

  /** Deleting a filename that no record carries changes nothing. */
  lemma {:induction false} WithoutFileNoMatch(rs: seq<Record>, filename: string)
    requires forall r :: r in rs ==> !HasFilename(r, filename)
    ensures WithoutFile(rs, filename) == rs
    decreases |rs|
  {
    if rs != [] {
      assert forall r :: r in rs[1..] ==> r in rs;
      WithoutFileNoMatch(rs[1..], filename);
    }
  }

  /** Deleting the same file twice is deleting it once. */
  lemma WithoutFileIdempotent(rs: seq<Record>, filename: string)
    ensures WithoutFile(WithoutFile(rs, filename), filename) == WithoutFile(rs, filename)
  {
    WithoutFileExact(rs, filename);
    WithoutFileNoMatch(WithoutFile(rs, filename), filename);
  }

  lemma {:induction false} WithoutFileDistinct(rs: seq<Record>, filename: string)
    requires DistinctIds(rs)
    ensures DistinctIds(WithoutFile(rs, filename))
    decreases |rs|
  {
    if rs != [] {
      DistinctTail(rs);
      WithoutFileDistinct(rs[1..], filename);
      if !HasFilename(rs[0], filename) {
        var rest := WithoutFile(rs[1..], filename);
        WithoutFileExact(rs[1..], filename);
        DistinctCons(rs[0], rest);
      }
    }
  }

  /** The records after the first of a store with distinct ids have distinct ids,
      none of them the first's. */
  lemma DistinctTail(rs: seq<Record>)
    requires DistinctIds(rs) && rs != []
    ensures DistinctIds(rs[1..])
    ensures forall r :: r in rs[1..] ==> r.id != rs[0].id
  {
    forall r | r in rs[1..]
      ensures r.id != rs[0].id
    {
      var k :| 0 <= k < |rs[1..]| && rs[1..][k] == r;
      assert rs[k + 1] == r;
    }
  }

  lemma DistinctCons(x: Record, rest: seq<Record>)
    requires DistinctIds(rest)
    requires forall r :: r in rest ==> r.id != x.id
    ensures DistinctIds([x] + rest)
  {
    var w := [x] + rest;
    forall i, j | 0 <= i < j < |w|
      ensures w[i].id != w[j].id
    {
      if i == 0 {
        assert w[j] in rest;
      } else {
        assert w[i] == rest[i - 1] && w[j] == rest[j - 1];
      }
    }
  }

  /** After deleting a file it is no longer listed, unless it is the name
      "Unknown" that the listing gives to records with no filename at all. */
  lemma DeletedFileNotListed(rs: seq<Record>, filename: string)
    ensures forall a :: (0 <= a < |Grouped(MetadatasOf(WithoutFile(rs, filename)))| &&
                         Grouped(MetadatasOf(WithoutFile(rs, filename)))[a].filename == Str(filename)) ==>
              filename == "Unknown" &&
              exists r :: r in WithoutFile(rs, filename) && "filename" !in r.metadata
  {
    var w := WithoutFile(rs, filename);
    var ms := MetadatasOf(w);
    GroupedOrder(ms);
    GroupedOccurs(ms);
    WithoutFileExact(rs, filename);
    forall a | 0 <= a < |Grouped(ms)| && Grouped(ms)[a].filename == Str(filename)
      ensures filename == "Unknown" && exists r :: r in w && "filename" !in r.metadata
    {
      var i := FirstIndex(ms, Str(filename));
      assert w[i] in w;
      assert FilenameOf(w[i].metadata) == Str(filename);
    }
  }

  /** The loop of `add_documents` that updates every document's metadata
      with `metadata` when it is non-empty, paired with the ids drawn for
      the documents. */
  method StampRecords(documents: seq<Document>, metadata: Metadata, ids: seq<string>) returns (merged: seq<Record>)
    requires |ids| == |documents|
    ensures merged == NewRecords(documents, metadata, ids)
  {
    merged := [];
    var i := 0;
    while i < |documents|
      invariant 0 <= i <= |documents|
      invariant merged == NewRecords(documents[..i], metadata, ids[..i])
    {
      var md := documents[i].metadata;
      if |metadata| > 0 {
        md := Merge(md, metadata);
      } else {
        MergeNothing(md, metadata);
      }
      NewRecordsSnoc(documents, metadata, ids, i);
      merged := merged + [Record(ids[i], documents[i].pageContent, md)];
      i := i + 1;
    }
    assert documents[..i] == documents && ids[..i] == ids;
  }

  lemma NewRecordsSnoc(documents: seq<Document>, metadata: Metadata, ids: seq<string>, i: nat)
    requires |ids| == |documents| && i < |documents|
    ensures NewRecords(documents[..i + 1], metadata, ids[..i + 1]) ==
            NewRecords(documents[..i], metadata, ids[..i]) +
            [Record(ids[i], documents[i].pageContent, Merge(documents[i].metadata, metadata))]
  {
  }

  /** The vector store holding the uploaded chunks, as a sequence of
      records in collection order. A `fault` argument stands for the
      storage backend raising, with the text of its error. */
  class RagSystem {
    var records: seq<Record>

    ghost predicate Valid()
      reads this
    {
      DistinctIds(records)
    }

    /** Opens a persisted collection holding `stored`. */
    constructor (stored: seq<Record>)
      requires DistinctIds(stored)
      ensures Valid() && records == stored
    {
      records := stored;
    }

    /** `collection.count()`, or 0 when reading the collection raises. */
    function DocumentCount(readFault: bool): (n: nat)
      reads this
      ensures readFault ==> n == 0
      ensures !readFault ==> n == |records|
    {
      if readFault then 0 else |records|
    }

    /** Retrieval for one query: the black-box search sees the enhanced
        query; at most `k` documents come back, each from a hit scoring at
        least the threshold, in the order of the hits; a failing search gives
        no documents. */
    function SearchSimilarDocuments(query: string, k: int, threshold: real,
                                    index: (seq<Record>, string, int) -> SearchOutcome): (r: seq<Document>)
      reads this
      ensures index(records, EnhanceQuery(query), k).SearchError? ==> r == []
      ensures 0 <= k ==> |r| <= k
      ensures index(records, EnhanceQuery(query), k).Hits? ==>
                var hits := index(records, EnhanceQuery(query), k).hits;
                IsSubseq(r, DocsOf(hits)) &&
                forall d :: d in r ==> exists h :: h in hits && h.doc == d && h.score >= threshold
      ensures index(records, EnhanceQuery(query), k).Hits? && 0 <= k ==>
                var passing := |index(records, EnhanceQuery(query), k).hits| -
                               CountBelow(index(records, EnhanceQuery(query), k).hits, threshold);
                |r| == if k < passing then k else passing
      ensures index(records, EnhanceQuery(query), k).Hits? ==>
                var passed := AboveThreshold(index(records, EnhanceQuery(query), k).hits, threshold);
                forall i :: 0 <= i < |r| ==> i < |passed| && r[i] == passed[i].doc
    {
      match index(records, EnhanceQuery(query), k)
      case SearchError => []
      case Hits(hits) =>
        FilterResultsProperties(hits, threshold, k);
        FilterResults(hits, threshold, k)
    }

    /** Stores every document under its fresh id with `metadata` merged
        into its own; a backend fault stores nothing and raises. */
    method AddDocuments(documents: seq<Document>, metadata: Metadata, ids: seq<string>, fault: Option<string>)
      returns (r: Outcome)
      requires Valid()
      requires |ids| == |documents|
      requires forall i, j :: 0 <= i < j < |ids| ==> ids[i] != ids[j]
      requires forall i :: 0 <= i < |ids| ==> ids[i] !in IdsOf(records)
      modifies this
      ensures Valid()
      ensures fault.Some? ==> r == Raised(AddError + fault.value) && records == old(records)
      ensures fault.None? ==> r == Done && records == old(records) + NewRecords(documents, metadata, ids)
    {
      var merged := StampRecords(documents, metadata, ids);
      if fault.Some? {
        return Raised(AddError + fault.value);
      }
      AppendFreshDistinct(records, documents, metadata, ids);
      records := records + merged;
      r := Done;
    }

    /** One listing entry per filename in order of first appearance, or
        an empty list when reading the collection raises. */
    method GetDocumentList(readFault: bool) returns (list: seq<DocSummary>)
      ensures readFault ==> list == []
      ensures !readFault ==> list == Grouped(MetadatasOf(records))
      ensures !readFault ==> SumChunks(list) == DocumentCount(false)
    {
      if readFault {
        return [];
      }
      ghost var ms := MetadatasOf(records);
      list := [];
      var i := 0;
      while i < |records|
        invariant 0 <= i <= |records|
        invariant list == Grouped(ms[..i])
      {
        var md := records[i].metadata;
        var filename := FilenameOf(md);
        var j := IndexOfFile(list, filename);
        ghost var before := list;
        if j < 0 {
          list := list + [DocSummary(filename, 0, TypeOf(md))];
          j := |list| - 1;
        }
        list := list[j := list[j].(chunks := list[j].chunks + 1)];
        assert list == Tally(before, md) by {
          TallyInTwoSteps(before, md);
        }
        assert md == ms[i];
        GroupedPrefixStep(ms, i);
        i := i + 1;
      }
      assert ms[..|records|] == ms;
      GroupedChunkTotal(ms);
    }

    /** Removes exactly the records whose metadata filename is `filename`;
        a backend fault removes nothing and raises. */
    method DeleteDocument(filename: string, fault: Option<string>) returns (r: Outcome)
      requires Valid()
      modifies this
      ensures Valid()
      ensures fault.Some? ==> r == Raised(DeleteError + fault.value) && records == old(records)
      ensures fault.None? ==> r == Done && records == WithoutFile(old(records), filename)
    {
      if fault.Some? {
        return Raised(DeleteError + fault.value);
      }
      var idsToDelete: seq<string> := [];
      var i := 0;
      while i < |records|
        invariant 0 <= i <= |records|
        invariant idsToDelete == MatchingIds(records[..i], filename)
      {
        if Get(records[i].metadata, "filename") == Some(Str(filename)) {
          idsToDelete := idsToDelete + [records[i].id];
        }
        assert records[..i + 1][..i] == records[..i];
        i := i + 1;
      }
      assert records[..|records|] == records;
      DeleteByIdsIsDeleteByName(records, filename);
      WithoutFileDistinct(records, filename);
      if |idsToDelete| > 0 {
        records := WithoutIds(records, idsToDelete);
      } else {
        MatchingIdsMembers(records, filename);
        forall rec | rec in records
          ensures !HasFilename(rec, filename)
        {
          var k :| 0 <= k < |records| && records[k] == rec;
          assert HasFilename(rec, filename) ==> rec.id in idsToDelete;
        }
        WithoutFileNoMatch(records, filename);
      }
      r := Done;
    }

    /** Empties the store; a backend fault leaves it as it was and raises. */
    method ClearAllDocuments(fault: Option<string>) returns (r: Outcome)
      modifies this
      ensures fault.Some? ==> r == Raised(ClearError + fault.value) && records == old(records)
      ensures fault.None? ==> r == Done && records == [] && DocumentCount(false) == 0
    {
      if fault.Some? {
        return Raised(ClearError + fault.value);
      }
      records := [];
      r := Done;
    }
  }
}
