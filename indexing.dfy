/** The indexing pipeline: clear the persisted collection, load both
    corpora, split them into chunks and add the chunks. The vector store is
    modelled by the sequence of entries of its one collection; embeddings
    are not modelled. The splitter is a parameter. */
module Indexing {
  import opened Documents
  import opened Config
  import opened Loading

  /** The result record of a rebuild. */
  datatype Summary = Summary(
    codeDocs: nat,
    pdfDocs: nat,
    totalDocs: nat,
    chunksIndexed: nat,
    chromaDir: string,
    collection: string,
    embedModel: string,
    llmModel: string)

  /** The persisted collection behind every store handle. Re-opening a
      handle does not change it, so one object stands for all handles. */
  class Collection {
    var entries: seq<Doc>
    /** How many add calls the collection has received. */
    ghost var addCalls: nat

    constructor (initial: seq<Doc>)
      ensures entries == initial && addCalls == 0
    {
      entries := initial;
      addCalls := 0;
    }

    /** Deletes the collection. The call may raise (the caller swallows
        the exception), in which case nothing is removed; `deleted` says
        which happened. */
    method DeleteCollection() returns (deleted: bool)
      modifies this
      ensures entries == if deleted then [] else old(entries)
      ensures addCalls == old(addCalls)
    {
      deleted := *;
      if deleted {
        entries := [];
      }
    }

    /** Appends chunks to the collection. */
    method AddDocuments(chunks: seq<Doc>)
      modifies this
      ensures entries == old(entries) + chunks
      ensures addCalls == old(addCalls) + 1
    {
      entries := entries + chunks;
      addCalls := addCalls + 1;
    }
  }

  /** The collection's entries after a rebuild that indexes `chunks`, from
      `prior`, when the delete did or did not go through. */
  function StoreAfterReindex(prior: seq<Doc>, deleted: bool, chunks: seq<Doc>): seq<Doc>
  {
    (if deleted then [] else prior) + chunks
  }

  /** The new chunks always end the collection; a delete that went through
      leaves nothing else, and a failed one leaves the old entries in front. */
  lemma StoreAfterReindexShape(prior: seq<Doc>, deleted: bool, chunks: seq<Doc>)
    ensures var r := StoreAfterReindex(prior, deleted, chunks);
      && |chunks| <= |r| && r[|r| - |chunks|..] == chunks
      && (deleted ==> r == chunks)
      && (!deleted ==> |prior| <= |r| && r[..|prior|] == prior)
  {
  }

  /** The summary of a rebuild from its document lists and chunks. */
  function Summarize(code: seq<Doc>, pdf: seq<Doc>, chunks: seq<Doc>, settings: Settings): (s: Summary)
    ensures s.totalDocs == s.codeDocs + s.pdfDocs
    ensures s.codeDocs == |code| && s.pdfDocs == |pdf| && s.chunksIndexed == |chunks|
    ensures s.collection == CollectionName
  {
    var all := code + pdf;
    Summary(|code|, |pdf|, |all|, |chunks|, settings.chromaDir, CollectionName,
            settings.embedModel, settings.llmModel)
  }

  /** Rebuilds the collection. The code documents come before the PDF
      documents; chunks are added only when there are any. A failed delete
      is swallowed, so the new chunks are then appended to the old entries. */
  method ReindexAll(
    store: Collection,
    settings: Settings,
    codeRootExists: bool, loadCode: string -> seq<Doc>,
    pdfRootExists: bool, pdfNames: seq<string>, loadPdf: string -> seq<Doc>,
    split: seq<Doc> -> seq<Doc>)
    returns (summary: Summary, ghost deleted: bool)
    modifies store
    ensures var code := CodeDocs(codeRootExists, loadCode);
      var pdf := PdfDocsOf(pdfRootExists, settings.pdfRoot, pdfNames, loadPdf);
      var chunks := split(code + pdf);
      && store.entries == StoreAfterReindex(old(store.entries), deleted, chunks)
      && store.addCalls == old(store.addCalls) + (if chunks == [] then 0 else 1)
      && summary == Summarize(code, pdf, chunks, settings)
  {
    deleted := store.DeleteCollection();

    var codeDocs := LoadCodeDocuments(codeRootExists, loadCode);
    var pdfDocs := LoadPdfDocuments(pdfRootExists, settings.pdfRoot, pdfNames, loadPdf);

    var allDocs := codeDocs + pdfDocs;
    var chunks := split(allDocs);

    if chunks != [] {
      store.AddDocuments(chunks);
    }
    summary := Summarize(codeDocs, pdfDocs, chunks, settings);
  }

  /** The entries after a series of rebuilds of the same corpus, one per
      delete outcome in `outcomes`, oldest first. */
  function AfterRebuilds(prior: seq<Doc>, outcomes: seq<bool>, chunks: seq<Doc>): seq<Doc> {
    if outcomes == [] then prior
    else StoreAfterReindex(AfterRebuilds(prior, outcomes[..|outcomes| - 1], chunks),
                           outcomes[|outcomes| - 1], chunks)
  }

  /** `n` copies of `chunks`. */
  function Repeat(chunks: seq<Doc>, n: nat): seq<Doc> {
    if n == 0 then [] else Repeat(chunks, n - 1) + chunks
  }

  /** How many of the rebuilds' chunk batches are still in the collection:
      the last one, and one more per failed delete back to the last delete
      that went through. */
  function Surviving(outcomes: seq<bool>): nat {
    if outcomes == [] then 0
    else if outcomes[|outcomes| - 1] then 1
    else 1 + Surviving(outcomes[..|outcomes| - 1])
  }

  /** After a series of rebuilds, the collection holds the batches of the
      rebuilds since the last successful delete, preceded by the original
      entries if no delete ever went through. */
  lemma {:induction false} RebuildsAccumulate(prior: seq<Doc>, outcomes: seq<bool>, chunks: seq<Doc>)
    ensures AfterRebuilds(prior, outcomes, chunks)
         == (if true in outcomes then [] else prior) + Repeat(chunks, Surviving(outcomes))
  {
    if outcomes != [] {
      var init := outcomes[..|outcomes| - 1];
      var last := outcomes[|outcomes| - 1];
      assert outcomes == init + [last];
      if last {
        assert true in outcomes;
        assert Repeat(chunks, 1) == chunks;
      } else {
        RebuildsAccumulate(prior, init, chunks);
        assert (true in outcomes) == (true in init);
        var pre := if true in init then [] else prior;
        calc {
          AfterRebuilds(prior, outcomes, chunks);
          AfterRebuilds(prior, init, chunks) + chunks;
          pre + Repeat(chunks, Surviving(init)) + chunks;
          pre + Repeat(chunks, Surviving(outcomes));
        }
      }
    }
  }

  /** A rebuild whose delete went through is a full rebuild: the result does
      not depend on what was indexed before. */
  lemma FullRebuildIdempotent(prior1: seq<Doc>, prior2: seq<Doc>, outcomes: seq<bool>, chunks: seq<Doc>)
    requires outcomes != [] && outcomes[|outcomes| - 1]
    ensures AfterRebuilds(prior1, outcomes, chunks) == chunks
    ensures AfterRebuilds(prior1, outcomes, chunks) == AfterRebuilds(prior2, outcomes, chunks)
  {
  }

  /** A rebuild whose delete failed is not a full rebuild: the old entries
      stay and the new chunks are appended after them. */
  lemma FailedDeleteKeepsStaleEntries(prior: seq<Doc>, chunks: seq<Doc>)
    requires prior != []
    ensures StoreAfterReindex(prior, false, chunks) != chunks
    ensures |StoreAfterReindex(prior, false, chunks)| == |prior| + |chunks|
  {
  }
}
