/** The RAGSystem object: its cache of opened collections and the store
    behind it, with the operations that read and change them. */
module RagService {
  import opened PyStr
  import opened Results
  import opened Slicing
  import opened RagStore
  import opened RagSummary

  /** A collection as the store holds it: the three lists create_vector_db
      writes. */
  datatype Collection = Collection(documents: seq<string>, metadatas: seq<Metadata>, ids: seq<string>)

  const EmptyCollection: Collection := Collection([], [], [])

  /** The errors the operations raise, by cause. */
  datatype Failure =
    | ClientNotInitialised
    | CollectionNotFound(sessionId: string)
    | ZeroBatch
    | BatchNotAdded(batch: nat)
    | NothingToSummarize

  /** An exception leaving an operation that reports progress: its cause,
      and the values the progress callback received before it. */
  datatype Raised = Raised(failure: Failure, reported: seq<int>)

  /** f"documents_{session_id}" */
  function CollectionName(sessionId: string): (name: string)
    ensures |name| == |"documents_"| + |sessionId| && name[|"documents_"|..] == sessionId
  {
    "documents_" + sessionId
  }

  /** Each session has a collection of its own. */
  lemma CollectionNameInjective(a: string, b: string)
    requires CollectionName(a) == CollectionName(b)
    ensures a == b
  {
    assert a == CollectionName(a)[|"documents_"|..];
  }

  /** The chunks create_vector_db stores are read back in full: none of
      them is blank, so the non-blank filter of _fetch_all_chunks keeps them
      all, in order. */
  lemma StoredChunksReadBack(session: string, pages: seq<Page>, split: string -> seq<string>,
                             docs: seq<string>, metadatas: seq<Metadata>, ids: seq<string>)
    requires Columns(Ingested(session, pages, split), docs, metadatas, ids)
    ensures KeptDocs(docs) == docs
  {
    var rs := Ingested(session, pages, split);
    IngestedSound(session, pages, split);
    forall i | 0 <= i < |docs| ensures !IsBlank(docs[i]) {
      assert FromPages(session, pages, split, rs[i]);
    }
    KeptDocsMembers(docs);
  }

  /** What the batches add up to: every collected chunk when the batch
      size is positive, nothing when it is negative. */
  lemma BatchesWritten(chunks: seq<string>, metadatas: seq<Metadata>, ids: seq<string>, batchSize: int,
                       batched: Batched)
    requires batchSize < 0 ==> batched == Batched([], [], [], [])
    requires batchSize > 0 ==>
      && batched.chunkBatches == Slices(chunks, batchSize)
      && batched.metadataBatches == Slices(metadatas, batchSize)
      && batched.idBatches == Slices(ids, batchSize)
    ensures var written := Collection(Flatten(batched.chunkBatches), Flatten(batched.metadataBatches),
                                      Flatten(batched.idBatches));
      && (batchSize > 0 ==> written == Collection(chunks, metadatas, ids))
      && (batchSize < 0 ==> written == EmptyCollection)
  {
    if batchSize > 0 {
      SlicesFlatten(chunks, batchSize);
      SlicesFlatten(metadatas, batchSize);
      SlicesFlatten(ids, batchSize);
    }
  }

  /** With a positive batch size, the collection written holds the
      ingested records column by column, and the progress is that of the
      pages followed by that of the batches. */
  lemma PositiveBatchesWritten(session: string, pages: seq<Page>, split: string -> seq<string>,
                               chunks: seq<string>, metadatas: seq<Metadata>, ids: seq<string>,
                               progress: seq<int>, batchSize: int, batched: Batched)
    requires Columns(Ingested(session, pages, split), chunks, metadatas, ids)
    requires progress == IngestProgressList(|pages|) && batchSize > 0
    requires batched == Batched(Slices(chunks, batchSize), Slices(metadatas, batchSize), Slices(ids, batchSize),
                                BatchProgressList(|Slices(chunks, batchSize)|, batchSize, |chunks|))
    ensures var written := Collection(Flatten(batched.chunkBatches), Flatten(batched.metadataBatches),
                                      Flatten(batched.idBatches));
      && Columns(Ingested(session, pages, split), written.documents, written.metadatas, written.ids)
      && var rs := Ingested(session, pages, split);
      && progress + batched.progress + [100]
         == IngestProgressList(|pages|) + BatchProgressList(|Slices(rs, batchSize)|, batchSize, |rs|) + [100]
  {
    BatchesWritten(chunks, metadatas, ids, batchSize, batched);
    SlicesCount(chunks, Ingested(session, pages, split), batchSize);
  }

  /** The collection holds the records of the first k batches of
      batchSize: the first min(batchSize * k, |rs|) records. */
  predicate HoldsFirstBatches(c: Collection, rs: seq<Record>, batchSize: nat, k: nat) {
    var m := Min(batchSize * k, |rs|);
    Columns(rs[..m], c.documents, c.metadatas, c.ids)
  }

  /** When batch k raises, the collection holds the records of the batches
      before it: the first min(batchSize * k, n) ingested records. */
  lemma PartialBatchesWritten(session: string, pages: seq<Page>, split: string -> seq<string>,
                              chunks: seq<string>, metadatas: seq<Metadata>, ids: seq<string>,
                              batchSize: int, k: nat, done: Batched)
    requires Columns(Ingested(session, pages, split), chunks, metadatas, ids)
    requires batchSize > 0 && k <= |Slices(chunks, batchSize)|
    requires k <= |Slices(metadatas, batchSize)| && k <= |Slices(ids, batchSize)|
    requires done.chunkBatches == Slices(chunks, batchSize)[..k]
    requires done.metadataBatches == Slices(metadatas, batchSize)[..k]
    requires done.idBatches == Slices(ids, batchSize)[..k]
    ensures HoldsFirstBatches(Collection(Flatten(done.chunkBatches), Flatten(done.metadataBatches),
                                         Flatten(done.idBatches)), Ingested(session, pages, split), batchSize, k)
  {
    var rs := Ingested(session, pages, split);
    SlicesPrefixFlatten(chunks, batchSize, k);
    SlicesPrefixFlatten(metadatas, batchSize, k);
    SlicesPrefixFlatten(ids, batchSize, k);
    ColumnsPrefix(rs, chunks, metadatas, ids, Min(batchSize * k, |rs|));
  }

  lemma ColumnsPrefix(rs: seq<Record>, chunks: seq<string>, metadatas: seq<Metadata>, ids: seq<string>, m: nat)
    requires Columns(rs, chunks, metadatas, ids) && m <= |rs|
    ensures Columns(rs[..m], chunks[..m], metadatas[..m], ids[..m])
  {
  }

  const DefaultPrompt: string :=
    "You are an expert news editor. Summarize the newspaper content with a focus on key economic, "
    + "business, policy, markets, and company developments. Use concise bullet points grouped into clear "
    + "sections (e.g., Macro, Markets, Sectors, Companies, Policy, Global). Keep it factual and avoid speculation."

  /** custom_prompt.strip() or default_prompt */
  function SystemPrompt(customPrompt: string): (p: string)
    ensures IsBlank(customPrompt) ==> p == DefaultPrompt
    ensures !IsBlank(customPrompt) ==> p == Strip(customPrompt) && p != []
  {
    StripEmptyIffBlank(customPrompt);
    if Strip(customPrompt) != [] then Strip(customPrompt) else DefaultPrompt
  }

  class RagSystem {
    /** Whether the Chroma client was set up. */
    var clientReady: bool
    /** The collections the store holds, by name. */
    var store: map<string, Collection>
    /** self.collections: the collections opened so far, by session. */
    var collections: map<string, Collection>

    constructor(clientReady: bool, stored: map<string, Collection>)
      ensures this.clientReady == clientReady && store == stored && collections == map[]
    {
      this.clientReady := clientReady;
      store := stored;
      collections := map[];
    }

    /** The collection a session resolves to: the cached one, else the
        store's, else why there is none. */
    function Lookup(sessionId: string): (r: Result<Collection, Failure>)
      reads this
      ensures sessionId in collections ==> r == Ok(collections[sessionId])
      ensures r.Err? <==> sessionId !in collections && (!clientReady || CollectionName(sessionId) !in store)
      ensures r == Err(ClientNotInitialised) <==> sessionId !in collections && !clientReady
      ensures r.Ok? && sessionId !in collections ==>
        clientReady && CollectionName(sessionId) in store && r.value == store[CollectionName(sessionId)]
    {
      if sessionId in collections then Ok(collections[sessionId])
      else if !clientReady then Err(ClientNotInitialised)
      else if CollectionName(sessionId) in store then Ok(store[CollectionName(sessionId)])
      else Err(CollectionNotFound(sessionId))
    }

    /** _get_collection_for_session: the cached collection if there is one;
        otherwise the store's collection for the session, which is then
        cached. */
    method GetCollectionForSession(sessionId: string) returns (r: Result<Collection, Failure>)
      modifies this
      ensures r == old(Lookup(sessionId))
      ensures clientReady == old(clientReady) && store == old(store)
      ensures r.Ok? ==> collections == old(collections)[sessionId := r.value]
      ensures r.Err? ==> collections == old(collections)
      ensures Lookup(sessionId) == r
    {
      if sessionId in collections {
        return Ok(collections[sessionId]);
      }
      if !clientReady {
        return Err(ClientNotInitialised);
      }
      var name := CollectionName(sessionId);
      if name !in store {
        return Err(CollectionNotFound(sessionId));
      }
      var collection := store[name];
      collections := collections[sessionId := collection];
      return Ok(collection);
    }

    /** create_vector_db.  The session's collection is replaced by a new
        one holding the non-blank chunks of every page with their metadata
        and ids, written in batches; progress goes through 0..40 while
        pages are read, 40..90 while batches are written, then 100.  A batch
        size of 0 raises after the new collection was created empty; a
        negative one leaves it empty.  An error carries the progress values
        reported before it. */
    method CreateVectorDb(sessionId: string, pages: seq<Page>, split: string -> seq<string>, batchSize: int,
                          raises: Option<nat>)
      returns (r: Result<seq<int>, Raised>)
      modifies this
      ensures clientReady == old(clientReady)
      ensures !clientReady ==> r == Err(Raised(ClientNotInitialised, [])) && store == old(store) && collections == old(collections)
      ensures clientReady && batchSize == 0 ==>
        && r == Err(Raised(ZeroBatch, IngestProgressList(|pages|)))
        && store == old(store)[CollectionName(sessionId) := EmptyCollection]
        && collections == old(collections)
      ensures clientReady && batchSize < 0 ==>
        && r == Ok(IngestProgressList(|pages|) + [100])
        && store == old(store)[CollectionName(sessionId) := EmptyCollection]
        && collections == old(collections)[sessionId := EmptyCollection]
      ensures clientReady && batchSize > 0 && RaisesWithin(raises, |Slices(Ingested(sessionId, pages, split), batchSize)|) ==>
        && var rs := Ingested(sessionId, pages, split);
        && r == Err(Raised(BatchNotAdded(raises.value), IngestProgressList(|pages|)
                           + BatchProgressList(|Slices(rs, batchSize)|, batchSize, |rs|)[..raises.value]))
        && collections == old(collections)
        && CollectionName(sessionId) in store
        && HoldsFirstBatches(store[CollectionName(sessionId)], Ingested(sessionId, pages, split), batchSize, raises.value)
        && store == old(store)[CollectionName(sessionId) := store[CollectionName(sessionId)]]
      ensures clientReady && batchSize > 0 && !RaisesWithin(raises, |Slices(Ingested(sessionId, pages, split), batchSize)|) ==>
        && CollectionName(sessionId) in store
        && var written := store[CollectionName(sessionId)];
        && Columns(Ingested(sessionId, pages, split), written.documents, written.metadatas, written.ids)
        && store == old(store)[CollectionName(sessionId) := written]
        && collections == old(collections)[sessionId := written]
        && var rs := Ingested(sessionId, pages, split);
        && r == Ok(IngestProgressList(|pages|) + BatchProgressList(|Slices(rs, batchSize)|, batchSize, |rs|) + [100])
    {
      if !clientReady {
        return Err(Raised(ClientNotInitialised, []));
      }
      var name := CollectionName(sessionId);
      store := store - {name};
      store := store[name := EmptyCollection];
      assert store == old(store)[name := EmptyCollection];
      var allChunks, allMetadatas, allIds, progress := CollectChunks(sessionId, pages, split);
      r := AddCollected(sessionId, pages, split, allChunks, allMetadatas, allIds, progress, batchSize, raises);
    }

    /** The second half of create_vector_db: the collected records are
        written to the session's (new, empty) collection in batches, and the
        collection is cached once every batch is in. */
    method AddCollected(sessionId: string, pages: seq<Page>, split: string -> seq<string>,
                        chunks: seq<string>, metadatas: seq<Metadata>, ids: seq<string>, progress: seq<int>,
                        batchSize: int, raises: Option<nat>)
      returns (r: Result<seq<int>, Raised>)
      requires Columns(Ingested(sessionId, pages, split), chunks, metadatas, ids)
      requires progress == IngestProgressList(|pages|)
      modifies this
      ensures clientReady == old(clientReady)
      ensures batchSize == 0 ==> r == Err(Raised(ZeroBatch, progress)) && store == old(store) && collections == old(collections)
      ensures batchSize < 0 ==>
        && r == Ok(IngestProgressList(|pages|) + [100])
        && store == old(store)[CollectionName(sessionId) := EmptyCollection]
        && collections == old(collections)[sessionId := EmptyCollection]
      ensures batchSize > 0 && RaisesWithin(raises, |Slices(Ingested(sessionId, pages, split), batchSize)|) ==>
        && var rs := Ingested(sessionId, pages, split);
        && r == Err(Raised(BatchNotAdded(raises.value), progress
                           + BatchProgressList(|Slices(rs, batchSize)|, batchSize, |rs|)[..raises.value]))
        && collections == old(collections)
        && CollectionName(sessionId) in store
        && HoldsFirstBatches(store[CollectionName(sessionId)], Ingested(sessionId, pages, split), batchSize, raises.value)
        && store == old(store)[CollectionName(sessionId) := store[CollectionName(sessionId)]]
      ensures batchSize > 0 && !RaisesWithin(raises, |Slices(Ingested(sessionId, pages, split), batchSize)|) ==>
        && CollectionName(sessionId) in store
        && var written := store[CollectionName(sessionId)];
        && Columns(Ingested(sessionId, pages, split), written.documents, written.metadatas, written.ids)
        && store == old(store)[CollectionName(sessionId) := written]
        && collections == old(collections)[sessionId := written]
        && var rs := Ingested(sessionId, pages, split);
        && r == Ok(IngestProgressList(|pages|) + BatchProgressList(|Slices(rs, batchSize)|, batchSize, |rs|) + [100])
    {
      var name := CollectionName(sessionId);
      if batchSize > 0 {
        SlicesCount(chunks, Ingested(sessionId, pages, split), batchSize);
      }
      var added := AddInBatches(chunks, metadatas, ids, batchSize, raises);
      if added.Err? {
        if added.error == ZeroBatchSize {
          return Err(Raised(ZeroBatch, progress));
        }
        var done := added.error.done;
        PartialBatchesWritten(sessionId, pages, split, chunks, metadatas, ids, batchSize, added.error.batch, done);
        store := store[name := Collection(Flatten(done.chunkBatches), Flatten(done.metadataBatches),
                                          Flatten(done.idBatches))];
        return Err(Raised(BatchNotAdded(added.error.batch), progress + done.progress));
      }
      var batched := added.value;
      var written := Collection(Flatten(batched.chunkBatches), Flatten(batched.metadataBatches),
                                Flatten(batched.idBatches));
      BatchesWritten(chunks, metadatas, ids, batchSize, batched);
      store := store[name := written];
      collections := collections[sessionId := written];
      if batchSize < 0 {
        assert written == EmptyCollection && progress + batched.progress == progress;
      } else {
        PositiveBatchesWritten(sessionId, pages, split, chunks, metadatas, ids, progress, batchSize, batched);
      }
      r := Ok(progress + batched.progress + [100]);
    }

    /** _fetch_all_chunks: the non-blank documents of the session's
        collection, read a page at a time. */
    method FetchAllChunks(sessionId: string) returns (r: Result<seq<string>, Failure>)
      modifies this
      ensures clientReady == old(clientReady) && store == old(store)
      ensures old(Lookup(sessionId)).Ok? ==> collections == old(collections)[sessionId := old(Lookup(sessionId)).value]
      ensures old(Lookup(sessionId)).Err? ==> collections == old(collections)
      ensures r == match old(Lookup(sessionId))
        case Ok(c) => Ok(KeptDocs(c.documents))
        case Err(e) => Err(e)
    {
      var collection := GetCollectionForSession(sessionId);
      if collection.Err? {
        return Err(collection.error);
      }
      var docs := collection.value.documents;
      var chunks := PaginateChunks(|docs|, StorePage(docs));
      FetchedFromStore(docs, 0, []);
      assert [] + KeptDocs(docs[0..]) == KeptDocs(docs);
      return Ok(chunks);
    }

    /** cleanup_session: the session's collection is deleted from the store
        and dropped from the cache.  Without a client nothing happens; when
        the store has no such collection the deletion raises, the error is
        only reported, and the cache keeps its entry. */
    method CleanupSession(sessionId: string)
      modifies this
      ensures clientReady == old(clientReady)
      ensures !clientReady || CollectionName(sessionId) !in old(store) ==>
        store == old(store) && collections == old(collections)
      ensures clientReady && CollectionName(sessionId) in old(store) ==>
        store == old(store) - {CollectionName(sessionId)} && collections == old(collections) - {sessionId}
    {
      if !clientReady {
        return;
      }
      var name := CollectionName(sessionId);
      if name !in store {
        return;
      }
      store := store - {name};
      if sessionId in collections {
        collections := collections - {sessionId};
      }
    }

    /** generate_summary: the session's chunks are fetched and summarised
        hierarchically with the custom prompt, or the default one when it
        is blank; no chunks is an error.  Progress 10 and 30 come before the
        summariser's own values, 100 after; a failed lookup and the missing
        content raise after 10 was reported. */
    method GenerateSummary(sessionId: string, customPrompt: string, count: string -> nat, maxContent: int,
                           summarize: (string, string) -> string)
      returns (r: Result<(string, seq<int>), Raised>)
      modifies this
      ensures clientReady == old(clientReady) && store == old(store)
      ensures old(Lookup(sessionId)).Ok? ==> collections == old(collections)[sessionId := old(Lookup(sessionId)).value]
      ensures old(Lookup(sessionId)).Err? ==> collections == old(collections)
      ensures r == match old(Lookup(sessionId))
        case Err(e) => Err(Raised(e, [10]))
        case Ok(c) =>
          var chunks := KeptDocs(c.documents);
          if chunks == [] then Err(Raised(NothingToSummarize, [10]))
          else Ok((HierarchicalSummary(chunks, SystemPrompt(customPrompt), count, maxContent, summarize),
                   [10, 30] + HierarchicalProgress(chunks, count, maxContent) + [100]))
    {
      var fetched := FetchAllChunks(sessionId);
      if fetched.Err? {
        return Err(Raised(fetched.error, [10]));
      }
      var chunks := fetched.value;
      if chunks == [] {
        return Err(Raised(NothingToSummarize, [10]));
      }
      var systemPrompt := SystemPrompt(customPrompt);
      var summary, progress := SummarizeHierarchical(chunks, systemPrompt, count, maxContent, summarize);
      return Ok((summary, [10, 30] + progress + [100]));
    }
  }
}
