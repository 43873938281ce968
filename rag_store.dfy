/** What create_vector_db writes to the vector store, how _fetch_all_chunks
    reads it back page by page, and how search_documents shapes a query's
    answer.  The text splitter, the embedding call and the store's query are
    parameters. */
module RagStore {
  import opened PyStr
  import opened Results
  import opened Slicing
  import opened Progress

  /** One entry of the extracted text: a page's content and its file. */
  datatype Page = Page(content: string, file: string)

  /** The metadata stored with each chunk. */
  datatype Metadata = Metadata(source: string, pageNumber: nat, chunkIndex: nat, sessionId: string)

  /** One chunk as written: its text, metadata and id. */
  datatype Record = Record(chunk: string, metadata: Metadata, id: string)

  // ---------------------------------------------------------------- ids

  /** f"{session_id}_{page_idx}_{chunk_idx}" */
  function ChunkId(session: string, page: nat, chunk: nat): string {
    session + "_" + Decimal(page) + "_" + Decimal(chunk)
  }

  /** Within a session, an id names one page and one chunk. */
  lemma ChunkIdInjective(session: string, p1: nat, c1: nat, p2: nat, c2: nat)
    requires ChunkId(session, p1, c1) == ChunkId(session, p2, c2)
    ensures p1 == p2 && c1 == c2
  {
    var pre := session + "_";
    var a := Decimal(p1) + "_" + Decimal(c1);
    var b := Decimal(p2) + "_" + Decimal(c2);
    IdParts(session, p1, c1);
    IdParts(session, p2, c2);
    assert a == (pre + a)[|pre|..] == (pre + b)[|pre|..] == b;
    SplitPair(Decimal(p1), Decimal(c1));
    SplitPair(Decimal(p2), Decimal(c2));
    DecimalInjective(p1, p2);
    DecimalInjective(c1, c2);
  }

  lemma IdParts(session: string, p: nat, c: nat)
    ensures ChunkId(session, p, c) == (session + "_") + (Decimal(p) + "_" + Decimal(c))
  {
  }

  /** Two numbers joined by "_" split back into the two numbers. */
  lemma SplitPair(x: string, y: string)
    requires forall i :: 0 <= i < |x| ==> IsDigit(x[i])
    requires forall i :: 0 <= i < |y| ==> IsDigit(y[i])
    ensures SplitOn(x + "_" + y, '_') == [x, y]
  {
    NoUnderscore(x);
    NoUnderscore(y);
    assert JoinWith("_", [x, y]) == x + "_" + JoinWith("_", [y]);
    SplitOfJoin([x, y], '_');
  }

  lemma NoUnderscore(d: string)
    requires forall i :: 0 <= i < |d| ==> IsDigit(d[i])
    ensures '_' !in d
  {
    forall i | 0 <= i < |d| ensures d[i] != '_' {
      assert IsDigit(d[i]);
    }
  }

  // ---------------------------------------------------------------- ingestion

  function MakeRecord(session: string, page: nat, file: string, index: nat, chunk: string): Record {
    Record(chunk, Metadata(file, page + 1, index, session), ChunkId(session, page, index))
  }

  /** The records one page contributes: its non-blank chunks in order, each
      with its 1-based page number and 0-based chunk index. */
  function PageRecords(session: string, page: nat, file: string, chunks: seq<string>): seq<Record>
    decreases |chunks|
  {
    if chunks == [] then []
    else
      var c := |chunks| - 1;
      PageRecords(session, page, file, chunks[..c])
        + (if IsBlank(chunks[c]) then [] else [MakeRecord(session, page, file, c, chunks[c])])
  }

  /** The records create_vector_db collects from all pages, page by page. */
  function Ingested(session: string, pages: seq<Page>, split: string -> seq<string>): seq<Record>
    decreases |pages|
  {
    if pages == [] then []
    else
      var p := |pages| - 1;
      Ingested(session, pages[..p], split) + PageRecords(session, p, pages[p].file, split(pages[p].content))
  }

  /** A record is chunk `chunkIndex` of page `pageNumber - 1`, is not blank,
      and carries that page's file, the session and the matching id. */
  predicate FromPages(session: string, pages: seq<Page>, split: string -> seq<string>, r: Record) {
    var m := r.metadata;
    && 1 <= m.pageNumber <= |pages|
    && var page := pages[m.pageNumber - 1];
    && m.chunkIndex < |split(page.content)|
    && r.chunk == split(page.content)[m.chunkIndex]
    && !IsBlank(r.chunk)
    && m.source == page.file
    && m.sessionId == session
    && r.id == ChunkId(session, m.pageNumber - 1, m.chunkIndex)
  }

  predicate AllFromPages(session: string, pages: seq<Page>, split: string -> seq<string>, rs: seq<Record>) {
    forall i :: 0 <= i < |rs| ==> FromPages(session, pages, split, rs[i])
  }

  /** Page order first, then chunk order. */
  predicate Before(a: Metadata, b: Metadata) {
    a.pageNumber < b.pageNumber || (a.pageNumber == b.pageNumber && a.chunkIndex < b.chunkIndex)
  }

  predicate InOrder(rs: seq<Record>) {
    forall i, j :: 0 <= i < j < |rs| ==> Before(rs[i].metadata, rs[j].metadata)
  }

  /** r is chunk `chunkIndex` of the page's chunks, which is not blank. */
  predicate ChunkOf(session: string, page: nat, file: string, chunks: seq<string>, r: Record) {
    var c := r.metadata.chunkIndex;
    c < |chunks| && !IsBlank(chunks[c]) && r == MakeRecord(session, page, file, c, chunks[c])
  }

  /** Every record is a non-blank chunk of the page, in chunk order. */
  predicate PageSound(session: string, page: nat, file: string, chunks: seq<string>, rs: seq<Record>) {
    && (forall i :: 0 <= i < |rs| ==> ChunkOf(session, page, file, chunks, rs[i]))
    && (forall i, j :: 0 <= i < j < |rs| ==> rs[i].metadata.chunkIndex < rs[j].metadata.chunkIndex)
  }

  lemma {:induction false} PageRecordsSound(session: string, page: nat, file: string, chunks: seq<string>)
    ensures PageSound(session, page, file, chunks, PageRecords(session, page, file, chunks))
    decreases |chunks|
  {
    if chunks != [] {
      var c := |chunks| - 1;
      var init := chunks[..c];
      PageRecordsSound(session, page, file, init);
      var prev := PageRecords(session, page, file, init);
      var rs := PageRecords(session, page, file, chunks);
      var tail := if IsBlank(chunks[c]) then [] else [MakeRecord(session, page, file, c, chunks[c])];
      assert rs == prev + tail;
      forall i | 0 <= i < |rs| ensures ChunkOf(session, page, file, chunks, rs[i]) {
        if i < |prev| {
          assert rs[i] == prev[i];
          assert ChunkOf(session, page, file, init, prev[i]);
          var ci := prev[i].metadata.chunkIndex;
          assert init[ci] == chunks[ci];
        } else {
          assert rs[i] == tail[0];
        }
      }
      forall i, j | 0 <= i < j < |rs| ensures rs[i].metadata.chunkIndex < rs[j].metadata.chunkIndex {
        if j < |prev| {
          assert rs[i] == prev[i] && rs[j] == prev[j];
        } else {
          assert rs[i] == prev[i] && rs[j] == tail[0];
          assert ChunkOf(session, page, file, init, prev[i]);
        }
      }
    }
  }

  lemma {:induction false} PageRecordsComplete(session: string, page: nat, file: string, chunks: seq<string>)
    ensures forall c :: 0 <= c < |chunks| && !IsBlank(chunks[c]) ==>
      MakeRecord(session, page, file, c, chunks[c]) in PageRecords(session, page, file, chunks)
    decreases |chunks|
  {
    if chunks != [] {
      var last := |chunks| - 1;
      var init := chunks[..last];
      PageRecordsComplete(session, page, file, init);
      forall c | 0 <= c < last ensures init[c] == chunks[c] { }
    }
  }

  /** Every record comes from a non-blank chunk of the pages, ids included,
      and the records follow page order and then chunk order. */
  lemma {:induction false} IngestedSound(session: string, pages: seq<Page>, split: string -> seq<string>)
    ensures AllFromPages(session, pages, split, Ingested(session, pages, split))
    ensures InOrder(Ingested(session, pages, split))
    decreases |pages|
  {
    if pages != [] {
      var p := |pages| - 1;
      var init := pages[..p];
      var before := Ingested(session, init, split);
      var here := PageRecords(session, p, pages[p].file, split(pages[p].content));
      IngestedSound(session, init, split);
      PageRecordsSound(session, p, pages[p].file, split(pages[p].content));
      var rs := before + here;
      forall i | 0 <= i < |rs| ensures FromPages(session, pages, split, rs[i]) {
        if i < |before| {
          assert FromPages(session, init, split, before[i]);
          assert init[before[i].metadata.pageNumber - 1] == pages[before[i].metadata.pageNumber - 1];
        } else {
          assert rs[i] == here[i - |before|];
        }
      }
      forall i, j | 0 <= i < j < |rs| ensures Before(rs[i].metadata, rs[j].metadata) {
        if j < |before| {
        } else if i < |before| {
          assert FromPages(session, init, split, before[i]);
          assert rs[j] == here[j - |before|];
        } else {
          assert rs[i] == here[i - |before|] && rs[j] == here[j - |before|];
        }
      }
    }
  }

  /** Every non-blank chunk of every page is among the records. */
  lemma {:induction false} IngestedComplete(session: string, pages: seq<Page>, split: string -> seq<string>)
    ensures forall p, c :: 0 <= p < |pages| && 0 <= c < |split(pages[p].content)| && !IsBlank(split(pages[p].content)[c]) ==>
      MakeRecord(session, p, pages[p].file, c, split(pages[p].content)[c]) in Ingested(session, pages, split)
    decreases |pages|
  {
    if pages != [] {
      var last := |pages| - 1;
      var init := pages[..last];
      IngestedComplete(session, init, split);
      PageRecordsComplete(session, last, pages[last].file, split(pages[last].content));
      forall p | 0 <= p < last ensures init[p] == pages[p] { }
    }
  }

  /** No two records share an id. */
  predicate IdsDistinct(rs: seq<Record>) {
    forall i, j :: 0 <= i < j < |rs| ==> rs[i].id != rs[j].id
  }

  lemma IngestedIdsDistinct(session: string, pages: seq<Page>, split: string -> seq<string>)
    ensures IdsDistinct(Ingested(session, pages, split))
  {
    var rs := Ingested(session, pages, split);
    IngestedSound(session, pages, split);
    forall i, j | 0 <= i < j < |rs| ensures rs[i].id != rs[j].id {
      assert FromPages(session, pages, split, rs[i]) && FromPages(session, pages, split, rs[j]);
      assert Before(rs[i].metadata, rs[j].metadata);
      if rs[i].id == rs[j].id {
        ChunkIdInjective(session, rs[i].metadata.pageNumber - 1, rs[i].metadata.chunkIndex,
                         rs[j].metadata.pageNumber - 1, rs[j].metadata.chunkIndex);
      }
    }
  }

  /** The three parallel lists all_chunks, all_metadatas and all_ids hold
      the records' fields, position by position. */
  predicate Columns(rs: seq<Record>, chunks: seq<string>, metadatas: seq<Metadata>, ids: seq<string>) {
    && |chunks| == |rs| && |metadatas| == |rs| && |ids| == |rs|
    && forall i :: 0 <= i < |rs| ==>
         chunks[i] == rs[i].chunk && metadatas[i] == rs[i].metadata && ids[i] == rs[i].id
  }

  /** The progress reported after page p of total: int((p + 1) / max(1,
      total) * 100), capped at 40 during ingestion. */
  function IngestProgress(p: nat, total: nat): int
    requires total > 0
  {
    Min((p + 1) * 100 / total, 40)
  }

  function IngestProgressList(total: nat): (r: seq<int>)
    ensures |r| == total
  {
    seq(total, p requires 0 <= p < total => IngestProgress(p, total))
  }

  /** Ingestion progress stays within 0..40, never goes back, and is 40
      after the last page. */
  lemma IngestProgressOrdered(total: nat)
    ensures Ordered(IngestProgressList(total), 0, 40)
    ensures total > 0 ==> IngestProgressList(total)[total - 1] == 40
  {
    var r := IngestProgressList(total);
    forall i, j | 0 <= i <= j < total ensures 0 <= r[i] <= r[j] <= 40 {
      IngestProgressBounds(i, j, total);
    }
    if total > 0 {
      IngestProgressBounds(total - 1, total - 1, total);
    }
  }

  lemma IngestProgressBounds(i: nat, j: nat, total: nat)
    requires i <= j < total
    ensures 0 <= IngestProgress(i, total) <= IngestProgress(j, total) <= 40
    ensures j == total - 1 ==> IngestProgress(j, total) == 40
  {
    MulMonotone(i + 1, j + 1, 100);
    DivMonotone((i + 1) * 100, (j + 1) * 100, total);
    if j == total - 1 {
      DivBounds(total * 100, total, 100);
    }
  }

  /** One more chunk of the page: a record for it when it is not blank. */
  lemma PageRecordsStep(session: string, page: nat, file: string, chunks: seq<string>, k: nat)
    requires k < |chunks|
    ensures PageRecords(session, page, file, chunks[..k + 1]) == PageRecords(session, page, file, chunks[..k])
      + (if IsBlank(chunks[k]) then [] else [MakeRecord(session, page, file, k, chunks[k])])
  {
    assert chunks[..k + 1][..k] == chunks[..k];
  }

  /** One step of the chunk loop keeps the lists in step with the records
      of the chunks read so far. */
  lemma CollectStep(session: string, page: nat, file: string, chunks: seq<string>, k: nat,
                    before: seq<Record>, rs: seq<Record>,
                    allChunks: seq<string>, allMetadatas: seq<Metadata>, allIds: seq<string>)
    requires k < |chunks| && rs == before + PageRecords(session, page, file, chunks[..k])
    requires Columns(rs, allChunks, allMetadatas, allIds)
    ensures IsBlank(chunks[k]) ==> rs == before + PageRecords(session, page, file, chunks[..k + 1])
    ensures !IsBlank(chunks[k]) ==>
      var r := MakeRecord(session, page, file, k, chunks[k]);
      && rs + [r] == before + PageRecords(session, page, file, chunks[..k + 1])
      && Columns(rs + [r], allChunks + [r.chunk], allMetadatas + [r.metadata], allIds + [r.id])
  {
    PageRecordsStep(session, page, file, chunks, k);
    if !IsBlank(chunks[k]) {
      var r := MakeRecord(session, page, file, k, chunks[k]);
      AppendOne(before, PageRecords(session, page, file, chunks[..k]), r);
    }
  }

  /** The chunks of one page appended to the three lists, skipping blank
      ones. */
  method CollectPage(session: string, page: nat, file: string, chunks: seq<string>,
                     ghost before: seq<Record>, chunksIn: seq<string>, metadatasIn: seq<Metadata>, idsIn: seq<string>)
    returns (allChunks: seq<string>, allMetadatas: seq<Metadata>, allIds: seq<string>)
    requires Columns(before, chunksIn, metadatasIn, idsIn)
    ensures Columns(before + PageRecords(session, page, file, chunks), allChunks, allMetadatas, allIds)
  {
    allChunks, allMetadatas, allIds := chunksIn, metadatasIn, idsIn;
    ghost var rs := before;
    var chunkIdx := 0;
    while chunkIdx < |chunks|
      invariant chunkIdx <= |chunks|
      invariant rs == before + PageRecords(session, page, file, chunks[..chunkIdx])
      invariant Columns(rs, allChunks, allMetadatas, allIds)
    {
      var chunk := chunks[chunkIdx];
      CollectStep(session, page, file, chunks, chunkIdx, before, rs, allChunks, allMetadatas, allIds);
      StripEmptyIffBlank(chunk);
      if Strip(chunk) != "" {
        var chunkId := session + "_" + Decimal(page) + "_" + Decimal(chunkIdx);
        allChunks := allChunks + [chunk];
        allMetadatas := allMetadatas + [Metadata(file, page + 1, chunkIdx, session)];
        allIds := allIds + [chunkId];
        rs := rs + [MakeRecord(session, page, file, chunkIdx, chunk)];
      }
      chunkIdx := chunkIdx + 1;
    }
    assert chunks[..chunkIdx] == chunks;
  }

  /** The ingestion loop of create_vector_db: every page is split, its
      non-blank chunks are collected with their metadata and ids, and
      progress is reported after each page. */
  method CollectChunks(session: string, pages: seq<Page>, split: string -> seq<string>)
    returns (allChunks: seq<string>, allMetadatas: seq<Metadata>, allIds: seq<string>, progress: seq<int>)
    ensures Columns(Ingested(session, pages, split), allChunks, allMetadatas, allIds)
    ensures progress == IngestProgressList(|pages|)
  {
    allChunks, allMetadatas, allIds, progress := [], [], [], [];
    var totalPages := |pages|;
    var pageIdx := 0;
    while pageIdx < totalPages
      invariant pageIdx <= totalPages
      invariant Columns(Ingested(session, pages[..pageIdx], split), allChunks, allMetadatas, allIds)
      invariant progress == IngestProgressList(totalPages)[..pageIdx]
    {
      var content := pages[pageIdx].content;
      var filename := pages[pageIdx].file;
      var chunks := split(content);
      assert pages[..pageIdx + 1][..pageIdx] == pages[..pageIdx];
      allChunks, allMetadatas, allIds :=
        CollectPage(session, pageIdx, filename, chunks, Ingested(session, pages[..pageIdx], split),
                    allChunks, allMetadatas, allIds);
      var pct := (pageIdx + 1) * 100 / totalPages;
      progress := progress + [Min(pct, 40)];
      pageIdx := pageIdx + 1;
    }
    assert pages[..pageIdx] == pages;
  }

  // ---------------------------------------------------------------- batches

  /** The progress reported after batch k of batchSize records out of n:
      40 + int(min(batch end, n) / max(1, n) * 50), capped at 90. */
  function BatchProgress(k: nat, batchSize: nat, n: nat): int
    requires n > 0
  {
    Min(40 + Min(batchSize * (k + 1), n) * 50 / n, 90)
  }

  function BatchProgressList(batches: nat, batchSize: nat, n: nat): (r: seq<int>)
    requires batches > 0 ==> n > 0
    ensures |r| == batches
  {
    seq(batches, k requires 0 <= k < batches => BatchProgress(k, batchSize, n))
  }

  lemma BatchProgressBounds(i: nat, j: nat, batchSize: nat, n: nat)
    requires i <= j && batchSize > 0 && n > 0
    ensures 40 <= BatchProgress(i, batchSize, n) <= BatchProgress(j, batchSize, n) <= 90
    ensures batchSize * (j + 1) >= n ==> BatchProgress(j, batchSize, n) == 90
  {
    MulMonotone(i + 1, j + 1, batchSize);
    assert (i + 1) * batchSize == batchSize * (i + 1) && (j + 1) * batchSize == batchSize * (j + 1);
    WrittenProgress(Min(batchSize * (i + 1), n), Min(batchSize * (j + 1), n), n);
  }

  lemma WrittenProgress(a: nat, b: nat, n: nat)
    requires a <= b <= n && n > 0
    ensures 40 <= 40 + a * 50 / n <= 40 + b * 50 / n <= 90
    ensures b == n ==> 40 + b * 50 / n == 90
  {
    DivMonotone(a * 50, b * 50, n);
    assert b * 50 < (50 + 1) * n;
    DivBounds(b * 50, n, 50);
  }

  /** Batch progress stays within 40..90, never goes back, and is 90 after
      the last batch. */
  lemma BatchProgressOrdered<T>(xs: seq<T>, batchSize: nat)
    requires batchSize > 0
    ensures var total := |Slices(xs, batchSize)|;
      && Ordered(BatchProgressList(total, batchSize, |xs|), 40, 90)
      && (total > 0 ==> BatchProgressList(total, batchSize, |xs|)[total - 1] == 90)
  {
    var n := |xs|;
    var total := |Slices(xs, batchSize)|;
    var r := BatchProgressList(total, batchSize, n);
    forall i, j | 0 <= i <= j < total ensures 40 <= r[i] <= r[j] <= 90 {
      BatchProgressBounds(i, j, batchSize, n);
    }
    if total > 0 {
      BatchProgressBounds(total - 1, total - 1, batchSize, n);
    }
  }

  /** The error create_vector_db reports for a batch size of 0, which
      Python's range refuses. */
  /** Why the write loop stops early: range() refuses a step of 0, or the
      embedding call or the add of batch k raises, after the batches before
      it were written. */
  datatype BatchFailure = ZeroBatchSize | BatchRaised(batch: nat, done: Batched)

  datatype Batched = Batched(chunkBatches: seq<seq<string>>, metadataBatches: seq<seq<Metadata>>,
                             idBatches: seq<seq<string>>, progress: seq<int>)

  /** The write loop of create_vector_db: the three lists are cut into
      batches of batchSize at the same offsets and each batch is embedded
      and added to the collection.  A batch size of 0 raises, a negative
      one writes nothing.  raises is the first batch whose embedding call
      or add raises, if any (with no embedding client every batch does). */
  method AddInBatches(chunks: seq<string>, metadatas: seq<Metadata>, ids: seq<string>, batchSize: int,
                      raises: Option<nat>)
    returns (r: Result<Batched, BatchFailure>)
    requires |metadatas| == |chunks| && |ids| == |chunks|
    ensures batchSize == 0 <==> r == Err(ZeroBatchSize)
    ensures batchSize < 0 ==> r == Ok(Batched([], [], [], []))
    ensures batchSize > 0 ==> |Slices(metadatas, batchSize)| == |Slices(ids, batchSize)| == |Slices(chunks, batchSize)|
    ensures batchSize > 0 && !RaisesWithin(raises, |Slices(chunks, batchSize)|) ==>
      r == Ok(Batched(Slices(chunks, batchSize), Slices(metadatas, batchSize), Slices(ids, batchSize),
                      BatchProgressList(|Slices(chunks, batchSize)|, batchSize, |chunks|)))
    ensures batchSize > 0 && RaisesWithin(raises, |Slices(chunks, batchSize)|) ==>
      var k := raises.value;
      r == Err(BatchRaised(k, Batched(Slices(chunks, batchSize)[..k], Slices(metadatas, batchSize)[..k],
        Slices(ids, batchSize)[..k], BatchProgressList(|Slices(chunks, batchSize)|, batchSize, |chunks|)[..k])))
  {
    if batchSize == 0 {
      return Err(ZeroBatchSize);
    }
    if batchSize < 0 {
      return Ok(Batched([], [], [], []));
    }
    var n := |chunks|;
    ghost var total := |Slices(chunks, batchSize)|;
    SlicesCount(chunks, metadatas, batchSize);
    SlicesCount(chunks, ids, batchSize);
    var chunkBatches, metadataBatches, idBatches, progress := [], [], [], [];
    var i := 0;
    var k := 0;
    while i < n
      invariant i == batchSize * k && k <= total
      invariant i < n <==> k < total
      invariant !RaisesWithin(raises, k)
      invariant chunkBatches == Slices(chunks, batchSize)[..k]
      invariant metadataBatches == Slices(metadatas, batchSize)[..k]
      invariant idBatches == Slices(ids, batchSize)[..k]
      invariant progress == BatchProgressList(total, batchSize, n)[..k]
      decreases n - i
    {
      if raises == Some(k) {
        return Err(BatchRaised(k, Batched(chunkBatches, metadataBatches, idBatches, progress)));
      }
      var end := Min(i + batchSize, n);
      var batchChunks := chunks[i..end];
      var batchMetadatas := metadatas[i..end];
      var batchIds := ids[i..end];
      SliceStep(chunks, batchSize, k, i, end, chunkBatches);
      SliceStep(metadatas, batchSize, k, i, end, metadataBatches);
      SliceStep(ids, batchSize, k, i, end, idBatches);
      ProgressStep(total, batchSize, n, k, i, |batchChunks|, progress);
      chunkBatches := chunkBatches + [batchChunks];
      metadataBatches := metadataBatches + [batchMetadatas];
      idBatches := idBatches + [batchIds];
      var pct := 40 + (i + |batchChunks|) * 50 / n;
      progress := progress + [Min(pct, 90)];
      i := i + batchSize;
      k := k + 1;
    }
    assert chunkBatches == Slices(chunks, batchSize);
    assert metadataBatches == Slices(metadatas, batchSize);
    assert idBatches == Slices(ids, batchSize);
    assert progress == BatchProgressList(total, batchSize, n);
    return Ok(Batched(chunkBatches, metadataBatches, idBatches, progress));
  }

  /** Whether the batch that raises is one of the first count batches. */
  predicate RaisesWithin(raises: Option<nat>, count: nat) {
    raises.Some? && raises.value < count
  }

  /** Appending the value batch k reports, after it has written up to
      min(batchSize * (k + 1), n) chunks, to the values of the batches
      before it gives those of the first k + 1 batches. */
  lemma ProgressStep(total: nat, batchSize: nat, n: nat, k: nat, start: nat, len: nat, progress: seq<int>)
    requires k < total && n > 0 && progress == BatchProgressList(total, batchSize, n)[..k]
    requires start == batchSize * k && start + len == Min(start + batchSize, n)
    ensures progress + [Min(40 + (start + len) * 50 / n, 90)] == BatchProgressList(total, batchSize, n)[..k + 1]
  {
    TakeStep(BatchProgressList(total, batchSize, n), k);
    assert batchSize * (k + 1) == start + batchSize;
  }

  /** Appending slice k to the first k slices gives the first k + 1, and
      the next slice exists exactly when the list goes on past it. */
  lemma SliceStep<T>(xs: seq<T>, n: nat, k: nat, start: nat, end: nat, done: seq<seq<T>>)
    requires n > 0 && k < |Slices(xs, n)| && done == Slices(xs, n)[..k]
    requires start == n * k && end == Min(start + n, |xs|)
    ensures start < |xs| && n * (k + 1) == start + n && start <= end <= |xs|
    ensures done + [xs[start..end]] == Slices(xs, n)[..k + 1]
    ensures start + n < |xs| <==> k + 1 < |Slices(xs, n)|
  {
    SliceAt(xs, n, k);
    if k + 1 < |Slices(xs, n)| {
      SliceAt(xs, n, k + 1);
    }
  }

  // ---------------------------------------------------------------- reading back

  const FetchBatch: nat := 1000

  /** [d for d in docs if d.strip()]: the documents that are not blank, in
      order. */
  function KeptDocs(docs: seq<string>): seq<string> {
    if docs == [] then []
    else (if IsBlank(docs[0]) then [] else [docs[0]]) + KeptDocs(docs[1..])
  }

  lemma {:induction false} KeptDocsConcat(a: seq<string>, b: seq<string>)
    ensures KeptDocs(a + b) == KeptDocs(a) + KeptDocs(b)
    decreases |a|
  {
    if a != [] {
      assert (a + b)[1..] == a[1..] + b;
      KeptDocsConcat(a[1..], b);
    } else {
      assert a + b == b;
    }
  }

  /** A document is kept exactly when it is one of the inputs and not
      blank; documents that are all non-blank are kept as they are. */
  lemma {:induction false} KeptDocsMembers(docs: seq<string>)
    ensures forall d :: d in KeptDocs(docs) <==> d in docs && !IsBlank(d)
    ensures (forall i :: 0 <= i < |docs| ==> !IsBlank(docs[i])) ==> KeptDocs(docs) == docs
    decreases |docs|
  {
    if docs != [] {
      KeptDocsMembers(docs[1..]);
      assert docs == [docs[0]] + docs[1..];
    }
  }

  /** What the pagination loop of _fetch_all_chunks returns when it
      reaches offset having collected chunks: each page asks for
      min(1000, total - offset) documents, its non-blank ones are added,
      the offset moves by the page's length, and an empty page or reaching
      total ends the loop. */
  function Fetched(total: nat, get: (nat, nat) -> seq<string>, offset: nat, chunks: seq<string>): seq<string>
    decreases total - offset
  {
    if offset >= total then chunks
    else
      var docs := get(offset, Min(FetchBatch, total - offset));
      var collected := chunks + KeptDocs(docs);
      if docs == [] then collected else Fetched(total, get, offset + |docs|, collected)
  }

  /** The pagination loop of _fetch_all_chunks over a collection reporting
      `total` documents and answering get(offset, limit). */
  method PaginateChunks(total: nat, get: (nat, nat) -> seq<string>) returns (chunks: seq<string>)
    ensures chunks == Fetched(total, get, 0, [])
  {
    chunks := [];
    var offset: nat := 0;
    while offset < total
      invariant Fetched(total, get, offset, chunks) == Fetched(total, get, 0, [])
      decreases total - offset
    {
      var docs := get(offset, Min(FetchBatch, total - offset));
      ghost var rest := Fetched(total, get, offset, chunks);
      chunks := chunks + KeptDocs(docs);
      offset := offset + |docs|;
      if |docs| == 0 {
        assert chunks == rest;
        break;
      }
      assert Fetched(total, get, offset, chunks) == rest;
    }
  }

  /** The store's paged read of a collection holding docs: up to limit
      documents from offset on. */
  function StorePage(docs: seq<string>): (nat, nat) -> seq<string> {
    (offset: nat, limit: nat) => docs[Min(offset, |docs|)..Min(offset + limit, |docs|)]
  }

  /** A collection read through the store's paged read is read back in
      full, minus its blank documents, after what was already collected. */
  lemma {:induction false} FetchedFromStore(docs: seq<string>, offset: nat, chunks: seq<string>)
    requires offset <= |docs|
    ensures Fetched(|docs|, StorePage(docs), offset, chunks) == chunks + KeptDocs(docs[offset..])
    decreases |docs| - offset
  {
    var get := StorePage(docs);
    if offset == |docs| {
      assert docs[offset..] == [];
      assert chunks + KeptDocs(docs[offset..]) == chunks;
    } else {
      var limit := Min(FetchBatch, |docs| - offset);
      var page := get(offset, limit);
      var next := offset + limit;
      assert page == docs[offset..next] by {
        assert page == docs[Min(offset, |docs|)..Min(offset + limit, |docs|)];
      }
      calc {
        Fetched(|docs|, get, offset, chunks);
      == { assert page != [] && offset + |page| == next; }
        Fetched(|docs|, get, next, chunks + KeptDocs(page));
      == { FetchedFromStore(docs, next, chunks + KeptDocs(page)); }
        (chunks + KeptDocs(page)) + KeptDocs(docs[next..]);
      == { KeptDocsConcat(page, docs[next..]); }
        chunks + KeptDocs(page + docs[next..]);
      == { assert docs[offset..] == page + docs[next..]; }
        chunks + KeptDocs(docs[offset..]);
      }
    }
  }

  // ---------------------------------------------------------------- search

  /** A store query's answer for one query, already flattened to one list
      per field; a missing or empty metadata entry is None. */
  datatype RawResults = RawResults(documents: seq<string>, metadatas: seq<Option<Metadata>>,
                                   ids: seq<string>, distances: seq<real>)

  /** One normalised search hit.  The source reports the distance under
      both "distance" and "relevance_score"; it is kept once. */
  datatype Hit = Hit(id: string, content: string, source: Option<string>, pageNumber: Option<nat>,
                     chunkIndex: Option<nat>, sessionId: string, distance: Option<real>)

  /** Hit i of a raw answer: metadata fields when the entry has metadata,
      the session's own id otherwise, and the distance when there is one. */
  function HitAt(session: string, raw: RawResults, i: nat): (h: Hit)
    requires i < |raw.documents| && i < |raw.ids|
    ensures h.id == raw.ids[i] && h.content == raw.documents[i]
    ensures h.distance == if i < |raw.distances| then Some(raw.distances[i]) else None
    ensures i >= |raw.metadatas| || raw.metadatas[i].None? ==>
      h.sessionId == session && h.source == None && h.pageNumber == None && h.chunkIndex == None
    ensures i < |raw.metadatas| && raw.metadatas[i].Some? ==>
      var m := raw.metadatas[i].value;
      && h.source == Some(m.source) && h.pageNumber == Some(m.pageNumber)
      && h.chunkIndex == Some(m.chunkIndex) && h.sessionId == m.sessionId
  {
    var meta := if i < |raw.metadatas| then raw.metadatas[i] else None;
    var distance := if i < |raw.distances| then Some(raw.distances[i]) else None;
    match meta
    case None => Hit(raw.ids[i], raw.documents[i], None, None, None, session, distance)
    case Some(m) => Hit(raw.ids[i], raw.documents[i], Some(m.source), Some(m.pageNumber),
                        Some(m.chunkIndex), m.sessionId, distance)
  }

  /** The first n hits of a raw answer, in order. */
  function HitsUpTo(session: string, raw: RawResults, n: nat): (hits: seq<Hit>)
    requires n <= |raw.documents| && n <= |raw.ids|
    ensures |hits| == n && forall i :: 0 <= i < n ==> hits[i] == HitAt(session, raw, i)
  {
    if n == 0 then [] else HitsUpTo(session, raw, n - 1) + [HitAt(session, raw, n - 1)]
  }

  /** search_documents.  A blank query gives no hits without asking the
      store; otherwise one hit per position that has both a document and an
      id. */
  method SearchDocuments(session: string, query: string, search: string -> RawResults) returns (hits: seq<Hit>)
    ensures IsBlank(query) ==> hits == []
    ensures !IsBlank(query) ==>
      var raw := search(query);
      && |hits| == Min(|raw.documents|, |raw.ids|)
      && forall i :: 0 <= i < |hits| ==> hits[i] == HitAt(session, raw, i)
  {
    StripEmptyIffBlank(query);
    if query == "" || Strip(query) == "" {
      return [];
    }
    var raw := search(query);
    var count := Min(|raw.documents|, |raw.ids|);
    hits := [];
    var i := 0;
    while i < count
      invariant i <= count && hits == HitsUpTo(session, raw, i)
    {
      hits := hits + [HitAt(session, raw, i)];
      i := i + 1;
    }
  }
}
