/**
 Why incremental refresh may be trusted: whatever was reused, the payload and the matrix are those
 of indexing the current files from nothing. The assumptions are the documented ones: equal manifest
 entries mean equal text, and the provider embeds each text on its own into a fixed dimension.
 */
module Incremental {
  import opened Wrappers
  import opened Orders
  import opened Types
  import opened Matrix
  import opened Cache
  import opened Refresh

  /** What a manifest entry stands for: the file's language and the outcome of reading it. */
  type Source = Manifest -> (string, ReadOutcome)

  /** The indexed world: tools, source, and the vector of each text in a fixed dimension. */
  datatype World = World(tools: Tools, source: Source, e: Text -> seq<F32>, d: nat) {
    ghost predicate FixedDimension() {
      d > 0 && forall text :: |e(text)| == d
    }
  }

  /** The files seen by a refresh are those the source describes. */
  ghost predicate Agrees(source: Source, read: FileEntry -> ReadOutcome, files: seq<FileEntry>) {
    forall i | 0 <= i < |files| :: source(files[i].manifest) == (files[i].language, read(files[i]))
  }

  function Fresh(w: World, m: Manifest): PendingRecord {
    ReadPending(w.tools, w.source(m).0, m, w.source(m).1)
  }

  /** One vector per text. */
  ghost function Embedded(e: Text -> seq<F32>, texts: seq<Text>): (vectors: seq<seq<F32>>)
    ensures |vectors| == |texts|
  {
    seq(|texts|, i requires 0 <= i < |texts| => e(texts[i]))
  }

  /** The provider's contract. */
  ghost predicate Pointwise(provider: Provider, w: World) {
    && w.FixedDimension()
    && (forall batch :: provider.embed(batch) == Ok(Embedded(w.e, batch)))
  }

  lemma {:induction false} PointwiseBatches(provider: Provider, w: World, texts: seq<Text>)
    requires Pointwise(provider, w)
    ensures EmbedBatches(provider, texts) == Ok(Embedded(w.e, texts))
    decreases |texts|
  {
    if texts != [] {
      var n := if |texts| < EMBEDDING_BATCH_SIZE then |texts| else EMBEDDING_BATCH_SIZE;
      PointwiseBatches(provider, w, texts[n..]);
      assert Embedded(w.e, texts[..n]) + Embedded(w.e, texts[n..]) == Embedded(w.e, texts);
    }
  }

  /** The vectors of a record's chunks. */
  ghost function ChunkRows(e: Text -> seq<F32>, chunks: seq<Chunk>): (vectors: seq<seq<F32>>)
    ensures |vectors| == |chunks|
  {
    Embedded(e, Contents(chunks))
  }

  /** A record that says what its manifest entry stands for and whose rows are its chunks' vectors. */
  ghost predicate FaithfulRecord(
    w: World, rows: seq<seq<F32>>, r: FileRecord)
  {
    var anew := Fresh(w, r.manifest);
    && r.contentHash == anew.contentHash && r.chunks == anew.chunks
    && r.IsConsistent()
    && r.embeddingStart + r.embeddingCount <= |rows|
    && rows[r.embeddingStart..r.embeddingStart + r.embeddingCount] == ChunkRows(w.e, r.chunks)
  }

  ghost predicate FaithfulRows(w: World,
                               c: CachedIndex, rows: seq<seq<F32>>)
  {
    && Uniform(w.d, rows) && c.embeddings == MatrixOf(w.d, rows)
    && forall i | 0 <= i < |c.payload.files| :: FaithfulRecord(w, rows, c.payload.files[i])
  }

  /** A cache image that describes the source truly. */
  ghost predicate Faithful(w: World, c: CachedIndex) {
    exists rows :: FaithfulRows(w, c, rows)
  }

  /** The record a from-scratch index makes for an entry whose rows begin at `start`. */
  function FreshRecord(w: World, m: Manifest, start: nat): FileRecord {
    var r := Fresh(w, m);
    FileRecord(m, r.contentHash, r.chunks, start, |r.chunks|)
  }

  /** The records of a from-scratch index in file order, packed from row `start` on. */
  function Layout(w: World, files: seq<FileEntry>, start: nat): (records: seq<FileRecord>)
    ensures |records| == |files|
  {
    if files == [] then []
    else
      var r := FreshRecord(w, files[0].manifest, start);
      [r] + Layout(w, files[1..], start + r.embeddingCount)
  }

  /** The rows of a from-scratch index in file order. */
  ghost function Rows(w: World, files: seq<FileEntry>): seq<seq<F32>> {
    if files == [] then []
    else ChunkRows(w.e, Fresh(w, files[0].manifest).chunks) + Rows(w, files[1..])
  }

  /** The cache image of a from-scratch index. */
  ghost function Ideal(w: World,
                       root: Path, content: ContentFilter, modelId: string, files: seq<FileEntry>): CachedIndex
  {
    var matrix := MatrixOf(w.d, Rows(w, files));
    CachedIndex(
      NewPayload(w.tools.codec, root, content, modelId, matrix, SortBy(PathLe, Layout(w, files, 0))),
      matrix)
  }

  lemma {:induction false} RowsUniform(
    w: World, files: seq<FileEntry>)
    requires w.FixedDimension()
    ensures Uniform(w.d, Rows(w, files))
  {
    if files != [] {
      RowsUniform(w, files[1..]);
    }
  }

  /** Records planned for reuse come from the previous map and match their file. */
  ghost predicate ReusesWell(w: World, rows: seq<seq<F32>>,
                             files: seq<FileEntry>, slots: seq<Slot>)
  {
    && |slots| == |files|
    && forall i | 0 <= i < |slots| && slots[i].Reused? ::
         slots[i].record.manifest == files[i].manifest && FaithfulRecord(w, rows, slots[i].record)
  }

  lemma {:induction false} PlanReusesWell(w: World, rows: seq<seq<F32>>,
                                          files: seq<FileEntry>, previous: map<Path, FileRecord>)
    requires forall p | p in previous :: FaithfulRecord(w, rows, previous[p])
    ensures ReusesWell(w, rows, files, Plan(files, previous))
  {
    if files != [] {
      PlanReusesWell(w, rows, files[1..], previous - {files[0].manifest.path});
    }
  }

  lemma {:induction false} ByPathMembers(records: seq<FileRecord>)
    ensures forall p | p in ByPath(records) :: ByPath(records)[p] in records
  {
    if records != [] {
      ByPathMembers(records[..|records| - 1]);
    }
  }

  /**
   The packing loop between two files: `rows` are packed, `slots` and `pending` belong to the
   remaining `files`, and the unread changed rows are the vectors of the pending texts.
   */
  ghost predicate Packing(w: World, read: FileEntry -> ReadOutcome, prior: seq<seq<F32>>, changed: seq<seq<F32>>,
                          files: seq<FileEntry>, slots: seq<Slot>, pending: seq<PendingRecord>,
                          rows: seq<seq<F32>>, p: Packed)
  {
    && w.FixedDimension() && Uniform(w.d, prior) && Uniform(w.d, changed) && Uniform(w.d, rows)
    && Agrees(w.source, read, files) && ReusesWell(w, prior, files, slots)
    && pending == PendingOf(w.tools, read, files, slots) && Aligned(slots, pending)
    && p.embeddings == MatrixOf(w.d, rows)
    && p.cursor <= |changed| && changed[p.cursor..] == Embedded(w.e, PendingTexts(pending))
  }

  /** Copying a faithful record's rows packs exactly what a from-scratch index packs. */
  lemma PackFaithful(w: World, prior: seq<seq<F32>>, rows: seq<seq<F32>>, p: Packed, r: FileRecord)
    requires w.FixedDimension() && Uniform(w.d, prior) && Uniform(w.d, rows)
    requires FaithfulRecord(w, prior, r) && p.embeddings == MatrixOf(w.d, rows)
    ensures PackReused(p, MatrixOf(w.d, prior), r)
         == Ok(Packed(MatrixOf(w.d, rows + ChunkRows(w.e, Fresh(w, r.manifest).chunks)),
                      p.records + [FreshRecord(w, r.manifest, |rows|)], p.cursor))
  {
    RowsOfMatrix(w.d, rows);
    ExtendRowsOf(w.d, rows, prior, r.embeddingStart, r.embeddingCount);
    hide ExtendRows, MatrixOf;
  }

  /** So does copying the next vectors of the changed matrix. */
  lemma PackFresh(w: World, changed: seq<seq<F32>>, rows: seq<seq<F32>>, p: Packed, m: Manifest)
    requires w.FixedDimension() && Uniform(w.d, changed) && Uniform(w.d, rows)
    requires var chunks := Fresh(w, m).chunks;
             p.cursor + |chunks| <= |changed| && changed[p.cursor..p.cursor + |chunks|] == ChunkRows(w.e, chunks)
    requires p.embeddings == MatrixOf(w.d, rows)
    ensures PackPending(p, MatrixOf(w.d, changed), Fresh(w, m))
         == Ok(Packed(MatrixOf(w.d, rows + ChunkRows(w.e, Fresh(w, m).chunks)),
                      p.records + [FreshRecord(w, m, |rows|)], p.cursor + |Fresh(w, m).chunks|))
  {
    RowsOfMatrix(w.d, rows);
    ExtendRowsOf(w.d, rows, changed, p.cursor, |Fresh(w, m).chunks|);
    hide ExtendRows, MatrixOf;
  }

  lemma TakeTexts(e: Text -> seq<F32>, changed: seq<seq<F32>>, cursor: nat, chunks: seq<Chunk>, rest: seq<Text>)
    requires cursor <= |changed| && changed[cursor..] == Embedded(e, Contents(chunks) + rest)
    ensures cursor + |chunks| <= |changed|
    ensures changed[cursor..cursor + |chunks|] == ChunkRows(e, chunks)
    ensures changed[cursor + |chunks|..] == Embedded(e, rest)
  {
    var tail := changed[cursor..];
    assert |tail| == |chunks| + |rest|;
    forall i | 0 <= i < |chunks|
      ensures changed[cursor + i] == ChunkRows(e, chunks)[i]
    {
      assert tail[i] == changed[cursor + i];
    }
    forall i | 0 <= i < |rest|
      ensures changed[cursor + |chunks| + i] == Embedded(e, rest)[i]
    {
      assert tail[|chunks| + i] == changed[cursor + |chunks| + i];
    }
  }

  /** The loop state after packing the first of `files`. */
  function Advance(w: World, p: Packed, m: Manifest, rows: nat, matrix: Matrix, cursor: nat): Packed {
    Packed(matrix, p.records + [FreshRecord(w, m, rows)], cursor)
  }

  lemma PackReusedIsFresh(w: World, read: FileEntry -> ReadOutcome, prior: seq<seq<F32>>, changed: seq<seq<F32>>,
                      files: seq<FileEntry>, slots: seq<Slot>, pending: seq<PendingRecord>,
                      rows: seq<seq<F32>>, p: Packed)
    returns (q: Packed)
    requires Packing(w, read, prior, changed, files, slots, pending, rows, p) && files != [] && slots[0].Reused?
    ensures var more := rows + ChunkRows(w.e, Fresh(w, files[0].manifest).chunks);
            && Packing(w, read, prior, changed, files[1..], slots[1..], pending, more, q)
            && q == Advance(w, p, files[0].manifest, |rows|, MatrixOf(w.d, more), p.cursor)
            && PackReused(p, MatrixOf(w.d, prior), slots[0].record) == Ok(q)
  {
    var more := rows + ChunkRows(w.e, Fresh(w, files[0].manifest).chunks);
    PackFaithful(w, prior, rows, p, slots[0].record);
    hide PackReused, MatrixOf, PendingTexts, Fresh, ChunkRows, FreshRecord, FaithfulRecord;
    q := Advance(w, p, files[0].manifest, |rows|, MatrixOf(w.d, more), p.cursor);
    RowsFixed(w, Fresh(w, files[0].manifest).chunks);
  }

  lemma PackPendingIsFresh(w: World, read: FileEntry -> ReadOutcome, prior: seq<seq<F32>>, changed: seq<seq<F32>>,
                       files: seq<FileEntry>, slots: seq<Slot>, pending: seq<PendingRecord>,
                       rows: seq<seq<F32>>, p: Packed)
    returns (q: Packed)
    requires Packing(w, read, prior, changed, files, slots, pending, rows, p) && files != [] && slots[0].Pending?
    requires pending != [] && Aligned(slots[1..], pending[1..])
    ensures var more := rows + ChunkRows(w.e, Fresh(w, files[0].manifest).chunks);
            && Packing(w, read, prior, changed, files[1..], slots[1..], pending[1..], more, q)
            && q == Advance(w, p, files[0].manifest, |rows|, MatrixOf(w.d, more), q.cursor)
            && PackPending(p, MatrixOf(w.d, changed), pending[0]) == Ok(q)
  {
    var m := files[0].manifest;
    var more := rows + ChunkRows(w.e, Fresh(w, m).chunks);
    assert pending[0] == Fresh(w, m);
    assert pending[1..] == PendingOf(w.tools, read, files[1..], slots[1..]);
    TakeTexts(w.e, changed, p.cursor, pending[0].chunks, PendingTexts(pending[1..]));
    PackFresh(w, changed, rows, p, m);
    q := Advance(w, p, m, |rows|, MatrixOf(w.d, more), p.cursor + |pending[0].chunks|);
    hide PackPending, MatrixOf, PendingTexts, Fresh, ChunkRows, FreshRecord, FaithfulRecord, PendingOf, PendingCount;
    RowsFixed(w, Fresh(w, m).chunks);
  }

  lemma RowsFixed(w: World, chunks: seq<Chunk>)
    requires w.FixedDimension()
    ensures Uniform(w.d, ChunkRows(w.e, chunks))
  {
  }

  /** Packing one slot adds the file's from-scratch rows and record, reused or not. */
  lemma PackOne(w: World, read: FileEntry -> ReadOutcome, prior: seq<seq<F32>>, changed: seq<seq<F32>>,
                files: seq<FileEntry>, slots: seq<Slot>, pending: seq<PendingRecord>,
                rows: seq<seq<F32>>, p: Packed)
    returns (left: seq<PendingRecord>, q: Packed)
    requires Packing(w, read, prior, changed, files, slots, pending, rows, p) && files != []
    ensures var more := rows + ChunkRows(w.e, Fresh(w, files[0].manifest).chunks);
            && Packing(w, read, prior, changed, files[1..], slots[1..], left, more, q)
            && q.records == p.records + [FreshRecord(w, files[0].manifest, |rows|)]
            && PackAll(p, slots, pending, MatrixOf(w.d, prior), MatrixOf(w.d, changed))
            == PackAll(q, slots[1..], left, MatrixOf(w.d, prior), MatrixOf(w.d, changed))
  {
    hide PackAll, PackReused, PackPending, MatrixOf, FreshRecord, Fresh, ChunkRows, PendingOf, PendingCount;
    PackStep(p, files, slots, pending, MatrixOf(w.d, prior), MatrixOf(w.d, changed), 0);
    if slots[0].Reused? {
      left := pending;
      q := PackReusedIsFresh(w, read, prior, changed, files, slots, pending, rows, p);
    } else {
      left := pending[1..];
      q := PackPendingIsFresh(w, read, prior, changed, files, slots, pending, rows, p);
    }
  }

  /** Packing all slots yields the from-scratch rows and records. */
  lemma {:induction false} PackingIsLayout(
    w: World, read: FileEntry -> ReadOutcome, prior: seq<seq<F32>>, changed: seq<seq<F32>>,
    files: seq<FileEntry>, slots: seq<Slot>, pending: seq<PendingRecord>, rows: seq<seq<F32>>, p: Packed)
    requires Packing(w, read, prior, changed, files, slots, pending, rows, p)
    ensures PackAll(p, slots, pending, MatrixOf(w.d, prior), MatrixOf(w.d, changed))
         == Ok(Packed(MatrixOf(w.d, rows + Rows(w, files)), p.records + Layout(w, files, |rows|), |changed|))
    decreases |files|
  {
    hide PackAll, MatrixOf;
    if files == [] {
      PackEnd(p, pending, MatrixOf(w.d, prior), MatrixOf(w.d, changed));
      assert rows + Rows(w, files) == rows && p.records + Layout(w, files, |rows|) == p.records;
      assert |changed[p.cursor..]| == 0;
    } else {
      var left, q := PackOne(w, read, prior, changed, files, slots, pending, rows, p);
      hide Packing;
      var more := rows + ChunkRows(w.e, Fresh(w, files[0].manifest).chunks);
      PackingIsLayout(w, read, prior, changed, files[1..], slots[1..], left, more, q);
      assert more + Rows(w, files[1..]) == rows + Rows(w, files);
      assert q.records + Layout(w, files[1..], |more|) == p.records + Layout(w, files, |rows|);
    }
  }

  lemma VectorsOf(d: nat, vectors: seq<seq<F32>>)
    requires Uniform(d, vectors)
    ensures VectorsToMatrix(vectors) == Ok(MatrixOf(d, vectors))
  {
  }

  /** Whatever faithful cache is reused, its matrix has rows its records tell the truth about. */
  lemma PreviousRows(w: World, files: seq<FileEntry>, accepted: Option<CachedIndex>) returns (rows: seq<seq<F32>>)
    requires w.FixedDimension() && (accepted.Some? ==> Faithful(w, accepted.value))
    ensures Uniform(w.d, rows) && PreviousMatrix(accepted) == MatrixOf(w.d, rows)
    ensures ReusesWell(w, rows, files, Plan(files, PreviousRecords(accepted)))
  {
    rows := [];
    if accepted.Some? {
      rows :| FaithfulRows(w, accepted.value, rows);
      ByPathMembers(accepted.value.payload.files);
    }
    var records := PreviousRecords(accepted);
    assert forall p | p in records :: FaithfulRecord(w, rows, records[p]);
    hide FaithfulRecord, Plan;
    PlanReusesWell(w, rows, files, records);
  }

  /** Embedding and packing a plan that reuses well gives the from-scratch rows and records. */
  lemma PackedIsIdeal(
    w: World, provider: Provider, files: seq<FileEntry>, read: FileEntry -> ReadOutcome,
    rows: seq<seq<F32>>, slots: seq<Slot>)
    requires Pointwise(provider, w) && Agrees(w.source, read, files)
    requires Uniform(w.d, rows) && ReusesWell(w, rows, files, slots)
    ensures |slots| == |files|
    ensures var pending := PendingOf(w.tools, read, files, slots);
            var vectors := EmbedTexts(provider, PendingTexts(pending));
            && vectors.Ok? && VectorsToMatrix(vectors.value) == Ok(MatrixOf(w.d, vectors.value))
            && Aligned(slots, pending)
            && PackAll(Packed(EMPTY, [], 0), slots, pending, MatrixOf(w.d, rows), MatrixOf(w.d, vectors.value))
            == Ok(Packed(MatrixOf(w.d, Rows(w, files)), Layout(w, files, 0), |vectors.value|))
  {
    var pending := PendingOf(w.tools, read, files, slots);
    PendingOfCount(w.tools, read, files, slots);
    PointwiseBatches(provider, w, PendingTexts(pending));
    var changed := Embedded(w.e, PendingTexts(pending));
    assert EmbedTexts(provider, PendingTexts(pending)) == Ok(changed);
    VectorsOf(w.d, changed);
    assert changed[0..] == changed;
    var start := Packed(EMPTY, [], 0);
    assert Packing(w, read, rows, changed, files, slots, pending, [], start);
    PackingIsLayout(w, read, rows, changed, files, slots, pending, [], start);
    assert [] + Rows(w, files) == Rows(w, files);
    assert [] + Layout(w, files, 0) == Layout(w, files, 0);
  }

  /** A refresh fed any faithful cache, or none, succeeds with the from-scratch payload and matrix. */
  lemma RefreshGivesIdeal(
    w: World, provider: Provider,
    root: Path, content: ContentFilter, files: seq<FileEntry>, read: FileEntry -> ReadOutcome,
    previous: Option<CachedIndex>)
    requires Pointwise(provider, w) && Agrees(w.source, read, files)
    requires previous.Some? ==> Faithful(w, previous.value)
    ensures var r := RefreshResult(w.tools, read, root, content, files, previous, provider);
            && r.Ok?
            && CachedIndex(r.value.payload, r.value.embeddings)
            == Ideal(w, root, content, provider.modelId, files)
  {
    var accepted := Accepted(root, content, provider.modelId, previous);
    var rows := PreviousRows(w, files, accepted);
    PackedIsIdeal(w, provider, files, read, rows, Plan(files, PreviousRecords(accepted)));
    hide Accepted, Plan, PendingOf, EmbedTexts, PendingTexts, VectorsToMatrix, MatrixOf, PackAll, Rows, Layout;
    hide NewPayload, SortBy, PreviousRecords, PreviousMatrix, Leftover, PendingCount, Pointwise, Faithful, Agrees;
  }

  /**
   A record tells the truth about its file: the digest and the chunks of its text; no chunks and the digest of
   nothing, or of the word "unreadable", where there is no text.
   */
  ghost predicate Describes(tools: Tools, file: FileEntry, outcome: ReadOutcome, r: FileRecord) {
    && r.manifest == file.manifest
    && match outcome
       case Read(text) =>
         && r.contentHash == tools.contentHash(text)
         && r.chunks == tools.chunkFile(file.manifest.path, file.language, text)
       case Blank => r.contentHash == tools.contentHash([]) && r.chunks == []
       case Unreadable =>
         && r.contentHash == tools.contentHash([117, 110, 114, 101, 97, 100, 97, 98, 108, 101])
         && r.chunks == []
  }

  /** The record's rows are the vectors of its chunks. */
  ghost predicate RowsDescribe(e: Text -> seq<F32>, m: Matrix, r: FileRecord) {
    && r.embeddingCount == |r.chunks|
    && forall k | 0 <= k < |r.chunks| :: m.Row(r.embeddingStart + k) == Some(e(r.chunks[k].content))
  }

  ghost predicate RecordsDescribe(
    w: World, files: seq<FileEntry>, read: FileEntry -> ReadOutcome, m: Matrix, records: seq<FileRecord>)
  {
    && |records| == |files|
    && forall i | 0 <= i < |files| ::
         Describes(w.tools, files[i], read(files[i]), records[i]) && RowsDescribe(w.e, m, records[i])
  }

  lemma {:induction false} LayoutDescribes(
    w: World, files: seq<FileEntry>, read: FileEntry -> ReadOutcome, start: nat)
    requires Agrees(w.source, read, files)
    ensures forall i | 0 <= i < |files| :: Describes(w.tools, files[i], read(files[i]), Layout(w, files, start)[i])
  {
    if files != [] {
      var r := FreshRecord(w, files[0].manifest, start);
      assert w.source(files[0].manifest) == (files[0].language, read(files[0]));
      LayoutDescribes(w, files[1..], read, start + r.embeddingCount);
    }
  }

  lemma FaithfulRowsDescribe(w: World, rows: seq<seq<F32>>, r: FileRecord)
    requires Uniform(w.d, rows) && FaithfulRecord(w, rows, r)
    ensures RowsDescribe(w.e, MatrixOf(w.d, rows), r)
  {
    RowsOfMatrix(w.d, rows);
    hide MatrixOf, Fresh;
    forall k | 0 <= k < |r.chunks|
      ensures MatrixOf(w.d, rows).Row(r.embeddingStart + k) == Some(w.e(r.chunks[k].content))
    {
      assert rows[r.embeddingStart..r.embeddingStart + r.embeddingCount][k] == rows[r.embeddingStart + k];
    }
  }

  lemma IdealDescribes(
    w: World, root: Path, content: ContentFilter, modelId: string, files: seq<FileEntry>,
    read: FileEntry -> ReadOutcome)
    requires w.FixedDimension() && Agrees(w.source, read, files)
    ensures var c := Ideal(w, root, content, modelId, files);
            && RecordsDescribe(w, files, read, c.embeddings, Layout(w, files, 0))
            && multiset(Layout(w, files, 0)) == multiset(c.payload.files) && Sorted(PathLe, c.payload.files)
  {
    var tiles, rows := Layout(w, files, 0), Rows(w, files);
    RowsUniform(w, files);
    LayoutFaithful(w, files, []);
    assert [] + rows == rows;
    LayoutDescribes(w, files, read, 0);
    PathLeOrders();
    SortByCorrect(PathLe, tiles);
    hide FaithfulRecord, Describes, Layout, SortBy, Rows, MatrixOf;
    forall i | 0 <= i < |files|
      ensures RowsDescribe(w.e, MatrixOf(w.d, rows), tiles[i])
    {
      assert tiles[i] in tiles;
      FaithfulRowsDescribe(w, rows, tiles[i]);
    }
  }

  /**
   What a refresh gives, whatever it reused: one record for each file and no other, each telling the truth about
   the file as it is read now and about its rows, sorted by path, in a payload that a later refresh may use.
   */
  lemma RecordsDescribeFiles(
    w: World, provider: Provider, root: Path, content: ContentFilter, files: seq<FileEntry>,
    read: FileEntry -> ReadOutcome, previous: Option<CachedIndex>)
    requires Pointwise(provider, w) && Agrees(w.source, read, files)
    requires previous.Some? ==> Faithful(w, previous.value)
    ensures var o := RefreshResult(w.tools, read, root, content, files, previous, provider);
            && o.Ok? && Usable(o.value.payload, root, content, provider.modelId)
            && Sorted(PathLe, o.value.payload.files)
            && exists records :: multiset(records) == multiset(o.value.payload.files)
                              && RecordsDescribe(w, files, read, o.value.embeddings, records)
  {
    RefreshGivesIdeal(w, provider, root, content, files, read, previous);
    IdealDescribes(w, root, content, provider.modelId, files, read);
    IdealUsable(w, root, content, provider.modelId, files);
    hide RefreshResult, Ideal, Layout, RecordsDescribe, Usable;
  }

  lemma IdealUsable(w: World, root: Path, content: ContentFilter, modelId: string, files: seq<FileEntry>)
    requires w.FixedDimension()
    ensures Usable(Ideal(w, root, content, modelId, files).payload, root, content, modelId)
  {
    IdealMatches(w, root, content, modelId, files);
    MatchesIff(w.tools.codec, Ideal(w, root, content, modelId, files).payload,
               Ideal(w, root, content, modelId, files).embeddings);
    hide Rows, Layout, SortBy, MatrixOf;
  }

  ghost predicate DistinctPaths(files: seq<FileEntry>) {
    forall i, j | 0 <= i < j < |files| :: files[i].manifest.path != files[j].manifest.path
  }

  /** A walk found this very file: the same path, size and time. */
  ghost predicate Walks(files: seq<FileEntry>, m: Manifest) {
    exists j | 0 <= j < |files| :: files[j].manifest == m
  }

  lemma {:induction false} LayoutKeeps(w: World, files: seq<FileEntry>, start: nat)
    ensures forall j | 0 <= j < |files| :: KeptBy(Layout(w, files, start)[j], files[j].manifest)
  {
    if files != [] {
      LayoutKeeps(w, files[1..], start + FreshRecord(w, files[0].manifest, start).embeddingCount);
    }
  }

  ghost predicate HoldExactly(records: seq<FileRecord>, files: seq<FileEntry>) {
    && (forall r | r in records :: exists j | 0 <= j < |files| :: KeptBy(r, files[j].manifest))
    && forall j | 0 <= j < |files| :: exists k | 0 <= k < |records| :: KeptBy(records[k], files[j].manifest)
  }

  /** The records of a from-scratch image hold exactly the files walked. */
  lemma IdealRecords(
    w: World, root: Path, content: ContentFilter, modelId: string, files: seq<FileEntry>, records: seq<FileRecord>)
    requires records == Ideal(w, root, content, modelId, files).payload.files
    ensures HoldExactly(records, files)
  {
    var tiles := Layout(w, files, 0);
    LayoutKeeps(w, files, 0);
    SortByContents(PathLe, tiles);
    hide Layout, SortBy, KeptBy;
    forall r | r in records
      ensures exists j | 0 <= j < |files| :: KeptBy(r, files[j].manifest)
    {
      assert r in tiles;
    }
    forall j | 0 <= j < |files|
      ensures exists k | 0 <= k < |records| :: KeptBy(records[k], files[j].manifest)
    {
      assert tiles[j] in records;
    }
  }

  /** A file is kept from a previous walk's records exactly when that walk found this very file. */
  lemma KeepsWalked(files: seq<FileEntry>, now: seq<FileEntry>, records: seq<FileRecord>, i: nat)
    requires DistinctPaths(files) && DistinctPaths(now) && i < |now|
    requires HoldExactly(records, files)
    ensures KeepsRecord(now, records, i) <==> Walks(files, now[i].manifest)
  {
    var m := now[i].manifest;
    if Walks(files, m) {
      var j :| 0 <= j < |files| && files[j].manifest == m;
      var k :| 0 <= k < |records| && KeptBy(records[k], m);
      ByPathIsLast(records, m.path);
      LastExists(records, k);
      var l: nat :| LastOf(records, l, m.path);
      assert records[l] in records;
    }
    if KeepsRecord(now, records, i) {
      var k: nat :| LastOf(records, k, m.path) && KeptBy(records[k], m);
      assert records[k] in records;
    }
  }

  lemma LastExists(records: seq<FileRecord>, k: nat)
    requires k < |records|
    ensures exists l: nat :: LastOf(records, l, records[k].manifest.path)
    decreases |records| - k
  {
    var path := records[k].manifest.path;
    if l :| k < l < |records| && records[l].manifest.path == path {
      LastExists(records, l);
    } else {
      assert LastOf(records, k, path);
    }
  }

  /**
   The work of a refresh is that of the change since the last one: whatever the last one reused, exactly the files
   it walked with the same manifest entry are reused, all others are read again, and the deleted ones are the
   paths no longer walked.
   */
  lemma OnlyChangesAreRead(
    w: World, provider: Provider, root: Path, content: ContentFilter, before: Option<CachedIndex>,
    files: seq<FileEntry>, first: FileEntry -> ReadOutcome, now: seq<FileEntry>, read: FileEntry -> ReadOutcome)
    requires Pointwise(provider, w) && Agrees(w.source, first, files) && Agrees(w.source, read, now)
    requires DistinctPaths(files) && DistinctPaths(now) && (before.Some? ==> Faithful(w, before.value))
    ensures var last := RefreshResult(w.tools, first, root, content, files, before, provider);
            && last.Ok?
            && var cache := CachedIndex(last.value.payload, last.value.embeddings);
               var o := RefreshResult(w.tools, read, root, content, now, Some(cache), provider);
               && o.Ok?
               && o.value.reusedFiles == |set i: nat | i < |now| && Walks(files, now[i].manifest)|
               && o.value.reusedFiles + o.value.reembeddedFiles == |now|
               && o.value.deletedFiles
                  == |(set i | 0 <= i < |files| :: files[i].manifest.path)
                      - (set i | 0 <= i < |now| :: now[i].manifest.path)|
  {
    RefreshGivesIdeal(w, provider, root, content, files, first, before);
    hide *;
    IdealIsReused(w, provider, root, content, files, now, read);
  }

  lemma IdealIsReused(
    w: World, provider: Provider, root: Path, content: ContentFilter, files: seq<FileEntry>,
    now: seq<FileEntry>, read: FileEntry -> ReadOutcome)
    requires Pointwise(provider, w) && Agrees(w.source, read, now) && DistinctPaths(files) && DistinctPaths(now)
    ensures var cache := Ideal(w, root, content, provider.modelId, files);
            var o := RefreshResult(w.tools, read, root, content, now, Some(cache), provider);
            && o.Ok?
            && o.value.reusedFiles == |set i: nat | i < |now| && Walks(files, now[i].manifest)|
            && o.value.reusedFiles + o.value.reembeddedFiles == |now|
            && o.value.deletedFiles
               == |(set i | 0 <= i < |files| :: files[i].manifest.path)
                   - (set i | 0 <= i < |now| :: now[i].manifest.path)|
  {
    var modelId := provider.modelId;
    var ideal := Ideal(w, root, content, modelId, files);
    var records := ideal.payload.files;
    hide *;
    FixedByPointwise(provider, w);
    IdealIsFaithful(w, root, content, modelId, files);
    IdealIsAccepted(w, root, content, modelId, files);
    IdealRecords(w, root, content, modelId, files, records);
    RefreshCounts(w, provider, root, content, now, read, Some(ideal));
    RefreshReuses(w.tools, read, root, content, now, Some(ideal), provider);
    KnownPaths(files, records);
    forall i: nat | i < |now|
      ensures KeepsRecord(now, records, i) <==> Walks(files, now[i].manifest)
    {
      KeepsWalked(files, now, records, i);
    }
    assert (set i: nat | i < |now| && KeepsRecord(now, records, i))
        == set i: nat | i < |now| && Walks(files, now[i].manifest);
  }

  lemma FixedByPointwise(provider: Provider, w: World)
    requires Pointwise(provider, w)
    ensures w.FixedDimension()
  {
  }

  lemma IdealIsAccepted(w: World, root: Path, content: ContentFilter, modelId: string, files: seq<FileEntry>)
    requires w.FixedDimension()
    ensures var ideal := Ideal(w, root, content, modelId, files);
            && Accepted(root, content, modelId, Some(ideal)) == Some(ideal)
            && UsableRecords(root, content, modelId, Some(ideal)) == ideal.payload.files
            && PreviousRecords(Some(ideal)) == ByPath(ideal.payload.files)
  {
    IdealUsable(w, root, content, modelId, files);
    UsableIff(Ideal(w, root, content, modelId, files).payload, root, content, modelId);
    hide Ideal, Usable;
  }

  lemma KnownPaths(files: seq<FileEntry>, records: seq<FileRecord>)
    requires HoldExactly(records, files)
    ensures ByPath(records).Keys == set i | 0 <= i < |files| :: files[i].manifest.path
  {
    var known := ByPath(records);
    forall p
      ensures p in known <==> exists i | 0 <= i < |files| :: files[i].manifest.path == p
    {
      ByPathIsLast(records, p);
      if p in known {
        var k: nat :| LastOf(records, k, p);
        assert records[k] in records;
      }
      if i :| 0 <= i < |files| && files[i].manifest.path == p {
        var k :| 0 <= k < |records| && KeptBy(records[k], files[i].manifest);
        LastExists(records, k);
      }
    }
  }

  /** Two refreshes that succeed with the same payload and the same matrix. */
  predicate SameImage(a: Result<Outcome, CodeSearchError>, b: Result<Outcome, CodeSearchError>) {
    && a.Ok? && b.Ok?
    && a.value.payload == b.value.payload
    && a.value.embeddings == b.value.embeddings
  }

  lemma {:induction false} LayoutFaithful(
    w: World, files: seq<FileEntry>, before: seq<seq<F32>>)
    ensures var all := before + Rows(w, files);
            forall r | r in Layout(w, files, |before|) :: FaithfulRecord(w, all, r)
  {
    if files != [] {
      var anew := Fresh(w, files[0].manifest);
      var more := before + ChunkRows(w.e, anew.chunks);
      LayoutFaithful(w, files[1..], more);
      assert more + Rows(w, files[1..]) == before + Rows(w, files);
      var all := before + Rows(w, files);
      assert all[|before|..|before| + |anew.chunks|] == ChunkRows(w.e, anew.chunks);
    }
  }

  /** What a refresh produces is again a cache that may be reused. */
  lemma IdealIsFaithful(w: World,
                        root: Path, content: ContentFilter, modelId: string, files: seq<FileEntry>)
    requires w.FixedDimension()
    ensures Faithful(w, Ideal(w, root, content, modelId, files))
  {
    var rows := Rows(w, files);
    RowsUniform(w, files);
    LayoutFaithful(w, files, []);
    assert [] + rows == rows;
    SortByContents(PathLe, Layout(w, files, 0));
    var c := Ideal(w, root, content, modelId, files);
    forall i | 0 <= i < |c.payload.files|
      ensures FaithfulRecord(w, rows, c.payload.files[i])
    {
      assert c.payload.files[i] in c.payload.files;
    }
    assert FaithfulRows(w, c, rows);
  }

  /** What a refresh produces passes the check that guards saving. */
  lemma IdealMatches(w: World, root: Path, content: ContentFilter, modelId: string, files: seq<FileEntry>)
    requires w.FixedDimension()
    ensures var c := Ideal(w, root, content, modelId, files); Matches(w.tools.codec, c.payload, c.embeddings)
  {
    var c := Ideal(w, root, content, modelId, files);
    IdealIsFaithful(w, root, content, modelId, files);
    var rows :| FaithfulRows(w, c, rows);
    RowsOfMatrix(w.d, rows);
  }

  /** One refresh of a run: the files found and what reading them gave then. */
  datatype Visit = Visit(files: seq<FileEntry>, read: FileEntry -> ReadOutcome)

  /** The results of a run in which every refresh is fed the previous outcome. */
  function Run(tools: Tools, root: Path, content: ContentFilter, provider: Provider,
               visits: seq<Visit>, previous: Option<CachedIndex>): seq<Result<Outcome, CodeSearchError>>
  {
    if visits == [] then []
    else
      var r := RefreshResult(tools, visits[0].read, root, content, visits[0].files, previous, provider);
      var next := if r.Ok? then Some(CachedIndex(r.value.payload, r.value.embeddings)) else previous;
      [r] + Run(tools, root, content, provider, visits[1..], next)
  }

  /** Over any run on changing files, every refresh equals a from-scratch refresh of its own files. */
  lemma {:induction false} EveryRefreshEqualsScratch(
    w: World, provider: Provider,
    root: Path, content: ContentFilter, visits: seq<Visit>, previous: Option<CachedIndex>)
    requires Pointwise(provider, w)
    requires forall k | 0 <= k < |visits| :: Agrees(w.source, visits[k].read, visits[k].files)
    requires previous.Some? ==> Faithful(w, previous.value)
    ensures var results := Run(w.tools, root, content, provider, visits, previous);
            && |results| == |visits|
            && forall k | 0 <= k < |visits| ::
                 SameImage(results[k],
                           RefreshResult(w.tools, visits[k].read, root, content, visits[k].files, None, provider))
  {
    if visits != [] {
      var v := visits[0];
      var r := RefreshResult(w.tools, v.read, root, content, v.files, previous, provider);
      RefreshGivesIdeal(w, provider, root, content, v.files, v.read, previous);
      RefreshGivesIdeal(w, provider, root, content, v.files, v.read, None);
      IdealIsFaithful(w, root, content, provider.modelId, v.files);
      hide RefreshResult, Faithful, Ideal;
      var next := Some(CachedIndex(r.value.payload, r.value.embeddings));
      EveryRefreshEqualsScratch(w, provider, root, content, visits[1..], next);
      var rest := Run(w.tools, root, content, provider, visits[1..], next);
      assert Run(w.tools, root, content, provider, visits, previous) == [r] + rest;
      hide Run;
      forall k | 0 < k < |visits|
        ensures SameImage(([r] + rest)[k],
                          RefreshResult(w.tools, visits[k].read, root, content, visits[k].files, None, provider))
      {
        assert visits[k] == visits[1..][k - 1] && ([r] + rest)[k] == rest[k - 1];
      }
    }
  }

  function EndRow(r: FileRecord): nat {
    r.embeddingStart + r.embeddingCount
  }

  /** Records whose row ranges run from `start` to `end` without gap or overlap. */
  ghost predicate Tiles(records: seq<FileRecord>, start: nat, end: nat) {
    if records == [] then start == end
    else records[0].embeddingStart == start && Tiles(records[1..], EndRow(records[0]), end)
  }

  lemma {:induction false} LayoutTiles(w: World, files: seq<FileEntry>, start: nat)
    ensures Tiles(Layout(w, files, start), start, start + |Rows(w, files)|)
    ensures forall i | 0 <= i < |files| :: Layout(w, files, start)[i].manifest == files[i].manifest
  {
    if files != [] {
      var r := FreshRecord(w, files[0].manifest, start);
      LayoutTiles(w, files[1..], EndRow(r));
      assert Layout(w, files, start)[1..] == Layout(w, files[1..], EndRow(r));
    }
  }

  /** After any refresh the records are path-sorted and their row ranges tile 0 to the row count. */
  lemma RefreshTilesRows(w: World, root: Path, content: ContentFilter, modelId: string, files: seq<FileEntry>)
    requires w.FixedDimension()
    ensures var c := Ideal(w, root, content, modelId, files);
            && c.payload.embeddingRows == c.embeddings.RowCount() == |Rows(w, files)|
            && Sorted(PathLe, c.payload.files)
            && exists tiles :: multiset(tiles) == multiset(c.payload.files) && Tiles(tiles, 0, c.embeddings.RowCount())
  {
    var tiles := Layout(w, files, 0);
    RowsUniform(w, files);
    RowsOfMatrix(w.d, Rows(w, files));
    LayoutTiles(w, files, 0);
    PathLeOrders();
    SortByCorrect(PathLe, tiles);
    hide MatrixOf, SortBy, Layout, Rows;
    assert Tiles(tiles, 0, |Rows(w, files)|);
  }

  lemma PathLeOrders()
    ensures TotalPreorder(PathLe)
  {
    PathTotalOrder();
    forall a: FileRecord, b: FileRecord, c: FileRecord | PathLe(a, b) && PathLe(b, c)
      ensures PathLe(a, c)
    {
      var x, y, z := a.manifest.path, b.manifest.path, c.manifest.path;
      assert ComparePath(x, y) == Equal <==> x == y;
      assert ComparePath(y, z) == Equal <==> y == z;
    }
    forall a: FileRecord, b: FileRecord
      ensures PathLe(a, b) || PathLe(b, a)
    {
      assert ComparePath(a.manifest.path, b.manifest.path) == ComparePath(b.manifest.path, a.manifest.path).Reverse();
    }
  }

  /** The counters: every file is reused or read again, and the deleted ones are the unmatched paths. */
  lemma RefreshCounts(
    w: World, provider: Provider,
    root: Path, content: ContentFilter, files: seq<FileEntry>, read: FileEntry -> ReadOutcome,
    previous: Option<CachedIndex>)
    requires Pointwise(provider, w) && Agrees(w.source, read, files)
    requires previous.Some? ==> Faithful(w, previous.value)
    ensures var o := RefreshResult(w.tools, read, root, content, files, previous, provider);
            var known := PreviousRecords(Accepted(root, content, provider.modelId, previous));
            && o.Ok?
            && o.value.reusedFiles + o.value.reembeddedFiles == |files|
            && o.value.deletedFiles == |known.Keys - (set i | 0 <= i < |files| :: files[i].manifest.path)|
  {
    RefreshGivesIdeal(w, provider, root, content, files, read, previous);
    var known := PreviousRecords(Accepted(root, content, provider.modelId, previous));
    LeftoverKeys(files, known);
    assert |Leftover(files, known)| == |Leftover(files, known).Keys|;
  }

  lemma {:induction false} LeftoverKeys(files: seq<FileEntry>, previous: map<Path, FileRecord>)
    ensures Leftover(files, previous).Keys == previous.Keys - (set i | 0 <= i < |files| :: files[i].manifest.path)
  {
    var paths := set i | 0 <= i < |files| :: files[i].manifest.path;
    if files != [] {
      var rest := set i | 0 <= i < |files[1..]| :: files[1..][i].manifest.path;
      LeftoverKeys(files[1..], previous - {files[0].manifest.path});
      forall p
        ensures p in paths <==> p == files[0].manifest.path || p in rest
      {
        if p in rest {
          var i :| 0 <= i < |files[1..]| && files[1..][i].manifest.path == p;
          assert files[i + 1].manifest.path == p;
        }
        if p in paths && p != files[0].manifest.path {
          var i :| 0 <= i < |files| && files[i].manifest.path == p;
          assert files[1..][i - 1].manifest.path == p;
        }
      }
    }
  }
}
