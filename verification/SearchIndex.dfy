/**
 Loading a runtime index from a cache image (crates/code-search/src/index.rs). A chunk's id is its
 position, and the row of that number is its embedding.
 */
module SearchIndexes {
  import opened Wrappers
  import opened Orders
  import opened Types
  import opened Matrix
  import opened Cache
  import opened Refresh
  import opened Incremental

  datatype SearchIndex = SearchIndex(
    root: Path, content: ContentFilter, manifest: seq<Manifest>, chunks: seq<Chunk>, embeddings: Matrix,
    indexedFiles: nat)
  {
    predicate ManifestMatches(current: seq<Manifest>) {
      manifest == current
    }
  }

  /** The lists flattened so far. */
  datatype Flat = Flat(manifest: seq<Manifest>, chunks: seq<Chunk>, embeddings: Matrix)

  function Flatten(flat: Flat, records: seq<FileRecord>, cached: Matrix): Result<Flat, CodeSearchError>
    decreases |records|
  {
    if records == [] then Ok(flat)
    else
      var r := records[0];
      if !r.IsConsistent() then Err(CountMismatch)
      else
        var m := ExtendRows(flat.embeddings, cached, r.embeddingStart, r.embeddingCount);
        if m.Err? then Err(m.error)
        else Flatten(Flat(flat.manifest + [r.manifest], flat.chunks + r.chunks, m.value), records[1..], cached)
  }

  /** `from_cached` with `from_parts`, as a function. */
  function FromCachedResult(c: CachedIndex): Result<SearchIndex, CodeSearchError> {
    var flat := Flatten(Flat([], [], EMPTY), c.payload.files, c.embeddings);
    if flat.Err? then Err(flat.error)
    else if |flat.value.chunks| != flat.value.embeddings.RowCount() then Err(CountMismatch)
    else Ok(SearchIndex(c.payload.root, c.payload.content, flat.value.manifest, flat.value.chunks,
                        flat.value.embeddings, |c.payload.files|))
  }

  /** `SearchIndex::from_cached`. */
  method FromCached(c: CachedIndex) returns (r: Result<SearchIndex, CodeSearchError>)
    ensures r == FromCachedResult(c)
  {
    var records := c.payload.files;
    var manifest: seq<Manifest> := [];
    var chunks: seq<Chunk> := [];
    var embeddings := new EmbeddingMatrix();
    assert records[0..] == records;
    for i := 0 to |records|
      invariant Flatten(Flat([], [], EMPTY), records, c.embeddings)
             == Flatten(Flat(manifest, chunks, embeddings.Value()), records[i..], c.embeddings)
    {
      assert records[i..][1..] == records[i + 1..];
      var record := records[i];
      if |record.chunks| != record.embeddingCount {
        return Err(CountMismatch);
      }
      manifest := manifest + [record.manifest];
      chunks := chunks + record.chunks;
      var copied := embeddings.ExtendRowsFrom(c.embeddings, record.embeddingStart, record.embeddingCount);
      if copied.Err? {
        return Err(copied.error);
      }
    }
    if |chunks| != embeddings.Value().RowCount() {
      return Err(CountMismatch);
    }
    return Ok(SearchIndex(c.payload.root, c.payload.content, manifest, chunks, embeddings.Value(), |records|));
  }

  /** The chunks of the entries, in order. */
  function AllChunks(w: World, manifests: seq<Manifest>): seq<Chunk> {
    if manifests == [] then [] else Fresh(w, manifests[0]).chunks + AllChunks(w, manifests[1..])
  }

  /** The index of a manifest list: its chunks in order, and one vector per chunk as the rows. */
  ghost function IdealIndex(w: World, root: Path, content: ContentFilter, manifests: seq<Manifest>): SearchIndex {
    var chunks := AllChunks(w, manifests);
    SearchIndex(root, content, manifests, chunks, MatrixOf(w.d, ChunkRows(w.e, chunks)), |manifests|)
  }

  function Manifests(records: seq<FileRecord>): (manifests: seq<Manifest>)
    ensures |manifests| == |records|
  {
    seq(|records|, i requires 0 <= i < |records| => records[i].manifest)
  }

  /** In an index of a manifest list, row `i` is the embedding of chunk `i`, and there are no other rows. */
  lemma RowIsChunkEmbedding(w: World, root: Path, content: ContentFilter, manifests: seq<Manifest>)
    requires w.FixedDimension()
    ensures var index := IdealIndex(w, root, content, manifests);
            && index.embeddings.RowCount() == |index.chunks|
            && forall i | 0 <= i < |index.chunks| :: index.embeddings.Row(i) == Some(w.e(index.chunks[i].content))
  {
    var chunks := AllChunks(w, manifests);
    RowsFixed(w, chunks);
    RowsOfMatrix(w.d, ChunkRows(w.e, chunks));
  }

  /** What flattening faithful records after `flat` must give. */
  ghost function FlatOf(w: World, manifest: seq<Manifest>, chunks: seq<Chunk>): Flat {
    Flat(manifest, chunks, MatrixOf(w.d, ChunkRows(w.e, chunks)))
  }

  lemma FlattenOne(w: World, rows: seq<seq<F32>>, r: FileRecord, manifest: seq<Manifest>, chunks: seq<Chunk>)
    requires w.FixedDimension() && Uniform(w.d, rows) && FaithfulRecord(w, rows, r)
    ensures ExtendRows(FlatOf(w, manifest, chunks).embeddings, MatrixOf(w.d, rows), r.embeddingStart, r.embeddingCount)
         == Ok(FlatOf(w, manifest, chunks + r.chunks).embeddings)
  {
    RowsFixed(w, chunks);
    ExtendRowsOf(w.d, ChunkRows(w.e, chunks), rows, r.embeddingStart, r.embeddingCount);
    assert ChunkRows(w.e, chunks) + ChunkRows(w.e, r.chunks) == ChunkRows(w.e, chunks + r.chunks);
    hide MatrixOf, ExtendRows;
  }

  lemma {:induction false} FlattenFaithful(
    w: World, rows: seq<seq<F32>>, records: seq<FileRecord>, manifest: seq<Manifest>, chunks: seq<Chunk>)
    requires w.FixedDimension() && Uniform(w.d, rows)
    requires forall i | 0 <= i < |records| :: FaithfulRecord(w, rows, records[i])
    ensures Flatten(FlatOf(w, manifest, chunks), records, MatrixOf(w.d, rows))
         == Ok(FlatOf(w, manifest + Manifests(records), chunks + AllChunks(w, Manifests(records))))
    decreases |records|
  {
    if records == [] {
      assert manifest + Manifests(records) == manifest && chunks + AllChunks(w, Manifests(records)) == chunks;
    } else {
      var r := records[0];
      FlattenOne(w, rows, r, manifest, chunks);
      assert r.IsConsistent();
      FlattenAlgebra(w, rows, records, manifest, chunks);
      hide FlatOf, ExtendRows, FaithfulRecord, AllChunks, Manifests, MatrixOf;
      FlattenFaithful(w, rows, records[1..], manifest + [r.manifest], chunks + r.chunks);
    }
  }

  lemma FlattenAlgebra(
    w: World, rows: seq<seq<F32>>, records: seq<FileRecord>, manifest: seq<Manifest>, chunks: seq<Chunk>)
    requires records != [] && FaithfulRecord(w, rows, records[0])
    ensures var r := records[0];
            var flat := FlatOf(w, manifest, chunks);
            && flat.manifest + [r.manifest] == manifest + [r.manifest] && flat.chunks == chunks
            && manifest + [r.manifest] + Manifests(records[1..]) == manifest + Manifests(records)
            && chunks + r.chunks + AllChunks(w, Manifests(records[1..])) == chunks + AllChunks(w, Manifests(records))
            && FlatOf(w, manifest + [r.manifest], chunks + r.chunks)
            == Flat(manifest + [r.manifest], chunks + r.chunks, FlatOf(w, manifest, chunks + r.chunks).embeddings)
  {
    assert Manifests(records)[1..] == Manifests(records[1..]);
    hide ChunkRows, MatrixOf;
  }

  /** The chunks a file contributes: those of its text, and none without one. */
  function ChunksOf(tools: Tools, path: Path, language: string, outcome: ReadOutcome): seq<Chunk> {
    match outcome
    case Read(text) => tools.chunkFile(path, language, text)
    case _ => []
  }

  /** The chunks of each manifest entry. */
  function EntryChunks(w: World, manifests: seq<Manifest>): (parts: seq<seq<Chunk>>)
    ensures |parts| == |manifests|
  {
    seq(|manifests|, i requires 0 <= i < |manifests| =>
      ChunksOf(w.tools, manifests[i].path, w.source(manifests[i]).0, w.source(manifests[i]).1))
  }

  /** The chunk list of an index is the files' chunks in the order of the manifest, and row `i` embeds chunk `i`. */
  ghost predicate HoldsChunks(w: World, index: SearchIndex) {
    && index.chunks == Concat(EntryChunks(w, index.manifest))
    && index.embeddings.RowCount() == |index.chunks|
    && forall i | 0 <= i < |index.chunks| :: index.embeddings.Row(i) == Some(w.e(index.chunks[i].content))
  }

  lemma IdealHoldsChunks(w: World, root: Path, content: ContentFilter, manifests: seq<Manifest>)
    requires w.FixedDimension()
    ensures HoldsChunks(w, IdealIndex(w, root, content, manifests))
  {
    RowIsChunkEmbedding(w, root, content, manifests);
    AllChunksAre(w, manifests);
    hide AllChunks, EntryChunks, ChunkRows, MatrixOf, Concat;
  }

  lemma {:induction false} AllChunksAre(w: World, manifests: seq<Manifest>)
    ensures AllChunks(w, manifests) == Concat(EntryChunks(w, manifests))
  {
    if manifests != [] {
      AllChunksAre(w, manifests[1..]);
      assert EntryChunks(w, manifests)[1..] == EntryChunks(w, manifests[1..]);
    }
  }

  /** Loading any faithful cache succeeds, and the index depends on the recorded manifests alone. */
  lemma FaithfulCacheLoads(w: World, c: CachedIndex)
    requires w.FixedDimension() && Faithful(w, c)
    ensures FromCachedResult(c)
         == Ok(IdealIndex(w, c.payload.root, c.payload.content, Manifests(c.payload.files)))
  {
    var rows :| FaithfulRows(w, c, rows);
    assert ChunkRows(w.e, []) == [];
    FlattenFaithful(w, rows, c.payload.files, [], []);
    var manifests := Manifests(c.payload.files);
    assert [] + manifests == manifests && [] + AllChunks(w, manifests) == AllChunks(w, manifests);
    RowIsChunkEmbedding(w, c.payload.root, c.payload.content, manifests);
  }

  /** The manifest entries of a walk. */
  function Walked(files: seq<FileEntry>): (manifests: seq<Manifest>)
    ensures |manifests| == |files|
  {
    seq(|files|, i requires 0 <= i < |files| => files[i].manifest)
  }

  /** Discovery sorts its files by path. */
  ghost predicate PathSorted(files: seq<FileEntry>) {
    forall i, j | 0 <= i < j < |files| ::
      ComparePath(files[i].manifest.path, files[j].manifest.path) != Greater
  }

  /** The recorded manifests of a refresh are the path-sorted manifests of the walk. */
  lemma IdealManifests(w: World, root: Path, content: ContentFilter, modelId: string, files: seq<FileEntry>)
    ensures var records := Ideal(w, root, content, modelId, files).payload.files;
            && multiset(Manifests(records)) == multiset(Walked(files))
            && Sorted(PathLe, records)
            && (PathSorted(files) ==> Manifests(records) == Walked(files))
  {
    var tiles := Layout(w, files, 0);
    LayoutTiles(w, files, 0);
    PathLeOrders();
    SortByCorrect(PathLe, tiles);
    assert Manifests(tiles) == Walked(files);
    SortedManifests(tiles);
    if PathSorted(files) {
      SortOfSorted(PathLe, tiles);
    }
  }

  lemma {:induction false} InsertManifest(r: FileRecord, s: seq<FileRecord>)
    ensures multiset(Manifests(Insert(PathLe, r, s))) == multiset{r.manifest} + multiset(Manifests(s))
  {
    if s == [] || PathLe(r, s[0]) {
      assert Manifests([r] + s) == [r.manifest] + Manifests(s);
    } else {
      var rest := Insert(PathLe, r, s[1..]);
      InsertManifest(r, s[1..]);
      assert Manifests([s[0]] + rest) == [s[0].manifest] + Manifests(rest);
      assert Manifests(s) == [s[0].manifest] + Manifests(s[1..]);
    }
  }

  lemma {:induction false} SortedManifests(s: seq<FileRecord>)
    ensures multiset(Manifests(SortBy(PathLe, s))) == multiset(Manifests(s))
  {
    if s != [] {
      SortedManifests(s[1..]);
      InsertManifest(s[0], SortBy(PathLe, s[1..]));
      assert Manifests(s) == [s[0].manifest] + Manifests(s[1..]);
    }
  }

  /** Indexing a walk: refresh with any faithful cache, then load, gives the index of the walked manifests. */
  lemma RefreshThenLoad(w: World, provider: Provider, root: Path, content: ContentFilter,
                        files: seq<FileEntry>, read: FileEntry -> ReadOutcome, previous: Option<CachedIndex>)
    requires Pointwise(provider, w) && Agrees(w.source, read, files) && PathSorted(files)
    requires previous.Some? ==> Faithful(w, previous.value)
    ensures var r := RefreshResult(w.tools, read, root, content, files, previous, provider);
            && r.Ok?
            && FromCachedResult(CachedIndex(r.value.payload, r.value.embeddings))
            == Ok(IdealIndex(w, root, content, Walked(files)))
  {
    RefreshGivesIdeal(w, provider, root, content, files, read, previous);
    IdealIsFaithful(w, root, content, provider.modelId, files);
    FaithfulCacheLoads(w, Ideal(w, root, content, provider.modelId, files));
    IdealManifests(w, root, content, provider.modelId, files);
    hide RefreshResult, FromCachedResult, IdealIndex, Faithful;
  }
}
