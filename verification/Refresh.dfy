/**
 Incremental index refresh (crates/code-search/src/refresh.rs): records whose manifest is unchanged
 are reused, other files are read, chunked and embedded again, and all rows are packed into a new
 dense matrix. `Refresh` is the loop form and `RefreshResult` the function it computes; the lemmas
 of `Incremental` show that reuse is invisible.
 */
module Refresh {
  import opened Wrappers
  import opened Orders
  import opened Types
  import opened Matrix
  import opened Cache

  const EMBEDDING_BATCH_SIZE: nat := 256

  /** The embedding provider as a deterministic function of one batch. */
  datatype Provider = Provider(
    modelId: string, embed: seq<Text> -> Result<seq<seq<F32>>, CodeSearchError>)

  /** What reading a file can give: text, nothing worth indexing, or a read error. */
  datatype ReadOutcome = Read(text: Text) | Blank | Unreadable

  /** The chunker and the content digest. */
  datatype Tools = Tools(
    chunkFile: (Path, string, Text) -> seq<Chunk>, contentHash: Text -> string, codec: Codec)

  /** The bytes of "unreadable". */
  const UNREADABLE: Text := [0x75, 0x6E, 0x72, 0x65, 0x61, 0x64, 0x61, 0x62, 0x6C, 0x65]

  datatype PendingRecord = PendingRecord(manifest: Manifest, contentHash: string, chunks: seq<Chunk>)

  /** `PendingFileRecord::read`. */
  function ReadPending(tools: Tools, language: string, manifest: Manifest, outcome: ReadOutcome): PendingRecord {
    match outcome
    case Read(text) => PendingRecord(manifest, tools.contentHash(text), tools.chunkFile(manifest.path, language, text))
    case Blank => PendingRecord(manifest, tools.contentHash([]), [])
    case Unreadable => PendingRecord(manifest, tools.contentHash(UNREADABLE), [])
  }

  datatype Slot = Reused(record: FileRecord) | Pending

  datatype Outcome = Outcome(
    payload: Payload, embeddings: Matrix, reusedFiles: nat, reembeddedFiles: nat, deletedFiles: nat)

  /** The `HashMap` of previous records by path; a later record replaces an earlier one. */
  function ByPath(records: seq<FileRecord>): map<Path, FileRecord> {
    if records == [] then map[]
    else ByPath(records[..|records| - 1])[records[|records| - 1].manifest.path := records[|records| - 1]]
  }

  /** Which files reuse a record; every lookup removes the record from the map. */
  function Plan(files: seq<FileEntry>, previous: map<Path, FileRecord>): (slots: seq<Slot>)
    ensures |slots| == |files|
  {
    if files == [] then []
    else
      var m := files[0].manifest;
      var slot := if m.path in previous && previous[m.path].CanReuseFor(m) then Reused(previous[m.path]) else Pending;
      [slot] + Plan(files[1..], previous - {m.path})
  }

  /** The records read again, in slot order. */
  function PendingOf(tools: Tools, read: FileEntry -> ReadOutcome, files: seq<FileEntry>, slots: seq<Slot>)
    : (pending: seq<PendingRecord>)
    requires |slots| == |files|
  {
    if files == [] then []
    else
      (if slots[0].Pending?
       then [ReadPending(tools, files[0].language, files[0].manifest, read(files[0]))] else [])
      + PendingOf(tools, read, files[1..], slots[1..])
  }

  function Contents(chunks: seq<Chunk>): (texts: seq<Text>)
    ensures |texts| == |chunks|
  {
    seq(|chunks|, i requires 0 <= i < |chunks| => chunks[i].content)
  }

  function PendingTexts(pending: seq<PendingRecord>): seq<Text> {
    if pending == [] then [] else Contents(pending[0].chunks) + PendingTexts(pending[1..])
  }

  /** Provider calls in batches of at most 256 texts, stopping at the first failure. */
  function EmbedBatches(provider: Provider, texts: seq<Text>): Result<seq<seq<F32>>, CodeSearchError>
    decreases |texts|
  {
    if texts == [] then Ok([])
    else
      var n := if |texts| < EMBEDDING_BATCH_SIZE then |texts| else EMBEDDING_BATCH_SIZE;
      var vectors := provider.embed(texts[..n]);
      if vectors.Err? then vectors else Prepend(vectors.value, EmbedBatches(provider, texts[n..]))
  }

  /** Vectors already obtained, followed by what the remaining texts give. */
  function Prepend(vectors: seq<seq<F32>>, r: Result<seq<seq<F32>>, CodeSearchError>)
    : Result<seq<seq<F32>>, CodeSearchError>
  {
    if r.Err? then r else Ok(vectors + r.value)
  }

  function EmbedTexts(provider: Provider, texts: seq<Text>): Result<seq<seq<F32>>, CodeSearchError> {
    match EmbedBatches(provider, texts)
    case Err(e) => Err(e)
    case Ok(vectors) => if |vectors| != |texts| then Err(CountMismatch) else Ok(vectors)
  }

  /** The matrix and the records built so far, and the next unread row of the changed matrix. */
  datatype Packed = Packed(embeddings: Matrix, records: seq<FileRecord>, cursor: nat)

  /** Packing one slot. */
  function PackReused(p: Packed, prior: Matrix, r: FileRecord): Result<Packed, CodeSearchError> {
    match ExtendRows(p.embeddings, prior, r.embeddingStart, r.embeddingCount)
    case Err(e) => Err(e)
    case Ok(m) =>
      Ok(Packed(m, p.records + [r.(embeddingStart := p.embeddings.RowCount())], p.cursor))
  }

  function PackPending(p: Packed, changed: Matrix, r: PendingRecord): Result<Packed, CodeSearchError> {
    match ExtendRows(p.embeddings, changed, p.cursor, |r.chunks|)
    case Err(e) => Err(e)
    case Ok(m) =>
      var record := FileRecord(r.manifest, r.contentHash, r.chunks, p.embeddings.RowCount(), |r.chunks|);
      Ok(Packed(m, p.records + [record], p.cursor + |r.chunks|))
  }

  ghost predicate Aligned(slots: seq<Slot>, pending: seq<PendingRecord>) {
    |pending| == PendingCount(slots)
  }

  function PendingCount(slots: seq<Slot>): nat {
    if slots == [] then 0 else (if slots[0].Pending? then 1 else 0) + PendingCount(slots[1..])
  }

  function PackAll(p: Packed, slots: seq<Slot>, pending: seq<PendingRecord>, prior: Matrix, changed: Matrix)
    : Result<Packed, CodeSearchError>
    requires Aligned(slots, pending)
    decreases |slots|
  {
    if slots == [] then Ok(p)
    else
      match slots[0]
      case Reused(r) =>
        (match PackReused(p, prior, r)
         case Err(e) => Err(e)
         case Ok(q) => PackAll(q, slots[1..], pending, prior, changed))
      case Pending =>
        (match PackPending(p, changed, pending[0])
         case Err(e) => Err(e)
         case Ok(q) => PackAll(q, slots[1..], pending[1..], prior, changed))
  }

  predicate PathLe(a: FileRecord, b: FileRecord) {
    ComparePath(a.manifest.path, b.manifest.path) != Greater
  }

  /** The previous cache, kept only when it answers for this root, content filter and model. */
  function Accepted(root: Path, content: ContentFilter, modelId: string, previous: Option<CachedIndex>)
    : Option<CachedIndex>
  {
    if previous.Some? && previous.value.payload.IsValidFor(root, content, modelId) then previous else None
  }

  function PreviousMatrix(previous: Option<CachedIndex>): Matrix {
    if previous.Some? then previous.value.embeddings else EMPTY
  }

  function PreviousRecords(previous: Option<CachedIndex>): map<Path, FileRecord> {
    if previous.Some? then ByPath(previous.value.payload.files) else map[]
  }

  lemma {:induction false} PendingOfCount(
    tools: Tools, read: FileEntry -> ReadOutcome, files: seq<FileEntry>, slots: seq<Slot>)
    requires |slots| == |files|
    ensures Aligned(slots, PendingOf(tools, read, files, slots)) && PendingCount(slots) <= |slots|
  {
    if files != [] {
      PendingOfCount(tools, read, files[1..], slots[1..]);
    }
  }

  /** The result of a refresh, over every input. */
  function RefreshResult(tools: Tools, read: FileEntry -> ReadOutcome, root: Path, content: ContentFilter,
                         files: seq<FileEntry>, previous: Option<CachedIndex>, provider: Provider)
    : Result<Outcome, CodeSearchError>
  {
    var accepted := Accepted(root, content, provider.modelId, previous);
    var prior := PreviousRecords(accepted);
    var slots := Plan(files, prior);
    var pending := PendingOf(tools, read, files, slots);
    PendingOfCount(tools, read, files, slots);
    var vectors := EmbedTexts(provider, PendingTexts(pending));
    if vectors.Err? then Err(vectors.error)
    else
      var changed := VectorsToMatrix(vectors.value);
      if changed.Err? then Err(changed.error)
      else
        var packed := PackAll(Packed(EMPTY, [], 0), slots, pending, PreviousMatrix(accepted), changed.value);
        if packed.Err? then Err(packed.error)
        else
          var p := packed.value;
          Ok(Outcome(
               NewPayload(tools.codec, root, content, provider.modelId, p.embeddings, SortBy(PathLe, p.records)),
               p.embeddings, |files| - |pending|, |pending|, |Leftover(files, prior)|))
  }

  /** The records no current file asked for. */
  function Leftover(files: seq<FileEntry>, previous: map<Path, FileRecord>): map<Path, FileRecord> {
    if files == [] then previous else Leftover(files[1..], previous - {files[0].manifest.path})
  }

  /** What a cache must say to be used: its versions, root, content filter, model, and sound row ranges. */
  predicate Usable(p: Payload, root: Path, content: ContentFilter, modelId: string) {
    && p.cacheVersion == 5 && p.chunkerVersion == 2 && p.embeddingFormat == F32LittleEndian
    && p.root == root && p.content == content && p.modelId == modelId
    && forall r | r in p.files ::
         |r.chunks| == r.embeddingCount && r.embeddingStart + r.embeddingCount <= p.embeddingRows
  }

  lemma UsableIff(p: Payload, root: Path, content: ContentFilter, modelId: string)
    ensures p.IsValidFor(root, content, modelId) <==> Usable(p, root, content, modelId)
  {
  }

  /** A cache of another version, root, content filter or model, or with a bad row range, is as good as none. */
  lemma StaleCacheIsIgnored(
    tools: Tools, read: FileEntry -> ReadOutcome, root: Path, content: ContentFilter, files: seq<FileEntry>,
    stale: CachedIndex, provider: Provider)
    requires !Usable(stale.payload, root, content, provider.modelId)
    ensures RefreshResult(tools, read, root, content, files, Some(stale), provider)
         == RefreshResult(tools, read, root, content, files, None, provider)
  {
    UsableIff(stale.payload, root, content, provider.modelId);
    hide PackAll, EmbedTexts, VectorsToMatrix;
  }

  /** Record `k` is the last one of a path. */
  predicate LastOf(records: seq<FileRecord>, k: nat, path: Path) {
    k < |records| && records[k].manifest.path == path
    && forall l | k < l < |records| :: records[l].manifest.path != path
  }

  lemma {:induction false} ByPathIsLast(records: seq<FileRecord>, path: Path)
    ensures path in ByPath(records) <==> exists k: nat :: LastOf(records, k, path)
    ensures forall k: nat | LastOf(records, k, path) :: ByPath(records)[path] == records[k]
  {
    if records != [] {
      var front, last := records[..|records| - 1], |records| - 1;
      ByPathIsLast(front, path);
      if records[last].manifest.path == path {
        assert LastOf(records, last, path);
      } else {
        forall k: nat
          ensures LastOf(records, k, path) <==> LastOf(front, k, path)
        {
        }
      }
    }
  }

  /**
   A file keeps its record: it is the first of its path, and the last record of that path has exactly its
   manifest entry and as many rows as chunks.
   */
  ghost predicate KeepsRecord(files: seq<FileEntry>, records: seq<FileRecord>, i: nat) {
    && i < |files| && (forall j | 0 <= j < i :: files[j].manifest.path != files[i].manifest.path)
    && exists k: nat :: LastOf(records, k, files[i].manifest.path) && KeptBy(records[k], files[i].manifest)
  }

  predicate KeptBy(r: FileRecord, m: Manifest) {
    r.manifest == m && |r.chunks| == r.embeddingCount
  }

  lemma {:induction false} PlanReusesAt(files: seq<FileEntry>, previous: map<Path, FileRecord>, i: nat)
    requires i < |files|
    ensures var m := files[i].manifest;
            Plan(files, previous)[i].Reused?
            <==> && m.path in previous && KeptBy(previous[m.path], m)
                 && forall j | 0 <= j < i :: files[j].manifest.path != m.path
  {
    if i > 0 {
      PlanReusesAt(files[1..], previous - {files[0].manifest.path}, i - 1);
      assert forall j | 0 < j < i :: files[j] == files[1..][j - 1];
    }
  }

  lemma {:induction false} ReusedCount(slots: seq<Slot>)
    ensures |set i | 0 <= i < |slots| && slots[i].Reused?| + PendingCount(slots) == |slots|
  {
    if slots != [] {
      var last := |slots| - 1;
      var front := slots[..last];
      ReusedCount(front);
      PendingCountAppend(front, slots[last]);
      assert slots == front + [slots[last]];
      var all, fewer := set i | 0 <= i < |slots| && slots[i].Reused?, set i | 0 <= i < |front| && front[i].Reused?;
      assert all == fewer + if slots[last].Reused? then {last} else {};
    }
  }

  lemma {:induction false} PendingCountAppend(slots: seq<Slot>, slot: Slot)
    ensures PendingCount(slots + [slot]) == PendingCount(slots) + if slot.Pending? then 1 else 0
  {
    if slots == [] {
      assert [slot][1..] == [];
    } else {
      assert (slots + [slot])[1..] == slots[1..] + [slot];
      PendingCountAppend(slots[1..], slot);
    }
  }

  /** The records a refresh may reuse: those of a cache that answers for it. */
  function UsableRecords(root: Path, content: ContentFilter, modelId: string, previous: Option<CachedIndex>)
    : seq<FileRecord>
  {
    if previous.Some? && Usable(previous.value.payload, root, content, modelId) then previous.value.payload.files
    else []
  }

  /** Exactly the files that keep their record are counted as reused, and all others as read again. */
  lemma RefreshReuses(
    tools: Tools, read: FileEntry -> ReadOutcome, root: Path, content: ContentFilter, files: seq<FileEntry>,
    previous: Option<CachedIndex>, provider: Provider)
    ensures var o := RefreshResult(tools, read, root, content, files, previous, provider);
            var records := UsableRecords(root, content, provider.modelId, previous);
            o.Ok? ==>
              && o.value.reusedFiles == |set i: nat | i < |files| && KeepsRecord(files, records, i)|
              && o.value.reusedFiles + o.value.reembeddedFiles == |files|
  {
    var records := UsableRecords(root, content, provider.modelId, previous);
    var prior := PreviousRecords(Accepted(root, content, provider.modelId, previous));
    if previous.Some? {
      UsableIff(previous.value.payload, root, content, provider.modelId);
    }
    assert prior == ByPath(records);
    var slots := Plan(files, prior);
    PlanKeeps(files, records);
    ReusedCount(slots);
    PendingOfCount(tools, read, files, slots);
    assert (set i | 0 <= i < |slots| && slots[i].Reused?) == set i: nat | i < |files| && KeepsRecord(files, records, i);
    hide PackAll, EmbedTexts, VectorsToMatrix, Plan, KeepsRecord, SortBy, PendingCount, PendingOf, PendingTexts;
    hide Usable, UsableRecords, Accepted, PreviousRecords, PreviousMatrix, NewPayload, Leftover, ByPath;
  }

  lemma PlanKeeps(files: seq<FileEntry>, records: seq<FileRecord>)
    ensures forall i: nat | i < |files| :: Plan(files, ByPath(records))[i].Reused? <==> KeepsRecord(files, records, i)
  {
    forall i: nat | i < |files|
      ensures Plan(files, ByPath(records))[i].Reused? <==> KeepsRecord(files, records, i)
    {
      PlanReusesAt(files, ByPath(records), i);
      ByPathIsLast(records, files[i].manifest.path);
      hide Plan, ByPath, LastOf;
    }
  }

  /** The `k`th batch: at most 256 consecutive texts. */
  function BatchAt(texts: seq<Text>, k: nat): seq<Text>
    requires 256 * k < |texts|
  {
    texts[256 * k..if 256 * k + 256 <= |texts| then 256 * k + 256 else |texts|]
  }

  lemma BatchAtShift(texts: seq<Text>, k: nat)
    requires 256 * k + 256 < |texts|
    ensures BatchAt(texts[256..], k) == BatchAt(texts, k + 1)
  {
    var rest, from := texts[256..], 256 * k;
    var to := if from + 256 <= |rest| then from + 256 else |rest|;
    assert rest[from..to] == texts[from + 256..to + 256];
  }

  /** The vectors of the batches from the `k`th on, each embedded by one call. */
  function BatchVectors(provider: Provider, texts: seq<Text>, k: nat): seq<seq<F32>>
    decreases |texts| - 256 * k
  {
    if 256 * k >= |texts| then []
    else
      var r := provider.embed(BatchAt(texts, k));
      (if r.Ok? then r.value else []) + BatchVectors(provider, texts, k + 1)
  }

  /** Batch `k` is the first whose call fails. */
  predicate FirstFailure(provider: Provider, texts: seq<Text>, k: nat) {
    && 256 * k < |texts| && provider.embed(BatchAt(texts, k)).Err?
    && forall l: nat | l < k :: provider.embed(BatchAt(texts, l)).Ok?
  }

  lemma {:induction false} BatchesShift(provider: Provider, texts: seq<Text>, k: nat)
    requires |texts| >= 256
    ensures BatchVectors(provider, texts[256..], k) == BatchVectors(provider, texts, k + 1)
    decreases |texts| - 256 * k
  {
    if 256 * k < |texts[256..]| {
      BatchesShift(provider, texts, k + 1);
      BatchAtShift(texts, k);
    }
  }

  /** The provider is called on consecutive batches of 256 texts, the last one shorter, up to the first failure. */
  lemma {:induction false} ProviderCalls(provider: Provider, texts: seq<Text>)
    ensures EmbedBatches(provider, texts).Ok? <==> forall k: nat :: !FirstFailure(provider, texts, k)
    ensures EmbedBatches(provider, texts).Ok? ==>
              EmbedBatches(provider, texts).value == BatchVectors(provider, texts, 0)
    ensures forall k: nat | FirstFailure(provider, texts, k) ::
              EmbedBatches(provider, texts) == provider.embed(BatchAt(texts, k))
    decreases |texts|
  {
    if texts != [] {
      var n := if |texts| < 256 then |texts| else 256;
      assert BatchAt(texts, 0) == texts[..n];
      if provider.embed(texts[..n]).Err? {
        assert FirstFailure(provider, texts, 0);
      } else if n < |texts| {
        var rest := texts[256..];
        ProviderCalls(provider, rest);
        BatchesShift(provider, texts, 0);
        forall k: nat
          ensures FirstFailure(provider, texts, k) <==> k > 0 && FirstFailure(provider, rest, k - 1)
        {
          FailureShifts(provider, texts, k);
        }
        forall k: nat | FirstFailure(provider, rest, k)
          ensures FirstFailure(provider, texts, k + 1)
        {
          FailureShifts(provider, texts, k + 1);
        }
        forall k: nat | FirstFailure(provider, texts, k)
          ensures EmbedBatches(provider, texts) == provider.embed(BatchAt(texts, k))
        {
          FailureShifts(provider, texts, k);
          BatchAtShift(texts, k - 1);
        }
      } else {
        assert texts[n..] == [] && BatchVectors(provider, texts, 1) == [];
        assert forall k: nat | k > 0 :: 256 * k >= |texts|;
      }
    }
  }

  lemma FailureShifts(provider: Provider, texts: seq<Text>, k: nat)
    requires |texts| > 256 && provider.embed(BatchAt(texts, 0)).Ok?
    ensures FirstFailure(provider, texts, k) <==> k > 0 && FirstFailure(provider, texts[256..], k - 1)
  {
    forall l: nat | 256 * l < |texts[256..]|
      ensures BatchAt(texts[256..], l) == BatchAt(texts, l + 1)
    {
      BatchAtShift(texts, l);
    }
    hide BatchAt;
    if k > 0 && FirstFailure(provider, texts, k) {
      forall l: nat | l < k - 1
        ensures provider.embed(BatchAt(texts[256..], l)).Ok?
      {
        assert provider.embed(BatchAt(texts, l + 1)).Ok?;
      }
    }
    if k > 0 && FirstFailure(provider, texts[256..], k - 1) {
      forall l: nat | l < k
        ensures provider.embed(BatchAt(texts, l)).Ok?
      {
        if l > 0 {
          assert provider.embed(BatchAt(texts[256..], l - 1)).Ok?;
        }
      }
    }
  }

  lemma BatchFull(provider: Provider, batch: seq<Text>, rest: seq<Text>)
    requires |batch| == EMBEDDING_BATCH_SIZE
    ensures EmbedBatches(provider, batch + rest)
         == (var vectors := provider.embed(batch);
             if vectors.Err? then vectors else Prepend(vectors.value, EmbedBatches(provider, rest)))
  {
    assert (batch + rest)[..EMBEDDING_BATCH_SIZE] == batch && (batch + rest)[EMBEDDING_BATCH_SIZE..] == rest;
  }

  lemma PrependTwice(a: seq<seq<F32>>, b: seq<seq<F32>>, r: Result<seq<seq<F32>>, CodeSearchError>)
    ensures Prepend(a, Prepend(b, r)) == Prepend(a + b, r)
  {
    if r.Ok? {
      assert a + (b + r.value) == a + b + r.value;
    }
  }

  /** The texts not yet put into a batch when record `i` has been read up to chunk `j`. */
  function Unbatched(pending: seq<PendingRecord>, i: nat, j: nat): seq<Text>
    requires i < |pending| && j <= |pending[i].chunks|
  {
    Contents(pending[i].chunks)[j..] + PendingTexts(pending[i + 1..])
  }

  /** The vectors so far, followed by what the texts left give, are what all texts give. */
  ghost predicate Batched(provider: Provider, texts: seq<Text>, embeddings: seq<seq<F32>>, left: seq<Text>) {
    EmbedBatches(provider, texts) == Prepend(embeddings, EmbedBatches(provider, left))
  }

  lemma BatchedFirst(provider: Provider, texts: seq<Text>)
    ensures Batched(provider, texts, [], [] + texts)
  {
    var all := EmbedBatches(provider, texts);
    assert [] + texts == texts && (all.Ok? ==> [] + all.value == all.value);
  }

  lemma NextText(pending: seq<PendingRecord>, i: nat, j: nat, batch: seq<Text>)
    requires i < |pending| && j < |pending[i].chunks|
    ensures batch + Unbatched(pending, i, j) == batch + [pending[i].chunks[j].content] + Unbatched(pending, i, j + 1)
  {
    var texts, rest := Contents(pending[i].chunks), PendingTexts(pending[i + 1..]);
    assert texts[j..] == [texts[j]] + texts[j + 1..];
    hide PendingTexts;
    Reassociate([texts[j]], texts[j + 1..], rest);
    Reassociate(batch, [texts[j]], texts[j + 1..] + rest);
  }

  lemma RecordEnds(pending: seq<PendingRecord>, i: nat)
    requires i < |pending|
    ensures Unbatched(pending, i, 0) == PendingTexts(pending[i..])
    ensures Unbatched(pending, i, |pending[i].chunks|) == PendingTexts(pending[i + 1..])
    ensures |PendingTexts(pending[i..])| == |pending[i].chunks| + |PendingTexts(pending[i + 1..])|
  {
    assert pending[i..][0] == pending[i] && pending[i..][1..] == pending[i + 1..];
  }

  lemma FullBatch(
    provider: Provider, texts: seq<Text>, embeddings: seq<seq<F32>>, batch: seq<Text>, rest: seq<Text>)
    requires Batched(provider, texts, embeddings, batch + rest) && |batch| == EMBEDDING_BATCH_SIZE
    ensures var vectors := provider.embed(batch);
            if vectors.Err? then EmbedBatches(provider, texts) == vectors
            else Batched(provider, texts, embeddings + vectors.value, [] + rest)
  {
    BatchFull(provider, batch, rest);
    var vectors := provider.embed(batch);
    assert [] + rest == rest;
    hide EmbedBatches;
    if vectors.Ok? {
      PrependTwice(embeddings, vectors.value, EmbedBatches(provider, rest));
    }
  }

  lemma LastBatch(provider: Provider, texts: seq<Text>, embeddings: seq<seq<F32>>, batch: seq<Text>)
    requires Batched(provider, texts, embeddings, batch + []) && |batch| < EMBEDDING_BATCH_SIZE
    ensures batch == [] ==> EmbedBatches(provider, texts) == Ok(embeddings)
    ensures batch != [] ==>
              var vectors := provider.embed(batch);
              EmbedBatches(provider, texts) == if vectors.Err? then vectors else Ok(embeddings + vectors.value)
  {
    assert batch + [] == batch && batch[..|batch|] == batch && batch[|batch|..] == [];
    assert embeddings + [] == embeddings && EmbedBatches(provider, []) == Ok([]);
    if batch != [] && provider.embed(batch).Ok? {
      var vectors := provider.embed(batch).value;
      assert EmbedBatches(provider, batch) == Prepend(vectors, Ok([])) && vectors + [] == vectors;
    }
  }

  lemma NothingPending(pending: seq<PendingRecord>)
    ensures PendingTexts(pending[|pending|..]) == [] && pending[0..] == pending
  {
  }

  /** `embed_pending_chunks`. */
  method EmbedPendingChunks(provider: Provider, pending: seq<PendingRecord>)
    returns (r: Result<seq<seq<F32>>, CodeSearchError>)
    ensures r == EmbedTexts(provider, PendingTexts(pending))
  {
    hide *;
    ghost var texts := PendingTexts(pending);
    var expectedChunks := 0;
    var embeddings: seq<seq<F32>> := [];
    var batch: seq<Text> := [];
    BatchedFirst(provider, texts);
    NothingPending(pending);
    EmbeddedTexts(provider, texts);
    for i := 0 to |pending|
      invariant |batch| < EMBEDDING_BATCH_SIZE
      invariant expectedChunks + |PendingTexts(pending[i..])| == |texts|
      invariant Batched(provider, texts, embeddings, batch + PendingTexts(pending[i..]))
    {
      var chunks := pending[i].chunks;
      RecordEnds(pending, i);
      for j := 0 to |chunks|
        invariant |batch| < EMBEDDING_BATCH_SIZE
        invariant Batched(provider, texts, embeddings, batch + Unbatched(pending, i, j))
      {
        NextText(pending, i, j, batch);
        batch := batch + [chunks[j].content];
        if |batch| == EMBEDDING_BATCH_SIZE {
          FullBatch(provider, texts, embeddings, batch, Unbatched(pending, i, j + 1));
          var vectors := provider.embed(batch);
          if vectors.Err? {
            return Err(vectors.error);
          }
          embeddings := embeddings + vectors.value;
          batch := [];
        }
      }
      expectedChunks := expectedChunks + |chunks|;
    }
    LastBatch(provider, texts, embeddings, batch);
    if batch != [] {
      var vectors := provider.embed(batch);
      if vectors.Err? {
        return Err(vectors.error);
      }
      embeddings := embeddings + vectors.value;
    }
    if |embeddings| != expectedChunks {
      return Err(CountMismatch);
    }
    return Ok(embeddings);
  }

  lemma EmbeddedTexts(provider: Provider, texts: seq<Text>)
    ensures var r := EmbedBatches(provider, texts);
            EmbedTexts(provider, texts)
            == if r.Err? then r else if |r.value| != |texts| then Err(CountMismatch) else r
    ensures EMBEDDING_BATCH_SIZE > 0
  {
  }

  /** `IndexRefresh::refresh`. */
  method Refresh(tools: Tools, read: FileEntry -> ReadOutcome, root: Path, content: ContentFilter,
                 files: seq<FileEntry>, previous: Option<CachedIndex>, provider: Provider)
    returns (r: Result<Outcome, CodeSearchError>)
    ensures r == RefreshResult(tools, read, root, content, files, previous, provider)
  {
    hide Plan, PendingOf, PendingFiles, EmbedTexts, PendingTexts, VectorsToMatrix, PackAll, Leftover, PendingCount;
    hide NewPayload, SortBy, Accepted, PreviousRecords, PreviousMatrix, Queued;
    var accepted := Accepted(root, content, provider.modelId, previous);
    var previousEmbeddings := PreviousMatrix(accepted);
    var previousRecords := PreviousRecords(accepted);
    ghost var prior := previousRecords;
    ghost var plan := Plan(files, prior);

    var slots, pendingFiles, reusedFiles, deletedFiles := PlanSlots(files, previousRecords);
    assert slots == plan;
    var pending := ReadAll(tools, read, pendingFiles);
    PendingFilesRead(tools, read, files, slots, 0);
    PendingOfCount(tools, read, files, slots);

    var vectors := EmbedPendingChunks(provider, pending);
    if vectors.Err? {
      return Err(vectors.error);
    }
    var changed := FromVectors(vectors.value);
    if changed.Err? {
      return Err(changed.error);
    }
    var packed := PackSlots(files, slots, pendingFiles, pending, previousEmbeddings, changed.value);
    if packed.Err? {
      return Err(packed.error);
    }
    var p := packed.value;
    return Ok(Outcome(
                NewPayload(tools.codec, root, content, provider.modelId, p.embeddings, SortBy(PathLe, p.records)),
                p.embeddings, reusedFiles, |pending|, deletedFiles));
  }

  /** A file waiting to be read, with the position of its slot. */
  datatype QueuedFile = QueuedFile(slot: nat, file: FileEntry)

  /** The pending files with their slot positions. */
  function PendingFiles(files: seq<FileEntry>, slots: seq<Slot>, from: nat): seq<QueuedFile>
    requires |slots| == |files|
  {
    if files == [] then []
    else
      (if slots[0].Pending? then [QueuedFile(from, files[0])] else [])
      + PendingFiles(files[1..], slots[1..], from + 1)
  }

  /** The planning loop after `i` files: what is decided, and what the rest of the plan will add. */
  ghost predicate Planned(
    files: seq<FileEntry>, records: map<Path, FileRecord>, i: nat, previous: map<Path, FileRecord>,
    slots: seq<Slot>, pendingFiles: seq<QueuedFile>)
  {
    var plan := Plan(files, records);
    && i <= |files| && slots == plan[..i] && Plan(files[i..], previous) == plan[i..]
    && Leftover(files, records) == Leftover(files[i..], previous)
    && PendingFiles(files, plan, 0) == pendingFiles + PendingFiles(files[i..], plan[i..], i)
  }

  lemma PlannedNext(
    files: seq<FileEntry>, records: map<Path, FileRecord>, i: nat, previous: map<Path, FileRecord>,
    slots: seq<Slot>, pendingFiles: seq<QueuedFile>)
    requires Planned(files, records, i, previous, slots, pendingFiles) && i < |files|
    ensures var m := files[i].manifest;
            var reuse := m.path in previous && previous[m.path].CanReuseFor(m);
            Planned(files, records, i + 1, previous - {m.path},
                    slots + [if reuse then Reused(previous[m.path]) else Pending],
                    if reuse then pendingFiles else pendingFiles + [QueuedFile(i, files[i])])
  {
    var plan := Plan(files, records);
    var rest := PendingFiles(files[i + 1..], plan[i + 1..], i + 1);
    PlanStep(files[i..], previous, i);
    assert files[i..][1..] == files[i + 1..] && plan[i..][1..] == plan[i + 1..];
    hide Plan, PendingFiles, Leftover;
    Reassociate(pendingFiles, [QueuedFile(i, files[i])], rest);
  }

  lemma PlannedFirst(files: seq<FileEntry>, records: map<Path, FileRecord>)
    ensures Planned(files, records, 0, records, [], [])
  {
    hide Plan, PendingFiles, Leftover;
    assert files[0..] == files && Plan(files, records)[0..] == Plan(files, records);
  }

  lemma PlannedAll(
    files: seq<FileEntry>, records: map<Path, FileRecord>, previous: map<Path, FileRecord>,
    slots: seq<Slot>, pendingFiles: seq<QueuedFile>)
    requires Planned(files, records, |files|, previous, slots, pendingFiles)
    ensures slots == Plan(files, records) && Leftover(files, records) == previous
    ensures pendingFiles == PendingFiles(files, slots, 0)
  {
    PlanEnd(previous);
    hide Plan, PendingFiles, Leftover;
    assert files[|files|..] == [] && Plan(files, records)[|files|..] == [];
  }

  /** The first loop: decide reuse and queue the other files. */
  method PlanSlots(files: seq<FileEntry>, records: map<Path, FileRecord>)
    returns (slots: seq<Slot>, pendingFiles: seq<QueuedFile>, reusedFiles: nat, deletedFiles: nat)
    ensures slots == Plan(files, records)
    ensures pendingFiles == PendingFiles(files, slots, 0)
    ensures reusedFiles == |files| - |pendingFiles|
    ensures deletedFiles == |Leftover(files, records)|
  {
    hide *;
    var previous := records;
    slots, pendingFiles, reusedFiles := [], [], 0;
    PlannedFirst(files, records);
    for i := 0 to |files|
      invariant Planned(files, records, i, previous, slots, pendingFiles)
      invariant |slots| == i && reusedFiles == i - |pendingFiles|
    {
      var file := files[i];
      PlannedNext(files, records, i, previous, slots, pendingFiles);
      var path := file.manifest.path;
      if path in previous && previous[path].CanReuseFor(file.manifest) {
        reusedFiles := reusedFiles + 1;
        slots := slots + [Reused(previous[path])];
      } else {
        pendingFiles := pendingFiles + [QueuedFile(|slots|, file)];
        slots := slots + [Pending];
      }
      previous := previous - {path};
    }
    PlannedAll(files, records, previous, slots, pendingFiles);
    deletedFiles := |previous|;
  }

  lemma PlanEnd(previous: map<Path, FileRecord>)
    ensures Plan([], previous) == [] && Leftover([], previous) == previous
    ensures forall from: nat :: PendingFiles([], [], from) == []
  {
  }

  function NextQueued(reuse: bool, from: nat, file: FileEntry, rest: seq<QueuedFile>): seq<QueuedFile> {
    if reuse then rest else [QueuedFile(from, file)] + rest
  }

  /** One iteration of the planning loop. */
  lemma PlanStep(files: seq<FileEntry>, previous: map<Path, FileRecord>, from: nat)
    requires files != []
    ensures var m, rest := files[0].manifest, previous - {files[0].manifest.path};
            var reuse := m.path in previous && previous[m.path].CanReuseFor(m);
            && Plan(files, previous)[0] == (if reuse then Reused(previous[m.path]) else Pending)
            && Plan(files, previous)[1..] == Plan(files[1..], rest)
            && Leftover(files, previous) == Leftover(files[1..], rest)
            && PendingFiles(files, Plan(files, previous), from)
            == NextQueued(reuse, from, files[0], PendingFiles(files[1..], Plan(files[1..], rest), from + 1))
  {
  }

  /** Reading every queued file, in slot order. */
  method ReadAll(tools: Tools, read: FileEntry -> ReadOutcome, pendingFiles: seq<QueuedFile>)
    returns (pending: seq<PendingRecord>)
    ensures pending == Queued(tools, read, pendingFiles)
  {
    pending := [];
    for k := 0 to |pendingFiles|
      invariant |pending| == k
      invariant forall j | 0 <= j < k :: pending[j] == ReadFile(tools, read, pendingFiles[j].file)
    {
      pending := pending + [ReadFile(tools, read, pendingFiles[k].file)];
    }
  }

  function Queued(tools: Tools, read: FileEntry -> ReadOutcome, queue: seq<QueuedFile>)
    : (pending: seq<PendingRecord>)
    ensures |pending| == |queue|
  {
    seq(|queue|, k requires 0 <= k < |queue| => ReadFile(tools, read, queue[k].file))
  }

  function ReadFile(tools: Tools, read: FileEntry -> ReadOutcome, file: FileEntry): PendingRecord {
    ReadPending(tools, file.language, file.manifest, read(file))
  }

  lemma {:induction false} PendingFilesRead(
    tools: Tools, read: FileEntry -> ReadOutcome, files: seq<FileEntry>, slots: seq<Slot>, from: nat)
    requires |slots| == |files|
    ensures PendingOf(tools, read, files, slots) == Queued(tools, read, PendingFiles(files, slots, from))
  {
    if files != [] {
      PendingFilesRead(tools, read, files[1..], slots[1..], from + 1);
    }
  }

  /** One iteration of the packing loop. */
  lemma PackStep(p: Packed, files: seq<FileEntry>, slots: seq<Slot>, pending: seq<PendingRecord>,
                 prior: Matrix, changed: Matrix, from: nat)
    requires slots != [] && |files| == |slots| && Aligned(slots, pending)
    ensures slots[0].Pending? ==> pending != [] && Aligned(slots[1..], pending[1..])
    ensures slots[0].Reused? ==> Aligned(slots[1..], pending)
    ensures PendingFiles(files, slots, from)
         == NextQueued(slots[0].Reused?, from, files[0], PendingFiles(files[1..], slots[1..], from + 1))
    ensures PackAll(p, slots, pending, prior, changed)
         == (var q := if slots[0].Reused? then PackReused(p, prior, slots[0].record)
                      else PackPending(p, changed, pending[0]);
             if q.Err? then Err(q.error)
             else PackAll(q.value, slots[1..], if slots[0].Reused? then pending else pending[1..], prior, changed))
  {
  }

  lemma PackEnd(p: Packed, pending: seq<PendingRecord>, prior: Matrix, changed: Matrix)
    requires Aligned([], pending)
    ensures PackAll(p, [], pending, prior, changed) == Ok(p)
  {
  }

  /** Copying the old rows of a reused record. */
  method PackOneReused(embeddings: EmbeddingMatrix, prior: Matrix, record: FileRecord,
                       ghost cursor: nat, ghost records: seq<FileRecord>)
    returns (r: Result<FileRecord, CodeSearchError>)
    modifies embeddings
    ensures PackReused(Packed(old(embeddings.Value()), records, cursor), prior, record)
         == if r.Err? then Err(r.error) else Ok(Packed(embeddings.Value(), records + [r.value], cursor))
  {
    var embeddingStart := embeddings.Value().RowCount();
    var copied := embeddings.ExtendRowsFrom(prior, record.embeddingStart, record.embeddingCount);
    if copied.Err? {
      return Err(copied.error);
    }
    return Ok(record.(embeddingStart := embeddingStart));
  }

  /** Copying the next rows of the changed matrix. */
  method PackOnePending(embeddings: EmbeddingMatrix, changed: Matrix, record: PendingRecord,
                        cursor: nat, ghost records: seq<FileRecord>)
    returns (r: Result<FileRecord, CodeSearchError>)
    modifies embeddings
    ensures PackPending(Packed(old(embeddings.Value()), records, cursor), changed, record)
         == if r.Err? then Err(r.error)
            else Ok(Packed(embeddings.Value(), records + [r.value], cursor + |record.chunks|))
  {
    var count := |record.chunks|;
    var embeddingStart := embeddings.Value().RowCount();
    var copied := embeddings.ExtendRowsFrom(changed, cursor, count);
    if copied.Err? {
      return Err(copied.error);
    }
    return Ok(FileRecord(record.manifest, record.contentHash, record.chunks, embeddingStart, count));
  }

  /** The packing loop; the position carried by each queued file always is the slot being packed. */
  method PackSlots(ghost files: seq<FileEntry>, slots: seq<Slot>, pendingFiles: seq<QueuedFile>,
                   pending: seq<PendingRecord>, prior: Matrix, changed: Matrix)
    returns (r: Result<Packed, CodeSearchError>)
    requires |files| == |slots| && Aligned(slots, pending)
    requires pendingFiles == PendingFiles(files, slots, 0)
    ensures r == PackAll(Packed(EMPTY, [], 0), slots, pending, prior, changed)
  {
    hide PackAll, PendingFiles, PendingCount, PackReused, PackPending;
    var embeddings := new EmbeddingMatrix();
    var records: seq<FileRecord> := [];
    var cursor: nat, next: nat := 0, 0;
    ghost var queue := pendingFiles;
    assert slots[0..] == slots && pending[0..] == pending && files[0..] == files;
    for i := 0 to |slots|
      invariant next <= |pending| && Aligned(slots[i..], pending[next..])
      invariant next <= |pendingFiles| && queue == pendingFiles[next..]
      invariant queue == PendingFiles(files[i..], slots[i..], i)
      invariant PackAll(Packed(EMPTY, [], 0), slots, pending, prior, changed)
             == PackAll(Packed(embeddings.Value(), records, cursor), slots[i..], pending[next..], prior, changed)
    {
      ghost var p := Packed(embeddings.Value(), records, cursor);
      PackStep(p, files[i..], slots[i..], pending[next..], prior, changed, i);
      assert slots[i..][1..] == slots[i + 1..] && files[i..][1..] == files[i + 1..];
      match slots[i] {
        case Reused(record) =>
          var packed := PackOneReused(embeddings, prior, record, cursor, records);
          if packed.Err? {
            return Err(packed.error);
          }
          records := records + [packed.value];
        case Pending =>
          assert pending[next..][1..] == pending[next + 1..];
          assert pendingFiles[next].slot == i by {
            assert pendingFiles[next] == queue[0];
          }
          queue := queue[1..];
          var packed := PackOnePending(embeddings, changed, pending[next], cursor, records);
          if packed.Err? {
            return Err(packed.error);
          }
          cursor, next := cursor + |pending[next].chunks|, next + 1;
          records := records + [packed.value];
      }
    }
    PackEnd(Packed(embeddings.Value(), records, cursor), pending[next..], prior, changed);
    return Ok(Packed(embeddings.Value(), records, cursor));
  }
}
