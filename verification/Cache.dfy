/**
 The two-file disk cache of crates/code-search/src/cache.rs: a binary sidecar of little-endian f32
 values, then JSON metadata carrying the sidecar's digest.
 */
module Cache {
  import opened Wrappers
  import opened Types
  import opened Matrix
  import opened Utf8

  const CACHE_VERSION: nat := 5
  const CHUNKER_VERSION: nat := 2

  datatype EmbeddingFormat = F32LittleEndian

  datatype FileRecord = FileRecord(
    manifest: Manifest, contentHash: string, chunks: seq<Chunk>, embeddingStart: nat, embeddingCount: nat)
  {
    predicate IsConsistent() {
      |chunks| == embeddingCount
    }

    predicate CanReuseFor(current: Manifest) {
      manifest == current && IsConsistent()
    }
  }

  datatype Payload = Payload(
    cacheVersion: nat, chunkerVersion: nat, root: Path, content: ContentFilter, modelId: string,
    embeddingFormat: EmbeddingFormat, embeddingDimensions: nat, embeddingRows: nat, embeddingSha256: string,
    files: seq<FileRecord>)
  {
    predicate IsInternallyConsistent() {
      forall i | 0 <= i < |files| ::
        files[i].IsConsistent() && files[i].embeddingStart + files[i].embeddingCount <= embeddingRows
    }

    predicate IsValidFor(wantedRoot: Path, wantedContent: ContentFilter, wantedModel: string) {
      && cacheVersion == CACHE_VERSION
      && chunkerVersion == CHUNKER_VERSION
      && root == wantedRoot
      && content == wantedContent
      && modelId == wantedModel
      && embeddingFormat == F32LittleEndian
      && IsInternallyConsistent()
    }
  }

  datatype CachedIndex = CachedIndex(payload: Payload, embeddings: Matrix)

  /** The serializer and the digest the cache is built on. */
  datatype Codec = Codec(
    sha256: Bytes -> string, encode: Payload -> Bytes, decode: Bytes -> Option<Payload>)

  /** The digest is collision free, a document parses back, and no torn document parses. */
  ghost predicate Sound(codec: Codec) {
    && (forall a, b :: codec.sha256(a) == codec.sha256(b) ==> a == b)
    && (forall p :: codec.decode(codec.encode(p)) == Some(p))
    && (forall p, k: nat | k < |codec.encode(p)| :: codec.decode(codec.encode(p)[..k]) == None)
  }

  /** `f32::to_le_bytes`. */
  function ToLeBytes(value: F32): (bytes: Bytes)
    ensures |bytes| == 4
  {
    var v := value as int;
    [(v % 256) as Byte, (v / 0x100 % 256) as Byte, (v / 0x1_0000 % 256) as Byte, (v / 0x100_0000) as Byte]
  }

  /** `f32::from_le_bytes`. */
  function FromLeBytes(bytes: Bytes): F32
    requires |bytes| == 4
  {
    (bytes[0] as int + 0x100 * bytes[1] as int + 0x1_0000 * bytes[2] as int + 0x100_0000 * bytes[3] as int) as F32
  }

  lemma LeRoundTrip(value: F32)
    ensures FromLeBytes(ToLeBytes(value)) == value
  {
    var v := value as int;
    assert v / 0x1_0000 == (v / 0x100) / 256 && v / 0x100_0000 == (v / 0x1_0000) / 256;
  }

  lemma LeRoundTripBytes(bytes: Bytes)
    requires |bytes| == 4
    ensures ToLeBytes(FromLeBytes(bytes)) == bytes
  {
    var v := FromLeBytes(bytes) as int;
    assert v % 256 == bytes[0] as int;
    assert v / 0x100 == bytes[1] as int + 0x100 * bytes[2] as int + 0x1_0000 * bytes[3] as int;
    assert v / 0x1_0000 == bytes[2] as int + 0x100 * bytes[3] as int;
    assert v / 0x100_0000 == bytes[3] as int;
  }

  /** The sidecar file of a row list. */
  function Encode(rows: seq<F32>): (bytes: Bytes)
    ensures |bytes| == 4 * |rows|
  {
    if rows == [] then [] else ToLeBytes(rows[0]) + Encode(rows[1..])
  }

  lemma {:induction false} EncodeAppend(rows: seq<F32>, value: F32)
    ensures Encode(rows + [value]) == Encode(rows) + ToLeBytes(value)
  {
    if rows == [] {
      assert Encode([value]) == ToLeBytes(value) + Encode([]);
    } else {
      assert (rows + [value])[1..] == rows[1..] + [value];
      EncodeAppend(rows[1..], value);
    }
  }

  lemma {:induction false} EncodeInjective(a: seq<F32>, b: seq<F32>)
    requires Encode(a) == Encode(b)
    ensures a == b
  {
    if a != [] {
      LeRoundTrip(a[0]);
      LeRoundTrip(b[0]);
      assert Encode(a)[..4] == ToLeBytes(a[0]) && Encode(b)[..4] == ToLeBytes(b[0]);
      assert Encode(a)[4..] == Encode(a[1..]) && Encode(b)[4..] == Encode(b[1..]);
      EncodeInjective(a[1..], b[1..]);
      assert a == [a[0]] + a[1..] && b == [b[0]] + b[1..];
    }
  }

  /** The byte order: byte `k` of value `i` is its `k`th digit to base 256. */
  lemma {:induction false} SidecarBytes(rows: seq<F32>, i: nat)
    requires i < |rows|
    ensures var v, bytes := rows[i] as int, Encode(rows);
            && bytes[4 * i] as int == v % 0x100
            && bytes[4 * i + 1] as int == v / 0x100 % 0x100
            && bytes[4 * i + 2] as int == v / 0x1_0000 % 0x100
            && bytes[4 * i + 3] as int == v / 0x100_0000
  {
    if i > 0 {
      SidecarBytes(rows[1..], i - 1);
      assert forall k | 4 <= k < |Encode(rows)| :: Encode(rows)[k] == Encode(rows[1..])[k - 4];
    }
  }

  function EmbeddingSha256(codec: Codec, embeddings: Matrix): string {
    codec.sha256(Encode(embeddings.rows))
  }

  /** `CachedIndexPayloadV4::new`. */
  function NewPayload(codec: Codec, root: Path, content: ContentFilter, modelId: string,
                      embeddings: Matrix, files: seq<FileRecord>): Payload
  {
    Payload(CACHE_VERSION, CHUNKER_VERSION, root, content, modelId, F32LittleEndian,
            embeddings.dimensions, embeddings.RowCount(), EmbeddingSha256(codec, embeddings), files)
  }

  /** The check shared by saving (`validate_payload_embeddings`) and loading (`is_loadable_with`). */
  predicate Matches(codec: Codec, payload: Payload, embeddings: Matrix) {
    && payload.cacheVersion == CACHE_VERSION
    && payload.chunkerVersion == CHUNKER_VERSION
    && payload.embeddingFormat == F32LittleEndian
    && payload.embeddingDimensions == embeddings.dimensions
    && payload.embeddingRows == embeddings.RowCount()
    && payload.embeddingSha256 == EmbeddingSha256(codec, embeddings)
    && payload.IsInternallyConsistent()
  }

  /** What a payload must say of its matrix to be saved or loaded. */
  lemma MatchesIff(codec: Codec, p: Payload, embeddings: Matrix)
    ensures Matches(codec, p, embeddings) <==>
              && p.cacheVersion == 5 && p.chunkerVersion == 2 && p.embeddingFormat == F32LittleEndian
              && p.embeddingDimensions == embeddings.dimensions && p.embeddingRows == embeddings.RowCount()
              && p.embeddingSha256 == codec.sha256(Encode(embeddings.rows))
              && forall r | r in p.files ::
                   |r.chunks| == r.embeddingCount && r.embeddingStart + r.embeddingCount <= p.embeddingRows
  {
  }

  /** The shape every constructor of the matrix type guarantees. */
  predicate WellShaped(m: Matrix) {
    New(m.dimensions, m.rows) == Ok(m)
  }

  /** The two files of one index identity; `None` is an absent file. */
  datatype Disk = Disk(sidecar: Option<Bytes>, metadata: Option<Bytes>)

  /** `read_embeddings` as a property of its result. */
  ghost predicate ReadsAs(codec: Codec, file: Option<Bytes>, payload: Payload, r: Option<Matrix>) {
    match r
    case Some(m) =>
      && file == Some(Encode(m.rows))
      && |m.rows| == payload.embeddingRows * payload.embeddingDimensions
      && codec.sha256(Encode(m.rows)) == payload.embeddingSha256
      && New(payload.embeddingDimensions, m.rows) == Ok(m)
    case None =>
      forall rows | file == Some(Encode(rows)) && |rows| == payload.embeddingRows * payload.embeddingDimensions ::
        codec.sha256(Encode(rows)) != payload.embeddingSha256 || New(payload.embeddingDimensions, rows).Err?
  }

  /** `read_embeddings`: length check, value loop with a running digest, digest check. */
  method ReadEmbeddings(codec: Codec, file: Option<Bytes>, payload: Payload) returns (r: Option<Matrix>)
    ensures ReadsAs(codec, file, payload, r)
  {
    var expectedValues := payload.embeddingRows * payload.embeddingDimensions;
    if file.None? || |file.value| != expectedValues * 4 {
      return None;
    }
    var bytes := file.value;
    var hashed: Bytes := [];
    var rows: seq<F32> := [];
    for i := 0 to expectedValues
      invariant |rows| == i
      invariant hashed == Encode(rows) == bytes[..4 * i]
    {
      var four := bytes[4 * i..4 * i + 4];
      LeRoundTripBytes(four);
      EncodeAppend(rows, FromLeBytes(four));
      hashed := hashed + four;
      rows := rows + [FromLeBytes(four)];
      assert bytes[..4 * (i + 1)] == bytes[..4 * i] + four;
    }
    assert bytes[..|bytes|] == bytes;
    forall other | file == Some(Encode(other))
      ensures other == rows
    {
      EncodeInjective(other, rows);
    }
    if codec.sha256(hashed) != payload.embeddingSha256 {
      return None;
    }
    match New(payload.embeddingDimensions, rows) {
      case Ok(m) => return Some(m);
      case Err(_) => return None;
    }
  }

  /** What `load_payload` may return for a disk state: at most one answer, fixed by the two files. */
  ghost predicate LoadsAs(codec: Codec, disk: Disk, r: Option<CachedIndex>) {
    match r
    case Some(c) =>
      && disk.metadata.Some? && codec.decode(disk.metadata.value) == Some(c.payload)
      && ReadsAs(codec, disk.sidecar, c.payload, Some(c.embeddings))
      && Matches(codec, c.payload, c.embeddings)
    case None =>
      || disk.metadata.None? || codec.decode(disk.metadata.value).None?
      || (var p := codec.decode(disk.metadata.value).value;
          forall m | ReadsAs(codec, disk.sidecar, p, Some(m)) :: !Matches(codec, p, m))
  }

  /** `load_payload`. */
  method LoadPayload(codec: Codec, disk: Disk) returns (r: Option<CachedIndex>)
    ensures LoadsAs(codec, disk, r)
  {
    if disk.metadata.None? {
      return None;
    }
    var payload := codec.decode(disk.metadata.value);
    if payload.None? {
      return None;
    }
    var embeddings := ReadEmbeddings(codec, disk.sidecar, payload.value);
    ghost var p := payload.value;
    forall m | ReadsAs(codec, disk.sidecar, p, Some(m)) && embeddings.Some?
      ensures m == embeddings.value
    {
      EncodeInjective(m.rows, embeddings.value.rows);
    }
    if embeddings.None? || !Matches(codec, payload.value, embeddings.value) {
      return None;
    }
    return Some(CachedIndex(payload.value, embeddings.value));
  }

  /**
   A disk state in which a save may stop: nothing done, part of the new sidecar beside the old
   metadata, or the whole sidecar and part of the new metadata. The last is the completed save.
   */
  ghost predicate SaveReaches(codec: Codec, before: Disk, payload: Payload, embeddings: Matrix, after: Disk) {
    || after == before
    || (Matches(codec, payload, embeddings) && (
          || (exists k: nat :: k <= |Encode(embeddings.rows)|
                && after == Disk(Some(Encode(embeddings.rows)[..k]), before.metadata))
          || (exists k: nat :: k <= |codec.encode(payload)|
                && after == Disk(Some(Encode(embeddings.rows)), Some(codec.encode(payload)[..k])))))
  }

  /** The files of one index identity, written in place. `history` records every state a crash could leave. */
  class CacheFiles {
    var sidecar: Option<Bytes>
    var metadata: Option<Bytes>
    ghost var history: seq<Disk>

    constructor (disk: Disk)
      ensures Current() == disk && history == [disk]
    {
      sidecar, metadata := disk.sidecar, disk.metadata;
      history := [disk];
    }

    function Current(): Disk
      reads this
    {
      Disk(sidecar, metadata)
    }

    /** One write reaching the disk. */
    method Commit(disk: Disk)
      modifies this
      ensures Current() == disk && history == old(history) + [disk]
    {
      sidecar, metadata := disk.sidecar, disk.metadata;
      history := history + [disk];
    }

    /** `save_payload`: validate, write the sidecar value by value, then the metadata. */
    method SavePayload(codec: Codec, payload: Payload, embeddings: Matrix)
      returns (r: Result<(), CodeSearchError>)
      modifies this
      ensures if Matches(codec, payload, embeddings)
              then r == Ok(()) && Current() == Disk(Some(Encode(embeddings.rows)), Some(codec.encode(payload)))
              else r == Err(CacheMismatch) && Current() == old(Current()) && history == old(history)
      ensures SaveReaches(codec, old(Current()), payload, embeddings, Current())
      ensures old(history) <= history
      ensures forall i | |old(history)| <= i < |history| ::
                SaveReaches(codec, old(Current()), payload, embeddings, history[i])
    {
      ghost var before := Current();
      if !Matches(codec, payload, embeddings) {
        return Err(CacheMismatch);
      }
      var rows := embeddings.rows;
      ghost var full := Encode(rows);
      assert full[..0] == [];
      Commit(Disk(Some([]), metadata));
      assert SaveReaches(codec, before, payload, embeddings, Current());
      for i := 0 to |rows|
        invariant metadata == before.metadata
        invariant sidecar == Some(Encode(rows[..i])) && Encode(rows[..i]) == full[..4 * i]
        invariant old(history) <= history
        invariant forall j | |old(history)| <= j < |history| ::
                    SaveReaches(codec, before, payload, embeddings, history[j])
      {
        EncodeAppend(rows[..i], rows[i]);
        assert rows[..i + 1] == rows[..i] + [rows[i]];
        EncodePrefix(rows, i + 1);
        Commit(Disk(Some(sidecar.value + ToLeBytes(rows[i])), metadata));
        assert Current() == Disk(Some(full[..4 * (i + 1)]), before.metadata);
      }
      assert rows[..|rows|] == rows;
      var document := codec.encode(payload);
      assert document[..0] == [];
      Commit(Disk(sidecar, Some([])));
      assert Current() == Disk(Some(full), Some(document[..0]));
      Commit(Disk(sidecar, Some(document)));
      assert document[..|document|] == document;
      assert Current() == Disk(Some(full), Some(document[..|document|]));
      return Ok(());
    }
  }

  lemma {:induction false} EncodePrefix(rows: seq<F32>, i: nat)
    requires i <= |rows|
    ensures Encode(rows[..i]) == Encode(rows)[..4 * i]
  {
    if i > 0 {
      EncodePrefix(rows[1..], i - 1);
      assert rows[..i][1..] == rows[1..][..i - 1];
      assert Encode(rows[1..])[..4 * (i - 1)] == Encode(rows)[4..4 * i];
    }
  }

  /** What a completed save writes to the sidecar reads as the saved matrix. */
  lemma SavedReads(codec: Codec, payload: Payload, embeddings: Matrix)
    requires WellShaped(embeddings) && Matches(codec, payload, embeddings)
    ensures ReadsAs(codec, Some(Encode(embeddings.rows)), payload, Some(embeddings))
  {
    var d, n := embeddings.dimensions, |embeddings.rows|;
    assert n == embeddings.RowCount() * d by {
      if d > 0 {
        assert n == d * (n / d) + n % d;
      }
    }
  }

  /** A completed save is read back exactly. */
  lemma SaveThenLoad(codec: Codec, payload: Payload, embeddings: Matrix, r: Option<CachedIndex>)
    requires Sound(codec) && WellShaped(embeddings) && Matches(codec, payload, embeddings)
    requires LoadsAs(codec, Disk(Some(Encode(embeddings.rows)), Some(codec.encode(payload))), r)
    ensures r == Some(CachedIndex(payload, embeddings))
  {
    SavedReads(codec, payload, embeddings);
    hide Encode;
    if r.Some? {
      EncodeInjective(r.value.embeddings.rows, embeddings.rows);
    }
  }

  /** The metadata on disk is absent or a possibly torn copy of one saved payload. */
  ghost predicate WrittenBy(codec: Codec, disk: Disk, saves: set<(Payload, Matrix)>) {
    && (forall s | s in saves :: Matches(codec, s.0, s.1))
    && (disk.metadata.Some? ==>
          exists s, k: nat :: s in saves && k <= |codec.encode(s.0)| && disk.metadata.value == codec.encode(s.0)[..k])
  }

  /** However a save ends, the disk stays explained by the saves attempted so far. */
  lemma SaveKeepsWritten(codec: Codec, before: Disk, payload: Payload, embeddings: Matrix, after: Disk,
                         saves: set<(Payload, Matrix)>)
    requires WrittenBy(codec, before, saves)
    requires SaveReaches(codec, before, payload, embeddings, after)
    ensures WrittenBy(codec, after,
                      if Matches(codec, payload, embeddings) then saves + {(payload, embeddings)} else saves)
  {
    var s := (payload, embeddings);
    var more := if Matches(codec, payload, embeddings) then saves + {s} else saves;
    if after.metadata != before.metadata {
      var k: nat :| k <= |codec.encode(payload)| && after.metadata == Some(codec.encode(payload)[..k]);
      assert s in more && after.metadata.value == codec.encode(s.0)[..k];
    } else if before.metadata.Some? {
      var t, k: nat :| t in saves && k <= |codec.encode(t.0)| && before.metadata.value == codec.encode(t.0)[..k];
      assert t in more;
    }
  }

  /** Whatever a load accepts is a payload and a matrix that some save was given together. */
  lemma LoadReturnsASavedPair(codec: Codec, disk: Disk, saves: set<(Payload, Matrix)>, r: Option<CachedIndex>)
    requires Sound(codec) && WrittenBy(codec, disk, saves) && LoadsAs(codec, disk, r)
    ensures r.Some? ==> (r.value.payload, r.value.embeddings) in saves
  {
    if r.Some? {
      var s, k: nat :| s in saves && k <= |codec.encode(s.0)| && disk.metadata.value == codec.encode(s.0)[..k];
      assert k == |codec.encode(s.0)|;
      assert codec.encode(s.0)[..k] == codec.encode(s.0);
      assert r.value.payload == s.0;
      EncodeInjective(r.value.embeddings.rows, s.1.rows);
    }
  }
}
