/**
 The warm-cache service of crates/code-search/src/service.rs: a bounded least-recently-used map of
 loaded indexes in front of the disk cache. Walks, reads, watcher set-up and clock readings are
 parameters; every operation keeps `Valid`, so `Valid` holds in every reachable state, also after
 crashes at any point of a save.
 */
module Service {
  import opened Wrappers
  import opened Types
  import opened Matrix
  import opened Cache
  import opened Refresh
  import opened Incremental
  import opened SearchIndexes

  const MAX_WARM_INDEXES: nat := 8

  /** The identity of an index; the model is the service's own. */
  datatype Key = Key(root: Path, content: ContentFilter)

  /** `IndexWatcher`. */
  datatype Watcher = Watcher(available: bool, dirty: bool) {
    predicate CanSkipManifestCheck() {
      available && !dirty
    }
  }

  /** `CachedIndexState`. */
  datatype WarmState = WarmState(index: SearchIndex, watcher: Watcher, lastManifestCheck: int, lastUsed: int) {
    predicate CanReuseWithoutManifest(now: int) {
      watcher.CanSkipManifestCheck() && now - lastManifestCheck < MANIFEST_SAFETY_INTERVAL
    }
  }

  /** `kept` is `all` without its least recently used entries, exactly as many as exceed the bound. */
  ghost predicate PrunedTo(all: map<Key, WarmState>, kept: map<Key, WarmState>) {
    && kept.Keys <= all.Keys
    && (forall k | k in kept :: kept[k] == all[k])
    && |kept| == (if |all| <= 8 then |all| else 8)
    && forall k, other | k in all && k !in kept && other in kept :: all[k].lastUsed <= all[other].lastUsed
  }

  /** A warm index may be reused while its watcher is there and clean, for less than 30 seconds. */
  lemma ReusableIff(state: WarmState, now: int)
    ensures state.CanReuseWithoutManifest(now)
       <==> state.watcher.available && !state.watcher.dirty && now < state.lastManifestCheck + 30_000_000_000
  {
  }

  /** Installing this key exceeds no bound. */
  predicate HasRoom(indexes: map<Key, WarmState>, key: Key) {
    key in indexes || |indexes| < MAX_WARM_INDEXES
  }

  lemma KeptWhole(all: map<Key, WarmState>, kept: map<Key, WarmState>)
    requires PrunedTo(all, kept) && |all| <= MAX_WARM_INDEXES
    ensures kept.Keys == all.Keys
  {
    assert |kept.Keys| == |kept| && |all.Keys| == |all|;
    var dropped := all.Keys - kept.Keys;
    assert all.Keys == kept.Keys + dropped && kept.Keys !! dropped;
    assert dropped == {};
  }

  /** An entry with the least last-used time, whichever the map's iteration order meets first. */
  method OldestKey(indexes: map<Key, WarmState>) returns (oldest: Key)
    requires indexes != map[]
    ensures oldest in indexes
    ensures forall k | k in indexes :: indexes[oldest].lastUsed <= indexes[k].lastUsed
  {
    var left := indexes.Keys;
    oldest :| oldest in left;
    left := left - {oldest};
    while left != {}
      invariant oldest in indexes && left <= indexes.Keys
      invariant forall k | k in indexes && k !in left :: indexes[oldest].lastUsed <= indexes[k].lastUsed
      decreases |left|
    {
      var k :| k in left;
      if indexes[k].lastUsed < indexes[oldest].lastUsed {
        oldest := k;
      }
      left := left - {k};
    }
  }

  /** `prune_warm_indexes`. */
  method PruneWarmIndexes(indexes: map<Key, WarmState>) returns (kept: map<Key, WarmState>)
    ensures PrunedTo(indexes, kept)
  {
    kept := indexes;
    while |kept| > MAX_WARM_INDEXES
      invariant kept.Keys <= indexes.Keys && forall k | k in kept :: kept[k] == indexes[k]
      invariant |kept| <= |indexes| && (|indexes| > MAX_WARM_INDEXES ==> |kept| >= MAX_WARM_INDEXES)
      invariant |indexes| <= MAX_WARM_INDEXES ==> kept == indexes
      invariant forall k, other | k in indexes && k !in kept && other in kept ::
                  indexes[k].lastUsed <= indexes[other].lastUsed
      decreases |kept|
    {
      var oldest := OldestKey(kept);
      ghost var before := kept;
      kept := kept - {oldest};
      assert kept.Keys == before.Keys - {oldest};
      assert |kept.Keys| == |kept| && |before.Keys| == |before|;
    }
  }

  /** Every pair ever saved for this disk state describes the world truly. */
  ghost predicate TrustedDisk(w: World, disk: Disk) {
    exists saves :: Explains(w, disk, saves)
  }

  ghost predicate Explains(w: World, disk: Disk, saves: set<(Payload, Matrix)>) {
    && WrittenBy(w.tools.codec, disk, saves)
    && forall s | s in saves :: Faithful(w, CachedIndex(s.0, s.1))
  }

  const NO_FILES := Disk(None, None)

  /** Both files after a completed save of the image of these files. */
  ghost function SavedImage(w: World, key: Key, modelId: string, files: seq<FileEntry>): Disk {
    var image := Ideal(w, key.root, key.content, modelId, files);
    Disk(Some(Encode(image.embeddings.rows)), Some(w.tools.codec.encode(image.payload)))
  }

  lemma SavedImageLoads(w: World, key: Key, modelId: string, files: seq<FileEntry>, r: Option<CachedIndex>)
    requires w.FixedDimension() && Sound(w.tools.codec)
    requires LoadsAs(w.tools.codec, SavedImage(w, key, modelId, files), r)
    ensures r == Some(Ideal(w, key.root, key.content, modelId, files))
  {
    var image := Ideal(w, key.root, key.content, modelId, files);
    IdealMatches(w, key.root, key.content, modelId, files);
    IdealIsFaithful(w, key.root, key.content, modelId, files);
    hide Ideal, LoadsAs, Encode, Matches, WellShaped;
    FaithfulIsWellShaped(w, image);
    SaveThenLoad(w.tools.codec, image.payload, image.embeddings, r);
  }

  lemma FaithfulIsWellShaped(w: World, c: CachedIndex)
    requires Faithful(w, c)
    ensures WellShaped(c.embeddings)
  {
    var rows :| FaithfulRows(w, c, rows);
    ConcatSize(w.d, rows);
    if rows != [] {
      ExactDivision(|rows|, w.d);
    }
  }

  /** What the disks hold for this key, as it loads. */
  ghost predicate Loads(codec: Codec, disks: map<Key, Disk>, key: Key, loaded: Option<CachedIndex>) {
    if key in disks then LoadsAs(codec, disks[key], loaded) else loaded == None
  }

  /** Nothing is loaded where nothing was ever saved. */
  lemma NothingLoads(codec: Codec, r: Option<CachedIndex>)
    requires LoadsAs(codec, NO_FILES, r)
    ensures r == None
  {
  }

  /** An absent cache is trusted, and a trusted disk only ever loads faithful caches. */
  lemma TrustedLoads(w: World, disk: Disk, r: Option<CachedIndex>)
    requires Sound(w.tools.codec) && LoadsAs(w.tools.codec, disk, r)
    requires disk == NO_FILES || TrustedDisk(w, disk)
    ensures TrustedDisk(w, disk)
    ensures r.Some? ==> Faithful(w, r.value)
  {
    if disk == NO_FILES {
      assert Explains(w, disk, {});
    } else {
      var saves :| Explains(w, disk, saves);
      LoadReturnsASavedPair(w.tools.codec, disk, saves, r);
      if r.Some? {
        assert CachedIndex(r.value.payload, r.value.embeddings) == r.value;
      }
    }
  }

  /** Saving a faithful image keeps the disk trusted, wherever the save stops. */
  lemma TrustedSave(w: World, before: Disk, payload: Payload, embeddings: Matrix, after: Disk)
    requires TrustedDisk(w, before) && Faithful(w, CachedIndex(payload, embeddings))
    requires SaveReaches(w.tools.codec, before, payload, embeddings, after)
    ensures TrustedDisk(w, after)
  {
    var codec := w.tools.codec;
    var saves :| Explains(w, before, saves);
    var more := if Matches(codec, payload, embeddings) then saves + {(payload, embeddings)} else saves;
    SaveKeepsWritten(codec, before, payload, embeddings, after, saves);
    assert Explains(w, after, more);
  }

  /** One directory walk and what reading the found files gives. */
  datatype Walk = Walk(files: seq<FileEntry>, read: FileEntry -> ReadOutcome)

  /**
   The clock readings of one call of `index`: on entry, when the walk lists the files, when a matching memory
   index is marked used and when it is stored again, and when the result is stored.
   */
  datatype Clock = Clock(entered: int, walked: int, matched: int, restored: int, stored: int) {
    predicate Monotone() {
      entered <= walked <= matched <= restored <= stored
    }
  }

  /** What happened to a key: a walk listed its files, a file changed, an index was installed with its watcher. */
  datatype Event =
    | Listed(key: Key, manifest: seq<Manifest>, at: int)
    | Changed(key: Key)
    | Installed(key: Key, manifest: seq<Manifest>, at: int)

  /** Event `l` is the last walk of this key. */
  ghost predicate LastWalk(history: seq<Event>, l: nat, key: Key, manifest: seq<Manifest>, walked: int) {
    && l < |history| && history[l] == Listed(key, manifest, walked)
    && forall e | e in history[l + 1..] && e.Listed? :: e.key != key
  }

  /** Event `i` installed what the walk at event `l`, the last before it, had listed; the clock may have advanced. */
  ghost predicate InstalledAt(
    history: seq<Event>, l: nat, i: nat, key: Key, manifest: seq<Manifest>, walked: int, at: int)
  {
    && l < i < |history| && history[i] == Installed(key, manifest, at)
    && LastWalk(history[..i], l, key, manifest, walked) && walked <= at
  }

  /** A warm state was installed after a walk, and while its watcher is clean no file has changed since. */
  ghost predicate Backed(history: seq<Event>, key: Key, state: WarmState) {
    exists l: nat, i: nat, walked :: BackedBy(history, l, i, key, state, walked)
  }

  ghost predicate BackedBy(history: seq<Event>, l: nat, i: nat, key: Key, state: WarmState, walked: int) {
    && InstalledAt(history, l, i, key, state.index.manifest, walked, state.lastManifestCheck)
    && (state.watcher.CanSkipManifestCheck() ==> Changed(key) !in history[i..])
  }

  /**
   This manifest was listed at event `l` and installed at event `i`, the latter less than the safety interval
   ago and with no change since; so a change since the walk has been missed exactly when one lies between them.
   */
  ghost predicate Recent(history: seq<Event>, l: nat, i: nat, key: Key, manifest: seq<Manifest>, now: int) {
    exists walked, at :: RecentBy(history, l, i, key, manifest, walked, at, now)
  }

  ghost predicate RecentBy(
    history: seq<Event>, l: nat, i: nat, key: Key, manifest: seq<Manifest>, walked: int, at: int, now: int)
  {
    && InstalledAt(history, l, i, key, manifest, walked, at) && now - at < MANIFEST_SAFETY_INTERVAL
    && Changed(key) !in history[i..] && (Changed(key) in history[l..] <==> Changed(key) in history[l..i])
  }

  /**
   How old the walk behind a reused index may be: every later reuse finds it younger than `bound` if and only if
   the bound allows for the safety interval and for the time between the walk and the installation. The
   interval itself bounds the walk's age only where no time passed between the two.
   */
  lemma WalkAgeIff(state: WarmState, walked: int, bound: int)
    requires state.watcher.CanSkipManifestCheck() && walked <= state.lastManifestCheck
    ensures (forall now | state.lastManifestCheck <= now && state.CanReuseWithoutManifest(now) :: now - walked < bound)
       <==> bound >= MANIFEST_SAFETY_INTERVAL + (state.lastManifestCheck - walked)
    ensures (forall now | state.lastManifestCheck <= now && state.CanReuseWithoutManifest(now) ::
              now - walked < MANIFEST_SAFETY_INTERVAL)
       <==> walked == state.lastManifestCheck
  {
    var last := state.lastManifestCheck + MANIFEST_SAFETY_INTERVAL - 1;
    assert state.CanReuseWithoutManifest(last);
  }

  /** The same installation backs a later state, unless the watcher is clean again or missed a change. */
  lemma StillBacked(history: seq<Event>, more: seq<Event>, key: Key, before: WarmState, after: WarmState)
    requires Backed(history, key, before)
    requires after.index == before.index && after.lastManifestCheck == before.lastManifestCheck
    requires after.watcher.CanSkipManifestCheck() ==> before.watcher.CanSkipManifestCheck() && Changed(key) !in more
    ensures Backed(history + more, key, after)
  {
    var l: nat, i: nat, walked :| BackedBy(history, l, i, key, before, walked);
    assert (history + more)[..i] == history[..i] && (history + more)[i..] == history[i..] + more;
    assert BackedBy(history + more, l, i, key, after, walked);
  }

  /** The chunks of each file of a walk. */
  function WalkChunks(tools: Tools, walk: Walk): (parts: seq<seq<Chunk>>)
    ensures |parts| == |walk.files|
  {
    seq(|walk.files|, i requires 0 <= i < |walk.files| =>
      ChunksOf(tools, walk.files[i].manifest.path, walk.files[i].language, walk.read(walk.files[i])))
  }

  /** The index of a walk: its files in order, with the chunks of what the walk read. */
  ghost predicate IndexesWalk(tools: Tools, key: Key, walk: Walk, index: SearchIndex) {
    && index.root == key.root && index.content == key.content && index.indexedFiles == |walk.files|
    && |index.manifest| == |walk.files|
    && (forall i | 0 <= i < |walk.files| :: index.manifest[i] == walk.files[i].manifest)
    && index.chunks == Concat(WalkChunks(tools, walk))
  }

  lemma IdealIndexesWalk(w: World, key: Key, walk: Walk, index: SearchIndex)
    requires w.FixedDimension() && Agrees(w.source, walk.read, walk.files)
    requires index == IdealIndex(w, key.root, key.content, Walked(walk.files))
    ensures IndexesWalk(w.tools, key, walk, index) && HoldsChunks(w, index)
  {
    IdealHoldsChunks(w, key.root, key.content, Walked(walk.files));
    assert EntryChunks(w, index.manifest) == WalkChunks(w.tools, walk);
    hide AllChunks, Concat;
  }

  ghost predicate AllBacked(history: seq<Event>, indexes: map<Key, WarmState>) {
    forall k | k in indexes :: Backed(history, k, indexes[k])
  }

  lemma AllStillBacked(history: seq<Event>, more: seq<Event>, indexes: map<Key, WarmState>)
    requires AllBacked(history, indexes) && forall e | e in more :: !e.Changed?
    ensures AllBacked(history + more, indexes)
  {
    forall k | k in indexes
      ensures Backed(history + more, k, indexes[k])
    {
      StillBacked(history, more, k, indexes[k], indexes[k]);
    }
  }

  lemma UsedIsBacked(history: seq<Event>, indexes: map<Key, WarmState>, key: Key, now: int)
    requires AllBacked(history, indexes) && key in indexes
    ensures AllBacked(history, indexes[key := indexes[key].(lastUsed := now)])
  {
    StillBacked(history, [], key, indexes[key], indexes[key].(lastUsed := now));
    assert history + [] == history;
  }

  /** `clean_warm_index` may hand out this key's index. */
  predicate Reusable(indexes: map<Key, WarmState>, key: Key, now: int) {
    key in indexes && indexes[key].CanReuseWithoutManifest(now)
  }

  /** Memory has the index of exactly these manifest entries. */
  predicate HasManifest(indexes: map<Key, WarmState>, key: Key, manifests: seq<Manifest>) {
    key in indexes && indexes[key].index.manifest == manifests
  }

  lemma RecentlyInstalled(history: seq<Event>, indexes: map<Key, WarmState>, key: Key, now: int)
    returns (l: nat, i: nat)
    requires AllBacked(history, indexes) && Reusable(indexes, key, now)
    ensures Recent(history, l, i, key, indexes[key].index.manifest, now)
  {
    var state, walked := indexes[key], 0;
    l, i, walked :| BackedBy(history, l, i, key, state, walked);
    assert history[l..] == history[l..i] + history[i..];
    assert RecentBy(history, l, i, key, state.index.manifest, walked, state.lastManifestCheck, now);
  }

  lemma NewlyBacked(history: seq<Event>, l: nat, key: Key, state: WarmState, walked: int)
    requires LastWalk(history, l, key, state.index.manifest, walked) && walked <= state.lastManifestCheck
    ensures Backed(history + [Installed(key, state.index.manifest, state.lastManifestCheck)], key, state)
  {
    var i: nat := |history|;
    var next := history + [Installed(key, state.index.manifest, state.lastManifestCheck)];
    assert next[..i] == history && next[i..] == [next[i]];
    assert BackedBy(next, l, i, key, state, walked);
  }

  /** Events that list nothing leave the last walk the last. */
  lemma StillLastWalk(
    history: seq<Event>, more: seq<Event>, l: nat, key: Key, manifest: seq<Manifest>, walked: int)
    requires LastWalk(history, l, key, manifest, walked) && forall e | e in more :: !e.Listed?
    ensures LastWalk(history + more, l, key, manifest, walked)
  {
    assert (history + more)[l + 1..] == history[l + 1..] + more;
  }

  lemma PrunedBacked(history: seq<Event>, all: map<Key, WarmState>, kept: map<Key, WarmState>)
    requires AllBacked(history, all) && PrunedTo(all, kept)
    ensures AllBacked(history, kept)
  {
  }

  lemma InstallBacked(
    history: seq<Event>, indexes: map<Key, WarmState>, l: nat, key: Key, state: WarmState, walked: int)
    requires AllBacked(history, indexes)
    requires LastWalk(history, l, key, state.index.manifest, walked) && walked <= state.lastManifestCheck
    ensures AllBacked(history + [Installed(key, state.index.manifest, state.lastManifestCheck)], indexes[key := state])
  {
    NewlyBacked(history, l, key, state, walked);
    AllStillBacked(history, [Installed(key, state.index.manifest, state.lastManifestCheck)], indexes);
  }

  class CodeSearchService {
    const tools: Tools
    const provider: Provider
    ghost const world: World
    var indexes: map<Key, WarmState>
    var disk: map<Key, Disk>
    ghost var history: seq<Event>

    function DiskOf(key: Key): Disk
      reads this
    {
      if key in disk then disk[key] else NO_FILES
    }

    /** The index of a manifest list for this key. */
    ghost function IndexFor(key: Key, manifests: seq<Manifest>): SearchIndex {
      IdealIndex(world, key.root, key.content, manifests)
    }

    lemma IndexHasManifest(key: Key, manifests: seq<Manifest>)
      ensures IndexFor(key, manifests).manifest == manifests
    {
    }

    lemma KeyHoldsChunks(key: Key, manifests: seq<Manifest>)
      requires Setting()
      ensures HoldsChunks(world, IndexFor(key, manifests))
    {
      IdealHoldsChunks(world, key.root, key.content, manifests);
    }

    lemma KeyIndexesWalk(key: Key, walk: Walk)
      requires Setting() && Describes(walk)
      ensures var index := IndexFor(key, Walked(walk.files));
              IndexesWalk(tools, key, walk, index) && HoldsChunks(world, index)
    {
      IdealIndexesWalk(world, key, walk, IndexFor(key, Walked(walk.files)));
    }

    ghost predicate Setting() {
      && world.tools == tools && Pointwise(provider, world) && Sound(tools.codec)
    }

    /**
     At most eight warm indexes, each the index of its own manifest and backed by the history, over trusted
     disk caches.
     */
    ghost predicate Valid()
      reads this
    {
      && Setting()
      && |indexes| <= MAX_WARM_INDEXES
      && (forall k | k in indexes :: indexes[k].index == IndexFor(k, indexes[k].index.manifest))
      && AllBacked(history, indexes)
      && (forall k | k in disk :: TrustedDisk(world, disk[k]))
    }

    ghost predicate Describes(walk: Walk) {
      Agrees(world.source, walk.read, walk.files) && PathSorted(walk.files)
    }

    constructor (tools: Tools, provider: Provider, ghost world: World)
      requires world.tools == tools && Pointwise(provider, world) && Sound(tools.codec)
      ensures Valid() && indexes == map[] && disk == map[] && history == []
      ensures this.tools == tools && this.provider == provider && this.world == world
    {
      this.tools, this.provider, this.world := tools, provider, world;
      indexes, disk, history := map[], map[], [];
    }

    /** `clean_warm_index`. */
    method CleanWarmIndex(key: Key, now: int) returns (r: Option<SearchIndex>)
      requires Valid()
      modifies this`indexes
      ensures Valid()
      ensures if Reusable(old(indexes), key, now)
              then r == Some(old(indexes)[key].index)
                && indexes == old(indexes)[key := old(indexes)[key].(lastUsed := now)]
              else r == None && indexes == old(indexes)
    {
      hide IdealIndex, TrustedDisk, Pointwise, Sound, AllBacked;
      if key !in indexes || !indexes[key].CanReuseWithoutManifest(now) {
        return None;
      }
      r := Some(indexes[key].index);
      ghost var before := indexes;
      indexes := indexes[key := indexes[key].(lastUsed := now)];
      assert indexes.Keys == before.Keys && |indexes.Keys| == |before.Keys|;
      UsedIsBacked(history, before, key, now);
    }

    /** `store_index`: install with a new watcher, then prune. */
    method StoreIndex(key: Key, index: SearchIndex, watching: bool, now: int, ghost l: nat, ghost walked: int)
      requires Valid() && index == IndexFor(key, index.manifest)
      requires LastWalk(history, l, key, index.manifest, walked) && walked <= now
      modifies this`indexes, this`history
      ensures Valid()
      ensures var state := WarmState(index, Watcher(watching, !watching), now, now);
              && PrunedTo(old(indexes)[key := state], indexes)
              && (key in indexes ==> indexes[key] == state)
              && (HasRoom(old(indexes), key) ==> key in indexes && |indexes| == |old(indexes)[key := state]|)
      ensures history == old(history) + [Installed(key, index.manifest, now)]
    {
      hide IdealIndex, TrustedDisk, Pointwise, Sound, AllBacked;
      var state := WarmState(index, Watcher(watching, !watching), now, now);
      InstallBacked(history, indexes, l, key, state, walked);
      var all := indexes[key := state];
      assert all.Keys == indexes.Keys + {key} && |all| == |all.Keys| && |indexes| == |indexes.Keys|;
      indexes := PruneWarmIndexes(all);
      if |all| <= MAX_WARM_INDEXES {
        KeptWhole(all, indexes);
      }
      history := history + [Installed(key, index.manifest, now)];
      PrunedBacked(history, all, indexes);
    }

    /** `matching_memory_index`. */
    method MatchingMemoryIndex(key: Key, files: seq<FileEntry>, watching: bool, clock: Clock, ghost l: nat)
      returns (r: Option<SearchIndex>)
      requires Valid() && clock.Monotone() && LastWalk(history, l, key, Walked(files), clock.walked)
      modifies this`indexes, this`history
      ensures Valid()
      ensures r.Some? ==> r.value == IndexFor(key, Walked(files)) && key in indexes && |indexes| == |old(indexes)|
      ensures r.None? ==> indexes == old(indexes)
      ensures history == old(history) + if r.Some? then [Installed(key, Walked(files), clock.restored)] else []
      ensures r.Some? <==> HasManifest(old(indexes), key, Walked(files))
    {
      hide IdealIndex, TrustedDisk, Pointwise, Sound, AllBacked;
      if key !in indexes || !indexes[key].index.ManifestMatches(Walked(files)) {
        return None;
      }
      ghost var before := indexes;
      indexes := indexes[key := indexes[key].(lastUsed := clock.matched)];
      assert indexes.Keys == before.Keys && |indexes.Keys| == |before.Keys|;
      UsedIsBacked(history, before, key, clock.matched);
      r := Some(indexes[key].index);
      StoreIndex(key, r.value, watching, clock.restored, l, clock.walked);
    }

    /** The refresh a build performs, given what it loaded. */
    ghost function Refreshed(key: Key, walk: Walk, previous: Option<CachedIndex>): Result<Outcome, CodeSearchError> {
      RefreshResult(tools, walk.read, key.root, key.content, walk.files, previous, provider)
    }

    lemma BuildIsIdeal(key: Key, walk: Walk, loaded: Option<CachedIndex>)
      requires Setting() && Describes(walk)
      requires LoadsAs(tools.codec, DiskOf(key), loaded) && (key in disk ==> TrustedDisk(world, disk[key]))
      ensures var r := Refreshed(key, walk, Accepted(key.root, key.content, provider.modelId, loaded));
              && TrustedDisk(world, DiskOf(key))
              && r.Ok? && Matches(tools.codec, r.value.payload, r.value.embeddings)
              && Faithful(world, CachedIndex(r.value.payload, r.value.embeddings))
              && CachedIndex(r.value.payload, r.value.embeddings)
                 == Ideal(world, key.root, key.content, provider.modelId, walk.files)
              && FromCachedResult(CachedIndex(r.value.payload, r.value.embeddings))
              == Ok(IndexFor(key, Walked(walk.files)))
    {
      TrustedLoads(world, DiskOf(key), loaded);
      var previous := Accepted(key.root, key.content, provider.modelId, loaded);
      RefreshThenLoad(world, provider, key.root, key.content, walk.files, walk.read, previous);
      RefreshGivesIdeal(world, provider, key.root, key.content, walk.files, walk.read, previous);
      IdealIsFaithful(world, key.root, key.content, provider.modelId, walk.files);
      IdealMatches(world, key.root, key.content, provider.modelId, walk.files);
    }

    /** Whether a cache is filtered before a refresh or by it makes no difference. */
    lemma FilteredTwice(key: Key, walk: Walk, loaded: Option<CachedIndex>)
      ensures Refreshed(key, walk, Accepted(key.root, key.content, provider.modelId, loaded))
           == Refreshed(key, walk, loaded)
    {
      hide PackAll, EmbedTexts, VectorsToMatrix, NewPayload, Plan, PendingOf, Leftover;
    }

    /** A completed save: both files of this key, and no other. */
    method Save(key: Key, outcome: Outcome)
      requires Valid() && TrustedDisk(world, DiskOf(key))
      requires Faithful(world, CachedIndex(outcome.payload, outcome.embeddings))
      requires Matches(tools.codec, outcome.payload, outcome.embeddings)
      modifies this`disk
      ensures Valid()
      ensures disk == old(disk)[key :=
                Disk(Some(Encode(outcome.embeddings.rows)), Some(tools.codec.encode(outcome.payload)))]
    {
      hide Pointwise, Sound, AllBacked, SaveReaches, TrustedDisk, Matches, Faithful, IdealIndex;
      var files := new CacheFiles(DiskOf(key));
      var saved := files.SavePayload(tools.codec, outcome.payload, outcome.embeddings);
      assert saved.Ok?;
      TrustedSave(world, DiskOf(key), outcome.payload, outcome.embeddings, files.Current());
      disk := disk[key := files.Current()];
    }

    /**
     The rest of `build_or_load_index` when memory has no match: load, refresh, save and build. The refresh starts
     from what the disk holds for this key, and its outcome is all that the save leaves there.
     */
    method Rebuild(key: Key, walk: Walk)
      returns (r: Result<SearchIndex, CodeSearchError>, ghost loaded: Option<CachedIndex>, ghost done: Outcome)
      requires Valid() && Describes(walk)
      modifies this`disk
      ensures Valid()
      ensures r == Ok(IndexFor(key, Walked(walk.files)))
      ensures Loads(tools.codec, old(disk), key, loaded) && Refreshed(key, walk, loaded) == Ok(done)
      ensures disk == old(disk)[key := SavedImage(world, key, provider.modelId, walk.files)]
    {
      hide *;
      var onDisk := LoadPayload(tools.codec, DiskOf(key));
      BuildFacts(key, walk, onDisk);
      var previous := Accepted(key.root, key.content, provider.modelId, onDisk);
      var refreshed := Refresh.Refresh(tools, walk.read, key.root, key.content, walk.files, previous, provider);
      var outcome := refreshed.value;
      Save(key, outcome);
      r := FromCached(CachedIndex(outcome.payload, outcome.embeddings));
      loaded, done := onDisk, outcome;
    }

    lemma BuildFacts(key: Key, walk: Walk, loaded: Option<CachedIndex>)
      requires Valid() && Describes(walk) && LoadsAs(tools.codec, DiskOf(key), loaded)
      ensures Loads(tools.codec, disk, key, loaded) && TrustedDisk(world, DiskOf(key))
      ensures var previous := Accepted(key.root, key.content, provider.modelId, loaded);
              var r := RefreshResult(tools, walk.read, key.root, key.content, walk.files, previous, provider);
              && r == Refreshed(key, walk, loaded) && r.Ok?
              && Matches(tools.codec, r.value.payload, r.value.embeddings)
              && Faithful(world, CachedIndex(r.value.payload, r.value.embeddings))
              && Disk(Some(Encode(r.value.embeddings.rows)), Some(tools.codec.encode(r.value.payload)))
                 == SavedImage(world, key, provider.modelId, walk.files)
              && FromCachedResult(CachedIndex(r.value.payload, r.value.embeddings))
                 == Ok(IndexFor(key, Walked(walk.files)))
    {
      hide RefreshResult, FromCachedResult, IdealIndex, TrustedDisk, LoadsAs, Matches, Faithful, Accepted, Ideal;
      hide Pointwise, Sound, Agrees, PathSorted, AllBacked, Encode;
      if key !in disk {
        NothingLoads(tools.codec, loaded);
      }
      BuildIsIdeal(key, walk, loaded);
      FilteredTwice(key, walk, loaded);
    }

    /**
     A rebuild after another one of the same key, by this process or the next: exactly the files with the manifest
     entry of the earlier walk are reused, all others are read again, and the deleted ones are the paths no longer
     walked.
     */
    method RebuildAgain(key: Key, before: Walk, walk: Walk)
      returns (r: Result<SearchIndex, CodeSearchError>, ghost done: Outcome)
      requires Valid() && Describes(before) && Describes(walk)
      requires DistinctPaths(before.files) && DistinctPaths(walk.files)
      modifies this`disk
      ensures r == Ok(IndexFor(key, Walked(walk.files)))
      ensures done.reusedFiles == |set i: nat | i < |walk.files| && Walks(before.files, walk.files[i].manifest)|
      ensures done.reusedFiles + done.reembeddedFiles == |walk.files|
      ensures done.deletedFiles
           == |(set i | 0 <= i < |before.files| :: before.files[i].manifest.path)
               - (set i | 0 <= i < |walk.files| :: walk.files[i].manifest.path)|
    {
      hide TrustedDisk, AllBacked, IdealIndex, LoadsAs, Agrees, PathSorted, Sound, RefreshResult, Ideal, SavedImage;
      var first, _, _ := Rebuild(key, before);
      ghost var loaded;
      r, loaded, done := Rebuild(key, walk);
      FixedByPointwise(provider, world);
      hide Pointwise;
      SavedImageLoads(world, key, provider.modelId, before.files, loaded);
      IdealIsReused(world, provider, key.root, key.content, before.files, walk.files, walk.read);
    }

    /** `build_or_load_index`: the memory check, else load, refresh, save and build. */
    method BuildOrLoad(key: Key, walk: Walk, watching: bool, clock: Clock)
      returns (r: Result<SearchIndex, CodeSearchError>)
      requires Valid() && Describes(walk) && clock.Monotone()
      modifies this
      ensures Valid() && old(history) <= history
      ensures LastWalk(history, |old(history)|, key, Walked(walk.files), clock.walked)
      ensures Changed(key) !in history[|old(history)|..]
      ensures r == Ok(IndexFor(key, Walked(walk.files)))
      ensures indexes == old(indexes) || (key in indexes && |indexes| == |old(indexes)|)
      ensures disk == if HasManifest(old(indexes), key, Walked(walk.files)) then old(disk)
                      else old(disk)[key := SavedImage(world, key, provider.modelId, walk.files)]
    {
      hide IdealIndex, TrustedDisk, Pointwise, Sound, Agrees, PathSorted, AllBacked;
      ghost var l, listed := |history|, history + [Listed(key, Walked(walk.files), clock.walked)];
      AllStillBacked(history, [Listed(key, Walked(walk.files), clock.walked)], indexes);
      history := listed;
      var warm := MatchingMemoryIndex(key, walk.files, watching, clock, l);
      if warm.Some? {
        StillLastWalk(listed, history[|listed|..], l, key, Walked(walk.files), clock.walked);
        assert history == listed + history[|listed|..];
        return Ok(warm.value);
      }
      var rebuilt, _, _ := Rebuild(key, walk);
      r := rebuilt;
    }

    /** The last step of `index`; an event may fall before it, and then reaches only the watcher it replaces. */
    method StoreAfterEvents(
      key: Key, index: SearchIndex, falls: bool, watching: bool, now: int, ghost l: nat, ghost walked: int)
      requires Valid() && index == IndexFor(key, index.manifest)
      requires LastWalk(history, l, key, index.manifest, walked) && walked <= now
      modifies this`indexes, this`history
      ensures Valid()
      ensures history
           == old(history) + (if falls then [Changed(key)] else []) + [Installed(key, index.manifest, now)]
      ensures InstalledAt(history, l, |history| - 1, key, index.manifest, walked, now)
      ensures HasRoom(old(indexes), key) ==> key in indexes
      ensures key in indexes ==> indexes[key] == WarmState(index, Watcher(watching, !watching), now, now)
    {
      hide IndexFor, TrustedDisk, Pointwise, Sound, AllBacked, PrunedTo;
      assert l < |history|;
      hide LastWalk;
      if falls {
        StillLastWalk(history, [Changed(key)], l, key, index.manifest, walked);
        FileEvent(key);
      }
      assert history == old(history) + if falls then [Changed(key)] else [];
      ghost var before := history;
      StoreIndex(key, index, watching, now, l, walked);
      assert history[..|history| - 1] == before;
    }

    /**
     `index`: the index of exactly the manifest entries walked in this call, or one installed less than the
     safety interval ago, which has missed a change since its walk exactly when one lies between its walk and
     its installation. An event that `falls` there reaches only the watcher being replaced.
     */
    method Index(key: Key, walk: Walk, falls: bool, watching: bool, clock: Clock)
      returns (r: Result<SearchIndex, CodeSearchError>, ghost l: nat, ghost i: nat)
      requires Valid() && Describes(walk) && clock.Monotone()
      modifies this
      ensures Valid() && old(history) <= history
      ensures r.Ok? && r.value == IndexFor(key, r.value.manifest) && HoldsChunks(world, r.value)
      ensures Reusable(old(indexes), key, clock.entered) ==>
                && r == Ok(old(indexes)[key].index) && Recent(history, l, i, key, r.value.manifest, clock.entered)
                && disk == old(disk) && history == old(history)
                && indexes == old(indexes)[key := old(indexes)[key].(lastUsed := clock.entered)]
      ensures !Reusable(old(indexes), key, clock.entered) ==>
                && IndexesWalk(tools, key, walk, r.value)
                && r == Ok(IndexFor(key, Walked(walk.files))) && l == |old(history)| && i == |history| - 1
                && InstalledAt(history, l, i, key, Walked(walk.files), clock.walked, clock.stored)
                && (Changed(key) in history[l..i] <==> falls)
                && disk == (if HasManifest(old(indexes), key, Walked(walk.files)) then old(disk)
                            else old(disk)[key := SavedImage(world, key, provider.modelId, walk.files)])
                && (HasRoom(old(indexes), key) ==> key in indexes)
                && (key in indexes ==>
                      indexes[key] == WarmState(r.value, Watcher(watching, !watching), clock.stored, clock.stored))
    {
      hide IndexFor, TrustedDisk, Pointwise, Sound, Agrees, PathSorted, AllBacked, Recent, PrunedTo;
      hide LastWalk, InstalledAt, HoldsChunks, IndexesWalk;
      var clean := CleanWarmIndex(key, clock.entered);
      if clean.Some? {
        l, i := RecentlyInstalled(history, old(indexes), key, clock.entered);
        KeyHoldsChunks(key, clean.value.manifest);
        return Ok(clean.value), l, i;
      }
      r := BuildOrLoad(key, walk, watching, clock);
      IndexHasManifest(key, Walked(walk.files));
      KeyIndexesWalk(key, walk);
      l := |old(history)|;
      ghost var built := history;
      StoreAfterEvents(key, r.value, falls, watching, clock.stored, l, clock.walked);
      i := |history| - 1;
      assert history[l..i] == built[l..] + if falls then [Changed(key)] else [];
    }

    /** A file event reaching the watcher of one warm index. */
    method FileEvent(key: Key)
      requires Valid()
      modifies this`indexes, this`history
      ensures Valid() && history == old(history) + [Changed(key)]
      ensures key !in old(indexes) ==> indexes == old(indexes)
      ensures key in old(indexes) ==>
                && indexes.Keys == old(indexes).Keys
                && !indexes[key].watcher.CanSkipManifestCheck()
                && indexes[key] == old(indexes)[key].(watcher := old(indexes)[key].watcher.(dirty := true))
                && forall k | k in indexes && k != key :: indexes[k] == old(indexes)[k]
    {
      hide IdealIndex, TrustedDisk, Pointwise, Sound, Backed;
      ghost var before := indexes;
      if key in indexes {
        var state := indexes[key];
        indexes := indexes[key := state.(watcher := state.watcher.(dirty := true))];
        assert indexes.Keys == before.Keys && |indexes.Keys| == |before.Keys|;
      }
      forall k | k in indexes
        ensures Backed(history + [Changed(key)], k, indexes[k])
      {
        StillBacked(history, [Changed(key)], k, before[k], indexes[k]);
      }
      history := history + [Changed(key)];
    }

    /**
     The next call within the interval answers with the index just installed, however long ago its walk was
     and whatever changed between the walk and the installation; the walk it would make itself is not made.
     */
    method StaleWalkIsReused(key: Key, before: Walk, after: Walk, falls: bool, first: Clock, later: Clock)
      returns (r: Result<SearchIndex, CodeSearchError>, ghost l: nat, ghost i: nat)
      requires Valid() && Describes(before) && Describes(after) && first.Monotone() && later.Monotone()
      requires !Reusable(indexes, key, first.entered) && HasRoom(indexes, key)
      requires first.stored <= later.entered < first.stored + MANIFEST_SAFETY_INTERVAL
      modifies this
      ensures r == Ok(IndexFor(key, Walked(before.files)))
      ensures InstalledAt(history, l, i, key, Walked(before.files), first.walked, first.stored)
      ensures Changed(key) in history[l..i] <==> falls
    {
      r, l, i := Index(key, before, falls, true, first);
      var again, _, _ := Index(key, after, false, true, later);
      r := again;
    }

    /** A walk at 0, the installation 990 seconds later, the next call after 10 more: its walk is 1000 seconds old. */
    method WalkOlderThanInterval(key: Key, before: Walk, after: Walk)
      returns (r: Result<SearchIndex, CodeSearchError>, later: Clock, ghost l: nat, ghost i: nat)
      requires Valid() && Describes(before) && Describes(after)
      requires !Reusable(indexes, key, 0) && HasRoom(indexes, key)
      modifies this
      ensures r == Ok(IndexFor(key, Walked(before.files)))
      ensures l < |history| && history[l] == Listed(key, Walked(before.files), 0)
      ensures later.entered - history[l].at == 1000_000_000_000 > MANIFEST_SAFETY_INTERVAL
    {
      var stored, entered := 990_000_000_000, 1000_000_000_000;
      later := Clock(entered, entered, entered, entered, entered);
      r, l, i := StaleWalkIsReused(key, before, after, false, Clock(0, 0, 0, 0, stored), later);
    }

    /** The process dies while a build saves its outcome: memory is lost, the disk is left anywhere. */
    method CrashDuringSave(key: Key, walk: Walk, ghost loaded: Option<CachedIndex>, after: Disk)
      requires Valid() && Describes(walk)
      requires LoadsAs(tools.codec, DiskOf(key), loaded)
      requires var r := Refreshed(key, walk, Accepted(key.root, key.content, provider.modelId, loaded));
               r.Ok? && SaveReaches(tools.codec, DiskOf(key), r.value.payload, r.value.embeddings, after)
      modifies this
      ensures Valid() && indexes == map[] && disk == old(disk)[key := after] && history == old(history)
    {
      hide RefreshResult, FromCachedResult, SaveReaches, IdealIndex, TrustedDisk, LoadsAs, Matches, Faithful, Accepted;
      hide Pointwise, Sound, Agrees, PathSorted;
      BuildIsIdeal(key, walk, loaded);
      ghost var r := Refreshed(key, walk, Accepted(key.root, key.content, provider.modelId, loaded));
      TrustedSave(world, DiskOf(key), r.value.payload, r.value.embeddings, after);
      disk := disk[key := after];
      indexes := map[];
    }
  }
}
