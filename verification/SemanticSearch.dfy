/**
 Dense retrieval (`semantic_search` and `related_by_embedding`, crates/code-search/src/index.rs, lines 149 to 273).
 The cosine of a row with the query is a function of the row; approximate neighbours are an arbitrary list of ids.
 */
module SemanticSearch {
  import opened Wrappers
  import opened Orders
  import opened Types
  import opened Location
  import opened PathFilters
  import opened Ranking
  import opened Selection

  /** A chunk id with its score. */
  datatype Hit = Hit(id: nat, score: real)

  /** Higher score first, then the smaller id. */
  predicate HitLe(a: Hit, b: Hit) {
    CompareReal(b.score, a.score).Then(CompareInt(a.id, b.id)) != Greater
  }

  /** A hit may stand before another: its score is higher, or equal with an id no larger. */
  lemma HitLeIff(a: Hit, b: Hit)
    ensures HitLe(a, b) <==> a.score > b.score || (a.score == b.score && a.id <= b.id)
  {
  }

  /** The index: chunks, how many embedding rows there are, and each row's cosine with the query. */
  datatype Dense = Dense(chunks: seq<Chunk>, rowCount: nat, cosine: nat -> real)

  /** The full scan of the first `n` rows: allowed chunks with a positive score. */
  function Scan(index: Dense, filters: SearchFilters, n: nat): seq<Hit> {
    if n == 0 then []
    else
      var idx := n - 1;
      Scan(index, filters, idx)
      + if idx < |index.chunks| && Allows(filters, index.chunks[idx]) && index.cosine(idx) > 0.0
        then [Hit(idx, index.cosine(idx))] else []
  }

  /** The approximate candidates that are rows, with their exact positive scores. */
  function Rescore(index: Dense, ids: seq<nat>): seq<Hit> {
    if ids == [] then []
    else
      (if ids[0] < index.rowCount && index.cosine(ids[0]) > 0.0 then [Hit(ids[0], index.cosine(ids[0]))] else [])
      + Rescore(index, ids[1..])
  }

  predicate NoFilter(filters: SearchFilters) {
    filters.paths == [] && filters.languages == []
  }

  /** A row the search may return. */
  predicate Eligible(index: Dense, filters: SearchFilters, idx: nat) {
    && idx < index.rowCount && idx < |index.chunks|
    && Allows(filters, index.chunks[idx]) && index.cosine(idx) > 0.0
  }

  lemma {:induction false} ScanMembers(index: Dense, filters: SearchFilters, n: nat)
    requires n <= index.rowCount
    ensures forall h :: h in Scan(index, filters, n)
                   <==> h.id < n && Eligible(index, filters, h.id) && h.score == index.cosine(h.id)
    ensures forall i, j | 0 <= i < j < |Scan(index, filters, n)| ::
              Scan(index, filters, n)[i].id < Scan(index, filters, n)[j].id
  {
    hide Allows;
    if n > 0 {
      ScanMembers(index, filters, n - 1);
      var before := Scan(index, filters, n - 1);
      forall i | 0 <= i < |before|
        ensures before[i].id < n - 1
      {
        assert before[i] in before;
      }
    }
  }

  lemma HitLeIsOrder()
    ensures TotalPreorder(HitLe)
    ensures forall a, b | HitLe(a, b) && HitLe(b, a) :: a == b
  {
  }

  lemma FirstOfSorted(sorted: seq<Hit>, limit: nat, hit: Hit)
    requires Sorted(HitLe, sorted)
    ensures var first := Take(sorted, limit);
            && |first| <= limit && Sorted(HitLe, first)
            && (forall h | h in first :: h in sorted)
            && (hit in sorted && hit !in first ==> |first| == limit && forall h | h in first :: HitLe(h, hit))
  {
    if hit in sorted && hit !in Take(sorted, limit) {
      var k :| 0 <= k < |sorted| && sorted[k] == hit;
    }
  }

  lemma {:induction false} RescoreMembers(index: Dense, ids: seq<nat>)
    ensures forall h :: h in Rescore(index, ids)
                   <==> h.id in ids && h.id < index.rowCount
                        && index.cosine(h.id) > 0.0 && h.score == index.cosine(h.id)
  {
    if ids != [] {
      RescoreMembers(index, ids[1..]);
      assert ids == [ids[0]] + ids[1..];
    }
  }

  lemma {:induction false} RescoreDistinct(index: Dense, ids: seq<nat>)
    requires forall i, j | 0 <= i < j < |ids| :: ids[i] != ids[j]
    ensures forall i, j | 0 <= i < j < |Rescore(index, ids)| :: Rescore(index, ids)[i] != Rescore(index, ids)[j]
  {
    if ids != [] {
      RescoreDistinct(index, ids[1..]);
      RescoreMembers(index, ids[1..]);
      var rest := Rescore(index, ids[1..]);
      assert forall j | 0 <= j < |rest| :: rest[j] in rest;
    }
  }

  /** The rows a search ranks: the approximate candidates of an unfiltered search, or all eligible rows. */
  predicate Offered(index: Dense, filters: SearchFilters, approximate: Option<seq<nat>>, idx: nat) {
    if filters.paths == [] && filters.languages == [] && approximate.Some?
    then idx in approximate.value && idx < index.rowCount && index.cosine(idx) > 0.0
    else Eligible(index, filters, idx)
  }

  predicate NoIdTwice(ids: seq<nat>) {
    forall i, j | 0 <= i < j < |ids| :: ids[i] != ids[j]
  }

  /**
   The answer to a search: in order, at most `limit` hits, each an offered row with its exact score; an offered
   row is missing only when `limit` hits all come before it; and no hit comes twice.
   */
  ghost predicate BestHits(
    index: Dense, limit: nat, filters: SearchFilters, approximate: Option<seq<nat>>, scores: seq<Hit>)
  {
    && |scores| <= limit && Sorted(HitLe, scores)
    && (forall h | h in scores :: Offered(index, filters, approximate, h.id) && h.score == index.cosine(h.id))
    && (forall idx: nat | Offered(index, filters, approximate, idx) && Hit(idx, index.cosine(idx)) !in scores ::
          |scores| == limit && forall h | h in scores :: HitLe(h, Hit(idx, index.cosine(idx))))
    && (forall i, j | 0 <= i < j < |scores| :: scores[i] != scores[j])
  }

  /** `semantic_search`: approximate candidates only for unfiltered searches, exact scores always. */
  method Search(index: Dense, limit: nat, filters: SearchFilters, approximate: Option<seq<nat>>)
    returns (scores: seq<Hit>)
    requires approximate.Some? ==> NoIdTwice(approximate.value)
    ensures BestHits(index, limit, filters, approximate, scores)
  {
    if NoFilter(filters) && approximate.Some? {
      scores := Rescore(index, approximate.value);
      RescoreMembers(index, approximate.value);
      RescoreDistinct(index, approximate.value);
    } else {
      scores := Scan(index, filters, index.rowCount);
      ScanMembers(index, filters, index.rowCount);
    }
    assert Pool(index, filters, approximate, scores) by {
      hide Scan, Rescore, Allows;
    }
    ghost var pool := scores;
    hide *;
    scores := SortBy(HitLe, scores);
    SortedPool(index, filters, approximate, pool);
    FirstHits(index, limit, filters, approximate, scores);
    if limit < |scores| {
      scores := scores[..limit];
    }
  }

  /** All offered rows with their exact scores, once each. */
  ghost predicate Pool(index: Dense, filters: SearchFilters, approximate: Option<seq<nat>>, pool: seq<Hit>) {
    && (forall h | h in pool :: Offered(index, filters, approximate, h.id) && h.score == index.cosine(h.id))
    && (forall idx: nat | Offered(index, filters, approximate, idx) :: Hit(idx, index.cosine(idx)) in pool)
    && (forall i, j | 0 <= i < j < |pool| :: pool[i] != pool[j])
  }

  lemma SortedPool(index: Dense, filters: SearchFilters, approximate: Option<seq<nat>>, pool: seq<Hit>)
    requires Pool(index, filters, approximate, pool)
    ensures Pool(index, filters, approximate, SortBy(HitLe, pool)) && Sorted(HitLe, SortBy(HitLe, pool))
  {
    var sorted, all := SortBy(HitLe, pool), set h | h in pool;
    HitLeIsOrder();
    SortByCorrect(HitLe, pool);
    SameMembers(sorted, pool);
    assert Lists(pool, all);
    hide SortBy, HitLe, Offered;
    PermutationLists(pool, sorted, all);
  }

  lemma FirstHits(index: Dense, limit: nat, filters: SearchFilters, approximate: Option<seq<nat>>, sorted: seq<Hit>)
    requires Pool(index, filters, approximate, sorted) && Sorted(HitLe, sorted)
    ensures BestHits(index, limit, filters, approximate, if limit < |sorted| then sorted[..limit] else sorted)
  {
    var first := if limit < |sorted| then sorted[..limit] else sorted;
    hide Offered, HitLe;
    forall idx: nat | Offered(index, filters, approximate, idx) && Hit(idx, index.cosine(idx)) !in first
      ensures |first| == limit && forall h | h in first :: HitLe(h, Hit(idx, index.cosine(idx)))
    {
      FirstOfSorted(sorted, limit, Hit(idx, index.cosine(idx)));
    }
    assert forall h | h in first :: h in sorted;
    assert Sorted(HitLe, first);
  }

  lemma MembersCount<T>(s: seq<T>, all: set<T>)
    requires Lists(s, all)
    ensures |all| == |s|
  {
    var listed := multiset(s);
    forall x
      ensures listed[x] == multiset(all)[x]
    {
      ListCounts(s, all, x);
    }
    assert listed == multiset(all);
  }

  /** There is only one such answer. */
  lemma BestHitsUnique(
    index: Dense, limit: nat, filters: SearchFilters, approximate: Option<seq<nat>>, a: seq<Hit>, b: seq<Hit>)
    requires BestHits(index, limit, filters, approximate, a) && BestHits(index, limit, filters, approximate, b)
    ensures a == b
  {
    var x, y := set h | h in a, set h | h in b;
    HitLeIsOrder();
    assert Lists(a, x) && Lists(b, y);
    MembersCount(a, x);
    MembersCount(b, y);
    SubsetOfOther(index, limit, filters, approximate, a, b);
    SubsetOfOther(index, limit, filters, approximate, b, a);
    assert x == y;
    hide BestHits, HitLe, Offered, Lists;
    ListingsPermute(a, b, x);
    SortedUnique(HitLe, a, b);
  }

  lemma SubsetOfOther(
    index: Dense, limit: nat, filters: SearchFilters, approximate: Option<seq<nat>>, a: seq<Hit>, b: seq<Hit>)
    requires BestHits(index, limit, filters, approximate, a) && BestHits(index, limit, filters, approximate, b)
    ensures forall h | h in a :: h in b
  {
    var x, y := set h | h in a, set h | h in b;
    assert Lists(a, x) && Lists(b, y);
    MembersCount(a, x);
    MembersCount(b, y);
    HitLeIsOrder();
    hide HitLe, Offered, Lists;
    forall h | h in a
      ensures h in b
    {
      if h !in b {
        assert Hit(h.id, index.cosine(h.id)) == h;
        assert |b| == limit && forall g | g in b :: HitLe(g, h);
        assert forall g | g in y && g !in x :: Hit(g.id, index.cosine(g.id)) == g && HitLe(h, g);
        if y <= x {
          SubsetSize(y + {h}, x);
        }
      }
    }
  }

  /** Approximate candidates with full recall give the exact answer: only recall is approximate. */
  lemma FullRecallIsExact(
    index: Dense, limit: nat, filters: SearchFilters, ids: seq<nat>, approximate: seq<Hit>, exact: seq<Hit>)
    requires NoFilter(filters) && index.rowCount == |index.chunks|
    requires forall idx: nat | idx < index.rowCount :: idx in ids
    requires BestHits(index, limit, filters, Some(ids), approximate) && BestHits(index, limit, filters, None, exact)
    ensures approximate == exact
  {
    assert forall c :: Allows(filters, c);
    assert forall idx: nat :: Offered(index, filters, Some(ids), idx) <==> Offered(index, filters, None, idx);
    hide Offered, Allows, HitLe;
    BestHitsUnique(index, limit, filters, None, approximate, exact);
  }

  /** The chunks related to a source: other allowed rows of its language with a positive score. */
  function RelatedTo(index: Dense, source: nat, filters: SearchFilters, n: nat): seq<Scored>
    requires source < |index.chunks|
  {
    if n == 0 then []
    else
      var idx := n - 1;
      RelatedTo(index, source, filters, idx)
      + if idx != source && idx < |index.chunks| && index.chunks[idx].language == index.chunks[source].language
           && Allows(filters, index.chunks[idx]) && index.cosine(idx) > 0.0
        then [Scored(index.cosine(idx), index.chunks[idx])] else []
  }

  lemma {:induction false} RelatedMembers(index: Dense, source: nat, filters: SearchFilters, n: nat)
    requires source < |index.chunks|
    ensures forall x | x in RelatedTo(index, source, filters, n) ::
              exists idx: nat :: idx < n && idx < |index.chunks| && idx != source && x.chunk == index.chunks[idx]
                                 && x.chunk.language == index.chunks[source].language && Allows(filters, x.chunk)
                                 && x.score == index.cosine(idx) && x.score > 0.0
  {
    hide Allows;
    if n > 0 {
      RelatedMembers(index, source, filters, n - 1);
    }
  }

  /** A row related to the source: another allowed chunk of its language with a positive score. */
  predicate IsRelated(index: Dense, source: nat, filters: SearchFilters, idx: nat) {
    && source < |index.chunks| && idx < |index.chunks| && idx < index.rowCount && idx != source
    && index.chunks[idx].language == index.chunks[source].language
    && Allows(filters, index.chunks[idx]) && index.cosine(idx) > 0.0
  }

  /** A listing of the related rows: all of them and no other, each once, in order, with chunk and exact score. */
  ghost predicate ListsRelated(
    index: Dense, source: nat, filters: SearchFilters, n: nat, ids: seq<nat>, related: seq<Scored>)
  {
    && |related| == |ids| && (forall i, j | 0 <= i < j < |ids| :: ids[i] < ids[j])
    && (forall idx: nat :: idx in ids <==> idx < n && IsRelated(index, source, filters, idx))
    && forall i | 0 <= i < |ids| ::
         ids[i] < |index.chunks| && related[i] == Scored(index.cosine(ids[i]), index.chunks[ids[i]])
  }

  lemma RelatedRowSkipped(
    index: Dense, source: nat, filters: SearchFilters, idx: nat, ids: seq<nat>, related: seq<Scored>)
    requires ListsRelated(index, source, filters, idx, ids, related) && !IsRelated(index, source, filters, idx)
    ensures ListsRelated(index, source, filters, idx + 1, ids, related)
  {
    hide IsRelated;
  }

  lemma RelatedRowAdded(
    index: Dense, source: nat, filters: SearchFilters, idx: nat, ids: seq<nat>, related: seq<Scored>)
    requires ListsRelated(index, source, filters, idx, ids, related) && IsRelated(index, source, filters, idx)
    ensures idx < |index.chunks|
    ensures ListsRelated(index, source, filters, idx + 1, ids + [idx],
                         related + [Scored(index.cosine(idx), index.chunks[idx])])
  {
    assert idx < |index.chunks|;
    hide IsRelated;
    assert forall i | 0 <= i < |ids| :: ids[i] in ids;
    forall other: nat
      ensures other in ids + [idx] <==> other < idx + 1 && IsRelated(index, source, filters, other)
    {
      assert other in ids + [idx] <==> other in ids || other == idx;
    }
  }

  lemma {:induction false} RelatedRows(index: Dense, source: nat, filters: SearchFilters, n: nat)
    returns (ids: seq<nat>)
    requires source < |index.chunks| && n <= index.rowCount
    ensures ListsRelated(index, source, filters, n, ids, RelatedTo(index, source, filters, n))
  {
    ids := [];
    if n > 0 {
      var idx := n - 1;
      var before := RelatedTo(index, source, filters, idx);
      assert RelatedTo(index, source, filters, n)
          == before + if IsRelated(index, source, filters, idx)
                      then [Scored(index.cosine(idx), index.chunks[idx])] else [];
      assert before + [] == before;
      hide *;
      ids := RelatedRows(index, source, filters, idx);
      if IsRelated(index, source, filters, idx) {
        RelatedRowAdded(index, source, filters, idx, ids, before);
        ids := ids + [idx];
      } else {
        RelatedRowSkipped(index, source, filters, idx, ids, before);
      }
    }
  }

  predicate AllScoresEqual(candidates: seq<Scored>) {
    forall c | c in candidates :: c.score == candidates[0].score
  }

  predicate SameScores(candidates: seq<Scored>) {
    forall x, y | x in candidates && y in candidates :: x.score == y.score
  }

  lemma SameScoresIff(candidates: seq<Scored>)
    ensures AllScoresEqual(candidates) <==> SameScores(candidates)
  {
    if candidates != [] {
      assert candidates[0] in candidates;
    }
  }

  /** A listing of the related chunks is the answer when no related chunk left out is better. */
  ghost predicate BestRelated(related: seq<Scored>, limit: nat, results: seq<Scored>) {
    && |results| <= limit && Sorted(ResultLe, results)
    && exists others :: RestOf(related, results, others) && (others != [] ==> |results| == limit)
  }

  ghost predicate RestOf(related: seq<Scored>, results: seq<Scored>, others: seq<Scored>) {
    && multiset(results + others) == multiset(related)
    && forall x, y | x in results && y in others :: ResultLe(x, y)
  }

  /**
   `related_by_embedding`: the best `limit` related chunks, in order. It is the beginning of the full sort,
   except that for equal scores and too many candidates it is what selecting and sorting gives.
   */
  method RelatedByEmbedding(index: Dense, source: nat, limit: nat, filters: SearchFilters, select: Select)
    returns (results: seq<Scored>)
    requires Selects(select)
    ensures !(source < |index.chunks| && source < index.rowCount) ==> results == []
    ensures source < |index.chunks| && source < index.rowCount ==>
              var related := RelatedTo(index, source, filters, index.rowCount);
              && (exists ids :: ListsRelated(index, source, filters, index.rowCount, ids, related))
              && BestRelated(related, limit, results)
              && (!(SameScores(related) && |related| > limit) ==> results == Take(SortBy(ResultLe, related), limit))
              && (SameScores(related) && |related| > limit ==> results == TopOf(related, limit, select))
  {
    if source >= |index.chunks| || source >= index.rowCount {
      return [];
    }
    var candidates := RelatedTo(index, source, filters, index.rowCount);
    ghost var ids := RelatedRows(index, source, filters, index.rowCount);
    var allScoresEqual := candidates != [] && AllScoresEqual(candidates);
    assert |candidates| > limit ==> candidates != [];
    SameScoresIff(candidates);
    hide *;
    if allScoresEqual && |candidates| > limit {
      results := SortTop(candidates, limit, select);
      SelectedBest(candidates, limit, select);
    } else {
      results := SortBy(ResultLe, candidates);
      results := Take(results, limit);
      FullSortBest(candidates, limit);
    }
  }

  lemma SelectedBest(related: seq<Scored>, limit: nat, select: Select)
    requires Selects(select)
    ensures BestRelated(related, limit, TopOf(related, limit, select))
  {
    hide TopOf, Sorted, ResultLe;
    var others := TopOfIsBest(related, limit, select);
    assert RestOf(related, TopOf(related, limit, select), others);
  }

  lemma FullSortBest(related: seq<Scored>, limit: nat)
    ensures BestRelated(related, limit, Take(SortBy(ResultLe, related), limit))
  {
    var sorted := SortedPart(related);
    var others := TakeIsBest(sorted, limit);
    hide Sorted, ResultLe, SortBy, Take;
    assert RestOf(related, Take(sorted, limit), others);
  }

  /** Two candidates at one location are the same chunk. */
  ghost predicate OneChunkPerLocation(candidates: seq<Scored>) {
    forall x, y | x in candidates && y in candidates && SameLocation(x.chunk, y.chunk) :: x.chunk == y.chunk
  }

  /** For this limit, every selection gives the beginning of the full sort. */
  ghost predicate AgreesAt(candidates: seq<Scored>, limit: nat) {
    forall t | Selected(candidates, limit, t) ::
      SortBy(ResultLe, Take(t, limit)) == Take(SortBy(ResultLe, candidates), limit)
  }

  /**
   For candidates of equal score the selection agrees with the full sort, for every limit and every selection
   routine, if and only if no two different candidates share a location.
   */
  lemma RelatedSelectionIff(candidates: seq<Scored>)
    requires AllScoresEqual(candidates)
    ensures (forall limit: nat | limit < |candidates| :: AgreesAt(candidates, limit))
       <==> OneChunkPerLocation(candidates)
  {
    var sorted := SortedPart(candidates);
    forall limit: nat | limit < |candidates|
      ensures AgreesAt(candidates, limit) <==> TiesAgreeBefore(sorted, limit)
    {
      SelectionAgreesIff(candidates, limit);
    }
    EqualScoresTie(candidates);
    hide ResultLe, SortBy, AgreesAt, OneChunkPerLocation, Sorted, TiesAgree, TiesAgreeBefore, AllScoresEqual;
    TiesAgreeEverywhere(candidates, sorted);
  }

  lemma TiesAgreeEverywhere(candidates: seq<Scored>, sorted: seq<Scored>)
    requires multiset(sorted) == multiset(candidates) && |sorted| == |candidates| && Sorted(ResultLe, sorted)
    ensures (forall limit: nat | limit < |candidates| :: TiesAgreeBefore(sorted, limit)) <==> TiesAgree(candidates)
  {
    if TiesAgree(candidates) {
      forall limit: nat | limit < |candidates|
        ensures TiesAgreeBefore(sorted, limit)
      {
        TiesAgreeSorted(candidates, sorted, limit);
      }
    } else {
      var x, y :| x in candidates && y in candidates && ResultLe(x, y) && ResultLe(y, x) && x != y;
      TieShows(candidates, sorted, x, y);
    }
  }

  lemma TieShows(candidates: seq<Scored>, sorted: seq<Scored>, x: Scored, y: Scored)
    requires multiset(sorted) == multiset(candidates) && |sorted| == |candidates|
    requires x in candidates && y in candidates && ResultLe(x, y) && ResultLe(y, x) && x != y
    ensures exists limit: nat :: limit < |candidates| && !TiesAgreeBefore(sorted, limit)
  {
    SameMembers(candidates, sorted);
    hide *;
    assert x in sorted && y in sorted;
    var i: nat :| i < |sorted| && sorted[i] == x;
    var j: nat :| j < |sorted| && sorted[j] == y;
    TieBefore(sorted, if i < j then i else j, if i < j then j else i);
  }

  lemma TieBefore(sorted: seq<Scored>, i: nat, j: nat)
    requires i < j < |sorted| && ResultLe(sorted[j], sorted[i]) && sorted[i] != sorted[j]
    ensures i + 1 < |sorted| && !TiesAgreeBefore(sorted, i + 1)
  {
    hide ResultLe;
  }

  lemma EqualScoresTie(candidates: seq<Scored>)
    requires AllScoresEqual(candidates)
    ensures TiesAgree(candidates) <==> OneChunkPerLocation(candidates)
  {
    forall x, y | x in candidates && y in candidates
      ensures ResultLe(x, y) && ResultLe(y, x) <==> SameLocation(x.chunk, y.chunk)
    {
      CompareLocationIsOrder(x.chunk, y.chunk, y.chunk);
    }
    hide ResultLe, SameLocation;
  }
}
