/**
 Reranking (`rerank`, crates/code-search/src/ranking.rs): file boost, saturation and top-k selection over a hash
 map of scores with unspecified iteration order. Scores are reals; the query's multipliers are an arbitrary
 function of score and chunk.
 */
module Ranking {
  import opened Wrappers
  import opened Orders
  import opened Types
  import opened Location
  import opened Selection

  function Map<A, B>(f: A -> B, s: seq<A>): seq<B> {
    seq(|s|, i requires 0 <= i < |s| => f(s[i]))
  }

  lemma RemoveAt<T>(s: seq<T>, k: nat)
    requires k < |s|
    ensures multiset(s) == multiset{s[k]} + multiset(s[..k] + s[k + 1..])
  {
    assert s == s[..k] + ([s[k]] + s[k + 1..]);
  }

  lemma MapRemove<A, B>(f: A -> B, s: seq<A>, k: nat)
    requires k < |s|
    ensures multiset(Map(f, s)) == multiset{f(s[k])} + multiset(Map(f, s[..k] + s[k + 1..]))
  {
    RemoveAt(Map(f, s), k);
    assert Map(f, s)[..k] + Map(f, s)[k + 1..] == Map(f, s[..k] + s[k + 1..]);
  }

  lemma {:induction false} MapPermuted<A, B>(f: A -> B, a: seq<A>, b: seq<A>)
    requires multiset(a) == multiset(b)
    ensures multiset(Map(f, a)) == multiset(Map(f, b))
  {
    if a == [] {
      assert |multiset(b)| == 0;
    } else {
      hide Map;
      var x, rest := a[0], a[1..];
      DropHead(a);
      assert x in multiset(b);
      var k :| 0 <= k < |b| && b[k] == x;
      var others := b[..k] + b[k + 1..];
      RemoveAt(b, k);
      MapPermuted(f, rest, others);
      MapRemove(f, a, 0);
      MapRemove(f, b, k);
      assert a[..0] + a[1..] == rest;
    }
  }

  /** A listing of a set: every element once. */
  ghost predicate Lists<T>(s: seq<T>, all: set<T>) {
    && (forall x | x in s :: x in all) && (forall x | x in all :: x in s)
    && (forall i, j | 0 <= i < j < |s| :: s[i] != s[j])
  }

  lemma {:induction false} ListCounts<T>(s: seq<T>, all: set<T>, x: T)
    requires Lists(s, all)
    ensures multiset(s)[x] == if x in all then 1 else 0
  {
    if s == [] {
    } else {
      RestLists(s, all);
      DropHead(s);
      ListCounts(s[1..], all - {s[0]}, x);
    }
  }

  lemma RestLists<T>(s: seq<T>, all: set<T>)
    requires Lists(s, all) && s != []
    ensures Lists(s[1..], all - {s[0]}) && s[0] in all
  {
    assert s == [s[0]] + s[1..];
  }

  lemma ListingsPermute<T>(a: seq<T>, b: seq<T>, all: set<T>)
    requires Lists(a, all) && Lists(b, all)
    ensures multiset(a) == multiset(b)
  {
    forall x
      ensures multiset(a)[x] == multiset(b)[x]
    {
      ListCounts(a, all, x);
      ListCounts(b, all, x);
    }
  }

  lemma PermutationLists<T>(a: seq<T>, b: seq<T>, all: set<T>)
    requires Lists(a, all) && multiset(a) == multiset(b)
    ensures Lists(b, all)
  {
    SameMembers(a, b);
    forall i, j | 0 <= i < j < |b|
      ensures b[i] != b[j]
    {
      if b[i] == b[j] {
        assert b == b[..j] + b[j..];
        assert multiset(b)[b[i]] == multiset(b[..j])[b[i]] + multiset(b[j..])[b[i]];
        assert b[..j][i] == b[i] && b[j..][0] == b[i];
        ListCounts(a, all, b[i]);
        assert false;
      }
    }
  }

  /** One candidate: its chunk id, fused score, normalized path and chunk. */
  datatype Context = Context(id: nat, base: real, path: Path, chunk: Chunk)

  /** The indexed chunks, the fused scores, and the score multipliers of the query. */
  datatype Retrieval = Retrieval(chunks: seq<Chunk>, scores: map<nat, real>, adjust: (real, Chunk) -> real)
  {
    function ContextOf(id: nat): Context
      requires id in scores && id < |chunks|
    {
      Context(id, scores[id], Normalized(chunks[id].filePath), chunks[id])
    }

    /** The candidates: scored ids that the index has. */
    function Candidates(): set<Context> {
      set id | id in scores && id < |chunks| :: ContextOf(id)
    }
  }

  /** `multi_chunk_file_boost`. */
  function MultiChunkFileBoost(count: nat): real {
    var extra := if count == 0 then 0 else count - 1;
    1.0 + (if extra < 3 then extra else 3) as real * 0.08
  }

  function Lifted(base: real, count: nat): real {
    base * MultiChunkFileBoost(count)
  }

  ghost function InFile(all: set<Context>, path: Path): set<Context> {
    set d | d in all && d.path == path
  }

  /** The score after the file boost and the query's multipliers. */
  ghost function Boosted(r: Retrieval, c: Context): real {
    r.adjust(Lifted(c.base, |InFile(r.Candidates(), c.path)|), c.chunk)
  }

  /** A candidate with a score; better scores come first, then smaller ids. */
  datatype Candidate = Candidate(context: Context, score: real)

  function CompareCandidates(a: Candidate, b: Candidate): Ordering {
    CompareReal(b.score, a.score).Then(CompareInt(a.context.id, b.context.id))
  }

  predicate CandidateLe(a: Candidate, b: Candidate) {
    CompareCandidates(a, b) != Greater
  }

  ghost function AsCandidate(r: Retrieval, c: Context): Candidate {
    Candidate(c, Boosted(r, c))
  }

  /** The candidates of the same file that come before this one. */
  ghost function Ahead(r: Retrieval, c: Context): set<Context> {
    set d | d in InFile(r.Candidates(), c.path) && CompareCandidates(AsCandidate(r, d), AsCandidate(r, c)) == Less
  }

  /** What a candidate is worth in the end: its boosted score, saturated by those ahead of it in its file. */
  ghost function Final(r: Retrieval, c: Context): Scored {
    Scored(Boosted(r, c) / (1.0 + 0.2 * |Ahead(r, c)| as real), c.chunk)
  }

  lemma AheadGrows(r: Retrieval, c: Context, d: Context)
    requires c in Ahead(r, d)
    ensures |Ahead(r, c)| < |Ahead(r, d)|
  {
    hide Boosted;
    assert c !in Ahead(r, c);
    assert Ahead(r, c) + {c} <= Ahead(r, d);
    SubsetSize(Ahead(r, c) + {c}, Ahead(r, d));
  }

  /** The candidates of a file are divided by 1.0, 1.2, 1.4 and so on in boost order: no count repeats. */
  lemma SaturationRanksFile(r: Retrieval, c: Context, d: Context)
    requires c in r.Candidates() && d in r.Candidates() && c.path == d.path && c != d
    ensures c in Ahead(r, d) <==> |Ahead(r, c)| < |Ahead(r, d)|
    ensures |Ahead(r, c)| != |Ahead(r, d)|
    ensures |Ahead(r, c)| < |InFile(r.Candidates(), c.path)|
  {
    hide Boosted;
    if c.id == d.id {
      SameIdSameContext(r, c, d);
    }
    if c in Ahead(r, d) {
      AheadGrows(r, c, d);
    } else {
      assert d in Ahead(r, c);
      AheadGrows(r, d, c);
    }
    assert c in InFile(r.Candidates(), c.path) && c !in Ahead(r, c);
    SubsetSize(Ahead(r, c) + {c}, InFile(r.Candidates(), c.path));
  }

  /** Candidates in order of their ids. */
  ghost function ById(r: Retrieval, n: nat): seq<Context> {
    if n == 0 then []
    else ById(r, n - 1) + (if n - 1 in r.scores && n - 1 < |r.chunks| then [r.ContextOf(n - 1)] else [])
  }

  lemma {:induction false} ByIdMembers(r: Retrieval, n: nat)
    ensures forall c :: c in ById(r, n) <==> c in r.Candidates() && c.id < n
    ensures forall i, j | 0 <= i < j < |ById(r, n)| :: ById(r, n)[i] != ById(r, n)[j]
  {
    if n > 0 {
      ByIdMembers(r, n - 1);
      var before := ById(r, n - 1);
      forall c
        ensures c in ById(r, n) <==> c in r.Candidates() && c.id < n
      {
      }
      forall i | 0 <= i < |before|
        ensures before[i].id < n - 1
      {
        assert before[i] in before;
      }
    }
  }

  lemma ByIdLists(r: Retrieval)
    ensures Lists(ById(r, |r.chunks|), r.Candidates())
  {
    ByIdMembers(r, |r.chunks|);
  }

  /** The results are the final values of the candidates, in some order. */
  ghost predicate Results(r: Retrieval, results: seq<Scored>) {
    multiset(results) == multiset(Map(c => Final(r, c), ById(r, |r.chunks|)))
  }

  lemma ListedResults(r: Retrieval, contexts: seq<Context>)
    requires Lists(contexts, r.Candidates())
    ensures Results(r, Map(c => Final(r, c), contexts))
  {
    ByIdLists(r);
    ListingsPermute(contexts, ById(r, |r.chunks|), r.Candidates());
    MapPermuted(c => Final(r, c), contexts, ById(r, |r.chunks|));
  }

  /** The candidates in boost order: better scores first, then smaller ids. */
  ghost function BoostOrder(r: Retrieval): seq<Candidate> {
    SortBy(CandidateLe, Map(c => AsCandidate(r, c), ById(r, |r.chunks|)))
  }

  /** The final results in boost order: the same list for every iteration order of the score map. */
  ghost function InOrder(r: Retrieval): seq<Scored> {
    Map(c => Final(r, c), ContextsOf(BoostOrder(r)))
  }

  /** The first `topK` of the fully sorted results. */
  ghost function TopResults(r: Retrieval, topK: nat): seq<Scored> {
    Take(SortBy(ResultLe, InOrder(r)), topK)
  }

  /** Iterating the score map, in whatever order it yields its entries. */
  method CollectContexts(r: Retrieval) returns (contexts: seq<Context>)
    ensures Lists(contexts, r.Candidates())
  {
    contexts := [];
    var left := r.scores.Keys;
    while left != {}
      invariant left <= r.scores.Keys
      invariant forall c :: c in contexts <==> c in r.Candidates() && c.id !in left
      invariant forall i, j | 0 <= i < j < |contexts| :: contexts[i] != contexts[j]
      decreases |left|
    {
      var id :| id in left;
      left := left - {id};
      if id < |r.chunks| {
        ghost var before := contexts;
        contexts := contexts + [r.ContextOf(id)];
        assert forall c :: c in contexts <==> c in before || c == r.ContextOf(id);
      }
    }
  }

  function Paths(contexts: seq<Context>): seq<Path> {
    Map((c: Context) => c.path, contexts)
  }

  /** How often a path occurs in a listing: the candidates of that file. */
  lemma {:induction false} PathCount(contexts: seq<Context>, all: set<Context>, path: Path)
    requires Lists(contexts, all)
    ensures multiset(Paths(contexts))[path] == |InFile(all, path)|
  {
    if contexts == [] {
      assert InFile(all, path) == {};
    } else {
      var c, rest := contexts[0], all - {contexts[0]};
      RestLists(contexts, all);
      hide Lists;
      PathCount(contexts[1..], rest, path);
      assert Paths(contexts)[1..] == Paths(contexts[1..]);
      DropHead(Paths(contexts));
      if c.path == path {
        assert InFile(all, path) == InFile(rest, path) + {c};
      } else {
        assert InFile(all, path) == InFile(rest, path);
      }
    }
  }

  /** `file_counts`. */
  method CountFiles(contexts: seq<Context>) returns (counts: map<Path, nat>)
    ensures counts.Keys == set p | p in Paths(contexts)
    ensures forall p | p in counts :: counts[p] == multiset(Paths(contexts))[p]
  {
    counts := map[];
    ghost var paths := Paths(contexts);
    assert paths[..|contexts|] == paths;
    for i := 0 to |contexts|
      invariant counts.Keys == set p | p in paths[..i]
      invariant forall p | p in counts :: counts[p] == multiset(paths[..i])[p]
    {
      var path := contexts[i].path;
      assert paths[..i + 1] == paths[..i] + [path];
      assert path !in counts ==> multiset(paths[..i])[path] == 0;
      counts := counts[path := (if path in counts then counts[path] else 0) + 1];
    }
  }

  lemma {:induction false} KeysWithin(s: seq<Path>, keys: set<Path>)
    requires keys == set p | p in s
    ensures |keys| <= |s|
    ensures |keys| == |s| ==> forall p | p in s :: multiset(s)[p] == 1
  {
    if s == [] {
      assert keys == {};
    } else {
      var rest := set p | p in s[1..];
      KeysWithin(s[1..], rest);
      assert s == [s[0]] + s[1..];
      assert keys == rest + {s[0]};
    }
  }

  /** Where every file has one candidate, boost and saturation both are the identity. */
  lemma UniqueFilesNeedNoBoost(r: Retrieval, c: Context)
    requires c in r.Candidates() && |InFile(r.Candidates(), c.path)| == 1
    ensures Final(r, c) == Scored(r.adjust(c.base, c.chunk), c.chunk)
  {
    assert c in InFile(r.Candidates(), c.path);
    SingletonSet(InFile(r.Candidates(), c.path), c);
    assert Ahead(r, c) == {};
    assert Lifted(c.base, 1) == c.base;
  }

  lemma SingletonSet<T>(s: set<T>, x: T)
    requires |s| == 1 && x in s
    ensures s == {x}
  {
    assert |s - {x}| == 0;
  }

  /** The fast path: no candidate list, no counts. */
  method UniqueFileScores(r: Retrieval, contexts: seq<Context>) returns (saturated: seq<Scored>)
    requires Lists(contexts, r.Candidates())
    requires forall c | c in contexts :: |InFile(r.Candidates(), c.path)| == 1
    ensures saturated == Map(c => Final(r, c), contexts)
  {
    saturated := [];
    for i := 0 to |contexts|
      invariant |saturated| == i && forall k | 0 <= k < i :: saturated[k] == Final(r, contexts[k])
    {
      var c := contexts[i];
      assert c in contexts;
      UniqueFilesNeedNoBoost(r, c);
      saturated := saturated + [Scored(r.adjust(c.base, c.chunk), c.chunk)];
    }
  }

  /** The boosted candidates, in the order of the contexts. */
  method BoostCandidates(r: Retrieval, contexts: seq<Context>, counts: map<Path, nat>)
    returns (candidates: seq<Candidate>)
    requires forall c | c in contexts :: c.path in counts && counts[c.path] == |InFile(r.Candidates(), c.path)|
    ensures candidates == Map(c => AsCandidate(r, c), contexts)
  {
    candidates := [];
    for i := 0 to |contexts|
      invariant |candidates| == i && forall k | 0 <= k < i :: candidates[k] == AsCandidate(r, contexts[k])
    {
      var c := contexts[i];
      assert c in contexts;
      var count := counts[c.path];
      assert count == |InFile(r.Candidates(), c.path)|;
      hide Lifted, InFile;
      var score := r.adjust(Lifted(c.base, count), c.chunk);
      assert Candidate(c, score) == AsCandidate(r, c);
      hide *;
      candidates := candidates + [Candidate(c, score)];
    }
  }

  function ContextsOf(candidates: seq<Candidate>): seq<Context> {
    Map((c: Candidate) => c.context, candidates)
  }

  lemma CandidateLeIsPreorder()
    ensures TotalPreorder(CandidateLe)
  {
  }

  /** The sorted candidates: a listing, each with its boosted score, every earlier one strictly before. */
  ghost predicate InBoostOrder(r: Retrieval, candidates: seq<Candidate>) {
    && Lists(ContextsOf(candidates), r.Candidates())
    && (forall k | 0 <= k < |candidates| :: candidates[k].score == Boosted(r, candidates[k].context))
    && (forall i, j | 0 <= i < j < |candidates| :: CompareCandidates(candidates[i], candidates[j]) == Less)
  }

  lemma SortGivesBoostOrder(r: Retrieval, contexts: seq<Context>)
    requires Lists(contexts, r.Candidates())
    ensures InBoostOrder(r, SortBy(CandidateLe, Map(c => AsCandidate(r, c), contexts)))
  {
    var listed := Map(c => AsCandidate(r, c), contexts);
    var sorted := SortBy(CandidateLe, listed);
    CandidateLeIsPreorder();
    SortByCorrect(CandidateLe, listed);
    BoostedListing(r, contexts, sorted);
    hide SortBy, Boosted, Lists;
    forall i, j | 0 <= i < j < |sorted|
      ensures CompareCandidates(sorted[i], sorted[j]) == Less
    {
      StrictlyAhead(r, sorted, i, j);
    }
  }

  lemma BoostedListing(r: Retrieval, contexts: seq<Context>, sorted: seq<Candidate>)
    requires Lists(contexts, r.Candidates()) && multiset(sorted) == multiset(Map(c => AsCandidate(r, c), contexts))
    ensures Lists(ContextsOf(sorted), r.Candidates())
    ensures forall k | 0 <= k < |sorted| :: sorted[k].score == Boosted(r, sorted[k].context)
  {
    hide Boosted, Lists;
    var listed := Map(c => AsCandidate(r, c), contexts);
    assert ContextsOf(listed) == contexts;
    MapPermuted((c: Candidate) => c.context, listed, sorted);
    PermutationLists(contexts, ContextsOf(sorted), r.Candidates());
    SameMembers(sorted, listed);
    forall k | 0 <= k < |sorted|
      ensures sorted[k].score == Boosted(r, sorted[k].context)
    {
      assert sorted[k] in listed;
    }
  }

  lemma StrictlyAhead(r: Retrieval, sorted: seq<Candidate>, i: nat, j: nat)
    requires Sorted(CandidateLe, sorted) && Lists(ContextsOf(sorted), r.Candidates()) && i < j < |sorted|
    ensures CompareCandidates(sorted[i], sorted[j]) == Less
  {
    var contexts := ContextsOf(sorted);
    assert contexts[i] in contexts && contexts[j] in contexts && contexts[i] != contexts[j];
    if sorted[i].context.id == sorted[j].context.id {
      SameIdSameContext(r, sorted[i].context, sorted[j].context);
    }
  }

  lemma SameIdSameContext(r: Retrieval, c: Context, d: Context)
    requires c in r.Candidates() && d in r.Candidates() && c.id == d.id
    ensures c == d
  {
  }

  /** In boost order, the earlier candidates of a file are those ahead. */
  lemma SeenIsAhead(r: Retrieval, candidates: seq<Candidate>, k: nat)
    requires InBoostOrder(r, candidates) && k < |candidates|
    ensures multiset(Paths(ContextsOf(candidates))[..k])[candidates[k].context.path]
         == |Ahead(r, candidates[k].context)|
  {
    hide Boosted;
    var c := candidates[k].context;
    var contexts := ContextsOf(candidates);
    var earlier := set d | d in contexts[..k];
    assert Lists(contexts[..k], earlier);
    PathCount(contexts[..k], earlier, c.path);
    assert Paths(contexts[..k]) == Paths(contexts)[..k];
    forall d
      ensures d in InFile(earlier, c.path) <==> d in Ahead(r, c)
    {
      EarlierIsAhead(r, candidates, k, d);
    }
    assert InFile(earlier, c.path) == Ahead(r, c);
  }

  lemma EarlierIsAhead(r: Retrieval, candidates: seq<Candidate>, k: nat, d: Context)
    requires InBoostOrder(r, candidates) && k < |candidates|
    ensures d in Ahead(r, candidates[k].context)
       <==> d.path == candidates[k].context.path && d in ContextsOf(candidates)[..k]
  {
    hide Boosted;
    var contexts := ContextsOf(candidates);
    if d in contexts {
      var i :| 0 <= i < |contexts| && contexts[i] == d;
      assert candidates[i] == AsCandidate(r, d) && candidates[k] == AsCandidate(r, contexts[k]);
      assert d in r.Candidates();
      if i < k {
        assert contexts[..k][i] == d;
      } else {
        assert CompareCandidates(candidates[i], candidates[k]) != Less;
        assert forall m | 0 <= m < k :: contexts[m] != contexts[i];
      }
    } else {
      assert d !in contexts[..k];
    }
  }

  lemma ScoreInBoostOrder(r: Retrieval, candidates: seq<Candidate>, k: nat)
    requires InBoostOrder(r, candidates) && k < |candidates|
    ensures candidates[k].score == Boosted(r, candidates[k].context)
  {
  }

  /** The saturation loop. */
  method Saturate(r: Retrieval, candidates: seq<Candidate>) returns (saturated: seq<Scored>)
    requires InBoostOrder(r, candidates)
    ensures saturated == Map(c => Final(r, c), ContextsOf(candidates))
  {
    saturated := [];
    var seenPerFile: map<Path, nat> := map[];
    ghost var paths := Paths(ContextsOf(candidates));
    hide Boosted, Ahead, InBoostOrder;
    for k := 0 to |candidates|
      invariant forall p :: (if p in seenPerFile then seenPerFile[p] else 0) == multiset(paths[..k])[p]
      invariant |saturated| == k && forall m | 0 <= m < k :: saturated[m] == Final(r, candidates[m].context)
    {
      var path := candidates[k].context.path;
      var seen := if path in seenPerFile then seenPerFile[path] else 0;
      SeenIsAhead(r, candidates, k);
      ScoreInBoostOrder(r, candidates, k);
      var saturatedScore := candidates[k].score / (1.0 + 0.2 * seen as real);
      assert Scored(saturatedScore, candidates[k].context.chunk) == Final(r, candidates[k].context);
      assert paths[..k + 1] == paths[..k] + [path];
      hide Final;
      saturated := saturated + [Scored(saturatedScore, candidates[k].context.chunk)];
      seenPerFile := seenPerFile[path := seen + 1];
    }
  }

  /** Whatever order the candidates come in, sorting them gives the one boost order. */
  lemma BoostOrderIsFixed(r: Retrieval, contexts: seq<Context>)
    requires Lists(contexts, r.Candidates())
    ensures SortBy(CandidateLe, Map(c => AsCandidate(r, c), contexts)) == BoostOrder(r)
  {
    var canonical := ById(r, |r.chunks|);
    var a, b := Map(c => AsCandidate(r, c), contexts), Map(c => AsCandidate(r, c), canonical);
    ByIdLists(r);
    ListingsPermute(contexts, canonical, r.Candidates());
    MapPermuted(c => AsCandidate(r, c), contexts, canonical);
    CandidateLeIsPreorder();
    SortByCorrect(CandidateLe, a);
    SortByCorrect(CandidateLe, b);
    var sa, sb := SortBy(CandidateLe, a), SortBy(CandidateLe, b);
    SameMembers(sa, a);
    forall x, y | x in sa && y in sa && CandidateLe(x, y) && CandidateLe(y, x)
      ensures x == y
    {
      CandidateTiesEqual(r, contexts, x, y);
    }
    hide *;
    SortedUnique(CandidateLe, sa, sb);
  }

  lemma CandidateTiesEqual(r: Retrieval, contexts: seq<Context>, x: Candidate, y: Candidate)
    requires Lists(contexts, r.Candidates())
    requires x in Map(c => AsCandidate(r, c), contexts) && y in Map(c => AsCandidate(r, c), contexts)
    requires CandidateLe(x, y) && CandidateLe(y, x)
    ensures x == y
  {
    hide Boosted;
    assert x.context in contexts && y.context in contexts;
    SameIdSameContext(r, x.context, y.context);
  }

  lemma InOrderResults(r: Retrieval)
    ensures InBoostOrder(r, BoostOrder(r)) && Results(r, InOrder(r))
  {
    ByIdLists(r);
    SortGivesBoostOrder(r, ById(r, |r.chunks|));
    ListedResults(r, ContextsOf(BoostOrder(r)));
  }

  /** Where every file has one candidate, results that compare equal are equal. */
  lemma UniqueFilesTiesAgree(r: Retrieval, results: seq<Scored>)
    requires Results(r, results)
    requires forall c | c in r.Candidates() :: |InFile(r.Candidates(), c.path)| == 1
    ensures TiesAgree(results)
  {
    forall x, y | x in results && y in results && ResultLe(x, y) && ResultLe(y, x)
      ensures x == y
    {
      var c := Origin(r, results, x);
      var d := Origin(r, results, y);
      CompareLocationIsOrder(x.chunk, y.chunk, y.chunk);
      assert c.path == d.path;
      assert c in InFile(r.Candidates(), c.path) && d in InFile(r.Candidates(), c.path);
      SingletonSet(InFile(r.Candidates(), c.path), c);
    }
  }

  /** Every result is the final value of some candidate. */
  lemma Origin(r: Retrieval, results: seq<Scored>, x: Scored) returns (c: Context)
    requires Results(r, results) && x in results
    ensures c in r.Candidates() && x == Final(r, c)
  {
    hide Final;
    var listed := Map(c => Final(r, c), ById(r, |r.chunks|));
    SameMembers(results, listed);
    ByIdLists(r);
    var i :| 0 <= i < |listed| && listed[i] == x;
    c := ById(r, |r.chunks|)[i];
    assert c in ById(r, |r.chunks|);
  }

  /** On the fast path neither the iteration order nor the selection matters. */
  lemma UniqueFilesAgree(r: Retrieval, contexts: seq<Context>, topK: nat, select: Select)
    requires Lists(contexts, r.Candidates()) && Selects(select)
    requires forall c | c in r.Candidates() :: |InFile(r.Candidates(), c.path)| == 1
    ensures TopOf(Map(c => Final(r, c), contexts), topK, select) == TopOf(InOrder(r), topK, select)
  {
    var listed := Map(c => Final(r, c), contexts);
    InOrderResults(r);
    ListedResults(r, contexts);
    UniqueFilesTiesAgree(r, listed);
    hide TopOf, TiesAgree, InOrder, Map, Final, InBoostOrder, BoostOrder, Lists, Selects;
    TopOfAgrees(listed, listed, topK, select);
    TopOfAgrees(listed, InOrder(r), topK, select);
  }

  lemma PathsCounted(r: Retrieval, contexts: seq<Context>, counts: map<Path, nat>)
    requires Lists(contexts, r.Candidates()) && counts.Keys == set p | p in Paths(contexts)
    requires forall p | p in counts :: counts[p] == multiset(Paths(contexts))[p]
    ensures forall c | c in contexts :: c.path in counts && counts[c.path] == |InFile(r.Candidates(), c.path)|
  {
    forall c | c in contexts
      ensures c.path in counts && counts[c.path] == |InFile(r.Candidates(), c.path)|
    {
      var i :| 0 <= i < |contexts| && contexts[i] == c;
      assert Paths(contexts)[i] == c.path;
      PathCount(contexts, r.Candidates(), c.path);
    }
  }

  lemma UniquePathsCounted(r: Retrieval, contexts: seq<Context>, counts: map<Path, nat>)
    requires Lists(contexts, r.Candidates()) && counts.Keys == set p | p in Paths(contexts)
    requires forall p | p in counts :: counts[p] == multiset(Paths(contexts))[p]
    requires |counts| == |contexts|
    ensures forall c | c in r.Candidates() :: |InFile(r.Candidates(), c.path)| == 1
  {
    PathsCounted(r, contexts, counts);
    KeysWithin(Paths(contexts), counts.Keys);
    forall c | c in r.Candidates()
      ensures |InFile(r.Candidates(), c.path)| == 1
    {
      assert c in contexts;
      assert c.path in counts;
    }
  }

  /**
   `rerank`: for every iteration order of the score map, and on the fast path as on the general one, the
   result is what selecting and sorting makes of one fixed list. Nothing is assumed about locations.
   */
  method Rerank(r: Retrieval, topK: nat, select: Select) returns (results: seq<Scored>)
    requires Selects(select)
    ensures results == TopOf(InOrder(r), topK, select)
  {
    if r.scores == map[] {
      NoCandidates(r, topK, select);
      return [];
    }
    var contexts := CollectContexts(r);
    var counts := CountFiles(contexts);
    PathsCounted(r, contexts, counts);
    var saturated;
    if |counts| == |contexts| {
      UniquePathsCounted(r, contexts, counts);
      saturated := UniqueFileScores(r, contexts);
      UniqueFilesAgree(r, contexts, topK, select);
    } else {
      var candidates := BoostCandidates(r, contexts, counts);
      SortGivesBoostOrder(r, contexts);
      BoostOrderIsFixed(r, contexts);
      candidates := SortBy(CandidateLe, candidates);
      saturated := Saturate(r, candidates);
    }
    results := SortTop(saturated, topK, select);
  }

  lemma {:induction false} NothingById(r: Retrieval, n: nat)
    requires r.scores == map[]
    ensures ById(r, n) == []
  {
    if n > 0 {
      NothingById(r, n - 1);
    }
  }

  lemma NoCandidates(r: Retrieval, topK: nat, select: Select)
    requires r.scores == map[]
    ensures TopOf(InOrder(r), topK, select) == []
  {
    NothingById(r, |r.chunks|);
    assert InOrder(r) == [];
  }

  /** The results are sorted, as many as asked for or there are, and no better result is left out. */
  lemma RankedAreBest(r: Retrieval, topK: nat, select: Select) returns (others: seq<Scored>)
    requires Selects(select)
    ensures var results := TopOf(InOrder(r), topK, select);
            && Results(r, results + others) && Sorted(ResultLe, results)
            && |results| <= topK && (others != [] ==> |results| == topK)
            && forall x, y | x in results && y in others :: ResultLe(x, y)
  {
    InOrderResults(r);
    others := TopOfIsBest(InOrder(r), topK, select);
    hide InOrder, TopOf, Map, ResultLe;
  }

  /** 8 percent for each further candidate of the file, up to three. */
  function FileFactor(others: nat): real {
    if others == 0 then 1.0 else if others == 1 then 1.08 else if others == 2 then 1.16 else 1.24
  }

  function FileLifted(base: real, others: nat): real {
    base * FileFactor(others)
  }

  lemma LiftedIs(base: real, count: nat)
    requires count > 0
    ensures Lifted(base, count) == FileLifted(base, count - 1)
  {
    assert MultiChunkFileBoost(count) == FileFactor(count - 1);
  }

  /** What a candidate is worth, spelled out. */
  lemma FinalIs(r: Retrieval, c: Context)
    requires c in r.Candidates()
    ensures var count := |InFile(r.Candidates(), c.path)|;
            && count > 0 && Final(r, c).chunk == c.chunk
            && Boosted(r, c) == r.adjust(FileLifted(c.base, count - 1), c.chunk)
            && Final(r, c).score == Boosted(r, c) / (1.0 + 0.2 * |Ahead(r, c)| as real)
  {
    var count := |InFile(r.Candidates(), c.path)|;
    assert c in InFile(r.Candidates(), c.path);
    LiftedIs(c.base, count);
    hide Ahead, InFile, Lifted, FileLifted;
  }

  /** A candidate is what the index and the scores say under its id, with forward slashes in its path. */
  lemma CandidateIs(r: Retrieval, c: Context)
    requires c in r.Candidates()
    ensures c.id in r.scores && c.id < |r.chunks| && c.base == r.scores[c.id] && c.chunk == r.chunks[c.id]
    ensures |c.path| == |c.chunk.filePath|
    ensures forall i | 0 <= i < |c.path| ::
              c.path[i] == if c.chunk.filePath[i] == '\\' then '/' else c.chunk.filePath[i]
  {
  }

  /** Within a file the better boosted score is ahead, and of equal ones the smaller id. */
  lemma AheadIff(r: Retrieval, c: Context, d: Context)
    requires c in r.Candidates() && d in r.Candidates() && c.path == d.path
    ensures c in Ahead(r, d)
       <==> Boosted(r, c) > Boosted(r, d) || (Boosted(r, c) == Boosted(r, d) && c.id < d.id)
  {
    hide Boosted;
  }

  /** Sorted results: the higher score stands first, also among the first `k`. */
  lemma HigherFirst(all: seq<Scored>, k: nat, x: Scored, y: Scored, j: nat)
    requires Sorted(ResultLe, all) && x in all && x.score > y.score && j < |Take(all, k)| && Take(all, k)[j] == y
    ensures exists i :: 0 <= i < j && Take(all, k)[i] == x
  {
    var i :| 0 <= i < |all| && all[i] == x;
    assert !ResultLe(y, x) && all[j] == y;
    hide ResultLe;
    assert i < j;
    assert Take(all, k)[i] == x;
  }

  /** No result stands before another of higher score, nor in the results without it. */
  lemma HigherScoreFirst(r: Retrieval, topK: nat, c: Context, d: Context, j: nat)
    requires c in r.Candidates() && d in r.Candidates() && Final(r, c).score > Final(r, d).score
    requires j < |TopResults(r, topK)| && TopResults(r, topK)[j] == Final(r, d)
    ensures exists i :: 0 <= i < j && TopResults(r, topK)[i] == Final(r, c)
  {
    InOrderResults(r);
    FinalIsListed(r, c);
    var all := SortedPart(InOrder(r));
    assert TopResults(r, topK) == Take(all, topK);
    hide *;
    HigherFirst(all, topK, Final(r, c), Final(r, d), j);
  }

  lemma FinalIsListed(r: Retrieval, c: Context)
    requires c in r.Candidates() && Results(r, InOrder(r))
    ensures Final(r, c) in InOrder(r)
  {
    hide Final, InOrder;
    var listed := Map(c => Final(r, c), ById(r, |r.chunks|));
    ByIdLists(r);
    var k :| 0 <= k < |ById(r, |r.chunks|)| && ById(r, |r.chunks|)[k] == c;
    assert listed[k] == Final(r, c);
    SameMembers(InOrder(r), listed);
  }

  /** All scores are positive, and the query's multipliers keep them so. */
  ghost predicate Positive(r: Retrieval) {
    && (forall id | id in r.scores :: r.scores[id] > 0.0)
    && forall score: real, chunk: Chunk | score > 0.0 :: r.adjust(score, chunk) > 0.0
  }

  lemma BoostedPositive(r: Retrieval, c: Context)
    requires Positive(r) && c in r.Candidates()
    ensures Boosted(r, c) > 0.0
  {
    var count := |InFile(r.Candidates(), c.path)|;
    LiftedPositive(c.base, count);
    hide Lifted;
  }

  lemma LiftedPositive(base: real, count: nat)
    requires base > 0.0
    ensures Lifted(base, count) > 0.0
  {
    assert MultiChunkFileBoost(count) >= 1.0;
  }

  lemma QuotientsDiffer(x: real, y: real, p: nat, q: nat)
    requires x >= y > 0.0 && p < q
    ensures x / (1.0 + 0.2 * p as real) > y / (1.0 + 0.2 * q as real)
  {
    var a, b := 1.0 + 0.2 * p as real, 1.0 + 0.2 * q as real;
    assert 0.0 < a < b;
    assert y / a > y / b by {
      assert y / a - y / b == y * (b - a) / (a * b);
      assert y * (b - a) > 0.0 && a * b > 0.0;
    }
    assert x / a >= y / a;
  }

  /** Saturation separates the candidates of a file: no two of them end with the same score. */
  lemma SaturationBreaksTies(r: Retrieval, c: Context, d: Context)
    requires Positive(r) && c in r.Candidates() && d in r.Candidates() && c.path == d.path && c != d
    ensures Final(r, c).score != Final(r, d).score
    ensures c in Ahead(r, d) <==> Final(r, c).score > Final(r, d).score
  {
    SaturationRanksFile(r, c, d);
    SaturationRanksFile(r, d, c);
    BoostedPositive(r, c);
    BoostedPositive(r, d);
    var p, q := |Ahead(r, c)|, |Ahead(r, d)|;
    if c in Ahead(r, d) {
      QuotientsDiffer(Boosted(r, c), Boosted(r, d), p, q);
    } else {
      assert d in Ahead(r, c);
      QuotientsDiffer(Boosted(r, d), Boosted(r, c), q, p);
    }
  }

  /**
   With positive scores only equal results can tie, even where several chunks share a location: chunks of one
   location are in one file, and saturation has given them different scores.
   */
  lemma PositiveTiesAgree(r: Retrieval, results: seq<Scored>)
    requires Positive(r) && Results(r, results)
    ensures TiesAgree(results)
  {
    forall x, y | x in results && y in results && ResultLe(x, y) && ResultLe(y, x)
      ensures x == y
    {
      var c := Origin(r, results, x);
      var d := Origin(r, results, y);
      CompareLocationIsOrder(x.chunk, y.chunk, y.chunk);
      assert c.path == d.path;
      hide Final, ResultLe, Positive;
      if c != d {
        TiedScores(x, y);
        SaturationBreaksTies(r, c, d);
      }
    }
  }

  lemma TiedScores(x: Scored, y: Scored)
    requires ResultLe(x, y) && ResultLe(y, x)
    ensures x.score == y.score
  {
  }

  /** With positive scores the result is the first `topK` of the full sort, whatever the selection routine does. */
  lemma RankedIsTop(r: Retrieval, topK: nat, select: Select)
    requires Positive(r) && Selects(select)
    ensures TopOf(InOrder(r), topK, select) == TopResults(r, topK)
  {
    InOrderResults(r);
    PositiveTiesAgree(r, InOrder(r));
    hide InOrder, TopOf, TiesAgree, Selects, Positive;
    TopOfAgrees(InOrder(r), InOrder(r), topK, select);
  }
}
