/**
 Hybrid search (`rank_search` and the score multipliers, crates/code-search/src/ranking.rs): reciprocal rank
 fusion of two channels, then reranking. Whether a chunk defines the queried symbol is an arbitrary predicate;
 paths are lowercased as ASCII.
 */
module Fusion {
  import opened Wrappers
  import opened Strings
  import opened Types
  import opened Location
  import opened PathFilters
  import opened Selection
  import opened Ranking

  const RRF_K: real := 60.0
  const CANDIDATE_MULTIPLIER: nat := 5

  function ReciprocalRank(rank: nat): real {
    1.0 / (RRF_K + rank as real + 1.0)
  }

  function ResolveAlpha(symbolQuery: bool): real {
    if symbolQuery then 0.3 else 0.5
  }

  /** What one rank adds. */
  function Share(weight: real, rank: nat): real {
    weight * ReciprocalRank(rank)
  }

  /** What one channel's first `n` ids contribute to a chunk. */
  function Contribution(ids: seq<nat>, weight: real, id: nat, n: nat): real
    requires n <= |ids|
  {
    if n == 0 then 0.0
    else Contribution(ids, weight, id, n - 1) + (if ids[n - 1] == id then Share(weight, n - 1) else 0.0)
  }

  /** The fused scores of both channels. */
  ghost function Fused(semantic: seq<nat>, sparse: seq<nat>, alpha: real): map<nat, real> {
    map id | id in (set i | i in semantic) + (set i | i in sparse) ::
      Contribution(semantic, alpha, id, |semantic|) + Contribution(sparse, 1.0 - alpha, id, |sparse|)
  }

  lemma {:induction false} AbsentContributesNothing(ids: seq<nat>, weight: real, id: nat, n: nat)
    requires n <= |ids| && id !in ids[..n]
    ensures Contribution(ids, weight, id, n) == 0.0
  {
    if n > 0 {
      assert ids[..n][n - 1] == ids[n - 1] && ids[..n] == ids[..n - 1] + [ids[n - 1]];
      AbsentContributesNothing(ids, weight, id, n - 1);
    }
  }

  lemma {:induction false} ContributionAt(ids: seq<nat>, weight: real, k: nat, n: nat)
    requires k < n <= |ids| && forall i, j | 0 <= i < j < |ids| :: ids[i] != ids[j]
    ensures Contribution(ids, weight, ids[k], n) == Share(weight, k)
  {
    hide Share;
    if k < n - 1 {
      ContributionAt(ids, weight, k, n - 1);
    } else {
      assert ids[k] !in ids[..k];
      AbsentContributesNothing(ids, weight, ids[k], n - 1);
    }
  }

  lemma EarlierRankContributesMore(weight: real, i: nat, j: nat)
    requires weight > 0.0 && i < j
    ensures Share(weight, i) > Share(weight, j)
  {
    var a, b := RRF_K + i as real + 1.0, RRF_K + j as real + 1.0;
    assert 1.0 / a > 1.0 / b;
  }

  /** A chunk that both channels rank above another gets the higher fused score. */
  lemma FusionRespectsAgreement(semantic: seq<nat>, sparse: seq<nat>, alpha: real, i: nat, j: nat, k: nat, l: nat)
    requires 0.0 < alpha < 1.0
    requires forall x, y | 0 <= x < y < |semantic| :: semantic[x] != semantic[y]
    requires forall x, y | 0 <= x < y < |sparse| :: sparse[x] != sparse[y]
    requires i < j < |semantic| && k < l < |sparse| && semantic[i] == sparse[k] && semantic[j] == sparse[l]
    ensures Fused(semantic, sparse, alpha)[semantic[i]] > Fused(semantic, sparse, alpha)[semantic[j]]
  {
    ContributionAt(semantic, alpha, i, |semantic|);
    ContributionAt(semantic, alpha, j, |semantic|);
    ContributionAt(sparse, 1.0 - alpha, k, |sparse|);
    ContributionAt(sparse, 1.0 - alpha, l, |sparse|);
    EarlierRankContributesMore(alpha, i, j);
    EarlierRankContributesMore(1.0 - alpha, k, l);
    hide Contribution, Share;
    var fused := Fused(semantic, sparse, alpha);
    assert fused[semantic[i]] == Share(alpha, i) + Share(1.0 - alpha, k);
    assert fused[semantic[j]] == Share(alpha, j) + Share(1.0 - alpha, l);
  }

  /** Of distinct ids. */
  predicate Distinct(ids: seq<nat>) {
    forall i, j | 0 <= i < j < |ids| :: ids[i] != ids[j]
  }

  /** A weight of its channel over sixty-one plus the rank. */
  function Weighted(weight: real, rank: nat): real {
    weight / (61.0 + rank as real)
  }

  /**
   The fused score of a chunk, spelled out: for a symbol query 0.3 in the semantic channel and 0.7 in the sparse
   one, for any other query 0.5 in both, each over 61 plus the rank.
   */
  lemma FusedIsWeighted(semantic: seq<nat>, sparse: seq<nat>, symbolQuery: bool, id: nat)
    requires Distinct(semantic) && Distinct(sparse) && (id in semantic || id in sparse)
    ensures var score := Fused(semantic, sparse, ResolveAlpha(symbolQuery))[id];
            var (a, b) := if symbolQuery then (0.3, 0.7) else (0.5, 0.5);
            && (id !in sparse ==> forall i | 0 <= i < |semantic| && semantic[i] == id :: score == Weighted(a, i))
            && (id !in semantic ==> forall j | 0 <= j < |sparse| && sparse[j] == id :: score == Weighted(b, j))
            && forall i, j | 0 <= i < |semantic| && 0 <= j < |sparse| && semantic[i] == sparse[j] == id ::
                 score == Weighted(a, i) + Weighted(b, j)
  {
    var alpha := ResolveAlpha(symbolQuery);
    var (a, b) := if symbolQuery then (0.3, 0.7) else (0.5, 0.5);
    assert a == alpha && b == 1.0 - alpha;
    OneChannel(semantic, a, id);
    OneChannel(sparse, b, id);
    hide Contribution, Weighted;
    assert Fused(semantic, sparse, alpha)[id]
        == Contribution(semantic, a, id, |semantic|) + Contribution(sparse, b, id, |sparse|);
  }

  lemma OneChannel(ids: seq<nat>, weight: real, id: nat)
    requires Distinct(ids)
    ensures id !in ids ==> Contribution(ids, weight, id, |ids|) == 0.0
    ensures forall i | 0 <= i < |ids| && ids[i] == id :: Contribution(ids, weight, id, |ids|) == Weighted(weight, i)
  {
    assert ids[..|ids|] == ids;
    if id !in ids {
      AbsentContributesNothing(ids, weight, id, |ids|);
    }
    forall i | 0 <= i < |ids| && ids[i] == id
      ensures Contribution(ids, weight, id, |ids|) == Weighted(weight, i)
    {
      ContributionAt(ids, weight, i, |ids|);
      ShareIs(weight, i);
    }
  }

  lemma ShareIs(weight: real, rank: nat)
    ensures Share(weight, rank) == Weighted(weight, rank)
  {
    var n := 61.0 + rank as real;
    assert RRF_K + rank as real + 1.0 == n;
    assert weight * (1.0 / n) == weight / n;
  }

  /** One channel's loop over its ranked ids. */
  method AddChannel(scores: map<nat, real>, ids: seq<nat>, weight: real) returns (fused: map<nat, real>)
    ensures fused.Keys == scores.Keys + set id | id in ids
    ensures forall id | id in fused ::
              fused[id] == (if id in scores then scores[id] else 0.0) + Contribution(ids, weight, id, |ids|)
  {
    fused := scores;
    assert ids[..|ids|] == ids;
    for rank := 0 to |ids|
      invariant fused.Keys == scores.Keys + set id | id in ids[..rank]
      invariant forall id | id in fused ::
                  fused[id] == (if id in scores then scores[id] else 0.0) + Contribution(ids, weight, id, rank)
    {
      var id := ids[rank];
      assert ids[..rank + 1] == ids[..rank] + [id];
      if id !in fused {
        AbsentContributesNothing(ids, weight, id, rank);
      }
      var share := Share(weight, rank);
      assert forall other :: Contribution(ids, weight, other, rank + 1)
                          == Contribution(ids, weight, other, rank) + if id == other then share else 0.0;
      hide *;
      fused := fused[id := (if id in fused then fused[id] else 0.0) + share];
    }
  }

  /** A query, as far as scoring looks at it. */
  datatype Query = Query(symbolQuery: bool, definesSymbol: Chunk -> bool, terms: seq<string>)

  predicate Contains(s: string, part: string) {
    exists i | 0 <= i <= |s| :: part <= s[i..]
  }

  predicate EndsWith(s: string, part: string) {
    |part| <= |s| && s[|s| - |part|..] == part
  }

  predicate InDirectory(path: string, directory: string) {
    directory <= path || Contains(path, "/" + directory)
  }

  function TermsFound(path: string, terms: seq<string>): nat {
    if terms == [] then 0
    else TermsFound(path, terms[..|terms| - 1]) + if Contains(path, terms[|terms| - 1]) then 1 else 0
  }

  function KeywordBoost(path: string, terms: seq<string>): real {
    var boost := 1.0 + 0.05 * TermsFound(path, terms) as real;
    if boost < 1.25 then boost else 1.25
  }

  /** `path_keyword_boost`. */
  method PathKeywordBoost(path: string, terms: seq<string>) returns (boost: real)
    ensures boost == KeywordBoost(path, terms)
    ensures 1.0 <= boost <= 1.25
  {
    boost := 1.0;
    for i := 0 to |terms|
      invariant boost == 1.0 + 0.05 * TermsFound(path, terms[..i]) as real
    {
      assert terms[..i + 1][..i] == terms[..i];
      if Contains(path, terms[i]) {
        boost := boost + 0.05;
      }
    }
    assert terms[..|terms|] == terms;
    boost := if boost < 1.25 then boost else 1.25;
  }

  predicate IsTestPath(path: string) {
    || InDirectory(path, "tests/") || InDirectory(path, "test/") || InDirectory(path, "spec/")
    || Contains(path, "_test.") || Contains(path, "_spec.")
  }

  function Scale(x: real, factor: real): real {
    x * factor
  }

  lemma ScalePositive(x: real, factor: real)
    requires x > 0.0 && factor > 0.0
    ensures Scale(x, factor) > 0.0
  {
  }

  function Penalty(applies: bool, factor: real): real {
    if applies then factor else 1.0
  }

  /** `path_penalty`: up to four factors, all of them soft. */
  function PathPenalty(path: string): real {
    var examples := InDirectory(path, "examples/") || InDirectory(path, "docs/");
    var legacy := InDirectory(path, "legacy/") || InDirectory(path, "compat/");
    var glue := EndsWith(path, "__init__.py") || EndsWith(path, "package-info.java") || EndsWith(path, ".d.ts");
    Scale(Scale(Scale(Penalty(IsTestPath(path), 0.82), Penalty(examples, 0.88)), Penalty(legacy, 0.78)),
          Penalty(glue, 0.75))
  }

  lemma PenaltyPositive(path: string)
    ensures PathPenalty(path) > 0.0
  {
    var examples := InDirectory(path, "examples/") || InDirectory(path, "docs/");
    var legacy := InDirectory(path, "legacy/") || InDirectory(path, "compat/");
    var glue := EndsWith(path, "__init__.py") || EndsWith(path, "package-info.java") || EndsWith(path, ".d.ts");
    var a, b := Penalty(IsTestPath(path), 0.82), Penalty(examples, 0.88);
    var c, d := Penalty(legacy, 0.78), Penalty(glue, 0.75);
    assert PathPenalty(path) == Scale(Scale(Scale(a, b), c), d);
    assert a > 0.0 && b > 0.0 && c > 0.0 && d > 0.0;
    hide *;
    ScalePositive(a, b);
    ScalePositive(Scale(a, b), c);
    ScalePositive(Scale(Scale(a, b), c), d);
  }

  /** The multipliers of `score_candidate` after the file boost. */
  function ScoreCandidate(query: Query, score: real, chunk: Chunk): real {
    var path := Lower(Normalized(chunk.filePath));
    var defined := if query.symbolQuery && query.definesSymbol(chunk) then Scale(score, 1.35) else score;
    Scale(Scale(defined, KeywordBoost(path, query.terms)), PathPenalty(path))
  }

  lemma ScorePositive(query: Query, score: real, chunk: Chunk)
    requires score > 0.0
    ensures ScoreCandidate(query, score, chunk) > 0.0
  {
    var path := Lower(Normalized(chunk.filePath));
    var defined := if query.symbolQuery && query.definesSymbol(chunk) then Scale(score, 1.35) else score;
    var boost, penalty := KeywordBoost(path, query.terms), PathPenalty(path);
    PenaltyPositive(path);
    assert boost >= 1.0;
    assert ScoreCandidate(query, score, chunk) == Scale(Scale(defined, boost), penalty);
    hide *;
    ScalePositive(score, 1.35);
    ScalePositive(defined, boost);
    ScalePositive(Scale(defined, boost), penalty);
  }

  /** Some component of the path before its last is this directory. */
  predicate Under(path: string, directory: string) {
    var parts := Split(path, '/'); exists i | 0 <= i < |parts| - 1 :: parts[i] == directory
  }

  lemma ContainsAt(s: string, part: string, i: nat)
    requires i <= |s| && part <= s[i..]
    ensures Contains(s, part)
  {
  }

  /** Beginning with a directory or containing it between slashes is having it as a component. */
  lemma {:induction false} InDirectoryIff(path: string, directory: string)
    requires '/' !in directory
    ensures InDirectory(path, directory + "/") <==> Under(path, directory)
    decreases |path|
  {
    if at: nat :| at < |path| && path[at] == '/' && '/' !in path[..at] {
      var head, rest := path[..at], path[at + 1..];
      assert path == head + ("/" + rest) && ("/" + rest)[1..] == rest;
      SplitPrepend(head, "/" + rest, '/');
      assert head + [] == head;
      assert Split(path, '/') == [head] + Split(rest, '/');
      InDirectoryIff(rest, directory);
      UnderCons(head, Split(rest, '/'), directory);
      InDirectoryCons(path, head, rest, directory);
    } else {
      NoSlash(path);
      SplitPrepend(path, "", '/');
      assert path + "" == path && Split(path, '/') == [path];
      NoSlashInside(path, directory + "/");
      NoSlashInside(path, "/" + (directory + "/"));
    }
  }

  lemma {:induction false} NoSlash(path: string)
    requires forall at: nat | at < |path| && path[at] == '/' :: '/' in path[..at]
    ensures '/' !in path
  {
    if i :| 0 <= i < |path| && path[i] == '/' {
      FirstSlash(path, i);
    }
  }

  lemma {:induction false} FirstSlash(path: string, i: nat)
    requires i < |path| && path[i] == '/'
    ensures exists at: nat :: at < |path| && path[at] == '/' && '/' !in path[..at]
  {
    if '/' in path[..i] {
      var j :| 0 <= j < i && path[..i][j] == '/';
      FirstSlash(path, j);
    }
  }

  lemma UnderCons(head: string, parts: seq<string>, directory: string)
    requires parts != []
    ensures (exists i | 0 <= i < |[head] + parts| - 1 :: ([head] + parts)[i] == directory)
       <==> head == directory || exists i | 0 <= i < |parts| - 1 :: parts[i] == directory
  {
    var all := [head] + parts;
    assert all[0] == head && forall i | 0 <= i < |parts| :: all[i + 1] == parts[i];
    if i :| 0 <= i < |all| - 1 && all[i] == directory {
      assert i > 0 ==> parts[i - 1] == directory;
    }
  }

  lemma FirstComponentIff(path: string, head: string, rest: string, directory: string)
    requires path == head + ("/" + rest) && '/' !in head && '/' !in directory
    ensures directory + "/" <= path <==> head == directory
  {
    var slashed, n := directory + "/", |head|;
    assert path[n] == '/' && slashed[|directory|] == '/';
    assert forall i | 0 <= i < n :: path[i] == head[i] && head[i] in head;
    assert forall i | 0 <= i < |directory| :: slashed[i] == directory[i] && directory[i] in directory;
    if slashed <= path {
      assert path[|directory|] == '/' && path[..|directory|] == directory;
      assert |directory| == n;
    }
  }

  /** Where a slash may begin: not inside the first component. */
  lemma SlashPlace(path: string, head: string, rest: string, i: nat)
    requires path == head + ("/" + rest) && '/' !in head && i < |path| && path[i] == '/'
    ensures i >= |head| && path[i..] == if i == |head| then "/" + rest else rest[i - |head| - 1..]
  {
    var n := |head|;
    assert forall k | 0 <= k < n :: path[k] == head[k] && head[k] in head;
    if i == n {
      assert path[n..] == "/" + rest;
    } else {
      assert i > n && path[n + 1..] == rest;
      assert path[i..] == path[n + 1..][i - n - 1..];
    }
  }

  lemma SlashedPrefix(part: string, s: string)
    requires "/" + part <= s
    ensures s != "" && s[0] == '/' && part <= s[1..]
  {
    var slashed := "/" + part;
    assert slashed[0] == '/' && slashed[1..] == part;
    PrefixTail(slashed, s);
  }

  lemma LaterAt(path: string, head: string, rest: string, part: string, i: nat)
    requires path == head + ("/" + rest) && '/' !in head && i <= |path| && "/" + part <= path[i..]
    ensures part <= rest || Contains(rest, "/" + part)
  {
    hide *;
    SlashedPrefix(part, path[i..]);
    SlashPlace(path, head, rest, i);
    if i > |head| {
      ContainsAt(rest, "/" + part, i - |head| - 1);
    } else {
      assert path[i..][1..] == rest;
    }
  }

  lemma LaterComponent(path: string, head: string, rest: string, part: string)
    requires path == head + ("/" + rest) && '/' !in head && Contains(path, "/" + part)
    ensures part <= rest || Contains(rest, "/" + part)
  {
    var i: nat :| i <= |path| && "/" + part <= path[i..];
    hide *;
    LaterAt(path, head, rest, part, i);
  }

  lemma PrefixTail(a: string, b: string)
    requires a <= b && a != []
    ensures a[1..] <= b[1..]
  {
  }

  lemma ContainsLater(path: string, head: string, rest: string, part: string)
    requires path == head + ("/" + rest) && (part <= rest || Contains(rest, "/" + part))
    ensures Contains(path, "/" + part)
  {
    var n := |head|;
    assert path[n..] == "/" + rest;
    if part <= rest {
      assert "/" + part <= "/" + rest;
      ContainsAt(path, "/" + part, n);
    } else {
      var i :| 0 <= i <= |rest| && "/" + part <= rest[i..];
      assert path[n + 1 + i..] == rest[i..];
      ContainsAt(path, "/" + part, n + 1 + i);
    }
  }

  lemma InDirectoryCons(path: string, head: string, rest: string, directory: string)
    requires path == head + ("/" + rest) && '/' !in head && '/' !in directory
    ensures InDirectory(path, directory + "/") <==> head == directory || InDirectory(rest, directory + "/")
  {
    hide Contains;
    FirstComponentIff(path, head, rest, directory);
    if Contains(path, "/" + (directory + "/")) {
      LaterComponent(path, head, rest, directory + "/");
    }
    if InDirectory(rest, directory + "/") {
      ContainsLater(path, head, rest, directory + "/");
    }
  }

  /** A text without slashes contains no text with one. */
  lemma NoSlashInside(path: string, part: string)
    requires '/' !in path && '/' in part
    ensures !(part <= path) && !Contains(path, part)
  {
    PrefixMembers(part, path);
    forall i | 0 <= i <= |path|
      ensures !(part <= path[i..])
    {
      PrefixMembers(part, path[i..]);
      assert forall c | c in path[i..] :: c in path;
    }
  }

  lemma PrefixMembers(part: string, s: string)
    ensures part <= s ==> forall c | c in part :: c in s
  {
  }

  predicate EndsAs(path: string, name: string) {
    |name| <= |path| && path[|path| - |name|..] == name
  }

  /**
   The penalty of a path, spelled out by its directories and its name: tests, examples and docs, legacy and
   compatibility code, and glue files each cost their factor.
   */
  lemma PenaltyIs(path: string)
    ensures PathPenalty(path)
         == (if Under(path, "tests") || Under(path, "test") || Under(path, "spec")
                || Contains(path, "_test.") || Contains(path, "_spec.") then 0.82 else 1.0)
            * (if Under(path, "examples") || Under(path, "docs") then 0.88 else 1.0)
            * (if Under(path, "legacy") || Under(path, "compat") then 0.78 else 1.0)
            * (if EndsAs(path, "__init__.py") || EndsAs(path, "package-info.java") || EndsAs(path, ".d.ts") then 0.75
               else 1.0)
  {
    InDirectoryIff(path, "tests");
    InDirectoryIff(path, "test");
    InDirectoryIff(path, "spec");
    InDirectoryIff(path, "examples");
    InDirectoryIff(path, "docs");
    InDirectoryIff(path, "legacy");
    InDirectoryIff(path, "compat");
    assert "tests" + "/" == "tests/" && "test" + "/" == "test/" && "spec" + "/" == "spec/";
    assert "examples" + "/" == "examples/" && "docs" + "/" == "docs/";
    assert "legacy" + "/" == "legacy/" && "compat" + "/" == "compat/";
    hide Contains, InDirectory, Under, EndsAs, EndsWith, Split, Scale;
    EndsWithIs(path, "__init__.py");
    EndsWithIs(path, "package-info.java");
    EndsWithIs(path, ".d.ts");
    var a := if IsTestPath(path) then 0.82 else 1.0;
    var b := if InDirectory(path, "examples/") || InDirectory(path, "docs/") then 0.88 else 1.0;
    var c := if InDirectory(path, "legacy/") || InDirectory(path, "compat/") then 0.78 else 1.0;
    var glue := EndsWith(path, "__init__.py") || EndsWith(path, "package-info.java") || EndsWith(path, ".d.ts");
    var d := if glue then 0.75 else 1.0;
    assert PathPenalty(path) == Scale(Scale(Scale(a, b), c), d);
    FourFactors(a, b, c, d);
  }

  lemma EndsWithIs(path: string, name: string)
    ensures EndsWith(path, name) <==> EndsAs(path, name)
  {
  }

  lemma FourFactors(a: real, b: real, c: real, d: real)
    ensures Scale(Scale(Scale(a, b), c), d) == a * b * c * d
  {
  }

  lemma SharePositive(weight: real, rank: nat)
    requires weight > 0.0
    ensures Share(weight, rank) > 0.0
  {
    var n := RRF_K + rank as real + 1.0;
    assert n > 0.0 && 1.0 / n > 0.0;
  }

  lemma {:induction false} ContributionSign(ids: seq<nat>, weight: real, id: nat, n: nat)
    requires weight > 0.0 && n <= |ids|
    ensures Contribution(ids, weight, id, n) >= 0.0
    ensures id in ids[..n] ==> Contribution(ids, weight, id, n) > 0.0
  {
    hide Share;
    if n > 0 {
      ContributionSign(ids, weight, id, n - 1);
      SharePositive(weight, n - 1);
      assert ids[..n] == ids[..n - 1] + [ids[n - 1]];
    }
  }

  /** Fused scores are positive, and so is whatever the multipliers make of them. */
  lemma FusedPositive(chunks: seq<Chunk>, semantic: seq<nat>, sparse: seq<nat>, query: Query)
    ensures Positive(Retrieved(chunks, semantic, sparse, query))
  {
    var alpha := ResolveAlpha(query.symbolQuery);
    var r := Retrieved(chunks, semantic, sparse, query);
    forall id | id in r.scores
      ensures r.scores[id] > 0.0
    {
      assert semantic[..|semantic|] == semantic && sparse[..|sparse|] == sparse;
      ContributionSign(semantic, alpha, id, |semantic|);
      ContributionSign(sparse, 1.0 - alpha, id, |sparse|);
    }
    forall score: real, chunk: Chunk | score > 0.0
      ensures r.adjust(score, chunk) > 0.0
    {
      ScorePositive(query, score, chunk);
    }
  }

  /** What the two channels and the query give the reranker. */
  ghost function Retrieved(chunks: seq<Chunk>, semantic: seq<nat>, sparse: seq<nat>, query: Query): Retrieval {
    Retrieval(chunks, Fused(semantic, sparse, ResolveAlpha(query.symbolQuery)),
              (score, chunk) => ScoreCandidate(query, score, chunk))
  }

  /** The path as the multipliers see it. */
  function ScoredPath(chunk: Chunk): string {
    Lower(Normalized(chunk.filePath))
  }

  function DefinitionFactor(query: Query, chunk: Chunk): real {
    if query.symbolQuery && query.definesSymbol(chunk) then 1.35 else 1.0
  }

  /** What a chunk's own content and path contribute. */
  function Worth(query: Query, chunk: Chunk): real {
    var path := ScoredPath(chunk);
    Scale(Scale(DefinitionFactor(query, chunk), KeywordBoost(path, query.terms)), PathPenalty(path))
  }

  lemma ScoreIs(query: Query, score: real, chunk: Chunk)
    ensures ScoreCandidate(query, score, chunk) == Scale(score, Worth(query, chunk))
  {
    var path, d := ScoredPath(chunk), DefinitionFactor(query, chunk);
    var k, p := KeywordBoost(path, query.terms), PathPenalty(path);
    var defined := if query.symbolQuery && query.definesSymbol(chunk) then Scale(score, 1.35) else score;
    assert defined == Scale(score, d);
    hide KeywordBoost, PathPenalty, Lower, Normalized, Scale, DefinitionFactor;
    assert ScoreCandidate(query, score, chunk) == Scale(Scale(defined, k), p);
    Regroup(score, d, k, p);
  }

  lemma Regroup(x: real, d: real, k: real, p: real)
    ensures Scale(Scale(Scale(x, d), k), p) == Scale(x, Scale(Scale(d, k), p))
  {
    Associate(Scale(x, d), k, p);
    Associate(x, d, Scale(k, p));
    Associate(d, k, p);
    hide Scale;
  }

  lemma Associate(x: real, y: real, z: real)
    ensures Scale(Scale(x, y), z) == Scale(x, Scale(y, z))
  {
  }

  lemma ProductSign(u: real, v: real)
    requires u >= 0.0 && v >= 0.0
    ensures u * v >= 0.0
    ensures u > 0.0 && v > 0.0 ==> u * v > 0.0
  {
  }

  lemma ProductOrder(a: real, b: real, x: real, y: real)
    requires a >= b > 0.0 && x >= y > 0.0
    ensures Scale(a, x) >= Scale(b, y) > 0.0
    ensures a > b || x > y ==> Scale(a, x) > Scale(b, y)
  {
    var u, v := a - b, x - y;
    ProductSign(u, x);
    ProductSign(b, v);
    ProductSign(b, y);
    assert a * x == u * x + b * v + b * y;
  }

  lemma KeywordBounds(path: string, terms: seq<string>)
    ensures 1.0 <= KeywordBoost(path, terms) <= 1.25
  {
  }

  /** A definition, a better path and a better keyword match each count, and nothing else about a chunk does. */
  lemma WorthOrder(query: Query, x: Chunk, y: Chunk)
    requires DefinitionFactor(query, x) >= DefinitionFactor(query, y)
    requires KeywordBoost(ScoredPath(x), query.terms) >= KeywordBoost(ScoredPath(y), query.terms)
    requires PathPenalty(ScoredPath(x)) >= PathPenalty(ScoredPath(y))
    ensures Worth(query, x) >= Worth(query, y) > 0.0
    ensures || DefinitionFactor(query, x) > DefinitionFactor(query, y)
            || KeywordBoost(ScoredPath(x), query.terms) > KeywordBoost(ScoredPath(y), query.terms)
            || PathPenalty(ScoredPath(x)) > PathPenalty(ScoredPath(y))
         ==> Worth(query, x) > Worth(query, y)
  {
    var (p, q) := (ScoredPath(x), ScoredPath(y));
    var d, e := DefinitionFactor(query, x), DefinitionFactor(query, y);
    var k, l := KeywordBoost(p, query.terms), KeywordBoost(q, query.terms);
    PenaltyPositive(q);
    KeywordBounds(q, query.terms);
    assert e >= 1.0;
    hide *;
    WorthIs(query, x);
    WorthIs(query, y);
    ProductOrder(d, e, k, l);
    ProductOrder(Scale(d, k), Scale(e, l), PathPenalty(p), PathPenalty(q));
  }

  lemma WorthIs(query: Query, chunk: Chunk)
    ensures var path := ScoredPath(chunk);
            Worth(query, chunk)
            == Scale(Scale(DefinitionFactor(query, chunk), KeywordBoost(path, query.terms)), PathPenalty(path))
  {
    hide KeywordBoost, PathPenalty, ScoredPath, DefinitionFactor;
  }

  /** No path is penalized without one of the marks, and each mark costs at least 12 percent. */
  predicate Marked(path: string) {
    || Under(path, "tests") || Under(path, "test") || Under(path, "spec")
    || Contains(path, "_test.") || Contains(path, "_spec.")
    || Under(path, "examples") || Under(path, "docs") || Under(path, "legacy") || Under(path, "compat")
    || EndsAs(path, "__init__.py") || EndsAs(path, "package-info.java") || EndsAs(path, ".d.ts")
  }

  lemma PenaltyIff(path: string)
    ensures PathPenalty(path) == 1.0 <==> !Marked(path)
    ensures Marked(path) ==> PathPenalty(path) <= 0.88
  {
    PenaltyIs(path);
    hide Under, Contains, EndsAs, PathPenalty;
  }

  /** One more term found in the path raises the boost until five are found. */
  lemma KeywordOrder(path: string, other: string, terms: seq<string>)
    requires TermsFound(path, terms) > TermsFound(other, terms)
    ensures KeywordBoost(path, terms) >= KeywordBoost(other, terms)
    ensures TermsFound(other, terms) < 5 ==> KeywordBoost(path, terms) > KeywordBoost(other, terms)
  {
  }

  /** The score before saturation: the fused score, the file's factor and the chunk's worth. */
  lemma BoostedIs(chunks: seq<Chunk>, semantic: seq<nat>, sparse: seq<nat>, query: Query, c: Context)
    requires c in Retrieved(chunks, semantic, sparse, query).Candidates()
    ensures var r := Retrieved(chunks, semantic, sparse, query);
            && |InFile(r.Candidates(), c.path)| > 0
            && Boosted(r, c) == Scale(FileLifted(c.base, |InFile(r.Candidates(), c.path)| - 1), Worth(query, c.chunk))
  {
    var r := Retrieved(chunks, semantic, sparse, query);
    FinalIs(r, c);
    ScoreIs(query, FileLifted(c.base, |InFile(r.Candidates(), c.path)| - 1), c.chunk);
    hide ScoreCandidate, Worth, FileLifted, Scale, Boosted, Fused;
  }

  lemma FileLiftedOrder(a: real, b: real, m: nat, n: nat)
    requires a >= b > 0.0 && FileFactor(m) >= FileFactor(n)
    ensures FileLifted(a, m) >= FileLifted(b, n) > 0.0
    ensures a > b || FileFactor(m) > FileFactor(n) ==> FileLifted(a, m) > FileLifted(b, n)
  {
    assert FileLifted(a, m) == Scale(a, FileFactor(m)) && FileLifted(b, n) == Scale(b, FileFactor(n));
    assert FileFactor(n) > 0.0;
    hide *;
    ProductOrder(a, b, FileFactor(m), FileFactor(n));
  }

  /** A candidate of one file is compared with another of it, or the best of its file with one of any other. */
  ghost predicate Comparable(r: Retrieval, c: Context, d: Context) {
    c.path == d.path || Ahead(r, c) == {}
  }

  /** How many candidates a file has, as far as they count: up to four. */
  ghost function Crowd(r: Retrieval, c: Context): nat {
    var count := |InFile(r.Candidates(), c.path)|; if count < 4 then count else 4
  }

  /**
   The order of results: a candidate that is at least as good in its fused score, in the number of its file's
   candidates up to four, and in its chunk's worth, and better in one of them, ends with the higher score than
   another of its file; and so does the best of a file against any candidate of any file.
   */
  lemma BetterEndsHigher(chunks: seq<Chunk>, semantic: seq<nat>, sparse: seq<nat>, query: Query, c: Context, d: Context)
    requires var r := Retrieved(chunks, semantic, sparse, query);
             && c in r.Candidates() && d in r.Candidates() && Comparable(r, c, d)
             && c.base >= d.base && Crowd(r, c) >= Crowd(r, d) && Worth(query, c.chunk) >= Worth(query, d.chunk)
             && (c.base > d.base || Crowd(r, c) > Crowd(r, d) || Worth(query, c.chunk) > Worth(query, d.chunk))
    ensures var r := Retrieved(chunks, semantic, sparse, query); Final(r, c).score > Final(r, d).score
  {
    var r := Retrieved(chunks, semantic, sparse, query);
    FusedPositive(chunks, semantic, sparse, query);
    BetterIsBoosted(chunks, semantic, sparse, query, c, d);
    hide Worth, Crowd, Boosted, Positive, Fused;
    if c.path == d.path {
      AheadIff(r, c, d);
      SaturationBreaksTies(r, c, d);
    } else {
      FinalWithin(r, c);
      FinalWithin(r, d);
    }
  }

  lemma BetterIsBoosted(chunks: seq<Chunk>, semantic: seq<nat>, sparse: seq<nat>, query: Query, c: Context, d: Context)
    requires var r := Retrieved(chunks, semantic, sparse, query);
             && c in r.Candidates() && d in r.Candidates()
             && c.base >= d.base && Crowd(r, c) >= Crowd(r, d) && Worth(query, c.chunk) >= Worth(query, d.chunk)
             && (c.base > d.base || Crowd(r, c) > Crowd(r, d) || Worth(query, c.chunk) > Worth(query, d.chunk))
    ensures var r := Retrieved(chunks, semantic, sparse, query); Boosted(r, c) > Boosted(r, d)
  {
    var r := Retrieved(chunks, semantic, sparse, query);
    var m, n := |InFile(r.Candidates(), c.path)|, |InFile(r.Candidates(), d.path)|;
    FusedPositive(chunks, semantic, sparse, query);
    BoostedIs(chunks, semantic, sparse, query, c);
    BoostedIs(chunks, semantic, sparse, query, d);
    WorthPositive(query, d.chunk);
    BasePositive(r, d);
    assert FileFactor(m - 1) >= FileFactor(n - 1);
    assert Crowd(r, c) > Crowd(r, d) ==> FileFactor(m - 1) > FileFactor(n - 1);
    hide *;
    FileLiftedOrder(c.base, d.base, m - 1, n - 1);
    ProductOrder(FileLifted(c.base, m - 1), FileLifted(d.base, n - 1), Worth(query, c.chunk), Worth(query, d.chunk));
  }

  /** Saturation never raises a score, and leaves the best of a file alone. */
  lemma FinalWithin(r: Retrieval, c: Context)
    requires Positive(r) && c in r.Candidates()
    ensures Final(r, c).score <= Boosted(r, c)
    ensures Ahead(r, c) == {} ==> Final(r, c).score == Boosted(r, c)
  {
    BoostedPositive(r, c);
    hide Boosted, Ahead, Positive;
    Quotient(Boosted(r, c), |Ahead(r, c)|);
  }

  lemma Quotient(x: real, n: nat)
    requires x > 0.0
    ensures x / (1.0 + 0.2 * n as real) <= x
  {
    var a := 1.0 + 0.2 * n as real;
    assert a >= 1.0 && x / a * a == x;
    ProductSign(x / a, a - 1.0);
  }

  /**
   Each signal counts, all else equal: defining the symbol that is queried, a path without marks, and, below five,
   one more query term in the path.
   */
  lemma SignalsEndHigher(
    chunks: seq<Chunk>, semantic: seq<nat>, sparse: seq<nat>, query: Query, c: Context, d: Context)
    requires var r := Retrieved(chunks, semantic, sparse, query);
             && c in r.Candidates() && d in r.Candidates() && Comparable(r, c, d)
             && c.base >= d.base && Crowd(r, c) >= Crowd(r, d)
    ensures var r := Retrieved(chunks, semantic, sparse, query);
            var x, y, defines := ScoredPath(c.chunk), ScoredPath(d.chunk), query.definesSymbol;
            && (query.symbolQuery && defines(c.chunk) && !defines(d.chunk) && x == y ==>
                  Final(r, c).score > Final(r, d).score)
            && (defines(c.chunk) == defines(d.chunk) && TermsFound(x, query.terms) == TermsFound(y, query.terms)
                && !Marked(x) && Marked(y) ==>
                  Final(r, c).score > Final(r, d).score)
            && (defines(c.chunk) == defines(d.chunk) && PathPenalty(x) == PathPenalty(y)
                && TermsFound(x, query.terms) > TermsFound(y, query.terms) && TermsFound(y, query.terms) < 5 ==>
                  Final(r, c).score > Final(r, d).score)
  {
    var x, y := ScoredPath(c.chunk), ScoredPath(d.chunk);
    var (defines, k, l) := (query.definesSymbol, TermsFound(x, query.terms), TermsFound(y, query.terms));
    PenaltyIff(x);
    PenaltyIff(y);
    hide Marked, PathPenalty, Worth, ScoredPath, Comparable, Crowd, TermsFound, Fused, Final;
    if || (query.symbolQuery && defines(c.chunk) && !defines(d.chunk) && x == y)
       || (defines(c.chunk) == defines(d.chunk) && k == l && !Marked(x) && Marked(y))
       || (defines(c.chunk) == defines(d.chunk) && PathPenalty(x) == PathPenalty(y) && k > l && l < 5)
    {
      WorthOrder(query, c.chunk, d.chunk);
      BetterEndsHigher(chunks, semantic, sparse, query, c, d);
    }
  }

  lemma WorthPositive(query: Query, chunk: Chunk)
    ensures Worth(query, chunk) > 0.0
  {
    WorthOrder(query, chunk, chunk);
  }

  lemma BasePositive(r: Retrieval, c: Context)
    requires Positive(r) && c in r.Candidates()
    ensures c.base > 0.0
  {
  }

  /** The only candidate of its file keeps its boosted score. */
  lemma OnlyOneFinal(r: Retrieval, c: Context)
    requires c in r.Candidates() && |InFile(r.Candidates(), c.path)| == 1
    ensures Ahead(r, c) == {} && Final(r, c).score == Boosted(r, c)
  {
    assert c in InFile(r.Candidates(), c.path);
    SingletonSet(InFile(r.Candidates(), c.path), c);
    assert Ahead(r, c) == {};
    hide Boosted;
  }

  /**
   Two chunks found at the same rank, each by one channel, alike otherwise: a symbol query puts the one found by
   its words first, any other query scores both the same.
   */
  lemma SymbolQueriesPreferWords(
    chunks: seq<Chunk>, semantic: seq<nat>, sparse: seq<nat>, query: Query, c: Context, d: Context, rank: nat)
    requires Distinct(semantic) && Distinct(sparse) && rank < |semantic| && rank < |sparse|
    requires c.id == semantic[rank] && c.id !in sparse && d.id == sparse[rank] && d.id !in semantic
    requires var r := Retrieved(chunks, semantic, sparse, query);
             && c in r.Candidates() && d in r.Candidates()
             && |InFile(r.Candidates(), c.path)| == 1 && |InFile(r.Candidates(), d.path)| == 1
    requires Worth(query, c.chunk) == Worth(query, d.chunk)
    ensures var r := Retrieved(chunks, semantic, sparse, query);
            if query.symbolQuery then Final(r, d).score > Final(r, c).score
            else Final(r, d).score == Final(r, c).score
  {
    var r := Retrieved(chunks, semantic, sparse, query);
    FusedIsWeighted(semantic, sparse, query.symbolQuery, c.id);
    FusedIsWeighted(semantic, sparse, query.symbolQuery, d.id);
    hide Worth, Fused, Weighted, Boosted;
    if query.symbolQuery {
      WeightedOrder(0.3, 0.7, rank);
      OnlyOneFinal(r, d);
      BetterEndsHigher(chunks, semantic, sparse, query, d, c);
    } else {
      BoostedIs(chunks, semantic, sparse, query, c);
      BoostedIs(chunks, semantic, sparse, query, d);
      OnlyOneFinal(r, c);
      OnlyOneFinal(r, d);
    }
  }

  lemma WeightedOrder(a: real, b: real, rank: nat)
    requires a < b
    ensures Weighted(a, rank) < Weighted(b, rank)
  {
    var n := 61.0 + rank as real;
    assert n > 0.0 && b / n - a / n == (b - a) / n;
  }

  /**
   `rank_search`: both channels over-fetch, their ranks are fused, and the result is the first `topK` of the
   fully sorted final results, for every index, every map order and every selection routine.
   */
  method RankSearch(
    chunks: seq<Chunk>, semanticSearch: nat -> seq<nat>, sparseSearch: nat -> seq<nat>,
    query: Query, topK: nat, select: Select) returns (results: seq<Scored>)
    requires topK <= USIZE_MAX && Selects(select)
    ensures var limit := if topK * 5 <= USIZE_MAX then topK * 5 else USIZE_MAX;
            results == TopResults(Retrieved(chunks, semanticSearch(limit), sparseSearch(limit), query), topK)
  {
    var product := topK * CANDIDATE_MULTIPLIER;
    var saturating := if product <= USIZE_MAX then product else USIZE_MAX;
    var candidateLimit := if saturating < topK then topK else saturating;
    var semantic, sparse := semanticSearch(candidateLimit), sparseSearch(candidateLimit);
    var alpha := ResolveAlpha(query.symbolQuery);
    var scores := AddChannel(map[], semantic, alpha);
    scores := AddChannel(scores, sparse, 1.0 - alpha);
    FusedIs(semantic, sparse, alpha, scores);
    FusedPositive(chunks, semantic, sparse, query);
    hide ScoreCandidate, Fused, Contribution, TopOf, TopResults, InOrder, Positive, Selects;
    var r := Retrieval(chunks, scores, (score, chunk) => ScoreCandidate(query, score, chunk));
    assert r == Retrieved(chunks, semantic, sparse, query);
    results := Rerank(r, topK, select);
    RankedIsTop(r, topK, select);
  }

  lemma FusedIs(semantic: seq<nat>, sparse: seq<nat>, alpha: real, scores: map<nat, real>)
    requires scores.Keys == (set id | id in semantic) + (set id | id in sparse)
    requires forall id | id in scores ::
               scores[id] == (if id in semantic then Contribution(semantic, alpha, id, |semantic|) else 0.0)
                             + Contribution(sparse, 1.0 - alpha, id, |sparse|)
    ensures scores == Fused(semantic, sparse, alpha)
  {
    forall id | id in scores
      ensures scores[id] == Fused(semantic, sparse, alpha)[id]
    {
      if id !in semantic {
        assert semantic[..|semantic|] == semantic;
        AbsentContributesNothing(semantic, alpha, id, |semantic|);
      }
    }
  }
}
