/**
 Search filters (crates/code-search/src/types.rs, lines 183 to 335) for ASCII text: path and language
 normalization, and the check of a chunk against the normalized filters.
 */
module PathFilters {
  import opened Wrappers
  import opened Strings
  import opened Types

  predicate IsAscii(s: string) {
    forall i | 0 <= i < |s| :: s[i] < 128 as char
  }

  function LowerChar(c: char): char {
    if 'A' <= c <= 'Z' then c + 32 as char else c
  }

  function Lower(s: string): string {
    seq(|s|, i requires 0 <= i < |s| => LowerChar(s[i]))
  }

  /** Lowercasing moves the capitals A to Z by 32 and keeps every other character. */
  lemma LowerIs(s: string, i: nat)
    requires i < |s|
    ensures |Lower(s)| == |s|
    ensures Lower(s)[i] as int == s[i] as int + if 65 <= s[i] as int <= 90 then 32 else 0
  {
  }

  function LowerAll(parts: seq<string>): seq<string> {
    seq(|parts|, i requires 0 <= i < |parts| => Lower(parts[i]))
  }

  /** `lowercase_owned` for ASCII text, with its shortcut for text without capitals. */
  function LowercaseOwned(s: string): (r: string)
    ensures r == Lower(s)
  {
    if forall i | 0 <= i < |s| :: !('A' <= s[i] <= 'Z') then
      assert Lower(s) == s;
      s
    else Lower(s)
  }

  function Slashes(s: string): string {
    seq(|s|, i requires 0 <= i < |s| => if s[i] == '\\' then '/' else s[i])
  }

  function TrimSlashesEnd(s: string): string {
    if s != [] && s[|s| - 1] == '/' then TrimSlashesEnd(s[..|s| - 1]) else s
  }

  function TrimSlashesStart(s: string): string {
    if s != [] && s[0] == '/' then TrimSlashesStart(s[1..]) else s
  }

  predicate EndsWithColon(part: string) {
    part != [] && part[|part| - 1] == ':'
  }

  /** A part that names a directory entry: what a following `..` cancels. */
  predicate Ordinary(part: string) {
    part != "" && part != "." && part != ".." && !EndsWithColon(part)
  }

  /** One component of the normalization loop. */
  function Push(parts: seq<string>, component: string): seq<string> {
    if component == "" || component == "." then parts
    else if component == ".." && parts != [] && parts[|parts| - 1] != ".." && !EndsWithColon(parts[|parts| - 1])
    then parts[..|parts| - 1]
    else parts + [component]
  }

  function Reduce(parts: seq<string>, components: seq<string>): seq<string>
    decreases components
  {
    if components == [] then parts else Reduce(Push(parts, components[0]), components[1..])
  }

  /** The components left of a filter path, before lowercasing. */
  function FilterParts(path: string): seq<string> {
    Reduce([], Split(TrimSlashesStart(TrimSlashesEnd(Slashes(path))), '/'))
  }

  /** `normalize_filter_path` as a function. */
  function FilterPath(path: string): Option<string> {
    var normalized := Lower(Join(FilterParts(path), '/'));
    if normalized == "" then None else Some(normalized)
  }

  /** `normalize_filter_path`. */
  method NormalizeFilterPath(path: string) returns (r: Option<string>)
    requires IsAscii(path)
    ensures r == FilterPath(path)
  {
    var text := if '\\' in path then Slashes(path) else path;
    assert text == Slashes(path);
    text := TrimSlashesStart(TrimSlashesEnd(text));
    var components := Split(text, '/');
    var parts: seq<string> := [];
    assert components[0..] == components;
    for i := 0 to |components|
      invariant Reduce(parts, components[i..]) == Reduce([], components)
    {
      var component := components[i];
      assert components[i..][1..] == components[i + 1..];
      if component == "" || component == "." {
      } else if component == ".." {
        if parts != [] && parts[|parts| - 1] != ".." && !EndsWithColon(parts[|parts| - 1]) {
          parts := parts[..|parts| - 1];
        } else {
          parts := parts + [component];
        }
      } else {
        parts := parts + [component];
      }
    }
    var normalized := LowercaseOwned(Join(parts, '/'));
    r := if normalized == "" then None else Some(normalized);
  }

  /** No empty or `.` part, and every `..` stands first or after a `..` or a part ending in a colon. */
  predicate Canonical(parts: seq<string>) {
    && (forall i | 0 <= i < |parts| :: parts[i] != "" && parts[i] != "." && '/' !in parts[i])
    && (forall i | 0 < i < |parts| && parts[i] == ".." :: parts[i - 1] == ".." || EndsWithColon(parts[i - 1]))
  }

  lemma {:induction false} ReduceIsCanonical(parts: seq<string>, components: seq<string>)
    requires Canonical(parts) && forall c | c in components :: '/' !in c
    ensures Canonical(Reduce(parts, components))
    decreases components
  {
    if components != [] {
      assert components[0] in components;
      assert Canonical(Push(parts, components[0]));
      ReduceIsCanonical(Push(parts, components[0]), components[1..]);
    }
  }

  lemma {:induction false} ReduceOfCanonical(parts: seq<string>, components: seq<string>)
    requires Canonical(parts + components)
    ensures Reduce(parts, components) == parts + components
    decreases components
  {
    if components != [] {
      var c := components[0];
      assert (parts + components)[|parts|] == c;
      assert parts != [] ==> (parts + components)[|parts| - 1] == parts[|parts| - 1];
      assert Push(parts, c) == parts + [c];
      assert parts + [c] + components[1..] == parts + components;
      ReduceOfCanonical(parts + [c], components[1..]);
    }
  }

  lemma {:induction false} ReduceAppend(parts: seq<string>, a: seq<string>, b: seq<string>)
    ensures Reduce(parts, a + b) == Reduce(Reduce(parts, a), b)
    decreases a
  {
    if a == [] {
      assert a + b == b;
    } else {
      ReduceAppend(Push(parts, a[0]), a[1..], b);
      assert (a + b)[1..] == a[1..] + b;
    }
  }

  lemma {:induction false} SplitAppendSlash(s: string)
    ensures Split(s + "/", '/') == Split(s, '/') + [""]
  {
    if s == "" {
      assert s + "/" == "/" && "/"[1..] == "";
    } else {
      SplitAppendSlash(s[1..]);
      assert (s + "/")[1..] == s[1..] + "/";
    }
  }

  /** Trimmed slashes only were empty components. */
  lemma {:induction false} TrimEndReduces(s: string)
    ensures Reduce([], Split(TrimSlashesEnd(s), '/')) == Reduce([], Split(s, '/'))
  {
    if s != [] && s[|s| - 1] == '/' {
      var front := s[..|s| - 1];
      assert TrimSlashesEnd(s) == TrimSlashesEnd(front) && front + "/" == s;
      hide *;
      TrimEndReduces(front);
      SplitAppendSlash(front);
      ReduceAppend([], Split(front, '/'), [""]);
      ReduceEmptyPart(Reduce([], Split(front, '/')));
    } else {
      assert TrimSlashesEnd(s) == s;
    }
  }

  lemma ReduceEmptyPart(parts: seq<string>)
    ensures Reduce(parts, [""]) == parts
  {
    assert [""][1..] == [];
  }

  lemma {:induction false} TrimStartReduces(s: string)
    ensures Reduce([], Split(TrimSlashesStart(s), '/')) == Reduce([], Split(s, '/'))
  {
    if s != [] && s[0] == '/' {
      TrimStartReduces(s[1..]);
      assert Split(s, '/') == [""] + Split(s[1..], '/');
      assert ([""] + Split(s[1..], '/'))[1..] == Split(s[1..], '/');
    }
  }

  lemma FilterPartsAre(path: string)
    ensures FilterParts(path) == Reduce([], Split(Slashes(path), '/'))
    ensures Canonical(FilterParts(path))
  {
    TrimEndReduces(Slashes(path));
    TrimStartReduces(TrimSlashesEnd(Slashes(path)));
    ReduceIsCanonical([], Split(Slashes(path), '/'));
  }

  lemma LowerKeepsShape(part: string)
    ensures Lower(part) == "" <==> part == ""
    ensures Lower(part) == "." <==> part == "."
    ensures Lower(part) == ".." <==> part == ".."
    ensures EndsWithColon(Lower(part)) <==> EndsWithColon(part)
    ensures '/' in Lower(part) <==> '/' in part
    ensures Lower(Lower(part)) == Lower(part)
  {
    var low := Lower(part);
    assert |low| == |part|;
    if part == "." || part == ".." {
      assert low == part;
    }
    if low == "." {
      assert part[0] == '.';
    }
    if low == ".." {
      assert low[0] == '.' && low[1] == '.';
      assert part[0] == '.' && part[1] == '.';
    }
    if '/' in part {
      var i :| 0 <= i < |part| && part[i] == '/';
      assert low[i] == '/';
    }
  }

  lemma LowerKeepsCanonical(parts: seq<string>)
    requires Canonical(parts)
    ensures Canonical(LowerAll(parts))
  {
    var lowered := LowerAll(parts);
    forall i | 0 <= i < |parts|
      ensures lowered[i] != "" && lowered[i] != "." && '/' !in lowered[i]
      ensures i > 0 && lowered[i] == ".." ==> lowered[i - 1] == ".." || EndsWithColon(lowered[i - 1])
    {
      LowerKeepsShape(parts[i]);
      if i > 0 {
        LowerKeepsShape(parts[i - 1]);
      }
    }
  }

  lemma LowerAppend(a: string, b: string)
    ensures Lower(a + b) == Lower(a) + Lower(b)
  {
  }

  lemma {:induction false} LowerJoin(parts: seq<string>)
    ensures Lower(Join(parts, '/')) == Join(LowerAll(parts), '/')
  {
    if |parts| > 1 {
      LowerJoin(parts[1..]);
      LowerAppend(parts[0] + "/", Join(parts[1..], '/'));
      LowerAppend(parts[0], "/");
      assert Lower("/") == "/";
      assert LowerAll(parts)[1..] == LowerAll(parts[1..]);
    } else {
      assert |parts| == 1 ==> LowerAll(parts)[0] == Lower(parts[0]);
    }
  }

  lemma {:induction false} JoinShape(parts: seq<string>)
    requires Canonical(parts) && parts != []
    ensures var s := Join(parts, '/'); s != "" && s[0] != '/' && s[|s| - 1] != '/'
    ensures forall c | c in Join(parts, '/') :: c == '/' || exists p | p in parts :: c in p
  {
    assert parts[0] in parts && parts[0][0] in parts[0] && parts[0][|parts[0]| - 1] in parts[0];
    if |parts| > 1 {
      JoinShape(parts[1..]);
      var rest := Join(parts[1..], '/');
      var s := parts[0] + "/" + rest;
      assert s[|s| - 1] == rest[|rest| - 1];
      forall c | c in s
        ensures c == '/' || exists p | p in parts :: c in p
      {
        if c in rest && c != '/' {
          var p :| p in parts[1..] && c in p;
          assert p in parts;
        }
      }
    }
  }

  /** The parts of a normalized filter are its canonical, lowercased components; only no parts give no filter. */
  lemma FilterPathParts(path: string)
    ensures FilterPath(path).None? <==> FilterParts(path) == []
    ensures FilterPath(path).Some? ==>
              && FilterPath(path).value == Join(LowerAll(FilterParts(path)), '/')
              && Split(FilterPath(path).value, '/') == LowerAll(FilterParts(path))
              && Canonical(Split(FilterPath(path).value, '/'))
  {
    var parts := FilterParts(path);
    FilterPartsAre(path);
    LowerJoin(parts);
    LowerKeepsCanonical(parts);
    if parts != [] {
      JoinShape(LowerAll(parts));
      SplitOfJoin(LowerAll(parts), '/');
    }
  }

  lemma LowerOfLowered(s: string)
    requires forall c | c in s :: !('A' <= c <= 'Z')
    ensures Lower(s) == s
  {
    assert forall i | 0 <= i < |s| :: s[i] in s;
  }

  lemma {:induction false} SplitCharacters(s: string, p: string, c: char)
    requires p in Split(s, '/') && c in p
    ensures c in s
  {
    if s != "" {
      var rest := Split(s[1..], '/');
      if s[0] == '/' {
        SplitCharacters(s[1..], p, c);
      } else if p == [s[0]] + rest[0] {
        if c != s[0] {
          SplitCharacters(s[1..], rest[0], c);
        }
      } else {
        SplitCharacters(s[1..], p, c);
      }
    }
  }

  lemma {:induction false} ReduceFromComponents(parts: seq<string>, components: seq<string>, p: string)
    requires p in Reduce(parts, components)
    ensures p in parts || p in components
    decreases components
  {
    if components != [] {
      ReduceFromComponents(Push(parts, components[0]), components[1..], p);
    }
  }

  /** Normal text: no backslash, no capital. */
  lemma FilterCharacters(path: string, c: char)
    requires FilterPath(path).Some? && c in FilterPath(path).value
    ensures c != '\\' && !('A' <= c <= 'Z')
  {
    var parts := FilterParts(path);
    FilterPathParts(path);
    FilterPartsAre(path);
    LowerKeepsCanonical(parts);
    JoinShape(LowerAll(parts));
    hide FilterParts, Canonical, Split, Reduce, Slashes, FilterPath, Join;
    if c != '/' {
      var lowered :| lowered in LowerAll(parts) && c in lowered;
      var i :| 0 <= i < |parts| && LowerAll(parts)[i] == lowered;
      assert parts[i] in parts;
      hide *;
      ReduceFromComponents([], Split(Slashes(path), '/'), parts[i]);
      PartCharacters(Slashes(path), parts[i], c);
      NoBackslash(path);
    }
  }

  lemma NoBackslash(path: string)
    ensures '\\' !in Slashes(path)
  {
  }

  lemma PartCharacters(s: string, part: string, c: char)
    requires part in Split(s, '/') && c in Lower(part) && '\\' !in s
    ensures c != '\\' && !('A' <= c <= 'Z')
  {
    hide Split;
    var k :| 0 <= k < |part| && Lower(part)[k] == c;
    SplitCharacters(s, part, part[k]);
  }

  /** Normalizing a normalized filter changes nothing. */
  lemma FilterPathIdempotent(path: string)
    requires FilterPath(path).Some?
    ensures FilterPath(FilterPath(path).value) == FilterPath(path)
  {
    var n := FilterPath(path).value;
    FilterPathParts(path);
    forall c | c in n
      ensures c != '\\' && !('A' <= c <= 'Z')
    {
      FilterCharacters(path, c);
    }
    assert forall i | 0 <= i < |n| :: n[i] in n;
    assert Slashes(n) == n;
    FilterPartsAre(n);
    assert [] + Split(n, '/') == Split(n, '/');
    ReduceOfCanonical([], Split(n, '/'));
    JoinOfSplit(n, '/');
    LowerOfLowered(n);
  }

  /** Following components from a place, one by one. */
  function Walk<S>(step: (S, string) -> S, from: S, components: seq<string>): S {
    if components == [] then from else Walk(step, step(from, components[0]), components[1..])
  }

  /** How paths are followed: empty and `.` components stay, and `..` undoes an ordinary component. */
  ghost predicate FollowsPaths<S(!new)>(step: (S, string) -> S) {
    && (forall s :: step(s, "") == s && step(s, ".") == s)
    && (forall s, p | Ordinary(p) :: step(step(s, p), "..") == s)
  }

  lemma {:induction false} WalkAppend<S>(step: (S, string) -> S, from: S, a: seq<string>, b: seq<string>)
    ensures Walk(step, from, a + b) == Walk(step, Walk(step, from, a), b)
  {
    if a == [] {
      assert a + b == b;
    } else {
      WalkAppend(step, step(from, a[0]), a[1..], b);
      assert (a + b)[1..] == a[1..] + b;
    }
  }

  lemma PushWalksAlike<S(!new)>(step: (S, string) -> S, from: S, parts: seq<string>, c: string)
    requires FollowsPaths(step) && Canonical(parts)
    ensures Walk(step, from, LowerAll(Push(parts, c))) == step(Walk(step, from, LowerAll(parts)), Lower(c))
  {
    LowerKeepsShape(c);
    if Push(parts, c) == parts + [c] {
      assert LowerAll(parts + [c]) == LowerAll(parts) + [Lower(c)];
      WalkAppend(step, from, LowerAll(parts), [Lower(c)]);
      assert Walk(step, Walk(step, from, LowerAll(parts)), [Lower(c)])
          == step(Walk(step, from, LowerAll(parts)), Lower(c));
    } else if c == ".." {
      var before, last := parts[..|parts| - 1], parts[|parts| - 1];
      LowerKeepsShape(last);
      assert LowerAll(parts) == LowerAll(before) + [Lower(last)];
      WalkAppend(step, from, LowerAll(before), [Lower(last)]);
      assert Ordinary(Lower(last));
    }
  }

  lemma {:induction false} ReduceWalksAlike<S(!new)>(
    step: (S, string) -> S, from: S, parts: seq<string>, components: seq<string>)
    requires FollowsPaths(step) && Canonical(parts) && forall c | c in components :: '/' !in c
    ensures Walk(step, from, LowerAll(Reduce(parts, components)))
         == Walk(step, Walk(step, from, LowerAll(parts)), LowerAll(components))
    decreases components
  {
    if components != [] {
      var c := components[0];
      PushWalksAlike(step, from, parts, c);
      assert c in components;
      ReduceIsCanonical(parts, [c]);
      assert Reduce(parts, [c]) == Reduce(Push(parts, c), [c][1..]) == Push(parts, c);
      ReduceWalksAlike(step, from, Push(parts, c), components[1..]);
      assert LowerAll(components)[1..] == LowerAll(components[1..]);
    }
  }

  /**
   However components are followed, and from every place, a normalized filter leads where its lowercased
   input leads; an input without a filter leads nowhere else.
   */
  lemma FilterLeadsToSamePlace<S(!new)>(step: (S, string) -> S, from: S, path: string)
    requires FollowsPaths(step)
    ensures Walk(step, from, LowerAll(Split(Slashes(path), '/')))
         == Walk(step, from, if FilterPath(path).None? then [] else Split(FilterPath(path).value, '/'))
  {
    FilterPathParts(path);
    FilterPartsAre(path);
    ReduceWalksAlike(step, from, [], Split(Slashes(path), '/'));
    assert LowerAll([]) == [];
  }

  /** Directories below a root; the root is its own parent. */
  function LexicalStep(place: seq<string>, component: string): seq<string> {
    if component == "" || component == "." then place
    else if component == ".." then (if place == [] then [] else place[..|place| - 1])
    else place + [component]
  }

  /** Directories below a drive: a part ending in a colon starts at that drive, whose root is its own parent. */
  function DriveStep(place: seq<string>, component: string): seq<string> {
    if component == "" || component == "." then place
    else if EndsWithColon(component) then [component]
    else if component == ".." then
      if place == [] || (|place| == 1 && EndsWithColon(place[0])) then place else place[..|place| - 1]
    else place + [component]
  }

  /** Both plain and drive-letter resolution follow paths, so normalization keeps where a filter leads in both. */
  lemma ResolutionsFollowPaths()
    ensures FollowsPaths(LexicalStep) && FollowsPaths(DriveStep)
  {
    forall s: seq<string>, p: string | Ordinary(p)
      ensures LexicalStep(LexicalStep(s, p), "..") == s && DriveStep(DriveStep(s, p), "..") == s
    {
      assert (s + [p])[..|s|] == s;
    }
  }

  /** `SearchFilters`. */
  datatype SearchFilters = SearchFilters(paths: seq<string>, languages: seq<string>)

  /** The text a chunk's path is matched by. */
  function PathForMatching(path: Path): string {
    if forall i | 0 <= i < |path| :: path[i] < 128 as char && path[i] != '\\' && !('A' <= path[i] <= 'Z')
    then path else Lower(Slashes(path))
  }

  predicate MatchesFilter(path: string, filter: string) {
    path == filter || (filter <= path && path[|filter|..] != "" && path[|filter|] == '/')
  }

  /** `SearchFilters::allows`. */
  predicate Allows(filters: SearchFilters, chunk: Chunk) {
    if filters.languages != [] && forall l | l in filters.languages :: Lower(l) != Lower(chunk.language) then false
    else filters.paths == [] || exists f | f in filters.paths :: MatchesFilter(PathForMatching(chunk.filePath), f)
  }

  /** Matching text is matching whole components. */
  lemma {:induction false} MatchesFilterIff(path: string, filter: string)
    ensures MatchesFilter(path, filter) <==> Split(filter, '/') <= Split(path, '/')
  {
    if filter == "" {
      if path != "" {
        assert Split(path, '/')[0] == "" <==> path[0] == '/';
      }
    } else if path == "" {
      JoinOfSplit(filter, '/');
      JoinOfSplit(path, '/');
    } else {
      var f, p := Split(filter[1..], '/'), Split(path[1..], '/');
      MatchesFilterIff(path[1..], filter[1..]);
      assert filter == [filter[0]] + filter[1..] && path == [path[0]] + path[1..];
      if filter[0] == path[0] {
        assert filter <= path <==> filter[1..] <= path[1..];
        assert filter <= path ==> path[|filter|..] == path[1..][|filter[1..]|..];
        if filter[0] == '/' {
          ConsPrefixIff([], [], f, p);
        } else {
          HeadPrefixIff(filter[0], f, p);
        }
      } else {
        HeadsDiffer(filter, path);
      }
    }
  }

  lemma ConsPrefixIff<T>(a: T, b: T, f: seq<T>, p: seq<T>)
    ensures [a] + f <= [b] + p <==> a == b && f <= p
  {
    assert ([a] + f)[1..] == f && ([b] + p)[1..] == p;
    assert f <= p && a == b ==> forall i | 0 <= i < |[a] + f| :: ([a] + f)[i] == ([b] + p)[i];
    if [a] + f <= [b] + p {
      assert a == ([a] + f)[0] == ([b] + p)[0] == b;
      assert forall i | 0 <= i < |f| :: f[i] == ([a] + f)[i + 1] == ([b] + p)[i + 1] == p[i];
    }
  }

  lemma HeadPrefixIff(c: char, f: seq<string>, p: seq<string>)
    requires f != [] && p != []
    ensures f <= p <==> [[c] + f[0]] + f[1..] <= [[c] + p[0]] + p[1..]
  {
    assert ([c] + f[0])[1..] == f[0] && ([c] + p[0])[1..] == p[0];
    assert f == [f[0]] + f[1..] && p == [p[0]] + p[1..];
    ConsPrefixIff(f[0], p[0], f[1..], p[1..]);
    ConsPrefixIff([c] + f[0], [c] + p[0], f[1..], p[1..]);
  }

  lemma HeadsDiffer(filter: string, path: string)
    requires filter != "" && path != "" && filter[0] != path[0]
    ensures !(Split(filter, '/') <= Split(path, '/')) && !MatchesFilter(path, filter)
  {
    var f, p := Split(filter, '/'), Split(path, '/');
    assert f[0] == "" <==> filter[0] == '/';
    assert p[0] == "" <==> path[0] == '/';
    assert filter[0] != '/' ==> f[0][0] == filter[0];
    assert path[0] != '/' ==> p[0][0] == path[0];
  }

  /** The lowercased components of a chunk's path. */
  function ChunkComponents(path: Path): seq<string> {
    Split(Lower(Slashes(path)), '/')
  }

  /** The path side of `allows`: some filter's components begin the chunk path's lowercased components. */
  lemma AllowsIff(filters: SearchFilters, chunk: Chunk)
    ensures Allows(filters, chunk) <==>
              && (filters.languages == [] || exists l | l in filters.languages :: Lower(l) == Lower(chunk.language))
              && (filters.paths == []
                  || exists f | f in filters.paths :: Split(f, '/') <= ChunkComponents(chunk.filePath))
  {
    var path := chunk.filePath;
    if PathForMatching(path) == path {
      assert Slashes(path) == path || PathForMatching(path) == Lower(Slashes(path));
      assert Lower(path) == path || PathForMatching(path) == Lower(Slashes(path));
    }
    assert PathForMatching(path) == Lower(Slashes(path));
    forall f | f in filters.paths
      ensures MatchesFilter(PathForMatching(path), f) <==> Split(f, '/') <= ChunkComponents(path)
    {
      MatchesFilterIff(PathForMatching(path), f);
    }
  }

  /** `normalize_filter_language`, for the library's trimming. */
  function FilterLanguage(trim: string -> string, language: string): Option<string> {
    var normalized := LowercaseOwned(trim(language));
    if normalized == "" then None else Some(normalized)
  }

  /** The filters kept are exactly the normal forms of the inputs that have one. */
  ghost predicate NormalizedFrom(
    filters: SearchFilters, trim: string -> string, paths: seq<string>, languages: seq<string>)
  {
    && (forall f :: f in filters.paths <==> exists p | p in paths :: FilterPath(p) == Some(f))
    && (forall l :: l in filters.languages <==> exists s | s in languages :: FilterLanguage(trim, s) == Some(l))
  }

  /** `SearchFilters::normalized`. */
  method NormalizedFilters(trim: string -> string, paths: seq<string>, languages: seq<string>)
    returns (filters: SearchFilters)
    requires forall p | p in paths :: IsAscii(p)
    ensures NormalizedFrom(filters, trim, paths, languages)
  {
    hide FilterPath, FilterLanguage;
    var normalizedPaths, normalizedLanguages := [], [];
    for i := 0 to |paths|
      invariant forall f :: f in normalizedPaths <==> exists k | 0 <= k < i :: FilterPath(paths[k]) == Some(f)
    {
      var normalized := NormalizeFilterPath(paths[i]);
      if normalized.Some? {
        normalizedPaths := normalizedPaths + [normalized.value];
      }
    }
    for i := 0 to |languages|
      invariant forall l :: l in normalizedLanguages
                       <==> exists k | 0 <= k < i :: FilterLanguage(trim, languages[k]) == Some(l)
    {
      var normalized := FilterLanguage(trim, languages[i]);
      if normalized.Some? {
        normalizedLanguages := normalizedLanguages + [normalized.value];
      }
    }
    filters := SearchFilters(normalizedPaths, normalizedLanguages);
    ByMembers(paths, normalizedPaths, FilterPath);
    ByMembers(languages, normalizedLanguages, s => FilterLanguage(trim, s));
  }

  /** Indexed inputs are the members. */
  lemma ByMembers(inputs: seq<string>, kept: seq<string>, normal: string -> Option<string>)
    requires forall f :: f in kept <==> exists k | 0 <= k < |inputs| :: normal(inputs[k]) == Some(f)
    ensures forall f :: f in kept <==> exists p | p in inputs :: normal(p) == Some(f)
  {
    forall f
      ensures f in kept <==> exists p | p in inputs :: normal(p) == Some(f)
    {
      if p :| p in inputs && normal(p) == Some(f) {
        var k :| 0 <= k < |inputs| && inputs[k] == p;
      }
    }
  }

  /** The path input `p` admits a chunk path: it reduces to components that begin the path's. */
  predicate PathAdmits(p: string, path: Path) {
    FilterParts(p) != [] && LowerAll(FilterParts(p)) <= ChunkComponents(path)
  }

  predicate LanguageAdmits(trim: string -> string, s: string, language: string) {
    Lower(trim(s)) != "" && Lower(trim(s)) == Lower(language)
  }

  /**
   End to end: normalized filters admit exactly the chunks that, unless every language input is blank, have the
   language of one of them, and that, unless every path input reduces to nothing, lie below one of them.
   */
  lemma FilterMeaning(
    filters: SearchFilters, trim: string -> string, paths: seq<string>, languages: seq<string>, chunk: Chunk)
    requires NormalizedFrom(filters, trim, paths, languages)
    ensures Allows(filters, chunk) <==>
              && ((forall s | s in languages :: Lower(trim(s)) == "")
                  || exists s | s in languages :: LanguageAdmits(trim, s, chunk.language))
              && ((forall p | p in paths :: FilterParts(p) == [])
                  || exists p | p in paths :: PathAdmits(p, chunk.filePath))
  {
    AllowsIff(filters, chunk);
    LanguageSide(filters, trim, paths, languages, chunk.language);
    PathSide(filters, trim, paths, languages, chunk.filePath);
  }

  lemma LanguageSide(
    filters: SearchFilters, trim: string -> string, paths: seq<string>, languages: seq<string>, language: string)
    requires NormalizedFrom(filters, trim, paths, languages)
    ensures filters.languages == [] <==> forall s | s in languages :: Lower(trim(s)) == ""
    ensures (exists l | l in filters.languages :: Lower(l) == Lower(language))
       <==> exists s | s in languages :: LanguageAdmits(trim, s, language)
  {
    hide FilterPath, Lower;
    forall s | s in languages
      ensures FilterLanguage(trim, s) == if Lower(trim(s)) == "" then None else Some(Lower(trim(s)))
      ensures Lower(Lower(trim(s))) == Lower(trim(s))
    {
      LowerKeepsShape(trim(s));
    }
    if filters.languages != [] {
      assert filters.languages[0] in filters.languages;
    }
    if l :| l in filters.languages && Lower(l) == Lower(language) {
      var s :| s in languages && FilterLanguage(trim, s) == Some(l);
      assert LanguageAdmits(trim, s, language);
    }
    if s :| s in languages && LanguageAdmits(trim, s, language) {
      assert Lower(trim(s)) in filters.languages;
    }
  }

  lemma PathSide(
    filters: SearchFilters, trim: string -> string, paths: seq<string>, languages: seq<string>, path: Path)
    requires NormalizedFrom(filters, trim, paths, languages)
    ensures filters.paths == [] <==> forall p | p in paths :: FilterParts(p) == []
    ensures (exists f | f in filters.paths :: Split(f, '/') <= ChunkComponents(path))
       <==> exists p | p in paths :: PathAdmits(p, path)
  {
    hide FilterPath, FilterParts, Canonical, FilterLanguage, Split, Join, Lower, LowerAll;
    forall p | p in paths
      ensures FilterPath(p).None? <==> FilterParts(p) == []
      ensures FilterPath(p).Some? ==> Split(FilterPath(p).value, '/') == LowerAll(FilterParts(p))
    {
      FilterPathParts(p);
    }
    if filters.paths != [] {
      assert filters.paths[0] in filters.paths;
    }
    if f :| f in filters.paths && Split(f, '/') <= ChunkComponents(path) {
      var p :| p in paths && FilterPath(p) == Some(f);
      assert PathAdmits(p, path);
    }
    if p :| p in paths && PathAdmits(p, path) {
      assert FilterPath(p).value in filters.paths;
    }
  }
}
