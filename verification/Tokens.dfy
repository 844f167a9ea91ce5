/**
 Identifier tokens (crates/code-search/src/tokens.rs): splitting text into lowercase identifiers and their
 camel-case and underscore segments, and the path words added to a document.
 */
module Tokens {
  import opened Wrappers
  import opened Orders
  import opened Strings
  import opened Types
  import opened PathFilters

  predicate IsUpper(c: char) {
    'A' <= c <= 'Z'
  }

  predicate IsLower(c: char) {
    'a' <= c <= 'z'
  }

  predicate IsWordChar(c: char) {
    IsUpper(c) || IsLower(c) || '0' <= c <= '9' || c == '_'
  }

  /** The text with every separator made a space: splitting at separators is splitting this at spaces. */
  function Blank(s: string): string {
    seq(|s|, i requires 0 <= i < |s| => if IsWordChar(s[i]) then s[i] else ' ')
  }

  /** The raw identifiers, among empty pieces. */
  function Raws(input: string): seq<string> {
    Split(Blank(input), ' ')
  }

  /** A letter, digit or underscore. */
  predicate InWord(c: char) {
    'A' <= c <= 'Z' || 'a' <= c <= 'z' || '0' <= c <= '9' || c == '_'
  }

  /** From `i` to `j` there is an identifier: word characters only, and none on either side. */
  predicate WordAt(s: string, i: nat, j: nat) {
    && i < j <= |s| && (forall k | i <= k < j :: InWord(s[k]))
    && (i == 0 || !InWord(s[i - 1])) && (j == |s| || !InWord(s[j]))
  }

  ghost predicate HasWord(s: string, w: string) {
    exists i: nat, j: nat :: WordAt(s, i, j) && s[i..j] == w
  }

  lemma WordIsPart(s: string, i: nat, j: nat)
    requires i < j
    ensures WordAt(s, i, j) <==> PartAt(Blank(s), ' ', i, j)
    ensures WordAt(s, i, j) ==> Blank(s)[i..j] == s[i..j]
  {
    assert forall k | 0 <= k < |s| :: Blank(s)[k] == (if InWord(s[k]) then s[k] else ' ');
    hide Blank;
  }

  /** The identifiers are exactly the longest stretches of word characters. */
  lemma RawsAreWords(s: string, w: string)
    requires w != ""
    ensures w in Raws(s) <==> HasWord(s, w)
  {
    SplitParts(Blank(s), ' ', w);
    if HasWord(s, w) {
      var i: nat, j: nat :| WordAt(s, i, j) && s[i..j] == w;
      WordIsPart(s, i, j);
      hide Blank, Raws, WordAt, PartAt;
      PartIs(Blank(s), ' ', i, j);
    }
    if HasPart(Blank(s), ' ', w) {
      var i, j := PartOf(Blank(s), ' ', w);
      WordIsPart(s, i, j);
      hide Blank, Raws, PartAt;
    }
  }

  /** A segment ends before position `k`: a capital after a lowercase letter, or the last of several capitals. */
  predicate Boundary(part: string, k: nat)
    requires 0 < k < |part|
  {
    && IsUpper(part[k])
    && (IsLower(part[k - 1]) || (IsUpper(part[k - 1]) && k + 1 < |part| && IsLower(part[k + 1])))
  }

  /** The first boundary at or after `k`, or the end. */
  function NextBoundary(part: string, k: nat): (b: nat)
    requires 0 < k <= |part|
    ensures k <= b <= |part|
    ensures b < |part| ==> Boundary(part, b)
    ensures forall i | k <= i < b :: !Boundary(part, i)
    decreases |part| - k
  {
    if k == |part| || Boundary(part, k) then k else NextBoundary(part, k + 1)
  }

  /** The segments of a part. */
  function Segments(part: string): seq<string>
    decreases |part|
  {
    if part == "" then []
    else
      var b := NextBoundary(part, 1);
      [part[..b]] + Segments(part[b..])
  }

  /** The segments of a part concatenate back to it, and none is empty. */
  lemma {:induction false} SegmentsRejoin(part: string)
    ensures Concat(Segments(part)) == part
    ensures forall s | s in Segments(part) :: s != ""
    decreases |part|
  {
    if part != "" {
      var b := NextBoundary(part, 1);
      SegmentsRejoin(part[b..]);
      assert Segments(part)[1..] == Segments(part[b..]);
      assert part[..b] + part[b..] == part;
    }
  }

  lemma BoundaryShifts(part: string, start: nat, k: nat)
    requires start < k < |part|
    ensures Boundary(part[start..], k - start) <==> Boundary(part, k)
  {
    assert part[start..][k - start] == part[k] && part[start..][k - start - 1] == part[k - 1];
    assert k + 1 < |part| ==> part[start..][k - start + 1] == part[k + 1];
  }

  /** What one part adds: its segments, except that an undivided part equal to its identifier adds nothing. */
  function PartTokens(part: string, skipSingle: bool): seq<string> {
    if skipSingle && |Segments(part)| == 1 then [] else LowerAll(Segments(part))
  }

  function PartsTokens(parts: seq<string>, skipSingle: bool): seq<string> {
    if parts == [] then []
    else
      var last := parts[|parts| - 1];
      PartsTokens(parts[..|parts| - 1], skipSingle) + if last == "" then [] else PartTokens(last, skipSingle)
  }

  function RawTokens(raw: string): seq<string> {
    [Lower(raw)] + PartsTokens(Split(raw, '_'), '_' !in raw)
  }

  function RawsTokens(raws: seq<string>): seq<string> {
    if raws == [] then []
    else
      var last := raws[|raws| - 1];
      RawsTokens(raws[..|raws| - 1]) + if last == "" then [] else RawTokens(last)
  }

  /** `push_lowercase_token`. */
  function PushLowercaseToken(tokens: seq<string>, token: string): seq<string> {
    tokens + [LowercaseOwned(token)]
  }

  /** The segments found so far, and what is left from `start` on. */
  ghost predicate Scanned(part: string, tokens: seq<string>, found: seq<string>, start: nat, k: nat) {
    && start < k <= |part|
    && tokens + LowerAll(Segments(part[start..])) == found
    && forall i | start < i < k :: !Boundary(part, i)
  }

  lemma ScanBoundary(part: string, tokens: seq<string>, found: seq<string>, start: nat, k: nat)
    requires Scanned(part, tokens, found, start, k) && k < |part| && Boundary(part, k)
    ensures Scanned(part, PushLowercaseToken(tokens, part[start..k]), found, k, k + 1)
  {
    var rest := part[start..];
    SegmentsAt(part, start, k);
    assert LowerAll([part[start..k]] + Segments(part[k..])) == [Lower(part[start..k])] + LowerAll(Segments(part[k..]));
    Reassociate(tokens, [Lower(part[start..k])], LowerAll(Segments(part[k..])));
  }

  lemma SegmentsAt(part: string, start: nat, k: nat)
    requires start < k <= |part| && (k < |part| ==> Boundary(part, k))
    requires forall i | start < i < k :: !Boundary(part, i)
    ensures Segments(part[start..]) == [part[start..k]] + Segments(part[k..])
  {
    var rest := part[start..];
    var b := NextBoundary(rest, 1);
    if b < k - start {
      BoundaryShifts(part, start, start + b);
    }
    if k < |part| {
      BoundaryShifts(part, start, k);
    }
    assert b == k - start;
    assert rest[..k - start] == part[start..k] && rest[k - start..] == part[k..];
  }

  /** The inner loop: one part, character by character. */
  method PushSegments(tokens: seq<string>, part: string, skipSingle: bool) returns (all: seq<string>)
    requires part != ""
    ensures all == tokens + PartTokens(part, skipSingle)
  {
    all := tokens;
    var start, k, sawBoundary := 0, 1, false;
    ghost var found := tokens + LowerAll(Segments(part));
    assert part[0..] == part;
    while k < |part|
      invariant Scanned(part, all, found, start, k)
      invariant if sawBoundary then start > 0 && Boundary(part, start) else start == 0 && all == tokens
      decreases |part| - k
    {
      var nextIsLower := k + 1 < |part| && IsLower(part[k + 1]);
      var boundary := (IsUpper(part[k]) && IsLower(part[k - 1]))
                      || (IsUpper(part[k]) && IsUpper(part[k - 1]) && nextIsLower);
      assert boundary <==> Boundary(part, k);
      if boundary {
        ScanBoundary(part, all, found, start, k);
        all := PushLowercaseToken(all, part[start..k]);
        start := k;
        sawBoundary := true;
      }
      k := k + 1;
    }
    SegmentsAt(part, start, |part|);
    LastSegment(part, start);
    SawBoundaryIff(part, start);
    if sawBoundary || !skipSingle {
      all := PushLowercaseToken(all, part[start..]);
    }
  }

  lemma LastSegment(part: string, start: nat)
    requires start < |part| && Segments(part[start..]) == [part[start..|part|]] + Segments(part[|part|..])
    ensures LowerAll(Segments(part[start..])) == [Lower(part[start..])]
  {
    assert part[|part|..] == "" && part[start..|part|] == part[start..];
    assert Segments("") == [];
  }

  /** A part is one segment exactly when no boundary lies inside it. */
  lemma SawBoundaryIff(part: string, start: nat)
    requires start < |part| && (start > 0 ==> Boundary(part, start))
    requires forall i | start < i < |part| :: !Boundary(part, i)
    ensures |Segments(part)| == 1 <==> start == 0
  {
    var b := NextBoundary(part, 1);
    if start > 0 {
      assert b <= start && part[b..] != "";
      assert |Segments(part[b..])| >= 1;
    } else {
      assert part[0..] == part;
      assert b == |part| && part[b..] == "";
    }
  }

  lemma PartsStep(first: seq<string>, parts: seq<string>, i: nat, skipSingle: bool)
    requires i < |parts|
    ensures first + PartsTokens(parts[..i + 1], skipSingle)
         == if parts[i] == "" then first + PartsTokens(parts[..i], skipSingle)
            else (first + PartsTokens(parts[..i], skipSingle)) + PartTokens(parts[i], skipSingle)
  {
    assert parts[..i + 1][..i] == parts[..i];
    var before, more := PartsTokens(parts[..i], skipSingle), PartTokens(parts[i], skipSingle);
    assert PartsTokens(parts[..i + 1], skipSingle) == before + if parts[i] == "" then [] else more;
    hide *;
    Reassociate(first, before, more);
    assert before + [] == before;
  }

  lemma RawTokensAre(tokens: seq<string>, raw: string, skipSingle: bool)
    requires skipSingle == ('_' !in raw)
    ensures PushLowercaseToken(tokens, raw) + PartsTokens([], skipSingle) == PushLowercaseToken(tokens, raw)
    ensures tokens + RawTokens(raw) == PushLowercaseToken(tokens, raw) + PartsTokens(Split(raw, '_'), skipSingle)
  {
    Reassociate(tokens, [Lower(raw)], PartsTokens(Split(raw, '_'), skipSingle));
    hide Split, Lower;
  }

  method PushRaw(tokens: seq<string>, raw: string) returns (all: seq<string>)
    ensures all == tokens + RawTokens(raw)
  {
    hide *;
    all := PushLowercaseToken(tokens, raw);
    var skipSingle := '_' !in raw;
    var parts := Split(raw, '_');
    ghost var first := all;
    RawTokensAre(tokens, raw, skipSingle);
    assert parts[..0] == [] && parts[..|parts|] == parts;
    for i := 0 to |parts|
      invariant all == first + PartsTokens(parts[..i], skipSingle)
    {
      PartsStep(first, parts, i, skipSingle);
      if parts[i] != "" {
        all := PushSegments(all, parts[i], skipSingle);
      }
    }
  }

  predicate TextLe(a: string, b: string) {
    CompareText(a, b) != Greater
  }

  lemma TextLeIsOrder()
    ensures TotalPreorder(TextLe)
    ensures forall a, b | TextLe(a, b) && TextLe(b, a) :: a == b
  {
    TextTotalOrder();
    hide CompareText;
    forall a, b
      ensures TextLe(a, b) || TextLe(b, a)
      ensures TextLe(a, b) && TextLe(b, a) ==> a == b
    {
      assert CompareText(a, b) == CompareText(b, a).Reverse();
    }
    forall a, b, c | TextLe(a, b) && TextLe(b, c)
      ensures TextLe(a, c)
    {
      assert CompareText(a, b) == Equal <==> a == b;
      assert CompareText(b, c) == Equal <==> b == c;
    }
  }

  lemma TextOrder(a: string, b: string, c: string)
    ensures TextLe(a, b) && a != b && (b == c || CompareText(b, c) == Less) ==> CompareText(a, c) == Less
  {
    TextTotalOrder();
    hide CompareText;
    assert CompareText(a, b) == Equal <==> a == b;
  }

  /** `Vec::dedup`: of equal neighbours one stays. */
  function Dedup(s: seq<string>): seq<string> {
    if |s| < 2 then s
    else if s[0] == s[1] then Dedup(s[1..])
    else [s[0]] + Dedup(s[1..])
  }

  ghost predicate Increasing(s: seq<string>) {
    forall i, j | 0 <= i < j < |s| :: CompareText(s[i], s[j]) == Less
  }

  lemma {:induction false} DedupOfSorted(s: seq<string>)
    requires Sorted(TextLe, s)
    ensures Increasing(Dedup(s)) && forall x :: x in Dedup(s) <==> x in s
    ensures s != [] ==> Dedup(s) != [] && Dedup(s)[0] == s[0]
  {
    if |s| >= 2 {
      var rest := Dedup(s[1..]);
      DedupOfSorted(s[1..]);
      assert s == [s[0]] + s[1..];
      if s[0] != s[1] {
        forall j | 0 <= j < |rest|
          ensures CompareText(s[0], rest[j]) == Less
        {
          TextOrder(s[0], s[1], rest[j]);
          assert j > 0 ==> CompareText(rest[0], rest[j]) == Less;
        }
      }
    }
  }

  /** A token of the text: an identifier or one of its segments, in lowercase. */
  ghost predicate IsToken(input: string, t: string) {
    exists raw | raw in Raws(input) && raw != "" :: TokenOf(raw, t)
  }

  ghost predicate TokenOf(raw: string, t: string) {
    t == Lower(raw) || exists part | part in Split(raw, '_') && part != "" :: SegmentOf(part, t)
  }

  ghost predicate SegmentOf(part: string, t: string) {
    exists segment | segment in Segments(part) :: t == Lower(segment)
  }

  lemma InLowerAll(parts: seq<string>, t: string)
    ensures t in LowerAll(parts) <==> exists p | p in parts :: t == Lower(p)
  {
    if p :| p in parts && t == Lower(p) {
      var i :| 0 <= i < |parts| && parts[i] == p;
      assert LowerAll(parts)[i] == t;
    }
    if t in LowerAll(parts) {
      var i :| 0 <= i < |parts| && LowerAll(parts)[i] == t;
      assert parts[i] in parts;
    }
  }

  lemma AppendMembers(front: seq<string>, last: string)
    ensures forall x :: x in front + [last] <==> x in front || x == last
  {
  }

  lemma {:induction false} PartsTokensMembers(parts: seq<string>, skipSingle: bool, t: string)
    ensures t in PartsTokens(parts, skipSingle)
       <==> exists part | part in parts && part != "" :: t in PartTokens(part, skipSingle)
  {
    hide PartTokens;
    if parts != [] {
      var front, last := parts[..|parts| - 1], parts[|parts| - 1];
      PartsTokensMembers(front, skipSingle, t);
      assert t in PartsTokens(parts, skipSingle)
        <==> t in PartsTokens(front, skipSingle) || (last != "" && t in PartTokens(last, skipSingle));
      hide *;
      AppendMembers(front, last);
      assert parts == front + [last];
    }
  }

  /** Skipping an undivided part never loses a token: the identifier itself already is that token. */
  lemma RawTokensMembers(raw: string, t: string)
    requires raw != ""
    ensures t in RawTokens(raw) <==> TokenOf(raw, t)
  {
    var parts, skipSingle := Split(raw, '_'), '_' !in raw;
    PartsTokensMembers(parts, skipSingle, t);
    forall part | part in parts && part != ""
      ensures t in LowerAll(Segments(part)) <==> SegmentOf(part, t)
      ensures t in PartTokens(part, skipSingle) ==> SegmentOf(part, t)
      ensures SegmentOf(part, t) ==> t in PartTokens(part, skipSingle) || t == Lower(raw)
    {
      InLowerAll(Segments(part), t);
      if skipSingle && |Segments(part)| == 1 {
        SplitPrepend(raw, "", '_');
        assert raw + "" == raw && parts == [raw];
        SegmentsRejoin(raw);
        assert Concat(Segments(raw)[1..]) == [];
      }
    }
  }

  lemma {:induction false} RawsTokensMembers(raws: seq<string>, t: string)
    ensures t in RawsTokens(raws) <==> exists raw | raw in raws && raw != "" :: t in RawTokens(raw)
  {
    hide RawTokens;
    if raws != [] {
      var front, last := raws[..|raws| - 1], raws[|raws| - 1];
      RawsTokensMembers(front, t);
      assert t in RawsTokens(raws) <==> t in RawsTokens(front) || (last != "" && t in RawTokens(last));
      hide *;
      AppendMembers(front, last);
      assert raws == front + [last];
    }
  }

  lemma TokensMembers(input: string)
    ensures forall t :: t in RawsTokens(Raws(input)) <==> IsToken(input, t)
  {
    forall t
      ensures t in RawsTokens(Raws(input)) <==> IsToken(input, t)
    {
      RawsTokensMembers(Raws(input), t);
      forall raw | raw in Raws(input) && raw != ""
        ensures t in RawTokens(raw) <==> TokenOf(raw, t)
      {
        RawTokensMembers(raw, t);
      }
    }
  }

  method PushRaws(input: string) returns (tokens: seq<string>)
    ensures tokens == RawsTokens(Raws(input))
  {
    tokens := [];
    var raws := Raws(input);
    for i := 0 to |raws|
      invariant tokens == RawsTokens(raws[..i])
    {
      assert raws[..i + 1][..i] == raws[..i];
      if raws[i] != "" {
        tokens := PushRaw(tokens, raws[i]);
      }
    }
    assert raws[..|raws|] == raws;
  }

  /** `split_identifier_tokens`: exactly the tokens of the text, in strictly increasing order. */
  method SplitIdentifierTokens(input: string) returns (tokens: seq<string>)
    ensures Increasing(tokens)
    ensures forall t :: t in tokens <==> IsToken(input, t)
  {
    tokens := PushRaws(input);
    TokensMembers(input);
    hide RawsTokens, Raws, IsToken, Dedup, TextLe;
    SortByContents(TextLe, tokens);
    TextLeIsOrder();
    SortByCorrect(TextLe, tokens);
    tokens := SortBy(TextLe, tokens);
    DedupOfSorted(tokens);
    tokens := Dedup(tokens);
  }

  /** A word of two or more lowercase letters. */
  predicate IsWord(w: string) {
    |w| >= 2 && forall i | 0 <= i < |w| :: IsLower(w[i])
  }

  predicate AreWords(words: seq<string>) {
    words != [] && forall i | 0 <= i < |words| :: IsWord(words[i])
  }

  function Capitalize(w: string): string {
    if w != "" && IsLower(w[0]) then [w[0] - 32 as char] + w[1..] else w
  }

  function Capitalized(words: seq<string>): seq<string> {
    seq(|words|, i requires 0 <= i < |words| => Capitalize(words[i]))
  }

  lemma WordIsLower(w: string)
    requires IsWord(w)
    ensures Lower(w) == w && Lower(Capitalize(w)) == w
  {
  }

  /** A lowercase-ended first segment before a capital, or before the end, is cut off whole. */
  lemma FirstSegment(x: string, rest: string)
    requires |x| >= 2 && forall i | 1 <= i < |x| :: IsLower(x[i])
    requires rest != "" ==> IsUpper(rest[0])
    ensures Segments(x + rest) == [x] + Segments(rest)
  {
    var part := x + rest;
    forall i | 1 <= i < |x|
      ensures !Boundary(part, i)
    {
      assert part[i] == x[i];
    }
    if rest != "" {
      assert part[|x|] == rest[0] && part[|x| - 1] == x[|x| - 1];
      assert Boundary(part, |x|);
    }
    assert NextBoundary(part, 1) == |x|;
    assert part[..|x|] == x && part[|x|..] == rest;
  }

  lemma {:induction false} CapitalSegments(words: seq<string>)
    requires forall i | 0 <= i < |words| :: IsWord(words[i])
    ensures Segments(Concat(Capitalized(words))) == Capitalized(words)
    ensures words != [] ==> Concat(Capitalized(words)) != "" && IsUpper(Concat(Capitalized(words))[0])
    ensures forall c | c in Concat(Capitalized(words)) :: IsUpper(c) || IsLower(c)
  {
    if words != [] {
      var x, rest := Capitalize(words[0]), Concat(Capitalized(words[1..]));
      CapitalSegments(words[1..]);
      assert IsWord(words[0]);
      CapitalizedWord(words[0]);
      hide Segments, IsWord, Capitalize, Capitalized;
      CapitalizedStep(words);
      FirstSegment(x, rest);
    }
  }

  lemma CapitalizedStep(words: seq<string>)
    requires words != []
    ensures Capitalized(words) == [Capitalize(words[0])] + Capitalized(words[1..])
    ensures Concat(Capitalized(words)) == Capitalize(words[0]) + Concat(Capitalized(words[1..]))
  {
    assert Capitalized(words)[1..] == Capitalized(words[1..]);
  }

  lemma CapitalizedWord(w: string)
    requires IsWord(w)
    ensures |Capitalize(w)| == |w| && IsUpper(Capitalize(w)[0])
    ensures forall i | 1 <= i < |w| :: IsLower(Capitalize(w)[i])
    ensures forall c | c in Capitalize(w) :: IsUpper(c) || IsLower(c)
  {
  }

  /** An identifier without separators and underscores is one raw identifier of one part. */
  lemma LettersAreOnePart(s: string, segment: string)
    requires s != "" && (forall c | c in s :: IsUpper(c) || IsLower(c)) && segment in Segments(s)
    ensures IsToken(s, Lower(segment))
  {
    assert forall i | 0 <= i < |s| :: s[i] in s;
    assert Blank(s) == s;
    SplitPrepend(s, "", ' ');
    SplitPrepend(s, "", '_');
    assert s + "" == s;
    assert s in Raws(s) && s in Split(s, '_');
    assert SegmentOf(s, Lower(segment));
    assert TokenOf(s, Lower(segment));
  }

  /** Words written together with capitals are all recovered, whether the first is capitalized or not. */
  lemma CapitalizedWordsRecovered(words: seq<string>, k: nat)
    requires AreWords(words) && k < |words|
    ensures IsToken(Concat(Capitalized(words)), words[k])
    ensures IsToken(words[0] + Concat(Capitalized(words[1..])), words[k])
  {
    var pascal, tail := Concat(Capitalized(words)), Concat(Capitalized(words[1..]));
    CapitalSegments(words);
    CapitalSegments(words[1..]);
    WordIsLower(words[k]);
    WordIsLower(words[0]);
    assert Capitalized(words)[k] in Segments(pascal);
    LettersAreOnePart(pascal, Capitalize(words[k]));
    FirstSegment(words[0], tail);
    var camel := words[0] + tail;
    var segment := if k == 0 then words[0] else Capitalize(words[k]);
    assert segment in Segments(camel) by {
      if k > 0 {
        assert Capitalized(words[1..])[k - 1] == segment;
      }
    }
    LettersAreOnePart(camel, segment);
  }

  /** A run of one or more capitals. */
  predicate IsAcronym(a: string) {
    a != "" && forall i | 0 <= i < |a| :: IsUpper(a[i])
  }

  /** An acronym before a capitalized word, or at the end, is one segment. */
  lemma AcronymSegment(a: string, rest: string)
    requires IsAcronym(a)
    requires rest != "" ==> |rest| >= 2 && IsUpper(rest[0]) && IsLower(rest[1])
    ensures Segments(a + rest) == [a] + Segments(rest)
  {
    var part := a + rest;
    assert forall i | 0 <= i < |a| :: part[i] == a[i];
    assert forall i | |a| <= i < |part| :: part[i] == rest[i - |a|];
    forall i | 1 <= i < |a|
      ensures !Boundary(part, i)
    {
      assert IsUpper(part[i - 1]) && (i + 1 < |part| ==> IsUpper(part[i + 1]));
    }
    if rest != "" {
      assert IsUpper(part[|a|]) && IsUpper(part[|a| - 1]) && IsLower(part[|a| + 1]);
      assert Boundary(part, |a|);
    }
    assert NextBoundary(part, 1) == |a|;
    assert part[..|a|] == a && part[|a|..] == rest;
  }

  /** An acronym and the capitalized word after it are both recovered, also behind a first lowercase word. */
  lemma AcronymsRecovered(first: string, acronym: string, w: string)
    requires IsWord(first) && IsAcronym(acronym) && IsWord(w)
    ensures IsToken(acronym + Capitalize(w), Lower(acronym)) && IsToken(acronym + Capitalize(w), w)
    ensures IsToken(first + (acronym + Capitalize(w)), first)
    ensures IsToken(first + (acronym + Capitalize(w)), Lower(acronym)) && IsToken(first + (acronym + Capitalize(w)), w)
  {
    var x := Capitalize(w);
    var tail := acronym + x;
    WordIsLower(first);
    WordIsLower(w);
    assert x + "" == x && Segments("") == [];
    FirstSegment(x, "");
    AcronymSegment(acronym, x);
    FirstSegment(first, tail);
    assert Segments(tail) == [acronym, x];
    assert Segments(first + tail) == [first, acronym, x];
    hide Segments;
    LettersAreOnePart(tail, acronym);
    LettersAreOnePart(tail, x);
    LettersAreOnePart(first + tail, first);
    LettersAreOnePart(first + tail, acronym);
    LettersAreOnePart(first + tail, x);
  }

  lemma WordHasNo(w: string, sep: char)
    requires IsWord(w) && !IsLower(sep)
    ensures sep !in w
  {
  }

  lemma {:induction false} JoinedCharacters(words: seq<string>, sep: char)
    requires forall i | 0 <= i < |words| :: IsWord(words[i])
    ensures forall c | c in Join(words, sep) :: IsLower(c) || c == sep
  {
    if |words| > 1 {
      JoinedCharacters(words[1..], sep);
    }
  }

  lemma WordIsItsSegment(w: string)
    requires IsWord(w)
    ensures SegmentOf(w, w)
  {
    FirstSegment(w, "");
    assert w + "" == w && Segments("") == [];
    WordIsLower(w);
    assert w in Segments(w);
  }

  /** Words joined by underscores are all recovered. */
  lemma UnderscoredWordsRecovered(words: seq<string>, k: nat)
    requires AreWords(words) && k < |words|
    ensures IsToken(Join(words, '_'), words[k])
  {
    var s := Join(words, '_');
    JoinedCharacters(words, '_');
    assert forall i | 0 <= i < |s| :: s[i] in s;
    assert Blank(s) == s;
    forall w | w in words
      ensures '_' !in w
    {
      WordHasNo(w, '_');
    }
    SplitOfJoin(words, '_');
    SplitPrepend(s, "", ' ');
    assert s + "" == s && s in Raws(s);
    JoinNotEmpty(words, '_');
    WordIsItsSegment(words[k]);
    assert words[k] in Split(s, '_');
    assert TokenOf(s, words[k]);
  }

  lemma JoinNotEmpty(words: seq<string>, sep: char)
    requires AreWords(words)
    ensures Join(words, sep) != ""
  {
  }

  /** Words separated by spaces are all recovered. */
  lemma SpacedWordsRecovered(words: seq<string>, k: nat)
    requires AreWords(words) && k < |words|
    ensures IsToken(Join(words, ' '), words[k])
  {
    var s := Join(words, ' ');
    JoinedCharacters(words, ' ');
    assert forall i | 0 <= i < |s| :: s[i] in s;
    assert Blank(s) == s;
    forall w | w in words
      ensures ' ' !in w
    {
      WordHasNo(w, ' ');
    }
    SplitOfJoin(words, ' ');
    WordIsLower(words[k]);
    assert words[k] in Raws(s) && TokenOf(words[k], words[k]);
  }

  /** `query_terms`: the tokens longer than two characters. */
  method QueryTerms(query: string) returns (terms: seq<string>)
    ensures forall t :: t in terms <==> IsToken(query, t) && |t| > 2
  {
    var tokens := SplitIdentifierTokens(query);
    terms := [];
    for i := 0 to |tokens|
      invariant forall t :: t in terms <==> (exists k | 0 <= k < i :: tokens[k] == t) && |t| > 2
    {
      if |tokens[i]| > 2 {
        terms := terms + [tokens[i]];
      }
    }
  }

  function Spaced(parts: seq<string>): string {
    if parts == [] then "" else Spaced(parts[..|parts| - 1]) + " " + parts[|parts| - 1]
  }

  /** The directories nearest to the file: of the last four components all but the file itself. */
  function NearestDirectories(components: seq<string>): seq<string> {
    var n := |components|;
    if n == 0 then [] else components[if n < 4 then 0 else n - 4..n - 1]
  }

  lemma SpacedStep(components: seq<string>, start: nat, index: nat)
    requires start <= index < |components|
    ensures Spaced(components[start..index + 1]) == Spaced(components[start..index]) + " " + components[index]
  {
    assert components[start..index + 1] == components[start..index] + [components[index]];
    assert (components[start..index] + [components[index]])[..index - start] == components[start..index];
  }

  /** The four-slot ring of components: afterwards it holds the last four at their index modulo four. */
  method LastFour(components: seq<string>) returns (tailParts: seq<Option<string>>)
    ensures |tailParts| == 4
    ensures forall i: nat | |components| - 4 <= i < |components| :: tailParts[i % 4] == Some(components[i])
  {
    var ring := new Option<string>[4](_ => None);
    for partCount := 0 to |components|
      invariant forall i: nat | partCount - 4 <= i < partCount :: ring[i % 4] == Some(components[i])
    {
      ring[partCount % 4] := Some(components[partCount]);
    }
    tailParts := ring[..];
  }

  /** `enrich_for_bm25`: the content, the file stem twice, and the nearest directories. */
  method EnrichForBm25(content: string, stem: Option<string>, components: seq<string>) returns (enriched: string)
    ensures enriched == content + (if stem.Some? then " " + stem.value + " " + stem.value else "")
                        + Spaced(NearestDirectories(components))
  {
    enriched := content;
    if stem.Some? {
      enriched := enriched + (" " + stem.value + " " + stem.value);
    }
    assert enriched == content + if stem.Some? then " " + stem.value + " " + stem.value else "";
    var tailParts := LastFour(components);
    var partCount := |components|;
    var tailStart := if partCount < 4 then 0 else partCount - 4;
    var tailEnd := if partCount < 1 then 0 else partCount - 1;
    assert NearestDirectories(components) == components[tailStart..tailEnd];
    assert forall i: nat | tailStart <= i < tailEnd :: tailParts[i % 4] == Some(components[i]);
    hide *;
    ghost var head := enriched;
    assert components[tailStart..tailStart] == [];
    NothingSpaced();
    for index := tailStart to tailEnd
      invariant enriched == head + Spaced(components[tailStart..index])
    {
      SpacedStep(components, tailStart, index);
      var part := tailParts[index % 4];
      assert components[index] == part.value;
      Reassociate(head, Spaced(components[tailStart..index]), " " + part.value);
      Reassociate(Spaced(components[tailStart..index]), " ", part.value);
      enriched := enriched + (" " + part.value);
    }
  }

  lemma NothingSpaced()
    ensures Spaced([]) == ""
  {
  }
}
