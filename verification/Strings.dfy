/** Splitting and joining of text at a separator. */
module Strings {

  /** `str::split`: always at least one part. */
  function Split(s: string, sep: char): (parts: seq<string>)
    ensures parts != []
    ensures forall p | p in parts :: sep !in p
  {
    if s == [] then [[]]
    else
      var rest := Split(s[1..], sep);
      if s[0] == sep then [[]] + rest else [[s[0]] + rest[0]] + rest[1..]
  }

  function Join(parts: seq<string>, sep: char): string {
    if parts == [] then []
    else if |parts| == 1 then parts[0]
    else parts[0] + [sep] + Join(parts[1..], sep)
  }

  lemma {:induction false} JoinOfSplit(s: string, sep: char)
    ensures Join(Split(s, sep), sep) == s
  {
    if s != [] {
      JoinOfSplit(s[1..], sep);
      var rest := Split(s[1..], sep);
      if s[0] != sep && |rest| > 1 {
        assert ([[s[0]] + rest[0]] + rest[1..])[1..] == rest[1..];
      }
    }
  }

  lemma {:induction false} SplitPrepend(p: string, s: string, sep: char)
    requires sep !in p
    ensures Split(p + s, sep) == [p + Split(s, sep)[0]] + Split(s, sep)[1..]
  {
    if p == [] {
      assert p + s == s && p + Split(s, sep)[0] == Split(s, sep)[0];
    } else {
      SplitPrepend(p[1..], s, sep);
      assert (p + s)[1..] == p[1..] + s;
      assert [p[0]] + (p[1..] + Split(s, sep)[0]) == p + Split(s, sep)[0];
    }
  }

  /** From `i` to `j` there is a part: no separator inside, and one or an end on either side. */
  predicate PartAt(s: string, sep: char, i: nat, j: nat) {
    && i <= j <= |s| && (forall k | i <= k < j :: s[k] != sep)
    && (i == 0 || s[i - 1] == sep) && (j == |s| || s[j] == sep)
  }

  /** The first separator, or the end. */
  function FirstOf(s: string, sep: char): (at: nat)
    ensures at <= |s| && (at < |s| ==> s[at] == sep)
    ensures forall k | 0 <= k < at :: s[k] != sep
  {
    if s == "" || s[0] == sep then 0 else 1 + FirstOf(s[1..], sep)
  }

  /** Splitting at the first separator. */
  lemma SplitAt(s: string, sep: char)
    ensures var at := FirstOf(s, sep);
            Split(s, sep) == if at == |s| then [s] else [s[..at]] + Split(s[at + 1..], sep)
  {
    var at := FirstOf(s, sep);
    var head := s[..at];
    assert head + [] == head;
    if at < |s| {
      var tail := s[at + 1..];
      assert s == head + ([sep] + tail) && ([sep] + tail)[1..] == tail;
      SplitPrepend(head, [sep] + tail, sep);
    } else {
      assert head == s;
      SplitPrepend(s, [], sep);
    }
  }

  lemma PartBehind(s: string, sep: char, i: nat, j: nat)
    ensures var at := FirstOf(s, sep);
            PartAt(s, sep, i, j)
            <==> if i <= at then i == 0 && j == at
                 else at < |s| && j > at && PartAt(s[at + 1..], sep, i - at - 1, j - at - 1)
  {
    var at := FirstOf(s, sep);
    hide FirstOf;
    if at < i <= j <= |s| {
      var tail := s[at + 1..];
      assert forall k | i <= k < j :: s[k] == tail[k - at - 1];
      assert forall k | i - at - 1 <= k < j - at - 1 :: tail[k] == s[k + at + 1];
    }
  }

  ghost predicate HasPart(s: string, sep: char, p: string) {
    exists i: nat, j: nat :: PartAt(s, sep, i, j) && s[i..j] == p
  }

  lemma FirstPart(s: string, sep: char)
    ensures HasPart(s, sep, s[..FirstOf(s, sep)])
  {
    var at := FirstOf(s, sep);
    PartBehind(s, sep, 0, at);
    hide FirstOf;
    assert s[0..at] == s[..at];
  }

  lemma PartOf(s: string, sep: char, p: string) returns (i: nat, j: nat)
    requires HasPart(s, sep, p)
    ensures i <= j <= |s| && PartAt(s, sep, i, j) && s[i..j] == p
  {
    i, j :| PartAt(s, sep, i, j) && s[i..j] == p;
  }

  lemma PartFromTail(s: string, sep: char, p: string)
    requires FirstOf(s, sep) < |s| && HasPart(s[FirstOf(s, sep) + 1..], sep, p)
    ensures HasPart(s, sep, p)
  {
    hide *;
    var at := FirstOf(s, sep);
    var i, j := PartOf(s[at + 1..], sep, p);
    PartBehind(s, sep, i + at + 1, j + at + 1);
    SameSlice(s, at + 1, i, j);
    PartIs(s, sep, i + at + 1, j + at + 1);
  }

  lemma SameSlice(s: string, from: nat, i: nat, j: nat)
    requires from <= |s| && i <= j <= |s| - from
    ensures s[from..][i..j] == s[i + from..j + from]
  {
  }

  lemma PartIs(s: string, sep: char, i: nat, j: nat)
    requires PartAt(s, sep, i, j)
    ensures HasPart(s, sep, s[i..j])
  {
  }

  lemma PartIsFirstOrLater(s: string, sep: char, p: string)
    requires HasPart(s, sep, p)
    ensures var at := FirstOf(s, sep); p == s[..at] || (at < |s| && HasPart(s[at + 1..], sep, p))
  {
    hide *;
    var at := FirstOf(s, sep);
    var i, j := PartOf(s, sep, p);
    PartBehind(s, sep, i, j);
    if i > at {
      SameSlice(s, at + 1, i - at - 1, j - at - 1);
      PartIs(s[at + 1..], sep, i - at - 1, j - at - 1);
    } else {
      assert s[0..at] == s[..at];
    }
  }

  /** The parts are exactly the stretches between separators. */
  lemma {:induction false} SplitParts(s: string, sep: char, p: string)
    ensures p in Split(s, sep) <==> HasPart(s, sep, p)
    decreases |s|
  {
    var at := FirstOf(s, sep);
    SplitAt(s, sep);
    FirstPart(s, sep);
    if at < |s| {
      SplitParts(s[at + 1..], sep, p);
      assert p in Split(s, sep) <==> p == s[..at] || p in Split(s[at + 1..], sep);
    } else {
      assert s[..at] == s && (p in Split(s, sep) <==> p == s);
    }
    hide Split, HasPart, FirstOf;
    if HasPart(s, sep, p) {
      PartIsFirstOrLater(s, sep, p);
    } else if at < |s| && HasPart(s[at + 1..], sep, p) {
      PartFromTail(s, sep, p);
    }
  }

  /** Parts free of the separator are recovered from their join. */
  lemma {:induction false} SplitOfJoin(parts: seq<string>, sep: char)
    requires parts != [] && forall p | p in parts :: sep !in p
    ensures Split(Join(parts, sep), sep) == parts
  {
    if |parts| == 1 {
      SplitPrepend(parts[0], [], sep);
      assert parts[0] + [] == parts[0];
    } else {
      var tail := [sep] + Join(parts[1..], sep);
      SplitOfJoin(parts[1..], sep);
      SplitPrepend(parts[0], tail, sep);
      assert tail[1..] == Join(parts[1..], sep);
      assert parts[0] + [sep] + Join(parts[1..], sep) == parts[0] + tail;
      assert Split(tail, sep) == [[]] + parts[1..];
      assert parts[0] + [] == parts[0] && [parts[0]] + parts[1..] == parts;
    }
  }
}
