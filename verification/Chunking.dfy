/**
 Code chunking (crates/code-search/src/chunking.rs). Syntax trees are trees of named nodes with byte
 ranges; text is UTF-8 bytes. Ranges are collected, merged greedily under a running character count,
 and cut out with 1-indexed line numbers; files without a usable tree are chunked by lines.
 */
module Chunking {
  import opened Wrappers
  import opened Orders
  import opened Utf8
  import opened Greedy
  import opened Types

  const DESIRED_CHUNK_CHARS: nat := 1500
  const RECURSION_DEPTH: nat := 500
  const NEWLINE: Byte := 10

  datatype Range = Range(start: nat, end: nat)

  /** A named syntax node with its named children. */
  datatype Node = Node(range: Range, named: seq<Node>)

  /** Children lie inside their parent, in order, without overlap; a node may be empty. */
  predicate WellFormedTree(node: Node) {
    node.range.start <= node.range.end && NestedIn(node.named, node.range.start, node.range.end)
  }

  predicate NestedIn(nodes: seq<Node>, lo: nat, hi: nat) {
    if nodes == [] then lo <= hi
    else lo <= nodes[0].range.start && WellFormedTree(nodes[0]) && NestedIn(nodes[1..], nodes[0].range.end, hi)
  }

  /** Characters of a text: its bytes that are not continuation bytes. */
  function CharCount(s: Bytes): nat {
    if s == [] then 0 else (if Continuation(s[0]) then 0 else 1) + CharCount(s[1..])
  }

  lemma {:induction false} CharCountAppend(a: Bytes, b: Bytes)
    ensures CharCount(a + b) == CharCount(a) + CharCount(b)
  {
    if a == [] {
      assert a + b == b;
    } else {
      CharCountAppend(a[1..], b);
      assert (a + b)[1..] == a[1..] + b;
    }
  }

  /** The characters the decoder finds. */
  function Characters(s: Bytes): seq<Bytes>
    requires ValidText(s)
  {
    if s == [] then [] else [s[..Scan(s).n]] + Characters(s[Scan(s).n..])
  }

  lemma {:induction false} ContinuationsCountNothing(s: Bytes)
    requires forall i | 0 <= i < |s| :: Continuation(s[i])
    ensures CharCount(s) == 0
  {
    if s != [] {
      ContinuationsCountNothing(s[1..]);
    }
  }

  /** Counting bytes that begin a character counts decoded characters. */
  lemma {:induction false} CharCountIsDecoded(s: Bytes)
    requires ValidText(s)
    ensures CharCount(s) == |Characters(s)|
  {
    if s != [] {
      var n := Scan(s).n;
      FrontBytes(s);
      CharCountIsDecoded(s[n..]);
      ContinuationsCountNothing(s[1..n]);
      CharCountAppend(s[1..n], s[n..]);
      assert s[1..n] + s[n..] == s[1..];
    }
  }

  predicate IsAscii(s: Bytes) {
    forall i | 0 <= i < |s| :: s[i] < 0x80
  }

  /** `count_chars`, with its short ASCII shortcut. */
  function CountChars(s: Bytes): (n: nat)
    requires ValidText(s)
    ensures n == CharCount(s)
  {
    if |s| <= 256 && IsAscii(s) then AsciiCount(s); |s| else CharCountIsDecoded(s); |Characters(s)|
  }

  lemma {:induction false} AsciiCount(s: Bytes)
    requires IsAscii(s)
    ensures CharCount(s) == |s|
  {
    if s != [] {
      AsciiCount(s[1..]);
    }
  }

  /** A range inside the text whose ends are character boundaries. */
  predicate Sliceable(content: Bytes, r: Range) {
    r.start <= r.end <= |content| && IsBoundary(content, r.start) && IsBoundary(content, r.end)
  }

  lemma SliceIsText(content: Bytes, r: Range)
    requires ValidText(content) && Sliceable(content, r)
    ensures ValidText(content[r.start..r.end])
  {
    BoundarySplits(content, r.end);
    assert IsBoundary(content[..r.end], r.start);
    BoundarySplits(content[..r.end], r.start);
    assert content[..r.end][r.start..] == content[r.start..r.end];
  }

  function Chars(content: Bytes, r: Range): nat
    requires r.start <= r.end <= |content|
  {
    CharCount(content[r.start..r.end])
  }

  lemma CharsSplit(content: Bytes, a: nat, b: nat, c: nat)
    requires a <= b <= c <= |content|
    ensures Chars(content, Range(a, c)) == Chars(content, Range(a, b)) + Chars(content, Range(b, c))
  {
    CharCountAppend(content[a..b], content[b..c]);
    assert content[a..b] + content[b..c] == content[a..c];
  }

  lemma CharsPart(content: Bytes, a: nat, b: nat, c: nat, d: nat)
    requires a <= b <= c <= d <= |content|
    ensures Chars(content, Range(b, c)) <= Chars(content, Range(a, d))
  {
    CharsSplit(content, a, b, d);
    CharsSplit(content, b, c, d);
  }

  /** Every node range of the trees can be cut out of the text. */
  predicate SliceableTrees(content: Bytes, nodes: seq<Node>) {
    forall i | 0 <= i < |nodes| :: SliceableTree(content, nodes[i])
  }

  predicate SliceableTree(content: Bytes, node: Node) {
    Sliceable(content, node.range) && forall i | 0 <= i < |node.named| :: SliceableTree(content, node.named[i])
  }

  /** What collecting gives for one node, and for a list of siblings. */
  function Collect(content: Bytes, node: Node, depth: nat): seq<Range>
    requires SliceableTree(content, node)
    decreases node, 1
  {
    var r := node.range;
    if r.end <= r.start then []
    else if Chars(content, r) <= DESIRED_CHUNK_CHARS || depth >= RECURSION_DEPTH || node.named == [] then [r]
    else CollectAll(content, node.named, depth + 1)
  }

  function CollectAll(content: Bytes, nodes: seq<Node>, depth: nat): seq<Range>
    requires SliceableTrees(content, nodes)
    decreases nodes, 0
  {
    if nodes == [] then [] else Collect(content, nodes[0], depth) + CollectAll(content, nodes[1..], depth)
  }

  lemma CollectAllStep(content: Bytes, nodes: seq<Node>, i: nat, depth: nat)
    requires SliceableTrees(content, nodes) && i < |nodes|
    ensures CollectAll(content, nodes[i..], depth)
         == Collect(content, nodes[i], depth) + CollectAll(content, nodes[i + 1..], depth)
  {
    assert nodes[i..][1..] == nodes[i + 1..];
  }

  /** What a node that is not small enough gathers from its children: the loop of `collect_node_ranges`. */
  method CollectChildren(content: Bytes, nodes: seq<Node>, depth: nat, ranges: seq<Range>) returns (all: seq<Range>)
    requires ValidText(content) && SliceableTrees(content, nodes)
    ensures all == ranges + CollectAll(content, nodes, depth)
    decreases nodes, 0
  {
    all := ranges;
    assert nodes[0..] == nodes && CollectAll(content, nodes[|nodes|..], depth) == [];
    for i := 0 to |nodes|
      invariant all + CollectAll(content, nodes[i..], depth) == ranges + CollectAll(content, nodes, depth)
    {
      CollectAllStep(content, nodes, i, depth);
      assert SliceableTree(content, nodes[i]);
      hide *;
      Reassociate(all, Collect(content, nodes[i], depth), CollectAll(content, nodes[i + 1..], depth));
      all := CollectNodeRanges(content, nodes[i], depth, all);
    }
  }

  /** `collect_node_ranges`. */
  method CollectNodeRanges(content: Bytes, node: Node, depth: nat, ranges: seq<Range>) returns (all: seq<Range>)
    requires ValidText(content) && SliceableTree(content, node)
    ensures all == ranges + Collect(content, node, depth)
    decreases node, 1
  {
    hide CollectAll, ValidText, IsBoundary, Chars;
    var r := node.range;
    if r.end <= r.start {
      return ranges;
    }
    var charLen := SliceChars(content, r);
    if charLen <= DESIRED_CHUNK_CHARS || depth >= RECURSION_DEPTH || node.named == [] {
      return ranges + [r];
    }
    all := CollectChildren(content, node.named, depth + 1, ranges);
  }

  /** Nonempty ranges in order without overlap, between two bounds. */
  predicate Ordered(ranges: seq<Range>, lo: nat, hi: nat) {
    if ranges == [] then lo <= hi
    else lo <= ranges[0].start < ranges[0].end && Ordered(ranges[1..], ranges[0].end, hi)
  }

  lemma {:induction false} OrderedAppend(a: seq<Range>, b: seq<Range>, lo: nat, mid: nat, hi: nat)
    requires Ordered(a, lo, mid) && Ordered(b, mid, hi)
    ensures Ordered(a + b, lo, hi)
  {
    if a == [] {
      assert a + b == b;
      OrderedWeaken(b, lo, mid, hi);
    } else {
      OrderedAppend(a[1..], b, a[0].end, mid, hi);
      assert (a + b)[1..] == a[1..] + b;
    }
  }

  lemma {:induction false} OrderedWeaken(b: seq<Range>, lo: nat, mid: nat, hi: nat)
    requires lo <= mid && Ordered(b, mid, hi)
    ensures Ordered(b, lo, hi)
  {
  }

  lemma {:induction false} CollectOrdered(content: Bytes, node: Node, depth: nat)
    requires SliceableTree(content, node) && WellFormedTree(node)
    ensures Ordered(Collect(content, node, depth), node.range.start, node.range.end)
    decreases node, 1
  {
    var r := node.range;
    if r.start < r.end && Collect(content, node, depth) != [r] {
      CollectAllOrdered(content, node.named, depth + 1, r.start, r.end);
    }
  }

  /** For every well-formed tree the collected ranges are sorted, disjoint and nonempty. */
  lemma {:induction false} CollectAllOrdered(content: Bytes, nodes: seq<Node>, depth: nat, lo: nat, hi: nat)
    requires SliceableTrees(content, nodes) && NestedIn(nodes, lo, hi)
    ensures Ordered(CollectAll(content, nodes, depth), lo, hi)
    decreases nodes, 0
  {
    if nodes != [] {
      CollectOrdered(content, nodes[0], depth);
      CollectAllOrdered(content, nodes[1..], depth, nodes[0].range.end, hi);
      var first := Collect(content, nodes[0], depth);
      OrderedWeaken(first, lo, nodes[0].range.start, nodes[0].range.end);
      OrderedAppend(first, CollectAll(content, nodes[1..], depth), lo, nodes[0].range.end, hi);
    }
  }

  /** The nonempty ranges of named nodes without named children. */
  function Leaves(nodes: seq<Node>): seq<Range> {
    if nodes == [] then [] else NodeLeaves(nodes[0]) + Leaves(nodes[1..])
  }

  function NodeLeaves(node: Node): seq<Range> {
    if node.named != [] then Leaves(node.named)
    else if node.range.start < node.range.end then [node.range] else []
  }

  predicate Inside(inner: Range, outer: Range) {
    outer.start <= inner.start && inner.end <= outer.end
  }

  lemma {:induction false} LeavesInside(nodes: seq<Node>, lo: nat, hi: nat, leaf: Range)
    requires NestedIn(nodes, lo, hi) && leaf in Leaves(nodes)
    ensures leaf.start < leaf.end && Inside(leaf, Range(lo, hi))
    decreases nodes, 0
  {
    NestedBounds(nodes, lo, hi);
    if leaf in NodeLeaves(nodes[0]) {
      NestedBounds(nodes[1..], nodes[0].range.end, hi);
      NodeLeavesInside(nodes[0], leaf);
    } else {
      LeavesInside(nodes[1..], nodes[0].range.end, hi, leaf);
    }
  }

  lemma {:induction false} NestedBounds(nodes: seq<Node>, lo: nat, hi: nat)
    requires NestedIn(nodes, lo, hi)
    ensures lo <= hi
  {
    if nodes != [] {
      NestedBounds(nodes[1..], nodes[0].range.end, hi);
    }
  }

  lemma {:induction false} NodeLeavesInside(node: Node, leaf: Range)
    requires WellFormedTree(node) && leaf in NodeLeaves(node)
    ensures leaf.start < leaf.end && Inside(leaf, node.range)
    decreases node, 1
  {
    if node.named != [] {
      LeavesInside(node.named, node.range.start, node.range.end, leaf);
    }
  }

  lemma {:induction false} NodeLeafCollected(content: Bytes, node: Node, depth: nat, leaf: Range) returns (r: Range)
    requires SliceableTree(content, node) && WellFormedTree(node) && leaf in NodeLeaves(node)
    ensures r in Collect(content, node, depth) && Inside(leaf, r)
    decreases node, 1
  {
    NodeLeavesInside(node, leaf);
    if Collect(content, node, depth) == [node.range] {
      r := node.range;
    } else {
      r := LeafCollected(content, node.named, depth + 1, node.range.start, node.range.end, leaf);
    }
  }

  /** Every nonempty named leaf lies inside some collected range. */
  lemma {:induction false} LeafCollected(
    content: Bytes, nodes: seq<Node>, depth: nat, lo: nat, hi: nat, leaf: Range) returns (r: Range)
    requires SliceableTrees(content, nodes) && NestedIn(nodes, lo, hi) && leaf in Leaves(nodes)
    ensures r in CollectAll(content, nodes, depth) && Inside(leaf, r)
    decreases nodes, 0
  {
    if leaf in NodeLeaves(nodes[0]) {
      r := NodeLeafCollected(content, nodes[0], depth, leaf);
    } else {
      r := LeafCollected(content, nodes[1..], depth, nodes[0].range.end, hi, leaf);
    }
  }

  /** Child indexes that lead from the top nodes to a node; its depth is one less than their number. */
  predicate ValidPath(nodes: seq<Node>, path: seq<nat>)
    decreases |path|
  {
    path != [] && path[0] < |nodes| && (|path| > 1 ==> ValidPath(nodes[path[0]].named, path[1..]))
  }

  function NodeAt(nodes: seq<Node>, path: seq<nat>): Node
    requires ValidPath(nodes, path)
    decreases |path|
  {
    if |path| == 1 then nodes[path[0]] else NodeAt(nodes[path[0]].named, path[1..])
  }

  /** Characters of a node's text. */
  function Size(content: Bytes, node: Node): nat {
    var r := node.range;
    if r.start <= r.end <= |content| then CharCount(content[r.start..r.end]) else 0
  }

  /**
   The node a path leads to is taken whole: it is not empty and has at most 1500 characters, or no named
   children, or depth 500; and every node above it has more than 1500 characters and a smaller depth.
   */
  predicate TakenAt(content: Bytes, nodes: seq<Node>, path: seq<nat>) {
    && ValidPath(nodes, path)
    && NodeAt(nodes, path).range.start < NodeAt(nodes, path).range.end
    && |path| - 1 <= 500
    && (Size(content, NodeAt(nodes, path)) <= 1500 || NodeAt(nodes, path).named == [] || |path| - 1 == 500)
    && forall n | 0 < n < |path| :: BigAbove(content, nodes, path[..n])
  }

  predicate BigAbove(content: Bytes, nodes: seq<Node>, path: seq<nat>) {
    ValidPath(nodes, path) && Size(content, NodeAt(nodes, path)) > 1500
  }

  /** The same from the top node down, for nodes that themselves lie at a depth. */
  predicate TakenFrom(content: Bytes, nodes: seq<Node>, depth: nat, path: seq<nat>)
    decreases |path|
  {
    && path != [] && path[0] < |nodes|
    && if |path| == 1 then TakenWhole(content, nodes[path[0]], depth)
       else
         && Size(content, nodes[path[0]]) > 1500 && depth < 500
         && TakenFrom(content, nodes[path[0]].named, depth + 1, path[1..])
  }

  predicate TakenWhole(content: Bytes, node: Node, depth: nat) {
    node.range.start < node.range.end && (Size(content, node) <= 1500 || depth >= 500 || node.named == [])
  }

  lemma {:induction false} TakenFromIff(content: Bytes, nodes: seq<Node>, depth: nat, path: seq<nat>)
    requires depth <= 500
    ensures TakenFrom(content, nodes, depth, path) <==>
              && ValidPath(nodes, path) && TakenWhole(content, NodeAt(nodes, path), depth + |path| - 1)
              && depth + |path| - 1 <= 500
              && forall n | 0 < n < |path| :: BigAbove(content, nodes, path[..n])
    decreases |path|
  {
    hide TakenWhole, Size;
    if |path| > 1 && path[0] < |nodes| {
      var top, rest := nodes[path[0]], path[1..];
      if depth < 500 {
        TakenFromIff(content, top.named, depth + 1, rest);
      }
      assert path[..1] == [path[0]];
      assert BigAbove(content, nodes, path[..1]) <==> Size(content, top) > 1500;
      forall n | 0 < n < |rest|
        ensures BigAbove(content, nodes, path[..n + 1]) <==> BigAbove(content, top.named, rest[..n])
      {
        assert path[..n + 1][1..] == rest[..n] && path[..n + 1][0] == path[0];
      }
      hide TakenFrom, BigAbove;
      if forall n | 0 < n < |rest| :: BigAbove(content, top.named, rest[..n]) {
        forall n | 1 < n < |path|
          ensures BigAbove(content, nodes, path[..n])
        {
          assert BigAbove(content, top.named, rest[..n - 1]);
        }
      }
    }
  }

  lemma {:induction false} InCollectAll(content: Bytes, nodes: seq<Node>, depth: nat, r: Range)
    requires SliceableTrees(content, nodes)
    ensures r in CollectAll(content, nodes, depth)
       <==> exists i | 0 <= i < |nodes| :: r in Collect(content, nodes[i], depth)
  {
    hide Collect;
    if nodes != [] {
      InCollectAll(content, nodes[1..], depth, r);
      assert forall i | 0 < i < |nodes| :: nodes[i] == nodes[1..][i - 1];
      assert forall i | 0 <= i < |nodes| - 1 :: nodes[1..][i] == nodes[i + 1];
    }
  }

  /** A node gives its own range or what its children give. */
  lemma CollectOne(content: Bytes, node: Node, depth: nat, r: Range)
    requires SliceableTree(content, node) && r in Collect(content, node, depth)
    ensures SliceableTrees(content, node.named)
    ensures if TakenWhole(content, node, depth) then r == node.range
            else Size(content, node) > 1500 && depth < 500 && r in CollectAll(content, node.named, depth + 1)
  {
    hide CollectAll, IsBoundary, CharCount;
  }

  /** Every collected range is that of a node taken whole. */
  lemma {:induction false} CollectedIsTaken(content: Bytes, nodes: seq<Node>, depth: nat, r: Range)
    returns (path: seq<nat>)
    requires SliceableTrees(content, nodes) && r in CollectAll(content, nodes, depth)
    ensures TakenFrom(content, nodes, depth, path) && ValidPath(nodes, path) && NodeAt(nodes, path).range == r
    decreases nodes
  {
    InCollectAll(content, nodes, depth, r);
    var i :| 0 <= i < |nodes| && r in Collect(content, nodes[i], depth);
    assert SliceableTree(content, nodes[i]);
    hide Collect, CollectAll, SliceableTree, SliceableTrees, TakenWhole, Size;
    CollectOne(content, nodes[i], depth, r);
    if TakenWhole(content, nodes[i], depth) {
      path := [i];
    } else {
      var rest := CollectedIsTaken(content, nodes[i].named, depth + 1, r);
      path := [i] + rest;
      assert path[1..] == rest;
    }
  }

  /** Every node taken whole gives a collected range. */
  lemma {:induction false} TakenIsCollected(content: Bytes, nodes: seq<Node>, depth: nat, path: seq<nat>)
    requires SliceableTrees(content, nodes) && TakenFrom(content, nodes, depth, path)
    ensures ValidPath(nodes, path) && NodeAt(nodes, path).range in CollectAll(content, nodes, depth)
    decreases |path|
  {
    var node := nodes[path[0]];
    assert SliceableTree(content, node);
    if |path| > 1 {
      TakenIsCollected(content, node.named, depth + 1, path[1..]);
      assert Collect(content, node, depth) == CollectAll(content, node.named, depth + 1);
    } else {
      assert Collect(content, node, depth) == [node.range];
    }
    InCollectAll(content, nodes, depth, NodeAt(nodes, path).range);
  }

  /**
   Exactly the nodes to take are collected: the highest ones of at most 1500 characters, those without named
   children where none such is above them, and those at depth 500.
   */
  lemma CollectedIff(content: Bytes, nodes: seq<Node>, r: Range)
    requires SliceableTrees(content, nodes)
    ensures r in CollectAll(content, nodes, 0)
       <==> exists path :: TakenAt(content, nodes, path) && NodeAt(nodes, path).range == r
  {
    hide CollectAll, SliceableTrees, TakenFrom, NodeAt, ValidPath, BigAbove;
    if r in CollectAll(content, nodes, 0) {
      var path := CollectedIsTaken(content, nodes, 0, r);
      TakenFromIff(content, nodes, 0, path);
      assert TakenAt(content, nodes, path);
    }
    if path :| TakenAt(content, nodes, path) && NodeAt(nodes, path).range == r {
      TakenFromIff(content, nodes, 0, path);
      TakenIsCollected(content, nodes, 0, path);
    }
  }

  /** Newline bytes of a text. */
  function Newlines(s: Bytes): nat {
    if s == [] then 0 else Newlines(s[..|s| - 1]) + (if s[|s| - 1] == NEWLINE then 1 else 0)
  }

  /** The 1-indexed line of an offset. */
  function LineOf(content: Bytes, at: nat): nat
    requires at <= |content|
  {
    1 + Newlines(content[..at])
  }

  /** Offset 0 and every offset just after one of the first `n` bytes that is a newline. */
  function StartsUpTo(content: Bytes, n: nat): seq<nat>
    requires n <= |content|
  {
    if n == 0 then [0] else StartsUpTo(content, n - 1) + (if content[n - 1] == NEWLINE then [n] else [])
  }

  /** `line_start_offsets`. */
  method LineStartOffsets(content: Bytes) returns (starts: seq<nat>)
    ensures starts == StartsUpTo(content, |content|)
  {
    starts := [0];
    for i := 0 to |content|
      invariant starts == StartsUpTo(content, i)
    {
      if content[i] == NEWLINE {
        starts := starts + [i + 1];
      }
    }
  }

  /** The starts up to an offset are a prefix of all starts, as many as its line, and the others lie beyond. */
  lemma {:induction false} StartsBelow(content: Bytes, at: nat, n: nat)
    requires at <= n <= |content|
    ensures var below, all := StartsUpTo(content, at), StartsUpTo(content, n);
            && |below| == LineOf(content, at)
            && below <= all
            && (forall i | 0 <= i < |below| :: all[i] <= at)
            && (forall i | |below| <= i < |all| :: at < all[i] <= n)
            && forall i, j | 0 <= i < j < |all| :: all[i] < all[j]
    decreases n
  {
    if at < n {
      StartsBelow(content, at, n - 1);
      StartsBelow(content, n - 1, n - 1);
    } else if n > 0 {
      StartsBelow(content, n - 1, n - 1);
      assert content[..n][..n - 1] == content[..n - 1];
    }
  }

  /** `slice::partition_point` for offsets not beyond `at`, by halving. */
  method PartitionPoint(starts: seq<nat>, at: nat) returns (r: nat)
    requires forall i, j | 0 <= i < j < |starts| :: starts[i] <= starts[j]
    ensures r <= |starts|
    ensures forall i | 0 <= i < r :: starts[i] <= at
    ensures forall i | r <= i < |starts| :: at < starts[i]
  {
    var lo, hi := 0, |starts|;
    while lo < hi
      invariant 0 <= lo <= hi <= |starts|
      invariant forall i | 0 <= i < lo :: starts[i] <= at
      invariant forall i | hi <= i < |starts| :: at < starts[i]
    {
      var mid := (lo + hi) / 2;
      if starts[mid] <= at {
        lo := mid + 1;
      } else {
        hi := mid;
      }
    }
    r := lo;
  }

  /** `byte_to_line`: one plus the newlines before the offset. */
  method ByteToLine(content: Bytes, starts: seq<nat>, byteIdx: nat) returns (line: nat)
    requires starts == StartsUpTo(content, |content|)
    ensures line == LineOf(content, if byteIdx < |content| then byteIdx else |content|)
  {
    var capped := if byteIdx < |content| then byteIdx else |content|;
    StartsBelow(content, capped, |content|);
    line := PartitionPoint(starts, capped);
    ghost var below := |StartsUpTo(content, capped)|;
    if line < |starts| {
      assert starts[line] > capped;
    }
    if below < |starts| {
      assert starts[below] > capped;
    }
  }

  lemma {:induction false} NewlinesAppend(a: Bytes, b: Bytes)
    ensures Newlines(a + b) == Newlines(a) + Newlines(b)
  {
    if b == [] {
      assert a + b == a;
    } else {
      NewlinesAppend(a, b[..|b| - 1]);
      assert (a + b)[..|a + b| - 1] == a + b[..|b| - 1];
    }
  }

  lemma {:induction false} NoNewlines(s: Bytes)
    ensures Newlines(s) == 0 <==> NEWLINE !in s
  {
    if s != [] {
      NoNewlines(s[..|s| - 1]);
      assert s == s[..|s| - 1] + [s[|s| - 1]];
    }
  }

  lemma SameLineIff(content: Bytes, a: nat, b: nat)
    requires a <= b <= |content|
    ensures LineOf(content, a) == LineOf(content, b) <==> NEWLINE !in content[a..b]
  {
    assert content[..b] == content[..a] + content[a..b];
    NewlinesAppend(content[..a], content[a..b]);
    NoNewlines(content[a..b]);
  }

  /**
   Two spans of a file get the same lines, and so their chunks the same location, exactly when no newline
   separates their starts and none separates their ends: locations of chunks need not be distinct.
   */
  lemma SpansShareLinesIff(content: Bytes, a: Range, b: Range)
    requires a.start <= b.start <= |content| && a.end <= b.end <= |content|
    ensures LineOf(content, a.start) == LineOf(content, b.start) && LineOf(content, a.end) == LineOf(content, b.end)
       <==> NEWLINE !in content[a.start..b.start] && NEWLINE !in content[a.end..b.end]
  {
    SameLineIff(content, a.start, b.start);
    SameLineIff(content, a.end, b.end);
  }

  /** What every chunk of a file carries, and the library's whitespace trimming. */
  datatype Source = Source(path: Path, language: string, trim: Bytes -> Bytes, trimEnd: Bytes -> Bytes)

  /** `push_byte_chunk`: nothing for a blank span, else its trimmed text and line bounds. */
  function SpanChunk(file: Source, content: Bytes, span: Range): seq<Chunk>
    requires span.start <= span.end <= |content|
  {
    var text := file.trim(content[span.start..span.end]);
    if text == [] then []
    else [Chunk(text, file.path, LineOf(content, span.start), LineOf(content, span.end), file.language)]
  }

  method PushByteChunk(file: Source, content: Bytes, starts: seq<nat>, span: Range, chunks: seq<Chunk>)
    returns (all: seq<Chunk>)
    requires span.start <= span.end <= |content| && starts == StartsUpTo(content, |content|)
    ensures all == chunks + SpanChunk(file, content, span)
  {
    var text := file.trim(content[span.start..span.end]);
    if text == [] {
      return chunks;
    }
    var first := ByteToLine(content, starts, span.start);
    var last := ByteToLine(content, starts, span.end);
    return chunks + [Chunk(text, file.path, first, last, file.language)];
  }

  /** The active span and the remaining ranges lie in the text, in order of their starts. */
  predicate InSequence(content: Bytes, active: Range, rest: seq<Range>) {
    && Sliceable(content, active)
    && (forall i | 0 <= i < |rest| :: active.start <= rest[i].start && Sliceable(content, rest[i]))
    && forall i, j | 0 <= i < j < |rest| :: rest[i].start <= rest[j].start
  }

  predicate AllSliceable(content: Bytes, spans: seq<Range>) {
    forall i | 0 <= i < |spans| :: Sliceable(content, spans[i])
  }

  /** Merging as a function: the active span absorbs the next range while the joint span is small enough. */
  function MergeFrom(content: Bytes, active: Range, rest: seq<Range>): (spans: seq<Range>)
    requires InSequence(content, active, rest)
    ensures AllSliceable(content, spans)
    decreases |rest|
  {
    if rest == [] then [active]
    else
      var joint := Range(active.start, rest[0].end);
      if Chars(content, joint) <= DESIRED_CHUNK_CHARS then MergeFrom(content, joint, rest[1..])
      else [active] + MergeFrom(content, rest[0], rest[1..])
  }

  function SpanChunks(file: Source, content: Bytes, spans: seq<Range>): seq<Chunk>
    requires AllSliceable(content, spans)
  {
    if spans == [] then [] else SpanChunk(file, content, spans[0]) + SpanChunks(file, content, spans[1..])
  }

  method SliceChars(content: Bytes, r: Range) returns (n: nat)
    requires ValidText(content) && Sliceable(content, r)
    ensures n == Chars(content, r)
  {
    SliceIsText(content, r);
    n := CountChars(content[r.start..r.end]);
  }

  /** The character count of the joint span, from the running count where the next range reaches further. */
  method JointChars(content: Bytes, active: Range, activeChars: nat, range: Range) returns (nextChars: nat)
    requires ValidText(content) && Sliceable(content, active) && Sliceable(content, range)
    requires active.start <= range.start && activeChars == Chars(content, active)
    ensures nextChars == Chars(content, Range(active.start, range.end))
  {
    if range.end >= active.end {
      CharsSplit(content, active.start, active.end, range.end);
      var added := SliceChars(content, Range(active.end, range.end));
      nextChars := activeChars + added;
    } else {
      nextChars := SliceChars(content, Range(active.start, range.end));
    }
  }

  /** The chunks of merging an active span with the ranges after it. */
  function MergedChunks(file: Source, content: Bytes, active: Range, rest: seq<Range>): seq<Chunk>
    requires InSequence(content, active, rest)
  {
    SpanChunks(file, content, MergeFrom(content, active, rest))
  }

  /** What is pushed so far and what is still to come make up the goal. */
  ghost predicate Merging(
    file: Source, content: Bytes, goal: seq<Chunk>, chunks: seq<Chunk>, active: Range, rest: seq<Range>)
  {
    InSequence(content, active, rest) && goal == chunks + MergedChunks(file, content, active, rest)
  }

  /** One iteration of merging, with what it pushes. */
  lemma MergingStep(file: Source, content: Bytes, goal: seq<Chunk>, chunks: seq<Chunk>, active: Range, rest: seq<Range>)
    requires Merging(file, content, goal, chunks, active, rest)
    ensures active.start <= active.end <= |content| && Sliceable(content, active)
    ensures rest == [] ==> goal == chunks + SpanChunk(file, content, active)
    ensures rest != [] ==>
              var joint := Range(active.start, rest[0].end);
              && Sliceable(content, rest[0]) && active.start <= rest[0].start <= rest[0].end <= |content|
              && if Chars(content, joint) <= DESIRED_CHUNK_CHARS
                 then Merging(file, content, goal, chunks, joint, rest[1..])
                 else Merging(file, content, goal, chunks + SpanChunk(file, content, active), rest[0], rest[1..])
  {
    hide SpanChunk, SpanChunks, MergeFrom, Chars, InSequence, AllSliceable;
    MergeStep(content, active, rest);
    if rest == [] {
      SpanChunksStep(file, content, active, []);
    } else if Chars(content, Range(active.start, rest[0].end)) > DESIRED_CHUNK_CHARS {
      var later := MergeFrom(content, rest[0], rest[1..]);
      SpanChunksStep(file, content, active, later);
      Reassociate(chunks, SpanChunk(file, content, active), SpanChunks(file, content, later));
    }
  }

  /** `merge_ranges` on its sorted ranges: the running count always is the active span's true count. */
  method MergeRanges(file: Source, content: Bytes, ranges: seq<Range>) returns (chunks: seq<Chunk>)
    requires ValidText(content)
    requires ranges != [] ==> InSequence(content, ranges[0], ranges[1..])
    ensures ranges == [] ==> chunks == []
    ensures ranges != [] ==> chunks == MergedChunks(file, content, ranges[0], ranges[1..])
  {
    if ranges == [] {
      return [];
    }
    ghost var goal := MergedChunks(file, content, ranges[0], ranges[1..]);
    assert Merging(file, content, goal, [], ranges[0], ranges[1..]);
    hide *;
    chunks := [];
    var starts := LineStartOffsets(content);
    var active, rest := ranges[0], ranges[1..];
    MergingStep(file, content, goal, chunks, active, rest);
    var activeChars := SliceChars(content, active);
    while rest != []
      invariant active.start <= active.end <= |content| && activeChars == Chars(content, active)
      invariant Merging(file, content, goal, chunks, active, rest)
      decreases |rest|
    {
      var range := rest[0];
      MergingStep(file, content, goal, chunks, active, rest);
      rest := rest[1..];
      var nextChars := JointChars(content, active, activeChars, range);
      if nextChars <= DESIRED_CHUNK_CHARS {
        active, activeChars := Range(active.start, range.end), nextChars;
      } else {
        chunks := PushByteChunk(file, content, starts, active, chunks);
        active := range;
        activeChars := SliceChars(content, range);
      }
    }
    MergingStep(file, content, goal, chunks, active, []);
    chunks := PushByteChunk(file, content, starts, active, chunks);
  }

  lemma SpanChunksStep(file: Source, content: Bytes, span: Range, rest: seq<Range>)
    requires Sliceable(content, span) && AllSliceable(content, rest)
    ensures AllSliceable(content, [span] + rest) && AllSliceable(content, [span])
    ensures SpanChunks(file, content, [span] + rest)
         == SpanChunk(file, content, span) + SpanChunks(file, content, rest)
    ensures rest == [] ==> SpanChunks(file, content, [span]) == SpanChunk(file, content, span)
  {
    assert ([span] + rest)[1..] == rest && [span] + [] == [span];
  }

  /** Ranges `i` to `j` span a small enough text. */
  function Fits(content: Bytes, ranges: seq<Range>): (nat, nat) -> bool {
    (i: nat, j: nat) =>
      i < j <= |ranges| && ranges[i].start <= ranges[j - 1].end <= |content|
      && Chars(content, Range(ranges[i].start, ranges[j - 1].end)) <= DESIRED_CHUNK_CHARS
  }

  /** The spans of consecutive groups. */
  function Spans(ranges: seq<Range>, i: nat, ends: seq<nat>): seq<Range>
    requires i <= |ranges|
    decreases |ends|
  {
    if ends == [] || !(i < ends[0] <= |ranges|) then []
    else [Range(ranges[i].start, ranges[ends[0] - 1].end)] + Spans(ranges, ends[0], ends[1..])
  }

  lemma {:induction false} OrderedAt(ranges: seq<Range>, lo: nat, hi: nat)
    requires Ordered(ranges, lo, hi)
    ensures lo <= hi
    ensures forall i | 0 <= i < |ranges| :: lo <= ranges[i].start < ranges[i].end <= hi
    ensures forall i, j | 0 <= i < j < |ranges| :: ranges[i].end <= ranges[j].start
  {
    if ranges != [] {
      OrderedAt(ranges[1..], ranges[0].end, hi);
    }
  }

  lemma FitsMonotone(content: Bytes, ranges: seq<Range>, lo: nat)
    requires Ordered(ranges, lo, |content|)
    ensures Monotone(|ranges|, Fits(content, ranges))
  {
    OrderedAt(ranges, lo, |content|);
    hide Ordered, Chars;
    var fits := Fits(content, ranges);
    forall i: nat, i': nat, j': nat, j: nat | i <= i' < j' <= j <= |ranges| && fits(i, j)
      ensures fits(i', j')
    {
      assert ranges[i].start <= ranges[i'].start <= ranges[j' - 1].end <= ranges[j - 1].end <= |content|;
      CharsPart(content, ranges[i].start, ranges[i'].start, ranges[j' - 1].end, ranges[j - 1].end);
    }
  }

  lemma OrderedInSequence(content: Bytes, ranges: seq<Range>, lo: nat, i: nat, j: nat)
    requires Ordered(ranges, lo, |content|) && AllSliceable(content, ranges) && i < j <= |ranges|
    ensures InSequence(content, Range(ranges[i].start, ranges[j - 1].end), ranges[j..])
  {
    OrderedAt(ranges, lo, |content|);
  }

  /** On ordered ranges merging is greedy grouping. */
  lemma {:induction false} MergeIsGreedy(content: Bytes, ranges: seq<Range>, lo: nat, i: nat, j: nat)
    requires Ordered(ranges, lo, |content|) && AllSliceable(content, ranges) && i < j <= |ranges|
    requires InSequence(content, Range(ranges[i].start, ranges[j - 1].end), ranges[j..])
    ensures MergeFrom(content, Range(ranges[i].start, ranges[j - 1].end), ranges[j..])
         == SpansFrom(content, ranges, i, GroupEnd(|ranges|, Fits(content, ranges), i, j))
    decreases |ranges| - j
  {
    hide Ordered, Chars, InSequence, AllSliceable, MergeFrom, GroupEnd, GreedyEnds, Spans, Fits;
    GroupEndStep(|ranges|, Fits(content, ranges), i, j);
    MergeStep(content, Range(ranges[i].start, ranges[j - 1].end), ranges[j..]);
    if j < |ranges| {
      assert ranges[j..][1..] == ranges[j + 1..];
      FitsAt(content, ranges, lo, i, j + 1);
      if Admissible(Fits(content, ranges), i, j + 1) {
        OrderedInSequence(content, ranges, lo, i, j + 1);
        MergeIsGreedy(content, ranges, lo, i, j + 1);
      } else {
        OrderedInSequence(content, ranges, lo, j, j + 1);
        MergeIsGreedy(content, ranges, lo, j, j + 1);
        SpansStep(content, ranges, j);
      }
    } else {
      SpansEnd(content, ranges);
    }
  }

  lemma GroupEndStep(n: nat, fits: (nat, nat) -> bool, i: nat, j: nat)
    requires i < j <= n
    ensures GroupEnd(n, fits, i, j) == if j < n && Admissible(fits, i, j + 1) then GroupEnd(n, fits, i, j + 1) else j
  {
  }

  lemma SequenceStep(content: Bytes, active: Range, rest: seq<Range>)
    requires InSequence(content, active, rest) && rest != []
    ensures Sliceable(content, rest[0]) && active.start <= rest[0].start <= rest[0].end <= |content|
    ensures InSequence(content, Range(active.start, rest[0].end), rest[1..])
    ensures InSequence(content, rest[0], rest[1..])
  {
    hide IsBoundary;
  }

  /** One iteration of merging. */
  lemma MergeStep(content: Bytes, active: Range, rest: seq<Range>)
    requires InSequence(content, active, rest)
    ensures active.start <= active.end <= |content| && Sliceable(content, active)
    ensures rest == [] ==> MergeFrom(content, active, rest) == [active]
    ensures rest != [] ==>
              var joint := Range(active.start, rest[0].end);
              && Sliceable(content, rest[0]) && active.start <= rest[0].start <= rest[0].end <= |content|
              && InSequence(content, joint, rest[1..]) && InSequence(content, rest[0], rest[1..])
              && MergeFrom(content, active, rest)
              == if Chars(content, joint) <= DESIRED_CHUNK_CHARS then MergeFrom(content, joint, rest[1..])
                 else [active] + MergeFrom(content, rest[0], rest[1..])
  {
    assert Sliceable(content, active);
    hide Chars, IsBoundary, InSequence;
    if rest != [] {
      SequenceStep(content, active, rest);
    }
  }

  lemma SpansStep(content: Bytes, ranges: seq<Range>, j: nat)
    requires j < |ranges|
    ensures Spans(ranges, j, GreedyEnds(|ranges|, Fits(content, ranges), j))
         == SpansFrom(content, ranges, j, GroupEnd(|ranges|, Fits(content, ranges), j, j + 1))
  {
    hide Fits;
    var end := GroupEnd(|ranges|, Fits(content, ranges), j, j + 1);
    var rest := GreedyEnds(|ranges|, Fits(content, ranges), end);
    assert ([end] + rest)[1..] == rest;
  }

  lemma SpansEnd(content: Bytes, ranges: seq<Range>)
    ensures Spans(ranges, |ranges|, GreedyEnds(|ranges|, Fits(content, ranges), |ranges|)) == []
  {
  }

  lemma FitsAt(content: Bytes, ranges: seq<Range>, lo: nat, i: nat, j: nat)
    requires Ordered(ranges, lo, |content|) && i < j <= |ranges| && i + 1 < j
    ensures ranges[i].start <= ranges[j - 1].end <= |content|
    ensures Admissible(Fits(content, ranges), i, j)
       <==> Chars(content, Range(ranges[i].start, ranges[j - 1].end)) <= DESIRED_CHUNK_CHARS
  {
    OrderedAt(ranges, lo, |content|);
  }

  /** The span of group `i` to `end`, then the greedy spans of the rest. */
  function SpansFrom(content: Bytes, ranges: seq<Range>, i: nat, end: nat): seq<Range>
    requires i < end <= |ranges|
  {
    [Range(ranges[i].start, ranges[end - 1].end)]
    + Spans(ranges, end, GreedyEnds(|ranges|, Fits(content, ranges), end))
  }

  predicate StartLe(a: Range, b: Range) {
    a.start <= b.start
  }

  /** Named top-level nodes of a parsed text, every range of which can be cut out. */
  predicate ParsedTree(content: Bytes, nodes: seq<Node>) {
    ValidText(content) && SliceableTrees(content, nodes) && NestedIn(nodes, 0, |content|)
  }

  lemma CollectedSorted(content: Bytes, nodes: seq<Node>)
    requires ParsedTree(content, nodes)
    ensures var ranges := CollectAll(content, nodes, 0);
            && Ordered(ranges, 0, |content|) && AllSliceable(content, ranges)
            && SortBy(StartLe, ranges) == ranges
            && (ranges != [] ==> InSequence(content, ranges[0], ranges[1..]))
  {
    var ranges := CollectAll(content, nodes, 0);
    CollectAllOrdered(content, nodes, 0, 0, |content|);
    CollectAllSliceable(content, nodes, 0);
    OrderedAt(ranges, 0, |content|);
    SortOfSorted(StartLe, ranges);
    if ranges != [] {
      OrderedInSequence(content, ranges, 0, 0, 1);
    }
  }

  lemma {:induction false} CollectSliceable(content: Bytes, node: Node, depth: nat)
    requires SliceableTree(content, node)
    ensures AllSliceable(content, Collect(content, node, depth))
    decreases node, 1
  {
    if Collect(content, node, depth) != [node.range] && Collect(content, node, depth) != [] {
      CollectAllSliceable(content, node.named, depth + 1);
    }
  }

  lemma {:induction false} CollectAllSliceable(content: Bytes, nodes: seq<Node>, depth: nat)
    requires SliceableTrees(content, nodes)
    ensures AllSliceable(content, CollectAll(content, nodes, depth))
    decreases nodes, 0
  {
    if nodes != [] {
      CollectSliceable(content, nodes[0], depth);
      CollectAllSliceable(content, nodes[1..], depth);
    }
  }

  /** The spans cut out of a parsed text. */
  function AstSpans(content: Bytes, nodes: seq<Node>): (spans: seq<Range>)
    requires ParsedTree(content, nodes)
    ensures AllSliceable(content, spans)
  {
    var ranges := CollectAll(content, nodes, 0);
    CollectedSorted(content, nodes);
    if ranges == [] then [] else MergeFrom(content, ranges[0], ranges[1..])
  }

  /** `chunk_by_ast` after a parse without errors. */
  method ChunkByAst(file: Source, content: Bytes, nodes: seq<Node>) returns (chunks: seq<Chunk>)
    requires ParsedTree(content, nodes)
    ensures chunks == SpanChunks(file, content, AstSpans(content, nodes))
  {
    var ranges := CollectChildren(content, nodes, 0, []);
    assert ranges == CollectAll(content, nodes, 0);
    CollectedSorted(content, nodes);
    hide CollectAll, InSequence, Ordered, AllSliceable, MergeFrom, SpanChunks;
    ranges := SortBy(StartLe, ranges);
    chunks := MergeRanges(file, content, ranges);
  }

  lemma {:induction false} SpansOrdered(content: Bytes, ranges: seq<Range>, i: nat, ends: seq<nat>, lo: nat)
    requires Ordered(ranges, 0, |content|) && Grouping(|ranges|, Fits(content, ranges), i, ends)
    requires i <= |ranges| && lo <= |content| && (i < |ranges| ==> lo <= ranges[i].start)
    ensures Ordered(Spans(ranges, i, ends), lo, |content|)
    ensures |Spans(ranges, i, ends)| == |ends|
    decreases |ends|
  {
    OrderedAt(ranges, 0, |content|);
    hide Ordered, Fits;
    if ends != [] {
      SpansOrdered(content, ranges, ends[0], ends[1..], ranges[ends[0] - 1].end);
      OrderedCons(Range(ranges[i].start, ranges[ends[0] - 1].end), Spans(ranges, ends[0], ends[1..]), lo, |content|);
    } else {
      OrderedNil(lo, |content|);
    }
  }

  lemma OrderedNil(lo: nat, hi: nat)
    requires lo <= hi
    ensures Ordered([], lo, hi)
  {
  }

  lemma OrderedCons(r: Range, rest: seq<Range>, lo: nat, hi: nat)
    requires lo <= r.start < r.end && Ordered(rest, r.end, hi)
    ensures Ordered([r] + rest, lo, hi)
  {
    assert ([r] + rest)[1..] == rest;
  }

  /** Every grouped range lies inside the span of its group. */
  lemma {:induction false} RangeInSpan(content: Bytes, ranges: seq<Range>, i: nat, ends: seq<nat>, k: nat)
    returns (m: nat)
    requires Ordered(ranges, 0, |content|) && Grouping(|ranges|, Fits(content, ranges), i, ends)
    requires i <= k < |ranges|
    ensures m < |Spans(ranges, i, ends)| && Inside(ranges[k], Spans(ranges, i, ends)[m])
    decreases |ends|
  {
    OrderedAt(ranges, 0, |content|);
    if k < ends[0] {
      m := 0;
    } else {
      m := RangeInSpan(content, ranges, ends[0], ends[1..], k);
      m := m + 1;
    }
  }

  /** `index` is the only span that contains the range. */
  ghost predicate OnlySpan(spans: seq<Range>, r: Range, index: nat) {
    && index < |spans| && Inside(r, spans[index])
    && forall j | 0 <= j < |spans| && Inside(r, spans[j]) :: j == index
  }

  /**
   For every well-formed tree: the spans are sorted and disjoint; they are consecutive groups of the
   collected ranges, each a single range or at most 1500 characters; no such grouping has fewer
   groups; and every nonempty named leaf lies in exactly one span.
   */
  lemma AstSpansAreBest(content: Bytes, nodes: seq<Node>)
    requires ParsedTree(content, nodes)
    ensures var ranges := CollectAll(content, nodes, 0);
            var fits := Fits(content, ranges);
            var spans := AstSpans(content, nodes);
            && Ordered(spans, 0, |content|)
            && (exists ends :: Grouping(|ranges|, fits, 0, ends) && spans == Spans(ranges, 0, ends))
            && (forall ends | Grouping(|ranges|, fits, 0, ends) :: |spans| <= |ends|)
            && forall leaf | leaf in Leaves(nodes) :: exists index :: OnlySpan(spans, leaf, index)
  {
    var ranges := CollectAll(content, nodes, 0);
    var fits := Fits(content, ranges);
    var ends := GreedyEnds(|ranges|, fits, 0);
    CollectedSorted(content, nodes);
    FitsMonotone(content, ranges, 0);
    GreedyIsGrouping(|ranges|, fits, 0);
    AstSpansGreedy(content, nodes);
    SpansOrdered(content, ranges, 0, ends, 0);
    var spans := AstSpans(content, nodes);
    hide AstSpans, Fits, Ordered, GreedyEnds, CollectAll, AllSliceable, InSequence, ParsedTree;
    forall other | Grouping(|ranges|, fits, 0, other)
      ensures |spans| <= |other|
    {
      GreedyIsMinimal(|ranges|, fits, 0, other);
    }
    forall leaf | leaf in Leaves(nodes)
      ensures exists index :: OnlySpan(spans, leaf, index)
    {
      LeafInOneSpan(content, nodes, leaf, ends);
    }
  }

  lemma AstSpansGreedy(content: Bytes, nodes: seq<Node>)
    requires ParsedTree(content, nodes)
    ensures var ranges := CollectAll(content, nodes, 0);
            AstSpans(content, nodes) == Spans(ranges, 0, GreedyEnds(|ranges|, Fits(content, ranges), 0))
  {
    var ranges := CollectAll(content, nodes, 0);
    CollectedSorted(content, nodes);
    hide Fits;
    if ranges != [] {
      MergeIsGreedy(content, ranges, 0, 0, 1);
      SpansStep(content, ranges, 0);
    } else {
      SpansEnd(content, ranges);
    }
  }

  /** Each span has at most 1500 characters or is one range, and no two neighbours have as few together. */
  ghost predicate WellCut(content: Bytes, ranges: seq<Range>, spans: seq<Range>) {
    && (forall k | 0 <= k < |spans| ::
          spans[k].start <= spans[k].end <= |content|
          && (CharCount(content[spans[k].start..spans[k].end]) <= 1500 || spans[k] in ranges))
    && forall k | 0 < k < |spans| ::
         spans[k - 1].start <= spans[k].end && CharCount(content[spans[k - 1].start..spans[k].end]) > 1500
  }

  lemma WellCutCons(content: Bytes, ranges: seq<Range>, first: Range, rest: seq<Range>)
    requires WellCut(content, ranges, rest) && first.start <= first.end <= |content|
    requires CharCount(content[first.start..first.end]) <= 1500 || first in ranges
    requires rest != [] ==> first.start <= rest[0].end && CharCount(content[first.start..rest[0].end]) > 1500
    ensures WellCut(content, ranges, [first] + rest)
  {
    var spans := [first] + rest;
    assert forall k | 0 < k < |spans| :: spans[k] == rest[k - 1];
  }

  lemma GroupSize(content: Bytes, ranges: seq<Range>, i: nat, end: nat)
    requires Ordered(ranges, 0, |content|) && i < end <= |ranges| && Admissible(Fits(content, ranges), i, end)
    ensures var first := Range(ranges[i].start, ranges[end - 1].end);
            && first.start <= first.end <= |content|
            && (CharCount(content[first.start..first.end]) <= 1500 || first in ranges)
  {
    OrderedAt(ranges, 0, |content|);
  }

  lemma TooLargeTogether(content: Bytes, ranges: seq<Range>, i: nat, end: nat, next: nat)
    requires Ordered(ranges, 0, |content|) && i < end < next <= |ranges| && !Fits(content, ranges)(i, end + 1)
    ensures ranges[i].start <= ranges[next - 1].end <= |content|
    ensures CharCount(content[ranges[i].start..ranges[next - 1].end]) > 1500
  {
    OrderedAt(ranges, 0, |content|);
    hide Ordered;
    assert Chars(content, Range(ranges[i].start, ranges[end].end)) > 1500;
    CharsPart(content, ranges[i].start, ranges[i].start, ranges[end].end, ranges[next - 1].end);
  }

  /** The first group of several. */
  lemma FirstGroup(n: nat, fits: (nat, nat) -> bool, i: nat, ends: seq<nat>)
    requires Grouping(n, fits, i, ends) && Full(n, fits, i, ends) && ends != []
    ensures i < ends[0] <= n && Admissible(fits, i, ends[0]) && Grouping(n, fits, ends[0], ends[1..])
    ensures Full(n, fits, ends[0], ends[1..]) && (ends[0] < n ==> !fits(i, ends[0] + 1))
    ensures |ends| > 1 ==> ends[0] < ends[1] <= n
  {
    assert |ends| > 1 ==> ends[1..][0] == ends[1];
    hide Admissible;
  }

  lemma FirstSpan(ranges: seq<Range>, i: nat, ends: seq<nat>)
    requires ends != [] && i < ends[0] <= |ranges| && (|ends| > 1 ==> ends[0] < ends[1] <= |ranges|)
    ensures var rest := Spans(ranges, ends[0], ends[1..]);
            && Spans(ranges, i, ends) == [Range(ranges[i].start, ranges[ends[0] - 1].end)] + rest
            && (rest != [] ==> |ends| > 1 && rest[0] == Range(ranges[ends[0]].start, ranges[ends[1] - 1].end))
  {
    if |ends| > 1 {
      assert ends[1..][0] == ends[1];
      assert Spans(ranges, ends[0], ends[1..])
          == [Range(ranges[ends[0]].start, ranges[ends[1] - 1].end)] + Spans(ranges, ends[1], ends[1..][1..]);
    } else {
      assert ends[1..] == [];
    }
  }

  lemma FirstSpanCut(content: Bytes, ranges: seq<Range>, i: nat, ends: seq<nat>)
    requires Ordered(ranges, 0, |content|) && ends != []
    requires Grouping(|ranges|, Fits(content, ranges), i, ends) && Full(|ranges|, Fits(content, ranges), i, ends)
    requires ends[0] <= |ranges| && WellCut(content, ranges, Spans(ranges, ends[0], ends[1..]))
    ensures i <= |ranges| && WellCut(content, ranges, Spans(ranges, i, ends))
  {
    hide *;
    FirstGroup(|ranges|, Fits(content, ranges), i, ends);
    FirstSpan(ranges, i, ends);
    GroupSize(content, ranges, i, ends[0]);
    var rest := Spans(ranges, ends[0], ends[1..]);
    if rest != [] {
      TooLargeTogether(content, ranges, i, ends[0], ends[1]);
    }
    WellCutCons(content, ranges, Range(ranges[i].start, ranges[ends[0] - 1].end), rest);
  }

  lemma {:induction false} GroupsWellCut(content: Bytes, ranges: seq<Range>, i: nat, ends: seq<nat>)
    requires Ordered(ranges, 0, |content|) && i <= |ranges|
    requires Grouping(|ranges|, Fits(content, ranges), i, ends) && Full(|ranges|, Fits(content, ranges), i, ends)
    ensures WellCut(content, ranges, Spans(ranges, i, ends))
    decreases |ends|
  {
    if ends != [] {
      hide *;
      FirstGroup(|ranges|, Fits(content, ranges), i, ends);
      GroupsWellCut(content, ranges, ends[0], ends[1..]);
      FirstSpanCut(content, ranges, i, ends);
    }
  }

  /**
   How large spans are: at most 1500 characters, unless a span is a single node without named children or at
   depth 500; and two neighbours together always have more.
   */
  lemma SpanSizes(content: Bytes, nodes: seq<Node>)
    requires ParsedTree(content, nodes)
    ensures var spans := AstSpans(content, nodes);
            && WellCut(content, CollectAll(content, nodes, 0), spans)
            && forall span | span in spans && CharCount(content[span.start..span.end]) > 1500 ::
                 exists path :: LargeAt(content, nodes, path) && NodeAt(nodes, path).range == span
  {
    var ranges, spans := CollectAll(content, nodes, 0), AstSpans(content, nodes);
    CollectedSorted(content, nodes);
    FitsMonotone(content, ranges, 0);
    GreedyIsGrouping(|ranges|, Fits(content, ranges), 0);
    GreedyIsFull(|ranges|, Fits(content, ranges), 0);
    AstSpansGreedy(content, nodes);
    GroupsWellCut(content, ranges, 0, GreedyEnds(|ranges|, Fits(content, ranges), 0));
    hide AstSpans, CollectAll, GreedyEnds, Spans, Fits, TakenAt, NodeAt, ValidPath;
    forall span | span in spans && CharCount(content[span.start..span.end]) > 1500
      ensures exists path :: LargeAt(content, nodes, path) && NodeAt(nodes, path).range == span
    {
      CollectedIff(content, nodes, span);
      var path :| TakenAt(content, nodes, path) && NodeAt(nodes, path).range == span;
      TakenLarge(content, nodes, path);
    }
  }

  /** A node taken although it has more than 1500 characters. */
  predicate LargeAt(content: Bytes, nodes: seq<Node>, path: seq<nat>) {
    TakenAt(content, nodes, path) && (NodeAt(nodes, path).named == [] || |path| - 1 == 500)
  }

  lemma TakenLarge(content: Bytes, nodes: seq<Node>, path: seq<nat>)
    requires TakenAt(content, nodes, path)
    requires var r := NodeAt(nodes, path).range; r.end <= |content| && CharCount(content[r.start..r.end]) > 1500
    ensures LargeAt(content, nodes, path)
  {
  }

  /** A nonempty range inside one of several disjoint spans is inside no other. */
  lemma OrderedContainOnce(spans: seq<Range>, lo: nat, hi: nat, r: Range, m: nat)
    requires Ordered(spans, lo, hi) && r.start < r.end && m < |spans| && Inside(r, spans[m])
    ensures OnlySpan(spans, r, m)
  {
    OrderedAt(spans, lo, hi);
  }

  lemma LeafInOneSpan(content: Bytes, nodes: seq<Node>, leaf: Range, ends: seq<nat>)
    requires ParsedTree(content, nodes) && leaf in Leaves(nodes)
    requires var ranges := CollectAll(content, nodes, 0);
             && Grouping(|ranges|, Fits(content, ranges), 0, ends)
             && AstSpans(content, nodes) == Spans(ranges, 0, ends)
             && Ordered(AstSpans(content, nodes), 0, |content|)
    ensures exists index :: OnlySpan(AstSpans(content, nodes), leaf, index)
  {
    CollectedSorted(content, nodes);
    hide AstSpans, CollectAll, Leaves, AllSliceable, InSequence, Ordered, SliceableTrees, NestedIn;
    hide Fits, Spans, Grouping, ValidText;
    LeavesInside(nodes, 0, |content|, leaf);
    var r := LeafCollected(content, nodes, 0, 0, |content|, leaf);
    var ranges := CollectAll(content, nodes, 0);
    var k :| 0 <= k < |ranges| && ranges[k] == r;
    var m := RangeInSpan(content, ranges, 0, ends, k);
    OrderedContainOnce(AstSpans(content, nodes), 0, |content|, leaf, m);
  }

  /** The first newline, or the length. */
  function FirstNewline(s: Bytes): (at: nat)
    ensures at <= |s| && (at < |s| ==> s[at] == NEWLINE)
    ensures forall i | 0 <= i < at :: s[i] != NEWLINE
  {
    if s == [] || s[0] == NEWLINE then 0 else 1 + FirstNewline(s[1..])
  }

  const CARRIAGE_RETURN: Byte := 13

  /** `str::lines`: newline-terminated pieces without their ending, and a final unterminated piece. */
  function LinesOf(s: Bytes): seq<Bytes>
    decreases |s|
  {
    if s == [] then []
    else
      var at := FirstNewline(s);
      if at == |s| then [s]
      else
        [if at > 0 && s[at - 1] == CARRIAGE_RETURN then s[..at - 1] else s[..at]] + LinesOf(s[at + 1..])
  }

  /** A text may be cut before and after a newline, and before a carriage return. */
  lemma LineCut(s: Bytes, at: nat)
    requires ValidText(s) && at < |s| && s[at] == NEWLINE
    ensures ValidText(s[..at]) && ValidText(s[at + 1..])
    ensures at > 0 && s[at - 1] == CARRIAGE_RETURN ==> ValidText(s[..at - 1])
  {
    BoundarySplits(s, at);
    assert s[at..][1..] == s[at + 1..] && Scan(s[at..]) == Complete(1);
    if at > 0 && s[at - 1] == CARRIAGE_RETURN {
      BoundarySplits(s, at - 1);
    }
  }

  lemma {:induction false} LinesValid(s: Bytes)
    requires ValidText(s)
    ensures forall i | 0 <= i < |LinesOf(s)| :: ValidText(LinesOf(s)[i])
    decreases |s|
  {
    if s != [] {
      var at := FirstNewline(s);
      if at < |s| {
        LineCut(s, at);
        hide ValidText;
        LinesValid(s[at + 1..]);
      } else {
        assert LinesOf(s) == [s];
      }
    }
  }

  /** Characters of lines `i` to `j`, each with its newline. */
  function LineCost(lines: seq<Bytes>, i: nat, j: nat): nat
    requires i <= j <= |lines|
    decreases j - i
  {
    if i == j then 0 else LineCost(lines, i, j - 1) + CharCount(lines[j - 1]) + 1
  }

  /** A text with one more line and its newline. */
  function WithLine(current: Bytes, line: Bytes): Bytes {
    current + line + [NEWLINE]
  }

  /** The text of lines `i` to `j`. */
  function Joined(lines: seq<Bytes>, i: nat, j: nat): Bytes
    requires i <= j <= |lines|
    decreases j - i
  {
    if i == j then [] else WithLine(Joined(lines, i, j - 1), lines[j - 1])
  }

  /** Lines with a newline after each. */
  function Terminated(lines: seq<Bytes>): seq<Bytes> {
    seq(|lines|, k requires 0 <= k < |lines| => lines[k] + [10])
  }

  lemma {:induction false} JoinedIs(lines: seq<Bytes>, i: nat, j: nat)
    requires i <= j <= |lines|
    ensures Joined(lines, i, j) == Concat(Terminated(lines[i..j]))
    decreases j - i
  {
    if i < j {
      var front, last := lines[i..j - 1], lines[j - 1];
      JoinedIs(lines, i, j - 1);
      assert Terminated(lines[i..j]) == Terminated(front) + [last + [10]];
      ConcatOne(Terminated(front), last + [10]);
      Reassociate(Concat(Terminated(front)), last, [10]);
    }
  }

  /** The two line endings. */
  predicate IsEnding(line: Bytes, ending: Bytes) {
    && 10 !in line
    && (ending == [13, 10] || (ending == [10] && (line == [] || line[|line| - 1] != 13)))
  }

  function WithEndings(lines: seq<Bytes>, endings: seq<Bytes>): Bytes
    requires |lines| == |endings|
  {
    if lines == [] then [] else lines[0] + endings[0] + WithEndings(lines[1..], endings[1..])
  }

  lemma FirstLine(line: Bytes, ending: Bytes, rest: Bytes)
    requires IsEnding(line, ending)
    ensures LinesOf(line + ending + rest) == [line] + LinesOf(rest)
  {
    var s := line + ending + rest;
    var at := |line| + |ending| - 1;
    assert s[at] == 10;
    forall i | 0 <= i < at
      ensures s[i] != 10
    {
      assert i < |line| ==> s[i] == line[i];
    }
    assert FirstNewline(s) == at;
    assert s[at + 1..] == rest;
    if |ending| == 2 {
      assert s[at - 1] == 13 && s[..at - 1] == line;
    } else {
      assert s[..at] == line && (at > 0 ==> s[at - 1] == line[at - 1]);
    }
  }

  /** Lines are what stands between the endings LF and CR LF, with a last line that has none. */
  lemma {:induction false} LinesBetweenEndings(lines: seq<Bytes>, endings: seq<Bytes>, tail: Bytes)
    requires |lines| == |endings| && forall i | 0 <= i < |lines| :: IsEnding(lines[i], endings[i])
    requires 10 !in tail
    ensures LinesOf(WithEndings(lines, endings) + tail) == lines + if tail == [] then [] else [tail]
  {
    if lines == [] {
      assert [] + tail == tail;
      if tail != [] {
        assert FirstNewline(tail) == |tail|;
      }
    } else {
      var rest := WithEndings(lines[1..], endings[1..]);
      LinesBetweenEndings(lines[1..], endings[1..], tail);
      FirstLine(lines[0], endings[0], rest + tail);
      Reassociate(lines[0] + endings[0], rest, tail);
      assert lines == [lines[0]] + lines[1..];
      hide LinesOf, WithEndings;
      Reassociate([lines[0]], lines[1..], if tail == [] then [] else [tail]);
    }
  }

  function LineFits(lines: seq<Bytes>): (nat, nat) -> bool {
    (i: nat, j: nat) => i <= j <= |lines| && LineCost(lines, i, j) <= DESIRED_CHUNK_CHARS
  }

  lemma {:induction false} LineCostPart(lines: seq<Bytes>, i: nat, i': nat, j': nat, j: nat)
    requires i <= i' <= j' <= j <= |lines|
    ensures LineCost(lines, i', j') <= LineCost(lines, i, j)
    decreases j - i
  {
    if j' < j {
      LineCostPart(lines, i, i', j', j - 1);
    } else if i < i' < j {
      LineCostPart(lines, i, i', j - 1, j - 1);
    }
  }

  lemma LineFitsMonotone(lines: seq<Bytes>)
    ensures Monotone(|lines|, LineFits(lines))
  {
    forall i: nat, i': nat, j': nat, j: nat | i <= i' < j' <= j <= |lines| && LineFits(lines)(i, j)
      ensures LineFits(lines)(i', j')
    {
      LineCostPart(lines, i, i', j', j);
    }
  }

  /** The chunk of lines `i` to `j`. */
  function LineChunk(file: Source, lines: seq<Bytes>, i: nat, j: nat): Chunk
    requires i <= j <= |lines|
  {
    Chunk(file.trimEnd(Joined(lines, i, j)), file.path, i + 1, j, file.language)
  }

  /** The chunks of line groups; only the last group is dropped when it is blank. */
  function LineChunks(file: Source, lines: seq<Bytes>, i: nat, ends: seq<nat>): seq<Chunk>
    requires i <= |lines|
    decreases |ends|
  {
    if ends == [] || !(i < ends[0] <= |lines|) then []
    else if |ends| == 1 && file.trim(Joined(lines, i, ends[0])) == [] then []
    else [LineChunk(file, lines, i, ends[0])] + LineChunks(file, lines, ends[0], ends[1..])
  }

  /** The line chunks of a text: its lines in greedy groups. */
  function AllLineChunks(file: Source, lines: seq<Bytes>): seq<Chunk> {
    LineChunks(file, lines, 0, GreedyEnds(|lines|, LineFits(lines), 0))
  }

  /** The chunks still to come when the current chunk began at line `i` and has lines up to `j`. */
  function LineChunksFrom(file: Source, lines: seq<Bytes>, i: nat, j: nat): seq<Chunk>
    requires i < j <= |lines|
  {
    var end := GroupEnd(|lines|, LineFits(lines), i, j);
    LineChunks(file, lines, i, [end] + GreedyEnds(|lines|, LineFits(lines), end))
  }

  lemma LineChunksStep(file: Source, lines: seq<Bytes>, i: nat, j: nat)
    requires i < j < |lines|
    ensures LineChunksFrom(file, lines, i, j)
         == if LineCost(lines, i, j + 1) <= DESIRED_CHUNK_CHARS then LineChunksFrom(file, lines, i, j + 1)
            else [LineChunk(file, lines, i, j)] + LineChunksFrom(file, lines, j, j + 1)
  {
    var fits := LineFits(lines);
    GroupEndStep(|lines|, fits, i, j);
    if LineCost(lines, i, j + 1) > DESIRED_CHUNK_CHARS {
      var end := GroupEnd(|lines|, fits, j, j + 1);
      var ends := [j] + GreedyEnds(|lines|, fits, j);
      assert GreedyEnds(|lines|, fits, j) == [end] + GreedyEnds(|lines|, fits, end);
      assert |ends| > 1 && ends[1..] == GreedyEnds(|lines|, fits, j);
      hide GreedyEnds, GroupEnd, LineCost, Joined, LineFits;
    }
  }

  lemma LineChunksLast(file: Source, lines: seq<Bytes>, i: nat)
    requires i < |lines|
    ensures LineChunksFrom(file, lines, i, |lines|)
         == if file.trim(Joined(lines, i, |lines|)) == [] then [] else [LineChunk(file, lines, i, |lines|)]
  {
    var n, fits := |lines|, LineFits(lines);
    GroupEndStep(n, fits, i, n);
    assert GreedyEnds(n, fits, n) == [];
    hide Joined, LineCost, LineFits, GreedyEnds, GroupEnd;
    assert [n] + [] == [n];
    assert LineChunksFrom(file, lines, i, n) == LineChunks(file, lines, i, [n]);
    LineChunksOne(file, lines, i);
  }

  lemma LineChunksOne(file: Source, lines: seq<Bytes>, i: nat)
    requires i < |lines|
    ensures LineChunks(file, lines, i, [|lines|])
         == if file.trim(Joined(lines, i, |lines|)) == [] then [] else [LineChunk(file, lines, i, |lines|)]
  {
    hide Joined, LineCost;
    var n := |lines|;
    assert [n][1..] == [];
    assert LineChunks(file, lines, n, []) == [];
  }

  lemma LineChunksStart(file: Source, lines: seq<Bytes>)
    requires lines != []
    ensures LineChunksFrom(file, lines, 0, 1) == AllLineChunks(file, lines)
  {
    hide Joined, LineCost, LineFits, LineChunks;
  }

  /** The chunk begun at a line, its text so far, and that text's characters counting newlines. */
  predicate Gathered(lines: seq<Bytes>, startLine: nat, k: nat, current: Bytes, currentChars: nat) {
    && 1 <= startLine <= k + 1 && k <= |lines|
    && current == Joined(lines, startLine - 1, k) && currentChars == LineCost(lines, startLine - 1, k)
    && (current == [] <==> startLine == k + 1)
  }

  /** `push_line_chunk`. */
  function PushLineChunk(file: Source, chunks: seq<Chunk>, current: Bytes, startLine: nat, endLine: nat): seq<Chunk> {
    chunks + [Chunk(file.trimEnd(current), file.path, startLine, endLine, file.language)]
  }

  lemma NothingGathered(file: Source, lines: seq<Bytes>)
    ensures Gathered(lines, 1, 0, [], 0) && Pushed(file, lines, [], 1, 0)
  {
  }

  /** One line: it joins the current text, or the current text is pushed and the line begins the next. */
  lemma LineStep(
    file: Source, lines: seq<Bytes>, chunks: seq<Chunk>, startLine: nat, k: nat, current: Bytes, currentChars: nat)
    requires Gathered(lines, startLine, k, current, currentChars) && k < |lines|
    requires Pushed(file, lines, chunks, startLine, k)
    ensures var nextLen := currentChars + CharCount(lines[k]) + 1;
            if current != [] && nextLen > DESIRED_CHUNK_CHARS
            then
              && Gathered(lines, k + 1, k + 1, WithLine([], lines[k]), CharCount(lines[k]) + 1)
              && Pushed(file, lines, PushLineChunk(file, chunks, current, startLine, k), k + 1, k + 1)
            else
              && Gathered(lines, startLine, k + 1, WithLine(current, lines[k]), nextLen)
              && Pushed(file, lines, chunks, startLine, k + 1)
  {
    assert 1 <= startLine <= k + 1 && (current == [] <==> k == 0);
    assert PushLineChunk(file, chunks, current, startLine, k) == chunks + [LineChunk(file, lines, startLine - 1, k)];
    hide *;
    GatherLine(lines, startLine, k, current, currentChars);
    PushedStep(file, lines, chunks, startLine, k);
    GatherLine(lines, k + 1, k, [], 0);
  }

  lemma GatherLine(lines: seq<Bytes>, startLine: nat, k: nat, current: Bytes, currentChars: nat)
    requires Gathered(lines, startLine, k, current, currentChars) && k < |lines|
    ensures Gathered(lines, startLine, k + 1, WithLine(current, lines[k]),
              currentChars + CharCount(lines[k]) + 1)
    ensures LineCost(lines, startLine - 1, k + 1) == currentChars + CharCount(lines[k]) + 1
    ensures Gathered(lines, k + 1, k, [], 0)
  {
    hide CharCount;
  }

  /** What is pushed so far and what is still to come make up all line chunks. */
  ghost predicate Pushed(file: Source, lines: seq<Bytes>, chunks: seq<Chunk>, startLine: nat, k: nat) {
    if k == 0 then startLine == 1 && chunks == []
    else
      && 1 <= startLine <= k <= |lines|
      && AllLineChunks(file, lines) == chunks + LineChunksFrom(file, lines, startLine - 1, k)
  }

  lemma PushedStep(file: Source, lines: seq<Bytes>, chunks: seq<Chunk>, startLine: nat, k: nat)
    requires 1 <= startLine <= k + 1 && k < |lines| && Pushed(file, lines, chunks, startLine, k)
    ensures k > 0 && LineCost(lines, startLine - 1, k + 1) > DESIRED_CHUNK_CHARS
       ==> Pushed(file, lines, chunks + [LineChunk(file, lines, startLine - 1, k)], k + 1, k + 1)
    ensures !(k > 0 && LineCost(lines, startLine - 1, k + 1) > DESIRED_CHUNK_CHARS)
       ==> Pushed(file, lines, chunks, startLine, k + 1)
  {
    hide LineCost, LineChunk, LineChunksFrom, AllLineChunks;
    if k == 0 {
      LineChunksStart(file, lines);
    } else {
      LineChunksStep(file, lines, startLine - 1, k);
    }
  }

  /** `chunk_by_lines`. */
  method ChunkByLines(file: Source, content: Bytes) returns (chunks: seq<Chunk>)
    requires ValidText(content) && file.trim([]) == []
    ensures chunks == AllLineChunks(file, LinesOf(content))
  {
    hide *;
    var lines := LinesOf(content);
    LinesValid(content);
    NothingGathered(file, lines);
    chunks := [];
    var current: Bytes := [];
    var currentChars: nat, startLine: nat, currentLine: nat := 0, 1, 1;
    for k := 0 to |lines|
      invariant currentLine == k + 1
      invariant Gathered(lines, startLine, k, current, currentChars)
      invariant Pushed(file, lines, chunks, startLine, k)
    {
      var lineChars := CountChars(lines[k]);
      var nextLen := currentChars + lineChars + 1;
      LineStep(file, lines, chunks, startLine, k, current, currentChars);
      if current != [] && nextLen > DESIRED_CHUNK_CHARS {
        chunks := PushLineChunk(file, chunks, current, startLine, currentLine - 1);
        current := [];
        currentChars := 0;
        startLine := currentLine;
      }
      current := WithLine(current, lines[k]);
      currentChars := currentChars + lineChars + 1;
      currentLine := currentLine + 1;
    }
    chunks := FlushLines(file, lines, chunks, current, currentChars, startLine);
  }

  /** The last push of `chunk_by_lines`: the rest, unless it is blank. */
  method FlushLines(
    file: Source, lines: seq<Bytes>, chunks: seq<Chunk>, current: Bytes, ghost currentChars: nat, startLine: nat)
    returns (all: seq<Chunk>)
    requires file.trim([]) == []
    requires Gathered(lines, startLine, |lines|, current, currentChars)
    requires Pushed(file, lines, chunks, startLine, |lines|)
    ensures all == AllLineChunks(file, lines)
  {
    if lines != [] {
      LastPush(file, lines, chunks, current, currentChars, startLine);
    }
    all := chunks;
    if file.trim(current) != [] {
      all := PushLineChunk(file, chunks, current, startLine, |lines|);
    }
  }

  lemma LastPush(file: Source, lines: seq<Bytes>, chunks: seq<Chunk>, current: Bytes, currentChars: nat, startLine: nat)
    requires lines != [] && Gathered(lines, startLine, |lines|, current, currentChars)
    requires Pushed(file, lines, chunks, startLine, |lines|)
    ensures startLine <= |lines|
    ensures AllLineChunks(file, lines)
         == if file.trim(current) == [] then chunks
            else chunks + [LineChunk(file, lines, startLine - 1, |lines|)]
  {
    LineChunksLast(file, lines, startLine - 1);
  }

  /** Consecutive line intervals from line `i + 1` on, each chunk the right-trimmed text of exactly its lines. */
  ghost predicate CoversLines(file: Source, lines: seq<Bytes>, i: nat, chunks: seq<Chunk>)
    requires i <= |lines|
    decreases |chunks|
  {
    if chunks == [] then i == |lines| || file.trim(Joined(lines, i, |lines|)) == []
    else
      var j := chunks[0].endLine;
      && i < j <= |lines| && chunks[0] == LineChunk(file, lines, i, j)
      && (j == i + 1 || LineCost(lines, i, j) <= 1500) && (j < |lines| ==> LineCost(lines, i, j + 1) > 1500)
      && CoversLines(file, lines, j, chunks[1..])
  }

  lemma {:induction false} LineChunksCover(file: Source, lines: seq<Bytes>, i: nat, ends: seq<nat>)
    requires i <= |lines| && Grouping(|lines|, LineFits(lines), i, ends) && Full(|lines|, LineFits(lines), i, ends)
    ensures CoversLines(file, lines, i, LineChunks(file, lines, i, ends))
    ensures |ends| - 1 <= |LineChunks(file, lines, i, ends)| <= |ends|
    decreases |ends|
  {
    if ends != [] {
      LineChunksCover(file, lines, ends[0], ends[1..]);
      if |ends| == 1 {
        assert ends[1..] == [] && ends[0] == |lines|;
      }
      var rest := LineChunks(file, lines, ends[0], ends[1..]);
      assert ([LineChunk(file, lines, i, ends[0])] + rest)[1..] == rest;
    }
  }

  /**
   The line chunks are contiguous intervals from line 1 that cover every line except a blank trailing
   group; each is one line or at most 1500 characters counting newlines; and no such grouping of the
   lines has fewer groups than they came from.
   */
  lemma LineChunksAreBest(file: Source, content: Bytes)
    ensures var lines := LinesOf(content);
            var ends := GreedyEnds(|lines|, LineFits(lines), 0);
            var chunks := AllLineChunks(file, lines);
            && CoversLines(file, lines, 0, chunks)
            && |ends| - 1 <= |chunks| <= |ends|
            && forall other | Grouping(|lines|, LineFits(lines), 0, other) :: |ends| <= |other|
  {
    var lines := LinesOf(content);
    var fits := LineFits(lines);
    LineFitsMonotone(lines);
    GreedyIsGrouping(|lines|, fits, 0);
    GreedyIsFull(|lines|, fits, 0);
    LineChunksCover(file, lines, 0, GreedyEnds(|lines|, fits, 0));
    hide LineFits, GreedyEnds, LineChunks, CoversLines;
    forall other | Grouping(|lines|, fits, 0, other)
      ensures |GreedyEnds(|lines|, fits, 0)| <= |other|
    {
      GreedyIsMinimal(|lines|, fits, 0, other);
    }
  }

  /** `chunk_file`: tree chunks where there are any, line chunks otherwise. */
  method ChunkFile(file: Source, content: Bytes, tree: Option<seq<Node>>) returns (chunks: seq<Chunk>)
    requires ValidText(content) && file.trim([]) == []
    requires tree.Some? ==> ParsedTree(content, tree.value)
    ensures chunks == if tree.Some? && SpanChunks(file, content, AstSpans(content, tree.value)) != []
                      then SpanChunks(file, content, AstSpans(content, tree.value))
                      else AllLineChunks(file, LinesOf(content))
  {
    if tree.Some? {
      chunks := ChunkByAst(file, content, tree.value);
      if chunks != [] {
        return;
      }
    }
    chunks := ChunkByLines(file, content);
  }
}
