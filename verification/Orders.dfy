/** Comparators, lexicographic order, and sorting as the standard library's stable `sort_by` defines it. */
module Orders {

  datatype Ordering = Less | Equal | Greater {
    function Reverse(): Ordering {
      match this
      case Less => Greater
      case Equal => Equal
      case Greater => Less
    }

    /** `Ordering::then_with` on an already evaluated second comparison. */
    function Then(next: Ordering): Ordering {
      if this == Equal then next else this
    }
  }

  function CompareInt(a: int, b: int): Ordering {
    if a < b then Less else if a == b then Equal else Greater
  }

  function CompareChar(a: char, b: char): Ordering {
    CompareInt(a as int, b as int)
  }

  /** A comparator that totally orders its arguments. */
  ghost predicate TotalOrder<T(!new)>(compare: (T, T) -> Ordering) {
    && (forall a, b :: compare(a, b) == Equal <==> a == b)
    && (forall a, b :: compare(a, b) == compare(b, a).Reverse())
    && (forall a, b, c :: compare(a, b) == Less && compare(b, c) == Less ==> compare(a, c) == Less)
  }

  /** Lexicographic comparison, a proper prefix coming first. */
  function Lex<T>(compare: (T, T) -> Ordering, a: seq<T>, b: seq<T>): Ordering {
    if a == [] then (if b == [] then Equal else Less)
    else if b == [] then Greater
    else compare(a[0], b[0]).Then(Lex(compare, a[1..], b[1..]))
  }

  lemma {:induction false} LexEqual<T(!new)>(compare: (T, T) -> Ordering, a: seq<T>, b: seq<T>)
    requires TotalOrder(compare)
    ensures Lex(compare, a, b) == Equal <==> a == b
    ensures Lex(compare, a, b) == Lex(compare, b, a).Reverse()
  {
    if a != [] && b != [] {
      LexEqual(compare, a[1..], b[1..]);
      assert a == [a[0]] + a[1..] && b == [b[0]] + b[1..];
    }
  }

  lemma {:induction false} LexTransitive<T(!new)>(compare: (T, T) -> Ordering, a: seq<T>, b: seq<T>, c: seq<T>)
    requires TotalOrder(compare)
    requires Lex(compare, a, b) == Less && Lex(compare, b, c) == Less
    ensures Lex(compare, a, c) == Less
  {
    if a != [] {
      if compare(a[0], b[0]) == Equal && compare(b[0], c[0]) == Equal {
        LexTransitive(compare, a[1..], b[1..], c[1..]);
      }
    }
  }

  /** Lexicographic order inherits totality. */
  lemma LexTotalOrder<T(!new)>(compare: (T, T) -> Ordering)
    requires TotalOrder(compare)
    ensures TotalOrder((a, b) => Lex(compare, a, b))
  {
    var lex := (a, b) => Lex(compare, a, b);
    forall a, b
      ensures (lex(a, b) == Equal <==> a == b) && lex(a, b) == lex(b, a).Reverse()
    {
      LexEqual(compare, a, b);
    }
    forall a, b, c | lex(a, b) == Less && lex(b, c) == Less
      ensures lex(a, c) == Less
    {
      LexTransitive(compare, a, b, c);
    }
  }

  /** After `k` equal elements the first list ends before the second, or has the smaller element. */
  predicate SmallerAt<T(==)>(compare: (T, T) -> Ordering, a: seq<T>, b: seq<T>, k: nat) {
    k <= |a| && k < |b| && a[..k] == b[..k] && (k < |a| ==> compare(a[k], b[k]) == Less)
  }

  /** What coming first means: at the first difference, the smaller element or the end. */
  lemma {:induction false} LexLessIff<T(!new)>(compare: (T, T) -> Ordering, a: seq<T>, b: seq<T>)
    requires TotalOrder(compare)
    ensures Lex(compare, a, b) == Less <==> exists k: nat :: SmallerAt(compare, a, b, k)
  {
    if a == [] || b == [] || a[0] != b[0] {
      if k: nat :| SmallerAt(compare, a, b, k) {
        if k > 0 {
          SameFirst(compare, a, b, k);
        }
      }
      assert Lex(compare, a, b) == Less ==> SmallerAt(compare, a, b, 0);
    } else {
      LexLessIff(compare, a[1..], b[1..]);
      assert compare(a[0], b[0]) == Equal && !SmallerAt(compare, a, b, 0);
      if k: nat :| SmallerAt(compare, a, b, k) {
        SmallerShifts(compare, a, b, k - 1);
      }
      if k: nat :| SmallerAt(compare, a[1..], b[1..], k) {
        SmallerShifts(compare, a, b, k);
      }
    }
  }

  lemma SameFirst<T(!new)>(compare: (T, T) -> Ordering, a: seq<T>, b: seq<T>, k: nat)
    requires SmallerAt(compare, a, b, k) && k > 0
    ensures a != [] && b != [] && a[0] == b[0]
  {
    assert a[..k][0] == b[..k][0];
  }

  lemma SmallerShifts<T(!new)>(compare: (T, T) -> Ordering, a: seq<T>, b: seq<T>, k: nat)
    requires a != [] && b != [] && a[0] == b[0]
    ensures SmallerAt(compare, a, b, k + 1) <==> SmallerAt(compare, a[1..], b[1..], k)
  {
    if k + 1 <= |a| && k + 1 < |b| {
      assert a[..k + 1] == [a[0]] + a[1..][..k] && b[..k + 1] == [b[0]] + b[1..][..k];
      if a[..k + 1] == b[..k + 1] {
        assert a[1..][..k] == a[..k + 1][1..] == b[..k + 1][1..] == b[1..][..k];
      }
    }
  }

  /** A common prefix never decides a lexicographic comparison. */
  lemma {:induction false} LexSkip<T(!new)>(compare: (T, T) -> Ordering, p: seq<T>, a: seq<T>, b: seq<T>)
    requires TotalOrder(compare)
    ensures Lex(compare, p + a, p + b) == Lex(compare, a, b)
  {
    if p == [] {
      assert p + a == a && p + b == b;
    } else {
      LexSkip(compare, p[1..], a, b);
      assert (p + a)[1..] == p[1..] + a && (p + b)[1..] == p[1..] + b;
    }
  }

  /** When neither text is a prefix of the other, whatever follows them is irrelevant. */
  lemma {:induction false} LexIgnoresTails<T(!new)>(
    compare: (T, T) -> Ordering, a: seq<T>, b: seq<T>, x: seq<T>, y: seq<T>)
    requires TotalOrder(compare)
    requires !(a <= b) && !(b <= a)
    ensures Lex(compare, a + x, b + y) == Lex(compare, a, b) != Equal
  {
    LexEqual(compare, a, b);
    assert (a + x)[1..] == a[1..] + x && (b + y)[1..] == b[1..] + y;
    if a[0] == b[0] {
      assert a == [a[0]] + a[1..] && b == [b[0]] + b[1..];
      LexIgnoresTails(compare, a[1..], b[1..], x, y);
    }
  }

  ghost predicate Sorted<T>(le: (T, T) -> bool, s: seq<T>) {
    forall i, j | 0 <= i < j < |s| :: le(s[i], s[j])
  }

  /** `le` is a total preorder. */
  ghost predicate TotalPreorder<T(!new)>(le: (T, T) -> bool) {
    && (forall a, b :: le(a, b) || le(b, a))
    && (forall a, b, c :: le(a, b) && le(b, c) ==> le(a, c))
  }

  function Insert<T>(le: (T, T) -> bool, x: T, s: seq<T>): seq<T> {
    if s == [] || le(x, s[0]) then [x] + s else [s[0]] + Insert(le, x, s[1..])
  }

  /** The stable sort of `s`. */
  function SortBy<T>(le: (T, T) -> bool, s: seq<T>): seq<T> {
    if s == [] then [] else Insert(le, s[0], SortBy(le, s[1..]))
  }

  lemma {:induction false} InsertContents<T>(le: (T, T) -> bool, x: T, s: seq<T>)
    ensures multiset(Insert(le, x, s)) == multiset{x} + multiset(s)
    ensures |Insert(le, x, s)| == |s| + 1
  {
    if s == [] || le(x, s[0]) {
    } else {
      InsertContents(le, x, s[1..]);
      assert s == [s[0]] + s[1..];
    }
  }

  lemma {:induction false} InsertSorted<T(!new)>(le: (T, T) -> bool, x: T, s: seq<T>)
    requires TotalPreorder(le) && Sorted(le, s)
    ensures Sorted(le, Insert(le, x, s))
  {
    if s == [] || le(x, s[0]) {
    } else {
      InsertSorted(le, x, s[1..]);
      InsertContents(le, x, s[1..]);
      var rest := Insert(le, x, s[1..]);
      forall j | 0 <= j < |rest|
        ensures le(s[0], rest[j])
      {
        assert rest[j] in multiset(rest);
      }
    }
  }

  /** Sorting permutes and orders. */
  lemma {:induction false} SortByCorrect<T(!new)>(le: (T, T) -> bool, s: seq<T>)
    requires TotalPreorder(le)
    ensures multiset(SortBy(le, s)) == multiset(s) && |SortBy(le, s)| == |s|
    ensures Sorted(le, SortBy(le, s))
  {
    if s != [] {
      SortByCorrect(le, s[1..]);
      InsertContents(le, s[0], SortBy(le, s[1..]));
      InsertSorted(le, s[0], SortBy(le, s[1..]));
      assert s == [s[0]] + s[1..];
    }
  }

  lemma {:induction false} SortByContents<T>(le: (T, T) -> bool, s: seq<T>)
    ensures multiset(SortBy(le, s)) == multiset(s) && |SortBy(le, s)| == |s|
    ensures forall x :: x in SortBy(le, s) <==> x in s
  {
    if s != [] {
      SortByContents(le, s[1..]);
      InsertContents(le, s[0], SortBy(le, s[1..]));
      assert s == [s[0]] + s[1..];
    }
    SameMembers(SortBy(le, s), s);
  }

  /** The elements that tie with `x`, in order. */
  function TiedWith<T>(le: (T, T) -> bool, x: T, s: seq<T>): seq<T> {
    if s == [] then []
    else (if le(x, s[0]) && le(s[0], x) then [s[0]] else []) + TiedWith(le, x, s[1..])
  }

  lemma {:induction false} InsertIsStable<T(!new)>(le: (T, T) -> bool, y: T, s: seq<T>, x: T)
    requires TotalPreorder(le)
    ensures TiedWith(le, x, Insert(le, y, s)) == TiedWith(le, x, [y] + s)
  {
    assert ([y] + s)[1..] == s;
    if s != [] && !le(y, s[0]) {
      var rest := Insert(le, y, s[1..]);
      InsertIsStable(le, y, s[1..], x);
      assert ([s[0]] + rest)[1..] == rest && ([y] + s[1..])[1..] == s[1..];
      var head := s[0];
      assert !(le(y, x) && le(x, head));
    }
  }

  /** The sort is stable: elements that tie keep their order. */
  lemma {:induction false} SortIsStable<T(!new)>(le: (T, T) -> bool, s: seq<T>, x: T)
    requires TotalPreorder(le)
    ensures TiedWith(le, x, SortBy(le, s)) == TiedWith(le, x, s)
  {
    if s != [] {
      SortIsStable(le, s[1..], x);
      InsertIsStable(le, s[0], SortBy(le, s[1..]), x);
      assert ([s[0]] + SortBy(le, s[1..]))[1..] == SortBy(le, s[1..]);
    }
  }

  lemma SameMembers<T>(a: seq<T>, b: seq<T>)
    requires multiset(a) == multiset(b)
    ensures forall x :: x in a <==> x in b
  {
    forall x
      ensures x in a <==> x in b
    {
      assert x in a <==> x in multiset(a);
      assert x in b <==> x in multiset(b);
    }
  }

  /** Without ties there is only one sorted arrangement of the same elements. */
  lemma {:induction false} SortedUnique<T(!new)>(le: (T, T) -> bool, a: seq<T>, b: seq<T>)
    requires Sorted(le, a) && Sorted(le, b) && multiset(a) == multiset(b)
    requires forall x, y | x in a && y in a && le(x, y) && le(y, x) :: x == y
    ensures a == b
  {
    if a == [] {
      assert |multiset(b)| == 0;
    } else {
      assert |multiset(b)| == |multiset(a)| == |a|;
      SameHead(le, a, b);
      DropHead(a);
      DropHead(b);
      assert Sorted(le, a[1..]) && Sorted(le, b[1..]);
      hide Sorted;
      SortedUnique(le, a[1..], b[1..]);
    }
  }

  lemma SameHead<T(!new)>(le: (T, T) -> bool, a: seq<T>, b: seq<T>)
    requires Sorted(le, a) && Sorted(le, b) && multiset(a) == multiset(b) && a != [] && b != []
    requires forall x, y | x in a && y in a && le(x, y) && le(y, x) :: x == y
    ensures a[0] == b[0]
  {
    SameMembers(a, b);
    assert b[0] in a && a[0] in b;
  }

  lemma DropHead<T>(a: seq<T>)
    requires a != []
    ensures multiset(a[1..]) == multiset(a) - multiset{a[0]}
    ensures a == [a[0]] + a[1..]
    ensures forall x | x in a[1..] :: x in a
  {
    assert a == [a[0]] + a[1..];
  }

  /** Sorting leaves sorted input as it is. */
  lemma {:induction false} SortOfSorted<T>(le: (T, T) -> bool, s: seq<T>)
    requires Sorted(le, s)
    ensures SortBy(le, s) == s
  {
    if s != [] {
      SortOfSorted(le, s[1..]);
      assert s == [s[0]] + s[1..];
    }
  }
}
