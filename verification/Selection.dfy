/**
 Ordering and partial selection of scored results (`compare_results` and the use of `select_nth_unstable_by` in
 crates/code-search/src/ranking.rs and index.rs). The library's selection is any function of its input that
 keeps the library's promise about position `k`.
 */
module Selection {
  import opened Orders
  import opened Types
  import opened Location

  /** `SearchResult`. */
  datatype Scored = Scored(score: real, chunk: Chunk)

  function CompareReal(a: real, b: real): Ordering {
    if a < b then Less else if a == b then Equal else Greater
  }

  /** Higher score first, then location. */
  function CompareResults(a: Scored, b: Scored): Ordering {
    CompareReal(b.score, a.score).Then(CompareLocation(a.chunk, b.chunk))
  }

  predicate ResultLe(a: Scored, b: Scored) {
    CompareResults(a, b) != Greater
  }

  /** A result may stand before another: its score is higher, or equal with a location not after the other's. */
  lemma ResultLeIff(a: Scored, b: Scored)
    ensures ResultLe(a, b)
       <==> a.score > b.score || (a.score == b.score && CompareLocation(a.chunk, b.chunk) != Greater)
  {
  }

  lemma ResultLeIsPreorder()
    ensures TotalPreorder(ResultLe)
  {
    forall a, b
      ensures ResultLe(a, b) || ResultLe(b, a)
    {
      CompareLocationIsOrder(a.chunk, b.chunk, b.chunk);
    }
    forall a, b, c | ResultLe(a, b) && ResultLe(b, c)
      ensures ResultLe(a, c)
    {
      CompareLocationIsOrder(a.chunk, b.chunk, c.chunk);
    }
  }

  function Take<T>(s: seq<T>, k: nat): seq<T> {
    if k < |s| then s[..k] else s
  }

  /** What `select_nth_unstable_by` promises: a rearrangement in which position `k` separates the rest. */
  ghost predicate Selected(s: seq<Scored>, k: nat, t: seq<Scored>) {
    && multiset(t) == multiset(s) && k < |t| == |s|
    && (forall i | 0 <= i < k :: ResultLe(t[i], t[k]))
    && (forall i | k < i < |t| :: ResultLe(t[k], t[i]))
  }

  /** A selection routine: deterministic, and otherwise bound only by its promise. */
  type Select = (seq<Scored>, nat) -> seq<Scored>

  ghost predicate Selects(select: Select) {
    forall s: seq<Scored>, k: nat | k < |s| :: Selected(s, k, select(s, k))
  }

  /** Sorting everything, or selecting the best `k` and sorting only those. */
  function TopOf(s: seq<Scored>, k: nat, select: Select): seq<Scored> {
    if |s| > k then SortBy(ResultLe, Take(select(s, k), k)) else SortBy(ResultLe, s)
  }

  /** The same in place: sort the selected part, then truncate. */
  method SortTop(s: seq<Scored>, k: nat, select: Select) returns (results: seq<Scored>)
    requires Selects(select)
    ensures results == TopOf(s, k, select)
  {
    if |s| > k {
      var t := select(s, k);
      assert Selected(s, k, t);
      SortByContents(ResultLe, t[..k]);
      hide *;
      results := SortBy(ResultLe, t[..k]) + t[k..];
      results := results[..k];
    } else {
      results := SortBy(ResultLe, s);
    }
    TopOfIs(s, k, select);
  }

  lemma TopOfIs(s: seq<Scored>, k: nat, select: Select)
    requires Selects(select)
    ensures TopOf(s, k, select) == if |s| > k then SortBy(ResultLe, select(s, k)[..k]) else SortBy(ResultLe, s)
    ensures |s| > k ==> |select(s, k)| == |s|
  {
    if |s| > k {
      assert Selected(s, k, select(s, k));
    }
  }

  /** Sorting both sides of a separating element sorts the whole. */
  lemma SortAroundNth(before: seq<Scored>, x: Scored, after: seq<Scored>) returns (u: seq<Scored>)
    requires forall y | y in before :: ResultLe(y, x)
    requires forall y | y in after :: ResultLe(x, y)
    ensures multiset(u) == multiset(before + [x] + after) && Sorted(ResultLe, u)
    ensures Take(u, |before|) == SortBy(ResultLe, before) && |SortBy(ResultLe, before)| == |before|
  {
    var low := SortedPart(before);
    var high := SortedPart(after);
    u := low + [x] + high;
    assert Take(u, |low|) == low;
    hide *;
    SortedAround(low, x, high);
    AroundContents(low, x, high, before, after);
  }

  lemma SplitAround<T>(t: seq<T>, k: nat)
    requires k < |t|
    ensures t == t[..k] + [t[k]] + t[k + 1..]
  {
  }

  lemma AroundContents<T>(low: seq<T>, x: T, high: seq<T>, low': seq<T>, high': seq<T>)
    requires multiset(low) == multiset(low') && multiset(high) == multiset(high')
    ensures multiset(low + [x] + high) == multiset(low' + [x] + high')
  {
  }

  lemma SortedPart(s: seq<Scored>) returns (sorted: seq<Scored>)
    ensures sorted == SortBy(ResultLe, s) && Sorted(ResultLe, sorted)
    ensures multiset(sorted) == multiset(s) && |sorted| == |s| && forall y :: y in sorted <==> y in s
  {
    ResultLeIsPreorder();
    sorted := SortBy(ResultLe, s);
    SortByCorrect(ResultLe, s);
    SameMembers(sorted, s);
  }

  lemma SortedAround(low: seq<Scored>, x: Scored, high: seq<Scored>)
    requires Sorted(ResultLe, low) && Sorted(ResultLe, high)
    requires forall y | y in low :: ResultLe(y, x)
    requires forall y | y in high :: ResultLe(x, y)
    ensures Sorted(ResultLe, low + [x] + high)
  {
    ResultLeIsPreorder();
    hide ResultLe;
    var u, k := low + [x] + high, |low|;
    forall i, j | 0 <= i < j < |u|
      ensures ResultLe(u[i], u[j])
    {
      assert i < k ==> u[i] == low[i];
      assert j > k ==> u[j] == high[j - k - 1];
      if i < k < j {
        assert ResultLe(u[i], x) && ResultLe(x, u[j]);
      } else if i > k {
        assert u[i] == high[i - k - 1];
      }
    }
  }

  /** Results that compare equal are equal. */
  ghost predicate TiesAgree(s: seq<Scored>) {
    forall x, y | x in s && y in s && ResultLe(x, y) && ResultLe(y, x) :: x == y
  }

  function Swapped(s: seq<Scored>, i: nat, j: nat): seq<Scored>
    requires i < j < |s|
  {
    s[i := s[j]][j := s[i]]
  }

  lemma SwapTied(s: seq<Scored>, i: nat, j: nat)
    requires Sorted(ResultLe, s) && i < j < |s| && ResultLe(s[j], s[i])
    ensures Sorted(ResultLe, Swapped(s, i, j)) && multiset(Swapped(s, i, j)) == multiset(s)
  {
    ResultLeIsPreorder();
    hide ResultLe;
    var t := Swapped(s, i, j);
    forall k, l | 0 <= k < l < |t|
      ensures ResultLe(t[k], t[l])
    {
      assert i <= k <= j ==> ResultLe(s[i], s[k]) && ResultLe(s[k], s[j]);
      assert i <= l <= j ==> ResultLe(s[i], s[l]) && ResultLe(s[l], s[j]);
      assert k < i ==> ResultLe(s[k], s[i]);
      assert l > j ==> ResultLe(s[j], s[l]);
    }
  }

  /** No two different results tie where the earlier is among the first `k`. */
  ghost predicate TiesAgreeBefore(s: seq<Scored>, k: nat) {
    forall i, j | 0 <= i < j < |s| && i < k && ResultLe(s[j], s[i]) :: s[i] == s[j]
  }

  /** Sorted arrangements agree on a beginning without different ties. */
  lemma {:induction false} SortedBeginningUnique(a: seq<Scored>, b: seq<Scored>, k: nat)
    requires Sorted(ResultLe, a) && Sorted(ResultLe, b) && multiset(a) == multiset(b) && TiesAgreeBefore(a, k)
    ensures Take(a, k) == Take(b, k)
  {
    SameLength(a, b);
    if a != [] && k > 0 {
      SameFirst(a, b, k);
      RestSorted(a, k);
      RestSorted(b, 0);
      SameRest(a, b);
      SortedBeginningUnique(a[1..], b[1..], k - 1);
      hide *;
      TakeCons(a[0], a[1..], k);
      TakeCons(b[0], b[1..], k);
    } else {
      TakeNothing(a, b, k);
    }
  }

  lemma TakeNothing(a: seq<Scored>, b: seq<Scored>, k: nat)
    requires |a| == |b| && (a == [] || k == 0)
    ensures Take(a, k) == Take(b, k)
  {
  }

  lemma SameRest(a: seq<Scored>, b: seq<Scored>)
    requires multiset(a) == multiset(b) && a != [] && b != [] && a[0] == b[0]
    ensures multiset(a[1..]) == multiset(b[1..]) && a == [a[0]] + a[1..] && b == [b[0]] + b[1..]
  {
    DropHead(a);
    DropHead(b);
  }

  lemma SameLength(a: seq<Scored>, b: seq<Scored>)
    requires multiset(a) == multiset(b)
    ensures |a| == |b|
  {
    assert |multiset(a)| == |a| && |multiset(b)| == |b|;
  }

  lemma RestSorted(a: seq<Scored>, k: nat)
    requires Sorted(ResultLe, a) && a != [] && TiesAgreeBefore(a, k)
    ensures Sorted(ResultLe, a[1..]) && (k > 0 ==> TiesAgreeBefore(a[1..], k - 1))
  {
  }

  lemma TakeCons(x: Scored, rest: seq<Scored>, k: nat)
    requires k > 0
    ensures Take([x] + rest, k) == [x] + Take(rest, k - 1)
  {
  }

  lemma SameFirst(a: seq<Scored>, b: seq<Scored>, k: nat)
    requires Sorted(ResultLe, a) && Sorted(ResultLe, b) && multiset(a) == multiset(b) && TiesAgreeBefore(a, k)
    requires a != [] && b != [] && k > 0
    ensures a[0] == b[0]
  {
    SameMembers(a, b);
    assert a[0] in b && b[0] in a;
    var j :| 0 <= j < |a| && a[j] == b[0];
    var i :| 0 <= i < |b| && b[i] == a[0];
    hide ResultLe;
    if j > 0 && i > 0 {
      assert ResultLe(b[0], b[i]);
      assert ResultLe(a[j], a[0]);
    }
  }

  /** Whatever the selection, sorting the selected part gives a beginning of some sorted arrangement. */
  lemma SelectedBeginning(s: seq<Scored>, k: nat, t: seq<Scored>) returns (u: seq<Scored>)
    requires Selected(s, k, t)
    ensures multiset(u) == multiset(s) && Sorted(ResultLe, u) && |u| == |s|
    ensures Take(u, k) == SortBy(ResultLe, Take(t, k))
  {
    assert forall y | y in t[..k] :: ResultLe(y, t[k]);
    assert forall y | y in t[k + 1..] :: ResultLe(t[k], y);
    hide ResultLe, Sorted, SortBy;
    u := SortAroundNth(t[..k], t[k], t[k + 1..]);
    SplitAround(t, k);
    assert |multiset(u)| == |u| && |multiset(s)| == |s|;
  }

  /**
   Partial selection equals the beginning of the full sort, whatever the selection routine does, if and only if
   no result among the first `k` of the full sort ties with a different later one.
   */
  lemma SelectionAgreesIff(s: seq<Scored>, k: nat)
    requires k < |s|
    ensures (forall t | Selected(s, k, t) :: SortBy(ResultLe, Take(t, k)) == Take(SortBy(ResultLe, s), k))
       <==> TiesAgreeBefore(SortBy(ResultLe, s), k)
  {
    var sorted := SortedPart(s);
    if TiesAgreeBefore(sorted, k) {
      forall t | Selected(s, k, t)
        ensures SortBy(ResultLe, Take(t, k)) == Take(sorted, k)
      {
        var u := SelectedBeginning(s, k, t);
        SortedBeginningUnique(sorted, u, k);
      }
    } else {
      var i, j :| 0 <= i < j < |sorted| && i < k && ResultLe(sorted[j], sorted[i]) && sorted[i] != sorted[j];
      SwappedSelection(s, k, sorted, i, j);
    }
  }

  lemma SwappedSelection(s: seq<Scored>, k: nat, sorted: seq<Scored>, i: nat, j: nat)
    requires k < |s| == |sorted| && sorted == SortBy(ResultLe, s)
    requires Sorted(ResultLe, sorted) && multiset(sorted) == multiset(s)
    requires i < j < |sorted| && i < k && ResultLe(sorted[j], sorted[i]) && sorted[i] != sorted[j]
    ensures exists t :: Selected(s, k, t) && SortBy(ResultLe, Take(t, k)) != Take(sorted, k)
  {
    var t := Swapped(sorted, i, j);
    SwapTied(sorted, i, j);
    SortedIsSelected(s, k, t);
    hide *;
    SortOfSorted(ResultLe, Take(t, k));
    SwapShows(sorted, i, j, k);
  }

  lemma SortedIsSelected(s: seq<Scored>, k: nat, t: seq<Scored>)
    requires Sorted(ResultLe, t) && multiset(t) == multiset(s) && k < |t| == |s|
    ensures Selected(s, k, t) && Sorted(ResultLe, Take(t, k))
  {
    hide ResultLe;
  }

  lemma SwapShows(sorted: seq<Scored>, i: nat, j: nat, k: nat)
    requires i < j < |sorted| && i < k && sorted[i] != sorted[j]
    ensures Take(Swapped(sorted, i, j), k) != Take(sorted, k)
  {
    assert Take(Swapped(sorted, i, j), k)[i] == sorted[j] && Take(sorted, k)[i] == sorted[i];
  }

  /** Where ties agree, selection does not matter, nor the order the results came in. */
  lemma TopOfAgrees(s: seq<Scored>, s': seq<Scored>, k: nat, select: Select)
    requires TiesAgree(s) && multiset(s') == multiset(s) && Selects(select)
    ensures TopOf(s', k, select) == Take(SortBy(ResultLe, s), k)
  {
    var sorted := SortedPart(s);
    var sorted' := SortedPart(s');
    assert |multiset(s)| == |s| && |multiset(s')| == |s'|;
    SameMembers(s, s');
    TiesAgreeSorted(s, sorted, k);
    if |s'| > k {
      assert Selected(s', k, select(s', k));
      hide ResultLe, Sorted, SortBy, TiesAgreeBefore;
      var u := SelectedBeginning(s', k, select(s', k));
      SortedBeginningUnique(sorted, u, k);
    } else {
      hide ResultLe, Sorted, SortBy, TiesAgreeBefore;
      SortedBeginningUnique(sorted, sorted', k);
    }
  }

  lemma TiesAgreeSorted(s: seq<Scored>, sorted: seq<Scored>, k: nat)
    requires TiesAgree(s) && multiset(sorted) == multiset(s) && Sorted(ResultLe, sorted)
    ensures TiesAgreeBefore(sorted, k)
  {
    SameMembers(s, sorted);
    hide ResultLe;
  }

  lemma TakeIsBest(all: seq<Scored>, k: nat) returns (others: seq<Scored>)
    requires Sorted(ResultLe, all)
    ensures Take(all, k) + others == all && Sorted(ResultLe, Take(all, k))
    ensures |Take(all, k)| <= k && (others != [] ==> |Take(all, k)| == k)
    ensures forall x, y | x in Take(all, k) && y in others :: ResultLe(x, y)
  {
    others := if k < |all| then all[k..] else [];
  }

  /** With any selection the results are sorted, as many as asked for or there are, and none left out is better. */
  lemma TopOfIsBest(s: seq<Scored>, k: nat, select: Select) returns (others: seq<Scored>)
    requires Selects(select)
    ensures multiset(TopOf(s, k, select) + others) == multiset(s) && Sorted(ResultLe, TopOf(s, k, select))
    ensures |TopOf(s, k, select)| <= k && (others != [] ==> |TopOf(s, k, select)| == k)
    ensures forall x, y | x in TopOf(s, k, select) && y in others :: ResultLe(x, y)
  {
    var all;
    if |s| > k {
      assert Selected(s, k, select(s, k));
      all := SelectedBeginning(s, k, select(s, k));
    } else {
      all := SortedPart(s);
    }
    assert TopOf(s, k, select) == Take(all, k);
    hide TopOf, Sorted, ResultLe, SortBy;
    others := TakeIsBest(all, k);
  }
}
