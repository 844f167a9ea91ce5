/** Grouping consecutive items greedily: extend a group while it stays admissible, then start the next. */
module Greedy {

  /** Every part of a fitting group fits. */
  ghost predicate Monotone(n: nat, fits: (nat, nat) -> bool) {
    forall i: nat, i': nat, j': nat, j: nat | i <= i' < j' <= j <= n && fits(i, j) :: fits(i', j')
  }

  /** Items `i` to `j` may form a group: one item always may. */
  predicate Admissible(fits: (nat, nat) -> bool, i: nat, j: nat) {
    i < j && (j == i + 1 || fits(i, j))
  }

  lemma PartIsAdmissible(n: nat, fits: (nat, nat) -> bool, i: nat, i': nat, j': nat, j: nat)
    requires Monotone(n, fits) && i <= i' < j' <= j <= n && Admissible(fits, i, j)
    ensures Admissible(fits, i', j')
  {
  }

  /** `ends` are the ends of admissible groups that cover items `i` to `n` in order. */
  ghost predicate Grouping(n: nat, fits: (nat, nat) -> bool, i: nat, ends: seq<nat>)
    decreases |ends|
  {
    if ends == [] then i == n
    else i < ends[0] <= n && Admissible(fits, i, ends[0]) && Grouping(n, fits, ends[0], ends[1..])
  }

  /** The end of the group started at `i` once it has reached `j`. */
  function GroupEnd(n: nat, fits: (nat, nat) -> bool, i: nat, j: nat): (end: nat)
    requires i < j <= n
    ensures j <= end <= n
    decreases n - j
  {
    if j < n && Admissible(fits, i, j + 1) then GroupEnd(n, fits, i, j + 1) else j
  }

  function GreedyEnds(n: nat, fits: (nat, nat) -> bool, i: nat): (ends: seq<nat>)
    requires i <= n
    decreases n - i
  {
    if i == n then [] else var j := GroupEnd(n, fits, i, i + 1); [j] + GreedyEnds(n, fits, j)
  }

  lemma {:induction false} GroupEndReaches(n: nat, fits: (nat, nat) -> bool, i: nat, j: nat)
    requires i < j <= n && Admissible(fits, i, j)
    ensures Admissible(fits, i, GroupEnd(n, fits, i, j))
    decreases n - j
  {
    hide Admissible;
    if j < n && Admissible(fits, i, j + 1) {
      GroupEndReaches(n, fits, i, j + 1);
    }
  }

  lemma GroupEndAdmissible(n: nat, fits: (nat, nat) -> bool, i: nat)
    requires i < n
    ensures Admissible(fits, i, GroupEnd(n, fits, i, i + 1))
  {
    GroupEndReaches(n, fits, i, i + 1);
  }

  lemma {:induction false} GreedyIsGrouping(n: nat, fits: (nat, nat) -> bool, i: nat)
    requires Monotone(n, fits) && i <= n
    ensures Grouping(n, fits, i, GreedyEnds(n, fits, i))
    decreases n - i
  {
    hide Monotone, Admissible;
    if i < n {
      GroupEndAdmissible(n, fits, i);
      GreedyIsGrouping(n, fits, GroupEnd(n, fits, i, i + 1));
    }
  }

  /** No group could have taken one item more. */
  ghost predicate Full(n: nat, fits: (nat, nat) -> bool, i: nat, ends: seq<nat>)
    decreases |ends|
  {
    ends == [] || ((ends[0] < n ==> !fits(i, ends[0] + 1)) && Full(n, fits, ends[0], ends[1..]))
  }

  lemma {:induction false} GroupEndStops(n: nat, fits: (nat, nat) -> bool, i: nat, j: nat)
    requires i < j <= n
    ensures var end := GroupEnd(n, fits, i, j); end < n ==> !fits(i, end + 1)
    decreases n - j
  {
    if j < n && Admissible(fits, i, j + 1) {
      GroupEndStops(n, fits, i, j + 1);
    }
  }

  lemma {:induction false} GreedyIsFull(n: nat, fits: (nat, nat) -> bool, i: nat)
    requires i <= n
    ensures Full(n, fits, i, GreedyEnds(n, fits, i))
    decreases n - i
  {
    if i < n {
      var j := GroupEnd(n, fits, i, i + 1);
      GroupEndStops(n, fits, i, i + 1);
      GreedyIsFull(n, fits, j);
      assert ([j] + GreedyEnds(n, fits, j))[1..] == GreedyEnds(n, fits, j);
    }
  }

  /** The greedy end is the farthest admissible end, also for later starts. */
  lemma {:induction false} GroupEndFarthest(n: nat, fits: (nat, nat) -> bool, i: nat, j: nat, k: nat, end: nat)
    requires Monotone(n, fits) && i <= k < j <= n && i < end <= n && Admissible(fits, i, end)
    ensures end <= GroupEnd(n, fits, k, j) || end < j
    decreases n - j
  {
    hide Monotone, Admissible;
    if j < end {
      PartIsAdmissible(n, fits, i, k, j + 1, end);
      GroupEndFarthest(n, fits, i, j + 1, k, end);
    }
  }

  /** Starting later never needs more greedy groups. */
  lemma {:induction false} LaterStartNeedsNoMore(n: nat, fits: (nat, nat) -> bool, i: nat, k: nat)
    requires Monotone(n, fits) && i <= k <= n
    ensures |GreedyEnds(n, fits, k)| <= |GreedyEnds(n, fits, i)|
    decreases n - i
  {
    hide Monotone, Admissible;
    if i < k < n {
      var j := GroupEnd(n, fits, i, i + 1);
      if k < j {
        GroupEndAdmissible(n, fits, i);
        GroupEndFarthest(n, fits, i, k + 1, k, j);
        LaterStartNeedsNoMore(n, fits, j, GroupEnd(n, fits, k, k + 1));
      } else {
        LaterStartNeedsNoMore(n, fits, j, k);
      }
    }
  }

  /** No grouping has fewer groups than the greedy one. */
  lemma {:induction false} GreedyIsMinimal(n: nat, fits: (nat, nat) -> bool, i: nat, ends: seq<nat>)
    requires Monotone(n, fits) && i <= n && Grouping(n, fits, i, ends)
    ensures |GreedyEnds(n, fits, i)| <= |ends|
    decreases |ends|
  {
    hide Monotone, Admissible;
    if ends != [] {
      GroupEndFarthest(n, fits, i, i + 1, i, ends[0]);
      LaterStartNeedsNoMore(n, fits, ends[0], GroupEnd(n, fits, i, i + 1));
      GreedyIsMinimal(n, fits, ends[0], ends[1..]);
    }
  }
}
