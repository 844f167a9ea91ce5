/** Failure-carrying values shared by the other modules. */
module Wrappers {

  datatype Option<+T> = None | Some(value: T)

  datatype Result<+T, +E> = Ok(value: T) | Err(error: E)

  /** The largest value of the source's 64-bit `usize`. */
  const USIZE_MAX: nat := 0xFFFF_FFFF_FFFF_FFFF

  /** The concatenation of a list of lists. */
  function Concat<T>(parts: seq<seq<T>>): seq<T> {
    if parts == [] then [] else parts[0] + Concat(parts[1..])
  }

  lemma Reassociate<T>(a: seq<T>, b: seq<T>, c: seq<T>)
    ensures (a + b) + c == a + (b + c)
  {
  }

  lemma {:induction false} ConcatAppend<T>(left: seq<seq<T>>, right: seq<seq<T>>)
    ensures Concat(left + right) == Concat(left) + Concat(right)
  {
    if left == [] {
      assert left + right == right;
    } else {
      ConcatAppend(left[1..], right);
      assert (left + right)[0] == left[0] && (left + right)[1..] == left[1..] + right;
    }
  }

  lemma ConcatOne<T>(left: seq<seq<T>>, last: seq<T>)
    ensures Concat(left + [last]) == Concat(left) + last
  {
    ConcatAppend(left, [last]);
    assert Concat([last]) == last + Concat([last][1..]) == last;
  }

  lemma SubsetSize<T>(a: set<T>, b: set<T>)
    requires a <= b
    ensures |a| <= |b|
  {
    assert b == a + (b - a);
  }
}
