/**
 The row-major embedding matrix of crates/code-search/src/matrix.rs. An f32 is its 32-bit pattern.
 Row ranges are sums of `usize` values; the overflow arm of the source answers like the range arm.
 */
module Matrix {
  import opened Wrappers
  import opened Types

  newtype F32 = bits: int | 0 <= bits < 0x1_0000_0000

  /** A matrix as a value. */
  datatype Matrix = Matrix(dimensions: nat, rows: seq<F32>) {

    function RowCount(): nat {
      if dimensions == 0 then 0 else |rows| / dimensions
    }

    function Row(idx: nat): Option<seq<F32>> {
      if idx >= RowCount() then None
      else RowEnds(|rows|, dimensions, idx); Some(rows[idx * dimensions..idx * dimensions + dimensions])
    }
  }

  const EMPTY := Matrix(0, [])

  lemma RowEnds(values: nat, dimensions: nat, idx: nat)
    requires dimensions > 0 && idx < values / dimensions
    ensures 0 <= idx * dimensions && idx * dimensions + dimensions <= values
  {
    assert (idx + 1) * dimensions <= (values / dimensions) * dimensions <= values;
  }

  function New(dimensions: nat, rows: seq<F32>): Result<Matrix, CodeSearchError> {
    if dimensions == 0 then (if rows == [] then Ok(EMPTY) else Err(ZeroDimensions))
    else if |rows| % dimensions != 0 then Err(InconsistentDimensions)
    else Ok(Matrix(dimensions, rows))
  }

  /** Whole rows of a positive width make a matrix, and so does nothing at all. */
  lemma NewIff(dimensions: nat, rows: seq<F32>)
    ensures New(dimensions, rows).Ok?
       <==> if dimensions == 0 then rows == [] else exists n: nat :: n * dimensions == |rows|
    ensures New(dimensions, rows).Ok? ==> New(dimensions, rows).value == Matrix(dimensions, rows)
    ensures New(dimensions, rows).Err? ==>
              New(dimensions, rows).error == if dimensions == 0 then ZeroDimensions else InconsistentDimensions
  {
    if dimensions > 0 {
      var n := |rows| / dimensions;
      assert |rows| == n * dimensions + |rows| % dimensions;
      forall m: nat | m * dimensions == |rows|
        ensures |rows| % dimensions == 0
      {
        ExactDivision(m, dimensions);
      }
    }
  }

  /** Every vector has `d` values. */
  ghost predicate Uniform(d: nat, vectors: seq<seq<F32>>) {
    d > 0 && forall i | 0 <= i < |vectors| :: |vectors[i]| == d
  }

  /** The matrix holding exactly these vectors as its rows. */
  ghost function MatrixOf(d: nat, vectors: seq<seq<F32>>): Matrix {
    if vectors == [] then EMPTY else Matrix(d, Concat(vectors))
  }

  lemma {:induction false} ConcatSize(d: nat, vectors: seq<seq<F32>>)
    requires Uniform(d, vectors)
    ensures |Concat(vectors)| == |vectors| * d
  {
    if vectors != [] {
      ConcatSize(d, vectors[1..]);
      Distribute(1, |vectors|, d);
    }
  }

  lemma Distribute(q: nat, p: nat, d: nat)
    requires q <= p
    ensures p * d == q * d + (p - q) * d
    ensures q * d <= p * d
  {
  }

  lemma StrictMultiple(q: nat, p: nat, d: nat)
    requires q < p
    ensures q * d + d <= p * d
  {
    Distribute(q + 1, p, d);
    assert (q + 1) * d == q * d + d;
  }

  lemma ExactDivision(n: nat, d: nat)
    requires d > 0
    ensures (n * d) % d == 0 && (n * d) / d == n
  {
    var q := (n * d) / d;
    if q < n {
      StrictMultiple(q, n, d);
    }
  }

  lemma MiddleOfThree(x: seq<F32>, y: seq<F32>, z: seq<F32>)
    ensures (x + y + z)[|x|..|x| + |y|] == y
  {
  }

  lemma ConcatSlice(d: nat, vectors: seq<seq<F32>>, start: nat, end: nat)
    requires Uniform(d, vectors) && start <= end <= |vectors|
    ensures 0 <= start * d <= end * d <= |Concat(vectors)|
    ensures Concat(vectors)[start * d..end * d] == Concat(vectors[start..end])
  {
    var a, b, c := vectors[..start], vectors[start..end], vectors[end..];
    assert vectors == a + b + c;
    ConcatAppend(a + b, c);
    ConcatAppend(a, b);
    ConcatSize(d, a);
    ConcatSize(d, b);
    ConcatSize(d, vectors);
    Distribute(start, end, d);
    Distribute(end, |vectors|, d);
    hide Concat;
    MiddleOfThree(Concat(a), Concat(b), Concat(c));
  }

  /** Row `i` of the matrix holding `vectors` is `vectors[i]`, and there are no other rows. */
  lemma RowsOfMatrix(d: nat, vectors: seq<seq<F32>>)
    requires Uniform(d, vectors)
    ensures MatrixOf(d, vectors).RowCount() == |vectors|
    ensures forall i: nat :: MatrixOf(d, vectors).Row(i) == if i < |vectors| then Some(vectors[i]) else None
  {
    ConcatSize(d, vectors);
    ExactDivision(|vectors|, d);
    forall i: nat | i < |vectors|
      ensures MatrixOf(d, vectors).Row(i) == Some(vectors[i])
    {
      ConcatSlice(d, vectors, i, i + 1);
      assert vectors[i..i + 1] == [vectors[i]];
      assert Concat([vectors[i]]) == vectors[i] + Concat([vectors[i]][1..]) == vectors[i];
      Distribute(i, i + 1, d);
    }
  }

  /** `from_vectors`. */
  method FromVectors(vectors: seq<seq<F32>>) returns (r: Result<Matrix, CodeSearchError>)
    ensures r == VectorsToMatrix(vectors)
  {
    if vectors == [] {
      return Ok(EMPTY);
    }
    var dimensions := |vectors[0]|;
    if dimensions == 0 {
      return Err(ZeroDimensions);
    }
    var rows: seq<F32> := [];
    for i := 0 to |vectors|
      invariant rows == Concat(vectors[..i])
      invariant forall j | 0 <= j < i :: |vectors[j]| == dimensions
    {
      if |vectors[i]| != dimensions {
        return Err(InconsistentDimensions);
      }
      ConcatOne(vectors[..i], vectors[i]);
      assert vectors[..i + 1] == vectors[..i] + [vectors[i]];
      rows := rows + vectors[i];
    }
    assert vectors[..|vectors|] == vectors;
    ConcatSize(dimensions, vectors);
    ExactDivision(|vectors|, dimensions);
    return New(dimensions, rows);
  }

  function VectorsToMatrix(vectors: seq<seq<F32>>): Result<Matrix, CodeSearchError> {
    if vectors == [] then Ok(EMPTY)
    else if |vectors[0]| == 0 then Err(ZeroDimensions)
    else if exists i | 0 <= i < |vectors| :: |vectors[i]| != |vectors[0]| then Err(InconsistentDimensions)
    else Ok(Matrix(|vectors[0]|, Concat(vectors)))
  }

  /** The checked row copy, on values. */
  function ExtendRows(m: Matrix, other: Matrix, start: nat, count: nat): Result<Matrix, CodeSearchError> {
    if count == 0 then Ok(m)
    else if other.dimensions == 0 then Err(EmptyMatrix)
    else if start + count > other.RowCount() then Err(RangeOutside)
    else if m.dimensions != 0 && m.dimensions != other.dimensions then Err(DimensionsChanged)
    else
      RowRange(other, start, start + count);
      Ok(Matrix(other.dimensions, m.rows + other.rows[start * other.dimensions..(start + count) * other.dimensions]))
  }

  lemma RowRange(m: Matrix, start: nat, end: nat)
    requires m.dimensions > 0 && start <= end <= m.RowCount()
    ensures 0 <= start * m.dimensions <= end * m.dimensions <= |m.rows|
  {
    assert end * m.dimensions <= m.RowCount() * m.dimensions <= |m.rows|;
  }

  /** On row lists, extending appends the requested rows. */
  lemma ExtendRowsOf(d: nat, vectors: seq<seq<F32>>, other: seq<seq<F32>>, start: nat, count: nat)
    requires Uniform(d, vectors) && Uniform(d, other) && start + count <= |other|
    ensures ExtendRows(MatrixOf(d, vectors), MatrixOf(d, other), start, count)
         == Ok(MatrixOf(d, vectors + other[start..start + count]))
  {
    if count == 0 {
      assert vectors + other[start..start] == vectors;
    } else {
      ConcatSize(d, other);
      ExactDivision(|other|, d);
      ConcatSlice(d, other, start, start + count);
      ConcatAppend(vectors, other[start..start + count]);
    }
  }

  /** The mutable matrix that refresh and index loading extend in place. */
  class EmbeddingMatrix {
    var dimensions: nat
    var rows: seq<F32>

    constructor ()
      ensures Value() == EMPTY
    {
      dimensions, rows := 0, [];
    }

    function Value(): Matrix
      reads this
    {
      Matrix(dimensions, rows)
    }

    /** `extend_rows_from`: on failure nothing is changed. */
    method ExtendRowsFrom(other: Matrix, start: nat, count: nat) returns (r: Result<(), CodeSearchError>)
      modifies this
      ensures match ExtendRows(old(Value()), other, start, count)
              case Ok(m) => r == Ok(()) && Value() == m
              case Err(e) => r == Err(e) && Value() == old(Value())
    {
      if count == 0 {
        return Ok(());
      }
      if other.dimensions == 0 {
        return Err(EmptyMatrix);
      }
      var end := start + count;
      if end > other.RowCount() {
        return Err(RangeOutside);
      }
      if dimensions == 0 {
        dimensions := other.dimensions;
      } else if dimensions != other.dimensions {
        return Err(DimensionsChanged);
      }
      RowRange(other, start, end);
      rows := rows + other.rows[start * other.dimensions..end * other.dimensions];
      return Ok(());
    }
  }
}
