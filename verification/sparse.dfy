/** Sparse rows and matrices with exact real weights.

    A row is a list of (column, weight) pairs, the triplets a finite-volume
    operator appends while it is assembled; repeated columns add up, as they
    do when a triplet list is compressed into a sparse matrix.  Every operator
    of the finite-volume core is a `Matrix` of such rows.
 */
module Sparse {

  type Row = seq<(nat, real)>

  /** Entry j of the row once compressed: the sum of all weights stored at column j. */
  function Entry(row: Row, j: nat): real
  {
    if |row| == 0 then 0.0
    else (if row[0].0 == j then row[0].1 else 0.0) + Entry(row[1..], j)
  }

  /** Every stored column is below n. */
  predicate InRange(row: Row, n: nat)
  {
    forall i :: 0 <= i < |row| ==> row[i].0 < n
  }

  /** The columns of a row, in storage order. */
  function Columns(row: Row): (cs: seq<nat>)
    ensures |cs| == |row|
    ensures forall i :: 0 <= i < |row| ==> cs[i] == row[i].0
  {
    seq(|row|, i requires 0 <= i < |row| => row[i].0)
  }

  predicate StrictlyIncreasing(cs: seq<nat>)
  {
    forall i, j :: 0 <= i < j < |cs| ==> cs[i] < cs[j]
  }

  /** Two rows with increasing columns, all of the first below all of the
      second, concatenate to a row with increasing columns. */
  lemma IncreasingAppend(a: Row, b: Row)
    requires StrictlyIncreasing(Columns(a)) && StrictlyIncreasing(Columns(b))
    requires forall i, k :: 0 <= i < |a| && 0 <= k < |b| ==> a[i].0 < b[k].0
    ensures StrictlyIncreasing(Columns(a + b))
  {
    var c, ca, cb := Columns(a + b), Columns(a), Columns(b);
    forall i, j | 0 <= i < j < |c|
      ensures c[i] < c[j]
    {
      if j < |a| {
        assert c[i] == ca[i] && c[j] == ca[j];
      } else if i >= |a| {
        assert c[i] == cb[i - |a|] && c[j] == cb[j - |a|];
      } else {
        assert c[i] == a[i].0 && c[j] == b[j - |a|].0;
      }
    }
  }

  /** No stored weight is zero. */
  predicate NonzeroWeights(row: Row)
  {
    forall i :: 0 <= i < |row| ==> row[i].1 != 0.0
  }

  /** Row times vector, computed on the stored pairs only. */
  function Dot(row: Row, x: seq<real>): real
    requires InRange(row, |x|)
  {
    if |row| == 0 then 0.0 else row[0].1 * x[row[0].0] + Dot(row[1..], x)
  }

  /** Row times vector, computed densely over the first n columns. */
  function DenseDot(row: Row, x: seq<real>, n: nat): real
    requires n <= |x|
  {
    if n == 0 then 0.0 else DenseDot(row, x, n - 1) + Entry(row, n - 1) * x[n - 1]
  }

  /** The dense form of a row with n columns. */
  function Densify(row: Row, n: nat): (d: seq<real>)
    ensures |d| == n
    ensures forall j :: 0 <= j < n ==> d[j] == Entry(row, j)
  {
    seq(n, j requires 0 <= j => Entry(row, j))
  }

  lemma EntryAppend(a: Row, b: Row, j: nat)
    ensures Entry(a + b, j) == Entry(a, j) + Entry(b, j)
  {
    if |a| > 0 {
      assert (a + b)[1..] == a[1..] + b;
      EntryAppend(a[1..], b, j);
    } else {
      assert a + b == b;
    }
  }

  lemma InRangeAppend(a: Row, b: Row, n: nat)
    requires InRange(a, n) && InRange(b, n)
    ensures InRange(a + b, n)
  {
    forall i | 0 <= i < |a + b|
      ensures (a + b)[i].0 < n
    {
      if i >= |a| {
        assert (a + b)[i] == b[i - |a|];
      }
    }
  }

  lemma {:induction false} DotAppend(a: Row, b: Row, x: seq<real>)
    requires InRange(a, |x|) && InRange(b, |x|)
    ensures InRange(a + b, |x|)
    ensures Dot(a + b, x) == Dot(a, x) + Dot(b, x)
  {
    InRangeAppend(a, b, |x|);
    if |a| > 0 {
      assert (a + b)[1..] == a[1..] + b;
      assert InRange(a[1..], |x|);
      DotAppend(a[1..], b, x);
      assert (a + b)[0] == a[0];
    } else {
      assert a + b == b;
    }
  }

  /** A column that is not stored has entry zero. */
  lemma EntryAbsent(row: Row, j: nat)
    requires forall i :: 0 <= i < |row| ==> row[i].0 != j
    ensures Entry(row, j) == 0.0
  {
    if |row| > 0 {
      EntryAbsent(row[1..], j);
    }
  }

  /** In a row with distinct columns, the entry at a stored column is its weight. */
  lemma EntryStored(row: Row, i: nat)
    requires i < |row|
    requires forall p, q :: 0 <= p < q < |row| ==> row[p].0 != row[q].0
    ensures Entry(row, row[i].0) == row[i].1
  {
    if i == 0 {
      EntryAbsent(row[1..], row[0].0);
    } else {
      EntryStored(row[1..], i - 1);
    }
  }

  /** With distinct columns and nonzero weights, the nonzero entries are exactly the stored columns. */
  lemma NonzeroIffStored(row: Row, j: nat)
    requires StrictlyIncreasing(Columns(row))
    requires NonzeroWeights(row)
    ensures Entry(row, j) != 0.0 <==> j in Columns(row)
  {
    var cs := Columns(row);
    if j in cs {
      var i :| 0 <= i < |cs| && cs[i] == j;
      EntryStored(row, i);
    } else {
      EntryAbsent(row, j);
    }
  }

  lemma {:induction false} DenseDotSplit(row: Row, x: seq<real>, n: nat)
    requires |row| > 0 && n <= |x|
    ensures DenseDot(row, x, n) == DenseDot(row[..1], x, n) + DenseDot(row[1..], x, n)
  {
    if n > 0 {
      DenseDotSplit(row, x, n - 1);
      assert row == row[..1] + row[1..];
      EntryAppend(row[..1], row[1..], n - 1);
    }
  }

  lemma EntrySingle(c: nat, w: real, j: nat)
    ensures Entry([(c, w)], j) == if j == c then w else 0.0
  {
    assert [(c, w)][1..] == [];
  }

  lemma {:induction false} DenseDotSingle(c: nat, w: real, x: seq<real>, n: nat)
    requires c < n <= |x|
    ensures DenseDot([(c, w)], x, n) == w * x[c]
  {
    EntrySingle(c, w, n - 1);
    if n - 1 == c {
      if c > 0 {
        DenseDotSingleBelow(c, w, x, c);
      }
    } else {
      DenseDotSingle(c, w, x, n - 1);
    }
  }

  lemma {:induction false} DenseDotSingleBelow(c: nat, w: real, x: seq<real>, n: nat)
    requires n <= c && n <= |x|
    ensures DenseDot([(c, w)], x, n) == 0.0
  {
    if n > 0 {
      EntrySingle(c, w, n - 1);
      DenseDotSingleBelow(c, w, x, n - 1);
    }
  }

  /** Compressing the triplets does not change the product: the sparse and the
      dense row-times-vector agree. */
  lemma {:induction false} DotIsDense(row: Row, x: seq<real>)
    requires InRange(row, |x|)
    ensures Dot(row, x) == DenseDot(row, x, |x|)
  {
    if |row| == 0 {
      DenseDotZero(x, |x|);
    } else {
      DenseDotSplit(row, x, |x|);
      DotIsDense(row[1..], x);
      assert row[..1] == [(row[0].0, row[0].1)];
      DenseDotSingle(row[0].0, row[0].1, x, |x|);
    }
  }

  lemma {:induction false} DenseDotZero(x: seq<real>, n: nat)
    requires n <= |x|
    ensures DenseDot([], x, n) == 0.0
  {
    if n > 0 {
      DenseDotZero(x, n - 1);
    }
  }

  /** A dense weighted sum over the first n columns: the sum of w(j) * x[j]. */
  function WeightedSum(w: nat -> real, x: seq<real>, n: nat): real
    requires n <= |x|
  {
    if n == 0 then 0.0 else WeightedSum(w, x, n - 1) + w(n - 1) * x[n - 1]
  }

  /** A row whose compressed entries agree with the weights w multiplies like w. */
  lemma {:induction false} DenseDotPointwise(row: Row, w: nat -> real, x: seq<real>, n: nat)
    requires n <= |x|
    requires forall j :: 0 <= j < n ==> Entry(row, j) == w(j)
    ensures DenseDot(row, x, n) == WeightedSum(w, x, n)
  {
    if n > 0 {
      DenseDotPointwise(row, w, x, n - 1);
    }
  }

  /** The sparse product of a row equals the dense reference product. */
  lemma DotMatchesWeights(row: Row, w: nat -> real, x: seq<real>)
    requires InRange(row, |x|)
    requires forall j :: 0 <= j < |x| ==> Entry(row, j) == w(j)
    ensures Dot(row, x) == WeightedSum(w, x, |x|)
  {
    DotIsDense(row, x);
    DenseDotPointwise(row, w, x, |x|);
  }

  /** A sparse matrix: numRows rows over numCols columns. */
  datatype Matrix = Matrix(numRows: nat, numCols: nat, rows: seq<Row>)
  {
    predicate WellFormed()
    {
      && |rows| == numRows
      && forall i :: 0 <= i < |rows| ==> InRange(rows[i], numCols)
    }

    /** Entry (i, j) of the compressed matrix. */
    function At(i: nat, j: nat): real
      requires i < |rows|
    {
      Entry(rows[i], j)
    }

    /** Matrix times vector. */
    function Apply(x: seq<real>): (y: seq<real>)
      requires WellFormed() && |x| == numCols
      ensures |y| == numRows
      ensures forall i :: 0 <= i < numRows ==> y[i] == DenseDot(rows[i], x, numCols)
    {
      AllDense(x);
      seq(numRows, i requires 0 <= i < numRows => Dot(rows[i], x))
    }

    lemma AllDense(x: seq<real>)
      requires WellFormed() && |x| == numCols
      ensures forall i :: 0 <= i < numRows ==> Dot(rows[i], x) == DenseDot(rows[i], x, numCols)
    {
      forall i | 0 <= i < numRows
        ensures Dot(rows[i], x) == DenseDot(rows[i], x, numCols)
      {
        DotIsDense(rows[i], x);
      }
    }

    /** The matrix has nonzero entries on the diagonal only. */
    ghost predicate Diagonal()
    {
      forall i, j :: 0 <= i < |rows| && 0 <= j < numCols && j != i ==> Entry(rows[i], j) == 0.0
    }
  }
}
