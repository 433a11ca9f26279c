/**
 * SciPy's compressed-sparse-row matrix, as far as the KNN graph code uses it:
 * row `i` stores its entries at positions `indptr[i] .. indptr[i+1]` of the
 * parallel sequences `indices` (columns) and `data` (weights).
 */
module Csr {

  /** One stored entry of a row: its column and its weight. */
  datatype Entry = Entry(col: nat, w: real)

  datatype Matrix = Matrix(nRows: nat, nCols: nat, indptr: seq<nat>, indices: seq<nat>, data: seq<real>)

  /** The CSR structure invariant that SciPy maintains. */
  predicate Valid(m: Matrix) {
    && |m.indptr| == m.nRows + 1
    && m.indptr[0] == 0
    && m.indptr[m.nRows] == |m.indices| == |m.data|
    && (forall a, b :: 0 <= a <= b <= m.nRows ==> m.indptr[a] <= m.indptr[b])
    && (forall q :: 0 <= q < |m.indices| ==> m.indices[q] < m.nCols)
  }

  /** Number of stored entries of row `i` (`indptr[i+1] - indptr[i]`). */
  function Degree(m: Matrix, i: nat): nat
    requires Valid(m) && i < m.nRows
  {
    m.indptr[i + 1] - m.indptr[i]
  }

  function RowCols(m: Matrix, i: nat): seq<nat>
    requires Valid(m) && i < m.nRows
  {
    m.indices[m.indptr[i]..m.indptr[i + 1]]
  }

  function RowWeights(m: Matrix, i: nat): seq<real>
    requires Valid(m) && i < m.nRows
  {
    m.data[m.indptr[i]..m.indptr[i + 1]]
  }

  /** The stored entries of row `i`, in storage order. */
  function RowEntries(m: Matrix, i: nat): (r: seq<Entry>)
    requires Valid(m) && i < m.nRows
    ensures |r| == Degree(m, i)
    ensures forall t :: 0 <= t < |r| ==> r[t] == Entry(m.indices[m.indptr[i] + t], m.data[m.indptr[i] + t])
  {
    assert m.indptr[i + 1] <= m.indptr[m.nRows];
    var cols, ws := RowCols(m, i), RowWeights(m, i);
    seq(|cols|, t requires 0 <= t < |cols| => Entry(cols[t], ws[t]))
  }

  function Cols(row: seq<Entry>): seq<nat> {
    seq(|row|, t requires 0 <= t < |row| => row[t].col)
  }

  function Weights(row: seq<Entry>): seq<real> {
    seq(|row|, t requires 0 <= t < |row| => row[t].w)
  }

  /** Lays out `rows` one after another, the way SciPy builds a CSR matrix row by row. */
  function FromRows(rows: seq<seq<Entry>>, nCols: nat): (m: Matrix)
    ensures m.nRows == |rows| && m.nCols == nCols
    ensures |m.indptr| == |rows| + 1 && m.indptr[0] == 0
    ensures m.indptr[|rows|] == |m.indices| == |m.data|
  {
    if rows == [] then Matrix(0, nCols, [0], [], [])
    else
      var prev := FromRows(rows[..|rows| - 1], nCols);
      var last := rows[|rows| - 1];
      Matrix(|rows|, nCols, prev.indptr + [|prev.indices| + |last|],
             prev.indices + Cols(last), prev.data + Weights(last))
  }

  predicate ColsBelow(rows: seq<seq<Entry>>, nCols: nat) {
    forall i, t :: 0 <= i < |rows| && 0 <= t < |rows[i]| ==> rows[i][t].col < nCols
  }

  /** Reading back the rows of a matrix laid out by `FromRows` gives the rows it was built from. */
  lemma {:induction false} FromRowsRoundTrip(rows: seq<seq<Entry>>, nCols: nat)
    requires ColsBelow(rows, nCols)
    ensures Valid(FromRows(rows, nCols))
    ensures forall i :: 0 <= i < |rows| ==> RowEntries(FromRows(rows, nCols), i) == rows[i]
  {
    if rows != [] {
      var n := |rows|;
      var init := rows[..n - 1];
      assert ColsBelow(init, nCols) by {
        forall i, t | 0 <= i < |init| && 0 <= t < |init[i]| ensures init[i][t].col < nCols {
          assert init[i] == rows[i];
        }
      }
      FromRowsRoundTrip(init, nCols);
      AppendRowValid(rows, nCols);
      var prev := FromRows(init, nCols);
      var m := FromRows(rows, nCols);
      forall i | 0 <= i < n ensures RowEntries(m, i) == rows[i] {
        if i < n - 1 {
          AppendRowKeepsEarlier(rows, nCols, i);
          assert rows[i] == init[i];
        } else {
          AppendRowReadsBack(rows, nCols);
        }
      }
    }
  }

  /** The step of `FromRowsRoundTrip`: appending a row to a valid layout keeps it valid. */
  lemma {:induction false} AppendRowValid(rows: seq<seq<Entry>>, nCols: nat)
    requires rows != [] && ColsBelow(rows, nCols)
    requires Valid(FromRows(rows[..|rows| - 1], nCols))
    ensures Valid(FromRows(rows, nCols))
  {
    var n := |rows|;
    var prev := FromRows(rows[..n - 1], nCols);
    var last := rows[n - 1];
    var m := FromRows(rows, nCols);
    forall a, b | 0 <= a <= b <= n ensures m.indptr[a] <= m.indptr[b] {
      if b < n {
        assert m.indptr[a] == prev.indptr[a] && m.indptr[b] == prev.indptr[b];
      } else if a < n {
        assert m.indptr[a] == prev.indptr[a] <= prev.indptr[n - 1];
      }
    }
    forall q | 0 <= q < |m.indices| ensures m.indices[q] < nCols {
      if q >= |prev.indices| {
        assert m.indices[q] == last[q - |prev.indices|].col;
      } else {
        assert m.indices[q] == prev.indices[q];
      }
    }
  }

  /** The step of `FromRowsRoundTrip` for an earlier row: appending a row does not change it. */
  lemma {:induction false} AppendRowKeepsEarlier(rows: seq<seq<Entry>>, nCols: nat, i: nat)
    requires rows != [] && i < |rows| - 1
    requires Valid(FromRows(rows, nCols)) && Valid(FromRows(rows[..|rows| - 1], nCols))
    ensures RowEntries(FromRows(rows, nCols), i) == RowEntries(FromRows(rows[..|rows| - 1], nCols), i)
  {
    var n := |rows|;
    var prev := FromRows(rows[..n - 1], nCols);
    var m := FromRows(rows, nCols);
    var lo, hi := prev.indptr[i], prev.indptr[i + 1];
    assert m.indptr[i] == lo && m.indptr[i + 1] == hi;
    assert hi <= prev.indptr[n - 1] == |prev.indices|;
    assert m.indices[lo..hi] == prev.indices[lo..hi];
    assert m.data[lo..hi] == prev.data[lo..hi];
  }

  /** The step of `FromRowsRoundTrip` for the appended row: it reads back as itself. */
  lemma {:induction false} AppendRowReadsBack(rows: seq<seq<Entry>>, nCols: nat)
    requires rows != [] && Valid(FromRows(rows, nCols))
    ensures RowEntries(FromRows(rows, nCols), |rows| - 1) == rows[|rows| - 1]
  {
    var n := |rows|;
    var prev := FromRows(rows[..n - 1], nCols);
    var last := rows[n - 1];
    var m := FromRows(rows, nCols);
    assert m.indptr[n - 1] == |prev.indices|;
    assert m.indices[|prev.indices|..] == Cols(last);
    assert m.data[|prev.data|..] == Weights(last);
  }

  /** Per-row weight sequences, one per row of `m`, each as long as that row. */
  predicate FitsRows(m: Matrix, rows: seq<seq<real>>)
    requires Valid(m)
  {
    |rows| == m.nRows && forall i :: 0 <= i < m.nRows ==> |rows[i]| == Degree(m, i)
  }

  /** The rows' weights laid out one after another. */
  function Concat(rows: seq<seq<real>>): seq<real> {
    if rows == [] then [] else Concat(rows[..|rows| - 1]) + rows[|rows| - 1]
  }

  /** Laid out one after another, the first `i` rows end at `indptr[i]`. */
  lemma {:induction false} ConcatLength(m: Matrix, rows: seq<seq<real>>, i: nat)
    requires Valid(m) && FitsRows(m, rows) && i <= m.nRows
    ensures |Concat(rows[..i])| == m.indptr[i]
  {
    if i > 0 {
      ConcatLength(m, rows, i - 1);
      assert rows[..i][..i - 1] == rows[..i - 1];
      assert |rows[i - 1]| == Degree(m, i - 1);
    }
  }

  /** Laid out one after another, row `r` sits at its own positions among the first `i` rows. */
  lemma {:induction false} ConcatRowAt(m: Matrix, rows: seq<seq<real>>, i: nat, r: nat)
    requires Valid(m) && FitsRows(m, rows) && r < i <= m.nRows
    ensures |Concat(rows[..i])| == m.indptr[i]
    ensures m.indptr[r] <= m.indptr[r + 1] <= m.indptr[i] && Concat(rows[..i])[m.indptr[r]..m.indptr[r + 1]] == rows[r]
  {
    assert rows[..i][..i - 1] == rows[..i - 1];
    var prev := Concat(rows[..i - 1]);
    var whole := Concat(rows[..i]);
    assert whole == prev + rows[i - 1];
    ConcatLength(m, rows, i - 1);
    ConcatLength(m, rows, i);
    if r < i - 1 {
      ConcatRowAt(m, rows, i - 1, r);
      assert whole[..|prev|] == prev;
      assert whole[m.indptr[r]..m.indptr[r + 1]] == prev[m.indptr[r]..m.indptr[r + 1]];
    } else {
      assert whole[|prev|..] == rows[i - 1];
    }
  }

  /** Laid out one after another, the first `i` rows end at `indptr[i]` and row `r` sits at its own positions. */
  lemma {:induction false} ConcatRows(m: Matrix, rows: seq<seq<real>>, i: nat)
    requires Valid(m) && FitsRows(m, rows) && i <= m.nRows
    ensures |Concat(rows[..i])| == m.indptr[i]
    ensures forall r {:trigger rows[r]} :: 0 <= r < i ==>
      m.indptr[r] <= m.indptr[r + 1] <= m.indptr[i] && Concat(rows[..i])[m.indptr[r]..m.indptr[r + 1]] == rows[r]
  {
    ConcatLength(m, rows, i);
    forall r {:trigger rows[r]} | 0 <= r < i
      ensures m.indptr[r] <= m.indptr[r + 1] <= m.indptr[i] && Concat(rows[..i])[m.indptr[r]..m.indptr[r + 1]] == rows[r]
    {
      ConcatRowAt(m, rows, i, r);
    }
  }

  /** Before row `i` is written, its positions still hold the weights of `m`. */
  lemma {:induction false} PendingRow(m: Matrix, rows: seq<seq<real>>, i: nat, cur: seq<real>)
    requires Valid(m) && FitsRows(m, rows) && i < m.nRows
    requires cur == Concat(rows[..i]) + m.data[m.indptr[i]..]
    ensures m.indptr[i] <= m.indptr[i + 1] <= |cur| == |m.data|
    ensures cur[m.indptr[i]..m.indptr[i + 1]] == RowWeights(m, i)
  {
    ConcatRows(m, rows, i);
    assert m.indptr[i + 1] <= m.indptr[m.nRows];
  }

  /** Writing row `i` right after the first `i` rows extends the layout by that row. */
  lemma {:induction false} ConcatStep(m: Matrix, rows: seq<seq<real>>, i: nat, before: seq<real>, after: seq<real>)
    requires Valid(m) && FitsRows(m, rows) && i < m.nRows
    requires before == Concat(rows[..i]) + m.data[m.indptr[i]..]
    requires m.indptr[i] <= m.indptr[i + 1] <= |before|
    requires after == before[..m.indptr[i]] + rows[i] + before[m.indptr[i + 1]..]
    ensures after == Concat(rows[..i + 1]) + m.data[m.indptr[i + 1]..]
  {
    ConcatRows(m, rows, i);
    var s, e := m.indptr[i], m.indptr[i + 1];
    assert before[..s] == Concat(rows[..i]);
    assert before[e..] == m.data[e..];
    assert rows[..i + 1][..i] == rows[..i];
    assert Concat(rows[..i + 1]) == Concat(rows[..i]) + rows[i];
  }

  /** Once every row is written, the layout holds exactly the rows. */
  lemma {:induction false} ConcatAll(m: Matrix, rows: seq<seq<real>>, cur: seq<real>)
    requires Valid(m) && FitsRows(m, rows)
    requires cur == Concat(rows[..m.nRows]) + m.data[m.indptr[m.nRows]..]
    ensures m.(data := cur) == WithRows(m, rows)
  {
    ConcatRows(m, rows, m.nRows);
    assert rows[..m.nRows] == rows;
    assert m.data[m.indptr[m.nRows]..] == [];
  }

  /** `m` with its stored weights replaced, row by row, by `rows`. */
  function WithRows(m: Matrix, rows: seq<seq<real>>): (z: Matrix)
    requires Valid(m) && FitsRows(m, rows)
    ensures Valid(z) && z.nRows == m.nRows && z.nCols == m.nCols
  {
    ConcatRows(m, rows, m.nRows);
    assert rows[..m.nRows] == rows;
    m.(data := Concat(rows))
  }

  /** Row `i` of `WithRows(m, rows)` has the columns of row `i` of `m` and the weights `rows[i]`. */
  lemma {:induction false} WithRowsEntries(m: Matrix, rows: seq<seq<real>>, i: nat)
    requires Valid(m) && FitsRows(m, rows) && i < m.nRows
    ensures forall t :: 0 <= t < Degree(m, i) ==>
      RowEntries(WithRows(m, rows), i)[t] == Entry(RowEntries(m, i)[t].col, rows[i][t])
  {
    ConcatRows(m, rows, m.nRows);
    assert rows[..m.nRows] == rows;
    var lo := m.indptr[i];
    forall t | 0 <= t < Degree(m, i)
      ensures RowEntries(WithRows(m, rows), i)[t] == Entry(RowEntries(m, i)[t].col, rows[i][t])
    {
      assert Concat(rows)[lo + t] == Concat(rows)[lo..m.indptr[i + 1]][t];
    }
  }

  /** The entries of `row` whose weight is not zero, in their original order. */
  function NonZero(row: seq<Entry>): (r: seq<Entry>)
    ensures forall e :: e in r <==> e in row && e.w != 0.0
    ensures |r| <= |row|
    ensures |r| == |row| <==> forall t :: 0 <= t < |row| ==> row[t].w != 0.0
  {
    if row == [] then []
    else if row[0].w != 0.0 then [row[0]] + NonZero(row[1..])
    else NonZero(row[1..])
  }

  /**
   * `eliminate_zeros()`: drops every stored entry whose weight is zero. The
   * result is a valid matrix of the same shape in which each row holds exactly
   * the non-zero entries it held before, in their order.
   */
  function EliminateZeros(m: Matrix): (z: Matrix)
    requires Valid(m)
    ensures Valid(z) && z.nRows == m.nRows && z.nCols == m.nCols
    ensures forall i :: 0 <= i < m.nRows ==> RowEntries(z, i) == NonZero(RowEntries(m, i))
  {
    var rows: seq<seq<Entry>> := seq(m.nRows, i requires 0 <= i < m.nRows => NonZero(RowEntries(m, i)));
    assert forall i, t | 0 <= i < |rows| && 0 <= t < |rows[i]| :: rows[i][t].col < m.nCols by {
      forall i, t | 0 <= i < |rows| && 0 <= t < |rows[i]| ensures rows[i][t].col < m.nCols {
        assert rows[i][t] in RowEntries(m, i);
        var u :| 0 <= u < Degree(m, i) && RowEntries(m, i)[u] == rows[i][t];
        assert m.indptr[i + 1] <= m.indptr[m.nRows];
      }
    }
    FromRowsRoundTrip(rows, m.nCols);
    FromRows(rows, m.nCols)
  }
}
