/**
 * The reference KNN-biasing algorithm of the test helpers (`bias_knn`): each
 * row of a sparse KNN graph keeps its `k_thresh` heaviest neighbours and, among
 * the remaining candidates, loses those whose pseudotime is strictly smaller
 * than the row cell's own. Edges are only ever removed, never added or
 * reweighted.
 */
module KnnBias {
  import opened Wrappers
  import opened Argsort
  import opened Csr
  import opened Exceptions

  /** Upper bound on the number of heaviest neighbours that are always kept. */
  const MaxKeep: int := 30

  function Max(a: int, b: int): int { if a >= b then a else b }

  function Min(a: int, b: int): int { if a <= b then a else b }

  /** `int(np.floor(n / k))` for Python's true division of integers. */
  function FloorDiv(n: int, k: int): int
    requires k != 0
  {
    if k > 0 then n / k else (-n) / (-k)
  }

  /** `FloorDiv` rounds the quotient towards negative infinity, whatever the signs. */
  lemma {:induction false} FloorDivIsFloor(n: int, k: int)
    requires k != 0
    ensures k > 0 ==> k * FloorDiv(n, k) <= n < k * (FloorDiv(n, k) + 1)
    ensures k < 0 ==> k * FloorDiv(n, k) >= n > k * (FloorDiv(n, k) + 1)
  {
    var q := FloorDiv(n, k);
    if k < 0 {
      assert (-k) * q <= -n < (-k) * (q + 1);
    }
  }

  /** The threshold used when no `frac_to_keep` is given: `max(0, min(floor(n_neighbors / k) - 1, 30))`. */
  function FixedKThresh(nNeighbors: int, k: int): (r: Result<int, ExcType>)
    ensures r.Failure? <==> k == 0
    ensures r.Success? ==> 0 <= r.value <= MaxKeep
    ensures r.Success? && 0 <= FloorDiv(nNeighbors, k) - 1 <= MaxKeep ==> r.value == FloorDiv(nNeighbors, k) - 1
  {
    if k == 0 then Failure(ZeroDivisionError)
    else Success(Max(0, Min(FloorDiv(nNeighbors, k) - 1, MaxKeep)))
  }

  /**
   * `max(0, min(30, floor(len(row) * frac_to_keep)))`, the threshold of a row
   * of `rowLen` entries: it lies in `[0, 30]`, is the floored fraction when
   * that does, and is 0 for a non-positive fraction.
   */
  function FracKThresh(frac: real, rowLen: nat): (r: int)
    ensures 0 <= r <= MaxKeep
    ensures 0 <= (rowLen as real * frac).Floor <= MaxKeep ==> r == (rowLen as real * frac).Floor
    ensures frac <= 0.0 ==> r == 0
  {
    assert frac <= 0.0 ==> rowLen as real * frac <= 0.0;
    Max(0, Min(MaxKeep, (rowLen as real * frac).Floor))
  }

  /** The threshold in force for a row: the per-row one when `frac_to_keep` is given, else the fixed one. */
  function RowKThresh(fixed: int, fracToKeep: Option<real>, rowLen: nat): int {
    match fracToKeep
    case None => fixed
    case Some(f) => FracKThresh(f, rowLen)
  }

  /** The matrix is a valid CSR graph whose rows and columns all have a pseudotime. */
  predicate Fits(m: Matrix, pt: seq<real>) {
    Valid(m) && m.nRows <= |pt| && m.nCols <= |pt|
  }

  /**
   * `rem_ixs`: the columns of the candidates, i.e. the entries ranked `kThresh`
   * or later in the descending `order`, whose pseudotime is below `t`. Only
   * columns of the row whose pseudotime is below `t` are removed, and nothing
   * is removed when the threshold covers the whole row.
   */
  function RemovedCols(cols: seq<nat>, order: seq<nat>, kThresh: int, pt: seq<real>, t: real): (r: set<nat>)
    requires IsPermutation(order, |cols|)
    requires forall t :: 0 <= t < |cols| ==> cols[t] < |pt|
    ensures forall c :: c in r ==> c < |pt| && pt[c] < t && c in cols
    ensures kThresh >= |cols| ==> r == {}
  {
    set a | 0 <= a < |order| && kThresh <= a && pt[cols[order[a]]] < t :: cols[order[a]]
  }

  /** `conn_biased[i, rem_ixs] = 0` on one row: every stored entry whose column is removed becomes zero. */
  function ZeroRow(cols: seq<nat>, ws: seq<real>, removed: set<nat>): (r: seq<real>)
    requires |cols| == |ws|
  {
    seq(|ws|, t requires 0 <= t < |ws| => if cols[t] in removed then 0.0 else ws[t])
  }

  lemma {:induction false} RowColsFit(m: Matrix, pt: seq<real>, i: nat)
    requires Fits(m, pt) && i < m.nRows
    ensures forall t :: 0 <= t < |RowCols(m, i)| ==> RowCols(m, i)[t] < |pt|
  {
    assert m.indptr[i + 1] <= m.indptr[m.nRows];
  }

  /** The columns removed from row `i` when its threshold is `kThresh`. */
  function Removed(m: Matrix, pt: seq<real>, i: nat, kThresh: int): set<nat>
    requires Fits(m, pt) && i < m.nRows
  {
    RowColsFit(m, pt, i);
    RemovedCols(RowCols(m, i), ArgsortDescending(RowWeights(m, i)), kThresh, pt, pt[i])
  }

  /** The stored weights of row `i` once its removed candidates are zeroed. */
  function ProcessedRow(m: Matrix, pt: seq<real>, i: nat, kThresh: int): (r: seq<real>)
    requires Fits(m, pt) && i < m.nRows
    ensures |r| == Degree(m, i)
  {
    ZeroRow(RowCols(m, i), RowWeights(m, i), Removed(m, pt, i, kThresh))
  }

  /** The stored weights of every row after it was processed with the threshold in force for it. */
  function BiasedRows(m: Matrix, pt: seq<real>, fixed: int, fracToKeep: Option<real>): (rows: seq<seq<real>>)
    requires Fits(m, pt)
    ensures FitsRows(m, rows)
  {
    seq(m.nRows, i requires 0 <= i < m.nRows => ProcessedRow(m, pt, i, RowKThresh(fixed, fracToKeep, Degree(m, i))))
  }

  /** What `bias_knn` returns: every row processed, then `eliminate_zeros()`. */
  function Biased(m: Matrix, pt: seq<real>, fixed: int, fracToKeep: Option<real>): (r: Matrix)
    requires Fits(m, pt)
    ensures Valid(r) && r.nRows == m.nRows && r.nCols == m.nCols
  {
    EliminateZeros(WithRows(m, BiasedRows(m, pt, fixed, fracToKeep)))
  }

  /**
   * `bias_knn`: copies the graph, zeroes the removed candidates of every row in
   * the copy, and drops the zeros. The connectivity assertions on the input
   * and the output call a function that is not part of this model.
   */
  method BiasKnn(conn: Matrix, pseudotime: seq<real>, nNeighbors: int, k: int, fracToKeep: Option<real>)
    returns (r: Result<Matrix, ExcType>)
    requires Fits(conn, pseudotime)
    ensures k == 0 <==> r == Failure(ZeroDivisionError)
    ensures k != 0 ==> r == Success(Biased(conn, pseudotime, FixedKThresh(nNeighbors, k).value, fracToKeep))
  {
    var fixed := FixedKThresh(nNeighbors, k);
    if fixed.Failure? {
      return Failure(fixed.error);
    }
    var kThresh := fixed.value;
    ghost var rows := BiasedRows(conn, pseudotime, fixed.value, fracToKeep);
    var n := |conn.data|;
    var biased := new real[n](q requires 0 <= q < n => conn.data[q]);
    assert biased[..] == Concat(rows[..0]) + conn.data[conn.indptr[0]..];
    var i := 0;
    while i < conn.nRows
      invariant 0 <= i <= conn.nRows
      invariant fracToKeep.None? ==> kThresh == fixed.value
      invariant biased[..] == Concat(rows[..i]) + conn.data[conn.indptr[i]..]
    {
      if fracToKeep.Some? {
        kThresh := FracKThresh(fracToKeep.value, conn.indptr[i + 1] - conn.indptr[i]);
      }
      assert kThresh == RowKThresh(fixed.value, fracToKeep, Degree(conn, i));
      NextRow(biased, conn, pseudotime, rows, i, kThresh);
      i := i + 1;
    }
    ConcatAll(conn, rows, biased[..]);
    r := Success(EliminateZeros(conn.(data := biased[..])));
  }

  /** Processing row `i` moves the boundary between processed and pending rows past it. */
  method NextRow(biased: array<real>, conn: Matrix, pseudotime: seq<real>, ghost rows: seq<seq<real>>, i: nat, kThresh: int)
    requires Fits(conn, pseudotime) && FitsRows(conn, rows) && i < conn.nRows && biased.Length == |conn.data|
    requires rows[i] == ProcessedRow(conn, pseudotime, i, kThresh)
    requires biased[..] == Concat(rows[..i]) + conn.data[conn.indptr[i]..]
    modifies biased
    ensures biased[..] == Concat(rows[..i + 1]) + conn.data[conn.indptr[i + 1]..]
  {
    ghost var before := biased[..];
    PendingRow(conn, rows, i, before);
    BiasRow(biased, conn, pseudotime, i, kThresh);
    ConcatStep(conn, rows, i, before, biased[..]);
  }

  /**
   * One iteration of `bias_knn`'s row loop: ranks row `i` by descending weight,
   * picks the candidates past the first `kThresh`, and zeroes in `biased` the
   * columns of those whose pseudotime is below the row cell's.
   */
  method BiasRow(biased: array<real>, conn: Matrix, pseudotime: seq<real>, i: nat, kThresh: int)
    requires Fits(conn, pseudotime) && i < conn.nRows && biased.Length == |conn.data|
    requires conn.indptr[i] <= conn.indptr[i + 1] <= biased.Length
    requires biased[conn.indptr[i]..conn.indptr[i + 1]] == RowWeights(conn, i)
    modifies biased
    ensures biased[..] == old(biased[..])[..conn.indptr[i]] + ProcessedRow(conn, pseudotime, i, kThresh)
                          + old(biased[..])[conn.indptr[i + 1]..]
  {
    var s, e := conn.indptr[i], conn.indptr[i + 1];
    var rowData := conn.data[s..e];
    var rowIxs := conn.indices[s..e];
    var currentT := pseudotime[i];
    var order := ArgsortDescending(rowData);
    RowColsFit(conn, pseudotime, i);
    var remCols := RemovedCols(rowIxs, order, kThresh, pseudotime, currentT);
    ZeroColumns(biased, s, e, conn.indices, remCols);
  }

  /**
   * `conn_biased[i, rem_ixs] = 0` for the row stored at positions `s .. e`:
   * zeroes those of its entries whose column is removed and nothing else.
   */
  method ZeroColumns(data: array<real>, s: nat, e: nat, indices: seq<nat>, removed: set<nat>)
    requires s <= e <= data.Length && e <= |indices|
    modifies data
    ensures data[..] == old(data[..])[..s] + ZeroRow(indices[s..e], old(data[s..e]), removed) + old(data[..])[e..]
  {
    ghost var row := ZeroRow(indices[s..e], old(data[s..e]), removed);
    var q := s;
    while q < e
      invariant s <= q <= e
      invariant forall t :: 0 <= t < data.Length && !(s <= t < q) ==> data[t] == old(data[t])
      invariant forall t :: s <= t < q ==> data[t] == row[t - s]
    {
      if indices[q] in removed {
        data[q] := 0.0;
      }
      assert old(data[s..e])[q - s] == old(data[q]);
      q := q + 1;
    }
    ghost var want := old(data[..])[..s] + row + old(data[..])[e..];
    forall t | 0 <= t < data.Length
      ensures data[t] == want[t]
    {
      if s <= t < e {
        assert want[t] == row[t - s];
      }
    }
    assert data[..] == want;
  }

  /**
   * Zeroing the `removed` columns of row `i` and then dropping zeros leaves in
   * that row exactly the input entries that have a non-zero weight and a column
   * that was not removed.
   */
  lemma {:induction false} ZeroedRowMembership(m: Matrix, rows: seq<seq<real>>, i: nat, removed: set<nat>, e: Entry)
    requires Valid(m) && FitsRows(m, rows) && i < m.nRows
    requires rows[i] == ZeroRow(RowCols(m, i), RowWeights(m, i), removed)
    ensures Valid(EliminateZeros(WithRows(m, rows))) && EliminateZeros(WithRows(m, rows)).nRows == m.nRows
    ensures e in RowEntries(EliminateZeros(WithRows(m, rows)), i)
        <==> e in RowEntries(m, i) && e.w != 0.0 && e.col !in removed
  {
    var z := WithRows(m, rows);
    WithRowsEntries(m, rows, i);
    var zrow := RowEntries(z, i);
    var row := RowEntries(m, i);
    assert forall t :: 0 <= t < |zrow| ==>
      zrow[t] == Entry(row[t].col, if row[t].col in removed then 0.0 else row[t].w);
    if e in zrow && e.w != 0.0 {
      var t :| 0 <= t < |zrow| && zrow[t] == e;
      assert row[t] == e;
    }
    if e in row && e.w != 0.0 && e.col !in removed {
      var t :| 0 <= t < |row| && row[t] == e;
      assert zrow[t] == e;
    }
  }

  /**
   * The rows of the result: an entry is in row `i` of `bias_knn`'s output iff
   * it is an entry of row `i` of the input, its weight is not zero and its
   * column was not removed. No edge is added and no weight changes.
   */
  lemma {:induction false} BiasedRowMembership(m: Matrix, pt: seq<real>, fixed: int, fracToKeep: Option<real>, i: nat, e: Entry)
    requires Fits(m, pt) && i < m.nRows
    ensures e in RowEntries(Biased(m, pt, fixed, fracToKeep), i)
        <==> e in RowEntries(m, i) && e.w != 0.0 && e.col !in Removed(m, pt, i, RowKThresh(fixed, fracToKeep, Degree(m, i)))
  {
    var rows := BiasedRows(m, pt, fixed, fracToKeep);
    ZeroedRowMembership(m, rows, i, Removed(m, pt, i, RowKThresh(fixed, fracToKeep, Degree(m, i))), e);
  }

  lemma {:induction false} DistinctAt(p: seq<nat>, x: nat, y: nat)
    requires Distinct(p) && x < |p| && y < |p|
    ensures p[x] == p[y] ==> x == y
  {
    if x < y {
      assert p[x] != p[y];
    } else if y < x {
      assert p[y] != p[x];
    }
  }

  /**
   * In a row whose columns are distinct, a candidate ranked among the first
   * `kThresh` heaviest is never removed, whatever its pseudotime.
   */
  lemma {:induction false} TopRanksNotRemoved(cols: seq<nat>, order: seq<nat>, kThresh: int, pt: seq<real>, t: real, a: nat)
    requires IsPermutation(order, |cols|)
    requires forall q :: 0 <= q < |cols| ==> cols[q] < |pt|
    requires Distinct(cols) && a < |order| && a < kThresh
    ensures cols[order[a]] !in RemovedCols(cols, order, kThresh, pt, t)
  {
    forall b | 0 <= b < |order| && kThresh <= b
      ensures cols[order[b]] != cols[order[a]]
    {
      DistinctAt(order, a, b);
      DistinctAt(cols, order[a], order[b]);
    }
  }

  /**
   * In a row whose columns are distinct, a candidate ranked `kThresh` or later
   * is removed exactly when its pseudotime is below `t`.
   */
  lemma {:induction false} LaterRankRemoved(cols: seq<nat>, order: seq<nat>, kThresh: int, pt: seq<real>, t: real, a: nat)
    requires IsPermutation(order, |cols|)
    requires forall q :: 0 <= q < |cols| ==> cols[q] < |pt|
    requires Distinct(cols) && kThresh <= a < |order|
    ensures cols[order[a]] in RemovedCols(cols, order, kThresh, pt, t) <==> pt[cols[order[a]]] < t
  {
    forall b | 0 <= b < |order| && cols[order[b]] == cols[order[a]]
      ensures b == a
    {
      DistinctAt(cols, order[a], order[b]);
      DistinctAt(order, a, b);
    }
  }

  /**
   * Whatever order the descending sort gives tied weights, an entry with fewer
   * than `kThresh` other entries at least as heavy is never removed.
   */
  lemma {:induction false} HeavyEntryNotRemoved(cols: seq<nat>, ws: seq<real>, order: seq<nat>, kThresh: int,
                                                pt: seq<real>, t: real, p: nat)
    requires |ws| == |cols| && IsPermutation(order, |cols|) && DescendingBy(ws, order)
    requires forall q :: 0 <= q < |cols| ==> cols[q] < |pt|
    requires Distinct(cols) && p < |cols| && |AtLeastAsHeavy(ws, p)| < kThresh
    ensures cols[p] !in RemovedCols(cols, order, kThresh, pt, t)
  {
    assert p in order;
    var a :| 0 <= a < |order| && order[a] == p;
    RankAtMostAtLeastAsHeavy(ws, order, a);
    TopRanksNotRemoved(cols, order, kThresh, pt, t, a);
  }

  /**
   * Whatever order the descending sort gives tied weights, an entry with at
   * least `kThresh` strictly heavier entries is a candidate, removed exactly
   * when its pseudotime is below `t`.
   */
  lemma {:induction false} LightEntryRemovedIff(cols: seq<nat>, ws: seq<real>, order: seq<nat>, kThresh: int,
                                                pt: seq<real>, t: real, p: nat)
    requires |ws| == |cols| && IsPermutation(order, |cols|) && DescendingBy(ws, order)
    requires forall q :: 0 <= q < |cols| ==> cols[q] < |pt|
    requires Distinct(cols) && p < |cols| && |Heavier(ws, p)| >= kThresh
    ensures cols[p] in RemovedCols(cols, order, kThresh, pt, t) <==> pt[cols[p]] < t
  {
    assert p in order;
    var a :| 0 <= a < |order| && order[a] == p;
    HeavierAtMostRank(ws, order, a);
    LaterRankRemoved(cols, order, kThresh, pt, t, a);
  }

  /**
   * `bias_knn` keeps every non-zero edge of row `i` that has fewer than
   * `k_thresh` other edges of the row at least as heavy, however `argsort`
   * orders tied weights (columns of the row distinct).
   */
  lemma {:induction false} BiasedKeepsHeaviest(m: Matrix, pt: seq<real>, fixed: int, fracToKeep: Option<real>, i: nat, t: nat)
    requires Fits(m, pt) && i < m.nRows && Distinct(RowCols(m, i)) && t < Degree(m, i)
    requires |AtLeastAsHeavy(RowWeights(m, i), t)| < RowKThresh(fixed, fracToKeep, Degree(m, i))
    ensures RowEntries(m, i)[t].w != 0.0 ==> RowEntries(m, i)[t] in RowEntries(Biased(m, pt, fixed, fracToKeep), i)
  {
    var kThresh := RowKThresh(fixed, fracToKeep, Degree(m, i));
    var e := RowEntries(m, i)[t];
    RowColsFit(m, pt, i);
    HeavyEntryNotRemoved(RowCols(m, i), RowWeights(m, i), ArgsortDescending(RowWeights(m, i)), kThresh, pt, pt[i], t);
    BiasedRowMembership(m, pt, fixed, fracToKeep, i, e);
  }

  /**
   * A non-zero edge of row `i` with at least `k_thresh` strictly heavier edges
   * in its row survives exactly when its target's pseudotime is at least the
   * row cell's own, however `argsort` orders tied weights (columns of the row
   * distinct).
   */
  lemma {:induction false} BiasedKeepsLaterIff(m: Matrix, pt: seq<real>, fixed: int, fracToKeep: Option<real>, i: nat, t: nat)
    requires Fits(m, pt) && i < m.nRows && Distinct(RowCols(m, i)) && t < Degree(m, i)
    requires |Heavier(RowWeights(m, i), t)| >= RowKThresh(fixed, fracToKeep, Degree(m, i))
    ensures var e := RowEntries(m, i)[t];
            e.col < |pt| &&
            (e in RowEntries(Biased(m, pt, fixed, fracToKeep), i) <==> e.w != 0.0 && pt[e.col] >= pt[i])
  {
    var kThresh := RowKThresh(fixed, fracToKeep, Degree(m, i));
    var e := RowEntries(m, i)[t];
    RowColsFit(m, pt, i);
    LightEntryRemovedIff(RowCols(m, i), RowWeights(m, i), ArgsortDescending(RowWeights(m, i)), kThresh, pt, pt[i], t);
    BiasedRowMembership(m, pt, fixed, fracToKeep, i, e);
  }
}
