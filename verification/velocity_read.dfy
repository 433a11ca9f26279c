/**
 * What the velocity kernel reads from the dataset (`_read_from_adata`): the
 * velocity layer and the expression layer, both restricted to the same genes
 * (the chosen gene subset, minus every gene whose velocity has a NaN), and
 * the velocity parameters if stored.
 */
module VelocityRead {
  import opened Wrappers
  import opened Exceptions
  import Argsort

  /** A float as far as this model needs one: a number, or NaN. */
  datatype Num = Finite(value: real) | NaN

  /** A dense cells-by-genes matrix. */
  type Dense = seq<seq<Num>>

  /** Every row of `x` has `nCols` entries. */
  predicate Rect(x: Dense, nCols: nat) {
    forall r :: 0 <= r < |x| ==> |x[r]| == nCols
  }

  /** An entry of `.uns`, known only by identity. */
  datatype Stored = Stored(id: nat)

  /** The parts of an `AnnData` object the kernel reads. */
  datatype AnnData = AnnData(
    nObs: nat,
    varNames: seq<string>,
    layers: map<string, Dense>,            // `.layers`
    varColumns: map<string, seq<bool>>,    // the boolean columns of `.var`
    uns: map<string, Stored>)              // `.uns`

  /** Every layer is `n_obs x n_vars`, every `.var` column has `n_vars` entries. */
  predicate WellFormed(a: AnnData) {
    && (forall k :: k in a.layers ==> |a.layers[k]| == a.nObs && Rect(a.layers[k], |a.varNames|))
    && (forall k :: k in a.varColumns ==> |a.varColumns[k]| == |a.varNames|)
  }

  // ---------------------------------------------------------------------------
  // Column selection

  predicate Below(ix: seq<nat>, n: nat) {
    forall k :: 0 <= k < |ix| ==> ix[k] < n
  }

  predicate Increasing(ix: seq<nat>) {
    forall a, b :: 0 <= a < b < |ix| ==> ix[a] < ix[b]
  }

  /** The positions of the `True` entries of a boolean mask, in order (`np.flatnonzero`). */
  function TrueIndices(mask: seq<bool>): (ix: seq<nat>)
    ensures Below(ix, |mask|) && Increasing(ix)
    ensures forall k :: 0 <= k < |ix| ==> mask[ix[k]]
    ensures forall i :: 0 <= i < |mask| && mask[i] ==> i in ix
  {
    if |mask| == 0 then []
    else
      var n := |mask| - 1;
      var p := TrueIndices(mask[..n]);
      assert forall i :: 0 <= i < n && mask[i] ==> mask[..n][i];
      p + (if mask[n] then [n] else [])
  }

  /** A mask that is all `True` selects every position, in order. */
  lemma {:induction false} TrueIndicesAll(mask: seq<bool>)
    requires forall i :: 0 <= i < |mask| ==> mask[i]
    ensures TrueIndices(mask) == Argsort.Range(|mask|)
  {
    if |mask| > 0 {
      var n := |mask| - 1;
      TrueIndicesAll(mask[..n]);
    }
  }

  /** `x[:, ix]`. */
  function SelectCols(x: Dense, n: nat, ix: seq<nat>): (y: Dense)
    requires Rect(x, n) && Below(ix, n)
    ensures |y| == |x| && Rect(y, |ix|)
    ensures forall r, k :: 0 <= r < |x| && 0 <= k < |ix| ==> y[r][k] == x[r][ix[k]]
  {
    seq(|x|, r requires 0 <= r < |x| => seq(|ix|, k requires 0 <= k < |ix| => x[r][ix[k]]))
  }

  /** `ix[jx]`: positions of a selection, as positions of the original. */
  function Compose(ix: seq<nat>, jx: seq<nat>): (c: seq<nat>)
    requires Below(jx, |ix|)
    ensures |c| == |jx| && forall k :: 0 <= k < |jx| ==> c[k] == ix[jx[k]]
  {
    seq(|jx|, k requires 0 <= k < |jx| => ix[jx[k]])
  }

  /** Selecting twice is selecting once by the composed positions. */
  lemma {:induction false} SelectSelect(x: Dense, n: nat, ix: seq<nat>, jx: seq<nat>)
    requires Rect(x, n) && Below(ix, n) && Below(jx, |ix|)
    ensures Below(Compose(ix, jx), n)
    ensures SelectCols(SelectCols(x, n, ix), |ix|, jx) == SelectCols(x, n, Compose(ix, jx))
  {
    var y := SelectCols(SelectCols(x, n, ix), |ix|, jx);
    var z := SelectCols(x, n, Compose(ix, jx));
    forall r | 0 <= r < |x|
      ensures y[r] == z[r]
    {
    }
  }

  /** Selecting every column changes nothing. */
  lemma {:induction false} SelectAll(x: Dense, n: nat)
    requires Rect(x, n)
    ensures SelectCols(x, n, Argsort.Range(n)) == x
  {
    var y := SelectCols(x, n, Argsort.Range(n));
    forall r | 0 <= r < |x|
      ensures y[r] == x[r]
    {
    }
  }

  /** Selecting increasing positions keeps them increasing. */
  lemma {:induction false} ComposeIncreasing(ix: seq<nat>, jx: seq<nat>)
    requires Below(jx, |ix|) && Increasing(ix) && Increasing(jx)
    ensures Increasing(Compose(ix, jx))
  {
  }

  // ---------------------------------------------------------------------------
  // NaN columns

  /** `np.isnan(np.sum(V, axis=0))[j]`: some cell's value for gene `j` is NaN. */
  predicate ColumnHasNaN(v: Dense, n: nat, j: nat)
    requires Rect(v, n) && j < n
  {
    exists r :: 0 <= r < |v| && v[r][j] == NaN
  }

  /** `~nans`: the columns without a NaN. */
  function FiniteColumns(v: Dense, n: nat): (keep: seq<bool>)
    requires Rect(v, n)
    ensures |keep| == n && forall j :: 0 <= j < n ==> (keep[j] <==> !ColumnHasNaN(v, n, j))
  {
    seq(n, j requires 0 <= j < n => !ColumnHasNaN(v, n, j))
  }

  /** A column of a selection has a NaN exactly when the selected column of the original has one. */
  lemma {:induction false} SelectedNaN(v: Dense, n: nat, ix: seq<nat>, k: nat)
    requires Rect(v, n) && Below(ix, n) && k < |ix|
    ensures ColumnHasNaN(SelectCols(v, n, ix), |ix|, k) <==> ColumnHasNaN(v, n, ix[k])
  {
    var w := SelectCols(v, n, ix);
    if ColumnHasNaN(v, n, ix[k]) {
      var r :| 0 <= r < |v| && v[r][ix[k]] == NaN;
      assert w[r][k] == NaN;
    }
  }

  // ---------------------------------------------------------------------------
  // Reading

  /**
   * The gene mask: all genes, narrowed by membership in `gene_subset` when
   * one is given, else by the `{vkey}_genes` column of `.var` when present.
   */
  function GeneMask(a: AnnData, vkey: string, geneSubset: Option<seq<string>>): (mask: seq<bool>)
    requires WellFormed(a)
    ensures |mask| == |a.varNames|
    ensures geneSubset.Some? ==> forall i :: 0 <= i < |mask| ==> (mask[i] <==> a.varNames[i] in geneSubset.value)
    ensures geneSubset.None? && vkey + "_genes" in a.varColumns ==> mask == a.varColumns[vkey + "_genes"]
    ensures geneSubset.None? && vkey + "_genes" !in a.varColumns ==> forall i :: 0 <= i < |mask| ==> mask[i]
  {
    var n := |a.varNames|;
    match geneSubset
    case Some(genes) => seq(n, i requires 0 <= i < n => a.varNames[i] in genes)
    case None =>
      if vkey + "_genes" in a.varColumns then a.varColumns[vkey + "_genes"]
      else seq(n, i requires 0 <= i < n => true)
  }

  /** The expression layer used: `xkey` if present, else `"spliced"`. */
  function XKey(a: AnnData, xkey: string): (k: string)
    ensures xkey in a.layers ==> k == xkey
    ensures xkey !in a.layers ==> k == "spliced"
  {
    if xkey in a.layers then xkey else "spliced"
  }

  /** What `_read_from_adata` stores on the kernel. */
  datatype Read = Read(velocity: Dense, expression: Dense, velocityParams: Option<Stored>)

  /**
   * `_read_from_adata` of the velocity kernel: `KeyError` when the velocity
   * layer or the expression layer is missing; otherwise both layers are
   * restricted to the gene mask, and then the genes whose velocity has a NaN
   * are dropped from both.
   */
  function ReadFromAdata(a: AnnData, vkey: string, xkey: string, geneSubset: Option<seq<string>>)
    : (r: Result<Read, ExcType>)
    requires WellFormed(a)
    ensures r.Failure? <==> vkey !in a.layers || XKey(a, xkey) !in a.layers
    ensures r.Failure? ==> r.error == KeyError
    ensures r.Success? ==> (r.value.velocityParams.Some? <==> vkey + "_params" in a.uns)
    ensures r.Success? && r.value.velocityParams.Some? ==> r.value.velocityParams.value == a.uns[vkey + "_params"]
  {
    if vkey !in a.layers then Failure(KeyError)
    else
      var xk := XKey(a, xkey);
      if xk !in a.layers then Failure(KeyError)
      else
        var n := |a.varNames|;
        var sel := TrueIndices(GeneMask(a, vkey, geneSubset));
        var x := SelectCols(a.layers[xk], n, sel);
        var v := SelectCols(a.layers[vkey], n, sel);
        var finite := FiniteColumns(v, |sel|);
        var params := if vkey + "_params" in a.uns then Some(a.uns[vkey + "_params"]) else None;
        if false in finite then
          var keep := TrueIndices(finite);
          Success(Read(SelectCols(v, |sel|, keep), SelectCols(x, |sel|, keep), params))
        else
          Success(Read(v, x, params))
  }

  /** The genes both stored matrices keep, as positions in `.var_names`. */
  function KeptGenes(a: AnnData, vkey: string, geneSubset: Option<seq<string>>): (kept: seq<nat>)
    requires WellFormed(a) && vkey in a.layers
    ensures Below(kept, |a.varNames|)
  {
    var n := |a.varNames|;
    var sel := TrueIndices(GeneMask(a, vkey, geneSubset));
    Compose(sel, TrueIndices(FiniteColumns(SelectCols(a.layers[vkey], n, sel), |sel|)))
  }

  /** A kept gene is selected by the mask and has no NaN velocity. */
  lemma {:induction false} KeptGeneSelectedFinite(a: AnnData, vkey: string, geneSubset: Option<seq<string>>, j: nat)
    requires WellFormed(a) && vkey in a.layers && j < |a.varNames|
    requires j in KeptGenes(a, vkey, geneSubset)
    ensures GeneMask(a, vkey, geneSubset)[j] && !ColumnHasNaN(a.layers[vkey], |a.varNames|, j)
  {
    var n := |a.varNames|;
    var sel := TrueIndices(GeneMask(a, vkey, geneSubset));
    var keep := TrueIndices(FiniteColumns(SelectCols(a.layers[vkey], n, sel), |sel|));
    var kept := Compose(sel, keep);
    var k :| 0 <= k < |kept| && kept[k] == j;
    SelectedNaN(a.layers[vkey], n, sel, keep[k]);
  }

  /** A gene selected by the mask and without NaN velocity is kept. */
  lemma {:induction false} SelectedFiniteGeneKept(a: AnnData, vkey: string, geneSubset: Option<seq<string>>, j: nat)
    requires WellFormed(a) && vkey in a.layers && j < |a.varNames|
    requires GeneMask(a, vkey, geneSubset)[j] && !ColumnHasNaN(a.layers[vkey], |a.varNames|, j)
    ensures j in KeptGenes(a, vkey, geneSubset)
  {
    var n := |a.varNames|;
    var sel := TrueIndices(GeneMask(a, vkey, geneSubset));
    var keep := TrueIndices(FiniteColumns(SelectCols(a.layers[vkey], n, sel), |sel|));
    var kept := Compose(sel, keep);
    var s :| 0 <= s < |sel| && sel[s] == j;
    SelectedNaN(a.layers[vkey], n, sel, s);
    var k :| 0 <= k < |keep| && keep[k] == s;
    assert kept[k] == j;
  }

  /**
   * A gene is kept exactly when the mask selects it and its velocity has no
   * NaN in any cell; the kept genes keep their order.
   */
  lemma {:induction false} KeptGenesExactly(a: AnnData, vkey: string, geneSubset: Option<seq<string>>, j: nat)
    requires WellFormed(a) && vkey in a.layers && j < |a.varNames|
    ensures Increasing(KeptGenes(a, vkey, geneSubset))
    ensures j in KeptGenes(a, vkey, geneSubset) <==>
              GeneMask(a, vkey, geneSubset)[j] && !ColumnHasNaN(a.layers[vkey], |a.varNames|, j)
  {
    var n := |a.varNames|;
    var sel := TrueIndices(GeneMask(a, vkey, geneSubset));
    ComposeIncreasing(sel, TrueIndices(FiniteColumns(SelectCols(a.layers[vkey], n, sel), |sel|)));
    if j in KeptGenes(a, vkey, geneSubset) {
      KeptGeneSelectedFinite(a, vkey, geneSubset, j);
    }
    if GeneMask(a, vkey, geneSubset)[j] && !ColumnHasNaN(a.layers[vkey], n, j) {
      SelectedFiniteGeneKept(a, vkey, geneSubset, j);
    }
  }

  /**
   * On success, the velocities and the expression are the two layers
   * restricted to the same kept genes, and no stored velocity is NaN.
   */
  lemma {:induction false} ReadKeepsSameGenes(a: AnnData, vkey: string, xkey: string, geneSubset: Option<seq<string>>)
    requires WellFormed(a) && ReadFromAdata(a, vkey, xkey, geneSubset).Success?
    ensures var r := ReadFromAdata(a, vkey, xkey, geneSubset).value;
            var kept := KeptGenes(a, vkey, geneSubset);
            && r.velocity == SelectCols(a.layers[vkey], |a.varNames|, kept)
            && r.expression == SelectCols(a.layers[XKey(a, xkey)], |a.varNames|, kept)
            && |r.velocity| == |r.expression| == a.nObs
            && (forall c, g :: 0 <= c < a.nObs && 0 <= g < |kept| ==> r.velocity[c][g] != NaN)
  {
    var n := |a.varNames|;
    var xk := XKey(a, xkey);
    var sel := TrueIndices(GeneMask(a, vkey, geneSubset));
    var x := SelectCols(a.layers[xk], n, sel);
    var v := SelectCols(a.layers[vkey], n, sel);
    var finite := FiniteColumns(v, |sel|);
    var keep := TrueIndices(finite);
    var r := ReadFromAdata(a, vkey, xkey, geneSubset).value;
    SelectSelect(a.layers[vkey], n, sel, keep);
    SelectSelect(a.layers[xk], n, sel, keep);
    if false !in finite {
      TrueIndicesAll(finite);
      SelectAll(v, |sel|);
      SelectAll(x, |sel|);
    }
    assert r.velocity == SelectCols(v, |sel|, keep);
    forall c, g | 0 <= c < a.nObs && 0 <= g < |keep|
      ensures r.velocity[c][g] != NaN
    {
      assert finite[keep[g]];
      assert !ColumnHasNaN(v, |sel|, keep[g]);
    }
  }
}
