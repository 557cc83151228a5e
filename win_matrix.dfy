/** The dense fallback's input: the `k` by `k` matrix whose cell `(w, l)`
    counts how often `w` beat `l` in the regularised comparisons. */
module WinMatrix {
  import opened Seqs
  import opened Indexing

  /** `np.zeros((k, k))` followed by `win_matrix[winner, loser] += 1` for
      every comparison. */
  method BuildWinMatrix(regularized: seq<Comparison>, k: nat) returns (winMatrix: array2<nat>)
    requires forall c :: c in regularized ==> c.winner < k && c.loser < k
    ensures fresh(winMatrix)
    ensures winMatrix.Length0 == k && winMatrix.Length1 == k
    ensures forall w, l :: 0 <= w < k && 0 <= l < k ==>
              winMatrix[w, l] == Count(regularized, Comparison(w, l))
  {
    winMatrix := new nat[k, k]((w, l) => 0);
    for i := 0 to |regularized|
      invariant forall w, l :: 0 <= w < k && 0 <= l < k ==>
                  winMatrix[w, l] == Count(regularized[..i], Comparison(w, l))
    {
      assert regularized[..i + 1][..i] == regularized[..i];
      assert regularized[..i + 1][i] == regularized[i];
      var winner, loser := regularized[i].winner, regularized[i].loser;
      winMatrix[winner, loser] := winMatrix[winner, loser] + 1;
    }
    assert regularized[..|regularized|] == regularized;
  }

  /** Sum of row `w` over the columns `0..n-1`. */
  function RowSum(cs: seq<Comparison>, w: nat, n: nat): nat {
    if n == 0 then 0 else RowSum(cs, w, n - 1) + Count(cs, Comparison(w, n - 1))
  }

  /** Sum of the rows `0..m-1` over the columns `0..n-1`. */
  function GridSum(cs: seq<Comparison>, m: nat, n: nat): nat {
    if m == 0 then 0 else GridSum(cs, m - 1, n) + RowSum(cs, m - 1, n)
  }

  lemma {:induction false} RowSumStep(cs: seq<Comparison>, w: nat, n: nat)
    requires |cs| > 0
    ensures var c := cs[|cs| - 1];
            RowSum(cs, w, n) == RowSum(cs[..|cs| - 1], w, n) + (if c.winner == w && c.loser < n then 1 else 0)
  {
    if n > 0 {
      RowSumStep(cs, w, n - 1);
    }
  }

  lemma {:induction false} GridSumStep(cs: seq<Comparison>, m: nat, n: nat)
    requires |cs| > 0
    ensures var c := cs[|cs| - 1];
            GridSum(cs, m, n) == GridSum(cs[..|cs| - 1], m, n) + (if c.winner < m && c.loser < n then 1 else 0)
  {
    if m > 0 {
      GridSumStep(cs, m - 1, n);
      RowSumStep(cs, m - 1, n);
    }
  }

  lemma {:induction false} GridSumOfNothing(m: nat, n: nat)
    ensures GridSum([], m, n) == 0
  {
    if m > 0 {
      GridSumOfNothing(m - 1, n);
      RowSumOfNothing(m - 1, n);
    }
  }

  lemma {:induction false} RowSumOfNothing(w: nat, n: nat)
    ensures RowSum([], w, n) == 0
  {
    if n > 0 {
      RowSumOfNothing(w, n - 1);
    }
  }

  /** The counts of the whole matrix add up to the number of comparisons
      (`win_matrix.sum() == len(regularized_comparisons)`). */
  lemma {:induction false} MatrixTotal(cs: seq<Comparison>, k: nat)
    requires forall c :: c in cs ==> c.winner < k && c.loser < k
    ensures GridSum(cs, k, k) == |cs|
  {
    if |cs| == 0 {
      GridSumOfNothing(k, k);
    } else {
      var p := cs[..|cs| - 1];
      assert forall c :: c in p ==> c in cs;
      assert cs[|cs| - 1] in cs;
      MatrixTotal(p, k);
      GridSumStep(cs, k, k);
    }
  }
}
