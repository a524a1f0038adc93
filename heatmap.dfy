/**
 * The overlap matrix of `create_heatmap`: for each pair of positions i < j
 * in the selected id list, one overlap fetch whose result is written to
 * both (i, j) and (j, i); then the whole diagonal is set to 100.
 *
 * The fetch is a function parameter.  The builder also returns the
 * positions it fetched, in the order it fetched them, so that the number
 * and the order of provider calls can be stated.
 */
module Heatmap {
  import opened Upstream

  /** What `np.fill_diagonal(overlap_matrix, 100)` writes. */
  const SelfOverlap := Percent(100.0)

  /** What `np.zeros` starts every cell with. */
  const Zero := Percent(0.0)

  /** The pairs (i, j), i < j < n, of row i, by increasing j. */
  function Row(n: nat, i: nat): seq<(nat, nat)> {
    seq(if i < n then n - i - 1 else 0, k requires 0 <= k => (i, i + 1 + k))
  }

  /** The pairs of rows 0 .. i-1, row after row. */
  function PairsBefore(n: nat, i: nat): seq<(nat, nat)>
    requires i <= n
  {
    if i == 0 then [] else PairsBefore(n, i - 1) + Row(n, i - 1)
  }

  /** The order in which the nested loop visits the pairs of an n-element list. */
  function FetchOrder(n: nat): seq<(nat, nat)> {
    PairsBefore(n, n)
  }

  /** `p` comes before `q` in row-major order. */
  predicate RowMajorBefore(p: (nat, nat), q: (nat, nat)) {
    p.0 < q.0 || (p.0 == q.0 && p.1 < q.1)
  }

  lemma {:induction false} PairsBeforeCount(n: nat, i: nat)
    requires i <= n
    ensures 2 * |PairsBefore(n, i)| == i * (2 * n - i - 1)
  {
    if i > 0 {
      PairsBeforeCount(n, i - 1);
      assert (i - 1) * (2 * n - (i - 1) - 1) + 2 * (n - i) == i * (2 * n - i - 1);
    }
  }

  /** n(n-1)/2 fetches: one per unordered pair. */
  lemma FetchCount(n: nat)
    ensures |FetchOrder(n)| == n * (n - 1) / 2
  {
    PairsBeforeCount(n, n);
  }

  lemma {:induction false} PairsBeforeMembers(n: nat, i: nat, p: nat, q: nat)
    requires i <= n
    ensures (p, q) in PairsBefore(n, i) <==> p < i && p < q < n
  {
    if i > 0 {
      PairsBeforeMembers(n, i - 1, p, q);
      if p == i - 1 && p < q < n {
        assert Row(n, i - 1)[q - i] == (p, q);
      }
    }
  }

  /** Every pair i < j < n is fetched, and nothing else is. */
  lemma FetchOrderMembers(n: nat, p: nat, q: nat)
    ensures (p, q) in FetchOrder(n) <==> p < q < n
  {
    PairsBeforeMembers(n, n, p, q);
  }

  lemma {:induction false} PairsBeforeSorted(n: nat, i: nat)
    requires i <= n
    ensures forall a, b :: 0 <= a < b < |PairsBefore(n, i)| ==> RowMajorBefore(PairsBefore(n, i)[a], PairsBefore(n, i)[b])
    ensures forall a :: 0 <= a < |PairsBefore(n, i)| ==> PairsBefore(n, i)[a].0 < i
  {
    if i > 0 {
      PairsBeforeSorted(n, i - 1);
    }
  }

  /** The fetches go in row-major order, so no pair is fetched twice. */
  lemma FetchOrderRowMajor(n: nat)
    ensures forall a, b :: 0 <= a < b < |FetchOrder(n)| ==> RowMajorBefore(FetchOrder(n)[a], FetchOrder(n)[b])
    ensures forall a, b :: 0 <= a < b < |FetchOrder(n)| ==> FetchOrder(n)[a] != FetchOrder(n)[b]
  {
    PairsBeforeSorted(n, n);
  }

  /**
   * `create_heatmap` up to the plotting: the n-by-n overlap matrix for `ids`,
   * and the positions passed to `fetch`, in call order.
   */
  method CreateOverlapMatrix(ids: seq<SchemeId>, fetch: (SchemeId, SchemeId) -> Overlap)
    returns (m: array2<Overlap>, calls: seq<(nat, nat)>)
    ensures fresh(m)
    ensures m.Length0 == |ids| && m.Length1 == |ids|
    ensures calls == FetchOrder(|ids|)
    ensures forall i, j :: 0 <= i < j < |ids| ==> m[i, j] == fetch(ids[i], ids[j])
    ensures forall i, j :: 0 <= i < |ids| && 0 <= j < |ids| ==> m[i, j] == m[j, i]
    ensures forall i :: 0 <= i < |ids| ==> m[i, i] == SelfOverlap
  {
    var n := |ids|;
    m := new Overlap[n, n]((_, _) => Zero);
    calls := [];
    for i := 0 to n
      invariant calls == PairsBefore(n, i)
      invariant forall p, q :: 0 <= p < i && p < q < n ==> m[p, q] == fetch(ids[p], ids[q]) && m[q, p] == m[p, q]
    {
      for j := i + 1 to n
        invariant calls == PairsBefore(n, i) + Row(n, i)[..j - i - 1]
        invariant forall p, q :: 0 <= p < i && p < q < n ==> m[p, q] == fetch(ids[p], ids[q]) && m[q, p] == m[p, q]
        invariant forall q :: i < q < j ==> m[i, q] == fetch(ids[i], ids[q]) && m[q, i] == m[i, q]
      {
        var overlap := fetch(ids[i], ids[j]);
        calls := calls + [(i, j)];
        m[i, j] := overlap;
        m[j, i] := overlap;
      }
      assert Row(n, i)[..n - i - 1] == Row(n, i);
    }
    forall k | 0 <= k < n {
      m[k, k] := SelfOverlap;
    }
  }
}
