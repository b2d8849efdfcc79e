/** Contiguous runs: when the greedy scan earns the whole run that a label offers. */
module FuzzyRuns {
  import opened Text
  import opened Fuzzy
  import opened FuzzyRank

  /** The query stands in the label as a whole at `k`. */
  predicate StandsAt(l: string, q: string, k: nat) { k + |q| <= |l| && l[k..k + |q|] == q }

  /** A longest run as long as the query means neighbouring positions throughout. */
  lemma {:induction false} WholeRunIsOne(p: seq<nat>, n: nat)
    requires 0 < n <= |p| && LongestRun(p, n) == n
    ensures RunEnding(p, n - 1) == n && p[n - 1] == p[0] + n - 1
  {
    if n > 1 {
      RunSpan(p, n - 1);
    }
  }

  lemma {:induction false} RunSpan(p: seq<nat>, i: nat)
    requires i < |p|
    ensures p[i] == p[i + 1 - RunEnding(p, i)] + RunEnding(p, i) - 1
  {
    if i > 0 && p[i - 1] + 1 == p[i] {
      RunSpan(p, i - 1);
    }
  }

  lemma GreedyFromFirst(l: string, q: string)
    requires q != []
    ensures var k := FindFrom(l, q[0], 0); Greedy(l, q, 0) == Greedy(l, q, k)
  {
    var k := FindFrom(l, q[0], 0);
    GreedyNext(l, q, 0);
    GreedyNext(l, q, k);
  }

  lemma GreedyAlong(l: string, q: string, k: nat)
    requires StandsAt(l, q, k)
    ensures Greedy(l, q, k) == Some(Onward(k, |q|))
    decreases |q|
  {
    if q != [] {
      assert l[k] == q[0];
      assert l[k + 1..k + |q|] == q[1..] by { assert l[k..k + |q|][1..] == q[1..]; }
      GreedyAlong(l, q[1..], k + 1);
      hide Greedy;
      GreedyNext(l, q, k);
    }
  }

  lemma WholeAtFirstIsARun(l: string, q: string)
    requires q != [] && StandsAt(l, q, FindFrom(l, q[0], 0))
    ensures var g := Greedy(l, q, 0); g.Some? && |g.value| == |q| && LongestRun(g.value, |q|) == |q|
  {
    hide *;
    var k := FindFrom(l, q[0], 0);
    GreedyFromFirst(l, q);
    GreedyAlong(l, q, k);
    var p := Onward(k, |q|);
    OnwardAt(k, |q|, 0);
    forall i | 0 < i < |p| ensures p[i] == p[i - 1] + 1 {
      OnwardAt(k, |q|, i);
      OnwardAt(k, |q|, i - 1);
    }
    OnwardIsARun(p, |p|);
  }

  /** Every placement of the query with a run as long as the query shows it standing as a whole. */
  lemma WholeRunStands(l: string, q: string, p: seq<nat>)
    requires q != [] && Embedding(l, q, p, 0) && LongestRun(p, |p|) == |q|
    ensures p != [] && StandsAt(l, q, p[0])
  {
    SameLength(l, q, p);
    WholeRunIsOne(p, |p|);
    RunIsAPiece(l, q, p, |p| - 1);
    hide LongestRun, RunEnding;
    assert q[0..|q|] == q;
  }

  lemma GreedyStarts(l: string, q: string)
    requires q != [] && Greedy(l, q, 0).Some?
    ensures var g := Greedy(l, q, 0).value; g != [] && g[0] == FindFrom(l, q[0], 0)
  {
    GreedyNext(l, q, 0);
  }

  /**
   * The scan earns a run as long as the query, the longest any placement has, exactly when the query stands
   * as a whole at the first place of its first letter.
   */
  lemma WholeRunIffAtFirst(l: string, q: string)
    requires q != []
    ensures var g := Greedy(l, q, 0);
            (g.Some? && LongestRun(g.value, |g.value|) == |q|) <==> StandsAt(l, q, FindFrom(l, q[0], 0))
  {
    hide *;
    var g := Greedy(l, q, 0);
    if StandsAt(l, q, FindFrom(l, q[0], 0)) {
      WholeAtFirstIsARun(l, q);
    }
    if g.Some? && LongestRun(g.value, |g.value|) == |q| {
      GreedyEmbeds(l, q, 0);
      WholeRunStands(l, q, g.value);
      GreedyStarts(l, q);
    }
  }

  lemma GreedyOfOne(l: string, c: char, i: nat, k: nat)
    requires i <= k < |l| && l[k] == c && forall j :: i <= j < k ==> l[j] != c
    ensures FindFrom(l, c, i) == k && Greedy(l, [c], i) == Some([k])
  {
    assert [c][1..] == [];
    GreedyNext(l, [c], i);
    assert [k] + [] == [k];
  }

  /** A run further right is missed: two scattered letters count although they stand side by side later. */
  lemma GreedyMissesARun()
    ensures Embedding("axbab", "ab", [3, 4], 0) && LongestRun([3, 4], 2) == 2
    ensures Greedy("axbab", "ab", 0) == Some([0, 2]) && LongestRun([0, 2], 2) == 1
  {
    var l := "axbab";
    OnwardIsARun([3, 4], 2);
    EvensHaveNoRun([0, 2], 2);
    hide LongestRun, RunEnding;
    GreedyOfOne(l, 'a', 0, 0);
    GreedyOfOne(l, 'b', 1, 2);
    hide Greedy, FindFrom;
    assert "ab"[1..] == ['b'];
    GreedyNext(l, "ab", 0);
    assert [0] + [2] == [0, 2];
  }
}
