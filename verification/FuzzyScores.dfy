/** The score from what it is meant to reward: where the query first stands, and its longest run there. */
module FuzzyScores {
  import opened Text
  import opened Fuzzy

  /** `r` neighbouring positions from number `i` on. */
  predicate RunAt(p: seq<nat>, i: nat, r: nat) { i + r <= |p| && forall j :: i <= j < i + r ==> p[j] == p[i] + (j - i) }

  ghost predicate HasRun(p: seq<nat>, r: nat) { exists i: nat :: RunAt(p, i, r) }

  ghost predicate LongestIs(p: seq<nat>, r: nat) { HasRun(p, r) && forall n: nat :: HasRun(p, n) ==> n <= r }

  lemma {:induction false} RunEndingIsARun(p: seq<nat>, e: nat)
    requires e < |p|
    ensures RunAt(p, e + 1 - RunEnding(p, e), RunEnding(p, e))
  {
    if e > 0 && p[e - 1] + 1 == p[e] {
      RunEndingIsARun(p, e - 1);
    }
  }

  lemma {:induction false} RunsEndNoSooner(p: seq<nat>, i: nat, r: nat)
    requires RunAt(p, i, r) && r > 0
    ensures RunEnding(p, i + r - 1) >= r
    decreases r
  {
    if r > 1 {
      assert RunAt(p, i, r - 1);
      RunsEndNoSooner(p, i, r - 1);
    }
  }

  lemma {:induction false} LongestBounds(p: seq<nat>, n: nat)
    requires n <= |p|
    ensures forall e :: 0 <= e < n ==> RunEnding(p, e) <= LongestRun(p, n)
    ensures n > 0 ==> exists e :: 0 <= e < n && RunEnding(p, e) == LongestRun(p, n)
  {
    hide RunEnding;
    if n == 0 {
    } else {
      LongestBounds(p, n - 1);
      assert RunEnding(p, n - 1) <= LongestRun(p, n);
    }
  }

  /** The bookkeeping finds the longest run there is. */
  lemma LongestRunIsLongest(p: seq<nat>)
    requires p != []
    ensures LongestIs(p, LongestRun(p, |p|))
  {
    LongestBounds(p, |p|);
    var e :| 0 <= e < |p| && RunEnding(p, e) == LongestRun(p, |p|);
    RunEndingIsARun(p, e);
    hide LongestRun, RunEnding;
    forall n: nat | HasRun(p, n)
      ensures n <= LongestRun(p, |p|)
    {
      var i: nat :| RunAt(p, i, n);
      if n > 0 {
        RunsEndNoSooner(p, i, n);
        assert i + n - 1 < |p|;
      }
    }
  }

  lemma LongestIsUnique(p: seq<nat>, a: nat, b: nat)
    requires LongestIs(p, a) && LongestIs(p, b)
    ensures a == b
  {
  }

  /** The characters of the query at places none of which can be further left. */
  ghost predicate Leftmost(l: string, q: string, p: seq<nat>) {
    Embedding(l, q, p, 0) && forall other :: Embedding(l, q, other, 0) ==>
      |other| == |p| && forall i :: 0 <= i < |p| ==> p[i] <= other[i]
  }

  lemma LeftmostIsGreedy(l: string, q: string, p: seq<nat>)
    requires Leftmost(l, q, p)
    ensures Greedy(l, q, 0) == Some(p)
  {
    GreedyIsComplete(l, q, p, 0);
    GreedyEmbeds(l, q, 0);
    hide Greedy, Embedding;
    var g := Greedy(l, q, 0).value;
    assert |g| == |p| && forall i :: 0 <= i < |p| ==> p[i] <= g[i];
    assert g == p;
  }

  /**
   * The score of a label: a hundred, ten for each letter of the longest run at the leftmost places, and a
   * hundred more for a match at the head or else one less for each letter in front of it.
   */
  lemma ScoreOfPlaces(name: string, query: string, p: seq<nat>, longest: nat)
    requires query != [] && Leftmost(Lower(name), Lower(query), p) && LongestIs(p, longest)
    ensures p != []
    ensures Score(name, query) == Some(100 + 10 * longest + if p[0] == 0 then 100 else 0 - p[0] as int)
  {
    hide *;
    LeftmostIsGreedy(Lower(name), Lower(query), p);
    LeftmostFits(Lower(name), Lower(query), p);
    LongestRunIsLongest(p);
    LongestIsUnique(p, longest, LongestRun(p, |p|));
    ScoreOfGreedy(name, query, p);
  }

  lemma LeftmostFits(l: string, q: string, p: seq<nat>)
    requires Leftmost(l, q, p)
    ensures |p| == |q|
  {
  }

  lemma ScoreOfGreedy(name: string, query: string, p: seq<nat>)
    requires query != [] && p != [] && Greedy(Lower(name), Lower(query), 0) == Some(p)
    ensures Score(name, query) == Some(100 + 10 * LongestRun(p, |p|) + if p[0] == 0 then 100 else 0 - p[0] as int)
  {
    hide Greedy, LongestRun;
  }

  /** From the same first place the longer run wins, and of equal runs the one that starts earlier. */
  lemma ScoresCompare(name: string, other: string, query: string, p: seq<nat>, o: seq<nat>, r: nat, s: nat)
    requires query != [] && Leftmost(Lower(name), Lower(query), p) && LongestIs(p, r)
    requires Leftmost(Lower(other), Lower(query), o) && LongestIs(o, s)
    ensures p != [] && o != [] && Score(name, query).Some? && Score(other, query).Some?
    ensures p[0] == o[0] && r > s ==> Score(name, query).value > Score(other, query).value
    ensures r == s && p[0] < o[0] ==> Score(name, query).value > Score(other, query).value
    ensures r == s && p[0] == o[0] ==> Score(name, query) == Score(other, query)
  {
    hide *;
    ScoreOfPlaces(name, query, p, r);
    ScoreOfPlaces(other, query, o, s);
  }
}
