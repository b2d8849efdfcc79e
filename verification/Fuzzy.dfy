/** Fuzzy matching of completions: the greedy scan and its score. */
module Fuzzy {
  import opened Text

  // ----- subsequences -----

  /** Positions at which the characters of `q` stand in `l`, in order, from `from` on. */
  ghost predicate Embedding(l: string, q: string, p: seq<nat>, from: nat) {
    && |p| == |q|
    && (forall i :: 0 <= i < |p| ==> from <= p[i] < |l| && l[p[i]] == q[i])
    && (forall i, j :: 0 <= i < j < |p| ==> p[i] < p[j])
  }

  /** The first `c` from `i` on, or the length. */
  function FindFrom(l: string, c: char, i: nat): (k: nat)
    requires i <= |l|
    ensures i <= k <= |l| && (k < |l| ==> l[k] == c)
    ensures forall j :: i <= j < k ==> l[j] != c
    decreases |l| - i
  {
    if i < |l| && l[i] != c then FindFrom(l, c, i + 1) else i
  }

  /** Every character at the first place the ones before leave for it. */
  function Greedy(l: string, q: string, from: nat): Option<seq<nat>>
    requires from <= |l|
  {
    if q == [] then Some([])
    else
      var k := FindFrom(l, q[0], from);
      if k == |l| then None
      else
        match Greedy(l, q[1..], k + 1)
        case None => None
        case Some(p) => Some([k] + p)
  }

  lemma {:induction false} GreedyEmbeds(l: string, q: string, from: nat)
    requires from <= |l| && Greedy(l, q, from).Some?
    ensures Embedding(l, q, Greedy(l, q, from).value, from)
  {
    hide FindFrom;
    if q == [] {
    } else {
      GreedyEmbeds(l, q[1..], FindFrom(l, q[0], from) + 1);
    }
  }

  /** If the characters stand anywhere in order, the greedy scan finds them, and none further right. */
  lemma {:induction false} GreedyIsComplete(l: string, q: string, p: seq<nat>, from: nat)
    requires from <= |l| && Embedding(l, q, p, from)
    ensures Greedy(l, q, from).Some?
    ensures var g := Greedy(l, q, from).value; |g| == |p| && forall i :: 0 <= i < |p| ==> g[i] <= p[i]
  {
    hide FindFrom;
    if q == [] {
    } else {
      var k := FindFrom(l, q[0], from);
      assert k <= p[0];
      GreedyIsComplete(l, q[1..], p[1..], k + 1);
    }
  }

  // ----- the score -----

  /** Length of the run of neighbouring positions that ends at number `i`. */
  function RunEnding(p: seq<nat>, i: nat): (r: nat)
    requires i < |p|
    ensures 1 <= r <= i + 1
  {
    if i > 0 && p[i - 1] + 1 == p[i] then RunEnding(p, i - 1) + 1 else 1
  }

  function LongestRun(p: seq<nat>, n: nat): (r: nat)
    requires n <= |p|
    ensures r <= n && (n > 0 ==> r >= 1)
  {
    if n == 0 then 0 else Max(LongestRun(p, n - 1), RunEnding(p, n - 1))
  }

  function HeadBonus(first: nat): int { if first == 0 then 100 else -(first as int) }

  function ScoreAt(p: seq<nat>): int
    requires p != []
  {
    100 + 10 * LongestRun(p, |p|) + HeadBonus(p[0])
  }

  /** The rank of a label, or none: letter case is ignored. */
  function Score(name: string, query: string): Option<int> {
    if query == [] then Some(0)
    else
      match Greedy(Lower(name), Lower(query), 0)
      case None => None
      case Some(p) => if p == [] then None else Some(ScoreAt(p))
  }

  /** A label matches exactly if the letters of the query stand in it in order, case ignored. */
  lemma MatchesSubsequences(name: string, query: string)
    ensures Score(name, query).Some? <==> exists p :: Embedding(Lower(name), Lower(query), p, 0)
  {
    var l, q := Lower(name), Lower(query);
    hide FindFrom, Embedding;
    if Score(name, query).Some? {
      if query == [] {
        assert Embedding(l, q, [], 0) by { EmptyEmbeds(l, q); }
      } else {
        GreedyEmbeds(l, q, 0);
      }
    }
    if p :| Embedding(l, q, p, 0) {
      GreedyIsComplete(l, q, p, 0);
      SameLength(l, q, p);
    }
  }

  lemma EmptyEmbeds(l: string, q: string)
    requires q == []
    ensures Embedding(l, q, [], 0)
  {
  }

  lemma SameLength(l: string, q: string, p: seq<nat>)
    requires Embedding(l, q, p, 0)
    ensures |p| == |q|
  {
  }

  /** A run is a piece of the query standing in the label as a whole. */
  lemma {:induction false} RunIsAPiece(l: string, q: string, p: seq<nat>, i: nat)
    requires Embedding(l, q, p, 0) && i < |p|
    ensures var r := RunEnding(p, i); r <= p[i] + 1 && l[p[i] + 1 - r..p[i] + 1] == q[i + 1 - r..i + 1]
  {
    if i > 0 && p[i - 1] + 1 == p[i] {
      RunIsAPiece(l, q, p, i - 1);
      var r := RunEnding(p, i);
      assert l[p[i] + 1 - r..p[i] + 1] == l[p[i] + 1 - r..p[i]] + [l[p[i]]];
      assert q[i + 1 - r..i + 1] == q[i + 1 - r..i] + [q[i]];
    }
  }

  // ----- the scan -----

  /** Behind `i` characters of the query, placed at `p`, the greedy scan goes on at `from`. */
  ghost predicate Ahead(l: string, q: string, p: seq<nat>, i: nat, from: nat) {
    && from <= |l| && i <= |q| && |p| == i
    && Greedy(l, q, 0) == Prefixed(p, Greedy(l, q[i..], from))
  }

  /** The bookkeeping is about the positions so far. */
  ghost predicate Tracks(p: seq<nat>, first: Option<nat>, previous: Option<nat>, longest: nat, run: nat) {
    && first == (if p == [] then None else Some(p[0]))
    && previous == (if p == [] then None else Some(p[|p| - 1]))
    && longest == LongestRun(p, |p|) && (p != [] ==> run == RunEnding(p, |p| - 1))
  }

  /** The loop over the query, with the bookkeeping for the score. */
  method FuzzyScore(name: string, query: string) returns (score: Option<int>)
    ensures score == Score(name, query)
  {
    hide FindFrom, Lower, Greedy, Ahead, Tracks, LongestRun, RunEnding;
    if query == [] {
      return Some(0);
    }
    var l, q := Lower(name), Lower(query);
    var searchFrom: nat, longestRun: nat, run: nat := 0, 0, 0;
    var firstMatch: Option<nat>, previous: Option<nat> := None, None;
    ghost var p: seq<nat> := [];
    ScanStarts(l, q);
    for i := 0 to |q|
      invariant searchFrom <= |l|
      invariant Ahead(l, q, p, i, searchFrom) && Tracks(p, firstMatch, previous, longestRun, run)
    {
      var matched := FindFrom(l, q[i], searchFrom);
      AheadMore(l, q, p, i, searchFrom);
      TracksMore(p, firstMatch, previous, longestRun, run, matched);
      if matched == |l| {
        return None;
      }
      searchFrom := matched + 1;
      if firstMatch == None {
        firstMatch := Some(matched);
      }
      run := if previous.Some? && previous.value + 1 == matched then run + 1 else 1;
      longestRun := Max(longestRun, run);
      previous := Some(matched);
      p := p + [matched];
    }
    ScanEnds(l, q, p, searchFrom, firstMatch, previous, longestRun, run);
    var total: int := 100 + longestRun * 10;
    if firstMatch == Some(0) {
      total := total + 100;
    } else if firstMatch.Some? {
      total := total - firstMatch.value;
    }
    score := Some(total);
  }

  lemma ScanStarts(l: string, q: string)
    ensures Ahead(l, q, [], 0, 0) && Tracks([], None, None, 0, 0)
  {
    hide Greedy;
    assert q[0..] == q;
    if Greedy(l, q, 0).Some? {
      assert [] + Greedy(l, q, 0).value == Greedy(l, q, 0).value;
    }
  }

  lemma AheadMore(l: string, q: string, p: seq<nat>, i: nat, from: nat)
    requires i < |q| && Ahead(l, q, p, i, from)
    ensures from <= |l|
    ensures var k := FindFrom(l, q[i], from);
            if k == |l| then Greedy(l, q, 0).None? else Ahead(l, q, p + [k], i + 1, k + 1)
  {
    var k := FindFrom(l, q[i], from);
    GreedyNext(l, q[i..], from);
    assert q[i..][1..] == q[i + 1..];
    hide Greedy, FindFrom;
    if k < |l| {
      PrefixedMore(p, k, Greedy(l, q[i + 1..], k + 1));
    }
  }

  lemma GreedyNext(l: string, q: string, from: nat)
    requires from <= |l| && q != []
    ensures var k := FindFrom(l, q[0], from);
            Greedy(l, q, from) == if k == |l| then None else Prefixed([k], Greedy(l, q[1..], k + 1))
  {
  }

  lemma TracksMore(p: seq<nat>, first: Option<nat>, previous: Option<nat>, longest: nat, run: nat, k: nat)
    requires Tracks(p, first, previous, longest, run)
    ensures var next := if previous.Some? && previous.value + 1 == k then run + 1 else 1;
            Tracks(p + [k], if first == None then Some(k) else first, Some(k), Max(longest, next), next)
  {
    RunsStay(p, k, |p|);
    assert (p + [k])[|p|] == k;
    assert p != [] ==> (p + [k])[|p| - 1] == p[|p| - 1];
  }

  lemma ScanEnds(l: string, q: string, p: seq<nat>, from: nat,
                 first: Option<nat>, previous: Option<nat>, longest: nat, run: nat)
    requires q != [] && Ahead(l, q, p, |q|, from) && Tracks(p, first, previous, longest, run)
    ensures Greedy(l, q, 0) == Some(p) && p != [] && first == Some(p[0]) && longest == LongestRun(p, |p|)
  {
    assert q[|q|..] == [] && p + [] == p;
  }

  ghost function Prefixed(p: seq<nat>, rest: Option<seq<nat>>): Option<seq<nat>> {
    match rest case None => None case Some(more) => Some(p + more)
  }

  lemma PrefixedMore(p: seq<nat>, k: nat, rest: Option<seq<nat>>)
    ensures Prefixed(p, Prefixed([k], rest)) == Prefixed(p + [k], rest)
  {
    if rest.Some? {
      Assoc(p, [k], rest.value);
    }
  }

  /** A further position leaves the runs before it alone. */
  lemma {:induction false} RunsStay(p: seq<nat>, k: nat, n: nat)
    requires n <= |p|
    ensures LongestRun(p + [k], n) == LongestRun(p, n)
    ensures forall i :: 0 <= i < n ==> RunEnding(p + [k], i) == RunEnding(p, i)
  {
    if n == 0 {
    } else {
      RunsStay(p, k, n - 1);
    }
  }
}
