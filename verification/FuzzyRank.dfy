/** What the score promises about two labels, and the ranking of a pool. */
module FuzzyRank {
  import opened Text
  import opened Fuzzy

  // ----- head matches against long runs -----

  /** The first letter of the query stands first in the label. */
  predicate Anchored(name: string, query: string) {
    name != [] && query != [] && LowerChar(name[0]) == LowerChar(query[0])
  }

  /** Bounds on a score, by where the match starts. */
  lemma ScoreBounds(name: string, query: string)
    requires query != [] && Score(name, query).Some?
    ensures var score := Score(name, query).value;
            if Anchored(name, query) then score >= 210 else score <= 99 + 10 * |query|
  {
    var l, q := Lower(name), Lower(query);
    GreedyEmbeds(l, q, 0);
    var p := Greedy(l, q, 0).value;
    GreedyNext(l, q, 0);
    hide Greedy, Embedding;
    SameLength(l, q, p);
    FirstPlace(l, q);
  }

  lemma FirstPlace(l: string, q: string)
    requires q != [] && Greedy(l, q, 0).Some? && Greedy(l, q, 0).value != []
    ensures Greedy(l, q, 0).value[0] == 0 <==> l[0] == q[0]
    ensures l != []
  {
  }

  /** Up to eleven letters, a match at the head of a label beats every match that starts deeper. */
  lemma ShortQueriesPreferHeads(query: string, head: string, deep: string)
    requires 0 < |query| <= 11 && Score(head, query).Some? && Score(deep, query).Some?
    requires Anchored(head, query) && !Anchored(deep, query)
    ensures Score(head, query).value > Score(deep, query).value
  {
    hide Score;
    ScoreBounds(head, query);
    ScoreBounds(deep, query);
  }

  /** The query with a filler behind every letter. */
  function Spread(q: string, filler: char): string {
    if q == [] then [] else [q[0], filler] + Spread(q[1..], filler)
  }

  function Evens(from: nat, n: nat): seq<nat>
    decreases n
  {
    if n == 0 then [] else [from] + Evens(from + 2, n - 1)
  }

  function Onward(from: nat, n: nat): seq<nat>
    decreases n
  {
    if n == 0 then [] else [from] + Onward(from + 1, n - 1)
  }

  lemma GreedySkips(l: string, q: string, i: nat)
    requires i < |l| && (q == [] || l[i] != q[0])
    ensures Greedy(l, q, i) == Greedy(l, q, i + 1)
  {
  }

  lemma {:induction false} SpreadPlaces(before: string, q: string, filler: char)
    requires filler !in q
    ensures Greedy(before + Spread(q, filler), q, |before|) == Some(Evens(|before|, |q|))
    decreases |q|
  {
    var l := before + Spread(q, filler);
    if q == [] {
    } else {
      var longer := before + [q[0], filler];
      assert l == longer + Spread(q[1..], filler);
      SpreadPlaces(longer, q[1..], filler);
      assert l[|before|] == q[0] && l[|before| + 1] == filler;
      hide Greedy;
      GreedyNext(l, q, |before|);
      GreedySkips(l, q[1..], |before| + 1);
    }
  }

  lemma {:induction false} RunPlaces(before: string, q: string)
    ensures Greedy(before + q, q, |before|) == Some(Onward(|before|, |q|))
    decreases |q|
  {
    if q == [] {
    } else {
      assert before + q == before + [q[0]] + q[1..];
      RunPlaces(before + [q[0]], q[1..]);
      hide Greedy;
      GreedyNext(before + q, q, |before|);
    }
  }

  lemma {:induction false} EvensAt(from: nat, n: nat, i: nat)
    ensures |Evens(from, n)| == n && (i < n ==> Evens(from, n)[i] == from + 2 * i)
    decreases n
  {
    if n == 0 {
    } else {
      EvensAt(from + 2, n - 1, if i > 0 then i - 1 else 0);
    }
  }

  lemma {:induction false} OnwardAt(from: nat, n: nat, i: nat)
    ensures |Onward(from, n)| == n && (i < n ==> Onward(from, n)[i] == from + i)
    decreases n
  {
    if n == 0 {
    } else {
      OnwardAt(from + 1, n - 1, if i > 0 then i - 1 else 0);
    }
  }

  lemma {:induction false} EvensHaveNoRun(p: seq<nat>, n: nat)
    requires n <= |p| && forall i :: 0 < i < |p| ==> p[i] == p[i - 1] + 2
    ensures LongestRun(p, n) == if n == 0 then 0 else 1
  {
    if n == 0 {
    } else {
      EvensHaveNoRun(p, n - 1);
    }
  }

  lemma {:induction false} OnwardIsARun(p: seq<nat>, n: nat)
    requires n <= |p| && forall i :: 0 < i < |p| ==> p[i] == p[i - 1] + 1
    ensures LongestRun(p, n) == n && (n > 0 ==> RunEnding(p, n - 1) == n)
  {
    if n == 0 {
    } else {
      OnwardIsARun(p, n - 1);
    }
  }

  lemma {:induction false} LowerSpread(q: string, filler: char)
    requires LowerChar(filler) == filler
    ensures Lower(Spread(q, filler)) == Spread(Lower(q), filler)
  {
    if q == [] {
    } else {
      LowerSpread(q[1..], filler);
      assert Lower(q)[1..] == Lower(q[1..]);
    }
  }

  lemma SpreadScore(query: string, filler: char)
    requires query != [] && LowerChar(filler) == filler && filler !in Lower(query)
    ensures Score(Spread(query, filler), query) == Some(210)
  {
    var q := Lower(query);
    LowerSpread(query, filler);
    SpreadPlaces([], q, filler);
    assert [] + Spread(q, filler) == Spread(q, filler);
    var p := Evens(0, |q|);
    hide Greedy, Spread, Lower;
    EvensAt(0, |q|, 0);
    forall i | 0 < i < |p| ensures p[i] == p[i - 1] + 2 {
      EvensAt(0, |q|, i);
      EvensAt(0, |q|, i - 1);
    }
    EvensHaveNoRun(p, |p|);
  }

  lemma RunScore(query: string, filler: char)
    requires query != [] && LowerChar(filler) == filler && filler !in Lower(query)
    ensures Score([filler] + query, query) == Some(99 + 10 * |query|)
  {
    var q := Lower(query);
    assert Lower([filler] + query) == [filler] + q;
    RunPlaces([filler], q);
    var p := Onward(1, |q|);
    hide Greedy, Lower;
    GreedySkips([filler] + q, q, 0);
    OnwardAt(1, |q|, 0);
    forall i | 0 < i < |p| ensures p[i] == p[i - 1] + 1 {
      OnwardAt(1, |q|, i);
      OnwardAt(1, |q|, i - 1);
    }
    OnwardIsARun(p, |p|);
  }

  /** From twelve letters on it need not: a scattered head match loses to a run one place in. */
  lemma LongQueriesPreferRuns(query: string, filler: char)
    requires |query| >= 12 && LowerChar(filler) == filler && filler !in Lower(query)
    ensures Anchored(Spread(query, filler), query) && !Anchored([filler] + query, query)
    ensures Score(Spread(query, filler), query).Some? && Score([filler] + query, query).Some?
    ensures Score(Spread(query, filler), query).value < Score([filler] + query, query).value
  {
    hide Score;
    SpreadScore(query, filler);
    RunScore(query, filler);
    assert Lower(query)[0] == LowerChar(query[0]);
  }

  // ----- the ranking -----

  datatype Candidate = Candidate(name: string, detail: string)

  datatype Scored = Scored(score: int, index: nat, item: Candidate)

  /** The value in force is tagged in its detail. */
  function Shown(c: Candidate, current: Option<string>): Candidate {
    if current == Some(c.name) then
      Candidate(c.name, if c.detail == [] then "(current)" else c.detail + " \U{B7} (current)")
    else c
  }

  /** Higher scores first, the order of the pool among equals. */
  predicate Before(a: Scored, b: Scored) { a.score > b.score || (a.score == b.score && a.index < b.index) }

  function Insert(x: Scored, s: seq<Scored>): seq<Scored> {
    if s == [] || Before(x, s[0]) then [x] + s else [s[0]] + Insert(x, s[1..])
  }

  function Sort(s: seq<Scored>): seq<Scored> {
    if s == [] then [] else Insert(s[|s| - 1], Sort(s[..|s| - 1]))
  }

  /** Scores never rise, and among equal scores the places in the pool do. */
  ghost predicate Ordered(s: seq<Scored>) {
    forall i, j :: 0 <= i < j < |s| ==>
      s[i].score >= s[j].score && (s[i].score == s[j].score ==> s[i].index < s[j].index)
  }

  ghost predicate SameMembers(a: seq<Scored>, b: seq<Scored>) { forall x :: x in a <==> x in b }

  lemma {:induction false} InsertOrders(x: Scored, s: seq<Scored>)
    requires Ordered(s) && forall y :: y in s ==> y.index != x.index
    ensures Ordered(Insert(x, s)) && forall y :: y in Insert(x, s) <==> y == x || y in s
  {
    if s != [] && !Before(x, s[0]) {
      InsertOrders(x, s[1..]);
      var rest := Insert(x, s[1..]);
      assert forall y :: y in s[1..] ==> Before(s[0], y);
      assert forall j :: 0 <= j < |rest| ==> rest[j] in rest;
    }
  }

  ghost predicate DistinctIndices(s: seq<Scored>) { forall i, j :: 0 <= i < j < |s| ==> s[i].index != s[j].index }

  lemma {:induction false} SortOrders(s: seq<Scored>)
    requires DistinctIndices(s)
    ensures Ordered(Sort(s)) && SameMembers(Sort(s), s)
  {
    if s == [] {
    } else {
      var init, last := s[..|s| - 1], s[|s| - 1];
      SortOrders(init);
      assert forall y :: y in init ==> exists i :: 0 <= i < |init| && init[i] == y && s[i] == y;
      assert s == init + [last];
      InsertOrders(last, Sort(init));
    }
  }

  /** Members and order leave no choice. */
  lemma {:induction false} OrderIsUnique(a: seq<Scored>, b: seq<Scored>)
    requires Ordered(a) && Ordered(b) && SameMembers(a, b)
    ensures a == b
  {
    if a == [] {
      if b != [] {
        HasMember(b);
      }
    } else {
      assert a[0] in a;
      assert b != [] && b[0] in b;
      assert a[0] == b[0];
      forall x ensures x in a[1..] <==> x in b[1..] {
        RestOf(a, x);
        RestOf(b, x);
      }
      OrderIsUnique(a[1..], b[1..]);
    }
  }

  lemma RestOf(s: seq<Scored>, x: Scored)
    requires s != [] && Ordered(s)
    ensures x in s[1..] <==> x in s && x != s[0]
  {
    assert s == [s[0]] + s[1..];
  }

  lemma HasMember(s: seq<Scored>)
    requires s != []
    ensures exists x :: x in s
  {
    assert s[0] in s;
  }

  /** The matches among the first `n` of the pool. */
  function Matching(pool: seq<Candidate>, query: string, current: Option<string>, n: nat): seq<Scored>
    requires n <= |pool|
  {
    if n == 0 then []
    else
      Matching(pool, query, current, n - 1) + MatchAt(pool, query, current, n - 1)
  }

  function MatchAt(pool: seq<Candidate>, query: string, current: Option<string>, i: nat): seq<Scored>
    requires i < |pool|
  {
    match Score(pool[i].name, query)
    case None => []
    case Some(score) => [Scored(score, i, Shown(pool[i], current))]
  }

  function Ranked(pool: seq<Candidate>, query: string, current: Option<string>): seq<Scored> {
    Sort(Matching(pool, query, current, |pool|))
  }

  function Items(s: seq<Scored>): seq<Candidate> {
    seq(|s|, i requires 0 <= i < |s| => s[i].item)
  }

  method RankedMatches(pool: seq<Candidate>, query: string, current: Option<string>) returns (items: seq<Candidate>)
    ensures items == Items(Ranked(pool, query, current))
  {
    hide Score, Shown, Sort;
    var scored: seq<Scored> := [];
    for index := 0 to |pool|
      invariant scored == Matching(pool, query, current, index)
    {
      var score := FuzzyScore(pool[index].name, query);
      if score.Some? {
        scored := scored + [Scored(score.value, index, Shown(pool[index], current))];
      }
    }
    var order := Sort(scored);
    items := seq(|order|, i requires 0 <= i < |order| => order[i].item);
  }

  /** A pool entry with the score it earns. */
  ghost predicate Matches(x: Scored, pool: seq<Candidate>, query: string, current: Option<string>) {
    && x.index < |pool| && Score(pool[x.index].name, query) == Some(x.score)
    && x.item.name == pool[x.index].name && x.item.detail == Tagged(pool[x.index], current)
  }

  /** The detail as shown: the value in force carries a tag behind its own detail. */
  function Tagged(c: Candidate, current: Option<string>): string {
    var tag := if c.detail == [] then "(current)" else " \U{B7} " + "(current)";
    if current == None || current.value != c.name then c.detail else c.detail + tag
  }

  lemma ShownIsTagged(c: Candidate, current: Option<string>)
    ensures Shown(c, current) == Candidate(c.name, Tagged(c, current))
  {
    assert " \U{B7} (current)" == " \U{B7} " + "(current)";
    assert [] + "(current)" == "(current)";
  }

  /** Exactly the matching entries, best first, ties in the order of the pool. */
  ghost predicate Ranking(order: seq<Scored>, pool: seq<Candidate>, query: string, current: Option<string>) {
    Ordered(order) && forall x :: x in order <==> Matches(x, pool, query, current)
  }

  lemma {:induction false} MatchingMembers(pool: seq<Candidate>, query: string, current: Option<string>, n: nat)
    requires n <= |pool|
    ensures var s := Matching(pool, query, current, n);
            && (forall x :: x in s <==> x.index < n && Matches(x, pool, query, current))
            && DistinctIndices(s)
  {
    hide Score, Shown, Matches, MatchAt, DistinctIndices;
    if n > 0 {
      MatchingMembers(pool, query, current, n - 1);
      MatchAtMembers(pool, query, current, n - 1);
      var before, more := Matching(pool, query, current, n - 1), MatchAt(pool, query, current, n - 1);
      assert forall x :: x in before + more <==> x in before || x in more;
      DistinctMore(before, more, n - 1);
    } else {
      NoneAlike();
    }
  }

  lemma NoneAlike()
    ensures DistinctIndices([])
  {
  }

  lemma MatchAtMembers(pool: seq<Candidate>, query: string, current: Option<string>, i: nat)
    requires i < |pool|
    ensures forall x :: x in MatchAt(pool, query, current, i) <==> x.index == i && Matches(x, pool, query, current)
    ensures |MatchAt(pool, query, current, i)| <= 1
  {
    ShownIsTagged(pool[i], current);
    hide Score, Shown, Tagged;
  }

  lemma DistinctMore(before: seq<Scored>, more: seq<Scored>, n: nat)
    requires DistinctIndices(before)
    requires (forall x :: x in before ==> x.index < n) && (forall x :: x in more ==> x.index == n) && |more| <= 1
    ensures DistinctIndices(before + more)
  {
    assert forall i :: 0 <= i < |before| ==> before[i] in before;
    assert forall i :: 0 <= i < |more| ==> more[i] in more;
  }

  lemma RankedIsRanking(pool: seq<Candidate>, query: string, current: Option<string>)
    ensures Ranking(Ranked(pool, query, current), pool, query, current)
  {
    hide Score, Shown, Sort, Matching, Ordered, DistinctIndices;
    var s := Matching(pool, query, current, |pool|);
    MatchingMembers(pool, query, current, |pool|);
    SortOrders(s);
    assert forall x :: x in Sort(s) <==> x in s;
  }

  /** There is only one such ranking, whatever algorithm sorts. */
  lemma RankingIsUnique(order: seq<Scored>, pool: seq<Candidate>, query: string, current: Option<string>)
    requires Ranking(order, pool, query, current)
    ensures order == Ranked(pool, query, current)
  {
    hide Ranked, Ordered, Matches;
    RankedIsRanking(pool, query, current);
    OrderIsUnique(order, Ranked(pool, query, current));
  }
}
