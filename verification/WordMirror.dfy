/** On which lines the forward and the backward word motion stop at the same places. */
module WordMirror {
  import opened WordMotion

  /** The stops of repeated forward jumps from `b`, and of repeated backward jumps from `b`. */
  function ForwardStops(cs: Classes, b: nat): seq<nat>
    requires b <= |cs|
    decreases |cs| - b
  {
    if b == |cs| then [b] else [b] + ForwardStops(cs, NextBreak(cs, b))
  }

  function BackwardStops(cs: Classes, b: nat): seq<nat>
    requires b <= |cs|
  {
    if b == 0 then [b] else [b] + BackwardStops(cs, PrevBreak(cs, b))
  }

  function Reversed(s: seq<nat>): seq<nat> {
    if s == [] then [] else Reversed(s[1..]) + [s[0]]
  }

  /** A backward jump takes back every forward jump along the way from the start of the line. */
  ghost predicate Undoes(cs: Classes) {
    forall b :: b in ForwardStops(cs, 0) && b < |cs| ==> PrevBreak(cs, NextBreak(cs, b)) == b
  }

  predicate AllWhitespaceLine(cs: Classes) { forall i :: 0 <= i < |cs| ==> cs[i] == Whitespace }

  predicate NoWhitespace(cs: Classes, to: nat)
    requires to <= |cs|
  {
    forall i :: 0 <= i < to ==> cs[i] != Whitespace
  }

  predicate CjkRunStart(cs: Classes, i: nat) {
    i < |cs| && cs[i] == Cjk && (i > 0 ==> cs[i - 1] != Cjk)
  }

  function CjkRun(cs: Classes, i: nat): nat
    requires i <= |cs|
  {
    RunEnd(cs, i, Cjk) - i
  }

  /** Each run of ideographs is a single one or has even length. */
  predicate CjkPaired(cs: Classes) {
    forall i :: 0 <= i < |cs| && CjkRunStart(cs, i) ==> CjkRun(cs, i) == 1 || CjkRun(cs, i) % 2 == 0
  }

  predicate Smooth(cs: Classes) {
    AllWhitespaceLine(cs) || (NoWhitespace(cs, |cs|) && CjkPaired(cs))
  }

  // ----- smooth lines: every jump is taken back -----

  /** Where a forward scan can stand: at the start of the subword ahead. */
  predicate Aligned(cs: Classes, b: nat) {
    b < |cs| && b > 0 ==>
      match cs[b]
      case Cjk => (b - RunStart(cs, b, Cjk)) % 2 == 0
      case UpperCase => cs[b - 1] != UpperCase || (b + 1 < |cs| && cs[b + 1] == LowerCase)
      case LowerCase => cs[b - 1] != LowerCase && cs[b - 1] != UpperCase
      case c => cs[b - 1] != c
  }

  lemma {:induction false} RunStartIs(cs: Classes, pos: nat, c: CharClass, s: nat)
    requires s <= pos <= |cs| && (forall i :: s <= i < pos ==> cs[i] == c) && (s > 0 ==> cs[s - 1] != c)
    ensures RunStart(cs, pos, c) == s
  {
  }

  lemma NoWhitespaceJump(cs: Classes, b: nat)
    requires b < |cs| && cs[b] != Whitespace
    ensures NextBreak(cs, b) == WordEnd(cs, b)
    ensures PrevBreak(cs, b + 1) == WordStart(cs, b)
  {
  }

  lemma CjkPair(cs: Classes, b: nat)
    requires b + 1 < |cs| && cs[b] == Cjk && cs[b + 1] == Cjk && Aligned(cs, b)
    ensures Aligned(cs, b + 2)
  {
    if b + 2 < |cs| && cs[b + 2] == Cjk {
      RunStartIs(cs, b + 2, Cjk, RunStart(cs, b, Cjk));
    }
  }

  lemma LastCjkIsAlone(cs: Classes, b: nat)
    requires b < |cs| && cs[b] == Cjk && Aligned(cs, b) && CjkPaired(cs)
    requires b + 1 < |cs| ==> cs[b + 1] != Cjk
    ensures b > 0 ==> cs[b - 1] != Cjk
  {
    var s := RunStart(cs, b, Cjk);
    RunEndFrom(cs, s, b, Cjk);
    assert RunEnd(cs, b, Cjk) == b + 1;
    assert CjkRunStart(cs, s) && CjkRun(cs, s) == b + 1 - s;
  }

  lemma CjkStep(cs: Classes, b: nat)
    requires b < |cs| && cs[b] == Cjk && Aligned(cs, b) && CjkPaired(cs)
    ensures Aligned(cs, WordEnd(cs, b)) && WordStart(cs, WordEnd(cs, b) - 1) == b
  {
    hide RunStart, RunEnd, CjkPaired;
    if b + 1 < |cs| && cs[b + 1] == Cjk {
      CjkPair(cs, b);
    } else {
      LastCjkIsAlone(cs, b);
    }
  }

  lemma {:induction false} RunEndFrom(cs: Classes, s: nat, b: nat, c: CharClass)
    requires s <= b <= |cs| && forall i :: s <= i < b ==> cs[i] == c
    ensures RunEnd(cs, s, c) == RunEnd(cs, b, c)
    decreases b - s
  {
    if s < b {
      RunEndFrom(cs, s + 1, b, c);
    }
  }

  lemma UpperStep(cs: Classes, b: nat)
    requires b < |cs| && cs[b] == UpperCase && Aligned(cs, b)
    ensures Aligned(cs, WordEnd(cs, b)) && WordStart(cs, WordEnd(cs, b) - 1) == b
  {
    var e := RunEnd(cs, b, UpperCase);
    if e < |cs| && cs[e] == LowerCase {
      if e == b + 1 {
        RunStartIs(cs, WordEnd(cs, b) - 1, LowerCase, e);
      } else {
        RunStartIs(cs, e - 2, UpperCase, b);
      }
    } else {
      RunStartIs(cs, e - 1, UpperCase, b);
    }
  }

  lemma PlainStep(cs: Classes, b: nat)
    requires b < |cs| && cs[b] != Cjk && cs[b] != UpperCase && cs[b] != Whitespace && Aligned(cs, b)
    ensures Aligned(cs, WordEnd(cs, b)) && WordStart(cs, WordEnd(cs, b) - 1) == b
  {
    RunStartIs(cs, WordEnd(cs, b) - 1, cs[b], b);
  }

  lemma {:induction false} SmoothUndoes(cs: Classes, b: nat)
    requires b <= |cs| && NoWhitespace(cs, |cs|) && CjkPaired(cs) && Aligned(cs, b)
    ensures forall s :: s in ForwardStops(cs, b) && s < |cs| ==> PrevBreak(cs, NextBreak(cs, s)) == s
    decreases |cs| - b
  {
    if b < |cs| {
      if cs[b] == Cjk {
        CjkStep(cs, b);
      } else if cs[b] == UpperCase {
        UpperStep(cs, b);
      } else {
        PlainStep(cs, b);
      }
      NoWhitespaceJump(cs, b);
      NoWhitespaceJump(cs, WordEnd(cs, b) - 1);
      SmoothUndoes(cs, NextBreak(cs, b));
    }
  }

  // ----- other lines: some jump is not taken back -----

  lemma {:induction false} StopsGoOn(cs: Classes, b: nat, x: nat)
    requires b <= |cs| && x in ForwardStops(cs, b) && x < |cs|
    ensures NextBreak(cs, x) in ForwardStops(cs, b)
    decreases |cs| - b
  {
    if x == b {
      assert ForwardStops(cs, NextBreak(cs, b))[0] == NextBreak(cs, b);
    } else {
      StopsGoOn(cs, NextBreak(cs, b), x);
    }
  }

  /** No subword runs across the start of whitespace or of a run of ideographs. */
  predicate HardStop(cs: Classes, i: nat) { i < |cs| && (cs[i] == Whitespace || CjkRunStart(cs, i)) }

  lemma WordEndStops(cs: Classes, b: nat, i: nat)
    requires b < i && HardStop(cs, i) && cs[b] != Whitespace
    ensures WordEnd(cs, b) <= i
  {
  }

  lemma {:induction false} HardStopIsVisited(cs: Classes, b: nat, i: nat)
    requires b <= i && HardStop(cs, i) && NoWhitespace(cs, i)
    ensures i in ForwardStops(cs, b)
    decreases i - b
  {
    if b < i {
      WordEndStops(cs, b, i);
      NoWhitespaceJump(cs, b);
      HardStopIsVisited(cs, NextBreak(cs, b), i);
    }
  }

  lemma WordStartStaysRight(cs: Classes, pos: nat, p: nat)
    requires 0 < pos <= p < |cs| && cs[pos - 1] == Whitespace && cs[p] != Whitespace
    ensures pos <= WordStart(cs, p)
  {
  }

  lemma WordHasNoWhitespace(cs: Classes, pos: nat)
    requires pos < |cs| && cs[pos] != Whitespace
    ensures cs[WordEnd(cs, pos) - 1] != Whitespace
  {
  }

  /** From the first whitespace, the way forward and the way back end on different sides of it. */
  lemma WhitespaceIsCrossedOnce(cs: Classes, i: nat)
    requires i < |cs| && cs[i] == Whitespace && NoWhitespace(cs, i) && !AllWhitespaceLine(cs)
    ensures PrevBreak(cs, NextBreak(cs, i)) != i
  {
    var pos := RunEnd(cs, i, Whitespace);
    if pos == |cs| {
      assert i > 0;
      RunStartIs(cs, |cs|, Whitespace, i);
    } else {
      var e := WordEnd(cs, pos);
      WordHasNoWhitespace(cs, pos);
      NoWhitespaceJump(cs, e - 1);
      WordStartStaysRight(cs, pos, e - 1);
    }
  }

  lemma {:induction false} FirstWhitespace(cs: Classes, k: nat) returns (i: nat)
    requires k <= |cs| && NoWhitespace(cs, k) && !NoWhitespace(cs, |cs|)
    ensures i < |cs| && cs[i] == Whitespace && NoWhitespace(cs, i)
    decreases |cs| - k
  {
    if cs[k] == Whitespace {
      i := k;
    } else {
      i := FirstWhitespace(cs, k + 1);
    }
  }

  lemma {:induction false} CjkStops(cs: Classes, i: nat, k: nat)
    requires NoWhitespace(cs, |cs|) && CjkRunStart(cs, i) && 2 * k < CjkRun(cs, i)
    ensures i + 2 * k in ForwardStops(cs, 0)
  {
    if k == 0 {
      HardStopIsVisited(cs, 0, i);
    } else {
      CjkStops(cs, i, k - 1);
      var x := i + 2 * (k - 1);
      StopsGoOn(cs, 0, x);
      NoWhitespaceJump(cs, x);
    }
  }

  lemma LastOfManyIsLeftTwoBack(cs: Classes, b: nat)
    requires 0 < b < |cs| && cs[b - 1] == cs[b] == Cjk && (b + 1 < |cs| ==> cs[b + 1] != Cjk)
    ensures PrevBreak(cs, NextBreak(cs, b)) == b - 1
  {
    NoWhitespaceJump(cs, b);
  }

  /** The last ideograph of an odd run is reached alone, and left two back. */
  lemma OddRunIsLeftTwoBack(cs: Classes, i: nat)
    requires NoWhitespace(cs, |cs|) && CjkRunStart(cs, i)
    requires CjkRun(cs, i) != 1 && CjkRun(cs, i) % 2 == 1
    ensures var b := i + CjkRun(cs, i) - 1;
            b < |cs| && b in ForwardStops(cs, 0) && PrevBreak(cs, NextBreak(cs, b)) == b - 1
  {
    hide ForwardStops, PrevBreak, NextBreak;
    var run := CjkRun(cs, i);
    CjkStops(cs, i, run / 2);
    LastOfManyIsLeftTwoBack(cs, i + run - 1);
  }

  // ----- the same stops in both directions -----

  lemma {:induction false} ReversedAppend(a: seq<nat>, b: seq<nat>)
    ensures Reversed(a + b) == Reversed(b) + Reversed(a)
    ensures |Reversed(a)| == |a|
  {
    if a == [] {
      assert a + b == b;
    } else {
      ReversedAppend(a[1..], b);
      assert (a + b)[1..] == a[1..] + b;
    }
  }

  ghost predicate UndoesFrom(cs: Classes, b: nat)
    requires b <= |cs|
  {
    forall s :: s in ForwardStops(cs, b) && s < |cs| ==> PrevBreak(cs, NextBreak(cs, s)) == s
  }

  /** The way back from the end to `b`, and from there on. */
  function BackThrough(cs: Classes, b: nat): seq<nat>
    requires b <= |cs|
  {
    Reversed(ForwardStops(cs, b)) + BackwardStops(cs, b)[1..]
  }

  lemma BackThroughStep(cs: Classes, b: nat)
    requires b < |cs| && PrevBreak(cs, NextBreak(cs, b)) == b
    ensures BackThrough(cs, NextBreak(cs, b)) == BackThrough(cs, b)
  {
    hide NextBreak, PrevBreak;
    var next := NextBreak(cs, b);
    assert BackwardStops(cs, next)[1..] == BackwardStops(cs, b);
    assert BackwardStops(cs, b) == [b] + BackwardStops(cs, b)[1..];
    assert ForwardStops(cs, b)[1..] == ForwardStops(cs, next);
    assert Reversed(ForwardStops(cs, b)) == Reversed(ForwardStops(cs, next)) + [b];
  }

  lemma {:induction false} UndoneIsMirrored(cs: Classes, b: nat)
    requires b <= |cs| && UndoesFrom(cs, b)
    ensures BackwardStops(cs, |cs|) == BackThrough(cs, b)
    decreases |cs| - b
  {
    if b == |cs| {
      assert Reversed([b]) == [b];
    } else {
      UndoneIsMirrored(cs, NextBreak(cs, b));
      BackThroughStep(cs, b);
    }
  }

  lemma {:induction false} MirroredIsUndone(cs: Classes, b: nat, prefix: seq<nat>)
    requires b <= |cs| && ForwardStops(cs, 0) == prefix + ForwardStops(cs, b)
    requires BackwardStops(cs, |cs|) == Reversed(ForwardStops(cs, 0))
    ensures UndoesFrom(cs, b)
    decreases |cs| - b
  {
    hide NextBreak, PrevBreak;
    if b < |cs| {
      var next := NextBreak(cs, b);
      assert prefix + ForwardStops(cs, b) == (prefix + [b]) + ForwardStops(cs, next);
      MirroredIsUndone(cs, next, prefix + [b]);
      UndoneIsMirrored(cs, next);
      ReversedAppend(prefix + [b], ForwardStops(cs, next));
      ReversedAppend(prefix, [b]);
      ReversedAppend(ForwardStops(cs, next), []);
      var k := |ForwardStops(cs, next)|;
      assert Reversed([b]) == [b];
      assert BackwardStops(cs, |cs|)[k] == b;
      assert BackThrough(cs, next)[k] == BackwardStops(cs, next)[1] == PrevBreak(cs, next);
    }
  }

  /**
   * The stops of Ctrl+Right from the start of a line are those of Ctrl+Left from its end exactly when
   * every jump forward is taken back, and that is exactly when the line is all whitespace, or has no
   * whitespace and each of its runs of ideographs is a single one or has even length.
   */
  lemma MotionMirrors(cs: Classes)
    ensures ForwardStops(cs, 0) == Reversed(BackwardStops(cs, |cs|)) <==> Smooth(cs)
    ensures Undoes(cs) <==> Smooth(cs)
  {
    var f, b := ForwardStops(cs, 0), BackwardStops(cs, |cs|);
    ReversedTwice(f);
    ReversedTwice(b);
    if Undoes(cs) {
      UndoneIsMirrored(cs, 0);
      assert BackwardStops(cs, 0)[1..] == [];
      assert b == Reversed(f);
    }
    if f == Reversed(b) {
      assert [] + f == f;
      MirroredIsUndone(cs, 0, []);
    }
    UndoesIffSmooth(cs);
  }

  lemma {:induction false} ReversedTwice(s: seq<nat>)
    ensures Reversed(Reversed(s)) == s
  {
    if s == [] {
    } else {
      ReversedTwice(s[1..]);
      ReversedAppend(Reversed(s[1..]), [s[0]]);
      assert Reversed([s[0]]) == [s[0]];
      assert [s[0]] + s[1..] == s;
    }
  }

  lemma UndoesIffSmooth(cs: Classes)
    ensures Undoes(cs) <==> Smooth(cs)
  {
    if AllWhitespaceLine(cs) {
      if cs != [] {
        RunStartIs(cs, |cs|, Whitespace, 0);
        assert NextBreak(cs, 0) == |cs|;
        assert ForwardStops(cs, 0) == [0, |cs|];
      }
    } else if !NoWhitespace(cs, |cs|) {
      var i := FirstWhitespace(cs, 0);
      HardStopIsVisited(cs, 0, i);
      WhitespaceIsCrossedOnce(cs, i);
    } else if CjkPaired(cs) {
      SmoothUndoes(cs, 0);
    } else {
      var i :| 0 <= i < |cs| && CjkRunStart(cs, i) && CjkRun(cs, i) != 1 && CjkRun(cs, i) % 2 != 0;
      OddRunIsLeftTwoBack(cs, i);
    }
  }
}
