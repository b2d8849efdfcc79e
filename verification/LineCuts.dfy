/** Cutting a sequence at the elements that end a line. */
module LineCuts {
  import opened Text

  /** The pieces between the elements that end a line, empty ones included; always one more than there are ends. */
  function Cut<T>(s: seq<T>, ends: T -> bool): (pieces: seq<seq<T>>)
    ensures pieces != []
  {
    if s == [] then [[]] else Grown(Cut(s[..|s| - 1], ends), s[|s| - 1], ends)
  }

  function Grown<T>(pieces: seq<seq<T>>, x: T, ends: T -> bool): (r: seq<seq<T>>)
    requires pieces != []
    ensures r != []
  {
    if ends(x) then pieces + [[]] else Longer(pieces, [x])
  }

  function Longer<T>(pieces: seq<seq<T>>, more: seq<T>): (r: seq<seq<T>>)
    requires pieces != []
    ensures |r| == |pieces|
  {
    pieces[..|pieces| - 1] + [pieces[|pieces| - 1] + more]
  }

  predicate EndsLine(c: char) { c == '\n' }

  lemma CutLast<T>(s: seq<T>, x: T, ends: T -> bool)
    ensures Cut(s + [x], ends) == Grown(Cut(s, ends), x, ends)
  {
    assert (s + [x])[..|s|] == s;
  }

  lemma LongerTwice<T>(pieces: seq<seq<T>>, a: seq<T>, b: seq<T>)
    requires pieces != []
    ensures Longer(Longer(pieces, a), b) == Longer(pieces, a + b)
  {
    Assoc(pieces[|pieces| - 1], a, b);
  }

  predicate NoEnd<T>(s: seq<T>, ends: T -> bool) { forall i :: 0 <= i < |s| ==> !ends(s[i]) }

  lemma LongerByNothing<T>(pieces: seq<seq<T>>)
    requires pieces != []
    ensures Longer(pieces, []) == pieces
  {
    var last := pieces[|pieces| - 1];
    assert last + [] == last;
  }

  lemma RunInit<T>(run: seq<T>, ends: T -> bool)
    requires run != [] && NoEnd(run, ends)
    ensures var init, last := run[..|run| - 1], run[|run| - 1];
            && NoEnd(init, ends) && init + [last] == run
            && forall pieces: seq<seq<T>> :: pieces != [] ==> Grown(pieces, last, ends) == Longer(pieces, [last])
  {
  }

  /** What holds no line end only makes the last piece longer. */
  lemma {:induction false} CutRun<T>(s: seq<T>, run: seq<T>, ends: T -> bool)
    requires NoEnd(run, ends)
    ensures Cut(s + run, ends) == Longer(Cut(s, ends), run)
  {
    hide *;
    if run == [] {
      assert s + run == s;
      LongerByNothing(Cut(s, ends));
    } else {
      var init, last := run[..|run| - 1], run[|run| - 1];
      RunInit(run, ends);
      CutRun(s, init, ends);
      CutLast(s + init, last, ends);
      Assoc(s, init, [last]);
      LongerTwice(Cut(s, ends), init, [last]);
    }
  }

  /** Equal but for the kind of line end. */
  ghost predicate SameButEnds<T(!new)>(a: seq<T>, b: seq<T>, ends: T -> bool) {
    |a| == |b| && forall i :: 0 <= i < |a| ==> a[i] == b[i] || (ends(a[i]) && ends(b[i]))
  }

  lemma SameButEndsLast<T(!new)>(a: seq<T>, b: seq<T>, ends: T -> bool)
    requires a != [] && b != [] && SameButEnds(a[..|a| - 1], b[..|b| - 1], ends)
    requires var x, y := a[|a| - 1], b[|b| - 1]; x == y || (ends(x) && ends(y))
    ensures SameButEnds(a, b, ends)
  {
    forall i | 0 <= i < |a| ensures a[i] == b[i] || (ends(a[i]) && ends(b[i])) {
      if i < |a| - 1 {
        assert a[i] == a[..|a| - 1][i] && b[i] == b[..|b| - 1][i];
      }
    }
  }

  lemma InitAndLast<T>(s: seq<T>)
    requires s != []
    ensures s == s[..|s| - 1] + [s[|s| - 1]]
  {
  }

  /** The pieces determine what was cut. */
  lemma {:induction false} CutDetermines<T(!new)>(a: seq<T>, b: seq<T>, ends: T -> bool)
    requires Cut(a, ends) == Cut(b, ends)
    ensures SameButEnds(a, b, ends)
    decreases |a|
  {
    CutOfSome(a, ends);
    CutOfSome(b, ends);
    if a == [] || b == [] {
      hide Cut;
    } else {
      hide *;
      var initA, initB := a[..|a| - 1], b[..|b| - 1];
      var x, y := a[|a| - 1], b[|b| - 1];
      InitAndLast(a);
      InitAndLast(b);
      CutLast(initA, x, ends);
      CutLast(initB, y, ends);
      SameLast(Cut(initA, ends), Cut(initB, ends), x, y, ends);
      CutDetermines(initA, initB, ends);
      SameButEndsLast(a, b, ends);
    }
  }

  lemma CutOfSome<T>(s: seq<T>, ends: T -> bool)
    ensures s == [] <==> Cut(s, ends) == [[]]
  {
    if s != [] {
      var pieces := Cut(s[..|s| - 1], ends);
      if !ends(s[|s| - 1]) {
        assert Cut(s, ends)[|pieces| - 1] != [];
      }
    }
  }

  lemma SameLast<T>(p: seq<seq<T>>, q: seq<seq<T>>, x: T, y: T, ends: T -> bool)
    requires p != [] && q != [] && Grown(p, x, ends) == Grown(q, y, ends)
    ensures p == q && (x == y || (ends(x) && ends(y)))
  {
    var r := Grown(p, x, ends);
    var last := r[|r| - 1];
    if ends(x) {
      assert last == [];
      assert ends(y);
      assert p == r[..|r| - 1] == q;
    } else {
      assert last == p[|p| - 1] + [x];
      assert !ends(y);
      assert last == q[|q| - 1] + [y];
      assert x == last[|last| - 1] == y;
      assert p[|p| - 1] == last[..|last| - 1] == q[|q| - 1];
      assert p[..|p| - 1] == r[..|r| - 1] == q[..|q| - 1];
      assert p == p[..|p| - 1] + [p[|p| - 1]] && q == q[..|q| - 1] + [q[|q| - 1]];
    }
  }
}
