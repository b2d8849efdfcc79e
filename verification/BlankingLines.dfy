/** Blanked text beside the original, line by line: when the lines of the two still pair up. */
module BlankingLines {
  import opened Text
  import opened Blanking
  import opened BlankingLaws
  import opened BlankingLexemes

  // ----- `str.splitlines` of Python -----

  predicate IsSeparator(c: char) {
    var n := c as int;
    10 <= n <= 13 || 0x1C <= n <= 0x1E || n == 0x85 || n == 0x2028 || n == 0x2029
  }

  /** A line ends behind character `i`; a carriage return in front of a newline does not end it. */
  predicate EndsAt(s: string, i: nat)
    requires i < |s|
  {
    IsSeparator(s[i]) && !(s[i] == '\r' && i + 1 < |s| && s[i + 1] == '\n')
  }

  function FirstSeparator(s: string, i: nat): (k: nat)
    requires i <= |s|
    ensures i <= k <= |s| && (k < |s| ==> IsSeparator(s[k]))
    ensures forall j :: i <= j < k ==> !IsSeparator(s[j])
    decreases |s| - i
  {
    if i < |s| && !IsSeparator(s[i]) then FirstSeparator(s, i + 1) else i
  }

  /** The separator at `k` is one character, or a carriage return and newline. */
  function SeparatorLength(s: string, k: nat): (n: nat)
    requires k < |s| && IsSeparator(s[k])
    ensures 1 <= n <= 2 && k + n <= |s| && EndsAt(s, k + n - 1) && (n == 1 <==> EndsAt(s, k))
  {
    if s[k] == '\r' && k + 1 < |s| && s[k + 1] == '\n' then 2 else 1
  }

  /** The lines without their separators; nothing is behind a last separator. */
  function SplitLines(s: string): (lines: seq<string>)
    decreases |s|
  {
    if s == [] then []
    else
      var k := FirstSeparator(s, 0);
      if k == |s| then [s] else [s[..k]] + SplitLines(s[k + SeparatorLength(s, k)..])
  }

  lemma FirstSeparatorIs(s: string, i: nat, k: nat)
    requires i <= k <= |s| && (forall j :: i <= j < k ==> !IsSeparator(s[j])) && (k < |s| ==> IsSeparator(s[k]))
    ensures FirstSeparator(s, i) == k
  {
    hide IsSeparator;
  }

  lemma SplitAt(s: string, k: nat)
    requires k < |s| && IsSeparator(s[k]) && forall j :: 0 <= j < k ==> !IsSeparator(s[j])
    ensures SplitLines(s) == [s[..k]] + SplitLines(s[k + SeparatorLength(s, k)..])
  {
    hide IsSeparator;
    FirstSeparatorIs(s, 0, k);
  }

  lemma SplitOne(s: string)
    requires s != [] && forall j :: 0 <= j < |s| ==> !IsSeparator(s[j])
    ensures SplitLines(s) == [s]
  {
    hide IsSeparator;
    FirstSeparatorIs(s, 0, |s|);
  }

  // ----- counting lines -----

  /** How many lines end among the first `n` characters. */
  function CountEnds(s: string, n: nat): nat
    requires n <= |s|
  {
    if n == 0 then 0 else CountEnds(s, n - 1) + if EndsAt(s, n - 1) then 1 else 0
  }

  lemma EndsBehind(s: string, at: nat, i: nat)
    requires at + i < |s|
    ensures EndsAt(s[at..], i) <==> EndsAt(s, at + i)
  {
    hide IsSeparator;
    assert s[at..][i] == s[at + i];
    if i + 1 < |s[at..]| {
      assert s[at..][i + 1] == s[at + i + 1];
    }
  }

  lemma {:induction false} CountBehind(s: string, at: nat, n: nat)
    requires at + n <= |s|
    ensures CountEnds(s, at + n) == CountEnds(s, at) + CountEnds(s[at..], n)
    decreases n
  {
    hide EndsAt;
    if n == 0 {
    } else {
      CountBehind(s, at, n - 1);
      EndsBehind(s, at, n - 1);
    }
  }

  lemma {:induction false} NoEnds(s: string, n: nat)
    requires n <= |s| && forall j :: 0 <= j < n ==> !EndsAt(s, j)
    ensures CountEnds(s, n) == 0
  {
    hide EndsAt;
    if n == 0 {
    } else {
      NoEnds(s, n - 1);
    }
  }

  lemma FirstEnd(s: string, k: nat)
    requires k < |s| && IsSeparator(s[k]) && forall j :: 0 <= j < k ==> !IsSeparator(s[j])
    ensures CountEnds(s, k + SeparatorLength(s, k)) == 1
  {
    var e := k + SeparatorLength(s, k) - 1;
    forall j | 0 <= j < e ensures !EndsAt(s, j) {}
    hide EndsAt, IsSeparator;
    NoEnds(s, e);
  }

  lemma CountOne(s: string, at: nat)
    requires 0 < at <= |s| && EndsAt(s, at - 1)
    ensures CountEnds(s, at) == CountEnds(s, at - 1) + 1
  {
    hide EndsAt;
  }

  lemma CountNone(s: string)
    requires s != [] && FirstSeparator(s, 0) == |s|
    ensures CountEnds(s, |s| - 1) == 0 && SplitLines(s) == [s]
  {
    forall j | 0 <= j < |s| - 1 ensures !EndsAt(s, j) {}
    hide IsSeparator, EndsAt, SplitLines, CountEnds;
    NoEnds(s, |s| - 1);
    SplitOne(s);
  }

  /** As many lines as ends, and one more unless the last character ends one. */
  lemma {:induction false} LineCount(s: string)
    requires s != []
    ensures |SplitLines(s)| == CountEnds(s, |s| - 1) + 1
    decreases |s|
  {
    hide *;
    var k := FirstSeparator(s, 0);
    if k == |s| {
      CountNone(s);
    } else {
      var at := k + SeparatorLength(s, k);
      SplitAt(s, k);
      FirstEnd(s, k);
      if at == |s| {
        assert s[at..] == [];
        NoLines();
        CountOne(s, at);
      } else {
        LineCount(s[at..]);
        CountBehind(s, at, |s| - 1 - at);
      }
    }
  }

  lemma NoLines()
    ensures SplitLines([]) == []
  {
  }

  // ----- masked text -----

  /** Whatever ends a line is kept, but for the last character of the text. */
  ghost predicate KeepsEnds(t: string, s: string)
    requires |t| == |s|
  {
    forall i :: 0 <= i < |s| - 1 && EndsAt(s, i) ==> t[i] == s[i]
  }

  lemma SpaceIsNoSeparator()
    ensures !IsSeparator(' ')
  {
  }

  lemma EndsKept(t: string, s: string, i: nat)
    requires Masks(t, s) && i < |s|
    ensures EndsAt(t, i) <==> EndsAt(s, i) && t[i] == s[i]
  {
    SpaceIsNoSeparator();
    hide IsSeparator;
  }

  lemma {:induction false} EndsCounted(t: string, s: string, n: nat)
    requires Masks(t, s) && n <= |s|
    ensures CountEnds(t, n) <= CountEnds(s, n)
    ensures CountEnds(t, n) == CountEnds(s, n) <==> forall i :: 0 <= i < n && EndsAt(s, i) ==> t[i] == s[i]
  {
    hide EndsAt, Masks;
    if n == 0 {
    } else {
      EndsCounted(t, s, n - 1);
      EndsKept(t, s, n - 1);
      assert |t| == |s| by { MasksLength(t, s); }
    }
  }

  lemma MasksLength(t: string, s: string)
    requires Masks(t, s)
    ensures |t| == |s|
  {
  }

  lemma MaskedLineCount(t: string, s: string)
    requires Masks(t, s)
    ensures |SplitLines(t)| <= |SplitLines(s)|
    ensures |SplitLines(t)| == |SplitLines(s)| <==> KeepsEnds(t, s)
  {
    hide SplitLines, EndsAt;
    if s == [] {
      assert t == [];
    } else {
      LineCount(t);
      LineCount(s);
      EndsCounted(t, s, |s| - 1);
    }
  }

  // ----- lines in pairs -----

  /** A line of masked text is the line with characters blanked, its own separator at most left as a space. */
  ghost predicate LineMasks(code: string, raw: string) {
    |raw| <= |code| && Masks(code[..|raw|], raw) && (code[|raw|..] == [] || code[|raw|..] == " ")
  }

  ghost predicate LinesPair(code: seq<string>, raw: seq<string>) {
    |code| == |raw| && forall i :: 0 <= i < |raw| ==> LineMasks(code[i], raw[i])
  }

  lemma PairCons(a: string, b: string, code: seq<string>, raw: seq<string>)
    requires LineMasks(a, b) && LinesPair(code, raw)
    ensures LinesPair([a] + code, [b] + raw)
  {
    hide LineMasks;
  }

  lemma MasksSuffix(t: string, s: string, at: nat)
    requires Masks(t, s) && KeepsEnds(t, s) && at <= |s|
    ensures Masks(t[at..], s[at..]) && KeepsEnds(t[at..], s[at..])
  {
    hide EndsAt;
    forall i | 0 <= i < |s[at..]| - 1 && EndsAt(s[at..], i) ensures t[at..][i] == s[at..][i] {
      EndsBehind(s, at, i);
    }
  }

  lemma HeadMasks(t: string, s: string, k: nat, n: nat)
    requires Masks(t, s) && k + n <= |s| && n <= 1 && (n == 1 ==> t[k] == ' ')
    ensures LineMasks(t[..k + n], s[..k])
  {
    assert t[..k + n][..k] == t[..k];
    assert t[..k + n][k..] == if n == 1 then " " else [];
  }

  lemma NoneBefore(t: string, s: string, k: nat)
    requires Masks(t, s) && k <= |s| && forall j :: 0 <= j < k ==> !IsSeparator(s[j])
    ensures forall j :: 0 <= j < k ==> !IsSeparator(t[j])
  {
    SpaceIsNoSeparator();
    hide IsSeparator;
  }

  /** The first line of masked text: as long as that of the text, or one space longer, with the same end. */
  lemma FirstLine(t: string, s: string, k: nat) returns (j: nat)
    requires Masks(t, s) && KeepsEnds(t, s)
    requires k < |s| && IsSeparator(s[k]) && forall i :: 0 <= i < k ==> !IsSeparator(s[i])
    ensures j == k || (j == k + 1 && t[k] == ' ')
    ensures j == |s| || (j < |s| && IsSeparator(t[j]) && j + SeparatorLength(t, j) == k + SeparatorLength(s, k))
    ensures j == |s| ==> k + SeparatorLength(s, k) == |s|
    ensures forall i :: 0 <= i < j ==> !IsSeparator(t[i])
  {
    NoneBefore(t, s, k);
    SpaceIsNoSeparator();
    var e := k + SeparatorLength(s, k) - 1;
    assert EndsAt(s, e);
    if t[k] == s[k] {
      j := k;
      if e == k + 1 {
        assert t[k + 1] == '\n';
      }
    } else {
      assert t[k] == ' ';
      j := k + 1;
      if e == k + 1 {
        assert s[k + 1] == '\n' && t[k + 1] == '\n';
      } else {
        assert k == |s| - 1;
      }
    }
  }

  lemma {:induction false} KeptLinesPair(t: string, s: string)
    requires Masks(t, s) && KeepsEnds(t, s)
    ensures LinesPair(SplitLines(t), SplitLines(s))
    decreases |s|
  {
    hide *;
    MasksLength(t, s);
    if s == [] {
      NoLines();
      NothingPairs();
    } else {
      var k := FirstSeparator(s, 0);
      if k == |s| {
        NoneBefore(t, s, k);
        SplitOne(s);
        SplitOne(t);
        OneLinePairs(t, s);
      } else {
        var j := FirstLine(t, s, k);
        var at := k + SeparatorLength(s, k);
        assert 0 < at <= |s|;
        SplitAt(s, k);
        MasksSuffix(t, s, at);
        KeptLinesPair(t[at..], s[at..]);
        HeadMasks(t, s, k, j - k);
        if j == |s| {
          assert t[..j] == t && t[at..] == [];
          SplitOne(t);
          NoLines();
          assert [t] + [] == [t];
        } else {
          SplitAt(t, j);
        }
        PairCons(t[..j], s[..k], SplitLines(t[at..]), SplitLines(s[at..]));
      }
    }
  }

  lemma NothingPairs()
    ensures LinesPair([], [])
  {
  }

  lemma OneLinePairs(t: string, s: string)
    requires Masks(t, s)
    ensures LinesPair([t], [s])
  {
    assert t[..|s|] == t && t[|s|..] == [];
  }

  lemma PairedAreEqual(code: seq<string>, raw: seq<string>)
    requires LinesPair(code, raw)
    ensures |code| == |raw|
  {
  }

  /**
   * The lines of the blanked text pair up with those of the original, each with characters blanked, exactly
   * if no separator is blanked, the last character aside; otherwise there are fewer of them. Newlines are
   * never blanked; a form feed or a line separator inside a comment or a literal is.
   */
  lemma BlankedLinesPair(s: string)
    ensures var code := SplitLines(Blank(s, 0));
            && |code| <= |SplitLines(s)|
            && |Blank(s, 0)| == |s|
            && (|code| == |SplitLines(s)| <==> KeepsEnds(Blank(s, 0), s))
            && (LinesPair(code, SplitLines(s)) <==> KeepsEnds(Blank(s, 0), s))
  {
    hide *;
    var t := Blank(s, 0);
    BlankMasks(s, 0);
    MasksLength(t, s);
    MaskedLineCount(t, s);
    if KeepsEnds(t, s) {
      KeptLinesPair(t, s);
    }
    if LinesPair(SplitLines(t), SplitLines(s)) {
      PairedAreEqual(SplitLines(t), SplitLines(s));
    }
  }

  /** In a text whose lines end in newlines only, with carriage returns or without, they always pair up. */
  lemma NewlinesPair(s: string)
    requires forall i :: 0 <= i < |s| && EndsAt(s, i) ==> s[i] == '\n'
    ensures LinesPair(SplitLines(Blank(s, 0)), SplitLines(s))
  {
    var t := Blank(s, 0);
    BlankMasks(s, 0);
    hide Blank, SplitLines, EndsAt;
    BlankedLinesPair(s);
  }

  /** A form feed in a comment: one line fewer in front of everything behind the comment. */
  lemma FormFeedShiftsLines(behind: string)
    requires behind != []
    ensures var s := "/*\U{0C}*/" + behind; |SplitLines(Blank(s, 0))| < |SplitLines(s)|
  {
    var comment := Character('\U{0C}', End);
    var whole := "/*\U{0C}*/";
    assert Inside(End) == [] && Inside(comment) == "\U{0C}";
    assert "/*" + Inside(comment) + "*/" == whole;
    assert WellFormed(comment);
    CommentIsWiped(comment, behind);
    var s := whole + behind;
    var t := Blank(s, 0);
    assert s[2] == '\U{0C}' && t[2] == Wipe(whole)[2] == ' ';
    hide Blank, SplitLines;
    BlankedLinesPair(s);
    assert EndsAt(s, 2);
  }
}
