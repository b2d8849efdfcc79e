/** What each token of the scanner is, said without it: raw openings, byte strings, line comments, lifetimes. */
module BlankingTokens {
  import opened Text
  import opened Blanking
  import opened BlankingLaws
  import opened BlankingLexemes

  // ----- what opens a raw string -----

  /** `r` or `br`, at most 255 hashes, and a double quote. */
  ghost predicate RawSpelling(s: string, letters: string, n: nat, more: string) {
    (letters == "r" || letters == "br") && n <= 255 && s == letters + Hashes(n) + "\"" + more
  }

  lemma HashesBetween(s: string, p: nat, k: nat)
    requires p <= k < |s| && (forall j :: p <= j < k ==> s[j] == '#') && s[k] == '"'
    ensures s == s[..p] + Hashes(k - p) + "\"" + s[k + 1..]
  {
    assert s[p..k] == Hashes(k - p);
    assert s == s[..p] + s[p..k] + [s[k]] + s[k + 1..];
  }

  /** A raw string opens here exactly if the text is spelled so. */
  lemma RawOpenMeans(s: string)
    ensures RawOpen(s) <==> exists letters, n, more :: RawSpelling(s, letters, n, more)
  {
    if RawOpen(s) {
      var p := RawLetters(s);
      var k := HashEnd(s, p);
      HashesBetween(s, p, k);
      assert s[..p] == "r" || s[..p] == "br";
      assert RawSpelling(s, s[..p], k - p, s[k + 1..]);
    }
    if letters, n, more :| RawSpelling(s, letters, n, more) {
      RawOpens(letters, n, more);
    }
  }

  /** How a raw string starts. */
  lemma RawSpellingStarts(s: string, letters: string, n: nat, more: string)
    requires RawSpelling(s, letters, n, more)
    ensures |s| >= 2 && (s[0] == 'r' || (s[0] == 'b' && s[1] == 'r'))
    ensures s[0] == 'r' ==> s[1] == '#' || s[1] == '"'
  {
    if letters == "r" {
      if n > 0 {
        assert Hashes(n)[0] == '#';
      }
    }
  }

  /** It closes at a quote with as many hashes as opened it. */
  lemma ClosesRawMeans(s: string, i: nat, n: nat)
    ensures ClosesRaw(s, i, n) <==> i + 1 + n <= |s| && s[i..i + 1 + n] == "\"" + Hashes(n)
  {
    var closer := "\"" + Hashes(n);
    if i + 1 + n <= |s| {
      var t := s[i..i + 1 + n];
      assert t[0] == s[i] && forall j :: i < j <= i + n ==> s[j] == t[j - i];
      if ClosesRaw(s, i, n) {
        assert forall m :: 0 < m < |t| ==> t[m] == s[i + m];
        assert t == closer;
      }
    }
  }

  // ----- plain code -----

  /** A character that opens neither a literal nor a comment, nor a raw string with what follows, is kept. */
  lemma CodeCharacterIsKept(c: char, x: string)
    requires c != '"' && c != '\'' && !(c == '/' && x != [] && (x[0] == '/' || x[0] == '*'))
    requires forall letters, n, more :: !RawSpelling([c] + x, letters, n, more)
    ensures Blank([c] + x, 0) == [c] + Blank(x, 0)
  {
    var s := [c] + x;
    RawOpenMeans(s);
    CodeStep(s);
    hide Blank, RawOpen;
    assert s[..1] == [c] && s[1..] == x;
  }

  /** In particular any character but `r` and `b`, quotes and slashes. */
  lemma OtherCharacterIsKept(c: char, x: string)
    requires c != '"' && c != '\'' && c != '/' && c != 'r' && c != 'b'
    ensures Blank([c] + x, 0) == [c] + Blank(x, 0)
  {
    var s := [c] + x;
    assert s[0] == c;
    forall letters, n, more ensures !RawSpelling(s, letters, n, more) {
      if RawSpelling(s, letters, n, more) {
        RawSpellingStarts(s, letters, n, more);
      }
    }
    hide *;
    CodeCharacterIsKept(c, x);
  }

  lemma LoneLetterOpensNothing(x: string)
    requires x != [] && (x[0] == '"' || x[0] == '\'')
    ensures forall letters, n, more :: !RawSpelling(['b'] + x, letters, n, more)
  {
    var s := ['b'] + x;
    assert s[0] == 'b' && s[1] == x[0];
    forall letters, n, more ensures !RawSpelling(s, letters, n, more) {
      if RawSpelling(s, letters, n, more) {
        RawSpellingStarts(s, letters, n, more);
      }
    }
  }

  lemma Regroup(letter: string, open: string, body: string, close: string, behind: string)
    ensures letter + open + body + close + behind == letter + (open + body + close + behind)
  {
  }

  /** A byte string keeps its letter and its quotes; what stands between is wiped as in any string. */
  lemma ByteStringIsWiped(units: seq<Unit>, behind: string)
    requires Fits(units, '"')
    ensures Blank("b\"" + Spelled(units) + "\"" + behind, 0)
         == "b\"" + Wipe(Spelled(units)) + "\"" + Blank(behind, 0)
  {
    hide *;
    var q: string := "\"";
    var x := q + Spelled(units) + q + behind;
    assert x[0] == '"';
    assert "b" + q == "b\"" && "b" == ['b'];
    LoneLetterOpensNothing(x);
    CodeCharacterIsKept('b', x);
    StringIsWiped(units, behind);
    Regroup("b", q, Spelled(units), q, behind);
    Regroup("b", q, Wipe(Spelled(units)), q, Blank(behind, 0));
  }

  /** A byte literal likewise. */
  lemma ByteIsWiped(units: seq<Unit>, behind: string)
    requires Fits(units, '\'') && |units| == 1
    ensures Blank("b'" + Spelled(units) + "'" + behind, 0) == "b'" + Wipe(Spelled(units)) + "'" + Blank(behind, 0)
  {
    OneUnitIsNoLifetime(units);
    hide *;
    var q: string := "'";
    var x := q + Spelled(units) + q + behind;
    assert x[0] == '\'';
    assert "b" + q == "b'" && "b" == ['b'];
    LoneLetterOpensNothing(x);
    CodeCharacterIsKept('b', x);
    CharIsWiped(units, behind);
    Regroup("b", q, Spelled(units), q, behind);
    Regroup("b", q, Wipe(Spelled(units)), q, Blank(behind, 0));
  }

  lemma OneUnitIsNoLifetime(units: seq<Unit>)
    requires |units| == 1
    ensures NoLifetime(Spelled(units))
  {
    assert units[1..] == [];
    assert Spelled(units) == UnitText(units[0]) + Spelled([]);
  }

  // ----- line comments -----

  /** A line comment is wiped up to its newline and no further. */
  lemma LineCommentIsWiped(x: string, behind: string)
    requires OneLine(x) && (behind == [] || behind[0] == '\n')
    ensures Blank("//" + x + behind, 0) == Wipe("//" + x) + Blank(behind, 0)
  {
    var s, k := "//" + x + behind, 2 + |x|;
    assert forall j :: 0 <= j < k ==> s[j] == ("//" + x)[j];
    assert forall j :: 0 <= j < |x| ==> ("//" + x)[2 + j] == x[j];
    assert s[k..] == behind && s[..k] == "//" + x;
    assert k < |s| ==> s[k] == '\n';
    LineEndIs(s, 0, k);
    CodeStep(s);
    hide Blank;
  }

  lemma LineEndIs(s: string, i: nat, k: nat)
    requires i <= k <= |s| && (forall j :: i <= j < k ==> s[j] != '\n') && (k < |s| ==> s[k] == '\n')
    ensures LineEnd(s, i) == k
  {
  }

  // ----- lifetimes -----

  predicate Letter(c: char) { 'a' <= c <= 'z' || 'A' <= c <= 'Z' || c == '_' }

  predicate WordChar(c: char) { Letter(c) || '0' <= c <= '9' }

  /** An identifier. */
  predicate Word(name: string) { name != [] && Letter(name[0]) && forall i :: 0 <= i < |name| ==> WordChar(name[i]) }

  /**
   * A quote and a word are a lifetime and kept, unless a quote ends the word: then its last letter is left
   * to be scanned with that quote, and a word of one letter is a literal.
   */
  lemma LifetimeIsKept(name: string, behind: string)
    requires Word(name) && (behind == [] || !WordChar(behind[0]))
    ensures behind == [] || behind[0] != '\'' ==> Blank("'" + name + behind, 0) == "'" + name + Blank(behind, 0)
    ensures behind != [] && behind[0] == '\'' && |name| > 1 ==>
              Blank("'" + name + behind, 0)
              == "'" + name[..|name| - 1] + Blank(name[|name| - 1..] + behind, 0)
    ensures behind != [] && behind[0] == '\'' && |name| == 1 ==>
              Blank("'" + name + behind, 0) == "' '" + Blank(behind[1..], 0)
  {
    if behind != [] && behind[0] == '\'' && |name| == 1 {
      OneLetterLiteral(name, behind);
    } else {
      LifetimeLength(name, behind);
      LifetimeParts(name, behind);
      hide *;
      CodeStep("'" + name + behind);
    }
  }

  lemma LifetimeParts(name: string, behind: string)
    requires name != []
    ensures var s, k := "'" + name + behind, |name|;
            && s[0] == '\'' && s[..1 + k] == "'" + name && s[1 + k..] == behind
            && s[..k] == "'" + name[..k - 1] && s[k..] == name[k - 1..] + behind
  {
  }

  lemma LifetimeLength(name: string, behind: string)
    requires Word(name) && (behind == [] || !WordChar(behind[0]))
    requires behind != [] && behind[0] == '\'' ==> |name| > 1
    ensures var s := "'" + name + behind;
            Lifetime(s) == (if behind != [] && behind[0] == '\'' then |name| else 1 + |name|)
            && !LineComment(s) && !BlockOpen(s) && !RawOpen(s)
  {
    var s, k := "'" + name + behind, 1 + |name|;
    assert forall j :: 1 <= j < k ==> s[j] == name[j - 1];
    assert s[k..] == behind;
    assert k < |s| ==> s[k] == behind[0];
    IdentEndIs(s, 1, k);
  }

  lemma OneLetter(c: char)
    requires Letter(c)
    ensures var units := [Plain(c)]; Spelled(units) == [c] && Fits(units, '\'') && NoLifetime([c]) && Wipe([c]) == " "
  {
    var units := [Plain(c)];
    assert units[1..] == [];
    assert Spelled(units) == [c] + [];
  }

  lemma OneLetterLiteral(name: string, behind: string)
    requires Word(name) && |name| == 1 && behind != [] && behind[0] == '\''
    ensures Blank("'" + name + behind, 0) == "' '" + Blank(behind[1..], 0)
  {
    var units := [Plain(name[0])];
    OneLetter(name[0]);
    hide *;
    assert name == [name[0]];
    CharIsWiped(units, behind[1..]);
    assert behind == "'" + behind[1..];
    Assoc("'" + name, "'", behind[1..]);
    assert "'" + " " + "'" == "' '";
  }

  /** Every text behind a single quote that opens no lifetime, closed or not. */
  lemma CharCases(text: string) returns (closed: bool, units: seq<Unit>, behind: string)
    requires Lifetime("'" + text) == 0
    ensures closed ==> Fits(units, '\'') && text == Spelled(units) + "'" + behind
    ensures Blank("'" + text, 0) ==
            if closed then "'" + Wipe(Spelled(units)) + "'" + Blank(behind, 0) else "'" + Wipe(text)
  {
    var s := "'" + text;
    closed, units, behind := ReadLiteral(s, '\'', 1);
    assert s[1..] == text;
    if closed {
      assert IsQuote('\'');
      hide *;
      assert s == ['\''] + Spelled(units) + ['\''] + behind;
      LiteralIsWiped(units, '\'', behind);
    } else {
      CodeStep(s);
      hide Closing, Wipe, Blank, Lifetime;
      assert s[0] == '\'' && s[1..|s|] == text;
      assert [s[0]] + Wipe(text) + [] == "'" + Wipe(text);
    }
  }
}
