/** What one jump crosses, said by character classes alone: blank space, and exactly one subword. */
module WordShapes {
  import opened Text
  import opened WordMotion

  // ----- subwords -----

  predicate Uniform(cs: Classes, s: nat, e: nat, c: CharClass) {
    s <= e <= |cs| && forall i :: s <= i < e ==> cs[i] == c
  }

  /** An upper-case letter and the lower-case letters behind it. */
  predicate Hump(cs: Classes, s: nat, e: nat) {
    s + 2 <= e <= |cs| && cs[s] == UpperCase && Uniform(cs, s + 1, e, LowerCase)
  }

  predicate NotAt(cs: Classes, e: nat, c: CharClass) { e >= |cs| || cs[e] != c }

  predicate NotBehind(cs: Classes, s: nat, c: CharClass) { s == 0 || (s <= |cs| && cs[s - 1] != c) }

  /**
   * The subword that starts at `s`, whole to its right: one or two ideographs, a hump, upper-case letters up
   * to where a hump starts or no letter follows, or a run of any other class.
   */
  predicate WordAhead(cs: Classes, s: nat, e: nat) {
    s < e <= |cs| &&
    match cs[s]
    case Whitespace => false
    case Cjk => Uniform(cs, s, e, Cjk) && e <= s + 2 && (e == s + 2 || NotAt(cs, e, Cjk))
    case UpperCase =>
      || (Hump(cs, s, e) && NotAt(cs, e, LowerCase))
      || (Uniform(cs, s, e, UpperCase) && NotAt(cs, e, UpperCase) && NotAt(cs, e, LowerCase))
      || (Uniform(cs, s, e, UpperCase) && e + 1 < |cs| && cs[e] == UpperCase && cs[e + 1] == LowerCase)
    case c => Uniform(cs, s, e, c) && NotAt(cs, e, c)
  }

  /** The subword that ends at `e`, whole to its left: there upper-case letters never stop for a hump. */
  predicate WordBehind(cs: Classes, s: nat, e: nat) {
    s < e <= |cs| &&
    match cs[e - 1]
    case Whitespace => false
    case Cjk => Uniform(cs, s, e, Cjk) && e <= s + 2 && (e == s + 2 || NotBehind(cs, s, Cjk))
    case LowerCase =>
      || Hump(cs, s, e)
      || (Uniform(cs, s, e, LowerCase) && NotBehind(cs, s, LowerCase) && NotBehind(cs, s, UpperCase))
    case c => Uniform(cs, s, e, c) && NotBehind(cs, s, c)
  }

  /** From `cur` to `e`: blank space up to the end of the line, or up to one subword and that. */
  ghost predicate OneWordAhead(cs: Classes, cur: nat, e: nat) {
    exists s: nat :: Uniform(cs, cur, s, Whitespace) && (WordAhead(cs, s, e) || (s == |cs| && e == s))
  }

  ghost predicate OneWordBehind(cs: Classes, s: nat, cur: nat) {
    exists e: nat :: Uniform(cs, e, cur, Whitespace) && (WordBehind(cs, s, e) || (e == 0 && s == 0))
  }

  // ----- forwards -----

  lemma RunEndIs(cs: Classes, pos: nat, c: CharClass, e: nat)
    requires Uniform(cs, pos, e, c) && NotAt(cs, e, c)
    ensures RunEnd(cs, pos, c) == e
  {
  }

  lemma WordEndIsAhead(cs: Classes, s: nat)
    requires s < |cs| && cs[s] != Whitespace
    ensures WordAhead(cs, s, WordEnd(cs, s))
  {
    if cs[s] == UpperCase {
      var e := RunEnd(cs, s, UpperCase);
      hide RunEnd;
      assert e > s;
      if e < |cs| && cs[e] == LowerCase && e == s + 1 {
        HumpEnds(cs, s);
      }
    } else {
      hide RunEnd;
    }
  }

  lemma HumpEnds(cs: Classes, s: nat)
    requires s + 1 < |cs| && cs[s] == UpperCase && cs[s + 1] == LowerCase
    ensures var e := RunEnd(cs, s + 1, LowerCase); Hump(cs, s, e) && NotAt(cs, e, LowerCase)
  {
  }

  lemma WordAheadIsWordEnd(cs: Classes, s: nat, e: nat)
    requires WordAhead(cs, s, e)
    ensures e == WordEnd(cs, s)
  {
    match cs[s]
    case Cjk => hide RunEnd;
    case UpperCase =>
      if Hump(cs, s, e) {
        RunEndIs(cs, s, UpperCase, s + 1);
        RunEndIs(cs, s + 1, LowerCase, e);
      } else if NotAt(cs, e, UpperCase) {
        RunEndIs(cs, s, UpperCase, e);
      } else {
        RunEndIs(cs, s, UpperCase, e + 1);
      }
      hide RunEnd;
    case c => RunEndIs(cs, s, c, e);
  }

  lemma OnlyOneAhead(cs: Classes, cur: nat, s: nat, e: nat)
    requires Uniform(cs, cur, s, Whitespace) && (WordAhead(cs, s, e) || (s == |cs| && e == s))
    ensures e == NextBreak(cs, cur)
  {
    assert NotAt(cs, s, Whitespace);
    RunEndIs(cs, cur, Whitespace, s);
    if s < |cs| {
      WordAheadIsWordEnd(cs, s, e);
    }
    hide RunEnd, WordEnd, WordAhead;
  }

  /** A jump to the right crosses blank space and exactly one subword, and there is one place where that is so. */
  lemma NextCrossesOneWord(cs: Classes, cur: nat, e: nat)
    requires cur <= |cs|
    ensures e == NextBreak(cs, cur) <==> OneWordAhead(cs, cur, e)
    ensures e == NextBreak(cs, cur) && e < |cs| ==> cur < e && cs[e - 1] != Whitespace
  {
    var s := RunEnd(cs, cur, Whitespace);
    assert Uniform(cs, cur, s, Whitespace);
    if s < |cs| {
      WordEndIsAhead(cs, s);
      AheadEndsInContent(cs, s, WordEnd(cs, s));
    }
    hide RunEnd, WordEnd, WordAhead, Uniform;
    if OneWordAhead(cs, cur, e) {
      var from: nat :| Uniform(cs, cur, from, Whitespace) && (WordAhead(cs, from, e) || (from == |cs| && e == from));
      OnlyOneAhead(cs, cur, from, e);
    }
  }

  lemma AheadEndsInContent(cs: Classes, s: nat, e: nat)
    requires WordAhead(cs, s, e)
    ensures cs[e - 1] != Whitespace
  {
  }

  // ----- backwards -----

  lemma RunStartIs(cs: Classes, pos: nat, c: CharClass, s: nat)
    requires Uniform(cs, s, pos, c) && NotBehind(cs, s, c)
    ensures RunStart(cs, pos, c) == s
  {
  }

  lemma WordStartIsBehind(cs: Classes, e: nat)
    requires 0 < e <= |cs| && cs[e - 1] != Whitespace
    ensures WordBehind(cs, WordStart(cs, e - 1), e)
  {
    hide RunStart;
  }

  lemma WordBehindIsWordStart(cs: Classes, s: nat, e: nat)
    requires WordBehind(cs, s, e)
    ensures s == WordStart(cs, e - 1)
  {
    var c := cs[e - 1];
    if c == Cjk {
      hide RunStart;
    } else {
      var from := if c == LowerCase && Hump(cs, s, e) then s + 1 else s;
      assert Uniform(cs, from, e - 1, c) && NotBehind(cs, from, c);
      RunStartIs(cs, e - 1, c, from);
      hide RunStart;
    }
  }

  lemma OnlyOneBehind(cs: Classes, s: nat, e: nat, cur: nat)
    requires Uniform(cs, e, cur, Whitespace) && (WordBehind(cs, s, e) || (e == 0 && s == 0))
    ensures s == PrevBreak(cs, cur)
  {
    assert NotBehind(cs, e, Whitespace);
    RunStartIs(cs, cur, Whitespace, e);
    if e > 0 {
      WordBehindIsWordStart(cs, s, e);
    }
    hide RunStart, WordStart, WordBehind;
  }

  /** A jump to the left crosses blank space and exactly one subword. */
  lemma PrevCrossesOneWord(cs: Classes, s: nat, cur: nat)
    requires cur <= |cs|
    ensures s == PrevBreak(cs, cur) <==> OneWordBehind(cs, s, cur)
    ensures s == PrevBreak(cs, cur) && 0 < s ==> s < cur && cs[s] != Whitespace
  {
    var e := RunStart(cs, cur, Whitespace);
    assert Uniform(cs, e, cur, Whitespace);
    if e > 0 {
      WordStartIsBehind(cs, e);
      BehindStartsInContent(cs, WordStart(cs, e - 1), e);
    }
    hide RunStart, WordStart, WordBehind, Uniform;
    if OneWordBehind(cs, s, cur) {
      var to: nat :| Uniform(cs, to, cur, Whitespace) && (WordBehind(cs, s, to) || (to == 0 && s == 0));
      OnlyOneBehind(cs, s, to, cur);
    }
  }

  lemma BehindStartsInContent(cs: Classes, s: nat, e: nat)
    requires WordBehind(cs, s, e)
    ensures cs[s] != Whitespace
  {
  }

  // ----- classes of characters -----

  const LOWER_LETTERS := "abcdefghijklmnopqrstuvwxyz"
  const UPPER_LETTERS := "ABCDEFGHIJKLMNOPQRSTUVWXYZ"
  const DIGITS := "0123456789"

  /** Which characters are letters and digits to the editor: those of ASCII only. */
  lemma LettersAndDigits(c: char)
    ensures Class(c) == LowerCase <==> c in LOWER_LETTERS
    ensures Class(c) == UpperCase <==> c in UPPER_LETTERS
    ensures Class(c) == Digit <==> c in DIGITS
  {
    InRow(LOWER_LETTERS, 'a', c);
    InRow(UPPER_LETTERS, 'A', c);
    InRow(DIGITS, '0', c);
  }

  /** Characters of consecutive codes. */
  lemma InRow(row: string, first: char, c: char)
    requires forall i :: 0 <= i < |row| ==> row[i] as int == first as int + i
    ensures c in row <==> first as int <= c as int < first as int + |row|
  {
    if first as int <= c as int < first as int + |row| {
      assert row[c as int - first as int] == c;
    }
  }

  /** The joints, and blank space, which is no letter, digit or joint. */
  lemma JointsAndSpace(c: char)
    ensures Class(c) == Underscore <==> c == '_'
    ensures Class(c) == Hyphen <==> c == '-'
    ensures Class(c) == Whitespace <==> IsWhitespace(c)
    ensures Class(c) == Cjk ==> c as int >= 0x3400
  {
  }

  /** The ideographs: the unified block, its first extension, and the compatibility block. */
  lemma Ideographs(c: char)
    ensures Class(c) == Cjk <==> '\U{3400}' <= c <= '\U{4DBF}' || '\U{4E00}' <= c <= '\U{9FFF}'
                                 || '\U{F900}' <= c <= '\U{FAFF}'
  {
  }

  // ----- bytes -----

  /** A character in UTF-8 (section 3 of RFC 3629). */
  function Utf8(c: char): (bytes: seq<nat>)
    ensures forall i :: 0 <= i < |bytes| ==> bytes[i] < 256 && (i > 0 <==> 0x80 <= bytes[i] < 0xC0)
  {
    var n := c as int;
    if n <= 0x7F then [n]
    else if n <= 0x7FF then [0xC0 + n / 0x40, 0x80 + n % 0x40]
    else if n <= 0xFFFF then [0xE0 + n / 0x1000, 0x80 + n / 0x40 % 0x40, 0x80 + n % 0x40]
    else [0xF0 + n / 0x40000, 0x80 + n / 0x1000 % 0x40, 0x80 + n / 0x40 % 0x40, 0x80 + n % 0x40]
  }

  function Encoded(line: string): seq<nat> {
    if line == [] then [] else Encoded(line[..|line| - 1]) + Utf8(line[|line| - 1])
  }

  /** The offset of a character is the number of bytes in front of it. */
  lemma {:induction false} OffsetCountsBytes(line: string, i: nat)
    requires i <= |line|
    ensures Offset(line, i) == |Encoded(line[..i])|
  {
    if i == 0 {
    } else {
      OffsetCountsBytes(line, i - 1);
      assert line[..i][..i - 1] == line[..i - 1];
    }
  }

  // ----- the documented lines -----

  /** One jump to the right in a line, blank space up to `s` first. */
  lemma JumpsTo(line: string, cur: nat, s: nat, e: nat)
    requires Uniform(ClassesOf(line), cur, s, Whitespace) && WordAhead(ClassesOf(line), s, e)
    ensures cur <= |line| && NextBreak(ClassesOf(line), cur) == e
  {
    hide WordAhead;
    assert OneWordAhead(ClassesOf(line), cur, e);
    NextCrossesOneWord(ClassesOf(line), cur, e);
  }

  /** The lines the editor documents: a hump behind a word, an acronym, joints, digits, blank space. */
  lemma HumpJumps()
    ensures var cs := ClassesOf("camelCase"); NextBreak(cs, 0) == 5 && NextBreak(cs, 5) == 9
  {
    hide NextBreak;
    JumpsTo("camelCase", 0, 0, 5);
    JumpsTo("camelCase", 5, 5, 9);
  }

  lemma AcronymJumps()
    ensures var cs := ClassesOf("HTTPRequest"); NextBreak(cs, 0) == 4 && NextBreak(cs, 4) == 11
  {
    hide NextBreak;
    JumpsTo("HTTPRequest", 0, 0, 4);
    JumpsTo("HTTPRequest", 4, 4, 11);
  }

  lemma JointJumps()
    ensures var cs := ClassesOf("a_b-c"); NextBreak(cs, 0) == 1 && NextBreak(cs, 1) == 2 && NextBreak(cs, 3) == 4
  {
    hide NextBreak;
    JumpsTo("a_b-c", 0, 0, 1);
    JumpsTo("a_b-c", 1, 1, 2);
    JumpsTo("a_b-c", 3, 3, 4);
  }

  lemma DigitJumps()
    ensures var cs := ClassesOf("foo123bar"); NextBreak(cs, 0) == 3 && NextBreak(cs, 3) == 6 && NextBreak(cs, 6) == 9
  {
    hide NextBreak;
    JumpsTo("foo123bar", 0, 0, 3);
    JumpsTo("foo123bar", 3, 3, 6);
    JumpsTo("foo123bar", 6, 6, 9);
  }

  lemma SpaceJumps()
    ensures var cs := ClassesOf("hello world"); NextBreak(cs, 0) == 5 && NextBreak(cs, 5) == 11
  {
    hide NextBreak;
    JumpsTo("hello world", 0, 0, 5);
    JumpsTo("hello world", 5, 6, 11);
  }
}
