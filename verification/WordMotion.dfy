/** Subword cursor motion: the two scanners of the editor and when they mirror each other. */
module WordMotion {
  import opened Text

  datatype CharClass = LowerCase | UpperCase | Digit | Underscore | Hyphen | Cjk | Whitespace | Other

  function Class(c: char): CharClass {
    var n := c as int;
    if 'a' <= c <= 'z' then LowerCase
    else if 'A' <= c <= 'Z' then UpperCase
    else if '0' <= c <= '9' then Digit
    else if c == '_' then Underscore
    else if c == '-' then Hyphen
    else if IsWhitespace(c) then Whitespace
    else if 0x3400 <= n <= 0x4DBF || 0x4E00 <= n <= 0x9FFF || 0xF900 <= n <= 0xFAFF then Cjk
    else Other
  }

  type Classes = seq<CharClass>

  function ClassesOf(line: string): (cs: Classes)
    ensures |cs| == |line| && forall i :: 0 <= i < |line| ==> cs[i] == Class(line[i])
  {
    seq(|line|, i requires 0 <= i < |line| => Class(line[i]))
  }

  // ----- where a run of one class ends and starts -----

  function RunEnd(cs: Classes, pos: nat, c: CharClass): (e: nat)
    requires pos <= |cs|
    ensures pos <= e <= |cs| && (e < |cs| ==> cs[e] != c)
    ensures forall i :: pos <= i < e ==> cs[i] == c
    decreases |cs| - pos
  {
    if pos < |cs| && cs[pos] == c then RunEnd(cs, pos + 1, c) else pos
  }

  function RunStart(cs: Classes, pos: nat, c: CharClass): (s: nat)
    requires pos <= |cs|
    ensures s <= pos && (s > 0 ==> cs[s - 1] != c)
    ensures forall i :: s <= i < pos ==> cs[i] == c
  {
    if pos > 0 && cs[pos - 1] == c then RunStart(cs, pos - 1, c) else pos
  }

  // ----- one jump in each direction -----

  /** End of the subword that starts with the content character at `pos`. */
  function WordEnd(cs: Classes, pos: nat): (e: nat)
    requires pos < |cs|
    ensures pos < e <= |cs|
  {
    if cs[pos] == Cjk then
      if pos + 1 < |cs| && cs[pos + 1] == Cjk then pos + 2 else pos + 1
    else
      var e := RunEnd(cs, pos, cs[pos]);
      if cs[pos] != UpperCase || e == |cs| || cs[e] != LowerCase then e
      else if e == pos + 1 then RunEnd(cs, e, LowerCase)
      else e - 1
  }

  /** Start of the subword that ends with the content character at `pos`. */
  function WordStart(cs: Classes, pos: nat): (s: nat)
    requires pos < |cs|
    ensures s <= pos
  {
    if cs[pos] == Cjk then
      if pos > 0 && cs[pos - 1] == Cjk then pos - 1 else pos
    else
      var s := RunStart(cs, pos, cs[pos]);
      if cs[pos] == LowerCase && s > 0 && cs[s - 1] == UpperCase then s - 1 else s
  }

  function NextBreak(cs: Classes, cur: nat): (e: nat)
    requires cur <= |cs|
    ensures cur <= e <= |cs| && (cur < |cs| ==> cur < e)
  {
    var pos := RunEnd(cs, cur, Whitespace);
    if pos == |cs| then pos else WordEnd(cs, pos)
  }

  function PrevBreak(cs: Classes, cur: nat): (s: nat)
    requires cur <= |cs|
    ensures s <= cur && (0 < cur ==> s < cur)
  {
    var pos := RunStart(cs, cur, Whitespace);
    if pos == 0 then 0 else WordStart(cs, pos - 1)
  }

  // ----- the scanners -----

  method SkipRight(line: string, start: nat, c: CharClass) returns (pos: nat)
    requires start <= |line|
    ensures pos == RunEnd(ClassesOf(line), start, c)
  {
    pos := start;
    while pos < |line| && Class(line[pos]) == c
      invariant start <= pos <= |line|
      invariant RunEnd(ClassesOf(line), start, c) == RunEnd(ClassesOf(line), pos, c)
    {
      pos := pos + 1;
    }
  }

  method SkipLeft(line: string, start: nat, c: CharClass) returns (pos: nat)
    requires start <= |line|
    ensures pos == RunStart(ClassesOf(line), start, c)
  {
    pos := start;
    while pos > 0 && Class(line[pos - 1]) == c
      invariant pos <= start
      invariant RunStart(ClassesOf(line), start, c) == RunStart(ClassesOf(line), pos, c)
    {
      pos := pos - 1;
    }
  }

  method NextCharIdx(line: string, cur: nat) returns (pos: nat)
    requires cur <= |line|
    ensures pos == NextBreak(ClassesOf(line), cur)
  {
    hide WordEnd;
    pos := cur;
    if cur == |line| {
      return;
    }
    if Class(line[pos]) == Whitespace {
      pos := SkipRight(line, pos, Whitespace);
      if pos == |line| {
        return;
      }
    }
    pos := WordRight(line, pos);
  }

  method WordRight(line: string, start: nat) returns (pos: nat)
    requires start < |line|
    ensures pos == WordEnd(ClassesOf(line), start)
  {
    pos := start;
    var c := Class(line[pos]);
    if c == Cjk {
      var steps := 0;
      while pos < |line| && steps < 2
        invariant start <= pos == start + steps <= |line| && steps <= 2
        invariant forall i :: start <= i < pos ==> Class(line[i]) == Cjk
      {
        if Class(line[pos]) != Cjk {
          break;
        }
        pos, steps := pos + 1, steps + 1;
      }
    } else if c == UpperCase {
      pos := SkipRight(line, pos, UpperCase);
      var run := pos - start;
      if run == 1 && pos < |line| && Class(line[pos]) == LowerCase {
        pos := SkipRight(line, pos, LowerCase);
      } else if run > 1 && pos < |line| && Class(line[pos]) == LowerCase {
        pos := pos - 1;
      }
    } else {
      pos := SkipRight(line, pos, c);
    }
  }

  lemma PrevBreakUnfolds(cs: Classes, cur: nat)
    requires cur <= |cs|
    ensures PrevBreak(cs, cur) ==
            if cur == 0 then 0
            else if cs[cur - 1] != Whitespace then WordStart(cs, cur - 1)
            else if RunStart(cs, cur - 1, Whitespace) == 0 then 0
            else WordStart(cs, RunStart(cs, cur - 1, Whitespace) - 1)
  {
  }

  method PrevCharIdx(line: string, cur: nat) returns (pos: nat)
    requires cur <= |line|
    ensures pos == PrevBreak(ClassesOf(line), cur)
  {
    hide *;
    ghost var cs := ClassesOf(line);
    PrevBreakUnfolds(cs, cur);
    if cur == 0 {
      return 0;
    }
    pos := cur - 1;
    if Class(line[pos]) == Whitespace {
      pos := SkipLeft(line, pos, Whitespace);
      if pos == 0 {
        return 0;
      }
      pos := pos - 1;
    }
    pos := WordLeft(line, pos);
  }

  method WordLeft(line: string, start: nat) returns (pos: nat)
    requires start < |line|
    ensures pos == WordStart(ClassesOf(line), start)
  {
    pos := start;
    var c := Class(line[pos]);
    if c == Cjk {
      var steps := 1;
      while pos > 0 && steps < 2
        invariant 1 <= steps <= 2 && pos + steps == start + 1
        invariant pos < start ==> Class(line[pos]) == Cjk
      {
        if Class(line[pos - 1]) != Cjk {
          break;
        }
        pos, steps := pos - 1, steps + 1;
      }
    } else {
      pos := SkipLeft(line, pos, c);
      if c == LowerCase && pos > 0 && Class(line[pos - 1]) == UpperCase {
        pos := pos - 1;
      }
    }
  }

  // ----- bytes -----

  function Utf8Len(c: char): nat {
    var n := c as int;
    if n < 0x80 then 1 else if n < 0x800 then 2 else if n < 0x10000 then 3 else 4
  }

  /** Byte offset of character `i`; the offsets up to the length are the character boundaries. */
  function Offset(line: string, i: nat): nat
    requires i <= |line|
  {
    if i == 0 then 0 else Offset(line, i - 1) + Utf8Len(line[i - 1])
  }

  function ByteLen(line: string): nat { Offset(line, |line|) }

  /** The first character at or after byte `col`, as the binary search over the offsets finds it. */
  function CharAt(line: string, col: nat, i: nat): (k: nat)
    requires i <= |line|
    ensures i <= k <= |line|
    decreases |line| - i
  {
    if i == |line| || col <= Offset(line, i) then i else CharAt(line, col, i + 1)
  }

  lemma {:induction false} OffsetsGrow(line: string, i: nat, j: nat)
    requires i <= j <= |line|
    ensures Offset(line, i) + (j - i) <= Offset(line, j)
    decreases j
  {
    if i < j {
      OffsetsGrow(line, i, j - 1);
    }
  }

  lemma {:induction false} CharAtIsFirst(line: string, col: nat, i: nat)
    requires i <= |line| && col <= ByteLen(line) && (i > 0 ==> Offset(line, i - 1) < col)
    ensures var k := CharAt(line, col, i);
            i <= k <= |line| && col <= Offset(line, k) && (k > 0 ==> Offset(line, k - 1) < col)
    decreases |line| - i
  {
    if i < |line| && Offset(line, i) < col {
      CharAtIsFirst(line, col, i + 1);
    }
  }

  /**
   * Ctrl+Left from any byte column: the result is a character boundary at or left of the column, and
   * strictly left of it unless the column was 0.
   */
  method WordBreakPrev(line: string, column: nat) returns (target: nat)
    ensures var cs := ClassesOf(line);
            var col := if column < ByteLen(line) then column else ByteLen(line);
            target == Offset(line, PrevBreak(cs, CharAt(line, col, 0)))
    ensures target <= column && (0 < column && line != [] ==> target < column)
  {
    hide PrevBreak, ClassesOf, CharAt;
    var col := if column < ByteLen(line) then column else ByteLen(line);
    CharAtIsFirst(line, col, 0);
    var cur := CharAt(line, col, 0);
    if col == 0 || cur == 0 {
      return 0;
    }
    var i := PrevCharIdx(line, cur);
    OffsetsGrow(line, i, cur - 1);
    target := Offset(line, i);
  }

  /** Ctrl+Right from any byte column, likewise to the right. */
  method WordBreakNext(line: string, column: nat) returns (target: nat)
    ensures var cs := ClassesOf(line);
            var col := if column < ByteLen(line) then column else ByteLen(line);
            target == Offset(line, NextBreak(cs, CharAt(line, col, 0)))
    ensures target <= ByteLen(line) && (column < ByteLen(line) ==> column < target)
  {
    hide NextBreak, ClassesOf, CharAt;
    var col := if column < ByteLen(line) then column else ByteLen(line);
    CharAtIsFirst(line, col, 0);
    var cur := CharAt(line, col, 0);
    if col == ByteLen(line) {
      OnlyTheEnd(line, cur);
      return col;
    }
    if cur == |line| {
      return ByteLen(line);
    }
    var i := NextCharIdx(line, cur);
    OffsetsGrow(line, cur, i);
    OffsetsGrow(line, i, |line|);
    target := Offset(line, i);
  }

  lemma OnlyTheEnd(line: string, k: nat)
    requires k <= |line| && ByteLen(line) <= Offset(line, k)
    ensures k == |line|
  {
    OffsetsGrow(line, k, |line|);
  }
}
