/**
 * The panic budget's scanner: comment, string and character contents of Rust source are overwritten
 * with spaces so that only code is left to search.
 */
module Blanking {

  function Wiped(c: char): char { if c == '\n' then '\n' else ' ' }

  function Wipe(s: string): (t: string)
    ensures |t| == |s| && forall i :: 0 <= i < |s| ==> t[i] == Wiped(s[i])
  {
    seq(|s|, i requires 0 <= i < |s| => Wiped(s[i]))
  }

  // ----- tokens at the start of a text -----

  predicate LineComment(s: string) { |s| >= 2 && s[0] == '/' && s[1] == '/' }

  predicate BlockOpen(s: string) { |s| >= 2 && s[0] == '/' && s[1] == '*' }

  predicate BlockClose(s: string) { |s| >= 2 && s[0] == '*' && s[1] == '/' }

  function LineEnd(s: string, i: nat): (k: nat)
    requires i <= |s|
    ensures i <= k <= |s| && (k < |s| ==> s[k] == '\n')
    ensures forall j :: i <= j < k ==> s[j] != '\n'
    decreases |s| - i
  {
    if i < |s| && s[i] != '\n' then LineEnd(s, i + 1) else i
  }

  function HashEnd(s: string, i: nat): (k: nat)
    requires i <= |s|
    ensures i <= k <= |s| && (k < |s| ==> s[k] != '#')
    ensures forall j :: i <= j < k ==> s[j] == '#'
    decreases |s| - i
  {
    if i < |s| && s[i] == '#' then HashEnd(s, i + 1) else i
  }

  /** Length of the `b?r` that may open a raw string, or 0. */
  function RawLetters(s: string): nat {
    if |s| >= 1 && s[0] == 'r' then 1
    else if |s| >= 2 && s[0] == 'b' && s[1] == 'r' then 2
    else 0
  }

  /** A raw string opens: letters, at most 255 hashes, and a quote. */
  predicate RawOpen(s: string) {
    var p := RawLetters(s);
    0 < p <= |s| && HashEnd(s, p) - p <= 255 && HashEnd(s, p) < |s| && s[HashEnd(s, p)] == '"'
  }

  predicate ClosesRaw(s: string, i: nat, hashes: nat) {
    i + 1 + hashes <= |s| && s[i] == '"' && forall j :: i < j <= i + hashes ==> s[j] == '#'
  }

  function FindCloser(s: string, i: nat, hashes: nat): (k: nat)
    requires i <= |s|
    ensures i <= k <= |s| && (k < |s| ==> ClosesRaw(s, k, hashes))
    decreases |s| - i
  {
    if i < |s| && !ClosesRaw(s, i, hashes) then FindCloser(s, i + 1, hashes) else i
  }

  /** Where the raw string at the start ends: behind its closer, or at the end of the text. */
  function RawEnd(s: string): (k: nat)
    requires RawOpen(s)
    ensures 0 < k <= |s|
  {
    var p := RawLetters(s);
    var hashes := HashEnd(s, p) - p;
    var closer := FindCloser(s, HashEnd(s, p) + 1, hashes);
    if closer == |s| then |s| else closer + 1 + hashes
  }

  /** The closing quote from `i` on, a backslash hiding the next character, or the length. */
  function Closing(s: string, q: char, i: nat): (k: nat)
    requires i <= |s|
    ensures i <= k <= |s| && (k < |s| ==> s[k] == q)
    decreases |s| - i
  {
    if i == |s| || s[i] == q then i
    else if s[i] == '\\' then (if i + 1 == |s| then |s| else Closing(s, q, i + 2))
    else Closing(s, q, i + 1)
  }

  predicate IdentStart(c: char) { 'A' <= c <= 'Z' || 'a' <= c <= 'z' || c == '_' }

  predicate IdentChar(c: char) { IdentStart(c) || '0' <= c <= '9' }

  function IdentEnd(s: string, i: nat): (k: nat)
    requires i <= |s|
    ensures i <= k <= |s| && (k < |s| ==> !IdentChar(s[k]))
    ensures forall j :: i <= j < k ==> IdentChar(s[j])
    decreases |s| - i
  {
    if i < |s| && IdentChar(s[i]) then IdentEnd(s, i + 1) else i
  }

  /**
   * Length of the lifetime at the start, or 0: the quote and an identifier not followed by a quote,
   * shortened by one character when the whole identifier is.
   */
  function Lifetime(s: string): (k: nat)
    ensures k <= |s| && k != 1
  {
    if |s| < 2 || s[0] != '\'' || !IdentStart(s[1]) then 0
    else
      var k := IdentEnd(s, 1);
      if k == |s| || s[k] != '\'' then k
      else if k > 2 then k - 1
      else 0
  }

  // ----- the scanner as a function of what is ahead -----

  /** The text ahead with contents blanked, inside `depth` block comments. */
  function Blank(s: string, depth: nat): string
    decreases |s|
  {
    if s == [] then []
    else if depth > 0 then
      if BlockOpen(s) then "  " + Blank(s[2..], depth + 1)
      else if BlockClose(s) then "  " + Blank(s[2..], depth - 1)
      else [Wiped(s[0])] + Blank(s[1..], depth)
    else if LineComment(s) then Wipe(s[..LineEnd(s, 0)]) + Blank(s[LineEnd(s, 0)..], 0)
    else if BlockOpen(s) then "  " + Blank(s[2..], 1)
    else if RawOpen(s) then Wipe(s[..RawEnd(s)]) + Blank(s[RawEnd(s)..], 0)
    else if s[0] == '"' then BlankQuoted(s)
    else if s[0] == '\'' && Lifetime(s) > 0 then s[..Lifetime(s)] + Blank(s[Lifetime(s)..], 0)
    else if s[0] == '\'' then BlankQuoted(s)
    else [s[0]] + Blank(s[1..], 0)
  }

  /** A quoted literal keeps its quotes. */
  function BlankQuoted(s: string): string
    requires s != []
    decreases |s|, 0
  {
    var k := Closing(s, s[0], 1);
    [s[0]] + Wipe(s[1..k]) + if k == |s| then [] else [s[0]] + Blank(s[k + 1..], 0)
  }

  lemma {:induction false} BlankKeepsLength(s: string, depth: nat)
    ensures |Blank(s, depth)| == |s|
    decreases |s|
  {
    if s == [] {
    } else {
      if depth > 0 {
        CommentStep(s, depth);
        if BlockOpen(s) {
          BlankKeepsLength(s[2..], depth + 1);
        } else if BlockClose(s) {
          BlankKeepsLength(s[2..], depth - 1);
        } else {
          BlankKeepsLength(s[1..], depth);
        }
      } else {
        var piece, next := Token(s);
        BlankKeepsLength(s[|piece|..], next);
      }
    }
  }

  lemma CommentStep(s: string, depth: nat)
    requires s != [] && depth > 0
    ensures BlockOpen(s) ==> Blank(s, depth) == "  " + Blank(s[2..], depth + 1)
    ensures BlockClose(s) ==> Blank(s, depth) == "  " + Blank(s[2..], depth - 1)
    ensures !BlockOpen(s) && !BlockClose(s) ==> Blank(s, depth) == [Wiped(s[0])] + Blank(s[1..], depth)
  {
  }

  lemma CodeStep(s: string)
    requires s != []
    ensures LineComment(s) ==> Blank(s, 0) == Wipe(s[..LineEnd(s, 0)]) + Blank(s[LineEnd(s, 0)..], 0)
    ensures BlockOpen(s) ==> Blank(s, 0) == "  " + Blank(s[2..], 1)
    ensures RawOpen(s) ==> Blank(s, 0) == Wipe(s[..RawEnd(s)]) + Blank(s[RawEnd(s)..], 0)
    ensures s[0] == '"' || (s[0] == '\'' && Lifetime(s) == 0) ==> Blank(s, 0) == BlankQuoted(s)
    ensures s[0] == '\'' && Lifetime(s) > 0 ==> Blank(s, 0) == s[..Lifetime(s)] + Blank(s[Lifetime(s)..], 0)
    ensures !LineComment(s) && !BlockOpen(s) && !RawOpen(s) && s[0] != '"' && s[0] != '\'' ==>
              Blank(s, 0) == s[..1] + Blank(s[1..], 0)
    ensures LineComment(s) ==> LineEnd(s, 0) > 0
  {
  }

  /** Outside comments, what the scanner writes for the token at the start, and the depth behind it. */
  lemma Token(s: string) returns (piece: string, next: nat)
    requires s != []
    ensures 0 < |piece| <= |s| && Blank(s, 0) == piece + Blank(s[|piece|..], next)
    ensures if LineComment(s) then piece == Wipe(s[..LineEnd(s, 0)]) && next == 0
            else if BlockOpen(s) then piece == "  " && next == 1
            else if RawOpen(s) then piece == Wipe(s[..RawEnd(s)]) && next == 0
            else if s[0] == '"' || (s[0] == '\'' && Lifetime(s) == 0) then piece == QuotedPiece(s) && next == 0
            else piece == s[..if s[0] == '\'' then Lifetime(s) else 1] && next == 0
  {
    CodeStep(s);
    if LineComment(s) {
      piece, next := Wipe(s[..LineEnd(s, 0)]), 0;
    } else if BlockOpen(s) {
      piece, next := "  ", 1;
    } else if RawOpen(s) {
      piece, next := Wipe(s[..RawEnd(s)]), 0;
    } else if s[0] == '"' || (s[0] == '\'' && Lifetime(s) == 0) {
      piece, next := QuotedPiece(s), 0;
      QuotedIsPiece(s);
    } else {
      piece, next := s[..if s[0] == '\'' then Lifetime(s) else 1], 0;
    }
  }

  /** A quoted literal with its contents wiped. */
  function QuotedPiece(s: string): (piece: string)
    requires s != []
    ensures 0 < |piece| <= |s|
  {
    var k := Closing(s, s[0], 1);
    [s[0]] + Wipe(s[1..k]) + if k == |s| then [] else [s[0]]
  }

  lemma QuotedIsPiece(s: string)
    requires s != []
    ensures var piece := QuotedPiece(s); BlankQuoted(s) == piece + Blank(s[|piece|..], 0)
  {
    var k := Closing(s, s[0], 1);
    hide Closing, Wipe;
    var head := [s[0]] + Wipe(s[1..k]);
    if k == |s| {
      assert s[|s|..] == [] && Blank([], 0) == [];
      assert head + [] == head + [] + [];
    } else {
      hide Blank;
      assert |head + [s[0]]| == k + 1;
      assert head + ([s[0]] + Blank(s[k + 1..], 0)) == head + [s[0]] + Blank(s[k + 1..], 0);
    }
  }

  // ----- the scanner -----

  /** From `from` on the scanner writes `piece` and goes on behind it at depth `next`. */
  ghost predicate Emits(text: string, from: nat, depth: nat, piece: string, next: nat) {
    && from + |piece| <= |text|
    && Blank(text[from..], depth) == piece + Blank(text[from + |piece|..], next)
  }

  lemma EmitsAhead(text: string, from: nat, depth: nat, piece: string, next: nat)
    requires from + |piece| <= |text|
    requires Blank(text[from..], depth) == piece + Blank(text[from..][|piece|..], next)
    ensures Emits(text, from, depth, piece, next)
  {
    hide Blank;
    assert text[from..][|piece|..] == text[from + |piece|..];
  }

  /** Everything before `i` is final, everything from `i` on is still the text. */
  ghost predicate Scanned(out: string, text: string, i: nat, depth: nat) {
    && |text| == |Blank(text, 0)| && Untouched(out, text, i)
    && Blank(text, 0)[i..] == Blank(text[i..], depth)
    && (forall j :: 0 <= j < i ==> out[j] == Blank(text, 0)[j])
  }

  ghost predicate Untouched(out: string, text: string, from: nat) {
    from <= |out| == |text| && forall j :: from <= j < |text| ==> out[j] == text[j]
  }

  /** From `from` on stands `piece`; the rest is as before. */
  ghost predicate PieceOver(before: string, after: string, from: nat, piece: string) {
    && from + |piece| <= |after| == |before|
    && forall j :: 0 <= j < |before| ==>
         after[j] == if from <= j < from + |piece| then piece[j - from] else before[j]
  }

  lemma Advance(before: string, after: string, text: string, from: nat, depth: nat, piece: string, next: nat)
    requires Scanned(before, text, from, depth) && Emits(text, from, depth, piece, next)
    requires PieceOver(before, after, from, piece)
    ensures Scanned(after, text, from + |piece|, next)
  {
    hide Blank;
    var to, final := from + |piece|, Blank(text, 0);
    assert final[to..] == final[from..][|piece|..];
    assert forall j :: from <= j < to ==> final[j] == final[from..][j - from];
  }

  lemma UntouchedAhead(out: string, text: string, from: nat, depth: nat)
    requires Scanned(out, text, from, depth)
    ensures Untouched(out, text, from)
  {
  }

  method BlankCommentsAndStrings(text: string) returns (out: string)
    ensures out == Blank(text, 0)
  {
    BlankKeepsLength(text, 0);
    assert text[0..] == text && Blank(text, 0)[0..] == Blank(text, 0);
    hide Blank;
    out := text;
    var i, n, depth := 0, |text|, 0;
    while i < n
      invariant 0 <= i <= n && Scanned(out, text, i, depth)
    {
      if depth > 0 {
        out, i, depth := InComment(out, text, i, depth);
      } else {
        out, i, depth := InCode(out, text, i);
      }
    }
  }

  method InComment(before: string, text: string, from: nat, level: nat) returns (out: string, i: nat, depth: nat)
    requires from < |text| && level > 0 && Scanned(before, text, from, level)
    ensures from < i <= |text| && Scanned(out, text, i, depth)
  {
    CommentEmits(text, from, level);
    UntouchedAhead(before, text, from, level);
    TokenStarts(text, from);
    hide *;
    ghost var ahead := text[from..];
    out, i, depth := before, from, level;
    if text[i] == '/' && i + 1 < |text| && text[i + 1] == '*' {
      out := WipePair(before, text, from);
      depth := depth + 1;
      i := i + 2;
      Advance(before, out, text, from, level, "  ", depth);
    } else if text[i] == '*' && i + 1 < |text| && text[i + 1] == '/' {
      out := WipePair(before, text, from);
      depth := depth - 1;
      i := i + 2;
      Advance(before, out, text, from, level, "  ", depth);
    } else {
      out := WipeOne(before, text, from);
      i := i + 1;
      Advance(before, out, text, from, level, [Wiped(text[from])], depth);
    }
  }

  lemma TokenStarts(text: string, from: nat)
    requires from < |text|
    ensures var s := text[from..];
            && (BlockOpen(s) <==> from + 1 < |text| && text[from] == '/' && text[from + 1] == '*')
            && (BlockClose(s) <==> from + 1 < |text| && text[from] == '*' && text[from + 1] == '/')
  {
  }

  lemma CommentEmits(text: string, from: nat, level: nat)
    requires from < |text| && level > 0
    ensures BlockOpen(text[from..]) ==> Emits(text, from, level, "  ", level + 1)
    ensures BlockClose(text[from..]) ==> Emits(text, from, level, "  ", level - 1)
    ensures !BlockOpen(text[from..]) && !BlockClose(text[from..]) ==>
              Emits(text, from, level, [Wiped(text[from])], level)
  {
    var ahead := text[from..];
    CommentStep(ahead, level);
    hide Blank, Emits;
    if BlockOpen(ahead) {
      EmitsAhead(text, from, level, "  ", level + 1);
    } else if BlockClose(ahead) {
      EmitsAhead(text, from, level, "  ", level - 1);
    } else {
      EmitsAhead(text, from, level, [Wiped(text[from])], level);
    }
  }

  /** The two kinds of quoted literal: a string, or a character that is no lifetime. */
  predicate QuoteOpen(s: string) {
    s != [] && (s[0] == '"' || (s[0] == '\'' && Lifetime(s) == 0))
  }

  /** Length of a token that is kept as it is. */
  function KeptLength(s: string): nat
    requires s != []
  {
    if s[0] == '\'' then Lifetime(s) else 1
  }

  /** From `from` up to `to` the text stands wiped; the rest is as before. */
  ghost predicate WipedOver(before: string, after: string, text: string, from: nat, to: nat) {
    && from <= to <= |after| == |before| == |text|
    && forall j :: 0 <= j < |before| ==> after[j] == if from <= j < to then Wiped(text[j]) else before[j]
  }

  /** One step outside comments, by the first token that matches. */
  method InCode(before: string, text: string, from: nat) returns (out: string, i: nat, depth: nat)
    requires from < |text| && Scanned(before, text, from, 0)
    ensures from < i <= |text| && Scanned(out, text, i, depth)
  {
    hide *;
    UntouchedAhead(before, text, from, 0);
    out, i, depth := before, from, 0;
    var ahead := text[from..];
    if LineComment(ahead) {
      out, i := WipeLine(before, text, from);
      LineAdvances(before, out, text, from);
    } else if BlockOpen(ahead) {
      BlockAdvances(before, text, from);
      out := WipePair(before, text, from);
      i, depth := from + 2, 1;
      Advance(before, out, text, from, 0, "  ", 1);
    } else if RawOpen(ahead) {
      i := from + RawEnd(ahead);
      out := WipeRange(before, text, from, i);
      RawAdvances(before, out, text, from);
    } else if QuoteOpen(ahead) {
      out, i := WipeQuoted(before, text, from);
      QuoteAdvances(before, out, text, from);
    } else {
      KeptAdvances(before, text, from);
      i := from + KeptLength(ahead);
    }
  }

  lemma WipedIsPiece(before: string, out: string, text: string, from: nat, to: nat)
    requires WipedOver(before, out, text, from, to)
    ensures PieceOver(before, out, from, Wipe(text[from..][..to - from]))
  {
  }

  lemma LineAdvances(before: string, out: string, text: string, from: nat)
    requires from < |text| && Scanned(before, text, from, 0) && LineComment(text[from..])
    requires WipedOver(before, out, text, from, from + LineEnd(text[from..], 0))
    ensures LineEnd(text[from..], 0) > 0 && Scanned(out, text, from + LineEnd(text[from..], 0), 0)
  {
    hide *;
    CodeStep(text[from..]);
    WipedIsPiece(before, out, text, from, from + LineEnd(text[from..], 0));
    var s := text[from..];
    EmitsAhead(text, from, 0, Wipe(s[..LineEnd(s, 0)]), 0);
    Advance(before, out, text, from, 0, Wipe(s[..LineEnd(s, 0)]), 0);
  }

  lemma BlockAdvances(before: string, text: string, from: nat)
    requires from < |text| && BlockOpen(text[from..])
    ensures from + 2 <= |text| && Emits(text, from, 0, "  ", 1)
  {
    CodeStep(text[from..]);
    hide Blank, Emits;
    EmitsAhead(text, from, 0, "  ", 1);
  }

  lemma RawAdvances(before: string, out: string, text: string, from: nat)
    requires from < |text| && Scanned(before, text, from, 0) && RawOpen(text[from..])
    requires !LineComment(text[from..]) && !BlockOpen(text[from..])
    requires WipedOver(before, out, text, from, from + RawEnd(text[from..]))
    ensures Scanned(out, text, from + RawEnd(text[from..]), 0)
  {
    hide *;
    CodeStep(text[from..]);
    WipedIsPiece(before, out, text, from, from + RawEnd(text[from..]));
    var s := text[from..];
    EmitsAhead(text, from, 0, Wipe(s[..RawEnd(s)]), 0);
    Advance(before, out, text, from, 0, Wipe(s[..RawEnd(s)]), 0);
  }

  lemma QuoteAdvances(before: string, out: string, text: string, from: nat)
    requires from < |text| && Scanned(before, text, from, 0) && QuoteOpen(text[from..]) && !RawOpen(text[from..])
    requires WipedOver(before, out, text, from + 1, from + Closing(text[from..], text[from], 1))
    ensures from + |QuotedPiece(text[from..])| <= |text|
    ensures Scanned(out, text, from + |QuotedPiece(text[from..])|, 0)
  {
    var s := text[from..];
    CodeStep(s);
    QuotedIsPiece(s);
    UntouchedAhead(before, text, from, 0);
    QuotedPieceOver(before, out, text, from);
    hide *;
    EmitsAhead(text, from, 0, QuotedPiece(s), 0);
    Advance(before, out, text, from, 0, QuotedPiece(s), 0);
  }

  lemma QuotedPieceOver(before: string, out: string, text: string, from: nat)
    requires from < |text| && Untouched(before, text, from)
    requires WipedOver(before, out, text, from + 1, from + Closing(text[from..], text[from], 1))
    ensures PieceOver(before, out, from, QuotedPiece(text[from..]))
  {
    hide Closing;
    var s := text[from..];
    var k := Closing(s, s[0], 1);
    var inside := Wipe(s[1..k]);
    assert forall j :: 0 <= j < |inside| ==> inside[j] == out[from + 1 + j];
  }

  lemma KeptOver(before: string, text: string, from: nat, to: nat)
    requires from <= to <= |text| && Untouched(before, text, from)
    ensures PieceOver(before, before, from, text[from..to])
  {
  }

  lemma KeptEmits(text: string, from: nat)
    requires from < |text| && !QuoteOpen(text[from..]) && !RawOpen(text[from..])
    requires !LineComment(text[from..]) && !BlockOpen(text[from..])
    ensures var n := KeptLength(text[from..]);
            0 < n <= |text| - from && Emits(text, from, 0, text[from..from + n], 0)
  {
    var s := text[from..];
    var n := KeptLength(s);
    CodeStep(s);
    hide *;
    assert s[..n] == text[from..from + n];
    EmitsAhead(text, from, 0, s[..n], 0);
  }

  lemma KeptAdvances(before: string, text: string, from: nat)
    requires from < |text| && Scanned(before, text, from, 0) && !QuoteOpen(text[from..]) && !RawOpen(text[from..])
    requires !LineComment(text[from..]) && !BlockOpen(text[from..])
    ensures 0 < KeptLength(text[from..]) <= |text| - from
    ensures Scanned(before, text, from + KeptLength(text[from..]), 0)
  {
    hide *;
    KeptEmits(text, from);
    var n := KeptLength(text[from..]);
    UntouchedAhead(before, text, from, 0);
    KeptOver(before, text, from, from + n);
    Advance(before, before, text, from, 0, text[from..from + n], 0);
  }

  method WipePair(before: string, text: string, from: nat) returns (out: string)
    requires from + 2 <= |text| && Untouched(before, text, from)
    ensures PieceOver(before, out, from, "  ")
  {
    out := before[from := ' '][from + 1 := ' '];
  }

  method WipeOne(before: string, text: string, from: nat) returns (out: string)
    requires from < |text| && Untouched(before, text, from)
    ensures PieceOver(before, out, from, [Wiped(text[from])])
  {
    out := before;
    if text[from] != '\n' {
      out := out[from := ' '];
    }
  }

  method WipeLine(before: string, text: string, from: nat) returns (out: string, i: nat)
    requires from < |text| && Untouched(before, text, from)
    ensures i == from + LineEnd(text[from..], 0) <= |text| && WipedOver(before, out, text, from, i)
  {
    out, i := before, from;
    while i < |text| && text[i] != '\n'
      invariant from <= i <= |text|
      invariant LineEnd(text[from..], 0) == LineEnd(text[from..], i - from)
      invariant WipedOver(before, out, text, from, i)
    {
      out := out[i := ' '];
      i := i + 1;
    }
  }

  method WipeRange(before: string, text: string, from: nat, to: nat) returns (out: string)
    requires from <= to <= |text| && Untouched(before, text, from)
    ensures WipedOver(before, out, text, from, to)
  {
    out := before;
    for i := from to to
      invariant WipedOver(before, out, text, from, i)
    {
      if text[i] != '\n' {
        out := out[i := ' '];
      }
    }
  }

  function Within(text: string, i: nat): nat { if i <= |text| then i else |text| }

  /** The loop over a quoted literal; its index may run past the end, which ends the scan all the same. */
  method WipeQuoted(before: string, text: string, from: nat) returns (out: string, i: nat)
    requires from < |text| && Untouched(before, text, from)
    ensures WipedOver(before, out, text, from + 1, from + Closing(text[from..], text[from], 1))
    ensures i == from + |QuotedPiece(text[from..])|
  {
    NothingWiped(before, text, from);
    ClosingShifts(text, from, text[from], 1);
    hide Closing, WipedOver, Untouched;
    var q := text[from];
    out, i := before, from + 1;
    ghost var k := Closing(text, q, i);
    while i < |text| && text[i] != q
      invariant from < i <= |text| + 1
      invariant k == if i <= |text| then Closing(text, q, i) else |text|
      invariant WipedOver(before, out, text, from + 1, Within(text, i))
    {
      ClosingStep(text, q, i);
      out, i := WipeCharacter(before, out, text, from + 1, i);
    }
    ClosingStop(text, q, i);
    i := if i < |text| then i + 1 else |text|;
  }

  lemma NothingWiped(before: string, text: string, from: nat)
    requires from < |text| && Untouched(before, text, from)
    ensures WipedOver(before, before, text, from + 1, from + 1) && Untouched(before, text, from + 1)
  {
  }

  /** One round of the loop: a character, or a backslash and the character behind it. */
  method WipeCharacter(before: string, was: string, text: string, from: nat, at: nat) returns (out: string, i: nat)
    requires at < |text| && Untouched(before, text, from) && WipedOver(before, was, text, from, at)
    ensures i == at + (if text[at] == '\\' then 2 else 1)
    ensures WipedOver(before, out, text, from, Within(text, i))
  {
    out, i := was, at;
    if text[i] == '\\' {
      out := out[i := ' '];
      i := i + 1;
    }
    if i < |text| && text[i] != '\n' {
      out := out[i := ' '];
    }
    i := i + 1;
  }

  lemma ClosingStep(text: string, q: char, i: nat)
    requires i < |text| && text[i] != q
    ensures Closing(text, q, i) ==
            if text[i] != '\\' then Closing(text, q, i + 1)
            else if i + 2 <= |text| then Closing(text, q, i + 2)
            else |text|
  {
  }

  lemma ClosingStop(text: string, q: char, i: nat)
    requires i < |text| ==> text[i] == q
    ensures i <= |text| ==> Closing(text, q, i) == i
  {
  }

  lemma ClosingShifts(text: string, from: nat, q: char, i: nat)
    requires from <= |text| && i <= |text| - from
    ensures Closing(text[from..], q, i) + from == Closing(text, q, from + i)
    decreases |text| - i
  {
    if i < |text| - from && text[from + i] != q {
      if text[from + i] != '\\' {
        ClosingShifts(text, from, q, i + 1);
      } else if i + 1 < |text| - from {
        ClosingShifts(text, from, q, i + 2);
      }
    }
  }
}
