/** What blanking keeps, and that blanked text is a fixed point of it. */
module BlankingLaws {
  import opened Blanking

  /** `t` is `s` with some characters, never a newline, turned into spaces. */
  ghost predicate Masks(t: string, s: string) {
    |t| == |s| && forall i :: 0 <= i < |s| ==> t[i] == s[i] || (t[i] == ' ' && s[i] != '\n')
  }

  lemma MasksConcat(piece: string, t: string, s: string)
    requires |piece| <= |s| && Masks(piece, s[..|piece|]) && Masks(t, s[|piece|..])
    ensures Masks(piece + t, s)
  {
    assert s == s[..|piece|] + s[|piece|..];
  }

  lemma QuotedPieceMasks(s: string)
    requires s != []
    ensures Masks(QuotedPiece(s), s[..|QuotedPiece(s)|])
  {
    hide Closing;
  }

  lemma TokenMasks(s: string, piece: string)
    requires s != [] && |piece| <= |s|
    requires || piece == Wipe(s[..|piece|]) || piece == s[..|piece|]
             || (piece == "  " && BlockOpen(s)) || piece == QuotedPiece(s)
    ensures Masks(piece, s[..|piece|])
  {
    hide QuotedPiece;
    QuotedPieceMasks(s);
  }

  /** Length and newlines stay, and every character is kept or turned into a space. */
  lemma {:induction false} BlankMasks(s: string, depth: nat)
    ensures Masks(Blank(s, depth), s)
    decreases |s|
  {
    if s == [] {
    } else {
      var piece, next := Step(s, depth);
      hide *;
      BlankMasks(s[|piece|..], next);
      MasksConcat(piece, Blank(s[|piece|..], next), s);
    }
  }

  /** One token: what is written for it, and the depth behind it. */
  lemma Step(s: string, depth: nat) returns (piece: string, next: nat)
    requires s != []
    ensures 0 < |piece| <= |s| && Masks(piece, s[..|piece|])
    ensures Blank(s, depth) == piece + Blank(s[|piece|..], next)
    ensures AllBlank(piece) || (depth == 0 && next == 0 && Shown(s, piece))
  {
    if depth > 0 {
      CommentStep(s, depth);
      hide Blank;
      if BlockOpen(s) {
        piece, next := "  ", depth + 1;
      } else if BlockClose(s) {
        piece, next := "  ", depth - 1;
      } else {
        piece, next := [Wiped(s[0])], depth;
      }
    } else {
      hide *;
      piece, next := Token(s);
      TokenMasks(s, piece);
      WipeIsBlank(s[..|piece|]);
      ShownOrBlank(s, piece);
    }
  }

  ghost predicate AllBlank(w: string) { forall i :: 0 <= i < |w| ==> w[i] == ' ' || w[i] == '\n' }

  /** The token at the start is one of those of which something stays to be seen. */
  ghost predicate Shown(s: string, piece: string)
    requires s != []
  {
    && !LineComment(s) && !BlockOpen(s) && !RawOpen(s)
    && (if QuoteOpen(s) then piece == QuotedPiece(s)
        else 0 < KeptLength(s) <= |s| && piece == s[..KeptLength(s)])
  }

  lemma WipeIsBlank(s: string)
    ensures AllBlank(Wipe(s))
  {
  }

  lemma ShownOrBlank(s: string, piece: string)
    requires s != [] && 0 < |piece| <= |s|
    requires if LineComment(s) then piece == Wipe(s[..LineEnd(s, 0)])
             else if BlockOpen(s) then piece == "  "
             else if RawOpen(s) then piece == Wipe(s[..RawEnd(s)])
             else if s[0] == '"' || (s[0] == '\'' && Lifetime(s) == 0) then piece == QuotedPiece(s)
             else piece == s[..if s[0] == '\'' then Lifetime(s) else 1]
    ensures AllBlank(piece) || Shown(s, piece)
  {
    hide RawOpen, LineComment, QuotedPiece, LineEnd, RawEnd, Lifetime;
  }

  // ----- blanked text is left alone -----

  lemma BlankHead(c: char, x: string)
    requires c == ' ' || c == '\n'
    ensures Blank([c] + x, 0) == [c] + Blank(x, 0)
  {
    var s := [c] + x;
    CodeStep(s);
    assert RawLetters(s) == 0;
    assert s[..1] == [c] && s[1..] == x;
  }

  lemma {:induction false} BlankAhead(w: string, x: string)
    requires AllBlank(w)
    ensures Blank(w + x, 0) == w + Blank(x, 0)
  {
    hide Blank;
    if w == [] {
      assert w + x == x;
    } else {
      BlankHead(w[0], w[1..] + x);
      BlankAhead(w[1..], x);
      assert w + x == [w[0]] + (w[1..] + x);
    }
  }

  lemma HashEndIs(s: string, p: nat, k: nat)
    requires p <= k <= |s| && (forall j :: p <= j < k ==> s[j] == '#') && (k < |s| ==> s[k] != '#')
    ensures HashEnd(s, p) == k
  {
  }

  /** What opens a raw string in the masked text opens one in the text. */
  lemma RawOpenUnmasked(t: string, s: string)
    requires Masks(t, s) && RawOpen(t)
    ensures RawOpen(s)
  {
    var p := RawLetters(t);
    assert RawLetters(s) == p;
    HashEndIs(s, p, HashEnd(t, p));
  }

  lemma ClosingIs(s: string, q: char, i: nat, k: nat)
    requires i <= k <= |s| && AllBlank(s[i..k]) && (k < |s| ==> s[k] == q) && q != ' ' && q != '\n'
    ensures Closing(s, q, i) == k
    decreases k - i
  {
    if i < k {
      assert s[i] == s[i..k][0];
      assert s[i + 1..k] == s[i..k][1..];
      ClosingIs(s, q, i + 1, k);
    }
  }

  lemma IdentEndIs(s: string, i: nat, k: nat)
    requires i <= k <= |s| && (forall j :: i <= j < k ==> IdentChar(s[j])) && (k < |s| ==> !IdentChar(s[k]))
    ensures IdentEnd(s, i) == k
  {
  }

  /** A quoted literal that is blank between its quotes is scanned as one again. */
  lemma QuotedAgain(q: char, w: string, rest: string, closed: bool)
    requires (q == '"' || q == '\'') && AllBlank(w) && (!closed ==> rest == [])
    ensures var piece := [q] + w + (if closed then [q] else []);
            Blank(piece + rest, 0) == piece + Blank(rest, 0)
  {
    var piece := [q] + w + (if closed then [q] else []);
    var t := piece + rest;
    assert t[1..|w| + 1] == w;
    ClosingIs(t, q, 1, |w| + 1);
    assert q == '\'' ==> Lifetime(t) == 0;
    assert RawLetters(t) == 0;
    CodeStep(t);
    QuotedIsPiece(t);
    hide Blank, BlankQuoted, Closing, Lifetime;
    WipeOfBlank(w);
    assert QuotedPiece(t) == piece;
    assert t[|piece|..] == rest;
  }

  lemma WipeOfBlank(w: string)
    requires AllBlank(w)
    ensures Wipe(w) == w
  {
  }

  lemma KeptAgain(s: string, t: string)
    requires s != [] && Masks(t, s) && s[0] != '"' && s[0] != '\''
    requires !LineComment(s) && !BlockOpen(s) && !RawOpen(s)
    ensures t[0] == s[0] || t[0] == ' '
    ensures Blank(t, 0) == t[..1] + Blank(t[1..], 0)
  {
    hide Blank, RawOpen;
    CodeStep(t);
    if RawOpen(t) {
      RawOpenUnmasked(t, s);
    }
  }

  /** A lifetime in front of blanked text is still a lifetime of the same length. */
  lemma LifetimeAgain(s: string, t: string)
    requires Lifetime(s) > 0 && Masks(t, s) && t == s[..Lifetime(s)] + Blank(s[Lifetime(s)..], 0)
    ensures Lifetime(t) == Lifetime(s)
  {
    var k := Lifetime(s);
    var e := IdentEnd(s, 1);
    if k == e {
      hide Blank, IdentEnd;
      IdentEndIs(t, 1, k);
    } else {
      var rest := s[k..];
      CodeStep(rest);
      CodeStep(rest[1..]);
      hide Blank;
      assert rest[0] == s[k] && rest[1] == '\'';
      assert !RawOpen(rest) by {
        HashEndIs(rest, 1, 1);
      }
      QuoteStays(rest[1..]);
      assert t[k..] == Blank(rest, 0);
      assert t[k] == s[k] && t[k + 1] == '\'';
      IdentEndIs(t, 1, e);
    }
  }

  lemma QuoteStays(s: string)
    requires s != [] && s[0] == '\''
    ensures Blank(s, 0) != [] && Blank(s, 0)[0] == '\''
  {
  }

  lemma ShownAgain(s: string, piece: string, rest: string)
    requires s != [] && |piece| <= |s| && Shown(s, piece) && Blank(s, 0) == piece + rest
    requires rest == Blank(s[|piece|..], 0) && Blank(rest, 0) == rest && Masks(piece + rest, s)
    ensures Blank(piece + rest, 0) == piece + rest
  {
    hide Blank, RawOpen, QuotedPiece, Lifetime, IdentEnd;
    if QuoteOpen(s) {
      QuotedShape(s);
      var k := Closing(s, s[0], 1);
      WipeIsBlank(s[1..k]);
      RestIsEmpty(s, piece);
      hide *;
      QuotedAgain(s[0], Wipe(s[1..k]), rest, k < |s|);
    } else if s[0] == '\'' {
      LifetimeAgain(s, piece + rest);
      CodeStep(piece + rest);
      assert (piece + rest)[..|piece|] == piece && (piece + rest)[|piece|..] == rest;
    } else {
      KeptAgain(s, piece + rest);
      assert (piece + rest)[..1] == piece && (piece + rest)[1..] == rest;
    }
  }

  lemma QuotedShape(s: string)
    requires s != []
    ensures var k := Closing(s, s[0], 1);
            QuotedPiece(s) == [s[0]] + Wipe(s[1..k]) + if k < |s| then [s[0]] else []
  {
  }

  lemma RestIsEmpty(s: string, piece: string)
    requires s != [] && piece == QuotedPiece(s)
    ensures Closing(s, s[0], 1) == |s| ==> |piece| == |s| && Blank(s[|piece|..], 0) == []
  {
  }

  /** Blanking twice is blanking once, for every text, unterminated literals and comments included. */
  lemma {:induction false} BlankIsIdempotent(s: string, depth: nat)
    ensures Blank(Blank(s, depth), 0) == Blank(s, depth)
    decreases |s|
  {
    if s == [] {
    } else {
      var piece, next := Step(s, depth);
      BlankIsIdempotent(s[|piece|..], next);
      BlankMasks(s, depth);
      hide *;
      var rest := Blank(s[|piece|..], next);
      if AllBlank(piece) {
        BlankAhead(piece, rest);
      } else {
        ShownAgain(s, piece, rest);
      }
    }
  }

  /** No comment can be read off blanked text: no slash is followed by a slash or a star. */
  ghost predicate NoCommentOpens(t: string) {
    forall i :: 0 <= i < |t| - 1 && t[i] == '/' ==> t[i + 1] != '/' && t[i + 1] != '*'
  }

  lemma {:induction false} CommentsAreGone(s: string, depth: nat)
    ensures NoCommentOpens(Blank(s, depth))
    decreases |s|
  {
    if s == [] {
    } else {
      var piece, next := Step(s, depth);
      hide *;
      CommentsAreGone(s[|piece|..], next);
      BlankMasks(s[|piece|..], next);
      if AllBlank(piece) {
        SlashFree(piece);
      } else {
        SlashStandsAlone(s, piece);
      }
      NoOpensBetween(s, piece, Blank(s[|piece|..], next));
    }
  }

  lemma SlashFree(w: string)
    requires AllBlank(w)
    ensures '/' !in w
  {
  }

  lemma NoOpensBetween(s: string, piece: string, rest: string)
    requires 0 < |piece| <= |s| && Masks(rest, s[|piece|..]) && NoCommentOpens(rest)
    requires piece == "/" || '/' !in piece
    requires piece == "/" && |s| > 1 ==> s[1] != '/' && s[1] != '*'
    ensures NoCommentOpens(piece + rest)
  {
  }

  lemma SlashStandsAlone(s: string, piece: string)
    requires s != [] && |piece| <= |s| && Shown(s, piece)
    ensures piece == "/" || '/' !in piece
    ensures piece == "/" && |s| > 1 ==> s[1] != '/' && s[1] != '*'
  {
    hide RawOpen, Closing;
  }

  /** Text without quotes and without a comment opening is code, and all of it stays. */
  lemma {:induction false} CodeIsKept(s: string)
    requires NoCommentOpens(s) && '"' !in s && '\'' !in s
    ensures Blank(s, 0) == s
  {
    if s == [] {
    } else {
      CodeStep(s);
      hide Blank;
      assert forall i :: 0 <= i < |s| - 1 ==> s[1..][i] == s[i + 1];
      CodeIsKept(s[1..]);
    }
  }
}
