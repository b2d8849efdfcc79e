/** The scanner against the grammar of Rust: nested comments, strings, characters and raw strings. */
module BlankingLexemes {
  import opened Text
  import opened Blanking
  import opened BlankingLaws

  // ----- comments -----

  /** The inside of a block comment: characters and whole comments. */
  datatype Comment = End | Character(c: char, rest: Comment) | Nested(inner: Comment, rest: Comment)

  predicate IsMark(a: char, b: char) { (a == '/' && b == '*') || (a == '*' && b == '/') }

  function Inside(comment: Comment): string {
    match comment
    case End => []
    case Character(c, rest) => [c] + Inside(rest)
    case Nested(inner, rest) => "/*" + Inside(inner) + "*/" + Inside(rest)
  }

  /** The first character up to and with the mark that closes the comment. */
  function Head(comment: Comment): char { (Inside(comment) + "*/")[0] }

  /** No character begins a mark together with the one behind it; slashes and stars may stand anywhere else. */
  predicate WellFormed(comment: Comment) {
    match comment
    case End => true
    case Character(c, rest) => !IsMark(c, Head(rest)) && WellFormed(rest)
    case Nested(inner, rest) => WellFormed(inner) && WellFormed(rest)
  }

  lemma WipeConcat(a: string, b: string)
    ensures Wipe(a + b) == Wipe(a) + Wipe(b)
  {
  }

  lemma CommentMarks(x: string, depth: nat)
    requires depth > 0
    ensures Blank("/*" + x, depth) == Wipe("/*") + Blank(x, depth + 1)
    ensures Blank("*/" + x, depth) == Wipe("*/") + Blank(x, depth - 1)
    ensures Blank("/*" + x, 0) == Wipe("/*") + Blank(x, 1)
  {
    CommentStep("/*" + x, depth);
    CommentStep("*/" + x, depth);
    CodeStep("/*" + x);
    hide Blank;
    assert ("/*" + x)[2..] == x && ("*/" + x)[2..] == x;
    assert Wipe("/*") == "  " && Wipe("*/") == "  ";
  }

  lemma CommentCharacter(c: char, x: string, depth: nat)
    requires depth > 0 && (x != [] ==> !IsMark(c, x[0]))
    ensures Blank([c] + x, depth) == Wipe([c]) + Blank(x, depth)
  {
    CommentStep([c] + x, depth);
    hide Blank;
    assert ([c] + x)[1..] == x && Wipe([c]) == [Wiped(c)];
  }

  lemma HeadOf(comment: Comment, behind: string)
    ensures var text := Inside(comment) + ("*/" + behind); text != [] && text[0] == Head(comment)
  {
    hide Inside;
    assert Inside(comment) + ("*/" + behind) == Inside(comment) + "*/" + behind;
  }

  /** Inside a comment, whatever is nested is wiped, and the depth behind it is the depth before. */
  lemma {:induction false} InsideIsWiped(comment: Comment, behind: string, depth: nat)
    requires WellFormed(comment) && depth > 0
    ensures Blank(Inside(comment) + ("*/" + behind), depth) == Wipe(Inside(comment)) + Blank("*/" + behind, depth)
    decreases comment, 0
  {
    hide Blank, Wipe, Head, IsMark;
    var close := "*/" + behind;
    match comment
    case End =>
      assert [] + close == close && Wipe([]) + Blank(close, depth) == Blank(close, depth);
    case Character(c, rest) =>
      Assoc([c], Inside(rest), close);
      HeadOf(rest, behind);
      CommentCharacter(c, Inside(rest) + close, depth);
      InsideIsWiped(rest, behind, depth);
      WipeConcat([c], Inside(rest));
      Assoc(Wipe([c]), Wipe(Inside(rest)), Blank(close, depth));
    case Nested(inner, rest) =>
      InsideIsWiped(rest, behind, depth);
      WholeIsWiped(inner, Inside(rest) + close, depth);
      var whole := "/*" + Inside(inner) + "*/";
      Assoc(whole, Inside(rest), close);
      WipeConcat(whole, Inside(rest));
      Assoc(Wipe(whole), Wipe(Inside(rest)), Blank(close, depth));
  }

  /** A whole comment with its marks. */
  lemma {:induction false} WholeIsWiped(inner: Comment, behind: string, depth: nat)
    requires WellFormed(inner)
    ensures var whole := "/*" + Inside(inner) + "*/";
            Blank(whole + behind, depth) == Wipe(whole) + Blank(behind, depth)
    decreases inner, 1
  {
    hide Blank, Wipe, Inside;
    var body, close := Inside(inner), "*/" + behind;
    assert "/*" + body + "*/" + behind == "/*" + (body + close);
    CommentMarks(body + close, if depth > 0 then depth else 1);
    InsideIsWiped(inner, behind, depth + 1);
    CommentMarks(behind, depth + 1);
    WipeConcat("/*" + body, "*/");
    WipeConcat("/*", body);
    Assoc(Wipe(body), Wipe("*/"), Blank(behind, depth));
    Assoc(Wipe("/*"), Wipe(body), Wipe("*/"));
    Assoc(Wipe("/*"), Wipe(body) + Wipe("*/"), Blank(behind, depth));
  }

  /** A block comment, nested to any depth, is wiped to its own end and no further. */
  lemma CommentIsWiped(comment: Comment, behind: string)
    requires WellFormed(comment)
    ensures var whole := "/*" + Inside(comment) + "*/";
            Blank(whole + behind, 0) == Wipe(whole) + Blank(behind, 0)
  {
    hide *;
    WholeIsWiped(comment, behind, 0);
  }

  /**
   * Reading on inside a comment: the text is the inside of one with its closing mark and something behind,
   * or no mark closes the comment and everything up to the end is wiped.
   */
  lemma {:induction false} ReadComment(text: string, depth: nat)
      returns (closed: bool, comment: Comment, behind: string)
    requires depth > 0
    ensures closed ==> WellFormed(comment) && text == Inside(comment) + ("*/" + behind)
    ensures !closed ==> Blank(text, depth) == Wipe(text)
    decreases |text|
  {
    closed, comment, behind := false, End, [];
    if text == [] {
    } else if BlockClose(text) {
      closed, behind := true, text[2..];
      assert text == "*/" + behind && [] + text == text;
    } else if BlockOpen(text) {
      assert text == "/*" + text[2..];
      var inner, mine;
      closed, inner, mine := ReadComment(text[2..], depth + 1);
      if closed {
        ReadBehindNested(inner, mine);
        closed, comment, behind := ReadComment(mine, depth);
        UnclosedNested(inner, mine, depth);
        hide Blank;
        NestedText(inner, comment, mine, behind);
        comment := Nested(inner, comment);
      } else {
        CommentMarks(text[2..], depth);
        WipeConcat("/*", text[2..]);
      }
    } else {
      closed, comment, behind := ReadComment(text[1..], depth);
      assert text == [text[0]] + text[1..];
      if closed {
        HeadOf(comment, behind);
        Assoc([text[0]], Inside(comment), "*/" + behind);
        comment := Character(text[0], comment);
      } else {
        CommentCharacter(text[0], text[1..], depth);
        WipeConcat([text[0]], text[1..]);
      }
    }
  }

  lemma ReadBehindNested(inner: Comment, mine: string)
    ensures |mine| < |"/*" + (Inside(inner) + ("*/" + mine))|
  {
  }

  lemma UnclosedNested(inner: Comment, mine: string, depth: nat)
    requires WellFormed(inner)
    ensures var text := "/*" + (Inside(inner) + ("*/" + mine));
            Blank(mine, depth) == Wipe(mine) ==> Blank(text, depth) == Wipe(text)
  {
    hide *;
    var whole := "/*" + Inside(inner) + "*/";
    WholeIsWiped(inner, mine, depth);
    WipeConcat(whole, mine);
    assert whole + mine == "/*" + (Inside(inner) + ("*/" + mine));
  }

  lemma NestedText(inner: Comment, rest: Comment, mine: string, behind: string)
    ensures mine == Inside(rest) + ("*/" + behind) ==>
              "/*" + (Inside(inner) + ("*/" + mine)) == Inside(Nested(inner, rest)) + ("*/" + behind)
  {
    var whole := "/*" + Inside(inner) + "*/";
    assert Inside(Nested(inner, rest)) == whole + Inside(rest);
    hide Inside;
    Assoc(whole, Inside(rest), "*/" + behind);
    assert whole + mine == "/*" + (Inside(inner) + ("*/" + mine));
  }

  /** Every text behind a comment opening, closed or not: there is no third case. */
  lemma CommentCases(text: string) returns (closed: bool, comment: Comment, behind: string)
    ensures closed ==> WellFormed(comment) && text == Inside(comment) + "*/" + behind
    ensures Blank("/*" + text, 0) ==
            if closed then Wipe("/*" + Inside(comment) + "*/") + Blank(behind, 0) else Wipe("/*" + text)
  {
    closed, comment, behind := ReadComment(text, 1);
    hide *;
    if closed {
      Assoc(Inside(comment), "*/", behind);
      CommentIsWiped(comment, behind);
      var body := Inside(comment);
      Assoc("/*", body, "*/" + behind);
      Assoc("/*" + body, "*/", behind);
    } else {
      CommentMarks(text, 1);
      WipeConcat("/*", text);
    }
  }

  // ----- strings and characters -----

  /** What stands between quotes: plain characters, and backslashes with any character behind them. */
  datatype Unit = Plain(c: char) | Escape(c: char)

  function UnitText(u: Unit): string { if u.Escape? then ['\\', u.c] else [u.c] }

  function Spelled(units: seq<Unit>): string {
    if units == [] then [] else UnitText(units[0]) + Spelled(units[1..])
  }

  /** No plain character is the quote or a backslash. */
  predicate Fits(units: seq<Unit>, q: char) {
    forall i :: 0 <= i < |units| ==> units[i].Plain? ==> units[i].c != q && units[i].c != '\\'
  }

  predicate IsQuote(q: char) { q == '"' || q == '\'' }

  lemma {:induction false} UnitsClose(before: string, units: seq<Unit>, q: char, behind: string)
    requires Fits(units, q) && IsQuote(q)
    ensures Closing(before + Spelled(units) + [q] + behind, q, |before|) == |before| + |Spelled(units)|
    decreases |units|
  {
    var text := before + Spelled(units) + [q] + behind;
    if units != [] {
      var head, rest := UnitText(units[0]), units[1..];
      assert text == (before + head) + Spelled(rest) + [q] + behind;
      UnitsClose(before + head, rest, q, behind);
      assert text[|before|] == head[0] && (|head| == 2 ==> text[|before| + 1] == head[1]);
    } else {
      assert text[|before|] == q;
    }
  }

  /** A literal opens here: a quote that is no lifetime's. */
  lemma LiteralIsWiped(units: seq<Unit>, q: char, behind: string)
    requires Fits(units, q) && IsQuote(q)
    requires q == '\'' ==> Lifetime([q] + Spelled(units) + [q] + behind) == 0
    ensures Blank([q] + Spelled(units) + [q] + behind, 0) == [q] + Wipe(Spelled(units)) + [q] + Blank(behind, 0)
  {
    UnitsClose([q], units, q, behind);
    hide Closing, Spelled, Lifetime;
    var body := Spelled(units);
    var s := [q] + body + [q] + behind;
    CodeStep(s);
    hide Blank;
    assert s[0] == q && s[1..|body| + 1] == body && s[|body| + 2..] == behind;
    assert !RawOpen(s);
    QuotedBlank(s);
  }

  lemma QuotedBlank(s: string)
    requires s != [] && Closing(s, s[0], 1) < |s|
    ensures var k := Closing(s, s[0], 1);
            BlankQuoted(s) == [s[0]] + Wipe(s[1..k]) + [s[0]] + Blank(s[k + 1..], 0)
  {
    var k := Closing(s, s[0], 1);
    hide Closing, Wipe, Blank;
    Assoc([s[0]] + Wipe(s[1..k]), [s[0]], Blank(s[k + 1..], 0));
  }

  /** A string literal with any escapes is wiped between its quotes, and scanning goes on behind them. */
  lemma StringIsWiped(units: seq<Unit>, behind: string)
    requires Fits(units, '"')
    ensures Blank("\"" + Spelled(units) + "\"" + behind, 0)
         == "\"" + Wipe(Spelled(units)) + "\"" + Blank(behind, 0)
  {
    assert IsQuote('"');
    hide *;
    LiteralIsWiped(units, '"', behind);
  }

  /** Reading on inside a literal: some units and the closing quote, or the text ends first. */
  lemma {:induction false} ReadLiteral(s: string, q: char, i: nat)
      returns (closed: bool, units: seq<Unit>, behind: string)
    requires i <= |s| && IsQuote(q)
    ensures Fits(units, q)
    ensures closed ==> s[i..] == Spelled(units) + [q] + behind
    ensures !closed ==> Closing(s, q, i) == |s|
    decreases |s| - i
  {
    closed, units, behind := false, [], [];
    if i == |s| || (s[i] == '\\' && i + 1 == |s|) {
    } else if s[i] == q {
      closed, behind := true, s[i + 1..];
      assert s[i..] == [] + [q] + behind;
    } else {
      var u := if s[i] == '\\' then Escape(s[i + 1]) else Plain(s[i]);
      var j := i + |UnitText(u)|;
      closed, units, behind := ReadLiteral(s, q, j);
      assert s[i..] == UnitText(u) + s[j..];
      Assoc(UnitText(u) + Spelled(units), [q], behind);
      Assoc(UnitText(u), Spelled(units), [q] + behind);
      Assoc(Spelled(units), [q], behind);
      assert ([u] + units)[1..] == units;
      units := [u] + units;
    }
  }

  /** Every text behind a double quote, closed or not. */
  lemma StringCases(text: string) returns (closed: bool, units: seq<Unit>, behind: string)
    ensures closed ==> Fits(units, '"') && text == Spelled(units) + "\"" + behind
    ensures Blank("\"" + text, 0) ==
            if closed then "\"" + Wipe(Spelled(units)) + "\"" + Blank(behind, 0) else "\"" + Wipe(text)
  {
    var s := "\"" + text;
    closed, units, behind := ReadLiteral(s, '"', 1);
    assert s[1..] == text;
    if closed {
      hide *;
      StringIsWiped(units, behind);
      assert s == "\"" + Spelled(units) + "\"" + behind;
    } else {
      CodeStep(s);
      hide Closing, Wipe, Blank;
      assert s[0] == '"' && s[1..|s|] == text;
      assert [s[0]] + Wipe(text) + [] == "\"" + Wipe(text);
    }
  }

  /** When a single quote opens a literal rather than a lifetime. */
  predicate NoLifetime(body: string) { body == [] || |body| == 1 || !IdentStart(body[0]) }

  /** A lifetime takes an identifier start and two characters or more in front of the closing quote. */
  lemma LifetimeOrLiteral(units: seq<Unit>, behind: string)
    requires Fits(units, '\'')
    ensures Lifetime("'" + Spelled(units) + "'" + behind) == 0 <==> NoLifetime(Spelled(units))
  {
    var body := Spelled(units);
    var s := "'" + body + "'" + behind;
    SecondIsNoQuote(units);
    hide Spelled, Fits;
    assert forall i :: 0 <= i < |body| ==> s[1 + i] == body[i];
    assert s[1 + |body|] == '\'';
    if body != [] && IdentStart(body[0]) {
      if |body| == 1 {
        IdentEndIs(s, 1, 2);
      } else {
        assert s[1] == body[0] && s[2] == body[1];
        hide IdentEnd;
      }
    }
  }

  lemma SecondIsNoQuote(units: seq<Unit>)
    requires Fits(units, '\'')
    ensures var body := Spelled(units); |body| >= 2 && IdentStart(body[0]) ==> body[1] != '\''
  {
    if |units| >= 2 {
      assert Spelled(units) == UnitText(units[0]) + (UnitText(units[1]) + Spelled(units[1..][1..]));
      hide Spelled;
    }
  }

  /**
   * A character literal is wiped between its quotes: a single character, a letter too, or any escape such
   * as a newline or a code point.
   */
  lemma CharIsWiped(units: seq<Unit>, behind: string)
    requires Fits(units, '\'') && NoLifetime(Spelled(units))
    ensures Blank("'" + Spelled(units) + "'" + behind, 0) == "'" + Wipe(Spelled(units)) + "'" + Blank(behind, 0)
  {
    assert IsQuote('\'');
    hide *;
    LifetimeOrLiteral(units, behind);
    LiteralIsWiped(units, '\'', behind);
  }

  // ----- raw strings -----

  function Hashes(n: nat): (h: string)
    ensures |h| == n && forall i :: 0 <= i < n ==> h[i] == '#'
  {
    seq(n, i => '#')
  }

  function RawLiteral(letters: string, n: nat, body: string): string {
    letters + Hashes(n) + "\"" + body + ("\"" + Hashes(n))
  }

  /** The body nowhere has a quote with as many hashes as open the literal. */
  ghost predicate RawBody(body: string, n: nat) {
    forall i :: 0 <= i < |body| ==> !ClosesRaw(body, i, n)
  }

  lemma NotClosedEarly(body: string, n: nat, behind: string, i: nat)
    requires RawBody(body, n) && i < |body|
    ensures !ClosesRaw(body + ("\"" + Hashes(n)) + behind, i, n)
  {
    var s := body + ("\"" + Hashes(n)) + behind;
    if ClosesRaw(s, i, n) {
      assert s[|body|] == '"';
      assert forall j :: i < j <= i + n ==> s[j] == '#';
      assert i + n < |body|;
      assert forall j :: i <= j <= i + n ==> s[j] == body[j];
      assert ClosesRaw(body, i, n);
    }
  }

  lemma {:induction false} CloserFound(before: string, body: string, n: nat, behind: string, k: nat)
    requires RawBody(body, n) && k <= |body|
    ensures var text := before + (body + ("\"" + Hashes(n)) + behind);
            FindCloser(text, |before| + k, n) == |before| + |body|
    decreases |body| - k
  {
    var tail := body + ("\"" + Hashes(n)) + behind;
    var text := before + tail;
    CloserShifts(before, tail, k, n);
    if k < |body| {
      NotClosedEarly(body, n, behind, k);
      CloserFound(before, body, n, behind, k + 1);
    } else {
      assert ClosesRaw(tail, k, n) by {
        assert tail[k] == '"';
        assert forall j :: k < j <= k + n ==> tail[j] == Hashes(n)[j - k - 1];
      }
    }
  }

  lemma CloserShifts(before: string, tail: string, k: nat, n: nat)
    ensures ClosesRaw(before + tail, |before| + k, n) <==> ClosesRaw(tail, k, n)
  {
    var text, p := before + tail, |before|;
    assert forall j :: p <= j < |text| ==> text[j] == tail[j - p];
    if ClosesRaw(text, p + k, n) {
      assert forall j :: k < j <= k + n ==> tail[j] == text[p + j];
    }
  }

  lemma RawOpens(letters: string, n: nat, more: string)
    requires (letters == "r" || letters == "br") && n <= 255
    ensures var s := letters + Hashes(n) + "\"" + more;
            RawLetters(s) == |letters| && HashEnd(s, |letters|) == |letters| + n && RawOpen(s)
  {
    HashesEnd(letters, n, more);
    RawLettersOf(letters, Hashes(n) + "\"" + more);
    Assoc(letters, Hashes(n), "\"");
    Assoc(letters, Hashes(n) + "\"", more);
    hide HashEnd, RawLetters;
  }

  lemma RawLettersOf(letters: string, more: string)
    requires letters == "r" || letters == "br"
    ensures RawLetters(letters + more) == |letters|
  {
  }

  lemma HashesEnd(letters: string, n: nat, more: string)
    ensures var s := letters + Hashes(n) + "\"" + more;
            HashEnd(s, |letters|) == |letters| + n && s[|letters| + n] == '"'
  {
    hide *;
    var head := letters + Hashes(n);
    var s := head + "\"" + more;
    assert |head| == |letters| + n && s[|head|] == '"';
    forall j | |letters| <= j < |head| ensures s[j] == '#' {
      assert s[j] == head[j] == Hashes(n)[j - |letters|];
    }
    HashEndIs(s, |letters|, |head|);
  }

  /** A raw string with up to 255 hashes is wiped to its closer, whatever quotes and hashes it holds. */
  lemma RawStringIsWiped(letters: string, n: nat, body: string, behind: string)
    requires (letters == "r" || letters == "br") && n <= 255 && RawBody(body, n)
    ensures var raw := RawLiteral(letters, n, body); Blank(raw + behind, 0) == Wipe(raw) + Blank(behind, 0)
  {
    var raw := RawLiteral(letters, n, body);
    var open, more := letters + Hashes(n) + "\"", body + ("\"" + Hashes(n)) + behind;
    var s := raw + behind;
    assert s == open + more by {
      Assoc(open, body, "\"" + Hashes(n));
      Assoc(open, body + ("\"" + Hashes(n)), behind);
    }
    RawOpens(letters, n, more);
    CloserFound(open, body, n, behind, 0);
    assert RawEnd(s) == |raw|;
    assert !LineComment(s) && !BlockOpen(s);
    CodeStep(s);
    hide Blank, RawEnd, RawOpen;
    assert s[..|raw|] == raw && s[|raw|..] == behind;
  }

  lemma {:induction false} CloserIsFirst(text: string, i: nat, n: nat)
    requires i <= |text|
    ensures forall j :: i <= j < FindCloser(text, i, n) ==> !ClosesRaw(text, j, n)
    decreases |text| - i
  {
    hide ClosesRaw;
    if i < |text| && !ClosesRaw(text, i, n) {
      CloserIsFirst(text, i + 1, n);
    }
  }

  lemma {:induction false} FindShifts(before: string, tail: string, k: nat, n: nat)
    requires k <= |tail|
    ensures FindCloser(before + tail, |before| + k, n) == |before| + FindCloser(tail, k, n)
    decreases |tail| - k
  {
    CloserShifts(before, tail, k, n);
    hide ClosesRaw;
    if k < |tail| && !ClosesRaw(tail, k, n) {
      FindShifts(before, tail, k + 1, n);
    }
  }

  /** A body up to the first place that closes it. */
  lemma BodyBefore(text: string, k: nat, n: nat)
    requires k < |text| && ClosesRaw(text, k, n) && forall j :: 0 <= j < k ==> !ClosesRaw(text, j, n)
    ensures RawBody(text[..k], n) && k + 1 + n <= |text|
    ensures text == text[..k] + ("\"" + Hashes(n)) + text[k + 1 + n..]
  {
    var body := text[..k];
    forall i | 0 <= i < |body| ensures !ClosesRaw(body, i, n) {
      if ClosesRaw(body, i, n) {
        assert forall j :: i <= j <= i + n ==> text[j] == body[j];
        assert ClosesRaw(text, i, n);
      }
    }
    assert text[k..k + 1 + n] == "\"" + Hashes(n);
    assert text == text[..k] + text[k..k + 1 + n] + text[k + 1 + n..];
  }

  lemma RawRunsOut(letters: string, n: nat, text: string)
    requires (letters == "r" || letters == "br") && n <= 255 && FindCloser(text, 0, n) == |text|
    ensures var s := letters + Hashes(n) + "\"" + text; RawOpen(s) && RawEnd(s) == |s|
  {
    var open := letters + Hashes(n) + "\"";
    RawOpens(letters, n, text);
    hide FindCloser, RawOpen, RawLetters, HashEnd, ClosesRaw;
    FindShifts(open, text, 0, n);
    assert |open| == |letters| + n + 1;
  }

  lemma UnclosedRaw(letters: string, n: nat, text: string)
    requires (letters == "r" || letters == "br") && n <= 255 && FindCloser(text, 0, n) == |text|
    ensures var s := letters + Hashes(n) + "\"" + text; Blank(s, 0) == Wipe(s)
  {
    var s := letters + Hashes(n) + "\"" + text;
    assert !LineComment(s) && !BlockOpen(s) by { assert s[0] == 'r' || s[0] == 'b'; }
    assert Blank([], 0) == [];
    hide *;
    RawRunsOut(letters, n, text);
    CodeStep(s);
    assert s[|s|..] == [] && s[..|s|] == s;
    assert Wipe(s) + [] == Wipe(s);
  }

  /** Every text behind the opening of a raw string, closed or not. */
  lemma RawCases(letters: string, n: nat, text: string) returns (closed: bool, body: string, behind: string)
    requires (letters == "r" || letters == "br") && n <= 255
    ensures closed ==> RawBody(body, n) && text == body + ("\"" + Hashes(n)) + behind
    ensures var open := letters + Hashes(n) + "\"";
            Blank(open + text, 0) ==
            if closed then Wipe(RawLiteral(letters, n, body)) + Blank(behind, 0) else Wipe(open + text)
  {
    var k := FindCloser(text, 0, n);
    CloserIsFirst(text, 0, n);
    closed, body, behind := k < |text|, [], [];
    hide FindCloser, Blank, ClosesRaw;
    if closed {
      BodyBefore(text, k, n);
      body, behind := text[..k], text[k + 1 + n..];
      RawStringIsWiped(letters, n, body, behind);
      var open := letters + Hashes(n) + "\"";
      Assoc(open, body, "\"" + Hashes(n));
      Assoc(open, body + ("\"" + Hashes(n)), behind);
    } else {
      UnclosedRaw(letters, n, text);
    }
  }
}
