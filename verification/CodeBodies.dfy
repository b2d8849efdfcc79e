/** What a code body shows when it is copied, and when it is taken apart into lines. */
module CodeBodies {
  import opened Text
  import opened Markdown

  // ----- cells and characters -----

  lemma CharactersConcat(a: seq<Cell>, b: seq<Cell>)
    ensures Characters(a + b) == Characters(a) + Characters(b)
  {
  }

  lemma CharactersOfPainted(text: string, paint: Paint)
    ensures Characters(Painted(text, paint)) == text
  {
  }

  lemma PaintedConcat(a: string, b: string, paint: Paint)
    ensures Painted(a + b, paint) == Painted(a, paint) + Painted(b, paint)
  {
  }

  lemma Cancel<T>(a: seq<T>, x: seq<T>, y: seq<T>)
    ensures a + x == a + y <==> x == y
  {
    if a + x == a + y {
      assert x == (a + x)[|a|..] && y == (a + y)[|a|..];
    }
  }

  lemma CancelRight<T>(x: seq<T>, y: seq<T>, a: seq<T>)
    ensures x + a == y + a <==> x == y
  {
    if x + a == y + a {
      assert |x| == |y|;
      assert x == (x + a)[..|x|] && y == (y + a)[..|y|];
    }
  }

  // ----- code bodies -----

  function Terminated(lines: seq<string>): string {
    if lines == [] then [] else lines[0] + "\n" + Terminated(lines[1..])
  }

  lemma TerminatedCons(head: string, tail: seq<string>)
    ensures Terminated([head] + tail) == head + "\n" + Terminated(tail)
  {
    assert ([head] + tail)[1..] == tail;
  }

  predicate NoCrlf(s: string) { forall i :: 0 <= i < |s| - 1 ==> !(s[i] == '\r' && s[i + 1] == '\n') }

  function Returns(s: string): nat {
    if s == [] then 0 else (if s[0] == '\r' then 1 else 0) + Returns(s[1..])
  }

  lemma {:induction false} ReturnsConcat(a: string, b: string)
    ensures Returns(a + b) == Returns(a) + Returns(b)
  {
    if a == [] {
      assert a + b == b;
    } else {
      ReturnsConcat(a[1..], b);
      assert (a + b)[1..] == a[1..] + b;
    }
  }

  /** Without CRLF, reading a body by lines and ending each again only adds a missing last newline. */
  lemma {:induction false} LinesRestored(code: string)
    requires NoCrlf(code)
    ensures Terminated(Lines(code)) == if Ended(code) then code else code + "\n"
    decreases |code|
  {
    if code == [] {
      assert Terminated([]) == [];
    } else {
      var k := UpToNewlineCuts(code);
      if k < |code| {
        var head, rest := code[..k], code[k + 1..];
        assert code == head + "\n" + rest;
        assert NoTrailingCr(head) && NoCrlf(rest) && (Ended(code) <==> Ended(rest)) by { CutAtNewline(code, k); }
        LinesRestored(rest);
        hide *;
        LinesOfTerminated(head, rest);
        StripNothing(head);
        TerminatedCons(head, Lines(rest));
        Assoc(head + "\n", rest, "\n");
      } else {
        assert code[..k] == code && Lines(code) == [code];
        assert code[|code| - 1] != '\n';
        hide Lines;
        TerminatedCons(code, []);
        assert Terminated([]) == [] && [code] + [] == [code];
        assert code + "\n" + [] == code + "\n";
      }
    }
  }

  lemma StripNothing(line: string)
    requires NoTrailingCr(line)
    ensures StripCr(line) == line
  {
  }

  lemma CutAtNewline(code: string, k: nat)
    requires k < |code| && code[k] == '\n' && NoCrlf(code)
    ensures NoTrailingCr(code[..k]) && NoCrlf(code[k + 1..]) && (Ended(code) <==> Ended(code[k + 1..]))
  {
    var head, rest := code[..k], code[k + 1..];
    if k > 0 {
      assert head[k - 1] == code[k - 1];
    }
    assert forall i :: 0 <= i < |rest| ==> rest[i] == code[k + 1 + i];
  }

  lemma {:induction false} ReturnsOfLines(code: string)
    ensures Returns(Terminated(Lines(code))) <= Returns(code)
    ensures !NoCrlf(code) ==> Returns(Terminated(Lines(code))) < Returns(code)
    decreases |code|
  {
    if code == [] {
    } else {
      var k := UpToNewlineCuts(code);
      if k < |code| {
        var head, rest := code[..k], code[k + 1..];
        assert code == head + "\n" + rest;
        ReturnsOfLines(rest);
        LinesOfTerminated(head, rest);
        assert ([StripCr(head)] + Lines(rest))[1..] == Lines(rest);
        ReturnsOfPieces(head, rest);
        ReturnsOfPieces(StripCr(head), Terminated(Lines(rest)));
        StripLoses(head);
        CrlfIn(head, rest);
      } else {
        assert code[..k] == code;
        assert Lines(code) == [code];
        ReturnsOfPieces(code, []);
        assert forall i :: 0 <= i < |code| ==> code[i] != '\n';
      }
    }
  }

  lemma ReturnsOfPieces(head: string, rest: string)
    ensures Returns(head + "\n" + rest) == Returns(head) + Returns(rest)
  {
    ReturnsConcat(head + "\n", rest);
    ReturnsConcat(head, "\n");
  }

  lemma StripLoses(head: string)
    ensures Returns(StripCr(head)) == Returns(head) - if NoTrailingCr(head) then 0 else 1
  {
    if !NoTrailingCr(head) {
      ReturnsConcat(head[..|head| - 1], "\r");
      assert head[..|head| - 1] + "\r" == head;
    }
  }

  lemma CrlfIn(head: string, rest: string)
    requires '\n' !in head
    ensures NoTrailingCr(head) && NoCrlf(rest) ==> NoCrlf(head + "\n" + rest)
  {
    var code := head + "\n" + rest;
    if NoTrailingCr(head) && NoCrlf(rest) {
      forall i | 0 <= i < |code| - 1 ensures !(code[i] == '\r' && code[i + 1] == '\n') {
        if i + 1 < |head| {
          assert code[i + 1] == head[i + 1];
        } else if i > |head| {
          assert code[i] == rest[i - |head| - 1] && code[i + 1] == rest[i - |head|];
        }
      }
    }
  }

  lemma {:induction false} RawRowsText(lines: seq<string>, n: nat)
    requires n <= |lines|
    ensures RowsCells(RawRows(lines)[..n]) + Painted(Terminated(lines[n..]), Plain) == Painted(Terminated(lines), Plain)
    decreases n
  {
    if n == 0 {
      assert RawRows(lines)[..0] == [] && lines[0..] == lines;
    } else {
      hide *;
      RawRowsText(lines, n - 1);
      RawRowAdded(lines, n);
      Assoc(RowsCells(RawRows(lines)[..n - 1]), Painted(lines[n - 1] + "\n", Plain),
            Painted(Terminated(lines[n..]), Plain));
    }
  }

  lemma RawRowAdded(lines: seq<string>, n: nat)
    requires 0 < n <= |lines|
    ensures RowsCells(RawRows(lines)[..n]) == RowsCells(RawRows(lines)[..n - 1]) + Painted(lines[n - 1] + "\n", Plain)
    ensures Painted(Terminated(lines[n - 1..]), Plain)
         == Painted(lines[n - 1] + "\n", Plain) + Painted(Terminated(lines[n..]), Plain)
  {
    var rows := RawRows(lines);
    assert rows[..n] == rows[..n - 1] + [rows[n - 1]];
    RowsCellsLast(rows[..n - 1], rows[n - 1]);
    PaintedConcat(lines[n - 1], "\n", Plain);
    assert lines[n - 1..][1..] == lines[n..];
    PaintedConcat(lines[n - 1] + "\n", Terminated(lines[n..]), Plain);
    hide RowsCells;
    RawRowCells(lines[n - 1]);
  }

  lemma RawRowCells(line: string)
    ensures RowCells([Span(line, Plain)]) == Painted(line, Plain)
  {
    assert [Span(line, Plain)][..0] == [];
  }

  lemma CodeRowsShow(code: string)
    ensures RowsCells(RawRows(Lines(code))) == Painted(Terminated(Lines(code)), Plain)
  {
    hide RowsCells, Lines;
    var rows := RawRows(Lines(code));
    RawRowsText(Lines(code), |rows|);
    assert rows[..|rows|] == rows && Lines(code)[|rows|..] == [];
    assert Terminated([]) == [];
    assert RowsCells(rows) + [] == RowsCells(rows);
  }
}
