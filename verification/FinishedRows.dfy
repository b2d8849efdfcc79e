/** The finished rows against the lines of the finished stream. */
module FinishedRows {
  import opened Text
  import opened Markdown
  import opened MarkdownTable
  import opened MarkdownProject
  import opened TableGeometry
  import opened CodeBodies
  import opened GridTexts
  import opened MarkdownAgreement
  import opened MarkdownFinish
  import opened LineCuts
  import opened MarkdownRows
  import opened NewlineFree
  import opened MarkdownLines

  /** Lines without the blank ones at the end. */
  function DropBlankLines(lines: seq<string>): seq<string> {
    if lines != [] && AllWhitespace(lines[|lines| - 1]) then DropBlankLines(lines[..|lines| - 1]) else lines
  }

  lemma DropsLast(lines: seq<string>, last: string)
    ensures DropBlankLines(lines + [last]) == if AllWhitespace(last) then DropBlankLines(lines) else lines + [last]
  {
    assert (lines + [last])[..|lines|] == lines;
  }

  predicate LastIsBlank(lines: seq<string>) { lines != [] && AllWhitespace(lines[|lines| - 1]) }

  lemma DropGrown(lines: seq<string>, c: char)
    requires LastIsBlank(lines) && IsWhitespace(c)
    ensures DropBlankLines(Grown(lines, c, EndsLine)) == DropBlankLines(lines) && LastIsBlank(Grown(lines, c, EndsLine))
  {
    hide IsWhitespace, DropBlankLines;
    var init, last := lines[..|lines| - 1], lines[|lines| - 1];
    InitAndLast(lines);
    DropsLast(init, last);
    DropsLast(init, last + [c]);
    DropsLast(lines, []);
  }

  /** Blank space behind a blank last line only adds blank lines. */
  lemma {:induction false} DropBehind(text: string, blank: string)
    requires AllWhitespace(blank) && LastIsBlank(Cut(text, EndsLine))
    ensures DropBlankLines(Cut(text + blank, EndsLine)) == DropBlankLines(Cut(text, EndsLine))
    ensures LastIsBlank(Cut(text + blank, EndsLine))
  {
    if blank == [] {
      assert text + blank == text;
    } else {
      var init, last := blank[..|blank| - 1], blank[|blank| - 1];
      assert AllWhitespace(init) && IsWhitespace(last);
      hide *;
      DropBehind(text, init);
      InitAndLast(blank);
      Assoc(text, init, [last]);
      CutLast(text + init, last, EndsLine);
      DropGrown(Cut(text + init, EndsLine), last);
    }
  }

  lemma BlankText(text: string)
    requires AllWhitespace(text)
    ensures Trim(text) == []
  {
    var a, t, z := TrimCuts(text);
    assert forall i :: 0 <= i < |t| ==> t[i] == text[|a| + i];
  }

  lemma {:induction false} BlankTextsMakeBlankRow(row: seq<Span>)
    requires AllWhitespace(LineText(row))
    ensures BlankRow(row)
  {
    if row == [] {
    } else {
      var init, last := row[..|row| - 1], row[|row| - 1];
      assert forall i :: 0 <= i < |LineText(init)| ==> LineText(row)[i] == LineText(init)[i];
      assert forall i :: 0 <= i < |last.text| ==> LineText(row)[|LineText(init)| + i] == last.text[i];
      hide IsWhitespace, LineText, Trim;
      BlankTextsMakeBlankRow(init);
      BlankText(last.text);
    }
  }

  lemma BlankRowMeans(row: seq<Span>)
    ensures BlankRow(row) <==> AllWhitespace(LineText(row))
  {
    hide *;
    if BlankRow(row) {
      BlankRowIsBlank(row);
    }
    if AllWhitespace(LineText(row)) {
      BlankTextsMakeBlankRow(row);
    }
  }

  lemma EndedCharacters(rows: seq<seq<Span>>)
    requires rows != []
    ensures Characters(RowsCells(rows))
         == Characters(RowsCells(rows[..|rows| - 1])) + (LineText(rows[|rows| - 1]) + "\n")
  {
    var init, last := rows[..|rows| - 1], rows[|rows| - 1];
    CharactersConcat(RowsCells(init), EndedRow(last));
    CharactersConcat(RowCells(last), Newline());
    CharactersOfPainted("\n", Plain);
    RowCharacters(last);
    hide Characters, RowCells, LineText;
  }

  lemma LastIsEmpty(rows: seq<seq<Span>>)
    ensures LastIsBlank(Cut(Characters(RowsCells(rows)), EndsLine))
  {
    if rows == [] {
      assert Characters([]) == [];
    } else {
      EndedCharacters(rows);
      hide Characters, RowsCells, LineText;
      var before := Characters(RowsCells(rows[..|rows| - 1])) + LineText(rows[|rows| - 1]);
      assert Characters(RowsCells(rows)) == before + ['\n'];
      CutLast(before, '\n', EndsLine);
    }
  }

  lemma TextsOfRows(rows: seq<seq<Span>>)
    requires RowsFree(rows)
    ensures Cut(Characters(RowsCells(rows)), EndsLine) == RowTexts(rows) + [[]]
  {
    hide *;
    CutRows(rows);
    CutCharacters(RowsCells(rows));
    TextsOfCellRows(rows);
  }

  lemma TextsOfCellRows(rows: seq<seq<Span>>)
    ensures Texts(CellRows(rows) + [[]]) == RowTexts(rows) + [[]]
  {
    forall i | 0 <= i < |rows| ensures Characters(RowCells(rows[i])) == LineText(rows[i]) { RowCharacters(rows[i]); }
    assert Characters([]) == [];
    hide Characters, RowCells, LineText;
  }

  lemma RowTextsLast(rows: seq<seq<Span>>)
    requires rows != []
    ensures RowTexts(rows) == RowTexts(rows[..|rows| - 1]) + [LineText(rows[|rows| - 1])]
  {
    hide LineText;
  }

  lemma DropStops(rows: seq<seq<Span>>)
    requires rows != [] ==> !BlankRow(rows[|rows| - 1])
    ensures DropBlankLines(RowTexts(rows) + [[]]) == RowTexts(rows)
  {
    hide BlankRow, LineText, IsWhitespace;
    DropsLast(RowTexts(rows), []);
    if rows != [] {
      BlankRowMeans(rows[|rows| - 1]);
      RowTextsLast(rows);
      DropsLast(RowTexts(rows[..|rows| - 1]), LineText(rows[|rows| - 1]));
    }
  }

  /** Rows ended by newlines, cut there again, blank ends dropped on either side. */
  lemma {:induction false} DroppedRows(rows: seq<seq<Span>>)
    requires RowsFree(DropBlank(rows))
    ensures DropBlankLines(Cut(Characters(RowsCells(rows)), EndsLine)) == RowTexts(DropBlank(rows))
  {
    if rows != [] && BlankRow(rows[|rows| - 1]) {
      var init, last := rows[..|rows| - 1], rows[|rows| - 1];
      assert DropBlank(rows) == DropBlank(init);
      hide *;
      DroppedRows(init);
      EndedCharacters(rows);
      LastIsEmpty(init);
      BlankRowMeans(last);
      BlankAndEnded(LineText(last));
      DropBehind(Characters(RowsCells(init)), LineText(last) + "\n");
    } else {
      assert DropBlank(rows) == rows;
      TextsOfRows(rows);
      hide *;
      DropStops(rows);
    }
  }

  lemma BlankAndEnded(text: string)
    requires AllWhitespace(text)
    ensures AllWhitespace(text + "\n")
  {
  }

  /** Flushing the row under construction adds a line end at most. */
  lemma FlushedRows(page: Page)
    ensures DropBlankLines(Cut(Characters(PageCells(page)), EndsLine))
         == DropBlankLines(Cut(Characters(RowsCells(BreakIfBegun(page).rows)), EndsLine))
  {
    var text, rows := Characters(PageCells(page)), BreakIfBegun(page).rows;
    assert RowsCells(rows) + RowCells([]) == RowsCells(rows);
    CharactersConcat(PageCells(page), Newline());
    CharactersOfPainted("\n", Plain);
    hide Characters, RowsCells, RowCells, Cut, DropBlankLines, IsWhitespace;
    assert PageCells(page) + [] == PageCells(page);
    CutLast(text, '\n', EndsLine);
    DropsLast(Cut(text, EndsLine), []);
  }

  lemma PiecesLeft(lines: seq<string>)
    requires forall i :: 0 <= i < |lines| ==> OneLine(lines[i])
    ensures forall i :: 0 <= i < |DropBlankLines(lines)| ==> OneLine(DropBlankLines(lines)[i])
  {
    hide OneLine, AllWhitespace;
  }

  /** The finished rows are the lines of the stream, blank ones at the end dropped on both sides. */
  ghost predicate FinishedMatch(m: Metric, nodes: seq<Node>) {
    RowTexts(Trimmed(Laid(m, nodes))) == DropBlankLines(Cut(Characters(Shown(Written(m, nodes))), EndsLine))
  }

  lemma FreeRowTexts(rows: seq<seq<Span>>)
    ensures RowsFree(rows) <==> forall i :: 0 <= i < |rows| ==> OneLine(RowTexts(rows)[i])
  {
    hide RowFree, LineText, OneLine;
    forall i | 0 <= i < |rows| ensures RowFree(rows[i]) <==> OneLine(RowTexts(rows)[i]) { RowFreeText(rows[i]); }
  }

  /** Lines with the space at the end of the last one trimmed; a text has one line at least. */
  function EndTrimmed(lines: seq<string>): seq<string> {
    if lines == [] then [[]] else lines[..|lines| - 1] + [TrimEnd(lines[|lines| - 1])]
  }

  lemma EndTrimmedLast(lines: seq<string>, last: string)
    ensures EndTrimmed(lines + [last]) == lines + [TrimEnd(last)]
  {
    assert (lines + [last])[..|lines|] == lines;
  }

  lemma BlankTrimmed(c: char, last: string)
    ensures IsWhitespace(c) ==> TrimEnd(last + [c]) == TrimEnd(last)
    ensures !IsWhitespace(c) ==> TrimEnd(last + [c]) == last + [c]
    ensures AllWhitespace(last + [c]) <==> AllWhitespace(last) && IsWhitespace(c)
  {
    assert (last + [c])[..|last|] == last && (last + [c])[|last|] == c;
    assert forall i :: 0 <= i < |last| ==> (last + [c])[i] == last[i];
    hide IsWhitespace;
  }

  /** One more character of blank space at the end shows nowhere. */
  lemma BlankGrown(lines: seq<string>, c: char)
    requires lines != [] && IsWhitespace(c)
    ensures EndTrimmed(DropBlankLines(Grown(lines, c, EndsLine))) == EndTrimmed(DropBlankLines(lines))
  {
    var init, last := lines[..|lines| - 1], lines[|lines| - 1];
    BlankTrimmed(c, last);
    hide IsWhitespace, DropBlankLines, EndTrimmed, TrimEnd;
    InitAndLast(lines);
    DropsLast(lines, []);
    DropsLast(init, last);
    DropsLast(init, last + [c]);
    EndTrimmedLast(init, last);
    EndTrimmedLast(init, last + [c]);
  }

  lemma VisibleGrown(lines: seq<string>, c: char)
    requires lines != [] && !IsWhitespace(c)
    ensures EndTrimmed(DropBlankLines(Grown(lines, c, EndsLine))) == Grown(lines, c, EndsLine)
  {
    var init, last := lines[..|lines| - 1], lines[|lines| - 1];
    BlankTrimmed(c, last);
    assert c != '\n';
    hide IsWhitespace, DropBlankLines, EndTrimmed, TrimEnd;
    DropsLast(init, last + [c]);
    EndTrimmedLast(init, last + [c]);
  }

  /** Trimming a text at its end is dropping its blank last lines and trimming the last one left. */
  lemma {:induction false} TrimmedLines(text: string)
    ensures Cut(TrimEnd(text), EndsLine) == EndTrimmed(DropBlankLines(Cut(text, EndsLine)))
  {
    if text == [] {
    } else {
      var init, c := text[..|text| - 1], text[|text| - 1];
      assert IsWhitespace(c) ==> TrimEnd(text) == TrimEnd(init);
      assert !IsWhitespace(c) ==> TrimEnd(text) == text;
      hide *;
      InitAndLast(text);
      CutLast(init, c, EndsLine);
      if IsWhitespace(c) {
        TrimmedLines(init);
        BlankGrown(Cut(init, EndsLine), c);
      } else {
        VisibleGrown(Cut(init, EndsLine), c);
      }
    }
  }

  /**
   * Where the characters agree, the finished outputs agree line for line if and only if no finished row
   * holds a newline; the stream trimmed at its end is then the rows, the last one trimmed as well.
   */
  lemma FinishedAgreement(m: Metric, nodes: seq<Node>)
    requires TextsMatch(m, nodes, |nodes|)
    ensures FinishedMatch(m, nodes) <==> RowsFree(Trimmed(Laid(m, nodes)))
    ensures FinishedMatch(m, nodes) ==>
              Cut(TrimEnd(Characters(Shown(Written(m, nodes)))), EndsLine)
              == EndTrimmed(RowTexts(Trimmed(Laid(m, nodes))))
  {
    hide TrimEnd, EndTrimmed;
    TrimmedLines(Characters(Shown(Written(m, nodes))));
    hide Written, Laid, Shown, Characters, PageCells, RowsCells, DropBlank, DropBlankLines, Cut, RowsFree, OneLine;
    hide TextsMatch, RowTexts, BreakIfBegun;
    var page, text := Laid(m, nodes), Characters(Shown(Written(m, nodes)));
    WholeMatch(m, nodes);
    FlushedRows(page);
    if RowsFree(Trimmed(page)) {
      DroppedRows(BreakIfBegun(page).rows);
    }
    FreeRowTexts(Trimmed(page));
    PiecesAreOneLine(text);
    PiecesLeft(Cut(text, EndsLine));
  }

  lemma {:induction false} DroppedAreFree(rows: seq<seq<Span>>)
    requires RowsFree(rows)
    ensures RowsFree(DropBlank(rows))
  {
    if rows != [] && BlankRow(rows[|rows| - 1]) {
      RowsFreeInit(rows);
      hide RowsFree, BlankRow;
      DroppedAreFree(rows[..|rows| - 1]);
    }
  }

  lemma FreeNodesFinishFree(m: Metric, nodes: seq<Node>)
    requires forall i :: 0 <= i < |nodes| ==> LineFree(nodes[i])
    ensures RowsFree(Trimmed(Laid(m, nodes)))
  {
    hide LineFree, Laid, PageFree, DropBlank, BreakIfBegun;
    assert nodes[..|nodes|] == nodes;
    LaidFree(m, nodes, |nodes|);
    BreakFree(Laid(m, nodes));
    PageRowsFree(BreakIfBegun(Laid(m, nodes)));
    DroppedAreFree(BreakIfBegun(Laid(m, nodes)).rows);
  }

  lemma PageRowsFree(page: Page)
    requires PageFree(page)
    ensures RowsFree(page.rows)
  {
  }

  /**
   * Prose is shown row by row as it is written, all along and when finished, exactly if no node of it puts a
   * newline into a row; finished outputs may differ only where such a newline stays.
   */
  lemma ProseRows(m: Metric, nodes: seq<Node>)
    requires Prose(nodes)
    ensures (forall n :: 0 <= n <= |nodes| ==> RowsMatch(m, nodes, n))
       <==> (forall i :: 0 <= i < |nodes| ==> LineFree(nodes[i]))
    ensures FinishedMatch(m, nodes) <==> RowsFree(Trimmed(Laid(m, nodes)))
    ensures (forall i :: 0 <= i < |nodes| ==> LineFree(nodes[i])) ==> FinishedMatch(m, nodes)
  {
    hide *;
    ProseReadsTheSame(m, nodes);
    TextAgreement(m, nodes);
    RowAgreement(m, nodes);
    FinishedAgreement(m, nodes);
    if forall i :: 0 <= i < |nodes| ==> LineFree(nodes[i]) {
      FreeNodesFinishFree(m, nodes);
    }
  }

  // ----- HTML lines -----

  lemma HtmlAdds(m: Metric, page: Page, ctx: Context, text: string)
    requires text != []
    ensures EmitNode(m, page, ctx, Html(text)) == Page(page.rows, page.cur + [Span(text, Plain)])
  {
    hide PageCells;
  }

  lemma HtmlLaid(m: Metric, a: string, b: string)
    requires a != [] && b != []
    ensures Laid(m, [Html(a), Html(b)]) == Page([], [Span(a, Plain), Span(b, Plain)])
  {
    var nodes := [Html(a), Html(b)];
    assert nodes[..0] == [] && nodes[..0 + 1] == nodes[..1] && nodes[..1 + 1] == nodes;
    assert Laid(m, nodes[..0]) == Page([], []);
    hide *;
    OneMore(m, nodes, 0);
    OneMore(m, nodes, 1);
    HtmlAdds(m, Page([], []), ContextAfter(nodes[..0]), a);
    assert [] + [Span(a, Plain)] == [Span(a, Plain)];
    HtmlAdds(m, Page([], [Span(a, Plain)]), ContextAfter(nodes[..1]), b);
  }

  lemma HtmlShown(m: Metric, a: string, b: string)
    ensures Characters(Shown(Written(m, [Html(a), Html(b)]))) == a + b
  {
    hide *;
    var nodes := [Html(a), Html(b)];
    assert nodes[..0] == [] && nodes[..0 + 1] == nodes[..1] && nodes[..1 + 1] == nodes;
    NothingShown(m, nodes[..0]);
    NextCharacters(m, nodes, 0);
    PlainCharacters(m, ContextAfter(nodes[..0]), a, Begun(nodes[..0]));
    NextCharacters(m, nodes, 1);
    PlainCharacters(m, ContextAfter(nodes[..1]), b, Begun(nodes[..1]));
    assert [] + a == a;
  }

  lemma CutTwoLines(a: string, b: string)
    requires OneLine(a) && OneLine(b)
    ensures Cut(a + "\n" + b, EndsLine) == [a, b]
  {
    assert NoEnd(a, EndsLine) && NoEnd(b, EndsLine);
    assert Cut([], EndsLine) == [[]];
    hide Cut, OneLine;
    CutRun([], a, EndsLine);
    assert [] + a == a;
    CutLast(a, '\n', EndsLine);
    CutRun(a + "\n", b, EndsLine);
    assert [] + b == b;
  }

  lemma HtmlTrimmed(a: string, b: string)
    requires Trim(b) != []
    ensures RowTexts(Trimmed(Page([], [Span(a, Plain), Span(b, Plain)]))) == [a + b]
  {
    hide Trim, PageCells, LineText;
    var row := [Span(a, Plain), Span(b, Plain)];
    assert row[1].text == b;
    assert [] + [row] == [row];
    LineTextOne(Span(a, Plain));
    LineTextLast([Span(a, Plain)], Span(b, Plain));
    assert row == [Span(a, Plain)] + [Span(b, Plain)];
  }

  /**
   * Two lines of an HTML block, as the parser hands them over: two lines in the stream, one row in the other
   * output, with the newline inside it.
   */
  lemma HtmlLinesShareARow(m: Metric, a: string, b: string)
    requires OneLine(a) && OneLine(b) && Trim(b) != []
    ensures var nodes := [Html(a + "\n"), Html(b)];
            && Prose(nodes) && TextsMatch(m, nodes, 2)
            && Cut(Characters(Shown(Written(m, nodes))), EndsLine) == [a, b]
            && RowTexts(Trimmed(Laid(m, nodes))) == [a + "\n" + b]
            && !FinishedMatch(m, nodes)
  {
    var nodes := [Html(a + "\n"), Html(b)];
    assert Prose(nodes) && |nodes| == 2;
    hide *;
    VisibleIsSomething(b);
    ProseReadsTheSame(m, nodes);
    HtmlShown(m, a + "\n", b);
    CutTwoLines(a, b);
    HtmlLaid(m, a + "\n", b);
    HtmlTrimmed(a + "\n", b);
    VisibleLastStays(a, b);
    FinishedMatchMeans(m, nodes);
    assert |[a, b]| != |[a + "\n" + b]|;
  }

  lemma FinishedMatchMeans(m: Metric, nodes: seq<Node>)
    ensures FinishedMatch(m, nodes) <==>
              RowTexts(Trimmed(Laid(m, nodes))) == DropBlankLines(Cut(Characters(Shown(Written(m, nodes))), EndsLine))
  {
  }

  lemma VisibleIsSomething(b: string)
    requires Trim(b) != []
    ensures b != []
  {
  }

  lemma VisibleLastStays(a: string, b: string)
    requires Trim(b) != []
    ensures DropBlankLines([a, b]) == [a, b]
  {
    if AllWhitespace(b) {
      BlankText(b);
    }
  }
}
