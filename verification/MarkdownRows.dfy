/** When the rows of a page are the lines of a stream, newline for newline. */
module MarkdownRows {
  import opened Text
  import opened Markdown
  import opened TableGeometry
  import opened CodeBodies
  import opened GridTexts
  import opened LineCuts

  predicate CellEndsLine(cell: Cell) { cell.c == '\n' }

  // ----- the rows of a page -----

  function RowTexts(rows: seq<seq<Span>>): (texts: seq<string>)
    ensures |texts| == |rows| && forall i :: 0 <= i < |rows| ==> texts[i] == LineText(rows[i])
  {
    seq(|rows|, i requires 0 <= i < |rows| => LineText(rows[i]))
  }

  /** The texts of the finished rows and of the row under construction. */
  function PageTexts(page: Page): seq<string> { RowTexts(page.rows) + [LineText(page.cur)] }

  function CellRows(rows: seq<seq<Span>>): (lines: seq<seq<Cell>>)
    ensures |lines| == |rows| && forall i :: 0 <= i < |rows| ==> lines[i] == RowCells(rows[i])
  {
    seq(|rows|, i requires 0 <= i < |rows| => RowCells(rows[i]))
  }

  /** The same with their styles. */
  function PageRows(page: Page): seq<seq<Cell>> { CellRows(page.rows) + [RowCells(page.cur)] }

  predicate RowFree(row: seq<Span>) { forall i :: 0 <= i < |row| ==> OneLine(row[i].text) }

  predicate RowsFree(rows: seq<seq<Span>>) { forall i :: 0 <= i < |rows| ==> RowFree(rows[i]) }

  predicate PageFree(page: Page) { RowsFree(page.rows) && RowFree(page.cur) }

  lemma OneLineConcat(a: string, b: string)
    ensures OneLine(a + b) <==> OneLine(a) && OneLine(b)
  {
    assert forall i :: 0 <= i < |a| ==> a[i] == (a + b)[i];
    assert forall i :: 0 <= i < |b| ==> b[i] == (a + b)[|a| + i];
  }

  lemma {:induction false} RowFreeText(row: seq<Span>)
    ensures RowFree(row) <==> OneLine(LineText(row))
  {
    if row == [] {
    } else {
      var init, last := row[..|row| - 1], row[|row| - 1];
      RowFreeText(init);
      RowFreeLast(init, last);
      InitAndLast(row);
      OneLineConcat(LineText(init), last.text);
    }
  }

  lemma RowFreeLast(row: seq<Span>, span: Span)
    ensures RowFree(row + [span]) <==> RowFree(row) && OneLine(span.text)
  {
    hide OneLine;
    var longer := row + [span];
    assert forall i :: 0 <= i < |row| ==> row[i] == longer[i];
    assert longer[|row|] == span;
  }

  lemma FreeRowHasNoEnd(row: seq<Span>)
    requires RowFree(row)
    ensures NoEnd(RowCells(row), CellEndsLine)
  {
    hide RowFree, RowCells, LineText;
    RowFreeText(row);
    RowCharacters(row);
    var text := LineText(row);
    assert forall i :: 0 <= i < |RowCells(row)| ==> RowCells(row)[i].c == text[i];
  }

  lemma AddedToNothing(row: seq<Cell>, before: seq<seq<Cell>>)
    ensures Longer(before + [[]], row) == before + [row]
  {
    var pieces := before + [[]];
    assert pieces[..|pieces| - 1] == before;
    assert pieces[|pieces| - 1] + row == row;
  }

  lemma CutNewline(s: seq<Cell>)
    ensures Cut(s + Newline(), CellEndsLine) == Cut(s, CellEndsLine) + [[]]
  {
    var end := Cell('\n', Plain);
    assert Newline() == [end];
    CutLast(s, end, CellEndsLine);
  }

  lemma CellRowsLast(rows: seq<seq<Span>>)
    requires rows != []
    ensures CellRows(rows) == CellRows(rows[..|rows| - 1]) + [RowCells(rows[|rows| - 1])]
  {
  }

  lemma RowsFreeInit(rows: seq<seq<Span>>)
    requires rows != [] && RowsFree(rows)
    ensures RowsFree(rows[..|rows| - 1]) && RowFree(rows[|rows| - 1])
  {
  }

  lemma RowsCellsInit(rows: seq<seq<Span>>)
    requires rows != []
    ensures RowsCells(rows) == RowsCells(rows[..|rows| - 1]) + RowCells(rows[|rows| - 1]) + Newline()
  {
    var init, last := rows[..|rows| - 1], rows[|rows| - 1];
    hide RowCells, Newline;
    Assoc(RowsCells(init), RowCells(last), Newline());
  }

  lemma {:induction false} CutRows(rows: seq<seq<Span>>)
    requires RowsFree(rows)
    ensures Cut(RowsCells(rows), CellEndsLine) == CellRows(rows) + [[]]
  {
    if rows == [] {
    } else {
      hide *;
      var init, last := rows[..|rows| - 1], rows[|rows| - 1];
      RowsFreeInit(rows);
      CutRows(init);
      FreeRowHasNoEnd(last);
      RowsCellsInit(rows);
      CutRun(RowsCells(init), RowCells(last), CellEndsLine);
      AddedToNothing(RowCells(last), CellRows(init));
      CutNewline(RowsCells(init) + RowCells(last));
      CellRowsLast(rows);
    }
  }

  /** A page without newlines in its texts is its cells, cut at each newline. */
  lemma CutPage(page: Page)
    requires PageFree(page)
    ensures Cut(PageCells(page), CellEndsLine) == PageRows(page)
  {
    hide Cut, RowsCells, RowCells, CellRows, RowFree, RowsFree, Longer, NoEnd;
    CutRows(page.rows);
    FreeRowHasNoEnd(page.cur);
    CutRun(RowsCells(page.rows), RowCells(page.cur), CellEndsLine);
    AddedToNothing(RowCells(page.cur), CellRows(page.rows));
  }

  // ----- texts of pieces -----

  function Texts(pieces: seq<seq<Cell>>): (texts: seq<string>)
    ensures |texts| == |pieces| && forall i :: 0 <= i < |pieces| ==> texts[i] == Characters(pieces[i])
  {
    seq(|pieces|, i requires 0 <= i < |pieces| => Characters(pieces[i]))
  }

  lemma TextsOfGrown(pieces: seq<seq<Cell>>, x: Cell)
    requires pieces != []
    ensures Texts(Grown(pieces, x, CellEndsLine)) == Grown(Texts(pieces), x.c, EndsLine)
  {
    CharactersConcat(pieces[|pieces| - 1], [x]);
    assert Characters([x]) == [x.c];
    assert Characters([]) == [];
    hide Characters;
  }

  /** Cutting cells is cutting their characters. */
  lemma {:induction false} CutCharacters(cells: seq<Cell>)
    ensures Texts(Cut(cells, CellEndsLine)) == Cut(Characters(cells), EndsLine)
  {
    if cells == [] {
      assert Characters([]) == [];
    } else {
      var init, last := cells[..|cells| - 1], cells[|cells| - 1];
      hide *;
      CutCharacters(init);
      InitAndLast(cells);
      CutLast(init, last, CellEndsLine);
      TextsOfGrown(Cut(init, CellEndsLine), last);
      CharactersLast(init, last);
      CutLast(Characters(init), last.c, EndsLine);
    }
  }

  lemma CharactersLast(cells: seq<Cell>, x: Cell)
    ensures Characters(cells + [x]) == Characters(cells) + [x.c]
  {
  }

  lemma TextsOfPage(page: Page)
    ensures Texts(PageRows(page)) == PageTexts(page)
  {
    forall i | 0 <= i < |page.rows| ensures Characters(RowCells(page.rows[i])) == LineText(page.rows[i]) {
      RowCharacters(page.rows[i]);
    }
    RowCharacters(page.cur);
    hide Characters, RowCells, LineText;
  }

  lemma {:induction false} PiecesAreOneLine(text: string)
    ensures forall i :: 0 <= i < |Cut(text, EndsLine)| ==> OneLine(Cut(text, EndsLine)[i])
  {
    if text == [] {
    } else {
      PiecesAreOneLine(text[..|text| - 1]);
    }
  }

  lemma FreeTexts(page: Page)
    ensures PageFree(page) <==> forall i :: 0 <= i < |PageTexts(page)| ==> OneLine(PageTexts(page)[i])
  {
    hide LineText, RowFree, OneLine;
    var texts := PageTexts(page);
    forall i | 0 <= i < |page.rows| ensures texts[i] == LineText(page.rows[i])
                                       && (RowFree(page.rows[i]) <==> OneLine(texts[i])) {
      RowFreeText(page.rows[i]);
    }
    RowFreeText(page.cur);
    assert texts[|page.rows|] == LineText(page.cur);
  }

  // ----- lines against rows -----

  /** The lines of the stream are the rows: the same text, cut in the same places. */
  ghost predicate LinesAreRows(out: seq<Cell>, page: Page) {
    Cut(Characters(out), EndsLine) == PageTexts(page)
  }

  /** The same cell by cell. */
  ghost predicate StyledLinesAreRows(out: seq<Cell>, page: Page) {
    Cut(out, CellEndsLine) == PageRows(page)
  }

  lemma CutPageTexts(page: Page)
    requires PageFree(page)
    ensures LinesAreRows(PageCells(page), page)
  {
    hide *;
    CutPage(page);
    CutCharacters(PageCells(page));
    TextsOfPage(page);
    LinesAreRowsMeans(PageCells(page), page);
  }

  lemma LinesAreRowsMeans(out: seq<Cell>, page: Page)
    ensures LinesAreRows(out, page) <==> Cut(Characters(out), EndsLine) == PageTexts(page)
    ensures StyledLinesAreRows(out, page) <==> Cut(out, CellEndsLine) == PageRows(page)
  {
  }

  lemma SameTextFromPieces(a: string, b: string)
    requires Cut(a, EndsLine) == Cut(b, EndsLine)
    ensures a == b
  {
    CutDetermines(a, b, EndsLine);
    hide Cut;
  }

  lemma RowsAreOneLine(out: seq<Cell>, page: Page)
    requires LinesAreRows(out, page)
    ensures PageFree(page)
  {
    PiecesAreOneLine(Characters(out));
    hide Cut, PageTexts, OneLine, PageFree;
    FreeTexts(page);
  }

  /** Flattened to characters the outputs agree and no row holds a newline: that is agreement row by row. */
  lemma RowsFromTexts(out: seq<Cell>, page: Page)
    ensures LinesAreRows(out, page) <==> Characters(out) == Characters(PageCells(page)) && PageFree(page)
  {
    hide *;
    LinesAreRowsMeans(out, page);
    LinesAreRowsMeans(PageCells(page), page);
    if LinesAreRows(out, page) {
      RowsAreOneLine(out, page);
      CutPageTexts(page);
      SameTextFromPieces(Characters(out), Characters(PageCells(page)));
    }
    if PageFree(page) {
      CutPageTexts(page);
    }
  }

  // ----- styles -----

  /** Line ends carry no style of their own. */
  predicate PlainEnds(cells: seq<Cell>) {
    forall i :: 0 <= i < |cells| && cells[i].c == '\n' ==> cells[i].paint == Plain
  }

  lemma PlainEndsConcat(a: seq<Cell>, b: seq<Cell>)
    requires PlainEnds(a) && PlainEnds(b)
    ensures PlainEnds(a + b)
  {
  }

  lemma {:induction false} FreeRowsHavePlainEnds(rows: seq<seq<Span>>)
    requires RowsFree(rows)
    ensures PlainEnds(RowsCells(rows))
  {
    if rows == [] {
    } else {
      hide *;
      var init, last := rows[..|rows| - 1], rows[|rows| - 1];
      RowsFreeInit(rows);
      FreeRowsHavePlainEnds(init);
      FreeRowHasPlainEnds(last);
      RowsCellsInit(rows);
      PlainEndsConcat(RowsCells(init), RowCells(last));
      PlainNewline();
      PlainEndsConcat(RowsCells(init) + RowCells(last), Newline());
    }
  }

  lemma PlainNewline()
    ensures PlainEnds(Newline())
  {
  }

  lemma FreeRowHasPlainEnds(row: seq<Span>)
    requires RowFree(row)
    ensures PlainEnds(RowCells(row))
  {
    FreeRowHasNoEnd(row);
    hide RowCells, RowFree;
  }

  lemma FreePageHasPlainEnds(page: Page)
    requires PageFree(page)
    ensures PlainEnds(PageCells(page))
  {
    hide RowsFree, RowFree, RowsCells, RowCells, PlainEnds;
    FreeRowsHavePlainEnds(page.rows);
    FreeRowHasPlainEnds(page.cur);
    PlainEndsConcat(RowsCells(page.rows), RowCells(page.cur));
  }

  lemma SameCellsFromPieces(a: seq<Cell>, b: seq<Cell>)
    requires Cut(a, CellEndsLine) == Cut(b, CellEndsLine) && PlainEnds(a) && PlainEnds(b)
    ensures a == b
  {
    CutDetermines(a, b, CellEndsLine);
    hide Cut;
  }

  lemma StyledRowsAreRows(out: seq<Cell>, page: Page)
    requires StyledLinesAreRows(out, page)
    ensures LinesAreRows(out, page)
  {
    hide *;
    LinesAreRowsMeans(out, page);
    CutCharacters(out);
    TextsOfPage(page);
  }

  lemma RowsFromCells(out: seq<Cell>, page: Page)
    requires PlainEnds(out)
    ensures StyledLinesAreRows(out, page) <==> out == PageCells(page) && PageFree(page)
  {
    hide *;
    LinesAreRowsMeans(out, page);
    if StyledLinesAreRows(out, page) {
      StyledRowsAreRows(out, page);
      RowsAreOneLine(out, page);
      CutPage(page);
      FreePageHasPlainEnds(page);
      SameCellsFromPieces(out, PageCells(page));
    }
    if PageFree(page) {
      CutPage(page);
    }
  }
}
