/** Both renderers draw the same characters; only the padding of the header is styled differently. */
module GridTexts {
  import opened Text
  import opened Markdown
  import opened MarkdownTable
  import opened TableGeometry
  import opened CodeBodies

  ghost predicate SameSpans(a: seq<Span>, b: seq<Span>) {
    |a| == |b| && forall i :: 0 <= i < |a| ==> a[i].text == b[i].text
  }

  ghost predicate SameTexts(a: seq<seq<Span>>, b: seq<seq<Span>>) {
    |a| == |b| && forall i :: 0 <= i < |a| ==> LineText(a[i]) == LineText(b[i])
  }

  lemma {:induction false} SameSpansSameText(a: seq<Span>, b: seq<Span>)
    requires SameSpans(a, b)
    ensures LineText(a) == LineText(b)
    decreases |a|
  {
    if a == [] {
    } else {
      SameSpansSameText(a[..|a| - 1], b[..|b| - 1]);
    }
  }

  lemma {:induction false} RowSpansMatch(m: Metric, cells: seq<string>, widths: seq<nat>, k: nat, header: bool)
    requires k <= |widths|
    ensures SameSpans(RowLine(m, Ansi, cells, widths, k, header), RowLine(m, Tui, cells, widths, k, header))
  {
    hide Width, Padding;
    if k == 0 {
    } else {
      RowSpansMatch(m, cells, widths, k - 1, header);
    }
  }

  lemma RowLinesMatch(m: Metric, rows: seq<seq<string>>, widths: seq<nat>, i: nat)
    requires i < |rows|
    ensures SameTexts(RowLines(m, Ansi, rows, widths, i), RowLines(m, Tui, rows, widths, i))
  {
    RowSpansMatch(m, rows[i], widths, |widths|, i == 0);
    SameSpansSameText(RowLine(m, Ansi, rows[i], widths, |widths|, i == 0),
                      RowLine(m, Tui, rows[i], widths, |widths|, i == 0));
    RuleLineText(Ansi, widths, LEFT_TEE, CROSS, RIGHT_TEE);
    RuleLineText(Tui, widths, LEFT_TEE, CROSS, RIGHT_TEE);
    hide LineText, RowLine, RuleLine, RuleText;
  }

  lemma SameTextsConcat(a: seq<seq<Span>>, b: seq<seq<Span>>, c: seq<seq<Span>>, d: seq<seq<Span>>)
    requires SameTexts(a, b) && SameTexts(c, d)
    ensures SameTexts(a + c, b + d)
  {
    hide LineText;
  }

  lemma {:induction false} BodiesMatch(m: Metric, rows: seq<seq<string>>, widths: seq<nat>, n: nat)
    requires n <= |rows|
    ensures SameTexts(Body(m, Ansi, rows, widths, n), Body(m, Tui, rows, widths, n))
  {
    hide RowLines, LineText;
    if n == 0 {
    } else {
      BodiesMatch(m, rows, widths, n - 1);
      RowLinesMatch(m, rows, widths, n - 1);
      SameTextsConcat(Body(m, Ansi, rows, widths, n - 1), Body(m, Tui, rows, widths, n - 1),
                      RowLines(m, Ansi, rows, widths, n - 1), RowLines(m, Tui, rows, widths, n - 1));
    }
  }

  lemma RulesMatch(widths: seq<nat>, left: string, mid: string, right: string)
    ensures SameTexts([RuleLine(Ansi, widths, left, mid, right)], [RuleLine(Tui, widths, left, mid, right)])
  {
    RuleLineText(Ansi, widths, left, mid, right);
    RuleLineText(Tui, widths, left, mid, right);
    hide LineText, RuleLine, RuleText;
  }

  lemma GridsMatch(m: Metric, rows: seq<seq<string>>)
    ensures SameTexts(Grid(m, Ansi, rows), Grid(m, Tui, rows))
  {
    hide SameTexts, Body, RuleLine, LineText, Columns;
    var widths := Widths(m, rows, Columns(rows));
    if Drawn(rows) {
      RulesMatch(widths, TOP_LEFT, TOP_TEE, TOP_RIGHT);
      RulesMatch(widths, BOTTOM_LEFT, BOTTOM_TEE, BOTTOM_RIGHT);
      BodiesMatch(m, rows, widths, |rows|);
      var topA, topT := [RuleLine(Ansi, widths, TOP_LEFT, TOP_TEE, TOP_RIGHT)],
                        [RuleLine(Tui, widths, TOP_LEFT, TOP_TEE, TOP_RIGHT)];
      SameTextsConcat(topA, topT, Body(m, Ansi, rows, widths, |rows|), Body(m, Tui, rows, widths, |rows|));
      SameTextsConcat(topA + Body(m, Ansi, rows, widths, |rows|), topT + Body(m, Tui, rows, widths, |rows|),
                      [RuleLine(Ansi, widths, BOTTOM_LEFT, BOTTOM_TEE, BOTTOM_RIGHT)],
                      [RuleLine(Tui, widths, BOTTOM_LEFT, BOTTOM_TEE, BOTTOM_RIGHT)]);
    } else {
      NothingMatches();
    }
  }

  lemma NothingMatches()
    ensures SameTexts([], [])
  {
  }

  lemma {:induction false} RowCharacters(line: seq<Span>)
    ensures Characters(RowCells(line)) == LineText(line)
  {
    if line == [] {
    } else {
      var init, last := line[..|line| - 1], line[|line| - 1];
      RowCharacters(init);
      CharactersConcat(RowCells(init), Painted(last.text, last.paint));
      CharactersOfPainted(last.text, last.paint);
    }
  }

  lemma {:induction false} SameTextsSameCharacters(a: seq<seq<Span>>, b: seq<seq<Span>>)
    requires SameTexts(a, b)
    ensures Characters(RowsCells(a)) == Characters(RowsCells(b))
    decreases |a|
  {
    if a == [] {
    } else {
      var x, y := a[|a| - 1], b[|b| - 1];
      SameTextsSameCharacters(a[..|a| - 1], b[..|b| - 1]);
      RowCharacters(x);
      RowCharacters(y);
      CharactersConcat(RowCells(x), Newline());
      CharactersConcat(RowCells(y), Newline());
      CharactersConcat(RowsCells(a[..|a| - 1]), EndedRow(x));
      CharactersConcat(RowsCells(b[..|b| - 1]), EndedRow(y));
      hide Characters, RowCells, LineText, Newline;
    }
  }

  /** The two grids show the same characters. */
  lemma GridsShowTheSame(m: Metric, rows: seq<seq<string>>)
    ensures Characters(RowsCells(Grid(m, Ansi, rows))) == Characters(RowsCells(Grid(m, Tui, rows)))
  {
    hide *;
    GridsMatch(m, rows);
    SameTextsSameCharacters(Grid(m, Ansi, rows), Grid(m, Tui, rows));
  }

  // ----- the header padding -----

  lemma {:induction false} SecondCell(m: Metric, b: Backend, cells: seq<string>, widths: seq<nat>, k: nat, header: bool)
    requires 0 < k <= |widths|
    ensures var row := RowCells(RowLine(m, b, cells, widths, k, header));
            |row| >= 2 && row[1] == Cell(' ', PadPaint(b, header))
  {
    hide RowCells, PadPaint;
    var before, more := RowLine(m, b, cells, widths, k - 1, header),
                        CellSpans(m, b, CellAt(cells, k - 1), widths[k - 1], header);
    RowCellsConcat(before, more);
    if k == 1 {
      var pad := Span(" ", PadPaint(b, header));
      assert more == [pad] + more[1..];
      RowCellsConcat([pad], more[1..]);
      OneSpan(pad);
      OneSpan(Span(BAR, Muted));
    } else {
      SecondCell(m, b, cells, widths, k - 1, header);
    }
  }

  lemma OneSpan(span: Span)
    ensures RowCells([span]) == Painted(span.text, span.paint)
  {
    assert [span][..0] == [];
    assert RowCells([]) + Painted(span.text, span.paint) == Painted(span.text, span.paint);
  }

  lemma OneRow(row: seq<Span>)
    ensures RowsCells([row]) == EndedRow(row)
  {
    assert [row][..0] == [];
    assert RowsCells([]) + EndedRow(row) == EndedRow(row);
  }

  lemma {:induction false} BodyStarts(m: Metric, b: Backend, rows: seq<seq<string>>, widths: seq<nat>, n: nat)
      returns (rest: seq<seq<Span>>)
    requires 0 < n <= |rows|
    ensures Body(m, b, rows, widths, n) == [RowLine(m, b, rows[0], widths, |widths|, true)] + rest
  {
    hide RowLine, RuleLine;
    if n == 1 {
      rest := RowLines(m, b, rows, widths, 0)[1..];
    } else {
      rest := BodyStarts(m, b, rows, widths, n - 1);
      hide RowLines, Body;
      Assoc([RowLine(m, b, rows[0], widths, |widths|, true)], rest, RowLines(m, b, rows, widths, n - 1));
      rest := rest + RowLines(m, b, rows, widths, n - 1);
      BodyNext(m, b, rows, widths, n);
    }
  }

  lemma BodyNext(m: Metric, b: Backend, rows: seq<seq<string>>, widths: seq<nat>, n: nat)
    requires 0 < n <= |rows|
    ensures Body(m, b, rows, widths, n) == Body(m, b, rows, widths, n - 1) + RowLines(m, b, rows, widths, n - 1)
  {
  }

  /** Behind the top rule and the first bar comes the padding of the header. */
  lemma PaddingInGrid(m: Metric, b: Backend, rows: seq<seq<string>>) returns (at: nat)
    requires Drawn(rows) && rows != []
    ensures at == |RuleText(Widths(m, rows, Columns(rows)), Columns(rows), TOP_LEFT, TOP_TEE)| + |TOP_RIGHT| + 2
    ensures var cells := RowsCells(Grid(m, b, rows));
            at < |cells| && cells[at] == Cell(' ', PadPaint(b, true))
  {
    var widths := Widths(m, rows, Columns(rows));
    var top := RuleLine(b, widths, TOP_LEFT, TOP_TEE, TOP_RIGHT);
    var bottom := [RuleLine(b, widths, BOTTOM_LEFT, BOTTOM_TEE, BOTTOM_RIGHT)];
    var rest := BodyStarts(m, b, rows, widths, |rows|);
    var header := RowLine(m, b, rows[0], widths, |widths|, true);
    SecondCell(m, b, rows[0], widths, |widths|, true);
    RuleLineText(b, widths, TOP_LEFT, TOP_TEE, TOP_RIGHT);
    RowCharacters(top);
    hide RowsCells, RowCells, RowLine, RuleLine, RuleText, LineText, Body, Columns, PadPaint;
    RowsCellsConcat([top] + ([header] + rest), bottom);
    RowsCellsConcat([top], [header] + rest);
    RowsCellsConcat([header], rest);
    OneRow(top);
    OneRow(header);
    at := |EndedRow(top)| + 1;
  }

  lemma GridsDifferInStyle(m: Metric, rows: seq<seq<string>>)
    requires Drawn(rows) && rows != []
    ensures RowsCells(Grid(m, Ansi, rows)) != RowsCells(Grid(m, Tui, rows))
  {
    hide RowsCells, Grid;
    var a := PaddingInGrid(m, Ansi, rows);
    var t := PaddingInGrid(m, Tui, rows);
  }
}
