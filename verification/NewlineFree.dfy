/** Which nodes put a newline into a row. */
module NewlineFree {
  import opened Text
  import opened Markdown
  import opened MarkdownTable
  import opened MarkdownProject
  import opened TableGeometry
  import opened CodeBodies
  import opened GridTexts
  import opened LineCuts
  import opened MarkdownRows

  /** No newline in a text run, inline code, HTML, an image address, a code label or a table cell. */
  predicate LineFree(node: Node) {
    match node
    case TextRun(text, _, _) => OneLine(text)
    case InlineCode(text) => OneLine(text)
    case Html(text) => OneLine(text)
    case Image(url) => OneLine(url)
    case CodeBlock(language, _) => OneLine(language)
    case Table(rows) => TableFree(rows)
    case _ => true
  }

  predicate TableFree(rows: seq<seq<string>>) { forall i :: 0 <= i < |rows| ==> CellsFree(rows[i]) }

  predicate CellsFree(cells: seq<string>) { forall i :: 0 <= i < |cells| ==> OneLine(cells[i]) }

  lemma {:induction false} RepeatIsOneLine(s: string, n: nat)
    requires OneLine(s)
    ensures OneLine(Repeat(s, n))
  {
    if n == 0 {
    } else {
      RepeatIsOneLine(s, n - 1);
      OneLineConcat(Repeat(s, n - 1), s);
    }
  }

  lemma {:induction false} RuleIsOneLine(widths: seq<nat>, k: nat, left: string, mid: string)
    requires k <= |widths| && OneLine(left) && OneLine(mid)
    ensures OneLine(RuleText(widths, k, left, mid))
  {
    if k == 0 {
    } else {
      RuleIsOneLine(widths, k - 1, left, mid);
      RepeatIsOneLine(EDGE, widths[k - 1] + 2);
      hide OneLine, Repeat;
      var joint, edge := if k > 1 then mid else "", Repeat(EDGE, widths[k - 1] + 2);
      assert OneLine("") by { NothingIsOneLine(); }
      OneLineConcat(joint, edge);
      OneLineConcat(RuleText(widths, k - 1, left, mid), joint + edge);
    }
  }

  lemma NothingIsOneLine()
    ensures OneLine("") && OneLine(" ") && OneLine(EDGE) && OneLine(BAR)
  {
  }

  lemma RuleIsFree(b: Backend, widths: seq<nat>, left: string, mid: string, right: string)
    requires OneLine(left) && OneLine(mid) && OneLine(right)
    ensures RowFree(RuleLine(b, widths, left, mid, right))
  {
    hide *;
    RuleLineText(b, widths, left, mid, right);
    RuleIsOneLine(widths, |widths|, left, mid);
    OneLineConcat(RuleText(widths, |widths|, left, mid), right);
    RowFreeText(RuleLine(b, widths, left, mid, right));
  }

  lemma RowFreeConcat(a: seq<Span>, b: seq<Span>)
    ensures RowFree(a + b) <==> RowFree(a) && RowFree(b)
  {
    hide OneLine;
    assert forall i :: 0 <= i < |a| ==> a[i] == (a + b)[i];
    assert forall i :: 0 <= i < |b| ==> b[i] == (a + b)[|a| + i];
  }

  lemma RowsFreeConcat(a: seq<seq<Span>>, b: seq<seq<Span>>)
    ensures RowsFree(a + b) <==> RowsFree(a) && RowsFree(b)
  {
    hide RowFree;
    assert forall i :: 0 <= i < |a| ==> a[i] == (a + b)[i];
    assert forall i :: 0 <= i < |b| ==> b[i] == (a + b)[|a| + i];
  }

  lemma CellSpansFree(m: Metric, b: Backend, cell: string, width: nat, header: bool)
    ensures RowFree(CellSpans(m, b, cell, width, header)) <==> OneLine(cell)
  {
    NothingIsOneLine();
    RepeatIsOneLine(" ", Padding(m, width, cell) + 1);
    hide Padding, Repeat, PadPaint, OneLine;
    var spans := CellSpans(m, b, cell, width, header);
    assert spans[1].text == cell;
  }

  lemma {:induction false} RowLineFree(
      m: Metric, b: Backend, cells: seq<string>, widths: seq<nat>, k: nat, header: bool)
    requires k <= |widths|
    ensures RowFree(RowLine(m, b, cells, widths, k, header)) <==> forall j :: 0 <= j < k ==> OneLine(CellAt(cells, j))
  {
    if k == 0 {
      NothingIsOneLine();
      hide OneLine;
    } else {
      hide OneLine, CellSpans, CellAt, RowFree;
      RowLineFree(m, b, cells, widths, k - 1, header);
      CellSpansFree(m, b, CellAt(cells, k - 1), widths[k - 1], header);
      RowFreeConcat(RowLine(m, b, cells, widths, k - 1, header),
                    CellSpans(m, b, CellAt(cells, k - 1), widths[k - 1], header));
    }
  }

  lemma WholeRowFree(m: Metric, b: Backend, cells: seq<string>, widths: seq<nat>, header: bool)
    requires |cells| <= |widths|
    ensures RowFree(RowLine(m, b, cells, widths, |widths|, header)) <==> CellsFree(cells)
  {
    hide RowLine, RowFree, OneLine;
    RowLineFree(m, b, cells, widths, |widths|, header);
    NothingIsOneLine();
    forall j | 0 <= j < |cells| ensures CellAt(cells, j) == cells[j] {}
  }

  lemma OneRowFree(row: seq<Span>)
    ensures RowsFree([row]) <==> RowFree(row)
  {
    hide RowFree;
    assert [row][0] == row;
  }

  lemma RowLinesFree(m: Metric, b: Backend, rows: seq<seq<string>>, widths: seq<nat>, i: nat)
    requires i < |rows| && |rows[i]| <= |widths|
    ensures RowsFree(RowLines(m, b, rows, widths, i)) <==> CellsFree(rows[i])
  {
    hide RowLine, RuleLine, RowsFree, CellsFree, RowFree;
    var row, rule := RowLine(m, b, rows[i], widths, |widths|, i == 0), RuleLine(b, widths, LEFT_TEE, CROSS, RIGHT_TEE);
    WholeRowFree(m, b, rows[i], widths, i == 0);
    RuleIsFree(b, widths, LEFT_TEE, CROSS, RIGHT_TEE);
    OneRowFree(row);
    OneRowFree(rule);
    RowsFreeConcat([row], [rule]);
    assert [row] + [] == [row];
  }

  lemma {:induction false} BodyFree(m: Metric, b: Backend, rows: seq<seq<string>>, widths: seq<nat>, n: nat)
    requires n <= |rows| && forall i :: 0 <= i < |rows| ==> |rows[i]| <= |widths|
    ensures RowsFree(Body(m, b, rows, widths, n)) <==> forall i :: 0 <= i < n ==> CellsFree(rows[i])
  {
    if n == 0 {
    } else {
      hide RowLines, CellsFree, RowsFree;
      BodyFree(m, b, rows, widths, n - 1);
      RowLinesFree(m, b, rows, widths, n - 1);
      RowsFreeConcat(Body(m, b, rows, widths, n - 1), RowLines(m, b, rows, widths, n - 1));
    }
  }

  lemma UndrawnIsFree(rows: seq<seq<string>>)
    requires !Drawn(rows)
    ensures TableFree(rows)
  {
    ColumnsAreReached(rows);
  }

  lemma GridFree(m: Metric, b: Backend, rows: seq<seq<string>>)
    ensures RowsFree(Grid(m, b, rows)) <==> TableFree(rows)
  {
    if Drawn(rows) {
      hide RuleLine, Body, Columns, RowsFree, CellsFree, RowFree;
      var widths := Widths(m, rows, Columns(rows));
      var top := RuleLine(b, widths, TOP_LEFT, TOP_TEE, TOP_RIGHT);
      var bottom := RuleLine(b, widths, BOTTOM_LEFT, BOTTOM_TEE, BOTTOM_RIGHT);
      var body := Body(m, b, rows, widths, |rows|);
      ColumnsAreReached(rows);
      BodyFree(m, b, rows, widths, |rows|);
      RuleIsFree(b, widths, TOP_LEFT, TOP_TEE, TOP_RIGHT);
      RuleIsFree(b, widths, BOTTOM_LEFT, BOTTOM_TEE, BOTTOM_RIGHT);
      OneRowFree(top);
      OneRowFree(bottom);
      RowsFreeConcat([top] + body, [bottom]);
      RowsFreeConcat([top], body);
    } else {
      UndrawnIsFree(rows);
    }
  }

  // ----- one node -----

  lemma BreakFree(page: Page)
    ensures PageFree(Break(page)) <==> PageFree(page)
    ensures PageFree(BreakIfBegun(page)) <==> PageFree(page)
  {
    hide PageCells, RowFree;
    var r := page.rows + [page.cur];
    OneRowFree(page.cur);
    RowsFreeConcat(page.rows, [page.cur]);
    assert RowFree([]) by { EmptyRowFree(); }
    hide RowsFree;
  }

  lemma EmptyRowFree()
    ensures RowFree([])
  {
  }

  lemma AddFree(page: Page, text: string, paint: Paint)
    ensures PageFree(Add(page, text, paint)) <==> PageFree(page) && OneLine(text)
  {
    hide PageCells, RowsFree;
    RowFreeLast(page.cur, Span(text, paint));
    hide RowFree;
  }

  lemma AddRowsFree(page: Page, rows: seq<seq<Span>>)
    requires page.cur == []
    ensures PageFree(AddRows(page, rows)) <==> PageFree(page) && RowsFree(rows)
  {
    hide PageCells, RowFree;
    RowsFreeConcat(page.rows, rows);
    hide RowsFree;
  }

  lemma RawRowsAreFree(code: string)
    ensures RowsFree(RawRows(Lines(code)))
  {
    LinesAreNewlineFree(code);
    hide Lines;
  }

  lemma AddCodeFree(page: Page, language: string, code: string)
    ensures PageFree(AddCode(page, language, code)) <==> PageFree(page) && OneLine(language)
  {
    hide Add, AddRows, Break, BreakIfBegun, RawRows, Lines, PageFree, OneLine, RowsFree;
    var rows := RawRows(Lines(code));
    RawRowsAreFree(code);
    if language == [] {
      NothingIsOneLine();
      BreakFree(page);
      AddRowsFree(BreakIfBegun(page), rows);
      BreakFree(AddRows(BreakIfBegun(page), rows));
    } else {
      var open := Add(page, CODE_OPEN + language, Heading);
      var body := AddRows(BreakIfBegun(open), rows);
      var closed := Add(body, CODE_CLOSE, Heading);
      GlyphsAreOneLine();
      OneLineConcat(CODE_OPEN, language);
      AddFree(page, CODE_OPEN + language, Heading);
      BreakFree(open);
      AddRowsFree(BreakIfBegun(open), rows);
      AddFree(body, CODE_CLOSE, Heading);
      BreakFree(closed);
      BreakFree(Break(closed));
    }
  }

  lemma GlyphsAreOneLine()
    ensures OneLine(BULLET) && OneLine(QUOTE_BAR) && OneLine(RULE_LINE) && OneLine(CODE_OPEN) && OneLine(CODE_CLOSE)
    ensures OneLine("`") && OneLine("[image:") && OneLine("]")
    ensures forall done :: OneLine(TaskText(done))
    ensures forall level :: OneLine(HeadingPrefix(level))
  {
  }

  lemma IndentIsOneLine(ctx: Context)
    ensures OneLine(Indent(ctx) + BULLET)
  {
    GlyphsAreOneLine();
    RepeatIsOneLine("  ", Lowered(ctx.lists));
    OneLineConcat(Indent(ctx), BULLET);
  }

  lemma CodeTextFree(text: string)
    ensures OneLine("`" + text + "`") <==> OneLine(text)
  {
    GlyphsAreOneLine();
    OneLineConcat("`" + text, "`");
    OneLineConcat("`", text);
  }

  lemma ImageTextFree(url: string)
    ensures OneLine(ImageText(url)) <==> OneLine(url)
  {
    GlyphsAreOneLine();
    OneLineConcat("[image:" + url, "]");
    OneLineConcat("[image:", url);
  }

  /** A page stays free of newlines exactly if the next node is. */
  lemma EmitFree(m: Metric, page: Page, ctx: Context, node: Node)
    ensures PageFree(EmitNode(m, page, ctx, node)) <==> PageFree(page) && LineFree(node)
  {
    hide Add, AddCode, AddRows, Break, BreakIfBegun, Grid, PageFree, OneLine, TableFree, RowsFree;
    hide Indent, HeadingPrefix, TaskText, ImageText, RunPaint;
    GlyphsAreOneLine();
    match node
    case HeadingStart(level) =>
      BreakFree(page);
      AddFree(Break(page), HeadingPrefix(level), BoldHeading);
    case HeadingEnd =>
      BreakFree(page);
      BreakFree(Break(page));
    case ParagraphEnd =>
      BreakFree(page);
      BreakFree(Break(page));
    case QuoteStart => AddFree(page, QUOTE_BAR, Quote);
    case ItemStart =>
      IndentIsOneLine(ctx);
      AddFree(page, Indent(ctx) + BULLET, Plain);
    case TextRun(text, emphasis, strong) => AddFree(page, text, RunPaint(ctx, emphasis, strong));
    case InlineCode(text) =>
      CodeTextFree(text);
      AddFree(page, "`" + text + "`", Code);
    case Image(url) =>
      ImageTextFree(url);
      AddFree(page, ImageText(url), UnderlinedLink);
    case TaskMarker(done) => AddFree(page, TaskText(done), Plain);
    case Html(text) => AddFree(page, text, Plain);
    case Rule =>
      AddFree(page, RULE_LINE, Muted);
      BreakFree(Add(page, RULE_LINE, Muted));
    case CodeBlock(language, code) => AddCodeFree(page, language, code);
    case Table(rows) =>
      GridFree(m, Tui, rows);
      BreakFree(page);
      AddRowsFree(BreakIfBegun(page), Grid(m, Tui, rows));
      BreakFree(AddRows(BreakIfBegun(page), Grid(m, Tui, rows)));
    case _ => BreakFree(page);
  }
}
