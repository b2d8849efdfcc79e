/** Table grids: column widths, rules and rows for both outputs, and their geometry. */
module MarkdownTable {
  import opened Text
  import opened Markdown

  const TOP_LEFT := "\U{250C}"
  const TOP_TEE := "\U{252C}"
  const TOP_RIGHT := "\U{2510}"
  const LEFT_TEE := "\U{251C}"
  const CROSS := "\U{253C}"
  const RIGHT_TEE := "\U{2524}"
  const BOTTOM_LEFT := "\U{2514}"
  const BOTTOM_TEE := "\U{2534}"
  const BOTTOM_RIGHT := "\U{2518}"
  const EDGE := "\U{2500}"
  const BAR := "\U{2502}"

  /** Display widths of the characters that are not one column wide. */
  type Metric = map<char, nat>

  function CharWidth(m: Metric, c: char): nat { if c in m then m[c] else 1 }

  function Width(m: Metric, s: string): nat {
    if s == [] then 0 else Width(m, s[..|s| - 1]) + CharWidth(m, s[|s| - 1])
  }

  function Columns(rows: seq<seq<string>>): nat {
    if rows == [] then 0 else Max(Columns(rows[..|rows| - 1]), |rows[|rows| - 1]|)
  }

  /** The widest cell of a column; missing cells count as empty. */
  function Widest(m: Metric, rows: seq<seq<string>>, col: nat): nat {
    if rows == [] then 0 else Max(Widest(m, rows[..|rows| - 1], col), CellWidth(m, rows[|rows| - 1], col))
  }

  function CellAt(row: seq<string>, col: nat): string { if col < |row| then row[col] else "" }

  function CellWidth(m: Metric, row: seq<string>, col: nat): nat { Width(m, CellAt(row, col)) }

  function Widths(m: Metric, rows: seq<seq<string>>, cols: nat): (widths: seq<nat>)
    ensures |widths| == cols && forall i :: 0 <= i < cols ==> widths[i] == Widest(m, rows, i)
  {
    seq(cols, i requires 0 <= i < cols => Widest(m, rows, i))
  }

  lemma WidestLast(m: Metric, rows: seq<seq<string>>, r: nat, col: nat)
    requires r < |rows|
    ensures Widest(m, rows[..r + 1], col) == Max(Widest(m, rows[..r], col), CellWidth(m, rows[r], col))
  {
    assert rows[..r + 1][..r] == rows[..r];
  }

  /** The width table the renderers fill row by row. */
  method ColumnWidths(m: Metric, rows: seq<seq<string>>, cols: nat) returns (filled: seq<nat>)
    ensures filled == Widths(m, rows, cols)
  {
    hide *;
    var widths := new nat[cols](_ => 0);
    NoneWidest(m, cols, rows);
    for r := 0 to |rows|
      invariant forall i :: 0 <= i < cols ==> widths[i] == Widest(m, rows[..r], i)
    {
      FillRow(m, rows, r, widths);
    }
    assert rows[..|rows|] == rows;
    filled := widths[..];
  }

  lemma NoneWidest(m: Metric, cols: nat, rows: seq<seq<string>>)
    ensures forall i :: 0 <= i < cols ==> Widest(m, rows[..0], i) == 0
  {
  }

  method FillRow(m: Metric, rows: seq<seq<string>>, r: nat, widths: array<nat>)
    requires r < |rows|
    requires forall i :: 0 <= i < widths.Length ==> widths[i] == Widest(m, rows[..r], i)
    modifies widths
    ensures forall i :: 0 <= i < widths.Length ==> widths[i] == Widest(m, rows[..r + 1], i)
  {
    hide Widest, Width;
    var row := rows[r];
    for index := 0 to |row|
      invariant forall i :: 0 <= i < widths.Length ==>
        widths[i] == if i < index then Max(Widest(m, rows[..r], i), CellWidth(m, row, i)) else Widest(m, rows[..r], i)
    {
      if index < widths.Length {
        widths[index] := Max(widths[index], Width(m, row[index]));
      }
    }
    forall i | 0 <= i < widths.Length
      ensures widths[i] == Widest(m, rows[..r + 1], i)
    {
      WidestLast(m, rows, r, i);
      EmptyHasNoWidth(m);
    }
  }

  lemma EmptyHasNoWidth(m: Metric)
    ensures Width(m, "") == 0
  {
  }

  // ----- lines of the grid -----

  datatype Backend = Ansi | Tui

  /** A rule up to column `k`, its right end missing. */
  function RuleText(widths: seq<nat>, k: nat, left: string, mid: string): string
    requires k <= |widths|
  {
    if k == 0 then left
    else RuleText(widths, k - 1, left, mid) + ((if k > 1 then mid else "") + Repeat(EDGE, widths[k - 1] + 2))
  }

  /** The same in separately coloured pieces. */
  function RuleSpans(widths: seq<nat>, k: nat, left: string, mid: string): seq<Span>
    requires k <= |widths|
  {
    if k == 0 then [Span(left, Muted)]
    else
      RuleSpans(widths, k - 1, left, mid)
      + ((if k > 1 then [Span(mid, Muted)] else []) + [Span(Repeat(EDGE, widths[k - 1] + 2), Muted)])
  }

  function RuleLine(b: Backend, widths: seq<nat>, left: string, mid: string, right: string): seq<Span> {
    if b.Tui? then [Span(RuleText(widths, |widths|, left, mid) + right, Muted)]
    else RuleSpans(widths, |widths|, left, mid) + [Span(right, Muted)]
  }

  function Padding(m: Metric, width: nat, cell: string): nat {
    if width < Width(m, cell) then 0 else width - Width(m, cell)
  }

  /** Header padding takes the header style only in the row output. */
  function PadPaint(b: Backend, header: bool): Paint {
    if header && b.Tui? then BoldHeading else Plain
  }

  function CellSpans(m: Metric, b: Backend, cell: string, width: nat, header: bool): seq<Span> {
    [Span(" ", PadPaint(b, header)),
     Span(cell, if header then BoldHeading else Plain),
     Span(Repeat(" ", Padding(m, width, cell) + 1), PadPaint(b, header)),
     Span(BAR, Muted)]
  }

  /** The first `k` columns of a row. */
  function RowLine(m: Metric, b: Backend, cells: seq<string>, widths: seq<nat>, k: nat, header: bool): seq<Span>
    requires k <= |widths|
  {
    if k == 0 then [Span(BAR, Muted)]
    else
      RowLine(m, b, cells, widths, k - 1, header)
      + CellSpans(m, b, CellAt(cells, k - 1), widths[k - 1], header)
  }

  /** The lines of one row, with a rule behind a header that is not alone. */
  function RowLines(m: Metric, b: Backend, rows: seq<seq<string>>, widths: seq<nat>, i: nat): seq<seq<Span>>
    requires i < |rows|
  {
    [RowLine(m, b, rows[i], widths, |widths|, i == 0)]
    + (if i == 0 && |rows| > 1 then [RuleLine(b, widths, LEFT_TEE, CROSS, RIGHT_TEE)] else [])
  }

  function Body(m: Metric, b: Backend, rows: seq<seq<string>>, widths: seq<nat>, n: nat): seq<seq<Span>>
    requires n <= |rows|
  {
    if n == 0 then [] else Body(m, b, rows, widths, n - 1) + RowLines(m, b, rows, widths, n - 1)
  }

  predicate Drawn(rows: seq<seq<string>>) { Columns(rows) > 0 }

  function Grid(m: Metric, b: Backend, rows: seq<seq<string>>): seq<seq<Span>> {
    if !Drawn(rows) then []
    else
      var widths := Widths(m, rows, Columns(rows));
      [RuleLine(b, widths, TOP_LEFT, TOP_TEE, TOP_RIGHT)] + Body(m, b, rows, widths, |rows|)
      + [RuleLine(b, widths, BOTTOM_LEFT, BOTTOM_TEE, BOTTOM_RIGHT)]
  }

  method TableRuleAnsi(widths: seq<nat>, left: string, mid: string, right: string) returns (line: seq<Span>)
    ensures line == RuleLine(Ansi, widths, left, mid, right)
  {
    line := [Span(left, Muted)];
    for index := 0 to |widths|
      invariant line == RuleSpans(widths, index, left, mid)
    {
      ghost var before := line;
      if index > 0 {
        line := line + [Span(mid, Muted)];
      }
      line := line + [Span(Repeat(EDGE, widths[index] + 2), Muted)];
      assert line == before
        + ((if index > 0 then [Span(mid, Muted)] else []) + [Span(Repeat(EDGE, widths[index] + 2), Muted)]);
    }
    line := line + [Span(right, Muted)];
  }

  method TableRuleTui(widths: seq<nat>, left: string, mid: string, right: string) returns (line: seq<Span>)
    ensures line == RuleLine(Tui, widths, left, mid, right)
  {
    var text := left;
    for index := 0 to |widths|
      invariant text == RuleText(widths, index, left, mid)
    {
      ghost var before := text;
      if index > 0 {
        text := text + mid;
      }
      text := text + Repeat(EDGE, widths[index] + 2);
      assert text == before + ((if index > 0 then mid else "") + Repeat(EDGE, widths[index] + 2));
    }
    line := [Span(text + right, Muted)];
  }

  method TableRow(m: Metric, b: Backend, cells: seq<string>, widths: seq<nat>, header: bool)
      returns (line: seq<Span>)
    ensures line == RowLine(m, b, cells, widths, |widths|, header)
  {
    line := [Span(BAR, Muted)];
    for index := 0 to |widths|
      invariant line == RowLine(m, b, cells, widths, index, header)
    {
      var cell := if index < |cells| then cells[index] else "";
      line := line + CellSpans(m, b, cell, widths[index], header);
    }
  }

  method TableRule(b: Backend, widths: seq<nat>, left: string, mid: string, right: string)
      returns (line: seq<Span>)
    ensures line == RuleLine(b, widths, left, mid, right)
  {
    if b.Ansi? {
      line := TableRuleAnsi(widths, left, mid, right);
    } else {
      line := TableRuleTui(widths, left, mid, right);
    }
  }

  method RenderRow(m: Metric, b: Backend, rows: seq<seq<string>>, widths: seq<nat>, index: nat)
      returns (lines: seq<seq<Span>>)
    requires index < |rows|
    ensures lines == RowLines(m, b, rows, widths, index)
  {
    hide RuleLine, RowLine;
    var last := |rows| - 1;
    var line := TableRow(m, b, rows[index], widths, index == 0);
    lines := [line];
    if index == 0 && last > 0 {
      line := TableRule(b, widths, LEFT_TEE, CROSS, RIGHT_TEE);
      lines := lines + [line];
    }
  }

  method RenderBody(m: Metric, b: Backend, rows: seq<seq<string>>, widths: seq<nat>) returns (lines: seq<seq<Span>>)
    ensures lines == Body(m, b, rows, widths, |rows|)
  {
    hide RowLines;
    lines := [];
    for index := 0 to |rows|
      invariant lines == Body(m, b, rows, widths, index)
    {
      var more := RenderRow(m, b, rows, widths, index);
      lines := lines + more;
    }
  }

  /** The lines either renderer draws; no rows or no columns draw nothing. */
  method RenderTable(m: Metric, b: Backend, rows: seq<seq<string>>) returns (lines: seq<seq<Span>>)
    ensures lines == Grid(m, b, rows)
  {
    hide Columns, Widths, RuleLine, Body;
    var cols := Columns(rows);
    NoRowsNoColumns(rows);
    if rows == [] || cols == 0 {
      return [];
    }
    var widths := ColumnWidths(m, rows, cols);
    var top := TableRule(b, widths, TOP_LEFT, TOP_TEE, TOP_RIGHT);
    var body := RenderBody(m, b, rows, widths);
    var bottom := TableRule(b, widths, BOTTOM_LEFT, BOTTOM_TEE, BOTTOM_RIGHT);
    lines := [top] + body + [bottom];
  }

  lemma NoRowsNoColumns(rows: seq<seq<string>>)
    ensures rows == [] ==> Columns(rows) == 0
  {
  }
}
