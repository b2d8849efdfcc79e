/**
 * The document nodes, the two things they are projected to, and what either output shows.
 * Escape sequences are pieces that show nothing; colours and attributes are a `Paint`.
 */
module Markdown {
  import opened Text

  datatype Node =
    | HeadingStart(level: nat)
    | HeadingEnd
    | ParagraphStart
    | ParagraphEnd
    | QuoteStart
    | QuoteEnd
    | ListStart
    | ListEnd
    | ItemStart
    | ItemEnd
    | TextRun(text: string, emphasis: bool, strong: bool)
    | InlineCode(text: string)
    | LinkStart(url: string)
    | LinkEnd
    | Image(url: string)
    | TaskMarker(done: bool)
    | Html(text: string)
    | SoftBreak
    | HardBreak
    | Rule
    | CodeBlock(language: string, code: string)
    | Table(rows: seq<seq<string>>)

  datatype Paint =
    Plain | Heading | BoldHeading | Quote | Code | Link | UnderlinedLink | Strong | Emphasis | Muted

  datatype Span = Span(text: string, paint: Paint)

  datatype Piece = Ink(span: Span) | Escape(code: string)

  /** One visible character. */
  datatype Cell = Cell(c: char, paint: Paint)

  const BULLET := "\U{2022} "
  const QUOTE_BAR := "\U{2502} "
  const RULE_LINE := "\U{2500}\U{2500}\U{2500}\U{2500}\U{2500}\U{2500}"
  const CODE_OPEN := "\U{256D}\U{2500} "
  const CODE_CLOSE := "\U{2570}\U{2500}"

  function Repeat(s: string, n: nat): (r: string)
    ensures |r| == |s| * n
  {
    if n == 0 then [] else Repeat(s, n - 1) + s
  }

  // ----- what is shown -----

  function Painted(text: string, paint: Paint): (cells: seq<Cell>)
    ensures |cells| == |text| && forall i :: 0 <= i < |text| ==> cells[i] == Cell(text[i], paint)
  {
    seq(|text|, i requires 0 <= i < |text| => Cell(text[i], paint))
  }

  function Newline(): seq<Cell> { Painted("\n", Plain) }

  function Characters(cells: seq<Cell>): (text: string)
    ensures |text| == |cells| && forall i :: 0 <= i < |text| ==> text[i] == cells[i].c
  {
    seq(|cells|, i requires 0 <= i < |cells| => cells[i].c)
  }

  function PieceCells(p: Piece): seq<Cell> {
    if p.Ink? then Painted(p.span.text, p.span.paint) else []
  }

  /** The characters of the ANSI output, escapes stripped. */
  function Shown(out: seq<Piece>): seq<Cell> {
    if out == [] then [] else Shown(out[..|out| - 1]) + PieceCells(out[|out| - 1])
  }

  function RowCells(row: seq<Span>): seq<Cell> {
    if row == [] then [] else RowCells(row[..|row| - 1]) + Painted(row[|row| - 1].text, row[|row| - 1].paint)
  }

  /** Rows, each ended by a newline. */
  function RowsCells(rows: seq<seq<Span>>): seq<Cell> {
    if rows == [] then [] else RowsCells(rows[..|rows| - 1]) + EndedRow(rows[|rows| - 1])
  }

  function EndedRow(row: seq<Span>): seq<Cell> { RowCells(row) + Newline() }

  lemma RowsCellsLast(rows: seq<seq<Span>>, row: seq<Span>)
    ensures RowsCells(rows + [row]) == RowsCells(rows) + EndedRow(row)
  {
    assert (rows + [row])[..|rows|] == rows;
  }

  lemma RowCellsLast(row: seq<Span>, span: Span)
    ensures RowCells(row + [span]) == RowCells(row) + Painted(span.text, span.paint)
  {
    assert (row + [span])[..|row|] == row;
  }

  lemma {:induction false} RowCellsConcat(a: seq<Span>, b: seq<Span>)
    ensures RowCells(a + b) == RowCells(a) + RowCells(b)
  {
    if b == [] {
      assert a + b == a;
      assert RowCells(a) + [] == RowCells(a);
    } else {
      hide *;
      var init, last := b[..|b| - 1], b[|b| - 1];
      RowCellsConcat(a, init);
      RowCellsLast(a + init, last);
      RowCellsLast(init, last);
      Assoc(a, init, [last]);
      assert init + [last] == b;
      Assoc(RowCells(a), RowCells(init), Painted(last.text, last.paint));
    }
  }

  lemma {:induction false} RowsCellsConcat(a: seq<seq<Span>>, b: seq<seq<Span>>)
    ensures RowsCells(a + b) == RowsCells(a) + RowsCells(b)
  {
    if b == [] {
      assert a + b == a;
      assert RowsCells(a) + [] == RowsCells(a);
    } else {
      hide *;
      var init, last := b[..|b| - 1], b[|b| - 1];
      RowsCellsConcat(a, init);
      RowsCellsLast(a + init, last);
      RowsCellsLast(init, last);
      Assoc(a, init, [last]);
      assert init + [last] == b;
      Assoc(RowsCells(a), RowsCells(init), EndedRow(last));
    }
  }

  // ----- context both projectors keep -----

  datatype Context = Context(links: nat, lists: nat, quoted: bool)

  function HeadingPrefix(level: nat): string {
    if level == 1 then "# " else if level == 2 then "## " else if level == 3 then "### " else "#### "
  }

  function Lowered(n: nat): nat { if n == 0 then 0 else n - 1 }

  function Indent(ctx: Context): string { Repeat("  ", Lowered(ctx.lists)) }

  /** An active link wins, then strong, then emphasis, then the quote colour. */
  function RunPaint(ctx: Context, emphasis: bool, strong: bool): Paint {
    if ctx.links > 0 then UnderlinedLink
    else if strong then Strong
    else if emphasis then Emphasis
    else if ctx.quoted then Quote
    else Plain
  }

  function Entered(ctx: Context, node: Node): Context {
    match node
    case QuoteStart => ctx.(quoted := true)
    case ListStart => ctx.(lists := ctx.lists + 1)
    case ListEnd => ctx.(lists := Lowered(ctx.lists))
    case LinkStart(_) => ctx.(links := ctx.links + 1)
    case LinkEnd => ctx.(links := Lowered(ctx.links))
    case _ => ctx
  }

  // ----- the ANSI projector on values -----

  function Push(out: seq<Piece>, text: string, paint: Paint): (r: seq<Piece>)
    ensures Shown(r) == Shown(out) + Painted(text, paint)
  {
    var r := out + [Ink(Span(text, paint))];
    assert r[..|r| - 1] == out;
    r
  }

  function PushEscape(out: seq<Piece>, code: string): (r: seq<Piece>)
    ensures Shown(r) == Shown(out)
  {
    var r := out + [Escape(code)];
    assert r[..|r| - 1] == out;
    r
  }

  function PushRow(out: seq<Piece>, row: seq<Span>): (r: seq<Piece>)
    ensures Shown(r) == Shown(out) + RowCells(row)
  {
    if row == [] then
      assert Shown(out) + [] == Shown(out);
      out
    else
      Assoc(Shown(out), RowCells(row[..|row| - 1]), Painted(row[|row| - 1].text, row[|row| - 1].paint));
      Push(PushRow(out, row[..|row| - 1]), row[|row| - 1].text, row[|row| - 1].paint)
  }

  function PushEnded(out: seq<Piece>, row: seq<Span>): (r: seq<Piece>)
    ensures Shown(r) == Shown(out) + EndedRow(row)
  {
    Assoc(Shown(out), RowCells(row), Newline());
    Push(PushRow(out, row), "\n", Plain)
  }

  function PushRows(out: seq<Piece>, rows: seq<seq<Span>>): (r: seq<Piece>)
    ensures Shown(r) == Shown(out) + RowsCells(rows)
  {
    if rows == [] then
      assert Shown(out) + [] == Shown(out);
      out
    else
      var init, last := rows[..|rows| - 1], rows[|rows| - 1];
      Assoc(Shown(out), RowsCells(init), EndedRow(last));
      PushEnded(PushRows(out, init), last)
  }

  function PushCode(out: seq<Piece>, language: string, code: string): seq<Piece> {
    if language == [] then Push(Push(out, code, Plain), "\n\n", Plain)
    else
      Push(Push(Push(Push(Push(out, CODE_OPEN + language, Heading), "\n", Plain),
                     code, Plain), CODE_CLOSE, Heading), "\n\n", Plain)
  }

  // ----- the row projector on values -----

  /** Finished rows and the row under construction. */
  datatype Page = Page(rows: seq<seq<Span>>, cur: seq<Span>)

  function PageCells(page: Page): seq<Cell> { RowsCells(page.rows) + RowCells(page.cur) }

  function Break(page: Page): (r: Page)
    ensures PageCells(r) == PageCells(page) + Newline() && r.cur == []
  {
    var r := Page(page.rows + [page.cur], []);
    assert r.rows[..|r.rows| - 1] == page.rows;
    r
  }

  function Add(page: Page, text: string, paint: Paint): (r: Page)
    ensures PageCells(r) == PageCells(page) + Painted(text, paint)
    ensures r.cur == [] <==> page.cur == [] && text == []
  {
    if text == [] then page
    else
      var cur := page.cur + [Span(text, paint)];
      assert cur[..|cur| - 1] == page.cur;
      Page(page.rows, cur)
  }

  function BreakIfBegun(page: Page): (r: Page)
    ensures PageCells(r) == PageCells(page) + (if page.cur == [] then [] else Newline()) && r.cur == []
  {
    if page.cur == [] then page else Break(page)
  }

  function AddRows(page: Page, rows: seq<seq<Span>>): (r: Page)
    requires page.cur == []
    ensures PageCells(r) == PageCells(page) + RowsCells(rows) && r.cur == []
  {
    RowsCellsConcat(page.rows, rows);
    Page(page.rows + rows, [])
  }

  function RawRows(lines: seq<string>): (rows: seq<seq<Span>>)
    ensures |rows| == |lines|
  {
    seq(|lines|, i requires 0 <= i < |lines| => [Span(lines[i], Plain)])
  }

  function AddCode(page: Page, language: string, code: string): (r: Page)
    ensures r.cur == []
  {
    if language == [] then Break(AddRows(BreakIfBegun(page), RawRows(Lines(code))))
    else
      var body := AddRows(BreakIfBegun(Add(page, CODE_OPEN + language, Heading)), RawRows(Lines(code)));
      Break(Break(Add(body, CODE_CLOSE, Heading)))
  }
}
