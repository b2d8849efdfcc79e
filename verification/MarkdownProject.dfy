/** The two projectors: one pass over the nodes appending to a stream, or to rows of spans. */
module MarkdownProject {
  import opened Text
  import opened Markdown
  import opened MarkdownTable

  // ----- one node, on values -----

  function ImageText(url: string): string { "[image:" + url + "]" }

  function TaskText(done: bool): string { if done then "[x] " else "[ ] " }

  function WriteNode(m: Metric, out: seq<Piece>, ctx: Context, node: Node): seq<Piece> {
    match node
    case HeadingStart(level) => Push(Push(out, "\n", Plain), HeadingPrefix(level), BoldHeading)
    case HeadingEnd => Push(out, "\n\n", Plain)
    case ParagraphStart => out
    case ParagraphEnd => Push(out, "\n\n", Plain)
    case QuoteStart => Push(out, QUOTE_BAR, Quote)
    case QuoteEnd => Push(out, "\n", Plain)
    case ListStart => out
    case ListEnd => Push(out, "\n", Plain)
    case ItemStart => Push(Push(out, Indent(ctx), Plain), BULLET, Plain)
    case ItemEnd => Push(out, "\n", Plain)
    case TextRun(text, emphasis, strong) => Push(out, text, RunPaint(ctx, emphasis, strong))
    case InlineCode(text) => Push(out, "`" + text + "`", Code)
    case LinkStart(url) => PushEscape(PushEscape(PushEscape(out, "\U{1b}]8;;"), url), "\U{7}")
    case LinkEnd => PushEscape(out, "\U{1b}[0m\U{1b}]8;;\U{7}")
    case Image(url) => Push(out, ImageText(url), Link)
    case TaskMarker(done) => Push(out, TaskText(done), Plain)
    case Html(text) => Push(out, text, Plain)
    case SoftBreak => Push(out, "\n", Plain)
    case HardBreak => Push(out, "\n", Plain)
    case Rule => Push(out, RULE_LINE + "\n", Plain)
    case CodeBlock(language, code) => PushCode(out, language, code)
    case Table(rows) =>
      if Drawn(rows) then Push(PushRows(Push(out, "\n", Plain), Grid(m, Ansi, rows)), "\n", Plain) else out
  }

  function EmitNode(m: Metric, page: Page, ctx: Context, node: Node): Page {
    match node
    case HeadingStart(level) => Add(Break(page), HeadingPrefix(level), BoldHeading)
    case HeadingEnd => Break(Break(page))
    case ParagraphStart => page
    case ParagraphEnd => Break(Break(page))
    case QuoteStart => Add(page, QUOTE_BAR, Quote)
    case QuoteEnd => Break(page)
    case ListStart => page
    case ListEnd => Break(page)
    case ItemStart => Add(page, Indent(ctx) + BULLET, Plain)
    case ItemEnd => Break(page)
    case TextRun(text, emphasis, strong) => Add(page, text, RunPaint(ctx, emphasis, strong))
    case InlineCode(text) => Add(page, "`" + text + "`", Code)
    case LinkStart(_) => page
    case LinkEnd => page
    case Image(url) => Add(page, ImageText(url), UnderlinedLink)
    case TaskMarker(done) => Add(page, TaskText(done), Plain)
    case Html(text) => Add(page, text, Plain)
    case SoftBreak => Break(page)
    case HardBreak => Break(page)
    case Rule => Break(Add(page, RULE_LINE, Muted))
    case CodeBlock(language, code) => AddCode(page, language, code)
    case Table(rows) => Break(AddRows(BreakIfBegun(page), Grid(m, Tui, rows)))
  }

  // ----- whole documents, on values -----

  function ContextAfter(nodes: seq<Node>): Context {
    if nodes == [] then Context(0, 0, false) else Entered(ContextAfter(nodes[..|nodes| - 1]), nodes[|nodes| - 1])
  }

  function Written(m: Metric, nodes: seq<Node>): seq<Piece> {
    if nodes == [] then []
    else WriteNode(m, Written(m, nodes[..|nodes| - 1]), ContextAfter(nodes[..|nodes| - 1]), nodes[|nodes| - 1])
  }

  function Laid(m: Metric, nodes: seq<Node>): Page {
    if nodes == [] then Page([], [])
    else EmitNode(m, Laid(m, nodes[..|nodes| - 1]), ContextAfter(nodes[..|nodes| - 1]), nodes[|nodes| - 1])
  }

  lemma OneMore(m: Metric, nodes: seq<Node>, n: nat)
    requires n < |nodes|
    ensures ContextAfter(nodes[..n + 1]) == Entered(ContextAfter(nodes[..n]), nodes[n])
    ensures Written(m, nodes[..n + 1]) == WriteNode(m, Written(m, nodes[..n]), ContextAfter(nodes[..n]), nodes[n])
    ensures Laid(m, nodes[..n + 1]) == EmitNode(m, Laid(m, nodes[..n]), ContextAfter(nodes[..n]), nodes[n])
  {
    hide WriteNode, EmitNode, Entered;
    assert nodes[..n + 1][..n] == nodes[..n];
  }

  // ----- the ANSI projector -----

  method ProjectAnsi(m: Metric, nodes: seq<Node>) returns (out: seq<Piece>)
    ensures out == Written(m, nodes)
  {
    hide WriteNode, EmitNode, ContextAfter, Entered;
    out := [];
    var ctx := Start();
    for i := 0 to |nodes|
      invariant out == Written(m, nodes[..i]) && ctx == ContextAfter(nodes[..i])
    {
      OneMore(m, nodes, i);
      out, ctx := WriteOne(m, out, ctx, nodes[i]);
    }
    assert nodes[..|nodes|] == nodes;
  }

  function Start(): (ctx: Context)
    ensures ctx == ContextAfter([])
  {
    Context(0, 0, false)
  }

  /** The loop body: what the node pushes, and the depths it changes. */
  method WriteOne(m: Metric, before: seq<Piece>, context: Context, node: Node)
      returns (out: seq<Piece>, ctx: Context)
    ensures out == WriteNode(m, before, context, node) && ctx == Entered(context, node)
  {
    hide Push, PushEscape, PushRow, PushRows, Grid, Columns, Shown, Painted, Indent, RunPaint, HeadingPrefix;
    hide TaskText, ImageText, Lowered;
    out, ctx := before, context;
    match node
    case HeadingStart(level) =>
      out := Push(out, "\n", Plain);
      out := Push(out, HeadingPrefix(level), BoldHeading);
    case HeadingEnd => out := Push(out, "\n\n", Plain);
    case ParagraphStart =>
    case ParagraphEnd => out := Push(out, "\n\n", Plain);
    case QuoteStart =>
      ctx := ctx.(quoted := true);
      out := Push(out, QUOTE_BAR, Quote);
    case QuoteEnd => out := Push(out, "\n", Plain);
    case ListStart => ctx := ctx.(lists := ctx.lists + 1);
    case ListEnd =>
      ctx := ctx.(lists := Lowered(ctx.lists));
      out := Push(out, "\n", Plain);
    case ItemStart =>
      out := Push(out, Indent(ctx), Plain);
      out := Push(out, BULLET, Plain);
    case ItemEnd => out := Push(out, "\n", Plain);
    case TextRun(text, emphasis, strong) => out := Push(out, text, RunPaint(ctx, emphasis, strong));
    case InlineCode(text) => out := Push(out, "`" + text + "`", Code);
    case LinkStart(url) =>
      ctx := ctx.(links := ctx.links + 1);
      out := PushEscape(out, "\U{1b}]8;;");
      out := PushEscape(out, url);
      out := PushEscape(out, "\U{7}");
    case LinkEnd =>
      ctx := ctx.(links := Lowered(ctx.links));
      out := PushEscape(out, "\U{1b}[0m\U{1b}]8;;\U{7}");
    case Image(url) => out := Push(out, ImageText(url), Link);
    case TaskMarker(done) => out := Push(out, TaskText(done), Plain);
    case Html(text) => out := Push(out, text, Plain);
    case SoftBreak => out := Push(out, "\n", Plain);
    case HardBreak => out := Push(out, "\n", Plain);
    case Rule => out := Push(out, RULE_LINE + "\n", Plain);
    case CodeBlock(language, code) =>
      if language != [] {
        out := Push(out, CODE_OPEN + language, Heading);
        out := Push(out, "\n", Plain);
      }
      out := Push(out, code, Plain);
      if language != [] {
        out := Push(out, CODE_CLOSE, Heading);
      }
      out := Push(out, "\n\n", Plain);
    case Table(rows) =>
      if Columns(rows) != 0 {
        out := Push(out, "\n", Plain);
        var lines := RenderTable(m, Ansi, rows);
        out := PushRows(out, lines);
        out := Push(out, "\n", Plain);
      }
  }

  // ----- the row projector -----

  class RowProjector {
    var lines: seq<seq<Span>>
    var cur: seq<Span>
    var links: nat
    var lists: nat
    var quoted: bool

    ghost function Sheet(): Page reads this { Page(lines, cur) }

    ghost function Here(): Context reads this { Context(links, lists, quoted) }

    constructor ()
      ensures Sheet() == Page([], []) && Here() == Context(0, 0, false)
    {
      lines, cur, links, lists, quoted := [], [], 0, 0, false;
    }

    method NewRow()
      modifies this`lines, this`cur
      ensures Sheet() == Break(old(Sheet()))
    {
      lines := lines + [cur];
      cur := [];
    }

    method AddSpan(text: string, paint: Paint)
      modifies this`cur
      ensures Sheet() == Add(old(Sheet()), text, paint)
    {
      if text != [] {
        cur := cur + [Span(text, paint)];
      }
    }

    method EmitCode(language: string, code: string)
      modifies this`lines, this`cur
      ensures Sheet() == AddCode(old(Sheet()), language, code)
    {
      hide Lines, RowCells, RowsCells, PageCells;
      if language != [] {
        AddSpan(CODE_OPEN + language, Heading);
      }
      if cur != [] {
        NewRow();
      }
      lines := lines + RawRows(Lines(code));
      if language != [] {
        AddSpan(CODE_CLOSE, Heading);
        NewRow();
      }
      NewRow();
    }

    method EmitTable(m: Metric, rows: seq<seq<string>>)
      modifies this`lines, this`cur
      ensures Sheet() == Break(AddRows(BreakIfBegun(old(Sheet())), Grid(m, Tui, rows)))
    {
      hide Grid, RowCells, RowsCells, PageCells;
      if cur != [] {
        NewRow();
      }
      var grid := RenderTable(m, Tui, rows);
      lines := lines + grid;
      NewRow();
    }

    method Emit(m: Metric, node: Node)
      modifies this
      ensures Sheet() == EmitNode(m, old(Sheet()), old(Here()), node)
      ensures Here() == Entered(old(Here()), node)
    {
      hide AddCode, Grid, RowCells, RowsCells, PageCells, Break, Add, BreakIfBegun, AddRows;
      hide HeadingPrefix, TaskText, ImageText, RunPaint, Repeat, Painted, Newline, Lowered;
      match node
      case HeadingStart(level) =>
        NewRow();
        AddSpan(HeadingPrefix(level), BoldHeading);
      case HeadingEnd =>
        NewRow();
        NewRow();
      case ParagraphStart =>
      case ParagraphEnd =>
        NewRow();
        NewRow();
      case QuoteStart =>
        quoted := true;
        AddSpan(QUOTE_BAR, Quote);
      case QuoteEnd => NewRow();
      case ListStart => lists := lists + 1;
      case ListEnd =>
        lists := Lowered(lists);
        NewRow();
      case ItemStart => AddSpan(Repeat("  ", Lowered(lists)) + BULLET, Plain);
      case ItemEnd => NewRow();
      case TextRun(text, emphasis, strong) =>
        AddSpan(text, RunPaint(Context(links, lists, quoted), emphasis, strong));
      case InlineCode(text) => AddSpan("`" + text + "`", Code);
      case LinkStart(_) => links := links + 1;
      case LinkEnd => links := Lowered(links);
      case Image(url) => AddSpan(ImageText(url), UnderlinedLink);
      case TaskMarker(done) => AddSpan(TaskText(done), Plain);
      case Html(text) => AddSpan(text, Plain);
      case SoftBreak => NewRow();
      case HardBreak => NewRow();
      case Rule =>
        AddSpan(RULE_LINE, Muted);
        NewRow();
      case CodeBlock(language, code) => EmitCode(language, code);
      case Table(rows) => EmitTable(m, rows);
    }

    /** Flushes the row under construction and drops blank rows from the end. */
    method Finish()
      modifies this`lines, this`cur
      ensures lines == Trimmed(old(Sheet()))
    {
      if cur != [] {
        NewRow();
      }
      while lines != [] && BlankRow(lines[|lines| - 1])
        invariant DropBlank(BreakIfBegun(old(Sheet())).rows) == DropBlank(lines)
        decreases |lines|
      {
        lines := lines[..|lines| - 1];
      }
    }
  }

  predicate BlankRow(row: seq<Span>) { forall i :: 0 <= i < |row| ==> Trim(row[i].text) == [] }

  function DropBlank(rows: seq<seq<Span>>): seq<seq<Span>> {
    if rows != [] && BlankRow(rows[|rows| - 1]) then DropBlank(rows[..|rows| - 1]) else rows
  }

  /** What the row projector hands out in the end. */
  function Trimmed(page: Page): seq<seq<Span>> { DropBlank(BreakIfBegun(page).rows) }

  method ProjectRows(m: Metric, nodes: seq<Node>) returns (rows: seq<seq<Span>>)
    ensures rows == Trimmed(Laid(m, nodes))
  {
    hide WriteNode, EmitNode, ContextAfter, Entered, Trimmed;
    assert Start() == ContextAfter([]);
    var projector := new RowProjector();
    for i := 0 to |nodes|
      invariant projector.Sheet() == Laid(m, nodes[..i]) && projector.Here() == ContextAfter(nodes[..i])
    {
      OneMore(m, nodes, i);
      projector.Emit(m, nodes[i]);
    }
    assert nodes[..|nodes|] == nodes;
    projector.Finish();
    rows := projector.lines;
  }
}
