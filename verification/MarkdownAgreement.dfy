/** When the two projections hold the same characters, flattened, and when also in the same style. */
module MarkdownAgreement {
  import opened Text
  import opened Markdown
  import opened MarkdownTable
  import opened MarkdownProject
  import opened TableGeometry
  import opened CodeBodies
  import opened GridTexts

  // ----- what one node adds -----

  function CodeWritten(language: string, code: string): seq<Cell> {
    if language == [] then Painted(code, Plain) + Painted("\n\n", Plain)
    else
      Painted(CODE_OPEN + language, Heading) + Newline() + Painted(code, Plain)
      + (Painted(CODE_CLOSE, Heading) + Painted("\n\n", Plain))
  }

  function CodeLaid(language: string, code: string, begun: bool): seq<Cell> {
    var body := Painted(Terminated(Lines(code)), Plain);
    if language == [] then (if begun then Newline() else []) + body + Newline()
    else
      Painted(CODE_OPEN + language, Heading) + Newline() + body
      + (Painted(CODE_CLOSE, Heading) + Painted("\n\n", Plain))
  }

  function TableWritten(m: Metric, rows: seq<seq<string>>): seq<Cell> {
    if Drawn(rows) then Newline() + RowsCells(Grid(m, Ansi, rows)) + Newline() else []
  }

  function TableLaid(m: Metric, rows: seq<seq<string>>, begun: bool): seq<Cell> {
    (if begun then Newline() else []) + RowsCells(Grid(m, Tui, rows)) + Newline()
  }

  /** Nodes both projectors treat alike. */
  predicate Flow(node: Node) { !node.Rule? && !node.Image? && !node.CodeBlock? && !node.Table? }

  function FlowCells(ctx: Context, node: Node): seq<Cell>
    requires Flow(node)
  {
    match node
    case HeadingStart(level) => Newline() + Painted(HeadingPrefix(level), BoldHeading)
    case HeadingEnd => Painted("\n\n", Plain)
    case ParagraphStart => []
    case ParagraphEnd => Painted("\n\n", Plain)
    case QuoteStart => Painted(QUOTE_BAR, Quote)
    case QuoteEnd => Newline()
    case ListStart => []
    case ListEnd => Newline()
    case ItemStart => Painted(Indent(ctx) + BULLET, Plain)
    case ItemEnd => Newline()
    case TextRun(text, emphasis, strong) => Painted(text, RunPaint(ctx, emphasis, strong))
    case InlineCode(text) => Painted("`" + text + "`", Code)
    case LinkStart(_) => []
    case LinkEnd => []
    case TaskMarker(done) => Painted(TaskText(done), Plain)
    case Html(text) => Painted(text, Plain)
    case SoftBreak => Newline()
    case HardBreak => Newline()
  }

  function WrittenCells(m: Metric, ctx: Context, node: Node): seq<Cell> {
    match node
    case Rule => Painted(RULE_LINE + "\n", Plain)
    case Image(url) => Painted(ImageText(url), Link)
    case CodeBlock(language, code) => CodeWritten(language, code)
    case Table(rows) => TableWritten(m, rows)
    case _ => FlowCells(ctx, node)
  }

  function LaidCells(m: Metric, ctx: Context, node: Node, begun: bool): seq<Cell> {
    match node
    case Rule => Painted(RULE_LINE, Muted) + Newline()
    case Image(url) => Painted(ImageText(url), UnderlinedLink)
    case CodeBlock(language, code) => CodeLaid(language, code, begun)
    case Table(rows) => TableLaid(m, rows, begun)
    case _ => FlowCells(ctx, node)
  }

  lemma TwoNewlines()
    ensures Painted("\n\n", Plain) == Newline() + Newline()
  {
  }

  lemma WriteShowsFlow(m: Metric, out: seq<Piece>, ctx: Context, node: Node)
    requires Flow(node)
    ensures Shown(WriteNode(m, out, ctx, node)) == Shown(out) + FlowCells(ctx, node)
  {
    hide Push, PushEscape, Shown, Painted, HeadingPrefix, Indent, RunPaint, TaskText;
    assert Shown(out) + [] == Shown(out);
    if node.HeadingStart? {
      Assoc(Shown(out), Newline(), Painted(HeadingPrefix(node.level), BoldHeading));
    } else if node.ItemStart? {
      PaintedConcat(Indent(ctx), BULLET, Plain);
      Assoc(Shown(out), Painted(Indent(ctx), Plain), Painted(BULLET, Plain));
    }
  }

  lemma EmitShowsFlow(m: Metric, page: Page, ctx: Context, node: Node)
    requires Flow(node)
    ensures PageCells(EmitNode(m, page, ctx, node)) == PageCells(page) + FlowCells(ctx, node)
  {
    hide Add, Break, PageCells, Painted, HeadingPrefix, Indent, RunPaint, TaskText;
    assert PageCells(page) + [] == PageCells(page);
    if node.HeadingStart? {
      Assoc(PageCells(page), Newline(), Painted(HeadingPrefix(node.level), BoldHeading));
    } else if node.HeadingEnd? || node.ParagraphEnd? {
      TwoNewlines();
      Assoc(PageCells(page), Newline(), Newline());
    }
  }

  lemma PushCodeShows(out: seq<Piece>, language: string, code: string)
    ensures Shown(PushCode(out, language, code)) == Shown(out) + CodeWritten(language, code)
  {
    hide Push, Shown, Painted;
    var start, body, end := Shown(out), Painted(code, Plain), Painted("\n\n", Plain);
    if language == [] {
      Assoc(start, body, end);
    } else {
      var head, close := Painted(CODE_OPEN + language, Heading), Painted(CODE_CLOSE, Heading);
      Assoc(start, head, Newline());
      Assoc(start, head + Newline(), body);
      Assoc(start + (head + Newline() + body), close, end);
      Assoc(start, head + Newline() + body, close + end);
    }
  }

  lemma AddCodeShows(page: Page, language: string, code: string)
    ensures PageCells(AddCode(page, language, code)) == PageCells(page) + CodeLaid(language, code, page.cur != [])
  {
    hide Add, AddRows, Break, BreakIfBegun, RawRows, Lines, Terminated, PageCells, RowsCells, Painted;
    CodeRowsShow(code);
    var start, body := PageCells(page), Painted(Terminated(Lines(code)), Plain);
    if language == [] {
      var gap := if page.cur == [] then [] else Newline();
      Assoc(start, gap, body);
      Assoc(start, gap + body, Newline());
    } else {
      TwoNewlines();
      var head, close := Painted(CODE_OPEN + language, Heading), Painted(CODE_CLOSE, Heading);
      Assoc(start, head, Newline());
      Assoc(start, head + Newline(), body);
      Assoc(close, Newline(), Newline());
      Assoc(start + (head + Newline() + body), close, Newline());
      Assoc(start + (head + Newline() + body), close + Newline(), Newline());
      Assoc(start, head + Newline() + body, close + (Newline() + Newline()));
    }
  }

  lemma WriteShows(m: Metric, out: seq<Piece>, ctx: Context, node: Node)
    ensures Shown(WriteNode(m, out, ctx, node)) == Shown(out) + WrittenCells(m, ctx, node)
  {
    hide Push, PushCode, PushRows, Shown, Painted, FlowCells, CodeWritten, Grid, Drawn, RowsCells;
    if Flow(node) {
      WriteShowsFlow(m, out, ctx, node);
      hide WriteNode;
    } else if node.CodeBlock? {
      PushCodeShows(out, node.language, node.code);
    } else if node.Table? {
      assert Shown(out) + [] == Shown(out);
      var grid := RowsCells(Grid(m, Ansi, node.rows));
      Assoc(Shown(out), Newline(), grid);
      Assoc(Shown(out), Newline() + grid, Newline());
    }
  }

  lemma EmitShows(m: Metric, page: Page, ctx: Context, node: Node)
    ensures PageCells(EmitNode(m, page, ctx, node)) == PageCells(page) + LaidCells(m, ctx, node, page.cur != [])
  {
    hide Add, AddCode, AddRows, Break, BreakIfBegun, PageCells, Painted, FlowCells, CodeLaid, Grid, RowsCells;
    if Flow(node) {
      EmitShowsFlow(m, page, ctx, node);
      hide EmitNode;
    } else if node.CodeBlock? {
      AddCodeShows(page, node.language, node.code);
    } else if node.Table? {
      var gap, grid := if page.cur == [] then [] else Newline(), RowsCells(Grid(m, Tui, node.rows));
      Assoc(PageCells(page), gap, grid);
      Assoc(PageCells(page), gap + grid, Newline());
    } else if node.Rule? {
      Assoc(PageCells(page), Painted(RULE_LINE, Muted), Newline());
    }
  }

  // ----- when a node is shown alike -----

  predicate AllNewlines(s: string) { forall i :: 0 <= i < |s| ==> s[i] == '\n' }

  /** A labelled body must end its last line; a bare body must not, or be nothing but line ends behind a begun row. */
  predicate CodeAgrees(language: string, code: string, begun: bool) {
    if language != [] then NoCrlf(code) && Ended(code)
    else if begun then AllNewlines(code)
    else NoCrlf(code) && !Ended(code)
  }

  /** `begun`: the row under construction holds something. */
  predicate TextAgrees(node: Node, begun: bool) {
    match node
    case CodeBlock(language, code) => CodeAgrees(language, code, begun)
    case Table(rows) => Drawn(rows) && begun
    case _ => true
  }

  predicate StyleAgrees(node: Node, begun: bool) {
    TextAgrees(node, begun) && !node.Rule? && !node.Image? && !node.Table?
  }

  lemma {:induction false} ShiftedAt(code: string, k: nat)
    requires code + "\n" == "\n" + code && k < |code|
    ensures code[k] == '\n'
  {
    assert code[k] == (code + "\n")[k] == ("\n" + code)[k];
    if k == 0 {
    } else {
      ShiftedAt(code, k - 1);
    }
  }

  lemma Shifted(code: string)
    ensures code + "\n" == "\n" + code <==> AllNewlines(code)
  {
    if code + "\n" == "\n" + code {
      forall k | 0 <= k < |code| ensures code[k] == '\n' { ShiftedAt(code, k); }
    }
  }

  /** When the body read by lines, set behind `gap`, is the body with a line end. */
  lemma BareCode(code: string, begun: bool)
    ensures code + "\n" == (if begun then "\n" else "") + Terminated(Lines(code)) <==> CodeAgrees("", code, begun)
  {
    ReturnsOfLines(code);
    if NoCrlf(code) {
      LinesRestored(code);
    }
    hide Lines, Terminated;
    var lines := Terminated(Lines(code));
    Shifted(code);
    if !NoCrlf(code) {
      ReturnsConcat(code, "\n");
      ReturnsConcat("\n", lines);
      assert "" + lines == lines;
    } else if Ended(code) {
      assert "" + code == code;
    }
  }

  lemma LabelledCode(code: string)
    ensures code == Terminated(Lines(code)) <==> NoCrlf(code) && Ended(code)
  {
    ReturnsOfLines(code);
    if NoCrlf(code) {
      LinesRestored(code);
    }
  }

  lemma PaintedEqual(a: string, b: string, paint: Paint)
    ensures Painted(a, paint) == Painted(b, paint) <==> a == b
  {
    CharactersOfPainted(a, paint);
    CharactersOfPainted(b, paint);
  }

  lemma CodeStep(language: string, code: string, begun: bool)
    ensures Characters(CodeWritten(language, code)) == Characters(CodeLaid(language, code, begun))
       <==> CodeAgrees(language, code, begun)
    ensures CodeWritten(language, code) == CodeLaid(language, code, begun) <==> CodeAgrees(language, code, begun)
  {
    if language == [] {
      BareStep(code, begun);
    } else {
      LabelledStep(language, code, begun);
    }
  }

  lemma BareStep(code: string, begun: bool)
    ensures Characters(CodeWritten("", code)) == Characters(CodeLaid("", code, begun)) <==> CodeAgrees("", code, begun)
    ensures CodeWritten("", code) == CodeLaid("", code, begun) <==> CodeAgrees("", code, begun)
  {
    hide Lines, Terminated, CodeAgrees;
    var lines, gap := Terminated(Lines(code)), if begun then "\n" else "";
    BareCode(code, begun);
    PaintedConcat(code, "\n", Plain);
    PaintedConcat(code + "\n", "\n", Plain);
    PaintedConcat(code, "\n\n", Plain);
    PaintedConcat(gap, lines, Plain);
    PaintedConcat(gap + lines, "\n", Plain);
    assert code + "\n\n" == code + "\n" + "\n";
    assert Painted("", Plain) == [];
    var written, laid := code + "\n" + "\n", gap + lines + "\n";
    assert CodeWritten("", code) == Painted(written, Plain);
    assert CodeLaid("", code, begun) == Painted(laid, Plain);
    hide *;
    CancelRight(code + "\n", gap + lines, "\n");
    PaintedEqual(written, laid, Plain);
    CharactersOfPainted(written, Plain);
    CharactersOfPainted(laid, Plain);
  }

  lemma LabelledStep(language: string, code: string, begun: bool)
    requires language != []
    ensures Characters(CodeWritten(language, code)) == Characters(CodeLaid(language, code, begun))
       <==> CodeAgrees(language, code, begun)
    ensures CodeWritten(language, code) == CodeLaid(language, code, begun) <==> CodeAgrees(language, code, begun)
  {
    hide Lines, Terminated, Painted, Characters;
    LabelledCode(code);
    Framed(Painted(CODE_OPEN + language, Heading) + Newline(), code, Terminated(Lines(code)),
           Painted(CODE_CLOSE, Heading) + Painted("\n\n", Plain));
  }

  lemma Framed(head: seq<Cell>, a: string, b: string, tail: seq<Cell>)
    ensures head + Painted(a, Plain) + tail == head + Painted(b, Plain) + tail <==> a == b
    ensures Characters(head + Painted(a, Plain) + tail) == Characters(head + Painted(b, Plain) + tail) <==> a == b
  {
    hide *;
    FramedCharacters(head, a, tail);
    FramedCharacters(head, b, tail);
    CancelRight(head + Painted(a, Plain), head + Painted(b, Plain), tail);
    Cancel(head, Painted(a, Plain), Painted(b, Plain));
    PaintedEqual(a, b, Plain);
    CancelRight(Characters(head) + a, Characters(head) + b, Characters(tail));
    Cancel(Characters(head), a, b);
  }

  lemma FramedCharacters(head: seq<Cell>, t: string, tail: seq<Cell>)
    ensures Characters(head + Painted(t, Plain) + tail) == Characters(head) + t + Characters(tail)
  {
    hide *;
    CharactersConcat(head + Painted(t, Plain), tail);
    CharactersConcat(head, Painted(t, Plain));
    CharactersOfPainted(t, Plain);
  }

  lemma TableStep(m: Metric, rows: seq<seq<string>>, begun: bool)
    ensures Characters(TableWritten(m, rows)) == Characters(TableLaid(m, rows, begun)) <==> Drawn(rows) && begun
    ensures TableWritten(m, rows) != TableLaid(m, rows, begun)
  {
    var a, t := RowsCells(Grid(m, Ansi, rows)), RowsCells(Grid(m, Tui, rows));
    GridsShowTheSame(m, rows);
    assert |a| == |Characters(a)| == |Characters(t)| == |t|;
    NoRowsNoColumns(rows);
    if Drawn(rows) && begun {
      GridsDifferInStyle(m, rows);
      hide *;
      CharactersConcat(Newline() + a, Newline());
      CharactersConcat(Newline() + t, Newline());
      CharactersConcat(Newline(), a);
      CharactersConcat(Newline(), t);
      CancelRight(Newline() + a, Newline() + t, Newline());
      Cancel(Newline(), a, t);
      TableCells(m, rows);
    } else {
      hide RowsCells, Grid, Columns;
      assert |TableWritten(m, rows)| != |TableLaid(m, rows, begun)|;
    }
  }

  lemma TableCells(m: Metric, rows: seq<seq<string>>)
    requires Drawn(rows)
    ensures TableWritten(m, rows) == Newline() + RowsCells(Grid(m, Ansi, rows)) + Newline()
    ensures TableLaid(m, rows, true) == Newline() + RowsCells(Grid(m, Tui, rows)) + Newline()
  {
  }

  lemma RuleStep()
    ensures Characters(Painted(RULE_LINE + "\n", Plain)) == Characters(Painted(RULE_LINE, Muted) + Newline())
    ensures Painted(RULE_LINE + "\n", Plain) != Painted(RULE_LINE, Muted) + Newline()
  {
    CharactersConcat(Painted(RULE_LINE, Muted), Newline());
    assert Painted(RULE_LINE + "\n", Plain)[0].paint == Plain;
    assert (Painted(RULE_LINE, Muted) + Newline())[0].paint == Muted;
  }

  lemma ImageStep(url: string)
    ensures Characters(Painted(ImageText(url), Link)) == Characters(Painted(ImageText(url), UnderlinedLink))
    ensures Painted(ImageText(url), Link) != Painted(ImageText(url), UnderlinedLink)
  {
    assert Painted(ImageText(url), Link)[0].paint == Link;
    assert Painted(ImageText(url), UnderlinedLink)[0].paint == UnderlinedLink;
  }

  /** What one node adds to the two outputs reads the same, and looks the same, exactly under these conditions. */
  lemma NodeStep(m: Metric, ctx: Context, node: Node, begun: bool)
    ensures Characters(WrittenCells(m, ctx, node)) == Characters(LaidCells(m, ctx, node, begun))
       <==> TextAgrees(node, begun)
    ensures WrittenCells(m, ctx, node) == LaidCells(m, ctx, node, begun) <==> StyleAgrees(node, begun)
  {
    hide Painted, Characters, FlowCells, CodeWritten, CodeLaid, TableWritten, TableLaid, CodeAgrees, Drawn, ImageText;
    if node.CodeBlock? {
      CodeStep(node.language, node.code, begun);
    } else if node.Table? {
      TableStep(m, node.rows, begun);
    } else if node.Rule? {
      RuleStep();
    } else if node.Image? {
      ImageStep(node.url);
    }
  }

  // ----- whole documents -----

  /** Whether the row under construction holds something behind the nodes. */
  predicate Begun(nodes: seq<Node>) {
    nodes != [] && BegunBehind(nodes[|nodes| - 1], Begun(nodes[..|nodes| - 1]))
  }

  predicate BegunBehind(node: Node, begun: bool) {
    match node
    case HeadingStart(_) => true
    case QuoteStart => true
    case ItemStart => true
    case TextRun(text, _, _) => begun || text != []
    case InlineCode(_) => true
    case Image(_) => true
    case TaskMarker(_) => true
    case Html(text) => begun || text != []
    case ParagraphStart => begun
    case ListStart => begun
    case LinkStart(_) => begun
    case LinkEnd => begun
    case _ => false
  }

  lemma EmitBegun(m: Metric, page: Page, ctx: Context, node: Node)
    ensures EmitNode(m, page, ctx, node).cur != [] <==> BegunBehind(node, page.cur != [])
  {
    hide Add, AddCode, AddRows, Break, BreakIfBegun, Grid, Indent, RunPaint;
  }

  lemma {:induction false} LaidBegun(m: Metric, nodes: seq<Node>)
    ensures Laid(m, nodes).cur != [] <==> Begun(nodes)
  {
    hide EmitNode, BegunBehind, ContextAfter;
    if nodes == [] {
    } else {
      var init := nodes[..|nodes| - 1];
      LaidBegun(m, init);
      EmitBegun(m, Laid(m, init), ContextAfter(init), nodes[|nodes| - 1]);
    }
  }

  /** The characters of the first `n` nodes are the same in both outputs. */
  ghost predicate TextsMatch(m: Metric, nodes: seq<Node>, n: nat)
    requires n <= |nodes|
  {
    Characters(Shown(Written(m, nodes[..n]))) == Characters(PageCells(Laid(m, nodes[..n])))
  }

  ghost predicate CellsMatch(m: Metric, nodes: seq<Node>, n: nat)
    requires n <= |nodes|
  {
    Shown(Written(m, nodes[..n])) == PageCells(Laid(m, nodes[..n]))
  }

  lemma MatchStep(m: Metric, nodes: seq<Node>, n: nat)
    requires n < |nodes|
    ensures TextsMatch(m, nodes, n) ==> (TextsMatch(m, nodes, n + 1) <==> TextAgrees(nodes[n], Begun(nodes[..n])))
    ensures CellsMatch(m, nodes, n) ==> (CellsMatch(m, nodes, n + 1) <==> StyleAgrees(nodes[n], Begun(nodes[..n])))
  {
    hide WriteNode, EmitNode, WrittenCells, LaidCells, Written, Laid, ContextAfter, Entered, Begun;
    hide Shown, PageCells, Characters, TextAgrees, StyleAgrees;
    var ctx, out, page := ContextAfter(nodes[..n]), Written(m, nodes[..n]), Laid(m, nodes[..n]);
    OneMore(m, nodes, n);
    LaidBegun(m, nodes[..n]);
    WriteShows(m, out, ctx, nodes[n]);
    EmitShows(m, page, ctx, nodes[n]);
    NodeStep(m, ctx, nodes[n], page.cur != []);
    var written, laid := WrittenCells(m, ctx, nodes[n]), LaidCells(m, ctx, nodes[n], page.cur != []);
    CharactersConcat(Shown(out), written);
    CharactersConcat(PageCells(page), laid);
    Cancel(Characters(Shown(out)), Characters(written), Characters(laid));
    Cancel(Shown(out), written, laid);
  }

  lemma EmptyMatches(m: Metric, nodes: seq<Node>)
    ensures TextsMatch(m, nodes, 0) && CellsMatch(m, nodes, 0)
  {
    assert nodes[..0] == [];
  }

  lemma {:induction false} AgreeingNodesMatch(m: Metric, nodes: seq<Node>, n: nat)
    requires n <= |nodes| && forall i :: 0 <= i < n ==> TextAgrees(nodes[i], Begun(nodes[..i]))
    ensures TextsMatch(m, nodes, n)
  {
    hide *;
    if n == 0 {
      EmptyMatches(m, nodes);
    } else {
      AgreeingNodesMatch(m, nodes, n - 1);
      MatchStep(m, nodes, n - 1);
    }
  }

  lemma {:induction false} AlikeNodesMatch(m: Metric, nodes: seq<Node>, n: nat)
    requires n <= |nodes| && forall i :: 0 <= i < n ==> StyleAgrees(nodes[i], Begun(nodes[..i]))
    ensures CellsMatch(m, nodes, n)
  {
    hide *;
    if n == 0 {
      EmptyMatches(m, nodes);
    } else {
      AlikeNodesMatch(m, nodes, n - 1);
      MatchStep(m, nodes, n - 1);
    }
  }

  /**
   * The outputs hold the same characters all along a document exactly when every node of it agrees where it
   * stands. A newline inside a span counts like the end of a row here; `MarkdownLines` tells them apart.
   */
  lemma TextAgreement(m: Metric, nodes: seq<Node>)
    ensures (forall n :: 0 <= n <= |nodes| ==> TextsMatch(m, nodes, n))
       <==> (forall i :: 0 <= i < |nodes| ==> TextAgrees(nodes[i], Begun(nodes[..i])))
  {
    hide *;
    if forall n :: 0 <= n <= |nodes| ==> TextsMatch(m, nodes, n) {
      forall i | 0 <= i < |nodes| ensures TextAgrees(nodes[i], Begun(nodes[..i])) {
        assert TextsMatch(m, nodes, i) && TextsMatch(m, nodes, i + 1);
        MatchStep(m, nodes, i);
      }
    }
    if forall i :: 0 <= i < |nodes| ==> TextAgrees(nodes[i], Begun(nodes[..i])) {
      forall n | 0 <= n <= |nodes| ensures TextsMatch(m, nodes, n) { AgreeingNodesMatch(m, nodes, n); }
    }
  }

  /** The same for characters and style: rules, images and tables are then excluded as well. */
  lemma StyleAgreement(m: Metric, nodes: seq<Node>)
    ensures (forall n :: 0 <= n <= |nodes| ==> CellsMatch(m, nodes, n))
       <==> (forall i :: 0 <= i < |nodes| ==> StyleAgrees(nodes[i], Begun(nodes[..i])))
  {
    hide *;
    if forall n :: 0 <= n <= |nodes| ==> CellsMatch(m, nodes, n) {
      forall i | 0 <= i < |nodes| ensures StyleAgrees(nodes[i], Begun(nodes[..i])) {
        assert CellsMatch(m, nodes, i) && CellsMatch(m, nodes, i + 1);
        MatchStep(m, nodes, i);
      }
    }
    if forall i :: 0 <= i < |nodes| ==> StyleAgrees(nodes[i], Begun(nodes[..i])) {
      forall n | 0 <= n <= |nodes| ensures CellsMatch(m, nodes, n) { AlikeNodesMatch(m, nodes, n); }
    }
  }
}
