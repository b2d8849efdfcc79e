/** Which documents have their rows laid out as the lines of their stream. */
module MarkdownLines {
  import opened Text
  import opened Markdown
  import opened MarkdownTable
  import opened MarkdownProject
  import opened TableGeometry
  import opened CodeBodies
  import opened GridTexts
  import opened MarkdownAgreement
  import opened LineCuts
  import opened MarkdownRows
  import opened NewlineFree

  // ----- whole documents -----

  /** The first `n` nodes: the stream, cut at each newline, is the rows laid out and the one under construction. */
  ghost predicate RowsMatch(m: Metric, nodes: seq<Node>, n: nat)
    requires n <= |nodes|
  {
    LinesAreRows(Shown(Written(m, nodes[..n])), Laid(m, nodes[..n]))
  }

  /** The same with every character in the same style. */
  ghost predicate StyledRowsMatch(m: Metric, nodes: seq<Node>, n: nat)
    requires n <= |nodes|
  {
    StyledLinesAreRows(Shown(Written(m, nodes[..n])), Laid(m, nodes[..n]))
  }

  lemma {:induction false} LaidFree(m: Metric, nodes: seq<Node>, n: nat)
    requires n <= |nodes|
    ensures PageFree(Laid(m, nodes[..n])) <==> forall i :: 0 <= i < n ==> LineFree(nodes[i])
  {
    hide *;
    if n == 0 {
      NothingLaid(m, nodes);
    } else {
      LaidFree(m, nodes, n - 1);
      OneMore(m, nodes, n - 1);
      EmitFree(m, Laid(m, nodes[..n - 1]), ContextAfter(nodes[..n - 1]), nodes[n - 1]);
    }
  }

  lemma NothingLaid(m: Metric, nodes: seq<Node>)
    ensures PageFree(Laid(m, nodes[..0])) && PlainEnds(Shown(Written(m, nodes[..0])))
  {
    assert nodes[..0] == [];
  }

  lemma RowsMatchMeans(m: Metric, nodes: seq<Node>, n: nat)
    requires n <= |nodes|
    ensures RowsMatch(m, nodes, n) <==> TextsMatch(m, nodes, n) && PageFree(Laid(m, nodes[..n]))
  {
    hide Shown, Written, Laid, PageFree, PageCells, Characters, LinesAreRows;
    RowsFromTexts(Shown(Written(m, nodes[..n])), Laid(m, nodes[..n]));
  }

  /**
   * The rows are the lines of the stream all along a document exactly when every node of it agrees where it
   * stands and puts no newline into a row.
   */
  lemma RowAgreement(m: Metric, nodes: seq<Node>)
    ensures (forall n :: 0 <= n <= |nodes| ==> RowsMatch(m, nodes, n))
       <==> (forall i :: 0 <= i < |nodes| ==> TextAgrees(nodes[i], Begun(nodes[..i])) && LineFree(nodes[i]))
  {
    hide *;
    forall n | 0 <= n <= |nodes|
      ensures RowsMatch(m, nodes, n) <==> TextsMatch(m, nodes, n) && forall i :: 0 <= i < n ==> LineFree(nodes[i])
    {
      RowsMatchMeans(m, nodes, n);
      LaidFree(m, nodes, n);
    }
    TextAgreement(m, nodes);
    assert RowsMatch(m, nodes, |nodes|) ==> forall i :: 0 <= i < |nodes| ==> LineFree(nodes[i]);
  }

  lemma NoEndIsPlain(text: string, paint: Paint)
    requires OneLine(text)
    ensures PlainEnds(Painted(text, paint))
  {
  }

  lemma PlainIsPlain(text: string)
    ensures PlainEnds(Painted(text, Plain))
  {
  }

  lemma FlowEndsPlain(ctx: Context, node: Node)
    requires Flow(node) && LineFree(node)
    ensures PlainEnds(FlowCells(ctx, node))
  {
    hide Painted, PlainEnds, OneLine, HeadingPrefix, TaskText, Indent, RunPaint, Newline;
    GlyphsAreOneLine();
    PlainNewline();
    assert PlainEnds([]) by { NoCellsEndPlain(); }
    match node
    case HeadingStart(level) =>
      NoEndIsPlain(HeadingPrefix(level), BoldHeading);
      PlainEndsConcat(Newline(), Painted(HeadingPrefix(level), BoldHeading));
    case HeadingEnd => PlainIsPlain("\n\n");
    case ParagraphEnd => PlainIsPlain("\n\n");
    case QuoteStart => NoEndIsPlain(QUOTE_BAR, Quote);
    case ItemStart => PlainIsPlain(Indent(ctx) + BULLET);
    case TextRun(text, emphasis, strong) => NoEndIsPlain(text, RunPaint(ctx, emphasis, strong));
    case InlineCode(text) =>
      CodeTextFree(text);
      NoEndIsPlain("`" + text + "`", Code);
    case TaskMarker(done) => PlainIsPlain(TaskText(done));
    case Html(text) => PlainIsPlain(text);
    case _ =>
  }

  lemma NoCellsEndPlain()
    ensures PlainEnds([])
  {
  }

  lemma CodeEndsPlain(language: string, code: string)
    requires OneLine(language)
    ensures PlainEnds(CodeWritten(language, code))
  {
    hide Painted, PlainEnds, OneLine, Newline;
    PlainIsPlain(code);
    PlainIsPlain("\n\n");
    if language == [] {
      PlainEndsConcat(Painted(code, Plain), Painted("\n\n", Plain));
    } else {
      GlyphsAreOneLine();
      OneLineConcat(CODE_OPEN, language);
      NoEndIsPlain(CODE_OPEN + language, Heading);
      NoEndIsPlain(CODE_CLOSE, Heading);
      PlainNewline();
      var head := Painted(CODE_OPEN + language, Heading);
      PlainEndsConcat(head, Newline());
      PlainEndsConcat(head + Newline(), Painted(code, Plain));
      PlainEndsConcat(Painted(CODE_CLOSE, Heading), Painted("\n\n", Plain));
      PlainEndsConcat(head + Newline() + Painted(code, Plain), Painted(CODE_CLOSE, Heading) + Painted("\n\n", Plain));
    }
  }

  lemma TableEndsPlain(m: Metric, rows: seq<seq<string>>)
    requires TableFree(rows)
    ensures PlainEnds(TableWritten(m, rows))
  {
    hide Painted, PlainEnds, Newline, Grid, Drawn, RowsCells, TableFree, RowsFree;
    var grid := RowsCells(Grid(m, Ansi, rows));
    GridFree(m, Ansi, rows);
    FreeRowsHavePlainEnds(Grid(m, Ansi, rows));
    PlainNewline();
    NoCellsEndPlain();
    PlainEndsConcat(Newline(), grid);
    PlainEndsConcat(Newline() + grid, Newline());
  }

  lemma NodeEndsPlain(m: Metric, ctx: Context, node: Node)
    requires LineFree(node)
    ensures PlainEnds(WrittenCells(m, ctx, node))
  {
    hide Painted, PlainEnds, FlowCells, CodeWritten, TableWritten, OneLine, TableFree, ImageText;
    if Flow(node) {
      FlowEndsPlain(ctx, node);
    } else if node.CodeBlock? {
      CodeEndsPlain(node.language, node.code);
    } else if node.Table? {
      TableEndsPlain(m, node.rows);
    } else if node.Rule? {
      PlainIsPlain(RULE_LINE + "\n");
    } else if node.Image? {
      ImageTextFree(node.url);
      NoEndIsPlain(ImageText(node.url), Link);
    }
  }

  lemma {:induction false} StreamEndsPlain(m: Metric, nodes: seq<Node>, n: nat)
    requires n <= |nodes| && forall i :: 0 <= i < n ==> LineFree(nodes[i])
    ensures PlainEnds(Shown(Written(m, nodes[..n])))
  {
    hide *;
    if n == 0 {
      NothingLaid(m, nodes);
    } else {
      var out, ctx, node := Written(m, nodes[..n - 1]), ContextAfter(nodes[..n - 1]), nodes[n - 1];
      StreamEndsPlain(m, nodes, n - 1);
      OneMore(m, nodes, n - 1);
      WriteShows(m, out, ctx, node);
      NodeEndsPlain(m, ctx, node);
      PlainEndsConcat(Shown(out), WrittenCells(m, ctx, node));
    }
  }

  lemma StyledRowsMatchMeans(m: Metric, nodes: seq<Node>, n: nat)
    requires n <= |nodes| && forall i :: 0 <= i < n ==> LineFree(nodes[i])
    ensures StyledRowsMatch(m, nodes, n) <==> CellsMatch(m, nodes, n)
  {
    StreamEndsPlain(m, nodes, n);
    LaidFree(m, nodes, n);
    hide Shown, Written, Laid, PageFree, PageCells, StyledLinesAreRows, PlainEnds, LineFree;
    RowsFromCells(Shown(Written(m, nodes[..n])), Laid(m, nodes[..n]));
  }

  lemma StyledRowsFree(m: Metric, nodes: seq<Node>)
    requires StyledRowsMatch(m, nodes, |nodes|)
    ensures forall i :: 0 <= i < |nodes| ==> LineFree(nodes[i])
  {
    hide Shown, Written, Laid, PageFree, StyledLinesAreRows, LinesAreRows, LineFree;
    var n := |nodes|;
    StyledRowsAreRows(Shown(Written(m, nodes[..n])), Laid(m, nodes[..n]));
    RowsAreOneLine(Shown(Written(m, nodes[..n])), Laid(m, nodes[..n]));
    LaidFree(m, nodes, n);
  }

  lemma AlikeAndFree(m: Metric, nodes: seq<Node>)
    requires forall i :: 0 <= i < |nodes| ==> LineFree(nodes[i])
    ensures (forall n :: 0 <= n <= |nodes| ==> StyledRowsMatch(m, nodes, n))
       <==> (forall i :: 0 <= i < |nodes| ==> StyleAgrees(nodes[i], Begun(nodes[..i])))
  {
    hide *;
    forall n | 0 <= n <= |nodes| ensures StyledRowsMatch(m, nodes, n) <==> CellsMatch(m, nodes, n) {
      StyledRowsMatchMeans(m, nodes, n);
    }
    StyleAgreement(m, nodes);
  }

  /** The same for characters and style. */
  lemma StyledRowAgreement(m: Metric, nodes: seq<Node>)
    ensures (forall n :: 0 <= n <= |nodes| ==> StyledRowsMatch(m, nodes, n))
       <==> (forall i :: 0 <= i < |nodes| ==> StyleAgrees(nodes[i], Begun(nodes[..i])) && LineFree(nodes[i]))
  {
    hide *;
    if forall n :: 0 <= n <= |nodes| ==> StyledRowsMatch(m, nodes, n) {
      StyledRowsFree(m, nodes);
      AlikeAndFree(m, nodes);
    }
    if forall i :: 0 <= i < |nodes| ==> StyleAgrees(nodes[i], Begun(nodes[..i])) && LineFree(nodes[i]) {
      AlikeAndFree(m, nodes);
    }
  }
}
