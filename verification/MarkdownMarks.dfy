/** What a node reads as, in plain text, and the depths and styles that depend on the nodes before it. */
module MarkdownMarks {
  import opened Text
  import opened Markdown
  import opened MarkdownTable
  import opened MarkdownProject
  import opened CodeBodies
  import opened MarkdownAgreement

  // ----- depths -----

  function CountIf(nodes: seq<Node>, test: Node -> bool): nat {
    if nodes == [] then 0 else CountIf(nodes[..|nodes| - 1], test) + if test(nodes[|nodes| - 1]) then 1 else 0
  }

  predicate OpensList(node: Node) { node.ListStart? }

  predicate ClosesList(node: Node) { node.ListEnd? }

  predicate OpensLink(node: Node) { node.LinkStart? }

  predicate ClosesLink(node: Node) { node.LinkEnd? }

  /** No prefix of the document closes more than it opens, as in every document a parser delivers. */
  ghost predicate Balanced(nodes: seq<Node>, opens: Node -> bool, closes: Node -> bool) {
    forall n :: 0 <= n <= |nodes| ==> CountIf(nodes[..n], opens) >= CountIf(nodes[..n], closes)
  }

  lemma BalancedInit(nodes: seq<Node>, opens: Node -> bool, closes: Node -> bool)
    requires nodes != [] && Balanced(nodes, opens, closes)
    ensures Balanced(nodes[..|nodes| - 1], opens, closes)
    ensures CountIf(nodes, opens) >= CountIf(nodes, closes)
  {
    var init := nodes[..|nodes| - 1];
    hide CountIf;
    assert nodes[..|nodes|] == nodes;
    forall n | 0 <= n <= |init| ensures CountIf(init[..n], opens) >= CountIf(init[..n], closes) {
      assert init[..n] == nodes[..n];
    }
  }

  /** The list depth is the number of lists open, while they are opened and closed in turn. */
  lemma {:induction false} ListDepth(nodes: seq<Node>)
    requires Balanced(nodes, OpensList, ClosesList)
    ensures ContextAfter(nodes).lists == CountIf(nodes, OpensList) - CountIf(nodes, ClosesList)
  {
    if nodes == [] {
    } else {
      BalancedInit(nodes, OpensList, ClosesList);
      ListDepth(nodes[..|nodes| - 1]);
      hide Balanced;
    }
  }

  lemma {:induction false} LinkDepth(nodes: seq<Node>)
    requires Balanced(nodes, OpensLink, ClosesLink)
    ensures ContextAfter(nodes).links == CountIf(nodes, OpensLink) - CountIf(nodes, ClosesLink)
  {
    if nodes == [] {
    } else {
      BalancedInit(nodes, OpensLink, ClosesLink);
      LinkDepth(nodes[..|nodes| - 1]);
      hide Balanced;
    }
  }

  /** Once a quote has started, its colour stays for the rest of the document. */
  lemma {:induction false} QuoteSticks(nodes: seq<Node>)
    ensures ContextAfter(nodes).quoted <==> exists i :: 0 <= i < |nodes| && nodes[i].QuoteStart?
  {
    if nodes == [] {
    } else {
      var init, last := nodes[..|nodes| - 1], nodes[|nodes| - 1];
      QuoteSticks(init);
      assert forall i :: 0 <= i < |init| ==> init[i] == nodes[i];
      assert ContextAfter(nodes).quoted <==> ContextAfter(init).quoted || last.QuoteStart?;
      if exists i :: 0 <= i < |nodes| && nodes[i].QuoteStart? {
        var i :| 0 <= i < |nodes| && nodes[i].QuoteStart?;
        assert i < |init| ==> init[i].QuoteStart?;
      }
    }
  }

  // ----- readings -----

  /** A text of `n` copies. */
  lemma {:induction false} RepeatAt(s: string, n: nat)
    requires |s| == 1
    ensures forall i :: 0 <= i < n ==> Repeat(s, n)[i] == s[0]
  {
    if n == 0 {
    } else {
      RepeatAt(s, n - 1);
    }
  }

  /** A heading starts with as many hashes as its level, four from level four on. */
  lemma HeadingHashes(level: nat)
    ensures HeadingPrefix(level) == Repeat("#", if 1 <= level <= 3 then level else 4) + " "
  {
    var n := if 1 <= level <= 3 then level else 4;
    RepeatAt("#", n);
    hide Repeat;
  }

  /** Two spaces for every list around the innermost. */
  lemma {:induction false} IndentIsSpaces(ctx: Context)
    ensures |Indent(ctx)| == (if ctx.lists == 0 then 0 else 2 * (ctx.lists - 1))
    ensures forall i :: 0 <= i < |Indent(ctx)| ==> Indent(ctx)[i] == ' '
  {
    TwoSpaces(Lowered(ctx.lists));
  }

  lemma {:induction false} TwoSpaces(n: nat)
    ensures forall i :: 0 <= i < |Repeat("  ", n)| ==> Repeat("  ", n)[i] == ' '
  {
    if n == 0 {
    } else {
      TwoSpaces(n - 1);
    }
  }

  /** What a node other than a table reads as in the stream. */
  function Reading(ctx: Context, node: Node): string
    requires !node.Table?
  {
    match node
    case HeadingStart(level) => "\n" + Repeat("#", if 1 <= level <= 3 then level else 4) + " "
    case HeadingEnd => "\n\n"
    case ParagraphStart => ""
    case ParagraphEnd => "\n\n"
    case QuoteStart => "\U{2502} "
    case QuoteEnd => "\n"
    case ListStart => ""
    case ListEnd => "\n"
    case ItemStart => Indent(ctx) + "\U{2022} "
    case ItemEnd => "\n"
    case TextRun(text, _, _) => text
    case InlineCode(text) => "`" + text + "`"
    case LinkStart(_) => ""
    case LinkEnd => ""
    case Image(url) => "[image:" + url + "]"
    case TaskMarker(done) => if done then "[x] " else "[ ] "
    case Html(text) => text
    case SoftBreak => "\n"
    case HardBreak => "\n"
    case Rule => "\U{2500}\U{2500}\U{2500}\U{2500}\U{2500}\U{2500}\n"
    case CodeBlock(language, code) =>
      if language == "" then code + "\n\n"
      else "\U{256D}\U{2500} " + language + "\n" + code + "\U{2570}\U{2500}" + "\n\n"
  }

  lemma FlowReads(ctx: Context, node: Node)
    requires Flow(node)
    ensures Characters(FlowCells(ctx, node)) == Reading(ctx, node)
  {
    hide Painted, Characters, Indent, HeadingPrefix, Repeat, RunPaint;
    assert Characters([]) == [] by { NoCharacters(); }
    match node
    case HeadingStart(level) =>
      HeadingHashes(level);
      CharactersConcat(Newline(), Painted(HeadingPrefix(level), BoldHeading));
      CharactersOfPainted("\n", Plain);
      CharactersOfPainted(HeadingPrefix(level), BoldHeading);
      Assoc("\n", Repeat("#", if 1 <= level <= 3 then level else 4), " ");
    case HeadingEnd => CharactersOfPainted("\n\n", Plain);
    case ParagraphEnd => CharactersOfPainted("\n\n", Plain);
    case QuoteStart => CharactersOfPainted(QUOTE_BAR, Quote);
    case ItemStart => CharactersOfPainted(Indent(ctx) + BULLET, Plain);
    case TextRun(text, emphasis, strong) => CharactersOfPainted(text, RunPaint(ctx, emphasis, strong));
    case InlineCode(text) => CharactersOfPainted("`" + text + "`", Code);
    case TaskMarker(done) => CharactersOfPainted(TaskText(done), Plain);
    case Html(text) => CharactersOfPainted(text, Plain);
    case _ => CharactersOfPainted("\n", Plain);
  }

  lemma NoCharacters()
    ensures Characters([]) == []
  {
  }

  lemma CodeReads(language: string, code: string)
    ensures Characters(CodeWritten(language, code)) == Reading(Context(0, 0, false), CodeBlock(language, code))
  {
    hide Painted, Characters;
    CharactersOfPainted("\n\n", Plain);
    CharactersOfPainted("\n", Plain);
    CharactersOfPainted(code, Plain);
    if language == "" {
      CharactersConcat(Painted(code, Plain), Painted("\n\n", Plain));
    } else {
      var open, close := Painted(CODE_OPEN + language, Heading), Painted(CODE_CLOSE, Heading);
      CharactersOfPainted(CODE_OPEN + language, Heading);
      CharactersOfPainted(CODE_CLOSE, Heading);
      CharactersConcat(open, Newline());
      CharactersConcat(open + Newline(), Painted(code, Plain));
      CharactersConcat(close, Painted("\n\n", Plain));
      CharactersConcat(open + Newline() + Painted(code, Plain), close + Painted("\n\n", Plain));
      Assoc(CODE_OPEN + language + "\n" + code, CODE_CLOSE, "\n\n");
    }
  }

  /** What a node adds to the stream, escapes stripped, is what it reads as. */
  lemma NodeReads(m: Metric, out: seq<Piece>, ctx: Context, node: Node)
    requires !node.Table?
    ensures Characters(Shown(WriteNode(m, out, ctx, node))) == Characters(Shown(out)) + Reading(ctx, node)
  {
    WriteShows(m, out, ctx, node);
    CharactersConcat(Shown(out), WrittenCells(m, ctx, node));
    if Flow(node) {
      FlowReads(ctx, node);
    } else if node.CodeBlock? {
      CodeReads(node.language, node.code);
    } else if node.Rule? {
      CharactersOfPainted(RULE_LINE + "\n", Plain);
    } else {
      CharactersOfPainted(ImageText(node.url), Link);
    }
    hide Shown, WriteNode, Painted, Characters, FlowCells, CodeWritten, Indent, Repeat;
  }

  // ----- styles -----

  /** The style of a text run: a link around it decides, then strong, then emphasis, then a quote before it. */
  lemma RunStyle(nodes: seq<Node>, emphasis: bool, strong: bool)
    requires Balanced(nodes, OpensLink, ClosesLink)
    ensures var paint := RunPaint(ContextAfter(nodes), emphasis, strong);
            var linked := CountIf(nodes, OpensLink) > CountIf(nodes, ClosesLink);
            && (paint == UnderlinedLink <==> linked)
            && (paint == Strong <==> !linked && strong)
            && (paint == Emphasis <==> !linked && !strong && emphasis)
            && (paint == Quote <==> !linked && !strong && !emphasis
                                    && exists i :: 0 <= i < |nodes| && nodes[i].QuoteStart?)
            && (paint in {UnderlinedLink, Strong, Emphasis, Quote, Plain})
  {
    LinkDepth(nodes);
    QuoteSticks(nodes);
    hide ContextAfter, CountIf, Balanced;
  }

  /** The style of what a node adds to the stream, other than a heading, code, a table or a text run. */
  function Look(node: Node): Paint {
    match node
    case QuoteStart => Quote
    case InlineCode(_) => Code
    case Image(_) => Link
    case _ => Plain
  }

  /** One style for each node; a heading mark is bold in the heading colour, behind a plain line end. */
  lemma NodeLooks(m: Metric, ctx: Context, node: Node)
    requires !node.Table? && !node.CodeBlock?
    ensures WrittenCells(m, ctx, node) ==
            if node.HeadingStart? then Painted("\n", Plain) + Painted(HeadingPrefix(node.level), BoldHeading)
            else if node.TextRun? then Painted(node.text, RunPaint(ctx, node.emphasis, node.strong))
            else Painted(Reading(ctx, node), Look(node))
  {
    hide Indent, HeadingPrefix, RunPaint, Repeat;
    assert Painted("", Plain) == [];
  }

  // ----- links -----

  /** The escapes in the stream, one behind the other. */
  function Escapes(out: seq<Piece>): string {
    if out == [] then "" else Escapes(out[..|out| - 1]) + EscapeOf(out[|out| - 1])
  }

  function EscapeOf(p: Piece): string { if p.Escape? then p.code else "" }

  lemma PushEscapes(out: seq<Piece>, text: string, paint: Paint)
    ensures Escapes(Push(out, text, paint)) == Escapes(out)
    ensures Escapes(PushEscape(out, text)) == Escapes(out) + text
  {
    hide Shown, Painted;
    assert (out + [Ink(Span(text, paint))])[..|out|] == out;
    assert (out + [Escape(text)])[..|out|] == out;
    assert Escapes(out) + "" == Escapes(out);
  }

  lemma {:induction false} RowHasNoEscapes(out: seq<Piece>, row: seq<Span>)
    ensures Escapes(PushRow(out, row)) == Escapes(out)
  {
    hide Shown, Painted, Escapes, Push;
    if row == [] {
    } else {
      var init, last := row[..|row| - 1], row[|row| - 1];
      RowHasNoEscapes(out, init);
      PushEscapes(PushRow(out, init), last.text, last.paint);
    }
  }

  lemma {:induction false} RowsHaveNoEscapes(out: seq<Piece>, rows: seq<seq<Span>>)
    ensures Escapes(PushRows(out, rows)) == Escapes(out)
  {
    hide Shown, Painted, Escapes, Push, PushRow;
    if rows == [] {
    } else {
      var init, last := rows[..|rows| - 1], rows[|rows| - 1];
      RowsHaveNoEscapes(out, init);
      RowHasNoEscapes(PushRows(out, init), last);
      PushEscapes(PushRow(PushRows(out, init), last), "\n", Plain);
    }
  }

  lemma CodeHasNoEscapes(out: seq<Piece>, language: string, code: string)
    ensures Escapes(PushCode(out, language, code)) == Escapes(out)
  {
    hide Shown, Painted, Escapes, Push;
    if language == [] {
      PushEscapes(out, code, Plain);
      PushEscapes(Push(out, code, Plain), "\n\n", Plain);
    } else {
      var a := Push(out, CODE_OPEN + language, Heading);
      var b := Push(a, "\n", Plain);
      var c := Push(b, code, Plain);
      PushEscapes(out, CODE_OPEN + language, Heading);
      PushEscapes(a, "\n", Plain);
      PushEscapes(b, code, Plain);
      PushEscapes(c, CODE_CLOSE, Heading);
      PushEscapes(Push(c, CODE_CLOSE, Heading), "\n\n", Plain);
    }
  }

  /** The hyperlink escape (OSC 8): a link opens with its target, and closes with none behind a style reset. */
  function LinkEscapes(node: Node): string {
    match node
    case LinkStart(url) => "\U{1b}]8;;" + url + "\U{7}"
    case LinkEnd => "\U{1b}[0m\U{1b}]8;;\U{7}"
    case _ => ""
  }

  lemma LinkWrites(m: Metric, out: seq<Piece>, ctx: Context, node: Node)
    requires node.LinkStart? || node.LinkEnd?
    ensures Escapes(WriteNode(m, out, ctx, node)) == Escapes(out) + LinkEscapes(node)
  {
    hide Shown, Painted, Escapes, PushEscape;
    if node.LinkEnd? {
      PushEscapes(out, "\U{1b}[0m\U{1b}]8;;\U{7}", Plain);
    } else {
      var open := PushEscape(out, "\U{1b}]8;;");
      PushEscapes(out, "\U{1b}]8;;", Plain);
      PushEscapes(open, node.url, Plain);
      PushEscapes(PushEscape(open, node.url), "\U{7}", Plain);
      Assoc(Escapes(out), "\U{1b}]8;;", node.url);
      Assoc(Escapes(out), "\U{1b}]8;;" + node.url, "\U{7}");
    }
  }

  /** Links are the only nodes that write escapes of their own. */
  lemma NodeEscapes(m: Metric, out: seq<Piece>, ctx: Context, node: Node)
    ensures Escapes(WriteNode(m, out, ctx, node)) == Escapes(out) + LinkEscapes(node)
  {
    hide Shown, Painted, Escapes, Push, PushEscape, PushRows, PushCode, Grid, Columns, Indent, HeadingPrefix, RunPaint;
    forall o: seq<Piece>, text, paint ensures Escapes(Push(o, text, paint)) == Escapes(o) {
      PushEscapes(o, text, paint);
    }
    assert Escapes(out) + "" == Escapes(out);
    match node
    case LinkStart(url) => LinkWrites(m, out, ctx, node);
    case LinkEnd => LinkWrites(m, out, ctx, node);
    case CodeBlock(language, code) => CodeHasNoEscapes(out, language, code);
    case Table(rows) => RowsHaveNoEscapes(Push(out, "\n", Plain), Grid(m, Ansi, rows));
    case _ =>
  }
}
