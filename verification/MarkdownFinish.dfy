/** The finished outputs, trailing blank space dropped, and the documents that always agree. */
module MarkdownFinish {
  import opened Text
  import opened Markdown
  import opened MarkdownTable
  import opened MarkdownProject
  import opened TableGeometry
  import opened CodeBodies
  import opened GridTexts
  import opened MarkdownAgreement

  lemma {:induction false} TrimEndIgnores(a: string, w: string)
    requires AllWhitespace(w)
    ensures TrimEnd(a + w) == TrimEnd(a)
  {
    if w == [] {
      assert a + w == a;
    } else {
      assert (a + w)[..|a + w| - 1] == a + w[..|w| - 1];
      TrimEndIgnores(a, w[..|w| - 1]);
    }
  }

  lemma TrimmedToNothing(s: string)
    requires Trim(s) == []
    ensures AllWhitespace(s)
  {
    var i := TrimStartCuts(s);
    var k := TrimEndCuts(s[i..]);
    hide TrimStart, TrimEnd;
    assert s == s[..i] + s[i..];
  }

  lemma {:induction false} BlankRowIsBlank(row: seq<Span>)
    requires BlankRow(row)
    ensures AllWhitespace(LineText(row))
  {
    if row == [] {
    } else {
      var init, last := row[..|row| - 1], row[|row| - 1];
      BlankRowIsBlank(init);
      TrimmedToNothing(last.text);
      hide Trim;
      assert forall i :: 0 <= i < |LineText(init)| ==> LineText(row)[i] == LineText(init)[i];
    }
  }

  /** Dropping blank rows from the end changes nothing but trailing whitespace. */
  lemma {:induction false} DropKeepsText(rows: seq<seq<Span>>)
    ensures TrimEnd(Characters(RowsCells(DropBlank(rows)))) == TrimEnd(Characters(RowsCells(rows)))
  {
    if rows != [] && BlankRow(rows[|rows| - 1]) {
      var init, last := rows[..|rows| - 1], rows[|rows| - 1];
      DropKeepsText(init);
      BlankRowIsBlank(last);
      RowCharacters(last);
      CharactersConcat(RowsCells(init), EndedRow(last));
      CharactersConcat(RowCells(last), Newline());
      CharactersOfPainted("\n", Plain);
      hide TrimEnd, Characters, RowCells, LineText, BlankRow;
      TrimEndIgnores(Characters(RowsCells(init)), LineText(last) + "\n");
    }
  }

  lemma FinishKeepsText(page: Page)
    ensures TrimEnd(Characters(RowsCells(Trimmed(page)))) == TrimEnd(Characters(PageCells(page)))
  {
    var flushed := BreakIfBegun(page);
    DropKeepsText(flushed.rows);
    assert RowsCells(flushed.rows) + RowCells([]) == RowsCells(flushed.rows);
    CharactersConcat(PageCells(page), Newline());
    hide TrimEnd, Characters, RowsCells, RowCells;
    assert PageCells(page) + [] == PageCells(page);
    TrimEndIgnores(Characters(PageCells(page)), "\n");
    CharactersOfPainted("\n", Plain);
  }

  /** No table, no code block without a label, and labelled bodies free of CRLF that end their last line. */
  predicate Prose(nodes: seq<Node>) {
    forall i :: 0 <= i < |nodes| ==>
      && !nodes[i].Table?
      && (nodes[i].CodeBlock? ==> nodes[i].language != [] && NoCrlf(nodes[i].code) && Ended(nodes[i].code))
  }

  /** Prose holds the same characters in both outputs, as it grows and, but for trailing blanks, when finished. */
  lemma ProseReadsTheSame(m: Metric, nodes: seq<Node>)
    requires Prose(nodes)
    ensures forall n :: 0 <= n <= |nodes| ==> TextsMatch(m, nodes, n)
    ensures TrimEnd(Characters(RowsCells(Trimmed(Laid(m, nodes))))) == TrimEnd(Characters(Shown(Written(m, nodes))))
  {
    hide NoCrlf, Ended, Begun, Drawn, TextsMatch, TrimEnd, Characters, RowsCells, Trimmed, Laid, Shown, Written;
    assert forall i :: 0 <= i < |nodes| ==> TextAgrees(nodes[i], Begun(nodes[..i]));
    TextAgreement(m, nodes);
    FinishKeepsText(Laid(m, nodes));
    WholeMatch(m, nodes);
  }

  lemma WholeMatch(m: Metric, nodes: seq<Node>)
    ensures TextsMatch(m, nodes, |nodes|) ==>
              Characters(Shown(Written(m, nodes))) == Characters(PageCells(Laid(m, nodes)))
  {
    assert nodes[..|nodes|] == nodes;
  }

  // ----- a bare code block -----

  /** What one more node adds to the characters of either output. */
  lemma NextCharacters(m: Metric, nodes: seq<Node>, n: nat)
    requires n < |nodes|
    ensures var ctx, begun := ContextAfter(nodes[..n]), Begun(nodes[..n]);
            && Characters(Shown(Written(m, nodes[..n + 1])))
               == Characters(Shown(Written(m, nodes[..n]))) + Characters(WrittenCells(m, ctx, nodes[n]))
            && Characters(PageCells(Laid(m, nodes[..n + 1])))
               == Characters(PageCells(Laid(m, nodes[..n]))) + Characters(LaidCells(m, ctx, nodes[n], begun))
  {
    hide *;
    var ctx, out, page := ContextAfter(nodes[..n]), Written(m, nodes[..n]), Laid(m, nodes[..n]);
    OneMore(m, nodes, n);
    LaidBegun(m, nodes[..n]);
    WriteShows(m, out, ctx, nodes[n]);
    EmitShows(m, page, ctx, nodes[n]);
    CharactersConcat(Shown(out), WrittenCells(m, ctx, nodes[n]));
    CharactersConcat(PageCells(page), LaidCells(m, ctx, nodes[n], Begun(nodes[..n])));
  }

  lemma BareBlockCharacters(m: Metric, ctx: Context, code: string)
    requires code != [] && NoCrlf(code) && Ended(code)
    ensures Characters(WrittenCells(m, ctx, CodeBlock("", code))) == code + "\n\n"
    ensures Characters(LaidCells(m, ctx, CodeBlock("", code), false)) == code + "\n"
  {
    hide *;
    BareCells(m, ctx, code);
    LinesRestored(code);
    CharactersConcat(Painted(code, Plain), Painted("\n\n", Plain));
    CharactersConcat(Painted(code, Plain), Painted("\n", Plain));
    CharactersOfPainted(code, Plain);
    CharactersOfPainted("\n\n", Plain);
    CharactersOfPainted("\n", Plain);
  }

  lemma BareCells(m: Metric, ctx: Context, code: string)
    ensures WrittenCells(m, ctx, CodeBlock("", code)) == Painted(code, Plain) + Painted("\n\n", Plain)
    ensures LaidCells(m, ctx, CodeBlock("", code), false)
         == Painted(Terminated(Lines(code)), Plain) + Painted("\n", Plain)
  {
    hide Lines, Terminated, Painted;
    var body := Painted(Terminated(Lines(code)), Plain);
    assert [] + body == body;
  }

  lemma PlainCharacters(m: Metric, ctx: Context, text: string, begun: bool)
    ensures Characters(WrittenCells(m, ctx, Html(text))) == text
    ensures Characters(LaidCells(m, ctx, Html(text), begun)) == text
  {
    CharactersOfPainted(text, Plain);
  }

  lemma NothingShown(m: Metric, nodes: seq<Node>)
    requires nodes == []
    ensures Characters(Shown(Written(m, nodes))) == [] && Characters(PageCells(Laid(m, nodes))) == []
    ensures !Begun(nodes)
  {
  }

  /**
   * A bare code block whose body ends its last line, as the parser delivers it, with anything visible
   * behind it: the stream has one empty line more, in the finished outputs too.
   */
  lemma BareBlockReadsDifferently(m: Metric, code: string, behind: string)
    requires code != [] && NoCrlf(code) && Ended(code)
    requires behind != [] && !IsWhitespace(behind[|behind| - 1])
    ensures var nodes := [CodeBlock("", code), Html(behind)];
            && TrimEnd(Characters(Shown(Written(m, nodes)))) == code + "\n\n" + behind
            && TrimEnd(Characters(RowsCells(Trimmed(Laid(m, nodes))))) == code + "\n" + behind
            && code + "\n\n" + behind != code + "\n" + behind
  {
    hide *;
    var nodes := [CodeBlock("", code), Html(behind)];
    BareDocument(m, code, behind);
    FinishKeepsText(Laid(m, nodes));
    EndsVisibly(code + "\n\n", behind);
    EndsVisibly(code + "\n", behind);
    assert |code + "\n\n" + behind| == |code + "\n" + behind| + 1;
  }

  lemma EndsVisibly(before: string, behind: string)
    requires behind != [] && !IsWhitespace(behind[|behind| - 1])
    ensures TrimEnd(before + behind) == before + behind
  {
  }

  lemma BareDocument(m: Metric, code: string, behind: string)
    requires code != [] && NoCrlf(code) && Ended(code)
    ensures var nodes := [CodeBlock("", code), Html(behind)];
            && Characters(Shown(Written(m, nodes))) == code + "\n\n" + behind
            && Characters(PageCells(Laid(m, nodes))) == code + "\n" + behind
  {
    hide *;
    var nodes := [CodeBlock("", code), Html(behind)];
    assert nodes[..0] == [] && nodes[..0 + 1] == nodes[..1] && nodes[..1 + 1] == nodes;
    NothingShown(m, nodes[..0]);
    NextCharacters(m, nodes, 0);
    BareBlockCharacters(m, ContextAfter(nodes[..0]), code);
    NextCharacters(m, nodes, 1);
    PlainCharacters(m, ContextAfter(nodes[..1]), behind, Begun(nodes[..1]));
    assert [] + (code + "\n\n") == code + "\n\n" && [] + (code + "\n") == code + "\n";
  }
}
