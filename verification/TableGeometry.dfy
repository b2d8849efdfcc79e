/** The grid is a rectangle with aligned columns, and both renderers draw the same characters. */
module TableGeometry {
  import opened Text
  import opened Markdown
  import opened MarkdownTable

  /** Display width of a line. */
  function LineWidth(m: Metric, line: seq<Span>): nat {
    if line == [] then 0 else LineWidth(m, line[..|line| - 1]) + Width(m, line[|line| - 1].text)
  }

  /** Where column `k` starts: behind the bar on its left. */
  function Offset(widths: seq<nat>, k: nat): nat
    requires k <= |widths|
  {
    if k == 0 then 1 else Offset(widths, k - 1) + widths[k - 1] + 3
  }

  const GLYPHS := " \U{2500}\U{2502}\U{250C}\U{252C}\U{2510}\U{251C}\U{253C}\U{2524}\U{2514}\U{2534}\U{2518}"

  /** The glyphs of the grid are one column wide. */
  ghost predicate Boxy(m: Metric) { forall i :: 0 <= i < |GLYPHS| ==> GLYPHS[i] !in m }

  ghost predicate OneWide(m: Metric, s: string) { |s| == 1 && s[0] !in m }

  lemma GlyphsAreOneWide(m: Metric)
    requires Boxy(m)
    ensures OneWide(m, " ") && OneWide(m, EDGE) && OneWide(m, BAR)
    ensures OneWide(m, TOP_LEFT) && OneWide(m, TOP_TEE) && OneWide(m, TOP_RIGHT)
    ensures OneWide(m, LEFT_TEE) && OneWide(m, CROSS) && OneWide(m, RIGHT_TEE)
    ensures OneWide(m, BOTTOM_LEFT) && OneWide(m, BOTTOM_TEE) && OneWide(m, BOTTOM_RIGHT)
  {
    assert GLYPHS[0] == ' ' && [GLYPHS[1]] == EDGE && [GLYPHS[2]] == BAR;
    assert [GLYPHS[3]] == TOP_LEFT && [GLYPHS[4]] == TOP_TEE && [GLYPHS[5]] == TOP_RIGHT;
    assert [GLYPHS[6]] == LEFT_TEE && [GLYPHS[7]] == CROSS && [GLYPHS[8]] == RIGHT_TEE;
    assert [GLYPHS[9]] == BOTTOM_LEFT && [GLYPHS[10]] == BOTTOM_TEE && [GLYPHS[11]] == BOTTOM_RIGHT;
  }

  lemma {:induction false} WidthConcat(m: Metric, a: string, b: string)
    ensures Width(m, a + b) == Width(m, a) + Width(m, b)
  {
    if b == [] {
      assert a + b == a;
    } else {
      WidthConcat(m, a, b[..|b| - 1]);
      assert (a + b)[..|a + b| - 1] == a + b[..|b| - 1];
    }
  }

  lemma WidthOfOne(m: Metric, s: string)
    requires OneWide(m, s)
    ensures Width(m, s) == 1
  {
    assert s[..0] == [];
  }

  lemma {:induction false} WidthOfRepeat(m: Metric, s: string, n: nat)
    requires OneWide(m, s)
    ensures Width(m, Repeat(s, n)) == n
  {
    if n == 0 {
    } else {
      WidthOfRepeat(m, s, n - 1);
      WidthConcat(m, Repeat(s, n - 1), s);
      WidthOfOne(m, s);
    }
  }

  lemma LineWidthLast(m: Metric, line: seq<Span>, span: Span)
    ensures LineWidth(m, line + [span]) == LineWidth(m, line) + Width(m, span.text)
  {
    assert (line + [span])[..|line|] == line;
  }

  lemma {:induction false} LineWidthConcat(m: Metric, a: seq<Span>, b: seq<Span>)
    ensures LineWidth(m, a + b) == LineWidth(m, a) + LineWidth(m, b)
  {
    if b == [] {
      assert a + b == a;
    } else {
      hide *;
      var init, last := b[..|b| - 1], b[|b| - 1];
      LineWidthConcat(m, a, init);
      LineWidthLast(m, a + init, last);
      LineWidthLast(m, init, last);
      Assoc(a, init, [last]);
      assert init + [last] == b;
    }
  }

  lemma LineWidthOne(m: Metric, span: Span)
    ensures LineWidth(m, [span]) == Width(m, span.text)
  {
    assert [span][..0] == [];
  }

  lemma CellSpansWidth(m: Metric, b: Backend, cell: string, width: nat, header: bool)
    requires Width(m, cell) <= width && OneWide(m, " ") && OneWide(m, BAR)
    ensures LineWidth(m, CellSpans(m, b, cell, width, header)) == width + 3
  {
    hide LineWidth, Width;
    var s := CellSpans(m, b, cell, width, header);
    WidthOfOne(m, " ");
    WidthOfOne(m, BAR);
    WidthOfRepeat(m, " ", Padding(m, width, cell) + 1);
    LineWidthOne(m, s[0]);
    LineWidthLast(m, [s[0]], s[1]);
    LineWidthLast(m, [s[0]] + [s[1]], s[2]);
    LineWidthLast(m, [s[0]] + [s[1]] + [s[2]], s[3]);
    assert s == [s[0]] + [s[1]] + [s[2]] + [s[3]];
  }

  /** In every row, column `k` starts at the same offset, as long as the cells before it fit. */
  lemma {:induction false} RowAligned(m: Metric, b: Backend, cells: seq<string>, widths: seq<nat>, k: nat, header: bool)
    requires k <= |widths| && OneWide(m, " ") && OneWide(m, BAR)
    requires forall i :: 0 <= i < |widths| ==> CellWidth(m, cells, i) <= widths[i]
    ensures LineWidth(m, RowLine(m, b, cells, widths, k, header)) == Offset(widths, k)
  {
    hide LineWidth, Width, CellSpans;
    if k == 0 {
      LineWidthOne(m, Span(BAR, Muted));
      WidthOfOne(m, BAR);
    } else {
      RowAligned(m, b, cells, widths, k - 1, header);
      assert CellWidth(m, cells, k - 1) <= widths[k - 1];
      var line := CellSpans(m, b, CellAt(cells, k - 1), widths[k - 1], header);
      CellSpansWidth(m, b, CellAt(cells, k - 1), widths[k - 1], header);
      LineWidthConcat(m, RowLine(m, b, cells, widths, k - 1, header), line);
    }
  }

  /** A rule has its tee where the rows have their bar. */
  lemma {:induction false} RuleTextAligned(m: Metric, widths: seq<nat>, k: nat, left: string, mid: string)
    requires k <= |widths| && OneWide(m, left) && OneWide(m, mid) && OneWide(m, EDGE)
    ensures Width(m, RuleText(widths, k, left, mid)) == Offset(widths, k) - if k > 0 then 1 else 0
  {
    hide Width;
    WidthOfOne(m, left);
    if k == 0 {
    } else {
      RuleTextAligned(m, widths, k - 1, left, mid);
      WidthOfRepeat(m, EDGE, widths[k - 1] + 2);
      WidthOfOne(m, mid);
      EmptyHasNoWidth(m);
      WidthConcat(m, if k > 1 then mid else "", Repeat(EDGE, widths[k - 1] + 2));
      WidthConcat(m, RuleText(widths, k - 1, left, mid),
                  (if k > 1 then mid else "") + Repeat(EDGE, widths[k - 1] + 2));
    }
  }

  function LineText(line: seq<Span>): string {
    if line == [] then [] else LineText(line[..|line| - 1]) + line[|line| - 1].text
  }

  lemma LineTextLast(line: seq<Span>, span: Span)
    ensures LineText(line + [span]) == LineText(line) + span.text
  {
    assert (line + [span])[..|line|] == line;
  }

  lemma LineTextOne(span: Span)
    ensures LineText([span]) == span.text
  {
    assert [span][..0] == [];
    assert [] + span.text == span.text;
  }

  /** Both renderers write the same rule. */
  lemma {:induction false} RuleTexts(widths: seq<nat>, k: nat, left: string, mid: string)
    requires k <= |widths|
    ensures LineText(RuleSpans(widths, k, left, mid)) == RuleText(widths, k, left, mid)
  {
    hide LineText;
    if k == 0 {
      LineTextOne(Span(left, Muted));
    } else {
      RuleTexts(widths, k - 1, left, mid);
      var before, edge := RuleSpans(widths, k - 1, left, mid), Span(Repeat(EDGE, widths[k - 1] + 2), Muted);
      if k > 1 {
        LineTextLast(before, Span(mid, Muted));
        LineTextLast(before + [Span(mid, Muted)], edge);
        Assoc(before, [Span(mid, Muted)], [edge]);
        Assoc(LineText(before), mid, edge.text);
      } else {
        LineTextLast(before, edge);
        assert [] + [edge] == [edge] && "" + edge.text == edge.text;
      }
    }
  }

  lemma RuleLineText(b: Backend, widths: seq<nat>, left: string, mid: string, right: string)
    ensures LineText(RuleLine(b, widths, left, mid, right)) == RuleText(widths, |widths|, left, mid) + right
  {
    hide LineText, RuleText, RuleSpans;
    if b.Tui? {
      LineTextOne(Span(RuleText(widths, |widths|, left, mid) + right, Muted));
    } else {
      RuleTexts(widths, |widths|, left, mid);
      LineTextLast(RuleSpans(widths, |widths|, left, mid), Span(right, Muted));
    }
  }

  lemma {:induction false} LineWidthIsTextWidth(m: Metric, line: seq<Span>)
    ensures LineWidth(m, line) == Width(m, LineText(line))
  {
    if line == [] {
      EmptyHasNoWidth(m);
    } else {
      hide Width;
      LineWidthIsTextWidth(m, line[..|line| - 1]);
      WidthConcat(m, LineText(line[..|line| - 1]), line[|line| - 1].text);
    }
  }

  lemma RuleLineWidth(m: Metric, b: Backend, widths: seq<nat>, left: string, mid: string, right: string)
    requires widths != [] && OneWide(m, left) && OneWide(m, mid) && OneWide(m, right) && OneWide(m, EDGE)
    ensures LineWidth(m, RuleLine(b, widths, left, mid, right)) == Offset(widths, |widths|)
  {
    hide *;
    LineWidthIsTextWidth(m, RuleLine(b, widths, left, mid, right));
    RuleLineText(b, widths, left, mid, right);
    RuleTextAligned(m, widths, |widths|, left, mid);
    WidthConcat(m, RuleText(widths, |widths|, left, mid), right);
    WidthOfOne(m, right);
  }

  // ----- the whole grid -----

  lemma {:induction false} CellsFit(m: Metric, rows: seq<seq<string>>, r: nat, col: nat)
    requires r < |rows|
    ensures CellWidth(m, rows[r], col) <= Widest(m, rows, col)
  {
    hide CellWidth;
    if r < |rows| - 1 {
      CellsFit(m, rows[..|rows| - 1], r, col);
    }
  }

  /** A column is no wider than it must be: some cell fills it. */
  lemma {:induction false} WidestIsReached(m: Metric, rows: seq<seq<string>>, col: nat)
    ensures || Widest(m, rows, col) == 0
            || exists r :: 0 <= r < |rows| && CellWidth(m, rows[r], col) == Widest(m, rows, col)
  {
    hide CellWidth;
    if rows == [] {
    } else {
      var init := rows[..|rows| - 1];
      WidestIsReached(m, init, col);
      if Widest(m, rows, col) != CellWidth(m, rows[|rows| - 1], col) && Widest(m, init, col) != 0 {
        var r :| 0 <= r < |init| && CellWidth(m, init[r], col) == Widest(m, init, col);
        assert rows[r] == init[r];
      }
    }
  }

  ghost predicate AllWide(m: Metric, lines: seq<seq<Span>>, width: nat) {
    forall i :: 0 <= i < |lines| ==> LineWidth(m, lines[i]) == width
  }

  /** A table has as many columns as its longest row has cells. */
  lemma {:induction false} ColumnsAreReached(rows: seq<seq<string>>)
    ensures forall r :: 0 <= r < |rows| ==> |rows[r]| <= Columns(rows)
    ensures rows != [] ==> exists r :: 0 <= r < |rows| && |rows[r]| == Columns(rows)
  {
    if rows == [] {
    } else {
      var init := rows[..|rows| - 1];
      ColumnsAreReached(init);
      assert forall r :: 0 <= r < |init| ==> rows[r] == init[r];
      assert init != [] ==> exists r :: 0 <= r < |rows| && |rows[r]| == Columns(init);
    }
  }

  lemma {:induction false} BodyIsRectangular(m: Metric, b: Backend, rows: seq<seq<string>>, n: nat)
    requires Boxy(m) && n <= |rows| && Drawn(rows)
    ensures var widths := Widths(m, rows, Columns(rows));
            AllWide(m, Body(m, b, rows, widths, n), Offset(widths, |widths|))
  {
    hide LineWidth, RowLine, RuleLine, Offset, Widest, Columns, CellWidth, Boxy;
    var widths := Widths(m, rows, Columns(rows));
    if n == 0 {
    } else {
      BodyIsRectangular(m, b, rows, n - 1);
      GlyphsAreOneWide(m);
      forall i | 0 <= i < |widths| ensures CellWidth(m, rows[n - 1], i) <= widths[i] {
        CellsFit(m, rows, n - 1, i);
      }
      RowAligned(m, b, rows[n - 1], widths, |widths|, n == 1);
      RuleLineWidth(m, b, widths, LEFT_TEE, CROSS, RIGHT_TEE);
    }
  }

  /** Every line of a drawn grid is as wide as every other: the columns, three per column, and one. */
  lemma GridIsRectangular(m: Metric, b: Backend, rows: seq<seq<string>>)
    requires Boxy(m) && Drawn(rows)
    ensures var widths := Widths(m, rows, Columns(rows));
            AllWide(m, Grid(m, b, rows), Offset(widths, |widths|))
  {
    hide LineWidth, Body, RuleLine, Offset, Widest, Columns, Boxy;
    var widths := Widths(m, rows, Columns(rows));
    GlyphsAreOneWide(m);
    BodyIsRectangular(m, b, rows, |rows|);
    RuleLineWidth(m, b, widths, TOP_LEFT, TOP_TEE, TOP_RIGHT);
    RuleLineWidth(m, b, widths, BOTTOM_LEFT, BOTTOM_TEE, BOTTOM_RIGHT);
  }
}
