/** Where everything stands in a drawn table: the lines of the grid, and each cell in its line. */
module TablePlaces {
  import opened Text
  import opened Markdown
  import opened MarkdownTable
  import opened TableGeometry
  import opened CodeBodies
  import opened GridTexts

  // ----- a cell in its row -----

  /** The first `n` columns of a row are the first `k`, then cell `k`, then the rest. */
  lemma {:induction false} RowSplits(m: Metric, b: Backend, cells: seq<string>, widths: seq<nat>, k: nat, n: nat,
                                     header: bool)
      returns (rest: seq<Span>)
    requires k < n <= |widths|
    ensures RowLine(m, b, cells, widths, n, header)
         == RowLine(m, b, cells, widths, k, header)
            + CellSpans(m, b, CellAt(cells, k), widths[k], header) + rest
    decreases n
  {
    hide CellSpans;
    if n == k + 1 {
      rest := [];
    } else {
      rest := RowSplits(m, b, cells, widths, k, n - 1, header);
      var head := RowLine(m, b, cells, widths, k, header) + CellSpans(m, b, CellAt(cells, k), widths[k], header);
      var more := CellSpans(m, b, CellAt(cells, n - 1), widths[n - 1], header);
      Assoc(head, rest, more);
      rest := rest + more;
    }
  }

  function ContentPaint(header: bool): Paint { if header then BoldHeading else Plain }

  /** Only the rows for the terminal interface pad a header in its own style. */
  function SpacePaint(b: Backend, header: bool): Paint { if header && b == Tui then BoldHeading else Plain }

  /** One space, the cell, spaces, and the bar that ends the column. */
  function Placed(b: Backend, cell: string, spaces: string, header: bool): seq<Cell> {
    Painted(" ", SpacePaint(b, header)) + Painted(cell, ContentPaint(header))
    + Painted(spaces, SpacePaint(b, header)) + Painted("\U{2502}", Muted)
  }

  lemma CellSpansPlaced(m: Metric, b: Backend, cell: string, width: nat, header: bool)
    ensures RowCells(CellSpans(m, b, cell, width, header))
         == Placed(b, cell, Repeat(" ", Padding(m, width, cell) + 1), header)
  {
    hide Padding, RowCells, Painted;
    var s := CellSpans(m, b, cell, width, header);
    OneSpan(s[0]);
    RowCellsLast([s[0]], s[1]);
    RowCellsLast([s[0]] + [s[1]], s[2]);
    RowCellsLast([s[0]] + [s[1]] + [s[2]], s[3]);
    assert s == [s[0]] + [s[1]] + [s[2]] + [s[3]];
  }

  predicate Spaces(s: string) { forall i :: 0 <= i < |s| ==> s[i] == ' ' }

  lemma {:induction false} RepeatIsSpaces(n: nat)
    ensures Spaces(Repeat(" ", n))
  {
    if n == 0 {
    } else {
      RepeatIsSpaces(n - 1);
    }
  }

  lemma {:induction false} RowEndsInBar(m: Metric, b: Backend, cells: seq<string>, widths: seq<nat>, k: nat,
                                        header: bool)
    requires k <= |widths|
    ensures var row := RowCells(RowLine(m, b, cells, widths, k, header));
            row != [] && row[|row| - 1] == Cell('\U{2502}', Muted)
  {
    var bar := Span(BAR, Muted);
    if k == 0 {
      OneSpan(bar);
    } else {
      var before := RowLine(m, b, cells, widths, k - 1, header);
      var cell := CellSpans(m, b, CellAt(cells, k - 1), widths[k - 1], header);
      RowCellsConcat(before, cell);
      CellSpansPlaced(m, b, CellAt(cells, k - 1), widths[k - 1], header);
      hide RowCells, RowLine;
    }
  }

  lemma HeadReachesOffset(m: Metric, b: Backend, cells: seq<string>, widths: seq<nat>, k: nat, header: bool)
    requires k < |widths| && OneWide(m, " ") && OneWide(m, BAR)
    requires forall i :: 0 <= i < |widths| ==> CellWidth(m, cells, i) <= widths[i]
    ensures Width(m, Characters(RowCells(RowLine(m, b, cells, widths, k, header)))) == Offset(widths, k)
  {
    hide *;
    RowAligned(m, b, cells, widths, k, header);
    LineWidthIsTextWidth(m, RowLine(m, b, cells, widths, k, header));
    RowCharacters(RowLine(m, b, cells, widths, k, header));
  }

  lemma SpacesFill(m: Metric, cells: seq<string>, widths: seq<nat>, k: nat) returns (spaces: string)
    requires k < |widths| && CellWidth(m, cells, k) <= widths[k]
    ensures spaces == Repeat(" ", Padding(m, widths[k], CellAt(cells, k)) + 1)
    ensures Spaces(spaces) && |spaces| == widths[k] - CellWidth(m, cells, k) + 1
  {
    spaces := Repeat(" ", Padding(m, widths[k], CellAt(cells, k)) + 1);
    RepeatIsSpaces(Padding(m, widths[k], CellAt(cells, k)) + 1);
    hide Width, Repeat;
  }

  /**
   * Cell `k` of a row starts one column behind its bar: the row is whatever fills the columns before up to
   * that bar, one space, the cell, spaces that fill its column, the next bar, and the rest.
   */
  lemma CellStandsInRow(m: Metric, b: Backend, cells: seq<string>, widths: seq<nat>, k: nat, header: bool)
      returns (before: seq<Cell>, spaces: string, after: seq<Cell>)
    requires k < |widths| && OneWide(m, " ") && OneWide(m, BAR)
    requires forall i :: 0 <= i < |widths| ==> CellWidth(m, cells, i) <= widths[i]
    ensures RowCells(RowLine(m, b, cells, widths, |widths|, header))
         == before + Placed(b, CellAt(cells, k), spaces, header) + after
    ensures Width(m, Characters(before)) == Offset(widths, k)
    ensures before != [] && before[|before| - 1] == Cell('\U{2502}', Muted)
    ensures Spaces(spaces) && |spaces| == widths[k] - CellWidth(m, cells, k) + 1
  {
    hide *;
    var cell, head := CellAt(cells, k), RowLine(m, b, cells, widths, k, header);
    RowEndsInBar(m, b, cells, widths, k, header);
    HeadReachesOffset(m, b, cells, widths, k, header);
    spaces := SpacesFill(m, cells, widths, k);
    var rest := RowSplits(m, b, cells, widths, k, |widths|, header);
    RowCellsConcat(head + CellSpans(m, b, cell, widths[k], header), rest);
    RowCellsConcat(head, CellSpans(m, b, cell, widths[k], header));
    CellSpansPlaced(m, b, cell, widths[k], header);
    before, after := RowCells(head), RowCells(rest);
  }

  // ----- rules -----

  function Edges(widths: seq<nat>): (edges: seq<string>)
    ensures |edges| == |widths| && forall i :: 0 <= i < |widths| ==> edges[i] == Repeat("\U{2500}", widths[i] + 2)
  {
    seq(|widths|, i requires 0 <= i < |widths| => Repeat("\U{2500}", widths[i] + 2))
  }

  /** A rule: its ends, and between them an edge as wide as each column, joined where columns meet. */
  function Ruled(widths: seq<nat>, left: string, mid: string, right: string): string {
    left + Join(Edges(widths), mid) + right
  }

  lemma {:induction false} JoinLast(parts: seq<string>, last: string, separator: string)
    requires parts != []
    ensures Join(parts + [last], separator) == Join(parts, separator) + (separator + last)
  {
    if |parts| == 1 {
      assert (parts + [last])[1..] == [last];
      Assoc(parts[0], separator, last);
    } else {
      assert (parts + [last])[1..] == parts[1..] + [last];
      JoinLast(parts[1..], last, separator);
      hide Join;
      Assoc(parts[0] + separator, Join(parts[1..], separator), separator + last);
    }
  }

  lemma {:induction false} RuleIsJoined(widths: seq<nat>, k: nat, left: string, mid: string)
    requires k <= |widths|
    ensures RuleText(widths, k, left, mid) == left + Join(Edges(widths)[..k], mid)
  {
    hide Repeat;
    var edges := Edges(widths);
    if k == 0 {
      assert edges[..0] == [] && left + [] == left;
    } else {
      RuleIsJoined(widths, k - 1, left, mid);
      assert edges[..k] == edges[..k - 1] + [edges[k - 1]];
      if k == 1 {
        assert edges[..k] == [edges[0]] && edges[..k - 1] == [];
        assert "" + edges[0] == edges[0] && left + [] == left;
      } else {
        JoinLast(edges[..k - 1], edges[k - 1], mid);
        hide Join;
        Assoc(left, Join(edges[..k - 1], mid), mid + edges[k - 1]);
      }
    }
  }

  lemma RuleLineIsRuled(b: Backend, widths: seq<nat>, left: string, mid: string, right: string)
    ensures LineText(RuleLine(b, widths, left, mid, right)) == Ruled(widths, left, mid, right)
  {
    RuleLineText(b, widths, left, mid, right);
    RuleIsJoined(widths, |widths|, left, mid);
    hide RuleText, LineText, RuleLine, Join;
    assert Edges(widths)[..|widths|] == Edges(widths);
  }

  // ----- the lines of the grid -----

  /** Behind the header of a table with more rows stands a rule. */
  function RowPlace(rows: seq<seq<string>>, i: nat): nat { if i == 0 then 0 else i + 1 }

  lemma {:induction false} BodyLines(m: Metric, b: Backend, rows: seq<seq<string>>, widths: seq<nat>, n: nat)
    requires n <= |rows|
    ensures var body := Body(m, b, rows, widths, n);
            && |body| == n + (if n > 0 && |rows| > 1 then 1 else 0)
            && (forall i :: 0 <= i < n ==>
                  body[RowPlace(rows, i)] == RowLine(m, b, rows[i], widths, |widths|, i == 0))
            && (n > 0 && |rows| > 1 ==> body[1] == RuleLine(b, widths, LEFT_TEE, CROSS, RIGHT_TEE))
  {
    hide RowLine, RuleLine;
    if n == 0 {
    } else {
      BodyLines(m, b, rows, widths, n - 1);
      var before := Body(m, b, rows, widths, n - 1);
      var more := RowLines(m, b, rows, widths, n - 1);
      hide Body;
      assert Body(m, b, rows, widths, n) == before + more by { BodyNext(m, b, rows, widths, n); }
    }
  }

  /**
   * The lines of a drawn table: a top rule, the header, a rule behind it if there are more rows, these in
   * order, and a bottom rule.
   */
  lemma GridLines(m: Metric, b: Backend, rows: seq<seq<string>>)
    requires Drawn(rows)
    ensures var widths, lines := Widths(m, rows, Columns(rows)), Grid(m, b, rows);
            var last := |rows| + if |rows| > 1 then 2 else 1;
            && |lines| == last + 1
            && LineText(lines[0]) == Ruled(widths, "\U{250C}", "\U{252C}", "\U{2510}")
            && (|rows| > 1 ==> LineText(lines[2]) == Ruled(widths, "\U{251C}", "\U{253C}", "\U{2524}"))
            && LineText(lines[last]) == Ruled(widths, "\U{2514}", "\U{2534}", "\U{2518}")
            && forall i :: 0 <= i < |rows| ==>
                 RowPlace(rows, i) + 1 < last
                 && lines[RowPlace(rows, i) + 1] == RowLine(m, b, rows[i], widths, |widths|, i == 0)
  {
    hide *;
    var widths := Widths(m, rows, Columns(rows));
    SomeRows(rows);
    var body := Body(m, b, rows, widths, |rows|);
    BodyLines(m, b, rows, widths, |rows|);
    RulesAreRuled(b, widths);
    GridIs(m, b, rows);
    FramedAt(RuleLine(b, widths, TOP_LEFT, TOP_TEE, TOP_RIGHT), body,
             RuleLine(b, widths, BOTTOM_LEFT, BOTTOM_TEE, BOTTOM_RIGHT));
    forall i | 0 <= i < |rows|
      ensures RowPlace(rows, i) < |body|
      ensures Grid(m, b, rows)[RowPlace(rows, i) + 1] == RowLine(m, b, rows[i], widths, |widths|, i == 0)
    {
      PlaceFits(rows, i);
      assert Grid(m, b, rows)[RowPlace(rows, i) + 1] == body[RowPlace(rows, i)];
    }
  }

  lemma PlaceFits(rows: seq<seq<string>>, i: nat)
    requires i < |rows|
    ensures RowPlace(rows, i) < |rows| + if |rows| > 1 then 1 else 0
  {
  }

  lemma SomeRows(rows: seq<seq<string>>)
    requires Drawn(rows)
    ensures rows != []
  {
  }

  lemma GridIs(m: Metric, b: Backend, rows: seq<seq<string>>)
    requires Drawn(rows)
    ensures var widths := Widths(m, rows, Columns(rows));
            Grid(m, b, rows) == [RuleLine(b, widths, TOP_LEFT, TOP_TEE, TOP_RIGHT)]
              + Body(m, b, rows, widths, |rows|) + [RuleLine(b, widths, BOTTOM_LEFT, BOTTOM_TEE, BOTTOM_RIGHT)]
  {
    hide Body, RuleLine, Columns;
  }

  lemma RulesAreRuled(b: Backend, widths: seq<nat>)
    ensures LineText(RuleLine(b, widths, TOP_LEFT, TOP_TEE, TOP_RIGHT))
         == Ruled(widths, "\U{250C}", "\U{252C}", "\U{2510}")
    ensures LineText(RuleLine(b, widths, LEFT_TEE, CROSS, RIGHT_TEE))
         == Ruled(widths, "\U{251C}", "\U{253C}", "\U{2524}")
    ensures LineText(RuleLine(b, widths, BOTTOM_LEFT, BOTTOM_TEE, BOTTOM_RIGHT))
         == Ruled(widths, "\U{2514}", "\U{2534}", "\U{2518}")
  {
    hide LineText, RuleLine, Ruled;
    RuleLineIsRuled(b, widths, TOP_LEFT, TOP_TEE, TOP_RIGHT);
    RuleLineIsRuled(b, widths, LEFT_TEE, CROSS, RIGHT_TEE);
    RuleLineIsRuled(b, widths, BOTTOM_LEFT, BOTTOM_TEE, BOTTOM_RIGHT);
  }

  lemma FramedAt<T>(first: T, body: seq<T>, last: T)
    ensures var all := [first] + body + [last];
            && |all| == |body| + 2 && all[0] == first && all[|body| + 1] == last
            && forall j :: 0 <= j < |body| ==> all[j + 1] == body[j]
  {
  }

  /** Every cell of a drawn table, missing ones as empty, stands in the line of its row at the offset of its column. */
  lemma CellStandsInGrid(m: Metric, b: Backend, rows: seq<seq<string>>, i: nat, k: nat)
      returns (before: seq<Cell>, spaces: string, after: seq<Cell>)
    requires Boxy(m) && i < |rows| && k < Columns(rows)
    ensures var widths, lines, at := Widths(m, rows, Columns(rows)), Grid(m, b, rows), RowPlace(rows, i) + 1;
            && at < |lines| && RowCells(lines[at]) == before + Placed(b, CellAt(rows[i], k), spaces, i == 0) + after
            && Width(m, Characters(before)) == Offset(widths, k)
            && before != [] && before[|before| - 1] == Cell('\U{2502}', Muted)
            && Spaces(spaces) && |spaces| == widths[k] - CellWidth(m, rows[i], k) + 1
  {
    hide Grid, Columns, RowLine, RowCells, Width, Characters, Offset, Placed, LineText, Ruled, CellWidth, Widest;
    var widths := Widths(m, rows, Columns(rows));
    assert Drawn(rows);
    GlyphsAreOneWide(m);
    GridLines(m, b, rows);
    forall col | 0 <= col < |widths| ensures CellWidth(m, rows[i], col) <= widths[col] { CellsFit(m, rows, i, col); }
    before, spaces, after := CellStandsInRow(m, b, rows[i], widths, k, i == 0);
  }
}
