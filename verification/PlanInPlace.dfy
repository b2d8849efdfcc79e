/** What ticking does to the text of the plan document: which characters it writes. */
module PlanInPlace {
  import opened Text
  import opened CodeBodies
  import opened PlanDocument
  import opened PlanLaws

  // ----- lines put back together -----

  lemma {:induction false} TerminatedJoin(lines: seq<string>)
    requires lines != []
    ensures Terminated(lines) == Join(lines, "\n") + "\n"
  {
    if |lines| == 1 {
      assert lines[0] + "\n" + [] == lines[0] + "\n";
    } else {
      TerminatedJoin(lines[1..]);
      Assoc(lines[0] + "\n", Join(lines[1..], "\n"), "\n");
    }
  }

  lemma RejoinedText(lines: seq<string>, ended: bool)
    requires lines != []
    ensures Rejoined(lines, ended) + (if ended then "" else "\n") == Terminated(lines)
  {
    TerminatedJoin(lines);
    hide Join, Terminated;
    assert Join(lines, "\n") + "" == Join(lines, "\n");
    assert Rejoined(lines, ended) + "" == Rejoined(lines, ended);
  }

  /** Reading a text by lines and ending each again makes it shorter for every CRLF. */
  lemma {:induction false} LinesShorten(text: string)
    ensures |Terminated(Lines(text))| <= |text| + if Ended(text) then 0 else 1
    ensures !NoCrlf(text) ==> |Terminated(Lines(text))| < |text| + if Ended(text) then 0 else 1
    decreases |text|
  {
    if text == [] {
      assert Terminated([]) == [];
    } else {
      var k := UpToNewlineCuts(text);
      if k < |text| {
        var head, rest := text[..k], text[k + 1..];
        assert text == head + "\n" + rest;
        assert Ended(text) <==> Ended(rest) by {
          assert rest != [] ==> rest[|rest| - 1] == text[|text| - 1];
        }
        LinesShorten(rest);
        LinesOfTerminated(head, rest);
        CrlfIn(head, rest);
        hide Lines, Ended, NoCrlf, Terminated;
        TerminatedCons(StripCr(head), Lines(rest));
      } else {
        assert text[..k] == text && Lines(text) == [text];
        hide Lines;
        TerminatedCons(text, []);
        assert Terminated([]) == [] && [text] + [] == [text];
        assert text[|text| - 1] != '\n';
      }
    }
  }

  // ----- the character that is written -----

  lemma OpenInContent(rest: string)
    ensures HasOpen(rest) <==> HasOpen(Trim(rest))
  {
    TickTrim(rest);
    var a, t, z := TrimCuts(rest);
    hide Trim, FindOpen;
    var k := FindOpen(rest, 0);
    if k < |rest| {
      OpenInside(rest, a, t, z, k);
      assert OpenAt(t, k - |a|);
    }
    var j := FindOpen(t, 0);
    assert j < |t| ==> OpenAt(rest, |a| + j);
  }

  /** A checkbox line has an empty mark unless its box is ticked and its content has none. */
  lemma OpenInLine(line: string)
    requires BoxOf(line).Some?
    ensures HasOpen(line) <==> !BoxOf(line).value.done || HasOpen(BoxOf(line).value.content)
  {
    var pre, a, bullet, c, mark, rest := BoxShape(line);
    LeadHasNoBracket(pre, a, bullet, c);
    OpenInContent(rest);
    TickChanges(line);
    TickChanges(rest);
    hide BoxOf, HasOpen, TickLine, Trim;
    if mark == "[ ]" {
      TickOfPending(pre, rest);
      assert (pre + "[x]" + rest)[|pre| + 1] == 'x' && line[|pre| + 1] == ' ';
    } else {
      TickOfDone(pre, mark, rest);
      SameBehind(pre + mark, TickLine(rest), rest);
    }
  }

  lemma SameBehind(head: string, a: string, b: string)
    ensures head + a == head + b <==> a == b
  {
    assert (head + a)[|head|..] == a && (head + b)[|head|..] == b;
  }

  /** One space before the end of the text becomes an x. */
  ghost predicate SpaceTicked(before: string, after: string, p: nat) {
    p < |before| && before[p] == ' ' && after == before[p := 'x']
  }

  lemma LineTicked(line: string)
    requires HasOpen(line)
    ensures SpaceTicked(line, TickLine(line), FindOpen(line, 0) + 1)
  {
    hide FindOpen;
  }

  lemma TickedBefore(a: string, b: string, p: nat, rest: string)
    requires SpaceTicked(a, b, p)
    ensures SpaceTicked(a + rest, b + rest, p)
  {
  }

  lemma TickedBehindHead(head: string, a: string, b: string, p: nat)
    requires SpaceTicked(a, b, p)
    ensures SpaceTicked(head + a, head + b, |head| + p)
  {
  }

  /** Whether ticking checkbox `k` writes anything. */
  predicate Touches(lines: seq<string>, k: nat)
    requires k < |Boxes(lines)|
  {
    !Boxes(lines)[k].done || HasOpen(Boxes(lines)[k].content)
  }

  /** Ticking changes one space of the lines, or nothing. */
  lemma {:induction false} TickedText(lines: seq<string>, k: nat) returns (p: nat)
    requires k < |Boxes(lines)|
    ensures Touches(lines, k) ==>
              p + 1 < |Terminated(lines)| && SpaceTicked(Terminated(lines), Terminated(Ticked(lines, k)), p)
    ensures !Touches(lines, k) ==> Ticked(lines, k) == lines
  {
    hide *;
    assert lines != [] by { NothingBoxed(lines); }
    var head, tail := lines[0], lines[1..];
    assert lines == [head] + tail;
    BoxesCons(head, tail);
    if BoxOf(head).Some? && k == 0 {
      p := TickedFirst(head, tail);
    } else {
      BoxesBehind(head, tail, k);
      var next := if BoxOf(head).Some? then k - 1 else k;
      p := TickedText(tail, next);
      p := TickedLater(head, tail, k, next, p);
    }
  }

  lemma NothingBoxed(lines: seq<string>)
    ensures lines == [] ==> Boxes(lines) == []
  {
  }

  lemma TickedFirst(head: string, tail: seq<string>) returns (p: nat)
    requires BoxOf(head).Some?
    ensures var lines := [head] + tail;
            && 0 < |Boxes(lines)| && Touches(lines, 0) == HasOpen(head)
            && (HasOpen(head) ==>
                  p + 1 < |Terminated(lines)| && SpaceTicked(Terminated(lines), Terminated(Ticked(lines, 0)), p))
            && (!HasOpen(head) ==> Ticked(lines, 0) == lines)
  {
    BoxesCons(head, tail);
    OpenInLine(head);
    TickedCons(head, tail, 0);
    TickChanges(head);
    assert BoxesOfLine(head) == [BoxOf(head).value];
    hide BoxOf, Boxes, HasOpen, TickLine, FindOpen, Terminated, SpaceTicked, Ticked;
    p := FindOpen(head, 0) + 1;
    if HasOpen(head) {
      LineTicked(head);
      TickedWithin(head, TickLine(head), p);
      var rest := "\n" + Terminated(tail);
      TickedBefore(head, TickLine(head), p, rest);
      TerminatedCons(head, tail);
      TerminatedCons(TickLine(head), tail);
      Assoc(head, "\n", Terminated(tail));
      Assoc(TickLine(head), "\n", Terminated(tail));
    }
  }

  lemma TickedWithin(a: string, b: string, p: nat)
    requires SpaceTicked(a, b, p)
    ensures p < |a|
  {
  }

  lemma BoxesBehind(head: string, tail: seq<string>, k: nat)
    requires k < |Boxes([head] + tail)| && !(BoxOf(head).Some? && k == 0)
    ensures var next := if BoxOf(head).Some? then k - 1 else k;
            && next < |Boxes(tail)| && Boxes([head] + tail)[k] == Boxes(tail)[next]
            && Touches([head] + tail, k) == Touches(tail, next)
  {
    BoxesCons(head, tail);
    hide BoxOf, Boxes, HasOpen;
  }

  lemma TickedLater(head: string, tail: seq<string>, k: nat, next: nat, at: nat) returns (p: nat)
    requires !(BoxOf(head).Some? && k == 0) && next == (if BoxOf(head).Some? then k - 1 else k)
    requires next < |Boxes(tail)| && k < |Boxes([head] + tail)| && Touches([head] + tail, k) == Touches(tail, next)
    requires Touches(tail, next) ==>
               at + 1 < |Terminated(tail)| && SpaceTicked(Terminated(tail), Terminated(Ticked(tail, next)), at)
    requires !Touches(tail, next) ==> Ticked(tail, next) == tail
    ensures var lines := [head] + tail;
            && (Touches(lines, k) ==>
                  p + 1 < |Terminated(lines)| && SpaceTicked(Terminated(lines), Terminated(Ticked(lines, k)), p))
            && (!Touches(lines, k) ==> Ticked(lines, k) == lines)
  {
    hide *;
    TickedCons(head, tail, k);
    TerminatedCons(head, tail);
    TerminatedCons(head, Ticked(tail, next));
    p := |head + "\n"| + at;
    if Touches(tail, next) {
      TickedBehindHead(head + "\n", Terminated(tail), Terminated(Ticked(tail, next)), at);
    }
  }

  lemma {:induction false} TickedLength(lines: seq<string>, k: nat)
    ensures |Terminated(Ticked(lines, k))| == |Terminated(lines)| && |Ticked(lines, k)| == |lines|
  {
    if lines == [] {
    } else {
      var head, tail := lines[0], lines[1..];
      var next := if BoxOf(head).Some? && k > 0 then k - 1 else k;
      TickedLength(tail, next);
      hide *;
      assert lines == [head] + tail;
      TickedCons(head, tail, k);
      TerminatedCons(head, tail);
      TerminatedCons(head, Ticked(tail, next));
      TerminatedCons(TickLine(head), tail);
    }
  }

  // ----- the document -----

  lemma SomeLines(text: string)
    ensures Lines(text) == [] <==> text == []
  {
  }

  /** Without CRLF, ticking writes back the text with one space turned into an x, or as it is. */
  lemma MarkWithoutCrlf(text: string, k: nat)
    requires NoCrlf(text) && k < |Boxes(Lines(text))|
    ensures Touches(Lines(text), k) ==> exists p :: SpaceTicked(text, Marked(text, k), p)
    ensures !Touches(Lines(text), k) ==> Marked(text, k) == text
  {
    hide Boxes, Ticked, Join, Terminated, Touches, Lines, BoxOf;
    var lines, ended := Lines(text), EndsLine(text);
    NothingBoxed(lines);
    SomeLines(text);
    LinesRestored(text);
    RejoinedText(lines, ended);
    TickedLength(lines, k);
    RejoinedText(Ticked(lines, k), ended);
    var p := TickedText(lines, k);
    hide Rejoined;
    var after := Rejoined(Ticked(lines, k), ended);
    if Touches(lines, k) {
      if ended {
        assert after + "" == after;
      } else {
        assert after == (after + "\n")[..|after|] && text == (text + "\n")[..|text|];
      }
      assert SpaceTicked(text, Marked(text, k), p);
    } else if ended {
      assert after + "" == after;
    } else {
      assert after == (after + "\n")[..|after|] && text == (text + "\n")[..|text|];
    }
  }

  /** With a CRLF anywhere, ticking shortens the document. */
  lemma MarkWithCrlf(text: string, k: nat)
    requires !NoCrlf(text)
    ensures |Marked(text, k)| < |text|
  {
    hide Ticked, Join, Terminated, Lines, NoCrlf, Rejoined;
    var lines, ended := Lines(text), EndsLine(text);
    assert text != [] by { CrlfNeedsText(text); }
    SomeLines(text);
    LinesShorten(text);
    TickedLength(lines, k);
    RejoinedText(Ticked(lines, k), ended);
  }

  lemma CrlfNeedsText(text: string)
    requires !NoCrlf(text)
    ensures text != []
  {
  }

  ghost predicate DiffersInOne(a: string, b: string) {
    |a| == |b| && exists p :: 0 <= p < |a| && a[p] != b[p] && b == a[p := b[p]]
  }

  /** Ticking a pending checkbox changes exactly one character of the document if and only if it has no CRLF. */
  lemma MarkInPlace(text: string, k: nat)
    requires k < |Boxes(Lines(text))| && !Boxes(Lines(text))[k].done
    ensures DiffersInOne(text, Marked(text, k)) <==> NoCrlf(text)
  {
    hide Boxes, Lines, Marked, NoCrlf, HasOpen;
    if NoCrlf(text) {
      MarkWithoutCrlf(text, k);
      var p :| SpaceTicked(text, Marked(text, k), p);
    } else {
      MarkWithCrlf(text, k);
    }
  }

  /**
   * Ticking a ticked checkbox leaves the document as it is if and only if it has no CRLF and the content
   * of the box has no empty mark.
   */
  lemma MarkIsIdempotent(text: string, k: nat)
    requires k < |Boxes(Lines(text))| && Boxes(Lines(text))[k].done
    ensures Marked(text, k) == text <==> NoCrlf(text) && !HasOpen(Boxes(Lines(text))[k].content)
  {
    hide Boxes, Lines, Marked, NoCrlf, HasOpen;
    if NoCrlf(text) {
      MarkWithoutCrlf(text, k);
    } else {
      MarkWithCrlf(text, k);
    }
  }
}
