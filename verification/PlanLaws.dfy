/** Ticking a task in the document against ticking it in the parsed list. */
module PlanLaws {
  import opened Text
  import opened PlanDocument

  // ----- trimming -----

  lemma {:induction false} TrimStartSnoc(s: string, c: char)
    requires IsWhitespace(c)
    ensures TrimStart(s + [c]) == if TrimStart(s) == [] then [] else TrimStart(s) + [c]
  {
    if s != [] {
      assert (s + [c])[1..] == s[1..] + [c];
      if IsWhitespace(s[0]) {
        TrimStartSnoc(s[1..], c);
      }
    } else {
      assert TrimStart([c]) == TrimStart([]) by { assert [c][1..] == []; }
      assert s + [c] == [c];
    }
  }

  lemma TrimSnoc(s: string, c: char)
    requires IsWhitespace(c)
    ensures Trim(s + [c]) == Trim(s)
  {
    TrimStartSnoc(s, c);
    var t := TrimStart(s);
    if t != [] {
      assert (t + [c])[..|t + [c]| - 1] == t;
    }
  }

  /** A carriage return at the end of a line changes nothing about its checkbox. */
  lemma BoxIgnoresCr(line: string)
    ensures BoxOf(line + "\r") == BoxOf(line)
  {
    TrimStartSnoc(line, '\r');
    var trimmed := TrimStart(line);
    if trimmed != [] {
      assert (trimmed + "\r")[1..] == trimmed[1..] + "\r";
      TrimStartSnoc(trimmed[1..], '\r');
      if AfterBullet(line).Some? {
        var item := AfterBullet(line).value;
        hide TrimStart;
        SameMark(item, "[ ]");
        SameMark(item, "[x]");
        SameMark(item, "[X]");
        if |item| >= 3 {
          assert (item + "\r")[3..] == item[3..] + "\r";
          TrimSnoc(item[3..], '\r');
        }
      }
    }
  }

  lemma SameMark(item: string, mark: string)
    requires |mark| == 3 && mark[2] == ']'
    ensures StartsWith(item + "\r", mark) <==> StartsWith(item, mark)
  {
    if |item| >= 3 {
      assert (item + "\r")[..3] == item[..3];
    }
  }

  // ----- what a ticked line reads as -----

  predicate Lead(pre: string, a: string, bullet: char, c: string) {
    pre == a + [bullet] + c && AllWhitespace(a) && AllWhitespace(c) && (bullet == '-' || bullet == '*')
  }

  lemma BoxShape(line: string)
      returns (pre: string, a: string, bullet: char, c: string, mark: string, rest: string)
    requires BoxOf(line).Some?
    ensures line == pre + mark + rest && Lead(pre, a, bullet, c)
    ensures mark == "[ ]" || mark == "[x]" || mark == "[X]"
    ensures BoxOf(line).value == Box(Trim(rest), mark != "[ ]")
  {
    var item: string;
    a, bullet, c, item := ItemShape(line);
    hide AfterBullet, Trim;
    pre, mark, rest := a + [bullet] + c, item[..3], item[3..];
    assert line == pre + mark + rest by {
      assert mark + rest == item;
      Assoc(a, [bullet], c);
      assert line == pre + item == pre + (mark + rest);
    }
  }

  lemma ItemShape(line: string) returns (a: string, bullet: char, c: string, item: string)
    requires AfterBullet(line).Some?
    ensures line == a + [bullet] + c + item && AfterBullet(line) == Some(item)
    ensures AllWhitespace(a) && AllWhitespace(c) && (bullet == '-' || bullet == '*')
  {
    var i := TrimStartCuts(line);
    var trimmed := line[i..];
    var k := TrimStartCuts(trimmed[1..]);
    BulletRead(line, trimmed);
    hide *;
    a, bullet, c, item := line[..i], trimmed[0], trimmed[1..][..k], trimmed[1..][k..];
    Cut(line, i);
    Cut(trimmed, 1);
    assert trimmed[..1] == [bullet];
    Cut(trimmed[1..], k);
    Assoc(a, [bullet], trimmed[1..]);
    Assoc(a + [bullet], c, item);
  }

  lemma BulletRead(line: string, trimmed: string)
    requires AfterBullet(line).Some? && trimmed == TrimStart(line)
    ensures trimmed != [] && (trimmed[0] == '-' || trimmed[0] == '*')
    ensures AfterBullet(line) == Some(TrimStart(trimmed[1..]))
  {
  }

  lemma Cut(s: string, k: nat)
    requires k <= |s|
    ensures s[..k] + s[k..] == s
  {
  }

  lemma ShapeReads(pre: string, a: string, bullet: char, c: string, mark: string, rest: string)
    requires Lead(pre, a, bullet, c) && (mark == "[ ]" || mark == "[x]" || mark == "[X]")
    ensures BoxOf(pre + mark + rest) == Some(Box(Trim(rest), mark != "[ ]"))
  {
    assert !IsWhitespace('[');
    hide *;
    var item := mark + rest;
    assert item[0] == '[';
    Assoc(pre, mark, rest);
    LeadReads(pre, a, bullet, c, item);
    ItemReads(pre + item, mark, rest);
  }

  lemma LeadReads(pre: string, a: string, bullet: char, c: string, item: string)
    requires Lead(pre, a, bullet, c) && item != [] && !IsWhitespace(item[0])
    ensures AfterBullet(pre + item) == Some(item)
  {
    var tail := [bullet] + (c + item);
    Assoc(a + [bullet], c, item);
    Assoc(a, [bullet], c + item);
    TrimStartOf(a, tail);
    TrimStartOf(c, item);
    hide TrimStart;
    assert tail[1..] == c + item;
  }

  lemma ItemReads(line: string, mark: string, rest: string)
    requires AfterBullet(line) == Some(mark + rest) && (mark == "[ ]" || mark == "[x]" || mark == "[X]")
    ensures BoxOf(line) == Some(Box(Trim(rest), mark != "[ ]"))
  {
    hide AfterBullet, Trim;
    assert (mark + rest)[..3] == mark && (mark + rest)[3..] == rest;
  }

  lemma TickOfPending(pre: string, rest: string)
    requires '[' !in pre
    ensures TickLine(pre + "[ ]" + rest) == pre + "[x]" + rest
  {
    var s := pre + "[ ]" + rest;
    assert OpenAt(s, |pre|);
    assert forall j :: 0 <= j < |pre| ==> s[j] == pre[j];
    assert FindOpen(s, 0) == |pre|;
  }

  lemma TickOfDone(pre: string, mark: string, rest: string)
    requires '[' !in pre && (mark == "[x]" || mark == "[X]")
    ensures TickLine(pre + mark + rest) == pre + mark + TickLine(rest)
  {
    hide FindOpen, OpenAt;
    var head := pre + mark;
    NoneOpenIn(pre, mark, rest);
    FindOpenBehind(head, rest);
    var k := FindOpen(rest, 0);
    if k < |rest| {
      assert OpenAt(rest, k);
      assert (head + rest)[|head| + k + 1 := 'x'] == head + rest[k + 1 := 'x'];
    }
  }

  lemma NoneOpenIn(pre: string, mark: string, rest: string)
    requires '[' !in pre && (mark == "[x]" || mark == "[X]")
    ensures forall j :: 0 <= j < |pre + mark| ==> !OpenAt(pre + mark + rest, j)
  {
    var s := pre + mark + rest;
    assert forall j :: 0 <= j < |pre| ==> s[j] == pre[j];
    assert s[|pre|] == '[' && s[|pre| + 1] == mark[1] && s[|pre| + 2] == ']';
    hide OpenAt;
    BracketOpens(s, |pre|, mark);
  }

  lemma FindOpenBehind(head: string, rest: string)
    requires forall j :: 0 <= j < |head| ==> !OpenAt(head + rest, j)
    ensures FindOpen(head + rest, 0) == |head| + FindOpen(rest, 0)
    ensures var k := FindOpen(rest, 0); k < |rest| ==> k + 3 <= |rest|
  {
    hide FindOpen, OpenAt;
    var s, n := head + rest, |head|;
    assert forall j :: 0 <= j < |rest| ==> s[n + j] == rest[j];
    OpenShifts(s, rest, n);
    assert forall j :: n <= j < |s| ==> (OpenAt(s, j) <==> OpenAt(rest, j - n));
    OpenFits(rest, FindOpen(rest, 0));
  }

  lemma OpenFits(s: string, k: nat)
    ensures OpenAt(s, k) ==> k + 3 <= |s|
  {
  }

  lemma BracketOpens(s: string, p: nat, mark: string)
    requires p + 3 <= |s| && s[p] == '[' && s[p + 1] != ' ' && s[p + 2] == ']'
    requires forall j :: 0 <= j < p ==> s[j] != '['
    ensures forall j :: 0 <= j < p + 3 ==> !OpenAt(s, j)
  {
  }

  lemma OpenShifts(s: string, rest: string, n: nat)
    requires |s| == n + |rest| && forall j :: 0 <= j < |rest| ==> s[n + j] == rest[j]
    ensures forall j :: 0 <= j < |rest| ==> (OpenAt(rest, j) <==> OpenAt(s, n + j))
  {
  }

  /** Ticking inside a content is ticking inside what it was trimmed from. */
  lemma TickTrim(s: string)
    ensures Trim(TickLine(s)) == TickLine(Trim(s))
  {
    var a, t, z := TrimCuts(s);
    hide Trim, FindOpen;
    var k := FindOpen(s, 0);
    if k < |s| {
      OpenInside(s, a, t, z, k);
      assert OpenAt(t, k - |a|);
      assert forall j :: 0 <= j < |t| && OpenAt(t, j) ==> OpenAt(s, |a| + j);
      assert FindOpen(t, 0) == k - |a|;
      var u := TickLine(t);
      assert TickLine(s) == a + u + z;
      TrimOf(a, u, z);
    } else {
      assert forall j :: 0 <= j < |t| && OpenAt(t, j) ==> OpenAt(s, |a| + j);
      assert TickLine(t) == t;
    }
  }

  lemma OpenInside(s: string, a: string, t: string, z: string, k: nat)
    requires s == a + t + z && AllWhitespace(a) && AllWhitespace(z) && OpenAt(s, k)
    ensures |a| <= k && k + 3 <= |a| + |t|
  {
    assert !IsWhitespace(s[k]) && !IsWhitespace(s[k + 2]);
  }

  /** A pending box is ticked; in a box already ticked the first empty mark of its content would be. */
  function TickedBox(box: Box): Box {
    if box.done then Box(TickLine(box.content), true) else Box(box.content, true)
  }

  lemma TickedLineReads(line: string)
    requires BoxOf(line).Some?
    ensures BoxOf(TickLine(line)) == Some(TickedBox(BoxOf(line).value))
  {
    var pre, a, bullet, c, mark, rest := BoxShape(line);
    hide BoxOf, TickLine, Trim;
    assert '[' !in pre by { LeadHasNoBracket(pre, a, bullet, c); }
    if mark == "[ ]" {
      TickOfPending(pre, rest);
      ShapeReads(pre, a, bullet, c, "[x]", rest);
    } else {
      TickOfDone(pre, mark, rest);
      ShapeReads(pre, a, bullet, c, mark, TickLine(rest));
      TickTrim(rest);
    }
  }

  lemma LeadHasNoBracket(pre: string, a: string, bullet: char, c: string)
    requires Lead(pre, a, bullet, c)
    ensures '[' !in pre
  {
  }

  // ----- what a ticked document reads as -----

  function TickedBoxes(boxes: seq<Box>, k: nat): seq<Box> {
    if k < |boxes| then boxes[k := TickedBox(boxes[k])] else boxes
  }

  lemma {:induction false} TickedReads(lines: seq<string>, k: nat)
    ensures Boxes(Ticked(lines, k)) == TickedBoxes(Boxes(lines), k)
  {
    if lines == [] {
    } else {
      var head, tail := lines[0], lines[1..];
      var next := if BoxOf(head).Some? && k > 0 then k - 1 else k;
      TickedReads(tail, next);
      hide *;
      assert lines == [head] + tail;
      TickedReadsHead(head, tail, k, next);
    }
  }

  lemma TickedReadsHead(head: string, tail: seq<string>, k: nat, next: nat)
    requires next == if BoxOf(head).Some? && k > 0 then k - 1 else k
    requires Boxes(Ticked(tail, next)) == TickedBoxes(Boxes(tail), next)
    ensures Boxes(Ticked([head] + tail, k)) == TickedBoxes(Boxes([head] + tail), k)
  {
    hide *;
    BoxesCons(head, tail);
    TickedCons(head, tail, k);
    if BoxOf(head).Some? && k == 0 {
      BoxesCons(TickLine(head), tail);
      FirstTicked(head, Boxes(tail));
    } else {
      BoxesCons(head, Ticked(tail, next));
      LaterTicked(BoxesOfLine(head), Boxes(tail), next);
    }
  }

  lemma FirstTicked(head: string, boxes: seq<Box>)
    requires BoxOf(head).Some?
    ensures BoxesOfLine(TickLine(head)) + boxes == TickedBoxes(BoxesOfLine(head) + boxes, 0)
  {
    hide BoxOf, TickLine;
    TickedLineReads(head);
  }

  lemma LaterTicked(first: seq<Box>, boxes: seq<Box>, k: nat)
    ensures first + TickedBoxes(boxes, k) == TickedBoxes(first + boxes, |first| + k)
  {
    hide TickLine;
  }

  ghost predicate NewlineFree(lines: seq<string>) { forall i :: 0 <= i < |lines| ==> '\n' !in lines[i] }

  lemma {:induction false} TickedNewlineFree(lines: seq<string>, k: nat)
    requires NewlineFree(lines)
    ensures NewlineFree(Ticked(lines, k))
  {
    if lines == [] {
    } else {
      hide BoxOf, FindOpen;
      TickedNewlineFree(lines[1..], if k > 0 && BoxOf(lines[0]).Some? then k - 1 else k);
    }
  }

  lemma BoxOfStripped(line: string)
    ensures BoxOf(StripCr(line)) == BoxOf(line)
  {
    if !NoTrailingCr(line) {
      hide BoxOf;
      BoxIgnoresCr(StripCr(line));
      assert StripCr(line) + "\r" == line;
    }
  }

  lemma BlankHasNoBox()
    ensures BoxOf("") == None
  {
  }

  /** Lines written back and read again hold the same checkboxes. */
  lemma {:induction false} RereadBoxes(lines: seq<string>, ended: bool)
    requires NewlineFree(lines)
    ensures Boxes(Lines(Rejoined(lines, ended))) == Boxes(lines)
  {
    BlankHasNoBox();
    hide BoxOf;
    if lines == [] {
      assert Lines(Rejoined([], ended)) == if ended then [""] else [] by { EmptyLines(ended); }
      assert [""][1..] == [];
    } else {
      var head, rest := lines[0], lines[1..];
      BoxOfStripped(head);
      if |lines| == 1 && !ended {
        assert Rejoined(lines, false) == head by { assert head + "" == head; }
        LinesOfUnterminated(head);
        assert head != [] ==> [head] == lines;
        assert rest == [];
      } else {
        var tail := if |lines| == 1 then "" else Rejoined(rest, ended);
        assert Rejoined(lines, ended) == head + "\n" + tail by { RejoinedHead(lines, ended); }
        LinesOfTerminated(head, tail);
        if |lines| > 1 {
          RereadBoxes(rest, ended);
        } else {
          LinesOfUnterminated("");
        }
        hide Lines, Rejoined;
        assert ([StripCr(head)] + Lines(tail))[1..] == Lines(tail);
      }
    }
  }

  lemma EmptyLines(ended: bool)
    ensures Lines(Rejoined([], ended)) == if ended then [""] else []
  {
    LinesOfTerminated("", "");
    LinesOfUnterminated("");
    assert "" + "\n" + "" == "\n" && [] + "" == "" && "" + "\n" == "\n";
  }

  lemma RejoinedHead(lines: seq<string>, ended: bool)
    requires |lines| > 1 || (|lines| == 1 && ended)
    ensures Rejoined(lines, ended) == lines[0] + "\n" + if |lines| == 1 then "" else Rejoined(lines[1..], ended)
  {
    var end := if ended then "\n" else "";
    if |lines| > 1 {
      Assoc(lines[0] + "\n", Join(lines[1..], "\n"), end);
    } else {
      assert lines[0] + "\n" + "" == lines[0] + "\n";
    }
  }

  /** The document after ticking holds the boxes before, with the target ticked. */
  lemma MarkedReads(text: string, k: nat)
    ensures Boxes(Lines(Marked(text, k))) == TickedBoxes(Boxes(Lines(text)), k)
  {
    LinesAreNewlineFree(text);
    hide Lines, Boxes, Ticked, Rejoined, TickedBoxes;
    TickedNewlineFree(Lines(text), k);
    RereadBoxes(Ticked(Lines(text), k), EndsLine(text));
    TickedReads(Lines(text), k);
  }

  // ----- box numbers and task numbers -----

  ghost predicate NoneBlank(boxes: seq<Box>, n: nat)
    requires n <= |boxes|
  {
    forall j :: 0 <= j < n ==> boxes[j].content != []
  }

  lemma {:induction false} TasksUpTo(boxes: seq<Box>, k: nat)
    requires k <= |boxes|
    ensures |Filled(boxes[..k])| <= k
    ensures |Filled(boxes[..k])| == k <==> NoneBlank(boxes, k)
  {
    if k == 0 {
      assert boxes[..0] == [];
    } else {
      TasksUpTo(boxes, k - 1);
      assert boxes[..k] == boxes[..k - 1] + [boxes[k - 1]];
      FilledConcat(boxes[..k - 1], [boxes[k - 1]]);
      hide Filled;
      FilledOne(boxes[k - 1]);
    }
  }

  lemma FilledOne(box: Box)
    ensures Filled([box]) == if box.content == [] then [] else [box]
  {
    assert [box][1..] == [];
  }

  lemma FilledAround(boxes: seq<Box>, k: nat, box: Box)
    requires k < |boxes|
    ensures Filled(boxes[k := box])
         == Filled(boxes[..k]) + (if box.content == [] then [] else [box]) + Filled(boxes[k + 1..])
  {
    hide Filled;
    assert boxes[k := box] == boxes[..k] + [box] + boxes[k + 1..];
    FilledConcat(boxes[..k] + [box], boxes[k + 1..]);
    FilledConcat(boxes[..k], [box]);
    FilledOne(box);
  }

  /** Replacing box `k` by one that is blank if it was replaces the task it stands for, or nothing. */
  lemma FilledUpdate(boxes: seq<Box>, k: nat, box: Box)
    requires k < |boxes| && (box.content == [] <==> boxes[k].content == [])
    ensures var task := |Filled(boxes[..k])|;
            if box.content == [] then Filled(boxes[k := box]) == Filled(boxes)
            else task < |Filled(boxes)| && Filled(boxes)[task] == boxes[k]
                 && Filled(boxes[k := box]) == Filled(boxes)[task := box]
  {
    hide Filled;
    assert boxes[k := boxes[k]] == boxes;
    FilledAround(boxes, k, box);
    FilledAround(boxes, k, boxes[k]);
  }

  /** Ticking by task number in the box list, against ticking the task. */
  lemma TickCommutes(boxes: seq<Box>, i: nat)
    requires i < |Filled(boxes)| && !Filled(boxes)[i].done
    ensures i < |boxes|
    ensures Filled(TickedBoxes(boxes, i)) == Filled(boxes)[i := Filled(boxes)[i].(done := true)]
       <==> NoneBlank(boxes, i + 1)
  {
    hide Filled;
    assert boxes[..|boxes|] == boxes;
    TasksUpTo(boxes, |boxes|);
    TasksUpTo(boxes, i);
    TasksUpTo(boxes, i + 1);
    hide TickLine;
    FilledUpdate(boxes, i, TickedBox(boxes[i]));
  }

  /**
   * Ticking task `i` in the document and reading it again completes exactly task `i`, if and only if
   * no checkbox up to there is blank: the parser skips blank ones, the writer counts them.
   */
  lemma MarkCommutes(text: string, i: nat)
    requires i < |Tasks(text)| && !Tasks(text)[i].done
    ensures i < |Boxes(Lines(text))|
    ensures Tasks(Marked(text, i)) == Tasks(text)[i := Tasks(text)[i].(done := true)]
       <==> NoneBlank(Boxes(Lines(text)), i + 1)
  {
    hide Filled, Boxes, Lines, Marked, TickedBoxes, NoneBlank;
    MarkedReads(text, i);
    TickCommutes(Boxes(Lines(text)), i);
  }

  /** Ticking a ticked checkbox leaves the checkboxes alone exactly if its content has no empty mark. */
  lemma MarkAgain(text: string, k: nat)
    requires k < |Boxes(Lines(text))| && Boxes(Lines(text))[k].done
    ensures Boxes(Lines(Marked(text, k))) == Boxes(Lines(text)) <==> !HasOpen(Boxes(Lines(text))[k].content)
  {
    hide Boxes, Lines, Marked, FindOpen;
    MarkedReads(text, k);
    var box := Boxes(Lines(text))[k];
    TickChanges(box.content);
    hide TickLine, HasOpen;
    assert TickedBoxes(Boxes(Lines(text)), k)[k] == TickedBox(box);
  }

  lemma TickChanges(s: string)
    ensures TickLine(s) == s <==> !HasOpen(s)
  {
    hide FindOpen;
    var k := FindOpen(s, 0);
    assert k < |s| ==> TickLine(s)[k + 1] == 'x';
  }

  // ----- writing a plan -----

  /** A content as the parser delivers it: on one line, trimmed, not blank. */
  predicate Writable(content: string) {
    && content != [] && '\n' !in content
    && !IsWhitespace(content[0]) && !IsWhitespace(content[|content| - 1])
  }

  function Mark(done: bool): string { if done then "[x]" else "[ ]" }

  /** The literal form planning asks for. */
  function TaskLine(box: Box): string { "- " + Mark(box.done) + (" " + box.content) }

  function TaskLines(boxes: seq<Box>): (lines: seq<string>)
    ensures |lines| == |boxes| && forall i :: 0 <= i < |lines| ==> lines[i] == TaskLine(boxes[i])
  {
    seq(|boxes|, i requires 0 <= i < |boxes| => TaskLine(boxes[i]))
  }

  lemma TaskLineReads(box: Box)
    requires Writable(box.content)
    ensures BoxOf(TaskLine(box)) == Some(box)
  {
    assert Lead("- ", "", '-', " ");
    assert TaskLine(box) == "- " + Mark(box.done) + (" " + box.content);
    assert Mark(box.done) != "[ ]" <==> box.done;
    hide BoxOf, Trim, TrimStart, TrimEnd;
    ShapeReads("- ", "", '-', " ", Mark(box.done), " " + box.content);
    TrimOf(" ", box.content, "");
    assert " " + box.content + "" == " " + box.content;
  }

  lemma TaskLineIsOneLine(box: Box)
    requires Writable(box.content)
    ensures '\n' !in TaskLine(box) && NoTrailingCr(TaskLine(box))
  {
    var line := TaskLine(box);
    assert line[|line| - 1] == box.content[|box.content| - 1];
  }

  lemma {:induction false} TaskLinesRead(lines: seq<string>, boxes: seq<Box>)
    requires |lines| == |boxes| && forall i :: 0 <= i < |lines| ==> BoxOf(lines[i]) == Some(boxes[i])
    requires forall i :: 0 <= i < |boxes| ==> boxes[i].content != []
    ensures Boxes(lines) == boxes && Filled(boxes) == boxes
  {
    hide BoxOf;
    if lines == [] {
    } else {
      TaskLinesRead(lines[1..], boxes[1..]);
      assert boxes == [boxes[0]] + boxes[1..];
    }
  }

  /** Tasks written down in the form planning asks for are read back as they are. */
  lemma PlanRoundTrip(boxes: seq<Box>)
    requires boxes != [] && forall i :: 0 <= i < |boxes| ==> Writable(boxes[i].content)
    ensures Tasks(Join(TaskLines(boxes), "\n") + "\n") == boxes
  {
    var lines := TaskLines(boxes);
    hide TaskLine, BoxOf, Lines, Join, Boxes, Filled;
    forall i | 0 <= i < |lines|
      ensures BoxOf(lines[i]) == Some(boxes[i]) && '\n' !in lines[i] && NoTrailingCr(lines[i])
    {
      TaskLineReads(boxes[i]);
      TaskLineIsOneLine(boxes[i]);
    }
    LinesOfJoin(lines);
    TaskLinesRead(lines, boxes);
  }
}
