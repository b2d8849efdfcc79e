/** The plan document: reading its checkboxes, and ticking one of them in place. */
module PlanDocument {
  import opened Text

  /** A checkbox line; a blank one has no content. */
  datatype Box = Box(content: string, done: bool)

  predicate StartsWith(s: string, prefix: string) { |s| >= |prefix| && s[..|prefix|] == prefix }

  /** What follows the bullet of a list item. */
  function AfterBullet(line: string): Option<string> {
    var trimmed := TrimStart(line);
    if trimmed != [] && (trimmed[0] == '-' || trimmed[0] == '*') then Some(TrimStart(trimmed[1..])) else None
  }

  function BoxOf(line: string): Option<Box> {
    match AfterBullet(line)
    case None => None
    case Some(item) =>
      if StartsWith(item, "[ ]") then Some(Box(Trim(item[3..]), false))
      else if StartsWith(item, "[x]") || StartsWith(item, "[X]") then Some(Box(Trim(item[3..]), true))
      else None
  }

  /** Every checkbox of the lines, blank ones included. */
  function Boxes(lines: seq<string>): seq<Box> {
    if lines == [] then []
    else BoxesOfLine(lines[0]) + Boxes(lines[1..])
  }

  function BoxesOfLine(line: string): seq<Box> {
    match BoxOf(line) case Some(box) => [box] case None => []
  }

  /** Blank checkboxes are no tasks. */
  function Filled(boxes: seq<Box>): seq<Box> {
    if boxes == [] then []
    else (if boxes[0].content == [] then [] else [boxes[0]]) + Filled(boxes[1..])
  }

  function Tasks(text: string): seq<Box> { Filled(Boxes(Lines(text))) }

  lemma {:induction false} BoxesConcat(a: seq<string>, b: seq<string>)
    ensures Boxes(a + b) == Boxes(a) + Boxes(b)
  {
    hide BoxesOfLine;
    if a == [] {
      assert a + b == b;
      assert [] + Boxes(b) == Boxes(b);
    } else {
      BoxesConcat(a[1..], b);
      assert (a + b)[1..] == a[1..] + b;
      Assoc(BoxesOfLine(a[0]), Boxes(a[1..]), Boxes(b));
    }
  }

  lemma {:induction false} FilledConcat(a: seq<Box>, b: seq<Box>)
    ensures Filled(a + b) == Filled(a) + Filled(b)
  {
    if a == [] {
      assert a + b == b;
      assert [] + Filled(b) == Filled(b);
    } else {
      FilledConcat(a[1..], b);
      assert (a + b)[1..] == a[1..] + b;
      Assoc(if a[0].content == [] then [] else [a[0]], Filled(a[1..]), Filled(b));
    }
  }

  method ParsePlanTasks(markdown: string) returns (tasks: seq<Box>)
    ensures tasks == Tasks(markdown)
  {
    hide BoxOf, AfterBullet, Lines, Boxes, Filled;
    var lines := Lines(markdown);
    tasks := [];
    NothingRead(lines);
    for i := 0 to |lines|
      invariant tasks == Filled(Boxes(lines[..i]))
    {
      OneMoreLine(lines, i);
      match BoxOf(lines[i]) {
        case None =>
        case Some(box) =>
          if box.content != [] {
            tasks := tasks + [box];
          }
      }
    }
    assert lines[..|lines|] == lines;
  }

  lemma NothingRead(lines: seq<string>)
    ensures Filled(Boxes(lines[..0])) == []
  {
  }

  lemma OneMoreLine(lines: seq<string>, i: nat)
    requires i < |lines|
    ensures Boxes(lines[..i + 1]) == Boxes(lines[..i]) + BoxesOfLine(lines[i])
    ensures Filled(Boxes(lines[..i + 1]))
         == Filled(Boxes(lines[..i])) + match BoxOf(lines[i])
                                        case None => []
                                        case Some(box) => if box.content == [] then [] else [box]
  {
    assert lines[..i + 1] == lines[..i] + [lines[i]];
    BoxesConcat(lines[..i], [lines[i]]);
    FilledConcat(Boxes(lines[..i]), Boxes([lines[i]]));
    hide BoxOf;
    assert [lines[i]][1..] == [];
    assert Boxes([lines[i]]) == BoxesOfLine(lines[i]);
    assert BoxesOfLine(lines[i]) != [] ==> BoxesOfLine(lines[i])[1..] == [];
  }

  // ----- ticking -----

  predicate OpenAt(s: string, i: nat) { i + 3 <= |s| && s[i] == '[' && s[i + 1] == ' ' && s[i + 2] == ']' }

  /** Where the first empty checkbox mark stands, or the length. */
  function FindOpen(s: string, i: nat): (k: nat)
    requires i <= |s|
    ensures i <= k <= |s| && (k < |s| ==> OpenAt(s, k))
    ensures forall j :: i <= j < k ==> !OpenAt(s, j)
    decreases |s| - i
  {
    if i == |s| || OpenAt(s, i) then i else FindOpen(s, i + 1)
  }

  /** `replacen("[ ]", "[x]", 1)`. */
  function TickLine(s: string): (t: string)
    ensures |t| == |s|
  {
    var k := FindOpen(s, 0);
    if k == |s| then s else s[k + 1 := 'x']
  }

  predicate HasOpen(s: string) { FindOpen(s, 0) < |s| }

  /** The lines with the checkbox number `target` ticked. */
  function Ticked(lines: seq<string>, target: nat): seq<string> {
    if lines == [] then []
    else if BoxOf(lines[0]).Some? then
      if target == 0 then [TickLine(lines[0])] + lines[1..] else [lines[0]] + Ticked(lines[1..], target - 1)
    else [lines[0]] + Ticked(lines[1..], target)
  }

  predicate EndsLine(text: string) { text != [] && text[|text| - 1] == '\n' }

  function Rejoined(lines: seq<string>, ended: bool): string { Join(lines, "\n") + (if ended then "\n" else "") }

  /** The document written back. */
  function Marked(text: string, target: nat): string { Rejoined(Ticked(Lines(text), target), EndsLine(text)) }

  lemma {:induction false} TickedPast(done: seq<string>, rest: seq<string>, target: nat)
    requires |Boxes(done)| <= target
    ensures Ticked(done + rest, target) == done + Ticked(rest, target - |Boxes(done)|)
  {
    if done == [] {
      assert done + rest == rest && [] + Ticked(rest, target) == Ticked(rest, target);
    } else {
      hide *;
      var head, tail := done[0], done[1..];
      assert done == [head] + tail;
      Assoc([head], tail, rest);
      TickedCons(head, tail + rest, target);
      BoxesCons(head, tail);
      var next := if BoxOf(head).Some? then target - 1 else target;
      TickedPast(tail, rest, next);
      Assoc([head], tail, Ticked(rest, target - |Boxes(done)|));
    }
  }

  lemma BoxesCons(head: string, tail: seq<string>)
    ensures Boxes([head] + tail) == BoxesOfLine(head) + Boxes(tail)
    ensures |BoxesOfLine(head)| == if BoxOf(head).Some? then 1 else 0
  {
    hide BoxOf;
    assert ([head] + tail)[1..] == tail;
  }

  lemma TickedCons(head: string, tail: seq<string>, target: nat)
    ensures Ticked([head] + tail, target) ==
            if BoxOf(head).None? then [head] + Ticked(tail, target)
            else if target == 0 then [TickLine(head)] + tail
            else [head] + Ticked(tail, target - 1)
  {
    hide BoxOf, TickLine;
    assert ([head] + tail)[1..] == tail;
  }

  lemma {:induction false} TickedBehind(done: seq<string>, rest: seq<string>, target: nat)
    requires |Boxes(done)| > target
    ensures Ticked(done + rest, target) == Ticked(done, target) + rest
  {
    assert done != [];
    hide *;
    var head, tail := done[0], done[1..];
    assert done == [head] + tail;
    Assoc([head], tail, rest);
    TickedCons(head, tail + rest, target);
    TickedCons(head, tail, target);
    BoxesCons(head, tail);
    if BoxOf(head).Some? && target == 0 {
      Assoc([TickLine(head)], tail, rest);
    } else {
      var next := if BoxOf(head).Some? then target - 1 else target;
      TickedBehind(tail, rest, next);
      Assoc([head], Ticked(tail, next), rest);
    }
  }

  /** The loop over the lines: only the target is rewritten. */
  method MarkPlanTaskDone(text: string, target: nat) returns (result: string)
    ensures result == Marked(text, target)
  {
    hide BoxOf, TickLine, Lines, Boxes, Ticked, Join;
    var all := Lines(text);
    var lines: seq<string>, seen := [], 0;
    NoneTicked(all, target);
    for i := 0 to |all|
      invariant seen == |Boxes(all[..i])| && lines == Ticked(all[..i], target)
    {
      OneMoreTicked(all, i, target);
      var line := all[i];
      if BoxOf(line).Some? {
        lines := lines + [if seen == target then TickLine(line) else line];
        seen := seen + 1;
      } else {
        lines := lines + [line];
      }
    }
    assert all[..|all|] == all;
    result := Join(lines, "\n");
    if EndsLine(text) {
      result := result + "\n";
    } else {
      assert result + "" == result;
    }
  }

  lemma NoneTicked(lines: seq<string>, target: nat)
    ensures Ticked(lines[..0], target) == [] && Boxes(lines[..0]) == []
  {
  }

  lemma OneMoreTicked(lines: seq<string>, i: nat, target: nat)
    requires i < |lines|
    ensures |Boxes(lines[..i + 1])| == |Boxes(lines[..i])| + if BoxOf(lines[i]).Some? then 1 else 0
    ensures Ticked(lines[..i + 1], target) == Ticked(lines[..i], target)
         + [if BoxOf(lines[i]).Some? && |Boxes(lines[..i])| == target then TickLine(lines[i]) else lines[i]]
  {
    hide *;
    var done, line := lines[..i], lines[i];
    assert lines[..i + 1] == done + [line];
    TickedNext(done, line, target);
  }

  lemma TickedNext(done: seq<string>, line: string, target: nat)
    ensures |Boxes(done + [line])| == |Boxes(done)| + if BoxOf(line).Some? then 1 else 0
    ensures Ticked(done + [line], target) == Ticked(done, target)
         + [if BoxOf(line).Some? && |Boxes(done)| == target then TickLine(line) else line]
  {
    hide *;
    BoxesConcat(done, [line]);
    TickedOne(line);
    if |Boxes(done)| <= target {
      TickedPast(done, [line], target);
      TickedPast(done, [], target);
      TickedNone(target - |Boxes(done)|);
      assert done + [] == done;
    } else {
      TickedBehind(done, [line], target);
    }
  }

  lemma TickedNone(target: nat)
    ensures Ticked([], target) == []
  {
  }

  lemma TickedOne(line: string)
    ensures |Boxes([line])| == if BoxOf(line).Some? then 1 else 0
    ensures forall target: nat :: Ticked([line], target) ==
              [if BoxOf(line).Some? && target == 0 then TickLine(line) else line]
  {
    hide BoxOf, TickLine;
    assert [line][1..] == [];
  }
}
