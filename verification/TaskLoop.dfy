/**
 * The task loop: a ladder of attempts per pending task, the operator behind every full ladder.
 * What turns and the operator come up with is read off two lists of answers; where a list ends, the
 * run has been followed only so far.
 */
module TaskLoop {
  import opened Text
  import opened PlanDocument
  import opened PlanLaws

  const MAX_TASK_ATTEMPTS := 3

  /** What became of one attempt; `written`: the plan file could be rewritten. */
  datatype Answer = SeedFails | TurnBreaks | Turn(ok: bool, toolErrors: nat, pending: nat, written: bool)

  datatype Escalation = Retry | Skip | Abort | Reword(content: string)

  datatype Status = Completed | Aborted | Interrupted

  datatype Note = Finished(index: nat, content: string) | Skipped(index: nat, content: string)

  datatype Advice = NoAdvice | RetryTheSame | ChangeStrategy

  /** A turn starts from the conclusions so far and the task, with advice by attempt. */
  datatype Kickoff = Kickoff(index: nat, content: string, advice: Advice, carried: seq<Note>)

  datatype World = World(doc: string, memory: seq<Note>, kickoffs: seq<Kickoff>, ticks: seq<nat>,
                         answers: seq<Answer>, choices: seq<Escalation>)

  function AttemptNote(attempt: nat): Advice {
    if attempt <= 1 then NoAdvice else if attempt == 2 then RetryTheSame else ChangeStrategy
  }

  /** Verification without a judge: the turn ended well, no tool failed, nothing is left to do. */
  predicate Verified(a: Answer) { a.Turn? && a.ok && a.toolErrors == 0 && a.pending == 0 }

  function Heard(w: World): World
    requires w.answers != []
  {
    w.(answers := w.answers[1..])
  }

  function Asked(w: World): World
    requires w.choices != []
  {
    w.(choices := w.choices[1..])
  }

  function Started(w: World, index: nat, content: string, attempt: nat): World {
    w.(kickoffs := w.kickoffs + [Kickoff(index, content, AttemptNote(attempt), w.memory)])
  }

  function Noted(w: World, note: Note): World { w.(memory := w.memory + [note]) }

  /** The checkbox is ticked if the file can be written. */
  function TickedIn(w: World, index: nat, written: bool): World {
    if written then w.(doc := Marked(w.doc, index), ticks := w.ticks + [index]) else w
  }

  function Left(w: World): nat { |w.answers| + |w.choices| }

  /** One task from attempt number `attempt` on. */
  function Ladder(w: World, index: nat, content: string, attempt: nat): (Status, World)
    decreases Left(w)
  {
    if attempt > MAX_TASK_ATTEMPTS then
      if w.choices == [] then (Interrupted, w)
      else
        match w.choices[0]
        case Retry => Ladder(Asked(w), index, content, 1)
        case Skip => (Completed, Noted(Asked(w), Skipped(index, content)))
        case Abort => (Aborted, Asked(w))
        case Reword(other) => Ladder(Asked(w), index, other, 1)
    else if w.answers == [] then (Interrupted, w)
    else
      var answer, begun := w.answers[0], Started(Heard(w), index, content, attempt);
      if answer.SeedFails? then (Completed, Heard(w))
      else if answer.TurnBreaks? then (Interrupted, begun)
      else if Verified(answer) then
        (Completed, Noted(TickedIn(begun, index, answer.written), Finished(index, content)))
      else Ladder(begun, index, content, attempt + 1)
  }

  /** The tasks from number `k` on. */
  function Loop(w: World, tasks: seq<Box>, k: nat): (Status, World)
    requires k <= |tasks|
    decreases |tasks| - k
  {
    if k == |tasks| then (Completed, w)
    else if tasks[k].done then Loop(w, tasks, k + 1)
    else
      var (status, next) := Ladder(w, k, tasks[k].content, 1);
      if status.Completed? then Loop(next, tasks, k + 1) else (status, next)
  }

  class TaskRun {
    var doc: string
    var memory: seq<Note>
    var kickoffs: seq<Kickoff>
    ghost var ticks: seq<nat>
    var answers: seq<Answer>
    var choices: seq<Escalation>

    ghost function Here(): World reads this { World(doc, memory, kickoffs, ticks, answers, choices) }

    constructor (text: string, turns: seq<Answer>, operator: seq<Escalation>)
      ensures Here() == World(text, [], [], [], turns, operator)
    {
      doc, memory, kickoffs, ticks, answers, choices := text, [], [], [], turns, operator;
    }

    method RunOneTask(index: nat, description: string) returns (status: Status)
      modifies this
      ensures (status, Here()) == Ladder(old(Here()), index, description, 1)
    {
      hide Marked;
      var content := description;
      while true
        invariant Ladder(Here(), index, content, 1) == Ladder(old(Here()), index, description, 1)
        decreases |answers| + |choices|
      {
        var attempt := 1;
        ghost var left := |answers| + |choices|;
        while attempt <= MAX_TASK_ATTEMPTS
          invariant 1 <= attempt <= MAX_TASK_ATTEMPTS + 1 && |answers| + |choices| <= left
          invariant Ladder(Here(), index, content, attempt) == Ladder(old(Here()), index, description, 1)
        {
          if answers == [] {
            return Interrupted;
          }
          var answer := answers[0];
          answers := answers[1..];
          if answer.SeedFails? {
            return Completed;
          }
          kickoffs := kickoffs + [Kickoff(index, content, AttemptNote(attempt), memory)];
          if answer.TurnBreaks? {
            return Interrupted;
          }
          if answer.ok && answer.toolErrors == 0 && answer.pending == 0 {
            if answer.written {
              doc := MarkPlanTaskDone(doc, index);
              ticks := ticks + [index];
            }
            memory := memory + [Finished(index, content)];
            return Completed;
          }
          attempt := attempt + 1;
        }
        if choices == [] {
          return Interrupted;
        }
        var choice := choices[0];
        choices := choices[1..];
        match choice
        case Retry =>
        case Skip =>
          memory := memory + [Skipped(index, content)];
          return Completed;
        case Reword(other) => content := other;
        case Abort => return Aborted;
      }
    }

    method RunTaskLoop(tasks: seq<Box>) returns (status: Status)
      modifies this
      ensures (status, Here()) == Loop(old(Here()), tasks, 0)
    {
      hide Ladder;
      for index := 0 to |tasks|
        invariant Loop(Here(), tasks, index) == Loop(old(Here()), tasks, 0)
      {
        if !tasks[index].done {
          status := RunOneTask(index, tasks[index].content);
          if status != Completed {
            return;
          }
        }
      }
      status := Completed;
    }
  }

  // ----- one task -----

  /** What one task may change: its own checkbox once, and one line of memory. */
  ghost predicate TaskEffect(before: World, after: World, index: nat, status: Status) {
    && (if after.ticks == before.ticks then after.doc == before.doc
        else after.ticks == before.ticks + [index] && after.doc == Marked(before.doc, index)
             && |after.memory| > |before.memory| && after.memory[|before.memory|].Finished?)
    && before.memory <= after.memory && |after.memory| <= |before.memory| + 1
    && (|after.memory| > |before.memory| ==> status.Completed? && after.memory[|before.memory|].index == index)
  }

  lemma {:induction false} LadderEffect(w: World, index: nat, content: string, attempt: nat)
    ensures var (status, after) := Ladder(w, index, content, attempt); TaskEffect(w, after, index, status)
    decreases Left(w)
  {
    hide Marked;
    if attempt > MAX_TASK_ATTEMPTS {
      if w.choices != [] {
        if w.choices[0].Retry? {
          LadderEffect(Asked(w), index, content, 1);
        } else if w.choices[0].Reword? {
          LadderEffect(Asked(w), index, w.choices[0].content, 1);
        }
      }
    } else if w.answers != [] && w.answers[0].Turn? && !Verified(w.answers[0]) {
      LadderEffect(Started(Heard(w), index, content, attempt), index, content, attempt + 1);
    }
  }

  /**
   * The operator is asked exactly once for every three failed attempts: with `asked` questions and
   * `tried` attempts, the attempts lie between three and three more per question.
   */
  lemma {:induction false} LadderCounts(w: World, index: nat, content: string, attempt: nat)
    requires 1 <= attempt <= MAX_TASK_ATTEMPTS + 1
    ensures var (_, after) := Ladder(w, index, content, attempt);
            var tried, asked := |w.answers| - |after.answers|, |w.choices| - |after.choices|;
            && 0 <= asked && 3 * asked <= tried + attempt - 1 <= 3 * asked + 3
    decreases Left(w)
  {
    hide Marked, Verified;
    if attempt > MAX_TASK_ATTEMPTS {
      if w.choices != [] {
        if w.choices[0].Retry? {
          LadderCounts(Asked(w), index, content, 1);
        } else if w.choices[0].Reword? {
          LadderCounts(Asked(w), index, w.choices[0].content, 1);
        }
      }
    } else if w.answers != [] && w.answers[0].Turn? && !Verified(w.answers[0]) {
      LadderCounts(Started(Heard(w), index, content, attempt), index, content, attempt + 1);
    }
  }

  /** Kickoffs of a ladder: the advice goes round none, retry, change, whatever the operator answers. */
  ghost predicate Cycling(kickoffs: seq<Kickoff>, from: nat, index: nat, attempt: nat) {
    forall j :: from <= j < |kickoffs| ==>
      kickoffs[j].index == index && kickoffs[j].advice == AttemptNote((attempt - 1 + j - from) % 3 + 1)
  }

  lemma CyclingFrom(kickoffs: seq<Kickoff>, from: nat, index: nat, attempt: nat)
    requires 1 <= attempt && from < |kickoffs| && Cycling(kickoffs, from + 1, index, attempt + 1)
    requires attempt <= 3 && kickoffs[from].index == index && kickoffs[from].advice == AttemptNote(attempt)
    ensures Cycling(kickoffs, from, index, attempt)
  {
  }

  lemma CyclingAnew(kickoffs: seq<Kickoff>, from: nat, index: nat)
    requires Cycling(kickoffs, from, index, 1)
    ensures Cycling(kickoffs, from, index, 4)
  {
  }

  lemma NoneCycle(kickoffs: seq<Kickoff>, from: nat, index: nat, attempt: nat)
    requires |kickoffs| <= from + 1 && (|kickoffs| == from + 1 ==> 1 <= attempt <= 3)
    requires |kickoffs| == from + 1 ==>
               kickoffs[from].index == index && kickoffs[from].advice == AttemptNote(attempt)
    ensures Cycling(kickoffs, from, index, attempt)
  {
  }

  lemma {:induction false} LadderCycles(w: World, index: nat, content: string, attempt: nat)
    requires 1 <= attempt <= MAX_TASK_ATTEMPTS + 1
    ensures var (_, after) := Ladder(w, index, content, attempt);
            w.kickoffs <= after.kickoffs && Cycling(after.kickoffs, |w.kickoffs|, index, attempt)
    decreases Left(w)
  {
    hide Marked, Verified, Cycling, AttemptNote;
    var after := Ladder(w, index, content, attempt).1;
    var n := |w.kickoffs|;
    if attempt > MAX_TASK_ATTEMPTS {
      if w.choices != [] && (w.choices[0].Retry? || w.choices[0].Reword?) {
        LadderCycles(Asked(w), index, if w.choices[0].Retry? then content else w.choices[0].content, 1);
        CyclingAnew(after.kickoffs, n, index);
      } else {
        NoneCycle(after.kickoffs, n, index, attempt);
      }
    } else if w.answers != [] && w.answers[0].Turn? && !Verified(w.answers[0]) {
      var begun := Started(Heard(w), index, content, attempt);
      LadderCycles(begun, index, content, attempt + 1);
      assert after.kickoffs[n] == begun.kickoffs[n];
      CyclingFrom(after.kickoffs, n, index, attempt);
    } else {
      NoneCycle(after.kickoffs, n, index, attempt);
    }
  }

  // ----- the whole plan -----

  /** The tasks with those of the listed numbers completed. */
  function CompletedAll(tasks: seq<Box>, ticks: seq<nat>): (r: seq<Box>)
    ensures |r| == |tasks|
  {
    if ticks == [] then tasks
    else
      var before, t := CompletedAll(tasks, ticks[..|ticks| - 1]), ticks[|ticks| - 1];
      if t < |tasks| then before[t := before[t].(done := true)] else before
  }

  lemma {:induction false} CompletedAt(tasks: seq<Box>, ticks: seq<nat>, i: nat)
    requires i < |tasks|
    ensures CompletedAll(tasks, ticks)[i] == tasks[i].(done := tasks[i].done || i in ticks)
  {
    if ticks == [] {
    } else {
      CompletedAt(tasks, ticks[..|ticks| - 1], i);
      assert ticks == ticks[..|ticks| - 1] + [ticks[|ticks| - 1]];
    }
  }

  /** Ticks are numbers of tasks below `k` that were pending, each once and in order. */
  ghost predicate InOrder(ticks: seq<nat>, tasks: seq<Box>, k: nat) {
    && (forall i :: 0 <= i < |ticks| ==> ticks[i] < k && ticks[i] < |tasks| && !tasks[ticks[i]].done)
    && (forall i, j :: 0 <= i < j < |ticks| ==> ticks[i] < ticks[j])
  }

  /** Number of the first blank checkbox, or how many there are. */
  function FirstBlank(boxes: seq<Box>): (n: nat)
    ensures n <= |boxes| && (n < |boxes| ==> boxes[n].content == [])
  {
    if boxes == [] || boxes[0].content == [] then 0 else 1 + FirstBlank(boxes[1..])
  }

  lemma {:induction false} NoneBlankBefore(boxes: seq<Box>)
    ensures NoneBlank(boxes, FirstBlank(boxes))
  {
    if boxes == [] || boxes[0].content == [] {
    } else {
      NoneBlankBefore(boxes[1..]);
      assert forall j :: 0 < j < FirstBlank(boxes) ==> boxes[j] == boxes[1..][j - 1];
    }
  }

  ghost predicate SameBlanks(a: seq<Box>, b: seq<Box>) {
    |a| == |b| && forall j :: 0 <= j < |a| ==> (a[j].content == [] <==> b[j].content == [])
  }

  ghost predicate AllBelow(ticks: seq<nat>, n: nat) { forall i :: 0 <= i < |ticks| ==> ticks[i] < n }

  /** Checkboxes not ticked are as they were first, and as long as no tick passed a blank one, tasks read right. */
  ghost predicate InStep(w: World, first: seq<Box>) {
    var boxes := Boxes(Lines(w.doc));
    && SameBlanks(boxes, first)
    && (forall j :: 0 <= j < |first| && j !in w.ticks ==> boxes[j] == first[j])
    && (AllBelow(w.ticks, FirstBlank(first)) ==> Filled(boxes) == CompletedAll(Filled(first), w.ticks))
  }

  lemma TickInStep(w: World, first: seq<Box>, k: nat, after: World)
    requires InStep(w, first) && k < |Filled(first)| && !Filled(first)[k].done && k !in w.ticks
    requires after.ticks == w.ticks + [k] && after.doc == Marked(w.doc, k)
    ensures InStep(after, first)
  {
    var boxes, tasks := Boxes(Lines(w.doc)), Filled(first);
    MarkedReads(w.doc, k);
    hide Boxes, Lines, Marked, Filled, TickLine;
    assert first[..|first|] == first;
    TasksUpTo(first, |first|);
    assert after.ticks[..|w.ticks|] == w.ticks && after.ticks[|w.ticks|] == k;
    if AllBelow(after.ticks, FirstBlank(first)) {
      assert AllBelow(w.ticks, FirstBlank(first)) by {
        assert forall i :: 0 <= i < |w.ticks| ==> after.ticks[i] == w.ticks[i];
      }
      CompletedAt(tasks, w.ticks, k);
      NoneBlankBefore(first);
      assert NoneBlank(boxes, k + 1);
      TickCommutes(boxes, k);
    }
    assert forall j :: j !in after.ticks ==> j !in w.ticks && j != k;
  }

  lemma {:induction false} LoopInStep(w: World, first: seq<Box>, k: nat)
    requires k <= |Filled(first)| && InStep(w, first) && InOrder(w.ticks, Filled(first), k)
    ensures var (_, after) := Loop(w, Filled(first), k);
            InStep(after, first) && InOrder(after.ticks, Filled(first), |Filled(first)|)
    decreases |Filled(first)| - k
  {
    hide InStep, Ladder, Filled;
    var tasks := Filled(first);
    if k < |tasks| {
      if tasks[k].done {
        LoopInStep(w, first, k + 1);
      } else {
        var (status, next) := Ladder(w, k, tasks[k].content, 1);
        LadderEffect(w, k, tasks[k].content, 1);
        EffectInStep(w, next, first, k, status);
        if status.Completed? {
          LoopInStep(next, first, k + 1);
        }
      }
    }
  }

  lemma EffectInStep(w: World, next: World, first: seq<Box>, k: nat, status: Status)
    requires k < |Filled(first)| && !Filled(first)[k].done
    requires InStep(w, first) && InOrder(w.ticks, Filled(first), k) && TaskEffect(w, next, k, status)
    ensures InStep(next, first) && InOrder(next.ticks, Filled(first), k + 1)
  {
    hide Marked, CompletedAll, Boxes, Filled, FirstBlank;
    if next.ticks != w.ticks {
      TickInStep(w, first, k, next);
    }
  }

  // ----- ticks behind a blank checkbox -----

  lemma FilledNext(boxes: seq<Box>, n: nat)
    requires n < |boxes|
    ensures |Filled(boxes[..n + 1])| == |Filled(boxes[..n])| + if boxes[n].content == [] then 0 else 1
  {
    hide Filled;
    assert boxes[..n + 1] == boxes[..n] + [boxes[n]];
    FilledConcat(boxes[..n], [boxes[n]]);
    FilledOne(boxes[n]);
  }

  /** The checkbox a task stands in. */
  lemma {:induction false} TaskPlace(boxes: seq<Box>, n: nat, task: nat) returns (at: nat)
    requires n <= |boxes| && task < |Filled(boxes[..n])|
    ensures at < n && boxes[at].content != [] && |Filled(boxes[..at])| == task
    decreases n
  {
    assert n > 0;
    hide Filled;
    FilledNext(boxes, n - 1);
    if task < |Filled(boxes[..n - 1])| {
      at := TaskPlace(boxes, n - 1, task);
    } else {
      at := n - 1;
    }
  }

  lemma {:induction false} SameRank(a: seq<Box>, b: seq<Box>, n: nat)
    requires SameBlanks(a, b) && n <= |a|
    ensures |Filled(a[..n])| == |Filled(b[..n])|
  {
    if n == 0 {
      assert a[..0] == b[..0] == [];
    } else {
      hide Filled;
      SameRank(a, b, n - 1);
      FilledNext(a, n - 1);
      FilledNext(b, n - 1);
    }
  }

  /** A task with a blank checkbox before it stands in a later box, which a tick by its number does not reach. */
  lemma LateTaskStaysPending(w: World, first: seq<Box>, m: nat)
    requires InStep(w, first) && m < |Filled(first)| && !Filled(first)[m].done && FirstBlank(first) <= m
    requires forall i :: 0 <= i < |w.ticks| ==> w.ticks[i] <= m
    ensures var boxes := Boxes(Lines(w.doc)); m < |Filled(boxes)| && !Filled(boxes)[m].done
  {
    var boxes := Boxes(Lines(w.doc));
    hide Boxes, Lines, Filled, CompletedAll;
    assert first[..|first|] == first;
    var at := TaskPlace(first, |first|, m);
    TasksUpTo(first, at);
    assert at > m;
    SameRank(boxes, first, at);
    FilledUpdate(first, at, first[at]);
    FilledUpdate(boxes, at, boxes[at]);
  }

  /**
   * However the turns and the operator answer: the ticked tasks were pending and verified, each ticked once
   * and in order; and the document, read again, shows the tasks it was started on with exactly the ticked
   * ones completed besides, if and only if no tick went past a blank checkbox.
   */
  lemma PlanReadsAsDone(text: string, answers: seq<Answer>, choices: seq<Escalation>)
    ensures var tasks := Tasks(text);
            var (_, after) := Loop(World(text, [], [], [], answers, choices), tasks, 0);
            && InOrder(after.ticks, tasks, |tasks|)
            && (AllBelow(after.ticks, FirstBlank(Boxes(Lines(text))))
                <==> Tasks(after.doc) == CompletedAll(tasks, after.ticks))
  {
    hide Boxes, Lines, Filled, Loop, FirstBlank;
    var first := Boxes(Lines(text));
    var tasks := Filled(first);
    var w := World(text, [], [], [], answers, choices);
    LoopInStep(w, first, 0);
    var after := Loop(w, tasks, 0).1;
    if !AllBelow(after.ticks, FirstBlank(first)) {
      var m := after.ticks[|after.ticks| - 1];
      LateTaskStaysPending(after, first, m);
      CompletedAt(tasks, after.ticks, m);
    }
  }

  /** In particular a plan without blank checkboxes reads right whatever happens. */
  lemma FilledPlanReadsAsDone(text: string, answers: seq<Answer>, choices: seq<Escalation>)
    requires NoneBlank(Boxes(Lines(text)), |Boxes(Lines(text))|)
    ensures var tasks := Tasks(text);
            var (_, after) := Loop(World(text, [], [], [], answers, choices), tasks, 0);
            Tasks(after.doc) == CompletedAll(tasks, after.ticks)
  {
    hide Boxes, Lines, Filled, Loop;
    var first := Boxes(Lines(text));
    PlanReadsAsDone(text, answers, choices);
    TasksUpTo(first, |first|);
    assert first[..|first|] == first;
    assert FirstBlank(first) == |first|;
  }
}
