/** What ends a task, what each turn is started with, and what the loop as a whole leaves behind. */
module TaskVerdicts {
  import opened Text
  import opened PlanDocument
  import opened TaskLoop

  /** The turn ended well, no tool failed, and the todo list has nothing pending. */
  predicate Good(a: Answer) { a.Turn? && a.ok && a.toolErrors == 0 && a.pending == 0 }

  predicate GoesOn(c: Escalation) { c.Retry? || c.Reword? }

  /** The task as the operator last worded it. */
  function Worded(content: string, said: seq<Escalation>): string
    decreases |said|
  {
    if said == [] then content else Worded(if said[0].Reword? then said[0].content else content, said[1..])
  }

  // ----- what a ladder consumes -----

  /** A turn that fell short. */
  predicate Short(a: Answer) { a.Turn? && !Good(a) }

  predicate EndsGood(used: seq<Answer>) { used != [] && Good(used[|used| - 1]) }

  predicate EndsUnseeded(used: seq<Answer>) { used != [] && used[|used| - 1].SeedFails? }

  predicate EndsSaying(said: seq<Escalation>, c: Escalation) { said != [] && said[|said| - 1] == c }

  /** Every answer but the last was a turn that fell short, every choice but the last to go on. */
  predicate OnlyTheLastDecides(used: seq<Answer>, said: seq<Escalation>) {
    && (forall i :: 0 <= i < |used| - 1 ==> Short(used[i]))
    && (forall i :: 0 <= i < |said| - 1 ==> GoesOn(said[i]))
  }

  lemma ShortFirst(x: Answer, used: seq<Answer>, said: seq<Escalation>)
    requires Short(x) && OnlyTheLastDecides(used, said)
    ensures OnlyTheLastDecides([x] + used, said)
    ensures EndsGood([x] + used) <==> EndsGood(used)
    ensures EndsUnseeded([x] + used) <==> EndsUnseeded(used)
    ensures EndsGood(used) ==> ([x] + used)[|used|] == used[|used| - 1]
  {
    hide Good;
    var more := [x] + used;
    assert used != [] ==> more[|more| - 1] == used[|used| - 1];
    forall i | 0 <= i < |more| - 1 ensures Short(more[i]) {
      if i > 0 {
        assert more[i] == used[i - 1];
      }
    }
  }

  lemma AskedFirst(x: Escalation, used: seq<Answer>, said: seq<Escalation>)
    requires GoesOn(x) && OnlyTheLastDecides(used, said)
    ensures OnlyTheLastDecides(used, [x] + said)
    ensures forall c :: !GoesOn(c) ==> (EndsSaying([x] + said, c) <==> EndsSaying(said, c))
  {
    hide Short;
    var more := [x] + said;
    assert said != [] ==> more[|more| - 1] == said[|said| - 1];
    forall i | 0 <= i < |more| - 1 ensures GoesOn(more[i]) {
      if i > 0 {
        assert more[i] == said[i - 1];
      }
    }
  }

  // ----- how a ladder ends -----

  /** The line of memory a ladder leaves. */
  function Remembered(used: seq<Answer>, said: seq<Escalation>, index: nat, content: string): seq<Note> {
    if EndsGood(used) then [Finished(index, Worded(content, said))]
    else if EndsSaying(said, Skip) then [Skipped(index, Worded(content, said))]
    else []
  }

  function TickedBy(used: seq<Answer>, index: nat): seq<nat> {
    if EndsGood(used) && used[|used| - 1].written then [index] else []
  }

  /**
   * A ladder finishes its task exactly when the last answer it consumed was good, and then at that answer:
   * it ticks the checkbox if the file could be written and notes the task as last worded. It notes a skip
   * exactly when the operator said so last, is aborted exactly when the operator said that, and ends
   * completed but silent exactly when the todo list could not be seeded.
   */
  predicate Verdict(used: seq<Answer>, said: seq<Escalation>, before: World, after: World, index: nat,
                    content: string, status: Status) {
    && before.answers == used + after.answers && before.choices == said + after.choices
    && OnlyTheLastDecides(used, said) && !(EndsGood(used) && EndsSaying(said, Skip))
    && after.memory == before.memory + Remembered(used, said, index, content)
    && after.ticks == before.ticks + TickedBy(used, index)
    && (status.Aborted? <==> EndsSaying(said, Abort))
    && (status.Completed? <==> EndsGood(used) || EndsUnseeded(used) || EndsSaying(said, Skip))
  }

  lemma VerdictAfterAnswer(x: Answer, used: seq<Answer>, said: seq<Escalation>, w: World, next: World, after: World,
                           index: nat, content: string, status: Status)
    requires Short(x) && w.answers == [x] + next.answers && next.choices == w.choices
    requires next.memory == w.memory && next.ticks == w.ticks
    requires Verdict(used, said, next, after, index, content, status)
    ensures Verdict([x] + used, said, w, after, index, content, status)
  {
    ShortFirst(x, used, said);
    Assoc([x], used, after.answers);
    hide Short, Good, OnlyTheLastDecides, EndsGood, EndsUnseeded, EndsSaying, Worded;
  }

  lemma VerdictAfterChoice(x: Escalation, used: seq<Answer>, said: seq<Escalation>, w: World, next: World,
                           after: World, index: nat, content: string, status: Status)
    requires GoesOn(x) && w.choices == [x] + next.choices && next.answers == w.answers
    requires next.memory == w.memory && next.ticks == w.ticks
    requires Verdict(used, said, next, after, index, if x.Reword? then x.content else content, status)
    ensures Verdict(used, [x] + said, w, after, index, content, status)
  {
    AskedFirst(x, used, said);
    assert ([x] + said)[1..] == said;
    Assoc([x], said, after.choices);
    assert !GoesOn(Abort) && !GoesOn(Skip);
    assert Worded(content, [x] + said) == Worded(if x.Reword? then x.content else content, said);
    hide Short, Good, OnlyTheLastDecides, EndsGood, EndsUnseeded, EndsSaying, Worded, GoesOn;
  }

  lemma SaysOnce(c: Escalation, content: string)
    requires !GoesOn(c)
    ensures OnlyTheLastDecides([], [c]) && Worded(content, [c]) == content
    ensures forall d :: EndsSaying([c], d) <==> c == d
    ensures !EndsGood([]) && !EndsUnseeded([])
  {
    assert [c][1..] == [];
  }

  lemma SaysNothing(content: string)
    ensures OnlyTheLastDecides([], []) && Worded(content, []) == content && !EndsGood([]) && !EndsUnseeded([])
    ensures forall d :: !EndsSaying([], d)
  {
  }

  lemma AnswersOnce(a: Answer)
    ensures OnlyTheLastDecides([a], []) && (EndsGood([a]) <==> Good(a)) && (EndsUnseeded([a]) <==> a.SeedFails?)
  {
  }

  lemma VerdictAtQuestion(w: World, index: nat, content: string) returns (said: seq<Escalation>)
    requires w.choices == [] || !GoesOn(w.choices[0])
    ensures var (status, after) := Ladder(w, index, content, 4);
            Verdict([], said, w, after, index, content, status)
  {
    SaysNothing(content);
    said := if w.choices == [] then [] else [w.choices[0]];
    assert [] + w.answers == w.answers && said + (if w.choices == [] then [] else w.choices[1..]) == w.choices;
    assert w.memory + [] == w.memory && w.ticks + [] == w.ticks;
    if w.choices != [] {
      SaysOnce(w.choices[0], content);
    }
    hide Marked, Good, OnlyTheLastDecides, EndsGood, EndsUnseeded, EndsSaying, Worded;
  }

  lemma VerdictAtAnswer(w: World, index: nat, content: string, attempt: nat) returns (used: seq<Answer>)
    requires attempt <= 3 && (w.answers == [] || !Short(w.answers[0]))
    ensures var (status, after) := Ladder(w, index, content, attempt);
            Verdict(used, [], w, after, index, content, status)
    ensures used == if w.answers == [] then [] else [w.answers[0]]
  {
    SaysNothing(content);
    used := if w.answers == [] then [] else [w.answers[0]];
    assert [] + w.choices == w.choices && used + (if w.answers == [] then [] else w.answers[1..]) == w.answers;
    assert w.memory + [] == w.memory && w.ticks + [] == w.ticks;
    if w.answers != [] {
      AnswersOnce(w.answers[0]);
    }
    hide Marked, OnlyTheLastDecides, EndsGood, EndsUnseeded, EndsSaying, Worded;
  }

  // ----- what turns are started with -----

  /** First try clean, then the same again, then another way, and round again. */
  function AdviceFor(tries: nat): Advice {
    if tries % 3 == 0 then NoAdvice else if tries % 3 == 1 then RetryTheSame else ChangeStrategy
  }

  /**
   * The `n` turns of a ladder from attempt number `attempt` on: each for the task as worded by then, with
   * one question for every three tries, and each with the conclusions from before the task.
   */
  function Turns(index: nat, content: string, memory: seq<Note>, said: seq<Escalation>, attempt: nat, n: nat)
    : (turns: seq<Kickoff>)
    requires attempt > 0
    ensures |turns| == n
  {
    seq(n, j requires 0 <= j < n => Turn(index, content, memory, said, attempt - 1 + j))
  }

  function Turn(index: nat, content: string, memory: seq<Note>, said: seq<Escalation>, tries: nat): Kickoff {
    Kickoff(index, Worded(content, said[..Min(tries / 3, |said|)]), AdviceFor(tries), memory)
  }

  lemma TurnsTried(index: nat, content: string, memory: seq<Note>, said: seq<Escalation>, attempt: nat, n: nat)
    requires 1 <= attempt <= 3
    ensures Turns(index, content, memory, said, attempt, n + 1)
         == [Kickoff(index, content, AttemptNote(attempt), memory)]
            + Turns(index, content, memory, said, attempt + 1, n)
  {
    assert said[..0] == [];
    assert Turn(index, content, memory, said, attempt - 1) == Kickoff(index, content, AttemptNote(attempt), memory);
    hide Turn;
    var all, later := Turns(index, content, memory, said, attempt, n + 1),
                      Turns(index, content, memory, said, attempt + 1, n);
    assert forall j :: 0 <= j < n ==> all[j + 1] == later[j];
  }

  lemma TurnAsked(index: nat, content: string, memory: seq<Note>, x: Escalation, said: seq<Escalation>, tries: nat)
    ensures Turn(index, content, memory, [x] + said, 3 + tries)
         == Turn(index, if x.Reword? then x.content else content, memory, said, tries)
  {
    var more, q := [x] + said, Min(tries / 3, |said|);
    assert (3 + tries) / 3 == 1 + tries / 3 && (3 + tries) % 3 == tries % 3;
    assert Min((3 + tries) / 3, |more|) == q + 1;
    assert more[..q + 1][1..] == said[..q] && more[..q + 1][0] == x;
  }

  lemma TurnsAsked(index: nat, content: string, memory: seq<Note>, x: Escalation, said: seq<Escalation>, n: nat)
    ensures Turns(index, content, memory, [x] + said, 4, n)
         == Turns(index, if x.Reword? then x.content else content, memory, said, 1, n)
  {
    hide Turn;
    var worded := if x.Reword? then x.content else content;
    var all, later := Turns(index, content, memory, [x] + said, 4, n), Turns(index, worded, memory, said, 1, n);
    forall j | 0 <= j < n ensures all[j] == later[j] { TurnAsked(index, content, memory, x, said, j); }
  }

  /** Answers that a turn was started for: all but one that says the todo list could not be seeded. */
  function TurnsBehind(used: seq<Answer>): nat { if EndsUnseeded(used) then |used| - 1 else |used| }

  /** The turns a ladder started. */
  predicate Starts(used: seq<Answer>, said: seq<Escalation>, before: World, after: World, index: nat,
                   content: string, attempt: nat)
    requires attempt > 0
  {
    after.kickoffs == before.kickoffs + Turns(index, content, before.memory, said, attempt, TurnsBehind(used))
  }

  lemma StartsAtEnd(used: seq<Answer>, said: seq<Escalation>, w: World, index: nat, content: string, attempt: nat)
    requires 1 <= attempt <= 4
    requires if attempt == 4 then used == [] && (w.choices == [] || !GoesOn(w.choices[0]))
             else said == [] && (if w.answers == [] then used == [] else !Short(w.answers[0]) && used == [w.answers[0]])
    ensures Starts(used, said, w, Ladder(w, index, content, attempt).1, index, content, attempt)
  {
    hide Marked, Worded;
    assert w.kickoffs + [] == w.kickoffs;
    assert Turns(index, content, w.memory, said, attempt, 0) == [];
    if attempt <= 3 {
      TurnsTried(index, content, w.memory, said, attempt, 0);
      assert Turns(index, content, w.memory, said, attempt + 1, 0) == [];
      var k := Kickoff(index, content, AttemptNote(attempt), w.memory);
      assert [k] + [] == [k];
    }
    hide Turns;
  }

  lemma StartsAfterAnswer(x: Answer, used: seq<Answer>, said: seq<Escalation>, w: World, next: World, after: World,
                          index: nat, content: string, attempt: nat)
    requires 1 <= attempt <= 3 && Short(x) && OnlyTheLastDecides(used, said)
    requires next.memory == w.memory
    requires next.kickoffs == w.kickoffs + [Kickoff(index, content, AttemptNote(attempt), w.memory)]
    requires Starts(used, said, next, after, index, content, attempt + 1)
    ensures Starts([x] + used, said, w, after, index, content, attempt)
  {
    ShortFirst(x, used, said);
    hide Turns, Short, EndsUnseeded, AttemptNote;
    var n := TurnsBehind(used);
    TurnsTried(index, content, w.memory, said, attempt, n);
    Assoc(w.kickoffs, [Kickoff(index, content, AttemptNote(attempt), w.memory)],
          Turns(index, content, w.memory, said, attempt + 1, n));
  }

  lemma StartsAfterChoice(x: Escalation, used: seq<Answer>, said: seq<Escalation>, w: World, next: World,
                          after: World, index: nat, content: string)
    requires next.memory == w.memory && next.kickoffs == w.kickoffs
    requires Starts(used, said, next, after, index, if x.Reword? then x.content else content, 1)
    ensures Starts(used, [x] + said, w, after, index, content, 4)
  {
    hide Turns, EndsUnseeded;
    TurnsAsked(index, content, w.memory, x, said, TurnsBehind(used));
  }

  /** What a ladder consumes, how it ends, and what it starts its turns with. */
  lemma {:induction false} LadderVerdict(w: World, index: nat, content: string, attempt: nat)
      returns (used: seq<Answer>, said: seq<Escalation>)
    requires 1 <= attempt <= 4
    ensures var (status, after) := Ladder(w, index, content, attempt);
            && Verdict(used, said, w, after, index, content, status)
            && Starts(used, said, w, after, index, content, attempt)
    decreases Left(w)
  {
    hide Marked, Verdict, Starts, Ladder, Good, OnlyTheLastDecides, AttemptNote;
    used, said := [], [];
    var (status, after) := Ladder(w, index, content, attempt);
    if attempt == 4 {
      if w.choices == [] || !GoesOn(w.choices[0]) {
        said := VerdictAtQuestion(w, index, content);
        StartsAtEnd([], said, w, index, content, 4);
      } else {
        var x := w.choices[0];
        LadderAsks(w, index, content);
        used, said := LadderVerdict(Asked(w), index, if x.Reword? then x.content else content, 1);
        VerdictAfterChoice(x, used, said, w, Asked(w), after, index, content, status);
        StartsAfterChoice(x, used, said, w, Asked(w), after, index, content);
        said := [x] + said;
      }
    } else if w.answers == [] || !Short(w.answers[0]) {
      used := VerdictAtAnswer(w, index, content, attempt);
      StartsAtEnd(used, [], w, index, content, attempt);
    } else {
      var x, next := w.answers[0], Started(Heard(w), index, content, attempt);
      LadderTries(w, index, content, attempt);
      used, said := LadderVerdict(next, index, content, attempt + 1);
      VerdictIsShort(used, said, next, after, index, content, status);
      VerdictAfterAnswer(x, used, said, w, next, after, index, content, status);
      StartsAfterAnswer(x, used, said, w, next, after, index, content, attempt);
      used := [x] + used;
    }
  }

  lemma VerdictIsShort(used: seq<Answer>, said: seq<Escalation>, before: World, after: World, index: nat,
                       content: string, status: Status)
    requires Verdict(used, said, before, after, index, content, status)
    ensures OnlyTheLastDecides(used, said)
  {
  }

  lemma LadderAsks(w: World, index: nat, content: string)
    requires w.choices != [] && GoesOn(w.choices[0])
    ensures Ladder(w, index, content, 4)
         == Ladder(Asked(w), index, if w.choices[0].Reword? then w.choices[0].content else content, 1)
  {
    hide Marked;
  }

  lemma LadderTries(w: World, index: nat, content: string, attempt: nat)
    requires 1 <= attempt <= 3 && w.answers != [] && Short(w.answers[0])
    ensures Ladder(w, index, content, attempt)
         == Ladder(Started(Heard(w), index, content, attempt), index, content, attempt + 1)
  {
    hide Marked;
  }

  // ----- the whole loop -----

  function CountGood(used: seq<Answer>): nat {
    if used == [] then 0 else CountGood(used[..|used| - 1]) + if Good(used[|used| - 1]) then 1 else 0
  }

  /** Good answers for which the plan file could be written. */
  function CountWritten(used: seq<Answer>): nat {
    if used == [] then 0
    else CountWritten(used[..|used| - 1]) + if Good(used[|used| - 1]) && used[|used| - 1].written then 1 else 0
  }

  function CountFinished(notes: seq<Note>): nat {
    if notes == [] then 0 else CountFinished(notes[..|notes| - 1]) + if notes[|notes| - 1].Finished? then 1 else 0
  }

  lemma {:induction false} CountsConcat(a: seq<Answer>, b: seq<Answer>)
    ensures CountGood(a + b) == CountGood(a) + CountGood(b) && CountWritten(a + b) == CountWritten(a) + CountWritten(b)
  {
    hide Good;
    if b == [] {
      assert a + b == a;
    } else {
      assert (a + b)[..|a + b| - 1] == a + b[..|b| - 1];
      CountsConcat(a, b[..|b| - 1]);
    }
  }

  lemma {:induction false} ShortsCountNothing(used: seq<Answer>)
    requires forall i :: 0 <= i < |used| ==> Short(used[i])
    ensures CountGood(used) == 0 && CountWritten(used) == 0
  {
    if used == [] {
    } else {
      ShortsCountNothing(used[..|used| - 1]);
      assert Short(used[|used| - 1]);
    }
  }

  lemma LadderCountsGood(used: seq<Answer>, said: seq<Escalation>)
    requires OnlyTheLastDecides(used, said)
    ensures CountGood(used) == if EndsGood(used) then 1 else 0
    ensures CountWritten(used) == |TickedBy(used, 0)|
  {
    hide Good;
    if used != [] {
      ShortsCountNothing(used[..|used| - 1]);
    }
  }

  lemma FinishedNext(notes: seq<Note>, note: Note)
    ensures CountFinished(notes + [note]) == CountFinished(notes) + if note.Finished? then 1 else 0
  {
    assert (notes + [note])[..|notes|] == notes;
  }

  lemma VerdictCounts(used: seq<Answer>, said: seq<Escalation>, before: World, after: World, index: nat,
                      content: string, status: Status)
    requires Verdict(used, said, before, after, index, content, status)
    ensures |after.ticks| == |before.ticks| + CountWritten(used)
    ensures CountFinished(after.memory) == CountFinished(before.memory) + CountGood(used)
  {
    LadderCountsGood(used, said);
    hide Good, OnlyTheLastDecides, CountGood, CountWritten, CountFinished, Worded;
    var notes := Remembered(used, said, index, content);
    if notes == [] {
      assert before.memory + notes == before.memory;
    } else {
      FinishedNext(before.memory, notes[0]);
    }
  }

  /**
   * Over the whole loop, every checkbox ticked and every task noted as finished answers to one good answer,
   * and every good answer consumed to one finished task, ticked if the file could be written.
   */
  lemma {:induction false} LoopCounts(w: World, tasks: seq<Box>, k: nat) returns (used: seq<Answer>)
    requires k <= |tasks|
    ensures var (_, after) := Loop(w, tasks, k);
            && w.answers == used + after.answers
            && |after.ticks| == |w.ticks| + CountWritten(used)
            && CountFinished(after.memory) == CountFinished(w.memory) + CountGood(used)
    decreases |tasks| - k
  {
    hide Ladder, CountGood, CountWritten, CountFinished;
    used := [];
    NothingCounts();
    assert [] + w.answers == w.answers;
    if k < |tasks| {
      if tasks[k].done {
        used := LoopCounts(w, tasks, k + 1);
      } else {
        var (status, next) := Ladder(w, k, tasks[k].content, 1);
        var mine, said := LadderVerdict(w, k, tasks[k].content, 1);
        VerdictCounts(mine, said, w, next, k, tasks[k].content, status);
        used := mine;
        if status.Completed? {
          var later := LoopCounts(next, tasks, k + 1);
          CountsConcat(mine, later);
          Assoc(mine, later, Loop(next, tasks, k + 1).1.answers);
          used := mine + later;
        }
      }
    }
  }

  lemma NothingCounts()
    ensures CountGood([]) == 0 && CountWritten([]) == 0
  {
  }

  /** Turns from number `from` on are for pending tasks from number `k` on, in order. */
  ghost predicate TurnsInOrder(kickoffs: seq<Kickoff>, from: nat, tasks: seq<Box>, k: nat) {
    && (forall j :: from <= j < |kickoffs| ==> k <= kickoffs[j].index < |tasks| && !tasks[kickoffs[j].index].done)
    && (forall i, j :: from <= i < j < |kickoffs| ==> kickoffs[i].index <= kickoffs[j].index)
  }

  /** A turn was started for task `i` as the plan words it, without advice. */
  ghost predicate StartedFor(kickoffs: seq<Kickoff>, tasks: seq<Box>, i: nat)
    requires i < |tasks|
  {
    exists j :: 0 <= j < |kickoffs| && kickoffs[j].index == i
                && kickoffs[j].content == tasks[i].content && kickoffs[j].advice == NoAdvice
  }

  predicate AllSeeded(answers: seq<Answer>) { forall i :: 0 <= i < |answers| ==> !answers[i].SeedFails? }

  lemma LadderTurns(w: World, index: nat, content: string)
    ensures var (status, after) := Ladder(w, index, content, 1);
            && w.kickoffs <= after.kickoffs
            && (forall j :: |w.kickoffs| <= j < |after.kickoffs| ==> after.kickoffs[j].index == index)
            && (AllSeeded(w.answers) ==> AllSeeded(after.answers))
            && (AllSeeded(w.answers) && status.Completed? ==>
                  var n := |w.kickoffs|;
                  n < |after.kickoffs| && after.kickoffs[n] == Kickoff(index, content, NoAdvice, w.memory))
  {
    hide Ladder, Good;
    var used, said := LadderVerdict(w, index, content, 1);
    var (status, after) := Ladder(w, index, content, 1);
    LadderCounts(w, index, content, 1);
    assert |used| == |w.answers| - |after.answers| && |said| == |w.choices| - |after.choices|;
    assert forall i :: 0 <= i < |after.answers| ==> after.answers[i] == w.answers[|used| + i];
    assert forall i :: 0 <= i < |used| ==> w.answers[i] == used[i];
    if AllSeeded(w.answers) && status.Completed? {
      assert used != [];
      assert said[..0] == [];
    }
    hide Verdict, OnlyTheLastDecides;
  }

  lemma TurnsFollow(kickoffs: seq<Kickoff>, from: nat, mid: nat, tasks: seq<Box>, k: nat)
    requires from <= mid <= |kickoffs| && k < |tasks| && !tasks[k].done
    requires forall j :: from <= j < mid ==> kickoffs[j].index == k
    requires TurnsInOrder(kickoffs, mid, tasks, k + 1)
    ensures TurnsInOrder(kickoffs, from, tasks, k)
  {
  }

  /**
   * Turns are started for pending tasks only, in order; and a loop that completes has started every pending
   * task, as the plan words it and without advice, unless a todo list could not be seeded.
   */
  lemma {:induction false} LoopStartsAll(w: World, tasks: seq<Box>, k: nat)
    requires k <= |tasks|
    ensures var (status, after) := Loop(w, tasks, k);
            && w.kickoffs <= after.kickoffs && TurnsInOrder(after.kickoffs, |w.kickoffs|, tasks, k)
            && (status.Completed? && AllSeeded(w.answers) ==>
                  forall i :: k <= i < |tasks| && !tasks[i].done ==> StartedFor(after.kickoffs, tasks, i))
    decreases |tasks| - k
  {
    hide Ladder, AllSeeded;
    if k < |tasks| {
      if tasks[k].done {
        LoopStartsAll(w, tasks, k + 1);
      } else {
        var (status, next) := Ladder(w, k, tasks[k].content, 1);
        LadderTurns(w, k, tasks[k].content);
        if status.Completed? {
          LoopStartsAll(next, tasks, k + 1);
          var (_, after) := Loop(next, tasks, k + 1);
          assert Loop(w, tasks, k) == Loop(next, tasks, k + 1);
          hide Loop;
          assert forall j :: 0 <= j < |next.kickoffs| ==> after.kickoffs[j] == next.kickoffs[j];
          TurnsFollow(after.kickoffs, |w.kickoffs|, |next.kickoffs|, tasks, k);
          if AllSeeded(w.answers) {
            assert after.kickoffs[|w.kickoffs|] == next.kickoffs[|w.kickoffs|];
            assert StartedFor(after.kickoffs, tasks, k);
          }
        }
      }
    }
  }
}
