/** Runs in which every write lands: when the file is in step all along, and that no id is ever in two places. */
module QueueOnce {
  import opened Text
  import opened Q = QueueModel
  import opened QueueRuns
  import opened QueueCrash
  import opened QueueFiles
  import opened QueueTorn

  // ----- in step all along -----

  predicate StepLands(step: Step) { step.Call? ==> AllTrue(step.ok) }

  predicate StepsLand(steps: seq<Step>) { forall i :: 0 <= i < |steps| ==> StepLands(steps[i]) }

  predicate InStepAlong(w: World, steps: seq<Step>) { forall n :: 0 <= n <= |steps| ==> Synced(Run(w, steps[..n])) }

  lemma RunNext(w: World, steps: seq<Step>, n: nat)
    requires 0 < n <= |steps|
    ensures Run(w, steps[..n]) == Run(Apply(w, steps[0]), steps[1..][..n - 1])
  {
    assert steps[..n][1..] == steps[1..][..n - 1];
  }

  lemma RunNothing(w: World, steps: seq<Step>)
    ensures Run(w, steps[..0]) == w
  {
  }

  lemma AlongNext(w: World, steps: seq<Step>)
    requires steps != []
    ensures InStepAlong(w, steps) <==> Synced(w) && InStepAlong(Apply(w, steps[0]), steps[1..])
  {
    var w', rest := Apply(w, steps[0]), steps[1..];
    hide Synced, Apply, Run;
    RunNothing(w, steps);
    forall n | 0 < n <= |steps| ensures Run(w, steps[..n]) == Run(w', rest[..n - 1]) { RunNext(w, steps, n); }
    if InStepAlong(w, steps) {
      forall n | 0 <= n <= |rest| ensures Synced(Run(w', rest[..n])) {
        assert Synced(Run(w, steps[..n + 1]));
      }
    }
  }

  lemma FirstIsInStep(w: World, steps: seq<Step>)
    ensures InStepAlong(w, steps) ==> Synced(w)
  {
    RunNothing(w, steps);
    hide Synced, Run;
    assert InStepAlong(w, steps) ==> Synced(Run(w, steps[..0]));
  }

  lemma StepKeepsSync(w: World, step: Step)
    requires Inv(w) && Synced(w) && w.mem.limit <= QUEUE_LIMIT_CEILING && StepLands(step)
    ensures Synced(Apply(w, step)) <==> SafeStep(w, step)
    ensures Inv(Apply(w, step)) ==> Apply(w, step).mem.limit == w.mem.limit
    ensures Synced(Apply(w, step)) ==> Inv(Apply(w, step))
  {
    hide Inv, Synced, SafeOp, Do, Load, AllTrue;
    if step.Crash? {
      hide Apply;
      CrashKeeps(w);
    } else {
      CallKeepsSync(w, step.op, step.ok);
      CallKeepsInv(w, step.op, step.ok);
    }
  }

  /** While all writes land, the file is in step behind every step of a run exactly when the run is safe. */
  lemma {:induction false} InStepExactlyWhenSafe(w: World, steps: seq<Step>)
    requires Inv(w) && Synced(w) && w.mem.limit <= QUEUE_LIMIT_CEILING && StepsLand(steps)
    ensures InStepAlong(w, steps) <==> SafeRun(w, steps)
    decreases |steps|
  {
    if steps == [] {
      RunNothing(w, steps);
    } else {
      var step, rest := steps[0], steps[1..];
      assert StepLands(step) && StepsLand(rest);
      assert SafeRun(w, steps) <==> SafeStep(w, step) && SafeRun(Apply(w, step), rest);
      hide *;
      AlongNext(w, steps);
      FirstIsInStep(Apply(w, step), rest);
      StepKeepsSync(w, step);
      if Synced(Apply(w, step)) {
        InStepExactlyWhenSafe(Apply(w, step), rest);
      }
    }
  }

  // ----- no id in two places -----

  predicate Lands(event: Event) { event.Complete? ==> StepLands(event.step) }

  predicate AllLand(events: seq<Event>) { forall i :: 0 <= i < |events| ==> Lands(events[i]) }

  /** Each issued id is in one place at most, and no other id is anywhere. */
  ghost predicate AtMostOnce(w: World) {
    forall id: nat :: Places(w, id) <= if 1 <= id < w.mem.nextId then 1 else 0
  }

  /** A reload brings back counter, ledger and limit as they are, and no entry that is not waiting or out. */
  ghost predicate FileWithin(w: World) {
    var back := Load(w.disk).0;
    && back.nextId == w.mem.nextId && back.recent == w.mem.recent && back.limit == w.mem.limit
    && AllPending(back.pending) && |back.pending| <= back.limit
    && forall id: nat :: Count(back.pending, id) <= Count(w.mem.pending, id) + Count(w.taken, id)
  }

  /** What holds all along a history in which every write lands, be its calls safe or not. */
  ghost predicate Sound(w: World) {
    && WellShaped(w.mem, w.taken, w.terminal) && w.mem.limit <= QUEUE_LIMIT_CEILING
    && AtMostOnce(w) && FileWithin(w)
  }

  lemma PresentIsIssued(w: World, e: QueueEntry)
    requires AtMostOnce(w) && WellShaped(w.mem, w.taken, w.terminal)
    requires e in w.mem.pending || e in w.taken || e in w.mem.recent
    ensures e.id < w.mem.nextId
  {
    if e in w.mem.pending {
      CountsMembers(w.mem.pending, e);
    } else if e in w.taken {
      CountsMembers(w.taken, e);
    } else {
      assert e in w.terminal;
      CountsMembers(w.terminal, e);
    }
    assert Places(w, e.id) >= 1;
  }

  lemma SoundIsIssued(w: World)
    requires AtMostOnce(w) && WellShaped(w.mem, w.taken, w.terminal)
    ensures Issued(w.mem, w.taken)
  {
    forall e | e in w.mem.pending || e in w.taken || e in w.mem.recent ensures e.id < w.mem.nextId {
      PresentIsIssued(w, e);
    }
  }

  lemma CallAtMostOnce(w: World, op: Op, ok: seq<bool>)
    requires AtMostOnce(w) && 1 <= w.mem.nextId
    ensures AtMostOnce(Apply(w, Call(op, ok)))
  {
    var o, w' := Do(w.mem, w.taken, op), Apply(w, Call(op, ok));
    forall id: nat
      ensures Places(w', id) <= if 1 <= id < w'.mem.nextId then 1 else 0
    {
      CallBalanced(w.mem, w.taken, op, id);
      CountAppend(o.filed, w.terminal, id);
      assert Places(w, id) <= if 1 <= id < w.mem.nextId then 1 else 0;
    }
  }

  lemma QuietKeepsWithin(w: World, op: Op, ok: seq<bool>)
    requires FileWithin(w) && Do(w.mem, w.taken, op).writes == []
    ensures FileWithin(Apply(w, Call(op, ok)))
  {
    QuietCall(w, op);
    var o, w' := Do(w.mem, w.taken, op), Apply(w, Call(op, ok));
    assert w'.disk == w.disk;
    var before, behind := w.mem.(pending := w.taken + w.mem.pending), o.mem.(pending := o.taken + o.mem.pending);
    hide Do, Load, SafeOp;
    assert before == behind;
    assert before.nextId == behind.nextId && before.recent == behind.recent && before.limit == behind.limit;
    assert before.pending == behind.pending;
    forall id: nat
      ensures Count(w'.mem.pending, id) + Count(w'.taken, id) == Count(w.mem.pending, id) + Count(w.taken, id)
    {
      CountAppend(w.taken, w.mem.pending, id);
      CountAppend(o.taken, o.mem.pending, id);
    }
  }

  /** A file that holds the memory, or the memory with fewer pending entries. */
  lemma WithinIfFewer(w: World, back: Memory)
    requires Load(w.disk).0 == back && AllPending(back.pending) && |back.pending| <= back.limit
    requires back == w.mem.(pending := back.pending)
    requires forall id: nat :: Count(back.pending, id) <= Count(w.mem.pending, id)
    ensures FileWithin(w)
  {
    hide Load;
  }

  lemma LoudKeepsWithin(w: World, op: Op, ok: seq<bool>)
    requires WellShaped(w.mem, w.taken, w.terminal) && AtMostOnce(w) && w.mem.limit <= QUEUE_LIMIT_CEILING
    requires AllTrue(ok) && Do(w.mem, w.taken, op).writes != [] && !op.Drain?
    ensures FileWithin(Apply(w, Call(op, ok)))
  {
    var o, w' := Do(w.mem, w.taken, op), Apply(w, Call(op, ok));
    SoundIsIssued(w);
    CallIssues(w.mem, w.taken, op);
    CallKeepsShape(w.mem, w.taken, op, w.terminal);
    LoudCall(w, op);
    LandsLast(w.disk, o.writes, ok);
    hide Do, Load, SafeOp, Issued, AtMostOnce;
    IssuedIsLoadable(o.mem, o.taken, o.filed + w.terminal);
    LoadPersisted(o.mem);
    WithinIfFewer(w', o.mem);
  }

  lemma WholeDrain(m: Memory)
    ensures var n := |Select(m.pending, Following)|;
            Q.Drain(m).mem == MidDrain(m, n).(pending := Select(m.pending, Steering))
  {
    var followUps := Select(m.pending, Following);
    assert followUps[..|followUps|] == followUps;
    hide Select, Behind, Texts;
    if followUps == [] {
      OnlySteers(m.pending);
    }
  }

  lemma BehindAllCounts(s: Entries, id: nat)
    ensures Count(Behind(s, |Select(s, Following)|), id) <= Count(Select(s, Steering), id)
  {
    hide Select, Count, Behind;
    var followUps := Select(s, Following);
    BehindCounts(s, |followUps|, id);
    CountByKind(s, id);
    assert followUps[..|followUps|] == followUps;
  }

  lemma DrainKeepsWithin(w: World, ok: seq<bool>)
    requires WellShaped(w.mem, w.taken, w.terminal) && AtMostOnce(w) && w.mem.limit <= QUEUE_LIMIT_CEILING
    requires AllTrue(ok) && DrainWrites(w.mem) != [] && Select(w.mem.pending, Following) != []
    ensures FileWithin(Apply(w, Call(Drain, ok)))
  {
    var w' := Apply(w, Call(Drain, ok));
    var n := |Select(w.mem.pending, Following)|;
    SoundIsIssued(w);
    DrainWritesOneByOne(w.mem);
    LandsLast(w.disk, DrainWrites(w.mem), ok);
    MidDrainLoads(w.mem, w.taken, w.terminal, n);
    WholeDrain(w.mem);
    forall id: nat ensures Count(MidDrain(w.mem, n).pending, id) <= Count(w'.mem.pending, id) {
      BehindAllCounts(w.mem.pending, id);
    }
    hide Select, Load, Behind, Issued, AtMostOnce, Count, Filed, DrainWrites, Marked;
    WithinIfFewer(w', MidDrain(w.mem, n));
  }

  lemma CallKeepsSound(w: World, op: Op, ok: seq<bool>)
    requires Sound(w) && AllTrue(ok)
    ensures var w' := Apply(w, Call(op, ok)); Sound(w') && w.mem.nextId <= w'.mem.nextId
  {
    CallKeepsShape(w.mem, w.taken, op, w.terminal);
    CallAtMostOnce(w, op, ok);
    CallBalanced(w.mem, w.taken, op, 0);
    if Do(w.mem, w.taken, op).writes == [] {
      QuietKeepsWithin(w, op, ok);
    } else if op.Drain? {
      DrainWritesOneByOne(w.mem);
      hide Do;
      DrainKeepsWithin(w, ok);
    } else {
      LoudKeepsWithin(w, op, ok);
    }
    hide Do, FileWithin, AtMostOnce;
  }

  lemma ReloadIsSound(w: World, disk: Disk, terminal: Entries)
    requires w == World(Load(disk).0, disk, [], terminal)
    requires WellShaped(w.mem, [], terminal) && w.mem.limit <= QUEUE_LIMIT_CEILING && AtMostOnce(w)
    ensures Sound(w)
  {
    hide Load, AtMostOnce;
  }

  lemma CrashKeepsSound(w: World)
    requires Sound(w)
    ensures Sound(Apply(w, Crash)) && Apply(w, Crash).mem.nextId == w.mem.nextId
  {
    var w' := Apply(w, Crash);
    hide Load;
    forall id: nat
      ensures Places(w', id) <= if 1 <= id < w'.mem.nextId then 1 else 0
    {
      assert Places(w, id) <= if 1 <= id < w.mem.nextId then 1 else 0;
    }
    ReloadIsSound(w', w.disk, w.terminal);
  }

  lemma DrainCutShortSound(w: World, n: nat)
    requires WellShaped(w.mem, w.taken, w.terminal) && AtMostOnce(w) && w.mem.limit <= QUEUE_LIMIT_CEILING
    requires 0 < n <= |Select(w.mem.pending, Following)|
    ensures var w' := CutShort(w, Drain, n); Sound(w') && w'.mem.nextId == w.mem.nextId
  {
    var w' := CutShort(w, Drain, n);
    var popped := Select(w.mem.pending, Following)[..n];
    SoundIsIssued(w);
    DrainCutShort(w, n);
    MidDrainLoads(w.mem, w.taken, w.terminal, n);
    assert w'.terminal == Marked(popped, Delivered) + w.terminal;
    forall id: nat
      ensures Places(w', id) <= if 1 <= id < w'.mem.nextId then 1 else 0
    {
      BehindCounts(w.mem.pending, n, id);
      CountMarked(popped, Delivered, id);
      CountAppend(Marked(popped, Delivered), w.terminal, id);
      assert Places(w, id) <= if 1 <= id < w.mem.nextId then 1 else 0;
    }
    hide Select, Load, Landed, DrainWrites, Marked, MidDrain, AtMostOnce, WellShaped;
    ReloadIsSound(w', w'.disk, w'.terminal);
  }

  lemma TornKeepsSound(w: World, op: Op, n: nat)
    requires Sound(w)
    ensures var w' := CutShort(w, op, n); Sound(w') && w.mem.nextId <= w'.mem.nextId
  {
    if n == 0 || Do(w.mem, w.taken, op).writes == [] {
      CutBefore(w, op, n);
      hide CutShort, Do, Sound, Apply;
      CrashKeepsSound(w);
    } else if op.Drain? {
      DrainWritesOneByOne(w.mem);
      CutShortAtMost(w, n);
      hide CutShort, Select, DrainWrites, FileWithin, AtMostOnce, WellShaped;
      DrainCutShortSound(w, Min(n, |Select(w.mem.pending, Following)|));
    } else {
      CutBehind(w, op, n);
      NothingFails();
      hide CutShort, Do, Sound, Apply;
      CallKeepsSound(w, op, []);
      CrashKeepsSound(Apply(w, Call(op, [])));
    }
  }

  lemma EventKeepsSound(w: World, event: Event)
    requires Sound(w) && Lands(event)
    ensures var w' := Happen(w, event); Sound(w') && w.mem.nextId <= w'.mem.nextId
  {
    hide Sound, CutShort, Apply, AllTrue;
    match event
    case Torn(op, writes) => TornKeepsSound(w, op, writes);
    case Complete(step) =>
      if step.Crash? {
        CrashKeepsSound(w);
      } else {
        CallKeepsSound(w, step.op, step.ok);
      }
  }

  lemma {:induction false} HistoryKeepsSound(w: World, events: seq<Event>)
    requires Sound(w) && AllLand(events)
    ensures var end := History(w, events); Sound(end) && w.mem.nextId <= end.mem.nextId
    decreases |events|
  {
    hide Sound, Happen, Lands;
    if events == [] {
    } else {
      EventKeepsSound(w, events[0]);
      HistoryKeepsSound(Happen(w, events[0]), events[1..]);
    }
  }

  lemma StartIsSound()
    ensures Sound(FIRST_START)
  {
  }

  /**
   * While all writes land, whatever calls are made, safe or not, and wherever crashes cut them short: every
   * id is pending, out for delivery or terminal at most once, in the memory and with the file in its place.
   */
  lemma NothingTwice(events: seq<Event>)
    requires AllLand(events)
    ensures var w := History(FIRST_START, events);
            forall id: nat ::
              && Places(w, id) <= (if 1 <= id < w.mem.nextId then 1 else 0)
              && Count(Load(w.disk).0.pending, id) + Count(w.terminal, id) <= 1
  {
    StartIsSound();
    HistoryKeepsSound(FIRST_START, events);
    hide History, Load;
    SoundFile(History(FIRST_START, events));
  }

  lemma SoundFile(w: World)
    requires Sound(w)
    ensures forall id: nat :: Count(Load(w.disk).0.pending, id) + Count(w.terminal, id) <= 1
  {
    hide Load, WellShaped;
    forall id: nat ensures Count(Load(w.disk).0.pending, id) + Count(w.terminal, id) <= 1 {
      assert Places(w, id) <= if 1 <= id < w.mem.nextId then 1 else 0;
    }
  }

  /** No two messages are given the same id, however many crashes lie between them, while all writes land. */
  lemma IdsAreNew(before: seq<Event>, first: Op, ok: seq<bool>, between: seq<Event>, second: Op)
    requires AllLand(before) && AllLand(between) && AllTrue(ok) && first.Send? && second.Send?
    ensures var w := History(FIRST_START, before);
            var w' := History(Apply(w, Call(first, ok)), between);
            var once := Q.Send(w.mem, first.lane, first.text, first.source, first.mode).reply;
            var again := Q.Send(w'.mem, second.lane, second.text, second.source, second.mode).reply;
            once.Some? && again.Some? ==> once.value < again.value
  {
    StartIsSound();
    HistoryKeepsSound(FIRST_START, before);
    var w := History(FIRST_START, before);
    hide History, Sound, Landed, AllTrue, Trim;
    CallKeepsSound(w, first, ok);
    HistoryKeepsSound(Apply(w, Call(first, ok)), between);
  }

  // ----- with failing writes -----

  /** A send whose write fails, a crash, another send: both messages are given id 1. */
  lemma FailedWriteReissuesAnId()
    ensures var first, second := Q.Send(EMPTY_MEMORY, "main", "a", User, FollowUp),
                                 Apply(Apply(FIRST_START, Call(Send("main", "a", User, FollowUp), [false])), Crash);
            && first.reply == Some(1)
            && Q.Send(second.mem, "main", "b", User, FollowUp).reply == Some(1)
  {
    assert Trim("main") == "main" && Trim("a") == "a" && Trim("b") == "b";
  }

  lemma TakenOut(w: World)
    requires w.mem.pending != []
    ensures var w' := Apply(w, Call(Take, []));
            && w'.disk == w.disk && w'.taken == w.taken + [w.mem.pending[0]] && w'.terminal == w.terminal
  {
    assert [] + w.terminal == w.terminal;
  }

  lemma FinishedUnwritten(w: World, k: nat)
    requires k < |w.taken|
    ensures var w' := Apply(w, Call(Finish(k, Delivered), [false]));
            w'.disk == w.disk && w'.terminal == [w.taken[k].(state := Delivered)] + w.terminal
  {
    var o := Do(w.mem, w.taken, Finish(k, Delivered));
    assert |o.writes| == 1 && o.filed == [w.taken[k].(state := Delivered)];
    assert o.writes[..0] == [] && Landed(w.disk, [], [false]) == w.disk;
  }

  /** A finish whose write fails, and a crash: the entry is pending again, delivered as it was. */
  lemma FailedWriteDeliversTwice()
    ensures var w := QueueCrash.Persisted([Entry(1, FollowUp)], 2);
            var w' := Apply(Apply(Apply(w, Call(Take, [])), Call(Finish(0, Delivered), [false])), Crash);
            && w'.mem.pending == [Entry(1, FollowUp)] && Places(w', 1) == 2
  {
    var e := Entry(1, FollowUp);
    var w := QueueCrash.Persisted([e], 2);
    var out := Apply(w, Call(Take, []));
    TakenOut(w);
    FinishedUnwritten(out, 0);
    PersistedLoads(e);
    CountOne(e, 1);
    CountOne(e.(state := Delivered), 1);
    hide Load, Do, Landed, Count;
    assert [] + [e] == [e] && [e.(state := Delivered)] + [] == [e.(state := Delivered)];
    assert Count([], 1) == 0 by { CountNothing(); }
  }

  lemma PersistedLoads(e: QueueEntry)
    requires e.state == Pending
    ensures Load(QueueCrash.Persisted([e], 2).disk).0.pending == [e]
  {
    assert [e][1..] == [] && Select([e], Waiting) == [e];
  }

  lemma CountNothing()
    ensures Count([], 1) == 0
  {
  }
}
