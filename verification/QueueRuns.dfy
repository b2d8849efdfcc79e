/**
 * Whole runs of the follow-up queue: every interleaving of its operations with failing writes, with
 * entries out for delivery, and with crashes that lose the memory and reload the file.
 */
module QueueRuns {
  import opened Text
  import opened Q = QueueModel

  /**
   * `taken` holds the entries out for delivery, oldest take first; `terminal` is the full history of
   * filed entries, newest first, of which the ledger keeps only a part.
   */
  datatype World = World(mem: Memory, disk: Disk, taken: Entries, terminal: Entries)

  datatype Op =
    | Send(lane: string, text: string, source: QueueSource, mode: DeliveryMode)
    | Edit(id: nat, text: string)
    | Withdraw(id: nat)
    | CancelLast
    | Move(id: nat, up: bool)
    | Relane(id: nat, lane: string)
    | SetMerged(on: bool)
    | Take
    | Finish(k: nat, state: EntryState)
    | Requeue(k: nat)
    | Claim(text: string)
    | Recover
    | Drain

  /** A call with the outcome of each write it tries (missing means success), or a crash and reload. */
  datatype Step = Call(op: Op, ok: seq<bool>) | Crash

  /** What one call does: memory, entries out, entries it files (newest first), snapshots it writes. */
  datatype Outcome = Outcome(mem: Memory, taken: Entries, filed: Entries, writes: seq<QueueFile>)

  function Keeping<R>(e: Effect<R>, taken: Entries): Outcome { Outcome(e.mem, taken, [], e.writes) }

  /** The newest ledger entry as what an effect filed, when its ledger was written to. */
  function Filing<R>(e: Effect<R>, taken: Entries): Outcome {
    Outcome(e.mem, taken, if e.writes == [] || e.mem.recent == [] then [] else [e.mem.recent[0]], e.writes)
  }

  function Marked(s: Entries, state: EntryState): Entries {
    if s == [] then [] else Marked(s[1..], state) + [s[0].(state := state)]
  }

  function Do(m: Memory, taken: Entries, op: Op): Outcome {
    match op
    case Send(lane, text, source, mode) => Keeping(Q.Send(m, lane, text, source, mode), taken)
    case Edit(id, text) => Keeping(Q.Edit(m, id, text), taken)
    case Withdraw(id) => Filing(Q.Withdraw(m, id), taken)
    case CancelLast => Filing(Q.CancelLast(m), taken)
    case Move(id, up) => Keeping(Q.Move(m, id, up), taken)
    case Relane(id, lane) => Keeping(Q.Relane(m, id, lane), taken)
    case SetMerged(on) => Keeping(Q.SetMerged(m, on), taken)
    case Take =>
      var e := Q.Take(m);
      Keeping(e, taken + if e.reply.Some? then [e.reply.value] else [])
    case Finish(k, state) =>
      if k >= |taken| then Outcome(m, taken, [], []) else Filing(Q.Finish(m, taken[k], state), Without(taken, k))
    case Requeue(k) =>
      if k >= |taken| then Outcome(m, taken, [], [])
      else if |m.pending| >= m.limit then Filing(Q.Requeue(m, taken[k]), Without(taken, k))
      else Keeping(Q.Requeue(m, taken[k]), Without(taken, k))
    case Claim(text) => Filing(Q.Claim(m, text), taken)
    case Recover => Keeping(Q.Recover(m), taken)
    case Drain =>
      var e := Q.Drain(m);
      Outcome(e.mem, taken, Marked(Select(m.pending, Following), Delivered), e.writes)
  }

  function Apply(w: World, step: Step): World {
    match step
    case Call(op, ok) =>
      var o := Do(w.mem, w.taken, op);
      World(o.mem, Landed(w.disk, o.writes, ok), o.taken, o.filed + w.terminal)
    case Crash => World(Load(w.disk).0, w.disk, [], w.terminal)
  }

  function Run(w: World, steps: seq<Step>): World
    decreases |steps|
  {
    if steps == [] then w else Run(Apply(w, steps[0]), steps[1..])
  }

  const FIRST_START := World(EMPTY_MEMORY, Absent, [], [])

  // ----- conservation -----

  function Count(s: Entries, id: nat): nat {
    if s == [] then 0 else Count(s[1..], id) + if s[0].id == id then 1 else 0
  }

  /** How often an id occurs among the pending, the taken and the terminal entries together. */
  function Places(w: World, id: nat): nat {
    Count(w.mem.pending, id) + Count(w.taken, id) + Count(w.terminal, id)
  }

  predicate AllPending(s: Entries) { forall i :: 0 <= i < |s| ==> s[i].state == Pending }

  /** Each issued id is in exactly one place, and no other id is anywhere. */
  ghost predicate Conserved(w: World) {
    1 <= w.mem.nextId && forall id: nat :: Places(w, id) == if 1 <= id < w.mem.nextId then 1 else 0
  }

  /** The cap holds, live entries are pending, and the ledger is the newest of the history. */
  ghost predicate WellShaped(m: Memory, taken: Entries, terminal: Entries) {
    && 1 <= m.nextId && 1 <= m.limit && |m.pending| <= m.limit
    && AllPending(m.pending) && AllPending(taken)
    && m.recent == Capped(terminal)
  }

  lemma {:induction false} CountAppend(a: Entries, b: Entries, id: nat)
    ensures Count(a + b, id) == Count(a, id) + Count(b, id)
  {
    if a == [] {
      assert a + b == b;
    } else {
      CountAppend(a[1..], b, id);
      assert (a + b)[1..] == a[1..] + b;
    }
  }

  function One(e: QueueEntry, id: nat): nat { if e.id == id then 1 else 0 }

  lemma CountCons(e: QueueEntry, s: Entries, id: nat)
    ensures Count([e] + s, id) == One(e, id) + Count(s, id)
  {
    assert ([e] + s)[1..] == s;
  }

  lemma CountOne(e: QueueEntry, id: nat)
    ensures Count([e], id) == One(e, id)
  {
    assert [e][1..] == [];
  }

  lemma CountWithout(s: Entries, k: nat, id: nat)
    requires k < |s|
    ensures Count(s, id) == Count(Without(s, k), id) + One(s[k], id)
  {
    assert s == s[..k] + ([s[k]] + s[k + 1..]);
    CountAppend(s[..k], [s[k]] + s[k + 1..], id);
    CountCons(s[k], s[k + 1..], id);
    CountAppend(s[..k], s[k + 1..], id);
  }

  lemma {:induction false} CountPointwise(s: Entries, t: Entries, id: nat)
    requires |s| == |t| && forall i :: 0 <= i < |s| ==> s[i].id == t[i].id
    ensures Count(s, id) == Count(t, id)
  {
    if s == [] {
    } else {
      CountPointwise(s[1..], t[1..], id);
    }
  }

  lemma CountSwapped(s: Entries, i: nat, j: nat, id: nat)
    requires i < j < |s|
    ensures Count(Swapped(s, i, j), id) == Count(s, id) && Swapped(s, i, j) == Swapped(s, j, i)
  {
    SwappedWithout(s, i, j);
    hide *;
    var t := Swapped(s, i, j);
    CountWithout(s, j, id);
    CountWithout(t, j, id);
    CountWithout(Without(s, j), i, id);
    CountWithout(Without(t, j), i, id);
  }

  lemma SwappedWithout(s: Entries, i: nat, j: nat)
    requires i < j < |s|
    ensures var t := Swapped(s, i, j);
            && t == Swapped(s, j, i) && |t| == |s| && t[j] == s[i]
            && |Without(s, j)| == |Without(t, j)| == |s| - 1
            && Without(s, j)[i] == s[i] && Without(t, j)[i] == s[j]
            && Without(Without(s, j), i) == Without(Without(t, j), i)
  {
  }

  lemma {:induction false} CountByKind(s: Entries, id: nat)
    ensures Count(s, id) == Count(Select(s, Steering), id) + Count(Select(s, Following), id)
  {
    if s == [] {
    } else {
      CountByKind(s[1..], id);
      if s[0].mode == Steer {
        CountCons(s[0], Select(s[1..], Steering), id);
      } else {
        CountCons(s[0], Select(s[1..], Following), id);
      }
    }
  }

  lemma {:induction false} SteersAreFewer(s: Entries)
    ensures |Select(s, Steering)| <= |s|
    ensures AllPending(s) ==> AllPending(Select(s, Steering))
  {
    if s == [] {
    } else {
      SteersAreFewer(s[1..]);
    }
  }

  lemma {:induction false} CountMarked(s: Entries, state: EntryState, id: nat)
    ensures Count(Marked(s, state), id) == Count(s, id)
  {
    if s == [] {
    } else {
      CountMarked(s[1..], state, id);
      CountAppend(Marked(s[1..], state), [s[0].(state := state)], id);
      CountOne(s[0].(state := state), id);
    }
  }

  lemma CappedAppend(a: Entries, b: Entries)
    ensures Capped(a + Capped(b)) == Capped(a + b)
  {
  }

  /** Filing one by one leaves the newest part of what was filed, newest first. */
  lemma {:induction false} FiledIsNewest(s: Entries, state: EntryState, terminal: Entries)
    ensures Filed(s, state, Capped(terminal)) == Capped(Marked(s, state) + terminal)
  {
    if s == [] {
      assert Marked(s, state) + terminal == terminal;
    } else {
      var e := s[0].(state := state);
      CappedAppend([e], terminal);
      FiledIsNewest(s[1..], state, [e] + terminal);
      assert Marked(s[1..], state) + ([e] + terminal) == Marked(s, state) + terminal;
    }
  }

  /** A call neither loses nor duplicates an id, and a send issues exactly the next one. */
  predicate Balanced(m: Memory, taken: Entries, o: Outcome, id: nat) {
    && m.nextId <= o.mem.nextId <= m.nextId + 1
    && Count(o.mem.pending, id) + Count(o.taken, id) + Count(o.filed, id)
       == Count(m.pending, id) + Count(taken, id) + if m.nextId <= id < o.mem.nextId then 1 else 0
  }

  lemma SendBalanced(m: Memory, taken: Entries, op: Op, id: nat)
    requires op.Send? || op.SetMerged? || op.Take?
    ensures Balanced(m, taken, Do(m, taken, op), id)
  {
    if op.Send? {
      var e := Q.Send(m, op.lane, op.text, op.source, op.mode);
      if e.writes != [] {
        var entry := e.mem.pending[|m.pending|];
        CountAppend(m.pending, [entry], id);
        CountOne(entry, id);
      }
    } else if op.Take? {
      if m.pending == [] {
        assert taken + [] == taken;
      } else {
        CountAppend(taken, [m.pending[0]], id);
        CountOne(m.pending[0], id);
      }
    }
  }

  lemma RewriteBalanced(m: Memory, taken: Entries, op: Op, id: nat)
    requires op.Edit? || op.Relane? || op.Recover?
    ensures Balanced(m, taken, Do(m, taken, op), id)
  {
    CountPointwise(m.pending, Do(m, taken, op).mem.pending, id);
  }

  lemma MoveBalanced(m: Memory, taken: Entries, target: nat, up: bool, id: nat)
    ensures Balanced(m, taken, Do(m, taken, Move(target, up)), id)
  {
    var k := FirstIndex(m.pending, ById(target), 0);
    if Q.Move(m, target, up).writes != [] {
      if up {
        CountSwapped(m.pending, k - 1, k, id);
      } else {
        CountSwapped(m.pending, k, k + 1, id);
      }
    }
  }

  lemma RemoveBalanced(m: Memory, taken: Entries, op: Op, id: nat)
    requires op.Withdraw? || op.CancelLast? || op.Claim?
    ensures Balanced(m, taken, Do(m, taken, op), id)
  {
    if !(op.CancelLast? && m.pending == []) {
      var key := match op
        case Claim(text) => SteerWith(text)
        case Withdraw(target) => ById(target)
        case _ => ById(m.pending[|m.pending| - 1].id);
      var k := FirstIndex(m.pending, key, 0);
      if k < |m.pending| {
        CountWithout(m.pending, k, id);
        var o := Do(m, taken, op);
        assert o.mem.pending == Without(m.pending, k);
        assert o.filed[0].id == m.pending[k].id;
        CountOne(o.filed[0], id);
      }
    }
  }

  lemma SettleBalanced(m: Memory, taken: Entries, op: Op, id: nat)
    requires op.Finish? || op.Requeue?
    ensures Balanced(m, taken, Do(m, taken, op), id)
  {
    if op.k < |taken| {
      var o := Do(m, taken, op);
      CountWithout(taken, op.k, id);
      if o.filed == [] {
        CountCons(taken[op.k], m.pending, id);
      } else {
        CountOne(o.filed[0], id);
      }
    }
  }

  lemma DrainBalanced(m: Memory, taken: Entries, id: nat)
    ensures Balanced(m, taken, Do(m, taken, Drain), id)
  {
    CountByKind(m.pending, id);
    CountMarked(Select(m.pending, Following), Delivered, id);
  }

  lemma CallBalanced(m: Memory, taken: Entries, op: Op, id: nat)
    ensures Balanced(m, taken, Do(m, taken, op), id)
  {
    match op
    case Send(_, _, _, _) => SendBalanced(m, taken, op, id);
    case SetMerged(_) => SendBalanced(m, taken, op, id);
    case Take => SendBalanced(m, taken, op, id);
    case Finish(_, _) => SettleBalanced(m, taken, op, id);
    case Requeue(_) => SettleBalanced(m, taken, op, id);
    case Drain => DrainBalanced(m, taken, id);
    case Withdraw(_) => RemoveBalanced(m, taken, op, id);
    case CancelLast => RemoveBalanced(m, taken, op, id);
    case Claim(_) => RemoveBalanced(m, taken, op, id);
    case Edit(_, _) => RewriteBalanced(m, taken, op, id);
    case Relane(_, _) => RewriteBalanced(m, taken, op, id);
    case Recover => RewriteBalanced(m, taken, op, id);
    case Move(target, up) => MoveBalanced(m, taken, target, up, id);
  }

  ghost predicate KeepsShape(m: Memory, taken: Entries, op: Op, terminal: Entries) {
    var o := Do(m, taken, op); WellShaped(o.mem, o.taken, o.filed + terminal) && o.mem.limit == m.limit
  }

  lemma LiveKeepsShape(m: Memory, taken: Entries, op: Op, terminal: Entries)
    requires WellShaped(m, taken, terminal)
    requires op.Send? || op.SetMerged? || op.Take? || op.Edit? || op.Relane? || op.Recover? || op.Move?
    ensures KeepsShape(m, taken, op, terminal)
  {
    assert [] + terminal == terminal;
  }

  /** A removal takes out entry `k` and files it, or finds nothing and changes nothing. */
  lemma RemovalOutcome(m: Memory, taken: Entries, op: Op) returns (k: nat, gone: QueueEntry)
    requires op.Withdraw? || op.CancelLast? || op.Claim?
    ensures var o := Do(m, taken, op);
            && o.taken == taken && o.mem.nextId == m.nextId && o.mem.limit == m.limit
            && if k < |m.pending| then
                 && o.mem.pending == Without(m.pending, k)
                 && o.filed == [gone] && o.mem.recent == Capped([gone] + m.recent) && gone.id == m.pending[k].id
               else o.mem == m && o.filed == []
    ensures var o := Do(m, taken, op); forall i :: 0 <= i < |o.writes| ==> o.writes[i] == Snapshot(o.mem)
  {
    gone := QueueEntry(0, [], User, Withdrawn, [], Auto);
    k := 0;
    if !(op.CancelLast? && m.pending == []) {
      var key := if op.Claim? then SteerWith(op.text)
                 else ById(if op.Withdraw? then op.id else m.pending[|m.pending| - 1].id);
      k := FirstIndex(m.pending, key, 0);
      if k < |m.pending| {
        gone := m.pending[k].(state := if op.Claim? then Delivered else Withdrawn);
      }
    }
  }

  lemma RemovalKeepsShape(m: Memory, taken: Entries, op: Op, terminal: Entries)
    requires WellShaped(m, taken, terminal)
    requires op.Withdraw? || op.CancelLast? || op.Claim?
    ensures KeepsShape(m, taken, op, terminal)
  {
    hide Do, Capped;
    var k, gone := RemovalOutcome(m, taken, op);
    assert [] + terminal == terminal;
    CappedAppend([gone], terminal);
  }

  lemma SettleKeepsShape(m: Memory, taken: Entries, op: Op, terminal: Entries)
    requires WellShaped(m, taken, terminal)
    requires op.Finish? || op.Requeue?
    ensures KeepsShape(m, taken, op, terminal)
  {
    var o := Do(m, taken, op);
    assert [] + terminal == terminal;
    CappedAppend(o.filed, terminal);
    if o.filed != [] {
      assert o.mem.recent == Capped(o.filed + m.recent);
    }
  }

  lemma CallKeepsShape(m: Memory, taken: Entries, op: Op, terminal: Entries)
    requires WellShaped(m, taken, terminal)
    ensures KeepsShape(m, taken, op, terminal)
  {
    if op.Drain? {
      SteersAreFewer(m.pending);
      FiledIsNewest(Select(m.pending, Following), Delivered, terminal);
      assert [] + terminal == terminal;
    } else if op.Withdraw? || op.CancelLast? || op.Claim? {
      RemovalKeepsShape(m, taken, op, terminal);
    } else if op.Finish? || op.Requeue? {
      SettleKeepsShape(m, taken, op, terminal);
    } else {
      LiveKeepsShape(m, taken, op, terminal);
    }
  }

  lemma CallConserves(w: World, op: Op, ok: seq<bool>)
    requires Conserved(w)
    ensures Conserved(Apply(w, Call(op, ok)))
  {
    var o := Do(w.mem, w.taken, op);
    var w' := Apply(w, Call(op, ok));
    forall id: nat
      ensures Places(w', id) == if 1 <= id < w'.mem.nextId then 1 else 0
    {
      CallBalanced(w.mem, w.taken, op, id);
      CountAppend(o.filed, w.terminal, id);
      assert Places(w, id) == if 1 <= id < w.mem.nextId then 1 else 0;
    }
  }

  ghost predicate Inv(w: World) { Conserved(w) && WellShaped(w.mem, w.taken, w.terminal) }

  predicate OnlyCalls(steps: seq<Step>) { forall i :: 0 <= i < |steps| ==> steps[i].Call? }

  lemma {:induction false} RunKeepsInv(w: World, steps: seq<Step>)
    requires Inv(w) && OnlyCalls(steps)
    ensures Inv(Run(w, steps)) && Run(w, steps).mem.limit == w.mem.limit
    decreases |steps|
  {
    if steps == [] {
    } else {
      CallConserves(w, steps[0].op, steps[0].ok);
      CallKeepsShape(w.mem, w.taken, steps[0].op, w.terminal);
      RunKeepsInv(Apply(w, steps[0]), steps[1..]);
    }
  }

  /**
   * Conservation, for every sequence of calls from a fresh start and every pattern of failed writes:
   * each id issued so far is in exactly one place and no other id is anywhere, the cap holds, and the
   * ledger is the newest 20 of everything filed, newest first.
   */
  lemma Conservation(steps: seq<Step>)
    requires OnlyCalls(steps)
    ensures var w := Run(FIRST_START, steps);
            && (forall id: nat :: Places(w, id) == if 1 <= id < w.mem.nextId then 1 else 0)
            && |w.mem.pending| <= DEFAULT_QUEUE_LIMIT
            && w.mem.recent == w.terminal[..Min(|w.terminal|, RECENT_LEDGER_CAP)]
  {
    RunKeepsInv(FIRST_START, steps);
  }
}
