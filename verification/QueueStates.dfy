/** How entries reach the ledger: in which state, from where, and through which call. */
module QueueStates {
  import opened Text
  import opened Q = QueueModel
  import opened QueueRuns
  import opened QueueCrash
  import opened QueueLaws

  // ----- one call -----

  /** The calls that may file an entry in a state, from what is known before the call. */
  predicate MayFile(w: World, op: Op, state: EntryState) {
    match state
    case Delivered => op.Claim? || op.Drain? || (op.Finish? && op.state == Delivered)
    case Withdrawn => op.Withdraw? || op.CancelLast? || (op.Finish? && op.state == Withdrawn)
    case Failed => (op.Finish? && op.state == Failed) || (op.Requeue? && |w.mem.pending| >= w.mem.limit)
    case Pending => op.Finish? && op.state == Pending
  }

  /** The entry was pending or out for delivery, and is filed as it was but for its state. */
  ghost predicate WasLive(w: World, e: QueueEntry) {
    exists x :: (x in w.mem.pending || x in w.taken) && e == x.(state := e.state)
  }

  lemma {:induction false} MarkedAre(s: Entries, state: EntryState)
    ensures forall e :: e in Marked(s, state) ==> e.state == state && exists x :: x in s && e == x.(state := state)
  {
    if s == [] {
    } else {
      MarkedAre(s[1..], state);
      forall e | e in Marked(s, state)
        ensures e.state == state && exists x :: x in s && e == x.(state := state)
      {
        if e == s[0].(state := state) {
          assert s[0] in s;
        } else {
          var x :| x in s[1..] && e == x.(state := state);
          assert x in s;
        }
      }
    }
  }

  /** Whatever a call files was live before, and the call is one that may file it so. */
  lemma CallFiles(w: World, op: Op, e: QueueEntry)
    requires e in Do(w.mem, w.taken, op).filed
    ensures MayFile(w, op, e.state) && WasLive(w, e)
  {
    if op.Drain? {
      MarkedAre(Select(w.mem.pending, Following), Delivered);
      SelectMembers(w.mem.pending, Following);
      hide Select, Marked;
    } else if op.Withdraw? || op.CancelLast? || op.Claim? {
      RemovalFiles(w, op, e);
    } else {
      SettlingFiles(w, op, e);
    }
  }

  lemma RemovalFiles(w: World, op: Op, e: QueueEntry)
    requires (op.Withdraw? || op.CancelLast? || op.Claim?) && e in Do(w.mem, w.taken, op).filed
    ensures MayFile(w, op, e.state) && WasLive(w, e)
  {
    var pending := w.mem.pending;
    var key := if op.Claim? then SteerWith(op.text)
               else ById(if op.Withdraw? then op.id else pending[|pending| - 1].id);
    var k := FirstIndex(pending, key, 0);
    assert k < |pending| && e == pending[k].(state := e.state) && pending[k] in pending;
  }

  lemma SettlingFiles(w: World, op: Op, e: QueueEntry)
    requires !op.Drain? && !op.Withdraw? && !op.CancelLast? && !op.Claim? && e in Do(w.mem, w.taken, op).filed
    ensures MayFile(w, op, e.state) && WasLive(w, e)
  {
    assert Settles(op) && w.taken[op.k] in w.taken;
    assert e == w.taken[op.k].(state := e.state);
  }

  // ----- whole runs -----

  /** Step `i` of a run filed the entry. */
  ghost predicate FiledBy(w: World, steps: seq<Step>, i: nat, e: QueueEntry)
    requires i < |steps|
  {
    var at := Run(w, steps[..i]);
    && steps[i].Call? && e in Do(at.mem, at.taken, steps[i].op).filed
    && MayFile(at, steps[i].op, e.state) && WasLive(at, e)
  }

  lemma {:induction false} RunAppend(w: World, steps: seq<Step>, step: Step)
    ensures Run(w, steps + [step]) == Apply(Run(w, steps), step)
    decreases |steps|
  {
    hide Apply;
    if steps == [] {
      assert (steps + [step])[1..] == [];
    } else {
      assert (steps + [step])[1..] == steps[1..] + [step];
      RunAppend(Apply(w, steps[0]), steps[1..], step);
    }
  }

  lemma EarlierFiled(w: World, steps: seq<Step>, n: nat, i: nat, e: QueueEntry)
    requires i < n <= |steps| && FiledBy(w, steps[..n], i, e)
    ensures FiledBy(w, steps, i, e)
  {
    hide Run, Do, MayFile, WasLive;
    assert steps[..n][..i] == steps[..i] && steps[..n][i] == steps[i];
  }

  /**
   * Over every run, with crashes and failing writes: an entry of the history was there from the start, or
   * some call filed it that may file it in its state, and it was pending or out for delivery then. So
   * nothing is delivered but through a finish as delivered, a claim or a drain; nothing withdrawn but
   * through a withdrawal or a finish so; nothing failed but through a finish so or a requeue into a full queue.
   */
  lemma {:induction false} HistoryIsEarned(w: World, steps: seq<Step>, e: QueueEntry)
    requires e in Run(w, steps).terminal
    ensures e in w.terminal || exists i :: 0 <= i < |steps| && FiledBy(w, steps, i, e)
    decreases |steps|
  {
    if steps == [] {
    } else {
      var n := |steps| - 1;
      var init, last := steps[..n], steps[n];
      var at := Run(w, init);
      RunAppend(w, init, last);
      assert init + [last] == steps;
      if e in at.terminal {
        HistoryIsEarned(w, init, e);
        if e !in w.terminal {
          var i :| 0 <= i < n && FiledBy(w, init, i, e);
          EarlierFiled(w, steps, n, i, e);
        }
      } else {
        NewlyFiled(at, last, e);
        assert FiledBy(w, steps, n, e);
      }
    }
  }

  lemma NewlyFiled(w: World, step: Step, e: QueueEntry)
    requires e in Apply(w, step).terminal && e !in w.terminal
    ensures step.Call? && e in Do(w.mem, w.taken, step.op).filed
    ensures MayFile(w, step.op, e.state) && WasLive(w, e)
  {
    hide Do;
    assert step.Call?;
    CallFiles(w, step.op, e);
  }
}
