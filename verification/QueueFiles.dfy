/** The files the queue writes: along every run, crashes and failing writes included, they are fresh. */
module QueueFiles {
  import opened Text
  import opened Q = QueueModel
  import opened QueueRuns
  import opened QueueCrash

  predicate Below(s: Entries, n: nat) { forall i :: 0 <= i < |s| ==> s[i].id < n }

  /** Every id in memory, or out for delivery, has been issued. */
  predicate Issued(m: Memory, taken: Entries) {
    1 <= m.nextId && Below(m.pending, m.nextId) && Below(m.recent, m.nextId) && Below(taken, m.nextId)
  }

  predicate IssuedIn(file: QueueFile) { Below(file.pending, file.nextId) && Below(file.recent, file.nextId) }

  predicate AllIssuedIn(files: seq<QueueFile>) { forall i :: 0 <= i < |files| ==> IssuedIn(files[i]) }

  // ----- what keeps ids below a bound -----

  lemma {:induction false} SelectBelow(s: Entries, kind: Kind, n: nat)
    requires Below(s, n)
    ensures Below(Select(s, kind), n)
  {
    if s == [] {
    } else {
      SelectBelow(s[1..], kind, n);
    }
  }

  lemma {:induction false} FiledBelow(entries: Entries, state: EntryState, recent: Entries, n: nat)
    requires Below(entries, n) && Below(recent, n)
    ensures Below(Filed(entries, state, recent), n)
  {
    if entries == [] {
    } else {
      FiledBelow(entries[1..], state, Capped([entries[0].(state := state)] + recent), n);
    }
  }

  lemma {:induction false} DrainWritesIssued(m: Memory)
    requires Below(m.pending, m.nextId) && Below(m.recent, m.nextId)
    ensures AllIssuedIn(DrainWrites(m))
    decreases |m.pending|
  {
    if m.pending == [] {
    } else {
      var rest := m.(pending := m.pending[1..]);
      if m.pending[0].mode == Steer {
        DrainWritesIssued(rest);
      } else {
        DrainWritesIssued(FileRecent(rest, m.pending[0].(state := Delivered)));
      }
    }
  }

  // ----- one call -----

  ghost predicate KeepsIssued(m: Memory, taken: Entries, op: Op) {
    var o := Do(m, taken, op); Issued(o.mem, o.taken) && AllIssuedIn(o.writes)
  }

  lemma LiveCallIssues(m: Memory, taken: Entries, op: Op)
    requires Issued(m, taken)
    requires op.Send? || op.Edit? || op.Move? || op.Relane? || op.SetMerged? || op.Take? || op.Recover?
    ensures KeepsIssued(m, taken, op)
  {
    hide Trim;
  }

  lemma RemovalIssues(m: Memory, taken: Entries, op: Op)
    requires Issued(m, taken) && (op.Withdraw? || op.CancelLast? || op.Claim?)
    ensures KeepsIssued(m, taken, op)
  {
    hide Do;
    var k, gone := RemovalOutcome(m, taken, op);
  }

  lemma SettlingIssues(m: Memory, taken: Entries, op: Op)
    requires Issued(m, taken) && Settles(op)
    ensures KeepsIssued(m, taken, op)
  {
  }

  lemma DrainIssues(m: Memory, taken: Entries)
    requires Issued(m, taken)
    ensures KeepsIssued(m, taken, Drain)
  {
    SelectBelow(m.pending, Steering, m.nextId);
    SelectBelow(m.pending, Following, m.nextId);
    FiledBelow(Select(m.pending, Following), Delivered, m.recent, m.nextId);
    DrainWritesIssued(m);
    hide Select, Filed, DrainWrites, Injection, Texts;
  }

  lemma CallIssues(m: Memory, taken: Entries, op: Op)
    requires Issued(m, taken)
    ensures KeepsIssued(m, taken, op)
  {
    hide KeepsIssued, Issued;
    if op.Drain? {
      DrainIssues(m, taken);
    } else if Settles(op) {
      SettlingIssues(m, taken, op);
    } else if op.Withdraw? || op.CancelLast? || op.Claim? {
      RemovalIssues(m, taken, op);
    } else {
      LiveCallIssues(m, taken, op);
    }
  }

  // ----- runs -----

  predicate IssuedOn(disk: Disk) { disk.Holds? ==> IssuedIn(disk.file) }

  predicate IssuedIds(w: World) { Issued(w.mem, w.taken) && IssuedOn(w.disk) }

  lemma {:induction false} LandedIssued(base: Disk, writes: seq<QueueFile>, ok: seq<bool>)
    requires IssuedOn(base) && AllIssuedIn(writes)
    ensures IssuedOn(Landed(base, writes, ok))
  {
    hide IssuedIn;
    if writes == [] {
    } else {
      LandedIssued(base, writes[..|writes| - 1], ok);
    }
  }

  lemma LoadIssues(disk: Disk)
    requires IssuedOn(disk)
    ensures Issued(Load(disk).0, [])
  {
    if disk.Holds? {
      SelectBelow(disk.file.pending, Waiting, disk.file.nextId);
      hide Select;
    }
  }

  lemma StepIssues(w: World, step: Step)
    requires IssuedIds(w)
    ensures IssuedIds(Apply(w, step))
  {
    hide Issued, IssuedOn, AllIssuedIn, Load, Landed, Do;
    if step.Crash? {
      LoadIssues(w.disk);
    } else {
      CallIssues(w.mem, w.taken, step.op);
      LandedIssued(w.disk, Do(w.mem, w.taken, step.op).writes, step.ok);
    }
  }

  lemma {:induction false} RunIssues(w: World, steps: seq<Step>)
    requires IssuedIds(w)
    ensures IssuedIds(Run(w, steps))
    decreases |steps|
  {
    hide IssuedIds, Apply;
    if steps == [] {
    } else {
      StepIssues(w, steps[0]);
      RunIssues(Apply(w, steps[0]), steps[1..]);
    }
  }

  lemma IssuedIsFresh(file: QueueFile)
    requires IssuedIn(file)
    ensures FreshFile(file)
  {
    SelectBelow(file.pending, Waiting, file.nextId);
    var alive := Kept(file) + Capped(file.recent);
    hide Select;
    assert Below(alive, file.nextId);
    if alive != [] {
      GreatestIsGreatest(alive);
      hide GreatestId, Kept, Capped;
      var e :| e in alive && e.id == GreatestId(alive);
    }
  }

  /**
   * Whatever calls are made, writes fail and crashes happen: the file a queue leaves behind is fresh, so
   * the queue loaded from it issues an id above every id it holds.
   */
  lemma WrittenFilesAreFresh(steps: seq<Step>)
    ensures var disk := Run(FIRST_START, steps).disk;
            disk.Holds? ==> FreshFile(disk.file) && Issued(Load(disk).0, [])
  {
    hide FreshFile, Load, Run, Issued, IssuedIn;
    var disk := Run(FIRST_START, steps).disk;
    StartIsIssued();
    RunIssues(FIRST_START, steps);
    if disk.Holds? {
      IssuedIsFresh(disk.file);
      LoadIssues(disk);
    }
  }

  lemma StartIsIssued()
    ensures IssuedIds(FIRST_START)
  {
  }
}
