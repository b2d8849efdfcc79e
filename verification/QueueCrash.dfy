/** What a crash loses: the file against the memory, over whole runs of the follow-up queue. */
module QueueCrash {
  import opened Text
  import opened Q = QueueModel
  import opened QueueRuns

  // ----- persisting and loading -----

  /** What a memory must satisfy to come back from its own snapshot unchanged. */
  predicate Loadable(m: Memory) {
    && 1 <= m.limit <= QUEUE_LIMIT_CEILING && |m.pending| <= m.limit
    && AllPending(m.pending) && |m.recent| <= RECENT_LEDGER_CAP
    && 1 <= m.nextId
    && (m.pending != [] ==> m.pending[|m.pending| - 1].id < m.nextId)
    && (m.recent != [] ==> m.recent[0].id < m.nextId)
  }

  lemma {:induction false} SelectWaiting(s: Entries)
    ensures |Select(s, Waiting)| <= |s| && AllPending(Select(s, Waiting))
    ensures AllPending(s) <==> Select(s, Waiting) == s
  {
    if s == [] {
    } else {
      SelectWaiting(s[1..]);
      if AllPending(s) {
        assert AllPending(s[1..]);
      } else if Select(s, Waiting) == s {
        assert Select(s, Waiting)[1..] == Select(s[1..], Waiting);
      }
    }
  }

  /** Loading what was persisted gives the memory back exactly when the memory is loadable. */
  lemma LoadPersisted(m: Memory)
    ensures Load(Holds(Snapshot(m))).0 == m <==> Loadable(m)
  {
    SelectWaiting(m.pending);
    var restored := Select(m.pending, Waiting);
    var limit := Clamp(m.limit, 1, QUEUE_LIMIT_CEILING);
    if Loadable(m) {
      assert restored == m.pending && restored[..|restored|] == restored;
      assert Capped(m.recent) == m.recent;
    }
  }

  /** The pending entries of a file that survive loading. */
  function Kept(file: QueueFile): Entries {
    var restored := Select(file.pending, Waiting);
    restored[..Min(|restored|, Clamp(file.limit, 1, QUEUE_LIMIT_CEILING))]
  }

  function GreatestId(s: Entries): (top: nat)
    requires s != []
  {
    if |s| == 1 then s[0].id else Max(s[0].id, GreatestId(s[1..]))
  }

  lemma {:induction false} GreatestIsGreatest(s: Entries)
    requires s != []
    ensures forall e :: e in s ==> e.id <= GreatestId(s)
    ensures exists e :: e in s && e.id == GreatestId(s)
  {
    assert s[0] in s;
    if |s| == 1 {
    } else {
      GreatestIsGreatest(s[1..]);
      var e :| e in s[1..] && e.id == GreatestId(s[1..]);
      assert e in s;
    }
  }

  /**
   * The greatest id that survives loading is below the counter of the file, or it is that of the last
   * pending entry or of the newest ledger entry.
   */
  predicate FreshFile(file: QueueFile) {
    var alive := Kept(file) + Capped(file.recent);
    alive == [] ||
    var top := GreatestId(alive);
    || top < file.nextId
    || (Kept(file) != [] && Kept(file)[|Kept(file)| - 1].id == top)
    || (file.recent != [] && file.recent[0].id == top)
  }

  /**
   * Whatever a version-1 file holds, the queue it loads into is within a limit between 1 and 4096, holds
   * only pending entries in file order and at most 20 ledger entries, and its next id is above the last
   * pending and the newest ledger id. It is above all ids exactly when the file is fresh.
   */
  lemma LoadSanitizes(file: QueueFile)
    requires file.version == QUEUE_FILE_VERSION
    ensures var m := Load(Holds(file)).0;
            && 1 <= m.limit <= QUEUE_LIMIT_CEILING && |m.pending| <= m.limit
            && m.limit == (if file.limit == 0 then 1 else Min(file.limit, 4096)) && m.merged == file.merged
            && AllPending(m.pending) && m.pending <= Select(file.pending, Waiting)
            && |m.recent| == Min(|file.recent|, 20) && m.recent <= file.recent
            && 1 <= m.nextId && file.nextId <= m.nextId
            && (m.pending != [] ==> m.pending[|m.pending| - 1].id < m.nextId)
            && (m.recent != [] ==> m.recent[0].id < m.nextId)
            && ((forall e :: e in m.pending || e in m.recent ==> e.id < m.nextId) <==> FreshFile(file))
  {
    SelectWaiting(file.pending);
    LoadIsFresh(file);
    hide FreshFile;
  }

  lemma LoadIsFresh(file: QueueFile)
    requires file.version == QUEUE_FILE_VERSION
    ensures var m := Load(Holds(file)).0;
            (forall e :: e in m.pending || e in m.recent ==> e.id < m.nextId) <==> FreshFile(file)
  {
    var m := Load(Holds(file)).0;
    var alive := Kept(file) + Capped(file.recent);
    hide Select;
    assert m.pending == Kept(file) && m.recent == Capped(file.recent);
    if alive != [] {
      GreatestIsGreatest(alive);
      hide GreatestId;
      assert forall e :: e in alive <==> e in m.pending || e in m.recent;
      if m.pending != [] {
        assert m.pending[|m.pending| - 1] in alive;
      }
      if m.recent != [] {
        assert m.recent[0] in alive;
      }
    } else {
      assert m.pending == [] && m.recent == [];
    }
  }

  /**
   * What loading reports: corruption exactly for a file that cannot be read or is of another version, and
   * otherwise how many entries were waiting in the file and how many the ledger gives back, nothing if both
   * are none. All of those waiting come back exactly if they fit the clamped limit.
   */
  lemma LoadReports(disk: Disk)
    ensures var (m, outcome) := Load(disk);
            && (outcome == Corrupt <==> disk == Garbage || (disk.Holds? && disk.file.version != QUEUE_FILE_VERSION))
            && (outcome == FreshStart ==> m.pending == [] && m.recent == [])
            && (outcome == Corrupt || disk == Absent ==> m == Memory([], [], 1, false, 32))
    ensures var (m, outcome) := Load(disk);
            outcome.Restored? ==>
              && disk.Holds?
              && outcome.pending == |Select(disk.file.pending, Waiting)| && outcome.recent == |m.recent|
              && (|m.pending| == outcome.pending <==> outcome.pending <= m.limit)
              && |m.pending| == Min(outcome.pending, m.limit)
  {
    if disk.Holds? {
      SelectWaiting(disk.file.pending);
    }
    hide Select;
  }

  /** Pending ids 5 then 3 under a stale counter: the second message sent to the loaded queue gets id 5 again. */
  lemma StaleFileReissuesAnId()
    ensures var e := (id: nat) => QueueEntry(id, "a", User, Pending, "main", FollowUp);
            var m := Load(Holds(QueueFile(1, 2, 32, false, [e(5), e(3)], []))).0;
            var once := Q.Send(m, "main", "b", User, FollowUp);
            var twice := Q.Send(once.mem, "main", "c", User, FollowUp);
            && m.pending[0].id == 5 && twice.reply == Some(5)
            && twice.mem.pending[0].id == twice.mem.pending[3].id == 5
  {
    var e := (id: nat) => QueueEntry(id, "a", User, Pending, "main", FollowUp);
    var s := [e(5), e(3)];
    assert s[1..] == [e(3)] && [e(3)][1..] == [];
    assert Select([e(3)], Waiting) == [e(3)];
    assert Select(s, Waiting) == s;
    assert Trim("main") == "main" && Trim("b") == "b" && Trim("c") == "c";
  }

  // ----- draining -----

  /** No steer stands ahead of a follow-up. */
  predicate SteersTrail(s: Entries) {
    forall i, j :: 0 <= i < j < |s| && s[i].mode == Steer ==> s[j].mode == Steer
  }

  /** The entries behind the last follow-up. */
  function Tail(s: Entries): Entries {
    if Select(s, Following) == [] then s else Tail(s[1..])
  }

  lemma SteersTrailStep(s: Entries)
    requires s != []
    ensures SteersTrail(s) <==> SteersTrail(s[1..]) && (s[0].mode == Steer ==> Select(s[1..], Following) == [])
  {
    var t := s[1..];
    assert forall i :: 0 <= i < |t| ==> t[i] == s[i + 1];
    if Select(t, Following) == [] {
      OnlySteers(t);
      assert forall j :: 1 <= j < |s| ==> s[j] == t[j - 1];
    } else {
      NotOnlySteers(t);
    }
    if SteersTrail(t) {
      assert forall j :: 1 <= j < |s| ==> s[j] == t[j - 1];
    }
  }

  lemma {:induction false} TailIsSteers(s: Entries)
    ensures |Tail(s)| <= |Select(s, Steering)|
    ensures Tail(s) == Select(s, Steering) <==> SteersTrail(s)
  {
    if s == [] {
    } else {
      TailIsSteers(s[1..]);
      SteersTrailStep(s);
      if Select(s, Following) == [] {
        OnlySteers(s);
      }
    }
  }

  lemma {:induction false} TailIsSuffix(s: Entries)
    ensures |Tail(s)| <= |s| && Tail(s) == s[|s| - |Tail(s)|..]
  {
    if Select(s, Following) != [] {
      TailIsSuffix(s[1..]);
    }
  }

  lemma {:induction false} OnlySteers(s: Entries)
    requires Select(s, Following) == []
    ensures Select(s, Steering) == s && forall i :: 0 <= i < |s| ==> s[i].mode == Steer
  {
    if s == [] {
    } else {
      OnlySteers(s[1..]);
    }
  }

  lemma {:induction false} NotOnlySteers(s: Entries)
    requires Select(s, Following) != []
    ensures exists j :: 0 <= j < |s| && s[j].mode != Steer
  {
    if s[0].mode == Steer {
      NotOnlySteers(s[1..]);
      var j :| 0 <= j < |s[1..]| && s[1..][j].mode != Steer;
      assert s[j + 1].mode != Steer;
    }
  }

  /** The last snapshot of a drain holds only what stood behind the last follow-up. */
  lemma {:induction false} LastDrainWrite(m: Memory)
    requires Select(m.pending, Following) != []
    ensures var w := DrainWrites(m);
            w != [] && w[|w| - 1] == Snapshot(Q.Drain(m).mem.(pending := Tail(m.pending)))
    decreases |m.pending|
  {
    var rest := m.(pending := m.pending[1..]);
    if m.pending[0].mode == Steer {
      LastDrainWrite(rest);
    } else {
      var filed := FileRecent(rest, m.pending[0].(state := Delivered));
      var others := Select(rest.pending, Following);
      assert Select(m.pending, Following) == [m.pending[0]] + others;
      assert Filed([m.pending[0]] + others, Delivered, m.recent) == Filed(others, Delivered, filed.recent) by {
        assert ([m.pending[0]] + others)[1..] == others;
      }
      if others == [] {
        NoDrainWrites(filed);
        assert Tail(m.pending) == rest.pending;
      } else {
        LastDrainWrite(filed);
      }
    }
  }

  lemma {:induction false} NoDrainWrites(m: Memory)
    ensures Select(m.pending, Following) == [] ==> DrainWrites(m) == []
    decreases |m.pending|
  {
    if m.pending == [] {
    } else {
      NoDrainWrites(m.(pending := m.pending[1..]));
    }
  }

  // ----- runs with crashes -----

  /** A crash now would bring back the entries out for delivery, then the pending ones, and the rest. */
  predicate Synced(w: World) {
    Load(w.disk).0 == w.mem.(pending := w.taken + w.mem.pending)
  }

  predicate HasId(s: Entries, id: nat) { exists i :: 0 <= i < |s| && s[i].id == id }

  /** The guards under which a call tries no write: it is a take, or it is refused. */
  predicate Quiet(w: World, op: Op) {
    var pending := w.mem.pending;
    match op
    case Send(lane, text, _, _) => Trim(lane) == [] || Trim(text) == [] || |pending| >= w.mem.limit
    case Edit(id, text) => Trim(text) == [] || !HasId(pending, id)
    case Withdraw(id) => !HasId(pending, id)
    case CancelLast => pending == []
    case Move(id, up) =>
      if up then !HasId(pending, id) || pending[0].id == id
      else pending == [] || !HasId(pending[..|pending| - 1], id)
    case Relane(id, lane) =>
      var k := FirstIndex(pending, ById(id), 0);
      Trim(lane) == [] || k == |pending| || pending[k].lane == Trim(lane)
    case SetMerged(_) => false
    case Take => true
    case Finish(k, _) => k >= |w.taken|
    case Requeue(k) => k >= |w.taken|
    case Claim(text) => forall i :: 0 <= i < |pending| ==> !Hits(pending[i], SteerWith(text))
    case Recover => forall i :: 0 <= i < |pending| ==> pending[i].mode != Steer
    case Drain => forall i :: 0 <= i < |pending| ==> pending[i].mode == Steer
  }

  lemma LookupFinds(s: Entries, id: nat)
    ensures FirstIndex(s, ById(id), 0) < |s| <==> HasId(s, id)
    ensures s != [] ==> (FirstIndex(s, ById(id), 0) == 0 <==> s[0].id == id)
    ensures s != [] ==> (FirstIndex(s, ById(id), 0) + 1 < |s| <==> HasId(s[..|s| - 1], id))
  {
    FirstIndexIsFirst(s, ById(id), 0);
    var k := FirstIndex(s, ById(id), 0);
    if k + 1 < |s| {
      assert s[..|s| - 1][k].id == id;
    }
  }

  lemma {:induction false} SomeOfKind(s: Entries)
    ensures Select(s, Steering) == [] <==> forall i :: 0 <= i < |s| ==> s[i].mode != Steer
    ensures Select(s, Following) == [] <==> forall i :: 0 <= i < |s| ==> s[i].mode == Steer
  {
    if s == [] {
    } else {
      SomeOfKind(s[1..]);
      assert forall i :: 0 <= i < |s| - 1 ==> s[1..][i] == s[i + 1];
      assert forall i :: 1 <= i < |s| ==> s[i] == s[1..][i - 1];
    }
  }

  /** The guards say it: a call tries no write exactly when it is quiet. */
  lemma QuietCallsWriteNothing(w: World, op: Op)
    ensures Do(w.mem, w.taken, op).writes == [] <==> Quiet(w, op)
  {
    var pending := w.mem.pending;
    hide Select, FirstIndex, Trim;
    if op.Edit? || op.Withdraw? || op.Move? || op.Relane? {
      LookupFinds(pending, op.id);
    } else if op.CancelLast? && pending != [] {
      LookupFinds(pending, pending[|pending| - 1].id);
      assert pending[|pending| - 1].id == pending[|pending| - 1].id;
    } else if op.Claim? {
      FirstIndexIsFirst(pending, SteerWith(op.text), 0);
    } else if op.Recover? {
      SomeOfKind(pending);
    } else if op.Drain? {
      SomeOfKind(pending);
      if Select(pending, Following) != [] {
        LastDrainWrite(w.mem);
      }
    }
  }

  /** The calls that keep the file in step, from what is known before the call. */
  predicate SafeOp(w: World, op: Op) {
    match op
    case Finish(k, _) => k < |w.taken| ==> |w.taken| == 1
    case Requeue(k) => k < |w.taken| ==> |w.taken| == 1
    case Drain => Quiet(w, op) || (w.taken == [] && SteersTrail(w.mem.pending))
    case _ => Quiet(w, op) || w.taken == []
  }

  predicate AllTrue(ok: seq<bool>) { forall i :: 0 <= i < |ok| ==> ok[i] }

  lemma {:induction false} CountsMembers(s: Entries, e: QueueEntry)
    requires e in s
    ensures Count(s, e.id) >= 1
  {
    if s[0] != e {
      assert e in s[1..];
      CountsMembers(s[1..], e);
    }
  }

  lemma LiveIdsAreIssued(w: World, e: QueueEntry)
    requires Inv(w) && (e in w.mem.pending || e in w.taken || e in w.mem.recent)
    ensures e.id < w.mem.nextId
  {
    if e in w.mem.pending {
      CountsMembers(w.mem.pending, e);
    } else if e in w.taken {
      CountsMembers(w.taken, e);
    } else {
      assert e in w.terminal;
      CountsMembers(w.terminal, e);
    }
    assert Places(w, e.id) >= 1;
  }

  lemma InvIsLoadable(w: World)
    requires Inv(w) && w.mem.limit <= QUEUE_LIMIT_CEILING
    ensures Loadable(w.mem)
  {
    if w.mem.pending != [] {
      LiveIdsAreIssued(w, w.mem.pending[|w.mem.pending| - 1]);
    }
    if w.mem.recent != [] {
      LiveIdsAreIssued(w, w.mem.recent[0]);
    }
  }

  predicate Settles(op: Op) { op.Finish? || op.Requeue? }

  /** A call that writes nothing leaves what a crash would bring back, and is safe. */
  lemma QuietCall(w: World, op: Op)
    requires Do(w.mem, w.taken, op).writes == []
    ensures var o := Do(w.mem, w.taken, op);
            o.mem.(pending := o.taken + o.mem.pending) == w.mem.(pending := w.taken + w.mem.pending)
    ensures SafeOp(w, op)
  {
    QuietCallsWriteNothing(w, op);
    hide Quiet;
    var o := Do(w.mem, w.taken, op);
    if op.Take? {
      if w.mem.pending != [] {
        assert w.taken + [w.mem.pending[0]] + w.mem.pending[1..] == w.taken + w.mem.pending;
      } else {
        assert w.taken + [] == w.taken;
      }
    } else if op.Drain? && Select(w.mem.pending, Following) != [] {
      LastDrainWrite(w.mem);
    }
  }

  /** Every other call but a drain writes its final memory last, and is safe when nothing stays out. */
  lemma LoudCall(w: World, op: Op)
    requires Do(w.mem, w.taken, op).writes != [] && !op.Drain?
    ensures var o := Do(w.mem, w.taken, op);
            && o.writes[|o.writes| - 1] == Snapshot(o.mem)
            && (o.taken == [] <==> SafeOp(w, op))
  {
    QuietCallsWriteNothing(w, op);
    hide Quiet;
    if Settles(op) {
      assert |Without(w.taken, op.k)| == |w.taken| - 1;
    }
  }

  /** The last write lands. */
  lemma LandsLast(base: Disk, writes: seq<QueueFile>, ok: seq<bool>)
    requires AllTrue(ok)
    ensures Landed(base, writes, ok) == if writes == [] then base else Holds(writes[|writes| - 1])
  {
  }

  /** The memory a crash right after a drain would load. */
  lemma DrainedFile(w: World)
    requires Inv(w) && w.mem.limit <= QUEUE_LIMIT_CEILING
    requires Select(w.mem.pending, Following) != []
    ensures var m := Q.Drain(w.mem).mem.(pending := Tail(w.mem.pending)); Load(Holds(Snapshot(m))).0 == m
  {
    var m := Q.Drain(w.mem).mem.(pending := Tail(w.mem.pending));
    CallConserves(w, Drain, []);
    CallKeepsShape(w.mem, w.taken, Drain, w.terminal);
    InvIsLoadable(Apply(w, Call(Drain, [])));
    InvIsLoadable(w);
    TailIsSuffix(w.mem.pending);
    LoadPersisted(m);
  }

  /** The disk after a drain loads as the drained memory cut down to the tail. */
  lemma DrainedDisk(w: World, ok: seq<bool>)
    requires Inv(w) && w.mem.limit <= QUEUE_LIMIT_CEILING && AllTrue(ok)
    requires Select(w.mem.pending, Following) != []
    ensures var w' := Apply(w, Call(Drain, ok));
            && Load(w'.disk).0 == w'.mem.(pending := Tail(w.mem.pending))
            && w'.mem.pending == Select(w.mem.pending, Steering) && w'.taken == w.taken
  {
    LandsLast(w.disk, DrainWrites(w.mem), ok);
    LastDrainWrite(w.mem);
    DrainedFile(w);
  }

  lemma TailInStep(m: Memory, taken: Entries, tail: Entries, steers: Entries)
    requires |tail| <= |steers|
    ensures m.(pending := tail) == m.(pending := taken + steers) <==> taken == [] && tail == steers
  {
    assert [] + steers == steers;
    assert |taken + steers| == |taken| + |steers|;
    assert m.(pending := tail).pending == tail;
  }

  lemma DrainKeepsSync(w: World, ok: seq<bool>)
    requires Inv(w) && w.mem.limit <= QUEUE_LIMIT_CEILING && AllTrue(ok)
    requires Select(w.mem.pending, Following) != []
    ensures Synced(Apply(w, Call(Drain, ok))) <==> w.taken == [] && SteersTrail(w.mem.pending)
  {
    var w' := Apply(w, Call(Drain, ok));
    DrainedDisk(w, ok);
    TailIsSteers(w.mem.pending);
    TailInStep(w'.mem, w.taken, Tail(w.mem.pending), w'.mem.pending);
  }

  /**
   * A call that writes, other than a drain, puts the file in step exactly when it leaves nothing out,
   * whatever the file held before.
   */
  lemma LoudKeepsSync(w: World, op: Op, ok: seq<bool>)
    requires Inv(w) && w.mem.limit <= QUEUE_LIMIT_CEILING && AllTrue(ok)
    requires Do(w.mem, w.taken, op).writes != [] && !op.Drain?
    ensures Synced(Apply(w, Call(op, ok))) <==> Do(w.mem, w.taken, op).taken == []
  {
    LoudCall(w, op);
    CallConserves(w, op, ok);
    CallKeepsShape(w.mem, w.taken, op, w.terminal);
    var w' := Apply(w, Call(op, ok));
    SyncedIfNothingOut(w', Do(w.mem, w.taken, op).writes, w.disk, ok);
  }

  /** With its own snapshot on disk, a memory is in step exactly when no entry is out. */
  lemma SyncedIfNothingOut(w: World, writes: seq<QueueFile>, base: Disk, ok: seq<bool>)
    requires Inv(w) && w.mem.limit <= QUEUE_LIMIT_CEILING && AllTrue(ok)
    requires writes != [] && writes[|writes| - 1] == Snapshot(w.mem) && w.disk == Landed(base, writes, ok)
    ensures Synced(w) <==> w.taken == []
  {
    LandsLast(base, writes, ok);
    InvIsLoadable(w);
    LoadPersisted(w.mem);
    assert |w.taken + w.mem.pending| == |w.taken| + |w.mem.pending|;
    assert [] + w.mem.pending == w.mem.pending;
  }

  /**
   * With successful writes, a call keeps the file in step with the memory exactly when it is safe: no
   * write while an entry is out, other than the one that settles it, and no drain of a follow-up from
   * behind a steer.
   */
  lemma CallKeepsSync(w: World, op: Op, ok: seq<bool>)
    requires Inv(w) && Synced(w) && w.mem.limit <= QUEUE_LIMIT_CEILING && AllTrue(ok)
    ensures Synced(Apply(w, Call(op, ok))) <==> SafeOp(w, op)
  {
    if Do(w.mem, w.taken, op).writes == [] {
      QuietCall(w, op);
    } else if op.Drain? {
      QuietCallsWriteNothing(w, op);
      NoDrainWrites(w.mem);
      SomeOfKind(w.mem.pending);
      DrainKeepsSync(w, ok);
    } else {
      LoudCall(w, op);
      LoudKeepsSync(w, op, ok);
    }
  }

  lemma LoadedFits(disk: Disk)
    ensures |Load(disk).0.pending| <= Load(disk).0.limit
  {
  }

  lemma CrashKeeps(w: World)
    requires Inv(w) && Synced(w)
    ensures Inv(Apply(w, Crash)) && Synced(Apply(w, Crash)) && Apply(w, Crash).mem.limit == w.mem.limit
  {
    LoadedFits(w.disk);
    hide Load, Capped;
    var w' := Apply(w, Crash);
    assert [] + w'.mem.pending == w'.mem.pending;
    forall id: nat
      ensures Places(w', id) == Places(w, id)
    {
      CountAppend(w.taken, w.mem.pending, id);
    }
  }

  predicate SafeStep(w: World, step: Step) {
    step.Call? ==> AllTrue(step.ok) && SafeOp(w, step.op)
  }

  predicate SafeRun(w: World, steps: seq<Step>)
    decreases |steps|
  {
    steps != [] ==> SafeStep(w, steps[0]) && SafeRun(Apply(w, steps[0]), steps[1..])
  }

  lemma {:induction false} SafeRunKeeps(w: World, steps: seq<Step>)
    requires Inv(w) && Synced(w) && w.mem.limit <= QUEUE_LIMIT_CEILING && SafeRun(w, steps)
    ensures var end := Run(w, steps); Inv(end) && Synced(end)
    decreases |steps|
  {
    if steps == [] {
    } else {
      if steps[0].Call? {
        CallKeepsSync(w, steps[0].op, steps[0].ok);
        CallConserves(w, steps[0].op, steps[0].ok);
        CallKeepsShape(w.mem, w.taken, steps[0].op, w.terminal);
      } else {
        CrashKeeps(w);
      }
      SafeRunKeeps(Apply(w, steps[0]), steps[1..]);
    }
  }

  /**
   * Crash safety over whole runs from a fresh start, crashes included: in a safe run, a crash at the end
   * (so after every prefix) brings back the entries out for delivery and then the pending ones, in order;
   * that is every issued id that is not terminal, once; and no id is issued twice.
   */
  lemma CrashSafety(steps: seq<Step>)
    requires SafeRun(FIRST_START, steps)
    ensures var w := Run(FIRST_START, steps);
            var back := Load(w.disk).0;
            && back.pending == w.taken + w.mem.pending
            && back.recent == w.mem.recent && back.nextId == w.mem.nextId
            && forall id: nat :: Count(back.pending, id) ==
                 if 1 <= id < w.mem.nextId && Count(w.terminal, id) == 0 then 1 else 0
  {
    assert [] + EMPTY_MEMORY.pending == EMPTY_MEMORY.pending;
    SafeRunKeeps(FIRST_START, steps);
    var w := Run(FIRST_START, steps);
    forall id: nat
      ensures Count(w.taken + w.mem.pending, id) ==
              if 1 <= id < w.mem.nextId && Count(w.terminal, id) == 0 then 1 else 0
    {
      CountAppend(w.taken, w.mem.pending, id);
      assert Places(w, id) == if 1 <= id < w.mem.nextId then 1 else 0;
    }
  }

  // ----- what the unsafe steps lose -----

  function Entry(id: nat, mode: DeliveryMode): QueueEntry { QueueEntry(id, "a", User, Pending, "main", mode) }

  function Persisted(pending: Entries, nextId: nat): World {
    var m := Memory(pending, [], nextId, false, DEFAULT_QUEUE_LIMIT);
    World(m, Holds(Snapshot(m)), [], [])
  }

  /**
   * Draining a follow-up from behind a steer leaves the steer in memory and out of the file; whatever
   * call is the next to write puts it back.
   */
  lemma DrainBehindSteerExposesIt(on: bool)
    ensures var w := Apply(Persisted([Entry(1, Steer), Entry(2, FollowUp)], 3), Call(Drain, []));
            && w.mem.pending == [Entry(1, Steer)] && Load(w.disk).0.pending == []
            && Load(Apply(w, Call(SetMerged(on), [])).disk).0.pending == [Entry(1, Steer)]
  {
    var steer, followUp := Entry(1, Steer), Entry(2, FollowUp);
    var s := [steer, followUp];
    assert s[1..] == [followUp] && [followUp][1..] == [];
    assert Select([followUp], Following) == [followUp] && Select([followUp], Steering) == [];
    assert Select(s, Following) == [followUp] && Select(s, Steering) == [steer];
    LastDrainWrite(Persisted(s, 3).mem);
    assert Tail([followUp]) == [] && Tail(s) == [];
    WrittenBack(Apply(Persisted(s, 3), Call(Drain, [])), on, steer);
  }

  lemma WrittenBack(w: World, on: bool, e: QueueEntry)
    requires w.mem.pending == [e] && e.state == Pending && w.mem.limit > 0
    ensures Load(Apply(w, Call(SetMerged(on), [])).disk).0.pending == [e]
  {
    assert [e][1..] == [] && Select([e], Waiting) == [e];
  }

  /** A message queued while another is being delivered overwrites the only copy of the one in delivery. */
  lemma SendDuringDeliveryExposesTheEntry()
    ensures var w := Apply(Persisted([Entry(1, FollowUp)], 2), Call(Take, []));
            var w' := Apply(w, Call(Send("main", "b", User, FollowUp), []));
            && Load(w.disk).0.pending == [Entry(1, FollowUp)] && w'.taken == w.taken == [Entry(1, FollowUp)]
            && Count(Load(w'.disk).0.pending, 1) == 0
  {
    var w := Apply(Persisted([Entry(1, FollowUp)], 2), Call(Take, []));
    assert [Entry(1, FollowUp)][1..] == [];
    assert Select([Entry(1, FollowUp)], Waiting) == [Entry(1, FollowUp)];
    assert Trim("main") == "main" && Trim("b") == "b";
    var entry := QueueEntry(2, "b", User, Pending, "main", FollowUp);
    assert [] + [entry] == [entry] && [entry][1..] == [];
    assert Select([entry], Waiting) == [entry];
    CountOne(entry, 1);
  }
}
