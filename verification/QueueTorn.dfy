/** Crashes in the middle of a call: some of its snapshots have reached the disk, the others never will. */
module QueueTorn {
  import opened Text
  import opened Q = QueueModel
  import opened QueueRuns
  import opened QueueCrash
  import opened QueueFiles

  // ----- the snapshots of a drain -----

  /** What stands behind the first `n` follow-ups. */
  function Behind(s: Entries, n: nat): Entries
    decreases |s|
  {
    if n == 0 || s == [] then s
    else Behind(s[1..], if s[0].mode == Steer then n else n - 1)
  }

  /** The first `n` follow-ups are filed as delivered; the steers ahead of the last of them are nowhere. */
  function MidDrain(m: Memory, n: nat): Memory {
    var followUps := Select(m.pending, Following);
    m.(pending := Behind(m.pending, n),
       recent := Filed(followUps[..Min(n, |followUps|)], Delivered, m.recent))
  }

  lemma MidDrainBehindSteer(m: Memory, n: nat)
    requires m.pending != [] && m.pending[0].mode == Steer && n > 0
    ensures MidDrain(m, n) == MidDrain(m.(pending := m.pending[1..]), n)
  {
    hide Filed;
  }

  lemma MidDrainNext(m: Memory, n: nat)
    requires m.pending != [] && m.pending[0].mode != Steer && n > 0
    ensures MidDrain(m, n)
         == MidDrain(FileRecent(m.(pending := m.pending[1..]), m.pending[0].(state := Delivered)), n - 1)
  {
    var others := Select(m.pending[1..], Following);
    var k := Min(n - 1, |others|);
    assert ([m.pending[0]] + others)[..k + 1] == [m.pending[0]] + others[..k];
    assert ([m.pending[0]] + others[..k])[1..] == others[..k];
    hide Select, Capped;
  }

  lemma NothingDrained(m: Memory)
    ensures MidDrain(m, 0) == m
  {
  }

  lemma DrainWritesUnfold(m: Memory)
    requires m.pending != []
    ensures var rest := m.(pending := m.pending[1..]);
            if m.pending[0].mode == Steer then
              && DrainWrites(m) == DrainWrites(rest)
              && |Select(m.pending, Following)| == |Select(rest.pending, Following)|
            else
              var filed := FileRecent(rest, m.pending[0].(state := Delivered));
              && DrainWrites(m) == [Snapshot(filed)] + DrainWrites(filed) && filed.pending == rest.pending
              && |Select(m.pending, Following)| == 1 + |Select(rest.pending, Following)|
  {
  }

  /** A drain writes one snapshot for each follow-up, each with one more of them filed. */
  lemma {:induction false} DrainWritesOneByOne(m: Memory)
    ensures |DrainWrites(m)| == |Select(m.pending, Following)|
    ensures forall i :: 0 <= i < |DrainWrites(m)| ==> DrainWrites(m)[i] == Snapshot(MidDrain(m, i + 1))
    decreases |m.pending|
  {
    if m.pending == [] {
    } else {
      hide *;
      var rest := m.(pending := m.pending[1..]);
      DrainWritesUnfold(m);
      if m.pending[0].mode == Steer {
        DrainWritesOneByOne(rest);
        forall i | 0 <= i < |DrainWrites(m)| ensures DrainWrites(m)[i] == Snapshot(MidDrain(m, i + 1)) {
          MidDrainBehindSteer(m, i + 1);
        }
      } else {
        var filed := FileRecent(rest, m.pending[0].(state := Delivered));
        DrainWritesOneByOne(filed);
        NothingDrained(filed);
        forall i | 0 <= i < |DrainWrites(m)| ensures DrainWrites(m)[i] == Snapshot(MidDrain(m, i + 1)) {
          MidDrainNext(m, i + 1);
        }
      }
    }
  }

  lemma {:induction false} BehindIsSuffix(s: Entries, n: nat)
    ensures |Behind(s, n)| <= |s| && Behind(s, n) == s[|s| - |Behind(s, n)|..]
    decreases |s|
  {
    if n == 0 || s == [] {
    } else {
      BehindIsSuffix(s[1..], if s[0].mode == Steer then n else n - 1);
    }
  }

  /** What a drain has filed and what it still holds occur nowhere twice. */
  lemma {:induction false} BehindCounts(s: Entries, n: nat, id: nat)
    requires n <= |Select(s, Following)|
    ensures Count(Behind(s, n), id) + Count(Select(s, Following)[..n], id) <= Count(s, id)
    decreases |s|
  {
    if n == 0 || s == [] {
      assert Select(s, Following)[..0] == [];
    } else if s[0].mode == Steer {
      BehindCounts(s[1..], n, id);
    } else {
      var others := Select(s[1..], Following);
      BehindCounts(s[1..], n - 1, id);
      assert ([s[0]] + others)[..n] == [s[0]] + others[..n - 1];
      CountCons(s[0], others[..n - 1], id);
    }
  }

  /** With the steers at the end, the pending entries go one by one, and the popped ones are all filed. */
  lemma {:induction false} TrailingSteers(s: Entries, n: nat)
    requires SteersTrail(s) && n <= |Select(s, Following)|
    ensures n <= |s| && Behind(s, n) == s[n..] && Select(s, Following)[..n] == s[..n]
    decreases |s|
  {
    if n == 0 || s == [] {
      assert Select(s, Following)[..0] == s[..0];
    } else {
      SteersTrailStep(s);
      assert s[0].mode != Steer;
      var others := Select(s[1..], Following);
      TrailingSteers(s[1..], n - 1);
      assert ([s[0]] + others)[..n] == [s[0]] + others[..n - 1];
      assert s[..n] == [s[0]] + s[1..][..n - 1];
    }
  }

  // ----- a call cut short -----

  /** What the first `n` snapshots of a call say has been filed, newest first. */
  function FiledSoFar(w: World, op: Op, n: nat): Entries {
    if n == 0 then []
    else if op.Drain? then
      var followUps := Select(w.mem.pending, Following);
      Marked(followUps[..Min(n, |followUps|)], Delivered)
    else Do(w.mem, w.taken, op).filed
  }

  function FirstFew(writes: seq<QueueFile>, n: nat): seq<QueueFile> { writes[..Min(n, |writes|)] }

  /** A crash when the first `n` snapshots of a call have landed, and the reload behind it. */
  function CutShort(w: World, op: Op, n: nat): World {
    var disk := Landed(w.disk, FirstFew(Do(w.mem, w.taken, op).writes, n), []);
    World(Load(disk).0, disk, [], FiledSoFar(w, op, n) + w.terminal)
  }

  lemma LiveIsIssued(w: World)
    requires Inv(w)
    ensures Issued(w.mem, w.taken)
  {
    forall e | e in w.mem.pending || e in w.taken || e in w.mem.recent ensures e.id < w.mem.nextId {
      LiveIdsAreIssued(w, e);
    }
  }

  lemma IssuedIsLoadable(m: Memory, taken: Entries, terminal: Entries)
    requires WellShaped(m, taken, terminal) && Issued(m, taken) && m.limit <= QUEUE_LIMIT_CEILING
    ensures Loadable(m)
  {
  }

  /** Every snapshot a drain writes loads as it is. */
  lemma MidDrainLoads(m: Memory, taken: Entries, terminal: Entries, n: nat)
    requires WellShaped(m, taken, terminal) && Issued(m, taken) && m.limit <= QUEUE_LIMIT_CEILING
    ensures Load(Holds(Snapshot(MidDrain(m, n)))).0 == MidDrain(m, n)
    ensures var followUps := Select(m.pending, Following);
            WellShaped(MidDrain(m, n), [], Marked(followUps[..Min(n, |followUps|)], Delivered) + terminal)
  {
    var followUps := Select(m.pending, Following);
    var popped := followUps[..Min(n, |followUps|)];
    BehindIsSuffix(m.pending, n);
    SelectBelow(m.pending, Following, m.nextId);
    assert Below(popped, m.nextId);
    FiledBelow(popped, Delivered, m.recent, m.nextId);
    FiledIsNewest(popped, Delivered, terminal);
    hide Select, Filed, Behind, Marked, Load;
    LoadPersisted(MidDrain(m, n));
  }

  lemma FirstLands(base: Disk, writes: seq<QueueFile>, n: nat)
    ensures Landed(base, FirstFew(writes, n), []) ==
            if n == 0 || writes == [] then base else Holds(writes[Min(n, |writes|) - 1])
  {
    LandsLast(base, FirstFew(writes, n), []);
  }

  /** Every snapshot of a call other than a drain is the memory it leaves. */
  lemma WritesAreFinal(m: Memory, taken: Entries, op: Op)
    requires !op.Drain?
    ensures var o := Do(m, taken, op); forall i :: 0 <= i < |o.writes| ==> o.writes[i] == Snapshot(o.mem)
  {
    hide Trim, FirstIndex, Select, Demoted, Texts, Capped;
  }

  /**
   * A drain cut short behind `n` of its snapshots, steers standing anywhere: the file holds what stood
   * behind the follow-ups popped so far, and these are filed.
   */
  lemma DrainCutShort(w: World, n: nat)
    requires WellShaped(w.mem, w.taken, w.terminal) && Issued(w.mem, w.taken)
    requires w.mem.limit <= QUEUE_LIMIT_CEILING && 0 < n <= |Select(w.mem.pending, Following)|
    ensures CutShort(w, Drain, n).mem == MidDrain(w.mem, n)
  {
    var writes := DrainWrites(w.mem);
    DrainWritesOneByOne(w.mem);
    FirstLands(w.disk, writes, n);
    hide Select, DrainWrites, MidDrain, Load, Landed, WellShaped, Issued;
    assert writes[n - 1] == Snapshot(MidDrain(w.mem, n));
    MidDrainLoads(w.mem, w.taken, w.terminal, n);
  }

  /** The memory brought back when a safe drain is cut short: the popped entries filed, the others pending. */
  function Popped(m: Memory, n: nat): Memory
    requires n <= |m.pending|
  {
    m.(pending := m.pending[n..], recent := Filed(m.pending[..n], Delivered, m.recent))
  }

  lemma SafeDrainCutShort(w: World, n: nat)
    requires Inv(w) && w.mem.limit <= QUEUE_LIMIT_CEILING
    requires SteersTrail(w.mem.pending) && 0 < n <= |Select(w.mem.pending, Following)|
    ensures n <= |w.mem.pending| && CutShort(w, Drain, n).mem == Popped(w.mem, n)
    ensures CutShort(w, Drain, n).terminal == Marked(w.mem.pending[..n], Delivered) + w.terminal
  {
    LiveIsIssued(w);
    DrainCutShort(w, n);
    TrailingSteers(w.mem.pending, n);
    hide Select, DrainWrites, Load, Landed, Filed, Marked, Behind;
  }

  lemma PoppedKeepsInv(w: World, n: nat, disk: Disk)
    requires Inv(w) && w.taken == [] && n <= |w.mem.pending|
    ensures Inv(World(Popped(w.mem, n), disk, [], Marked(w.mem.pending[..n], Delivered) + w.terminal))
  {
    var popped, left := w.mem.pending[..n], w.mem.pending[n..];
    var w' := World(Popped(w.mem, n), disk, [], Marked(popped, Delivered) + w.terminal);
    FiledIsNewest(popped, Delivered, w.terminal);
    hide Filed, Marked;
    assert w.mem.pending == popped + left;
    forall id: nat
      ensures Places(w', id) == Places(w, id)
    {
      CountAppend(popped, left, id);
      CountMarked(popped, Delivered, id);
      CountAppend(Marked(popped, Delivered), w.terminal, id);
    }
  }

  /** What a crash brings back when only the first `n` snapshots of a safe call have landed. */
  ghost predicate BringsBack(w: World, op: Op, n: nat, back: Memory) {
    if n == 0 || Quiet(w, op) then back == w.mem.(pending := w.taken + w.mem.pending)
    else if op.Drain? then
      var k := Min(n, |Select(w.mem.pending, Following)|);
      k <= |w.mem.pending| && back == Popped(w.mem, k)
    else
      var o := Do(w.mem, w.taken, op);
      o.taken == [] && back == o.mem
  }

  lemma CutBefore(w: World, op: Op, n: nat)
    requires n == 0 || Do(w.mem, w.taken, op).writes == []
    ensures CutShort(w, op, n) == Apply(w, Crash)
  {
    FirstLands(w.disk, Do(w.mem, w.taken, op).writes, n);
    assert [] + w.terminal == w.terminal;
    if op.Drain? {
      DrainWritesOneByOne(w.mem);
    } else if n > 0 {
      NothingWrittenNothingFiled(w, op);
      hide Do;
    }
  }

  lemma NothingWrittenNothingFiled(w: World, op: Op)
    requires Do(w.mem, w.taken, op).writes == [] && !op.Drain?
    ensures Do(w.mem, w.taken, op).filed == []
  {
    hide Trim, FirstIndex, Select;
  }

  lemma CutBehind(w: World, op: Op, n: nat)
    requires n > 0 && Do(w.mem, w.taken, op).writes != [] && !op.Drain?
    ensures CutShort(w, op, n) == Apply(Apply(w, Call(op, [])), Crash)
  {
    var writes := Do(w.mem, w.taken, op).writes;
    FirstLands(w.disk, writes, n);
    LandsLast(w.disk, writes, []);
    WritesAreFinal(w.mem, w.taken, op);
    hide Do, Load;
  }

  lemma ReloadedIsSynced(disk: Disk, terminal: Entries)
    ensures Synced(World(Load(disk).0, disk, [], terminal))
  {
    var m := Load(disk).0;
    hide Load;
    assert [] + m.pending == m.pending;
  }

  lemma CrashBringsBack(w: World, op: Op, n: nat)
    requires Synced(w) && (n == 0 || Quiet(w, op)) && CutShort(w, op, n) == Apply(w, Crash)
    ensures BringsBack(w, op, n, CutShort(w, op, n).mem)
  {
    hide Load, Quiet;
  }

  lemma LoudBringsBack(w: World, op: Op, n: nat)
    requires n > 0 && !op.Drain? && Do(w.mem, w.taken, op).taken == []
    requires !Quiet(w, op) && CutShort(w, op, n) == Apply(Apply(w, Call(op, [])), Crash)
    requires Synced(Apply(w, Call(op, [])))
    ensures BringsBack(w, op, n, CutShort(w, op, n).mem)
  {
    var o := Do(w.mem, w.taken, op);
    hide Load, Quiet, CutShort, Do, Landed;
    assert [] + o.mem.pending == o.mem.pending;
  }

  lemma CutShortAtMost(w: World, n: nat)
    ensures var k := Min(n, |Select(w.mem.pending, Following)|); CutShort(w, Drain, n) == CutShort(w, Drain, k)
  {
    var k := Min(n, |Select(w.mem.pending, Following)|);
    DrainWritesOneByOne(w.mem);
    assert FirstFew(DrainWrites(w.mem), n) == FirstFew(DrainWrites(w.mem), k);
    assert FiledSoFar(w, Drain, n) == FiledSoFar(w, Drain, k) by {
      assert Select(w.mem.pending, Following)[..0] == [];
    }
    hide Select, DrainWrites, Load, Landed, FiledSoFar, FirstFew;
  }

  lemma SafeDrainBack(w: World, n: nat)
    requires Inv(w) && w.mem.limit <= QUEUE_LIMIT_CEILING && w.taken == [] && SteersTrail(w.mem.pending)
    requires n > 0 && Select(w.mem.pending, Following) != [] && !Quiet(w, Drain)
    ensures BringsBack(w, Drain, n, CutShort(w, Drain, n).mem)
    ensures var w' := CutShort(w, Drain, n); Inv(w') && Synced(w') && w'.mem.limit == w.mem.limit
  {
    var k := Min(n, |Select(w.mem.pending, Following)|);
    hide Select, Load, Landed, FiledSoFar, FirstFew, Quiet, Inv, Synced, SteersTrail, DrainWrites, Marked, Filed;
    CutShortAtMost(w, n);
    SafeDrainCutShort(w, k);
    var disk := CutShort(w, Drain, k).disk;
    PoppedKeepsInv(w, k, disk);
    ReloadedIsSynced(disk, CutShort(w, Drain, k).terminal);
  }

  lemma CallKeepsInv(w: World, op: Op, ok: seq<bool>)
    requires Inv(w)
    ensures var w' := Apply(w, Call(op, ok)); Inv(w') && w'.mem.limit == w.mem.limit
  {
    CallConserves(w, op, ok);
    CallKeepsShape(w.mem, w.taken, op, w.terminal);
    hide Do;
  }

  lemma NothingFails()
    ensures AllTrue([])
  {
  }

  /**
   * A crash inside a safe call, behind any number of its snapshots: it brings back what a crash before the
   * call would, or what one behind it would, or in a drain the entries not popped yet, with the popped ones
   * in the ledger.
   */
  lemma SafeCallCutShort(w: World, op: Op, n: nat)
    requires Inv(w) && Synced(w) && w.mem.limit <= QUEUE_LIMIT_CEILING && SafeOp(w, op)
    ensures BringsBack(w, op, n, CutShort(w, op, n).mem)
    ensures var w' := CutShort(w, op, n); Inv(w') && Synced(w') && w'.mem.limit == w.mem.limit
  {
    var o := Do(w.mem, w.taken, op);
    QuietCallsWriteNothing(w, op);
    if n == 0 || o.writes == [] {
      CutBefore(w, op, n);
      CrashKeeps(w);
      hide *;
      CrashBringsBack(w, op, n);
    } else if op.Drain? {
      DrainWritesOneByOne(w.mem);
      assert w.taken == [] && SteersTrail(w.mem.pending) && Select(w.mem.pending, Following) != [];
      hide *;
      SafeDrainBack(w, n);
    } else {
      LoudCall(w, op);
      CutBehind(w, op, n);
      hide *;
      NothingFails();
      CallKeepsSync(w, op, []);
      CallKeepsInv(w, op, []);
      CrashKeeps(Apply(w, Call(op, [])));
      LoudBringsBack(w, op, n);
    }
  }

  // ----- runs -----

  /** A step that runs to its end, or a call cut short by a crash when `writes` of its snapshots have landed. */
  datatype Event = Complete(step: Step) | Torn(op: Op, writes: nat)

  function Happen(w: World, event: Event): World {
    match event
    case Complete(step) => Apply(w, step)
    case Torn(op, writes) => CutShort(w, op, writes)
  }

  function History(w: World, events: seq<Event>): World
    decreases |events|
  {
    if events == [] then w else History(Happen(w, events[0]), events[1..])
  }

  predicate SafeEvent(w: World, event: Event) {
    match event
    case Complete(step) => SafeStep(w, step)
    case Torn(op, _) => SafeOp(w, op)
  }

  predicate SafeHistory(w: World, events: seq<Event>)
    decreases |events|
  {
    events != [] ==> SafeEvent(w, events[0]) && SafeHistory(Happen(w, events[0]), events[1..])
  }

  lemma SafeEventKeeps(w: World, event: Event)
    requires Inv(w) && Synced(w) && w.mem.limit <= QUEUE_LIMIT_CEILING && SafeEvent(w, event)
    ensures var w' := Happen(w, event); Inv(w') && Synced(w') && w'.mem.limit <= QUEUE_LIMIT_CEILING
  {
    hide Inv, Synced, SafeOp, CutShort, BringsBack, Do, Load, AllTrue;
    match event
    case Torn(op, writes) => SafeCallCutShort(w, op, writes);
    case Complete(step) =>
      if step.Crash? {
        hide Apply;
        CrashKeeps(w);
      } else {
        CallKeepsSync(w, step.op, step.ok);
        CallKeepsInv(w, step.op, step.ok);
      }
  }

  lemma {:induction false} SafeHistoryKeeps(w: World, events: seq<Event>)
    requires Inv(w) && Synced(w) && w.mem.limit <= QUEUE_LIMIT_CEILING && SafeHistory(w, events)
    ensures var end := History(w, events); Inv(end) && Synced(end)
    decreases |events|
  {
    hide Inv, Synced, SafeEvent, Happen;
    if events == [] {
    } else {
      SafeEventKeeps(w, events[0]);
      SafeHistoryKeeps(Happen(w, events[0]), events[1..]);
    }
  }

  /**
   * Crash safety with crashes at any point, between two snapshots of one call included: all along a safe
   * history the file brings back the entries out for delivery and then the pending ones, in order; that is
   * every issued id that is not terminal, once.
   */
  lemma TornCrashSafety(events: seq<Event>)
    requires SafeHistory(FIRST_START, events)
    ensures var w := History(FIRST_START, events);
            var back := Load(w.disk).0;
            && back.pending == w.taken + w.mem.pending
            && back.recent == w.mem.recent && back.nextId == w.mem.nextId
            && forall id: nat :: Count(back.pending, id) ==
                 if 1 <= id < w.mem.nextId && Count(w.terminal, id) == 0 then 1 else 0
  {
    StartIsSynced();
    SafeHistoryKeeps(FIRST_START, events);
    hide History, Happen, Load;
    SyncedBringsBackAll(History(FIRST_START, events));
  }

  lemma StartIsSynced()
    ensures Inv(FIRST_START) && Synced(FIRST_START)
  {
    assert [] + EMPTY_MEMORY.pending == EMPTY_MEMORY.pending;
  }

  lemma SyncedBringsBackAll(w: World)
    requires Inv(w) && Synced(w)
    ensures forall id: nat :: Count(Load(w.disk).0.pending, id) ==
              if 1 <= id < w.mem.nextId && Count(w.terminal, id) == 0 then 1 else 0
  {
    hide Load;
    forall id: nat
      ensures Count(w.taken + w.mem.pending, id) ==
              if 1 <= id < w.mem.nextId && Count(w.terminal, id) == 0 then 1 else 0
    {
      CountAppend(w.taken, w.mem.pending, id);
      assert Places(w, id) == if 1 <= id < w.mem.nextId then 1 else 0;
    }
  }

  // ----- the merged turn -----

  /**
   * One turn for the whole queue drains it first. A crash before the turn has ended brings none of the
   * follow-ups back: each is filed as delivered by then, whether or not the turn ever ran.
   */
  lemma CrashDuringMergedTurn(w: World, ok: seq<bool>)
    requires Inv(w) && w.mem.limit <= QUEUE_LIMIT_CEILING && AllTrue(ok)
    ensures var w' := Apply(Apply(w, Call(Drain, ok)), Crash);
            forall e :: e in w.mem.pending && e.mode != Steer ==>
              && Count(w'.mem.pending, e.id) == 0
              && e.(state := Delivered) in w'.terminal && Count(w'.terminal, e.id) == 1
  {
    var w' := Apply(w, Call(Drain, ok));
    forall e | e in w.mem.pending && e.mode != Steer
      ensures Count(Load(w'.disk).0.pending, e.id) == 0
      ensures e.(state := Delivered) in w'.terminal && Count(w'.terminal, e.id) == 1
    {
      FollowUpGone(w, ok, e);
    }
  }

  lemma {:induction false} MarkedHolds(s: Entries, state: EntryState, e: QueueEntry)
    requires e in s
    ensures e.(state := state) in Marked(s, state)
  {
    if s[0] == e {
    } else {
      assert e in s[1..];
      MarkedHolds(s[1..], state, e);
    }
  }

  lemma {:induction false} TailHasNoMore(s: Entries, id: nat)
    ensures Count(Tail(s), id) <= Count(Select(s, Steering), id)
  {
    if s == [] {
    } else if Select(s, Following) == [] {
      OnlySteers(s);
    } else {
      TailHasNoMore(s[1..], id);
    }
  }

  lemma FollowUpGone(w: World, ok: seq<bool>, e: QueueEntry)
    requires Inv(w) && w.mem.limit <= QUEUE_LIMIT_CEILING && AllTrue(ok)
    requires e in w.mem.pending && e.mode != Steer
    ensures var w' := Apply(w, Call(Drain, ok));
            && Count(Load(w'.disk).0.pending, e.id) == 0
            && e.(state := Delivered) in w'.terminal && Count(w'.terminal, e.id) == 1
  {
    var followUps, steers := Select(w.mem.pending, Following), Select(w.mem.pending, Steering);
    var marked := Marked(followUps, Delivered);
    SelectMembers(w.mem.pending, Following);
    assert e in followUps;
    MarkedHolds(followUps, Delivered, e);
    CountsMembers(followUps, e);
    CountByKind(w.mem.pending, e.id);
    CountMarked(followUps, Delivered, e.id);
    CountAppend(marked, w.terminal, e.id);
    TailHasNoMore(w.mem.pending, e.id);
    hide Select, Marked, Load, Landed, DrainWrites, Filed, Count, WellShaped;
    assert Places(w, e.id) <= 1;
    DrainedDisk(w, ok);
    assert Apply(w, Call(Drain, ok)).terminal == marked + w.terminal;
  }
}
