/** The follow-up queue as the program runs it, each method tied to its effect in `QueueModel`. */
module FollowUpQueue {
  import opened Text
  import opened QueueModel

  /** The file behind one queue. A write replaces the content whole or leaves it as it was. */
  class QueueDisk {
    var content: Disk

    constructor (content: Disk)
      ensures this.content == content
    {
      this.content := content;
    }
  }

  function Failures(ok: seq<bool>): nat {
    if ok == [] then 0 else Failures(ok[..|ok| - 1]) + if ok[|ok| - 1] then 0 else 1
  }

  lemma {:induction false} LandedOnPrefix(base: Disk, writes: seq<QueueFile>, ok: seq<bool>, more: seq<bool>)
    requires |writes| <= |ok|
    ensures Landed(base, writes, ok) == Landed(base, writes, ok + more)
  {
    if writes == [] {
    } else {
      LandedOnPrefix(base, writes[..|writes| - 1], ok, more);
    }
  }

  /** The outcome of delivering one queued turn. */
  datatype Delivery = Ran(ok: bool) | Errored

  class Queue {
    var pending: Entries
    var recent: Entries
    var nextId: nat
    var merged: bool
    var limit: nat
    var persistFailures: nat
    const file: QueueDisk?

    /** Every snapshot handed to the disk since construction, and whether it reached it. */
    ghost var attempts: seq<QueueFile>
    ghost var landed: seq<bool>
    ghost const base: Disk

    ghost predicate Valid()
      reads this, file
    {
      && |attempts| == |landed|
      && persistFailures == Failures(landed)
      && (file == null ==> attempts == [])
      && (file != null ==> file.content == Landed(base, attempts, landed))
    }

    ghost function Mem(): Memory
      reads this
    {
      Memory(pending, recent, nextId, merged, limit)
    }

    /** The attempts grew by `writes`, or by nothing when the queue has no file. */
    twostate predicate Wrote(writes: seq<QueueFile>)
      reads this
    {
      attempts == old(attempts) + if file == null then [] else writes
    }

    constructor New()
      ensures Valid() && Mem() == EMPTY_MEMORY && file == null
    {
      pending, recent, nextId, merged, limit, persistFailures := [], [], 1, false, DEFAULT_QUEUE_LIMIT, 0;
      file, attempts, landed, base := null, [], [], Absent;
    }

    constructor Restore(path: QueueDisk)
      ensures Valid() && file == path && Mem() == Load(path.content).0
      ensures attempts == [] && base == path.content
    {
      var (m, _) := Load(path.content);
      pending, recent, nextId, merged, limit := m.pending, m.recent, m.nextId, m.merged, m.limit;
      persistFailures, file := 0, path;
      attempts, landed, base := [], [], path.content;
    }

    /** One locked temp-and-rename write. It may fail, and the file is then left as it was. */
    method Persist()
      requires Valid()
      modifies this`persistFailures, this`attempts, this`landed, file
      ensures Valid() && Wrote([Snapshot(Mem())])
    {
      if file == null {
        return;
      }
      var snapshot := QueueFile(QUEUE_FILE_VERSION, nextId, limit, merged, pending, recent);
      var ok: bool := *;
      LandedOnPrefix(base, attempts, landed, [ok]);
      ghost var before := attempts;
      attempts, landed := attempts + [snapshot], landed + [ok];
      assert attempts[..|attempts| - 1] == before;
      assert landed[..|landed| - 1] == old(landed);
      if ok {
        file.content := Holds(snapshot);
      } else {
        persistFailures := persistFailures + 1;
      }
    }

    method Position(key: Key) returns (k: nat)
      ensures k == FirstIndex(pending, key, 0)
    {
      k := 0;
      while k < |pending| && !Hits(pending[k], key)
        invariant k <= |pending| && FirstIndex(pending, key, k) == FirstIndex(pending, key, 0)
      {
        k := k + 1;
      }
    }

    method FileRecently(entry: QueueEntry)
      requires Valid()
      modifies this`recent, this`persistFailures, this`attempts, this`landed, file
      ensures Valid() && Mem() == FileRecent(old(Mem()), entry) && Wrote([Snapshot(Mem())])
    {
      recent := [entry] + recent;
      if |recent| > RECENT_LEDGER_CAP {
        recent := recent[..RECENT_LEDGER_CAP];
      }
      Persist();
    }

    method SendEntry(lane: string, text: string, source: QueueSource, mode: DeliveryMode) returns (id: Option<nat>)
      requires Valid()
      modifies this, file
      ensures Valid()
      ensures var e := Send(old(Mem()), lane, text, source, mode); Mem() == e.mem && id == e.reply && Wrote(e.writes)
    {
      id := EnqueueTrimmed(Trim(lane), Trim(text), source, mode);
    }

    method EnqueueTrimmed(lane: string, text: string, source: QueueSource, mode: DeliveryMode)
      returns (id: Option<nat>)
      requires Valid()
      modifies this, file
      ensures Valid()
      ensures var e := Enqueue(old(Mem()), lane, text, source, mode); Mem() == e.mem && id == e.reply && Wrote(e.writes)
    {
      if lane == [] || text == [] || |pending| >= limit {
        return None;
      }
      id := Some(nextId);
      pending := pending + [QueueEntry(nextId, text, source, Pending, lane, mode)];
      nextId := nextId + 1;
      Persist();
    }

    method Push(text: string) returns (queued: bool)
      requires Valid()
      modifies this, file
      ensures Valid()
      ensures var e := Send(old(Mem()), "main", text, User, FollowUp);
              Mem() == e.mem && queued == e.reply.Some? && Wrote(e.writes)
    {
      var id := SendEntry(MAIN_LANE, text, User, FollowUp);
      queued := id.Some?;
    }

    method SetMergedMode(on: bool)
      requires Valid()
      modifies this, file
      ensures Valid() && Mem() == old(Mem()).(merged := on) && Wrote([Snapshot(Mem())])
    {
      merged := on;
      Persist();
    }

    method TakeNext() returns (entry: Option<QueueEntry>)
      requires Valid()
      modifies this`pending
      ensures Valid()
      ensures var e := Take(old(Mem())); Mem() == e.mem && entry == e.reply && e.writes == []
    {
      if pending == [] {
        return None;
      }
      entry := Some(pending[0]);
      pending := pending[1..];
    }

    method FinishEntry(entry: QueueEntry, state: EntryState)
      requires Valid()
      modifies this, file
      ensures Valid()
      ensures var e := Finish(old(Mem()), entry, state); Mem() == e.mem && Wrote(e.writes)
    {
      FileRecently(entry.(state := state));
    }

    method RequeueFront(entry: QueueEntry)
      requires Valid()
      modifies this, file
      ensures Valid()
      ensures var e := Requeue(old(Mem()), entry); Mem() == e.mem && Wrote(e.writes)
    {
      if |pending| >= limit {
        FileRecently(entry.(state := Failed));
        return;
      }
      pending := [entry] + pending;
      Persist();
    }

    method EditEntry(id: nat, newText: string) returns (done: bool)
      requires Valid()
      modifies this, file
      ensures Valid()
      ensures var e := Edit(old(Mem()), id, newText); Mem() == e.mem && done == e.reply && Wrote(e.writes)
    {
      var text := Trim(newText);
      if text == [] {
        return false;
      }
      for i := 0 to |pending|
        invariant Valid() && Mem() == old(Mem()) && attempts == old(attempts)
        invariant FirstIndex(pending, ById(id), 0) == FirstIndex(pending, ById(id), i)
      {
        if pending[i].id == id {
          pending := pending[i := pending[i].(text := text)];
          Persist();
          return true;
        }
      }
      done := false;
    }

    method WithdrawEntry(id: nat) returns (text: Option<string>)
      requires Valid()
      modifies this, file
      ensures Valid()
      ensures var e := Withdraw(old(Mem()), id); Mem() == e.mem && text == e.reply && Wrote(e.writes)
    {
      var k := Position(ById(id));
      if k == |pending| {
        return None;
      }
      var entry := pending[k];
      pending := pending[..k] + pending[k + 1..];
      text := Some(entry.text);
      FileRecently(entry.(state := Withdrawn));
    }

    method CancelLastEntry() returns (text: Option<string>)
      requires Valid()
      modifies this, file
      ensures Valid()
      ensures var e := CancelLast(old(Mem())); Mem() == e.mem && text == e.reply && Wrote(e.writes)
    {
      if pending == [] {
        return None;
      }
      text := WithdrawEntry(pending[|pending| - 1].id);
    }

    method MoveEntry(id: nat, up: bool) returns (moved: bool)
      requires Valid()
      modifies this, file
      ensures Valid()
      ensures var e := Move(old(Mem()), id, up); Mem() == e.mem && moved == e.reply && Wrote(e.writes)
    {
      var k := Position(ById(id));
      if k == |pending| {
        return false;
      }
      var target;
      if up {
        if k == 0 {
          return false;
        }
        target := k - 1;
      } else {
        target := k + 1;
        if target >= |pending| {
          return false;
        }
      }
      pending := pending[k := pending[target]][target := pending[k]];
      Persist();
      moved := true;
    }

    method ReassignLane(id: nat, lane: string) returns (done: bool)
      requires Valid()
      modifies this, file
      ensures Valid()
      ensures var e := Relane(old(Mem()), id, lane); Mem() == e.mem && done == e.reply && Wrote(e.writes)
    {
      var lane' := Trim(lane);
      if lane' == [] {
        return false;
      }
      var k := Position(ById(id));
      if k == |pending| || pending[k].lane == lane' {
        return false;
      }
      pending := pending[k := pending[k].(lane := lane')];
      Persist();
      done := true;
    }

    method ClaimSteered(text: string) returns (claimed: bool)
      requires Valid()
      modifies this, file
      ensures Valid()
      ensures var e := Claim(old(Mem()), text); Mem() == e.mem && claimed == e.reply && Wrote(e.writes)
    {
      var k := Position(SteerWith(text));
      if k == |pending| {
        return false;
      }
      var entry := pending[k];
      pending := pending[..k] + pending[k + 1..];
      FileRecently(entry.(state := Delivered));
      Persist();
      claimed := true;
    }

    method RecoverPendingSteers() returns (recovered: seq<string>)
      requires Valid()
      modifies this, file
      ensures Valid()
      ensures var e := Recover(old(Mem())); Mem() == e.mem && recovered == e.reply && Wrote(e.writes)
    {
      recovered := [];
      for i := 0 to |pending|
        invariant |pending| == |old(pending)| && Mem() == old(Mem()).(pending := pending)
        invariant RecoverLoop(pending, i, recovered) == RecoverLoop(old(pending), 0, [])
        invariant Valid() && attempts == old(attempts)
      {
        if pending[i].mode == Steer {
          pending := pending[i := Demote(pending[i])];
          recovered := recovered + [pending[i].text];
        }
      }
      RecoverLoopResult(old(pending), 0, []);
      if recovered != [] {
        Persist();
      }
    }

    method DrainInjection() returns (injection: Option<string>)
      requires Valid()
      modifies this, file
      ensures Valid()
      ensures var e := Drain(old(Mem())); Mem() == e.mem && injection == e.reply && Wrote(e.writes)
    {
      FollowUpsEmpty(pending);
      if forall e :: e in pending ==> e.mode == Steer {
        return None;
      }
      var merged := MergeInjection(Texts(Select(pending, Following)));
      var steers := PopAll();
      pending := steers;
      injection := Some(merged);
    }

    /** The draining loop: entries leave from the front, follow-ups into the ledger, steers into a local. */
    method PopAll() returns (steers: Entries)
      requires Valid()
      modifies this, file
      ensures Valid() && steers == Select(old(pending), Steering)
      ensures Mem() == Drained(old(Mem()))
      ensures Wrote(DrainWrites(old(Mem())))
    {
      hide DrainLoop, DrainStep, DrainWrites, Drained, Select, Landed, Failures, Snapshot;
      steers := [];
      ghost var written := [];
      while pending != []
        invariant Valid() && Wrote(written)
        invariant DrainLoop(Mem(), steers, written) == DrainLoop(old(Mem()), [], [])
        decreases |pending|
      {
        DrainLoopStep(Mem(), steers, written);
        ghost var more;
        steers, more := PopOne(steers);
        written := written + more;
      }
      DrainLoopDone(Mem(), steers, written);
      DrainLoopResult(old(Mem()), [], []);
      assert [] + Select(old(pending), Steering) == Select(old(pending), Steering);
      assert [] + DrainWrites(old(Mem())) == DrainWrites(old(Mem()));
    }

    method PopOne(before: Entries) returns (steers: Entries, ghost more: seq<QueueFile>)
      requires Valid() && pending != []
      modifies this, file
      ensures Valid() && Wrote(more)
      ensures (Mem(), steers, more) == DrainStep(old(Mem()), before)
    {
      var entry := pending[0];
      pending := pending[1..];
      if entry.mode == Steer {
        return before + [entry], [];
      }
      FileRecently(entry.(state := Delivered));
      steers, more := before, [Snapshot(Mem())];
    }

    /** Turn boundary of the line REPL, merged mode: one turn for the whole queue, its outcome given. */
    method DeliverMerged(turn: Delivery)
      requires Valid()
      requires 1 <= limit && |pending| <= limit
      modifies this, file
      ensures Valid() && |pending| <= limit
      ensures var followUps := Select(old(pending), Following);
              var steers := Select(old(pending), Steering);
              && recent == Filed(followUps, Delivered, old(recent))
              && pending == steers + if followUps == [] || turn.Ran? then [] else
                   [QueueEntry(old(nextId), Trim(Injection(Texts(followUps))), User, Pending, "main", FollowUp)]
    {
      KindsPartition(pending);
      var injection := DrainInjection();
      if injection.Some? && turn.Errored? {
        TrimKeepsHeader(Texts(Select(old(pending), Following)));
        TrimMainLane();
        var queued := Push(injection.value);
      } else {
        AllKept(old(pending));
        assert pending + [] == pending;
      }
    }

    /** Turn boundary, one entry per turn: a turn that errors leaves the queue exactly as it was. */
    method DeliverHead(turn: Delivery)
      requires Valid()
      requires 1 <= limit && |pending| <= limit
      modifies this, file
      ensures Valid() && |pending| <= limit
      ensures old(pending) == [] || turn.Errored? ==> Mem() == old(Mem())
      ensures old(pending) != [] && turn.Ran? ==>
        Mem() == old(Mem()).(
          pending := old(pending)[1..],
          recent := Capped([old(pending)[0].(state := if turn.ok then Delivered else Failed)] + old(recent)))
    {
      var taken := TakeNext();
      if taken.None? {
        return;
      }
      match turn
      case Ran(ok) =>
        FinishEntry(taken.value, if ok then Delivered else Failed);
      case Errored =>
        RequeueFront(taken.value);
        assert pending == old(pending);
    }

    /** `/queue clear`: withdraw everything, one bracket at a time. */
    method Clear() returns (withdrawn: nat)
      requires Valid()
      modifies this, file
      ensures Valid() && withdrawn == |old(pending)|
      ensures Mem() == old(Mem()).(pending := [], recent := Filed(old(pending), Withdrawn, old(recent)))
    {
      withdrawn := 0;
      while true
        invariant Valid() && withdrawn + |pending| == |old(pending)|
        invariant Mem() == old(Mem()).(pending := pending, recent := recent)
        invariant Filed(pending, Withdrawn, recent) == Filed(old(pending), Withdrawn, old(recent))
        decreases |pending|
      {
        var taken := TakeNext();
        if taken.None? {
          return;
        }
        FinishEntry(taken.value, Withdrawn);
        withdrawn := withdrawn + 1;
      }
    }
  }

  /** Start of a session: the queue its file holds, and what was found there. The file is left as it is. */
  method LoadQueue(path: QueueDisk) returns (queue: Queue, outcome: QueueLoad)
    ensures fresh(queue) && queue.Valid() && queue.file == path && queue.attempts == []
    ensures (queue.Mem(), outcome) == Load(path.content)
  {
    var (_, found) := Load(path.content);
    queue := new Queue.Restore(path);
    outcome := found;
  }

  method MergeInjection(messages: seq<string>) returns (out: string)
    ensures out == Injection(messages)
  {
    out := INJECTION_HEADER + "\n";
    for index := 0 to |messages|
      invariant out + Numbered(messages[index..], index + 1) == Injection(messages)
    {
      assert messages[index..][1..] == messages[index + 1..];
      out := out + Decimal(index + 1) + ". " + messages[index] + "\n";
    }
  }

  /** One turn of the draining loop: the memory, the steers put aside and the snapshots written. */
  function DrainStep(m: Memory, steers: Entries): (Memory, Entries, seq<QueueFile>)
    requires m.pending != []
  {
    var entry := m.pending[0];
    var rest := m.(pending := m.pending[1..]);
    if entry.mode == Steer then (rest, steers + [entry], [])
    else
      var filed := FileRecent(rest, entry.(state := Delivered));
      (filed, steers, [Snapshot(filed)])
  }

  /** The draining loop as a function of its three variables. */
  function DrainLoop(m: Memory, steers: Entries, written: seq<QueueFile>): (Memory, Entries, seq<QueueFile>)
    decreases |m.pending|
  {
    if m.pending == [] then (m, steers, written)
    else
      var (m', steers', more) := DrainStep(m, steers);
      DrainLoop(m', steers', written + more)
  }

  lemma DrainLoopStep(m: Memory, steers: Entries, written: seq<QueueFile>)
    requires m.pending != []
    ensures var (m', steers', more) := DrainStep(m, steers);
            |m'.pending| < |m.pending| && DrainLoop(m, steers, written) == DrainLoop(m', steers', written + more)
  {
  }

  lemma DrainLoopDone(m: Memory, steers: Entries, written: seq<QueueFile>)
    requires m.pending == []
    ensures DrainLoop(m, steers, written) == (m, steers, written)
  {
  }

  lemma {:induction false} DrainLoopResult(m: Memory, steers: Entries, written: seq<QueueFile>)
    ensures DrainLoop(m, steers, written)
         == (Drained(m), steers + Select(m.pending, Steering), written + DrainWrites(m))
    decreases |m.pending|
  {
    if m.pending == [] {
      assert steers + [] == steers && written + [] == written;
    } else {
      var (m', steers', more) := DrainStep(m, steers);
      DrainLoopResult(m', steers', written + more);
      DrainStepResult(m, steers);
      assert written + more + DrainWrites(m') == written + (more + DrainWrites(m'));
    }
  }

  /** The memory when the draining loop ends. */
  function Drained(m: Memory): Memory {
    m.(pending := [], recent := Filed(Select(m.pending, Following), Delivered, m.recent))
  }

  lemma DrainStepResult(m: Memory, steers: Entries)
    requires m.pending != []
    ensures var (m', steers', more) := DrainStep(m, steers);
            && Drained(m') == Drained(m)
            && DrainWrites(m) == more + DrainWrites(m')
            && steers' + Select(m'.pending, Steering) == steers + Select(m.pending, Steering)
  {
    if m.pending[0].mode == Steer {
      SteerStep(m, steers);
    } else {
      FollowUpStep(m, steers);
    }
  }

  lemma SelectHead(s: Entries, kind: Kind)
    requires s != []
    ensures Select(s, kind) == (if Is(s[0], kind) then [s[0]] else []) + Select(s[1..], kind)
  {
    if !Is(s[0], kind) {
      assert [] + Select(s[1..], kind) == Select(s[1..], kind);
    }
  }

  lemma SteerStep(m: Memory, steers: Entries)
    requires m.pending != [] && m.pending[0].mode == Steer
    ensures var (m', steers', more) := DrainStep(m, steers);
            && Drained(m') == Drained(m)
            && DrainWrites(m) == more + DrainWrites(m')
            && steers' + Select(m'.pending, Steering) == steers + Select(m.pending, Steering)
  {
    SelectHead(m.pending, Steering);
    SelectHead(m.pending, Following);
    var m' := m.(pending := m.pending[1..]);
    assert [] + DrainWrites(m') == DrainWrites(m');
    hide Select, Filed;
    assert [] + Select(m'.pending, Following) == Select(m'.pending, Following);
    Assoc(steers, [m.pending[0]], Select(m'.pending, Steering));
  }

  lemma FollowUpStep(m: Memory, steers: Entries)
    requires m.pending != [] && m.pending[0].mode != Steer
    ensures var (m', steers', more) := DrainStep(m, steers);
            && Drained(m') == Drained(m)
            && DrainWrites(m) == more + DrainWrites(m')
            && steers' + Select(m'.pending, Steering) == steers + Select(m.pending, Steering)
  {
    SelectHead(m.pending, Steering);
    SelectHead(m.pending, Following);
    hide Select, Capped;
    var rest := m.pending[1..];
    assert ([m.pending[0]] + Select(rest, Following))[1..] == Select(rest, Following);
    assert [] + Select(rest, Steering) == Select(rest, Steering);
  }

  /** The recovery loop as a function of its index and the texts found. */
  function RecoverLoop(s: Entries, i: nat, recovered: seq<string>): (Entries, seq<string>)
    requires i <= |s|
    decreases |s| - i
  {
    if i == |s| then (s, recovered)
    else if s[i].mode == Steer then RecoverLoop(s[i := Demote(s[i])], i + 1, recovered + [s[i].text])
    else RecoverLoop(s, i + 1, recovered)
  }

  lemma {:induction false} RecoverLoopResult(s: Entries, i: nat, recovered: seq<string>)
    requires i <= |s|
    ensures RecoverLoop(s, i, recovered)
         == (s[..i] + Demoted(s[i..]), recovered + Texts(Select(s[i..], Steering)))
    ensures Select(s[i..], Steering) == [] ==> Demoted(s[i..]) == s[i..]
    decreases |s| - i
  {
    if i < |s| {
      assert s[i..] == [s[i]] + s[i + 1..];
      var s' := s[i := Demote(s[i])];
      assert s'[i + 1..] == s[i + 1..];
      RecoverLoopResult(s', i + 1, if s[i].mode == Steer then recovered + [s[i].text] else recovered);
      assert s'[..i + 1] + Demoted(s[i + 1..]) == s[..i] + Demoted(s[i..]);
      if s[i].mode == Steer {
        assert recovered + [s[i].text] + Texts(Select(s[i + 1..], Steering))
            == recovered + Texts(Select(s[i..], Steering));
      } else {
        assert s' == s;
      }
    } else {
      assert s[..i] + Demoted(s[i..]) == s && recovered + Texts([]) == recovered;
    }
  }

  /** Every entry is either a steer or a follow-up. */
  lemma {:induction false} KindsPartition(s: Entries)
    ensures |Select(s, Steering)| + |Select(s, Following)| == |s|
  {
    if s == [] {
    } else {
      KindsPartition(s[1..]);
    }
  }

  lemma FollowUpsEmpty(s: Entries)
    ensures Select(s, Following) == [] <==> forall e :: e in s ==> e.mode == Steer
  {
    SelectMembers(s, Following);
    if Select(s, Following) != [] {
      assert Select(s, Following)[0] in Select(s, Following);
    }
  }

  lemma {:induction false} AllKept(s: Entries)
    ensures Select(s, Following) == [] ==> Select(s, Steering) == s
  {
    if s == [] {
    } else {
      AllKept(s[1..]);
    }
  }

  lemma TrimMainLane()
    ensures Trim(MAIN_LANE) == MAIN_LANE
  {
    assert !IsWhitespace(MAIN_LANE[0]) && !IsWhitespace(MAIN_LANE[|MAIN_LANE| - 1]);
  }

  lemma TrimKeepsHeader(messages: seq<string>)
    ensures Trim(Injection(messages)) != []
  {
    var s := Injection(messages);
    assert s[0] == '[';
    assert TrimStart(s) == s;
    var k := TrimEndCuts(s);
  }
}
