/**
 * The follow-up queue as values: its entries, the file it persists to, and the effect of each
 * operation on the memory together with the snapshots the operation tries to write.
 */
module QueueModel {
  import opened Text

  datatype QueueSource = User | Guide | Subagent

  datatype DeliveryMode = Steer | FollowUp | Auto

  datatype EntryState = Pending | Delivered | Withdrawn | Failed

  datatype QueueEntry =
    QueueEntry(id: nat, text: string, source: QueueSource, state: EntryState, lane: string, mode: DeliveryMode)

  type Entries = seq<QueueEntry>

  const DEFAULT_QUEUE_LIMIT: nat := 32
  const RECENT_LEDGER_CAP: nat := 20
  const QUEUE_FILE_VERSION: nat := 1
  const QUEUE_LIMIT_CEILING: nat := 4096
  const MAIN_LANE := "main"
  const INJECTION_HEADER := "[queued follow-ups, oldest first]"

  /** The in-memory queue. `recent` is the ledger of terminal entries, newest first. */
  datatype Memory = Memory(pending: Entries, recent: Entries, nextId: nat, merged: bool, limit: nat)

  datatype QueueFile =
    QueueFile(version: nat, nextId: nat, limit: nat, merged: bool, pending: Entries, recent: Entries)

  /** What a reader finds at the queue's path. */
  datatype Disk = Absent | Garbage | Holds(file: QueueFile)

  datatype QueueLoad = FreshStart | Restored(pending: nat, recent: nat) | Corrupt

  /** The memory after an operation, its reply, and the snapshots it tries to write, in order. */
  datatype Effect<+R> = Effect(mem: Memory, reply: R, writes: seq<QueueFile>)

  const EMPTY_MEMORY := Memory([], [], 1, false, DEFAULT_QUEUE_LIMIT)

  function Snapshot(m: Memory): QueueFile {
    QueueFile(QUEUE_FILE_VERSION, m.nextId, m.limit, m.merged, m.pending, m.recent)
  }

  /** The disk after the attempts `writes`; attempt i fails exactly when `ok[i]` is given and false. */
  function Landed(base: Disk, writes: seq<QueueFile>, ok: seq<bool>): Disk {
    if writes == [] then base
    else
      var last := |writes| - 1;
      if last < |ok| && !ok[last] then Landed(base, writes[..last], ok) else Holds(writes[last])
  }

  function Clamp(n: nat, low: nat, high: nat): nat
    requires low <= high
  {
    if n < low then low else Min(n, high)
  }

  function Capped(s: Entries): Entries { s[..Min(|s|, RECENT_LEDGER_CAP)] }

  /** The three ways the code filters a queue. */
  datatype Kind = Waiting | Steering | Following

  predicate Is(e: QueueEntry, kind: Kind) {
    match kind
    case Waiting => e.state == Pending
    case Steering => e.mode == Steer
    case Following => e.mode != Steer
  }

  function Select(s: Entries, kind: Kind): Entries {
    if s == [] then []
    else if Is(s[0], kind) then [s[0]] + Select(s[1..], kind)
    else Select(s[1..], kind)
  }

  lemma {:induction false} SelectMembers(s: Entries, kind: Kind)
    ensures forall e :: e in Select(s, kind) <==> e in s && Is(e, kind)
  {
    if s == [] {
    } else {
      SelectMembers(s[1..], kind);
    }
  }

  // ----- loading -----

  function Load(disk: Disk): (Memory, QueueLoad) {
    match disk
    case Absent => (EMPTY_MEMORY, FreshStart)
    case Garbage => (EMPTY_MEMORY, Corrupt)
    case Holds(file) =>
      if file.version != QUEUE_FILE_VERSION then (EMPTY_MEMORY, Corrupt)
      else
        var restored := Select(file.pending, Waiting);
        var recent := Capped(file.recent);
        var limit := Clamp(file.limit, 1, QUEUE_LIMIT_CEILING);
        var kept := restored[..Min(|restored|, limit)];
        var afterPending := if kept == [] then 1 else kept[|kept| - 1].id + 1;
        var afterRecent := if recent == [] then 1 else recent[0].id + 1;
        var nextId := Max(Max(Max(file.nextId, afterPending), afterRecent), 1);
        (Memory(kept, recent, nextId, file.merged, limit),
         if |restored| + |recent| == 0 then FreshStart else Restored(|restored|, |recent|))
  }

  // ----- operations -----

  /** What a scan of the pending entries looks for. */
  datatype Key = ById(id: nat) | SteerWith(text: string)

  predicate Hits(e: QueueEntry, key: Key) {
    match key
    case ById(id) => e.id == id
    case SteerWith(text) => e.mode == Steer && e.state == Pending && e.text == text
  }

  /** The first index from `i` on whose entry hits `key`, or the length. */
  function FirstIndex(s: Entries, key: Key, i: nat): (k: nat)
    requires i <= |s|
    ensures i <= k <= |s| && (k < |s| ==> Hits(s[k], key))
    decreases |s| - i
  {
    if i == |s| || Hits(s[i], key) then i else FirstIndex(s, key, i + 1)
  }

  lemma {:induction false} FirstIndexIsFirst(s: Entries, key: Key, i: nat)
    requires i <= |s|
    ensures forall j :: i <= j < FirstIndex(s, key, i) ==> !Hits(s[j], key)
    decreases |s| - i
  {
    if i < |s| && !Hits(s[i], key) {
      FirstIndexIsFirst(s, key, i + 1);
    }
  }

  function Without(s: Entries, k: nat): Entries
    requires k < |s|
  {
    s[..k] + s[k + 1..]
  }

  function Unchanged<R>(m: Memory, reply: R): Effect<R> { Effect(m, reply, []) }

  function Persisted<R>(m: Memory, reply: R): Effect<R> { Effect(m, reply, [Snapshot(m)]) }

  function FileRecent(m: Memory, e: QueueEntry): Memory { m.(recent := Capped([e] + m.recent)) }

  function Send(m: Memory, lane: string, text: string, source: QueueSource, mode: DeliveryMode): Effect<Option<nat>> {
    Enqueue(m, Trim(lane), Trim(text), source, mode)
  }

  /** Sending once lane and text are trimmed. */
  function Enqueue(m: Memory, lane: string, text: string, source: QueueSource, mode: DeliveryMode)
    : Effect<Option<nat>>
  {
    if lane == [] || text == [] || |m.pending| >= m.limit then Unchanged(m, None)
    else
      var entry := QueueEntry(m.nextId, text, source, Pending, lane, mode);
      Persisted(m.(pending := m.pending + [entry], nextId := m.nextId + 1), Some(m.nextId))
  }

  function SetMerged(m: Memory, merged: bool): Effect<()> { Persisted(m.(merged := merged), ()) }

  /** Taking does not persist: the file still shows the entry as pending. */
  function Take(m: Memory): Effect<Option<QueueEntry>> {
    if m.pending == [] then Unchanged(m, None)
    else Unchanged(m.(pending := m.pending[1..]), Some(m.pending[0]))
  }

  function Finish(m: Memory, e: QueueEntry, state: EntryState): Effect<()> {
    Persisted(FileRecent(m, e.(state := state)), ())
  }

  function Requeue(m: Memory, e: QueueEntry): Effect<()> {
    if |m.pending| >= m.limit then Persisted(FileRecent(m, e.(state := Failed)), ())
    else Persisted(m.(pending := [e] + m.pending), ())
  }

  function Edit(m: Memory, id: nat, newText: string): Effect<bool> {
    var k := FirstIndex(m.pending, ById(id), 0);
    if Trim(newText) == [] || k == |m.pending| then Unchanged(m, false)
    else Persisted(m.(pending := m.pending[k := m.pending[k].(text := Trim(newText))]), true)
  }

  function Withdraw(m: Memory, id: nat): Effect<Option<string>> {
    var k := FirstIndex(m.pending, ById(id), 0);
    if k == |m.pending| then Unchanged(m, None)
    else
      var e := m.pending[k];
      Persisted(FileRecent(m.(pending := Without(m.pending, k)), e.(state := Withdrawn)), Some(e.text))
  }

  function CancelLast(m: Memory): Effect<Option<string>> {
    if m.pending == [] then Unchanged(m, None) else Withdraw(m, m.pending[|m.pending| - 1].id)
  }

  function Swapped(s: Entries, i: nat, j: nat): Entries
    requires i < |s| && j < |s|
  {
    s[i := s[j]][j := s[i]]
  }

  function Move(m: Memory, id: nat, up: bool): Effect<bool> {
    var k := FirstIndex(m.pending, ById(id), 0);
    if k == |m.pending| || (up && k == 0) || (!up && k + 1 == |m.pending|) then Unchanged(m, false)
    else Persisted(m.(pending := Swapped(m.pending, k, if up then k - 1 else k + 1)), true)
  }

  function Relane(m: Memory, id: nat, lane: string): Effect<bool> {
    var k := FirstIndex(m.pending, ById(id), 0);
    if Trim(lane) == [] || k == |m.pending| || m.pending[k].lane == Trim(lane) then Unchanged(m, false)
    else Persisted(m.(pending := m.pending[k := m.pending[k].(lane := Trim(lane))]), true)
  }

  /** Claiming files the steer and then persists once more. */
  function Claim(m: Memory, text: string): Effect<bool> {
    var k := FirstIndex(m.pending, SteerWith(text), 0);
    if k == |m.pending| then Unchanged(m, false)
    else
      var m' := FileRecent(m.(pending := Without(m.pending, k)), m.pending[k].(state := Delivered));
      Effect(m', true, [Snapshot(m'), Snapshot(m')])
  }

  function Demote(e: QueueEntry): QueueEntry { if e.mode == Steer then e.(mode := FollowUp) else e }

  function Demoted(s: Entries): Entries {
    seq(|s|, i requires 0 <= i < |s| => Demote(s[i]))
  }

  function Texts(s: Entries): (r: seq<string>)
    ensures |r| == |s| && forall i :: 0 <= i < |s| ==> r[i] == s[i].text
  {
    seq(|s|, i requires 0 <= i < |s| => s[i].text)
  }

  function Recover(m: Memory): Effect<seq<string>> {
    var steers := Select(m.pending, Steering);
    if steers == [] then Unchanged(m, [])
    else Persisted(m.(pending := Demoted(m.pending)), Texts(steers))
  }

  /** The ledger after filing `entries`, oldest first, with one state. */
  function Filed(entries: Entries, state: EntryState, recent: Entries): Entries {
    if entries == [] then recent
    else Filed(entries[1..], state, Capped([entries[0].(state := state)] + recent))
  }

  /** The snapshots a drain writes: the steers popped so far are in neither list of the file. */
  function DrainWrites(m: Memory): seq<QueueFile>
    decreases |m.pending|
  {
    if m.pending == [] then []
    else
      var rest := m.(pending := m.pending[1..]);
      if m.pending[0].mode == Steer then DrainWrites(rest)
      else
        var filed := FileRecent(rest, m.pending[0].(state := Delivered));
        [Snapshot(filed)] + DrainWrites(filed)
  }

  function Numbered(messages: seq<string>, first: nat): string {
    if messages == [] then []
    else Decimal(first) + ". " + messages[0] + "\n" + Numbered(messages[1..], first + 1)
  }

  function Injection(messages: seq<string>): string { INJECTION_HEADER + "\n" + Numbered(messages, 1) }

  function Drain(m: Memory): Effect<Option<string>> {
    var followUps := Select(m.pending, Following);
    if followUps == [] then Unchanged(m, None)
    else
      Effect(m.(pending := Select(m.pending, Steering), recent := Filed(followUps, Delivered, m.recent)),
             Some(Injection(Texts(followUps))),
             DrainWrites(m))
  }
}
