/** What single queue operations mean to a user: which calls undo each other and what they leave alone. */
module QueueLaws {
  import opened Text
  import opened Q = QueueModel

  predicate DistinctIds(s: Entries) { forall i, j :: 0 <= i < j < |s| ==> s[i].id != s[j].id }

  lemma IndexOfDistinct(s: Entries, k: nat)
    requires k < |s| && DistinctIds(s)
    ensures FirstIndex(s, ById(s[k].id), 0) == k
  {
    FirstIndexIsFirst(s, ById(s[k].id), 0);
  }

  /** A ledger with one more entry on top, the oldest dropped when it was full. */
  function OnTop(e: QueueEntry, recent: Entries): Entries { [e] + recent[..Min(|recent|, RECENT_LEDGER_CAP - 1)] }

  lemma OnTopOfLedger(e: QueueEntry, recent: Entries)
    ensures Capped([e] + recent) == OnTop(e, recent)
  {
  }

  /**
   * Esc on the message just queued: a send that is cancelled gives back its text and the pending entries as
   * they were; the ledger gains the withdrawn entry, and the id is used up.
   */
  lemma CancelUndoesSend(m: Memory, lane: string, text: string, source: QueueSource, mode: DeliveryMode)
    requires forall i :: 0 <= i < |m.pending| ==> m.pending[i].id < m.nextId
    requires Trim(lane) != [] && Trim(text) != [] && |m.pending| < m.limit
    ensures var cancelled := Q.CancelLast(Q.Send(m, lane, text, source, mode).mem);
            var gone := QueueEntry(m.nextId, Trim(text), source, Withdrawn, Trim(lane), mode);
            && cancelled.reply == Some(Trim(text))
            && cancelled.mem == m.(nextId := m.nextId + 1, recent := OnTop(gone, m.recent))
  {
    OnTopOfLedger(QueueEntry(m.nextId, Trim(text), source, Withdrawn, Trim(lane), mode), m.recent);
    var sent := Q.Send(m, lane, text, source, mode).mem;
    FirstIndexIsFirst(sent.pending, ById(m.nextId), 0);
    var k := FirstIndex(sent.pending, ById(m.nextId), 0);
    assert sent.pending[|m.pending|].id == m.nextId;
    assert k == |m.pending|;
    assert Without(sent.pending, k) == m.pending;
  }

  /** Moving an entry and moving it back restores the memory; a refused move changes nothing. */
  lemma MoveBackUndoesMove(m: Memory, id: nat, up: bool)
    requires DistinctIds(m.pending)
    ensures var moved := Q.Move(m, id, up);
            if moved.reply then moved.mem != m && Q.Move(moved.mem, id, !up) == Q.Persisted(m, true)
            else moved == Q.Unchanged(m, false)
  {
    var moved := Q.Move(m, id, up);
    if moved.reply {
      var k := FirstIndex(m.pending, ById(id), 0);
      var target := if up then k - 1 else k + 1;
      var t := moved.mem.pending;
      assert t == Swapped(m.pending, k, target) && t[target].id == id && t[k].id != id;
      assert DistinctIds(t);
      IndexOfDistinct(t, target);
      assert Swapped(t, target, k) == m.pending;
    }
  }

  /** Handing a taken entry back restores the memory exactly when the queue was within its limit. */
  lemma RequeueUndoesTake(m: Memory)
    requires m.pending != []
    ensures var taken := Q.Take(m);
            Q.Requeue(taken.mem, taken.reply.value).mem == m <==> |m.pending| <= m.limit
  {
    assert [m.pending[0]] + m.pending[1..] == m.pending;
  }

  /** A requeue into a full queue files the entry as failed, on top of the ledger; otherwise it is next again. */
  lemma RequeueFilesWhenFull(m: Memory, e: QueueEntry)
    ensures |m.pending| >= m.limit ==> Q.Requeue(m, e).mem == m.(recent := OnTop(e.(state := Failed), m.recent))
    ensures |m.pending| < m.limit ==> Q.Requeue(m, e).mem == m.(pending := [e] + m.pending)
  {
    OnTopOfLedger(e.(state := Failed), m.recent);
  }

  /** Finishing touches the ledger only, and files the entry in the state named. */
  lemma FinishFilesAsTold(m: Memory, e: QueueEntry, state: EntryState)
    ensures Q.Finish(m, e, state).mem == m.(recent := OnTop(e.(state := state), m.recent))
  {
    OnTopOfLedger(e.(state := state), m.recent);
  }

  /** A send is accepted exactly for a lane and a text that are not blank while there is room; it goes to the back. */
  lemma SendQueuesBehind(m: Memory, lane: string, text: string, source: QueueSource, mode: DeliveryMode)
    ensures var sent := Q.Send(m, lane, text, source, mode);
            if !AllWhitespace(lane) && !AllWhitespace(text) && |m.pending| < m.limit then
              && sent.reply == Some(m.nextId)
              && sent.mem == m.(nextId := m.nextId + 1, pending := m.pending
                   + [QueueEntry(m.nextId, Trim(text), source, Pending, Trim(lane), mode)])
            else sent.reply == None && sent.mem == m
  {
    TrimIsBlank(lane);
    TrimIsBlank(text);
    hide Trim;
  }

  lemma TrimIsBlank(s: string)
    ensures Trim(s) == [] <==> AllWhitespace(s)
  {
    var a, t, z := TrimCuts(s);
    assert forall i :: 0 <= i < |t| ==> s[|a| + i] == t[i];
    if t == [] {
      assert s == a + z;
    }
    hide Trim;
  }

  /** Cancelling takes the newest pending entry, whoever queued it; without one nothing happens. */
  lemma CancelTakesNewest(m: Memory)
    requires DistinctIds(m.pending)
    ensures var cancelled := Q.CancelLast(m);
            if m.pending == [] then cancelled.reply == None && cancelled.mem == m
            else
              var newest := m.pending[|m.pending| - 1];
              && cancelled.reply == Some(newest.text)
              && cancelled.mem == m.(pending := m.pending[..|m.pending| - 1],
                                     recent := OnTop(newest.(state := Withdrawn), m.recent))
  {
    if m.pending != [] {
      var k := |m.pending| - 1;
      IndexOfDistinct(m.pending, k);
      OnTopOfLedger(m.pending[k].(state := Withdrawn), m.recent);
      assert m.pending[k + 1..] == [] && m.pending[..k] + [] == m.pending[..k];
    }
  }

  /** Where a move takes the entry at `k`. */
  function Towards(k: nat, up: bool): int { if up then k - 1 else k + 1 }

  /** A move trades places with the neighbour in its direction, and is refused exactly where there is none. */
  lemma MoveTradesPlaces(m: Memory, k: nat, up: bool)
    requires k < |m.pending| && DistinctIds(m.pending)
    ensures var moved, t := Q.Move(m, m.pending[k].id, up), Towards(k, up);
            && (moved.reply <==> 0 <= t < |m.pending|)
            && (!moved.reply ==> moved.mem == m)
            && (moved.reply ==>
                  && |moved.mem.pending| == |m.pending| && moved.mem == m.(pending := moved.mem.pending)
                  && moved.mem.pending[t] == m.pending[k] && moved.mem.pending[k] == m.pending[t]
                  && forall j :: 0 <= j < |m.pending| && j != k && j != t ==>
                       moved.mem.pending[j] == m.pending[j])
  {
    IndexOfDistinct(m.pending, k);
  }

  /** No entry has the id: no call that names one finds it. */
  lemma UnknownIdsFindNothing(m: Memory, id: nat, text: string, up: bool)
    requires forall k :: 0 <= k < |m.pending| ==> m.pending[k].id != id
    ensures !Q.Move(m, id, up).reply && Q.Move(m, id, up).mem == m
    ensures Q.Withdraw(m, id).reply == None && Q.Withdraw(m, id).mem == m
    ensures !Q.Edit(m, id, text).reply && !Q.Relane(m, id, text).reply
  {
    hide Trim;
  }

  /** Filtering goes entry by entry. */
  lemma {:induction false} SelectBehind(s: Entries, e: QueueEntry, kind: Kind)
    ensures Select(s + [e], kind) == Select(s, kind) + if Is(e, kind) then [e] else []
  {
    if s == [] {
      assert s + [e] == [e] && [e][1..] == [];
    } else {
      assert (s + [e])[1..] == s[1..] + [e];
      SelectBehind(s[1..], e, kind);
    }
  }

  /** Recovery turns every steer into a follow-up where it stands, touches nothing else, and replies their texts. */
  lemma RecoverDemotesSteers(m: Memory)
    ensures var done := Q.Recover(m);
            && |done.mem.pending| == |m.pending| && done.mem == m.(pending := done.mem.pending)
            && (forall k :: 0 <= k < |m.pending| ==>
                  done.mem.pending[k] ==
                    if m.pending[k].mode == Steer then m.pending[k].(mode := FollowUp) else m.pending[k])
            && done.reply == Texts(Select(m.pending, Steering))
  {
    if Select(m.pending, Steering) == [] {
      NothingSteers(m.pending);
      assert Texts([]) == [];
    }
    hide Select;
  }

  /** A drain replies the follow-ups as one injection, files them, leaves the steers, and touches nothing else. */
  lemma DrainTouchesEntriesOnly(m: Memory)
    ensures var drained := Q.Drain(m).mem;
            && drained == m.(pending := Select(m.pending, Steering), recent := drained.recent)
            && drained.recent == Filed(Select(m.pending, Following), Delivered, m.recent)
    ensures Q.Drain(m).reply == if Select(m.pending, Following) == [] then None
                                else Some(Injection(Texts(Select(m.pending, Following))))
  {
    if Select(m.pending, Following) == [] {
      AllSteer(m.pending);
    }
    hide Select, Texts, Injection, DrainWrites;
  }

  lemma {:induction false} AllSteer(s: Entries)
    requires Select(s, Following) == []
    ensures Select(s, Steering) == s
  {
    if s == [] {
    } else {
      AllSteer(s[1..]);
    }
  }

  /** An edit is accepted exactly for a pending id and a non-blank text, and then touches that text only. */
  lemma EditTouchesOneText(m: Memory, id: nat, text: string)
    requires DistinctIds(m.pending)
    ensures var edited := Q.Edit(m, id, text);
            && (edited.reply <==> Trim(text) != [] && exists k :: 0 <= k < |m.pending| && m.pending[k].id == id)
            && |edited.mem.pending| == |m.pending| && edited.mem == m.(pending := edited.mem.pending)
            && forall k :: 0 <= k < |m.pending| ==>
                 edited.mem.pending[k] == (
                   if edited.reply && m.pending[k].id == id then m.pending[k].(text := Trim(text)) else m.pending[k])
  {
    FirstIndexIsFirst(m.pending, ById(id), 0);
  }

  /** Reassigning a lane keeps order and every other field, and the lane view gains just that entry. */
  lemma RelaneTouchesOneLane(m: Memory, id: nat, lane: string)
    requires DistinctIds(m.pending)
    ensures var done := Q.Relane(m, id, lane);
            && (done.reply
                <==> (Trim(lane) != []
                      && exists k :: 0 <= k < |m.pending| && m.pending[k].id == id && m.pending[k].lane != Trim(lane)))
            && |done.mem.pending| == |m.pending| && done.mem == m.(pending := done.mem.pending)
            && forall k :: 0 <= k < |m.pending| ==>
                 done.mem.pending[k] ==
                   if m.pending[k].id == id && Trim(lane) != [] then m.pending[k].(lane := Trim(lane))
                   else m.pending[k]
  {
    FirstIndexIsFirst(m.pending, ById(id), 0);
    var k := FirstIndex(m.pending, ById(id), 0);
    if Trim(lane) != [] && k < |m.pending| {
      assert forall j :: 0 <= j < |m.pending| && m.pending[j].id == id ==> j == k;
    }
  }

  /** Withdrawing reaches any pending entry, keeps the others in order, and files it on top of the ledger. */
  lemma WithdrawTakesOut(m: Memory, k: nat)
    requires k < |m.pending| && DistinctIds(m.pending)
    ensures var e := m.pending[k];
            var w := Q.Withdraw(m, e.id);
            && w.reply == Some(e.text)
            && w.mem == m.(pending := m.pending[..k] + m.pending[k + 1..],
                           recent := OnTop(e.(state := Withdrawn), m.recent))
  {
    IndexOfDistinct(m.pending, k);
    OnTopOfLedger(m.pending[k].(state := Withdrawn), m.recent);
  }

  /** A pending steer with the text of the event. */
  predicate Announced(e: QueueEntry, text: string) { e.mode == Steer && e.state == Pending && e.text == text }

  /** A steer event claims the oldest pending steer with its text, or nothing when there is none. */
  lemma ClaimTakesOldest(m: Memory, text: string)
    ensures var c := Q.Claim(m, text);
            if c.reply then
              exists k: nat ::
                && k < |m.pending| && Announced(m.pending[k], text)
                && (forall j :: 0 <= j < k ==> !Announced(m.pending[j], text))
                && c.mem == m.(pending := m.pending[..k] + m.pending[k + 1..],
                               recent := OnTop(m.pending[k].(state := Delivered), m.recent))
            else c.mem == m && forall j :: 0 <= j < |m.pending| ==> !Announced(m.pending[j], text)
  {
    FirstIndexIsFirst(m.pending, SteerWith(text), 0);
    var k := FirstIndex(m.pending, SteerWith(text), 0);
    if k < |m.pending| {
      OnTopOfLedger(m.pending[k].(state := Delivered), m.recent);
      assert Announced(m.pending[k], text);
    }
  }

  lemma {:induction false} NoSteers(s: Entries)
    requires forall i :: 0 <= i < |s| ==> s[i].mode != Steer
    ensures Select(s, Steering) == [] && Select(s, Following) == s
  {
    if s == [] {
    } else {
      NoSteers(s[1..]);
    }
  }

  lemma {:induction false} NothingSteers(s: Entries)
    requires Select(s, Steering) == []
    ensures forall i :: 0 <= i < |s| ==> s[i].mode != Steer
  {
    if s == [] {
    } else {
      NothingSteers(s[1..]);
    }
  }

  /** Late steers ride the next injection: after recovery a drain empties the queue, in arrival order. */
  lemma RecoveredSteersAreDelivered(m: Memory)
    requires m.pending != []
    ensures var d := Q.Drain(Q.Recover(m).mem);
            d.mem.pending == [] && d.reply == Some(Injection(Texts(m.pending)))
    ensures Q.Recover(Q.Recover(m).mem).reply == []
  {
    var r := Q.Recover(m).mem;
    if Select(m.pending, Steering) == [] {
      NothingSteers(m.pending);
    }
    NoSteers(r.pending);
    assert Texts(r.pending) == Texts(m.pending);
  }

  // ----- the merged injection -----

  predicate PlainLine(s: string) { OneLine(s) && NoTrailingCr(s) }

  /** One numbered line per message. */
  function OnePerLine(messages: seq<string>, first: nat): seq<string> {
    if messages == [] then []
    else [Decimal(first) + ". " + messages[0]] + OnePerLine(messages[1..], first + 1)
  }

  /** The lines of each message, the first of them numbered. */
  function NumberedLines(messages: seq<string>, first: nat): seq<string> {
    if messages == [] then []
    else Lines(Decimal(first) + ". " + messages[0] + "\n") + NumberedLines(messages[1..], first + 1)
  }

  lemma {:induction false} OnePerLineAt(messages: seq<string>, first: nat, i: nat)
    requires i < |messages|
    ensures |OnePerLine(messages, first)| == |messages|
    ensures OnePerLine(messages, first)[i] == Decimal(first + i) + ". " + messages[i]
  {
    if i > 0 {
      OnePerLineAt(messages[1..], first + 1, i - 1);
    } else if |messages| > 1 {
      OnePerLineAt(messages[1..], first + 1, 0);
    }
  }

  lemma {:induction false} DecimalIsDigits(n: nat)
    ensures forall i :: 0 <= i < |Decimal(n)| ==> '0' <= Decimal(n)[i] <= '9'
  {
    if n >= 10 {
      DecimalIsDigits(n / 10);
    }
  }

  lemma NumberedIsOneLine(n: nat, message: string)
    ensures PlainLine(Decimal(n) + ". " + message) <==> PlainLine(message)
  {
    DecimalIsDigits(n);
    hide Decimal;
    var head, line := Decimal(n) + ". ", Decimal(n) + ". " + message;
    assert forall i :: 0 <= i < |message| ==> line[|head| + i] == message[i];
    assert forall i :: 0 <= i < |head| ==> line[i] == head[i];
  }

  /** A line end behind a text makes one line of it exactly if it is one. */
  lemma LinesOfOne(line: string)
    ensures Lines(line + "\n") != []
    ensures Lines(line + "\n") == [line] <==> PlainLine(line)
  {
    LinesAreNewlineFree(line + "\n");
    SomeLine(line + "\n");
    hide Lines;
    if '\n' !in line {
      LinesOfTerminated(line, []);
      LinesOfUnterminated([]);
      assert line + "\n" + [] == line + "\n" && [StripCr(line)] + [] == [StripCr(line)];
      assert [StripCr(line)] == [line] <==> StripCr(line) == line by {
        assert [StripCr(line)][0] == StripCr(line) && [line][0] == line;
      }
    } else {
      assert line in [line];
    }
  }

  lemma SomeLine(text: string)
    ensures text != [] ==> Lines(text) != []
  {
  }

  lemma {:induction false} LinesOfNumbered(messages: seq<string>, first: nat)
    ensures Lines(Numbered(messages, first)) == NumberedLines(messages, first)
  {
    if messages == [] {
      assert Lines([]) == [];
    } else {
      var line, rest := Decimal(first) + ". " + messages[0], Numbered(messages[1..], first + 1);
      assert Numbered(messages, first) == line + "\n" + rest;
      LinesOfNumbered(messages[1..], first + 1);
      hide Lines, Decimal;
      LinesBehind(line + "\n", rest);
    }
  }

  lemma {:induction false} NumberedLength(messages: seq<string>, first: nat)
    ensures |NumberedLines(messages, first)| >= |messages| == |OnePerLine(messages, first)|
  {
    hide Lines, Decimal;
    if messages == [] {
    } else {
      LinesOfOne(Decimal(first) + ". " + messages[0]);
      NumberedLength(messages[1..], first + 1);
    }
  }

  predicate AllOneLine(messages: seq<string>) { forall i :: 0 <= i < |messages| ==> PlainLine(messages[i]) }

  lemma {:induction false} NumberedOnePerLine(messages: seq<string>, first: nat)
    ensures NumberedLines(messages, first) == OnePerLine(messages, first) <==> AllOneLine(messages)
  {
    if messages == [] {
    } else {
      hide Lines, Decimal, OneLine;
      var line, rest := Decimal(first) + ". " + messages[0], messages[1..];
      var mine, later, plain := Lines(line + "\n"), NumberedLines(rest, first + 1), OnePerLine(rest, first + 1);
      NumberedOnePerLine(rest, first + 1);
      NumberedLength(rest, first + 1);
      LinesOfOne(line);
      NumberedIsOneLine(first, messages[0]);
      FirstLineAlone(mine, later, line, plain);
      assert AllOneLine(messages) <==> PlainLine(messages[0]) && AllOneLine(rest) by {
        assert forall i :: 1 <= i < |messages| ==> messages[i] == rest[i - 1];
      }
    }
  }

  lemma FirstLineAlone(mine: seq<string>, later: seq<string>, line: string, plain: seq<string>)
    requires mine != [] && |later| >= |plain|
    ensures mine + later == [line] + plain <==> mine == [line] && later == plain
  {
    if mine + later == [line] + plain {
      assert |mine| == 1;
      assert mine[0] == (mine + later)[0] && later == (mine + later)[1..] && plain == ([line] + plain)[1..];
    }
  }

  /**
   * Read back by lines, an injection is its header and the lines of the messages in order, the first line
   * of each numbered from 1; that is one line per message exactly if no message has a line break.
   */
  lemma InjectionLines(messages: seq<string>)
    ensures Lines(Injection(messages)) == ["[queued follow-ups, oldest first]"] + NumberedLines(messages, 1)
    ensures (Lines(Injection(messages)) == ["[queued follow-ups, oldest first]"] + OnePerLine(messages, 1)
             <==> AllOneLine(messages))
    ensures forall i :: 0 <= i < |messages| ==>
              |OnePerLine(messages, 1)| == |messages|
              && OnePerLine(messages, 1)[i] == Decimal(i + 1) + ". " + messages[i]
  {
    HeaderIsOneLine();
    LinesOfTerminated(INJECTION_HEADER, Numbered(messages, 1));
    LinesOfNumbered(messages, 1);
    NumberedOnePerLine(messages, 1);
    hide Lines, NumberedLines, OnePerLine, Numbered, AllOneLine, Decimal;
    FirstLineAlone([INJECTION_HEADER], NumberedLines(messages, 1), INJECTION_HEADER, NumberedLines(messages, 1));
    NumberedLength(messages, 1);
    FirstLineAlone([INJECTION_HEADER], NumberedLines(messages, 1), INJECTION_HEADER, OnePerLine(messages, 1));
    forall i | 0 <= i < |messages|
      ensures |OnePerLine(messages, 1)| == |messages|
              && OnePerLine(messages, 1)[i] == Decimal(i + 1) + ". " + messages[i]
    {
      OnePerLineAt(messages, 1, i);
    }
  }

  lemma HeaderIsOneLine()
    ensures PlainLine(INJECTION_HEADER) && StripCr(INJECTION_HEADER) == INJECTION_HEADER
  {
    assert INJECTION_HEADER[|INJECTION_HEADER| - 1] == ']';
    assert forall i :: 0 <= i < |INJECTION_HEADER| ==> INJECTION_HEADER[i] != '\n';
  }
}
