/** The codec is faithful, and the list in memory is what the file would be read as. */
module HistoryLaws {
  import opened Text
  import opened History

  // ----- the codec -----

  lemma EncodeCons(c: char, rest: string)
    ensures Encode([c] + rest) == EncodeChar(c) + Encode(rest)
  {
    assert ([c] + rest)[1..] == rest;
  }

  lemma DecodeCons(c: char, line: string)
    ensures c != '\\' ==> Decode([c] + line) == [c] + Decode(line)
    ensures Decode("\\n" + line) == "\n" + Decode(line)
    ensures Decode("\\\\" + line) == "\\" + Decode(line)
    ensures c != 'n' && c != '\\' ==> Decode("\\" + [c] + line) == "\\" + [c] + Decode(line)
  {
    assert ([c] + line)[1..] == line;
    assert ("\\n" + line)[2..] == line && ("\\\\" + line)[2..] == line && ("\\" + [c] + line)[2..] == line;
  }

  lemma {:induction false} CodecRoundTrip(text: string)
    ensures Decode(Encode(text)) == text && '\n' !in Encode(text)
  {
    if text == [] {
    } else {
      CodecRoundTrip(text[1..]);
      var c, rest := text[0], Encode(text[1..]);
      DecodeCons(c, rest);
      hide Decode;
      assert [c] + text[1..] == text;
    }
  }

  /** No two texts are written as the same line. */
  lemma EncodeIsInjective(a: string, b: string)
    ensures Encode(a) == Encode(b) <==> a == b
  {
    CodecRoundTrip(a);
    CodecRoundTrip(b);
  }

  /** An encoded line ends in what the text ends in. */
  lemma {:induction false} EncodeEnd(text: string)
    requires text != []
    ensures Encode(text) != []
    ensures text[|text| - 1] != '\r' && text[|text| - 1] != '\n' ==>
              Encode(text)[|Encode(text)| - 1] == text[|text| - 1]
  {
    var rest := text[1..];
    if rest == [] {
      assert Encode(text) == EncodeChar(text[0]) by { assert EncodeChar(text[0]) + [] == EncodeChar(text[0]); }
    } else {
      EncodeEnd(rest);
    }
  }

  /** Which texts are written as a line the reader skips. */
  predicate LooksLikeSeparator(text: string) { text == "*" || text == "+" || (text != [] && text[0] == '#') }

  lemma SeparatorsWritten(text: string)
    requires text != []
    ensures Separator(Encode(text)) <==> LooksLikeSeparator(text)
  {
    EncodeEnd(text);
    var rest := text[1..];
    assert text == [text[0]] + rest;
    EncodeCons(text[0], rest);
    if rest != [] {
      EncodeEnd(rest);
      assert |Encode(text)| >= 2;
    } else {
      assert EncodeChar(text[0]) + [] == EncodeChar(text[0]);
    }
  }

  // ----- a line behind another -----

  /** A backslash in front of an encoded text never leaves the text. */
  lemma {:induction false} EscapedOther(text: string)
    ensures Decode("\\" + Encode(text)) != text && |Decode("\\" + Encode(text))| >= |text|
  {
    if text == [] {
      assert "\\" + Encode(text) == "\\";
    } else {
      hide *;
      var c, rest := text[0], text[1..];
      assert text == [c] + rest;
      EncodeCons(c, rest);
      if c == '\\' {
        EscapedOther(rest);
      }
      EscapedMore(c, rest);
    }
  }

  lemma EscapedMore(c: char, rest: string)
    requires c == '\\' ==> Decode("\\" + Encode(rest)) != rest && |Decode("\\" + Encode(rest))| >= |rest|
    ensures var read := Decode("\\" + (EncodeChar(c) + Encode(rest)));
            read != [c] + rest && |read| >= |rest| + 1
  {
    hide Encode, Decode;
    CodecRoundTrip(rest);
    if c == '\\' {
      EscapedBackslash(Encode(rest));
      TailsDiffer('\\', Decode("\\" + Encode(rest)), rest);
    } else if c == '\n' {
      EscapedNewline(Encode(rest));
    } else if c == 'n' {
      EscapedLetter(Encode(rest));
      HeadsDiffer('\n', c, rest);
    } else {
      Assoc("\\", [c], Encode(rest));
      DecodeCons(c, Encode(rest));
    }
  }

  lemma TailsDiffer(c: char, a: string, b: string)
    requires a != b
    ensures [c] + a != [c] + b
  {
    assert ([c] + a)[1..] == a && ([c] + b)[1..] == b;
  }

  lemma HeadsDiffer(c: char, d: char, rest: string)
    requires c != d
    ensures [c] + rest != [d] + rest
  {
    assert ([c] + rest)[0] == c && ([d] + rest)[0] == d;
  }

  lemma EscapedBackslash(e: string)
    ensures Decode("\\" + ("\\\\" + e)) == "\\" + Decode("\\" + e)
  {
    hide Decode;
    assert "\\" + ("\\\\" + e) == "\\\\" + ("\\" + e);
    DecodeCons('n', "\\" + e);
  }

  lemma EscapedNewline(e: string)
    ensures Decode("\\" + ("\\n" + e)) == "\\" + ("n" + Decode(e))
  {
    hide Decode;
    assert "\\" + ("\\n" + e) == "\\\\" + ("n" + e);
    DecodeCons('n', "n" + e);
    DecodeCons('n', e);
  }

  lemma EscapedLetter(e: string)
    ensures Decode("\\" + ("n" + e)) == "\n" + Decode(e)
  {
    hide Decode;
    assert "\\" + ("n" + e) == "\\n" + e;
    DecodeCons('n', e);
  }

  /** Whatever stands on the line already, an entry appended to it is not read back. */
  lemma {:induction false} GluedIsLost(line: string, text: string)
    requires line != []
    ensures Decode(line + Encode(text)) != text && |Decode(line + Encode(text))| >= |text|
    decreases |line|
  {
    var e := Encode(text);
    if line == "\\" {
      EscapedOther(text);
    } else {
      var n := if line[0] == '\\' then 2 else 1;
      var rest := line[n..];
      assert (line + e)[n..] == rest + e;
      if rest == [] {
        CodecRoundTrip(text);
        assert rest + e == e;
      } else {
        GluedIsLost(rest, text);
      }
      hide Encode;
      assert |Decode(line + e)| >= 1 + |Decode(rest + e)|;
    }
  }

  // ----- reading a file that grew -----

  lemma {:induction false} LineAlone(line: string)
    requires '\n' !in line
    ensures Lines(line + "\n") == [StripCr(line)]
  {
    LinesOfTerminated(line, []);
    LinesOfUnterminated([]);
    assert line + "\n" + [] == line + "\n";
  }

  /** The end of an entry as it is recorded. */
  predicate Recordable(text: string) { text != [] && !IsWhitespace(text[|text| - 1]) }

  lemma NoCrAtEnd(text: string)
    requires Recordable(text)
    ensures Encode(text) != [] && NoTrailingCr(Encode(text)) && TrimCrs(Encode(text)) == Encode(text)
  {
    EncodeEnd(text);
    assert text[|text| - 1] != '\r' && text[|text| - 1] != '\n';
  }

  function AppendedEntries(text: string): seq<string> { if LooksLikeSeparator(text) then [] else [text] }

  /** A line appended to an ended file is read as one more entry, unless it looks like a separator. */
  lemma AppendReads(file: string, text: string)
    requires Ended(file) && Recordable(text)
    ensures AllEntries(Lines(file + (Encode(text) + "\n"))) == AllEntries(Lines(file)) + AppendedEntries(text)
  {
    var line := Encode(text);
    CodecRoundTrip(text);
    NoCrAtEnd(text);
    SeparatorsWritten(text);
    hide Lines, AllEntries, Encode, Decode;
    LinesBehind(file, line + "\n");
    LineAlone(line);
    EntriesConcat(Lines(file), [line]);
    EntriesOfOne(line);
  }

  /** Behind an unended last line it is not. */
  lemma GluedReads(file: string, text: string) returns (before: seq<string>, was: seq<string>, now: seq<string>)
    requires !Ended(file) && Recordable(text)
    ensures AllEntries(Lines(file)) == before + was && |was| <= 1 && |now| <= 1
    ensures AllEntries(Lines(file + (Encode(text) + "\n"))) == before + now
    ensures now == [] ==> was == []
    ensures now != [] ==> now[0] != text
  {
    var base, last := LastLine(file);
    var line := last + Encode(text);
    CodecRoundTrip(text);
    NoCrAtEnd(text);
    GluedIsLost(last, text);
    GluedSeparators(last, text);
    hide Lines, AllEntries, Encode, Decode;
    assert NoTrailingCr(line) by { assert line[|line| - 1] == Encode(text)[|Encode(text)| - 1]; }
    Assoc(base, last, Encode(text) + "\n");
    Assoc(last, Encode(text), "\n");
    LinesBehind(base, last);
    LinesOfUnterminated(last);
    LinesBehind(base, line + "\n");
    LineAlone(line);
    EntriesConcat(Lines(base), [last]);
    EntriesConcat(Lines(base), [line]);
    EntriesOfOne(last);
    EntriesOfOne(line);
    before, was, now := AllEntries(Lines(base)), EntriesOf(last), EntriesOf(line);
    assert TrimCrs(line) == line;
  }

  lemma {:induction false} LastLine(file: string) returns (base: string, last: string)
    requires !Ended(file)
    ensures file == base + last && Ended(base) && last != [] && '\n' !in last
  {
    var n := |file| - 1;
    if n == 0 || file[n - 1] == '\n' {
      base, last := file[..n], file[n..];
    } else {
      base, last := LastLine(file[..n]);
      last := last + [file[n]];
    }
  }

  /** A line longer than a separator mark is skipped only for its `#`, which its beginning already had. */
  lemma GluedSeparators(last: string, text: string)
    requires last != [] && Recordable(text)
    ensures Separator(last + Encode(text)) ==> EntriesOf(last) == []
  {
    NoCrAtEnd(text);
    var line := last + Encode(text);
    assert |line| >= 2 && line[0] == last[0];
    hide Encode, Decode;
    if last[0] == '#' {
      HashStays(last);
    }
  }

  lemma {:induction false} HashStays(line: string)
    requires line != [] && line[0] == '#'
    ensures TrimCrs(line) != [] && TrimCrs(line)[0] == '#'
  {
    if line[|line| - 1] == '\r' {
      HashStays(line[..|line| - 1]);
    }
  }

  // ----- memory and file -----

  /** Read now, the file would give the list in memory. */
  ghost predicate Agrees(s: Shelf) { s.entries == DecodeFile(s.file, HISTORY_MAX) }

  /** The submission reaches memory and file alike. */
  predicate Faithful(s: Shelf, text: string, written: bool) {
    Recorded(s.entries, text) ==> written && Ended(s.file) && !LooksLikeSeparator(TrimEnd(text))
  }

  lemma NewestOfMore<T>(all: seq<T>, more: seq<T>, max: nat)
    requires max > 0 && |more| <= 1
    ensures Newest(Newest(all, max) + more, max) == Newest(all + more, max)
  {
  }

  lemma NewestEnds<T>(all: seq<T>, x: T, max: nat)
    requires max > 0
    ensures var s := Newest(all + [x], max); s != [] && s[|s| - 1] == x
  {
  }

  lemma RecordedEnds(entries: seq<string>, text: string)
    requires Recorded(entries, text)
    ensures Recordable(TrimEnd(text))
    ensures entries != [] ==> entries[|entries| - 1] != TrimEnd(text)
  {
    var k := TrimEndCuts(text);
  }

  /** A submission keeps memory and file in agreement exactly if it is faithful. */
  lemma PushAgreement(s: Shelf, text: string, written: bool)
    requires Agrees(s)
    ensures Agrees(Pushed(s, text, written)) <==> Faithful(s, text, written)
  {
    if Recorded(s.entries, text) {
      RecordedEnds(s.entries, text);
      hide Lines, Encode, AllEntries, TrimEnd, Newest;
      var t, after := TrimEnd(text), Pushed(s, text, written);
      var all := AllEntries(Lines(s.file));
      NewestEnds(s.entries, t, HISTORY_MAX);
      NewestOfMore(all, [t], HISTORY_MAX);
      if written && Ended(s.file) {
        AppendReads(s.file, t);
        assert all + [] == all;
      } else if written {
        var before, was, now := GluedReads(s.file, t);
        if now != [] {
          NewestEnds(before, now[0], HISTORY_MAX);
          assert now == [now[0]];
        } else {
          assert before + was == before + now;
        }
      }
    }
  }

  // ----- runs -----

  datatype Action = Push(text: string, written: bool) | Prev | Next

  function Acted(s: Shelf, a: Action): Shelf {
    match a
    case Push(text, written) => Pushed(s, text, written)
    case Prev => s.(cursor := if s.entries == [] || s.cursor == 0 then s.cursor else s.cursor - 1)
    case Next => s.(cursor := if s.cursor < |s.entries| then s.cursor + 1 else s.cursor)
  }

  /** A history loaded from a file, after the actions. */
  function After(file: string, actions: seq<Action>): Shelf {
    if actions == [] then
      var entries := DecodeFile(file, HISTORY_MAX);
      Shelf(entries, |entries|, file)
    else Acted(After(file, actions[..|actions| - 1]), actions[|actions| - 1])
  }

  lemma AfterNext(file: string, actions: seq<Action>, n: nat)
    requires n < |actions|
    ensures After(file, actions[..n + 1]) == Acted(After(file, actions[..n]), actions[n])
  {
    hide Acted;
    assert actions[..n + 1][..n] == actions[..n];
  }

  predicate FaithfulAction(s: Shelf, a: Action) { a.Push? ==> Faithful(s, a.text, a.written) }

  lemma ActionAgreement(s: Shelf, a: Action)
    requires Agrees(s)
    ensures Agrees(Acted(s, a)) <==> FaithfulAction(s, a)
  {
    hide Agrees, Faithful, Pushed;
    if a.Push? {
      PushAgreement(s, a.text, a.written);
    } else {
      CursorOnly(s, a);
    }
  }

  lemma CursorOnly(s: Shelf, a: Action)
    requires !a.Push?
    ensures Agrees(Acted(s, a)) <==> Agrees(s)
  {
    hide Lines, AllEntries;
  }

  lemma LoadedAgrees(file: string, actions: seq<Action>)
    ensures Agrees(After(file, actions[..0]))
  {
    hide Lines, AllEntries, Acted;
  }

  lemma {:induction false} FaithfulRunAgrees(file: string, actions: seq<Action>, n: nat)
    requires n <= |actions|
    requires forall i :: 0 <= i < n ==> FaithfulAction(After(file, actions[..i]), actions[i])
    ensures Agrees(After(file, actions[..n]))
  {
    hide *;
    if n == 0 {
      LoadedAgrees(file, actions);
    } else {
      FaithfulRunAgrees(file, actions, n - 1);
      AfterNext(file, actions, n - 1);
      ActionAgreement(After(file, actions[..n - 1]), actions[n - 1]);
    }
  }

  ghost predicate AgreesAt(file: string, actions: seq<Action>, n: nat)
    requires n <= |actions|
  {
    Agrees(After(file, actions[..n]))
  }

  /**
   * Memory and file agree all along a run, from whatever file it was loaded, exactly if every
   * recorded submission was written, onto a fresh line, and does not look like a separator.
   */
  lemma HistoryAgreement(file: string, actions: seq<Action>)
    ensures (forall n :: 0 <= n <= |actions| ==> AgreesAt(file, actions, n))
       <==> (forall i :: 0 <= i < |actions| ==> FaithfulAction(After(file, actions[..i]), actions[i]))
  {
    hide After, Acted, Agrees, FaithfulAction;
    if forall n :: 0 <= n <= |actions| ==> AgreesAt(file, actions, n) {
      forall i | 0 <= i < |actions| ensures FaithfulAction(After(file, actions[..i]), actions[i]) {
        assert AgreesAt(file, actions, i) && AgreesAt(file, actions, i + 1);
        AfterNext(file, actions, i);
        ActionAgreement(After(file, actions[..i]), actions[i]);
      }
    }
    if forall i :: 0 <= i < |actions| ==> FaithfulAction(After(file, actions[..i]), actions[i]) {
      forall n | 0 <= n <= |actions| ensures AgreesAt(file, actions, n) { FaithfulRunAgrees(file, actions, n); }
    }
  }

  /** The cursor stays within the list and the list within its cap; an ended file stays ended. */
  lemma {:induction false} RunKeepsCursor(file: string, actions: seq<Action>)
    ensures var s := After(file, actions);
            s.cursor <= |s.entries| <= HISTORY_MAX && (Ended(file) ==> Ended(s.file))
  {
    hide Lines, AllEntries, TrimEnd, Encode;
    if actions == [] {
    } else {
      RunKeepsCursor(file, actions[..|actions| - 1]);
    }
  }

  // ----- what is kept, spelled out -----

  /** Whatever a text ends in, `kept` is left when blank space is taken off its end. */
  predicate KeptOf(text: string, kept: string, blank: string) {
    text == kept + blank && AllWhitespace(blank) && (kept != [] ==> !IsWhitespace(kept[|kept| - 1]))
  }

  /**
   * A submission is dropped exactly if nothing is left of it or it repeats the newest entry; the cursor then
   * goes behind the list. Otherwise it becomes the newest of at most 500 entries and, where the file can be
   * written, a line of its own at the end of it.
   */
  lemma SubmissionIsKept(s: Shelf, text: string, kept: string, blank: string, written: bool)
    requires KeptOf(text, kept, blank)
    ensures var after := Pushed(s, text, written);
            if kept == [] || (s.entries != [] && s.entries[|s.entries| - 1] == kept) then
              after == s.(cursor := |s.entries|)
            else
              && after.entries == (if |s.entries| < 500 then s.entries else s.entries[|s.entries| - 499..]) + [kept]
              && after.cursor == |after.entries|
              && after.file == if written then s.file + Encode(kept) + "\n" else s.file
  {
    TrimEndOf(kept, blank);
    hide TrimEnd, Encode, IsWhitespace;
    Assoc(s.file, Encode(kept), "\n");
    var all := s.entries + [kept];
    if |s.entries| >= 500 {
      assert all[|all| - 500..] == s.entries[|s.entries| - 499..] + [kept];
    }
  }

  lemma {:induction false} TrimCrsOf(kept: string, n: nat)
    requires NoTrailingCr(kept)
    ensures TrimCrs(kept + Repeated('\r', n)) == kept
  {
    if n == 0 {
      assert kept + [] == kept;
    } else {
      var line := kept + Repeated('\r', n);
      assert line[..|line| - 1] == kept + Repeated('\r', n - 1);
      TrimCrsOf(kept, n - 1);
    }
  }

  function Repeated(c: char, n: nat): (s: string)
    ensures |s| == n && forall i :: 0 <= i < n ==> s[i] == c
  {
    if n == 0 then [] else Repeated(c, n - 1) + [c]
  }

  /** A line of the file is an entry unless, carriage returns at its end aside, it is empty, `*`, `+` or a comment. */
  lemma LineIsRead(kept: string, n: nat)
    requires NoTrailingCr(kept)
    ensures AllEntries([kept + Repeated('\r', n)]) ==
            if kept == "" || kept == "*" || kept == "+" || kept[0] == '#' then [] else [Decode(kept)]
  {
    TrimCrsOf(kept, n);
    EntriesOfOne(kept + Repeated('\r', n));
    hide TrimCrs, Decode;
  }

  /** Only newlines and backslashes are spelled differently in a line: by a backslash, and `n` or another one. */
  lemma {:induction false} EncodeSpells(a: string, b: string)
    ensures Encode(a + b) == Encode(a) + Encode(b)
    ensures '\n' !in a && '\\' !in a ==> Encode(a) == a
    ensures Encode("\n") == "\\n" && Encode("\\") == "\\\\"
  {
    assert "\n"[1..] == [] && "\\"[1..] == [];
    hide EncodeChar;
    if a == [] {
      assert a + b == b && [] + Encode(b) == Encode(b);
    } else {
      EncodeSpells(a[1..], b);
      assert (a + b)[1..] == a[1..] + b && (a + b)[0] == a[0];
      Assoc(EncodeChar(a[0]), Encode(a[1..]), Encode(b));
      PlainCharacterSpelled(a[0]);
      assert a == [a[0]] + a[1..];
    }
  }

  lemma PlainCharacterSpelled(c: char)
    ensures c != '\n' && c != '\\' ==> EncodeChar(c) == [c]
  {
  }

  /** Read back, a backslash in front of any other character, or at the end of the line, stays as it is. */
  lemma OtherEscapesStay(c: char, line: string)
    requires c != 'n' && c != '\\'
    ensures Decode("\\" + [c] + line) == "\\" + [c] + Decode(line) && Decode("\\") == "\\"
  {
    DecodeCons(c, line);
  }
}
