/** The prompt history: a line codec, a capped list with a cursor, and the file behind it. */
module History {
  import opened Text

  const HISTORY_MAX := 500

  // ----- the codec -----

  function EncodeChar(c: char): string {
    if c == '\\' then "\\\\" else if c == '\n' then "\\n" else [c]
  }

  function Encode(text: string): string {
    if text == [] then [] else EncodeChar(text[0]) + Encode(text[1..])
  }

  /** A backslash hides the next character: `n` is a newline, another backslash itself, all else both. */
  function Decode(line: string): string {
    if line == [] then []
    else if line[0] != '\\' then [line[0]] + Decode(line[1..])
    else if |line| == 1 then "\\"
    else if line[1] == 'n' then "\n" + Decode(line[2..])
    else if line[1] == '\\' then "\\" + Decode(line[2..])
    else "\\" + [line[1]] + Decode(line[2..])
  }

  method EncodeHistoryLine(text: string) returns (out: string)
    ensures out == Encode(text)
  {
    hide EncodeChar;
    out := [];
    for i := 0 to |text|
      invariant out + Encode(text[i..]) == Encode(text)
    {
      var ch := text[i];
      assert text[i..][1..] == text[i + 1..];
      Assoc(out, EncodeChar(ch), Encode(text[i + 1..]));
      out := out + EncodeChar(ch);
    }
    assert text[|text|..] == [] && out + [] == out;
  }

  method DecodeHistoryLine(line: string) returns (out: string)
    ensures out == Decode(line)
  {
    out := [];
    var i := 0;
    while i < |line|
      invariant 0 <= i <= |line| && out + Decode(line[i..]) == Decode(line)
    {
      var step, width := DecodeStep(line[i..]);
      ghost var rest := line[i..][width..];
      assert rest == line[i + width..];
      Assoc(out, step, Decode(rest));
      out := out + step;
      i := i + width;
    }
    assert line[|line|..] == [] && out + [] == out;
  }

  /** One round of the decoder: what it adds, and how many characters it took. */
  method DecodeStep(line: string) returns (step: string, width: nat)
    requires line != []
    ensures 0 < width <= |line| && Decode(line) == step + Decode(line[width..])
  {
    if line[0] != '\\' {
      return [line[0]], 1;
    }
    if |line| == 1 {
      assert line[1..] == [] && "\\" + [] == "\\";
      return "\\", 1;
    }
    if line[1] == 'n' {
      return "\n", 2;
    }
    if line[1] == '\\' {
      return "\\", 2;
    }
    return "\\" + [line[1]], 2;
  }

  // ----- reading the file -----

  function TrimCrs(line: string): string {
    if line != [] && line[|line| - 1] == '\r' then TrimCrs(line[..|line| - 1]) else line
  }

  /** Blank lines and the separators of an older format. */
  predicate Separator(line: string) {
    line == [] || line == "*" || line == "+" || line[0] == '#'
  }

  function EntriesOf(line: string): seq<string> {
    if Separator(TrimCrs(line)) then [] else [Decode(TrimCrs(line))]
  }

  function AllEntries(lines: seq<string>): seq<string> {
    if lines == [] then [] else EntriesOf(lines[0]) + AllEntries(lines[1..])
  }

  /** The newest `max` of a list. */
  function Newest<T>(all: seq<T>, max: nat): seq<T> {
    if |all| > max then all[|all| - max..] else all
  }

  function DecodeFile(raw: string, max: nat): seq<string> { Newest(AllEntries(Lines(raw)), max) }

  lemma {:induction false} EntriesConcat(a: seq<string>, b: seq<string>)
    ensures AllEntries(a + b) == AllEntries(a) + AllEntries(b)
  {
    hide EntriesOf;
    if a == [] {
      assert a + b == b && [] + AllEntries(b) == AllEntries(b);
    } else {
      EntriesConcat(a[1..], b);
      assert (a + b)[1..] == a[1..] + b;
      Assoc(EntriesOf(a[0]), AllEntries(a[1..]), AllEntries(b));
    }
  }

  lemma EntriesOfOne(line: string)
    ensures AllEntries([line]) == EntriesOf(line)
  {
    hide EntriesOf;
    assert [line][1..] == [];
    assert EntriesOf(line) + [] == EntriesOf(line);
  }

  method DecodeHistory(raw: string, max: nat) returns (entries: seq<string>)
    ensures entries == DecodeFile(raw, max)
  {
    hide Lines, Decode, AllEntries;
    var lines := Lines(raw);
    entries := [];
    assert AllEntries(lines[..0]) == [] by { NoLines(lines[..0]); }
    for i := 0 to |lines|
      invariant entries == AllEntries(lines[..i])
    {
      assert lines[..i + 1] == lines[..i] + [lines[i]];
      EntriesConcat(lines[..i], [lines[i]]);
      EntriesOfOne(lines[i]);
      var line := TrimCrs(lines[i]);
      if line == [] || line == "*" || line == "+" || line[0] == '#' {
        assert AllEntries(lines[..i]) + [] == AllEntries(lines[..i]);
        continue;
      }
      var entry := DecodeHistoryLine(line);
      entries := entries + [entry];
    }
    assert lines[..|lines|] == lines;
    if |entries| > max {
      entries := entries[|entries| - max..];
    }
  }

  lemma NoLines(lines: seq<string>)
    requires lines == []
    ensures AllEntries(lines) == []
  {
  }

  // ----- the list with its file -----

  datatype Shelf = Shelf(entries: seq<string>, cursor: nat, file: string)

  /** The submission is recorded: not blank, and not the newest entry again. */
  predicate Recorded(entries: seq<string>, text: string) {
    TrimEnd(text) != [] && !(entries != [] && entries[|entries| - 1] == TrimEnd(text))
  }

  /** A submission; `written`: there is a file, and it could be appended to. */
  function Pushed(s: Shelf, text: string, written: bool): Shelf {
    if !Recorded(s.entries, text) then s.(cursor := |s.entries|)
    else
      var entries := Newest(s.entries + [TrimEnd(text)], HISTORY_MAX);
      Shelf(entries, |entries|, if written then s.file + (Encode(TrimEnd(text)) + "\n") else s.file)
  }

  class PromptHistory {
    var entries: seq<string>
    var cursor: nat

    ghost predicate Valid() reads this { cursor <= |entries| <= HISTORY_MAX }

    constructor Load(raw: Option<string>)
      ensures Valid() && cursor == |entries|
      ensures entries == if raw.None? then [] else DecodeFile(raw.value, HISTORY_MAX)
    {
      var read: seq<string> := [];
      if raw.Some? {
        read := DecodeHistory(raw.value, HISTORY_MAX);
      }
      entries := read;
      cursor := |read|;
    }

    /** Towards older entries, stopping at the oldest. */
    method Prev() returns (entry: Option<string>)
      requires Valid()
      modifies this`cursor
      ensures Valid() && cursor == if entries == [] || old(cursor) == 0 then old(cursor) else old(cursor) - 1
      ensures entry == if entries == [] then None
                       else if cursor < |entries| then Some(entries[cursor]) else None
      ensures entries != [] ==> entry.Some?
    {
      if entries == [] {
        return None;
      }
      if cursor > 0 {
        cursor := cursor - 1;
      }
      entry := if cursor < |entries| then Some(entries[cursor]) else None;
    }

    /** Towards newer entries; past the newest stands the draft. */
    method Next() returns (entry: Option<string>)
      requires Valid()
      modifies this`cursor
      ensures Valid() && cursor == if old(cursor) < |entries| then old(cursor) + 1 else old(cursor)
      ensures entry == if cursor < |entries| then Some(entries[cursor]) else None
    {
      if cursor >= |entries| {
        return None;
      }
      cursor := cursor + 1;
      entry := if cursor < |entries| then Some(entries[cursor]) else None;
    }

    method Push(file: string, writable: bool, text: string) returns (after: string)
      requires Valid()
      modifies this
      ensures Valid() && Shelf(entries, cursor, after) == Pushed(old(Shelf(entries, cursor, file)), text, writable)
    {
      hide TrimEnd, Encode;
      after := file;
      var trimmed := TrimEnd(text);
      if trimmed == [] || (entries != [] && entries[|entries| - 1] == trimmed) {
        cursor := |entries|;
        return;
      }
      if writable {
        var line := EncodeHistoryLine(trimmed);
        after := file + (line + "\n");
      }
      entries := entries + [trimmed];
      if |entries| > HISTORY_MAX {
        var excess := |entries| - HISTORY_MAX;
        entries := entries[excess..];
      }
      cursor := |entries|;
    }
  }
}
