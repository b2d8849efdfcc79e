/** Field extraction from one frame of a server-sent event stream. */
module SseFields {
  import opened Text

  datatype Frame = Frame(event: Option<string>, data: string)

  const EVENT := "event:"
  const DATA := "data:"

  /** The name on the last `event:` line, and the values of the `data:` lines in order. */
  function LastEvent(lines: seq<string>): Option<string> {
    if lines == [] then None
    else
      var line := lines[|lines| - 1];
      if EVENT <= line then Some(Trim(line[|EVENT|..])) else LastEvent(lines[..|lines| - 1])
  }

  function DataLines(lines: seq<string>): seq<string> {
    if lines == [] then []
    else
      var line := lines[|lines| - 1];
      DataLines(lines[..|lines| - 1]) + if DATA <= line then [TrimStart(line[|DATA|..])] else []
  }

  function Fields(frame: string): Frame {
    var lines := Lines(Trim(frame));
    Frame(LastEvent(lines), Join(DataLines(lines), "\n"))
  }

  method ParseFrame(frame: string) returns (fields: Frame)
    ensures fields == Fields(frame)
  {
    var trimmed := Trim(frame);
    if trimmed == [] {
      return Frame(None, []);
    }
    var lines := Lines(trimmed);
    var event, data := None, [];
    for i := 0 to |lines|
      invariant event == LastEvent(lines[..i]) && data == DataLines(lines[..i])
    {
      var line := lines[i];
      assert lines[..i + 1][..i] == lines[..i];
      KindsDiffer(line);
      if line != [] && line[0] == ':' {
        assert data + [] == data;
        continue;
      }
      if EVENT <= line {
        event := Some(Trim(line[|EVENT|..]));
        assert data + [] == data;
        continue;
      }
      if DATA <= line {
        data := data + [TrimStart(line[|DATA|..])];
      } else {
        assert data + [] == data;
      }
    }
    assert lines[..|lines|] == lines;
    fields := Frame(event, Join(data, "\n"));
  }

  lemma KindsDiffer(line: string)
    ensures line != [] && line[0] == ':' ==> !(EVENT <= line) && !(DATA <= line)
    ensures EVENT <= line ==> !(DATA <= line)
  {
    assert EVENT[0] == 'e' && DATA[0] == 'd';
  }

  // ----- what a sender gets through -----

  /** A line of a frame: a name, a data value, or a line the parser has no use for, a comment or another field. */
  datatype Field = Name(text: string) | Data(text: string) | Ignored(line: string)

  function FieldLine(field: Field): string {
    match field
    case Name(text) => EVENT + text
    case Data(text) => DATA + text
    case Ignored(line) => line
  }

  function FieldLines(fields: seq<Field>): (lines: seq<string>)
    ensures |lines| == |fields| && forall i :: 0 <= i < |fields| ==> lines[i] == FieldLine(fields[i])
  {
    seq(|fields|, i requires 0 <= i < |fields| => FieldLine(fields[i]))
  }

  /** An ignored line holds no name and no data, and starts in text. */
  predicate Proper(field: Field) {
    field.Ignored? ==>
      && field.line != [] && !IsWhitespace(field.line[0])
      && !(EVENT <= field.line) && !(DATA <= field.line)
  }

  ghost predicate ProperEach(fields: seq<Field>) { forall i :: 0 <= i < |fields| ==> Proper(fields[i]) }

  ghost predicate OneLineEach(s: seq<string>) { forall i :: 0 <= i < |s| ==> OneLine(s[i]) }

  /** What fits on the lines of a frame. */
  ghost predicate Sendable(fields: seq<Field>) { ProperEach(fields) && OneLineEach(FieldLines(fields)) }

  function LastName(fields: seq<Field>): Option<string> {
    if fields == [] then None
    else
      var field := fields[|fields| - 1];
      if field.Name? then Some(field.text) else LastName(fields[..|fields| - 1])
  }

  function Values(fields: seq<Field>): seq<string> {
    if fields == [] then []
    else
      var field := fields[|fields| - 1];
      Values(fields[..|fields| - 1]) + if field.Data? then [field.text] else []
  }

  function TrimmedName(name: Option<string>): Option<string> {
    if name.Some? then Some(Trim(name.value)) else None
  }

  /** What is left of a line in the frame: the frame is trimmed at its end, and line ends may be CRLF. */
  function Arrived(line: string, last: bool): string { if last then TrimEnd(line) else StripCr(line) }

  function ArrivedAll(lines: seq<string>): (r: seq<string>)
    ensures |r| == |lines| && forall i :: 0 <= i < |r| ==> r[i] == Arrived(lines[i], i + 1 == |lines|)
  {
    seq(|lines|, i requires 0 <= i < |lines| => Arrived(lines[i], i + 1 == |lines|))
  }

  function ArrivedField(field: Field, last: bool): Field {
    match field
    case Name(text) => Name(Arrived(text, last))
    case Data(text) => Data(Arrived(text, last))
    case Ignored(line) => Ignored(Arrived(line, last))
  }

  function ArrivedFields(fields: seq<Field>): (r: seq<Field>)
    ensures |r| == |fields| && forall i :: 0 <= i < |r| ==> r[i] == ArrivedField(fields[i], i + 1 == |fields|)
  {
    seq(|fields|, i requires 0 <= i < |fields| => ArrivedField(fields[i], i + 1 == |fields|))
  }

  function Starts(values: seq<string>): (r: seq<string>)
    ensures |r| == |values| && forall i :: 0 <= i < |r| ==> r[i] == TrimStart(values[i])
  {
    seq(|values|, i requires 0 <= i < |values| => TrimStart(values[i]))
  }

  lemma StartsLast(values: seq<string>, value: string)
    ensures Starts(values + [value]) == Starts(values) + [TrimStart(value)]
  {
    hide TrimStart;
  }

  lemma FieldLinesInit(fields: seq<Field>)
    requires fields != []
    ensures FieldLines(fields)[..|fields| - 1] == FieldLines(fields[..|fields| - 1])
  {
    hide FieldLine;
  }

  /** What the parser collects from the lines of a frame. */
  lemma {:induction false} LinesCollected(fields: seq<Field>)
    requires ProperEach(fields)
    ensures LastEvent(FieldLines(fields)) == TrimmedName(LastName(fields))
    ensures DataLines(FieldLines(fields)) == Starts(Values(fields))
  {
    if fields == [] {
      assert FieldLines([]) == [];
    } else {
      var init, last := fields[..|fields| - 1], fields[|fields| - 1];
      var line := FieldLine(last);
      hide Trim, TrimStart, IsWhitespace;
      LinesCollected(init);
      FieldLinesInit(fields);
      KindsDiffer(line);
      assert Proper(last);
      if last.Data? {
        StartsLast(Values(init), last.text);
        assert line[|DATA|..] == last.text;
      } else {
        assert Values(init) + [] == Values(init);
        assert DataLines(FieldLines(init)) + [] == DataLines(FieldLines(init));
        if last.Name? {
          assert line[|EVENT|..] == last.text;
        }
      }
    }
  }

  // ----- the lines that arrive -----

  lemma TrimEndBehind(head: string, last: string)
    requires TrimEnd(last) != []
    ensures TrimEnd(head + last) == head + TrimEnd(last)
  {
    var k := TrimEndCuts(last);
    hide TrimEnd;
    assert head + last == (head + last[..k]) + last[k..];
    TrimEndOf(head + last[..k], last[k..]);
  }

  /** The lines joined, with what is behind the last text cut off, are read as the lines that arrive. */
  lemma {:induction false} JoinedArrives(lines: seq<string>)
    requires lines != [] && OneLineEach(lines) && TrimEnd(lines[|lines| - 1]) != []
    ensures Lines(TrimEnd(Join(lines, "\n"))) == ArrivedAll(lines)
    ensures TrimEnd(Join(lines, "\n")) != []
  {
    var head, rest := lines[0], lines[1..];
    assert OneLine(head) && OneLineEach(rest);
    if |lines| == 1 {
      TrimEndOneLine(head);
      LinesOfUnterminated(TrimEnd(head));
      hide TrimEnd, Lines;
      assert ArrivedAll(lines) == [TrimEnd(head)];
    } else {
      JoinedArrives(rest);
      var tail := Join(rest, "\n");
      assert Join(lines, "\n") == head + "\n" + tail;
      hide *;
      TrimEndBehind(head + "\n", tail);
      LinesOfTerminated(head, TrimEnd(tail));
      ArrivedCons(head, rest);
      assert lines == [head] + rest;
    }
  }

  lemma ArrivedCons(head: string, rest: seq<string>)
    ensures ArrivedAll([head] + rest) == [Arrived(head, rest == [])] + ArrivedAll(rest)
    ensures Arrived(head, false) == StripCr(head)
  {
    hide TrimEnd, StripCr;
  }

  lemma TrimEndOneLine(s: string)
    requires OneLine(s)
    ensures OneLine(TrimEnd(s))
  {
    var k := TrimEndCuts(s);
  }

  lemma TrimStartOneLine(s: string)
    requires OneLine(s)
    ensures OneLine(TrimStart(s))
  {
    var k := TrimStartCuts(s);
  }

  /** Behind a prefix that ends in a colon, the value arrives as it would alone. */
  lemma ArrivedBehind(prefix: string, value: string, last: bool)
    requires prefix == EVENT || prefix == DATA
    ensures Arrived(prefix + value, last) == prefix + Arrived(value, last)
    ensures TrimEnd(prefix + value) != []
  {
    assert prefix[|prefix| - 1] == ':';
    if TrimEnd(value) != [] {
      TrimEndBehind(prefix, value);
    } else {
      var k := TrimEndCuts(value);
      TrimEndOf(prefix, value);
    }
    hide TrimEnd;
    if value != [] {
      assert (prefix + value)[..|prefix + value| - 1] == prefix + value[..|value| - 1];
    }
  }

  lemma FieldArrives(field: Field, last: bool)
    requires Proper(field)
    ensures Arrived(FieldLine(field), last) == FieldLine(ArrivedField(field, last))
    ensures TrimEnd(FieldLine(field)) != [] && Proper(ArrivedField(field, last))
  {
    match field
    case Name(text) =>
      hide TrimEnd;
      ArrivedBehind(EVENT, text, last);
    case Data(text) =>
      hide TrimEnd;
      ArrivedBehind(DATA, text, last);
    case Ignored(line) => IgnoredArrives(line, last);
  }

  lemma {:induction false} HeadStays(line: string)
    requires line != [] && !IsWhitespace(line[0])
    ensures TrimEnd(line) != []
  {
    hide IsWhitespace;
    if IsWhitespace(line[|line| - 1]) {
      HeadStays(line[..|line| - 1]);
    }
  }

  lemma IgnoredArrives(line: string, last: bool)
    requires Proper(Ignored(line))
    ensures TrimEnd(line) != [] && Proper(Ignored(Arrived(line, last)))
  {
    var k := TrimEndCuts(line);
    HeadStays(line);
    hide TrimEnd, IsWhitespace;
    var kept := Arrived(line, last);
    assert IsWhitespace('\r') by { ReturnIsSpace(); }
    assert kept <= line && kept != [];
    assert EVENT <= kept ==> EVENT <= line;
    assert DATA <= kept ==> DATA <= line;
  }

  lemma ReturnIsSpace()
    ensures IsWhitespace('\r')
  {
  }

  lemma FrameArrives(fields: seq<Field>)
    requires ProperEach(fields)
    ensures ArrivedAll(FieldLines(fields)) == FieldLines(ArrivedFields(fields)) && ProperEach(ArrivedFields(fields))
    ensures fields != [] ==> TrimEnd(FieldLine(fields[|fields| - 1])) != []
  {
    hide Arrived, ArrivedField, FieldLine, Proper, TrimEnd;
    forall i | 0 <= i < |fields|
      ensures Arrived(FieldLine(fields[i]), i + 1 == |fields|) == FieldLine(ArrivedField(fields[i], i + 1 == |fields|))
      ensures Proper(ArrivedField(fields[i], i + 1 == |fields|)) && TrimEnd(FieldLine(fields[i])) != []
    {
      FieldArrives(fields[i], i + 1 == |fields|);
    }
  }

  lemma FrameStartsInText(fields: seq<Field>)
    requires ProperEach(fields)
    ensures var s := Join(FieldLines(fields), "\n"); TrimStart(s) == s
  {
    if fields != [] {
      var lines := FieldLines(fields);
      assert Proper(fields[0]) && lines[0] == FieldLine(fields[0]);
      assert !IsWhitespace('e') && !IsWhitespace('d');
      assert lines[0] != [] && !IsWhitespace(lines[0][0]);
      hide IsWhitespace;
      assert Join(lines, "\n")[0] == lines[0][0];
    }
  }

  lemma TrimOfArrived(event: string, last: bool)
    ensures Trim(Arrived(event, last)) == Trim(event)
  {
    var a, t, z := TrimCuts(event);
    var k := TrimEndCuts(event);
    hide Trim, TrimEnd;
    var kept := Arrived(event, last);
    if t == [] {
      assert event == a + z && AllWhitespace(event);
      assert kept + [] + [] == kept;
      TrimOf(kept, [], []);
    } else {
      var n := |a| + |t|;
      assert event[n - 1] == t[|t| - 1];
      assert AllWhitespace(event[|kept|..]) && |kept| >= n;
      assert kept == a + t + kept[n..] && AllWhitespace(kept[n..]);
      TrimOf(a, t, kept[n..]);
    }
  }

  predicate SameKind(a: Field, b: Field) { (a.Name? <==> b.Name?) && (a.Data? <==> b.Data?) }

  ghost predicate SameKinds(a: seq<Field>, b: seq<Field>) {
    |a| == |b| && forall i :: 0 <= i < |a| ==> SameKind(a[i], b[i])
  }

  lemma ArrivedKinds(fields: seq<Field>)
    ensures SameKinds(ArrivedFields(fields), fields)
  {
    hide Arrived;
  }

  lemma {:induction false} SameTrimmedName(a: seq<Field>, b: seq<Field>)
    requires SameKinds(a, b) && forall i :: 0 <= i < |a| && a[i].Name? ==> Trim(a[i].text) == Trim(b[i].text)
    ensures TrimmedName(LastName(a)) == TrimmedName(LastName(b))
    decreases |a|
  {
    hide Trim;
    if a == [] {
    } else {
      var x, y := a[|a| - 1], b[|b| - 1];
      assert SameKind(x, y);
      if !x.Name? {
        SameTrimmedName(a[..|a| - 1], b[..|b| - 1]);
      }
    }
  }

  lemma NameArrives(fields: seq<Field>)
    ensures TrimmedName(LastName(ArrivedFields(fields))) == TrimmedName(LastName(fields))
  {
    hide Arrived, Trim, LastName;
    ArrivedKinds(fields);
    forall i | 0 <= i < |fields| && fields[i].Name?
      ensures Trim(ArrivedFields(fields)[i].text) == Trim(fields[i].text)
    {
      TrimOfArrived(fields[i].text, i + 1 == |fields|);
    }
    SameTrimmedName(ArrivedFields(fields), fields);
  }

  lemma {:induction false} ValuesPerKind(a: seq<Field>, b: seq<Field>)
    requires SameKinds(a, b)
    ensures |Values(a)| == |Values(b)|
    ensures Starts(Values(a)) == Values(b)
       <==> forall i :: 0 <= i < |a| && a[i].Data? ==> TrimStart(a[i].text) == b[i].text
    decreases |a|
  {
    hide TrimStart;
    if a == [] {
    } else {
      var x, y := a[|a| - 1], b[|b| - 1];
      var initA, initB := a[..|a| - 1], b[..|b| - 1];
      assert SameKind(x, y);
      ValuesPerKind(initA, initB);
      assert forall i :: 0 <= i < |initA| ==> initA[i] == a[i] && initB[i] == b[i];
      if x.Data? {
        hide SameKinds;
        StartsLast(Values(initA), x.text);
        LastDiffers(Starts(Values(initA)), Values(initB), TrimStart(x.text), y.text);
      } else {
        assert Values(initA) + [] == Values(initA) && Values(initB) + [] == Values(initB);
      }
    }
  }

  lemma LastDiffers<T>(a: seq<T>, b: seq<T>, x: T, y: T)
    requires |a| == |b|
    ensures a + [x] == b + [y] <==> a == b && x == y
  {
    if a + [x] == b + [y] {
      assert (a + [x])[..|a|] == (b + [y])[..|b|];
      assert (a + [x])[|a|] == (b + [y])[|b|];
    }
  }

  /** The data of a frame as the parser reads it. */
  function Received(fields: seq<Field>): seq<string> { Starts(Values(ArrivedFields(fields))) }

  /** What any frame made of names, data, comments and other fields, in any order, is read as. */
  lemma FrameReceived(fields: seq<Field>)
    requires Sendable(fields)
    ensures Fields(Join(FieldLines(fields), "\n")) == Frame(TrimmedName(LastName(fields)), Join(Received(fields), "\n"))
  {
    hide Join, Lines, Arrived, TrimStart, TrimEnd, LastEvent, DataLines, FieldLine, Proper;
    hide TrimmedName, LastName, Values;
    if fields == [] {
      NothingReceived(fields);
    } else {
      var lines := FieldLines(fields);
      FrameArrives(fields);
      FrameStartsInText(fields);
      JoinedArrives(lines);
      LinesCollected(ArrivedFields(fields));
      NameArrives(fields);
    }
  }

  lemma NothingReceived(fields: seq<Field>)
    requires fields == []
    ensures Fields(Join(FieldLines(fields), "\n")) == Frame(TrimmedName(LastName(fields)), Join(Received(fields), "\n"))
  {
    assert FieldLines(fields) == [] && ArrivedFields(fields) == [] && Received(fields) == [];
    assert Trim([]) == [] && Lines([]) == [];
  }

  // ----- the round trip -----

  lemma {:induction false} JoinIsInjective(a: seq<string>, b: seq<string>)
    requires |a| == |b| && OneLineEach(a) && OneLineEach(b)
    ensures Join(a, "\n") == Join(b, "\n") <==> a == b
  {
    if |a| > 1 && Join(a, "\n") == Join(b, "\n") {
      var x, y := Join(a[1..], "\n"), Join(b[1..], "\n");
      hide Join;
      Assoc(a[0], "\n", x);
      Assoc(b[0], "\n", y);
      UpToNewlineOf(a[0], "\n" + x);
      UpToNewlineOf(b[0], "\n" + y);
      assert x == (a[0] + "\n" + x)[|a[0]| + 1..] && y == (b[0] + "\n" + y)[|b[0]| + 1..];
      JoinIsInjective(a[1..], b[1..]);
      assert a == [a[0]] + a[1..] && b == [b[0]] + b[1..];
    }
  }

  predicate StartsInText(value: string) { value != [] ==> !IsWhitespace(value[0]) }

  predicate EndsInText(value: string) { value != [] ==> !IsWhitespace(value[|value| - 1]) }

  /** A value gets through if it starts in text and does not end in a carriage return; the last must end in text. */
  predicate GetsThrough(value: string, last: bool) {
    StartsInText(value) && if last then EndsInText(value) else NoTrailingCr(value)
  }

  lemma ArrivesWhole(value: string, last: bool)
    ensures TrimStart(Arrived(value, last)) == value <==> GetsThrough(value, last)
  {
    var k := TrimEndCuts(value);
    var i := TrimStartCuts(Arrived(value, last));
    hide TrimStart, TrimEnd;
    if TrimStart(Arrived(value, last)) == value {
      assert |Arrived(value, last)| == |value| && i == 0;
    }
    if GetsThrough(value, last) {
      assert AllWhitespace(value[k..]) && (k < |value| ==> value[|value| - 1] == value[k..][|value| - 1 - k]);
      assert Arrived(value, last) == value;
    }
  }

  lemma {:induction false} ValuesOneLine(fields: seq<Field>)
    requires forall i :: 0 <= i < |fields| && fields[i].Data? ==> OneLine(fields[i].text)
    ensures OneLineEach(Values(fields))
  {
    if fields == [] {
    } else {
      var init := fields[..|fields| - 1];
      assert forall i :: 0 <= i < |init| ==> init[i] == fields[i];
      hide OneLine;
      ValuesOneLine(init);
    }
  }

  lemma DataOneLine(fields: seq<Field>, i: nat)
    requires OneLineEach(FieldLines(fields)) && i < |fields| && fields[i].Data?
    ensures OneLine(fields[i].text) && OneLine(Arrived(fields[i].text, i + 1 == |fields|))
  {
    var line, text := FieldLines(fields)[i], fields[i].text;
    assert OneLine(line) && line == DATA + text;
    assert forall k :: 0 <= k < |text| ==> text[k] == line[|DATA| + k];
    TrimEndOneLine(text);
    hide TrimEnd;
  }

  lemma ReceivedOneLine(fields: seq<Field>)
    requires OneLineEach(FieldLines(fields))
    ensures OneLineEach(Values(fields)) && OneLineEach(Received(fields))
  {
    hide OneLine, Arrived, TrimStart, Values, FieldLine;
    forall i | 0 <= i < |fields| && fields[i].Data?
      ensures OneLine(fields[i].text) && OneLine(ArrivedFields(fields)[i].text)
    {
      DataOneLine(fields, i);
    }
    ValuesOneLine(fields);
    ValuesOneLine(ArrivedFields(fields));
    var values := Values(ArrivedFields(fields));
    forall i | 0 <= i < |values| ensures OneLine(Starts(values)[i]) { TrimStartOneLine(values[i]); }
  }

  lemma TrimmedEnds(s: string)
    ensures Trim(s) == s <==> StartsInText(s) && EndsInText(s)
  {
    var a, t, z := TrimCuts(s);
    hide Trim;
    if StartsInText(s) && EndsInText(s) {
      assert [] + t + [] == t;
    }
  }

  ghost predicate AllGetThrough(fields: seq<Field>) {
    forall i :: 0 <= i < |fields| && fields[i].Data? ==> GetsThrough(fields[i].text, i + 1 == |fields|)
  }

  lemma ReceivedWhole(fields: seq<Field>)
    ensures |Received(fields)| == |Values(fields)|
    ensures Received(fields) == Values(fields) <==> AllGetThrough(fields)
  {
    hide TrimStart, Arrived, Values, GetsThrough;
    var arrived := ArrivedFields(fields);
    ArrivedKinds(fields);
    ValuesPerKind(arrived, fields);
    forall i | 0 <= i < |fields| && fields[i].Data?
      ensures TrimStart(arrived[i].text) == fields[i].text <==> GetsThrough(fields[i].text, i + 1 == |fields|)
    {
      ArrivesWhole(fields[i].text, i + 1 == |fields|);
    }
  }

  /**
   * A frame is read back, its last name and its data joined by newlines, exactly if that name starts and
   * ends in text and every data value gets through.
   */
  lemma FrameRoundTrip(fields: seq<Field>)
    requires Sendable(fields)
    ensures var name := LastName(fields);
            (Fields(Join(FieldLines(fields), "\n")) == Frame(name, Join(Values(fields), "\n"))
             <==> (name.Some? ==> StartsInText(name.value) && EndsInText(name.value)) && AllGetThrough(fields))
  {
    var name := LastName(fields);
    FrameReceived(fields);
    if name.Some? {
      TrimmedEnds(name.value);
    }
    ReceivedOneLine(fields);
    ReceivedWhole(fields);
    JoinIsInjective(Received(fields), Values(fields));
    hide Fields, Join, Trim, Received, Values, LastName, AllGetThrough, StartsInText, EndsInText, FieldLines;
  }
}
