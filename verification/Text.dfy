/** Operations of the Rust standard library, on strings above all, that the modelled code relies on. */
module Text {

  datatype Option<+T> = None | Some(value: T)

  function Min(a: nat, b: nat): nat { if a < b then a else b }

  function Max(a: nat, b: nat): nat { if a < b then b else a }

  lemma Assoc<T>(a: seq<T>, b: seq<T>, c: seq<T>)
    ensures a + b + c == a + (b + c)
  {
  }

  /** The Unicode `White_Space` property, as `char::is_whitespace` tests it. */
  predicate IsWhitespace(c: char) {
    var n := c as int;
    || 9 <= n <= 13 || n == 0x20 || n == 0x85 || n == 0xA0 || n == 0x1680
    || 0x2000 <= n <= 0x200A || n == 0x2028 || n == 0x2029 || n == 0x202F || n == 0x205F || n == 0x3000
  }

  predicate AllWhitespace(s: string) {
    forall i :: 0 <= i < |s| ==> IsWhitespace(s[i])
  }

  function TrimStart(s: string): string {
    if s != [] && IsWhitespace(s[0]) then TrimStart(s[1..]) else s
  }

  function TrimEnd(s: string): string {
    if s != [] && IsWhitespace(s[|s| - 1]) then TrimEnd(s[..|s| - 1]) else s
  }

  lemma {:induction false} TrimStartCuts(s: string) returns (k: nat)
    ensures k <= |s| && TrimStart(s) == s[k..] && AllWhitespace(s[..k])
    ensures k < |s| ==> !IsWhitespace(s[k])
  {
    if s != [] && IsWhitespace(s[0]) {
      var k' := TrimStartCuts(s[1..]);
      k := k' + 1;
      assert s[..k] == [s[0]] + s[1..][..k'];
    } else {
      k := 0;
    }
  }

  lemma {:induction false} TrimEndCuts(s: string) returns (k: nat)
    ensures k <= |s| && TrimEnd(s) == s[..k] && AllWhitespace(s[k..])
    ensures k > 0 ==> !IsWhitespace(s[k - 1])
  {
    if s != [] && IsWhitespace(s[|s| - 1]) {
      k := TrimEndCuts(s[..|s| - 1]);
      assert s[k..] == s[..|s| - 1][k..] + [s[|s| - 1]];
    } else {
      k := |s|;
    }
  }

  function Trim(s: string): string {
    TrimEnd(TrimStart(s))
  }

  lemma {:induction false} TrimStartOf(a: string, t: string)
    requires AllWhitespace(a) && (t != [] ==> !IsWhitespace(t[0]))
    ensures TrimStart(a + t) == t
  {
    if a == [] {
      assert a + t == t;
    } else {
      assert (a + t)[1..] == a[1..] + t && (a + t)[0] == a[0];
      TrimStartOf(a[1..], t);
    }
  }

  lemma {:induction false} TrimEndOf(t: string, z: string)
    requires AllWhitespace(z) && (t != [] ==> !IsWhitespace(t[|t| - 1]))
    ensures TrimEnd(t + z) == t
  {
    if z == [] {
      assert t + z == t;
    } else {
      var s := t + z;
      assert s[..|s| - 1] == t + z[..|z| - 1] && s[|s| - 1] == z[|z| - 1];
      TrimEndOf(t, z[..|z| - 1]);
    }
  }

  lemma TrimOf(a: string, t: string, z: string)
    requires AllWhitespace(a) && AllWhitespace(z)
    requires t != [] ==> !IsWhitespace(t[0]) && !IsWhitespace(t[|t| - 1])
    ensures Trim(a + t + z) == t
  {
    if t == [] {
      assert a + t + z == a + z + [] && AllWhitespace(a + z);
      TrimStartOf(a + z, []);
    } else {
      assert a + t + z == a + (t + z);
      TrimStartOf(a, t + z);
      TrimEndOf(t, z);
    }
  }

  lemma TrimCuts(s: string) returns (a: string, t: string, z: string)
    ensures s == a + t + z && t == Trim(s) && AllWhitespace(a) && AllWhitespace(z)
    ensures t != [] ==> !IsWhitespace(t[0]) && !IsWhitespace(t[|t| - 1])
  {
    var i := TrimStartCuts(s);
    var k := TrimEndCuts(s[i..]);
    hide TrimStart, TrimEnd;
    a, t, z := s[..i], s[i..][..k], s[i..][k..];
    if t != [] {
      assert t[0] == s[i] && t[|t| - 1] == s[i..][k - 1];
    }
  }

  /** `str::to_ascii_lowercase`. */
  function LowerChar(c: char): char {
    if 'A' <= c <= 'Z' then (c as int + 32) as char else c
  }

  function Lower(s: string): (t: string)
    ensures |t| == |s| && forall i :: 0 <= i < |s| ==> t[i] == LowerChar(s[i])
  {
    seq(|s|, i requires 0 <= i < |s| => LowerChar(s[i]))
  }

  /** Decimal notation of a natural number. */
  function Decimal(n: nat): string {
    var digit := [('0' as int + n % 10) as char];
    if n < 10 then digit else Decimal(n / 10) + digit
  }

  predicate AllDigits(s: string) { forall i :: 0 <= i < |s| ==> '0' <= s[i] <= '9' }

  /** The number a string of digits denotes. */
  function DigitsValue(s: string): nat
    requires AllDigits(s)
  {
    if s == [] then 0 else 10 * DigitsValue(s[..|s| - 1]) + (s[|s| - 1] as int - '0' as int)
  }

  lemma {:induction false} DecimalRoundTrip(n: nat)
    ensures AllDigits(Decimal(n)) && Decimal(n) != [] && DigitsValue(Decimal(n)) == n
  {
    var s := Decimal(n);
    if n >= 10 {
      DecimalRoundTrip(n / 10);
      assert s[..|s| - 1] == Decimal(n / 10);
    } else {
      assert s[..|s| - 1] == [];
    }
  }

  function TenTo(k: nat): nat { if k == 0 then 1 else 10 * TenTo(k - 1) }

  lemma {:induction false} DecimalWidth(n: nat, k: nat)
    requires k > 0 && n < TenTo(k)
    ensures |Decimal(n)| <= k
  {
    if n >= 10 {
      DecimalWidth(n / 10, k - 1);
    }
  }

  /** `{n:0width}` for a natural number. */
  function Padded(n: nat, width: nat): string { LeftPadded(Decimal(n), width) }

  function LeftPadded(s: string, width: nat): string
    decreases width - |s|
  {
    if |s| < width then LeftPadded("0" + s, width) else s
  }

  lemma {:induction false} LeadingZero(s: string)
    requires AllDigits(s)
    ensures AllDigits("0" + s) && DigitsValue("0" + s) == DigitsValue(s)
  {
    var t := "0" + s;
    if s == [] {
      assert t[..|t| - 1] == [];
    } else {
      LeadingZero(s[..|s| - 1]);
      assert t[..|t| - 1] == "0" + s[..|s| - 1];
    }
  }

  lemma {:induction false} LeftPaddedValue(s: string, width: nat)
    requires AllDigits(s) && |s| <= width
    ensures var t := LeftPadded(s, width); |t| == width && AllDigits(t) && DigitsValue(t) == DigitsValue(s)
    decreases width - |s|
  {
    if |s| < width {
      LeadingZero(s);
      LeftPaddedValue("0" + s, width);
    }
  }

  lemma PaddedRoundTrip(n: nat, width: nat)
    requires width > 0 && n < TenTo(width)
    ensures |Padded(n, width)| == width && AllDigits(Padded(n, width)) && DigitsValue(Padded(n, width)) == n
  {
    DecimalRoundTrip(n);
    DecimalWidth(n, width);
    LeftPaddedValue(Decimal(n), width);
  }

  function Join(parts: seq<string>, separator: string): string {
    if parts == [] then []
    else if |parts| == 1 then parts[0]
    else parts[0] + separator + Join(parts[1..], separator)
  }

  predicate OneLine(s: string) { '\n' !in s }

  /** The text up to, and not including, the first newline. */
  function UpToNewline(s: string): string {
    if s == [] || s[0] == '\n' then [] else [s[0]] + UpToNewline(s[1..])
  }

  lemma {:induction false} UpToNewlineCuts(s: string) returns (k: nat)
    ensures k == |UpToNewline(s)| <= |s| && UpToNewline(s) == s[..k] && '\n' !in s[..k]
    ensures k < |s| ==> s[k] == '\n'
  {
    if s == [] || s[0] == '\n' {
      k := 0;
    } else {
      var k' := UpToNewlineCuts(s[1..]);
      k := k' + 1;
      assert s[..k] == [s[0]] + s[1..][..k'];
    }
  }

  /** Cutting at the first newline is cutting off a known newline-free head. */
  lemma {:induction false} UpToNewlineOf(head: string, rest: string)
    requires '\n' !in head && (rest == [] || rest[0] == '\n')
    ensures UpToNewline(head + rest) == head
  {
    if head == [] {
      assert head + rest == rest;
    } else {
      UpToNewlineOf(head[1..], rest);
      assert (head + rest)[1..] == head[1..] + rest;
    }
  }

  /** A line without the carriage return of a CRLF ending. */
  function StripCr(line: string): string {
    if line != [] && line[|line| - 1] == '\r' then line[..|line| - 1] else line
  }

  /** `str::lines`: a final unterminated piece keeps a trailing carriage return. */
  function Lines(s: string): seq<string>
    decreases |s|
  {
    if s == [] then []
    else if |UpToNewline(s)| >= |s| then [s]
    else [StripCr(UpToNewline(s))] + Lines(s[|UpToNewline(s)| + 1..])
  }

  lemma LinesOfTerminated(head: string, rest: string)
    requires '\n' !in head
    ensures Lines(head + "\n" + rest) == [StripCr(head)] + Lines(rest)
  {
    var s := head + "\n" + rest;
    assert s == head + ("\n" + rest);
    UpToNewlineOf(head, "\n" + rest);
    assert s[|head| + 1..] == rest;
  }

  lemma LinesOfUnterminated(s: string)
    requires '\n' !in s
    ensures Lines(s) == if s == [] then [] else [s]
  {
    UpToNewlineOf(s, []);
    assert s + [] == s;
  }

  lemma {:induction false} LinesAreNewlineFree(s: string)
    ensures forall l :: l in Lines(s) ==> '\n' !in l
    decreases |s|
  {
    var k := UpToNewlineCuts(s);
    if s == [] {
    } else {
      if k < |s| {
        LinesAreNewlineFree(s[k + 1..]);
      } else {
        assert s[..k] == s;
      }
    }
  }

  /** The text ends its last line, if it has any. */
  predicate Ended(text: string) { text == [] || text[|text| - 1] == '\n' }

  lemma {:induction false} LinesBehind(text: string, more: string)
    requires Ended(text)
    ensures Lines(text + more) == Lines(text) + Lines(more)
    decreases |text|
  {
    if text == [] {
      assert text + more == more && [] + Lines(more) == Lines(more);
    } else {
      var k := UpToNewlineCuts(text);
      assert text[|text| - 1] == '\n';
      var head, rest := text[..k], text[k + 1..];
      assert text == head + "\n" + rest;
      assert Ended(rest) by { assert rest != [] ==> rest[|rest| - 1] == text[|text| - 1]; }
      LinesBehind(rest, more);
      hide Lines;
      LinesOfTerminated(head, rest);
      LinesOfTerminated(head, rest + more);
      Assoc(head + "\n", rest, more);
      Assoc([StripCr(head)], Lines(rest), Lines(more));
    }
  }

  predicate NoTrailingCr(s: string) { s == [] || s[|s| - 1] != '\r' }

  /** Joining lines and splitting them again gives the lines back, a terminating newline included or not. */
  lemma {:induction false} LinesOfJoin(lines: seq<string>)
    requires forall i :: 0 <= i < |lines| ==> '\n' !in lines[i] && NoTrailingCr(lines[i])
    ensures lines != [] ==> Lines(Join(lines, "\n") + "\n") == lines
    ensures lines != [] && lines[|lines| - 1] != [] ==> Lines(Join(lines, "\n")) == lines
  {
    if |lines| == 1 {
      hide Lines;
      LinesOfTerminated(lines[0], []);
      assert Lines([]) == [] by { LinesOfUnterminated([]); }
      assert lines[0] + "\n" + [] == lines[0] + "\n";
      LinesOfUnterminated(lines[0]);
    } else if |lines| > 1 {
      var head, rest := lines[0], Join(lines[1..], "\n");
      assert Join(lines, "\n") == head + "\n" + rest;
      hide Lines, Join;
      LinesOfJoin(lines[1..]);
      LinesOfTerminated(head, rest);
      LinesOfTerminated(head, rest + "\n");
      Assoc(head + "\n", rest, "\n");
      assert [head] + lines[1..] == lines;
    }
  }

  /** A text with content at both ends is trimmed already. */
  lemma TrimmedAlready(s: string)
    requires s != [] ==> !IsWhitespace(s[0]) && !IsWhitespace(s[|s| - 1])
    ensures Trim(s) == s
  {
  }
}
