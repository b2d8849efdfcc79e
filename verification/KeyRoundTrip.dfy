/** Printing a binding and parsing it again. */
module KeyRoundTrip {
  import opened Text
  import opened KeyNames

  /** The bindings a key string can denote. */
  predicate ParsableCode(code: KeyCode) {
    match code
    case F(n) => 1 <= n <= 24
    case Char(c) => LowerChar(c) == c && c != '+' && (c == ' ' || !IsWhitespace(c))
    case Unnamed(_) => false
    case _ => true
  }

  predicate Canonical(b: Binding) { ParsableCode(b.code) && Masked(b.modifiers) == b.modifiers }

  // ----- splitting at plus signs -----

  lemma {:induction false} UpToPlusOf(head: string, rest: string)
    requires '+' !in head && (rest == [] || rest[0] == '+')
    ensures UpToPlus(head + rest) == head
  {
    if head == [] {
      assert head + rest == rest;
    } else {
      UpToPlusOf(head[1..], rest);
      assert (head + rest)[1..] == head[1..] + rest;
    }
  }

  lemma {:induction false} UpToPlusCuts(s: string)
    ensures UpToPlus(s) <= s && '+' !in UpToPlus(s)
  {
    if s != [] && s[0] != '+' {
      UpToPlusCuts(s[1..]);
    }
  }

  lemma {:induction false} SegmentsOfJoin(parts: seq<string>)
    requires parts != [] && forall i :: 0 <= i < |parts| ==> '+' !in parts[i]
    ensures Segments(Join(parts, "+")) == parts
  {
    var s := Join(parts, "+");
    if |parts| == 1 {
      assert s + [] == s;
      UpToPlusOf(s, []);
    } else {
      var rest := Join(parts[1..], "+");
      SegmentsOfJoin(parts[1..]);
      assert s == parts[0] + ("+" + rest);
      UpToPlusOf(parts[0], "+" + rest);
      assert s[|parts[0]| + 1..] == rest;
    }
  }

  lemma {:induction false} SegmentsHaveNoPlus(s: string)
    ensures forall i :: 0 <= i < |Segments(s)| ==> '+' !in Segments(s)[i]
    decreases |s|
  {
    UpToPlusCuts(s);
    if |UpToPlus(s)| < |s| {
      SegmentsHaveNoPlus(s[|UpToPlus(s)| + 1..]);
    } else {
      assert UpToPlus(s) == s;
    }
  }

  // ----- key names -----

  /** A key string segment that is nothing but a key name. */
  predicate IsKeyToken(s: string) {
    && s != [] && '+' !in s && !IsWhitespace(s[0]) && !IsWhitespace(s[|s| - 1])
    && ModifierNamed(Lower(s)) == None
  }

  lemma LowerOf(s: string)
    requires forall i :: 0 <= i < |s| ==> LowerChar(s[i]) == s[i]
    ensures Lower(s) == s
  {
  }

  lemma LettersAreLower(s: string)
    requires s != [] && forall i :: 0 <= i < |s| ==> 'a' <= s[i] <= 'z'
    ensures Lower(s) == s && '+' !in s && !IsWhitespace(s[0]) && !IsWhitespace(s[|s| - 1])
  {
    LowerOf(s);
  }

  predicate HasName(code: KeyCode) { ParsableCode(code) && !code.F? && (code.Char? ==> code.c == ' ') }

  lemma NameIsLetters(code: KeyCode)
    requires HasName(code)
    ensures var s := KeyName(code); |s| > 1 && s[0] != 'f' && forall i :: 0 <= i < |s| ==> 'a' <= s[i] <= 'z'
  {
  }

  lemma NameIsNoModifier(code: KeyCode)
    requires HasName(code)
    ensures ModifierNamed(KeyName(code)) == None
  {
  }

  lemma NameOfCode(code: KeyCode)
    requires HasName(code)
    ensures NamedCode(KeyName(code)) == Some(code)
  {
    hide ModifierNamed;
  }

  lemma NamedKey(code: KeyCode)
    requires HasName(code)
    ensures IsKeyToken(KeyName(code)) && ParseKeyCode(KeyName(code)) == Some(code)
  {
    hide NamedCode, ModifierNamed, KeyName, IsWhitespace;
    NameIsLetters(code);
    NameIsNoModifier(code);
    NameOfCode(code);
    LettersAreLower(KeyName(code));
  }

  lemma CharKey(c: char)
    requires ParsableCode(Char(c)) && c != ' '
    ensures IsKeyToken(KeyName(Char(c))) && ParseKeyCode(KeyName(Char(c))) == Some(Char(c))
  {
    LowerOf([c]);
    assert [c][1..] == [];
  }

  lemma FIsNoModifier(s: string)
    requires s != [] && s[0] == 'f'
    ensures ModifierNamed(s) == None
  {
  }

  lemma U8OfDecimal(n: nat)
    requires n <= 255
    ensures ParseU8(Decimal(n)) == Some(n) && Decimal(n) != [] && AllDigits(Decimal(n))
  {
    DecimalRoundTrip(n);
    hide Decimal, DigitsValue;
    assert Decimal(n)[0] != '+';
  }

  lemma FAndDigits(digits: string)
    requires digits != [] && AllDigits(digits)
    ensures var s := "f" + digits;
            Lower(s) == s && '+' !in s && !IsWhitespace(s[0]) && !IsWhitespace(s[|s| - 1]) && s[1..] == digits
  {
    var s := "f" + digits;
    assert s[|s| - 1] == digits[|digits| - 1];
    assert forall i :: 1 <= i < |s| ==> s[i] == digits[i - 1];
    LowerOf(s);
  }

  lemma FunctionKeyName(n: nat)
    requires 1 <= n <= 24
    ensures IsKeyToken(KeyName(F(n))) && ParseKeyCode(KeyName(F(n))) == Some(F(n))
  {
    hide Decimal, ParseU8, ModifierNamed, NamedCode, AllDigits, IsWhitespace, Lower;
    U8OfDecimal(n);
    FAndDigits(Decimal(n));
    FIsNoModifier("f" + Decimal(n));
  }

  lemma KeyNameRoundTrip(code: KeyCode)
    requires ParsableCode(code)
    ensures IsKeyToken(KeyName(code)) && ParseKeyCode(KeyName(code)) == Some(code)
  {
    match code
    case F(n) => FunctionKeyName(n);
    case Char(c) =>
      if c == ' ' {
        NamedKey(code);
      } else {
        CharKey(c);
      }
    case _ => NamedKey(code);
  }

  /** A key name parses only to a code that a binding can hold. */
  lemma ParsedCode(name: string)
    requires name != [] && '+' !in name && !IsWhitespace(name[0]) && ParseKeyCode(name).Some?
    ensures ParsableCode(NormalCode(ParseKeyCode(name).value))
  {
  }

  // ----- chords -----

  lemma ModifierStep(rest: seq<string>, m: Modifiers)
    ensures ParseFrom(["ctrl"] + rest, m, None) == ParseFrom(rest, m.(control := true), None)
    ensures ParseFrom(["alt"] + rest, m, None) == ParseFrom(rest, m.(alt := true), None)
    ensures ParseFrom(["super"] + rest, m, None) == ParseFrom(rest, m.(super := true), None)
  {
    LettersAreLower("ctrl");
    LettersAreLower("alt");
    LettersAreLower("super");
    TrimmedAlready("ctrl");
    TrimmedAlready("alt");
    TrimmedAlready("super");
    assert (["ctrl"] + rest)[1..] == rest && (["alt"] + rest)[1..] == rest && (["super"] + rest)[1..] == rest;
  }

  lemma KeyStep(name: string, m: Modifiers)
    requires IsKeyToken(name) && ParseKeyCode(name).Some?
    ensures ParseFrom([name], m, None) == Some(Bind(ParseKeyCode(name).value, m))
  {
    TrimmedAlready(name);
    assert [name][1..] == [];
  }

  /** Names of the modifiers that `m` adds, then the key: parsed from scratch, that is the binding. */
  lemma ChordParts(name: string, m: Modifiers)
    requires IsKeyToken(name) && ParseKeyCode(name).Some? && Masked(m) == m
    ensures ParseFrom(ModifierNames(m) + [name], NO_MODIFIERS, None) == Some(Bind(ParseKeyCode(name).value, m))
  {
    hide ParseFrom, ParseKeyCode, ModifierNamed;
    var key := [name];
    var super := (if m.super then ["super"] else []) + key;
    var alt := (if m.alt then ["alt"] else []) + super;
    var control := (if m.control then ["ctrl"] else []) + alt;
    var m1 := NO_MODIFIERS.(control := m.control);
    var m2 := m1.(alt := m.alt);
    assert ModifierNames(m) + key == control;
    ModifierStep(alt, NO_MODIFIERS);
    ModifierStep(super, m1);
    ModifierStep(key, m2);
    assert m.control || control == alt;
    assert m.alt || alt == super;
    assert m.super || super == key;
    assert m2.(super := m.super) == m;
    KeyStep(name, m);
  }

  lemma PartsHaveNoPlus(name: string, m: Modifiers)
    requires '+' !in name
    ensures forall i :: 0 <= i < |ModifierNames(m) + [name]| ==> '+' !in (ModifierNames(m) + [name])[i]
  {
    assert '+' !in "ctrl" && '+' !in "alt" && '+' !in "super";
  }

  lemma CanonicalRoundTrip(b: Binding)
    requires Canonical(b)
    ensures Parse(Format(b)) == Some(b)
  {
    hide ParseFrom, ParseKeyCode, KeyName, ModifierNamed, Segments, Join;
    var name := KeyName(b.code);
    KeyNameRoundTrip(b.code);
    PartsHaveNoPlus(name, b.modifiers);
    SegmentsOfJoin(ModifierNames(b.modifiers) + [name]);
    ChordParts(name, b.modifiers);
  }

  predicate KeySeen(key: Option<string>) {
    key.Some? ==> key.value != [] && '+' !in key.value && !IsWhitespace(key.value[0])
  }

  lemma {:induction false} ParsedIsCanonical(segments: seq<string>, m: Modifiers, key: Option<string>)
    requires KeySeen(key) && forall i :: 0 <= i < |segments| ==> '+' !in segments[i]
    requires ParseFrom(segments, m, key).Some?
    ensures Canonical(ParseFrom(segments, m, key).value)
  {
    hide ParseKeyCode, ModifierNamed, Trim;
    if segments == [] {
      ParsedCode(key.value);
    } else {
      var token := Trim(segments[0]);
      var modifier := ModifierNamed(Lower(token));
      if modifier.Some? {
        ParsedIsCanonical(segments[1..], WithModifier(m, modifier.value), key);
      } else {
        TrimIsInside(segments[0]);
        ParsedIsCanonical(segments[1..], m, Some(token));
      }
    }
  }

  lemma TrimIsInside(s: string)
    ensures Trim(s) != [] ==> !IsWhitespace(Trim(s)[0])
    ensures '+' !in s ==> '+' !in Trim(s)
  {
    var i := TrimStartCuts(s);
    var k := TrimEndCuts(TrimStart(s));
  }

  /** A binding survives printing and parsing exactly when some key string denotes it. */
  lemma FormatRoundTrip(b: Binding)
    ensures Parse(Format(b)) == Some(b) <==> Canonical(b)
    ensures Canonical(b) <==> exists text :: Parse(text) == Some(b)
  {
    if Canonical(b) {
      CanonicalRoundTrip(b);
    }
    forall text | Parse(text) == Some(b)
      ensures Canonical(b)
    {
      SegmentsHaveNoPlus(text);
      ParsedIsCanonical(Segments(text), NO_MODIFIERS, None);
    }
  }

  /** Printing is a normal form for every spelling: aliases, letter case, order of modifiers, spaces. */
  lemma FormatNormalizes(text: string)
    requires Parse(text).Some?
    ensures Parse(Format(Parse(text).value)) == Parse(text)
  {
    FormatRoundTrip(Parse(text).value);
  }
}
