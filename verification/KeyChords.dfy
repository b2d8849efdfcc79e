/** What a chord means, segment by segment: its modifiers in any order, its one key, every alias of a name. */
module KeyChords {
  import opened Text
  import opened KeyNames
  import opened KeyRoundTrip
  import opened Keymap
  import opened KeymapLaws

  // ----- names and aliases -----

  /** Every name of a modifier. */
  lemma ModifierNamesMean()
    ensures ModifierNamed("ctrl") == ModifierNamed("control") == Some(Control)
    ensures ModifierNamed("alt") == ModifierNamed("opt") == ModifierNamed("option") == ModifierNamed("meta")
         == Some(Alt)
    ensures ModifierNamed("super") == ModifierNamed("cmd") == ModifierNamed("command") == ModifierNamed("win")
         == Some(Super)
    ensures ModifierNamed("shift") == Some(Shift)
  {
  }

  /** Nothing else names a modifier. */
  lemma OtherNamesAreNoModifiers(name: string)
    ensures ModifierNamed(name).Some? <==>
              name in {"ctrl", "control", "alt", "opt", "option", "meta", "super", "cmd", "command", "win", "shift"}
  {
  }

  lemma EditingNames()
    ensures NamedCode("enter") == NamedCode("return") == Some(Enter)
    ensures NamedCode("esc") == NamedCode("escape") == Some(Esc)
    ensures NamedCode("tab") == Some(Tab) && NamedCode("backtab") == Some(BackTab)
    ensures NamedCode("backspace") == NamedCode("bs") == Some(Backspace)
  {
  }

  lemma PagingNames()
    ensures NamedCode("pageup") == NamedCode("pgup") == Some(PageUp)
    ensures NamedCode("pagedown") == NamedCode("pgdn") == NamedCode("pagedn") == Some(PageDown)
  {
  }

  lemma ArrowNames()
    ensures NamedCode("up") == Some(Up) && NamedCode("down") == Some(Down)
    ensures NamedCode("left") == Some(Left) && NamedCode("right") == Some(Right)
    ensures NamedCode("home") == Some(Home) && NamedCode("end") == Some(End)
  {
  }

  lemma InsertNames()
    ensures NamedCode("insert") == NamedCode("ins") == Some(Insert)
    ensures NamedCode("delete") == NamedCode("del") == Some(Delete)
  {
  }

  lemma SpaceName()
    ensures NamedCode("space") == Some(Char(' '))
  {
  }

  /** Every name of a key, aliases included, as a key string token. */
  lemma KeyNamesMean(name: string)
    ensures name == "enter" || name == "return" ==> ParseKeyCode(name) == Some(Enter)
    ensures name == "esc" || name == "escape" ==> ParseKeyCode(name) == Some(Esc)
    ensures name == "tab" ==> ParseKeyCode(name) == Some(Tab)
    ensures name == "backtab" ==> ParseKeyCode(name) == Some(BackTab)
    ensures name == "backspace" || name == "bs" ==> ParseKeyCode(name) == Some(Backspace)
    ensures name == "pageup" || name == "pgup" ==> ParseKeyCode(name) == Some(PageUp)
    ensures name == "pagedown" || name == "pgdn" || name == "pagedn" ==> ParseKeyCode(name) == Some(PageDown)
    ensures name == "up" ==> ParseKeyCode(name) == Some(Up)
    ensures name == "down" ==> ParseKeyCode(name) == Some(Down)
    ensures name == "left" ==> ParseKeyCode(name) == Some(Left)
    ensures name == "right" ==> ParseKeyCode(name) == Some(Right)
    ensures name == "home" ==> ParseKeyCode(name) == Some(Home)
    ensures name == "end" ==> ParseKeyCode(name) == Some(End)
    ensures name == "insert" || name == "ins" ==> ParseKeyCode(name) == Some(Insert)
    ensures name == "delete" || name == "del" ==> ParseKeyCode(name) == Some(Delete)
    ensures name == "space" ==> ParseKeyCode(name) == Some(Char(' '))
  {
    EditingNames();
    PagingNames();
    ArrowNames();
    InsertNames();
    SpaceName();
    hide NamedCode, ParseKeyCode, Lower;
    if name != [] && name[0] != 'f' && NamedCode(name).Some? && forall i :: 0 <= i < |name| ==> 'a' <= name[i] <= 'z' {
      LettersAreLower(name);
      NamedIsParsed(name);
    }
  }

  /** Digits, with one leading plus sign allowed. */
  ghost predicate Numeral(s: string, n: nat) {
    exists digits ::
      (s == digits || s == "+" + digits) && digits != [] && AllDigits(digits) && DigitsValue(digits) == n
  }

  lemma NumeralIsRead(s: string, n: nat)
    ensures ParseU8(s) == Some(n) <==> Numeral(s, n) && n <= 255
  {
    var digits := if |s| > 1 && s[0] == '+' then s[1..] else s;
    hide DigitsValue;
    if ParseU8(s) == Some(n) {
      assert s == digits || s == "+" + digits;
    }
    if Numeral(s, n) {
      var other :| (s == other || s == "+" + other) && other != [] && AllDigits(other) && DigitsValue(other) == n;
      assert s == "+" + other ==> s[1..] == other;
      assert other == digits;
    }
  }

  /** The function keys: an `f` in either case and a number from 1 to 24, leading zeros allowed. */
  lemma FunctionKeysMean(name: string, n: nat)
    ensures ParseKeyCode(name) == Some(F(n)) <==>
              name != [] && (name[0] == 'f' || name[0] == 'F') && Numeral(Lower(name[1..]), n) && 1 <= n <= 24
  {
    hide NamedCode, Numeral, ParseU8;
    NamedIsNoFunctionKey(Lower(name));
    if name != [] {
      assert Lower(name)[1..] == Lower(name[1..]);
      NumeralIsRead(Lower(name[1..]), n);
    }
  }

  lemma NamedIsNoFunctionKey(lower: string)
    ensures NamedCode(lower).Some? ==> !NamedCode(lower).value.F?
  {
  }

  const KEY_NAMES := {
    "enter", "return", "tab", "backtab", "esc", "escape", "pageup", "pgup", "pagedown", "pgdn", "pagedn", "up",
    "down", "left", "right", "home", "end", "insert", "ins", "delete", "del", "backspace", "bs", "space"
  }

  lemma NamedIsInTable(lower: string)
    ensures NamedCode(lower).Some? <==> lower in KEY_NAMES
  {
  }

  lemma NoSingleNames(lower: string)
    ensures |lower| == 1 ==> NamedCode(lower) == None && FunctionKey(lower) == None
  {
  }

  lemma FunctionKeyIsOne(name: string)
    ensures FunctionKey(Lower(name)).Some? ==> exists n: nat :: ParseKeyCode(name) == Some(F(n))
  {
    hide NamedCode, ParseU8;
  }

  /** What denotes a key is a name of the table, a function key or a single character, and that denotes itself. */
  lemma OtherNamesAreNoKeys(name: string)
    ensures |name| == 1 ==> ParseKeyCode(name) == Some(Char(LowerChar(name[0])))
    ensures ParseKeyCode(name).Some? <==>
              Lower(name) in KEY_NAMES || |name| == 1 || exists n: nat :: ParseKeyCode(name) == Some(F(n))
  {
    NamedIsInTable(Lower(name));
    NoSingleNames(Lower(name));
    FunctionKeyIsOne(name);
    hide NamedCode, FunctionKey;
  }

  lemma LowerTwice(s: string)
    ensures Lower(Lower(s)) == Lower(s)
  {
  }

  /** Letter case is ignored. */
  lemma CaseIsIgnored(a: string, b: string)
    requires Lower(a) == Lower(b)
    ensures ParseKeyCode(a) == ParseKeyCode(b)
  {
  }

  /** A name that starts with no `f` is looked up as it is. */
  lemma NamedIsParsed(name: string)
    requires name != [] && name[0] != 'f' && Lower(name) == name && NamedCode(name).Some?
    ensures ParseKeyCode(name) == NamedCode(name)
  {
    hide NamedCode;
  }

  // ----- segments -----

  predicate NamesModifier(segment: string, x: Modifier) { ModifierNamed(Lower(Trim(segment))) == Some(x) }

  predicate AModifier(segment: string) { ModifierNamed(Lower(Trim(segment))).Some? }

  predicate AllModifiers(segments: seq<string>) { forall i :: 0 <= i < |segments| ==> AModifier(segments[i]) }

  predicate SomeNames(segments: seq<string>, x: Modifier) {
    exists i :: 0 <= i < |segments| && NamesModifier(segments[i], x)
  }

  /** The modifiers held so far and those the segments name. */
  function Joined(m: Modifiers, segments: seq<string>): Modifiers {
    m.(control := m.control || SomeNames(segments, Control), alt := m.alt || SomeNames(segments, Alt),
       super := m.super || SomeNames(segments, Super), shift := m.shift || SomeNames(segments, Shift))
  }

  lemma SomeNamesFirst(segments: seq<string>, x: Modifier)
    requires segments != []
    ensures SomeNames(segments, x) <==> NamesModifier(segments[0], x) || SomeNames(segments[1..], x)
  {
    hide NamesModifier;
    var rest := segments[1..];
    assert forall i :: 0 <= i < |rest| ==> rest[i] == segments[i + 1];
    if SomeNames(segments, x) {
      var i :| 0 <= i < |segments| && NamesModifier(segments[i], x);
      assert i > 0 ==> NamesModifier(rest[i - 1], x);
    }
  }

  lemma JoinedNext(m: Modifiers, segments: seq<string>, x: Modifier)
    requires segments != [] && NamesModifier(segments[0], x)
    ensures Joined(m, segments) == Joined(WithModifier(m, x), segments[1..])
  {
    SomeNamesFirst(segments, Control);
    SomeNamesFirst(segments, Alt);
    SomeNamesFirst(segments, Super);
    SomeNamesFirst(segments, Shift);
    hide SomeNames, Trim, ModifierNamed;
  }

  lemma JoinedKey(m: Modifiers, segments: seq<string>)
    requires segments != [] && !AModifier(segments[0])
    ensures Joined(m, segments) == Joined(m, segments[1..])
  {
    SomeNamesFirst(segments, Control);
    SomeNamesFirst(segments, Alt);
    SomeNamesFirst(segments, Super);
    SomeNamesFirst(segments, Shift);
    hide SomeNames, Trim, ModifierNamed;
  }

  lemma JoinedNothing(m: Modifiers)
    ensures Joined(m, []) == m
  {
  }

  lemma BlankIsNoModifier(segment: string)
    requires Trim(segment) == []
    ensures !AModifier(segment)
  {
    assert Lower([]) == [];
  }

  lemma ParseStep(segments: seq<string>, m: Modifiers, key: Option<string>)
    requires segments != []
    ensures ParseFrom(segments, m, key) ==
            if AModifier(segments[0]) then
              ParseFrom(segments[1..], WithModifier(m, ModifierNamed(Lower(Trim(segments[0]))).value), key)
            else if Trim(segments[0]) == [] || key.Some? then None
            else ParseFrom(segments[1..], m, Some(Trim(segments[0])))
  {
    if Trim(segments[0]) == [] {
      BlankIsNoModifier(segments[0]);
    }
    hide Trim, ModifierNamed, ParseKeyCode;
  }

  /** A chord whose key has been seen: what is left must all be modifiers. */
  lemma {:induction false} KeySeenMeans(segments: seq<string>, m: Modifiers, key: string)
    ensures ParseFrom(segments, m, Some(key)) ==
            if AllModifiers(segments) && ParseKeyCode(key).Some?
            then Some(Bind(ParseKeyCode(key).value, Joined(m, segments))) else None
    decreases |segments|
  {
    hide Trim, ModifierNamed, ParseKeyCode, Joined, SomeNames, Bind;
    if segments == [] {
      JoinedNothing(m);
    } else {
      ParseStep(segments, m, Some(key));
      hide ParseFrom;
      assert AllModifiers(segments) <==> AModifier(segments[0]) && AllModifiers(segments[1..]);
      if AModifier(segments[0]) {
        var x := ModifierNamed(Lower(Trim(segments[0]))).value;
        KeySeenMeans(segments[1..], WithModifier(m, x), key);
        JoinedNext(m, segments, x);
      }
    }
  }

  /** Segment `k` is the key of the chord, every other a modifier. */
  predicate KeyAt(segments: seq<string>, k: nat) {
    && k < |segments| && !AModifier(segments[k]) && Trim(segments[k]) != []
    && ParseKeyCode(Trim(segments[k])).Some?
    && forall i :: 0 <= i < |segments| && i != k ==> AModifier(segments[i])
  }

  lemma KeyAtNext(segments: seq<string>, k: nat)
    requires segments != []
    ensures AModifier(segments[0]) ==> (KeyAt(segments, k) <==> k > 0 && KeyAt(segments[1..], k - 1))
    ensures !AModifier(segments[0]) && KeyAt(segments, k) ==> k == 0 && AllModifiers(segments[1..])
    ensures AllModifiers(segments[1..]) && !AModifier(segments[0]) && Trim(segments[0]) != [] ==>
              (KeyAt(segments, 0) <==> ParseKeyCode(Trim(segments[0])).Some?)
  {
    hide AModifier, Trim, ParseKeyCode;
    var rest := segments[1..];
    assert forall i :: 0 <= i < |rest| ==> rest[i] == segments[i + 1];
    assert forall i :: 1 <= i < |segments| ==> segments[i] == rest[i - 1];
  }

  /**
   * A list of segments is a chord exactly if one of them is a key and all others are modifiers, in any order;
   * it then denotes that key with exactly the modifiers named.
   */
  lemma {:induction false} ChordMeans(segments: seq<string>, m: Modifiers)
    ensures ParseFrom(segments, m, None).Some? <==> exists k: nat :: KeyAt(segments, k)
    ensures forall k: nat :: KeyAt(segments, k) ==>
              ParseFrom(segments, m, None) == Some(Bind(ParseKeyCode(Trim(segments[k])).value, Joined(m, segments)))
    decreases |segments|
  {
    hide Trim, ModifierNamed, ParseKeyCode, Joined, SomeNames, Bind, AllModifiers;
    if segments == [] {
    } else {
      ParseStep(segments, m, None);
      var rest, first := segments[1..], Trim(segments[0]);
      forall k: nat
        ensures AModifier(segments[0]) ==> (KeyAt(segments, k) <==> k > 0 && KeyAt(rest, k - 1))
        ensures !AModifier(segments[0]) && KeyAt(segments, k) ==> k == 0 && AllModifiers(rest)
      {
        KeyAtNext(segments, k);
      }
      KeyAtNext(segments, 0);
      if AModifier(segments[0]) {
        ModifierFirst(segments, m);
      } else {
        KeySeenMeans(rest, m, first);
        JoinedKey(m, segments);
        hide ParseFrom;
        assert KeyAt(segments, 0) ==> ParseKeyCode(first).Some?;
      }
    }
  }

  lemma ModifierFirst(segments: seq<string>, m: Modifiers)
    requires segments != [] && AModifier(segments[0])
    ensures ParseFrom(segments, m, None).Some? <==> exists k: nat :: KeyAt(segments, k)
    ensures forall k: nat :: KeyAt(segments, k) ==>
              ParseFrom(segments, m, None) == Some(Bind(ParseKeyCode(Trim(segments[k])).value, Joined(m, segments)))
    decreases |segments|, 0
  {
    hide Trim, ModifierNamed, ParseKeyCode, Joined, SomeNames, Bind, AllModifiers;
    var rest, x := segments[1..], ModifierNamed(Lower(Trim(segments[0]))).value;
    ParseStep(segments, m, None);
    JoinedNext(m, segments, x);
    ChordMeans(rest, WithModifier(m, x));
    hide ParseFrom;
    forall k: nat
      ensures KeyAt(segments, k) <==> k > 0 && KeyAt(rest, k - 1)
    {
      KeyAtNext(segments, k);
    }
    hide KeyAt;
    if k: nat :| KeyAt(rest, k) {
      assert KeyAt(segments, k + 1);
    }
  }

  // ----- presses -----

  /** Two codes for the same key: the same character but for its case, or the same named key. */
  predicate SameKey(a: KeyCode, b: KeyCode) { if a.Char? && b.Char? then Lower([a.c]) == Lower([b.c]) else a == b }

  /**
   * Two presses are stored alike exactly if they are of the same key with the same control, alt and super:
   * shift, hyper and meta do not tell them apart, nor does the case of a letter.
   */
  lemma SamePress(a: KeyCode, b: KeyCode, m: Modifiers, n: Modifiers)
    ensures Bind(a, m) == Bind(b, n)
       <==> SameKey(a, b) && m.control == n.control && m.alt == n.alt && m.super == n.super
  {
    if a.Char? && b.Char? {
      assert Lower([a.c])[0] == LowerChar(a.c) && Lower([b.c])[0] == LowerChar(b.c);
      assert Lower([a.c]) == [LowerChar(a.c)] && Lower([b.c]) == [LowerChar(b.c)];
    }
  }

  /** The action of a press is that of the newest binding stored alike. */
  lemma {:induction false} NewestWins(bs: Bindings, key: Binding, a: Action)
    ensures Lookup(bs, key) == Some(a) <==>
              exists i :: 0 <= i < |bs| && bs[i] == Bound(key, a) && forall j :: i < j < |bs| ==> bs[j].key != key
    ensures Lookup(bs, key) == None <==> forall i :: 0 <= i < |bs| ==> bs[i].key != key
  {
    if bs == [] {
    } else {
      var n := |bs| - 1;
      NewestWins(Init(bs), key, a);
      assert forall i :: 0 <= i < n ==> Init(bs)[i] == bs[i];
      if bs[n].key == key {
        assert Lookup(bs, key) == Some(bs[n].action);
        if bs[n].action == a {
          assert bs[n] == Bound(key, a);
        }
      } else {
        assert Lookup(bs, key) == Lookup(Init(bs), key);
      }
    }
  }

  // ----- one file -----

  /** A key string that denotes nothing is skipped. */
  lemma OneKeyIsRead(text: string)
    ensures ParseAll([text]) == match Parse(text) case Some(key) => [key] case None => []
  {
    hide Parse;
    assert [text][1..] == [];
  }

  lemma ParseAllNext(text: string, rest: seq<string>)
    ensures ParseAll([text] + rest) == ParseAll([text]) + ParseAll(rest)
  {
    OneKeyIsRead(text);
    hide Parse;
    assert ([text] + rest)[1..] == rest;
    assert [] + ParseAll(rest) == ParseAll(rest);
  }

  /** Key strings are read one by one; what follows one that denotes nothing is still read. */
  lemma {:induction false} KeysAreReadInTurn(a: seq<string>, b: seq<string>)
    ensures ParseAll(a + b) == ParseAll(a) + ParseAll(b)
  {
    if a == [] {
      assert a + b == b && [] + ParseAll(b) == ParseAll(b);
    } else {
      hide *;
      KeysAreReadInTurn(a[1..], b);
      Assoc([a[0]], a[1..], b);
      assert [a[0]] + a[1..] == a;
      ParseAllNext(a[0], a[1..] + b);
      ParseAllNext(a[0], a[1..]);
      Assoc(ParseAll([a[0]]), ParseAll(a[1..]), ParseAll(b));
    }
  }

  /** A name is that of one action at most, and any other names none. */
  lemma NamesAreExact(name: string, a: Action)
    ensures FromName(name, 0) == Some(a) <==> name == Name(a)
    ensures FromName(name, 0) == None <==> forall b :: Name(b) != name
  {
    FromNameFinds(name, 0);
    NameRoundTrip(a);
    hide FromName, Name;
    if FromName(name, 0) == None {
      forall b ensures Name(b) != name { NameRoundTrip(b); }
    }
  }

  lemma {:induction false} FromNameFinds(name: string, i: nat)
    requires i <= |ALL_ACTIONS|
    ensures FromName(name, i).Some? ==> Name(FromName(name, i).value) == name
    decreases |ALL_ACTIONS| - i
  {
    hide Name;
    if i < |ALL_ACTIONS| {
      FromNameFinds(name, i + 1);
    }
  }

  lemma OneLineActs(bs: Bindings, line: Entry, x: Action)
    ensures (forall y :: Name(y) != line.name) ==> Layered(bs, [line]) == bs
    ensures Name(x) == line.name ==> Layered(bs, [line]) == Rebind(bs, x, ParseAll(line.keys))
  {
    NamesAreExact(line.name, x);
    hide FromName, Name, ParseAll, Rebind;
    assert [line][1..] == [];
  }

  /** The lines of a file act one behind the other; one that names no action does nothing. */
  lemma {:induction false} LinesActInTurn(bs: Bindings, a: Layer, b: Layer)
    ensures Layered(bs, a + b) == Layered(Layered(bs, a), b)
    ensures forall line: Entry :: (forall y :: Name(y) != line.name) ==> Layered(bs, [line]) == bs
    ensures forall line: Entry, x :: Name(x) == line.name ==> Layered(bs, [line]) == Rebind(bs, x, ParseAll(line.keys))
    decreases |a|
  {
    hide FromName, Name, ParseAll, Rebind;
    forall line: Entry, x
      ensures (forall y :: Name(y) != line.name) ==> Layered(bs, [line]) == bs
      ensures Name(x) == line.name ==> Layered(bs, [line]) == Rebind(bs, x, ParseAll(line.keys))
    {
      OneLineActs(bs, line, x);
    }
    forall line: Entry
      ensures (forall y :: Name(y) != line.name) ==> Layered(bs, [line]) == bs
    {
      OneLineActs(bs, line, Submit);
    }
    if a == [] {
      assert a + b == b;
    } else {
      var first := FromName(a[0].name, 0);
      var next := if first.Some? then Rebind(bs, first.value, ParseAll(a[0].keys)) else bs;
      LinesActInTurn(next, a[1..], b);
      assert (a + b)[1..] == a[1..] + b && (a + b)[0] == a[0];
    }
  }

  // ----- two files -----

  /** Some line of the file gives the key to an action. */
  ghost predicate ClaimedIn(layer: Layer, key: Binding) {
    exists i, x :: 0 <= i < |layer| && Name(x) == layer[i].name && key in ParseAll(layer[i].keys)
  }

  ghost predicate NamedIn(layer: Layer, a: Action) { exists i :: 0 <= i < |layer| && layer[i].name == Name(a) }

  lemma ClaimedFirst(layer: Layer, key: Binding)
    requires layer != []
    ensures ClaimedIn(layer, key)
       <==> (exists x :: Name(x) == layer[0].name && key in ParseAll(layer[0].keys)) || ClaimedIn(layer[1..], key)
  {
    hide Name, ParseAll;
    var rest := layer[1..];
    assert forall i :: 0 <= i < |rest| ==> rest[i] == layer[i + 1];
    if ClaimedIn(layer, key) {
      var i, x :| 0 <= i < |layer| && Name(x) == layer[i].name && key in ParseAll(layer[i].keys);
      assert i > 0 ==> Name(x) == rest[i - 1].name && key in ParseAll(rest[i - 1].keys);
    }
  }

  lemma LookupAfterRebind(bs: Bindings, x: Action, keys: seq<Binding>, key: Binding)
    requires Distinct(bs)
    ensures Lookup(Rebind(bs, x, keys), key) ==
            if key in keys then Some(x) else if Lookup(bs, key) == Some(x) then None else Lookup(bs, key)
    ensures Distinct(Rebind(bs, x, keys))
  {
    LookupDropAction(bs, x, key);
    LookupClaim(DropAction(bs, x), x, keys, key);
    hide Lookup, DropAction, Claim, Distinct;
  }

  /** A line that names another action, or none, leaves an action its keys but for those it gives away. */
  lemma OtherLine(bs: Bindings, line: Entry, a: Action, key: Binding)
    requires Distinct(bs) && line.name != Name(a)
    ensures Distinct(Layered(bs, [line]))
    ensures Lookup(Layered(bs, [line]), key) == Some(a)
       <==> Lookup(bs, key) == Some(a) && !exists x :: Name(x) == line.name && key in ParseAll(line.keys)
  {
    hide Layered, Lookup, Distinct, Name, ParseAll, Rebind;
    if exists x :: Name(x) == line.name {
      var x :| Name(x) == line.name;
      OneLineActs(bs, line, x);
      LookupAfterRebind(bs, x, ParseAll(line.keys), key);
    } else {
      OneLineActs(bs, line, a);
    }
  }

  lemma {:induction false} OtherLines(bs: Bindings, layer: Layer, a: Action, key: Binding)
    requires Distinct(bs) && !NamedIn(layer, a)
    ensures Lookup(Layered(bs, layer), key) == Some(a) <==> Lookup(bs, key) == Some(a) && !ClaimedIn(layer, key)
    decreases |layer|
  {
    hide Lookup, Distinct, Name, ParseAll, ClaimedIn, Layered;
    if layer == [] {
      NoLinesAct(bs, key);
    } else {
      var next := Layered(bs, [layer[0]]);
      OtherLine(bs, layer[0], a, key);
      ClaimedFirst(layer, key);
      LinesActInTurn(bs, [layer[0]], layer[1..]);
      assert [layer[0]] + layer[1..] == layer;
      assert !NamedIn(layer[1..], a) by {
        assert forall i :: 0 <= i < |layer[1..]| ==> layer[1..][i] == layer[i + 1];
      }
      OtherLines(next, layer[1..], a, key);
    }
  }

  lemma NoLinesAct(bs: Bindings, key: Binding)
    ensures Layered(bs, []) == bs && !ClaimedIn([], key)
  {
  }

  /**
   * The project's file wins per action: where it has a line for one, that action is reached by exactly the
   * keys of its last line which no later line gives away, whatever the defaults and the user's file say.
   */
  lemma ProjectWins(user: Layer, before: Layer, a: Action, keys: seq<string>, later: Layer, key: Binding)
    requires !NamedIn(later, a)
    ensures Lookup(Loaded(user, before + [Entry(Name(a), keys)] + later), key) == Some(a)
       <==> key in ParseAll(keys) && !ClaimedIn(later, key)
  {
    hide *;
    var line, start := Entry(Name(a), keys), Layered(Layered(DEFAULT_BINDINGS, user), before);
    LoadedInTurn(user, before, line, later);
    LoadedIsDistinct(user, before);
    OneLineActs(start, line, a);
    LookupAfterRebind(start, a, ParseAll(keys), key);
    OtherLines(Layered(start, [line]), later, a, key);
  }

  /** An action the project's file leaves alone keeps what the user's file gave it, but for keys given away. */
  lemma UserIsKept(user: Layer, project: Layer, a: Action, key: Binding)
    requires !NamedIn(project, a)
    ensures Lookup(Loaded(user, project), key) == Some(a)
       <==> Lookup(Layered(DEFAULT_BINDINGS, user), key) == Some(a) && !ClaimedIn(project, key)
  {
    hide *;
    LoadedIs(user, project);
    DefaultIsFine();
    LayerIsUpdates(DEFAULT_BINDINGS, user);
    OtherLines(Layered(DEFAULT_BINDINGS, user), project, a, key);
  }

  lemma LoadedIs(user: Layer, project: Layer)
    ensures Loaded(user, project) == Layered(Layered(DEFAULT_BINDINGS, user), project)
  {
    hide Layered;
  }

  lemma LoadedInTurn(user: Layer, before: Layer, line: Entry, later: Layer)
    ensures Loaded(user, before + [line] + later)
         == Layered(Layered(Layered(Layered(DEFAULT_BINDINGS, user), before), [line]), later)
  {
    hide Layered;
    LinesActInTurn(Layered(DEFAULT_BINDINGS, user), before + [line], later);
    LinesActInTurn(Layered(DEFAULT_BINDINGS, user), before, [line]);
  }

  lemma LoadedIsDistinct(user: Layer, before: Layer)
    ensures Distinct(Layered(Layered(DEFAULT_BINDINGS, user), before))
  {
    hide *;
    DefaultIsFine();
    LayerIsUpdates(DEFAULT_BINDINGS, user);
    LayerIsUpdates(Layered(DEFAULT_BINDINGS, user), before);
  }

  // ----- the shipped table -----

  /** The default keymap as a user would write it. */
  const SHIPPED := [
    ("submit", "enter"), ("steer_submit", "ctrl+s"), ("interrupt", "ctrl+c"), ("escape", "esc"),
    ("toggle_fold", "tab"), ("scroll_up", "pageup"), ("scroll_down", "pagedown"), ("guide", "ctrl+g"),
    ("queue_panel", "ctrl+q"), ("cycle_mode", "backtab"), ("toggle_web", "ctrl+o"),
    ("next_section", "ctrl+pagedown"), ("prev_section", "ctrl+pageup"), ("new_section", "ctrl+t"), ("help", "f1")
  ]

  function Plussed(on: bool, name: string): string { if on then name + "+" else "" }

  function Listed(on: bool, name: string): seq<string> { if on then [name] else [] }

  lemma JoinedThree(a: bool, b: bool, c: bool, x: string, y: string, z: string, name: string)
    ensures Join(Listed(a, x) + Listed(b, y) + Listed(c, z) + [name], "+")
         == Plussed(a, x) + Plussed(b, y) + Plussed(c, z) + name
  {
    var inner := Listed(c, z) + [name];
    var middle := Listed(b, y) + inner;
    JoinedBehind(Listed(c, z), [name]);
    JoinedBehind(Listed(b, y), inner);
    JoinedBehind(Listed(a, x), middle);
    hide Join;
    assert Listed(a, x) + Listed(b, y) + Listed(c, z) + [name] == Listed(a, x) + middle;
    hide Listed;
    Assoc(Plussed(b, y), Plussed(c, z), name);
    Assoc(Plussed(a, x), Plussed(b, y), Plussed(c, z) + name);
    Assoc(Plussed(a, x) + Plussed(b, y), Plussed(c, z), name);
  }

  /** The modifiers stand in one order: control, alt, super. */
  lemma FormatSpells(code: KeyCode, m: Modifiers)
    ensures Format(Bind(code, m)) == Plussed(m.control, "ctrl") + Plussed(m.alt, "alt") + Plussed(m.super, "super")
                                     + KeyName(NormalCode(code))
  {
    JoinedThree(m.control, m.alt, m.super, "ctrl", "alt", "super", KeyName(NormalCode(code)));
    hide KeyName, Join, Plussed;
  }

  lemma JoinedBehind(first: seq<string>, rest: seq<string>)
    requires |first| <= 1 && rest != []
    ensures Join(first + rest, "+") == (if first == [] then "" else first[0] + "+") + Join(rest, "+")
    ensures |rest| == 1 ==> Join(rest, "+") == rest[0]
  {
    if first == [] {
      assert first + rest == rest;
      assert "" + Join(rest, "+") == Join(rest, "+");
    } else {
      assert (first + rest)[1..] == rest;
    }
  }

  lemma FormatPlain(code: KeyCode)
    ensures Format(Bind(code, NO_MODIFIERS)) == KeyName(NormalCode(code))
  {
    hide KeyName;
    assert ModifierNames(NO_MODIFIERS) + [KeyName(NormalCode(code))] == [KeyName(NormalCode(code))];
  }

  lemma FormatControl(code: KeyCode)
    ensures Format(Bind(code, WITH_CONTROL)) == "ctrl+" + KeyName(NormalCode(code))
  {
    hide KeyName;
    var name := KeyName(NormalCode(code));
    assert ModifierNames(WITH_CONTROL) + [name] == ["ctrl", name];
    assert ["ctrl", name][1..] == [name] && Join([name], "+") == name;
    assert Join(["ctrl", name], "+") == "ctrl" + "+" + name;
    assert "ctrl" + "+" == "ctrl+";
  }

  lemma ShippedActions()
    ensures |ALL_ACTIONS| == |DEFAULT_BINDINGS| == |SHIPPED| == 15
    ensures forall i :: 0 <= i < 15 ==> DEFAULT_BINDINGS[i].action == ALL_ACTIONS[i]
    ensures forall i, j :: 0 <= i < j < 15 ==> ALL_ACTIONS[i] != ALL_ACTIONS[j]
  {
  }

  lemma ShippedName(i: nat)
    requires i < |ALL_ACTIONS| && i < |SHIPPED|
    ensures Name(ALL_ACTIONS[i]) == SHIPPED[i].0
  {
  }

  lemma ShippedControlKey(i: nat)
    requires i in {1, 2, 7, 8, 10, 11, 12, 13}
    ensures i < |DEFAULT_BINDINGS| && i < |SHIPPED|
    ensures var key := DEFAULT_BINDINGS[i].key;
            key == Bind(key.code, WITH_CONTROL) && "ctrl+" + KeyName(NormalCode(key.code)) == SHIPPED[i].1
  {
    hide Decimal;
  }

  lemma ShippedPlainKey(i: nat)
    requires i in {0, 3, 4, 5, 6, 9, 14}
    ensures i < |DEFAULT_BINDINGS| && i < |SHIPPED|
    ensures var key := DEFAULT_BINDINGS[i].key;
            key == Bind(key.code, NO_MODIFIERS) && KeyName(NormalCode(key.code)) == SHIPPED[i].1
  {
    assert Decimal(1) == "1";
    hide Decimal;
  }

  lemma ShippedKeyText(i: nat)
    requires i < 15
    ensures i < |DEFAULT_BINDINGS| && i < |SHIPPED| && Format(DEFAULT_BINDINGS[i].key) == SHIPPED[i].1
  {
    hide *;
    if i in {1, 2, 7, 8, 10, 11, 12, 13} {
      ShippedControlKey(i);
      FormatControl(DEFAULT_BINDINGS[i].key.code);
    } else {
      ShippedPlainKey(i);
      FormatPlain(DEFAULT_BINDINGS[i].key.code);
    }
  }

  lemma {:induction false} OneKeyEach(bs: Bindings, i: nat)
    requires forall j, k :: 0 <= j < k < |bs| ==> bs[j].action != bs[k].action
    ensures i < |bs| ==> KeysFor(bs, bs[i].action) == [bs[i].key]
    ensures forall a :: (forall j :: 0 <= j < |bs| ==> bs[j].action != a) ==> KeysFor(bs, a) == []
  {
    if bs == [] {
    } else {
      OneKeyEach(Init(bs), i);
      if i == |bs| - 1 {
        assert forall j :: 0 <= j < |Init(bs)| ==> Init(bs)[j].action != bs[i].action;
      }
    }
  }

  lemma ExportedOne(bs: Bindings, a: Action, key: Binding)
    requires KeysFor(bs, a) == [key]
    ensures Exported(bs, [a]) == [Entry(Name(a), [Format(key)])]
  {
    hide Name, Format, KeysFor;
    assert [a][1..] == [] && [key][1..] == [];
    assert FormatAll([]) == [] && Exported(bs, []) == [];
    assert FormatAll([key]) == [Format(key)];
  }

  /** Exported, the shipped keymap has for every action its documented name and its one documented key. */
  lemma ShippedKeymapReads(i: nat)
    requires i < 15
    ensures |SHIPPED| == |ALL_ACTIONS| == 15
    ensures Exported(DEFAULT_BINDINGS, [ALL_ACTIONS[i]]) == [Entry(SHIPPED[i].0, [SHIPPED[i].1])]
  {
    hide *;
    ShippedActions();
    ShippedName(i);
    ShippedKeyText(i);
    OneKeyEach(DEFAULT_BINDINGS, i);
    ExportedOne(DEFAULT_BINDINGS, ALL_ACTIONS[i], DEFAULT_BINDINGS[i].key);
  }
}
