/** Key strings of the keymap file: parsing a chord and printing it back. */
module KeyNames {
  import opened Text

  /** Terminal key codes; `Unnamed` are those with no readable name. */
  datatype KeyCode =
    | Enter | Tab | BackTab | Esc | PageUp | PageDown | Up | Down | Left | Right
    | Home | End | Insert | Delete | Backspace
    | F(n: nat)
    | Char(c: char)
    | Unnamed(code: nat)

  datatype Modifiers = Modifiers(control: bool, alt: bool, super: bool, shift: bool, hyper: bool, meta: bool)

  const NO_MODIFIERS := Modifiers(false, false, false, false, false, false)

  datatype Binding = Binding(code: KeyCode, modifiers: Modifiers)

  function NormalCode(code: KeyCode): KeyCode {
    if code.Char? then Char(LowerChar(code.c)) else code
  }

  function Masked(m: Modifiers): Modifiers { m.(shift := false, hyper := false, meta := false) }

  /** A binding as it is stored and compared: shift masked out, characters in lower case. */
  function Bind(code: KeyCode, m: Modifiers): Binding { Binding(NormalCode(code), Masked(m)) }

  // ----- parsing -----

  function UpToPlus(s: string): string {
    if s == [] || s[0] == '+' then [] else [s[0]] + UpToPlus(s[1..])
  }

  /** `split('+')`. */
  function Segments(s: string): seq<string>
    decreases |s|
  {
    if |UpToPlus(s)| >= |s| then [s]
    else [UpToPlus(s)] + Segments(s[|UpToPlus(s)| + 1..])
  }

  datatype Modifier = Control | Alt | Super | Shift

  function ModifierNamed(lower: string): Option<Modifier> {
    if lower == "ctrl" || lower == "control" then Some(Control)
    else if lower == "alt" || lower == "opt" || lower == "option" || lower == "meta" then Some(Alt)
    else if lower == "super" || lower == "cmd" || lower == "command" || lower == "win" then Some(Super)
    else if lower == "shift" then Some(Shift)
    else None
  }

  function WithModifier(m: Modifiers, modifier: Modifier): Modifiers {
    match modifier
    case Control => m.(control := true)
    case Alt => m.(alt := true)
    case Super => m.(super := true)
    case Shift => m.(shift := true)
  }

  /** `parse::<u8>`: digits, with one leading plus sign allowed, up to 255. */
  function ParseU8(s: string): Option<nat> {
    var digits := if |s| > 1 && s[0] == '+' then s[1..] else s;
    if digits != [] && AllDigits(digits) && DigitsValue(digits) <= 255 then Some(DigitsValue(digits)) else None
  }

  function NamedCode(lower: string): Option<KeyCode> {
    if lower == "enter" || lower == "return" then Some(Enter)
    else if lower == "tab" then Some(Tab)
    else if lower == "backtab" then Some(BackTab)
    else if lower == "esc" || lower == "escape" then Some(Esc)
    else if lower == "pageup" || lower == "pgup" then Some(PageUp)
    else if lower == "pagedown" || lower == "pgdn" || lower == "pagedn" then Some(PageDown)
    else if lower == "up" then Some(Up)
    else if lower == "down" then Some(Down)
    else if lower == "left" then Some(Left)
    else if lower == "right" then Some(Right)
    else if lower == "home" then Some(Home)
    else if lower == "end" then Some(End)
    else if lower == "insert" || lower == "ins" then Some(Insert)
    else if lower == "delete" || lower == "del" then Some(Delete)
    else if lower == "backspace" || lower == "bs" then Some(Backspace)
    else if lower == "space" then Some(Char(' '))
    else None
  }

  function FunctionKey(lower: string): Option<KeyCode> {
    if lower == [] || lower[0] != 'f' then None
    else
      var n := ParseU8(lower[1..]);
      if n.Some? && 1 <= n.value <= 24 then Some(F(n.value)) else None
  }

  function ParseKeyCode(name: string): Option<KeyCode> {
    var lower := Lower(name);
    if FunctionKey(lower).Some? then FunctionKey(lower)
    else if NamedCode(lower).Some? then NamedCode(lower)
    else if |lower| == 1 then Some(Char(lower[0]))
    else None
  }

  /** The rest of a chord, given the modifiers and the key seen so far. */
  function ParseFrom(segments: seq<string>, m: Modifiers, key: Option<string>): Option<Binding> {
    if segments == [] then
      if key == None || ParseKeyCode(key.value) == None then None
      else Some(Bind(ParseKeyCode(key.value).value, m))
    else
      var token := Trim(segments[0]);
      if token == [] then None
      else
        var modifier := ModifierNamed(Lower(token));
        if modifier.Some? then ParseFrom(segments[1..], WithModifier(m, modifier.value), key)
        else if key.Some? then None
        else ParseFrom(segments[1..], m, Some(token))
  }

  function Parse(text: string): Option<Binding> { ParseFrom(Segments(text), NO_MODIFIERS, None) }

  method ParseBinding(text: string) returns (b: Option<Binding>)
    ensures b == Parse(text)
  {
    var segments := Segments(text);
    var m, key := NO_MODIFIERS, None;
    for i := 0 to |segments|
      invariant Parse(text) == ParseFrom(segments[i..], m, key)
    {
      assert segments[i..][1..] == segments[i + 1..];
      var token := Trim(segments[i]);
      if token == [] {
        return None;
      }
      var modifier := ModifierNamed(Lower(token));
      if modifier.Some? {
        m := WithModifier(m, modifier.value);
      } else {
        if key.Some? {
          return None;
        }
        key := Some(token);
      }
    }
    if key == None {
      return None;
    }
    var code := ParseKeyCode(key.value);
    b := if code == None then None else Some(Bind(code.value, m));
  }

  // ----- printing -----

  function KeyName(code: KeyCode): string {
    match code
    case Enter => "enter"
    case Tab => "tab"
    case BackTab => "backtab"
    case Esc => "esc"
    case PageUp => "pageup"
    case PageDown => "pagedown"
    case Up => "up"
    case Down => "down"
    case Left => "left"
    case Right => "right"
    case Home => "home"
    case End => "end"
    case Insert => "insert"
    case Delete => "delete"
    case Backspace => "backspace"
    case F(n) => "f" + Decimal(n)
    case Char(c) => if c == ' ' then "space" else [c]
    case Unnamed(_) => "?"
  }

  function ModifierNames(m: Modifiers): seq<string> {
    (if m.control then ["ctrl"] else []) + (if m.alt then ["alt"] else []) + (if m.super then ["super"] else [])
  }

  function Format(b: Binding): string { Join(ModifierNames(b.modifiers) + [KeyName(b.code)], "+") }

  method FormatBinding(b: Binding) returns (text: string)
    ensures text == Format(b)
  {
    var parts := [];
    if b.modifiers.control {
      parts := parts + ["ctrl"];
    }
    if b.modifiers.alt {
      parts := parts + ["alt"];
    }
    if b.modifiers.super {
      parts := parts + ["super"];
    }
    assert parts == ModifierNames(b.modifiers);
    text := Join(parts + [KeyName(b.code)], "+");
  }
}
