/** Key bindings: a list from which a key press is resolved, layered overrides, export and reload. */
module Keymap {
  import opened Text
  import opened KeyNames

  datatype Action =
    | Submit | SteerSubmit | Interrupt | Escape | ToggleFold | ScrollUp | ScrollDown | Guide
    | QueuePanel | CycleMode | ToggleWeb | NextSection | PrevSection | NewSection | Help

  const ALL_ACTIONS := [
    Submit, SteerSubmit, Interrupt, Escape, ToggleFold, ScrollUp, ScrollDown, Guide,
    QueuePanel, CycleMode, ToggleWeb, NextSection, PrevSection, NewSection, Help
  ]

  function Name(a: Action): string {
    match a
    case Submit => "submit"
    case SteerSubmit => "steer_submit"
    case Interrupt => "interrupt"
    case Escape => "escape"
    case ToggleFold => "toggle_fold"
    case ScrollUp => "scroll_up"
    case ScrollDown => "scroll_down"
    case Guide => "guide"
    case QueuePanel => "queue_panel"
    case CycleMode => "cycle_mode"
    case ToggleWeb => "toggle_web"
    case NextSection => "next_section"
    case PrevSection => "prev_section"
    case NewSection => "new_section"
    case Help => "help"
  }

  function FromName(name: string, i: nat): Option<Action>
    requires i <= |ALL_ACTIONS|
    decreases |ALL_ACTIONS| - i
  {
    if i == |ALL_ACTIONS| then None
    else if Name(ALL_ACTIONS[i]) == name then Some(ALL_ACTIONS[i])
    else FromName(name, i + 1)
  }

  datatype Bound = Bound(key: Binding, action: Action)

  type Bindings = seq<Bound>

  const WITH_CONTROL := NO_MODIFIERS.(control := true)

  const DEFAULT_BINDINGS: Bindings := [
    Bound(Bind(Enter, NO_MODIFIERS), Submit),
    Bound(Bind(Char('s'), WITH_CONTROL), SteerSubmit),
    Bound(Bind(Char('c'), WITH_CONTROL), Interrupt),
    Bound(Bind(Esc, NO_MODIFIERS), Escape),
    Bound(Bind(Tab, NO_MODIFIERS), ToggleFold),
    Bound(Bind(PageUp, NO_MODIFIERS), ScrollUp),
    Bound(Bind(PageDown, NO_MODIFIERS), ScrollDown),
    Bound(Bind(Char('g'), WITH_CONTROL), Guide),
    Bound(Bind(Char('q'), WITH_CONTROL), QueuePanel),
    Bound(Bind(BackTab, NO_MODIFIERS.(shift := true)), CycleMode),
    Bound(Bind(Char('o'), WITH_CONTROL), ToggleWeb),
    Bound(Bind(PageDown, WITH_CONTROL), NextSection),
    Bound(Bind(PageUp, WITH_CONTROL), PrevSection),
    Bound(Bind(Char('t'), WITH_CONTROL), NewSection),
    Bound(Bind(F(1), NO_MODIFIERS), Help)
  ]

  // ----- the list -----

  function Last(bs: Bindings): Bound
    requires bs != []
  {
    bs[|bs| - 1]
  }

  function Init(bs: Bindings): Bindings
    requires bs != []
  {
    bs[..|bs| - 1]
  }

  /** The action of a stored key, the newest binding winning. */
  function Lookup(bs: Bindings, key: Binding): Option<Action> {
    if bs == [] then None
    else if Last(bs).key == key then Some(Last(bs).action)
    else Lookup(Init(bs), key)
  }

  /** A live key event. */
  datatype KeyEvent = KeyEvent(code: KeyCode, modifiers: Modifiers)

  predicate Matches(key: Binding, event: KeyEvent) {
    key.modifiers == Masked(event.modifiers) && key.code == NormalCode(event.code)
  }

  method Resolve(bs: Bindings, event: KeyEvent) returns (action: Option<Action>)
    ensures action == Lookup(bs, Bind(event.code, event.modifiers))
  {
    ghost var key := Bind(event.code, event.modifiers);
    var i := |bs|;
    assert bs[..i] == bs;
    while i > 0
      invariant 0 <= i <= |bs|
      invariant Lookup(bs, key) == Lookup(bs[..i], key)
    {
      assert Init(bs[..i]) == bs[..i - 1];
      i := i - 1;
      if Matches(bs[i].key, event) {
        return Some(bs[i].action);
      }
    }
    action := None;
  }

  /** The keys of one action, in binding order. */
  function KeysFor(bs: Bindings, a: Action): seq<Binding> {
    if bs == [] then []
    else if Last(bs).action == a then KeysFor(Init(bs), a) + [Last(bs).key]
    else KeysFor(Init(bs), a)
  }

  function DropAction(bs: Bindings, a: Action): Bindings {
    if bs == [] then []
    else if Last(bs).action != a then DropAction(Init(bs), a) + [Last(bs)]
    else DropAction(Init(bs), a)
  }

  function DropKey(bs: Bindings, key: Binding): Bindings {
    if bs == [] then []
    else if Last(bs).key != key then DropKey(Init(bs), key) + [Last(bs)]
    else DropKey(Init(bs), key)
  }

  function Claim(bs: Bindings, a: Action, keys: seq<Binding>): Bindings
    decreases |keys|
  {
    if keys == [] then bs else Claim(DropKey(bs, keys[0]) + [Bound(keys[0], a)], a, keys[1..])
  }

  function Rebind(bs: Bindings, a: Action, keys: seq<Binding>): Bindings { Claim(DropAction(bs, a), a, keys) }

  /** The held map: rebinding steals keys from other actions. */
  class Held {
    var bindings: Bindings

    constructor ()
      ensures bindings == DEFAULT_BINDINGS
    {
      bindings := DEFAULT_BINDINGS;
    }

    method RebindAction(a: Action, keys: seq<Binding>)
      modifies this
      ensures bindings == Rebind(old(bindings), a, keys)
    {
      RetainOthers(a);
      for i := 0 to |keys|
        invariant Claim(bindings, a, keys[i..]) == Rebind(old(bindings), a, keys)
      {
        assert keys[i..][1..] == keys[i + 1..];
        RetainKeys(keys[i]);
        bindings := bindings + [Bound(keys[i], a)];
      }
    }

    method RetainOthers(a: Action)
      modifies this
      ensures bindings == DropAction(old(bindings), a)
    {
      var all := bindings;
      bindings := [];
      for i := 0 to |all|
        invariant bindings == DropAction(all[..i], a)
      {
        assert Init(all[..i + 1]) == all[..i];
        if all[i].action != a {
          bindings := bindings + [all[i]];
        }
      }
      assert all[..|all|] == all;
    }

    method RetainKeys(key: Binding)
      modifies this
      ensures bindings == DropKey(old(bindings), key)
    {
      var all := bindings;
      bindings := [];
      for i := 0 to |all|
        invariant bindings == DropKey(all[..i], key)
      {
        assert Init(all[..i + 1]) == all[..i];
        if all[i].key != key {
          bindings := bindings + [all[i]];
        }
      }
      assert all[..|all|] == all;
    }

    /** One override file: an unknown action is skipped, and so is a key string that does not parse. */
    method ApplyLayer(layer: Layer)
      modifies this
      ensures bindings == Layered(old(bindings), layer)
    {
      for i := 0 to |layer|
        invariant Layered(bindings, layer[i..]) == Layered(old(bindings), layer)
      {
        assert layer[i..][1..] == layer[i + 1..];
        var a := FromName(layer[i].name, 0);
        if a.Some? {
          RebindAction(a.value, ParseAll(layer[i].keys));
        }
      }
    }
  }

  // ----- layers -----

  /** One `name = keys` line of the keymap table, as the TOML reader delivers it. */
  datatype Entry = Entry(name: string, keys: seq<string>)

  type Layer = seq<Entry>

  function ParseAll(texts: seq<string>): seq<Binding> {
    if texts == [] then []
    else if Parse(texts[0]).Some? then [Parse(texts[0]).value] + ParseAll(texts[1..])
    else ParseAll(texts[1..])
  }

  function Layered(bs: Bindings, layer: Layer): Bindings
    decreases |layer|
  {
    if layer == [] then bs
    else
      var a := FromName(layer[0].name, 0);
      Layered(if a.Some? then Rebind(bs, a.value, ParseAll(layer[0].keys)) else bs, layer[1..])
  }

  /** The user's file, then the project's, over the defaults. */
  function Loaded(user: Layer, project: Layer): Bindings { Layered(Layered(DEFAULT_BINDINGS, user), project) }

  function FormatAll(keys: seq<Binding>): seq<string> {
    if keys == [] then [] else [Format(keys[0])] + FormatAll(keys[1..])
  }

  /** The exported table, with its actions in any order. */
  function Exported(bs: Bindings, order: seq<Action>): Layer {
    if order == [] then []
    else [Entry(Name(order[0]), FormatAll(KeysFor(bs, order[0])))] + Exported(bs, order[1..])
  }
}
