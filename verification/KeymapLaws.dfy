/** Rebinding as a map update, and export followed by reload. */
module KeymapLaws {
  import opened Text
  import opened KeyNames
  import opened KeyRoundTrip
  import opened Keymap

  /** No key is held twice. */
  predicate Distinct(bs: Bindings) {
    bs != [] ==> Distinct(Init(bs)) && Lookup(Init(bs), Last(bs).key) == None
  }

  lemma Snoc(bs: Bindings, b: Bound)
    ensures Last(bs + [b]) == b && Init(bs + [b]) == bs
  {
  }

  // ----- lookups -----

  lemma {:induction false} LookupDropKey(bs: Bindings, key: Binding, other: Binding)
    ensures Lookup(DropKey(bs, key), other) == if other == key then None else Lookup(bs, other)
    ensures Distinct(bs) ==> Distinct(DropKey(bs, key))
  {
    if bs == [] {
    } else {
      LookupDropKey(Init(bs), key, other);
      LookupDropKey(Init(bs), key, Last(bs).key);
      Snoc(DropKey(Init(bs), key), Last(bs));
    }
  }

  lemma {:induction false} LookupDropAction(bs: Bindings, a: Action, key: Binding)
    requires Distinct(bs)
    ensures Lookup(DropAction(bs, a), key) == if Lookup(bs, key) == Some(a) then None else Lookup(bs, key)
    ensures Distinct(DropAction(bs, a))
  {
    if bs == [] {
    } else {
      LookupDropAction(Init(bs), a, key);
      LookupDropAction(Init(bs), a, Last(bs).key);
      Snoc(DropAction(Init(bs), a), Last(bs));
    }
  }

  lemma ClaimOne(bs: Bindings, a: Action, key: Binding, other: Binding)
    ensures var bs' := DropKey(bs, key) + [Bound(key, a)];
            && Lookup(bs', other) == (if other == key then Some(a) else Lookup(bs, other))
            && (Distinct(bs) ==> Distinct(bs'))
  {
    Snoc(DropKey(bs, key), Bound(key, a));
    LookupDropKey(bs, key, other);
    LookupDropKey(bs, key, key);
  }

  lemma {:induction false} LookupClaim(bs: Bindings, a: Action, keys: seq<Binding>, key: Binding)
    ensures Lookup(Claim(bs, a, keys), key) == if key in keys then Some(a) else Lookup(bs, key)
    ensures Distinct(bs) ==> Distinct(Claim(bs, a, keys))
    decreases |keys|
  {
    if keys == [] {
    } else {
      var bs' := DropKey(bs, keys[0]) + [Bound(keys[0], a)];
      ClaimOne(bs, a, keys[0], key);
      LookupClaim(bs', a, keys[1..], key);
      assert key in keys <==> key == keys[0] || key in keys[1..];
    }
  }

  /** The list as the map it stands for. */
  function MapOf(bs: Bindings): map<Binding, Action> {
    if bs == [] then map[] else MapOf(Init(bs))[Last(bs).key := Last(bs).action]
  }

  lemma {:induction false} LookupIsMap(bs: Bindings, key: Binding)
    ensures Lookup(bs, key) == if key in MapOf(bs) then Some(MapOf(bs)[key]) else None
  {
    if bs == [] {
    } else {
      LookupIsMap(Init(bs), key);
    }
  }

  /** Rebinding on maps: the action leaves its keys and takes the given ones, from whoever holds them. */
  function Updated(m: map<Binding, Action>, a: Action, keys: seq<Binding>): map<Binding, Action> {
    map k | k in m.Keys + (set key | key in keys) && (k in keys || m[k] != a) :: if k in keys then a else m[k]
  }

  /**
   * Rebinding refines the map update, whatever was bound before: the new keys go to the action, its other
   * keys become unbound, everything else is unchanged, and no key is ever held twice.
   */
  lemma RebindIsUpdate(bs: Bindings, a: Action, keys: seq<Binding>)
    requires Distinct(bs)
    ensures Distinct(Rebind(bs, a, keys)) && MapOf(Rebind(bs, a, keys)) == Updated(MapOf(bs), a, keys)
  {
    var after := Rebind(bs, a, keys);
    forall key
      ensures key in MapOf(after) <==> key in Updated(MapOf(bs), a, keys)
      ensures key in MapOf(after) ==> MapOf(after)[key] == Updated(MapOf(bs), a, keys)[key]
      ensures Distinct(after)
    {
      LookupDropAction(bs, a, key);
      LookupClaim(DropAction(bs, a), a, keys, key);
      LookupIsMap(bs, key);
      LookupIsMap(after, key);
    }
    assert Distinct(after) by {
      LookupDropAction(bs, a, Bind(Enter, NO_MODIFIERS));
      LookupClaim(DropAction(bs, a), a, keys, Bind(Enter, NO_MODIFIERS));
    }
  }

  /** The updates of one file, folded over a map. */
  function UpdatedBy(m: map<Binding, Action>, layer: Layer): map<Binding, Action>
    decreases |layer|
  {
    if layer == [] then m
    else
      var a := FromName(layer[0].name, 0);
      UpdatedBy(if a.Some? then Updated(m, a.value, ParseAll(layer[0].keys)) else m, layer[1..])
  }

  lemma {:induction false} LayerIsUpdates(bs: Bindings, layer: Layer)
    requires Distinct(bs)
    ensures Distinct(Layered(bs, layer)) && MapOf(Layered(bs, layer)) == UpdatedBy(MapOf(bs), layer)
    decreases |layer|
  {
    if layer == [] {
    } else {
      var a := FromName(layer[0].name, 0);
      if a.Some? {
        RebindIsUpdate(bs, a.value, ParseAll(layer[0].keys));
        LayerIsUpdates(Rebind(bs, a.value, ParseAll(layer[0].keys)), layer[1..]);
      } else {
        LayerIsUpdates(bs, layer[1..]);
      }
    }
  }

  // ----- keys of an action -----

  lemma {:induction false} KeysAreLookups(bs: Bindings, a: Action, key: Binding)
    requires Distinct(bs)
    ensures key in KeysFor(bs, a) <==> Lookup(bs, key) == Some(a)
  {
    if bs == [] {
    } else {
      KeysAreLookups(Init(bs), a, key);
    }
  }

  predicate NoneTwice(keys: seq<Binding>) { forall i, j :: 0 <= i < j < |keys| ==> keys[i] != keys[j] }

  lemma {:induction false} KeysAreDistinct(bs: Bindings, a: Action)
    requires Distinct(bs)
    ensures NoneTwice(KeysFor(bs, a))
  {
    if bs == [] {
    } else {
      KeysAreDistinct(Init(bs), a);
      KeysAreLookups(Init(bs), a, Last(bs).key);
    }
  }

  lemma {:induction false} KeysAfterDropKey(bs: Bindings, key: Binding, a: Action)
    requires key !in KeysFor(bs, a)
    ensures KeysFor(DropKey(bs, key), a) == KeysFor(bs, a)
  {
    if bs == [] {
    } else {
      KeysAfterDropKey(Init(bs), key, a);
      Snoc(DropKey(Init(bs), key), Last(bs));
    }
  }

  lemma {:induction false} KeysAfterDropAction(bs: Bindings, dropped: Action, a: Action)
    ensures KeysFor(DropAction(bs, dropped), a) == if a == dropped then [] else KeysFor(bs, a)
  {
    if bs == [] {
    } else {
      KeysAfterDropAction(Init(bs), dropped, a);
      Snoc(DropAction(Init(bs), dropped), Last(bs));
    }
  }

  lemma KeysAfterClaimOne(bs: Bindings, owner: Action, key: Binding, a: Action)
    requires key !in KeysFor(bs, a)
    ensures KeysFor(DropKey(bs, key) + [Bound(key, owner)], a)
         == if a == owner then KeysFor(bs, a) + [key] else KeysFor(bs, a)
  {
    KeysAfterDropKey(bs, key, a);
    Snoc(DropKey(bs, key), Bound(key, owner));
  }

  lemma {:induction false} KeysAfterClaim(bs: Bindings, owner: Action, keys: seq<Binding>, a: Action)
    requires NoneTwice(keys) && forall i :: 0 <= i < |keys| ==> keys[i] !in KeysFor(bs, a)
    ensures KeysFor(Claim(bs, owner, keys), a) == if a == owner then KeysFor(bs, a) + keys else KeysFor(bs, a)
    decreases |keys|
  {
    hide KeysFor, DropKey;
    if keys == [] {
      assert KeysFor(bs, a) + keys == KeysFor(bs, a);
    } else {
      KeysAfterClaimOne(bs, owner, keys[0], a);
      assert forall i :: 0 <= i < |keys[1..]| ==> keys[1..][i] == keys[i + 1];
      KeysAfterClaim(DropKey(bs, keys[0]) + [Bound(keys[0], owner)], owner, keys[1..], a);
      assert KeysFor(bs, a) + [keys[0]] + keys[1..] == KeysFor(bs, a) + keys;
    }
  }

  // ----- export and reload -----

  /** Every stored key can be written in the file. */
  predicate Writable(bs: Bindings) { forall i :: 0 <= i < |bs| ==> Canonical(bs[i].key) }

  lemma {:induction false} KeysAreCanonical(bs: Bindings, a: Action)
    requires Writable(bs)
    ensures forall i :: 0 <= i < |KeysFor(bs, a)| ==> Canonical(KeysFor(bs, a)[i])
  {
    if bs == [] {
    } else {
      KeysAreCanonical(Init(bs), a);
    }
  }

  lemma {:induction false} ParseFormatted(keys: seq<Binding>)
    requires forall i :: 0 <= i < |keys| ==> Canonical(keys[i])
    ensures ParseAll(FormatAll(keys)) == keys
  {
    if keys == [] {
    } else {
      FormatRoundTrip(keys[0]);
      ParseFormatted(keys[1..]);
      assert FormatAll(keys)[1..] == FormatAll(keys[1..]);
    }
  }

  lemma {:induction false} ParsedAreCanonical(texts: seq<string>)
    ensures forall i :: 0 <= i < |ParseAll(texts)| ==> Canonical(ParseAll(texts)[i])
  {
    if texts == [] {
    } else {
      if Parse(texts[0]).Some? {
        FormatRoundTrip(Parse(texts[0]).value);
      }
      ParsedAreCanonical(texts[1..]);
    }
  }

  lemma NamesDiffer(a: Action, b: Action)
    requires Name(a) == Name(b)
    ensures a == b
  {
  }

  lemma {:induction false} NameFound(a: Action, i: nat)
    requires i <= |ALL_ACTIONS| && a in ALL_ACTIONS[i..]
    ensures FromName(Name(a), i) == Some(a)
    decreases |ALL_ACTIONS| - i
  {
    if Name(ALL_ACTIONS[i]) == Name(a) {
      NamesDiffer(ALL_ACTIONS[i], a);
    } else {
      NameFound(a, i + 1);
    }
  }

  lemma NameRoundTrip(a: Action)
    ensures a in ALL_ACTIONS && FromName(Name(a), 0) == Some(a)
  {
    assert ALL_ACTIONS[0..] == ALL_ACTIONS;
    NameFound(a, 0);
  }

  /** After reloading the actions of `done`, those have their exported keys. */
  ghost predicate Agree(current: Bindings, exported: Bindings, done: set<Action>) {
    forall a :: a in done ==> KeysFor(current, a) == KeysFor(exported, a)
  }

  lemma RebindAgrees(current: Bindings, exported: Bindings, done: set<Action>, a: Action)
    requires Distinct(current) && Distinct(exported) && Agree(current, exported, done)
    ensures var after := Rebind(current, a, KeysFor(exported, a));
            Distinct(after) && Agree(after, exported, done + {a})
  {
    var keys := KeysFor(exported, a);
    var dropped := DropAction(current, a);
    RebindIsUpdate(current, a, keys);
    KeysAreDistinct(exported, a);
    forall b | b in done + {a}
      ensures KeysFor(Rebind(current, a, keys), b) == KeysFor(exported, b)
    {
      KeysAfterDropAction(current, a, b);
      forall i | 0 <= i < |keys|
        ensures keys[i] !in KeysFor(dropped, b)
      {
        KeysAreLookups(exported, a, keys[i]);
        KeysAreLookups(exported, b, keys[i]);
      }
      KeysAfterClaim(dropped, a, keys, b);
    }
  }

  lemma {:induction false} ReloadAgrees(current: Bindings, exported: Bindings, done: set<Action>, order: seq<Action>)
    requires Distinct(current) && Distinct(exported) && Writable(exported) && Agree(current, exported, done)
    ensures var after := Layered(current, Exported(exported, order));
            Distinct(after) && Agree(after, exported, done + (set a | a in order))
    decreases |order|
  {
    if order == [] {
      assert done + (set a | a in order) == done;
    } else {
      var a := order[0];
      var layer := Exported(exported, order);
      NameRoundTrip(a);
      KeysAreCanonical(exported, a);
      ParseFormatted(KeysFor(exported, a));
      RebindAgrees(current, exported, done, a);
      assert layer[1..] == Exported(exported, order[1..]);
      ReloadAgrees(Rebind(current, a, KeysFor(exported, a)), exported, done + {a}, order[1..]);
      assert done + {a} + (set b | b in order[1..]) == done + (set b | b in order);
    }
  }

  /**
   * Export and reload, over the defaults or any other keymap and with the table in any order: every
   * action gets back its keys in order, and every key press resolves as before.
   */
  lemma ReloadRestores(start: Bindings, exported: Bindings, order: seq<Action>, a: Action, key: Binding)
    requires Distinct(start) && Distinct(exported) && Writable(exported)
    requires forall b: Action :: b in order
    ensures var reloaded := Layered(start, Exported(exported, order));
            KeysFor(reloaded, a) == KeysFor(exported, a) && Lookup(reloaded, key) == Lookup(exported, key)
  {
    var reloaded := Layered(start, Exported(exported, order));
    ReloadAgrees(start, exported, {}, order);
    assert a in order;
    if Lookup(exported, key).Some? {
      var owner := Lookup(exported, key).value;
      assert owner in order;
      KeysAreLookups(exported, owner, key);
      KeysAreLookups(reloaded, owner, key);
    } else if Lookup(reloaded, key).Some? {
      var owner := Lookup(reloaded, key).value;
      assert owner in order;
      KeysAreLookups(exported, owner, key);
      KeysAreLookups(reloaded, owner, key);
    }
  }

  // ----- every keymap that can be loaded -----

  lemma {:induction false} DropKeepsWritable(bs: Bindings, a: Action, key: Binding)
    requires Writable(bs)
    ensures Writable(DropAction(bs, a)) && Writable(DropKey(bs, key))
  {
    if bs == [] {
    } else {
      DropKeepsWritable(Init(bs), a, key);
    }
  }

  lemma {:induction false} ClaimKeepsWritable(bs: Bindings, a: Action, keys: seq<Binding>)
    requires Writable(bs) && forall i :: 0 <= i < |keys| ==> Canonical(keys[i])
    ensures Writable(Claim(bs, a, keys))
    decreases |keys|
  {
    if keys == [] {
    } else {
      DropKeepsWritable(bs, a, keys[0]);
      ClaimKeepsWritable(DropKey(bs, keys[0]) + [Bound(keys[0], a)], a, keys[1..]);
    }
  }

  lemma {:induction false} LayerKeepsWritable(bs: Bindings, layer: Layer)
    requires Writable(bs)
    ensures Writable(Layered(bs, layer))
    decreases |layer|
  {
    if layer == [] {
    } else {
      var a := FromName(layer[0].name, 0);
      if a.Some? {
        ParsedAreCanonical(layer[0].keys);
        DropKeepsWritable(bs, a.value, Bind(Enter, NO_MODIFIERS));
        ClaimKeepsWritable(DropAction(bs, a.value), a.value, ParseAll(layer[0].keys));
        LayerKeepsWritable(Rebind(bs, a.value, ParseAll(layer[0].keys)), layer[1..]);
      } else {
        LayerKeepsWritable(bs, layer[1..]);
      }
    }
  }

  lemma {:induction false} LookupFinds(bs: Bindings, key: Binding)
    requires Lookup(bs, key).Some?
    ensures exists i :: 0 <= i < |bs| && bs[i].key == key
  {
    if Last(bs).key != key {
      LookupFinds(Init(bs), key);
    }
  }

  lemma {:induction false} DistinctByPairs(bs: Bindings)
    requires forall i, j :: 0 <= i < j < |bs| ==> bs[i].key != bs[j].key
    ensures Distinct(bs)
  {
    if bs == [] {
    } else {
      DistinctByPairs(Init(bs));
      if Lookup(Init(bs), Last(bs).key).Some? {
        LookupFinds(Init(bs), Last(bs).key);
      }
    }
  }

  lemma DefaultIsFine()
    ensures Distinct(DEFAULT_BINDINGS) && Writable(DEFAULT_BINDINGS)
  {
    DistinctByPairs(DEFAULT_BINDINGS);
  }

  /** Whatever the two files hold, the loaded keymap survives export and reload over the defaults. */
  lemma LoadedSurvivesExport(user: Layer, project: Layer, order: seq<Action>, a: Action, key: Binding)
    requires forall b: Action :: b in order
    ensures var loaded := Loaded(user, project);
            var reloaded := Layered(DEFAULT_BINDINGS, Exported(loaded, order));
            KeysFor(reloaded, a) == KeysFor(loaded, a) && Lookup(reloaded, key) == Lookup(loaded, key)
  {
    DefaultIsFine();
    LayerIsUpdates(DEFAULT_BINDINGS, user);
    LayerIsUpdates(Layered(DEFAULT_BINDINGS, user), project);
    LayerKeepsWritable(DEFAULT_BINDINGS, user);
    LayerKeepsWritable(Layered(DEFAULT_BINDINGS, user), project);
    ReloadRestores(DEFAULT_BINDINGS, Loaded(user, project), order, a, key);
  }
}
