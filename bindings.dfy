/**
 * The key bindings of `arcgame/config/bindings.py`: a dictionary from key
 * names to action names, kept in insertion order like a Python dict. Keys
 * are stored and looked up upper-cased.
 */
module Bindings {
  import opened Wrappers

  predicate IsLower(c: char) { 'a' <= c <= 'z' }

  /** A string with no lower-case ASCII letter in it. */
  predicate NoLower(s: string)
  {
    forall i :: 0 <= i < |s| ==> !IsLower(s[i])
  }

  /** `str.upper` on one ASCII character. */
  function UpperChar(c: char): (r: char)
    ensures !IsLower(r)
    ensures !IsLower(c) ==> r == c
  {
    if IsLower(c) then (c as int - 32) as char else c
  }

  /** `str.upper`: the same length, no lower-case letter left, and a string without one is kept as it is. */
  function Upper(s: string): (r: string)
    ensures |r| == |s| && NoLower(r)
    ensures NoLower(s) ==> r == s
  {
    if s == [] then [] else [UpperChar(s[0])] + Upper(s[1..])
  }

  /** Upper-casing twice is upper-casing once. */
  lemma UpperIdempotent(s: string)
    ensures Upper(Upper(s)) == Upper(s)
  {
  }

  /** One entry of the bindings dictionary. */
  datatype Binding = Binding(key: string, action: string)

  /** Dictionary keys are unique. */
  predicate DistinctKeys(es: seq<Binding>)
  {
    forall i, j :: 0 <= i < j < |es| ==> es[i].key != es[j].key
  }

  /** Dictionary lookup: the action of the entry with key `k`, if any. */
  function Lookup(es: seq<Binding>, k: string): (r: Option<string>)
    ensures r.Some? <==> exists i :: 0 <= i < |es| && es[i].key == k
    ensures r.Some? ==> exists i :: 0 <= i < |es| && es[i] == Binding(k, r.value)
  {
    if es == [] then None
    else if es[0].key == k then Some(es[0].action)
    else
      var r := Lookup(es[1..], k);
      assert forall i :: 0 < i < |es| ==> es[i] == es[1..][i - 1];
      r
  }

  /** With unique keys, the lookup finds the one entry holding the key. */
  lemma {:induction false} LookupAt(es: seq<Binding>, i: nat)
    requires DistinctKeys(es) && i < |es|
    ensures Lookup(es, es[i].key) == Some(es[i].action)
  {
    if i > 0 {
      LookupAt(es[1..], i - 1);
    }
  }

  /** `d[k] = a`: an existing key keeps its place and takes the new action, a new key goes at the end. */
  function Assign(es: seq<Binding>, k: string, a: string): seq<Binding>
  {
    if es == [] then [Binding(k, a)]
    else if es[0].key == k then [Binding(k, a)] + es[1..]
    else [es[0]] + Assign(es[1..], k, a)
  }

  /** After `d[k] = a`, `k` finds `a`, every other key finds what it found before, and keys stay unique. */
  lemma {:induction false} AssignFacts(es: seq<Binding>, k: string, a: string)
    requires DistinctKeys(es)
    ensures DistinctKeys(Assign(es, k, a))
    ensures forall q :: Lookup(Assign(es, k, a), q) == if q == k then Some(a) else Lookup(es, q)
  {
    if es != [] && es[0].key != k {
      var tail := es[1..];
      AssignFacts(tail, k, a);
      var r := Assign(es, k, a);
      assert r == [es[0]] + Assign(tail, k, a);
      assert Lookup(tail, es[0].key) == None;
      assert Lookup(Assign(tail, k, a), es[0].key) == None;
      forall i, j | 0 <= i < j < |r| ensures r[i].key != r[j].key {
        if i == 0 {
          assert r[j] == Assign(tail, k, a)[j - 1];
        } else {
          assert r[i] == Assign(tail, k, a)[i - 1] && r[j] == Assign(tail, k, a)[j - 1];
        }
      }
      forall q ensures Lookup(r, q) == if q == k then Some(a) else Lookup(es, q) {
        if q != es[0].key {
          assert Lookup(r, q) == Lookup(Assign(tail, k, a), q);
        }
      }
    } else if es != [] {
      var r := Assign(es, k, a);
      assert r[1..] == es[1..];
      forall q ensures Lookup(r, q) == if q == k then Some(a) else Lookup(es, q) {
        if q != k {
          assert Lookup(r, q) == Lookup(es[1..], q);
        }
      }
    }
  }

  /** The dictionary without the entries bound to action `a`, in their order. */
  function Unbind(es: seq<Binding>, a: string): (r: seq<Binding>)
  {
    if es == [] then [] else (if es[0].action == a then [] else [es[0]]) + Unbind(es[1..], a)
  }

  /** The keys of the entries bound to `a`, in order: the first loop of `clear_bindings_for_action`. */
  function BoundKeys(es: seq<Binding>, a: string): seq<string>
  {
    if es == [] then []
    else BoundKeys(es[..|es| - 1], a) + (if es[|es| - 1].action == a then [es[|es| - 1].key] else [])
  }

  /** The dictionary without the entry keyed `k` (`del d[k]`). */
  function RemoveKey(es: seq<Binding>, k: string): seq<Binding>
  {
    if es == [] then [] else (if es[0].key == k then [] else [es[0]]) + RemoveKey(es[1..], k)
  }

  /** The dictionary without the entries keyed by any of `ks`. */
  function Drop(es: seq<Binding>, ks: seq<string>): seq<Binding>
  {
    if es == [] then [] else (if es[0].key in ks then [] else [es[0]]) + Drop(es[1..], ks)
  }

  /** Deleting one more key is dropping one more key. */
  lemma {:induction false} RemoveAfterDrop(es: seq<Binding>, ks: seq<string>, k: string)
    ensures RemoveKey(Drop(es, ks), k) == Drop(es, ks + [k])
  {
    if es != [] {
      RemoveAfterDrop(es[1..], ks, k);
      var head := if es[0].key in ks then [] else [es[0]];
      assert Drop(es, ks) == head + Drop(es[1..], ks);
      RemoveKeySplit(head, Drop(es[1..], ks), k);
    }
  }

  lemma {:induction false} RemoveKeySplit(xs: seq<Binding>, ys: seq<Binding>, k: string)
    ensures RemoveKey(xs + ys, k) == RemoveKey(xs, k) + RemoveKey(ys, k)
  {
    if xs != [] {
      assert (xs + ys)[1..] == xs[1..] + ys;
      RemoveKeySplit(xs[1..], ys, k);
    } else {
      assert xs + ys == ys;
    }
  }

  /** With unique keys, a key is among those bound to `a` exactly when its entry is bound to `a`. */
  lemma {:induction false} BoundKeysExact(es: seq<Binding>, a: string, i: nat)
    requires DistinctKeys(es) && i < |es|
    ensures es[i].key in BoundKeys(es, a) <==> es[i].action == a
  {
    var n := |es| - 1;
    var init := es[..n];
    assert DistinctKeys(init);
    if i < n {
      BoundKeysExact(init, a, i);
      assert init[i] == es[i];
    } else {
      BoundKeysAbsent(init, a, es[n].key);
    }
  }

  lemma {:induction false} BoundKeysAbsent(es: seq<Binding>, a: string, k: string)
    requires forall i :: 0 <= i < |es| ==> es[i].key != k
    ensures k !in BoundKeys(es, a)
  {
    if es != [] {
      BoundKeysAbsent(es[..|es| - 1], a, k);
    }
  }

  /** Dropping exactly the keys of the entries bound to `a` is unbinding `a`. */
  lemma {:induction false} DropIsUnbind(es: seq<Binding>, ks: seq<string>, a: string)
    requires forall i :: 0 <= i < |es| ==> (es[i].key in ks <==> es[i].action == a)
    ensures Drop(es, ks) == Unbind(es, a)
  {
    if es != [] {
      assert forall i :: 0 <= i < |es[1..]| ==> es[1..][i] == es[i + 1];
      DropIsUnbind(es[1..], ks, a);
    }
  }

  /** Unbinding keeps keys unique and makes exactly the keys bound to `a` unbound. */
  lemma {:induction false} UnbindFacts(es: seq<Binding>, a: string)
    requires DistinctKeys(es)
    ensures DistinctKeys(Unbind(es, a))
    ensures forall q :: Lookup(Unbind(es, a), q) == if Lookup(es, q) == Some(a) then None else Lookup(es, q)
  {
    if es != [] {
      var tail := es[1..];
      UnbindFacts(tail, a);
      var r := Unbind(es, a);
      var rest := Unbind(tail, a);
      assert Lookup(tail, es[0].key) == None;
      if es[0].action != a {
        assert r == [es[0]] + rest;
        assert Lookup(rest, es[0].key) == None;
        forall i, j | 0 <= i < j < |r| ensures r[i].key != r[j].key {
          if i == 0 {
            assert r[j] == rest[j - 1];
          } else {
            assert r[i] == rest[i - 1] && r[j] == rest[j - 1];
          }
        }
        forall q ensures Lookup(r, q) == if Lookup(es, q) == Some(a) then None else Lookup(es, q) {
          if q != es[0].key {
            assert Lookup(r, q) == Lookup(rest, q);
          }
        }
      } else {
        assert r == rest;
        forall q ensures Lookup(r, q) == if Lookup(es, q) == Some(a) then None else Lookup(es, q) {
          if q == es[0].key {
            assert Lookup(rest, q) == None;
          }
        }
      }
    }
  }

  /** The keys of the default bindings, with the four movement keys upper-cased as every lookup expects. */
  const DefaultKeys: seq<string> := [
    "A", "D", "W", "S", "SPACE", "CTRL", "SHIFT", "1", "2", "3", "4", "5",
    "TAB", "T", "Y", "F1", "F2", "F3", "F4", "ESCAPE", "MOUSE1", "MOUSE2", "MWHEELUP", "MWHEELDOWN"]

  /** The actions of the default bindings, key by key. */
  const DefaultActions: seq<string> := [
    "+left", "+right", "+jump", "+down", "+hook", "+fire", "+weapon1", "+weapon2", "+weapon3",
    "+weapon4", "+weapon5", "+weapon6", "+scoreboard", "+chat", "+teamchat", "+spectate",
    "+emote", "+tune", "+pause", "+menu", "+fire", "+hook", "+prevweapon", "+nextweapon"]

  /** The keys of the default bindings as the source writes them: the movement keys are lower-case. */
  const DefaultKeysAsWritten: seq<string> := ["a", "d", "w", "s"] + DefaultKeys[4..]

  function Zip(keys: seq<string>, actions: seq<string>): (r: seq<Binding>)
    requires |keys| == |actions|
    ensures |r| == |keys| && forall i :: 0 <= i < |r| ==> r[i] == Binding(keys[i], actions[i])
  {
    seq(|keys|, i requires 0 <= i < |keys| => Binding(keys[i], actions[i]))
  }

  /** The default bindings as the source writes them. */
  const DefaultsAsWritten: seq<Binding> := Zip(DefaultKeysAsWritten, DefaultActions)

  /** The default bindings with the movement keys corrected. */
  const Defaults: seq<Binding> := Zip(DefaultKeys, DefaultActions)

  predicate MovementAction(a: string)
  {
    a == "+left" || a == "+right" || a == "+jump" || a == "+down"
  }

  /** Only the first four defaults are movement bindings. */
  lemma MovementFirst()
    ensures forall i :: 4 <= i < |DefaultActions| ==> !MovementAction(DefaultActions[i])
  {
  }

  /**
   * As written, no key name reaches a movement action of the defaults:
   * `get_binding` upper-cases the name, and the movement actions are bound
   * only under lower-case keys.
   */
  lemma MovementUnreachableAsWritten(key: string)
    ensures var r := Lookup(DefaultsAsWritten, Upper(key)); r.Some? ==> !MovementAction(r.value)
  {
    var k := Upper(key);
    var r := Lookup(DefaultsAsWritten, k);
    if r.Some? && MovementAction(r.value) {
      var i :| 0 <= i < |DefaultsAsWritten| && DefaultsAsWritten[i] == Binding(k, r.value);
      MovementFirst();
      assert i < 4;
      assert IsLower(DefaultKeysAsWritten[i][0]);
      assert false;
    }
  }

  /** The corrected defaults have unique keys. */
  lemma DefaultsDistinct()
    ensures DistinctKeys(Defaults)
  {
    assert forall i, j :: 0 <= i < j < |DefaultKeys| ==> DefaultKeys[i] != DefaultKeys[j];
  }

  /** With the corrected defaults the movement keys are found, typed in either case. */
  lemma MovementReachable(i: nat)
    requires i < 4
    ensures Lookup(Defaults, Upper(DefaultKeysAsWritten[i])) == Some(DefaultActions[i])
    ensures Lookup(Defaults, Upper(DefaultKeys[i])) == Some(DefaultActions[i])
  {
    var k := DefaultKeysAsWritten[i];
    assert |k| == 1 && k[1..] == [];
    assert Upper(k) == [UpperChar(k[0])] + Upper([]);
    assert Upper(k) == DefaultKeys[i];
    DefaultsDistinct();
    LookupAt(Defaults, i);
  }

  /** The `Bindings` object: its dictionary, in insertion order. */
  class KeyBindings {
    var entries: seq<Binding>

    ghost predicate Valid()
      reads this
    {
      DistinctKeys(entries)
    }

    /** The defaults (loading a bindings file is not modelled). */
    constructor ()
      ensures Valid() && entries == Defaults
    {
      DefaultsDistinct();
      entries := Defaults;
    }

    /** `get_binding`: the action bound to the upper-cased key, or "" when there is none. */
    function GetBinding(key: string): (r: string)
      reads this
      ensures (exists i :: 0 <= i < |entries| && entries[i] == Binding(Upper(key), r))
        || (r == "" && forall i :: 0 <= i < |entries| ==> entries[i].key != Upper(key))
    {
      Lookup(entries, Upper(key)).GetOr("")
    }

    /** `set_binding`: the upper-cased key is bound to `action`; every other key keeps its action. */
    method SetBinding(key: string, action: string)
      requires Valid()
      modifies this
      ensures Valid() && entries == Assign(old(entries), Upper(key), action)
      ensures GetBinding(key) == action
      ensures forall k :: Upper(k) != Upper(key) ==> GetBinding(k) == old(GetBinding(k))
    {
      AssignFacts(entries, Upper(key), action);
      entries := Assign(entries, Upper(key), action);
    }

    /** `get_all_bindings`: a copy of the dictionary, as a key-to-action map. */
    function AllBindings(): (r: map<string, string>)
      reads this
      ensures forall k :: k in r <==> Lookup(entries, k).Some?
      ensures forall k :: k in r ==> Lookup(entries, k) == Some(r[k])
    {
      map k | k in (set i | 0 <= i < |entries| :: entries[i].key) :: Lookup(entries, k).value
    }

    /** `get_key_for_action`: the first key, in dictionary order, bound to `action`, or "" when there is none. */
    method GetKeyForAction(action: string) returns (key: string)
      ensures (exists i :: 0 <= i < |entries| && entries[i].action == action) ==>
        exists i :: 0 <= i < |entries| && entries[i] == Binding(key, action)
          && forall j :: 0 <= j < i ==> entries[j].action != action
      ensures (forall i :: 0 <= i < |entries| ==> entries[i].action != action) ==> key == ""
    {
      var i := 0;
      while i < |entries|
        invariant 0 <= i <= |entries|
        invariant forall j :: 0 <= j < i ==> entries[j].action != action
      {
        if entries[i].action == action {
          return entries[i].key;
        }
        i := i + 1;
      }
      return "";
    }

    /**
     * `clear_bindings_for_action`: collect the keys bound to `action`, then
     * delete them; what is left is every other entry, in its order.
     */
    method ClearBindingsForAction(action: string)
      requires Valid()
      modifies this
      ensures Valid() && entries == Unbind(old(entries), action)
      ensures forall q :: Lookup(entries, q) == if Lookup(old(entries), q) == Some(action) then None else Lookup(old(entries), q)
    {
      ghost var es := entries;
      var toRemove: seq<string> := [];
      var i := 0;
      while i < |entries|
        invariant 0 <= i <= |entries| && toRemove == BoundKeys(entries[..i], action)
      {
        assert entries[..i + 1][..i] == entries[..i];
        if entries[i].action == action {
          toRemove := toRemove + [entries[i].key];
        }
        i := i + 1;
      }
      assert entries[..i] == es;
      var j := 0;
      assert toRemove[..0] == [];
      assert Drop(es, []) == es by { DropNone(es); }
      while j < |toRemove|
        invariant 0 <= j <= |toRemove| && entries == Drop(es, toRemove[..j])
      {
        RemoveAfterDrop(es, toRemove[..j], toRemove[j]);
        assert toRemove[..j] + [toRemove[j]] == toRemove[..j + 1];
        entries := RemoveKey(entries, toRemove[j]);
        j := j + 1;
      }
      assert toRemove[..j] == toRemove;
      forall k | 0 <= k < |es| ensures es[k].key in toRemove <==> es[k].action == action {
        BoundKeysExact(es, action, k);
      }
      DropIsUnbind(es, toRemove, action);
      UnbindFacts(es, action);
    }
  }

  lemma {:induction false} DropNone(es: seq<Binding>)
    ensures Drop(es, []) == es
  {
    if es != [] {
      DropNone(es[1..]);
    }
  }
}
