/** The action nodes of the transforms file: the modifier enum callbacks with their id stores,
    the rename nodes that leave data blocks alone, and the select-and-activate prelude of Join
    Objects Geometry and the two translate nodes. */
module Transforms {
  import opened Wrappers
  import opened Seqs
  import opened Host
  import Misc

  /** An entry of a modifier store: an id and the modifier type (or name) it stands for. */
  datatype Record = Record(id: int, key: string)

  /** An enum item tuple `(identifier, name, description, number)`. */
  datatype EnumItem = EnumItem(identifier: string, name: string, description: string, number: int)

  /** What a store is keyed on: `mod.type` for Apply Modifier By Type, `mod.name` for Apply
      Modifier By Name. */
  function KeyOf(m: Modifier, byName: bool): string {
    if byName then m.name else m.kind
  }

  /** The keys of a modifier stack, in stack order. */
  function ModifierKeys(mods: seq<Modifier>, byName: bool): (r: seq<string>)
    ensures |r| == |mods| && forall k | 0 <= k < |mods| :: r[k] == KeyOf(mods[k], byName)
  {
    if |mods| == 0 then [] else ModifierKeys(mods[..|mods| - 1], byName) + [KeyOf(mods[|mods| - 1], byName)]
  }

  /** The keys of every modifier of every listed object, object by object. */
  function ObjectKeys(objects: seq<HostObject>, obs: seq<ObjId>, byName: bool): seq<string> {
    if |obs| == 0 then []
    else
      var ob := obs[|obs| - 1];
      ObjectKeys(objects, obs[..|obs| - 1], byName)
      + (if ob < |objects| then ModifierKeys(objects[ob].modifiers, byName) else [])
  }

  /** The position of the first record for `key`. */
  function KeyIndex(records: seq<Record>, key: string): Option<nat> {
    FirstIndex((r: Record) => r.key == key, records)
  }

  predicate HasKey(records: seq<Record>, key: string) {
    KeyIndex(records, key).Some?
  }

  /** The id of the first record for `key`. */
  function IdOf(records: seq<Record>, key: string): int
    requires HasKey(records, key)
  {
    records[KeyIndex(records, key).value].id
  }

  /** The records the scan loop visits before it breaks: up to and including the first record for
      `key`, or all of them. */
  function Scanned(records: seq<Record>, key: string): (s: seq<Record>)
    ensures s <= records
  {
    match KeyIndex(records, key)
    case Some(j) => records[..j + 1]
    case None => records
  }

  /** The `id` variable after the scan: the last visited record's id, or -1. */
  function LastId(s: seq<Record>): int {
    if |s| == 0 then -1 else s[|s| - 1].id
  }

  /** The `maxid` variable after the scan: the largest visited id, or -1. */
  function MaxId(s: seq<Record>): (m: int)
    ensures m >= -1 && forall k | 0 <= k < |s| :: s[k].id <= m
    ensures m == -1 || exists k | 0 <= k < |s| :: s[k].id == m
  {
    if |s| == 0 then -1
    else
      var m := MaxId(s[..|s| - 1]);
      if s[|s| - 1].id > m then s[|s| - 1].id else m
  }

  /** The store after one modifier: a key seen before leaves it as it is; a new key is appended
      with one more than the largest id (the scan visited every record). */
  function Stored(records: seq<Record>, key: string): seq<Record> {
    if HasKey(records, key) then records else records + [Record(MaxId(records) + 1, key)]
  }

  /** One modifier, as the callback is meant to work: the store afterwards, and an item whose
      number is the id the store holds for its key. */
  function Registration(records: seq<Record>, key: string): (seq<Record>, EnumItem) {
    var after := Stored(records, key);
    var id := if HasKey(records, key) then IdOf(records, key) else MaxId(records) + 1;
    (after, EnumItem(key, key, key, id))
  }

  /** One modifier, as `get_modifiers_types` and `get_modifiers_names` are written: the item's
      number is whatever `id` holds after the scan, which for a new key is the last scanned
      record's id (or -1), not the id just allocated. */
  function RegistrationAsWritten(records: seq<Record>, key: string): (seq<Record>, EnumItem) {
    (Stored(records, key), EnumItem(key, key, key, LastId(Scanned(records, key))))
  }

  /** The store and the items after a whole callback over `keys`, in order. */
  function Registered(records: seq<Record>, keys: seq<string>): (seq<Record>, seq<EnumItem>) {
    if |keys| == 0 then (records, [])
    else
      var (rs, items) := Registered(records, keys[..|keys| - 1]);
      var (after, item) := Registration(rs, keys[|keys| - 1]);
      (after, items + [item])
  }

  predicate DistinctKeys(records: seq<Record>) {
    forall i, j | 0 <= i < j < |records| :: records[i].key != records[j].key
  }

  predicate DistinctIds(records: seq<Record>) {
    forall i, j | 0 <= i < j < |records| :: records[i].id != records[j].id
  }

  /** For a key the store already holds, the written code and the intended one agree; for a new
      key the written code numbers the item with the last record's id (-1 for an empty store). */
  lemma AsWrittenNumbering(records: seq<Record>, key: string)
    ensures HasKey(records, key) ==> RegistrationAsWritten(records, key) == Registration(records, key)
    ensures !HasKey(records, key) ==> RegistrationAsWritten(records, key).1.number == LastId(records)
  {
  }

  /** With `SUBSURF` stored under id 0, a first `MIRROR` modifier is stored under id 1 but the
      written code numbers its item 0, the number of the `SUBSURF` item. */
  lemma NewKeyItemCollides()
    ensures var records := [Record(0, "SUBSURF")];
            && RegistrationAsWritten(records, "MIRROR").0 == [Record(0, "SUBSURF"), Record(1, "MIRROR")]
            && RegistrationAsWritten(records, "MIRROR").1.number == 0
            && Registration(records, "SUBSURF").1.number == 0
            && Registration(records, "MIRROR").1.number == 1
  {
    var records := [Record(0, "SUBSURF")];
    assert !HasKey(records, "MIRROR");
    assert MaxId(records) == 0 by {
      assert records[..0] == [];
    }
  }

  /** The store only grows at its end, and afterwards holds every key of the callback. */
  lemma RegisteredAppendOnly(records: seq<Record>, keys: seq<string>)
    ensures var (rs, items) := Registered(records, keys);
            && records <= rs
            && |items| == |keys|
            && (forall k | 0 <= k < |keys| :: HasKey(rs, keys[k]))
            && forall k | 0 <= k < |keys| :: items[k].identifier == items[k].name == items[k].description == keys[k]
  {
    RegisteredGrows(records, keys);
    RegisteredItemsNameKeys(records, keys);
    RegisteredHoldsKeys(records, keys);
  }

  lemma {:induction false} RegisteredGrows(records: seq<Record>, keys: seq<string>)
    ensures records <= Registered(records, keys).0
  {
    if |keys| > 0 {
      var init := keys[..|keys| - 1];
      RegisteredGrows(records, init);
      var rs := Registered(records, init).0;
      assert rs <= Stored(rs, keys[|keys| - 1]);
    }
  }

  lemma {:induction false} RegisteredItemsNameKeys(records: seq<Record>, keys: seq<string>)
    ensures var items := Registered(records, keys).1;
            && |items| == |keys|
            && forall k | 0 <= k < |keys| :: items[k].identifier == items[k].name == items[k].description == keys[k]
  {
    if |keys| > 0 {
      var init := keys[..|keys| - 1];
      RegisteredItemsNameKeys(records, init);
      var (rs, items) := Registered(records, init);
      var item := Registration(rs, keys[|keys| - 1]).1;
      assert Registered(records, keys).1 == items + [item];
      assert forall k | 0 <= k < |init| :: keys[k] == init[k];
    }
  }

  lemma {:induction false} RegisteredHoldsKeys(records: seq<Record>, keys: seq<string>)
    ensures forall k | 0 <= k < |keys| :: HasKey(Registered(records, keys).0, keys[k])
  {
    if |keys| > 0 {
      var init := keys[..|keys| - 1];
      var key := keys[|keys| - 1];
      RegisteredHoldsKeys(records, init);
      var rs := Registered(records, init).0;
      assert Registered(records, keys).0 == Stored(rs, key);
      forall k | 0 <= k < |keys|
        ensures HasKey(Stored(rs, key), keys[k])
      {
        if k < |init| {
          assert keys[k] == init[k];
          StoredKeepsIds(rs, key, keys[k]);
        } else {
          StoredHasKey(rs, key);
        }
      }
    }
  }

  /** A key the store holds keeps its id when another key is stored. */
  lemma StoredKeepsIds(records: seq<Record>, key: string, other: string)
    requires HasKey(records, other)
    ensures HasKey(Stored(records, key), other) && IdOf(Stored(records, key), other) == IdOf(records, other)
  {
    if !HasKey(records, key) {
      var after := records + [Record(MaxId(records) + 1, key)];
      var j := KeyIndex(records, other).value;
      assert after[j].key == other;
      assert forall i | 0 <= i < j :: after[i] == records[i];
      match KeyIndex(after, other)
      case None =>
        assert false;
      case Some(i) =>
        assert i == j;
    }
  }

  /** After a key is stored the store holds it, under the id the item gets. */
  lemma StoredHasKey(records: seq<Record>, key: string)
    ensures HasKey(Stored(records, key), key)
    ensures IdOf(Stored(records, key), key) == Registration(records, key).1.number
  {
    if !HasKey(records, key) {
      var after := records + [Record(MaxId(records) + 1, key)];
      assert after[|records|].key == key;
      assert forall i | 0 <= i < |records| :: after[i] == records[i];
      match KeyIndex(after, key)
      case None =>
        assert false;
      case Some(i) =>
        assert i == |records|;
    }
  }

  /** A store with distinct keys and distinct ids keeps both: a key is appended only when it is
      missing, and its id is larger than every id already there. */
  lemma {:induction false} RegisteredKeepsStoreDistinct(records: seq<Record>, keys: seq<string>)
    requires DistinctKeys(records) && DistinctIds(records)
    ensures DistinctKeys(Registered(records, keys).0) && DistinctIds(Registered(records, keys).0)
  {
    if |keys| > 0 {
      var init := keys[..|keys| - 1];
      var key := keys[|keys| - 1];
      RegisteredKeepsStoreDistinct(records, init);
      var rs := Registered(records, init).0;
      if !HasKey(rs, key) {
        var after := rs + [Record(MaxId(rs) + 1, key)];
        assert forall i | 0 <= i < |rs| :: after[i] == rs[i];
      }
    }
  }

  /** Each item is numbered with the id its key has in the final store, so items for the same key
      share a number, and in a store with distinct ids items for different keys never do. */
  lemma {:induction false} RegisteredItemNumbers(records: seq<Record>, keys: seq<string>)
    ensures var (rs, items) := Registered(records, keys);
            && |items| == |keys|
            && (forall k | 0 <= k < |keys| :: HasKey(rs, keys[k]) && items[k].number == IdOf(rs, keys[k]))
  {
    RegisteredAppendOnly(records, keys);
    if |keys| > 0 {
      var init := keys[..|keys| - 1];
      var key := keys[|keys| - 1];
      RegisteredItemNumbers(records, init);
      RegisteredAppendOnly(records, init);
      var (rs, items) := Registered(records, init);
      var (after, item) := Registration(rs, key);
      StoredHasKey(rs, key);
      forall k | 0 <= k < |init|
        ensures HasKey(after, keys[k]) && (items + [item])[k].number == IdOf(after, keys[k])
      {
        assert keys[k] == init[k];
        StoredKeepsIds(rs, key, keys[k]);
      }
    }
  }

  /** Starting from a store with distinct keys and ids (an empty one, say), two items of a
      callback share a number exactly when they are for the same key. */
  lemma ItemNumbersIdentifyKeys(records: seq<Record>, keys: seq<string>)
    requires DistinctKeys(records) && DistinctIds(records)
    ensures var items := Registered(records, keys).1;
            forall a, b | 0 <= a < |items| && 0 <= b < |items| ::
              items[a].number == items[b].number <==> items[a].identifier == items[b].identifier
  {
    var (rs, items) := Registered(records, keys);
    RegisteredAppendOnly(records, keys);
    RegisteredItemNumbers(records, keys);
    RegisteredKeepsStoreDistinct(records, keys);
    forall a, b | 0 <= a < |items| && 0 <= b < |items|
      ensures items[a].number == items[b].number <==> items[a].identifier == items[b].identifier
    {
      assert items[a].identifier == keys[a] && items[b].identifier == keys[b];
      assert items[a].number == IdOf(rs, keys[a]) && items[b].number == IdOf(rs, keys[b]);
      if keys[a] != keys[b] {
        var i := KeyIndex(rs, keys[a]).value;
        var j := KeyIndex(rs, keys[b]).value;
        assert rs[i].key == keys[a] && rs[j].key == keys[b];
      }
    }
  }

  /** A class-level store of one of the two Apply Modifier nodes. All nodes of the class share it,
      and nothing ever removes an entry. */
  class ModifierStore {
    var records: seq<Record>

    constructor ()
      ensures records == []
    {
      records := [];
    }

    /** The scan loop: `id` and `maxid` as the loop leaves them, and whether it found `key`. */
    method Scan(key: string) returns (id: int, maxid: int, found: bool)
      ensures found <==> HasKey(records, key)
      ensures id == LastId(Scanned(records, key)) && maxid == MaxId(Scanned(records, key))
    {
      id, maxid, found := -1, -1, false;
      var j := 0;
      while j < |records| && !found
        invariant 0 <= j <= |records| && (found ==> j > 0)
        invariant forall k | 0 <= k < j - 1 :: records[k].key != key
        invariant j > 0 ==> (found <==> records[j - 1].key == key)
        invariant !found ==> j == 0 || records[j - 1].key != key
        invariant id == LastId(records[..j]) && maxid == MaxId(records[..j])
      {
        assert records[..j + 1][..j] == records[..j];
        id := records[j].id;
        if id > maxid {
          maxid := id;
        }
        if records[j].key == key {
          found := true;
        }
        j := j + 1;
      }
      if found {
        match KeyIndex(records, key)
        case Some(i) =>
          assert i == j - 1;
        case None =>
          assert false;
      } else {
        assert records[..j] == records;
        match KeyIndex(records, key)
        case Some(i) =>
          assert false;
        case None =>
      }
    }

    /** The body of the inner loop for one modifier, with the intended item number. */
    method Register(key: string) returns (item: EnumItem)
      modifies this
      ensures (records, item) == Registration(old(records), key)
    {
      var id, maxid, found := Scan(key);
      if !found {
        id := maxid + 1;
        records := records + [Record(id, key)];
      } else {
        match KeyIndex(records, key)
        case Some(j) =>
          assert Scanned(records, key) == records[..j + 1];
      }
      item := EnumItem(key, key, key, id);
    }

    /** The inner loop: one item per modifier of one object, in stack order, each numbered as
        intended (see `RegistrationAsWritten` for the numbering as written). */
    method RegisterStack(mods: seq<Modifier>, byName: bool) returns (items: seq<EnumItem>)
      modifies this
      ensures (records, items) == Registered(old(records), ModifierKeys(mods, byName))
    {
      items := [];
      for j := 0 to |mods|
        invariant (records, items) == Registered(old(records), ModifierKeys(mods[..j], byName))
      {
        var item := Register(KeyOf(mods[j], byName));
        items := items + [item];
        assert mods[..j + 1][..j] == mods[..j];
      }
      assert mods[..|mods|] == mods;
    }

    /** `get_modifiers_types` (`byName` off) and `get_modifiers_names` (`byName` on) with the
        item numbering corrected (see `RegistrationAsWritten`): one item per modifier of each
        object in `obs`, the node's input data, in object-then-modifier order. */
    method EnumItems(objects: seq<HostObject>, obs: seq<ObjId>, byName: bool) returns (items: seq<EnumItem>)
      requires ValidIds(objects, obs)
      modifies this
      ensures (records, items) == Registered(old(records), ObjectKeys(objects, obs, byName))
    {
      items := [];
      for i := 0 to |obs|
        invariant (records, items) == Registered(old(records), ObjectKeys(objects, obs[..i], byName))
      {
        ghost var before := records;
        ghost var keys := ObjectKeys(objects, obs[..i], byName);
        var stack := RegisterStack(objects[obs[i]].modifiers, byName);
        items := items + stack;
        RegisteredConcat(old(records), keys, ModifierKeys(objects[obs[i]].modifiers, byName));
        assert obs[..i + 1][..i] == obs[..i];
      }
      assert obs[..|obs|] == obs;
    }
  }

  /** A callback over `first + second` is one over `first` followed by one over `second` on the
      store the first one leaves. */
  lemma {:induction false} RegisteredConcat(records: seq<Record>, first: seq<string>, second: seq<string>)
    ensures var (mid, a) := Registered(records, first);
            var (last, b) := Registered(mid, second);
            Registered(records, first + second) == (last, a + b)
  {
    if |second| == 0 {
      assert first + second == first;
      assert Registered(records, first).1 + [] == Registered(records, first).1;
    } else {
      var init := second[..|second| - 1];
      RegisteredConcat(records, first, init);
      assert (first + second)[..|first + second| - 1] == first + init;
      var (mid, a) := Registered(records, first);
      var (last, b) := Registered(mid, init);
      var (after, item) := Registration(last, second[|second| - 1]);
      assert Registered(records, first + second) == (after, (a + b) + [item]);
      assert Registered(mid, second) == (after, b + [item]);
      assert (a + b) + [item] == a + (b + [item]);
    }
  }

  /** `WFNodeAddPrefixToName.execute` of the action node: `obs` is what the pull evaluator
      gathered; only each object's name changes, never its data block's. */
  method AddPrefixToName(scene: Scene, obs: seq<ObjId>, prefix: string) returns (out: seq<ObjId>)
    requires ValidIds(scene.objects, obs)
    modifies scene
    ensures out == obs
    ensures scene.objects == Misc.Renamed(old(scene.objects), obs, Misc.Prefix(prefix), false)
    ensures scene.selected == old(scene.selected) && scene.active == old(scene.active)
    ensures scene.excluded == old(scene.excluded) && scene.console == old(scene.console)
  {
    out := Misc.AddAffix(scene, obs, Misc.Prefix(prefix), false);
  }

  /** Add Suffix To Objects Names: as the prefix node, with the string appended. */
  method AddSuffixToName(scene: Scene, obs: seq<ObjId>, suffix: string) returns (out: seq<ObjId>)
    requires ValidIds(scene.objects, obs)
    modifies scene
    ensures out == obs
    ensures scene.objects == Misc.Renamed(old(scene.objects), obs, Misc.Suffix(suffix), false)
    ensures scene.selected == old(scene.selected) && scene.active == old(scene.active)
    ensures scene.excluded == old(scene.excluded) && scene.console == old(scene.console)
  {
    out := Misc.AddAffix(scene, obs, Misc.Suffix(suffix), false);
  }

  /** The prelude shared by Join Objects Geometry and the two translate nodes: deselect all,
      select each input, make the last input active and return it alone. With no input
      `last_ob` is never bound and the activation raises, after the selection was cleared. */
  method SelectAndActivateLast(scene: Scene, obs: seq<ObjId>) returns (r: Result<seq<ObjId>>)
    modifies scene
    ensures scene.selected == set k | 0 <= k < |obs| :: obs[k]
    ensures |obs| == 0 ==> r == Err(UnboundLocalError("last_ob")) && scene.active == old(scene.active)
    ensures |obs| > 0 ==> r == Ok([obs[|obs| - 1]]) && scene.active == Some(obs[|obs| - 1])
    ensures scene.objects == old(scene.objects)
    ensures scene.excluded == old(scene.excluded) && scene.console == old(scene.console)
  {
    scene.SelectOnly(obs);
    if |obs| == 0 {
      return Err(UnboundLocalError("last_ob"));
    }
    var last := obs[|obs| - 1];
    scene.active := Some(last);
    r := Ok([last]);
  }

  /** `WFNodeTranslateToObjectPosition.execute`: the prelude, then reading the target's location,
      which raises when no target object is set. */
  method TranslateToObjectPosition(scene: Scene, obs: seq<ObjId>, target: Option<ObjId>) returns (r: Result<seq<ObjId>>)
    modifies scene
    ensures scene.selected == set k | 0 <= k < |obs| :: obs[k]
    ensures |obs| == 0 ==> r == Err(UnboundLocalError("last_ob")) && scene.active == old(scene.active)
    ensures |obs| > 0 ==> scene.active == Some(obs[|obs| - 1])
    ensures |obs| > 0 && target.None? ==> r == Err(AttributeError("location"))
    ensures |obs| > 0 && target.Some? ==> r == Ok([obs[|obs| - 1]])
    ensures scene.objects == old(scene.objects)
    ensures scene.excluded == old(scene.excluded) && scene.console == old(scene.console)
  {
    r := SelectAndActivateLast(scene, obs);
    if r.Ok? && target.None? {
      r := Err(AttributeError("location"));
    }
  }
}
