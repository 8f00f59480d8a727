/** The rename nodes: Add Prefix puts a string before each input object's name, Add Suffix after
    it, and each gives the object's data block (when it has one) the object's new name. The
    action nodes Add Prefix To Objects Names and Add Suffix To Objects Names rename in the same
    way but leave the data block alone; they reuse `AddAffix` with `syncData` off. */
module Misc {
  import opened Wrappers
  import opened Seqs
  import opened Host

  datatype Affix = Prefix(text: string) | Suffix(text: string)

  /** `prefix + name` or `name + suffix`. */
  function Affixed(a: Affix, name: string): string {
    match a
    case Prefix(p) => p + name
    case Suffix(x) => name + x
  }

  /** One pass of the loop body on one object: the new name, and the data block renamed to match
      when `syncData` is on and the object has data. */
  function RenamedOnce(o: HostObject, a: Affix, syncData: bool): HostObject {
    var name := Affixed(a, o.name);
    o.(name := name, data := if syncData && o.data.Some? then Some(o.data.value.(name := name)) else o.data)
  }

  /** The scene's objects after the loop has visited every reference in `obs`, in order. (A
      reference outside the scene is skipped; the nodes are only given objects of the scene.) */
  function Renamed(objects: seq<HostObject>, obs: seq<ObjId>, a: Affix, syncData: bool): (r: seq<HostObject>)
    ensures |r| == |objects|
  {
    if |obs| == 0 then objects
    else
      RenamedAt(Renamed(objects, obs[..|obs| - 1], a, syncData), obs[|obs| - 1], a, syncData)
  }

  /** The objects after the loop body has run for reference `ob`. */
  function RenamedAt(objects: seq<HostObject>, ob: ObjId, a: Affix, syncData: bool): (r: seq<HostObject>)
    ensures |r| == |objects|
  {
    if ob < |objects| then objects[ob := RenamedOnce(objects[ob], a, syncData)] else objects
  }

  /** `s * k` in Python. */
  function Repeat(s: string, k: nat): string {
    if k == 0 then "" else s + Repeat(s, k - 1)
  }

  lemma {:induction false} RepeatAppend(s: string, k: nat)
    ensures Repeat(s, k) + s == Repeat(s, k + 1)
  {
    if k > 0 {
      RepeatAppend(s, k - 1);
    }
  }

  /** The name after the affix was applied `k` times. */
  function AffixedTimes(a: Affix, name: string, k: nat): string {
    match a
    case Prefix(p) => Repeat(p, k) + name
    case Suffix(x) => name + Repeat(x, k)
  }

  /** Object `o` after it received the affix `k` times: the name carries the affix `k` times;
      its data block carries the new name when data is synchronised and `k > 0`, and keeps its own
      name otherwise; its type, modifiers, children and UV layers never change; with `k == 0` it
      is untouched. */
  predicate AffixedFrom(o: HostObject, r: HostObject, a: Affix, syncData: bool, k: nat) {
    && r.name == AffixedTimes(a, o.name, k)
    && r.kind == o.kind && r.modifiers == o.modifiers && r.children == o.children
    && r.data.Some? == o.data.Some?
    && (o.data.Some? ==> r.data.value.uvLayers == o.data.value.uvLayers)
    && (o.data.Some? ==> r.data.value.name == if syncData && k > 0 then r.name else o.data.value.name)
    && (k == 0 ==> r == o)
  }

  /** One more pass of the loop body adds one more affix. */
  lemma AffixedFromStep(o: HostObject, r: HostObject, a: Affix, syncData: bool, k: nat)
    requires AffixedFrom(o, r, a, syncData, k)
    ensures AffixedFrom(o, RenamedOnce(r, a, syncData), a, syncData, k + 1)
  {
    AffixedTimesStep(a, o.name, k);
  }

  lemma AffixedTimesStep(a: Affix, name: string, k: nat)
    ensures Affixed(a, AffixedTimes(a, name, k)) == AffixedTimes(a, name, k + 1)
  {
    match a
    case Prefix(p) =>
      AppendAssoc(p, Repeat(p, k), name);
    case Suffix(x) =>
      RepeatAppend(x, k);
      AppendAssoc(name, Repeat(x, k), x);
  }

  /** What the loop does to object `i`: it receives the affix once for every time it is listed. */
  lemma {:induction false} RenamedEffect(objects: seq<HostObject>, obs: seq<ObjId>, a: Affix, syncData: bool, i: nat)
    requires i < |objects|
    ensures AffixedFrom(objects[i], Renamed(objects, obs, a, syncData)[i], a, syncData, Count(obs, i))
  {
    if |obs| > 0 {
      var init := obs[..|obs| - 1];
      var ob := obs[|obs| - 1];
      RenamedEffect(objects, init, a, syncData, i);
      var prevs := Renamed(objects, init, a, syncData);
      if ob == i {
        AffixedFromStep(objects[i], prevs[i], a, syncData, Count(init, i));
      }
    }
  }

  /** Running the loop on `first` and then on `second` is running it once on both lists. */
  lemma {:induction false} RenamedConcat(objects: seq<HostObject>, first: seq<ObjId>, second: seq<ObjId>, a: Affix, syncData: bool)
    ensures Renamed(Renamed(objects, first, a, syncData), second, a, syncData) == Renamed(objects, first + second, a, syncData)
  {
    var both := first + second;
    if |second| > 0 {
      var init, ob := second[..|second| - 1], second[|second| - 1];
      var mid := Renamed(objects, first, a, syncData);
      calc {
        Renamed(mid, second, a, syncData);
        RenamedAt(Renamed(mid, init, a, syncData), ob, a, syncData);
        { RenamedConcat(objects, first, init, a, syncData); }
        RenamedAt(Renamed(objects, first + init, a, syncData), ob, a, syncData);
        { assert both[..|both| - 1] == first + init && both[|both| - 1] == ob; }
        Renamed(objects, both, a, syncData);
      }
    } else {
      assert both == first;
    }
  }

  /** The shared loop: for each listed object, in order, rename it and (with `syncData`) its data
      block. The output is the input list itself; the selection, the active object, the layer
      collections and the console are not touched. */
  method AddAffix(scene: Scene, obs: seq<ObjId>, a: Affix, syncData: bool) returns (out: seq<ObjId>)
    requires ValidIds(scene.objects, obs)
    modifies scene
    ensures out == obs
    ensures scene.objects == Renamed(old(scene.objects), obs, a, syncData)
    ensures scene.selected == old(scene.selected) && scene.active == old(scene.active)
    ensures scene.excluded == old(scene.excluded) && scene.console == old(scene.console)
  {
    for k := 0 to |obs|
      invariant scene.objects == Renamed(old(scene.objects), obs[..k], a, syncData)
      invariant scene.selected == old(scene.selected) && scene.active == old(scene.active)
      invariant scene.excluded == old(scene.excluded) && scene.console == old(scene.console)
    {
      var ob := obs[k];
      var o := scene.objects[ob];
      var name := Affixed(a, o.name);
      scene.objects := scene.objects[ob := o.(name := name)];
      if syncData && o.data.Some? {
        scene.objects := scene.objects[ob := scene.objects[ob].(data := Some(o.data.value.(name := name)))];
      }
      assert obs[..k + 1][..k] == obs[..k];
    }
    assert obs[..|obs|] == obs;
    out := obs;
  }

  /** `WFNodeAddPrefixToName.execute`: `obs` and `prefix` are the data of its "objects" and
      "prefix" inputs. */
  method AddPrefixToName(scene: Scene, obs: seq<ObjId>, prefix: string) returns (out: seq<ObjId>)
    requires ValidIds(scene.objects, obs)
    modifies scene
    ensures out == obs
    ensures scene.objects == Renamed(old(scene.objects), obs, Prefix(prefix), true)
    ensures scene.selected == old(scene.selected) && scene.active == old(scene.active)
    ensures scene.excluded == old(scene.excluded) && scene.console == old(scene.console)
  {
    out := AddAffix(scene, obs, Prefix(prefix), true);
  }

  /** `WFNodeAddSuffixToName.execute` (the class is defined twice with the same body; the second
      definition is the one that stays bound). */
  method AddSuffixToName(scene: Scene, obs: seq<ObjId>, suffix: string) returns (out: seq<ObjId>)
    requires ValidIds(scene.objects, obs)
    modifies scene
    ensures out == obs
    ensures scene.objects == Renamed(old(scene.objects), obs, Suffix(suffix), true)
    ensures scene.selected == old(scene.selected) && scene.active == old(scene.active)
    ensures scene.excluded == old(scene.excluded) && scene.console == old(scene.console)
  {
    out := AddAffix(scene, obs, Suffix(suffix), true);
  }
}
