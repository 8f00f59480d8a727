/** The Set Active UV Map node: on each input object with a data block, every UV layer whose name
    occurs in the given name gets its active flag set. Only mesh data has UV layers: the first
    listed object with other data (a camera's, a light's, a curve's) stops the node with an
    AttributeError. */
module Uv {
  import opened Wrappers
  import opened Seqs
  import opened Strings
  import opened Host

  /** `ob.data.uv_layers` raises AttributeError: the object has a data block that is not a mesh. */
  predicate LacksUvLayers(o: HostObject) {
    o.data.Some? && o.kind != MESH
  }

  /** The position in `obs` of the first listed object whose data has no UV layers. */
  function FirstWithoutUvLayers(objects: seq<HostObject>, obs: seq<ObjId>): (r: Option<nat>)
    requires ValidIds(objects, obs)
    ensures r.Some? ==> r.value < |obs| && LacksUvLayers(objects[obs[r.value]])
    ensures r.Some? ==> forall j | 0 <= j < r.value :: !LacksUvLayers(objects[obs[j]])
    ensures r.None? ==> forall j | 0 <= j < |obs| :: !LacksUvLayers(objects[obs[j]])
  {
    FirstIndex((ob: ObjId) => ob < |objects| && LacksUvLayers(objects[ob]), obs)
  }

  /** The layers after the inner loop: the matching ones are active, the others as they were. */
  function Activated(layers: seq<UvLayer>, name: string): (r: seq<UvLayer>)
    ensures |r| == |layers|
  {
    seq(|layers|, k requires 0 <= k < |layers| =>
      if IsSubstring(layers[k].name, name) then layers[k].(active := true) else layers[k])
  }

  /** One object after the node: its UV layers activated when it has a data block. */
  function WithActiveUv(o: HostObject, name: string): HostObject {
    if o.data.Some? then o.(data := Some(o.data.value.(uvLayers := Activated(o.data.value.uvLayers, name)))) else o
  }

  /** The scene's objects after the node: every listed object updated, the others untouched. */
  function ActivatedObjects(objects: seq<HostObject>, obs: seq<ObjId>, name: string): (r: seq<HostObject>)
    ensures |r| == |objects|
  {
    seq(|objects|, i requires 0 <= i < |objects| => if i in obs then WithActiveUv(objects[i], name) else objects[i])
  }

  /** Matching layers become active and keep their names; other layers, the object's other fields
      and objects without a data block do not change; with no matching layer nothing changes. */
  lemma ActivationEffect(o: HostObject, name: string)
    ensures var r := WithActiveUv(o, name);
            && r.name == o.name && r.kind == o.kind && r.modifiers == o.modifiers && r.children == o.children
            && r.data.Some? == o.data.Some?
            && (o.data.None? ==> r == o)
            && (o.data.Some? ==>
                  && r.data.value.name == o.data.value.name
                  && |r.data.value.uvLayers| == |o.data.value.uvLayers|
                  && forall k | 0 <= k < |o.data.value.uvLayers| ::
                       var before := o.data.value.uvLayers[k];
                       var after := r.data.value.uvLayers[k];
                       after.name == before.name
                       && after.active == (before.active || IsSubstring(before.name, name)))
            && ((o.data.Some? && forall k | 0 <= k < |o.data.value.uvLayers| :: !IsSubstring(o.data.value.uvLayers[k].name, name)) ==> r == o)
  {
    if o.data.Some? && forall k | 0 <= k < |o.data.value.uvLayers| :: !IsSubstring(o.data.value.uvLayers[k].name, name) {
      assert Activated(o.data.value.uvLayers, name) == o.data.value.uvLayers;
    }
  }

  /** Setting the flags a second time changes nothing, so an object listed twice ends as one
      listed once. */
  lemma ActivationIdempotent(o: HostObject, name: string)
    ensures WithActiveUv(WithActiveUv(o, name), name) == WithActiveUv(o, name)
  {
    if o.data.Some? {
      var once := Activated(o.data.value.uvLayers, name);
      assert Activated(once, name) == once;
    }
  }

  /** The inner loop over `ob.data.uv_layers`: each layer whose name occurs in `name` is made
      active. */
  method ActivateLayers(layers: seq<UvLayer>, name: string) returns (r: seq<UvLayer>)
    ensures r == Activated(layers, name)
  {
    r := layers;
    for k := 0 to |r|
      invariant |r| == |layers|
      invariant forall i | 0 <= i < k :: r[i] == Activated(layers, name)[i]
      invariant forall i | k <= i < |r| :: r[i] == layers[i]
    {
      if IsSubstring(r[k].name, name) {
        r := r[k := r[k].(active := true)];
      }
    }
  }

  /** `WFNodeSetActiveUVMap.execute`: `obs` and `name` are its "objects" and "name" inputs. The
      output is the input list. When a listed object has data without UV layers, the objects
      listed before it have been updated and the node raises AttributeError. */
  method SetActiveUvMap(scene: Scene, obs: seq<ObjId>, name: string) returns (r: Result<seq<ObjId>>)
    requires ValidIds(scene.objects, obs)
    modifies scene
    ensures match FirstWithoutUvLayers(old(scene.objects), obs)
            case None =>
              r == Ok(obs) && scene.objects == ActivatedObjects(old(scene.objects), obs, name)
            case Some(k) =>
              && r == Err(AttributeError("uv_layers"))
              && scene.objects == ActivatedObjects(old(scene.objects), obs[..k], name)
    ensures scene.selected == old(scene.selected) && scene.active == old(scene.active)
    ensures scene.excluded == old(scene.excluded) && scene.console == old(scene.console)
  {
    for i := 0 to |obs|
      invariant scene.objects == ActivatedObjects(old(scene.objects), obs[..i], name)
      invariant forall j | 0 <= j < i :: !LacksUvLayers(old(scene.objects)[obs[j]])
      invariant scene.selected == old(scene.selected) && scene.active == old(scene.active)
      invariant scene.excluded == old(scene.excluded) && scene.console == old(scene.console)
    {
      var ob := obs[i];
      var o := scene.objects[ob];
      ActivationEffect(old(scene.objects)[ob], name);
      if LacksUvLayers(o) {
        assert LacksUvLayers(old(scene.objects)[ob]);
        return Err(AttributeError("uv_layers"));
      }
      if o.data.Some? {
        var layers := ActivateLayers(o.data.value.uvLayers, name);
        scene.objects := scene.objects[ob := o.(data := Some(o.data.value.(uvLayers := layers)))];
      }
      ActivationIdempotent(old(scene.objects)[ob], name);
      assert obs[..i + 1] == obs[..i] + [ob];
    }
    assert obs[..|obs|] == obs;
    r := Ok(obs);
  }
}
