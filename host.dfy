/** The host application's scene data, as far as the add-on reads and writes it: objects with a
    name, an optional data block (which owns the UV layers), a type tag, modifiers and children;
    the selection and the active object; collections and the view layer's layer collections. */
module Host {
  import opened Wrappers

  /** An object reference: an index into `Scene.objects`. Object lists hold references, so
      `ob not in obs` and `obs.remove(ob)` compare identities, not names. */
  type ObjId = nat

  datatype UvLayer = UvLayer(name: string, active: bool)

  /** `ob.data`: the data block's name and its UV layers. */
  datatype DataBlock = DataBlock(name: string, uvLayers: seq<UvLayer>)

  /** An entry of `ob.modifiers`: `mod.name` and `mod.type`. */
  datatype Modifier = Modifier(name: string, kind: string)

  /** `kind` is `ob.type` ("MESH", "CURVE", "EMPTY", ...); `children` are `ob.children`. */
  datatype HostObject = HostObject(
    name: string,
    data: Option<DataBlock>,
    kind: string,
    modifiers: seq<Modifier>,
    children: seq<ObjId>)

  const MESH: string := "MESH"

  /** A collection: its own objects (`col.objects`) and its child collections (`col.children`). */
  datatype Collection = Collection(objects: seq<ObjId>, children: seq<Collection>)

  /** A scene, as the scene input node reads it: `scene.objects`. */
  datatype SceneData = SceneData(objects: seq<ObjId>)

  /** A layer collection of the view layer: `id` names its `exclude` flag, `objectNames` are the
      keys of `layer_collection.collection.objects`, `children` its child layer collections. */
  datatype LayerCollection = LayerCollection(id: nat, objectNames: seq<string>, children: seq<LayerCollection>)

  predicate ValidIds(objects: seq<HostObject>, obs: seq<ObjId>) {
    forall k | 0 <= k < |obs| :: obs[k] < |objects|
  }

  /** The host state the nodes change in place. */
  class Scene {
    var objects: seq<HostObject>
    var selected: set<ObjId>
    var active: Option<ObjId>
    /** Ids of the layer collections whose `exclude` flag is set. */
    var excluded: set<nat>
    /** Lines the add-on printed to the console. */
    var console: seq<string>
    const viewLayer: LayerCollection

    constructor (objects: seq<HostObject>, viewLayer: LayerCollection, excluded: set<nat>)
      ensures this.objects == objects && this.viewLayer == viewLayer && this.excluded == excluded
      ensures selected == {} && active == None && console == []
    {
      this.objects := objects;
      this.viewLayer := viewLayer;
      this.excluded := excluded;
      selected := {};
      active := None;
      console := [];
    }

    /** `bpy.ops.object.select_all(action='DESELECT')` followed by `ob.select_set(True)` for each
        input object: afterwards exactly the input objects are selected. */
    method SelectOnly(obs: seq<ObjId>)
      modifies this
      ensures selected == set k | 0 <= k < |obs| :: obs[k]
      ensures objects == old(objects) && active == old(active)
      ensures excluded == old(excluded) && console == old(console)
    {
      selected := {};
      for i := 0 to |obs|
        invariant selected == set k | 0 <= k < i :: obs[k]
        invariant objects == old(objects) && active == old(active)
        invariant excluded == old(excluded) && console == old(console)
      {
        selected := selected + {obs[i]};
      }
    }
  }
}
