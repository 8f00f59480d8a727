/** The export nodes: each selects exactly its input objects, makes the last one active, and
    hands its own file path to the matching export helper. */
module Export {
  import opened Wrappers
  import opened Host
  import Utils

  /** The prelude the three nodes share: deselect all, select each input, and make the last input
      active when there is one (the active object is left alone otherwise). */
  method SelectForExport(scene: Scene, obs: seq<ObjId>)
    modifies scene
    ensures scene.selected == set k | 0 <= k < |obs| :: obs[k]
    ensures scene.active == if |obs| > 0 then Some(obs[|obs| - 1]) else old(scene.active)
    ensures scene.objects == old(scene.objects)
    ensures scene.excluded == old(scene.excluded) && scene.console == old(scene.console)
  {
    scene.SelectOnly(obs);
    if |obs| > 0 {
      scene.active := Some(obs[|obs| - 1]);
    }
  }

  /** `WFNodeExportGLTF.execute`: the prelude, then the glTF exporter with the arguments
      `export_scene_gltf` builds from the node's file path. `settings` are the scene's remembered
      glTF export settings, `abspath` is `bpy.path.abspath`, `version` the host version. */
  method ExportGltf(scene: Scene, obs: seq<ObjId>, filepath: string, settings: map<string, Utils.ArgValue>,
                    abspath: string -> string, version: Utils.Version) returns (args: map<string, Utils.ArgValue>)
    modifies scene
    ensures scene.selected == set k | 0 <= k < |obs| :: obs[k]
    ensures scene.active == if |obs| > 0 then Some(obs[|obs| - 1]) else old(scene.active)
    ensures scene.objects == old(scene.objects)
    ensures scene.excluded == old(scene.excluded) && scene.console == old(scene.console)
    ensures args == Utils.GltfArgs(settings, filepath, abspath, version)
  {
    SelectForExport(scene, obs);
    args := Utils.GltfArgs(settings, filepath, abspath, version);
  }

  /** The message of the TypeError a call without the `preset` argument raises. */
  const MISSING_PRESET: string := "export_scene_fbx() missing 1 required positional argument: 'preset'"

  /** `WFNodeExportFBX.execute`: the prelude, then `export_scene_fbx(context, self.filepath)`,
      which takes a third, required `preset` argument; the call always raises TypeError. */
  method ExportFbx(scene: Scene, obs: seq<ObjId>, filepath: string) returns (r: Result<Utils.FbxExport>)
    modifies scene
    ensures scene.selected == set k | 0 <= k < |obs| :: obs[k]
    ensures scene.active == if |obs| > 0 then Some(obs[|obs| - 1]) else old(scene.active)
    ensures scene.objects == old(scene.objects)
    ensures scene.excluded == old(scene.excluded) && scene.console == old(scene.console)
    ensures r == Err(TypeError(MISSING_PRESET))
  {
    SelectForExport(scene, obs);
    r := Err(TypeError(MISSING_PRESET));
  }

  /** `WFNodeExportOBJ.execute`: the prelude, then the OBJ exporter with the arguments
      `export_scene_obj` builds from the node's file path. `lastUsed` are the OBJ exporter's
      last-used settings. */
  method ExportObj(scene: Scene, obs: seq<ObjId>, filepath: string, lastUsed: map<string, Utils.ArgValue>,
                   abspath: string -> string) returns (args: map<string, Utils.ArgValue>)
    modifies scene
    ensures scene.selected == set k | 0 <= k < |obs| :: obs[k]
    ensures scene.active == if |obs| > 0 then Some(obs[|obs| - 1]) else old(scene.active)
    ensures scene.objects == old(scene.objects)
    ensures scene.excluded == old(scene.excluded) && scene.console == old(scene.console)
    ensures args == Utils.ObjArgs(lastUsed, filepath, abspath)
  {
    SelectForExport(scene, obs);
    args := Utils.ObjArgs(lastUsed, filepath, abspath);
  }
}
