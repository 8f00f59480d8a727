/** The Join Objects Geometry node: reveal and select the input objects, convert the non-meshes,
    join all meshes into the first one, optionally rename it, and output the input objects with
    the meshes replaced by the joined object. The host's convert and join operators are abstract:
    which objects the conversion turns into meshes is a parameter, and the join's merging and
    deleting of meshes is not modelled. */
module Geometry {
  import opened Wrappers
  import opened Seqs
  import opened Host
  import Inputs

  /** The scene's objects after the convert loop: every listed object the host converted now has
      type MESH. */
  function Converted(objects: seq<HostObject>, obs: seq<ObjId>, converts: set<ObjId>): (r: seq<HostObject>)
    ensures |r| == |objects|
  {
    seq(|objects|, i requires 0 <= i < |objects| =>
      if i in obs && i in converts then objects[i].(kind := MESH) else objects[i])
  }

  predicate IsMesh(objects: seq<HostObject>, ob: ObjId) {
    ob < |objects| && objects[ob].kind == MESH
  }

  /** `[ob for ob in obs if ob.type == 'MESH']`. */
  function Meshes(objects: seq<HostObject>, obs: seq<ObjId>): seq<ObjId> {
    Filter((ob: ObjId) => IsMesh(objects, ob), obs)
  }

  /** The inputs that are not meshes, in order. */
  function NonMeshes(objects: seq<HostObject>, obs: seq<ObjId>): seq<ObjId> {
    Filter((ob: ObjId) => !IsMesh(objects, ob), obs)
  }

  /** `s.remove(x)`: the first occurrence of `x` taken out (`s` itself when there is none, a case
      the node never reaches). */
  function RemoveFirstOf(s: seq<ObjId>, x: ObjId): seq<ObjId> {
    if |s| == 0 then []
    else if s[0] == x then s[1..]
    else [s[0]] + RemoveFirstOf(s[1..], x)
  }

  /** `for x in xs: s.remove(x)`. */
  function RemoveEach(s: seq<ObjId>, xs: seq<ObjId>): seq<ObjId>
    decreases |xs|
  {
    if |xs| == 0 then s else RemoveEach(RemoveFirstOf(s, xs[0]), xs[1..])
  }

  lemma {:induction false} RemoveFirstOfCount(s: seq<ObjId>, x: ObjId)
    requires x in s
    ensures multiset(RemoveFirstOf(s, x)) == multiset(s) - multiset{x}
  {
    if s[0] != x {
      RemoveFirstOfCount(s[1..], x);
      assert s == [s[0]] + s[1..];
    } else {
      assert s == [x] + s[1..];
    }
  }

  lemma {:induction false} RemoveEachKeepsHead(h: ObjId, t: seq<ObjId>, xs: seq<ObjId>)
    requires h !in xs
    ensures RemoveEach([h] + t, xs) == [h] + RemoveEach(t, xs)
    decreases |xs|
  {
    if |xs| > 0 {
      assert ([h] + t)[1..] == t;
      RemoveEachKeepsHead(h, RemoveFirstOf(t, xs[0]), xs[1..]);
    }
  }

  /** Removing every mesh occurrence, one `remove` per mesh found, leaves exactly the non-meshes,
      in order. */
  lemma {:induction false} RemovingMeshesLeavesNonMeshes(objects: seq<HostObject>, obs: seq<ObjId>)
    ensures RemoveEach(obs, Meshes(objects, obs)) == NonMeshes(objects, obs)
  {
    if |obs| > 0 {
      var h := obs[0];
      var t := obs[1..];
      assert obs == [h] + t;
      RemovingMeshesLeavesNonMeshes(objects, t);
      SplitFirst(objects, h, t);
      if IsMesh(objects, h) {
        assert RemoveFirstOf(obs, h) == t;
      } else {
        assert Meshes(objects, obs) == Meshes(objects, t);
        RemoveEachKeepsHead(h, t, Meshes(objects, t));
      }
    }
  }

  lemma SplitFirst(objects: seq<HostObject>, h: ObjId, t: seq<ObjId>)
    ensures Meshes(objects, [h] + t) == (if IsMesh(objects, h) then [h] else []) + Meshes(objects, t)
    ensures NonMeshes(objects, [h] + t) == (if IsMesh(objects, h) then [] else [h]) + NonMeshes(objects, t)
    ensures h !in Meshes(objects, t) || IsMesh(objects, h)
  {
    MeshesOfCons(objects, h, t);
    NonMeshesOfCons(objects, h, t);
  }

  lemma MeshesOfCons(objects: seq<HostObject>, h: ObjId, t: seq<ObjId>)
    ensures Meshes(objects, [h] + t) == (if IsMesh(objects, h) then [h] else []) + Meshes(objects, t)
  {
    FilterConcat((ob: ObjId) => IsMesh(objects, ob), [h], t);
    assert [h][..0] == [];
  }

  lemma NonMeshesOfCons(objects: seq<HostObject>, h: ObjId, t: seq<ObjId>)
    ensures NonMeshes(objects, [h] + t) == (if IsMesh(objects, h) then [] else [h]) + NonMeshes(objects, t)
  {
    FilterConcat((ob: ObjId) => !IsMesh(objects, ob), [h], t);
    assert [h][..0] == [];
  }

  lemma {:induction false} FilterMultiset(p: ObjId -> bool, s: seq<ObjId>)
    ensures multiset(Filter(p, s)) <= multiset(s)
  {
    if |s| > 0 {
      var init, last := s[..|s| - 1], s[|s| - 1];
      var kept := if p(last) then [last] else [];
      FilterMultiset(p, init);
      assert s == init + [last];
      assert multiset(Filter(p, s)) == multiset(Filter(p, init)) + multiset(kept);
    }
  }

  /** The rename as the node means it: the joined object and its data block get the new name. */
  function JoinRename(objects: seq<HostObject>, joined: ObjId, name: string): (r: seq<HostObject>)
    requires joined < |objects|
    ensures |r| == |objects| && r[joined].name == name
    ensures objects[joined].data.Some? ==> r[joined].data == Some(objects[joined].data.value.(name := name))
    ensures objects[joined].data.None? ==> r[joined].data == None
    ensures r[joined].kind == objects[joined].kind && r[joined].modifiers == objects[joined].modifiers
    ensures forall i | 0 <= i < |objects| && i != joined :: r[i] == objects[i]
  {
    var o := objects[joined];
    objects[joined := o.(name := name, data := if o.data.Some? then Some(o.data.value.(name := name)) else None)]
  }

  /** The rename as written: the data rename is guarded on the loop variable `ob`, which still
      holds the last input object, not on the joined object; when the guard passes and the joined
      object has no data block, `last_ob.data.name` raises. */
  function JoinRenameAsWritten(objects: seq<HostObject>, obs: seq<ObjId>, joined: ObjId, name: string): (r: Result<seq<HostObject>>)
    requires joined < |objects| && |obs| > 0 && ValidIds(objects, obs)
    ensures r.Err? <==> objects[obs[|obs| - 1]].data.Some? && objects[joined].data.None?
    ensures r.Ok? ==> |r.value| == |objects| && r.value[joined].name == name
    ensures r.Ok? && objects[obs[|obs| - 1]].data.None? ==> r.value[joined].data == objects[joined].data
    ensures r.Ok? && objects[obs[|obs| - 1]].data.Some? ==> r.value[joined].data == Some(objects[joined].data.value.(name := name))
  {
    var o := objects[joined];
    var renamed := objects[joined := o.(name := name)];
    if objects[obs[|obs| - 1]].data.Some? then
      if o.data.Some? then Ok(renamed[joined := renamed[joined].(data := Some(o.data.value.(name := name)))])
      else Err(AttributeError("name"))
    else Ok(renamed)
  }

  /** A mesh listed before an empty: the written code renames the mesh but not its data block,
      which the intended rename does. */
  lemma DataRenameGuardedOnLastInput()
    ensures var objects := [HostObject("Cube", Some(DataBlock("Cube", [])), MESH, [], []),
                            HostObject("Empty", None, "EMPTY", [], [])];
            && JoinRenameAsWritten(objects, [0, 1], 0, "Joined") == Ok([HostObject("Joined", Some(DataBlock("Cube", [])), MESH, [], []), objects[1]])
            && JoinRename(objects, 0, "Joined")[0].data == Some(DataBlock("Joined", []))
  {
    var objects := [HostObject("Cube", Some(DataBlock("Cube", [])), MESH, [], []),
                    HostObject("Empty", None, "EMPTY", [], [])];
    var obs := [0, 1];
    assert obs[|obs| - 1] == 1 && objects[1].data.None?;
    assert objects[0 := objects[0].(name := "Joined")] == [HostObject("Joined", Some(DataBlock("Cube", [])), MESH, [], []), objects[1]];
  }

  /** Result shape: with at least one mesh after conversion, the output holds the non-meshes in
      input order followed by the joined object, which is the first mesh; each non-mesh input is
      kept and no other mesh is. */
  lemma OutputShape(objects: seq<HostObject>, obs: seq<ObjId>)
    requires |Meshes(objects, obs)| > 0
    ensures var out := NonMeshes(objects, obs) + [Meshes(objects, obs)[0]];
            && IsMesh(objects, out[|out| - 1]) && out[|out| - 1] in obs
            && (forall ob | ob in out :: ob in obs)
            && (forall ob | ob in obs && !IsMesh(objects, ob) :: ob in out)
            && (forall k | 0 <= k < |out| - 1 :: !IsMesh(objects, out[k]))
            && IsSubseq(NonMeshes(objects, obs), obs)
  {
    FilterIsSubseq((ob: ObjId) => !IsMesh(objects, ob), obs);
  }

  /** Object `ob` is not a mesh when the convert loop reaches it after the inputs `done`: it was
      not one to begin with and no earlier occurrence of it was converted. */
  predicate NonMeshAtTurn(objects: seq<HostObject>, converts: set<ObjId>, done: seq<ObjId>, ob: ObjId) {
    ob < |objects| && objects[ob].kind != MESH && !(ob in done && ob in converts)
  }

  /** The last position of the convert loop whose object is not a mesh when reached, the one the
      loop leaves active. */
  function LastActivated(objects: seq<HostObject>, obs: seq<ObjId>, converts: set<ObjId>): (r: Option<nat>)
    ensures r.Some? ==> r.value < |obs| && NonMeshAtTurn(objects, converts, obs[..r.value], obs[r.value])
    ensures forall k | (if r.Some? then r.value + 1 else 0) <= k < |obs| :: !NonMeshAtTurn(objects, converts, obs[..k], obs[k])
  {
    if |obs| == 0 then None
    else if NonMeshAtTurn(objects, converts, obs[..|obs| - 1], obs[|obs| - 1]) then Some(|obs| - 1)
    else
      var init := obs[..|obs| - 1];
      assert forall k | 0 <= k < |init| :: init[..k] == obs[..k] && init[k] == obs[k];
      LastActivated(objects, init, converts)
  }

  /** One more input of the convert loop: it becomes the last activated one exactly when it is not
      a mesh when reached. */
  lemma LastActivatedStep(objects: seq<HostObject>, obs: seq<ObjId>, converts: set<ObjId>, k: nat)
    requires k < |obs|
    ensures LastActivated(objects, obs[..k + 1], converts) ==
              if NonMeshAtTurn(objects, converts, obs[..k], obs[k]) then Some(k) else LastActivated(objects, obs[..k], converts)
  {
    var p := obs[..k + 1];
    assert p[..|p| - 1] == obs[..k] && p[|p| - 1] == obs[k];
  }

  /** One more turn of the convert loop converts at most the object of that turn. */
  lemma ConvertedStep(objects: seq<HostObject>, obs: seq<ObjId>, converts: set<ObjId>, k: nat)
    requires k < |obs| && obs[k] < |objects|
    ensures var c := Converted(objects, obs[..k], converts);
            Converted(objects, obs[..k + 1], converts) ==
              if obs[k] in converts then c[obs[k] := c[obs[k]].(kind := MESH)] else c
  {
    assert obs[..k + 1] == obs[..k] + [obs[k]];
  }

  /** The active object after the convert loop over `obs`, starting from `before`. */
  function ActiveAfter(objects: seq<HostObject>, obs: seq<ObjId>, converts: set<ObjId>, before: Option<ObjId>): Option<ObjId> {
    match LastActivated(objects, obs, converts)
    case None => before
    case Some(k) => Some(obs[k])
  }

  /** The convert loop: each listed object that is not a mesh becomes active and is converted.
      Only the types change. */
  method ConvertNonMeshes(scene: Scene, obs: seq<ObjId>, converts: set<ObjId>)
    requires ValidIds(scene.objects, obs)
    modifies scene
    ensures scene.objects == Converted(old(scene.objects), obs, converts)
    ensures scene.active == match LastActivated(old(scene.objects), obs, converts)
                            case None => old(scene.active)
                            case Some(k) => Some(obs[k])
    ensures scene.selected == old(scene.selected)
    ensures scene.excluded == old(scene.excluded) && scene.console == old(scene.console)
  {
    ghost var objects, before := scene.objects, scene.active;
    for k := 0 to |obs|
      invariant scene.objects == Converted(objects, obs[..k], converts)
      invariant scene.active == ActiveAfter(objects, obs[..k], converts, before)
      invariant scene.selected == old(scene.selected)
      invariant scene.excluded == old(scene.excluded) && scene.console == old(scene.console)
    {
      var ob := obs[k];
      LastActivatedStep(objects, obs, converts, k);
      ConvertedStep(objects, obs, converts, k);
      assert (scene.objects[ob].kind != MESH) == NonMeshAtTurn(objects, converts, obs[..k], ob);
      if scene.objects[ob].kind != MESH {
        scene.active := Some(ob);
        if ob in converts {
          scene.objects := scene.objects[ob := scene.objects[ob].(kind := MESH)];
        }
      } else if ob in converts {
        assert scene.objects[ob := scene.objects[ob].(kind := MESH)] == scene.objects;
      }
    }
    assert obs[..|obs|] == obs;
  }

  /** `for mesh in meshes: obs.remove(mesh)`: every `remove` finds its mesh, and what is left are
      the non-meshes in input order. */
  method RemoveMeshes(objects: seq<HostObject>, obs: seq<ObjId>) returns (out: seq<ObjId>)
    ensures out == NonMeshes(objects, obs)
  {
    var meshes := Meshes(objects, obs);
    out := obs;
    FilterMultiset((ob: ObjId) => IsMesh(objects, ob), obs);
    RemovingMeshesLeavesNonMeshes(objects, obs);
    for i := 0 to |meshes|
      invariant RemoveEach(out, meshes[i..]) == NonMeshes(objects, obs)
      invariant multiset(meshes[i..]) <= multiset(out)
    {
      RemoveStep(out, meshes, i);
      out := RemoveFirstOf(out, meshes[i]);
    }
  }

  /** One `remove` of the loop finds its mesh and leaves the rest of the loop's work unchanged. */
  lemma RemoveStep(out: seq<ObjId>, meshes: seq<ObjId>, i: nat)
    requires i < |meshes| && multiset(meshes[i..]) <= multiset(out)
    ensures RemoveEach(RemoveFirstOf(out, meshes[i]), meshes[i + 1..]) == RemoveEach(out, meshes[i..])
    ensures multiset(meshes[i + 1..]) <= multiset(RemoveFirstOf(out, meshes[i]))
  {
    var rest := meshes[i..];
    assert rest == [meshes[i]] + meshes[i + 1..];
    assert meshes[i] in multiset(out);
    RemoveFirstOfCount(out, meshes[i]);
  }

  /** The first loop of `WFNodeJoinObjects.execute`: each input's layer collection is revealed, or
      its line printed, and the input is selected. `select_set` raises for an input no layer
      collection holds, since it is outside the view layer; `stop` is its position. */
  method RevealAndSelect(scene: Scene, obs: seq<ObjId>) returns (stop: Option<nat>)
    modifies scene
    ensures stop == Inputs.FirstUnplaced(scene.viewLayer, old(scene.objects), obs)
    ensures scene.objects == old(scene.objects) && scene.active == old(scene.active)
    ensures match stop
            case Some(k) =>
              && scene.selected == (set j | 0 <= j < k :: obs[j])
              && scene.excluded == old(scene.excluded) - Inputs.RevealedIds(scene.viewLayer, old(scene.objects), obs[..k])
              && scene.console == old(scene.console) + [Inputs.NoLayerMessage(Inputs.NameAt(old(scene.objects), obs[k]))]
            case None =>
              && scene.selected == (set k | 0 <= k < |obs| :: obs[k])
              && scene.excluded == old(scene.excluded) - Inputs.RevealedIds(scene.viewLayer, old(scene.objects), obs)
              && scene.console == old(scene.console)
  {
    // The reveal and the selection touch different state, so revealing the objects first and
    // then selecting them ends where the interleaved loop does.
    stop := Inputs.FirstUnplaced(scene.viewLayer, scene.objects, obs);
    if stop.Some? {
      var k := stop.value;
      Inputs.RevealStep(scene.viewLayer, scene.objects, obs, k);
      assert Inputs.FirstUnplaced(scene.viewLayer, scene.objects, obs[..k]).None?;
      Inputs.NoLayerMessagesEmpty(scene.viewLayer, scene.objects, obs[..k]);
      var _ := Inputs.Reveal(scene, obs[..k + 1], true);
      scene.SelectOnly(obs[..k]);
      assert (set j | 0 <= j < |obs[..k]| :: obs[..k][j]) == (set j | 0 <= j < k :: obs[j]);
    } else {
      Inputs.NoLayerMessagesEmpty(scene.viewLayer, scene.objects, obs);
      var _ := Inputs.Reveal(scene, obs, true);
      scene.SelectOnly(obs);
    }
  }

  /** `WFNodeJoinObjects.execute` with the data rename corrected (see `JoinRenameAsWritten` for
      the rename as written). `obs` is the "objects" input, `name` the "name" input, and
      `converts` the objects the host's convert operator turns into meshes. An input no layer
      collection holds is outside the view layer: its line is printed, and then `select_set`
      raises for it. */
  method JoinObjects(scene: Scene, obs: seq<ObjId>, name: string, converts: set<ObjId>) returns (r: Result<seq<ObjId>>)
    requires ValidIds(scene.objects, obs)
    modifies scene
    ensures match Inputs.FirstUnplaced(scene.viewLayer, old(scene.objects), obs)
            case Some(k) =>
              && r == Err(RuntimeError("select_set"))
              && scene.selected == (set j | 0 <= j < k :: obs[j])
              && scene.excluded == old(scene.excluded) - Inputs.RevealedIds(scene.viewLayer, old(scene.objects), obs[..k])
              && scene.console == old(scene.console) + [Inputs.NoLayerMessage(Inputs.NameAt(old(scene.objects), obs[k]))]
              && scene.objects == old(scene.objects) && scene.active == old(scene.active)
            case None =>
              && scene.selected == (set k | 0 <= k < |obs| :: obs[k])
              && scene.excluded == old(scene.excluded) - Inputs.RevealedIds(scene.viewLayer, old(scene.objects), obs)
              && scene.console == old(scene.console)
              && var converted := Converted(old(scene.objects), obs, converts);
                 var meshes := Meshes(converted, obs);
                 if |meshes| == 0 then
                   && r == Err(UnboundLocalError("last_ob")) && scene.objects == converted
                   && scene.active == match LastActivated(old(scene.objects), obs, converts)
                                      case None => old(scene.active)
                                      case Some(k) => Some(obs[k])
                 else
                   && r == Ok(NonMeshes(converted, obs) + [meshes[0]])
                   && scene.active == Some(meshes[0])
                   && scene.objects == if name == "" then converted else JoinRename(converted, meshes[0], name)
  {
    var stop := RevealAndSelect(scene, obs);
    if stop.Some? {
      return Err(RuntimeError("select_set"));
    }
    r := ConvertAndJoin(scene, obs, name, converts);
  }

  /** The rest of `WFNodeJoinObjects.execute` once every input is selected: the non-meshes are
      converted, the first mesh is made active and joined into, renamed when a name is given,
      and the output is the non-meshes followed by it. Selection, layers and console are not
      touched. */
  method ConvertAndJoin(scene: Scene, obs: seq<ObjId>, name: string, converts: set<ObjId>) returns (r: Result<seq<ObjId>>)
    requires ValidIds(scene.objects, obs)
    modifies scene
    ensures scene.selected == old(scene.selected) && scene.excluded == old(scene.excluded)
    ensures scene.console == old(scene.console)
    ensures var converted := Converted(old(scene.objects), obs, converts);
            var meshes := Meshes(converted, obs);
            if |meshes| == 0 then
              && r == Err(UnboundLocalError("last_ob")) && scene.objects == converted
              && scene.active == match LastActivated(old(scene.objects), obs, converts)
                                 case None => old(scene.active)
                                 case Some(k) => Some(obs[k])
            else
              && r == Ok(NonMeshes(converted, obs) + [meshes[0]])
              && scene.active == Some(meshes[0])
              && scene.objects == if name == "" then converted else JoinRename(converted, meshes[0], name)
  {
    ConvertNonMeshes(scene, obs, converts);
    var converted := scene.objects;
    var meshes := Meshes(converted, obs);
    if |meshes| == 0 {
      return Err(UnboundLocalError("last_ob"));
    }
    var last := meshes[0];
    scene.active := Some(last);
    if name != "" {
      scene.objects := JoinRename(scene.objects, last, name);
    }
    var out := RemoveMeshes(converted, obs);
    r := Ok(out + [last]);
  }
}
