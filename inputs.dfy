/** The input nodes: Scene Input, Collection Input and Object Input cache the objects of their
    target, and on execution refresh that cache, clear the `exclude` flag of the layer collection
    holding each cached object, and publish the cache as their output. */
module Inputs {
  import opened Wrappers
  import opened Host
  import Seqs
  import Utils

  /** `get_collection_objects(col)`: the collection's own objects, then each child collection's
      objects (recursively), in order, repeats kept. */
  function CollectionObjects(col: Collection): seq<ObjId>
    decreases col, 1
  {
    col.objects + ChildrenObjects(col.children)
  }

  /** The loop over `col.children`: each child's objects in turn. */
  function ChildrenObjects(children: seq<Collection>): seq<ObjId>
    decreases children, 0
  {
    if |children| == 0 then [] else CollectionObjects(children[0]) + ChildrenObjects(children[1..])
  }

  /** The collections of a tree in pre-order: a collection, then each child's tree in turn. */
  function Nested(col: Collection): (r: seq<Collection>)
    decreases col, 1
  {
    [col] + NestedAll(col.children)
  }

  function NestedAll(children: seq<Collection>): seq<Collection>
    decreases children, 0
  {
    if |children| == 0 then [] else Nested(children[0]) + NestedAll(children[1..])
  }

  /** The own objects of a list of collections, one collection after the other. */
  function OwnObjects(cols: seq<Collection>): seq<ObjId> {
    if |cols| == 0 then [] else cols[0].objects + OwnObjects(cols[1..])
  }

  lemma {:induction false} OwnObjectsAppend(a: seq<Collection>, b: seq<Collection>)
    ensures OwnObjects(a + b) == OwnObjects(a) + OwnObjects(b)
  {
    if |a| > 0 {
      assert (a + b)[1..] == a[1..] + b;
      OwnObjectsAppend(a[1..], b);
    } else {
      assert a + b == b;
    }
  }

  /** The recursive gathering lists the own objects of every collection of the tree, in
      pre-order, each as often as collections hold it. */
  lemma {:induction false} CollectionObjectsInPreOrder(col: Collection)
    ensures CollectionObjects(col) == OwnObjects(Nested(col))
    decreases col, 1
  {
    ChildrenObjectsInPreOrder(col.children);
    assert ([col] + NestedAll(col.children))[1..] == NestedAll(col.children);
  }

  lemma {:induction false} ChildrenObjectsInPreOrder(children: seq<Collection>)
    ensures ChildrenObjects(children) == OwnObjects(NestedAll(children))
    decreases children, 0
  {
    if |children| > 0 {
      CollectionObjectsInPreOrder(children[0]);
      ChildrenObjectsInPreOrder(children[1..]);
      OwnObjectsAppend(Nested(children[0]), NestedAll(children[1..]));
    }
  }

  /** An object is gathered exactly when some collection of the tree holds it directly. */
  lemma CollectionObjectsMember(col: Collection, ob: ObjId)
    ensures ob in CollectionObjects(col) <==> exists k | 0 <= k < |Nested(col)| :: ob in Nested(col)[k].objects
  {
    CollectionObjectsInPreOrder(col);
    OwnObjectsMember(Nested(col), ob);
  }

  lemma {:induction false} OwnObjectsMember(cols: seq<Collection>, ob: ObjId)
    ensures ob in OwnObjects(cols) <==> exists k | 0 <= k < |cols| :: ob in cols[k].objects
  {
    if |cols| > 0 {
      OwnObjectsMember(cols[1..], ob);
      if ob in OwnObjects(cols[1..]) {
        var k :| 0 <= k < |cols[1..]| && ob in cols[1..][k].objects;
        assert ob in cols[k + 1].objects;
      }
      if exists k | 0 <= k < |cols| :: ob in cols[k].objects {
        var k :| 0 <= k < |cols| && ob in cols[k].objects;
        if k > 0 {
          assert ob in cols[1..][k - 1].objects;
        }
      }
    }
  }

  /** The name of object `ob`, or "" for a reference outside the scene. */
  function NameAt(objects: seq<HostObject>, ob: ObjId): string {
    if ob < |objects| then objects[ob].name else ""
  }

  /** `find_object_layer_collection(vlc, ob)`. */
  function Placement(viewLayer: LayerCollection, objects: seq<HostObject>, ob: ObjId): Option<LayerCollection> {
    Utils.FindLayerCollection(viewLayer, NameAt(objects, ob))
  }

  /** The layer collections whose `exclude` flag the loop clears for `obs`. */
  function RevealedIds(viewLayer: LayerCollection, objects: seq<HostObject>, obs: seq<ObjId>): set<nat> {
    if |obs| == 0 then {}
    else
      RevealedIds(viewLayer, objects, obs[..|obs| - 1])
      + match Placement(viewLayer, objects, obs[|obs| - 1])
        case Some(lc) => {lc.id}
        case None => {}
  }

  /** The line Object Input prints for an object no layer collection holds. */
  function NoLayerMessage(name: string): string {
    "Error: object " + name + " doesn't have an active layer collection"
  }

  /** The lines printed for the objects of `obs` that no layer collection holds, in order. */
  function NoLayerMessages(viewLayer: LayerCollection, objects: seq<HostObject>, obs: seq<ObjId>): seq<string> {
    if |obs| == 0 then []
    else
      var ob := obs[|obs| - 1];
      NoLayerMessages(viewLayer, objects, obs[..|obs| - 1])
      + if Placement(viewLayer, objects, ob).None? then [NoLayerMessage(NameAt(objects, ob))] else []
  }

  /** The first position in `obs` of an object no layer collection holds. */
  function FirstUnplaced(viewLayer: LayerCollection, objects: seq<HostObject>, obs: seq<ObjId>): (r: Option<nat>)
    ensures r.Some? ==> r.value < |obs| && Placement(viewLayer, objects, obs[r.value]).None?
                        && forall j | 0 <= j < r.value :: Placement(viewLayer, objects, obs[j]).Some?
    ensures r.None? ==> forall j | 0 <= j < |obs| :: Placement(viewLayer, objects, obs[j]).Some?
  {
    Seqs.FirstIndex((ob: ObjId) => Placement(viewLayer, objects, ob).None?, obs)
  }

  /** The lenient loop prints nothing exactly when a layer collection holds every object. */
  lemma {:induction false} NoLayerMessagesEmpty(viewLayer: LayerCollection, objects: seq<HostObject>, obs: seq<ObjId>)
    ensures NoLayerMessages(viewLayer, objects, obs) == [] <==> FirstUnplaced(viewLayer, objects, obs).None?
  {
    if |obs| > 0 {
      var init := obs[..|obs| - 1];
      NoLayerMessagesEmpty(viewLayer, objects, init);
      assert forall j | 0 <= j < |init| :: init[j] == obs[j];
      if FirstUnplaced(viewLayer, objects, init).Some? {
        var k := FirstUnplaced(viewLayer, objects, init).value;
        assert Placement(viewLayer, objects, obs[k]).None?;
      }
    }
  }

  /** A layer collection is revealed exactly when it is the first one, in pre-order, holding the
      name of some input object. */
  lemma {:induction false} RevealedAreFirstHolders(viewLayer: LayerCollection, objects: seq<HostObject>, obs: seq<ObjId>, id: nat)
    ensures id in RevealedIds(viewLayer, objects, obs) <==>
            exists k | 0 <= k < |obs| :: Utils.FirstHolding(Utils.PreOrder(viewLayer), NameAt(objects, obs[k])).Some?
                                         && Utils.FirstHolding(Utils.PreOrder(viewLayer), NameAt(objects, obs[k])).value.id == id
  {
    if |obs| > 0 {
      var init := obs[..|obs| - 1];
      RevealedAreFirstHolders(viewLayer, objects, init, id);
      Utils.FindIsFirstInPreOrder(viewLayer, NameAt(objects, obs[|obs| - 1]));
      forall k | 0 <= k < |init|
        ensures init[k] == obs[k]
      {
      }
    }
  }

  /** The cache of an input node. */
  class InputNode {
    var cachedObjects: seq<ObjId>

    constructor ()
      ensures cachedObjects == []
    {
      cachedObjects := [];
    }

    /** `on_scene_update`: the target scene's objects, or nothing without a target. */
    method OnSceneUpdate(target: Option<SceneData>)
      modifies this
      ensures cachedObjects == if target.Some? then target.value.objects else []
    {
      if target.Some? {
        cachedObjects := target.value.objects;
      } else {
        cachedObjects := [];
      }
    }

    /** `on_collection_update`: everything the target collection holds, or nothing. */
    method OnCollectionUpdate(target: Option<Collection>)
      modifies this
      ensures cachedObjects == if target.Some? then CollectionObjects(target.value) else []
    {
      if target.Some? {
        cachedObjects := CollectionObjects(target.value);
      } else {
        cachedObjects := [];
      }
    }

    /** `on_object_update`: the target object, followed by its children when `children` is set;
        nothing without a target. */
    method OnObjectUpdate(objects: seq<HostObject>, target: Option<ObjId>, children: bool)
      requires target.Some? ==> target.value < |objects|
      modifies this
      ensures target.None? ==> cachedObjects == []
      ensures target.Some? && !children ==> cachedObjects == [target.value]
      ensures target.Some? && children ==> cachedObjects == [target.value] + objects[target.value].children
    {
      if target.Some? {
        var t := target.value;
        cachedObjects := [t];
        if children {
          var kids := objects[t].children;
          for k := 0 to |kids|
            invariant cachedObjects == [t] + kids[..k]
          {
            cachedObjects := cachedObjects + [kids[k]];
            assert kids[..k + 1] == kids[..k] + [kids[k]];
          }
          assert kids[..|kids|] == kids;
        }
      } else {
        cachedObjects := [];
      }
    }
  }

  /** The loop of the three `execute` methods over the cached objects. When `lenient` is off
      (Scene Input, Collection Input) an object no layer collection holds makes `lc.exclude`
      raise, after the objects before it were revealed; when it is on (Object Input) a line is
      printed for it and the loop goes on. */
  method Reveal(scene: Scene, obs: seq<ObjId>, lenient: bool) returns (r: Result<seq<ObjId>>)
    modifies scene
    ensures lenient ==> r == Ok(obs)
                        && scene.excluded == old(scene.excluded) - RevealedIds(scene.viewLayer, scene.objects, obs)
                        && scene.console == old(scene.console) + NoLayerMessages(scene.viewLayer, scene.objects, obs)
    ensures !lenient ==> scene.console == old(scene.console)
    ensures !lenient ==> match FirstUnplaced(scene.viewLayer, scene.objects, obs)
                         case None =>
                           r == Ok(obs) && scene.excluded == old(scene.excluded) - RevealedIds(scene.viewLayer, scene.objects, obs)
                         case Some(k) =>
                           r == Err(AttributeError("exclude"))
                           && scene.excluded == old(scene.excluded) - RevealedIds(scene.viewLayer, scene.objects, obs[..k])
    ensures scene.objects == old(scene.objects) && scene.selected == old(scene.selected) && scene.active == old(scene.active)
  {
    var revealed, printed, stop := RevealLoop(scene.viewLayer, scene.objects, obs, lenient);
    scene.excluded := scene.excluded - revealed;
    scene.console := scene.console + printed;
    r := if stop.Some? then Err(AttributeError("exclude")) else Ok(obs);
  }

  /** The loop of `Reveal` on the scene's values: the ids of the layer collections it reveals, the
      lines it prints, and the position of the object that made `lc.exclude` raise, if any. */
  method RevealLoop(viewLayer: LayerCollection, objects: seq<HostObject>, obs: seq<ObjId>, lenient: bool)
      returns (revealed: set<nat>, printed: seq<string>, stop: Option<nat>)
    ensures lenient ==> stop == None && revealed == RevealedIds(viewLayer, objects, obs)
                        && printed == NoLayerMessages(viewLayer, objects, obs)
    ensures !lenient ==> printed == [] && stop == FirstUnplaced(viewLayer, objects, obs)
    ensures !lenient ==> revealed == RevealedIds(viewLayer, objects, if stop.Some? then obs[..stop.value] else obs)
  {
    revealed, printed, stop := {}, [], None;
    for k := 0 to |obs|
      invariant revealed == RevealedIds(viewLayer, objects, obs[..k])
      invariant printed == if lenient then NoLayerMessages(viewLayer, objects, obs[..k]) else []
      invariant !lenient ==> forall j | 0 <= j < k :: Placement(viewLayer, objects, obs[j]).Some?
    {
      RevealStep(viewLayer, objects, obs, k);
      var lc := Placement(viewLayer, objects, obs[k]);
      if lc.Some? {
        revealed := revealed + {lc.value.id};
      } else if lenient {
        printed := printed + [NoLayerMessage(NameAt(objects, obs[k]))];
      } else {
        FirstUnplacedAt(viewLayer, objects, obs, k);
        stop := Some(k);
        return;
      }
    }
    assert obs[..|obs|] == obs;
  }

  /** One more object of the loop: its layer collection, if any, is revealed; otherwise its line
      is printed. */
  lemma RevealStep(viewLayer: LayerCollection, objects: seq<HostObject>, obs: seq<ObjId>, k: nat)
    requires k < |obs|
    ensures RevealedIds(viewLayer, objects, obs[..k + 1]) ==
            RevealedIds(viewLayer, objects, obs[..k])
            + match Placement(viewLayer, objects, obs[k])
              case Some(lc) => {lc.id}
              case None => {}
    ensures NoLayerMessages(viewLayer, objects, obs[..k + 1]) ==
            NoLayerMessages(viewLayer, objects, obs[..k])
            + if Placement(viewLayer, objects, obs[k]).None? then [NoLayerMessage(NameAt(objects, obs[k]))] else []
  {
    assert obs[..k + 1][..k] == obs[..k];
  }

  lemma FirstUnplacedAt(viewLayer: LayerCollection, objects: seq<HostObject>, obs: seq<ObjId>, k: nat)
    requires k < |obs| && Placement(viewLayer, objects, obs[k]).None?
    requires forall j | 0 <= j < k :: Placement(viewLayer, objects, obs[j]).Some?
    ensures FirstUnplaced(viewLayer, objects, obs) == Some(k)
  {
  }

  /** `WFNodeSceneInput.execute`: refresh the cache from the target scene, reveal, publish. */
  method SceneInputExecute(node: InputNode, scene: Scene, target: Option<SceneData>) returns (r: Result<seq<ObjId>>)
    modifies node, scene
    ensures node.cachedObjects == if target.Some? then target.value.objects else []
    ensures scene.console == old(scene.console)
    ensures match FirstUnplaced(scene.viewLayer, scene.objects, node.cachedObjects)
            case None =>
              r == Ok(node.cachedObjects)
              && scene.excluded == old(scene.excluded) - RevealedIds(scene.viewLayer, scene.objects, node.cachedObjects)
            case Some(k) =>
              r == Err(AttributeError("exclude"))
              && scene.excluded == old(scene.excluded) - RevealedIds(scene.viewLayer, scene.objects, node.cachedObjects[..k])
    ensures scene.objects == old(scene.objects) && scene.selected == old(scene.selected) && scene.active == old(scene.active)
  {
    node.OnSceneUpdate(target);
    r := Reveal(scene, node.cachedObjects, false);
  }

  /** `WFNodeCollectionInput.execute`: refresh the cache from the target collection, reveal,
      publish. */
  method CollectionInputExecute(node: InputNode, scene: Scene, target: Option<Collection>) returns (r: Result<seq<ObjId>>)
    modifies node, scene
    ensures node.cachedObjects == if target.Some? then CollectionObjects(target.value) else []
    ensures scene.console == old(scene.console)
    ensures match FirstUnplaced(scene.viewLayer, scene.objects, node.cachedObjects)
            case None =>
              r == Ok(node.cachedObjects)
              && scene.excluded == old(scene.excluded) - RevealedIds(scene.viewLayer, scene.objects, node.cachedObjects)
            case Some(k) =>
              r == Err(AttributeError("exclude"))
              && scene.excluded == old(scene.excluded) - RevealedIds(scene.viewLayer, scene.objects, node.cachedObjects[..k])
    ensures scene.objects == old(scene.objects) && scene.selected == old(scene.selected) && scene.active == old(scene.active)
  {
    node.OnCollectionUpdate(target);
    r := Reveal(scene, node.cachedObjects, false);
  }

  /** `WFNodeObjectInput.execute`: refresh the cache from the target object (and its children),
      reveal what can be revealed, report the rest, publish. */
  method ObjectInputExecute(node: InputNode, scene: Scene, target: Option<ObjId>, children: bool) returns (r: Result<seq<ObjId>>)
    requires target.Some? ==> target.value < |scene.objects|
    modifies node, scene
    ensures target.None? ==> node.cachedObjects == []
    ensures target.Some? ==> node.cachedObjects == [target.value] + (if children then old(scene.objects)[target.value].children else [])
    ensures r == Ok(node.cachedObjects)
    ensures scene.excluded == old(scene.excluded) - RevealedIds(scene.viewLayer, scene.objects, node.cachedObjects)
    ensures scene.console == old(scene.console) + NoLayerMessages(scene.viewLayer, scene.objects, node.cachedObjects)
    ensures scene.objects == old(scene.objects) && scene.selected == old(scene.selected) && scene.active == old(scene.active)
  {
    node.OnObjectUpdate(scene.objects, target, children);
    r := Reveal(scene, node.cachedObjects, true);
  }
}
