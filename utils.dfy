/** The add-on's utilities: the walk over a package's module graph that `rreload` reloads in
    order, the search for the layer collection holding an object, and the argument logic of the
    glTF, FBX and OBJ exports. */
module Utils {
  import opened Wrappers
  import opened Seqs
  import opened Strings
  import opened Host

  // ---------------------------------------------------------------------------------------------
  // get_package_dependencies

  /** A value of `vars(module)`: a module object (`id`, with its `__file__` if it has one) or
      anything else. */
  datatype Member = NotModule | ModuleRef(id: nat, file: Option<string>)

  /** `os.path.dirname(fn) + os.sep` with "/" as separator: the part of `fn` up to its last "/",
      with trailing slashes dropped unless it is only slashes, followed by "/". */
  function PackageDir(fn: string): (r: string)
    ensures |r| > 0 && r[|r| - 1] == '/'
  {
    var head := fn[..LastSlashEnd(fn)];
    StripTrailingSlashes(head) + "/"
  }

  /** The length of the longest prefix of `s` that ends in "/" (0 when `s` has no "/"). */
  function LastSlashEnd(s: string): (n: nat)
    ensures n <= |s| && (n > 0 ==> s[n - 1] == '/') && forall k | n <= k < |s| :: s[k] != '/'
  {
    if |s| == 0 then 0
    else if s[|s| - 1] == '/' then |s|
    else LastSlashEnd(s[..|s| - 1])
  }

  function StripTrailingSlashes(head: string): string {
    if forall k | 0 <= k < |head| :: head[k] == '/' then head
    else DropSlashes(head)
  }

  function DropSlashes(s: string): string {
    if |s| > 0 && s[|s| - 1] == '/' then DropSlashes(s[..|s| - 1]) else s
  }

  /** Every module file named anywhere in `vars`, and the root's. */
  function AllFiles(vars: map<nat, seq<Member>>, rootFile: string): set<string> {
    {rootFile} + set m, k | m in vars && 0 <= k < |vars[m]| && vars[m][k].ModuleRef? && vars[m][k].file.Some? :: vars[m][k].file.value
  }

  /** The state of `get_package_dependencies` while its recursive closure runs: `nodeSet`,
      `nodeDepth`, `nodePkg` and `linkSet` are its four collections. `vars` maps each module
      object to the values of `vars(module)`; a module not in it has none. */
  class DependencyWalk {
    const vars: map<nat, seq<Member>>
    const rootFile: string
    const dir: string
    var nodeSet: set<string>
    var nodeDepth: map<string, nat>
    var nodePkg: map<string, nat>
    var linkSet: set<(string, string)>
    /** Every (file, depth) at which a module was reached, the root at depth 0 first. */
    ghost var reached: seq<(string, nat)>
    /** The edges followed by a recursive call, in order. */
    ghost var followed: seq<(string, string)>
    ghost const edges: set<(string, string)>

    ghost predicate Valid()
      reads this
    {
      KeysAgree() && UnderPackage() && DepthIsGreatest() && EdgesOnce()
    }

    /** `node_set`, `node_depth_dict` and `node_pkg_dict` have the same keys, the root among them. */
    ghost predicate KeysAgree()
      reads this
    {
      SameKeys(nodeSet, nodeDepth, nodePkg, rootFile)
    }

    /** Every recorded module but the root lies under the package directory. */
    ghost predicate UnderPackage()
      reads this
    {
      AllUnder(nodeSet, rootFile, dir)
    }

    /** A recorded depth is the greatest depth at which the module was reached. */
    ghost predicate DepthIsGreatest()
      reads this
    {
      GreatestDepths(nodeDepth, reached)
    }

    /** `link_set` holds exactly the edges followed, and none was followed twice. */
    ghost predicate EdgesOnce()
      reads this
    {
      NoDups(followed) && forall e :: e in followed <==> e in linkSet
    }

    /** The state right after line 14: the root module alone, at depth 0. */
    constructor (vars: map<nat, seq<Member>>, root: nat, rootFile: string)
      ensures Valid() && this.vars == vars && this.rootFile == rootFile && dir == PackageDir(rootFile)
      ensures edges == Pairs(AllFiles(vars, rootFile))
      ensures nodeDepth == map[rootFile := 0] && nodePkg == map[rootFile := root] && linkSet == {}
    {
      this.vars := vars;
      this.rootFile := rootFile;
      dir := PackageDir(rootFile);
      nodeSet := {rootFile};
      nodeDepth := map[rootFile := 0];
      nodePkg := map[rootFile := root];
      linkSet := {};
      reached := [(rootFile, 0)];
      followed := [];
      edges := Pairs(AllFiles(vars, rootFile));
    }

    /** `dependency_traversal_recursive(module, depth)`. It follows an edge (parent file, child
        file) only the first time it meets it, so it ends on cyclic module graphs too; only files
        under the package directory are recorded; a recorded depth only grows. */
    method Traverse(mod: nat, file: string, depth: nat)
      requires Valid() && edges == Pairs(AllFiles(vars, rootFile)) && file in AllFiles(vars, rootFile)
      modifies this
      ensures Valid() && Grown(old(linkSet), old(nodePkg), old(reached), old(followed))
      decreases |edges - linkSet|, 1
    {
      var members := if mod in vars then vars[mod] else [];
      for i := 0 to |members|
        invariant Valid() && Grown(old(linkSet), old(nodePkg), old(reached), old(followed))
      {
        AllFilesMember(vars, rootFile, mod, i);
        SubsetCardinality(edges - linkSet, edges - old(linkSet));
        ghost var ls, pk, re, fo := linkSet, nodePkg, reached, followed;
        VisitMember(file, members[i], depth);
        assert Grown(ls, pk, re, fo);
      }
    }

    /** The state only grew since `linkSet0`, `pkg0`, `reached0` and `followed0`: no edge
        forgotten, no module object replaced. */
    ghost predicate Grown(linkSet0: set<(string, string)>, pkg0: map<string, nat>, reached0: seq<(string, nat)>, followed0: seq<(string, string)>)
      reads this
    {
      && linkSet0 <= linkSet && reached0 <= reached && followed0 <= followed
      && forall f | f in pkg0 :: f in nodePkg && nodePkg[f] == pkg0[f]
    }

    /** One pass of the loop over `vars(module).values()`, for the module whose file is `file`. */
    method VisitMember(file: string, member: Member, depth: nat)
      requires Valid() && edges == Pairs(AllFiles(vars, rootFile)) && file in AllFiles(vars, rootFile)
      requires member.ModuleRef? && member.file.Some? ==> member.file.value in AllFiles(vars, rootFile)
      modifies this
      ensures Valid() && Grown(old(linkSet), old(nodePkg), old(reached), old(followed))
      decreases |edges - linkSet|, 0
    {
      if member.NotModule? || member.file.None? || !StartsWith(member.file.value, dir) {
        return;
      }
      var child := member.file.value;
      Reach(child, member.id, depth);
      if (file, child) !in linkSet {
        ghost var before := linkSet;
        Follow(file, child);
        FewerEdgesLeft(edges, before, linkSet, (file, child));
        SubsetCardinality(edges - before, edges - old(linkSet));
        assert |edges - linkSet| < |edges - old(linkSet)|;
        ghost var ls, pk, re, fo := linkSet, nodePkg, reached, followed;
        assert Grown(old(linkSet), old(nodePkg), old(reached), old(followed));
        Traverse(member.id, child, depth + 1);
        assert Grown(ls, pk, re, fo);
      }
    }

    /** Record `child` the first time it is met, and keep the greatest depth at which
        it was reached. */
    method Reach(child: string, id: nat, depth: nat)
      requires Valid() && StartsWith(child, dir)
      modifies this
      ensures Valid() && nodeSet == old(nodeSet) + {child}
      ensures nodeDepth[child] == Max(depth, if child in old(nodeDepth) then old(nodeDepth)[child] else depth)
      ensures linkSet == old(linkSet) && followed == old(followed) && reached == old(reached) + [(child, depth)]
      ensures forall f | f in old(nodePkg) :: f in nodePkg && nodePkg[f] == old(nodePkg)[f]
    {
      var names := nodeSet + {child};
      var depths := nodeDepth[child := if child in nodeDepth then Max(depth, nodeDepth[child]) else depth];
      var pkgs := if child in nodePkg then nodePkg else nodePkg[child := id];
      ReachStep(nodeSet, nodeDepth, nodePkg, reached, rootFile, dir, child, id, depth, names, depths, pkgs);
      nodeSet, nodeDepth, nodePkg, reached := names, depths, pkgs, reached + [(child, depth)];
    }

    /** Mark the edge from `parent` to `child` as followed. */
    method Follow(parent: string, child: string)
      requires Valid() && (parent, child) !in linkSet
      modifies this
      ensures Valid() && linkSet == old(linkSet) + {(parent, child)} && followed == old(followed) + [(parent, child)]
      ensures nodeSet == old(nodeSet) && nodeDepth == old(nodeDepth) && nodePkg == old(nodePkg) && reached == old(reached)
    {
      linkSet := linkSet + {(parent, child)};
      followed := followed + [(parent, child)];
      forall i, j | 0 <= i < j < |followed|
        ensures followed[i] != followed[j]
      {
        if j < |followed| - 1 {
          assert followed[i] == old(followed)[i] && followed[j] == old(followed)[j];
        } else {
          assert followed[i] in old(followed);
        }
      }
    }
  }

  /** The recorded set and the two dictionaries have the same keys, the root among them. */
  ghost predicate SameKeys(names: set<string>, depths: map<string, nat>, pkgs: map<string, nat>, root: string) {
    names == depths.Keys && names == pkgs.Keys && root in names
  }

  /** Every recorded module but the root lies under `dir`. */
  ghost predicate AllUnder(names: set<string>, root: string, dir: string) {
    forall f | f in names :: f == root || StartsWith(f, dir)
  }

  /** Recording `child` under `dir` at `depth` keeps the keys in step, every module under the
      package, every depth the greatest, and every earlier module object. */
  lemma ReachStep(names: set<string>, depths: map<string, nat>, pkgs: map<string, nat>, reached: seq<(string, nat)>,
                  root: string, dir: string, child: string, id: nat, depth: nat,
                  names': set<string>, depths': map<string, nat>, pkgs': map<string, nat>)
    requires SameKeys(names, depths, pkgs, root) && AllUnder(names, root, dir) && GreatestDepths(depths, reached)
    requires StartsWith(child, dir)
    requires names' == names + {child}
    requires depths' == depths[child := if child in depths then Max(depth, depths[child]) else depth]
    requires pkgs' == if child in pkgs then pkgs else pkgs[child := id]
    ensures SameKeys(names', depths', pkgs', root) && AllUnder(names', root, dir)
    ensures GreatestDepths(depths', reached + [(child, depth)])
    ensures forall f | f in pkgs :: f in pkgs' && pkgs'[f] == pkgs[f]
  {
    var d := if child in depths then depths else depths[child := depth];
    assert depths' == d[child := Max(depth, d[child])];
    GreatestDepthsStep(d, reached, child, depth);
  }

  /** Each recorded depth is one at which its module was reached, and no greater one exists. */
  ghost predicate GreatestDepths(depths: map<string, nat>, reached: seq<(string, nat)>) {
    && (forall f | f in depths :: (f, depths[f]) in reached)
    && (forall k | 0 <= k < |reached| :: reached[k].0 in depths && reached[k].1 <= depths[reached[k].0])
  }

  /** Reaching a recorded module once more keeps its depth the greatest one. */
  lemma GreatestDepthsStep(depths: map<string, nat>, reached: seq<(string, nat)>, child: string, depth: nat)
    requires child in depths && (forall f | f in depths && f != child :: (f, depths[f]) in reached)
    requires depths[child] == depth || (child, depths[child]) in reached
    requires forall k | 0 <= k < |reached| :: reached[k].0 in depths && reached[k].1 <= depths[reached[k].0]
    ensures GreatestDepths(depths[child := Max(depth, depths[child])], reached + [(child, depth)])
  {
    var d := depths[child := Max(depth, depths[child])];
    var r := reached + [(child, depth)];
    forall f | f in d
      ensures (f, d[f]) in r
    {
      if f != child || d[child] != depth {
        assert (f, d[f]) in reached;
      } else {
        assert r[|r| - 1] == (f, d[f]);
      }
    }
    forall k | 0 <= k < |r|
      ensures r[k].0 in d && r[k].1 <= d[r[k].0]
    {
      if k < |r| - 1 {
        assert r[k] == reached[k];
      }
    }
  }

  lemma AllFilesMember(vars: map<nat, seq<Member>>, rootFile: string, m: nat, k: nat)
    requires m in vars && k < |vars[m]|
    ensures vars[m][k].ModuleRef? && vars[m][k].file.Some? ==> vars[m][k].file.value in AllFiles(vars, rootFile)
  {
  }

  function Pairs(files: set<string>): (r: set<(string, string)>)
    ensures forall a, b | a in files && b in files :: (a, b) in r
  {
    set a, b | a in files && b in files :: (a, b)
  }

  function Max(a: nat, b: nat): (r: nat)
    ensures r >= a && r >= b && (r == a || r == b)
  {
    if a >= b then a else b
  }

  /** Following one more edge of a finite set shrinks the number of edges left to follow. */
  lemma FewerEdgesLeft<T>(all: set<T>, before: set<T>, after: set<T>, e: T)
    requires before <= after && e in all && e in after && e !in before
    ensures |all - after| < |all - before|
  {
    var left := all - before;
    assert all - after <= left - {e};
    SubsetCardinality(all - after, left - {e});
  }

  lemma SubsetCardinality<T>(a: set<T>, b: set<T>)
    requires a <= b
    ensures |a| <= |b|
  {
    assert b == a + (b - a);
  }

  /** `get_package_dependencies(package)`: the module objects and the greatest depths recorded
      for the package's modules, keyed by file. The two maps have the same keys, the root is among
      them, and every other key is a file under the package directory. `reached` is every (file,
      depth) at which the walk reached a module, the root at depth 0 first: each recorded depth is
      the greatest of them for its file. */
  method PackageDependencies(vars: map<nat, seq<Member>>, root: nat, rootFile: string)
    returns (pkg: map<string, nat>, depth: map<string, nat>, ghost reached: seq<(string, nat)>)
    ensures pkg.Keys == depth.Keys && rootFile in depth && pkg[rootFile] == root
    ensures forall f | f in depth :: f == rootFile || StartsWith(f, PackageDir(rootFile))
    ensures |reached| > 0 && reached[0] == (rootFile, 0) && GreatestDepths(depth, reached)
  {
    var walk := new DependencyWalk(vars, root, rootFile);
    walk.Traverse(root, rootFile, 1);
    pkg, depth, reached := walk.nodePkg, walk.nodeDepth, walk.reached;
  }

  // ---------------------------------------------------------------------------------------------
  // rreload ordering

  /** `(d, v)` sorts after `(d', v')`: the order of `sorted(..., reverse=True)` over
      (depth, file) pairs. */
  predicate ReloadsBefore(depth: map<string, nat>, a: string, b: string)
    requires a in depth && b in depth
  {
    depth[a] > depth[b] || (depth[a] == depth[b] && LexLess(b, a))
  }

  lemma ReloadsBeforeTotal(depth: map<string, nat>, a: string, b: string)
    requires a in depth && b in depth && a != b
    ensures ReloadsBefore(depth, a, b) || ReloadsBefore(depth, b, a)
  {
    LexLessTotal(a, b);
  }

  lemma ReloadsBeforeTransitive(depth: map<string, nat>, a: string, b: string, c: string)
    requires a in depth && b in depth && c in depth
    requires ReloadsBefore(depth, a, b) && ReloadsBefore(depth, b, c)
    ensures ReloadsBefore(depth, a, c)
  {
    if depth[a] == depth[b] && depth[b] == depth[c] {
      LexLessTransitive(c, b, a);
    }
  }

  lemma ReloadsBeforeAsymmetric(depth: map<string, nat>, a: string, b: string)
    requires a in depth && b in depth && ReloadsBefore(depth, a, b)
    ensures !ReloadsBefore(depth, b, a)
  {
    if depth[a] == depth[b] && LexLess(a, b) {
      LexLessTransitive(a, b, a);
      LexLessIrreflexive(a);
    }
  }

  predicate SortedForReload(depth: map<string, nat>, order: seq<string>)
    requires forall k | 0 <= k < |order| :: order[k] in depth
  {
    forall i, j | 0 <= i < j < |order| :: ReloadsBefore(depth, order[i], order[j])
  }

  /** Puts `f` into a reload order at the place `sorted` gives it. */
  method InsertForReload(depth: map<string, nat>, order: seq<string>, f: string) returns (r: seq<string>)
    requires f in depth && f !in order && forall k | 0 <= k < |order| :: order[k] in depth
    requires SortedForReload(depth, order)
    ensures |r| == |order| + 1 && forall x :: x in r <==> x in order || x == f
    ensures forall k | 0 <= k < |r| :: r[k] in depth
    ensures SortedForReload(depth, r)
  {
    var p := 0;
    while p < |order| && ReloadsBefore(depth, order[p], f)
      invariant 0 <= p <= |order|
      invariant forall k | 0 <= k < p :: ReloadsBefore(depth, order[k], f)
    {
      p := p + 1;
    }
    if p < |order| {
      ReloadsBeforeTotal(depth, f, order[p]);
      forall k | p <= k < |order|
        ensures ReloadsBefore(depth, f, order[k])
      {
        if k > p {
          ReloadsBeforeTransitive(depth, f, order[p], order[k]);
        }
      }
    }
    r := order[..p] + [f] + order[p..];
    assert order == order[..p] + order[p..];
    InsertedSorted(depth, order, p, f);
  }

  /** Sortedness of `order` with `f` put at position `p`, when everything before `p` reloads
      before `f` and `f` before everything from `p` on. */
  lemma InsertedSorted(depth: map<string, nat>, order: seq<string>, p: nat, f: string)
    requires p <= |order| && f in depth && forall k | 0 <= k < |order| :: order[k] in depth
    requires SortedForReload(depth, order)
    requires forall k | 0 <= k < p :: ReloadsBefore(depth, order[k], f)
    requires forall k | p <= k < |order| :: ReloadsBefore(depth, f, order[k])
    ensures var r := order[..p] + [f] + order[p..];
            (forall k | 0 <= k < |r| :: r[k] in depth) && SortedForReload(depth, r)
  {
    var r := order[..p] + [f] + order[p..];
    assert forall k | 0 <= k < p :: r[k] == order[k];
    assert r[p] == f;
    assert forall k | p < k < |r| :: r[k] == order[k - 1];
  }

  /** A reload order holds every module at most once. */
  lemma SortedNoDups(depth: map<string, nat>, order: seq<string>)
    requires forall k | 0 <= k < |order| :: order[k] in depth
    requires SortedForReload(depth, order)
    ensures NoDups(order)
  {
    forall i, j | 0 <= i < j < |order|
      ensures order[i] != order[j]
    {
      ReloadsBeforeAsymmetric(depth, order[i], order[j]);
    }
  }

  /** The order of `rreload`'s loop: every recorded module once, deepest first, modules of equal
      depth by file name from last to first. */
  method ReloadOrder(depth: map<string, nat>) returns (order: seq<string>)
    ensures NoDups(order) && forall f :: f in order <==> f in depth
    ensures forall k | 0 <= k < |order| :: order[k] in depth
    ensures SortedForReload(depth, order)
  {
    order := [];
    var remaining := depth.Keys;
    while remaining != {}
      invariant remaining <= depth.Keys
      invariant forall f :: f in order <==> f in depth && f !in remaining
      invariant forall k | 0 <= k < |order| :: order[k] in depth
      invariant SortedForReload(depth, order)
      decreases |remaining|
    {
      var f :| f in remaining;
      order := InsertForReload(depth, order, f);
      remaining := remaining - {f};
    }
    SortedNoDups(depth, order);
  }

  /** `rreload(package)`: the files whose modules it reloads, in the order it reloads them, and
      the modules reloaded; `depths` and `modules` are the maps `get_package_dependencies`
      returned, and `reached` the depths at which its walk reached each module. Every recorded module is reloaded exactly once, in the order of
      `sorted(..., reverse=True)` over (depth, file): deepest first, equal depths by file name
      from last to first. */
  method Rreload(vars: map<nat, seq<Member>>, root: nat, rootFile: string)
    returns (order: seq<string>, reloaded: seq<nat>, ghost depths: map<string, nat>, ghost modules: map<string, nat>,
             ghost reached: seq<(string, nat)>)
    ensures modules.Keys == depths.Keys && rootFile in depths && modules[rootFile] == root
    ensures GreatestDepths(depths, reached)
    ensures forall f :: f in order <==> f in depths
    ensures forall k | 0 <= k < |order| :: order[k] in depths
    ensures SortedForReload(depths, order) && NoDups(order)
    ensures |reloaded| == |order| && forall k | 0 <= k < |order| :: reloaded[k] == modules[order[k]]
    ensures forall k | 0 <= k < |order| :: order[k] == rootFile || StartsWith(order[k], PackageDir(rootFile))
  {
    var pkg, depth;
    pkg, depth, reached := PackageDependencies(vars, root, rootFile);
    order := ReloadOrder(depth);
    reloaded := seq(|order|, k requires 0 <= k < |order| => pkg[order[k]]);
    depths, modules := depth, pkg;
  }

  // ---------------------------------------------------------------------------------------------
  // find_object_layer_collection

  /** `find_object_layer_collection`: the layer collection itself if its collection holds an
      object of that name, else the first match among its children, searched in order. */
  function FindLayerCollection(lc: LayerCollection, name: string): (r: Option<LayerCollection>)
    ensures r.Some? ==> name in r.value.objectNames
    decreases lc, 1
  {
    if name in lc.objectNames then Some(lc) else FindInChildren(lc.children, name)
  }

  function FindInChildren(children: seq<LayerCollection>, name: string): (r: Option<LayerCollection>)
    ensures r.Some? ==> name in r.value.objectNames
    decreases children, 0
  {
    if |children| == 0 then None
    else
      match FindLayerCollection(children[0], name)
      case Some(found) => Some(found)
      case None => FindInChildren(children[1..], name)
  }

  /** The layer collections in pre-order: a collection, then each child's tree in turn. */
  function PreOrder(lc: LayerCollection): (r: seq<LayerCollection>)
    decreases lc, 1
  {
    [lc] + PreOrderAll(lc.children)
  }

  function PreOrderAll(children: seq<LayerCollection>): (r: seq<LayerCollection>)
    decreases children, 0
  {
    if |children| == 0 then [] else PreOrder(children[0]) + PreOrderAll(children[1..])
  }

  /** The first collection of `s` holding an object named `name`. */
  function FirstHolding(s: seq<LayerCollection>, name: string): (r: Option<LayerCollection>)
    ensures r.Some? <==> exists k | 0 <= k < |s| :: name in s[k].objectNames
  {
    if |s| == 0 then None
    else if name in s[0].objectNames then Some(s[0])
    else
      var r := FirstHolding(s[1..], name);
      assert forall k | 1 <= k < |s| :: s[k] == s[1..][k - 1];
      r
  }

  lemma {:induction false} FirstHoldingAppend(a: seq<LayerCollection>, b: seq<LayerCollection>, name: string)
    ensures FirstHolding(a + b, name) == if FirstHolding(a, name).Some? then FirstHolding(a, name) else FirstHolding(b, name)
  {
    if |a| > 0 {
      assert (a + b)[1..] == a[1..] + b;
      FirstHoldingAppend(a[1..], b, name);
    } else {
      assert a + b == b;
    }
  }

  /** The search returns the first pre-order collection holding the object, and None exactly when
      no collection of the tree holds it. */
  lemma {:induction false} FindIsFirstInPreOrder(lc: LayerCollection, name: string)
    ensures FindLayerCollection(lc, name) == FirstHolding(PreOrder(lc), name)
    decreases lc, 1
  {
    FindInChildrenIsFirst(lc.children, name);
    assert PreOrder(lc)[1..] == PreOrderAll(lc.children);
  }

  lemma {:induction false} FindInChildrenIsFirst(children: seq<LayerCollection>, name: string)
    ensures FindInChildren(children, name) == FirstHolding(PreOrderAll(children), name)
    decreases children, 0
  {
    if |children| > 0 {
      FindIsFirstInPreOrder(children[0], name);
      FindInChildrenIsFirst(children[1..], name);
      FirstHoldingAppend(PreOrder(children[0]), PreOrderAll(children[1..]), name);
    }
  }

  // ---------------------------------------------------------------------------------------------
  // export_scene_gltf, export_scene_fbx, export_scene_obj

  /** A keyword argument of an export operator; values the add-on only passes through are opaque. */
  datatype ArgValue = StrArg(s: string) | BoolArg(b: bool) | OpaqueArg(repr: string)

  /** `bpy.app.version`. */
  datatype Version = Version(major: nat, minor: nat, patch: nat)

  /** `v >= w` on version tuples. */
  predicate AtLeast(v: Version, w: Version) {
    v.major > w.major || (v.major == w.major && (v.minor > w.minor || (v.minor == w.minor && v.patch >= w.patch)))
  }

  const GLTF_ACTIVE_SCENE_SINCE: Version := Version(3, 2, 0)

  /** The arguments `export_scene_gltf` passes to the glTF exporter: the scene's remembered export
      settings, overridden by the add-on's own choices. `abspath` is `bpy.path.abspath`. */
  function GltfArgs(settings: map<string, ArgValue>, path: string, abspath: string -> string, version: Version): (r: map<string, ArgValue>)
  {
    var fixed := map[
      "export_format" := StrArg(if EndsWith(path, ".glb") then "GLB" else "GLTF_SEPARATE"),
      "filepath" := StrArg(abspath(path)),
      "use_selection" := BoolArg(true),
      "use_visible" := BoolArg(false),
      "use_renderable" := BoolArg(false),
      "use_active_collection" := BoolArg(false),
      "export_apply" := BoolArg(false)];
    var args := settings + fixed;
    if AtLeast(version, GLTF_ACTIVE_SCENE_SINCE) then args["use_active_scene" := BoolArg(true)] else args
  }

  /** The container format is GLB exactly when the path ends in ".glb"; only selected objects are
      exported, unapplied; `use_active_scene` is forced on from version 3.2.0 and otherwise left as
      the remembered settings have it; every other remembered setting is passed on. */
  lemma GltfArgsChoices(settings: map<string, ArgValue>, path: string, abspath: string -> string, version: Version)
    ensures var r := GltfArgs(settings, path, abspath, version);
            && (r["export_format"] == StrArg("GLB") <==> EndsWith(path, ".glb"))
            && (r["export_format"] == StrArg("GLTF_SEPARATE") <==> !EndsWith(path, ".glb"))
            && r["filepath"] == StrArg(abspath(path))
            && r["use_selection"] == BoolArg(true) && r["export_apply"] == BoolArg(false)
            && (AtLeast(version, GLTF_ACTIVE_SCENE_SINCE) ==> r["use_active_scene"] == BoolArg(true))
            && (!AtLeast(version, GLTF_ACTIVE_SCENE_SINCE) ==>
                  ("use_active_scene" in r <==> "use_active_scene" in settings) &&
                  ("use_active_scene" in settings ==> r["use_active_scene"] == settings["use_active_scene"]))
            && forall k | k in settings && k !in GLTF_FIXED_KEYS && k != "use_active_scene" :: k in r && r[k] == settings[k]
  {
  }

  const GLTF_FIXED_KEYS: set<string> := {"export_format", "filepath", "use_selection", "use_visible", "use_renderable", "use_active_collection", "export_apply"}

  /** `"_".join(s for s in preset.split())`: the preset's name as a file name. */
  function FbxPresetFilename(preset: string): (r: string)
    ensures NoSpace(r)
  {
    JoinNoSpace("_", Words(preset));
    Join("_", Words(preset))
  }

  /** A preset name with at least one word splits back at "_" into its words, when none of them
      holds a "_". */
  lemma FbxPresetFilenameWords(preset: string)
    requires |Words(preset)| > 0 && forall k | 0 <= k < |Words(preset)| :: '_' !in Words(preset)[k]
    ensures Split('_', FbxPresetFilename(preset)) == Words(preset)
  {
    SplitJoin('_', Words(preset));
  }

  /** The call `export_scene_fbx` makes: the preset file whose lines supply the exporter's
      settings, and the file path that overrides them. */
  datatype FbxExport = FbxExport(presetFile: string, filepath: string)

  /** `export_scene_fbx(context, path, preset)`. `presetFind` is `bpy.utils.preset_find` under
      "operator/export_scene.fbx"; a preset it does not find raises FileNotFoundError. */
  function ExportFbx(path: string, preset: string, presetFind: string -> Option<string>, abspath: string -> string): (r: Result<FbxExport>)
    ensures r.Err? <==> presetFind(FbxPresetFilename(preset)).None?
    ensures r.Err? ==> r.error == FileNotFoundError("Preset not found: \"" + preset + "\"")
    ensures r.Ok? ==> r.value == FbxExport(presetFind(FbxPresetFilename(preset)).value, abspath(path))
  {
    match presetFind(FbxPresetFilename(preset))
    case None => Err(FileNotFoundError("Preset not found: \"" + preset + "\""))
    case Some(file) => Ok(FbxExport(file, abspath(path)))
  }

  /** The arguments `export_scene_obj` passes to the OBJ exporter: the exporter's last-used
      settings, with the file path, selected objects only and no modifiers applied. */
  function ObjArgs(lastUsed: map<string, ArgValue>, path: string, abspath: string -> string): (r: map<string, ArgValue>)
    ensures r.Keys == lastUsed.Keys + {"filepath", "export_selected_objects", "apply_modifiers"}
    ensures r["filepath"] == StrArg(abspath(path)) && r["export_selected_objects"] == BoolArg(true)
    ensures r["apply_modifiers"] == BoolArg(false)
    ensures forall k | k in lastUsed && k !in {"filepath", "export_selected_objects", "apply_modifiers"} :: r[k] == lastUsed[k]
  {
    lastUsed + map["filepath" := StrArg(abspath(path)), "export_selected_objects" := BoolArg(true), "apply_modifiers" := BoolArg(false)]
  }
}
