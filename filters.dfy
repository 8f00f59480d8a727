/** The name filter nodes: Starts With, Ends With and Contains keep the input objects whose name
    passes a test against the node's "filter" string, in input order. */
module Filters {
  import opened Wrappers
  import opened Seqs
  import opened Strings
  import opened Host
  import opened Graph
  import Mixins

  datatype FilterKind = StartsWithFilter | EndsWithFilter | ContainsFilter

  /** The test each node applies to an object's name. Contains is the corrected test: the filter
      occurs in the name (see `ContainsAsWritten` for the test the node's code applies). */
  predicate Passes(kind: FilterKind, name: string, filter: string) {
    match kind
    case StartsWithFilter => StartsWith(name, filter)
    case EndsWithFilter => EndsWith(name, filter)
    case ContainsFilter => IsSubstring(filter, name)
  }

  /** The name of object `ob`, or "" for a reference outside the scene. */
  function NameOf(objects: seq<HostObject>, ob: ObjId): string {
    if ob < |objects| then objects[ob].name else ""
  }

  /** `[ob for ob in obs if <test>(ob.name, filter)]`. */
  function FilterObjects(kind: FilterKind, objects: seq<HostObject>, obs: seq<ObjId>, filter: string): (r: seq<ObjId>) {
    Filter((ob: ObjId) => Passes(kind, NameOf(objects, ob), filter), obs)
  }

  /** The filter keeps exactly the objects whose name passes, in input order, each occurrence as
      often as it was given. */
  lemma FilterKeepsExactlyPassing(kind: FilterKind, objects: seq<HostObject>, obs: seq<ObjId>, filter: string)
    ensures var r := FilterObjects(kind, objects, obs, filter);
            && IsSubseq(r, obs)
            && (forall ob :: ob in r <==> ob in obs && Passes(kind, NameOf(objects, ob), filter))
            && (forall ob :: multiset(r)[ob] == if Passes(kind, NameOf(objects, ob), filter) then multiset(obs)[ob] else 0)
  {
    var p := (ob: ObjId) => Passes(kind, NameOf(objects, ob), filter);
    FilterIsSubseq(p, obs);
    forall ob
      ensures multiset(FilterObjects(kind, objects, obs, filter))[ob] == if p(ob) then multiset(obs)[ob] else 0
    {
      FilterMultiplicity(p, obs, ob);
    }
  }

  /** Filtering twice with the same string is filtering once. */
  lemma FilterTwiceIsOnce(kind: FilterKind, objects: seq<HostObject>, obs: seq<ObjId>, filter: string)
    ensures FilterObjects(kind, objects, FilterObjects(kind, objects, obs, filter), filter) == FilterObjects(kind, objects, obs, filter)
  {
    FilterIdempotent((ob: ObjId) => Passes(kind, NameOf(objects, ob), filter), obs);
  }

  /** With an empty filter string every object passes. */
  lemma EmptyFilterKeepsAll(kind: FilterKind, objects: seq<HostObject>, obs: seq<ObjId>)
    ensures FilterObjects(kind, objects, obs, "") == obs
  {
    forall ob | ob in obs
      ensures Passes(kind, NameOf(objects, ob), "")
    {
      EmptyPattern(NameOf(objects, ob));
    }
    FilterAll((ob: ObjId) => Passes(kind, NameOf(objects, ob), ""), obs);
  }

  /** `WFNodeFilterContains.execute` as written: it tests `ob.name in filter`, so it keeps the
      objects whose name occurs in the filter string, the reverse of what the node describes. */
  function ContainsAsWritten(objects: seq<HostObject>, obs: seq<ObjId>, filter: string): (r: seq<ObjId>)
    ensures forall ob :: ob in r <==> ob in obs && IsSubstring(NameOf(objects, ob), filter)
  {
    Filter((ob: ObjId) => IsSubstring(NameOf(objects, ob), filter), obs)
  }

  /** An object named "Cube.001" is dropped by the written Contains filter for "Cube", and kept
      by the corrected one; with an empty filter the written test keeps only empty names. */
  lemma ContainsAsWrittenIsReversed()
    ensures var objects := [HostObject("Cube.001", None, MESH, [], [])];
            && ContainsAsWritten(objects, [0], "Cube") == []
            && FilterObjects(ContainsFilter, objects, [0], "Cube") == [0]
            && ContainsAsWritten(objects, [0], "") == []
  {
    var objects := [HostObject("Cube.001", None, MESH, [], [])];
    assert !IsSubstring("Cube.001", "Cube") by {
      SubstringLength("Cube.001", "Cube");
    }
    assert !IsSubstring("Cube.001", "") by {
      EmptyPattern("");
    }
    assert IsSubstring("Cube", "Cube.001") by {
      assert StartsWith("Cube.001"[0..], "Cube");
    }
  }

  /** The init of the three filter nodes: the filter node's sockets and colour, then a "filter"
      string input. */
  method NameFilterNodeInit(t: NodeTree, i: nat)
    requires i < |t.nodes|
    modifies t
    ensures var n := old(t.nodes)[i];
            t.nodes == old(t.nodes)[i := n.(useCustomColor := true, color := FilterColor,
                                            inputs := n.inputs + [NewSocket(OBJECTS_SOCKET, "in"), NewSocket(STRING_SOCKET, "filter")],
                                            outputs := n.outputs + [NewSocket(OBJECTS_SOCKET, "out")])]
    ensures t.links == old(t.links)
  {
    Mixins.FilterNodeInit(t, i);
    ghost var n := old(t.nodes)[i];
    assert t.nodes[i].inputs + [NewSocket(STRING_SOCKET, "filter")] == n.inputs + [NewSocket(OBJECTS_SOCKET, "in"), NewSocket(STRING_SOCKET, "filter")];
    t.nodes := t.nodes[i := t.nodes[i].(inputs := t.nodes[i].inputs + [NewSocket(STRING_SOCKET, "filter")])];
  }
}
