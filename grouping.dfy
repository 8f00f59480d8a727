/** The set nodes: Combine Sets merges all its input object lists into one list without repeats,
    and Remove From Set takes the objects of its "exclude" input out of its main set. Both turn
    their input into a Python set first, so their output order is whatever the set gives. */
module Grouping {
  import opened Wrappers
  import opened Seqs
  import opened Host
  import opened Graph
  import Mixins

  /** `list(set(xs))` for a set whose elements are `s`: every element once, in an order the
      model does not fix. */
  method ListOfSet(s: set<ObjId>) returns (r: seq<ObjId>)
    ensures NoDups(r) && forall x :: x in r <==> x in s
  {
    r := [];
    var rest := s;
    while rest != {}
      invariant forall x :: x in r <==> x in s && x !in rest
      invariant rest <= s && NoDups(r)
      decreases |rest|
    {
      var x :| x in rest;
      r := r + [x];
      rest := rest - {x};
    }
  }

  /** `WFNodeCombineSets.execute`: `data` is everything linked into the "objects" input. The
      output holds each of those objects exactly once. */
  method CombineSets(data: seq<ObjId>) returns (obs: seq<ObjId>)
    ensures NoDups(obs) && forall x :: x in obs <==> x in data
    ensures |obs| <= |data|
  {
    obs := ListOfSet(Elems(data));
    DistinctShorter(obs, data);
  }

  /** The elements of a list, as a set. */
  function Elems(s: seq<ObjId>): set<ObjId> {
    set x | x in s
  }

  /** A list without repeats whose elements all come from `s` is no longer than `s`. */
  lemma {:induction false} DistinctShorter(r: seq<ObjId>, s: seq<ObjId>)
    requires NoDups(r) && forall x | x in r :: x in s
    ensures |r| <= |s|
  {
    DistinctCard(r);
    SeqSetCard(s);
    assert Elems(s) == Elems(r) + (Elems(s) - Elems(r));
  }

  lemma {:induction false} DistinctCard(r: seq<ObjId>)
    requires NoDups(r)
    ensures |Elems(r)| == |r|
  {
    if |r| > 0 {
      var init := r[..|r| - 1];
      var last := r[|r| - 1];
      assert NoDups(init) by {
        forall i, j | 0 <= i < j < |init|
          ensures init[i] != init[j]
        {
          assert init[i] == r[i] && init[j] == r[j];
        }
      }
      DistinctCard(init);
      forall i | 0 <= i < |init|
        ensures init[i] != last
      {
        assert init[i] == r[i];
      }
      assert r == init + [last];
      assert Elems(r) == Elems(init) + {last};
    }
  }

  lemma {:induction false} SeqSetCard(s: seq<ObjId>)
    ensures |Elems(s)| <= |s|
  {
    if |s| > 0 {
      var init := s[..|s| - 1];
      SeqSetCard(init);
      assert s == init + [s[|s| - 1]];
      assert Elems(s) == Elems(init) + {s[|s| - 1]};
    }
  }

  /** The message of the ValueError `list.remove` raises. */
  const NOT_IN_LIST: string := "list.remove(x): x not in list"

  /** `WFNodeRemoveFromSet.execute`: `main` is everything linked into "objects", `exclude`
      everything linked into "exclude". Each excluded object is removed from the distinct main
      objects; one that is not there (never was, or was already removed because it is listed
      twice) makes `list.remove` raise ValueError. */
  method RemoveFromSet(main: seq<ObjId>, exclude: seq<ObjId>) returns (r: Result<seq<ObjId>>)
    ensures r.Ok? <==> (forall x | x in exclude :: x in main) && NoDups(exclude)
    ensures r.Err? ==> r.error == ValueError(NOT_IN_LIST)
    ensures r.Ok? ==> NoDups(r.value) && forall x :: x in r.value <==> x in main && x !in exclude
  {
    var obs := ListOfSet(Elems(main));
    for k := 0 to |exclude|
      invariant NoDups(obs) && forall x :: x in obs <==> x in main && x !in exclude[..k]
      invariant (forall x | x in exclude[..k] :: x in main) && NoDups(exclude[..k])
    {
      var ex := exclude[k];
      if ex !in obs {
        NotRemovable(main, exclude, k);
        return Err(ValueError(NOT_IN_LIST));
      }
      obs := RemoveFirst(obs, ex);
      assert exclude[..k + 1] == exclude[..k] + [ex];
    }
    assert exclude[..|exclude|] == exclude;
    r := Ok(obs);
  }

  /** `obs.remove(x)` on a list without repeats. */
  function RemoveFirst(obs: seq<ObjId>, x: ObjId): (r: seq<ObjId>)
    requires NoDups(obs) && x in obs
    ensures NoDups(r) && forall y :: y in r <==> y in obs && y != x
  {
    FilterNoDups((y: ObjId) => y != x, obs);
    Filter((y: ObjId) => y != x, obs)
  }

  /** An excluded object missing from what is left was never in the main set, or is listed twice. */
  lemma NotRemovable(main: seq<ObjId>, exclude: seq<ObjId>, k: nat)
    requires k < |exclude| && (exclude[k] !in main || exclude[k] in exclude[..k])
    ensures !((forall x | x in exclude :: x in main) && NoDups(exclude))
  {
    if exclude[k] in exclude[..k] {
      var j :| 0 <= j < k && exclude[..k][j] == exclude[k];
      assert exclude[j] == exclude[k];
    }
  }

  /** `inputs[name].link_limit = limit`: the first input of that name gets the limit, or there is
      none and the lookup raises KeyError. */
  function WithLinkLimit(inputs: seq<Socket>, name: string, limit: nat): (r: Result<seq<Socket>>)
    ensures r.Err? <==> forall k | 0 <= k < |inputs| :: inputs[k].name != name
    ensures r.Err? ==> r.error == KeyError(name)
    ensures r.Ok? ==> |r.value| == |inputs| && exists k | 0 <= k < |inputs| ::
              && inputs[k].name == name && r.value[k] == inputs[k].(linkLimit := limit)
              && (forall j | 0 <= j < k :: inputs[j].name != name)
              && forall j | 0 <= j < |inputs| && j != k :: r.value[j] == inputs[j]
  {
    match FirstIndex((s: Socket) => s.name == name, inputs)
    case None => Err(KeyError(name))
    case Some(k) => Ok(inputs[k := inputs[k].(linkLimit := limit)])
  }

  /** `WFNodeCombineSets.init`: the filter node's init, then no link limit on the "objects"
      input. With the filter node's sockets named "in" and "out" there is no "objects" input, and
      the lookup raises KeyError after the sockets are made. */
  method CombineSetsInit(t: NodeTree, i: nat) returns (error: Option<Exception>)
    requires i < |t.nodes|
    modifies t
    ensures var n := old(t.nodes)[i];
            var made := n.(useCustomColor := true, color := FilterColor,
                           inputs := n.inputs + [NewSocket(OBJECTS_SOCKET, "in")],
                           outputs := n.outputs + [NewSocket(OBJECTS_SOCKET, "out")]);
            match WithLinkLimit(made.inputs, "objects", 0)
            case Err(e) => error == Some(e) && t.nodes == old(t.nodes)[i := made]
            case Ok(inputs) => error == None && t.nodes == old(t.nodes)[i := made.(inputs := inputs)]
    ensures t.links == old(t.links)
  {
    Mixins.FilterNodeInit(t, i);
    match WithLinkLimit(t.nodes[i].inputs, "objects", 0)
    case Err(e) =>
      error := Some(e);
    case Ok(inputs) =>
      t.nodes := t.nodes[i := t.nodes[i].(inputs := inputs)];
      error := None;
  }

  /** `WFNodeRemoveFromSet.init`: the filter node's init, no link limit on "objects", a new
      "exclude" objects input, and no link limit on it either. The first failing lookup raises and
      ends the init. */
  method RemoveFromSetInit(t: NodeTree, i: nat) returns (error: Option<Exception>)
    requires i < |t.nodes|
    modifies t
    ensures var n := old(t.nodes)[i];
            var made := n.(useCustomColor := true, color := FilterColor,
                           inputs := n.inputs + [NewSocket(OBJECTS_SOCKET, "in")],
                           outputs := n.outputs + [NewSocket(OBJECTS_SOCKET, "out")]);
            match WithLinkLimit(made.inputs, "objects", 0)
            case Err(e) => error == Some(e) && t.nodes == old(t.nodes)[i := made]
            case Ok(inputs) =>
              var withExclude := inputs + [NewSocket(OBJECTS_SOCKET, "exclude")];
              match WithLinkLimit(withExclude, "exclude", 0)
              case Err(e) => false
              case Ok(final) => error == None && t.nodes == old(t.nodes)[i := made.(inputs := final)]
    ensures t.links == old(t.links)
  {
    Mixins.FilterNodeInit(t, i);
    match WithLinkLimit(t.nodes[i].inputs, "objects", 0)
    case Err(e) =>
      error := Some(e);
    case Ok(inputs) =>
      var withExclude := inputs + [NewSocket(OBJECTS_SOCKET, "exclude")];
      assert withExclude[|withExclude| - 1].name == "exclude";
      match WithLinkLimit(withExclude, "exclude", 0)
      case Err(e) =>
        assert false;
      case Ok(final) =>
        t.nodes := t.nodes[i := t.nodes[i].(inputs := final)];
        error := None;
  }
}
