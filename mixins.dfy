/** The node base classes: the pull evaluator (`WFNode.get_input_data`, `WFNode.execute`), the
    `init` chain of the action, filter, input, output and export nodes, and `filepath_update`.

    Evaluation recurses into the node at the far end of the first link of each linked input
    socket. There is no visited set and no cache, so it terminates only on an acyclic graph: the
    `rank` map, strictly increasing along every link, is that precondition. Nodes whose classes
    replace `execute` and `get_input_data` with code that is not part of this model (the input
    nodes, for one) are `sources`: both entry points return the given list for them. */
module Mixins {
  import opened Wrappers
  import opened Seqs
  import opened Host
  import opened Graph

  /** Every link goes from a node of lower rank to a node of higher rank: the upstream relation
      is acyclic. */
  predicate Ranked(links: seq<Link>, rank: map<string, nat>) {
    forall k | 0 <= k < |links| ::
      links[k].fromNode in rank && links[k].toNode in rank && rank[links[k].fromNode] < rank[links[k].toNode]
  }

  /** What the evaluator needs of node `name`: the upstream relation is acyclic and `name` is ranked. */
  predicate Evaluable(links: seq<Link>, rank: map<string, nat>, name: string) {
    Ranked(links, rank) && name in rank
  }

  /** The node at the far end of the first link into input `socket` of node `name`. */
  function Upstream(links: seq<Link>, name: string, socket: Socket): Option<string> {
    match FirstLinkInto(links, name, socket.identifier)
    case None => None
    case Some(l) => Some(l.fromNode)
  }

  lemma UpstreamRanked(links: seq<Link>, rank: map<string, nat>, name: string, socket: Socket)
    requires Evaluable(links, rank, name) && Upstream(links, name, socket).Some?
    ensures Evaluable(links, rank, Upstream(links, name, socket).value)
    ensures rank[Upstream(links, name, socket).value] < rank[name]
  {
    var l := FirstLinkInto(links, name, socket.identifier).value;
    var k :| 0 <= k < |links| && links[k] == l;
  }

  /** `node.execute()`: the objects of the upstream results in socket order, an object dropped
      when an earlier input already put it in. */
  function Pulled(nodes: seq<Node>, links: seq<Link>, sources: map<string, seq<ObjId>>,
                  rank: map<string, nat>, name: string): seq<ObjId>
    requires Evaluable(links, rank, name)
    decreases rank[name], 1, 0
  {
    if name in sources then sources[name]
    else
      var inputs := InputsOf(nodes, name);
      DedupConcat(PulledInputs(nodes, links, sources, rank, name, inputs, |inputs|))
  }

  /** The upstream `execute()` results of the linked sockets among the first `k` inputs, in order. */
  function PulledInputs(nodes: seq<Node>, links: seq<Link>, sources: map<string, seq<ObjId>>,
                        rank: map<string, nat>, name: string, inputs: seq<Socket>, k: nat): seq<seq<ObjId>>
    requires Evaluable(links, rank, name) && k <= |inputs|
    decreases rank[name], 0, k
  {
    if k == 0 then []
    else
      var prev := PulledInputs(nodes, links, sources, rank, name, inputs, k - 1);
      match Upstream(links, name, inputs[k - 1])
      case None => prev
      case Some(up) =>
        UpstreamRanked(links, rank, name, inputs[k - 1]);
        prev + [Pulled(nodes, links, sources, rank, up)]
  }

  /** `node.get_input_data()`: the upstream results concatenated in socket order, duplicates kept. */
  function InputData(nodes: seq<Node>, links: seq<Link>, sources: map<string, seq<ObjId>>,
                     rank: map<string, nat>, name: string): seq<ObjId>
    requires Evaluable(links, rank, name)
    decreases rank[name], 1, 0
  {
    if name in sources then sources[name]
    else
      var inputs := InputsOf(nodes, name);
      Concat(InputDataInputs(nodes, links, sources, rank, name, inputs, |inputs|))
  }

  /** The upstream `get_input_data()` results of the linked sockets among the first `k` inputs. */
  function InputDataInputs(nodes: seq<Node>, links: seq<Link>, sources: map<string, seq<ObjId>>,
                           rank: map<string, nat>, name: string, inputs: seq<Socket>, k: nat): seq<seq<ObjId>>
    requires Evaluable(links, rank, name) && k <= |inputs|
    decreases rank[name], 0, k
  {
    if k == 0 then []
    else
      var prev := InputDataInputs(nodes, links, sources, rank, name, inputs, k - 1);
      match Upstream(links, name, inputs[k - 1])
      case None => prev
      case Some(up) =>
        UpstreamRanked(links, rank, name, inputs[k - 1]);
        prev + [InputData(nodes, links, sources, rank, up)]
  }

  /** One more input: a linked socket adds the upstream `execute()` result, an unlinked one nothing. */
  lemma PulledInputsStep(nodes: seq<Node>, links: seq<Link>, sources: map<string, seq<ObjId>>,
                         rank: map<string, nat>, name: string, inputs: seq<Socket>, i: nat)
    requires Evaluable(links, rank, name) && i < |inputs|
    ensures var prev := DedupConcat(PulledInputs(nodes, links, sources, rank, name, inputs, i));
            var next := DedupConcat(PulledInputs(nodes, links, sources, rank, name, inputs, i + 1));
            match Upstream(links, name, inputs[i])
            case None => next == prev
            case Some(up) => Evaluable(links, rank, up) && next == AppendUnseen(prev, Pulled(nodes, links, sources, rank, up))
  {
    var ps := PulledInputs(nodes, links, sources, rank, name, inputs, i);
    match Upstream(links, name, inputs[i])
    case None =>
    case Some(up) =>
      UpstreamRanked(links, rank, name, inputs[i]);
      assert (ps + [Pulled(nodes, links, sources, rank, up)])[..|ps|] == ps;
  }

  /** One more input: a linked socket adds the upstream `get_input_data()` result whole. */
  lemma InputDataInputsStep(nodes: seq<Node>, links: seq<Link>, sources: map<string, seq<ObjId>>,
                            rank: map<string, nat>, name: string, inputs: seq<Socket>, i: nat)
    requires Evaluable(links, rank, name) && i < |inputs|
    ensures var prev := Concat(InputDataInputs(nodes, links, sources, rank, name, inputs, i));
            var next := Concat(InputDataInputs(nodes, links, sources, rank, name, inputs, i + 1));
            match Upstream(links, name, inputs[i])
            case None => next == prev
            case Some(up) => Evaluable(links, rank, up) && next == prev + InputData(nodes, links, sources, rank, up)
  {
    var ds := InputDataInputs(nodes, links, sources, rank, name, inputs, i);
    match Upstream(links, name, inputs[i])
    case None =>
    case Some(up) =>
      UpstreamRanked(links, rank, name, inputs[i]);
      assert (ds + [InputData(nodes, links, sources, rank, up)])[..|ds|] == ds;
  }

  /** The inner loop of `WFNode.execute`: the objects of `upstreamData` not in `obs` yet, appended. */
  method AppendUnseenObjects(obs: seq<ObjId>, upstreamData: seq<ObjId>) returns (r: seq<ObjId>)
    ensures r == AppendUnseen(obs, upstreamData)
  {
    var unseen := [];
    for j := 0 to |upstreamData|
      invariant unseen == Filter(x => x !in obs, upstreamData[..j])
    {
      assert upstreamData[..j + 1][..j] == upstreamData[..j];
      if upstreamData[j] !in obs {
        unseen := unseen + [upstreamData[j]];
      }
    }
    assert upstreamData[..|upstreamData|] == upstreamData;
    r := obs + unseen;
  }

  /** `WFNode.execute`, as the source runs it: a loop over the inputs that recurses into the
      upstream node of each linked socket and appends the objects not collected yet. */
  method Execute(nodes: seq<Node>, links: seq<Link>, sources: map<string, seq<ObjId>>,
                 ghost rank: map<string, nat>, name: string) returns (obs: seq<ObjId>)
    requires Evaluable(links, rank, name)
    ensures obs == Pulled(nodes, links, sources, rank, name)
    decreases rank[name]
  {
    if name in sources {
      return sources[name];
    }
    var inputs := InputsOf(nodes, name);
    obs := [];
    for i := 0 to |inputs|
      invariant obs == DedupConcat(PulledInputs(nodes, links, sources, rank, name, inputs, i))
    {
      PulledInputsStep(nodes, links, sources, rank, name, inputs, i);
      var link := FirstLinkInto(links, name, inputs[i].identifier);
      if link.Some? {
        UpstreamRanked(links, rank, name, inputs[i]);
        var upstreamData := Execute(nodes, links, sources, rank, link.value.fromNode);
        obs := AppendUnseenObjects(obs, upstreamData);
      }
    }
  }

  /** `WFNode.get_input_data`, as the source runs it: the same loop, extending without a check. */
  method GetInputData(nodes: seq<Node>, links: seq<Link>, sources: map<string, seq<ObjId>>,
                      ghost rank: map<string, nat>, name: string) returns (obs: seq<ObjId>)
    requires Evaluable(links, rank, name)
    ensures obs == InputData(nodes, links, sources, rank, name)
    decreases rank[name]
  {
    if name in sources {
      return sources[name];
    }
    var inputs := InputsOf(nodes, name);
    obs := [];
    for i := 0 to |inputs|
      invariant obs == Concat(InputDataInputs(nodes, links, sources, rank, name, inputs, i))
    {
      InputDataInputsStep(nodes, links, sources, rank, name, inputs, i);
      var link := FirstLinkInto(links, name, inputs[i].identifier);
      if link.Some? {
        UpstreamRanked(links, rank, name, inputs[i]);
        var upstreamData := GetInputData(nodes, links, sources, rank, link.value.fromNode);
        obs := obs + upstreamData;
      }
    }
  }

  // ---------------------------------------------------------------------------------------------
  // Properties of the evaluator

  /** If every given list is duplicate-free, so is every `execute()` result. */
  lemma {:induction false} PulledNoDups(nodes: seq<Node>, links: seq<Link>, sources: map<string, seq<ObjId>>,
                                        rank: map<string, nat>, name: string)
    requires Evaluable(links, rank, name)
    requires forall n | n in sources :: NoDups(sources[n])
    ensures NoDups(Pulled(nodes, links, sources, rank, name))
    decreases rank[name], 1, 0
  {
    if name !in sources {
      var inputs := InputsOf(nodes, name);
      PulledInputsNoDups(nodes, links, sources, rank, name, inputs, |inputs|);
      DedupConcatNoDups(PulledInputs(nodes, links, sources, rank, name, inputs, |inputs|));
    }
  }

  lemma {:induction false} PulledInputsNoDups(nodes: seq<Node>, links: seq<Link>, sources: map<string, seq<ObjId>>,
                                              rank: map<string, nat>, name: string, inputs: seq<Socket>, k: nat)
    requires Evaluable(links, rank, name) && k <= |inputs|
    requires forall n | n in sources :: NoDups(sources[n])
    ensures forall j | 0 <= j < |PulledInputs(nodes, links, sources, rank, name, inputs, k)| ::
              NoDups(PulledInputs(nodes, links, sources, rank, name, inputs, k)[j])
    decreases rank[name], 0, k
  {
    if k > 0 {
      PulledInputsNoDups(nodes, links, sources, rank, name, inputs, k - 1);
      match Upstream(links, name, inputs[k - 1])
      case None =>
      case Some(up) =>
        UpstreamRanked(links, rank, name, inputs[k - 1]);
        PulledNoDups(nodes, links, sources, rank, up);
    }
  }

  /** The upstream nodes of the linked sockets among the first `k` inputs of node `name`, in
      socket order: `in_socket.links[0].from_socket.node` for each `in_socket.is_linked`. */
  function Feeders(links: seq<Link>, name: string, inputs: seq<Socket>, k: nat): (r: seq<string>)
    requires k <= |inputs|
    ensures |r| <= k
  {
    if k == 0 then []
    else
      Feeders(links, name, inputs, k - 1) +
      match Upstream(links, name, inputs[k - 1])
      case None => []
      case Some(up) => [up]
  }

  /** Every feeder ranks below the node it feeds. */
  lemma {:induction false} FeedersRanked(links: seq<Link>, rank: map<string, nat>, name: string, inputs: seq<Socket>, k: nat)
    requires Evaluable(links, rank, name) && k <= |inputs|
    ensures forall i | 0 <= i < |Feeders(links, name, inputs, k)| ::
              Evaluable(links, rank, Feeders(links, name, inputs, k)[i]) && rank[Feeders(links, name, inputs, k)[i]] < rank[name]
  {
    if k > 0 {
      FeedersRanked(links, rank, name, inputs, k - 1);
      if Upstream(links, name, inputs[k - 1]).Some? {
        UpstreamRanked(links, rank, name, inputs[k - 1]);
      }
    }
  }

  /** The results the loop of `execute()` combines are exactly the feeders' own results, one per
      linked socket, in socket order. */
  lemma {:induction false} PulledInputsAreFeederResults(nodes: seq<Node>, links: seq<Link>, sources: map<string, seq<ObjId>>,
                                                        rank: map<string, nat>, name: string, inputs: seq<Socket>, k: nat)
    requires Evaluable(links, rank, name) && k <= |inputs|
    ensures (FeedersRanked(links, rank, name, inputs, k);
             var fs := Feeders(links, name, inputs, k);
             var ss := PulledInputs(nodes, links, sources, rank, name, inputs, k);
             |ss| == |fs| && forall i | 0 <= i < |ss| :: ss[i] == Pulled(nodes, links, sources, rank, fs[i]))
  {
    FeedersRanked(links, rank, name, inputs, k);
    if k > 0 {
      PulledInputsAreFeederResults(nodes, links, sources, rank, name, inputs, k - 1);
      FeedersRanked(links, rank, name, inputs, k - 1);
      var prev := PulledInputs(nodes, links, sources, rank, name, inputs, k - 1);
      var fprev := Feeders(links, name, inputs, k - 1);
      match Upstream(links, name, inputs[k - 1])
      case None =>
        assert Feeders(links, name, inputs, k) == fprev;
      case Some(up) =>
        UpstreamRanked(links, rank, name, inputs[k - 1]);
        assert PulledInputs(nodes, links, sources, rank, name, inputs, k) == prev + [Pulled(nodes, links, sources, rank, up)];
        assert Feeders(links, name, inputs, k) == fprev + [up];
    }
  }

  /** The feeders are exactly the upstream nodes of the linked sockets: an unlinked socket
      contributes nothing, a linked one the node at the far end of its first link. */
  lemma FeedersMember(links: seq<Link>, name: string, inputs: seq<Socket>, k: nat, n: string)
    requires k <= |inputs|
    ensures n in Feeders(links, name, inputs, k) <==> exists j | 0 <= j < k :: FeedsAt(links, name, inputs, j, n)
  {
    if n in Feeders(links, name, inputs, k) {
      FeedersSound(links, name, inputs, k, n);
    }
    if j :| 0 <= j < k && FeedsAt(links, name, inputs, j, n) {
      FeedersComplete(links, name, inputs, k, j, n);
    }
  }

  lemma {:induction false} FeedersSound(links: seq<Link>, name: string, inputs: seq<Socket>, k: nat, n: string)
    requires k <= |inputs| && n in Feeders(links, name, inputs, k)
    ensures exists j | 0 <= j < k :: FeedsAt(links, name, inputs, j, n)
  {
    var fprev := Feeders(links, name, inputs, k - 1);
    var last := Upstream(links, name, inputs[k - 1]);
    assert Feeders(links, name, inputs, k) == fprev + (if last.Some? then [last.value] else []);
    if n in fprev {
      FeedersSound(links, name, inputs, k - 1, n);
      var j :| 0 <= j < k - 1 && FeedsAt(links, name, inputs, j, n);
      assert 0 <= j < k;
    } else {
      assert FeedsAt(links, name, inputs, k - 1, n);
    }
  }

  lemma {:induction false} FeedersComplete(links: seq<Link>, name: string, inputs: seq<Socket>, k: nat, j: nat, n: string)
    requires j < k <= |inputs| && FeedsAt(links, name, inputs, j, n)
    ensures n in Feeders(links, name, inputs, k)
  {
    var fprev := Feeders(links, name, inputs, k - 1);
    var last := Upstream(links, name, inputs[k - 1]);
    var fs := Feeders(links, name, inputs, k);
    assert fs == fprev + (if last.Some? then [last.value] else []);
    if j < k - 1 {
      FeedersComplete(links, name, inputs, k - 1, j, n);
      var i :| 0 <= i < |fprev| && fprev[i] == n;
      assert fs[i] == n;
    } else {
      assert fs[|fs| - 1] == n;
    }
  }

  /** Input `j` of node `name` is linked and the far end of its first link is node `n`. */
  predicate FeedsAt(links: seq<Link>, name: string, inputs: seq<Socket>, j: int, n: string) {
    0 <= j < |inputs| && Upstream(links, name, inputs[j]) == Some(n)
  }

  /** `execute()` of a node that is not a source holds exactly the objects of its feeders'
      results: nothing else, and nothing of them is lost. */
  lemma {:induction false} PulledMember(nodes: seq<Node>, links: seq<Link>, sources: map<string, seq<ObjId>>,
                                        rank: map<string, nat>, name: string, x: ObjId)
    requires Evaluable(links, rank, name) && name !in sources
    ensures var inputs := InputsOf(nodes, name);
            (FeedersRanked(links, rank, name, inputs, |inputs|);
             var fs := Feeders(links, name, inputs, |inputs|);
             x in Pulled(nodes, links, sources, rank, name) <==>
             exists i | 0 <= i < |fs| :: x in Pulled(nodes, links, sources, rank, fs[i]))
  {
    var inputs := InputsOf(nodes, name);
    var ss := PulledInputs(nodes, links, sources, rank, name, inputs, |inputs|);
    DedupConcatMember(ss, x);
    PulledInputsAreFeederResults(nodes, links, sources, rank, name, inputs, |inputs|);
  }

  /** The first `k` inputs' results come first in `execute()`, in the order they were collected,
      and no object placed after them occurs in any of them: first occurrences are kept and no
      object is appended twice. */
  lemma {:induction false} PulledKeepsSocketOrder(nodes: seq<Node>, links: seq<Link>, sources: map<string, seq<ObjId>>,
                                                  rank: map<string, nat>, name: string, k: nat)
    requires Evaluable(links, rank, name) && name !in sources
    requires k <= |InputsOf(nodes, name)|
    ensures var inputs := InputsOf(nodes, name);
            var early := PulledInputs(nodes, links, sources, rank, name, inputs, k);
            var all := Pulled(nodes, links, sources, rank, name);
            && DedupConcat(early) <= all
            && forall p, i | |DedupConcat(early)| <= p < |all| && 0 <= i < |early| :: all[p] !in early[i]
  {
    var inputs := InputsOf(nodes, name);
    var n := |inputs|;
    var early := PulledInputs(nodes, links, sources, rank, name, inputs, k);
    var ss := PulledInputs(nodes, links, sources, rank, name, inputs, n);
    PulledInputsPrefix(nodes, links, sources, rank, name, inputs, k, n);
    assert ss[..|early|] == early;
    DedupConcatPrefix(ss, |early|);
  }

  lemma PulledInputsPrefix(nodes: seq<Node>, links: seq<Link>, sources: map<string, seq<ObjId>>,
                            rank: map<string, nat>, name: string, inputs: seq<Socket>, k: nat, n: nat)
    requires Evaluable(links, rank, name) && k <= n <= |inputs|
    ensures var early := PulledInputs(nodes, links, sources, rank, name, inputs, k);
            var all := PulledInputs(nodes, links, sources, rank, name, inputs, n);
            early <= all
  {
    var f := (j: nat) => if j <= |inputs| && Evaluable(links, rank, name) then PulledInputs(nodes, links, sources, rank, name, inputs, j) else [];
    forall j | k <= j < n
      ensures f(j) <= f(j + 1)
    {
      PulledInputsGrow(nodes, links, sources, rank, name, inputs, j);
    }
    ChainPrefix(f, k, n);
  }

  /** Looking at one more input only ever appends. */
  lemma PulledInputsGrow(nodes: seq<Node>, links: seq<Link>, sources: map<string, seq<ObjId>>,
                         rank: map<string, nat>, name: string, inputs: seq<Socket>, k: nat)
    requires Evaluable(links, rank, name) && k < |inputs|
    ensures PulledInputs(nodes, links, sources, rank, name, inputs, k) <= PulledInputs(nodes, links, sources, rank, name, inputs, k + 1)
  {
  }

  /** A node that is not a source and has no linked input yields `[]` from both entry points. */
  lemma {:induction false} UnlinkedNodeYieldsNothing(nodes: seq<Node>, links: seq<Link>, sources: map<string, seq<ObjId>>,
                                                     rank: map<string, nat>, name: string)
    requires Evaluable(links, rank, name) && name !in sources
    requires var inputs := InputsOf(nodes, name);
             forall j | 0 <= j < |inputs| :: Upstream(links, name, inputs[j]).None?
    ensures Pulled(nodes, links, sources, rank, name) == []
    ensures InputData(nodes, links, sources, rank, name) == []
  {
    var inputs := InputsOf(nodes, name);
    NoLinkedInputs(nodes, links, sources, rank, name, inputs, |inputs|);
  }

  lemma {:induction false} NoLinkedInputs(nodes: seq<Node>, links: seq<Link>, sources: map<string, seq<ObjId>>,
                                          rank: map<string, nat>, name: string, inputs: seq<Socket>, k: nat)
    requires Evaluable(links, rank, name) && k <= |inputs|
    requires forall j | 0 <= j < k :: Upstream(links, name, inputs[j]).None?
    ensures PulledInputs(nodes, links, sources, rank, name, inputs, k) == []
    ensures InputDataInputs(nodes, links, sources, rank, name, inputs, k) == []
  {
    if k > 0 {
      NoLinkedInputs(nodes, links, sources, rank, name, inputs, k - 1);
    }
  }

  /** `execute()` and `get_input_data()` reach the same objects: they differ only in how often an
      object is listed. */
  lemma {:induction false} SameObjects(nodes: seq<Node>, links: seq<Link>, sources: map<string, seq<ObjId>>,
                                       rank: map<string, nat>, name: string, x: ObjId)
    requires Evaluable(links, rank, name)
    ensures x in Pulled(nodes, links, sources, rank, name) <==> x in InputData(nodes, links, sources, rank, name)
    decreases rank[name], 1, 0
  {
    if name !in sources {
      var inputs := InputsOf(nodes, name);
      var ss := PulledInputs(nodes, links, sources, rank, name, inputs, |inputs|);
      var ts := InputDataInputs(nodes, links, sources, rank, name, inputs, |inputs|);
      SameObjectsInputs(nodes, links, sources, rank, name, inputs, |inputs|, x);
      DedupConcatMember(ss, x);
      ConcatMember(ts, x);
    }
  }

  lemma {:induction false} SameObjectsInputs(nodes: seq<Node>, links: seq<Link>, sources: map<string, seq<ObjId>>,
                                             rank: map<string, nat>, name: string, inputs: seq<Socket>, k: nat, x: ObjId)
    requires Evaluable(links, rank, name) && k <= |inputs|
    ensures var ss := PulledInputs(nodes, links, sources, rank, name, inputs, k);
            var ts := InputDataInputs(nodes, links, sources, rank, name, inputs, k);
            |ss| == |ts| && forall i | 0 <= i < |ss| :: (x in ss[i] <==> x in ts[i])
    decreases rank[name], 0, k
  {
    if k > 0 {
      SameObjectsInputs(nodes, links, sources, rank, name, inputs, k - 1, x);
      match Upstream(links, name, inputs[k - 1])
      case None =>
      case Some(up) =>
        UpstreamRanked(links, rank, name, inputs[k - 1]);
        SameObjects(nodes, links, sources, rank, up, x);
    }
  }

  /** `get_input_data()` keeps every object of every upstream result: its length is the sum of
      their lengths, while `execute()` is never longer. */
  lemma {:induction false} InputDataKeepsDuplicates(nodes: seq<Node>, links: seq<Link>, sources: map<string, seq<ObjId>>,
                                                    rank: map<string, nat>, name: string)
    requires Evaluable(links, rank, name) && name !in sources
    ensures var inputs := InputsOf(nodes, name);
            var ts := InputDataInputs(nodes, links, sources, rank, name, inputs, |inputs|);
            |InputData(nodes, links, sources, rank, name)| == TotalLength(ts)
  {
    var inputs := InputsOf(nodes, name);
    ConcatLength(InputDataInputs(nodes, links, sources, rank, name, inputs, |inputs|));
  }

  // ---------------------------------------------------------------------------------------------
  // init and property-update callbacks

  /** `WFNode.init`. */
  method NodeInit(t: NodeTree, i: nat)
    requires i < |t.nodes|
    modifies t
    ensures t.nodes == old(t.nodes)[i := old(t.nodes)[i].(useCustomColor := true)]
    ensures t.links == old(t.links)
  {
    t.nodes := t.nodes[i := t.nodes[i].(useCustomColor := true)];
  }

  /** `WFActionNode.init`: one "in" objects input and one "out" objects output are appended. */
  method ActionNodeInit(t: NodeTree, i: nat)
    requires i < |t.nodes|
    modifies t
    ensures var n := old(t.nodes)[i];
            t.nodes == old(t.nodes)[i := n.(useCustomColor := true,
                                            inputs := n.inputs + [NewSocket(OBJECTS_SOCKET, "in")],
                                            outputs := n.outputs + [NewSocket(OBJECTS_SOCKET, "out")])]
    ensures t.links == old(t.links)
  {
    NodeInit(t, i);
    t.nodes := t.nodes[i := t.nodes[i].(inputs := t.nodes[i].inputs + [NewSocket(OBJECTS_SOCKET, "in")])];
    t.nodes := t.nodes[i := t.nodes[i].(outputs := t.nodes[i].outputs + [NewSocket(OBJECTS_SOCKET, "out")])];
  }

  /** `WFFilterNode.init`: the action node's sockets and the filter colour. */
  method FilterNodeInit(t: NodeTree, i: nat)
    requires i < |t.nodes|
    modifies t
    ensures var n := old(t.nodes)[i];
            t.nodes == old(t.nodes)[i := n.(useCustomColor := true, color := FilterColor,
                                            inputs := n.inputs + [NewSocket(OBJECTS_SOCKET, "in")],
                                            outputs := n.outputs + [NewSocket(OBJECTS_SOCKET, "out")])]
    ensures t.links == old(t.links)
  {
    ActionNodeInit(t, i);
    t.nodes := t.nodes[i := t.nodes[i].(color := FilterColor)];
  }

  /** `WFInputNode.init` and `WFOutputNode.init`: the IO colour, no sockets. */
  method IoNodeInit(t: NodeTree, i: nat)
    requires i < |t.nodes|
    modifies t
    ensures t.nodes == old(t.nodes)[i := old(t.nodes)[i].(useCustomColor := true, color := IoColor)]
    ensures t.links == old(t.links)
  {
    NodeInit(t, i);
    t.nodes := t.nodes[i := t.nodes[i].(color := IoColor)];
  }

  /** `WFExportNode.init`: the IO colour and one "in" objects input. */
  method ExportNodeInit(t: NodeTree, i: nat)
    requires i < |t.nodes|
    modifies t
    ensures var n := old(t.nodes)[i];
            t.nodes == old(t.nodes)[i := n.(useCustomColor := true, color := IoColor,
                                            inputs := n.inputs + [NewSocket(OBJECTS_SOCKET, "in")])]
    ensures t.links == old(t.links)
  {
    IoNodeInit(t, i);
    t.nodes := t.nodes[i := t.nodes[i].(inputs := t.nodes[i].inputs + [NewSocket(OBJECTS_SOCKET, "in")])];
  }

  /** `filepath_update`: the IO colour when a file path is set, the error colour otherwise. */
  method FilepathUpdate(t: NodeTree, i: nat)
    requires i < |t.nodes|
    modifies t
    ensures var n := old(t.nodes)[i];
            t.nodes == old(t.nodes)[i := n.(color := if n.filepath != "" then IoColor else ErrorColor)]
    ensures t.links == old(t.links)
  {
    if t.nodes[i].filepath != "" {
      t.nodes := t.nodes[i := t.nodes[i].(color := IoColor)];
    } else {
      t.nodes := t.nodes[i := t.nodes[i].(color := ErrorColor)];
    }
  }
}
