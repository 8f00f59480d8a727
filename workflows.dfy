/** The workflow node tree: marking and repairing links whose socket types disagree
    (`WFNodeTree.mark_invalid_links`, `WFNodeTree.update`), and running every output node of the
    tree (`RunAllWorkflowsOperator.poll` and `execute`). */
module Workflows {
  import opened Wrappers
  import opened Seqs
  import opened Graph

  /** The socket type (`type(socket)`, named by its `bl_idname`) of output `socket` of node
      `node`, or "" when there is no such socket. */
  function OutputType(nodes: seq<Node>, node: string, socket: string): string {
    match NodeIndex(nodes, node)
    case None => ""
    case Some(i) =>
      match SocketIndex(nodes[i].outputs, socket)
      case None => ""
      case Some(k) => nodes[i].outputs[k].idname
  }

  /** The socket type of input `socket` of node `node`, or "" when there is no such socket. */
  function InputType(nodes: seq<Node>, node: string, socket: string): string {
    match NodeIndex(nodes, node)
    case None => ""
    case Some(i) =>
      match SocketIndex(nodes[i].inputs, socket)
      case None => ""
      case Some(k) => nodes[i].inputs[k].idname
  }

  /** `type(link.from_socket) is not type(link.to_socket)`. */
  predicate TypesDiffer(nodes: seq<Node>, l: Link) {
    OutputType(nodes, l.fromNode, l.fromSocket) != InputType(nodes, l.toNode, l.toSocket)
  }

  // ---------------------------------------------------------------------------------------------
  // mark_invalid_links

  /** The links after `mark_invalid_links`: a link whose socket types differ is marked invalid, every
      other link keeps its flag, and nothing but the flag changes. */
  function Marked(nodes: seq<Node>, links: seq<Link>): (r: seq<Link>)
    ensures |r| == |links|
    ensures forall k | 0 <= k < |links| :: r[k] == links[k].(valid := r[k].valid)
    ensures forall k | 0 <= k < |links| :: r[k].valid <==> links[k].valid && !TypesDiffer(nodes, links[k])
  {
    seq(|links|, k requires 0 <= k < |links| => if TypesDiffer(nodes, links[k]) then links[k].(valid := false) else links[k])
  }

  /** Marking never makes a link valid, and marking twice is marking once. */
  lemma MarkedIdempotent(nodes: seq<Node>, links: seq<Link>)
    ensures forall k | 0 <= k < |links| :: Marked(nodes, links)[k].valid ==> links[k].valid
    ensures Marked(nodes, Marked(nodes, links)) == Marked(nodes, links)
  {
    var once := Marked(nodes, links);
    forall k | 0 <= k < |links|
      ensures Marked(nodes, once)[k] == once[k]
    {
      assert once[k].fromNode == links[k].fromNode && once[k].toNode == links[k].toNode;
      assert once[k].fromSocket == links[k].fromSocket && once[k].toSocket == links[k].toSocket;
    }
  }

  /** `WFNodeTree.mark_invalid_links`. */
  method MarkInvalidLinks(t: NodeTree)
    modifies t
    ensures t.links == Marked(old(t.nodes), old(t.links)) && t.nodes == old(t.nodes)
  {
    for k := 0 to |t.links|
      invariant t.nodes == old(t.nodes) && |t.links| == |old(t.links)|
      invariant forall j | 0 <= j < |t.links| :: t.links[j] == if j < k then Marked(t.nodes, old(t.links))[j] else old(t.links)[j]
    {
      if TypesDiffer(t.nodes, t.links[k]) {
        t.links := t.links[k := t.links[k].(valid := false)];
      }
    }
  }

  // ---------------------------------------------------------------------------------------------
  // update: reroute repair

  predicate IsReroute(nodes: seq<Node>, name: string) {
    NodeIndex(nodes, name).Some? && nodes[NodeIndex(nodes, name).value].idname == REROUTE
  }

  /** `links.remove(link)`. */
  function WithoutLink(links: seq<Link>, l: Link): (r: seq<Link>)
    ensures l !in r && forall x | x in r :: x in links
  {
    Filter((x: Link) => x != l, links)
  }

  /** The links left when the host clears the outputs (`fromSide`) or the inputs of node `name`. */
  function LinksAfterClear(links: seq<Link>, name: string, fromSide: bool): (r: seq<Link>)
    ensures forall x | x in r :: x in links && (if fromSide then x.fromNode != name else x.toNode != name)
  {
    Filter((x: Link) => if fromSide then x.fromNode != name else x.toNode != name, links)
  }

  /** One pass of the loop of `update` on link `l`. A link no longer in the tree (a reroute
      repair removed it) is skipped. A reroute at either end is given one socket of the other end's
      type and relinked; when the host refuses to edit a reroute's sockets (`rerouteEditable`
      false), the first step raises, the exception is swallowed and nothing changes. A mismatched
      link between two other nodes is removed. */
  function RepairStep(nodes: seq<Node>, links: seq<Link>, l: Link, rerouteEditable: bool): (seq<Node>, seq<Link>) {
    if l !in links || !TypesDiffer(nodes, l) then (nodes, links)
    else if IsReroute(nodes, l.fromNode) then
      if !rerouteEditable then (nodes, links)
      else
        var i := NodeIndex(nodes, l.fromNode).value;
        var output := NewSocket(InputType(nodes, l.toNode, l.toSocket), "Output");
        (nodes[i := nodes[i].(outputs := [output])],
         LinksAfterClear(links, l.fromNode, true) + [Link(l.fromNode, output.identifier, l.toNode, l.toSocket, true)])
    else if IsReroute(nodes, l.toNode) then
      if !rerouteEditable then (nodes, links)
      else
        var i := NodeIndex(nodes, l.toNode).value;
        var input := NewSocket(OutputType(nodes, l.fromNode, l.fromSocket), "Input");
        (nodes[i := nodes[i].(inputs := [input])],
         LinksAfterClear(links, l.toNode, false) + [Link(l.fromNode, l.fromSocket, l.toNode, input.identifier, true)])
    else (nodes, WithoutLink(links, l))
  }

  /** The tree after `update` has visited the first `k` links of `snapshot`, the links the tree
      had when `update` started. */
  function Repaired(nodes: seq<Node>, links: seq<Link>, snapshot: seq<Link>, k: nat, rerouteEditable: bool): (seq<Node>, seq<Link>)
    requires k <= |snapshot|
  {
    if k == 0 then (nodes, links)
    else
      var prev := Repaired(nodes, links, snapshot, k - 1, rerouteEditable);
      RepairStep(prev.0, prev.1, snapshot[k - 1], rerouteEditable)
  }

  /** `WFNodeTree.update`. */
  method Update(t: NodeTree, rerouteEditable: bool)
    modifies t
    ensures (t.nodes, t.links) == Repaired(old(t.nodes), old(t.links), old(t.links), |old(t.links)|, rerouteEditable)
  {
    var snapshot := t.links;
    for k := 0 to |snapshot|
      invariant (t.nodes, t.links) == Repaired(old(t.nodes), old(t.links), snapshot, k, rerouteEditable)
    {
      var link := snapshot[k];
      if link in t.links && TypesDiffer(t.nodes, link) {
        if IsReroute(t.nodes, link.fromNode) {
          if rerouteEditable {
            var i := NodeIndex(t.nodes, link.fromNode).value;
            var output := NewSocket(InputType(t.nodes, link.toNode, link.toSocket), "Output");
            t.links := LinksAfterClear(t.links, link.fromNode, true);
            t.nodes := t.nodes[i := t.nodes[i].(outputs := [output])];
            t.links := t.links + [Link(link.fromNode, output.identifier, link.toNode, link.toSocket, true)];
          }
        } else if IsReroute(t.nodes, link.toNode) {
          if rerouteEditable {
            var i := NodeIndex(t.nodes, link.toNode).value;
            var input := NewSocket(OutputType(t.nodes, link.fromNode, link.fromSocket), "Input");
            t.links := LinksAfterClear(t.links, link.toNode, false);
            t.nodes := t.nodes[i := t.nodes[i].(inputs := [input])];
            t.links := t.links + [Link(link.fromNode, link.fromSocket, link.toNode, input.identifier, true)];
          }
        } else {
          t.links := WithoutLink(t.links, link);
        }
      }
    }
  }

  /** A link whose socket types agree is left alone. */
  lemma MatchingLinkUntouched(nodes: seq<Node>, links: seq<Link>, l: Link, rerouteEditable: bool)
    requires !TypesDiffer(nodes, l)
    ensures RepairStep(nodes, links, l, rerouteEditable) == (nodes, links)
  {
  }

  /** A mismatched link between two nodes that are not reroutes is removed, and nothing else changes. */
  lemma MismatchedLinkRemoved(nodes: seq<Node>, links: seq<Link>, l: Link, rerouteEditable: bool)
    requires l in links && TypesDiffer(nodes, l)
    requires !IsReroute(nodes, l.fromNode) && !IsReroute(nodes, l.toNode)
    ensures var (nodes', links') := RepairStep(nodes, links, l, rerouteEditable);
            nodes' == nodes && l !in links' && forall x | x in links && x != l :: x in links'
  {
  }

  /** Repair through a reroute on the from side: the reroute keeps a single "Output" socket of the
      to-socket's type, its old links are gone, and the new link from it has matching types. */
  lemma FromRerouteRepaired(nodes: seq<Node>, links: seq<Link>, l: Link)
    requires UniqueNames(nodes) && l in links && TypesDiffer(nodes, l)
    requires IsReroute(nodes, l.fromNode) && l.fromNode != l.toNode
    ensures var (nodes', links') := RepairStep(nodes, links, l, true);
            var i := NodeIndex(nodes, l.fromNode).value;
            && nodes'[i].outputs == [NewSocket(InputType(nodes, l.toNode, l.toSocket), "Output")]
            && links'[|links'| - 1] == Link(l.fromNode, "Output", l.toNode, l.toSocket, true)
            && !TypesDiffer(nodes', links'[|links'| - 1])
            && forall k | 0 <= k < |links'| - 1 :: links'[k] in links && links'[k].fromNode != l.fromNode
  {
    var i := NodeIndex(nodes, l.fromNode).value;
    var (nodes', links') := RepairStep(nodes, links, l, true);
    SameNamesSameIndex(nodes, nodes', l.fromNode);
    SameNamesSameIndex(nodes, nodes', l.toNode);
  }

  /** Repair through a reroute on the to side: the reroute keeps a single "Input" socket of the
      from-socket's type, its old links are gone, and the new link into it has matching types. */
  lemma ToRerouteRepaired(nodes: seq<Node>, links: seq<Link>, l: Link)
    requires UniqueNames(nodes) && l in links && TypesDiffer(nodes, l)
    requires !IsReroute(nodes, l.fromNode) && IsReroute(nodes, l.toNode) && l.fromNode != l.toNode
    ensures var (nodes', links') := RepairStep(nodes, links, l, true);
            var i := NodeIndex(nodes, l.toNode).value;
            && nodes'[i].inputs == [NewSocket(OutputType(nodes, l.fromNode, l.fromSocket), "Input")]
            && links'[|links'| - 1] == Link(l.fromNode, l.fromSocket, l.toNode, "Input", true)
            && !TypesDiffer(nodes', links'[|links'| - 1])
            && forall k | 0 <= k < |links'| - 1 :: links'[k] in links && links'[k].toNode != l.toNode
  {
    var i := NodeIndex(nodes, l.toNode).value;
    var (nodes', links') := RepairStep(nodes, links, l, true);
    SameNamesSameIndex(nodes, nodes', l.fromNode);
    SameNamesSameIndex(nodes, nodes', l.toNode);
  }

  /** When the host refuses to edit a reroute's sockets the exception is swallowed: the step
      changes nothing and `update` goes on with the next link. */
  lemma RefusedRepairChangesNothing(nodes: seq<Node>, links: seq<Link>, l: Link)
    requires IsReroute(nodes, l.fromNode) || IsReroute(nodes, l.toNode)
    ensures RepairStep(nodes, links, l, false) == (nodes, links)
  {
  }

  /** `after` differs from `before` only in reroute nodes, which keep their names and type. */
  predicate OnlyReroutesChanged(before: seq<Node>, after: seq<Node>) {
    && |after| == |before|
    && forall i | 0 <= i < |before| ::
         after[i].name == before[i].name && after[i].idname == before[i].idname &&
         (before[i].idname != REROUTE ==> after[i] == before[i])
  }

  lemma RepairStepChangesOnlyReroutes(nodes: seq<Node>, links: seq<Link>, l: Link, rerouteEditable: bool)
    ensures OnlyReroutesChanged(nodes, RepairStep(nodes, links, l, rerouteEditable).0)
  {
  }

  /** Only reroute nodes change: every node keeps its name and type, and every other node stays
      as it was, however many links `update` visits. */
  lemma {:induction false} RepairedChangesOnlyReroutes(nodes: seq<Node>, links: seq<Link>, snapshot: seq<Link>, k: nat, rerouteEditable: bool)
    requires k <= |snapshot|
    ensures OnlyReroutesChanged(nodes, Repaired(nodes, links, snapshot, k, rerouteEditable).0)
  {
    if k > 0 {
      RepairedChangesOnlyReroutes(nodes, links, snapshot, k - 1, rerouteEditable);
      var prev := Repaired(nodes, links, snapshot, k - 1, rerouteEditable);
      RepairStepChangesOnlyReroutes(prev.0, prev.1, snapshot[k - 1], rerouteEditable);
    }
  }

  /** Nodes with the same names in the same order are found at the same index. */
  lemma SameNamesSameIndex(a: seq<Node>, b: seq<Node>, name: string)
    requires |a| == |b| && forall i | 0 <= i < |a| :: a[i].name == b[i].name
    ensures NodeIndex(a, name) == NodeIndex(b, name)
  {
    match NodeIndex(a, name)
    case None =>
    case Some(i) =>
      assert b[i].name == name;
  }

  // ---------------------------------------------------------------------------------------------
  // RunAllWorkflowsOperator

  /** `INPUT_NODES`. */
  const INPUT_NODES: seq<string> := ["WFNodeSceneInput", "WFNodeObjectInput", "WFNodeCollectionInput"]

  /** `RunAllWorkflowsOperator.poll`: a scan that stops at the first input node. */
  method Poll(nodes: seq<Node>) returns (r: bool)
    ensures r <==> exists i | 0 <= i < |nodes| :: nodes[i].idname in INPUT_NODES
  {
    for i := 0 to |nodes|
      invariant forall j | 0 <= j < i :: nodes[j].idname !in INPUT_NODES
    {
      if nodes[i].idname in INPUT_NODES {
        return true;
      }
    }
    return false;
  }

  /** What the operator asks of the host, in order. */
  datatype Event = Executed(node: string) | UndoPush(message: string) | Undo

  const OUTPUT_NODE_CLASS: string := "WFOutputNode"
  const UNDO_MESSAGE: string := "Workflow executed"

  /** The names of the tree's output nodes, in tree order. */
  function OutputNodes(nodes: seq<Node>): (r: seq<string>)
    ensures forall x :: x in r <==> exists i | 0 <= i < |nodes| :: nodes[i].name == x && OUTPUT_NODE_CLASS in nodes[i].classes
  {
    if |nodes| == 0 then []
    else
      var last := nodes[|nodes| - 1];
      var r := OutputNodes(nodes[..|nodes| - 1]) + if OUTPUT_NODE_CLASS in last.classes then [last.name] else [];
      assert forall i | 0 <= i < |nodes| - 1 :: nodes[..|nodes| - 1][i] == nodes[i];
      r
  }

  /** The output nodes whose `execute` is started: all of them, up to and including the first that
      raises. */
  function Attempted(outs: seq<string>, raises: set<string>): (r: seq<string>)
    ensures r <= outs
    ensures forall k | 0 <= k < |r| - 1 :: r[k] !in raises
    ensures r == outs || (|r| > 0 && r[|r| - 1] in raises)
  {
    if |outs| == 0 then []
    else if outs[0] in raises then [outs[0]]
    else [outs[0]] + Attempted(outs[1..], raises)
  }

  function ExecutedEvents(names: seq<string>): (r: seq<Event>)
    ensures |r| == |names| && forall k | 0 <= k < |names| :: r[k] == Executed(names[k])
  {
    if |names| == 0 then [] else [Executed(names[0])] + ExecutedEvents(names[1..])
  }

  /** `RunAllWorkflowsOperator.execute`: output nodes run in tree order (`raises` names those whose
      `execute` raises), the first exception stops the loop and cancels, and on both paths one
      undo push is followed by one undo. */
  method RunAllWorkflows(nodes: seq<Node>, raises: set<string>) returns (result: OperatorResult, trace: seq<Event>)
    ensures var outs := OutputNodes(nodes);
            && (result == Cancelled <==> exists k | 0 <= k < |outs| :: outs[k] in raises)
            && trace == ExecutedEvents(Attempted(outs, raises)) + [UndoPush(UNDO_MESSAGE), Undo]
  {
    var outs := OutputNodes(nodes);
    var executed: seq<string> := [];
    result := Finished;
    var k := 0;
    while k < |outs|
      invariant 0 <= k <= |outs| && executed == outs[..k]
      invariant forall j | 0 <= j < k :: outs[j] !in raises
    {
      executed := executed + [outs[k]];
      if outs[k] in raises {
        result := Cancelled;
        break;
      }
      k := k + 1;
    }
    AttemptedPrefix(outs, raises, k);
    if result == Cancelled {
      assert outs[k..][0] == outs[k];
      assert executed == Attempted(outs, raises);
    } else {
      assert outs[..k] == outs;
    }
    trace := ExecutedEvents(executed) + [UndoPush(UNDO_MESSAGE), Undo];
  }

  /** Past a prefix of output nodes that do not raise, `Attempted` goes on with the rest. */
  lemma {:induction false} AttemptedPrefix(outs: seq<string>, raises: set<string>, k: nat)
    requires k <= |outs| && forall j | 0 <= j < k :: outs[j] !in raises
    ensures Attempted(outs, raises) == outs[..k] + Attempted(outs[k..], raises)
  {
    if k > 0 {
      var from := outs[k - 1..];
      calc {
        Attempted(outs, raises);
        { AttemptedPrefix(outs, raises, k - 1); }
        outs[..k - 1] + Attempted(from, raises);
        { assert from[0] == outs[k - 1] && from[1..] == outs[k..]; }
        outs[..k - 1] + ([outs[k - 1]] + Attempted(outs[k..], raises));
        { AppendAssoc(outs[..k - 1], [outs[k - 1]], Attempted(outs[k..], raises));
          assert outs[..k - 1] + [outs[k - 1]] == outs[..k]; }
        outs[..k] + Attempted(outs[k..], raises);
      }
    }
  }

  /** The operator never leaves the undo stack unbalanced: the trace holds exactly one undo push
      and exactly one undo, as its last two events. */
  lemma OneUndoPushOneUndo(nodes: seq<Node>, raises: set<string>)
    ensures var trace := ExecutedEvents(Attempted(OutputNodes(nodes), raises)) + [UndoPush(UNDO_MESSAGE), Undo];
            && Count(trace, UndoPush(UNDO_MESSAGE)) == 1 && Count(trace, Undo) == 1
            && trace[|trace| - 2..] == [UndoPush(UNDO_MESSAGE), Undo]
  {
    var executed := ExecutedEvents(Attempted(OutputNodes(nodes), raises));
    NoUndoInExecuted(executed);
    var trace := executed + [UndoPush(UNDO_MESSAGE), Undo];
    assert trace[..|trace| - 1] == executed + [UndoPush(UNDO_MESSAGE)];
    assert (executed + [UndoPush(UNDO_MESSAGE)])[..|executed|] == executed;
  }

  lemma {:induction false} NoUndoInExecuted(events: seq<Event>)
    requires forall k | 0 <= k < |events| :: events[k].Executed?
    ensures Count(events, UndoPush(UNDO_MESSAGE)) == 0 && Count(events, Undo) == 0
  {
    if |events| > 0 {
      NoUndoInExecuted(events[..|events| - 1]);
    }
  }
}
