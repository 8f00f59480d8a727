/** The objects socket: the operators that add and remove a node's variable object inputs, the
    add/remove button each input socket shows, and the socket's colour, which warns when an input
    node feeds a node that already follows a transform. */
module ObjectsSocket {
  import opened Wrappers
  import opened Seqs
  import opened Graph
  import Utils
  import Strings

  const TRANSFORM_NODE: string := "WFTransformNode"
  const FUNCTION_NODE: string := "WFFunctionNode"
  const INPUT_NODE: string := "WFInputNode"

  /** The name of a socket the add operator creates, and its identifier when no input has it yet. */
  const ADDED_SOCKET_NAME: string := "in"

  /** The first host version whose sockets draw with `draw_color(self, context, node)`. */
  const NODE_AWARE_COLOR_SINCE: Utils.Version := Utils.Version(4, 0, 0)

  // ---------------------------------------------------------------------------------------------
  // AddObjectSocketOperator / RemoveObjectSocketOperator

  /** The node after `node.inputs.new("WFObjectsSocket", "in")`. */
  function WithSocketAdded(n: Node): Node {
    n.(inputs := n.inputs + [AddedSocket(n.inputs, OBJECTS_SOCKET, ADDED_SOCKET_NAME)])
  }

  /** The node after the remove operator: the last input goes only when there is more than one. */
  function WithLastSocketRemoved(n: Node): Node {
    if |n.inputs| > 1 then n.(inputs := n.inputs[..|n.inputs| - 1]) else n
  }

  /** Adding keeps every input where it was and appends one objects socket named "in", whose
      identifier no earlier input has (so links made to it are its own) and is "in" itself when
      that is free; inputs with distinct identifiers keep them distinct. */
  lemma SocketAdded(n: Node)
    ensures var r := WithSocketAdded(n);
            && r == n.(inputs := r.inputs)
            && |r.inputs| == |n.inputs| + 1
            && r.inputs[..|n.inputs|] == n.inputs
            && r.inputs[|n.inputs|].idname == OBJECTS_SOCKET
            && r.inputs[|n.inputs|].name == ADDED_SOCKET_NAME
            && r.inputs[|n.inputs|].identifier !in Identifiers(n.inputs)
            && (ADDED_SOCKET_NAME !in Identifiers(n.inputs) ==> r.inputs[|n.inputs|].identifier == ADDED_SOCKET_NAME)
            && (DistinctIdentifiers(n.inputs) ==> DistinctIdentifiers(r.inputs))
  {
    var r := WithSocketAdded(n);
    assert r.inputs[..|n.inputs|] == n.inputs;
  }

  /** Adding to a node whose input identifiers are `taken` gives the node the identifiers `taken`
      and then `id`, when `id` is the first free variant of "in". */
  lemma AddedIdentifier(n: Node, k: nat)
    requires ADDED_SOCKET_NAME in Identifiers(n.inputs) && k >= 1
    requires NumberedName(ADDED_SOCKET_NAME, k) !in Identifiers(n.inputs)
    requires forall j | 1 <= j < k :: NumberedName(ADDED_SOCKET_NAME, j) in Identifiers(n.inputs)
    ensures Identifiers(WithSocketAdded(n).inputs) == Identifiers(n.inputs) + [NumberedName(ADDED_SOCKET_NAME, k)]
  {
    UniqueIdentifierIsFirstFree(Identifiers(n.inputs), ADDED_SOCKET_NAME, k);
  }

  /** A node with one "in" input that gains two more has inputs "in", "in_001" and "in_002". */
  lemma AddedTwice(n: Node)
    requires n.inputs == [NewSocket(OBJECTS_SOCKET, ADDED_SOCKET_NAME)]
    ensures Identifiers(WithSocketAdded(WithSocketAdded(n)).inputs) == ["in", "in_001", "in_002"]
  {
    Strings.Padded3OneDigit(1);
    Strings.Padded3OneDigit(2);
    var first, second := NumberedName("in", 1), NumberedName("in", 2);
    assert first == "in_001" && second == "in_002";
    assert Identifiers(n.inputs) == ["in"];
    assert first !in ["in"] by { assert |first| != |"in"|; }
    AddedIdentifier(n, 1);
    var once := WithSocketAdded(n);
    var ids := Identifiers(once.inputs);
    assert ids == ["in", first];
    assert "in" in ids && first in ids;
    assert second !in ids by { assert |second| != |"in"| && second[5] != first[5]; }
    AddedIdentifier(once, 2);
    assert ids + [second] == ["in", "in_001", "in_002"];
  }

  /** Removing drops exactly the last input when there are at least two, leaves a node with one
      input or none alone, and so never takes a node with inputs below one. */
  lemma LastSocketRemoved(n: Node)
    ensures var r := WithLastSocketRemoved(n);
            && r == n.(inputs := r.inputs)
            && r.inputs <= n.inputs
            && |r.inputs| == (if |n.inputs| > 1 then |n.inputs| - 1 else |n.inputs|)
            && (|n.inputs| >= 1 ==> |r.inputs| >= 1)
            && (|n.inputs| > 1 ==> r == n.(inputs := n.inputs[..|n.inputs| - 1]))
            && (|n.inputs| <= 1 ==> r == n)
  {
  }

  /** Removing undoes adding on any node that has an input; a node with no input keeps the added
      one, since removal never takes the last input. */
  lemma RemoveUndoesAdd(n: Node)
    ensures |n.inputs| >= 1 ==> WithLastSocketRemoved(WithSocketAdded(n)) == n
    ensures |n.inputs| == 0 ==> WithLastSocketRemoved(WithSocketAdded(n)) == WithSocketAdded(n)
  {
    assert WithSocketAdded(n).inputs[..|n.inputs|] == n.inputs;
  }

  /** `AddObjectSocketOperator.execute` with `context.node` the node at index `i`. */
  method AddObjectSocket(t: NodeTree, i: nat) returns (r: OperatorResult)
    requires i < |t.nodes|
    modifies t
    ensures r == Finished
    ensures t.nodes == old(t.nodes)[i := WithSocketAdded(old(t.nodes)[i])]
    ensures t.links == old(t.links)
  {
    var node := t.nodes[i];
    t.nodes := t.nodes[i := node.(inputs := node.inputs + [AddedSocket(node.inputs, OBJECTS_SOCKET, ADDED_SOCKET_NAME)])];
    r := Finished;
  }

  /** `RemoveObjectSocketOperator.execute` with `context.node` the node at index `i`. */
  method RemoveObjectSocket(t: NodeTree, i: nat) returns (r: OperatorResult)
    requires i < |t.nodes|
    modifies t
    ensures r == Finished
    ensures t.nodes == old(t.nodes)[i := WithLastSocketRemoved(old(t.nodes)[i])]
    ensures t.links == old(t.links)
  {
    var node := t.nodes[i];
    if |node.inputs| > 1 {
      t.nodes := t.nodes[i := node.(inputs := node.inputs[..|node.inputs| - 1])];
    }
    r := Finished;
  }

  // ---------------------------------------------------------------------------------------------
  // has_prev_transforms

  /** `isinstance(n, cls)` for the node named `name`; a name not in the tree is no instance. */
  predicate IsA(nodes: seq<Node>, name: string, cls: string) {
    match NodeIndex(nodes, name)
    case None => false
    case Some(j) => cls in nodes[j].classes
  }

  /** The node's first input is a flow socket and some link into it starts at a transform node. */
  predicate HasPrevTransforms(nodes: seq<Node>, links: seq<Link>, n: Node) {
    && |n.inputs| > 0
    && n.inputs[0].idname == FLOW_SOCKET
    && exists k | 0 <= k < |links| ::
         && links[k].toNode == n.name
         && links[k].toSocket == n.inputs[0].identifier
         && IsA(nodes, links[k].fromNode, TRANSFORM_NODE)
  }

  /** `has_prev_transforms(node)` for the node at index `i`: a flag set while scanning the links
      of the first input. */
  method ComputeHasPrevTransforms(t: NodeTree, i: nat) returns (b: bool)
    requires i < |t.nodes|
    ensures b == HasPrevTransforms(t.nodes, t.links, t.nodes[i])
  {
    b := false;
    var n := t.nodes[i];
    if |n.inputs| > 0 && n.inputs[0].idname == FLOW_SOCKET {
      var ls := LinksInto(t.links, n.name, n.inputs[0].identifier);
      for k := 0 to |ls|
        invariant b <==> exists j | 0 <= j < k :: IsA(t.nodes, ls[j].fromNode, TRANSFORM_NODE)
      {
        if IsA(t.nodes, ls[k].fromNode, TRANSFORM_NODE) {
          b := true;
        }
      }
      if b {
        var j :| 0 <= j < |ls| && IsA(t.nodes, ls[j].fromNode, TRANSFORM_NODE);
        assert ls[j] in t.links;
      }
      if HasPrevTransforms(t.nodes, t.links, n) {
        var k :| 0 <= k < |t.links| && t.links[k].toNode == n.name && t.links[k].toSocket == n.inputs[0].identifier
                 && IsA(t.nodes, t.links[k].fromNode, TRANSFORM_NODE);
        assert t.links[k] in ls;
      }
    }
  }

  // ---------------------------------------------------------------------------------------------
  // WFObjectsSocket.draw and draw_color

  datatype Button = NoButton | AddButton | RemoveButton

  /** `start_index`: function nodes have no leading flow input, other nodes do. */
  function StartIndex(n: Node): nat {
    if FUNCTION_NODE in n.classes then 0 else 1
  }

  predicate IsGroupOrIo(n: Node) {
    n.idname in [GROUP_INPUT, GROUP_OUTPUT, GROUP_NODE]
  }

  /** The button `draw` puts beside the objects socket at position `k` of the node's inputs
      (`isOutput` false) or outputs (`isOutput` true). Both host-version branches draw alike. */
  function ButtonFor(n: Node, isOutput: bool, k: nat): (b: Button)
    ensures b == NoButton <==> isOutput || IsGroupOrIo(n)
    ensures b == AddButton <==> !isOutput && !IsGroupOrIo(n) && k == StartIndex(n) && k < |n.inputs|
  {
    if isOutput || n.idname in [GROUP_INPUT, GROUP_OUTPUT, GROUP_NODE] then NoButton
    else if |n.inputs| > StartIndex(n) && k == StartIndex(n) then AddButton
    else RemoveButton
  }

  /** On an ordinary node with enough inputs exactly one input shows the add button and every
      other input the remove button. */
  lemma OneAddButton(n: Node)
    requires !IsGroupOrIo(n) && |n.inputs| > StartIndex(n)
    ensures ButtonFor(n, false, StartIndex(n)) == AddButton
    ensures forall k | 0 <= k < |n.inputs| && k != StartIndex(n) :: ButtonFor(n, false, k) == RemoveButton
  {
  }

  /** `(0.2, 1.0, 0.2, 1.0)` and `(1.0, 0.0, 0.0, 1.0)`. */
  datatype SocketColor = Green | Red

  /** `self.links` of the socket with identifier `identifier` on node `n`. */
  function SocketLinks(links: seq<Link>, n: Node, isOutput: bool, identifier: string): seq<Link> {
    if isOutput then LinksFrom(links, n.name, identifier) else LinksInto(links, n.name, identifier)
  }

  /** `draw_color` of that socket under host version `version`: before 4.0.0 always green; from
      then on red when the node follows a transform and the socket's first link starts at an
      input node. */
  function DrawColor(nodes: seq<Node>, links: seq<Link>, n: Node, isOutput: bool, identifier: string,
                     version: Utils.Version): SocketColor
  {
    if !Utils.AtLeast(version, NODE_AWARE_COLOR_SINCE) then Green
    else
      var ls := SocketLinks(links, n, isOutput, identifier);
      if HasPrevTransforms(nodes, links, n) && |ls| > 0 && IsA(nodes, ls[0].fromNode, INPUT_NODE) then Red
      else Green
  }

  /** An input socket is red exactly when the host is 4.0.0 or later, the node follows a
      transform, and the first link into the socket in the tree's link order starts at an input
      node. */
  lemma InputSocketRedWhen(nodes: seq<Node>, links: seq<Link>, n: Node, identifier: string, version: Utils.Version)
    ensures DrawColor(nodes, links, n, false, identifier, version) == Red <==>
              && Utils.AtLeast(version, NODE_AWARE_COLOR_SINCE)
              && HasPrevTransforms(nodes, links, n)
              && FirstLinkInto(links, n.name, identifier).Some?
              && IsA(nodes, FirstLinkInto(links, n.name, identifier).value.fromNode, INPUT_NODE)
  {
    FilterHead((l: Link) => l.toNode == n.name && l.toSocket == identifier, links);
  }

  /** An output socket is red exactly when the host is 4.0.0 or later, the node follows a
      transform, is itself an input node and has a link leaving that socket. */
  lemma OutputSocketRedWhen(nodes: seq<Node>, links: seq<Link>, n: Node, identifier: string, version: Utils.Version)
    requires NodeIndex(nodes, n.name).Some? && nodes[NodeIndex(nodes, n.name).value] == n
    ensures DrawColor(nodes, links, n, true, identifier, version) == Red <==>
              && Utils.AtLeast(version, NODE_AWARE_COLOR_SINCE)
              && HasPrevTransforms(nodes, links, n)
              && INPUT_NODE in n.classes
              && exists k | 0 <= k < |links| :: links[k].fromNode == n.name && links[k].fromSocket == identifier
  {
    var ls := LinksFrom(links, n.name, identifier);
    if exists k | 0 <= k < |links| :: links[k].fromNode == n.name && links[k].fromSocket == identifier {
      var k :| 0 <= k < |links| && links[k].fromNode == n.name && links[k].fromSocket == identifier;
      assert links[k] in ls;
    }
  }
}
