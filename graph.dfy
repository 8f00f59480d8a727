/** The node-graph data model: sockets, links, nodes and the node tree that owns them.
    A link names its end nodes by node name and its end sockets by socket identifier, as the host
    keeps them attached to socket objects: moving sockets or removing other nodes does not
    redirect a link. */
module Graph {
  import opened Wrappers
  import opened Seqs
  import Strings

  /** `identifier` is unique among the sockets on one side of a node; `idname` is the socket type
      (`bl_idname`); `linkLimit` 0 means any number of links. */
  datatype Socket = Socket(identifier: string, idname: string, name: string, linkLimit: nat)

  /** `valid` is the link's `is_valid` flag. */
  datatype Link = Link(fromNode: string, fromSocket: string, toNode: string, toSocket: string, valid: bool)

  datatype Color = NoColor | IoColor | FilterColor | TransformColor | ErrorColor

  /** `classes` are the names of the Python classes the node is an instance of, so that
      `isinstance(node, C)` is `C in node.classes`; `nodeTree` is the sub-tree a group node shows. */
  datatype Node = Node(
    name: string,
    idname: string,
    classes: set<string>,
    inputs: seq<Socket>,
    outputs: seq<Socket>,
    select: bool,
    useCustomColor: bool,
    color: Color,
    filepath: string,
    nodeTree: Option<nat>)

  const OBJECTS_SOCKET: string := "WFObjectsSocket"
  const STRING_SOCKET: string := "NodeSocketString"
  const FLOW_SOCKET: string := "WFFlowSocket"
  const GROUP_INPUT: string := "NodeGroupInput"
  const GROUP_OUTPUT: string := "NodeGroupOutput"
  const GROUP_NODE: string := "WFNodeGroup"
  const REROUTE: string := "NodeReroute"

  /** The link limit the host gives a socket created with `sockets.new`. */
  const DEFAULT_LINK_LIMIT: nat := 1

  /** `sockets.new(idname, name)` on a side where no socket has the identifier `name` (a node
      just created or just cleared, or one whose sockets all have other names): the host uses the
      name as the identifier. */
  function NewSocket(idname: string, name: string): Socket {
    Socket(name, idname, name, DEFAULT_LINK_LIMIT)
  }

  /** The identifiers of a side's sockets, in order. */
  function Identifiers(sockets: seq<Socket>): (r: seq<string>)
    ensures |r| == |sockets| && forall i | 0 <= i < |sockets| :: r[i] == sockets[i].identifier
  {
    seq(|sockets|, i requires 0 <= i < |sockets| => sockets[i].identifier)
  }

  predicate DistinctIdentifiers(sockets: seq<Socket>) {
    forall i, j | 0 <= i < j < |sockets| :: sockets[i].identifier != sockets[j].identifier
  }

  /** The `k`-th numbered variant of `name`, `name_001`, `name_002`, ..., as the host's unique
      naming writes it. */
  function NumberedName(name: string, k: nat): string {
    name + "_" + Strings.Padded3(k)
  }

  /** Different numbers give different variants. */
  lemma NumberedNameInjective(name: string, j: nat, k: nat)
    requires NumberedName(name, j) == NumberedName(name, k)
    ensures j == k
  {
    assert NumberedName(name, j)[|name| + 1..] == Strings.Padded3(j);
    assert NumberedName(name, k)[|name| + 1..] == Strings.Padded3(k);
    Strings.Padded3Parses(j);
    Strings.Padded3Parses(k);
  }

  /** The smallest number from `k` on whose variant of `name` is not in `taken`. Every step that
      finds its variant taken drops that variant from `taken`, so the search ends. */
  function FirstFreeNumber(taken: seq<string>, name: string, k: nat): (r: nat)
    ensures r >= k && NumberedName(name, r) !in taken
    ensures forall j | k <= j < r :: NumberedName(name, j) in taken
    decreases |taken|
  {
    var c := NumberedName(name, k);
    if c !in taken then k
    else
      var p := (x: string) => x != c;
      var rest := Filter(p, taken);
      FilterDropsMember(p, taken, c);
      var r := FirstFreeNumber(rest, name, k + 1);
      assert NumberedName(name, r) != c by {
        if NumberedName(name, r) == c { NumberedNameInjective(name, r, k); }
      }
      assert forall j | k < j < r :: NumberedName(name, j) in taken by {
        forall j | k < j < r ensures NumberedName(name, j) in taken {
          var i :| 0 <= i < |rest| && rest[i] == NumberedName(name, j);
        }
      }
      r
  }

  /** The identifier the host gives a new socket named `name` on a side whose identifiers are
      `taken`: the name itself when it is free, otherwise `name_001`, `name_002`, ..., whichever
      comes first that is free. */
  function UniqueIdentifier(taken: seq<string>, name: string): (r: string)
    ensures r !in taken
    ensures name !in taken ==> r == name
    ensures name in taken ==>
              exists k: nat | k >= 1 :: r == NumberedName(name, k) &&
                forall j | 1 <= j < k :: NumberedName(name, j) in taken
  {
    if name !in taken then name else NumberedName(name, FirstFreeNumber(taken, name, 1))
  }

  /** The identifier is the first free variant: any `k` whose variant is free while every earlier
      one is taken is the one chosen. */
  lemma UniqueIdentifierIsFirstFree(taken: seq<string>, name: string, k: nat)
    requires name in taken && k >= 1 && NumberedName(name, k) !in taken
    requires forall j | 1 <= j < k :: NumberedName(name, j) in taken
    ensures UniqueIdentifier(taken, name) == NumberedName(name, k)
  {
  }

  /** `sockets.new(idname, name)` on the side `side`: a socket whose identifier no socket of the
      side has, which is the name itself when that is free. */
  function AddedSocket(side: seq<Socket>, idname: string, name: string): (s: Socket)
    ensures s.idname == idname && s.name == name && s.linkLimit == DEFAULT_LINK_LIMIT
    ensures forall i | 0 <= i < |side| :: side[i].identifier != s.identifier
    ensures (forall i | 0 <= i < |side| :: side[i].identifier != name) ==> s == NewSocket(idname, name)
  {
    var ids := Identifiers(side);
    assert forall i | 0 <= i < |side| :: side[i].identifier == ids[i];
    Socket(UniqueIdentifier(ids, name), idname, name, DEFAULT_LINK_LIMIT)
  }


  predicate UniqueNames(nodes: seq<Node>) {
    forall i, j | 0 <= i < j < |nodes| :: nodes[i].name != nodes[j].name
  }

  function NodeIndex(nodes: seq<Node>, name: string): (r: Option<nat>)
    ensures r.Some? ==> r.value < |nodes| && nodes[r.value].name == name
    ensures r.None? ==> forall i | 0 <= i < |nodes| :: nodes[i].name != name
  {
    FirstIndex((n: Node) => n.name == name, nodes)
  }

  function SocketIndex(sockets: seq<Socket>, identifier: string): (r: Option<nat>)
    ensures r.Some? ==> r.value < |sockets| && sockets[r.value].identifier == identifier
    ensures r.None? ==> forall i | 0 <= i < |sockets| :: sockets[i].identifier != identifier
  {
    FirstIndex((s: Socket) => s.identifier == identifier, sockets)
  }

  /** The input sockets of node `name`; a name that is not in the tree has none. */
  function InputsOf(nodes: seq<Node>, name: string): seq<Socket> {
    match NodeIndex(nodes, name)
    case None => []
    case Some(i) => nodes[i].inputs
  }

  /** `sockets[name]`: the first socket with that name. */
  function SocketNamed(sockets: seq<Socket>, name: string): (r: Option<Socket>)
    ensures r.Some? ==> r.value in sockets && r.value.name == name
    ensures r.None? <==> forall i | 0 <= i < |sockets| :: sockets[i].name != name
  {
    match FirstIndex((s: Socket) => s.name == name, sockets)
    case None => None
    case Some(k) => Some(sockets[k])
  }

  /** Both ends of the link exist: an output socket of its from-node, an input socket of its to-node. */
  predicate Resolves(nodes: seq<Node>, l: Link) {
    && NodeIndex(nodes, l.fromNode).Some?
    && SocketIndex(nodes[NodeIndex(nodes, l.fromNode).value].outputs, l.fromSocket).Some?
    && NodeIndex(nodes, l.toNode).Some?
    && SocketIndex(nodes[NodeIndex(nodes, l.toNode).value].inputs, l.toSocket).Some?
  }

  predicate WellFormed(nodes: seq<Node>, links: seq<Link>) {
    UniqueNames(nodes) && forall k | 0 <= k < |links| :: Resolves(nodes, links[k])
  }

  function FromSocket(nodes: seq<Node>, l: Link): Socket
    requires Resolves(nodes, l)
  {
    var n := nodes[NodeIndex(nodes, l.fromNode).value];
    n.outputs[SocketIndex(n.outputs, l.fromSocket).value]
  }

  function ToSocket(nodes: seq<Node>, l: Link): Socket
    requires Resolves(nodes, l)
  {
    var n := nodes[NodeIndex(nodes, l.toNode).value];
    n.inputs[SocketIndex(n.inputs, l.toSocket).value]
  }

  /** `socket.links` of input socket `socket` on node `node`, in the tree's link order. */
  function LinksInto(links: seq<Link>, node: string, socket: string): seq<Link> {
    Filter((l: Link) => l.toNode == node && l.toSocket == socket, links)
  }

  /** `socket.links` of output socket `socket` on node `node`, in the tree's link order. */
  function LinksFrom(links: seq<Link>, node: string, socket: string): seq<Link> {
    Filter((l: Link) => l.fromNode == node && l.fromSocket == socket, links)
  }

  /** `socket.links[0]` when `socket.is_linked`. */
  function FirstLinkInto(links: seq<Link>, node: string, socket: string): (r: Option<Link>)
    ensures r.Some? ==> r.value in links && r.value.toNode == node && r.value.toSocket == socket
  {
    match FirstIndex((l: Link) => l.toNode == node && l.toSocket == socket, links)
    case None => None
    case Some(k) => Some(links[k])
  }

  /** `socket.is_linked` is false exactly when no link of the tree ends at the socket. */
  lemma FirstLinkIntoNone(links: seq<Link>, node: string, socket: string)
    ensures FirstLinkInto(links, node, socket).None? <==>
            forall k | 0 <= k < |links| :: !(links[k].toNode == node && links[k].toSocket == socket)
  {
  }

  /** `socket.links[0]` is the link into the socket that comes first in the tree's link order. */
  lemma FirstLinkIntoIsFirst(links: seq<Link>, node: string, socket: string)
    requires FirstLinkInto(links, node, socket).Some?
    ensures exists k | 0 <= k < |links| ::
              && links[k] == FirstLinkInto(links, node, socket).value
              && forall j | 0 <= j < k :: !(links[j].toNode == node && links[j].toSocket == socket)
  {
    var k := FirstIndex((l: Link) => l.toNode == node && l.toSocket == socket, links).value;
    assert links[k] == FirstLinkInto(links, node, socket).value;
  }
  /** Link `x` ends at input socket `socket` of node `node`. */
  predicate EndsAt(x: Link, node: string, socket: string) {
    x.toNode == node && x.toSocket == socket
  }

  /** `tree.links.new(from, to)` with the host's default `verify_limits=True`: when the to-socket
      already holds as many links as its `limit` allows (0 meaning no limit), every link into it
      is removed first; the new link goes last. */
  function LinkedNew(links: seq<Link>, l: Link, limit: nat): (r: seq<Link>)
    ensures |r| > 0 && r[|r| - 1] == l
    ensures limit != 0 && |LinksInto(links, l.toNode, l.toSocket)| >= limit ==>
              forall x :: x in r[..|r| - 1] <==> x in links && !EndsAt(x, l.toNode, l.toSocket)
    ensures limit == 0 || |LinksInto(links, l.toNode, l.toSocket)| < limit ==> r[..|r| - 1] == links
  {
    var kept := if limit != 0 && |LinksInto(links, l.toNode, l.toSocket)| >= limit
                then Filter((x: Link) => !EndsAt(x, l.toNode, l.toSocket), links)
                else links;
    assert (kept + [l])[..|kept|] == kept;
    kept + [l]
  }

  /** `links.new` for each link of `news` in turn, the i-th into a socket whose limit is `limits[i]`. */
  function LinkAll(links: seq<Link>, news: seq<Link>, limits: seq<nat>): seq<Link>
    requires |limits| == |news|
  {
    if |news| == 0 then links
    else LinkedNew(LinkAll(links, news[..|news| - 1], limits[..|limits| - 1]), news[|news| - 1], limits[|limits| - 1])
  }

  /** `for l in news: tree.links.new(...)`, the i-th link into a socket whose limit is `limits[i]`. */
  method LinkEach(links: seq<Link>, news: seq<Link>, limits: seq<nat>) returns (r: seq<Link>)
    requires |limits| == |news|
    ensures r == LinkAll(links, news, limits)
  {
    r := links;
    for k := 0 to |news|
      invariant r == LinkAll(links, news[..k], limits[..k])
    {
      assert news[..k + 1][..k] == news[..k] && limits[..k + 1][..k] == limits[..k];
      r := LinkedNew(r, news[k], limits[k]);
    }
    assert news[..|news|] == news && limits[..|limits|] == limits;
  }

  /** The position of the last link of `news` that ends at the socket. */
  function LastLinkInto(news: seq<Link>, node: string, socket: string): (r: Option<nat>)
    ensures r.Some? ==> r.value < |news| && EndsAt(news[r.value], node, socket)
    ensures forall k | (if r.Some? then r.value + 1 else 0) <= k < |news| :: !EndsAt(news[k], node, socket)
  {
    if |news| == 0 then None
    else if EndsAt(news[|news| - 1], node, socket) then Some(|news| - 1)
    else
      var init := news[..|news| - 1];
      assert forall k | 0 <= k < |init| :: init[k] == news[k];
      LastLinkInto(init, node, socket)
  }

  /** One `links.new` into a socket that takes one link leaves the new link as its only link, and
      leaves the links into every other socket as they were. */
  lemma LinkedNewInto(links: seq<Link>, l: Link, limit: nat, node: string, socket: string)
    ensures EndsAt(l, node, socket) && limit == 1 ==> LinksInto(LinkedNew(links, l, limit), node, socket) == [l]
    ensures !EndsAt(l, node, socket) ==> LinksInto(LinkedNew(links, l, limit), node, socket) == LinksInto(links, node, socket)
  {
    var into := (x: Link) => x.toNode == node && x.toSocket == socket;
    var other := (x: Link) => !EndsAt(x, l.toNode, l.toSocket);
    var r := LinkedNew(links, l, limit);
    var kept := r[..|r| - 1];
    assert r == kept + [l];
    assert LinksInto(r, node, socket) == Filter(into, kept) + (if into(l) then [l] else []);
    if EndsAt(l, node, socket) && limit == 1 {
      if |LinksInto(links, node, socket)| >= 1 {
        forall i | 0 <= i < |kept|
          ensures !into(kept[i])
        {
          assert kept[i] in kept;
        }
        FilterNone(into, kept);
      } else {
        assert kept == links;
      }
    } else if !EndsAt(l, node, socket) && kept != links {
      FilterOfFilter(into, other, links);
      assert kept == Filter(other, links);
    }
  }

  /** Making the links of `news` one after another, each into a socket that takes one link: a
      socket that some of them end at keeps only the last of those, and any other socket keeps the
      links it had. */
  lemma {:induction false} LinkAllInto(links: seq<Link>, news: seq<Link>, limits: seq<nat>, node: string, socket: string)
    requires |limits| == |news|
    requires forall k | 0 <= k < |news| && EndsAt(news[k], node, socket) :: limits[k] == 1
    ensures LinksInto(LinkAll(links, news, limits), node, socket) ==
            match LastLinkInto(news, node, socket)
            case Some(j) => [news[j]]
            case None => LinksInto(links, node, socket)
  {
    if |news| > 0 {
      var init, last := news[..|news| - 1], news[|news| - 1];
      LinkAllInto(links, init, limits[..|limits| - 1], node, socket);
      LinkedNewInto(LinkAll(links, init, limits[..|limits| - 1]), last, limits[|limits| - 1], node, socket);
      if !EndsAt(last, node, socket) {
        assert LastLinkInto(news, node, socket) == LastLinkInto(init, node, socket);
      }
    }
  }


  /** A node tree (`bpy.types.NodeTree`): its nodes in tree order and its links. */
  class NodeTree {
    var nodes: seq<Node>
    var links: seq<Link>

    constructor (nodes: seq<Node>, links: seq<Link>)
      ensures this.nodes == nodes && this.links == links
    {
      this.nodes := nodes;
      this.links := links;
    }
  }
}
