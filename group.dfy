/** Node groups: keeping a group node's sockets in step with its tree's group input and output
    nodes (`update_sockets`, `WFNodeGroup.update`), collecting the selection and the boundary links
    when nodes are grouped (`WFGroupNodesOperator.execute`), and entering and leaving a group in the
    editor (`WFToggleEditGroupOperator.execute`). */
module Group {
  import opened Wrappers
  import opened Seqs
  import opened Graph
  import Strings

  // ---------------------------------------------------------------------------------------------
  // Socket-collection primitives of the host

  /** The identifiers of `ss`, in order. */
  function Ids(ss: seq<Socket>): seq<string> {
    seq(|ss|, i requires 0 <= i < |ss| => ss[i].identifier)
  }

  /** `sockets.new(s.bl_idname, s.name, identifier=s.identifier)` where no socket has that
      identifier yet. */
  function Copied(s: Socket): Socket {
    Socket(s.identifier, s.idname, s.name, DEFAULT_LINK_LIMIT)
  }

  /** `sockets.new(s.bl_idname, s.name, identifier=s.identifier)` on the side `g`: the host makes
      the requested identifier unique on that side, as it does a name. */
  function CopiedInto(g: seq<Socket>, s: Socket): (r: Socket)
    ensures r.idname == s.idname && r.name == s.name && r.identifier !in Ids(g)
    ensures s.identifier !in Ids(g) ==> r == Copied(s)
  {
    Socket(UniqueIdentifier(Ids(g), s.identifier), s.idname, s.name, DEFAULT_LINK_LIMIT)
  }

  /** `sockets.remove(sockets[k])`. */
  function Remove<T>(g: seq<T>, k: nat): (r: seq<T>)
    requires k < |g|
    ensures |r| == |g| - 1
  {
    g[..k] + g[k + 1..]
  }

  /** `sockets.move(from, to)`: the socket at `from` ends up at `to`, the others keep their order. */
  function Move<T>(g: seq<T>, from: nat, to: nat): (r: seq<T>)
    requires from < |g| && to < |g|
    ensures |r| == |g| && r[to] == g[from]
  {
    var rest := Remove(g, from);
    rest[..to] + [g[from]] + rest[to..]
  }

  /** Appending a socket and moving it from the end to `k` inserts it at `k`. */
  lemma AppendThenMove<T>(g: seq<T>, x: T, k: nat)
    requires k <= |g|
    ensures Move(g + [x], |g|, k) == g[..k] + [x] + g[k..]
  {
    assert Remove(g + [x], |g|) == g;
  }

  /** Removing a socket, appending its replacement and moving that back replaces it in place. */
  lemma ReplaceInPlace<T>(g: seq<T>, k: nat, x: T)
    requires k < |g|
    ensures Move(Remove(g, k) + [x], |g| - 1, k) == g[k := x]
  {
    AppendThenMove(Remove(g, k), x, k);
    assert Remove(g, k)[..k] == g[..k] && Remove(g, k)[k..] == g[k + 1..];
  }

  /** A move keeps the same sockets. */
  lemma MoveKeepsElements<T>(g: seq<T>, from: nat, to: nat)
    requires from < |g| && to < |g|
    ensures multiset(Move(g, from, to)) == multiset(g)
  {
    var rest := Remove(g, from);
    calc {
      multiset(g);
      { assert g == g[..from] + [g[from]] + g[from + 1..]; }
      multiset(g[..from]) + multiset{g[from]} + multiset(g[from + 1..]);
      multiset(rest) + multiset{g[from]};
      { assert rest == rest[..to] + rest[to..]; }
      multiset(rest[..to]) + multiset{g[from]} + multiset(rest[to..]);
      multiset(Move(g, from, to));
    }
  }

  lemma IdsOfMove(g: seq<Socket>, from: nat, to: nat)
    requires from < |g| && to < |g|
    ensures Ids(Move(g, from, to)) == Move(Ids(g), from, to)
  {
    assert Ids(Remove(g, from)) == Remove(Ids(g), from);
  }

  lemma IdsOfSplice(a: seq<Socket>, x: Socket, b: seq<Socket>)
    ensures Ids(a + [x] + b) == Ids(a) + [x.identifier] + Ids(b)
  {
  }

  /** The interface sockets of a group input or output node: all but the trailing placeholder. */
  function Interface(io: seq<Socket>): (s: seq<Socket>)
    ensures |io| > 0 ==> |s| == |io| - 1 && s == io[..|io| - 1]
    ensures |io| == 0 ==> s == []
  {
    if |io| == 0 then [] else io[..|io| - 1]
  }

  /** The first index below `n` where `g` and `s` disagree on the identifier, if any. */
  function FirstMismatch(g: seq<Socket>, s: seq<Socket>, n: nat): (r: Option<nat>)
    requires n <= |g| && n <= |s|
    ensures r.Some? ==> r.value < n && g[r.value].identifier != s[r.value].identifier
    ensures forall j | 0 <= j < (if r.Some? then r.value else n) :: g[j].identifier == s[j].identifier
  {
    if n == 0 then None
    else match FirstMismatch(g, s, n - 1)
      case Some(j) => Some(j)
      case None => if g[n - 1].identifier != s[n - 1].identifier then Some(n - 1) else None
  }

  /** The first index below `n` whose socket in `g` has an identifier no socket of `s` has. */
  function FirstMissing(g: seq<Socket>, s: seq<Socket>, n: nat): (r: Option<nat>)
    requires n <= |g|
    ensures r.Some? ==> r.value < n && g[r.value].identifier !in Ids(s)
    ensures forall j | 0 <= j < (if r.Some? then r.value else n) :: g[j].identifier in Ids(s)
  {
    if n == 0 then None
    else match FirstMissing(g, s, n - 1)
      case Some(j) => Some(j)
      case None => if g[n - 1].identifier !in Ids(s) then Some(n - 1) else None
  }

  /** The pass over equally long collections from index `idx` on: an identifier found elsewhere is
      moved there and the pass stops; a type difference re-creates the socket in place and the pass
      stops; a name difference is renamed and the pass goes on. */
  function SyncEqual(g: seq<Socket>, s: seq<Socket>, idx: nat): (r: seq<Socket>)
    requires |g| == |s| && idx <= |s|
    ensures |r| == |g|
    decreases |s| - idx
  {
    if idx == |s| then g
    else if g[idx].identifier != s[idx].identifier then
      match SocketIndex(s, g[idx].identifier)
      case Some(m) => Move(g, idx, m)
      case None => SyncEqual(g, s, idx + 1)
    else if g[idx].idname != s[idx].idname then
      Move(Remove(g, idx) + [Copied(s[idx])], |g| - 1, idx)
    else if g[idx].name != s[idx].name then
      SyncEqual(g[idx := g[idx].(name := s[idx].name)], s, idx + 1)
    else SyncEqual(g, s, idx + 1)
  }

  /** `update_sockets(node_group_sockets, io_node_sockets)` exactly as written. */
  function UpdatedSocketsAsWritten(g: seq<Socket>, io: seq<Socket>): seq<Socket> {
    var s := Interface(io);
    if |g| < |s| then
      // the loop breaks only at an index idx with idx + 1 < len(g); without a break idx is the
      // last index of s and new_idx keeps its initial 0
      var n := if |g| == 0 then 0 else |g| - 1;
      match FirstMismatch(g, s, n)
      case Some(j) => Move(g + [CopiedInto(g, s[j])], |g|, j)
      case None => Move(g + [CopiedInto(g, s[|s| - 1])], |g|, 0)
    else if |g| == |s| then SyncEqual(g, s, 0)
    else
      // the loop only looks at the first len(s) group sockets
      match FirstMissing(g, s, |s|)
      case Some(j) => Remove(g, j)
      case None => g
  }

  /** `update_sockets` as its comments describe it: an added socket is inserted where the group's
      identifiers first disagree with the interface (or at the end), and a removed socket is looked
      for among all the group's sockets. */
  function UpdatedSockets(g: seq<Socket>, io: seq<Socket>): seq<Socket> {
    var s := Interface(io);
    if |g| < |s| then
      match FirstMismatch(g, s, |g|)
      case Some(j) => Move(g + [Copied(s[j])], |g|, j)
      case None => Move(g + [Copied(s[|g|])], |g|, |g|)
    else if |g| == |s| then SyncEqual(g, s, 0)
    else
      match FirstMissing(g, s, |g|)
      case Some(j) => Remove(g, j)
      case None => g
  }

  /** `update_sockets` with its two slips corrected (see `UpdatedSocketsAsWritten` and the lemmas
      on it for the code as written), step by step: the three branches and their loops, each of
      which stops at its first change (except renames). */
  method UpdateSockets(g: seq<Socket>, io: seq<Socket>) returns (r: seq<Socket>)
    ensures r == UpdatedSockets(g, io)
  {
    var s := Interface(io);
    if |g| < |s| {
      r := InsertAdded(g, s);
    } else if |g| == |s| {
      r := SyncSameCount(g, s);
    } else {
      r := RemoveMissing(g, s);
    }
  }

  /** The first branch: find where the identifiers first disagree, then add the new socket there. */
  method InsertAdded(g: seq<Socket>, s: seq<Socket>) returns (r: seq<Socket>)
    requires |g| < |s|
    ensures r == match FirstMismatch(g, s, |g|)
                 case Some(j) => Move(g + [Copied(s[j])], |g|, j)
                 case None => Move(g + [Copied(s[|g|])], |g|, |g|)
  {
    var newIdx := |g|;
    var idx := 0;
    while idx < |g|
      invariant 0 <= idx <= |g|
      invariant FirstMismatch(g, s, idx).None?
    {
      if g[idx].identifier != s[idx].identifier {
        newIdx := idx;
        break;
      }
      idx := idx + 1;
    }
    assert newIdx == idx && FirstMismatch(g, s, |g|) == if idx < |g| then Some(idx) else None by {
      FirstMismatchFrom(g, s, idx, |g|);
    }
    r := g + [Copied(s[newIdx])];
    r := Move(r, |r| - 1, newIdx);
  }

  /** The second branch: walk both lists, renaming, until a socket moved or changed type. */
  method SyncSameCount(g: seq<Socket>, s: seq<Socket>) returns (r: seq<Socket>)
    requires |g| == |s|
    ensures r == SyncEqual(g, s, 0)
  {
    r := g;
    var idx := 0;
    while idx < |s|
      invariant 0 <= idx <= |s| && |r| == |s|
      invariant SyncEqual(r, s, idx) == SyncEqual(g, s, 0)
    {
      if r[idx].identifier != s[idx].identifier {
        var moved := SocketIndex(s, r[idx].identifier);
        if moved.Some? {
          r := Move(r, idx, moved.value);
          return;
        }
      } else if r[idx].idname != s[idx].idname {
        r := Remove(r, idx);
        r := r + [Copied(s[idx])];
        r := Move(r, |r| - 1, idx);
        return;
      } else if r[idx].name != s[idx].name {
        r := r[idx := r[idx].(name := s[idx].name)];
      }
      idx := idx + 1;
    }
  }

  /** The third branch: remove the first group socket the interface no longer has. */
  method RemoveMissing(g: seq<Socket>, s: seq<Socket>) returns (r: seq<Socket>)
    requires |g| > |s|
    ensures r == match FirstMissing(g, s, |g|)
                 case Some(j) => Remove(g, j)
                 case None => g
  {
    r := g;
    var idx := 0;
    while idx < |g|
      invariant 0 <= idx <= |g|
      invariant FirstMissing(g, s, idx).None?
    {
      if g[idx].identifier !in Ids(s) {
        FirstMissingFrom(g, s, idx, |g|);
        r := Remove(g, idx);
        return;
      }
      idx := idx + 1;
    }
  }

  /** Once the first `k` indices agree, the first mismatch below `n` is the first one from `k` on. */
  lemma {:induction false} FirstMismatchFrom(g: seq<Socket>, s: seq<Socket>, k: nat, n: nat)
    requires k <= n <= |g| && n <= |s|
    requires FirstMismatch(g, s, k).None?
    ensures k < n && g[k].identifier != s[k].identifier ==> FirstMismatch(g, s, n) == Some(k)
    ensures k == n ==> FirstMismatch(g, s, n).None?
  {
    if k < n && g[k].identifier != s[k].identifier {
      if n > k + 1 {
        FirstMismatchFrom(g, s, k, n - 1);
      }
    }
  }

  lemma {:induction false} FirstMissingFrom(g: seq<Socket>, s: seq<Socket>, k: nat, n: nat)
    requires k < n <= |g|
    requires FirstMissing(g, s, k).None? && g[k].identifier !in Ids(s)
    ensures FirstMissing(g, s, n) == Some(k)
  {
    if n > k + 1 {
      FirstMissingFrom(g, s, k, n - 1);
    }
  }

  // ---------------------------------------------------------------------------------------------
  // Properties of update_sockets

  /** Only the interface sockets matter: the trailing placeholder of the group input or output
      node is never looked at. */
  lemma PlaceholderIgnored(g: seq<Socket>, io: seq<Socket>, p: Socket, q: Socket)
    ensures UpdatedSockets(g, io + [p]) == UpdatedSockets(g, io + [q])
  {
    assert (io + [p])[..|io|] == io == (io + [q])[..|io|];
  }

  /** When the interface has more sockets, exactly one socket is added: a copy of an interface
      socket (its type, name and identifier), with the existing sockets kept in order around it. */
  lemma {:induction false} AddsOneCopy(g: seq<Socket>, io: seq<Socket>)
    requires |g| < |Interface(io)|
    ensures exists k, j | 0 <= k <= |g| && 0 <= j < |Interface(io)| ::
              UpdatedSockets(g, io) == g[..k] + [Copied(Interface(io)[j])] + g[k..]
  {
    var s := Interface(io);
    match FirstMismatch(g, s, |g|)
    case Some(j) =>
      AppendThenMove(g, Copied(s[j]), j);
    case None =>
      AppendThenMove(g, Copied(s[|g|]), |g|);
  }

  /** The added socket goes where the identifiers first disagree, or at the end. */
  lemma {:induction false} AddInsertsAtFirstMismatch(g: seq<Socket>, io: seq<Socket>, m: nat)
    requires m <= |g| < |Interface(io)|
    requires forall j | 0 <= j < m :: g[j].identifier == Interface(io)[j].identifier
    requires m < |g| ==> g[m].identifier != Interface(io)[m].identifier
    ensures UpdatedSockets(g, io) == g[..m] + [Copied(Interface(io)[m])] + g[m..]
  {
    var s := Interface(io);
    assert FirstMismatch(g, s, m).None?;
    FirstMismatchFrom(g, s, m, |g|);
    AppendThenMove(g, Copied(s[m]), m);
  }

  /** Adding: when the group's sockets are the interface with one socket left out, the update
      restores the interface's identifiers in the interface's order. */
  lemma {:induction false} AddRestoresInterface(g: seq<Socket>, io: seq<Socket>, m: nat)
    requires m < |Interface(io)| && NoDups(Ids(Interface(io)))
    requires Ids(g) == Ids(Remove(Interface(io), m))
    ensures Ids(UpdatedSockets(g, io)) == Ids(Interface(io))
  {
    var s := Interface(io);
    var ids := Ids(s);
    assert Ids(g) == ids[..m] + ids[m + 1..];
    forall j | 0 <= j < m
      ensures g[j].identifier == s[j].identifier
    {
      assert Ids(g)[j] == ids[j];
    }
    if m < |g| {
      assert Ids(g)[m] == ids[m + 1];
      assert ids[m] != ids[m + 1];
    }
    AddInsertsAtFirstMismatch(g, io, m);
    IdsOfSplice(g[..m], Copied(s[m]), g[m..]);
    assert Ids(g[..m]) == Ids(g)[..m] == ids[..m];
    assert Ids(g[m..]) == Ids(g)[m..] == ids[m + 1..];
    assert ids == ids[..m] + [ids[m]] + ids[m + 1..];
  }

  /** With equally many sockets the update keeps the same identifiers, possibly in another order:
      a move permutes, a type change re-creates the socket under the same identifier, a rename
      touches only the name. */
  lemma {:induction false} SameCountKeepsIds(g: seq<Socket>, s: seq<Socket>, idx: nat)
    requires |g| == |s| && idx <= |s|
    ensures multiset(Ids(SyncEqual(g, s, idx))) == multiset(Ids(g))
    decreases |s| - idx
  {
    if idx < |s| {
      if g[idx].identifier != s[idx].identifier && SocketIndex(s, g[idx].identifier).Some? {
        MoveKeepsIds(g, idx, SocketIndex(s, g[idx].identifier).value);
      } else if g[idx].identifier == s[idx].identifier && g[idx].idname != s[idx].idname {
        RecreateKeepsIds(g, idx, Copied(s[idx]));
      } else {
        var g' := SyncEqualPasses(g, s, idx);
        SameCountKeepsIds(g', s, idx + 1);
      }
    }
  }

  /** At an index where the pass neither moves nor re-creates a socket, it goes on to the next
      index with the same identifiers (renaming the socket when only the name differs). */
  lemma SyncEqualPasses(g: seq<Socket>, s: seq<Socket>, idx: nat) returns (g': seq<Socket>)
    requires |g| == |s| && idx < |s|
    requires !(g[idx].identifier != s[idx].identifier && SocketIndex(s, g[idx].identifier).Some?)
    requires !(g[idx].identifier == s[idx].identifier && g[idx].idname != s[idx].idname)
    ensures |g'| == |g| && Ids(g') == Ids(g) && SyncEqual(g, s, idx) == SyncEqual(g', s, idx + 1)
  {
    var renames := g[idx].identifier == s[idx].identifier && g[idx].name != s[idx].name;
    g' := if renames then g[idx := g[idx].(name := s[idx].name)] else g;
    assert Ids(g') == Ids(g);
  }

  lemma MoveKeepsIds(g: seq<Socket>, from: nat, to: nat)
    requires from < |g| && to < |g|
    ensures multiset(Ids(Move(g, from, to))) == multiset(Ids(g))
  {
    IdsOfMove(g, from, to);
    MoveKeepsElements(Ids(g), from, to);
  }

  lemma RecreateKeepsIds(g: seq<Socket>, idx: nat, x: Socket)
    requires idx < |g| && x.identifier == g[idx].identifier
    ensures Ids(Move(Remove(g, idx) + [x], |g| - 1, idx)) == Ids(g)
  {
    ReplaceInPlace(g, idx, x);
    assert Ids(g[idx := x]) == Ids(g);
  }

  /** With the same identifiers in the same order and the same types, the update only renames:
      every socket from `idx` on takes its interface socket's name and keeps everything else. */
  lemma {:induction false} RenamesInPlace(g: seq<Socket>, s: seq<Socket>, idx: nat)
    requires |g| == |s| && idx <= |s| && Ids(g) == Ids(s)
    requires forall i | idx <= i < |s| :: g[i].idname == s[i].idname
    ensures SyncEqual(g, s, idx) == seq(|g|, i requires 0 <= i < |g| => if i < idx then g[i] else g[i].(name := s[i].name))
    decreases |s| - idx
  {
    if idx < |s| {
      assert Ids(g)[idx] == Ids(s)[idx];
      if g[idx].name != s[idx].name {
        var g' := g[idx := g[idx].(name := s[idx].name)];
        assert Ids(g') == Ids(g);
        RenamesInPlace(g', s, idx + 1);
      } else {
        RenamesInPlace(g, s, idx + 1);
      }
    }
  }

  /** With the same identifiers in the same order, the first socket whose type differs is
      re-created in place from its interface socket, the sockets before it are renamed and the
      sockets after it are left alone. */
  lemma {:induction false} RecreatesRetypedSocket(g: seq<Socket>, s: seq<Socket>, idx: nat, k: nat)
    requires |g| == |s| && idx <= k < |s| && Ids(g) == Ids(s)
    requires g[k].idname != s[k].idname && forall i | idx <= i < k :: g[i].idname == s[i].idname
    ensures SyncEqual(g, s, idx) == RetypedResult(g, s, idx, k)
    decreases |s| - idx
  {
    assert Ids(g)[idx] == Ids(s)[idx];
    if idx == k {
      ReplaceInPlace(g, k, Copied(s[k]));
    } else {
      var g' := RetypedPasses(g, s, idx, k);
      RecreatesRetypedSocket(g', s, idx + 1, k);
    }
  }

  /** The sockets before `idx` as they are, those from `idx` to `k` renamed after the interface,
      socket `k` re-created from the interface, the rest as they are. */
  function RetypedResult(g: seq<Socket>, s: seq<Socket>, idx: nat, k: nat): seq<Socket>
    requires |g| == |s| && k < |s|
  {
    seq(|g|, i requires 0 <= i < |g| =>
      if i < idx then g[i] else if i < k then g[i].(name := s[i].name) else if i == k then Copied(s[k]) else g[i])
  }

  /** Before the re-typed socket `k` the pass renames socket `idx` and goes on, and the result it
      leads to is unchanged. */
  lemma RetypedPasses(g: seq<Socket>, s: seq<Socket>, idx: nat, k: nat) returns (g': seq<Socket>)
    requires |g| == |s| && idx < k < |s| && Ids(g) == Ids(s)
    requires g[k].idname != s[k].idname && forall i | idx <= i < k :: g[i].idname == s[i].idname
    ensures |g'| == |g| && Ids(g') == Ids(s) && SyncEqual(g, s, idx) == SyncEqual(g', s, idx + 1)
    ensures g'[k].idname != s[k].idname && forall i | idx + 1 <= i < k :: g'[i].idname == s[i].idname
    ensures RetypedResult(g', s, idx + 1, k) == RetypedResult(g, s, idx, k)
  {
    assert Ids(g)[idx] == Ids(s)[idx];
    g' := g[idx := g[idx].(name := s[idx].name)];
    assert Ids(g') == Ids(g);
    if g[idx].name == s[idx].name {
      assert g' == g;
    }
  }

  /** When the group has more sockets, at most one is removed, and only one whose identifier no
      interface socket has. */
  lemma RemovesAtMostOne(g: seq<Socket>, io: seq<Socket>)
    requires |g| > |Interface(io)|
    ensures var r := UpdatedSockets(g, io);
            r == g || exists k | 0 <= k < |g| :: g[k].identifier !in Ids(Interface(io)) && r == Remove(g, k)
  {
  }

  /** Removing: when the interface is the group's sockets with one left out, the update removes
      exactly that one. */
  lemma {:induction false} RemoveRestoresInterface(g: seq<Socket>, io: seq<Socket>, m: nat)
    requires m < |g| && NoDups(Ids(g))
    requires Ids(Interface(io)) == Ids(Remove(g, m))
    ensures Ids(UpdatedSockets(g, io)) == Ids(Interface(io))
  {
    var s := Interface(io);
    forall j | 0 <= j < m
      ensures g[j].identifier in Ids(s)
    {
      assert Ids(s)[j] == Ids(Remove(g, m))[j] == g[j].identifier;
    }
    assert FirstMissing(g, s, m).None?;
    forall i | 0 <= i < |Ids(s)|
      ensures Ids(s)[i] != g[m].identifier
    {
      if i < m {
        assert Ids(s)[i] == Ids(Remove(g, m))[i] == Ids(g)[i];
        assert Ids(g)[i] != Ids(g)[m];
      } else {
        assert Ids(s)[i] == Ids(Remove(g, m))[i] == Ids(g)[i + 1];
        assert Ids(g)[m] != Ids(g)[i + 1];
      }
    }
    FirstMissingFrom(g, s, m, |g|);
  }

  // ---------------------------------------------------------------------------------------------
  // The two slips of update_sockets as written

  const SOCKET_A: Socket := Socket("A", OBJECTS_SOCKET, "A", DEFAULT_LINK_LIMIT)
  const SOCKET_B: Socket := Socket("B", OBJECTS_SOCKET, "B", DEFAULT_LINK_LIMIT)
  const SOCKET_C: Socket := Socket("C", OBJECTS_SOCKET, "C", DEFAULT_LINK_LIMIT)
  const PLACEHOLDER: Socket := Socket("__extend__", "NodeSocketVirtual", "", 0)

  /** As written, a socket appended at the end of the interface is placed first on the group
      node, because `new_idx` stays 0 when the loop does not break. */
  lemma AppendedSocketLandsFirst()
    ensures UpdatedSocketsAsWritten([SOCKET_A], [SOCKET_A, SOCKET_B, PLACEHOLDER]) == [Copied(SOCKET_B), SOCKET_A]
    ensures Ids(UpdatedSockets([SOCKET_A], [SOCKET_A, SOCKET_B, PLACEHOLDER])) == ["A", "B"]
  {
    assert Interface([SOCKET_A, SOCKET_B, PLACEHOLDER]) == [SOCKET_A, SOCKET_B];
    assert "B" !in Ids([SOCKET_A]);
    AppendThenMove([SOCKET_A], Copied(SOCKET_B), 0);
    AppendThenMove([SOCKET_A], Copied(SOCKET_B), 1);
  }

  /** As written, the loop never compares the group's last socket, so a socket inserted at or
      after that position goes unnoticed: the interface's last socket is copied in front of the
      group's sockets instead, under the identifier the host makes unique, "C_001", and the
      inserted socket is never added. */
  lemma InsertedSocketMissed()
    ensures UpdatedSocketsAsWritten([SOCKET_A, SOCKET_C], [SOCKET_A, SOCKET_B, SOCKET_C, PLACEHOLDER]) ==
              [Socket("C_001", OBJECTS_SOCKET, "C", DEFAULT_LINK_LIMIT), SOCKET_A, SOCKET_C]
    ensures Ids(UpdatedSockets([SOCKET_A, SOCKET_C], [SOCKET_A, SOCKET_B, SOCKET_C, PLACEHOLDER])) == ["A", "B", "C"]
  {
    var s := Interface([SOCKET_A, SOCKET_B, SOCKET_C, PLACEHOLDER]);
    assert s == [SOCKET_A, SOCKET_B, SOCKET_C];
    assert FirstMismatch([SOCKET_A, SOCKET_C], s, 1) == None;
    assert FirstMismatch([SOCKET_A, SOCKET_C], s, 2) == Some(1);
    var taken := Ids([SOCKET_A, SOCKET_C]);
    assert taken == ["A", "C"];
    Strings.Padded3OneDigit(1);
    assert NumberedName("C", 1) == "C_001";
    assert "C_001" !in taken;
    UniqueIdentifierIsFirstFree(taken, "C", 1);
    var copy := CopiedInto([SOCKET_A, SOCKET_C], SOCKET_C);
    assert copy == Socket("C_001", OBJECTS_SOCKET, "C", DEFAULT_LINK_LIMIT);
    AppendThenMove([SOCKET_A, SOCKET_C], copy, 0);
    AppendThenMove([SOCKET_A, SOCKET_C], Copied(SOCKET_B), 1);
  }

  /** As written, removing the last interface socket never removes it from the group node,
      because the loop only visits the first `len(sockets)` group sockets. */
  lemma RemovedLastSocketStays()
    ensures UpdatedSocketsAsWritten([SOCKET_A, SOCKET_B], [SOCKET_A, PLACEHOLDER]) == [SOCKET_A, SOCKET_B]
    ensures UpdatedSockets([SOCKET_A, SOCKET_B], [SOCKET_A, PLACEHOLDER]) == [SOCKET_A]
  {
    var s := Interface([SOCKET_A, PLACEHOLDER]);
    assert s == [SOCKET_A];
    assert Ids(s) == ["A"];
    assert FirstMissing([SOCKET_A, SOCKET_B], s, 1) == None;
    assert FirstMissing([SOCKET_A, SOCKET_B], s, 2) == Some(1);
  }

  // ---------------------------------------------------------------------------------------------
  // WFNodeGroup.update

  /** One pass of the loop of `WFNodeGroup.update`: a group input node drives the group node's
      inputs, a group output node its outputs, any other node nothing. */
  function SyncedWith(node: Node, inner: Node): Node {
    if inner.idname == GROUP_INPUT then node.(inputs := UpdatedSockets(node.inputs, inner.outputs))
    else if inner.idname == GROUP_OUTPUT then node.(outputs := UpdatedSockets(node.outputs, inner.inputs))
    else node
  }

  /** The group node after `update` has visited the nodes `inner` of its tree, in order. */
  function GroupSynced(node: Node, inner: seq<Node>): Node {
    if |inner| == 0 then node else SyncedWith(GroupSynced(node, inner[..|inner| - 1]), inner[|inner| - 1])
  }

  /** `update` changes only the group node's sockets. */
  lemma {:induction false} GroupSyncedChangesOnlySockets(node: Node, inner: seq<Node>)
    ensures var r := GroupSynced(node, inner);
            r == node.(inputs := r.inputs, outputs := r.outputs)
  {
    if |inner| > 0 {
      GroupSyncedChangesOnlySockets(node, inner[..|inner| - 1]);
    }
  }

  /** A tree without group input and output nodes leaves the group node as it is. */
  lemma {:induction false} GroupSyncedWithoutIoNodes(node: Node, inner: seq<Node>)
    requires forall k | 0 <= k < |inner| :: inner[k].idname != GROUP_INPUT && inner[k].idname != GROUP_OUTPUT
    ensures GroupSynced(node, inner) == node
  {
    if |inner| > 0 {
      GroupSyncedWithoutIoNodes(node, inner[..|inner| - 1]);
    }
  }

  /** `WFNodeGroup.update` on group node `i` of tree `t`; `groupTree` is its `node_tree`, null
      when none is set. Each socket update is the corrected `update_sockets` (`UpdatedSockets`). */
  method UpdateGroupNode(t: NodeTree, i: nat, groupTree: NodeTree?)
    requires i < |t.nodes|
    modifies t
    ensures groupTree == null ==> t.nodes == old(t.nodes)
    ensures groupTree != null ==> t.nodes == old(t.nodes)[i := GroupSynced(old(t.nodes)[i], old(groupTree.nodes))]
    ensures t.links == old(t.links)
  {
    if groupTree == null {
      return;
    }
    var inner := groupTree.nodes;
    var node := t.nodes[i];
    for k := 0 to |inner|
      invariant node == GroupSynced(old(t.nodes)[i], inner[..k])
      invariant t.nodes == old(t.nodes) && t.links == old(t.links)
    {
      assert inner[..k + 1][..k] == inner[..k];
      if inner[k].idname == GROUP_INPUT {
        var synced := UpdateSockets(node.inputs, inner[k].outputs);
        node := node.(inputs := synced);
      } else if inner[k].idname == GROUP_OUTPUT {
        var synced := UpdateSockets(node.outputs, inner[k].inputs);
        node := node.(outputs := synced);
      }
    }
    assert inner[..|inner|] == inner;
    t.nodes := t.nodes[i := node];
  }

  // ---------------------------------------------------------------------------------------------
  // WFGroupNodesOperator.execute: selection and boundary links

  predicate IsGroupIo(n: Node) {
    n.idname == GROUP_INPUT || n.idname == GROUP_OUTPUT
  }

  /** The tree's nodes after group input and output nodes are deselected. */
  function Deselected(nodes: seq<Node>): seq<Node> {
    seq(|nodes|, i requires 0 <= i < |nodes| => if IsGroupIo(nodes[i]) then nodes[i].(select := false) else nodes[i])
  }

  /** `selected_nodes`: the selected nodes other than group inputs and outputs, in tree order. */
  function SelectedNodes(nodes: seq<Node>): seq<Node> {
    if |nodes| == 0 then []
    else
      var last := nodes[|nodes| - 1];
      SelectedNodes(nodes[..|nodes| - 1]) + if last.select && !IsGroupIo(last) then [last] else []
  }

  function Names(ns: seq<Node>): seq<string> {
    seq(|ns|, i requires 0 <= i < |ns| => ns[i].name)
  }

  /** `in_socket.links[0]` for each linked socket among the first `j` of `inputs` of node `name`. */
  function FirstLinks(links: seq<Link>, name: string, inputs: seq<Socket>, j: nat): seq<Link>
    requires j <= |inputs|
  {
    if j == 0 then []
    else
      FirstLinks(links, name, inputs, j - 1) +
      match FirstLinkInto(links, name, inputs[j - 1].identifier)
      case None => []
      case Some(l) => [l]
  }

  /** `node_output.links` for each of the first `j` of `outputs` of node `name`, one after another. */
  function OutgoingLinks(links: seq<Link>, name: string, outputs: seq<Socket>, j: nat): seq<Link>
    requires j <= |outputs|
  {
    if j == 0 then [] else OutgoingLinks(links, name, outputs, j - 1) + LinksFrom(links, name, outputs[j - 1].identifier)
  }

  /** The links the input loop looks at, for the first `a` selected nodes. */
  function InputCandidates(links: seq<Link>, sel: seq<Node>, a: nat): seq<Link>
    requires a <= |sel|
  {
    if a == 0 then []
    else InputCandidates(links, sel, a - 1) + FirstLinks(links, sel[a - 1].name, sel[a - 1].inputs, |sel[a - 1].inputs|)
  }

  /** The links the output loop looks at, for the first `a` selected nodes. */
  function OutputCandidates(links: seq<Link>, sel: seq<Node>, a: nat): seq<Link>
    requires a <= |sel|
  {
    if a == 0 then []
    else OutputCandidates(links, sel, a - 1) + OutgoingLinks(links, sel[a - 1].name, sel[a - 1].outputs, |sel[a - 1].outputs|)
  }

  /** The links of `s` whose from-node is not among `names`. */
  function FromOutside(names: seq<string>, s: seq<Link>): seq<Link> {
    if |s| == 0 then []
    else FromOutside(names, s[..|s| - 1]) + if s[|s| - 1].fromNode !in names then [s[|s| - 1]] else []
  }

  /** The links of `s` whose to-node is not among `names`. */
  function ToOutside(names: seq<string>, s: seq<Link>): seq<Link> {
    if |s| == 0 then []
    else ToOutside(names, s[..|s| - 1]) + if s[|s| - 1].toNode !in names then [s[|s| - 1]] else []
  }

  /** `external_links["inputs"]`. */
  function ExternalInputs(links: seq<Link>, sel: seq<Node>): seq<Link> {
    Dedup(FromOutside(Names(sel), InputCandidates(links, sel, |sel|)))
  }

  /** `external_links["outputs"]`. */
  function ExternalOutputs(links: seq<Link>, sel: seq<Node>): seq<Link> {
    Dedup(ToOutside(Names(sel), OutputCandidates(links, sel, |sel|)))
  }

  /** The first loop of `WFGroupNodesOperator.execute`: group inputs and outputs are deselected,
      and every node still selected is collected in tree order. */
  method SelectForGrouping(nodes: seq<Node>) returns (deselected: seq<Node>, selected: seq<Node>)
    ensures deselected == Deselected(nodes) && selected == SelectedNodes(nodes)
  {
    deselected := nodes;
    selected := [];
    for i := 0 to |nodes|
      invariant |deselected| == |nodes|
      invariant forall k | 0 <= k < |nodes| ::
                  deselected[k] == if k < i && IsGroupIo(nodes[k]) then nodes[k].(select := false) else nodes[k]
      invariant selected == SelectedNodes(nodes[..i])
    {
      assert nodes[..i + 1][..i] == nodes[..i];
      if IsGroupIo(deselected[i]) {
        deselected := deselected[i := deselected[i].(select := false)];
      }
      if deselected[i].select {
        selected := selected + [deselected[i]];
      }
    }
    assert nodes[..|nodes|] == nodes;
  }

  /** One more candidate: recorded when it comes from outside and is not recorded yet. */
  lemma FromOutsideSnoc(names: seq<string>, before: seq<Link>, l: Link)
    ensures var d := Dedup(FromOutside(names, before));
            Dedup(FromOutside(names, before + [l])) == if l.fromNode !in names && l !in d then d + [l] else d
  {
    assert (before + [l])[..|before|] == before;
    if l.fromNode !in names {
      var f := FromOutside(names, before);
      assert FromOutside(names, before + [l]) == f + [l];
      assert (f + [l])[..|f|] == f;
    } else {
      assert FromOutside(names, before + [l]) == FromOutside(names, before);
    }
  }

  /** One more candidate: recorded when it leads outside and is not recorded yet. */
  lemma ToOutsideSnoc(names: seq<string>, before: seq<Link>, l: Link)
    ensures var d := Dedup(ToOutside(names, before));
            Dedup(ToOutside(names, before + [l])) == if l.toNode !in names && l !in d then d + [l] else d
  {
    assert (before + [l])[..|before|] == before;
    if l.toNode !in names {
      var f := ToOutside(names, before);
      assert ToOutside(names, before + [l]) == f + [l];
      assert (f + [l])[..|f|] == f;
    } else {
      assert ToOutside(names, before + [l]) == ToOutside(names, before);
    }
  }

  /** `ins` after looking at one input's first link: the link is appended when there is one, it
      comes from outside the selection and it is not recorded yet. */
  function AdmitIncoming(names: seq<string>, ins: seq<Link>, link: Option<Link>): seq<Link> {
    if link.Some? && link.value.fromNode !in names && link.value !in ins then ins + [link.value] else ins
  }

  /** The input half of the boundary loop: each selected node's first link per linked input is
      recorded once when its from-node lies outside the selection. */
  method CollectExternalInputs(links: seq<Link>, selected: seq<Node>) returns (ins: seq<Link>)
    ensures ins == ExternalInputs(links, selected)
  {
    var names := Names(selected);
    ins := [];
    for a := 0 to |selected|
      invariant ins == Dedup(FromOutside(names, InputCandidates(links, selected, a)))
    {
      var node := selected[a];
      ghost var ins0 := ins;
      ins := RecordIncoming(names, links, node, ins);
      AdmittedFirstRecords(names, links, node.name, node.inputs, InputCandidates(links, selected, a), ins0, |node.inputs|);
    }
  }

  /** `ins` after the inner input loop has looked at the first `j` inputs of node `name`. */
  function AdmittedFirst(names: seq<string>, links: seq<Link>, name: string, inputs: seq<Socket>, ins: seq<Link>, j: nat): seq<Link>
    requires j <= |inputs|
  {
    if j == 0 then ins
    else AdmitIncoming(names, AdmittedFirst(names, links, name, inputs, ins, j - 1), FirstLinkInto(links, name, inputs[j - 1].identifier))
  }

  /** `ins` after admitting each link of `ls` in turn. */
  function AdmittedIncoming(names: seq<string>, ins: seq<Link>, ls: seq<Link>): seq<Link> {
    if |ls| == 0 then ins
    else AdmitIncoming(names, AdmittedIncoming(names, ins, ls[..|ls| - 1]), Some(ls[|ls| - 1]))
  }

  /** Admitting links one by one on top of the recorded candidates records them too. */
  lemma {:induction false} AdmittedIncomingRecords(names: seq<string>, before: seq<Link>, ins: seq<Link>, ls: seq<Link>)
    requires ins == Dedup(FromOutside(names, before))
    ensures AdmittedIncoming(names, ins, ls) == Dedup(FromOutside(names, before + ls))
  {
    if |ls| == 0 {
      assert before + ls == before;
    } else {
      var init, last := ls[..|ls| - 1], ls[|ls| - 1];
      AdmittedIncomingRecords(names, before, ins, init);
      assert before + ls == (before + init) + [last];
      FromOutsideSnoc(names, before + init, last);
    }
  }

  /** The inner input loop admits the node's first links, one input after another. */
  lemma {:induction false} AdmittedFirstFolds(names: seq<string>, links: seq<Link>, name: string, inputs: seq<Socket>,
                                              ins: seq<Link>, j: nat)
    requires j <= |inputs|
    ensures AdmittedFirst(names, links, name, inputs, ins, j) == AdmittedIncoming(names, ins, FirstLinks(links, name, inputs, j))
  {
    if j > 0 {
      AdmittedFirstFolds(names, links, name, inputs, ins, j - 1);
      var prev := FirstLinks(links, name, inputs, j - 1);
      match FirstLinkInto(links, name, inputs[j - 1].identifier)
      case None =>
        assert FirstLinks(links, name, inputs, j) == prev;
      case Some(l) =>
        assert FirstLinks(links, name, inputs, j) == prev + [l];
        assert (prev + [l])[..|prev|] == prev;
    }
  }

  /** Run from the candidates so far, the inner input loop records the node's first links on top
      of them. */
  lemma AdmittedFirstRecords(names: seq<string>, links: seq<Link>, name: string, inputs: seq<Socket>,
                             base: seq<Link>, ins: seq<Link>, j: nat)
    requires j <= |inputs| && ins == Dedup(FromOutside(names, base))
    ensures AdmittedFirst(names, links, name, inputs, ins, j) == Dedup(FromOutside(names, base + FirstLinks(links, name, inputs, j)))
  {
    AdmittedFirstFolds(names, links, name, inputs, ins, j);
    AdmittedIncomingRecords(names, base, ins, FirstLinks(links, name, inputs, j));
  }

  /** The inner input loop for one node: each linked input adds its first link as a candidate. */
  method RecordIncoming(names: seq<string>, links: seq<Link>, node: Node, ins: seq<Link>)
      returns (r: seq<Link>)
    ensures r == AdmittedFirst(names, links, node.name, node.inputs, ins, |node.inputs|)
  {
    r := ins;
    for j := 0 to |node.inputs|
      invariant r == AdmittedFirst(names, links, node.name, node.inputs, ins, j)
    {
      r := AdmitIncoming(names, r, FirstLinkInto(links, node.name, node.inputs[j].identifier));
    }
  }

  /** One more link of a socket's `links`, as the innermost loop sees it. */
  lemma ToOutsideStep(names: seq<string>, before: seq<Link>, s: seq<Link>, k: nat)
    requires k < |s|
    ensures var d := Dedup(ToOutside(names, before + s[..k]));
            Dedup(ToOutside(names, before + s[..k + 1])) == if s[k].toNode !in names && s[k] !in d then d + [s[k]] else d
  {
    assert before + s[..k + 1] == (before + s[..k]) + [s[k]];
    ToOutsideSnoc(names, before + s[..k], s[k]);
  }

  /** One link of `node_output.links`: recorded when it leads outside and is not recorded yet. */
  function AdmitOutgoing(names: seq<string>, outs: seq<Link>, link: Link): seq<Link> {
    if link.toNode !in names && link !in outs then outs + [link] else outs
  }

  /** `outs` after the innermost loop has looked at every link of `socketLinks`. */
  function AdmittedOutgoing(names: seq<string>, outs: seq<Link>, socketLinks: seq<Link>): seq<Link> {
    if |socketLinks| == 0 then outs
    else AdmitOutgoing(names, AdmittedOutgoing(names, outs, socketLinks[..|socketLinks| - 1]), socketLinks[|socketLinks| - 1])
  }

  /** Run from the candidates so far, the innermost loop records a socket's links on top of them. */
  lemma {:induction false} AdmittedOutgoingRecords(names: seq<string>, before: seq<Link>, outs: seq<Link>, socketLinks: seq<Link>)
    requires outs == Dedup(ToOutside(names, before))
    ensures AdmittedOutgoing(names, outs, socketLinks) == Dedup(ToOutside(names, before + socketLinks))
  {
    if |socketLinks| == 0 {
      assert before + socketLinks == before;
    } else {
      var n := |socketLinks| - 1;
      AdmittedOutgoingRecords(names, before, outs, socketLinks[..n]);
      ToOutsideStep(names, before, socketLinks, n);
      assert socketLinks[..n + 1] == socketLinks;
    }
  }

  /** The innermost loop over `node_output.links`: each link leading outside the selection is
      recorded unless it already is. */
  method RecordOutgoing(names: seq<string>, outs: seq<Link>, socketLinks: seq<Link>) returns (r: seq<Link>)
    ensures r == AdmittedOutgoing(names, outs, socketLinks)
  {
    r := outs;
    for k := 0 to |socketLinks|
      invariant r == AdmittedOutgoing(names, outs, socketLinks[..k])
    {
      var link := socketLinks[k];
      assert socketLinks[..k + 1][..k] == socketLinks[..k];
      if link.toNode !in names {
        if link !in r {
          r := r + [link];
        }
      }
    }
    assert socketLinks[..|socketLinks|] == socketLinks;
  }

  /** The output half of the boundary loop: every link out of a selected node's outputs is
      recorded once when its to-node lies outside the selection. */
  method CollectExternalOutputs(links: seq<Link>, selected: seq<Node>) returns (outs: seq<Link>)
    ensures outs == ExternalOutputs(links, selected)
  {
    var names := Names(selected);
    outs := [];
    for a := 0 to |selected|
      invariant outs == Dedup(ToOutside(names, OutputCandidates(links, selected, a)))
    {
      var node := selected[a];
      ghost var outs0 := outs;
      outs := RecordNodeOutgoing(names, links, node, outs);
      AdmittedOutputsRecords(names, links, node.name, node.outputs, OutputCandidates(links, selected, a), outs0, |node.outputs|);
    }
  }

  /** `outs` after the inner output loop has looked at the first `j` outputs of node `name`. */
  function AdmittedOutputs(names: seq<string>, links: seq<Link>, name: string, outputs: seq<Socket>, outs: seq<Link>, j: nat): seq<Link>
    requires j <= |outputs|
  {
    if j == 0 then outs
    else AdmittedOutgoing(names, AdmittedOutputs(names, links, name, outputs, outs, j - 1), LinksFrom(links, name, outputs[j - 1].identifier))
  }

  /** Admitting `a + b` is admitting `a`, then `b`. */
  lemma {:induction false} AdmittedOutgoingConcat(names: seq<string>, outs: seq<Link>, a: seq<Link>, b: seq<Link>)
    ensures AdmittedOutgoing(names, outs, a + b) == AdmittedOutgoing(names, AdmittedOutgoing(names, outs, a), b)
  {
    if |b| == 0 {
      assert a + b == a;
    } else {
      AdmittedOutgoingConcat(names, outs, a, b[..|b| - 1]);
      assert (a + b)[..|a + b| - 1] == a + b[..|b| - 1];
    }
  }

  /** The inner output loop admits the node's outgoing links, one output after another. */
  lemma {:induction false} AdmittedOutputsFolds(names: seq<string>, links: seq<Link>, name: string, outputs: seq<Socket>,
                                                outs: seq<Link>, j: nat)
    requires j <= |outputs|
    ensures AdmittedOutputs(names, links, name, outputs, outs, j) == AdmittedOutgoing(names, outs, OutgoingLinks(links, name, outputs, j))
  {
    if j > 0 {
      AdmittedOutputsFolds(names, links, name, outputs, outs, j - 1);
      AdmittedOutgoingConcat(names, outs, OutgoingLinks(links, name, outputs, j - 1), LinksFrom(links, name, outputs[j - 1].identifier));
    }
  }

  /** Run from the candidates so far, the inner output loop records the node's outgoing links on
      top of them. */
  lemma AdmittedOutputsRecords(names: seq<string>, links: seq<Link>, name: string, outputs: seq<Socket>,
                               base: seq<Link>, outs: seq<Link>, j: nat)
    requires j <= |outputs| && outs == Dedup(ToOutside(names, base))
    ensures AdmittedOutputs(names, links, name, outputs, outs, j) == Dedup(ToOutside(names, base + OutgoingLinks(links, name, outputs, j)))
  {
    AdmittedOutputsFolds(names, links, name, outputs, outs, j);
    AdmittedOutgoingRecords(names, base, outs, OutgoingLinks(links, name, outputs, j));
  }

  /** The inner output loop for one node: the links of each output, one output after another. */
  method RecordNodeOutgoing(names: seq<string>, links: seq<Link>, node: Node, outs: seq<Link>)
      returns (r: seq<Link>)
    ensures r == AdmittedOutputs(names, links, node.name, node.outputs, outs, |node.outputs|)
  {
    r := outs;
    for j := 0 to |node.outputs|
      invariant r == AdmittedOutputs(names, links, node.name, node.outputs, outs, j)
    {
      r := RecordOutgoing(names, r, LinksFrom(links, node.name, node.outputs[j].identifier));
    }
  }

  /** Exactly the selected nodes other than group inputs and outputs are grouped. */
  lemma {:induction false} SelectedNodesMember(nodes: seq<Node>, n: Node)
    ensures n in SelectedNodes(nodes) <==> n in nodes && n.select && !IsGroupIo(n)
  {
    if |nodes| > 0 {
      SelectedNodesMember(nodes[..|nodes| - 1], n);
      assert nodes == nodes[..|nodes| - 1] + [nodes[|nodes| - 1]];
    }
  }

  lemma {:induction false} FromOutsideMember(names: seq<string>, s: seq<Link>, l: Link)
    ensures l in FromOutside(names, s) <==> l in s && l.fromNode !in names
  {
    if |s| > 0 {
      FromOutsideMember(names, s[..|s| - 1], l);
      assert s == s[..|s| - 1] + [s[|s| - 1]];
    }
  }

  lemma {:induction false} ToOutsideMember(names: seq<string>, s: seq<Link>, l: Link)
    ensures l in ToOutside(names, s) <==> l in s && l.toNode !in names
  {
    if |s| > 0 {
      ToOutsideMember(names, s[..|s| - 1], l);
      assert s == s[..|s| - 1] + [s[|s| - 1]];
    }
  }

  /** `l` is the first link into input `k` of the node named `name` with inputs `inputs`. */
  predicate FirstLinkAt(links: seq<Link>, name: string, inputs: seq<Socket>, k: int, l: Link) {
    0 <= k < |inputs| && FirstLinkInto(links, name, inputs[k].identifier) == Some(l)
  }

  lemma FirstLinksMember(links: seq<Link>, name: string, inputs: seq<Socket>, j: nat, l: Link)
    requires j <= |inputs|
    ensures l in FirstLinks(links, name, inputs, j) <==> exists k | 0 <= k < j :: FirstLinkAt(links, name, inputs, k, l)
  {
    if l in FirstLinks(links, name, inputs, j) {
      FirstLinksSound(links, name, inputs, j, l);
    }
    if k :| 0 <= k < j && FirstLinkAt(links, name, inputs, k, l) {
      FirstLinksComplete(links, name, inputs, j, k, l);
    }
  }

  lemma {:induction false} FirstLinksSound(links: seq<Link>, name: string, inputs: seq<Socket>, j: nat, l: Link)
    requires j <= |inputs| && l in FirstLinks(links, name, inputs, j)
    ensures exists k | 0 <= k < j :: FirstLinkAt(links, name, inputs, k, l)
  {
    var prev := FirstLinks(links, name, inputs, j - 1);
    if l in prev {
      FirstLinksSound(links, name, inputs, j - 1, l);
      var k :| 0 <= k < j - 1 && FirstLinkAt(links, name, inputs, k, l);
      assert 0 <= k < j;
    } else {
      assert FirstLinkAt(links, name, inputs, j - 1, l);
    }
  }

  lemma {:induction false} FirstLinksComplete(links: seq<Link>, name: string, inputs: seq<Socket>, j: nat, k: nat, l: Link)
    requires k < j <= |inputs| && FirstLinkAt(links, name, inputs, k, l)
    ensures l in FirstLinks(links, name, inputs, j)
  {
    if k < j - 1 {
      FirstLinksComplete(links, name, inputs, j - 1, k, l);
    }
  }

  lemma {:induction false} InputCandidatesMember(links: seq<Link>, sel: seq<Node>, a: nat, l: Link)
    requires a <= |sel|
    ensures l in InputCandidates(links, sel, a) <==>
            exists b, k | 0 <= b < a :: FirstLinkAt(links, sel[b].name, sel[b].inputs, k, l)
  {
    if l in InputCandidates(links, sel, a) {
      InputCandidatesSound(links, sel, a, l);
    }
    if b, k :| 0 <= b < a && FirstLinkAt(links, sel[b].name, sel[b].inputs, k, l) {
      InputCandidatesComplete(links, sel, a, b, k, l);
    }
  }

  lemma {:induction false} InputCandidatesSound(links: seq<Link>, sel: seq<Node>, a: nat, l: Link)
    requires a <= |sel|
    requires l in InputCandidates(links, sel, a)
    ensures exists b, k | 0 <= b < a :: FirstLinkAt(links, sel[b].name, sel[b].inputs, k, l)
  {
    var last := sel[a - 1];
    var tail := FirstLinks(links, last.name, last.inputs, |last.inputs|);
    if l in tail {
      FirstLinksMember(links, last.name, last.inputs, |last.inputs|, l);
      var k :| 0 <= k < |last.inputs| && FirstLinkAt(links, last.name, last.inputs, k, l);
      assert FirstLinkAt(links, sel[a - 1].name, sel[a - 1].inputs, k, l);
    } else {
      InputCandidatesSound(links, sel, a - 1, l);
      var b, k :| 0 <= b < a - 1 && FirstLinkAt(links, sel[b].name, sel[b].inputs, k, l);
      assert 0 <= b < a;
    }
  }

  lemma {:induction false} InputCandidatesComplete(links: seq<Link>, sel: seq<Node>, a: nat, b: nat, k: int, l: Link)
    requires b < a <= |sel|
    requires FirstLinkAt(links, sel[b].name, sel[b].inputs, k, l)
    ensures l in InputCandidates(links, sel, a)
  {
    var last := sel[a - 1];
    if b == a - 1 {
      assert FirstLinkAt(links, last.name, last.inputs, k, l);
      FirstLinksMember(links, last.name, last.inputs, |last.inputs|, l);
    } else {
      InputCandidatesComplete(links, sel, a - 1, b, k, l);
    }
  }

  /** The recorded external inputs are, once each, the first links into the inputs of grouped
      nodes that come from nodes left outside the group. */
  lemma ExternalInputsMember(links: seq<Link>, sel: seq<Node>, l: Link)
    ensures NoDups(ExternalInputs(links, sel))
    ensures l in ExternalInputs(links, sel) <==>
            && l.fromNode !in Names(sel)
            && exists b, k | 0 <= b < |sel| :: FirstLinkAt(links, sel[b].name, sel[b].inputs, k, l)
  {
    var cands := InputCandidates(links, sel, |sel|);
    DedupNoDups(FromOutside(Names(sel), cands));
    DedupMember(FromOutside(Names(sel), cands), l);
    FromOutsideMember(Names(sel), cands, l);
    InputCandidatesMember(links, sel, |sel|, l);
  }

  lemma {:induction false} OutgoingLinksMember(links: seq<Link>, name: string, outputs: seq<Socket>, j: nat, l: Link)
    requires j <= |outputs|
    ensures l in OutgoingLinks(links, name, outputs, j) <==>
            l in links && l.fromNode == name && exists k | 0 <= k < j :: outputs[k].identifier == l.fromSocket
  {
    if j > 0 {
      OutgoingLinksMember(links, name, outputs, j - 1, l);
      if k :| 0 <= k < j && outputs[k].identifier == l.fromSocket {
        if k < j - 1 {
          assert exists k' | 0 <= k' < j - 1 :: outputs[k'].identifier == l.fromSocket;
        }
      }
    }
  }

  lemma {:induction false} OutputCandidatesMember(links: seq<Link>, sel: seq<Node>, a: nat, l: Link)
    requires a <= |sel|
    ensures l in OutputCandidates(links, sel, a) <==>
            l in links && exists b, k | 0 <= b < a && 0 <= k < |sel[b].outputs| ::
              l.fromNode == sel[b].name && l.fromSocket == sel[b].outputs[k].identifier
  {
    if a > 0 {
      OutputCandidatesMember(links, sel, a - 1, l);
      var last := sel[a - 1];
      OutgoingLinksMember(links, last.name, last.outputs, |last.outputs|, l);
      if b, k :| 0 <= b < a && 0 <= k < |sel[b].outputs| && l.fromNode == sel[b].name && l.fromSocket == sel[b].outputs[k].identifier {
        if b < a - 1 {
          assert l in links ==> l in OutputCandidates(links, sel, a - 1);
        }
      }
    }
  }

  /** The recorded external outputs are, once each, the links of the tree that leave an output of
      a grouped node for a node left outside the group. */
  lemma ExternalOutputsMember(links: seq<Link>, sel: seq<Node>, l: Link)
    ensures NoDups(ExternalOutputs(links, sel))
    ensures l in ExternalOutputs(links, sel) <==>
            && l in links && l.toNode !in Names(sel)
            && exists b, k | 0 <= b < |sel| && 0 <= k < |sel[b].outputs| ::
                 l.fromNode == sel[b].name && l.fromSocket == sel[b].outputs[k].identifier
  {
    var cands := OutputCandidates(links, sel, |sel|);
    DedupNoDups(ToOutside(Names(sel), cands));
    DedupMember(ToOutside(Names(sel), cands), l);
    ToOutsideMember(Names(sel), cands, l);
    OutputCandidatesMember(links, sel, |sel|, l);
  }

  // ---------------------------------------------------------------------------------------------
  // WFGroupNodesOperator.execute: the edits of the base tree

  /** The group node `base_node_tree.nodes.new("WFNodeGroup")` creates (selected, as the host
      creates nodes), showing tree `tree`; its sockets come from `update`. */
  function GroupNodeFor(name: string, tree: nat): Node {
    Node(name, GROUP_NODE, {GROUP_NODE}, [], [], true, false, NoColor, "", Some(tree))
  }

  predicate AllResolve(nodes: seq<Node>, ls: seq<Link>) {
    forall k | 0 <= k < |ls| :: Resolves(nodes, ls[k])
  }

  /** The boundary links are links of the tree, so they resolve when the tree is well formed. */
  lemma ExternalLinksResolve(nodes: seq<Node>, links: seq<Link>, sel: seq<Node>)
    requires WellFormed(nodes, links)
    ensures AllResolve(nodes, ExternalInputs(links, sel)) && AllResolve(nodes, ExternalOutputs(links, sel))
  {
    forall k | 0 <= k < |ExternalInputs(links, sel)|
      ensures Resolves(nodes, ExternalInputs(links, sel)[k])
    {
      var l := ExternalInputs(links, sel)[k];
      ExternalInputsMember(links, sel, l);
      var b, j :| 0 <= b < |sel| && FirstLinkAt(links, sel[b].name, sel[b].inputs, j, l);
      var i :| 0 <= i < |links| && links[i] == l;
    }
    forall k | 0 <= k < |ExternalOutputs(links, sel)|
      ensures Resolves(nodes, ExternalOutputs(links, sel)[k])
    {
      var l := ExternalOutputs(links, sel)[k];
      ExternalOutputsMember(links, sel, l);
      var i :| 0 <= i < |links| && links[i] == l;
    }
  }

  /** `link.from_node.outputs[link.from_socket.name]`: found, since the link's own socket has that name. */
  function NamedOutput(nodes: seq<Node>, l: Link): (r: Socket)
    requires Resolves(nodes, l)
    ensures r.name == FromSocket(nodes, l).name
  {
    var n := nodes[NodeIndex(nodes, l.fromNode).value];
    assert n.outputs[SocketIndex(n.outputs, l.fromSocket).value] == FromSocket(nodes, l);
    SocketNamed(n.outputs, FromSocket(nodes, l).name).value
  }

  /** `link.to_node.inputs[link.to_socket.name]`: found, since the link's own socket has that name. */
  function NamedInput(nodes: seq<Node>, l: Link): (r: Socket)
    requires Resolves(nodes, l)
    ensures r.name == ToSocket(nodes, l).name
  {
    var n := nodes[NodeIndex(nodes, l.toNode).value];
    assert n.inputs[SocketIndex(n.inputs, l.toSocket).value] == ToSocket(nodes, l);
    SocketNamed(n.inputs, ToSocket(nodes, l).name).value
  }

  /** The base-tree links that replace the external inputs: from the same output, by name, into
      the group node's input named after the old to-socket. */
  function RewiredInputs(nodes: seq<Node>, ins: seq<Link>, group: string): seq<Link>
    requires AllResolve(nodes, ins)
  {
    seq(|ins|, k requires 0 <= k < |ins| =>
      Link(ins[k].fromNode, NamedOutput(nodes, ins[k]).identifier, group, ToSocket(nodes, ins[k]).name, true))
  }

  /** The base-tree links that replace the external outputs: from the group node's output named
      after the old from-socket into the same input, by name. */
  function RewiredOutputs(nodes: seq<Node>, outs: seq<Link>, group: string): seq<Link>
    requires AllResolve(nodes, outs)
  {
    seq(|outs|, k requires 0 <= k < |outs| =>
      Link(group, FromSocket(nodes, outs[k]).name, outs[k].toNode, NamedInput(nodes, outs[k]).identifier, true))
  }

  /** The link limits of the group node's inputs the re-made input links go into: the sockets the
      interface sync copies onto the group node take the host's default of one link. */
  function InputLimits(n: nat): (r: seq<nat>)
    ensures |r| == n && forall k | 0 <= k < n :: r[k] == DEFAULT_LINK_LIMIT
  {
    seq(n, k => DEFAULT_LINK_LIMIT)
  }

  /** The link limits of the outside inputs the re-made output links go into. */
  function OutputLimits(nodes: seq<Node>, outs: seq<Link>): (r: seq<nat>)
    requires AllResolve(nodes, outs)
    ensures |r| == |outs| && forall k | 0 <= k < |outs| :: r[k] == NamedInput(nodes, outs[k]).linkLimit
  {
    seq(|outs|, k requires 0 <= k < |outs| => NamedInput(nodes, outs[k]).linkLimit)
  }

  /** The base tree's links after the two `base_node_tree.links.new` loops: the re-made input
      links first, then the re-made output links, each evicting the links of a to-socket that is
      full. */
  function Relinked(nodes: seq<Node>, links: seq<Link>, ins: seq<Link>, outs: seq<Link>, group: string): seq<Link>
    requires AllResolve(nodes, ins) && AllResolve(nodes, outs)
  {
    LinkAll(LinkAll(links, RewiredInputs(nodes, ins, group), InputLimits(|ins|)),
            RewiredOutputs(nodes, outs, group), OutputLimits(nodes, outs))
  }

  /** `node_group.interface.new_socket(name=..., socket_type=...)` for each external input. */
  function InterfaceInputs(nodes: seq<Node>, ins: seq<Link>): seq<Socket>
    requires AllResolve(nodes, ins)
  {
    seq(|ins|, k requires 0 <= k < |ins| => NewSocket(ToSocket(nodes, ins[k]).idname, ToSocket(nodes, ins[k]).name))
  }

  /** `node_group.interface.new_socket(name=..., socket_type=...)` for each external output. */
  function InterfaceOutputs(nodes: seq<Node>, outs: seq<Link>): seq<Socket>
    requires AllResolve(nodes, outs)
  {
    seq(|outs|, k requires 0 <= k < |outs| => NewSocket(FromSocket(nodes, outs[k]).idname, FromSocket(nodes, outs[k]).name))
  }

  /** `nodes.remove(node)` for each node named in `names`. */
  function WithoutNodes(nodes: seq<Node>, names: seq<string>): seq<Node> {
    if |nodes| == 0 then []
    else WithoutNodes(nodes[..|nodes| - 1], names) + if nodes[|nodes| - 1].name in names then [] else [nodes[|nodes| - 1]]
  }

  /** The links that survive removing the nodes named in `names`: the host drops every link of a
      removed node. */
  function LinksAvoiding(links: seq<Link>, names: seq<string>): seq<Link> {
    if |links| == 0 then []
    else
      var l := links[|links| - 1];
      LinksAvoiding(links[..|links| - 1], names) + if l.fromNode in names || l.toNode in names then [] else [l]
  }

  lemma {:induction false} LinksAvoidingAppend(a: seq<Link>, b: seq<Link>, names: seq<string>)
    ensures LinksAvoiding(a + b, names) == LinksAvoiding(a, names) + LinksAvoiding(b, names)
    decreases |b|
  {
    if |b| > 0 {
      assert (a + b)[..|a + b| - 1] == a + b[..|b| - 1];
      LinksAvoidingAppend(a, b[..|b| - 1], names);
    } else {
      assert a + b == a;
    }
  }

  lemma {:induction false} LinksAvoidingKeeps(links: seq<Link>, names: seq<string>)
    requires forall k | 0 <= k < |links| :: links[k].fromNode !in names && links[k].toNode !in names
    ensures LinksAvoiding(links, names) == links
  {
    if |links| > 0 {
      LinksAvoidingKeeps(links[..|links| - 1], names);
    }
  }

  lemma {:induction false} NamesOfSelected(nodes: seq<Node>, x: string)
    ensures x in Names(SelectedNodes(nodes)) ==> exists i | 0 <= i < |nodes| :: nodes[i].name == x
  {
    if x in Names(SelectedNodes(nodes)) {
      var k :| 0 <= k < |SelectedNodes(nodes)| && SelectedNodes(nodes)[k].name == x;
      SelectedNodesMember(nodes, SelectedNodes(nodes)[k]);
    }
  }

  /** The re-made links touch only the group node and nodes left outside the group, so removing
      the grouped nodes keeps them. */
  lemma {:induction false} RewiredLinksSurvive(nodes: seq<Node>, links: seq<Link>, sel: seq<Node>, group: string)
    requires AllResolve(nodes, ExternalInputs(links, sel)) && AllResolve(nodes, ExternalOutputs(links, sel))
    requires group !in Names(sel)
    ensures var rewired := RewiredInputs(nodes, ExternalInputs(links, sel), group)
                           + RewiredOutputs(nodes, ExternalOutputs(links, sel), group);
            LinksAvoiding(rewired, Names(sel)) == rewired
  {
    var ins := ExternalInputs(links, sel);
    var outs := ExternalOutputs(links, sel);
    var rewired := RewiredInputs(nodes, ins, group) + RewiredOutputs(nodes, outs, group);
    forall k | 0 <= k < |rewired|
      ensures rewired[k].fromNode !in Names(sel) && rewired[k].toNode !in Names(sel)
    {
      if k < |ins| {
        ExternalInputsMember(links, sel, ins[k]);
      } else {
        ExternalOutputsMember(links, sel, outs[k - |ins|]);
      }
    }
    LinksAvoidingKeeps(rewired, Names(sel));
  }

  /** Removing nodes and then taking the links into a socket is taking them and then removing. */
  lemma {:induction false} LinksIntoAvoiding(links: seq<Link>, names: seq<string>, node: string, socket: string)
    ensures LinksInto(LinksAvoiding(links, names), node, socket) == LinksAvoiding(LinksInto(links, node, socket), names)
  {
    if |links| > 0 {
      var init, l := links[..|links| - 1], links[|links| - 1];
      var into := (x: Link) => x.toNode == node && x.toSocket == socket;
      LinksIntoAvoiding(init, names, node, socket);
      var kept := if l.fromNode in names || l.toNode in names then [] else [l];
      FilterConcat(into, LinksAvoiding(init, names), kept);
      var f := LinksInto(links, node, socket);
      if into(l) {
        assert f[..|f| - 1] == LinksInto(init, node, socket) && f[|f| - 1] == l;
      } else {
        assert f == LinksInto(init, node, socket);
      }
    }
  }

  /** No link of a well-formed tree ends at a node the tree does not have. */
  lemma NothingIntoMissingNode(nodes: seq<Node>, links: seq<Link>, node: string, socket: string)
    requires WellFormed(nodes, links) && NodeIndex(nodes, node).None?
    ensures LinksInto(links, node, socket) == []
  {
    forall k | 0 <= k < |links|
      ensures !EndsAt(links[k], node, socket)
    {
      assert Resolves(nodes, links[k]);
    }
    FilterNone((x: Link) => x.toNode == node && x.toSocket == socket, links);
  }

  /** The two relinking loops leave an input of the new group node, which had no link, with the
      re-made input link of the last boundary link resolving to it by name, or with none. */
  lemma RelinkedIntoGroup(nodes: seq<Node>, links: seq<Link>, ins: seq<Link>, outs: seq<Link>, group: string, socket: string)
    requires AllResolve(nodes, ins) && AllResolve(nodes, outs) && NodeIndex(nodes, group).None?
    requires LinksInto(links, group, socket) == []
    ensures var rewired := RewiredInputs(nodes, ins, group);
            LinksInto(Relinked(nodes, links, ins, outs, group), group, socket) ==
              match LastLinkInto(rewired, group, socket)
              case Some(j) => [rewired[j]]
              case None => []
  {
    var rewired := RewiredInputs(nodes, ins, group);
    var outsRewired := RewiredOutputs(nodes, outs, group);
    LinkAllInto(links, rewired, InputLimits(|ins|), group, socket);
    forall k | 0 <= k < |outs|
      ensures !EndsAt(outsRewired[k], group, socket)
    {
      assert Resolves(nodes, outs[k]);
    }
    LinkAllInto(LinkAll(links, rewired, InputLimits(|ins|)), outsRewired, OutputLimits(nodes, outs), group, socket);
  }

  /** Grouping leaves each input of the group node with one link at most: the re-made input link
      of the last boundary link that resolves to it by name. Earlier ones into the same socket are
      evicted, since a group node input takes one link. */
  lemma GroupInputKeepsLastLink(nodes: seq<Node>, links: seq<Link>, group: string, socket: string)
    requires WellFormed(nodes, links) && NodeIndex(nodes, group).None?
    ensures var sel := SelectedNodes(nodes);
            var ins := ExternalInputs(links, sel);
            var outs := ExternalOutputs(links, sel);
            (ExternalLinksResolve(nodes, links, sel);
             var rewired := RewiredInputs(nodes, ins, group);
             LinksInto(LinksAvoiding(Relinked(nodes, links, ins, outs, group), Names(sel)), group, socket) ==
               match LastLinkInto(rewired, group, socket)
               case Some(j) => [rewired[j]]
               case None => [])
  {
    var sel := SelectedNodes(nodes);
    var ins := ExternalInputs(links, sel);
    var outs := ExternalOutputs(links, sel);
    ExternalLinksResolve(nodes, links, sel);
    var rewired := RewiredInputs(nodes, ins, group);
    NothingIntoMissingNode(nodes, links, group, socket);
    RelinkedIntoGroup(nodes, links, ins, outs, group, socket);
    LinksIntoAvoiding(Relinked(nodes, links, ins, outs, group), Names(sel), group, socket);
    NamesOfSelected(nodes, group);
    match LastLinkInto(rewired, group, socket)
    case Some(j) =>
      ExternalInputsMember(links, sel, ins[j]);
      assert [rewired[j]][..0] == [];
    case None =>
  }

  lemma WithoutNodesSnoc(nodes: seq<Node>, n: Node, names: seq<string>)
    requires n.name !in names
    ensures WithoutNodes(nodes + [n], names) == WithoutNodes(nodes, names) + [n]
  {
    assert (nodes + [n])[..|nodes|] == nodes;
  }

  /** `WFGroupNodesOperator.execute` on the base tree `t` shown at the end of `path`: the
      selection and boundary links are collected, a group node showing the new tree `groupTree` is
      added and entered, each boundary link is re-made through the group node, and the grouped
      nodes are removed with their links. Returns the interface sockets created on the new tree. */
  method GroupNodes(t: NodeTree, path: EditorPath, groupName: string, groupTree: nat)
      returns (interfaceInputs: seq<Socket>, interfaceOutputs: seq<Socket>)
    requires WellFormed(t.nodes, t.links) && NodeIndex(t.nodes, groupName).None?
    modifies t, path
    ensures var sel := SelectedNodes(old(t.nodes));
            var ins := ExternalInputs(old(t.links), sel);
            var outs := ExternalOutputs(old(t.links), sel);
            (ExternalLinksResolve(old(t.nodes), old(t.links), sel);
             && t.nodes == WithoutNodes(Deselected(old(t.nodes)), Names(sel)) + [GroupNodeFor(groupName, groupTree)]
             && t.links == LinksAvoiding(Relinked(old(t.nodes), old(t.links), ins, outs, groupName), Names(sel))
             && interfaceInputs == InterfaceInputs(old(t.nodes), ins)
             && interfaceOutputs == InterfaceOutputs(old(t.nodes), outs))
    ensures path.trees == old(path.trees) + [groupTree]
  {
    var nodes, links;
    nodes, links, interfaceInputs, interfaceOutputs := RegroupTree(t.nodes, t.links, groupName, groupTree);
    path.trees := path.trees + [groupTree];
    t.nodes, t.links := nodes, links;
  }

  /** The tree edits of `WFGroupNodesOperator.execute`, on the base tree's nodes and links. */
  method RegroupTree(nodes: seq<Node>, links: seq<Link>, groupName: string, groupTree: nat)
      returns (newNodes: seq<Node>, newLinks: seq<Link>, interfaceInputs: seq<Socket>, interfaceOutputs: seq<Socket>)
    requires WellFormed(nodes, links) && NodeIndex(nodes, groupName).None?
    ensures var sel := SelectedNodes(nodes);
            var ins := ExternalInputs(links, sel);
            var outs := ExternalOutputs(links, sel);
            (ExternalLinksResolve(nodes, links, sel);
             && newNodes == WithoutNodes(Deselected(nodes), Names(sel)) + [GroupNodeFor(groupName, groupTree)]
             && newLinks == LinksAvoiding(Relinked(nodes, links, ins, outs, groupName), Names(sel))
             && interfaceInputs == InterfaceInputs(nodes, ins)
             && interfaceOutputs == InterfaceOutputs(nodes, outs))
  {
    var deselected, selected := SelectForGrouping(nodes);
    var ins := CollectExternalInputs(links, selected);
    var outs := CollectExternalOutputs(links, selected);
    ExternalLinksResolve(nodes, links, selected);
    var names := Names(selected);
    NamesOfSelected(nodes, groupName);
    var groupNode := GroupNodeFor(groupName, groupTree);
    interfaceInputs := InterfaceInputs(nodes, ins);
    interfaceOutputs := InterfaceOutputs(nodes, outs);
    var relinked := LinkEach(links, RewiredInputs(nodes, ins, groupName), InputLimits(|ins|));
    relinked := LinkEach(relinked, RewiredOutputs(nodes, outs, groupName), OutputLimits(nodes, outs));
    WithoutNodesSnoc(deselected, groupNode, names);
    newNodes := WithoutNodes(deselected + [groupNode], names);
    newLinks := LinksAvoiding(relinked, names);
  }

  /** Grouping keeps every group input and output node (deselected) and removes every node it
      groups. */
  lemma GroupingKeepsIoNodes(nodes: seq<Node>, i: nat)
    requires UniqueNames(nodes) && i < |nodes|
    ensures var sel := Names(SelectedNodes(nodes));
            var kept := WithoutNodes(Deselected(nodes), sel);
            && (IsGroupIo(nodes[i]) ==> nodes[i].(select := false) in kept)
            && (nodes[i].select && !IsGroupIo(nodes[i]) ==> forall k | 0 <= k < |kept| :: kept[k].name != nodes[i].name)
  {
    var sel := Names(SelectedNodes(nodes));
    WithoutNodesMember(Deselected(nodes), sel);
    if IsGroupIo(nodes[i]) {
      forall k | 0 <= k < |sel|
        ensures sel[k] != nodes[i].name
      {
        var n := SelectedNodes(nodes)[k];
        SelectedNodesMember(nodes, n);
        var j :| 0 <= j < |nodes| && nodes[j] == n;
        assert j != i;
      }
      assert Deselected(nodes)[i] == nodes[i].(select := false);
    }
    if nodes[i].select && !IsGroupIo(nodes[i]) {
      SelectedNodesMember(nodes, nodes[i]);
      var k :| 0 <= k < |SelectedNodes(nodes)| && SelectedNodes(nodes)[k] == nodes[i];
      assert sel[k] == nodes[i].name;
    }
  }

  lemma {:induction false} WithoutNodesMember(nodes: seq<Node>, names: seq<string>)
    ensures forall n :: n in WithoutNodes(nodes, names) <==> n in nodes && n.name !in names
  {
    if |nodes| > 0 {
      WithoutNodesMember(nodes[..|nodes| - 1], names);
      assert nodes == nodes[..|nodes| - 1] + [nodes[|nodes| - 1]];
    }
  }

  // ---------------------------------------------------------------------------------------------
  // WFToggleEditGroupOperator.execute

  /** The node editor's path (`space_data.path`): the trees entered, from the base tree on. */
  class EditorPath {
    var trees: seq<nat>

    constructor (base: nat)
      ensures trees == [base]
    {
      trees := [base];
    }
  }

  /** `hasattr(node, "node_tree")`: of the add-on's nodes only the group node has one. */
  predicate HasNodeTree(n: Node) {
    n.idname == GROUP_NODE
  }

  /** `WFToggleEditGroupOperator.execute` with the path `trees` and the active node `active` of
      the tree shown: the operator's outcome and the new path. */
  function Toggled(trees: seq<nat>, active: Option<Node>): (r: (Result<OperatorResult>, seq<nat>))
    ensures r.0 == Ok(Finished) <==>
            active.Some? && HasNodeTree(active.value) && active.value.select && active.value.nodeTree.Some?
    ensures r.0 == Ok(Finished) ==> r.1 == trees + [active.value.nodeTree.value]
    ensures r.0 == Ok(Cancelled) ==> r.1 == if |trees| > 1 then trees[..|trees| - 1] else trees
    ensures r.0.Err? ==> r.1 == trees
    ensures |trees| >= 1 ==> |r.1| >= 1
  {
    if active.Some? && HasNodeTree(active.value) && active.value.select then
      match active.value.nodeTree
      case None => (Err(TypeError("path.append() needs a node tree")), trees)
      case Some(tree) => (Ok(Finished), trees + [tree])
    else if |trees| > 1 then (Ok(Cancelled), trees[..|trees| - 1])
    else (Ok(Cancelled), trees)
  }

  method ToggleEditGroup(path: EditorPath, active: Option<Node>) returns (r: Result<OperatorResult>)
    modifies path
    ensures (r, path.trees) == Toggled(old(path.trees), active)
  {
    if active.Some? && HasNodeTree(active.value) && active.value.select {
      match active.value.nodeTree
      case None =>
        return Err(TypeError("path.append() needs a node tree"));
      case Some(tree) =>
        path.trees := path.trees + [tree];
        return Ok(Finished);
    } else if |path.trees| > 1 {
      path.trees := path.trees[..|path.trees| - 1];
    }
    return Ok(Cancelled);
  }
}
