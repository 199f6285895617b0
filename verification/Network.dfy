/**
 * Any number of nodes and the messages between them.  Node g's guid is g.  The network
 * keeps messages in no order, may lose them, and delivers each at most once.
 */
module Network {
  import opened Bytes
  import opened Cryptography
  import opened ConnectionRequests
  import opened ConnectionControllers
  import opened Sessions

  datatype System = System(nodes: seq<Node>, net: seq<Message>)

  /**
   * A send names the members of its session, and a peer is added to a session by place,
   * so that both cover sessions that were removed from the list but are still in use.  An
   * emission and a tick look one peer up, which the node's peer store may not know.  A tick
   * that finds no message is an event of its own.
   */
  datatype Event =
    | NewSession(g: Guid, remote: Guid, id: ConnId, ch: Chance)
    | AddPeer(g: Guid, si: nat, remote: Guid, id: ConnId, ch: Chance)
    | Send(g: Guid, members: seq<ConnId>, mem: seq<Byte>, len: nat, tails: seq<seq<Byte>>)
    | RemoveSession(g: Guid, sid: nat)
    | RemoveMember(g: Guid, si: nat, c: ConnId)
    | Emit(g: Guid, known: bool)
    | Deliver(i: nat)
    | Drop(i: nat)
    | Tick(g: Guid, known: bool, ch: Chance)
    | IdleTick(g: Guid, known: bool, ch: Chance)

  function EmptyNode(g: Guid): Node {
    Node(Controller(g, [], [], []), [], [], [], None)
  }

  function Init(n: nat): System {
    System(seq(n, g requires 0 <= g < n => EmptyNode(g)), [])
  }

  /** A lookup that finds every peer on the network. */
  function Resolve(n: nat): Lookup {
    g => if g < n then Some(g) else None
  }

  function Found(known: bool, n: nat): Lookup {
    if known then Resolve(n) else (g => None)
  }

  predicate FreshId(s: System, id: ConnId) {
    forall g :: 0 <= g < |s.nodes| ==> Find(s.nodes[g].k.conns, id).None?
  }

  predicate FreshSid(n: Node, sid: nat) {
    forall i :: 0 <= i < |n.sessions| ==> n.sessions[i].sid != sid
  }

  predicate Alive(s: System, g: Guid) {
    g < |s.nodes| && s.nodes[g].halted.None?
  }

  predicate CanInitiate(s: System, g: Guid, remote: Guid, id: ConnId) {
    Alive(s, g) && remote < |s.nodes| && remote != g && FreshId(s, id)
  }

  predicate Enabled(s: System, e: Event) {
    match e
    case NewSession(g, remote, id, ch) => CanInitiate(s, g, remote, id) && FreshSid(s.nodes[g], ch.sid)
    case AddPeer(g, si, remote, id, ch) => CanInitiate(s, g, remote, id)
    case Send(g, members, mem, len, tails) => Alive(s, g) && len < |mem|
    case RemoveSession(g, sid) => Alive(s, g)
    case RemoveMember(g, si, c) => Alive(s, g) && si < |s.nodes[g].sessions|
    case Emit(g, known) => Alive(s, g) && s.nodes[g].k.outq != []
    case Deliver(i) => i < |s.net| && s.net[i].recipient < |s.nodes|
    case Drop(i) => i < |s.net|
    case Tick(g, known, ch) => Alive(s, g) && s.nodes[g].k.inq != [] && FreshSid(s.nodes[g], ch.sid)
    case IdleTick(g, known, ch) => Alive(s, g) && s.nodes[g].k.inq == []
  }

  /** internal_connection_control_emitter takes the message; an unknown recipient crashes it. */
  function Emitted(n: Node, lookup: Lookup): Node
    requires n.k.outq != []
  {
    if lookup(n.k.outq[0].recipient).None? then n.(halted := Some(UnknownPeer))
    else n.(k := n.k.(outq := n.k.outq[1..]))
  }

  function Received(n: Node, m: Message): Node {
    n.(k := n.k.(inq := n.k.inq + [m]))
  }

  /** The node an event happens at, after it. */
  function NodeAfter(des: Cipher, s: System, e: Event): Node
    requires Enabled(s, e) && !e.Deliver? && !e.Drop?
  {
    var n := s.nodes[e.g];
    match e
    case NewSession(_, remote, id, ch) => SessionCreated(n, remote, id, ch)
    case AddPeer(_, si, remote, id, ch) => PeerAdded(n, si, remote, id, ch)
    case Send(_, members, mem, len, tails) => Sent(des, n, members, mem, len, tails)
    case RemoveSession(_, sid) => SessionRemoved(n, sid)
    case RemoveMember(_, si, c) => MemberRemoved(n, si, c)
    case Emit(_, known) => Emitted(n, Found(known, |s.nodes|))
    case Tick(_, known, ch) => NodeTicked(des, n, Found(known, |s.nodes|), ch)
    case IdleTick(_, known, ch) => NodeTicked(des, n, Found(known, |s.nodes|), ch)
  }

  function Next(des: Cipher, s: System, e: Event): (r: System)
    requires Enabled(s, e)
    ensures |r.nodes| == |s.nodes|
  {
    match e
    case Deliver(i) =>
      var m := s.net[i];
      System(s.nodes[m.recipient := Received(s.nodes[m.recipient], m)], RemoveAt(s.net, i))
    case Drop(i) => s.(net := RemoveAt(s.net, i))
    case Emit(g, _) =>
      var n := NodeAfter(des, s, e);
      System(s.nodes[g := n], if n.halted.Some? then s.net else s.net + [s.nodes[g].k.outq[0]])
    case _ => s.(nodes := s.nodes[e.g := NodeAfter(des, s, e)])
  }

  ghost predicate ValidRun(des: Cipher, s: System, run: seq<Event>)
    decreases |run|
  {
    run == [] || (Enabled(s, run[0]) && ValidRun(des, Next(des, s, run[0]), run[1..]))
  }

  /** The state a run leads to. */
  ghost function Exec(des: Cipher, s: System, run: seq<Event>): (r: System)
    requires ValidRun(des, s, run)
    ensures |r.nodes| == |s.nodes|
    decreases |run|
  {
    if run == [] then s else Exec(des, Next(des, s, run[0]), run[1..])
  }

  lemma {:induction false} ExecSplit(des: Cipher, s: System, a: seq<Event>, b: seq<Event>)
    requires ValidRun(des, s, a + b)
    ensures ValidRun(des, s, a) && ValidRun(des, Exec(des, s, a), b)
    ensures Exec(des, s, a + b) == Exec(des, Exec(des, s, a), b)
    decreases |a|
  {
    if a == [] {
      assert a + b == b;
    } else {
      assert (a + b)[0] == a[0] && (a + b)[1..] == a[1..] + b;
      ExecSplit(des, Next(des, s, a[0]), a[1..], b);
    }
  }
}
