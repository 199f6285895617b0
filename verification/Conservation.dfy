/**
 * Chat messages over a run, counted copy by copy: each one that a send makes is handed up,
 * lost, or still under way, and nothing else is ever handed up.
 */
module Conservation {
  import opened Bytes
  import opened Cryptography
  import opened ConnectionRequests
  import opened ConnectionControllers
  import opened Sessions
  import opened Network
  import opened Handshakes
  import opened HandshakeSteps
  import opened Protocol
  import opened Progress
  import opened Delivery

  // --------------------------------------------------------------- messages under way

  function Copies(q: seq<Message>, m: Message): nat {
    if q == [] then 0 else Copies(q[1..], m) + if q[0] == m then 1 else 0
  }

  function NodeCopies(n: Node, m: Message): nat {
    Copies(n.k.outq, m) + Copies(n.k.inq, m)
  }

  function NodesCopies(nodes: seq<Node>, m: Message): nat {
    if nodes == [] then 0 else NodeCopies(nodes[0], m) + NodesCopies(nodes[1..], m)
  }

  /** Copies of m in all queues and in the network. */
  function UnderWay(s: System, m: Message): nat {
    NodesCopies(s.nodes, m) + Copies(s.net, m)
  }

  lemma {:induction false} CopiesConcat(a: seq<Message>, b: seq<Message>, m: Message)
    ensures Copies(a + b, m) == Copies(a, m) + Copies(b, m)
  {
    if a == [] {
      assert a + b == b;
    } else {
      assert (a + b)[1..] == a[1..] + b;
      CopiesConcat(a[1..], b, m);
    }
  }

  lemma CopiesPushed(q: seq<Message>, x: Message, m: Message)
    ensures Copies(q + [x], m) == Copies(q, m) + if x == m then 1 else 0
  {
    CopiesConcat(q, [x], m);
    assert [x][1..] == [];
  }

  lemma CopiesRemoved(q: seq<Message>, i: nat, m: Message)
    requires i < |q|
    ensures Copies(q, m) == Copies(RemoveAt(q, i), m) + if q[i] == m then 1 else 0
  {
    assert q == (q[..i] + [q[i]]) + q[i + 1..];
    CopiesConcat(q[..i] + [q[i]], q[i + 1..], m);
    CopiesPushed(q[..i], q[i], m);
    CopiesConcat(q[..i], q[i + 1..], m);
  }

  lemma {:induction false} NodesCopiesUpdate(nodes: seq<Node>, g: nat, n: Node, m: Message)
    requires g < |nodes|
    ensures NodesCopies(nodes[g := n], m) + NodeCopies(nodes[g], m) == NodesCopies(nodes, m) + NodeCopies(n, m)
  {
    if g == 0 {
      assert nodes[g := n][1..] == nodes[1..];
    } else {
      NodesCopiesUpdate(nodes[1..], g - 1, n, m);
      assert nodes[g := n][1..] == nodes[1..][g - 1 := n];
    }
  }

  // --------------------------------------------------------------- what events do

  /** The copies of m that an event makes, hands up to the user, and loses. */
  function CopiesMade(des: Cipher, s: System, e: Event, m: Message): nat
    requires Enabled(s, e)
  {
    if e.Send? then Copies(Batch(des, s, e), m) else 0
  }

  function CopiesHandedUp(des: Cipher, s: System, e: Event, m: Message): nat
    requires Enabled(s, e)
  {
    if !e.Tick? || s.nodes[e.g].k.inq[0] != m then 0
    else
      match Ticked(des, s.nodes[e.g].k, Found(e.known, |s.nodes|), e.ch)
      case Running(_, ReceivedCall(_, _)) => 1
      case _ => 0
  }

  function CopiesLost(s: System, e: Event, m: Message): nat
    requires Enabled(s, e)
  {
    if e.Drop? && s.net[e.i] == m then 1 else 0
  }

  /** A tick hands up its message exactly if that is a chat message. */
  lemma TickHandsUp(des: Cipher, s: System, reg: History, g: Guid, ch: Chance, m: Message)
    requires Inv(des, s, reg) && Enabled(s, Tick(g, true, ch))
    ensures CopiesHandedUp(des, s, Tick(g, true, ch), m) ==
            if s.nodes[g].k.inq[0] == m && !IsHandshake(m) then 1 else 0
  {
    var n := s.nodes[g];
    InboxFacts(des, s, reg, g);
    assert NodeOk(des, n, reg, g);
    if IsHandshake(n.k.inq[0]) {
      assert EntryOk(reg[n.k.inq[0].id], |s.nodes|);
      HandlerRuns(des, n.k, reg, n.k.inq[0].id, ch, g, |s.nodes|);
    } else {
      DataHandled(des, n, reg, ch, g, |s.nodes|);
    }
  }

  lemma AnswerNoChat(des: Cipher, k: Controller, reg: History, id: ConnId, ch: Chance, m: Message)
    requires id in reg && k.inq != [] && !IsHandshake(m)
    ensures Copies(Handled(des, k, reg, id, ch).outq, m) == Copies(k.outq, m)
  {
    CopiesPushed(k.outq, Pending(des, Advanced(des, reg[id], ch), id), m);
  }

  /** And what it puts into the out queue is no chat message. */
  lemma TickAnswers(des: Cipher, s: System, reg: History, g: Guid, ch: Chance, m: Message)
    requires Inv(des, s, reg) && Enabled(s, Tick(g, true, ch)) && !IsHandshake(m)
    ensures
      var k, t := s.nodes[g].k, NodeTicked(des, s.nodes[g], Resolve(|s.nodes|), ch).k;
      t.inq == k.inq[1..] && Copies(t.outq, m) == Copies(k.outq, m)
  {
    var n := s.nodes[g];
    InboxFacts(des, s, reg, g);
    assert NodeOk(des, n, reg, g);
    if IsHandshake(n.k.inq[0]) {
      var id := n.k.inq[0].id;
      assert EntryOk(reg[id], |s.nodes|);
      HandlerRuns(des, n.k, reg, id, ch, g, |s.nodes|);
      AnswerNoChat(des, n.k, reg, id, ch, m);
    } else {
      DataHandled(des, n, reg, ch, g, |s.nodes|);
    }
  }

  lemma NodeConserves(des: Cipher, s: System, reg: History, e: Event, m: Message)
    requires Inv(des, s, reg) && Enabled(s, e) && !e.Deliver? && !e.Drop? && !e.Emit? && !IsHandshake(m)
    ensures NodeCopies(NodeAfter(des, s, e), m) + CopiesHandedUp(des, s, e, m)
         == NodeCopies(s.nodes[e.g], m) + CopiesMade(des, s, e, m)
  {
    var k := s.nodes[e.g].k;
    match e
    case Tick(g, known, ch) =>
      if known {
        TickHandsUp(des, s, reg, g, ch, m);
        TickAnswers(des, s, reg, g, ch, m);
      } else {
        StopKeeps(des, s, reg, e);
      }
    case Send(_, _, _, _, _) => CopiesConcat(k.outq, Batch(des, s, e), m);
    case NewSession(_, remote, id, ch) => CopiesPushed(k.outq, Initiated(k, remote, id, ch).outq[|k.outq|], m);
    case AddPeer(_, _, remote, id, ch) => CopiesPushed(k.outq, Initiated(k, remote, id, ch).outq[|k.outq|], m);
    case _ =>
  }

  lemma EmitConserves(des: Cipher, s: System, reg: History, g: Guid, m: Message)
    requires Inv(des, s, reg) && Enabled(s, Emit(g, true))
    ensures UnderWay(Next(des, s, Emit(g, true)), m) == UnderWay(s, m)
  {
    EmitFacts(des, s, reg, g);
    CopiesRemoved(s.nodes[g].k.outq, 0, m);
    CopiesPushed(s.net, s.nodes[g].k.outq[0], m);
    NodesCopiesUpdate(s.nodes, g, NodeAfter(des, s, Emit(g, true)), m);
  }

  lemma DeliverConserves(des: Cipher, s: System, i: nat, m: Message)
    requires Enabled(s, Deliver(i))
    ensures UnderWay(Next(des, s, Deliver(i)), m) == UnderWay(s, m)
  {
    var x := s.net[i];
    CopiesRemoved(s.net, i, m);
    CopiesPushed(s.nodes[x.recipient].k.inq, x, m);
    NodesCopiesUpdate(s.nodes, x.recipient, Received(s.nodes[x.recipient], x), m);
  }

  /** One event: what was under way and what it makes is handed up, lost or still under way. */
  lemma StepConserves(des: Cipher, s: System, reg: History, e: Event, m: Message)
    requires Inv(des, s, reg) && Enabled(s, e) && !IsHandshake(m)
    ensures UnderWay(Next(des, s, e), m) + CopiesHandedUp(des, s, e, m) + CopiesLost(s, e, m)
         == UnderWay(s, m) + CopiesMade(des, s, e, m)
  {
    match e
    case Drop(i) => CopiesRemoved(s.net, i, m);
    case Deliver(i) => DeliverConserves(des, s, i, m);
    case Emit(g, known) =>
      if known {
        EmitConserves(des, s, reg, g, m);
      } else {
        StopKeeps(des, s, reg, e);
        NodesCopiesUpdate(s.nodes, g, NodeAfter(des, s, e), m);
      }
    case _ =>
      NodeConserves(des, s, reg, e, m);
      NodesCopiesUpdate(s.nodes, e.g, NodeAfter(des, s, e), m);
  }

  // ------------------------------------------------------------------- over a run

  ghost function AllMade(des: Cipher, s: System, run: seq<Event>, m: Message): nat
    requires ValidRun(des, s, run)
    decreases |run|
  {
    if run == [] then 0 else CopiesMade(des, s, run[0], m) + AllMade(des, Next(des, s, run[0]), run[1..], m)
  }

  ghost function AllHandedUp(des: Cipher, s: System, run: seq<Event>, m: Message): nat
    requires ValidRun(des, s, run)
    decreases |run|
  {
    if run == [] then 0 else CopiesHandedUp(des, s, run[0], m) + AllHandedUp(des, Next(des, s, run[0]), run[1..], m)
  }

  ghost function AllLost(des: Cipher, s: System, run: seq<Event>, m: Message): nat
    requires ValidRun(des, s, run)
    decreases |run|
  {
    if run == [] then 0 else CopiesLost(s, run[0], m) + AllLost(des, Next(des, s, run[0]), run[1..], m)
  }

  lemma {:induction false} RunConserves(des: Cipher, s: System, reg: History, run: seq<Event>, m: Message)
    requires Inv(des, s, reg) && ValidRun(des, s, run) && !IsHandshake(m)
    ensures UnderWay(Exec(des, s, run), m) + AllHandedUp(des, s, run, m) + AllLost(des, s, run, m)
         == UnderWay(s, m) + AllMade(des, s, run, m)
    decreases |run|
  {
    if run != [] {
      StepConserves(des, s, reg, run[0], m);
      StepKeeps(des, s, reg, run[0]);
      RunConserves(des, Next(des, s, run[0]), NextHistory(des, s, reg, run[0]), run[1..], m);
    }
  }

  lemma {:induction false} EmptyNodes(nodes: seq<Node>, m: Message)
    requires forall i :: 0 <= i < |nodes| ==> nodes[i].k.outq == [] && nodes[i].k.inq == []
    ensures NodesCopies(nodes, m) == 0
  {
    if nodes != [] {
      EmptyNodes(nodes[1..], m);
    }
  }

  lemma {:induction false} NoDropsNoLoss(des: Cipher, s: System, run: seq<Event>, m: Message)
    requires ValidRun(des, s, run) && forall i :: 0 <= i < |run| ==> !run[i].Drop?
    ensures AllLost(des, s, run, m) == 0
    decreases |run|
  {
    if run != [] {
      NoDropsNoLoss(des, Next(des, s, run[0]), run[1..], m);
    }
  }

  /** Conservation: in every run, each copy made is handed up, lost or under way. */
  lemma ChatsConserved(des: Cipher, n: nat, run: seq<Event>, m: Message)
    requires ValidRun(des, Init(n), run) && m.action == CommunicatingSession
    ensures AllMade(des, Init(n), run, m)
         == AllHandedUp(des, Init(n), run, m) + AllLost(des, Init(n), run, m) + UnderWay(Exec(des, Init(n), run), m)
  {
    InitInv(des, n);
    RunConserves(des, Init(n), map[], run, m);
    EmptyNodes(Init(n).nodes, m);
  }

  lemma NoStepsNoMessages(s: System)
    requires StepsLeft(s) == 0
    ensures forall g :: 0 <= g < |s.nodes| ==> s.nodes[g].k.outq == [] && s.nodes[g].k.inq == []
    ensures s.net == []
  {
    forall g | 0 <= g < |s.nodes|
      ensures s.nodes[g].k.outq == [] && s.nodes[g].k.inq == []
    {
      NodesLoadMember(s.nodes, g);
    }
  }

  /**
   * When no message is left, each chat message was handed up exactly as often as it was
   * made if and only if no copy of it was lost.
   */
  lemma EachHandedUpOnce(des: Cipher, n: nat, run: seq<Event>, m: Message)
    requires ValidRun(des, Init(n), run) && StepsLeft(Exec(des, Init(n), run)) == 0
    requires m.action == CommunicatingSession
    ensures AllHandedUp(des, Init(n), run, m) == AllMade(des, Init(n), run, m) <==> AllLost(des, Init(n), run, m) == 0
    ensures (forall i :: 0 <= i < |run| ==> !run[i].Drop?) ==> AllLost(des, Init(n), run, m) == 0
  {
    ChatsConserved(des, n, run, m);
    NoStepsNoMessages(Exec(des, Init(n), run));
    EmptyNodes(Exec(des, Init(n), run).nodes, m);
    if forall i :: 0 <= i < |run| ==> !run[i].Drop? {
      NoDropsNoLoss(des, Init(n), run, m);
    }
  }
}
