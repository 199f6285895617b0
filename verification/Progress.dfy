/**
 * The handshake terminates: an exact count of the steps left, which every emission,
 * delivery and processing takes one from, and what holds when it is zero.
 */
module Progress {
  import opened Bytes
  import opened Cryptography
  import opened ConnectionRequests
  import opened ConnectionControllers
  import opened Sessions
  import opened Network
  import opened Handshakes
  import opened HandshakeSteps
  import opened Protocol

  // ------------------------------------------------------------------ the measure

  /** Handshake messages still to be sent once this one has been processed. */
  function Left(a: Action): nat {
    match a
    case CreateSession => 3
    case RespondingCreatedSession => 2
    case SharingSessionKey => 1
    case _ => 0
  }

  /** Steps that the messages of a queue still need: three each for those to come. */
  function Load(q: seq<Message>, here: nat): nat {
    if q == [] then 0 else 3 * Left(q[0].action) + here + Load(q[1..], here)
  }

  function NodeLoad(n: Node): nat {
    Load(n.k.outq, 3) + Load(n.k.inq, 1)
  }

  function NodesLoad(nodes: seq<Node>): nat {
    if nodes == [] then 0 else NodeLoad(nodes[0]) + NodesLoad(nodes[1..])
  }

  /** Emissions, deliveries and processings until no message is left. */
  function StepsLeft(s: System): nat {
    NodesLoad(s.nodes) + Load(s.net, 2)
  }

  predicate IsProgress(e: Event) {
    e.Deliver? || (LooksUp(e) && e.known)
  }

  lemma {:induction false} LoadConcat(a: seq<Message>, b: seq<Message>, here: nat)
    ensures Load(a + b, here) == Load(a, here) + Load(b, here)
  {
    if a == [] {
      assert a + b == b;
    } else {
      assert (a + b)[1..] == a[1..] + b;
      LoadConcat(a[1..], b, here);
    }
  }

  lemma LoadSingle(m: Message, here: nat)
    ensures Load([m], here) == 3 * Left(m.action) + here
  {
    assert [m][1..] == [];
  }

  lemma LoadPushed(q: seq<Message>, m: Message, here: nat)
    ensures Load(q + [m], here) == Load(q, here) + 3 * Left(m.action) + here
  {
    LoadConcat(q, [m], here);
    LoadSingle(m, here);
  }

  lemma LoadRemoved(q: seq<Message>, i: nat, here: nat)
    requires i < |q|
    ensures Load(q, here) == Load(RemoveAt(q, i), here) + 3 * Left(q[i].action) + here
  {
    assert q == q[..i] + [q[i]] + q[i + 1..];
    LoadConcat(q[..i] + [q[i]], q[i + 1..], here);
    LoadPushed(q[..i], q[i], here);
    LoadConcat(q[..i], q[i + 1..], here);
  }

  lemma {:induction false} NodesLoadUpdate(nodes: seq<Node>, g: nat, n: Node)
    requires g < |nodes|
    ensures NodesLoad(nodes[g := n]) + NodeLoad(nodes[g]) == NodesLoad(nodes) + NodeLoad(n)
  {
    if g == 0 {
      assert nodes[g := n][1..] == nodes[1..];
    } else {
      NodesLoadUpdate(nodes[1..], g - 1, n);
      assert nodes[g := n][1..] == nodes[1..][g - 1 := n];
    }
  }

  lemma {:induction false} NodesLoadMember(nodes: seq<Node>, g: nat)
    requires g < |nodes|
    ensures NodeLoad(nodes[g]) <= NodesLoad(nodes)
  {
    if g > 0 {
      NodesLoadMember(nodes[1..], g - 1);
    }
  }

  // ------------------------------------------------------------- every step counts

  lemma EmitCounts(des: Cipher, s: System, reg: History, g: Guid)
    requires Inv(des, s, reg) && Enabled(s, Emit(g, true))
    ensures StepsLeft(Next(des, s, Emit(g, true))) + 1 == StepsLeft(s)
  {
    EmitFacts(des, s, reg, g);
    var n := s.nodes[g];
    assert NodeOk(des, n, reg, g);
    LoadRemoved(n.k.outq, 0, 3);
    LoadPushed(s.net, n.k.outq[0], 2);
    NodesLoadUpdate(s.nodes, g, NodeAfter(des, s, Emit(g, true)));
  }

  lemma DeliverCounts(des: Cipher, s: System, i: nat)
    requires Enabled(s, Deliver(i))
    ensures StepsLeft(Next(des, s, Deliver(i))) + 1 == StepsLeft(s)
  {
    var m := s.net[i];
    LoadRemoved(s.net, i, 2);
    LoadPushed(s.nodes[m.recipient].k.inq, m, 1);
    NodesLoadUpdate(s.nodes, m.recipient, Received(s.nodes[m.recipient], m));
  }

  lemma HandledLoad(des: Cipher, n: Node, reg: History, ch: Chance, g: Guid, size: nat)
    requires NodeOk(des, n, reg, g) && n.k.inq != [] && IsHandshake(n.k.inq[0])
    requires
      var id := n.k.inq[0].id;
      AtNode(des, reg, id, g, size) && n.k.inq[0] == Pending(des, reg[id], id)
    ensures NodeLoad(NodeTicked(des, n, Resolve(size), ch)) + 1 == NodeLoad(n)
  {
    var m := n.k.inq[0];
    var h := Advanced(des, reg[m.id], ch);
    HandlerRuns(des, n.k, reg, m.id, ch, g, size);
    var k := Handled(des, n.k, reg, m.id, ch);
    assert NodeTicked(des, n, Resolve(size), ch).k == k;
    assert Load(n.k.inq, 1) == 3 * Left(m.action) + 1 + Load(k.inq, 1);
    LoadPushed(n.k.outq, Pending(des, h, m.id), 3);
  }

  lemma DataLoad(des: Cipher, n: Node, reg: History, ch: Chance, g: Guid, size: nat)
    requires NodeOk(des, n, reg, g) && n.k.inq != [] && !IsHandshake(n.k.inq[0])
    requires n.k.inq[0].sender < size && n.k.inq[0].sender != g
    ensures NodeLoad(NodeTicked(des, n, Resolve(size), ch)) + 1 == NodeLoad(n)
  {
    DataHandled(des, n, reg, ch, g, size);
    assert NodeTicked(des, n, Resolve(size), ch).k == n.k.(inq := n.k.inq[1..]);
  }

  lemma TickCounts(des: Cipher, s: System, reg: History, g: Guid, ch: Chance)
    requires Inv(des, s, reg) && Enabled(s, Tick(g, true, ch))
    ensures StepsLeft(Next(des, s, Tick(g, true, ch))) + 1 == StepsLeft(s)
  {
    var n := s.nodes[g];
    InboxFacts(des, s, reg, g);
    assert NodeOk(des, n, reg, g);
    if IsHandshake(n.k.inq[0]) {
      assert EntryOk(reg[n.k.inq[0].id], |s.nodes|);
      HandledLoad(des, n, reg, ch, g, |s.nodes|);
    } else {
      DataLoad(des, n, reg, ch, g, |s.nodes|);
    }
    NodesLoadUpdate(s.nodes, g, NodeTicked(des, n, Resolve(|s.nodes|), ch));
  }

  /** Each emission, delivery and processing takes exactly one step from what is left. */
  lemma ProgressCounts(des: Cipher, s: System, reg: History, e: Event)
    requires Inv(des, s, reg) && Enabled(s, e) && IsProgress(e)
    ensures StepsLeft(Next(des, s, e)) + 1 == StepsLeft(s)
  {
    match e
    case Emit(g, _) => EmitCounts(des, s, reg, g);
    case Deliver(i) => DeliverCounts(des, s, i);
    case Tick(g, _, ch) => TickCounts(des, s, reg, g, ch);
  }

  /** A lost message takes all the steps that depended on it. */
  lemma DropCounts(des: Cipher, s: System, i: nat)
    requires Enabled(s, Drop(i))
    ensures StepsLeft(Next(des, s, Drop(i))) + 3 * Left(s.net[i].action) + 2 == StepsLeft(s)
  {
    LoadRemoved(s.net, i, 2);
  }

  lemma {:induction false} StepsCount(des: Cipher, s: System, reg: History, more: seq<Event>)
    requires Inv(des, s, reg) && ValidRun(des, s, more)
    requires forall i :: 0 <= i < |more| ==> IsProgress(more[i])
    ensures StepsLeft(Exec(des, s, more)) + |more| == StepsLeft(s)
    decreases |more|
  {
    if more != [] {
      ProgressCounts(des, s, reg, more[0]);
      StepKeeps(des, s, reg, more[0]);
      StepsCount(des, Next(des, s, more[0]), NextHistory(des, s, reg, more[0]), more[1..]);
    }
  }

  /**
   * Without new requests and sends the system stops: from a reached state, a run of
   * emissions, deliveries and processings has at most StepsLeft events.
   */
  lemma RunsEnd(des: Cipher, n: nat, run: seq<Event>, more: seq<Event>)
    requires ValidRun(des, Init(n), run) && ValidRun(des, Exec(des, Init(n), run), more)
    requires forall i :: 0 <= i < |more| ==> IsProgress(more[i])
    ensures
      var s := Exec(des, Init(n), run);
      |more| + StepsLeft(Exec(des, s, more)) == StepsLeft(s)
  {
    var reg := Reached(des, n, run);
    StepsCount(des, Exec(des, Init(n), run), reg, more);
  }

  // ------------------------------------------------------------------- no deadlock

  function MaxSid(sessions: seq<SessionView>): (m: nat)
    ensures forall i :: 0 <= i < |sessions| ==> sessions[i].sid < m
  {
    if sessions == [] then 0
    else
      var m := MaxSid(sessions[1..]);
      if sessions[0].sid < m then m else sessions[0].sid + 1
  }

  lemma {:induction false} SomeLoad(nodes: seq<Node>) returns (g: nat)
    requires NodesLoad(nodes) > 0
    ensures g < |nodes| && NodeLoad(nodes[g]) > 0
  {
    if NodeLoad(nodes[0]) > 0 {
      g := 0;
    } else {
      g := SomeLoad(nodes[1..]);
      g := g + 1;
    }
  }

  /** A tick's outside values are these, but for a fresh session id. */
  predicate TakesFrom(e: Event, ch: Chance) {
    e.Tick? ==> e.ch == ch.(sid := e.ch.sid)
  }

  ghost predicate NoneStopped(s: System) {
    forall g :: 0 <= g < |s.nodes| ==> s.nodes[g].halted.None?
  }

  lemma ProgressKeeps(des: Cipher, s: System, reg: History, e: Event)
    requires Inv(des, s, reg) && Enabled(s, e) && IsProgress(e) && NoneStopped(s)
    ensures NoneStopped(Next(des, s, e)) && Inv(des, Next(des, s, e), NextHistory(des, s, reg, e))
    ensures StepsLeft(Next(des, s, e)) + 1 == StepsLeft(s)
  {
    ProgressCounts(des, s, reg, e);
    StepKeeps(des, s, reg, e);
    forall g | 0 <= g < |s.nodes|
      ensures Next(des, s, e).nodes[g].halted.None?
    {
      HaltStep(des, s, reg, e, g);
    }
  }

  /** A loaded system can always take a step, whatever the outside values are. */
  lemma CanStep(des: Cipher, s: System, reg: History, ch: Chance) returns (e: Event)
    requires Inv(des, s, reg) && StepsLeft(s) > 0 && NoneStopped(s)
    ensures Enabled(s, e) && IsProgress(e) && TakesFrom(e, ch)
  {
    if s.net != [] {
      e := Deliver(0);
      Taken(des, s.net, reg, Flying, 0, 0);
      assert IsHandshake(s.net[0]) || DataOk(reg, s.net[0]);
      assert EntryOk(reg[s.net[0].id], |s.nodes|);
    } else {
      var g := SomeLoad(s.nodes);
      assert NodeOk(des, s.nodes[g], reg, g);
      if s.nodes[g].k.outq != [] {
        e := Emit(g, true);
      } else {
        e := Tick(g, true, ch.(sid := MaxSid(s.nodes[g].sessions)));
      }
    }
  }

  /** From every reached state the messages can be worked off, in exactly StepsLeft steps. */
  lemma {:induction false} CanFinish(des: Cipher, s: System, reg: History, ch: Chance) returns (more: seq<Event>)
    requires Inv(des, s, reg) && NoneStopped(s)
    ensures ValidRun(des, s, more) && |more| == StepsLeft(s) && StepsLeft(Exec(des, s, more)) == 0
    ensures forall i :: 0 <= i < |more| ==> IsProgress(more[i]) && TakesFrom(more[i], ch)
    decreases StepsLeft(s)
  {
    if StepsLeft(s) == 0 {
      more := [];
    } else {
      var e := CanStep(des, s, reg, ch);
      ProgressKeeps(des, s, reg, e);
      var rest := CanFinish(des, Next(des, s, e), NextHistory(des, s, reg, e), ch);
      more := [e] + rest;
      RunPrepended(des, s, e, rest);
    }
  }

  lemma RunPrepended(des: Cipher, s: System, e: Event, rest: seq<Event>)
    requires Enabled(s, e) && ValidRun(des, Next(des, s, e), rest)
    ensures ValidRun(des, s, [e] + rest) && Exec(des, s, [e] + rest) == Exec(des, Next(des, s, e), rest)
  {
    assert ([e] + rest)[1..] == rest;
  }

  // -------------------------------------------------------------------------- loss

  /** The event drops a handshake message of connection id. */
  predicate Loses(s: System, e: Event, id: ConnId)
    requires Enabled(s, e)
  {
    e.Drop? && IsHandshake(s.net[e.i]) && s.net[e.i].id == id
  }

  /** Some event of the run does. */
  ghost predicate HandshakeLost(des: Cipher, s: System, run: seq<Event>, id: ConnId)
    requires ValidRun(des, s, run)
    decreases |run|
  {
    run != [] && (Loses(s, run[0], id) || HandshakeLost(des, Next(des, s, run[0]), run[1..], id))
  }

  predicate IsLost(reg: History, id: ConnId) {
    id in reg && reg[id].place == Lost
  }

  lemma LosesIff(des: Cipher, s: System, reg: History, e: Event, id: ConnId)
    requires Inv(des, s, reg) && Enabled(s, e)
    ensures IsLost(NextHistory(des, s, reg, e), id) <==> IsLost(reg, id) || Loses(s, e, id)
  {
    match e
    case NewSession(_, _, c, _) => FreshIdUnknown(des, s, reg, c);
    case AddPeer(_, _, _, c, _) => FreshIdUnknown(des, s, reg, c);
    case Tick(g, _, _) => InboxFacts(des, s, reg, g);
    case Emit(g, _) =>
      assert NodeOk(des, s.nodes[g], reg, g);
      Taken(des, s.nodes[g].k.outq, reg, Outgoing, g, 0);
    case Deliver(i) => Taken(des, s.net, reg, Flying, 0, i);
    case Drop(i) => Taken(des, s.net, reg, Flying, 0, i);
    case _ =>
  }

  lemma {:induction false} LostIff(des: Cipher, s: System, reg: History, run: seq<Event>, id: ConnId)
    requires Inv(des, s, reg) && ValidRun(des, s, run)
    ensures IsLost(HistoryOf(des, s, reg, run), id) <==> IsLost(reg, id) || HandshakeLost(des, s, run, id)
    decreases |run|
  {
    if run != [] {
      LosesIff(des, s, reg, run[0], id);
      StepKeeps(des, s, reg, run[0]);
      LostIff(des, Next(des, s, run[0]), NextHistory(des, s, reg, run[0]), run[1..], id);
    }
  }

  /** Events that drop nothing, behind others, lose nothing more. */
  lemma {:induction false} LostBefore(des: Cipher, s: System, a: seq<Event>, b: seq<Event>, id: ConnId)
    requires ValidRun(des, s, a) && ValidRun(des, s, a + b) && forall i :: 0 <= i < |b| ==> !b[i].Drop?
    ensures HandshakeLost(des, s, a + b, id) <==> HandshakeLost(des, s, a, id)
    decreases |a| + |b|
  {
    if a != [] {
      assert (a + b)[0] == a[0] && (a + b)[1..] == a[1..] + b;
      LostBefore(des, Next(des, s, a[0]), a[1..], b, id);
    } else if b != [] {
      assert a + b == b && [] + b[1..] == b[1..];
      LostBefore(des, Next(des, s, b[0]), [], b[1..], id);
    } else {
      assert a + b == [];
    }
  }

  // -------------------------------------------------------------------- quiescence

  /** With nothing left to do, a pending message can only have been lost. */
  lemma NothingPending(des: Cipher, s: System, reg: History, id: ConnId)
    requires Inv(des, s, reg) && StepsLeft(s) == 0 && id in reg
    ensures reg[id].place == Lost || reg[id].stage == Done
  {
    var h := reg[id];
    var m := Pending(des, h, id);
    assert EntryOk(h, |s.nodes|);
    assert NodeOk(des, s.nodes[m.sender], reg, m.sender) && NodeOk(des, s.nodes[m.recipient], reg, m.recipient);
    NodesLoadMember(s.nodes, m.sender);
    NodesLoadMember(s.nodes, m.recipient);
    assert Of(s.nodes[m.sender].k.outq, id) == Expected(des, reg, id, Outgoing, m.sender) == [];
    assert Of(s.nodes[m.recipient].k.inq, id) == Expected(des, reg, id, Arrived, m.recipient) == [];
    assert Of(s.net, id) == Expected(des, reg, id, Flying, 0) == [];
  }

  lemma DoneAtBoth(reg: History, id: ConnId, g: Guid)
    requires id in reg && reg[id].stage == Done && reg[id].initiator != reg[id].responder
    requires RecordAt(reg, id, g).Some?
    ensures
      var r := RecordAt(reg, id, g).value;
      && r.state == Complete && r.secret.Some? && (r.remote == reg[id].initiator || r.remote == reg[id].responder)
      && RecordAt(reg, id, r.remote).Some? && RecordAt(reg, id, r.remote).value.state == Complete
      && RecordAt(reg, id, r.remote).value.secret == r.secret
  {
  }

  lemma NotAtBoth(reg: History, id: ConnId, g: Guid)
    requires id in reg && reg[id].stage != Done && reg[id].initiator != reg[id].responder
    requires RecordAt(reg, id, g).Some?
    ensures
      var r := RecordAt(reg, id, g).value;
      && (r.remote == reg[id].initiator || r.remote == reg[id].responder)
      && (r.state == Complete ==>
            RecordAt(reg, id, r.remote).Some? && RecordAt(reg, id, r.remote).value.state != Complete)
  {
  }

  /** Connection id is complete at both nodes, which have the same secret for it. */
  predicate CompleteAtBoth(s: System, a: Guid, b: Guid, id: ConnId)
    requires a < |s.nodes| && b < |s.nodes|
  {
    && CompleteAt(s.nodes[a].k.conns, id) && CompleteAt(s.nodes[b].k.conns, id)
    && Find(s.nodes[a].k.conns, id).value.secret.Some?
    && Find(s.nodes[a].k.conns, id).value.secret == Find(s.nodes[b].k.conns, id).value.secret
  }

  /**
   * When no message is left, a connection is complete at both ends, with one secret, if
   * and only if none of its own handshake messages was lost.
   */
  lemma QuietMeansComplete(des: Cipher, n: nat, run: seq<Event>, g: Guid, id: ConnId)
    requires ValidRun(des, Init(n), run) && g < n
    requires StepsLeft(Exec(des, Init(n), run)) == 0
    requires Find(Exec(des, Init(n), run).nodes[g].k.conns, id).Some?
    ensures
      var s := Exec(des, Init(n), run);
      var r := Find(s.nodes[g].k.conns, id).value;
      r.remote < n && (CompleteAtBoth(s, g, r.remote, id) <==> !HandshakeLost(des, Init(n), run, id))
  {
    var reg := Reached(des, n, run);
    var s := Exec(des, Init(n), run);
    InitInv(des, n);
    LostIff(des, Init(n), map[], run, id);
    RecordIs(des, s, reg, g, id);
    NothingPending(des, s, reg, id);
    if reg[id].stage == Done {
      DoneAtBoth(reg, id, g);
    } else {
      NotAtBoth(reg, id, g);
    }
    RecordIs(des, s, reg, RecordAt(reg, id, g).value.remote, id);
  }

  /**
   * Once as many progress events as were counted have happened, in whatever order, every
   * connection is complete at both ends if and only if none of its handshake messages was
   * lost before.
   */
  lemma CountedStepsComplete(des: Cipher, n: nat, run: seq<Event>, more: seq<Event>, g: Guid, id: ConnId)
    requires ValidRun(des, Init(n), run) && ValidRun(des, Init(n), run + more) && g < n
    requires |more| == StepsLeft(Exec(des, Init(n), run)) && forall i :: 0 <= i < |more| ==> IsProgress(more[i])
    requires Find(Exec(des, Init(n), run + more).nodes[g].k.conns, id).Some?
    ensures
      var s := Exec(des, Init(n), run + more);
      var r := Find(s.nodes[g].k.conns, id).value;
      r.remote < n && (CompleteAtBoth(s, g, r.remote, id) <==> !HandshakeLost(des, Init(n), run, id))
  {
    ExecSplit(des, Init(n), run, more);
    RunsEnd(des, n, run, more);
    QuietMeansComplete(des, n, run + more, g, id);
    LostBefore(des, Init(n), run, more, id);
  }

  lemma {:induction false} RunsOnwards(des: Cipher, s: System, a: seq<Event>, b: seq<Event>)
    requires ValidRun(des, s, a) && ValidRun(des, Exec(des, s, a), b)
    ensures ValidRun(des, s, a + b)
    decreases |a|
  {
    if a == [] {
      assert a + b == b;
    } else {
      assert (a + b)[0] == a[0] && (a + b)[1..] == a[1..] + b;
      RunsOnwards(des, Next(des, s, a[0]), a[1..], b);
    }
  }

  /** If node g has a record of connection id, it is complete at both ends just if nothing was lost. */
  predicate CompleteIff(t: System, g: Guid, id: ConnId, lost: bool)
    requires g < |t.nodes|
  {
    Find(t.nodes[g].k.conns, id).Some? ==>
      var remote := Find(t.nodes[g].k.conns, id).value.remote;
      remote < |t.nodes| && (CompleteAtBoth(t, g, remote, id) <==> !lost)
  }

  ghost predicate CompleteUnlessLost(des: Cipher, n: nat, run: seq<Event>, t: System)
    requires ValidRun(des, Init(n), run)
  {
    forall g, id :: 0 <= g < |t.nodes| ==> CompleteIff(t, g, id, HandshakeLost(des, Init(n), run, id))
  }

  /**
   * Every run after which no node has stopped has a continuation, for any outside values,
   * that works off all messages; each connection is then complete at both ends if and only
   * if the run lost none of its handshake messages.
   */
  lemma EveryRunCanComplete(des: Cipher, n: nat, run: seq<Event>, ch: Chance) returns (more: seq<Event>)
    requires ValidRun(des, Init(n), run) && NoneStopped(Exec(des, Init(n), run))
    ensures ValidRun(des, Init(n), run + more) && StepsLeft(Exec(des, Init(n), run + more)) == 0
    ensures |more| == StepsLeft(Exec(des, Init(n), run))
    ensures forall i :: 0 <= i < |more| ==> IsProgress(more[i]) && TakesFrom(more[i], ch)
    ensures CompleteUnlessLost(des, n, run, Exec(des, Init(n), run + more))
  {
    var reg := Reached(des, n, run);
    more := CanFinish(des, Exec(des, Init(n), run), reg, ch);
    RunsOnwards(des, Init(n), run, more);
    ExecSplit(des, Init(n), run, more);
    AllCompleteUnlessLost(des, n, run, more);
  }

  lemma AllCompleteUnlessLost(des: Cipher, n: nat, run: seq<Event>, more: seq<Event>)
    requires ValidRun(des, Init(n), run) && ValidRun(des, Init(n), run + more)
    requires |more| == StepsLeft(Exec(des, Init(n), run)) && forall i :: 0 <= i < |more| ==> IsProgress(more[i])
    ensures CompleteUnlessLost(des, n, run, Exec(des, Init(n), run + more))
  {
    var t := Exec(des, Init(n), run + more);
    forall g, id | 0 <= g < |t.nodes|
      ensures CompleteIff(t, g, id, HandshakeLost(des, Init(n), run, id))
    {
      if Find(t.nodes[g].k.conns, id).Some? {
        CountedStepsComplete(des, n, run, more, g, id);
      }
    }
  }
}
