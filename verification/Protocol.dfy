/**
 * What the handshake guarantees, in every state that any run of any number of nodes
 * reaches, whatever the interleaving, the loss and the outside values.
 */
module Protocol {
  import opened Bytes
  import opened Cryptography
  import opened ConnectionRequests
  import opened ConnectionControllers
  import opened Sessions
  import opened Network
  import opened Handshakes
  import opened HandshakeSteps

  ghost function HistoryOf(des: Cipher, s: System, reg: History, run: seq<Event>): History
    requires ValidRun(des, s, run)
    decreases |run|
  {
    if run == [] then reg
    else HistoryOf(des, Next(des, s, run[0]), NextHistory(des, s, reg, run[0]), run[1..])
  }

  lemma {:induction false} HistorySplit(des: Cipher, s: System, reg: History, a: seq<Event>, b: seq<Event>)
    requires ValidRun(des, s, a + b) && ValidRun(des, s, a) && ValidRun(des, Exec(des, s, a), b)
    ensures HistoryOf(des, s, reg, a + b) == HistoryOf(des, Exec(des, s, a), HistoryOf(des, s, reg, a), b)
    decreases |a|
  {
    if a == [] {
      assert a + b == b;
    } else {
      assert (a + b)[0] == a[0] && (a + b)[1..] == a[1..] + b;
      HistorySplit(des, Next(des, s, a[0]), NextHistory(des, s, reg, a[0]), a[1..], b);
    }
  }

  lemma {:induction false} RunKeeps(des: Cipher, s: System, reg: History, run: seq<Event>)
    requires Inv(des, s, reg) && ValidRun(des, s, run)
    ensures Inv(des, Exec(des, s, run), HistoryOf(des, s, reg, run))
    ensures Grows(reg, HistoryOf(des, s, reg, run))
    decreases |run|
  {
    if run != [] {
      StepKeeps(des, s, reg, run[0]);
      StepGrows(des, s, reg, run[0]);
      RunKeeps(des, Next(des, s, run[0]), NextHistory(des, s, reg, run[0]), run[1..]);
    }
  }

  lemma StepGrows(des: Cipher, s: System, reg: History, e: Event)
    requires Inv(des, s, reg) && Enabled(s, e)
    ensures Grows(reg, NextHistory(des, s, reg, e))
  {
    match e
    case NewSession(_, _, id, _) => FreshIdUnknown(des, s, reg, id);
    case AddPeer(_, _, _, id, _) => FreshIdUnknown(des, s, reg, id);
    case Tick(_, _, _) =>
    case IdleTick(_, _, _) =>
    case Emit(_, _) =>
    case Deliver(_) =>
    case Drop(_) =>
    case Send(_, _, _, _, _) =>
    case RemoveSession(_, _) =>
    case RemoveMember(_, _, _) =>
  }

  lemma InitInv(des: Cipher, n: nat)
    ensures Inv(des, Init(n), map[])
  {
    assert forall id: ConnId :: Find([], id) == None;
  }

  lemma Reached(des: Cipher, n: nat, run: seq<Event>) returns (reg: History)
    requires ValidRun(des, Init(n), run)
    ensures Inv(des, Exec(des, Init(n), run), reg)
    ensures reg == HistoryOf(des, Init(n), map[], run)
  {
    InitInv(des, n);
    reg := HistoryOf(des, Init(n), map[], run);
    RunKeeps(des, Init(n), map[], run);
  }

  // ------------------------------------------------------------------- agreement

  /**
   * Key agreement: the two nodes that have a record for the same connection id mirror
   * each other, no third node has one, two secrets are never different, and a complete
   * record has its secret.
   */
  lemma KeyAgreement(des: Cipher, n: nat, run: seq<Event>, a: Guid, b: Guid, id: ConnId)
    requires ValidRun(des, Init(n), run) && a < n && b < n && a != b
    requires
      var s := Exec(des, Init(n), run);
      Find(s.nodes[a].k.conns, id).Some? && Find(s.nodes[b].k.conns, id).Some?
    ensures
      var s := Exec(des, Init(n), run);
      var ra, rb := Find(s.nodes[a].k.conns, id).value, Find(s.nodes[b].k.conns, id).value;
      && ra.local == a && ra.remote == b && rb.local == b && rb.remote == a
      && (ra.secret.Some? && rb.secret.Some? ==> ra.secret == rb.secret)
      && (ra.state == Complete && rb.state == Complete ==> ra.secret.Some? && ra.secret == rb.secret)
      && (forall c :: 0 <= c < n && Find(s.nodes[c].k.conns, id).Some? ==> c == a || c == b)
      && DistinctIds(s.nodes[a].k.conns) && DistinctIds(s.nodes[b].k.conns)
  {
    var reg := Reached(des, n, run);
    var s := Exec(des, Init(n), run);
    forall c | 0 <= c < n
      ensures Find(s.nodes[c].k.conns, id) == RecordAt(reg, id, c)
    {
      RecordIs(des, s, reg, c, id);
    }
    assert NodeOk(des, s.nodes[a], reg, a) && NodeOk(des, s.nodes[b], reg, b);
  }

  /** Completion has a partner: a complete record's peer holds the same secret already. */
  lemma CompleteHasPeer(des: Cipher, n: nat, run: seq<Event>, a: Guid, id: ConnId)
    requires ValidRun(des, Init(n), run) && a < n && CompleteAt(Exec(des, Init(n), run).nodes[a].k.conns, id)
    ensures
      var s := Exec(des, Init(n), run);
      var r := Find(s.nodes[a].k.conns, id).value;
      && r.secret.Some? && r.remote < n && r.remote != a
      && Find(s.nodes[r.remote].k.conns, id).Some?
      && Find(s.nodes[r.remote].k.conns, id).value.secret == r.secret
  {
    var reg := Reached(des, n, run);
    var s := Exec(des, Init(n), run);
    RecordIs(des, s, reg, a, id);
    RecordIs(des, s, reg, Find(s.nodes[a].k.conns, id).value.remote, id);
  }

  /** What an event takes from the front of node g's queues. */
  function Rest(q: seq<Message>, taken: bool): seq<Message>
    requires taken ==> q != []
  {
    if taken then q[1..] else q
  }

  /**
   * Both queues of a node are first in, first out, in every event: only an emission and a
   * tick take a message, the first one, and what is put in goes behind what is there.
   */
  lemma QueueOrder(des: Cipher, s: System, reg: History, e: Event, g: Guid)
    requires Inv(des, s, reg) && Enabled(s, e) && g < |s.nodes|
    ensures
      var k, t := s.nodes[g].k, Next(des, s, e).nodes[g].k;
      && t.inq == Rest(k.inq, e.Tick? && e.known && e.g == g)
                  + (if e.Deliver? && s.net[e.i].recipient == g then [s.net[e.i]] else [])
      && Rest(k.outq, e.Emit? && e.known && e.g == g) <= t.outq
  {
    var k := s.nodes[g].k;
    assert k.inq + [] == k.inq;
    if LooksUp(e) && !e.known {
      StopKeeps(des, s, reg, e);
    } else if e.Tick? && e.g == g {
      RunsOn(des, s, reg, g, e.ch);
      TickTakes(des, k, Resolve(|s.nodes|), e.ch);
      assert k.inq[1..] + [] == k.inq[1..];
    } else if e.Emit? {
      EmitFacts(des, s, reg, e.g);
    }
  }

  lemma TickTakes(des: Cipher, k: Controller, lookup: Lookup, ch: Chance)
    requires k.inq != [] && Ticked(des, k, lookup, ch).Running?
    ensures Ticked(des, k, lookup, ch).k.inq == k.inq[1..] && k.outq <= Ticked(des, k, lookup, ch).k.outq
  {
  }

  /** One of the events is node g's own and meets a peer that its store does not know. */
  predicate MeetsUnknown(run: seq<Event>, g: Guid) {
    exists i :: 0 <= i < |run| && LooksUp(run[i]) && run[i].g == g && !run[i].known
  }

  lemma HaltStep(des: Cipher, s: System, reg: History, e: Event, g: Guid)
    requires Inv(des, s, reg) && Enabled(s, e) && g < |s.nodes|
    ensures Next(des, s, e).nodes[g].halted ==
            if LooksUp(e) && e.g == g && !e.known then Some(UnknownPeer) else s.nodes[g].halted
  {
    if LooksUp(e) && !e.known {
      StopKeeps(des, s, reg, e);
    } else if e.Tick? {
      RunsOn(des, s, reg, e.g, e.ch);
    } else if e.Emit? {
      EmitFacts(des, s, reg, e.g);
    }
  }

  lemma MeetsFirst(run: seq<Event>, g: Guid)
    requires run != []
    ensures MeetsUnknown(run, g) <==>
            (LooksUp(run[0]) && run[0].g == g && !run[0].known) || MeetsUnknown(run[1..], g)
  {
    var rest := run[1..];
    if MeetsUnknown(rest, g) {
      var i :| 0 <= i < |rest| && LooksUp(rest[i]) && rest[i].g == g && !rest[i].known;
      assert run[i + 1] == rest[i];
    }
    if MeetsUnknown(run, g) && !(LooksUp(run[0]) && run[0].g == g && !run[0].known) {
      var i :| 0 <= i < |run| && LooksUp(run[i]) && run[i].g == g && !run[i].known;
      assert rest[i - 1] == run[i];
    }
  }

  lemma {:induction false} HaltRun(des: Cipher, s: System, reg: History, run: seq<Event>, g: Guid)
    requires Inv(des, s, reg) && ValidRun(des, s, run) && g < |s.nodes|
    ensures Exec(des, s, run).nodes[g].halted ==
            if MeetsUnknown(run, g) then Some(UnknownPeer) else s.nodes[g].halted
    decreases |run|
  {
    if run != [] {
      HaltStep(des, s, reg, run[0], g);
      StepKeeps(des, s, reg, run[0]);
      HaltRun(des, Next(des, s, run[0]), NextHistory(des, s, reg, run[0]), run[1..], g);
      MeetsFirst(run, g);
    }
  }

  /**
   * No fail-stop: no check, exit or null dereference of any handler is ever reached, but
   * for the one there is no guarding against here.  A node has stopped if and only if one
   * of its own events met a peer that its store does not know, and then for that reason.
   */
  lemma NoAbort(des: Cipher, n: nat, run: seq<Event>)
    requires ValidRun(des, Init(n), run)
    ensures forall g :: 0 <= g < n ==>
              Exec(des, Init(n), run).nodes[g].halted == if MeetsUnknown(run, g) then Some(UnknownPeer) else None
  {
    InitInv(des, n);
    forall g | 0 <= g < n
      ensures Exec(des, Init(n), run).nodes[g].halted == if MeetsUnknown(run, g) then Some(UnknownPeer) else None
    {
      HaltRun(des, Init(n), map[], run, g);
    }
  }

  /**
   * What a tick does in a reached state when the store need not know the sender: it stops
   * if and only if there is a message whose sender cannot be resolved, and then for no
   * other reason; without a message it does nothing.
   */
  lemma StopsIff(des: Cipher, n: nat, run: seq<Event>, g: Guid, lookup: Lookup, ch: Chance)
    requires ValidRun(des, Init(n), run) && g < n
    requires
      var inq := Exec(des, Init(n), run).nodes[g].k.inq;
      inq != [] && lookup(inq[0].sender).Some? ==> lookup(inq[0].sender).value == inq[0].sender
    ensures
      var k := Exec(des, Init(n), run).nodes[g].k;
      var out := Ticked(des, k, lookup, ch);
      && (out.Halted? <==> k.inq != [] && lookup(k.inq[0].sender).None?)
      && (out.Halted? ==> out.why == UnknownPeer)
      && (out.Running? ==> out == Ticked(des, k, Resolve(n), ch))
      && (k.inq == [] ==> out == Running(k, NoCall))
  {
    var reg := Reached(des, n, run);
    var s := Exec(des, Init(n), run);
    if s.nodes[g].k.inq != [] {
      RunsOn(des, s, reg, g, ch);
      InboxFacts(des, s, reg, g);
    }
  }

  lemma RunsOn(des: Cipher, s: System, reg: History, g: Guid, ch: Chance)
    requires Inv(des, s, reg) && g < |s.nodes| && s.nodes[g].k.inq != []
    ensures Ticked(des, s.nodes[g].k, Resolve(|s.nodes|), ch).Running?
  {
    var n := s.nodes[g];
    assert NodeOk(des, n, reg, g);
    InboxFacts(des, s, reg, g);
    if IsHandshake(n.k.inq[0]) {
      assert EntryOk(reg[n.k.inq[0].id], |s.nodes|);
      HandlerRuns(des, n.k, reg, n.k.inq[0].id, ch, g, |s.nodes|);
    } else {
      DataHandled(des, n, reg, ch, g, |s.nodes|);
    }
  }

  // ------------------------------------------------------------------------- order

  predicate Initiates(e: Event, g: Guid, remote: Guid, id: ConnId) {
    || (e.NewSession? && e.g == g && e.remote == remote && e.id == id)
    || (e.AddPeer? && e.g == g && e.remote == remote && e.id == id)
  }

  /** The history names the node whose event j started the connection. */
  lemma InitiatorKnown(des: Cipher, n: nat, run: seq<Event>, j: nat, g: Guid, remote: Guid, id: ConnId)
    returns (reg: History)
    requires ValidRun(des, Init(n), run) && j < |run| && Initiates(run[j], g, remote, id)
    ensures Inv(des, Exec(des, Init(n), run), reg) && reg == HistoryOf(des, Init(n), map[], run)
    ensures id in reg && reg[id].initiator == g && reg[id].responder == remote
  {
    var a, b := run[..j], run[j + 1..];
    assert run == a + ([run[j]] + b);
    ExecSplit(des, Init(n), a, [run[j]] + b);
    var s := Exec(des, Init(n), a);
    var before := Reached(des, n, a);
    assert ([run[j]] + b)[1..] == b;
    StepKeeps(des, s, before, run[j]);
    var after := NextHistory(des, s, before, run[j]);
    RunKeeps(des, Next(des, s, run[j]), after, b);
    reg := HistoryOf(des, Next(des, s, run[j]), after, b);
    HistorySplit(des, Init(n), map[], a, [run[j]] + b);
  }

  /** The two records and callback counts of a connection, as its entry says. */
  lemma BothEnds(des: Cipher, n: nat, run: seq<Event>, j: nat, g: Guid, remote: Guid, id: ConnId)
    returns (reg: History)
    requires ValidRun(des, Init(n), run) && j < |run| && Initiates(run[j], g, remote, id)
    ensures reg == HistoryOf(des, Init(n), map[], run)
    ensures id in reg && EntryOk(reg[id], n) && reg[id].initiator == g && reg[id].responder == remote
    ensures
      var s := Exec(des, Init(n), run);
      && Find(s.nodes[g].k.conns, id) == RecordAt(reg, id, g)
      && Find(s.nodes[remote].k.conns, id) == RecordAt(reg, id, remote)
      && multiset(s.nodes[g].completed)[id] == Told(reg, id, g)
      && multiset(s.nodes[remote].completed)[id] == Told(reg, id, remote)
  {
    reg := InitiatorKnown(des, n, run, j, g, remote, id);
    var s := Exec(des, Init(n), run);
    assert EntryOk(reg[id], n);
    RecordIs(des, s, reg, g, id);
    RecordIs(des, s, reg, remote, id);
  }

  lemma EntryOrdered(reg: History, id: ConnId, n: nat)
    requires id in reg && EntryOk(reg[id], n)
    ensures
      var a, b := RecordAt(reg, id, reg[id].initiator), RecordAt(reg, id, reg[id].responder);
      a.Some? && (a.value.state == Complete ==> b.Some? && b.value.state == Complete)
  {
  }

  /** The initiator completes only after the responder has. */
  lemma OrderedCompletion(des: Cipher, n: nat, run: seq<Event>, j: nat, g: Guid, remote: Guid, id: ConnId)
    requires ValidRun(des, Init(n), run) && j < |run| && Initiates(run[j], g, remote, id)
    ensures g < n && remote < n && Find(Exec(des, Init(n), run).nodes[g].k.conns, id).Some?
    ensures
      var s := Exec(des, Init(n), run);
      CompleteAt(s.nodes[g].k.conns, id) ==> CompleteAt(s.nodes[remote].k.conns, id)
  {
    var reg := BothEnds(des, n, run, j, g, remote, id);
    EntryOrdered(reg, id, n);
  }

  // ------------------------------------------------------------------ monotonicity

  /** The moves the two roles make: an initiator goes by way of SessionKeyShare, a responder does not. */
  predicate Advances(from: RequestState, to: RequestState) {
    from == to || to == Complete || (from == InitialChallenge && to == SessionKeyShare)
  }

  /** The same record at a later time. */
  predicate LaterRecord(r: Request, l: Request) {
    && r.id == l.id && r.local == l.local && r.remote == l.remote && r.keypair == l.keypair
    && Advances(r.state, l.state) && (r.secret.Some? ==> l.secret == r.secret)
  }

  lemma LaterEntry(reg: History, next: History, id: ConnId, g: Guid)
    requires id in reg && id in next && Later(reg[id], next[id]) && RecordAt(reg, id, g).Some?
    ensures RecordAt(next, id, g).Some? && LaterRecord(RecordAt(reg, id, g).value, RecordAt(next, id, g).value)
  {
  }

  /** Records stay, never go back to an earlier state, and a secret once set never changes. */
  lemma RecordsOnlyAdvance(des: Cipher, n: nat, a: seq<Event>, b: seq<Event>, g: Guid, id: ConnId)
    requires ValidRun(des, Init(n), a + b) && ValidRun(des, Init(n), a) && g < n
    requires Find(Exec(des, Init(n), a).nodes[g].k.conns, id).Some?
    ensures
      var r := Find(Exec(des, Init(n), a).nodes[g].k.conns, id).value;
      var later := Find(Exec(des, Init(n), a + b).nodes[g].k.conns, id);
      later.Some? && LaterRecord(r, later.value)
  {
    ExecSplit(des, Init(n), a, b);
    var s := Exec(des, Init(n), a);
    var reg := Reached(des, n, a);
    RunKeeps(des, s, reg, b);
    var next := HistoryOf(des, s, reg, b);
    RecordIs(des, s, reg, g, id);
    RecordIs(des, Exec(des, s, b), next, g, id);
    LaterEntry(reg, next, id, g);
  }

  lemma RecordIs(des: Cipher, s: System, reg: History, g: Guid, id: ConnId)
    requires Inv(des, s, reg) && g < |s.nodes|
    ensures Find(s.nodes[g].k.conns, id) == RecordAt(reg, id, g)
    ensures id in reg ==> EntryOk(reg[id], |s.nodes|)
    ensures multiset(s.nodes[g].completed)[id] == Told(reg, id, g)
  {
    assert NodeOk(des, s.nodes[g], reg, g);
  }

  // ------------------------------------------------------------ one message at a time

  function Queued(nodes: seq<Node>): seq<Message> {
    if nodes == [] then []
    else
      var n := nodes[|nodes| - 1];
      Queued(nodes[..|nodes| - 1]) + n.k.outq + n.k.inq
  }

  /** Every message in the system: all queues, and the network. */
  function Traffic(s: System): seq<Message> {
    Queued(s.nodes) + s.net
  }

  lemma QueuedLast(nodes: seq<Node>, id: ConnId)
    requires nodes != []
    ensures
      var k := nodes[|nodes| - 1].k;
      Of(Queued(nodes), id) == Of(Queued(nodes[..|nodes| - 1]), id) + Of(k.outq, id) + Of(k.inq, id)
  {
    var k, rest := nodes[|nodes| - 1].k, Queued(nodes[..|nodes| - 1]);
    OfConcat(rest + k.outq, k.inq, id);
    OfConcat(rest, k.outq, id);
  }

  lemma NodeQueues(des: Cipher, node: Node, reg: History, g: Guid, id: ConnId)
    requires NodeOk(des, node, reg, g)
    ensures Of(node.k.outq, id) == Expected(des, reg, id, Outgoing, g)
    ensures Of(node.k.inq, id) == Expected(des, reg, id, Arrived, g)
  {
  }

  lemma {:induction false} QueuedOf(des: Cipher, nodes: seq<Node>, reg: History, id: ConnId)
    requires forall g :: 0 <= g < |nodes| ==> NodeOk(des, nodes[g], reg, g)
    ensures Of(Queued(nodes), id) ==
            if id in reg && ((reg[id].place == Outgoing && Pending(des, reg[id], id).sender < |nodes|)
                             || (reg[id].place == Arrived && Pending(des, reg[id], id).recipient < |nodes|))
            then [Pending(des, reg[id], id)] else []
  {
    if nodes != [] {
      var g := |nodes| - 1;
      QueuedOf(des, nodes[..g], reg, id);
      QueuedLast(nodes, id);
      NodeQueues(des, nodes[g], reg, g, id);
    }
  }

  /** At most one handshake message per connection, in all queues and the network together. */
  lemma OneHandshakeMessage(des: Cipher, n: nat, run: seq<Event>, id: ConnId)
    requires ValidRun(des, Init(n), run)
    ensures |Of(Traffic(Exec(des, Init(n), run)), id)| <= 1
  {
    var reg := Reached(des, n, run);
    var s := Exec(des, Init(n), run);
    QueuedOf(des, s.nodes, reg, id);
    OfConcat(Queued(s.nodes), s.net, id);
    assert Of(s.net, id) == Expected(des, reg, id, Flying, 0);
  }
}
