/** Every event keeps the invariant, with the history extended by NextHistory. */
module HandshakeSteps {
  import opened Bytes
  import opened Cryptography
  import opened ConnectionRequests
  import opened ConnectionControllers
  import opened Sessions
  import opened Network
  import opened Handshakes

  // -------------------------------------------------------------- parts of a node

  lemma ConnsAppended(conns: seq<Request>, reg: History, next: History, g: Guid, r: Request)
    requires ConnsOk(conns, reg, g) && SameBut(reg, next, r.id)
    requires RecordAt(reg, r.id, g) == None && RecordAt(next, r.id, g) == Some(r)
    ensures ConnsOk(conns + [r], next, g)
  {
    assert Find(conns, r.id) == None;
    forall id
      ensures Find(conns + [r], id) == RecordAt(next, id, g)
    {
      FindAppend(conns, r, id);
      assert Find(conns, id) == RecordAt(reg, id, g);
    }
  }

  lemma ConnsReplaced(conns: seq<Request>, reg: History, next: History, g: Guid, r: Request)
    requires ConnsOk(conns, reg, g) && SameBut(reg, next, r.id)
    requires RecordAt(reg, r.id, g).Some? && RecordAt(next, r.id, g) == Some(r)
    ensures IndexOf(conns, r.id) < |conns|
    ensures ConnsOk(conns[IndexOf(conns, r.id) := r], next, g)
  {
    assert Find(conns, r.id) == RecordAt(reg, r.id, g);
    var i := IndexOf(conns, r.id);
    forall id
      ensures Find(conns[i := r], id) == RecordAt(next, id, g)
    {
      FindReplace(conns, i, r, id);
      assert Find(conns, id) == RecordAt(reg, id, g);
    }
    FindReplace(conns, i, r, r.id);
  }

  lemma QueuePushed(des: Cipher, q: seq<Message>, reg: History, next: History, place: Place, g: Guid, m: Message)
    requires QueueOk(des, q, reg, place, g) && SameBut(reg, next, m.id) && IsHandshake(m)
    requires Expected(des, reg, m.id, place, g) == [] && Expected(des, next, m.id, place, g) == [m]
    ensures QueueOk(des, q + [m], next, place, g)
  {
    Added(q, m);
  }

  lemma QueueTaken(des: Cipher, q: seq<Message>, reg: History, next: History, place: Place, g: Guid, i: nat)
    requires QueueOk(des, q, reg, place, g) && i < |q| && IsHandshake(q[i]) && SameBut(reg, next, q[i].id)
    requires Expected(des, next, q[i].id, place, g) == []
    ensures QueueOk(des, RemoveAt(q, i), next, place, g)
  {
    Taken(des, q, reg, place, g, i);
  }

  /** Data messages neither add to nor take from what a queue holds of the handshakes. */
  lemma {:induction false} DataPushed(des: Cipher, q: seq<Message>, out: seq<Message>, reg: History,
                                       place: Place, g: Guid)
    requires QueueOk(des, q, reg, place, g) && forall i :: 0 <= i < |out| ==> !IsHandshake(out[i])
    ensures QueueOk(des, q + out, reg, place, g)
    decreases |out|
  {
    if out == [] {
      assert q + out == q;
    } else {
      Added(q, out[0]);
      DataPushed(des, q + [out[0]], out[1..], reg, place, g);
      assert q + [out[0]] + out[1..] == q + out;
    }
  }

  lemma DataTaken(des: Cipher, q: seq<Message>, reg: History, place: Place, g: Guid, i: nat)
    requires QueueOk(des, q, reg, place, g) && i < |q| && !IsHandshake(q[i])
    ensures QueueOk(des, RemoveAt(q, i), reg, place, g)
  {
    Taken(des, q, reg, place, g, i);
  }

  lemma DataGrows(q: seq<Message>, reg: History, next: History, place: Place, g: Guid)
    requires AllDataOk(q, reg, place, g) && Grows(reg, next)
    ensures AllDataOk(q, next, place, g)
  {
    forall i | 0 <= i < |q| && !IsHandshake(q[i])
      ensures DataOk(next, q[i])
    {
      assert DataOk(reg, q[i]);
    }
  }

  // ------------------------------------------------------------------ whole states

  /** Node g sees no difference between two histories. */
  ghost predicate SameAt(des: Cipher, reg: History, next: History, g: Guid) {
    forall id ::
      && RecordAt(reg, id, g) == RecordAt(next, id, g)
      && Expected(des, reg, id, Outgoing, g) == Expected(des, next, id, Outgoing, g)
      && Expected(des, reg, id, Arrived, g) == Expected(des, next, id, Arrived, g)
      && Told(reg, id, g) == Told(next, id, g)
  }

  lemma NodeUnaffected(des: Cipher, n: Node, reg: History, next: History, g: Guid)
    requires NodeOk(des, n, reg, g) && SameAt(des, reg, next, g) && Grows(reg, next)
    ensures NodeOk(des, n, next, g)
  {
    DataGrows(n.k.outq, reg, next, Outgoing, g);
    DataGrows(n.k.inq, reg, next, Arrived, g);
    assert forall id :: RecordAt(reg, id, g) == RecordAt(next, id, g);
  }

  /** One node and the network change; the other nodes see no difference. */
  lemma OneNode(des: Cipher, s: System, reg: History, g: Guid, n: Node, net: seq<Message>, next: History)
    requires Inv(des, s, reg) && Grows(reg, next) && g < |s.nodes|
    requires forall h :: 0 <= h < |s.nodes| && h != g ==> SameAt(des, reg, next, h)
    requires forall id :: id in next ==> EntryOk(next[id], |s.nodes|)
    requires NodeOk(des, n, next, g)
    requires QueueOk(des, net, next, Flying, 0) && AllDataOk(net, next, Flying, 0)
    ensures Inv(des, System(s.nodes[g := n], net), next)
  {
    forall h | 0 <= h < |s.nodes| && h != g
      ensures NodeOk(des, s.nodes[h], next, h)
    {
      NodeUnaffected(des, s.nodes[h], reg, next, h);
    }
  }

  /** The network is untouched by a change elsewhere. */
  lemma NetUnaffected(des: Cipher, q: seq<Message>, reg: History, next: History, c: ConnId)
    requires QueueOk(des, q, reg, Flying, 0) && AllDataOk(q, reg, Flying, 0)
    requires Grows(reg, next) && SameBut(reg, next, c)
    requires Expected(des, reg, c, Flying, 0) == Expected(des, next, c, Flying, 0)
    ensures QueueOk(des, q, next, Flying, 0) && AllDataOk(q, next, Flying, 0)
  {
    DataGrows(q, reg, next, Flying, 0);
  }

  // -------------------------------------------------------------------- initiation

  lemma FreshIdUnknown(des: Cipher, s: System, reg: History, id: ConnId)
    requires Inv(des, s, reg) && FreshId(s, id)
    ensures id !in reg
  {
    forall c | c in reg
      ensures Find(s.nodes[reg[c].initiator].k.conns, c).Some?
    {
      assert EntryOk(reg[c], |s.nodes|) && NodeOk(des, s.nodes[reg[c].initiator], reg, reg[c].initiator);
      assert RecordAt(reg, c, reg[c].initiator).Some?;
    }
  }

  lemma InitiatedNode(des: Cipher, n: Node, reg: History, g: Guid, remote: Guid, id: ConnId, ch: Chance, t: Node)
    requires NodeOk(des, n, reg, g) && id !in reg && remote != g
    requires t.k == Initiated(n.k, remote, id, ch) && t.completed == n.completed && t.halted == n.halted
    ensures NodeOk(des, t, reg[id := Started(g, remote, ch)], g)
  {
    var h := Started(g, remote, ch);
    var next := reg[id := h];
    ConnsAppended(n.k.conns, reg, next, g, InitiatorRecord(h, id));
    InitiatedQueues(des, n.k, reg, g, remote, id, ch);
  }

  lemma InitiatedQueues(des: Cipher, k: Controller, reg: History, g: Guid, remote: Guid, id: ConnId, ch: Chance)
    requires id !in reg
    requires QueueOk(des, k.outq, reg, Outgoing, g) && AllDataOk(k.outq, reg, Outgoing, g)
    requires QueueOk(des, k.inq, reg, Arrived, g) && AllDataOk(k.inq, reg, Arrived, g)
    ensures
      var next := reg[id := Started(g, remote, ch)];
      var outq := k.outq + [Pending(des, Started(g, remote, ch), id)];
      && QueueOk(des, outq, next, Outgoing, g) && AllDataOk(outq, next, Outgoing, g)
      && QueueOk(des, k.inq, next, Arrived, g) && AllDataOk(k.inq, next, Arrived, g)
  {
    var next := reg[id := Started(g, remote, ch)];
    QueuePushed(des, k.outq, reg, next, Outgoing, g, Pending(des, Started(g, remote, ch), id));
    DataGrows(k.outq, reg, next, Outgoing, g);
    DataGrows(k.inq, reg, next, Arrived, g);
  }

  lemma InitiationKeeps(des: Cipher, s: System, reg: History, g: Guid, remote: Guid, id: ConnId, ch: Chance, n: Node)
    requires Inv(des, s, reg) && CanInitiate(s, g, remote, id)
    requires n.k == Initiated(s.nodes[g].k, remote, id, ch)
    requires n.completed == s.nodes[g].completed && n.halted == s.nodes[g].halted
    ensures Inv(des, System(s.nodes[g := n], s.net), reg[id := Started(g, remote, ch)])
  {
    FreshIdUnknown(des, s, reg, id);
    var next := reg[id := Started(g, remote, ch)];
    InitiatedNode(des, s.nodes[g], reg, g, remote, id, ch, n);
    NetUnaffected(des, s.net, reg, next, id);
    OneNode(des, s, reg, g, n, s.net, next);
  }

  // ---------------------------------------------------------------------- movement

  /** A message m of its connection's entry, waiting at one place, is put at another. */
  ghost predicate Moves(des: Cipher, reg: History, m: Message, from: Place, to: Place) {
    && from != Consumed && to != Consumed
    && (IsHandshake(m) ==> m.id in reg && reg[m.id].place == from && m == Pending(des, reg[m.id], m.id))
    && (!IsHandshake(m) ==> DataOk(reg, m))
  }

  /** What a move does to the history: nothing, or the place in one entry. */
  lemma MovedFacts(des: Cipher, reg: History, m: Message, from: Place, to: Place, n: nat)
    requires Moves(des, reg, m, from, to)
    requires forall id :: id in reg ==> EntryOk(reg[id], n)
    ensures
      var next := Moved(reg, m, to);
      && Grows(reg, next) && SameBut(reg, next, m.id)
      && (IsHandshake(m) ==>
            m.id in next && next[m.id] == reg[m.id].(place := to) && m == Pending(des, next[m.id], m.id))
      && (!IsHandshake(m) ==> next == reg)
      && (forall id :: id in next ==> EntryOk(next[id], n))
  {
  }

  lemma MovedRecords(reg: History, m: Message, to: Place, g: Guid, id: ConnId)
    ensures RecordAt(Moved(reg, m, to), id, g) == RecordAt(reg, id, g)
    ensures Told(Moved(reg, m, to), id, g) == Told(reg, id, g)
  {
  }

  lemma MovedConns(conns: seq<Request>, completed: seq<ConnId>, reg: History, m: Message, to: Place, g: Guid)
    requires ConnsOk(conns, reg, g) && ToldOk(completed, reg, g)
    ensures ConnsOk(conns, Moved(reg, m, to), g) && ToldOk(completed, Moved(reg, m, to), g)
  {
    forall id
      ensures RecordAt(Moved(reg, m, to), id, g) == RecordAt(reg, id, g)
      ensures Told(Moved(reg, m, to), id, g) == Told(reg, id, g)
    {
      MovedRecords(reg, m, to, g, id);
    }
  }

  lemma LeftExpected(des: Cipher, reg: History, m: Message, from: Place, to: Place, g: Guid, id: ConnId)
    requires Moves(des, reg, m, from, to) && from != to
    ensures Expected(des, Moved(reg, m, to), id, from, g)
         == if IsHandshake(m) && id == m.id then [] else Expected(des, reg, id, from, g)
  {
  }

  /** The queue a message leaves. */
  lemma QueueLeft(des: Cipher, q: seq<Message>, reg: History, m: Message, from: Place, to: Place, g: Guid, i: nat)
    requires QueueOk(des, q, reg, from, g) && AllDataOk(q, reg, from, g) && i < |q| && q[i] == m && from != to
    requires Moves(des, reg, m, from, to)
    ensures QueueOk(des, RemoveAt(q, i), Moved(reg, m, to), from, g)
    ensures AllDataOk(RemoveAt(q, i), Moved(reg, m, to), from, g)
  {
    var next := Moved(reg, m, to);
    Taken(des, q, reg, from, g, i);
    forall id
      ensures Of(RemoveAt(q, i), id) == Expected(des, next, id, from, g)
    {
      LeftExpected(des, reg, m, from, to, g, id);
    }
    forall j | 0 <= j < |RemoveAt(q, i)| && !IsHandshake(RemoveAt(q, i)[j])
      ensures DataOk(next, RemoveAt(q, i)[j])
    {
      assert RemoveAt(q, i)[j] == q[if j < i then j else j + 1];
    }
  }

  lemma EnteredExpected(des: Cipher, reg: History, m: Message, from: Place, to: Place, g: Guid, id: ConnId)
    requires Moves(des, reg, m, from, to) && from != to && Keeps(to, m, g)
    ensures Expected(des, Moved(reg, m, to), id, to, g)
         == Expected(des, reg, id, to, g) + if IsHandshake(m) && m.id == id then [m] else []
  {
  }

  /** The queue it enters. */
  lemma QueueEntered(des: Cipher, q: seq<Message>, reg: History, m: Message, from: Place, to: Place, g: Guid)
    requires QueueOk(des, q, reg, to, g) && AllDataOk(q, reg, to, g) && from != to && Keeps(to, m, g)
    requires Moves(des, reg, m, from, to)
    ensures QueueOk(des, q + [m], Moved(reg, m, to), to, g)
    ensures AllDataOk(q + [m], Moved(reg, m, to), to, g)
  {
    Added(q, m);
    forall id
      ensures Of(q + [m], id) == Expected(des, Moved(reg, m, to), id, to, g)
    {
      EnteredExpected(des, reg, m, from, to, g, id);
    }
    forall i | 0 <= i < |q + [m]| && !IsHandshake((q + [m])[i])
      ensures DataOk(Moved(reg, m, to), (q + [m])[i])
    {
      assert i < |q| ==> DataOk(reg, q[i]);
    }
  }

  lemma MovedExpected(des: Cipher, reg: History, m: Message, from: Place, to: Place, place: Place, g: Guid, id: ConnId)
    requires Moves(des, reg, m, from, to)
    requires (place != from && place != to) || !Keeps(place, m, g)
    ensures Expected(des, Moved(reg, m, to), id, place, g) == Expected(des, reg, id, place, g)
  {
  }

  /** A queue the message neither leaves nor enters. */
  lemma QueueBeside(des: Cipher, q: seq<Message>, reg: History, m: Message, from: Place, to: Place, place: Place,
                    g: Guid)
    requires QueueOk(des, q, reg, place, g) && AllDataOk(q, reg, place, g)
    requires Moves(des, reg, m, from, to)
    requires (place != from && place != to) || !Keeps(place, m, g)
    ensures QueueOk(des, q, Moved(reg, m, to), place, g) && AllDataOk(q, Moved(reg, m, to), place, g)
  {
    forall id
      ensures Of(q, id) == Expected(des, Moved(reg, m, to), id, place, g)
    {
      MovedExpected(des, reg, m, from, to, place, g, id);
    }
    forall i | 0 <= i < |q| && !IsHandshake(q[i])
      ensures DataOk(Moved(reg, m, to), q[i])
    {
      assert DataOk(reg, q[i]);
    }
  }

  lemma MovedSameAt(des: Cipher, reg: History, m: Message, from: Place, to: Place, g: Guid)
    requires Moves(des, reg, m, from, to)
    requires IsHandshake(m) && from == Outgoing ==> m.sender != g
    requires IsHandshake(m) && to == Arrived ==> m.recipient != g
    requires from != Arrived && to != Outgoing
    ensures SameAt(des, reg, Moved(reg, m, to), g)
  {
    forall id
      ensures RecordAt(Moved(reg, m, to), id, g) == RecordAt(reg, id, g)
      ensures Told(Moved(reg, m, to), id, g) == Told(reg, id, g)
    {
      MovedRecords(reg, m, to, g, id);
    }
  }

  lemma EmitKeeps(des: Cipher, s: System, reg: History, g: Guid)
    requires Inv(des, s, reg) && Enabled(s, Emit(g, true))
    ensures Inv(des, Next(des, s, Emit(g, true)), NextHistory(des, s, reg, Emit(g, true)))
  {
    var n, next := s.nodes[g], NextHistory(des, s, reg, Emit(g, true));
    var m := n.k.outq[0];
    assert NodeOk(des, n, reg, g);
    EmitFacts(des, s, reg, g);
    var t := n.(k := n.k.(outq := RemoveAt(n.k.outq, 0)));
    MovedFacts(des, reg, m, Outgoing, Flying, |s.nodes|);
    QueueLeft(des, n.k.outq, reg, m, Outgoing, Flying, g, 0);
    QueueBeside(des, n.k.inq, reg, m, Outgoing, Flying, Arrived, g);
    MovedConns(n.k.conns, n.completed, reg, m, Flying, g);
    QueueEntered(des, s.net, reg, m, Outgoing, Flying, 0);
    forall h | 0 <= h < |s.nodes| && h != g
      ensures SameAt(des, reg, next, h)
    {
      MovedSameAt(des, reg, m, Outgoing, Flying, h);
    }
    OneNode(des, s, reg, g, t, s.net + [m], next);
  }

  /** A queued message is its sender's, can be moved, and goes to a node of the network. */
  lemma EmitFacts(des: Cipher, s: System, reg: History, g: Guid)
    requires Inv(des, s, reg) && Enabled(s, Emit(g, true))
    ensures
      var m := s.nodes[g].k.outq[0];
      && Moves(des, reg, m, Outgoing, Flying) && m.recipient < |s.nodes|
      && (IsHandshake(m) ==> m.sender == g)
    ensures RemoveAt(s.nodes[g].k.outq, 0) == s.nodes[g].k.outq[1..]
  {
    var n := s.nodes[g];
    var m := n.k.outq[0];
    assert NodeOk(des, n, reg, g);
    Taken(des, n.k.outq, reg, Outgoing, g, 0);
    assert IsHandshake(m) || DataOk(reg, m);
    assert EntryOk(reg[m.id], |s.nodes|);
  }

  lemma DeliverKeeps(des: Cipher, s: System, reg: History, i: nat)
    requires Inv(des, s, reg) && Enabled(s, Deliver(i))
    ensures Inv(des, Next(des, s, Deliver(i)), NextHistory(des, s, reg, Deliver(i)))
  {
    var m, next := s.net[i], NextHistory(des, s, reg, Deliver(i));
    var g := m.recipient;
    var n := s.nodes[g];
    assert NodeOk(des, n, reg, g);
    Taken(des, s.net, reg, Flying, 0, i);
    MovedFacts(des, reg, m, Flying, Arrived, |s.nodes|);
    QueueLeft(des, s.net, reg, m, Flying, Arrived, 0, i);
    QueueEntered(des, n.k.inq, reg, m, Flying, Arrived, g);
    QueueBeside(des, n.k.outq, reg, m, Flying, Arrived, Outgoing, g);
    MovedConns(n.k.conns, n.completed, reg, m, Arrived, g);
    forall h | 0 <= h < |s.nodes| && h != g
      ensures SameAt(des, reg, next, h)
    {
      MovedSameAt(des, reg, m, Flying, Arrived, h);
    }
    OneNode(des, s, reg, g, Received(n, m), RemoveAt(s.net, i), next);
  }

  lemma DropKeeps(des: Cipher, s: System, reg: History, i: nat)
    requires Inv(des, s, reg) && Enabled(s, Drop(i))
    ensures Inv(des, Next(des, s, Drop(i)), NextHistory(des, s, reg, Drop(i)))
  {
    var m, next := s.net[i], NextHistory(des, s, reg, Drop(i));
    Taken(des, s.net, reg, Flying, 0, i);
    MovedFacts(des, reg, m, Flying, Lost, |s.nodes|);
    QueueLeft(des, s.net, reg, m, Flying, Lost, 0, i);
    forall g | 0 <= g < |s.nodes|
      ensures NodeOk(des, s.nodes[g], next, g)
    {
      MovedSameAt(des, reg, m, Flying, Lost, g);
      NodeUnaffected(des, s.nodes[g], reg, next, g);
    }
  }

  // ------------------------------------------------------------------------- ticks

  /** The first message in a node's in queue: its connection's pending one, or data. */
  lemma InboxFacts(des: Cipher, s: System, reg: History, g: Guid)
    requires Inv(des, s, reg) && g < |s.nodes| && s.nodes[g].k.inq != []
    ensures
      var m := s.nodes[g].k.inq[0];
      && m.id in reg && m.recipient == g && m.sender < |s.nodes| && m.sender != g
      && (IsHandshake(m) ==> reg[m.id].place == Arrived && m == Pending(des, reg[m.id], m.id))
      && (!IsHandshake(m) ==> DataOk(reg, m))
    ensures RemoveAt(s.nodes[g].k.inq, 0) == s.nodes[g].k.inq[1..]
  {
    var n := s.nodes[g];
    var m := n.k.inq[0];
    assert NodeOk(des, n, reg, g);
    Taken(des, n.k.inq, reg, Arrived, g, 0);
    assert IsHandshake(m) || DataOk(reg, m);
    assert EntryOk(reg[m.id], |s.nodes|);
  }

  /** An entry whose message is being processed at node g. */
  predicate AtNode(des: Cipher, reg: History, id: ConnId, g: Guid, n: nat) {
    && id in reg && reg[id].place == Arrived && EntryOk(reg[id], n)
    && Pending(des, reg[id], id).recipient == g
  }

  lemma AdvancedFacts(des: Cipher, reg: History, id: ConnId, ch: Chance, g: Guid, n: nat)
    requires AtNode(des, reg, id, g, n) && forall c :: c in reg ==> EntryOk(reg[c], n)
    ensures
      var next := reg[id := Advanced(des, reg[id], ch)];
      && Grows(reg, next) && SameBut(reg, next, id)
      && (forall c :: c in next ==> EntryOk(next[c], n))
  {
  }

  lemma AdvancedSameAt(des: Cipher, reg: History, id: ConnId, ch: Chance, g: Guid, n: nat, h: Guid)
    requires AtNode(des, reg, id, g, n) && h != g
    ensures SameAt(des, reg, reg[id := Advanced(des, reg[id], ch)], h)
  {
    var next := reg[id := Advanced(des, reg[id], ch)];
    assert RecordAt(reg, id, h) == RecordAt(next, id, h);
    assert Told(reg, id, h) == Told(next, id, h);
    assert Expected(des, reg, id, Outgoing, h) == Expected(des, next, id, Outgoing, h);
  }

  /** The in queue after the tick, and the out queue with the answer, if there is one. */
  lemma TickedIn(des: Cipher, k: Controller, reg: History, id: ConnId, ch: Chance, g: Guid, n: nat)
    requires AtNode(des, reg, id, g, n) && k.inq != [] && IsHandshake(k.inq[0]) && k.inq[0].id == id
    requires QueueOk(des, k.inq, reg, Arrived, g) && AllDataOk(k.inq, reg, Arrived, g)
    ensures
      var next := reg[id := Advanced(des, reg[id], ch)];
      QueueOk(des, k.inq[1..], next, Arrived, g) && AllDataOk(k.inq[1..], next, Arrived, g)
  {
    var next := reg[id := Advanced(des, reg[id], ch)];
    assert RemoveAt(k.inq, 0) == k.inq[1..];
    QueueTaken(des, k.inq, reg, next, Arrived, g, 0);
    DataGrows(k.inq, reg, next, Arrived, g);
  }

  /** The answer is what is next expected in the out queue, where nothing was. */
  lemma AnswerExpected(des: Cipher, reg: History, id: ConnId, ch: Chance, g: Guid, n: nat)
    requires AtNode(des, reg, id, g, n)
    ensures
      var h := Advanced(des, reg[id], ch);
      var next := reg[id := h];
      && Grows(reg, next) && SameBut(reg, next, id)
      && Expected(des, reg, id, Outgoing, g) == []
      && Expected(des, next, id, Outgoing, g) == if h.stage == Done then [] else [Pending(des, h, id)]
  {
  }

  lemma AnswerQueued(des: Cipher, q: seq<Message>, reg: History, next: History, id: ConnId, g: Guid,
                     answer: seq<Message>)
    requires QueueOk(des, q, reg, Outgoing, g) && AllDataOk(q, reg, Outgoing, g)
    requires Grows(reg, next) && SameBut(reg, next, id)
    requires Expected(des, reg, id, Outgoing, g) == [] && Expected(des, next, id, Outgoing, g) == answer
    requires answer == [] || (|answer| == 1 && IsHandshake(answer[0]) && answer[0].id == id)
    ensures QueueOk(des, q + answer, next, Outgoing, g) && AllDataOk(q + answer, next, Outgoing, g)
  {
    DataGrows(q, reg, next, Outgoing, g);
    if answer == [] {
      assert q + answer == q;
    } else {
      assert answer == [answer[0]];
      QueuePushed(des, q, reg, next, Outgoing, g, answer[0]);
    }
  }

  lemma TickedOut(des: Cipher, k: Controller, reg: History, id: ConnId, ch: Chance, g: Guid, n: nat)
    requires AtNode(des, reg, id, g, n)
    requires QueueOk(des, k.outq, reg, Outgoing, g) && AllDataOk(k.outq, reg, Outgoing, g)
    ensures
      var h := Advanced(des, reg[id], ch);
      var next := reg[id := h];
      var outq := if h.stage == Done then k.outq else k.outq + [Pending(des, h, id)];
      QueueOk(des, outq, next, Outgoing, g) && AllDataOk(outq, next, Outgoing, g)
  {
    var h := Advanced(des, reg[id], ch);
    var next := reg[id := h];
    var answer := Expected(des, next, id, Outgoing, g);
    AnswerExpected(des, reg, id, ch, g, n);
    assert h.stage == Done ==> k.outq + answer == k.outq;
    AnswerQueued(des, k.outq, reg, next, id, g, answer);
  }

  /** What every stage's handler does to the controller when the node is in order. */
  function Handled(des: Cipher, k: Controller, reg: History, id: ConnId, ch: Chance): Controller
    requires id in reg && k.inq != []
  {
    var h := Advanced(des, reg[id], ch);
    var i := IndexOf(k.conns, id);
    var r := if h.stage == Replied || h.stage == Confirmed then ResponderRecord(h, id) else InitiatorRecord(h, id);
    Controller(k.guid, if i < |k.conns| then k.conns[i := r] else k.conns + [r],
               if h.stage == Done then k.outq else k.outq + [Pending(des, h, id)], k.inq[1..])
  }

  function CallMade(des: Cipher, reg: History, id: ConnId, ch: Chance): Callback
    requires id in reg
  {
    var h := Advanced(des, reg[id], ch);
    match h.stage
    case Replied => IncomingCall(id)
    case Confirmed => CompletedCall(id)
    case Done => if h.okay then CompletedCall(id) else NoCall
    case _ => NoCall
  }

  /** Where the record of the handled connection is, before the handler runs. */
  lemma RecordHeld(des: Cipher, k: Controller, reg: History, id: ConnId, g: Guid, n: nat)
    requires AtNode(des, reg, id, g, n) && ConnsOk(k.conns, reg, g)
    ensures IndexOf(k.conns, id) < |k.conns| <==> reg[id].stage != Asked
    ensures reg[id].stage != Asked ==>
              k.conns[IndexOf(k.conns, id)] ==
              if reg[id].stage == KeySent then ResponderRecord(reg[id], id) else InitiatorRecord(reg[id], id)
  {
    assert Find(k.conns, id) == RecordAt(reg, id, g);
  }

  lemma CreateRuns(des: Cipher, k: Controller, reg: History, id: ConnId, ch: Chance, g: Guid, n: nat)
    requires AtNode(des, reg, id, g, n) && k.guid == g && k.inq != [] && k.inq[0] == Pending(des, reg[id], id)
    requires reg[id].stage == Asked && IndexOf(k.conns, id) == |k.conns|
    ensures Ticked(des, k, Resolve(n), ch) == Running(Handled(des, k, reg, id, ch), CallMade(des, reg, id, ch))
  {
  }

  lemma KeyRuns(des: Cipher, k: Controller, reg: History, id: ConnId, ch: Chance, g: Guid, n: nat)
    requires AtNode(des, reg, id, g, n) && k.guid == g && k.inq != [] && k.inq[0] == Pending(des, reg[id], id)
    requires reg[id].stage == Replied && IndexOf(k.conns, id) < |k.conns|
    requires k.conns[IndexOf(k.conns, id)] == InitiatorRecord(reg[id], id)
    ensures Ticked(des, k, Resolve(n), ch) == Running(Handled(des, k, reg, id, ch), CallMade(des, reg, id, ch))
  {
  }

  lemma ConfirmRuns(des: Cipher, k: Controller, reg: History, id: ConnId, ch: Chance, g: Guid, n: nat)
    requires AtNode(des, reg, id, g, n) && k.guid == g && k.inq != [] && k.inq[0] == Pending(des, reg[id], id)
    requires reg[id].stage == KeySent && IndexOf(k.conns, id) < |k.conns|
    requires k.conns[IndexOf(k.conns, id)] == ResponderRecord(reg[id], id)
    ensures Ticked(des, k, Resolve(n), ch) == Running(Handled(des, k, reg, id, ch), CallMade(des, reg, id, ch))
  {
  }

  lemma CompleteRuns(des: Cipher, k: Controller, reg: History, id: ConnId, ch: Chance, g: Guid, n: nat)
    requires AtNode(des, reg, id, g, n) && k.guid == g && k.inq != [] && k.inq[0] == Pending(des, reg[id], id)
    requires reg[id].stage == Confirmed && IndexOf(k.conns, id) < |k.conns|
    requires k.conns[IndexOf(k.conns, id)] == InitiatorRecord(reg[id], id)
    ensures Ticked(des, k, Resolve(n), ch) == Running(Handled(des, k, reg, id, ch), CallMade(des, reg, id, ch))
  {
  }

  /** No handler stops, and each does what the history entry says. */
  lemma HandlerRuns(des: Cipher, k: Controller, reg: History, id: ConnId, ch: Chance, g: Guid, n: nat)
    requires AtNode(des, reg, id, g, n) && k.guid == g && k.inq != [] && k.inq[0] == Pending(des, reg[id], id)
    requires ConnsOk(k.conns, reg, g)
    ensures Ticked(des, k, Resolve(n), ch) == Running(Handled(des, k, reg, id, ch), CallMade(des, reg, id, ch))
    ensures IndexOf(k.conns, id) < |k.conns| <==> reg[id].stage != Asked
  {
    RecordHeld(des, k, reg, id, g, n);
    match reg[id].stage
    case Asked => CreateRuns(des, k, reg, id, ch, g, n);
    case Replied => KeyRuns(des, k, reg, id, ch, g, n);
    case KeySent => ConfirmRuns(des, k, reg, id, ch, g, n);
    case Confirmed => CompleteRuns(des, k, reg, id, ch, g, n);
    case Done => assert false;
  }

  lemma HandledConns(des: Cipher, k: Controller, reg: History, id: ConnId, ch: Chance, g: Guid, n: nat)
    requires AtNode(des, reg, id, g, n) && k.inq != [] && ConnsOk(k.conns, reg, g)
    ensures ConnsOk(Handled(des, k, reg, id, ch).conns, reg[id := Advanced(des, reg[id], ch)], g)
  {
    var h := Advanced(des, reg[id], ch);
    var next := reg[id := h];
    assert Find(k.conns, id) == RecordAt(reg, id, g);
    if h.stage == Replied {
      ConnsAppended(k.conns, reg, next, g, ResponderRecord(h, id));
    } else {
      ConnsReplaced(k.conns, reg, next, g, RecordAt(next, id, g).value);
    }
  }

  lemma HandledTold(des: Cipher, completed: seq<ConnId>, reg: History, id: ConnId, ch: Chance, g: Guid, n: nat)
    requires AtNode(des, reg, id, g, n) && ToldOk(completed, reg, g)
    ensures
      var next := reg[id := Advanced(des, reg[id], ch)];
      var call := CallMade(des, reg, id, ch);
      ToldOk(if call.CompletedCall? then completed + [id] else completed, next, g)
  {
    var next := reg[id := Advanced(des, reg[id], ch)];
    assert multiset(completed + [id]) == multiset(completed) + multiset{id};
    assert Told(next, id, g) == Told(reg, id, g) + if CallMade(des, reg, id, ch).CompletedCall? then 1 else 0;
  }

  lemma TickedNode(des: Cipher, n: Node, reg: History, ch: Chance, g: Guid, size: nat)
    requires NodeOk(des, n, reg, g) && n.k.inq != [] && IsHandshake(n.k.inq[0])
    requires
      var id := n.k.inq[0].id;
      AtNode(des, reg, id, g, size) && n.k.inq[0] == Pending(des, reg[id], id)
    ensures NodeOk(des, NodeTicked(des, n, Resolve(size), ch),
                   reg[n.k.inq[0].id := Advanced(des, reg[n.k.inq[0].id], ch)], g)
  {
    var id := n.k.inq[0].id;
    HandlerRuns(des, n.k, reg, id, ch, g, size);
    HandledConns(des, n.k, reg, id, ch, g, size);
    HandledTold(des, n.completed, reg, id, ch, g, size);
    TickedIn(des, n.k, reg, id, ch, g, size);
    TickedOut(des, n.k, reg, id, ch, g, size);
  }

  /** A chat message finds a record with a secret, and changes the notes only. */
  lemma DataHandled(des: Cipher, n: Node, reg: History, ch: Chance, g: Guid, size: nat)
    requires NodeOk(des, n, reg, g) && n.k.inq != [] && !IsHandshake(n.k.inq[0])
    requires n.k.inq[0].sender < size && n.k.inq[0].sender != g
    ensures
      var m := n.k.inq[0];
      && m.id in reg && m.payload.Raw?
      && Ticked(des, n.k, Resolve(size), ch) ==
         Running(n.k.(inq := n.k.inq[1..]),
                 ReceivedCall(m.id, ReadOut(des, reg[m.id].secret, m.payload.bytes, ch.stray, ch.behind)))
    ensures NodeOk(des, NodeTicked(des, n, Resolve(size), ch), reg, g)
  {
    var m := n.k.inq[0];
    assert DataOk(reg, m) && Keeps(Arrived, m, g);
    assert Find(n.k.conns, m.id) == RecordAt(reg, m.id, g);
    assert RemoveAt(n.k.inq, 0) == n.k.inq[1..];
    DataTaken(des, n.k.inq, reg, Arrived, g, 0);
  }

  lemma TickKeeps(des: Cipher, s: System, reg: History, g: Guid, ch: Chance)
    requires Inv(des, s, reg) && Enabled(s, Tick(g, true, ch))
    ensures Inv(des, Next(des, s, Tick(g, true, ch)), NextHistory(des, s, reg, Tick(g, true, ch)))
  {
    var n, next := s.nodes[g], NextHistory(des, s, reg, Tick(g, true, ch));
    var m := n.k.inq[0];
    InboxFacts(des, s, reg, g);
    var t := NodeTicked(des, n, Resolve(|s.nodes|), ch);
    if IsHandshake(m) {
      TickedNode(des, n, reg, ch, g, |s.nodes|);
      AdvancedFacts(des, reg, m.id, ch, g, |s.nodes|);
      NetUnaffected(des, s.net, reg, next, m.id);
      forall h | 0 <= h < |s.nodes| && h != g
        ensures SameAt(des, reg, next, h)
      {
        AdvancedSameAt(des, reg, m.id, ch, g, |s.nodes|, h);
      }
    } else {
      DataHandled(des, n, reg, ch, g, |s.nodes|);
    }
    OneNode(des, s, reg, g, t, s.net, next);
  }

  predicate LooksUp(e: Event) {
    e.Emit? || e.Tick?
  }

  /** An event that meets an unknown peer stops its node, and changes nothing else. */
  lemma StopKeeps(des: Cipher, s: System, reg: History, e: Event)
    requires Inv(des, s, reg) && Enabled(s, e) && LooksUp(e) && !e.known
    ensures Next(des, s, e) == s.(nodes := s.nodes[e.g := s.nodes[e.g].(halted := Some(UnknownPeer))])
    ensures NextHistory(des, s, reg, e) == reg && Inv(des, Next(des, s, e), reg)
  {
    assert NodeOk(des, s.nodes[e.g], reg, e.g);
    OneNode(des, s, reg, e.g, s.nodes[e.g].(halted := Some(UnknownPeer)), s.net, reg);
  }

  // ------------------------------------------------------------------- local steps

  ghost predicate DataFrom(q: seq<Message>, reg: History, g: Guid) {
    forall j :: 0 <= j < |q| ==> !IsHandshake(q[j]) && DataOk(reg, q[j]) && q[j].sender == g
  }

  lemma {:induction false} FlatData(parts: seq<seq<Message>>, reg: History, g: Guid)
    requires forall i :: 0 <= i < |parts| ==> DataFrom(parts[i], reg, g)
    ensures DataFrom(Flat(parts), reg, g)
  {
    if parts != [] {
      FlatData(parts[..|parts| - 1], reg, g);
    }
  }

  /** The chat messages a session send makes: sender, endpoints and secrets are in order. */
  lemma FanOutData(des: Cipher, conns: seq<Request>, members: seq<ConnId>, mem: seq<Byte>, len: nat,
                   tails: seq<seq<Byte>>, reg: History, g: Guid)
    requires len < |mem| && ConnsOk(conns, reg, g)
    requires forall id :: id in reg ==> reg[id].initiator != reg[id].responder
    ensures DataFrom(FanOut(des, conns, members, mem, len, tails), reg, g)
  {
    var p := CompletePrefix(conns, members);
    var parts := Shares(des, conns, members, mem, len, tails, p);
    forall i | 0 <= i < p
      ensures DataFrom(parts[i], reg, g)
    {
      assert CompleteAt(conns, members[i]);
      assert Find(conns, members[i]) == RecordAt(reg, members[i], g);
    }
    FlatData(parts, reg, g);
  }

  lemma SendKeeps(des: Cipher, s: System, reg: History, e: Event)
    requires Inv(des, s, reg) && e.Send? && Enabled(s, e)
    ensures Inv(des, Next(des, s, e), reg)
  {
    var n := s.nodes[e.g];
    var out := FanOut(des, n.k.conns, e.members, e.mem, e.len, e.tails);
    assert NodeOk(des, n, reg, e.g);
    assert forall id :: id in reg ==> EntryOk(reg[id], |s.nodes|);
    FanOutData(des, n.k.conns, e.members, e.mem, e.len, e.tails, reg, e.g);
    DataPushed(des, n.k.outq, out, reg, Outgoing, e.g);
    OneNode(des, s, reg, e.g, NodeAfter(des, s, e), s.net, reg);
  }

  lemma StepKeeps(des: Cipher, s: System, reg: History, e: Event)
    requires Inv(des, s, reg) && Enabled(s, e)
    ensures Inv(des, Next(des, s, e), NextHistory(des, s, reg, e))
  {
    match e
    case NewSession(g, remote, id, ch) => InitiationKeeps(des, s, reg, g, remote, id, ch, NodeAfter(des, s, e));
    case AddPeer(g, si, remote, id, ch) => InitiationKeeps(des, s, reg, g, remote, id, ch, NodeAfter(des, s, e));
    case Send(_, _, _, _, _) => SendKeeps(des, s, reg, e);
    case Emit(g, known) =>
      if known {
        EmitKeeps(des, s, reg, g);
      } else {
        StopKeeps(des, s, reg, e);
      }
    case Deliver(i) => DeliverKeeps(des, s, reg, i);
    case Drop(i) => DropKeeps(des, s, reg, i);
    case Tick(g, known, ch) =>
      if known {
        TickKeeps(des, s, reg, g, ch);
      } else {
        StopKeeps(des, s, reg, e);
      }
    case _ =>
      assert NodeOk(des, s.nodes[e.g], reg, e.g);
      OneNode(des, s, reg, e.g, NodeAfter(des, s, e), s.net, reg);
  }
}
