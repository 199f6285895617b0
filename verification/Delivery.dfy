/** Sessions on top of the handshake: what is sent, where it arrives, and who is told. */
module Delivery {
  import opened Bytes
  import opened Cryptography
  import opened ConnectionRequests
  import opened ConnectionControllers
  import opened Sessions
  import opened Network
  import opened Handshakes
  import opened HandshakeSteps
  import opened Protocol

  // ----------------------------------------------------------------------- fan-out

  /** Parts of one message each, put together. */
  lemma {:induction false} FlatSingles(parts: seq<seq<Message>>, each: seq<Message>)
    requires |parts| == |each| && forall j :: 0 <= j < |parts| ==> parts[j] == [each[j]]
    ensures Flat(parts) == each
  {
    if parts != [] {
      FlatSingles(parts[..|parts| - 1], each[..|parts| - 1]);
    }
  }

  /** A record of this node that has its secret. */
  predicate Sendable(conns: seq<Request>, id: ConnId, g: Guid) {
    var r := Find(conns, id);
    r.Some? && r.value.secret.Some? && r.value.local == g
  }

  function DataFor(des: Cipher, conns: seq<Request>, id: ConnId, g: Guid, mem: seq<Byte>, len: nat,
                   tail: seq<Byte>): Message
    requires Sendable(conns, id, g) && len < |mem|
  {
    var r := Find(conns, id).value;
    DataMessage(des, r, r.secret.value, mem, len, tail)
  }

  lemma FanOutOf(des: Cipher, conns: seq<Request>, members: seq<ConnId>, g: Guid, mem: seq<Byte>, len: nat,
                 tails: seq<seq<Byte>>)
    requires len < |mem|
    requires forall j :: 0 <= j < CompletePrefix(conns, members) ==> Sendable(conns, members[j], g)
    ensures
      var out := FanOut(des, conns, members, mem, len, tails);
      && |out| == CompletePrefix(conns, members)
      && forall j :: 0 <= j < |out| ==> out[j] == DataFor(des, conns, members[j], g, mem, len, TailAt(tails, j))
  {
    var p := CompletePrefix(conns, members);
    var each := seq(p, j requires 0 <= j < p && Sendable(conns, members[j], g) =>
      DataFor(des, conns, members[j], g, mem, len, TailAt(tails, j)));
    FlatSingles(Shares(des, conns, members, mem, len, tails, p), each);
  }

  /**
   * A session send in a reached state queues exactly one ciphertext for each connection
   * in the longest complete prefix of the session's list, in list order, each under its
   * own connection's secret.
   */
  lemma FanOutExact(des: Cipher, n: nat, run: seq<Event>, g: Guid, members: seq<ConnId>, mem: seq<Byte>, len: nat,
                    tails: seq<seq<Byte>>)
    requires ValidRun(des, Init(n), run) && g < n && len < |mem|
    ensures
      var conns := Exec(des, Init(n), run).nodes[g].k.conns;
      var out := FanOut(des, conns, members, mem, len, tails);
      && |out| == CompletePrefix(conns, members)
      && forall j :: 0 <= j < |out| ==>
           && Sendable(conns, members[j], g)
           && out[j] == DataFor(des, conns, members[j], g, mem, len, TailAt(tails, j))
  {
    var reg := Reached(des, n, run);
    var s := Exec(des, Init(n), run);
    var conns := s.nodes[g].k.conns;
    forall j | 0 <= j < CompletePrefix(conns, members)
      ensures Sendable(conns, members[j], g)
    {
      assert CompleteAt(conns, members[j]);
      RecordIs(des, s, reg, g, members[j]);
    }
    FanOutOf(des, conns, members, g, mem, len, tails);
  }

  /** A ready session reaches every member, and every member's peer holds the secret. */
  lemma ReadyReachesAll(des: Cipher, n: nat, run: seq<Event>, g: Guid, members: seq<ConnId>, j: nat)
    requires ValidRun(des, Init(n), run) && g < n && j < |members|
    requires Ready(Exec(des, Init(n), run).nodes[g].k.conns, members)
    ensures CompleteAt(Exec(des, Init(n), run).nodes[g].k.conns, members[j])
    ensures
      var s := Exec(des, Init(n), run);
      var r := Find(s.nodes[g].k.conns, members[j]).value;
      && CompletePrefix(s.nodes[g].k.conns, members) == |members|
      && r.secret.Some? && r.remote < n && Find(s.nodes[r.remote].k.conns, members[j]).Some?
      && Find(s.nodes[r.remote].k.conns, members[j]).value.secret == r.secret
  {
    CompleteHasPeer(des, n, run, g, members[j]);
  }

  // ------------------------------------------------------------------- end to end

  /** A chat message at the head of an in queue is opened with the secret of its entry. */
  lemma HeadOpened(des: Cipher, s: System, reg: History, g: Guid, ch: Chance)
    requires Inv(des, s, reg) && g < |s.nodes| && s.nodes[g].k.inq != [] && !IsHandshake(s.nodes[g].k.inq[0])
    ensures
      var k := s.nodes[g].k;
      var m := k.inq[0];
      && m.id in reg && m.payload.Raw?
      && Find(k.conns, m.id).Some? && Find(k.conns, m.id).value.secret == Some(reg[m.id].secret)
      && Ticked(des, k, Resolve(|s.nodes|), ch) ==
         Running(k.(inq := k.inq[1..]),
                 ReceivedCall(m.id, ReadOut(des, reg[m.id].secret, m.payload.bytes, ch.stray, ch.behind)))
  {
    InboxFacts(des, s, reg, g);
    var m := s.nodes[g].k.inq[0];
    assert NodeOk(des, s.nodes[g], reg, g);
    DataHandled(des, s.nodes[g], reg, ch, g, |s.nodes|);
    RecordIs(des, s, reg, g, m.id);
    assert DataOk(reg, m) && Keeps(Arrived, m, g);
  }

  /** A complete record's secret is still what the history says after any longer run. */
  lemma SecretKept(des: Cipher, n: nat, a: seq<Event>, b: seq<Event>, g: Guid, id: ConnId) returns (last: History)
    requires ValidRun(des, Init(n), a + b) && ValidRun(des, Init(n), a) && g < n
    requires CompleteAt(Exec(des, Init(n), a).nodes[g].k.conns, id)
    ensures Inv(des, Exec(des, Init(n), a + b), last) && id in last
    ensures Find(Exec(des, Init(n), a).nodes[g].k.conns, id).value.secret == Some(last[id].secret)
  {
    var s := Exec(des, Init(n), a);
    var reg := Reached(des, n, a);
    ExecSplit(des, Init(n), a, b);
    RunKeeps(des, s, reg, b);
    last := HistoryOf(des, s, reg, b);
    RecordIs(des, s, reg, g, id);
    assert Later(reg[id], last[id]);
  }

  /**
   * End-to-end delivery.  After run a, node g's record r is complete and a chat message x
   * is made from it; a run b follows, and x is then at the head of its recipient's in
   * queue.  The recipient has a record with r's secret, and its tick hands up what
   * that secret makes of the bytes.
   */
  lemma EndToEnd(des: Cipher, n: nat, a: seq<Event>, b: seq<Event>, g: Guid, id: ConnId, mem: seq<Byte>, len: nat,
                 tail: seq<Byte>, ch: Chance)
    requires ValidRun(des, Init(n), a + b) && ValidRun(des, Init(n), a) && g < n
    requires CompleteAt(Exec(des, Init(n), a).nodes[g].k.conns, id) && len < |mem|
    requires
      var r := Find(Exec(des, Init(n), a).nodes[g].k.conns, id).value;
      && r.secret.Some? && r.remote < n
      && var inq := Exec(des, Init(n), a + b).nodes[r.remote].k.inq;
         inq != [] && inq[0] == DataMessage(des, r, r.secret.value, mem, len, tail)
    ensures
      var r := Find(Exec(des, Init(n), a).nodes[g].k.conns, id).value;
      var k := Exec(des, Init(n), a + b).nodes[r.remote].k;
      var out := Ticked(des, k, Resolve(n), ch);
      && Find(k.conns, id).Some? && Find(k.conns, id).value.secret == r.secret
      && var payload := DataPayload(des, r.secret.value, mem, len, tail);
         out == Running(k.(inq := k.inq[1..]),
                        ReceivedCall(id, ReadOut(des, r.secret.value, payload, ch.stray, ch.behind)))
  {
    var last := SecretKept(des, n, a, b, g, id);
    HeadOpened(des, Exec(des, Init(n), a + b), last, Find(Exec(des, Init(n), a).nodes[g].k.conns, id).value.remote, ch);
  }

  /** What a send event puts into its node's out queue. */
  function Batch(des: Cipher, s: System, e: Event): seq<Message>
    requires e.Send? && Enabled(s, e)
  {
    FanOut(des, s.nodes[e.g].k.conns, e.members, e.mem, e.len, e.tails)
  }

  predicate HeadAt(s: System, m: Message) {
    m.recipient < |s.nodes| && s.nodes[m.recipient].k.inq != [] && s.nodes[m.recipient].k.inq[0] == m
  }

  /** Message j of a batch is made from member j's complete record, for that record's peer. */
  lemma BatchMessage(des: Cipher, n: nat, a: seq<Event>, e: Event, j: nat)
    requires ValidRun(des, Init(n), a) && e.Send? && Enabled(Exec(des, Init(n), a), e)
    requires j < |Batch(des, Exec(des, Init(n), a), e)|
    ensures
      var node := Exec(des, Init(n), a).nodes[e.g];
      && |e.members| > j && CompleteAt(node.k.conns, e.members[j])
      && var r := Find(node.k.conns, e.members[j]).value;
         && r.secret.Some? && r.remote < n
         && Batch(des, Exec(des, Init(n), a), e)[j] ==
            DataMessage(des, r, r.secret.value, e.mem, e.len, TailAt(e.tails, j))
  {
    FanOutExact(des, n, a, e.g, e.members, e.mem, e.len, e.tails);
    CompleteHasPeer(des, n, a, e.g, e.members[j]);
  }

  /**
   * From the send to the callback: whatever happens between a send event e and the moment
   * its message j is the next one at its recipient, the recipient's tick hands up, for
   * the same connection, what the sender's own secret makes of the bytes.
   */
  lemma SendDelivered(des: Cipher, n: nat, a: seq<Event>, e: Event, b: seq<Event>, j: nat, ch: Chance)
    requires ValidRun(des, Init(n), a + ([e] + b)) && ValidRun(des, Init(n), a)
    requires e.Send? && Enabled(Exec(des, Init(n), a), e) && j < |Batch(des, Exec(des, Init(n), a), e)|
    requires HeadAt(Exec(des, Init(n), a + ([e] + b)), Batch(des, Exec(des, Init(n), a), e)[j])
    ensures
      var s := Exec(des, Init(n), a);
      var m := Batch(des, s, e)[j];
      var k := Exec(des, Init(n), a + ([e] + b)).nodes[m.recipient].k;
      && Next(des, s, e).nodes[e.g].k.outq == s.nodes[e.g].k.outq + Batch(des, s, e)
      && j < |e.members| && m.id == e.members[j]
      && Find(s.nodes[e.g].k.conns, m.id).Some? && Find(k.conns, m.id).Some?
      && var r := Find(s.nodes[e.g].k.conns, m.id).value;
         && r.secret.Some? && Find(k.conns, m.id).value.secret == r.secret
         && var payload := DataPayload(des, r.secret.value, e.mem, e.len, TailAt(e.tails, j));
            Ticked(des, k, Resolve(n), ch) == Running(k.(inq := k.inq[1..]),
              ReceivedCall(m.id, ReadOut(des, r.secret.value, payload, ch.stray, ch.behind)))
  {
    BatchMessage(des, n, a, e, j);
    EndToEnd(des, n, a, [e] + b, e.g, Batch(des, Exec(des, Init(n), a), e)[j].id, e.mem, e.len, TailAt(e.tails, j), ch);
  }

  /**
   * The text handed up there is the text t of the send if and only if t arrives under the
   * sender's secret, with the length given and what the nodes have behind their buffers.
   */
  lemma CarriedText(des: Cipher, n: nat, a: seq<Event>, e: Event, b: seq<Event>, j: nat, ch: Chance, t: CString)
    requires ValidRun(des, Init(n), a + ([e] + b)) && ValidRun(des, Init(n), a)
    requires e.Send? && Enabled(Exec(des, Init(n), a), e) && j < |Batch(des, Exec(des, Init(n), a), e)|
    requires HeadAt(Exec(des, Init(n), a + ([e] + b)), Batch(des, Exec(des, Init(n), a), e)[j])
    requires ReadsAs(e.mem, t)
    ensures
      var s := Exec(des, Init(n), a);
      var m := Batch(des, s, e)[j];
      var out := Ticked(des, Exec(des, Init(n), a + ([e] + b)).nodes[m.recipient].k, Resolve(n), ch);
      && out.Running? && out.call.ReceivedCall? && out.call.c == m.id
      && Find(s.nodes[e.g].k.conns, m.id).Some? && Find(s.nodes[e.g].k.conns, m.id).value.secret.Some?
      && (out.call.text == t <==>
          TextArrives(des, Find(s.nodes[e.g].k.conns, m.id).value.secret.value, e.mem, e.len, TailAt(e.tails, j),
                      ch.stray, ch.behind, t))
  {
    SendDelivered(des, n, a, e, b, j, ch);
    var s := Exec(des, Init(n), a);
    var r := Find(s.nodes[e.g].k.conns, e.members[j]).value;
    TextArrivesIff(des, r.secret.value, e.mem, e.len, TailAt(e.tails, j), ch.stray, ch.behind, t);
  }

  // ------------------------------------------------------------------ session lists

  /** At one node: session ids differ, members are known records, no record is in two places. */
  ghost predicate SessionsOk(n: Node) {
    && (forall i, j :: 0 <= i < j < |n.sessions| ==> n.sessions[i].sid != n.sessions[j].sid)
    && (forall i, p :: 0 <= i < |n.sessions| && 0 <= p < |n.sessions[i].members| ==>
          Find(n.k.conns, n.sessions[i].members[p]).Some?)
    && (forall i, p, j, q ::
          (&& 0 <= i < |n.sessions| && 0 <= p < |n.sessions[i].members|
           && 0 <= j < |n.sessions| && 0 <= q < |n.sessions[j].members|
           && n.sessions[i].members[p] == n.sessions[j].members[q]) ==> i == j && p == q)
  }

  /** More records, same sessions. */
  lemma SessionsKeep(n: Node, t: Node)
    requires SessionsOk(n) && t.sessions == n.sessions
    requires forall id :: Find(n.k.conns, id).Some? ==> Find(t.k.conns, id).Some?
    ensures SessionsOk(t)
  {
  }

  lemma SessionAdded(n: Node, t: Node, sid: nat, id: ConnId)
    requires SessionsOk(n) && FreshSid(n, sid) && Find(n.k.conns, id).None?
    requires t.sessions == n.sessions + [SessionView(sid, [id])]
    requires forall c :: Find(n.k.conns, c).Some? || c == id ==> Find(t.k.conns, c).Some?
    ensures SessionsOk(t)
  {
    assert forall i :: 0 <= i < |n.sessions| ==> t.sessions[i] == n.sessions[i];
  }

  lemma MemberAdded(n: Node, t: Node, si: nat, id: ConnId)
    requires SessionsOk(n) && si < |n.sessions| && Find(n.k.conns, id).None?
    requires t.sessions == n.sessions[si := n.sessions[si].(members := n.sessions[si].members + [id])]
    requires forall c :: Find(n.k.conns, c).Some? || c == id ==> Find(t.k.conns, c).Some?
    ensures SessionsOk(t)
  {
    forall i, p | 0 <= i < |t.sessions| && 0 <= p < |t.sessions[i].members|
      ensures t.sessions[i].members[p] == id <==> i == si && p == |n.sessions[si].members|
      ensures t.sessions[i].members[p] != id ==>
                p < |n.sessions[i].members| && n.sessions[i].members[p] == t.sessions[i].members[p]
    {
    }
  }

  /** Dropping sessions or members: what is left was there, at other places at most. */
  lemma SessionDropped(n: Node, x: nat)
    requires SessionsOk(n) && x < |n.sessions|
    ensures SessionsOk(n.(sessions := n.sessions[..x] + n.sessions[x + 1..]))
  {
    var t := n.sessions[..x] + n.sessions[x + 1..];
    assert forall i :: 0 <= i < |t| ==> t[i] == n.sessions[if i < x then i else i + 1];
  }

  lemma MemberDropped(n: Node, si: nat, x: nat)
    requires SessionsOk(n) && si < |n.sessions| && x < |n.sessions[si].members|
    ensures
      var m := n.sessions[si].members;
      SessionsOk(n.(sessions := n.sessions[si := n.sessions[si].(members := m[..x] + m[x + 1..])]))
  {
    var m := n.sessions[si].members;
    var t := m[..x] + m[x + 1..];
    assert forall i :: 0 <= i < |t| ==> t[i] == m[if i < x then i else i + 1];
  }

  lemma AppendKeepsKnown(conns: seq<Request>, r: Request)
    ensures forall id :: Find(conns, id).Some? || id == r.id ==> Find(conns + [r], id).Some?
  {
    forall id
      ensures Find(conns, id).Some? || id == r.id ==> Find(conns + [r], id).Some?
    {
      FindAppend(conns, r, id);
    }
  }

  lemma ReplaceKeepsKnown(conns: seq<Request>, i: nat, r: Request)
    requires i < |conns| && r.id == conns[i].id
    ensures forall id :: Find(conns, id).Some? ==> Find(conns[i := r], id).Some?
  {
    forall id | Find(conns, id).Some?
      ensures Find(conns[i := r], id).Some?
    {
      var j := IndexOf(conns, id);
      assert conns[i := r][j].id == id;
    }
  }

  // ----------------------------------------------------------- sessions over a run

  /** Only new ids are known after an event, and none is forgotten. */
  lemma TickSessions(des: Cipher, n: Node, lookup: Lookup, ch: Chance)
    requires SessionsOk(n) && FreshSid(n, ch.sid)
    ensures SessionsOk(NodeTicked(des, n, lookup, ch))
  {
    var t := NodeTicked(des, n, lookup, ch);
    match Ticked(des, n.k, lookup, ch)
    case Halted(w) => SessionsKeep(n, t);
    case Running(k, call) =>
      TickKnown(des, n.k, lookup, ch);
      if call.IncomingCall? {
        SessionAdded(n, t, ch.sid, call.c);
      } else {
        SessionsKeep(n, t);
      }
  }

  lemma TickKnown(des: Cipher, k: Controller, lookup: Lookup, ch: Chance)
    requires Ticked(des, k, lookup, ch).Running?
    ensures
      var out := Ticked(des, k, lookup, ch);
      && (forall id :: Find(k.conns, id).Some? ==> Find(out.k.conns, id).Some?)
      && (out.call.IncomingCall? ==> Find(k.conns, out.call.c).None? && Find(out.k.conns, out.call.c).Some?)
  {
    var out := Ticked(des, k, lookup, ch);
    if out.k.conns != k.conns {
      var m := k.inq[0];
      var i := IndexOf(k.conns, m.id);
      if i == |k.conns| {
        AppendKeepsKnown(k.conns, out.k.conns[i]);
      } else {
        ReplaceKeepsKnown(k.conns, i, out.k.conns[i]);
      }
    }
  }

  lemma SessionRemovedOk(n: Node, sid: nat)
    requires SessionsOk(n)
    ensures SessionsOk(SessionRemoved(n, sid))
  {
    if SessionAt(n.sessions, sid) < |n.sessions| {
      SessionDropped(n, SessionAt(n.sessions, sid));
    }
  }

  lemma MemberRemovedOk(n: Node, si: nat, c: ConnId)
    requires SessionsOk(n) && si < |n.sessions|
    ensures SessionsOk(MemberRemoved(n, si, c))
  {
    var m := n.sessions[si].members;
    if FirstAt(m, c) < |m| {
      MemberDropped(n, si, FirstAt(m, c));
    } else {
      assert MemberRemoved(n, si, c).sessions == n.sessions;
    }
  }

  lemma InitiatedKnown(k: Controller, remote: Guid, id: ConnId, ch: Chance)
    ensures forall c :: Find(k.conns, c).Some? || c == id ==> Find(Initiated(k, remote, id, ch).conns, c).Some?
  {
    AppendKeepsKnown(k.conns, Initiated(k, remote, id, ch).conns[|k.conns|]);
  }

  lemma StepSessions(des: Cipher, s: System, e: Event)
    requires Enabled(s, e) && !e.Deliver? && !e.Drop? && SessionsOk(s.nodes[e.g])
    ensures SessionsOk(NodeAfter(des, s, e))
  {
    var n := s.nodes[e.g];
    match e
    case NewSession(_, remote, id, ch) =>
      InitiatedKnown(n.k, remote, id, ch);
      SessionAdded(n, SessionCreated(n, remote, id, ch), ch.sid, id);
    case AddPeer(_, si, remote, id, ch) =>
      InitiatedKnown(n.k, remote, id, ch);
      if si < |n.sessions| {
        MemberAdded(n, PeerAdded(n, si, remote, id, ch), si, id);
      } else {
        SessionsKeep(n, PeerAdded(n, si, remote, id, ch));
      }
    case RemoveSession(_, sid) => SessionRemovedOk(n, sid);
    case RemoveMember(_, si, c) => MemberRemovedOk(n, si, c);
    case Tick(_, known, ch) => TickSessions(des, n, Found(known, |s.nodes|), ch);
    case IdleTick(_, known, ch) => NodeIdle(des, n, Found(known, |s.nodes|), ch);
    case Send(_, members, mem, len, tails) => SessionsKeep(n, Sent(des, n, members, mem, len, tails));
    case Emit(_, known) => SessionsKeep(n, Emitted(n, Found(known, |s.nodes|)));
  }

  ghost predicate AllSessionsOk(s: System) {
    forall g :: 0 <= g < |s.nodes| ==> SessionsOk(s.nodes[g])
  }

  lemma StepAllSessions(des: Cipher, s: System, e: Event)
    requires Enabled(s, e) && AllSessionsOk(s)
    ensures AllSessionsOk(Next(des, s, e))
  {
    if !e.Deliver? && !e.Drop? {
      StepSessions(des, s, e);
    }
  }

  lemma {:induction false} RunSessions(des: Cipher, s: System, run: seq<Event>)
    requires ValidRun(des, s, run) && AllSessionsOk(s)
    ensures AllSessionsOk(Exec(des, s, run))
    decreases |run|
  {
    if run != [] {
      StepAllSessions(des, s, run[0]);
      RunSessions(des, Next(des, s, run[0]), run[1..]);
    }
  }

  /** Session partition: in every reached state, at every node. */
  lemma SessionPartition(des: Cipher, n: nat, run: seq<Event>, g: Guid)
    requires ValidRun(des, Init(n), run) && g < n
    ensures SessionsOk(Exec(des, Init(n), run).nodes[g])
  {
    RunSessions(des, Init(n), run);
  }

  // ----------------------------------------------------------------------- routing

  lemma {:induction false} AbsentAt(members: seq<ConnId>, c: ConnId)
    requires c !in members
    ensures FirstAt(members, c) == |members|
  {
    if members != [] {
      AbsentAt(members[1..], c);
    }
  }

  lemma OutsiderNotNotified(s: SessionView, c: ConnId, text: CString)
    requires c !in s.members
    ensures SessionNotes(s, c, text) == []
  {
    AbsentAt(s.members, c);
  }

  /** A connection held by no session notifies nobody. */
  lemma {:induction false} NoHolderNoNotes(sessions: seq<SessionView>, c: ConnId, text: CString)
    requires forall i :: 0 <= i < |sessions| ==> c !in sessions[i].members
    ensures AllNotes(sessions, c, text) == []
  {
    if sessions != [] {
      NoHolderNoNotes(sessions[..|sessions| - 1], c, text);
      OutsiderNotNotified(sessions[|sessions| - 1], c, text);
    }
  }

  /** Member p of session i, when no other session holds it: that session alone is notified. */
  lemma {:induction false} OnlyHolderNotified(sessions: seq<SessionView>, i: nat, c: ConnId, text: CString)
    requires i < |sessions| && forall j :: 0 <= j < |sessions| && j != i ==> c !in sessions[j].members
    ensures AllNotes(sessions, c, text) == SessionNotes(sessions[i], c, text)
  {
    var n := |sessions| - 1;
    if i == n {
      NoHolderNoNotes(sessions[..n], c, text);
    } else {
      OnlyHolderNotified(sessions[..n], i, c, text);
      OutsiderNotNotified(sessions[n], c, text);
    }
  }

  /** A member's place in the partition: first in its own list, absent from the others. */
  lemma PlaceOfMember(n: Node, i: nat, p: nat)
    requires SessionsOk(n) && i < |n.sessions| && p < |n.sessions[i].members|
    ensures FirstAt(n.sessions[i].members, n.sessions[i].members[p]) == p
    ensures forall j :: 0 <= j < |n.sessions| && j != i ==> n.sessions[i].members[p] !in n.sessions[j].members
  {
    FirstAtIs(n.sessions[i].members, n.sessions[i].members[p], p);
  }

  /** The notifications of one session for its member p. */
  lemma NotesFrom(s: SessionView, p: nat, text: CString)
    requires p < |s.members| && FirstAt(s.members, s.members[p]) == p
    ensures
      var added := SessionNotes(s, s.members[p], text);
      && |added| == |s.members| - p
      && (forall j :: 0 <= j < |added| ==> added[j] == Note(s.sid, s.members[p + j], text))
  {
  }

  /**
   * Routing of a message on connection c, member p of session i: its session is the only
   * one notified, first for c itself, and then once more for every member listed after c.
   * It is notified for c alone exactly when c is the last member.
   */
  lemma Routing(n: Node, i: nat, p: nat, text: CString, sid: nat)
    requires SessionsOk(n) && i < |n.sessions| && p < |n.sessions[i].members|
    ensures
      var s := n.sessions[i];
      var added := AllNotes(n.sessions, s.members[p], text);
      && Dispatched(n, ReceivedCall(s.members[p], text), sid).notes == n.notes + added
      && |added| == |s.members| - p
      && added[0] == Note(s.sid, s.members[p], text)
      && (forall j :: 0 <= j < |added| ==> added[j] == Note(s.sid, s.members[p + j], text))
      && (|added| == 1 <==> p + 1 == |s.members|)
  {
    PlaceOfMember(n, i, p);
    NotesFrom(n.sessions[i], p, text);
    OnlyHolderNotified(n.sessions, i, n.sessions[i].members[p], text);
  }

  /**
   * From the send to the user: at the tick that takes message j of a send, the recipient's
   * user is notified, with the text handed up, for the connection of the message and every
   * member listed after it in the one session that holds it, and for nobody if none does.
   */
  lemma SendNotified(des: Cipher, n: nat, a: seq<Event>, e: Event, b: seq<Event>, j: nat, ch: Chance)
    requires ValidRun(des, Init(n), a + ([e] + b)) && ValidRun(des, Init(n), a)
    requires e.Send? && Enabled(Exec(des, Init(n), a), e) && j < |Batch(des, Exec(des, Init(n), a), e)|
    requires HeadAt(Exec(des, Init(n), a + ([e] + b)), Batch(des, Exec(des, Init(n), a), e)[j])
    ensures
      var m := Batch(des, Exec(des, Init(n), a), e)[j];
      var node := Exec(des, Init(n), a + ([e] + b)).nodes[m.recipient];
      var out := Ticked(des, node.k, Resolve(n), ch);
      && out.Running? && out.call.ReceivedCall? && out.call.c == m.id
      && Notified(node, NodeTicked(des, node, Resolve(n), ch).notes, m.id, out.call.text)
  {
    SendDelivered(des, n, a, e, b, j, ch);
    var m := Batch(des, Exec(des, Init(n), a), e)[j];
    var node := Exec(des, Init(n), a + ([e] + b)).nodes[m.recipient];
    SessionPartition(des, n, a + ([e] + b), m.recipient);
    var out := Ticked(des, node.k, Resolve(n), ch);
    DispatchNotifies(node.(k := out.k), m.id, out.call.text, ch.sid);
  }

  /** The notes after a message on connection c: one list of one session, or no new ones. */
  ghost predicate Notified(n: Node, notes: seq<Note>, c: ConnId, text: CString) {
    && (forall i, p :: 0 <= i < |n.sessions| && 0 <= p < |n.sessions[i].members| && n.sessions[i].members[p] == c ==>
          notes == n.notes + NotesOf(n.sessions[i], p, text))
    && ((forall i :: 0 <= i < |n.sessions| ==> c !in n.sessions[i].members) ==> notes == n.notes)
  }

  lemma DispatchNotifies(n: Node, c: ConnId, text: CString, sid: nat)
    requires SessionsOk(n)
    ensures Notified(n, Dispatched(n, ReceivedCall(c, text), sid).notes, c, text)
  {
    forall i, p | 0 <= i < |n.sessions| && 0 <= p < |n.sessions[i].members| && n.sessions[i].members[p] == c
      ensures Dispatched(n, ReceivedCall(c, text), sid).notes == n.notes + NotesOf(n.sessions[i], p, text)
    {
      PlaceOfMember(n, i, p);
      OnlyHolderNotified(n.sessions, i, c, text);
    }
    if forall i :: 0 <= i < |n.sessions| ==> c !in n.sessions[i].members {
      NoHolderNoNotes(n.sessions, c, text);
    }
  }
}
