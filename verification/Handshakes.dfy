/**
 * The history of a run, one entry for each connection id, and what the entry says about
 * the two endpoints' records and the one handshake message of that connection.
 */
module Handshakes {
  import opened Bytes
  import opened Cryptography
  import opened ConnectionRequests
  import opened ConnectionControllers
  import opened Sessions
  import opened Network

  /** Named after the last handshake message sent; Done once the last one is processed. */
  datatype Stage = Asked | Replied | KeySent | Confirmed | Done

  /** Where that message is. */
  datatype Place = Outgoing | Flying | Arrived | Lost | Consumed

  datatype Handshake = Handshake(
    initiator: Guid, responder: Guid, keyI: Keypair, keyR: Keypair, secret: Block, pad: Byte, tail: seq<Byte>,
    stage: Stage, place: Place, okay: bool)

  type History = map<ConnId, Handshake>

  function Rank(s: Stage): nat {
    match s
    case Asked => 0
    case Replied => 1
    case KeySent => 2
    case Confirmed => 3
    case Done => 4
  }

  // ------------------------------------------------------------ what an entry means

  function Pending(des: Cipher, h: Handshake, id: ConnId): Message {
    match h.stage
    case Asked => Message(id, h.initiator, h.responder, CreateSession, PublicKey(h.keyI))
    case Replied => Message(id, h.responder, h.initiator, RespondingCreatedSession, PublicKey(h.keyR))
    case KeySent => Message(id, h.initiator, h.responder, SharingSessionKey, Sealed(h.keyR, h.secret))
    case _ =>
      Message(id, h.responder, h.initiator, CompletedSession, Raw(OkayPayload(des, h.secret, h.pad, h.tail)))
  }

  function InitiatorRecord(h: Handshake, id: ConnId): Request {
    Request(id,
            if Rank(h.stage) < 2 then InitialChallenge else if h.stage == Done then Complete else SessionKeyShare,
            h.initiator, h.responder, h.keyI,
            if Rank(h.stage) < 2 then None else Some(h.secret))
  }

  function ResponderRecord(h: Handshake, id: ConnId): Request {
    Request(id, if Rank(h.stage) < 3 then ChallengeReply else Complete, h.responder, h.initiator, h.keyR,
            if Rank(h.stage) < 3 then None else Some(h.secret))
  }

  /** The record node g has for this connection. */
  function RecordAt(reg: History, id: ConnId, g: Guid): Option<Request> {
    if id !in reg then None
    else if g == reg[id].initiator then Some(InitiatorRecord(reg[id], id))
    else if g == reg[id].responder && reg[id].stage != Asked then Some(ResponderRecord(reg[id], id))
    else None
  }

  predicate Keeps(place: Place, m: Message, g: Guid) {
    match place
    case Outgoing => m.sender == g
    case Arrived => m.recipient == g
    case _ => true
  }

  /** The handshake messages of connection id at this place (of node g). */
  function Expected(des: Cipher, reg: History, id: ConnId, place: Place, g: Guid): seq<Message> {
    if id in reg && reg[id].place == place && Keeps(place, Pending(des, reg[id], id), g)
    then [Pending(des, reg[id], id)] else []
  }

  /** How often node g has been told that connection id is completed. */
  function Told(reg: History, id: ConnId, g: Guid): nat {
    if id in reg && ((g == reg[id].responder && Rank(reg[id].stage) >= 3)
                     || (g == reg[id].initiator && reg[id].stage == Done && reg[id].okay))
    then 1 else 0
  }

  // -------------------------------------------------------------------- invariants

  predicate IsHandshake(m: Message) {
    !m.action.CommunicatingSession?
  }

  /** The handshake messages of one connection in a queue, in order. */
  function Of(q: seq<Message>, id: ConnId): seq<Message> {
    if q == [] then []
    else (if IsHandshake(q[0]) && q[0].id == id then [q[0]] else []) + Of(q[1..], id)
  }

  ghost predicate QueueOk(des: Cipher, q: seq<Message>, reg: History, place: Place, g: Guid) {
    forall id :: Of(q, id) == Expected(des, reg, id, place, g)
  }

  predicate DataOk(reg: History, m: Message) {
    && m.id in reg && Rank(reg[m.id].stage) >= 3 && m.payload.Raw?
    && (|| (m.sender == reg[m.id].initiator && m.recipient == reg[m.id].responder)
        || (m.sender == reg[m.id].responder && m.recipient == reg[m.id].initiator))
  }

  ghost predicate AllDataOk(q: seq<Message>, reg: History, place: Place, g: Guid) {
    forall i :: 0 <= i < |q| && !IsHandshake(q[i]) ==> DataOk(reg, q[i]) && Keeps(place, q[i], g)
  }

  ghost predicate ConnsOk(conns: seq<Request>, reg: History, g: Guid) {
    DistinctIds(conns) && forall id :: Find(conns, id) == RecordAt(reg, id, g)
  }

  ghost predicate ToldOk(completed: seq<ConnId>, reg: History, g: Guid) {
    forall id :: multiset(completed)[id] == Told(reg, id, g)
  }

  ghost predicate NodeOk(des: Cipher, n: Node, reg: History, g: Guid) {
    && n.k.guid == g
    && ConnsOk(n.k.conns, reg, g)
    && QueueOk(des, n.k.outq, reg, Outgoing, g) && AllDataOk(n.k.outq, reg, Outgoing, g)
    && QueueOk(des, n.k.inq, reg, Arrived, g) && AllDataOk(n.k.inq, reg, Arrived, g)
    && ToldOk(n.completed, reg, g)
  }

  predicate EntryOk(h: Handshake, n: nat) {
    && h.initiator < n && h.responder < n && h.initiator != h.responder
    && (h.stage == Done <==> h.place == Consumed)
  }

  ghost predicate Inv(des: Cipher, s: System, reg: History) {
    && (forall id :: id in reg ==> EntryOk(reg[id], |s.nodes|))
    && (forall g :: 0 <= g < |s.nodes| ==> NodeOk(des, s.nodes[g], reg, g))
    && QueueOk(des, s.net, reg, Flying, 0) && AllDataOk(s.net, reg, Flying, 0)
  }

  // ------------------------------------------------------------- how entries change

  /** The entry after its message has been processed with these outside values. */
  function Advanced(des: Cipher, h: Handshake, ch: Chance): Handshake {
    match h.stage
    case Asked => h.(stage := Replied, place := Outgoing, keyR := ch.keypair)
    case Replied => h.(stage := KeySent, place := Outgoing, secret := ch.secret)
    case KeySent => h.(stage := Confirmed, place := Outgoing, pad := ch.pad, tail := ch.tail)
    case _ =>
      h.(stage := Done, place := Consumed,
         okay := OkayArrives(des, h.secret, OkayPayload(des, h.secret, h.pad, h.tail), ch.stray, ch.behind))
  }

  function Started(g: Guid, remote: Guid, ch: Chance): Handshake {
    Handshake(g, remote, ch.keypair, 0, ch.secret, NUL, [], Asked, Outgoing, false)
  }

  function Moved(reg: History, m: Message, place: Place): History {
    if IsHandshake(m) && m.id in reg then reg[m.id := reg[m.id].(place := place)] else reg
  }

  function NextHistory(des: Cipher, s: System, reg: History, e: Event): History
    requires Enabled(s, e)
  {
    match e
    case NewSession(g, remote, id, ch) => reg[id := Started(g, remote, ch)]
    case AddPeer(g, si, remote, id, ch) => reg[id := Started(g, remote, ch)]
    case Emit(g, known) => if known then Moved(reg, s.nodes[g].k.outq[0], Flying) else reg
    case Deliver(i) => Moved(reg, s.net[i], Arrived)
    case Drop(i) => Moved(reg, s.net[i], Lost)
    case Tick(g, known, ch) =>
      var m := s.nodes[g].k.inq[0];
      if known && IsHandshake(m) && m.id in reg then reg[m.id := Advanced(des, reg[m.id], ch)] else reg
    case _ => reg
  }

  /** History next differs from reg in connection c at most. */
  ghost predicate SameBut(reg: History, next: History, c: ConnId) {
    forall id :: id != c ==> (id in reg <==> id in next) && (id in reg ==> reg[id] == next[id])
  }

  /** A later state of the same connection: endpoints and keys stay, the stage never goes back. */
  predicate Later(h: Handshake, l: Handshake) {
    && h.initiator == l.initiator && h.responder == l.responder && h.keyI == l.keyI
    && Rank(h.stage) <= Rank(l.stage)
    && (Rank(h.stage) >= 1 ==> h.keyR == l.keyR)
    && (Rank(h.stage) >= 2 ==> h.secret == l.secret)
  }

  ghost predicate Grows(reg: History, next: History) {
    forall id :: id in reg ==> id in next && Later(reg[id], next[id])
  }

  // ------------------------------------------------------------------ queue lemmas

  lemma {:induction false} OfConcat(a: seq<Message>, b: seq<Message>, id: ConnId)
    ensures Of(a + b, id) == Of(a, id) + Of(b, id)
  {
    if a == [] {
      assert a + b == b;
    } else {
      OfConcat(a[1..], b, id);
      var x := if IsHandshake(a[0]) && a[0].id == id then [a[0]] else [];
      assert Of(a + b, id) == x + Of(a[1..] + b, id) by {
        assert (a + b)[1..] == a[1..] + b;
      }
      assert x + (Of(a[1..], id) + Of(b, id)) == (x + Of(a[1..], id)) + Of(b, id);
    }
  }

  lemma OfSingle(m: Message, id: ConnId)
    ensures Of([m], id) == if IsHandshake(m) && m.id == id then [m] else []
  {
    assert [m][1..] == [];
  }

  lemma OfRemoved(q: seq<Message>, i: nat, id: ConnId)
    requires i < |q|
    ensures Of(q, id) == Of(q[..i], id) + Of([q[i]], id) + Of(q[i + 1..], id)
    ensures Of(RemoveAt(q, i), id) == Of(q[..i], id) + Of(q[i + 1..], id)
  {
    assert q == q[..i] + [q[i]] + q[i + 1..];
    OfConcat(q[..i] + [q[i]], q[i + 1..], id);
    OfConcat(q[..i], [q[i]], id);
    OfConcat(q[..i], q[i + 1..], id);
  }

  /** A handshake message in a queue is the pending one of its connection, and the only one. */
  lemma Taken(des: Cipher, q: seq<Message>, reg: History, place: Place, g: Guid, i: nat)
    requires QueueOk(des, q, reg, place, g) && i < |q|
    ensures
      IsHandshake(q[i]) ==>
        && q[i].id in reg && reg[q[i].id].place == place
        && q[i] == Pending(des, reg[q[i].id], q[i].id) && Keeps(place, q[i], g)
    ensures forall id :: Of(RemoveAt(q, i), id) ==
                         if IsHandshake(q[i]) && id == q[i].id then [] else Of(q, id)
  {
    forall id
      ensures Of(RemoveAt(q, i), id) == if IsHandshake(q[i]) && id == q[i].id then [] else Of(q, id)
      ensures IsHandshake(q[i]) && id == q[i].id ==> Of(q, id) == [q[i]]
    {
      OfRemoved(q, i, id);
      OfSingle(q[i], id);
      if IsHandshake(q[i]) && id == q[i].id {
        assert |Of(q, id)| <= 1;
        assert Of(q, id)[|Of(q[..i], id)|] == q[i];
      }
    }
    if IsHandshake(q[i]) {
      assert Of(q, q[i].id) == Expected(des, reg, q[i].id, place, g) == [q[i]];
    }
  }

  lemma Added(q: seq<Message>, m: Message)
    ensures forall id :: Of(q + [m], id) == Of(q, id) + if IsHandshake(m) && m.id == id then [m] else []
  {
    forall id
      ensures Of(q + [m], id) == Of(q, id) + if IsHandshake(m) && m.id == id then [m] else []
    {
      OfConcat(q, [m], id);
      OfSingle(m, id);
    }
  }
}
