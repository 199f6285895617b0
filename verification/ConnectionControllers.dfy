/**
 * src/net/connection_controller.c: one node's connection list, its message queues (the
 * mux) and the handlers of the handshake.  A handler never looks at the state a record
 * is in before it overwrites it.
 */
module ConnectionControllers {
  import opened Bytes
  import opened Cryptography
  import opened ConnectionRequests

  datatype Controller = Controller(guid: Guid, conns: seq<Request>, outq: seq<Message>, inq: seq<Message>)

  /** The notification a handler gives to the layer above; no handler gives two. */
  datatype Callback =
    | NoCall
    | IncomingCall(c: ConnId)
    | CompletedCall(c: ConnId)
    | ReceivedCall(c: ConnId, text: CString)

  datatype Outcome = Halted(why: Abort) | Running(k: Controller, call: Callback)

  /** peerstore_lookup of a message's sender, giving that peer's guid. */
  type Lookup = Guid -> Option<Guid>

  // ---------------------------------------------------------------- specification

  /** The first record with this id, as the list search finds it; the length if none. */
  function IndexOf(conns: seq<Request>, id: ConnId): (i: nat)
    ensures i <= |conns|
    ensures i < |conns| ==> conns[i].id == id
    ensures forall j :: 0 <= j < i ==> conns[j].id != id
  {
    if conns == [] || conns[0].id == id then 0 else 1 + IndexOf(conns[1..], id)
  }

  function Find(conns: seq<Request>, id: ConnId): (r: Option<Request>)
    ensures r.Some? ==> r.value in conns && r.value.id == id
    ensures r.None? ==> forall j :: 0 <= j < |conns| ==> conns[j].id != id
  {
    var i := IndexOf(conns, id);
    if i < |conns| then Some(conns[i]) else None
  }

  predicate DistinctIds(conns: seq<Request>) {
    forall i, j :: 0 <= i < j < |conns| ==> conns[i].id != conns[j].id
  }

  /** connection_controller_initiation_request for a new connection id. */
  function Initiated(k: Controller, remote: Guid, id: ConnId, ch: Chance): Controller {
    var r := Request(id, InitialChallenge, k.guid, remote, ch.keypair, None);
    k.(conns := k.conns + [r], outq := k.outq + [InitiationMessage(r)])
  }

  /** A record overwritten in place and a message pushed. */
  function Answered(k: Controller, i: nat, e: Exchange, call: Callback): Outcome
    requires i < |k.conns|
  {
    match e
    case Stopped(w) => Halted(w)
    case Made(r, m) => Running(k.(conns := k.conns[i := r], outq := k.outq + [m]), call)
  }

  /** internal_connnection_message_processor. */
  function Processed(des: Cipher, k: Controller, m: Message, lookup: Lookup, ch: Chance): Outcome {
    match lookup(m.sender)
    case None => Halted(UnknownPeer)
    case Some(remote) =>
      if remote == k.guid then Halted(MessageToSelf)
      else
        var i := IndexOf(k.conns, m.id);
        match m.action
        case CreateSession =>
          if i < |k.conns| then Halted(DuplicateCreate)
          else
            var r := Request(m.id, ChallengeReply, k.guid, remote, ch.keypair, None);
            Running(k.(conns := k.conns + [r], outq := k.outq + [ReplyMessage(r)]), IncomingCall(m.id))
        case RespondingCreatedSession =>
          if i == |k.conns| then Halted(ReplyWithoutConnection)
          else
            var r := k.conns[i].(state := SessionKeyShare);
            Answered(k, i, ExchangeMessage(des, r, m, SessionKeyShare, ch), NoCall)
        case SharingSessionKey =>
          if i == |k.conns| then Halted(MissingRecord)
          else if !m.payload.Sealed? || m.payload.owner != k.conns[i].keypair then Halted(CannotUnseal)
          else
            var r := k.conns[i].(state := Complete, secret := Some(m.payload.secret));
            Answered(k, i, ExchangeMessage(des, r, m, Complete, ch), CompletedCall(m.id))
        case CompletedSession =>
          if i == |k.conns| then Halted(MissingRecord)
          else if k.conns[i].secret.None? then Halted(NoSecret)
          else if !m.payload.Raw? then Halted(ForeignPayload)
          else
            var r := k.conns[i].(state := Complete);
            var okay := OkayArrives(des, r.secret.value, m.payload.bytes, ch.stray, ch.behind);
            Running(k.(conns := k.conns[i := r]), if okay then CompletedCall(m.id) else NoCall)
        case CommunicatingSession =>
          if i == |k.conns| then Halted(MissingRecord)
          else if k.conns[i].secret.None? then Halted(NoSecret)
          else if !m.payload.Raw? then Halted(ForeignPayload)
          else
            var text := ReadOut(des, k.conns[i].secret.value, m.payload.bytes, ch.stray, ch.behind);
            Running(k, ReceivedCall(m.id, text))
  }

  /** connection_controller_tick, after the mux has been ticked: at most one message. */
  function Ticked(des: Cipher, k: Controller, lookup: Lookup, ch: Chance): Outcome {
    if k.inq == [] then Running(k, NoCall)
    else Processed(des, k.(inq := k.inq[1..]), k.inq[0], lookup, ch)
  }

  /** What a send over one record adds to the out queue: a message, if it has a secret. */
  function MemberMessage(des: Cipher, r: Option<Request>, mem: seq<Byte>, len: nat, tail: seq<Byte>): seq<Message>
    requires len < |mem|
  {
    if r.None? || r.value.secret.None? then []
    else [DataMessage(des, r.value, r.value.secret.value, mem, len, tail)]
  }

  // ------------------------------------------------------------------- list lemmas

  lemma FindIs(conns: seq<Request>, i: nat)
    requires i < |conns| && DistinctIds(conns)
    ensures IndexOf(conns, conns[i].id) == i && Find(conns, conns[i].id) == Some(conns[i])
  {
    var j := IndexOf(conns, conns[i].id);
    assert j <= i && conns[j].id == conns[i].id;
  }

  lemma FindAppend(conns: seq<Request>, r: Request, id: ConnId)
    ensures Find(conns + [r], id) ==
            if Find(conns, id).Some? then Find(conns, id) else if r.id == id then Some(r) else None
  {
    var i, j := IndexOf(conns, id), IndexOf(conns + [r], id);
    if i < |conns| {
      assert (conns + [r])[i].id == id;
      assert j <= i;
      assert conns[j] == (conns + [r])[j];
    } else {
      assert forall l :: 0 <= l < |conns| ==> (conns + [r])[l] == conns[l];
      assert (conns + [r])[|conns|] == r;
    }
  }

  lemma FindReplace(conns: seq<Request>, i: nat, r: Request, id: ConnId)
    requires i < |conns| && r.id == conns[i].id && DistinctIds(conns)
    ensures DistinctIds(conns[i := r])
    ensures Find(conns[i := r], id) == if id == r.id then Some(r) else Find(conns, id)
  {
    var next := conns[i := r];
    assert forall j :: 0 <= j < |conns| ==> next[j].id == conns[j].id;
    FindIs(next, i);
    var j := IndexOf(conns, id);
    if id != r.id && j < |conns| {
      assert next[j] == conns[j];
      FindIs(next, j);
    }
  }

  // ------------------------------------------------------------- one message, any state

  /** What a message needs of the record with its id in order not to stop the process. */
  predicate Fits(m: Message, r: Option<Request>) {
    match m.action
    case CreateSession => r.None?
    case RespondingCreatedSession => r.Some? && m.payload.PublicKey?
    case SharingSessionKey => r.Some? && m.payload.Sealed? && m.payload.owner == r.value.keypair
    case _ => r.Some? && r.value.secret.Some? && m.payload.Raw?
  }

  /** A message stops the process exactly if it is a stranger's or the node's own, or does not fit. */
  lemma StopsExactly(des: Cipher, k: Controller, m: Message, lookup: Lookup, ch: Chance)
    ensures Processed(des, k, m, lookup, ch).Running? <==>
            lookup(m.sender).Some? && lookup(m.sender).value != k.guid && Fits(m, Find(k.conns, m.id))
  {
  }

  /** A message that does not stop it touches no other connection's record, and takes nothing from a queue. */
  lemma OthersUntouched(des: Cipher, k: Controller, m: Message, lookup: Lookup, ch: Chance, id: ConnId)
    requires DistinctIds(k.conns) && id != m.id && Processed(des, k, m, lookup, ch).Running?
    ensures
      var t := Processed(des, k, m, lookup, ch).k;
      Find(t.conns, id) == Find(k.conns, id) && t.inq == k.inq && k.outq <= t.outq && t.guid == k.guid
  {
    var t := Processed(des, k, m, lookup, ch).k;
    var i := IndexOf(k.conns, m.id);
    if i < |k.conns| {
      FindReplace(k.conns, i, t.conns[i], id);
      assert k.conns[i := k.conns[i]] == k.conns;
    } else {
      FindAppend(k.conns, t.conns[i], id);
    }
  }

  /** A tick that finds no message takes nothing, changes nothing and calls nobody, whoever is known. */
  lemma IdleTick(des: Cipher, k: Controller, lookup: Lookup, ch: Chance)
    requires k.inq == []
    ensures Ticked(des, k, lookup, ch) == Running(k, NoCall)
  {
  }

  // -------------------------------------------------------------------------- code

  ghost function Views(s: seq<ConnectionRequest>): (v: seq<Request>)
    reads s
    ensures |v| == |s| && forall i :: 0 <= i < |s| ==> v[i] == s[i].View()
  {
    seq(|s|, i requires 0 <= i < |s| reads s => s[i].View())
  }

  class ConnectionController {
    const guid: Guid
    var connections: seq<ConnectionRequest>
    var outq: seq<Message>
    var inq: seq<Message>

    ghost function View(): Controller
      reads this, connections
    {
      Controller(guid, Views(connections), outq, inq)
    }

    ghost predicate Valid()
      reads this, connections
    {
      DistinctIds(Views(connections))
    }

    constructor (guid: Guid)
      ensures Valid() && View() == Controller(guid, [], [], [])
    {
      this.guid := guid;
      connections, outq, inq := [], [], [];
    }

    /** The search loop over the connection list. */
    method FindConnection(id: ConnId) returns (i: nat)
      ensures i == IndexOf(Views(connections), id)
    {
      i := 0;
      ghost var v := Views(connections);
      while i < |connections|
        invariant i <= |connections| && forall j :: 0 <= j < i ==> v[j].id != id
      {
        if connections[i].id == id {
          break;
        }
        i := i + 1;
      }
    }

    method AddConnectionRequest(c: ConnectionRequest)
      modifies this`connections
      ensures connections == old(connections) + [c]
    {
      connections := connections + [c];
    }

    method MuxPush(m: Message)
      modifies this`outq
      ensures outq == old(outq) + [m]
    {
      outq := outq + [m];
    }

    method InitiationRequest(remote: Guid, id: ConnId, ch: Chance) returns (outrequest: ConnectionRequest)
      requires Valid() && Find(Views(connections), id).None?
      modifies this
      ensures Valid() && View() == Initiated(old(View()), remote, id, ch)
      ensures fresh(outrequest) && outrequest.id == id && connections == old(connections) + [outrequest]
    {
      ghost var was := Views(connections);
      outrequest := new ConnectionRequest(id, InitialChallenge, guid, remote, ch.keypair);
      MuxPush(Message(id, guid, remote, CreateSession, PublicKey(ch.keypair)));
      AddConnectionRequest(outrequest);
      assert Views(connections) == was + [outrequest.View()];
    }

    /** Overwriting one record changes its own view only. */
    twostate lemma OneChanged(i: nat)
      requires old(Valid()) && i < |old(connections)| && connections == old(connections)
      requires forall c: ConnectionRequest :: c in connections && c != connections[i] ==> unchanged(c)
      ensures Valid() && Views(connections) == old(Views(connections))[i := connections[i].View()]
    {
      forall j | 0 <= j < |connections| && j != i
        ensures connections[j].View() == old(connections[j].View())
      {
        assert old(Views(connections))[j].id != old(Views(connections))[i].id;
        assert connections[j] != connections[i] && connections[j] in connections;
      }
      FindReplace(old(Views(connections)), i, connections[i].View(), 0);
    }

    method ProcessMessage(des: Cipher, m: Message, lookup: Lookup, ch: Chance)
      returns (halt: Option<Abort>, call: Callback, c: ConnectionRequest?)
      requires Valid()
      modifies this, connections
      ensures
        match Processed(des, old(View()), m, lookup, ch)
        case Halted(w) => halt == Some(w)
        case Running(k, e) =>
          && halt == None && Valid() && View() == k && call == e
          && (e != NoCall ==> c != null && c in connections && c.id == e.c)
      ensures forall d :: d in old(connections) ==> d in connections
      ensures forall d :: d in connections && d !in old(connections) ==> fresh(d)
      ensures inq == old(inq)
    {
      halt, call, c := None, NoCall, null;
      var remote := lookup(m.sender);
      if remote.None? {
        halt := Some(UnknownPeer);
        return;
      }
      if remote.value == guid {
        halt := Some(MessageToSelf);
        return;
      }
      var i := FindConnection(m.id);
      if i < |connections| {
        assert old(Views(connections))[i].id == m.id;
        c := connections[i];
      }
      match m.action {
        case CreateSession =>
          if c != null {
            halt := Some(DuplicateCreate);
            return;
          }
          c := HandleCreate(des, m, remote.value, ch);
          call := IncomingCall(m.id);
        case RespondingCreatedSession =>
          if c == null {
            halt := Some(ReplyWithoutConnection);
            return;
          }
          c.state := SessionKeyShare;
          halt := Answer(des, c, m, SessionKeyShare, ch);
          OneChanged(i);
        case SharingSessionKey =>
          if c == null {
            halt := Some(MissingRecord);
            return;
          }
          c.state := Complete;
          if !m.payload.Sealed? || m.payload.owner != c.keypair {
            halt := Some(CannotUnseal);
            return;
          }
          c.secret := Some(m.payload.secret);
          call := CompletedCall(m.id);
          halt := Answer(des, c, m, Complete, ch);
          OneChanged(i);
        case CompletedSession =>
          if c == null {
            halt := Some(MissingRecord);
            return;
          }
          c.state := Complete;
          if c.secret.None? || !m.payload.Raw? {
            halt := Some(if c.secret.None? then NoSecret else ForeignPayload);
            return;
          }
          var plain := OpenPayload(des, c.secret.value, m.payload.bytes, ch.stray);
          if CStr(plain + ch.behind) == OKAY {
            call := CompletedCall(m.id);
          }
          OneChanged(i);
        case CommunicatingSession =>
          if c == null {
            halt := Some(MissingRecord);
            return;
          }
          if c.secret.None? || !m.payload.Raw? {
            halt := Some(if c.secret.None? then NoSecret else ForeignPayload);
            return;
          }
          var plain := OpenPayload(des, c.secret.value, m.payload.bytes, ch.stray);
          call := ReceivedCall(m.id, CStr(plain + ch.behind));
      }
    }

    /** The decryption a handler makes, reading one byte behind the payload. */
    method OpenPayload(des: Cipher, secret: Block, bytes: seq<Byte>, stray: Byte) returns (plain: seq<Byte>)
      ensures plain == Opened(des, secret, bytes, stray)
    {
      var res := SymmetricalDecrypt(des, secret, bytes + [stray], |bytes|);
      assert (bytes + [stray])[..|bytes| + 1] == bytes + [stray];
      plain := res[..];
    }

    /** The CREATE_SESSION branch: a record with the sender's chain id, and the reply. */
    method HandleCreate(des: Cipher, m: Message, remote: Guid, ch: Chance) returns (c: ConnectionRequest)
      requires Valid() && Find(Views(connections), m.id).None?
      modifies this
      ensures fresh(c) && c.View() == Request(m.id, ChallengeReply, guid, remote, ch.keypair, None)
      ensures connections == old(connections) + [c] && Valid()
      ensures Views(connections) == old(Views(connections)) + [c.View()]
      ensures outq == old(outq) + [ReplyMessage(c.View())] && inq == old(inq)
    {
      ghost var was := Views(connections);
      c := new ConnectionRequest(m.id, ChallengeReply, guid, remote, ch.keypair);
      var out, why := c.CreateExchangeMessage(des, m, ChallengeReply, ch);
      MuxPush(out.value);
      AddConnectionRequest(c);
      assert Views(connections) == was + [c.View()];
    }

    /** Build the answer to a message and push it; a failed check stops the process. */
    method Answer(des: Cipher, c: ConnectionRequest, m: Message, s: RequestState, ch: Chance)
      returns (halt: Option<Abort>)
      modifies this`outq, c
      ensures
        match ExchangeMessage(des, old(c.View()), m, s, ch)
        case Stopped(w) => halt == Some(w) && outq == old(outq)
        case Made(r, out) => halt == None && c.View() == r && outq == old(outq) + [out]
    {
      var out, why := c.CreateExchangeMessage(des, m, s, ch);
      match out {
        case Some(o) =>
          MuxPush(o);
          halt := None;
        case None =>
          halt := Some(why);
      }
    }

    method Tick(des: Cipher, lookup: Lookup, ch: Chance)
      returns (halt: Option<Abort>, call: Callback, c: ConnectionRequest?)
      requires Valid()
      modifies this, connections
      ensures
        match Ticked(des, old(View()), lookup, ch)
        case Halted(w) => halt == Some(w)
        case Running(k, e) =>
          && halt == None && Valid() && View() == k && call == e
          && (e != NoCall ==> c != null && c in connections && c.id == e.c)
      ensures forall d :: d in old(connections) ==> d in connections
      ensures forall d :: d in connections && d !in old(connections) ==> fresh(d)
    {
      if inq == [] {
        return None, NoCall, null;
      }
      var m := inq[0];
      inq := inq[1..];
      halt, call, c := ProcessMessage(des, m, lookup, ch);
    }

    /** connection_controller_connection_request_send_message. */
    method RequestSendMessage(des: Cipher, r: ConnectionRequest, mem: seq<Byte>, len: nat, tail: seq<Byte>)
      returns (okay: bool)
      requires len < |mem|
      modifies this`outq
      ensures okay == r.secret.Some?
      ensures outq == old(outq) + MemberMessage(des, Some(r.View()), mem, len, tail)
      ensures !okay ==> outq == old(outq)
      ensures okay ==> outq == old(outq) + [DataMessage(des, r.View(), r.secret.value, mem, len, tail)]
    {
      var m := r.SendMessage(des, mem, len, tail);
      okay := m.Some?;
      if okay {
        MuxPush(m.value);
      }
    }
  }
}
