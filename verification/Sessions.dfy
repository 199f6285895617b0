/**
 * src/session/session.c and src/session/session_controller.c: sessions group a node's
 * connections, fan a message out to them and route incoming ones back.
 */
module Sessions {
  import opened Bytes
  import opened Cryptography
  import opened ConnectionRequests
  import opened ConnectionControllers

  /** A session's list holds pointers into the connection list; an id stands for one. */
  datatype SessionView = SessionView(sid: nat, members: seq<ConnId>)

  /** One call of the user's message callback. */
  datatype Note = Note(sid: nat, c: ConnId, text: CString)

  datatype Node = Node(k: Controller, sessions: seq<SessionView>, completed: seq<ConnId>, notes: seq<Note>,
                       halted: Option<Abort>)

  // ---------------------------------------------------------------- specification

  function FirstAt(members: seq<ConnId>, c: ConnId): (i: nat)
    ensures i <= |members|
    ensures i < |members| ==> members[i] == c
    ensures c !in members[..i]
  {
    if members == [] || members[0] == c then 0
    else
      var i := 1 + FirstAt(members[1..], c);
      assert members[..i] == [members[0]] + members[1..][..i - 1];
      i
  }

  lemma {:induction false} FirstAtIs(members: seq<ConnId>, c: ConnId, i: nat)
    requires i < |members| && members[i] == c && c !in members[..i]
    ensures FirstAt(members, c) == i
  {
    if i > 0 {
      assert members[0] == members[..i][0] && members[1..][..i - 1] == members[..i][1..];
      FirstAtIs(members[1..], c, i - 1);
    }
  }

  /** One note for each member from place p on. */
  function NotesOf(s: SessionView, p: nat, text: CString): seq<Note>
    requires p <= |s.members|
  {
    seq(|s.members| - p, j requires 0 <= j < |s.members| - p => Note(s.sid, s.members[p + j], text))
  }

  /** `found` stays set: every member from the first match on is notified. */
  function SessionNotes(s: SessionView, c: ConnId, text: CString): (r: seq<Note>) {
    NotesOf(s, FirstAt(s.members, c), text)
  }

  function AllNotes(sessions: seq<SessionView>, c: ConnId, text: CString): seq<Note> {
    if sessions == [] then []
    else AllNotes(sessions[..|sessions| - 1], c, text) + SessionNotes(sessions[|sessions| - 1], c, text)
  }

  /** The session controller's four callbacks. */
  function Dispatched(n: Node, call: Callback, sid: nat): Node {
    match call
    case NoCall => n
    case IncomingCall(c) => n.(sessions := n.sessions + [SessionView(sid, [c])])
    case CompletedCall(c) => n.(completed := n.completed + [c])
    case ReceivedCall(c, text) => n.(notes := n.notes + AllNotes(n.sessions, c, text))
  }

  function NodeTicked(des: Cipher, n: Node, lookup: Lookup, ch: Chance): Node {
    match Ticked(des, n.k, lookup, ch)
    case Halted(w) => n.(halted := Some(w))
    case Running(k, call) => Dispatched(n.(k := k), call, ch.sid)
  }

  /** A tick without a message leaves the node as it is: records, queues, sessions and notes. */
  lemma NodeIdle(des: Cipher, n: Node, lookup: Lookup, ch: Chance)
    requires n.k.inq == []
    ensures NodeTicked(des, n, lookup, ch) == n
  {
  }

  function SessionCreated(n: Node, remote: Guid, id: ConnId, ch: Chance): Node {
    n.(k := Initiated(n.k, remote, id, ch), sessions := n.sessions + [SessionView(ch.sid, [id])])
  }

  /** The session need not be listed any more; its list is then its holder's affair. */
  function PeerAdded(n: Node, si: nat, remote: Guid, id: ConnId, ch: Chance): Node {
    if si >= |n.sessions| then n.(k := Initiated(n.k, remote, id, ch))
    else
      var s := n.sessions[si];
      n.(k := Initiated(n.k, remote, id, ch), sessions := n.sessions[si := s.(members := s.members + [id])])
  }

  function SessionAt(sessions: seq<SessionView>, sid: nat): (i: nat)
    ensures i <= |sessions|
    ensures i < |sessions| ==> sessions[i].sid == sid
    ensures forall j :: 0 <= j < i ==> sessions[j].sid != sid
  {
    if sessions == [] || sessions[0].sid == sid then 0 else 1 + SessionAt(sessions[1..], sid)
  }

  /** jnx_list_remove_from: the first match goes, if there is one. */
  function RemoveAt<T>(s: seq<T>, i: nat): seq<T>
    requires i <= |s|
  {
    if i == |s| then s else s[..i] + s[i + 1..]
  }

  function SessionRemoved(n: Node, sid: nat): Node {
    n.(sessions := RemoveAt(n.sessions, SessionAt(n.sessions, sid)))
  }

  function MemberRemoved(n: Node, si: nat, c: ConnId): Node
    requires si < |n.sessions|
  {
    var s := n.sessions[si];
    n.(sessions := n.sessions[si := s.(members := RemoveAt(s.members, FirstAt(s.members, c)))])
  }

  predicate CompleteAt(conns: seq<Request>, c: ConnId) {
    var r := Find(conns, c);
    r.Some? && r.value.state == Complete
  }

  /** session_controller_is_session_ready. */
  predicate Ready(conns: seq<Request>, members: seq<ConnId>) {
    members != [] && forall c :: c in members ==> CompleteAt(conns, c)
  }

  /** The length of the longest run of complete connections at the front of the list. */
  function CompletePrefix(conns: seq<Request>, members: seq<ConnId>): (n: nat)
    ensures n <= |members|
    ensures forall j :: 0 <= j < n ==> CompleteAt(conns, members[j])
    ensures n < |members| ==> !CompleteAt(conns, members[n])
  {
    if members == [] || !CompleteAt(conns, members[0]) then 0 else 1 + CompletePrefix(conns, members[1..])
  }

  lemma ReadyIff(conns: seq<Request>, members: seq<ConnId>)
    ensures Ready(conns, members) <==> 0 < |members| == CompletePrefix(conns, members)
  {
    var n := CompletePrefix(conns, members);
    if n < |members| {
      assert members[n] in members;
    }
  }

  function TailAt(tails: seq<seq<Byte>>, i: nat): seq<Byte> {
    if i < |tails| then tails[i] else []
  }

  /** What each of the first i members adds. */
  function Shares(des: Cipher, conns: seq<Request>, members: seq<ConnId>, mem: seq<Byte>, len: nat,
                  tails: seq<seq<Byte>>, i: nat): seq<seq<Message>>
    requires len < |mem| && i <= |members|
  {
    seq(i, j requires 0 <= j < i => MemberMessage(des, Find(conns, members[j]), mem, len, TailAt(tails, j)))
  }

  function Flat(parts: seq<seq<Message>>): seq<Message> {
    if parts == [] then [] else Flat(parts[..|parts| - 1]) + parts[|parts| - 1]
  }

  lemma FlatPush(parts: seq<seq<Message>>, p: seq<Message>)
    ensures Flat(parts + [p]) == Flat(parts) + p
  {
    assert (parts + [p])[..|parts|] == parts;
  }

  lemma NextShare(des: Cipher, conns: seq<Request>, members: seq<ConnId>, mem: seq<Byte>, len: nat,
                  tails: seq<seq<Byte>>, i: nat)
    requires len < |mem| && i < |members|
    ensures Flat(Shares(des, conns, members, mem, len, tails, i + 1))
         == Flat(Shares(des, conns, members, mem, len, tails, i))
            + MemberMessage(des, Find(conns, members[i]), mem, len, TailAt(tails, i))
  {
    var share := MemberMessage(des, Find(conns, members[i]), mem, len, TailAt(tails, i));
    FlatPush(Shares(des, conns, members, mem, len, tails, i), share);
    assert Shares(des, conns, members, mem, len, tails, i + 1)
        == Shares(des, conns, members, mem, len, tails, i) + [share];
  }

  /** The messages of one session send: stop at the first record that is not complete. */
  function FanOut(des: Cipher, conns: seq<Request>, members: seq<ConnId>, mem: seq<Byte>, len: nat,
                  tails: seq<seq<Byte>>): seq<Message>
    requires len < |mem|
  {
    Flat(Shares(des, conns, members, mem, len, tails, CompletePrefix(conns, members)))
  }

  function Sent(des: Cipher, n: Node, members: seq<ConnId>, mem: seq<Byte>, len: nat, tails: seq<seq<Byte>>): Node
    requires len < |mem|
  {
    var out := FanOut(des, n.k.conns, members, mem, len, tails);
    n.(k := n.k.(outq := n.k.outq + out))
  }

  // -------------------------------------------------------------------------- code

  function Ids(s: seq<ConnectionRequest>): (r: seq<ConnId>)
    ensures |r| == |s| && forall i :: 0 <= i < |s| ==> r[i] == s[i].id
  {
    seq(|s|, i requires 0 <= i < |s| => s[i].id)
  }

  class Session {
    const sid: nat
    var connections: seq<ConnectionRequest>

    function View(): SessionView
      reads this
    {
      SessionView(sid, Ids(connections))
    }

    constructor (sid: nat)
      ensures View() == SessionView(sid, []) && connections == []
    {
      this.sid := sid;
      connections := [];
    }

    method AddConnection(c: ConnectionRequest)
      modifies this
      ensures connections == old(connections) + [c]
      ensures View() == old(View()).(members := old(View()).members + [c.id])
    {
      connections := connections + [c];
      assert Ids(connections) == old(Ids(connections)) + [c.id];
    }

    method RemoveConnection(c: ConnectionRequest)
      modifies this
      ensures forall d :: d in connections ==> d in old(connections)
      ensures
        var was := old(View()).members;
        View() == SessionView(sid, RemoveAt(was, FirstAt(was, c.id)))
    {
      ghost var was := Ids(connections);
      var i := 0;
      while i < |connections| && connections[i].id != c.id
        invariant i <= |connections| && connections == old(connections)
        invariant c.id !in was[..i]
      {
        assert was[..i + 1] == was[..i] + [was[i]];
        i := i + 1;
      }
      if i < |connections| {
        FirstAtIs(was, c.id, i);
        connections := connections[..i] + connections[i + 1..];
        assert Ids(connections) == was[..i] + was[i + 1..];
      } else {
        assert was[..i] == was;
      }
    }
  }

  ghost function SessionViews(s: seq<Session>): (v: seq<SessionView>)
    reads s
    ensures |v| == |s| && forall i :: 0 <= i < |s| ==> v[i] == s[i].View()
  {
    seq(|s|, i requires 0 <= i < |s| reads s => s[i].View())
  }

  lemma ViewsAppended(s: seq<Session>, x: Session)
    ensures SessionViews(s + [x]) == SessionViews(s) + [x.View()]
  {
  }

  lemma ViewsRemoved(s: seq<Session>, i: nat)
    requires i < |s|
    ensures SessionViews(s[..i] + s[i + 1..]) == SessionViews(s)[..i] + SessionViews(s)[i + 1..]
  {
  }

  /** The notes of one more session, behind those already made. */
  lemma NotesNext(before: seq<Note>, sessions: seq<SessionView>, h: nat, c: ConnId, text: CString)
    requires h < |sessions|
    ensures before + AllNotes(sessions[..h + 1], c, text)
         == before + AllNotes(sessions[..h], c, text) + SessionNotes(sessions[h], c, text)
  {
    assert sessions[..h + 1][..h] == sessions[..h];
  }

  class SessionController {
    const controller: ConnectionController
    var sessions: seq<Session>
    var completed: seq<ConnId>
    var notes: seq<Note>

    ghost function View(): Node
      reads this, controller, controller.connections, sessions
    {
      Node(controller.View(), SessionViews(sessions), completed, notes, None)
    }

    /** Session members are records of the controller, and sessions are separate objects. */
    ghost predicate Valid()
      reads this, controller, controller.connections, sessions
    {
      && controller.Valid()
      && (forall i, j :: 0 <= i < j < |sessions| ==> sessions[i] != sessions[j])
      && (forall s :: s in sessions ==> Known(s))
    }

    /** A session of this node, listed or removed: its members are the controller's records. */
    ghost predicate Known(s: Session)
      reads controller, s
    {
      forall c :: c in s.connections ==> c in controller.connections
    }

    /** session_controller_create: takes over the controller's callbacks. */
    constructor (controller: ConnectionController)
      requires controller.Valid()
      ensures Valid() && View() == Node(controller.View(), [], [], [], None)
    {
      this.controller := controller;
      sessions, completed, notes := [], [], [];
    }

    method AddSession(s: Session)
      modifies this`sessions
      ensures sessions == old(sessions) + [s]
    {
      sessions := sessions + [s];
    }

    method SessionCreate(remote: Guid, id: ConnId, ch: Chance) returns (ses: Session)
      requires Valid() && Find(controller.View().conns, id).None?
      modifies this, controller
      ensures fresh(ses) && Valid() && View() == SessionCreated(old(View()), remote, id, ch)
      ensures ses.View() == SessionView(ch.sid, [id]) && sessions == old(sessions) + [ses]
    {
      ghost var was := SessionViews(sessions);
      var request := controller.InitiationRequest(remote, id, ch);
      assert SessionViews(sessions) == was;
      ses := ListSession(request, ch.sid);
    }

    /** A new session for one of the controller's records, added to the list. */
    method ListSession(c: ConnectionRequest, sid: nat) returns (s: Session)
      requires Valid() && c in controller.connections
      modifies this`sessions
      ensures fresh(s) && Valid() && s.View() == SessionView(sid, [c.id]) && sessions == old(sessions) + [s]
      ensures View() == old(View()).(sessions := old(View()).sessions + [SessionView(sid, [c.id])])
    {
      ghost var was := SessionViews(sessions);
      s := NewSession(c, sid);
      assert SessionViews(sessions) == was;
      ViewsAppended(sessions, s);
      AddSession(s);
    }

    method NewSession(c: ConnectionRequest, sid: nat) returns (s: Session)
      ensures fresh(s) && s.View() == SessionView(sid, [c.id]) && s.connections == [c]
    {
      s := new Session(sid);
      s.AddConnection(c);
      assert s.View().members == [c.id];
    }

    /** The session at si, or one that is not listed any more. */
    method SessionAddPeer(s: Session, ghost si: nat, remote: Guid, id: ConnId, ch: Chance)
      requires Valid() && Find(controller.View().conns, id).None?
      requires if si < |sessions| then sessions[si] == s else s !in sessions
      modifies controller, s
      ensures Valid() && View() == PeerAdded(old(View()), si, remote, id, ch)
      ensures s.View() == old(s.View()).(members := old(s.View()).members + [id])
      ensures old(Known(s)) ==> Known(s)
    {
      ghost var was := SessionViews(sessions);
      var request := controller.InitiationRequest(remote, id, ch);
      s.AddConnection(request);
      if si < |sessions| {
        assert SessionViews(sessions) == was[si := s.View()];
        assert s.View().members == was[si].members + [id];
      } else {
        assert forall i :: 0 <= i < |sessions| ==> sessions[i] in sessions;
        assert SessionViews(sessions) == was;
      }
    }

    method RemoveSession(s: Session)
      requires Valid()
      modifies this
      ensures Valid() && View() == SessionRemoved(old(View()), s.sid)
    {
      ghost var was := SessionViews(sessions);
      ghost var f := SessionAt(was, s.sid);
      var i := 0;
      while i < |sessions| && sessions[i].sid != s.sid
        invariant i <= f && sessions == old(sessions)
      {
        assert was[i].sid != s.sid;
        i := i + 1;
      }
      if i < |sessions| {
        assert was[i].sid == s.sid;
        ViewsRemoved(sessions, i);
        sessions := sessions[..i] + sessions[i + 1..];
      }
    }

    /** internal_incoming. */
    method InternalIncoming(c: ConnectionRequest, sid: nat)
      requires Valid() && c in controller.connections
      modifies this
      ensures Valid() && View() == Dispatched(old(View()), IncomingCall(c.id), sid)
      ensures View().sessions == old(View()).sessions + [SessionView(sid, [c.id])]
    {
      var s := ListSession(c, sid);
    }

    /** internal_message_received: the flag is set at a match and not cleared after it. */
    method InternalMessageReceived(c: ConnId, text: CString)
      requires Valid()
      modifies this`notes
      ensures View() == Dispatched(old(View()), ReceivedCall(c, text), 0)
    {
      ghost var was := SessionViews(sessions);
      var h := 0;
      while h < |sessions|
        invariant h <= |sessions| && notes == old(notes) + AllNotes(was[..h], c, text)
      {
        NotesNext(old(notes), was, h, c, text);
        NotifySession(sessions[h], c, text);
        h := h + 1;
      }
      assert was[..h] == was;
    }

    method NotifySession(s: Session, c: ConnId, text: CString)
      modifies this`notes
      ensures notes == old(notes) + SessionNotes(s.View(), c, text)
    {
      ghost var v := s.View();
      ghost var f := FirstAt(v.members, c);
      var found, i := false, 0;
      while i < |s.connections|
        invariant i <= |v.members| && found == (f < i)
        invariant notes == old(notes) + SessionNotes(v, c, text)[..if found then i - f else 0]
      {
        var current := s.connections[i];
        assert v.members[i] == current.id;
        assert i < f ==> v.members[i] in v.members[..f];
        if current.id == c {
          found := true;
        }
        if found {
          notes := notes + [Note(s.sid, current.id, text)];
          assert SessionNotes(v, c, text)[i - f] == Note(s.sid, current.id, text);
        }
        i := i + 1;
      }
    }

    /** The callback that a handler makes; c is the record it makes it for. */
    method Dispatch(call: Callback, c: ConnectionRequest?, sid: nat)
      requires Valid()
      requires call.IncomingCall? ==> c != null && c in controller.connections && c.id == call.c
      modifies this
      ensures Valid() && View() == Dispatched(old(View()), call, sid)
    {
      match call {
        case NoCall =>
        case IncomingCall(_) => InternalIncoming(c, sid);
        case CompletedCall(id) => completed := completed + [id];
        case ReceivedCall(id, text) => InternalMessageReceived(id, text);
      }
    }

    /** One tick of the node: the controller's tick and the callback it makes. */
    method Tick(des: Cipher, lookup: Lookup, ch: Chance) returns (halt: Option<Abort>)
      requires Valid()
      modifies this, controller, controller.connections
      ensures
        var next := NodeTicked(des, old(View()), lookup, ch);
        halt == next.halted && (halt == None ==> Valid() && View() == next)
    {
      var call, c;
      halt, call, c := controller.Tick(des, lookup, ch);
      if halt == None {
        Dispatch(call, c, ch.sid);
      }
    }

    /** A member's own state is what a search by its id finds. */
    lemma MemberFound(c: ConnectionRequest)
      requires controller.Valid() && c in controller.connections
      ensures Find(controller.View().conns, c.id) == Some(c.View())
    {
      var i :| 0 <= i < |controller.connections| && controller.connections[i] == c;
      FindIs(Views(controller.connections), i);
    }

    method IsSessionReady(s: Session) returns (ready: bool)
      requires Valid() && Known(s)
      ensures ready <==> Ready(controller.View().conns, s.View().members)
    {
      ghost var members := s.View().members;
      if s.connections == [] {
        return false;
      }
      var i := 0;
      while i < |s.connections|
        invariant i <= |members| && forall j :: 0 <= j < i ==> CompleteAt(controller.View().conns, members[j])
      {
        MemberFound(s.connections[i]);
        if s.connections[i].state != Complete {
          assert members[i] in members;
          return false;
        }
        i := i + 1;
      }
      return true;
    }

    method SessionSendMessage(des: Cipher, s: Session, mem: seq<Byte>, len: nat, tails: seq<seq<Byte>>)
      requires Valid() && Known(s) && len < |mem|
      modifies controller`outq
      ensures Valid() && View() == Sent(des, old(View()), s.View().members, mem, len, tails)
    {
      forall i | 0 <= i < |s.connections|
        ensures Find(Views(controller.connections), s.connections[i].id) == Some(s.connections[i].View())
      {
        MemberFound(s.connections[i]);
      }
      SendLoop(des, s, Views(controller.connections), mem, len, tails);
    }

    /** The loop of the send: a failure to make a message is only logged. */
    method SendLoop(des: Cipher, s: Session, ghost conns: seq<Request>, mem: seq<Byte>, len: nat,
                    tails: seq<seq<Byte>>)
      requires len < |mem|
      requires forall i :: 0 <= i < |s.connections| ==>
                 Find(conns, s.connections[i].id) == Some(s.connections[i].View())
      modifies controller`outq
      ensures controller.outq == old(controller.outq) + FanOut(des, conns, Ids(s.connections), mem, len, tails)
    {
      ghost var members := Ids(s.connections);
      var i := 0;
      while i < |s.connections|
        invariant i <= CompletePrefix(conns, members)
        invariant controller.outq == old(controller.outq) + Flat(Shares(des, conns, members, mem, len, tails, i))
      {
        var req := s.connections[i];
        assert members[i] == req.id;
        if req.state != Complete {
          break;
        }
        var okay := controller.RequestSendMessage(des, req, mem, len, TailAt(tails, i));
        NextShare(des, conns, members, mem, len, tails, i);
        i := i + 1;
      }
      assert CompletePrefix(conns, members) == i;
    }
  }
}
