/**
 * Which session holds a connection, over whole runs: each record of a node is in exactly one
 * session of it, unless an event of the run took it out or never put it in.
 */
module Membership {
  import opened Bytes
  import opened Cryptography
  import opened ConnectionRequests
  import opened ConnectionControllers
  import opened Sessions
  import opened Network
  import opened Handshakes
  import opened HandshakeSteps
  import opened Protocol
  import opened Delivery

  predicate Known(n: Node, id: ConnId) {
    Find(n.k.conns, id).Some?
  }

  predicate Held(n: Node, id: ConnId) {
    exists i :: 0 <= i < |n.sessions| && id in n.sessions[i].members
  }

  // ------------------------------------------------------ what single operations do

  /** A tick that takes a CREATE_SESSION message lists one session for it; no other tick lists any. */
  lemma IncomingListed(des: Cipher, n: Node, lookup: Lookup, ch: Chance)
    requires n.k.inq != [] && Ticked(des, n.k, lookup, ch).Running?
    ensures NodeTicked(des, n, lookup, ch).sessions ==
            n.sessions + if n.k.inq[0].action == CreateSession then [SessionView(ch.sid, [n.k.inq[0].id])] else []
  {
    assert n.sessions + [] == n.sessions;
  }

  /** And what it makes known is that message's connection. */
  lemma TickKnows(des: Cipher, n: Node, lookup: Lookup, ch: Chance, id: ConnId)
    requires n.k.inq != [] && Ticked(des, n.k, lookup, ch).Running? && DistinctIds(n.k.conns)
    ensures
      var m := n.k.inq[0];
      && (Known(NodeTicked(des, n, lookup, ch), id) <==> Known(n, id) || (m.action == CreateSession && m.id == id))
      && (m.action == CreateSession ==> !Known(n, m.id))
  {
    var m := n.k.inq[0];
    var k := n.k.(inq := n.k.inq[1..]);
    StopsExactly(des, k, m, lookup, ch);
    if id != m.id {
      OthersUntouched(des, k, m, lookup, ch, id);
    } else {
      TickKnown(des, n.k, lookup, ch);
    }
  }

  /** Removing a session takes the one with that id off the list, and only that one. */
  lemma SessionGone(n: Node, sid: nat)
    requires SessionsOk(n)
    ensures forall j :: 0 <= j < |SessionRemoved(n, sid).sessions| ==> SessionRemoved(n, sid).sessions[j].sid != sid
    ensures forall i :: 0 <= i < |n.sessions| && n.sessions[i].sid == sid ==>
              SessionRemoved(n, sid).sessions == n.sessions[..i] + n.sessions[i + 1..]
    ensures (forall i :: 0 <= i < |n.sessions| ==> n.sessions[i].sid != sid) ==> SessionRemoved(n, sid) == n
    ensures SessionRemoved(n, sid).k == n.k
  {
  }

  /** Removing a connection takes it out of its session, and no other one out of any. */
  lemma MemberGone(n: Node, si: nat, c: ConnId)
    requires SessionsOk(n) && si < |n.sessions|
    ensures
      var t := MemberRemoved(n, si, c);
      var was := n.sessions[si].members;
      && t.k == n.k && |t.sessions| == |n.sessions| && t.sessions[si].sid == n.sessions[si].sid
      && (forall i :: 0 <= i < |n.sessions| && i != si ==> t.sessions[i] == n.sessions[i])
      && (forall p :: 0 <= p < |was| && was[p] == c ==> t.sessions[si].members == was[..p] + was[p + 1..])
      && (c !in was ==> t.sessions[si].members == was)
      && (forall d :: d in t.sessions[si].members <==> d in was && d != c)
  {
    var was := n.sessions[si].members;
    if c in was {
      var p :| 0 <= p < |was| && was[p] == c;
      PlaceOfMember(n, si, p);
      assert forall q :: 0 <= q < |was| && was[q] == c ==> q == p;
      Without(was, p);
    } else {
      AbsentAt(was, c);
    }
  }

  lemma Without(s: seq<ConnId>, p: nat)
    requires p < |s| && forall q :: 0 <= q < |s| && q != p ==> s[q] != s[p]
    ensures forall d :: d in s[..p] + s[p + 1..] <==> d in s && d != s[p]
  {
    var t := s[..p] + s[p + 1..];
    forall d
      ensures d in t <==> d in s && d != s[p]
    {
      if d in s && d != s[p] {
        var q :| 0 <= q < |s| && s[q] == d;
        assert t[if q < p then q else q - 1] == d;
      }
      if d in t {
        var q :| 0 <= q < |t| && t[q] == d;
        assert s[if q < p then q else q + 1] == d;
      }
    }
  }

  // ------------------------------------------------------------------- over a run

  /**
   * The event takes connection id out of its session at node g: the session is removed, or
   * the connection from it, or it was asked for on behalf of a session that is not listed.
   */
  predicate Detaches(s: System, e: Event, g: Guid, id: ConnId)
    requires Enabled(s, e) && g < |s.nodes|
  {
    var sessions := s.nodes[g].sessions;
    match e
    case RemoveSession(h, sid) =>
      h == g && exists i :: 0 <= i < |sessions| && sessions[i].sid == sid && id in sessions[i].members
    case RemoveMember(h, si, c) => h == g && c == id && id in sessions[si].members
    case AddPeer(h, si, _, c, _) => h == g && c == id && si >= |sessions|
    case _ => false
  }

  ghost predicate Detached(des: Cipher, s: System, run: seq<Event>, g: Guid, id: ConnId)
    requires ValidRun(des, s, run) && g < |s.nodes|
    decreases |run|
  {
    run != [] && (Detaches(s, run[0], g, id) || Detached(des, Next(des, s, run[0]), run[1..], g, id))
  }

  /** How one event changes what is held, in terms of what is known. */
  ghost predicate HoldsNext(s: System, e: Event, t: Node, g: Guid, id: ConnId)
    requires Enabled(s, e) && g < |s.nodes|
  {
    var n := s.nodes[g];
    && (Known(n, id) ==> Known(t, id)) && (Detaches(s, e, g, id) ==> Known(t, id))
    && (Held(t, id) <==> (Held(n, id) || (!Known(n, id) && Known(t, id))) && !Detaches(s, e, g, id))
  }

  lemma HeldIsKnown(n: Node, id: ConnId)
    requires SessionsOk(n) && Held(n, id)
    ensures Known(n, id)
  {
    var i :| 0 <= i < |n.sessions| && id in n.sessions[i].members;
    var p :| 0 <= p < |n.sessions[i].members| && n.sessions[i].members[p] == id;
  }

  lemma ListedHeld(n: Node, t: Node, x: SessionView, id: ConnId)
    requires t.sessions == n.sessions + [x]
    ensures Held(t, id) <==> Held(n, id) || id in x.members
  {
    if Held(n, id) {
      var i :| 0 <= i < |n.sessions| && id in n.sessions[i].members;
      assert t.sessions[i] == n.sessions[i];
    }
    assert t.sessions[|n.sessions|] == x;
    if Held(t, id) && id !in x.members {
      var i :| 0 <= i < |t.sessions| && id in t.sessions[i].members;
      assert n.sessions[i] == t.sessions[i];
    }
  }

  lemma InitiatedKnows(k: Controller, remote: Guid, c: ConnId, ch: Chance, id: ConnId)
    ensures Find(Initiated(k, remote, c, ch).conns, id).Some? <==> Find(k.conns, id).Some? || id == c
  {
    FindAppend(k.conns, Initiated(k, remote, c, ch).conns[|k.conns|], id);
  }

  lemma TickHolds(des: Cipher, s: System, g: Guid, known: bool, ch: Chance, id: ConnId)
    requires Enabled(s, Tick(g, known, ch)) && SessionsOk(s.nodes[g]) && DistinctIds(s.nodes[g].k.conns)
    ensures HoldsNext(s, Tick(g, known, ch), NodeTicked(des, s.nodes[g], Found(known, |s.nodes|), ch), g, id)
  {
    var n, lookup := s.nodes[g], Found(known, |s.nodes|);
    if Held(n, id) {
      HeldIsKnown(n, id);
    }
    if Ticked(des, n.k, lookup, ch).Running? {
      var t := NodeTicked(des, n, lookup, ch);
      IncomingListed(des, n, lookup, ch);
      TickKnows(des, n, lookup, ch, id);
      if n.k.inq[0].action == CreateSession {
        ListedHeld(n, t, SessionView(ch.sid, [n.k.inq[0].id]), id);
      } else {
        assert t.sessions == n.sessions;
      }
    }
  }

  lemma AddPeerHolds(s: System, g: Guid, si: nat, remote: Guid, c: ConnId, ch: Chance, id: ConnId)
    requires Enabled(s, AddPeer(g, si, remote, c, ch)) && SessionsOk(s.nodes[g])
    ensures HoldsNext(s, AddPeer(g, si, remote, c, ch), PeerAdded(s.nodes[g], si, remote, c, ch), g, id)
  {
    var n := s.nodes[g];
    var t := PeerAdded(n, si, remote, c, ch);
    InitiatedKnows(n.k, remote, c, ch, id);
    if Held(n, id) {
      HeldIsKnown(n, id);
      var i :| 0 <= i < |n.sessions| && id in n.sessions[i].members;
      assert id in t.sessions[i].members;
    }
    if Held(t, id) {
      var i :| 0 <= i < |t.sessions| && id in t.sessions[i].members;
      assert id != c ==> id in n.sessions[i].members;
    }
    if si < |n.sessions| {
      assert t.sessions[si].members == n.sessions[si].members + [c];
      assert c in t.sessions[si].members;
    }
  }

  lemma RemoveSessionHolds(s: System, g: Guid, sid: nat, id: ConnId)
    requires Enabled(s, RemoveSession(g, sid)) && SessionsOk(s.nodes[g])
    ensures HoldsNext(s, RemoveSession(g, sid), SessionRemoved(s.nodes[g], sid), g, id)
  {
    var n := s.nodes[g];
    if Held(n, id) {
      HeldIsKnown(n, id);
      var i :| 0 <= i < |n.sessions| && id in n.sessions[i].members;
      OnlyHolder(n, i, id);
      HeldWithout(n, SessionRemoved(n, sid), sid, i, id);
    } else {
      NotHeldWithout(n, sid, id);
    }
  }

  lemma OnlyHolder(n: Node, i: nat, id: ConnId)
    requires SessionsOk(n) && i < |n.sessions| && id in n.sessions[i].members
    ensures forall j :: 0 <= j < |n.sessions| && j != i ==> id !in n.sessions[j].members
  {
    var p :| 0 <= p < |n.sessions[i].members| && n.sessions[i].members[p] == id;
    PlaceOfMember(n, i, p);
  }

  lemma NotHeldWithout(n: Node, sid: nat, id: ConnId)
    requires !Held(n, id)
    ensures !Held(SessionRemoved(n, sid), id)
  {
    var t, x := SessionRemoved(n, sid), SessionAt(n.sessions, sid);
    assert forall j :: 0 <= j < |t.sessions| ==> t.sessions[j] == n.sessions[if j < x then j else j + 1];
  }

  lemma HeldWithout(n: Node, t: Node, sid: nat, i: nat, id: ConnId)
    requires SessionsOk(n) && t == SessionRemoved(n, sid) && i < |n.sessions| && id in n.sessions[i].members
    requires forall j :: 0 <= j < |n.sessions| && j != i ==> id !in n.sessions[j].members
    ensures Held(t, id) <==> n.sessions[i].sid != sid
  {
    var x := SessionAt(n.sessions, sid);
    assert forall j :: 0 <= j < |t.sessions| ==> t.sessions[j] == n.sessions[if j < x then j else j + 1];
    if n.sessions[i].sid != sid {
      assert t.sessions[if i < x then i else i - 1] == n.sessions[i];
    }
  }

  lemma RemoveMemberHolds(s: System, g: Guid, si: nat, c: ConnId, id: ConnId)
    requires Enabled(s, RemoveMember(g, si, c)) && SessionsOk(s.nodes[g])
    ensures HoldsNext(s, RemoveMember(g, si, c), MemberRemoved(s.nodes[g], si, c), g, id)
  {
    var n := s.nodes[g];
    var t := MemberRemoved(n, si, c);
    MemberGone(n, si, c);
    if Held(n, id) {
      HeldIsKnown(n, id);
      var i :| 0 <= i < |n.sessions| && id in n.sessions[i].members;
      var p :| 0 <= p < |n.sessions[i].members| && n.sessions[i].members[p] == id;
      PlaceOfMember(n, i, p);
      assert i == si || id in t.sessions[i].members;
      assert i == si && id != c ==> id in t.sessions[si].members;
    }
  }

  lemma StepHolds(des: Cipher, s: System, reg: History, e: Event, g: Guid, id: ConnId)
    requires Inv(des, s, reg) && Enabled(s, e) && g < |s.nodes| && SessionsOk(s.nodes[g])
    ensures HoldsNext(s, e, Next(des, s, e).nodes[g], g, id)
  {
    var n := s.nodes[g];
    assert NodeOk(des, n, reg, g);
    if Held(n, id) {
      HeldIsKnown(n, id);
    }
    if e.Deliver? || e.Drop? || e.g != g {
      assert Next(des, s, e).nodes[g].sessions == n.sessions;
    } else {
      match e
      case NewSession(_, remote, c, ch) =>
        InitiatedKnows(n.k, remote, c, ch, id);
        ListedHeld(n, SessionCreated(n, remote, c, ch), SessionView(ch.sid, [c]), id);
      case AddPeer(_, si, remote, c, ch) => AddPeerHolds(s, g, si, remote, c, ch, id);
      case RemoveSession(_, sid) => RemoveSessionHolds(s, g, sid, id);
      case RemoveMember(_, si, c) => RemoveMemberHolds(s, g, si, c, id);
      case Tick(_, known, ch) => TickHolds(des, s, g, known, ch, id);
      case IdleTick(_, known, ch) => NodeIdle(des, n, Found(known, |s.nodes|), ch);
      case Send(_, _, _, _, _) =>
      case Emit(_, _) =>
    }
  }

  /** What is held after a run, from what is held, known and was taken out before. */
  lemma {:induction false} RunHolds(des: Cipher, s: System, reg: History, run: seq<Event>, g: Guid, id: ConnId,
                                    out: bool)
    requires Inv(des, s, reg) && ValidRun(des, s, run) && g < |s.nodes| && AllSessionsOk(s)
    requires Held(s.nodes[g], id) <==> Known(s.nodes[g], id) && !out
    requires out ==> Known(s.nodes[g], id)
    ensures Held(Exec(des, s, run).nodes[g], id) <==>
            Known(Exec(des, s, run).nodes[g], id) && !out && !Detached(des, s, run, g, id)
    decreases |run|
  {
    if run != [] {
      var e := run[0];
      StepHolds(des, s, reg, e, g, id);
      StepKeeps(des, s, reg, e);
      StepAllSessions(des, s, e);
      RunHolds(des, Next(des, s, e), NextHistory(des, s, reg, e), run[1..], g, id, out || Detaches(s, e, g, id));
    }
  }

  /**
   * In every reached state a session of node g holds connection id if and only if g has a
   * record of it and no event of the run took it out; by SessionPartition it is then in
   * exactly one place.
   */
  lemma HeldIff(des: Cipher, n: nat, run: seq<Event>, g: Guid, id: ConnId)
    requires ValidRun(des, Init(n), run) && g < n
    ensures Held(Exec(des, Init(n), run).nodes[g], id) <==>
            Known(Exec(des, Init(n), run).nodes[g], id) && !Detached(des, Init(n), run, g, id)
  {
    InitInv(des, n);
    RunHolds(des, Init(n), map[], run, g, id, false);
  }

  /**
   * The user is notified of message j of a send, at the tick that takes it, if and only if no
   * event of the run took the connection out of its session at the recipient.
   */
  lemma SendReachesUser(des: Cipher, n: nat, a: seq<Event>, e: Event, b: seq<Event>, j: nat, ch: Chance)
    requires ValidRun(des, Init(n), a + ([e] + b)) && ValidRun(des, Init(n), a)
    requires e.Send? && Enabled(Exec(des, Init(n), a), e) && j < |Batch(des, Exec(des, Init(n), a), e)|
    requires HeadAt(Exec(des, Init(n), a + ([e] + b)), Batch(des, Exec(des, Init(n), a), e)[j])
    ensures
      var m := Batch(des, Exec(des, Init(n), a), e)[j];
      var run := a + ([e] + b);
      var node := Exec(des, Init(n), run).nodes[m.recipient];
      var notes := NodeTicked(des, node, Resolve(n), ch).notes;
      && node.notes <= notes
      && (notes != node.notes <==> !Detached(des, Init(n), run, m.recipient, m.id))
      && (notes != node.notes ==> notes[|node.notes|].c == m.id)
  {
    var m := Batch(des, Exec(des, Init(n), a), e)[j];
    var run := a + ([e] + b);
    var node := Exec(des, Init(n), run).nodes[m.recipient];
    SendDelivered(des, n, a, e, b, j, ch);
    SendNotified(des, n, a, e, b, j, ch);
    HeldIff(des, n, run, m.recipient, m.id);
    NotifiedIffHeld(node, NodeTicked(des, node, Resolve(n), ch).notes, m.id,
                    Ticked(des, node.k, Resolve(n), ch).call.text);
  }

  lemma NotifiedIffHeld(n: Node, notes: seq<Note>, c: ConnId, text: CString)
    requires Notified(n, notes, c, text)
    ensures n.notes <= notes && (notes != n.notes <==> Held(n, c))
    ensures Held(n, c) ==> notes[|n.notes|].c == c
  {
    if Held(n, c) {
      var i :| 0 <= i < |n.sessions| && c in n.sessions[i].members;
      var p :| 0 <= p < |n.sessions[i].members| && n.sessions[i].members[p] == c;
      assert notes == n.notes + NotesOf(n.sessions[i], p, text);
    }
  }
}
