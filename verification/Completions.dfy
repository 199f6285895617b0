/**
 * Completion callbacks: who is told that a connection is complete, and how often, with the
 * exact condition on the outside values of the tick that processes the completion message.
 */
module Completions {
  import opened Bytes
  import opened Cryptography
  import opened ConnectionRequests
  import opened ConnectionControllers
  import opened Sessions
  import opened Network
  import opened Handshakes
  import opened HandshakeSteps
  import opened Protocol

  /** Event i of the run is node g's tick for the completion message of connection id. */
  ghost predicate CompletesAt(des: Cipher, n: nat, run: seq<Event>, i: nat, g: Guid, id: ConnId) {
    && i < |run| && g < n && run[i].Tick? && run[i].known && run[i].g == g && ValidRun(des, Init(n), run[..i])
    && var inq := Exec(des, Init(n), run[..i]).nodes[g].k.inq;
       inq != [] && inq[0].id == id && inq[0].action == CompletedSession
  }

  /** "OKAY" survives at that tick, under the secret that the node's record has. */
  ghost predicate SurvivesAt(des: Cipher, n: nat, run: seq<Event>, i: nat, g: Guid, id: ConnId)
    requires CompletesAt(des, n, run, i, g, id)
  {
    var r := Find(Exec(des, Init(n), run[..i]).nodes[g].k.conns, id);
    r.Some? && r.value.secret.Some? && OkaySurvives(des, r.value.secret.value, run[i].ch.stray, run[i].ch.behind)
  }

  // ------------------------------------------------------------- the deciding tick

  /** The entry of a finished handshake never changes again. */
  lemma DoneKept(des: Cipher, s: System, reg: History, e: Event, id: ConnId)
    requires Inv(des, s, reg) && Enabled(s, e) && id in reg && reg[id].stage == Done
    ensures id in NextHistory(des, s, reg, e) && NextHistory(des, s, reg, e)[id] == reg[id]
  {
    assert EntryOk(reg[id], |s.nodes|);
    match e
    case NewSession(_, _, c, _) => FreshIdUnknown(des, s, reg, c);
    case AddPeer(_, _, _, c, _) => FreshIdUnknown(des, s, reg, c);
    case Tick(g, _, _) => InboxFacts(des, s, reg, g);
    case Emit(g, _) =>
      assert NodeOk(des, s.nodes[g], reg, g);
      Taken(des, s.nodes[g].k.outq, reg, Outgoing, g, 0);
    case Deliver(i) => Taken(des, s.net, reg, Flying, 0, i);
    case Drop(i) => Taken(des, s.net, reg, Flying, 0, i);
    case _ =>
  }

  lemma {:induction false} DoneStays(des: Cipher, s: System, reg: History, run: seq<Event>, id: ConnId)
    requires Inv(des, s, reg) && ValidRun(des, s, run) && id in reg && reg[id].stage == Done
    ensures id in HistoryOf(des, s, reg, run) && HistoryOf(des, s, reg, run)[id] == reg[id]
    decreases |run|
  {
    if run != [] {
      DoneKept(des, s, reg, run[0], id);
      StepKeeps(des, s, reg, run[0]);
      DoneStays(des, Next(des, s, run[0]), NextHistory(des, s, reg, run[0]), run[1..], id);
    }
  }

  /** Only the tick for the completion message finishes a handshake. */
  lemma FinishedBy(des: Cipher, s: System, reg: History, e: Event, id: ConnId)
    requires Inv(des, s, reg) && Enabled(s, e) && !(id in reg && reg[id].stage == Done)
    requires id in NextHistory(des, s, reg, e) && NextHistory(des, s, reg, e)[id].stage == Done
    ensures id in reg && e.Tick? && e.known && e.g == reg[id].initiator == NextHistory(des, s, reg, e)[id].initiator
    ensures s.nodes[e.g].k.inq[0].id == id && s.nodes[e.g].k.inq[0].action == CompletedSession
  {
    if e.Tick? {
      InboxFacts(des, s, reg, e.g);
    }
  }

  /** And it decides on the callback by what survives of "OKAY". */
  lemma TickDecides(des: Cipher, s: System, reg: History, g: Guid, ch: Chance, id: ConnId)
    requires Inv(des, s, reg) && Enabled(s, Tick(g, true, ch))
    requires s.nodes[g].k.inq[0].id == id && s.nodes[g].k.inq[0].action == CompletedSession
    ensures
      var next := NextHistory(des, s, reg, Tick(g, true, ch));
      var r := Find(s.nodes[g].k.conns, id);
      && id in next && next[id].stage == Done && next[id].initiator == g
      && r.Some? && r.value.secret == Some(next[id].secret)
      && (next[id].okay <==> OkaySurvives(des, next[id].secret, ch.stray, ch.behind))
  {
    InboxFacts(des, s, reg, g);
    RecordIs(des, s, reg, g, id);
    var h := reg[id];
    assert EntryOk(h, |s.nodes|);
    OkayArrivesIff(des, h.secret, h.pad, h.tail, ch.stray, ch.behind);
  }

  /** A run around its event i. */
  lemma Around(des: Cipher, n: nat, run: seq<Event>, i: nat) returns (before: History)
    requires ValidRun(des, Init(n), run) && i < |run|
    ensures ValidRun(des, Init(n), run[..i])
    ensures
      var s := Exec(des, Init(n), run[..i]);
      && Inv(des, s, before) && Enabled(s, run[i]) && before == HistoryOf(des, Init(n), map[], run[..i])
      && ValidRun(des, Next(des, s, run[i]), run[i + 1..])
      && HistoryOf(des, Init(n), map[], run)
         == HistoryOf(des, Next(des, s, run[i]), NextHistory(des, s, before, run[i]), run[i + 1..])
  {
    var a, b := run[..i], run[i..];
    assert run == a + b && b[0] == run[i] && b[1..] == run[i + 1..];
    ExecSplit(des, Init(n), a, b);
    before := Reached(des, n, a);
    HistorySplit(des, Init(n), map[], a, b);
  }

  /** Every such tick of a run leaves the handshake finished, with its own decision. */
  lemma CompletionDecides(des: Cipher, n: nat, run: seq<Event>, i: nat, g: Guid, id: ConnId)
    requires ValidRun(des, Init(n), run) && CompletesAt(des, n, run, i, g, id)
    ensures
      var reg := HistoryOf(des, Init(n), map[], run);
      && id in reg && reg[id].stage == Done && reg[id].initiator == g
      && (reg[id].okay <==> SurvivesAt(des, n, run, i, g, id))
  {
    var before := Around(des, n, run, i);
    var s := Exec(des, Init(n), run[..i]);
    TickDecides(des, s, before, g, run[i].ch, id);
    StepKeeps(des, s, before, run[i]);
    DoneStays(des, Next(des, s, run[i]), NextHistory(des, s, before, run[i]), run[i + 1..], id);
  }

  /** And every finished handshake had one. */
  lemma {:induction false} CompletionFound(des: Cipher, n: nat, run: seq<Event>, id: ConnId) returns (i: nat)
    requires ValidRun(des, Init(n), run)
    requires id in HistoryOf(des, Init(n), map[], run) && HistoryOf(des, Init(n), map[], run)[id].stage == Done
    ensures CompletesAt(des, n, run, i, HistoryOf(des, Init(n), map[], run)[id].initiator, id)
    decreases |run|
  {
    var last := |run| - 1;
    var before := Around(des, n, run, last);
    var s := Exec(des, Init(n), run[..last]);
    if id in before && before[id].stage == Done {
      i := CompletionFound(des, n, run[..last], id);
      assert run[..last][..i] == run[..i];
      DoneKept(des, s, before, run[last], id);
    } else {
      i := last;
      FinishedBy(des, s, before, run[last], id);
      InboxFacts(des, s, before, run[last].g);
    }
  }

  ghost predicate Finishes(des: Cipher, n: nat, run: seq<Event>, g: Guid, id: ConnId) {
    exists i: nat :: CompletesAt(des, n, run, i, g, id)
  }

  /** "OKAY" survives at every tick of node g for a completion message of connection id. */
  ghost predicate Survives(des: Cipher, n: nat, run: seq<Event>, g: Guid, id: ConnId) {
    forall i: nat :: CompletesAt(des, n, run, i, g, id) ==> SurvivesAt(des, n, run, i, g, id)
  }

  /** The initiator's side of an entry, by the ticks of the run. */
  lemma FinishIff(des: Cipher, n: nat, run: seq<Event>, reg: History, g: Guid, id: ConnId)
    requires ValidRun(des, Init(n), run) && reg == HistoryOf(des, Init(n), map[], run)
    ensures id in reg && reg[id].initiator == g && reg[id].stage == Done <==> Finishes(des, n, run, g, id)
    ensures Finishes(des, n, run, g, id) ==> (reg[id].okay <==> Survives(des, n, run, g, id))
  {
    forall i: nat | CompletesAt(des, n, run, i, g, id)
      ensures id in reg && reg[id].initiator == g && reg[id].stage == Done
      ensures reg[id].okay <==> SurvivesAt(des, n, run, i, g, id)
    {
      CompletionDecides(des, n, run, i, g, id);
    }
    if id in reg && reg[id].initiator == g && reg[id].stage == Done {
      var i := CompletionFound(des, n, run, id);
    }
  }

  lemma OpenBefore(des: Cipher, s: System, reg: History, g: Guid, id: ConnId)
    requires Inv(des, s, reg) && g < |s.nodes| && s.nodes[g].k.inq != []
    requires s.nodes[g].k.inq[0].id == id && s.nodes[g].k.inq[0].action == CompletedSession
    ensures id in reg && reg[id].stage != Done
  {
    InboxFacts(des, s, reg, g);
    assert EntryOk(reg[id], |s.nodes|);
  }

  /** A run has at most one such tick. */
  lemma OneTick(des: Cipher, n: nat, run: seq<Event>, i: nat, j: nat, g: Guid, id: ConnId)
    requires ValidRun(des, Init(n), run)
    requires CompletesAt(des, n, run, i, g, id) && CompletesAt(des, n, run, j, g, id)
    ensures i == j
  {
    if i != j {
      var x, y := if i < j then i else j, if i < j then j else i;
      var before := Around(des, n, run, y);
      assert run[..y][..x] == run[..x];
      CompletionDecides(des, n, run[..y], x, g, id);
      OpenBefore(des, Exec(des, Init(n), run[..y]), before, g, id);
    }
  }

  // ------------------------------------------------------------------ told how often

  lemma RoleFacts(reg: History, id: ConnId, n: nat)
    requires id in reg && EntryOk(reg[id], n)
    ensures
      var r := RecordAt(reg, id, reg[id].responder);
      Told(reg, id, reg[id].responder) == if r.Some? && r.value.state == Complete then 1 else 0
    ensures
      var r := RecordAt(reg, id, reg[id].initiator);
      && r.Some? && (r.value.state == Complete <==> reg[id].stage == Done)
      && (r.value.state == Complete ==> r.value.secret.Some?)
      && Told(reg, id, reg[id].initiator) == if reg[id].stage == Done && reg[id].okay then 1 else 0
  {
  }

  /**
   * Completion callbacks: the responder is told once, when its record completes.  The
   * initiator's record is complete exactly if there was a tick for the completion message;
   * it is then told once if "OKAY" survived at that tick, and never if not.
   */
  lemma CompletionToldOnce(des: Cipher, n: nat, run: seq<Event>, j: nat, g: Guid, remote: Guid, id: ConnId)
    requires ValidRun(des, Init(n), run) && j < |run| && Initiates(run[j], g, remote, id)
    ensures g < n && remote < n
    ensures
      var s := Exec(des, Init(n), run);
      multiset(s.nodes[remote].completed)[id] == if CompleteAt(s.nodes[remote].k.conns, id) then 1 else 0
    ensures
      var s := Exec(des, Init(n), run);
      && (CompleteAt(s.nodes[g].k.conns, id) <==> Finishes(des, n, run, g, id))
      && multiset(s.nodes[g].completed)[id] ==
         if Finishes(des, n, run, g, id) && Survives(des, n, run, g, id) then 1 else 0
  {
    var reg := BothEnds(des, n, run, j, g, remote, id);
    RoleFacts(reg, id, n);
    FinishIff(des, n, run, reg, g, id);
  }

  // ------------------------------------------------------------------------ counting

  function CompleteCount(conns: seq<Request>): nat {
    if conns == [] then 0
    else CompleteCount(conns[1..]) + if conns[0].state == Complete then 1 else 0
  }

  /** A record put in front of records with other ids. */
  lemma FindFirst(conns: seq<Request>, id: ConnId)
    requires conns != [] && DistinctIds(conns)
    ensures Find(conns, id) == if conns[0].id == id then Some(conns[0]) else Find(conns[1..], id)
    ensures DistinctIds(conns[1..]) && Find(conns[1..], conns[0].id) == None
  {
    assert forall i :: 0 <= i < |conns[1..]| ==> conns[1..][i] == conns[i + 1];
  }

  lemma {:induction false} CountTold(told: multiset<ConnId>, conns: seq<Request>)
    requires DistinctIds(conns)
    requires forall id :: told[id] <= if CompleteAt(conns, id) then 1 else 0
    ensures |told| <= CompleteCount(conns)
    ensures |told| == CompleteCount(conns) <==> forall id :: CompleteAt(conns, id) ==> told[id] == 1
  {
    if conns == [] {
      assert told == multiset{};
    } else {
      var c, rest := conns[0], conns[1..];
      var less := told[c.id := 0];
      forall id: ConnId
        ensures less[id] <= if CompleteAt(rest, id) then 1 else 0
        ensures id != c.id ==> (CompleteAt(conns, id) <==> CompleteAt(rest, id)) && less[id] == told[id]
        ensures CompleteAt(conns, c.id) <==> c.state == Complete
        ensures !CompleteAt(rest, c.id)
      {
        FindFirst(conns, id);
        FindFirst(conns, c.id);
      }
      FindFirst(conns, c.id);
      CountTold(less, rest);
      assert told == less[c.id := told[c.id]];
      assert |told| == |less| + told[c.id];
    }
  }

  /** One connection's share in the count. */
  lemma ToldHere(des: Cipher, n: nat, run: seq<Event>, g: Guid, id: ConnId)
    requires ValidRun(des, Init(n), run) && g < n
    ensures
      var node := Exec(des, Init(n), run).nodes[g];
      var told := multiset(node.completed)[id];
      && told <= (if CompleteAt(node.k.conns, id) then 1 else 0)
      && ((CompleteAt(node.k.conns, id) ==> told == 1) <==> Survives(des, n, run, g, id))
  {
    var reg := Reached(des, n, run);
    RecordIs(des, Exec(des, Init(n), run), reg, g, id);
    FinishIff(des, n, run, reg, g, id);
    if id in reg {
      RoleFacts(reg, id, n);
    }
  }

  /**
   * A node is never told of more completions than it has complete records, and of just as
   * many if and only if "OKAY" survived at each of its ticks for a completion message.
   */
  lemma CallbacksCountCompletions(des: Cipher, n: nat, run: seq<Event>, g: Guid)
    requires ValidRun(des, Init(n), run) && g < n
    ensures
      var node := Exec(des, Init(n), run).nodes[g];
      && |node.completed| <= CompleteCount(node.k.conns)
      && (|node.completed| == CompleteCount(node.k.conns) <==> forall id: ConnId :: Survives(des, n, run, g, id))
  {
    var reg := Reached(des, n, run);
    var node := Exec(des, Init(n), run).nodes[g];
    var told := multiset(node.completed);
    assert NodeOk(des, node, reg, g);
    forall id: ConnId
      ensures told[id] <= if CompleteAt(node.k.conns, id) then 1 else 0
      ensures (CompleteAt(node.k.conns, id) ==> told[id] == 1) <==> Survives(des, n, run, g, id)
    {
      ToldHere(des, n, run, g, id);
    }
    CountTold(told, node.k.conns);
    assert |told| == |node.completed|;
  }
}
