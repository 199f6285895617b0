/** Inputs on which the code does not do what its names and comments suggest. */
module Witnesses {
  import opened Bytes
  import opened Cryptography
  import opened ConnectionRequests
  import opened ConnectionControllers
  import opened Sessions
  import opened Network
  import opened Handshakes
  import opened HandshakeSteps
  import opened Protocol
  import opened Completions
  import opened Progress
  import opened Delivery
  import opened Conservation

  // -------------------------------------------------------------- cut ciphertexts

  /** A text that begins with the first key stream byte has a ciphertext that begins with a NUL. */
  lemma FirstIsNul(des: Cipher, secret: Block, p: seq<Byte>)
    requires p != [] && p[0] == Keystream(des, KeyBlock(secret), [])
    ensures Encrypt(des, secret, p)[0] == NUL && CStrLen(Encrypt(des, secret, p)) == 0
  {
    var mask := DesMask(des, KeyBlock(secret));
    var c := CfbEncrypt(mask, p);
    MaskedByte(mask, p, 0);
    assert c[..0] == [];
    assert Xor(p[0], mask([])) == NUL;
    CStrLenIs(c, 0);
  }

  lemma OneByteString(x: Byte)
    requires x != NUL
    ensures CStr([x] + []) == [x]
  {
    assert [x] + [] == [x];
    assert NUL !in [x][..1];
    CStrLenIs([x], 1);
  }

  /**
   * "OKAY" does not survive under a secret whose first key stream byte is an O, if there
   * is nothing but a NUL behind the buffer that is decrypted into.
   */
  lemma OkayLost(des: Cipher, secret: Block, stray: Byte)
    requires Keystream(des, KeyBlock(secret), []) == OKAY[0]
    ensures !OkaySurvives(des, secret, stray, [])
  {
    var c := Encrypt(des, secret, OKAY + [NUL]);
    FirstIsNul(des, secret, OKAY + [NUL]);
    assert OKAY[0..] == OKAY;
    var x := Xor(stray, Keystream(des, KeyBlock(secret), c[..0]));
    assert |CStr([x] + [])| <= 1;
  }

  /** There are such block functions, for every secret. */
  lemma OkayLostSomewhere(secret: Block, stray: Byte)
    ensures
      var o := OKAY[0];
      !OkaySurvives((key, block) => [o, o, o, o, o, o, o, o], secret, stray, [])
  {
    var o := OKAY[0];
    OkayLost((key, block) => [o, o, o, o, o, o, o, o], secret, stray);
  }

  lemma OneByteSent(des: Cipher, secret: Block, x: Byte)
    requires x == Keystream(des, KeyBlock(secret), []) != NUL
    ensures Decrypt(des, secret, DataPayload(des, secret, [x, NUL], 1, [])) == [x]
  {
    var mem := [x, NUL];
    var c := Encrypt(des, secret, mem);
    assert mem[..2] == mem && c + [] == c;
    FirstIsNul(des, secret, mem);
    assert CutAtNul(c) == c[..1];
    TruncatedDecrypt(des, secret, mem, c[..1], 1);
    assert Decrypt(des, secret, c[..1]) == Decrypt(des, secret, c[..1])[..1] == mem[..1] == [x];
  }

  /**
   * For every block function and every secret whose first key stream byte x is not NUL, the
   * text "x" arrives as "xx" if the stray byte is the one below.
   */
  lemma TextArrivesWrong(des: Cipher, secret: Block) returns (stray: Byte)
    requires Keystream(des, KeyBlock(secret), []) != NUL
    ensures
      var x := Keystream(des, KeyBlock(secret), []);
      ReadOut(des, secret, DataPayload(des, secret, [x, NUL], 1, []), stray, []) == [x, x]
  {
    var x := Keystream(des, KeyBlock(secret), []);
    var sent := DataPayload(des, secret, [x, NUL], 1, []);
    var k := Keystream(des, KeyBlock(secret), sent);
    stray := Xor(x, k);
    OneByteSent(des, secret, x);
    ReadBehind(des, secret, sent, stray, [], [x]);
    MaskTwice(x, k);
    OneByteString(x);
    assert [x] + [x] == [x, x];
  }

  // ----------------------------------------------------- complete but never told

  /** The secret that an event generates, if it generates one. */
  predicate SecretIs(e: Event, secret: Block) {
    e.NewSession? || e.AddPeer? || e.Tick? ==> e.ch.secret == secret
  }

  ghost predicate SecretsAre(reg: History, secret: Block) {
    forall id :: id in reg ==> reg[id].secret == secret
  }

  lemma {:induction false} SecretsStay(des: Cipher, s: System, reg: History, run: seq<Event>, secret: Block)
    requires ValidRun(des, s, run) && SecretsAre(reg, secret)
    requires forall i :: 0 <= i < |run| ==> SecretIs(run[i], secret)
    ensures SecretsAre(HistoryOf(des, s, reg, run), secret)
    decreases |run|
  {
    if run != [] {
      assert SecretIs(run[0], secret);
      SecretsStay(des, Next(des, s, run[0]), NextHistory(des, s, reg, run[0]), run[1..], secret);
    }
  }

  /** Nothing but sessions created and peers added. */
  predicate RequestsOnly(run: seq<Event>) {
    forall i :: 0 <= i < |run| ==> run[i].NewSession? || run[i].AddPeer?
  }

  /** Then nobody has stopped, and a record is complete at both ends once all is worked off. */
  lemma NoneHasStopped(des: Cipher, n: nat, run: seq<Event>)
    requires ValidRun(des, Init(n), run)
    requires forall i :: 0 <= i < |run| ==> !LooksUp(run[i]) || run[i].known
    ensures NoneStopped(Exec(des, Init(n), run))
  {
    NoAbort(des, n, run);
    assert forall g :: !MeetsUnknown(run, g);
  }

  lemma CompleteAfterwards(des: Cipher, n: nat, first: seq<Event>, more: seq<Event>, g: Guid, id: ConnId)
    requires ValidRun(des, Init(n), first) && ValidRun(des, Init(n), first + more) && g < n && RequestsOnly(first)
    requires |more| == StepsLeft(Exec(des, Init(n), first)) && forall i :: 0 <= i < |more| ==> IsProgress(more[i])
    requires Find(Exec(des, Init(n), first + more).nodes[g].k.conns, id).Some?
    ensures
      var s := Exec(des, Init(n), first + more);
      var remote := Find(s.nodes[g].k.conns, id).value.remote;
      remote < n && CompleteAtBoth(s, g, remote, id)
  {
    assert [] + first == first;
    LostBefore(des, Init(n), [], first, id);
    CountedStepsComplete(des, n, first, more, g, id);
  }

  /**
   * For every block function and every secret under which "OKAY" does not survive: a run
   * after which the initiator's record is complete, and its node was never told.
   */
  lemma CompleteButNotTold(des: Cipher, ch: Chance) returns (run: seq<Event>)
    requires !OkaySurvives(des, ch.secret, ch.stray, ch.behind)
    ensures ValidRun(des, Init(2), run) && run != [] && run[0] == NewSession(0, 1, 0, ch)
    ensures
      var node := Exec(des, Init(2), run).nodes[0];
      CompleteAt(node.k.conns, 0) && multiset(node.completed)[0] == 0
  {
    var first := [NewSession(0, 1, 0, ch)];
    assert ValidRun(des, Next(des, Init(2), first[0]), first[1..]);
    NoneHasStopped(des, 2, first);
    var more := EveryRunCanComplete(des, 2, first, ch);
    run := first + more;
    OrderedCompletion(des, 2, run, 0, 0, 1, 0);
    CompleteAfterwards(des, 2, first, more, 0, 0);
    CompletionToldOnce(des, 2, run, 0, 0, 1, 0);
    NeverSurvives(des, ch, run, more);
  }

  lemma NeverSurvives(des: Cipher, ch: Chance, run: seq<Event>, more: seq<Event>)
    requires ValidRun(des, Init(2), run) && run == [NewSession(0, 1, 0, ch)] + more
    requires forall j :: 0 <= j < |more| ==> IsProgress(more[j]) && TakesFrom(more[j], ch)
    requires !OkaySurvives(des, ch.secret, ch.stray, ch.behind) && Finishes(des, 2, run, 0, 0)
    ensures !Survives(des, 2, run, 0, 0)
  {
    var i: nat :| CompletesAt(des, 2, run, i, 0, 0);
    NotAt(des, ch, run, more, i);
  }

  lemma NotAt(des: Cipher, ch: Chance, run: seq<Event>, more: seq<Event>, i: nat)
    requires ValidRun(des, Init(2), run) && run == [NewSession(0, 1, 0, ch)] + more
    requires forall j :: 0 <= j < |more| ==> IsProgress(more[j]) && TakesFrom(more[j], ch)
    requires !OkaySurvives(des, ch.secret, ch.stray, ch.behind) && CompletesAt(des, 2, run, i, 0, 0)
    ensures !SurvivesAt(des, 2, run, i, 0, 0)
  {
    forall j | 0 <= j < |run|
      ensures SecretIs(run[j], ch.secret)
      ensures j > 0 ==> TakesFrom(run[j], ch)
    {
      assert j > 0 ==> run[j] == more[j - 1];
    }
    var reg := Reached(des, 2, run[..i]);
    SecretsStay(des, Init(2), map[], run[..i], ch.secret);
    RecordIs(des, Exec(des, Init(2), run[..i]), reg, 0, 0);
  }

  // ------------------------------------------------------- notified for another one

  ghost predicate AllInitiatedBy(reg: History, g: Guid) {
    forall id :: id in reg ==> reg[id].initiator == g
  }

  lemma SessionsHere(des: Cipher, s: System, reg: History, e: Event, g: Guid)
    requires Inv(des, s, reg) && Enabled(s, e) && IsProgress(e) && AllInitiatedBy(reg, g) && g < |s.nodes|
    ensures Next(des, s, e).nodes[g].sessions == s.nodes[g].sessions && AllInitiatedBy(NextHistory(des, s, reg, e), g)
  {
    if e.Tick? && e.g == g {
      var n := s.nodes[g];
      InboxFacts(des, s, reg, g);
      assert NodeOk(des, n, reg, g);
      if IsHandshake(n.k.inq[0]) {
        assert EntryOk(reg[n.k.inq[0].id], |s.nodes|);
        HandlerRuns(des, n.k, reg, n.k.inq[0].id, e.ch, g, |s.nodes|);
      } else {
        DataHandled(des, n, reg, e.ch, g, |s.nodes|);
      }
    }
  }

  /** A node that initiated every connection gets no further sessions by working messages off. */
  lemma {:induction false} SessionsStay(des: Cipher, s: System, reg: History, more: seq<Event>, g: Guid)
    requires Inv(des, s, reg) && ValidRun(des, s, more) && AllInitiatedBy(reg, g) && g < |s.nodes|
    requires forall i :: 0 <= i < |more| ==> IsProgress(more[i])
    ensures Exec(des, s, more).nodes[g].sessions == s.nodes[g].sessions
    decreases |more|
  {
    if more != [] {
      SessionsHere(des, s, reg, more[0], g);
      StepKeeps(des, s, reg, more[0]);
      SessionsStay(des, Next(des, s, more[0]), NextHistory(des, s, reg, more[0]), more[1..], g);
    }
  }

  lemma TwoEvents(des: Cipher, s: System, e: Event, f: Event)
    requires Enabled(s, e) && Enabled(Next(des, s, e), f)
    ensures ValidRun(des, s, [e, f]) && Exec(des, s, [e, f]) == Next(des, Next(des, s, e), f)
  {
    var t := Next(des, s, e);
    assert [e, f][1..] == [f] && [f][1..] == [];
    assert ValidRun(des, Next(des, t, f), []) && Exec(des, Next(des, t, f), []) == Next(des, t, f);
    assert ValidRun(des, t, [f]) && Exec(des, t, [f]) == Next(des, t, f);
  }

  /** Node 0 asks for two connections in one session. */
  lemma Requested(des: Cipher, ch: Chance) returns (run: seq<Event>, reg: History)
    ensures ValidRun(des, Init(3), run) && RequestsOnly(run)
    ensures Inv(des, Exec(des, Init(3), run), reg) && AllInitiatedBy(reg, 0)
    ensures 0 in reg && reg[0].responder == 1
    ensures Exec(des, Init(3), run).nodes[0].sessions == [SessionView(0, [0, 1])]
  {
    var c := ch.(sid := 0);
    var e, f := NewSession(0, 1, 0, c), AddPeer(0, 0, 2, 1, c);
    run := [e, f];
    var s1 := Next(des, Init(3), e);
    assert s1.nodes[0].k.conns == [Request(0, InitialChallenge, 0, 1, ch.keypair, None)];
    assert s1.nodes[0].sessions == [SessionView(0, [0])];
    assert FreshId(s1, 1);
    var members: seq<ConnId> := [0] + [1];
    assert members == [0, 1];
    assert Next(des, s1, f).nodes[0].sessions == [SessionView(0, members)];
    TwoEvents(des, Init(3), e, f);
    InitInv(des, 3);
    StepKeeps(des, Init(3), map[], e);
    reg := NextHistory(des, s1, NextHistory(des, Init(3), map[], e), f);
    StepKeeps(des, s1, NextHistory(des, Init(3), map[], e), f);
  }

  /** And both are then complete, with no message left. */
  lemma Established(des: Cipher, ch: Chance) returns (run: seq<Event>)
    ensures ValidRun(des, Init(3), run)
    ensures
      var s := Exec(des, Init(3), run);
      && StepsLeft(s) == 0 && NoneStopped(s) && s.nodes[0].sessions == [SessionView(0, [0, 1])]
      && CompleteAt(s.nodes[1].k.conns, 0) && Find(s.nodes[1].k.conns, 0).value.remote == 0
  {
    var first, reg := Requested(des, ch);
    NoneHasStopped(des, 3, first);
    var more := EveryRunCanComplete(des, 3, first, ch);
    run := first + more;
    var s := Exec(des, Init(3), first);
    ExecSplit(des, Init(3), first, more);
    SessionsStay(des, s, reg, more, 0);
    NoneHasStopped(des, 3, run);
    RecordsAfterwards(des, s, reg, more);
    CompleteAfterwards(des, 3, first, more, 0, 0);
  }

  lemma RecordsAfterwards(des: Cipher, s: System, reg: History, more: seq<Event>)
    requires Inv(des, s, reg) && |s.nodes| == 3 && ValidRun(des, s, more)
    requires 0 in reg && reg[0].initiator == 0 && reg[0].responder == 1
    ensures
      var t := Exec(des, s, more);
      && Find(t.nodes[0].k.conns, 0).Some? && Find(t.nodes[0].k.conns, 0).value.remote == 1
      && (Find(t.nodes[1].k.conns, 0).Some? ==> Find(t.nodes[1].k.conns, 0).value.remote == 0)
  {
    var t, last := Exec(des, s, more), HistoryOf(des, s, reg, more);
    RunKeeps(des, s, reg, more);
    assert Later(reg[0], last[0]);
    RecordIs(des, t, last, 0, 0);
    RecordIs(des, t, last, 1, 0);
  }

  /** A message of node 1 to node 0, queued, emitted and delivered with nothing else around. */
  lemma OnItsWay(des: Cipher, s: System, e: Event)
    requires |s.nodes| == 3 && NoneStopped(s) && StepsLeft(s) == 0 && e.Send? && e.g == 1 && Enabled(s, e)
    requires |Batch(des, s, e)| == 1 && Batch(des, s, e)[0].recipient == 0
    ensures
      var t := Next(des, s, e);
      && Enabled(t, Emit(1, true)) && Enabled(Next(des, t, Emit(1, true)), Deliver(0))
      && var u := Next(des, Next(des, t, Emit(1, true)), Deliver(0));
         HeadAt(u, Batch(des, s, e)[0]) && u.nodes[0].sessions == s.nodes[0].sessions && NoneStopped(u)
  {
    var m := Batch(des, s, e)[0];
    NoStepsNoMessages(s);
    var t := Next(des, s, e);
    assert t.nodes[1].k.outq == [] + [m] == [m];
    assert t.nodes[0] == s.nodes[0] && NoneStopped(t);
    Delivered(des, t, m);
  }

  lemma Delivered(des: Cipher, t: System, m: Message)
    requires |t.nodes| == 3 && NoneStopped(t) && t.nodes[1].k.outq == [m] && t.net == [] && t.nodes[0].k.inq == []
    requires m.recipient == 0
    ensures Enabled(t, Emit(1, true)) && Enabled(Next(des, t, Emit(1, true)), Deliver(0))
    ensures
      var u := Next(des, Next(des, t, Emit(1, true)), Deliver(0));
      HeadAt(u, m) && u.nodes[0].sessions == t.nodes[0].sessions && NoneStopped(u)
  {
    var u := Next(des, t, Emit(1, true));
    assert u.net == [] + [m] == [m];
    var v := Next(des, u, Deliver(0));
    assert v.nodes[0].k.inq == [] + [m] == [m];
  }

  /** The same as events of a run. */
  lemma Arrived(des: Cipher, a: seq<Event>, e: Event)
    requires ValidRun(des, Init(3), a)
    requires
      var s := Exec(des, Init(3), a);
      && NoneStopped(s) && StepsLeft(s) == 0 && e.Send? && e.g == 1 && Enabled(s, e)
      && |Batch(des, s, e)| == 1 && Batch(des, s, e)[0].recipient == 0
    ensures
      var s := Exec(des, Init(3), a);
      var run := a + ([e] + [Emit(1, true), Deliver(0)]);
      && ValidRun(des, Init(3), run) && HeadAt(Exec(des, Init(3), run), Batch(des, s, e)[0])
      && Exec(des, Init(3), run).nodes[0].sessions == s.nodes[0].sessions && NoneStopped(Exec(des, Init(3), run))
  {
    var s := Exec(des, Init(3), a);
    var b := [Emit(1, true), Deliver(0)];
    OnItsWay(des, s, e);
    TwoEvents(des, Next(des, s, e), b[0], b[1]);
    assert ([e] + b)[0] == e && ([e] + b)[1..] == b;
    RunsOnwards(des, Init(3), a, [e] + b);
    ExecSplit(des, Init(3), a, [e] + b);
  }

  /**
   * For every block function, outside values and message: a run that brings a message on
   * the first connection of a session with two to its node, whose next tick notifies the
   * user for the second connection too.
   */
  lemma SecondNotified(des: Cipher, ch: Chance, mem: seq<Byte>, len: nat) returns (run: seq<Event>, text: CString)
    requires len < |mem|
    ensures ValidRun(des, Init(3), run)
    ensures
      var s := Exec(des, Init(3), run);
      var last := Tick(0, true, ch.(sid := 1));
      && Enabled(s, last)
      && s.nodes[0].k.inq[0].id == 0 && s.nodes[0].sessions == [SessionView(0, [0, 1])]
      && Next(des, s, last).nodes[0].notes == s.nodes[0].notes + [Note(0, 0, text), Note(0, 1, text)]
  {
    var a := Established(des, ch);
    var s := Exec(des, Init(3), a);
    var e := Send(1, [0], mem, len, []);
    FanOutExact(des, 3, a, 1, [0], mem, len, []);
    OneMember(s.nodes[1].k.conns, 0);
    Arrived(des, a, e);
    var b := [Emit(1, true), Deliver(0)];
    run := a + ([e] + b);
    var u := Exec(des, Init(3), run);
    SendNotified(des, 3, a, e, b, 0, ch.(sid := 1));
    text := Ticked(des, u.nodes[0].k, Resolve(3), ch.(sid := 1)).call.text;
    TwoNotes(u.nodes[0], Next(des, u, Tick(0, true, ch.(sid := 1))).nodes[0].notes, text);
  }

  lemma OneMember(conns: seq<Request>, id: ConnId)
    requires CompleteAt(conns, id)
    ensures CompletePrefix(conns, [id]) == 1
  {
    assert [id][1..] == [];
  }

  lemma TwoNotes(n: Node, notes: seq<Note>, text: CString)
    requires n.sessions == [SessionView(0, [0, 1])] && Notified(n, notes, 0, text)
    ensures notes == n.notes + [Note(0, 0, text), Note(0, 1, text)]
  {
    assert n.sessions[0].members[0] == 0;
    assert NotesOf(n.sessions[0], 0, text) == [Note(0, 0, text), Note(0, 1, text)];
  }
}
