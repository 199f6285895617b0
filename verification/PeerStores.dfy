/**
 * src/data/peerstore.c: peers by guid and guids by name.  Guid strings are values, so a
 * name whose guid has gone is simply stale.
 */
module PeerStores {
  import opened Bytes
  import opened Peers

  /** Whether a peer counts as active, given the time of the last update. */
  type Activity = (int, Peer) -> bool

  datatype Store = Store(peers: map<Text, Peer>, names: map<Text, Text>, lastUpdate: int, active: Activity)

  const DASH: octet := 0x2D

  // ---------------------------------------------------------------- specification

  /** A peer stored under another guid that owns the announced name and has the same host. */
  predicate Displaces(s: Store, p: Peer, g: Text) {
    && p.name in s.names && s.names[p.name] == g && g != GuidStr(p.guid)
    && g in s.peers && s.peers[g].host == p.host
  }

  /** handle_peer_reconnection. */
  function Reconnected(s: Store, p: Peer): Store {
    if p.name in s.names && Displaces(s, p, s.names[p.name])
    then s.(peers := s.peers - {s.names[p.name]}) else s
  }

  function Derived(p: Peer): Text {
    p.name + [DASH] + GuidStr(p.guid)[..4]
  }

  /** ensure_username_unique. */
  function UniqueName(names: map<Text, Text>, p: Peer): Text {
    if p.name in names then Derived(p) else p.name
  }

  lemma UniqueNameIs(names: map<Text, Text>, p: Peer, name: Text)
    requires p.name <= name && (name == p.name <==> p.name !in names)
    requires name != p.name ==>
               && |name| == |p.name| + 5 && name[|p.name|] == DASH
               && name[|p.name| + 1..] == GuidStr(p.guid)[..4]
    ensures name == UniqueName(names, p)
  {
    if name != p.name {
      assert name == name[..|p.name|] + [name[|p.name|]] + name[|p.name| + 1..];
    }
  }

  /** The namestore in which an announced name is looked for: an abandoned name is gone. */
  function NamesBefore(s: Store, g: Text): map<Text, Text> {
    if g in s.peers then s.names - {s.peers[g].name} else s.names
  }

  /** Whether a peer is already stored under a name that the announced one is a prefix of. */
  predicate Refreshes(s: Store, p: Peer) {
    GuidStr(p.guid) in s.peers && p.name <= s.peers[GuidStr(p.guid)].name
  }

  /** peerstore_store_peer. */
  function Stored(s0: Store, p: Peer, now: int): Store {
    var s := Reconnected(s0, p);
    var g := GuidStr(p.guid);
    if Refreshes(s, p) then
      s.(peers := s.peers[g := s.peers[g].(host := p.host, lastSeen := now)])
    else
      var names := NamesBefore(s, g);
      var name := UniqueName(names, p);
      var entry := if g in s.peers then s.peers[g].(host := p.host, name := name, lastSeen := now)
                   else p.(name := name, lastSeen := now);
      s.(peers := s.peers[g := entry], names := names[name := g])
  }

  /** Eviction at a lookup: an inactive peer goes, its name stays. */
  function Evicted(s: Store, g: Text): Store {
    if g in s.peers && !s.active(s.lastUpdate, s.peers[g]) then s.(peers := s.peers - {g}) else s
  }

  function Answer(s: Store, g: Text): Option<Peer> {
    if g in s.peers && s.active(s.lastUpdate, s.peers[g]) then Some(s.peers[g]) else None
  }

  /** peerstore_lookup_by_username: a name without a peer goes, an inactive peer too. */
  function NameLookedUp(s: Store, u: Text): Store {
    if u !in s.names then s
    else if s.names[u] !in s.peers then s.(names := s.names - {u})
    else Evicted(s, s.names[u])
  }

  function NameAnswer(s: Store, u: Text): Option<Peer> {
    if u in s.names then Answer(s, s.names[u]) else None
  }

  /** peerstore_peer_no_longer_active; nothing if the code would dereference null. */
  function Departed(s: Store, u: Text): Option<Store> {
    if u in s.names && s.names[u] in s.peers
    then Some(s.(names := s.names - {u}, peers := s.peers - {s.names[u]})) else None
  }

  /** is_active_peer_periodic_update: the doubled interval is an unsigned 32-bit product. */
  function PeriodicUpdate(lastUpdate: int, p: Peer): bool {
    p.lastSeen >= lastUpdate - (2 * p.interval) % 0x1_0000_0000
  }

  /** is_active_peer_ask_once, and always_active. */
  function AskOnce(lastUpdate: int, p: Peer): bool {
    true
  }

  // ---------------------------------------------------------- the two indexes agree

  /** Every peer is stored under its own guid. */
  ghost predicate KeysOk(s: Store) {
    forall g :: g in s.peers ==> GuidStr(s.peers[g].guid) == g
  }

  /** And its current name leads back to it. */
  ghost predicate IndexOk(s: Store) {
    KeysOk(s) && forall g :: g in s.peers ==> s.peers[g].name in s.names && s.names[s.peers[g].name] == g
  }

  /** The derived name of an announcement that must be renamed is another peer's current name. */
  predicate Clobbers(s0: Store, p: Peer) {
    var s := Reconnected(s0, p);
    var g := GuidStr(p.guid);
    var names := NamesBefore(s, g);
    && !Refreshes(s, p) && p.name in names
    && Derived(p) in names && names[Derived(p)] != g
    && names[Derived(p)] in s.peers && s.peers[names[Derived(p)]].name == Derived(p)
  }

  lemma StoredKeys(s: Store, p: Peer, now: int)
    requires KeysOk(s)
    ensures KeysOk(Stored(s, p, now))
  {
  }

  /** Storing keeps the indexes together exactly when the derived name is nobody else's. */
  lemma StoreKeepsIndexIff(s: Store, p: Peer, now: int)
    requires IndexOk(s)
    ensures IndexOk(Stored(s, p, now)) <==> !Clobbers(s, p)
  {
    StoredKeys(s, p, now);
    var r, g, t := Reconnected(s, p), GuidStr(p.guid), Stored(s, p, now);
    var names := NamesBefore(r, g);
    if Clobbers(s, p) {
      assert t.peers[names[Derived(p)]].name == Derived(p) && t.names[Derived(p)] == g;
    } else {
      forall h | h in t.peers
        ensures t.peers[h].name in t.names && t.names[t.peers[h].name] == h
      {
        if h != g {
          assert t.peers[h] == r.peers[h] == s.peers[h];
        }
      }
    }
  }

  /** What any single store does to the entries: its own, and the others'. */
  lemma StoreExact(s: Store, p: Peer, now: int)
    requires KeysOk(s)
    ensures
      var g, t := GuidStr(p.guid), Stored(s, p, now);
      && g in t.peers && t.peers[g].guid == p.guid && t.peers[g].host == p.host && t.peers[g].lastSeen == now
      && p.name <= t.peers[g].name
      && t.peers[g].interval == (if g in s.peers then s.peers[g].interval else p.interval)
      && t.lastUpdate == s.lastUpdate && t.active == s.active
    ensures forall h :: h != GuidStr(p.guid) ==>
              && (h in Stored(s, p, now).peers <==>
                  h in s.peers && !(p.name in s.names && s.names[p.name] == h && s.peers[h].host == p.host))
              && (h in Stored(s, p, now).peers ==> Stored(s, p, now).peers[h] == s.peers[h])
  {
    var g := GuidStr(p.guid);
    if g in s.peers {
      GuidStrInjective(s.peers[g].guid, p.guid);
    }
  }

  /**
   * And to the names: an announcement that the stored name begins with leaves all of them
   * alone; any other gives up the peer's old name and maps the new one, which is the
   * announced name if that was free, to its guid.
   */
  lemma StoreNames(s: Store, p: Peer, now: int)
    requires KeysOk(s)
    ensures
      var g, t := GuidStr(p.guid), Stored(s, p, now);
      var former := if g in s.peers then Some(s.peers[g].name) else None;
      var name := t.peers[g].name;
      if former.Some? && p.name <= former.value then name == former.value && t.names == s.names
      else
        && name in t.names && t.names[name] == g
        && (name == p.name <==> p.name !in s.names)
        && (name != p.name ==> |name| == |p.name| + 5 && name[|p.name|..] == [DASH] + g[..4])
        && (forall u :: u != name ==> (u in t.names <==> u in s.names && former != Some(u)))
        && (forall u :: u != name && u in t.names ==> t.names[u] == s.names[u])
  {
    var g := GuidStr(p.guid);
    assert Derived(p)[|p.name|..] == [DASH] + g[..4];
  }

  /** Storing the same announcement twice at one clock value changes nothing more. */
  lemma StoreIdempotent(s: Store, p: Peer, now: int)
    ensures Stored(Stored(s, p, now), p, now) == Stored(s, p, now)
  {
    var t := Stored(s, p, now);
    var g := GuidStr(p.guid);
    assert g in t.peers && p.name <= t.peers[g].name;
    assert !(p.name in t.names && Displaces(t, p, t.names[p.name]));
    assert t.peers[g := t.peers[g].(host := p.host, lastSeen := now)] == t.peers;
  }

  /** A lookup by guid answers with the stored peer if it is kept, and removes it if not. */
  lemma LookupExact(s: Store, g: Text)
    requires s.active == PeriodicUpdate
    ensures
      var kept := g in s.peers && s.peers[g].lastSeen >= s.lastUpdate - (2 * s.peers[g].interval) % 0x1_0000_0000;
      && (Answer(s, g).Some? <==> kept) && (kept ==> Answer(s, g) == Some(s.peers[g]))
      && Evicted(s, g).names == s.names
      && (forall h :: h in Evicted(s, g).peers <==> h in s.peers && (h != g || kept))
      && (forall h :: h in Evicted(s, g).peers ==> Evicted(s, g).peers[h] == s.peers[h])
  {
  }

  /** Where peers are asked for once, what is stored is what is found. */
  lemma AskOnceKeeps(s: Store, g: Text)
    requires s.active == AskOnce
    ensures Evicted(s, g) == s && Answer(s, g) == if g in s.peers then Some(s.peers[g]) else None
  {
  }

  /**
   * A lookup by name, in each case: a name whose peer is gone is forgotten; otherwise names
   * stay, and the peer is answered or removed as by its guid.
   */
  lemma NameLookupExact(s: Store, u: Text)
    ensures
      var t := NameLookedUp(s, u);
      && (forall v :: v in t.names <==> v in s.names && (v != u || s.names[u] in s.peers))
      && (forall v :: v in t.names ==> t.names[v] == s.names[v])
      && (u !in s.names || s.names[u] !in s.peers ==> t.peers == s.peers && NameAnswer(s, u) == None)
      && (u in s.names && s.names[u] in s.peers ==>
            t.peers == Evicted(s, s.names[u]).peers && NameAnswer(s, u) == Answer(s, s.names[u]))
  {
  }

  /** A departure takes the name and the peer it leads to, and nothing else; both must be there. */
  lemma DepartedExact(s: Store, u: Text)
    ensures Departed(s, u).Some? <==> u in s.names && s.names[u] in s.peers
    ensures Departed(s, u).Some? ==>
              var t := Departed(s, u).value;
              && (forall v :: v in t.names <==> v in s.names && v != u)
              && (forall g :: g in t.peers <==> g in s.peers && g != s.names[u])
              && (forall v :: v in t.names ==> t.names[v] == s.names[v])
              && (forall g :: g in t.peers ==> t.peers[g] == s.peers[g])
              && t.lastUpdate == s.lastUpdate && t.active == s.active
  {
  }

  lemma LookupsKeepIndex(s: Store, g: Text, u: Text)
    requires IndexOk(s)
    ensures IndexOk(Evicted(s, g)) && IndexOk(NameLookedUp(s, u))
    ensures Departed(s, u).Some? ==> IndexOk(Departed(s, u).value)
  {
  }

  /** Current names are unique, and a lookup by current name is the lookup by guid. */
  lemma CurrentNames(s: Store, g: Text, h: Text)
    requires IndexOk(s) && g in s.peers && h in s.peers
    ensures s.peers[g].name == s.peers[h].name ==> g == h
    ensures NameAnswer(s, s.peers[g].name) == Answer(s, g) && NameLookedUp(s, s.peers[g].name) == Evicted(s, g)
  {
  }

  // -------------------------------------------------------------------- whole runs

  /** Leave is handle_stop's removal of a name; where it would dereference null, nothing. */
  datatype Op =
    | Announce(p: Peer, now: int)
    | Lookup(guid: Guid16)
    | LookupName(u: Text)
    | Update(t: int)
    | Leave(u: Text)

  function Empty(active: Activity, t: int): Store {
    Store(map[], map[], t, active)
  }

  function Step(s: Store, op: Op): Store {
    match op
    case Announce(p, now) => Stored(s, p, now)
    case Lookup(guid) => Evicted(s, GuidStr(guid))
    case LookupName(u) => NameLookedUp(s, u)
    case Update(t) => s.(lastUpdate := t)
    case Leave(u) => if Departed(s, u).Some? then Departed(s, u).value else s
  }

  function Exec(s: Store, run: seq<Op>): Store {
    if run == [] then s else Step(Exec(s, run[..|run| - 1]), run[|run| - 1])
  }

  lemma ExecPrefix(s: Store, run: seq<Op>, op: Op)
    ensures Exec(s, run + [op]) == Step(Exec(s, run), op)
  {
    assert (run + [op])[..|run|] == run;
  }

  /** The indexes agree after the run and after each of its beginnings. */
  ghost predicate AgreeAlong(s: Store, run: seq<Op>) {
    IndexOk(Exec(s, run)) && (run == [] || AgreeAlong(s, run[..|run| - 1]))
  }

  /** No announcement of the run takes over, as its derived name, another peer's current name. */
  ghost predicate NoneClobbers(s: Store, run: seq<Op>) {
    run == [] ||
    var before, op := run[..|run| - 1], run[|run| - 1];
    NoneClobbers(s, before) && (op.Announce? ==> !Clobbers(Exec(s, before), op.p))
  }

  /** The exact condition over a run for the indexes to agree all along it. */
  lemma {:induction false} IndexesAgreeIff(s: Store, run: seq<Op>)
    requires IndexOk(s)
    ensures AgreeAlong(s, run) <==> NoneClobbers(s, run)
  {
    if run != [] {
      var before := run[..|run| - 1];
      IndexesAgreeIff(s, before);
      if IndexOk(Exec(s, before)) {
        StepKeepsIndexIff(Exec(s, before), run[|run| - 1]);
      }
    }
  }

  lemma StepKeepsIndexIff(s: Store, op: Op)
    requires IndexOk(s)
    ensures IndexOk(Step(s, op)) <==> (op.Announce? ==> !Clobbers(s, op.p))
  {
    match op
    case Announce(p, now) => StoreKeepsIndexIff(s, p, now);
    case Lookup(guid) => LookupsKeepIndex(s, GuidStr(guid), []);
    case LookupName(u) => LookupsKeepIndex(s, [], u);
    case Update(_) =>
    case Leave(u) => LookupsKeepIndex(s, [], u);
  }

  /** A stored name is free of dashes, or is such a name and a dash and the guid's first digits. */
  predicate NameShape(n: Text, g: Text) {
    DASH !in n ||
    (|n| >= 5 && |g| >= 4 && n[|n| - 5] == DASH && DASH !in n[..|n| - 5] && n[|n| - 4..] == g[..4])
  }

  /** The guids of a community differ in their first four digits. */
  ghost predicate HeadsDiffer(known: set<Text>) {
    forall g, h :: g in known && h in known && |g| >= 4 && |h| >= 4 && g[..4] == h[..4] ==> g == h
  }

  ghost predicate NamesOk(s: Store, known: set<Text>) {
    forall n :: n in s.names ==> s.names[n] in known && |s.names[n]| >= 4 && NameShape(n, s.names[n])
  }

  predicate PlainAnnouncement(op: Op, known: set<Text>) {
    op.Announce? ==> DASH !in op.p.name && GuidStr(op.p.guid) in known
  }

  lemma DerivedShape(p: Peer, g: Text)
    requires DASH !in p.name && |g| >= 4
    ensures NameShape(Derived(p), g) <==> g[..4] == GuidStr(p.guid)[..4]
  {
    var d := Derived(p);
    assert d[|p.name|] == DASH && d[..|p.name|] == p.name && d[|p.name| + 1..] == GuidStr(p.guid)[..4];
    assert |d| == |p.name| + 5;
  }

  lemma NothingClobbered(s: Store, p: Peer, known: set<Text>)
    requires NamesOk(s, known) && HeadsDiffer(known) && DASH !in p.name && GuidStr(p.guid) in known
    ensures !Clobbers(s, p)
  {
    if Derived(p) in s.names {
      DerivedShape(p, s.names[Derived(p)]);
      assert s.names[Derived(p)] == GuidStr(p.guid);
    }
  }

  lemma StepKeepsNames(s: Store, op: Op, known: set<Text>)
    requires NamesOk(s, known) && PlainAnnouncement(op, known)
    ensures NamesOk(Step(s, op), known)
  {
    if op.Announce? {
      DerivedShape(op.p, GuidStr(op.p.guid));
    }
  }

  /**
   * Two-index invariant over runs: if announced names have no dash and guids differ in
   * their first four digits, then after any run every peer is stored under its guid and
   * its current name leads back to it.
   */
  lemma {:induction false} IndexesAgree(s: Store, run: seq<Op>, known: set<Text>)
    requires IndexOk(s) && NamesOk(s, known) && HeadsDiffer(known)
    requires forall i :: 0 <= i < |run| ==> PlainAnnouncement(run[i], known)
    ensures IndexOk(Exec(s, run)) && NamesOk(Exec(s, run), known)
  {
    if run != [] {
      var n := |run| - 1;
      IndexesAgree(s, run[..n], known);
      var t := Exec(s, run[..n]);
      StepKeepsNames(t, run[n], known);
      StepKeepsIndexIff(t, run[n]);
      if run[n].Announce? {
        NothingClobbered(t, run[n].p, known);
      }
    }
  }

  const ZERO: Guid16 := [0, 0, 0, 0, 0, 0, 0, 0, 0, 0, 0, 0, 0, 0, 0, 0]

  // "B-0202", then "B" from a second peer, then "B" from a peer whose guid begins 0202
  const FIRST := Peer(ZERO[0 := 1], [0x41], [0x42, DASH, 0x30, 0x32, 0x30, 0x32], 10, 0)
  const SECOND := Peer(ZERO[0 := 3], [0x43], [0x42], 10, 0)
  const THIRD := Peer(ZERO[0 := 2][1 := 2], [0x44], [0x42], 10, 0)

  lemma ThreeGuids()
    ensures GuidStr(FIRST.guid) != GuidStr(SECOND.guid) && GuidStr(FIRST.guid) != GuidStr(THIRD.guid)
    ensures GuidStr(SECOND.guid) != GuidStr(THIRD.guid)
    ensures Derived(THIRD) == FIRST.name && SECOND.name == THIRD.name != FIRST.name
  {
    var ga, gb, gc := GuidStr(FIRST.guid), GuidStr(SECOND.guid), GuidStr(THIRD.guid);
    assert ga[1] == 0x31 && gb[1] == 0x33 && gc[1] == 0x32;
    assert gc[..4] == [0x30, 0x32, 0x30, 0x32];
  }

  lemma TwoStored()
    ensures
      var s := Stored(Stored(Empty(AskOnce, 0), FIRST, 0), SECOND, 0);
      && s.peers == map[GuidStr(FIRST.guid) := FIRST, GuidStr(SECOND.guid) := SECOND]
      && s.names == map[FIRST.name := GuidStr(FIRST.guid), SECOND.name := GuidStr(SECOND.guid)]
  {
    ThreeGuids();
    var s := Stored(Empty(AskOnce, 0), FIRST, 0);
    assert s.peers == map[GuidStr(FIRST.guid) := FIRST] && s.names == map[FIRST.name := GuidStr(FIRST.guid)];
  }

  lemma ThirdClobbers(s: Store)
    requires s.peers == map[GuidStr(FIRST.guid) := FIRST, GuidStr(SECOND.guid) := SECOND]
    requires s.names == map[FIRST.name := GuidStr(FIRST.guid), SECOND.name := GuidStr(SECOND.guid)]
    ensures
      var t := Stored(s, THIRD, 0);
      && GuidStr(FIRST.guid) in t.peers && t.peers[GuidStr(FIRST.guid)] == FIRST
      && FIRST.name in t.names && t.names[FIRST.name] == GuidStr(THIRD.guid) != GuidStr(FIRST.guid)
  {
    ThreeGuids();
  }

  /**
   * Without the hypothesis it fails: with a dash in a name, the third announcement takes
   * the first peer's current name, and the name leads to the third peer from then on.
   */
  lemma DashBreaksIndex()
    ensures
      var s := Exec(Empty(AskOnce, 0), [Announce(FIRST, 0), Announce(SECOND, 0), Announce(THIRD, 0)]);
      && !IndexOk(s) && GuidStr(FIRST.guid) in s.peers && s.peers[GuidStr(FIRST.guid)].name == FIRST.name
      && FIRST.name in s.names && s.names[FIRST.name] == GuidStr(THIRD.guid)
  {
    var s0 := Empty(AskOnce, 0);
    var a, b, c := Announce(FIRST, 0), Announce(SECOND, 0), Announce(THIRD, 0);
    assert [a, b, c] == [] + [a] + [b] + [c];
    ExecPrefix(s0, [], a);
    ExecPrefix(s0, [] + [a], b);
    ExecPrefix(s0, [] + [a] + [b], c);
    TwoStored();
    ThirdClobbers(Exec(s0, [] + [a] + [b]));
  }

  // ------------------------------------------------------------------------ expiry

  /** One operation removes a stored peer exactly in these ways. */
  lemma RemovedIff(s: Store, op: Op, g: Text)
    requires KeysOk(s) && g in s.peers
    ensures g !in Step(s, op).peers <==>
            || (op.Announce? && GuidStr(op.p.guid) != g && op.p.name in s.names && s.names[op.p.name] == g
                && s.peers[g].host == op.p.host)
            || (op.Lookup? && GuidStr(op.guid) == g && !s.active(s.lastUpdate, s.peers[g]))
            || (op.LookupName? && op.u in s.names && s.names[op.u] == g && !s.active(s.lastUpdate, s.peers[g]))
            || (op.Leave? && op.u in s.names && s.names[op.u] == g)
  {
    if op.Announce? {
      StoreExact(s, op.p, op.now);
    }
  }

  /** A kept entry keeps its interval, and changes otherwise only by its own announcement. */
  lemma KeptEntry(s: Store, op: Op, g: Text)
    requires KeysOk(s) && g in s.peers && g in Step(s, op).peers
    ensures
      var was, now := s.peers[g], Step(s, op).peers[g];
      && now.interval == was.interval && now.guid == was.guid
      && (if op.Announce? && GuidStr(op.p.guid) == g then now.lastSeen == op.now && now.host == op.p.host
          else now == was)
  {
    if op.Announce? {
      StoreExact(s, op.p, op.now);
    }
  }

  lemma StepKeepsKeys(s: Store, op: Op)
    requires KeysOk(s)
    ensures KeysOk(Step(s, op)) && Step(s, op).active == s.active
  {
    if op.Announce? {
      StoredKeys(s, op.p, op.now);
    }
  }

  lemma {:induction false} RunKeepsKeys(s: Store, run: seq<Op>)
    requires KeysOk(s)
    ensures KeysOk(Exec(s, run)) && Exec(s, run).active == s.active
  {
    if run != [] {
      RunKeepsKeys(s, run[..|run| - 1]);
      StepKeepsKeys(Exec(s, run[..|run| - 1]), run[|run| - 1]);
    }
  }

  predicate Announces(op: Op, g: Text) {
    op.Announce? && GuidStr(op.p.guid) == g
  }

  /** Event `first` put the entry g into the store, where it has been ever since. */
  ghost predicate Entered(s: Store, run: seq<Op>, g: Text, first: nat)
    requires g in Exec(s, run).peers
  {
    && first < |run| && Announces(run[first], g)
    && g !in Exec(s, run[..first]).peers
    && (forall j :: first < j <= |run| ==> g in Exec(s, run[..j]).peers)
    && Exec(s, run).peers[g].interval == run[first].p.interval
  }

  /** Event `last` is the latest announcement of g. */
  ghost predicate Refreshed(s: Store, run: seq<Op>, g: Text, last: nat)
    requires g in Exec(s, run).peers
  {
    && last < |run| && Announces(run[last], g)
    && (forall j :: last < j < |run| ==> !Announces(run[j], g))
    && Exec(s, run).peers[g].lastSeen == run[last].now
    && Exec(s, run).peers[g].host == run[last].p.host
  }

  lemma Prefixes(before: seq<Op>, op: Op)
    ensures forall j :: 0 <= j <= |before| ==> (before + [op])[..j] == before[..j]
    ensures (before + [op])[..|before| + 1] == before + [op]
    ensures before[..|before|] == before
  {
  }

  lemma StillEntered(s: Store, before: seq<Op>, op: Op, g: Text, first: nat)
    requires g in Exec(s, before).peers && Entered(s, before, g, first)
    requires g in Exec(s, before + [op]).peers
    requires Exec(s, before + [op]).peers[g].interval == Exec(s, before).peers[g].interval
    ensures Entered(s, before + [op], g, first)
  {
    var run := before + [op];
    Prefixes(before, op);
    forall j | first < j <= |run|
      ensures g in Exec(s, run[..j]).peers
    {
      if j <= |before| {
        assert g in Exec(s, before[..j]).peers;
      }
    }
  }

  lemma StillRefreshed(s: Store, before: seq<Op>, op: Op, g: Text, last: nat)
    requires KeysOk(s) && g in Exec(s, before).peers && Refreshed(s, before, g, last)
    requires g in Exec(s, before + [op]).peers
    ensures Refreshed(s, before + [op], g, if Announces(op, g) then |before| else last)
    ensures Exec(s, before + [op]).peers[g].interval == Exec(s, before).peers[g].interval
  {
    ExecPrefix(s, before, op);
    RunKeepsKeys(s, before);
    KeptEntry(Exec(s, before), op, g);
  }

  lemma NewEntry(s: Store, op: Op, g: Text)
    requires KeysOk(s) && g !in s.peers && g in Step(s, op).peers
    ensures Announces(op, g)
    ensures
      var p := Step(s, op).peers[g];
      p.interval == op.p.interval && p.lastSeen == op.now && p.host == op.p.host
  {
    if op.Announce? {
      StoreExact(s, op.p, op.now);
    }
  }

  /** A new entry is its announcement's. */
  lemma NewlyRefreshed(s: Store, before: seq<Op>, op: Op, g: Text)
    requires KeysOk(s) && g !in Exec(s, before).peers && g in Exec(s, before + [op]).peers
    ensures Refreshed(s, before + [op], g, |before|)
    ensures Announces(op, g) && Exec(s, before + [op]).peers[g].interval == op.p.interval
  {
    ExecPrefix(s, before, op);
    RunKeepsKeys(s, before);
    NewEntry(Exec(s, before), op, g);
  }

  lemma NewlyEntered(s: Store, before: seq<Op>, op: Op, g: Text)
    requires g !in Exec(s, before).peers && g in Exec(s, before + [op]).peers && Announces(op, g)
    requires Exec(s, before + [op]).peers[g].interval == op.p.interval
    ensures Entered(s, before + [op], g, |before|)
  {
    Prefixes(before, op);
    assert (before + [op])[..|before|] == before;
  }

  /**
   * Whatever the run, a stored peer was last seen at its guid's latest announcement, and
   * its interval is the one announced when it was last put into the store.
   */
  lemma {:induction false} EntryHistory(active: Activity, t: int, run: seq<Op>, g: Text) returns (first: nat, last: nat)
    requires g in Exec(Empty(active, t), run).peers
    ensures Entered(Empty(active, t), run, g, first) && Refreshed(Empty(active, t), run, g, last)
  {
    var s := Empty(active, t);
    var before, op := run[..|run| - 1], run[|run| - 1];
    assert run == before + [op];
    if g in Exec(s, before).peers {
      first, last := EntryHistory(active, t, before, g);
      StillRefreshed(s, before, op, g, last);
      StillEntered(s, before, op, g, first);
      last := if Announces(op, g) then |before| else last;
    } else {
      NewlyRefreshed(s, before, op, g);
      NewlyEntered(s, before, op, g);
      first, last := |before|, |before|;
    }
  }

  lemma NoWrap(p: Peer)
    requires p.interval < 0x8000_0000
    ensures (2 * p.interval) % 0x1_0000_0000 == 2 * p.interval
  {
  }

  /**
   * No lookup returns an expired peer: what is returned was last seen no earlier than the
   * last update less twice the interval of the announcement that last put it into the store.
   */
  lemma LookupIsFresh(t: int, run: seq<Op>, guid: Guid16) returns (first: nat, last: nat)
    requires Answer(Exec(Empty(PeriodicUpdate, t), run), GuidStr(guid)).Some?
    ensures Entered(Empty(PeriodicUpdate, t), run, GuidStr(guid), first)
    ensures Refreshed(Empty(PeriodicUpdate, t), run, GuidStr(guid), last)
    ensures
      var s := Exec(Empty(PeriodicUpdate, t), run);
      var p := Answer(s, GuidStr(guid)).value;
      && p.guid == guid && p.lastSeen == run[last].now
      && (run[first].p.interval < 0x8000_0000 ==> p.lastSeen >= s.lastUpdate - 2 * run[first].p.interval)
  {
    var s := Exec(Empty(PeriodicUpdate, t), run);
    RunKeepsKeys(Empty(PeriodicUpdate, t), run);
    first, last := EntryHistory(PeriodicUpdate, t, run, GuidStr(guid));
    GuidStrInjective(s.peers[GuidStr(guid)].guid, guid);
    if run[first].p.interval < 0x8000_0000 {
      NoWrap(s.peers[GuidStr(guid)]);
    }
  }

  /** Nothing in the run drives peer g out while the last update stays within its bound. */
  ghost predicate Undisturbed(s: Store, op: Op, g: Text) {
    && (op.Announce? && GuidStr(op.p.guid) != g && op.p.name in s.names && s.names[op.p.name] == g && g in s.peers
        ==> s.peers[g].host != op.p.host)
    && (op.Leave? ==> op.u !in s.names || s.names[op.u] != g)
    && (g in s.peers && s.active == PeriodicUpdate ==> s.lastUpdate <= s.peers[g].lastSeen + 2 * s.peers[g].interval)
  }

  lemma UndisturbedStays(s: Store, op: Op, g: Text)
    requires KeysOk(s) && g in s.peers && Undisturbed(s, op, g)
    requires s.active == AskOnce || (s.active == PeriodicUpdate && s.peers[g].interval < 0x8000_0000)
    ensures g in Step(s, op).peers && Step(s, op).peers[g].interval == s.peers[g].interval
  {
    if s.active != AskOnce {
      NoWrap(s.peers[g]);
    }
    RemovedIff(s, op, g);
    KeptEntry(s, op, g);
  }

  /**
   * A peer that is announced often enough, whose name is not taken over from its host and
   * whose leaving is not announced, is never evicted; peers that are asked for once need
   * not be announced again.
   */
  lemma {:induction false} NeverEvicted(s: Store, run: seq<Op>, g: Text)
    requires KeysOk(s) && g in s.peers
    requires s.active == AskOnce || (s.active == PeriodicUpdate && s.peers[g].interval < 0x8000_0000)
    requires forall j :: 0 <= j < |run| ==> Undisturbed(Exec(s, run[..j]), run[j], g)
    ensures g in Exec(s, run).peers && Exec(s, run).peers[g].interval == s.peers[g].interval
  {
    if run != [] {
      var n := |run| - 1;
      assert forall j :: 0 <= j <= n ==> run[..n][..j] == run[..j];
      NeverEvicted(s, run[..n], g);
      RunKeepsKeys(s, run[..n]);
      var b := Exec(s, run[..n]);
      UndisturbedStays(b, run[n], g);
    }
  }

  // -------------------------------------------------------------------------- code

  class PeerStore {
    const localPeer: Peer
    var lastUpdate: int
    var isActivePeer: Activity
    var peers: map<Text, Peer>
    var names: map<Text, Text>

    ghost function View(): Store
      reads this
    {
      Store(peers, names, lastUpdate, isActivePeer)
    }

    ghost predicate Valid()
      reads this
    {
      KeysOk(View())
    }

    /** peerstore_init. */
    constructor (local: Peer, active: Activity, now: int)
      ensures Valid() && View() == Empty(active, now) && localPeer == local
      ensures peers == map[] && names == map[] && lastUpdate == now && isActivePeer == active
    {
      localPeer, lastUpdate, isActivePeer := local, now, active;
      peers, names := map[], map[];
    }

    method HandlePeerReconnection(p: Peer)
      modifies this`peers
      ensures View() == Reconnected(old(View()), p)
    {
      if p.name in names {
        var guidStr := names[p.name];
        if guidStr != GuidStr(p.guid) {
          if guidStr in peers && peers[guidStr].host == p.host {
            peers := peers - {guidStr};
          }
        }
      }
    }

    /** The announced name if it is free; else five characters more, from the guid string. */
    method EnsureUsernameUnique(p: Peer, guidStr: Text) returns (name: Text)
      requires |guidStr| >= 4
      ensures p.name <= name && (name == p.name <==> p.name !in names)
      ensures name != p.name ==>
                |name| == |p.name| + 5 && name[|p.name|] == DASH && name[|p.name| + 1..] == guidStr[..4]
    {
      name := p.name;
      if p.name in names {
        name := name + [DASH];
        name := name + guidStr[..4];
      }
    }

    method StorePeer(p: Peer, now: int)
      requires Valid()
      modifies this`peers, this`names
      ensures Valid() && View() == Stored(old(View()), p, now)
    {
      StoredKeys(View(), p, now);
      HandlePeerReconnection(p);
      var guidStr := GuidStr(p.guid);
      if guidStr in peers {
        var entry := peers[guidStr].(host := p.host);
        if !(p.name <= entry.name) {
          names := names - {entry.name};
          var unique := EnsureUsernameUnique(p, guidStr);
          UniqueNameIs(names, p, unique);
          entry := entry.(name := unique);
          names := names[unique := guidStr];
        }
        peers := peers[guidStr := entry.(lastSeen := now)];
      } else {
        var unique := EnsureUsernameUnique(p, guidStr);
        UniqueNameIs(names, p, unique);
        names := names[unique := guidStr];
        peers := peers[guidStr := p.(name := unique, lastSeen := now)];
      }
    }

    method LookupPeer(guid: Guid16) returns (p: Option<Peer>)
      requires Valid()
      modifies this`peers
      ensures Valid() && View() == Evicted(old(View()), GuidStr(guid))
      ensures p == Answer(old(View()), GuidStr(guid))
      ensures p.Some? ==> p.value.guid == guid
    {
      var guidStr := GuidStr(guid);
      p := None;
      if guidStr in peers {
        p := Some(peers[guidStr]);
        GuidStrInjective(peers[guidStr].guid, guid);
        if !isActivePeer(lastUpdate, peers[guidStr]) {
          peers := peers - {guidStr};
          p := None;
        }
      }
    }

    method LookupByUsername(username: Text) returns (p: Option<Peer>)
      requires Valid()
      modifies this`peers, this`names
      ensures Valid() && View() == NameLookedUp(old(View()), username)
      ensures p == NameAnswer(old(View()), username)
    {
      if username !in names {
        return None;
      }
      var guidStr := names[username];
      if guidStr !in peers {
        names := names - {username};
        return None;
      }
      p := Some(peers[guidStr]);
      if !isActivePeer(lastUpdate, peers[guidStr]) {
        peers := peers - {guidStr};
        p := None;
      }
    }

    /** peerstore_peer_no_longer_active; the result tells whether a null was dereferenced. */
    method NoLongerActive(username: Text) returns (okay: bool)
      requires Valid()
      modifies this`peers, this`names
      ensures okay <==> Departed(old(View()), username).Some?
      ensures Valid() && (okay ==> View() == Departed(old(View()), username).value)
    {
      okay := username in names && names[username] in peers;
      if okay {
        var guidStr := names[username];
        names := names - {username};
        peers := peers - {guidStr};
      }
    }

    method SetLastUpdateTime(t: int)
      requires Valid()
      modifies this`lastUpdate
      ensures Valid() && View() == old(View()).(lastUpdate := t)
    {
      lastUpdate := t;
    }

    /** peerstore_get_active_guids: the keys come in the hash map's own order. */
    method GetActiveGuids(keys: seq<Text>) returns (guids: array<Option<Guid16>>, numGuids: nat)
      requires Valid() && (set k | k in keys) == peers.Keys
      ensures fresh(guids) && guids.Length == |keys| && numGuids <= |keys|
      ensures guids[..numGuids] == Listed(View(), keys)
    {
      ghost var s := View();
      guids := new Option<Guid16>[|keys|](_ => None);
      numGuids := 0;
      var i := 0;
      while i < |keys|
        invariant i <= |keys| && numGuids <= i && fresh(guids) && guids.Length == |keys|
        invariant guids[..numGuids] == Listed(s, keys[..i])
      {
        assert keys[i] in (set k | k in keys);
        assert keys[..i + 1][..i] == keys[..i];
        ghost var was := guids[..numGuids];
        if isActivePeer(lastUpdate, peers[keys[i]]) {
          guids[numGuids] := Some(peers[keys[i]].guid);
          numGuids := numGuids + 1;
          assert guids[..numGuids] == was + [Some(peers[keys[i]].guid)];
        }
        i := i + 1;
      }
      assert keys[..i] == keys;
    }
  }

  // ----------------------------------------------------------------------- listing

  predicate ActiveAt(s: Store, k: Text) {
    k in s.peers && s.active(s.lastUpdate, s.peers[k])
  }

  /** The guids of the active peers, in the order of the keys. */
  function Listed(s: Store, keys: seq<Text>): seq<Option<Guid16>> {
    if keys == [] then []
    else
      var k := keys[|keys| - 1];
      Listed(s, keys[..|keys| - 1]) + if ActiveAt(s, k) then [Some(s.peers[k].guid)] else []
  }

  /** Entry by entry: a listed guid is an active key, and an active key is listed. */
  lemma {:induction false} ListedEntries(s: Store, keys: seq<Text>)
    requires KeysOk(s)
    ensures forall i :: 0 <= i < |Listed(s, keys)| ==>
              var o := Listed(s, keys)[i];
              o.Some? && GuidStr(o.value) in keys && ActiveAt(s, GuidStr(o.value))
    ensures forall j :: 0 <= j < |keys| && ActiveAt(s, keys[j]) ==> Some(s.peers[keys[j]].guid) in Listed(s, keys)
  {
    if keys != [] {
      ListedEntries(s, keys[..|keys| - 1]);
    }
  }

  lemma {:induction false} ListedOnce(s: Store, keys: seq<Text>)
    requires KeysOk(s) && forall i, j :: 0 <= i < j < |keys| ==> keys[i] != keys[j]
    ensures forall i, j :: 0 <= i < j < |Listed(s, keys)| ==> Listed(s, keys)[i] != Listed(s, keys)[j]
  {
    if keys != [] {
      var rest := keys[..|keys| - 1];
      ListedOnce(s, rest);
      ListedEntries(s, rest);
    }
  }

  function ActiveSet(s: Store, keys: seq<Text>): set<Text> {
    set k | k in keys && ActiveAt(s, k)
  }

  lemma ActiveSetStep(s: Store, rest: seq<Text>, k: Text)
    requires k !in rest
    ensures |ActiveSet(s, rest + [k])| == |ActiveSet(s, rest)| + if ActiveAt(s, k) then 1 else 0
  {
    assert ActiveSet(s, rest + [k]) == ActiveSet(s, rest) + if ActiveAt(s, k) then {k} else {};
    assert k !in ActiveSet(s, rest);
  }

  lemma {:induction false} ListedCount(s: Store, keys: seq<Text>)
    requires forall i, j :: 0 <= i < j < |keys| ==> keys[i] != keys[j]
    ensures |Listed(s, keys)| == |ActiveSet(s, keys)|
  {
    if keys != [] {
      var rest := keys[..|keys| - 1];
      ListedCount(s, rest);
      assert keys == rest + [keys[|keys| - 1]];
      ActiveSetStep(s, rest, keys[|keys| - 1]);
    }
  }

  /**
   * The listing agrees with lookup: over all stored keys, each once, it names exactly the
   * guids an immediate lookup would find, each once, and their number is the count.
   */
  lemma ListingIsLookup(s: Store, keys: seq<Text>, g: Guid16)
    requires KeysOk(s) && (set k | k in keys) == s.peers.Keys
    requires forall i, j :: 0 <= i < j < |keys| ==> keys[i] != keys[j]
    ensures Some(g) in Listed(s, keys) <==> Answer(s, GuidStr(g)).Some?
    ensures forall i, j :: 0 <= i < j < |Listed(s, keys)| ==> Listed(s, keys)[i] != Listed(s, keys)[j]
    ensures |Listed(s, keys)| == |set k | k in s.peers && Answer(s, k).Some?|
  {
    ListedEntries(s, keys);
    ListedOnce(s, keys);
    ListedCount(s, keys);
    assert forall k :: k in keys <==> k in (set x | x in keys);
    var k := GuidStr(g);
    if ActiveAt(s, k) {
      var j :| 0 <= j < |keys| && keys[j] == k;
      GuidStrInjective(s.peers[k].guid, g);
    }
    assert ActiveSet(s, keys) == set x | x in s.peers && Answer(s, x).Some?;
  }
}
