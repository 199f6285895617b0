/**
 * src/net/discovery.c: packets that announce and ask for peers, the handler that stores
 * what they carry, and the polling loop.
 */
module Discovery {
  import opened Bytes
  import opened Peers
  import opened PeerCodec
  import opened PeerStores

  const PEER: seq<octet> := [0x50, 0x45, 0x45, 0x52]
  const LIST: seq<octet> := [0x4C, 0x49, 0x53, 0x54]

  function Ascii(s: string): seq<octet>
    requires forall i :: 0 <= i < |s| ==> s[i] < 128 as char
  {
    seq(|s|, i requires 0 <= i < |s| => s[i] as int)
  }

  lemma CommandsSpelled()
    ensures PEER == Ascii("PEER") && LIST == Ascii("LIST") && ListPacket() == Ascii("LIST") + [0]
    ensures Ascii("STOP") != PEER && Ascii("STOP") != LIST
  {
    assert Ascii("STOP")[0] == 0x53;
  }

  // ---------------------------------------------------------------- specification

  /** The service's view: its store, the time of its last update, the packets sent so far. */
  datatype Service = Service(store: Store, lastUpdated: int, sent: seq<seq<octet>>)

  function PeerPacket(p: Peer): seq<octet> {
    PEER + Pack(MsgOf(p))
  }

  /** "LIST" goes out with its NUL. */
  function ListPacket(): seq<octet> {
    LIST + [0]
  }

  /** send_peer_packet, which also moves both update times to now. */
  function Announced(v: Service, local: Peer, now: int): Service {
    Service(v.store.(lastUpdate := now), now, v.sent + [PeerPacket(local)])
  }

  /**
   * discovery_receive_handler on a packet of bytesread bytes in a buffer that has at least
   * four.  Nothing if the process is stopped by it: a peer that was not decoded would be
   * stored, or a PEER packet of less than four bytes decoded beyond its buffer.  A STOP
   * packet, like an unknown one, is ignored.
   */
  function Handled(v: Service, local: Peer, buffer: seq<octet>, bytesread: nat, now: int): Option<Service>
    requires |buffer| >= 4 && bytesread <= |buffer|
  {
    if buffer[..4] == LIST then Some(Announced(v, local, now))
    else if buffer[..4] == PEER then
      if bytesread < 4 then None
      else
        match NtoPeer(buffer[4..bytesread])
        case Whole(p) => Some(v.(store := Stored(v.store, p, now)))
        case _ => None
    else Some(v)
  }

  /** A packet that fills its buffer's first bytes: what lies behind them does not matter. */
  lemma OnlyPacketCounts(v: Service, local: Peer, packet: seq<octet>, stale: seq<octet>, now: int)
    requires |packet| >= 4
    ensures Handled(v, local, packet + stale, |packet|, now) == Handled(v, local, packet, |packet|, now)
  {
    assert (packet + stale)[..4] == packet[..4];
    assert (packet + stale)[4..|packet|] == packet[4..|packet|];
  }

  /** A short packet can still be taken for what an earlier one left in the buffer. */
  lemma ShortPackets(v: Service, local: Peer, buffer: seq<octet>, bytesread: nat, now: int)
    requires |buffer| >= 4 && bytesread < 4
    ensures Handled(v, local, buffer, bytesread, now).None? <==> buffer[..4] == PEER
    ensures Handled(v, local, buffer, bytesread, now) == Some(Announced(v, local, now)) <== buffer[..4] == LIST
  {
    assert LIST[0] != PEER[0];
  }

  /**
   * An announcement reaches the store: whatever was stored before, and whichever branch
   * is taken, the sender's entry has its guid and host, is last seen now, and has a name
   * that the announced one is a prefix of; nobody else's entry changes, except that the
   * peer the sender displaces goes.
   */
  lemma AnnouncementReachesStore(v: Service, local: Peer, p: Peer, now: int)
    requires Sendable(p) && p.name != [] && KeysOk(v.store)
    ensures |PeerPacket(p)| >= 4 && Handled(v, local, PeerPacket(p), |PeerPacket(p)|, now).Some?
    ensures
      var t := Handled(v, local, PeerPacket(p), |PeerPacket(p)|, now).value;
      var g := GuidStr(p.guid);
      && t.sent == v.sent && t.lastUpdated == v.lastUpdated && KeysOk(t.store)
      && g in t.store.peers && t.store.peers[g].guid == p.guid && t.store.peers[g].host == p.host
      && t.store.peers[g].lastSeen == now && p.name <= t.store.peers[g].name
      && t.store.peers[g].interval == (if g in v.store.peers then v.store.peers[g].interval else p.interval)
      && (forall h :: h != g ==> (h in t.store.peers <==>
            h in v.store.peers
            && !(p.name in v.store.names && v.store.names[p.name] == h && v.store.peers[h].host == p.host)))
      && (forall h :: h != g && h in t.store.peers ==> t.store.peers[h] == v.store.peers[h])
  {
    assert PeerPacket(p)[..4] == PEER && PeerPacket(p)[4..|PeerPacket(p)|] == Pack(MsgOf(p));
    RoundTripIff(p);
    StoreExact(v.store, p.(lastSeen := 0), now);
    StoredKeys(v.store, p.(lastSeen := 0), now);
  }

  /**
   * A poll is answered: the LIST packet makes service b announce itself, by its own clock,
   * and what it sends puts b's peer into the asking service's store, where a lookup finds
   * it at once.
   */
  lemma PollIsAnswered(a: Service, aLocal: Peer, b: Service, bLocal: Peer, sentAt: int, now: int)
    requires Sendable(bLocal) && bLocal.name != [] && KeysOk(a.store)
    requires a.store.active == PeriodicUpdate && a.store.lastUpdate <= now
    ensures |ListPacket()| == 5 && Handled(b, bLocal, ListPacket(), 5, sentAt) == Some(Announced(b, bLocal, sentAt))
    ensures
      var reply := Announced(b, bLocal, sentAt).sent[|b.sent|];
      && |reply| >= 4 && Handled(a, aLocal, reply, |reply|, now).Some?
      && var found := Answer(Handled(a, aLocal, reply, |reply|, now).value.store, GuidStr(bLocal.guid));
         found.Some? && found.value.guid == bLocal.guid && found.value.host == bLocal.host
  {
    assert ListPacket()[..4] == LIST;
    AnnouncementReachesStore(a, aLocal, bLocal, now);
  }

  /**
   * Answering a LIST packet at `now` sends the local peer, moves both update times to now,
   * and changes nothing else.
   */
  lemma AnswerMovesTimes(v: Service, local: Peer, now: int)
    ensures
      var out := Handled(v, local, ListPacket(), |ListPacket()|, now);
      && out.Some? && out.value.lastUpdated == now && out.value.store.lastUpdate == now
      && out.value.store.peers == v.store.peers && out.value.store.names == v.store.names
      && out.value.store.active == v.store.active && out.value.sent == v.sent + [PEER + Pack(MsgOf(local))]
  {
    assert ListPacket()[..4] == LIST;
  }

  /**
   * Polls make peers expire: once a LIST packet has been answered at `now`, a lookup finds a
   * peer if and only if it was last seen no earlier than now less twice its interval.
   */
  lemma AnswerExpires(v: Service, local: Peer, now: int, g: Text)
    requires v.store.active == PeriodicUpdate && g in v.store.peers && v.store.peers[g].interval < 0x8000_0000
    ensures Handled(v, local, ListPacket(), |ListPacket()|, now).Some?
    ensures
      var t := Handled(v, local, ListPacket(), |ListPacket()|, now).value;
      Answer(t.store, g).Some? <==> v.store.peers[g].lastSeen >= now - 2 * v.store.peers[g].interval
  {
    AnswerMovesTimes(v, local, now);
    LookupExact(Handled(v, local, ListPacket(), |ListPacket()|, now).value.store, g);
    NoWrap(v.store.peers[g]);
  }

  /** Every other packet, a STOP packet among them, is ignored. */
  lemma OthersIgnored(v: Service, local: Peer, buffer: seq<octet>, bytesread: nat, now: int)
    requires |buffer| >= 4 && bytesread <= |buffer|
    requires buffer[..4] != Ascii("LIST") && buffer[..4] != Ascii("PEER")
    ensures Handled(v, local, buffer, bytesread, now) == Some(v)
  {
    CommandsSpelled();
  }

  // ----------------------------------------------------------------------- polling

  /**
   * One turn of the polling loop as the clock sees it: when the receiving thread last
   * answered a LIST packet since the turn before, if it did, whether the service still
   * runs, the time read for the check, and the time read for the sleep.
   */
  datatype Reading = Reading(answered: Option<int>, running: bool, check: int, nap: int)

  /** The turns the loop makes before it finds the service stopped. */
  function Turns(clock: seq<Reading>): (n: nat)
    ensures n <= |clock|
    ensures n < |clock| ==> !clock[n].running
    ensures forall k :: 0 <= k < n ==> clock[k].running
  {
    if clock == [] || !clock[0].running then 0 else 1 + Turns(clock[1..])
  }

  /** The update time of turn k: the interval is added once more at each turn. */
  function UpdateAt(start: int, interval: int, k: nat): int {
    if k == 0 then start + interval else UpdateAt(start, interval, k - 1) + interval
  }

  /** Turn k sends when its update time has come. */
  predicate Due(start: int, interval: int, clock: seq<Reading>, k: nat)
    requires k < |clock|
  {
    UpdateAt(start, interval, k) <= clock[k].check
  }

  /** How many of the first n turns have sent a packet by time t. */
  function SentBy(start: int, interval: int, clock: seq<Reading>, n: nat, t: int): nat
    requires n <= |clock|
  {
    if n == 0 then 0
    else
      SentBy(start, interval, clock, n - 1, t)
        + if Due(start, interval, clock, n - 1) && clock[n - 1].check <= t then 1 else 0
  }

  lemma {:induction false} UpdateIs(start: int, interval: int, k: nat)
    ensures UpdateAt(start, interval, k) == start + (k + 1) * interval
  {
    if k > 0 {
      UpdateIs(start, interval, k - 1);
    }
  }

  /** Turn k sends exactly if it comes no earlier than k + 1 intervals after the start. */
  lemma DueIff(start: int, interval: int, clock: seq<Reading>, k: nat)
    requires k < |clock|
    ensures Due(start, interval, clock, k) <==> clock[k].check >= start + (k + 1) * interval
  {
    UpdateIs(start, interval, k);
  }

  /** The turns that have sent by time t. */
  function Senders(start: int, interval: int, clock: seq<Reading>, n: nat, t: int): set<int>
    requires n <= |clock|
  {
    set k | 0 <= k < n && start + (k + 1) * interval <= clock[k].check <= t
  }

  lemma SendersNext(start: int, interval: int, clock: seq<Reading>, n: nat, t: int)
    requires n < |clock|
    ensures |Senders(start, interval, clock, n + 1, t)|
         == |Senders(start, interval, clock, n, t)|
            + if start + (n + 1) * interval <= clock[n].check <= t then 1 else 0
  {
    var was, now := Senders(start, interval, clock, n, t), Senders(start, interval, clock, n + 1, t);
    if start + (n + 1) * interval <= clock[n].check <= t {
      assert now == was + {n};
    } else {
      assert now == was;
    }
  }

  /** Neither more nor fewer packets than turns that come late enough. */
  lemma {:induction false} SentExactly(start: int, interval: int, clock: seq<Reading>, n: nat, t: int)
    requires n <= |clock|
    ensures SentBy(start, interval, clock, n, t) == |Senders(start, interval, clock, n, t)|
  {
    if n > 0 {
      SentExactly(start, interval, clock, n - 1, t);
      DueIff(start, interval, clock, n - 1);
      SendersNext(start, interval, clock, n - 1, t);
    } else {
      assert Senders(start, interval, clock, 0, t) == {};
    }
  }

  lemma PositiveFactor(x: int, y: int)
    requires y > 0 && x * y > 0
    ensures x > 0
  {
  }

  lemma MultipleBelow(k: nat, interval: int, d: int)
    requires interval > 0 && k * interval <= d
    ensures k <= d / interval
  {
    var q := d / interval;
    assert q * interval + interval > d;
    assert (q - k + 1) * interval == q * interval - k * interval + interval;
    PositiveFactor(q - k + 1, interval);
  }

  /**
   * The rate bound: by any time t at most (t - start) / interval packets are sent, and
   * none before the start, however early sleeps end and whatever the clock shows.
   */
  lemma {:induction false} PollingRate(start: int, interval: int, clock: seq<Reading>, n: nat, t: int)
    requires interval > 0 && n <= |clock|
    ensures SentBy(start, interval, clock, n, t) <= n
    ensures SentBy(start, interval, clock, n, t) <= (if t < start then 0 else (t - start) / interval)
  {
    if n > 0 {
      PollingRate(start, interval, clock, n - 1, t);
      if Due(start, interval, clock, n - 1) && clock[n - 1].check <= t {
        UpdateIs(start, interval, n - 1);
        assert n * interval <= t - start;
        assert n * interval >= 0;
        MultipleBelow(n, interval, t - start);
      }
    }
  }

  /** The time of the service's last update as turn k finds it; an answer moves it. */
  function LastAt(start: int, clock: seq<Reading>, k: nat): int
    requires k < |clock|
  {
    match clock[k].answered
    case Some(t) => t
    case None => if k == 0 then start else LastAt(start, clock, k - 1)
  }

  /** It is the latest answer up to then, or the start if there was none. */
  lemma {:induction false} LastAtIs(start: int, clock: seq<Reading>, j: nat, k: nat)
    requires j <= k < |clock| && forall i :: j < i <= k ==> clock[i].answered.None?
    ensures clock[j].answered.Some? ==> LastAt(start, clock, k) == clock[j].answered.value
    ensures j == 0 && clock[0].answered.None? ==> LastAt(start, clock, k) == start
  {
    if j < k {
      LastAtIs(start, clock, j, k - 1);
    }
  }

  /** Turn k's own update time is one interval after the service's last update. */
  predicate InStep(start: int, interval: int, clock: seq<Reading>, k: nat)
    requires k < |clock|
  {
    UpdateAt(start, interval, k) == LastAt(start, clock, k) + interval
  }

  /** Services synchronise on an update only if it comes when the loop would have had it anyway. */
  lemma InStepIff(start: int, interval: int, clock: seq<Reading>, k: nat)
    requires k < |clock|
    ensures InStep(start, interval, clock, k) <==> LastAt(start, clock, k) == start + k * interval
  {
    UpdateIs(start, interval, k);
    assert (k + 1) * interval == k * interval + interval;
  }

  /** A loop in step stays so exactly if a packet is answered at its own update time. */
  lemma StaysInStepIff(start: int, interval: int, clock: seq<Reading>, k: nat)
    requires k + 1 < |clock| && interval != 0 && InStep(start, interval, clock, k)
    ensures InStep(start, interval, clock, k + 1) <==>
            clock[k + 1].answered == Some(UpdateAt(start, interval, k))
  {
  }

  /**
   * A loop that is not in step: a packet of another service is answered at time 19, and the
   * loop sends its own one second later, as if nothing had been.
   */
  lemma PollsTooSoon()
    ensures
      var clock := [Reading(None, true, 0, 0), Reading(Some(19), true, 20, 20)];
      && UpdateAt(0, 10, 1) == 20 && LastAt(0, clock, 1) == 19 && !InStep(0, 10, clock, 1)
      && Due(0, 10, clock, 1) && clock[1].check - LastAt(0, clock, 1) == 1 && SentBy(0, 10, clock, 2, 20) == 1
  {
    var clock := [Reading(None, true, 0, 0), Reading(Some(19), true, 20, 20)];
    assert UpdateAt(0, 10, 0) == 10;
    assert SentBy(0, 10, clock, 1, 20) == 0;
  }

  /** The argument of sleep is unsigned: a loop that is late sleeps for most of 2^32 seconds. */
  function Nap(next: int, now: int): nat {
    (next - now) % 0x1_0000_0000
  }

  // -------------------------------------------------------------------------- code

  class DiscoveryService {
    const peers: PeerStore
    var lastUpdated: int
    var isRunning: bool
    var sent: seq<seq<octet>>

    ghost function View(): Service
      reads this, peers
    {
      Service(peers.View(), lastUpdated, sent)
    }

    ghost predicate Valid()
      reads this, peers
    {
      peers.Valid() && Sendable(peers.localPeer)
    }

    constructor (peers: PeerStore, now: int)
      requires peers.Valid() && Sendable(peers.localPeer)
      ensures Valid() && this.peers == peers && View() == Service(peers.View(), now, []) && !isRunning
    {
      this.peers, lastUpdated, isRunning, sent := peers, now, false, [];
    }

    method SafelyUpdateLastUpdateTime(now: int)
      requires Valid()
      modifies this`lastUpdated, peers`lastUpdate
      ensures Valid() && View() == old(View()).(lastUpdated := now, store := old(View()).store.(lastUpdate := now))
    {
      lastUpdated := now;
      peers.SetLastUpdateTime(now);
    }

    method SendPeerPacket(now: int)
      requires Valid()
      modifies this`lastUpdated, this`sent, peers`lastUpdate
      ensures Valid() && View() == Announced(old(View()), peers.localPeer, now)
    {
      var buffer := Peerton(peers.localPeer);
      sent := sent + [PEER + buffer[..]];
      SafelyUpdateLastUpdateTime(now);
    }

    method SendDiscoveryRequest()
      modifies this`sent
      ensures sent == old(sent) + [ListPacket()]
    {
      sent := sent + [LIST + [0]];
    }

    /** False where a peer that could not be decoded would be used. */
    method HandlePeer(payload: seq<octet>, now: int) returns (okay: bool)
      requires Valid()
      modifies peers
      ensures okay <==> NtoPeer(payload).Whole?
      ensures Valid()
      ensures View() == if NtoPeer(payload).Whole?
                        then old(View()).(store := Stored(old(View()).store, NtoPeer(payload).peer, now))
                        else old(View())
    {
      match NtoPeer(payload) {
        case Whole(p) =>
          peers.StorePeer(p, now);
          okay := true;
        case _ =>
          okay := false;
      }
    }

    method ReceiveHandler(buffer: seq<octet>, bytesread: nat, now: int) returns (okay: bool)
      requires Valid() && |buffer| >= 4 && bytesread <= |buffer|
      modifies this, peers
      ensures Valid() && okay == Handled(old(View()), peers.localPeer, buffer, bytesread, now).Some?
      ensures okay ==> View() == Handled(old(View()), peers.localPeer, buffer, bytesread, now).value
    {
      okay := true;
      var command := buffer[..4];
      if command == LIST {
        SendPeerPacket(now);
      } else if command == PEER {
        if bytesread < 4 {
          return false;
        }
        okay := HandlePeer(buffer[4..bytesread], now);
      }
    }

    /**
     * polling_update_loop over the readings of its clock: the packets it sends, counted
     * up to any time, and how long it asks to sleep at each turn.
     */
    method PollingUpdateLoop(interval: int, clock: seq<Reading>) returns (sentAt: seq<int>, naps: seq<nat>)
      requires Valid()
      modifies this`sent, this`lastUpdated, peers`lastUpdate
      ensures Valid() && |naps| == Turns(clock)
      ensures lastUpdated == if Turns(clock) == 0 then old(lastUpdated)
                             else LastAt(old(lastUpdated), clock, Turns(clock) - 1)
      ensures forall k :: 0 <= k < |naps| ==> naps[k] == Nap(UpdateAt(old(lastUpdated), interval, k + 1), clock[k].nap)
      ensures |sent| == |old(sent)| + |sentAt| && old(sent) <= sent
      ensures forall k :: |old(sent)| <= k < |sent| ==> sent[k] == ListPacket()
      ensures forall t :: CountBy(sentAt, t) == SentBy(old(lastUpdated), interval, clock, Turns(clock), t)
    {
      ghost var start := lastUpdated;
      var nextUpdate := lastUpdated + interval;
      sentAt, naps := [], [];
      var k := 0;
      while k < |clock| && clock[k].running
        invariant Valid() && k <= Turns(clock) && nextUpdate == UpdateAt(start, interval, k)
        invariant lastUpdated == if k == 0 then start else LastAt(start, clock, k - 1)
        invariant |naps| == k
        invariant forall j :: 0 <= j < k ==> naps[j] == Nap(UpdateAt(start, interval, j + 1), clock[j].nap)
        invariant |sent| == |old(sent)| + |sentAt| && old(sent) <= sent
        invariant forall j :: |old(sent)| <= j < |sent| ==> sent[j] == ListPacket()
        invariant forall t :: CountBy(sentAt, t) == SentBy(start, interval, clock, k, t)
      {
        // the receiving thread, in the meantime
        match clock[k].answered {
          case Some(t) => SafelyUpdateLastUpdateTime(t);
          case None =>
        }
        if nextUpdate <= clock[k].check {
          SendDiscoveryRequest();
          CountPushed(sentAt, clock[k].check);
          sentAt := sentAt + [clock[k].check];
        }
        nextUpdate := nextUpdate + interval;
        naps := naps + [Nap(nextUpdate, clock[k].nap)];
        k := k + 1;
      }
    }
  }

  function CountBy(times: seq<int>, t: int): nat {
    if times == [] then 0
    else CountBy(times[..|times| - 1], t) + if times[|times| - 1] <= t then 1 else 0
  }

  lemma CountPushed(times: seq<int>, x: int)
    ensures forall t :: CountBy(times + [x], t) == CountBy(times, t) + if x <= t then 1 else 0
  {
    assert (times + [x])[..|times|] == times;
  }

  /** A late turn asks for a sleep of at least 2^31 seconds; a turn in time, for what is left. */
  lemma NapExact(next: int, now: int)
    requires -0x8000_0000 <= next - now < 0x8000_0000
    ensures Nap(next, now) == next - now <==> now <= next
    ensures now > next <==> Nap(next, now) >= 0x8000_0000
  {
  }
}
