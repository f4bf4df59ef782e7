/** Properties of the session manager: the invariant every step keeps, what
    a connection sees, how updates spread, and the teardown race. */
module SessionProofs {
  import opened Wrappers
  import Crdt
  import Protocol
  import Persistence
  import Gate
  import Metrics
  import Codec
  import Hook
  import opened Session

  lemma {:induction false} StartInv(store: Persistence.Store)
    ensures Inv(Start(store))
  {
  }

  /** The same sockets, each for the same document and equally open. */
  predicate SocketsAgree(a: map<ConnId, Socket>, b: map<ConnId, Socket>) {
    && a.Keys == b.Keys
    && forall c :: c in b ==> b[c].docName == a[c].docName && b[c].open == a[c].open
  }

  /** `b` keeps every socket of `a` and a subset of its replicas, each with
      the same connections; the replicas that are gone had none. */
  predicate Shrinks(a: Server, b: Server) {
    && SocketsAgree(a.sockets, b.sockets) && a.outbox.Keys == b.outbox.Keys
    && a.metrics.activeConnections == b.metrics.activeConnections
    && b.docs.Keys <= a.docs.Keys
    && (forall n :: n in b.docs ==>
          b.docs[n].conns == a.docs[n].conns && b.docs[n].hasRedisListener == a.docs[n].hasRedisListener)
    && (forall n :: n in a.docs && n !in b.docs ==> a.docs[n].conns.Keys == {})
  }

  /** Two servers that agree on everything the invariant looks at. */
  predicate SameShape(a: Server, b: Server) {
    Shrinks(a, b) && a.docs.Keys == b.docs.Keys && a.sockets == b.sockets
  }

  lemma {:induction false} ShrinkRegistered(a: Server, b: Server)
    requires Registered(a) && Shrinks(a, b)
    ensures Registered(b)
  {
    forall n, d | n in b.docs && d in b.docs[n].conns
      ensures d in b.sockets && b.sockets[d].docName == n
    {
      assert d in a.docs[n].conns && d in a.sockets;
    }
  }

  lemma {:induction false} ShrinkReachable(a: Server, b: Server)
    requires Reachable(a) && Shrinks(a, b)
    ensures Reachable(b)
  {
    forall d | d in b.sockets && b.sockets[d].open
      ensures b.sockets[d].docName in b.docs && d in b.docs[b.sockets[d].docName].conns
    {
      assert IsOpen(a, d);
    }
  }

  lemma {:induction false} ShrinkNoControlledIds(a: Server, b: Server)
    requires NoControlledIds(a) && Shrinks(a, b)
    ensures NoControlledIds(b)
  {
    forall n, d | n in b.docs && d in b.docs[n].conns
      ensures b.docs[n].conns[d] == {}
    {
      assert d in a.docs[n].conns;
    }
  }

  lemma {:induction false} ShrinkInv(a: Server, b: Server)
    requires Inv(a) && Shrinks(a, b) && Attached(b)
    ensures Inv(b)
  {
    ShrinkRegistered(a, b);
    ShrinkReachable(a, b);
    ShrinkNoControlledIds(a, b);
  }

  /** The same sockets over the same document names keep `Attached`. */
  lemma {:induction false} SameAttached(a: Server, b: Server)
    requires Attached(a) && a.sockets == b.sockets && a.docs.Keys == b.docs.Keys
    ensures Attached(b)
  {
    forall c | c in b.sockets
      ensures b.sockets[c].replicaLive ==> b.sockets[c].docName in b.docs
    {
      assert c in a.sockets;
    }
  }

  lemma {:induction false} ShapeInv(a: Server, b: Server)
    requires Inv(a) && SameShape(a, b)
    ensures Inv(b)
  {
    SameAttached(a, b);
    ShrinkInv(a, b);
  }

  /** Replacing one replica by one with the same connections and listener,
      and touching only the store and the bus besides, keeps the invariant. */
  lemma {:induction false} ReplicaInv(a: Server, name: string, rep: Replica, b: Server)
    requires Inv(a) && name in a.docs
    requires rep.conns == a.docs[name].conns && rep.hasRedisListener == a.docs[name].hasRedisListener
    requires b == a.(docs := a.docs[name := rep], store := b.store, published := b.published)
    ensures Inv(b)
  {
    assert SameShape(a, b);
    ShapeInv(a, b);
  }

  lemma {:induction false} CloseConnRegistered(s: Server, name: string, c: ConnId)
    requires Registered(s)
    ensures Registered(CloseConn(s, name, c))
  {
    var r := CloseConn(s, name, c);
    forall n, d | n in r.docs && d in r.docs[n].conns
      ensures d in r.sockets && r.sockets[d].docName == n
    {
      assert d in s.docs[n].conns;
    }
  }

  lemma {:induction false} CloseConnReachable(s: Server, name: string, c: ConnId)
    requires Reachable(s)
    ensures Reachable(CloseConn(s, name, c))
  {
    var r := CloseConn(s, name, c);
    forall d | d in r.sockets && r.sockets[d].open
      ensures r.sockets[d].docName in r.docs && d in r.docs[r.sockets[d].docName].conns
    {
      assert d != c && IsOpen(s, d);
    }
  }

  lemma {:induction false} CloseConnNoControlledIds(s: Server, name: string, c: ConnId)
    requires NoControlledIds(s)
    ensures NoControlledIds(CloseConn(s, name, c))
  {
    var r := CloseConn(s, name, c);
    forall n, d | n in r.docs && d in r.docs[n].conns
      ensures r.docs[n].conns[d] == {}
    {
      assert d in s.docs[n].conns;
    }
  }

  /** Leaving OPEN, with the same document names, keeps `Attached`. */
  lemma {:induction false} ClosingAttached(s: Server, r: Server, c: ConnId)
    requires Attached(s) && r.sockets == CloseSocket(s.sockets, c) && r.docs.Keys == s.docs.Keys
    ensures Attached(r)
  {
    forall d | d in r.sockets
      ensures r.sockets[d].replicaLive ==> r.sockets[d].docName in r.docs
    {
      assert d in s.sockets;
    }
  }

  lemma {:induction false} CloseConnInv(s: Server, name: string, c: ConnId)
    requires Inv(s)
    ensures Inv(CloseConn(s, name, c))
  {
    ClosingAttached(s, CloseConn(s, name, c), c);
    CloseConnRegistered(s, name, c);
    CloseConnReachable(s, name, c);
    CloseConnNoControlledIds(s, name, c);
    assert CloseConn(s, name, c).sockets.Keys == s.sockets.Keys;
  }

  lemma {:induction false} SendInv(s: Server, name: string, c: ConnId, m: Protocol.Message)
    requires Inv(s)
    ensures Inv(Send(s, name, c, m))
  {
    if !IsOpen(s, c) {
      CloseConnInv(s, name, c);
    }
  }

  lemma {:induction false} BroadcastRegistered(s: Server, name: string, m: Protocol.Message)
    requires Registered(s) && name in s.docs
    ensures Registered(Broadcast(s, name, m))
  {
    var r := Broadcast(s, name, m);
    forall n, c | n in r.docs && c in r.docs[n].conns
      ensures c in r.sockets && r.sockets[c].docName == n
    {
      if n == name {
        assert c in Targets(s, name);
      }
      assert c in s.docs[n].conns;
    }
  }

  lemma {:induction false} BroadcastReachable(s: Server, name: string, m: Protocol.Message)
    requires Reachable(s) && name in s.docs
    ensures Reachable(Broadcast(s, name, m))
  {
    var r := Broadcast(s, name, m);
    forall c | c in r.sockets && r.sockets[c].open
      ensures r.sockets[c].docName in r.docs && c in r.docs[r.sockets[c].docName].conns
    {
      assert IsOpen(s, c);
      if s.sockets[c].docName == name {
        assert c in Targets(s, name);
      }
    }
  }

  lemma {:induction false} BroadcastNoControlledIds(s: Server, name: string, m: Protocol.Message)
    requires NoControlledIds(s) && name in s.docs
    ensures NoControlledIds(Broadcast(s, name, m))
  {
    var r := Broadcast(s, name, m);
    forall n, c | n in r.docs && c in r.docs[n].conns
      ensures r.docs[n].conns[c] == {}
    {
      if n == name {
        assert c in Targets(s, name);
      }
      assert c in s.docs[n].conns;
    }
  }

  lemma {:induction false} BroadcastInv(s: Server, name: string, m: Protocol.Message)
    requires Inv(s) && name in s.docs
    ensures Inv(Broadcast(s, name, m))
  {
    var r := Broadcast(s, name, m);
    BroadcastRegistered(s, name, m);
    BroadcastReachable(s, name, m);
    BroadcastNoControlledIds(s, name, m);
    SameAttached(s, r);
    assert r.outbox.Keys >= s.outbox.Keys;
  }

  lemma {:induction false} OnUpdateEventInv(s: Server, name: string, event: Crdt.State, origin: Origin, io: Persistence.Io)
    requires Inv(s) && name in s.docs
    ensures Inv(OnUpdateEvent(s, name, event, origin, io))
  {
    var sent := Broadcast(s, name, Protocol.Sync(Protocol.Update(event)));
    BroadcastInv(s, name, Protocol.Sync(Protocol.Update(event)));
    RecordInv(sent, name, event, origin != FromRedis && s.docs[name].hasRedisListener, io);
  }

  lemma {:induction false} RecordInv(s: Server, name: string, event: Crdt.State, publish: bool, io: Persistence.Io)
    requires Inv(s) && name in s.docs
    ensures Inv(Record(s, name, event, publish, io))
  {
    var p := s.docs[name];
    var rec := Persistence.OnUpdate(name, p.tracker, s.store, event, p.state, io);
    var persisted := s.(docs := s.docs[name := p.(tracker := rec.tracker)], store := rec.store);
    ReplicaInv(s, name, p.(tracker := rec.tracker), persisted);
    ReplicaInv(persisted, name, persisted.docs[name],
               persisted.(published := persisted.published + [Publication(name, event)]));
  }

  lemma {:induction false} ApplyDeltaInv(s: Server, name: string, delta: Crdt.State, origin: Origin, io: Persistence.Io)
    requires Inv(s) && name in s.docs
    ensures Inv(ApplyDelta(s, name, delta, origin, io))
  {
    if !(delta <= s.docs[name].state) {
      var merged := s.(docs := s.docs[name := s.docs[name].(state := s.docs[name].state + delta)]);
      ReplicaInv(s, name, merged.docs[name], merged);
      OnUpdateEventInv(merged, name, delta - s.docs[name].state, origin, io);
    }
  }

  lemma {:induction false} ApplyDeltasInv(s: Server, name: string, deltas: seq<Crdt.State>, io: Persistence.Io)
    requires Inv(s) && name in s.docs
    ensures Inv(ApplyDeltas(s, name, deltas, io))
    decreases |deltas|
  {
    if |deltas| > 0 {
      ApplyDeltaInv(s, name, deltas[0], FromLoad, io);
      ApplyDeltasInv(ApplyDelta(s, name, deltas[0], FromLoad, io), name, deltas[1..], io);
    }
  }

  lemma {:induction false} ReceiveInv(s: Server, c: ConnId, m: Protocol.Message, io: Persistence.Io)
    requires Inv(s)
    ensures Inv(Receive(s, c, m, io))
  {
    var counted := s.(metrics := Metrics.IncrementWsMessages(s.metrics));
    ShapeInv(s, counted);
    if Delivers(s, c) {
      var name := s.sockets[c].docName;
      match m
      case Sync(sm) => ReceiveSyncInv(counted, name, c, sm, io);
      case Awareness(u) => ApplyAwarenessInv(counted, name, u);
      case Unknown(_) =>
    }
  }

  lemma {:induction false} ReceiveSyncInv(s: Server, name: string, c: ConnId, sm: Protocol.SyncMessage, io: Persistence.Io)
    requires Inv(s) && name in s.docs
    ensures Inv(ReceiveSync(s, name, c, sm, io))
  {
    var merged := if sm.Step1? then s else ApplyDelta(s, name, sm.update, FromClient, io);
    if !sm.Step1? {
      ApplyDeltaInv(s, name, sm.update, FromClient, io);
    }
    var reply := Protocol.SyncReply(s.docs[name].state, sm);
    if Protocol.ReplyEncoderLength(reply) > 1 {
      SendInv(merged, name, c, Protocol.Sync(reply.value));
    }
  }

  lemma {:induction false} ApplyAwarenessInv(s: Server, name: string, u: Protocol.AwarenessUpdate)
    requires Inv(s) && name in s.docs
    ensures Inv(ApplyAwareness(s, name, u))
  {
    var was := s.docs[name];
    var table := MergeAwareness(was.awareness, u);
    var updated := s.(docs := s.docs[name := was.(awareness := table)]);
    ReplicaInv(s, name, was.(awareness := table), updated);
    if Changed(was.awareness, u) != {} {
      BroadcastInv(updated, name, Protocol.Awareness(Snapshot(table, Changed(was.awareness, u))));
    }
  }

  /** `Connect` with the fan-out flag already set and the greeting not yet
      queued: the sends only append to the new connection's queue. */
  function Joined(s: Server, c: ConnId, name: string): Server
    requires c !in s.sockets && c !in s.outbox
  {
    var j := Register(s, c, name);
    j.(docs := j.docs[name := j.docs[name].(hasRedisListener := true)])
  }

  lemma {:induction false} JoinedFacts(s: Server, c: ConnId, name: string)
    requires c !in s.sockets && c !in s.outbox
    ensures var j := Joined(s, c, name);
      && j.docs.Keys == s.docs.Keys + {name}
      && j.docs[name].conns == (if name in s.docs then s.docs[name].conns else map[])[c := {}]
      && j.docs[name].hasRedisListener
      && (forall n :: n in s.docs && n != name ==> j.docs[n] == s.docs[n])
      && j.sockets == s.sockets[c := Socket(name, true, true)]
      && j.sockets.Keys == s.sockets.Keys + {c}
      && j.outbox.Keys == s.outbox.Keys + {c}
      && j.metrics.activeConnections == s.metrics.activeConnections + 1
  {
  }

  lemma {:induction false} JoinedInv(s: Server, c: ConnId, name: string)
    requires Inv(s) && c !in s.sockets && c !in s.outbox
    ensures Inv(Joined(s, c, name))
  {
    var j := Joined(s, c, name);
    JoinedFacts(s, c, name);
    JoinedRegistered(s, c, name, j);
    JoinedReachable(s, c, name, j);
    JoinedNoControlledIds(s, c, name, j);
    JoinedCounted(s, c, name);
    JoinedAttached(s, c, name, j);
  }

  lemma {:induction false} JoinedAttached(s: Server, c: ConnId, name: string, j: Server)
    requires Attached(s) && c !in s.sockets && c !in s.outbox && j == Joined(s, c, name)
    ensures Attached(j)
  {
    JoinedFacts(s, c, name);
    forall d | d in j.sockets
      ensures j.sockets[d].replicaLive ==> j.sockets[d].docName in j.docs
    {
      if d != c {
        assert d in s.sockets;
      }
    }
  }

  /** The gauge and the queues follow the new socket. */
  lemma {:induction false} JoinedCounted(s: Server, c: ConnId, name: string)
    requires c !in s.sockets && c !in s.outbox
    requires s.metrics.activeConnections == |s.sockets.Keys| && s.sockets.Keys <= s.outbox.Keys
    ensures var j := Joined(s, c, name);
      j.metrics.activeConnections == |j.sockets.Keys| && j.sockets.Keys <= j.outbox.Keys
  {
    JoinedFacts(s, c, name);
    OneMore(s.sockets.Keys, c);
  }

  lemma {:induction false} OneMore(keys: set<ConnId>, c: ConnId)
    requires c !in keys
    ensures |keys + {c}| == |keys| + 1
  {
  }

  lemma {:induction false} JoinedRegistered(s: Server, c: ConnId, name: string, j: Server)
    requires Registered(s) && c !in s.sockets && c !in s.outbox && j == Joined(s, c, name)
    ensures Registered(j)
  {
    JoinedFacts(s, c, name);
    forall n, d | n in j.docs && d in j.docs[n].conns
      ensures d in j.sockets && j.sockets[d].docName == n
    {
      if d != c {
        assert d in s.docs[n].conns;
      }
    }
  }

  lemma {:induction false} JoinedReachable(s: Server, c: ConnId, name: string, j: Server)
    requires Reachable(s) && c !in s.sockets && c !in s.outbox && j == Joined(s, c, name)
    ensures Reachable(j)
  {
    JoinedFacts(s, c, name);
    forall d | d in j.sockets && j.sockets[d].open
      ensures j.sockets[d].docName in j.docs && d in j.docs[j.sockets[d].docName].conns
    {
      if d != c {
        assert IsOpen(s, d);
      }
    }
  }

  lemma {:induction false} JoinedNoControlledIds(s: Server, c: ConnId, name: string, j: Server)
    requires NoControlledIds(s) && c !in s.sockets && c !in s.outbox && j == Joined(s, c, name)
    ensures NoControlledIds(j)
  {
    JoinedFacts(s, c, name);
    forall n, d | n in j.docs && d in j.docs[n].conns
      ensures j.docs[n].conns[d] == {}
    {
      if d != c {
        assert d in s.docs[n].conns;
      }
    }
  }

  /** The greeting only queues messages on the new, open socket. */
  lemma {:induction false} ConnectShape(s: Server, c: ConnId, name: string)
    requires c !in s.sockets && c !in s.outbox
    ensures var j := Register(s, c, name);
      var g := Greet(j, name, c);
      && name in j.docs
      && g.docs == j.docs && g.sockets == j.sockets && g.metrics == j.metrics
      && g.outbox.Keys == j.outbox.Keys
  {
    var j := Register(s, c, name);
    assert IsOpen(j, c) && name in j.docs;
  }

  /** Attaching the fan-out listener after queueing gives a server shaped
      like attaching it before. */
  lemma {:induction false} ListenShape(j: Server, g: Server, name: string)
    requires name in j.docs && g.docs == j.docs && g.sockets == j.sockets
    requires g.metrics == j.metrics && g.outbox.Keys == j.outbox.Keys
    ensures SameShape(j.(docs := j.docs[name := j.docs[name].(hasRedisListener := true)]),
                      g.(docs := g.docs[name := g.docs[name].(hasRedisListener := true)]))
  {
  }

  lemma {:induction false} ConnectInv(s: Server, c: ConnId, name: string)
    requires Inv(s) && c !in s.sockets && c !in s.outbox
    ensures Inv(Connect(s, c, name))
  {
    JoinedInv(s, c, name);
    ConnectShape(s, c, name);
    ListenShape(Register(s, c, name), Greet(Register(s, c, name), name, c), name);
    ShapeInv(Joined(s, c, name), Connect(s, c, name));
  }

  lemma {:induction false} ClosedInv(s: Server, c: ConnId)
    requires Inv(s)
    ensures Inv(Closed(s, c))
  {
    if c in s.sockets {
      var name := s.sockets[c].docName;
      CloseConnInv(s, name, c);
      var closed := CloseConn(s, name, c);
      var r := Closed(s, c);
      assert r.sockets.Keys == s.sockets.Keys - {c};
      assert |r.sockets.Keys| == |s.sockets.Keys| - 1;
      assert forall n :: n in closed.docs ==> c !in closed.docs[n].conns;
      ClosingAttached(s, closed, c);
      forall d | d in r.sockets
        ensures r.sockets[d].replicaLive ==> r.sockets[d].docName in r.docs
      {
        assert d in closed.sockets;
      }
    }
  }

  lemma {:induction false} LoadCompletedInv(s: Server, name: string, readOk: bool, io: Persistence.Io)
    requires Inv(s)
    ensures Inv(LoadCompleted(s, name, readOk, io))
  {
    if name in s.docs && s.docs[name].tracker.loading {
      var row := if readOk && name in s.store then Some(s.store[name]) else None;
      ApplyDeltasInv(s, name, Persistence.LoadDeltas(row), io);
      var loaded := ApplyDeltas(s, name, Persistence.LoadDeltas(row), io);
      var rep := loaded.docs[name].(tracker := loaded.docs[name].tracker.(loading := false));
      ReplicaInv(loaded, name, rep, LoadCompleted(s, name, readOk, io));
    }
  }

  lemma {:induction false} TeardownFinishInv(s: Server, name: string, writeOk: bool)
    requires Inv(s)
    ensures Inv(TeardownFinish(s, name, writeOk))
  {
    var r := TeardownFinish(s, name, writeOk);
    if name in s.docs && name !in r.docs {
      OrphanAttached(s, name, r);
    } else {
      SameAttached(s, r);
    }
    ShrinkInv(s, r);
  }

  /** Destroying a replica nobody is registered with leaves no open socket
      on it, and every socket that was opened for it has lost it. */
  lemma {:induction false} OrphanAttached(s: Server, name: string, r: Server)
    requires Reachable(s) && Attached(s) && name in s.docs && s.docs[name].conns.Keys == {}
    requires r.sockets == Orphan(s.sockets, name) && r.docs.Keys == s.docs.Keys - {name}
    ensures Attached(r)
  {
    forall c | c in r.sockets
      ensures r.sockets[c].open ==> r.sockets[c].replicaLive
      ensures r.sockets[c].replicaLive ==> r.sockets[c].docName in r.docs
    {
      assert c in s.sockets;
    }
  }

  lemma {:induction false} UpgradeInv(s: Server, c: ConnId, url: string, parses: bool, ok: bool)
    requires Inv(s)
    ensures Inv(Upgrade(s, c, url, parses, ok))
  {
    if c !in s.sockets && c !in s.outbox && Gate.Upgrade(url, parses, ok).Admit? {
      ConnectInv(s, c, Gate.Upgrade(url, parses, ok).docName);
    }
  }

  lemma {:induction false} PeerGoneInv(s: Server, c: ConnId)
    requires Inv(s)
    ensures Inv(PeerGone(s, c))
  {
    var r := PeerGone(s, c);
    ClosingAttached(s, r, c);
    forall d | d in r.sockets && r.sockets[d].open
      ensures r.sockets[d].docName in r.docs && d in r.docs[r.sockets[d].docName].conns
    {
      assert IsOpen(s, d);
    }
  }

  lemma {:induction false} SendFailedInv(s: Server, c: ConnId)
    requires Inv(s)
    ensures Inv(SendFailed(s, c))
  {
    if c in s.sockets {
      CloseConnInv(s, s.sockets[c].docName, c);
    }
  }

  lemma {:induction false} TeardownCheckInv(s: Server, name: string)
    requires Inv(s)
    ensures Inv(TeardownCheck(s, name))
  {
    ShapeInv(s, TeardownCheck(s, name));
  }

  lemma {:induction false} BusMessageInv(s: Server, channel: string, p: Publication, io: Persistence.Io)
    requires Inv(s)
    ensures Inv(BusMessage(s, channel, p, io))
  {
    if channel == Channel && p.docName in s.docs {
      ApplyDeltaInv(s, p.docName, p.update, FromRedis, io);
    }
  }

  /** Every step keeps the invariant. */
  lemma {:induction false} StepInv(s: Server, e: Event)
    requires Inv(s)
    ensures Inv(Step(s, e))
  {
    match e
    case UpgradeRequest(c, url, parses, ok) => UpgradeInv(s, c, url, parses, ok);
    case Inbound(c, m, io) => ReceiveInv(s, c, m, io);
    case PeerLeft(c) => PeerGoneInv(s, c);
    case SendError(c) => SendFailedInv(s, c);
    case SocketClosed(c) => ClosedInv(s, c);
    case LoadDone(name, ok, io) => LoadCompletedInv(s, name, ok, io);
    case TeardownResumed(name) => TeardownCheckInv(s, name);
    case WriteDone(name, ok) => TeardownFinishInv(s, name, ok);
    case Bus(channel, p, io) => BusMessageInv(s, channel, p, io);
  }

  /** Every state the server reaches from a start keeps the invariant. */
  lemma {:induction false} RunInv(s: Server, events: seq<Event>)
    requires Inv(s)
    ensures Inv(Run(s, events))
    decreases |events|
  {
    if |events| > 0 {
      StepInv(s, events[0]);
      RunInv(Step(s, events[0]), events[1..]);
    }
  }

  /** An admitted upgrade registers the connection with no controlled ids on
      the replica named by the URL, opens its socket, counts it, attaches the
      fan-out listener, and queues exactly the greeting: the awareness
      entries when there are any, then a Step1 with the replica's state. An
      upgrade that throws or is rejected changes nothing. */
  lemma {:induction false} UpgradeGreets(s: Server, c: ConnId, url: string, urlParses: bool, tokenVerifies: bool)
    requires c !in s.sockets && c !in s.outbox
    ensures !Gate.Upgrade(url, urlParses, tokenVerifies).Admit? ==> Upgrade(s, c, url, urlParses, tokenVerifies) == s
    ensures Gate.Upgrade(url, urlParses, tokenVerifies).Admit? ==>
      var name := Gate.DocName(url);
      var r := Upgrade(s, c, url, urlParses, tokenVerifies);
      && IsOpen(r, c) && r.sockets[c].docName == name
      && name in r.docs && c in r.docs[name].conns && r.docs[name].conns[c] == {}
      && r.docs[name].hasRedisListener
      && r.outbox[c] == Greeting(GetYDoc(s.docs, name)[name])
      && r.metrics.activeConnections == s.metrics.activeConnections + 1
  {
    if Gate.Upgrade(url, urlParses, tokenVerifies).Admit? {
      var name := Gate.DocName(url);
      assert Upgrade(s, c, url, urlParses, tokenVerifies) == Connect(s, c, name);
      ConnectGreets(s, c, name);
    }
  }

  /** The connection handler on a fresh connection: registered, opened,
      counted, listened to, and greeted. */
  lemma {:induction false} ConnectGreets(s: Server, c: ConnId, name: string)
    requires c !in s.sockets && c !in s.outbox
    ensures var r := Connect(s, c, name);
      && IsOpen(r, c) && r.sockets[c].docName == name
      && name in r.docs && c in r.docs[name].conns && r.docs[name].conns[c] == {}
      && r.docs[name].hasRedisListener
      && r.outbox[c] == Greeting(GetYDoc(s.docs, name)[name])
      && r.metrics.activeConnections == s.metrics.activeConnections + 1
  {
    var j := Register(s, c, name);
    assert Greeting(j.docs[name]) == Greeting(GetYDoc(s.docs, name)[name]);
    var greeted := Greet(j, name, c);
    assert greeted.outbox[c] == Greeting(GetYDoc(s.docs, name)[name]);
  }

  /** A new connection changes nothing but its socket, its queue and the
      replica it joins: every other replica and every other queue stays. */
  lemma {:induction false} ConnectFrame(s: Server, c: ConnId, name: string)
    requires c !in s.sockets && c !in s.outbox
    ensures var r := Connect(s, c, name);
      && r.docs.Keys == s.docs.Keys + {name}
      && (forall n :: n in s.docs && n != name ==> r.docs[n] == s.docs[n])
      && r.outbox.Keys == s.outbox.Keys + {c}
      && (forall d :: d in s.outbox ==> r.outbox[d] == s.outbox[d])
  {
    var j := Register(s, c, name);
    var g := Greet(j, name, c);
    GreetFrame(j, name, c);
    FramesCompose(s, j, g, Connect(s, c, name), c, name);
  }

  /** Three steps that each keep every replica but `name` and every queue but
      `c` keep them all. */
  lemma {:induction false} FramesCompose(s: Server, j: Server, g: Server, r: Server, c: ConnId, name: string)
    requires j.docs.Keys == s.docs.Keys + {name} && j.outbox == s.outbox[c := []]
    requires forall n :: n in s.docs && n != name ==> j.docs[n] == s.docs[n]
    requires g.docs == j.docs && g.outbox.Keys == j.outbox.Keys + {c}
    requires forall d :: d in j.outbox && d != c ==> g.outbox[d] == j.outbox[d]
    requires r.docs.Keys == g.docs.Keys && r.outbox == g.outbox
    requires forall n :: n in g.docs && n != name ==> r.docs[n] == g.docs[n]
    requires c !in s.outbox
    ensures r.docs.Keys == s.docs.Keys + {name}
    ensures forall n :: n in s.docs && n != name ==> r.docs[n] == s.docs[n]
    ensures r.outbox.Keys == s.outbox.Keys + {c}
    ensures forall d :: d in s.outbox ==> r.outbox[d] == s.outbox[d]
  {
    forall d | d in s.outbox
      ensures r.outbox[d] == s.outbox[d]
    {
      assert d != c && d in j.outbox;
    }
  }

  /** Greeting an open socket touches nothing but that socket's queue. */
  lemma {:induction false} GreetFrame(s: Server, name: string, c: ConnId)
    requires name in s.docs && IsOpen(s, c)
    ensures var r := Greet(s, name, c);
      && r.docs == s.docs && r.sockets == s.sockets && r.store == s.store
      && r.published == s.published && r.metrics == s.metrics
      && r.outbox.Keys == s.outbox.Keys + {c}
      && forall d :: d in s.outbox && d != c ==> r.outbox[d] == s.outbox[d]
  {
    var r := Greet(s, name, c);
    assert r == s.(outbox := s.outbox[c := Queue(s.outbox, c) + Greeting(s.docs[name])]);
  }

  /** A Step1 from an admitted connection is answered, on that connection
      only, with a Step2 holding exactly what the sender lacks; the replicas
      and the store are untouched. */
  lemma {:induction false} Step1Answered(s: Server, c: ConnId, vector: Crdt.State, io: Persistence.Io)
    requires Inv(s) && IsOpen(s, c)
    ensures var name := s.sockets[c].docName;
      var r := Receive(s, c, Protocol.Sync(Protocol.Step1(vector)), io);
      && r.docs == s.docs && r.store == s.store && r.published == s.published
      && r.outbox == s.outbox[c := s.outbox[c] +
           [Protocol.Sync(Protocol.Step2(Crdt.Diff(s.docs[name].state, vector)))]]
  {
    var name := s.sockets[c].docName;
    var m := Protocol.Step1(vector);
    Protocol.ReplyGate(s.docs[name].state, m);
  }

  /** A Step2 or Update from an admitted connection is merged; it is not
      answered, but when it carries something new every connection of the
      document receives that part as an Update, the sender included. */
  lemma {:induction false} UpdateEchoed(s: Server, c: ConnId, m: Protocol.SyncMessage, io: Persistence.Io)
    requires Delivers(s, c) && !m.Step1?
    requires s.sockets.Keys <= s.outbox.Keys
    ensures var name := s.sockets[c].docName;
      var was := s.docs[name].state;
      var r := Receive(s, c, Protocol.Sync(m), io);
      && r.docs[name].state == was + m.update
      && (forall d :: d in s.docs[name].conns && IsOpen(s, d) ==>
            d in r.outbox && r.outbox[d] == s.outbox[d] +
              (if m.update <= was then [] else [Protocol.Sync(Protocol.Update(m.update - was))]))
  {
    var name := s.sockets[c].docName;
    var counted := s.(metrics := Metrics.IncrementWsMessages(s.metrics));
    var was := s.docs[name].state;
    ReceiveMerges(s, c, m, io);
    var r := ApplyDelta(counted, name, m.update, FromClient, io);
    DeltaOutbox(counted, name, m.update, FromClient, io);
    assert Targets(counted, name) == Targets(s, name);
    forall d | d in s.docs[name].conns && IsOpen(s, d)
      ensures d in r.outbox && r.outbox[d] == s.outbox[d] +
        (if m.update <= was then [] else [Protocol.Sync(Protocol.Update(m.update - was))])
    {
      assert d in s.outbox;
    }
  }

  /** Without a reply, receiving a Step2 or Update is counting it and merging,
      whether or not the sender's socket is still open. */
  lemma {:induction false} ReceiveMerges(s: Server, c: ConnId, m: Protocol.SyncMessage, io: Persistence.Io)
    requires Delivers(s, c) && !m.Step1?
    ensures var name := s.sockets[c].docName;
      name in s.docs &&
      Receive(s, c, Protocol.Sync(m), io) ==
        ApplyDelta(s.(metrics := Metrics.IncrementWsMessages(s.metrics)), name, m.update, FromClient, io)
  {
    var name := s.sockets[c].docName;
    Protocol.ReplyGate(s.docs[name].state, m);
  }

  /** The outbox after a merge: unchanged when nothing is new, otherwise the
      new part queued for every open registered connection. */
  lemma {:induction false} DeltaOutbox(s: Server, name: string, delta: Crdt.State, origin: Origin, io: Persistence.Io)
    requires name in s.docs
    ensures var was := s.docs[name].state;
      var r := ApplyDelta(s, name, delta, origin, io);
      && (delta <= was ==> r.outbox == s.outbox)
      && (!(delta <= was) ==>
            r.outbox == DeliverAll(s.outbox, Targets(s, name), Protocol.Sync(Protocol.Update(delta - was))))
  {
    var was := s.docs[name].state;
    if !(delta <= was) {
      var grown := s.(docs := s.docs[name := s.docs[name].(state := was + delta)]);
      assert Targets(grown, name) == Targets(s, name);
    }
  }

  /** A message of an unknown type on any admitted socket is only counted. */
  lemma {:induction false} UnknownIgnored(s: Server, c: ConnId, tag: Protocol.UnknownTag, io: Persistence.Io)
    requires c in s.sockets
    ensures Receive(s, c, Protocol.Unknown(tag), io) == s.(metrics := Metrics.IncrementWsMessages(s.metrics))
  {
  }

  /** An awareness update changes the table and nothing else of the replica:
      no controlled id exists, so the broadcast closes no entry away. */
  lemma {:induction false} AwarenessMerged(s: Server, c: ConnId, u: Protocol.AwarenessUpdate, io: Persistence.Io)
    requires Inv(s) && Delivers(s, c)
    ensures var name := s.sockets[c].docName;
      var r := Receive(s, c, Protocol.Awareness(u), io);
      && r.docs[name].awareness == MergeAwareness(s.docs[name].awareness, u)
      && r.docs[name].state == s.docs[name].state
      && r.store == s.store && r.published == s.published
  {
    var name := s.sockets[c].docName;
    var was := s.docs[name];
    var counted := s.(metrics := Metrics.IncrementWsMessages(s.metrics));
    if Changed(was.awareness, u) != {} {
      var table := MergeAwareness(was.awareness, u);
      var staged := counted.(docs := counted.docs[name := was.(awareness := table)]);
      assert forall d :: d in staged.docs[name].conns ==> staged.docs[name].conns[d] == {};
    } else {
      assert MergeAwareness(was.awareness, u) == was.awareness;
    }
  }

  /** Closing a connection twice is closing it once. */
  lemma {:induction false} CloseConnIdempotent(s: Server, name: string, c: ConnId)
    ensures CloseConn(CloseConn(s, name, c), name, c) == CloseConn(s, name, c)
  {
    var once := CloseConn(s, name, c);
    assert CloseSocket(once.sockets, c) == once.sockets;
  }

  /** A local update (from a client or the load) with something new is
      published exactly once, carrying the new part; a merge from the bus is
      not published. */
  lemma {:induction false} PublishedOnce(s: Server, name: string, delta: Crdt.State, origin: Origin, io: Persistence.Io)
    requires Inv(s) && name in s.docs
    ensures var r := ApplyDelta(s, name, delta, origin, io);
      r.published == s.published +
        (if origin != FromRedis && !(delta <= s.docs[name].state)
         then [Publication(name, delta - s.docs[name].state)] else [])
  {
  }

  /** Once loaded, a new update from a client appends exactly one record to
      the document's log when the row exists and the append succeeds. */
  lemma {:induction false} UpdateLogged(s: Server, c: ConnId, m: Protocol.SyncMessage, io: Persistence.Io)
    requires Inv(s) && Delivers(s, c) && !m.Step1?
    requires s.docs[s.sockets[c].docName].Loaded()
    requires !(m.update <= s.docs[s.sockets[c].docName].state)
    requires io.appendOk && s.sockets[c].docName in s.store
    ensures var name := s.sockets[c].docName;
      var r := Receive(s, c, Protocol.Sync(m), io);
      r.store[name].updates == s.store[name].updates +
        [Codec.EncodeState(m.update - s.docs[name].state)]
  {
    var name := s.sockets[c].docName;
    var counted := s.(metrics := Metrics.IncrementWsMessages(s.metrics));
    Protocol.ReplyGate(s.docs[name].state, m);
    assert Receive(s, c, Protocol.Sync(m), io) == ApplyDelta(counted, name, m.update, FromClient, io);
  }

  /** A socket that has left OPEN but whose 'close' has not fired still
      delivers: an update it sends after the peer went away is counted,
      merged into the document and, when new, published on the bus. */
  lemma {:induction false} ClosingSocketMerges(s: Server, c: ConnId, u: Crdt.State, io: Persistence.Io)
    requires Inv(s) && IsOpen(s, c)
    ensures var name := s.sockets[c].docName;
      var r := Receive(PeerGone(s, c), c, Protocol.Sync(Protocol.Update(u)), io);
      && r.docs[name].state == s.docs[name].state + u
      && r.metrics == Metrics.IncrementWsMessages(s.metrics)
      && r.published == s.published +
           (if u <= s.docs[name].state then [] else [Publication(name, u - s.docs[name].state)])
  {
    var name := s.sockets[c].docName;
    var gone := PeerGone(s, c);
    PeerGoneInv(s, c);
    assert Delivers(gone, c);
    ReceiveMerges(gone, c, Protocol.Update(u), io);
    var counted := gone.(metrics := Metrics.IncrementWsMessages(gone.metrics));
    ShapeInv(gone, counted);
    PublishedOnce(counted, name, u, FromClient, io);
  }

  /** Once a teardown has destroyed a replica, a frame still arriving on a
      socket that was opened for it reaches the destroyed replica only: it
      is counted and nothing else changes. */
  lemma {:induction false} TornDownSocketCounted(s: Server, name: string, writeOk: bool, c: ConnId,
                                                 m: Protocol.Message, io: Persistence.Io)
    requires Inv(s) && name in s.docs && s.docs[name].teardown.Writing? && s.docs[name].conns.Keys == {}
    requires c in s.sockets && s.sockets[c].docName == name
    ensures var r := TeardownFinish(s, name, writeOk);
      && name !in r.docs
      && Receive(r, c, m, io) == r.(metrics := Metrics.IncrementWsMessages(r.metrics))
  {
    var r := TeardownFinish(s, name, writeOk);
    assert !r.sockets[c].replicaLive;
  }

  /** The teardown race. While the final write of a replica nobody was
      connected to is in flight, a client is admitted to the same document.
      As written, the completion destroys and unregisters the replica anyway:
      the new connection's socket stays open but no replica lists it, so
      updates for the document never reach it again. With the re-check after
      the write, the replica is kept and the invariant holds. */
  lemma {:induction false} TeardownRace(s: Server, name: string, c: ConnId, url: string, writeOk: bool)
    requires Inv(s) && name in s.docs && s.docs[name].teardown.Writing?
    requires c !in s.sockets && c !in s.outbox
    requires Gate.Upgrade(url, true, true) == Gate.Admit(name)
    ensures var joined := Upgrade(s, c, url, true, true);
      && Inv(joined) && IsOpen(joined, c)
      && !Reachable(TeardownFinishAsWritten(joined, name, writeOk))
      && name in TeardownFinish(joined, name, writeOk).docs
      && Inv(TeardownFinish(joined, name, writeOk))
  {
    var joined := Upgrade(s, c, url, true, true);
    ConnectInv(s, c, name);
    UpgradeGreets(s, c, url, true, true);
    assert joined.docs[name].teardown.Writing?;
    var broken := TeardownFinishAsWritten(joined, name, writeOk);
    assert IsOpen(broken, c) && broken.sockets[c].docName !in broken.docs;
    TeardownFinishInv(joined, name, writeOk);
  }

  /** A concrete instance of the race: document "d" is being written out
      with nobody connected, and connection 0 arrives with a valid token. */
  lemma {:induction false} OrphanedConnection()
    ensures var s := Server(
        map["d" := Replica({}, map[], map[], Persistence.Tracker(0, false), true, Writing({}))],
        map[], map[], map[], [], Metrics.Initial);
      var url := Hook.RequestTarget(Hook.RoomName("d"), "t");
      && Inv(s)
      && !Reachable(TeardownFinishAsWritten(Upgrade(s, 0, url, true, true), "d", true))
      && Reachable(TeardownFinish(Upgrade(s, 0, url, true, true), "d", true))
  {
    var s := Server(
        map["d" := Replica({}, map[], map[], Persistence.Tracker(0, false), true, Writing({}))],
        map[], map[], map[], [], Metrics.Initial);
    var url := Hook.RequestTarget(Hook.RoomName("d"), "t");
    assert Inv(s);
    Hook.RoomRoundTrip("d", "t");
    TeardownRace(s, "d", 0, url, true);
  }
}
