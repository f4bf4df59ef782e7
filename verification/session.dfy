/** The session and replica manager of the collaboration server, as a
    sequential state machine. One step is one task of the event loop: an
    upgrade request, an inbound message, a socket leaving the OPEN state, a
    failed send, a socket's 'close' event, the completion of a replica's
    initial load, the two halves of a replica teardown, and a message from
    the publish/subscribe bus. */
module Session {
  import opened Wrappers
  import Crdt
  import Protocol
  import Persistence
  import Gate
  import Metrics
  import Codec
  import Gzip

  type ConnId = nat

  /** The bus channel replicas publish their local updates on. */
  const Channel: string := "yjs-update"

  /** The pending-teardown marker of a replica. */
  datatype Teardown =
    | NoTeardown
    | AwaitingLoad                 // scheduled to run once the load resolves
    | Writing(snapshot: Crdt.State) // `writeState` of this state in flight

  /** One in-memory document: the CRDT state, the connections with the
      awareness ids each controls, the awareness table, the persistence
      tracker (whose loading flag is also `whenLoaded`), whether the fan-out
      listener is attached, and the teardown marker. */
  datatype Replica = Replica(
    state: Crdt.State,
    conns: map<ConnId, set<Protocol.ClientId>>,
    awareness: map<Protocol.ClientId, Protocol.Presence>,
    tracker: Persistence.Tracker,
    hasRedisListener: bool,
    teardown: Teardown)
  {
    predicate Loaded() { !tracker.loading }
  }

  /** An admitted socket whose 'close' event has not fired yet: the document
      it was opened for, whether its readyState is still OPEN, and whether
      the replica its handlers captured is still the one registered under
      that name (a teardown destroys it). */
  datatype Socket = Socket(docName: string, open: bool, replicaLive: bool)

  /** A message on the bus: `{ docName, update }`. */
  datatype Publication = Publication(docName: string, update: Crdt.State)

  datatype Server = Server(
    docs: map<string, Replica>,
    sockets: map<ConnId, Socket>,
    outbox: map<ConnId, seq<Protocol.Message>>,  // what was handed to each socket
    store: Persistence.Store,
    published: seq<Publication>,
    metrics: Metrics.Counters)

  /** Who caused a merge: a client message, the initial load, or the bus. */
  datatype Origin = FromClient | FromLoad | FromRedis

  /** A replica as `getYDoc` creates it, after `bindState` has started. */
  const NewReplica: Replica :=
    Replica({}, map[], map[], Persistence.Bound, false, NoTeardown)

  predicate IsOpen(s: Server, c: ConnId) {
    c in s.sockets && s.sockets[c].open
  }

  /** The socket's handlers still act on a replica the server holds. */
  predicate Delivers(s: Server, c: ConnId) {
    c in s.sockets && s.sockets[c].replicaLive && s.sockets[c].docName in s.docs
  }

  function Queue(outbox: map<ConnId, seq<Protocol.Message>>, c: ConnId): seq<Protocol.Message> {
    if c in outbox then outbox[c] else []
  }

  /** `getYDoc`: the existing replica when the name is known, otherwise a new
      one registered under the name (and loading). */
  function GetYDoc(docs: map<string, Replica>, name: string): (r: map<string, Replica>)
    ensures name in r && r.Keys == docs.Keys + {name}
    ensures name in docs ==> r == docs
    ensures name !in docs ==> r[name] == NewReplica && r[name].tracker.loading
    ensures forall n :: n in docs ==> r[n] == docs[n]
  {
    if name in docs then docs else docs[name := NewReplica]
  }

  function CloseSocket(sockets: map<ConnId, Socket>, c: ConnId): (r: map<ConnId, Socket>)
    ensures r.Keys == sockets.Keys
    ensures c in r ==> !r[c].open && r[c].docName == sockets[c].docName
    ensures forall d :: d in sockets && d != c ==> r[d] == sockets[d]
  {
    if c in sockets then sockets[c := sockets[c].(open := false)] else sockets
  }

  /** `closeConn`: unregisters the connection (dropping the awareness entries
      it controls) and schedules a teardown when it was the last one; the
      socket is closed in every case. */
  function CloseConn(s: Server, name: string, c: ConnId): (r: Server)
    ensures r.docs.Keys == s.docs.Keys && !IsOpen(r, c)
    ensures r.sockets == CloseSocket(s.sockets, c)
    ensures r.outbox == s.outbox && r.store == s.store && r.published == s.published
    ensures r.metrics == s.metrics
    ensures forall n :: n in s.docs && n != name ==> r.docs[n] == s.docs[n]
    // a connection that is not registered leaves every replica as it was
    ensures !(name in s.docs && c in s.docs[name].conns) ==> r.docs == s.docs
    ensures name in s.docs && c in s.docs[name].conns ==>
      var was := s.docs[name];
      var now := r.docs[name];
      && now.conns.Keys == was.conns.Keys - {c}
      && (forall d :: d in now.conns ==> now.conns[d] == was.conns[d])
      && now.awareness == was.awareness - was.conns[c]
      && now.state == was.state && now.tracker == was.tracker
      && now.hasRedisListener == was.hasRedisListener
      // the last connection going away schedules the teardown
      && now.teardown == (if now.conns.Keys == {} && was.teardown == NoTeardown
                          then AwaitingLoad else was.teardown)
  {
    var closed := s.(sockets := CloseSocket(s.sockets, c));
    if name in s.docs && c in s.docs[name].conns then
      var was := s.docs[name];
      var conns := was.conns - {c};
      var teardown := if conns.Keys == {} && was.teardown == NoTeardown then AwaitingLoad else was.teardown;
      var now := was.(conns := conns, awareness := was.awareness - was.conns[c], teardown := teardown);
      closed.(docs := s.docs[name := now])
    else closed
  }

  /** `send`: hands the message to an open socket, closes the connection
      otherwise. */
  function Send(s: Server, name: string, c: ConnId, m: Protocol.Message): (r: Server)
    ensures IsOpen(s, c) ==> r == s.(outbox := s.outbox[c := Queue(s.outbox, c) + [m]])
    ensures !IsOpen(s, c) ==> r == CloseConn(s, name, c)
  {
    if IsOpen(s, c) then s.(outbox := s.outbox[c := Queue(s.outbox, c) + [m]])
    else CloseConn(s, name, c)
  }

  /** The registered connections of `name` whose socket is still open. */
  function Targets(s: Server, name: string): (t: set<ConnId>)
    requires name in s.docs
    ensures forall c :: c in t <==> c in s.docs[name].conns && IsOpen(s, c)
  {
    set c | c in s.docs[name].conns && IsOpen(s, c)
  }

  /** The replica after the stale connections of a broadcast were closed:
      only `live` stays registered, the awareness entries controlled by the
      others go, and the teardown is scheduled if nobody is left. */
  function Prune(r: Replica, live: set<ConnId>): (p: Replica)
    requires live <= r.conns.Keys
    ensures p.conns.Keys == live
    ensures forall c :: c in live ==> p.conns[c] == r.conns[c]
    ensures p.state == r.state && p.tracker == r.tracker
    ensures p.hasRedisListener == r.hasRedisListener
    ensures p.awareness.Keys <= r.awareness.Keys
    ensures forall id :: id in p.awareness ==> p.awareness[id] == r.awareness[id]
    ensures live == r.conns.Keys ==> p == r
    // with no controlled ids, closing connections drops no awareness entry
    ensures (forall c :: c in r.conns ==> r.conns[c] == {}) ==> p.awareness == r.awareness
    ensures p.teardown == r.teardown ||
      (r.teardown == NoTeardown && p.teardown == AwaitingLoad && live == {})
  {
    if live == r.conns.Keys then
      r
    else
      var dropped := set id, c | c in r.conns.Keys - live && id in r.conns[c] :: id;
      var teardown := if live == {} && r.teardown == NoTeardown then AwaitingLoad else r.teardown;
      r.(conns := map c | c in live :: r.conns[c], awareness := r.awareness - dropped,
         teardown := teardown)
  }

  /** Appends `m` to the queue of every connection in `targets`. */
  function DeliverAll(outbox: map<ConnId, seq<Protocol.Message>>, targets: set<ConnId>,
                      m: Protocol.Message): (o: map<ConnId, seq<Protocol.Message>>)
    ensures forall c :: c in o <==> c in outbox || c in targets
    ensures forall c :: c in o ==>
      o[c] == Queue(outbox, c) + (if c in targets then [m] else [])
  {
    map c | c in outbox.Keys + targets :: Queue(outbox, c) + (if c in targets then [m] else [])
  }

  /** `conns.forEach(conn => send(doc, conn, m))`: every registered connection
      with an open socket receives the message; the others are closed (their
      sockets are already not open, so only the registration changes). */
  function Broadcast(s: Server, name: string, m: Protocol.Message): (r: Server)
    requires name in s.docs
    ensures r.docs.Keys == s.docs.Keys && r.sockets == s.sockets
    ensures r.store == s.store && r.published == s.published && r.metrics == s.metrics
    ensures forall n :: n in s.docs && n != name ==> r.docs[n] == s.docs[n]
    ensures r.docs[name] == Prune(s.docs[name], Targets(s, name))
    ensures r.outbox == DeliverAll(s.outbox, Targets(s, name), m)
  {
    var live := Targets(s, name);
    s.(docs := s.docs[name := Prune(s.docs[name], live)],
       outbox := DeliverAll(s.outbox, live, m))
  }

  /** The three 'update' listeners of a replica, run on one update event
      carrying `event` after the merge: the broadcast of a sync Update to every
      connection, the persistence listener, and the fan-out listener (which
      skips merges that came from the bus). */
  function OnUpdateEvent(s: Server, name: string, event: Crdt.State, origin: Origin,
                         io: Persistence.Io): (r: Server)
    requires name in s.docs
    ensures r.docs.Keys == s.docs.Keys && r.sockets == s.sockets && r.metrics == s.metrics
    ensures forall n :: n in s.docs && n != name ==> r.docs[n] == s.docs[n]
    ensures r.outbox == DeliverAll(s.outbox, Targets(s, name), Protocol.Sync(Protocol.Update(event)))
    ensures var p := Prune(s.docs[name], Targets(s, name));
      var rec := Persistence.OnUpdate(name, p.tracker, s.store, event, p.state, io);
      r.docs[name] == p.(tracker := rec.tracker) && r.store == rec.store
    ensures r.published == s.published +
      (if origin != FromRedis && s.docs[name].hasRedisListener then [Publication(name, event)] else [])
  {
    var sent := Broadcast(s, name, Protocol.Sync(Protocol.Update(event)));
    Record(sent, name, event, origin != FromRedis && s.docs[name].hasRedisListener, io)
  }

  /** The persistence listener and then, when `publish` holds, the fan-out
      listener, run after the broadcast. */
  function Record(s: Server, name: string, event: Crdt.State, publish: bool,
                  io: Persistence.Io): (r: Server)
    requires name in s.docs
    ensures r.docs.Keys == s.docs.Keys && r.sockets == s.sockets && r.outbox == s.outbox
    ensures r.metrics == s.metrics
    ensures forall n :: n in s.docs && n != name ==> r.docs[n] == s.docs[n]
    // only the persistence tracker of the replica moves
    ensures r.docs[name] == s.docs[name].(tracker := r.docs[name].tracker)
    ensures r.published == s.published + (if publish then [Publication(name, event)] else [])
    ensures s.docs[name].tracker.loading ==>
      r.store == s.store && r.docs[name].tracker == s.docs[name].tracker
    ensures r.store.Keys == s.store.Keys
    ensures !s.docs[name].tracker.loading && io.appendOk && name in s.store ==>
      r.store[name].updates == s.store[name].updates + [Codec.EncodeState(event)]
  {
    var p := s.docs[name];
    var rec := Persistence.OnUpdate(name, p.tracker, s.store, event, p.state, io);
    var persisted := s.(docs := s.docs[name := p.(tracker := rec.tracker)], store := rec.store);
    if publish then persisted.(published := persisted.published + [Publication(name, event)])
    else persisted
  }

  /** `Y.applyUpdate` on a replica: the delta is merged, and the update event
      fires (with the part that was new) only when something was new. */
  function ApplyDelta(s: Server, name: string, delta: Crdt.State, origin: Origin,
                      io: Persistence.Io): (r: Server)
    requires name in s.docs
    ensures r.docs.Keys == s.docs.Keys && r.sockets == s.sockets && r.metrics == s.metrics
    ensures forall n :: n in s.docs && n != name ==> r.docs[n] == s.docs[n]
    ensures r.docs[name].state == s.docs[name].state + delta
    ensures delta <= s.docs[name].state ==> r == s
    // while the replica is loading, the persistence listener stays out of it
    ensures s.docs[name].tracker.loading ==>
      r.store == s.store && r.docs[name].tracker == s.docs[name].tracker
    ensures !(delta <= s.docs[name].state) ==>
      r == OnUpdateEvent(s.(docs := s.docs[name := s.docs[name].(state := s.docs[name].state + delta)]),
                         name, delta - s.docs[name].state, origin, io)
  {
    var was := s.docs[name];
    var applied := Crdt.Apply(was.state, delta);
    if applied.event == {} then
      assert delta <= was.state;
      s
    else
      var merged := s.(docs := s.docs[name := was.(state := applied.state)]);
      var r := OnUpdateEvent(merged, name, applied.event, origin, io);
      assert r.docs[name].state == applied.state;
      assert was.tracker.loading ==> r.store == s.store && r.docs[name].tracker == was.tracker;
      r
  }

  /** The awareness table after an inbound awareness update: an entry with a
      presence sets it, an entry announcing departure removes it. */
  function MergeAwareness(table: map<Protocol.ClientId, Protocol.Presence>,
                          u: Protocol.AwarenessUpdate): (r: map<Protocol.ClientId, Protocol.Presence>)
    ensures forall id :: id in u.entries && u.entries[id].Some? ==> id in r && r[id] == u.entries[id].value
    ensures forall id :: id in u.entries && u.entries[id].None? ==> id !in r
    ensures forall id :: id !in u.entries ==> (id in r <==> id in table)
    ensures forall id :: id !in u.entries && id in table ==> r[id] == table[id]
  {
    var departed := set id | id in u.entries && u.entries[id].None?;
    var present := map id | id in u.entries && u.entries[id].Some? :: u.entries[id].value;
    (table - departed) + present
  }

  /** The clients an awareness update reports as added, updated or removed:
      every entry carrying a presence, and every departure of a known client. */
  function Changed(table: map<Protocol.ClientId, Protocol.Presence>,
                   u: Protocol.AwarenessUpdate): (r: set<Protocol.ClientId>)
    ensures forall id :: id in r <==> id in u.entries && (u.entries[id].Some? || id in table)
  {
    set id | id in u.entries && (u.entries[id].Some? || id in table)
  }

  /** The entries of `ids` as the table now holds them (`None` for a client
      that is gone): what `encodeAwarenessUpdate` writes. */
  function Snapshot(table: map<Protocol.ClientId, Protocol.Presence>, ids: set<Protocol.ClientId>)
    : (r: Protocol.AwarenessUpdate)
    ensures r.entries.Keys == ids
    ensures forall id :: id in ids ==> r.entries[id] == (if id in table then Some(table[id]) else None)
  {
    Protocol.AwarenessUpdate(map id | id in ids :: if id in table then Some(table[id]) else None)
  }

  /** `applyAwarenessUpdate` on the replica's table; the awareness 'update'
      handler then broadcasts the changed entries when there are any. The
      connection's controlled ids are not touched. */
  function ApplyAwareness(s: Server, name: string, u: Protocol.AwarenessUpdate): (r: Server)
    requires name in s.docs
    ensures Changed(s.docs[name].awareness, u) == {} ==> r == s
    ensures Changed(s.docs[name].awareness, u) != {} ==>
      var table := MergeAwareness(s.docs[name].awareness, u);
      r == Broadcast(s.(docs := s.docs[name := s.docs[name].(awareness := table)]), name,
                     Protocol.Awareness(Snapshot(table, Changed(s.docs[name].awareness, u))))
  {
    var was := s.docs[name];
    var changed := Changed(was.awareness, u);
    if changed == {} then
      assert MergeAwareness(was.awareness, u) == was.awareness;
      s
    else
      var table := MergeAwareness(was.awareness, u);
      Broadcast(s.(docs := s.docs[name := was.(awareness := table)]), name,
                Protocol.Awareness(Snapshot(table, changed)))
  }

  /** A sync message from connection `c`: `readSyncMessage` merges a Step2 or
      Update into the replica, or writes a Step2 reply to a Step1; the reply
      is sent when the encoder holds more than the outer tag. */
  function ReceiveSync(s: Server, name: string, c: ConnId, m: Protocol.SyncMessage,
                       io: Persistence.Io): (r: Server)
    requires name in s.docs
    ensures r.metrics == s.metrics && r.sockets.Keys == s.sockets.Keys
    // a Step2 or an Update is merged and answers nothing
    ensures !m.Step1? ==> r == ApplyDelta(s, name, m.update, FromClient, io)
    ensures !m.Step1? ==> r.docs[name].state == s.docs[name].state + m.update
    // a Step1 leaves the replica alone and is answered with what the peer lacks
    ensures m.Step1? && IsOpen(s, c) ==>
      r == s.(outbox := s.outbox[c := Queue(s.outbox, c) +
                [Protocol.Sync(Protocol.Step2(Crdt.Diff(s.docs[name].state, m.stateVector)))]])
    ensures m.Step1? && !IsOpen(s, c) ==> r == CloseConn(s, name, c)
  {
    Protocol.ReplyGate(s.docs[name].state, m);
    var merged := if m.Step1? then s else ApplyDelta(s, name, m.update, FromClient, io);
    var reply := Protocol.SyncReply(s.docs[name].state, m);
    if Protocol.ReplyEncoderLength(reply) > 1 then Send(merged, name, c, Protocol.Sync(reply.value))
    else merged
  }

  /** The two 'message' listeners of an admitted socket: the dispatcher on
      the outer type tag, and the message counter. Neither looks at the
      readyState, so a socket that is closing still delivers the frames that
      reach it, until its 'close' event. The dispatcher acts on the replica
      it captured at connection time; once a teardown has destroyed that
      replica, whose listeners are gone with it, the message is only counted. */
  function Receive(s: Server, c: ConnId, m: Protocol.Message, io: Persistence.Io): (r: Server)
    ensures c !in s.sockets ==> r == s
    ensures c in s.sockets ==> r.metrics == Metrics.IncrementWsMessages(s.metrics)
    ensures c in s.sockets && !Delivers(s, c) ==>
      r == s.(metrics := Metrics.IncrementWsMessages(s.metrics))
    ensures r.sockets.Keys == s.sockets.Keys
  {
    if c !in s.sockets then s
    else if !Delivers(s, c) then s.(metrics := Metrics.IncrementWsMessages(s.metrics))
    else
      var name := s.sockets[c].docName;
      var counted := s.(metrics := Metrics.IncrementWsMessages(s.metrics));
      match m
      case Sync(sm) => ReceiveSync(counted, name, c, sm, io)
      case Awareness(u) => ApplyAwareness(counted, name, u)
      case Unknown(_) => counted
  }

  /** The 'connection' handler for an upgrade the gate admitted: count the
      connection, register it with no controlled ids on the (possibly new)
      replica, send the current awareness entries when there are any, then
      a Step1 with the replica's state, and attach the fan-out listener
      unless the replica already has one. */
  function Connect(s: Server, c: ConnId, name: string): (r: Server)
    requires c !in s.sockets && c !in s.outbox
    ensures r.sockets == s.sockets[c := Socket(name, true, true)]
    ensures r.store == s.store && r.published == s.published
    ensures r.metrics == Metrics.IncrementConnections(s.metrics)
  {
    var joined := Register(s, c, name);
    var greeted := Greet(joined, name, c);
    Listen(greeted, name)
  }

  /** Attaching the fan-out listener to the replica of `name`. */
  function Listen(s: Server, name: string): (r: Server)
    requires name in s.docs
    ensures r.docs.Keys == s.docs.Keys && r.docs[name].hasRedisListener
    ensures r.docs[name].state == s.docs[name].state
    ensures forall n :: n in s.docs && n != name ==> r.docs[n] == s.docs[n]
    ensures r.sockets == s.sockets && r.outbox == s.outbox && r.store == s.store
    ensures r.published == s.published && r.metrics == s.metrics
  {
    s.(docs := s.docs[name := s.docs[name].(hasRedisListener := true)])
  }

  /** Counting the connection, opening its socket, and `conns.set(conn, new
      Set())` on the replica `getYDoc` returns. */
  function Register(s: Server, c: ConnId, name: string): (r: Server)
    requires c !in s.sockets && c !in s.outbox
    ensures IsOpen(r, c) && r.sockets == s.sockets[c := Socket(name, true, true)]
    ensures r.outbox == s.outbox[c := []]
    ensures r.docs.Keys == s.docs.Keys + {name}
    ensures forall n :: n in s.docs && n != name ==> r.docs[n] == s.docs[n]
    ensures var got := GetYDoc(s.docs, name)[name];
      r.docs[name] == got.(conns := got.conns[c := {}])
    ensures r.metrics == Metrics.IncrementConnections(s.metrics)
    ensures r.store == s.store && r.published == s.published
  {
    var docs := GetYDoc(s.docs, name);
    s.(docs := docs[name := docs[name].(conns := docs[name].conns[c := {}])],
       sockets := s.sockets[c := Socket(name, true, true)],
       outbox := s.outbox[c := []],
       metrics := Metrics.IncrementConnections(s.metrics))
  }

  /** What a new connection is sent first: the awareness entries of every
      known client when there are any, then a Step1 with the replica's state. */
  function Greeting(r: Replica): (g: seq<Protocol.Message>)
    ensures |g| == (if |r.awareness| > 0 then 2 else 1)
    ensures g[|g| - 1] == Protocol.Sync(Protocol.Step1(r.state))
    ensures |g| == 2 ==> g[0].Awareness? && g[0].awareness.entries.Keys == r.awareness.Keys
  {
    (if |r.awareness| > 0 then [Protocol.Awareness(Snapshot(r.awareness, r.awareness.Keys))] else [])
      + [Protocol.Sync(Protocol.Step1(r.state))]
  }

  /** The two sends of `setupWSConnection`; on an open socket they only queue
      the greeting. */
  function Greet(s: Server, name: string, c: ConnId): (r: Server)
    requires name in s.docs
    ensures IsOpen(s, c) ==>
      r == s.(outbox := s.outbox[c := Queue(s.outbox, c) + Greeting(s.docs[name])])
  {
    var rep := s.docs[name];
    var step1 := Protocol.Sync(Protocol.Step1(rep.state));
    if |rep.awareness| > 0 then
      var hello := Protocol.Awareness(Snapshot(rep.awareness, rep.awareness.Keys));
      var greeted := Send(s, name, c, hello);
      assert IsOpen(s, c) ==> Queue(s.outbox, c) + Greeting(rep) == Queue(greeted.outbox, c) + [step1];
      Send(greeted, name, c, step1)
    else
      assert Greeting(rep) == [step1];
      Send(s, name, c, step1)
  }

  /** An upgrade request on `url` for a fresh connection id; URL parsing and
      the token check are oracles. A request that throws or is rejected
      leaves the server as it was. */
  function Upgrade(s: Server, c: ConnId, url: string, urlParses: bool, tokenVerifies: bool): (r: Server)
    ensures c in s.sockets || c in s.outbox || !Gate.Upgrade(url, urlParses, tokenVerifies).Admit? ==> r == s
    ensures c !in s.sockets && c !in s.outbox ==>
      (c in r.sockets <==> Gate.Upgrade(url, urlParses, tokenVerifies).Admit?)
    ensures c !in s.sockets && Gate.Upgrade(url, urlParses, tokenVerifies).Admit? ==>
      c in r.sockets ==> IsOpen(r, c) && r.sockets[c].docName == Gate.DocName(url)
  {
    if c in s.sockets || c in s.outbox then s
    else match Gate.Upgrade(url, urlParses, tokenVerifies)
      case Throws => s
      case Reject401 => s
      case Admit(name) => Connect(s, c, name)
  }

  /** The peer went away or the socket started closing: its readyState is no
      longer OPEN; nothing else happens until a send or the 'close' event. */
  function PeerGone(s: Server, c: ConnId): (r: Server)
    ensures !IsOpen(r, c) && r.sockets.Keys == s.sockets.Keys
    ensures r.docs == s.docs && r.outbox == s.outbox
  {
    s.(sockets := CloseSocket(s.sockets, c))
  }

  /** A send whose callback reported an error, or threw. */
  function SendFailed(s: Server, c: ConnId): (r: Server)
    ensures !IsOpen(r, c) && r.sockets.Keys == s.sockets.Keys
    ensures c in s.sockets && s.sockets[c].docName in r.docs ==> c !in r.docs[s.sockets[c].docName].conns
  {
    if c in s.sockets then CloseConn(s, s.sockets[c].docName, c) else s
  }

  /** The socket's 'close' event: `closeConn` and the gauge decrement; the
      socket is gone afterwards. */
  function Closed(s: Server, c: ConnId): (r: Server)
    ensures r.sockets.Keys == s.sockets.Keys - {c}
    ensures c in s.sockets && s.metrics.activeConnections > 0 ==>
      r.metrics.activeConnections == s.metrics.activeConnections - 1
    ensures c in s.sockets && s.sockets[c].docName in r.docs ==> c !in r.docs[s.sockets[c].docName].conns
  {
    if c !in s.sockets then s
    else
      var closed := CloseConn(s, s.sockets[c].docName, c);
      closed.(sockets := closed.sockets - {c},
              metrics := Metrics.DecrementConnections(closed.metrics))
  }

  /** The database read of `bindState` completing: the loaded deltas are
      merged in order (with the persistence listener still ignoring them)
      and the loading flag is cleared. A failed read loads nothing. */
  function LoadCompleted(s: Server, name: string, readOk: bool, io: Persistence.Io): (r: Server)
    ensures r.docs.Keys == s.docs.Keys && r.sockets == s.sockets
    // the loaded deltas are merged without being recorded again, and the
    // replica then counts as loaded
    ensures name in s.docs && s.docs[name].tracker.loading ==>
      var row := if readOk && name in s.store then Some(s.store[name]) else None;
      && r.docs[name].state == Crdt.ApplyAll(s.docs[name].state, Persistence.LoadDeltas(row))
      && r.docs[name].Loaded() && r.store == s.store
      && r.docs[name].tracker.updateCount == s.docs[name].tracker.updateCount
    ensures !(name in s.docs && s.docs[name].tracker.loading) ==> r == s
  {
    if name !in s.docs || !s.docs[name].tracker.loading then s
    else
      var row := if readOk && name in s.store then Some(s.store[name]) else None;
      var loaded := ApplyDeltas(s, name, Persistence.LoadDeltas(row), io);
      loaded.(docs := loaded.docs[name := loaded.docs[name].(
        tracker := loaded.docs[name].tracker.(loading := false))])
  }

  /** `Y.applyUpdate` of each delta in turn, from the loader. */
  function ApplyDeltas(s: Server, name: string, deltas: seq<Crdt.State>, io: Persistence.Io): (r: Server)
    requires name in s.docs
    ensures r.docs.Keys == s.docs.Keys && r.sockets == s.sockets && r.metrics == s.metrics
    ensures forall n :: n in s.docs && n != name ==> r.docs[n] == s.docs[n]
    ensures r.docs[name].state == Crdt.ApplyAll(s.docs[name].state, deltas)
    ensures s.docs[name].tracker.loading ==>
      r.store == s.store && r.docs[name].tracker == s.docs[name].tracker
    decreases |deltas|
  {
    if |deltas| == 0 then s
    else ApplyDeltas(ApplyDelta(s, name, deltas[0], FromLoad, io), name, deltas[1..], io)
  }

  /** The continuation `closeConn` scheduled, once the load has resolved:
      re-check that nobody is connected, and if so start the final write;
      otherwise the teardown is abandoned. */
  function TeardownCheck(s: Server, name: string): (r: Server)
    ensures r.docs.Keys == s.docs.Keys && r.sockets == s.sockets && r.outbox == s.outbox
    ensures r.store == s.store && r.published == s.published
    ensures forall n :: n in s.docs ==>
      r.docs[n].conns == s.docs[n].conns && r.docs[n].state == s.docs[n].state
    // nothing happens before the load has resolved
    ensures name in s.docs && !s.docs[name].Loaded() ==> r == s
    // the write starts only with nobody connected, on the state of that moment
    ensures name in s.docs && r.docs[name].teardown.Writing? && !s.docs[name].teardown.Writing? ==>
      && s.docs[name].teardown == AwaitingLoad && s.docs[name].conns.Keys == {}
      && r.docs[name].teardown.snapshot == s.docs[name].state
    // someone connected in the meantime: the teardown is abandoned
    ensures name in s.docs && s.docs[name].teardown == AwaitingLoad && s.docs[name].Loaded() ==>
      (r.docs[name].teardown == NoTeardown <==> s.docs[name].conns.Keys != {})
  {
    if name !in s.docs || s.docs[name].teardown != AwaitingLoad || !s.docs[name].Loaded() then s
    else
      var was := s.docs[name];
      var next := if was.conns.Keys == {} then Writing(was.state) else NoTeardown;
      s.(docs := s.docs[name := was.(teardown := next)])
  }

  /** The sockets after the replica `name` was destroyed: every socket
      opened for that document has lost the replica its handlers captured. */
  function Orphan(sockets: map<ConnId, Socket>, name: string): (r: map<ConnId, Socket>)
    ensures r.Keys == sockets.Keys
    ensures forall c :: c in r ==>
      && r[c].docName == sockets[c].docName && r[c].open == sockets[c].open
      && (r[c].replicaLive <==> sockets[c].replicaLive && sockets[c].docName != name)
  {
    map c | c in sockets :: if sockets[c].docName == name then sockets[c].(replicaLive := false) else sockets[c]
  }

  /** The final write completing, as the source has it: the replica is
      destroyed and unregistered whatever happened while the write was in
      flight. */
  function TeardownFinishAsWritten(s: Server, name: string, writeOk: bool): (r: Server)
    ensures r.outbox == s.outbox
    ensures name in s.docs && s.docs[name].teardown.Writing? ==>
      name !in r.docs && r.sockets == Orphan(s.sockets, name)
    ensures !(name in s.docs && s.docs[name].teardown.Writing?) ==> r == s
  {
    if name !in s.docs || !s.docs[name].teardown.Writing? then s
    else
      var store := Persistence.WriteState(name, s.store, s.docs[name].teardown.snapshot, writeOk);
      s.(docs := s.docs - {name}, sockets := Orphan(s.sockets, name), store := store)
  }

  /** The final write completing, with the re-check the comment in the
      source promises: the replica is destroyed only if still nobody is
      connected; a connection admitted during the write keeps it alive. */
  function TeardownFinish(s: Server, name: string, writeOk: bool): (r: Server)
    ensures r.outbox == s.outbox && r.published == s.published
    ensures r.metrics == s.metrics && r.store.Keys == s.store.Keys
    ensures r.docs.Keys == s.docs.Keys || r.docs.Keys == s.docs.Keys - {name}
    // the sockets of a destroyed replica lose it; nothing else of them changes
    ensures r.sockets == (if name in s.docs && name !in r.docs then Orphan(s.sockets, name) else s.sockets)
    ensures forall n :: n in r.docs ==> r.docs[n].conns == s.docs[n].conns && r.docs[n].state == s.docs[n].state
    ensures forall n :: n in r.docs && n != name ==> r.docs[n] == s.docs[n]
    // a replica goes only after its final write, and only with nobody connected
    ensures name in s.docs ==>
      (name !in r.docs <==> s.docs[name].teardown.Writing? && s.docs[name].conns.Keys == {})
    // the final write stores the state snapshotted when it started
    ensures name in s.docs && s.docs[name].teardown.Writing? && writeOk && name in s.store ==>
      r.store[name].content == Some(Gzip.Compress(Codec.EncodeState(s.docs[name].teardown.snapshot)))
      && r.store[name].updates == s.store[name].updates
  {
    if name !in s.docs || !s.docs[name].teardown.Writing? then s
    else
      var was := s.docs[name];
      var store := Persistence.WriteState(name, s.store, was.teardown.snapshot, writeOk);
      if was.conns.Keys == {} then s.(docs := s.docs - {name}, sockets := Orphan(s.sockets, name), store := store)
      else s.(docs := s.docs[name := was.(teardown := NoTeardown)], store := store)
  }

  /** The bus subscriber: a publication on the update channel for a replica
      this server holds is merged with origin 'redis'; anything else is
      ignored. */
  function BusMessage(s: Server, channel: string, p: Publication, io: Persistence.Io): (r: Server)
    ensures channel != Channel || p.docName !in s.docs ==> r == s
    // a merge from the bus is never published again
    ensures r.published == s.published && r.docs.Keys == s.docs.Keys
    ensures channel == Channel && p.docName in s.docs ==>
      r.docs[p.docName].state == s.docs[p.docName].state + p.update
  {
    if channel == Channel && p.docName in s.docs then ApplyDelta(s, p.docName, p.update, FromRedis, io)
    else s
  }

  /** One task of the event loop. */
  datatype Event =
    | UpgradeRequest(conn: ConnId, url: string, urlParses: bool, tokenVerifies: bool)
    | Inbound(conn: ConnId, message: Protocol.Message, io: Persistence.Io)
    | PeerLeft(conn: ConnId)
    | SendError(conn: ConnId)
    | SocketClosed(conn: ConnId)
    | LoadDone(name: string, readOk: bool, io: Persistence.Io)
    | TeardownResumed(name: string)
    | WriteDone(name: string, writeOk: bool)
    | Bus(channel: string, publication: Publication, io: Persistence.Io)

  /** The server, with the corrected completion of the final write:
      `WriteDone` runs `TeardownFinish`, not `TeardownFinishAsWritten`. */
  function Step(s: Server, e: Event): Server {
    match e
    case UpgradeRequest(c, url, parses, ok) => Upgrade(s, c, url, parses, ok)
    case Inbound(c, m, io) => Receive(s, c, m, io)
    case PeerLeft(c) => PeerGone(s, c)
    case SendError(c) => SendFailed(s, c)
    case SocketClosed(c) => Closed(s, c)
    case LoadDone(name, ok, io) => LoadCompleted(s, name, ok, io)
    case TeardownResumed(name) => TeardownCheck(s, name)
    case WriteDone(name, ok) => TeardownFinish(s, name, ok)
    case Bus(channel, p, io) => BusMessage(s, channel, p, io)
  }

  function Run(s: Server, events: seq<Event>): Server
    decreases |events|
  {
    if |events| == 0 then s else Run(Step(s, events[0]), events[1..])
  }

  /** The server when it starts listening: no replicas, no sockets. */
  function Start(store: Persistence.Store): Server {
    Server(map[], map[], map[], store, [], Metrics.Initial)
  }

  /** Every registered connection belongs to a live socket opened for that
      document. */
  predicate Registered(s: Server) {
    forall name, c :: name in s.docs && c in s.docs[name].conns ==>
      c in s.sockets && s.sockets[c].docName == name
  }

  /** Every open socket is registered with a live replica, so that updates
      reach it. */
  predicate Reachable(s: Server) {
    forall c :: c in s.sockets && s.sockets[c].open ==>
      s.sockets[c].docName in s.docs && c in s.docs[s.sockets[c].docName].conns
  }

  /** No connection ever controls an awareness id: connections are
      registered with an empty set and nothing adds to it. */
  predicate NoControlledIds(s: Server) {
    forall name, c :: name in s.docs && c in s.docs[name].conns ==> s.docs[name].conns[c] == {}
  }

  /** Every replica has its fan-out listener. */
  predicate Listening(s: Server) {
    forall name :: name in s.docs ==> s.docs[name].hasRedisListener
  }

  /** A socket keeps its replica while it is open, and a socket that keeps
      its replica names one the server holds. */
  predicate Attached(s: Server) {
    forall c :: c in s.sockets ==>
      && (s.sockets[c].open ==> s.sockets[c].replicaLive)
      && (s.sockets[c].replicaLive ==> s.sockets[c].docName in s.docs)
  }

  predicate Inv(s: Server) {
    && Registered(s)
    && Reachable(s)
    && Attached(s)
    && NoControlledIds(s)
    && Listening(s)
    && s.sockets.Keys <= s.outbox.Keys
    // the connection gauge counts the sockets whose 'close' has not fired
    && s.metrics.activeConnections == |s.sockets.Keys|
  }
}
