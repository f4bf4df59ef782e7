# CoLab collaboration core in Dafny

This project models the real-time core of CoLab, a collaborative Markdown
editor. Its backend keeps one in-memory Yjs replica per document. It syncs
those replicas with browser clients over WebSockets, persists them as an
event log with periodic gzip snapshots, and fans updates out to other
server instances over a Redis channel. The model covers:

- the session and replica manager (`getYDoc`, `send`, `closeConn`,
  `setupWSConnection`). It is a sequential state machine (`Session`) whose
  events are:
  - an upgrade request;
  - an inbound message;
  - a socket leaving the OPEN state;
  - a failed send;
  - a socket's `close` event;
  - the end of a replica's initial load;
  - the two halves of a replica teardown;
  - a message from the bus.
- the persistence adapter (`bindState`'s update listener and loader,
  `writeState`), in `Persistence`;
- the upgrade gate, the fan-out bridge and the name extraction, in `Gate`
  and `Session`;
- the CRDT the server relies on, in `Crdt`. A replica's state is a set of
  update ids, and merging is union.
- slug generation (`Slug`);
- the Markdown toolbar's `insertFormat` and `insertBlock` (`Markdown`);
- the client hook's server URL, room, presence and int32 colour hash
  (`Hook`);
- the character-sum colour (`Colors`);
- the metrics counters (`Metrics`);
- the bearer-token middleware (`Auth`);
- the two client stores (`UiStore`, `AuthStore`).

Libraries whose code is not part of the model get stand-ins:

- The Yjs state encoding is replaced by a varint codec (`Codec`), with a
  proved round trip.
- gzip is replaced by the RFC 1952 member header around the payload
  (`Gzip`).
- y-protocols messages become a datatype (`Protocol`).

Token verification, URL parsing of the upgrade request, the session
lookup, database I/O results and random bytes are oracles passed in as
parameters. `Session.Inv` is the reachability invariant.
`SessionProofs.RunInv` proves that every run of events preserves it, for
the server whose final-write completion is the corrected
`Session.TeardownFinish`. With the completion as written
(`Session.TeardownFinishAsWritten`) the invariant fails, as
`SessionProofs.TeardownRace` shows; see "## Findings".

A Step1 from a peer that already has everything is still answered, with an
empty Step2. The reply encoder always holds more than one byte: the outer
tag plus a sub-message of at least two bytes. So the `> 1` test never
suppresses a reply (`Protocol.ReplyGate`).

## Model

| member | source | states |
|---|---|---|
| Crdt.Apply | backend/src/services/collaboration.service.ts:116-123 | merging a delta yields the union, and the update event carries exactly the part of the delta that was new |
| Crdt.Diff | backend/src/collab/y-websocket-utils.ts:149 | the Step2 answer holds only what the replica has and the peer lacks, and with the peer's vector it covers the replica |
| Crdt.ApplyAllIsUnion | backend/src/services/collaboration.service.ts:119-123 | applying a sequence of deltas in order is a union with all of them |
| Crdt.Convergence | backend/scripts/test-conflict.js:42-50 | two replicas that receive the same deltas in any order and with any duplication converge |
| Crdt.ApplyIdempotent | backend/src/services/collaboration.service.ts:93-97 | re-applying an integrated delta changes nothing and raises no update event |
| Crdt.ApplyCommutes | backend/scripts/test-conflict.js:42-43 | two deltas applied in either order give the same state |
| Codec.DecodeState | backend/src/services/collaboration.service.ts:116 | decoding succeeds only on non-empty input, so an empty or malformed blob is rejected as `Y.applyUpdate` rejects it |
| Codec.StateRoundTrip | backend/src/services/collaboration.service.ts:135-139 | decoding the encoding of a state gives the state back |
| Gzip.Compress | backend/src/services/collaboration.service.ts:64-65 | a compressed snapshot is longer than two bytes and starts with the magic bytes 0x1F 0x8B |
| Gzip.Decompress | backend/src/services/collaboration.service.ts:109 | decompression succeeds only on a member that some compression produced |
| Gzip.LooksGzipped | backend/src/services/collaboration.service.ts:107 | every blob the decompressor accepts passes the magic-byte test, and content of two bytes or fewer never does |
| Gzip.RoundTrip | backend/src/services/collaboration.service.ts:105-110 | decompressing a compressed blob gives it back |
| Gzip.Unwrap | backend/src/services/collaboration.service.ts:102-113 | content is decompressed only when it is longer than two bytes, starts with the magic bytes, and decompresses; otherwise it is used raw |
| Gzip.UnwrapCompressed | backend/src/services/collaboration.service.ts:102-113 | every snapshot the service writes is unwrapped to what was compressed |
| Protocol.MessageType | backend/src/collab/y-websocket-utils.ts:141-160 | tag 0 is exactly a sync message and tag 1 exactly an awareness message |
| Protocol.SyncReply | backend/src/collab/y-websocket-utils.ts:146-149 | only a Step1 produces a reply, and that reply is a Step2 with the diff against the advertised vector |
| Protocol.ReplyGate | backend/src/collab/y-websocket-utils.ts:147-154 | the `> 1` length test lets a reply through exactly for a Step1, and the reply holds exactly the ids the peer lacks |
| Persistence.Append | backend/src/services/collaboration.service.ts:50-59 | an append adds one record at the end of the document's log and touches no other document |
| Persistence.WriteSnapshot | backend/src/services/collaboration.service.ts:64-73 | a successful write replaces only the document's content, with the compressed full state; a missing row or a failed write changes nothing |
| Persistence.OnUpdate | backend/src/services/collaboration.service.ts:36-81 | while loading, nothing is counted or written. After loading: one record per successful append; a snapshot exactly when the count reaches 50 after a successful append and snapshot write, after which the count resets; failures leave the count incremented |
| Persistence.RecordAllCounts | backend/src/services/collaboration.service.ts:44-77 | with all writes succeeding, n updates after count c give (c+n)/50 snapshots, leave the count at (c+n)%50, and append n records |
| Persistence.SixtyUpdatesOneSnapshot | backend/scripts/test-snapshot.js:70 | sixty updates on a freshly loaded document give exactly one snapshot and leave the count at ten |
| Persistence.WriteState | backend/src/services/collaboration.service.ts:135-151 | the final write replaces the content with the gzip-framed full state, whatever the counter, keeps the log, and a failed write changes nothing |
| Persistence.DecodeUntilFailure | backend/src/services/collaboration.service.ts:119-128 | the loader applies the logged updates in order and stops at the first one that does not decode |
| Persistence.LoadDeltas | backend/src/services/collaboration.service.ts:88-124 | a missing row loads nothing, and so does a snapshot that does not decode, since its throw also skips the log; otherwise the decoded snapshot comes first when there is one, then the logged updates in order up to the first that does not decode |
| Persistence.DecodeAllIsLogged | backend/src/services/collaboration.service.ts:119-124 | for a log of decodable blobs, the loaded updates unite to the union of the whole log |
| Persistence.LoadIsUnion | backend/src/services/collaboration.service.ts:88-124 | loading a well-formed record gives the replica's state united with the snapshot and every logged update |
| Persistence.OnUpdateKeepsCovered | backend/src/services/collaboration.service.ts:48-77 | the listener never stores anything the replica's state lacks |
| Persistence.ReloadRoundTrip | backend/scripts/test-live-typing.js:141 | after the final write of state x over a record covered by x, reloading into a fresh replica gives exactly x |
| Metrics.IncrementConnections | backend/src/services/metrics.service.ts:28-30 | adds one to the connection gauge and changes no other field |
| Metrics.DecrementConnections | backend/src/services/metrics.service.ts:32-34 | subtracts one, floored at zero, so the gauge is never negative; no other field changes |
| Metrics.IncrementHttpRequests | backend/src/services/metrics.service.ts:36-38 | adds one to the request counter only |
| Metrics.IncrementWsMessages | backend/src/services/metrics.service.ts:40-42 | adds one to the message counter only |
| Metrics.SetLastSnapshotDuration | backend/src/services/metrics.service.ts:44-46 | sets the duration and nothing else |
| Metrics.GetMetrics | backend/src/services/metrics.service.ts:48-57 | the report carries the counters unchanged and only a fresh system block |
| Metrics.RunFromValid | backend/src/services/metrics.service.ts:16-46 | from valid counters, any sequence of calls keeps them valid; the gauge never exceeds the number of connects; each counter counts its calls exactly |
| Metrics.ConnectThenDisconnect | backend/src/services/metrics.service.ts:28-34 | a connect then a disconnect restores the gauge from any valid state |
| Gate.DocSegment | backend/src/services/collaboration.service.ts:206 | there is a segment exactly when the path contains `/collab/` |
| Gate.DocName | backend/src/services/collaboration.service.ts:203-207 | the document name is the segment after `/collab/` in the part before `?`, or `default` when that is absent or empty; it is never empty |
| Gate.QueryParam | backend/src/services/collaboration.service.ts:179 | a query without `&` is one pair: it yields that pair's value when the pair is non-empty and its name is the key, and nothing otherwise |
| Gate.QueryParamSplit | backend/src/services/collaboration.service.ts:179 | pairs are read left to right: the first pair whose name is the key decides, and later pairs are only read when it misses |
| Gate.Upgrade | backend/src/services/collaboration.service.ts:177-199 | the listener throws, leaving the socket unanswered, exactly when `new URL` rejects the request; otherwise a request is admitted exactly when its `token` parameter is present, non-empty and verifies, and then for the document its URL names, and every other request gets the 401 |
| Session.GetYDoc | backend/src/collab/y-websocket-utils.ts:35-78 | an existing replica is returned unchanged; otherwise exactly one new, loading replica is registered under the name |
| Session.CloseSocket | backend/src/collab/y-websocket-utils.ts:116 | only the socket's readyState leaves OPEN |
| Session.CloseConn | backend/src/collab/y-websocket-utils.ts:96-117 | a registered connection is removed together with the awareness entries it controls, and the teardown is scheduled when it was the last one; an unregistered one leaves every replica as it was; the socket is closed in every case |
| Session.Send | backend/src/collab/y-websocket-utils.ts:80-94 | an open socket gets the message queued; any other connection is closed instead |
| Session.Prune | backend/src/collab/y-websocket-utils.ts:96-115 | closing a broadcast's stale connections keeps only the live ones, drops no awareness entry while no ids are controlled, and schedules a teardown only when nobody is left |
| Session.DeliverAll | backend/src/collab/y-websocket-utils.ts:70 | each target's queue grows by the message, and every other queue stays as it was |
| Session.Broadcast | backend/src/collab/y-websocket-utils.ts:58-60 | every registered open connection receives the message, the others are closed, and nothing else changes |
| Session.OnUpdateEvent | backend/src/collab/y-websocket-utils.ts:65-71 | the three update listeners: the Update is broadcast to every open connection, the persistence listener records it, and it is published unless it came from the bus |
| Session.ApplyDelta | backend/src/collab/y-websocket-utils.ts:149 | the replica's state grows by the delta; nothing happens when the delta holds nothing new; the listeners run on the new part only; a loading replica's store and tracker are untouched |
| Session.MergeAwareness | backend/src/collab/y-websocket-utils.ts:157 | entries with a presence are set, departures are removed, and every other client is kept |
| Session.Changed | backend/src/collab/y-websocket-utils.ts:43-52 | the changed clients are those the update carries a presence for, plus the known clients it removes |
| Session.Snapshot | backend/src/collab/y-websocket-utils.ts:55 | the encoded awareness update holds exactly the requested clients, as the table now has them |
| Session.ApplyAwareness | backend/src/collab/y-websocket-utils.ts:43-63 | an update that changes nothing is silent; otherwise the table is merged and the changed entries are broadcast |
| Session.Receive | backend/src/collab/y-websocket-utils.ts:138-162 | every message on an admitted socket is counted, whether the socket is open or already closing; it is dispatched to the replica the socket was opened on while that replica lives, and only counted once a teardown has destroyed it; a socket whose 'close' has fired receives nothing |
| Session.ReceiveSync | backend/src/collab/y-websocket-utils.ts:146-155 | a Step2 or an Update is merged into the replica and answered with nothing; a Step1 leaves the replica alone and is answered, on an open socket, with one Step2 of what the peer lacks, or closes the connection otherwise; the message counters stay |
| Session.Register | backend/src/collab/y-websocket-utils.ts:119-126 | the connection is counted, its socket is opened, and it is registered with no controlled ids on the replica `getYDoc` returns |
| Session.Connect | backend/src/services/collaboration.service.ts:201-230 | the connection handler opens the socket for the named document, counts the connection, and leaves the store and the bus untouched |
| Session.Listen | backend/src/services/collaboration.service.ts:221-229 | the replica gets the fan-out listener; its state and every other part of the server stay |
| Session.Upgrade | backend/src/services/collaboration.service.ts:177-199 | a request that throws or is rejected, or that reuses a known connection id, leaves the server as it was; a fresh request gets a socket exactly when the gate admits it, open and for the document its URL names |
| Session.Record | backend/src/services/collaboration.service.ts:36-81 | after the broadcast only the replica's persistence tracker and the store change; while the replica loads they do not change at all, and afterwards a successful append adds the encoded update to the log; the update is published on the bus exactly when the fan-out listener runs (lines 223-227) |
| Session.Greeting | backend/src/collab/y-websocket-utils.ts:128-172 | a new connection gets the awareness entries of every known client when there are any, and then always a Step1 with the replica's state |
| Session.Greet | backend/src/collab/y-websocket-utils.ts:128-172 | on an open socket, exactly the greeting is queued |
| Session.PeerGone | backend/src/collab/y-websocket-utils.ts:80-84 | the socket stops being open and nothing else changes |
| Session.SendFailed | backend/src/collab/y-websocket-utils.ts:86-93 | a failed send closes the socket and unregisters the connection |
| Session.Closed | backend/src/collab/y-websocket-utils.ts:164-167 | the close event unregisters the connection, removes the socket and decrements the gauge |
| Session.LoadCompleted | backend/src/services/collaboration.service.ts:85-133 | the loaded deltas are merged in order without being recorded again, and the loading flag is cleared even when the read fails |
| Session.ApplyDeltas | backend/src/services/collaboration.service.ts:116-123 | the loader's merges give the fold of the deltas, and while loading the store is untouched |
| Session.TeardownCheck | backend/src/collab/y-websocket-utils.ts:103-107 | nothing happens before the load resolves; the final write starts only with nobody connected, on the state of that moment; a connection in between abandons the teardown |
| Session.TeardownFinishAsWritten | backend/src/collab/y-websocket-utils.ts:106-111 | as written, the completed write always destroys and unregisters the replica, and every socket opened for it loses it |
| Session.Orphan | backend/src/collab/y-websocket-utils.ts:108-109 | destroying a replica takes it from exactly the sockets opened for its document, and changes nothing else about any socket |
| Session.TeardownFinish | backend/src/collab/y-websocket-utils.ts:103-113 | the replica goes only when its write completes with nobody connected, and then the sockets opened for it lose it; the write stores the state snapshotted when it started and keeps the log |
| Session.BusMessage | backend/src/services/collaboration.service.ts:165-174 | other channels and unknown documents are ignored; a bus update is merged and never published again |
| SessionProofs.StartInv | backend/src/collab/y-websocket-utils.ts:28 | the server starts in the invariant |
| SessionProofs.CloseConnInv | backend/src/collab/y-websocket-utils.ts:96-117 | `closeConn` keeps the invariant |
| SessionProofs.SendInv | backend/src/collab/y-websocket-utils.ts:80-94 | `send` keeps the invariant |
| SessionProofs.BroadcastInv | backend/src/collab/y-websocket-utils.ts:70 | a broadcast keeps the invariant |
| SessionProofs.OnUpdateEventInv | backend/src/collab/y-websocket-utils.ts:65-71 | the update listeners keep the invariant |
| SessionProofs.ApplyDeltaInv | backend/src/collab/y-websocket-utils.ts:149 | a merge keeps the invariant |
| SessionProofs.ReceiveInv | backend/src/collab/y-websocket-utils.ts:138-162 | handling an inbound message keeps the invariant |
| SessionProofs.ApplyAwarenessInv | backend/src/collab/y-websocket-utils.ts:157 | an awareness update keeps the invariant |
| SessionProofs.ConnectInv | backend/src/services/collaboration.service.ts:201-230 | an admitted connection keeps the invariant |
| SessionProofs.UpgradeInv | backend/src/services/collaboration.service.ts:177-199 | every upgrade request keeps the invariant |
| SessionProofs.PeerGoneInv | backend/src/collab/y-websocket-utils.ts:81 | a socket leaving OPEN keeps the invariant |
| SessionProofs.SendFailedInv | backend/src/collab/y-websocket-utils.ts:86-93 | a failed send keeps the invariant |
| SessionProofs.ClosedInv | backend/src/collab/y-websocket-utils.ts:164-167 | a close event keeps the invariant, including the gauge counting live sockets |
| SessionProofs.LoadCompletedInv | backend/src/services/collaboration.service.ts:85-133 | the end of a load keeps the invariant |
| SessionProofs.TeardownCheckInv | backend/src/collab/y-websocket-utils.ts:106-107 | the teardown re-check keeps the invariant |
| SessionProofs.TeardownFinishInv | backend/src/collab/y-websocket-utils.ts:103-113 | the corrected completion of the final write keeps the invariant |
| SessionProofs.BusMessageInv | backend/src/services/collaboration.service.ts:165-174 | a bus message keeps the invariant |
| SessionProofs.StepInv | backend/src/collab/y-websocket-utils.ts:119-175 | for the server whose final-write completion is the corrected `Session.TeardownFinish`, every event keeps the invariant: each open socket is registered with a live replica, an open socket's replica has not been destroyed and a socket whose replica lives names one the server holds, each registration belongs to a live socket for that document, no connection controls an awareness id, and every replica has its fan-out listener |
| SessionProofs.RunInv | backend/src/collab/y-websocket-utils.ts:119-175 | for the server whose final-write completion is the corrected `Session.TeardownFinish`, every run of events from an invariant state keeps it |
| SessionProofs.UpgradeGreets | backend/src/collab/y-websocket-utils.ts:125-172 | an admitted upgrade opens and counts the socket, registers it with no controlled ids on the named replica, attaches the fan-out listener and queues exactly the greeting; one that throws or is rejected changes nothing |
| SessionProofs.ConnectGreets | backend/src/services/collaboration.service.ts:201-230 | the connection handler on a fresh connection registers it with no controlled ids on the named replica, opens and counts its socket, attaches the fan-out listener, and queues exactly the greeting |
| SessionProofs.ConnectFrame | backend/src/services/collaboration.service.ts:201-230 | a new connection changes no other replica and no other connection's queue |
| SessionProofs.GreetFrame | backend/src/collab/y-websocket-utils.ts:128-172 | greeting an open socket changes nothing but that socket's queue |
| SessionProofs.Step1Answered | backend/src/collab/y-websocket-utils.ts:146-154 | a Step1 is answered on that connection only, with the Step2 of exactly what the sender lacks; replicas and store are untouched |
| SessionProofs.ReceiveMerges | backend/src/collab/y-websocket-utils.ts:146-155 | a Step2 or Update from any socket whose replica lives, open or closing, is counted, merged and not answered |
| SessionProofs.ClosingSocketMerges | backend/src/collab/y-websocket-utils.ts:138-155 | an update sent on a socket after its peer went away is still counted, merged and, when new, published on the bus |
| SessionProofs.TornDownSocketCounted | backend/src/collab/y-websocket-utils.ts:108-111 | after a teardown destroys a replica, a frame on a socket opened for it is counted and changes nothing else |
| SessionProofs.DeltaOutbox | backend/src/collab/y-websocket-utils.ts:65-71 | after a merge, every open registered connection is queued the new part as an Update, and nothing is queued when nothing is new |
| SessionProofs.UpdateEchoed | backend/src/collab/y-websocket-utils.ts:65-71 | a client's update grows the replica, and every open connection of the document, the sender included, receives the new part |
| SessionProofs.UnknownIgnored | backend/src/collab/y-websocket-utils.ts:159-160 | a message of unknown type on any admitted socket is only counted |
| SessionProofs.AwarenessMerged | backend/src/collab/y-websocket-utils.ts:156-158 | an awareness message merges the table and leaves state, store and bus alone |
| SessionProofs.CloseConnIdempotent | backend/src/collab/y-websocket-utils.ts:96-117 | closing a connection twice is closing it once |
| SessionProofs.PublishedOnce | backend/src/services/collaboration.service.ts:221-227 | a local update with something new is published exactly once, carrying the new part; a bus update is not published |
| SessionProofs.UpdateLogged | backend/src/services/collaboration.service.ts:44-59 | once loaded, a new client update appends exactly one record of its new part |
| SessionProofs.TeardownRace | backend/src/collab/y-websocket-utils.ts:106-111 | a connection admitted during the final write is left open but unreachable by the code as written, while the corrected completion keeps the replica and the invariant |
| SessionProofs.OrphanedConnection | backend/src/collab/y-websocket-utils.ts:106-111 | the race on a concrete server: document "d" being written out, connection 0 arriving |
| Slug.Collapse | backend/src/utils/slug.ts:16 | the result holds only `[a-z0-9-]`, has no double dash, keeps the letters and digits in order, is no longer than the input, and starts with a dash only when the input starts with another character |
| Slug.SeparatorRun | backend/src/utils/slug.ts:16 | a maximal run of other characters, followed by a kept character or the end, becomes exactly one dash |
| Slug.CollapseJoin | backend/src/utils/slug.ts:16 | kept characters stay and the maximal run of other characters after them becomes one dash in front of the collapsed rest, so each maximal run becomes exactly one dash |
| Slug.DropLeading | backend/src/utils/slug.ts:17 | exactly the leading dashes are removed |
| Slug.DropTrailing | backend/src/utils/slug.ts:17 | exactly the trailing dashes are removed |
| Slug.Take | backend/src/utils/slug.ts:18 | the first n characters, or all of them |
| Slug.Slugify | backend/src/utils/slug.ts:13-18 | a slugified title has at most 40 characters and never starts with a dash; one shorter than the cap never ends with a dash either, so only the cut can leave a trailing dash |
| Slug.RandomSuffix | backend/src/utils/slug.ts:4-11 | one alphabet character per random byte, chosen by the byte modulo 36 |
| Slug.AlphabetOrder | backend/src/utils/slug.ts:3 | the suffix alphabet has 36 characters: the letters in order, then the digits |
| Slug.SuffixReachable | backend/src/utils/slug.ts:3-11 | every string over the alphabet is a possible suffix |
| Slug.GenerateSlug | backend/src/utils/slug.ts:20-23 | base, dash and six-character suffix; the base is `doc` for a missing or empty title and the slugified title otherwise; only `[a-z0-9-]`, at most 47 characters |
| Slug.SlugShape | backend/src/utils/slug.ts:13-18 | a slugified title has only `[a-z0-9-]`, at most 40 characters, no leading dash and no double dash, and its letters and digits are those of the title, cut only by the cap |
| Slug.SlugifyFixpoint | backend/src/utils/slug.ts:13-18 | an already clean slug is left unchanged |
| Slug.TrailingDashSurvives | backend/src/utils/slug.ts:17-18 | trimming comes before the cut, so a 39-letter word and another word give a base ending in a dash |
| Slug.PunctuationTitle | backend/src/utils/slug.ts:20-22 | a title of punctuation only gives a slug starting with a dash |
| Slug.GeneratedSlugRoundTrip | backend/src/utils/slug.ts:20-23 | the server reads every generated slug back as the document name, and the token back as `token` |
| Colors.FirstUnit | frontend/src/utils/colors.ts:13 | the first UTF-16 unit of a code point: the code point itself below U+10000, otherwise its high surrogate |
| Colors.ColorForUser | frontend/src/utils/colors.ts:12-15 | the colour is always a palette entry, and the empty id gets the first one |
| Colors.UnitSumAppend | frontend/src/utils/colors.ts:13 | the sum over a concatenation is the sum of the parts |
| Colors.UnitSumPermutation | frontend/src/utils/colors.ts:13 | the sum depends only on the multiset of characters |
| Colors.OrderIndependent | frontend/src/utils/colors.ts:13-15 | any rearrangement of an id gets the same colour |
| Colors.AnonymousColor | frontend/src/utils/colors.ts:12-15 | a missing id is coloured as "anonymous", which gets the second palette entry |
| Colors.EightCopiesInvisible | frontend/src/utils/colors.ts:13-15 | appending eight copies of any character leaves the colour unchanged |
| Hook.HttpToWs | frontend/src/hooks/useCollaborativeDocument.ts:25 | a leading `http` becomes `ws` and nothing else changes |
| Hook.WsUrl | frontend/src/hooks/useCollaborativeDocument.ts:7-26 | a set collaboration URL is returned verbatim; no API URL gives `ws://localhost:3000`; otherwise the result starts with `ws` |
| Hook.AddScheme | frontend/src/hooks/useCollaborativeDocument.ts:20-22 | `https://` is prefixed exactly when the text starts with neither `http` nor `ws` |
| Hook.WsUrlCorrected | frontend/src/hooks/useCollaborativeDocument.ts:14-25 | with real scheme tests, every API URL gives a `ws://` or `wss://` URL |
| Hook.SchemeToWs | frontend/src/hooks/useCollaborativeDocument.ts:24-25 | switching the scheme of a URL that has one gives a WebSocket URL |
| Hook.SchemesMapped | frontend/src/hooks/useCollaborativeDocument.ts:19-25 | in both versions http becomes ws and https becomes wss, the rest kept |
| Hook.BareName | frontend/src/hooks/useCollaborativeDocument.ts:15-22 | a bare service name not starting with `http` or `ws` becomes `wss://<name>.onrender.com` in both versions |
| Hook.CorrectedBare | frontend/src/hooks/useCollaborativeDocument.ts:15-22 | the corrected version sends every bare name without a scheme to its Render host over `wss` |
| Hook.WsNameAsWritten | frontend/src/hooks/useCollaborativeDocument.ts:15-22 | as written, a bare name starting with `ws` only gets the Render domain |
| Hook.HttpNameAsWritten | frontend/src/hooks/useCollaborativeDocument.ts:15-25 | as written, a bare name starting with `http` has those four letters replaced by `ws` |
| Hook.NameTakenForScheme | frontend/src/hooks/useCollaborativeDocument.ts:15-25 | `wsapi` gives `wsapi.onrender.com`, which is no WebSocket URL, and `httpapi` gives `wsapi` |
| Hook.NamesCorrected | frontend/src/hooks/useCollaborativeDocument.ts:15-25 | the corrected version gives `wss://wsapi.onrender.com` and `wss://httpapi.onrender.com` |
| Strings.CodeUnits | frontend/src/hooks/useCollaborativeDocument.ts:102-103 | `charCodeAt` sees one or two UTF-16 units per character, each below 2^16 |
| Hook.ToInt32 | frontend/src/hooks/useCollaborativeDocument.ts:103 | the result is a signed 32-bit integer congruent to the input modulo 2^32 |
| Hook.HashStep | frontend/src/hooks/useCollaborativeDocument.ts:103 | one round is congruent modulo 2^32 to `31 * hash + unit`, and differs from `unit - hash` by a signed 32-bit value |
| Hook.Hash | frontend/src/hooks/useCollaborativeDocument.ts:101-104 | the hash after the loop is congruent modulo 2^32 to the polynomial hash with multiplier 31 |
| Hook.HashIsPolynomial | frontend/src/hooks/useCollaborativeDocument.ts:101-104 | the loop computes the polynomial hash with multiplier 31 modulo 2^32, so as an int32 it is Java's `String.hashCode` |
| Hook.HashBound | frontend/src/hooks/useCollaborativeDocument.ts:101-104 | each round moves the hash by less than 2^31 + 2^16, so for ids of up to 4,194,000 units the double arithmetic is exact |
| Hook.HookColor | frontend/src/hooks/useCollaborativeDocument.ts:100-107 | the absolute hash modulo eight always picks a palette entry |
| Hook.LocalPresence | frontend/src/hooks/useCollaborativeDocument.ts:74-79 | the announced user is the signed-in one, named by display name or else e-mail and coloured by id; without a user it is "anonymous", coloured by the slug |
| Hook.PresenceColorStable | frontend/src/hooks/useCollaborativeDocument.ts:74 | a user has one colour in every document and under every name |
| Hook.RoomName | frontend/src/hooks/useCollaborativeDocument.ts:57 | the room is `collab/` followed by the slug |
| Hook.Join | frontend/src/hooks/useCollaborativeDocument.ts:53-62 | a room is joined exactly when there is a slug and a token, with the token as the query |
| Hook.RequestTarget | frontend/src/hooks/useCollaborativeDocument.ts:57-62 | the target is `/` and the room, then `?token=` and the token |
| Hook.JoinNeedsSession | frontend/src/hooks/useCollaborativeDocument.ts:51-54 | signed out, no room is joined; signed in, the room of every non-empty slug is joined |
| Hook.RoomRoundTrip | frontend/src/hooks/useCollaborativeDocument.ts:57-62 | the server parses the request target back into the slug and the token, and admits a verifying token to that document |
| Hook.TargetParsed | backend/src/services/collaboration.service.ts:203-207 | the document name and token read from `/collab/<slug>?token=<t>` are the slug and t |
| Hook.TargetPath | backend/src/services/collaboration.service.ts:205 | the path of the target is everything before its only `?` |
| Hook.RoomSegment | backend/src/services/collaboration.service.ts:206 | the segment of `/collab/<slug>` is the slug |
| Hook.TargetQuery | backend/src/services/collaboration.service.ts:178 | the query of the target is `token=<t>` |
| Hook.TokenPair | backend/src/services/collaboration.service.ts:179 | the query `token=<t>` yields t |
| Markdown.Apply | frontend/src/components/MarkdownToolbar.tsx:17-18 | a change keeps the text before it, puts the inserted text in place, and keeps the text after it |
| Markdown.InsertFormat | frontend/src/components/MarkdownToolbar.tsx:10-26 | the selection is replaced by prefix, text and suffix; the rest of the document is unchanged; the new selection covers exactly the old text |
| Markdown.FormatUnwraps | frontend/src/components/MarkdownToolbar.tsx:13-22 | removing the markers around the new selection gives back the document and the selection |
| Markdown.LineStart | frontend/src/components/MarkdownToolbar.tsx:30 | the start of the cursor's line: no line break in between, and a break or the document start before it |
| Markdown.LineEnd | frontend/src/components/MarkdownToolbar.tsx:30 | the end of the cursor's line: no line break in between, and a break or the document end after it |
| Markdown.PrefixMatch | frontend/src/components/MarkdownToolbar.tsx:34-35 | a prefix is recognised exactly when the line starts with one to three `#`, a `-`, one or more digits and a `.`, or a `>`, followed by a white-space character; its length then covers that marker and the white space, so it is 2 for `-` and `>` |
| Markdown.PrefixMatchIsRegex | frontend/src/components/MarkdownToolbar.tsx:34-35 | `PrefixMatch` gives length n exactly when the regex matches the line with a prefix of length n |
| Markdown.NoPrefixIsNoMatch | frontend/src/components/MarkdownToolbar.tsx:34-35 | no prefix is recognised exactly when the regex matches no prefix of the line |
| Markdown.BlockChange | frontend/src/components/MarkdownToolbar.tsx:37-60 | a recognised prefix equal to the requested one is removed, a different one is replaced, and otherwise the prefix is inserted at the line start |
| Markdown.MapPos | frontend/src/components/MarkdownToolbar.tsx:44-59 | positions before the change stay; positions after it shift by the change in length |
| Markdown.MapSelection | frontend/src/components/MarkdownToolbar.tsx:44-59 | a cursor stays a cursor, and one at the start of the change stays put; a selection wholly before the change is kept; one wholly after it moves by the change in length |
| Markdown.BlockEdit | frontend/src/components/MarkdownToolbar.tsx:29-60 | the change starts at the cursor's line start and ends within that line |
| Markdown.InsertBlock | frontend/src/components/MarkdownToolbar.tsx:28-63 | only the prefix region of the cursor's line changes |
| Markdown.ToolbarPrefixRecognised | frontend/src/components/MarkdownToolbar.tsx:71-78 | every toolbar prefix is recognised at a line start, as exactly itself |
| Markdown.HeadStaysOnLine | frontend/src/components/MarkdownToolbar.tsx:30-60 | the cursor stays on its line, whose start is kept |
| Markdown.BlockOutcome | frontend/src/components/MarkdownToolbar.tsx:37-60 | the document after each of the three outcomes, in terms of the current line |
| Markdown.ToggleTwice | frontend/src/components/MarkdownToolbar.tsx:42-60 | on a line without a prefix, pressing the same toolbar button twice gives the document back |
| Markdown.FirstPress | frontend/src/components/MarkdownToolbar.tsx:55-60 | the first press inserts the prefix at the line start, and the line becomes the prefix plus the old line |
| Markdown.SecondPress | frontend/src/components/MarkdownToolbar.tsx:42-47 | a second press finds its own prefix and removes it |
| Markdown.OtherPrefixesRecognised | frontend/src/components/MarkdownToolbar.tsx:34-35 | `12. x`, `#` then a tab, and `>` then a no-break space are recognised prefixes beyond the toolbar's; `#### x` is not |
| Markdown.NumberedReplaced | frontend/src/components/MarkdownToolbar.tsx:48-54 | the heading button on `12. x` replaces the number and gives `# x` |
| Markdown.ToggleReplacesOtherPrefix | frontend/src/components/MarkdownToolbar.tsx:48-54 | on a line with another prefix, two presses do not restore it: `- x` becomes `# x` and then `x` |
| Markdown.CursorFollowsText | frontend/src/components/MarkdownToolbar.tsx:44-60 | a cursor behind the old prefix keeps pointing at the same character |
| Auth.BearerToken | backend/src/middleware/auth.middleware.ts:18 | the second space-separated word holds no space and lies within the header |
| Auth.RequestToken | backend/src/middleware/auth.middleware.ts:16-18 | a Bearer header supplies the token; otherwise the cookie does |
| Auth.Authenticate | backend/src/middleware/auth.middleware.ts:14-41 | every rejection is a 401: no token is "Unauthorized"; a token that fails verification, or whose session lookup fails, is "Invalid or expired token"; a verified token whose session is missing or someone else's is "Session expired"; a request is admitted exactly when its token verifies and its session belongs to the token's user, and then as that user |
| Auth.BearerRoundTrip | backend/src/middleware/auth.middleware.ts:18 | `Bearer <token>` gives back any token without a space, and the cookie is not consulted |
| Auth.EmptyBearerIgnoresCookie | backend/src/middleware/auth.middleware.ts:18-22 | a Bearer header with nothing after the prefix is "Unauthorized", even with a valid cookie |
| Auth.SessionDecides | backend/src/middleware/auth.middleware.ts:24-40 | for a verifying token, a failed lookup is "Invalid or expired token", another user's or a missing session is "Session expired", and the token user's session admits |
| Auth.CookieFallback | backend/src/middleware/auth.middleware.ts:17-18 | without a Bearer header the cookie alone decides |
| AuthStore.SetAuth | frontend/src/stores/authStore.ts:25 | all three fields take the given values |
| AuthStore.SetToken | frontend/src/stores/authStore.ts:26 | only the token changes |
| AuthStore.Logout | frontend/src/stores/authStore.ts:27 | all three fields are cleared |
| AuthStore.LogoutResets | frontend/src/stores/authStore.ts:22-27 | logging out is idempotent and returns to the initial state; logging in does not depend on the state before |
| AuthStore.RefreshKeepsSession | frontend/src/stores/authStore.ts:25-27 | a refreshed token keeps a session signed in; after a logout it gives a token without a user |
| UiStore.ToggleTheme | frontend/src/stores/uiStore.ts:19 | the theme flips and nothing else changes |
| UiStore.SetFontFamily | frontend/src/stores/uiStore.ts:20 | only the font family changes |
| UiStore.SetFontSize | frontend/src/stores/uiStore.ts:21 | only the font size changes |
| UiStore.ToggleInvolution | frontend/src/stores/uiStore.ts:16-19 | toggling twice is the identity; the initial theme is dark |
| UiStore.SettersOverwrite | frontend/src/stores/uiStore.ts:20-21 | a later call wins, and setting the old value back undoes a call |
| UiStore.SettersCommute | frontend/src/stores/uiStore.ts:19-21 | the setters and the toggle commute |

## Left out

- Byte formats. The byte layouts of Yjs updates, the y-protocols sync and awareness messages, and lib0 are library code outside the model. State bytes use a stand-in varint codec. Messages are a datatype, and malformed message bytes are not modelled.
- gzip. The DEFLATE stream and the CRC32 and ISIZE trailer are not modelled. A compressed blob is the RFC 1952 header followed by the payload, and only the magic-byte test is exact.
- Awareness clocks and timeouts. The clock comparison of `applyAwarenessUpdate` and the 30-second awareness timeout are not modelled: an entry with a presence always overwrites.
- Concurrent execution. Asynchronous interleaving is reduced to one event per step.
  - Several teardowns of one replica that are pending at the same time collapse into one marker.
  - A teardown resumed after a new replica was created under the same name is not modelled.
- The persistence setter. `setPersistence` runs before the server accepts connections, so the null-persistence branches of `getYDoc` and `closeConn` are not modelled.
- The default document name of `setupWSConnection`. Its default name derived from `req.url` is never used, because the service always passes the name.
- Bus messages. A bus message whose JSON lacks `docName` or `update` is not modelled, and neither is the base64 text of the update. The subscription and the publication are a list of records.
- Database I/O. Prisma and Redis connection errors other than the ones modelled (a failed append, a failed snapshot write, a failed read) are not modelled.
- Session.Connect: its own contract states the socket, the counter, the store and the bus. The registration and the greeting are stated by `SessionProofs.ConnectGreets`, and the frame on other replicas and queues by `SessionProofs.ConnectFrame`.
- Session.Receive: a socket can lose its replica while still open only through the completion as written (`Session.TeardownFinishAsWritten`). In the source such a socket still gets a Step1 answered from the destroyed replica. The model only counts the message, because it does not keep destroyed replicas.
- Slug.Slugify: its own contract states the length cap and the dashes at either end; the alphabet, the single dashes and the kept letters and digits are stated by `Slug.SlugShape`.
- Slug.Lower: exact only for ASCII capitals, the dotted capital I and the Kelvin sign. Every other character is kept as it is, which is enough for what `[^a-z0-9]+` keeps.
- Gate.Upgrade: `URLSearchParams` percent-decodes names and values as UTF-8, and the model decodes only `+`. A query that spells `token` or its value with percent escapes is read differently: `?%74oken=abc` is admitted by the source and answered with a 401 in the model. Clients built from `Hook.RequestTarget` never send such a query.
- Gate.Upgrade: whether `new URL` accepts the request is an oracle, since the WHATWG host parser is not modelled. What the process does with the exception after it leaves the listener is outside the model; the server's replicas stay as they were.
- Hook.RoomRoundTrip: requires a token over the base64url alphabet and a slug over `[a-z0-9-]`. The percent-encoding of other characters by the provider and by `URLSearchParams` is not modelled.
- Hook.RequestTarget: assumes the server URL has no path of its own.
- The hook's IndexedDB persistence, status events and cleanup on unmount are not modelled. Neither is the provider's reconnect logic.
- Markdown.InsertBlock: only the main selection is modelled; other selection ranges are not.
- Markdown.MapSelection: a range that overlaps the change is only bounded, by `Markdown.MappedWithin`; its exact mapped ends are not stated.
- Markdown positions count characters, while CodeMirror counts UTF-16 units. The two agree for text within the Basic Multilingual Plane.
- Metrics.GetMetrics: the operating-system block (memory, load average, uptime) is a parameter. The counters are integers and the duration is a real; IEEE double rounding is not modelled.
- Hook.HashBound: for ids longer than 4,194,000 UTF-16 units the double arithmetic of the source may round. Beyond that length the model's integers are not claimed to match.
- Auth.Authenticate: a verified payload without `userId` or `email` is not modelled.
- The zustand persistence of both stores to local storage is not modelled. Neither are the `persist` middleware's rehydration and the React subscription.

## Findings

| source | as written | input that shows it | evidently intended | confidence | as-written member | corrected member |
|---|---|---|---|---|---|---|
| backend/src/collab/y-websocket-utils.ts:106-111 | after the final `writeState` resolves, the replica is destroyed and its name deleted without checking `conns` again | the last client leaves; the write starts; a client connects to the same document; the write completes. The new socket stays open but no replica lists it, so it never receives updates, and a later connection creates a second, fresh replica | re-check that nobody is connected once the write completes, and keep the replica otherwise, as the comment on line 107 intends | not executed | Session.TeardownFinishAsWritten (SessionProofs.TeardownRace, SessionProofs.OrphanedConnection) | Session.TeardownFinish (SessionProofs.TeardownFinishInv) |
| frontend/src/hooks/useCollaborativeDocument.ts:15-25 | the tests `startsWith('http')` and `startsWith('ws')` stand in for "has a scheme" | `VITE_API_URL=wsapi` gives `wsapi.onrender.com`, which has no scheme; `VITE_API_URL=httpapi` gives `wsapi` | a bare service name becomes `wss://<name>.onrender.com` whatever its first letters | not executed | Hook.WsUrl (Hook.NameTakenForScheme) | Hook.WsUrlCorrected (Hook.NamesCorrected, Hook.CorrectedBare) |
