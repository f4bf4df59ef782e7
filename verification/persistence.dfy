/** The persistence adapter of the collaboration service: the update listener
    that `bindState` attaches (with its loading guard and snapshot cadence),
    the initial load, and the final `writeState`. The database is reduced to
    what the adapter touches: per document slug, an optional snapshot blob
    (`content`) and the append-only list of update blobs ordered by creation. */
module Persistence {
  import opened Wrappers
  import Crdt
  import opened Codec
  import Gzip

  /** Number of recorded updates after which a full snapshot is written. */
  const SnapshotThreshold: nat := 50

  datatype DocRecord = DocRecord(content: Option<Bytes>, updates: seq<Bytes>)

  /** Document rows by slug. A slug with no row makes every write fail (Prisma's
      `update` throws when the row does not exist). */
  type Store = map<string, DocRecord>

  /** The per-replica state of the adapter: the `updateCount` field on the
      document and the `isLoadingInitialData` flag of its `bindState` call. */
  datatype Tracker = Tracker(updateCount: nat, loading: bool)

  /** What `bindState` sets up before it starts reading the database. */
  const Bound: Tracker := Tracker(0, true)

  /** Whether the database accepts the append and the snapshot write of one
      update event (an oracle for I/O failures). */
  datatype Io = Io(appendOk: bool, snapshotOk: bool)

  const AllOk: Io := Io(true, true)

  /** The adapter after one update event, and whether it wrote a snapshot. */
  datatype Recorded = Recorded(tracker: Tracker, store: Store, snapshotted: bool)

  function Append(store: Store, name: string, blob: Bytes): (r: Store)
    requires name in store
    ensures r.Keys == store.Keys
    ensures r[name] == store[name].(updates := store[name].updates + [blob])
    ensures forall n :: n in store && n != name ==> r[n] == store[n]
  {
    store[name := store[name].(updates := store[name].updates + [blob])]
  }

  /** Overwrites the snapshot of `name` with the compressed encoding of `full`;
      a missing row or a failed write leaves the store as it was. */
  function WriteSnapshot(store: Store, name: string, full: Crdt.State, ok: bool): (r: Store)
    ensures r.Keys == store.Keys
    ensures forall n :: n in store && (n != name || !ok) ==> r[n] == store[n]
    ensures ok && name in store ==>
      r[name] == store[name].(content := Some(Gzip.Compress(EncodeState(full))))
  {
    if ok && name in store
    then store[name := store[name].(content := Some(Gzip.Compress(EncodeState(full))))]
    else store
  }

  /** The update listener attached by `bindState`, run on one update event
      carrying `update`, while the replica's full state is `full`. */
  function OnUpdate(name: string, t: Tracker, store: Store, update: Crdt.State,
                    full: Crdt.State, io: Io): (r: Recorded)
    // while the history is being replayed nothing is counted or recorded
    ensures t.loading ==> r == Recorded(t, store, false)
    ensures !r.tracker.loading <==> !t.loading
    ensures r.store.Keys == store.Keys
    ensures forall n :: n in store && n != name ==> r.store[n] == store[n]
    // after loading: exactly one record is appended when the append succeeds
    ensures !t.loading && io.appendOk && name in store ==>
      r.store[name].updates == store[name].updates + [EncodeState(update)]
    ensures !(io.appendOk && name in store) ==> r.store == store
    // the snapshot is taken exactly when the count reaches the threshold
    // after a successful append, and then resets the count
    ensures r.snapshotted <==>
      !t.loading && io.appendOk && name in store && io.snapshotOk &&
      t.updateCount + 1 >= SnapshotThreshold
    ensures r.snapshotted ==>
      r.tracker.updateCount == 0 &&
      r.store[name].content == Some(Gzip.Compress(EncodeState(full)))
    ensures !r.snapshotted && name in store ==> r.store[name].content == store[name].content
    ensures !t.loading && !r.snapshotted ==> r.tracker.updateCount == t.updateCount + 1
  {
    if t.loading then Recorded(t, store, false)
    else
      var counted := t.(updateCount := t.updateCount + 1);
      if !io.appendOk || name !in store then Recorded(counted, store, false)
      else
        var appended := Append(store, name, EncodeState(update));
        if counted.updateCount >= SnapshotThreshold && io.snapshotOk
        then Recorded(Tracker(0, false), WriteSnapshot(appended, name, full, true), true)
        else Recorded(counted, appended, false)
  }

  /** The outcome of a run of update events. */
  datatype Tally = Tally(tracker: Tracker, store: Store, snapshots: nat)

  /** Runs the listener over a sequence of (update, full state) events. */
  function RecordAll(name: string, t: Tracker, store: Store,
                     events: seq<(Crdt.State, Crdt.State)>, io: Io): Tally
    decreases |events|
  {
    if |events| == 0 then Tally(t, store, 0)
    else
      var step := OnUpdate(name, t, store, events[0].0, events[0].1, io);
      var rest := RecordAll(name, step.tracker, step.store, events[1..], io);
      rest.(snapshots := rest.snapshots + (if step.snapshotted then 1 else 0))
  }

  /** With every write succeeding, n updates after a count of c produce
      (c + n) / 50 snapshots, leave the count at (c + n) % 50, and append
      exactly n records. */
  lemma {:induction false} RecordAllCounts(name: string, t: Tracker, store: Store,
                                          events: seq<(Crdt.State, Crdt.State)>)
    requires !t.loading && t.updateCount < SnapshotThreshold && name in store
    ensures var r := RecordAll(name, t, store, events, AllOk);
      && name in r.store
      && r.snapshots == (t.updateCount + |events|) / SnapshotThreshold
      && r.tracker == Tracker((t.updateCount + |events|) % SnapshotThreshold, false)
      && |r.store[name].updates| == |store[name].updates| + |events|
    decreases |events|
  {
    if |events| > 0 {
      var step := OnUpdate(name, t, store, events[0].0, events[0].1, AllOk);
      RecordAllCounts(name, step.tracker, step.store, events[1..]);
      var c := t.updateCount;
      var n := |events|;
      if c + 1 == SnapshotThreshold {
        assert (c + n) / SnapshotThreshold == 1 + (n - 1) / SnapshotThreshold;
        assert (c + n) % SnapshotThreshold == (n - 1) % SnapshotThreshold;
      }
    }
  }

  /** The scenario the snapshot test drives: sixty updates on a freshly loaded
      document with every write succeeding give exactly one snapshot and leave
      the count at ten. */
  lemma {:induction false} SixtyUpdatesOneSnapshot(name: string, store: Store,
                                events: seq<(Crdt.State, Crdt.State)>)
    requires name in store && |events| == 60
    ensures var r := RecordAll(name, Tracker(0, false), store, events, AllOk);
      r.snapshots == 1 && r.tracker.updateCount == 10
  {
    RecordAllCounts(name, Tracker(0, false), store, events);
  }

  /** `writeState`: unconditionally overwrites the snapshot with the
      compressed full state; failures are swallowed. */
  function WriteState(name: string, store: Store, full: Crdt.State, ok: bool): (r: Store)
    ensures r.Keys == store.Keys
    ensures ok && name in store ==> r[name].content.Some? && Gzip.LooksGzipped(r[name].content.value)
    ensures ok && name in store ==> r[name].updates == store[name].updates
    ensures ok && name in store ==> r[name].content == Some(Gzip.Compress(EncodeState(full)))
    ensures !ok ==> r == store
  {
    WriteSnapshot(store, name, full, ok)
  }

  /** `states` are the states of the first blobs, in order, and the blob
      after them (if any) does not decode. */
  predicate DecodedPrefix(states: seq<Crdt.State>, blobs: seq<Bytes>) {
    && |states| <= |blobs|
    && (forall i :: 0 <= i < |states| ==> DecodeState(blobs[i]) == Some(states[i]))
    && (|states| < |blobs| ==> DecodeState(blobs[|states|]).None?)
  }

  /** Decodes update blobs in order, stopping at the first one `Y.applyUpdate`
      would reject: the exception leaves the loading `try` block. */
  function DecodeUntilFailure(blobs: seq<Bytes>): (r: seq<Crdt.State>)
    ensures |r| <= |blobs|
    ensures forall i :: 0 <= i < |r| ==> DecodeState(blobs[i]) == Some(r[i])
    ensures |r| < |blobs| ==> DecodeState(blobs[|r|]).None?
    decreases |blobs|
  {
    if |blobs| == 0 then []
    else match DecodeState(blobs[0])
      case None => []
      case Some(s) => [s] + DecodeUntilFailure(blobs[1..])
  }

  /** The deltas the initial load applies, in order: nothing when the read
      fails or the row is missing; otherwise the snapshot (decompressed when it
      looks gzipped and decompresses) and then every logged update in creation
      order, up to the first blob that does not decode. A snapshot that does
      not decode throws before the log is read, so nothing is applied. */
  function LoadDeltas(doc: Option<DocRecord>): (r: seq<Crdt.State>)
    ensures doc.None? ==> r == []
    ensures doc.Some? && doc.value.content.None? ==> DecodedPrefix(r, doc.value.updates)
    ensures doc.Some? && doc.value.content.Some? ==>
      match DecodeState(Gzip.Unwrap(doc.value.content.value))
      case None => r == []
      case Some(snapshot) => |r| >= 1 && r[0] == snapshot && DecodedPrefix(r[1..], doc.value.updates)
  {
    if doc.None? then []
    else
      var rec := doc.value;
      var logged := DecodeUntilFailure(rec.updates);
      if rec.content.None? then logged
      else match DecodeState(Gzip.Unwrap(rec.content.value))
        case None => []
        case Some(snapshot) =>
          assert ([snapshot] + logged)[1..] == logged;
          [snapshot] + logged
  }

  /** State carried by a blob of a well-formed record. */
  predicate Decodes(blob: Bytes) {
    DecodeState(blob).Some?
  }

  /** A record every blob of which the loader can apply. */
  predicate WellFormed(rec: DocRecord) {
    && (rec.content.Some? ==> Decodes(Gzip.Unwrap(rec.content.value)))
    && forall i :: 0 <= i < |rec.updates| ==> Decodes(rec.updates[i])
  }

  /** Union of the states carried by all logged updates of a well-formed record. */
  function LoggedState(updates: seq<Bytes>): (r: Crdt.State)
    requires forall i :: 0 <= i < |updates| ==> Decodes(updates[i])
    decreases |updates|
  {
    if |updates| == 0 then {}
    else
      assert Decodes(updates[0]);
      DecodeState(updates[0]).value + LoggedState(updates[1..])
  }

  lemma {:induction false} DecodeAllIsLogged(updates: seq<Bytes>)
    requires forall i :: 0 <= i < |updates| ==> Decodes(updates[i])
    ensures Crdt.UnionAll(DecodeUntilFailure(updates)) == LoggedState(updates)
    decreases |updates|
  {
    if |updates| > 0 {
      DecodeAllIsLogged(updates[1..]);
    }
  }

  /** Loading a well-formed record into a replica yields the snapshot united
      with every logged update, whatever the replica already held. */
  lemma {:induction false} LoadIsUnion(s: Crdt.State, rec: DocRecord)
    requires WellFormed(rec)
    ensures Crdt.ApplyAll(s, LoadDeltas(Some(rec))) ==
      s + (if rec.content.Some? then DecodeState(Gzip.Unwrap(rec.content.value)).value else {})
        + LoggedState(rec.updates)
  {
    var logged := DecodeUntilFailure(rec.updates);
    DecodeAllIsLogged(rec.updates);
    Crdt.ApplyAllIsUnion(s, LoadDeltas(Some(rec)));
    if rec.content.Some? {
      var snapshot := DecodeState(Gzip.Unwrap(rec.content.value)).value;
      assert LoadDeltas(Some(rec)) == [snapshot] + logged;
      Crdt.UnionAllAppend([snapshot], logged);
      assert Crdt.UnionAll([snapshot]) == snapshot;
    }
  }

  /** The record holds nothing the replica state `x` lacks. */
  predicate Covered(rec: DocRecord, x: Crdt.State) {
    && WellFormed(rec)
    && (rec.content.Some? ==> DecodeState(Gzip.Unwrap(rec.content.value)).value <= x)
    && forall i :: 0 <= i < |rec.updates| ==> DecodeState(rec.updates[i]).value <= x
  }

  lemma {:induction false} LoggedWithin(updates: seq<Bytes>, x: Crdt.State)
    requires forall i :: 0 <= i < |updates| ==>
      Decodes(updates[i]) && DecodeState(updates[i]).value <= x
    ensures LoggedState(updates) <= x
    decreases |updates|
  {
    if |updates| > 0 {
      LoggedWithin(updates[1..], x);
    }
  }

  /** The listener keeps the record covered by the replica state: it only
      appends the delta just merged and snapshots the merged state. */
  lemma {:induction false} OnUpdateKeepsCovered(name: string, t: Tracker, store: Store, update: Crdt.State,
                             full: Crdt.State, io: Io, x: Crdt.State)
    requires name in store && Covered(store[name], x)
    requires update <= full && x <= full
    ensures Covered(OnUpdate(name, t, store, update, full, io).store[name], full)
  {
    var r := OnUpdate(name, t, store, update, full, io);
    StateRoundTrip(update);
    StateRoundTrip(full);
    Gzip.UnwrapCompressed(EncodeState(full));
    var rec := r.store[name];
    forall i | 0 <= i < |rec.updates|
      ensures Decodes(rec.updates[i]) && DecodeState(rec.updates[i]).value <= full
    {
      if i < |store[name].updates| {
        assert rec.updates[i] == store[name].updates[i];
      }
    }
  }

  /** The round trip a reconnect relies on: once `writeState` has stored the
      state `x` over a record that held nothing beyond `x`, loading that
      record into a fresh replica gives back exactly `x`. */
  lemma {:induction false} ReloadRoundTrip(name: string, store: Store, x: Crdt.State)
    requires name in store && Covered(store[name], x)
    ensures var written := WriteState(name, store, x, true);
      Crdt.ApplyAll({}, LoadDeltas(Some(written[name]))) == x
  {
    var written := WriteState(name, store, x, true);
    var rec := written[name];
    StateRoundTrip(x);
    Gzip.UnwrapCompressed(EncodeState(x));
    assert rec.updates == store[name].updates;
    LoadIsUnion({}, rec);
    LoggedWithin(rec.updates, x);
  }
}
