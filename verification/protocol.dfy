/** The messages exchanged over a collaboration socket. The byte-level
    envelope (lib0 varints, y-protocols sub-encodings) belongs to libraries
    outside the model; a message is kept as the structure the server
    dispatches on: the outer type tag (0 = sync, 1 = awareness, anything else
    ignored) and, for sync messages, the sub-kind. */
module Protocol {
  import opened Wrappers
  import Crdt
  import Codec

  const MessageSync: nat := 0
  const MessageAwareness: nat := 1

  /** Ephemeral id of a client's awareness entry. */
  type ClientId = nat

  /** Awareness payload of one client (JSON text: name, colour, cursor). */
  type Presence = string

  datatype SyncMessage =
    | Step1(stateVector: Crdt.State)  // "this is what I have"
    | Step2(update: Crdt.State)       // "here is what you lack"
    | Update(update: Crdt.State)      // a delta pushed after the handshake

  /** A batch of awareness entries; `None` announces that a client left. */
  datatype AwarenessUpdate = AwarenessUpdate(entries: map<ClientId, Option<Presence>>)

  type UnknownTag = t: nat | t != MessageSync && t != MessageAwareness witness 2

  datatype Message =
    | Sync(sync: SyncMessage)
    | Awareness(awareness: AwarenessUpdate)
    | Unknown(tag: UnknownTag)

  /** The outer type tag the server reads first. */
  function MessageType(m: Message): (r: nat)
    ensures r == MessageSync <==> m.Sync?
    ensures r == MessageAwareness <==> m.Awareness?
  {
    match m
    case Sync(_) => MessageSync
    case Awareness(_) => MessageAwareness
    case Unknown(t) => t
  }

  /** What `readSyncMessage` writes into the reply encoder for one inbound
      sync message against replica state `s`: a Step1 is answered with a
      Step2 carrying what the sender lacks; Step2 and Update are merged and
      answered with nothing. */
  function SyncReply(s: Crdt.State, m: SyncMessage): (r: Option<SyncMessage>)
    ensures r.Some? <==> m.Step1?
    ensures m.Step1? ==> r == Some(Step2(Crdt.Diff(s, m.stateVector)))
  {
    match m
    case Step1(vector) => Some(Step2(Crdt.Diff(s, vector)))
    case _ => None
  }

  /** Length of a sync sub-message once written: its sub-kind varint followed
      by its payload as a length-prefixed byte array. */
  function SyncMessageLength(m: SyncMessage): (r: nat)
    ensures r >= 2
  {
    var payload := match m
      case Step1(v) => Codec.EncodeState(v)
      case Step2(u) => Codec.EncodeState(u)
      case Update(u) => Codec.EncodeState(u);
    1 + |Codec.EncodeVarUint(|payload|)| + |payload|
  }

  /** Length of the reply encoder after dispatch: the one-byte outer tag the
      handler writes first, plus whatever the sync handler wrote. */
  function ReplyEncoderLength(reply: Option<SyncMessage>): nat {
    1 + (match reply case None => 0 case Some(m) => SyncMessageLength(m))
  }

  /** The handler's `encoding.length(encoder) > 1` test sends a reply exactly
      when the inbound message was a Step1, and the reply is a Step2 with
      exactly the updates the peer lacks: no more, no fewer. A Step1 from a
      peer that already has everything is still answered (with an empty Step2):
      the length test never suppresses it. */
  lemma {:induction false} ReplyGate(s: Crdt.State, m: SyncMessage)
    ensures ReplyEncoderLength(SyncReply(s, m)) > 1 <==> m.Step1?
    ensures m.Step1? ==> forall x :: x in SyncReply(s, m).value.update <==> x in s && x !in m.stateVector
  {
  }
}
