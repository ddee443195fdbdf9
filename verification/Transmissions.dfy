/** The frames a node builds, as messages of the wire format between two addresses. */
module Transmissions {
  import opened Wrappers
  import opened Types
  import opened CanIdentifiers
  import opened TypedValues
  import opened WirePayloads
  import opened FrameCodec
  import opened Payloads
  import opened Outboxes
  import opened Directories
  import opened Nodes
  import opened NodeInvariants
  import opened CodecClosure
  import W = WireFormats

  const NOTHING: Bytes4 := [0, 0, 0, 0]

  /** A frame goes to the end of the queue of class `c + 1`, unless that holds eight. */
  function Offered(o: Outbox, c: nat, raw: RawCanFrame): (o': Outbox)
    requires |o.queues| == CLASSES && c < CLASSES
    ensures |o'.queues| == CLASSES
  {
    if |o.queues[c]| == 8 then o
    else o.(queues := o.queues[c := o.queues[c] + [raw]], accepted := o.accepted + [raw], placed := o.placed + [raw])
  }

  /** A frame handed to the transmitter past the queues. */
  function SentPast(o: Outbox, raw: RawCanFrame, refused: set<RawCanFrame>): Outbox {
    o.(wire := o.wire + [Attempt(raw, raw !in refused, false)])
  }

  lemma EnqueueOffers(o: Outbox, f: ProtocolFrame, c: nat)
    requires |o.queues| == CLASSES && c < CLASSES && f.identifier.kind != STATE && f.identifier.priority == c + 1
    requires Encode(f).Success?
    ensures Enqueue(o, f).0 == Offered(o, c, Encode(f).value) && (Enqueue(o, f).1 <==> |o.queues[c]| != 8)
  {
    hide Encode;
  }

  // ---------------------------------------------------------------- frames as messages

  /** The frame is the encoding of a message, sent with hop count zero. */
  lemma FrameOnWire(f: ProtocolFrame, m: W.Message)
    requires f.payload.kind == W.KindOf(m) && f.payload.bytes == W.Layout(m)
    requires f.identifier == CanIdentifier(W.EntryOf(W.KindOf(m)).priority, W.KindOf(m), f.identifier.destination,
                                           f.identifier.source, 0)
    requires Encode(f).Success?
    ensures Encode(f).value == W.OnWire(m, f.identifier.source, f.identifier.destination, 0)
  {
    hide W.Layout, ToRaw;
    W.EncodedAs(f);
  }

  lemma ClaimOnWire(uid: Uid, a: NodeAddress)
    requires IsUnicast(a)
    ensures Encode(ClaimFrame(uid, a)) == Success(W.OnWire(W.AddressClaim(uid, Xor8(uid[0], uid[5])), a, 0x1FF, 0))
  {
    AddressFrames(uid, a, 0);
    FrameOnWire(ClaimFrame(uid, a), W.AddressClaim(uid, Xor8(uid[0], uid[5])));
  }

  lemma ConflictOnWire(uid: Uid, a: NodeAddress, sequence: Byte)
    requires IsUnicast(a)
    ensures Encode(ConflictFrame(uid, a, sequence)) == Success(W.OnWire(W.AddressConflict(uid, sequence), a, a, 0))
  {
    AddressFrames(uid, a, sequence);
    FrameOnWire(ConflictFrame(uid, a, sequence), W.AddressConflict(uid, sequence));
  }

  lemma HeartbeatOnWire(a: NodeAddress, sequence: Byte)
    requires IsUnicast(a)
    ensures Encode(HeartbeatFrame(a, sequence)) == Success(W.OnWire(W.Heartbeat(sequence, 0, 1, 0), a, 0x1FF, 0))
  {
    AddressFrames([0, 0, 0, 0, 0, 0], a, sequence);
    assert W.Bytes(1) == [1, 0, 0, 0];
    FrameOnWire(HeartbeatFrame(a, sequence), W.Heartbeat(sequence, 0, 1, 0));
  }

  lemma RequestOnWire(uid: Uid, sequence: Byte)
    ensures Encode(DiscoveryRequestFrame(uid, sequence))
            == Success(W.OnWire(W.DiscoveryRequest(sequence, 2, 1000,
                                                   [Xor8(uid[0], Next8(sequence)), uid[1], uid[2], uid[3]]),
                                0, 0x1FF, 0))
  {
    hide Xor8, Next8;
    DiscoveryFrames(uid, sequence, 0, 0, 0);
    assert W.Half(1000) == [0xE8, 3];
    FrameOnWire(DiscoveryRequestFrame(uid, sequence),
                W.DiscoveryRequest(sequence, 2, 1000, [Xor8(uid[0], Next8(sequence)), uid[1], uid[2], uid[3]]));
  }

  lemma RequestLayout(uid: Uid, s: Byte)
    ensures W.Layout(W.DiscoveryRequest(s, 2, 1000, [Xor8(uid[0], Next8(s)), uid[1], uid[2], uid[3]]))
            == DiscoveryRequestBytes(uid, s)
    ensures U16At(DiscoveryRequestBytes(uid, s), 2) == 1000 && DiscoveryRequestBytes(uid, s)[0] == s
  {
    hide Xor8, Next8;
    assert W.Half(1000) == [0xE8, 3];
  }

  lemma ResponseOnWire(uid: Uid, transaction: Byte, requester: NodeAddress, source: NodeAddress)
    requires requester != BROADCAST && source != BROADCAST
    ensures Encode(DiscoveryResponseFrame(uid, transaction, requester, source))
            == Success(W.OnWire(W.DiscoveryResponse(transaction, uid, 0), source, requester, 0))
  {
    DiscoveryFrames(uid, 0, transaction, requester, source);
    FrameOnWire(DiscoveryResponseFrame(uid, transaction, requester, source), W.DiscoveryResponse(transaction, uid, 0));
  }

  lemma EntityClaimOnWire(a: NodeAddress, sequence: Byte, entity: EntityId, endpoint: EndpointId)
    requires IsUnicast(a) && entity != 0 && IsEndpoint(endpoint)
    ensures Encode(EntityClaimFrame(a, sequence, entity, endpoint))
            == Success(W.OnWire(W.EntityClaim(sequence, endpoint, entity), a, 0x1FF, 0))
  {
    hide ByteOf, Encode;
    EntityFrames(a, sequence, entity, endpoint);
    FrameOnWire(EntityClaimFrame(a, sequence, entity, endpoint), W.EntityClaim(sequence, endpoint, entity));
  }

  lemma EntityResolveOnWire(a: NodeAddress, sequence: Byte, entity: EntityId)
    requires IsUnicast(a) && entity != 0
    ensures Encode(EntityResolveFrame(a, sequence, entity))
            == Success(W.OnWire(W.EntityResolve(sequence, entity, 1000), a, 0x1FF, 0))
  {
    hide ByteOf, Encode;
    EntityFrames(a, sequence, entity, 1);
    assert W.Half(1000) == [0xE8, 3];
    FrameOnWire(EntityResolveFrame(a, sequence, entity), W.EntityResolve(sequence, entity, 1000));
  }

  lemma AckOnWire(a: NodeAddress, f: ProtocolFrame, status: Status)
    requires IsUnicast(a) && ValidFrame(f) && f.identifier.kind in {EVENT, COMMAND}
    ensures var b := f.payload.bytes;
            Encode(AckFrame(a, f, status))
            == Success(W.OnWire(W.Ack(b[0], b[1], f.identifier.kind, status, NOTHING), a, f.identifier.source, 0))
  {
    var b := f.payload.bytes;
    AckEncodes(a, f, status);
    FrameOnWire(AckFrame(a, f, status), W.Ack(b[0], b[1], f.identifier.kind, status, NOTHING));
  }

  lemma AssignOnWire(a: NodeAddress, uid: Uid, granted: NodeAddress)
    requires IsUnicast(a) && IsUnicast(granted)
    ensures Encode(AssignFrame(a, uid, granted)) == Success(W.OnWire(W.AddressAssign(uid, granted), a, 0x1FF, 0))
  {
    AssignEncodes(a, uid, granted);
    FrameOnWire(AssignFrame(a, uid, granted), W.AddressAssign(uid, granted));
  }

  lemma StateOnWire(a: NodeAddress, sequence: Byte, endpoint: EndpointId, value: TypedValue, quality: Byte)
    requires IsUnicast(a) && CreateState(sequence, endpoint, value, quality).Some?
    ensures Encode(StateFrame(a, ValuePayload(sequence, endpoint, value, quality)))
            == Success(W.OnWire(W.State(sequence, endpoint, quality, value), a, 0x1FF, 0))
  {
    hide Validate, Encode;
    PublishedEncodes(a, sequence, endpoint, value, quality);
    FrameOnWire(StateFrame(a, ValuePayload(sequence, endpoint, value, quality)),
                W.State(sequence, endpoint, quality, value));
  }

  lemma EventOnWire(a: NodeAddress, sequence: Byte, endpoint: EndpointId, value: TypedValue, flags: Byte)
    requires IsUnicast(a) && CreateEvent(sequence, endpoint, value, flags).Some?
    ensures Encode(EventFrame(a, ValuePayload(sequence, endpoint, value, flags)))
            == Success(W.OnWire(W.Event(sequence, endpoint, flags, value), a, 0x1FF, 0))
  {
    hide Validate, Encode;
    PublishedEncodes(a, sequence, endpoint, value, flags);
    FrameOnWire(EventFrame(a, ValuePayload(sequence, endpoint, value, flags)),
                W.Event(sequence, endpoint, flags, value));
  }

  /** States are told apart by source, destination and endpoint; nothing else is coalesced. */
  lemma StatesAreKeyed(raw: RawCanFrame, m: W.Message, source: NodeAddress, destination: NodeAddress)
    requires W.Conveys(raw, m, source, destination)
    ensures KeyOf(raw) == if m.State? then Some(Key(source, destination, m.endpoint)) else None
  {
    hide Decode, W.Conveys;
    W.ConveyedDecodes(raw, m, source, destination);
  }

  // ---------------------------------------------------------------- acknowledgements

  /** What the acknowledgement of a command or event looks like: it goes back from `from` to whoever sent
      the frame, and repeats its transaction, endpoint and kind. */
  function Acknowledged(o: Outbox, from: NodeAddress, f: ProtocolFrame, status: Status): (o': Outbox)
    requires |o.queues| == CLASSES && f.identifier.kind <= ENTITY_RESOLVE
    ensures |o'.queues| == CLASSES
  {
    var b := f.payload.bytes;
    if b[3] % 2 == 0 then o
    else Offered(o, 0, W.OnWire(W.Ack(b[0], b[1], f.identifier.kind, status, NOTHING), from, f.identifier.source, 0))
  }

  lemma AcknowledgeOffers(n: Node, f: ProtocolFrame, status: Status)
    requires n.address.Some? && IsUnicast(n.address.value) && ValidFrame(f) && f.identifier.kind in {EVENT, COMMAND}
    ensures f.payload.bytes[3] % 2 != 0 ==>
              Enqueue(n.out, AckFrame(n.address.value, f, status)).0 == Acknowledged(n.out, n.address.value, f, status)
  {
    hide Encode, W.OnWire;
    AckOnWire(n.address.value, f, status);
    EnqueueOffers(n.out, AckFrame(n.address.value, f, status), 0);
  }

  lemma AcknowledgeNothing(o: Outbox, from: NodeAddress, f: ProtocolFrame, status: Status)
    requires |o.queues| == CLASSES && f.identifier.kind <= ENTITY_RESOLVE && f.payload.bytes[3] % 2 == 0
    ensures Acknowledged(o, from, f, status) == o
  {
  }

  /** The acknowledgement as the asker decodes it. */
  lemma AcknowledgementIsRead(from: NodeAddress, f: ProtocolFrame, status: Status)
    requires IsUnicast(from) && ValidFrame(f) && f.identifier.kind in {EVENT, COMMAND}
    ensures var b := f.payload.bytes;
            var raw := W.OnWire(W.Ack(b[0], b[1], f.identifier.kind, status, NOTHING), from, f.identifier.source, 0);
            && Decode(raw).Success?
            && var g := Decode(raw).value;
               && g.identifier == CanIdentifier(1, ACK, f.identifier.source, from, 0) && g.payload.kind == ACK
               && g.payload.bytes == [b[0], b[1], f.identifier.kind, status, 0, 0, 0, 0]
  {
    AckOnWire(from, f, status);
    DecodeEncoded(AckFrame(from, f, status));
  }
}
