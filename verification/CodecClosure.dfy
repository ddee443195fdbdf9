/** A node is closed under its own codec: whatever it builds encodes, whatever it transmits decodes. */
module CodecClosure {
  import opened Wrappers
  import opened Types
  import opened CanIdentifiers
  import opened TypedValues
  import opened WirePayloads
  import opened FrameCodec
  import opened Payloads
  import opened Outboxes
  import opened Directories
  import opened Nodes
  import opened NodeFrames
  import opened NodeInvariants

  /** The identifiers of the node's own frames pass the checked construction. */
  lemma IdentifiersAreCreated(priority: Priority, kind: PayloadKind, destination: NodeAddress, source: NodeAddress,
                              bytes: Bytes8)
    ensures Create(priority, kind, destination, source, 0)
            == Some(MakeFrame(priority, kind, destination, source, bytes).identifier)
  {
  }

  predicate Encodes(f: ProtocolFrame) { Encode(f).Success? }

  /** The commissioning frames of a node that holds address `a`. */
  predicate AddressFramesEncode(uid: Uid, a: NodeAddress, s: Byte) {
    && Encodes(ClaimFrame(uid, a)) && Encodes(ConflictFrame(uid, a, s)) && Encodes(HeartbeatFrame(a, s))
  }

  lemma AddressFrames(uid: Uid, a: NodeAddress, s: Byte)
    requires IsUnicast(a)
    ensures AddressFramesEncode(uid, a, s)
  {
  }

  lemma DiscoveryFrames(uid: Uid, s: Byte, transaction: Byte, requester: NodeAddress, source: NodeAddress)
    requires requester != BROADCAST && source != BROADCAST
    ensures Encodes(DiscoveryRequestFrame(uid, s))
            && Encodes(DiscoveryResponseFrame(uid, transaction, requester, source))
  {
  }

  lemma EntityFrames(a: NodeAddress, s: Byte, entity: EntityId, endpoint: EndpointId)
    requires IsUnicast(a) && entity != 0
    ensures IsEndpoint(endpoint) ==> Encodes(EntityClaimFrame(a, s, entity, endpoint))
    ensures Encodes(EntityResolveFrame(a, s, entity))
  {
    NonzeroBytes(entity);
  }

  lemma AckEncodes(a: NodeAddress, f: ProtocolFrame, status: Status)
    requires IsUnicast(a) && ValidFrame(f) && f.identifier.kind in {EVENT, COMMAND}
    ensures Encodes(AckFrame(a, f, status))
  {
  }

  lemma AssignEncodes(a: NodeAddress, uid: Uid, candidate: NodeAddress)
    requires IsUnicast(a) && IsUnicast(candidate)
    ensures Encodes(AssignFrame(a, uid, candidate))
    ensures var b := AssignFrame(a, uid, candidate).payload.bytes; AssignedAddress(b) == candidate && b[..6] == uid
  {
  }

  lemma PublishedEncodes(a: NodeAddress, s: Byte, endpoint: EndpointId, value: TypedValue, flags: Byte)
    requires IsUnicast(a)
    ensures CreateState(s, endpoint, value, flags).Some? ==>
              Encodes(StateFrame(a, ValuePayload(s, endpoint, value, flags)))
    ensures CreateEvent(s, endpoint, value, flags).Some? ==>
              Encodes(EventFrame(a, ValuePayload(s, endpoint, value, flags)))
  {
    var b := EncodeValue(ValuePayload(s, endpoint, value, flags));
    StateLanguage(s, endpoint, value, flags, b);
    EventLanguage(s, endpoint, value, flags, b);
  }

  /** Everything a node in this state may build, for any input, passes the encoder. */
  ghost predicate BuildsOnlyEncodable(n: Node) {
    && Encodes(DiscoveryRequestFrame(n.uid, n.sequence))
    && (n.pending.Some? ==>
          var source := if n.address.Some? then n.address.value else UNASSIGNED;
          Encodes(DiscoveryResponseFrame(n.uid, n.pending.value.transaction, n.pending.value.requester, source)))
    && (n.address.Some? ==> BuildsWithAddress(n, n.address.value))
  }

  /** Every value the payload constructors accept. */
  ghost predicate PublicationsEncode(a: NodeAddress) {
    forall s: Byte, endpoint: EndpointId, value: TypedValue, flags: Byte ::
      PublicationEncodes(a, s, endpoint, value, flags)
  }

  predicate PublicationEncodes(a: NodeAddress, s: Byte, endpoint: EndpointId, value: TypedValue, flags: Byte) {
    var payload := ValuePayload(s, endpoint, value, flags);
    && (CreateState(s, endpoint, value, flags).Some? ==> Encodes(StateFrame(a, payload)))
    && (CreateEvent(s, endpoint, value, flags).Some? ==> Encodes(EventFrame(a, payload)))
  }

  ghost predicate BuildsWithAddress(n: Node, a: NodeAddress) {
    && PublicationsEncode(a)
    && (forall s: Byte :: AddressFramesEncode(n.uid, a, s))
    && (forall i, s: Byte :: 0 <= i < |n.registry.owned| && n.registry.owned[i].Some? ==>
          Encodes(EntityClaimFrame(a, s, n.registry.owned[i].value.entity, n.registry.owned[i].value.endpoint)))
    && (forall i, s: Byte :: 0 <= i < |n.registry.observed| && n.registry.observed[i].Some? ==>
          Encodes(EntityResolveFrame(a, s, n.registry.observed[i].value)))
    && (forall f, status: Status :: ValidFrame(f) && f.identifier.kind in {EVENT, COMMAND} ==>
          Encodes(AckFrame(a, f, status)))
    && (forall uid: Uid :: NextFree(n.reserved, 1).Some? ==>
          Encodes(AssignFrame(a, uid, NextFree(n.reserved, 1).value)))
  }

  lemma OwnFramesEncode(n: Node)
    requires NodeInv(n)
    ensures BuildsOnlyEncodable(n)
  {
    DiscoveryFrames(n.uid, n.sequence, 0, UNASSIGNED, UNASSIGNED);
    if n.pending.Some? {
      var source := if n.address.Some? then n.address.value else UNASSIGNED;
      DiscoveryFrames(n.uid, n.sequence, n.pending.value.transaction, n.pending.value.requester, source);
    }
    if n.address.Some? { AddressedFramesEncode(n, n.address.value); }
  }

  lemma AddressedFramesEncode(n: Node, a: NodeAddress)
    requires IsUnicast(a) && RegistryOk(n.registry)
    ensures BuildsWithAddress(n, a)
  {
    hide Encode;
    forall s: Byte, endpoint: EndpointId, value: TypedValue, flags: Byte
      ensures PublicationEncodes(a, s, endpoint, value, flags)
    {
      PublishedEncodes(a, s, endpoint, value, flags);
    }
    forall s: Byte ensures AddressFramesEncode(n.uid, a, s) { AddressFrames(n.uid, a, s); }
    forall i, s: Byte | 0 <= i < |n.registry.owned| && n.registry.owned[i].Some?
      ensures Encodes(EntityClaimFrame(a, s, n.registry.owned[i].value.entity, n.registry.owned[i].value.endpoint))
    {
      EntityFrames(a, s, n.registry.owned[i].value.entity, n.registry.owned[i].value.endpoint);
    }
    forall i, s: Byte | 0 <= i < |n.registry.observed| && n.registry.observed[i].Some?
      ensures Encodes(EntityResolveFrame(a, s, n.registry.observed[i].value))
    {
      EntityFrames(a, s, n.registry.observed[i].value, 1);
    }
    forall f, status: Status | ValidFrame(f) && f.identifier.kind in {EVENT, COMMAND}
      ensures Encodes(AckFrame(a, f, status))
    {
      AckEncodes(a, f, status);
    }
    forall uid: Uid | NextFree(n.reserved, 1).Some?
      ensures Encodes(AssignFrame(a, uid, NextFree(n.reserved, 1).value))
    {
      AssignEncodes(a, uid, NextFree(n.reserved, 1).value);
    }
  }

  /** In every run: whatever the node builds, and every state and event it accepts for publication, is
      encodable; each queued frame decodes to its queue's class; and every frame ever given to the
      transmitter decodes. */
  lemma {:induction false} ClosedUnderCodec(
    uid: Uid, role: Role, stored: Option<NodeAddress>, saved: bool, inputs: seq<Input>)
    requires Storable(stored)
    ensures var n := Run(Boot(uid, role, stored, saved), inputs);
            && BuildsOnlyEncodable(n)
            && (forall k :: 0 <= k < |n.out.wire| ==> Decode(n.out.wire[k].raw).Success?)
            && (forall c, i :: 0 <= c < CLASSES && 0 <= i < |n.out.queues[c]| ==> InClass(n.out.queues[c][i], c))
  {
    RunKeepsInv(uid, role, stored, saved, inputs);
    var n := Run(Boot(uid, role, stored, saved), inputs);
    OwnFramesEncode(n);
    forall k | 0 <= k < |n.out.wire| ensures Decode(n.out.wire[k].raw).Success? {
      assert Decodable(n.out.wire[k].raw);
    }
    forall c, i | 0 <= c < CLASSES && 0 <= i < |n.out.queues[c]| ensures InClass(n.out.queues[c][i], c) {
      assert QueueOk(n.out.queues[c], c);
    }
  }
}
