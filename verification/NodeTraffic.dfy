/** What each tick and each received frame puts into the queues or on the wire, in terms of the wire format. */
module NodeTraffic {
  import opened Wrappers
  import opened Types
  import opened CanIdentifiers
  import opened TypedValues
  import opened WirePayloads
  import opened FrameCodec
  import opened Payloads
  import opened Outboxes
  import opened Directories
  import opened Nodes
  import opened NodeInvariants
  import opened CodecClosure
  import opened TickRuns
  import opened Startup
  import opened Transmissions
  import opened EntityResolution
  import W = WireFormats

  function Following(sequence: Byte): Byte { (sequence + 1) % 256 }

  // ---------------------------------------------------------------- ticks

  function SourceAddress(n: Node): NodeAddress { if n.address.Some? then n.address.value else 0 }

  /** The node has both claims behind it, owes no answer, and its heartbeat is not due. */
  predicate Spare(n: Node, now: U32) { MayAnnounce(n) && !Responds(n, now) && now < n.schedule.nextHeartbeat }

  predicate SendsRequest(n: Node, now: U32) {
    n.address.None? && !Responds(n, now) && now >= n.schedule.nextDiscovery
  }

  lemma DueResponseIsOffered(n: Node, now: U32, p: Ports)
    requires Responds(n, now) && PendingOk(n) && Addressed(n)
    ensures var m, owed := Tick(n, now, p), n.pending.value;
            var raw := W.OnWire(W.DiscoveryResponse(owed.transaction, n.uid, 0), SourceAddress(n), owed.requester, 0);
            m.out == Drain(Offered(n.out, 3, raw), p.refused).0 && m.pending == None && m.sequence == n.sequence
  {
    hide Expire, Encode, Enqueue, Drain, Offered;
    var f := DiscoveryResponseFrame(n.uid, n.pending.value.transaction, n.pending.value.requester, SourceAddress(n));
    ResponseOnWire(n.uid, n.pending.value.transaction, n.pending.value.requester, SourceAddress(n));
    EnqueueOffers(n.out, f, 3);
  }

  lemma DueRequestIsOffered(n: Node, now: U32, p: Ports)
    requires SendsRequest(n, now)
    ensures var m, s, uid := Tick(n, now, p), n.sequence, n.uid;
            var request := W.DiscoveryRequest(s, 2, 1000, [Xor8(uid[0], Following(s)), uid[1], uid[2], uid[3]]);
            && m.out == Drain(Offered(n.out, 3, W.OnWire(request, 0, 0x1FF, 0)), p.refused).0
            && m.sequence == Following(s) && U16At(W.Layout(request), 2) == 1000
            && m.pending == Some(PendingResponse(s, 0, Add32(now, ResponseDelay(uid, W.Layout(request)))))
  {
    hide Expire, Encode, Enqueue, Drain, Offered, ResponseDelay, Announce, W.OnWire, W.Layout, Xor8;
    hide DiscoveryRequestBytes;
    RequestLayout(n.uid, n.sequence);
    RequestOnWire(n.uid, n.sequence);
    EnqueueOffers(n.out, DiscoveryRequestFrame(n.uid, n.sequence), 3);
  }

  lemma DueClaimIsOffered(n: Node, now: U32, p: Ports)
    requires SendsClaim(n, now) && Addressed(n)
    ensures var m := Tick(n, now, p);
            var claim := W.AddressClaim(n.uid, Xor8(n.uid[0], n.uid[5]));
            && m.out == Drain(Offered(n.out, 3, W.OnWire(claim, n.address.value, 0x1FF, 0)), p.refused).0
            && m.schedule.claimsSent == n.schedule.claimsSent + 1 && m.sequence == n.sequence
  {
    hide Expire, Encode, Enqueue, Drain, Offered, Announce, W.OnWire, Xor8, ClaimStartDelay, ClaimInterval;
    ClaimOnWire(n.uid, n.address.value);
    EnqueueOffers(n.out, ClaimFrame(n.uid, n.address.value), 3);
  }

  lemma DueHeartbeatIsSent(n: Node, now: U32, p: Ports)
    requires SendsBeat(n, now) && Addressed(n)
    ensures var m := Tick(n, now, p);
            var raw := W.OnWire(W.Heartbeat(n.sequence, 0, 1, 0), n.address.value, 0x1FF, 0);
            && m.out == SentPast(n.out, raw, p.refused) && m.sequence == Following(n.sequence)
            && m.schedule.nextHeartbeat == Add32(now, 30000)
  {
    hide Expire, Encode, Enqueue, Drain, Announce, W.OnWire, ClaimStartDelay;
    HeartbeatOnWire(n.address.value, n.sequence);
  }

  lemma SpareTick(n: Node, now: U32, p: Ports)
    requires Spare(n, now)
    ensures var m, planned := Tick(n, now, p), ScheduleClaim(ExpireNode(n, now), now);
            && m == Announce(planned, p) && planned.out == n.out && planned.address == n.address
            && planned.registry == n.registry && planned.sequence == n.sequence && MayAnnounce(planned)
            && planned.schedule.ownedIndex == n.schedule.ownedIndex
            && planned.schedule.observedIndex == n.schedule.observedIndex
  {
    hide Expire, Announce, ClaimStartDelay;
  }

  /** An owned entity left to announce is claimed at its endpoint. */
  lemma OwnedIsAnnounced(n: Node, now: U32, p: Ports, i: nat)
    requires Spare(n, now) && Addressed(n) && RegistryOk(n.registry)
    requires n.schedule.ownedIndex <= i < 16 && n.registry.owned[i].Some?
    requires forall k :: n.schedule.ownedIndex <= k < i ==> n.registry.owned[k].None?
    ensures var m, entry := Tick(n, now, p), n.registry.owned[i].value;
            var raw := W.OnWire(W.EntityClaim(n.sequence, entry.endpoint, entry.entity), n.address.value, 0x1FF, 0);
            && m.out == Drain(Offered(n.out, 3, raw), p.refused).0 && m.sequence == Following(n.sequence)
            && m.schedule.ownedIndex == i + 1 && m.schedule.observedIndex == n.schedule.observedIndex
  {
    hide Encode, Enqueue, Drain, Offered, W.OnWire, Expire, Tick, ScheduleClaim, AnnounceObserved;
    var entry := n.registry.owned[i].value;
    SpareTick(n, now, p);
    assert NextOccupied(n.registry.owned, n.schedule.ownedIndex) == i;
    EntityClaimOnWire(n.address.value, n.sequence, entry.entity, entry.endpoint);
    EnqueueOffers(n.out, EntityClaimFrame(n.address.value, n.sequence, entry.entity, entry.endpoint), 3);
  }

  /** When no owned one is left, an observed entity left to announce is asked for. */
  lemma ObservedIsSought(n: Node, now: U32, p: Ports, i: nat)
    requires Spare(n, now) && Addressed(n) && RegistryOk(n.registry)
    requires forall k :: n.schedule.ownedIndex <= k < 16 ==> n.registry.owned[k].None?
    requires n.schedule.observedIndex <= i < 16 && n.registry.observed[i].Some?
    requires forall k :: n.schedule.observedIndex <= k < i ==> n.registry.observed[k].None?
    ensures var m, entity := Tick(n, now, p), n.registry.observed[i].value;
            var raw := W.OnWire(W.EntityResolve(n.sequence, entity, 1000), n.address.value, 0x1FF, 0);
            && m.out == Drain(Offered(n.out, 3, raw), p.refused).0 && m.sequence == Following(n.sequence)
            && m.schedule.observedIndex == i + 1
  {
    hide Encode, Enqueue, Drain, Offered, W.OnWire, Expire, Tick, ScheduleClaim, SendEntityClaim;
    SpareTick(n, now, p);
    assert NextOccupied(n.registry.owned, n.schedule.ownedIndex) == 16;
    assert NextOccupied(n.registry.observed, n.schedule.observedIndex) == i;
    EntityResolveOnWire(n.address.value, n.sequence, n.registry.observed[i].value);
    EnqueueOffers(n.out, EntityResolveFrame(n.address.value, n.sequence, n.registry.observed[i].value), 3);
  }

  /** Some slot from `i` on is occupied. */
  predicate Left<T>(slots: seq<Option<T>>, i: nat) { exists k :: i <= k < |slots| && slots[k].Some? }

  /** Nothing is due: the tick only drains. */
  predicate NothingDue(n: Node, now: U32) {
    && !Responds(n, now) && !SendsRequest(n, now) && !SendsClaim(n, now) && !SendsBeat(n, now)
    && (Spare(n, now) ==> !Left(n.registry.owned, n.schedule.ownedIndex)
                          && !Left(n.registry.observed, n.schedule.observedIndex))
  }

  lemma QuietTickDrains(n: Node, now: U32, p: Ports)
    requires NothingDue(n, now)
    ensures var m := Tick(n, now, p); m.out == Drain(n.out, p.refused).0 && m.sequence == n.sequence
  {
    hide Encode, Enqueue, Drain, Expire, ClaimStartDelay;
  }

  // ---------------------------------------------------------------- received frames

  /** The lower UID contradicts a rival's claim. */
  lemma RivalIsContradicted(n: Node, b: Bytes8)
    requires Addressed(n) && n.address.Some? && b[..6] != n.uid && LowerFromTop(n.uid, b[..6])
    ensures var m, a := HandleClaim(n, n.address.value, b), n.address.value;
            && m.out == Offered(n.out, 0, W.OnWire(W.AddressConflict(n.uid, n.sequence), a, a, 0))
            && m.sequence == Following(n.sequence)
  {
    hide Encode, Enqueue, Offered, W.OnWire;
    ConflictOnWire(n.uid, n.address.value, n.sequence);
    EnqueueOffers(n.out, ConflictFrame(n.uid, n.address.value, n.sequence), 0);
  }

  /** A node with an address answers a resolve for an entity it owns with a claim; other calls for
      entities are left to their owners. */
  lemma ResolveIsClaimed(n: Node, f: ProtocolFrame, now: U32, p: Ports)
    requires ValidFrame(f) && f.identifier.kind == ENTITY_RESOLVE && Addressed(n) && RegistryOk(n.registry)
    ensures var m, entity := Dispatch(n, f, now, p), U32At(f.payload.bytes, 2);
            if n.address.None? || OwnedAt(n.registry.owned, entity).None? then m == n
            else
              var endpoint := OwnedAt(n.registry.owned, entity).value;
              && IsEndpoint(endpoint) && entity != 0
              && m.out == Offered(n.out, 3,
                                  W.OnWire(W.EntityClaim(n.sequence, endpoint, entity), n.address.value, 0x1FF, 0))
              && m.sequence == Following(n.sequence)
  {
    hide Encode, Enqueue, Offered, W.OnWire, EntityClaimFrame;
    var entity := U32At(f.payload.bytes, 2);
    if n.address.Some? {
      ResolveIsAnswered(n, f, now, p);
      if OwnedAt(n.registry.owned, entity).Some? {
        var endpoint := OwnedAt(n.registry.owned, entity).value;
        ClaimIsEncodable(n, entity, endpoint);
        EnqueueOffers(n.out, EntityClaimFrame(n.address.value, n.sequence, entity, endpoint), 3);
      }
    }
  }

  lemma ClaimIsEncodable(n: Node, entity: EntityId, endpoint: EndpointId)
    requires Addressed(n) && n.address.Some? && RegistryOk(n.registry)
    requires OwnedAt(n.registry.owned, entity) == Some(endpoint)
    ensures entity != 0 && IsEndpoint(endpoint)
    ensures var f := EntityClaimFrame(n.address.value, n.sequence, entity, endpoint);
            && Encode(f) == Success(W.OnWire(W.EntityClaim(n.sequence, endpoint, entity), n.address.value, 0x1FF, 0))
            && f.identifier == CanIdentifier(4, ENTITY_CLAIM, 0x1FF, n.address.value, 0)
  {
    hide Encode, W.OnWire;
    EntityClaimOnWire(n.address.value, n.sequence, entity, endpoint);
  }

  /** A primary assigns exactly when a discovery response reaches its own address, or goes from nobody to
      nobody, while it has an address itself and a free one: the smallest one, past the queues, and it
      is taken then if and only if the transmitter took the frame. */
  lemma ResponseIsAssigned(n: Node, f: ProtocolFrame, now: U32, p: Ports)
    requires ValidFrame(f) && f.identifier.kind == DISCOVERY_RESPONSE && Addressed(n)
    ensures var m, to, from := Dispatch(n, f, now, p), f.identifier.destination, f.identifier.source;
            var free := NextFree(n.reserved, 1);
            if n.role == Primary && n.address.Some? && (to == n.address.value || (to == 0 && from == 0)) && free.Some?
            then
              && 0 < free.value < 0x1FF
              && var raw := W.OnWire(W.AddressAssign(f.payload.bytes[1..7], free.value), n.address.value, 0x1FF, 0);
                 && m.out == SentPast(n.out, raw, p.refused)
                 && m.reserved == n.reserved[free.value := raw !in p.refused]
            else m == n
  {
    hide Encode, W.OnWire, NextFree;
    if n.address.Some? && NextFree(n.reserved, 1).Some? {
      AssignOnWire(n.address.value, f.payload.bytes[1..7], NextFree(n.reserved, 1).value);
    }
  }

  // ---------------------------------------------------------------- publications

  /** An accepted state is queued as a broadcast with the value and the quality that were published; a
      publication takes a sequence number whenever the node has an address and the endpoint. */
  lemma PublishedStateIsQueued(n: Node, endpoint: EndpointId, value: TypedValue, quality: Byte)
    requires NodeInv(n)
    ensures var (m, ok) := PublishState(n, endpoint, value, quality);
            && m.sequence
               == (if n.address.Some? && OwnsEndpoint(n, endpoint) then Following(n.sequence) else n.sequence)
            && (ok ==>
                  && n.address.Some? && 0 < endpoint < 0xFF && quality < 0x20 && Validate(value) == ValueError.NoError
                  && var raw := W.OnWire(W.State(n.sequence, endpoint, quality, value), n.address.value, 0x1FF, 0);
                     raw in m.out.queues[2] && m.out.accepted == n.out.accepted + [raw])
            && (!ok ==> m.out == n.out)
  {
    hide Encode, Enqueue, W.OnWire, KeyOf, OutboxInv, Validate, RefinesLog, OwnersSeen, EndpointSlot;
    if n.address.Some? && CreateState(n.sequence, endpoint, value, quality).Some? {
      var f := StateFrame(n.address.value, ValuePayload(n.sequence, endpoint, value, quality));
      StateOnWire(n.address.value, n.sequence, endpoint, value, quality);
      InvIsShaped(n);
      EnqueueAnswers(n.out, f);
      assert QueueOf(f.identifier.priority) == 2;
    }
  }

  lemma InvIsShaped(n: Node)
    requires NodeInv(n)
    ensures Shaped(n.out)
  {
  }

  lemma EventTakesNumber(n: Node, endpoint: EndpointId, value: TypedValue, flags: Byte)
    ensures PublishEvent(n, endpoint, value, flags).0.sequence
            == if n.address.Some? && OwnsEndpoint(n, endpoint) && flags == 0 then Following(n.sequence) else n.sequence
  {
    hide Enqueue, CreateEvent, EndpointSlot, EventFrame;
  }
}
