/** Finding an entity: the owner answers a resolve with a claim, and the claim locates the entity. */
module EntityResolution {
  import opened Wrappers
  import opened Types
  import opened CanIdentifiers
  import opened WirePayloads
  import opened FrameCodec
  import opened Outboxes
  import opened Directories
  import opened Nodes
  import opened NodeInvariants
  import opened CodecClosure

  /** Where a node owns an entity. */
  function OwnedAt(owned: Slots, entity: EntityId): Option<EndpointId> {
    var i := SlotOf(owned, entity);
    if i < |owned| then Some(owned[i].value.endpoint) else None
  }

  lemma {:induction false} NoMatchSaysNothing(n: Node, entity: EntityId, owned: Slots)
    requires forall i :: 0 <= i < |owned| ==> owned[i].None? || owned[i].value.entity != entity
    ensures ClaimMatching(n, entity, owned) == n
    decreases |owned|
  {
    if owned != [] { NoMatchSaysNothing(n, entity, owned[1..]); }
  }

  /** An entity that is owned at one place is claimed once. */
  lemma {:induction false} OneMatchClaimsOnce(n: Node, entity: EntityId, owned: Slots)
    requires UniqueEntities(owned)
    ensures ClaimMatching(n, entity, owned)
            == match OwnedAt(owned, entity)
               case None => n
               case Some(endpoint) => SendEntityClaim(n, entity, endpoint)
    decreases |owned|
  {
    if owned != [] {
      if owned[0].Some? && owned[0].value.entity == entity {
        NoMatchSaysNothing(SendEntityClaim(n, entity, owned[0].value.endpoint), entity, owned[1..]);
      } else {
        OneMatchClaimsOnce(n, entity, owned[1..]);
      }
    }
  }

  /** A commissioned node answers a resolve with exactly one claim, of the endpoint it owns the entity
      at, and stays silent about entities of others. */
  lemma ResolveIsAnswered(n: Node, f: ProtocolFrame, now: U32, p: Ports)
    requires ValidFrame(f) && f.identifier.kind == ENTITY_RESOLVE && n.address.Some? && RegistryOk(n.registry)
    ensures var entity := U32At(f.payload.bytes, 2);
            Dispatch(n, f, now, p)
            == match OwnedAt(n.registry.owned, entity)
               case None => n
               case Some(endpoint) => SendEntityClaim(n, entity, endpoint)
  {
    hide SendEntityClaim, OwnedAt;
    OneMatchClaimsOnce(n, U32At(f.payload.bytes, 2), n.registry.owned);
  }

  /** The resolve and the claim carry the entity through the codec. */
  lemma FramesCarryEntity(a: NodeAddress, s: Byte, entity: EntityId, endpoint: EndpointId)
    requires IsUnicast(a) && entity != 0 && IsEndpoint(endpoint)
    ensures var resolve, claim := EntityResolveFrame(a, s, entity), EntityClaimFrame(a, s, entity, endpoint);
            && Encode(resolve).Success? && Decode(Encode(resolve).value) == Success(resolve)
            && U32At(resolve.payload.bytes, 2) == entity
            && Encode(claim).Success? && Decode(Encode(claim).value) == Success(claim)
            && U32At(claim.payload.bytes, 2) == entity
            && ValidFrame(resolve) && ValidFrame(claim)
  {
    EntityFrames(a, s, entity, endpoint);
    DecodeEncoded(EntityResolveFrame(a, s, entity));
    DecodeEncoded(EntityClaimFrame(a, s, entity, endpoint));
    WordOfBytes(entity);
  }

  /** A claim locates an unknown entity, while there is room, and never moves a known one. */
  lemma ClaimLocates(n: Node, a: NodeAddress, s: Byte, entity: EntityId, endpoint: EndpointId, now: U32, p: Ports)
    requires IsUnicast(a) && entity != 0 && IsEndpoint(endpoint) && RefinesLog(n.dir)
    ensures Encode(EntityClaimFrame(a, s, entity, endpoint)).Success?
    ensures var known, location := Resolve(n.dir.slots, entity), EntityLocation(entity, a, endpoint);
            Resolve(Receive(n, Encode(EntityClaimFrame(a, s, entity, endpoint)).value, now, p).dir.slots, entity)
            == if known.Some? then (if known == Some(location) then known else None)
               else if None in n.dir.slots then Some(location) else None
  {
    hide Encode, Decode, Learn, Resolve;
    FramesCarryEntity(a, s, entity, endpoint);
    LearnAsMap(HearNode(n, a, now).dir, EntityLocation(entity, a, endpoint), entity);
  }

  /** From the observer's resolve to its directory: the owner queues a claim, and the observer that gets
      it finds the entity at the owner's address and endpoint, unless it knew another place or has
      no room. */
  lemma ResolveFindsOwner(owner: Node, a: NodeAddress, observer: Node, b: NodeAddress, s: Byte, entity: EntityId,
                          now: U32, later: U32, p: Ports, q: Ports)
    requires NodeInv(owner) && owner.address == Some(a) && OwnedAt(owner.registry.owned, entity).Some?
    requires IsUnicast(b) && RefinesLog(observer.dir) && Resolve(observer.dir.slots, entity).None?
    requires None in observer.dir.slots
    requires |owner.out.queues[3]| < CAPACITY
    ensures var endpoint := OwnedAt(owner.registry.owned, entity).value;
            var asked := Encode(EntityResolveFrame(b, s, entity));
            var claim := Encode(EntityClaimFrame(a, owner.sequence, entity, endpoint));
            && asked.Success? && claim.Success?
            && Receive(owner, asked.value, now, p).out.queues[3] == owner.out.queues[3] + [claim.value]
            && Resolve(Receive(observer, claim.value, later, q).dir.slots, entity)
               == Some(EntityLocation(entity, a, endpoint))
  {
    hide Encode, Decode, Dispatch, Resolve, RefinesLog, OutboxInv, EntityResolveFrame, EntityClaimFrame, FirstPending;
    var i := SlotOf(owner.registry.owned, entity);
    var endpoint := owner.registry.owned[i].value.endpoint;
    FramesCarryEntity(a, owner.sequence, entity, endpoint);
    FramesCarryEntity(b, s, entity, endpoint);
    FrameShapes(a, owner.sequence, b, s, entity, endpoint);
    ResolveIsAnswered(HearNode(owner, b, now), EntityResolveFrame(b, s, entity), now, p);
    ClaimLocates(observer, a, owner.sequence, entity, endpoint, later, q);
  }

  lemma FrameShapes(a: NodeAddress, s: Byte, b: NodeAddress, t: Byte, entity: EntityId, endpoint: EndpointId)
    ensures EntityResolveFrame(b, t, entity).identifier == CanIdentifier(MANAGEMENT, ENTITY_RESOLVE, BROADCAST, b, 0)
    ensures EntityClaimFrame(a, s, entity, endpoint).identifier
            == CanIdentifier(MANAGEMENT, ENTITY_CLAIM, BROADCAST, a, 0)
  {
  }

  // ---------------------------------------------------------------- which entity a frame is about

  /** The directory has the entity at that place. */
  predicate Found(n: Node, entity: EntityId, node: NodeAddress, endpoint: EndpointId) {
    Resolve(n.dir.slots, entity) == Some(EntityLocation(entity, node, endpoint))
  }

  /** The node itself, at that address, owns the entity at that endpoint. */
  predicate Mine(n: Node, entity: EntityId, node: NodeAddress, endpoint: EndpointId) {
    n.address == Some(node) && OwnedAt(n.registry.owned, entity) == Some(endpoint)
  }

  lemma {:induction false} SlotResolves(slots: Slots, i: nat)
    requires UniqueEntities(slots) && i < |slots| && slots[i].Some?
    ensures Resolve(slots, slots[i].value.entity) == slots[i] && SlotOf(slots, slots[i].value.entity) == i
  {
  }

  lemma {:induction false} FoundInSlot(n: Node, entity: EntityId, node: NodeAddress, endpoint: EndpointId)
    requires Found(n, entity, node, endpoint)
    ensures EndpointSlot(n.dir.slots, Some(node), endpoint) < 32
  {
    assert n.dir.slots[SlotOf(n.dir.slots, entity)] == Some(EntityLocation(entity, node, endpoint));
  }

  /** A frame from an endpoint of a node is about the entity that the node owns there itself, if the
      frame bears its own address; else about one that the directory has at that very place; and about
      none only if the directory has none there. */
  lemma FrameIsAbout(n: Node, source: NodeAddress, endpoint: EndpointId, x: EntityId)
    requires UniqueEntities(n.dir.slots) && RegistryOk(n.registry)
    ensures Mine(n, x, source, endpoint) ==> EntityFor(n, source, endpoint) == Some(x)
    ensures EntityFor(n, source, endpoint) == Some(x) ==> Mine(n, x, source, endpoint) || Found(n, x, source, endpoint)
    ensures EntityFor(n, source, endpoint) == None ==> !Mine(n, x, source, endpoint) && !Found(n, x, source, endpoint)
  {
    var own, known := EndpointSlot(n.registry.owned, None, endpoint), EndpointSlot(n.dir.slots, Some(source), endpoint);
    if own < 16 { SlotResolves(n.registry.owned, own); }
    if known < 32 { SlotResolves(n.dir.slots, known); }
    if Found(n, x, source, endpoint) { FoundInSlot(n, x, source, endpoint); }
    if Mine(n, x, source, endpoint) {
      var i := SlotOf(n.registry.owned, x);
      assert n.registry.owned[i].Some? && n.registry.owned[i].value.endpoint == endpoint;
    }
  }

  /** The directory has the entity at that place, which is not the node's own, and no other one there. */
  predicate Locates(n: Node, entity: EntityId, node: NodeAddress, endpoint: EndpointId) {
    && n.address != Some(node) && Found(n, entity, node, endpoint)
    && forall x: EntityId :: Found(n, x, node, endpoint) ==> x == entity
  }

  /** So a frame from there is about it. */
  lemma LocatedIsMeant(n: Node, entity: EntityId, source: NodeAddress, endpoint: EndpointId)
    requires UniqueEntities(n.dir.slots) && RegistryOk(n.registry) && Locates(n, entity, source, endpoint)
    ensures EntityFor(n, source, endpoint) == Some(entity)
  {
    FrameIsAbout(n, source, endpoint, entity);
    if EntityFor(n, source, endpoint).Some? {
      FrameIsAbout(n, source, endpoint, EntityFor(n, source, endpoint).value);
    }
  }
}
