/** Which frames a node can put on the wire, and what carries over to everything it queues or sends. */
module NodeFrames {
  import opened Wrappers
  import opened Types
  import opened CanIdentifiers
  import opened TypedValues
  import opened WirePayloads
  import opened FrameCodec
  import opened Payloads
  import opened Outboxes
  import opened Directories
  import opened Duplicates
  import opened Nodes

  /** What decides the content of the frames a node builds during one call: who and where it is, the
      UID a discovery response reported to it, the state it was asked to publish, and what its transmitter
      refuses. */
  datatype Author = Author(
    uid: Uid, address: Option<NodeAddress>, role: Role, reserved: seq<bool>, found: Option<Uid>,
    published: Option<ProtocolFrame>, refused: set<RawCanFrame>)

  predicate Writes(a: Author, n: Node) {
    a.uid == n.uid && a.address == n.address && a.role == n.role && a.reserved == n.reserved
  }

  /** A discovery response that a primary answers with an assignment. */
  predicate Answered(n: Node, f: ProtocolFrame) {
    && f.identifier.kind == DISCOVERY_RESPONSE && n.role == Primary && n.address.Some?
    && (f.identifier.destination == n.address.value
        || (f.identifier.source == UNASSIGNED && f.identifier.destination == UNASSIGNED))
  }

  /** The UID such a response reports. */
  function FoundBy(n: Node, input: Input): Option<Uid> {
    if !input.Received? then None
    else
      match Decode(input.raw)
      case Failure(_) => None
      case Success(f) => if Answered(n, f) then Some(f.payload.bytes[1..7]) else None
  }

  /** The STATE a publication queues. */
  function PublishedBy(n: Node, input: Input): Option<ProtocolFrame> {
    if !input.StatePublished? || n.address.None? then None
    else
      match CreateState(n.sequence, input.endpoint, input.value, input.flags)
      case None => None
      case Some(payload) => Some(StateFrame(n.address.value, payload))
  }

  function RefusedBy(input: Input): set<RawCanFrame> {
    if input.Received? || input.Ticked? || input.Drained? then input.ports.refused else {}
  }

  function AuthorOf(n: Node, input: Input): Author {
    Author(n.uid, n.address, n.role, n.reserved, FoundBy(n, input), PublishedBy(n, input), RefusedBy(input))
  }

  /** Claims and conflicts carry the author's UID and address; an assignment is a primary's, of the
      smallest address it has not reserved, to the UID it just heard of; a STATE is what it publishes. */
  predicate Authored(a: Author, f: ProtocolFrame) {
    var kind, b := f.payload.kind, f.payload.bytes;
    && (kind == ADDRESS_CLAIM ==> a.address == Some(f.identifier.source) && b[..6] == a.uid)
    && (kind == ADDRESS_CONFLICT ==> a.address == Some(f.identifier.destination) && b[..6] == a.uid)
    && (kind == ADDRESS_ASSIGN ==>
          Assigns(a) && f == AssignFrame(a.address.value, a.found.value, NextFree(a.reserved, 1).value))
    && (kind == STATE ==> a.published == Some(f))
  }

  /** What bypasses the queues. */
  predicate IsDirect(f: ProtocolFrame) { f.payload.kind == HEARTBEAT || f.payload.kind == ADDRESS_ASSIGN }

  predicate Assigns(a: Author) {
    a.role == Primary && |a.reserved| == ADDRESSES && a.address.Some? && a.found.Some? && NextFree(a.reserved, 1).Some?
  }

  /** An outbox property that survives everything such an author does to its outbox: queueing a frame
      it may build, popping a head, and sending a built frame past the queues. */
  ghost predicate Kept(a: Author, inv: Outbox -> bool) {
    && (forall o :: inv(o) ==> |o.queues| == CLASSES)
    && (forall o, f :: inv(o) && Authored(a, f) && f.payload.kind != ADDRESS_ASSIGN ==> inv(Enqueue(o, f).0))
    && (forall o, c :: inv(o) && 0 <= c < CLASSES && o.queues[c] != [] ==> inv(Pop(o, c, a.refused)))
    && (forall o, f :: inv(o) && Authored(a, f) && IsDirect(f) && Encode(f).Success? ==>
          inv(Transmit(o, Encode(f).value, false, a.refused)))
  }

  lemma {:induction false} DrainAll(o: Outbox, c: nat, a: Author, inv: Outbox -> bool)
    requires inv(o) && Kept(a, inv)
    ensures |o.queues| == CLASSES && inv(DrainFrom(o, c, a.refused).0)
    decreases CLASSES - c
  {
    if c < CLASSES {
      if o.queues[c] == [] {
        DrainAll(o, c + 1, a, inv);
      } else {
        DrainAll(Pop(o, c, a.refused), c + 1, a, inv);
      }
    }
  }

  lemma SendAll(n: Node, f: ProtocolFrame, a: Author, inv: Outbox -> bool)
    requires inv(n.out) && Writes(a, n) && Kept(a, inv) && Authored(a, f) && f.payload.kind != ADDRESS_ASSIGN
    ensures inv(Send(n, f).out)
  {
  }

  lemma DrainOneAll(n: Node, p: Ports, a: Author, inv: Outbox -> bool)
    requires inv(n.out) && Writes(a, n) && a.refused == p.refused && Kept(a, inv)
    ensures inv(DrainOne(n, p).out)
  {
    DrainAll(n.out, 0, a, inv);
  }

  lemma ClaimAuthored(a: Author)
    requires a.address.Some?
    ensures Authored(a, ClaimFrame(a.uid, a.address.value))
    ensures forall s :: Authored(a, ConflictFrame(a.uid, a.address.value, s))
  {
    assert ClaimFrame(a.uid, a.address.value).payload.bytes[..6] == a.uid;
    forall s ensures Authored(a, ConflictFrame(a.uid, a.address.value, s)) {
      assert ConflictFrame(a.uid, a.address.value, s).payload.bytes[..6] == a.uid;
    }
  }

  lemma AnnounceAll(n: Node, p: Ports, a: Author, inv: Outbox -> bool)
    requires inv(n.out) && Writes(a, n) && a.refused == p.refused && Kept(a, inv)
    ensures inv(Announce(n, p).out)
  {
    var owned := NextOccupied(n.registry.owned, n.schedule.ownedIndex);
    var n1 := n.(schedule := n.schedule.(ownedIndex := owned));
    if MayAnnounce(n) && owned < 16 {
      var entry := n.registry.owned[owned].value;
      var m := n1.(schedule := n1.schedule.(ownedIndex := owned + 1));
      SendAll(m, EntityClaimFrame(n.address.value, n.sequence, entry.entity, entry.endpoint), a, inv);
      DrainOneAll(SendEntityClaim(m, entry.entity, entry.endpoint), p, a, inv);
    } else {
      var observed := NextOccupied(n.registry.observed, n.schedule.observedIndex);
      var n2 := n1.(schedule := n1.schedule.(observedIndex := observed));
      if MayAnnounce(n) && observed < 16 {
        var m := n2.(schedule := n2.schedule.(observedIndex := observed + 1));
        SendAll(m, EntityResolveFrame(n.address.value, n.sequence, n.registry.observed[observed].value), a, inv);
        DrainOneAll(SendEntityResolve(m, n.registry.observed[observed].value), p, a, inv);
      } else {
        DrainOneAll(n2, p, a, inv);
      }
    }
  }

  lemma TickScheduledAll(n: Node, now: U32, p: Ports, a: Author, inv: Outbox -> bool)
    requires inv(n.out) && Writes(a, n) && a.refused == p.refused && Kept(a, inv)
    ensures inv(TickScheduled(n, now, p).out)
  {
    if n.address.None? && now >= n.schedule.nextDiscovery {
      SendAll(n, DiscoveryRequestFrame(n.uid, n.sequence), a, inv);
      DrainOneAll(SendDiscoveryRequest(n, now), p, a, inv);
    } else if n.address.Some? && n.schedule.claimsSent < 2 && now >= n.schedule.nextClaim {
      ClaimAuthored(a);
      SendAll(n, ClaimFrame(n.uid, n.address.value), a, inv);
      DrainOneAll(SendClaim(n), p, a, inv);
    } else if MayAnnounce(n) && now >= n.schedule.nextHeartbeat {
      assert Authored(a, HeartbeatFrame(n.address.value, n.sequence));
    } else {
      AnnounceAll(n, p, a, inv);
    }
  }

  lemma TickAll(n: Node, now: U32, p: Ports, a: Author, inv: Outbox -> bool)
    requires inv(n.out) && Writes(a, n) && a.refused == p.refused && Kept(a, inv)
    ensures inv(Tick(n, now, p).out)
  {
    var m := ExpireNode(n, now);
    if m.pending.Some? && now >= m.pending.value.dueMs {
      var source := if m.address.Some? then m.address.value else UNASSIGNED;
      SendAll(m, DiscoveryResponseFrame(m.uid, m.pending.value.transaction, m.pending.value.requester, source), a, inv);
      DrainOneAll(SendDiscoveryResponse(m, m.pending.value).(pending := None), p, a, inv);
    } else {
      TickScheduledAll(ScheduleClaim(m, now), now, p, a, inv);
    }
  }

  lemma {:induction false} ClaimMatchingAll(n: Node, entity: EntityId, owned: Slots, a: Author, inv: Outbox -> bool)
    requires inv(n.out) && Writes(a, n) && Kept(a, inv)
    ensures inv(ClaimMatching(n, entity, owned).out)
    decreases |owned|
  {
    if owned != [] {
      if owned[0].Some? && owned[0].value.entity == entity {
        if n.address.Some? {
          SendAll(n, EntityClaimFrame(n.address.value, n.sequence, entity, owned[0].value.endpoint), a, inv);
        }
        ClaimMatchingAll(SendEntityClaim(n, entity, owned[0].value.endpoint), entity, owned[1..], a, inv);
      } else {
        ClaimMatchingAll(n, entity, owned[1..], a, inv);
      }
    }
  }

  lemma AcknowledgeAll(n: Node, f: ProtocolFrame, status: Status, a: Author, inv: Outbox -> bool)
    requires inv(n.out) && Writes(a, n) && Kept(a, inv)
    ensures inv(Acknowledge(n, f, status).out)
  {
    if n.address.Some? { SendAll(n, AckFrame(n.address.value, f, status), a, inv); }
  }

  lemma HandleClaimAll(n: Node, source: NodeAddress, b: Bytes8, a: Author, inv: Outbox -> bool)
    requires inv(n.out) && Writes(a, n) && Kept(a, inv)
    ensures inv(HandleClaim(n, source, b).out)
  {
    if n.address.Some? {
      ClaimAuthored(a);
      assert inv(Enqueue(n.out, ConflictFrame(n.uid, n.address.value, n.sequence)).0);
    }
  }

  lemma AssignAll(n: Node, b: Bytes8, p: Ports, a: Author, inv: Outbox -> bool)
    requires n.role == Primary && a.found == Some(b[1..7]) && inv(n.out) && Writes(a, n) && a.refused == p.refused
    requires Kept(a, inv)
    ensures inv(Assign(n, b, p).out)
  {
    match NextFree(n.reserved, 1)
    case None =>
    case Some(candidate) =>
      if n.address.Some? {
        var f := AssignFrame(n.address.value, b[1..7], candidate);
        assert Authored(a, f);
      }
  }

  /** The kinds whose handling may queue or send a frame. */
  predicate MayAnswer(n: Node, kind: Kind) {
    || kind == ADDRESS_CLAIM || (kind == ENTITY_RESOLVE && n.address.Some?) || kind == EVENT || kind == COMMAND
    || (kind == DISCOVERY_RESPONSE && n.role == Primary)
  }

  lemma QuietKinds(n: Node, f: ProtocolFrame, now: U32, p: Ports)
    requires ValidFrame(f) && !MayAnswer(n, f.identifier.kind)
    ensures Dispatch(n, f, now, p).out == n.out
  {
  }

  lemma DispatchAll(n: Node, f: ProtocolFrame, now: U32, p: Ports, a: Author, inv: Outbox -> bool)
    requires Answered(n, f) ==> a.found == Some(f.payload.bytes[1..7])
    requires ValidFrame(f) && inv(n.out) && Writes(a, n) && a.refused == p.refused && Kept(a, inv)
    ensures inv(Dispatch(n, f, now, p).out)
  {
    var kind := f.identifier.kind;
    if !MayAnswer(n, kind) { QuietKinds(n, f, now, p); }
    else if kind == ADDRESS_CLAIM { ClaimDispatched(n, f, now, p, a, inv); }
    else if kind == ENTITY_RESOLVE { ResolveDispatched(n, f, now, p, a, inv); }
    else if kind == EVENT { EventDispatched(n, f, now, p, a, inv); }
    else if kind == COMMAND { CommandDispatched(n, f, now, p, a, inv); }
    else { ResponseDispatched(n, f, now, p, a, inv); }
  }

  lemma ClaimDispatched(n: Node, f: ProtocolFrame, now: U32, p: Ports, a: Author, inv: Outbox -> bool)
    requires ValidFrame(f) && inv(n.out) && Writes(a, n) && a.refused == p.refused && Kept(a, inv)
    requires f.identifier.kind == ADDRESS_CLAIM
    ensures inv(Dispatch(n, f, now, p).out)
  {
    HandleClaimAll(n, f.identifier.source, f.payload.bytes, a, inv);
  }

  lemma ResolveDispatched(n: Node, f: ProtocolFrame, now: U32, p: Ports, a: Author, inv: Outbox -> bool)
    requires ValidFrame(f) && inv(n.out) && Writes(a, n) && a.refused == p.refused && Kept(a, inv)
    requires f.identifier.kind == ENTITY_RESOLVE
    ensures inv(Dispatch(n, f, now, p).out)
  {
    ClaimMatchingAll(n, U32At(f.payload.bytes, 2), n.registry.owned, a, inv);
  }

  lemma ResponseDispatched(n: Node, f: ProtocolFrame, now: U32, p: Ports, a: Author, inv: Outbox -> bool)
    requires ValidFrame(f) && inv(n.out) && Writes(a, n) && a.refused == p.refused && Kept(a, inv)
    requires f.identifier.kind == DISCOVERY_RESPONSE && (Answered(n, f) ==> a.found == Some(f.payload.bytes[1..7]))
    ensures inv(Dispatch(n, f, now, p).out)
  {
    if Answered(n, f) { AssignAll(n, f.payload.bytes, p, a, inv); }
  }

  lemma EventDispatched(n: Node, f: ProtocolFrame, now: U32, p: Ports, a: Author, inv: Outbox -> bool)
    requires ValidFrame(f) && inv(n.out) && Writes(a, n) && a.refused == p.refused && Kept(a, inv)
    requires f.identifier.kind == EVENT
    ensures inv(Dispatch(n, f, now, p).out)
  {
    HandleEventAll(n, f, a, inv);
  }

  lemma CommandDispatched(n: Node, f: ProtocolFrame, now: U32, p: Ports, a: Author, inv: Outbox -> bool)
    requires ValidFrame(f) && inv(n.out) && Writes(a, n) && a.refused == p.refused && Kept(a, inv)
    requires f.identifier.kind == COMMAND
    ensures inv(Dispatch(n, f, now, p).out)
  {
    HandleCommandAll(n, f, now, p.status, a, inv);
  }

  lemma HandleEventAll(n: Node, f: ProtocolFrame, a: Author, inv: Outbox -> bool)
    requires inv(n.out) && Writes(a, n) && Kept(a, inv)
    ensures inv(HandleEvent(n, f).out)
  {
    var b := f.payload.bytes;
    var heard := match EntityFor(n, f.identifier.source, b[1])
                 case None => n
                 case Some(entity) =>
                   n.(events := n.events + Notify(n.registry.eventListeners, entity, SlotValue(b), b[3]));
    AcknowledgeAll(heard, f, ACCEPTED, a, inv);
  }

  lemma HandleCommandAll(n: Node, f: ProtocolFrame, now: U32, status: Status, a: Author, inv: Outbox -> bool)
    requires inv(n.out) && Writes(a, n) && Kept(a, inv)
    ensures inv(HandleCommand(n, f, now, status).out)
  {
    var (done, answer) := match EarlierStatus(n.duplicates, KeyOfCommand(f), now)
                          case Some(earlier) => (n, earlier)
                          case None => Execute(n, f, now, status);
    AcknowledgeAll(done, f, answer, a, inv);
  }

  /** One public call keeps every outbox property that its author's primitive actions keep. */
  lemma StepAll(n: Node, input: Input, inv: Outbox -> bool)
    requires inv(n.out) && Kept(AuthorOf(n, input), inv)
    requires input.FrameEnqueued? ==> inv(Enqueue(n.out, input.frame).0)
    ensures inv(Step(n, input).out)
  {
    var a := AuthorOf(n, input);
    match input
    case Received(raw, now, ports) =>
      if Decode(raw).Success? {
        EncodeDecoded(raw);
        var f := Decode(raw).value;
        DispatchAll(HearNode(n, f.identifier.source, now), f, now, ports, a, inv);
      }
    case Ticked(now, ports) => TickAll(n, now, ports, a, inv);
    case StatePublished(endpoint, value, flags) =>
      var payload := CreateState(n.sequence, endpoint, value, flags);
      if n.address.Some? && payload.Some? {
        SendAll(n, StateFrame(n.address.value, payload.value), a, inv);
      }
    case EventPublished(endpoint, value, flags) =>
      var payload := CreateEvent(n.sequence, endpoint, value, flags);
      if n.address.Some? && payload.Some? {
        SendAll(n, EventFrame(n.address.value, payload.value), a, inv);
      }
    case FrameEnqueued(frame) =>
    case Drained(ports) => DrainOneAll(n, ports, a, inv);
    case _ =>
  }

  // ---------------------------------------------------------------- two such properties

  /** Every frame queued, and every frame ever handed to the transmitter, is good. */
  ghost predicate AllFrames(o: Outbox, good: RawCanFrame -> bool) {
    && |o.queues| == CLASSES
    && (forall c, i :: 0 <= c < CLASSES && 0 <= i < |o.queues[c]| ==> good(o.queues[c][i]))
    && (forall k :: 0 <= k < |o.wire| ==> good(o.wire[k].raw))
  }

  ghost function FramesInv(good: RawCanFrame -> bool): Outbox -> bool { o => AllFrames(o, good) }

  /** Everything this author may build encodes to a good frame. */
  ghost predicate Licensed(a: Author, good: RawCanFrame -> bool) {
    forall f :: Authored(a, f) && Encode(f).Success? ==> good(Encode(f).value)
  }

  lemma EnqueueAllFrames(o: Outbox, f: ProtocolFrame, good: RawCanFrame -> bool)
    requires AllFrames(o, good) && (Encode(f).Success? ==> good(Encode(f).value))
    ensures AllFrames(Enqueue(o, f).0, good)
  {
    if Encode(f).Success? { EncodedClass(f); }
  }

  lemma FramesKept(a: Author, good: RawCanFrame -> bool)
    requires Licensed(a, good)
    ensures Kept(a, FramesInv(good))
  {
    forall o, f | AllFrames(o, good) && Authored(a, f) ensures AllFrames(Enqueue(o, f).0, good) {
      EnqueueAllFrames(o, f, good);
    }
  }

  ghost function QueueInv(): Outbox -> bool { o => OutboxInv(o) }

  lemma QueueInvKept(a: Author)
    ensures Kept(a, QueueInv())
  {
    forall o, f | OutboxInv(o) ensures OutboxInv(Enqueue(o, f).0) { EnqueueKeepsInv(o, f); }
    forall o, c | OutboxInv(o) && 0 <= c < CLASSES && o.queues[c] != [] ensures OutboxInv(Pop(o, c, a.refused)) {
      PopKeepsInv(o, c, a.refused);
    }
    forall o, f | OutboxInv(o) && Encode(f).Success? ensures OutboxInv(Transmit(o, Encode(f).value, false, a.refused)) {
      TransmitKeepsInv(o, Encode(f).value, a.refused);
    }
  }
}
