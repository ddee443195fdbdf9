/** What holds of a node in every reachable state, and that it is closed under its own codec. */
module NodeInvariants {
  import opened Wrappers
  import opened Types
  import opened CanIdentifiers
  import opened TypedValues
  import opened WirePayloads
  import opened FrameCodec
  import opened Payloads
  import opened Outboxes
  import opened Directories
  import opened Duplicates
  import opened Nodes
  import opened NodeFrames

  predicate IsUnicast(a: NodeAddress) { 0 < a < BROADCAST }

  /** A held address is a unicast address that this node has marked as taken. */
  predicate Addressed(n: Node) {
    && (n.address.Some? ==> IsUnicast(n.address.value) && n.reserved[n.address.value])
    && (n.stored.Some? ==> IsUnicast(n.stored.value))
  }

  predicate RegistryOk(r: Registry) {
    && (forall i :: 0 <= i < |r.owned| && r.owned[i].Some? ==>
          r.owned[i].value.entity != 0 && IsEndpoint(r.owned[i].value.endpoint))
    && (forall i :: 0 <= i < |r.observed| && r.observed[i].Some? ==> r.observed[i].value != 0)
    && (forall i, j :: 0 <= i < j < |r.owned| && r.owned[i].Some? && r.owned[j].Some? ==>
          r.owned[i].value.entity != r.owned[j].value.entity && r.owned[i].value.endpoint != r.owned[j].value.endpoint)
  }

  predicate PendingOk(n: Node) { n.pending.Some? ==> n.pending.value.requester != BROADCAST }

  predicate Decodable(raw: RawCanFrame) { Decode(raw).Success? }

  ghost predicate NodeInv(n: Node) {
    && Addressed(n) && RegistryOk(n.registry) && PendingOk(n)
    && OutboxInv(n.out) && AllFrames(n.out, Decodable)
    && RefinesLog(n.dir) && OwnersSeen(n.dir)
  }

  /** What a caller of the constructor owes: storage yields a unicast address or nothing. */
  predicate Storable(stored: Option<NodeAddress>) { stored.Some? ==> IsUnicast(stored.value) }

  lemma BootInv(uid: Uid, role: Role, stored: Option<NodeAddress>, saved: bool)
    requires Storable(stored)
    ensures NodeInv(Boot(uid, role, stored, saved))
  {
    hide RefinesLog, OutboxInv;
    EmptyOutboxInv();
    EmptyDirectory(Boot(uid, role, stored, saved).dir);
  }

  lemma EmptyDirectory(d: Directory)
    requires d.events == [] && forall i :: 0 <= i < |d.slots| ==> d.slots[i].None?
    ensures RefinesLog(d)
  {
    forall e: EntityId ensures Resolve(d.slots, e) == LastLocation(d.events, e) {
      assert SlotOf(d.slots, e) == |d.slots|;
    }
  }

  // ---------------------------------------------------------------- outbox

  lemma DecodableLicensed(a: Author)
    ensures Licensed(a, Decodable)
  {
    forall f | Encode(f).Success? ensures Decodable(Encode(f).value) { DecodeEncoded(f); }
  }

  lemma StepKeepsOutbox(n: Node, input: Input)
    requires OutboxInv(n.out) && AllFrames(n.out, Decodable)
    ensures OutboxInv(Step(n, input).out) && AllFrames(Step(n, input).out, Decodable)
  {
    var a := AuthorOf(n, input);
    QueueInvKept(a);
    DecodableLicensed(a);
    FramesKept(a, Decodable);
    if input.FrameEnqueued? {
      EnqueueKeepsInv(n.out, input.frame);
      if Encode(input.frame).Success? { DecodeEncoded(input.frame); }
      EnqueueAllFrames(n.out, input.frame, Decodable);
    }
    StepAll(n, input, QueueInv());
    StepAll(n, input, FramesInv(Decodable));
  }

  // ---------------------------------------------------------------- directory

  lemma HearKeepsDirectory(d: Directory, source: NodeAddress, now: U32)
    requires WellSized(d) && RefinesLog(d) && OwnersSeen(d)
    ensures RefinesLog(Hear(d, source, now)) && OwnersSeen(Hear(d, source, now))
  {
  }

  lemma {:induction false} ClaimMatchingKeeps(n: Node, entity: EntityId, owned: Slots)
    ensures var m := ClaimMatching(n, entity, owned);
            m == n.(out := m.out, sequence := m.sequence)
    decreases |owned|
  {
    if owned != [] {
      var hit := owned[0].Some? && owned[0].value.entity == entity;
      ClaimMatchingKeeps(if hit then SendEntityClaim(n, entity, owned[0].value.endpoint) else n, entity, owned[1..]);
    }
  }

  /** What handling a frame may change, kind by kind. */
  predicate Touches(n: Node, m: Node, kind: Kind) {
    if kind == ADDRESS_CLAIM then
      m == n.(reserved := m.reserved, address := m.address, out := m.out, sequence := m.sequence,
              schedule := m.schedule, conflicts := m.conflicts)
    else if kind == DISCOVERY_REQUEST then m == n.(pending := m.pending)
    else if kind == ADDRESS_CONFLICT then
      m == n.(address := m.address, schedule := m.schedule, conflicts := m.conflicts)
    else if kind == ADDRESS_ASSIGN then
      m == n.(stored := m.stored, address := m.address, reserved := m.reserved, schedule := m.schedule)
    else if kind == ENTITY_CLAIM then m == n.(dir := m.dir)
    else if kind == ENTITY_RESOLVE then m == n.(out := m.out, sequence := m.sequence)
    else if kind == STATE then m == n.(states := m.states)
    else if kind == EVENT then m == n.(events := m.events, out := m.out)
    else if kind == COMMAND then m == n.(duplicates := m.duplicates, executions := m.executions, out := m.out)
    else if kind == DISCOVERY_RESPONSE then m == n.(out := m.out, reserved := m.reserved)
    else m == n
  }

  /** The call gives the node an address: an assignment to its UID that storage accepts. */
  predicate Reassigns(uid: Uid, input: Input) {
    && input.Received? && input.ports.saved && Decode(input.raw).Success?
    && Decode(input.raw).value.identifier.kind == ADDRESS_ASSIGN && Decode(input.raw).value.payload.bytes[..6] == uid
  }

  lemma ClaimTouches(n: Node, source: NodeAddress, b: Bytes8)
    ensures Touches(n, HandleClaim(n, source, b), ADDRESS_CLAIM)
  {
    hide LowerFromTop, ConflictFrame, Enqueue;
  }

  lemma ConflictTouches(n: Node, b: Bytes8)
    requires n.address.Some?
    ensures Touches(n, HandleConflict(n, b), ADDRESS_CONFLICT)
  {
    hide LowerFromTop;
  }

  lemma AssignTouches(n: Node, b: Bytes8, now: U32, saved: bool)
    ensures Touches(n, HandleAssign(n, b, now, saved), ADDRESS_ASSIGN)
  {
    hide AssignedAddress;
  }

  lemma EventTouches(n: Node, f: ProtocolFrame)
    ensures Touches(n, HandleEvent(n, f), EVENT)
  {
    hide EntityFor, Notify, Enqueue, AckFrame;
  }

  lemma StateTouches(n: Node, source: NodeAddress, b: Bytes8)
    ensures Touches(n, HandleState(n, source, b), STATE)
  {
    hide EntityFor, Notify;
  }

  lemma CommandTouches(n: Node, f: ProtocolFrame, now: U32, status: Status)
    ensures Touches(n, HandleCommand(n, f, now, status), COMMAND)
  {
    hide EarlierStatus, Record, SetStatus, HandlerSlot, Enqueue, AckFrame;
  }

  lemma ResponseTouches(n: Node, f: ProtocolFrame, p: Ports)
    ensures Touches(n, HandleDiscoveryResponse(n, f, p), DISCOVERY_RESPONSE)
  {
    hide NextFree, Encode, AssignFrame;
  }

  lemma DispatchTouches(n: Node, f: ProtocolFrame, now: U32, p: Ports)
    requires ValidFrame(f)
    ensures Touches(n, Dispatch(n, f, now, p), f.identifier.kind)
  {
    hide HandleClaim, HandleConflict, HandleAssign, ClaimMatching, HandleState, HandleEvent, HandleCommand;
    hide HandleDiscoveryResponse;
    hide Learn, ScheduleResponse;
    var kind, b := f.identifier.kind, f.payload.bytes;
    if kind == ADDRESS_CLAIM { ClaimTouches(n, f.identifier.source, b); }
    else if kind == ADDRESS_CONFLICT { if n.address.Some? { ConflictTouches(n, b); } }
    else if kind == ADDRESS_ASSIGN { AssignTouches(n, b, now, p.saved); }
    else if kind == ENTITY_RESOLVE { ClaimMatchingKeeps(n, U32At(b, 2), n.registry.owned); }
    else if kind == STATE { StateTouches(n, f.identifier.source, b); }
    else if kind == EVENT { EventTouches(n, f); }
    else if kind == COMMAND { CommandTouches(n, f, now, p.status); }
    else if kind == DISCOVERY_RESPONSE { ResponseTouches(n, f, p); }
  }

  lemma DispatchDirectory(n: Node, f: ProtocolFrame, now: U32, p: Ports)
    requires ValidFrame(f)
    ensures Dispatch(n, f, now, p).dir
            == if f.identifier.kind == ENTITY_CLAIM
               then Learn(n.dir, EntityLocation(U32At(f.payload.bytes, 2), f.identifier.source, f.payload.bytes[1]))
               else n.dir
  {
    hide HandleClaim, HandleConflict, HandleAssign, ClaimMatching, HandleState, HandleEvent, HandleCommand;
    hide HandleDiscoveryResponse;
    hide Learn;
    DispatchTouches(n, f, now, p);
  }

  lemma TickDirectory(n: Node, now: U32, p: Ports)
    ensures Tick(n, now, p).dir == Expire(n.dir, now)
  {
    hide Expire, Enqueue, Drain, Encode;
  }

  lemma ReceiveKeepsDirectory(n: Node, raw: RawCanFrame, now: U32, p: Ports)
    requires RefinesLog(n.dir) && OwnersSeen(n.dir)
    ensures RefinesLog(Receive(n, raw, now, p).dir) && OwnersSeen(Receive(n, raw, now, p).dir)
  {
    if Decode(raw).Success? {
      EncodeDecoded(raw);
      var f := Decode(raw).value;
      var heard := HearNode(n, f.identifier.source, now);
      HearKeepsDirectory(n.dir, f.identifier.source, now);
      DispatchDirectory(heard, f, now, p);
      if f.identifier.kind == ENTITY_CLAIM {
        var location := EntityLocation(U32At(f.payload.bytes, 2), f.identifier.source, f.payload.bytes[1]);
        LearnRefines(heard.dir, location);
        LearnKeepsOwners(heard.dir, location);
      }
    }
  }

  lemma StepKeepsDirectory(n: Node, input: Input)
    requires RefinesLog(n.dir) && OwnersSeen(n.dir)
    ensures RefinesLog(Step(n, input).dir) && OwnersSeen(Step(n, input).dir)
  {
    match input
    case Received(raw, now, ports) => ReceiveKeepsDirectory(n, raw, now, ports);
    case Ticked(now, ports) =>
      TickDirectory(n, now, ports);
      ExpireRefines(n.dir, 1, now);
      ExpireForgetsStale(n.dir, 1, now);
    case _ =>
  }

  // ---------------------------------------------------------------- addresses, registry, pending response

  /** Receiving never changes who the node is or what is registered. */
  lemma DispatchIdentity(n: Node, f: ProtocolFrame, now: U32, p: Ports)
    requires ValidFrame(f)
    ensures var m := Dispatch(n, f, now, p); m.uid == n.uid && m.role == n.role && m.registry == n.registry
  {
    hide Dispatch;
    DispatchTouches(n, f, now, p);
  }

  /** The address state changes only by claims, conflicts, assignments and discovery responses. */
  lemma DispatchAddressFrame(n: Node, f: ProtocolFrame, now: U32, p: Ports)
    requires ValidFrame(f)
    requires f.identifier.kind != ADDRESS_CLAIM && f.identifier.kind != ADDRESS_CONFLICT
    requires f.identifier.kind != ADDRESS_ASSIGN && f.identifier.kind != DISCOVERY_RESPONSE
    ensures var m := Dispatch(n, f, now, p);
            m.address == n.address && m.stored == n.stored && m.reserved == n.reserved && m.conflicts == n.conflicts
  {
    hide Dispatch;
    DispatchTouches(n, f, now, p);
  }

  lemma DispatchPending(n: Node, f: ProtocolFrame, now: U32, p: Ports)
    requires ValidFrame(f)
    ensures Dispatch(n, f, now, p).pending
            == if f.identifier.kind == DISCOVERY_REQUEST
               then Some(ScheduleResponse(n.uid, f.payload.bytes, f.identifier.source, now)) else n.pending
  {
    hide HandleClaim, HandleConflict, HandleAssign, ClaimMatching, HandleState, HandleEvent, HandleCommand;
    hide HandleDiscoveryResponse;
    hide Learn, ScheduleResponse;
    DispatchTouches(n, f, now, p);
  }

  lemma DispatchKeepsAddressed(n: Node, f: ProtocolFrame, now: U32, p: Ports)
    requires ValidFrame(f) && Addressed(n)
    ensures Addressed(Dispatch(n, f, now, p))
  {
    var kind, b := f.identifier.kind, f.payload.bytes;
    if kind == ADDRESS_CLAIM {
      assert Dispatch(n, f, now, p) == HandleClaim(n, f.identifier.source, b);
    } else if kind == ADDRESS_CONFLICT {
      assert Dispatch(n, f, now, p) == if n.address == Some(f.identifier.destination) then HandleConflict(n, b) else n;
    } else if kind == ADDRESS_ASSIGN {
      assert Dispatch(n, f, now, p) == HandleAssign(n, b, now, p.saved);
    } else if kind == DISCOVERY_RESPONSE {
      assert Dispatch(n, f, now, p) == HandleDiscoveryResponse(n, f, p);
    } else {
      DispatchAddressFrame(n, f, now, p);
    }
  }

  lemma RegistrationOk(r: Registry, input: Input)
    requires RegistryOk(r) && |r.owned| == |r.observed| == 16
    ensures input.OwnedRegistered? ==> RegistryOk(RegisterOwned(r, input.entity, input.endpoint).0)
    ensures input.ObservedRegistered? ==> RegistryOk(RegisterObserved(r, input.entity).0)
    ensures input.HandlerRegistered? ==> RegistryOk(RegisterHandler(r, input.handler).0)
    ensures input.StateListenerRegistered? ==> RegistryOk(RegisterStateListener(r, input.listener).0)
    ensures input.EventListenerRegistered? ==> RegistryOk(RegisterEventListener(r, input.listener).0)
  {
  }

  /** What no tick touches: identity, address, registry, and the record of commands and deliveries. */
  predicate TickPreserves(n: Node, m: Node) {
    && m.uid == n.uid && m.role == n.role && m.stored == n.stored && m.address == n.address
    && m.reserved == n.reserved && m.registry == n.registry && m.duplicates == n.duplicates
    && m.conflicts == n.conflicts && m.executions == n.executions && m.states == n.states && m.events == n.events
  }

  lemma AnnounceFrame(n: Node, p: Ports)
    ensures TickPreserves(n, Announce(n, p)) && Announce(n, p).pending == n.pending
  {
  }

  lemma TickScheduledFrame(n: Node, now: U32, p: Ports)
    ensures TickPreserves(n, TickScheduled(n, now, p))
  {
    AnnounceFrame(n, p);
  }

  lemma TickFrame(n: Node, now: U32, p: Ports)
    ensures TickPreserves(n, Tick(n, now, p))
  {
    hide TickScheduled, Expire, Enqueue, Drain;
    TickScheduledFrame(ScheduleClaim(ExpireNode(n, now), now), now, p);
  }

  lemma TickPending(n: Node, now: U32, p: Ports)
    ensures PendingOk(n) ==> PendingOk(Tick(n, now, p))
  {
    hide Expire, Enqueue, Drain, Encode;
  }

  lemma StepKeepsInv(n: Node, input: Input)
    requires NodeInv(n)
    ensures NodeInv(Step(n, input))
  {
    StepKeepsOutbox(n, input);
    StepKeepsDirectory(n, input);
    StepKeepsAddressed(n, input);
  }

  lemma StepKeepsAddressed(n: Node, input: Input)
    requires Addressed(n) && RegistryOk(n.registry) && PendingOk(n)
    ensures var m := Step(n, input); Addressed(m) && RegistryOk(m.registry) && PendingOk(m)
  {
    hide Dispatch, Tick, Enqueue, Drain, RegisterOwned, RegisterObserved;
    RegistrationOk(n.registry, input);
    match input
    case Received(raw, now, ports) =>
      if Decode(raw).Success? {
        EncodeDecoded(raw);
        var f := Decode(raw).value;
        var heard := HearNode(n, f.identifier.source, now);
        DispatchIdentity(heard, f, now, ports);
        DispatchPending(heard, f, now, ports);
        DispatchKeepsAddressed(heard, f, now, ports);
      }
    case Ticked(now, ports) =>
      TickFrame(n, now, ports);
      TickPending(n, now, ports);
    case _ =>
  }

  /** Every state any run of public calls can reach from the constructor. */
  lemma {:induction false} RunKeepsInv(
    uid: Uid, role: Role, stored: Option<NodeAddress>, saved: bool, inputs: seq<Input>)
    requires Storable(stored)
    ensures NodeInv(Run(Boot(uid, role, stored, saved), inputs))
    decreases |inputs|
  {
    var n := Boot(uid, role, stored, saved);
    if inputs == [] {
      BootInv(uid, role, stored, saved);
    } else {
      RunKeepsInv(uid, role, stored, saved, inputs[..|inputs| - 1]);
      StepKeepsInv(Run(n, inputs[..|inputs| - 1]), inputs[|inputs| - 1]);
    }
  }

  /** In every run, frame by frame: what was accepted was transmitted, refused, superseded or is still
      queued, as often as it was accepted; only a STATE is superseded, by one of its own key; no queue
      holds more than eight frames, or two STATEs of one key. */
  lemma {:induction false} FramesAreConserved(
    uid: Uid, role: Role, stored: Option<NodeAddress>, saved: bool, inputs: seq<Input>, raw: RawCanFrame)
    requires Storable(stored)
    ensures var o := Run(Boot(uid, role, stored, saved), inputs).out;
            && multiset(o.accepted)[raw]
               == Outboxes.Drained(o.wire, true)[raw] + Outboxes.Drained(o.wire, false)[raw]
                  + Stale(o.superseded)[raw] + Pending(o.queues)[raw]
            && OnlyStatesSuperseded(o)
            && forall c :: 0 <= c < 5 ==> |o.queues[c]| <= 8 && DistinctKeys(o.queues[c])
  {
    hide Run, Boot;
    RunKeepsInv(uid, role, stored, saved, inputs);
    assert ConservedAt(Run(Boot(uid, role, stored, saved), inputs).out, raw);
  }

  /** In every run, entity by entity: the callbacks alternate, starting with an arrival, and replaying
      them gives exactly what `resolve` answers. */
  lemma {:induction false} DirectoryReplaysLog(
    uid: Uid, role: Role, stored: Option<NodeAddress>, saved: bool, inputs: seq<Input>, entity: EntityId)
    requires Storable(stored)
    ensures var d := Run(Boot(uid, role, stored, saved), inputs).dir;
            var log := About(d.events, entity);
            && Resolve(d.slots, entity) == LastLocation(d.events, entity)
            && (Resolve(d.slots, entity).Some? <==> |log| % 2 == 1)
            && forall k :: 0 <= k < |log| ==> (log[k].Available? <==> k % 2 == 0)
  {
    hide Run, Boot;
    RunKeepsInv(uid, role, stored, saved, inputs);
    EventsAlternate(Run(Boot(uid, role, stored, saved), inputs).dir.events, entity);
  }

  // ---------------------------------------------------------------- counters

  /** The two counters stay far below the byte they are kept in. */
  predicate CountersOk(n: Node) { n.schedule.claimsSent <= 2 && n.schedule.discoveryAttempt <= 4 }

  lemma ClaimCounters(n: Node, source: NodeAddress, b: Bytes8)
    requires CountersOk(n)
    ensures CountersOk(HandleClaim(n, source, b))
  {
    hide LowerFromTop, ConflictFrame, Enqueue;
  }

  lemma ConflictCounters(n: Node, b: Bytes8)
    requires CountersOk(n) && n.address.Some?
    ensures CountersOk(HandleConflict(n, b))
  {
    hide LowerFromTop;
  }

  lemma AssignCounters(n: Node, b: Bytes8, now: U32, saved: bool)
    requires CountersOk(n)
    ensures CountersOk(HandleAssign(n, b, now, saved))
  {
    hide AssignedAddress;
  }

  lemma DispatchCounters(n: Node, f: ProtocolFrame, now: U32, p: Ports)
    requires ValidFrame(f) && CountersOk(n)
    ensures CountersOk(Dispatch(n, f, now, p))
  {
    hide HandleClaim, HandleConflict, HandleAssign, ClaimMatching, HandleState, HandleEvent, HandleCommand;
    hide HandleDiscoveryResponse;
    hide Learn, ScheduleResponse;
    DispatchTouches(n, f, now, p);
    if f.identifier.kind == ADDRESS_CLAIM { ClaimCounters(n, f.identifier.source, f.payload.bytes); }
    if f.identifier.kind == ADDRESS_CONFLICT && n.address.Some? { ConflictCounters(n, f.payload.bytes); }
    if f.identifier.kind == ADDRESS_ASSIGN { AssignCounters(n, f.payload.bytes, now, p.saved); }
  }

  lemma AnnounceCounters(n: Node, p: Ports)
    requires CountersOk(n)
    ensures CountersOk(Announce(n, p))
  {
    hide Enqueue, Drain, NextOccupied;
  }

  lemma TickCounters(n: Node, now: U32, p: Ports)
    requires CountersOk(n)
    ensures CountersOk(Tick(n, now, p))
  {
    hide Expire, Enqueue, Encode, Drain, Announce, ClaimFrame, HeartbeatFrame;
    AnnounceCounters(ScheduleClaim(ExpireNode(n, now), now), p);
  }

  lemma StepCounters(n: Node, input: Input)
    requires CountersOk(n)
    ensures CountersOk(Step(n, input))
  {
    hide Dispatch, Tick, Enqueue, Drain, RegisterOwned, RegisterObserved;
    match input
    case Received(raw, now, ports) =>
      if Decode(raw).Success? {
        EncodeDecoded(raw);
        DispatchCounters(HearNode(n, Decode(raw).value.identifier.source, now), Decode(raw).value, now, ports);
      }
    case Ticked(now, ports) => TickCounters(n, now, ports);
    case _ =>
  }

  lemma {:induction false} CountersFitBytes(
    uid: Uid, role: Role, stored: Option<NodeAddress>, saved: bool, inputs: seq<Input>)
    ensures CountersOk(Run(Boot(uid, role, stored, saved), inputs))
    decreases |inputs|
  {
    hide Step;
    if inputs != [] {
      CountersFitBytes(uid, role, stored, saved, inputs[..|inputs| - 1]);
      StepCounters(Run(Boot(uid, role, stored, saved), inputs[..|inputs| - 1]), inputs[|inputs| - 1]);
    }
  }
}
