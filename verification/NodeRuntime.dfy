/** The node in place: member arrays, counters and deadlines, updated by the code's own loops and branches.

    Every method is tied to the function of the same name on node values, so what is proved of
    runs of those functions holds of every history of calls of this class. */
module Runtime {
  import opened Wrappers
  import opened Types
  import opened CanIdentifiers
  import opened TypedValues
  import opened WirePayloads
  import opened FrameCodec
  import opened Payloads
  import opened Outboxes
  import opened Directories
  import opened Duplicates
  import opened Nodes
  import opened NodeInvariants
  import opened UidOrder
  import opened TransmitQueues
  import opened Tables

  const ANYONE: Uid := [0, 0, 0, 0, 0, 0]

  class NodeRuntime {
    const uid: Uid
    const role: Role
    var stored: Option<NodeAddress>
    var address: Option<NodeAddress>
    const reserved: array<bool>
    const peers: Peers
    const registrations: Registrations
    const queues: Queues
    const duplicates: DuplicateTable
    var pending: Option<PendingResponse>
    var schedule: Schedule
    var sequence: Byte
    var conflicts: seq<NodeAddress>
    var executions: seq<Execution>
    var states: seq<Delivery>
    var events: seq<Delivery>

    /** Every public call so far, and the node as it was constructed. */
    ghost var history: seq<Input>
    ghost const start: Node

    ghost function Footprint(): set<object> {
      {this, reserved} + peers.Footprint() + registrations.Footprint() + queues.Footprint() + duplicates.Footprint()
    }

    ghost predicate Apart() {
      && this !in peers.Footprint() && this !in registrations.Footprint()
      && this !in queues.Footprint() && this !in duplicates.Footprint()
      && reserved !in peers.Footprint() && reserved !in registrations.Footprint()
      && reserved !in queues.Footprint() && reserved !in duplicates.Footprint()
      && peers.Footprint() !! registrations.Footprint() && peers.Footprint() !! queues.Footprint()
      && peers.Footprint() !! duplicates.Footprint() && registrations.Footprint() !! queues.Footprint()
      && registrations.Footprint() !! duplicates.Footprint() && queues.Footprint() !! duplicates.Footprint()
    }

    ghost predicate Valid()
      reads Footprint()
    {
      && Apart() && reserved.Length == ADDRESSES && schedule.ownedIndex <= 16 && schedule.observedIndex <= 16
      && peers.Valid() && registrations.Valid() && queues.Valid() && duplicates.Valid()
    }

    ghost function Abs(): Node
      requires Valid()
      reads Footprint()
    {
      NodeRecord(
        uid, role, stored, address, reserved[..], peers.model, registrations.model, queues.model, duplicates.model,
        pending, schedule, sequence, conflicts, executions, states, events)
    }

    /** The state is the one the history of calls leads to. */
    ghost predicate Traced()
      reads Footprint()
    {
      Valid() && Abs() == Run(start, history)
    }

    static method Parts() returns (taken: array<bool>, p: Peers, r: Registrations, q: Queues, d: DuplicateTable)
      ensures fresh(taken) && fresh(p.Footprint()) && fresh(r.Footprint()) && fresh(q.Footprint())
              && fresh(d.Footprint())
      ensures taken !in p.Footprint() && taken !in r.Footprint() && taken !in q.Footprint() && taken !in d.Footprint()
      ensures p.Footprint() !! r.Footprint() && p.Footprint() !! q.Footprint() && p.Footprint() !! d.Footprint()
      ensures r.Footprint() !! q.Footprint() && r.Footprint() !! d.Footprint() && q.Footprint() !! d.Footprint()
      ensures p.Valid() && r.Valid() && q.Valid() && d.Valid() && taken[..] == Blank(ANYONE, NoRole, None).reserved
      ensures var blank := Blank(ANYONE, NoRole, None);
              p.model == blank.dir && r.model == blank.registry && q.model == blank.out && d.model == blank.duplicates
    {
      hide Peers.Valid, Registrations.Valid, Queues.Valid, DuplicateTable.Valid;
      hide Peers.Footprint, Registrations.Footprint, Queues.Footprint, DuplicateTable.Footprint;
      taken := new bool[ADDRESSES](_ => false);
      ghost var clear := taken[..];
      assert clear == Blank(ANYONE, NoRole, None).reserved;
      p := new Peers();
      r := new Registrations();
      q := new Queues();
      d := new DuplicateTable();
      assert taken[..] == clear;
    }

    constructor (uid: Uid, role: Role, stored: Option<NodeAddress>, saved: bool)
      ensures Traced() && fresh(Footprint())
      ensures start == Boot(uid, role, stored, saved) && history == []
    {
      hide Peers.Valid, Registrations.Valid, Queues.Valid, DuplicateTable.Valid, Boot;
      hide Peers.Footprint, Registrations.Footprint, Queues.Footprint, DuplicateTable.Footprint;
      var taken, p, r, q, d := Parts();
      this.uid, this.role, this.stored, this.address := uid, role, stored, stored;
      reserved, peers, registrations, queues, duplicates := taken, p, r, q, d;
      pending, schedule, sequence := None, Schedule(0, 0, 0, 0, 0, false, 0, 0), 0;
      conflicts, executions, states, events := [], [], [], [];
      history, start := [], Boot(uid, role, stored, saved);
      new;
      NotInParts(this, peers, registrations, queues, duplicates);
      TakeBootstrapAddress(saved);
    }

    static lemma NotInParts(n: NodeRuntime, p: Peers, r: Registrations, q: Queues, d: DuplicateTable)
      ensures n !in p.Footprint() && n !in r.Footprint() && n !in q.Footprint() && n !in d.Footprint()
    {
    }

    /** A primary without an address takes and stores the bootstrap address. */
    method TakeBootstrapAddress(saved: bool)
      requires Valid() && Abs() == Blank(uid, role, stored)
      modifies this, reserved
      ensures Valid() && Abs() == Boot(uid, role, old(stored), saved) && history == old(history)
    {
      hide Peers.Valid, Registrations.Valid, Queues.Valid, DuplicateTable.Valid;
      hide Peers.Footprint, Registrations.Footprint, Queues.Footprint, DuplicateTable.Footprint;
      if address.None? && role == Primary {
        if saved { stored, address := Some(BOOTSTRAP), Some(BOOTSTRAP); }
      }
      if address.Some? { reserved[address.value] := true; }
    }

    // ---------------------------------------------------------------- sending

    method QueueFrame(frame: ProtocolFrame) returns (ok: bool)
      requires Valid()
      modifies Footprint()
      ensures Valid() && Abs() == Send(old(Abs()), frame)
      ensures ok == Outboxes.Enqueue(old(Abs()).out, frame).1 && history == old(history)
    {
      hide Peers.Valid, Registrations.Valid, Queues.Valid, DuplicateTable.Valid;
      hide Outboxes.Enqueue;
      ok := queues.Enqueue(frame);
    }

    method Drain(p: Ports) returns (sent: bool)
      requires Valid()
      modifies Footprint()
      ensures Valid() && Abs() == Nodes.DrainOne(old(Abs()), p)
      ensures sent == Outboxes.Drain(old(Abs()).out, p.refused).1 && history == old(history)
    {
      hide Peers.Valid, Registrations.Valid, Queues.Valid, DuplicateTable.Valid;
      hide Outboxes.Drain;
      sent := queues.DrainOne(p.refused);
    }

    method SendClaim()
      requires Valid()
      modifies Footprint()
      ensures Valid() && Abs() == Nodes.SendClaim(old(Abs())) && history == old(history)
    {
      hide Peers.Valid, Registrations.Valid, Queues.Valid, DuplicateTable.Valid;
      hide Outboxes.Enqueue, ClaimInterval, ClaimFrame, Add32;
      if address.None? { return; }
      var _ := QueueFrame(ClaimFrame(uid, address.value));
      PlanNextClaim();
    }

    method PlanNextClaim()
      requires Valid()
      modifies Footprint()
      ensures Valid() && history == old(history)
      ensures var n := old(Abs());
              Abs() == n.(schedule := n.schedule.(claimsSent := n.schedule.claimsSent + 1,
                                                  nextClaim := Add32(n.schedule.nextClaim, ClaimInterval(n.uid))))
    {
      hide Peers.Valid, Registrations.Valid, Queues.Valid, DuplicateTable.Valid;
      hide ClaimInterval, Add32;
      var interval := ComputeClaimInterval(uid);
      schedule := schedule.(claimsSent := schedule.claimsSent + 1, nextClaim := Add32(schedule.nextClaim, interval));
    }

    method SendAddressConflict()
      requires Valid()
      modifies Footprint()
      ensures Valid() && Abs() == SendConflict(old(Abs())) && history == old(history)
    {
      hide Peers.Valid, Registrations.Valid, Queues.Valid, DuplicateTable.Valid;
      hide Outboxes.Enqueue, ConflictFrame;
      if address.None? { return; }
      var frame := ConflictFrame(uid, address.value, sequence);
      sequence := Next8(sequence);
      var _ := QueueFrame(frame);
    }

    method SendEntityClaim(entity: EntityId, endpoint: EndpointId)
      requires Valid()
      modifies Footprint()
      ensures Valid() && Abs() == Nodes.SendEntityClaim(old(Abs()), entity, endpoint) && history == old(history)
    {
      hide Peers.Valid, Registrations.Valid, Queues.Valid, DuplicateTable.Valid;
      hide Outboxes.Enqueue, EntityClaimFrame;
      if address.None? { return; }
      var frame := EntityClaimFrame(address.value, sequence, entity, endpoint);
      sequence := Next8(sequence);
      var _ := QueueFrame(frame);
    }

    method SendEntityResolve(entity: EntityId)
      requires Valid()
      modifies Footprint()
      ensures Valid() && Abs() == Nodes.SendEntityResolve(old(Abs()), entity) && history == old(history)
    {
      hide Peers.Valid, Registrations.Valid, Queues.Valid, DuplicateTable.Valid;
      hide Outboxes.Enqueue, EntityResolveFrame;
      if address.None? { return; }
      var frame := EntityResolveFrame(address.value, sequence, entity);
      sequence := Next8(sequence);
      var _ := QueueFrame(frame);
    }

    method Acknowledge(frame: ProtocolFrame, status: Status)
      requires Valid()
      modifies Footprint()
      ensures Valid() && Abs() == Nodes.Acknowledge(old(Abs()), frame, status) && history == old(history)
    {
      hide Peers.Valid, Registrations.Valid, Queues.Valid, DuplicateTable.Valid;
      hide Outboxes.Enqueue, AckFrame;
      if address.None? { return; }
      var _ := QueueFrame(AckFrame(address.value, frame, status));
    }

    method SendDiscoveryResponse(response: PendingResponse)
      requires Valid()
      modifies Footprint()
      ensures Valid() && Abs() == Nodes.SendDiscoveryResponse(old(Abs()), response) && history == old(history)
    {
      hide Peers.Valid, Registrations.Valid, Queues.Valid, DuplicateTable.Valid;
      hide Outboxes.Enqueue, DiscoveryResponseFrame;
      var source := if address.Some? then address.value else UNASSIGNED;
      var _ := QueueFrame(DiscoveryResponseFrame(uid, response.transaction, response.requester, source));
    }

    method ScheduleResponse(request: Bytes8, requester: NodeAddress, now: U32)
      requires Valid() && U16At(request, 2) != 0
      modifies Footprint()
      ensures Valid() && Abs() == old(Abs()).(pending := Some(Nodes.ScheduleResponse(uid, request, requester, now)))
      ensures history == old(history)
    {
      hide Peers.Valid, Registrations.Valid, Queues.Valid, DuplicateTable.Valid;
      hide ResponseDelay;
      var delay := ComputeResponseDelay(uid, request);
      pending := Some(PendingResponse(request[0], requester, Add32(now, delay)));
    }

    method SendDiscoveryRequest(now: U32)
      requires Valid()
      modifies Footprint()
      ensures Valid() && Abs() == Nodes.SendDiscoveryRequest(old(Abs()), now) && history == old(history)
    {
      hide Peers.Valid, Registrations.Valid, Queues.Valid, DuplicateTable.Valid;
      hide Outboxes.Enqueue, Nodes.ScheduleResponse, MakeFrame, RetryDelay, Add32, Next8;
      var bytes, frame := DiscoveryRequestBytes(uid, sequence), DiscoveryRequestFrame(uid, sequence);
      sequence := Next8(sequence);
      var _ := QueueFrame(frame);
      ScheduleResponse(bytes, UNASSIGNED, now);
      BackOff(now);
    }

    method BackOff(now: U32)
      requires Valid()
      modifies this
      ensures Valid() && history == old(history)
      ensures var n := old(Abs());
              var attempt := n.schedule.discoveryAttempt;
              Abs() == n.(schedule := n.schedule.(discoveryAttempt := if attempt < 4 then attempt + 1 else attempt,
                                                  nextDiscovery := Add32(now, RetryDelay(attempt))))
    {
      hide Peers.Valid, Registrations.Valid, Queues.Valid, DuplicateTable.Valid;
      var attempt := schedule.discoveryAttempt;
      schedule := schedule.(discoveryAttempt := if attempt < 4 then attempt + 1 else attempt,
                            nextDiscovery := Add32(now, RetryDelay(attempt)));
    }

    method SendHeartbeat(now: U32, p: Ports)
      requires Valid() && address.Some?
      modifies Footprint()
      ensures Valid() && Abs() == Nodes.SendHeartbeat(old(Abs()), now, p) && history == old(history)
    {
      hide Peers.Valid, Registrations.Valid, Queues.Valid, DuplicateTable.Valid;
      hide Encode, HeartbeatFrame;
      var encoded := Encode(HeartbeatFrame(address.value, sequence));
      sequence := Next8(sequence);
      if encoded.Success? { var _ := queues.Transmit(encoded.value, p.refused); }
      schedule := schedule.(nextHeartbeat := Add32(now, 30000));
    }

    // ---------------------------------------------------------------- address frames

    method LoseAddress()
      requires Valid() && address.Some?
      modifies this
      ensures Valid() && Abs() == Nodes.LoseAddress(old(Abs())) && history == old(history)
    {
      hide Peers.Valid, Registrations.Valid, Queues.Valid, DuplicateTable.Valid;
      hide Peers.Footprint, Registrations.Footprint, Queues.Footprint, DuplicateTable.Footprint;
      conflicts := conflicts + [address.value];
      address := None;
      schedule := schedule.(nextHeartbeat := 0, claimsSent := 0, claimScheduled := false);
    }

    method Reserve(taken: NodeAddress)
      requires Valid()
      modifies Footprint()
      ensures Valid() && Abs() == old(Abs()).(reserved := old(Abs()).reserved[taken := true]) && history == old(history)
    {
      hide Peers.Valid, Registrations.Valid, Queues.Valid, DuplicateTable.Valid;
      reserved[taken] := true;
    }

    /** The lower UID stands and answers; the other node gives its address up. */
    method HandleClaim(source: NodeAddress, b: Bytes8)
      requires Valid()
      modifies Footprint()
      ensures Valid() && Abs() == Nodes.HandleClaim(old(Abs()), source, b) && history == old(history)
    {
      hide Peers.Valid, Registrations.Valid, Queues.Valid, DuplicateTable.Valid;
      hide SendConflict, Nodes.LoseAddress, LowerFromTop, UidValue;
      Reserve(source);
      if address != Some(source) { return; }
      var self := SameUid(uid, b[..6]);
      if self { return; }
      var lower := ComparesLower(uid, b[..6]);
      if lower { SendAddressConflict(); } else { LoseAddress(); }
    }

    method HandleConflict(b: Bytes8)
      requires Valid() && address.Some?
      modifies Footprint()
      ensures Valid() && Abs() == Nodes.HandleConflict(old(Abs()), b) && history == old(history)
    {
      hide Peers.Valid, Registrations.Valid, Queues.Valid, DuplicateTable.Valid;
      hide Nodes.LoseAddress, LowerFromTop, UidValue;
      var lower := ComparesLower(b[..6], uid);
      if lower { LoseAddress(); }
    }

    method HandleAssign(b: Bytes8, now: U32, saved: bool)
      requires Valid()
      modifies Footprint()
      ensures Valid() && Abs() == Nodes.HandleAssign(old(Abs()), b, now, saved) && history == old(history)
    {
      hide Peers.Valid, Registrations.Valid, Queues.Valid, DuplicateTable.Valid;
      var mine := SameUid(b[..6], uid);
      if !mine || !saved { return; }
      TakeAddress(AssignedAddress(b), now);
    }

    method TakeAddress(granted: NodeAddress, now: U32)
      requires Valid()
      modifies this, reserved
      ensures Valid() && history == old(history)
      ensures var n := old(Abs());
              Abs() == n.(stored := Some(granted), address := Some(granted), reserved := n.reserved[granted := true],
                          schedule := n.schedule.(claimsSent := 0, claimScheduled := false, ownedIndex := 0,
                                                  observedIndex := 0, nextClaim := now))
    {
      hide Peers.Valid, Registrations.Valid, Queues.Valid, DuplicateTable.Valid;
      hide Peers.Footprint, Registrations.Footprint, Queues.Footprint, DuplicateTable.Footprint;
      stored, address := Some(granted), Some(granted);
      reserved[granted] := true;
      schedule := schedule.(claimsSent := 0, claimScheduled := false, ownedIndex := 0, observedIndex := 0,
                            nextClaim := now);
    }

    method NextFreeAddress() returns (free: Option<NodeAddress>)
      requires Valid()
      ensures free == NextFree(reserved[..], 1)
    {
      for value := 1 to BROADCAST
        invariant NextFree(reserved[..], 1) == NextFree(reserved[..], value)
      {
        if !reserved[value] { return Some(value); }
      }
      free := None;
    }

    /** The address is marked as taken only once its frame has left. */
    method Assign(b: Bytes8, p: Ports)
      requires Valid()
      modifies Footprint()
      ensures Valid() && Abs() == Nodes.Assign(old(Abs()), b, p) && history == old(history)
    {
      hide Peers.Valid, Registrations.Valid, Queues.Valid, DuplicateTable.Valid;
      hide Encode, AssignFrame, NextFree;
      var candidate := NextFreeAddress();
      if candidate.None? || address.None? { return; }
      var encoded := Encode(AssignFrame(address.value, b[1..7], candidate.value));
      if encoded.Success? { Grant(encoded.value, candidate.value, p); }
    }

    method Grant(raw: RawCanFrame, candidate: NodeAddress, p: Ports)
      requires Valid()
      modifies Footprint()
      ensures Valid() && history == old(history)
      ensures var n := old(Abs());
              Abs() == n.(out := Outboxes.Transmit(n.out, raw, false, p.refused),
                          reserved := if raw !in p.refused then n.reserved[candidate := true] else n.reserved)
    {
      hide Peers.Valid, Registrations.Valid, Queues.Valid, DuplicateTable.Valid;
      var sent := queues.Transmit(raw, p.refused);
      if sent { reserved[candidate] := true; }
    }

    method HandleDiscoveryResponse(f: ProtocolFrame, p: Ports)
      requires Valid()
      modifies Footprint()
      ensures Valid() && Abs() == Nodes.HandleDiscoveryResponse(old(Abs()), f, p) && history == old(history)
    {
      hide Peers.Valid, Registrations.Valid, Queues.Valid, DuplicateTable.Valid;
      hide Nodes.Assign;
      if role != Primary || address.None? { return; }
      if f.identifier.destination != address.value
         && !(f.identifier.source == UNASSIGNED && f.identifier.destination == UNASSIGNED)
      {
        return;
      }
      Assign(f.payload.bytes, p);
    }

    // ---------------------------------------------------------------- entities and values

    method EntityFor(source: NodeAddress, endpoint: EndpointId) returns (entity: Option<EntityId>)
      requires Valid()
      ensures entity == Nodes.EntityFor(Abs(), source, endpoint)
    {
      if address == Some(source) {
        var own := FindEndpoint(registrations.owned, None, endpoint);
        if own < 16 { return Some(registrations.owned[own].value.entity); }
      }
      var known := FindEndpoint(peers.entities, Some(source), endpoint);
      entity := if known < 32 then Some(peers.entities[known].value.entity) else None;
    }

    method OwnsEndpoint(endpoint: EndpointId) returns (owns: bool)
      requires Valid()
      ensures owns == Nodes.OwnsEndpoint(Abs(), endpoint)
      ensures Valid() && Abs() == old(Abs()) && history == old(history)
    {
      var own := FindEndpoint(registrations.owned, None, endpoint);
      owns := own < 16;
    }

    method Learn(location: EntityLocation)
      requires Valid()
      modifies Footprint()
      ensures Valid() && Abs() == old(Abs()).(dir := Directories.Learn(old(Abs()).dir, location))
              && history == old(history)
    {
      hide Peers.Valid, Registrations.Valid, Queues.Valid, DuplicateTable.Valid;
      hide Directories.Learn;
      peers.LearnEntity(location);
    }

    /** A fresh claim for every owned entity that is asked for. */
    method ClaimOwned(entity: EntityId)
      requires Valid()
      modifies Footprint()
      ensures Valid() && Abs() == ClaimMatching(old(Abs()), entity, old(Abs()).registry.owned)
              && history == old(history)
    {
      hide Peers.Valid, Registrations.Valid, Queues.Valid, DuplicateTable.Valid;
      hide Peers.Footprint, Registrations.Footprint, Queues.Footprint, DuplicateTable.Footprint;
      hide Outboxes.Enqueue, EntityClaimFrame;
      var i := 0;
      ghost var owned := Abs().registry.owned;
      while i < 16
        invariant i <= 16 && Valid() && Abs().registry.owned == owned && history == old(history)
        invariant ClaimMatching(Abs(), entity, owned[i..]) == ClaimMatching(old(Abs()), entity, owned)
      {
        assert owned[i..][1..] == owned[i + 1..];
        var slot := OwnedSlot(i);
        if slot.Some? && slot.value.entity == entity {
          SendEntityClaim(entity, slot.value.endpoint);
        }
        i := i + 1;
      }
    }

    method OwnedSlot(i: nat) returns (slot: Option<EntityLocation>)
      requires Valid() && i < 16
      ensures Valid() && Abs() == old(Abs()) && slot == Abs().registry.owned[i] && history == old(history)
    {
      slot := registrations.owned[i];
    }

    method HandleState(source: NodeAddress, b: Bytes8)
      requires Valid()
      modifies Footprint()
      ensures Valid() && Abs() == Nodes.HandleState(old(Abs()), source, b) && history == old(history)
    {
      hide Peers.Valid, Registrations.Valid, Queues.Valid, DuplicateTable.Valid;
      hide Nodes.EntityFor, Notify;
      var entity := EntityFor(source, b[1]);
      if entity.Some? { Tell(true, entity.value, SlotValue(b), b[3]); }
    }

    method Told(ofStates: bool, entity: EntityId, value: TypedValue, flags: Byte) returns (told: seq<Delivery>)
      requires Valid()
      ensures Valid() && Abs() == old(Abs()) && history == old(history)
      ensures var listeners := if ofStates then Abs().registry.stateListeners else Abs().registry.eventListeners;
              told == Notify(listeners, entity, value, flags)
    {
      hide Peers.Valid, Queues.Valid, DuplicateTable.Valid, Notify;
      told := Registrations.Tell(if ofStates then registrations.stateListeners else registrations.eventListeners,
                                 entity, value, flags);
    }

    /** The listeners of an entity are called; `ofStates` says which of the two lists. */
    method Tell(ofStates: bool, entity: EntityId, value: TypedValue, flags: Byte)
      requires Valid()
      modifies Footprint()
      ensures Valid() && history == old(history)
      ensures var n := old(Abs());
              Abs() == if ofStates then n.(states := n.states + Notify(n.registry.stateListeners, entity, value, flags))
                       else n.(events := n.events + Notify(n.registry.eventListeners, entity, value, flags))
    {
      hide Peers.Valid, Registrations.Valid, Queues.Valid, DuplicateTable.Valid, Notify;
      var told := Told(ofStates, entity, value, flags);
      if ofStates { states := states + told; } else { events := events + told; }
    }

    method HandleEvent(f: ProtocolFrame)
      requires Valid()
      modifies Footprint()
      ensures Valid() && Abs() == Nodes.HandleEvent(old(Abs()), f) && history == old(history)
    {
      hide Peers.Valid, Registrations.Valid, Queues.Valid, DuplicateTable.Valid;
      hide Nodes.EntityFor, Notify, Nodes.Acknowledge;
      var b := f.payload.bytes;
      var entity := EntityFor(f.identifier.source, b[1]);
      if entity.Some? { Tell(false, entity.value, SlotValue(b), b[3]); }
      if address == Some(f.identifier.destination) && b[3] % 2 != 0 { Acknowledge(f, ACCEPTED); }
    }

    // ---------------------------------------------------------------- commands

    method EarlierCopy(key: CommandKey, now: U32) returns (earlier: Option<Status>)
      requires Valid()
      modifies Footprint()
      ensures Valid() && history == old(history) && earlier == EarlierStatus(old(Abs()).duplicates, key, now)
      ensures var n := old(Abs());
              Abs() == n.(duplicates := if earlier.Some? then n.duplicates else Record(n.duplicates, key, now))
    {
      hide Peers.Valid, Registrations.Valid, Queues.Valid, DuplicateTable.Valid, EarlierStatus, Record;
      earlier := duplicates.IsDuplicate(key, now);
    }

    method StoreStatus(key: CommandKey, status: Status)
      requires Valid()
      modifies Footprint()
      ensures Valid() && history == old(history)
      ensures var n := old(Abs()); Abs() == n.(duplicates := SetStatus(n.duplicates, key, status))
    {
      hide Peers.Valid, Registrations.Valid, Queues.Valid, DuplicateTable.Valid, SetStatus;
      duplicates.SetDuplicateStatus(key, status);
    }

    /** The endpoint's handler runs, if there is one. */
    method CallHandler(f: ProtocolFrame, status: Status) returns (answer: Status)
      requires Valid()
      modifies Footprint()
      ensures Valid() && history == old(history)
      ensures var n := old(Abs());
              var i := HandlerSlot(n.registry.handlers, f.payload.bytes[1]);
              && answer == (if i < 16 then status else UNSUPPORTED)
              && Abs() == if i < 16
                          then n.(executions := n.executions + [Execution(n.registry.handlers[i].value, KeyOfCommand(f),
                                                                          SlotValue(f.payload.bytes))])
                          else n
    {
      var i := registrations.EndpointHandler(f.payload.bytes[1]);
      if i == 16 { return UNSUPPORTED; }
      var handler := registrations.handlers[i].value;
      hide Peers.Valid, Registrations.Valid, Queues.Valid, DuplicateTable.Valid;
      executions := executions + [Execution(handler, KeyOfCommand(f), SlotValue(f.payload.bytes))];
      answer := status;
    }

    /** A copy of a command that was executed lately is answered, not executed. */
    method HandleCommand(f: ProtocolFrame, now: U32, status: Status)
      requires Valid()
      modifies Footprint()
      ensures Valid() && Abs() == Nodes.HandleCommand(old(Abs()), f, now, status) && history == old(history)
    {
      hide Peers.Valid, Registrations.Valid, Queues.Valid, DuplicateTable.Valid;
      hide EarlierStatus, Record, SetStatus, HandlerSlot, Nodes.Acknowledge;
      var key := KeyOfCommand(f);
      var earlier := EarlierCopy(key, now);
      var answer: Status;
      if earlier.Some? {
        answer := earlier.value;
      } else {
        answer := CallHandler(f, status);
        StoreStatus(key, answer);
      }
      if f.payload.bytes[3] % 2 != 0 { Acknowledge(f, answer); }
    }

    // ---------------------------------------------------------------- receiving

    method Hear(source: NodeAddress, now: U32)
      requires Valid()
      modifies Footprint()
      ensures Valid() && Abs() == HearNode(old(Abs()), source, now) && history == old(history)
    {
      hide Peers.Valid, Registrations.Valid, Queues.Valid, DuplicateTable.Valid;
      hide Directories.Hear;
      peers.Hear(source, now);
    }

    method Handle(f: ProtocolFrame, now: U32, p: Ports)
      requires Valid() && ValidFrame(f)
      modifies Footprint()
      ensures Valid() && Abs() == Dispatch(old(Abs()), f, now, p) && history == old(history)
    {
      hide Peers.Valid, Registrations.Valid, Queues.Valid, DuplicateTable.Valid;
      hide Peers.Footprint, Registrations.Footprint, Queues.Footprint, DuplicateTable.Footprint;
      hide Nodes.HandleClaim, Nodes.HandleConflict, Nodes.HandleAssign, ClaimMatching, Nodes.HandleState;
      hide Nodes.HandleEvent;
      hide Nodes.HandleCommand, Nodes.HandleDiscoveryResponse, Directories.Learn, Nodes.ScheduleResponse;
      var kind, source, destination, b := f.identifier.kind, f.identifier.source, f.identifier.destination,
          f.payload.bytes;
      if kind == ADDRESS_CLAIM { HandleClaim(source, b); }
      else if kind == DISCOVERY_REQUEST { ScheduleResponse(b, source, now); }
      else if kind == ADDRESS_CONFLICT && address == Some(destination) { HandleConflict(b); }
      else if kind == ADDRESS_ASSIGN { HandleAssign(b, now, p.saved); }
      else if kind == ENTITY_CLAIM { Learn(EntityLocation(U32At(b, 2), source, b[1])); }
      else if kind == ENTITY_RESOLVE && address.Some? { ClaimOwned(U32At(b, 2)); }
      else if kind == STATE { HandleState(source, b); }
      else if kind == EVENT && (destination == BROADCAST || address == Some(destination)) { HandleEvent(f); }
      else if kind == COMMAND && address == Some(destination) { HandleCommand(f, now, p.status); }
      else if kind == DISCOVERY_RESPONSE { HandleDiscoveryResponse(f, p); }
    }

    method Process(raw: RawCanFrame, now: U32, p: Ports)
      requires Valid()
      modifies Footprint()
      ensures Valid() && Abs() == Nodes.Receive(old(Abs()), raw, now, p) && history == old(history)
    {
      hide Peers.Valid, Registrations.Valid, Queues.Valid, DuplicateTable.Valid;
      hide Peers.Footprint, Registrations.Footprint, Queues.Footprint, DuplicateTable.Footprint;
      hide Dispatch, HearNode, Decode, Encode;
      var decoded := Decode(raw);
      if decoded.Failure? { return; }
      EncodeDecoded(raw);
      Hear(decoded.value.identifier.source, now);
      Handle(decoded.value, now, p);
    }

    // ---------------------------------------------------------------- ticking

    method ExpireOffline(now: U32)
      requires Valid()
      modifies Footprint()
      ensures Valid() && Abs() == ExpireNode(old(Abs()), now) && history == old(history)
    {
      hide Peers.Valid, Registrations.Valid, Queues.Valid, DuplicateTable.Valid;
      hide Expire;
      peers.ExpireOffline(now);
    }

    method PlanFirstClaim(now: U32)
      requires Valid()
      modifies Footprint()
      ensures Valid() && Abs() == ScheduleClaim(old(Abs()), now) && history == old(history)
    {
      hide Peers.Valid, Registrations.Valid, Queues.Valid, DuplicateTable.Valid;
      hide ClaimStartDelay, Add32;
      if address.Some? && !schedule.claimScheduled {
        var delay := ComputeClaimStartDelay(uid);
        schedule := schedule.(nextClaim := Add32(now, delay), claimScheduled := true);
      }
    }

    static method NextUsed<T>(slots: array<Option<T>>, start: nat) returns (i: nat)
      requires start <= slots.Length
      ensures i == NextOccupied(slots[..], start)
    {
      i := start;
      while i < slots.Length && slots[i].None?
        invariant start <= i <= slots.Length
        invariant NextOccupied(slots[..], start) == NextOccupied(slots[..], i)
      {
        i := i + 1;
      }
    }

    method NextOwned() returns (i: nat, entry: Option<EntityLocation>)
      requires Valid()
      ensures Valid() && Abs() == old(Abs()) && history == old(history)
      ensures i == NextOccupied(Abs().registry.owned, Abs().schedule.ownedIndex)
      ensures entry == if i < 16 then Abs().registry.owned[i] else None
    {
      i := NextUsed(registrations.owned, schedule.ownedIndex);
      entry := if i < 16 then registrations.owned[i] else None;
    }

    method NextObserved() returns (i: nat, entry: Option<EntityId>)
      requires Valid()
      ensures Valid() && Abs() == old(Abs()) && history == old(history)
      ensures i == NextOccupied(Abs().registry.observed, Abs().schedule.observedIndex)
      ensures entry == if i < 16 then Abs().registry.observed[i] else None
    {
      i := NextUsed(registrations.observed, schedule.observedIndex);
      entry := if i < 16 then registrations.observed[i] else None;
    }

    method PassOwned(i: nat)
      requires Valid() && i <= 16
      modifies this`schedule
      ensures var n := old(Abs());
              Valid() && Abs() == n.(schedule := n.schedule.(ownedIndex := i)) && history == old(history)
    {
      schedule := schedule.(ownedIndex := i);
    }

    /** One owned entity, else one observed entity, then one drain. */
    method Announce(p: Ports)
      requires Valid()
      modifies Footprint()
      ensures Valid() && Abs() == Nodes.Announce(old(Abs()), p) && history == old(history)
    {
      hide Peers.Valid, Registrations.Valid, Queues.Valid, DuplicateTable.Valid;
      hide Peers.Footprint, Registrations.Footprint, Queues.Footprint, DuplicateTable.Footprint;
      hide Nodes.SendEntityClaim, Nodes.AnnounceObserved, Nodes.DrainOne, Outboxes.Drain, NextOccupied;
      var i, owned := NextOwned();
      if address.Some? && schedule.claimsSent == 2 && i < 16 {
        AnnounceOwned(i, owned.value, p);
      } else {
        PassOwned(i);
        AnnounceObserved(p);
      }
    }

    method AnnounceOwned(i: nat, entry: EntityLocation, p: Ports)
      requires Valid() && i < 16
      modifies Footprint()
      ensures Valid() && history == old(history)
      ensures var n := old(Abs());
              var passed := n.(schedule := n.schedule.(ownedIndex := i + 1));
              Abs() == Nodes.DrainOne(Nodes.SendEntityClaim(passed, entry.entity, entry.endpoint), p)
    {
      hide Peers.Valid, Registrations.Valid, Queues.Valid, DuplicateTable.Valid;
      hide Peers.Footprint, Registrations.Footprint, Queues.Footprint, DuplicateTable.Footprint;
      hide Nodes.SendEntityClaim, Nodes.DrainOne, Outboxes.Drain;
      PassOwned(i + 1);
      SendEntityClaim(entry.entity, entry.endpoint);
      var _ := Drain(p);
    }

    method AnnounceObserved(p: Ports)
      requires Valid()
      modifies Footprint()
      ensures Valid() && Abs() == Nodes.AnnounceObserved(old(Abs()), p) && history == old(history)
    {
      hide Peers.Valid, Registrations.Valid, Queues.Valid, DuplicateTable.Valid;
      hide Peers.Footprint, Registrations.Footprint, Queues.Footprint, DuplicateTable.Footprint;
      hide Nodes.SendEntityResolve, Nodes.DrainOne, Outboxes.Drain, NextOccupied;
      var i, observed := NextObserved();
      if address.Some? && schedule.claimsSent == 2 && i < 16 {
        schedule := schedule.(observedIndex := i + 1);
        SendEntityResolve(observed.value);
      } else {
        schedule := schedule.(observedIndex := i);
      }
      var _ := Drain(p);
    }

    method TickOn(now: U32, p: Ports)
      requires Valid()
      modifies Footprint()
      ensures Valid() && Abs() == TickScheduled(old(Abs()), now, p) && history == old(history)
    {
      hide Peers.Valid, Registrations.Valid, Queues.Valid, DuplicateTable.Valid;
      hide Peers.Footprint, Registrations.Footprint, Queues.Footprint, DuplicateTable.Footprint;
      hide Nodes.SendDiscoveryRequest, Nodes.SendClaim, Nodes.SendHeartbeat, Nodes.Announce, Nodes.DrainOne;
      hide Outboxes.Drain;
      if address.None? && now >= schedule.nextDiscovery {
        SendDiscoveryRequest(now);
        var _ := Drain(p);
      } else if address.Some? && schedule.claimsSent < 2 && now >= schedule.nextClaim {
        SendClaim();
        var _ := Drain(p);
      } else if address.Some? && schedule.claimsSent == 2 && now >= schedule.nextHeartbeat {
        SendHeartbeat(now, p);
      } else {
        Announce(p);
      }
    }

    method TickNow(now: U32, p: Ports)
      requires Valid()
      modifies Footprint()
      ensures Valid() && Abs() == Nodes.Tick(old(Abs()), now, p) && history == old(history)
    {
      hide Peers.Valid, Registrations.Valid, Queues.Valid, DuplicateTable.Valid;
      hide Peers.Footprint, Registrations.Footprint, Queues.Footprint, DuplicateTable.Footprint;
      hide ScheduleClaim, Nodes.SendDiscoveryResponse, TickScheduled, Nodes.DrainOne, Expire, Outboxes.Drain;
      ExpireOffline(now);
      if pending.Some? && now >= pending.value.dueMs {
        SendDiscoveryResponse(pending.value);
        pending := None;
        var _ := Drain(p);
        return;
      }
      PlanFirstClaim(now);
      TickOn(now, p);
    }

    method QueueState(endpoint: EndpointId, value: TypedValue, quality: Byte) returns (ok: bool)
      requires Valid()
      modifies Footprint()
      ensures Valid() && (Abs(), ok) == Nodes.PublishState(old(Abs()), endpoint, value, quality)
              && history == old(history)
    {
      hide Peers.Valid, Registrations.Valid, Queues.Valid, DuplicateTable.Valid;
      hide Peers.Footprint, Registrations.Footprint, Queues.Footprint, DuplicateTable.Footprint;
      hide Outboxes.Enqueue, CreateState, StateFrame;
      if address.None? { return false; }
      var owns := OwnsEndpoint(endpoint);
      if !owns { return false; }
      var payload := CreateState(sequence, endpoint, value, quality);
      sequence := Next8(sequence);
      if payload.None? { return false; }
      ok := QueueFrame(StateFrame(address.value, payload.value));
    }

    method QueueEvent(endpoint: EndpointId, value: TypedValue, flags: Byte) returns (ok: bool)
      requires Valid()
      modifies Footprint()
      ensures Valid() && (Abs(), ok) == Nodes.PublishEvent(old(Abs()), endpoint, value, flags)
              && history == old(history)
    {
      hide Peers.Valid, Registrations.Valid, Queues.Valid, DuplicateTable.Valid;
      hide Peers.Footprint, Registrations.Footprint, Queues.Footprint, DuplicateTable.Footprint;
      hide Outboxes.Enqueue, CreateEvent, EventFrame;
      if address.None? || flags != 0 { return false; }
      var owns := OwnsEndpoint(endpoint);
      if !owns { return false; }
      var payload := CreateEvent(sequence, endpoint, value, flags);
      sequence := Next8(sequence);
      if payload.None? { return false; }
      ok := QueueFrame(EventFrame(address.value, payload.value));
    }

    // ---------------------------------------------------------------- public calls

    ghost method Log(before: Node, input: Input)
      requires Valid() && before == Run(start, history) && Abs() == Step(before, input)
      modifies this`history
      ensures Traced() && history == old(history) + [input]
    {
      hide Peers.Valid, Registrations.Valid, Queues.Valid, DuplicateTable.Valid;
      hide Peers.Footprint, Registrations.Footprint, Queues.Footprint, DuplicateTable.Footprint;
      hide Step;
      history := history + [input];
    }

    method Receive(raw: RawCanFrame, now: U32, p: Ports)
      requires Traced()
      modifies Footprint()
      ensures Traced() && history == old(history) + [Received(raw, now, p)]
    {
      hide Peers.Valid, Registrations.Valid, Queues.Valid, DuplicateTable.Valid;
      hide Peers.Footprint, Registrations.Footprint, Queues.Footprint, DuplicateTable.Footprint;
      hide Apart, Run, Nodes.Receive;
      ghost var before := Abs();
      Process(raw, now, p);
      Log(before, Received(raw, now, p));
    }

    method Tick(now: U32, p: Ports)
      requires Traced()
      modifies Footprint()
      ensures Traced() && history == old(history) + [Ticked(now, p)]
    {
      hide Peers.Valid, Registrations.Valid, Queues.Valid, DuplicateTable.Valid;
      hide Peers.Footprint, Registrations.Footprint, Queues.Footprint, DuplicateTable.Footprint;
      hide Apart, Run, Nodes.Tick;
      ghost var before := Abs();
      TickNow(now, p);
      Log(before, Ticked(now, p));
    }

    method Enqueue(frame: ProtocolFrame) returns (ok: bool)
      requires Traced()
      modifies Footprint()
      ensures Traced() && history == old(history) + [FrameEnqueued(frame)]
      ensures ok == Outboxes.Enqueue(old(Abs()).out, frame).1
    {
      hide Peers.Valid, Registrations.Valid, Queues.Valid, DuplicateTable.Valid;
      hide Peers.Footprint, Registrations.Footprint, Queues.Footprint, DuplicateTable.Footprint;
      hide Apart, Run, Outboxes.Enqueue;
      ghost var before := Abs();
      ok := QueueFrame(frame);
      Log(before, FrameEnqueued(frame));
    }

    method DrainOne(p: Ports) returns (sent: bool)
      requires Traced()
      modifies Footprint()
      ensures Traced() && history == old(history) + [Drained(p)]
      ensures sent == Outboxes.Drain(old(Abs()).out, p.refused).1
    {
      hide Peers.Valid, Registrations.Valid, Queues.Valid, DuplicateTable.Valid;
      hide Peers.Footprint, Registrations.Footprint, Queues.Footprint, DuplicateTable.Footprint;
      hide Apart, Run, Outboxes.Drain;
      ghost var before := Abs();
      sent := Drain(p);
      Log(before, Drained(p));
    }

    method PublishState(endpoint: EndpointId, value: TypedValue, quality: Byte) returns (ok: bool)
      requires Traced()
      modifies Footprint()
      ensures Traced() && history == old(history) + [StatePublished(endpoint, value, quality)]
      ensures ok == Nodes.PublishState(old(Abs()), endpoint, value, quality).1
    {
      hide Peers.Valid, Registrations.Valid, Queues.Valid, DuplicateTable.Valid;
      hide Peers.Footprint, Registrations.Footprint, Queues.Footprint, DuplicateTable.Footprint;
      hide Apart, Run, Nodes.PublishState;
      ghost var before := Abs();
      ok := QueueState(endpoint, value, quality);
      Log(before, StatePublished(endpoint, value, quality));
    }

    method PublishEvent(endpoint: EndpointId, value: TypedValue, flags: Byte) returns (ok: bool)
      requires Traced()
      modifies Footprint()
      ensures Traced() && history == old(history) + [EventPublished(endpoint, value, flags)]
      ensures ok == Nodes.PublishEvent(old(Abs()), endpoint, value, flags).1
    {
      hide Peers.Valid, Registrations.Valid, Queues.Valid, DuplicateTable.Valid;
      hide Peers.Footprint, Registrations.Footprint, Queues.Footprint, DuplicateTable.Footprint;
      hide Apart, Run, Nodes.PublishEvent;
      ghost var before := Abs();
      ok := QueueEvent(endpoint, value, flags);
      Log(before, EventPublished(endpoint, value, flags));
    }

    method RegisterOwnedEntity(entity: EntityId, endpoint: EndpointId) returns (ok: bool)
      requires Traced()
      modifies Footprint()
      ensures Traced() && history == old(history) + [OwnedRegistered(entity, endpoint)]
      ensures ok == RegisterOwned(old(Abs()).registry, entity, endpoint).1
    {
      hide Peers.Valid, Registrations.Valid, Queues.Valid, DuplicateTable.Valid;
      hide Run, RegisterOwned;
      ghost var before := Abs();
      ok := registrations.RegisterOwnedEntity(entity, endpoint);
      Log(before, OwnedRegistered(entity, endpoint));
    }

    method RegisterObservedEntity(entity: EntityId) returns (ok: bool)
      requires Traced()
      modifies Footprint()
      ensures Traced() && history == old(history) + [ObservedRegistered(entity)]
      ensures ok == RegisterObserved(old(Abs()).registry, entity).1
    {
      hide Peers.Valid, Registrations.Valid, Queues.Valid, DuplicateTable.Valid;
      hide Run, RegisterObserved;
      ghost var before := Abs();
      ok := registrations.RegisterObservedEntity(entity);
      Log(before, ObservedRegistered(entity));
    }

    method RegisterEndpoint(handler: Handler) returns (ok: bool)
      requires Traced()
      modifies Footprint()
      ensures Traced() && history == old(history) + [HandlerRegistered(handler)]
      ensures ok == RegisterHandler(old(Abs()).registry, handler).1
    {
      hide Peers.Valid, Registrations.Valid, Queues.Valid, DuplicateTable.Valid;
      hide Run, RegisterHandler;
      ghost var before := Abs();
      ok := registrations.RegisterEndpoint(handler);
      Log(before, HandlerRegistered(handler));
    }

    method RegisterStateListener(listener: Listener) returns (ok: bool)
      requires Traced()
      modifies Footprint()
      ensures Traced() && history == old(history) + [StateListenerRegistered(listener)]
      ensures ok == Nodes.RegisterStateListener(old(Abs()).registry, listener).1
    {
      hide Peers.Valid, Registrations.Valid, Queues.Valid, DuplicateTable.Valid;
      hide Run, Nodes.RegisterStateListener;
      ghost var before := Abs();
      ok := registrations.RegisterStates(listener);
      Log(before, StateListenerRegistered(listener));
    }

    method RegisterEventListener(listener: Listener) returns (ok: bool)
      requires Traced()
      modifies Footprint()
      ensures Traced() && history == old(history) + [EventListenerRegistered(listener)]
      ensures ok == Nodes.RegisterEventListener(old(Abs()).registry, listener).1
    {
      hide Peers.Valid, Registrations.Valid, Queues.Valid, DuplicateTable.Valid;
      hide Run, Nodes.RegisterEventListener;
      ghost var before := Abs();
      ok := registrations.RegisterEvents(listener);
      Log(before, EventListenerRegistered(listener));
    }

    method Resolve(entity: EntityId) returns (location: Option<EntityLocation>)
      requires Valid()
      ensures location == Directories.Resolve(Abs().dir.slots, entity)
    {
      location := peers.Resolve(entity);
    }

    method IsOnline(node: NodeAddress) returns (online: bool)
      requires Valid()
      ensures online <==> IsUnicast(node) && Abs().dir.seen[node]
    {
      online := peers.IsOnline(node);
    }

    /** Whatever calls came, in whatever order, the object is in a safe state. */
    lemma EveryHistoryIsSafe(loaded: Option<NodeAddress>, saved: bool)
      requires Traced() && start == Boot(uid, role, loaded, saved) && Storable(loaded)
      ensures NodeInv(Abs())
    {
      RunKeepsInv(uid, role, loaded, saved, history);
    }
  }
}
