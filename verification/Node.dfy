/** One node as a value: its state, and every operation as a function of state and inputs.

    The ports are inputs: `Ports` says which frames the transmitter refuses during one call, whether
    storage accepts a save, and what status a command handler answers. A call drains the queues once
    or sends one frame directly, and no drain hands the same frame over twice
    (`Outboxes.DrainNeverRepeats`), so a set of refused frames describes every transmitter. */
module Nodes {
  import opened Wrappers
  import opened Types
  import opened CanIdentifiers
  import opened TypedValues
  import opened WirePayloads
  import opened FrameCodec
  import opened Payloads
  import opened Outboxes
  import opened Directories
  import opened Duplicates

  datatype Role = Primary | Secondary | NoRole

  datatype Ports = Ports(refused: set<RawCanFrame>, saved: bool, status: Status)

  datatype PendingResponse = PendingResponse(transaction: Byte, requester: NodeAddress, dueMs: U32)

  /** Handlers and listeners are objects with an identity and a constant key. */
  datatype Handler = Handler(identity: nat, endpoint: EndpointId)
  datatype Listener = Listener(identity: nat, entity: EntityId)

  datatype Registry = Registry(
    owned: Slots, observed: seq<Option<EntityId>>, handlers: seq<Option<Handler>>,
    stateListeners: seq<Option<Listener>>, eventListeners: seq<Option<Listener>>)

  datatype Schedule = Schedule(
    nextHeartbeat: U32, nextClaim: U32, nextDiscovery: U32, discoveryAttempt: nat, claimsSent: nat,
    claimScheduled: bool, ownedIndex: nat, observedIndex: nat)

  /** A call of a command handler, and a callback of a listener. */
  datatype Execution = Execution(handler: Handler, key: CommandKey, value: TypedValue)
  datatype Delivery = Delivery(listener: Listener, value: TypedValue, flags: Byte)

  /** `stored` is what address storage holds; `conflicts`, `executions`, `states` and `events` are
      traces of callbacks. */
  datatype NodeRecord = NodeRecord(
    uid: Uid, role: Role, stored: Option<NodeAddress>, address: Option<NodeAddress>, reserved: seq<bool>,
    dir: Directory, registry: Registry, out: Outbox, duplicates: Records, pending: Option<PendingResponse>,
    schedule: Schedule, sequence: Byte,
    conflicts: seq<NodeAddress>, executions: seq<Execution>, states: seq<Delivery>, events: seq<Delivery>)

  predicate Sized(n: NodeRecord) {
    && |n.reserved| == ADDRESSES
    && WellSized(n.dir) && |n.dir.slots| == 32
    && |n.out.queues| == CLASSES
    && |n.duplicates| == 16
    && |n.registry.owned| == 16 && |n.registry.observed| == 16 && |n.registry.handlers| == 16
    && |n.registry.stateListeners| == 16 && |n.registry.eventListeners| == 16
    && n.schedule.ownedIndex <= 16 && n.schedule.observedIndex <= 16
  }

  type Node = n: NodeRecord | Sized(n) witness Blank([0, 0, 0, 0, 0, 0], NoRole, None)

  /** `count` empty slots. */
  function Vacant<T>(count: nat): seq<Option<T>> { seq(count, _ => None) }

  function Blank(uid: Uid, role: Role, stored: Option<NodeAddress>): (n: NodeRecord)
    ensures Sized(n)
  {
    NodeRecord(
      uid, role, stored, stored, seq(ADDRESSES, _ => false),
      Directory(seq(ADDRESSES, _ => false), seq(ADDRESSES, _ => 0), Vacant(32), []),
      Registry(Vacant(16), Vacant(16), Vacant(16), Vacant(16), Vacant(16)),
      EMPTY, Vacant(16), None, Schedule(0, 0, 0, 0, 0, false, 0, 0), 0, [], [], [], [])
  }

  const BOOTSTRAP: NodeAddress := 0x001

  /** The constructor: a primary without an address takes and stores the bootstrap address. */
  function Boot(uid: Uid, role: Role, stored: Option<NodeAddress>, saved: bool): Node {
    var n := Blank(uid, role, stored);
    var booted := if stored.None? && role == Primary && saved
                  then n.(stored := Some(BOOTSTRAP), address := Some(BOOTSTRAP)) else n;
    match booted.address
    case Some(a) => booted.(reserved := booted.reserved[a := true])
    case None => booted
  }

  // ---------------------------------------------------------------- UID hashes

  function HashBytes(hash: U32, uid: seq<Byte>): U32
    decreases |uid|
  {
    if uid == [] then hash else HashBytes(Xor32(hash, uid[0]) * 16777619 % WORD, uid[1..])
  }

  function UidHash(uid: Uid): U32 { HashBytes(2166136261, uid) }

  function ClaimStartDelay(uid: Uid): (delay: nat)
    ensures 1000 <= delay <= 2500
  {
    1000 + UidHash(uid) % 1501
  }

  function ClaimInterval(uid: Uid): (interval: nat)
    ensures 250 <= interval <= 500
  {
    250 + UidHash(uid) % 251
  }

  function MixBytes(hash: U32, uid: seq<Byte>): U32
    decreases |uid|
  {
    if uid == [] then hash else MixBytes(Xor32(hash * 33 % WORD, uid[0]), uid[1..])
  }

  function ResponseDelay(uid: Uid, request: Bytes8): (delay: nat)
    requires U16At(request, 2) != 0
    ensures delay < U16At(request, 2)
  {
    MixBytes(U32At(request, 4), uid) % U16At(request, 2)
  }

  // ---------------------------------------------------------------- frames the node builds

  function MakeFrame(priority: Priority, kind: PayloadKind, destination: NodeAddress, source: NodeAddress,
                     bytes: Bytes8): ProtocolFrame
  {
    ProtocolFrame(CanIdentifier(priority, kind, destination, source, 0), WirePayload(kind, bytes))
  }

  function ClaimFrame(uid: Uid, address: NodeAddress): ProtocolFrame {
    MakeFrame(MANAGEMENT, ADDRESS_CLAIM, BROADCAST, address, uid + [1, Xor8(uid[0], uid[5])])
  }

  function ConflictFrame(uid: Uid, address: NodeAddress, sequence: Byte): ProtocolFrame {
    MakeFrame(CONTROL, ADDRESS_CONFLICT, address, address, uid + [1, sequence])
  }

  function HeartbeatFrame(address: NodeAddress, sequence: Byte): ProtocolFrame {
    MakeFrame(MANAGEMENT, HEARTBEAT, BROADCAST, address, [sequence, 0, 1, 0, 0, 0, 0, 0])
  }

  /** The challenge byte uses the sequence number after the transaction byte has taken the old one. */
  function DiscoveryRequestBytes(uid: Uid, sequence: Byte): Bytes8 {
    [sequence, 2, 0xE8, 3, Xor8(uid[0], Next8(sequence)), uid[1], uid[2], uid[3]]
  }

  function DiscoveryRequestFrame(uid: Uid, sequence: Byte): ProtocolFrame {
    MakeFrame(MANAGEMENT, DISCOVERY_REQUEST, BROADCAST, UNASSIGNED, DiscoveryRequestBytes(uid, sequence))
  }

  function DiscoveryResponseFrame(uid: Uid, transaction: Byte, requester: NodeAddress,
                                  source: NodeAddress): ProtocolFrame {
    MakeFrame(MANAGEMENT, DISCOVERY_RESPONSE, requester, source, [transaction] + uid + [0])
  }

  function EntityClaimFrame(address: NodeAddress, sequence: Byte, entity: EntityId,
                            endpoint: EndpointId): ProtocolFrame {
    MakeFrame(MANAGEMENT, ENTITY_CLAIM, BROADCAST, address,
              [sequence, endpoint, ByteOf(entity, 0), ByteOf(entity, 1), ByteOf(entity, 2), ByteOf(entity, 3), 0, 0])
  }

  function EntityResolveFrame(address: NodeAddress, sequence: Byte, entity: EntityId): ProtocolFrame {
    MakeFrame(MANAGEMENT, ENTITY_RESOLVE, BROADCAST, address,
              [sequence, 0, ByteOf(entity, 0), ByteOf(entity, 1), ByteOf(entity, 2), ByteOf(entity, 3), 0xE8, 3])
  }

  function AckFrame(address: NodeAddress, f: ProtocolFrame, status: Status): ProtocolFrame {
    MakeFrame(CONTROL, ACK, f.identifier.source, address,
              [f.payload.bytes[0], f.payload.bytes[1], f.identifier.kind, status, 0, 0, 0, 0])
  }

  function AssignFrame(address: NodeAddress, uid: Uid, granted: NodeAddress): ProtocolFrame {
    MakeFrame(MANAGEMENT, ADDRESS_ASSIGN, BROADCAST, address, uid + [granted % 0x100, granted / 0x100 + 2])
  }

  function StateFrame(address: NodeAddress, payload: ValuePayload): ProtocolFrame {
    MakeFrame(STATE_QUERY, STATE, BROADCAST, address, EncodeValue(payload))
  }

  function EventFrame(address: NodeAddress, payload: ValuePayload): ProtocolFrame {
    MakeFrame(EVENT_CLASS, EVENT, BROADCAST, address, EncodeValue(payload))
  }

  // ---------------------------------------------------------------- sending

  function Send(n: Node, frame: ProtocolFrame): Node { n.(out := Enqueue(n.out, frame).0) }

  function DrainOne(n: Node, p: Ports): Node { n.(out := Drain(n.out, p.refused).0) }

  function SendClaim(n: Node): Node {
    if n.address.None? then n
    else Send(n, ClaimFrame(n.uid, n.address.value)).(
           schedule := n.schedule.(claimsSent := n.schedule.claimsSent + 1,
                                   nextClaim := Add32(n.schedule.nextClaim, ClaimInterval(n.uid))))
  }

  function SendConflict(n: Node): Node {
    if n.address.None? then n
    else Send(n, ConflictFrame(n.uid, n.address.value, n.sequence)).(sequence := Next8(n.sequence))
  }

  function SendEntityClaim(n: Node, entity: EntityId, endpoint: EndpointId): Node {
    if n.address.None? then n
    else Send(n, EntityClaimFrame(n.address.value, n.sequence, entity, endpoint)).(sequence := Next8(n.sequence))
  }

  function SendEntityResolve(n: Node, entity: EntityId): Node {
    if n.address.None? then n
    else Send(n, EntityResolveFrame(n.address.value, n.sequence, entity)).(sequence := Next8(n.sequence))
  }

  function Acknowledge(n: Node, f: ProtocolFrame, status: Status): Node {
    if n.address.None? then n else Send(n, AckFrame(n.address.value, f, status))
  }

  function SendDiscoveryResponse(n: Node, pending: PendingResponse): Node {
    var source := if n.address.Some? then n.address.value else UNASSIGNED;
    Send(n, DiscoveryResponseFrame(n.uid, pending.transaction, pending.requester, source))
  }

  function ScheduleResponse(uid: Uid, request: Bytes8, requester: NodeAddress, now: U32): PendingResponse
    requires U16At(request, 2) != 0
  {
    PendingResponse(request[0], requester, Add32(now, ResponseDelay(uid, request)))
  }

  function RetryDelay(attempt: nat): nat {
    if attempt == 0 then 2000 else if attempt == 1 then 4000 else if attempt == 2 then 8000
    else if attempt == 3 then 16000 else 30000
  }

  function SendDiscoveryRequest(n: Node, now: U32): Node {
    var bytes := DiscoveryRequestBytes(n.uid, n.sequence);
    var attempt := n.schedule.discoveryAttempt;
    Send(n, DiscoveryRequestFrame(n.uid, n.sequence)).(
      sequence := Next8(n.sequence),
      pending := Some(ScheduleResponse(n.uid, bytes, UNASSIGNED, now)),
      schedule := n.schedule.(discoveryAttempt := if attempt < 4 then attempt + 1 else attempt,
                              nextDiscovery := Add32(now, RetryDelay(attempt))))
  }

  /** Handed straight to the transmitter, past the queues. */
  function SendHeartbeat(n: Node, now: U32, p: Ports): Node
    requires n.address.Some?
  {
    var out := match Encode(HeartbeatFrame(n.address.value, n.sequence))
               case Success(raw) => Transmit(n.out, raw, false, p.refused)
               case Failure(_) => n.out;
    n.(out := out, sequence := Next8(n.sequence), schedule := n.schedule.(nextHeartbeat := Add32(now, 30000)))
  }

  // ---------------------------------------------------------------- tick

  /** The first occupied slot at or after `i`, or the number of slots. */
  function NextOccupied<T>(slots: seq<Option<T>>, i: nat): (j: nat)
    requires i <= |slots|
    ensures i <= j <= |slots|
    ensures j < |slots| ==> slots[j].Some?
    ensures forall k :: i <= k < j ==> slots[k].None?
    decreases |slots| - i
  {
    if i == |slots| || slots[i].Some? then i else NextOccupied(slots, i + 1)
  }

  function ScheduleClaim(n: Node, now: U32): Node {
    if n.address.Some? && !n.schedule.claimScheduled
    then n.(schedule := n.schedule.(nextClaim := Add32(now, ClaimStartDelay(n.uid)), claimScheduled := true))
    else n
  }

  predicate MayAnnounce(n: Node) { n.address.Some? && n.schedule.claimsSent == 2 }

  /** The end of a tick: one owned entity, else one observed entity, then one drain. */
  function Announce(n: Node, p: Ports): Node {
    var i := NextOccupied(n.registry.owned, n.schedule.ownedIndex);
    if MayAnnounce(n) && i < 16 then
      var entry := n.registry.owned[i].value;
      DrainOne(SendEntityClaim(n.(schedule := n.schedule.(ownedIndex := i + 1)), entry.entity, entry.endpoint), p)
    else AnnounceObserved(n.(schedule := n.schedule.(ownedIndex := i)), p)
  }

  function AnnounceObserved(n: Node, p: Ports): Node {
    var i := NextOccupied(n.registry.observed, n.schedule.observedIndex);
    if MayAnnounce(n) && i < 16 then
      DrainOne(SendEntityResolve(n.(schedule := n.schedule.(observedIndex := i + 1)), n.registry.observed[i].value), p)
    else DrainOne(n.(schedule := n.schedule.(observedIndex := i)), p)
  }

  /** A tick after expiry, and after a due discovery response has been ruled out. */
  function TickScheduled(n: Node, now: U32, p: Ports): Node {
    if n.address.None? && now >= n.schedule.nextDiscovery then DrainOne(SendDiscoveryRequest(n, now), p)
    else if n.address.Some? && n.schedule.claimsSent < 2 && now >= n.schedule.nextClaim then DrainOne(SendClaim(n), p)
    else if MayAnnounce(n) && now >= n.schedule.nextHeartbeat then SendHeartbeat(n, now, p)
    else Announce(n, p)
  }

  function ExpireNode(n: Node, now: U32): Node { n.(dir := Expire(n.dir, now)) }

  function Tick(n: Node, now: U32, p: Ports): Node {
    var n := ExpireNode(n, now);
    if n.pending.Some? && now >= n.pending.value.dueMs then
      DrainOne(SendDiscoveryResponse(n, n.pending.value).(pending := None), p)
    else TickScheduled(ScheduleClaim(n, now), now, p)
  }

  // ---------------------------------------------------------------- receive

  /** Byte-by-byte comparison from the most significant byte down: the first difference decides. */
  function LowerFromTop(a: seq<Byte>, b: seq<Byte>): bool
    requires |a| == |b|
  {
    if a == [] then false
    else if a[|a| - 1] != b[|b| - 1] then a[|a| - 1] < b[|b| - 1]
    else LowerFromTop(a[..|a| - 1], b[..|b| - 1])
  }

  function Withdraw(n: Node): Node {
    n.(address := None, schedule := n.schedule.(nextHeartbeat := 0, claimsSent := 0, claimScheduled := false))
  }

  function LoseAddress(n: Node): Node
    requires n.address.Some?
  {
    Withdraw(n.(conflicts := n.conflicts + [n.address.value]))
  }

  function HandleClaim(n: Node, source: NodeAddress, b: Bytes8): Node {
    var n := n.(reserved := n.reserved[source := true]);
    if n.address != Some(source) || b[..6] == n.uid then n
    else if LowerFromTop(n.uid, b[..6]) then SendConflict(n)
    else LoseAddress(n)
  }

  function HandleConflict(n: Node, b: Bytes8): Node
    requires n.address.Some?
  {
    if LowerFromTop(b[..6], n.uid) then LoseAddress(n) else n
  }

  function HandleAssign(n: Node, b: Bytes8, now: U32, saved: bool): Node {
    if b[..6] != n.uid || !saved then n
    else
      var granted := AssignedAddress(b);
      n.(stored := Some(granted), address := Some(granted), reserved := n.reserved[granted := true],
         schedule := n.schedule.(claimsSent := 0, claimScheduled := false, ownedIndex := 0, observedIndex := 0,
                                 nextClaim := now))
  }

  /** A fresh claim for every listed slot that holds the entity. */
  function ClaimMatching(n: Node, entity: EntityId, owned: Slots): Node
    decreases |owned|
  {
    if owned == [] then n
    else
      var hit := owned[0].Some? && owned[0].value.entity == entity;
      ClaimMatching(if hit then SendEntityClaim(n, entity, owned[0].value.endpoint) else n, entity, owned[1..])
  }

  /** Index of the first slot that holds an endpoint (of a node), or the number of slots. */
  function EndpointSlot(slots: Slots, node: Option<NodeAddress>, endpoint: EndpointId): (i: nat)
    ensures i <= |slots|
    ensures i < |slots| ==> slots[i].Some? && slots[i].value.endpoint == endpoint
                            && (node.Some? ==> slots[i].value.node == node.value)
    ensures forall j :: 0 <= j < i && slots[j].Some? && (node.Some? ==> slots[j].value.node == node.value) ==>
              slots[j].value.endpoint != endpoint
  {
    if slots == [] then 0
    else if slots[0].Some? && slots[0].value.endpoint == endpoint
        && (node.Some? ==> slots[0].value.node == node.value) then 0
    else 1 + EndpointSlot(slots[1..], node, endpoint)
  }

  predicate OwnsEndpoint(n: Node, endpoint: EndpointId) { EndpointSlot(n.registry.owned, None, endpoint) < 16 }

  function EntityFor(n: Node, source: NodeAddress, endpoint: EndpointId): Option<EntityId> {
    var own := EndpointSlot(n.registry.owned, None, endpoint);
    var known := EndpointSlot(n.dir.slots, Some(source), endpoint);
    if n.address == Some(source) && own < 16 then Some(n.registry.owned[own].value.entity)
    else if known < 32 then Some(n.dir.slots[known].value.entity)
    else None
  }

  function Notify(listeners: seq<Option<Listener>>, entity: EntityId, value: TypedValue, flags: Byte): seq<Delivery> {
    if listeners == [] then []
    else
      (if listeners[0].Some? && listeners[0].value.entity == entity
       then [Delivery(listeners[0].value, value, flags)] else [])
      + Notify(listeners[1..], entity, value, flags)
  }

  function SlotValue(b: Bytes8): TypedValue { TypedValue(b[2], b[4..8]) }

  function HandleState(n: Node, source: NodeAddress, b: Bytes8): Node {
    match EntityFor(n, source, b[1])
    case None => n
    case Some(entity) => n.(states := n.states + Notify(n.registry.stateListeners, entity, SlotValue(b), b[3]))
  }

  function HandleEvent(n: Node, f: ProtocolFrame): Node {
    var b := f.payload.bytes;
    var heard := match EntityFor(n, f.identifier.source, b[1])
                 case None => n
                 case Some(entity) =>
                   n.(events := n.events + Notify(n.registry.eventListeners, entity, SlotValue(b), b[3]));
    if n.address == Some(f.identifier.destination) && b[3] % 2 != 0 then Acknowledge(heard, f, ACCEPTED) else heard
  }

  /** Index of the first handler of an endpoint, or the number of slots. */
  function HandlerSlot(handlers: seq<Option<Handler>>, endpoint: EndpointId): (i: nat)
    ensures i <= |handlers|
    ensures i < |handlers| ==> handlers[i].Some? && handlers[i].value.endpoint == endpoint
    ensures forall j :: 0 <= j < i ==> handlers[j].None? || handlers[j].value.endpoint != endpoint
  {
    if handlers == [] || (handlers[0].Some? && handlers[0].value.endpoint == endpoint) then 0
    else 1 + HandlerSlot(handlers[1..], endpoint)
  }

  function KeyOfCommand(f: ProtocolFrame): CommandKey {
    CommandKey(f.identifier.source, f.payload.bytes[1], f.payload.bytes[0], f.identifier.kind)
  }

  /** Runs the handler, if the endpoint has one, and records the status under the key. */
  function Execute(n: Node, f: ProtocolFrame, now: U32, status: Status): (Node, Status) {
    var key, b := KeyOfCommand(f), f.payload.bytes;
    var i := HandlerSlot(n.registry.handlers, b[1]);
    var answer := if i < 16 then status else UNSUPPORTED;
    var executions := if i < 16 then n.executions + [Execution(n.registry.handlers[i].value, key, SlotValue(b))]
                      else n.executions;
    (n.(duplicates := SetStatus(Record(n.duplicates, key, now), key, answer), executions := executions), answer)
  }

  function HandleCommand(n: Node, f: ProtocolFrame, now: U32, status: Status): Node {
    var (done, answer) := match EarlierStatus(n.duplicates, KeyOfCommand(f), now)
                          case Some(earlier) => (n, earlier)
                          case None => Execute(n, f, now, status);
    if f.payload.bytes[3] % 2 != 0 then Acknowledge(done, f, answer) else done
  }

  /** The smallest address not yet allocated, from `value` on. */
  function NextFree(reserved: seq<bool>, value: nat): (free: Option<NodeAddress>)
    requires |reserved| == ADDRESSES && 1 <= value
    ensures free.Some? ==> value <= free.value < BROADCAST && !reserved[free.value]
    ensures forall a :: value <= a < (if free.Some? then free.value else BROADCAST) ==> reserved[a]
    decreases BROADCAST - value
  {
    if value >= BROADCAST then None
    else if !reserved[value] then Some(value)
    else NextFree(reserved, value + 1)
  }

  /** Issues the next free address to a discovered UID; a refused transmission leaves it free. */
  function Assign(n: Node, b: Bytes8, p: Ports): Node {
    match NextFree(n.reserved, 1)
    case None => n
    case Some(candidate) =>
      if n.address.None? then n
      else
        match Encode(AssignFrame(n.address.value, b[1..7], candidate))
        case Failure(_) => n
        case Success(raw) =>
          n.(out := Transmit(n.out, raw, false, p.refused),
             reserved := if raw !in p.refused then n.reserved[candidate := true] else n.reserved)
  }

  function HandleDiscoveryResponse(n: Node, f: ProtocolFrame, p: Ports): Node {
    if n.role != Primary || n.address.None? then n
    else if f.identifier.destination != n.address.value
            && !(f.identifier.source == UNASSIGNED && f.identifier.destination == UNASSIGNED) then n
    else Assign(n, f.payload.bytes, p)
  }

  function Dispatch(n: Node, f: ProtocolFrame, now: U32, p: Ports): Node
    requires ValidFrame(f)
  {
    var kind, source, destination, b := f.identifier.kind, f.identifier.source, f.identifier.destination,
        f.payload.bytes;
    if kind == ADDRESS_CLAIM then HandleClaim(n, source, b)
    else if kind == DISCOVERY_REQUEST then n.(pending := Some(ScheduleResponse(n.uid, b, source, now)))
    else if kind == ADDRESS_CONFLICT && n.address == Some(destination) then HandleConflict(n, b)
    else if kind == ADDRESS_ASSIGN then HandleAssign(n, b, now, p.saved)
    else if kind == ENTITY_CLAIM then n.(dir := Learn(n.dir, EntityLocation(U32At(b, 2), source, b[1])))
    else if kind == ENTITY_RESOLVE && n.address.Some? then ClaimMatching(n, U32At(b, 2), n.registry.owned)
    else if kind == STATE then HandleState(n, source, b)
    else if kind == EVENT && (destination == BROADCAST || n.address == Some(destination)) then HandleEvent(n, f)
    else if kind == COMMAND && n.address == Some(destination) then HandleCommand(n, f, now, p.status)
    else if kind == DISCOVERY_RESPONSE then HandleDiscoveryResponse(n, f, p)
    else n
  }

  function HearNode(n: Node, source: NodeAddress, now: U32): Node { n.(dir := Hear(n.dir, source, now)) }

  function Receive(n: Node, raw: RawCanFrame, now: U32, p: Ports): Node {
    match Decode(raw)
    case Failure(_) => n
    case Success(f) => Dispatch(HearNode(n, f.identifier.source, now), f, now, p)
  }

  // ---------------------------------------------------------------- application calls

  function PublishState(n: Node, endpoint: EndpointId, value: TypedValue, quality: Byte): (Node, bool) {
    if n.address.None? || !OwnsEndpoint(n, endpoint) then (n, false)
    else
      var n' := n.(sequence := Next8(n.sequence));
      match CreateState(n.sequence, endpoint, value, quality)
      case None => (n', false)
      case Some(payload) =>
        var (out, queued) := Enqueue(n.out, StateFrame(n.address.value, payload));
        (n'.(out := out), queued)
  }

  function PublishEvent(n: Node, endpoint: EndpointId, value: TypedValue, flags: Byte): (Node, bool) {
    if n.address.None? || !OwnsEndpoint(n, endpoint) || flags != 0 then (n, false)
    else
      var n' := n.(sequence := Next8(n.sequence));
      match CreateEvent(n.sequence, endpoint, value, flags)
      case None => (n', false)
      case Some(payload) =>
        var (out, queued) := Enqueue(n.out, EventFrame(n.address.value, payload));
        (n'.(out := out), queued)
  }

  /** The first owned entry that shares the entity or the endpoint decides. */
  function ClashingOwned(owned: Slots, entity: EntityId, endpoint: EndpointId): (i: nat)
    ensures i <= |owned|
    ensures i < |owned| ==> owned[i].Some? && (owned[i].value.entity == entity || owned[i].value.endpoint == endpoint)
    ensures forall j :: 0 <= j < i && owned[j].Some? ==>
              owned[j].value.entity != entity && owned[j].value.endpoint != endpoint
  {
    if owned == [] || (owned[0].Some? && (owned[0].value.entity == entity || owned[0].value.endpoint == endpoint))
        then 0
    else 1 + ClashingOwned(owned[1..], entity, endpoint)
  }

  function RegisterOwned(r: Registry, entity: EntityId, endpoint: EndpointId): (Registry, bool) {
    var clash, free := ClashingOwned(r.owned, entity, endpoint), FreeSlot(r.owned);
    if entity == 0 || endpoint == 0 || endpoint == 0xFF then (r, false)
    else if clash < |r.owned| then
      (r, r.owned[clash].value.entity == entity && r.owned[clash].value.endpoint == endpoint)
    else if free < |r.owned| then
      (r.(owned := r.owned[free := Some(EntityLocation(entity, UNASSIGNED, endpoint))]), true)
    else (r, false)
  }

  function RegisterObserved(r: Registry, entity: EntityId): (Registry, bool) {
    var free := FreeSlot(r.observed);
    if entity == 0 then (r, false)
    else if Some(entity) in r.observed then (r, true)
    else if free < |r.observed| then (r.(observed := r.observed[free := Some(entity)]), true)
    else (r, false)
  }

  /** The first slot that is empty or has the handler's endpoint decides. */
  function HandlerPlace(handlers: seq<Option<Handler>>, endpoint: EndpointId): (i: nat)
    ensures i <= |handlers|
    ensures i < |handlers| && handlers[i].Some? ==> handlers[i].value.endpoint == endpoint
    ensures forall j :: 0 <= j < i ==> handlers[j].Some? && handlers[j].value.endpoint != endpoint
  {
    if handlers == [] || handlers[0].None? || handlers[0].value.endpoint == endpoint then 0
    else 1 + HandlerPlace(handlers[1..], endpoint)
  }

  function RegisterHandler(r: Registry, handler: Handler): (Registry, bool) {
    var i := HandlerPlace(r.handlers, handler.endpoint);
    if handler.endpoint == 0 || handler.endpoint == 0xFF || i == |r.handlers| then (r, false)
    else if r.handlers[i].None? then (r.(handlers := r.handlers[i := Some(handler)]), true)
    else (r, r.handlers[i].value.identity == handler.identity)
  }

  predicate HasListener(listeners: seq<Option<Listener>>, identity: nat) {
    exists i :: 0 <= i < |listeners| && listeners[i].Some? && listeners[i].value.identity == identity
  }

  function RegisterStateListener(r: Registry, listener: Listener): (Registry, bool) {
    var free := FreeSlot(r.stateListeners);
    if listener.entity == 0 then (r, false)
    else if HasListener(r.stateListeners, listener.identity) then (r, true)
    else if free == |r.stateListeners| then (r, false)
    else
      var (r', ok) := RegisterObserved(r, listener.entity);
      if ok then (r'.(stateListeners := r.stateListeners[free := Some(listener)]), true) else (r, false)
  }

  function RegisterEventListener(r: Registry, listener: Listener): (Registry, bool) {
    var free := FreeSlot(r.eventListeners);
    if listener.entity == 0 then (r, false)
    else if HasListener(r.eventListeners, listener.identity) then (r, true)
    else if free == |r.eventListeners| then (r, false)
    else
      var (r', ok) := RegisterObserved(r, listener.entity);
      if ok then (r'.(eventListeners := r.eventListeners[free := Some(listener)]), true) else (r, false)
  }

  // ---------------------------------------------------------------- runs

  /** Every public call that changes a node. */
  datatype Input =
    | Received(raw: RawCanFrame, now: U32, ports: Ports)
    | Ticked(now: U32, ports: Ports)
    | StatePublished(endpoint: EndpointId, value: TypedValue, flags: Byte)
    | EventPublished(endpoint: EndpointId, value: TypedValue, flags: Byte)
    | FrameEnqueued(frame: ProtocolFrame)
    | Drained(ports: Ports)
    | OwnedRegistered(entity: EntityId, endpoint: EndpointId)
    | ObservedRegistered(entity: EntityId)
    | HandlerRegistered(handler: Handler)
    | StateListenerRegistered(listener: Listener)
    | EventListenerRegistered(listener: Listener)

  function Step(n: Node, input: Input): Node {
    match input
    case Received(raw, now, ports) => Receive(n, raw, now, ports)
    case Ticked(now, ports) => Tick(n, now, ports)
    case StatePublished(endpoint, value, flags) => PublishState(n, endpoint, value, flags).0
    case EventPublished(endpoint, value, flags) => PublishEvent(n, endpoint, value, flags).0
    case FrameEnqueued(frame) => Send(n, frame)
    case Drained(ports) => DrainOne(n, ports)
    case OwnedRegistered(entity, endpoint) => n.(registry := RegisterOwned(n.registry, entity, endpoint).0)
    case ObservedRegistered(entity) => n.(registry := RegisterObserved(n.registry, entity).0)
    case HandlerRegistered(handler) => n.(registry := RegisterHandler(n.registry, handler).0)
    case StateListenerRegistered(listener) => n.(registry := RegisterStateListener(n.registry, listener).0)
    case EventListenerRegistered(listener) => n.(registry := RegisterEventListener(n.registry, listener).0)
  }

  function Run(n: Node, inputs: seq<Input>): Node {
    if inputs == [] then n else Step(Run(n, inputs[..|inputs| - 1]), inputs[|inputs| - 1])
  }
}
