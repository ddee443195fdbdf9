/** When a publication or a registration is accepted, and what a delivered event does. */
module Publishing {
  import opened Wrappers
  import opened Types
  import opened CanIdentifiers
  import opened TypedValues
  import opened WirePayloads
  import opened FrameCodec
  import opened Payloads
  import opened Outboxes
  import opened Directories
  import opened Nodes
  import opened NodeInvariants
  import opened CodecClosure
  import opened Transmissions
  import opened EntityResolution
  import opened Convergence
  import W = WireFormats

  // ---------------------------------------------------------------- publications

  predicate Registered(r: Registry, endpoint: EndpointId) {
    exists i :: 0 <= i < |r.owned| && r.owned[i].Some? && r.owned[i].value.endpoint == endpoint
  }

  predicate PendingUnder(queue: seq<RawCanFrame>, key: Key) {
    exists i :: 0 <= i < |queue| && KeyOf(queue[i]) == Some(key)
  }

  lemma OwnedIsRegistered(n: Node, endpoint: EndpointId)
    ensures OwnsEndpoint(n, endpoint) <==> Registered(n.registry, endpoint)
  {
  }

  lemma RegisteredIsValid(r: Registry, endpoint: EndpointId)
    requires RegistryOk(r) && Registered(r, endpoint)
    ensures ValidEndpoint(endpoint)
  {
  }

  lemma StateAnswers(n: Node, endpoint: EndpointId, value: TypedValue, quality: Byte)
    requires NodeInv(n) && n.address.Some? && CreateState(n.sequence, endpoint, value, quality).Some?
    ensures var f := StateFrame(n.address.value, ValuePayload(n.sequence, endpoint, value, quality));
            Enqueue(n.out, f).1 <==>
              |n.out.queues[2]| < CAPACITY || PendingUnder(n.out.queues[2], Key(n.address.value, BROADCAST, endpoint))
  {
    hide Encode, KeyOf, OutboxInv, Enqueue, CreateState;
    var f := StateFrame(n.address.value, ValuePayload(n.sequence, endpoint, value, quality));
    PublishedEncodes(n.address.value, n.sequence, endpoint, value, quality);
    ShapedInv(n);
    EnqueueAnswers(n.out, f);
    assert QueueOf(f.identifier.priority) == 2 && FrameKey(f) == Some(Key(n.address.value, BROADCAST, endpoint));
  }

  lemma ShapedInv(n: Node)
    requires NodeInv(n)
    ensures Shaped(n.out)
  {
  }

  lemma EventAnswers(n: Node, endpoint: EndpointId, value: TypedValue)
    requires NodeInv(n) && n.address.Some? && CreateEvent(n.sequence, endpoint, value, 0).Some?
    ensures var f := EventFrame(n.address.value, ValuePayload(n.sequence, endpoint, value, 0));
            Enqueue(n.out, f).1 <==> |n.out.queues[1]| < CAPACITY
  {
    hide Encode, KeyOf, OutboxInv, Enqueue, CreateEvent;
    var f := EventFrame(n.address.value, ValuePayload(n.sequence, endpoint, value, 0));
    PublishedEncodes(n.address.value, n.sequence, endpoint, value, 0);
    ShapedInv(n);
    EnqueueAnswers(n.out, f);
    assert QueueOf(f.identifier.priority) == 1 && FrameKey(f) == None;
  }

  /** A state is accepted exactly when the node is commissioned, owns the endpoint, the value and its
      quality are well formed, and the queue has room or an older state of the endpoint to replace. */
  lemma StateAcceptedExactly(n: Node, endpoint: EndpointId, value: TypedValue, quality: Byte)
    requires NodeInv(n)
    ensures PublishState(n, endpoint, value, quality).1 <==>
              && n.address.Some? && Registered(n.registry, endpoint)
              && Validate(value) == ValueError.NoError && quality < 0x20
              && (|n.out.queues[2]| < CAPACITY
                  || PendingUnder(n.out.queues[2], Key(n.address.value, BROADCAST, endpoint)))
  {
    hide Encode, OutboxInv, Enqueue, RefinesLog, OwnersSeen, StateFrame, PendingUnder, Validate, Registered;
    OwnedIsRegistered(n, endpoint);
    if Registered(n.registry, endpoint) { RegisteredIsValid(n.registry, endpoint); }
    if n.address.Some? && CreateState(n.sequence, endpoint, value, quality).Some? {
      StateAnswers(n, endpoint, value, quality);
    }
  }

  /** An event is never coalesced, and carries no flags yet. */
  lemma EventAcceptedExactly(n: Node, endpoint: EndpointId, value: TypedValue, flags: Byte)
    requires NodeInv(n)
    ensures PublishEvent(n, endpoint, value, flags).1 <==>
              && n.address.Some? && Registered(n.registry, endpoint)
              && Validate(value) == ValueError.NoError && flags == 0 && |n.out.queues[1]| < CAPACITY
  {
    hide Encode, OutboxInv, Enqueue, RefinesLog, OwnersSeen, EventFrame, Validate, Registered;
    OwnedIsRegistered(n, endpoint);
    if Registered(n.registry, endpoint) { RegisteredIsValid(n.registry, endpoint); }
    if n.address.Some? && CreateEvent(n.sequence, endpoint, value, 0).Some? { EventAnswers(n, endpoint, value); }
  }

  // ---------------------------------------------------------------- events

  /** The event reaches each registered listener of its entity once, unchanged; it is acknowledged as
      accepted exactly when it names this node and asks for it. */
  lemma {:induction false} EventIsHeard(n: Node, f: ProtocolFrame, now: U32, p: Ports, listener: Listener)
    requires ValidFrame(f) && f.identifier.kind == EVENT && Addressed(n)
    requires Registrations(n.registry.eventListeners, listener) == 1
    ensures var m, b := Dispatch(n, f, now, p), f.payload.bytes;
            var mine, broadcast := n.address == Some(f.identifier.destination), f.identifier.destination == 0x1FF;
            && Heard(m.events, listener)
               == Heard(n.events, listener)
                  + (if (mine || broadcast) && EntityFor(n, f.identifier.source, b[1]) == Some(listener.entity)
                     then [Reading(SlotValue(b), b[3])] else [])
            && m.out == if mine then Acknowledged(n.out, f.identifier.destination, f, 0) else n.out
  {
    hide Registrations, Notify, EntityFor, Enqueue, AckFrame, Heard, Acknowledged;
    var b := f.payload.bytes;
    if n.address == Some(f.identifier.destination) {
      AcknowledgeOffers(n, f, ACCEPTED);
      if b[3] % 2 == 0 { AcknowledgeNothing(n.out, n.address.value, f, ACCEPTED); }
    }
    match EntityFor(n, f.identifier.source, b[1])
    case None =>
    case Some(entity) =>
      NotifyIsHeard(n.registry.eventListeners, entity, SlotValue(b), b[3], listener);
      HeardConcat(n.events, Notify(n.registry.eventListeners, entity, SlotValue(b), b[3]), listener);
  }

  /** The frame of an event from endpoint `endpoint` of node `a`. */
  function EventOnBus(a: NodeAddress, sequence: Byte, endpoint: W.Endpoint, value: W.Value): RawCanFrame {
    W.OnWire(W.Event(sequence, endpoint, 0, value), a, 0x1FF, 0)
  }

  lemma EventIsDecoded(a: NodeAddress, sequence: Byte, endpoint: EndpointId, value: TypedValue)
    requires IsUnicast(a) && CreateEvent(sequence, endpoint, value, 0).Some?
    ensures var f := EventFrame(a, ValuePayload(sequence, endpoint, value, 0));
            && Encode(f) == Success(EventOnBus(a, sequence, endpoint, value)) && ValidFrame(f)
            && Decode(EventOnBus(a, sequence, endpoint, value)) == Success(f)
            && f.payload.bytes[1] == endpoint && f.payload.bytes[3] == 0 && SlotValue(f.payload.bytes) == value
  {
    hide Encode, Decode, Validate;
    EventOnWire(a, sequence, endpoint, value, 0);
    DecodeEncoded(EventFrame(a, ValuePayload(sequence, endpoint, value, 0)));
    ValueFields(ValuePayload(sequence, endpoint, value, 0));
  }

  /** An accepted event goes to the end of the event queue, and is there for everybody: any other node
      that finds one entity at the endpoint tells its listeners, each once and what was published, tells
      nobody else, and acknowledges nothing. */
  lemma {:induction false} PublishedEventIsHeard(
    n: Node, endpoint: EndpointId, value: TypedValue, flags: Byte, m: Node, now: U32, p: Ports,
    listener: Listener, other: Listener)
    requires NodeInv(n) && PublishEvent(n, endpoint, value, flags).1
    requires NodeInv(m) && Locates(m, listener.entity, n.address.value, endpoint) && other.entity != listener.entity
    requires Registrations(m.registry.eventListeners, listener) == 1
    ensures 0 < endpoint < 0xFF && Validate(value) == ValueError.NoError
    ensures var raw := EventOnBus(n.address.value, n.sequence, endpoint, value);
            var m' := Receive(m, raw, now, p);
            && PublishEvent(n, endpoint, value, flags).0.out == Offered(n.out, 1, raw) && |n.out.queues[1]| < 8
            && Heard(m'.events, listener) == Heard(m.events, listener) + [Reading(value, 0)]
            && Heard(m'.events, other) == Heard(m.events, other) && m'.out == m.out
  {
    hide Registrations, Notify, EntityFor, Enqueue, Heard, Validate, Offered, Locates, NodeInv, EventOnBus, Dispatch;
    hide Encode, Decode, Hear;
    EventAcceptedExactly(n, endpoint, value, flags);
    EventGoesOut(n, endpoint, value);
    var a := n.address.value;
    var f := EventFrame(a, ValuePayload(n.sequence, endpoint, value, 0));
    EventIsDecoded(a, n.sequence, endpoint, value);
    HeardLocates(m, a, now, listener.entity, endpoint);
    EventArrives(HearNode(m, a, now), f, now, p, listener, other);
  }

  lemma EventGoesOut(n: Node, endpoint: EndpointId, value: TypedValue)
    requires NodeInv(n) && PublishEvent(n, endpoint, value, 0).1
    ensures n.address.Some? && IsUnicast(n.address.value) && CreateEvent(n.sequence, endpoint, value, 0).Some?
    ensures PublishEvent(n, endpoint, value, 0).0.out
            == Offered(n.out, 1, EventOnBus(n.address.value, n.sequence, endpoint, value))
  {
    hide Enqueue, Validate, Encode, EventFrame, Offered, EventOnBus, OutboxInv;
    EventIsDecoded(n.address.value, n.sequence, endpoint, value);
    var f := EventFrame(n.address.value, ValuePayload(n.sequence, endpoint, value, 0));
    EventClass(n.address.value, ValuePayload(n.sequence, endpoint, value, 0));
    EnqueueOffers(n.out, f, 1);
  }

  lemma EventClass(a: NodeAddress, payload: ValuePayload)
    ensures EventFrame(a, payload).identifier == CanIdentifier(2, EVENT, 0x1FF, a, 0)
  {
  }

  lemma HeardLocates(m: Node, a: NodeAddress, now: U32, entity: EntityId, endpoint: EndpointId)
    requires NodeInv(m) && Locates(m, entity, a, endpoint)
    ensures var heard := HearNode(m, a, now);
            && EntityFor(heard, a, endpoint) == Some(entity) && Addressed(heard) && heard.address != Some(a)
            && heard.registry == m.registry && heard.events == m.events && heard.out == m.out
  {
    hide OutboxInv;
    LocatedIsMeant(m, entity, a, endpoint);
  }

  lemma {:induction false} EventArrives(n: Node, f: ProtocolFrame, now: U32, p: Ports, listener: Listener,
                                        other: Listener)
    requires ValidFrame(f) && f.identifier.kind == EVENT && f.identifier.destination == 0x1FF && Addressed(n)
    requires EntityFor(n, f.identifier.source, f.payload.bytes[1]) == Some(listener.entity)
    requires Registrations(n.registry.eventListeners, listener) == 1 && other.entity != listener.entity
    ensures var m, b := Dispatch(n, f, now, p), f.payload.bytes;
            && Heard(m.events, listener) == Heard(n.events, listener) + [Reading(SlotValue(b), b[3])]
            && Heard(m.events, other) == Heard(n.events, other) && m.out == n.out
  {
    hide Registrations, Notify, EntityFor, Heard;
    var b, told := f.payload.bytes,
        Notify(n.registry.eventListeners, listener.entity, SlotValue(f.payload.bytes), f.payload.bytes[3]);
    EventIsHeard(n, f, now, p, listener);
    NotifyIsHeard(n.registry.eventListeners, listener.entity, SlotValue(b), b[3], other);
    HeardConcat(n.events, told, other);
  }

  // ---------------------------------------------------------------- registrations

  predicate Owns(owned: Slots, entity: EntityId, endpoint: EndpointId) {
    exists i :: 0 <= i < |owned| && owned[i].Some? && owned[i].value.entity == entity
        && owned[i].value.endpoint == endpoint
  }

  predicate Clashes(owned: Slots, entity: EntityId, endpoint: EndpointId) {
    exists i :: (0 <= i < |owned| && owned[i].Some?
                 && (owned[i].value.entity == entity) != (owned[i].value.endpoint == endpoint))
  }

  /** What was registered stays in its slot. */
  predicate Keeps<T(==)>(before: seq<Option<T>>, later: seq<Option<T>>) {
    |later| == |before| && forall i :: 0 <= i < |before| && before[i].Some? ==> later[i] == before[i]
  }

  /** The answer says whether the pair is registered afterwards; it is refused only for reserved
      numbers, for a clash with another pair, or for want of room; and nothing registered is lost. */
  lemma OwnedAnswers(r: Registry, entity: EntityId, endpoint: EndpointId)
    requires RegistryOk(r)
    ensures var (r', ok) := RegisterOwned(r, entity, endpoint);
            && (ok <==> Owns(r'.owned, entity, endpoint))
            && (ok <==> entity != 0 && IsEndpoint(endpoint) && !Clashes(r.owned, entity, endpoint)
                        && (Owns(r.owned, entity, endpoint) || None in r.owned))
            && r' == r.(owned := r'.owned) && Keeps(r.owned, r'.owned)
  {
    var clash, free := ClashingOwned(r.owned, entity, endpoint), FreeSlot(r.owned);
    var (r', ok) := RegisterOwned(r, entity, endpoint);
    if entity == 0 || !IsEndpoint(endpoint) {
    } else if clash < |r.owned| {
    } else if free < |r.owned| {
      assert r.owned[free] == None && r'.owned[free] == Some(EntityLocation(entity, UNASSIGNED, endpoint));
    }
  }

  /** An observed entity is registered unless it is zero or there is no room. */
  lemma ObservedAnswers(r: Registry, entity: EntityId)
    requires RegistryOk(r)
    ensures var (r', ok) := RegisterObserved(r, entity);
            && (ok <==> Some(entity) in r'.observed)
            && (ok <==> entity != 0 && (Some(entity) in r.observed || None in r.observed))
            && r' == r.(observed := r'.observed) && Keeps(r.observed, r'.observed)
  {
    var free := FreeSlot(r.observed);
    var (r', ok) := RegisterObserved(r, entity);
    if entity != 0 && Some(entity) !in r.observed && free < |r.observed| {
      assert r.observed[free] == None && r'.observed[free] == Some(entity);
    }
  }

  /** A state listener of entity zero is refused; another is accepted exactly when it is listed
      afterwards, and then its entity is observed. */
  lemma ListenerAnswers(r: Registry, listener: Listener)
    requires RegistryOk(r)
    ensures var (r', ok) := RegisterStateListener(r, listener);
            && (ok <==> listener.entity != 0 && HasListener(r'.stateListeners, listener.identity))
            && (ok && !HasListener(r.stateListeners, listener.identity) ==>
                  Some(listener) in r'.stateListeners && Some(listener.entity) in r'.observed)
            && (!ok || HasListener(r.stateListeners, listener.identity) ==> r' == r)
            && r' == r.(observed := r'.observed, stateListeners := r'.stateListeners)
            && Keeps(r.observed, r'.observed) && Keeps(r.stateListeners, r'.stateListeners)
  {
    hide RegisterObserved;
    ObservedAnswers(r, listener.entity);
    var free := FreeSlot(r.stateListeners);
    var (r', ok) := RegisterStateListener(r, listener);
    if ok && !HasListener(r.stateListeners, listener.identity) { assert r'.stateListeners[free] == Some(listener); }
  }

  /** The same for event listeners. */
  lemma EventListenerAnswers(r: Registry, listener: Listener)
    requires RegistryOk(r)
    ensures var (r', ok) := RegisterEventListener(r, listener);
            && (ok <==> listener.entity != 0 && HasListener(r'.eventListeners, listener.identity))
            && (ok && !HasListener(r.eventListeners, listener.identity) ==>
                  Some(listener) in r'.eventListeners && Some(listener.entity) in r'.observed)
            && (!ok || HasListener(r.eventListeners, listener.identity) ==> r' == r)
            && r' == r.(observed := r'.observed, eventListeners := r'.eventListeners)
            && Keeps(r.observed, r'.observed) && Keeps(r.eventListeners, r'.eventListeners)
  {
    hide RegisterObserved;
    ObservedAnswers(r, listener.entity);
    var free := FreeSlot(r.eventListeners);
    var (r', ok) := RegisterEventListener(r, listener);
    if ok && !HasListener(r.eventListeners, listener.identity) { assert r'.eventListeners[free] == Some(listener); }
  }

  // ---------------------------------------------------------------- command handlers

  /** Handlers fill the slots from the front, one for an endpoint. */
  predicate HandlersOk(handlers: seq<Option<Handler>>) {
    forall i, j :: 0 <= i < j < |handlers| && handlers[j].Some? ==>
      handlers[i].Some? && handlers[i].value.endpoint != handlers[j].value.endpoint
  }

  /** The handler of an endpoint, if it has one. */
  predicate Serves(handlers: seq<Option<Handler>>, endpoint: EndpointId, handler: Option<Handler>) {
    if handler.Some? then handler in handlers && handler.value.endpoint == endpoint
    else forall i :: 0 <= i < |handlers| && handlers[i].Some? ==> handlers[i].value.endpoint != endpoint
  }

  /** A handler is accepted exactly if its endpoint is valid and is served by itself already or by nobody,
      and there is room; then it is the one that serves it. Nothing else changes. */
  lemma HandlerAnswers(r: Registry, handler: Handler, serving: Option<Handler>)
    requires HandlersOk(r.handlers) && Serves(r.handlers, handler.endpoint, serving)
    ensures var (r', ok) := RegisterHandler(r, handler);
            && (ok <==> 0 < handler.endpoint < 0xFF
                        && if serving.Some? then serving.value.identity == handler.identity else None in r.handlers)
            && r' == r.(handlers := r'.handlers) && Keeps(r.handlers, r'.handlers) && HandlersOk(r'.handlers)
            && (!ok || serving.Some? ==> r' == r)
            && (ok && serving.None? ==> Serves(r'.handlers, handler.endpoint, Some(handler)))
  {
    var i := HandlerPlace(r.handlers, handler.endpoint);
    if serving.Some? {
      var k :| 0 <= k < |r.handlers| && r.handlers[k] == serving;
      assert i == k;
    } else if i < |r.handlers| {
      assert r.handlers[i].None?;
      assert r.handlers[i := Some(handler)][i] == Some(handler);
    }
  }

  lemma {:induction false} HandlersStayOk(
    uid: Uid, role: Role, stored: Option<NodeAddress>, saved: bool, inputs: seq<Input>)
    ensures HandlersOk(Run(Boot(uid, role, stored, saved), inputs).registry.handlers)
  {
    hide Step;
    if inputs != [] {
      HandlersStayOk(uid, role, stored, saved, inputs[..|inputs| - 1]);
      StepKeepsHandlers(Run(Boot(uid, role, stored, saved), inputs[..|inputs| - 1]), inputs[|inputs| - 1]);
    }
  }

  lemma StepKeepsHandlers(n: Node, input: Input)
    requires HandlersOk(n.registry.handlers)
    ensures HandlersOk(Step(n, input).registry.handlers)
  {
    hide Dispatch, Tick, RegisterOwned, RegisterObserved, PublishState, PublishEvent, Enqueue, Drain, RegisterHandler;
    match input
    case Received(raw, now, ports) =>
      if Decode(raw).Success? {
        EncodeDecoded(raw);
        var f := Decode(raw).value;
        DispatchIdentity(HearNode(n, f.identifier.source, now), f, now, ports);
      }
    case Ticked(now, ports) => TickFrame(n, now, ports);
    case StatePublished(endpoint, value, flags) => PublicationKeepsRegistry(n, endpoint, value, flags);
    case EventPublished(endpoint, value, flags) => PublicationKeepsRegistry(n, endpoint, value, flags);
    case OwnedRegistered(entity, endpoint) => OwnedKeepsHandlers(n.registry, entity, endpoint);
    case ObservedRegistered(entity) => ObservedKeepsHandlers(n.registry, entity);
    case StateListenerRegistered(listener) => ObservedKeepsHandlers(n.registry, listener.entity);
    case EventListenerRegistered(listener) => ObservedKeepsHandlers(n.registry, listener.entity);
    case HandlerRegistered(handler) =>
      var i := HandlerSlot(n.registry.handlers, handler.endpoint);
      HandlerAnswers(n.registry, handler, if i < 16 then n.registry.handlers[i] else None);
    case _ =>
  }

  lemma OwnedKeepsHandlers(r: Registry, entity: EntityId, endpoint: EndpointId)
    ensures RegisterOwned(r, entity, endpoint).0.handlers == r.handlers
  {
  }

  lemma ObservedKeepsHandlers(r: Registry, entity: EntityId)
    ensures RegisterObserved(r, entity).0.handlers == r.handlers
  {
  }
}
