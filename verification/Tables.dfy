/** The fixed arrays of a node, scanned and updated in place. */
module Tables {
  import opened Wrappers
  import opened Types
  import opened TypedValues
  import opened Directories
  import opened Duplicates
  import opened Nodes

  // ---------------------------------------------------------------- scans

  method FindFree<T>(slots: array<Option<T>>) returns (i: nat)
    ensures i == FreeSlot(slots[..])
  {
    i := 0;
    while i < slots.Length && slots[i].Some?
      invariant i <= slots.Length
      invariant FreeSlot(slots[..]) == i + FreeSlot(slots[i..])
    {
      i := i + 1;
    }
  }

  method FindEntity(slots: array<Option<EntityLocation>>, entity: EntityId) returns (i: nat)
    ensures i == SlotOf(slots[..], entity)
  {
    i := 0;
    while i < slots.Length && !(slots[i].Some? && slots[i].value.entity == entity)
      invariant i <= slots.Length
      invariant SlotOf(slots[..], entity) == i + SlotOf(slots[i..], entity)
    {
      i := i + 1;
    }
  }

  method FindEndpoint(slots: array<Option<EntityLocation>>, node: Option<NodeAddress>,
                      endpoint: EndpointId) returns (i: nat)
    ensures i == EndpointSlot(slots[..], node, endpoint)
  {
    i := 0;
    while i < slots.Length
          && !(slots[i].Some? && slots[i].value.endpoint == endpoint
               && (node.Some? ==> slots[i].value.node == node.value))
      invariant i <= slots.Length
      invariant EndpointSlot(slots[..], node, endpoint) == i + EndpointSlot(slots[i..], node, endpoint)
    {
      i := i + 1;
    }
  }

  // ---------------------------------------------------------------- presence and directory

  class Peers {
    const seen: array<bool>
    const lastSeen: array<U32>
    const entities: array<Option<EntityLocation>>
    ghost var model: Directory

    ghost function Footprint(): set<object> { {this, seen, lastSeen, entities} }

    ghost predicate Valid()
      reads Footprint()
    {
      && seen.Length == ADDRESSES && lastSeen.Length == ADDRESSES && entities.Length == 32
      && model.seen == seen[..] && model.lastSeen == lastSeen[..] && model.slots == entities[..]
    }

    constructor ()
      ensures Valid() && fresh(Footprint()) && forall o :: o in Footprint() ==> allocated(o)
      ensures model == Directory(seq(ADDRESSES, _ => false), seq(ADDRESSES, _ => 0), Vacant(32), [])
    {
      seen := new bool[ADDRESSES](_ => false);
      lastSeen := new U32[ADDRESSES](_ => 0);
      entities := new Option<EntityLocation>[32](_ => None);
      model := Directory(seq(ADDRESSES, _ => false), seq(ADDRESSES, _ => 0), Vacant(32), []);
    }

    method Hear(source: NodeAddress, now: U32)
      requires Valid()
      modifies Footprint()
      ensures Valid() && model == Directories.Hear(old(model), source, now)
    {
      if source != UNASSIGNED {
        seen[source] := true;
        lastSeen[source] := now;
        model := Directories.Hear(model, source, now);
      }
    }

    /** A repeated claim changes nothing, a contradicting one removes the entry, a new one takes the
        first free slot, if there is one. */
    method LearnEntity(location: EntityLocation)
      requires Valid()
      modifies Footprint()
      ensures Valid() && model == Learn(old(model), location)
    {
      var i := FindEntity(entities, location.entity);
      if i < entities.Length {
        if entities[i] == Some(location) { return; }
        Clear(i);
        return;
      }
      i := FindFree(entities);
      if i < entities.Length {
        entities[i] := Some(location);
        model := Insert(model, i, location);
      }
    }

    method Clear(i: nat)
      requires Valid() && i < entities.Length && entities[i].Some?
      modifies this, entities
      ensures Valid() && model == Remove(old(model), i)
    {
      model := Remove(model, i);
      entities[i] := None;
    }

    method EvictNode(node: NodeAddress)
      requires Valid()
      modifies this, entities
      ensures Valid() && model == Evict(old(model), node, 0)
    {
      for i := 0 to entities.Length
        invariant Valid() && Evict(model, node, i) == Evict(old(model), node, 0)
      {
        if entities[i].Some? && entities[i].value.node == node { Clear(i); }
      }
    }

    /** Every address that has been silent for too long goes offline, and its entities with it. */
    method ExpireOffline(now: U32)
      requires Valid()
      modifies Footprint()
      ensures Valid() && model == Expire(old(model), now)
    {
      for source := 1 to BROADCAST
        invariant Valid() && ExpireFrom(model, source, now) == Expire(old(model), now)
      {
        if seen[source] && Sub32(now, lastSeen[source]) >= OFFLINE_AFTER {
          Silence(source);
        }
      }
    }

    method Silence(source: NodeAddress)
      requires Valid()
      modifies Footprint()
      ensures Valid() && model == Evict(old(model).(seen := old(model).seen[source := false]), source, 0)
    {
      seen[source] := false;
      model := model.(seen := model.seen[source := false]);
      EvictNode(source);
    }

    method Resolve(entity: EntityId) returns (location: Option<EntityLocation>)
      requires Valid()
      ensures location == Directories.Resolve(model.slots, entity)
    {
      var i := FindEntity(entities, entity);
      location := if i < entities.Length then entities[i] else None;
    }

    method IsOnline(address: NodeAddress) returns (online: bool)
      requires Valid()
      ensures online == (0 < address < BROADCAST && model.seen[address])
    {
      online := address != UNASSIGNED && address != BROADCAST && seen[address];
    }
  }

  // ---------------------------------------------------------------- executed commands

  class DuplicateTable {
    const records: array<Option<Duplicate>>
    ghost var model: Records

    ghost function Footprint(): set<object> { {this, records} }

    ghost predicate Valid()
      reads Footprint()
    {
      records.Length == 16 && model == records[..]
    }

    constructor ()
      ensures Valid() && fresh(Footprint()) && forall o :: o in Footprint() ==> allocated(o)
      ensures model == Vacant(16)
    {
      records := new Option<Duplicate>[16](_ => None);
      model := Vacant(16);
    }

    /** Answers with the status of a live record, or else makes a new one. */
    method IsDuplicate(key: CommandKey, now: U32) returns (earlier: Option<Status>)
      requires Valid()
      modifies Footprint()
      ensures Valid() && earlier == EarlierStatus(old(model), key, now)
      ensures model == if earlier.Some? then old(model) else Record(old(model), key, now)
    {
      var i := 0;
      while i < records.Length && !IsLive(records[i], key, now)
        invariant i <= records.Length
        invariant LiveRecord(records[..], key, now) == i + LiveRecord(records[i..], key, now)
      {
        i := i + 1;
      }
      if i < records.Length { return Some(records[i].value.status); }
      var free := FindFree(records);
      if free == records.Length { free := 0; }
      records[free] := Some(Duplicate(key, now, UNSUPPORTED));
      model := records[..];
      earlier := None;
    }

    method SetDuplicateStatus(key: CommandKey, status: Status)
      requires Valid()
      modifies Footprint()
      ensures Valid() && model == SetStatus(old(model), key, status)
    {
      var i := 0;
      while i < records.Length && !(records[i].Some? && records[i].value.key == key)
        invariant i <= records.Length
        invariant KeyRecord(records[..], key) == i + KeyRecord(records[i..], key)
      {
        i := i + 1;
      }
      if i < records.Length {
        records[i] := Some(records[i].value.(status := status));
        model := records[..];
      }
    }
  }

  // ---------------------------------------------------------------- registrations

  class Registrations {
    const owned: array<Option<EntityLocation>>
    const observed: array<Option<EntityId>>
    const handlers: array<Option<Handler>>
    const stateListeners: array<Option<Listener>>
    const eventListeners: array<Option<Listener>>
    ghost var model: Registry

    ghost function Footprint(): set<object> { {this, owned, observed, handlers, stateListeners, eventListeners} }

    ghost predicate Valid()
      reads Footprint()
    {
      && owned.Length == 16 && observed.Length == 16 && handlers.Length == 16
      && stateListeners.Length == 16 && eventListeners.Length == 16 && stateListeners != eventListeners
      && model == Registry(owned[..], observed[..], handlers[..], stateListeners[..], eventListeners[..])
    }

    constructor ()
      ensures Valid() && fresh(Footprint()) && forall o :: o in Footprint() ==> allocated(o)
      ensures model == Registry(Vacant(16), Vacant(16), Vacant(16), Vacant(16), Vacant(16))
    {
      owned := new Option<EntityLocation>[16](_ => None);
      observed := new Option<EntityId>[16](_ => None);
      handlers := new Option<Handler>[16](_ => None);
      stateListeners := new Option<Listener>[16](_ => None);
      eventListeners := new Option<Listener>[16](_ => None);
      model := Registry(Vacant(16), Vacant(16), Vacant(16), Vacant(16), Vacant(16));
    }

    /** The first entry that shares the entity or the endpoint decides; else the first free slot is taken. */
    method RegisterOwnedEntity(entity: EntityId, endpoint: EndpointId) returns (ok: bool)
      requires Valid()
      modifies Footprint()
      ensures Valid() && (model, ok) == RegisterOwned(old(model), entity, endpoint)
    {
      if entity == 0 || endpoint == 0 || endpoint == 0xFF { return false; }
      var i := 0;
      while i < owned.Length &&
              !(owned[i].Some? && (owned[i].value.entity == entity || owned[i].value.endpoint == endpoint))
        invariant i <= owned.Length
        invariant ClashingOwned(owned[..], entity, endpoint) == i + ClashingOwned(owned[i..], entity, endpoint)
      {
        i := i + 1;
      }
      if i < owned.Length { return owned[i].value.entity == entity && owned[i].value.endpoint == endpoint; }
      i := FindFree(owned);
      ok := i < owned.Length;
      if ok {
        owned[i] := Some(EntityLocation(entity, UNASSIGNED, endpoint));
        model := model.(owned := owned[..]);
      }
    }

    method RegisterObservedEntity(entity: EntityId) returns (ok: bool)
      requires Valid()
      modifies this, observed
      ensures Valid() && (model, ok) == RegisterObserved(old(model), entity)
    {
      if entity == 0 { return false; }
      for i := 0 to observed.Length
        invariant Some(entity) !in observed[..i]
      {
        if observed[i] == Some(entity) {
          assert observed[..][i] == Some(entity);
          return true;
        }
      }
      assert observed[..] == observed[..observed.Length];
      var free := FindFree(observed);
      ok := free < observed.Length;
      if ok {
        observed[free] := Some(entity);
        model := model.(observed := observed[..]);
      }
    }

    method RegisterEndpoint(handler: Handler) returns (ok: bool)
      requires Valid()
      modifies Footprint()
      ensures Valid() && (model, ok) == RegisterHandler(old(model), handler)
    {
      if handler.endpoint == 0 || handler.endpoint == 0xFF { return false; }
      var i := 0;
      while i < handlers.Length && handlers[i].Some? && handlers[i].value.endpoint != handler.endpoint
        invariant i <= handlers.Length
        invariant HandlerPlace(handlers[..], handler.endpoint) == i + HandlerPlace(handlers[i..], handler.endpoint)
      {
        i := i + 1;
      }
      if i == handlers.Length { return false; }
      if handlers[i].Some? { return handlers[i].value.identity == handler.identity; }
      handlers[i] := Some(handler);
      model := model.(handlers := handlers[..]);
      ok := true;
    }

    static method IsListed(listeners: array<Option<Listener>>, identity: nat) returns (found: bool)
      ensures found == HasListener(listeners[..], identity)
    {
      for i := 0 to listeners.Length
        invariant !HasListener(listeners[..i], identity)
      {
        if listeners[i].Some? && listeners[i].value.identity == identity {
          assert listeners[..][i].value.identity == identity;
          return true;
        }
        assert forall k :: 0 <= k < i ==> listeners[..i][k] == listeners[..i + 1][k];
      }
      assert listeners[..] == listeners[..listeners.Length];
      found := false;
    }

    method RegisterStates(listener: Listener) returns (ok: bool)
      requires Valid()
      modifies Footprint()
      ensures Valid() && (model, ok) == RegisterStateListener(old(model), listener)
    {
      if listener.entity == 0 { return false; }
      var listed := IsListed(stateListeners, listener.identity);
      if listed { return true; }
      var free := FindFree(stateListeners);
      if free == stateListeners.Length { return false; }
      ok := RegisterObservedEntity(listener.entity);
      if ok {
        stateListeners[free] := Some(listener);
        model := model.(stateListeners := stateListeners[..]);
      }
    }

    method RegisterEvents(listener: Listener) returns (ok: bool)
      requires Valid()
      modifies Footprint()
      ensures Valid() && (model, ok) == RegisterEventListener(old(model), listener)
    {
      if listener.entity == 0 { return false; }
      var listed := IsListed(eventListeners, listener.identity);
      if listed { return true; }
      var free := FindFree(eventListeners);
      if free == eventListeners.Length { return false; }
      ok := RegisterObservedEntity(listener.entity);
      if ok {
        eventListeners[free] := Some(listener);
        model := model.(eventListeners := eventListeners[..]);
      }
    }

    method EndpointHandler(endpoint: EndpointId) returns (i: nat)
      requires Valid()
      ensures i == HandlerSlot(model.handlers, endpoint)
    {
      i := 0;
      while i < handlers.Length && !(handlers[i].Some? && handlers[i].value.endpoint == endpoint)
        invariant i <= handlers.Length
        invariant HandlerSlot(handlers[..], endpoint) == i + HandlerSlot(handlers[i..], endpoint)
      {
        i := i + 1;
      }
    }

    /** Every registered listener of the entity is called, in slot order. */
    static method Tell(listeners: array<Option<Listener>>, entity: EntityId, value: TypedValue, flags: Byte)
      returns (told: seq<Delivery>)
      ensures told == Notify(listeners[..], entity, value, flags)
    {
      told := [];
      for i := 0 to listeners.Length
        invariant Notify(listeners[..], entity, value, flags) == told + Notify(listeners[i..], entity, value, flags)
      {
        ghost var rest := Notify(listeners[i + 1..], entity, value, flags);
        assert listeners[i..][1..] == listeners[i + 1..];
        if listeners[i].Some? && listeners[i].value.entity == entity {
          ghost var d := Delivery(listeners[i].value, value, flags);
          assert Notify(listeners[i..], entity, value, flags) == [d] + rest;
          assert told + ([d] + rest) == (told + [d]) + rest;
          told := told + [Delivery(listeners[i].value, value, flags)];
        } else {
          assert Notify(listeners[i..], entity, value, flags) == [] + rest == rest;
        }
      }
    }
  }
}
