/** Presence of peers and the volatile entity directory, with the trace of directory callbacks. */
module Directories {
  import opened Wrappers
  import opened Types

  const ADDRESSES := 0x200
  const OFFLINE_AFTER := 105000

  datatype EntityLocation = EntityLocation(entity: EntityId, node: NodeAddress, endpoint: EndpointId)

  datatype DirectoryEvent =
    | Available(location: EntityLocation)
    | Unavailable(gone: EntityId)

  type Slots = seq<Option<EntityLocation>>

  datatype Directory = Directory(seen: seq<bool>, lastSeen: seq<U32>, slots: Slots, events: seq<DirectoryEvent>)

  predicate WellSized(d: Directory) { |d.seen| == ADDRESSES && |d.lastSeen| == ADDRESSES }

  /** Index of the first slot that holds an entity, or the number of slots. */
  function SlotOf(slots: Slots, entity: EntityId): (i: nat)
    ensures i <= |slots|
    ensures i < |slots| ==> slots[i].Some? && slots[i].value.entity == entity
    ensures forall j :: 0 <= j < i ==> slots[j].None? || slots[j].value.entity != entity
  {
    if slots == [] then 0
    else if slots[0].Some? && slots[0].value.entity == entity then 0
    else 1 + SlotOf(slots[1..], entity)
  }

  function FreeSlot<T>(slots: seq<Option<T>>): (i: nat)
    ensures i <= |slots|
    ensures i < |slots| ==> slots[i].None?
    ensures forall j :: 0 <= j < i ==> slots[j].Some?
  {
    if slots == [] || slots[0].None? then 0 else 1 + FreeSlot(slots[1..])
  }

  function Resolve(slots: Slots, entity: EntityId): Option<EntityLocation> {
    var i := SlotOf(slots, entity);
    if i < |slots| then slots[i] else None
  }

  /** A valid frame from `source` arrived. */
  function Hear(d: Directory, source: NodeAddress, now: U32): (d': Directory)
    requires WellSized(d)
    ensures WellSized(d')
  {
    if source == UNASSIGNED then d
    else d.(seen := d.seen[source := true], lastSeen := d.lastSeen[source := now])
  }

  /** An ENTITY_CLAIM: repeat, conflict, new entry, or no room. */
  function Learn(d: Directory, location: EntityLocation): (d': Directory)
    ensures |d'.slots| == |d.slots| && d'.seen == d.seen && d'.lastSeen == d.lastSeen
  {
    var i := SlotOf(d.slots, location.entity);
    if i < |d.slots| then
      if d.slots[i] == Some(location) then d else Remove(d, i)
    else
      var j := FreeSlot(d.slots);
      if j < |d.slots| then Insert(d, j, location) else d
  }

  function Remove(d: Directory, i: nat): Directory
    requires i < |d.slots| && d.slots[i].Some?
  {
    d.(slots := d.slots[i := None], events := d.events + [Unavailable(d.slots[i].value.entity)])
  }

  function Insert(d: Directory, i: nat, location: EntityLocation): Directory
    requires i < |d.slots|
  {
    d.(slots := d.slots[i := Some(location)], events := d.events + [Available(location)])
  }

  /** Drops every entry of one node, from slot `i` on. */
  function Evict(d: Directory, node: NodeAddress, i: nat): (d': Directory)
    requires i <= |d.slots|
    ensures |d'.slots| == |d.slots| && d'.seen == d.seen && d'.lastSeen == d.lastSeen
    decreases |d.slots| - i
  {
    if i == |d.slots| then d
    else Evict(if d.slots[i].Some? && d.slots[i].value.node == node then Remove(d, i) else d, node, i + 1)
  }

  /** The age is a 32-bit difference, so it is right across a clock wrap. */
  predicate IsStale(d: Directory, source: nat, now: U32)
    requires WellSized(d) && source < ADDRESSES
  {
    d.seen[source] && Sub32(now, d.lastSeen[source]) >= OFFLINE_AFTER
  }

  function ExpireOne(d: Directory, source: nat, now: U32): (d': Directory)
    requires WellSized(d) && source < ADDRESSES
    ensures WellSized(d') && |d'.slots| == |d.slots|
  {
    if IsStale(d, source, now) then Evict(d.(seen := d.seen[source := false]), source, 0) else d
  }

  /** `expire_offline` from address `source` on. */
  function ExpireFrom(d: Directory, source: nat, now: U32): (d': Directory)
    requires WellSized(d)
    ensures WellSized(d') && |d'.slots| == |d.slots|
    decreases BROADCAST - source
  {
    if source >= BROADCAST then d else ExpireFrom(ExpireOne(d, source, now), source + 1, now)
  }

  function Expire(d: Directory, now: U32): (d': Directory)
    requires WellSized(d)
    ensures WellSized(d') && |d'.slots| == |d.slots|
  {
    ExpireFrom(d, 1, now)
  }

  // ---------------------------------------------------------------- refinement of the event log

  /** Where the log last left an entity. */
  function LastLocation(events: seq<DirectoryEvent>, entity: EntityId): Option<EntityLocation> {
    if events == [] then None
    else
      match events[|events| - 1]
      case Available(location) =>
        if location.entity == entity then Some(location) else LastLocation(events[..|events| - 1], entity)
      case Unavailable(gone) => if gone == entity then None else LastLocation(events[..|events| - 1], entity)
  }

  /** An entity is announced only while absent and withdrawn only while present. */
  predicate Legal(events: seq<DirectoryEvent>) {
    events != [] ==>
      var before := events[..|events| - 1];
      && Legal(before)
      && match events[|events| - 1]
         case Available(location) => LastLocation(before, location.entity) == None
         case Unavailable(gone) => LastLocation(before, gone).Some?
  }

  predicate UniqueEntities(slots: Slots) {
    forall i, j :: 0 <= i < j < |slots| && slots[i].Some? && slots[j].Some? ==>
      slots[i].value.entity != slots[j].value.entity
  }

  /** The slots are a map with one location per entity, the one that replaying the log gives. */
  ghost predicate RefinesLog(d: Directory) {
    && UniqueEntities(d.slots)
    && Legal(d.events)
    && forall e: EntityId :: Resolve(d.slots, e) == LastLocation(d.events, e)
  }

  lemma RemoveRefines(d: Directory, i: nat)
    requires RefinesLog(d) && i < |d.slots| && d.slots[i].Some?
    ensures RefinesLog(Remove(d, i))
  {
    var d', entity := Remove(d, i), d.slots[i].value.entity;
    assert d'.events[..|d.events|] == d.events;
    assert SlotOf(d.slots, entity) == i;
    forall e: EntityId ensures Resolve(d'.slots, e) == LastLocation(d'.events, e) {
      assert Resolve(d.slots, e) == LastLocation(d.events, e);
      if e != entity { ResolveSame(d.slots, d'.slots, e); }
    }
  }

  /** Resolution of an entity is a matter of which slots hold it. */
  lemma ResolveSame(slots: Slots, slots': Slots, e: EntityId)
    requires |slots| == |slots'| && UniqueEntities(slots) && UniqueEntities(slots')
    requires forall i :: 0 <= i < |slots| && slots[i] != slots'[i] ==>
               && (slots[i].Some? ==> slots[i].value.entity != e)
               && (slots'[i].Some? ==> slots'[i].value.entity != e)
    ensures Resolve(slots, e) == Resolve(slots', e)
  {
    var i, j := SlotOf(slots, e), SlotOf(slots', e);
    if i < |slots| { assert slots'[i] == slots[i]; }
    if j < |slots| { assert slots'[j] == slots[j]; }
  }

  lemma InsertRefines(d: Directory, i: nat, location: EntityLocation)
    requires RefinesLog(d) && i < |d.slots| && d.slots[i].None? && Resolve(d.slots, location.entity).None?
    ensures RefinesLog(Insert(d, i, location))
  {
    var d', entity := Insert(d, i, location), location.entity;
    assert d'.events[..|d.events|] == d.events;
    assert SlotOf(d.slots, entity) == |d.slots|;
    assert d'.slots[i] == Some(location) && SlotOf(d'.slots, entity) == i;
    forall e: EntityId ensures Resolve(d'.slots, e) == LastLocation(d'.events, e) {
      assert Resolve(d.slots, e) == LastLocation(d.events, e);
      if e != entity { ResolveSame(d.slots, d'.slots, e); }
    }
  }

  lemma LearnRefines(d: Directory, location: EntityLocation)
    requires RefinesLog(d)
    ensures RefinesLog(Learn(d, location))
  {
    var i := SlotOf(d.slots, location.entity);
    if i < |d.slots| {
      if d.slots[i] != Some(location) { RemoveRefines(d, i); }
    } else if FreeSlot(d.slots) < |d.slots| {
      InsertRefines(d, FreeSlot(d.slots), location);
    }
  }

  lemma {:induction false} EvictRefines(d: Directory, node: NodeAddress, i: nat)
    requires RefinesLog(d) && i <= |d.slots|
    ensures RefinesLog(Evict(d, node, i))
    decreases |d.slots| - i
  {
    if i == |d.slots| {
    } else if d.slots[i].Some? && d.slots[i].value.node == node {
      RemoveRefines(d, i);
      EvictRefines(Remove(d, i), node, i + 1);
    } else {
      EvictRefines(d, node, i + 1);
    }
  }

  lemma {:induction false} ExpireRefines(d: Directory, source: nat, now: U32)
    requires WellSized(d) && RefinesLog(d)
    ensures RefinesLog(ExpireFrom(d, source, now))
    decreases BROADCAST - source
  {
    if source < BROADCAST {
      if IsStale(d, source, now) { EvictRefines(d.(seen := d.seen[source := false]), source, 0); }
      ExpireRefines(ExpireOne(d, source, now), source + 1, now);
    }
  }

  /** The callbacks about one entity. */
  function About(events: seq<DirectoryEvent>, entity: EntityId): seq<DirectoryEvent> {
    if events == [] then []
    else
      var last := events[|events| - 1];
      var mine := match last case Available(l) => l.entity == entity case Unavailable(gone) => gone == entity;
      About(events[..|events| - 1], entity) + if mine then [last] else []
  }

  /** Per entity, callbacks alternate strictly, starting with an arrival; so no entity moves between
      two locations without a departure in between. */
  lemma {:induction false} EventsAlternate(events: seq<DirectoryEvent>, entity: EntityId)
    requires Legal(events)
    ensures forall k :: 0 <= k < |About(events, entity)| ==> (About(events, entity)[k].Available? <==> k % 2 == 0)
    ensures LastLocation(events, entity).Some? <==> |About(events, entity)| % 2 == 1
  {
    if events != [] { EventsAlternate(events[..|events| - 1], entity); }
  }

  // ---------------------------------------------------------------- presence

  /** Every entry belongs to a node that is marked seen. */
  predicate OwnersSeen(d: Directory)
    requires WellSized(d)
  {
    forall i :: 0 <= i < |d.slots| && d.slots[i].Some? ==>
      0 < d.slots[i].value.node < BROADCAST && d.seen[d.slots[i].value.node]
  }

  lemma {:induction false} EvictLeavesOthers(d: Directory, node: NodeAddress, i: nat)
    requires i <= |d.slots|
    ensures forall k :: 0 <= k < |d.slots| ==>
              Evict(d, node, i).slots[k]
              == if i <= k && d.slots[k].Some? && d.slots[k].value.node == node then None else d.slots[k]
    decreases |d.slots| - i
  {
    if i < |d.slots| {
      EvictLeavesOthers(if d.slots[i].Some? && d.slots[i].value.node == node then Remove(d, i) else d, node, i + 1);
    }
  }

  /** Expiry forgets exactly the stale addresses, and with them every entry they own. */
  lemma {:induction false} ExpireForgetsStale(d: Directory, source: nat, now: U32)
    requires WellSized(d) && OwnersSeen(d) && 1 <= source
    ensures var d' := ExpireFrom(d, source, now);
            && OwnersSeen(d') && d'.lastSeen == d.lastSeen
            && forall a :: 0 <= a < ADDRESSES ==>
                 d'.seen[a] == (d.seen[a] && !(source <= a < BROADCAST && IsStale(d, a, now)))
    decreases BROADCAST - source
  {
    if source < BROADCAST {
      if IsStale(d, source, now) { EvictLeavesOthers(d.(seen := d.seen[source := false]), source, 0); }
      ExpireForgetsStale(ExpireOne(d, source, now), source + 1, now);
    }
  }

  /** An entry is lost exactly when its owner is stale. */
  lemma {:induction false} ExpireKeepsTheRest(d: Directory, source: nat, now: U32, k: nat)
    requires WellSized(d) && OwnersSeen(d) && 1 <= source && k < |d.slots|
    ensures ExpireFrom(d, source, now).slots[k]
            == if d.slots[k].Some? && source <= d.slots[k].value.node && IsStale(d, d.slots[k].value.node, now)
               then None else d.slots[k]
    decreases BROADCAST - source
  {
    if source < BROADCAST {
      if IsStale(d, source, now) { EvictLeavesOthers(d.(seen := d.seen[source := false]), source, 0); }
      ExpireKeepsTheRest(ExpireOne(d, source, now), source + 1, now, k);
    }
  }

  /** The directory as a map: a claim adds an unknown entity while there is room, a claim that
      contradicts the entry removes it, and nothing else changes. */
  lemma LearnAsMap(d: Directory, location: EntityLocation, e: EntityId)
    requires UniqueEntities(d.slots)
    ensures var known, d' := Resolve(d.slots, location.entity), Learn(d, location);
            Resolve(d'.slots, e)
            == if e != location.entity then Resolve(d.slots, e)
               else if known.Some? then (if known == Some(location) then known else None)
               else if None in d.slots then Some(location) else None
  {
    var i := SlotOf(d.slots, location.entity);
    if i < |d.slots| {
      if d.slots[i] != Some(location) {
        assert SlotOf(Remove(d, i).slots, location.entity) == |d.slots|;
        if e != location.entity { ResolveSame(d.slots, Remove(d, i).slots, e); }
      }
    } else {
      var free := FreeSlot(d.slots);
      if free < |d.slots| {
        assert d.slots[free] == None;
        assert Insert(d, free, location).slots[free] == Some(location);
        assert SlotOf(Insert(d, free, location).slots, location.entity) == free;
        if e != location.entity { ResolveSame(d.slots, Insert(d, free, location).slots, e); }
      }
    }
  }

  lemma LearnKeepsOwners(d: Directory, location: EntityLocation)
    requires WellSized(d) && OwnersSeen(d) && 0 < location.node < BROADCAST && d.seen[location.node]
    ensures OwnersSeen(Learn(d, location))
  {
  }
}
