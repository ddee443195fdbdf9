/** What a commissioned node says after start-up, in what order, and that it gets to say it all. */
module Startup {
  import opened Wrappers
  import opened Types
  import opened CanIdentifiers
  import opened WirePayloads
  import opened FrameCodec
  import opened Outboxes
  import opened Directories
  import opened Nodes
  import opened NodeInvariants
  import opened CodecClosure
  import opened TickRuns

  datatype Announcement =
    | Claim
    | Owned(entity: EntityId, endpoint: EndpointId)
    | Observed(sought: EntityId)
    | Other

  // ---------------------------------------------------------------- what is said, and what is left to say

  /** What a frame announces; a heartbeat announces nothing. */
  function Meaning(f: ProtocolFrame): seq<Announcement> {
    var b := f.payload.bytes;
    if f.identifier.kind == ADDRESS_CLAIM then [Claim]
    else if f.identifier.kind == ENTITY_CLAIM then [Owned(U32At(b, 2), b[1])]
    else if f.identifier.kind == ENTITY_RESOLVE then [Observed(U32At(b, 2))]
    else if f.identifier.kind == HEARTBEAT then []
    else [Other]
  }

  function Said(wire: seq<Attempt>): seq<Announcement> {
    if wire == [] then []
    else
      var last := wire[|wire| - 1];
      Said(wire[..|wire| - 1])
      + match Decode(last.raw)
        case Success(f) => if last.sent then Meaning(f) else []
        case Failure(_) => [Other]
  }

  function OwnedFrom(slots: Slots, i: nat): seq<Announcement>
    requires i <= |slots|
    decreases |slots| - i
  {
    if i == |slots| then []
    else
      (if slots[i].Some? then [Owned(slots[i].value.entity, slots[i].value.endpoint)] else [])
      + OwnedFrom(slots, i + 1)
  }

  function ObservedFrom(slots: seq<Option<EntityId>>, i: nat): seq<Announcement>
    requires i <= |slots|
    decreases |slots| - i
  {
    if i == |slots| then []
    else (if slots[i].Some? then [Observed(slots[i].value)] else []) + ObservedFrom(slots, i + 1)
  }

  function ClaimsLeft(sent: nat): seq<Announcement> {
    if sent >= 2 then [] else if sent == 1 then [Claim] else [Claim, Claim]
  }

  /** The claims, then the owned entities, then the observed ones, each in slot order. */
  function Remaining(n: Node): seq<Announcement> {
    ClaimsLeft(n.schedule.claimsSent) + OwnedFrom(n.registry.owned, n.schedule.ownedIndex)
    + ObservedFrom(n.registry.observed, n.schedule.observedIndex)
  }

  lemma {:induction false} SkipOwned(slots: Slots, i: nat)
    requires i <= |slots|
    ensures var j := NextOccupied(slots, i);
            OwnedFrom(slots, i) == OwnedFrom(slots, j)
    decreases |slots| - i
  {
    if i < |slots| && slots[i].None? { SkipOwned(slots, i + 1); }
  }

  lemma {:induction false} SkipObserved(slots: seq<Option<EntityId>>, i: nat)
    requires i <= |slots|
    ensures var j := NextOccupied(slots, i);
            ObservedFrom(slots, i) == ObservedFrom(slots, j)
    decreases |slots| - i
  {
    if i < |slots| && slots[i].None? { SkipObserved(slots, i + 1); }
  }

  lemma {:induction false} SaidAppend(wire: seq<Attempt>, f: ProtocolFrame, queued: bool)
    requires Encode(f).Success?
    ensures Said(wire + [Attempt(Encode(f).value, true, queued)]) == Said(wire) + Meaning(f)
  {
    DecodeEncoded(f);
    assert (wire + [Attempt(Encode(f).value, true, queued)])[..|wire|] == wire;
  }

  lemma EntityMeanings(a: NodeAddress, s: Byte, entity: EntityId, endpoint: EndpointId)
    ensures Meaning(EntityClaimFrame(a, s, entity, endpoint)) == [Owned(entity, endpoint)]
    ensures Meaning(EntityResolveFrame(a, s, entity)) == [Observed(entity)]
  {
    WordOfBytes(entity);
  }

  lemma ClaimMeaning(uid: Uid, a: NodeAddress)
    ensures Meaning(ClaimFrame(uid, a)) == [Claim]
  {
  }

  // ---------------------------------------------------------------- one tick

  /** A commissioned node between ticks: nothing queued, no response owed, its claim planned. */
  predicate Ready(n: Node, a: NodeAddress) {
    && n.address == Some(a) && IsUnicast(a) && n.pending.None? && RegistryOk(n.registry) && Idle(n.out)
    && n.schedule.claimScheduled && n.schedule.claimsSent <= 2
  }

  predicate ClaimDue(n: Node, now: U32) { n.schedule.claimsSent < 2 && now >= n.schedule.nextClaim }

  predicate BeatDue(n: Node, now: U32) { n.schedule.claimsSent == 2 && now >= n.schedule.nextHeartbeat }

  /** How a tick of a ready node relates to what is left: it says the head of it, or nothing. */
  predicate Progresses(n: Node, m: Node, now: U32) {
    var said := Said(m.out.wire);
    && m.registry == n.registry
    && (if ClaimDue(n, now) || (n.schedule.claimsSent == 2 && !BeatDue(n, now) && Remaining(n) != [])
        then Remaining(n) != [] && said == Said(n.out.wire) + [Remaining(n)[0]] && Remaining(m) == Remaining(n)[1..]
        else said == Said(n.out.wire) && Remaining(m) == Remaining(n))
  }

  /** Removing the head of what is left. */
  lemma HeadOff(x: Announcement, claims: seq<Announcement>, owned: seq<Announcement>, observed: seq<Announcement>)
    ensures ([x] + claims + owned + observed)[0] == x
    ensures ([x] + claims + owned + observed)[1..] == claims + owned + observed
    ensures [] + ([x] + owned) + observed == [x] + [] + owned + observed
    ensures [] + [] + ([x] + observed) == [x] + [] + [] + observed
  {
  }

  /** The node after it has claimed its address. */
  function Claimed(n: Node, a: NodeAddress): Node
    requires Encode(ClaimFrame(n.uid, a)).Success?
  {
    n.(out := SentNow(n.out, ClaimFrame(n.uid, a)),
       schedule := n.schedule.(claimsSent := n.schedule.claimsSent + 1,
                               nextClaim := Add32(n.schedule.nextClaim, ClaimInterval(n.uid))))
  }

  lemma ClaimIsSent(n: Node, a: NodeAddress, p: Ports)
    requires Ready(n, a) && p.refused == {}
    ensures Encode(ClaimFrame(n.uid, a)).Success? && DrainOne(SendClaim(n), p) == Claimed(n, a)
  {
    hide Encode, Enqueue, Drain, RegistryOk, ClaimFrame, ClaimInterval;
    AddressFrames(n.uid, a, n.sequence);
    QueuedThenDrained(n.out, ClaimFrame(n.uid, a));
  }

  lemma ClaimsLeftOff(claims: nat, owned: seq<Announcement>, observed: seq<Announcement>)
    requires claims < 2
    ensures var left := ClaimsLeft(claims) + owned + observed;
            left != [] && left[0] == Claim && ClaimsLeft(claims + 1) + owned + observed == left[1..]
  {
    HeadOff(Claim, ClaimsLeft(claims + 1), owned, observed);
  }

  lemma ClaimProgresses(n: Node, a: NodeAddress, now: U32)
    requires Ready(n, a) && ClaimDue(n, now) && Encode(ClaimFrame(n.uid, a)).Success?
    ensures Progresses(n, Claimed(n, a), now)
  {
    hide Encode, OwnedFrom, ObservedFrom, Decode, RegistryOk, ClaimFrame, Meaning, Said, ClaimInterval, Ready;
    hide ClaimsLeft, Idle;
    SaidAppend(n.out.wire, ClaimFrame(n.uid, a), true);
    ClaimMeaning(n.uid, a);
    ClaimsLeftOff(n.schedule.claimsSent, OwnedFrom(n.registry.owned, n.schedule.ownedIndex),
                  ObservedFrom(n.registry.observed, n.schedule.observedIndex));
  }

  lemma ClaimTick(n: Node, a: NodeAddress, now: U32, p: Ports)
    requires Ready(n, a) && ClaimDue(n, now) && p.refused == {}
    ensures var m := DrainOne(SendClaim(n), p);
            && Ready(m, a) && Progresses(n, m, now)
            && m.schedule == n.schedule.(claimsSent := n.schedule.claimsSent + 1,
                                         nextClaim := Add32(n.schedule.nextClaim, ClaimInterval(n.uid)))
  {
    hide Encode, RegistryOk, ClaimFrame, SendClaim, DrainOne, Progresses, ClaimInterval;
    ClaimIsSent(n, a, p);
    ClaimProgresses(n, a, now);
  }

  lemma BeatTick(n: Node, a: NodeAddress, now: U32, p: Ports)
    requires Ready(n, a) && BeatDue(n, now) && p.refused == {}
    ensures var m := SendHeartbeat(n, now, p);
            Ready(m, a) && Progresses(n, m, now) && m.schedule == n.schedule.(nextHeartbeat := Add32(now, 30000))
  {
    hide Encode, OwnedFrom, ObservedFrom, RegistryOk;
    AddressFrames(n.uid, a, n.sequence);
    SaidAppend(n.out.wire, HeartbeatFrame(a, n.sequence), false);
  }

  /** The schedule is as before, but for the announcement indices. */
  predicate OnlyIndicesMoved(n: Node, m: Node) {
    m.schedule == n.schedule.(ownedIndex := m.schedule.ownedIndex, observedIndex := m.schedule.observedIndex)
  }

  /** The node after it has announced with frame `f` and moved its indices. */
  function Announced(n: Node, f: ProtocolFrame, owned: nat, observed: nat): Node
    requires Encode(f).Success? && Idle(n.out) && owned <= 16 && observed <= 16
  {
    n.(out := SentNow(n.out, f), sequence := Next8(n.sequence),
       schedule := n.schedule.(ownedIndex := owned, observedIndex := observed))
  }

  lemma OwnedAnnounced(n: Node, a: NodeAddress, p: Ports, i: nat)
    requires Ready(n, a) && n.schedule.claimsSent == 2 && p.refused == {}
    requires i == NextOccupied(n.registry.owned, n.schedule.ownedIndex) && i < 16
    ensures var entry := n.registry.owned[i].value;
            var f := EntityClaimFrame(a, n.sequence, entry.entity, entry.endpoint);
            Encode(f).Success? && Announce(n, p) == Announced(n, f, i + 1, n.schedule.observedIndex)
  {
    hide Encode, Enqueue, Drain, SendEntityResolve, EntityClaimFrame, NextOccupied;
    var entry := n.registry.owned[i].value;
    EntityFrames(a, n.sequence, entry.entity, entry.endpoint);
    QueuedThenDrained(n.out, EntityClaimFrame(a, n.sequence, entry.entity, entry.endpoint));
  }

  lemma ObservedAnnounced(n: Node, a: NodeAddress, p: Ports, i: nat)
    requires Ready(n, a) && n.schedule.claimsSent == 2 && p.refused == {}
    requires NextOccupied(n.registry.owned, n.schedule.ownedIndex) == 16
    requires i == NextOccupied(n.registry.observed, n.schedule.observedIndex) && i < 16
    ensures var f := EntityResolveFrame(a, n.sequence, n.registry.observed[i].value);
            Encode(f).Success? && Announce(n, p) == Announced(n, f, 16, i + 1)
  {
    hide Encode, Enqueue, Drain, SendEntityClaim, EntityResolveFrame, NextOccupied;
    EntityFrames(a, n.sequence, n.registry.observed[i].value, 1);
    QueuedThenDrained(n.out, EntityResolveFrame(a, n.sequence, n.registry.observed[i].value));
  }

  lemma OwnedTick(n: Node, a: NodeAddress, now: U32, p: Ports)
    requires Ready(n, a) && n.schedule.claimsSent == 2 && !BeatDue(n, now) && p.refused == {}
    requires NextOccupied(n.registry.owned, n.schedule.ownedIndex) < 16
    ensures var m := Announce(n, p); Ready(m, a) && Progresses(n, m, now) && OnlyIndicesMoved(n, m)
  {
    hide Encode, Decode, Announce, EntityClaimFrame, Meaning, NextOccupied, ObservedFrom, RegistryOk;
    var owned, i := n.registry.owned, NextOccupied(n.registry.owned, n.schedule.ownedIndex);
    var entry := owned[i].value;
    OwnedAnnounced(n, a, p, i);
    SkipOwned(owned, n.schedule.ownedIndex);
    EntityMeanings(a, n.sequence, entry.entity, entry.endpoint);
    SaidAppend(n.out.wire, EntityClaimFrame(a, n.sequence, entry.entity, entry.endpoint), true);
    assert OwnedFrom(owned, i) == [Owned(entry.entity, entry.endpoint)] + OwnedFrom(owned, i + 1);
    HeadOff(Owned(entry.entity, entry.endpoint), [], OwnedFrom(owned, i + 1),
            ObservedFrom(n.registry.observed, n.schedule.observedIndex));
  }

  lemma ObservedTick(n: Node, a: NodeAddress, now: U32, p: Ports)
    requires Ready(n, a) && n.schedule.claimsSent == 2 && !BeatDue(n, now) && p.refused == {}
    requires NextOccupied(n.registry.owned, n.schedule.ownedIndex) == 16
    requires NextOccupied(n.registry.observed, n.schedule.observedIndex) < 16
    ensures var m := Announce(n, p); Ready(m, a) && Progresses(n, m, now) && OnlyIndicesMoved(n, m)
  {
    hide Encode, Decode, Announce, EntityResolveFrame, Meaning, NextOccupied, RegistryOk;
    var observed, i := n.registry.observed, NextOccupied(n.registry.observed, n.schedule.observedIndex);
    ObservedAnnounced(n, a, p, i);
    SkipOwned(n.registry.owned, n.schedule.ownedIndex);
    SkipObserved(observed, n.schedule.observedIndex);
    EntityMeanings(a, n.sequence, observed[i].value, 1);
    SaidAppend(n.out.wire, EntityResolveFrame(a, n.sequence, observed[i].value), true);
    assert OwnedFrom(n.registry.owned, 16) == [];
    assert ObservedFrom(observed, i) == [Observed(observed[i].value)] + ObservedFrom(observed, i + 1);
    HeadOff(Observed(observed[i].value), [], [], ObservedFrom(observed, i + 1));
  }

  lemma SilentTick(n: Node, a: NodeAddress, now: U32, p: Ports)
    requires Ready(n, a) && !ClaimDue(n, now) && !BeatDue(n, now) && p.refused == {}
    requires n.schedule.claimsSent == 2 ==>
               && NextOccupied(n.registry.owned, n.schedule.ownedIndex) == 16
               && NextOccupied(n.registry.observed, n.schedule.observedIndex) == 16
    ensures var m := Announce(n, p); Ready(m, a) && Progresses(n, m, now) && OnlyIndicesMoved(n, m)
  {
    hide SendEntityResolve, SendEntityClaim;
    IdleDrains(n.out, 0);
    SkipOwned(n.registry.owned, n.schedule.ownedIndex);
    SkipObserved(n.registry.observed, n.schedule.observedIndex);
  }

  /** What one tick does to the schedule of a ready node. */
  predicate Reschedules(n: Node, m: Node, now: U32) {
    if ClaimDue(n, now) then
      m.schedule == n.schedule.(claimsSent := n.schedule.claimsSent + 1,
                                nextClaim := Add32(n.schedule.nextClaim, ClaimInterval(n.uid)))
    else if BeatDue(n, now) then m.schedule == n.schedule.(nextHeartbeat := Add32(now, 30000))
    else OnlyIndicesMoved(n, m)
  }

  lemma ReadyTick(n: Node, a: NodeAddress, now: U32, p: Ports)
    requires Ready(n, a) && p.refused == {}
    ensures var m := Tick(n, now, p); Ready(m, a) && Progresses(n, m, now) && Reschedules(n, m, now)
  {
    hide Expire, Idle, RegistryOk, SendHeartbeat, SendClaim, Announce, Said, OwnedFrom, ObservedFrom, Drain;
    var e := ExpireNode(n, now);
    ScheduledTick(e, a, now, p);
    assert Tick(n, now, p) == TickScheduled(e, now, p);
    assert Remaining(e) == Remaining(n);
  }

  lemma ScheduledTick(n: Node, a: NodeAddress, now: U32, p: Ports)
    requires Ready(n, a) && p.refused == {}
    ensures var m := TickScheduled(n, now, p); Ready(m, a) && Progresses(n, m, now) && Reschedules(n, m, now)
  {
    hide Idle, RegistryOk, SendHeartbeat, SendClaim, Announce, Said, OwnedFrom, ObservedFrom, Drain, Progresses;
    hide NextOccupied;
    if ClaimDue(n, now) {
      ClaimTick(n, a, now, p);
    } else if BeatDue(n, now) {
      BeatTick(n, a, now, p);
    } else if n.schedule.claimsSent < 2 {
      SilentTick(n, a, now, p);
    } else if NextOccupied(n.registry.owned, n.schedule.ownedIndex) < 16 {
      OwnedTick(n, a, now, p);
    } else if NextOccupied(n.registry.observed, n.schedule.observedIndex) < 16 {
      ObservedTick(n, a, now, p);
    } else {
      SilentTick(n, a, now, p);
    }
  }

  // ---------------------------------------------------------------- the whole start-up

  /** A node that has loaded its address and done its registrations, before its first tick. */
  predicate Planned(n: Node, a: NodeAddress) {
    && n.address == Some(a) && IsUnicast(a) && n.pending.None? && RegistryOk(n.registry) && Idle(n.out)
    && n.schedule == Schedule(0, 0, 0, 0, 0, false, 0, 0) && n.out.wire == []
  }

  predicate IsRegistration(input: Input) {
    || input.OwnedRegistered? || input.ObservedRegistered? || input.HandlerRegistered?
    || input.StateListenerRegistered? || input.EventListenerRegistered?
  }

  /** Loading an address and registering, in any order and number, leads to such a node. */
  lemma {:induction false} RegistrationsLeadThere(uid: Uid, role: Role, a: NodeAddress, saved: bool, inputs: seq<Input>)
    requires IsUnicast(a) && forall i :: 0 <= i < |inputs| ==> IsRegistration(inputs[i])
    ensures Planned(Run(Boot(uid, role, Some(a), saved), inputs), a)
  {
    hide RegistryOk, RegisterOwned, RegisterObserved, RegisterHandler, RegisterStateListener, RegisterEventListener;
    if inputs != [] {
      var before := Run(Boot(uid, role, Some(a), saved), inputs[..|inputs| - 1]);
      RegistrationsLeadThere(uid, role, a, saved, inputs[..|inputs| - 1]);
      assert IsRegistration(inputs[|inputs| - 1]);
      RegistrationOk(before.registry, inputs[|inputs| - 1]);
    } else {
      NothingRegistered(uid, role, a, saved);
    }
  }

  lemma NothingRegistered(uid: Uid, role: Role, a: NodeAddress, saved: bool)
    requires IsUnicast(a)
    ensures Planned(Boot(uid, role, Some(a), saved), a)
  {
  }

  lemma FirstTickPlans(n: Node, a: NodeAddress, now: U32, p: Ports)
    requires Planned(n, a) && p.refused == {} && now + 40000 < WORD
    ensures var owned, observed := NextOccupied(n.registry.owned, 0), NextOccupied(n.registry.observed, 0);
            Tick(n, now, p)
            == ExpireNode(n, now).(
                 schedule := Schedule(0, now + ClaimStartDelay(n.uid), 0, 0, 0, true, owned, observed))
  {
    hide Enqueue, Encode, Expire, RegistryOk, UidHash, NextOccupied;
    IdleDrains(n.out, 0);
  }

  /** The first tick only sets the time of the first claim. */
  lemma FirstTick(n: Node, a: NodeAddress, now: U32, p: Ports)
    requires Planned(n, a) && p.refused == {} && now + 40000 < WORD
    ensures var m := Tick(n, now, p);
            && Ready(m, a) && m.registry == n.registry && m.uid == n.uid && m.out.wire == []
            && Remaining(m) == Remaining(n) && m.schedule.claimsSent == 0
            && m.schedule.nextClaim == now + ClaimStartDelay(n.uid)
  {
    hide Expire, RegistryOk, ClaimStartDelay, Tick, NextOccupied;
    FirstTickPlans(n, a, now, p);
    SkipOwned(n.registry.owned, 0);
    SkipObserved(n.registry.observed, 0);
  }

  /** The claims are due at start delay, and one interval later. */
  predicate ClaimsOnTime(n: Node, start: nat) {
    && (n.schedule.claimsSent == 0 ==> n.schedule.nextClaim == start + ClaimStartDelay(n.uid))
    && (n.schedule.claimsSent == 1 ==> n.schedule.nextClaim == start + ClaimStartDelay(n.uid) + ClaimInterval(n.uid))
  }

  lemma ReadyStep(n: Node, a: NodeAddress, now: U32, p: Ports, start: nat)
    requires Ready(n, a) && p.refused == {} && ClaimsOnTime(n, start) && start + 40000 < WORD
    ensures var m := Tick(n, now, p);
            && Ready(m, a) && m.registry == n.registry && m.uid == n.uid && ClaimsOnTime(m, start)
            && Said(m.out.wire) + Remaining(m) == Said(n.out.wire) + Remaining(n)
  {
    hide Tick, Said, Remaining, UidHash, RegistryOk, Idle;
    ReadyTick(n, a, now, p);
    TickFrame(n, now, p);
  }

  /** What everyone should hear, in order: two claims, every owned entity, every observed entity. */
  function Plan(r: Registry): seq<Announcement> { [Claim, Claim] + OwnedFrom(r.owned, 0) + ObservedFrom(r.observed, 0) }

  lemma {:induction false} Unfolds(n: Node, a: NodeAddress, ticks: seq<TickAt>, k: nat)
    requires Planned(n, a) && BeforeWrap(ticks) && Reliable(ticks) && 1 <= k <= |ticks|
    ensures var m := Ticking(n, ticks, k);
            && Ready(m, a) && m.registry == n.registry && m.uid == n.uid && ClaimsOnTime(m, ticks[0].time)
            && Said(m.out.wire) + Remaining(m) == Plan(n.registry)
    decreases k
  {
    hide Tick, Ready, ClaimsOnTime, OwnedFrom, ObservedFrom, UidHash;
    if k == 1 {
      FirstTick(n, a, ticks[0].time, ticks[0].ports);
      assert Ticking(n, ticks, 0) == n;
      ClaimsFirst(Ticking(n, ticks, 1), ticks[0].time);
    } else {
      Unfolds(n, a, ticks, k - 1);
      ReadyStep(Ticking(n, ticks, k - 1), a, ticks[k - 1].time, ticks[k - 1].ports, ticks[0].time);
    }
  }

  lemma ClaimsFirst(n: Node, start: nat)
    requires n.schedule.claimsSent == 0 && n.schedule.nextClaim == start + ClaimStartDelay(n.uid)
    ensures ClaimsOnTime(n, start)
  {
  }

  predicate ClaimsAt(n: Node, ticks: seq<TickAt>, k: nat)
    requires k < |ticks|
  {
    0 < k && ClaimDue(Ticking(n, ticks, k), ticks[k].time)
  }

  predicate BeatsAt(n: Node, ticks: seq<TickAt>, k: nat)
    requires k < |ticks|
  {
    0 < k && BeatDue(Ticking(n, ticks, k), ticks[k].time)
  }

  /** When the next claim of a node that has started at `start` falls due. */
  function ClaimTime(n: Node, start: nat): nat {
    start + ClaimStartDelay(n.uid) + if n.schedule.claimsSent == 1 then ClaimInterval(n.uid) else 0
  }

  /** At every moment what has been heard is a prefix of the plan and the rest is still to come; and a
      tick sends a claim exactly if one is left and its time has come: for the first one the start
      delay after the first tick, for the second one another interval later. */
  lemma {:induction false} StartupFollowsPlan(
    uid: Uid, role: Role, a: NodeAddress, saved: bool, inputs: seq<Input>, ticks: seq<TickAt>, k: nat)
    requires IsUnicast(a) && forall i :: 0 <= i < |inputs| ==> IsRegistration(inputs[i])
    requires BeforeWrap(ticks) && Reliable(ticks) && 1 <= k <= |ticks|
    ensures var n := Run(Boot(uid, role, Some(a), saved), inputs);
            var m := Ticking(n, ticks, k);
            && Said(m.out.wire) + Remaining(m) == Plan(n.registry)
            && (k < |ticks| ==>
                  (ClaimsAt(n, ticks, k)
                   <==> m.schedule.claimsSent < 2 && ticks[k].time >= ClaimTime(m, ticks[0].time)))
  {
    hide Run, Boot, Ready, UidHash, Remaining, Said, Plan;
    var n := Run(Boot(uid, role, Some(a), saved), inputs);
    RegistrationsLeadThere(uid, role, a, saved, inputs);
    Unfolds(n, a, ticks, k);
  }

  /** Ticks from `j` to `k` that do not beat. */
  function OtherTicks(n: Node, ticks: seq<TickAt>, j: nat, k: nat): nat
    requires j <= k <= |ticks|
    decreases k
  {
    if k == j then 0 else OtherTicks(n, ticks, j, k - 1) + if BeatsAt(n, ticks, k - 1) then 0 else 1
  }

  /** After the second claim the work left is a measure: every tick that is not a heartbeat takes one
      announcement off it, until nothing is left. */
  lemma {:induction false} WorkShrinks(n: Node, a: NodeAddress, ticks: seq<TickAt>, j: nat, k: nat)
    requires Planned(n, a) && BeforeWrap(ticks) && Reliable(ticks) && 1 <= j <= k <= |ticks|
    requires Ticking(n, ticks, j).schedule.claimsSent == 2
    ensures Ticking(n, ticks, k).schedule.claimsSent == 2
    ensures var left, done := |Remaining(Ticking(n, ticks, j))|, OtherTicks(n, ticks, j, k);
            |Remaining(Ticking(n, ticks, k))| == if done <= left then left - done else 0
    decreases k
  {
    hide Tick, Remaining, Said, RegistryOk, Idle;
    if j < k {
      WorkShrinks(n, a, ticks, j, k - 1);
      Unfolds(n, a, ticks, k - 1);
      ReadyTick(Ticking(n, ticks, k - 1), a, ticks[k - 1].time, ticks[k - 1].ports);
    }
  }

  // ---------------------------------------------------------------- the start delay

  /** A tick of such a node sends a claim. */
  predicate SendsClaim(n: Node, now: U32) {
    n.address.Some? && !Responds(n, now) && ClaimDue(ScheduleClaim(n, now), now)
  }

  /** Call `k` is a tick that sends a claim. */
  predicate ClaimsIn(n: Node, inputs: seq<Input>, k: nat)
    requires k < |inputs|
  {
    inputs[k].Ticked? && SendsClaim(Upto(n, inputs, k), inputs[k].now)
  }

  /** A planned claim is at least the start delay away from `start`. */
  predicate ClaimsLater(n: Node, start: nat) {
    n.schedule.claimScheduled ==> n.schedule.nextClaim >= start + ClaimStartDelay(n.uid)
  }

  /** The claim is what such a tick queues, and then it drains. */
  lemma ClaimOfTick(n: Node, now: U32, p: Ports)
    requires SendsClaim(n, now)
    ensures Tick(n, now, p).out == Drain(Enqueue(n.out, ClaimFrame(n.uid, n.address.value)).0, p.refused).0
  {
    hide Expire, Encode, Enqueue, Drain, ClaimStartDelay, ClaimInterval, ClaimFrame;
    assert Tick(n, now, p) == TickScheduled(ScheduleClaim(ExpireNode(n, now), now), now, p);
  }

  lemma TickClaimsLater(n: Node, now: U32, p: Ports, start: nat)
    requires ClaimsLater(n, start) && start <= now && now + 40000 < WORD
    ensures ClaimsLater(Tick(n, now, p), start)
    ensures SendsClaim(n, now) ==> now >= start + ClaimStartDelay(n.uid)
  {
    hide TickScheduled, Expire, UidHash;
    var planned := ScheduleClaim(ExpireNode(n, now), now);
    assert ClaimsLater(planned, start);
    ScheduledClaimsLater(planned, now, p, start);
    TickFrame(n, now, p);
  }

  predicate PlansNoEarlier(n: Node, m: Node) {
    m.schedule.claimScheduled == n.schedule.claimScheduled && m.schedule.nextClaim >= n.schedule.nextClaim
  }

  lemma RequestKeepsPlan(n: Node, now: U32)
    ensures PlansNoEarlier(n, SendDiscoveryRequest(n, now))
  {
    hide Enqueue, DiscoveryRequestFrame, DiscoveryRequestBytes, ResponseDelay;
  }

  lemma ClaimMovesPlan(n: Node, now: U32)
    requires n.schedule.nextClaim <= now && now + 40000 < WORD
    ensures PlansNoEarlier(n, SendClaim(n))
  {
    hide Enqueue, ClaimFrame, UidHash;
  }

  lemma BeatKeepsPlan(n: Node, now: U32, p: Ports)
    requires n.address.Some?
    ensures PlansNoEarlier(n, SendHeartbeat(n, now, p))
  {
    hide Encode, HeartbeatFrame;
  }

  /** A tick that follows the plan moves the planned claim only to a later time. */
  lemma ClaimPlanStays(n: Node, now: U32, p: Ports)
    requires now + 40000 < WORD
    ensures PlansNoEarlier(n, TickScheduled(n, now, p))
  {
    hide SendDiscoveryRequest, SendClaim, SendHeartbeat, Announce, Drain;
    RequestKeepsPlan(n, now);
    if n.schedule.nextClaim <= now { ClaimMovesPlan(n, now); }
    if n.address.Some? { BeatKeepsPlan(n, now, p); }
    AnnounceKeepsPlan(n, p);
  }

  lemma AnnounceKeepsPlan(n: Node, p: Ports)
    ensures var m := Announce(n, p);
            m.schedule.claimScheduled == n.schedule.claimScheduled && m.schedule.nextClaim == n.schedule.nextClaim
  {
    hide Enqueue, Drain;
  }

  lemma SamePlanLater(n: Node, m: Node, start: nat)
    requires ClaimsLater(n, start) && m.uid == n.uid && m.schedule.claimScheduled == n.schedule.claimScheduled
    requires m.schedule.nextClaim >= n.schedule.nextClaim
    ensures ClaimsLater(m, start)
  {
    hide ClaimStartDelay;
  }

  lemma ScheduledClaimsLater(n: Node, now: U32, p: Ports, start: nat)
    requires ClaimsLater(n, start) && now + 40000 < WORD
    ensures ClaimsLater(TickScheduled(n, now, p), start)
  {
    hide Encode, Enqueue, Drain, ClaimStartDelay, ClaimInterval, UidHash, ClaimFrame, ClaimsLater;
    TickScheduledFrame(n, now, p);
    ClaimPlanStays(n, now, p);
    SamePlanLater(n, TickScheduled(n, now, p), start);
  }

  lemma {:induction false} PlannedClaimsLater(n: Node, inputs: seq<Input>, k: nat, start: nat)
    requires k <= |inputs| && InTime(inputs) && !n.schedule.claimScheduled
    requires forall i :: 0 <= i < |inputs| && inputs[i].Ticked? ==> start <= inputs[i].now
    ensures Upto(n, inputs, k).uid == n.uid && ClaimsLater(Upto(n, inputs, k), start)
  {
    hide Step, Upto, ClaimStartDelay, SendsClaim;
    if k == 0 {
      UptoNothing(n, inputs);
    } else {
      PlannedClaimsLater(n, inputs, k - 1, start);
      UptoNext(n, inputs, k - 1);
      var before, input := Upto(n, inputs, k - 1), inputs[k - 1];
      if input.Ticked? {
        StepClaimsLater(before, input, start);
      } else {
        CallKeepsPlans(before, input);
      }
    }
  }

  lemma StepClaimsLater(n: Node, input: Input, start: nat)
    requires input.Ticked? && ClaimsLater(n, start) && start <= input.now && input.now + 40000 < WORD
    ensures Step(n, input).uid == n.uid && ClaimsLater(Step(n, input), start)
  {
    hide Tick, ClaimsLater;
    TickClaimsLater(n, input.now, input.ports, start);
    TickFrame(n, input.now, input.ports);
  }

  /** Call `first` is the first tick. */
  predicate IsFirstTick(inputs: seq<Input>, first: nat)
    requires first < |inputs|
  {
    inputs[first].Ticked? && forall i :: 0 <= i < first ==> !inputs[i].Ticked?
  }

  /** In every run, whatever frames and calls come, and whether the node loads its address or is assigned
      one: it claims no address earlier than its start delay after the first tick. */
  lemma {:induction false} ClaimsKeepDelay(
    uid: Uid, role: Role, stored: Option<NodeAddress>, saved: bool, inputs: seq<Input>, first: nat, k: nat)
    requires InTime(inputs) && TicksInOrder(inputs) && first < |inputs| && IsFirstTick(inputs, first)
    requires k < |inputs| && ClaimsIn(Boot(uid, role, stored, saved), inputs, k)
    ensures inputs[k].now >= inputs[first].now + ClaimStartDelay(uid)
  {
    hide Upto, ClaimStartDelay, SendsClaim;
    var n := Boot(uid, role, stored, saved);
    PlannedClaimsLater(n, inputs, k, inputs[first].now);
    TickClaimsLater(Upto(n, inputs, k), inputs[k].now, inputs[k].ports, inputs[first].now);
  }

  /** In some run the node sends a claim at most `wait` after its first tick. */
  ghost predicate MayClaimWithin(n: Node, wait: nat) {
    exists inputs: seq<Input>, first, k ::
      && 0 <= k < |inputs| && 0 <= first < |inputs| && InTime(inputs) && TicksInOrder(inputs)
      && IsFirstTick(inputs, first) && ClaimsIn(n, inputs, k) && inputs[k].now <= inputs[first].now + wait
  }

  /** A node that has loaded an address may claim it within `wait` of its first tick exactly if its start
      delay is no longer than that. */
  lemma {:induction false} ClaimsWithinExactly(uid: Uid, role: Role, a: NodeAddress, saved: bool, wait: nat)
    requires IsUnicast(a)
    ensures MayClaimWithin(Boot(uid, role, Some(a), saved), wait) <==> ClaimStartDelay(uid) <= wait
  {
    hide Boot, Upto, InTime, TicksInOrder, SendsClaim, ClaimStartDelay;
    var n := Boot(uid, role, Some(a), saved);
    forall inputs: seq<Input>, first, k
      | 0 <= k < |inputs| && 0 <= first < |inputs| && InTime(inputs) && TicksInOrder(inputs)
        && IsFirstTick(inputs, first) && ClaimsIn(n, inputs, k)
      ensures inputs[k].now >= inputs[first].now + ClaimStartDelay(uid)
    {
      ClaimsKeepDelay(uid, role, Some(a), saved, inputs, first, k);
    }
    if ClaimStartDelay(uid) <= wait {
      var p := Ports({}, true, ACCEPTED);
      PromptTicks(uid, role, a, saved, p);
      var inputs := [Ticked(0, p), Ticked(ClaimStartDelay(uid), p)];
      assert IsFirstTick(inputs, 0) && ClaimsIn(n, inputs, 1);
    }
  }

  lemma {:induction false} PromptTicks(uid: Uid, role: Role, a: NodeAddress, saved: bool, p: Ports)
    requires IsUnicast(a) && p.refused == {}
    ensures var inputs := [Ticked(0, p), Ticked(ClaimStartDelay(uid), p)];
            && InTime(inputs) && TicksInOrder(inputs) && IsFirstTick(inputs, 0)
            && ClaimsIn(Boot(uid, role, Some(a), saved), inputs, 1)
  {
    hide Tick, Planned, Remaining, Said, UidHash, RegistryOk, Idle, Upto;
    var n, inputs := Boot(uid, role, Some(a), saved), [Ticked(0, p), Ticked(ClaimStartDelay(uid), p)];
    NothingRegistered(uid, role, a, saved);
    FirstTick(n, a, 0, p);
    UptoNothing(n, inputs);
    UptoNext(n, inputs, 0);
    assert n.uid == uid;
  }

  // ---------------------------------------------------------------- heartbeats

  /** A tick of such a node sends a heartbeat. */
  predicate SendsBeat(n: Node, now: U32) { MayAnnounce(n) && !Responds(n, now) && now >= n.schedule.nextHeartbeat }

  /** Call `k` is a tick that sends a heartbeat. */
  predicate BeatsIn(n: Node, inputs: seq<Input>, k: nat)
    requires k < |inputs|
  {
    inputs[k].Ticked? && SendsBeat(Upto(n, inputs, k), inputs[k].now)
  }

  /** The heartbeat is all that such a tick hands over, and the next one is planned half a minute later; no
      other tick changes the plan. */
  lemma BeatOfTick(n: Node, now: U32, p: Ports)
    ensures SendsBeat(n, now) ==>
              Tick(n, now, p).out
              == match Encode(HeartbeatFrame(n.address.value, n.sequence))
                 case Success(raw) => Transmit(n.out, raw, false, p.refused)
                 case Failure(_) => n.out
    ensures Tick(n, now, p).schedule.nextHeartbeat
            == if SendsBeat(n, now) then Add32(now, 30000) else n.schedule.nextHeartbeat
  {
    hide Expire, Encode, Enqueue, Drain, HeartbeatFrame;
  }

  /** The node has an address before each of the calls from `i` to `j`. */
  predicate KeepsAddress(n: Node, inputs: seq<Input>, i: nat, j: nat)
    requires i <= j < |inputs|
  {
    forall k :: i <= k <= j ==> Upto(n, inputs, k).address.Some?
  }

  lemma {:induction false} NextBeatIsFar(n: Node, inputs: seq<Input>, i: nat, j: nat)
    requires i < j < |inputs| && InTime(inputs) && BeatsIn(n, inputs, i) && KeepsAddress(n, inputs, i, j)
    ensures Upto(n, inputs, j).schedule.nextHeartbeat >= inputs[i].now + 30000
    decreases j
  {
    hide Step, Upto;
    UptoNext(n, inputs, j - 1);
    var before, input := Upto(n, inputs, j - 1), inputs[j - 1];
    if input.Ticked? {
      BeatOfCall(before, input);
    } else {
      CallKeepsPlans(before, input);
    }
    if i < j - 1 { NextBeatIsFar(n, inputs, i, j - 1); }
  }

  lemma BeatOfCall(n: Node, input: Input)
    requires input.Ticked?
    ensures Step(n, input).schedule.nextHeartbeat
            == if SendsBeat(n, input.now) then Add32(input.now, 30000) else n.schedule.nextHeartbeat
  {
    hide Tick;
    BeatOfTick(n, input.now, input.ports);
  }

  /** Before the clock wraps, whatever calls and frames come in between, any two heartbeats of a node that
      keeps having an address are at least thirty seconds apart. So `WorkShrinks` is not held up: between
      two heartbeats every tick makes progress. */
  lemma {:induction false} HeartbeatsKeepDistance(n: Node, inputs: seq<Input>, i: nat, j: nat)
    requires i < j < |inputs| && InTime(inputs) && KeepsAddress(n, inputs, i, j)
    requires BeatsIn(n, inputs, i) && BeatsIn(n, inputs, j)
    ensures inputs[j].now - inputs[i].now >= 30000
  {
    hide Upto;
    NextBeatIsFar(n, inputs, i, j);
  }
}
