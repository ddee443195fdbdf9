/** Published states arrive in order, and the last one always gets through. */
module Convergence {
  import opened Wrappers
  import opened Types
  import opened CanIdentifiers
  import opened TypedValues
  import opened WirePayloads
  import opened FrameCodec
  import opened Payloads
  import opened Outboxes
  import opened Directories
  import opened Nodes
  import opened NodeFrames
  import opened NodeInvariants
  import opened EntityResolution

  const STATE_QUEUE := 2

  // ---------------------------------------------------------------- subsequences

  predicate Subsequence<T(==)>(a: seq<T>, b: seq<T>)
    decreases |b|
  {
    || a == []
    || (b != []
        && var a', b' := a[..|a| - 1], b[..|b| - 1];
           (a[|a| - 1] == b[|b| - 1] && Subsequence(a', b')) || Subsequence(a, b'))
  }

  predicate SameLast<T(==)>(a: seq<T>, b: seq<T>) {
    (a == [] <==> b == []) && (a != [] ==> a[|a| - 1] == b[|b| - 1])
  }

  lemma {:induction false} SubsequenceAppend<T>(a: seq<T>, b: seq<T>, x: T)
    requires Subsequence(a, b)
    ensures Subsequence(a + [x], b + [x])
  {
    assert (a + [x])[..|a|] == a && (b + [x])[..|b|] == b;
  }

  /** Dropping the last element of a subsequence, or a tail of it, leaves a subsequence. */
  lemma {:induction false} SubsequenceInit<T>(a: seq<T>, x: T, b: seq<T>)
    requires Subsequence(a + [x], b)
    ensures Subsequence(a, b)
    decreases |b|
  {
    var ax, b' := a + [x], b[..|b| - 1];
    assert ax[..|a|] == a;
    if Subsequence(ax, b') {
      SubsequenceInit(a, x, b');
    }
    if a != [] && Subsequence(a, b') { assert Subsequence(a, b); }
  }

  lemma {:induction false} SubsequencePrefix<T>(a: seq<T>, k: nat, b: seq<T>)
    requires k <= |a| && Subsequence(a, b)
    ensures Subsequence(a[..k], b)
    decreases |a|
  {
    if k < |a| {
      var a' := a[..|a| - 1];
      assert a == a' + [a[|a| - 1]] && a'[..k] == a[..k];
      SubsequenceInit(a', a[|a| - 1], b);
      SubsequencePrefix(a', k, b);
    } else {
      assert a[..k] == a;
    }
  }

  // ---------------------------------------------------------------- the frames of one key

  /** The frames of one coalescing key, in order. */
  function Of(frames: seq<RawCanFrame>, key: Key): seq<RawCanFrame> {
    if frames == [] then []
    else
      var last := frames[|frames| - 1];
      Of(frames[..|frames| - 1], key) + if KeyOf(last) == Some(key) then [last] else []
  }

  /** What the transmitter took, in order. */
  function SentFrames(wire: seq<Attempt>): seq<RawCanFrame> {
    if wire == [] then []
    else
      var last := wire[|wire| - 1];
      SentFrames(wire[..|wire| - 1]) + if last.sent then [last.raw] else []
  }

  lemma {:induction false} OfAppend(frames: seq<RawCanFrame>, raw: RawCanFrame, key: Key)
    ensures Of(frames + [raw], key) == if KeyOf(raw) == Some(key) then Of(frames, key) + [raw] else Of(frames, key)
  {
    assert (frames + [raw])[..|frames|] == frames;
  }

  lemma {:induction false} SentAppend(wire: seq<Attempt>, a: Attempt)
    ensures SentFrames(wire + [a]) == if a.sent then SentFrames(wire) + [a.raw] else SentFrames(wire)
  {
    assert (wire + [a])[..|wire|] == wire;
  }

  lemma {:induction false} OfConcat(a: seq<RawCanFrame>, b: seq<RawCanFrame>, key: Key)
    ensures Of(a + b, key) == Of(a, key) + Of(b, key)
    decreases |b|
  {
    if b == [] {
      assert a + b == a;
    } else {
      assert (a + b)[..|a + b| - 1] == a + b[..|b| - 1];
      OfConcat(a, b[..|b| - 1], key);
    }
  }

  lemma {:induction false} OfNone(frames: seq<RawCanFrame>, key: Key)
    requires forall i :: 0 <= i < |frames| ==> KeyOf(frames[i]) != Some(key)
    ensures Of(frames, key) == []
  {
    if frames != [] { OfNone(frames[..|frames| - 1], key); }
  }

  /** Splitting a queue at one slot. */
  lemma {:induction false} OfSplit(queue: seq<RawCanFrame>, slot: nat, key: Key)
    requires slot < |queue|
    ensures Of(queue, key) == Of(queue[..slot], key) + Of([queue[slot]], key) + Of(queue[slot + 1..], key)
  {
    assert queue == queue[..slot] + ([queue[slot]] + queue[slot + 1..]);
    OfConcat(queue[..slot], [queue[slot]] + queue[slot + 1..], key);
    OfConcat([queue[slot]], queue[slot + 1..], key);
  }

  /** Of one key a well-formed queue holds at most the one pending frame. */
  lemma {:induction false} OfPending(queue: seq<RawCanFrame>, slot: nat, key: Key)
    requires slot < |queue| && DistinctKeys(queue) && KeyOf(queue[slot]) == Some(key)
    ensures Of(queue, key) == [queue[slot]]
  {
    hide KeyOf;
    OfSplit(queue, slot, key);
    OfNone(queue[..slot], key);
    OfNone(queue[slot + 1..], key);
  }

  lemma OfReplaced(queue: seq<RawCanFrame>, slot: nat, raw: RawCanFrame, key: Key)
    requires slot < |queue| && KeyOf(queue[slot]) == KeyOf(raw) != Some(key)
    ensures Of(queue[slot := raw], key) == Of(queue, key)
  {
    hide KeyOf;
    var queue' := queue[slot := raw];
    assert queue'[..slot] == queue[..slot] && queue'[slot + 1..] == queue[slot + 1..];
    OfSplit(queue, slot, key);
    OfSplit(queue', slot, key);
  }

  /** A STATE is only ever in its own queue. */
  lemma StatesHaveOneQueue(raw: RawCanFrame, c: nat)
    requires InClass(raw, c) && KeyOf(raw).Some?
    ensures c == STATE_QUEUE
  {
    EncodeDecoded(raw);
  }

  // ---------------------------------------------------------------- the sender's outbox

  /** What of one key has been sent or is still to be sent. */
  function Surviving(o: Outbox, key: Key): seq<RawCanFrame>
    requires |o.queues| == CLASSES
  {
    Of(SentFrames(o.wire), key) + Of(o.queues[STATE_QUEUE], key)
  }

  /** Elements were dropped, but not reordered, and not the last one. */
  predicate KeepsLast<T(==)>(kept: seq<T>, all: seq<T>) { Subsequence(kept, all) && SameLast(kept, all) }

  /** Coalescing drops frames of a key, but never reorders them and never drops the last one. */
  ghost predicate Converges(o: Outbox, key: Key) {
    |o.queues| == CLASSES && Shaped(o) && KeepsLast(Surviving(o, key), Of(o.accepted, key))
  }

  lemma GrowKeepsLast<T>(kept: seq<T>, all: seq<T>, x: T)
    requires KeepsLast(kept, all)
    ensures KeepsLast(kept + [x], all + [x])
  {
    SubsequenceAppend(kept, all, x);
  }

  lemma SwapKeepsLast<T>(kept: seq<T>, stale: T, all: seq<T>, x: T)
    requires KeepsLast(kept + [stale], all)
    ensures KeepsLast(kept + [x], all + [x])
  {
    SubsequenceInit(kept, stale, all);
    SubsequenceAppend(kept, all, x);
  }

  lemma PushConverges(o: Outbox, c: nat, raw: RawCanFrame, key: Key)
    requires Converges(o, key) && InClass(raw, c) && c < CLASSES && Shaped(Push(o, c, raw))
    ensures Converges(Push(o, c, raw), key)
  {
    hide KeyOf, Shaped, KeepsLast, InClass, Of, SentFrames;
    OfAppend(o.accepted, raw, key);
    OfAppend(o.queues[c], raw, key);
    if KeyOf(raw) == Some(key) {
      StatesHaveOneQueue(raw, c);
      GrowKeepsLast(Surviving(o, key), Of(o.accepted, key), raw);
      assert Surviving(Push(o, c, raw), key) == Surviving(o, key) + [raw];
    } else {
      assert Surviving(Push(o, c, raw), key) == Surviving(o, key);
    }
  }

  lemma ReplaceConverges(o: Outbox, c: nat, slot: nat, raw: RawCanFrame, key: Key)
    requires Converges(o, key) && c < CLASSES && slot < |o.queues[c]| && InClass(raw, c)
    requires Shaped(Replace(o, c, slot, raw))
    requires KeyOf(o.queues[c][slot]) == KeyOf(raw)
    ensures Converges(Replace(o, c, slot, raw), key)
  {
    hide KeyOf, KeepsLast, InClass;
    var o', queue, sent := Replace(o, c, slot, raw), o.queues[c], Of(SentFrames(o.wire), key);
    OfAppend(o.accepted, raw, key);
    if KeyOf(raw) == Some(key) {
      StatesHaveOneQueue(raw, c);
      assert QueueOk(queue, c) && QueueOk(o'.queues[c], c);
      OfPending(queue, slot, key);
      OfPending(o'.queues[c], slot, key);
      SwapKeepsLast(sent, queue[slot], Of(o.accepted, key), raw);
    } else {
      OfReplaced(queue, slot, raw, key);
      assert Surviving(o', key) == Surviving(o, key);
    }
  }

  lemma EnqueueConverges(o: Outbox, f: ProtocolFrame, key: Key)
    requires Converges(o, key)
    ensures Converges(Enqueue(o, f).0, key)
  {
    hide KeyOf, KeepsLast, Encode, InClass, QueueOk, Surviving;
    EnqueueKeepsShape(o, f);
    if Encode(f).Success? {
      EncodedFits(f);
      var raw, c, slot := Encode(f).value, QueueOf(f.identifier.priority), Slot(o, f);
      if slot < |o.queues[c]| {
        ReplaceConverges(o, c, slot, raw, key);
      } else if |o.queues[c]| != CAPACITY {
        PushConverges(o, c, raw, key);
      }
    }
  }

  lemma QueuedInClass(o: Outbox, c: nat, i: nat)
    requires Shaped(o) && c < CLASSES && i < |o.queues[c]|
    ensures InClass(o.queues[c][i], c)
  {
    hide InClass;
    assert QueueOk(o.queues[c], c);
  }

  /** The head of a queue moves from what is pending to what was sent. */
  lemma PopSurvives(o: Outbox, c: nat, key: Key)
    requires |o.queues| == CLASSES && Shaped(o) && c < CLASSES && o.queues[c] != []
    ensures Surviving(Pop(o, c, {}), key) == Surviving(o, key)
  {
    hide KeyOf, InClass, Of, SentFrames, Shaped;
    var queue, sent := o.queues[c], SentFrames(o.wire);
    var head := queue[0];
    QueuedInClass(o, c, 0);
    SentAppend(o.wire, Attempt(head, true, true));
    OfAppend(sent, head, key);
    OfHead(queue, key);
    if KeyOf(head) == Some(key) { StatesHaveOneQueue(head, c); }
  }

  lemma {:induction false} OfHead(queue: seq<RawCanFrame>, key: Key)
    requires queue != []
    ensures Of(queue, key)
            == if KeyOf(queue[0]) == Some(key) then [queue[0]] + Of(queue[1..], key) else Of(queue[1..], key)
  {
    hide KeyOf;
    assert queue == [queue[0]] + queue[1..];
    OfConcat([queue[0]], queue[1..], key);
    assert [queue[0]][..0] == [];
  }

  lemma PopConverges(o: Outbox, c: nat, key: Key)
    requires Converges(o, key) && c < CLASSES && o.queues[c] != []
    ensures Converges(Pop(o, c, {}), key)
  {
    hide KeepsLast, Surviving, Shaped;
    PopSurvives(o, c, key);
    PopKeepsShape(o, c, {});
  }

  lemma DirectIsNoState(f: ProtocolFrame)
    requires IsDirect(f) && Encode(f).Success?
    ensures KeyOf(Encode(f).value) == None
  {
    DecodeEncoded(f);
  }

  lemma DirectConverges(o: Outbox, f: ProtocolFrame, refused: set<RawCanFrame>, key: Key)
    requires Converges(o, key) && IsDirect(f) && Encode(f).Success?
    ensures Converges(Transmit(o, Encode(f).value, false, refused), key)
  {
    hide KeepsLast, QueueOk, Encode, KeyOf;
    var raw := Encode(f).value;
    DirectIsNoState(f);
    SentAppend(o.wire, Attempt(raw, raw !in refused, false));
    OfAppend(SentFrames(o.wire), raw, key);
  }

  ghost function ConvergesInv(key: Key): Outbox -> bool { o => Converges(o, key) }

  lemma ConvergesKept(a: Author, key: Key)
    requires a.refused == {}
    ensures Kept(a, ConvergesInv(key))
  {
    hide Enqueue, Encode, Shaped, KeepsLast;
    forall o, f | Converges(o, key) ensures Converges(Enqueue(o, f).0, key) { EnqueueConverges(o, f, key); }
    forall o, c | Converges(o, key) && 0 <= c < CLASSES && o.queues[c] != []
      ensures Converges(Pop(o, c, a.refused), key)
    {
      PopConverges(o, c, key);
    }
    forall o, f | Converges(o, key) && Authored(a, f) && IsDirect(f) && Encode(f).Success?
      ensures Converges(Transmit(o, Encode(f).value, false, a.refused), key)
    {
      DirectConverges(o, f, a.refused, key);
    }
  }

  lemma StepConverges(n: Node, input: Input, key: Key)
    requires Converges(n.out, key) && RefusedBy(input) == {}
    ensures Converges(Step(n, input).out, key)
  {
    hide Step, Enqueue, Kept, Shaped, KeepsLast;
    ConvergesKept(AuthorOf(n, input), key);
    if input.FrameEnqueued? { EnqueueConverges(n.out, input.frame, key); }
    StepAll(n, input, ConvergesInv(key));
  }

  /** No transmitter fails during the run. */
  predicate NothingRefused(inputs: seq<Input>) { forall i :: 0 <= i < |inputs| ==> RefusedBy(inputs[i]) == {} }

  lemma {:induction false} RunConverges(n: Node, inputs: seq<Input>, key: Key)
    requires Converges(n.out, key) && NothingRefused(inputs)
    ensures Converges(Run(n, inputs).out, key)
  {
    hide Step, Converges, RefusedBy;
    if inputs != [] {
      RunConverges(n, inputs[..|inputs| - 1], key);
      assert RefusedBy(inputs[|inputs| - 1]) == {};
      StepConverges(Run(n, inputs[..|inputs| - 1]), inputs[|inputs| - 1], key);
    }
  }

  // ---------------------------------------------------------------- from publications to frames

  /** A value with its quality, as it is published and as a listener hears it. */
  datatype Reading = Reading(value: TypedValue, quality: Byte)

  function ReadingOf(raw: RawCanFrame): Reading { Reading(SlotValue(raw.data), raw.data[3]) }

  function Readings(frames: seq<RawCanFrame>): (r: seq<Reading>)
    ensures |r| == |frames|
  {
    seq(|frames|, i requires 0 <= i < |frames| => ReadingOf(frames[i]))
  }

  /** The publication is accepted while the node holds address `a`. */
  predicate Publishes(n: Node, input: Input, a: NodeAddress, endpoint: EndpointId) {
    && input.StatePublished? && input.endpoint == endpoint && n.address == Some(a)
    && PublishState(n, endpoint, input.value, input.flags).1
  }

  /** What `publish_state` accepted for one endpoint, in order. */
  function Published(n: Node, inputs: seq<Input>, a: NodeAddress, endpoint: EndpointId): seq<Reading> {
    if inputs == [] then []
    else
      var before, last := inputs[..|inputs| - 1], inputs[|inputs| - 1];
      Published(n, before, a, endpoint)
      + if Publishes(Run(n, before), last, a, endpoint) then [Reading(last.value, last.flags)] else []
  }

  predicate SameAccepted(o: Outbox, key: Key, frames: seq<RawCanFrame>) {
    |o.queues| == CLASSES && Of(o.accepted, key) == frames
  }

  ghost function AcceptedInv(key: Key, frames: seq<RawCanFrame>): Outbox -> bool { o => SameAccepted(o, key, frames) }

  lemma {:induction false} OtherKeysAccepted(o: Outbox, f: ProtocolFrame, key: Key)
    requires |o.queues| == CLASSES && FrameKey(f) != Some(key)
    ensures SameAccepted(Enqueue(o, f).0, key, Of(o.accepted, key))
  {
    hide KeyOf, Encode, Decode;
    if Encode(f).Success? {
      EncodedFits(f);
      OfAppend(o.accepted, Encode(f).value, key);
    }
  }

  /** Nothing but a publication under that key, or a frame the caller queues under it, is accepted there. */
  lemma {:induction false} OtherStepsAccept(n: Node, input: Input, key: Key)
    requires PublishedBy(n, input).Some? ==> FrameKey(PublishedBy(n, input).value) != Some(key)
    requires input.FrameEnqueued? ==> FrameKey(input.frame) != Some(key)
    ensures Of(Step(n, input).out.accepted, key) == Of(n.out.accepted, key)
  {
    hide Step, Enqueue, Encode, PublishedBy, Of;
    var a, frames := AuthorOf(n, input), Of(n.out.accepted, key);
    forall o, f | SameAccepted(o, key, frames) && Authored(a, f) ensures SameAccepted(Enqueue(o, f).0, key, frames) {
      if Encode(f).Success? && f.identifier.kind == STATE { DecodeEncoded(f); }
      if FrameKey(f) != Some(key) { OtherKeysAccepted(o, f, key); } else { UnencodableAdds(o, f, key); }
    }
    if input.FrameEnqueued? { OtherKeysAccepted(n.out, input.frame, key); }
    StepAll(n, input, AcceptedInv(key, frames));
  }

  lemma UnencodableAdds(o: Outbox, f: ProtocolFrame, key: Key)
    requires |o.queues| == CLASSES && Encode(f).Failure?
    ensures Enqueue(o, f).0 == o
  {
  }

  lemma PublicationAccepted(n: Node, input: Input, a: NodeAddress)
    requires input.StatePublished? && n.address == Some(a)
    ensures var key := Key(a, BROADCAST, input.endpoint);
            Readings(Of(Step(n, input).out.accepted, key))
            == Readings(Of(n.out.accepted, key))
               + if Publishes(n, input, a, input.endpoint) then [Reading(input.value, input.flags)] else []
  {
    hide Encode, KeyOf, EncodeValue, Of;
    var key := Key(a, BROADCAST, input.endpoint);
    match CreateState(n.sequence, input.endpoint, input.value, input.flags)
    case None =>
    case Some(payload) =>
      var f := StateFrame(a, payload);
      ValueRoundTrip(payload, f.payload.bytes);
      if Encode(f).Success? {
        EncodedFits(f);
        DataKept(f);
        OfAppend(n.out.accepted, Encode(f).value, key);
      }
  }

  lemma DataKept(f: ProtocolFrame)
    requires Encode(f).Success?
    ensures Encode(f).value.data == f.payload.bytes
  {
  }

  /** Nobody but `publish_state` queues frames of the key. */
  predicate OnlyPublishes(inputs: seq<Input>, key: Key) {
    forall i :: 0 <= i < |inputs| && inputs[i].FrameEnqueued? ==> FrameKey(inputs[i].frame) != Some(key)
  }

  /** The accepted frames of a key carry exactly the accepted publications, in order. */
  lemma {:induction false} AcceptedArePublished(n: Node, inputs: seq<Input>, a: NodeAddress, endpoint: EndpointId)
    requires OnlyPublishes(inputs, Key(a, BROADCAST, endpoint)) && n.out.accepted == []
    ensures Readings(Of(Run(n, inputs).out.accepted, Key(a, BROADCAST, endpoint))) == Published(n, inputs, a, endpoint)
  {
    hide Step, Of, Publishes, FrameKey, KeyOf;
    var key := Key(a, BROADCAST, endpoint);
    if inputs == [] {
      NothingOf(key);
    } else {
      var before, last := inputs[..|inputs| - 1], inputs[|inputs| - 1];
      AcceptedArePublished(n, before, a, endpoint);
      OneStepAccepts(Run(n, before), last, a, endpoint);
    }
  }

  lemma {:induction false} NothingOf(key: Key)
    ensures Of([], key) == []
  {
  }

  lemma OneStepAccepts(n: Node, input: Input, a: NodeAddress, endpoint: EndpointId)
    requires input.FrameEnqueued? ==> FrameKey(input.frame) != Some(Key(a, BROADCAST, endpoint))
    ensures var key := Key(a, BROADCAST, endpoint);
            Readings(Of(Step(n, input).out.accepted, key))
            == Readings(Of(n.out.accepted, key))
               + if Publishes(n, input, a, endpoint) then [Reading(input.value, input.flags)] else []
  {
    hide Step, Of, KeyOf, PublishState, Encode;
    if input.StatePublished? && input.endpoint == endpoint && n.address == Some(a) {
      PublicationAccepted(n, input, a);
    } else {
      OtherStepsAccept(n, input, Key(a, BROADCAST, endpoint));
    }
  }

  // ---------------------------------------------------------------- the observer

  /** What one listener was told, in order. */
  function Heard(states: seq<Delivery>, listener: Listener): seq<Reading> {
    if states == [] then []
    else
      var last := states[|states| - 1];
      Heard(states[..|states| - 1], listener)
      + if last.listener == listener then [Reading(last.value, last.flags)] else []
  }

  /** In how many slots a listener is registered. */
  function Registrations(listeners: seq<Option<Listener>>, listener: Listener): nat {
    if listeners == [] then 0
    else (if listeners[0] == Some(listener) then 1 else 0) + Registrations(listeners[1..], listener)
  }

  lemma {:induction false} HeardConcat(a: seq<Delivery>, b: seq<Delivery>, listener: Listener)
    ensures Heard(a + b, listener) == Heard(a, listener) + Heard(b, listener)
    decreases |b|
  {
    if b == [] {
      assert a + b == a;
    } else {
      assert (a + b)[..|a + b| - 1] == a + b[..|b| - 1];
      HeardConcat(a, b[..|b| - 1], listener);
    }
  }

  function Copies(r: Reading, count: nat): seq<Reading> { seq(count, _ => r) }

  /** A notification reaches each listener of the entity once per registration, and nobody else. */
  lemma {:induction false} NotifyIsHeard(
    listeners: seq<Option<Listener>>, entity: EntityId, value: TypedValue, flags: Byte, listener: Listener)
    ensures Heard(Notify(listeners, entity, value, flags), listener)
            == if listener.entity == entity
               then Copies(Reading(value, flags), Registrations(listeners, listener)) else []
  {
    if listeners != [] {
      var rest := Notify(listeners[1..], entity, value, flags);
      NotifyIsHeard(listeners[1..], entity, value, flags, listener);
      if listeners[0].Some? && listeners[0].value.entity == entity {
        var first := [Delivery(listeners[0].value, value, flags)];
        HeardConcat(first, rest, listener);
        assert first[..0] == [];
      } else {
        assert [] + rest == rest;
      }
    }
  }

  lemma {:induction false} Registering(listeners: seq<Option<Listener>>, i: nat, newcomer: Listener, listener: Listener)
    requires i < |listeners| && listeners[i].None?
    ensures Registrations(listeners[i := Some(newcomer)], listener)
            == Registrations(listeners, listener) + if newcomer == listener then 1 else 0
  {
    var listeners' := listeners[i := Some(newcomer)];
    if i == 0 {
      assert listeners'[1..] == listeners[1..];
    } else {
      assert listeners'[1..] == listeners[1..][i - 1 := Some(newcomer)];
      Registering(listeners[1..], i - 1, newcomer, listener);
    }
  }

  lemma {:induction false} RegisteredIffListed(listeners: seq<Option<Listener>>, listener: Listener)
    ensures Registrations(listeners, listener) == 0 <==> Some(listener) !in listeners
  {
    if listeners != [] {
      RegisteredIffListed(listeners[1..], listener);
      assert listeners == [listeners[0]] + listeners[1..];
    }
  }

  lemma {:induction false} StepRegistrations(n: Node, input: Input, listener: Listener)
    requires Registrations(n.registry.stateListeners, listener) <= 1
    ensures var before, later := n.registry.stateListeners, Step(n, input).registry.stateListeners;
            Registrations(before, listener) <= Registrations(later, listener) <= 1
  {
    hide Dispatch, Tick, RegisterOwned, PublishState, PublishEvent, Enqueue, Drain, Registrations;
    match input
    case Received(raw, now, ports) =>
      if Decode(raw).Success? {
        EncodeDecoded(raw);
        var f := Decode(raw).value;
        DispatchIdentity(HearNode(n, f.identifier.source, now), f, now, ports);
      }
    case Ticked(now, ports) => TickFrame(n, now, ports);
    case StatePublished(endpoint, value, flags) => PublicationKeepsRegistry(n, endpoint, value, flags);
    case EventPublished(endpoint, value, flags) => PublicationKeepsRegistry(n, endpoint, value, flags);
    case OwnedRegistered(entity, endpoint) => OwnedKeepsListeners(n.registry, entity, endpoint);
    case StateListenerRegistered(newcomer) =>
      var free := FreeSlot(n.registry.stateListeners);
      if free < 16 { Registering(n.registry.stateListeners, free, newcomer, listener); }
      RegisteredIffListed(n.registry.stateListeners, listener);
    case _ =>
  }

  lemma PublicationKeepsRegistry(n: Node, endpoint: EndpointId, value: TypedValue, flags: Byte)
    ensures PublishState(n, endpoint, value, flags).0.registry == n.registry
    ensures PublishEvent(n, endpoint, value, flags).0.registry == n.registry
    ensures PublishState(n, endpoint, value, flags).0.states == n.states
    ensures PublishEvent(n, endpoint, value, flags).0.states == n.states
  {
    hide Enqueue, CreateState, CreateEvent, StateFrame, EventFrame;
  }

  lemma OwnedKeepsListeners(r: Registry, entity: EntityId, endpoint: EndpointId)
    ensures RegisterOwned(r, entity, endpoint).0.stateListeners == r.stateListeners
  {
  }

  /** A listener that registers, however often, is registered once. */
  lemma {:induction false} ListenersRegisterOnce(
    uid: Uid, role: Role, stored: Option<NodeAddress>, saved: bool, inputs: seq<Input>, listener: Listener)
    ensures var listeners := Run(Boot(uid, role, stored, saved), inputs).registry.stateListeners;
            Registrations(listeners, listener) == if Some(listener) in listeners then 1 else 0
  {
    hide Step, Registrations;
    var n := Boot(uid, role, stored, saved);
    RegisteredIffListed(Run(n, inputs).registry.stateListeners, listener);
    if inputs == [] {
      RegisteredIffListed(n.registry.stateListeners, listener);
    } else {
      var before := inputs[..|inputs| - 1];
      ListenersRegisterOnce(uid, role, stored, saved, before, listener);
      StepRegistrations(Run(n, before), inputs[|inputs| - 1], listener);
    }
  }

  /** The call delivers a STATE that the node takes for one of the entity. */
  predicate Resolves(n: Node, input: Input, entity: EntityId) {
    && input.Received?
    && match Decode(input.raw)
       case Success(f) => f.identifier.kind == STATE
           && EntityFor(n, f.identifier.source, f.payload.bytes[1]) == Some(entity)
       case Failure(_) => false
  }

  lemma OtherFramesTellNothing(n: Node, f: ProtocolFrame, now: U32, p: Ports)
    requires ValidFrame(f) && f.identifier.kind != STATE
    ensures Dispatch(n, f, now, p).states == n.states
  {
    hide Dispatch;
    DispatchTouches(n, f, now, p);
  }

  lemma {:induction false} ReceivingTells(n: Node, raw: RawCanFrame, now: U32, p: Ports, listener: Listener)
    requires Registrations(n.registry.stateListeners, listener) == 1
    ensures Heard(Receive(n, raw, now, p).states, listener)
            == Heard(n.states, listener)
               + if Resolves(n, Received(raw, now, p), listener.entity) then [ReadingOf(raw)] else []
  {
    hide Registrations, Notify, Decode, EntityFor, Heard, Dispatch;
    if Decode(raw).Success? {
      var f := Decode(raw).value;
      var heard := HearNode(n, f.identifier.source, now);
      DecodedState(raw);
      if f.identifier.kind != STATE {
        OtherFramesTellNothing(heard, f, now, p);
      } else {
        StateDispatched(n, f, now, p);
        StateIsHeard(heard, f.identifier.source, f.payload.bytes, listener);
      }
    }
  }

  lemma DecodedState(raw: RawCanFrame)
    requires Decode(raw).Success?
    ensures ValidFrame(Decode(raw).value) && Decode(raw).value.payload.bytes == raw.data
  {
    EncodeDecoded(raw);
  }

  lemma StateDispatched(n: Node, f: ProtocolFrame, now: U32, p: Ports)
    requires ValidFrame(f) && f.identifier.kind == STATE
    ensures var heard := HearNode(n, f.identifier.source, now);
            && Dispatch(heard, f, now, p) == HandleState(heard, f.identifier.source, f.payload.bytes)
            && EntityFor(heard, f.identifier.source, f.payload.bytes[1])
               == EntityFor(n, f.identifier.source, f.payload.bytes[1])
            && heard.registry == n.registry && heard.states == n.states
  {
    hide HandleState;
  }

  lemma {:induction false} StateIsHeard(n: Node, source: NodeAddress, b: Bytes8, listener: Listener)
    requires Registrations(n.registry.stateListeners, listener) == 1
    ensures Heard(HandleState(n, source, b).states, listener)
            == Heard(n.states, listener)
               + if EntityFor(n, source, b[1]) == Some(listener.entity) then [Reading(SlotValue(b), b[3])] else []
  {
    hide Registrations, Notify, EntityFor;
    match EntityFor(n, source, b[1])
    case None =>
    case Some(entity) =>
      var told := Notify(n.registry.stateListeners, entity, SlotValue(b), b[3]);
      NotifyIsHeard(n.registry.stateListeners, entity, SlotValue(b), b[3], listener);
      HeardConcat(n.states, told, listener);
  }

  lemma OtherCallsTellNothing(n: Node, input: Input)
    requires !input.Received?
    ensures Step(n, input).states == n.states
  {
    hide Tick, PublishState, PublishEvent, Enqueue, Drain;
    match input
    case Ticked(now, ports) => TickFrame(n, now, ports);
    case StatePublished(endpoint, value, flags) => PublicationKeepsRegistry(n, endpoint, value, flags);
    case EventPublished(endpoint, value, flags) => PublicationKeepsRegistry(n, endpoint, value, flags);
    case _ =>
  }

  predicate ArrivesFor(input: Input, key: Key) { input.Received? && KeyOf(input.raw) == Some(key) }

  /** The frames of one key that reached the observer, in order. */
  function Arrived(inputs: seq<Input>, key: Key): seq<RawCanFrame> {
    if inputs == [] then []
    else
      var last := inputs[|inputs| - 1];
      Arrived(inputs[..|inputs| - 1], key) + if ArrivesFor(last, key) then [last.raw] else []
  }

  /** If the call delivers a STATE of the key, the directory has the entity, and it alone, at the place
      the frame is from; if it delivers another STATE, that is from elsewhere. */
  predicate Suits(n: Node, input: Input, entity: EntityId, key: Key) {
    input.Received? && Decode(input.raw).Success? && Decode(input.raw).value.identifier.kind == STATE ==>
      var source, endpoint := Decode(input.raw).value.identifier.source, Decode(input.raw).value.payload.bytes[1];
      if ArrivesFor(input, key) then Locates(n, entity, source, endpoint)
      else !Found(n, entity, source, endpoint) && !Mine(n, entity, source, endpoint)
  }

  lemma SuitedResolves(n: Node, input: Input, entity: EntityId, key: Key)
    requires NodeInv(n) && Suits(n, input, entity, key)
    ensures Resolves(n, input, entity) <==> ArrivesFor(input, key)
  {
    hide Decode, EntityFor, Found, Mine;
    if input.Received? && Decode(input.raw).Success? && Decode(input.raw).value.identifier.kind == STATE {
      var source, endpoint := Decode(input.raw).value.identifier.source, Decode(input.raw).value.payload.bytes[1];
      FrameIsAbout(n, source, endpoint, entity);
      if ArrivesFor(input, key) { LocatedIsMeant(n, entity, source, endpoint); }
    }
  }

  /** Throughout the run the key is the one place the entity is found at, whenever a STATE arrives. */
  predicate StableFor(n: Node, inputs: seq<Input>, entity: EntityId, key: Key) {
    inputs != [] ==>
      var before, last := inputs[..|inputs| - 1], inputs[|inputs| - 1];
      StableFor(n, before, entity, key) && Suits(Run(n, before), last, entity, key)
  }

  /** A listener hears exactly what arrives for its entity, unchanged and in order. */
  lemma {:induction false} ListenerHearsArrivals(n: Node, inputs: seq<Input>, listener: Listener, key: Key)
    requires Registrations(n.registry.stateListeners, listener) == 1 && Heard(n.states, listener) == []
    requires NodeInv(n) && StableFor(n, inputs, listener.entity, key)
    ensures NodeInv(Run(n, inputs))
    ensures Registrations(Run(n, inputs).registry.stateListeners, listener) == 1
    ensures Heard(Run(n, inputs).states, listener) == Readings(Arrived(inputs, key))
  {
    hide Step, Registrations, Heard, Resolves, ArrivesFor, Suits, NodeInv;
    if inputs != [] {
      var before, last := inputs[..|inputs| - 1], inputs[|inputs| - 1];
      ListenerHearsArrivals(n, before, listener, key);
      StepRegistrations(Run(n, before), last, listener);
      SuitedResolves(Run(n, before), last, listener.entity, key);
      StepTells(Run(n, before), last, listener);
      StepKeepsInv(Run(n, before), last);
    }
  }

  lemma {:induction false} StepTells(n: Node, input: Input, listener: Listener)
    requires Registrations(n.registry.stateListeners, listener) == 1
    ensures Heard(Step(n, input).states, listener)
            == Heard(n.states, listener) + if Resolves(n, input, listener.entity) then [ReadingOf(input.raw)] else []
  {
    hide Registrations, Heard, Receive, EntityFor, Decode;
    if input.Received? {
      ReceivingTells(n, input.raw, input.now, input.ports, listener);
    } else {
      OtherCallsTellNothing(n, input);
    }
  }

  // ---------------------------------------------------------------- end to end

  lemma {:induction false} SubsequenceReadings(a: seq<RawCanFrame>, b: seq<RawCanFrame>)
    requires Subsequence(a, b)
    ensures Subsequence(Readings(a), Readings(b))
    decreases |b|
  {
    hide ReadingOf;
    if a != [] {
      var a', b' := a[..|a| - 1], b[..|b| - 1];
      assert Readings(a)[..|a| - 1] == Readings(a') && Readings(b)[..|b| - 1] == Readings(b');
      if Subsequence(a, b') {
        SubsequenceReadings(a, b');
      } else {
        SubsequenceReadings(a', b');
      }
    }
  }

  /** A sender whose transmitter never fails, a bus that loses and reorders nothing, and an observer
      that finds the entity at that one place: the listener hears published readings only, in the
      order of publication, value and quality unchanged; and once everything pending has been sent
      and has arrived, the last reading it heard is the last one published. */
  lemma {:induction false} StatesConverge(
    uid: Uid, role: Role, stored: Option<NodeAddress>, saved: bool, inputs: seq<Input>, a: NodeAddress,
    endpoint: EndpointId, observer: Node, observed: seq<Input>, listener: Listener)
    requires Storable(stored) && NothingRefused(inputs) && OnlyPublishes(inputs, Key(a, BROADCAST, endpoint))
    requires Registrations(observer.registry.stateListeners, listener) == 1 && Heard(observer.states, listener) == []
    requires NodeInv(observer) && StableFor(observer, observed, listener.entity, Key(a, BROADCAST, endpoint))
    requires var n, key := Run(Boot(uid, role, stored, saved), inputs), Key(a, BROADCAST, endpoint);
             Arrived(observed, key) <= Of(SentFrames(n.out.wire), key)
    ensures var n, key := Run(Boot(uid, role, stored, saved), inputs), Key(a, BROADCAST, endpoint);
            var heard, published := Heard(Run(observer, observed).states, listener),
                                    Published(Boot(uid, role, stored, saved), inputs, a, endpoint);
            && Subsequence(heard, published)
            && (Arrived(observed, key) == Of(SentFrames(n.out.wire), key)
                && Of(n.out.queues[STATE_QUEUE], key) == [] ==>
                  SameLast(heard, published))
  {
    hide Boot, Step, Run, Of, SentFrames, StableFor, Heard, Registrations, NothingRefused, OnlyPublishes, Published;
    var boot, key := Boot(uid, role, stored, saved), Key(a, BROADCAST, endpoint);
    var n, arrived := Run(boot, inputs), Arrived(observed, key);
    var sent, pending := Of(SentFrames(n.out.wire), key), Of(n.out.queues[STATE_QUEUE], key);
    var accepted := Of(n.out.accepted, key);
    BootConverges(uid, role, stored, saved, key);
    RunConverges(boot, inputs, key);
    AcceptedArePublished(boot, inputs, a, endpoint);
    ListenerHearsArrivals(observer, observed, listener, key);
    assert (sent + pending)[..|arrived|] == arrived;
    SubsequencePrefix(sent + pending, |arrived|, accepted);
    SubsequenceReadings(arrived, accepted);
    if arrived == sent && pending == [] { assert sent + pending == arrived; }
  }

  lemma BootConverges(uid: Uid, role: Role, stored: Option<NodeAddress>, saved: bool, key: Key)
    ensures var n := Boot(uid, role, stored, saved); Converges(n.out, key) && n.out.accepted == []
  {
  }
}
