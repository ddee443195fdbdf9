/** Frames leave their class in the order they came, and states in the order of their places, whatever
    the transmitter does. */
module Fifo {
  import opened Wrappers
  import opened Types
  import opened CanIdentifiers
  import opened WirePayloads
  import opened FrameCodec
  import opened Outboxes
  import opened Directories
  import opened Nodes
  import opened NodeFrames
  import opened NodeInvariants

  /** The class a raw frame shows in its top three bits. */
  predicate ShowsClass(raw: RawCanFrame, c: nat) { raw.canId / 0x400_0000 == c + 1 }

  function AcceptedIn(frames: seq<RawCanFrame>, c: nat): seq<RawCanFrame> {
    if frames == [] then []
    else
      var last := frames[|frames| - 1];
      AcceptedIn(frames[..|frames| - 1], c) + if ShowsClass(last, c) then [last] else []
  }

  /** What was taken off queue `c` and handed to the transmitter, accepted by it or not. */
  function HandedOver(wire: seq<Attempt>, c: nat): seq<RawCanFrame> {
    if wire == [] then []
    else
      var last := wire[|wire| - 1];
      HandedOver(wire[..|wire| - 1], c) + if last.queued && ShowsClass(last.raw, c) then [last.raw] else []
  }

  /** Only the class of STATE coalesces. */
  ghost predicate InOrder(o: Outbox, c: nat) {
    && |o.queues| == CLASSES && c < CLASSES && Shaped(o)
    && AcceptedIn(o.accepted, c) == HandedOver(o.wire, c) + o.queues[c]
  }

  lemma {:induction false} AcceptedAppend(frames: seq<RawCanFrame>, raw: RawCanFrame, c: nat)
    ensures AcceptedIn(frames + [raw], c)
            == if ShowsClass(raw, c) then AcceptedIn(frames, c) + [raw] else AcceptedIn(frames, c)
  {
    assert (frames + [raw])[..|frames|] == frames;
  }

  lemma {:induction false} HandedOverAppend(wire: seq<Attempt>, a: Attempt, c: nat)
    ensures HandedOver(wire + [a], c)
            == if a.queued && ShowsClass(a.raw, c) then HandedOver(wire, c) + [a.raw] else HandedOver(wire, c)
  {
    assert (wire + [a])[..|wire|] == wire;
  }

  lemma EncodedShowsClass(f: ProtocolFrame, c: nat)
    requires Encode(f).Success?
    ensures CONTROL <= f.identifier.priority <= DIAGNOSTIC
    ensures ShowsClass(Encode(f).value, c) <==> c == QueueOf(f.identifier.priority)
    ensures FrameKey(f).Some? ==> f.identifier.priority == STATE_QUERY
  {
    EncodedClass(f);
    DecodeEncoded(f);
  }

  lemma EnqueueInOrder(o: Outbox, f: ProtocolFrame, c: nat)
    requires InOrder(o, c) && c != QueueOf(STATE_QUERY)
    ensures InOrder(Enqueue(o, f).0, c)
  {
    hide Encode, Shaped, ShowsClass, AcceptedIn, HandedOver, FirstPending, FrameKey;
    EnqueueKeepsShape(o, f);
    if Encode(f).Success? {
      EncodedShowsClass(f, c);
      AcceptedAppend(o.accepted, Encode(f).value, c);
    }
  }

  lemma PopInOrder(o: Outbox, k: nat, refused: set<RawCanFrame>, c: nat)
    requires InOrder(o, c) && k < CLASSES && o.queues[k] != []
    ensures InOrder(Pop(o, k, refused), c)
  {
    hide Shaped, AcceptedIn, HandedOver;
    var head := o.queues[k][0];
    PopKeepsShape(o, k, refused);
    QueuedClass(o, k, 0);
    HandedOverAppend(o.wire, Attempt(head, head !in refused, true), c);
    assert o.queues[k] == [head] + o.queues[k][1..];
  }

  lemma DirectInOrder(o: Outbox, raw: RawCanFrame, refused: set<RawCanFrame>, c: nat)
    requires InOrder(o, c)
    ensures InOrder(Transmit(o, raw, false, refused), c)
  {
    HandedOverAppend(o.wire, Attempt(raw, raw !in refused, false), c);
  }

  ghost function InOrderInv(c: nat): Outbox -> bool { o => InOrder(o, c) }

  lemma InOrderKept(a: Author, c: nat)
    requires c != QueueOf(STATE_QUERY)
    ensures Kept(a, InOrderInv(c))
  {
    hide Enqueue, Encode, Shaped, Pop, Transmit;
    forall o, f | InOrder(o, c) ensures InOrder(Enqueue(o, f).0, c) { EnqueueInOrder(o, f, c); }
    forall o, k | InOrder(o, c) && 0 <= k < CLASSES && o.queues[k] != [] ensures InOrder(Pop(o, k, a.refused), c) {
      PopInOrder(o, k, a.refused, c);
    }
    forall o, f | InOrder(o, c) && Encode(f).Success?
      ensures InOrder(Transmit(o, Encode(f).value, false, a.refused), c)
    {
      DirectInOrder(o, Encode(f).value, a.refused, c);
    }
  }

  /** In every run, whatever the transmitter refuses: what a class has handed over is a prefix of what
      it accepted, in that order and without gaps, and the rest is its queue. */
  lemma {:induction false} ClassesAreFifo(
    uid: Uid, role: Role, stored: Option<NodeAddress>, saved: bool, inputs: seq<Input>, c: nat)
    requires c < CLASSES && c != QueueOf(STATE_QUERY)
    ensures var o := Run(Boot(uid, role, stored, saved), inputs).out;
            InOrder(o, c) && AcceptedIn(o.accepted, c) == HandedOver(o.wire, c) + o.queues[c]
  {
    hide Step, Kept, Shaped, Enqueue;
    var n := Boot(uid, role, stored, saved);
    if inputs == [] {
      EmptyInOrder(uid, role, stored, saved, c);
    } else {
      var before, input := Run(n, inputs[..|inputs| - 1]), inputs[|inputs| - 1];
      ClassesAreFifo(uid, role, stored, saved, inputs[..|inputs| - 1], c);
      InOrderKept(AuthorOf(before, input), c);
      if input.FrameEnqueued? { EnqueueInOrder(before.out, input.frame, c); }
      StepAll(before, input, InOrderInv(c));
    }
  }

  lemma EmptyInOrder(uid: Uid, role: Role, stored: Option<NodeAddress>, saved: bool, c: nat)
    requires c < CLASSES
    ensures InOrder(Boot(uid, role, stored, saved).out, c)
  {
  }

  // ---------------------------------------------------------------- every class, coalescing or not

  /** What keeps its place in a queue: a frame, or the key whose newest STATE has that place. */
  datatype Place = OfFrame(raw: RawCanFrame) | OfKey(key: Key)

  function PlaceOf(raw: RawCanFrame): Place {
    match KeyOf(raw)
    case Some(key) => OfKey(key)
    case None => OfFrame(raw)
  }

  function Places(frames: seq<RawCanFrame>): seq<Place> {
    if frames == [] then [] else Places(frames[..|frames| - 1]) + [PlaceOf(frames[|frames| - 1])]
  }

  /** The places with a frame of their own, which nothing can supersede. */
  function Plain(places: seq<Place>): seq<Place> {
    if places == [] then []
    else
      var last := places[|places| - 1];
      Plain(places[..|places| - 1]) + if last.OfFrame? then [last] else []
  }

  lemma {:induction false} PlacesConcat(a: seq<RawCanFrame>, b: seq<RawCanFrame>)
    ensures Places(a + b) == Places(a) + Places(b)
    decreases |b|
  {
    hide PlaceOf;
    if b == [] {
      assert a + b == a;
    } else {
      assert (a + b)[..|a + b| - 1] == a + b[..|b| - 1];
      PlacesConcat(a, b[..|b| - 1]);
    }
  }

  lemma {:induction false} PlainConcat(a: seq<Place>, b: seq<Place>)
    ensures Plain(a + b) == Plain(a) + Plain(b)
    decreases |b|
  {
    if b == [] {
      assert a + b == a;
    } else {
      assert (a + b)[..|a + b| - 1] == a + b[..|b| - 1];
      PlainConcat(a, b[..|b| - 1]);
    }
  }

  /** A newer STATE takes the place of the older one. */
  lemma {:induction false} PlacesReplaced(queue: seq<RawCanFrame>, slot: nat, raw: RawCanFrame)
    requires slot < |queue| && PlaceOf(queue[slot]) == PlaceOf(raw)
    ensures Places(queue[slot := raw]) == Places(queue)
    decreases |queue|
  {
    hide PlaceOf;
    var n := |queue| - 1;
    if slot < n {
      assert queue[slot := raw][..n] == queue[..n][slot := raw];
      PlacesReplaced(queue[..n], slot, raw);
    } else {
      assert queue[slot := raw][..n] == queue[..n];
    }
  }

  /** The places of a class, in the order they were opened, are those handed over and those still
      queued; frames without a key have all opened one of their own, and each other frame has opened
      one or superseded another. */
  ghost predicate PlacesInOrder(o: Outbox, c: nat) {
    && |o.queues| == CLASSES && c < CLASSES && Shaped(o)
    && Places(AcceptedIn(o.placed, c)) == Places(HandedOver(o.wire, c)) + Places(o.queues[c])
    && Plain(Places(AcceptedIn(o.accepted, c))) == Plain(Places(AcceptedIn(o.placed, c)))
    && |o.accepted| == |o.placed| + |o.superseded|
  }

  lemma {:induction false} PlainAppend(frames: seq<RawCanFrame>, raw: RawCanFrame)
    ensures Places(frames + [raw]) == Places(frames) + [PlaceOf(raw)]
    ensures Plain(Places(frames + [raw])) == Plain(Places(frames)) + if KeyOf(raw).None? then [PlaceOf(raw)] else []
  {
    hide KeyOf;
    assert (frames + [raw])[..|frames|] == frames;
    assert (Places(frames) + [PlaceOf(raw)])[..|Places(frames)|] == Places(frames);
  }

  lemma PushKeepsPlaces(o: Outbox, k: nat, raw: RawCanFrame, c: nat)
    requires PlacesInOrder(o, c) && k < CLASSES && Shaped(Push(o, k, raw)) && (ShowsClass(raw, c) <==> k == c)
    ensures PlacesInOrder(Push(o, k, raw), c)
  {
    hide Shaped, ShowsClass, AcceptedIn, HandedOver, Places, Plain, KeyOf, PlaceOf;
    AcceptedAppend(o.accepted, raw, c);
    AcceptedAppend(o.placed, raw, c);
    PlainAppend(AcceptedIn(o.accepted, c), raw);
    PlainAppend(AcceptedIn(o.placed, c), raw);
    PlainAppend(o.queues[c], raw);
  }

  lemma ReplaceKeepsPlaces(o: Outbox, k: nat, slot: nat, raw: RawCanFrame, c: nat)
    requires PlacesInOrder(o, c) && k < CLASSES && slot < |o.queues[k]| && Shaped(Replace(o, k, slot, raw))
    requires KeyOf(raw).Some? && KeyOf(o.queues[k][slot]) == KeyOf(raw) && (ShowsClass(raw, c) <==> k == c)
    ensures PlacesInOrder(Replace(o, k, slot, raw), c)
  {
    hide Shaped, ShowsClass, AcceptedIn, HandedOver, Places, Plain, KeyOf;
    AcceptedAppend(o.accepted, raw, c);
    PlainAppend(AcceptedIn(o.accepted, c), raw);
    PlacesReplaced(o.queues[k], slot, raw);
  }

  lemma EnqueueKeepsPlaces(o: Outbox, f: ProtocolFrame, c: nat)
    requires PlacesInOrder(o, c)
    ensures PlacesInOrder(Enqueue(o, f).0, c)
  {
    hide Encode, Shaped, ShowsClass, AcceptedIn, HandedOver, Places, Plain, KeyOf;
    EnqueueKeepsShape(o, f);
    if Encode(f).Success? {
      EncodedShowsClass(f, c);
      EncodedFits(f);
      var raw, k, slot := Encode(f).value, QueueOf(f.identifier.priority), Slot(o, f);
      if slot < |o.queues[k]| {
        ReplaceKeepsPlaces(o, k, slot, raw, c);
      } else if |o.queues[k]| != CAPACITY {
        PushKeepsPlaces(o, k, raw, c);
      }
    }
  }

  lemma PopKeepsPlaces(o: Outbox, k: nat, refused: set<RawCanFrame>, c: nat)
    requires PlacesInOrder(o, c) && k < CLASSES && o.queues[k] != []
    ensures PlacesInOrder(Pop(o, k, refused), c)
  {
    hide Shaped, AcceptedIn, HandedOver, Places, Plain, KeyOf, PlaceOf;
    var head := o.queues[k][0];
    PopKeepsShape(o, k, refused);
    QueuedClass(o, k, 0);
    HandedOverAppend(o.wire, Attempt(head, head !in refused, true), c);
    PlacesConcat(HandedOver(o.wire, c), [head]);
    PlacesConcat([head], o.queues[k][1..]);
    assert o.queues[k] == [head] + o.queues[k][1..];
  }

  lemma DirectKeepsPlaces(o: Outbox, raw: RawCanFrame, refused: set<RawCanFrame>, c: nat)
    requires PlacesInOrder(o, c)
    ensures PlacesInOrder(Transmit(o, raw, false, refused), c)
  {
    hide QueueOk, AcceptedIn, HandedOver, Places, Plain;
    HandedOverAppend(o.wire, Attempt(raw, raw !in refused, false), c);
  }

  ghost function PlacesInv(c: nat): Outbox -> bool { o => PlacesInOrder(o, c) }

  lemma PlacesKept(a: Author, c: nat)
    ensures Kept(a, PlacesInv(c))
  {
    hide Enqueue, Encode, Shaped, Pop, Transmit;
    forall o, f | PlacesInOrder(o, c) ensures PlacesInOrder(Enqueue(o, f).0, c) { EnqueueKeepsPlaces(o, f, c); }
    forall o, k | PlacesInOrder(o, c) && 0 <= k < CLASSES && o.queues[k] != []
      ensures PlacesInOrder(Pop(o, k, a.refused), c)
    {
      PopKeepsPlaces(o, k, a.refused, c);
    }
    forall o, f | PlacesInOrder(o, c) && Encode(f).Success?
      ensures PlacesInOrder(Transmit(o, Encode(f).value, false, a.refused), c)
    {
      DirectKeepsPlaces(o, Encode(f).value, a.refused, c);
    }
  }

  lemma {:induction false} RunKeepsPlaces(
    uid: Uid, role: Role, stored: Option<NodeAddress>, saved: bool, inputs: seq<Input>, c: nat)
    requires c < CLASSES
    ensures PlacesInOrder(Run(Boot(uid, role, stored, saved), inputs).out, c)
    decreases |inputs|
  {
    hide Step, Kept, Shaped, Enqueue, PlacesInOrder;
    var n := Boot(uid, role, stored, saved);
    if inputs == [] {
      EmptyPlaces(uid, role, stored, saved, c);
    } else {
      var before, input := Run(n, inputs[..|inputs| - 1]), inputs[|inputs| - 1];
      RunKeepsPlaces(uid, role, stored, saved, inputs[..|inputs| - 1], c);
      PlacesKept(AuthorOf(before, input), c);
      if input.FrameEnqueued? { EnqueueKeepsPlaces(before.out, input.frame, c); }
      StepAll(before, input, PlacesInv(c));
    }
  }

  lemma EmptyPlaces(uid: Uid, role: Role, stored: Option<NodeAddress>, saved: bool, c: nat)
    requires c < CLASSES
    ensures PlacesInOrder(Boot(uid, role, stored, saved).out, c)
  {
  }

  /** In every run, for every class and any transmitter: STATEs leave in the order in which their places
      were opened, whatever was coalesced since; and frames that cannot be superseded, requests and
      responses among them, leave in the order they were accepted. */
  lemma {:induction false} PlacesAreFifo(
    uid: Uid, role: Role, stored: Option<NodeAddress>, saved: bool, inputs: seq<Input>, c: nat)
    requires c < CLASSES
    ensures var o := Run(Boot(uid, role, stored, saved), inputs).out;
            && |o.queues| == CLASSES && |o.accepted| == |o.placed| + |o.superseded|
            && Places(AcceptedIn(o.placed, c)) == Places(HandedOver(o.wire, c)) + Places(o.queues[c])
            && Plain(Places(AcceptedIn(o.accepted, c)))
               == Plain(Places(HandedOver(o.wire, c))) + Plain(Places(o.queues[c]))
  {
    hide Run, Boot, Places, Plain, AcceptedIn, HandedOver, Shaped;
    var o := Run(Boot(uid, role, stored, saved), inputs).out;
    RunKeepsPlaces(uid, role, stored, saved, inputs, c);
    PlainConcat(Places(HandedOver(o.wire, c)), Places(o.queues[c]));
  }
}
