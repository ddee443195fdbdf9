/** The five bounded transmit queues, STATE coalescing, and draining by priority.

    `accepted`, `placed`, `superseded` and `wire` are traces: what was queued, what of it took a new
    place at the end of its queue, what a newer STATE replaced, and every frame handed to the
    transmitter with its answer, in order. */
module Outboxes {
  import opened Wrappers
  import opened Types
  import opened CanIdentifiers
  import opened WirePayloads
  import opened FrameCodec

  const CLASSES := 5
  const CAPACITY := 8

  /** A call of the transmitter; `queued` when the frame came from a queue. */
  datatype Attempt = Attempt(raw: RawCanFrame, sent: bool, queued: bool)

  datatype Replacement = Replacement(stale: RawCanFrame, newer: RawCanFrame)

  /** Queue `c` holds the traffic class of priority `c + 1`. */
  datatype Outbox = Outbox(
    queues: seq<seq<RawCanFrame>>, accepted: seq<RawCanFrame>, placed: seq<RawCanFrame>, superseded: seq<Replacement>,
    wire: seq<Attempt>)

  datatype Key = Key(source: NodeAddress, destination: NodeAddress, endpoint: EndpointId)

  const EMPTY: Outbox := Outbox([[], [], [], [], []], [], [], [], [])

  function QueueOf(priority: Priority): nat
    requires CONTROL <= priority <= DIAGNOSTIC
  {
    priority - 1
  }

  function FrameKey(frame: ProtocolFrame): Option<Key> {
    if frame.identifier.kind == STATE
    then Some(Key(frame.identifier.source, frame.identifier.destination, frame.payload.bytes[1]))
    else None
  }

  /** The coalescing key of a queued frame, when it is a STATE. */
  function KeyOf(raw: RawCanFrame): Option<Key> {
    match Decode(raw)
    case Success(frame) => FrameKey(frame)
    case Failure(_) => None
  }

  /** Index of the first queued STATE with this key, or the queue's length. */
  function FirstPending(queue: seq<RawCanFrame>, key: Key): (i: nat)
    ensures i <= |queue|
    ensures i < |queue| ==> KeyOf(queue[i]) == Some(key)
    ensures forall j :: 0 <= j < i ==> KeyOf(queue[j]) != Some(key)
  {
    if queue == [] then 0
    else if KeyOf(queue[0]) == Some(key) then 0
    else 1 + FirstPending(queue[1..], key)
  }

  /** Where a frame goes in its queue: the place of a pending STATE with its key, else the end. */
  function Slot(o: Outbox, frame: ProtocolFrame): (slot: nat)
    requires |o.queues| == CLASSES && CONTROL <= frame.identifier.priority <= DIAGNOSTIC
    ensures slot <= |o.queues[QueueOf(frame.identifier.priority)]|
  {
    var queue := o.queues[QueueOf(frame.identifier.priority)];
    match FrameKey(frame)
    case Some(key) => FirstPending(queue, key)
    case None => |queue|
  }

  function Replace(o: Outbox, c: nat, slot: nat, raw: RawCanFrame): Outbox
    requires |o.queues| == CLASSES && c < CLASSES && slot < |o.queues[c]|
  {
    o.(queues := o.queues[c := o.queues[c][slot := raw]],
       accepted := o.accepted + [raw],
       superseded := o.superseded + [Replacement(o.queues[c][slot], raw)])
  }

  function Push(o: Outbox, c: nat, raw: RawCanFrame): Outbox
    requires |o.queues| == CLASSES && c < CLASSES
  {
    o.(queues := o.queues[c := o.queues[c] + [raw]], accepted := o.accepted + [raw], placed := o.placed + [raw])
  }

  /** `enqueue`: the new outbox and the returned flag. */
  function Enqueue(o: Outbox, frame: ProtocolFrame): (Outbox, bool)
    requires |o.queues| == CLASSES
  {
    match Encode(frame)
    case Failure(_) => (o, false)
    case Success(raw) =>
      var c, slot := QueueOf(frame.identifier.priority), Slot(o, frame);
      if slot < |o.queues[c]| then (Replace(o, c, slot, raw), true)
      else if |o.queues[c]| == CAPACITY then (o, false)
      else (Push(o, c, raw), true)
  }

  function Transmit(o: Outbox, raw: RawCanFrame, queued: bool, refused: set<RawCanFrame>): Outbox {
    o.(wire := o.wire + [Attempt(raw, raw !in refused, queued)])
  }

  /** One pop: the head of class `c` is handed to the transmitter. */
  function Pop(o: Outbox, c: nat, refused: set<RawCanFrame>): Outbox
    requires |o.queues| == CLASSES && c < CLASSES && o.queues[c] != []
  {
    Transmit(o.(queues := o.queues[c := o.queues[c][1..]]), o.queues[c][0], true, refused)
  }

  /** `drain_one` from class `c` on: a head the transmitter refuses is dropped, and the next class is tried. */
  function DrainFrom(o: Outbox, c: nat, refused: set<RawCanFrame>): (Outbox, bool)
    requires |o.queues| == CLASSES
    decreases CLASSES - c
  {
    if c >= CLASSES then (o, false)
    else if o.queues[c] == [] then DrainFrom(o, c + 1, refused)
    else
      var popped := Pop(o, c, refused);
      if o.queues[c][0] !in refused then (popped, true) else DrainFrom(popped, c + 1, refused)
  }

  function Drain(o: Outbox, refused: set<RawCanFrame>): (Outbox, bool)
    requires |o.queues| == CLASSES
  {
    DrainFrom(o, 0, refused)
  }

  // ---------------------------------------------------------------- invariant

  predicate DistinctKeys(queue: seq<RawCanFrame>) {
    forall i, j :: 0 <= i < j < |queue| && KeyOf(queue[i]).Some? ==> KeyOf(queue[i]) != KeyOf(queue[j])
  }

  /** A queued frame decodes, to its own queue's priority. */
  predicate InClass(raw: RawCanFrame, c: nat) {
    Decode(raw).Success? && Decode(raw).value.identifier.priority == c + 1
  }

  predicate QueueOk(queue: seq<RawCanFrame>, c: nat) {
    && |queue| <= CAPACITY
    && (forall i :: 0 <= i < |queue| ==> InClass(queue[i], c))
    && DistinctKeys(queue)
  }

  ghost predicate Shaped(o: Outbox) {
    && |o.queues| == CLASSES
    && (forall c :: 0 <= c < CLASSES ==> QueueOk(o.queues[c], c))
  }

  /** Frames drained with the given answer of the transmitter. */
  ghost function Drained(wire: seq<Attempt>, sent: bool): multiset<RawCanFrame> {
    if wire == [] then multiset{}
    else
      var last := wire[|wire| - 1];
      Drained(wire[..|wire| - 1], sent) + (if last.queued && last.sent == sent then multiset{last.raw} else multiset{})
  }

  ghost function Stale(superseded: seq<Replacement>): multiset<RawCanFrame> {
    if superseded == [] then multiset{}
    else Stale(superseded[..|superseded| - 1]) + multiset{superseded[|superseded| - 1].stale}
  }

  ghost function Pending(queues: seq<seq<RawCanFrame>>): multiset<RawCanFrame>
    requires |queues| == CLASSES
  {
    multiset(queues[0]) + multiset(queues[1]) + multiset(queues[2]) + multiset(queues[3]) + multiset(queues[4])
  }

  /** Every accepted frame was transmitted, refused, superseded, or is still queued, as often as it
      was accepted. */
  ghost predicate Conserved(o: Outbox)
    requires |o.queues| == CLASSES
  {
    forall r :: ConservedAt(o, r)
  }

  ghost predicate ConservedAt(o: Outbox, r: RawCanFrame)
    requires |o.queues| == CLASSES
  {
    multiset(o.accepted)[r]
    == Drained(o.wire, true)[r] + Drained(o.wire, false)[r] + Stale(o.superseded)[r] + Pending(o.queues)[r]
  }

  /** Only a STATE is ever superseded, and only by a STATE with its own key. */
  predicate OnlyStatesSuperseded(o: Outbox) {
    forall i :: 0 <= i < |o.superseded| ==>
      KeyOf(o.superseded[i].stale).Some? && KeyOf(o.superseded[i].stale) == KeyOf(o.superseded[i].newer)
  }

  ghost predicate OutboxInv(o: Outbox) { Shaped(o) && Conserved(o) && OnlyStatesSuperseded(o) }

  lemma EmptyOutboxInv()
    ensures OutboxInv(EMPTY)
  {
  }

  lemma {:induction false} DrainedAppend(wire: seq<Attempt>, a: Attempt, sent: bool)
    ensures Drained(wire + [a], sent)
            == Drained(wire, sent) + (if a.queued && a.sent == sent then multiset{a.raw} else multiset{})
  {
    assert (wire + [a])[..|wire|] == wire;
  }

  lemma PendingUpdate(queues: seq<seq<RawCanFrame>>, c: nat, queue: seq<RawCanFrame>, r: RawCanFrame)
    requires |queues| == CLASSES && c < CLASSES
    ensures Pending(queues[c := queue])[r] + multiset(queues[c])[r] == Pending(queues)[r] + multiset(queue)[r]
  {
  }

  /** A frame the code encodes for a queue is of that queue's class, and keeps its key. */
  lemma EncodedFits(frame: ProtocolFrame)
    requires Encode(frame).Success?
    ensures CONTROL <= frame.identifier.priority <= DIAGNOSTIC
    ensures InClass(Encode(frame).value, QueueOf(frame.identifier.priority))
    ensures KeyOf(Encode(frame).value) == FrameKey(frame)
  {
    DecodeEncoded(frame);
    EncodedClass(frame);
  }

  lemma {:induction false} PushOk(queue: seq<RawCanFrame>, c: nat, raw: RawCanFrame)
    requires QueueOk(queue, c) && InClass(raw, c) && |queue| < CAPACITY
    requires KeyOf(raw).Some? ==> FirstPending(queue, KeyOf(raw).value) == |queue|
    ensures QueueOk(queue + [raw], c)
  {
  }

  lemma ReplaceOk(queue: seq<RawCanFrame>, c: nat, slot: nat, raw: RawCanFrame)
    requires QueueOk(queue, c) && InClass(raw, c) && slot < |queue|
    requires KeyOf(queue[slot]) == KeyOf(raw)
    ensures QueueOk(queue[slot := raw], c)
  {
  }

  lemma PopOk(queue: seq<RawCanFrame>, c: nat)
    requires QueueOk(queue, c) && queue != []
    ensures QueueOk(queue[1..], c)
  {
  }

  lemma EnqueueKeepsShape(o: Outbox, frame: ProtocolFrame)
    requires Shaped(o)
    ensures Shaped(Enqueue(o, frame).0)
  {
    match Encode(frame)
    case Failure(_) =>
    case Success(raw) =>
      EncodedFits(frame);
      var c, slot := QueueOf(frame.identifier.priority), Slot(o, frame);
      if slot < |o.queues[c]| {
        ReplaceOk(o.queues[c], c, slot, raw);
      } else if |o.queues[c]| < CAPACITY {
        PushOk(o.queues[c], c, raw);
      }
  }

  lemma EnqueueSupersedesStates(o: Outbox, frame: ProtocolFrame)
    requires |o.queues| == CLASSES && OnlyStatesSuperseded(o)
    ensures OnlyStatesSuperseded(Enqueue(o, frame).0)
  {
    if Encode(frame).Success? { EncodedFits(frame); }
  }

  lemma ReplaceConserves(o: Outbox, c: nat, slot: nat, raw: RawCanFrame)
    requires |o.queues| == CLASSES && Conserved(o) && c < CLASSES && slot < |o.queues[c]|
    ensures Conserved(Replace(o, c, slot, raw))
  {
    var o' := Replace(o, c, slot, raw);
    StaleAppend(o.superseded, Replacement(o.queues[c][slot], raw));
    forall r ensures ConservedAt(o', r) {
      assert ConservedAt(o, r);
      PendingUpdate(o.queues, c, o.queues[c][slot := raw], r);
    }
  }

  lemma PushConserves(o: Outbox, c: nat, raw: RawCanFrame)
    requires |o.queues| == CLASSES && Conserved(o) && c < CLASSES
    ensures Conserved(Push(o, c, raw))
  {
    var o' := Push(o, c, raw);
    forall r ensures ConservedAt(o', r) {
      assert ConservedAt(o, r);
      PendingUpdate(o.queues, c, o.queues[c] + [raw], r);
    }
  }

  lemma EnqueueConserves(o: Outbox, frame: ProtocolFrame)
    requires |o.queues| == CLASSES && Conserved(o)
    ensures Conserved(Enqueue(o, frame).0)
  {
    match Encode(frame)
    case Failure(_) =>
    case Success(raw) =>
      EncodedFits(frame);
      var c, slot := QueueOf(frame.identifier.priority), Slot(o, frame);
      if slot < |o.queues[c]| { ReplaceConserves(o, c, slot, raw); } else { PushConserves(o, c, raw); }
  }

  lemma {:induction false} StaleAppend(superseded: seq<Replacement>, r: Replacement)
    ensures Stale(superseded + [r]) == Stale(superseded) + multiset{r.stale}
  {
    assert (superseded + [r])[..|superseded|] == superseded;
  }

  lemma EnqueueKeepsInv(o: Outbox, frame: ProtocolFrame)
    requires OutboxInv(o)
    ensures OutboxInv(Enqueue(o, frame).0)
  {
    EnqueueKeepsShape(o, frame);
    EnqueueConserves(o, frame);
    EnqueueSupersedesStates(o, frame);
  }

  /** A frame is accepted exactly when it is encodable and its queue has room or holds a STATE with its
      key. Accepted, it is in its queue; what it does not supersede keeps its place, and no other
      queue changes. Refused, it changes nothing. */
  lemma EnqueueAnswers(o: Outbox, frame: ProtocolFrame)
    requires Shaped(o)
    ensures Encode(frame).Success? ==> CONTROL <= frame.identifier.priority <= DIAGNOSTIC
    ensures Enqueue(o, frame).1 <==>
              && Encode(frame).Success?
              && var c := QueueOf(frame.identifier.priority);
                 || |o.queues[c]| < 8
                 || exists i :: 0 <= i < |o.queues[c]| && KeyOf(o.queues[c][i]).Some?
                      && KeyOf(o.queues[c][i]) == FrameKey(frame)
    ensures !Enqueue(o, frame).1 ==> Enqueue(o, frame).0 == o
    ensures Enqueue(o, frame).1 ==>
              var c, raw := QueueOf(frame.identifier.priority), Encode(frame).value;
              var o' := Enqueue(o, frame).0;
              && raw in o'.queues[c] && o'.accepted == o.accepted + [raw] && o'.wire == o.wire
              && (forall i :: 0 <= i < |o.queues[c]| ==>
                    o'.queues[c][i] == o.queues[c][i]
                        || (o'.queues[c][i] == raw && KeyOf(o.queues[c][i]) == KeyOf(raw)))
              && (forall k :: 0 <= k < CLASSES && k != c ==> o'.queues[k] == o.queues[k])
  {
    hide Encode, KeyOf, InClass, DistinctKeys;
    if Encode(frame).Success? {
      EncodedFits(frame);
      var raw, c, slot := Encode(frame).value, QueueOf(frame.identifier.priority), Slot(o, frame);
      assert QueueOk(o.queues[c], c);
      var o' := Enqueue(o, frame).0;
      if slot < |o.queues[c]| {
        assert o'.queues[c][slot] == raw;
      } else if |o.queues[c]| < CAPACITY {
        assert o'.queues[c][|o.queues[c]|] == raw;
      }
    }
  }

  lemma TransmitKeepsInv(o: Outbox, raw: RawCanFrame, refused: set<RawCanFrame>)
    requires OutboxInv(o)
    ensures OutboxInv(Transmit(o, raw, false, refused))
  {
    var a := Attempt(raw, raw !in refused, false);
    DrainedAppend(o.wire, a, true);
    DrainedAppend(o.wire, a, false);
    var o' := Transmit(o, raw, false, refused);
    forall r ensures ConservedAt(o', r) {
      assert ConservedAt(o, r);
    }
  }

  lemma PopConserves(o: Outbox, c: nat, refused: set<RawCanFrame>)
    requires |o.queues| == CLASSES && c < CLASSES && o.queues[c] != [] && Conserved(o)
    ensures Conserved(Pop(o, c, refused))
  {
    var queue, o' := o.queues[c], Pop(o, c, refused);
    var a := Attempt(queue[0], queue[0] !in refused, true);
    DrainedAppend(o.wire, a, true);
    DrainedAppend(o.wire, a, false);
    assert queue == [queue[0]] + queue[1..];
    forall r ensures ConservedAt(o', r) {
      assert ConservedAt(o, r);
      PendingUpdate(o.queues, c, queue[1..], r);
    }
  }

  lemma PopKeepsShape(o: Outbox, c: nat, refused: set<RawCanFrame>)
    requires Shaped(o) && c < CLASSES && o.queues[c] != []
    ensures Shaped(Pop(o, c, refused))
  {
    hide QueueOk;
    assert QueueOk(o.queues[c], c);
    PopOk(o.queues[c], c);
  }

  lemma PopKeepsInv(o: Outbox, c: nat, refused: set<RawCanFrame>)
    requires OutboxInv(o) && c < CLASSES && o.queues[c] != []
    ensures OutboxInv(Pop(o, c, refused))
  {
    PopKeepsShape(o, c, refused);
    PopConserves(o, c, refused);
  }

  lemma {:induction false} DrainKeepsInv(o: Outbox, c: nat, refused: set<RawCanFrame>)
    requires OutboxInv(o)
    ensures OutboxInv(DrainFrom(o, c, refused).0)
    decreases CLASSES - c
  {
    if c >= CLASSES {
    } else if o.queues[c] == [] {
      DrainKeepsInv(o, c + 1, refused);
    } else {
      PopKeepsInv(o, c, refused);
      DrainKeepsInv(Pop(o, c, refused), c + 1, refused);
    }
  }

  // ---------------------------------------------------------------- priority order

  /** How many classes, from the front, a drain visits without success before the first head taken. */
  function FirstTaken(queues: seq<seq<RawCanFrame>>, refused: set<RawCanFrame>): (s: nat)
    ensures s <= |queues|
    ensures s < |queues| ==> queues[s] != [] && queues[s][0] !in refused
    ensures forall k :: 0 <= k < s ==> queues[k] == [] || queues[k][0] in refused
  {
    if queues == [] || (queues[0] != [] && queues[0][0] !in refused) then 0
    else 1 + FirstTaken(queues[1..], refused)
  }

  /** The heads of the nonempty classes, up to and including the first one taken. */
  function Heads(queues: seq<seq<RawCanFrame>>, refused: set<RawCanFrame>): seq<Attempt> {
    if queues == [] then []
    else if queues[0] == [] then Heads(queues[1..], refused)
    else if queues[0][0] !in refused then [Attempt(queues[0][0], true, true)]
    else [Attempt(queues[0][0], false, true)] + Heads(queues[1..], refused)
  }

  lemma {:induction false} DrainStops(o: Outbox, c: nat, refused: set<RawCanFrame>)
    requires |o.queues| == CLASSES && c <= CLASSES
    ensures |DrainFrom(o, c, refused).0.queues| == CLASSES
    ensures DrainFrom(o, c, refused).1 <==> c + FirstTaken(o.queues[c..], refused) < CLASSES
    decreases CLASSES - c
  {
    if c < CLASSES {
      assert o.queues[c..][1..] == o.queues[c + 1..];
      if o.queues[c] == [] {
        DrainStops(o, c + 1, refused);
      } else if o.queues[c][0] in refused {
        assert Pop(o, c, refused).queues[c + 1..] == o.queues[c + 1..];
        DrainStops(Pop(o, c, refused), c + 1, refused);
      }
    }
  }

  lemma {:induction false} DrainBeheads(o: Outbox, c: nat, refused: set<RawCanFrame>, k: nat)
    requires |o.queues| == CLASSES && c <= CLASSES && k < CLASSES
    ensures var o' := DrainFrom(o, c, refused).0;
            var taken := c + FirstTaken(o.queues[c..], refused);
            && |o'.queues| == CLASSES
            && o'.queues[k] == if c <= k <= taken && o.queues[k] != [] then o.queues[k][1..] else o.queues[k]
    decreases CLASSES - c
  {
    DrainStops(o, c, refused);
    if c < CLASSES {
      assert o.queues[c..][1..] == o.queues[c + 1..];
      if o.queues[c] == [] {
        DrainBeheads(o, c + 1, refused, k);
      } else if o.queues[c][0] in refused {
        assert Pop(o, c, refused).queues[c + 1..] == o.queues[c + 1..];
        DrainBeheads(Pop(o, c, refused), c + 1, refused, k);
      }
    }
  }

  lemma PopLeavesRest(o: Outbox, c: nat, refused: set<RawCanFrame>)
    requires |o.queues| == CLASSES && c < CLASSES && o.queues[c] != []
    ensures Pop(o, c, refused).queues[c + 1..] == o.queues[c + 1..]
  {
  }

  /** One class more or less. */
  lemma {:induction false} HeadsFrom(queues: seq<seq<RawCanFrame>>, c: nat, refused: set<RawCanFrame>)
    requires c < |queues|
    ensures Heads(queues[c..], refused)
            == if queues[c] == [] then Heads(queues[c + 1..], refused)
               else if queues[c][0] !in refused then [Attempt(queues[c][0], true, true)]
               else [Attempt(queues[c][0], false, true)] + Heads(queues[c + 1..], refused)
  {
    assert queues[c..][1..] == queues[c + 1..];
  }

  lemma DrainFromNext(o: Outbox, c: nat, refused: set<RawCanFrame>)
    requires |o.queues| == CLASSES && c < CLASSES
    ensures DrainFrom(o, c, refused).0
            == if o.queues[c] == [] then DrainFrom(o, c + 1, refused).0
               else if o.queues[c][0] !in refused then Pop(o, c, refused)
               else DrainFrom(Pop(o, c, refused), c + 1, refused).0
  {
  }

  lemma PopHandsOver(o: Outbox, c: nat, refused: set<RawCanFrame>)
    requires |o.queues| == CLASSES && c < CLASSES && o.queues[c] != []
    ensures var o' := Pop(o, c, refused);
            && o'.wire == o.wire + [Attempt(o.queues[c][0], o.queues[c][0] !in refused, true)]
            && o'.accepted == o.accepted && o'.superseded == o.superseded && |o'.queues| == CLASSES
  {
  }

  lemma {:induction false} NoHeads(queues: seq<seq<RawCanFrame>>, refused: set<RawCanFrame>)
    requires |queues| == CLASSES
    ensures Heads(queues[CLASSES..], refused) == []
  {
  }

  lemma {:induction false} DrainHandsOverHeads(o: Outbox, c: nat, refused: set<RawCanFrame>)
    requires |o.queues| == CLASSES && c <= CLASSES
    ensures var o' := DrainFrom(o, c, refused).0;
            && o'.wire == o.wire + Heads(o.queues[c..], refused)
            && o'.accepted == o.accepted && o'.superseded == o.superseded
    decreases CLASSES - c
  {
    hide Heads, Pop;
    if c == CLASSES {
      NoHeads(o.queues, refused);
    } else {
      hide DrainFrom;
      HeadsFrom(o.queues, c, refused);
      DrainFromNext(o, c, refused);
      if o.queues[c] == [] {
        DrainHandsOverHeads(o, c + 1, refused);
      } else {
        PopHandsOver(o, c, refused);
        if o.queues[c][0] in refused {
          PopLeavesRest(o, c, refused);
          DrainHandsOverHeads(Pop(o, c, refused), c + 1, refused);
        }
      }
    }
  }

  /** With any transmitter a drain pops exactly one head from every nonempty class up to and
      including the first success, hands them over in class order, and touches nothing else. */
  lemma {:induction false} DrainPopsUpToFirstSuccess(o: Outbox, refused: set<RawCanFrame>, k: nat)
    requires |o.queues| == CLASSES && k < CLASSES
    ensures var (o', sent) := Drain(o, refused);
            var taken := FirstTaken(o.queues, refused);
            && (sent <==> taken < CLASSES)
            && |o'.queues| == CLASSES && o'.accepted == o.accepted && o'.superseded == o.superseded
            && o'.queues[k] == (if k <= taken && o.queues[k] != [] then o.queues[k][1..] else o.queues[k])
            && o'.wire == o.wire + Heads(o.queues, refused)
  {
    assert o.queues[0..] == o.queues;
    DrainStops(o, 0, refused);
    DrainBeheads(o, 0, refused, k);
    DrainHandsOverHeads(o, 0, refused);
  }

  /** Queued frames of a well-shaped outbox show their class in their top three bits. */
  lemma QueuedClass(o: Outbox, k: nat, i: nat)
    requires Shaped(o) && k < CLASSES && i < |o.queues[k]|
    ensures o.queues[k][i].canId / 0x400_0000 == k + 1
  {
    assert QueueOk(o.queues[k], k) && InClass(o.queues[k][i], k);
    EncodeDecoded(o.queues[k][i]);
    EncodedClass(Decode(o.queues[k][i]).value);
  }

  lemma HeadIsMostUrgent(o: Outbox, c: nat)
    requires Shaped(o) && c < CLASSES && o.queues[c] != [] && forall k :: 0 <= k < c ==> o.queues[k] == []
    ensures forall k, i :: 0 <= k < CLASSES && 0 <= i < |o.queues[k]| ==>
              o.queues[c][0].canId / 0x400_0000 <= o.queues[k][i].canId / 0x400_0000
  {
    forall k, i | 0 <= k < CLASSES && 0 <= i < |o.queues[k]|
      ensures o.queues[c][0].canId / 0x400_0000 <= o.queues[k][i].canId / 0x400_0000
    {
      QueuedClass(o, k, i);
      QueuedClass(o, c, 0);
    }
  }

  /** A reliable drain skips empty classes and pops the first nonempty one, if there is one. */
  lemma {:induction false} ReliableDrain(o: Outbox, c: nat)
    requires |o.queues| == CLASSES && c <= CLASSES
    ensures DrainFrom(o, c, {}).1 <==> exists k :: c <= k < CLASSES && o.queues[k] != []
    ensures !DrainFrom(o, c, {}).1 ==> DrainFrom(o, c, {}).0 == o
    ensures DrainFrom(o, c, {}).1 ==>
              exists s :: (c <= s < CLASSES && o.queues[s] != [] && DrainFrom(o, c, {}).0 == Pop(o, s, {})
                           && forall k :: c <= k < s ==> o.queues[k] == [])
    decreases CLASSES - c
  {
    if c < CLASSES && o.queues[c] == [] {
      ReliableDrain(o, c + 1);
    }
  }

  /** With a transmitter that takes everything, a drain sends exactly one frame iff any is queued:
      the head of its class, whose top three bits are minimal over every queued frame. */
  lemma DrainSendsMostUrgent(o: Outbox)
    requires Shaped(o)
    ensures Drain(o, {}).1 <==> exists c :: 0 <= c < CLASSES && o.queues[c] != []
    ensures !Drain(o, {}).1 ==> Drain(o, {}).0 == o
    ensures Drain(o, {}).1 ==>
              exists c :: (0 <= c < CLASSES && o.queues[c] != [] && Drain(o, {}).0 == Pop(o, c, {})
                           && forall k, i :: 0 <= k < CLASSES && 0 <= i < |o.queues[k]| ==>
                                o.queues[c][0].canId / 0x400_0000 <= o.queues[k][i].canId / 0x400_0000)
  {
    ReliableDrain(o, 0);
    if Drain(o, {}).1 {
      var c :| 0 <= c < CLASSES && o.queues[c] != [] && Drain(o, {}).0 == Pop(o, c, {})
               && forall k :: 0 <= k < c ==> o.queues[k] == [];
      HeadIsMostUrgent(o, c);
    }
  }

  function TopBits(a: Attempt): nat { a.raw.canId / 0x400_0000 }

  predicate Ascending(heads: seq<Attempt>, low: nat) {
    && (forall i :: 0 <= i < |heads| ==> TopBits(heads[i]) >= low)
    && (forall i, j :: 0 <= i < j < |heads| ==> TopBits(heads[i]) < TopBits(heads[j]))
  }

  lemma AscendingCons(head: Attempt, rest: seq<Attempt>, low: nat)
    requires TopBits(head) == low && Ascending(rest, low + 1)
    ensures Ascending([head] + rest, low) && Ascending([head], low) && Ascending(rest, low)
  {
    hide TopBits;
  }

  lemma {:induction false} HeadsAscend(o: Outbox, c: nat, refused: set<RawCanFrame>)
    requires |o.queues| == CLASSES && Shaped(o) && c <= CLASSES
    ensures Ascending(Heads(o.queues[c..], refused), c + 1)
    decreases CLASSES - c
  {
    hide Shaped, Ascending;
    if c < CLASSES {
      assert o.queues[c..][1..] == o.queues[c + 1..];
      HeadsAscend(o, c + 1, refused);
      var rest := Heads(o.queues[c + 1..], refused);
      if o.queues[c] != [] {
        QueuedClass(o, c, 0);
        AscendingCons(Attempt(o.queues[c][0], o.queues[c][0] !in refused, true), rest, c + 1);
      } else {
        AscendingWeaker(rest, c + 1);
      }
    } else {
      NothingAscends(c + 1);
    }
  }

  lemma AscendingWeaker(heads: seq<Attempt>, low: nat)
    requires Ascending(heads, low + 1)
    ensures Ascending(heads, low)
  {
  }

  lemma NothingAscends(low: nat)
    ensures Ascending([], low)
  {
  }

  /** No drain hands the same frame over twice, so a set of refused frames describes every transmitter. */
  lemma {:induction false} DrainNeverRepeats(o: Outbox, refused: set<RawCanFrame>, i: nat, j: nat)
    requires |o.queues| == CLASSES && Shaped(o) && i < j < |Heads(o.queues, refused)|
    ensures Drain(o, refused).0.wire == o.wire + Heads(o.queues, refused)
    ensures Heads(o.queues, refused)[i].raw != Heads(o.queues, refused)[j].raw
  {
    hide Shaped, Heads;
    assert o.queues[0..] == o.queues;
    HeadsAscend(o, 0, refused);
    DrainHandsOverHeads(o, 0, refused);
  }
}
