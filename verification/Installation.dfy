/** Many nodes and a bus that may lose, duplicate, delay and reorder frames, but forges none. */
module Installations {
  import opened Wrappers
  import opened Types
  import opened CanIdentifiers
  import opened WirePayloads
  import opened FrameCodec
  import opened Outboxes
  import opened Directories
  import opened Nodes
  import opened NodeFrames
  import opened NodeInvariants

  /** The bus holds every frame any transmitter ever took; each may arrive anywhere, at any later
      time, any number of times, or never. */
  datatype Installation = Installation(nodes: seq<Node>, bus: set<RawCanFrame>)

  datatype Event =
    | Call(who: nat, input: Input)
    | Restart(who: nat, saved: bool)

  /** Only bus frames are received, and applications queue frames of any kind but those that say who
      holds an address. */
  predicate Possible(s: Installation, e: Event) {
    && e.who < |s.nodes|
    && (e.Call? && e.input.Received? ==> e.input.raw in s.bus)
    && (e.Call? && e.input.FrameEnqueued? ==> Asserted(e.input.frame).None?)
  }

  function SentOn(wire: seq<Attempt>): set<RawCanFrame> { set a | a in wire && a.sent :: a.raw }

  function NodeAfter(n: Node, e: Event): Node {
    match e
    case Call(_, input) => Step(n, input)
    case Restart(_, saved) => Boot(n.uid, n.role, n.stored, saved)
  }

  function Next(s: Installation, e: Event): Installation
    requires e.who < |s.nodes|
  {
    var n := NodeAfter(s.nodes[e.who], e);
    Installation(s.nodes[e.who := n], s.bus + SentOn(n.out.wire))
  }

  predicate Plays(s: Installation, events: seq<Event>)
    decreases |events|
  {
    events == [] || (Possible(s, events[0]) && Plays(Next(s, events[0]), events[1..]))
  }

  function After(s: Installation, events: seq<Event>): Installation
    requires Plays(s, events)
    decreases |events|
  {
    if events == [] then s else After(Next(s, events[0]), events[1..])
  }

  /** A UID and an address it was given. */
  datatype Holding = Holding(address: NodeAddress, uid: Uid)

  /** What a commissioning frame asserts about who holds an address. */
  function Asserted(f: ProtocolFrame): Option<Holding> {
    var b := f.payload.bytes;
    if f.identifier.kind == ADDRESS_CLAIM then Some(Holding(f.identifier.source, b[..6]))
    else if f.identifier.kind == ADDRESS_CONFLICT then Some(Holding(f.identifier.destination, b[..6]))
    else if f.identifier.kind == ADDRESS_ASSIGN then Some(Holding(AssignedAddress(b), b[..6]))
    else None
  }

  /** The frame asserts nothing false; with `settled`, only claims and conflict notices are regarded. */
  predicate Genuine(held: set<Holding>, settled: bool, raw: RawCanFrame) {
    match Decode(raw)
    case Failure(_) => true
    case Success(f) =>
      Asserted(f).Some? && !(settled && f.identifier.kind == ADDRESS_ASSIGN) ==> Asserted(f).value in held
  }

  ghost predicate GenuineOutbox(o: Outbox, held: set<Holding>, settled: bool) {
    && |o.queues| == CLASSES
    && (forall c, i :: 0 <= c < CLASSES && 0 <= i < |o.queues[c]| ==> Genuine(held, settled, o.queues[c][i]))
    && (forall k :: 0 <= k < |o.wire| && o.wire[k].sent ==> Genuine(held, settled, o.wire[k].raw))
  }

  predicate Rightful(n: Node, held: set<Holding>) {
    && (n.address.Some? ==> Holding(n.address.value, n.uid) in held)
    && (n.stored.Some? ==> Holding(n.stored.value, n.uid) in held)
  }

  /** Addresses are held, and frames speak, only as `held` says. */
  ghost predicate Authentic(s: Installation, held: set<Holding>, settled: bool) {
    && (forall i :: 0 <= i < |s.nodes| ==> Rightful(s.nodes[i], held) && GenuineOutbox(s.nodes[i].out, held, settled))
    && (forall raw :: raw in s.bus ==> Genuine(held, settled, raw))
  }

  predicate Issues(a: Author) {
    Assigns(a)
    && var raw := Encode(AssignFrame(a.address.value, a.found.value, NextFree(a.reserved, 1).value));
       raw.Success? && raw.value !in a.refused
  }

  /** What a call gives away: the next free address, when its assignment is transmitted. */
  function Issued(a: Author): set<Holding> {
    if Issues(a) then {Holding(NextFree(a.reserved, 1).value, a.found.value)} else {}
  }

  // ---------------------------------------------------------------- frames stay genuine

  lemma GenuineGrows(held: set<Holding>, more: set<Holding>, settled: bool, raw: RawCanFrame)
    requires held <= more && Genuine(held, settled, raw)
    ensures Genuine(more, settled, raw)
  {
  }

  lemma OutboxGrows(o: Outbox, held: set<Holding>, more: set<Holding>, settled: bool)
    requires held <= more && GenuineOutbox(o, held, settled)
    ensures GenuineOutbox(o, more, settled)
  {
  }

  lemma AuthoredIsGenuine(a: Author, f: ProtocolFrame, held: set<Holding>, settled: bool)
    requires a.address.Some? ==> Holding(a.address.value, a.uid) in held
    requires settled || Issued(a) <= held
    requires Authored(a, f) && Encode(f).Success?
    requires f.payload.kind == ADDRESS_ASSIGN ==> Encode(f).value !in a.refused
    ensures Genuine(held, settled, Encode(f).value)
  {
    DecodeEncoded(f);
    if f.payload.kind == ADDRESS_ASSIGN { AssignFrameAsserts(a); }
  }

  lemma AssignFrameAsserts(a: Author)
    requires Assigns(a)
    ensures var free := NextFree(a.reserved, 1).value;
            Asserted(AssignFrame(a.address.value, a.found.value, free)) == Some(Holding(free, a.found.value))
  {
    var f := AssignFrame(a.address.value, a.found.value, NextFree(a.reserved, 1).value);
    assert f.payload.bytes[..6] == a.found.value;
  }

  ghost function GenuineInv(held: set<Holding>, settled: bool): Outbox -> bool { o => GenuineOutbox(o, held, settled) }

  lemma EnqueueGenuine(o: Outbox, f: ProtocolFrame, held: set<Holding>, settled: bool)
    requires GenuineOutbox(o, held, settled) && (Encode(f).Success? ==> Genuine(held, settled, Encode(f).value))
    ensures GenuineOutbox(Enqueue(o, f).0, held, settled)
  {
    if Encode(f).Success? { EncodedClass(f); }
  }

  /** A frame that says nothing about addresses may be queued by anyone. */
  lemma SilentFrameIsGenuine(o: Outbox, f: ProtocolFrame, held: set<Holding>, settled: bool)
    requires GenuineOutbox(o, held, settled) && Asserted(f).None?
    ensures GenuineOutbox(Enqueue(o, f).0, held, settled)
  {
    hide Enqueue, Encode;
    DecodeEncoded(f);
    EnqueueGenuine(o, f, held, settled);
  }

  lemma GenuineKept(a: Author, held: set<Holding>, settled: bool)
    requires a.address.Some? ==> Holding(a.address.value, a.uid) in held
    requires settled || Issued(a) <= held
    ensures Kept(a, GenuineInv(held, settled))
  {
    forall o, f | GenuineOutbox(o, held, settled) && Authored(a, f) && f.payload.kind != ADDRESS_ASSIGN
      ensures GenuineOutbox(Enqueue(o, f).0, held, settled)
    {
      if Encode(f).Success? { AuthoredIsGenuine(a, f, held, settled); }
      EnqueueGenuine(o, f, held, settled);
    }
    forall o, f | GenuineOutbox(o, held, settled) && Authored(a, f) && Encode(f).Success?
      ensures GenuineOutbox(Transmit(o, Encode(f).value, false, a.refused), held, settled)
    {
      if Encode(f).value !in a.refused { AuthoredIsGenuine(a, f, held, settled); }
    }
  }

  /** A node's call leaves it only genuine frames to send. */
  lemma CallStaysGenuine(n: Node, input: Input, held: set<Holding>, settled: bool)
    requires input.FrameEnqueued? ==> Asserted(input.frame).None?
    requires GenuineOutbox(n.out, held, settled) && Rightful(n, held)
    ensures GenuineOutbox(Step(n, input).out, if settled then held else held + Issued(AuthorOf(n, input)), settled)
  {
    hide Step, Enqueue, Kept, Encode, Decode, Genuine, Issued;
    var a := AuthorOf(n, input);
    var more := if settled then held else held + Issued(a);
    OutboxGrows(n.out, held, more, settled);
    GenuineKept(a, more, settled);
    if input.FrameEnqueued? { SilentFrameIsGenuine(n.out, input.frame, more, settled); }
    StepAll(n, input, GenuineInv(more, settled));
  }

  // ---------------------------------------------------------------- addresses stay rightful

  predicate OneHolderEach(held: set<Holding>) {
    forall h, k :: h in held && k in held && h.address == k.address ==> h == k
  }

  lemma {:induction false} NotLowerThanItself(uid: seq<Byte>)
    ensures !LowerFromTop(uid, uid)
  {
    if uid != [] { NotLowerThanItself(uid[..|uid| - 1]); }
  }

  lemma CommissioningStaysRightful(n: Node, f: ProtocolFrame, now: U32, saved: bool, held: set<Holding>)
    requires Rightful(n, held) && OneHolderEach(held) && Asserted(f).Some? && Asserted(f).value in held
    ensures f.identifier.kind == ADDRESS_CLAIM ==>
              var m := HandleClaim(n, f.identifier.source, f.payload.bytes);
              Rightful(m, held) && m.conflicts == n.conflicts
    ensures f.identifier.kind == ADDRESS_CONFLICT && n.address == Some(f.identifier.destination) ==>
              HandleConflict(n, f.payload.bytes) == n
    ensures f.identifier.kind == ADDRESS_ASSIGN ==>
              var m := HandleAssign(n, f.payload.bytes, now, saved); Rightful(m, held) && m.conflicts == n.conflicts
  {
    NotLowerThanItself(n.uid);
  }

  /** Where every address has one holder, a genuine frame never makes a node lose its address. */
  lemma DispatchStaysRightful(n: Node, f: ProtocolFrame, now: U32, p: Ports, held: set<Holding>)
    requires ValidFrame(f) && Rightful(n, held) && OneHolderEach(held)
    requires Asserted(f).Some? ==> Asserted(f).value in held
    ensures Rightful(Dispatch(n, f, now, p), held) && Dispatch(n, f, now, p).conflicts == n.conflicts
  {
    if Asserted(f).Some? {
      CommissioningStaysRightful(n, f, now, p.saved, held);
      assert f.identifier.kind == ADDRESS_CONFLICT && n.address != Some(f.identifier.destination) ==>
               Dispatch(n, f, now, p) == n;
    } else if f.identifier.kind == DISCOVERY_RESPONSE {
      assert Dispatch(n, f, now, p) == HandleDiscoveryResponse(n, f, p);
    } else {
      DispatchAddressFrame(n, f, now, p);
      DispatchIdentity(n, f, now, p);
    }
  }

  lemma CallStaysRightful(n: Node, input: Input, held: set<Holding>)
    requires Rightful(n, held) && OneHolderEach(held)
    requires input.Received? ==> Genuine(held, false, input.raw)
    ensures Rightful(Step(n, input), held) && Step(n, input).conflicts == n.conflicts
  {
    hide Dispatch, Tick, Enqueue, Drain;
    match input
    case Received(raw, now, ports) =>
      if Decode(raw).Success? {
        EncodeDecoded(raw);
        var f := Decode(raw).value;
        DispatchStaysRightful(HearNode(n, f.identifier.source, now), f, now, ports, held);
      }
    case Ticked(now, ports) => TickFrame(n, now, ports);
    case _ =>
  }

  /** Identity and role never change, and a reserved address is never released. */
  lemma CallKeepsReserved(n: Node, input: Input)
    ensures var m := Step(n, input);
            && m.uid == n.uid && m.role == n.role
            && (forall x :: 0 <= x < ADDRESSES && n.reserved[x] ==> m.reserved[x])
  {
    match input
    case Received(raw, now, ports) =>
      if Decode(raw).Success? {
        EncodeDecoded(raw);
        var f := Decode(raw).value;
        DispatchKeepsReserved(HearNode(n, f.identifier.source, now), f, now, ports);
      }
    case Ticked(now, ports) => TickFrame(n, now, ports);
    case _ =>
  }

  lemma DispatchKeepsReserved(n: Node, f: ProtocolFrame, now: U32, p: Ports)
    requires ValidFrame(f)
    ensures var m := Dispatch(n, f, now, p);
            && m.uid == n.uid && m.role == n.role
            && (forall x :: 0 <= x < ADDRESSES && n.reserved[x] ==> m.reserved[x])
  {
    DispatchIdentity(n, f, now, p);
    var kind, b := f.identifier.kind, f.payload.bytes;
    if kind == ADDRESS_CLAIM {
      assert Dispatch(n, f, now, p) == HandleClaim(n, f.identifier.source, b);
    } else if kind == ADDRESS_CONFLICT {
      assert Dispatch(n, f, now, p) == if n.address == Some(f.identifier.destination) then HandleConflict(n, b) else n;
    } else if kind == ADDRESS_ASSIGN {
      assert Dispatch(n, f, now, p) == HandleAssign(n, b, now, p.saved);
    } else if kind == DISCOVERY_RESPONSE {
      assert Dispatch(n, f, now, p) == HandleDiscoveryResponse(n, f, p);
    } else {
      DispatchAddressFrame(n, f, now, p);
    }
  }

  /** An issued address was free, and is reserved from then on. */
  lemma IssuedIsReserved(n: Node, input: Input)
    requires Issues(AuthorOf(n, input))
    ensures var free := NextFree(n.reserved, 1).value;
            !n.reserved[free] && Step(n, input).reserved == n.reserved[free := true]
  {
    var f := Decode(input.raw).value;
    EncodeDecoded(input.raw);
    var heard := HearNode(n, f.identifier.source, input.now);
    assert Step(n, input) == HandleDiscoveryResponse(heard, f, input.ports);
  }
}
