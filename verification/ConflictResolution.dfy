/** Nodes that share an address settle on the one with the lowest UID. */
module ConflictResolution {
  import opened Wrappers
  import opened Types
  import opened CanIdentifiers
  import opened WirePayloads
  import opened FrameCodec
  import opened Outboxes
  import opened Directories
  import opened Nodes
  import opened NodeFrames
  import opened NodeInvariants
  import opened Installations
  import opened UidOrder

  // ---------------------------------------------------------------- one node among genuine frames

  /** No holder of address `a` has a lower UID than this node. */
  predicate Champion(n: Node, held: set<Holding>, a: NodeAddress) {
    && n.address == Some(a)
    && forall h :: h in held && h.address == a && h.uid != n.uid ==> LowerFromTop(n.uid, h.uid)
  }

  lemma {:induction false} LowerIsAsymmetric(a: seq<Byte>, b: seq<Byte>)
    requires |a| == |b|
    ensures !(LowerFromTop(a, b) && LowerFromTop(b, a))
    ensures a == b ==> !LowerFromTop(a, b)
  {
    ComparisonIsNumeric(a, b);
    ComparisonIsNumeric(b, a);
  }

  lemma ClaimMeetsHolder(n: Node, source: NodeAddress, b: Bytes8, held: set<Holding>)
    requires Holding(source, b[..6]) in held
    ensures var m := HandleClaim(n, source, b);
            && (m.address == n.address || m.address == None) && m.stored == n.stored
            && (forall a: NodeAddress :: Champion(n, held, a) ==> m.address == Some(a))
            && (n.address == Some(source) && LowerFromTop(b[..6], n.uid) ==> m.address == None)
  {
    LowerIsAsymmetric(n.uid, b[..6]);
  }

  lemma ConflictMeetsHolder(n: Node, b: Bytes8, held: set<Holding>)
    requires n.address.Some? && Holding(n.address.value, b[..6]) in held
    ensures var m := HandleConflict(n, b);
            && (m.address == n.address || m.address == None) && m.stored == n.stored
            && (forall a: NodeAddress :: Champion(n, held, a) ==> m.address == Some(a))
            && (LowerFromTop(b[..6], n.uid) ==> m.address == None)
  {
    LowerIsAsymmetric(n.uid, b[..6]);
  }

  /** The frame tells who the winner of address `a` is: its claim, or a conflict notice for it. */
  predicate Decides(raw: RawCanFrame, a: NodeAddress, winner: Uid) {
    Decode(raw).Success? && Asserted(Decode(raw).value) == Some(Holding(a, winner))
    && Decode(raw).value.identifier.kind != ADDRESS_ASSIGN
  }

  /** The frame names a lower holder of the node's address. */
  predicate Outranked(n: Node, asserted: Option<Holding>) {
    asserted.Some? && n.address == Some(asserted.value.address) && LowerFromTop(asserted.value.uid, n.uid)
  }

  lemma DispatchAmongGenuine(n: Node, f: ProtocolFrame, now: U32, p: Ports, held: set<Holding>)
    requires ValidFrame(f) && (f.identifier.kind == ADDRESS_ASSIGN ==> !p.saved || f.payload.bytes[..6] != n.uid)
    requires Asserted(f).Some? && f.identifier.kind != ADDRESS_ASSIGN ==> Asserted(f).value in held
    ensures var m := Dispatch(n, f, now, p);
            && (m.address == n.address || m.address == None) && m.stored == n.stored
            && (forall a: NodeAddress :: Champion(n, held, a) ==> m.address == Some(a))
            && (Outranked(n, Asserted(f)) && f.identifier.kind != ADDRESS_ASSIGN ==> m.address == None)
  {
    var kind, b := f.identifier.kind, f.payload.bytes;
    if kind == ADDRESS_CLAIM {
      ClaimMeetsHolder(n, f.identifier.source, b, held);
      assert Dispatch(n, f, now, p) == HandleClaim(n, f.identifier.source, b);
    } else if kind == ADDRESS_CONFLICT {
      if n.address == Some(f.identifier.destination) { ConflictMeetsHolder(n, b, held); }
      assert Dispatch(n, f, now, p) == if n.address == Some(f.identifier.destination) then HandleConflict(n, b) else n;
    } else if kind == DISCOVERY_RESPONSE {
      assert Dispatch(n, f, now, p) == HandleDiscoveryResponse(n, f, p);
    } else if kind == ADDRESS_ASSIGN {
      assert Dispatch(n, f, now, p) == n;
    } else {
      DispatchAddressFrame(n, f, now, p);
    }
  }

  /** Among truthful claims and notices, without reassignment and whatever the node's role: an address
      is only ever lost, a champion never loses it, and whoever hears of a lower holder of its address
      does. */
  lemma CallAmongGenuine(n: Node, input: Input, held: set<Holding>)
    requires (input.Received? ==> Genuine(held, true, input.raw)) && !Reassigns(n.uid, input)
    ensures var m := Step(n, input);
            && m.uid == n.uid && m.role == n.role
            && (m.address == n.address || m.address == None) && m.stored == n.stored
            && (forall a: NodeAddress :: Champion(n, held, a) ==> m.address == Some(a))
    ensures input.Received? && Decode(input.raw).Success? && Outranked(n, Asserted(Decode(input.raw).value))
            && Decode(input.raw).value.identifier.kind != ADDRESS_ASSIGN ==>
              Step(n, input).address == None
  {
    CallKeepsReserved(n, input);
    match input
    case Received(raw, now, ports) =>
      if Decode(raw).Success? {
        EncodeDecoded(raw);
        var f := Decode(raw).value;
        DispatchAmongGenuine(HearNode(n, f.identifier.source, now), f, now, ports, held);
        assert forall a: NodeAddress :: Champion(n, held, a) ==>
                 Champion(HearNode(n, f.identifier.source, now), held, a);
      }
    case Ticked(now, ports) => TickFrame(n, now, ports);
    case _ =>
  }

  /** The lower UID keeps its address and plans no claim when a rival claims it. It answers at once, with a
      conflict notice that names itself at the end of its control queue, exactly if that has room. */
  lemma ChampionAnswers(n: Node, b: Bytes8, a: NodeAddress)
    requires n.address == Some(a) && IsUnicast(a) && b[..6] != n.uid && LowerFromTop(n.uid, b[..6])
    requires |n.out.queues[0]| <= CAPACITY
    ensures var m, room := HandleClaim(n, a, b), |n.out.queues[0]| < CAPACITY;
            && m.address == n.address && m.stored == n.stored && m.schedule == n.schedule && m.conflicts == n.conflicts
            && (forall c :: 0 < c < CLASSES ==> m.out.queues[c] == n.out.queues[c]) && m.out.wire == n.out.wire
            && (!room ==> m.out == n.out)
            && (room ==>
                  && m.out.queues[0] != [] && m.out.queues[0][..|m.out.queues[0]| - 1] == n.out.queues[0]
                  && Decides(m.out.queues[0][|m.out.queues[0]| - 1], a, n.uid))
  {
    var f := ConflictFrame(n.uid, a, n.sequence);
    assert f.payload.bytes[..6] == n.uid;
    DecodeEncoded(f);
    assert FrameKey(f).None?;
  }

  // ---------------------------------------------------------------- runs

  predicate NoRestarts(events: seq<Event>) { forall k :: 0 <= k < |events| ==> events[k].Call? }

  predicate NoReassignment(s: Installation, events: seq<Event>) {
    forall k :: 0 <= k < |events| && events[k].Call? && events[k].who < |s.nodes| ==>
      !Reassigns(s.nodes[events[k].who].uid, events[k].input)
  }

  lemma EventKeepsSettling(s: Installation, held: set<Holding>, e: Event)
    requires Authentic(s, held, true) && Possible(s, e) && e.Call? && !Reassigns(s.nodes[e.who].uid, e.input)
    ensures Authentic(Next(s, e), held, true)
  {
    hide Step, Genuine, Reassigns;
    var t := Next(s, e);
    CallStaysGenuine(s.nodes[e.who], e.input, held, true);
    CallAmongGenuine(s.nodes[e.who], e.input, held);
    forall raw | raw in t.bus ensures Genuine(held, true, raw) {}
  }

  /** The event tells node `j` of the winner. */
  predicate Tells(e: Event, j: nat, a: NodeAddress, winner: Uid) {
    e.Call? && e.who == j && e.input.Received? && Decides(e.input.raw, a, winner)
  }

  /** Some event of the run delivers a deciding frame to node `j`. */
  predicate Told(events: seq<Event>, j: nat, a: NodeAddress, winner: Uid) {
    exists k :: 0 <= k < |events| && Tells(events[k], j, a, winner)
  }

  lemma EventAmongGenuine(s: Installation, held: set<Holding>, e: Event, m: nat, j: nat, a: NodeAddress)
    requires Authentic(s, held, true) && Possible(s, e) && e.Call? && !Reassigns(s.nodes[e.who].uid, e.input)
    requires m < |s.nodes| && j < |s.nodes| && Champion(s.nodes[m], held, a)
    ensures var t := Next(s, e);
            && |t.nodes| == |s.nodes| && (forall i :: 0 <= i < |s.nodes| ==> t.nodes[i].uid == s.nodes[i].uid)
            && Champion(t.nodes[m], held, a)
            && (s.nodes[j].address != Some(a) ==> t.nodes[j].address != Some(a))
            && (s.nodes[j].uid != s.nodes[m].uid && Tells(e, j, a, s.nodes[m].uid) ==> t.nodes[j].address != Some(a))
  {
    hide Step;
    CallAmongGenuine(s.nodes[e.who], e.input, held);
    assert Rightful(s.nodes[j], held);
  }

  lemma LaterEvents(s: Installation, t: Installation, events: seq<Event>)
    requires events != [] && NoReassignment(s, events)
    requires |t.nodes| == |s.nodes| && forall i :: 0 <= i < |s.nodes| ==> t.nodes[i].uid == s.nodes[i].uid
    ensures NoReassignment(t, events[1..])
  {
    hide Reassigns;
    var rest := events[1..];
    forall k | 0 <= k < |rest| && rest[k].Call? && rest[k].who < |t.nodes|
      ensures !Reassigns(t.nodes[rest[k].who].uid, rest[k].input)
    {
      assert rest[k] == events[k + 1];
    }
  }

  lemma {:induction false} RunSettles(
    s: Installation, held: set<Holding>, events: seq<Event>, m: nat, j: nat, a: NodeAddress)
    requires Authentic(s, held, true) && Plays(s, events) && NoRestarts(events) && NoReassignment(s, events)
    requires m < |s.nodes| && j < |s.nodes| && Champion(s.nodes[m], held, a)
    ensures |After(s, events).nodes| == |s.nodes|
    ensures After(s, events).nodes[m].address == Some(a)
    ensures s.nodes[j].address != Some(a) ==> After(s, events).nodes[j].address != Some(a)
    ensures s.nodes[j].uid != s.nodes[m].uid && Told(events, j, a, s.nodes[m].uid) ==>
              After(s, events).nodes[j].address != Some(a)
    decreases |events|
  {
    hide Next, Authentic, Decides, Reassigns;
    if events != [] {
      var e, t := events[0], Next(s, events[0]);
      assert !Reassigns(s.nodes[e.who].uid, e.input);
      EventKeepsSettling(s, held, e);
      EventAmongGenuine(s, held, e, m, j, a);
      LaterEvents(s, t, events);
      RunSettles(t, held, events[1..], m, j, a);
      if Told(events, j, a, s.nodes[m].uid) && !Tells(e, j, a, s.nodes[m].uid) {
        var k :| 0 <= k < |events| && Tells(events[k], j, a, s.nodes[m].uid);
        assert events[1..][k - 1] == events[k];
      }
    }
  }

  /** A node of any role as its constructor leaves it; a primary may have taken the bootstrap address. */
  predicate JustBooted(n: Node) {
    && Storable(n.stored)
    && (n == Boot(n.uid, n.role, n.stored, true) || n == Boot(n.uid, n.role, n.stored, false))
    && n.address == n.stored
  }

  lemma EveryBootCounts(uid: Uid, role: Role, stored: Option<NodeAddress>, saved: bool)
    requires Storable(stored)
    ensures JustBooted(Boot(uid, role, stored, saved)) && Boot(uid, role, stored, saved).uid == uid
  {
  }

  /** Nodes that have just booted, each with the address it stored or took at boot. */
  predicate Contested(s: Installation) {
    && s.bus == {}
    && (forall i, j :: 0 <= i < j < |s.nodes| ==> s.nodes[i].uid != s.nodes[j].uid)
    && (forall i :: 0 <= i < |s.nodes| ==> JustBooted(s.nodes[i]))
  }

  /** The initial holders. */
  function Holders(s: Installation): set<Holding> {
    set i | 0 <= i < |s.nodes| && s.nodes[i].address.Some? :: Holding(s.nodes[i].address.value, s.nodes[i].uid)
  }

  lemma BootedHasNothingToSay(n: Node)
    requires JustBooted(n)
    ensures n.out == EMPTY
  {
  }

  lemma ContestedSettles(s: Installation)
    requires Contested(s)
    ensures Authentic(s, Holders(s), true)
  {
    hide JustBooted;
    forall i | 0 <= i < |s.nodes| ensures Rightful(s.nodes[i], Holders(s)) && s.nodes[i].out == EMPTY {
      BootedHasNothingToSay(s.nodes[i]);
      BootedKeepsStored(s.nodes[i]);
    }
  }

  lemma BootedKeepsStored(n: Node)
    requires JustBooted(n)
    ensures n.address == n.stored
  {
  }

  /** The node with the lowest UID among those that share address `a`. */
  predicate LowestHolder(s: Installation, m: nat, a: NodeAddress) {
    && m < |s.nodes| && s.nodes[m].address == Some(a)
    && forall i :: 0 <= i < |s.nodes| && i != m && s.nodes[i].address == Some(a) ==>
         UidValue(s.nodes[m].uid) < UidValue(s.nodes[i].uid)
  }

  /** For nodes of any role, under any delivery order and without reassignment: the lowest holder keeps
      its address for ever; a rival that was ever told of it is no holder any more; and once every
      rival was told, the lowest holder is the only one. */
  lemma {:induction false} LowestUidPrevails(s: Installation, events: seq<Event>, m: nat, a: NodeAddress)
    requires Contested(s) && Plays(s, events) && NoRestarts(events) && NoReassignment(s, events)
    requires LowestHolder(s, m, a)
    ensures var t := After(s, events);
            && |t.nodes| == |s.nodes| && t.nodes[m].address == Some(a)
            && (forall j :: 0 <= j < |s.nodes| && j != m && Told(events, j, a, s.nodes[m].uid) ==>
                  t.nodes[j].address != Some(a))
            && ((forall j :: 0 <= j < |s.nodes| && j != m && s.nodes[j].address == Some(a) ==>
                  Told(events, j, a, s.nodes[m].uid)) ==>
                  forall j :: 0 <= j < |s.nodes| ==> (t.nodes[j].address == Some(a) <==> j == m))
  {
    hide Step, Boot, Authentic, LowerFromTop, Reassigns;
    var held := Holders(s);
    ContestedSettles(s);
    forall h | h in held && h.address == a && h.uid != s.nodes[m].uid ensures LowerFromTop(s.nodes[m].uid, h.uid) {
      var i :| 0 <= i < |s.nodes| && s.nodes[i].address.Some? && h == Holding(s.nodes[i].address.value, s.nodes[i].uid);
      ComparisonIsNumeric(s.nodes[m].uid, h.uid);
    }
    RunSettles(s, held, events, m, m, a);
    forall j | 0 <= j < |s.nodes| && j != m
      ensures s.nodes[j].address != Some(a) || Told(events, j, a, s.nodes[m].uid) ==>
                After(s, events).nodes[j].address != Some(a)
    {
      RunSettles(s, held, events, m, j, a);
    }
  }

  /** The one conflict that starts from empty storage: two primaries take the bootstrap address, and the
      lower UID is the one to keep it. */
  lemma {:induction false} PrimariesContestBootstrap(u: Uid, v: Uid)
    requires UidValue(u) < UidValue(v)
    ensures var s := Installation([Boot(u, Primary, None, true), Boot(v, Primary, None, true)], {});
            Contested(s) && LowestHolder(s, 0, 0x001) && s.nodes[1].address == Some(0x001)
  {
    EveryBootCounts(u, Primary, None, true);
    EveryBootCounts(v, Primary, None, true);
    hide JustBooted;
  }
}
