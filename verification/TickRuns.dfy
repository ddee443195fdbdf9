/** Runs call by call and tick by tick, and the frame one tick puts on the wire of an idle node. */
module TickRuns {
  import opened Wrappers
  import opened Types
  import opened CanIdentifiers
  import opened WirePayloads
  import opened FrameCodec
  import opened Outboxes
  import opened Directories
  import opened Nodes
  import opened NodeInvariants

  // ---------------------------------------------------------------- runs of any calls

  /** The state before call `k`. */
  function Upto(n: Node, inputs: seq<Input>, k: nat): Node
    requires k <= |inputs|
  {
    Run(n, inputs[..k])
  }

  lemma {:induction false} UptoNothing(n: Node, inputs: seq<Input>)
    ensures Upto(n, inputs, 0) == n
  {
    assert inputs[..0] == [];
  }

  lemma {:induction false} UptoNext(n: Node, inputs: seq<Input>, k: nat)
    requires k < |inputs|
    ensures Upto(n, inputs, k + 1) == Step(Upto(n, inputs, k), inputs[k])
  {
    hide Step;
    assert inputs[..k + 1][..k] == inputs[..k];
  }

  /** Every tick has room for its deadlines before the clock wraps. */
  predicate InTime(inputs: seq<Input>) {
    forall k :: 0 <= k < |inputs| && inputs[k].Ticked? ==> inputs[k].now + 40000 < WORD
  }

  /** Ticks come in order of time. */
  predicate TicksInOrder(inputs: seq<Input>) {
    forall i, j :: 0 <= i < j < |inputs| && inputs[i].Ticked? && inputs[j].Ticked? ==> inputs[i].now <= inputs[j].now
  }

  /** The tick answers the pending request. */
  predicate Responds(n: Node, now: U32) { n.pending.Some? && now >= n.pending.value.dueMs }

  /** The call brings the node a discovery request. */
  predicate HearsRequest(input: Input) {
    input.Received? && Decode(input.raw).Success? && Decode(input.raw).value.identifier.kind == DISCOVERY_REQUEST
  }

  /** Only ticks, a loss of the address and a new one change what is planned. */
  predicate KeepsPlans(n: Node, input: Input, m: Node) {
    && m.uid == n.uid
    && (n.address.None? && !Reassigns(n.uid, input) ==>
          && m.address.None? && m.schedule == n.schedule
          && (!HearsRequest(input) ==> m.pending == n.pending))
    && (n.address.Some? && m.address.Some? ==> m.schedule.nextHeartbeat == n.schedule.nextHeartbeat)
    && (m.schedule.claimScheduled ==> n.schedule.claimScheduled && m.schedule.nextClaim == n.schedule.nextClaim)
  }

  lemma DispatchKeepsPlans(n: Node, f: ProtocolFrame, now: U32, p: Ports)
    requires ValidFrame(f)
    ensures var m, kind := Dispatch(n, f, now, p), f.identifier.kind;
            && m.uid == n.uid
            && (n.address.None? && (kind == ADDRESS_ASSIGN ==> !p.saved || f.payload.bytes[..6] != n.uid) ==>
                  && m.address.None? && m.schedule == n.schedule
                  && (kind != DISCOVERY_REQUEST ==> m.pending == n.pending))
            && (n.address.Some? && m.address.Some? ==> m.schedule.nextHeartbeat == n.schedule.nextHeartbeat)
            && (m.schedule.claimScheduled ==>
                  n.schedule.claimScheduled && m.schedule.nextClaim == n.schedule.nextClaim)
  {
    var kind := f.identifier.kind;
    DispatchTouches(n, f, now, p);
    if kind !in {ADDRESS_CLAIM, ADDRESS_CONFLICT, ADDRESS_ASSIGN} { hide Dispatch; }
  }

  /** Every call but a tick. */
  lemma CallKeepsPlans(n: Node, input: Input)
    requires !input.Ticked?
    ensures KeepsPlans(n, input, Step(n, input))
  {
    match input
    case Received(raw, now, ports) =>
      if Decode(raw).Success? {
        EncodeDecoded(raw);
        var f := Decode(raw).value;
        DispatchKeepsPlans(HearNode(n, f.identifier.source, now), f, now, ports);
      }
    case _ =>
  }

  // ---------------------------------------------------------------- runs of ticks

  datatype TickAt = TickAt(time: U32, ports: Ports)

  /** The state before tick `k`. */
  function Ticking(n: Node, ticks: seq<TickAt>, k: nat): Node
    requires k <= |ticks|
  {
    if k == 0 then n
    else Tick(Ticking(n, ticks, k - 1), ticks[k - 1].time, ticks[k - 1].ports)
  }

  /** Ticks in order of time, with room for every deadline before the clock wraps. */
  predicate BeforeWrap(ticks: seq<TickAt>) {
    && (forall i :: 0 <= i < |ticks| ==> ticks[i].time + 40000 < WORD)
    && (forall i, j :: 0 <= i < j < |ticks| ==> ticks[i].time <= ticks[j].time)
  }

  predicate Reliable(ticks: seq<TickAt>) { forall i :: 0 <= i < |ticks| ==> ticks[i].ports.refused == {} }

  // ---------------------------------------------------------------- one frame on the wire

  predicate Idle(o: Outbox) { |o.queues| == CLASSES && forall c :: 0 <= c < CLASSES ==> o.queues[c] == [] }

  /** The outbox after a frame has been queued and drained. */
  function SentNow(o: Outbox, f: ProtocolFrame): Outbox
    requires Encode(f).Success?
  {
    var raw := Encode(f).value;
    o.(accepted := o.accepted + [raw], placed := o.placed + [raw], wire := o.wire + [Attempt(raw, true, true)])
  }

  lemma {:induction false} IdleDrains(o: Outbox, c: nat)
    requires Idle(o)
    ensures DrainFrom(o, c, {}) == (o, false)
    decreases CLASSES - c
  {
    if c < CLASSES { IdleDrains(o, c + 1); }
  }

  /** The only queued frame is the one a drain sends. */
  lemma {:induction false} OnlyFrameDrains(o: Outbox, c: nat, s: nat, raw: RawCanFrame)
    requires |o.queues| == CLASSES && c <= s < CLASSES && o.queues[s] == [raw]
    requires forall k :: 0 <= k < CLASSES && k != s ==> o.queues[k] == []
    ensures DrainFrom(o, c, {}).0 == o.(queues := o.queues[s := []], wire := o.wire + [Attempt(raw, true, true)])
    decreases CLASSES - c
  {
    if c < s { OnlyFrameDrains(o, c + 1, s, raw); } else { assert [raw][1..] == []; }
  }

  /** In an idle outbox a frame that is queued and drained is on the wire at once. */
  lemma QueuedThenDrained(o: Outbox, f: ProtocolFrame)
    requires Idle(o) && Encode(f).Success?
    ensures Drain(Enqueue(o, f).0, {}).0 == SentNow(o, f)
  {
    EncodedClass(f);
    var raw, c := Encode(f).value, QueueOf(f.identifier.priority);
    var queued := Push(o, c, raw);
    assert Enqueue(o, f).0 == queued by { hide Decode; }
    assert queued.queues[c] == [raw];
    OnlyFrameDrains(queued, 0, c, raw);
    assert queued.queues[c := []] == o.queues;
  }
}
