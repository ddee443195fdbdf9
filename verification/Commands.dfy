/** A node's handling of commands is the table's, whatever else happens in the run. */
module Commands {
  import opened Wrappers
  import opened Types
  import opened CanIdentifiers
  import opened TypedValues
  import opened WirePayloads
  import opened FrameCodec
  import opened Outboxes
  import opened Directories
  import opened Duplicates
  import opened Nodes
  import opened NodeInvariants
  import opened Transmissions
  import opened Publishing
  import opened Presence
  import opened CommandTables

  /** The COMMAND for this node that a call delivers, if it delivers one. */
  function CommandTo(n: Node, input: Input): (command: Option<ProtocolFrame>)
    ensures command.Some? ==> command.value.identifier.kind == COMMAND
  {
    if !input.Received? then None
    else
      match Decode(input.raw)
      case Failure(_) => None
      case Success(f) =>
        if f.identifier.kind == COMMAND && n.address == Some(f.identifier.destination) then Some(f) else None
  }

  /** A delivered command, with the handler registered for its endpoint at that moment. */
  datatype Delivered = Delivered(arrival: Arrival, handler: Option<Handler>, value: TypedValue)

  function HandlerOf(n: Node, endpoint: EndpointId): Option<Handler> {
    var i := HandlerSlot(n.registry.handlers, endpoint);
    if i < 16 then n.registry.handlers[i] else None
  }

  function Deliver(n: Node, f: ProtocolFrame, time: nat, status: Status): Delivered {
    var key := KeyOfCommand(f);
    var handler := HandlerOf(n, key.endpoint);
    Delivered(Arrival(key, time, if handler.Some? then status else UNSUPPORTED), handler, SlotValue(f.payload.bytes))
  }

  /** The handler call one delivered command causes. */
  function Called(records: Table, d: Delivered): seq<Execution> {
    if IsNew(records, d.arrival) && d.handler.Some? then [Execution(d.handler.value, d.arrival.key, d.value)] else []
  }

  lemma HandleCommandTable(n: Node, f: ProtocolFrame, time: nat, status: Status)
    ensures var m, d := HandleCommand(n, f, time % WORD, status), Deliver(n, f, time, status);
            && m.duplicates == Process(n.duplicates, d.arrival)
            && m.executions == n.executions + Called(n.duplicates, d)
  {
  }

  lemma DispatchTable(n: Node, f: ProtocolFrame, now: U32, p: Ports)
    requires ValidFrame(f)
    ensures var m := Dispatch(n, f, now, p);
            if f.identifier.kind == COMMAND && n.address == Some(f.identifier.destination)
            then m == HandleCommand(n, f, now, p.status)
            else m.duplicates == n.duplicates && m.executions == n.executions
  {
    hide HandleClaim, HandleConflict, HandleAssign, ClaimMatching, HandleState, HandleEvent, HandleCommand;
    hide HandleDiscoveryResponse;
    DispatchTouches(n, f, now, p);
  }

  /** The table and the handler calls change only when a command for the node arrives. */
  lemma StepTable(n: Node, t: TimedInput)
    requires ShowsClock(t)
    ensures var m := Step(n, t.input);
            match CommandTo(n, t.input)
            case None => m.duplicates == n.duplicates && m.executions == n.executions
            case Some(f) =>
              var d := Deliver(n, f, t.time, t.input.ports.status);
              m.duplicates == Process(n.duplicates, d.arrival) && m.executions == n.executions + Called(n.duplicates, d)
  {
    match t.input
    case Received(raw, now, ports) =>
      if Decode(raw).Success? {
        EncodeDecoded(raw);
        var f := Decode(raw).value;
        var heard := HearNode(n, f.identifier.source, now);
        DispatchTable(heard, f, now, ports);
        HandleCommandTable(heard, f, t.time, ports.status);
      }
    case Ticked(now, ports) => TickFrame(n, now, ports);
    case _ =>
  }

  /** A requested acknowledgement carries the status of the execution, or of the earlier copy. */
  lemma AcknowledgesWithReply(n: Node, f: ProtocolFrame, time: nat, p: Ports)
    requires ValidFrame(f) && f.identifier.kind == COMMAND && n.address == Some(f.identifier.destination)
    ensures var d := Deliver(n, f, time, p.status);
            var reply := Reply(n.duplicates, [d.arrival], 0);
            Dispatch(n, f, time % WORD, p).out == Acknowledged(n.out, n.address.value, f, reply)
  {
    hide AckFrame, Enqueue, Acknowledged;
    var reply := Reply(n.duplicates, [Deliver(n, f, time, p.status).arrival], 0);
    AcknowledgeOffers(n, f, reply);
    if f.payload.bytes[3] % 2 == 0 { AcknowledgeNothing(n.out, n.address.value, f, reply); }
    assert TableAt(n.duplicates, [Deliver(n, f, time, p.status).arrival], 0) == n.duplicates;
    DispatchTable(n, f, time % WORD, p);
  }

  lemma ServingIsHandler(n: Node, endpoint: EndpointId, serving: Option<Handler>)
    requires HandlersOk(n.registry.handlers) && Serves(n.registry.handlers, endpoint, serving)
    ensures HandlerOf(n, endpoint) == serving
  {
  }

  /** A new command runs the one handler of its endpoint, with its sender, endpoint, transaction and value,
      and is acknowledged with the handler's status; without a handler it is acknowledged as unsupported. */
  lemma {:induction false} NewCommandIsServed(n: Node, f: ProtocolFrame, time: nat, p: Ports, serving: Option<Handler>)
    requires ValidFrame(f) && f.identifier.kind == COMMAND && n.address == Some(f.identifier.destination)
    requires HandlersOk(n.registry.handlers) && Serves(n.registry.handlers, f.payload.bytes[1], serving)
    requires var b := f.payload.bytes;
             EarlierStatus(n.duplicates, CommandKey(f.identifier.source, b[1], b[0], 0x0A), time % WORD).None?
    ensures var m, b := Dispatch(n, f, time % WORD, p), f.payload.bytes;
            var key, value := CommandKey(f.identifier.source, b[1], b[0], 0x0A), TypedValue(b[2], b[4..8]);
            && m.executions
               == n.executions + (if serving.Some? then [Execution(serving.value, key, value)] else [])
            && m.out == Acknowledged(n.out, f.identifier.destination, f, if serving.Some? then p.status else 2)
  {
    hide Dispatch, Acknowledged, EarlierStatus, HandlerOf, Process;
    ServingIsHandler(n, f.payload.bytes[1], serving);
    DispatchTable(n, f, time % WORD, p);
    HandleCommandTable(n, f, time, p.status);
    AcknowledgesWithReply(n, f, time, p);
    ReplyAlone(n.duplicates, Deliver(n, f, time, p.status).arrival);
  }

  // ---------------------------------------------------------------- runs

  /** The commands delivered to the node in a run. */
  function DeliveredIn(n: Node, ts: seq<TimedInput>): seq<Delivered> {
    if ts == [] then []
    else
      var before, last := ts[..|ts| - 1], ts[|ts| - 1];
      DeliveredIn(n, before) + NewlyDelivered(Run(n, Inputs(before)), last)
  }

  function Arrivals(ds: seq<Delivered>): (arrivals: seq<Arrival>)
    ensures |arrivals| == |ds| && forall i :: 0 <= i < |ds| ==> arrivals[i] == ds[i].arrival
  {
    seq(|ds|, i requires 0 <= i < |ds| => ds[i].arrival)
  }

  /** The handler calls of the first `k` delivered commands. */
  function CallsOf(records: Table, ds: seq<Delivered>, k: nat): seq<Execution>
    requires k <= |ds|
  {
    if k == 0 then []
    else CallsOf(records, ds, k - 1) + Called(TableAt(records, Arrivals(ds), k - 1), ds[k - 1])
  }

  lemma {:induction false} TableAtPrefix(records: Table, a: seq<Arrival>, b: seq<Arrival>, k: nat)
    requires k <= |a| && k <= |b| && a[..k] == b[..k]
    ensures TableAt(records, a, k) == TableAt(records, b, k)
  {
    if k > 0 {
      assert a[..k - 1] == a[..k][..k - 1] && b[..k - 1] == b[..k][..k - 1];
      assert a[k - 1] == a[..k][k - 1] && b[k - 1] == b[..k][k - 1];
      TableAtPrefix(records, a, b, k - 1);
    }
  }

  lemma {:induction false} CallsOfPrefix(records: Table, a: seq<Delivered>, b: seq<Delivered>, k: nat)
    requires k <= |a| && k <= |b| && a[..k] == b[..k]
    ensures CallsOf(records, a, k) == CallsOf(records, b, k)
  {
    hide TableAt, Called;
    if k > 0 {
      assert a[..k - 1] == a[..k][..k - 1] && b[..k - 1] == b[..k][..k - 1];
      assert a[k - 1] == a[..k][k - 1] && b[k - 1] == b[..k][k - 1];
      CallsOfPrefix(records, a, b, k - 1);
      forall i | 0 <= i < k - 1 ensures Arrivals(a)[i] == Arrivals(b)[i] {
        assert a[i] == a[..k][i] && b[i] == b[..k][i];
      }
      TableAtPrefix(records, Arrivals(a), Arrivals(b), k - 1);
    }
  }

  /** Node `m` has executed what the table executes on the commands `ds`, starting from node `n`. */
  predicate Refines(n: Node, m: Node, ds: seq<Delivered>) {
    && m.duplicates == TableAt(n.duplicates, Arrivals(ds), |ds|)
    && m.executions == n.executions + CallsOf(n.duplicates, ds, |ds|)
  }

  function NewlyDelivered(m: Node, t: TimedInput): seq<Delivered> {
    match CommandTo(m, t.input)
    case None => []
    case Some(f) => [Deliver(m, f, t.time, t.input.ports.status)]
  }

  lemma StepRefines(n: Node, m: Node, ds: seq<Delivered>, t: TimedInput)
    requires Refines(n, m, ds) && ShowsClock(t)
    ensures Refines(n, Step(m, t.input), ds + NewlyDelivered(m, t))
  {
    hide Step, Deliver, Called, Decode, TableAt, CallsOf, Process;
    StepTable(m, t);
    match CommandTo(m, t.input)
    case Some(f) => AppendDelivered(n.duplicates, ds, Deliver(m, f, t.time, t.input.ports.status));
    case None => assert ds + NewlyDelivered(m, t) == ds;
  }

  /** In every run the node's records and handler calls are the table's, command by command. */
  lemma {:induction false} NodeRefinesTable(n: Node, ts: seq<TimedInput>)
    requires Clocked(ts)
    ensures Refines(n, Run(n, Inputs(ts)), DeliveredIn(n, ts))
    decreases |ts|
  {
    hide Step, CommandTo;
    if ts != [] {
      var before, last := ts[..|ts| - 1], ts[|ts| - 1];
      assert Inputs(ts)[..|ts| - 1] == Inputs(before);
      NodeRefinesTable(n, before);
      StepRefines(n, Run(n, Inputs(before)), DeliveredIn(n, before), last);
    }
  }

  lemma {:induction false} AppendDelivered(records: Table, ds: seq<Delivered>, d: Delivered)
    ensures var longer := ds + [d];
            var here := TableAt(records, Arrivals(ds), |ds|);
            && TableAt(records, Arrivals(longer), |longer|) == Process(here, d.arrival)
            && CallsOf(records, longer, |longer|) == CallsOf(records, ds, |ds|) + Called(here, d)
  {
    var longer := ds + [d];
    assert longer[..|ds|] == ds[..|ds|];
    assert Arrivals(longer)[..|ds|] == Arrivals(ds)[..|ds|];
    TableAtPrefix(records, Arrivals(longer), Arrivals(ds), |ds|);
    CallsOfPrefix(records, longer, ds, |ds|);
  }

  lemma {:induction false} DeliveredInOrder(n: Node, ts: seq<TimedInput>)
    requires Clocked(ts)
    ensures Chronological(Arrivals(DeliveredIn(n, ts)))
    ensures forall i :: 0 <= i < |DeliveredIn(n, ts)| ==> DeliveredIn(n, ts)[i].arrival.time <= ts[|ts| - 1].time
    decreases |ts|
  {
    hide Run, CommandTo, HandlerOf, KeyOfCommand, SlotValue;
    if ts != [] { DeliveredInOrder(n, ts[..|ts| - 1]); }
  }

  // ---------------------------------------------------------------- copies in a run

  /** The node before call `q` of a run. */
  function Before(n: Node, ts: seq<TimedInput>, q: nat): Node
    requires q <= |ts|
  {
    Run(n, Inputs(ts[..q]))
  }

  /** The command that call `q` delivers to the node. */
  function CommandAt(n: Node, ts: seq<TimedInput>, q: nat): (command: Option<ProtocolFrame>)
    requires q < |ts|
    ensures command.Some? ==> command.value.identifier.kind == COMMAND
  {
    CommandTo(Before(n, ts, q), ts[q].input)
  }

  /** How many commands the calls before `q` delivered, and how many of them were executed. */
  function Position(n: Node, ts: seq<TimedInput>, q: nat): nat
    requires q <= |ts|
  {
    |DeliveredIn(n, ts[..q])|
  }

  function ExecutedBefore(n: Node, ts: seq<TimedInput>, q: nat): nat
    requires q <= |ts|
  {
    var ds := DeliveredIn(n, ts[..q]);
    Insertions(n.duplicates, Arrivals(ds), |ds|)
  }

  lemma {:induction false} DeliveredPrefix(n: Node, ts: seq<TimedInput>, q: nat)
    requires q <= |ts|
    ensures Position(n, ts, q) <= |DeliveredIn(n, ts)|
    ensures DeliveredIn(n, ts[..q]) == DeliveredIn(n, ts)[..Position(n, ts, q)]
    decreases |ts|
  {
    hide CommandTo, Run;
    if q < |ts| {
      var shorter := ts[..|ts| - 1];
      DeliveredPrefix(n, shorter, q);
      assert shorter[..q] == ts[..q];
    } else {
      assert ts[..q] == ts;
    }
  }

  lemma {:induction false} InsertionsOfPrefix(records: Table, a: seq<Arrival>, b: seq<Arrival>, k: nat)
    requires k <= |a| && k <= |b| && a[..k] == b[..k]
    ensures Insertions(records, a, k) == Insertions(records, b, k)
  {
    hide IsNew, TableAt;
    if k > 0 {
      assert a[..k - 1] == a[..k][..k - 1] && b[..k - 1] == b[..k][..k - 1];
      assert a[k - 1] == a[..k][k - 1] && b[k - 1] == b[..k][k - 1];
      InsertionsOfPrefix(records, a, b, k - 1);
      TableAtPrefix(records, a, b, k - 1);
    }
  }

  /** Where a run stands before call `q`, in terms of the commands of the whole run. */
  lemma {:induction false} TableBefore(n: Node, ts: seq<TimedInput>, q: nat)
    requires q <= |ts| && Clocked(ts)
    ensures Position(n, ts, q) <= |DeliveredIn(n, ts)|
    ensures var arrivals, k := Arrivals(DeliveredIn(n, ts)), Position(n, ts, q);
            && Before(n, ts, q).duplicates == TableAt(n.duplicates, arrivals, k)
            && ExecutedBefore(n, ts, q) == Insertions(n.duplicates, arrivals, k)
  {
    hide CommandTo, Run, TableAt, Insertions, DeliveredIn;
    var part, whole := Arrivals(DeliveredIn(n, ts[..q])), Arrivals(DeliveredIn(n, ts));
    var k := Position(n, ts, q);
    DeliveredPrefix(n, ts, q);
    NodeRefinesTable(n, ts[..q]);
    assert part[..k] == whole[..k];
    TableAtPrefix(n.duplicates, part, whole, k);
    InsertionsOfPrefix(n.duplicates, part, whole, k);
  }

  lemma {:induction false} DeliveredHere(n: Node, ts: seq<TimedInput>, q: nat)
    requires q < |ts| && CommandAt(n, ts, q).Some?
    ensures Position(n, ts, q) < |DeliveredIn(n, ts)| && Position(n, ts, q + 1) == Position(n, ts, q) + 1
    ensures var d := Deliver(Before(n, ts, q), CommandAt(n, ts, q).value, ts[q].time, ts[q].input.ports.status);
            DeliveredIn(n, ts)[Position(n, ts, q)] == d
  {
    hide Run, Decode, Deliver;
    DeliveredPrefix(n, ts, q + 1);
    assert ts[..q + 1][..q] == ts[..q] && ts[..q + 1][q] == ts[q];
  }

  lemma {:induction false} PositionsGrow(n: Node, ts: seq<TimedInput>, p: nat, q: nat)
    requires p <= q <= |ts|
    ensures Position(n, ts, p) <= Position(n, ts, q)
  {
    hide CommandTo, Run, DeliveredIn;
    assert ts[..q][..p] == ts[..p];
    DeliveredPrefix(n, ts[..q], p);
  }

  /** Every delivered command came with some call. */
  lemma {:induction false} CallOf(n: Node, ts: seq<TimedInput>, k: nat) returns (q: nat)
    requires k < |DeliveredIn(n, ts)|
    ensures q < |ts| && CommandAt(n, ts, q).Some? && Position(n, ts, q) == k
    decreases |ts|
  {
    hide CommandTo, Run, Deliver;
    q := |ts| - 1;
    var shorter := ts[..q];
    if k < |DeliveredIn(n, shorter)| {
      q := CallOf(n, shorter, k);
      assert shorter[..q] == ts[..q];
    }
  }

  /** What call `q` does to handlers and queues when it delivers a command. */
  lemma {:induction false} CommandStep(n: Node, ts: seq<TimedInput>, q: nat)
    requires q < |ts| && Clocked(ts) && CommandAt(n, ts, q).Some?
    ensures Position(n, ts, q) < |DeliveredIn(n, ts)|
    ensures var before, f := Before(n, ts, q), CommandAt(n, ts, q).value;
            var m, ds, k := Step(before, ts[q].input), DeliveredIn(n, ts), Position(n, ts, q);
            && m.executions == before.executions + Called(TableAt(n.duplicates, Arrivals(ds), k), ds[k])
            && m.out == Acknowledged(before.out, f.identifier.destination, f, Reply(n.duplicates, Arrivals(ds), k))
  {
    hide Run, TableAt, DeliveredIn, Called, Acknowledged, EarlierStatus;
    var before, f := Before(n, ts, q), CommandAt(n, ts, q).value;
    TableBefore(n, ts, q);
    DeliveredHere(n, ts, q);
    StepTable(before, ts[q]);
    StepAcknowledges(before, ts[q]);
  }

  lemma {:induction false} StepAcknowledges(n: Node, t: TimedInput)
    requires ShowsClock(t) && CommandTo(n, t.input).Some?
    ensures var f := CommandTo(n, t.input).value;
            var a := Deliver(n, f, t.time, t.input.ports.status).arrival;
            var status := match EarlierStatus(n.duplicates, a.key, Now(a)) case Some(s) => s case None => a.answer;
            Step(n, t.input).out
            == Acknowledged(n.out, f.identifier.destination, f, status)
  {
    hide Dispatch, Acknowledged, EarlierStatus;
    EncodeDecoded(t.input.raw);
    var f := CommandTo(n, t.input).value;
    var heard := HearNode(n, f.identifier.source, t.time % WORD);
    AcknowledgesWithReply(heard, f, t.time, t.input.ports);
    ReplyAlone(n.duplicates, Deliver(n, f, t.time, t.input.ports.status).arrival);
  }

  lemma {:induction false} ReplyAlone(records: Table, a: Arrival)
    ensures Reply(records, [a], 0)
            == match EarlierStatus(records, a.key, Now(a)) case Some(s) => s case None => a.answer
  {
    hide EarlierStatus;
    assert TableAt(records, [a], 0) == records;
  }

  /** Two commands have one key: they come from one node, for one endpoint, under one transaction. */
  predicate SameCommand(f: ProtocolFrame, g: ProtocolFrame) {
    && f.identifier.source == g.identifier.source
    && f.payload.bytes[0] == g.payload.bytes[0] && f.payload.bytes[1] == g.payload.bytes[1]
  }

  lemma SameCommandSameKey(f: ProtocolFrame, g: ProtocolFrame)
    requires f.identifier.kind == g.identifier.kind == COMMAND
    ensures SameCommand(f, g) <==> KeyOfCommand(f) == KeyOfCommand(g)
  {
  }

  /** Calls `p` and `q` deliver copies of one command. */
  predicate Copies(n: Node, ts: seq<TimedInput>, p: nat, q: nat)
    requires p < q < |ts|
  {
    && CommandAt(n, ts, p).Some? && CommandAt(n, ts, q).Some?
    && SameCommand(CommandAt(n, ts, p).value, CommandAt(n, ts, q).value)
  }

  /** The second comes at most two seconds after the first. */
  predicate InWindow(ts: seq<TimedInput>, p: nat, q: nat)
    requires p < q < |ts|
  {
    ts[q].time - ts[p].time <= 2000
  }

  /** No earlier call delivered a command of the key. */
  predicate FirstDelivery(n: Node, ts: seq<TimedInput>, p: nat)
    requires p < |ts| && CommandAt(n, ts, p).Some?
  {
    forall k :: 0 <= k < p && CommandAt(n, ts, k).Some? ==>
      !SameCommand(CommandAt(n, ts, k).value, CommandAt(n, ts, p).value)
  }

  /** The status that call `p` gives if it executes its command. */
  function AnswerAt(n: Node, ts: seq<TimedInput>, p: nat): Status
    requires p < |ts| && CommandAt(n, ts, p).Some?
  {
    Deliver(Before(n, ts, p), CommandAt(n, ts, p).value, ts[p].time, ts[p].input.ports.status).arrival.answer
  }

  lemma {:induction false} FirstDeliveryIsFirstOfKey(n: Node, ts: seq<TimedInput>, p: nat)
    requires p < |ts| && CommandAt(n, ts, p).Some?
    ensures Position(n, ts, p) < |DeliveredIn(n, ts)|
    ensures FirstDelivery(n, ts, p) <==> FirstOfKey(Arrivals(DeliveredIn(n, ts)), Position(n, ts, p))
  {
    hide CommandTo, Run, DeliveredIn;
    var arrivals, k := Arrivals(DeliveredIn(n, ts)), Position(n, ts, p);
    DeliveredHere(n, ts, p);
    if FirstDelivery(n, ts, p) {
      forall m | 0 <= m < k ensures arrivals[m].key != arrivals[k].key {
        var x := CallOf(n, ts, m);
        DeliveredHere(n, ts, x);
        if x >= p { PositionsGrow(n, ts, p, x); }
      }
    }
    if FirstOfKey(arrivals, k) {
      forall x | 0 <= x < p && CommandAt(n, ts, x).Some?
        ensures !SameCommand(CommandAt(n, ts, x).value, CommandAt(n, ts, p).value)
      {
        DeliveredHere(n, ts, x);
        PositionsGrow(n, ts, x + 1, p);
      }
    }
  }

  lemma {:induction false} CopiesInTable(n: Node, ts: seq<TimedInput>, p: nat, q: nat)
    requires Clocked(ts) && p < q < |ts| && Copies(n, ts, p, q)
    ensures Position(n, ts, p) < Position(n, ts, q) < |DeliveredIn(n, ts)|
    ensures var a, i, j := Arrivals(DeliveredIn(n, ts)), Position(n, ts, p), Position(n, ts, q);
            && a[i].key == a[j].key && a[i].time == ts[p].time && a[j].time == ts[q].time && Chronological(a)
            && a[i].answer == AnswerAt(n, ts, p)
  {
    hide CommandTo, Run, DeliveredIn, Chronological;
    DeliveredHere(n, ts, p);
    DeliveredHere(n, ts, q);
    PositionsGrow(n, ts, p + 1, q);
    DeliveredInOrder(n, ts);
  }

  /** In every run from start-up, across any wrap of the clock: a copy that comes within two seconds of
      the first delivery of its command calls no handler, and is acknowledged, if it asks for it, with
      the status of that first delivery; unless so many commands were executed that its record is lost. */
  lemma {:induction false} CopiesAreAnsweredAlike(
    uid: Uid, role: Role, stored: Option<NodeAddress>, saved: bool, ts: seq<TimedInput>, p: nat, q: nat)
    requires Clocked(ts) && p < q < |ts|
    requires var n := Boot(uid, role, stored, saved);
             && Copies(n, ts, p, q) && InWindow(ts, p, q) && FirstDelivery(n, ts, p)
             && !LostByCount(ExecutedBefore(n, ts, p), ExecutedBefore(n, ts, q))
    ensures var n := Boot(uid, role, stored, saved);
            var before, g := Before(n, ts, q), CommandAt(n, ts, q).value;
            var m := Step(before, ts[q].input);
            && m.executions == before.executions
            && m.out == Acknowledged(before.out, g.identifier.destination, g, AnswerAt(n, ts, p))
  {
    hide CommandTo, Run, DeliveredIn, Boot, TableAt, Acknowledged, Retained, EarlierStatus, Deliver, Insertions;
    var n := Boot(uid, role, stored, saved);
    var a, i, j := Arrivals(DeliveredIn(n, ts)), Position(n, ts, p), Position(n, ts, q);
    BootedTableIsEmpty(uid, role, stored, saved);
    CopiesInTable(n, ts, p, q);
    FirstDeliveryIsFirstOfKey(n, ts, p);
    TableBefore(n, ts, p);
    TableBefore(n, ts, q);
    FirstIsExecuted(n.duplicates, a, i);
    RetainedByCount(n.duplicates, a, i, j);
    FirstCommandAnswersCopies(n.duplicates, a, i, j);
    CommandStep(n, ts, q);
  }

  lemma BootedRanNothing(uid: Uid, role: Role, stored: Option<NodeAddress>, saved: bool)
    ensures Boot(uid, role, stored, saved).executions == []
  {
  }

  lemma {:induction false} BootedTableIsEmpty(uid: Uid, role: Role, stored: Option<NodeAddress>, saved: bool)
    ensures Empty(Boot(uid, role, stored, saved).duplicates)
  {
  }

  /** Call `p` executes the command it delivers. */
  predicate ExecutesAt(n: Node, ts: seq<TimedInput>, p: nat)
    requires p < |ts| && CommandAt(n, ts, p).Some?
  {
    var before := Before(n, ts, p);
    IsNew(before.duplicates, Deliver(before, CommandAt(n, ts, p).value, ts[p].time, ts[p].input.ports.status).arrival)
  }

  lemma {:induction false} ExecutesInTable(n: Node, ts: seq<TimedInput>, p: nat)
    requires p < |ts| && Clocked(ts) && CommandAt(n, ts, p).Some?
    ensures Position(n, ts, p) < |DeliveredIn(n, ts)|
    ensures ExecutesAt(n, ts, p) <==> Executed(n.duplicates, Arrivals(DeliveredIn(n, ts)), Position(n, ts, p))
  {
    hide CommandTo, Run, DeliveredIn, TableAt, Deliver;
    TableBefore(n, ts, p);
    DeliveredHere(n, ts, p);
  }

  /** At most once, in every run from start-up and across any wrap of the clock: a copy that comes within
      two seconds of an execution of its command is not executed and calls no handler, unless so many
      commands were executed that its record is lost. */
  lemma {:induction false} CommandsRunAtMostOnce(
    uid: Uid, role: Role, stored: Option<NodeAddress>, saved: bool, ts: seq<TimedInput>, p: nat, q: nat)
    requires Clocked(ts) && p < q < |ts|
    requires var n := Boot(uid, role, stored, saved);
             && Copies(n, ts, p, q) && InWindow(ts, p, q) && ExecutesAt(n, ts, p)
             && !LostByCount(ExecutedBefore(n, ts, p), ExecutedBefore(n, ts, q))
    ensures var n := Boot(uid, role, stored, saved);
            && !ExecutesAt(n, ts, q) && Step(Before(n, ts, q), ts[q].input).executions == Before(n, ts, q).executions
            && Run(n, Inputs(ts)).executions == CallsOf(n.duplicates, DeliveredIn(n, ts), |DeliveredIn(n, ts)|)
  {
    hide CommandTo, Run, DeliveredIn, Boot, TableAt, Deliver, Insertions, ExecutesAt, Retained, Step, LostByCount;
    hide IsNew, Before;
    var n := Boot(uid, role, stored, saved);
    var a, i, j := Arrivals(DeliveredIn(n, ts)), Position(n, ts, p), Position(n, ts, q);
    BootedTableIsEmpty(uid, role, stored, saved);
    CopiesInTable(n, ts, p, q);
    ExecutesInTable(n, ts, p);
    ExecutesInTable(n, ts, q);
    TableBefore(n, ts, p);
    TableBefore(n, ts, q);
    RetainedByCount(n.duplicates, a, i, j);
    AtMostOnce(n.duplicates, a, i, j);
    CommandStep(n, ts, q);
    NodeRefinesTable(n, ts);
    BootedRanNothing(uid, role, stored, saved);
  }

  /** The status of the acknowledgement of the command that call `q` delivers. */
  function ReplyAt(n: Node, ts: seq<TimedInput>, q: nat): Status
    requires q < |ts| && CommandAt(n, ts, q).Some?
  {
    var a := Deliver(Before(n, ts, q), CommandAt(n, ts, q).value, ts[q].time, ts[q].input.ports.status).arrival;
    match EarlierStatus(Before(n, ts, q).duplicates, a.key, Now(a))
    case Some(status) => status
    case None => a.answer
  }

  lemma {:induction false} ReplyInTable(n: Node, ts: seq<TimedInput>, q: nat)
    requires q < |ts| && Clocked(ts) && CommandAt(n, ts, q).Some?
    ensures Position(n, ts, q) < |DeliveredIn(n, ts)|
    ensures ReplyAt(n, ts, q) == Reply(n.duplicates, Arrivals(DeliveredIn(n, ts)), Position(n, ts, q))
  {
    hide CommandTo, Run, DeliveredIn, TableAt, Deliver, EarlierStatus;
    TableBefore(n, ts, q);
    DeliveredHere(n, ts, q);
  }

  predicate BeforeClockWrap(ts: seq<TimedInput>) { forall k :: 0 <= k < |ts| ==> ts[k].time < WORD }

  lemma {:induction false} ArrivalsBeforeWrap(n: Node, ts: seq<TimedInput>)
    requires Clocked(ts) && BeforeClockWrap(ts)
    ensures forall k :: 0 <= k < |DeliveredIn(n, ts)| ==> Arrivals(DeliveredIn(n, ts))[k].time < WORD
  {
    hide CommandTo, Run;
    DeliveredInOrder(n, ts);
  }

  /** From start-up, before the clock wraps and while its record is not lost: a copy that comes within two
      seconds of an execution carries its status back if and only if that execution found the table
      full, or the key had never been used before it, or the status is UNSUPPORTED. */
  lemma {:induction false} CopiesCarryStatusExactly(
    uid: Uid, role: Role, stored: Option<NodeAddress>, saved: bool, ts: seq<TimedInput>, p: nat, q: nat)
    requires Clocked(ts) && BeforeClockWrap(ts) && p < q < |ts|
    requires var n := Boot(uid, role, stored, saved);
             Copies(n, ts, p, q) && InWindow(ts, p, q) && ExecutesAt(n, ts, p)
             && !LostByCount(ExecutedBefore(n, ts, p), ExecutedBefore(n, ts, q))
    ensures var n := Boot(uid, role, stored, saved);
            var before, g := Before(n, ts, q), CommandAt(n, ts, q).value;
            && (ReplyAt(n, ts, q) == AnswerAt(n, ts, p)
                <==> ExecutedBefore(n, ts, p) >= 16 || FirstDelivery(n, ts, p) || AnswerAt(n, ts, p) == UNSUPPORTED)
            && Step(before, ts[q].input).out
               == Acknowledged(before.out, g.identifier.destination, g, ReplyAt(n, ts, q))
  {
    hide CommandTo, Run, DeliveredIn, Boot, TableAt, Acknowledged, EarlierStatus, Deliver, Insertions;
    hide FirstDelivery, Step;
    var n := Boot(uid, role, stored, saved);
    var a, i, j := Arrivals(DeliveredIn(n, ts)), Position(n, ts, p), Position(n, ts, q);
    BootedTableIsEmpty(uid, role, stored, saved);
    CopiesInTable(n, ts, p, q);
    FirstDeliveryIsFirstOfKey(n, ts, p);
    ExecutesInTable(n, ts, p);
    TableBefore(n, ts, p);
    TableBefore(n, ts, q);
    ArrivalsBeforeWrap(n, ts);
    RepeatCarriesStatusIff(n.duplicates, a, i, j);
    CommandStep(n, ts, q);
    ReplyInTable(n, ts, q);
  }

  /** No call between `p` and `q` executes a copy of the command of `p`. */
  predicate NoCopyExecuted(n: Node, ts: seq<TimedInput>, p: nat, q: nat)
    requires p < q < |ts| && CommandAt(n, ts, p).Some?
  {
    forall k :: (p < k < q && CommandAt(n, ts, k).Some?
                 && SameCommand(CommandAt(n, ts, k).value, CommandAt(n, ts, p).value)) ==>
                      !ExecutesAt(n, ts, k)
  }

  lemma {:induction false} NoCopyInTable(n: Node, ts: seq<TimedInput>, p: nat, q: nat)
    requires Clocked(ts) && p < q < |ts| && Copies(n, ts, p, q) && NoCopyExecuted(n, ts, p, q)
    ensures Position(n, ts, p) < Position(n, ts, q) < |DeliveredIn(n, ts)|
    ensures NotRerun(n.duplicates, Arrivals(DeliveredIn(n, ts)), Position(n, ts, p), Position(n, ts, q))
  {
    hide CommandTo, Run, DeliveredIn, Executed, ExecutesAt;
    var a, i, j := Arrivals(DeliveredIn(n, ts)), Position(n, ts, p), Position(n, ts, q);
    CopiesInTable(n, ts, p, q);
    DeliveredHere(n, ts, p);
    forall m | i < m < j && a[m].key == a[i].key ensures !Executed(n.duplicates, a, m) {
      var x := CallOf(n, ts, m);
      DeliveredHere(n, ts, x);
      ExecutesInTable(n, ts, x);
      if x <= p { PositionsGrow(n, ts, x, p); }
      if x >= q { PositionsGrow(n, ts, q, x); }
    }
  }

  /** From start-up and before the clock wraps: a copy is executed again after the last execution of its
      command if and only if it comes more than two seconds later, or that execution was the very first
      of all and more than sixteen commands have been executed in all, or it found the table full and
      another command has been executed since. */
  lemma {:induction false} CopiesRunAgainExactly(
    uid: Uid, role: Role, stored: Option<NodeAddress>, saved: bool, ts: seq<TimedInput>, p: nat, q: nat)
    requires Clocked(ts) && BeforeClockWrap(ts) && p < q < |ts|
    requires var n := Boot(uid, role, stored, saved);
             Copies(n, ts, p, q) && ExecutesAt(n, ts, p) && NoCopyExecuted(n, ts, p, q)
    ensures var n := Boot(uid, role, stored, saved);
            ExecutesAt(n, ts, q)
            <==> !InWindow(ts, p, q) || LostByCount(ExecutedBefore(n, ts, p), ExecutedBefore(n, ts, q))
  {
    hide CommandTo, Run, DeliveredIn, Boot, TableAt, Executed, Deliver, Insertions, NoCopyExecuted, ExecutesAt;
    hide NotRerun;
    var n := Boot(uid, role, stored, saved);
    var a, i, j := Arrivals(DeliveredIn(n, ts)), Position(n, ts, p), Position(n, ts, q);
    BootedTableIsEmpty(uid, role, stored, saved);
    CopiesInTable(n, ts, p, q);
    NoCopyInTable(n, ts, p, q);
    ExecutesInTable(n, ts, p);
    ExecutesInTable(n, ts, q);
    TableBefore(n, ts, p);
    TableBefore(n, ts, q);
    ArrivalsBeforeWrap(n, ts);
    RepeatRunsAgainByCount(n.duplicates, a, i, j);
  }

  // ---------------------------------------------------------------- addressed traffic and claims

  /** Commands are handled alike before, during and after the claims: the schedule is never looked at. */
  lemma {:induction false} ClaimsDoNotMatter(n: Node, f: ProtocolFrame, now: U32, status: Status, schedule: Schedule)
    requires schedule.ownedIndex <= 16 && schedule.observedIndex <= 16
    ensures HandleCommand(n.(schedule := schedule), f, now, status)
            == HandleCommand(n, f, now, status).(schedule := schedule)
  {
    hide EarlierStatus, Record, SetStatus, HandlerSlot, Enqueue, AckFrame;
  }

  /** The call serves a command, its handler runs, while the node has still to send a claim. */
  predicate ServesEarly(n: Node, t: TimedInput) {
    Step(n, t.input).executions != n.executions && n.schedule.claimsSent < 2
  }

  /** A delivered command is served early exactly when a claim is still to be sent, the command is new,
      and its endpoint has a handler. */
  lemma {:induction false} ServedBeforeClaims(n: Node, t: TimedInput)
    requires ShowsClock(t) && CommandTo(n, t.input).Some?
    ensures var d := Deliver(n, CommandTo(n, t.input).value, t.time, t.input.ports.status);
            ServesEarly(n, t) <==> n.schedule.claimsSent < 2 && IsNew(n.duplicates, d.arrival) && d.handler.Some?
  {
    hide Step, IsNew, Deliver;
    StepTable(n, t);
    var d := Deliver(n, CommandTo(n, t.input).value, t.time, t.input.ports.status);
    if IsNew(n.duplicates, d.arrival) && d.handler.Some? {
      assert |Step(n, t.input).executions| == |n.executions| + 1;
    } else {
      assert Step(n, t.input).executions == n.executions;
    }
  }
}
