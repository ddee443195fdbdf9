/** A node reports a conflict exactly when it loses its address, and starts over once it has one again. */
module ConflictReports {
  import opened Wrappers
  import opened Types
  import opened CanIdentifiers
  import opened WirePayloads
  import opened FrameCodec
  import opened Outboxes
  import opened Directories
  import opened Nodes
  import opened NodeInvariants
  import opened Installations
  import opened UidOrder
  import opened Commissioning

  /** The call brings a claim from the node's own address, or a conflict notice to it, with a lower UID. */
  predicate Yields(n: Node, input: Input) {
    && n.address.Some? && input.Received? && Decode(input.raw).Success?
    && var f := Decode(input.raw).value;
       && ((f.identifier.kind == ADDRESS_CLAIM && f.identifier.source == n.address.value)
           || (f.identifier.kind == ADDRESS_CONFLICT && f.identifier.destination == n.address.value))
       && UidValue(f.payload.bytes[..6]) < UidValue(n.uid)
  }

  lemma ClaimReport(n: Node, source: NodeAddress, b: Bytes8)
    ensures var m := HandleClaim(n, source, b);
            if n.address == Some(source) && UidValue(b[..6]) < UidValue(n.uid)
            then m.conflicts == n.conflicts + [source] && m.address == None
            else m.conflicts == n.conflicts && m.address == n.address
  {
    hide Enqueue, ConflictFrame, LowerFromTop, UidValue;
    ComparisonIsNumeric(n.uid, b[..6]);
  }

  lemma NoticeReport(n: Node, b: Bytes8)
    requires n.address.Some?
    ensures var m := HandleConflict(n, b);
            if UidValue(b[..6]) < UidValue(n.uid)
            then m.conflicts == n.conflicts + [n.address.value] && m.address == None
            else m.conflicts == n.conflicts && m.address == n.address
  {
    hide LowerFromTop, UidValue;
    ComparisonIsNumeric(b[..6], n.uid);
  }

  lemma AssignmentReportsNothing(n: Node, b: Bytes8, now: U32, saved: bool)
    ensures var m := HandleAssign(n, b, now, saved);
            m.conflicts == n.conflicts && (m.address == n.address || m.address.Some?)
  {
  }

  lemma DispatchReports(n: Node, f: ProtocolFrame, now: U32, p: Ports)
    requires ValidFrame(f)
    ensures var m := Dispatch(n, f, now, p);
            var outranked := n.address.Some? && UidValue(f.payload.bytes[..6]) < UidValue(n.uid)
                          && ((f.identifier.kind == ADDRESS_CLAIM && f.identifier.source == n.address.value)
                              || (f.identifier.kind == ADDRESS_CONFLICT
                                  && f.identifier.destination == n.address.value));
            && m.conflicts == n.conflicts + (if outranked then [n.address.value] else [])
            && (outranked ==> m.address == None)
            && (!outranked && n.address.Some? ==> m.address.Some?)
  {
    hide HandleClaim, HandleConflict, HandleAssign, ClaimMatching, HandleState, HandleEvent, HandleCommand;
    hide HandleDiscoveryResponse, UidValue, Learn, ScheduleResponse;
    var kind, b := f.identifier.kind, f.payload.bytes;
    DispatchTouches(n, f, now, p);
    if kind == ADDRESS_CLAIM {
      ClaimReport(n, f.identifier.source, b);
    } else if kind == ADDRESS_CONFLICT {
      if n.address == Some(f.identifier.destination) { NoticeReport(n, b); }
    } else if kind == ADDRESS_ASSIGN {
      AssignmentReportsNothing(n, b, now, p.saved);
    }
  }

  /** Every call: the node reports its address, once, and is left without one, exactly if it is told of a
      lower UID at it. */
  lemma ConflictIsReported(n: Node, input: Input)
    ensures var m := Step(n, input);
            && m.conflicts == n.conflicts + (if Yields(n, input) then [n.address.value] else [])
            && (n.address.Some? ==> (m.address == None <==> Yields(n, input)))
  {
    hide Dispatch, Tick, Enqueue, Drain, RegisterOwned, RegisterObserved, UidValue;
    match input
    case Received(raw, now, ports) =>
      if Decode(raw).Success? {
        EncodeDecoded(raw);
        var f := Decode(raw).value;
        DispatchReports(HearNode(n, f.identifier.source, now), f, now, ports);
      }
    case Ticked(now, ports) => TickFrame(n, now, ports);
    case _ =>
  }

  /** The addresses lost in a run, in order. */
  function Lost(n: Node, inputs: seq<Input>): seq<NodeAddress> {
    if inputs == [] then []
    else
      var before := inputs[..|inputs| - 1];
      Lost(n, before)
      + if Run(n, before).address.Some? && Run(n, inputs).address.None? then [Run(n, before).address.value] else []
  }

  /** In every run the addresses reported are exactly those lost, in order. */
  lemma {:induction false} ReportsAreLosses(n: Node, inputs: seq<Input>)
    ensures Run(n, inputs).conflicts == n.conflicts + Lost(n, inputs)
  {
    hide Step;
    if inputs != [] {
      var before := inputs[..|inputs| - 1];
      ReportsAreLosses(n, before);
      ConflictIsReported(Run(n, before), inputs[|inputs| - 1]);
    }
  }

  // ---------------------------------------------------------------- starting over

  lemma YieldingResets(n: Node, input: Input)
    requires Yields(n, input)
    ensures var m := Step(n, input);
            && m.uid == n.uid && m.stored == n.stored
            && m.schedule.nextHeartbeat == 0 && m.schedule.claimsSent == 0 && !m.schedule.claimScheduled
            && m.schedule.nextDiscovery == n.schedule.nextDiscovery
            && m.schedule.discoveryAttempt == n.schedule.discoveryAttempt
  {
    hide UidValue, Enqueue;
    EncodeDecoded(input.raw);
    var f := Decode(input.raw).value;
    ComparisonIsNumeric(f.payload.bytes[..6], n.uid);
    ComparisonIsNumeric(n.uid, f.payload.bytes[..6]);
  }

  /** A node that has lost its address and is assigned one plans its claims, announcements and heartbeats as
      one does that has just booted without an address; only the pace of its discovery requests stays. */
  lemma LoserStartsOver(n: Node, input: Input, a: NodeAddress, granted: NodeAddress, now: U32, p: Ports)
    requires Yields(n, input) && IsUnicast(a) && IsUnicast(granted) && p.saved
    ensures var assignment := Encode(AssignFrame(a, n.uid, granted));
            && assignment.Success?
            && var again := Receive(Step(n, input), assignment.value, now, p);
               var anew := Receive(Boot(n.uid, NoRole, None, false), assignment.value, now, p);
               && again.address == anew.address == Some(granted)
               && again.schedule == anew.schedule.(nextDiscovery := n.schedule.nextDiscovery,
                                                   discoveryAttempt := n.schedule.discoveryAttempt)
  {
    hide Step, Encode, Receive, Hear, Yields;
    YieldingResets(n, input);
    AssignmentIsTaken(Step(n, input), a, n.uid, granted, now, p);
    AssignmentIsTaken(Boot(n.uid, NoRole, None, false), a, n.uid, granted, now, p);
  }
}
