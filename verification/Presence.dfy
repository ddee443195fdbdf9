/** Offline detection is exact across the wrap of the 32-bit clock. */
module Presence {
  import opened Wrappers
  import opened Types
  import opened CanIdentifiers
  import opened WirePayloads
  import opened FrameCodec
  import opened Directories
  import opened Nodes
  import opened NodeInvariants

  /** A public call at an instant of an unbounded clock; the node sees the instant modulo 2^32. */
  datatype TimedInput = At(time: nat, input: Input)

  function Inputs(ts: seq<TimedInput>): (inputs: seq<Input>)
    ensures |inputs| == |ts|
  {
    seq(|ts|, i requires 0 <= i < |ts| => ts[i].input)
  }

  predicate ShowsClock(t: TimedInput) {
    && (t.input.Received? ==> t.input.now == t.time % WORD)
    && (t.input.Ticked? ==> t.input.now == t.time % WORD)
  }

  /** Calls come in the order of their instants, and the node is told the time. */
  predicate Clocked(ts: seq<TimedInput>) {
    && (forall i :: 0 <= i < |ts| ==> ShowsClock(ts[i]))
    && (forall i, j :: 0 <= i < j < |ts| ==> ts[i].time <= ts[j].time)
  }

  /** The instant of the last tick, or of start-up. */
  function LastTick(ts: seq<TimedInput>): nat {
    if ts == [] then 0
    else if ts[|ts| - 1].input.Ticked? then ts[|ts| - 1].time
    else LastTick(ts[..|ts| - 1])
  }

  const MAX_TICK_GAP := WORD - OFFLINE_AFTER

  /** No two ticks in a row, counting start-up, are further apart than the clock can tell. */
  predicate TickedOften(ts: seq<TimedInput>) {
    ts != [] ==>
      var before, last := ts[..|ts| - 1], ts[|ts| - 1];
      TickedOften(before) && (last.input.Ticked? ==> last.time - LastTick(before) <= MAX_TICK_GAP)
  }

  /** The call delivers a valid frame from address `a`. */
  predicate Delivers(t: TimedInput, a: NodeAddress) {
    t.input.Received? && Decode(t.input.raw).Success? && Decode(t.input.raw).value.identifier.source == a
  }

  function LastHeard(ts: seq<TimedInput>, a: NodeAddress): Option<nat> {
    if ts == [] then None
    else if Delivers(ts[|ts| - 1], a) then Some(ts[|ts| - 1].time)
    else LastHeard(ts[..|ts| - 1], a)
  }

  lemma {:induction false} LastHeardIsLatest(ts: seq<TimedInput>, a: NodeAddress)
    requires Clocked(ts)
    ensures LastHeard(ts, a).Some? ==>
              exists k :: 0 <= k < |ts| && Delivers(ts[k], a) && ts[k].time == LastHeard(ts, a).value
    ensures forall k :: 0 <= k < |ts| && Delivers(ts[k], a) ==>
              LastHeard(ts, a).Some? && ts[k].time <= LastHeard(ts, a).value
  {
    if ts != [] && !Delivers(ts[|ts| - 1], a) {
      LastHeardIsLatest(ts[..|ts| - 1], a);
    }
  }

  /** What the presence table means between ticks. */
  predicate Tracks(d: Directory, a: NodeAddress, heard: Option<nat>, tick: nat)
    requires WellSized(d)
  {
    && (d.seen[a] ==> heard.Some? && d.lastSeen[a] == heard.value % WORD && tick - heard.value < OFFLINE_AFTER)
    && (!d.seen[a] && heard.Some? ==> tick - heard.value >= OFFLINE_AFTER)
  }

  lemma ReceivePresence(n: Node, raw: RawCanFrame, now: U32, p: Ports)
    ensures var m := Receive(n, raw, now, p);
            match Decode(raw)
            case Failure(_) => m == n
            case Success(f) =>
              var heard := Hear(n.dir, f.identifier.source, now);
              m.dir.seen == heard.seen && m.dir.lastSeen == heard.lastSeen
  {
    if Decode(raw).Success? {
      EncodeDecoded(raw);
      var f := Decode(raw).value;
      DispatchDirectory(HearNode(n, f.identifier.source, now), f, now, p);
    }
  }

  lemma OtherCallsKeepPresence(n: Node, input: Input)
    requires !input.Received? && !input.Ticked?
    ensures Step(n, input).dir == n.dir
  {
  }

  lemma {:induction false} RunTracks(n: Node, ts: seq<TimedInput>, a: NodeAddress)
    requires OwnersSeen(n.dir) && !n.dir.seen[a] && IsUnicast(a) && Clocked(ts) && TickedOften(ts)
    ensures OwnersSeen(Run(n, Inputs(ts)).dir)
    ensures Tracks(Run(n, Inputs(ts)).dir, a, LastHeard(ts, a), LastTick(ts))
    decreases |ts|
  {
    hide Step, Delivers;
    if ts != [] {
      var before, last := ts[..|ts| - 1], ts[|ts| - 1];
      var m := Run(n, Inputs(before));
      assert Inputs(ts)[..|ts| - 1] == Inputs(before);
      RunTracks(n, before, a);
      LastTickPast(before);
      LastHeardIsLatest(before, a);
      StepTracks(m, before, last, a);
    }
  }

  lemma {:induction false} LastTickPast(ts: seq<TimedInput>)
    requires Clocked(ts)
    ensures LastTick(ts) != 0 ==> exists k :: 0 <= k < |ts| && ts[k].time == LastTick(ts)
  {
    if ts != [] && !ts[|ts| - 1].input.Ticked? { LastTickPast(ts[..|ts| - 1]); }
  }

  lemma {:induction false} StepTracks(m: Node, before: seq<TimedInput>, last: TimedInput, a: NodeAddress)
    requires OwnersSeen(m.dir) && IsUnicast(a) && ShowsClock(last)
    requires Tracks(m.dir, a, LastHeard(before, a), LastTick(before))
    requires LastTick(before) <= last.time
    requires LastHeard(before, a).Some? ==> LastHeard(before, a).value <= last.time
    requires last.input.Ticked? ==> last.time - LastTick(before) <= MAX_TICK_GAP
    ensures OwnersSeen(Step(m, last.input).dir)
    ensures Tracks(Step(m, last.input).dir, a, LastHeard(before + [last], a), LastTick(before + [last]))
  {
    hide Step, Tracks, LastHeard, LastTick, OwnersSeen;
    match last.input
    case Received(_, _, _) => ReceiveTracks(m, before, last, a);
    case Ticked(_, _) => TickTracks(m, before, last, a);
    case _ =>
      OtherCallsKeepPresence(m, last.input);
      SilentCall(before, last, a);
  }

  lemma {:induction false} SilentCall(before: seq<TimedInput>, last: TimedInput, a: NodeAddress)
    ensures !last.input.Received? ==> LastHeard(before + [last], a) == LastHeard(before, a)
    ensures !last.input.Ticked? ==> LastTick(before + [last]) == LastTick(before)
    ensures last.input.Ticked? ==> LastTick(before + [last]) == last.time
    ensures last.input.Received? ==>
              LastHeard(before + [last], a) == if Delivers(last, a) then Some(last.time) else LastHeard(before, a)
  {
    hide Decode;
    assert (before + [last])[..|before|] == before;
  }

  lemma {:induction false} ReceiveTracks(m: Node, before: seq<TimedInput>, last: TimedInput, a: NodeAddress)
    requires OwnersSeen(m.dir) && IsUnicast(a) && ShowsClock(last) && last.input.Received?
    requires Tracks(m.dir, a, LastHeard(before, a), LastTick(before)) && LastTick(before) <= last.time
    ensures OwnersSeen(Step(m, last.input).dir)
    ensures Tracks(Step(m, last.input).dir, a, LastHeard(before + [last], a), LastTick(before + [last]))
  {
    hide Receive, LastHeard, LastTick, Decode, OwnersSeen;
    ReceivePresence(m, last.input.raw, last.input.now, last.input.ports);
    ReceiveKeepsOwners(m, last.input.raw, last.input.now, last.input.ports);
    SilentCall(before, last, a);
  }

  lemma {:induction false} TickTracks(m: Node, before: seq<TimedInput>, last: TimedInput, a: NodeAddress)
    requires OwnersSeen(m.dir) && IsUnicast(a) && ShowsClock(last) && last.input.Ticked?
    requires Tracks(m.dir, a, LastHeard(before, a), LastTick(before))
    requires LastTick(before) <= last.time && last.time - LastTick(before) <= MAX_TICK_GAP
    requires LastHeard(before, a).Some? ==> LastHeard(before, a).value <= last.time
    ensures OwnersSeen(Step(m, last.input).dir)
    ensures Tracks(Step(m, last.input).dir, a, LastHeard(before + [last], a), LastTick(before + [last]))
  {
    hide Tick, LastHeard, LastTick, OwnersSeen;
    TickDirectory(m, last.input.now, last.input.ports);
    ExpireForgetsStale(m.dir, 1, last.input.now);
    if m.dir.seen[a] { WrapSafeAge(last.time, LastHeard(before, a).value); }
    SilentCall(before, last, a);
  }

  lemma DispatchKeepsOwners(n: Node, raw: RawCanFrame, now: U32, p: Ports)
    requires OwnersSeen(n.dir) && Decode(raw).Success?
    ensures ValidFrame(Decode(raw).value)
    ensures var f := Decode(raw).value; OwnersSeen(Dispatch(HearNode(n, f.identifier.source, now), f, now, p).dir)
  {
    hide Dispatch, Decode, Learn;
    EncodeDecoded(raw);
    var f := Decode(raw).value;
    var heard := HearNode(n, f.identifier.source, now);
    DispatchDirectory(heard, f, now, p);
    if f.identifier.kind == ENTITY_CLAIM {
      LearnKeepsOwners(heard.dir, EntityLocation(U32At(f.payload.bytes, 2), f.identifier.source, f.payload.bytes[1]));
    }
  }

  lemma ReceiveKeepsOwners(n: Node, raw: RawCanFrame, now: U32, p: Ports)
    requires OwnersSeen(n.dir)
    ensures OwnersSeen(Receive(n, raw, now, p).dir)
  {
    hide Dispatch, Decode, OwnersSeen, Hear, Learn;
    if Decode(raw).Success? { DispatchKeepsOwners(n, raw, now, p); }
  }

  /** A valid frame from `a` arrived less than 105000 true milliseconds before `now`. */
  predicate HeardRecently(ts: seq<TimedInput>, a: NodeAddress, now: nat) {
    exists k :: 0 <= k < |ts| && Delivers(ts[k], a) && now - ts[k].time < 105000
  }

  /** After each tick, whatever the 32-bit clock did: an address is online exactly when a valid frame
      from it arrived less than 105000 true milliseconds ago, and every directory entry belongs to
      such an address. */
  lemma {:induction false} OfflineDetectionIsExact(
    uid: Uid, role: Role, stored: Option<NodeAddress>, saved: bool, ts: seq<TimedInput>, a: NodeAddress)
    requires IsUnicast(a) && Clocked(ts) && TickedOften(ts) && ts != [] && ts[|ts| - 1].input.Ticked?
    ensures var n := Run(Boot(uid, role, stored, saved), Inputs(ts));
            && (n.dir.seen[a] <==> HeardRecently(ts, a, ts[|ts| - 1].time))
            && (forall i :: 0 <= i < |n.dir.slots| && n.dir.slots[i].Some? && n.dir.slots[i].value.node == a ==>
                  HeardRecently(ts, a, ts[|ts| - 1].time))
  {
    hide Step, Delivers;
    RunTracks(Boot(uid, role, stored, saved), ts, a);
    LastHeardIsLatest(ts, a);
  }

  /** In every run, frames of nodes without an address leave no presence behind. */
  lemma {:induction false} NobodyIsSeen(
    uid: Uid, role: Role, stored: Option<NodeAddress>, saved: bool, inputs: seq<Input>)
    ensures var d := Run(Boot(uid, role, stored, saved), inputs).dir; !d.seen[0] && OwnersSeen(d)
  {
    hide Step;
    if inputs != [] {
      NobodyIsSeen(uid, role, stored, saved, inputs[..|inputs| - 1]);
      StepSeesNobody(Run(Boot(uid, role, stored, saved), inputs[..|inputs| - 1]), inputs[|inputs| - 1]);
    }
  }

  lemma StepSeesNobody(n: Node, input: Input)
    requires !n.dir.seen[0] && OwnersSeen(n.dir)
    ensures !Step(n, input).dir.seen[0] && OwnersSeen(Step(n, input).dir)
  {
    hide Receive, Tick, Expire, OwnersSeen;
    match input
    case Received(raw, now, ports) =>
      ReceivePresence(n, raw, now, ports);
      ReceiveKeepsOwners(n, raw, now, ports);
    case Ticked(now, ports) =>
      TickDirectory(n, now, ports);
      ExpiryIs(n.dir, now);
      ExpireForgetsStale(n.dir, 1, now);
    case _ => OtherCallsKeepPresence(n, input);
  }

  lemma {:induction false} ExpiryIs(d: Directory, now: U32)
    requires WellSized(d)
    ensures Expire(d, now) == ExpireFrom(d, 1, now)
  {
  }
}
