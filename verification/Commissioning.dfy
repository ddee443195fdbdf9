/** How a node comes by an address: discovery, assignment, and the address put to use. */
module Commissioning {
  import opened Wrappers
  import opened Types
  import opened CanIdentifiers
  import opened WirePayloads
  import opened FrameCodec
  import opened Outboxes
  import opened Directories
  import opened Nodes
  import opened NodeInvariants
  import opened CodecClosure
  import opened TickRuns
  import opened DiscoveryBackoff

  function SourceOf(n: Node): NodeAddress { if n.address.Some? then n.address.value else UNASSIGNED }

  /** What a node answers to a pending request. */
  function Answer(n: Node): ProtocolFrame
    requires n.pending.Some?
  {
    DiscoveryResponseFrame(n.uid, n.pending.value.transaction, n.pending.value.requester, SourceOf(n))
  }

  /** A discovery request is noted for an answer within the window it names. */
  lemma RequestIsNoted(n: Node, f: ProtocolFrame, now: U32, p: Ports)
    requires ValidFrame(f) && f.identifier.kind == DISCOVERY_REQUEST && now + 10000 < WORD
    ensures var m, window := Dispatch(n, f, now, p), U16At(f.payload.bytes, 2);
            && m == n.(pending := m.pending) && m.pending.Some?
            && m.pending.value.dueMs == now + ResponseDelay(n.uid, f.payload.bytes) < now + window <= now + 10000
            && m.pending.value.requester == f.identifier.source && m.pending.value.transaction == f.payload.bytes[0]
  {
    hide MixBytes;
  }

  /** Once due, the answer is what the next tick sends, whatever else is waiting to be said. */
  lemma DueAnswerIsSent(n: Node, now: U32, p: Ports)
    requires n.pending.Some? && now >= n.pending.value.dueMs && PendingOk(n) && Addressed(n) && Idle(n.out)
    requires p.refused == {}
    ensures Encode(Answer(n)).Success? && Tick(n, now, p).out == SentNow(n.out, Answer(n))
            && Tick(n, now, p).pending.None?
  {
    hide Expire, Enqueue, Encode, Drain, DiscoveryResponseFrame;
    DiscoveryFrames(n.uid, 0, n.pending.value.transaction, n.pending.value.requester, SourceOf(n));
    QueuedThenDrained(n.out, Answer(n));
  }

  /** A node takes the address that is assigned to its UID and saved; it has then still to claim it, and
      to announce its entities anew. Otherwise it has only heard from the manager. */
  lemma AssignmentIsTaken(n: Node, a: NodeAddress, uid: Uid, granted: NodeAddress, now: U32, p: Ports)
    requires IsUnicast(a) && IsUnicast(granted)
    ensures var raw := Encode(AssignFrame(a, uid, granted));
            && raw.Success?
            && var heard := HearNode(n, a, now);
               Receive(n, raw.value, now, p)
               == if uid == n.uid && p.saved
                  then heard.(stored := Some(granted), address := Some(granted),
                              reserved := n.reserved[granted := true],
                              schedule := n.schedule.(claimsSent := 0, claimScheduled := false, nextClaim := now,
                                                      ownedIndex := 0, observedIndex := 0))
                  else heard
  {
    hide Encode, Hear;
    AssignEncodes(a, uid, granted);
    DecodeEncoded(AssignFrame(a, uid, granted));
    var f := AssignFrame(a, uid, granted);
    var heard := HearNode(n, a, now);
    assert Receive(n, Encode(f).value, now, p) == HandleAssign(heard, f.payload.bytes, now, p.saved) by {
      hide HandleAssign, HearNode, Decode;
    }
  }

  /** No claim has been planned or sent since the address was taken at this instant, and nothing announced. */
  predicate NothingClaimed(n: Node, now: U32) {
    && n.schedule.claimsSent == 0 && !n.schedule.claimScheduled && n.schedule.nextClaim == now
    && n.schedule.ownedIndex == 0 && n.schedule.observedIndex == 0
  }

  /** An assignment of the address that the node holds already changes nothing, except that the manager
      is heard, exactly while nothing has been claimed since; later it starts claims and announcements
      over again. */
  lemma RepeatedAssignment(n: Node, a: NodeAddress, granted: NodeAddress, now: U32, p: Ports)
    requires IsUnicast(a) && IsUnicast(granted) && p.saved
    requires n.address == Some(granted) && n.stored == Some(granted) && n.reserved[granted]
    ensures var raw := Encode(AssignFrame(a, n.uid, granted));
            && raw.Success?
            && (Receive(n, raw.value, now, p) == HearNode(n, a, now) <==> NothingClaimed(n, now))
            && NothingClaimed(Receive(n, raw.value, now, p), now)
  {
    hide Encode, Hear, Receive;
    AssignmentIsTaken(n, a, n.uid, granted, now, p);
    assert n.reserved[granted := true] == n.reserved;
  }

  lemma PlannedStays(n: Node, now: U32, p: Ports)
    requires n.schedule.claimScheduled
    ensures TickScheduled(n, now, p).schedule.claimScheduled
  {
    hide Encode, Enqueue, Drain;
  }

  /** A node that boots with address 5 and has ticked once has planned its claim; hearing of its address
      again makes it plan anew. */
  lemma RepeatClaimsAgain(uid: Uid, a: NodeAddress, time: U32, now: U32, p: Ports, q: Ports)
    requires IsUnicast(a) && p.saved
    ensures var n := Tick(Boot(uid, NoRole, Some(5), true), time, q);
            var raw := Encode(AssignFrame(a, uid, 5));
            && raw.Success? && n.schedule.claimScheduled
            && !Receive(n, raw.value, now, p).schedule.claimScheduled
  {
    hide Encode, Hear, Receive, Expire, Announce;
    var booted := Boot(uid, NoRole, Some(5), true);
    hide TickScheduled;
    TickFrame(booted, time, q);
    PlannedStays(ScheduleClaim(ExpireNode(booted, time), time), time, q);
    AssignmentIsTaken(Tick(booted, time, q), a, uid, 5, now, p);
  }

  /** The answer of an unassigned node makes a primary send an assignment of its smallest free address
      to that node's UID, past the queues. */
  lemma PrimaryAssigns(n: Node, uid: Uid, transaction: Byte, now: U32, p: Ports)
    requires n.role == Primary && n.address.Some? && IsUnicast(n.address.value)
    requires NextFree(n.reserved, 1).Some? && p.refused == {}
    ensures var answer := Encode(DiscoveryResponseFrame(uid, transaction, UNASSIGNED, UNASSIGNED));
            var free := NextFree(n.reserved, 1).value;
            var granting := Encode(AssignFrame(n.address.value, uid, free));
            && answer.Success? && granting.Success? && IsUnicast(free)
            && var m := Receive(n, answer.value, now, p);
               && m.out.wire == n.out.wire + [Attempt(granting.value, true, false)]
               && m.reserved == n.reserved[free := true]
  {
    hide Encode, Hear, NextFree;
    var f := DiscoveryResponseFrame(uid, transaction, UNASSIGNED, UNASSIGNED);
    DiscoveryFrames(uid, 0, transaction, UNASSIGNED, UNASSIGNED);
    DecodeEncoded(f);
    AssignEncodes(n.address.value, uid, NextFree(n.reserved, 1).value);
    assert f.payload.bytes[1..7] == uid;
    var heard := HearNode(n, UNASSIGNED, now);
    assert Receive(n, Encode(f).value, now, p) == Assign(heard, f.payload.bytes, p) by {
      hide Assign, HearNode, Decode;
    }
  }

  /** From an unassigned node's own pending answer to its address, in three deliveries: the tick sends
      the answer, the primary assigns its smallest free address, and the node takes it. */
  lemma DiscoveryLeadsToAddress(n: Node, primary: Node, now: U32, later: U32, last: U32, p: Ports, q: Ports, r: Ports)
    requires n.address.None? && n.pending.Some? && n.pending.value.requester == UNASSIGNED
    requires now >= n.pending.value.dueMs
    requires Addressed(n) && Idle(n.out) && p.refused == {} && q.refused == {} && r.saved
    requires primary.role == Primary && primary.address.Some? && IsUnicast(primary.address.value)
    requires NextFree(primary.reserved, 1).Some?
    ensures Encode(Answer(n)).Success? && IsUnicast(NextFree(primary.reserved, 1).value)
    ensures var asked := Tick(n, now, p);
            var told := Receive(primary, Encode(Answer(n)).value, later, q);
            var granted := NextFree(primary.reserved, 1).value;
            && asked.out.wire == n.out.wire + [Attempt(Encode(Answer(n)).value, true, true)]
            && |told.out.wire| == |primary.out.wire| + 1 && told.out.wire[|primary.out.wire|].sent
               && told.reserved[granted]
            && Receive(asked, told.out.wire[|primary.out.wire|].raw, last, r).address == Some(granted)
  {
    hide Tick, Receive, Encode, NextFree, AssignFrame, DiscoveryResponseFrame;
    DueAnswerIsSent(n, now, p);
    TickFrame(n, now, p);
    PrimaryAssigns(primary, n.uid, n.pending.value.transaction, later, q);
    AssignmentIsTaken(Tick(n, now, p), primary.address.value, n.uid, NextFree(primary.reserved, 1).value, last, r);
  }
}
