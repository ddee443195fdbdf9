/** The addresses one node issues over a whole run. */
module Allocator {
  import opened Wrappers
  import opened Types
  import opened CanIdentifiers
  import opened WirePayloads
  import opened FrameCodec
  import opened Outboxes
  import opened Directories
  import opened Nodes
  import opened NodeFrames
  import opened NodeInvariants
  import opened Installations
  import opened Commissioning

  /** The address a transmission gives away: an assignment sent past the queues. */
  function GivenAway(a: Attempt): Option<NodeAddress> {
    if a.queued || !a.sent then None
    else
      match Decode(a.raw)
      case Failure(_) => None
      case Success(f) => if f.identifier.kind == ADDRESS_ASSIGN then Some(AssignedAddress(f.payload.bytes)) else None
  }

  function IssuedOn(wire: seq<Attempt>): seq<NodeAddress> {
    if wire == [] then []
    else
      match GivenAway(wire[|wire| - 1])
      case None => IssuedOn(wire[..|wire| - 1])
      case Some(a) => IssuedOn(wire[..|wire| - 1]) + [a]
  }

  lemma {:induction false} IssuedAppend(wire: seq<Attempt>, a: Attempt)
    ensures IssuedOn(wire + [a]) == IssuedOn(wire) + (if GivenAway(a).Some? then [GivenAway(a).value] else [])
  {
    assert (wire + [a])[..|wire|] == wire;
  }

  predicate IssuedIs(o: Outbox, issued: seq<NodeAddress>) { |o.queues| == CLASSES && IssuedOn(o.wire) == issued }

  ghost function IssuedInv(issued: seq<NodeAddress>): Outbox -> bool { o => IssuedIs(o, issued) }

  /** An author with nobody to assign to sends no assignment. */
  lemma QuietAuthorKeepsIssued(a: Author, issued: seq<NodeAddress>)
    requires !Assigns(a)
    ensures Kept(a, IssuedInv(issued))
  {
    forall o, c | IssuedIs(o, issued) && 0 <= c < CLASSES && o.queues[c] != []
      ensures IssuedIs(Pop(o, c, a.refused), issued)
    {
      IssuedAppend(o.wire, Attempt(o.queues[c][0], o.queues[c][0] !in a.refused, true));
    }
    forall o, f | IssuedIs(o, issued) && Authored(a, f) && Encode(f).Success?
      ensures IssuedIs(Transmit(o, Encode(f).value, false, a.refused), issued)
    {
      DecodeEncoded(f);
      IssuedAppend(o.wire, Attempt(Encode(f).value, Encode(f).value !in a.refused, false));
    }
    forall o, f | IssuedIs(o, issued) ensures IssuedIs(Enqueue(o, f).0, issued) {}
  }

  /** A call issues exactly the smallest free address, or nothing. */
  lemma StepIssues(n: Node, input: Input)
    ensures var a := AuthorOf(n, input);
            IssuedOn(Step(n, input).out.wire)
            == IssuedOn(n.out.wire) + (if Issues(a) then [NextFree(n.reserved, 1).value] else [])
  {
    hide Step;
    var a := AuthorOf(n, input);
    if Assigns(a) {
      AssigningStep(n, input);
      var f := AssignFrame(a.address.value, a.found.value, NextFree(a.reserved, 1).value);
      if Encode(f).Success? {
        DecodeEncoded(f);
        AssignFrameAsserts(a);
        IssuedAppend(n.out.wire, Attempt(Encode(f).value, Encode(f).value !in a.refused, false));
      }
    } else {
      QuietAuthorKeepsIssued(a, IssuedOn(n.out.wire));
      StepAll(n, input, IssuedInv(IssuedOn(n.out.wire)));
    }
  }

  lemma AssigningStep(n: Node, input: Input)
    requires Assigns(AuthorOf(n, input))
    ensures var a := AuthorOf(n, input);
            var raw := Encode(AssignFrame(a.address.value, a.found.value, NextFree(a.reserved, 1).value));
            Step(n, input).out.wire
            == if raw.Success? then n.out.wire + [Attempt(raw.value, raw.value !in a.refused, false)] else n.out.wire
  {
    var f := Decode(input.raw).value;
    EncodeDecoded(input.raw);
    assert Step(n, input) == HandleDiscoveryResponse(HearNode(n, f.identifier.source, input.now), f, input.ports);
  }

  // ---------------------------------------------------------------- runs

  predicate Distinct(s: seq<NodeAddress>) { forall i, j :: 0 <= i < j < |s| ==> s[i] != s[j] }

  /** Issued addresses are distinct and reserved, and one reserved address was never issued. */
  ghost predicate AllocatorInv(n: Node, spare: NodeAddress) {
    var issued := IssuedOn(n.out.wire);
    && Distinct(issued) && Addressed(n)
    && (forall i :: 0 <= i < |issued| ==> IsUnicast(issued[i]) && n.reserved[issued[i]])
    && (issued != [] ==> IsUnicast(spare) && n.reserved[spare] && spare !in issued)
  }

  lemma IssueKeepsAllocator(n: Node, m: Node, spare: NodeAddress, a: NodeAddress) returns (spare': NodeAddress)
    requires AllocatorInv(n, spare) && Addressed(m) && n.address.Some? && IsUnicast(a) && !n.reserved[a]
    requires IssuedOn(m.out.wire) == IssuedOn(n.out.wire) + [a] && m.reserved == n.reserved[a := true]
    ensures AllocatorInv(m, spare')
  {
    spare' := if IssuedOn(n.out.wire) == [] then n.address.value else spare;
  }

  lemma StepKeepsAllocator(n: Node, input: Input, spare: NodeAddress) returns (spare': NodeAddress)
    requires NodeInv(n) && AllocatorInv(n, spare)
    ensures AllocatorInv(Step(n, input), spare')
  {
    hide Step, IssuedOn;
    StepIssues(n, input);
    StepKeepsInv(n, input);
    spare' := spare;
    if Issues(AuthorOf(n, input)) {
      IssuedIsReserved(n, input);
      spare' := IssueKeepsAllocator(n, Step(n, input), spare, NextFree(n.reserved, 1).value);
    } else {
      CallKeepsReserved(n, input);
    }
  }

  lemma {:induction false} RunKeepsAllocator(
    uid: Uid, role: Role, stored: Option<NodeAddress>, saved: bool, inputs: seq<Input>)
    returns (spare: NodeAddress)
    requires Storable(stored)
    ensures AllocatorInv(Run(Boot(uid, role, stored, saved), inputs), spare)
    decreases |inputs|
  {
    if inputs == [] {
      BootInv(uid, role, stored, saved);
      spare := 0;
    } else {
      var before := inputs[..|inputs| - 1];
      var spare0 := RunKeepsAllocator(uid, role, stored, saved, before);
      RunKeepsInv(uid, role, stored, saved, before);
      spare := StepKeepsAllocator(Run(Boot(uid, role, stored, saved), before), inputs[|inputs| - 1], spare0);
    }
  }

  /** Distinct numbers below a bound are at most as many as the bound allows. */
  lemma {:induction false} Pigeonhole(s: seq<NodeAddress>, high: nat)
    requires Distinct(s) && forall i :: 0 <= i < |s| ==> 1 <= s[i] <= high
    ensures |s| <= high
    decreases high
  {
    if s == [] {
    } else if i :| 0 <= i < |s| && s[i] == high {
      var rest := s[..i] + s[i + 1..];
      forall k | 0 <= k < |rest| ensures rest[k] == s[if k < i then k else k + 1] && rest[k] != high {}
      Pigeonhole(rest, high - 1);
    } else {
      assert s[0] < high;
      Pigeonhole(s, high - 1);
    }
  }

  /** In every run, the assignments a node transmits carry pairwise distinct unicast addresses, at
      most 509 of them. */
  lemma {:induction false} AssignmentsNeverRepeat(
    uid: Uid, role: Role, stored: Option<NodeAddress>, saved: bool, inputs: seq<Input>)
    requires Storable(stored)
    ensures var issued := IssuedOn(Run(Boot(uid, role, stored, saved), inputs).out.wire);
            && Distinct(issued) && |issued| <= 509
            && forall i :: 0 <= i < |issued| ==> IsUnicast(issued[i])
  {
    var spare := RunKeepsAllocator(uid, role, stored, saved, inputs);
    var issued := IssuedOn(Run(Boot(uid, role, stored, saved), inputs).out.wire);
    if issued != [] { Pigeonhole(issued + [spare], 510); }
  }

  /** An issued address is the smallest the node has not reserved at that moment. */
  lemma IssuesSmallestFree(n: Node, input: Input)
    ensures IssuedOn(Step(n, input).out.wire) != IssuedOn(n.out.wire) ==>
              exists a: NodeAddress :: IsUnicast(a) && !n.reserved[a] && (forall b :: 1 <= b < a ==> n.reserved[b])
                && IssuedOn(Step(n, input).out.wire) == IssuedOn(n.out.wire) + [a]
  {
    StepIssues(n, input);
    if Issues(AuthorOf(n, input)) { assert IsUnicast(NextFree(n.reserved, 1).value); }
  }

  /** A reserved address is never issued again. */
  lemma {:induction false} ReservedIsNeverIssued(n: Node, inputs: seq<Input>, a: NodeAddress)
    requires n.reserved[a]
    ensures var m := Run(n, inputs);
            && m.reserved[a] && |IssuedOn(n.out.wire)| <= |IssuedOn(m.out.wire)|
            && a !in IssuedOn(m.out.wire)[|IssuedOn(n.out.wire)|..]
    decreases |inputs|
  {
    if inputs != [] {
      var before := inputs[..|inputs| - 1];
      ReservedIsNeverIssued(n, before, a);
      StepIssues(Run(n, before), inputs[|inputs| - 1]);
      CallKeepsReserved(Run(n, before), inputs[|inputs| - 1]);
    }
  }

  /** The call delivers an address claim from `a`. */
  predicate DeliversClaim(input: Input, a: NodeAddress) {
    && input.Received? && Decode(input.raw).Success?
    && var id := Decode(input.raw).value.identifier; id.kind == ADDRESS_CLAIM && id.source == a
  }

  /** An address the node holds, or has seen claimed, is never issued from then on. */
  lemma {:induction false} HeldOrClaimedIsNeverIssued(n: Node, input: Input, inputs: seq<Input>, a: NodeAddress)
    requires NodeInv(n) && (n.address == Some(a) || DeliversClaim(input, a))
    ensures var before, m := Step(n, input), Run(Step(n, input), inputs);
            && |IssuedOn(before.out.wire)| <= |IssuedOn(m.out.wire)|
            && a !in IssuedOn(m.out.wire)[|IssuedOn(before.out.wire)|..]
  {
    if DeliversClaim(input, a) {
      EncodeDecoded(input.raw);
      ClaimReserves(HearNode(n, a, input.now), Decode(input.raw).value, input.now, input.ports);
    } else {
      CallKeepsReserved(n, input);
    }
    ReservedIsNeverIssued(Step(n, input), inputs, a);
  }

  lemma ClaimReserves(n: Node, f: ProtocolFrame, now: U32, p: Ports)
    requires ValidFrame(f) && f.identifier.kind == ADDRESS_CLAIM
    ensures Dispatch(n, f, now, p).reserved[f.identifier.source]
  {
  }

  // ---------------------------------------------------------------- the bootstrap address

  function SomeResponse(): RawCanFrame {
    RawCanFrame(ToRaw(CanIdentifier(MANAGEMENT, DISCOVERY_RESPONSE, 0, 0, 0)), true, 8, [1, 8, 7, 6, 5, 4, 3, 0])
  }

  function SomeCall(raw: RawCanFrame): Input { Received(raw, 100, Ports({}, true, ACCEPTED)) }

  /** A primary that holds another address answers the first response with the bootstrap address. */
  lemma ResponseIsAnswered(n: Node)
    requires n.role == Primary && n.address.Some? && IsUnicast(n.address.value) && !n.reserved[BOOTSTRAP]
    ensures Issues(AuthorOf(n, SomeCall(SomeResponse()))) && NextFree(n.reserved, 1) == Some(BOOTSTRAP)
  {
    var id := CanIdentifier(MANAGEMENT, DISCOVERY_RESPONSE, 0, 0, 0);
    var f := ProtocolFrame(id, WirePayload(DISCOVERY_RESPONSE, [1, 8, 7, 6, 5, 4, 3, 0]));
    assert Encode(f) == Success(SomeResponse());
    DecodeEncoded(f);
    AssignEncodesAt(n.address.value, f.payload.bytes[1..7], BOOTSTRAP);
  }

  /** A run that ends with such a response gives the bootstrap address away. */
  lemma {:induction false} ResponseGivesAway(n: Node, inputs: seq<Input>)
    requires var m := Run(n, inputs);
             m.role == Primary && m.address.Some? && IsUnicast(m.address.value) && !m.reserved[BOOTSTRAP]
    ensures BOOTSTRAP in IssuedOn(Run(n, inputs + [SomeCall(SomeResponse())]).out.wire)
  {
    hide Step, Issues, NextFree, SomeResponse;
    var m, input := Run(n, inputs), SomeCall(SomeResponse());
    assert (inputs + [input])[..|inputs|] == inputs;
    ResponseIsAnswered(m);
    StepIssues(m, input);
    var issued := IssuedOn(Step(m, input).out.wire);
    assert issued[|issued| - 1] == BOOTSTRAP;
  }

  lemma AssignEncodesAt(a: NodeAddress, uid: Uid, candidate: NodeAddress)
    requires IsUnicast(a) && IsUnicast(candidate)
    ensures Encode(AssignFrame(a, uid, candidate)).Success?
  {
  }

  lemma BootstrapAddressIsIssued(uid: Uid, stored: NodeAddress, saved: bool) returns (inputs: seq<Input>)
    requires IsUnicast(stored) && stored != BOOTSTRAP
    ensures BOOTSTRAP in IssuedOn(Run(Boot(uid, Primary, Some(stored), saved), inputs).out.wire)
  {
    var n := Boot(uid, Primary, Some(stored), saved);
    assert Run(n, []) == n;
    ResponseGivesAway(n, []);
    inputs := [] + [SomeCall(SomeResponse())];
  }

  /** A primary whose storage refused the bootstrap address takes an assignment of address 5 from
      another manager, and then gives 1 away. */
  lemma UnassignedPrimaryGivesAway(uid: Uid) returns (inputs: seq<Input>)
    ensures BOOTSTRAP in IssuedOn(Run(Boot(uid, Primary, None, false), inputs).out.wire)
  {
    hide Step;
    var n := Boot(uid, Primary, None, false);
    AssignEncodesAt(2, uid, 5);
    var granting := SomeCall(Encode(AssignFrame(2, uid, 5)).value);
    AssignedFive(n);
    assert [granting][..0] == [] && Run(n, []) == n;
    assert Run(n, [granting]) == Step(n, granting);
    ResponseGivesAway(n, [granting]);
    inputs := [granting] + [SomeCall(SomeResponse())];
  }

  lemma AssignedFive(n: Node)
    requires n.role == Primary && !n.reserved[BOOTSTRAP]
    ensures Encode(AssignFrame(2, n.uid, 5)).Success?
    ensures var m := Step(n, SomeCall(Encode(AssignFrame(2, n.uid, 5)).value));
            m.role == Primary && m.address == Some(5) && !m.reserved[BOOTSTRAP]
  {
    hide Encode, Hear, Receive;
    AssignEncodesAt(2, n.uid, 5);
    AssignmentIsTaken(n, 2, n.uid, 5, 100, Ports({}, true, ACCEPTED));
  }

  lemma BootHolds(uid: Uid, stored: Option<NodeAddress>, saved: bool)
    requires stored == Some(BOOTSTRAP) || (stored.None? && saved)
    ensures var n := Boot(uid, Primary, stored, saved); n.reserved[BOOTSTRAP] && IssuedOn(n.out.wire) == []
  {
  }

  /** A primary may give the bootstrap address to another node exactly when it did not come out of its
      constructor with that address: it loaded another one, or loaded none and could not save it. */
  lemma BootstrapAddressIsIssuedExactlyIf(uid: Uid, stored: Option<NodeAddress>, saved: bool)
    requires Storable(stored)
    ensures (exists inputs :: 0x001 in IssuedOn(Run(Boot(uid, Primary, stored, saved), inputs).out.wire))
            <==> stored != Some(0x001) && (stored.Some? || !saved)
  {
    hide Run, Boot, IssuedOn;
    if stored == Some(BOOTSTRAP) || (stored.None? && saved) {
      BootHolds(uid, stored, saved);
      forall inputs ensures BOOTSTRAP !in IssuedOn(Run(Boot(uid, Primary, stored, saved), inputs).out.wire) {
        ReservedIsNeverIssued(Boot(uid, Primary, stored, saved), inputs, BOOTSTRAP);
      }
    } else if stored.Some? {
      var inputs := BootstrapAddressIsIssued(uid, stored.value, saved);
    } else {
      var inputs := UnassignedPrimaryGivesAway(uid);
    }
  }
}
