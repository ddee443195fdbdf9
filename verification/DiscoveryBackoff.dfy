/** Discovery requests of an unassigned node back off, and none of its own responses is lost. */
module DiscoveryBackoff {
  import opened Wrappers
  import opened Types
  import opened CanIdentifiers
  import opened WirePayloads
  import opened FrameCodec
  import opened Outboxes
  import opened Directories
  import opened Nodes
  import opened NodeInvariants
  import opened CodecClosure
  import opened TickRuns

  /** The tick sends a new discovery request. */
  predicate Asks(n: Node, now: U32) { n.address.None? && !Responds(n, now) && now >= n.schedule.nextDiscovery }

  /** The pending response of an unassigned node falls due before its next request. */
  predicate Waiting(n: Node) {
    n.address.None? && (n.pending.Some? ==> n.pending.value.dueMs < n.schedule.nextDiscovery)
  }

  /** The response window of the node's own requests is one second. */
  lemma OwnResponseIsSoon(uid: Uid, sequence: Byte)
    ensures U16At(DiscoveryRequestBytes(uid, sequence), 2) == 1000
    ensures ResponseDelay(uid, DiscoveryRequestBytes(uid, sequence)) < 1000
  {
    hide MixBytes;
  }

  /** What asking does to the schedule and to the pending response. */
  predicate Asked(n: Node, m: Node, now: U32) {
    var attempt := n.schedule.discoveryAttempt;
    && Waiting(m) && m.pending.Some? && m.pending.value.dueMs < now + 1000
    && m.schedule.nextDiscovery == now + RetryDelay(attempt)
    && m.schedule.discoveryAttempt == if attempt < 4 then attempt + 1 else attempt
  }

  lemma RequestIsScheduled(n: Node, now: U32)
    requires n.address.None? && now + 40000 < WORD
    ensures Asked(n, SendDiscoveryRequest(n, now), now)
  {
    hide Enqueue, DiscoveryRequestFrame, ResponseDelay, DiscoveryRequestBytes;
    OwnResponseIsSoon(n.uid, n.sequence);
  }

  /** A request supersedes whatever response was pending by the node's own, which falls due first. */
  lemma AskingTick(n: Node, now: U32, p: Ports)
    requires Asks(n, now) && now + 40000 < WORD
    ensures Waiting(n) ==> n.pending.None?
    ensures Asked(n, Tick(n, now, p), now)
  {
    hide Expire, Drain, SendDiscoveryRequest, Announce;
    RequestIsScheduled(ExpireNode(n, now), now);
  }

  lemma OtherTick(n: Node, now: U32, p: Ports)
    requires n.address.None? && !Asks(n, now)
    ensures var m := Tick(n, now, p);
            && m.address.None? && (Waiting(n) ==> Waiting(m)) && m.schedule.nextDiscovery == n.schedule.nextDiscovery
            && m.schedule.discoveryAttempt == n.schedule.discoveryAttempt
            && m.pending == if Responds(n, now) then None else n.pending
  {
    hide Expire;
  }

  /** Call `k` is a tick that sends a request. */
  predicate AsksAt(n: Node, inputs: seq<Input>, k: nat)
    requires k < |inputs|
  {
    inputs[k].Ticked? && Asks(Upto(n, inputs, k), inputs[k].now)
  }

  /** How many requests the calls before `k` sent. */
  function AsksBefore(n: Node, inputs: seq<Input>, k: nat): nat
    requires k <= |inputs|
  {
    if k == 0 then 0 else AsksBefore(n, inputs, k - 1) + if AsksAt(n, inputs, k - 1) then 1 else 0
  }

  /** None of the calls before `k` gives the node an address. */
  predicate NobodyAssigns(n: Node, inputs: seq<Input>, k: nat)
    requires k <= |inputs|
  {
    forall i :: 0 <= i < k ==> !Reassigns(n.uid, inputs[i])
  }

  lemma OtherCall(n: Node, input: Input)
    requires n.address.None? && !Reassigns(n.uid, input) && !(input.Ticked? && Asks(n, input.now))
    ensures var m := Step(n, input);
            && m.uid == n.uid && m.address.None?
            && m.schedule.nextDiscovery == n.schedule.nextDiscovery
            && m.schedule.discoveryAttempt == n.schedule.discoveryAttempt
            && (input.Ticked? ==> m.pending == if Responds(n, input.now) then None else n.pending)
            && (!input.Ticked? && !HearsRequest(input) ==> m.pending == n.pending)
  {
    hide Step, Tick, Reassigns;
    if input.Ticked? {
      assert Step(n, input) == Tick(n, input.now, input.ports) by { StepTick(n, input); }
      OtherTick(n, input.now, input.ports);
      TickFrame(n, input.now, input.ports);
    } else {
      CallKeepsPlans(n, input);
    }
  }

  lemma StepTick(n: Node, input: Input)
    requires input.Ticked?
    ensures Step(n, input) == Tick(n, input.now, input.ports)
  {
  }

  lemma AskingCall(n: Node, input: Input)
    requires input.Ticked? && Asks(n, input.now) && input.now + 40000 < WORD
    ensures Step(n, input).uid == n.uid && Asked(n, Step(n, input), input.now)
  {
    hide Step, Tick;
    StepTick(n, input);
    AskingTick(n, input.now, input.ports);
    TickFrame(n, input.now, input.ports);
  }

  /** The node stays without an address; its attempt counter counts the requests, and saturates at four. */
  lemma {:induction false} AttemptsCounted(n: Node, inputs: seq<Input>, k: nat)
    requires k <= |inputs| && InTime(inputs) && NobodyAssigns(n, inputs, k)
    requires n.address.None? && n.schedule.discoveryAttempt <= 4
    ensures Upto(n, inputs, k).address.None? && Upto(n, inputs, k).uid == n.uid
    ensures var tried := n.schedule.discoveryAttempt + AsksBefore(n, inputs, k);
            Upto(n, inputs, k).schedule.discoveryAttempt == if tried < 4 then tried else 4
  {
    hide Step, Asks, Upto, Reassigns;
    if k > 0 {
      AttemptsCounted(n, inputs, k - 1);
      UptoNext(n, inputs, k - 1);
      var before, input := Upto(n, inputs, k - 1), inputs[k - 1];
      if AsksAt(n, inputs, k - 1) { AskingCall(before, input); } else { OtherCall(before, input); }
    } else {
      UptoNothing(n, inputs);
    }
  }

  /** A tick after call `i` and before call `j` sends the pending response. */
  predicate RespondsBetween(n: Node, inputs: seq<Input>, i: nat, j: nat)
    requires i < j <= |inputs|
  {
    exists k :: i < k < j && inputs[k].Ticked? && Responds(Upto(n, inputs, k), inputs[k].now)
  }

  predicate RequestBetween(inputs: seq<Input>, i: nat, j: nat)
    requires i < j <= |inputs|
  {
    exists k :: i < k < j && HearsRequest(inputs[k])
  }

  /** From one request to the next, the deadline stands, and the response is pending until it is sent,
      unless somebody else's request takes its place. */
  lemma {:induction false} DeadlineStands(n: Node, inputs: seq<Input>, i: nat, j: nat, attempt: nat)
    requires i < j <= |inputs| && InTime(inputs) && NobodyAssigns(n, inputs, j)
    requires n.address.None? && n.schedule.discoveryAttempt <= 4
    requires AsksAt(n, inputs, i) && attempt == Upto(n, inputs, i).schedule.discoveryAttempt
    requires forall k :: i < k < j ==> !AsksAt(n, inputs, k)
    ensures var m := Upto(n, inputs, j);
            && m.schedule.nextDiscovery == inputs[i].now + RetryDelay(attempt)
            && (RequestBetween(inputs, i, j) || (Waiting(m) && (m.pending.Some? || RespondsBetween(n, inputs, i, j))))
    decreases j
  {
    hide Step, Asks, Upto, Reassigns, Responds, HearsRequest;
    UptoNext(n, inputs, j - 1);
    var before, input := Upto(n, inputs, j - 1), inputs[j - 1];
    if j == i + 1 {
      AskingCall(before, input);
    } else {
      DeadlineStands(n, inputs, i, j - 1, attempt);
      AttemptsCounted(n, inputs, j - 1);
      assert !AsksAt(n, inputs, j - 1);
      OtherCall(before, input);
      if RequestBetween(inputs, i, j - 1) || HearsRequest(input) {
        assert RequestBetween(inputs, i, j);
      } else if input.Ticked? && Responds(before, input.now) {
        assert RespondsBetween(n, inputs, i, j);
      } else if RespondsBetween(n, inputs, i, j - 1) {
        assert RespondsBetween(n, inputs, i, j);
      }
    }
  }

  /** The pauses between requests. */
  const PAUSES: seq<nat> := [2000, 4000, 8000, 16000, 30000]

  function PauseAfter(requests: nat): nat {
    assert |PAUSES| == 5;
    PAUSES[if requests < 4 then requests else 4]
  }

  /** Before the clock wraps, whatever calls and frames come, as long as nobody assigns it an address, and
      however it came to be without: after a request the next one goes out in the very first tick that
      is 2, 4, 8, 16 and then 30 seconds later, by the number of requests made before, and owes no answer;
      and if the node hears no other request meanwhile, it has sent its own answer by then. */
  lemma {:induction false} RequestsBackOff(n: Node, inputs: seq<Input>, i: nat, j: nat)
    requires n.address.None? && CountersOk(n) && InTime(inputs) && i < j < |inputs| && NobodyAssigns(n, inputs, j)
    requires AsksAt(n, inputs, i) && forall k :: i < k < j ==> !AsksAt(n, inputs, k)
    ensures AsksAt(n, inputs, j) <==>
              && inputs[j].Ticked? && !Responds(Upto(n, inputs, j), inputs[j].now)
              && inputs[j].now - inputs[i].now >= PauseAfter(n.schedule.discoveryAttempt + AsksBefore(n, inputs, i))
    ensures AsksAt(n, inputs, j) ==> RequestBetween(inputs, i, j) || RespondsBetween(n, inputs, i, j)
  {
    hide Step, Upto, Reassigns, HearsRequest;
    AttemptsCounted(n, inputs, i);
    AttemptsCounted(n, inputs, j);
    DeadlineStands(n, inputs, i, j, Upto(n, inputs, i).schedule.discoveryAttempt);
  }

  lemma {:induction false} NothingBeforeFirstTick(n: Node, inputs: seq<Input>, k: nat)
    requires k <= |inputs| && n.address.None? && NobodyAssigns(n, inputs, k)
    requires forall i :: 0 <= i < k ==> !inputs[i].Ticked? && !HearsRequest(inputs[i])
    ensures var m := Upto(n, inputs, k);
            m.uid == n.uid && m.address.None? && m.schedule == n.schedule && m.pending == n.pending
  {
    hide Step, Upto, Reassigns, HearsRequest;
    if k > 0 {
      NothingBeforeFirstTick(n, inputs, k - 1);
      UptoNext(n, inputs, k - 1);
      CallKeepsPlans(Upto(n, inputs, k - 1), inputs[k - 1]);
    } else {
      UptoNothing(n, inputs);
    }
  }

  /** The first request of a node that boots without an address, and is given none and hears no request,
      goes out in its very first tick; so it keeps a delay `d` after `start` exactly when that tick
      comes no earlier, whatever the UID. */
  lemma {:induction false} FirstRequestIsFirstTick(
    uid: Uid, role: Role, saved: bool, inputs: seq<Input>, first: nat, start: nat, d: nat)
    requires Boot(uid, role, None, saved).address.None? && TicksInOrder(inputs)
    requires first < |inputs| && inputs[first].Ticked? && NobodyAssigns(Boot(uid, role, None, saved), inputs, first)
    requires forall k :: 0 <= k < first ==> !inputs[k].Ticked? && !HearsRequest(inputs[k])
    ensures var n := Boot(uid, role, None, saved);
            && AsksAt(n, inputs, first)
            && ((forall k :: 0 <= k < |inputs| && AsksAt(n, inputs, k) ==> inputs[k].now >= start + d)
                <==> inputs[first].now >= start + d)
  {
    hide Step, Upto, Reassigns, HearsRequest;
    var n := Boot(uid, role, None, saved);
    NothingBeforeFirstTick(n, inputs, first);
    assert AsksAt(n, inputs, first);
    forall k | 0 <= k < |inputs| && AsksAt(n, inputs, k) ensures inputs[k].now >= inputs[first].now {
      assert k >= first;
    }
  }

  /** In the first millisecond after start-up, for example. */
  lemma FirstRequestHasNoDelay(uid: Uid, p: Ports)
    ensures AsksAt(Boot(uid, NoRole, None, true), [Ticked(0, p)], 0)
  {
    hide Step;
    assert [Ticked(0, p)][..0] == [];
  }

  /** On an idle outbox and a transmitter that takes the frame, the request or the response is what
      the tick puts on the wire, and other ticks put nothing there. */
  lemma DiscoveryOnTheWire(n: Node, now: U32, p: Ports)
    requires Waiting(n) && PendingOk(n) && Idle(n.out) && p.refused == {}
    ensures Asks(n, now) ==> Encode(DiscoveryRequestFrame(n.uid, n.sequence)).Success?
                             && Tick(n, now, p).out == SentNow(n.out, DiscoveryRequestFrame(n.uid, n.sequence))
    ensures Responds(n, now) ==>
              var f := DiscoveryResponseFrame(n.uid, n.pending.value.transaction, n.pending.value.requester,
                                              UNASSIGNED);
              Encode(f).Success? && Tick(n, now, p).out == SentNow(n.out, f)
    ensures !Asks(n, now) && !Responds(n, now) ==> Tick(n, now, p).out == n.out
  {
    hide Expire, Enqueue, Encode;
    if Asks(n, now) {
      DiscoveryFrames(n.uid, n.sequence, 0, UNASSIGNED, UNASSIGNED);
      QueuedThenDrained(n.out, DiscoveryRequestFrame(n.uid, n.sequence));
    } else if Responds(n, now) {
      DiscoveryFrames(n.uid, n.sequence, n.pending.value.transaction, n.pending.value.requester, UNASSIGNED);
      QueuedThenDrained(n.out, DiscoveryResponseFrame(n.uid, n.pending.value.transaction, n.pending.value.requester,
                                                      UNASSIGNED));
    } else {
      IdleDrains(n.out, 0);
    }
  }
}
