/** A run in which one command is executed twice inside its window. */
module CommandFloods {
  import opened Wrappers
  import opened Types
  import opened CanIdentifiers
  import opened TypedValues
  import opened WirePayloads
  import opened FrameCodec
  import opened Outboxes
  import opened Directories
  import opened Duplicates
  import opened Nodes
  import opened NodeInvariants
  import opened Presence
  import opened CommandTables
  import opened Commands

  const LAMP := Handler(1, 3)

  /** A command of node 2 to endpoint 3 of node `a`, with an empty value. */
  function LampFrame(a: NodeAddress, transaction: Byte): ProtocolFrame {
    MakeFrame(CONTROL, COMMAND, a, 2, [transaction, 3, 0, 0, 0, 0, 0, 0])
  }

  function LampKey(transaction: Byte): CommandKey { CommandKey(2, 3, transaction, COMMAND) }

  function Turn(k: nat): Byte { k % 17 }

  /** A handler registers; then seventeen commands arrive, one each millisecond, and the first one again. */
  function Flood(a: NodeAddress, k: nat): (ts: seq<TimedInput>)
    requires IsUnicast(a) && k <= 18
    ensures |ts| == k + 1
  {
    if k == 0 then [At(0, HandlerRegistered(LAMP))]
    else
      LampEncodes(a, Turn(k - 1));
      Flood(a, k - 1)
      + [At(k - 1, Received(Encode(LampFrame(a, Turn(k - 1))).value, k - 1, Ports({}, true, ACCEPTED)))]
  }

  lemma LampEncodes(a: NodeAddress, transaction: Byte)
    requires IsUnicast(a)
    ensures Encode(LampFrame(a, transaction)).Success?
    ensures Decode(Encode(LampFrame(a, transaction)).value) == Success(LampFrame(a, transaction))
  {
    DecodeEncoded(LampFrame(a, transaction));
  }

  /** What the node makes of the `k`-th command. */
  function Taken(a: NodeAddress, k: nat): Delivered
    requires k < 18
  {
    Delivered(Arrival(LampKey(Turn(k)), k, ACCEPTED), Some(LAMP), SlotValue(LampFrame(a, Turn(k)).payload.bytes))
  }

  function TakenUpTo(a: NodeAddress, k: nat): (ds: seq<Delivered>)
    requires k <= 18
    ensures |ds| == k && forall i :: 0 <= i < k ==> ds[i] == Taken(a, i)
  {
    if k == 0 then [] else TakenUpTo(a, k - 1) + [Taken(a, k - 1)]
  }

  /** The node holds the address, has the handler, and has not claimed anything yet. */
  predicate Lit(n: Node, a: NodeAddress) {
    n.address == Some(a) && n.registry.handlers[0] == Some(LAMP) && n.schedule.claimsSent == 0
  }

  lemma CommandKeepsSchedule(n: Node, f: ProtocolFrame, now: U32, status: Status)
    ensures HandleCommand(n, f, now, status).schedule == n.schedule
  {
  }

  lemma LampCommand(n: Node, a: NodeAddress, k: nat)
    requires IsUnicast(a) && k < 18 && Lit(n, a)
    ensures Encode(LampFrame(a, Turn(k))).Success?
    ensures var t := At(k, Received(Encode(LampFrame(a, Turn(k))).value, k, Ports({}, true, ACCEPTED)));
            NewlyDelivered(n, t) == [Taken(a, k)] && Lit(Step(n, t.input), a)
  {
    hide Encode, Decode, Dispatch;
    LampEncodes(a, Turn(k));
    var f := LampFrame(a, Turn(k));
    EncodeDecoded(Encode(f).value);
    var heard := HearNode(n, 2, k);
    DispatchAddressFrame(heard, f, k, Ports({}, true, ACCEPTED));
    DispatchIdentity(heard, f, k, Ports({}, true, ACCEPTED));
    DispatchTable(heard, f, k, Ports({}, true, ACCEPTED));
    CommandKeepsSchedule(heard, f, k, ACCEPTED);
  }

  lemma {:induction false} FloodDelivers(uid: Uid, a: NodeAddress, k: nat)
    requires IsUnicast(a) && k <= 18
    ensures var n := Boot(uid, NoRole, Some(a), true);
            DeliveredIn(n, Flood(a, k)) == TakenUpTo(a, k) && Lit(Run(n, Inputs(Flood(a, k))), a)
  {
    hide Encode, Decode, LampFrame, Taken, NewlyDelivered, Lit, Step;
    var n, ts := Boot(uid, NoRole, Some(a), true), Flood(a, k);
    if k == 0 {
      LampRegisters(n, a);
    } else {
      var shorter, t := Flood(a, k - 1), ts[k];
      FloodDelivers(uid, a, k - 1);
      assert ts[..k] == shorter && Inputs(ts)[..k] == Inputs(shorter);
      LampCommand(Run(n, Inputs(shorter)), a, k - 1);
    }
  }

  lemma {:induction false} LampRegisters(n: Node, a: NodeAddress)
    requires IsUnicast(a) && n.address == Some(a) && n.registry.handlers == Vacant(16) && n.schedule.claimsSent == 0
    ensures DeliveredIn(n, Flood(a, 0)) == [] && Lit(Run(n, Inputs(Flood(a, 0))), a)
  {
    var ts := Flood(a, 0);
    assert ts[..0] == [] && Inputs(ts)[..0] == [];
    assert Run(n, []) == n;
  }

  lemma {:induction false} FloodTimes(a: NodeAddress, k: nat, i: nat)
    requires IsUnicast(a) && i <= k <= 18
    ensures Flood(a, k)[i].time == (if i == 0 then 0 else i - 1) && ShowsClock(Flood(a, k)[i])
    ensures i > 0 ==> Encode(LampFrame(a, Turn(i - 1))).Success?
                      && Flood(a, k)[i].input
                         == Received(Encode(LampFrame(a, Turn(i - 1))).value, i - 1, Ports({}, true, ACCEPTED))
    decreases k
  {
    hide Encode, LampFrame;
    if i > 0 { LampEncodes(a, Turn(i - 1)); }
    if i < k { FloodTimes(a, k - 1, i); }
  }

  lemma {:induction false} FloodIsClocked(a: NodeAddress)
    requires IsUnicast(a)
    ensures Clocked(Flood(a, 18))
  {
    hide Encode, LampFrame, Flood;
    forall i | 0 <= i < 19
      ensures Flood(a, 18)[i].time == (if i == 0 then 0 else i - 1) && ShowsClock(Flood(a, 18)[i])
    {
      FloodTimes(a, 18, i);
    }
  }

  /** The seventeen different commands are all executed. */
  lemma {:induction false} DifferentCommandsExecuted(records: Table, a: NodeAddress, k: nat)
    requires Empty(records) && k <= 17
    ensures Insertions(records, Arrivals(TakenUpTo(a, 18)), k) == k
    ensures k < 17 ==> Executed(records, Arrivals(TakenUpTo(a, 18)), k)
  {
    hide IsNew, TableAt;
    var arrivals := Arrivals(TakenUpTo(a, 18));
    if k < 17 { FirstIsExecuted(records, arrivals, k); }
    if k > 0 { DifferentCommandsExecuted(records, a, k - 1); }
  }

  /** The first command is executed again: it was the very first of all, and seventeen have been executed. */
  lemma {:induction false} FirstRunsAgain(records: Table, a: NodeAddress)
    requires Empty(records)
    ensures Executed(records, Arrivals(TakenUpTo(a, 18)), 17)
  {
    hide IsNew, TableAt, Insertions;
    var arrivals := Arrivals(TakenUpTo(a, 18));
    DifferentCommandsExecuted(records, a, 0);
    DifferentCommandsExecuted(records, a, 17);
    RepeatRunsAgainByCount(records, arrivals, 0, 17);
  }

  lemma {:induction false} AllCalled(records: Table, a: NodeAddress, k: nat)
    requires Empty(records) && k <= 18
    ensures var calls := CallsOf(records, TakenUpTo(a, 18), k);
            && |calls| == k
            && forall i :: 0 <= i < k ==>
                 calls[i] == Execution(LAMP, LampKey(Turn(i)), SlotValue(LampFrame(a, Turn(i)).payload.bytes))
  {
    hide IsNew, TableAt, LampFrame;
    if k > 0 {
      AllCalled(records, a, k - 1);
      if k <= 17 { DifferentCommandsExecuted(records, a, k - 1); } else { FirstRunsAgain(records, a); }
    }
  }

  /** Nineteen calls, eighteen milliseconds: the first and the last command are one and the same frame,
      and the handler runs for both. */
  lemma {:induction false} CommandRunsTwice(uid: Uid, a: NodeAddress)
    requires IsUnicast(a)
    ensures var ts := Flood(a, 18);
            var done := Run(Boot(uid, NoRole, Some(a), true), Inputs(ts)).executions;
            && Clocked(ts) && ts[1].input.Received? && ts[18].input.Received? && ts[1].input.raw == ts[18].input.raw
            && ts[18].time - ts[1].time <= 2000
            && |done| == 18 && done[0] == done[17] && done[0].key == LampKey(0)
  {
    hide Run, DeliveredIn, CallsOf, Flood, Boot, LampFrame, Encode;
    var n := Boot(uid, NoRole, Some(a), true);
    FloodIsClocked(a);
    FloodTimes(a, 18, 1);
    FloodTimes(a, 18, 18);
    FloodDelivers(uid, a, 18);
    NodeRefinesTable(n, Flood(a, 18));
    BootedTableIsEmpty(uid, NoRole, Some(a), true);
    AllCalled(n.duplicates, a, 18);
    BootedRanNothing(uid, NoRole, Some(a), true);
  }

  /** The very first of these calls finds the node without a claim sent, and is served all the same. */
  lemma {:induction false} CommandServedBeforeClaims(uid: Uid, a: NodeAddress)
    requires IsUnicast(a)
    ensures var before, t := Run(Boot(uid, NoRole, Some(a), true), Inputs(Flood(a, 0))), Flood(a, 1)[1];
            ServesEarly(before, t)
  {
    hide Run, Boot, LampFrame, Encode, Step, TableAt, IsNew;
    var n := Boot(uid, NoRole, Some(a), true);
    var before, t := Run(n, Inputs(Flood(a, 0))), Flood(a, 1)[1];
    FloodTimes(a, 1, 1);
    FloodDelivers(uid, a, 0);
    LampCommand(before, a, 0);
    NodeRefinesTable(n, Flood(a, 0)) by { FloodTimes(a, 0, 0); }
    BootedTableIsEmpty(uid, NoRole, Some(a), true);
    assert TableAt(n.duplicates, [], 0) == n.duplicates by { NoArrivals(n.duplicates); }
    EmptyTakesAll(n.duplicates, Taken(a, 0).arrival);
    ServedBeforeClaims(before, t);
  }

  lemma {:induction false} NoArrivals(records: Table)
    ensures TableAt(records, [], 0) == records
  {
  }

  lemma EmptyTakesAll(records: Table, a: Arrival)
    requires Empty(records)
    ensures IsNew(records, a)
  {
  }
}
