/** A live sender is never taken for offline: the liveness timeout against the heartbeat period. */
module Heartbeats {
  import opened Wrappers
  import opened Types
  import opened CanIdentifiers
  import opened WirePayloads
  import opened FrameCodec
  import opened Outboxes
  import opened Directories
  import opened Nodes
  import opened NodeInvariants
  import opened CodecClosure
  import opened Presence

  const PERIOD := 30000

  /** The greatest pause between ticks for which three periods fit the timeout. */
  const MAX_PAUSE := 5000

  /** A sender that has finished claiming and owes no discovery response. */
  predicate Steady(n: Node, a: NodeAddress) { n.address == Some(a) && n.schedule.claimsSent == 2 && n.pending.None? }

  predicate Beats(n: Node, now: U32) { now >= n.schedule.nextHeartbeat }

  /** A tick of a steady sender sends the heartbeat when it is due, and then plans the next. */
  lemma SteadyTick(n: Node, a: NodeAddress, now: U32, p: Ports)
    requires Steady(n, a)
    ensures var m := Tick(n, now, p);
            && Steady(m, a)
            && m.schedule.nextHeartbeat == if Beats(n, now) then Add32(now, PERIOD) else n.schedule.nextHeartbeat
  {
    TickFrame(n, now, p);
    var ready := ScheduleClaim(ExpireNode(n, now), now);
    if !Beats(n, now) { AnnounceKeepsBeat(ready, p); }
  }

  lemma AnnounceKeepsBeat(n: Node, p: Ports)
    ensures var m := Announce(n, p);
            && m.pending == n.pending && m.schedule.claimsSent == n.schedule.claimsSent
            && m.schedule.nextHeartbeat == n.schedule.nextHeartbeat
  {
  }

  /** What such a tick transmits is the heartbeat frame, and it names the sender. */
  lemma SteadyTickTransmits(n: Node, a: NodeAddress, now: U32, p: Ports)
    requires Steady(n, a) && IsUnicast(a) && Beats(n, now)
    ensures var frame := HeartbeatFrame(a, n.sequence);
            && Encode(frame).Success? && Decode(Encode(frame).value) == Success(frame)
            && Tick(n, now, p).out.wire
               == n.out.wire + [Attempt(Encode(frame).value, Encode(frame).value !in p.refused, false)]
  {
    AddressFrames(n.uid, a, n.sequence);
    DecodeEncoded(HeartbeatFrame(a, n.sequence));
  }

  /** A sender and an observer on one timeline; `missed` counts the heartbeats the observer did not
      get since the last one it got. */
  datatype Pair = Pair(sender: Node, observer: Node, missed: nat, lastTick: nat, now: nat)

  datatype Moment =
    | SenderTicks(time: nat, ports: Ports, arrives: bool)
    | SenderCalls(time: nat, input: Input)
    | ObserverDoes(time: nat, input: Input)

  /** Time does not run backwards nor near the wrap, the sender receives nothing and ticks at least
      every `pause`, and of three heartbeats in a row at least one arrives, without delay. */
  predicate Allowed(j: Pair, m: Moment, a: NodeAddress, pause: nat) {
    && j.now <= m.time <= j.lastTick + pause && m.time + PERIOD < WORD
    && (m.SenderCalls? ==> !m.input.Received? && !m.input.Ticked?)
    && (m.ObserverDoes? ==> ShowsClock(At(m.time, m.input)))
    && (m.SenderTicks? && Beats(j.sender, m.time) && !m.arrives ==> j.missed < 2)
    && (m.SenderTicks? && Beats(j.sender, m.time) && m.arrives ==>
          var frame := Encode(HeartbeatFrame(a, j.sender.sequence));
          frame.Success? && frame.value !in m.ports.refused)
  }

  function PlayMoment(j: Pair, m: Moment, a: NodeAddress): Pair
    requires m.time < WORD
  {
    match m
    case SenderTicks(time, ports, arrives) =>
      var sender := Tick(j.sender, time, ports);
      var frame := Encode(HeartbeatFrame(a, j.sender.sequence));
      if !Beats(j.sender, time) then j.(sender := sender, lastTick := time, now := time)
      else if arrives && frame.Success? then
        Pair(sender, Receive(j.observer, frame.value, time, ports), 0, time, time)
      else Pair(sender, j.observer, j.missed + 1, time, time)
    case SenderCalls(time, input) => j.(sender := Step(j.sender, input), now := time)
    case ObserverDoes(time, input) => j.(observer := Step(j.observer, input), now := time)
  }

  predicate AllowedAll(j: Pair, moments: seq<Moment>, a: NodeAddress, pause: nat)
    decreases |moments|
  {
    moments == [] || (Allowed(j, moments[0], a, pause)
                      && AllowedAll(PlayMoment(j, moments[0], a), moments[1..], a, pause))
  }

  function PlayAll(j: Pair, moments: seq<Moment>, a: NodeAddress, pause: nat): Pair
    requires AllowedAll(j, moments, a, pause)
    decreases |moments|
  {
    if moments == [] then j else PlayAll(PlayMoment(j, moments[0], a), moments[1..], a, pause)
  }

  /** The observer counts `a` as online, and last heard from it at instant `heard`. */
  predicate Online(o: Node, a: NodeAddress, heard: nat) {
    OwnersSeen(o.dir) && o.dir.seen[a] && o.dir.lastSeen[a] == heard
  }

  lemma HearsSender(o: Node, raw: RawCanFrame, time: U32, p: Ports)
    requires OwnersSeen(o.dir) && Decode(raw).Success? && Decode(raw).value.identifier.source != UNASSIGNED
    ensures Online(Receive(o, raw, time, p), Decode(raw).value.identifier.source, time)
  {
    ReceivePresence(o, raw, time, p);
    ReceiveKeepsOwners(o, raw, time, p);
  }

  lemma StaysOnlineOverTick(o: Node, time: nat, now: U32, p: Ports, a: NodeAddress, heard: nat)
    requires Online(o, a, heard) && IsUnicast(a) && now == time % WORD && time < WORD
    requires heard <= time && time - heard < OFFLINE_AFTER
    ensures Online(Tick(o, now, p), a, heard)
  {
    hide Tick, OwnersSeen;
    TickDirectory(o, now, p);
    ExpireForgetsStale(o.dir, 1, now);
    WrapSafeAge(time, heard);
  }

  /** Whatever the observer does less than the timeout after it heard from `a`, `a` stays online. */
  lemma StaysOnline(o: Node, t: TimedInput, a: NodeAddress, heard: nat)
    requires Online(o, a, heard) && IsUnicast(a) && ShowsClock(t) && t.time < WORD
    requires heard <= t.time && t.time - heard < OFFLINE_AFTER
    ensures Online(Step(o, t.input), a, heard) || Online(Step(o, t.input), a, t.time)
  {
    hide Dispatch, Tick, Receive, Decode, OwnersSeen;
    match t.input
    case Received(raw, now, ports) =>
      ReceivePresence(o, raw, now, ports);
      ReceiveKeepsOwners(o, raw, now, ports);
    case Ticked(now, ports) => StaysOnlineOverTick(o, t.time, now, ports, a, heard);
    case _ => OtherCallsKeepPresence(o, t.input);
  }

  /** The instants: of the last heartbeat, of the sender's last tick, of now, and of the last
      heartbeat heard, which lies at most `missed` stretches before the last one sent. */
  predicate Close(beat: int, lastTick: nat, now: nat, heard: nat, missed: nat, pause: nat) {
    && beat <= lastTick < beat + PERIOD && lastTick <= now <= lastTick + pause && heard <= now
    && (missed == 0 ==> beat - heard <= 0)
    && (missed == 1 ==> beat - heard <= PERIOD - 1 + pause)
    && (missed == 2 ==> beat - heard <= 2 * (PERIOD - 1 + pause))
    && missed <= 2
  }

  lemma CloseIsYoung(beat: int, lastTick: nat, now: nat, heard: nat, missed: nat, pause: nat, time: nat)
    requires pause <= MAX_PAUSE && Close(beat, lastTick, now, heard, missed, pause) && now <= time <= lastTick + pause
    ensures time - heard < OFFLINE_AFTER
  {
  }

  predicate InTouch(j: Pair, a: NodeAddress, pause: nat, heard: nat) {
    && Steady(j.sender, a) && IsUnicast(a) && Online(j.observer, a, heard)
    && Close(j.sender.schedule.nextHeartbeat - PERIOD, j.lastTick, j.now, heard, j.missed, pause)
  }

  lemma SenderTickInTouch(j: Pair, m: Moment, a: NodeAddress, pause: nat, heard: nat) returns (heard': nat)
    requires m.SenderTicks? && InTouch(j, a, pause, heard) && Allowed(j, m, a, pause)
    ensures InTouch(PlayMoment(j, m, a), a, pause, heard')
  {
    hide Dispatch, Tick;
    SteadyTick(j.sender, a, m.time, m.ports);
    heard' := heard;
    if Beats(j.sender, m.time) && m.arrives {
      BeatArrives(j.sender, j.observer, a, m.time, m.ports);
      heard' := m.time;
    }
  }

  lemma BeatArrives(sender: Node, observer: Node, a: NodeAddress, time: U32, p: Ports)
    requires Steady(sender, a) && IsUnicast(a) && OwnersSeen(observer.dir)
    ensures var raw := Encode(HeartbeatFrame(a, sender.sequence));
            raw.Success? && Online(Receive(observer, raw.value, time, p), a, time)
  {
    AddressFrames(sender.uid, a, sender.sequence);
    DecodeEncoded(HeartbeatFrame(a, sender.sequence));
    HearsSender(observer, Encode(HeartbeatFrame(a, sender.sequence)).value, time, p);
  }

  lemma SenderCallInTouch(j: Pair, m: Moment, a: NodeAddress, pause: nat, heard: nat)
    requires m.SenderCalls? && InTouch(j, a, pause, heard) && Allowed(j, m, a, pause)
    ensures InTouch(PlayMoment(j, m, a), a, pause, heard)
  {
  }

  lemma ObserverInTouch(j: Pair, m: Moment, a: NodeAddress, pause: nat, heard: nat) returns (heard': nat)
    requires m.ObserverDoes? && pause <= MAX_PAUSE && InTouch(j, a, pause, heard) && Allowed(j, m, a, pause)
    ensures InTouch(PlayMoment(j, m, a), a, pause, heard')
  {
    CloseIsYoung(j.sender.schedule.nextHeartbeat - PERIOD, j.lastTick, j.now, heard, j.missed, pause, m.time);
    StaysOnline(j.observer, At(m.time, m.input), a, heard);
    heard' := if Online(Step(j.observer, m.input), a, heard) then heard else m.time;
  }

  /** Before the clock wraps, an observer that gets at least one of every three heartbeats of a sender
      that ticks at least every 5000 ms never marks the sender offline. */
  lemma {:induction false} LiveSenderNeverExpires(j: Pair, moments: seq<Moment>, a: NodeAddress, pause: nat, heard: nat)
    requires pause <= 5000 && InTouch(j, a, pause, heard) && AllowedAll(j, moments, a, pause)
    ensures PlayAll(j, moments, a, pause).observer.dir.seen[a]
    decreases |moments|
  {
    if moments != [] {
      var m, heard' := moments[0], heard;
      if m.SenderTicks? { heard' := SenderTickInTouch(j, m, a, pause, heard); }
      else if m.ObserverDoes? { heard' := ObserverInTouch(j, m, a, pause, heard); }
      else { SenderCallInTouch(j, m, a, pause, heard); }
      LiveSenderNeverExpires(PlayMoment(j, m, a), moments[1..], a, pause, heard');
    }
  }

  /** The timeline starts when the observer gets a heartbeat. */
  lemma HeartbeatPutsInTouch(sender: Node, observer: Node, a: NodeAddress, time: nat, p: Ports, q: Ports)
    requires Steady(sender, a) && IsUnicast(a) && OwnersSeen(observer.dir) && time + PERIOD < WORD
    requires Beats(sender, time)
    ensures var raw := Encode(HeartbeatFrame(a, sender.sequence));
            && raw.Success?
            && InTouch(Pair(Tick(sender, time, p), Receive(observer, raw.value, time, q), 0, time, time), a, MAX_PAUSE,
                       time)
  {
    hide Dispatch, Tick;
    SteadyTick(sender, a, time, p);
    BeatArrives(sender, observer, a, time, q);
  }
}
