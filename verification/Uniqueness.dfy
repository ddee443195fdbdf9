/** With one primary and empty storage at first, no two nodes ever hold one address. */
module Uniqueness {
  import opened Wrappers
  import opened Types
  import opened CanIdentifiers
  import opened WirePayloads
  import opened FrameCodec
  import opened Outboxes
  import opened Directories
  import opened Nodes
  import opened NodeFrames
  import opened NodeInvariants
  import opened Installations

  predicate DistinctUids(s: Installation) {
    forall i, j :: 0 <= i < j < |s.nodes| ==> s.nodes[i].uid != s.nodes[j].uid
  }

  predicate OnePrimary(s: Installation, primary: nat) {
    primary < |s.nodes| && forall i :: 0 <= i < |s.nodes| ==> (s.nodes[i].role == Primary <==> i == primary)
  }

  /** Every node has just started with nothing stored, and nothing has been sent. */
  predicate FreshInstallation(s: Installation, primary: nat) {
    && DistinctUids(s) && OnePrimary(s, primary) && s.bus == {}
    && forall i :: 0 <= i < |s.nodes| ==>
         || s.nodes[i] == Boot(s.nodes[i].uid, s.nodes[i].role, None, true)
         || s.nodes[i] == Boot(s.nodes[i].uid, s.nodes[i].role, None, false)
  }

  predicate PrimaryStaysUp(events: seq<Event>, primary: nat) {
    forall k :: 0 <= k < |events| && events[k].Restart? ==> events[k].who != primary
  }

  /** `held` lists every address given away so far, with the one UID it was given to; the primary
      has them all reserved. */
  ghost predicate Commissioned(s: Installation, primary: nat, held: set<Holding>) {
    && DistinctUids(s) && OnePrimary(s, primary)
    && Authentic(s, held, false) && OneHolderEach(held)
    && (forall h :: h in held ==> s.nodes[primary].reserved[h.address])
    && (forall i :: 0 <= i < |s.nodes| ==> s.nodes[i].conflicts == [])
  }

  /** A node that booted without a stored address holds, at most, the bootstrap address as primary. */
  predicate FreshlyBooted(n: Node) {
    && n.stored == n.address && (n.address.Some? ==> n.role == Primary && n.reserved[n.address.value])
    && n.out == EMPTY && n.conflicts == []
  }

  lemma BootedFresh(uid: Uid, role: Role, saved: bool)
    ensures FreshlyBooted(Boot(uid, role, None, saved))
  {
  }

  lemma FreshNodes(s: Installation, primary: nat)
    requires FreshInstallation(s, primary)
    ensures forall i :: 0 <= i < |s.nodes| ==> FreshlyBooted(s.nodes[i])
  {
    forall i | 0 <= i < |s.nodes| ensures FreshlyBooted(s.nodes[i]) {
      BootedFresh(s.nodes[i].uid, s.nodes[i].role, true);
      BootedFresh(s.nodes[i].uid, s.nodes[i].role, false);
    }
  }

  lemma FreshIsCommissioned(s: Installation, primary: nat)
    requires DistinctUids(s) && OnePrimary(s, primary) && s.bus == {}
    requires forall i :: 0 <= i < |s.nodes| ==> FreshlyBooted(s.nodes[i])
    ensures var p := s.nodes[primary];
            Commissioned(s, primary, if p.address.Some? then {Holding(p.address.value, p.uid)} else {})
  {
    hide Boot, Genuine;
  }

  /** What one event adds to the addresses given away. */
  function HeldAfter(s: Installation, e: Event, held: set<Holding>): set<Holding>
    requires e.who < |s.nodes|
  {
    if e.Call? then held + Issued(AuthorOf(s.nodes[e.who], e.input)) else held
  }

  lemma OneHolderStays(s: Installation, primary: nat, held: set<Holding>, e: Event)
    requires Commissioned(s, primary, held) && Possible(s, e)
    ensures OneHolderEach(HeldAfter(s, e, held))
    ensures e.Call? && Issues(AuthorOf(s.nodes[e.who], e.input)) ==> e.who == primary
  {
    if e.Call? && Issues(AuthorOf(s.nodes[e.who], e.input)) {
      IssuedIsReserved(s.nodes[e.who], e.input);
    }
  }

  lemma NodeStaysCommissioned(s: Installation, primary: nat, held: set<Holding>, e: Event)
    requires Commissioned(s, primary, held) && Possible(s, e) && (e.Restart? ==> e.who != primary)
    ensures var m, more := NodeAfter(s.nodes[e.who], e), HeldAfter(s, e, held);
            Rightful(m, more) && GenuineOutbox(m.out, more, false) && m.conflicts == []
  {
    hide Step;
    var n, more := s.nodes[e.who], HeldAfter(s, e, held);
    OneHolderStays(s, primary, held, e);
    match e
    case Call(_, input) =>
      CallStaysGenuine(n, input, held, false);
      CallStaysRightful(n, input, more);
    case Restart(_, _) =>
  }

  lemma BootKeepsIdentity(n: Node, saved: bool)
    ensures var m := Boot(n.uid, n.role, n.stored, saved); m.uid == n.uid && m.role == n.role
  {
  }

  lemma IdentityStays(s: Installation, primary: nat, held: set<Holding>, e: Event)
    requires Commissioned(s, primary, held) && Possible(s, e) && (e.Restart? ==> e.who != primary)
    ensures var t := Next(s, e);
            && DistinctUids(t) && OnePrimary(t, primary)
            && (forall h :: h in HeldAfter(s, e, held) ==> t.nodes[primary].reserved[h.address])
  {
    hide Step, Genuine, Boot;
    OneHolderStays(s, primary, held, e);
    if e.Restart? {
      BootKeepsIdentity(s.nodes[e.who], e.saved);
    } else {
      CallKeepsReserved(s.nodes[e.who], e.input);
      if Issues(AuthorOf(s.nodes[e.who], e.input)) { IssuedIsReserved(s.nodes[e.who], e.input); }
    }
  }

  lemma EventKeepsCommissioned(s: Installation, primary: nat, held: set<Holding>, e: Event)
    requires Commissioned(s, primary, held) && Possible(s, e) && (e.Restart? ==> e.who != primary)
    ensures Commissioned(Next(s, e), primary, HeldAfter(s, e, held))
  {
    hide Step, Boot, Genuine, Issued;
    var t, more := Next(s, e), HeldAfter(s, e, held);
    OneHolderStays(s, primary, held, e);
    NodeStaysCommissioned(s, primary, held, e);
    IdentityStays(s, primary, held, e);
    forall i | 0 <= i < |t.nodes| ensures Rightful(t.nodes[i], more) && GenuineOutbox(t.nodes[i].out, more, false) {
      if i != e.who { OutboxGrows(s.nodes[i].out, held, more, false); }
    }
    forall raw | raw in t.bus ensures Genuine(more, false, raw) {
      if raw in s.bus { GenuineGrows(held, more, false, raw); }
    }
  }

  lemma {:induction false} RunKeepsCommissioned(s: Installation, primary: nat, held: set<Holding>, events: seq<Event>)
    returns (finally: set<Holding>)
    requires Commissioned(s, primary, held) && Plays(s, events) && PrimaryStaysUp(events, primary)
    ensures Commissioned(After(s, events), primary, finally)
    decreases |events|
  {
    hide Step, Boot, Genuine, Issued, Commissioned, Next;
    if events == [] {
      finally := held;
    } else {
      EventKeepsCommissioned(s, primary, held, events[0]);
      finally := RunKeepsCommissioned(Next(s, events[0]), primary, HeldAfter(s, events[0], held), events[1..]);
    }
  }

  /** Two frames, each a claim, a conflict notice or an assignment, name different UIDs for one address. */
  predicate Contradict(raw: RawCanFrame, other: RawCanFrame) {
    && Decode(raw).Success? && Decode(other).Success?
    && var a, b := Asserted(Decode(raw).value), Asserted(Decode(other).value);
       a.Some? && b.Some? && a.value.address == b.value.address && a.value.uid != b.value.uid
  }

  /** In every run, whatever the bus does: no two nodes hold one address; every claim, conflict notice
      and assignment of an address ever sent names one UID, that of the node holding it, so a claim
      carries the UID the address was assigned to; and no node ever reports a conflict. */
  lemma {:induction false} AddressesAreUnique(s: Installation, primary: nat, events: seq<Event>)
    requires FreshInstallation(s, primary) && Plays(s, events) && PrimaryStaysUp(events, primary)
    ensures var t := After(s, events);
            && (forall i, j :: 0 <= i < j < |t.nodes| && t.nodes[i].address.Some? ==>
                  t.nodes[i].address != t.nodes[j].address)
            && (forall raw, other :: raw in t.bus && other in t.bus ==> !Contradict(raw, other))
            && (forall raw, i :: raw in t.bus && 0 <= i < |t.nodes| && Decode(raw).Success? ==>
                  var asserted := Asserted(Decode(raw).value);
                  asserted.Some? && t.nodes[i].address == Some(asserted.value.address) ==>
                        asserted.value.uid == t.nodes[i].uid)
            && (forall i :: 0 <= i < |t.nodes| ==> t.nodes[i].conflicts == [])
  {
    hide Step, Boot, FreshlyBooted;
    FreshNodes(s, primary);
    FreshIsCommissioned(s, primary);
    var p := s.nodes[primary];
    var first := if p.address.Some? then {Holding(p.address.value, p.uid)} else {};
    var held := RunKeepsCommissioned(s, primary, first, events);
    var t := After(s, events);
    forall i, j | 0 <= i < j < |t.nodes| && t.nodes[i].address.Some? ensures t.nodes[i].address != t.nodes[j].address {
      assert Rightful(t.nodes[i], held) && Rightful(t.nodes[j], held);
    }
    forall raw, other | raw in t.bus && other in t.bus ensures !Contradict(raw, other) {
      assert Genuine(held, false, raw) && Genuine(held, false, other);
    }
    forall raw, i | raw in t.bus && 0 <= i < |t.nodes| && Decode(raw).Success?
      ensures var asserted := Asserted(Decode(raw).value);
              asserted.Some? && t.nodes[i].address == Some(asserted.value.address) ==>
                    asserted.value.uid == t.nodes[i].uid
    {
      assert Genuine(held, false, raw) && Rightful(t.nodes[i], held);
    }
  }
}
