/** The five transmit queues in place: arrays with a count, shifted on every pop. */
module TransmitQueues {
  import opened Wrappers
  import opened Types
  import opened CanIdentifiers
  import opened WirePayloads
  import opened FrameCodec
  import opened Outboxes

  /** One queue: an array of eight frames, of which the first `count` are pending. */
  class FrameQueue {
    const data: array<RawCanFrame>
    var count: nat

    ghost predicate Valid()
      reads this
    {
      data.Length == CAPACITY && count <= CAPACITY
    }

    ghost function Contents(): seq<RawCanFrame>
      requires Valid()
      reads this, data
    {
      data[..count]
    }

    constructor ()
      ensures Valid() && fresh(data) && Contents() == []
    {
      data := new RawCanFrame[CAPACITY];
      count := 0;
    }

    method Add(raw: RawCanFrame) returns (ok: bool)
      requires Valid()
      modifies this, data
      ensures Valid() && (ok <==> |old(Contents())| < CAPACITY)
      ensures Contents() == if ok then old(Contents()) + [raw] else old(Contents())
    {
      ok := count < data.Length;
      if ok {
        data[count] := raw;
        count := count + 1;
      }
    }

    method Put(slot: nat, raw: RawCanFrame)
      requires Valid() && slot < |Contents()|
      modifies data
      ensures Valid() && Contents() == old(Contents())[slot := raw]
    {
      data[slot] := raw;
    }

    /** Every frame moves up by one place. */
    method Shift() returns (head: RawCanFrame)
      requires Valid() && Contents() != []
      modifies this, data
      ensures Valid() && [head] + Contents() == old(Contents())
    {
      head := data[0];
      for i := 1 to count
        invariant Valid() && count == old(count)
        invariant forall k :: 0 <= k < i - 1 ==> data[k] == old(data[k + 1])
        invariant forall k :: i <= k < count ==> data[k] == old(data[k])
      {
        data[i - 1] := data[i];
      }
      count := count - 1;
    }

    /** The pending STATE a new one with this key supersedes. */
    method FindState(key: Key) returns (slot: nat)
      requires Valid()
      ensures slot == FirstPending(Contents(), key)
    {
      slot := 0;
      while slot < count && KeyOf(data[slot]) != Some(key)
        invariant slot <= count
        invariant FirstPending(Contents(), key) == slot + FirstPending(Contents()[slot..], key)
      {
        assert Contents()[slot..][1..] == Contents()[slot + 1..];
        slot := slot + 1;
      }
    }
  }

  class Queues {
    const queues: seq<FrameQueue>
    ghost var model: Outbox

    ghost function Footprint(): set<object> {
      {this} + (set q: FrameQueue | q in queues :: q) + (set q: FrameQueue | q in queues :: q.data)
    }

    /** The queues share no storage. */
    ghost predicate Apart() {
      && |queues| == CLASSES
      && (forall i, j :: 0 <= i < CLASSES && 0 <= j < CLASSES && i != j ==>
            queues[i] != queues[j] && queues[i].data != queues[j].data)
    }

    ghost predicate Valid()
      reads Footprint()
    {
      && Apart() && |model.queues| == CLASSES
      && forall c :: 0 <= c < CLASSES ==> queues[c].Valid() && queues[c].Contents() == model.queues[c]
    }

    static method NewQueues() returns (qs: seq<FrameQueue>)
      ensures |qs| == CLASSES
      ensures forall i :: 0 <= i < CLASSES ==>
                fresh(qs[i]) && fresh(qs[i].data) && qs[i].Valid() && qs[i].Contents() == []
      ensures forall i, j :: 0 <= i < j < CLASSES ==> qs[i] != qs[j] && qs[i].data != qs[j].data
    {
      qs := [];
      for c := 0 to CLASSES
        invariant |qs| == c
        invariant forall i :: 0 <= i < c ==>
                    fresh(qs[i]) && fresh(qs[i].data) && qs[i].Valid() && qs[i].Contents() == []
        invariant forall i, j :: 0 <= i < j < c ==> qs[i] != qs[j] && qs[i].data != qs[j].data
      {
        var q := new FrameQueue();
        qs := qs + [q];
      }
    }

    constructor ()
      ensures Valid() && fresh(Footprint()) && forall o :: o in Footprint() ==> allocated(o)
      ensures model == EMPTY
    {
      var fiveQueues := NewQueues();
      queues := fiveQueues;
      model := EMPTY;
    }

    method Append(c: nat, raw: RawCanFrame) returns (ok: bool)
      requires Valid() && c < CLASSES
      modifies Footprint()
      ensures Valid() && (ok <==> |old(model).queues[c]| < CAPACITY)
      ensures model == if ok then Push(old(model), c, raw) else old(model)
    {
      assert queues[c] in queues;
      ok := queues[c].Add(raw);
      if ok { model := Push(model, c, raw); }
    }

    method Supersede(c: nat, slot: nat, raw: RawCanFrame)
      requires Valid() && c < CLASSES && slot < |model.queues[c]|
      modifies Footprint()
      ensures Valid() && model == Replace(old(model), c, slot, raw)
    {
      queues[c].Put(slot, raw);
      model := Replace(model, c, slot, raw);
    }

    /** The head of a queue goes to the transmitter. */
    method Take(c: nat, refused: set<RawCanFrame>) returns (sent: bool)
      requires Valid() && c < CLASSES && model.queues[c] != []
      modifies Footprint()
      ensures Valid() && model == Pop(old(model), c, refused) && sent == (old(model).queues[c][0] !in refused)
    {
      var head := queues[c].Shift();
      assert ([head] + queues[c].Contents())[1..] == queues[c].Contents();
      model := Pop(model, c, refused);
      sent := head !in refused;
    }

    /** The frame goes to the queue of its priority; a STATE overwrites a pending one with its key. */
    method Enqueue(frame: ProtocolFrame) returns (ok: bool)
      requires Valid()
      modifies Footprint()
      ensures Valid() && (model, ok) == Outboxes.Enqueue(old(model), frame)
    {
      hide FirstPending, KeyOf, Encode;
      var encoded := Encode(frame);
      if encoded.Failure? { return false; }
      EncodedClass(frame);
      var raw, c := encoded.value, QueueOf(frame.identifier.priority);
      var key := FrameKey(frame);
      if key.Some? {
        var slot := queues[c].FindState(key.value);
        if slot < queues[c].count {
          Supersede(c, slot, raw);
          return true;
        }
      }
      ok := Append(c, raw);
    }

    /** A head the transmitter refuses is lost, and the next class is tried. */
    method DrainOne(refused: set<RawCanFrame>) returns (sent: bool)
      requires Valid()
      modifies Footprint()
      ensures Valid() && (model, sent) == Drain(old(model), refused)
    {
      for c := 0 to CLASSES
        invariant Valid()
        invariant DrainFrom(model, c, refused) == Drain(old(model), refused)
      {
        if queues[c].count > 0 {
          sent := Take(c, refused);
          if sent { return; }
        }
      }
      sent := false;
    }

    /** A frame that bypasses the queues. */
    method Transmit(raw: RawCanFrame, refused: set<RawCanFrame>) returns (sent: bool)
      requires Valid()
      modifies Footprint()
      ensures Valid() && sent == (raw !in refused) && model == Outboxes.Transmit(old(model), raw, false, refused)
    {
      sent := raw !in refused;
      model := Outboxes.Transmit(model, raw, false, refused);
    }
  }
}
