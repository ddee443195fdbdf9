/** The 29-bit identifier: the arbitration field of an extended data frame. */
module CanIdentifiers {
  import opened Wrappers
  import opened Types

  type Hop = x: int | 0 <= x < 8

  const IDENTIFIER_LIMIT := 0x2000_0000

  datatype CanIdentifier = CanIdentifier(
    priority: Priority, kind: Kind, destination: NodeAddress, source: NodeAddress, hop: Hop)

  /** Checked construction: the address arguments are sixteen-bit, the hop eight-bit. */
  function Create(priority: Priority, kind: Kind, destination: U16, source: U16, hop: Byte): Option<CanIdentifier> {
    if destination > BROADCAST || source > BROADCAST || hop > 7 then None
    else Some(CanIdentifier(priority, kind, destination, source, hop))
  }

  /** Shifts and masks written as quotient and remainder. */
  function FromRaw(raw: U32): Option<CanIdentifier> {
    if raw >= IDENTIFIER_LIMIT then None
    else Some(CanIdentifier(
      raw / 0x400_0000 % 8, raw / 0x20_0000 % 32, raw / 0x1000 % 0x200, raw / 8 % 0x200, raw % 8))
  }

  /** The fields do not overlap, so the disjunction of the shifted fields is their sum. */
  function ToRaw(id: CanIdentifier): U32 {
    id.priority as int * 0x400_0000 + id.kind as int * 0x20_0000 + id.destination as int * 0x1000
    + id.source as int * 8 + id.hop as int
  }

  /** The upper four fields, and the identifier in Horner form. */
  function Upper(id: CanIdentifier): nat {
    ((id.priority as int * 32 + id.kind) * 0x200 + id.destination) * 0x200 + id.source
  }

  lemma SplitField(q: int, r: int)
    ensures 0 <= r < 8 ==> (q * 8 + r) / 8 == q && (q * 8 + r) % 8 == r
    ensures 0 <= r < 32 ==> (q * 32 + r) / 32 == q && (q * 32 + r) % 32 == r
    ensures 0 <= r < 0x200 ==> (q * 0x200 + r) / 0x200 == q && (q * 0x200 + r) % 0x200 == r
  {
  }

  /** Packing followed by unpacking loses nothing, whatever the kind. */
  lemma UnpackPacked(id: CanIdentifier)
    ensures ToRaw(id) < IDENTIFIER_LIMIT
    ensures FromRaw(ToRaw(id)) == Some(id)
  {
    var raw, upper := ToRaw(id), Upper(id);
    var head := id.priority as int * 32 + id.kind;
    var addressed := head * 0x200 + id.destination;
    assert raw == upper * 8 + id.hop;
    QuotientsNest(raw);
    SplitField(upper, id.hop);
    SplitField(addressed, id.source);
    SplitField(head, id.destination);
    SplitField(id.priority, id.kind);
  }

  lemma QuotientsNest(raw: nat)
    ensures raw / 0x1000 == raw / 8 / 0x200
    ensures raw / 0x20_0000 == raw / 8 / 0x200 / 0x200
    ensures raw / 0x400_0000 == raw / 8 / 0x200 / 0x200 / 32
  {
  }

  /** A word is put together from its remainders. */
  lemma Reassembles(raw: nat)
    ensures var q1, q2, q3, q4 := raw / 8, raw / 8 / 0x200, raw / 8 / 0x200 / 0x200, raw / 8 / 0x200 / 0x200 / 32;
            raw == (((q4 * 32 + q3 % 32) * 0x200 + q2 % 0x200) * 0x200 + q1 % 0x200) * 8 + raw % 8
    ensures raw < IDENTIFIER_LIMIT ==> raw / 8 / 0x200 / 0x200 / 32 < 8
  {
    var q1 := raw / 8;
    assert raw == q1 * 8 + raw % 8;
    var q2 := q1 / 0x200;
    assert q1 == q2 * 0x200 + q1 % 0x200;
    var q3 := q2 / 0x200;
    assert q2 == q3 * 0x200 + q2 % 0x200;
    assert q3 == q3 / 32 * 32 + q3 % 32;
  }

  /** Every word below 2^29 is the packing of exactly one identifier. */
  lemma PackUnpacked(raw: U32)
    ensures FromRaw(raw).Some? <==> raw < IDENTIFIER_LIMIT
    ensures FromRaw(raw).Some? ==> ToRaw(FromRaw(raw).value) == raw
  {
    if raw < IDENTIFIER_LIMIT {
      QuotientsNest(raw);
      Reassembles(raw);
      var id := FromRaw(raw).value;
      assert id.priority == raw / 8 / 0x200 / 0x200 / 32;
      assert ToRaw(id) == Upper(id) * 8 + id.hop;
    }
  }

  /** The order in which the fields decide arbitration. */
  predicate Precedes(a: CanIdentifier, b: CanIdentifier) {
    || a.priority < b.priority
    || (a.priority == b.priority && a.kind < b.kind)
    || (a.priority == b.priority && a.kind == b.kind && a.destination < b.destination)
    || (a.priority == b.priority && a.kind == b.kind && a.destination == b.destination && a.source < b.source)
    || (a.priority == b.priority && a.kind == b.kind && a.destination == b.destination && a.source == b.source
        && a.hop < b.hop)
  }

  /** Numeric order of raw identifiers is lexicographic order of the fields. */
  lemma ArbitrationFollowsFields(a: CanIdentifier, b: CanIdentifier)
    ensures ToRaw(a) < ToRaw(b) <==> Precedes(a, b)
    ensures ToRaw(a) == ToRaw(b) <==> a == b
  {
    UnpackPacked(a);
    UnpackPacked(b);
  }

  /** The traffic class is the top three bits of the identifier. */
  lemma ClassIsTopBits(id: CanIdentifier)
    ensures ToRaw(id) / 0x400_0000 == id.priority
  {
    UnpackPacked(id);
  }
}
