/** The sixteen-slot table of executed commands. */
module Duplicates {
  import opened Wrappers
  import opened Types
  import opened Directories

  const DUPLICATE_WINDOW := 2000

  datatype CommandKey = CommandKey(source: NodeAddress, endpoint: EndpointId, transaction: Byte, kind: Kind)

  datatype Duplicate = Duplicate(key: CommandKey, seenMs: U32, status: Status)

  type Records = seq<Option<Duplicate>>

  predicate IsLive(record: Option<Duplicate>, key: CommandKey, now: U32) {
    record.Some? && record.value.key == key && Sub32(now, record.value.seenMs) <= DUPLICATE_WINDOW
  }

  /** Index of the first live record of a key, or the number of records. */
  function LiveRecord(records: Records, key: CommandKey, now: U32): (i: nat)
    ensures i <= |records|
    ensures i < |records| ==> IsLive(records[i], key, now)
    ensures forall j :: 0 <= j < i ==> !IsLive(records[j], key, now)
  {
    if records == [] || IsLive(records[0], key, now) then 0 else 1 + LiveRecord(records[1..], key, now)
  }

  /** The status of the earlier copy, when there is one. */
  function EarlierStatus(records: Records, key: CommandKey, now: U32): Option<Status> {
    var i := LiveRecord(records, key, now);
    if i < |records| then Some(records[i].value.status) else None
  }

  /** Where a new record goes: the first empty slot, and slot 0 once the table is full. */
  function InsertSlot(records: Records): (i: nat)
    ensures records != [] ==> i < |records|
  {
    if FreeSlot(records) < |records| then FreeSlot(records) else 0
  }

  function Record(records: Records, key: CommandKey, now: U32): Records
    requires records != []
  {
    records[InsertSlot(records) := Some(Duplicate(key, now, UNSUPPORTED))]
  }

  /** Index of the first record of a key of any age, or the number of records. */
  function KeyRecord(records: Records, key: CommandKey): (i: nat)
    ensures i <= |records|
    ensures i < |records| ==> records[i].Some? && records[i].value.key == key
    ensures forall j :: 0 <= j < i ==> records[j].None? || records[j].value.key != key
  {
    if records == [] || (records[0].Some? && records[0].value.key == key) then 0 else 1 + KeyRecord(records[1..], key)
  }

  /** The status goes to the first record of the key, even a stale one. */
  function SetStatus(records: Records, key: CommandKey, status: Status): Records {
    var i := KeyRecord(records, key);
    if i < |records| then records[i := Some(records[i].value.(status := status))] else records
  }
}
