/** At-most-once execution by the sixteen-record table, and exactly when the table fails to give it. */
module CommandTables {
  import opened Wrappers
  import opened Types
  import opened Directories
  import opened Duplicates

  /** A command addressed to the node: its key, the true instant, and the status its handling
      gives if it is executed. */
  datatype Arrival = Arrival(key: CommandKey, time: nat, answer: Status)

  function Now(a: Arrival): U32 { a.time % WORD }

  type Table = r: Records | |r| == 16 witness seq(16, _ => None)

  function Filed(records: Table, key: CommandKey, now: U32, answer: Status): Table {
    SetStatus(Record(records, key, now), key, answer)
  }

  /** The command is taken as new: it is executed, and a record is inserted. */
  predicate IsNew(records: Table, a: Arrival) { EarlierStatus(records, a.key, Now(a)).None? }

  function Process(records: Table, a: Arrival): Table {
    if IsNew(records, a) then Filed(records, a.key, Now(a), a.answer) else records
  }

  /** The table after the first `k` arrivals. */
  function TableAt(records: Table, arrivals: seq<Arrival>, k: nat): Table
    requires k <= |arrivals|
  {
    if k == 0 then records else Process(TableAt(records, arrivals, k - 1), arrivals[k - 1])
  }

  predicate Executed(records: Table, arrivals: seq<Arrival>, k: nat)
    requires k < |arrivals|
  {
    IsNew(TableAt(records, arrivals, k), arrivals[k])
  }

  /** The status the acknowledgement of arrival `k` carries. */
  function Reply(records: Table, arrivals: seq<Arrival>, k: nat): Status
    requires k < |arrivals|
  {
    match EarlierStatus(TableAt(records, arrivals, k), arrivals[k].key, Now(arrivals[k]))
    case Some(status) => status
    case None => arrivals[k].answer
  }

  /** An insertion that finds the table full. */
  predicate Evicts(records: Table, a: Arrival) { IsNew(records, a) && FreeSlot(records) == 16 }

  predicate EvictsBetween(records: Table, arrivals: seq<Arrival>, i: nat, j: nat)
    requires i < j <= |arrivals|
  {
    exists k :: i < k < j && Evicts(TableAt(records, arrivals, k), arrivals[k])
  }

  predicate Chronological(arrivals: seq<Arrival>) {
    forall i, j :: 0 <= i < j < |arrivals| ==> arrivals[i].time <= arrivals[j].time
  }

  // ---------------------------------------------------------------- one record

  predicate Holds(record: Option<Duplicate>, key: CommandKey, seen: U32) {
    record.Some? && record.value.key == key && record.value.seenMs == seen
  }

  /** Filing writes one record, and one status of its key. */
  lemma FiledSlots(records: Table, key: CommandKey, now: U32, answer: Status, k: nat)
    requires k < 16
    ensures var filed, slot := Filed(records, key, now, answer), InsertSlot(records);
            && (k == slot ==> Holds(filed[k], key, now))
            && (k != slot && records[k].None? ==> filed[k].None?)
            && (k != slot && records[k].Some? ==> Holds(filed[k], records[k].value.key, records[k].value.seenMs))
            && (k != slot && records[k].Some? && records[k].value.key != key ==> filed[k] == records[k])
  {
  }

  lemma ProcessKeepsRecord(records: Table, a: Arrival, slot: nat, key: CommandKey, seen: U32)
    requires slot < 16 && Holds(records[slot], key, seen) && (slot != 0 || !Evicts(records, a))
    ensures Holds(Process(records, a)[slot], key, seen)
  {
    if IsNew(records, a) { FiledSlots(records, a.key, Now(a), a.answer, slot); }
  }

  lemma {:induction false} RecordSurvives(
    records: Table, arrivals: seq<Arrival>, i: nat, j: nat, slot: nat, key: CommandKey, seen: U32)
    requires i < j <= |arrivals| && slot < 16 && Holds(TableAt(records, arrivals, i + 1)[slot], key, seen)
    requires slot != 0 || !EvictsBetween(records, arrivals, i, j)
    ensures Holds(TableAt(records, arrivals, j)[slot], key, seen)
    decreases j
  {
    if j > i + 1 {
      RecordSurvives(records, arrivals, i, j - 1, slot, key, seen);
      ProcessKeepsRecord(TableAt(records, arrivals, j - 1), arrivals[j - 1], slot, key, seen);
    }
  }

  /** The record made at arrival `i` is still there at arrival `j`: it is not in slot 0, or no
      insertion in between found the table full. */
  predicate Retained(records: Table, arrivals: seq<Arrival>, i: nat, j: nat)
    requires i < j <= |arrivals|
  {
    InsertSlot(TableAt(records, arrivals, i)) != 0 || !EvictsBetween(records, arrivals, i, j)
  }

  lemma {:induction false} ExecutionLeavesRecord(records: Table, arrivals: seq<Arrival>, i: nat, j: nat)
    requires i < j <= |arrivals| && Executed(records, arrivals, i) && Retained(records, arrivals, i, j)
    ensures Holds(TableAt(records, arrivals, j)[InsertSlot(TableAt(records, arrivals, i))], arrivals[i].key,
                  Now(arrivals[i]))
  {
    var before, a := TableAt(records, arrivals, i), arrivals[i];
    FiledSlots(before, a.key, Now(a), a.answer, InsertSlot(before));
    RecordSurvives(records, arrivals, i, j, InsertSlot(before), a.key, Now(a));
  }

  /** A copy of an executed command that arrives within the window, while the record is retained,
      is not executed again, across any wrap of the clock. */
  lemma AtMostOnce(records: Table, arrivals: seq<Arrival>, i: nat, j: nat)
    requires Chronological(arrivals) && i < j < |arrivals|
    requires arrivals[j].key == arrivals[i].key && arrivals[j].time - arrivals[i].time <= DUPLICATE_WINDOW
    requires Executed(records, arrivals, i) && Retained(records, arrivals, i, j)
    ensures !Executed(records, arrivals, j)
  {
    var slot := InsertSlot(TableAt(records, arrivals, i));
    ExecutionLeavesRecord(records, arrivals, i, j);
    WrapSafeAge(arrivals[j].time, arrivals[i].time);
    assert IsLive(TableAt(records, arrivals, j)[slot], arrivals[j].key, Now(arrivals[j]));
  }

  // ---------------------------------------------------------------- how full the table is

  /** The slots in use are the first ones. */
  predicate Packed(records: Table) {
    forall k :: FreeSlot(records) <= k < 16 ==> records[k].None?
  }

  function Insertions(records: Table, arrivals: seq<Arrival>, k: nat): nat
    requires k <= |arrivals|
  {
    if k == 0 then 0
    else Insertions(records, arrivals, k - 1) + if Executed(records, arrivals, k - 1) then 1 else 0
  }

  lemma {:induction false} FreeSlotIs(records: Table, k: nat)
    requires k <= 16 && (forall i :: 0 <= i < k ==> records[i].Some?) && (k < 16 ==> records[k].None?)
    ensures FreeSlot(records) == k
  {
  }

  lemma {:induction false} FilingFillsNext(records: Table, key: CommandKey, now: U32, answer: Status)
    requires Packed(records)
    ensures var filed := Filed(records, key, now, answer);
            Packed(filed) && FreeSlot(filed) == if FreeSlot(records) < 16 then FreeSlot(records) + 1 else 16
  {
    var filed, free := Filed(records, key, now, answer), FreeSlot(records);
    forall k | 0 <= k < 16 ensures filed[k].Some? <==> k <= free || records[k].Some? {
      FiledSlots(records, key, now, answer, k);
    }
    FreeSlotIs(filed, if free < 16 then free + 1 else 16);
  }

  lemma {:induction false} TableFills(records: Table, arrivals: seq<Arrival>, k: nat)
    requires k <= |arrivals| && FreeSlot(records) == 0 && Packed(records)
    ensures Packed(TableAt(records, arrivals, k))
    ensures var inserted := Insertions(records, arrivals, k);
            FreeSlot(TableAt(records, arrivals, k)) == if inserted < 16 then inserted else 16
  {
    hide Packed;
    if k > 0 {
      TableFills(records, arrivals, k - 1);
      var before, a := TableAt(records, arrivals, k - 1), arrivals[k - 1];
      FilingFillsNext(before, a.key, Now(a), a.answer);
    }
  }

  lemma {:induction false} InsertionsGrow(records: Table, arrivals: seq<Arrival>, i: nat, j: nat)
    requires i <= j <= |arrivals|
    ensures Insertions(records, arrivals, i) <= Insertions(records, arrivals, j)
    decreases j
  {
    if i < j { InsertionsGrow(records, arrivals, i, j - 1); }
  }

  /** While at most sixteen commands have been executed since start-up, nothing is evicted. */
  lemma {:induction false} SixteenAreRetained(records: Table, arrivals: seq<Arrival>, i: nat, j: nat)
    requires i < j <= |arrivals| && FreeSlot(records) == 0 && Packed(records)
    requires Insertions(records, arrivals, j) <= 16
    ensures Retained(records, arrivals, i, j)
  {
    hide TableAt, Packed, EarlierStatus;
    forall k | i < k < j ensures !Evicts(TableAt(records, arrivals, k), arrivals[k]) {
      TableFills(records, arrivals, k);
      InsertionsGrow(records, arrivals, k + 1, j);
    }
  }

  // ---------------------------------------------------------------- exactly when a repeat runs again

  predicate IsStaleAt(record: Option<Duplicate>, key: CommandKey, time: nat) {
    record.Some? && record.value.key == key ==> time - record.value.seenMs > DUPLICATE_WINDOW
  }

  /** Before the clock wraps, no record is from the future. */
  predicate RecordedBy(records: Table, time: nat) {
    forall k :: 0 <= k < 16 && records[k].Some? ==> records[k].value.seenMs <= time
  }

  lemma ProcessRecordedBy(records: Table, a: Arrival, time: nat)
    requires RecordedBy(records, time) && time <= a.time < WORD
    ensures RecordedBy(Process(records, a), a.time)
  {
    forall k | 0 <= k < 16 && Process(records, a)[k].Some? ensures Process(records, a)[k].value.seenMs <= a.time {
      if IsNew(records, a) { FiledSlots(records, a.key, Now(a), a.answer, k); }
    }
  }

  lemma {:induction false} TableIsPast(records: Table, arrivals: seq<Arrival>, k: nat)
    requires k <= |arrivals| && Chronological(arrivals) && RecordedBy(records, 0)
    requires forall i :: 0 <= i < |arrivals| ==> arrivals[i].time < WORD
    ensures RecordedBy(TableAt(records, arrivals, k), if k == 0 then 0 else arrivals[k - 1].time)
  {
    if k > 0 {
      TableIsPast(records, arrivals, k - 1);
      ProcessRecordedBy(TableAt(records, arrivals, k - 1), arrivals[k - 1], if k == 1 then 0 else arrivals[k - 2].time);
    }
  }

  /** Apart from `slot`, every record of `key` is stale at `time`. */
  predicate StaleExcept(records: Table, key: CommandKey, time: nat, slot: nat) {
    forall k :: 0 <= k < 16 && k != slot ==> IsStaleAt(records[k], key, time)
  }

  /** Before the clock wraps, being live is having a young record. */
  lemma LiveIsYoung(records: Table, a: Arrival, k: nat)
    requires k < 16 && RecordedBy(records, a.time) && a.time < WORD
    ensures IsLive(records[k], a.key, Now(a))
            <==> records[k].Some? && records[k].value.key == a.key && !IsStaleAt(records[k], a.key, a.time)
  {
    if records[k].Some? { WrapSafeAge(a.time, records[k].value.seenMs); }
  }

  lemma NewMeansStale(records: Table, a: Arrival)
    requires RecordedBy(records, a.time) && a.time < WORD
    ensures IsNew(records, a) <==> forall k :: 0 <= k < 16 ==> IsStaleAt(records[k], a.key, a.time)
  {
    forall k | 0 <= k < 16
      ensures IsLive(records[k], a.key, Now(a))
            <==> records[k].Some? && records[k].value.key == a.key && !IsStaleAt(records[k], a.key, a.time)
    {
      LiveIsYoung(records, a, k);
    }
  }

  /** Commands with other keys leave the stale records of a key stale, and insert none. */
  lemma OthersKeepStale(records: Table, a: Arrival, key: CommandKey, time: nat, slot: nat)
    requires a.key != key && StaleExcept(records, key, time, slot)
    ensures StaleExcept(Process(records, a), key, time, slot)
    ensures Evicts(records, a) ==> StaleExcept(Process(records, a), key, time, if slot == 0 then 16 else slot)
  {
    forall k | 0 <= k < 16 && IsNew(records, a)
      ensures k != slot || (k == 0 && Evicts(records, a)) ==> IsStaleAt(Process(records, a)[k], key, time)
    {
      FiledSlots(records, a.key, Now(a), a.answer, k);
    }
  }

  /** No copy of command `i` is executed before arrival `j`. */
  predicate NotRerun(records: Table, arrivals: seq<Arrival>, i: nat, j: nat)
    requires i < j <= |arrivals|
  {
    forall k :: i < k < j && arrivals[k].key == arrivals[i].key ==> !Executed(records, arrivals, k)
  }

  /** Between an execution and the next one of its key, its own record is the only one that can be
      young, and an eviction removes it from slot 0 for good. */
  lemma {:induction false} OnlyOwnRecord(records: Table, arrivals: seq<Arrival>, i: nat, j: nat, time: nat)
    requires i < j <= |arrivals| && NotRerun(records, arrivals, i, j)
    requires StaleExcept(TableAt(records, arrivals, i + 1), arrivals[i].key, time,
                         InsertSlot(TableAt(records, arrivals, i)))
    ensures StaleExcept(TableAt(records, arrivals, j), arrivals[i].key, time,
                        if Retained(records, arrivals, i, j) then InsertSlot(TableAt(records, arrivals, i)) else 16)
    decreases j
  {
    hide StaleExcept, Process, InsertSlot, Evicts;
    if j > i + 1 {
      OnlyOwnRecord(records, arrivals, i, j - 1, time);
      OwnRecordStep(records, arrivals, i, j - 1, time);
    } else {
      assert !EvictsBetween(records, arrivals, i, j);
    }
  }

  lemma OwnRecordStep(records: Table, arrivals: seq<Arrival>, i: nat, j: nat, time: nat)
    requires i < j < |arrivals| && (arrivals[j].key == arrivals[i].key ==> !Executed(records, arrivals, j))
    requires var slot := InsertSlot(TableAt(records, arrivals, i));
             StaleExcept(TableAt(records, arrivals, j), arrivals[i].key, time,
                         if Retained(records, arrivals, i, j) then slot else 16)
    ensures var slot := InsertSlot(TableAt(records, arrivals, i));
            StaleExcept(TableAt(records, arrivals, j + 1), arrivals[i].key, time,
                        if Retained(records, arrivals, i, j + 1) then slot else 16)
  {
    hide StaleExcept, TableAt, InsertSlot, Evicts, EarlierStatus;
    var slot := InsertSlot(TableAt(records, arrivals, i));
    var before := TableAt(records, arrivals, j);
    assert TableAt(records, arrivals, j + 1) == Process(before, arrivals[j]) by { TableNext(records, arrivals, j); }
    RetainedStep(records, arrivals, i, j);
    if arrivals[j].key != arrivals[i].key {
      OthersKeepStale(before, arrivals[j], arrivals[i].key, time,
                      if Retained(records, arrivals, i, j) then slot else 16);
    } else {
      assert !Evicts(before, arrivals[j]) by { NoEvictionOfOld(before, arrivals[j]); }
    }
  }

  lemma TableNext(records: Table, arrivals: seq<Arrival>, j: nat)
    requires j < |arrivals|
    ensures TableAt(records, arrivals, j + 1) == Process(TableAt(records, arrivals, j), arrivals[j])
  {
  }

  lemma NoEvictionOfOld(records: Table, a: Arrival)
    requires !IsNew(records, a)
    ensures !Evicts(records, a)
  {
  }

  /** A record is retained one arrival further unless it sits in slot 0 and the arrival evicts it. */
  lemma RetainedStep(records: Table, arrivals: seq<Arrival>, i: nat, j: nat)
    requires i < j < |arrivals|
    ensures Retained(records, arrivals, i, j + 1)
            <==> Retained(records, arrivals, i, j)
                 && (InsertSlot(TableAt(records, arrivals, i)) != 0
                     || !Evicts(TableAt(records, arrivals, j), arrivals[j]))
  {
    hide TableAt, Evicts, InsertSlot;
    if EvictsBetween(records, arrivals, i, j + 1) && !Evicts(TableAt(records, arrivals, j), arrivals[j]) {
      var k :| i < k < j + 1 && Evicts(TableAt(records, arrivals, k), arrivals[k]);
      assert EvictsBetween(records, arrivals, i, j);
    }
    if Evicts(TableAt(records, arrivals, j), arrivals[j]) { assert EvictsBetween(records, arrivals, i, j + 1); }
    if EvictsBetween(records, arrivals, i, j) {
      var k :| i < k < j && Evicts(TableAt(records, arrivals, k), arrivals[k]);
      assert EvictsBetween(records, arrivals, i, j + 1);
    }
  }

  /** Before the clock wraps, a copy of an executed command that comes before any other execution of its
      key runs again if and only if it comes more than two seconds later, or the record sat in slot 0
      and some insertion in between found the table full. */
  lemma {:induction false} RepeatRunsAgainExactly(records: Table, arrivals: seq<Arrival>, i: nat, j: nat)
    requires Chronological(arrivals) && RecordedBy(records, 0)
    requires forall k :: 0 <= k < |arrivals| ==> arrivals[k].time < WORD
    requires i < j < |arrivals| && arrivals[j].key == arrivals[i].key
    requires Executed(records, arrivals, i) && NotRerun(records, arrivals, i, j)
    ensures Executed(records, arrivals, j)
            <==> arrivals[j].time - arrivals[i].time > 2000
                 || (InsertSlot(TableAt(records, arrivals, i)) == 0 && EvictsBetween(records, arrivals, i, j))
  {
    hide TableAt, InsertSlot, EvictsBetween, NotRerun, StaleExcept, Holds, IsNew;
    var slot, time := InsertSlot(TableAt(records, arrivals, i)), arrivals[j].time;
    if arrivals[j].time - arrivals[i].time <= 2000 && Retained(records, arrivals, i, j) {
      AtMostOnce(records, arrivals, i, j);
    } else {
      FreshRecordIsAlone(records, arrivals, i, time);
      OnlyOwnRecord(records, arrivals, i, j, time);
      TableIsPast(records, arrivals, j);
      var past := if j == 0 then 0 else arrivals[j - 1].time;
      if Retained(records, arrivals, i, j) {
        ExecutionLeavesRecord(records, arrivals, i, j);
        OldRecordIsStale(TableAt(records, arrivals, j), arrivals[j].key, time, slot, arrivals[i].time);
      }
      AllStaleIsNew(TableAt(records, arrivals, j), arrivals[j], past);
    }
  }

  lemma OldRecordIsStale(records: Table, key: CommandKey, time: nat, slot: nat, seen: U32)
    requires slot < 16 && StaleExcept(records, key, time, slot) && Holds(records[slot], key, seen)
    requires time - seen > DUPLICATE_WINDOW
    ensures StaleExcept(records, key, time, 16)
  {
  }

  lemma AllStaleIsNew(records: Table, a: Arrival, past: nat)
    requires RecordedBy(records, past) && past <= a.time < WORD && StaleExcept(records, a.key, a.time, 16)
    ensures IsNew(records, a)
  {
    NewMeansStale(records, a);
  }

  /** Right after an execution every other record of its key is stale, now and later. */
  lemma FreshRecordIsAlone(records: Table, arrivals: seq<Arrival>, i: nat, time: nat)
    requires Chronological(arrivals) && RecordedBy(records, 0) && i < |arrivals| && arrivals[i].time <= time
    requires forall k :: 0 <= k < |arrivals| ==> arrivals[k].time < WORD
    requires Executed(records, arrivals, i)
    ensures StaleExcept(TableAt(records, arrivals, i + 1), arrivals[i].key, time,
                        InsertSlot(TableAt(records, arrivals, i)))
  {
    var before, a := TableAt(records, arrivals, i), arrivals[i];
    var filed := Filed(before, a.key, Now(a), a.answer);
    TableIsPast(records, arrivals, i);
    NewMeansStale(before, a);
    forall k | 0 <= k < 16 && k != InsertSlot(before) ensures IsStaleAt(filed[k], a.key, time) {
      FiledSlots(before, a.key, Now(a), a.answer, k);
    }
  }

  // ---------------------------------------------------------------- the repeated acknowledgement

  /** No slot in front of the new record holds its key. */
  predicate KeyUnused(records: Table, key: CommandKey) { KeyRecord(records, key) >= InsertSlot(records) }

  lemma FiledStatus(records: Table, key: CommandKey, now: U32, answer: Status)
    ensures Filed(records, key, now, answer)[InsertSlot(records)].Some?
    ensures Filed(records, key, now, answer)[InsertSlot(records)].value.status
            == if KeyUnused(records, key) then answer else UNSUPPORTED
  {
    var slot := InsertSlot(records);
    var written := Record(records, key, now);
    assert written[slot] == Some(Duplicate(key, now, UNSUPPORTED));
    var first, prior := KeyRecord(written, key), KeyRecord(records, key);
    assert first <= slot;
    if prior < slot { assert written[prior] == records[prior]; }
    if first < slot { assert written[first] == records[first]; }
  }

  predicate HasStatus(record: Option<Duplicate>, key: CommandKey, seen: U32, status: Status) {
    Holds(record, key, seen) && record.value.status == status
  }

  lemma {:induction false} StatusSurvives(records: Table, arrivals: seq<Arrival>, i: nat, j: nat, slot: nat,
                                          status: Status)
    requires i < j <= |arrivals| && slot < 16 && NotRerun(records, arrivals, i, j)
    requires HasStatus(TableAt(records, arrivals, i + 1)[slot], arrivals[i].key, Now(arrivals[i]), status)
    requires slot != 0 || !EvictsBetween(records, arrivals, i, j)
    ensures HasStatus(TableAt(records, arrivals, j)[slot], arrivals[i].key, Now(arrivals[i]), status)
    decreases j
  {
    hide TableAt, Evicts, EarlierStatus, Filed;
    if j > i + 1 {
      StatusSurvives(records, arrivals, i, j - 1, slot, status);
      var before, a := TableAt(records, arrivals, j - 1), arrivals[j - 1];
      assert slot != 0 || !Evicts(before, a);
      StatusStep(before, a, slot, arrivals[i].key, Now(arrivals[i]), status);
      TableNext(records, arrivals, j - 1);
    }
  }

  lemma StatusStep(records: Table, a: Arrival, slot: nat, key: CommandKey, seen: U32, status: Status)
    requires slot < 16 && HasStatus(records[slot], key, seen, status) && (a.key == key ==> !IsNew(records, a))
    requires slot != 0 || !Evicts(records, a)
    ensures HasStatus(Process(records, a)[slot], key, seen, status)
  {
    hide Filed, EarlierStatus;
    if IsNew(records, a) { FiledSlots(records, a.key, Now(a), a.answer, slot); }
  }

  /** While the record is retained no copy inside the window is executed. */
  lemma RetainedMeansNotRerun(records: Table, arrivals: seq<Arrival>, i: nat, j: nat)
    requires Chronological(arrivals) && i < j < |arrivals| && Executed(records, arrivals, i)
    requires Retained(records, arrivals, i, j)
    requires arrivals[j].time - arrivals[i].time <= DUPLICATE_WINDOW
    ensures NotRerun(records, arrivals, i, j)
  {
    hide TableAt, Evicts, InsertSlot, EarlierStatus;
    forall k | i < k < j && arrivals[k].key == arrivals[i].key ensures !Executed(records, arrivals, k) {
      assert !EvictsBetween(records, arrivals, i, j) ==> !EvictsBetween(records, arrivals, i, k);
      AtMostOnce(records, arrivals, i, k);
    }
  }

  /** The record of command `i`, with the status it was filed with, at a later arrival. */
  lemma {:induction false} StatusAtCopy(records: Table, arrivals: seq<Arrival>, i: nat, j: nat)
    requires i < j <= |arrivals| && Executed(records, arrivals, i)
    requires Retained(records, arrivals, i, j) && NotRerun(records, arrivals, i, j)
    ensures var before, a := TableAt(records, arrivals, i), arrivals[i];
            HasStatus(TableAt(records, arrivals, j)[InsertSlot(before)], a.key, Now(a),
                      if KeyUnused(before, a.key) then a.answer else UNSUPPORTED)
  {
    hide Filed, KeyUnused, InsertSlot, EarlierStatus;
    var before, a := TableAt(records, arrivals, i), arrivals[i];
    FiledSlots(before, a.key, Now(a), a.answer, InsertSlot(before));
    FiledStatus(before, a.key, Now(a), a.answer);
    TableNext(records, arrivals, i);
    StatusSurvives(records, arrivals, i, j, InsertSlot(before),
                   if KeyUnused(before, a.key) then a.answer else UNSUPPORTED);
  }

  /** When one record alone is live, it decides the reply. */
  lemma OnlyLiveReplies(records: Table, a: Arrival, slot: nat)
    requires slot < 16 && IsLive(records[slot], a.key, Now(a))
    requires forall k :: 0 <= k < 16 && k != slot ==> !IsLive(records[k], a.key, Now(a))
    ensures EarlierStatus(records, a.key, Now(a)) == Some(records[slot].value.status)
  {
    assert LiveRecord(records, a.key, Now(a)) == slot;
  }

  lemma OwnRecordIsLive(records: Table, a: Arrival, past: nat, slot: nat, seen: nat)
    requires RecordedBy(records, past) && past <= a.time < WORD && StaleExcept(records, a.key, a.time, slot)
    requires slot < 16 && seen <= a.time && a.time - seen <= DUPLICATE_WINDOW
    requires Holds(records[slot], a.key, seen % WORD)
    ensures forall k :: 0 <= k < 16 ==> (IsLive(records[k], a.key, Now(a)) <==> k == slot)
  {
    forall k | 0 <= k < 16 ensures IsLive(records[k], a.key, Now(a)) <==> k == slot {
      LiveIsYoung(records, a, k);
      WrapSafeAge(a.time, seen);
    }
  }

  /** Every copy that arrives inside the window, before the clock wraps and while the record is
      retained, is acknowledged with the first copy's status if and only if the key was unused when it
      was recorded, or that status is UNSUPPORTED, the one a record starts with. */
  lemma {:induction false} RepeatCarriesFirstStatus(records: Table, arrivals: seq<Arrival>, i: nat, j: nat)
    requires Chronological(arrivals) && RecordedBy(records, 0)
    requires forall k :: 0 <= k < |arrivals| ==> arrivals[k].time < WORD
    requires i < j < |arrivals| && arrivals[j].key == arrivals[i].key && Executed(records, arrivals, i)
    requires arrivals[j].time - arrivals[i].time <= DUPLICATE_WINDOW && Retained(records, arrivals, i, j)
    ensures Reply(records, arrivals, j) == arrivals[i].answer
            <==> KeyUnused(TableAt(records, arrivals, i), arrivals[i].key) || arrivals[i].answer == UNSUPPORTED
  {
    hide TableAt, KeyUnused, InsertSlot, EarlierStatus, EvictsBetween, StaleExcept, Filed, IsLive;
    var before, after := TableAt(records, arrivals, i), TableAt(records, arrivals, j);
    var slot := InsertSlot(before);
    RetainedMeansNotRerun(records, arrivals, i, j);
    StatusAtCopy(records, arrivals, i, j);
    FreshRecordIsAlone(records, arrivals, i, arrivals[j].time);
    OnlyOwnRecord(records, arrivals, i, j, arrivals[j].time);
    TableIsPast(records, arrivals, j);
    OwnRecordIsLive(after, arrivals[j], arrivals[j - 1].time, slot, arrivals[i].time);
    OnlyLiveReplies(after, arrivals[j], slot);
  }

  // ---------------------------------------------------------------- in terms of the commands alone

  /** The table at start-up. */
  predicate Empty(records: Table) { forall k :: 0 <= k < 16 ==> records[k].None? }

  predicate FirstOfKey(arrivals: seq<Arrival>, i: nat)
    requires i < |arrivals|
  {
    forall k :: 0 <= k < i ==> arrivals[k].key != arrivals[i].key
  }

  predicate Known(arrivals: seq<Arrival>, k: nat, key: CommandKey)
    requires k <= |arrivals|
  {
    exists m :: 0 <= m < k && arrivals[m].key == key
  }

  predicate OnRecord(records: Table, key: CommandKey) {
    exists k :: 0 <= k < 16 && records[k].Some? && records[k].value.key == key
  }

  lemma ProcessAddsOwnKey(records: Table, a: Arrival, key: CommandKey)
    requires OnRecord(Process(records, a), key)
    ensures OnRecord(records, key) || a.key == key
  {
    hide Filed, EarlierStatus;
    var k :| 0 <= k < 16 && Process(records, a)[k].Some? && Process(records, a)[k].value.key == key;
    if IsNew(records, a) { FiledSlots(records, a.key, Now(a), a.answer, k); }
  }

  /** Only commands that have arrived are on record. */
  lemma {:induction false} RecordsComeFromArrivals(records: Table, arrivals: seq<Arrival>, k: nat, key: CommandKey)
    requires k <= |arrivals| && Empty(records) && OnRecord(TableAt(records, arrivals, k), key)
    ensures Known(arrivals, k, key)
  {
    hide Process;
    if k > 0 {
      ProcessAddsOwnKey(TableAt(records, arrivals, k - 1), arrivals[k - 1], key);
      if arrivals[k - 1].key != key { RecordsComeFromArrivals(records, arrivals, k - 1, key); }
    }
  }

  /** The first command of a key is executed. */
  lemma {:induction false} FirstIsExecuted(records: Table, arrivals: seq<Arrival>, i: nat)
    requires i < |arrivals| && Empty(records) && FirstOfKey(arrivals, i)
    ensures Executed(records, arrivals, i) && !OnRecord(TableAt(records, arrivals, i), arrivals[i].key)
  {
    hide TableAt;
    if OnRecord(TableAt(records, arrivals, i), arrivals[i].key) {
      RecordsComeFromArrivals(records, arrivals, i, arrivals[i].key);
    }
  }

  predicate NowhereElse(records: Table, key: CommandKey, slot: nat) {
    forall k :: 0 <= k < 16 && k != slot && records[k].Some? ==> records[k].value.key != key
  }

  lemma NowhereElseStep(records: Table, a: Arrival, key: CommandKey, slot: nat)
    requires NowhereElse(records, key, slot) && (a.key == key ==> !IsNew(records, a))
    ensures NowhereElse(Process(records, a), key, slot)
  {
    hide Filed, EarlierStatus;
    forall k | 0 <= k < 16 && k != slot && Process(records, a)[k].Some?
      ensures Process(records, a)[k].value.key != key
    {
      if IsNew(records, a) { FiledSlots(records, a.key, Now(a), a.answer, k); }
    }
  }

  lemma {:induction false} OneRecordOfKey(records: Table, arrivals: seq<Arrival>, i: nat, j: nat)
    requires i < j <= |arrivals| && Empty(records) && FirstOfKey(arrivals, i) && NotRerun(records, arrivals, i, j)
    ensures NowhereElse(TableAt(records, arrivals, j), arrivals[i].key, InsertSlot(TableAt(records, arrivals, i)))
    decreases j
  {
    hide TableAt, InsertSlot, EarlierStatus, Filed;
    var before, slot := TableAt(records, arrivals, i), InsertSlot(TableAt(records, arrivals, i));
    TableNext(records, arrivals, j - 1);
    if j > i + 1 {
      OneRecordOfKey(records, arrivals, i, j - 1);
      NowhereElseStep(TableAt(records, arrivals, j - 1), arrivals[j - 1], arrivals[i].key, slot);
    } else {
      FirstIsExecuted(records, arrivals, i);
      forall k | 0 <= k < 16 && k != slot && TableAt(records, arrivals, j)[k].Some?
        ensures TableAt(records, arrivals, j)[k].value.key != arrivals[i].key
      {
        FiledSlots(before, arrivals[i].key, Now(arrivals[i]), arrivals[i].answer, k);
      }
    }
  }

  /** The first command of a key is executed; each copy inside the window is not, while the record is
      retained, and is acknowledged with the status of the execution, across any wrap of the clock. */
  lemma FirstCommandAnswersCopies(records: Table, arrivals: seq<Arrival>, i: nat, j: nat)
    requires Empty(records) && Chronological(arrivals) && i < j < |arrivals| && FirstOfKey(arrivals, i)
    requires arrivals[j].key == arrivals[i].key && arrivals[j].time - arrivals[i].time <= DUPLICATE_WINDOW
    requires Retained(records, arrivals, i, j)
    ensures Executed(records, arrivals, i) && !Executed(records, arrivals, j)
    ensures Reply(records, arrivals, j) == arrivals[i].answer
  {
    hide TableAt, InsertSlot, EarlierStatus, Filed, EvictsBetween;
    var before, after := TableAt(records, arrivals, i), TableAt(records, arrivals, j);
    var slot := InsertSlot(before);
    FirstIsExecuted(records, arrivals, i);
    AtMostOnce(records, arrivals, i, j);
    RetainedMeansNotRerun(records, arrivals, i, j);
    StatusAtCopy(records, arrivals, i, j);
    OneRecordOfKey(records, arrivals, i, j);
    UnrecordedIsUnused(before, arrivals[i].key);
    WrapSafeAge(arrivals[j].time, arrivals[i].time);
    OnlyLiveReplies(after, arrivals[j], slot);
  }

  lemma UnrecordedIsUnused(records: Table, key: CommandKey)
    requires !OnRecord(records, key)
    ensures KeyUnused(records, key)
  {
  }

  /** A command that finds room leaves every record where it is. */
  lemma {:induction false} KnownStaysOnRecord(records: Table, a: Arrival, key: CommandKey)
    requires FreeSlot(records) < 16 || !IsNew(records, a)
    requires OnRecord(records, key) || a.key == key
    ensures OnRecord(Process(records, a), key)
  {
    hide Filed, EarlierStatus;
    if IsNew(records, a) {
      if a.key == key {
        FiledSlots(records, a.key, Now(a), a.answer, InsertSlot(records));
      } else {
        var k :| 0 <= k < 16 && records[k].Some? && records[k].value.key == key;
        FiledSlots(records, a.key, Now(a), a.answer, k);
      }
    } else if a.key == key {
      LiveIsOnRecord(records, a);
    }
  }

  lemma LiveIsOnRecord(records: Table, a: Arrival)
    requires !IsNew(records, a)
    ensures OnRecord(records, a.key)
  {
    assert IsLive(records[LiveRecord(records, a.key, Now(a))], a.key, Now(a));
  }

  /** While at most sixteen commands have been executed, a key is on record exactly if it has arrived. */
  lemma {:induction false} KnownIsOnRecord(records: Table, arrivals: seq<Arrival>, k: nat, key: CommandKey)
    requires k <= |arrivals| && Empty(records) && Insertions(records, arrivals, k) <= 16 && Known(arrivals, k, key)
    ensures OnRecord(TableAt(records, arrivals, k), key)
  {
    hide Process, EarlierStatus;
    var before := TableAt(records, arrivals, k - 1);
    EmptyIsPacked(records);
    TableFills(records, arrivals, k - 1);
    if Known(arrivals, k - 1, key) { KnownIsOnRecord(records, arrivals, k - 1, key); }
    KnownStaysOnRecord(before, arrivals[k - 1], key);
  }

  lemma {:induction false} EmptyIsPacked(records: Table)
    requires Empty(records)
    ensures FreeSlot(records) == 0 && Packed(records) && RecordedBy(records, 0)
  {
  }

  lemma {:induction false} UnusedMeansUnrecorded(records: Table, key: CommandKey)
    requires Packed(records) && FreeSlot(records) < 16
    ensures KeyUnused(records, key) <==> !OnRecord(records, key)
  {
    if OnRecord(records, key) {
      var k :| 0 <= k < 16 && records[k].Some? && records[k].value.key == key;
      assert KeyRecord(records, key) <= k < FreeSlot(records);
    }
  }

  /** The record of the command executed as number `e` is lost once `more` have been executed in all. */
  predicate LostByCount(e: nat, more: nat) { (e == 0 && more > 16) || (e >= 16 && more > e + 1) }

  lemma {:induction false} EvictionByCount(records: Table, arrivals: seq<Arrival>, i: nat, j: nat)
    requires i < j <= |arrivals| && Empty(records) && Executed(records, arrivals, i)
    ensures var e, more := Insertions(records, arrivals, i), Insertions(records, arrivals, j);
            EvictsBetween(records, arrivals, i, j) <==> more > e + 1 && more > 16
    decreases j
  {
    hide TableAt, EarlierStatus, Evicts, Packed;
    EmptyIsPacked(records);
    var k := j - 1;
    if k > i {
      EvictionByCount(records, arrivals, i, k);
      InsertionsGrow(records, arrivals, i + 1, k);
      TableFills(records, arrivals, k);
      var before := TableAt(records, arrivals, k);
      EvictsExactly(before, arrivals[k]);
      EvictsBetweenStep(records, arrivals, i, k);
    } else {
      assert !EvictsBetween(records, arrivals, i, j);
    }
  }

  lemma {:induction false} EvictsExactly(records: Table, a: Arrival)
    ensures Evicts(records, a) <==> IsNew(records, a) && FreeSlot(records) == 16
  {
  }

  lemma EvictsBetweenStep(records: Table, arrivals: seq<Arrival>, i: nat, k: nat)
    requires i < k < |arrivals|
    ensures EvictsBetween(records, arrivals, i, k + 1)
            <==> EvictsBetween(records, arrivals, i, k) || Evicts(TableAt(records, arrivals, k), arrivals[k])
  {
    hide TableAt, Evicts;
    if EvictsBetween(records, arrivals, i, k) {
      var m :| i < m < k && Evicts(TableAt(records, arrivals, m), arrivals[m]);
      assert EvictsBetween(records, arrivals, i, k + 1);
    }
    if Evicts(TableAt(records, arrivals, k), arrivals[k]) { assert EvictsBetween(records, arrivals, i, k + 1); }
  }

  /** Whether a record is retained is a matter of how many commands were executed before and since. */
  lemma {:induction false} RetainedByCount(records: Table, arrivals: seq<Arrival>, i: nat, j: nat)
    requires i < j <= |arrivals| && Empty(records) && Executed(records, arrivals, i)
    ensures Retained(records, arrivals, i, j)
            <==> !LostByCount(Insertions(records, arrivals, i), Insertions(records, arrivals, j))
  {
    hide TableAt, EarlierStatus, EvictsBetween, Packed;
    EmptyIsPacked(records);
    TableFills(records, arrivals, i);
    EvictionByCount(records, arrivals, i, j);
  }

  /** When the new record of a key is the only one in front: the table is full, or the key is new. */
  lemma {:induction false} UnusedByCount(records: Table, arrivals: seq<Arrival>, i: nat)
    requires Empty(records) && i < |arrivals|
    ensures KeyUnused(TableAt(records, arrivals, i), arrivals[i].key)
            <==> Insertions(records, arrivals, i) >= 16 || FirstOfKey(arrivals, i)
  {
    hide TableAt, KeyUnused, EarlierStatus, Packed, OnRecord;
    var before, key := TableAt(records, arrivals, i), arrivals[i].key;
    EmptyIsPacked(records);
    TableFills(records, arrivals, i);
    if Insertions(records, arrivals, i) >= 16 {
      FullTableTakesSlotZero(before, key);
    } else {
      UnusedMeansUnrecorded(before, key);
      if OnRecord(before, key) {
        RecordsComeFromArrivals(records, arrivals, i, key);
      } else if !FirstOfKey(arrivals, i) {
        assert Known(arrivals, i, key);
        KnownIsOnRecord(records, arrivals, i, key);
      }
    }
  }

  lemma {:induction false} FullTableTakesSlotZero(records: Table, key: CommandKey)
    requires FreeSlot(records) == 16
    ensures KeyUnused(records, key)
  {
  }

  /** From start-up, before the clock wraps and while its record is not lost: a copy inside the window is
      acknowledged with the status of the execution if and only if the execution found the table full,
      or the key had never been used before it, or the status is UNSUPPORTED. */
  lemma {:induction false} RepeatCarriesStatusIff(records: Table, arrivals: seq<Arrival>, i: nat, j: nat)
    requires Empty(records) && Chronological(arrivals) && forall k :: 0 <= k < |arrivals| ==> arrivals[k].time < WORD
    requires i < j < |arrivals| && arrivals[j].key == arrivals[i].key && Executed(records, arrivals, i)
    requires arrivals[j].time - arrivals[i].time <= DUPLICATE_WINDOW
    requires !LostByCount(Insertions(records, arrivals, i), Insertions(records, arrivals, j))
    ensures Reply(records, arrivals, j) == arrivals[i].answer
            <==> Insertions(records, arrivals, i) >= 16 || FirstOfKey(arrivals, i) || arrivals[i].answer == UNSUPPORTED
  {
    hide TableAt, KeyUnused, InsertSlot, EarlierStatus, EvictsBetween, Packed, RecordedBy, Reply, IsNew, FirstOfKey;
    EmptyIsPacked(records);
    RetainedByCount(records, arrivals, i, j);
    RepeatCarriesFirstStatus(records, arrivals, i, j);
    UnusedByCount(records, arrivals, i);
  }

  /** From start-up and before the clock wraps: the first copy after an execution runs again if and only if
      it comes more than two seconds later, or the execution was the very first one and more than
      sixteen have happened in all, or it found the table full and another one has happened since. */
  lemma {:induction false} RepeatRunsAgainByCount(records: Table, arrivals: seq<Arrival>, i: nat, j: nat)
    requires Empty(records) && Chronological(arrivals) && forall k :: 0 <= k < |arrivals| ==> arrivals[k].time < WORD
    requires i < j < |arrivals| && arrivals[j].key == arrivals[i].key
    requires Executed(records, arrivals, i) && NotRerun(records, arrivals, i, j)
    ensures Executed(records, arrivals, j)
            <==> arrivals[j].time - arrivals[i].time > 2000
                 || LostByCount(Insertions(records, arrivals, i), Insertions(records, arrivals, j))
  {
    hide TableAt, EarlierStatus, EvictsBetween, RecordedBy, NotRerun;
    EmptyIsPacked(records);
    RepeatRunsAgainExactly(records, arrivals, i, j);
    RetainedByCount(records, arrivals, i, j);
  }

  /** A key reused after its window: the handler runs and answers ACCEPTED, but the status goes to
      the stale record, and a copy one millisecond later is acknowledged as UNSUPPORTED. */
  lemma StaleRecordTakesStatus()
    ensures var key := CommandKey(2, 3, 0x42, COMMAND);
            var arrivals := [Arrival(key, 0, ACCEPTED), Arrival(key, 3000, ACCEPTED), Arrival(key, 3001, ACCEPTED)];
            var empty: Table := seq(16, _ => None);
            && Executed(empty, arrivals, 1) && !Executed(empty, arrivals, 2)
            && Reply(empty, arrivals, 2) == UNSUPPORTED
  {
    var key := CommandKey(2, 3, 0x42, COMMAND);
    var arrivals := [Arrival(key, 0, ACCEPTED), Arrival(key, 3000, ACCEPTED), Arrival(key, 3001, ACCEPTED)];
    var empty: Table := seq(16, _ => None);
    var one: Table := empty[0 := Some(Duplicate(key, 0, ACCEPTED))];
    var two: Table := one[1 := Some(Duplicate(key, 3000, UNSUPPORTED))];
    assert TableAt(empty, arrivals, 0) == empty;
    assert Process(empty, arrivals[0]) == one;
    assert TableAt(empty, arrivals, 1) == one;
    assert LiveRecord(one, key, 3000) == 16;
    assert FreeSlot(one) == 1;
    assert Process(one, arrivals[1]) == two;
    assert TableAt(empty, arrivals, 2) == two;
    assert LiveRecord(two, key, 3001) == 1;
  }
}
