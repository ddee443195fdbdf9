/** The per-kind validators of fixed-format payloads. */
module WirePayloads {
  import opened Types
  import opened CanIdentifiers
  import opened TypedValues

  datatype FrameValidationError = NoError | InvalidPriority | InvalidAddressing | InvalidPayload

  /** A registered kind: the tag of a payload variant. */
  type PayloadKind = k: Kind | k <= ENTITY_RESOLVE

  datatype WirePayload = WirePayload(kind: PayloadKind, bytes: Bytes8)

  predicate IsEndpoint(b: Byte) { 0 < b < 0xFF }

  predicate IsStatus(b: Byte) { b <= 7 }

  predicate IsKind(b: Byte) { b <= 0x15 }

  predicate IsNonzeroU32(b: Bytes8, offset: nat)
    requires offset <= 4
  {
    b[offset] != 0 || b[offset + 1] != 0 || b[offset + 2] != 0 || b[offset + 3] != 0
  }

  predicate ValidTypedValue(b: Bytes8, typeOffset: nat, valueOffset: nat)
    requires typeOffset < 8 && valueOffset <= 4
  {
    Validate(TypedValue(b[typeOffset], b[valueOffset..valueOffset + 4])) == ValueError.NoError
  }

  /** The slot is copied byte by byte before it is validated. */
  method CheckTypedValue(b: Bytes8, typeOffset: nat, valueOffset: nat) returns (ok: bool)
    requires typeOffset < 8 && valueOffset <= 4
    ensures ok == ValidTypedValue(b, typeOffset, valueOffset)
  {
    var value := new Byte[4](_ => 0);
    for index := 0 to 4
      invariant value[..index] == b[valueOffset..valueOffset + index]
    {
      value[index] := b[valueOffset + index];
    }
    assert value[..] == b[valueOffset..valueOffset + 4];
    var error := ValidateValue(TypedValue(b[typeOffset], value[..]));
    ok := error == ValueError.NoError;
  }

  function PriorityOf(kind: PayloadKind): Priority {
    if kind == PROTOCOL_ERROR || kind == ADDRESS_CONFLICT || kind == COMMAND || kind == ACK then CONTROL
    else if kind == EVENT then EVENT_CLASS
    else if STATE <= kind <= RESPONSE then STATE_QUERY
    else if kind == DIAGNOSTIC_REQUEST || kind == DIAGNOSTIC_RESPONSE then DIAGNOSTIC
    else MANAGEMENT
  }

  /** Kinds that must name one destination node. */
  predicate IsDirected(kind: PayloadKind) {
    || kind == PROTOCOL_ERROR || kind == ADDRESS_CONFLICT || kind == COMMAND || kind == REQUEST
    || kind == RESPONSE || kind == ACK || kind == CONFIG_GET || kind == CONFIG_SET || kind == CONFIG_VALUE
    || kind == DIAGNOSTIC_REQUEST || kind == DIAGNOSTIC_RESPONSE
  }

  predicate ValidIdentifier(kind: PayloadKind, id: CanIdentifier) {
    var broadcast := id.destination == BROADCAST;
    if id.priority != PriorityOf(kind) then false
    else if id.source == BROADCAST then false
    else if kind == DISCOVERY_RESPONSE then !broadcast
    else if id.destination == UNASSIGNED then false
    else if kind == DISCOVERY_REQUEST then broadcast
    else if id.source == UNASSIGNED then false
    else if IsDirected(kind) then !broadcast
    else if kind == STATE || kind == EVENT then true
    else broadcast
  }

  /** The address field of ADDRESS_ASSIGN: eight low bits and the bottom bit of byte 7. */
  function AssignedAddress(b: Bytes8): NodeAddress { b[6] as int + 0x100 * (b[7] % 2) as int }

  /** Masks of high bits are written as bounds, single bits as remainders. */
  predicate ValidBytes(kind: PayloadKind, b: Bytes8) {
    if kind == PROTOCOL_ERROR then IsKind(b[2]) && IsStatus(b[3])
    else if kind == ANNOUNCE then b[1] == 1 && b[3] < 0x20 && IsNonzeroU32(b, 4)
    else if kind == HEARTBEAT then
      b[1] < 0x20 && IsNonzeroU32(b, 2) && (b[6] <= 100 || b[6] == 0xFF) && b[7] == 0
    else if kind == DISCOVERY_REQUEST then b[1] < 8 && 1000 <= U16At(b, 2) <= 10000
    else if kind == DISCOVERY_RESPONSE then true
    else if kind == ADDRESS_CLAIM then b[6] == 1
    else if kind == ADDRESS_ASSIGN then
      0 < AssignedAddress(b) < BROADCAST && b[7] < 4 && b[7] / 2 % 2 != 0
    else if kind == ADDRESS_CONFLICT then b[6] == 1
    else if kind == STATE then IsEndpoint(b[1]) && b[3] < 0x20 && ValidTypedValue(b, 2, 4)
    else if kind == EVENT || kind == COMMAND then IsEndpoint(b[1]) && b[3] < 4 && ValidTypedValue(b, 2, 4)
    else if kind == REQUEST then
      if b[2] < 1 || b[2] > 3 || b[4] != 0 || b[5] != 0 || b[6] != 0 || b[7] != 0 then false
      else
        || (b[2] == 1 && (IsEndpoint(b[1]) || b[1] == 0xFF))
        || (b[2] == 2 && b[1] == 0)
        || (b[2] == 3 && IsEndpoint(b[1]))
    else if kind == RESPONSE then IsStatus(b[3])
    else if kind == ACK then IsKind(b[2]) && IsStatus(b[3])
    else if kind == CONFIG_GET then
      b[1] != 0xFF && b[3] == 0 && b[4] == 0 && b[5] == 0 && b[6] == 0 && b[7] == 0
    else if kind == CONFIG_SET || kind == CONFIG_VALUE then b[1] != 0xFF && ValidTypedValue(b, 3, 4)
    else if kind == DIAGNOSTIC_REQUEST then b[1] != 0xFF && b[4] == 0 && b[5] == 0 && b[6] == 0 && b[7] == 0
    else if kind == DIAGNOSTIC_RESPONSE then b[1] != 0xFF && IsStatus(b[4])
    else if kind == TIME_SYNC then b[1] <= 3 && U16At(b, 6) < 1000
    else if kind == ENTITY_CLAIM then IsEndpoint(b[1]) && IsNonzeroU32(b, 2) && b[6] == 0 && b[7] == 0
    else b[1] == 0 && IsNonzeroU32(b, 2) && 1000 <= U16At(b, 6) <= 10000
  }

  function ValidatePayload(p: WirePayload, id: CanIdentifier): FrameValidationError {
    if id.kind != p.kind then InvalidPayload
    else if id.priority != PriorityOf(p.kind) then InvalidPriority
    else if !ValidIdentifier(p.kind, id) then InvalidAddressing
    else if ValidBytes(p.kind, p.bytes) then FrameValidationError.NoError
    else InvalidPayload
  }
}
