/** The typed payload constructors, and their agreement with the wire validators. */
module Payloads {
  import opened Wrappers
  import opened Types
  import opened TypedValues
  import opened WirePayloads

  /** STATE, EVENT and COMMAND share one layout; their last small field is a quality or flags. */
  datatype ValuePayload = ValuePayload(sequence: Byte, endpoint: EndpointId, value: TypedValue, flags: Byte)

  datatype EntityClaimPayload = EntityClaimPayload(sequence: Byte, endpoint: EndpointId, entity: EntityId)

  datatype EntityResolvePayload = EntityResolvePayload(transaction: Byte, entity: EntityId, windowMs: U16)

  datatype HeartbeatPayload = HeartbeatPayload(sequence: Byte, condition: Byte, bootToken: U32, txQueueLoad: Byte)

  predicate ValidEndpoint(endpoint: EndpointId) { endpoint != 0 && endpoint != 0xFF }

  function CreateState(sequence: Byte, endpoint: EndpointId, value: TypedValue, quality: Byte): Option<ValuePayload> {
    if !ValidEndpoint(endpoint) || Validate(value) != ValueError.NoError || quality >= 0x20 then None
    else Some(ValuePayload(sequence, endpoint, value, quality))
  }

  function CreateEvent(sequence: Byte, endpoint: EndpointId, value: TypedValue, flags: Byte): Option<ValuePayload> {
    if !ValidEndpoint(endpoint) || Validate(value) != ValueError.NoError || flags >= 4 then None
    else Some(ValuePayload(sequence, endpoint, value, flags))
  }

  function CreateCommand(transaction: Byte, endpoint: EndpointId, value: TypedValue,
                         flags: Byte): Option<ValuePayload> {
    if !ValidEndpoint(endpoint) || Validate(value) != ValueError.NoError || flags >= 4 then None
    else Some(ValuePayload(transaction, endpoint, value, flags))
  }

  function CreateEntityClaim(sequence: Byte, endpoint: EndpointId, entity: EntityId): Option<EntityClaimPayload> {
    if endpoint == 0 || endpoint == 0xFF || entity == 0 then None
    else Some(EntityClaimPayload(sequence, endpoint, entity))
  }

  function CreateEntityResolve(transaction: Byte, entity: EntityId, windowMs: U16): Option<EntityResolvePayload> {
    if entity == 0 || windowMs < 1000 || windowMs > 10000 then None
    else Some(EntityResolvePayload(transaction, entity, windowMs))
  }

  function CreateHeartbeat(sequence: Byte, condition: Byte, bootToken: U32,
                           txQueueLoad: Byte): Option<HeartbeatPayload> {
    if bootToken == 0 || condition >= 0x20 || (txQueueLoad > 100 && txQueueLoad != 0xFF) then None
    else Some(HeartbeatPayload(sequence, condition, bootToken, txQueueLoad))
  }

  function EncodeValue(p: ValuePayload): Bytes8 {
    [p.sequence, p.endpoint, p.value.kind, p.flags] + p.value.bytes
  }

  function EncodeEntityClaim(p: EntityClaimPayload): Bytes8 {
    [p.sequence, p.endpoint, ByteOf(p.entity, 0), ByteOf(p.entity, 1), ByteOf(p.entity, 2), ByteOf(p.entity, 3), 0, 0]
  }

  function EncodeEntityResolve(p: EntityResolvePayload): Bytes8 {
    [p.transaction, 0, ByteOf(p.entity, 0), ByteOf(p.entity, 1), ByteOf(p.entity, 2), ByteOf(p.entity, 3),
     p.windowMs % 0x100, p.windowMs / 0x100]
  }

  function EncodeHeartbeat(p: HeartbeatPayload): Bytes8 {
    [p.sequence, p.condition, ByteOf(p.bootToken, 0), ByteOf(p.bootToken, 1), ByteOf(p.bootToken, 2),
     ByteOf(p.bootToken, 3), p.txQueueLoad, 0]
  }

  /** The slot is written in place behind the header bytes. */
  method WriteValuePayload(p: ValuePayload) returns (bytes: Bytes8)
    ensures bytes == EncodeValue(p)
  {
    var buffer := new Byte[8](_ => 0);
    buffer[0], buffer[1], buffer[3] := p.sequence, p.endpoint, p.flags;
    buffer[2] := p.value.kind;
    for index := 0 to 4
      invariant buffer[..4] == [p.sequence, p.endpoint, p.value.kind, p.flags]
      invariant buffer[4..4 + index] == p.value.bytes[..index]
    {
      buffer[4 + index] := p.value.bytes[index];
    }
    assert buffer[4..8] == p.value.bytes;
    bytes := buffer[..];
  }

  method WriteU32LittleEndian(buffer: array<Byte>, offset: nat, value: U32)
    requires offset + 4 <= buffer.Length
    modifies buffer
    ensures buffer[..] == old(buffer[..offset])
            + [ByteOf(value, 0), ByteOf(value, 1), ByteOf(value, 2), ByteOf(value, 3)]
                          + old(buffer[offset + 4..])
  {
    buffer[offset] := value % 0x100;
    buffer[offset + 1] := value / 0x100 % 0x100;
    buffer[offset + 2] := value / 0x1_0000 % 0x100;
    buffer[offset + 3] := value / 0x100_0000;
  }

  method WriteEntityClaim(p: EntityClaimPayload) returns (bytes: Bytes8)
    ensures bytes == EncodeEntityClaim(p)
  {
    var buffer := new Byte[8](_ => 0);
    buffer[0], buffer[1] := p.sequence, p.endpoint;
    WriteU32LittleEndian(buffer, 2, p.entity);
    bytes := buffer[..];
  }

  method WriteEntityResolve(p: EntityResolvePayload) returns (bytes: Bytes8)
    ensures bytes == EncodeEntityResolve(p)
  {
    var buffer := new Byte[8](_ => 0);
    buffer[0] := p.transaction;
    WriteU32LittleEndian(buffer, 2, p.entity);
    buffer[6], buffer[7] := p.windowMs % 0x100, p.windowMs / 0x100;
    bytes := buffer[..];
  }

  /** The fields of a value payload, read back from the wire. */
  function ParseValue(b: Bytes8): ValuePayload {
    ValuePayload(b[0], b[1], TypedValue(b[2], b[4..8]), b[3])
  }

  lemma ValueRoundTrip(p: ValuePayload, b: Bytes8)
    ensures EncodeValue(p) == b <==> p == ParseValue(b)
  {
    assert EncodeValue(p)[4..8] == p.value.bytes;
    if p == ParseValue(b) { assert EncodeValue(p) == b; }
  }

  lemma ValueFields(p: ValuePayload)
    ensures var e := EncodeValue(p);
            e[0] == p.sequence && e[1] == p.endpoint && TypedValue(e[2], e[4..8]) == p.value && e[3] == p.flags
  {
    assert EncodeValue(p)[4..8] == p.value.bytes;
  }

  /** The bytes the validator accepts are exactly the encodings of what `create` builds, each from
      one argument list only. */
  lemma StateLanguage(sequence: Byte, endpoint: EndpointId, value: TypedValue, quality: Byte, b: Bytes8)
    ensures var p := ValuePayload(sequence, endpoint, value, quality);
            && (CreateState(sequence, endpoint, value, quality) == Some(p) <==> ValidBytes(STATE, EncodeValue(p)))
            && (EncodeValue(p) == b <==> p == ParseValue(b))
    ensures var q := ParseValue(b);
            ValidBytes(STATE, b) <==> CreateState(q.sequence, q.endpoint, q.value, q.flags) == Some(q)
  {
    hide EncodeValue, Validate;
    var p := ValuePayload(sequence, endpoint, value, quality);
    ValueFields(p);
    ValueRoundTrip(p, b);
  }

  lemma EventLanguage(sequence: Byte, endpoint: EndpointId, value: TypedValue, flags: Byte, b: Bytes8)
    ensures var p := ValuePayload(sequence, endpoint, value, flags);
            && (CreateEvent(sequence, endpoint, value, flags) == Some(p) <==> ValidBytes(EVENT, EncodeValue(p)))
            && (EncodeValue(p) == b <==> p == ParseValue(b))
    ensures var q := ParseValue(b);
            ValidBytes(EVENT, b) <==> CreateEvent(q.sequence, q.endpoint, q.value, q.flags) == Some(q)
  {
    hide EncodeValue, Validate;
    var p := ValuePayload(sequence, endpoint, value, flags);
    ValueFields(p);
    ValueRoundTrip(p, b);
  }

  lemma CommandLanguage(transaction: Byte, endpoint: EndpointId, value: TypedValue, flags: Byte, b: Bytes8)
    ensures var p := ValuePayload(transaction, endpoint, value, flags);
            && (CreateCommand(transaction, endpoint, value, flags) == Some(p) <==> ValidBytes(COMMAND, EncodeValue(p)))
            && (EncodeValue(p) == b <==> p == ParseValue(b))
    ensures var q := ParseValue(b);
            ValidBytes(COMMAND, b) <==> CreateCommand(q.sequence, q.endpoint, q.value, q.flags) == Some(q)
  {
    hide EncodeValue, Validate;
    var p := ValuePayload(transaction, endpoint, value, flags);
    ValueFields(p);
    ValueRoundTrip(p, b);
  }

  function ParseEntityClaim(b: Bytes8): EntityClaimPayload { EntityClaimPayload(b[0], b[1], U32At(b, 2)) }

  lemma EntityClaimAccepted(p: EntityClaimPayload)
    ensures CreateEntityClaim(p.sequence, p.endpoint, p.entity) == Some(p)
            <==> ValidBytes(ENTITY_CLAIM, EncodeEntityClaim(p))
  {
    hide ByteOf;
    NonzeroBytes(p.entity);
  }

  lemma EntityClaimParsed(p: EntityClaimPayload)
    ensures ParseEntityClaim(EncodeEntityClaim(p)) == p
  {
    hide ByteOf, Word;
    WordOfBytes(p.entity);
  }

  lemma EntityClaimLanguage(p: EntityClaimPayload, b: Bytes8)
    ensures CreateEntityClaim(p.sequence, p.endpoint, p.entity) == Some(p)
            <==> ValidBytes(ENTITY_CLAIM, EncodeEntityClaim(p))
    ensures ParseEntityClaim(EncodeEntityClaim(p)) == p
    ensures ValidBytes(ENTITY_CLAIM, b) ==> EncodeEntityClaim(ParseEntityClaim(b)) == b
  {
    hide ByteOf, Word, EncodeEntityClaim, ParseEntityClaim;
    EntityClaimAccepted(p);
    EntityClaimParsed(p);
    EntityClaimReencoded(b);
  }

  lemma EntityClaimReencoded(b: Bytes8)
    ensures ValidBytes(ENTITY_CLAIM, b) ==> EncodeEntityClaim(ParseEntityClaim(b)) == b
  {
    hide ByteOf, Word;
    BytesOfWord(b[2], b[3], b[4], b[5]);
  }

  function ParseEntityResolve(b: Bytes8): EntityResolvePayload { EntityResolvePayload(b[0], U32At(b, 2), U16At(b, 6)) }

  lemma EntityResolveAccepted(p: EntityResolvePayload)
    ensures CreateEntityResolve(p.transaction, p.entity, p.windowMs) == Some(p)
            <==> ValidBytes(ENTITY_RESOLVE, EncodeEntityResolve(p))
  {
    hide ByteOf;
    NonzeroBytes(p.entity);
    HalfOfBytes(p.windowMs);
    WindowWritten(p);
  }

  lemma WindowWritten(p: EntityResolvePayload)
    ensures U16At(EncodeEntityResolve(p), 6) == p.windowMs
  {
    hide ByteOf;
    HalfOfBytes(p.windowMs);
  }

  lemma EntityResolveParsed(p: EntityResolvePayload)
    ensures ParseEntityResolve(EncodeEntityResolve(p)) == p
  {
    hide ByteOf, Word, U16At;
    WordOfBytes(p.entity);
    WindowWritten(p);
  }

  lemma EntityResolveReencoded(b: Bytes8)
    ensures ValidBytes(ENTITY_RESOLVE, b) ==> EncodeEntityResolve(ParseEntityResolve(b)) == b
  {
    hide ByteOf, Word;
    BytesOfWord(b[2], b[3], b[4], b[5]);
    BytesOfHalf(b[6], b[7]);
  }

  lemma EntityResolveLanguage(p: EntityResolvePayload, b: Bytes8)
    ensures CreateEntityResolve(p.transaction, p.entity, p.windowMs) == Some(p)
            <==> ValidBytes(ENTITY_RESOLVE, EncodeEntityResolve(p))
    ensures ParseEntityResolve(EncodeEntityResolve(p)) == p
    ensures ValidBytes(ENTITY_RESOLVE, b) ==> EncodeEntityResolve(ParseEntityResolve(b)) == b
  {
    hide EncodeEntityResolve, ParseEntityResolve;
    EntityResolveAccepted(p);
    EntityResolveParsed(p);
    EntityResolveReencoded(b);
  }

  function ParseHeartbeat(b: Bytes8): HeartbeatPayload { HeartbeatPayload(b[0], b[1], U32At(b, 2), b[6]) }

  lemma HeartbeatAccepted(p: HeartbeatPayload)
    ensures CreateHeartbeat(p.sequence, p.condition, p.bootToken, p.txQueueLoad) == Some(p)
            <==> ValidBytes(HEARTBEAT, EncodeHeartbeat(p))
  {
    hide ByteOf;
    NonzeroBytes(p.bootToken);
  }

  lemma HeartbeatParsed(p: HeartbeatPayload)
    ensures ParseHeartbeat(EncodeHeartbeat(p)) == p
  {
    hide ByteOf, Word;
    WordOfBytes(p.bootToken);
  }

  lemma HeartbeatReencoded(b: Bytes8)
    ensures ValidBytes(HEARTBEAT, b) ==> EncodeHeartbeat(ParseHeartbeat(b)) == b
  {
    hide ByteOf, Word;
    BytesOfWord(b[2], b[3], b[4], b[5]);
  }

  lemma HeartbeatLanguage(p: HeartbeatPayload, b: Bytes8)
    ensures CreateHeartbeat(p.sequence, p.condition, p.bootToken, p.txQueueLoad) == Some(p)
            <==> ValidBytes(HEARTBEAT, EncodeHeartbeat(p))
    ensures ParseHeartbeat(EncodeHeartbeat(p)) == p
    ensures ValidBytes(HEARTBEAT, b) ==> EncodeHeartbeat(ParseHeartbeat(b)) == b
  {
    hide EncodeHeartbeat, ParseHeartbeat;
    HeartbeatAccepted(p);
    HeartbeatParsed(p);
    HeartbeatReencoded(b);
  }
}
