/** The byte-level boundary: raw CAN frames against validated protocol frames. */
module FrameCodec {
  import opened Wrappers
  import opened Types
  import opened CanIdentifiers
  import opened WirePayloads

  datatype RawCanFrame = RawCanFrame(canId: U32, extended: bool, dlc: Byte, data: Bytes8)

  /** The payload's tag need not match the identifier's kind; encoding refuses such a frame. */
  datatype ProtocolFrame = ProtocolFrame(identifier: CanIdentifier, payload: WirePayload)

  datatype DecodeError =
    NotExtended | InvalidDlc | InvalidIdentifier | UnknownKind | InvalidPriority | InvalidAddressing | InvalidPayload

  datatype EncodeError = InvalidFrame

  predicate KnownKind(kind: Kind) { kind <= ENTITY_RESOLVE }

  function DecodePayload(id: CanIdentifier, bytes: Bytes8): Result<ProtocolFrame, DecodeError>
    requires KnownKind(id.kind)
  {
    var payload := WirePayload(id.kind, bytes);
    match ValidatePayload(payload, id)
    case InvalidPriority => Failure(DecodeError.InvalidPriority)
    case InvalidAddressing => Failure(DecodeError.InvalidAddressing)
    case InvalidPayload => Failure(DecodeError.InvalidPayload)
    case NoError => Success(ProtocolFrame(id, payload))
  }

  function Decode(raw: RawCanFrame): Result<ProtocolFrame, DecodeError> {
    if !raw.extended then Failure(NotExtended)
    else if raw.dlc != 8 then Failure(InvalidDlc)
    else
      match FromRaw(raw.canId)
      case None => Failure(InvalidIdentifier)
      case Some(id) => if !KnownKind(id.kind) then Failure(UnknownKind) else DecodePayload(id, raw.data)
  }

  function Encode(frame: ProtocolFrame): Result<RawCanFrame, EncodeError> {
    if ValidatePayload(frame.payload, frame.identifier) != FrameValidationError.NoError then Failure(InvalidFrame)
    else Success(RawCanFrame(ToRaw(frame.identifier), true, 8, frame.payload.bytes))
  }

  /** A frame that can cross the codec in either direction. */
  predicate ValidFrame(frame: ProtocolFrame) {
    && frame.identifier.kind == frame.payload.kind
    && ValidIdentifier(frame.payload.kind, frame.identifier)
    && ValidBytes(frame.payload.kind, frame.payload.bytes)
  }

  /** Decoding is inverted by encoding, bit for bit. */
  lemma EncodeDecoded(raw: RawCanFrame)
    requires Decode(raw).Success?
    ensures Encode(Decode(raw).value) == Success(raw)
    ensures ValidFrame(Decode(raw).value)
  {
    PackUnpacked(raw.canId);
  }

  /** Encoding is inverted by decoding, and succeeds exactly on valid frames. */
  lemma DecodeEncoded(frame: ProtocolFrame)
    ensures Encode(frame).Success? <==> ValidFrame(frame)
    ensures Encode(frame).Success? ==> Decode(Encode(frame).value) == Success(frame)
  {
    UnpackPacked(frame.identifier);
  }

  /** The two maps are mutually inverse partial bijections over all 22 kinds. */
  lemma CodecIsBijection(raw: RawCanFrame, frame: ProtocolFrame)
    ensures Decode(raw) == Success(frame) <==> Encode(frame) == Success(raw)
  {
    if Decode(raw) == Success(frame) { EncodeDecoded(raw); }
    if Encode(frame) == Success(raw) { DecodeEncoded(frame); }
  }

  /** Every encodable frame belongs to one of the five queued classes, shown in its top bits. */
  lemma EncodedClass(frame: ProtocolFrame)
    requires Encode(frame).Success?
    ensures CONTROL <= frame.identifier.priority <= DIAGNOSTIC
    ensures Encode(frame).value.canId / 0x400_0000 == frame.identifier.priority
  {
    ClassIsTopBits(frame.identifier);
  }
}
