/** The wire format as a reference: the registry of kinds, and the messages each kind can carry. The
    codec accepts exactly what the registry admits, and names the first thing wrong with the rest. */
module WireFormats {
  import opened Wrappers
  import opened Types
  import opened CanIdentifiers
  import opened TypedValues
  import opened WirePayloads
  import opened FrameCodec

  // ---------------------------------------------------------------- the registry

  /** Between whom a kind travels. */
  datatype Reach =
    | ToNode              // from a node to one node
    | ToAll               // from a node to all
    | ToNodeOrAll
    | Discovering         // from anyone, with or without an address, to all
    | Discovered          // from anyone to one node, or to the requester without an address

  datatype Entry = Entry(priority: Priority, reach: Reach)

  /** The message kind registry, in the order of the kind codes. */
  const REGISTRY: seq<Entry> := [
    Entry(1, ToNode),        // 0x00 PROTOCOL_ERROR
    Entry(4, ToAll),         // 0x01 ANNOUNCE
    Entry(4, ToAll),         // 0x02 HEARTBEAT
    Entry(4, Discovering),   // 0x03 DISCOVERY_REQUEST
    Entry(4, Discovered),    // 0x04 DISCOVERY_RESPONSE
    Entry(4, ToAll),         // 0x05 ADDRESS_CLAIM
    Entry(4, ToAll),         // 0x06 ADDRESS_ASSIGN
    Entry(1, ToNode),        // 0x07 ADDRESS_CONFLICT
    Entry(3, ToNodeOrAll),   // 0x08 STATE
    Entry(2, ToNodeOrAll),   // 0x09 EVENT
    Entry(1, ToNode),        // 0x0A COMMAND
    Entry(3, ToNode),        // 0x0B REQUEST
    Entry(3, ToNode),        // 0x0C RESPONSE
    Entry(1, ToNode),        // 0x0D ACK
    Entry(4, ToNode),        // 0x0E CONFIG_GET
    Entry(4, ToNode),        // 0x0F CONFIG_SET
    Entry(4, ToNode),        // 0x10 CONFIG_VALUE
    Entry(5, ToNode),        // 0x11 DIAGNOSTIC_REQUEST
    Entry(5, ToNode),        // 0x12 DIAGNOSTIC_RESPONSE
    Entry(4, ToAll),         // 0x13 TIME_SYNC
    Entry(4, ToAll),         // 0x14 ENTITY_CLAIM
    Entry(4, ToAll)]         // 0x15 ENTITY_RESOLVE

  function EntryOf(kind: PayloadKind): Entry {
    assert |REGISTRY| == 0x16;
    REGISTRY[kind]
  }

  predicate OneNode(a: NodeAddress) { 0 < a < 0x1FF }

  predicate Travels(reach: Reach, source: NodeAddress, destination: NodeAddress) {
    match reach
    case ToNode => OneNode(source) && OneNode(destination)
    case ToAll => OneNode(source) && destination == 0x1FF
    case ToNodeOrAll => OneNode(source) && (OneNode(destination) || destination == 0x1FF)
    case Discovering => source != 0x1FF && destination == 0x1FF
    case Discovered => source != 0x1FF && destination != 0x1FF
  }

  lemma PriorityIsRegistered(kind: PayloadKind)
    ensures PriorityOf(kind) == EntryOf(kind).priority
  {
  }

  lemma AddressingIsRegistered(kind: PayloadKind, id: CanIdentifier)
    ensures ValidIdentifier(kind, id)
            <==> id.priority == EntryOf(kind).priority && Travels(EntryOf(kind).reach, id.source, id.destination)
  {
    PriorityIsRegistered(kind);
  }

  // ---------------------------------------------------------------- messages

  type Endpoint = x: Byte | 0 < x < 0xFF witness 1
  type Interface = x: Byte | x < 0xFF
  type Token = x: U32 | x != 0 witness 1
  type Window = x: U16 | 1000 <= x <= 10000 witness 1000
  type Flags2 = x: Byte | x < 4
  type Flags3 = x: Byte | x < 8
  type Flags5 = x: Byte | x < 32
  type Load = x: Byte | x <= 100 || x == 0xFF
  type OneAddress = x: NodeAddress | OneNode(x) witness 1
  type Milliseconds = x: U16 | x < 1000
  type Bytes2 = s: seq<Byte> | |s| == 2 witness [0, 0]
  type Bytes3 = s: seq<Byte> | |s| == 3 witness [0, 0, 0]
  type Value = v: TypedValue | Validate(v) == ValueError.NoError witness TypedValue(NULL, [0, 0, 0, 0])

  type EndpointOrAll = x: Byte | x != 0 witness 1

  datatype Operation = GetState(target: EndpointOrAll) | GetNodeInfo | GetEndpointInfo(endpoint: Endpoint)

  /** What the payloads say, field by field. */
  datatype Message =
    | ProtocolError(sequence: Byte, related: Byte, kind: PayloadKind, status: Status, detail: Bytes4)
    | Announce(sequence: Byte, minor: Byte, capabilities: Flags5, bootToken: Token)
    | Heartbeat(sequence: Byte, condition: Flags5, bootToken: Token, load: Load)
    | DiscoveryRequest(transaction: Byte, filter: Flags3, window: Window, challenge: Bytes4)
    | DiscoveryResponse(transaction: Byte, uid: Uid, offered: Byte)
    | AddressClaim(uid: Uid, nonce: Byte)
    | AddressAssign(uid: Uid, address: OneAddress)
    | AddressConflict(uid: Uid, sequence: Byte)
    | State(sequence: Byte, endpoint: Endpoint, quality: Flags5, value: Value)
    | Event(sequence: Byte, endpoint: Endpoint, flags: Flags2, value: Value)
    | Command(transaction: Byte, endpoint: Endpoint, flags: Flags2, value: Value)
    | Request(transaction: Byte, operation: Operation, argument: Byte)
    | Response(transaction: Byte, about: Byte, code: Byte, status: Status, data: Bytes4)
    | Ack(transaction: Byte, about: Byte, kind: PayloadKind, status: Status, detail: Bytes4)
    | ConfigGet(transaction: Byte, place: Interface, key: Byte)
    | ConfigSet(transaction: Byte, place: Interface, key: Byte, value: Value)
    | ConfigValue(transaction: Byte, place: Interface, key: Byte, value: Value)
    | DiagnosticRequest(transaction: Byte, place: Interface, item: Bytes2)
    | DiagnosticResponse(transaction: Byte, place: Interface, item: Bytes2, status: Status, reading: Bytes3)
    | TimeSync(sequence: Byte, source: Flags2, seconds: Bytes4, milliseconds: Milliseconds)
    | EntityClaim(sequence: Byte, endpoint: Endpoint, entity: Token)
    | EntityResolve(transaction: Byte, entity: Token, window: Window)

  function KindOf(m: Message): PayloadKind {
    match m
    case ProtocolError(_, _, _, _, _) => 0x00
    case Announce(_, _, _, _) => 0x01
    case Heartbeat(_, _, _, _) => 0x02
    case DiscoveryRequest(_, _, _, _) => 0x03
    case DiscoveryResponse(_, _, _) => 0x04
    case AddressClaim(_, _) => 0x05
    case AddressAssign(_, _) => 0x06
    case AddressConflict(_, _) => 0x07
    case State(_, _, _, _) => 0x08
    case Event(_, _, _, _) => 0x09
    case Command(_, _, _, _) => 0x0A
    case Request(_, _, _) => 0x0B
    case Response(_, _, _, _, _) => 0x0C
    case Ack(_, _, _, _, _) => 0x0D
    case ConfigGet(_, _, _) => 0x0E
    case ConfigSet(_, _, _, _) => 0x0F
    case ConfigValue(_, _, _, _) => 0x10
    case DiagnosticRequest(_, _, _) => 0x11
    case DiagnosticResponse(_, _, _, _, _) => 0x12
    case TimeSync(_, _, _, _) => 0x13
    case EntityClaim(_, _, _) => 0x14
    case EntityResolve(_, _, _) => 0x15
  }

  function Bytes(word: U32): Bytes4 { [ByteOf(word, 0), ByteOf(word, 1), ByteOf(word, 2), ByteOf(word, 3)] }

  function Half(x: U16): Bytes2 { [x % 0x100, x / 0x100] }

  /** The eight bytes of a message. */
  function Layout(m: Message): Bytes8 {
    match m
    case ProtocolError(sequence, related, kind, status, detail) => [sequence, related, kind, status] + detail
    case Announce(sequence, minor, capabilities, token) => [sequence, 1, minor, capabilities] + Bytes(token)
    case Heartbeat(sequence, condition, token, load) => [sequence, condition] + Bytes(token) + [load, 0]
    case DiscoveryRequest(transaction, filter, window, challenge) => [transaction, filter] + Half(window) + challenge
    case DiscoveryResponse(transaction, uid, offered) => [transaction] + uid + [offered]
    case AddressClaim(uid, nonce) => uid + [1, nonce]
    case AddressAssign(uid, address) => uid + [address % 0x100, 2 + address / 0x100]
    case AddressConflict(uid, sequence) => uid + [1, sequence]
    case State(sequence, endpoint, quality, value) => [sequence, endpoint, value.kind, quality] + value.bytes
    case Event(sequence, endpoint, flags, value) => [sequence, endpoint, value.kind, flags] + value.bytes
    case Command(transaction, endpoint, flags, value) => [transaction, endpoint, value.kind, flags] + value.bytes
    case Request(transaction, operation, argument) =>
      (match operation
       case GetState(target) => [transaction, target, 1, argument]
       case GetNodeInfo => [transaction, 0, 2, argument]
       case GetEndpointInfo(endpoint) => [transaction, endpoint, 3, argument])
      + [0, 0, 0, 0]
    case Response(transaction, about, code, status, data) => [transaction, about, code, status] + data
    case Ack(transaction, about, kind, status, detail) => [transaction, about, kind, status] + detail
    case ConfigGet(transaction, place, key) => [transaction, place, key, 0, 0, 0, 0, 0]
    case ConfigSet(transaction, place, key, value) => [transaction, place, key, value.kind] + value.bytes
    case ConfigValue(transaction, place, key, value) => [transaction, place, key, value.kind] + value.bytes
    case DiagnosticRequest(transaction, place, item) => [transaction, place] + item + [0, 0, 0, 0]
    case DiagnosticResponse(transaction, place, item, status, reading) =>
      [transaction, place] + item + [status] + reading
    case TimeSync(sequence, source, seconds, milliseconds) => [sequence, source] + seconds + Half(milliseconds)
    case EntityClaim(sequence, endpoint, entity) => [sequence, endpoint] + Bytes(entity) + [0, 0]
    case EntityResolve(transaction, entity, window) => [transaction, 0] + Bytes(entity) + Half(window)
  }

  // ---------------------------------------------------------------- every message is a valid payload

  lemma WordsCarry(word: U32)
    ensures word != 0 <==> (Bytes(word)[0] != 0 || Bytes(word)[1] != 0 || Bytes(word)[2] != 0 || Bytes(word)[3] != 0)
    ensures Word(Bytes(word)[0], Bytes(word)[1], Bytes(word)[2], Bytes(word)[3]) == word
  {
    hide ByteOf, Word;
    NonzeroBytes(word);
    WordOfBytes(word);
  }

  lemma HalvesCarry(x: U16)
    ensures Half(x)[0] as int + 0x100 * Half(x)[1] as int == x
  {
  }

  lemma TokensAreValid(m: Message)
    requires m.Announce? || m.Heartbeat?
    ensures ValidBytes(KindOf(m), Layout(m))
  {
    hide ByteOf, Word, Bytes;
    WordsCarry(m.bootToken);
  }

  lemma EntitiesAreValid(m: Message)
    requires m.EntityClaim? || m.EntityResolve?
    ensures ValidBytes(KindOf(m), Layout(m))
  {
    hide ByteOf, Word, Bytes, Half;
    WordsCarry(m.entity);
    if m.EntityResolve? { HalvesCarry(m.window); }
  }

  lemma HalvesAreValid(m: Message)
    requires m.DiscoveryRequest? || m.TimeSync?
    ensures ValidBytes(KindOf(m), Layout(m))
  {
    hide ByteOf, Word, Bytes, Half;
    HalvesCarry(if m.TimeSync? then m.milliseconds else m.window);
  }

  lemma ValuesAreValid(m: Message)
    requires m.State? || m.Event? || m.Command? || m.ConfigSet? || m.ConfigValue?
    ensures ValidBytes(KindOf(m), Layout(m))
  {
    hide ByteOf, Word, Bytes, Half, Validate;
    assert Layout(m)[4..8] == m.value.bytes;
  }

  lemma AddressesAreValid(m: Message)
    requires m.AddressAssign? || m.AddressClaim? || m.AddressConflict?
    ensures ValidBytes(KindOf(m), Layout(m))
  {
    hide ByteOf, Word, Bytes, Half, Validate;
  }

  lemma MessageIsValid(m: Message)
    ensures ValidBytes(KindOf(m), Layout(m))
  {
    hide ByteOf, Word, Bytes, Half, Validate;
    if m.Announce? || m.Heartbeat? {
      TokensAreValid(m);
    } else if m.EntityClaim? || m.EntityResolve? {
      EntitiesAreValid(m);
    } else if m.DiscoveryRequest? || m.TimeSync? {
      HalvesAreValid(m);
    } else if m.State? || m.Event? || m.Command? || m.ConfigSet? || m.ConfigValue? {
      ValuesAreValid(m);
    } else if m.AddressAssign? || m.AddressClaim? || m.AddressConflict? {
      AddressesAreValid(m);
    } else {
    }
  }

  // ---------------------------------------------------------------- every valid payload is a message

  lemma TokenAt(b: Bytes8, offset: nat)
    requires offset <= 4 && IsNonzeroU32(b, offset)
    ensures U32At(b, offset) != 0 && Bytes(U32At(b, offset)) == b[offset..offset + 4]
  {
    hide ByteOf, Word;
    BytesOfWord(b[offset], b[offset + 1], b[offset + 2], b[offset + 3]);
    NonzeroBytes(U32At(b, offset));
  }

  lemma HalfAt(b: Bytes8, offset: nat)
    requires offset <= 6
    ensures Half(U16At(b, offset)) == b[offset..offset + 2]
  {
    BytesOfHalf(b[offset], b[offset + 1]);
  }

  predicate Means(m: Message, kind: PayloadKind, b: Bytes8) { KindOf(m) == kind && Layout(m) == b }

  lemma ReadLifecycle(kind: PayloadKind, b: Bytes8) returns (m: Message)
    requires kind <= HEARTBEAT && ValidBytes(kind, b)
    ensures Means(m, kind, b)
  {
    hide ByteOf, Word, Bytes;
    if kind == PROTOCOL_ERROR {
      m := ProtocolError(b[0], b[1], b[2], b[3], b[4..8]);
    } else if kind == ANNOUNCE {
      TokenAt(b, 4);
      m := Announce(b[0], b[2], b[3], U32At(b, 4));
    } else {
      TokenAt(b, 2);
      m := Heartbeat(b[0], b[1], U32At(b, 2), b[6]);
    }
  }

  lemma ReadCommissioning(kind: PayloadKind, b: Bytes8) returns (m: Message)
    requires DISCOVERY_REQUEST <= kind <= ADDRESS_CONFLICT && ValidBytes(kind, b)
    ensures Means(m, kind, b)
  {
    hide ByteOf, Word, Bytes, Half;
    if kind == DISCOVERY_REQUEST {
      HalfAt(b, 2);
      m := DiscoveryRequest(b[0], b[1], U16At(b, 2), b[4..8]);
    } else if kind == DISCOVERY_RESPONSE {
      m := DiscoveryResponse(b[0], b[1..7], b[7]);
    } else if kind == ADDRESS_CLAIM {
      m := AddressClaim(b[..6], b[7]);
    } else if kind == ADDRESS_ASSIGN {
      m := AddressAssign(b[..6], AssignedAddress(b));
    } else {
      m := AddressConflict(b[..6], b[7]);
    }
  }

  lemma ReadValues(kind: PayloadKind, b: Bytes8) returns (m: Message)
    requires STATE <= kind <= COMMAND && ValidBytes(kind, b)
    ensures Means(m, kind, b)
  {
    hide ByteOf, Word, Bytes, Half, Validate;
    var value: Value := TypedValue(b[2], b[4..8]);
    if kind == STATE {
      m := State(b[0], b[1], b[3], value);
    } else if kind == EVENT {
      m := Event(b[0], b[1], b[3], value);
    } else {
      m := Command(b[0], b[1], b[3], value);
    }
  }

  lemma ReadRequests(kind: PayloadKind, b: Bytes8) returns (m: Message)
    requires REQUEST <= kind <= ACK && ValidBytes(kind, b)
    ensures Means(m, kind, b)
  {
    hide ByteOf, Word, Bytes, Half, Validate;
    if kind == REQUEST {
      var operation := if b[2] == 1 then GetState(b[1]) else if b[2] == 2 then GetNodeInfo else GetEndpointInfo(b[1]);
      m := Request(b[0], operation, b[3]);
    } else if kind == RESPONSE {
      m := Response(b[0], b[1], b[2], b[3], b[4..8]);
    } else {
      m := Ack(b[0], b[1], b[2], b[3], b[4..8]);
    }
  }

  lemma ReadConfiguration(kind: PayloadKind, b: Bytes8) returns (m: Message)
    requires CONFIG_GET <= kind <= CONFIG_VALUE && ValidBytes(kind, b)
    ensures Means(m, kind, b)
  {
    hide ByteOf, Word, Bytes, Half, Validate;
    if kind == CONFIG_GET {
      m := ConfigGet(b[0], b[1], b[2]);
    } else {
      var value: Value := TypedValue(b[3], b[4..8]);
      m := if kind == CONFIG_SET then ConfigSet(b[0], b[1], b[2], value) else ConfigValue(b[0], b[1], b[2], value);
    }
  }

  lemma ReadDiagnostics(kind: PayloadKind, b: Bytes8) returns (m: Message)
    requires DIAGNOSTIC_REQUEST <= kind <= DIAGNOSTIC_RESPONSE && ValidBytes(kind, b)
    ensures Means(m, kind, b)
  {
    hide ByteOf, Word, Bytes, Half, Validate;
    if kind == DIAGNOSTIC_REQUEST {
      m := DiagnosticRequest(b[0], b[1], b[2..4]);
    } else {
      m := DiagnosticResponse(b[0], b[1], b[2..4], b[4], b[5..8]);
    }
  }

  lemma ReadRest(kind: PayloadKind, b: Bytes8) returns (m: Message)
    requires TIME_SYNC <= kind && ValidBytes(kind, b)
    ensures Means(m, kind, b)
  {
    hide ByteOf, Word, Bytes, Half, Validate;
    if kind == TIME_SYNC {
      HalfAt(b, 6);
      m := TimeSync(b[0], b[1], b[2..6], U16At(b, 6));
    } else if kind == ENTITY_CLAIM {
      TokenAt(b, 2);
      m := EntityClaim(b[0], b[1], U32At(b, 2));
    } else {
      TokenAt(b, 2);
      HalfAt(b, 6);
      m := EntityResolve(b[0], U32At(b, 2), U16At(b, 6));
    }
  }

  lemma ReadPayload(kind: PayloadKind, b: Bytes8) returns (m: Message)
    requires ValidBytes(kind, b)
    ensures Means(m, kind, b)
  {
    hide ValidBytes, Means;
    if kind <= HEARTBEAT {
      m := ReadLifecycle(kind, b);
    } else if kind <= ADDRESS_CONFLICT {
      m := ReadCommissioning(kind, b);
    } else if kind <= COMMAND {
      m := ReadValues(kind, b);
    } else if kind <= ACK {
      m := ReadRequests(kind, b);
    } else if kind <= CONFIG_VALUE {
      m := ReadConfiguration(kind, b);
    } else if kind <= DIAGNOSTIC_RESPONSE {
      m := ReadDiagnostics(kind, b);
    } else {
      m := ReadRest(kind, b);
    }
  }

  /** The validator of a kind accepts exactly the layouts of its messages. */
  lemma PayloadsAreMessages(kind: PayloadKind, b: Bytes8)
    ensures ValidBytes(kind, b) <==> exists m :: Means(m, kind, b)
  {
    if ValidBytes(kind, b) {
      var m := ReadPayload(kind, b);
    }
    if m :| Means(m, kind, b) { MessageIsValid(m); }
  }

  lemma SameWord(v: U32, w: U32)
    requires Bytes(v) == Bytes(w)
    ensures v == w
  {
    WordsCarry(v);
    WordsCarry(w);
  }

  lemma SameHalf(x: U16, y: U16)
    requires Half(x) == Half(y)
    ensures x == y
  {
    HalvesCarry(x);
    HalvesCarry(y);
  }

  /** Where the fields of a message lie. */
  predicate FieldsLie(m: Message, b: Bytes8) {
    match m
    case ProtocolError(sequence, related, kind, status, detail) =>
      b[0] == sequence && b[1] == related && b[2] == kind && b[3] == status && b[4..8] == detail
    case Announce(sequence, minor, capabilities, token) =>
      b[0] == sequence && b[2] == minor && b[3] == capabilities && b[4..8] == Bytes(token)
    case Heartbeat(sequence, condition, token, load) =>
      b[0] == sequence && b[1] == condition && b[2..6] == Bytes(token) && b[6] == load
    case DiscoveryRequest(transaction, filter, window, challenge) =>
      b[0] == transaction && b[1] == filter && b[2..4] == Half(window) && b[4..8] == challenge
    case DiscoveryResponse(transaction, uid, offered) => b[0] == transaction && b[1..7] == uid && b[7] == offered
    case AddressClaim(uid, nonce) => b[..6] == uid && b[7] == nonce
    case AddressAssign(uid, address) => b[..6] == uid && AssignedAddress(b) == address
    case AddressConflict(uid, sequence) => b[..6] == uid && b[7] == sequence
    case State(sequence, endpoint, quality, value) =>
      b[0] == sequence && b[1] == endpoint && b[2] == value.kind && b[3] == quality && b[4..8] == value.bytes
    case Event(sequence, endpoint, flags, value) =>
      b[0] == sequence && b[1] == endpoint && b[2] == value.kind && b[3] == flags && b[4..8] == value.bytes
    case Command(transaction, endpoint, flags, value) =>
      b[0] == transaction && b[1] == endpoint && b[2] == value.kind && b[3] == flags && b[4..8] == value.bytes
    case Request(transaction, operation, argument) =>
      && b[0] == transaction && b[3] == argument
      && (match operation
          case GetState(target) => b[1] == target && b[2] == 1
          case GetNodeInfo => b[2] == 2
          case GetEndpointInfo(endpoint) => b[1] == endpoint && b[2] == 3)
    case Response(transaction, about, code, status, data) =>
      b[0] == transaction && b[1] == about && b[2] == code && b[3] == status && b[4..8] == data
    case Ack(transaction, about, kind, status, detail) =>
      b[0] == transaction && b[1] == about && b[2] == kind && b[3] == status && b[4..8] == detail
    case ConfigGet(transaction, place, key) => b[0] == transaction && b[1] == place && b[2] == key
    case ConfigSet(transaction, place, key, value) =>
      b[0] == transaction && b[1] == place && b[2] == key && b[3] == value.kind && b[4..8] == value.bytes
    case ConfigValue(transaction, place, key, value) =>
      b[0] == transaction && b[1] == place && b[2] == key && b[3] == value.kind && b[4..8] == value.bytes
    case DiagnosticRequest(transaction, place, item) => b[0] == transaction && b[1] == place && b[2..4] == item
    case DiagnosticResponse(transaction, place, item, status, reading) =>
      b[0] == transaction && b[1] == place && b[2..4] == item && b[4] == status && b[5..8] == reading
    case TimeSync(sequence, source, seconds, milliseconds) =>
      b[0] == sequence && b[1] == source && b[2..6] == seconds && b[6..8] == Half(milliseconds)
    case EntityClaim(sequence, endpoint, entity) =>
      b[0] == sequence && b[1] == endpoint && b[2..6] == Bytes(entity)
    case EntityResolve(transaction, entity, window) =>
      b[0] == transaction && b[2..6] == Bytes(entity) && b[6..8] == Half(window)
  }

  lemma TokenFieldsAreThere(m: Message)
    requires m.Announce? || m.Heartbeat? || m.EntityClaim? || m.EntityResolve?
    ensures FieldsLie(m, Layout(m))
  {
    hide ByteOf, Bytes, Half, Validate;
  }

  lemma ValueFieldsAreThere(m: Message)
    requires m.State? || m.Event? || m.Command? || m.ConfigSet? || m.ConfigValue?
    ensures FieldsLie(m, Layout(m))
  {
    hide ByteOf, Bytes, Half, Validate;
  }

  lemma AddressFieldsAreThere(m: Message)
    requires m.AddressClaim? || m.AddressAssign? || m.AddressConflict? || m.DiscoveryRequest? || m.DiscoveryResponse?
    ensures FieldsLie(m, Layout(m))
  {
    hide ByteOf, Bytes, Half, Validate;
  }

  lemma ReplyFieldsAreThere(m: Message)
    requires m.ProtocolError? || m.Request? || m.Response? || m.Ack? || m.ConfigGet?
    ensures FieldsLie(m, Layout(m))
  {
    hide ByteOf, Bytes, Half, Validate;
  }

  lemma OtherFieldsAreThere(m: Message)
    requires m.DiagnosticRequest? || m.DiagnosticResponse? || m.TimeSync?
    ensures FieldsLie(m, Layout(m))
  {
    hide ByteOf, Bytes, Half, Validate;
  }

  lemma FieldsAreThere(m: Message)
    ensures FieldsLie(m, Layout(m))
  {
    hide FieldsLie, Layout;
    if m.Announce? || m.Heartbeat? || m.EntityClaim? || m.EntityResolve? {
      TokenFieldsAreThere(m);
    } else if m.State? || m.Event? || m.Command? || m.ConfigSet? || m.ConfigValue? {
      ValueFieldsAreThere(m);
    } else if m.AddressClaim? || m.AddressAssign? || m.AddressConflict? || m.DiscoveryRequest? || m.DiscoveryResponse? {
      AddressFieldsAreThere(m);
    } else if m.ProtocolError? || m.Request? || m.Response? || m.Ack? || m.ConfigGet? {
      ReplyFieldsAreThere(m);
    } else {
      OtherFieldsAreThere(m);
    }
  }

  lemma SameTokens(m: Message, m': Message, b: Bytes8)
    requires FieldsLie(m, b) && FieldsLie(m', b) && KindOf(m) == KindOf(m')
    ensures m.Announce? || m.Heartbeat? ==> m.bootToken == m'.bootToken
    ensures m.EntityClaim? || m.EntityResolve? ==> m.entity == m'.entity
    ensures m.EntityResolve? || m.DiscoveryRequest? ==> m.window == m'.window
    ensures m.TimeSync? ==> m.milliseconds == m'.milliseconds
  {
    hide ByteOf, Bytes, Half, Validate;
    if m.Announce? || m.Heartbeat? { SameWord(m.bootToken, m'.bootToken); }
    if m.EntityClaim? || m.EntityResolve? { SameWord(m.entity, m'.entity); }
    if m.EntityResolve? || m.DiscoveryRequest? { SameHalf(m.window, m'.window); }
    if m.TimeSync? { SameHalf(m.milliseconds, m'.milliseconds); }
  }

  lemma FieldsDetermine(m: Message, m': Message, b: Bytes8)
    requires FieldsLie(m, b) && FieldsLie(m', b) && KindOf(m) == KindOf(m')
    ensures m == m'
  {
    hide ByteOf, Bytes, Half, Validate, AssignedAddress;
    if m.Announce? || m.Heartbeat? || m.EntityClaim? || m.EntityResolve? || m.DiscoveryRequest? || m.TimeSync? {
      SameTokens(m, m', b);
    } else if m.State? || m.Event? || m.Command? || m.ConfigSet? || m.ConfigValue? {
      assert m.value == TypedValue(if m.ConfigSet? || m.ConfigValue? then b[3] else b[2], b[4..8]) == m'.value;
    }
  }

  /** A payload means one message only. */
  lemma MeaningIsUnique(m: Message, m': Message, kind: PayloadKind, b: Bytes8)
    requires Means(m, kind, b) && Means(m', kind, b)
    ensures m == m'
  {
    hide FieldsLie, Layout;
    FieldsAreThere(m);
    FieldsAreThere(m');
    FieldsDetermine(m, m', b);
  }

  // ---------------------------------------------------------------- the codec against the reference

  /** The frame that carries a message. */
  function OnWire(m: Message, source: NodeAddress, destination: NodeAddress, hop: Hop): RawCanFrame {
    var id := CanIdentifier(EntryOf(KindOf(m)).priority, KindOf(m), destination, source, hop);
    RawCanFrame(ToRaw(id), true, 8, Layout(m))
  }

  /** The raw frame carries the message from `source` to `destination`, with any hop count. */
  predicate Conveys(raw: RawCanFrame, m: Message, source: NodeAddress, destination: NodeAddress) {
    && Travels(EntryOf(KindOf(m)).reach, source, destination)
    && exists hop :: raw == OnWire(m, source, destination, hop)
  }

  /** The node's codec encodes a frame exactly if the registry admits its priority and its two
      addresses, and its payload is a message of its kind. */
  lemma EncodesExactly(frame: ProtocolFrame)
    ensures var id, kind := frame.identifier, frame.payload.kind;
            Encode(frame).Success? <==>
              && id.kind == kind && id.priority == EntryOf(kind).priority
              && Travels(EntryOf(kind).reach, id.source, id.destination)
              && exists m :: Means(m, kind, frame.payload.bytes)
  {
    hide ValidIdentifier, ValidBytes, Means, Travels;
    DecodeEncoded(frame);
    AddressingIsRegistered(frame.payload.kind, frame.identifier);
    PayloadsAreMessages(frame.payload.kind, frame.payload.bytes);
  }

  /** A raw frame is decoded exactly if it conveys a message, from the source to the destination that its
      identifier names; and that message is unique. */
  lemma DecodesExactly(raw: RawCanFrame, source: NodeAddress, destination: NodeAddress)
    ensures (Decode(raw).Success? && Decode(raw).value.identifier.source == source
             && Decode(raw).value.identifier.destination == destination)
            <==> exists m :: Conveys(raw, m, source, destination)
  {
    hide ValidIdentifier, ValidBytes, Travels, ToRaw, Encode;
    if Decode(raw).Success? && Decode(raw).value.identifier.source == source
       && Decode(raw).value.identifier.destination == destination {
      var m := DecodedConveys(raw);
    }
    if m :| Conveys(raw, m, source, destination) { ConveyedDecodes(raw, m, source, destination); }
  }

  lemma DecodedConveys(raw: RawCanFrame) returns (m: Message)
    requires Decode(raw).Success?
    ensures var id := Decode(raw).value.identifier; Conveys(raw, m, id.source, id.destination)
  {
    hide ValidIdentifier, ValidBytes, Travels, ToRaw, Layout;
    EncodeDecoded(raw);
    var f := Decode(raw).value;
    AddressingIsRegistered(f.payload.kind, f.identifier);
    m := ReadPayload(f.payload.kind, f.payload.bytes);
    assert raw == OnWire(m, f.identifier.source, f.identifier.destination, f.identifier.hop);
  }

  /** What is conveyed is decoded as it was meant. */
  lemma ConveyedDecodes(raw: RawCanFrame, m: Message, source: NodeAddress, destination: NodeAddress)
    requires Conveys(raw, m, source, destination)
    ensures Decode(raw).Success?
    ensures var f := Decode(raw).value;
            && f.identifier.kind == f.payload.kind == KindOf(m) && f.payload.bytes == Layout(m)
            && f.identifier.source == source && f.identifier.destination == destination
            && f.identifier.priority == EntryOf(KindOf(m)).priority
  {
    hide ValidIdentifier, ValidBytes, Travels, ToRaw, Layout, Decode;
    var hop :| raw == OnWire(m, source, destination, hop);
    var id := CanIdentifier(EntryOf(KindOf(m)).priority, KindOf(m), destination, source, hop);
    var f := ProtocolFrame(id, WirePayload(KindOf(m), Layout(m)));
    AddressingIsRegistered(KindOf(m), id);
    MessageIsValid(m);
    DecodeEncoded(f);
    EncodedAs(f);
  }

  lemma EncodedAs(f: ProtocolFrame)
    requires Encode(f).Success?
    ensures Encode(f).value == RawCanFrame(ToRaw(f.identifier), true, 8, f.payload.bytes)
  {
  }

  /** Some message of the kind, so that every route of the registry is used. */
  function Sample(kind: PayloadKind): Message {
    var nothing := TypedValue(NULL, [0, 0, 0, 0]);
    match kind as int
    case 0x00 => ProtocolError(0, 0, 0, 0, [0, 0, 0, 0])
    case 0x01 => Announce(0, 0, 0, 1)
    case 0x02 => Heartbeat(0, 0, 1, 0)
    case 0x03 => DiscoveryRequest(0, 0, 1000, [0, 0, 0, 0])
    case 0x04 => DiscoveryResponse(0, [0, 0, 0, 0, 0, 0], 0)
    case 0x05 => AddressClaim([0, 0, 0, 0, 0, 0], 0)
    case 0x06 => AddressAssign([0, 0, 0, 0, 0, 0], 1)
    case 0x07 => AddressConflict([0, 0, 0, 0, 0, 0], 0)
    case 0x08 => State(0, 1, 0, nothing)
    case 0x09 => Event(0, 1, 0, nothing)
    case 0x0A => Command(0, 1, 0, nothing)
    case 0x0B => Request(0, GetNodeInfo, 0)
    case 0x0C => Response(0, 0, 0, 0, [0, 0, 0, 0])
    case 0x0D => Ack(0, 0, 0, 0, [0, 0, 0, 0])
    case 0x0E => ConfigGet(0, 0, 0)
    case 0x0F => ConfigSet(0, 0, 0, nothing)
    case 0x10 => ConfigValue(0, 0, 0, nothing)
    case 0x11 => DiagnosticRequest(0, 0, [0, 0])
    case 0x12 => DiagnosticResponse(0, 0, [0, 0], 0, [0, 0, 0])
    case 0x13 => TimeSync(0, 0, [0, 0, 0, 0], 0)
    case 0x14 => EntityClaim(0, 1, 1)
    case _ => EntityResolve(0, 1, 1000)
  }

  /** For each kind: two addresses admit a valid frame of the kind exactly if the registry says that it
      travels between them. */
  lemma RoutesAreRegistered(kind: PayloadKind, source: NodeAddress, destination: NodeAddress)
    ensures (exists raw :: Decode(raw).Success? && Decode(raw).value.identifier.kind == kind
                           && Decode(raw).value.identifier.source == source
                           && Decode(raw).value.identifier.destination == destination)
            <==> Travels(EntryOf(kind).reach, source, destination)
  {
    hide Travels, Layout, ToRaw, Decode;
    if raw :| Decode(raw).Success? && Decode(raw).value.identifier.kind == kind
              && Decode(raw).value.identifier.source == source
              && Decode(raw).value.identifier.destination == destination {
      var m := DecodedConveys(raw);
      ConveyedDecodes(raw, m, source, destination);
    }
    if Travels(EntryOf(kind).reach, source, destination) {
      SampleIsOfKind(kind);
      var m := Sample(kind);
      var raw := OnWire(m, source, destination, 0);
      ConveyedDecodes(raw, m, source, destination);
    }
  }

  lemma SampleIsOfKind(kind: PayloadKind)
    ensures KindOf(Sample(kind)) == kind
  {
  }

  /** Which error a raw frame is refused with: the first of these that applies. */
  lemma RefusesInOrder(raw: RawCanFrame)
    ensures Decode(raw).Failure? ==>
              var error := Decode(raw).error;
              var priority, kind := raw.canId / 0x400_0000, raw.canId / 0x20_0000 % 0x20;
              var destination, source := raw.canId / 0x1000 % 0x200, raw.canId / 8 % 0x200;
              error == if !raw.extended then NotExtended
                       else if raw.dlc != 8 then InvalidDlc
                       else if raw.canId >= 0x2000_0000 then InvalidIdentifier
                       else if kind >= 0x16 then UnknownKind
                       else if priority != EntryOf(kind).priority then DecodeError.InvalidPriority
                       else if !Travels(EntryOf(kind).reach, source, destination) then DecodeError.InvalidAddressing
                       else DecodeError.InvalidPayload
  {
    hide ValidIdentifier, ValidBytes, Travels;
    if raw.canId < 0x2000_0000 {
      var id := FromRaw(raw.canId).value;
      UnpackedPriority(raw.canId);
      if id.kind < 0x16 { PriorityIsRegistered(id.kind); AddressingIsRegistered(id.kind, id); }
    }
  }

  lemma UnpackedPriority(raw: U32)
    requires raw < 0x2000_0000
    ensures raw / 0x400_0000 < 8
  {
  }

  /** What the validator of a payload says of an identifier: the first thing wrong. */
  lemma ValidatesInOrder(p: WirePayload, id: CanIdentifier)
    ensures ValidatePayload(p, id)
            == if id.kind != p.kind then FrameValidationError.InvalidPayload
               else if id.priority != EntryOf(p.kind).priority then FrameValidationError.InvalidPriority
               else if !Travels(EntryOf(p.kind).reach, id.source, id.destination) then
                 FrameValidationError.InvalidAddressing
               else if exists m :: Means(m, p.kind, p.bytes) then FrameValidationError.NoError
               else FrameValidationError.InvalidPayload
  {
    hide ValidIdentifier, ValidBytes, Means, Travels;
    PriorityIsRegistered(p.kind);
    AddressingIsRegistered(p.kind, id);
    PayloadsAreMessages(p.kind, p.bytes);
  }

  // ---------------------------------------------------------------- departures from the registry's text

  /** The RETRY bit of an event, bit 2 of byte 3, is refused with everything above it. */
  lemma RetriedEventIsRefused(b: Bytes8)
    requires 0 < b[1] < 0xFF && Validate(TypedValue(b[2], b[4..8])) == ValueError.NoError
    ensures ValidBytes(EVENT, b) <==> b[3] < 4
    ensures !ValidBytes(EVENT, [0, 1, 0, 4, 0, 0, 0, 0])
  {
  }

  /** An error is read as if its kind stood in byte 2, where its transaction is meant to be: one about a
      command (kind 0x0A in byte 1) is refused if the transaction is none of the kind codes. */
  lemma ErrorIsReadElsewhere(b: Bytes8)
    requires b[1] < 0x16 && b[3] < 8
    ensures ValidBytes(PROTOCOL_ERROR, b) <==> b[2] < 0x16
    ensures !ValidBytes(PROTOCOL_ERROR, [0, 0x0A, 0x80, 3, 0, 0, 0, 0])
  {
  }
}
