/** Option and Result, as the C++ code uses `std::optional` and `std::variant`. */
module Wrappers {
  datatype Option<+T> = None | Some(value: T)

  datatype Result<+R, +E> = Success(value: R) | Failure(error: E)
}

/** Machine integers, byte strings and the registry constants of the protocol. */
module Types {
  type Byte = x: int | 0 <= x < 0x100
  type U16 = x: int | 0 <= x < 0x1_0000
  type U32 = x: int | 0 <= x < 0x1_0000_0000

  const WORD := 0x1_0000_0000

  /** A nine-bit transport address; 0 means unassigned, 0x1FF broadcast. */
  type NodeAddress = x: int | 0 <= x <= BROADCAST
  type EndpointId = Byte
  type EntityId = U32

  const UNASSIGNED: NodeAddress := 0
  const BROADCAST := 0x1FF

  type Bytes4 = s: seq<Byte> | |s| == 4 witness [0, 0, 0, 0]
  type Uid = s: seq<Byte> | |s| == 6 witness [0, 0, 0, 0, 0, 0]
  type Bytes8 = s: seq<Byte> | |s| == 8 witness [0, 0, 0, 0, 0, 0, 0, 0]

  /** Traffic classes, in arbitration order. */
  type Priority = x: int | 0 <= x < 8
  const CONTROL: Priority := 1
  const EVENT_CLASS: Priority := 2
  const STATE_QUERY: Priority := 3
  const MANAGEMENT: Priority := 4
  const DIAGNOSTIC: Priority := 5

  /** The five-bit message kind; 0x16..0x1F are unregistered. */
  type Kind = x: int | 0 <= x < 32
  const PROTOCOL_ERROR: Kind := 0x00
  const ANNOUNCE: Kind := 0x01
  const HEARTBEAT: Kind := 0x02
  const DISCOVERY_REQUEST: Kind := 0x03
  const DISCOVERY_RESPONSE: Kind := 0x04
  const ADDRESS_CLAIM: Kind := 0x05
  const ADDRESS_ASSIGN: Kind := 0x06
  const ADDRESS_CONFLICT: Kind := 0x07
  const STATE: Kind := 0x08
  const EVENT: Kind := 0x09
  const COMMAND: Kind := 0x0A
  const REQUEST: Kind := 0x0B
  const RESPONSE: Kind := 0x0C
  const ACK: Kind := 0x0D
  const CONFIG_GET: Kind := 0x0E
  const CONFIG_SET: Kind := 0x0F
  const CONFIG_VALUE: Kind := 0x10
  const DIAGNOSTIC_REQUEST: Kind := 0x11
  const DIAGNOSTIC_RESPONSE: Kind := 0x12
  const TIME_SYNC: Kind := 0x13
  const ENTITY_CLAIM: Kind := 0x14
  const ENTITY_RESOLVE: Kind := 0x15

  /** Command outcomes; 0x00..0x07 are registered. */
  type Status = x: int | 0 <= x < 8
  const ACCEPTED: Status := 0
  const UNSUPPORTED: Status := 2

  /** Addition and subtraction of `std::uint32_t`. */
  function Add32(a: U32, b: int): U32 { (a + b) % WORD }

  function Sub32(a: U32, b: U32): U32 { (a - b) % WORD }

  /** A 32-bit difference is the true elapsed time as long as that is below 2^32. */
  lemma WrapSafeAge(now: nat, earlier: nat)
    requires earlier <= now && now - earlier < WORD
    ensures Sub32(now % WORD, earlier % WORD) == now - earlier
  {
  }

  function Next8(b: Byte): Byte { (b + 1) % 0x100 }

  /** Little-endian words, as `u16` and the shift expressions of the runtime read them. */
  function U16At(b: seq<Byte>, offset: nat): U16
    requires offset + 2 <= |b|
  {
    b[offset] as int + 0x100 * b[offset + 1] as int
  }

  function Word(b0: Byte, b1: Byte, b2: Byte, b3: Byte): U32 {
    b0 as int + 0x100 * b1 as int + 0x1_0000 * b2 as int + 0x100_0000 * b3 as int
  }

  function U32At(b: seq<Byte>, offset: nat): U32
    requires offset + 4 <= |b|
  {
    Word(b[offset], b[offset + 1], b[offset + 2], b[offset + 3])
  }

  /** Byte `index` of a word, as a shift and a truncating cast select it. */
  function ByteOf(word: U32, index: nat): Byte
    requires index < 4
  {
    match index
    case 0 => word % 0x100
    case 1 => word / 0x100 % 0x100
    case 2 => word / 0x1_0000 % 0x100
    case _ => word / 0x100_0000
  }

  /** Splitting a word into bytes and joining bytes into a word are inverse. */
  lemma WordOfBytes(word: U32)
    ensures Word(ByteOf(word, 0), ByteOf(word, 1), ByteOf(word, 2), ByteOf(word, 3)) == word
  {
    assert word / 0x100 / 0x100 == word / 0x1_0000;
    assert word / 0x1_0000 / 0x100 == word / 0x100_0000;
  }

  lemma BytesOfWord(b0: Byte, b1: Byte, b2: Byte, b3: Byte)
    ensures var w := Word(b0, b1, b2, b3);
            ByteOf(w, 0) == b0 && ByteOf(w, 1) == b1 && ByteOf(w, 2) == b2 && ByteOf(w, 3) == b3
  {
    var w := Word(b0, b1, b2, b3);
    assert w / 0x100_0000 == b3;
    assert w / 0x1_0000 == b2 as int + 0x100 * b3 as int;
    assert w / 0x100 == b1 as int + 0x100 * (b2 as int + 0x100 * b3 as int);
  }

  /** A word is zero exactly when all its bytes are. */
  lemma NonzeroBytes(word: U32)
    ensures word != 0 <==> ByteOf(word, 0) != 0 || ByteOf(word, 1) != 0 || ByteOf(word, 2) != 0 || ByteOf(word, 3) != 0
  {
    hide ByteOf;
    WordOfBytes(word);
    ZeroIsZero();
  }

  lemma ZeroIsZero()
    ensures ByteOf(0, 0) == 0 && ByteOf(0, 1) == 0 && ByteOf(0, 2) == 0 && ByteOf(0, 3) == 0
  {
  }

  /** The same for sixteen bits. */
  lemma HalfOfBytes(half: U16)
    ensures 0 <= half / 0x100 < 0x100 && half % 0x100 + 0x100 * (half / 0x100) == half
  {
  }

  lemma BytesOfHalf(b0: Byte, b1: Byte)
    ensures var half := b0 as int + 0x100 * b1 as int; half % 0x100 == b0 && half / 0x100 == b1
  {
  }

  function Pow2(k: nat): nat { if k == 0 then 1 else 2 * Pow2(k - 1) }

  /** Bitwise exclusive or of the low `k` bits. */
  function Xor(k: nat, a: nat, b: nat): (r: nat)
    ensures r < Pow2(k)
  {
    if k == 0 then 0 else (a + b) % 2 + 2 * Xor(k - 1, a / 2, b / 2)
  }

  function Xor8(a: Byte, b: Byte): Byte {
    assert Pow2(8) == 0x100;
    Xor(8, a, b)
  }

  function Xor32(a: U32, b: U32): U32 {
    assert Pow2(8) == 0x100;
    assert Pow2(16) == 0x1_0000 by { assert Pow2(12) == 0x1000; }
    assert Pow2(24) == 0x100_0000 by { assert Pow2(20) == 0x10_0000; }
    assert Pow2(32) == WORD by { assert Pow2(28) == 0x1000_0000; }
    Xor(32, a, b)
  }
}
