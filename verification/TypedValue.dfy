/** The four-byte typed value slot. */
module TypedValues {
  import opened Types

  type DataType = Byte
  const NULL: DataType := 0x00
  const BOOL: DataType := 0x01
  const UINT8: DataType := 0x02
  const INT8: DataType := 0x03
  const UINT16: DataType := 0x04
  const INT16: DataType := 0x05
  const UINT32: DataType := 0x06
  const INT32: DataType := 0x07
  const FLOAT32: DataType := 0x08
  const FIXED16_16: DataType := 0x09
  const ENUM8: DataType := 0x0A
  const BITSET32: DataType := 0x0B
  const INVALID: DataType := 0xFF

  const UNKNOWN_WIDTH: Byte := 0xFF

  datatype ValueError = NoError | UnknownDataType | InvalidBoolean | NonZeroUnusedBytes | SignalingNan

  /** A data type may be any byte: the decoder casts without a check. */
  datatype TypedValue = TypedValue(kind: DataType, bytes: Bytes4)

  function ValueWidth(t: DataType): Byte {
    if t == NULL || t == INVALID then 0
    else if t == BOOL || t == UINT8 || t == INT8 || t == ENUM8 then 1
    else if t == UINT16 || t == INT16 then 2
    else if UINT32 <= t <= FIXED16_16 || t == BITSET32 then 4
    else UNKNOWN_WIDTH
  }

  /** Bits 23..30 all set, a nonzero trailing significand, and its top bit (22) clear. */
  predicate IsSignalingNan(b: Bytes4) {
    var bits := U32At(b, 0);
    && bits / 0x80_0000 % 0x100 == 0xFF
    && bits % 0x80_0000 != 0
    && bits / 0x40_0000 % 2 == 0
  }

  function Validate(v: TypedValue): ValueError {
    var width := ValueWidth(v.kind);
    if width == UNKNOWN_WIDTH then UnknownDataType
    else if v.kind == BOOL && v.bytes[0] > 1 then InvalidBoolean
    else if exists i :: width <= i < 4 && v.bytes[i] != 0 then NonZeroUnusedBytes
    else if v.kind == FLOAT32 && IsSignalingNan(v.bytes) then SignalingNan
    else NoError
  }

  /** The scan of the unused bytes, as the code runs it. */
  method ValidateValue(v: TypedValue) returns (e: ValueError)
    ensures e == Validate(v)
  {
    var width := ValueWidth(v.kind);
    if width == UNKNOWN_WIDTH {
      return UnknownDataType;
    }
    if v.kind == BOOL && v.bytes[0] > 1 {
      return InvalidBoolean;
    }
    for index := width to |v.bytes|
      invariant forall i :: width <= i < index ==> v.bytes[i] == 0
    {
      if v.bytes[index] != 0 {
        return NonZeroUnusedBytes;
      }
    }
    if v.kind == FLOAT32 && IsSignalingNan(v.bytes) {
      return SignalingNan;
    }
    return NoError;
  }

  /** How many distinct words a type can hold, by its code: none, two booleans, one, two or four bytes. A
      slot is a little-endian word below this bound. */
  const WORDS: seq<nat> := [1, 2, 0x100, 0x100, 0x1_0000, 0x1_0000, WORD, WORD, WORD, WORD, 0x100, WORD]

  function Cardinality(t: DataType): nat {
    if t < |WORDS| then WORDS[t] else if t == 0xFF then 1 else 0
  }

  /** IEEE 754-2008, section 6.2.1, on the fields of a binary32 word. */
  predicate SignalingNanWord(w: U32) {
    var exponent, significand := w / 0x80_0000 % 0x100, w % 0x80_0000;
    exponent == 0xFF && 0 < significand < 0x40_0000
  }

  /** Bit 22 of a word is clear exactly when its low 23 bits are below 2^22. */
  lemma QuietBit(w: nat)
    ensures w / 0x40_0000 % 2 == 0 <==> w % 0x80_0000 < 0x40_0000
  {
    var quotient, low := w / 0x80_0000, w % 0x80_0000;
    if low < 0x40_0000 {
      assert w == 0x40_0000 * (2 * quotient) + low;
      assert w / 0x40_0000 == 2 * quotient;
    } else {
      assert w == 0x40_0000 * (2 * quotient + 1) + (low - 0x40_0000);
      assert w / 0x40_0000 == 2 * quotient + 1;
    }
  }

  lemma HighBytesBoundWord(b0: Byte, b1: Byte, b2: Byte, b3: Byte)
    ensures Word(b0, b1, b2, b3) < 1 <==> b0 == 0 && b1 == 0 && b2 == 0 && b3 == 0
    ensures Word(b0, b1, b2, b3) < 0x100 <==> b1 == 0 && b2 == 0 && b3 == 0
    ensures Word(b0, b1, b2, b3) < 0x1_0000 <==> b2 == 0 && b3 == 0
  {
  }

  lemma UnusedBytesBoundWord(b: Bytes4, width: nat)
    requires width in {0, 1, 2, 4}
    ensures (forall i :: width <= i < 4 ==> b[i] == 0)
            <==> U32At(b, 0) < (match width case 0 => 1 case 1 => 0x100 case 2 => 0x1_0000 case _ => WORD)
  {
    hide Word;
    HighBytesBoundWord(b[0], b[1], b[2], b[3]);
  }

  lemma SignalingNanFields(b: Bytes4)
    ensures IsSignalingNan(b) <==> SignalingNanWord(U32At(b, 0))
  {
    hide U32At;
    QuietBit(U32At(b, 0));
  }

  lemma BooleanBytes(b: Bytes4)
    ensures U32At(b, 0) < 2 <==> U32At(b, 0) < 0x100 && b[0] <= 1
  {
  }

  /** Apart from booleans, the width of a known type bounds its words. */
  lemma WidthBounds(t: DataType)
    requires ValueWidth(t) != UNKNOWN_WIDTH
    ensures ValueWidth(t) in {0, 1, 2, 4} && (t == BOOL ==> ValueWidth(t) == 1)
    ensures t != BOOL ==>
              Cardinality(t)
              == match ValueWidth(t) as int case 0 => 1 case 1 => 0x100 case 2 => 0x1_0000 case _ => WORD
  {
  }

  lemma UnknownHoldsNothing(t: DataType)
    ensures ValueWidth(t) == UNKNOWN_WIDTH <==> Cardinality(t) == 0
  {
  }

  /** A slot validates exactly when it is the encoding of a value of its type: the unused bytes
      are zero because the word is small, a boolean is 0 or 1, and a float is no signaling NaN. */
  lemma ValidIffEncodesValue(v: TypedValue)
    ensures Validate(v) == NoError <==>
            && U32At(v.bytes, 0) < Cardinality(v.kind)
            && (v.kind == FLOAT32 ==> !SignalingNanWord(U32At(v.bytes, 0)))
  {
    hide ValueWidth, Cardinality, U32At, IsSignalingNan, SignalingNanWord;
    UnknownHoldsNothing(v.kind);
    if ValueWidth(v.kind) != UNKNOWN_WIDTH {
      WidthBounds(v.kind);
      UnusedBytesBoundWord(v.bytes, ValueWidth(v.kind));
      SignalingNanFields(v.bytes);
      BooleanBytes(v.bytes);
      assert Cardinality(BOOL) == 2 by { TwoBooleans(); }
    }
  }

  /** The error of a slot, in terms of its word: the first of these that applies. */
  lemma ErrorsOfValue(v: TypedValue)
    ensures var w := U32At(v.bytes, 0);
            Validate(v) == if Cardinality(v.kind) == 0 then UnknownDataType
                           else if v.kind == 0x01 && w % 0x100 > 1 then InvalidBoolean
                           else if w >= Cardinality(v.kind) then NonZeroUnusedBytes
                           else if v.kind == 0x08 && SignalingNanWord(w) then SignalingNan
                           else NoError
  {
    hide ValueWidth, Cardinality, U32At, IsSignalingNan, SignalingNanWord;
    UnknownHoldsNothing(v.kind);
    if ValueWidth(v.kind) != UNKNOWN_WIDTH {
      WidthBounds(v.kind);
      UnusedBytesBoundWord(v.bytes, ValueWidth(v.kind));
      SignalingNanFields(v.bytes);
      BooleanBytes(v.bytes);
      LowestByte(v.bytes);
      TwoBooleans();
    }
  }

  lemma LowestByte(b: Bytes4)
    ensures U32At(b, 0) % 0x100 == b[0]
  {
  }

  lemma TwoBooleans()
    ensures Cardinality(BOOL) == 2
  {
  }
}
