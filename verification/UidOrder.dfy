/** Comparing UIDs, and the hashes that spread nodes over time. */
module UidOrder {
  import opened Types
  import opened Nodes

  /** A UID as an integer, its first byte least significant. */
  function UidValue(uid: seq<Byte>): nat {
    if uid == [] then 0 else uid[0] as int + 0x100 * UidValue(uid[1..])
  }

  /** The lowest byte matters only when all the others agree. */
  lemma {:induction false} LowestByteLast(a: seq<Byte>, b: seq<Byte>)
    requires |a| == |b| > 0
    ensures LowerFromTop(a, b) <==> LowerFromTop(a[1..], b[1..]) || (a[1..] == b[1..] && a[0] < b[0])
  {
    var n := |a| - 1;
    if n == 0 {
      assert a[..0] == [] && b[..0] == [];
    } else {
      assert a[1..][n - 1] == a[n] && b[1..][n - 1] == b[n];
      LowestByteLast(a[..n], b[..n]);
      assert a[..n][1..] == a[1..][..n - 1] && b[..n][1..] == b[1..][..n - 1];
      if a[n] == b[n] {
        assert a[1..] == a[1..][..n - 1] + [a[n]] && b[1..] == b[1..][..n - 1] + [b[n]];
      }
    }
  }

  /** The comparison from the top byte down is numeric comparison of little-endian integers. */
  lemma {:induction false} ComparisonIsNumeric(a: seq<Byte>, b: seq<Byte>)
    requires |a| == |b|
    ensures LowerFromTop(a, b) <==> UidValue(a) < UidValue(b)
    ensures UidValue(a) == UidValue(b) <==> a == b
  {
    if a != [] {
      LowestByteLast(a, b);
      ComparisonIsNumeric(a[1..], b[1..]);
      assert a == [a[0]] + a[1..] && b == [b[0]] + b[1..];
    }
  }

  /** The code's scan: from the most significant byte down, the first difference decides. */
  method ComparesLower(a: Uid, b: Uid) returns (lower: bool)
    ensures lower == LowerFromTop(a, b)
    ensures lower <==> UidValue(a) < UidValue(b)
  {
    lower := false;
    var index := 5;
    assert a[..6] == a && b[..6] == b;
    while index >= 0
      invariant -1 <= index <= 5
      invariant a[index + 1..] == b[index + 1..] && !lower
      invariant LowerFromTop(a, b) <==> LowerFromTop(a[..index + 1], b[..index + 1])
    {
      if a[index] != b[index] {
        assert a[..index + 1][|a[..index + 1]| - 1] == a[index] && b[..index + 1][|b[..index + 1]| - 1] == b[index];
        lower := a[index] < b[index];
        break;
      }
      assert a[..index + 1][..index] == a[..index] && b[..index + 1][..index] == b[..index];
      index := index - 1;
    }
    ComparisonIsNumeric(a, b);
  }

  method SameUid(a: Uid, b: Uid) returns (same: bool)
    ensures same <==> a == b
  {
    same := true;
    for index := 0 to 6
      invariant same <==> a[..index] == b[..index]
    {
      assert a[..index + 1] == a[..index] + [a[index]] && b[..index + 1] == b[..index] + [b[index]];
      if a[index] != b[index] { same := false; }
    }
    assert a[..6] == a && b[..6] == b;
  }

  // ---------------------------------------------------------------- hashes

  method ComputeUidHash(uid: Uid) returns (hash: U32)
    ensures hash == UidHash(uid)
  {
    hide Xor32;
    hash := 2166136261;
    for index := 0 to |uid|
      invariant HashBytes(hash, uid[index..]) == UidHash(uid)
    {
      assert uid[index..][1..] == uid[index + 1..];
      hash := Xor32(hash, uid[index]) * 16777619 % WORD;
    }
  }

  method ComputeClaimInterval(uid: Uid) returns (interval: nat)
    ensures interval == ClaimInterval(uid)
  {
    hide UidHash;
    var hash := ComputeUidHash(uid);
    interval := 250 + hash % 251;
  }

  method ComputeClaimStartDelay(uid: Uid) returns (delay: nat)
    ensures delay == ClaimStartDelay(uid)
  {
    hide UidHash;
    var hash := ComputeUidHash(uid);
    delay := 1000 + hash % 1501;
  }

  method ComputeResponseDelay(uid: Uid, request: Bytes8) returns (delay: nat)
    requires U16At(request, 2) != 0
    ensures delay == ResponseDelay(uid, request) && delay < U16At(request, 2)
  {
    hide Xor32;
    var hash: U32 := U32At(request, 4);
    for index := 0 to |uid|
      invariant MixBytes(hash, uid[index..]) == MixBytes(U32At(request, 4), uid)
    {
      assert uid[index..][1..] == uid[index + 1..];
      hash := Xor32(hash * 33 % WORD, uid[index]);
    }
    delay := hash % U16At(request, 2);
  }

  // ---------------------------------------------------------------- a long start delay

  lemma {:induction false} XorZero(k: nat, a: nat)
    requires a < Pow2(k)
    ensures Xor(k, a, 0) == a
  {
    if k > 0 { XorZero(k - 1, a / 2); }
  }

  lemma PowersOfTwo()
    ensures Pow2(28) == 0x1000_0000 && Pow2(32) == WORD
  {
    assert Pow2(8) == 0x100;
    assert Pow2(16) == 0x1_0000 by { assert Pow2(12) == 0x1000; }
    assert Pow2(24) == 0x100_0000 by { assert Pow2(20) == 0x10_0000; }
  }

  /** The hash of `k` zero bytes. */
  function Multiplied(hash: U32, k: nat): U32
    decreases k
  {
    if k == 0 then hash else Multiplied(hash * 16777619 % WORD, k - 1)
  }

  lemma {:induction false} HashZeros(hash: U32, zeros: seq<Byte>)
    requires forall i :: 0 <= i < |zeros| ==> zeros[i] == 0
    ensures HashBytes(hash, zeros) == Multiplied(hash, |zeros|)
    decreases |zeros|
  {
    hide Xor32;
    if zeros != [] {
      XorZero32(hash);
      HashZeros(hash * 16777619 % WORD, zeros[1..]);
    }
  }

  lemma XorZero32(a: U32)
    ensures Xor32(a, 0) == a
  {
    PowersOfTwo();
    XorZero(32, a);
  }

  lemma XorTwelve()
    ensures Xor32(2166136261, 12) == 2166136265
  {
    PowersOfTwo();
    XorZero(28, 135383516);
    assert Xor(29, 270767032, 1) == 270767033;
    assert Xor(30, 541534065, 3) == 541534066;
    assert Xor(31, 1083068130, 6) == 1083068132;
    assert Xor(32, 2166136261, 12) == 2166136265;
  }

  lemma WhatIsLeft(product: nat, wraps: nat, left: U32)
    requires product == wraps * WORD + left
    ensures product % WORD == left
  {
  }

  lemma {:induction false} HashTwelve(rest: seq<Byte>)
    ensures HashBytes(2166136261, [12] + rest) == HashBytes(151806827, rest)
  {
    var bytes := [12] + rest;
    assert bytes[0] == 12 && bytes[1..] == rest;
    hide Xor32;
    XorTwelve();
    WhatIsLeft(2166136265 * 16777619, 8461673, 151806827);
    HashNext(2166136261, bytes, 151806827);
  }

  lemma {:induction false} HashNext(hash: U32, bytes: seq<Byte>, left: U32)
    requires bytes != [] && Xor32(hash, bytes[0]) * 16777619 % WORD == left
    ensures HashBytes(hash, bytes) == HashBytes(left, bytes[1..])
  {
    hide Xor32;
  }

  lemma OneTime(hash: U32, k: nat, wraps: nat, left: U32)
    requires k > 0 && hash * 16777619 == wraps * WORD + left
    ensures Multiplied(hash, k) == Multiplied(left, k - 1)
  {
    WhatIsLeft(hash * 16777619, wraps, left);
  }

  lemma FiveTimes()
    ensures Multiplied(151806827, 5) == 1892640641
  {
    OneTime(151806827, 5, 593009, 2843771249);
    OneTime(2843771249, 4, 11108748, 1179370723);
    OneTime(1179370723, 3, 4607027, 2353459545);
    OneTime(2353459545, 2, 9193422, 749596443);
    OneTime(749596443, 1, 2928181, 1892640641);
  }

  /** The node with this UID claims its address later than two seconds after its first tick. */
  lemma LateClaimer()
    ensures ClaimStartDelay([12, 0, 0, 0, 0, 0]) == 2222 && ClaimInterval([12, 0, 0, 0, 0, 0]) == 491
  {
    hide HashBytes, Multiplied;
    var zeros: seq<Byte> := [0, 0, 0, 0, 0];
    assert [12] + zeros == [12, 0, 0, 0, 0, 0];
    HashTwelve(zeros);
    HashZeros(151806827, zeros);
    FiveTimes();
  }

  // ---------------------------------------------------------------- a response delay

  /** The mixing of `k` zero bytes. */
  function Mixed(hash: U32, k: nat): U32
    decreases k
  {
    if k == 0 then hash else Mixed(hash * 33 % WORD, k - 1)
  }

  lemma {:induction false} MixZeros(hash: U32, zeros: seq<Byte>)
    requires forall i :: 0 <= i < |zeros| ==> zeros[i] == 0
    ensures MixBytes(hash, zeros) == Mixed(hash, |zeros|)
    decreases |zeros|
  {
    hide Xor32;
    if zeros != [] {
      XorZero32(hash * 33 % WORD);
      MixZeros(hash * 33 % WORD, zeros[1..]);
    }
  }

  lemma MixOnce(hash: U32, k: nat, left: U32)
    requires k > 0 && hash * 33 == left
    ensures Mixed(hash, k) == Mixed(left, k - 1)
  {
  }

  lemma SixTimes()
    ensures Mixed(1, 6) == 1291467969
  {
    MixOnce(1, 6, 33);
    MixOnce(33, 5, 1089);
    MixOnce(1089, 4, 35937);
    MixOnce(35937, 3, 1185921);
    MixOnce(1185921, 2, 39135393);
    MixOnce(39135393, 1, 1291467969);
  }

  /** Challenge 1 in a window of a second: the node with UID zero answers after 969 ms. */
  lemma SomeResponseDelay()
    ensures ResponseDelay([0, 0, 0, 0, 0, 0], [7, 2, 0xE8, 3, 1, 0, 0, 0]) == 969
  {
    hide MixBytes, Mixed;
    var zeros: seq<Byte> := [0, 0, 0, 0, 0, 0];
    var request: Bytes8 := [7, 2, 0xE8, 3, 1, 0, 0, 0];
    assert U32At(request, 4) == 1 && U16At(request, 2) == 1000;
    MixZeros(1, zeros);
    SixTimes();
  }
}
