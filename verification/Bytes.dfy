/** Bytes, and the fixed-width integers the databases store: little endian in snacl and the
    address manager's tip, big endian in the transaction store. */
module Bytes {
  import opened Wrappers
  import opened Arithmetic

  type byte = b: int | 0 <= b < 256

  function Zeros(n: nat): seq<byte> { seq(n, _ => 0) }

  /** 256 to the power k. */
  function Range(k: nat): nat {
    if k == 0 then 1 else 256 * Range(k - 1)
  }

  function LittleEndian(v: nat, k: nat): (s: seq<byte>)
    ensures |s| == k
  {
    if k == 0 then [] else [v % 256] + LittleEndian(v / 256, k - 1)
  }

  function FromLittleEndian(s: seq<byte>): nat {
    if s == [] then 0 else s[0] + 256 * FromLittleEndian(s[1..])
  }

  /** Writing k bytes and reading them back keeps the value modulo 256^k. */
  lemma {:induction false} LittleEndianRoundTrip(v: nat, k: nat)
    ensures v < Range(k) ==> FromLittleEndian(LittleEndian(v, k)) == v
    decreases k
  {
    if k > 0 {
      LittleEndianRoundTrip(v / 256, k - 1);
      assert LittleEndian(v, k)[1..] == LittleEndian(v / 256, k - 1);
    }
  }

  function BigEndian(v: nat, k: nat): (s: seq<byte>)
    ensures |s| == k
  {
    if k == 0 then [] else BigEndian(v / 256, k - 1) + [v % 256]
  }

  function FromBigEndian(s: seq<byte>): nat {
    if s == [] then 0 else 256 * FromBigEndian(s[..|s| - 1]) + s[|s| - 1]
  }

  lemma {:induction false} BigEndianModulo(v: nat, k: nat)
    ensures Range(k) > 0
    ensures FromBigEndian(BigEndian(v, k)) == v % Range(k)
    decreases k
  {
    if k > 0 {
      BigEndianModulo(v / 256, k - 1);
      assert BigEndian(v, k)[..k - 1] == BigEndian(v / 256, k - 1);
      DigitsModulo(v, Range(k - 1));
    }
  }

  lemma DigitsModulo(v: nat, m: nat)
    requires m > 0
    ensures 256 * ((v / 256) % m) + v % 256 == v % (256 * m)
  {
    var q, r := v / 256 / m, v / 256 % m;
    assert v == q * (256 * m) + (256 * r + v % 256) by {
      assert v / 256 == q * m + r;
      assert 256 * (q * m) == q * (256 * m);
    }
    assert 0 <= 256 * r + v % 256 < 256 * m;
    DivisionUnique(v, 256 * m, q, 256 * r + v % 256);
  }

  lemma BigEndianRoundTrip(v: nat, k: nat)
    ensures v < Range(k) ==> FromBigEndian(BigEndian(v, k)) == v
  {
    BigEndianModulo(v, k);
    if v < Range(k) {
      DivisionUnique(v, Range(k), 0, v);
    }
  }

  lemma {:induction false} RangePositive(k: nat)
    ensures Range(k) > 0
  {
    if k > 0 {
      RangePositive(k - 1);
    }
  }

  /** Byte i of a little-endian integer is its digit i to the base 256. */
  lemma {:induction false} LittleEndianDigit(v: nat, k: nat, i: nat)
    requires i < k
    ensures Range(i) > 0 && LittleEndian(v, k)[i] == v / Range(i) % 256
    decreases i
  {
    RangePositive(i);
    if i > 0 {
      LittleEndianDigit(v / 256, k - 1, i - 1);
      DivideTwice(v, 256, Range(i - 1));
    }
  }

  /** Byte i of a big-endian one is its digit i from the other end. */
  lemma {:induction false} BigEndianDigit(v: nat, k: nat, i: nat)
    requires i < k
    ensures Range(k - 1 - i) > 0 && BigEndian(v, k)[i] == v / Range(k - 1 - i) % 256
    decreases k
  {
    RangePositive(k - 1 - i);
    if i < k - 1 {
      BigEndianDigit(v / 256, k - 1, i);
      DivideTwice(v, 256, Range(k - 2 - i));
    }
  }

  lemma RangeValues()
    ensures Range(1) == 0x100 && Range(2) == 0x1_0000 && Range(4) == 0x1_0000_0000
    ensures Range(8) == 0x1_0000_0000_0000_0000
  {
    assert Range(3) == 0x100_0000;
    assert Range(5) == 0x100_0000_0000;
    assert Range(6) == 0x1_0000_0000_0000;
    assert Range(7) == 0x100_0000_0000_0000;
  }

  /** Copies `data` into the buffer at `offset`, leaving the rest alone. */
  method CopyAt(buffer: array<byte>, offset: nat, data: seq<byte>)
    requires offset + |data| <= buffer.Length
    modifies buffer
    ensures buffer[..offset] == old(buffer[..offset])
    ensures buffer[offset..offset + |data|] == data
    ensures buffer[offset + |data|..] == old(buffer[offset + |data|..])
  {
    var i := 0;
    while i < |data|
      invariant 0 <= i <= |data|
      invariant buffer[..offset] == old(buffer[..offset])
      invariant forall k :: 0 <= k < i ==> buffer[offset + k] == data[k]
      invariant forall k :: offset + |data| <= k < buffer.Length ==> buffer[k] == old(buffer[k])
    {
      buffer[offset + i] := data[i];
      i := i + 1;
    }
  }

  /** Appends to the part of the buffer already filled. */
  method Fill(buffer: array<byte>, offset: nat, data: seq<byte>) returns (next: nat)
    requires offset + |data| <= buffer.Length
    modifies buffer
    ensures next == offset + |data|
    ensures buffer[..next] == old(buffer[..offset]) + data
  {
    CopyAt(buffer, offset, data);
    next := offset + |data|;
    assert buffer[..next] == buffer[..offset] + buffer[offset..next];
  }

  // ----- the two's complement of Go's int -----

  const TWO63: int := 0x8000_0000_0000_0000
  const TWO64: int := 0x1_0000_0000_0000_0000

  predicate IsInt64(v: int) { -TWO63 <= v < TWO63 }

  function ToUint64(v: int): nat { v % TWO64 }

  function ToInt64(u: nat): int { if u % TWO64 < TWO63 then u % TWO64 else u % TWO64 - TWO64 }

  lemma Int64RoundTrip(v: int)
    requires IsInt64(v)
    ensures ToInt64(ToUint64(v)) == v && ToUint64(v) < Range(8)
  {
    RangeValues();
  }
}
