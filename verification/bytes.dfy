/** Bytes, little-endian fields and bitmaps, shared by the disk and network models. */
module Bytes {
  type Byte = x: int | 0 <= x < 256

  // ----- single bits -----

  /** Bit k of v: v & (1 << k). */
  predicate Bit(v: nat, k: nat)
  {
    if k == 0 then v % 2 == 1 else Bit(v / 2, k - 1)
  }

  /** v | (1 << k) */
  function SetBit(v: nat, k: nat): nat
  {
    if k == 0 then v / 2 * 2 + 1 else SetBit(v / 2, k - 1) * 2 + v % 2
  }

  /** v & ~(1 << k) */
  function ClearBit(v: nat, k: nat): nat
  {
    if k == 0 then v / 2 * 2 else ClearBit(v / 2, k - 1) * 2 + v % 2
  }

  lemma {:induction false} SetBitBits(v: nat, k: nat, j: nat)
    ensures Bit(SetBit(v, k), j) == (j == k || Bit(v, j))
  {
    if k > 0 && j > 0 {
      SetBitBits(v / 2, k - 1, j - 1);
    }
  }

  lemma {:induction false} ClearBitBits(v: nat, k: nat, j: nat)
    ensures Bit(ClearBit(v, k), j) == (j != k && Bit(v, j))
  {
    if k > 0 && j > 0 {
      ClearBitBits(v / 2, k - 1, j - 1);
    }
  }

  /** Changing a bit below position n keeps the value inside n bits; n == 8 is a byte. */
  function Width(n: nat): nat
  {
    if n == 0 then 1 else 2 * Width(n - 1)
  }

  lemma {:induction false} BitWidth(v: nat, k: nat, n: nat)
    requires k < n && v < Width(n)
    ensures SetBit(v, k) < Width(n) && ClearBit(v, k) < Width(n)
  {
    if k > 0 {
      BitWidth(v / 2, k - 1, n - 1);
    }
  }

  function SetByteBit(v: Byte, k: nat): Byte
    requires k < 8
  {
    BitWidth(v, k, 8);
    SetBit(v, k)
  }

  function ClearByteBit(v: Byte, k: nat): Byte
    requires k < 8
  {
    BitWidth(v, k, 8);
    ClearBit(v, k)
  }

  // ----- bitmaps: bit i lives in byte i/8 under mask 1 << (i%8) -----

  predicate BitAt(bm: seq<Byte>, i: nat)
    requires i < 8 * |bm|
  {
    Bit(bm[i / 8], i % 8)
  }

  function SetAt(bm: seq<Byte>, i: nat): (r: seq<Byte>)
    requires i < 8 * |bm|
    ensures |r| == |bm|
  {
    bm[i / 8 := SetByteBit(bm[i / 8], i % 8)]
  }

  function ClearAt(bm: seq<Byte>, i: nat): (r: seq<Byte>)
    requires i < 8 * |bm|
    ensures |r| == |bm|
  {
    bm[i / 8 := ClearByteBit(bm[i / 8], i % 8)]
  }

  lemma SetAtBits(bm: seq<Byte>, i: nat)
    requires i < 8 * |bm|
    ensures forall j: nat :: j < 8 * |bm| ==> BitAt(SetAt(bm, i), j) == (j == i || BitAt(bm, j))
  {
    forall j: nat | j < 8 * |bm|
      ensures BitAt(SetAt(bm, i), j) == (j == i || BitAt(bm, j))
    {
      if j / 8 == i / 8 {
        SetBitBits(bm[i / 8], i % 8, j % 8);
      }
    }
  }

  lemma ClearAtBits(bm: seq<Byte>, i: nat)
    requires i < 8 * |bm|
    ensures forall j: nat :: j < 8 * |bm| ==> BitAt(ClearAt(bm, i), j) == (j != i && BitAt(bm, j))
  {
    forall j: nat | j < 8 * |bm|
      ensures BitAt(ClearAt(bm, i), j) == (j != i && BitAt(bm, j))
    {
      if j / 8 == i / 8 {
        ClearBitBits(bm[i / 8], i % 8, j % 8);
      }
    }
  }

  // ----- little-endian fields -----

  function Le16(s: seq<Byte>, o: nat): nat
    requires o + 2 <= |s|
  {
    s[o] as int + 0x100 * (s[o + 1] as int)
  }

  function PutLe16(s: seq<Byte>, o: nat, v: nat): (r: seq<Byte>)
    requires o + 2 <= |s| && v < 0x1_0000
    ensures |r| == |s| && Le16(r, o) == v
    ensures forall k :: 0 <= k < |s| && !(o <= k < o + 2) ==> r[k] == s[k]
  {
    s[o := v % 0x100][o + 1 := v / 0x100]
  }

  function Le32(s: seq<Byte>, o: nat): (v: nat)
    requires o + 4 <= |s|
    ensures v < 0x1_0000_0000
  {
    s[o] as int + 0x100 * (s[o + 1] as int) + 0x1_0000 * (s[o + 2] as int) + 0x100_0000 * (s[o + 3] as int)
  }

  function PutLe32(s: seq<Byte>, o: nat, v: nat): (r: seq<Byte>)
    requires o + 4 <= |s| && v < 0x1_0000_0000
    ensures |r| == |s| && Le32(r, o) == v
    ensures forall k :: 0 <= k < |s| && !(o <= k < o + 4) ==> r[k] == s[k]
  {
    var v1 := v / 0x100;
    var v2 := v1 / 0x100;
    s[o := v % 0x100][o + 1 := v1 % 0x100][o + 2 := v2 % 0x100][o + 3 := v2 / 0x100]
  }
}
