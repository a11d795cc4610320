/** The reassembly queue: a circular buffer and a bitmap indexed by sequence numbers modulo 2^32. */
module TcpReasm {
  import opened Bytes

  const WIN: nat := 8192
  /** Sequence numbers wrap here (section 3.3 of RFC 793). */
  const M: int := 0x1_0000_0000

  function Seq(x: int): nat { x % M }

  /** (int32_t)(s - base). */
  function Signed(x: int): int {
    var u := x % M;
    if u < 0x8000_0000 then u else u - M
  }

  lemma OffsetIs(a: int, b: int)
    requires -0x8000_0000 <= a - b < 0x8000_0000
    ensures Signed(Seq(a) - Seq(b)) == a - b
  {
    var i, j := a / M, b / M;
    assert Seq(a) - Seq(b) == (a - b) - (i - j) * M;
    Multiple(a - b, i - j);
  }

  lemma {:induction false} Multiple(x: int, k: int)
    ensures (x - k * M) % M == x % M
    decreases if k < 0 then -k else k
  {
    if k > 0 { Multiple(x, k - 1); } else if k < 0 { Multiple(x, k + 1); }
  }

  function Slot(s: int): nat { s % WIN }

  lemma SlotOfSeq(x: int)
    ensures Slot(Seq(x)) == Slot(x)
  {
    SlotMultiple(x, x / M);
  }

  lemma {:induction false} SlotMultiple(x: int, k: int)
    ensures Slot(x - k * M) == Slot(x)
    decreases if k < 0 then -k else k
  {
    if k > 0 { SlotMultiple(x, k - 1); } else if k < 0 { SlotMultiple(x, k + 1); }
  }

  /** Positions of one window fall into different slots, one window further they meet again. */
  lemma SlotsDiffer(x: int, y: int)
    ensures 0 < x - y < WIN ==> Slot(x) != Slot(y)
    ensures x == y + WIN ==> Slot(x) == Slot(y)
  {
  }

  class Reasm {
    /** The sender's stream, and the sequence number of its first byte. */
    ghost const stream: nat -> Byte
    ghost const start: nat
    var base: nat
    const data: array<Byte>
    const present: array<Byte>
    /** Bytes handed out so far; positions accepted inside the window; those of them still held. */
    ghost var log: seq<Byte>
    ghost var accepted: set<nat>

    ghost predicate Shape()
      reads this
    {
      data.Length == WIN && present.Length == WIN / 8 && base == Seq(start + |log|)
    }

    /** What slot the byte at position p of the window occupies. */
    ghost predicate Stored(p: nat)
      requires Shape()
      reads this, data, present
    {
      && (BitAt(present[..], Slot(start + p)) <==> p in accepted)
      && (p in accepted ==> data[Slot(start + p)] == stream(p))
    }

    /** What was read is a prefix of the stream; the buffer holds exactly the accepted bytes of the
        window, each in its slot; everything in front of the window was accepted. */
    ghost predicate Valid()
      reads this, data, present
    {
      && Shape()
      && (forall i :: 0 <= i < |log| ==> log[i] == stream(i))
      && (forall p: nat :: |log| <= p < |log| + WIN ==> Stored(p))
      && (forall p: nat :: p < |log| ==> p in accepted)
      && (forall p :: p in accepted ==> p < |log| + WIN)
    }

    /** tcp_reasm_init. */
    constructor (rcvNxt: nat, ghost s: nat -> Byte)
      requires rcvNxt < M
      ensures Valid() && log == [] && accepted == {} && stream == s && start == rcvNxt && base == rcvNxt
      ensures data.Length == 8192 && present.Length == 1024
    {
      stream, start, base := s, rcvNxt, rcvNxt;
      data := new Byte[WIN](_ => 0);
      present := new Byte[WIN / 8](_ => 0);
      log, accepted := [], {};
      new;
      forall p: nat | |log| <= p < |log| + WIN ensures Stored(p) { NoBit(Slot(start + p) % 8); }
    }

    /** Positions of a piece that fall inside the window. */
    ghost predicate InWindow(at: int, n: nat, p: nat)
      reads this
    {
      |log| <= p < |log| + WIN && at <= p < at + n
    }

    /** tcp_reasm_accept of the stream's bytes from position at on: exactly those inside the window are
        taken, whatever was delivered before. */
    method Accept(seqno: nat, bytes: seq<Byte>, ghost at: int)
      requires Valid() && seqno == (start + at) % 0x1_0000_0000
      requires forall i :: 0 <= i < |bytes| ==> at + i >= 0 && bytes[i] == stream(at + i)
      requires -0x8000_0000 <= at - |log| && at + |bytes| - |log| <= 0x8000_0000
      modifies this`accepted, data, present
      ensures Valid() && log == old(log) && base == old(base)
      ensures forall p: nat :: p in accepted <==> p in old(accepted) || (|log| <= p < |log| + 8192 && at <= p < at + |bytes|)
    {
      assert seqno == Seq(start + at);
      hide Seq, Slot, Signed, Stored;
      for i := 0 to |bytes|
        invariant Valid() && log == old(log) && base == old(base)
        invariant forall p: nat :: p in accepted <==> p in old(accepted) || InWindow(at, i, p)
      {
        assert at + i >= 0 && bytes[i] == stream(at + i);
        var s := Seq(seqno + i);
        var off := Signed(s - base);
        ghost var p := at + i;
        SeqSum(start + at, i);
        OffsetIs(start + p, start + |log|);
        if off < 0 || off >= WIN { continue; }
        var slot := Slot(s);
        SlotOfSeq(start + p);
        Put(slot, bytes[i], p);
      }
    }

    /** One byte and its presence bit. */
    method Put(slot: nat, c: Byte, ghost p: nat)
      requires Valid() && slot == Slot(start + p) && |log| <= p < |log| + WIN && c == stream(p)
      modifies this`accepted, data, present
      ensures Valid() && log == old(log) && base == old(base) && accepted == old(accepted) + {p}
    {
      hide Seq;
      ghost var bits := present[..];
      data[slot] := c;
      present[slot / 8] := SetByteBit(present[slot / 8], slot % 8);
      SetAtBits(bits, slot);
      assert present[..] == SetAt(bits, slot);
      accepted := accepted + {p};
      hide Slot, BitAt, SetAt;
      forall q: nat | |log| <= q < |log| + WIN ensures Stored(q) {
        assert old(Stored(q));
        SlotsDiffer(start + p, start + q);
        SlotsDiffer(start + q, start + p);
      }
    }

    /** The front byte handed out: its slot is free for the byte one window further on. */
    method Pop() returns (c: Byte)
      requires Valid() && |log| in accepted
      modifies this`base, this`log, present
      ensures Valid() && log == old(log) + [c] && accepted == old(accepted)
    {
      var slot := Slot(base);
      SlotOfSeq(start + |log|);
      assert Stored(|log|);
      c := data[slot];
      ghost var bits := present[..];
      present[slot / 8] := ClearByteBit(present[slot / 8], slot % 8);
      ClearAtBits(bits, slot);
      assert present[..] == ClearAt(bits, slot);
      SeqSum(start + |log|, 1);
      base := Seq(base + 1);
      ghost var k := |log|;
      log := log + [c];
      hide Slot, BitAt, ClearAt, Seq;
      forall q: nat | |log| <= q < |log| + WIN ensures Stored(q) {
        assert q < k + WIN ==> old(Stored(q));
        SlotsDiffer(start + q, start + k);
      }
    }

    /** tcp_reasm_read: the next bytes in order; it stops short of max only at a byte that was never
        accepted inside the window. */
    method Read(max: nat) returns (out: seq<Byte>)
      requires Valid()
      modifies this`base, this`log, present
      ensures Valid() && log == old(log) + out && accepted == old(accepted) && |out| <= max
      ensures |out| < max ==> |log| !in accepted
      ensures base == (start + |log|) % 0x1_0000_0000 && forall i :: 0 <= i < |log| ==> log[i] == stream(i)
    {
      out := [];
      while |out| < max
        invariant Valid() && log == old(log) + out && accepted == old(accepted) && |out| <= max
        decreases max - |out|
      {
        var slot := Slot(base);
        SlotOfSeq(start + |log|);
        assert Stored(|log|);
        if !BitAt(present[..], slot) { return; }
        var c := Pop();
        out := out + [c];
      }
    }
  }

  lemma SeqSum(x: int, i: int)
    ensures Seq(Seq(x) + i) == Seq(x + i)
  {
    Multiple(x + i, x / M);
  }

  lemma {:induction false} NoBit(k: nat)
    ensures !Bit(0, k)
  {
    if k > 0 { NoBit(k - 1); }
  }
}
