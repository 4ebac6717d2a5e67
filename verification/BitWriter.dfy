/** The encoder's bit packer: a 32-bit accumulator in front of a byte buffer. */
module BitWriting {
  import opened BitStrings

  /** `(buff << n) | low` in a 32-bit register, for a `low` that fits the `n` cleared bits. */
  function ShlOr(buff: nat, n: nat, low: nat): nat { Low(low + Shl(buff, n), 32) }

  /** Whatever the register carried above its `c` pending bits is lost, and only that. */
  lemma ShlOrAppends(buff: nat, c: nat, n: nat, low: nat)
    requires low < Pow2(n) && c + n <= 32
    ensures Enc(ShlOr(buff, n, low), c + n) == Enc(buff, c) + Enc(low, n)
  {
    EncShiftIn(buff, low, c, n);
    EncLow(low + Shl(buff, n), 32, c + n);
  }

  /** `(mpc_uint8_t)(buff >> c)`. */
  function ByteAt(buff: nat, c: nat): Byte { (Shr(buff, c) % 256) as Byte }

  lemma ByteAtBits(v: nat)
    ensures v % 256 == Low(v, 8)
  {
    hide Low, Shl, Shr, Pow2;
    Pow2Facts();
    Recompose(v, 8);
    Shl8(Shr(v, 8));
  }

  /** Moving a byte out of the accumulator moves its eight bits, in order. */
  lemma ByteMoves(head: seq<Byte>, buff: nat, c: nat)
    ensures BytesToBits(head) + Enc(buff, c + 8) == BytesToBits(head + [ByteAt(buff, c)]) + Enc(buff, c)
  {
    hide Enc, BytesToBits, Low, Shr;
    EncSplit(buff, 8, c);
    ByteAtBits(Shr(buff, c));
    EncLow(Shr(buff, c), 8, 8);
    OneByte(ByteAt(buff, c));
    BytesConcat(head, [ByteAt(buff, c)]);
    Assoc(BytesToBits(head), Enc(Shr(buff, c), 8), Enc(buff, c));
  }

  class BitWriter {
    var buffer: array<Byte>
    var pos: nat         // next free byte
    var bitsCount: nat   // pending bits
    var bitsBuff: nat    // the pending bits, below any leftovers
    var outputBits: nat  // all bits ever written

    ghost predicate Valid()
      reads this
    {
      pos <= buffer.Length && bitsCount <= 32
    }

    /** Everything written since the buffer was last emptied. */
    ghost function Contents(): (b: Bits)
      requires Valid()
      reads this, buffer
      ensures |b| == 8 * pos + bitsCount
    {
      BytesToBits(buffer[..pos]) + Enc(bitsBuff, bitsCount)
    }

    /** Space left, in bits. */
    ghost function Free(): int
      reads this
    {
      8 * buffer.Length - 8 * pos - bitsCount
    }

    constructor (capacity: nat)
      ensures Valid() && fresh(buffer) && buffer.Length == capacity
      ensures Contents() == [] && outputBits == 0 && Free() == 8 * capacity
    {
      buffer := new Byte[capacity];
      pos, bitsCount, bitsBuff, outputBits := 0, 0, 0, 0;
    }

    /** Moves whole bytes from the accumulator to the buffer. */
    method EmptyBits()
      requires Valid() && Free() >= 0
      modifies this`pos, this`bitsCount, buffer
      ensures Valid() && Contents() == old(Contents())
      ensures bitsCount == old(bitsCount) % 8
    {
      hide BytesToBits, Enc, ByteAt, Pow2;
      while bitsCount >= 8
        invariant Valid() && Free() >= 0
        invariant Contents() == old(Contents())
        invariant bitsCount % 8 == old(bitsCount) % 8
      {
        ghost var head := buffer[..pos];
        ByteMoves(head, bitsBuff, bitsCount - 8);
        bitsCount := bitsCount - 8;
        buffer[pos] := ByteAt(bitsBuff, bitsCount);
        pos := pos + 1;
        assert buffer[..pos] == head + [ByteAt(bitsBuff, bitsCount)];
      }
    }

    /** `(bitsBuff << n) | low`, with the count moved along. */
    method ShiftIn(low: nat, n: nat)
      requires Valid() && low < Pow2(n) && bitsCount + n <= 32
      modifies this`bitsBuff, this`bitsCount
      ensures Valid() && Contents() == old(Contents()) + Enc(low, n)
      ensures bitsCount == old(bitsCount) + n
    {
      hide BytesToBits, Enc, ShlOr, Pow2;
      ShlOrAppends(bitsBuff, bitsCount, n, low);
      Assoc(BytesToBits(buffer[..pos]), Enc(bitsBuff, bitsCount), Enc(low, n));
      bitsBuff := ShlOr(bitsBuff, n, low);
      bitsCount := bitsCount + n;
    }

    /** Appends the `bits` low bits of `input`. */
    method WriteBits(input: nat, bits: nat)
      requires Valid() && Free() >= bits && bits <= 31 && input < Pow2(bits)
      modifies this`pos, this`bitsCount, this`bitsBuff, this`outputBits, buffer
      ensures Valid() && Contents() == old(Contents()) + Enc(input, bits)
      ensures Free() == old(Free()) - bits
      ensures outputBits == old(outputBits) + bits
    {
      hide BytesToBits, Enc, Shr, Low, Pow2;
      outputBits := outputBits + bits;
      var rest, low := bits, input;
      ghost var start := Contents();
      if bitsCount + bits > 32 {
        var tmp := 32 - bitsCount;
        rest := bits - tmp;
        ShrBound(input, tmp, rest);
        EncSplit(input, tmp, rest);
        EncLow(input, rest, rest);
        ShiftIn(Shr(input, rest), tmp);
        EmptyBits();
        low := Low(input, rest);
        Assoc(start, Enc(Shr(input, rest), tmp), Enc(low, rest));
      }
      ShiftIn(low, rest);
    }
  }
}
