/** The decoder's bit reader: a byte pointer and the number of unread bits in that byte. */
module BitReading {
  import opened BitStrings

  /** The word the reader assembles from the bytes ending at index `w`, shifted right by `c`;
      it looks at two, four or five bytes depending on how many bits are wanted. */
  function Assemble(data: seq<Byte>, w: nat, c: nat, nb: nat): nat
    requires c < 8 && nb <= 31 && 1 <= w < |data|
    requires nb + c > 16 ==> w >= 3
    requires nb > 24 && c != 0 ==> w >= 4
  {
    var low := Shr(data[w] as nat + 0x100 * data[w - 1] as nat, c);
    if nb <= 16 - c then low
    else
      var mid := low + Shr(0x1_0000 * data[w - 2] as nat + 0x100_0000 * data[w - 3] as nat, c);
      if nb > 24 && c != 0 then Low(mid + Shl(data[w - 4] as nat, 32 - c), 32) else mid
  }

  lemma TwoBytes(data: seq<Byte>, w: nat)
    requires 1 <= w < |data|
    ensures BytesVal(data[w - 1..w + 1]) == data[w] as nat + 0x100 * data[w - 1] as nat
  {
    hide BytesVal;
    assert data[w - 1..w + 1] == ([] + [data[w - 1]]) + [data[w]];
    EmptyVal();
    BytesValSnoc([], data[w - 1]);
    BytesValSnoc([] + [data[w - 1]], data[w]);
  }

  lemma EmptyVal()
    ensures BytesVal([]) == 0
  {}

  lemma FourBytes(data: seq<Byte>, w: nat)
    requires 3 <= w < |data|
    ensures BytesVal(data[w - 3..w + 1])
         == data[w] as nat + 0x100 * data[w - 1] as nat + 0x1_0000 * (data[w - 2] as nat + 0x100 * data[w - 3] as nat)
  {
    hide BytesVal;
    TwoBytes(data, w - 2);
    var a := data[w - 3..w - 1];
    assert data[w - 3..w + 1] == (a + [data[w - 1]]) + [data[w]];
    BytesValSnoc(a, data[w - 1]);
    BytesValSnoc(a + [data[w - 1]], data[w]);
  }

  lemma FiveBytes(data: seq<Byte>, w: nat)
    requires 4 <= w < |data|
    ensures BytesVal(data[w - 4..w + 1]) == BytesVal(data[w - 3..w + 1]) + Shl(data[w - 4] as nat, 32)
  {
    hide Val, BytesToBits, Enc, Shl, Low;
    var b := data[w - 4];
    assert data[w - 4..w + 1] == [b] + data[w - 3..w + 1];
    BytesConcat([b], data[w - 3..w + 1]);
    ValConcat(BytesToBits([b]), BytesToBits(data[w - 3..w + 1]));
    OneByte(b);
    ValEnc(b as nat, 8);
    Pow2Facts();
    LowId(b as nat, 8);
  }

  /** A field of `nb` bits lying `c` bits above the end of the bytes `first..last`. */
  lemma FieldAt(data: seq<Byte>, first: nat, last: nat, c: nat, nb: nat, at: nat)
    requires first <= last <= |data| && nb + c <= 8 * (last - first) && at + nb == 8 * last - c
    ensures Val(BytesToBits(data)[at..at + nb])
         == Low(Shr(Val(BytesToBits(data[first..last])), c), nb)
  {
    hide *;
    var all, b := BytesToBits(data), BytesToBits(data[first..last]);
    var i, j := |b| - c - nb, |b| - c;
    assert b == all[8 * first..8 * last] by { BytesSlice(data, first, last); }
    assert b[i..j] == all[at..at + nb] by { SliceSlice(all, 8 * first, 8 * last, i, j); }
    ValSlice(b, i, j);
  }

  lemma AssembleFour(data: seq<Byte>, w: nat, c: nat)
    requires 3 <= w < |data| && c < 8
    ensures Shr(data[w] as nat + 0x100 * data[w - 1] as nat, c)
            + Shr(0x1_0000 * data[w - 2] as nat + 0x100_0000 * data[w - 3] as nat, c)
         == Shr(BytesVal(data[w - 3..w + 1]), c)
  {
    hide Shr, Shl, BytesVal;
    var lo: nat := data[w] as nat + 0x100 * data[w - 1] as nat;
    var hi: nat := data[w - 2] as nat + 0x100 * data[w - 3] as nat;
    FourBytes(data, w);
    Shl16(hi);
    ShrSplit(lo, hi, 16, c);
    ShrSplit(0, hi, 16, c);
    ShrZero(c);
  }

  lemma {:induction false} ShrZero(c: nat)
    ensures Shr(0, c) == 0
  {
    if c != 0 { ShrZero(c - 1); }
  }

  function Field(data: seq<Byte>, w: nat, c: nat, nb: nat): nat
    requires c < 8 && nb <= 31 && 1 <= w < |data|
    requires nb + c > 16 ==> w >= 3
    requires nb > 24 && c != 0 ==> w >= 4
  {
    Low(Assemble(data, w, c, nb), nb)
  }

  lemma FieldShort(data: seq<Byte>, w: nat, c: nat, nb: nat)
    requires c < 8 && 1 <= w < |data| && nb + c <= 16
    ensures Field(data, w, c, nb) == Low(Shr(BytesVal(data[w - 1..w + 1]), c), nb)
  {
    hide Low, Shr, BytesVal;
    TwoBytes(data, w);
  }

  lemma FieldMiddle(data: seq<Byte>, w: nat, c: nat, nb: nat)
    requires c < 8 && nb <= 31 && 3 <= w < |data| && nb + c > 16 && !(nb > 24 && c != 0)
    ensures Field(data, w, c, nb) == Low(Shr(BytesVal(data[w - 3..w + 1]), c), nb)
  {
    hide Low, Shr, BytesVal;
    AssembleFour(data, w, c);
  }

  lemma FieldLong(data: seq<Byte>, w: nat, c: nat, nb: nat)
    requires 0 < c < 8 && 24 < nb <= 31 && 4 <= w < |data|
    ensures Field(data, w, c, nb) == Low(Shr(BytesVal(data[w - 4..w + 1]), c), nb)
  {
    hide Low, Shr, Shl, BytesVal;
    AssembleFour(data, w, c);
    FiveBytes(data, w);
    ShrSplit(BytesVal(data[w - 3..w + 1]), data[w - 4] as nat, 32, c);
    LowLow(Shr(BytesVal(data[w - 4..w + 1]), c), 32, nb);
  }

  /** Whatever the alignment, the assembled word masked to `nb` bits is the field. */
  lemma FieldReads(data: seq<Byte>, w: nat, c: nat, nb: nat, at: nat)
    requires c < 8 && nb <= 31 && 1 <= w < |data|
    requires nb + c > 16 ==> w >= 3
    requires nb > 24 && c != 0 ==> w >= 4
    requires at + nb == 8 * w + 8 - c
    ensures Field(data, w, c, nb) == Val(BytesToBits(data)[at..at + nb])
  {
    hide Field, Low, Shr, Val, BytesToBits;
    if nb + c <= 16 {
      FieldShort(data, w, c, nb);
      FieldAt(data, w - 1, w + 1, c, nb, at);
    } else if nb > 24 && c != 0 {
      FieldLong(data, w, c, nb);
      FieldAt(data, w - 4, w + 1, c, nb, at);
    } else {
      FieldMiddle(data, w, c, nb);
      FieldAt(data, w - 3, w + 1, c, nb, at);
    }
  }

  class BitReader {
    const data: seq<Byte>
    var pos: int     // current byte
    var count: int   // unread bits in it, 8 before the byte is touched

    /** Index of the next unread bit. */
    function At(): int
      reads this
    {
      8 * pos + 8 - count
    }

    /** At least four readable bytes precede the current one. */
    ghost predicate Valid()
      reads this
    {
      0 <= count <= 8 && 32 <= At() <= 8 * |data|
    }

    ghost function Remaining(): (b: Bits)
      requires Valid()
      reads this
      ensures |b| == 8 * |data| - At()
    {
      BytesToBits(data)[At()..]
    }

    constructor (data: seq<Byte>, start: nat)
      requires 4 <= start <= |data|
      ensures Valid() && this.data == data && pos == start && count == 8
      ensures Remaining() == BytesToBits(data[start..])
    {
      hide BytesToBits;
      this.data, pos, count := data, start, 8;
      BytesSlice(data, start, |data|);
      assert data[start..|data|] == data[start..];
      assert BytesToBits(data)[8 * start..8 * |data|] == BytesToBits(data)[8 * start..];
    }

    /** Wherever a reader over the same bytes stood. */
    constructor Resume(data: seq<Byte>, pos: int, count: int)
      requires 0 <= count <= 8 && 32 <= 8 * pos + 8 - count <= 8 * |data|
      ensures Valid() && this.data == data && this.pos == pos && this.count == count
    {
      this.data, this.pos, this.count := data, pos, count;
    }

    /** Reads `nb` bits, most significant first. */
    method Read(nb: nat) returns (ret: nat)
      requires Valid() && nb <= 31 && nb <= |Remaining()|
      modifies this`pos, this`count
      ensures Valid() && count < 8
      ensures ret == Val(old(Remaining())[..nb])
      ensures Remaining() == old(Remaining())[nb..]
    {
      hide Val, BytesToBits, Field;
      ghost var all, p := BytesToBits(data), At();
      pos, count := pos - (count - nb) / 8, (count - nb) % 8;
      DropTake(all, p, nb);
      DropDrop(all, p, nb);
      FieldReads(data, pos, count, nb, p);
      ret := Field(data, pos, count, nb);
    }

    /** Drops the unread bits of a byte already touched. */
    method Align()
      requires Valid()
      modifies this`count
      ensures Valid() && At() == old(At()) + old(count) % 8 && At() % 8 == 0
      ensures Remaining() == old(Remaining())[old(count) % 8..]
    {
      hide BytesToBits;
      DropDrop(BytesToBits(data), At(), count % 8);
      count := if count == 8 then 8 else 0;
    }
  }
}
