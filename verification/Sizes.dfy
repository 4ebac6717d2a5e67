/** Base-128 sizes, and the block headers that carry their own length. */
module Sizes {
  import opened BitStrings
  import opened BitReading
  import opened Integers

  /** `1ull << (7 * i)`. */
  function Pow128(i: nat): (p: nat)
    ensures p >= 1
  {
    if i == 0 then 1 else 128 * Pow128(i - 1)
  }

  /** `i` base-128 digits of `v`, all marked as continued. */
  function Head(v: nat, i: nat): (s: seq<Byte>)
    ensures |s| == i
  {
    if i == 0 then [] else Head(v / 128, i - 1) + [(128 + v % 128) as Byte]
  }

  /** `i` base-128 digits of `v`, the last one unmarked. */
  function SizeBytes(v: nat, i: nat): (s: seq<Byte>)
    requires i >= 1
    ensures |s| == i
  {
    Head(v / 128, i - 1) + [(v % 128) as Byte]
  }

  /** `size`, plus its own encoded length when `add`, takes at most `i` digits. */
  ghost predicate Fits(size: nat, add: bool, i: nat)
  {
    size + (if add then i else 0) < Pow128(i)
  }

  /** The first length from `i` on that fits. */
  ghost function FirstFit(size: nat, add: bool, i: nat): (len: nat)
    requires 1 <= i <= 9 && Fits(size, add, 9)
    ensures i <= len <= 9 && Fits(size, add, len)
    ensures forall j :: i <= j < len ==> !Fits(size, add, j)
    decreases 9 - i
  {
    if Fits(size, add, i) then i else FirstFit(size, add, i + 1)
  }

  ghost function SizeLen(size: nat, add: bool): nat
    requires Fits(size, add, 9)
  {
    FirstFit(size, add, 1)
  }

  /** The bytes `encodeSize` produces. */
  ghost function SizeCode(size: nat, add: bool): seq<Byte>
    requires Fits(size, add, 9)
  {
    var i := SizeLen(size, add);
    SizeBytes(size + (if add then i else 0), i)
  }

  /** `mpc_bits_get_size`: the size, modulo 2^64, and the number of bytes it took. */
  function SizeDec(s: Bits, acc: nat, n: nat): Parsed<(nat, nat)>
    decreases |s|
  {
    var (tmp, s1) :- Take(s, 8);
    var size := (128 * acc + tmp % 128) % 0x1_0000_0000_0000_0000;
    if tmp >= 128 then SizeDec(s1, size, n + 1) else Got((size, n + 1), s1)
  }

  lemma TakeByte(b: Byte, rest: Bits)
    ensures Take(BytesToBits([b]) + rest, 8) == Got(b as nat, rest)
  {
    hide *;
    OneByte(b);
    Pow2Facts();
    TakeEnc(b as nat, 8, rest);
  }

  /** Reading continued digits accumulates exactly the number they spell. */
  lemma {:induction false} HeadDec(v: nat, i: nat, n: nat, rest: Bits)
    requires v < Pow128(i) && v < 0x1_0000_0000_0000_0000
    ensures SizeDec(BytesToBits(Head(v, i)) + rest, 0, n) == SizeDec(rest, v, n + i)
  {
    hide *;
    HeadNone(v, rest);
    if i != 0 {
      var w, b := v / 128, (128 + v % 128) as Byte;
      var tail := BytesToBits([b]) + rest;
      HeadSplit(v, i, rest);
      Pow128Div(v, i);
      HeadDec(w, i - 1, n, tail);
      HeadDigit(w, v % 128, n + i - 1, rest);
    }
  }

  lemma Pow128Div(v: nat, i: nat)
    requires i >= 1 && v < Pow128(i)
    ensures v / 128 < Pow128(i - 1)
  {}

  lemma HeadNone(v: nat, rest: Bits)
    ensures Pow128(0) == 1 && BytesToBits(Head(v, 0)) + rest == rest
  {}

  lemma HeadDigit(w: nat, d: nat, n: nat, rest: Bits)
    requires d < 128 && 128 * w + d < 0x1_0000_0000_0000_0000
    ensures SizeDec(BytesToBits([(128 + d) as Byte]) + rest, w, n) == SizeDec(rest, 128 * w + d, n + 1)
  {
    hide Take, BytesToBits;
    TakeByte((128 + d) as Byte, rest);
  }

  lemma HeadSplit(v: nat, i: nat, rest: Bits)
    requires i >= 1
    ensures BytesToBits(Head(v, i)) + rest
         == BytesToBits(Head(v / 128, i - 1)) + (BytesToBits([(128 + v % 128) as Byte]) + rest)
  {
    HeadStep(v, i);
    hide *;
    BytesConcat(Head(v / 128, i - 1), [(128 + v % 128) as Byte]);
    Assoc(BytesToBits(Head(v / 128, i - 1)), BytesToBits([(128 + v % 128) as Byte]), rest);
  }

  lemma HeadStep(v: nat, i: nat)
    requires i >= 1
    ensures Head(v, i) == Head(v / 128, i - 1) + [(128 + v % 128) as Byte]
  {}

  /** Decoding undoes the digits and stops right after them. */
  lemma SizeBytesDec(v: nat, i: nat, rest: Bits)
    requires i >= 1 && v < Pow128(i) && v < 0x1_0000_0000_0000_0000
    ensures SizeDec(BytesToBits(SizeBytes(v, i)) + rest, 0, 0) == Got((v, i), rest)
  {
    var w, d := v / 128, v % 128;
    var tail := BytesToBits([d as Byte]) + rest;
    assert w < Pow128(i - 1);
    hide *;
    assert BytesToBits(SizeBytes(v, i)) + rest == BytesToBits(Head(w, i - 1)) + tail by {
      SizeBytesIs(v, i);
      BytesConcat(Head(w, i - 1), [d as Byte]);
      Assoc(BytesToBits(Head(w, i - 1)), BytesToBits([d as Byte]), rest);
    }
    HeadDec(w, i - 1, 0, tail);
    LastDigit(w, d, i - 1, rest);
  }

  lemma SizeBytesIs(v: nat, i: nat)
    requires i >= 1
    ensures SizeBytes(v, i) == Head(v / 128, i - 1) + [(v % 128) as Byte]
  {}

  lemma LastDigit(w: nat, d: nat, n: nat, rest: Bits)
    requires d < 128 && 128 * w + d < 0x1_0000_0000_0000_0000
    ensures SizeDec(BytesToBits([d as Byte]) + rest, w, n) == Got((128 * w + d, n + 1), rest)
  {
    hide Take, BytesToBits;
    TakeByte(d as Byte, rest);
  }

  lemma {:induction false} Pow128Mono(i: nat, j: nat)
    requires i <= j
    ensures Pow128(i) <= Pow128(j)
  {
    if i < j { Pow128Mono(i, j - 1); }
  }

  lemma Pow128Nine()
    ensures Pow128(9) == 0x8000_0000_0000_0000
  {
    assert Pow128(3) == 0x20_0000;
    assert Pow128(6) == 0x20_0000 * Pow128(3);
    assert Pow128(9) == 0x20_0000 * Pow128(6);
  }

  /** Both modes invert: the decoder returns the size (with the code's own length added, when that was
      asked for) and the number of bytes, for every size the encoder can express. */
  lemma SizeRoundTrip(size: nat, add: bool, rest: Bits)
    requires Fits(size, add, 9)
    ensures var i := SizeLen(size, add);
            SizeDec(BytesToBits(SizeCode(size, add)) + rest, 0, 0) == Got((if add then size + i else size, i), rest)
  {
    hide SizeDec, SizeBytes, BytesToBits, Pow128;
    var i := SizeLen(size, add);
    var v := size + if add then i else 0;
    Pow128Mono(i, 9);
    Pow128Nine();
    SizeBytesDec(v, i, rest);
  }

  /** The two length searches of `encodeSize`. */
  method SearchLen(size: nat, addCodeSize: bool) returns (i: nat)
    requires Fits(size, addCodeSize, 9)
    ensures 1 <= i <= 9 && i == SizeLen(size, addCodeSize)
  {
    hide Pow128;
    i := 1;
    if addCodeSize {
      while Pow128(i) as int - i <= size
        invariant 1 <= i <= 9 && SizeLen(size, true) == FirstFit(size, true, i)
        decreases 9 - i
      {
        i := i + 1;
      }
    } else {
      while Pow128(i) <= size
        invariant 1 <= i <= 9 && SizeLen(size, false) == FirstFit(size, false, i)
        decreases 9 - i
      {
        i := i + 1;
      }
    }
  }

  /** The digit loop, from the last digit back. */
  method FillDigits(v: nat, buff: array<Byte>, i: nat)
    requires i <= buff.Length
    modifies buff
    ensures buff[..i] == Head(v, i) && buff[i..] == old(buff[i..])
  {
    var size: nat, j := v, i;
    while j > 0
      invariant 0 <= j <= i
      invariant Head(v, i) == Head(size, j) + buff[j..i]
      invariant buff[i..] == old(buff[i..])
    {
      j := j - 1;
      ghost var done := buff[j + 1..i];
      buff[j] := (128 + size % 128) as Byte;
      assert buff[j..i] == [(128 + size % 128) as Byte] + done;
      Assoc(Head(size / 128, j), [(128 + size % 128) as Byte], done);
      size := size / 128;
    }
    assert buff[..i] == buff[0..i];
  }

  method EncodeSize(size: nat, buff: array<Byte>, addCodeSize: bool) returns (i: nat)
    requires buff.Length >= 10 && Fits(size, addCodeSize, 9)
    modifies buff
    ensures 1 <= i <= 9 && i == SizeLen(size, addCodeSize)
    ensures buff[..i] == SizeCode(size, addCodeSize) && buff[i..] == old(buff[i..])
  {
    i := SearchLen(size, addCodeSize);
    var v := size + if addCodeSize then i else 0;
    SizeCodeIs(size, addCodeSize);
    hide *;
    FillDigits(v, buff, i);
    HeadStep(v, i);
    ghost var digits := buff[..i];
    assert buff[i - 1] == digits[i - 1] == (128 + v % 128) as Byte;
    buff[i - 1] := (buff[i - 1] as nat % 128) as Byte;
    assert buff[..i] == digits[..i - 1] + [(v % 128) as Byte];
  }

  lemma SizeCodeIs(size: nat, add: bool)
    requires Fits(size, add, 9)
    ensures var i := SizeLen(size, add);
            var v := size + if add then i else 0;
            i >= 1 && SizeCode(size, add) == Head(v / 128, i - 1) + [(v % 128) as Byte]
  {}

  method GetSize(r: BitReader) returns (size: nat, ret: nat)
    requires r.Valid() && SizeDec(r.Remaining(), 0, 0).Got?
    modifies r`pos, r`count
    ensures r.Valid() && r.count < 8 && SizeDec(old(r.Remaining()), 0, 0) == Got((size, ret), r.Remaining())
  {
    hide Val;
    size, ret := 0, 0;
    var tmp := 128;
    while tmp >= 128
      invariant r.Valid() && (tmp < 128 ==> r.count < 8)
      invariant SizeDec(old(r.Remaining()), 0, 0)
             == if tmp >= 128 then SizeDec(r.Remaining(), size, ret) else Got((size, ret), r.Remaining())
      decreases tmp >= 128, |r.Remaining()|
    {
      tmp := r.Read(8);
      size := (128 * size + tmp % 128) % 0x1_0000_0000_0000_0000;
      ret := ret + 1;
    }
  }

  // ----- block headers -----

  datatype Block = Block(key: (Byte, Byte), size: nat)

  /** `mpc_bits_get_block`: the header and its length in bytes. The size field counts the whole block. */
  function BlockDec(s: Bits): Parsed<(Block, nat)>
  {
    var (k0, s1) :- Take(s, 8);
    var (k1, s2) :- Take(s1, 8);
    var (p, s3) :- SizeDec(s2, 0, 0);
    var len := 2 + p.1;
    Got((Block((KeyByte(k0), KeyByte(k1)), if len <= p.0 then p.0 - len else p.0), len), s3)
  }

  lemma {:induction false} SizeTakes(s: Bits, acc: nat, n: nat)
    ensures SizeDec(s, acc, n).Got? ==>
              SizeDec(s, acc, n).value.1 > n && |s| == |SizeDec(s, acc, n).rest| + 8 * (SizeDec(s, acc, n).value.1 - n)
    decreases |s|
  {
    hide Val;
    var p := Take(s, 8);
    if p.Got? { SizeTakes(p.rest, (128 * acc + p.value % 128) % 0x1_0000_0000_0000_0000, n + 1); }
  }

  /** The header takes as many bytes as it says, at least three. */
  lemma BlockTakes(s: Bits)
    ensures BlockDec(s).Got? ==> BlockDec(s).value.1 >= 3 && |s| == |BlockDec(s).rest| + 8 * BlockDec(s).value.1
  {
    hide Val, SizeDec;
    if BlockDec(s).Got? { SizeTakes(Take(Take(s, 8).rest, 8).rest, 0, 0); }
  }

  ghost predicate Ends(s: seq<Byte>) { exists i :: 0 <= i < |s| && s[i] < 128 }

  lemma EndsLater(s: seq<Byte>)
    requires s != [] && s[0] >= 128
    ensures Ends(s) == Ends(s[1..])
  {
    if Ends(s) {
      var i :| 0 <= i < |s| && s[i] < 128;
      assert s[1..][i - 1] == s[i];
    }
    if Ends(s[1..]) {
      var i :| 0 <= i < |s[1..]| && s[1..][i] < 128;
      assert s[i + 1] < 128;
    }
  }

  /** A size is read exactly if some byte ends it. */
  lemma {:induction false} SizeEnds(s: seq<Byte>, acc: nat, n: nat)
    ensures SizeDec(BytesToBits(s), acc, n).Got? == Ends(s)
    decreases |s|
  {
    hide BytesToBits, Take, Ends;
    if s == [] {
      NoSize(acc, n);
    } else {
      assert s == [s[0]] + s[1..];
      BytesConcat([s[0]], s[1..]);
      TakeByte(s[0], BytesToBits(s[1..]));
      if s[0] >= 128 {
        EndsLater(s);
        SizeEnds(s[1..], (128 * acc + s[0] as nat % 128) % 0x1_0000_0000_0000_0000, n + 1);
      } else {
        EndsHere(s);
      }
    }
  }

  lemma EndsHere(s: seq<Byte>)
    requires s != [] && s[0] < 128
    ensures Ends(s)
  {}

  lemma NoSize(acc: nat, n: nat)
    ensures SizeDec(BytesToBits([]), acc, n).NoData? && !Ends([])
  {}

  /** A block header is read exactly if there are two bytes and some byte ends the size behind them. */
  lemma BlockEnds(s: seq<Byte>)
    ensures BlockDec(BytesToBits(s)).Got? <==> |s| >= 2 && Ends(s[2..])
  {
    hide BytesToBits, SizeDec, Take, Ends;
    if |s| >= 2 {
      assert s == [s[0]] + ([s[1]] + s[2..]);
      BytesConcat([s[0]], [s[1]] + s[2..]);
      BytesConcat([s[1]], s[2..]);
      TakeByte(s[0], BytesToBits([s[1]]) + BytesToBits(s[2..]));
      TakeByte(s[1], BytesToBits(s[2..]));
      SizeEnds(s[2..], 0, 0);
    } else {
      TooShort(s);
    }
  }

  lemma TooShort(s: seq<Byte>)
    requires |s| < 2
    ensures BlockDec(BytesToBits(s)).NoData?
  {
    hide SizeDec, Val, BytesToBits;
  }

  function KeyByte(v: nat): Byte { (v % 256) as Byte }

  /** The header `writeBlock` puts in front of `size` payload bytes. */
  ghost function BlockHeader(key: (Byte, Byte), size: nat): seq<Byte>
    requires Fits(size + 2, true, 9)
  {
    [key.0] + ([key.1] + SizeCode(size + 2, true))
  }

  /** The self-inclusive size field gives back exactly the payload size that was framed, and no shorter
      field could have held it. */
  lemma BlockRoundTrip(key: (Byte, Byte), size: nat, rest: Bits)
    requires Fits(size + 2, true, 9)
    ensures BlockDec(BytesToBits(BlockHeader(key, size)) + rest)
         == Got((Block(key, size), |BlockHeader(key, size)|), rest)
    ensures forall j :: 1 <= j < SizeLen(size + 2, true) ==> size + 2 + j >= Pow128(j)
  {
    hide SizeDec, SizeBytes, BytesToBits, Take;
    var code := SizeCode(size + 2, true);
    var c, k0, k1 := BytesToBits(code), BytesToBits([key.0]), BytesToBits([key.1]);
    assert BytesToBits(BlockHeader(key, size)) + rest == k0 + (k1 + (c + rest)) by {
      hide *;
      HeaderIs(key, size);
      BytesConcat([key.0], [key.1] + code);
      BytesConcat([key.1], code);
      Assoc(k0, k1 + c, rest);
      Assoc(k1, c, rest);
    }
    TakeByte(key.0, k1 + (c + rest));
    TakeByte(key.1, c + rest);
    SizeRoundTrip(size + 2, true, rest);
  }

  lemma HeaderIs(key: (Byte, Byte), size: nat)
    requires Fits(size + 2, true, 9)
    ensures BlockHeader(key, size) == [key.0] + ([key.1] + SizeCode(size + 2, true))
  {}

  method GetBlock(r: BitReader) returns (b: Block, size: nat)
    requires r.Valid() && BlockDec(r.Remaining()).Got?
    modifies r`pos, r`count
    ensures r.Valid() && r.count < 8 && BlockDec(old(r.Remaining())) == Got((b, size), r.Remaining())
  {
    hide Val, SizeDec;
    var k0 := r.Read(8);
    var k1 := r.Read(8);
    var p, n := GetSize(r);
    size := 2 + n;
    if size <= p { p := p - size; }
    b := Block((KeyByte(k0), KeyByte(k1)), p);
  }
}
