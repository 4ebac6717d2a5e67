/** Golomb codes with a power-of-two divisor, and the decoder that skips whole zero bytes. */
module Golomb {
  import opened BitStrings
  import opened BitWriting
  import opened BitReading
  import opened Integers

  /** The quotient in unary, closed by a one, then `k` remainder bits. */
  function GolombBits(nb: nat, k: nat): Bits
  {
    Enc(1, Shr(nb, k) + 1) + Enc(nb, k)
  }

  /** Counts the zeros before the first one. */
  function Unary(s: Bits): Parsed<nat>
  {
    if s == [] then NoData
    else if s[0] then Got(0, s[1..])
    else
      var (z, r) :- Unary(s[1..]);
      Got(z + 1, r)
  }

  function GolombDec(s: Bits, k: nat): Parsed<nat>
  {
    var (z, s1) :- Unary(s);
    var (low, s2) :- Take(s1, k);
    Got(Shl(z, k) + low, s2)
  }

  lemma {:induction false} ShrOne(n: nat)
    ensures Shr(0, n) == 0 && (n > 0 ==> Shr(1, n) == 0)
  {
    if n > 0 { ShrOne(n - 1); }
  }

  lemma {:induction false} UnaryEnc(z: nat, rest: Bits)
    ensures Unary(Enc(1, z + 1) + rest) == Got(z, rest)
  {
    var s := Enc(1, z + 1) + rest;
    EncSplit(1, 1, z);
    assert Enc(Shr(1, z), 1) == [Shr(1, z) % 2 == 1] by {
      assert Enc(Shr(1, z), 1) == Enc(Shr(1, z) / 2, 0) + [Shr(1, z) % 2 == 1];
    }
    ShrOne(z);
    if z == 0 {
      assert s[1..] == rest;
    } else {
      assert s[1..] == Enc(1, z - 1 + 1) + rest;
      UnaryEnc(z - 1, rest);
    }
  }

  lemma GolombRoundTrip(nb: nat, k: nat, rest: Bits)
    ensures GolombDec(GolombBits(nb, k) + rest, k) == Got(nb, rest)
  {
    hide Enc, Take, Unary, Shl, Shr, Low, Pow2;
    UnaryEnc(Shr(nb, k), Enc(nb, k) + rest);
    Assoc(Enc(1, Shr(nb, k) + 1), Enc(nb, k), rest);
    EncLow(nb, k, k);
    TakeEnc(Low(nb, k), k, rest);
    Recompose(nb, k);
  }

  /** A run of zeros only adds to the unary count. */
  lemma {:induction false} UnarySkip(s: Bits, n: nat)
    requires n <= |s| && Val(s[..n]) == 0 && Unary(s).Got?
    ensures var p := Unary(s[n..]); p.Got? && Unary(s) == Got(n + p.value, p.rest)
  {
    if n == 0 {
      assert s[0..] == s;
    } else {
      hide Val;
      var b := s[..n];
      LeadingVal(b);
      assert b[1..] == s[1..][..n - 1];
      UnarySkip(s[1..], n - 1);
      DropDrop(s, 1, n - 1);
    }
  }

  method EncodeGolomb(e: BitWriter, value: nat, k: nat)
    requires e.Valid() && k <= 31 && e.Free() >= |GolombBits(value, k)|
    modifies e, e.buffer
    ensures e.Valid() && e.buffer == old(e.buffer)
    ensures e.Contents() == old(e.Contents()) + GolombBits(value, k)
    ensures e.Free() == old(e.Free()) - |GolombBits(value, k)|
  {
    ghost var start, unary := e.Contents(), Enc(1, Shr(value, k) + 1);
    Assoc(start, unary, Enc(value, k));
    hide Enc, Shr, Low, Pow2, GolombBits, BytesToBits, BitWriter.Contents, BitWriter.Valid;
    var l := Shr(value, k) + 1;
    var nb := Low(value, k);
    while l > 31
      invariant e.Valid() && e.buffer == old(e.buffer) && l >= 1
      invariant e.Free() - l - k == old(e.Free()) - |GolombBits(value, k)| >= 0
      invariant e.Contents() + Enc(1, l) == start + unary
    {
      EncSplit(1, 31, l - 31);
      ShrOne(l - 31);
      ghost var before, more := e.Contents(), Enc(1, l - 31);
      e.WriteBits(0, 31);
      l := l - 31;
      Assoc(before, Enc(0, 31), more);
    }
    OneFits(l);
    e.WriteBits(1, l);
    EncLow(value, k, k);
    e.WriteBits(nb, k);
  }

  lemma OneFits(l: nat)
    requires l >= 1
    ensures 1 < Pow2(l)
  {}

  lemma SplitAt<T>(s: seq<T>, i: nat, j: nat, k: nat)
    requires i <= j <= k <= |s|
    ensures s[i..k] == s[i..j] + s[j..k]
  {}

  // ----- decoding through a word -----
  //
  // `all` is the whole buffer as bits, `at` the next unread bit, `end` the end of the current byte; the
  // decoder's `code` always holds `all[at..end]`.

  lemma ByteBits(data: seq<Byte>, pos: nat)
    requires pos < |data|
    ensures BytesToBits(data)[8 * pos..8 * pos + 8] == Enc(data[pos] as nat, 8)
  {
    hide *;
    assert data[pos..pos + 1] == [data[pos]];
    BytesSlice(data, pos, pos + 1);
    OneByte(data[pos]);
  }

  /** Taking in one more byte. */
  lemma WordNext(data: seq<Byte>, at: nat, end: nat, pos: nat)
    requires at <= end == 8 * pos && pos < |data|
    ensures Val(BytesToBits(data)[at..end + 8]) == 256 * Val(BytesToBits(data)[at..end]) + data[pos] as nat
  {
    hide *;
    var all, b := BytesToBits(data), Enc(data[pos] as nat, 8);
    assert all[at..end + 8] == all[at..end] + b by {
      ByteBits(data, pos);
      SplitAt(all, at, end, end + 8);
    }
    ValConcat(all[at..end], b);
    assert Val(b) == data[pos] as nat by {
      ValEnc(data[pos] as nat, 8);
      LowByte(data[pos]);
    }
    Shl8(Val(all[at..end]));
  }

  /** What is left of the byte the reader is in. */
  lemma WordByte(data: seq<Byte>, pos: nat, count: nat)
    requires pos < |data| && count <= 8
    ensures Val(BytesToBits(data)[8 * pos + 8 - count..8 * pos + 8]) == Low(data[pos] as nat, count)
  {
    hide *;
    var v, all, end := data[pos] as nat, BytesToBits(data), 8 * pos + 8;
    assert all[end - count..end] == Enc(v, 8)[8 - count..8] by {
      ByteBits(data, pos);
      SliceSlice(all, end - 8, end, 8 - count, 8);
    }
    assert Enc(v, 8)[8 - count..8] == Enc(v, count) by {
      EncSplit(v, 8 - count, count);
      TakePrefix(Enc(Shr(v, count), 8 - count), Enc(v, count));
    }
    ValEnc(v, count);
  }

  /** The shift and mask that pick the remainder out of a word holding the one and what follows it. */
  lemma Remainder(all: Bits, at: nat, end: nat, c: nat, k: nat)
    requires at < end <= |all| && 1 + k + c == end - at
    ensures Low(Shr(Val(all[at..end]), c), k) == Val(all[at + 1..at + 1 + k])
  {
    hide Val, Low, Shr;
    ValSlice(all[at..end], 1, 1 + k);
    SliceSlice(all, at, end, 1, 1 + k);
  }

  lemma LeadingBit(b: Bits)
    requires b != []
    ensures Shr(Val(b), |b| - 1) == Bit(b[0])
    ensures !b[0] ==> Val(b[1..]) == Val(b)
  {
    hide Val, Shr, Low, Shl, Pow2;
    LeadingVal(b);
    ShlPow2(|b| - 1);
    ShlZero(|b| - 1);
    ShrIn(Bit(b[0]), Val(b[1..]), |b| - 1);
  }

  lemma {:induction false} ShlZero(n: nat)
    ensures Shl(0, n) == 0
  {
    if n != 0 { ShlZero(n - 1); }
  }

  lemma LowByte(b: Byte)
    ensures Low(b as nat, 8) == b as nat
  {
    hide Low, Pow2;
    Pow2Facts();
    LowId(b as nat, 8);
  }

  /** `l` zeros have been counted since the code began, whose unary part reads as `u`. */
  ghost predicate Counted(all: Bits, at: nat, u: Parsed<nat>, l: nat)
    requires at <= |all|
  {
    var p := Unary(all[at..]);
    p.Got? && u == Got(l + p.value, p.rest)
  }

  lemma CountedMore(all: Bits, at: nat, u: Parsed<nat>, l: nat)
    requires at <= |all| && Counted(all, at, u, l)
    ensures at < |all|
  {}

  /** Nothing but zeros up to `end`. */
  lemma CountWord(all: Bits, at: nat, end: nat, u: Parsed<nat>, l: nat)
    requires at <= end <= |all| && Counted(all, at, u, l) && Val(all[at..end]) == 0
    ensures Counted(all, end, u, l + (end - at))
  {
    hide Val, Unary;
    var n := end - at;
    DropTake(all, at, n);
    DropDrop(all, at, n);
    UnarySkip(all[at..], n);
  }

  /** The bit under the mask is the next bit of the stream. */
  lemma CountBit(all: Bits, at: nat, end: nat, u: Parsed<nat>, l: nat)
    requires at < end <= |all| && Counted(all, at, u, l)
    ensures var top := Shr(Val(all[at..end]), end - at - 1);
            && (top % 2 == 0 ==> Counted(all, at + 1, u, l + 1) && Val(all[at + 1..end]) == Val(all[at..end]))
            && (top % 2 != 0 ==> u == Got(l, all[at + 1..]))
  {
    hide Val, Shr;
    var b := all[at..end];
    LeadingBit(b);
    assert b[1..] == all[at + 1..end];
    DropDrop(all, at, 1);
  }

  /** What the decoder knows while it skips zero bytes. */
  ghost predicate Skipping(data: seq<Byte>, pos: int, count: int, u: Parsed<nat>, l: nat, code: nat)
  {
    && 0 <= count <= 8 && 0 <= pos < |data| && 32 <= 8 * pos + 8 - count
    && (count == 0 ==> code == 0)
    && Counted(BytesToBits(data), 8 * pos + 8 - count, u, l)
    && code == Val(BytesToBits(data)[8 * pos + 8 - count..8 * pos + 8])
  }

  lemma SkippingStart(r: BitReader)
    requires r.Valid() && Unary(r.Remaining()).Got?
    ensures r.pos >= 0 && r.pos < |r.data|
    ensures Skipping(r.data, r.pos, r.count, Unary(r.Remaining()), 0, Low(r.data[r.pos] as nat, r.count))
  {
    var all, u := BytesToBits(r.data), Unary(r.Remaining());
    assert Counted(all, r.At(), u, 0);
    hide Val, BytesToBits, Unary, Low, Counted;
    assert r.At() < |all| by { CountedMore(all, r.At(), u, 0); }
    WordByte(r.data, r.pos, r.count);
    if r.count == 0 { LowZero(r.data[r.pos] as nat); }
  }

  lemma LowZero(v: nat)
    ensures Low(v, 0) == 0
  {}

  lemma SkippingStep(data: seq<Byte>, pos: int, count: int, u: Parsed<nat>, l: nat, code: nat)
    requires Skipping(data, pos, count, u, l, code) && code == 0
    ensures pos + 1 < |data| && Skipping(data, pos + 1, 8, u, l + count, data[pos + 1] as nat)
  {
    hide Val, BytesToBits, Unary, Low, Counted;
    var all, end := BytesToBits(data), 8 * pos + 8;
    CountWord(all, end - count, end, u, l);
    CountedMore(all, end, u, l + count);
    WordByte(data, pos + 1, 8);
    LowByte(data[pos + 1]);
  }

  /** Steps over whole zero bytes. */
  method SkipBytes(r: BitReader) returns (l: nat, code: nat)
    requires r.Valid() && Unary(r.Remaining()).Got?
    modifies r`pos, r`count
    ensures code > 0 && Skipping(r.data, r.pos, r.count, Unary(old(r.Remaining())), l, code)
  {
    hide Val, BytesToBits, Unary, Low, Counted;
    ghost var u := Unary(r.Remaining());
    SkippingStart(r);
    l := 0;
    code := Low(r.data[r.pos] as nat, r.count);
    while code == 0
      invariant Skipping(r.data, r.pos, r.count, u, l, code)
      decreases |r.data| - r.pos
    {
      SkippingStep(r.data, r.pos, r.count, u, l, code);
      l := l + r.count;
      r.pos := r.pos + 1;
      code := r.data[r.pos] as nat;
      r.count := 8;
    }
  }

  lemma EmptyWord(all: Bits, at: nat)
    requires at <= |all|
    ensures Val(all[at..at]) == 0
  {}

  /** Steps over the zeros of the byte the one is in. */
  method SkipBits(r: BitReader, code: nat, l0: nat, ghost u: Parsed<nat>) returns (l: nat)
    requires 0 < r.count <= 8 && code > 0 && 0 <= r.pos < |r.data|
    requires Counted(BytesToBits(r.data), r.At(), u, l0)
    requires code == Val(BytesToBits(r.data)[r.At()..8 * r.pos + 8])
    modifies r`count
    ensures 0 < r.count <= old(r.count)
    ensures code == Val(BytesToBits(r.data)[r.At()..8 * r.pos + 8])
    ensures u == Got(l, BytesToBits(r.data)[r.At() + 1..])
  {
    hide Val, BytesToBits, Unary, Shr, Counted;
    ghost var all := BytesToBits(r.data);
    l := l0;
    CountBit(all, r.At(), 8 * r.pos + 8, u, l);
    while Shr(code, r.count - 1) % 2 == 0
      invariant 0 < r.count <= old(r.count)
      invariant Counted(all, r.At(), u, l) && code == Val(all[r.At()..8 * r.pos + 8])
      invariant Shr(code, r.count - 1) % 2 != 0 ==> u == Got(l, all[r.At() + 1..])
      decreases r.count
    {
      CountBit(all, r.At(), 8 * r.pos + 8, u, l);
      EmptyWord(all, 8 * r.pos + 8);
      l := l + 1;
      r.count := r.count - 1;
      CountBit(all, r.At(), 8 * r.pos + 8, u, l);
    }
  }

  /** Pulls in bytes until at least `k` bits follow the one. */
  method PullBytes(r: BitReader, code0: nat, k: nat, ghost at: nat) returns (code: nat)
    requires 0 <= r.pos < |r.data| && 0 <= r.count < 8 && r.At() == at + 1 && at + 1 + k <= 8 * |r.data|
    requires code0 == Val(BytesToBits(r.data)[at..8 * r.pos + 8])
    modifies r`pos, r`count
    ensures 0 <= r.pos < |r.data| && k <= r.count < k + 8 && r.At() == at + 1
    ensures code == Val(BytesToBits(r.data)[at..8 * r.pos + 8])
  {
    hide Val, BytesToBits;
    code := code0;
    while r.count < k
      invariant 0 <= r.pos < |r.data| && 0 <= r.count < k + 8 && r.At() == at + 1
      invariant code == Val(BytesToBits(r.data)[at..8 * r.pos + 8])
      decreases k - r.count
    {
      r.pos := r.pos + 1;
      r.count := r.count + 8;
      WordNext(r.data, at, 8 * r.pos, r.pos);
      code := 256 * code + r.data[r.pos] as nat;
    }
  }

  /** Golomb decoding: whole zero bytes, then single zeros, then further bytes until the word holds the
      remainder. */
  method GolombDecode(r: BitReader, k: nat) returns (value: nat)
    requires r.Valid() && k <= 24 && GolombDec(r.Remaining(), k).Got?
    modifies r`pos, r`count
    ensures r.Valid() && GolombDec(old(r.Remaining()), k) == Got(value, r.Remaining())
  {
    hide Val, BytesToBits, Unary, Shr, Shl, Low, Counted;
    ghost var all, u := BytesToBits(r.data), Unary(r.Remaining());
    var l, code := SkipBytes(r);
    l := SkipBits(r, code, l, u);
    ghost var at := r.At();
    r.count := r.count - 1;
    code := PullBytes(r, code, k, at);
    r.count := r.count - k;
    assert Low(Shr(code, r.count), k) == Val(all[at + 1..][..k]) by {
      Remainder(all, at, 8 * r.pos + 8, r.count, k);
      DropTake(all, at + 1, k);
    }
    assert r.Remaining() == all[at + 1..][k..] by { DropDrop(all, at + 1, k); }
    value := Shl(l, k) + Low(Shr(code, r.count), k);
  }
}
